/** The bytes of every frame, field by field, as section 4.1 and section 6 of RFC 7540 lay
    them out. Nothing here refers to how the framer builds or takes apart a frame. */
module FrameLayout {
  import opened Common
  import opened Flow
  import opened Frames
  import opened FrameCodec

  // ---------- fields ----------

  /** The two bytes at `at` hold v, high byte first; likewise for three and four. */
  predicate Holds16(s: seq<byte>, at: nat, v: int) {
    at + 2 <= |s| && s[at] as int * 0x100 + s[at + 1] as int == v
  }

  predicate Holds24(s: seq<byte>, at: nat, v: int) {
    at + 3 <= |s| && s[at] as int * 0x1_0000 + s[at + 1] as int * 0x100 + s[at + 2] as int == v
  }

  predicate Holds32(s: seq<byte>, at: nat, v: int) {
    && at + 4 <= |s|
    && s[at] as int * 0x100_0000 + s[at + 1] as int * 0x1_0000 + s[at + 2] as int * 0x100 + s[at + 3] as int == v
  }

  predicate HoldsBytes(s: seq<byte>, at: nat, v: seq<byte>) {
    at + |v| <= |s| && s[at..at + |v|] == v
  }

  predicate HoldsZeros(s: seq<byte>, at: nat, n: nat) {
    at + n <= |s| && forall i :: at <= i < at + n ==> s[i] == 0
  }

  /** Length, type, flags and stream id. */
  predicate HeaderIs(s: seq<byte>, length: nat, typ: int, flags: int, id: int) {
    |s| == 9 + length && Holds24(s, 0, length) && s[3] as int == typ && s[4] as int == flags && Holds32(s, 5, id)
  }

  function Bit(on: bool, value: nat): nat {
    if on then value else 0
  }

  /** The dependency, with the exclusive flag as the highest bit. */
  function Dependency(p: Priority): int {
    p.dep + Bit(p.exclusive, 0x8000_0000)
  }

  // ---------- frames as they are written ----------

  predicate Laid(p: Params, s: seq<byte>) {
    match p
    case WriteData(id, endStream, data, pad) =>
      if pad.None? then
        HeaderIs(s, |data|, 0, Bit(endStream, 1), id) && HoldsBytes(s, 9, data)
      else
        && HeaderIs(s, 1 + |data| + |pad.value|, 0, Bit(endStream, 1) + 8, id)
        && s[9] as int == |pad.value| && HoldsBytes(s, 10, data) && HoldsZeros(s, 10 + |data|, |pad.value|)
    case WriteHeaders(id, fragment, endStream, endHeaders, padLength, priority) =>
      var bare := priority == Priority(0, false, 0);
      var at := 9 + Bit(padLength > 0, 1);
      var body := at + Bit(!bare, 5);
      && HeaderIs(s, body - 9 + |fragment| + padLength, 1,
                  Bit(endStream, 1) + Bit(endHeaders, 4) + Bit(padLength > 0, 8) + Bit(!bare, 0x20), id)
      && (padLength > 0 ==> s[9] == padLength)
      && (!bare ==> Holds32(s, at, Dependency(priority)) && s[at + 4] == priority.weight)
      && HoldsBytes(s, body, fragment) && HoldsZeros(s, body + |fragment|, padLength)
    case WritePriority(id, priority) =>
      HeaderIs(s, 5, 2, 0, id) && Holds32(s, 9, Dependency(priority)) && s[13] == priority.weight
    case WriteRSTStream(id, code) => HeaderIs(s, 4, 3, 0, id) && Holds32(s, 9, code)
    case WriteSettings(settings) =>
      && HeaderIs(s, 6 * |settings|, 4, 0, 0)
      && forall i :: 0 <= i < |settings| ==> SettingIs(s, i, settings[i])
    case WriteSettingsAck => HeaderIs(s, 0, 4, 1, 0)
    case WritePushPromise(id, promise, fragment, endHeaders, padLength) =>
      var at := 9 + Bit(padLength > 0, 1);
      && HeaderIs(s, at - 5 + |fragment| + padLength, 5, Bit(endHeaders, 4) + Bit(padLength > 0, 8), id)
      && (padLength > 0 ==> s[9] == padLength)
      && Holds32(s, at, promise) && HoldsBytes(s, at + 4, fragment) && HoldsZeros(s, at + 4 + |fragment|, padLength)
    case WritePing(ack, ping) => HeaderIs(s, 8, 6, Bit(ack, 1), 0) && HoldsBytes(s, 9, ping)
    case WriteGoAway(lastID, code, debug) =>
      && HeaderIs(s, 8 + |debug|, 7, 0, 0)
      && Holds32(s, 9, lastID % 0x8000_0000) && Holds32(s, 13, code) && HoldsBytes(s, 17, debug)
    case WriteWindowUpdate(id, increment) => HeaderIs(s, 4, 8, 0, id) && Holds32(s, 9, increment)
    case WriteContinuation(id, endHeaders, fragment) =>
      HeaderIs(s, |fragment|, 9, Bit(endHeaders, 4), id) && HoldsBytes(s, 9, fragment)
  }

  predicate SettingIs(s: seq<byte>, i: nat, setting: Setting) {
    Holds16(s, 9 + 6 * i, setting.id) && Holds32(s, 11 + 6 * i, setting.val)
  }

  // ---------- the framer writes them so ----------

  /** Numbers go high byte first. */
  lemma Numbers16(v: uint16)
    ensures Be16(v) == [v / 0x100, v % 0x100]
  {
  }

  lemma Numbers24(v: nat)
    requires v < LENGTH_LIMIT
    ensures Holds24(Be24(v), 0, v)
  {
    hide Be16;
    Numbers16(v % 0x1_0000);
  }

  lemma Numbers32(v: uint32)
    ensures Holds32(Be32(v), 0, v)
  {
    hide Be16;
    Numbers16(v / 0x1_0000);
    Numbers16(v % 0x1_0000);
  }

  lemma Be32Holds(a: seq<byte>, v: uint32, b: seq<byte>)
    ensures Holds32(a + Be32(v) + b, |a|, v)
  {
    hide Be32;
    var s := a + Be32(v) + b;
    assert s[|a|] == Be32(v)[0] && s[|a| + 1] == Be32(v)[1] && s[|a| + 2] == Be32(v)[2] && s[|a| + 3] == Be32(v)[3];
    Numbers32(v);
  }

  lemma EncodeIs(typ: byte, flags: byte, id: uint32, payload: seq<byte>)
    requires |payload| < LENGTH_LIMIT
    ensures var s := Encode(typ, flags, id, payload);
            HeaderIs(s, |payload|, typ as int, flags as int, id) && s[9..] == payload
  {
    hide Be32, Be24, Holds32;
    var s := Encode(typ, flags, id, payload);
    var l := Be24(|payload|);
    Numbers24(|payload|);
    assert s == (l + [typ, flags]) + Be32(id) + payload;
    Be32Holds(l + [typ, flags], id, payload);
  }

  /** What holds of the payload holds of the frame, nine bytes on. */
  lemma Shift(s: seq<byte>, p: seq<byte>, at: nat)
    requires |s| == 9 + |p| && s[9..] == p
    ensures forall v :: Holds16(p, at, v) ==> Holds16(s, at + 9, v)
    ensures forall v :: Holds32(p, at, v) ==> Holds32(s, at + 9, v)
    ensures forall v :: HoldsBytes(p, at, v) ==> HoldsBytes(s, at + 9, v)
    ensures forall n :: HoldsZeros(p, at, n) ==> HoldsZeros(s, at + 9, n)
    ensures at < |p| ==> s[at + 9] == p[at]
  {
    assert forall i :: 0 <= i < |p| ==> s[i + 9] == p[i];
    forall v | HoldsBytes(p, at, v) ensures HoldsBytes(s, at + 9, v) {
      assert s[at + 9..at + 9 + |v|] == p[at..at + |v|];
    }
    forall n, i | HoldsZeros(p, at, n) && at + 9 <= i < at + 9 + n ensures s[i] == 0 {
      assert s[i - 9 + 9] == p[i - 9];
    }
  }

  lemma Behind(a: seq<byte>, b: seq<byte>, c: seq<byte>)
    ensures HoldsBytes(a + b + c, |a|, b)
  {
    assert (a + b + c)[|a|..|a| + |b|] == b;
  }

  lemma ZerosEnd(a: seq<byte>, n: nat)
    ensures HoldsZeros(a + Zeros(n), |a|, n)
  {
  }

  lemma WordIs(p: Priority)
    requires p.dep < ID_LIMIT
    ensures Word(p) == Dependency(p)
  {
  }

  lemma DataLaid(p: Params)
    requires p.WriteData? && Writable(p)
    ensures Laid(p, Written(p))
  {
    hide Encode, HeaderIs;
    EncodeIs(Type(p), FlagsOf(p), IDOf(p), Body(p));
    var s := Written(p);
    HeaderSize(s, |Body(p)|, Type(p) as int, FlagsOf(p) as int, IDOf(p));
    if p.pad.Some? {
      Behind([|p.pad.value|], p.data, p.pad.value);
      Shift(s, Body(p), 0);
      Shift(s, Body(p), 1);
      Shift(s, Body(p), 1 + |p.data|);
    }
  }

  lemma HeaderSize(s: seq<byte>, length: nat, typ: int, flags: int, id: int)
    requires HeaderIs(s, length, typ, flags, id)
    ensures |s| == 9 + length
  {
  }

  lemma HeadersBody(p: Params)
    requires p.WriteHeaders? && Writable(p)
    ensures var b := Body(p);
            var bare := p.priority == Priority(0, false, 0);
            var at := Bit(p.padLength > 0, 1);
            var body := at + Bit(!bare, 5);
            && |b| == body + |p.fragment| + p.padLength as int
            && (p.padLength > 0 ==> b[0] == p.padLength)
            && (!bare ==> Holds32(b, at, Dependency(p.priority)) && b[at + 4] == p.priority.weight)
            && HoldsBytes(b, body, p.fragment) && HoldsZeros(b, body + |p.fragment|, p.padLength)
  {
    hide Be32, Word, Holds32;
    var front, prio := PadByte(p.padLength), PriorityBytes(p.priority);
    var b := Body(p);
    assert b == front + prio + p.fragment + Zeros(p.padLength);
    WordIs(p.priority);
    if !p.priority.IsZero() {
      var tail := [p.priority.weight] + p.fragment + Zeros(p.padLength);
      assert b == front + Be32(Word(p.priority)) + tail;
      Be32Holds(front, Word(p.priority), tail);
    }
    Behind(front + prio, p.fragment, Zeros(p.padLength));
    ZerosEnd(front + prio + p.fragment, p.padLength);
  }

  lemma HeadersLaid(p: Params)
    requires p.WriteHeaders? && Writable(p)
    ensures Laid(p, Written(p))
  {
    hide Encode, HeaderIs, Body, Holds32, HoldsBytes, HoldsZeros;
    EncodeIs(Type(p), FlagsOf(p), IDOf(p), Body(p));
    var s, b := Written(p), Body(p);
    HeaderSize(s, |b|, Type(p) as int, FlagsOf(p) as int, IDOf(p));
    HeadersBody(p);
    var at := Bit(p.padLength > 0, 1);
    var body := at + Bit(p.priority != Priority(0, false, 0), 5);
    Shift(s, b, 0);
    Shift(s, b, at);
    Shift(s, b, at + 4);
    Shift(s, b, body);
    Shift(s, b, body + |p.fragment|);
  }

  lemma PromiseBody(p: Params)
    requires p.WritePushPromise? && Writable(p)
    ensures var b := Body(p);
            var at := Bit(p.padLength > 0, 1);
            && |b| == at + 4 + |p.fragment| + p.padLength as int
            && (p.padLength > 0 ==> b[0] == p.padLength)
            && Holds32(b, at, p.promise)
            && HoldsBytes(b, at + 4, p.fragment) && HoldsZeros(b, at + 4 + |p.fragment|, p.padLength)
  {
    hide Be32, Holds32;
    var front, tail := PadByte(p.padLength), p.fragment + Zeros(p.padLength);
    assert Body(p) == front + Be32(p.promise) + tail;
    Be32Holds(front, p.promise, tail);
    Behind(front + Be32(p.promise), p.fragment, Zeros(p.padLength));
    ZerosEnd(front + Be32(p.promise) + p.fragment, p.padLength);
  }

  lemma PromiseLaid(p: Params)
    requires p.WritePushPromise? && Writable(p)
    ensures Laid(p, Written(p))
  {
    hide Encode, HeaderIs, Body, Holds32, HoldsBytes, HoldsZeros;
    EncodeIs(Type(p), FlagsOf(p), IDOf(p), Body(p));
    var s, b := Written(p), Body(p);
    HeaderSize(s, |b|, Type(p) as int, FlagsOf(p) as int, IDOf(p));
    PromiseBody(p);
    var at := Bit(p.padLength > 0, 1);
    Shift(s, b, 0);
    Shift(s, b, at);
    Shift(s, b, at + 4);
    Shift(s, b, at + 4 + |p.fragment|);
  }

  lemma {:induction false} SettingsHold(settings: seq<Setting>, i: nat)
    requires i < |settings|
    ensures var b := SettingsBytes(settings);
            Holds16(b, 6 * i, settings[i].id) && Holds32(b, 6 * i + 2, settings[i].val)
  {
    hide Be32, Be16, Holds32;
    var head, val, tail := Be16(settings[0].id), Be32(settings[0].val), SettingsBytes(settings[1..]);
    var b := SettingsBytes(settings);
    assert b == head + val + tail;
    if i == 0 {
      Numbers16(settings[0].id);
      Be32Holds(head, settings[0].val, tail);
    } else {
      SettingsHold(settings[1..], i - 1);
      var at := 6 * (i - 1);
      assert b[at + 6] == tail[at] && b[at + 7] == tail[at + 1];
      Behind32(b, tail, at + 2, settings[i].val);
    }
  }

  lemma Behind32(b: seq<byte>, tail: seq<byte>, at: nat, v: int)
    requires |b| == 6 + |tail| && b[6..] == tail && Holds32(tail, at, v)
    ensures Holds32(b, at + 6, v)
  {
    assert forall i :: 0 <= i < |tail| ==> b[i + 6] == tail[i];
  }

  lemma SettingsLaid(p: Params)
    requires p.WriteSettings? && Writable(p)
    ensures Laid(p, Written(p))
  {
    hide Encode, HeaderIs, Holds16, Holds32, SettingsBytes;
    EncodeIs(Type(p), FlagsOf(p), IDOf(p), Body(p));
    var s, b := Written(p), Body(p);
    HeaderSize(s, |b|, Type(p) as int, FlagsOf(p) as int, IDOf(p));
    forall i | 0 <= i < |p.settings| ensures SettingIs(s, i, p.settings[i]) {
      SettingsHold(p.settings, i);
      Shift(s, b, 6 * i);
      Shift(s, b, 6 * i + 2);
    }
  }

  lemma PriorityLaid(p: Params)
    requires p.WritePriority? && Writable(p)
    ensures Laid(p, Written(p))
  {
    hide Encode, HeaderIs, Holds32, Be32, Word;
    var s, b, w := Written(p), Body(p), Word(p.priority);
    EncodeIs(2, 0, p.id, b);
    WordIs(p.priority);
    assert b == [] + Be32(w) + [p.priority.weight];
    Be32Holds([], w, [p.priority.weight]);
    Shift(s, b, 0);
    Shift(s, b, 4);
  }

  lemma GoAwayLaid(p: Params)
    requires p.WriteGoAway? && Writable(p)
    ensures Laid(p, Written(p))
  {
    hide Encode, HeaderIs, Holds32, Be32;
    var s, b, last := Written(p), Body(p), Be32(p.lastID % ID_LIMIT);
    EncodeIs(7, 0, 0, b);
    assert b == [] + last + (Be32(p.code) + p.debug) && b == last + Be32(p.code) + p.debug;
    Be32Holds([], p.lastID % ID_LIMIT, Be32(p.code) + p.debug);
    Be32Holds(last, p.code, p.debug);
    Shift(s, b, 0);
    Shift(s, b, 4);
    assert s[17..17 + |p.debug|] == b[8..];
  }

  lemma OthersLaid(p: Params)
    requires Writable(p) && (p.WriteRSTStream? || p.WriteSettingsAck? || p.WritePing? || p.WriteWindowUpdate?
                             || p.WriteContinuation?)
    ensures Laid(p, Written(p))
  {
    hide Encode, HeaderIs, Holds32, Be32;
    var s, b := Written(p), Body(p);
    EncodeIs(Type(p), FlagsOf(p), IDOf(p), b);
    Shift(s, b, 0);
    if p.WriteRSTStream? {
      Numbers32(p.code);
    } else if p.WriteWindowUpdate? {
      Numbers32(p.increment);
    }
  }

  /** Every frame that is written has every field in its place, and nothing else. */
  lemma WrittenLaid(p: Params)
    requires Writable(p)
    ensures Laid(p, Written(p))
  {
    hide Laid, Written, Writable;
    match p
    case WriteData(_, _, _, _) => DataLaid(p);
    case WriteHeaders(_, _, _, _, _, _) => HeadersLaid(p);
    case WriteSettings(_) => SettingsLaid(p);
    case WritePushPromise(_, _, _, _, _) => PromiseLaid(p);
    case WritePriority(_, _) => PriorityLaid(p);
    case WriteGoAway(_, _, _) => GoAwayLaid(p);
    case _ => OthersLaid(p);
  }

  // ---------- and only so ----------

  /** s and t agree from `at` on, for n bytes. */
  predicate Same(s: seq<byte>, t: seq<byte>, at: nat, n: nat) {
    at + n <= |s| && at + n <= |t| && forall i :: at <= i < at + n ==> s[i] == t[i]
  }

  lemma LastDigit(a: int, b: int, c: byte, d: byte)
    requires a * 0x100 + c as int == b * 0x100 + d as int
    ensures a == b && c == d
  {
  }

  lemma Same32(s: seq<byte>, t: seq<byte>, at: nat, v: int)
    requires Holds32(s, at, v) && Holds32(t, at, v)
    ensures Same(s, t, at, 4)
  {
    var a, b := s[at] as int * 0x100 + s[at + 1] as int, t[at] as int * 0x100 + t[at + 1] as int;
    LastDigit(a * 0x100 + s[at + 2] as int, b * 0x100 + t[at + 2] as int, s[at + 3], t[at + 3]);
    LastDigit(a, b, s[at + 2], t[at + 2]);
    LastDigit(s[at] as int, t[at] as int, s[at + 1], t[at + 1]);
  }

  lemma SameBytes(s: seq<byte>, t: seq<byte>, at: nat, v: seq<byte>)
    requires HoldsBytes(s, at, v) && HoldsBytes(t, at, v)
    ensures Same(s, t, at, |v|)
  {
    forall i | at <= i < at + |v| ensures s[i] == t[i] {
      assert s[i] == s[at..at + |v|][i - at] && t[i] == t[at..at + |v|][i - at];
    }
  }

  lemma SameHeader(s: seq<byte>, t: seq<byte>, length: nat, typ: int, flags: int, id: int)
    requires HeaderIs(s, length, typ, flags, id) && HeaderIs(t, length, typ, flags, id)
    ensures |s| == |t| == 9 + length && Same(s, t, 0, 9)
  {
    Same32(s, t, 5, id);
  }

  lemma Together(s: seq<byte>, t: seq<byte>, a: nat, b: nat)
    requires Same(s, t, 0, a) && Same(s, t, a, b)
    ensures Same(s, t, 0, a + b)
  {
  }

  lemma Whole(s: seq<byte>, t: seq<byte>)
    requires |s| == |t| && Same(s, t, 0, |s|)
    ensures s == t
  {
  }

  lemma HeadersUnique(p: Params, s: seq<byte>, t: seq<byte>)
    requires p.WriteHeaders? && Laid(p, s) && Laid(p, t)
    ensures s == t
  {
    hide HeaderIs, Holds32, HoldsBytes;
    var bare := p.priority == Priority(0, false, 0);
    var at := 9 + Bit(p.padLength > 0, 1);
    var body := at + Bit(!bare, 5);
    SameHeader(s, t, body - 9 + |p.fragment| + p.padLength, 1, Bit(p.endStream, 1) + Bit(p.endHeaders, 4)
               + Bit(p.padLength > 0, 8) + Bit(!bare, 0x20), p.id);
    Together(s, t, 9, at - 9);
    if !bare {
      Same32(s, t, at, Dependency(p.priority));
      Together(s, t, at, 4);
      Together(s, t, at + 4, 1);
    }
    SameBytes(s, t, body, p.fragment);
    Together(s, t, body, |p.fragment|);
    Together(s, t, body + |p.fragment|, p.padLength);
    Whole(s, t);
  }

  lemma PromiseUnique(p: Params, s: seq<byte>, t: seq<byte>)
    requires p.WritePushPromise? && Laid(p, s) && Laid(p, t)
    ensures s == t
  {
    hide HeaderIs, Holds32, HoldsBytes;
    var at := 9 + Bit(p.padLength > 0, 1);
    SameHeader(s, t, at - 5 + |p.fragment| + p.padLength, 5, Bit(p.endHeaders, 4) + Bit(p.padLength > 0, 8), p.id);
    Together(s, t, 9, at - 9);
    Same32(s, t, at, p.promise);
    Together(s, t, at, 4);
    SameBytes(s, t, at + 4, p.fragment);
    Together(s, t, at + 4, |p.fragment|);
    Together(s, t, at + 4 + |p.fragment|, p.padLength);
    Whole(s, t);
  }

  lemma DataUnique(p: Params, s: seq<byte>, t: seq<byte>)
    requires p.WriteData? && Laid(p, s) && Laid(p, t)
    ensures s == t
  {
    hide HeaderIs, HoldsBytes;
    if p.pad.None? {
      SameHeader(s, t, |p.data|, 0, Bit(p.endStream, 1), p.id);
      SameBytes(s, t, 9, p.data);
      Together(s, t, 9, |p.data|);
    } else {
      var n := |p.pad.value|;
      SameHeader(s, t, 1 + |p.data| + n, 0, Bit(p.endStream, 1) + 8, p.id);
      Together(s, t, 9, 1);
      SameBytes(s, t, 10, p.data);
      Together(s, t, 10, |p.data|);
      Together(s, t, 10 + |p.data|, n);
    }
    Whole(s, t);
  }

  lemma {:induction false} SettingsUnique(settings: seq<Setting>, s: seq<byte>, t: seq<byte>, n: nat)
    requires n <= |settings| && Same(s, t, 0, 9)
    requires forall i :: 0 <= i < |settings| ==> SettingIs(s, i, settings[i])
    requires forall i :: 0 <= i < |settings| ==> SettingIs(t, i, settings[i])
    ensures Same(s, t, 0, 9 + 6 * n)
    decreases n
  {
    hide Holds32;
    if n > 0 {
      SettingsUnique(settings, s, t, n - 1);
      var at := 9 + 6 * (n - 1);
      assert SettingIs(s, n - 1, settings[n - 1]) && SettingIs(t, n - 1, settings[n - 1]);
      assert Same(s, t, at, 2);
      Same32(s, t, at + 2, settings[n - 1].val);
      Together(s, t, at, 2);
      Together(s, t, at + 2, 4);
    }
  }

  lemma GoAwayUnique(p: Params, s: seq<byte>, t: seq<byte>)
    requires p.WriteGoAway? && Laid(p, s) && Laid(p, t)
    ensures s == t
  {
    hide HeaderIs, Holds32, HoldsBytes;
    SameHeader(s, t, 8 + |p.debug|, 7, 0, 0);
    Same32(s, t, 9, p.lastID % 0x8000_0000);
    Same32(s, t, 13, p.code);
    SameBytes(s, t, 17, p.debug);
    Together(s, t, 9, 4);
    Together(s, t, 13, 4);
    Together(s, t, 17, |p.debug|);
    Whole(s, t);
  }

  lemma OthersUnique(p: Params, s: seq<byte>, t: seq<byte>)
    requires Laid(p, s) && Laid(p, t) && !p.WriteHeaders? && !p.WritePushPromise? && !p.WriteData? && !p.WriteGoAway?
    ensures s == t
  {
    hide HeaderIs, Holds32, HoldsBytes, SettingIs;
    match p
    case WritePriority(id, priority) =>
      SameHeader(s, t, 5, 2, 0, id);
      Same32(s, t, 9, Dependency(priority));
    case WriteRSTStream(id, code) =>
      SameHeader(s, t, 4, 3, 0, id);
      Same32(s, t, 9, code);
    case WriteSettings(settings) =>
      SameHeader(s, t, 6 * |settings|, 4, 0, 0);
      SettingsUnique(settings, s, t, |settings|);
    case WriteSettingsAck => SameHeader(s, t, 0, 4, 1, 0);
    case WritePing(ack, ping) =>
      SameHeader(s, t, 8, 6, Bit(ack, 1), 0);
      SameBytes(s, t, 9, ping);
    case WriteWindowUpdate(id, increment) =>
      SameHeader(s, t, 4, 8, 0, id);
      Same32(s, t, 9, increment);
    case WriteContinuation(id, endHeaders, fragment) =>
      SameHeader(s, t, |fragment|, 9, Bit(endHeaders, 4), id);
      SameBytes(s, t, 9, fragment);
  }

  /** The layout says it all: a request is written as exactly the bytes that have it. */
  lemma WrittenExactly(p: Params, s: seq<byte>)
    requires Writable(p)
    ensures Laid(p, s) <==> s == Written(p)
  {
    hide Laid, Written, Writable;
    WrittenLaid(p);
    if Laid(p, s) {
      match p
      case WriteData(_, _, _, _) => DataUnique(p, s, Written(p));
      case WriteHeaders(_, _, _, _, _, _) => HeadersUnique(p, s, Written(p));
      case WritePushPromise(_, _, _, _, _) => PromiseUnique(p, s, Written(p));
      case WriteGoAway(_, _, _) => GoAwayUnique(p, s, Written(p));
      case _ => OthersUnique(p, s, Written(p));
    }
  }

  /** A reset of stream 1 with code 8, byte by byte. */
  lemma ResetBytes()
    ensures Writable(WriteRSTStream(1, 8))
    ensures Written(WriteRSTStream(1, 8)) == [0, 0, 4, 3, 0, 0, 0, 0, 1, 0, 0, 0, 8]
  {
    WrittenExactly(WriteRSTStream(1, 8), [0, 0, 4, 3, 0, 0, 0, 0, 1, 0, 0, 0, 8]);
  }

  // ---------- frames as they are read ----------

  predicate Padded(h: Header) {
    h.flags as int / 8 % 2 == 1
  }

  predicate Prioritized(h: Header) {
    h.flags as int / 0x20 % 2 == 1
  }

  /** How many bytes the pad length takes, and how many bytes of padding it announces. */
  function Front(h: Header): nat {
    Bit(Padded(h), 1)
  }

  function Padding(h: Header, p: seq<byte>): nat {
    if Padded(h) && p != [] then p[0] as int else 0
  }

  /** The i-th setting is the first one with that id, and this is its value. */
  predicate FirstSetting(p: seq<byte>, i: nat, id: int, v: int) {
    && Holds16(p, 6 * i, id) && Holds32(p, 6 * i + 2, v)
    && forall j :: 0 <= j < i ==> !Holds16(p, 6 * j, id)
  }

  /** Why a payload is refused, if it is. */
  ghost function Refusal(h: Header, p: seq<byte>): Option<Error> {
    var front, pad := Front(h), Padding(h, p);
    match h.typ as int
    case 0 =>
      if h.id == 0 then Some(ProtocolError)
      else if Padded(h) && p == [] then Some(Truncated)
      else if front + pad > |p| then Some(ProtocolError) else None
    case 1 =>
      var body := front + Bit(Prioritized(h), 5);
      if h.id == 0 then Some(ProtocolError)
      else if (Padded(h) && p == []) || body > |p| then Some(Truncated)
      else if body + pad >= |p| then Some(StreamProtocolError(h.id)) else None
    case 2 => if h.id == 0 then Some(ProtocolError) else if |p| != 5 then Some(FrameSizeError) else None
    case 3 => if |p| != 4 then Some(FrameSizeError) else if h.id == 0 then Some(ProtocolError) else None
    case 4 =>
      if h.flags as int % 2 == 1 && h.length > 0 then Some(FrameSizeError)
      else if h.id != 0 then Some(ProtocolError)
      else if |p| % 6 != 0 then Some(FrameSizeError)
      else if exists i, v :: 0 <= i < |p| / 6 && v > 0x7fff_ffff && FirstSetting(p, i, 4, v) then Some(FlowControlError)
      else None
    case 5 =>
      if h.id == 0 then Some(ProtocolError)
      else if (Padded(h) && p == []) || front + 4 > |p| then Some(Truncated)
      else if front + 4 + pad > |p| then Some(ProtocolError) else None
    case 6 => if |p| != 8 then Some(FrameSizeError) else if h.id != 0 then Some(ProtocolError) else None
    case 7 => if h.id != 0 then Some(ProtocolError) else if |p| < 8 then Some(FrameSizeError) else None
    case 8 =>
      if |p| != 4 then Some(FrameSizeError)
      else if Holds32(p, 0, 0) || Holds32(p, 0, 0x8000_0000)
      then Some(if h.id == 0 then ProtocolError else StreamProtocolError(h.id)) else None
    case 9 => if h.id == 0 then Some(ProtocolError) else None
    case _ => None
  }

  /** The four bytes hold v, but for the reserved bit. */
  predicate Holds31(s: seq<byte>, at: nat, v: int) {
    0 <= v < 0x8000_0000 && (Holds32(s, at, v) || Holds32(s, at, v + 0x8000_0000))
  }

  /** What an accepted payload says, field by field. */
  predicate Says(h: Header, p: seq<byte>, out: Payload) {
    var front, pad := Front(h), Padding(h, p);
    match h.typ as int
    case 0 => out.Data? && HoldsBytes(p, front, out.data) && |p| == front + |out.data| + pad
    case 1 =>
      var body := front + Bit(Prioritized(h), 5);
      && out.Headers? && HoldsBytes(p, body, out.fragment) && |p| == body + |out.fragment| + pad
      && if Prioritized(h) then PriorityIs(p, front, out.priority) else out.priority == Priority(0, false, 0)
    case 2 => out.Prio? && PriorityIs(p, 0, out.priority)
    case 3 => out.Reset? && Holds32(p, 0, out.code)
    case 4 => out == Settings(p)
    case 5 =>
      && out.PushPromise? && Holds31(p, front, out.promise) && HoldsBytes(p, front + 4, out.fragment)
      && |p| == front + 4 + |out.fragment| + pad
    case 6 => out == Ping(p)
    case 7 => out.GoAway? && Holds31(p, 0, out.lastID) && Holds32(p, 4, out.code) && out.debug == p[8..]
    case 8 => out.WindowUpdate? && Holds31(p, 0, out.increment)
    case 9 => out == Continuation(p)
    case _ => out == Unknown(p)
  }

  predicate PriorityIs(p: seq<byte>, at: nat, priority: Priority) {
    priority.dep < 0x8000_0000 && Holds32(p, at, Dependency(priority)) && at + 5 <= |p| && p[at + 4] == priority.weight
  }

  lemma Uint16Holds(p: seq<byte>, at: nat)
    requires at + 2 <= |p|
    ensures forall v :: Holds16(p, at, v) <==> v == Uint16(p[at..at + 2])
    ensures forall v :: Holds16(p, at, v) <==> v == Uint16(p[at..])
  {
  }

  lemma Uint32Holds(p: seq<byte>, at: nat)
    requires at + 4 <= |p|
    ensures forall v :: Holds32(p, at, v) <==> v == Uint32(p[at..at + 4])
    ensures forall v :: Holds32(p, at, v) <==> v == Uint32(p[at..])
  {
    hide Uint16, Holds16;
    var s, t := p[at..at + 4], p[at..];
    assert s[0..2] == p[at..at + 2] && s[2..4] == p[at + 2..at + 4] && t[0..2] == s[0..2] && t[2..4] == s[2..4];
    Uint16Bytes(p[at..at + 2]);
    Uint16Bytes(p[at + 2..at + 4]);
  }

  lemma Uint16Bytes(s: seq<byte>)
    requires |s| == 2
    ensures Uint16(s) as int == s[0] as int * 0x100 + s[1] as int
  {
  }

  lemma {:induction false} ValueIs(p: seq<byte>, id: int, from: nat)
    requires |p| % 6 == 0 && forall j :: 0 <= j < from && 6 * j + 6 <= |p| ==> !Holds16(p, 6 * j, id)
    ensures Value(p, id, from).Some? ==>
              exists i :: 0 <= i < |p| / 6 && FirstSetting(p, i, id, Value(p, id, from).value)
    ensures Value(p, id, from).None? ==> forall j :: 0 <= j < |p| / 6 ==> !Holds16(p, 6 * j, id)
    decreases |p| - 6 * from
  {
    hide Holds16, Holds32;
    if 6 * from + 6 <= |p| {
      Uint16Holds(p, 6 * from);
      Uint32Holds(p, 6 * from + 2);
      if SettingAt(p, from).id == id {
        assert FirstSetting(p, from, id, Value(p, id, from).value);
      } else {
        ValueIs(p, id, from + 1);
      }
    }
  }

  /** The parser's outcome is what the layout says. */
  predicate Agrees(h: Header, p: seq<byte>, r: Result<Payload>, refusal: Option<Error>) {
    if refusal.Some? then r == Fail(refusal.value) else r.Ok? && Says(h, p, r.value)
  }

  lemma Cut(p: seq<byte>, at: nat, pad: nat)
    requires at + pad <= |p|
    ensures var f := p[at..][..|p| - at - pad]; HoldsBytes(p, at, f) && |p| == at + |f| + pad
  {
  }

  lemma DataRead(h: Header, p: seq<byte>)
    requires h.typ == 0
    ensures Agrees(h, p, ParsePayload(h, p), Refusal(h, p))
  {
    hide HoldsBytes;
    if Front(h) + Padding(h, p) <= |p| {
      Cut(p, Front(h), Padding(h, p));
      assert p[0..] == p;
    }
  }

  /** Dependency and weight, as the parser takes them apart. */
  lemma PriorityRead(p: seq<byte>, at: nat)
    requires at + 5 <= |p|
    ensures PriorityIs(p, at, ToPriority(Uint32(p[at..]), p[at + 4]))
  {
    hide Holds32;
    Uint32Holds(p, at);
  }

  lemma HeadersRead(h: Header, p: seq<byte>)
    requires h.typ == 1
    ensures Agrees(h, p, ParsePayload(h, p), Refusal(h, p))
  {
    hide HoldsBytes, PriorityIs, ToPriority, Uint32;
    var front, pad := Front(h), Padding(h, p);
    var body := front + Bit(Prioritized(h), 5);
    assert p[0..] == p;
    if body <= |p| && !(Padded(h) && p == []) {
      assert p[front..][body - front..] == p[body..];
      if Prioritized(h) {
        PriorityRead(p, front);
        assert p[front..][4] == p[front + 4];
      }
      if body + pad < |p| {
        Cut(p, body, pad);
      }
    }
  }

  lemma PromiseRead(h: Header, p: seq<byte>)
    requires h.typ == 5
    ensures Agrees(h, p, ParsePayload(h, p), Refusal(h, p))
  {
    hide HoldsBytes, Uint32, Holds32;
    var front, pad := Front(h), Padding(h, p);
    assert p[0..] == p;
    if front + 4 <= |p| && !(Padded(h) && p == []) {
      assert p[front..][4..] == p[front + 4..];
      Uint32Holds(p, front);
      if front + 4 + pad <= |p| {
        Cut(p, front + 4, pad);
      }
    }
  }

  lemma SettingsRead(h: Header, p: seq<byte>)
    requires h.typ == 4
    ensures Agrees(h, p, ParsePayload(h, p), Refusal(h, p))
  {
    hide Holds16, Value;
    if |p| % 6 == 0 {
      ValueIs(p, 4, 0);
      var v := Value(p, 4, 0);
      forall i, j, a, b | 0 <= i < |p| / 6 && 0 <= j < |p| / 6 && FirstSetting(p, i, 4, a) && FirstSetting(p, j, 4, b)
        ensures a == b
      {
        assert i == j;
      }
    }
  }

  lemma OthersRead(h: Header, p: seq<byte>)
    requires h.typ != 0 && h.typ != 1 && h.typ != 4 && h.typ != 5
    ensures Agrees(h, p, ParsePayload(h, p), Refusal(h, p))
  {
    hide Holds32, PriorityIs, ToPriority, Uint32;
    assert p[0..] == p;
    if |p| >= 4 {
      Uint32Holds(p, 0);
    }
    if |p| >= 5 {
      PriorityRead(p, 0);
    }
    if |p| >= 8 {
      Uint32Holds(p, 4);
    }
  }

  /** For every header and every payload: what is refused, with which error, and what an
      accepted payload says. */
  lemma ReadExactly(h: Header, p: seq<byte>)
    ensures Agrees(h, p, ParsePayload(h, p), Refusal(h, p))
  {
    hide Agrees, ParsePayload, Refusal;
    if h.typ == 0 {
      DataRead(h, p);
    } else if h.typ == 1 {
      HeadersRead(h, p);
    } else if h.typ == 4 {
      SettingsRead(h, p);
    } else if h.typ == 5 {
      PromiseRead(h, p);
    } else {
      OthersRead(h, p);
    }
  }

  /** Length, type, flags and id of a frame that is read; the reserved bit is dropped. */
  lemma HeaderRead(s: seq<byte>)
    requires |s| >= 9
    ensures var h := ParseHeader(s);
            Holds24(s, 0, h.length) && h.typ == s[3] && h.flags == s[4] && Holds31(s, 5, h.id)
  {
    hide Uint32, Holds32;
    Uint32Holds(s, 5);
    var t := s[0..3];
    assert t[1..3] == s[1..3];
    Uint16Bytes(s[1..3]);
  }

  /** For every byte stream: whether there is a frame in front, what becomes of it, and what
      is left. */
  lemma StreamRead(s: seq<byte>, max: nat, n: nat)
    requires |s| >= 9 ==> Holds24(s, 0, n)
    ensures var r := ReadFrame(s, max);
            if |s| < 9 then r == Fail(Truncated)
            else if n > max then r == Fail(TooLarge)
            else if |s| < 9 + n then r == Fail(Truncated)
            else
              var h, p := ParseHeader(s), s[9..9 + n];
              && h.length == n
              && match Refusal(h, p)
                 case Some(e) => r == Fail(e)
                 case None => r.Ok? && r.value.0.header == h && Says(h, p, r.value.0.payload) && r.value.1 == s[9 + n..]
  {
    hide ParsePayload, Refusal, Says, ParseHeader, Holds31;
    if |s| >= 9 {
      HeaderRead(s);
      if |s| >= 9 + n {
        ReadExactly(ParseHeader(s), s[9..9 + n]);
      }
    }
  }
}
