/** HTTP/2 frames on the wire (sections 4.1 and 6 of RFC 7540): the framer's writers
    and its parsers. */
module FrameCodec {
  import opened Common
  import opened Flow
  import opened Frames

  const HEADER_LEN: nat := 9
  const LENGTH_LIMIT: nat := 0x100_0000

  const DATA: byte := 0
  const HEADERS: byte := 1
  const PRIORITY: byte := 2
  const RST_STREAM: byte := 3
  const SETTINGS: byte := 4
  const PUSH_PROMISE: byte := 5
  const PING: byte := 6
  const GOAWAY: byte := 7
  const WINDOW_UPDATE: byte := 8
  const CONTINUATION: byte := 9

  const END_STREAM: byte := 0x1
  const ACK: byte := 0x1
  const END_HEADERS: byte := 0x4
  const PADDED: byte := 0x8
  const HAS_PRIORITY: byte := 0x20

  const INITIAL_WINDOW_SIZE: int := 4
  const MAX_WINDOW: int := 0x7fff_ffff

  datatype Result<+T> = Ok(value: T) | Fail(error: Error)

  datatype Error =
    | BadStreamID
    | BadDependency
    | BadPadding
    | BadIncrement
    | TooLarge
    | Truncated
    | ProtocolError
    | FrameSizeError
    | FlowControlError
    | StreamProtocolError(id: int)

  datatype Priority = Priority(dep: uint32, exclusive: bool, weight: byte) {
    predicate IsZero() {
      dep == 0 && !exclusive && weight == 0
    }
  }

  type uint16 = x: int | 0 <= x < 0x1_0000

  type Bytes8 = s: seq<byte> | |s| == 8 witness [0, 0, 0, 0, 0, 0, 0, 0]

  datatype Setting = Setting(id: uint16, val: uint32)

  /** What a caller asks the framer to write. */
  datatype Params =
    | WriteData(id: uint32, endStream: bool, data: seq<byte>, pad: Option<seq<byte>>)
    | WriteHeaders(id: uint32, fragment: seq<byte>, endStream: bool, endHeaders: bool, padLength: byte,
                   priority: Priority)
    | WritePriority(id: uint32, priority: Priority)
    | WriteRSTStream(id: uint32, code: uint32)
    | WriteSettings(settings: seq<Setting>)
    | WriteSettingsAck
    | WritePushPromise(id: uint32, promise: uint32, fragment: seq<byte>, endHeaders: bool, padLength: byte)
    | WritePing(ack: bool, ping: Bytes8)
    | WriteGoAway(lastID: uint32, code: uint32, debug: seq<byte>)
    | WriteWindowUpdate(id: uint32, increment: uint32)
    | WriteContinuation(id: uint32, endHeaders: bool, fragment: seq<byte>)

  datatype Header = Header(length: nat, typ: byte, flags: byte, id: int)

  /** What a parser makes of a payload. */
  datatype Payload =
    | Data(data: seq<byte>)
    | Headers(priority: Priority, fragment: seq<byte>)
    | Prio(priority: Priority)
    | Reset(code: uint32)
    | Settings(settings: seq<byte>)
    | PushPromise(promise: int, fragment: seq<byte>)
    | Ping(ping: seq<byte>)
    | GoAway(lastID: int, code: uint32, debug: seq<byte>)
    | WindowUpdate(increment: int)
    | Continuation(fragment: seq<byte>)
    | Unknown(raw: seq<byte>)

  datatype Frame = Frame(header: Header, payload: Payload)

  // ---------- numbers and flags ----------

  function Be16(v: uint16): (s: seq<byte>)
    ensures |s| == 2 && Uint16(s) == v
  {
    [v / 0x100, v % 0x100]
  }

  function Uint16(s: seq<byte>): uint16
    requires |s| >= 2
  {
    s[0] as int * 0x100 + s[1]
  }

  function Be24(v: nat): (s: seq<byte>)
    requires v < LENGTH_LIMIT
    ensures |s| == 3 && Uint24(s) == v
  {
    [v / 0x1_0000] + Be16(v % 0x1_0000)
  }

  function Uint24(s: seq<byte>): nat
    requires |s| >= 3
  {
    s[0] as int * 0x1_0000 + Uint16(s[1..3])
  }

  function Be32(v: uint32): (s: seq<byte>)
    ensures |s| == 4 && Uint32(s) == v
  {
    var s := Be16(v / 0x1_0000) + Be16(v % 0x1_0000);
    assert s[0..2] == Be16(v / 0x1_0000) && s[2..4] == Be16(v % 0x1_0000);
    s
  }

  function Uint32(s: seq<byte>): uint32
    requires |s| >= 4
  {
    Uint16(s[0..2]) as int * 0x1_0000 + Uint16(s[2..4])
  }

  /** The parser reads a number off the front of what follows it. */
  lemma Uint32Front(v: uint32, rest: seq<byte>)
    ensures Uint32(Be32(v) + rest) == v && (Be32(v) + rest)[4..] == rest
  {
    hide Uint16, Be32;
    var s := Be32(v) + rest;
    assert s[0..2] == Be32(v)[0..2] && s[2..4] == Be32(v)[2..4];
  }

  function Flag(on: bool, bit: byte): byte {
    if on then bit else 0
  }

  predicate Has(flags: byte, bit: byte)
    requires bit > 0
  {
    flags / bit % 2 == 1
  }

  function Zeros(n: nat): (s: seq<byte>)
    ensures |s| == n
  {
    seq(n, _ => 0)
  }

  predicate AllZero(s: seq<byte>) {
    forall i :: 0 <= i < |s| ==> s[i] == 0
  }

  predicate ValidID(id: int) {
    0 < id < ID_LIMIT
  }

  function Word(p: Priority): uint32
    requires p.dep < ID_LIMIT
  {
    p.dep + if p.exclusive then ID_LIMIT else 0
  }

  // ---------- writing ----------

  function Type(p: Params): byte {
    match p
    case WriteData(_, _, _, _) => DATA
    case WriteHeaders(_, _, _, _, _, _) => HEADERS
    case WritePriority(_, _) => PRIORITY
    case WriteRSTStream(_, _) => RST_STREAM
    case WriteSettings(_) => SETTINGS
    case WriteSettingsAck => SETTINGS
    case WritePushPromise(_, _, _, _, _) => PUSH_PROMISE
    case WritePing(_, _) => PING
    case WriteGoAway(_, _, _) => GOAWAY
    case WriteWindowUpdate(_, _) => WINDOW_UPDATE
    case WriteContinuation(_, _, _) => CONTINUATION
  }

  function FlagsOf(p: Params): byte {
    match p
    case WriteData(_, endStream, _, pad) => Flag(endStream, END_STREAM) + Flag(pad.Some?, PADDED)
    case WriteHeaders(_, _, endStream, endHeaders, padLength, priority) =>
      Flag(padLength != 0, PADDED) + Flag(endStream, END_STREAM) + Flag(endHeaders, END_HEADERS)
        + Flag(!priority.IsZero(), HAS_PRIORITY)
    case WriteSettingsAck => ACK
    case WritePushPromise(_, _, _, endHeaders, padLength) => Flag(padLength != 0, PADDED)
         + Flag(endHeaders, END_HEADERS)
    case WritePing(ack, _) => Flag(ack, ACK)
    case WriteContinuation(_, endHeaders, _) => Flag(endHeaders, END_HEADERS)
    case _ => 0
  }

  function IDOf(p: Params): uint32 {
    match p
    case WriteData(id, _, _, _) => id
    case WriteHeaders(id, _, _, _, _, _) => id
    case WritePriority(id, _) => id
    case WriteRSTStream(id, _) => id
    case WritePushPromise(id, _, _, _, _) => id
    case WriteWindowUpdate(id, _) => id
    case WriteContinuation(id, _, _) => id
    case _ => 0
  }

  function SettingsBytes(settings: seq<Setting>): (s: seq<byte>)
    ensures |s| == 6 * |settings|
  {
    if settings == [] then [] else Be16(settings[0].id) + Be32(settings[0].val) + SettingsBytes(settings[1..])
  }

  function PadByte(n: byte): seq<byte> {
    if n == 0 then [] else [n]
  }

  function PriorityBytes(p: Priority): seq<byte>
    requires p.dep < ID_LIMIT
  {
    if p.IsZero() then [] else Be32(Word(p)) + [p.weight]
  }

  /** Whether the framer's writer accepts the request. */
  predicate Accepts(p: Params) {
    match p
    case WriteData(id, _, _, pad) => ValidID(id) && (pad.Some? ==> |pad.value| <= 255 && AllZero(pad.value))
    case WriteHeaders(id, _, _, _, _, priority) => ValidID(id) && priority.dep < ID_LIMIT
    case WritePriority(id, priority) => ValidID(id) && priority.dep < ID_LIMIT
    case WriteRSTStream(id, _) => ValidID(id)
    case WritePushPromise(id, promise, _, _, _) => ValidID(id) && ValidID(promise)
    case WriteWindowUpdate(_, increment) => 1 <= increment <= MAX_WINDOW
    case WriteContinuation(id, _, _) => ValidID(id)
    case _ => true
  }

  function Body(p: Params): seq<byte>
    requires Accepts(p)
  {
    match p
    case WriteData(_, _, data, None) => data
    case WriteData(_, _, data, Some(pad)) => [|pad|] + data + pad
    case WriteHeaders(_, fragment, _, _, padLength, priority) =>
      PadByte(padLength) + PriorityBytes(priority) + fragment + Zeros(padLength)
    case WritePriority(_, priority) => Be32(Word(priority)) + [priority.weight]
    case WriteRSTStream(_, code) => Be32(code)
    case WriteSettings(settings) => SettingsBytes(settings)
    case WriteSettingsAck => []
    case WritePushPromise(_, promise, fragment, _, padLength) => PadByte(padLength) + Be32(promise) + fragment
         + Zeros(padLength)
    case WritePing(_, ping) => ping
    case WriteGoAway(lastID, code, debug) => Be32(lastID % ID_LIMIT) + Be32(code) + debug
    case WriteWindowUpdate(_, increment) => Be32(increment)
    case WriteContinuation(_, _, fragment) => fragment
  }

  function Encode(typ: byte, flags: byte, id: uint32, payload: seq<byte>): (s: seq<byte>)
    requires |payload| < LENGTH_LIMIT
    ensures |s| == HEADER_LEN + |payload|
  {
    Be24(|payload|) + [typ, flags] + Be32(id) + payload
  }

  predicate Writable(p: Params) {
    Accepts(p) && |Body(p)| < LENGTH_LIMIT
  }

  function Written(p: Params): seq<byte>
    requires Writable(p)
  {
    Encode(Type(p), FlagsOf(p), IDOf(p), Body(p))
  }

  // ---------- reading ----------

  function ParseHeader(s: seq<byte>): Header
    requires |s| >= HEADER_LEN
  {
    Header(Uint24(s[0..3]), s[3], s[4], Uint32(s[5..]) % ID_LIMIT)
  }

  /** Splits the pad length off a padded payload: the rest, and how much of its end
      is padding. */
  function Unpad(padded: bool, p: seq<byte>): Result<(seq<byte>, byte)> {
    if !padded then Ok((p, 0))
    else if p == [] then Fail(Truncated)
    else Ok((p[1..], p[0]))
  }

  function ParseData(h: Header, p: seq<byte>): Result<Payload> {
    if h.id == 0 then Fail(ProtocolError)
    else
      var u := Unpad(Has(h.flags, PADDED), p);
      if u.Fail? then Fail(u.error)
      else if u.value.1 > |u.value.0| then Fail(ProtocolError)
      else Ok(Payload.Data(u.value.0[..|u.value.0| - u.value.1]))
  }

  function ToPriority(v: uint32, weight: byte): Priority {
    Priority(v % ID_LIMIT, v != v % ID_LIMIT, weight)
  }

  /** The priority fields in front of a header block, if the flags announce them. */
  function Unprioritize(present: bool, p: seq<byte>): Result<(seq<byte>, Priority)> {
    if !present then Ok((p, Priority(0, false, 0)))
    else if |p| < 5 then Fail(Truncated)
    else Ok((p[5..], ToPriority(Uint32(p), p[4])))
  }

  function ParseHeaders(h: Header, p: seq<byte>): Result<Payload> {
    if h.id == 0 then Fail(ProtocolError)
    else
      var u := Unpad(Has(h.flags, PADDED), p);
      if u.Fail? then Fail(u.error)
      else
        var q := Unprioritize(Has(h.flags, HAS_PRIORITY), u.value.0);
        if q.Fail? then Fail(q.error)
        else if |q.value.0| <= u.value.1 then Fail(StreamProtocolError(h.id))
        else Ok(Headers(q.value.1, q.value.0[..|q.value.0| - u.value.1]))
  }

  function SettingAt(p: seq<byte>, i: nat): Setting
    requires 6 * i + 6 <= |p|
  {
    Setting(Uint16(p[6 * i..6 * i + 2]), Uint32(p[6 * i + 2..6 * i + 6]))
  }

  /** The first value a SETTINGS payload gives for an id. */
  function Value(p: seq<byte>, id: int, from: nat): Option<uint32>
    decreases |p| - 6 * from
  {
    if 6 * from + 6 > |p| then None
    else if SettingAt(p, from).id == id then Some(SettingAt(p, from).val)
    else Value(p, id, from + 1)
  }

  function ParseSettings(h: Header, p: seq<byte>): Result<Payload> {
    if Has(h.flags, ACK) && h.length > 0 then Fail(FrameSizeError)
    else if h.id != 0 then Fail(ProtocolError)
    else if |p| % 6 != 0 then Fail(FrameSizeError)
    else
      var v := Value(p, INITIAL_WINDOW_SIZE, 0);
      if v.Some? && v.value > MAX_WINDOW then Fail(FlowControlError)
      else Ok(Settings(p))
  }

  function ParsePushPromise(h: Header, p: seq<byte>): Result<Payload> {
    if h.id == 0 then Fail(ProtocolError)
    else
      var u := Unpad(Has(h.flags, PADDED), p);
      if u.Fail? then Fail(u.error)
      else if |u.value.0| < 4 then Fail(Truncated)
      else
        var rest := u.value.0[4..];
        if u.value.1 > |rest| then Fail(ProtocolError)
        else Ok(PushPromise(Uint32(u.value.0) % ID_LIMIT, rest[..|rest| - u.value.1]))
  }

  function ParsePayload(h: Header, p: seq<byte>): Result<Payload> {
    if h.typ == DATA then ParseData(h, p)
    else if h.typ == HEADERS then ParseHeaders(h, p)
    else if h.typ == PRIORITY then
      if h.id == 0 then Fail(ProtocolError)
      else if |p| != 5 then Fail(FrameSizeError)
      else Ok(Prio(ToPriority(Uint32(p), p[4])))
    else if h.typ == RST_STREAM then
      if |p| != 4 then Fail(FrameSizeError)
      else if h.id == 0 then Fail(ProtocolError)
      else Ok(Reset(Uint32(p)))
    else if h.typ == SETTINGS then ParseSettings(h, p)
    else if h.typ == PUSH_PROMISE then ParsePushPromise(h, p)
    else if h.typ == PING then
      if |p| != 8 then Fail(FrameSizeError)
      else if h.id != 0 then Fail(ProtocolError)
      else Ok(Ping(p))
    else if h.typ == GOAWAY then
      if h.id != 0 then Fail(ProtocolError)
      else if |p| < 8 then Fail(FrameSizeError)
      else Ok(GoAway(Uint32(p) % ID_LIMIT, Uint32(p[4..]), p[8..]))
    else if h.typ == WINDOW_UPDATE then
      if |p| != 4 then Fail(FrameSizeError)
      else if Uint32(p) % ID_LIMIT == 0 then Fail(if h.id == 0 then ProtocolError else StreamProtocolError(h.id))
      else Ok(WindowUpdate(Uint32(p) % ID_LIMIT))
    else if h.typ == CONTINUATION then
      if h.id == 0 then Fail(ProtocolError) else Ok(Continuation(p))
    else Ok(Unknown(p))
  }

  /** One frame off the front of a byte stream, and what is left of the stream. */
  function ReadFrame(s: seq<byte>, maxReadSize: nat): Result<(Frame, seq<byte>)> {
    if |s| < HEADER_LEN then Fail(Truncated)
    else
      var h := ParseHeader(s);
      if h.length > maxReadSize then Fail(TooLarge)
      else if |s| < HEADER_LEN + h.length then Fail(Truncated)
      else
        var p := ParsePayload(h, s[HEADER_LEN..HEADER_LEN + h.length]);
        if p.Fail? then Fail(p.error) else Ok((Frame(h, p.value), s[HEADER_LEN + h.length..]))
  }

  // ---------- what is read is what was written ----------

  function Expected(p: Params): Payload {
    match p
    case WriteData(_, _, data, _) => Payload.Data(data)
    case WriteHeaders(_, fragment, _, _, _, priority) => Headers(priority, fragment)
    case WritePriority(_, priority) => Prio(priority)
    case WriteRSTStream(_, code) => Reset(code)
    case WriteSettings(settings) => Settings(SettingsBytes(settings))
    case WriteSettingsAck => Settings([])
    case WritePushPromise(_, promise, fragment, _, _) => PushPromise(promise, fragment)
    case WritePing(_, ping) => Ping(ping)
    case WriteGoAway(lastID, code, debug) => GoAway(lastID, code, debug)
    case WriteWindowUpdate(_, increment) => WindowUpdate(increment)
    case WriteContinuation(_, _, fragment) => Continuation(fragment)
  }

  function First(settings: seq<Setting>, id: int): Option<uint32> {
    if settings == [] then None
    else if settings[0].id == id then Some(settings[0].val)
    else First(settings[1..], id)
  }

  /** The writers accept a little more than the parsers give back. */
  predicate Survives(p: Params) {
    match p
    case WriteHeaders(_, fragment, _, _, _, _) => fragment != []
    case WriteSettings(settings) =>
      var window := First(settings, INITIAL_WINDOW_SIZE);
      window.Some? ==> window.value <= MAX_WINDOW
    case WriteGoAway(lastID, _, _) => lastID < ID_LIMIT
    case WriteWindowUpdate(id, _) => id < ID_LIMIT
    case _ => true
  }

  lemma HeaderBack(typ: byte, flags: byte, id: uint32, payload: seq<byte>, rest: seq<byte>)
    requires |payload| < LENGTH_LIMIT
    ensures var s := Encode(typ, flags, id, payload) + rest;
            && |s| == HEADER_LEN + |payload| + |rest|
            && ParseHeader(s) == Header(|payload|, typ, flags, id % ID_LIMIT)
            && s[HEADER_LEN..HEADER_LEN + |payload|] == payload
            && s[HEADER_LEN + |payload|..] == rest
  {
    hide Uint32, Be32, Be24, Uint24;
    var s := Encode(typ, flags, id, payload) + rest;
    var l := Be24(|payload|);
    assert s == l + ([typ, flags] + (Be32(id) + (payload + rest)));
    assert s[0..3] == l && s[3] == typ && s[4] == flags;
    assert s[5..] == Be32(id) + (payload + rest);
    Uint32Front(id, payload + rest);
  }

  lemma PriorityBack(p: Priority)
    requires p.dep < ID_LIMIT
    ensures ToPriority(Word(p), p.weight) == p
  {
  }

  lemma HeadersFlags(padded: bool, ended: bool, endHeaders: bool, prio: bool)
    ensures var f := Flag(padded, PADDED) + Flag(ended, END_STREAM) + Flag(endHeaders, END_HEADERS)
            + Flag(prio, HAS_PRIORITY);
            && (Has(f, PADDED) <==> padded) && (Has(f, HAS_PRIORITY) <==> prio)
            && (Has(f, END_STREAM) <==> ended) && (Has(f, END_HEADERS) <==> endHeaders)
  {
  }

  lemma UnpadFront(n: byte, rest: seq<byte>)
    ensures Unpad(n != 0, PadByte(n) + rest) == Ok((rest, n))
  {
    if n == 0 {
      assert PadByte(n) + rest == rest;
    } else {
      assert (PadByte(n) + rest)[1..] == rest;
    }
  }

  lemma UnprioritizeFront(p: Priority, rest: seq<byte>)
    requires p.dep < ID_LIMIT
    ensures Unprioritize(!p.IsZero(), PriorityBytes(p) + rest) == Ok((rest, p))
  {
    hide Uint32, Be32, ToPriority, Word;
    if p.IsZero() {
      assert PriorityBytes(p) + rest == rest;
    } else {
      assert PriorityBytes(p) + rest == Be32(Word(p)) + ([p.weight] + rest);
      Uint32Front(Word(p), [p.weight] + rest);
      PriorityBack(p);
      assert (PriorityBytes(p) + rest)[5..] == rest;
    }
  }

  lemma HeadersBack(p: Params, h: Header)
    requires p.WriteHeaders? && Writable(p) && h.flags == FlagsOf(p) && h.id == p.id
    ensures ParseHeaders(h, Body(p)) == if p.fragment == [] then Fail(StreamProtocolError(h.id)) else Ok(Expected(p))
  {
    hide Has, Unpad, Unprioritize, PadByte, PriorityBytes, Flag;
    HeadersFlags(p.padLength != 0, p.endStream, p.endHeaders, !p.priority.IsZero());
    var tail := p.fragment + Zeros(p.padLength);
    assert Body(p) == PadByte(p.padLength) + (PriorityBytes(p.priority) + tail);
    UnpadFront(p.padLength, PriorityBytes(p.priority) + tail);
    UnprioritizeFront(p.priority, tail);
    assert tail[..|tail| - p.padLength] == p.fragment;
  }

  lemma DataBack(p: Params, h: Header)
    requires p.WriteData? && Writable(p) && h.flags == FlagsOf(p) && h.id == p.id
    ensures ParseData(h, Body(p)) == Ok(Expected(p))
  {
    assert Has(h.flags, PADDED) <==> p.pad.Some?;
    hide Has;
    if p.pad.Some? {
      var tail := p.data + p.pad.value;
      assert Body(p) == [|p.pad.value|] + tail;
      assert Body(p)[1..] == tail;
      assert tail[..|tail| - |p.pad.value|] == p.data;
    } else {
      assert Body(p) == p.data && p.data[..|p.data|] == p.data;
    }
  }

  lemma PushBack(p: Params, h: Header)
    requires p.WritePushPromise? && Writable(p) && h.flags == FlagsOf(p) && h.id == p.id
    ensures ParsePushPromise(h, Body(p)) == Ok(Expected(p))
  {
    assert Has(h.flags, PADDED) <==> p.padLength != 0;
    hide Has, Uint32, Be32;
    var tail := p.fragment + Zeros(p.padLength);
    assert Body(p) == PadByte(p.padLength) + (Be32(p.promise) + tail);
    UnpadFront(p.padLength, Be32(p.promise) + tail);
    Uint32Front(p.promise, tail);
    assert tail[..|tail| - p.padLength] == p.fragment;
  }

  /** Each setting is where the parser looks for it. */
  lemma {:induction false} SettingsAt(settings: seq<Setting>, i: nat)
    requires i < |settings|
    ensures SettingAt(SettingsBytes(settings), i) == settings[i]
  {
    hide Uint32, Be32, Uint16, Be16;
    var head, val, tail := Be16(settings[0].id), Be32(settings[0].val), SettingsBytes(settings[1..]);
    var s := SettingsBytes(settings);
    assert s == head + val + tail;
    if i == 0 {
      assert s[0..2] == head && s[2..6] == val;
    } else {
      SettingsAt(settings[1..], i - 1);
      var at := 6 * (i - 1);
      assert s[6..] == tail;
      assert s[6 * i..6 * i + 2] == tail[at..at + 2] && s[6 * i + 2..6 * i + 6] == tail[at + 2..at + 6];
    }
  }

  lemma {:induction false} SettingsValue(settings: seq<Setting>, id: int, from: nat)
    requires from <= |settings|
    ensures Value(SettingsBytes(settings), id, from) == First(settings[from..], id)
    decreases |settings| - from
  {
    hide SettingAt, SettingsBytes;
    if from < |settings| {
      SettingsAt(settings, from);
      assert settings[from..][1..] == settings[from + 1..];
      SettingsValue(settings, id, from + 1);
    }
  }

  lemma SettingsBack(p: Params, h: Header)
    requires p.WriteSettings? && Writable(p) && h.flags == 0 && h.id == 0
    ensures ParseSettings(h, Body(p)) == if Survives(p) then Ok(Expected(p)) else Fail(FlowControlError)
  {
    SettingsValue(p.settings, INITIAL_WINDOW_SIZE, 0);
    assert p.settings[0..] == p.settings;
    hide Value, SettingsBytes;
  }

  lemma PayloadBack(p: Params, h: Header)
    requires Writable(p) && h == Header(|Body(p)|, Type(p), FlagsOf(p), IDOf(p) % ID_LIMIT)
    ensures ParsePayload(h, Body(p)) == Ok(Expected(p)) <==> Survives(p) || p.WriteWindowUpdate?
  {
    hide Uint32, Be32, SettingsBytes;
    match p
    case WriteData(_, _, _, _) => DataBack(p, h);
    case WriteHeaders(_, _, _, _, _, _) => HeadersBack(p, h);
    case WritePriority(_, priority) =>
      Uint32Front(Word(priority), [priority.weight]);
      PriorityBack(priority);
    case WriteRSTStream(_, code) =>
    case WriteSettings(_) => SettingsBack(p, h);
    case WriteSettingsAck => assert Value([], INITIAL_WINDOW_SIZE, 0).None?;
    case WritePushPromise(_, _, _, _, _) => PushBack(p, h);
    case WritePing(_, _) =>
    case WriteGoAway(lastID, code, debug) =>
      assert Body(p) == Be32(lastID % ID_LIMIT) + (Be32(code) + debug);
      Uint32Front(lastID % ID_LIMIT, Be32(code) + debug);
      Uint32Front(code, debug);
      assert Body(p)[8..] == debug;
    case WriteWindowUpdate(_, _) =>
    case WriteContinuation(_, _, _) =>
  }

  /** What the reader should make of a request. */
  function FrameOf(p: Params): Frame
    requires Writable(p)
  {
    Frame(Header(|Body(p)|, Type(p), FlagsOf(p), IDOf(p)), Expected(p))
  }

  /** A written frame, with anything behind it, reads back as what was asked for
      exactly when the request is one the parsers give back; the bytes behind it are
      left for the next read. */
  lemma RoundTrip(p: Params, rest: seq<byte>, maxReadSize: nat)
    requires Writable(p) && |Body(p)| <= maxReadSize
    ensures ReadFrame(Written(p) + rest, maxReadSize) == Ok((FrameOf(p), rest)) <==> Survives(p)
  {
    hide ParsePayload, Expected, Body, Encode, FlagsOf, Survives, ReadFrame;
    var h := Header(|Body(p)|, Type(p), FlagsOf(p), IDOf(p) % ID_LIMIT);
    ReadEncoded(Type(p), FlagsOf(p), IDOf(p), Body(p), rest, maxReadSize);
    PayloadBack(p, h);
    IDBack(p);
  }

  /** One request of each kind that the writers accept and the parsers do not give back. */
  lemma WriterLosses()
    ensures forall p :: p in [WriteHeaders(1, [], true, true, 0, Priority(0, false, 0)),
                              WriteSettings([Setting(INITIAL_WINDOW_SIZE, MAX_WINDOW + 1)]),
                              WriteGoAway(ID_LIMIT, 0, []),
                              WriteWindowUpdate(ID_LIMIT + 1, 1)] ==>
                          Writable(p) && ReadFrame(Written(p), 16384) != Ok((FrameOf(p), []))
  {
    hide ReadFrame, Encode;
    forall p | p in [WriteHeaders(1, [], true, true, 0, Priority(0, false, 0)),
                     WriteSettings([Setting(INITIAL_WINDOW_SIZE, MAX_WINDOW + 1)]),
                     WriteGoAway(ID_LIMIT, 0, []),
                     WriteWindowUpdate(ID_LIMIT + 1, 1)]
      ensures Writable(p) && ReadFrame(Written(p), 16384) != Ok((FrameOf(p), []))
    {
      assert !Survives(p);
      assert Accepts(p) && |Body(p)| <= 16384;
      RoundTrip(p, [], 16384);
      assert Written(p) + [] == Written(p);
    }
  }

  /** Only a WINDOW_UPDATE may be written for an id that does not fit the header. */
  lemma IDBack(p: Params)
    requires Writable(p)
    ensures IDOf(p) % ID_LIMIT == IDOf(p) <==> IDOf(p) < ID_LIMIT
    ensures if p.WriteWindowUpdate? then Survives(p) <==> IDOf(p) < ID_LIMIT else IDOf(p) < ID_LIMIT
  {
  }

  /** Reading what was encoded parses the payload, and leaves the rest. */
  lemma ReadEncoded(typ: byte, flags: byte, id: uint32, payload: seq<byte>, rest: seq<byte>, maxReadSize: nat)
    requires |payload| < LENGTH_LIMIT && |payload| <= maxReadSize
    ensures var h := Header(|payload|, typ, flags, id % ID_LIMIT);
            var r := ReadFrame(Encode(typ, flags, id, payload) + rest, maxReadSize);
            r == if ParsePayload(h, payload).Ok? then Ok((Frame(h, ParsePayload(h, payload).value), rest))
                 else Fail(ParsePayload(h, payload).error)
  {
    hide ParsePayload, Encode, ParseHeader;
    HeaderBack(typ, flags, id, payload, rest);
  }

  /** A frame beyond the reader's limit is refused whatever it holds. */
  lemma TooLargeRefused(p: Params, rest: seq<byte>, maxReadSize: nat)
    requires Writable(p) && |Body(p)| > maxReadSize
    ensures ReadFrame(Written(p) + rest, maxReadSize) == Fail(TooLarge)
  {
    HeaderBack(Type(p), FlagsOf(p), IDOf(p), Body(p), rest);
  }

  // ---------- whole connections ----------

  predicate AllReadable(ps: seq<Params>, maxReadSize: nat) {
    forall i :: 0 <= i < |ps| ==> Writable(ps[i]) && Survives(ps[i]) && |Body(ps[i])| <= maxReadSize
  }

  predicate AllWritable(ps: seq<Params>) {
    forall i :: 0 <= i < |ps| ==> Writable(ps[i])
  }

  function WriteAll(ps: seq<Params>): seq<byte>
    requires AllWritable(ps)
  {
    if ps == [] then [] else Written(ps[0]) + WriteAll(ps[1..])
  }

  function ReadAll(s: seq<byte>, maxReadSize: nat): Result<seq<Frame>>
    decreases |s|
  {
    if s == [] then Ok([])
    else
      var f := ReadFrame(s, maxReadSize);
      if f.Fail? then Fail(f.error)
      else
        var fs := ReadAll(f.value.1, maxReadSize);
        if fs.Fail? then fs else Ok([f.value.0] + fs.value)
  }

  function FramesOf(ps: seq<Params>): seq<Frame>
    requires AllWritable(ps)
  {
    seq(|ps|, i requires 0 <= i < |ps| => FrameOf(ps[i]))
  }

  /** Any number of frames written one after the other read back in order. */
  lemma {:induction false} StreamRoundTrip(ps: seq<Params>, maxReadSize: nat)
    requires AllReadable(ps, maxReadSize)
    ensures ReadAll(WriteAll(ps), maxReadSize) == Ok(FramesOf(ps))
  {
    hide ReadFrame, Body, Writable, Survives, FrameOf, Written;
    if ps == [] {
      assert FramesOf(ps) == [];
    } else {
      WrittenSome(ps[0]);
      RoundTrip(ps[0], WriteAll(ps[1..]), maxReadSize);
      StreamRoundTrip(ps[1..], maxReadSize);
      assert FramesOf(ps) == [FrameOf(ps[0])] + FramesOf(ps[1..]);
    }
  }

  lemma WrittenSome(p: Params)
    requires Writable(p)
    ensures Written(p) != []
  {
  }
}
