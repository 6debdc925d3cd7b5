/** The framer's writing side: one buffer that every writer fills and flushes. */
module Framer {
  import opened Common
  import opened Flow
  import opened Frames
  import opened FrameCodec

  class Framer {
    var wbuf: seq<byte>
    /** Everything handed to the connection. */
    var out: seq<byte>

    constructor ()
      ensures out == []
    {
      wbuf, out := [], [];
    }

    /** Begins a frame; its length is filled in at the end. */
    method StartWrite(typ: byte, flags: byte, id: uint32)
      modifies this`wbuf
      ensures wbuf == [0, 0, 0] + [typ, flags] + Be32(id)
    {
      wbuf := [0, 0, 0] + [typ, flags] + Be32(id);
    }

    /** Fills in the length and sends the frame, unless it is too long. */
    method EndWrite(ghost typ: byte, ghost flags: byte, ghost id: uint32, ghost payload: seq<byte>)
      returns (r: Result<()>)
      requires wbuf == [0, 0, 0] + [typ, flags] + Be32(id) + payload
      modifies this`wbuf, this`out
      ensures if |payload| < LENGTH_LIMIT then r.Ok? && out == old(out) + Encode(typ, flags, id, payload)
              else r == Fail(TooLarge) && out == old(out)
    {
      hide Be32, Be24;
      var length := |wbuf| - HEADER_LEN;
      if length >= LENGTH_LIMIT {
        return Fail(TooLarge);
      }
      assert wbuf[3..] == [typ, flags] + Be32(id) + payload;
      wbuf := Be24(length) + wbuf[3..];
      assert wbuf == Encode(typ, flags, id, payload);
      out := out + wbuf;
      return Ok(());
    }

    /** Padding must be zeros. */
    method CheckPad(pad: seq<byte>) returns (ok: bool)
      ensures ok <==> AllZero(pad)
    {
      for i := 0 to |pad|
        invariant forall j :: 0 <= j < i ==> pad[j] == 0
      {
        if pad[i] != 0 {
          return false;
        }
      }
      return true;
    }

    method WriteDataPadded(p: Params) returns (r: Result<()>)
      requires p.WriteData?
      modifies this
      ensures Sends(p, r, old(out), out)
    {
      hide Be32, Encode;
      if !ValidID(p.id) {
        return Fail(BadStreamID);
      }
      var pad := [];
      if p.pad.Some? {
        pad := p.pad.value;
        if |pad| > 255 {
          return Fail(BadPadding);
        }
        var ok := CheckPad(pad);
        if !ok {
          return Fail(BadPadding);
        }
      }
      StartWrite(DATA, FlagsOf(p), p.id);
      ghost var start := wbuf;
      if p.pad.Some? {
        wbuf := wbuf + [|pad|];
      }
      wbuf := wbuf + p.data;
      wbuf := wbuf + pad;
      assert wbuf == start + Body(p);
      r := EndWrite(DATA, FlagsOf(p), p.id, Body(p));
    }

    method WriteHeaders(p: Params) returns (r: Result<()>)
      requires p.WriteHeaders?
      modifies this
      ensures Sends(p, r, old(out), out)
    {
      hide Be32, Encode, FlagsOf, Word;
      if !ValidID(p.id) {
        return Fail(BadStreamID);
      }
      StartWrite(HEADERS, FlagsOf(p), p.id);
      ghost var start := wbuf;
      if p.padLength != 0 {
        wbuf := wbuf + [p.padLength];
      }
      if !p.priority.IsZero() {
        if p.priority.dep >= ID_LIMIT {
          return Fail(BadDependency);
        }
        wbuf := wbuf + Be32(Word(p.priority)) + [p.priority.weight];
      }
      wbuf := wbuf + p.fragment;
      wbuf := wbuf + Zeros(p.padLength);
      assert wbuf == start + Body(p);
      r := EndWrite(HEADERS, FlagsOf(p), p.id, Body(p));
    }

    method WritePushPromise(p: Params) returns (r: Result<()>)
      requires p.WritePushPromise?
      modifies this
      ensures Sends(p, r, old(out), out)
    {
      hide Be32, Encode, FlagsOf;
      if !ValidID(p.id) {
        return Fail(BadStreamID);
      }
      StartWrite(PUSH_PROMISE, FlagsOf(p), p.id);
      ghost var start := wbuf;
      if p.padLength != 0 {
        wbuf := wbuf + [p.padLength];
      }
      if !ValidID(p.promise) {
        return Fail(BadStreamID);
      }
      wbuf := wbuf + Be32(p.promise);
      wbuf := wbuf + p.fragment;
      wbuf := wbuf + Zeros(p.padLength);
      assert wbuf == start + Body(p);
      r := EndWrite(PUSH_PROMISE, FlagsOf(p), p.id, Body(p));
    }

    method WriteSettings(p: Params) returns (r: Result<()>)
      requires p.WriteSettings?
      modifies this
      ensures Sends(p, r, old(out), out)
    {
      hide Be32, Be16, Encode, FlagsOf;
      StartWrite(SETTINGS, FlagsOf(p), 0);
      ghost var start := wbuf;
      for i := 0 to |p.settings|
        invariant wbuf == start + SettingsBytes(p.settings[..i]) && out == old(out)
      {
        SettingsSnoc(p.settings[..i], p.settings[i]);
        assert p.settings[..i + 1] == p.settings[..i] + [p.settings[i]];
        wbuf := wbuf + Be16(p.settings[i].id);
        wbuf := wbuf + Be32(p.settings[i].val);
      }
      assert p.settings[..|p.settings|] == p.settings;
      r := EndWrite(SETTINGS, FlagsOf(p), 0, Body(p));
    }

    /** The writers of frames with a fixed layout. */
    method WriteFixed(p: Params) returns (r: Result<()>)
      requires !p.WriteData? && !p.WriteHeaders? && !p.WritePushPromise? && !p.WriteSettings?
      modifies this
      ensures Sends(p, r, old(out), out)
    {
      hide Be32, Encode, FlagsOf, Word;
      if (p.WritePriority? || p.WriteRSTStream? || p.WriteContinuation?) && !ValidID(p.id) {
        return Fail(BadStreamID);
      }
      if p.WritePriority? && p.priority.dep >= ID_LIMIT {
        return Fail(BadDependency);
      }
      if p.WriteWindowUpdate? && !(1 <= p.increment <= MAX_WINDOW) {
        return Fail(BadIncrement);
      }
      StartWrite(Type(p), FlagsOf(p), IDOf(p));
      ghost var start := wbuf;
      match p {
        case WritePriority(_, priority) => wbuf := wbuf + Be32(Word(priority)) + [priority.weight];
        case WriteRSTStream(_, code) => wbuf := wbuf + Be32(code);
        case WritePing(_, ping) => wbuf := wbuf + ping;
        case WriteGoAway(lastID, code, debug) => wbuf := wbuf + Be32(lastID % ID_LIMIT) + Be32(code) + debug;
        case WriteWindowUpdate(_, increment) => wbuf := wbuf + Be32(increment);
        case WriteContinuation(_, _, fragment) => wbuf := wbuf + fragment;
        case _ =>
      }
      assert wbuf == start + Body(p);
      r := EndWrite(Type(p), FlagsOf(p), IDOf(p), Body(p));
    }

    method Write(p: Params) returns (r: Result<()>)
      modifies this
      ensures Sends(p, r, old(out), out)
    {
      hide Sends;
      if p.WriteData? {
        r := WriteDataPadded(p);
      } else if p.WriteHeaders? {
        r := WriteHeaders(p);
      } else if p.WritePushPromise? {
        r := WritePushPromise(p);
      } else if p.WriteSettings? {
        r := WriteSettings(p);
      } else {
        r := WriteFixed(p);
      }
    }
  }

  lemma {:induction false} SettingsSnoc(s: seq<Setting>, x: Setting)
    ensures SettingsBytes(s + [x]) == SettingsBytes(s) + Be16(x.id) + Be32(x.val)
  {
    hide Be32, Be16;
    if s == [] {
      assert s + [x] == [x] && SettingsBytes([x]) == Be16(x.id) + Be32(x.val) + SettingsBytes([]);
    } else {
      assert (s + [x])[1..] == s[1..] + [x];
      SettingsSnoc(s[1..], x);
    }
  }

  /** A writer succeeds exactly on the requests that fit a frame, sends the one
      encoding, and otherwise sends nothing. */
  ghost predicate Sends(p: Params, r: Result<()>, before: seq<byte>, after: seq<byte>) {
    if Writable(p) then r.Ok? && after == before + Written(p) else r.Fail? && after == before
  }
}
