/** Requests to write a frame, and how a DATA frame is split when flow control
    lets only a part of it through. */
module Frames {
  import opened Common
  import opened Flow

  type byte = x: int | 0 <= x < 256

  /** A channel that a handler waits on, known by its identity. */
  type Channel = nat

  datatype Write =
    | Data(streamID: uint32, p: seq<byte>, endStream: bool)
    | StreamError(errorID: uint32, code: uint32)
    | Other(tag: nat)

  class Conn {
    var maxFrameSize: int32
    constructor (maxFrameSize: int32)
      ensures this.maxFrameSize == maxFrameSize
    {
      this.maxFrameSize := maxFrameSize;
    }
  }

  class Stream {
    const id: uint32
    const window: Window
    const sc: Conn
    constructor (id: uint32, window: Window, sc: Conn)
      ensures this.id == id && this.window == window && this.sc == sc
    {
      this.id, this.window, this.sc := id, window, sc;
    }
  }

  datatype FrameWriteRequest = FrameWriteRequest(done: Option<Channel>, stream: Stream?, write: Write)
  {
    /** Frames without a stream belong to stream 0, except a reset, which names its stream. */
    function StreamID(): uint32 {
      if stream != null then stream.id
      else if write.StreamError? then write.errorID
      else 0
    }

    function DataSize(): nat {
      if write.Data? then |write.p| else 0
    }

    /** What Consume needs: a DATA frame that is subject to flow control has a stream. */
    ghost predicate Sendable() {
      DataSize() > 0 ==> stream != null && stream.window.Valid()
    }

    /** The windows that sending this frame may debit. */
    ghost function Windows(): set<Window> {
      if DataSize() == 0 || stream == null then {} else stream.window.Debited()
    }

    /** How many bytes may go now, if the caller asks for at most n. */
    function Allowed(n: int32): (a: int32)
      requires stream != null
      reads stream.window, stream.window.conn, stream.sc
    {
      var a := stream.window.Available();
      var b := if n < a then n else a;
      if stream.sc.maxFrameSize < b then stream.sc.maxFrameSize else b
    }

    /** Non-DATA and empty DATA frames always go; others need some window. */
    ghost predicate Ready()
      requires Sendable()
      reads if DataSize() > 0 then {stream.window as object, stream.window.conn, stream.sc} else {}
    {
      DataSize() == 0 || (stream.window.Available() > 0 && stream.sc.maxFrameSize > 0)
    }
  }

  /** The pieces a frame's content consists of: its bytes one by one, and at the
      end of a frame what the end carries. */
  datatype Atom =
    | Byte(b: byte)
    | EndOfData(id: uint32, endStream: bool, done: Option<Channel>)
    | Whole(wr: FrameWriteRequest)

  function Bytes(p: seq<byte>): (s: seq<Atom>)
    ensures |s| == |p|
  {
    seq(|p|, i requires 0 <= i < |p| => Byte(p[i]))
  }

  /** The atoms of a complete frame. */
  function Atoms(wr: FrameWriteRequest): seq<Atom> {
    if wr.write.Data? then
      Bytes(wr.write.p) + [EndOfData(wr.write.streamID, wr.write.endStream, wr.done)]
    else
      [Whole(wr)]
  }

  /** A frame cut off before its end: bytes only, and nothing that belongs to the end. */
  ghost predicate IsPiece(wr: FrameWriteRequest) {
    wr.write.Data? && wr.write.p != [] && !wr.write.endStream && wr.done.None?
  }

  /** The atoms that one emitted frame carries. */
  function Emitted(wr: FrameWriteRequest, last: bool): seq<Atom> {
    if last || !wr.write.Data? then Atoms(wr) else Bytes(wr.write.p)
  }

  function AllAtoms(s: seq<FrameWriteRequest>): seq<Atom> {
    if s == [] then [] else Atoms(s[0]) + AllAtoms(s[1..])
  }

  lemma {:induction false} AllAtomsAppend(s: seq<FrameWriteRequest>, t: seq<FrameWriteRequest>)
    ensures AllAtoms(s + t) == AllAtoms(s) + AllAtoms(t)
  {
    if s == [] {
      assert s + t == t;
    } else {
      AllAtomsAppend(s[1..], t);
      assert (s + t)[1..] == s[1..] + t;
    }
  }

  lemma SplitHead(s: seq<FrameWriteRequest>)
    requires s != []
    ensures AllAtoms(s) == Atoms(s[0]) + AllAtoms(s[1..])
  {
  }

  /** Consume takes at most n bytes of wr, at most the stream's window and at
      most a frame. count is 0 if nothing may go, 1 if all of it goes, 2 if it is
      split. Content is neither lost nor invented, the end marks stay on the last
      piece, and both windows pay exactly for the bytes that go. */
  method Consume(wr: FrameWriteRequest, n: int32)
    returns (consumed: FrameWriteRequest, rest: FrameWriteRequest, count: nat)
    requires wr.Sendable()
    modifies wr.Windows()`n
    ensures count <= 2
    ensures count == 0 <==> !(old(wr.Ready()) && (wr.DataSize() > 0 ==> n > 0))
    ensures count == 0 ==> forall w :: w in wr.Windows() ==> w.n == old(w.n)
    ensures count == 1 ==> consumed == wr
    ensures count == 2 ==>
              && IsPiece(consumed) && consumed.stream == wr.stream
              && rest.write.Data? && rest.write.p != [] && rest.stream == wr.stream
              && Emitted(consumed, false) + Atoms(rest) == Atoms(wr)
              && consumed.write.streamID == wr.write.streamID
              && consumed.DataSize() == old(wr.Allowed(n)) < wr.DataSize()
    ensures count > 0 && wr.DataSize() > 0 ==>
              && consumed.DataSize() <= old(wr.Allowed(n))
              && wr.stream.window.n == old(wr.stream.window.n) - consumed.DataSize()
              && (wr.stream.window.conn != null ==>
                    wr.stream.window.conn.n == old(wr.stream.window.conn.n) - consumed.DataSize())
  {
    var empty := FrameWriteRequest(None, null, Other(0));
    if !wr.write.Data? || |wr.write.p| == 0 {
      return wr, empty, 1;
    }
    var wd := wr.write;
    var allowed := wr.stream.window.Available();
    if n < allowed {
      allowed := n;
    }
    if wr.stream.sc.maxFrameSize < allowed {
      allowed := wr.stream.sc.maxFrameSize;
    }
    if allowed <= 0 {
      return empty, empty, 0;
    }
    if |wd.p| > allowed {
      wr.stream.window.Take(allowed);
      consumed := FrameWriteRequest(None, wr.stream, Data(wd.streamID, wd.p[..allowed], false));
      rest := FrameWriteRequest(wr.done, wr.stream, Data(wd.streamID, wd.p[allowed..], wd.endStream));
      assert Bytes(wd.p[..allowed]) + Bytes(wd.p[allowed..]) == Bytes(wd.p);
      return consumed, rest, 2;
    }
    wr.stream.window.Take(|wd.p|);
    return wr, empty, 1;
  }

  ghost function WindowsOf(windows: set<Window>): map<Window, int>
    reads windows
  {
    map w | w in windows :: w.n
  }

  /** What sending wr leaves in the windows. */
  ghost function Debit(windows: map<Window, int>, wr: FrameWriteRequest): map<Window, int> {
    map w | w in windows :: windows[w] - (if w in wr.Windows() then wr.DataSize() else 0)
  }

  ghost function HeadWindows(s: seq<FrameWriteRequest>): set<Window> {
    if s == [] then {} else s[0].Windows()
  }

  /** The queue s without what went: its head, or the first bytes of its head. */
  ghost predicate Shortened(s: seq<FrameWriteRequest>, rest: seq<FrameWriteRequest>) {
    && s != []
    && (rest == s[1..] ||
        (rest != [] && rest[1..] == s[1..] && rest[0].write.Data? && rest[0].stream == s[0].stream
         && s[0].DataSize() > 0))
  }

  /** Take from the head of a queue what may go, at most n bytes of DATA. */
  method ConsumeQueue(s: seq<FrameWriteRequest>, n: int32)
    returns (wr: FrameWriteRequest, rest: seq<FrameWriteRequest>, ok: bool, ghost last: bool)
    requires s != [] ==> s[0].Sendable()
    modifies HeadWindows(s)`n
    ensures ok <==> s != [] && old(s[0].Ready()) && (s[0].DataSize() > 0 ==> n > 0)
    ensures !ok ==> rest == s && forall w :: w in HeadWindows(s) ==> w.n == old(w.n)
    ensures ok ==>
              && Shortened(s, rest) && wr.StreamID() == s[0].StreamID() && wr.Windows() == HeadWindows(s)
              && Emitted(wr, last) + AllAtoms(rest) == AllAtoms(s)
              && (!last ==> IsPiece(wr))
              && (wr.DataSize() > 0 ==> wr.DataSize() <= n)
              && (forall w :: w in HeadWindows(s) ==> w.n == old(w.n) - wr.DataSize())
  {
    last, rest := true, s;
    if |s| == 0 {
      return FrameWriteRequest(None, null, Other(0)), rest, false, last;
    }
    var consumed, left, count := Consume(s[0], n);
    if count == 0 {
      return consumed, rest, false, last;
    }
    SplitHead(s);
    if count == 1 {
      rest := s[1..];
    } else {
      last := false;
      rest := [left] + s[1..];
      SplitHead(rest);
      assert Emitted(consumed, false) + (Atoms(left) + AllAtoms(s[1..])) == Emitted(consumed, false) + Atoms(left)
             + AllAtoms(s[1..]);
    }
    return consumed, rest, true, last;
  }

  // ----- queues of a scheduler -----

  /** A frame whose windows are among those the scheduler knows. */
  ghost predicate FrameOk(wr: FrameWriteRequest, windows: set<Window>, conns: set<Conn>) {
    wr.Sendable() && (wr.DataSize() > 0 ==> wr.Windows() <= windows && wr.stream.sc in conns)
  }

  ghost predicate QueueOk(s: seq<FrameWriteRequest>, windows: set<Window>, conns: set<Conn>) {
    forall i :: 0 <= i < |s| ==> FrameOk(s[i], windows, conns)
  }

  lemma ShortenedOk(s: seq<FrameWriteRequest>, rest: seq<FrameWriteRequest>, windows: set<Window>, conns: set<Conn>)
    requires QueueOk(s, windows, conns) && Shortened(s, rest)
    ensures QueueOk(rest, windows, conns)
  {
    assert FrameOk(s[0], windows, conns);
    forall i | 0 <= i < |rest| ensures FrameOk(rest[i], windows, conns) {
      if rest == s[1..] {
        assert rest[i] == s[i + 1];
      } else if i > 0 {
        assert rest[i] == rest[1..][i - 1] == s[i];
      }
    }
  }
}
