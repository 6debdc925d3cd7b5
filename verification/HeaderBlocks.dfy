/** Header blocks that span frames (sections 4.3 and 6.10 of RFC 7540): the writers
    that split a block, the order check on what is read, and the reader that puts
    the block together again. */
module HeaderBlocks {
  import opened Common
  import opened Flow
  import opened Frames
  import opened FrameCodec
  import Framer

  // ---------- the order of frames ----------

  predicate Carries(h: Header) {
    h.typ == HEADERS || h.typ == PUSH_PROMISE || h.typ == CONTINUATION
  }

  /** A frame that leaves its header block open. */
  predicate LeavesOpen(h: Header) {
    Carries(h) && !Has(h.flags, END_HEADERS)
  }

  /** The check before a frame is let through: `last` is the stream whose header
      block is open, or 0. */
  function Step(last: int, h: Header): Option<int> {
    if last != 0 && (h.typ != CONTINUATION || h.id != last) then None
    else if last == 0 && h.typ == CONTINUATION then None
    else if Carries(h) then Some(if Has(h.flags, END_HEADERS) then 0 else h.id)
    else Some(last)
  }

  function Accept(last: int, hs: seq<Header>): Option<int>
    decreases |hs|
  {
    if hs == [] then Some(last)
    else
      var s := Step(last, hs[0]);
      if s.None? then None else Accept(s.value, hs[1..])
  }

  /** The rule the check stands for: CONTINUATION comes exactly behind a frame that
      left a block open, on its stream. `open` is such a frame before the first. */
  predicate InOrder(open: Option<Header>, hs: seq<Header>) {
    forall i :: 0 <= i < |hs| ==> FollowsAt(open, hs, i)
  }

  predicate FollowsAt(open: Option<Header>, hs: seq<Header>, i: nat)
    requires i < |hs|
  {
    Follows(if i == 0 then open else Some(hs[i - 1]), hs[i])
  }

  predicate Follows(before: Option<Header>, h: Header) {
    if before.Some? && LeavesOpen(before.value) then h.typ == CONTINUATION && h.id == before.value.id
    else h.typ != CONTINUATION
  }

  /** The parsers reject these frames on stream 0. */
  predicate OnStreams(hs: seq<Header>) {
    forall i :: 0 <= i < |hs| && Carries(hs[i]) ==> hs[i].id != 0
  }

  lemma {:induction false} AcceptFrom(open: Option<Header>, hs: seq<Header>)
    requires OnStreams(hs) && (open.Some? && LeavesOpen(open.value) ==> open.value.id != 0)
    ensures var last := if open.Some? && LeavesOpen(open.value) then open.value.id else 0;
            Accept(last, hs).Some? <==> InOrder(open, hs)
    decreases |hs|
  {
    hide Has;
    if hs != [] {
      var last := if open.Some? && LeavesOpen(open.value) then open.value.id else 0;
      assert Step(last, hs[0]).Some? <==> Follows(open, hs[0]);
      AcceptFrom(Some(hs[0]), hs[1..]);
      InOrderTail(open, hs);
      if Follows(open, hs[0]) {
        assert Step(last, hs[0]).value == if LeavesOpen(hs[0]) then hs[0].id else 0;
      }
    }
  }

  lemma InOrderTail(open: Option<Header>, hs: seq<Header>)
    requires hs != []
    ensures InOrder(open, hs) <==> Follows(open, hs[0]) && InOrder(Some(hs[0]), hs[1..])
  {
    hide Follows;
    assert FollowsAt(open, hs, 0) == Follows(open, hs[0]);
    forall i | 0 <= i < |hs[1..]| ensures FollowsAt(Some(hs[0]), hs[1..], i) == FollowsAt(open, hs, i + 1) {
    }
    if Follows(open, hs[0]) && InOrder(Some(hs[0]), hs[1..]) {
      forall i | 0 <= i < |hs| ensures FollowsAt(open, hs, i) {
        if i > 0 {
          assert FollowsAt(Some(hs[0]), hs[1..], i - 1);
        }
      }
    }
  }

  /** From an idle connection, the check lets through exactly the runs in which
      every CONTINUATION directly continues a block and no block is interrupted. */
  lemma AcceptedExactly(hs: seq<Header>)
    requires OnStreams(hs)
    ensures Accept(0, hs).Some? <==> InOrder(None, hs)
  {
    AcceptFrom(None, hs);
  }

  // ---------- splitting a block ----------

  /** The frame a block starts with: a response or request, or a promise. */
  datatype Opening =
    | OpenHeaders(id: uint32, endStream: bool)
    | OpenPromise(id: uint32, promise: uint32)
  {
    predicate Valid() {
      ValidID(id) && (OpenPromise? ==> ValidID(promise))
    }

    /** What the opening frame carries besides its fragment. */
    function Overhead(): nat {
      if OpenPromise? then 4 else 0
    }
  }

  function FrameFor(o: Opening, frag: seq<byte>, first: bool, end: bool): Params {
    if !first then WriteContinuation(o.id, end, frag)
    else if o.OpenPromise? then WritePushPromise(o.id, o.promise, frag, end, 0)
    else WriteHeaders(o.id, frag, o.endStream, end, 0, Priority(0, false, 0))
  }

  function Cut(block: seq<byte>, max: nat): nat {
    if |block| > max then max else |block|
  }

  function Split(o: Opening, block: seq<byte>, first: bool, max: nat): seq<Params>
    requires max > 0
    decreases |block|
  {
    if block == [] then []
    else
      var n := Cut(block, max);
      [FrameFor(o, block[..n], first, n == |block|)] + Split(o, block[n..], false, max)
  }

  function FragmentOf(p: Params): seq<byte> {
    if p.WriteHeaders? || p.WriteContinuation? || p.WritePushPromise? then p.fragment else []
  }

  lemma FrameForFragment(o: Opening, frag: seq<byte>, first: bool, end: bool)
    ensures FragmentOf(FrameFor(o, frag, first, end)) == frag
  {
  }

  ghost predicate Piece(ps: seq<Params>, i: nat, o: Opening, first: bool, max: nat)
    requires i < |ps|
  {
    && ps[i] == FrameFor(o, FragmentOf(ps[i]), first && i == 0, i == |ps| - 1)
    && 0 < |FragmentOf(ps[i])| <= max
  }

  ghost function Joined(ps: seq<Params>): seq<byte> {
    if ps == [] then [] else FragmentOf(ps[0]) + Joined(ps[1..])
  }

  /** Every frame carries a non-empty fragment within the limit, only the first
      opens the block, only the last ends it, and together they are the block. */
  lemma {:induction false} SplitWhole(o: Opening, block: seq<byte>, first: bool, max: nat)
    requires max > 0
    ensures var ps := Split(o, block, first, max);
            && (ps == [] <==> block == [])
            && (forall i :: 0 <= i < |ps| ==> Piece(ps, i, o, first, max))
            && Joined(ps) == block
    decreases |block|
  {
    if block == [] {
      return;
    }
    hide FrameFor, FragmentOf, Joined, Piece;
    var n := Cut(block, max);
    SplitWhole(o, block[n..], false, max);
    SplitStep(o, block[..n], Split(o, block[n..], false, max), first, n == |block|, max);
    assert block == block[..n] + block[n..];
  }

  lemma SplitStep(o: Opening, frag: seq<byte>, rest: seq<Params>, first: bool, end: bool, max: nat)
    requires 0 < |frag| <= max && (end <==> rest == []) && forall i :: 0 <= i < |rest| ==> Piece(rest, i, o, false, max)
    ensures var ps := [FrameFor(o, frag, first, end)] + rest;
            Joined(ps) == frag + Joined(rest) && forall i :: 0 <= i < |ps| ==> Piece(ps, i, o, first, max)
  {
    hide FrameFor, FragmentOf;
    FrameForFragment(o, frag, first, end);
    var ps := [FrameFor(o, frag, first, end)] + rest;
    assert ps[1..] == rest;
    forall i | 0 <= i < |ps| ensures Piece(ps, i, o, first, max) {
      if i > 0 {
        assert ps[i] == rest[i - 1] && Piece(rest, i - 1, o, false, max);
      }
    }
  }

  /** Splits a block and writes the frames one after the other. Only an opening
      frame for an illegal stream is refused, and then nothing is sent. */
  method SplitHeaderBlock(fr: Framer.Framer, o: Opening, block: seq<byte>, max: nat) returns (r: Result<()>)
    requires 0 < max && max + o.Overhead() < LENGTH_LIMIT
    modifies fr
    ensures r.Ok? <==> block == [] || o.Valid()
    ensures r.Ok? ==>
              AllWritable(Split(o, block, true, max)) && fr.out == old(fr.out) + WriteAll(Split(o, block, true, max))
    ensures r.Fail? ==> fr.out == old(fr.out)
  {
    hide Writable, Written, FrameFor;
    var first, rest := true, block;
    if o.Valid() {
      SplitWritable(o, block, true, max);
    }
    while rest != []
      invariant first ==> rest == block && fr.out == old(fr.out)
      invariant !first ==> o.Valid()
      invariant o.Valid() ==>
                  && AllWritable(Split(o, block, true, max)) && AllWritable(Split(o, rest, first, max))
                  && fr.out + WriteAll(Split(o, rest, first, max)) == old(fr.out) + WriteAll(Split(o, block, true, max))
      decreases |rest|
    {
      var n := Cut(rest, max);
      var p := FrameFor(o, rest[..n], first, n == |rest|);
      ghost var ps := Split(o, rest, first, max);
      FrameForWritable(o, rest[..n], first, n == |rest|);
      assert ps[0] == p && ps[1..] == Split(o, rest[n..], false, max);
      r := fr.Write(p);
      if r.Fail? {
        return;
      }
      assert forall i :: 0 <= i < |ps[1..]| ==> ps[1..][i] == ps[i + 1];
      first, rest := false, rest[n..];
    }
    return Ok(());
  }

  lemma FrameForWritable(o: Opening, frag: seq<byte>, first: bool, end: bool)
    requires |frag| + o.Overhead() < LENGTH_LIMIT
    ensures Writable(FrameFor(o, frag, first, end)) <==> if first then o.Valid() else ValidID(o.id)
  {
  }

  lemma {:induction false} SplitWritable(o: Opening, block: seq<byte>, first: bool, max: nat)
    requires 0 < max && max + o.Overhead() < LENGTH_LIMIT && o.Valid()
    ensures var ps := Split(o, block, first, max);
            forall i :: 0 <= i < |ps| ==> Writable(ps[i]) && Survives(ps[i]) && |Body(ps[i])| <= max + o.Overhead()
  {
    SplitWhole(o, block, first, max);
    var ps := Split(o, block, first, max);
    forall i | 0 <= i < |ps| ensures Writable(ps[i]) && Survives(ps[i]) && |Body(ps[i])| <= max + o.Overhead() {
      assert Piece(ps, i, o, first, max);
    }
  }

  /** The limit is on fragments. A promise also carries an id, so its frame passes
      the limit exactly when the block is longer than the limit less four. */
  lemma FrameSizes(o: Opening, block: seq<byte>, max: nat)
    requires 0 < max && max + o.Overhead() < LENGTH_LIMIT && o.Valid()
    ensures var ps := Split(o, block, true, max);
            AllWritable(ps) && ((forall i :: 0 <= i < |ps| ==> |Body(ps[i])| <= max) <==>
                                   |block| + o.Overhead() <= max || o.OpenHeaders? || block == [])
  {
    hide Survives, Split;
    SplitWritable(o, block, true, max);
    SplitWhole(o, block, true, max);
    var ps := Split(o, block, true, max);
    forall i | 0 <= i < |ps| ensures |Body(ps[i])| == |FragmentOf(ps[i])| + if i == 0 then o.Overhead() else 0 {
      assert Piece(ps, i, o, true, max);
    }
    forall i | 0 <= i < |ps| ensures |FragmentOf(ps[i])| <= max {
      assert Piece(ps, i, o, true, max);
    }
    if ps != [] {
      SplitFirst(o, block, true, max);
    }
  }

  /** A promise whose block fills the limit is one frame of four bytes more. */
  lemma PromiseTooLong(id: uint32, promise: uint32, block: seq<byte>)
    requires ValidID(id) && ValidID(promise) && |block| == 16384
    ensures var ps := Split(OpenPromise(id, promise), block, true, 16384); |ps| == 1 && |Body(ps[0])| == 16388
  {
    hide Split;
    var o := OpenPromise(id, promise);
    var ps := Split(o, block, true, 16384);
    SplitWhole(o, block, true, 16384);
    SplitFirst(o, block, true, 16384);
    assert Piece(ps, 0, o, true, 16384);
    assert Joined(ps) == FragmentOf(ps[0]) + Joined(ps[1..]);
    assert |ps| > 1 ==> Piece(ps, 1, o, true, 16384);
  }

  lemma SplitFirst(o: Opening, block: seq<byte>, first: bool, max: nat)
    requires max > 0 && block != []
    ensures Split(o, block, first, max) != [] && FragmentOf(Split(o, block, first, max)[0]) == block[..Cut(block, max)]
  {
    FrameForFragment(o, block[..Cut(block, max)], first, Cut(block, max) == |block|);
  }

  // ---------- reading a block ----------

  /** One frame that passes both the parsers and the order check. */
  function Next(s: seq<byte>, last: int, max: nat): Result<(Frame, seq<byte>, int)> {
    var f := ReadFrame(s, max);
    if f.Fail? then Fail(f.error)
    else
      var to := Step(last, f.value.0.header);
      if to.None? then Fail(ProtocolError) else Ok((f.value.0, f.value.1, to.value))
  }

  /** The bytes behind the next frame, whether or not it parses. A frame that is too large
      is left unread behind its header, and one that ends early takes all there is. */
  function Behind(s: seq<byte>, max: nat): seq<byte> {
    if |s| < HEADER_LEN then []
    else
      var h := ParseHeader(s);
      if h.length > max then s[HEADER_LEN..]
      else if |s| < HEADER_LEN + h.length then []
      else s[HEADER_LEN + h.length..]
  }

  function Fragment(p: Payload): seq<byte> {
    match p
    case Headers(_, fragment) => fragment
    case PushPromise(_, fragment) => fragment
    case Continuation(fragment) => fragment
    case _ => []
  }

  /** What is left of a block behind the frame f: the block from f on, the bytes
      behind it and the state of the order check. */
  function Gather(f: Frame, s: seq<byte>, last: int, max: nat): Result<(seq<byte>, seq<byte>, int)>
    decreases |s|
  {
    if Has(f.header.flags, END_HEADERS) then Ok((Fragment(f.payload), s, last))
    else
      var n := Next(s, last, max);
      if n.Fail? then Fail(n.error)
      else
        var g := Gather(n.value.0, n.value.1, n.value.2, max);
        if g.Fail? then g else Ok((Fragment(f.payload) + g.value.0, g.value.1, g.value.2))
  }

  /** What reading one block off an idle connection yields. */
  function ReadBlock(s: seq<byte>, max: nat): Result<(Frame, seq<byte>, seq<byte>, int)> {
    var n := Next(s, 0, max);
    if n.Fail? then Fail(n.error)
    else
      var g := Gather(n.value.0, n.value.1, n.value.2, max);
      if g.Fail? then Fail(g.error) else Ok((n.value.0, g.value.0, g.value.1, g.value.2))
  }

  /** A parsed CONTINUATION header comes with a CONTINUATION payload on a stream. */
  lemma ParsedKind(s: seq<byte>, max: nat)
    requires ReadFrame(s, max).Ok?
    ensures var f := ReadFrame(s, max).value.0;
            && |ReadFrame(s, max).value.1| < |s|
            && (f.header.typ == CONTINUATION <==> f.payload.Continuation?)
            && (Carries(f.header) ==> f.header.id != 0)
            && (Carries(f.header) <==> f.payload.Headers? || f.payload.PushPromise? || f.payload.Continuation?)
  {
    var h := ParseHeader(s);
    var p := s[HEADER_LEN..HEADER_LEN + h.length];
    hide Has, Unpad, Unprioritize, Uint32, Value;
    assert ParsePayload(h, p).Ok?;
  }

  class Reader {
    var input: seq<byte>
    var lastHeaderStream: int
    const max: nat

    constructor (input: seq<byte>, max: nat)
      ensures this.input == input && lastHeaderStream == 0 && this.max == max
    {
      this.input, lastHeaderStream, this.max := input, 0, max;
    }

    /** The next frame. One that does not parse is consumed all the same, so that reading
        can go on behind it. */
    method ReadFrame() returns (r: Result<Frame>)
      modifies this
      ensures var n := Next(old(input), old(lastHeaderStream), max);
              if n.Ok? then r == Ok(n.value.0) && input == n.value.1 && lastHeaderStream == n.value.2
              else r == Fail(n.error) && lastHeaderStream == old(lastHeaderStream)
      ensures input == Behind(old(input), max)
    {
      var f := FrameCodec.ReadFrame(input, max);
      input := Behind(input, max);
      if f.Fail? {
        return Fail(f.error);
      }
      var to := Step(lastHeaderStream, f.value.0.header);
      if to.None? {
        return Fail(ProtocolError);
      }
      lastHeaderStream := to.value;
      return Ok(f.value.0);
    }

    /** Collects the fragments of the block that f began. Every further frame is
        taken to be a CONTINUATION of the same stream, which the order check has
        already made sure of. */
    method ReadMetaFrame(f: Frame) returns (r: Result<seq<byte>>)
      requires Carries(f.header) && f.header.id != 0
      requires lastHeaderStream == if Has(f.header.flags, END_HEADERS) then 0 else f.header.id
      modifies this
      ensures var g := Gather(f, old(input), old(lastHeaderStream), max);
              if g.Ok? then r == Ok(g.value.0) && input == g.value.1 && lastHeaderStream == g.value.2 == 0
              else r == Fail(g.error)
    {
      hide Has, FrameCodec.ReadFrame;
      var hc := f;
      var block: seq<byte> := [];
      assert forall x: seq<byte> :: [] + x == x;
      while true
        invariant Carries(hc.header) && hc.header.id == f.header.id
        invariant lastHeaderStream == if Has(hc.header.flags, END_HEADERS) then 0 else hc.header.id
        invariant var g := Gather(f, old(input), old(lastHeaderStream), max);
                  var h := Gather(hc, input, lastHeaderStream, max);
                  if h.Ok? then g == Ok((block + h.value.0, h.value.1, h.value.2)) else g == h
        decreases |input|
      {
        assert forall x: seq<byte> :: block + (Fragment(hc.payload) + x) == block + Fragment(hc.payload) + x;
        block := block + Fragment(hc.payload);
        if Has(hc.header.flags, END_HEADERS) {
          return Ok(block);
        }
        ghost var before := input;
        var n := ReadFrame();
        if n.Fail? {
          return Fail(n.error);
        }
        ParsedKind(before, max);
        assert n.value.payload.Continuation? && n.value.header.id == f.header.id;
        hc := n.value;
      }
    }
  }

  // ---------- a block survives the wire ----------

  lemma FrameForFacts(o: Opening, frag: seq<byte>, first: bool, end: bool)
    requires o.Valid() && frag != [] && |frag| + o.Overhead() < LENGTH_LIMIT
    ensures var p := FrameFor(o, frag, first, end);
            && Writable(p) && Survives(p) && |Body(p)| <= |frag| + o.Overhead()
            && Fragment(FrameOf(p).payload) == frag
            && (Has(FrameOf(p).header.flags, END_HEADERS) <==> end)
            && Step(if first then 0 else o.id, FrameOf(p).header) == Some(if end then 0 else o.id)
  {
    HeadersFlags(false, o.OpenHeaders? && o.endStream, end, false);
  }

  lemma NextWritten(p: Params, rest: seq<byte>, last: int, max: nat)
    requires Writable(p) && Survives(p) && |Body(p)| <= max && Step(last, FrameOf(p).header).Some?
    ensures Next(Written(p) + rest, last, max) == Ok((FrameOf(p), rest, Step(last, FrameOf(p).header).value))
  {
    hide ReadFrame, Written, FrameOf, Body, Survives, Writable, Step;
    RoundTrip(p, rest, max);
  }

  lemma RestWritable(o: Opening, block: seq<byte>, max: nat)
    requires 0 < max && max + o.Overhead() < LENGTH_LIMIT && o.Valid()
    ensures AllWritable(Split(o, block, false, max))
  {
    hide Writable;
    SplitWritable(o, block, false, max);
  }

  lemma NothingWritten(tail: seq<byte>)
    ensures AllWritable([]) && WriteAll([]) + tail == tail
  {
  }

  lemma WriteAllHead(ps: seq<Params>, p: Params, more: seq<Params>, tail: seq<byte>)
    requires ps == [p] + more && AllWritable(ps)
    ensures Writable(p) && AllWritable(more) && WriteAll(ps) + tail == Written(p) + (WriteAll(more) + tail)
  {
    hide Writable, Written;
    assert ps[0] == p && ps[1..] == more;
  }

  /** The frames behind a given first one bring back the rest of the block. */
  lemma {:induction false} GatherSplit(o: Opening, block: seq<byte>, first: bool, max: nat, tail: seq<byte>,
                                       readMax: nat)
    requires o.Valid() && block != [] && 0 < max && max + o.Overhead() < LENGTH_LIMIT && max + o.Overhead() <= readMax
    ensures var n := Cut(block, max);
            var p := FrameFor(o, block[..n], first, n == |block|);
            && Writable(p) && AllWritable(Split(o, block[n..], false, max))
            && Gather(FrameOf(p), WriteAll(Split(o, block[n..], false, max)) + tail, if n == |block| then 0
                      else o.id, readMax)
               == Ok((block, tail, 0))
    decreases |block|
  {
    hide FrameOf, FrameFor, Writable, Survives, Body, Step, Has, Fragment, Next, Written, WriteAll, AllWritable;
    var n := Cut(block, max);
    var rest := block[n..];
    FrameForFacts(o, block[..n], first, n == |block|);
    RestWritable(o, rest, max);
    if rest == [] {
      NothingWritten(tail);
      assert block[..n] == block;
    } else {
      GatherSplit(o, rest, false, max, tail, readMax);
      var m := Cut(rest, max);
      var q := FrameFor(o, rest[..m], false, m == |rest|);
      var more := Split(o, rest[m..], false, max);
      FrameForFacts(o, rest[..m], false, m == |rest|);
      WriteAllHead(Split(o, rest, false, max), q, more, tail);
      NextWritten(q, WriteAll(more) + tail, o.id, readMax);
      assert block[..n] + rest == block;
    }
  }

  /** Whatever a header block is, writing it and reading it on an idle connection
      whose limit allows the frames gives back the block, the opening frame and
      everything written behind it, and leaves the connection idle. */
  lemma BlockRoundTrip(o: Opening, block: seq<byte>, max: nat, tail: seq<byte>, readMax: nat)
    requires o.Valid() && block != [] && 0 < max && max + o.Overhead() < LENGTH_LIMIT && max + o.Overhead() <= readMax
    ensures AllWritable(Split(o, block, true, max))
    ensures var first := FrameFor(o, block[..Cut(block, max)], true, |block| <= max);
            Writable(first) && ReadBlock(WriteAll(Split(o, block, true, max)) + tail, readMax) ==
              Ok((FrameOf(first), block, tail, 0))
  {
    hide FrameOf, FrameFor, Writable, Survives, Body, Step, Has, Fragment, Next, Written, Gather;
    var n := Cut(block, max);
    var p := FrameFor(o, block[..n], true, n == |block|);
    var more := Split(o, block[n..], false, max);
    SplitWritable(o, block, true, max);
    FrameForFacts(o, block[..n], true, n == |block|);
    GatherSplit(o, block, true, max, tail, readMax);
    WriteAllHead(Split(o, block, true, max), p, more, tail);
    NextWritten(p, WriteAll(more) + tail, 0, readMax);
  }
}
