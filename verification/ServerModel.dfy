/** The streams of an HTTP/2 server connection: what a connection remembers of
    each stream, and the predicates every step of its serve loop keeps. */
module ServerModel {
  import opened Flow
  import opened Forest

  const DEFAULT_WINDOW: int32 := 65535

  const NO_ERROR: nat := 0
  const PROTOCOL_ERROR: nat := 1
  const FLOW_CONTROL_ERROR: nat := 3
  const STREAM_CLOSED: nat := 5
  const REFUSED_STREAM: nat := 7

  datatype StreamState = Idle | Open | HalfClosedLocal | HalfClosedRemote | Closed

  /** A request body's pipe, by size: `len` bytes received and neither read nor
      given back, `closed` once the writing side ended, `broken` once the reader
      gave up (later bytes are discarded, and still count). */
  datatype Body = NoBody | Body(len: nat, closed: bool, broken: bool) {
    function Len(): nat {
      if NoBody? then 0 else len
    }

    /** The writing side ends. */
    function Close(): (b: Body)
      ensures b.Body? <==> Body?
      ensures Body? ==> b.closed && b.len == len && b.broken == broken
    {
      if NoBody? then this else this.(closed := true)
    }
  }

  datatype Stream = Stream(
    state: StreamState,
    flow: int32,
    inflow: int32,
    body: Body,
    bodyBytes: nat,
    declBodyBytes: int,
    gotTrailerHeader: bool,
    resetQueued: bool)

  datatype Err = NoErr | StreamErr(id: int, code: nat) | ConnErr(code: nat)

  type Streams = map<int, Stream>

  // ---------- the life of a stream ----------

  /** Section 5.1 of RFC 7540: a stream only moves forward. Skipping an idle id
      closes it. */
  predicate Forward(a: StreamState, b: StreamState) {
    || a == b
    || a == Idle
    || b == Closed
    || (a == Open && b != Idle)
  }

  lemma ForwardTrans(a: StreamState, b: StreamState, c: StreamState)
    requires Forward(a, b) && Forward(b, c)
    ensures Forward(a, c)
  {
  }

  /** Clients open odd ids, the server pushes on even ones. */
  predicate FromClient(id: int) {
    id % 2 == 1
  }

  /** What a connection answers when asked for the state of an id. */
  function StateOf(streams: Streams, maxClient: int, maxPush: int, id: int): StreamState {
    if id in streams then streams[id].state
    else if FromClient(id) then
      if id <= maxClient then Closed else Idle
    else
      if id <= maxPush then Closed else Idle
  }

  ghost function Odd(s: set<int>): set<int> {
    set id | id in s && FromClient(id)
  }

  ghost function Even(s: set<int>): set<int> {
    set id | id in s && !FromClient(id)
  }

  predicate LiveState(s: StreamState) {
    s != Idle && s != Closed
  }

  ghost predicate IdOk(id: int, maxClient: int, maxPush: int) {
    0 < id <= if FromClient(id) then maxClient else maxPush
  }

  /** The two counters count the table; every id in it was used by its side. */
  ghost predicate Counted(streams: Streams, client: int, pushed: int, maxClient: int, maxPush: int) {
    && client == |Odd(streams.Keys)|
    && pushed == |Even(streams.Keys)|
    && 0 <= maxClient < ID_LIMIT
    && 0 <= maxPush < ID_LIMIT && !FromClient(maxPush)
    && forall id :: id in streams ==> IdOk(id, maxClient, maxPush) && LiveState(streams[id].state)
  }

  /** The answer sorts all ids: those in the table are live, those beyond the highest id
      their side has used are idle, and all others are closed. An idle id is in no table. */
  lemma StateLegend(streams: Streams, client: int, pushed: int, maxClient: int, maxPush: int, id: int)
    requires Counted(streams, client, pushed, maxClient, maxPush) && 0 < id
    ensures var s := StateOf(streams, maxClient, maxPush, id);
            && (LiveState(s) <==> id in streams)
            && (s == Idle <==> !IdOk(id, maxClient, maxPush))
            && (s == Closed <==> IdOk(id, maxClient, maxPush) && id !in streams)
  {
    if id in streams {
      CountedLive(streams, client, pushed, maxClient, maxPush, id);
    }
  }

  lemma SidesAdd(s: set<int>, id: int)
    requires id !in s
    ensures |Odd(s + {id})| == |Odd(s)| + if FromClient(id) then 1 else 0
    ensures |Even(s + {id})| == |Even(s)| + if FromClient(id) then 0 else 1
  {
    hide FromClient;
    if FromClient(id) {
      assert Odd(s + {id}) == Odd(s) + {id};
      assert Even(s + {id}) == Even(s);
    } else {
      assert Odd(s + {id}) == Odd(s);
      assert Even(s + {id}) == Even(s) + {id};
    }
  }

  lemma CountedAdd(streams: Streams, client: int, pushed: int, maxClient: int, maxPush: int, id: int, st: Stream)
    requires Counted(streams, client, pushed, maxClient, maxPush)
    requires id !in streams && 0 < id < ID_LIMIT && LiveState(st.state)
    requires if FromClient(id) then maxClient <= id else maxPush <= id
    ensures if FromClient(id) then Counted(streams[id := st], client + 1, pushed, id, maxPush)
            else Counted(streams[id := st], client, pushed + 1, maxClient, id)
  {
    hide FromClient, Odd, Even, LiveState;
    assert streams[id := st].Keys == streams.Keys + {id};
    SidesAdd(streams.Keys, id);
    var after := streams[id := st];
    forall i | i in after ensures LiveState(after[i].state) {
      assert i != id ==> LiveState(streams[i].state);
    }
  }

  lemma CountedLive(streams: Streams, client: int, pushed: int, maxClient: int, maxPush: int, id: int)
    requires Counted(streams, client, pushed, maxClient, maxPush) && id in streams
    ensures IdOk(id, maxClient, maxPush) && LiveState(streams[id].state)
  {
  }

  lemma CountedEmpty(client: int, pushed: int, maxClient: int, maxPush: int)
    requires Counted(map[], client, pushed, maxClient, maxPush)
    ensures client == pushed == 0
  {
    assert Odd({}) == {} == Even({});
  }

  lemma CountedRaise(streams: Streams, client: int, pushed: int, maxClient: int, maxPush: int, maxClient': int,
                     maxPush': int)
    requires Counted(streams, client, pushed, maxClient, maxPush)
    requires maxClient <= maxClient' < ID_LIMIT && maxPush <= maxPush' < ID_LIMIT && !FromClient(maxPush')
    ensures Counted(streams, client, pushed, maxClient', maxPush')
  {
  }

  lemma CountedSet(streams: Streams, client: int, pushed: int, maxClient: int, maxPush: int, id: int, st: Stream)
    requires Counted(streams, client, pushed, maxClient, maxPush)
    requires id in streams && (LiveState(st.state) || st.state == streams[id].state)
    ensures Counted(streams[id := st], client, pushed, maxClient, maxPush)
  {
    assert streams[id := st].Keys == streams.Keys;
  }

  lemma CountedDrop(streams: Streams, client: int, pushed: int, maxClient: int, maxPush: int, id: int)
    requires Counted(streams, client, pushed, maxClient, maxPush) && id in streams
    ensures IdOk(id, maxClient, maxPush)
    ensures if FromClient(id) then client > 0 && Counted(streams - {id}, client - 1, pushed, maxClient, maxPush)
            else pushed > 0 && Counted(streams - {id}, client, pushed - 1, maxClient, maxPush)
  {
    hide FromClient, Odd, Even;
    assert (streams - {id}).Keys == streams.Keys - {id};
    SidesAdd(streams.Keys - {id}, id);
    assert streams.Keys - {id} + {id} == streams.Keys;
  }

  lemma CardBelow(s: set<int>, n: nat)
    requires forall x :: x in s ==> 0 < x <= n
    ensures |s| <= n
    decreases n
  {
    if n == 0 {
      assert (forall x :: x !in s) ==> s == {};
    } else {
      CardBelow(s - {n}, n - 1);
      if n !in s {
        assert s - {n} == s;
      }
    }
  }

  /** The counters stay far from wrapping around 32 bits. */
  lemma CountsSmall(streams: Streams, client: int, pushed: int, maxClient: int, maxPush: int)
    requires Counted(streams, client, pushed, maxClient, maxPush)
    ensures 0 <= client < ID_LIMIT && 0 <= pushed < ID_LIMIT
    ensures 0 <= maxClient < ID_LIMIT && 0 <= maxPush < ID_LIMIT && !FromClient(maxPush)
  {
    CardBelow(Odd(streams.Keys), maxClient);
    CardBelow(Even(streams.Keys), maxPush);
  }

  /** Ids ever used are in the table or retired, never both. */
  ghost predicate Split(streams: Streams, retired: map<int, Body>, owed: map<int, nat>, sent: map<int, Sent>) {
    && streams.Keys !! retired.Keys
    && owed.Keys == streams.Keys + retired.Keys
    && sent.Keys == owed.Keys
  }

  lemma SplitOpen(streams: Streams, retired: map<int, Body>, owed: map<int, nat>, sent: map<int, Sent>, id: int,
                  st: Stream, n: nat, s: Sent)
    requires Split(streams, retired, owed, sent) && id !in owed
    ensures id !in streams && id !in sent
    ensures Split(streams[id := st], retired, owed[id := n], sent[id := s])
  {
  }

  lemma SplitSet(streams: Streams, retired: map<int, Body>, owed: map<int, nat>, sent: map<int, Sent>, id: int,
                 st: Stream, n: nat, s: Sent)
    requires Split(streams, retired, owed, sent) && id in streams
    ensures id in owed && id in sent && id !in retired
    ensures Split(streams[id := st], retired, owed[id := n], sent[id := s])
    ensures Split(streams[id := st], retired, owed[id := n], sent)
    ensures Split(streams[id := st], retired, owed, sent[id := s])
    ensures Split(streams[id := st], retired, owed, sent)
  {
  }

  lemma SplitClose(streams: Streams, retired: map<int, Body>, owed: map<int, nat>, sent: map<int, Sent>, id: int,
                   body: Body)
    requires Split(streams, retired, owed, sent) && id in streams
    ensures Split(streams - {id}, retired[id := body], owed, sent)
  {
  }

  lemma SplitLate(streams: Streams, retired: map<int, Body>, owed: map<int, nat>, sent: map<int, Sent>, id: int,
                  body: Body, n: nat)
    requires Split(streams, retired, owed, sent) && id in retired
    ensures id in owed && id !in streams
    ensures Split(streams, retired[id := body], owed[id := n], sent)
    ensures Split(streams, retired, owed[id := n], sent)
  {
  }

  lemma SplitKeys(streams: Streams, retired: map<int, Body>, owed: map<int, nat>, sent: map<int, Sent>)
    requires Split(streams, retired, owed, sent)
    ensures streams.Keys <= sent.Keys && streams.Keys <= owed.Keys && streams.Keys !! retired.Keys
  {
  }

  lemma SplitAll(streams: Streams, retired: map<int, Body>, owed: map<int, nat>, sent: map<int, Sent>, id: int)
    requires Split(streams, retired, owed, sent) && id in owed
    ensures id in streams <==> id !in retired
  {
  }

  lemma SplitUnused(streams: Streams, retired: map<int, Body>, owed: map<int, nat>, sent: map<int, Sent>, id: int)
    requires Split(streams, retired, owed, sent) && id !in owed
    ensures id !in streams && id !in retired && id !in sent
  {
  }

  /** Ids ever used are behind the highest id of their side. */
  ghost predicate Used(owed: map<int, nat>, maxClient: int, maxPush: int) {
    forall id :: id in owed ==> IdOk(id, maxClient, maxPush)
  }

  lemma UsedRaise(owed: map<int, nat>, maxClient: int, maxPush: int, maxClient': int, maxPush': int)
    requires Used(owed, maxClient, maxPush) && maxClient <= maxClient' && maxPush <= maxPush'
    ensures Used(owed, maxClient', maxPush')
    ensures forall id :: id in owed ==> if FromClient(id) then id <= maxClient else id <= maxPush
  {
  }

  lemma UsedGone(streams: Streams, owed: map<int, nat>, maxClient: int, maxPush: int, id: int)
    requires Used(owed, maxClient, maxPush) && id in owed && id !in streams
    ensures StateOf(streams, maxClient, maxPush, id) == Closed
  {
  }

  lemma UsedOpen(owed: map<int, nat>, maxClient: int, maxPush: int, id: int, n: nat)
    requires Used(owed, maxClient, maxPush) && (id in owed || IdOk(id, maxClient, maxPush))
    ensures Used(owed[id := n], maxClient, maxPush)
  {
  }

  // ---------- request bodies ----------

  predicate BodyOk(st: Stream) {
    && (st.state == Open && !st.resetQueued ==> st.body.Body?)
    && (st.state == HalfClosedLocal ==> st.resetQueued)
  }

  /** A stream that may still receive DATA or trailers has a body to put them in,
      and one the server finished first is on its way to a reset; `pending` may
      name a stream whose reset is about to be queued. */
  ghost predicate Bodied(streams: Streams, pending: set<int>) {
    forall id :: id in streams && id !in pending ==> BodyOk(streams[id])
  }

  lemma BodiedSet(streams: Streams, id: int, st: Stream)
    requires Bodied(streams, {}) || Bodied(streams, {id})
    ensures Bodied(streams[id := st], {id})
    ensures BodyOk(st) ==> Bodied(streams[id := st], {})
  {
  }

  lemma BodiedDrop(streams: Streams, id: int)
    requires Bodied(streams, {}) || Bodied(streams, {id})
    ensures Bodied(streams - {id}, {}) && Bodied(streams, {id})
    ensures id !in streams ==> Bodied(streams, {})
  {
  }

  lemma BodiedHas(streams: Streams, id: int)
    requires Bodied(streams, {}) && id in streams
    ensures BodyOk(streams[id])
  {
  }

  ghost function Pending(err: Err): set<int> {
    if err.StreamErr? then {err.id} else {}
  }

  // ---------- the send ledger ----------

  /** What one stream was granted beyond its initial window, and what it sent. */
  datatype Sent = Sent(granted: nat, bytes: nat)

  ghost predicate SendOk(flow: int32, initial: int, s: Sent) {
    && flow == initial + s.granted - s.bytes
    && s.bytes <= s.granted + MAX_INT32
  }

  /** A stream window never falls below -(2^31 - 1). */
  lemma SendOkBound(flow: int32, initial: int32, s: Sent)
    requires SendOk(flow, initial, s) && 0 <= initial
    ensures -MAX_INT32 <= flow
  {
  }

  ghost predicate SendLedger(streams: Streams, initial: int, sent: map<int, Sent>) {
    && 0 <= initial <= MAX_INT32
    && streams.Keys <= sent.Keys
    && forall id :: id in streams ==> SendOk(streams[id].flow, initial, sent[id])
  }

  lemma SendLedgerSet(streams: Streams, initial: int, sent: map<int, Sent>, id: int, st: Stream, s: Sent)
    requires SendLedger(streams, initial, sent) && SendOk(st.flow, initial, s)
    ensures SendLedger(streams[id := st], initial, sent[id := s])
  {
  }

  lemma SendLedgerAt(streams: Streams, initial: int, sent: map<int, Sent>, id: int)
    requires SendLedger(streams, initial, sent) && id in streams
    ensures 0 <= initial <= MAX_INT32 && id in sent && SendOk(streams[id].flow, initial, sent[id])
  {
  }

  lemma SendLedgerDrop(streams: Streams, initial: int, sent: map<int, Sent>, id: int)
    requires SendLedger(streams, initial, sent)
    ensures SendLedger(streams - {id}, initial, sent)
  {
  }

  /** Whatever else changes about a stream, its ledger follows its window. */
  lemma SendLedgerSame(streams: Streams, initial: int, sent: map<int, Sent>, id: int, st: Stream)
    requires SendLedger(streams, initial, sent) && id in streams && st.flow == streams[id].flow
    ensures SendLedger(streams[id := st], initial, sent)
  {
  }

  ghost function BytesSent(sent: map<int, Sent>): map<int, int> {
    map id | id in sent :: sent[id].bytes
  }

  ghost function TotalSent(sent: map<int, Sent>): int {
    Sum(BytesSent(sent), sent.Keys)
  }

  lemma TotalSentSet(sent: map<int, Sent>, id: int, s: Sent)
    ensures TotalSent(sent[id := s]) == TotalSent(sent) + s.bytes - (if id in sent then sent[id].bytes else 0)
  {
    var f, g := BytesSent(sent), BytesSent(sent[id := s]);
    var rest := sent.Keys - {id};
    assert sent[id := s].Keys == rest + {id};
    SumAdd(g, rest, id);
    SumSame(f, g, rest);
    if id in sent {
      SumPick(f, sent.Keys, id);
    } else {
      assert rest == sent.Keys;
    }
  }

  // ---------- the receive ledger ----------

  ghost function Lens(streams: Streams): map<int, int> {
    map id | id in streams :: streams[id].body.Len()
  }

  /** Bytes received for streams in the table and not yet read. */
  ghost function Held(streams: Streams): int {
    Sum(Lens(streams), streams.Keys)
  }

  ghost function Owed(owed: map<int, nat>): int {
    Sum(owed, owed.Keys)
  }

  lemma HeldSet(streams: Streams, id: int, st: Stream)
    ensures Held(streams[id := st]) == Held(streams)
            + st.body.Len() - (if id in streams then streams[id].body.Len() else 0)
  {
    var f, g := Lens(streams), Lens(streams[id := st]);
    var rest := streams.Keys - {id};
    assert streams[id := st].Keys == rest + {id};
    SumAdd(g, rest, id);
    SumSame(f, g, rest);
    if id in streams {
      SumPick(f, streams.Keys, id);
    } else {
      assert rest == streams.Keys;
    }
  }

  lemma HeldDrop(streams: Streams, id: int)
    requires id in streams
    ensures Held(streams - {id}) == Held(streams) - streams[id].body.Len()
  {
    var f, g := Lens(streams), Lens(streams - {id});
    assert (streams - {id}).Keys == streams.Keys - {id};
    SumPick(f, streams.Keys, id);
    SumSame(f, g, streams.Keys - {id});
  }

  lemma OwedSet(owed: map<int, nat>, id: int, n: nat)
    ensures Owed(owed[id := n]) == Owed(owed) + n - (if id in owed then owed[id] else 0)
  {
    var g := owed[id := n];
    var rest := owed.Keys - {id};
    assert g.Keys == rest + {id};
    SumAdd<int>(g, rest, id);
    SumSame<int>(owed, g, rest);
    if id in owed {
      SumPick<int>(owed, owed.Keys, id);
    } else {
      assert rest == owed.Keys;
    }
  }

  lemma HeldAtLeast(streams: Streams, id: int)
    ensures 0 <= Held(streams)
    ensures id in streams ==> streams[id].body.Len() <= Held(streams)
  {
    var lens := Lens(streams);
    assert forall i :: i in streams.Keys ==> 0 <= lens[i];
    SumNonNegative<int>(lens, streams.Keys);
    if id in streams {
      HeldDrop(streams, id);
      SumNonNegative<int>(Lens(streams - {id}), (streams - {id}).Keys);
    }
  }

  lemma OwedAtLeast(owed: map<int, nat>, id: int)
    ensures 0 <= Owed(owed)
    ensures id in owed ==> owed[id] <= Owed(owed)
  {
    SumNonNegative<int>(owed, owed.Keys);
    if id in owed {
      SumPick<int>(owed, owed.Keys, id);
      SumNonNegative<int>(owed, owed.Keys - {id});
    }
  }

  ghost predicate StreamIn(st: Stream, window: int32, owed: nat) {
    0 <= st.inflow && st.inflow + st.body.Len() + owed <= window
  }

  /** Every byte of the connection's receive window is still open to the peer, or
      sits in a live body, or was read and waits to be given back. `late` counts
      the bytes handlers read out of bodies whose stream was already closed:
      those were given back twice. */
  datatype Intake = Intake(streams: Streams, owed: map<int, nat>, inflow: int, window: int, streamWindow: int32,
                           late: nat) {
    ghost predicate Balanced() {
      && 0 <= inflow
      && inflow + Held(streams) + Owed(owed) == window + late
      && streams.Keys <= owed.Keys
      && forall id :: id in streams ==> StreamIn(streams[id], streamWindow, owed[id])
    }
  }

  /** One stream and what its handler owes change together; the connection's
      window makes up the difference. */
  lemma BalancedSet(b: Intake, id: int, st: Stream, n: nat, inflow: int)
    requires b.Balanced() && id in b.streams
    requires StreamIn(st, b.streamWindow, n) && 0 <= inflow
    requires inflow + st.body.Len() + n == b.inflow + b.streams[id].body.Len() + b.owed[id]
    ensures b.(streams := b.streams[id := st], owed := b.owed[id := n], inflow := inflow).Balanced()
  {
    hide Held, Owed;
    HeldSet(b.streams, id, st);
    OwedSet(b.owed, id, n);
  }

  lemma BalancedStream(b: Intake, id: int, st: Stream, inflow: int)
    requires b.Balanced() && id in b.streams
    requires StreamIn(st, b.streamWindow, b.owed[id]) && 0 <= inflow
    requires inflow + st.body.Len() == b.inflow + b.streams[id].body.Len()
    ensures b.(streams := b.streams[id := st], inflow := inflow).Balanced()
  {
    BalancedSet(b, id, st, b.owed[id], inflow);
    assert b.owed[id := b.owed[id]] == b.owed;
  }

  lemma BalancedOpen(b: Intake, id: int, st: Stream)
    requires b.Balanced() && id !in b.streams && id !in b.owed
    requires StreamIn(st, b.streamWindow, 0) && st.body.Len() == 0
    ensures b.(streams := b.streams[id := st], owed := b.owed[id := 0]).Balanced()
  {
    hide Held, Owed;
    HeldSet(b.streams, id, st);
    OwedSet(b.owed, id, 0);
  }

  lemma BalancedDrop(b: Intake, id: int)
    requires b.Balanced() && id in b.streams
    ensures b.(streams := b.streams - {id}, inflow := b.inflow + b.streams[id].body.Len()).Balanced()
  {
    hide Held, Owed;
    HeldDrop(b.streams, id);
  }

  /** The same for a stream that left the table: only its handler is left. */
  lemma BalancedLate(b: Intake, id: int, n: nat, inflow: int, late: nat)
    requires b.Balanced() && id !in b.streams && id in b.owed && 0 <= inflow
    requires inflow + n - late == b.inflow + b.owed[id] - b.late
    ensures b.(owed := b.owed[id := n], inflow := inflow, late := late).Balanced()
  {
    hide Held, Owed;
    OwedSet(b.owed, id, n);
  }

  lemma BalancedEmpty(b: Intake)
    requires b.Balanced() && b.streams == map[]
    ensures b.inflow + Owed(b.owed) == b.window + b.late
  {
  }

  lemma BalancedSign(b: Intake)
    requires b.Balanced()
    ensures 0 <= b.inflow
  {
  }

  lemma BalancedKnown(b: Intake, id: int)
    requires b.Balanced() && id in b.streams
    ensures 0 <= b.inflow && id in b.owed && StreamIn(b.streams[id], b.streamWindow, b.owed[id])
  {
  }

  /** No single body, and no single unreported read, exceeds what the window can
      take back. */
  lemma BalancedRoom(b: Intake, id: int)
    requires b.Balanced()
    ensures b.inflow <= b.window + b.late
    ensures id in b.streams ==> b.inflow + b.streams[id].body.Len() <= b.window + b.late
    ensures id in b.owed ==> b.inflow + b.owed[id] <= b.window + b.late
  {
    hide Held, Owed;
    HeldAtLeast(b.streams, id);
    OwedAtLeast(b.owed, id);
  }

  // ---------- a change of every send window ----------

  ghost predicate OnlyFlows(a: Streams, b: Streams) {
    a.Keys == b.Keys && forall id :: id in a ==> b[id] == a[id].(flow := b[id].flow)
  }

  lemma OnlyFlowsKeeps(a: Streams, b: Streams, client: int, pushed: int, maxClient: int, maxPush: int,
                       retired: map<int, Body>, sent: map<int, Sent>, i: Intake)
    requires OnlyFlows(a, b) && i.streams == a
    requires Counted(a, client, pushed, maxClient, maxPush) && Split(a, retired, i.owed, sent) && Bodied(a, {})
             && i.Balanced()
    ensures Counted(b, client, pushed, maxClient, maxPush) && Split(b, retired, i.owed, sent) && Bodied(b, {})
    ensures i.(streams := b).Balanced()
  {
    hide FromClient, Odd, Even;
    forall id | id in a ensures Lens(a)[id] == Lens(b)[id] {
      assert b[id] == a[id].(flow := b[id].flow);
    }
    SumSame(Lens(a), Lens(b), a.Keys);
  }

  /** Every window moves by the same amount, except those of `todo`. */
  ghost predicate Moved(a: Streams, b: Streams, todo: set<int>, growth: int) {
    && OnlyFlows(a, b)
    && forall id :: id in a ==> b[id].flow == a[id].flow + if id in todo then 0 else growth
  }

  lemma MovedOne(a: Streams, b: Streams, todo: set<int>, growth: int, id: int, n: int32)
    requires Moved(a, b, todo, growth) && id in todo && id in a && n == a[id].flow + growth
    ensures b[id].flow == a[id].flow
    ensures Moved(a, b[id := b[id].(flow := n)], todo - {id}, growth)
  {
  }

  /** The ledger says which new initial windows every stream can take. */
  ghost predicate Fits(streams: Streams, sent: map<int, Sent>, initial: int)
    requires streams.Keys <= sent.Keys
  {
    forall id :: id in streams ==> initial + sent[id].granted - sent[id].bytes <= MAX_INT32
  }

  lemma MovedAll(a: Streams, b: Streams, sent: map<int, Sent>, initial: int, initial': int)
    requires Moved(a, b, {}, initial' - initial) && SendLedger(a, initial, sent) && 0 <= initial' <= MAX_INT32
    ensures SendLedger(b, initial', sent) && Fits(a, sent, initial')
  {
    forall id | id in a ensures initial' + sent[id].granted - sent[id].bytes <= MAX_INT32 {
      assert SendOk(a[id].flow, initial, sent[id]);
      assert b[id].flow <= MAX_INT32;
    }
  }

  /** A window that cannot take the change would pass 2^31 - 1, never fall below
      -2^31. */
  lemma Overflows(a: Streams, sent: map<int, Sent>, initial: int, initial': int, id: int)
    requires SendLedger(a, initial, sent) && 0 <= initial' <= MAX_INT32 && id in a
    requires !FitsInt32(a[id].flow + initial' - initial)
    ensures a[id].flow + initial' - initial > MAX_INT32 && !Fits(a, sent, initial')
  {
    assert SendOk(a[id].flow, initial, sent[id]);
  }
}
