/** What each step makes of a server connection, on values. */
module ServerSteps {
  import opened Flow
  import opened ServerModel

  /** A complete HEADERS block, with what the checks on its contents found. */
  datatype Headers = Headers(
    id: int,
    endStream: bool,
    selfDependent: bool,
    malformed: bool,
    badTrailer: bool,
    contentLength: int)

  /** Everything the serve loop and the handlers may do to a connection. */
  datatype Step =
    | GotHeaders(f: Headers)
    | GotData(id: int, length: nat, data: nat, endStream: bool)
    | GotReset(id: int)
    | GotStreamUpdate(id: int, increment: int32)
    | GotConnUpdate(increment: int32)
    | GotInitialWindow(val: nat)
    | GotMaxStreams(max: uint32)
    | GotEnablePush(on: bool)
    | GotSettingsAck
    | GotGoAway
    | EndWritten(id: int)
    | ResetWritten(id: int)
    | PanicWritten(id: int)
    | PushPromise(parent: int)
    | DataSent(id: int, n: nat)
    | BodyRead(id: int, cap: nat)
    | BodyClosed(id: int)
    | ReadNoted(id: int, n: nat)
    | ClientGone
  {
    /** The frame reader's guarantees about the fields of a frame. */
    predicate Formed() {
      match this
      case GotHeaders(f) => 0 <= f.id < ID_LIMIT
      case GotData(id, length, data, _) => 0 <= id < ID_LIMIT && data <= length < 0x100_0000
      case GotReset(id) => 0 <= id < ID_LIMIT
      case GotStreamUpdate(id, increment) => 0 < id < ID_LIMIT && 0 < increment
      case GotConnUpdate(increment) => 0 < increment
      case _ => true
    }
  }

  // ---------- the connection as a value ----------

  /** What the server announced. */
  datatype Config = Config(maxStreams: int, connWindow: int, streamWindow: int32)

  /** The streams, the bodies of closed ones, what handlers have read and not reported, how
      many streams each side has, and the highest id of each side. */
  datatype Table = Table(
    streams: Streams,
    retired: map<int, Body>,
    owed: map<int, nat>,
    client: int,
    pushed: int,
    maxClient: int,
    maxPush: int)

  /** What the client asked for, and whether the connection is shutting down. */
  datatype Peer = Peer(
    maxStreams: int,
    unacked: int,
    push: bool,
    goingAway: bool,
    code: nat,
    initial: int32)

  datatype Snapshot = Snapshot(table: Table, peer: Peer, flow: int, inflow: int)

  function Least(a: int, b: int): int {
    if a < b then a else b
  }

  /** A stream that took in `data` bytes for its handler. */
  function Charged(st: Stream, data: nat): Stream
    requires st.body.Body? && FitsInt32(st.inflow - data)
  {
    st.(inflow := st.inflow - data, body := st.body.(len := st.body.len + data), bodyBytes := st.bodyBytes + data)
  }

  /** A stream to which n bytes were given back. */
  function Returned(st: Stream, n: nat): Stream
    requires FitsInt32(st.inflow + n)
  {
    if st.state == HalfClosedRemote then st else st.(inflow := st.inflow + n)
  }

  /** More data than the request declared. */
  predicate Overlong(st: Stream, data: nat) {
    st.declBodyBytes != -1 && st.bodyBytes + data > st.declBodyBytes
  }

  /** What one read of a body yields. */
  function Readable(body: Body, cap: nat): nat {
    if body.Body? && !body.broken then Least(cap, body.len) else 0
  }

  /** A body whose reader gave up. */
  function Broken(body: Body): Body {
    if body.Body? then body.(broken := true) else body
  }

  /** A stream whose request is complete. */
  function Ended(st: Stream): Stream {
    st.(body := st.body.Close(), state := HalfClosedRemote)
  }

  // ---------- changes to the table ----------

  function Set(t: Table, id: int, st: Stream): Table {
    t.(streams := t.streams[id := st])
  }

  function Enter(t: Table, id: int, st: Stream): Table {
    t.(streams := t.streams[id := st], owed := t.owed[id := 0],
       client := if id % 2 == 1 then t.client + 1 else t.client,
       pushed := if id % 2 == 1 then t.pushed else t.pushed + 1)
  }

  /** The stream leaves the table; its handler keeps the body. */
  function Drop(t: Table, id: int): Table
    requires id in t.streams
  {
    t.(streams := t.streams - {id}, retired := t.retired[id := t.streams[id].body.Close()],
       client := if id % 2 == 1 then t.client - 1 else t.client,
       pushed := if id % 2 == 1 then t.pushed else t.pushed - 1)
  }

  /** What its body holds goes back to the connection's window. */
  function Close(a: Snapshot, id: int): Snapshot {
    if id in a.table.streams
    then a.(table := Drop(a.table, id), inflow := a.inflow + a.table.streams[id].body.Len()) else a
  }

  function StateAt(a: Snapshot, id: int): StreamState {
    StateOf(a.table.streams, a.table.maxClient, a.table.maxPush, id)
  }

  // ---------- frames ----------

  datatype Outcome = Outcome(state: Snapshot, err: Err)

  function OnTrailers(a: Snapshot, f: Headers, st: Stream): Outcome {
    if st.gotTrailerHeader then Outcome(a, ConnErr(PROTOCOL_ERROR))
    else
      var got := st.(gotTrailerHeader := true);
      if !f.endStream || f.badTrailer
      then Outcome(a.(table := Set(a.table, f.id, got)), StreamErr(f.id, PROTOCOL_ERROR))
      else Outcome(a.(table := Set(a.table, f.id, Ended(got))), NoErr)
  }

  function OnRequest(c: Config, a: Snapshot, f: Headers): Outcome {
    var t := a.table.(maxClient := f.id);
    if a.table.client >= c.maxStreams
    then Outcome(a.(table := t), StreamErr(f.id, if a.peer.unacked == 0 then PROTOCOL_ERROR else REFUSED_STREAM))
    else
      var state := if f.endStream then HalfClosedRemote else Open;
      var st := Stream(state, a.peer.initial, c.streamWindow, NoBody, 0, 0, false, false);
      if f.selfDependent || f.malformed
      then Outcome(a.(table := Enter(t, f.id, st)), StreamErr(f.id, PROTOCOL_ERROR))
      else if f.endStream then Outcome(a.(table := Enter(t, f.id, st)), NoErr)
      else
        var open := st.(body := Body(0, false, false), declBodyBytes := f.contentLength);
        Outcome(a.(table := Enter(t, f.id, open)), NoErr)
  }

  function OnHeaders(c: Config, a: Snapshot, f: Headers): Outcome {
    if a.peer.goingAway then Outcome(a, NoErr)
    else if f.id % 2 != 1 then Outcome(a, ConnErr(PROTOCOL_ERROR))
    else if f.id in a.table.streams then
      var st := a.table.streams[f.id];
      if st.resetQueued then Outcome(a, NoErr)
      else if st.state == HalfClosedRemote then Outcome(a, StreamErr(f.id, STREAM_CLOSED))
      else OnTrailers(a, f, st)
    else if f.id <= a.table.maxClient then Outcome(a, ConnErr(PROTOCOL_ERROR))
    else OnRequest(c, a, f)
  }

  /** DATA that no handler will get. */
  function OnLostData(a: Snapshot, id: int, length: nat): Outcome {
    if length > a.inflow then Outcome(a, StreamErr(id, FLOW_CONTROL_ERROR))
    else if id in a.table.streams && a.table.streams[id].resetQueued then Outcome(a, NoErr)
    else Outcome(a, StreamErr(id, STREAM_CLOSED))
  }

  /** DATA for an open request. */
  function OnBodyData(a: Snapshot, id: int, length: nat, data: nat, endStream: bool, st: Stream): Outcome
    requires st.body.Body?
  {
    if Overlong(st, data)
    then Outcome(a.(table := Set(a.table, id, st.(body := st.body.Close()))), StreamErr(id, PROTOCOL_ERROR))
    else if length > st.inflow || length > a.inflow || !FitsInt32(st.inflow - length) || data > length
    then Outcome(a, StreamErr(id, FLOW_CONTROL_ERROR))
    else if data > 0 && st.body.closed
    then Outcome(a.(table := Set(a.table, id, st.(inflow := st.inflow - length))), StreamErr(id, STREAM_CLOSED))
    else
      var got := Charged(st, data);
      Outcome(a.(table := Set(a.table, id, if endStream then Ended(got) else got), inflow := a.inflow - data), NoErr)
  }

  function OnData(a: Snapshot, id: int, length: nat, data: nat, endStream: bool): Outcome {
    if a.peer.goingAway && a.peer.code != NO_ERROR then Outcome(a, NoErr)
    else if id == 0 || StateAt(a, id) == Idle then Outcome(a, ConnErr(PROTOCOL_ERROR))
    else if id in a.table.streams then
      var st := a.table.streams[id];
      if st.state == Open && !st.gotTrailerHeader && !st.resetQueued && st.body.Body?
      then OnBodyData(a, id, length, data, endStream, st) else OnLostData(a, id, length)
    else OnLostData(a, id, length)
  }

  function OnReset(a: Snapshot, id: int): Outcome {
    if StateAt(a, id) == Idle then Outcome(a, ConnErr(PROTOCOL_ERROR)) else Outcome(Close(a, id), NoErr)
  }

  function OnStreamUpdate(a: Snapshot, id: int, increment: int): Outcome {
    if StateAt(a, id) == Idle then Outcome(a, ConnErr(PROTOCOL_ERROR))
    else if id !in a.table.streams then Outcome(a, NoErr)
    else
      var st := a.table.streams[id];
      if FitsInt32(st.flow + increment)
      then Outcome(a.(table := Set(a.table, id, st.(flow := st.flow + increment))), NoErr)
      else Outcome(a, StreamErr(id, FLOW_CONTROL_ERROR))
  }

  function OnConnUpdate(a: Snapshot, increment: int): Outcome {
    if FitsInt32(a.flow + increment) then Outcome(a.(flow := a.flow + increment), NoErr)
    else Outcome(a, ConnErr(FLOW_CONTROL_ERROR))
  }

  function OnAck(a: Snapshot): Outcome {
    Outcome(a.(peer := a.peer.(unacked := a.peer.unacked - 1)),
            if a.peer.unacked <= 0 then ConnErr(PROTOCOL_ERROR) else NoErr)
  }

  function Shutdown(a: Snapshot, code: nat): Snapshot {
    if a.peer.goingAway then a else a.(peer := a.peer.(goingAway := true, code := code))
  }

  function OnGoAway(a: Snapshot): Snapshot {
    var b := Shutdown(a, NO_ERROR);
    b.(peer := b.peer.(push := false))
  }

  /** The codes have the numbers that section 7 of RFC 7540 gives them: what the peer gets for
      DATA on an idle stream, for DATA beyond the window or on a closed stream, for a request
      too many while it may not know the limit, and for an orderly end. */
  lemma ErrorCodes(c: Config, a: Snapshot, id: int, length: nat, data: nat, endStream: bool, f: Headers)
    requires !a.peer.goingAway && id != 0
    ensures StateAt(a, id) == Idle ==> OnData(a, id, length, data, endStream).err == ConnErr(1)
    ensures StateAt(a, id) == Closed && id !in a.table.streams ==>
              OnData(a, id, length, data, endStream).err == StreamErr(id, if length > a.inflow then 3 else 5)
    ensures a.table.client >= c.maxStreams && a.peer.unacked > 0 ==> OnRequest(c, a, f).err == StreamErr(f.id, 7)
    ensures OnGoAway(a).peer.code == 0
  {
  }

  /** A new initial window moves all windows, or fails at one that cannot take it, with some
      of the others moved. */
  ghost predicate OnInitialWindow(a: Snapshot, val: nat, o: Outcome) {
    var growth := val - a.peer.initial;
    if val > MAX_INT32 then o == Outcome(a, ConnErr(FLOW_CONTROL_ERROR))
    else
      && o.state == a.(table := a.table.(streams := o.state.table.streams), peer := a.peer.(initial := val))
      && (AllFit(a.table.streams, growth) ==>
            o.err == NoErr && Moved(a.table.streams, o.state.table.streams, {}, growth))
      && (!AllFit(a.table.streams, growth) ==>
            o.err == ConnErr(FLOW_CONTROL_ERROR) && PartlyMoved(a.table.streams, o.state.table.streams, growth))
  }

  /** Some windows have moved, and among the others is one that cannot. */
  ghost predicate PartlyMoved(before: Streams, after: Streams, growth: int) {
    exists todo :: FailsAmong(before, todo, growth) && Moved(before, after, todo, growth)
  }

  ghost predicate AllFit(streams: Streams, growth: int) {
    forall id :: id in streams ==> FitsInt32(streams[id].flow + growth)
  }

  ghost predicate FailsAmong(streams: Streams, todo: set<int>, growth: int) {
    exists id :: id in todo && id in streams && !FitsInt32(streams[id].flow + growth)
  }

  /** How the loop reacts to the error a frame was answered with. */
  function Answer(o: Outcome): Snapshot {
    match o.err
    case NoErr => o.state
    case StreamErr(id, _) =>
      if id in o.state.table.streams
      then o.state.(table := Set(o.state.table, id, o.state.table.streams[id].(resetQueued := true)))
      else o.state
    case ConnErr(code) => Shutdown(o.state, code)
  }

  // ---------- finished writes, pushes and handlers ----------

  function OnEndWritten(a: Snapshot, id: int): Snapshot {
    if id !in a.table.streams then a
    else
      var st := a.table.streams[id];
      if st.state == Open
      then a.(table := Set(a.table, id, st.(state := HalfClosedLocal, resetQueued := true)))
      else if st.state == HalfClosedRemote then Close(a, id) else a
  }

  function OnPromise(c: Config, a: Snapshot, parent: int): Snapshot {
    var state := StateAt(a, parent);
    var id := a.table.maxPush + 2;
    if (state != Open && state != HalfClosedRemote) || !a.peer.push || a.table.pushed >= a.peer.maxStreams then a
    else if id >= ID_LIMIT then Shutdown(a, NO_ERROR)
    else
      var st := Stream(HalfClosedRemote, a.peer.initial, c.streamWindow, NoBody, 0, 0, false, false);
      a.(table := Enter(a.table.(maxPush := id), id, st))
  }

  function OnSend(a: Snapshot, id: int, n: nat): Snapshot {
    if id in a.table.streams && n <= a.table.streams[id].flow && n <= a.flow && FitsInt32(a.table.streams[id].flow - n)
    then
      var st := a.table.streams[id];
      a.(table := Set(a.table, id, st.(flow := st.flow - n)), flow := a.flow - n)
    else a
  }

  function Consumed(body: Body, n: nat): Body {
    if body.Body? && n <= body.len then body.(len := body.len - n) else body
  }

  function OnRead(a: Snapshot, id: int, cap: nat): Snapshot {
    var t := a.table;
    if id !in t.owed then a
    else if id in t.streams then
      var n := Readable(t.streams[id].body, cap);
      var st := t.streams[id].(body := Consumed(t.streams[id].body, n));
      a.(table := t.(streams := t.streams[id := st], owed := t.owed[id := t.owed[id] + n]))
    else if id in t.retired then
      var n := Readable(t.retired[id], cap);
      a.(table := t.(retired := t.retired[id := Consumed(t.retired[id], n)], owed := t.owed[id := t.owed[id] + n]))
    else a
  }

  function OnBodyClosed(a: Snapshot, id: int): Snapshot {
    var t := a.table;
    if id !in t.owed then a
    else if id in t.streams then a.(table := Set(t, id, t.streams[id].(body := Broken(t.streams[id].body))))
    else if id in t.retired then a.(table := t.(retired := t.retired[id := Broken(t.retired[id])]))
    else a
  }

  function OnNoted(a: Snapshot, id: int, n: nat): Snapshot {
    var t := a.table;
    if id !in t.owed || n > t.owed[id] then a
    else
      var streams := if id in t.streams && FitsInt32(t.streams[id].inflow + n)
                     then t.streams[id := Returned(t.streams[id], n)] else t.streams;
      a.(table := t.(streams := streams, owed := t.owed[id := t.owed[id] - n]), inflow := a.inflow + n)
  }

  /** Every stream closes. */
  ghost function OnGone(a: Snapshot): Snapshot {
    var t := a.table;
    a.(table := t.(streams := map[], client := 0, pushed := 0,
                   retired := t.retired + map id | id in t.streams :: t.streams[id].body.Close()),
       inflow := a.inflow + Held(t.streams))
  }

  // ---------- one step ----------

  /** What a frame is answered with. */
  ghost predicate Answered(c: Config, a: Snapshot, s: Step, o: Outcome) {
    match s
    case GotHeaders(f) => o == OnHeaders(c, a, f)
    case GotData(id, length, data, endStream) => o == OnData(a, id, length, data, endStream)
    case GotReset(id) => o == OnReset(a, id)
    case GotStreamUpdate(id, increment) => o == OnStreamUpdate(a, id, increment)
    case GotConnUpdate(increment) => o == OnConnUpdate(a, increment)
    case GotInitialWindow(val) => OnInitialWindow(a, val, o)
    case GotMaxStreams(max) => o == Outcome(a.(peer := a.peer.(maxStreams := max)), NoErr)
    case GotEnablePush(on) => o == Outcome(a.(peer := a.peer.(push := on)), NoErr)
    case GotSettingsAck => o == OnAck(a)
    case GotGoAway => o == Outcome(OnGoAway(a), NoErr)
    case _ => false
  }

  ghost function OnOther(c: Config, a: Snapshot, s: Step): Snapshot {
    match s
    case EndWritten(id) => OnEndWritten(a, id)
    case ResetWritten(id) => Close(a, id)
    case PanicWritten(id) => Close(a, id)
    case PushPromise(parent) => OnPromise(c, a, parent)
    case DataSent(id, n) => OnSend(a, id, n)
    case BodyRead(id, cap) => OnRead(a, id, cap)
    case BodyClosed(id) => OnBodyClosed(a, id)
    case ReadNoted(id, n) => OnNoted(a, id, n)
    case ClientGone => OnGone(a)
    case _ => a
  }

  predicate IsFrame(s: Step) {
    || s.GotHeaders? || s.GotData? || s.GotReset? || s.GotStreamUpdate? || s.GotConnUpdate? || s.GotInitialWindow?
    || s.GotMaxStreams? || s.GotEnablePush? || s.GotSettingsAck? || s.GotGoAway?
  }

  ghost predicate Next(c: Config, a: Snapshot, s: Step, b: Snapshot) {
    if IsFrame(s) then exists o :: Answered(c, a, s, o) && b == Answer(o) else b == OnOther(c, a, s)
  }

  /** What the step brings the connection's receive window to by giving back. Where this would
      pass 2^31 - 1, the step is fatal instead. */
  ghost function Refilled(c: Config, a: Snapshot, s: Step): int {
    if s.GotReset? then OnReset(a, s.id).state.inflow
    else if IsFrame(s) then a.inflow
    else OnOther(c, a, s).inflow
  }

  /** The step stops the loop: a handler's panic looks for a stream that is gone. */
  predicate Misses(a: Snapshot, s: Step) {
    s.PanicWritten? && s.id !in a.table.streams
  }

  /** The states that a run goes through. */
  ghost predicate IsRun(c: Config, steps: seq<Step>, states: seq<Snapshot>) {
    && 0 < |states| <= |steps| + 1
    && forall i :: 0 <= i < |states| - 1 ==> Next(c, states[i], steps[i], states[i + 1])
  }

  lemma RunStart(c: Config, steps: seq<Step>, a: Snapshot)
    ensures IsRun(c, steps, [a])
  {
  }

  lemma RunNext(c: Config, steps: seq<Step>, states: seq<Snapshot>, b: Snapshot)
    requires IsRun(c, steps, states) && |states| <= |steps|
    requires Next(c, states[|states| - 1], steps[|states| - 1], b)
    ensures IsRun(c, steps, states + [b])
  {
    hide Next;
  }
}
