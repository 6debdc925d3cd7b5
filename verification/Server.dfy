/** The serve loop of an HTTP/2 server connection, one method per frame, handler
    message or finished write it reacts to. */
module Server {
  import opened Flow
  import opened ServerModel
  import opened ServerSteps

  /** The step may close stream id. */
  predicate Closes(s: Step, id: int) {
    || s.ClientGone?
    || ((s.GotReset? || s.EndWritten? || s.ResetWritten? || s.PanicWritten?) && s.id == id)
  }

  /** Stream id was closed before the steps, or one of them may have closed it. */
  predicate Shut(steps: seq<Step>, gone: set<int>, id: int) {
    id in gone || exists s :: s in steps && Closes(s, id)
  }

  /** How much handlers may read of bodies whose streams are closed by then. */
  function LateBytes(steps: seq<Step>, gone: set<int>): nat {
    if steps == [] then 0
    else
      var s, before := steps[|steps| - 1], steps[..|steps| - 1];
      LateBytes(before, gone) + if s.BodyRead? && Shut(before, gone, s.id) then s.cap else 0
  }

  lemma {:induction false} LateGrows(steps: seq<Step>, gone: set<int>, k: nat)
    requires k <= |steps|
    ensures LateBytes(steps[..k], gone) <= LateBytes(steps, gone)
    decreases |steps|
  {
    if k < |steps| {
      assert steps[..|steps| - 1][..k] == steps[..k];
      LateGrows(steps[..|steps| - 1], gone, k);
    } else {
      assert steps[..k] == steps;
    }
  }

  lemma LateNext(steps: seq<Step>, gone: set<int>, k: nat)
    requires k < |steps|
    ensures LateBytes(steps[..k + 1], gone) ==
            LateBytes(steps[..k], gone) + if steps[k].BodyRead?
              && Shut(steps[..k], gone, steps[k].id) then steps[k].cap else 0
  {
    assert steps[..k + 1][..k] == steps[..k];
  }

  lemma LateNone(gone: set<int>)
    ensures LateBytes([], gone) == 0 && forall id :: id in gone ==> Shut([], gone, id)
  {
  }

  lemma ShutNext(steps: seq<Step>, gone: set<int>, k: nat, id: int)
    requires k < |steps|
    ensures Shut(steps[..k + 1], gone, id) <==> Shut(steps[..k], gone, id) || Closes(steps[k], id)
  {
    assert steps[..k + 1] == steps[..k] + [steps[k]];
  }

  /** Late bytes take a read of some body after a step that may close its stream. */
  lemma {:induction false} LateWitness(steps: seq<Step>, gone: set<int>)
    requires LateBytes(steps, gone) > 0
    ensures exists i :: 0 <= i < |steps| && steps[i].BodyRead? && Shut(steps[..i], gone, steps[i].id)
    decreases |steps|
  {
    var k := |steps| - 1;
    if !(steps[k].BodyRead? && Shut(steps[..k], gone, steps[k].id)) {
      LateWitness(steps[..k], gone);
      var i :| 0 <= i < k && steps[..k][i].BodyRead? && Shut(steps[..k][..i], gone, steps[..k][i].id);
      assert steps[..k][..i] == steps[..i];
      assert steps[i].BodyRead? && Shut(steps[..i], gone, steps[i].id);
    }
  }

  /** Only the stream id was touched. */
  ghost predicate Others(a: Streams, b: Streams, id: int) {
    forall i :: i != id ==> (i in a <==> i in b) && (i in a ==> i in b && a[i] == b[i])
  }

  /** Closing all streams of b comes to the same as closing all streams of a, but for the
      counters, which end at zero. */
  ghost predicate GoneSame(a: Snapshot, b: Snapshot) {
    OnGone(a) == OnGone(b)
  }

  /** It does not matter which stream closes first. */
  lemma GoneStep(a: Snapshot, b: Snapshot, id: int)
    requires GoneSame(a, b) && id in b.table.streams
    ensures GoneSame(a, Close(b, id)) && b.inflow + b.table.streams[id].body.Len() <= OnGone(a).inflow
  {
    hide Held;
    var c := Close(b, id);
    HeldDrop(b.table.streams, id);
    HeldAtLeast(c.table.streams, id);
    assert OnGone(b).table.retired == OnGone(c).table.retired;
  }

  lemma GoneEnd(a: Snapshot, b: Snapshot)
    requires GoneSame(a, b) && b.table.streams == map[]
    ensures OnGone(a) == b.(table := b.table.(client := 0, pushed := 0))
  {
    assert b.table.retired + map[] == b.table.retired;
    assert Held(map[]) == 0;
  }

  lemma ReadIs(a: Snapshot, id: int, cap: nat)
    requires id in a.table.owed
    ensures var t := a.table;
            && (id in t.streams ==>
                  var n := Readable(t.streams[id].body, cap);
                  OnRead(a, id, cap) ==
                  Snapshot(Table(t.streams[id := t.streams[id].(body := Consumed(t.streams[id].body, n))], t.retired,
                                 t.owed[id := t.owed[id] + n], t.client, t.pushed, t.maxClient, t.maxPush),
                           a.peer, a.flow, a.inflow))
            && (id !in t.streams && id in t.retired ==>
                  var n := Readable(t.retired[id], cap);
                  OnRead(a, id, cap) ==
                  Snapshot(Table(t.streams, t.retired[id := Consumed(t.retired[id], n)], t.owed[id := t.owed[id] + n],
                                 t.client, t.pushed, t.maxClient, t.maxPush), a.peer, a.flow, a.inflow))
  {
  }

  lemma BodyDataIs(a: Snapshot, id: int, length: nat, data: nat, endStream: bool, st: Stream)
    requires st.body.Body? && data <= length
    ensures var t, o := a.table, OnBodyData(a, id, length, data, endStream, st);
            && (Overlong(st, data) ==>
                  o == Outcome(a.(table := t.(streams := t.streams[id := st.(body := st.body.Close())])),
                               StreamErr(id, PROTOCOL_ERROR)))
            && (!Overlong(st, data) && length > Least(st.inflow, a.inflow) ==>
                  o == Outcome(a, StreamErr(id, FLOW_CONTROL_ERROR)))
            && (!Overlong(st, data) && length <= Least(st.inflow, a.inflow) && FitsInt32(st.inflow - length) ==>
                  if data > 0 && st.body.closed
                  then o == Outcome(a.(table := t.(streams := t.streams[id := st.(inflow := st.inflow - length)])),
                                    StreamErr(id, STREAM_CLOSED))
                  else
                    var got := if endStream then Ended(Charged(st, data)) else Charged(st, data);
                    o == Outcome(a.(table := t.(streams := t.streams[id := got]), inflow := a.inflow - data), NoErr))
  {
  }

  lemma SendIs(a: Snapshot, id: int, n: nat)
    requires id in a.table.streams && n <= a.table.streams[id].flow && n <= a.flow
    ensures var t := a.table;
            OnSend(a, id, n) ==
            Snapshot(Table(t.streams[id := t.streams[id].(flow := t.streams[id].flow - n)], t.retired, t.owed, t.client,
                           t.pushed, t.maxClient, t.maxPush), a.peer, a.flow - n, a.inflow)
  {
  }

  lemma NotedIs(a: Snapshot, id: int, n: nat)
    requires id in a.table.owed && n <= a.table.owed[id]
    ensures var t := a.table;
            OnNoted(a, id, n) ==
            Snapshot(Table(if id in t.streams && FitsInt32(t.streams[id].inflow + n)
                           then t.streams[id := Returned(t.streams[id], n)] else t.streams,
                           t.retired, t.owed[id := t.owed[id] - n], t.client, t.pushed, t.maxClient, t.maxPush),
                     a.peer, a.flow, a.inflow + n)
  {
  }

  lemma PromiseIs(c: Config, a: Snapshot, parent: int)
    ensures var t := a.table;
            var state := StateAt(a, parent);
            var id := t.maxPush + 2;
            var open := (state == Open || state == HalfClosedRemote) && a.peer.push && t.pushed < a.peer.maxStreams;
            && (!open ==> OnPromise(c, a, parent) == a)
            && (open && id >= ID_LIMIT ==> OnPromise(c, a, parent) == Shutdown(a, NO_ERROR))
            && (open && id < ID_LIMIT && !FromClient(id) ==>
                  OnPromise(c, a, parent) ==
                  Snapshot(Table(t.streams[id := Stream(HalfClosedRemote, a.peer.initial, c.streamWindow, NoBody, 0, 0,
                                                        false, false)],
                                 t.retired, t.owed[id := 0], t.client, t.pushed + 1, t.maxClient, id),
                           a.peer, a.flow, a.inflow))
  {
  }

  lemma OwedIs(a: Snapshot, s: Step)
    requires s.BodyRead? || s.BodyClosed? || s.ReadNoted?
    ensures s.BodyRead? ==> OnRead(a, s.id, s.cap).inflow == a.inflow
    ensures s.BodyRead? && s.id !in a.table.owed ==> OnRead(a, s.id, s.cap) == a
    ensures s.BodyClosed? ==> OnBodyClosed(a, s.id).inflow == a.inflow
    ensures s.BodyClosed? && s.id !in a.table.owed ==> OnBodyClosed(a, s.id) == a
    ensures s.ReadNoted? && (s.id !in a.table.owed || s.n > a.table.owed[s.id]) ==> OnNoted(a, s.id, s.n) == a
  {
  }

  lemma PromiseRoom(c: Config, a: Snapshot, parent: int)
    ensures OnPromise(c, a, parent).inflow == a.inflow
  {
  }

  lemma SendRoom(a: Snapshot, id: int, n: nat)
    ensures OnSend(a, id, n).inflow == a.inflow
    ensures id !in a.table.streams || n > a.table.streams[id].flow || n > a.flow ==> OnSend(a, id, n) == a
  {
  }

  lemma GoneIs(c: Config, a: Snapshot)
    ensures OnOther(c, a, ClientGone) == OnGone(a)
  {
  }

  lemma CloseIs(a: Snapshot, id: int)
    ensures id !in a.table.streams ==> Close(a, id) == a
    ensures id in a.table.streams ==> Close(a, id).inflow == a.inflow + a.table.streams[id].body.Len()
  {
  }

  lemma ClosedIs(a: Snapshot, id: int)
    requires id in a.table.streams
    ensures var t := a.table;
            Close(a, id) ==
            Snapshot(Table(t.streams - {id}, t.retired[id := t.streams[id].body.Close()], t.owed,
                           t.client - (if FromClient(id) then 1 else 0), t.pushed - (if FromClient(id) then 0 else 1),
                           t.maxClient, t.maxPush), a.peer, a.flow, a.inflow + t.streams[id].body.Len())
  {
  }

  /** A fresh client id, field by field. */
  lemma RequestIs(c: Config, a: Snapshot, f: Headers)
    requires FromClient(f.id)
    ensures var t, o := a.table, OnRequest(c, a, f);
            if t.client >= c.maxStreams
            then o == Outcome(a.(table := t.(maxClient := f.id)),
                              StreamErr(f.id, if a.peer.unacked == 0 then PROTOCOL_ERROR else REFUSED_STREAM))
            else
              var st := Stream(if f.endStream then HalfClosedRemote
                               else Open, a.peer.initial, c.streamWindow, NoBody, 0, 0,
                               false, false);
              var fine := !f.selfDependent && !f.malformed;
              var bodied := st.(body := Body(0, false, false), declBodyBytes := f.contentLength);
              && o.err == (if fine then NoErr else StreamErr(f.id, PROTOCOL_ERROR))
              && o.state ==
                 Snapshot(Table(t.streams[f.id := if fine && !f.endStream then bodied else st], t.retired,
                                t.owed[f.id := 0], t.client + 1, t.pushed, f.id, t.maxPush), a.peer, a.flow, a.inflow)
  {
  }

  lemma HeadersIs(c: Config, a: Snapshot, f: Headers)
    ensures OnHeaders(c, a, f) ==
            if a.peer.goingAway then Outcome(a, NoErr)
            else if !FromClient(f.id) then Outcome(a, ConnErr(PROTOCOL_ERROR))
            else if f.id in a.table.streams then
              var st := a.table.streams[f.id];
              if st.resetQueued then Outcome(a, NoErr)
              else if st.state == HalfClosedRemote then Outcome(a, StreamErr(f.id, STREAM_CLOSED))
              else OnTrailers(a, f, st)
            else if f.id <= a.table.maxClient then Outcome(a, ConnErr(PROTOCOL_ERROR))
            else OnRequest(c, a, f)
  {
    hide OnTrailers, OnRequest;
  }

  class Conn {
    const advMaxStreams: uint32
    const connWindow: int32
    const streamWindow: int32

    var streams: Streams
    /** Bodies of closed streams; their handlers may still hold them. */
    var retired: map<int, Body>
    /** Bytes that handlers read and have not yet reported to the serve loop. */
    var owed: map<int, nat>
    var curClientStreams: uint32
    var curPushedStreams: uint32
    var maxClientStreamID: int
    var maxPushPromiseID: int
    var clientMaxStreams: uint32
    var unackedSettings: int
    var pushEnabled: bool
    var inGoAway: bool
    var goAwayCode: nat
    var initialStreamSendWindowSize: int32
    var flow: int32
    var inflow: int32
    /** Giving back more than was taken is an internal error that stops the loop. */
    var panicked: bool

    ghost var sent: map<int, Sent>
    ghost var connGranted: nat
    ghost var late: nat
    /** A SETTINGS frame was refused after some windows had been adjusted. */
    ghost var refusedSettings: bool

    ghost function Now(): Snapshot
      reads this
    {
      Snapshot(Table(streams, retired, owed, curClientStreams, curPushedStreams, maxClientStreamID, maxPushPromiseID),
               Peer(clientMaxStreams, unackedSettings, pushEnabled, inGoAway, goAwayCode, initialStreamSendWindowSize),
               flow, inflow)
    }

    ghost function Cfg(): Config {
      Config(advMaxStreams, connWindow, streamWindow)
    }

    function State(id: int): (s: StreamState)
      reads this`streams, this`maxClientStreamID, this`maxPushPromiseID
    {
      StateOf(streams, maxClientStreamID, maxPushPromiseID, id)
    }

    ghost predicate Tabled()
      reads this
    {
      && Counted(streams, curClientStreams, curPushedStreams, maxClientStreamID, maxPushPromiseID)
      && curClientStreams <= advMaxStreams
      && Split(streams, retired, owed, sent)
      && Used(owed, maxClientStreamID, maxPushPromiseID)
    }

    ghost predicate SendSide()
      reads this
    {
      && 0 <= initialStreamSendWindowSize
      && 0 <= flow == DEFAULT_WINDOW + connGranted - TotalSent(sent)
      && (!refusedSettings ==> SendLedger(streams, initialStreamSendWindowSize, sent))
    }

    ghost function In(): Intake
      reads this
    {
      Intake(streams, owed, inflow, connWindow, streamWindow, late)
    }

    ghost predicate ReceiveSide()
      reads this
    {
      && 0 <= streamWindow
      && In().Balanced()
    }

    ghost predicate Holds(pending: set<int>)
      reads this
    {
      Tabled() && Bodied(streams, pending) && SendSide() && ReceiveSide()
    }

    ghost predicate Valid()
      reads this
    {
      Holds({})
    }

    constructor (adv: uint32, connWindow: int32, streamWindow: int32)
      requires DEFAULT_WINDOW <= connWindow && 0 <= streamWindow
      ensures Valid() && !panicked && streams == map[] && late == 0 && !refusedSettings
      ensures forall id :: 0 < id ==> State(id) == Idle
      ensures advMaxStreams == adv && this.connWindow == connWindow && this.streamWindow == streamWindow
      ensures initialStreamSendWindowSize == flow == DEFAULT_WINDOW && inflow == connWindow
      ensures !inGoAway && owed == map[] && retired == map[]
      ensures curClientStreams == curPushedStreams == 0 && maxClientStreamID == maxPushPromiseID == 0
      ensures Now() == Snapshot(Table(map[], map[], map[], 0, 0, 0, 0),
                                Peer(0xffff_ffff, 1, true, false, NO_ERROR, 65535),
                                65535, connWindow)
      ensures Cfg() == Config(adv, connWindow, streamWindow)
    {
      advMaxStreams, this.connWindow, this.streamWindow := adv, connWindow, streamWindow;
      streams, retired, owed := map[], map[], map[];
      curClientStreams, curPushedStreams, maxClientStreamID, maxPushPromiseID := 0, 0, 0, 0;
      clientMaxStreams, unackedSettings, pushEnabled := 0xffff_ffff, 1, true;
      inGoAway, goAwayCode := false, NO_ERROR;
      initialStreamSendWindowSize, flow := DEFAULT_WINDOW, DEFAULT_WINDOW;
      inflow := connWindow;
      panicked := false;
      sent, connGranted, late, refusedSettings := map[], 0, 0, false;
    }

    /** What the invariant says of a connection at rest. */
    lemma Standing(id: int)
      requires Valid()
      ensures curClientStreams == |Odd(streams.Keys)| <= advMaxStreams && curPushedStreams == |Even(streams.Keys)|
      ensures id in streams ==> LiveState(State(id)) && IdOk(id, maxClientStreamID, maxPushPromiseID)
      ensures id in streams && State(id) == Open && !streams[id].resetQueued ==> streams[id].body.Body?
      ensures id in streams && !refusedSettings ==>
                && id in sent
                && streams[id].flow == initialStreamSendWindowSize + sent[id].granted - sent[id].bytes
                && -MAX_INT32 <= streams[id].flow
      ensures 0 <= flow == DEFAULT_WINDOW + connGranted - TotalSent(sent)
      ensures inflow + Held(streams) + Owed(owed) == connWindow + late
      ensures inflow <= connWindow + late
    {
      hide TotalSent, FromClient, Held, Owed, Odd, Even, Split;
      BalancedRoom(In(), id);
      if id in streams && !refusedSettings {
        SendLedgerAt(streams, initialStreamSendWindowSize, sent, id);
        SendOkBound(streams[id].flow, initialStreamSendWindowSize, sent[id]);
      }
    }

    // ---------- giving receive window back ----------

    /** Gives n bytes back on the connection. Overflow is fatal. */
    method UpdateConn32(n: int32)
      requires 0 <= n && !panicked
      modifies this`inflow, this`panicked
      ensures panicked <==> old(inflow) + n > MAX_INT32
      ensures inflow == if panicked then old(inflow) else old(inflow) + n
    {
      if n == 0 {
        return;
      }
      var r := Added(inflow, n);
      inflow := r.1;
      panicked := !r.0;
    }

    /** Any amount is given back in pieces of at most 2^31 - 1, and succeeds
        exactly when the whole of it fits the window. */
    method UpdateConn(n: nat)
      requires 0 <= inflow && !panicked
      modifies this`inflow, this`panicked
      ensures panicked <==> old(inflow) + n > MAX_INT32
      ensures !panicked ==> inflow == old(inflow) + n
    {
      var m := n;
      while m >= MAX_INT32
        invariant !panicked && 0 <= m <= n && old(inflow) <= inflow && inflow + m == old(inflow) + n
      {
        UpdateConn32(MAX_INT32);
        if panicked {
          return;
        }
        m := m - MAX_INT32;
      }
      UpdateConn32(m);
    }

    method UpdateStream32(id: int, n: int32)
      requires id in streams && 0 <= n && !panicked
      modifies this`streams, this`panicked
      ensures panicked <==> old(streams[id].inflow) + n > MAX_INT32
      ensures !panicked ==> streams == old(streams)[id := old(streams[id]).(inflow := old(streams[id].inflow) + n)]
    {
      if n == 0 {
        return;
      }
      var r := Added(streams[id].inflow, n);
      streams := streams[id := streams[id].(inflow := r.1)];
      panicked := !r.0;
    }

    /** The same for one stream's window. */
    method UpdateStream(id: int, n: nat)
      requires id in streams && 0 <= streams[id].inflow && !panicked
      modifies this`streams, this`panicked
      ensures panicked <==> old(streams[id].inflow) + n > MAX_INT32
      ensures !panicked ==> streams == old(streams)[id := old(streams[id]).(inflow := old(streams[id].inflow) + n)]
    {
      var m := n;
      while m >= MAX_INT32
        invariant !panicked && 0 <= m <= n && id in streams
        invariant old(streams[id].inflow) <= streams[id].inflow == old(streams[id].inflow) + n - m
        invariant streams == old(streams)[id := old(streams[id]).(inflow := streams[id].inflow)]
      {
        UpdateStream32(id, MAX_INT32);
        if panicked {
          return;
        }
        m := m - MAX_INT32;
      }
      UpdateStream32(id, m);
    }

    // ---------- opening, resetting and closing streams ----------

    /** The id was never used, and its side has already been told of it. */
    method NewStream(id: int, state: StreamState)
      requires Valid() && !panicked && LiveState(state)
      requires id !in owed && IdOk(id, maxClientStreamID, maxPushPromiseID)
      requires id == if FromClient(id) then maxClientStreamID else maxPushPromiseID
      requires FromClient(id) ==> curClientStreams < advMaxStreams
      modifies this`streams, this`owed, this`sent, this`curClientStreams, this`curPushedStreams
      ensures Holds({id})
      ensures streams == old(streams)[id := Stream(state, initialStreamSendWindowSize, streamWindow, NoBody, 0, 0,
                                                   false, false)]
      ensures owed == old(owed)[id := 0]
      ensures curClientStreams == old(curClientStreams) + (if FromClient(id) then 1 else 0)
      ensures curPushedStreams == old(curPushedStreams) + (if FromClient(id) then 0 else 1)
    {
      hide Counted, Bodied, SendLedger, TotalSent, FromClient, Intake.Balanced, Split, Used;
      var st := Stream(state, Added(0, initialStreamSendWindowSize).1, Added(0, streamWindow).1, NoBody, 0, 0, false,
                       false);
      SplitUnused(streams, retired, owed, sent, id);
      BalancedOpen(In(), id, st);
      TotalSentSet(sent, id, Sent(0, 0));
      BodiedSet(streams, id, st);
      if !refusedSettings {
        SendLedgerSet(streams, initialStreamSendWindowSize, sent, id, st, Sent(0, 0));
      }
      List(id, st);
    }

    /** Puts a new stream in the table. */
    method List(id: int, st: Stream)
      requires Tabled() && LiveState(st.state)
      requires id !in owed && IdOk(id, maxClientStreamID, maxPushPromiseID)
      requires id == if FromClient(id) then maxClientStreamID else maxPushPromiseID
      requires FromClient(id) ==> curClientStreams < advMaxStreams
      modifies this`streams, this`owed, this`sent, this`curClientStreams, this`curPushedStreams
      ensures Tabled()
      ensures streams == old(streams)[id := st] && owed == old(owed)[id := 0] && sent == old(sent)[id := Sent(0, 0)]
      ensures curClientStreams == old(curClientStreams) + (if FromClient(id) then 1 else 0)
      ensures curPushedStreams == old(curPushedStreams) + (if FromClient(id) then 0 else 1)
    {
      hide Counted, FromClient, Split, Used;
      SplitUnused(streams, retired, owed, sent, id);
      SplitOpen(streams, retired, owed, sent, id, st, 0, Sent(0, 0));
      CountsSmall(streams, curClientStreams, curPushedStreams, maxClientStreamID, maxPushPromiseID);
      CountedAdd(streams, curClientStreams, curPushedStreams, maxClientStreamID, maxPushPromiseID, id, st);
      UsedOpen(owed, maxClientStreamID, maxPushPromiseID, id, 0);
      streams := streams[id := st];
      owed := owed[id := 0];
      sent := sent[id := Sent(0, 0)];
      if FromClient(id) {
        curClientStreams := curClientStreams + 1;
      } else {
        curPushedStreams := curPushedStreams + 1;
      }
    }

    /** Rewriting one stream's record keeps everything, as long as the connection's
        window makes up for what the body gains or loses. */
    lemma Reweighed(id: int, st: Stream, rest: int32)
      requires (Valid() || Holds({id})) && id in streams
      requires LiveState(st.state) || st.state == streams[id].state
      requires st.flow == streams[id].flow
      requires st.inflow + st.body.Len() <= streams[id].inflow + streams[id].body.Len() && 0 <= st.inflow
      requires 0 <= rest && rest + st.body.Len() == inflow + streams[id].body.Len()
      ensures Counted(streams[id := st], curClientStreams, curPushedStreams, maxClientStreamID, maxPushPromiseID)
      ensures Split(streams[id := st], retired, owed, sent)
      ensures Bodied(streams[id := st], {id}) && (BodyOk(st) ==> Bodied(streams[id := st], {}))
      ensures !refusedSettings ==> SendLedger(streams[id := st], initialStreamSendWindowSize, sent)
      ensures In().(streams := streams[id := st], inflow := rest).Balanced()
    {
      hide Counted, Bodied, SendLedger, TotalSent, FromClient, Intake.Balanced, Split, Used;
      CountedSet(streams, curClientStreams, curPushedStreams, maxClientStreamID, maxPushPromiseID, id, st);
      SplitSet(streams, retired, owed, sent, id, st, 0, Sent(0, 0));
      BalancedKnown(In(), id);
      BalancedStream(In(), id, st, rest);
      BodiedSet(streams, id, st);
      if !refusedSettings {
        SendLedgerSame(streams, initialStreamSendWindowSize, sent, id, st);
      }
    }

    /** Rewrites one stream's record, leaving both of its ledgers as they are. */
    method SetStream(id: int, st: Stream)
      requires (Valid() || Holds({id})) && id in streams
      requires LiveState(st.state) || st.state == streams[id].state
      requires st.flow == streams[id].flow && st.inflow == streams[id].inflow
      requires st.body.Len() == streams[id].body.Len()
      modifies this`streams
      ensures Holds({id})
      ensures BodyOk(st) ==> Valid()
      ensures streams == old(streams)[id := st]
    {
      hide Counted, Bodied, SendLedger, TotalSent, FromClient, Intake.Balanced, Split, Used;
      BalancedKnown(In(), id);
      Reweighed(id, st, inflow);
      streams := streams[id := st];
    }

    /** Queues RST_STREAM for a stream, if it is still there. */
    method ResetStream(id: int)
      requires Holds({id})
      modifies this`streams
      ensures Valid()
      ensures streams == if id in old(streams) then old(streams)[id := old(streams[id]).(resetQueued := true)]
              else old(streams)
    {
      if id in streams {
        hide Counted, SendLedger, TotalSent, Intake.Balanced, Split, Used;
        SetStream(id, streams[id].(resetQueued := true));
      } else {
        BodiedDrop(streams, id);
      }
    }

    /** Takes a stream out of the table. */
    method Unlist(id: int)
      requires Tabled() && id in streams
      modifies this`streams, this`retired, this`curClientStreams, this`curPushedStreams
      ensures Tabled()
      ensures streams == old(streams) - {id} && State(id) == Closed
      ensures retired == old(retired)[id := old(streams[id].body.Close())]
      ensures curClientStreams == old(curClientStreams) - (if FromClient(id) then 1 else 0)
      ensures curPushedStreams == old(curPushedStreams) - (if FromClient(id) then 0 else 1)
    {
      hide Counted, FromClient, Split, Used;
      CountedDrop(streams, curClientStreams, curPushedStreams, maxClientStreamID, maxPushPromiseID, id);
      SplitClose(streams, retired, owed, sent, id, streams[id].body.Close());
      if FromClient(id) {
        curClientStreams := curClientStreams - 1;
      } else {
        curPushedStreams := curPushedStreams - 1;
      }
      retired := retired[id := streams[id].body.Close()];
      streams := streams - {id};
    }

    /** Everything the body still holds goes back to the connection's window. */
    method CloseStream(id: int)
      requires Valid() && !panicked && id in streams
      modifies this`streams, this`retired, this`curClientStreams, this`curPushedStreams, this`inflow, this`panicked
      ensures panicked ==> connWindow + late > MAX_INT32
      ensures !panicked ==> Valid()
      ensures panicked <==> old(inflow + streams[id].body.Len()) > MAX_INT32
      ensures !panicked ==> inflow == old(inflow + streams[id].body.Len())
      ensures streams == old(streams) - {id} && State(id) == Closed
      ensures retired == old(retired)[id := old(streams[id].body.Close())]
      ensures !panicked ==> Now() == Close(old(Now()), id)
    {
      hide Counted, Bodied, SendLedger, TotalSent, FromClient, Intake.Balanced, Split, Used;
      ghost var a := Now();
      ClosedIs(a, id);
      BalancedKnown(In(), id);
      BalancedDrop(In(), id);
      BalancedRoom(In(), id);
      BodiedDrop(streams, id);
      if !refusedSettings {
        SendLedgerDrop(streams, initialStreamSendWindowSize, sent, id);
      }
      var n := streams[id].body.Len();
      Unlist(id);
      UpdateConn(n);
    }

    /** A connection error shuts the connection down, unless that has begun. */
    method GoAway(code: nat)
      modifies this`inGoAway, this`goAwayCode
      ensures inGoAway && goAwayCode == if old(inGoAway) then old(goAwayCode) else code
      ensures Now() == Shutdown(old(Now()), code)
    {
      if !inGoAway {
        inGoAway, goAwayCode := true, code;
      }
    }

    /** The client goes away: graceful shutdown, and no more pushes. */
    method ProcessGoAway()
      modifies this`inGoAway, this`goAwayCode, this`pushEnabled
      ensures inGoAway && !pushEnabled && goAwayCode == if old(inGoAway) then old(goAwayCode) else NO_ERROR
      ensures Now() == OnGoAway(old(Now()))
    {
      GoAway(NO_ERROR);
      pushEnabled := false;
    }

    /** How the loop reacts to the error a frame was answered with. */
    method React(err: Err)
      requires Holds(Pending(err))
      modifies this`streams, this`inGoAway, this`goAwayCode
      ensures Valid()
      ensures forall id :: State(id) == old(State(id))
      ensures streams == if err.StreamErr? && err.id in old(streams)
                         then old(streams)[err.id := old(streams)[err.id].(resetQueued := true)] else old(streams)
      ensures if err.ConnErr? then inGoAway && (old(inGoAway) || goAwayCode == err.code) else inGoAway == old(inGoAway)
      ensures Now() == Answer(Outcome(old(Now()), err))
    {
      hide Counted, Bodied, SendLedger, TotalSent, FromClient, Intake.Balanced, Split, Used;
      if err.StreamErr? {
        ResetStream(err.id);
      } else if err.ConnErr? {
        GoAway(err.code);
      }
    }

    // ---------- request bodies ----------

    /** The request is complete. */
    method EndStream(id: int)
      requires Valid() && id in streams && streams[id].body.Body? && streams[id].state == Open
      modifies this`streams
      ensures Valid()
      ensures streams == old(streams)[id := Ended(old(streams[id]))]
    {
      hide Counted, Bodied, SendLedger, TotalSent, Intake.Balanced, Split, Used;
      var st := streams[id];
      SetStream(id, st.(body := st.body.Close(), state := HalfClosedRemote));
    }

    // ---------- HEADERS ----------

    method ProcessTrailers(f: Headers) returns (err: Err)
      requires Valid() && f.id in streams && streams[f.id].state == Open && !streams[f.id].resetQueued
      modifies this`streams
      ensures Valid()
      ensures forall id :: Forward(old(State(id)), State(id))
      ensures err == if old(streams[f.id].gotTrailerHeader) then ConnErr(PROTOCOL_ERROR)
                     else if !f.endStream || f.badTrailer then StreamErr(f.id, PROTOCOL_ERROR)
                     else NoErr
      ensures var st := old(streams[f.id]).(gotTrailerHeader := true);
              streams == old(streams)[f.id := if err.NoErr? then Ended(st) else st]
    {
      hide Counted, Bodied, SendLedger, TotalSent, Intake.Balanced, Split, Used, FromClient;
      var st := streams[f.id];
      BodiedHas(streams, f.id);
      if st.gotTrailerHeader {
        assert streams == streams[f.id := st];
        return ConnErr(PROTOCOL_ERROR);
      }
      SetStream(f.id, st.(gotTrailerHeader := true));
      if !f.endStream || f.badTrailer {
        return StreamErr(f.id, PROTOCOL_ERROR);
      }
      EndStream(f.id);
      return NoErr;
    }

    /** Takes a fresh client id. The stream is refused exactly when the client is
        already at its limit; otherwise it is in the table, with a body unless the
        request ended, or with a reset to follow. */
    method OpenRequest(f: Headers) returns (err: Err)
      requires Valid() && !panicked && FromClient(f.id) && maxClientStreamID < f.id < ID_LIMIT
      modifies this`streams, this`owed, this`sent, this`curClientStreams, this`curPushedStreams, this`maxClientStreamID
      ensures Holds(Pending(err)) && maxClientStreamID == f.id
      ensures err == if old(curClientStreams) == advMaxStreams
                     then StreamErr(f.id, if unackedSettings == 0 then PROTOCOL_ERROR else REFUSED_STREAM)
                     else if f.selfDependent || f.malformed then StreamErr(f.id, PROTOCOL_ERROR)
                     else NoErr
      ensures f.id in streams <==> old(curClientStreams) < advMaxStreams
      ensures Others(old(streams), streams, f.id)
      ensures f.id in streams ==> streams[f.id].state == if f.endStream then HalfClosedRemote else Open
      ensures err.NoErr? && !f.endStream ==>
                streams[f.id] == Stream(Open, initialStreamSendWindowSize, streamWindow, Body(0, false, false), 0,
                                        f.contentLength, false, false)
      ensures owed == if f.id in streams then old(owed)[f.id := 0] else old(owed)
      ensures Outcome(Now(), err) == OnRequest(Cfg(), old(Now()), f)
    {
      hide Counted, Bodied, SendLedger, TotalSent, Intake.Balanced, Split, Used, FromClient, OnRequest;
      RequestIs(Cfg(), Now(), f);
      RaiseClientID(f.id);
      if (curClientStreams + 1) % 0x1_0000_0000 > advMaxStreams {
        BodiedDrop(streams, f.id);
        return StreamErr(f.id, if unackedSettings == 0 then PROTOCOL_ERROR else REFUSED_STREAM);
      }
      err := Admit(f);
    }

    /** From now on, this id has been used by the client. */
    method RaiseClientID(id: int)
      requires Valid() && FromClient(id) && maxClientStreamID < id < ID_LIMIT
      modifies this`maxClientStreamID
      ensures Valid() && maxClientStreamID == id && id !in owed && id !in streams && 0 < id
      ensures 0 <= curClientStreams < ID_LIMIT
    {
      hide Counted, Bodied, SendLedger, TotalSent, Intake.Balanced, Split, Used, FromClient;
      CountsSmall(streams, curClientStreams, curPushedStreams, maxClientStreamID, maxPushPromiseID);
      CountedRaise(streams, curClientStreams, curPushedStreams, maxClientStreamID, maxPushPromiseID, id,
                   maxPushPromiseID);
      UsedRaise(owed, maxClientStreamID, maxPushPromiseID, id, maxPushPromiseID);
      maxClientStreamID := id;
      SplitUnused(streams, retired, owed, sent, id);
    }

    /** The stream of an accepted request. */
    method Admit(f: Headers) returns (err: Err)
      requires Valid() && !panicked && FromClient(f.id) && 0 < f.id == maxClientStreamID && f.id !in owed
      requires curClientStreams < advMaxStreams
      modifies this`streams, this`owed, this`sent, this`curClientStreams, this`curPushedStreams
      ensures Holds(Pending(err))
      ensures err == if f.selfDependent || f.malformed then StreamErr(f.id, PROTOCOL_ERROR) else NoErr
      ensures var st := Stream(if f.endStream then HalfClosedRemote
                               else Open, initialStreamSendWindowSize, streamWindow,
                               NoBody, 0, 0, false, false);
              streams == old(streams)[f.id := if err.NoErr? && !f.endStream
                                              then st.(body := Body(0, false, false), declBodyBytes := f.contentLength)
                                              else st]
      ensures owed == old(owed)[f.id := 0]
      ensures curClientStreams == old(curClientStreams) + 1 && curPushedStreams == old(curPushedStreams)
    {
      hide Counted, Bodied, SendLedger, TotalSent, Intake.Balanced, Split, Used, FromClient;
      NewStream(f.id, if f.endStream then HalfClosedRemote else Open);
      if f.selfDependent || f.malformed {
        return StreamErr(f.id, PROTOCOL_ERROR);
      }
      if !f.endStream {
        SetStream(f.id, streams[f.id].(body := Body(0, false, false), declBodyBytes := f.contentLength));
      } else {
        SetStream(f.id, streams[f.id]);
      }
      return NoErr;
    }

    method ProcessHeaders(f: Headers) returns (err: Err)
      requires Valid() && !panicked && 0 <= f.id < ID_LIMIT
      modifies this`streams, this`owed, this`sent, this`curClientStreams, this`curPushedStreams, this`maxClientStreamID
      ensures Holds(Pending(err))
      ensures forall id :: Forward(old(State(id)), State(id))
      ensures Others(old(streams), streams, f.id)
      ensures inGoAway ==> err.NoErr? && streams == old(streams)
      ensures !inGoAway && !FromClient(f.id) ==> err == ConnErr(PROTOCOL_ERROR) && streams == old(streams)
      ensures !inGoAway && FromClient(f.id) && f.id in old(streams) && old(streams[f.id].resetQueued) ==>
                err == NoErr && streams == old(streams)
      ensures !inGoAway && FromClient(f.id) && f.id in old(streams) && !old(streams[f.id].resetQueued)
              && old(State(f.id)) == HalfClosedRemote ==>
                err == StreamErr(f.id, STREAM_CLOSED) && streams == old(streams)
      ensures !inGoAway && old(State(f.id)) == Closed ==> err.ConnErr?
      ensures !inGoAway && old(State(f.id)) == Idle && FromClient(f.id) ==>
                (State(f.id) == Closed <==> old(curClientStreams) == advMaxStreams)
      ensures Outcome(Now(), err) == OnHeaders(Cfg(), old(Now()), f)
    {
      hide Counted, Bodied, SendLedger, TotalSent, Intake.Balanced, Split, Used, FromClient, OnHeaders, OnRequest;
      HeadersIs(Cfg(), Now(), f);
      if inGoAway {
        return NoErr;
      }
      if !FromClient(f.id) {
        return ConnErr(PROTOCOL_ERROR);
      }
      if f.id in streams {
        CountedLive(streams, curClientStreams, curPushedStreams, maxClientStreamID, maxPushPromiseID, f.id);
        var st := streams[f.id];
        BodiedHas(streams, f.id);
        if st.resetQueued {
          return NoErr;
        }
        if st.state == HalfClosedRemote {
          BodiedDrop(streams, f.id);
          return StreamErr(f.id, STREAM_CLOSED);
        }
        err := ProcessTrailers(f);
        BodiedDrop(streams, f.id);
        return;
      }
      if f.id <= maxClientStreamID {
        return ConnErr(PROTOCOL_ERROR);
      }
      err := OpenRequest(f);
    }

    // ---------- DATA ----------

    /** DATA that has nowhere to go is charged to the connection and given back
        at once, unless it exceeds the window. */
    method DiscardData(id: int, length: nat) returns (err: Err)
      requires Valid() && !panicked && length < 0x100_0000
      modifies this`inflow, this`panicked
      ensures Valid() && !panicked && inflow == old(inflow)
      ensures length > inflow ==> err == StreamErr(id, FLOW_CONTROL_ERROR)
      ensures length <= inflow && id in streams && streams[id].resetQueued ==> err == NoErr
      ensures length <= inflow && !(id in streams && streams[id].resetQueued) ==> err == StreamErr(id, STREAM_CLOSED)
      ensures Outcome(Now(), err) == OnLostData(old(Now()), id, length)
    {
      hide Counted, Bodied, SendLedger, TotalSent, Split, Used, FromClient, Held, Owed;
      if inflow < length {
        return StreamErr(id, FLOW_CONTROL_ERROR);
      }
      inflow := inflow - length;
      UpdateConn(length);
      if id in streams && streams[id].resetQueued {
        return NoErr;
      }
      return StreamErr(id, STREAM_CLOSED);
    }

    /** Charges a frame that fits to both windows, writes its data to the body, and
        gives back whatever was not written. */
    method Deposit(id: int, length: nat, data: nat) returns (ok: bool)
      requires !panicked && id in streams && streams[id].body.Body?
      requires data <= length <= streams[id].inflow && length <= inflow
      modifies this`streams, this`inflow, this`panicked
      ensures !panicked && (ok <==> data == 0 || !old(streams[id].body.closed))
      ensures inflow == old(inflow) - if ok then data else 0
      ensures streams == old(streams)[id := if ok then Charged(old(streams[id]), data)
                                            else old(streams[id]).(inflow := old(streams[id].inflow) - length)]
    {
      inflow := inflow - length;
      var st := streams[id].(inflow := streams[id].inflow - length);
      streams := streams[id := st];
      if data > 0 {
        if st.body.closed {
          UpdateConn(length);
          return false;
        }
        streams := streams[id := st.(body := st.body.(len := st.body.len + data), bodyBytes := st.bodyBytes + data)];
      }
      UpdateConn(length - data);
      UpdateStream(id, length - data);
      assert streams[id] == Charged(old(streams[id]), data);
      return true;
    }

    /** The data goes to the body and stays charged; padding is given back at once.
        A body that no longer accepts data costs the stream its window, and the
        connection nothing. */
    method AcceptData(id: int, length: nat, data: nat) returns (err: Err)
      requires Valid() && !panicked && data <= length < 0x100_0000
      requires id in streams && streams[id].state == Open && streams[id].body.Body?
      modifies this`streams, this`inflow, this`panicked
      ensures Holds(Pending(err)) && !panicked
      ensures !err.ConnErr? && (err.StreamErr? ==> err.id == id)
      ensures err == StreamErr(id, FLOW_CONTROL_ERROR) <==> length > Least(old(streams[id].inflow), old(inflow))
      ensures err == StreamErr(id, STREAM_CLOSED) <==>
                length <= Least(old(streams[id].inflow), old(inflow)) && data > 0 && old(streams[id].body.closed)
      ensures err.StreamErr? ==> err.code in {FLOW_CONTROL_ERROR, STREAM_CLOSED}
      ensures err.StreamErr? ==> inflow == old(inflow)
      ensures err.NoErr? ==>
                inflow == old(inflow) - data && streams == old(streams)[id := Charged(old(streams[id]), data)]
      ensures Others(old(streams), streams, id) && id in streams && streams[id].state == Open
      ensures err == StreamErr(id, FLOW_CONTROL_ERROR) ==> streams == old(streams)
      ensures err == StreamErr(id, STREAM_CLOSED) ==>
                && FitsInt32(old(streams[id].inflow) - length)
                && streams == old(streams)[id := old(streams[id]).(inflow := old(streams[id].inflow) - length)]
    {
      hide Counted, Bodied, SendLedger, TotalSent, Split, Used, FromClient, Intake.Balanced;
      var st := streams[id];
      BalancedKnown(In(), id);
      BodiedDrop(streams, id);
      BodiedHas(streams, id);
      if Least(st.inflow, inflow) < length {
        return StreamErr(id, FLOW_CONTROL_ERROR);
      }
      Reweighed(id, Charged(st, data), inflow - data);
      Reweighed(id, st.(inflow := st.inflow - length), inflow);
      var ok := Deposit(id, length, data);
      if !ok {
        return StreamErr(id, STREAM_CLOSED);
      }
      return NoErr;
    }

    /** Whether DATA for a stream can be handed to its handler. */
    predicate Receiving(id: int)
      reads this`streams
    {
      && id in streams
      && streams[id].state == Open
      && !streams[id].gotTrailerHeader
      && !streams[id].resetQueued
    }

    method ProcessData(id: int, length: nat, data: nat, endStream: bool) returns (err: Err)
      requires Valid() && !panicked && 0 <= id < ID_LIMIT && data <= length < 0x100_0000
      modifies this`streams, this`inflow, this`panicked
      ensures Holds(Pending(err)) && !panicked
      ensures forall i :: Forward(old(State(i)), State(i))
      ensures err.ConnErr? <==> !(inGoAway && goAwayCode != NO_ERROR) && (id == 0 || old(State(id)) == Idle)
      ensures Outcome(Now(), err) == OnData(old(Now()), id, length, data, endStream)
    {
      hide Counted, Bodied, SendLedger, TotalSent, Split, Used, FromClient, Intake.Balanced;
      if inGoAway && goAwayCode != NO_ERROR {
        return NoErr;
      }
      if id == 0 || State(id) == Idle {
        return ConnErr(PROTOCOL_ERROR);
      }
      BodiedDrop(streams, id);
      if !Receiving(id) {
        err := DiscardData(id, length);
        return;
      }
      BodiedHas(streams, id);
      err := ReceiveData(id, length, data, endStream);
    }

    /** DATA for a request that is still coming in. */
    method ReceiveData(id: int, length: nat, data: nat, endStream: bool) returns (err: Err)
      requires Valid() && !panicked && data <= length < 0x100_0000
      requires id in streams && streams[id].state == Open && streams[id].body.Body?
      modifies this`streams, this`inflow, this`panicked
      ensures Holds(Pending(err)) && !panicked
      ensures !err.ConnErr? && id in streams && streams[id].state in {Open, HalfClosedRemote}
      ensures Outcome(Now(), err) == OnBodyData(old(Now()), id, length, data, endStream, old(streams[id]))
    {
      hide Counted, Bodied, SendLedger, TotalSent, Split, Used, FromClient, Intake.Balanced, OnBodyData;
      var st := streams[id];
      BodyDataIs(Now(), id, length, data, endStream, st);
      BodiedDrop(streams, id);
      if st.declBodyBytes != -1 && st.bodyBytes + data > st.declBodyBytes {
        SetStream(id, st.(body := st.body.Close()));
        return StreamErr(id, PROTOCOL_ERROR);
      }
      err := AcceptData(id, length, data);
      if err.NoErr? && endStream {
        EndStream(id);
      }
    }

    // ---------- RST_STREAM and finished writes ----------

    method ProcessReset(id: int) returns (err: Err)
      requires Valid() && !panicked && 0 <= id < ID_LIMIT
      modifies this`streams, this`retired, this`curClientStreams, this`curPushedStreams, this`inflow, this`panicked
      ensures panicked ==> connWindow + late > MAX_INT32
      ensures !panicked ==> Valid()
      ensures forall i :: Forward(old(State(i)), State(i))
      ensures streams == old(streams) - {id}
      ensures retired == if id in old(streams) then old(retired)[id := old(streams)[id].body.Close()] else old(retired)
      ensures if old(State(id)) == Idle then err == ConnErr(PROTOCOL_ERROR) else err == NoErr && State(id) == Closed
      ensures !panicked ==> Outcome(Now(), err) == OnReset(old(Now()), id)
      ensures panicked <==> OnReset(old(Now()), id).state.inflow > MAX_INT32
    {
      hide Close;
      CloseIs(Now(), id);
      hide Counted, Bodied, SendLedger, TotalSent, Split, Used, FromClient, Intake.Balanced;
      if id in streams {
        CountedLive(streams, curClientStreams, curPushedStreams, maxClientStreamID, maxPushPromiseID, id);
      }
      if State(id) == Idle {
        return ConnErr(PROTOCOL_ERROR);
      }
      if id in streams {
        CloseStream(id);
      }
      return NoErr;
    }

    /** The frame that ends the response was written. A request still open is then
        reset; a finished one closes the stream. */
    method WroteEndStream(id: int)
      requires Valid() && !panicked
      modifies this`streams, this`retired, this`curClientStreams, this`curPushedStreams, this`inflow, this`panicked
      ensures panicked ==> connWindow + late > MAX_INT32
      ensures !panicked ==> Valid()
      ensures forall i :: Forward(old(State(i)), State(i))
      ensures if id in old(streams) && old(State(id)) == Open then
                streams == old(streams)[id := old(streams[id]).(state := HalfClosedLocal, resetQueued := true)]
              else if id in old(streams) && old(State(id)) == HalfClosedRemote then streams == old(streams) - {id}
              else streams == old(streams)
      ensures retired == if id in old(streams) && id !in streams then old(retired)[id := old(streams)[id].body.Close()]
                         else old(retired)
      ensures !panicked ==> Now() == OnEndWritten(old(Now()), id)
      ensures panicked <==> OnEndWritten(old(Now()), id).inflow > MAX_INT32
    {
      hide Counted, Bodied, SendLedger, TotalSent, Split, Used, FromClient, Intake.Balanced, Close;
      CloseIs(Now(), id);
      if id in streams {
        if streams[id].state == Open {
          SetStream(id, streams[id].(state := HalfClosedLocal));
          ResetStream(id);
        } else if streams[id].state == HalfClosedRemote {
          CloseStream(id);
        }
      }
    }

    /** RST_STREAM was written: whatever is left of the stream goes. */
    method WroteReset(id: int)
      requires Valid() && !panicked
      modifies this`streams, this`retired, this`curClientStreams, this`curPushedStreams, this`inflow, this`panicked
      ensures panicked ==> connWindow + late > MAX_INT32
      ensures !panicked ==> Valid()
      ensures forall i :: Forward(old(State(i)), State(i))
      ensures streams == old(streams) - {id}
      ensures retired == if id in old(streams) then old(retired)[id := old(streams)[id].body.Close()] else old(retired)
      ensures !panicked ==> Now() == Close(old(Now()), id)
      ensures panicked <==> Close(old(Now()), id).inflow > MAX_INT32
    {
      hide Counted, Bodied, SendLedger, TotalSent, Split, Used, FromClient, Intake.Balanced, Close;
      CloseIs(Now(), id);
      if id in streams {
        CloseStream(id);
      }
    }

    /** The reset of a stream whose handler panicked was written. The loop insists
        that the stream is still there: it fails exactly when something else closed
        it while that frame was on its way out. */
    method WroteHandlerPanic(id: int) returns (ok: bool)
      requires Valid() && !panicked
      modifies this`streams, this`retired, this`curClientStreams, this`curPushedStreams, this`inflow, this`panicked
      ensures ok <==> id in old(streams)
      ensures panicked ==> connWindow + late > MAX_INT32
      ensures !panicked ==> Valid()
      ensures forall i :: Forward(old(State(i)), State(i))
      ensures streams == old(streams) - {id}
      ensures retired == if id in old(streams) then old(retired)[id := old(streams)[id].body.Close()] else old(retired)
      ensures !panicked ==> Now() == Close(old(Now()), id)
      ensures panicked <==> Close(old(Now()), id).inflow > MAX_INT32
    {
      hide Counted, Bodied, SendLedger, TotalSent, Split, Used, FromClient, Intake.Balanced, Close;
      CloseIs(Now(), id);
      if id !in streams {
        return false;
      }
      CloseStream(id);
      return true;
    }

    /** The client is gone: every stream closes, in any order. */
    method CloseAll()
      requires Valid() && !panicked
      modifies this`streams, this`retired, this`curClientStreams, this`curPushedStreams, this`inflow, this`panicked
      ensures panicked ==> connWindow + late > MAX_INT32
      ensures !panicked ==> Valid() && streams == map[] && curClientStreams == curPushedStreams == 0
      ensures !panicked ==> inflow + Owed(owed) == connWindow + late
      ensures forall i :: Forward(old(State(i)), State(i))
      ensures !panicked ==> Now() == OnGone(old(Now()))
      ensures panicked <==> OnGone(old(Now())).inflow > MAX_INT32
    {
      hide Counted, Bodied, SendLedger, TotalSent, Split, Used, FromClient, Intake.Balanced, OnGone, Close, Held;
      ghost var a := Now();
      while streams != map[]
        invariant !panicked && Valid() && GoneSame(a, Now())
        invariant forall i :: Forward(old(State(i)), State(i))
        decreases |streams|
      {
        assert (forall i :: i !in streams) ==> streams == map[];
        var id :| id in streams;
        GoneStep(a, Now(), id);
        CloseStream(id);
        if panicked {
          return;
        }
      }
      GoneEnd(a, Now());
      CountedEmpty(curClientStreams, curPushedStreams, maxClientStreamID, maxPushPromiseID);
      BalancedEmpty(In());
    }

    // ---------- server push ----------

    /** The state of a stream on which promises may be sent. */
    predicate Promising(st: StreamState) {
      st == Open || st == HalfClosedRemote
    }

    /** Promises a stream on the next even id, if its parent still takes promises and the
        client allows one more. */
    method Promise(parent: int) returns (ok: bool)
      requires Valid() && !panicked
      modifies this`streams, this`owed, this`sent, this`curClientStreams, this`curPushedStreams, this`maxPushPromiseID
      modifies this`inGoAway, this`goAwayCode
      ensures Valid()
      ensures forall i :: Forward(old(State(i)), State(i))
      ensures ok <==>
              && Promising(old(State(parent))) && pushEnabled && old(curPushedStreams) < clientMaxStreams
              && old(maxPushPromiseID) + 2 < ID_LIMIT
      ensures ok ==> old(State(maxPushPromiseID + 2)) == Idle && State(old(maxPushPromiseID) + 2) == HalfClosedRemote
      ensures Now() == OnPromise(Cfg(), old(Now()), parent)
    {
      hide Counted, Bodied, SendLedger, TotalSent, Split, Used, Intake.Balanced, OnPromise;
      CountsSmall(streams, curClientStreams, curPushedStreams, maxClientStreamID, maxPushPromiseID);
      PromiseIs(Cfg(), Now(), parent);
      if parent !in streams || (streams[parent].state != Open && streams[parent].state != HalfClosedRemote) {
        return false;
      }
      if !pushEnabled || (curPushedStreams + 1) % 0x1_0000_0000 > clientMaxStreams {
        return false;
      }
      if maxPushPromiseID + 2 >= ID_LIMIT {
        GoAway(NO_ERROR);
        return false;
      }
      PromiseNext();
      return true;
    }

    method PromiseNext()
      requires Valid() && !panicked && maxPushPromiseID + 2 < ID_LIMIT
      modifies this`streams, this`owed, this`sent, this`curClientStreams, this`curPushedStreams, this`maxPushPromiseID
      ensures Valid() && maxPushPromiseID == old(maxPushPromiseID) + 2 && !FromClient(maxPushPromiseID)
      ensures owed == old(owed)[maxPushPromiseID := 0] && maxPushPromiseID !in old(streams)
      ensures streams == old(streams)[maxPushPromiseID := Stream(HalfClosedRemote, initialStreamSendWindowSize,
                                                                 streamWindow, NoBody, 0, 0, false, false)]
      ensures curClientStreams == old(curClientStreams) && curPushedStreams == old(curPushedStreams) + 1
    {
      hide Counted, Bodied, SendLedger, TotalSent, Split, Used, Intake.Balanced;
      CountsSmall(streams, curClientStreams, curPushedStreams, maxClientStreamID, maxPushPromiseID);
      var id := maxPushPromiseID + 2;
      CountedRaise(streams, curClientStreams, curPushedStreams, maxClientStreamID, maxPushPromiseID, maxClientStreamID,
                   id);
      UsedRaise(owed, maxClientStreamID, maxPushPromiseID, maxClientStreamID, id);
      SplitUnused(streams, retired, owed, sent, id);
      hide FromClient;
      maxPushPromiseID := id;
      NewStream(id, HalfClosedRemote);
      SetStream(id, streams[id]);
    }

    // ---------- send windows ----------

    /** Changing a stream's send window touches nothing but the send ledger. */
    lemma Reflowed(id: int, n: int32, s: Sent)
      requires Valid() && id in streams
      ensures id in sent
      ensures Counted(streams[id := streams[id].(flow := n)], curClientStreams, curPushedStreams, maxClientStreamID,
                      maxPushPromiseID)
      ensures Split(streams[id := streams[id].(flow := n)], retired, owed, sent[id := s])
      ensures Split(streams[id := streams[id].(flow := n)], retired, owed, sent)
      ensures Bodied(streams[id := streams[id].(flow := n)], {})
      ensures In().(streams := streams[id := streams[id].(flow := n)]).Balanced()
      ensures !refusedSettings ==> SendLedger(streams, initialStreamSendWindowSize, sent)
      ensures !refusedSettings && SendOk(n, initialStreamSendWindowSize, s) ==>
                SendLedger(streams[id := streams[id].(flow := n)], initialStreamSendWindowSize, sent[id := s])
    {
      hide Counted, Bodied, SendLedger, SendOk, TotalSent, FromClient, Intake.Balanced, Split, Used;
      var st := streams[id].(flow := n);
      CountedSet(streams, curClientStreams, curPushedStreams, maxClientStreamID, maxPushPromiseID, id, st);
      SplitSet(streams, retired, owed, sent, id, st, 0, s);
      BalancedKnown(In(), id);
      BalancedStream(In(), id, st, inflow);
      BodiedHas(streams, id);
      BodiedSet(streams, id, st);
      if !refusedSettings && SendOk(n, initialStreamSendWindowSize, s) {
        SendLedgerSet(streams, initialStreamSendWindowSize, sent, id, st, s);
      }
    }

    /** WINDOW_UPDATE on a stream. It is refused exactly when the window would pass
        2^31 - 1. */
    method GrantStream(id: int, increment: int32) returns (err: Err)
      requires Valid() && 0 < id < ID_LIMIT && 0 < increment
      modifies this`streams, this`sent
      ensures Valid()
      ensures forall i :: State(i) == old(State(i))
      ensures err.ConnErr? <==> State(id) == Idle
      ensures err.StreamErr? <==> id in streams && old(streams[id].flow) + increment > MAX_INT32
      ensures err.StreamErr? ==> err.id == id
      ensures err.NoErr? && id in streams ==>
              sent == old(sent)[id := Sent(old(sent)[id].granted + increment, old(sent)[id].bytes)]
      ensures err.NoErr? && id in streams ==>
              streams == old(streams)[id := old(streams[id]).(flow := old(streams[id].flow) + increment)]
      ensures !err.NoErr? || id !in streams ==> sent == old(sent) && streams == old(streams)
      ensures Outcome(Now(), err) == OnStreamUpdate(old(Now()), id, increment)
    {
      hide Counted, Bodied, SendLedger, TotalSent, Split, Used, FromClient, Intake.Balanced;
      if id in streams {
        CountedLive(streams, curClientStreams, curPushedStreams, maxClientStreamID, maxPushPromiseID, id);
      }
      if State(id) == Idle {
        return ConnErr(PROTOCOL_ERROR);
      }
      if id !in streams {
        return NoErr;
      }
      SplitSet(streams, retired, owed, sent, id, streams[id], 0, Sent(0, 0));
      var r := Added(streams[id].flow, increment);
      if !r.0 {
        return StreamErr(id, FLOW_CONTROL_ERROR);
      }
      ghost var s := Sent(sent[id].granted + increment, sent[id].bytes);
      if !refusedSettings {
        SendLedgerAt(streams, initialStreamSendWindowSize, sent, id);
      }
      Reflowed(id, r.1, s);
      TotalSentSet(sent, id, s);
      streams := streams[id := streams[id].(flow := r.1)];
      sent := sent[id := s];
      return NoErr;
    }

    /** WINDOW_UPDATE on the connection. */
    method GrantConn(increment: int32) returns (err: Err)
      requires Valid() && 0 < increment
      modifies this`flow, this`connGranted
      ensures Valid()
      ensures if old(flow) + increment > MAX_INT32 then err == ConnErr(FLOW_CONTROL_ERROR) && flow == old(flow)
              else err == NoErr && flow == old(flow) + increment && connGranted == old(connGranted) + increment
      ensures Outcome(Now(), err) == OnConnUpdate(old(Now()), increment)
    {
      hide Counted, Bodied, SendLedger, TotalSent, Split, Used, FromClient, Intake.Balanced;
      var r := Added(flow, increment);
      if !r.0 {
        return ConnErr(FLOW_CONTROL_ERROR);
      }
      flow := r.1;
      connGranted := connGranted + increment;
      return NoErr;
    }

    /** The scheduler takes n bytes of a stream's DATA, never more than both windows
        allow. */
    method Send(id: int, n: nat)
      requires Valid() && id in streams && n <= Least(streams[id].flow, flow)
      modifies this`streams, this`flow, this`sent
      ensures Valid()
      ensures forall i :: State(i) == old(State(i))
      ensures flow == old(flow) - n && id in sent && sent[id].bytes == old(sent)[id].bytes + n
      ensures streams == old(streams)[id := old(streams[id]).(flow := old(streams[id].flow) - n)]
    {
      hide Counted, Bodied, SendLedger, TotalSent, Split, Used, FromClient, Intake.Balanced;
      SplitSet(streams, retired, owed, sent, id, streams[id], 0, Sent(0, 0));
      ghost var s := Sent(sent[id].granted, sent[id].bytes + n);
      if !refusedSettings {
        SendLedgerAt(streams, initialStreamSendWindowSize, sent, id);
      }
      Reflowed(id, streams[id].flow - n, s);
      TotalSentSet(sent, id, s);
      streams := streams[id := streams[id].(flow := streams[id].flow - n)];
      flow := flow - n;
      sent := sent[id := s];
    }

    /** A new initial window moves every stream's window by the difference. It is
        refused exactly when some stream would then be allowed more than 2^31 - 1
        bytes; the windows already moved stay moved. */
    method SetInitialWindow(val: nat) returns (err: Err)
      requires Valid()
      modifies this`streams, this`initialStreamSendWindowSize, this`refusedSettings
      ensures Valid() && streams.Keys == old(streams.Keys) <= sent.Keys
      ensures forall i :: State(i) == old(State(i))
      ensures val > MAX_INT32 ==> err.ConnErr? && streams == old(streams) && refusedSettings == old(refusedSettings)
      ensures val <= MAX_INT32 && !old(refusedSettings) ==> (err.NoErr? <==> Fits(old(streams), sent, val))
      ensures err.NoErr? ==> initialStreamSendWindowSize == val && refusedSettings == old(refusedSettings)
      ensures err.NoErr? ==> Moved(old(streams), streams, {}, val - old(initialStreamSendWindowSize))
      ensures !err.NoErr? ==> err == ConnErr(FLOW_CONTROL_ERROR)
      ensures val <= MAX_INT32 ==>
                && initialStreamSendWindowSize == val
                && (err.NoErr? <==> AllFit(old(streams), val - old(initialStreamSendWindowSize)))
                && (!err.NoErr? ==> PartlyMoved(old(streams), streams, val - old(initialStreamSendWindowSize)))
      ensures val > MAX_INT32 ==> initialStreamSendWindowSize == old(initialStreamSendWindowSize)
    {
      hide Counted, Bodied, SendLedger, TotalSent, Split, Used, FromClient, Intake.Balanced, Moved, Fits, AllFit,
           PartlyMoved;
      SplitKeys(streams, retired, owed, sent);
      if val > MAX_INT32 {
        return ConnErr(FLOW_CONTROL_ERROR);
      }
      ghost var was := streams;
      ghost var initial := initialStreamSendWindowSize;
      var growth: int32 := val - initialStreamSendWindowSize;
      initialStreamSendWindowSize := val;
      err := MoveWindows(growth);
      OnlyFlowsKeeps(was, streams, curClientStreams, curPushedStreams, maxClientStreamID, maxPushPromiseID, retired,
                     sent, old(In()));
      if err.NoErr? {
        if !refusedSettings {
          MovedAll(was, streams, sent, initial, val);
        }
      } else {
        ghost var id :| id in was && !FitsInt32(was[id].flow + growth);
        if !refusedSettings {
          Overflows(was, sent, initial, val, id);
        }
        refusedSettings := true;
      }
    }

    method MoveWindows(growth: int32) returns (err: Err)
      modifies this`streams
      ensures OnlyFlows(old(streams), streams)
      ensures err.NoErr? ==> Moved(old(streams), streams, {}, growth)
      ensures !err.NoErr? ==>
                && err == ConnErr(FLOW_CONTROL_ERROR)
                && exists id :: id in old(streams) && !FitsInt32(old(streams)[id].flow + growth)
      ensures err.NoErr? <==> AllFit(old(streams), growth)
      ensures !err.NoErr? ==> PartlyMoved(old(streams), streams, growth)
    {
      var todo := streams.Keys;
      while todo != {}
        invariant todo <= old(streams.Keys) && Moved(old(streams), streams, todo, growth)
        invariant forall id :: id in old(streams) && id !in todo ==> FitsInt32(old(streams)[id].flow + growth)
        decreases |todo|
      {
        assert (forall id :: id !in todo) ==> todo == {};
        var id :| id in todo;
        var r := Added(streams[id].flow, growth);
        if !r.0 {
          assert FailsAmong(old(streams), todo, growth);
          return ConnErr(FLOW_CONTROL_ERROR);
        }
        MovedOne(old(streams), streams, todo, growth, id, r.1);
        streams := streams[id := streams[id].(flow := r.1)];
        todo := todo - {id};
      }
      return NoErr;
    }

    // ---------- handlers reading request bodies ----------

    /** What a stream's handler owes may change along with its record. */
    lemma Rebooked(id: int, st: Stream, n: nat, rest: int32)
      requires Valid() && id in streams && id in owed
      requires st == streams[id].(inflow := st.inflow, body := st.body) && (st.body.Body? <==> streams[id].body.Body?)
      requires StreamIn(st, streamWindow, n)
      requires 0 <= rest && rest + st.body.Len() + n == inflow + streams[id].body.Len() + owed[id]
      ensures Counted(streams[id := st], curClientStreams, curPushedStreams, maxClientStreamID, maxPushPromiseID)
      ensures Split(streams[id := st], retired, owed[id := n], sent)
      ensures Used(owed[id := n], maxClientStreamID, maxPushPromiseID)
      ensures Bodied(streams[id := st], {})
      ensures !refusedSettings ==> SendLedger(streams[id := st], initialStreamSendWindowSize, sent)
      ensures In().(streams := streams[id := st], owed := owed[id := n], inflow := rest).Balanced()
    {
      hide Counted, Bodied, SendLedger, TotalSent, FromClient, Intake.Balanced, Split, Used, StreamIn;
      CountedSet(streams, curClientStreams, curPushedStreams, maxClientStreamID, maxPushPromiseID, id, st);
      SplitSet(streams, retired, owed, sent, id, st, n, Sent(0, 0));
      UsedOpen(owed, maxClientStreamID, maxPushPromiseID, id, n);
      BalancedSet(In(), id, st, n, rest);
      BodiedHas(streams, id);
      BodiedSet(streams, id, st);
      if !refusedSettings {
        SendLedgerSame(streams, initialStreamSendWindowSize, sent, id, st);
      }
    }

    /** A handler reads up to `cap` bytes, and owes the loop a message about them.
        The body of a closed stream can still be read, although closing gave its
        bytes back. */
    method HandlerRead(id: int, cap: nat) returns (n: nat)
      requires Valid() && id in owed
      modifies this`streams, this`retired, this`owed, this`late
      ensures Valid() && (id in old(streams) || id in old(retired))
      ensures n == Readable(if id in old(streams) then old(streams)[id].body else old(retired)[id], cap)
      ensures forall i :: State(i) == old(State(i))
      ensures owed == old(owed)[id := old(owed)[id] + n]
      ensures late == old(late) + if id in old(streams) then 0 else n
      ensures retired.Keys == old(retired.Keys) && streams.Keys == old(streams.Keys)
      ensures Now() == OnRead(old(Now()), id, cap)
    {
      hide Counted, Bodied, SendLedger, TotalSent, FromClient, Intake.Balanced, Split, Used, OnRead;
      SplitAll(streams, retired, owed, sent, id);
      ReadIs(Now(), id, cap);
      if id in streams {
        n := ReadLive(id, cap);
      } else {
        n := ReadLate(id, cap);
      }
    }

    method ReadLate(id: int, cap: nat) returns (n: nat)
      requires Valid() && id in owed && id in retired && id !in streams
      modifies this`retired, this`owed, this`late
      ensures Valid() && n == Readable(old(retired)[id], cap)
      ensures owed == old(owed)[id := old(owed)[id] + n] && late == old(late) + n
      ensures retired == old(retired)[id := Consumed(old(retired)[id], n)]
    {
      hide Counted, Bodied, SendLedger, TotalSent, FromClient, Intake.Balanced, Split, Used;
      var body := retired[id];
      n := if body.NoBody? || body.broken then 0 else if cap < body.len then cap else body.len;
      SplitLate(streams, retired, owed, sent, id, Consumed(body, n), owed[id] + n);
      UsedOpen(owed, maxClientStreamID, maxPushPromiseID, id, owed[id] + n);
      BalancedSign(In());
      BalancedLate(In(), id, owed[id] + n, inflow, late + n);
      retired := retired[id := if body.Body? then body.(len := body.len - n) else body];
      owed := owed[id := owed[id] + n];
      late := late + n;
    }

    method ReadLive(id: int, cap: nat) returns (n: nat)
      requires Valid() && id in streams && id in owed
      modifies this`streams, this`owed
      ensures Valid() && n == Readable(old(streams[id].body), cap)
      ensures forall i :: State(i) == old(State(i))
      ensures owed == old(owed)[id := old(owed)[id] + n]
      ensures Others(old(streams), streams, id)
      ensures id in streams && streams[id].body.Len() == old(streams[id].body.Len()) - n
      ensures streams == old(streams)[id := old(streams[id]).(body := Consumed(old(streams[id].body), n))]
    {
      hide Counted, Bodied, SendLedger, TotalSent, FromClient, Intake.Balanced, Split, Used;
      var st := streams[id];
      n := if st.body.NoBody? || st.body.broken then 0 else if cap < st.body.len then cap else st.body.len;
      if st.body.Body? {
        st := st.(body := st.body.(len := st.body.len - n));
      }
      BalancedKnown(In(), id);
      Rebooked(id, st, owed[id] + n, inflow);
      streams := streams[id := st];
      owed := owed[id := owed[id] + n];
    }

    /** A handler closes its request body: what was buffered stays charged until
        the stream closes. The stream may be gone already. */
    method HandlerClose(id: int)
      requires Valid() && id in owed
      modifies this`streams, this`retired
      ensures Valid() && (id in old(streams) || id in old(retired))
      ensures forall i :: State(i) == old(State(i))
      ensures if id in old(streams)
              then streams == old(streams)[id := old(streams)[id].(body := Broken(old(streams)[id].body))]
                && retired == old(retired)
              else streams == old(streams) && retired == old(retired)[id := Broken(old(retired)[id])]
      ensures Now() == OnBodyClosed(old(Now()), id)
    {
      hide Counted, Bodied, SendLedger, TotalSent, FromClient, Intake.Balanced, Split, Used;
      SplitAll(streams, retired, owed, sent, id);
      if id in streams {
        BodiedHas(streams, id);
        var body := streams[id].body;
        SetStream(id, streams[id].(body := if body.Body? then body.(broken := true) else body));
      } else {
        SplitLate(streams, retired, owed, sent, id, Broken(retired[id]), owed[id]);
        assert owed[id := owed[id]] == owed;
        retired := retired[id := if retired[id].Body? then retired[id].(broken := true) else retired[id]];
      }
    }

    /** A handler's message arrives. The bytes go back to the connection, and to
        the stream while more DATA may come. This is fatal exactly when the
        connection's window would pass 2^31 - 1. */
    method NoteBodyRead(id: int, n: nat)
      requires Valid() && !panicked && id in owed && n <= owed[id]
      modifies this`streams, this`owed, this`inflow, this`panicked
      ensures panicked <==> old(inflow) + n > MAX_INT32
      ensures panicked ==> connWindow + late > MAX_INT32
      ensures !panicked ==> Valid() && inflow == old(inflow) + n && owed == old(owed)[id := old(owed)[id] - n]
      ensures !panicked ==> Others(old(streams), streams, id) && (id in streams <==> id in old(streams))
      ensures !panicked && id in old(streams) ==>
                FitsInt32(old(streams)[id].inflow + n) && streams[id] == Returned(old(streams)[id], n)
      ensures forall i :: State(i) == old(State(i))
      ensures !panicked && id in old(streams) ==>
                streams == old(streams)[id := Returned(old(streams)[id], n)]
      ensures !panicked && id !in old(streams) ==> streams == old(streams)
    {
      hide Counted, Bodied, SendLedger, TotalSent, FromClient, Intake.Balanced, Split, Used;
      BalancedSign(In());
      BalancedRoom(In(), id);
      ghost var m: nat := owed[id] - n;
      if inflow + n <= MAX_INT32 {
        if id in streams {
          BalancedKnown(In(), id);
          Rebooked(id, Returned(streams[id], n), m, inflow + n);
        } else {
          BalancedLate(In(), id, m, inflow + n, late);
          SplitAll(streams, retired, owed, sent, id);
          SplitLate(streams, retired, owed, sent, id, retired[id], m);
          UsedOpen(owed, maxClientStreamID, maxPushPromiseID, id, m);
        }
      }
      UpdateConn(n);
      if panicked {
        return;
      }
      owed := owed[id := owed[id] - n];
      if id in streams && streams[id].state != HalfClosedRemote {
        UpdateStream(id, n);
      } else if id in streams {
        assert streams[id := streams[id]] == streams;
      }
    }

    // ---------- whole runs ----------

    /** An error on a stream leaves its body to be dealt with. */
    lemma Lax(id: int)
      requires Valid()
      ensures Holds({id})
    {
      hide Tabled, SendSide, ReceiveSide;
      BodiedDrop(streams, id);
    }

    lemma NowIs()
      ensures Now() == Snapshot(Table(streams, retired, owed, curClientStreams, curPushedStreams, maxClientStreamID,
                                      maxPushPromiseID),
                                Peer(clientMaxStreams, unackedSettings, pushEnabled, inGoAway, goAwayCode,
                                     initialStreamSendWindowSize), flow, inflow)
    {
    }

    /** SETTINGS and GOAWAY. */
    method ProcessControl(s: Step) returns (err: Err)
      requires Valid() && !panicked
      requires s.GotInitialWindow? || s.GotMaxStreams? || s.GotEnablePush? || s.GotSettingsAck? || s.GotGoAway?
      modifies this`streams, this`initialStreamSendWindowSize, this`refusedSettings, this`clientMaxStreams
      modifies this`pushEnabled, this`unackedSettings, this`inGoAway, this`goAwayCode
      ensures Valid() && !err.StreamErr?
      ensures forall id :: State(id) == old(State(id))
      ensures Answered(Cfg(), old(Now()), s, Outcome(Now(), err))
    {
      hide Counted, Bodied, SendLedger, TotalSent, FromClient, Intake.Balanced, Split, Used, AllFit, PartlyMoved, Moved;
      err := NoErr;
      match s
      case GotInitialWindow(val) => err := SetInitialWindow(val);
      case GotMaxStreams(max) => clientMaxStreams := max;
      case GotEnablePush(on) => pushEnabled := on;
      case GotSettingsAck =>
        unackedSettings := unackedSettings - 1;
        err := if unackedSettings < 0 then ConnErr(PROTOCOL_ERROR) else NoErr;
      case GotGoAway => ProcessGoAway();
    }

    /** Each frame goes to its handler. */
    method ProcessFrame(s: Step) returns (err: Err)
      requires Valid() && !panicked && s.Formed() && IsFrame(s)
      modifies this
      ensures panicked ==> connWindow + late > MAX_INT32
      ensures !panicked ==> Holds(Pending(err))
      ensures late == old(late)
      ensures forall id :: id in retired ==> id in old(retired) || Closes(s, id)
      ensures forall id :: Forward(old(State(id)), State(id))
      ensures !panicked ==> Answered(Cfg(), old(Now()), s, Outcome(Now(), err))
      ensures panicked <==> Refilled(Cfg(), old(Now()), s) > MAX_INT32
    {
      hide Tabled, SendSide, ReceiveSide, Bodied, StateOf, OnHeaders, OnData, OnReset, OnStreamUpdate, OnConnUpdate;
      hide OnInitialWindow, OnGoAway, Now, OnOther;
      NowIs();
      if s.GotHeaders? {
        err := ProcessHeaders(s.f);
      } else if s.GotData? {
        err := ProcessData(s.id, s.length, s.data, s.endStream);
      } else if s.GotReset? {
        err := ProcessReset(s.id);
      } else if s.GotStreamUpdate? {
        err := GrantStream(s.id, s.increment);
        Lax(s.id);
      } else if s.GotConnUpdate? {
        err := GrantConn(s.increment);
      } else {
        err := ProcessControl(s);
      }
    }

    /** A handler acts on the request it was given. */
    method HandlerStep(s: Step)
      requires Valid() && !panicked && (s.BodyRead? || s.BodyClosed? || s.ReadNoted?)
      modifies this`streams, this`retired, this`owed, this`inflow, this`late, this`panicked
      ensures panicked ==> connWindow + late > MAX_INT32
      ensures !panicked ==> Valid()
      ensures forall id :: State(id) == old(State(id))
      ensures retired.Keys == old(retired.Keys)
      ensures old(late) <= late <= old(late) + if s.BodyRead? && s.id in old(retired) then s.cap else 0
      ensures late > old(late) ==> s.BodyRead? && old(State(s.id)) == Closed
      ensures !panicked ==> Now() == OnOther(Cfg(), old(Now()), s)
      ensures panicked <==> OnOther(Cfg(), old(Now()), s).inflow > MAX_INT32
    {
      hide Tabled, SendSide, ReceiveSide, Bodied, StateOf, Now, OnRead, OnNoted, OnBodyClosed;
      NowIs();
      OwedIs(Now(), s);
      match s
      case BodyRead(id, cap) =>
        if id in owed {
          if id !in streams {
            GoneClosed(id);
          }
          var _ := HandlerRead(id, cap);
        }
      case BodyClosed(id) =>
        if id in owed {
          HandlerClose(id);
        }
      case ReadNoted(id, n) => NoteReported(id, n);
    }

    /** A handler reports no more than it has read. */
    method NoteReported(id: int, n: nat)
      requires Valid() && !panicked
      modifies this`streams, this`owed, this`inflow, this`panicked
      ensures panicked ==> connWindow + late > MAX_INT32
      ensures !panicked ==> Valid() && Now() == OnNoted(old(Now()), id, n)
      ensures forall i :: State(i) == old(State(i))
      ensures panicked <==> OnNoted(old(Now()), id, n).inflow > MAX_INT32
    {
      hide Tabled, SendSide, ReceiveSide, Bodied, StateOf, Now, OnNoted;
      NowIs();
      OwedIs(Now(), ReadNoted(id, n));
      if id in owed && n <= owed[id] {
        NotedIs(Now(), id, n);
        NoteBodyRead(id, n);
        NowIs();
      }
    }

    lemma GoneClosed(id: int)
      requires Valid() && id in owed && id !in streams
      ensures State(id) == Closed
    {
      hide Counted, Bodied, SendLedger, TotalSent, Intake.Balanced, Split;
      UsedGone(streams, owed, maxClientStreamID, maxPushPromiseID, id);
    }

    /** A frame went out, or is about to. The scheduler sends what the windows
        allow. */
    method WriteStep(s: Step) returns (alive: bool)
      requires Valid() && !panicked
      requires s.EndWritten? || s.ResetWritten? || s.PanicWritten? || s.PushPromise? || s.DataSent?
      modifies this
      ensures panicked ==> connWindow + late > MAX_INT32
      ensures !panicked ==> Valid()
      ensures alive <==> !Misses(old(Now()), s)
      ensures forall id :: Forward(old(State(id)), State(id))
      ensures forall id :: id in retired ==> id in old(retired) || Closes(s, id)
      ensures late == old(late)
      ensures !panicked ==> Now() == OnOther(Cfg(), old(Now()), s)
      ensures panicked <==> OnOther(Cfg(), old(Now()), s).inflow > MAX_INT32
    {
      hide Tabled, SendSide, ReceiveSide, Bodied, StateOf, OnEndWritten, Close, OnPromise, OnSend, Now;
      NowIs();
      alive := true;
      match s
      case EndWritten(id) => WroteEndStream(id);
      case ResetWritten(id) => WroteReset(id);
      case PanicWritten(id) => alive := WroteHandlerPanic(id);
      case PushPromise(parent) =>
        PromiseRoom(Cfg(), Now(), parent);
        var _ := Promise(parent);
      case DataSent(id, n) =>
        SendRoom(Now(), id, n);
        SendAllowed(id, n);
    }

    /** The scheduler never takes more than both windows allow. */
    method SendAllowed(id: int, n: nat)
      requires Valid()
      modifies this`streams, this`flow, this`sent
      ensures Valid() && Now() == OnSend(old(Now()), id, n)
      ensures forall i :: State(i) == old(State(i))
    {
      hide Tabled, SendSide, ReceiveSide, Bodied, StateOf, OnSend, Now;
      NowIs();
      SendRoom(Now(), id, n);
      if id in streams && n <= streams[id].flow && n <= flow {
        SendIs(Now(), id, n);
        Send(id, n);
        NowIs();
      }
    }

    /** One step of the serve loop or of a handler. */
    method Take(s: Step) returns (alive: bool)
      requires Valid() && !panicked && s.Formed()
      modifies this
      ensures panicked ==> connWindow + late > MAX_INT32
      ensures alive ==> !panicked && Valid()
      ensures alive || panicked || s.PanicWritten?
      ensures forall id :: Forward(old(State(id)), State(id))
      ensures forall id :: id in retired ==> id in old(retired) || Closes(s, id)
      ensures old(late) <= late <= old(late) + if s.BodyRead? && s.id in old(retired) then s.cap else 0
      ensures late > old(late) ==> s.BodyRead? && old(State(s.id)) == Closed
      ensures panicked <==> Refilled(Cfg(), old(Now()), s) > MAX_INT32
      ensures alive <==> !panicked && !Misses(old(Now()), s)
      ensures alive ==> Next(Cfg(), old(Now()), s, Now())
    {
      hide Tabled, SendSide, ReceiveSide, Bodied, StateOf, Now, Answered, OnOther, Answer, OnReset;
      NowIs();
      alive := true;
      if IsFrame(s) {
        var err := ProcessFrame(s);
        if !panicked {
          React(err);
        }
      } else if s.BodyRead? || s.BodyClosed? || s.ReadNoted? {
        HandlerStep(s);
      } else if s.ClientGone? {
        GoneIs(Cfg(), Now());
        CloseAll();
      } else {
        alive := WriteStep(s);
      }
      alive := alive && !panicked;
    }

    /** Any run, in any order, of frames, finished writes, pushes and handlers goes through
        the states that the steps call for, up to a step that is fatal. Every stream only
        moves forward, so an id once closed stays closed; the counters, the bodies and both
        window ledgers hold throughout; and giving back too much takes handlers that read
        bodies after steps that close their streams, and enough of such reads to fill the room
        above the window. */
    method Run(steps: seq<Step>) returns (alive: bool, ghost states: seq<Snapshot>)
      requires Valid() && !panicked && connWindow + late <= MAX_INT32
      requires forall s :: s in steps ==> s.Formed()
      modifies this
      ensures alive ==> Valid() && !panicked
      ensures late <= old(late) + LateBytes(steps, old(retired.Keys))
      ensures panicked ==> late > old(late) && connWindow + old(late) + LateBytes(steps, old(retired.Keys)) > MAX_INT32
      ensures panicked ==>
                exists i :: 0 <= i < |steps| && steps[i].BodyRead? && Shut(steps[..i], old(retired.Keys), steps[i].id)
      ensures !alive && !panicked ==> exists s :: s in steps && s.PanicWritten?
      ensures forall id :: Forward(old(State(id)), State(id))
      ensures IsRun(Cfg(), steps, states) && states[0] == old(Now())
      ensures alive ==> |states| == |steps| + 1 && states[|steps|] == Now()
      ensures !alive ==>
                && |states| <= |steps|
                && var a, s := states[|states| - 1], steps[|states| - 1];
                   Misses(a, s) || Refilled(Cfg(), a, s) > MAX_INT32
    {
      hide Counted, Bodied, SendLedger, TotalSent, FromClient, Intake.Balanced, Split, Used, Tabled, SendSide,
           ReceiveSide;
      hide LateBytes, Shut, IsRun, Next, Refilled, Misses, Now;
      alive := true;
      states := [Now()];
      RunStart(Cfg(), steps, Now());
      ghost var gone := retired.Keys;
      LateNone(gone);
      for i := 0 to |steps|
        invariant alive && Valid() && !panicked
        invariant old(late) <= late <= old(late) + LateBytes(steps[..i], gone)
        invariant forall id :: id in retired ==> Shut(steps[..i], gone, id)
        invariant forall id :: Forward(old(State(id)), State(id))
        invariant |states| == i + 1 && states[0] == old(Now()) && states[i] == Now() && IsRun(Cfg(), steps, states)
      {
        label Before:
        assert steps[i] in steps;
        alive := Take(steps[i]);
        forall id ensures Forward(old(State(id)), State(id)) {
          ForwardTrans(old(State(id)), old@Before(State(id)), State(id));
        }
        LateNext(steps, gone, i);
        if !alive {
          LateGrows(steps, gone, i + 1);
          if panicked {
            LateWitness(steps, gone);
          }
          return;
        }
        RunNext(Cfg(), steps, states, Now());
        states := states + [Now()];
        forall id | id in retired ensures Shut(steps[..i + 1], gone, id) {
          ShutNext(steps, gone, i, id);
        }
      }
      assert steps[..|steps|] == steps;
    }

    /** A body read after its stream closed is given back twice. */
    method ReadAfterClose(id: int)
      requires Valid() && !panicked && id in streams && streams[id].body.Body? && !streams[id].body.broken
      requires inflow + streams[id].body.len <= MAX_INT32
      modifies this
      ensures late == old(late + streams[id].body.len)
      ensures panicked <==> old(inflow + 2 * streams[id].body.len) > MAX_INT32
      ensures !panicked ==> inflow == old(inflow + 2 * streams[id].body.len)
    {
      hide Counted, Split, Used, SendSide, ReceiveSide, State, Bodied;
      SplitKeys(streams, retired, owed, sent);
      var n := streams[id].body.len;
      CloseStream(id);
      var m := HandlerRead(id, n);
      NoteBodyRead(id, n);
    }
  }

  /** A connection that has received one byte for the stream it just opened. */
  method OneByteIn(window: int32) returns (c: Conn)
    requires DEFAULT_WINDOW <= window
    ensures fresh(c) && c.Valid() && !c.panicked && c.late == 0 && c.inflow == window - 1
    ensures 1 in c.streams && c.streams[1].body == Body(1, false, false)
  {
    hide Bodied, Conn.Tabled, Conn.SendSide, Conn.ReceiveSide, Conn.State;
    c := new Conn(1, window, window);
    var err := c.OpenRequest(Headers(1, false, false, false, false, -1));
    err := c.AcceptData(1, 1, 1);
  }

  /** With the window at its largest, one byte read late is fatal. */
  method LateReadIsFatal() returns (c: Conn)
    ensures c.panicked && c.late == 1
  {
    c := OneByteIn(MAX_INT32);
    hide *;
    c.ReadAfterClose(1);
  }

  /** A client that resets a stream while its handler panics: when the reset that the
      panic caused has been written, the loop looks for a stream that is gone. */
  method PanicFindsNoStream() returns (c: Conn, ok: bool)
    ensures c.Valid() && !c.panicked && !ok
  {
    hide Bodied, Conn.Tabled, Conn.SendSide, Conn.ReceiveSide, Conn.State;
    c := new Conn(1, DEFAULT_WINDOW, DEFAULT_WINDOW);
    var err := c.OpenRequest(Headers(1, false, false, false, false, -1));
    err := c.ProcessReset(1);
    ok := c.WroteHandlerPanic(1);
  }
}
