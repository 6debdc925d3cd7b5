/** Whole runs of the priority scheduler, as sequences of books. */
module PriorityTraces {
  import opened Common
  import opened Flow
  import opened Frames
  import opened FrameLog
  import opened Forest
  import opened PriorityModel
  import opened PriorityCounts
  import opened PriorityNode
  import opened PriorityScheduler
  import opened PriorityBooks
  import opened PriorityKeeps
  import opened PriorityLaws
  import opened PriorityFinds
  import opened PriorityLedger

  // ---------- the user's side ----------

  /** The ids opened so far (stream 0 is always there), named by PRIORITY frames so
      far, and open now. */
  function Used(steps: seq<Step>): set<int> {
    if steps == [] then {0} else UsedAfter(steps[|steps| - 1], Used(steps[..|steps| - 1]))
  }

  function Ranked(steps: seq<Step>): set<int> {
    if steps == [] then {} else AdjustedAfter(steps[|steps| - 1], Ranked(steps[..|steps| - 1]))
  }

  function Live(steps: seq<Step>): set<int> {
    if steps == [] then {} else LiveAfter(steps[|steps| - 1], Live(steps[..|steps| - 1]))
  }

  ghost predicate AllLawful(steps: seq<Step>) {
    forall i :: 0 <= i < |steps| ==> Lawful(steps[i], Used(steps[..i]), Live(steps[..i]))
  }

  /** No stream gets a priority before it is opened. */
  ghost predicate NoIdleFirst(steps: seq<Step>) {
    forall i :: 0 <= i < |steps| && steps[i].Opening? ==> steps[i].id !in Ranked(steps[..i])
  }

  lemma StepSets(steps: seq<Step>, i: nat)
    requires i < |steps|
    ensures Used(steps[..i + 1]) == UsedAfter(steps[i], Used(steps[..i]))
    ensures Ranked(steps[..i + 1]) == AdjustedAfter(steps[i], Ranked(steps[..i]))
    ensures Live(steps[..i + 1]) == LiveAfter(steps[i], Live(steps[..i]))
  {
    var s := steps[..i + 1];
    assert s[|s| - 1] == steps[i] && s[..|s| - 1] == steps[..i];
  }

  // ---------- traces ----------

  /** The root alone. */
  ghost predicate IsStart(b: Books) {
    var r: Node := b.tree.root;
    && r.id == 0 && OnlyRoot(b.tree)
    && b.states == map[r := Open] && b.queues == map[r := []] && b.first == map[r := None]
    && b.closed == [] && b.idle == [] && b.maxID == 0 && b.weights == map[r := 0]
  }

  ghost predicate OnlyRoot(t: Tree<Node>) {
    && t.all == {t.root} && t.parent == map[] && t.nodes == map[0 := t.root]
    && t.bytes == map[t.root := 0] && t.subtree == map[t.root := 0]
  }

  /** The books before the first call and after each call that was made. */
  ghost predicate IsTrace(lim: Limits, steps: seq<Step>, books: seq<Books>, outs: seq<Option<Sending>>) {
    && |books| == |outs| + 1 && |outs| <= |steps|
    && IsStart(books[0])
    && (forall i :: 0 <= i < |books| ==> Sound(books[i]))
    && (forall i :: 0 <= i < |outs| ==> Next(books[i], lim, steps[i], outs[i], books[i + 1]))
  }

  lemma StartInv(b: Books)
    requires IsStart(b) && Sound(b)
    ensures Inv(b, {0}, {}, {}) && Healthy(b.tree) && Exact(b.tree)
    ensures KeepsOpen(b, {}) && IdleShut(b) && Findable(b) && Ledger([], b)
  {
    LedgerStart(b);
    StartTree(b.tree);
    hide Ledger, Healthy, Exact, Sound;
  }

  lemma StartTree(t: Tree<Node>)
    requires WellFormed(t) && OnlyRoot(t)
    ensures Healthy(t) && Exact(t)
  {
    var r := t.root;
    ReachesSelf(t.parent, r);
    assert Below(t.parent, t.all, r) == {r};
    SumPick(t.bytes, {r}, r);
    assert Tracked(t, r) by {
      assert 0 in t.nodes;
    }
  }

  /** The invariant holds throughout. */
  lemma {:induction false} TraceInv(lim: Limits, steps: seq<Step>, books: seq<Books>, outs: seq<Option<Sending>>,
                                    k: nat)
    requires AllLawful(steps) && IsTrace(lim, steps, books, outs) && k < |books|
    ensures Inv(books[k], Used(steps[..k]), Ranked(steps[..k]), Live(steps[..k]))
    decreases k
  {
    hide Inv, Sound, Next, Lawful, IsStart, Used, Ranked, Live, UsedAfter, AdjustedAfter, LiveAfter;
    if k == 0 {
      StartInv(books[0]);
      NoSteps(steps);
    } else {
      TraceInv(lim, steps, books, outs, k - 1);
      StepSets(steps, k - 1);
      StepInv(books[k - 1], lim, steps[k - 1], outs[k - 1], books[k],
              Used(steps[..k - 1]), Ranked(steps[..k - 1]), Live(steps[..k - 1]));
    }
  }

  lemma NoSteps(steps: seq<Step>)
    ensures Used(steps[..0]) == {0} && Ranked(steps[..0]) == {} && Live(steps[..0]) == {}
  {
  }

  // ---------- the tree and its counters ----------

  ghost predicate AllHealthy(books: seq<Books>, k: nat) {
    forall i :: 0 <= i <= k && i < |books| ==> Healthy(books[i].tree)
  }

  ghost predicate AllExact(books: seq<Books>, k: nat) {
    forall i :: 0 <= i <= k && i < |books| ==> Exact(books[i].tree)
  }

  ghost predicate AllHarmless(lim: Limits, steps: seq<Step>, books: seq<Books>, k: nat) {
    forall i :: 0 <= i < k && i < |books| && i < |steps| ==> Harmless(books[i], lim, steps[i])
  }

  ghost predicate AllMild(lim: Limits, steps: seq<Step>, books: seq<Books>, k: nat) {
    forall i :: 0 <= i < k && i < |books| && i < |steps| ==> Mild(books[i], lim, steps[i])
  }

  ghost predicate AllSettled(lim: Limits, steps: seq<Step>, books: seq<Books>, k: nat) {
    forall i :: 0 <= i < k && i < |books| && i < |steps| ==> Sound(books[i]) && Settled(books[i], lim, steps[i])
  }

  ghost predicate AllUnmoved(lim: Limits, steps: seq<Step>, books: seq<Books>, k: nat) {
    forall i :: 0 <= i < k && i < |books| && i < |steps| ==> Sound(books[i]) && Unmoved(books[i], lim, steps[i])
  }

  /** In every run: the tree is healthy at all times exactly if every eviction is harmless. */
  lemma {:induction false} HealthyRun(lim: Limits, steps: seq<Step>, books: seq<Books>, outs: seq<Option<Sending>>,
                                      k: nat)
    requires AllLawful(steps) && IsTrace(lim, steps, books, outs) && k <= |outs|
    ensures AllHealthy(books, k) <==> AllHarmless(lim, steps, books, k)
    decreases k
  {
    hide Healthy, Harmless, Inv, Sound, Next, Lawful, IsStart;
    if k == 0 {
      StartInv(books[0]);
    } else {
      HealthyRun(lim, steps, books, outs, k - 1);
      TraceInv(lim, steps, books, outs, k - 1);
      if AllHealthy(books, k - 1) {
        HealthStep(books[k - 1], lim, steps[k - 1], outs[k - 1], books[k],
                   Used(steps[..k - 1]), Ranked(steps[..k - 1]), Live(steps[..k - 1]));
      }
      assert AllHealthy(books, k) <==> AllHealthy(books, k - 1) && Healthy(books[k].tree);
    }
  }

  /** In every run with harmless evictions: all counters are right at all times exactly if
      every PRIORITY frame settles. */
  lemma {:induction false} ExactRun(lim: Limits, steps: seq<Step>, books: seq<Books>, outs: seq<Option<Sending>>,
                                    k: nat)
    requires AllLawful(steps) && IsTrace(lim, steps, books, outs) && k <= |outs| && AllHealthy(books, k)
    ensures AllExact(books, k) <==> AllSettled(lim, steps, books, k)
    decreases k
  {
    hide Healthy, Exact, Harmless, Settled, Inv, Sound, Next, Lawful, IsStart;
    if k == 0 {
      StartInv(books[0]);
    } else {
      ExactRun(lim, steps, books, outs, k - 1);
      TraceInv(lim, steps, books, outs, k - 1);
      HealthyRun(lim, steps, books, outs, k);
      if AllExact(books, k - 1) {
        ExactStep(books[k - 1], lim, steps[k - 1], outs[k - 1], books[k],
                  Used(steps[..k - 1]), Ranked(steps[..k - 1]), Live(steps[..k - 1]));
      }
      assert AllExact(books, k) <==> AllExact(books, k - 1) && Exact(books[k].tree);
    }
  }

  /** Evicting only nodes that are not open and have at most one kid is harmless. */
  lemma MildRun(lim: Limits, steps: seq<Step>, books: seq<Books>, outs: seq<Option<Sending>>, k: nat)
    requires AllLawful(steps) && IsTrace(lim, steps, books, outs) && k <= |outs| && AllMild(lim, steps, books, k)
    ensures AllHarmless(lim, steps, books, k)
  {
    hide Harmless, Mild, Sound, Next, Lawful, IsStart;
    forall i | 0 <= i < k ensures Harmless(books[i], lim, steps[i]) {
      TraceInv(lim, steps, books, outs, i);
      MildHarmless(books[i], lim, steps[i]);
    }
  }

  /** If no PRIORITY frame changes a parent, all counters are right. */
  lemma {:induction false} UnmovedRun(lim: Limits, steps: seq<Step>, books: seq<Books>, outs: seq<Option<Sending>>,
                                      k: nat)
    requires AllLawful(steps) && IsTrace(lim, steps, books, outs) && k <= |outs| && AllHealthy(books, k)
    requires AllUnmoved(lim, steps, books, k)
    ensures AllSettled(lim, steps, books, k)
    decreases k
  {
    hide Healthy, Exact, Harmless, Settled, Unmoved, Inv, Sound, Next, Lawful, IsStart;
    if k > 0 {
      UnmovedRun(lim, steps, books, outs, k - 1);
      TraceInv(lim, steps, books, outs, k - 1);
      HealthyRun(lim, steps, books, outs, k);
      ExactRun(lim, steps, books, outs, k - 1);
      UnmovedSettles(books[k - 1], lim, steps[k - 1], outs[k - 1], books[k],
                     Used(steps[..k - 1]), Ranked(steps[..k - 1]), Live(steps[..k - 1]));
    }
  }

  // ---------- open streams ----------

  ghost predicate NoDrops(lim: Limits, steps: seq<Step>, books: seq<Books>, k: nat) {
    forall i :: 0 <= i < k && i < |books| && i < |steps| ==> !DropsOpen(books[i], lim, steps[i])
  }

  /** A stream dropped while open stays lost for as long as the run goes on. */
  lemma {:induction false} LostStays(lim: Limits, steps: seq<Step>, books: seq<Books>, outs: seq<Option<Sending>>,
                                     j: nat, k: nat, id: int)
    requires AllLawful(steps) && IsTrace(lim, steps, books, outs) && j <= k <= |outs|
    requires id in Live(steps[..j]) && id !in books[j].tree.nodes && id <= books[j].maxID
    ensures id in Live(steps[..k]) && id !in books[k].tree.nodes && id <= books[k].maxID
    decreases k
  {
    hide Sound, Orderly, Traced, OpenLive, Anchored, Addressed, Next, IsStart, Used, Ranked, Live;
    if j < k {
      LostStays(lim, steps, books, outs, j, k - 1, id);
      TraceInv(lim, steps, books, outs, k - 1);
      StepSets(steps, k - 1);
      GoneStays(books[k - 1], lim, steps[k - 1], outs[k - 1], books[k], id);
    }
  }

  /** In every run: the open streams are all tracked exactly if none was evicted. */
  lemma {:induction false} OpenRun(lim: Limits, steps: seq<Step>, books: seq<Books>, outs: seq<Option<Sending>>, k: nat)
    requires AllLawful(steps) && IsTrace(lim, steps, books, outs) && k <= |outs|
    ensures KeepsOpen(books[k], Live(steps[..k])) <==> NoDrops(lim, steps, books, k)
    decreases k
  {
    hide DropsOpen, Inv, Sound, Next, Lawful, IsStart, Used, Ranked, Live, LiveAfter;
    if k == 0 {
      StartInv(books[0]);
      NoSteps(steps);
    } else {
      OpenRun(lim, steps, books, outs, k - 1);
      TraceInv(lim, steps, books, outs, k - 1);
      StepSets(steps, k - 1);
      if NoDrops(lim, steps, books, k - 1) {
        KeepStep(books[k - 1], lim, steps[k - 1], outs[k - 1], books[k],
                 Used(steps[..k - 1]), Ranked(steps[..k - 1]), Live(steps[..k - 1]));
      } else {
        var j :| 0 <= j < k - 1 && DropsOpen(books[j], lim, steps[j]);
        TraceInv(lim, steps, books, outs, j);
        StepSets(steps, j);
        var id := DropGone(books[j], lim, steps[j], outs[j], books[j + 1],
                           Used(steps[..j]), Ranked(steps[..j]), Live(steps[..j]));
        LostStays(lim, steps, books, outs, j + 1, k, id);
      }
    }
  }

  lemma {:induction false} ShutRun(lim: Limits, steps: seq<Step>, books: seq<Books>, outs: seq<Option<Sending>>, k: nat)
    requires AllLawful(steps) && IsTrace(lim, steps, books, outs) && k <= |outs| && NoIdleFirst(steps)
    ensures IdleShut(books[k]) && NoDrops(lim, steps, books, k)
    decreases k
  {
    hide DropsOpen, Inv, Sound, Next, Lawful, IsStart, Used, Ranked, Live, IdleShut;
    if k == 0 {
      StartInv(books[0]);
    } else {
      ShutRun(lim, steps, books, outs, k - 1);
      TraceInv(lim, steps, books, outs, k - 1);
      ShutStep(books[k - 1], lim, steps[k - 1], outs[k - 1], books[k],
               Used(steps[..k - 1]), Ranked(steps[..k - 1]), Live(steps[..k - 1]));
    }
  }

  // ---------- queued frames ----------

  ghost predicate AllFindable(books: seq<Books>, k: nat) {
    forall i :: 0 <= i <= k && i < |books| ==> Findable(books[i])
  }

  ghost predicate AllFinds(lim: Limits, steps: seq<Step>, books: seq<Books>, k: nat) {
    forall i :: 0 <= i < k && i < |books| && i < |steps| ==> Finds(books[i], lim, steps[i])
  }

  /** In every run: every queued frame is within the scheduler's reach at all times exactly
      if no call leaves a waiting frame off the root. */
  lemma {:induction false} FindRun(lim: Limits, steps: seq<Step>, books: seq<Books>, outs: seq<Option<Sending>>, k: nat)
    requires AllLawful(steps) && IsTrace(lim, steps, books, outs) && k <= |outs|
    ensures AllFindable(books, k) <==> AllFinds(lim, steps, books, k)
    decreases k
  {
    hide Findable, Finds, Inv, Sound, Next, Lawful, IsStart;
    if k == 0 {
      StartInv(books[0]);
    } else {
      FindRun(lim, steps, books, outs, k - 1);
      TraceInv(lim, steps, books, outs, k - 1);
      if AllFindable(books, k - 1) {
        FindStep(books[k - 1], lim, steps[k - 1], outs[k - 1], books[k],
                 Used(steps[..k - 1]), Ranked(steps[..k - 1]), Live(steps[..k - 1]));
      }
      assert AllFindable(books, k) <==> AllFindable(books, k - 1) && Findable(books[k]);
    }
  }

  /** What the calls pushed, popped and dropped. */
  ghost function LogOf(lim: Limits, steps: seq<Step>, books: seq<Books>, outs: seq<Option<Sending>>, k: nat): seq<Event>
    requires k <= |steps| && k <= |books| && k <= |outs|
  {
    if k == 0 then []
    else LogOf(lim, steps, books, outs, k - 1) + Logged(books[k - 1], lim, steps[k - 1], outs[k - 1])
  }

  /** In every run: for each stream, the content written, then the content queued, is the
      content pushed since its queue was last dropped, in order. */
  lemma {:induction false} LedgerRun(lim: Limits, steps: seq<Step>, books: seq<Books>, outs: seq<Option<Sending>>,
                                     k: nat)
    requires AllLawful(steps) && IsTrace(lim, steps, books, outs) && k <= |outs|
    ensures Ledger(LogOf(lim, steps, books, outs, k), books[k])
    decreases k
  {
    hide Ledger, Logged, Inv, Sound, Next, Lawful, IsStart;
    if k == 0 {
      StartInv(books[0]);
    } else {
      LedgerRun(lim, steps, books, outs, k - 1);
      TraceInv(lim, steps, books, outs, k - 1);
      LedgerStep(LogOf(lim, steps, books, outs, k - 1), books[k - 1], lim, steps[k - 1], outs[k - 1], books[k],
                 Used(steps[..k - 1]), Ranked(steps[..k - 1]), Live(steps[..k - 1]));
    }
  }

  // ---------- runs within the limits ----------

  ghost predicate NoVictims(lim: Limits, steps: seq<Step>, books: seq<Books>, k: nat) {
    forall i :: 0 <= i < k && i < |books| && i < |steps| ==> Victim(books[i], lim, steps[i]).None?
  }

  lemma ListStep(b: Books, lim: Limits, s: Step, o: Option<Sending>, c: Books)
    requires Next(b, lim, s, o, c)
    ensures |c.closed| <= |b.closed| + 1 && |c.idle| <= |b.idle| + 1
  {
    hide Victim, Bump, Adjusted, Mid, Evicted, Reaches, Heads, Creates;
  }

  lemma {:induction false} RoomRun(lim: Limits, steps: seq<Step>, books: seq<Books>, outs: seq<Option<Sending>>, k: nat)
    requires IsTrace(lim, steps, books, outs) && k <= |outs| && |steps| <= lim.closed && |steps| <= lim.idle
    ensures |books[k].closed| <= k && |books[k].idle| <= k && NoVictims(lim, steps, books, k)
    decreases k
  {
    hide Sound, Next, IsStart;
    if k == 0 {
      StartLists(books[0]);
    } else {
      RoomRun(lim, steps, books, outs, k - 1);
      ListStep(books[k - 1], lim, steps[k - 1], outs[k - 1], books[k]);
    }
  }

  lemma StartLists(b: Books)
    requires IsStart(b)
    ensures b.closed == [] && b.idle == []
  {
  }

  // ---------- all of it ----------

  /** The source panics: the stream to close, or to queue data for, is not there. */
  ghost predicate Panics(b: Books, s: Step) {
    match s
    case Closing(id) => id !in b.tree.nodes || b.tree.nodes[id] !in b.states || !b.states[b.tree.nodes[id]].Open?
    case Queueing(wr) => wr.DataSize() > 0 && wr.StreamID() !in b.tree.nodes
    case _ => false
  }

  /** A lawful call panics only for an open stream that is no longer tracked. */
  lemma PanicLost(b: Books, s: Step, used: set<int>, adjusted: set<int>, live: set<int>)
    requires Inv(b, used, adjusted, live) && Lawful(s, used, live) && Panics(b, s)
    ensures !KeepsOpen(b, live)
  {
    hide Sound, Orderly, Traced, Anchored, Addressed;
    if s.Closing? && s.id in b.tree.nodes {
      LiveMeans(b, s.id, live);
    }
  }

  lemma MildKeeps(b: Books, lim: Limits, s: Step)
    requires Mild(b, lim, s)
    ensures !DropsOpen(b, lim, s)
  {
    hide KidsOf, Victim;
  }

  lemma VictimlessMild(b: Books, lim: Limits, s: Step)
    requires Victim(b, lim, s).None?
    ensures Mild(b, lim, s) && !DropsOpen(b, lim, s)
  {
    hide KidsOf, Victim;
  }

  lemma MildDrops(lim: Limits, steps: seq<Step>, books: seq<Books>, k: nat)
    requires AllMild(lim, steps, books, k)
    ensures NoDrops(lim, steps, books, k)
  {
    hide Mild, DropsOpen;
    forall i | 0 <= i < k && i < |books| && i < |steps| ensures !DropsOpen(books[i], lim, steps[i]) {
      MildKeeps(books[i], lim, steps[i]);
    }
  }

  lemma RoomMild(lim: Limits, steps: seq<Step>, books: seq<Books>, k: nat)
    requires NoVictims(lim, steps, books, k)
    ensures AllMild(lim, steps, books, k) && NoDrops(lim, steps, books, k)
  {
    hide Mild, DropsOpen, Victim;
    forall i | 0 <= i < k && i < |books| && i < |steps|
      ensures Mild(books[i], lim, steps[i]) && !DropsOpen(books[i], lim, steps[i])
    {
      VictimlessMild(books[i], lim, steps[i]);
    }
  }

  /** The frames that a trace writes. */
  ghost function FramesOf(outs: seq<Option<Sending>>): seq<FrameWriteRequest> {
    if outs == [] then [] else
      FramesOf(outs[..|outs| - 1]) + var o := outs[|outs| - 1]; if o.Some? then [o.value.frame] else []
  }

  lemma FramesMore(outs: seq<Option<Sending>>, o: Option<Sending>)
    ensures FramesOf(outs + [o]) == if o.Some? then FramesOf(outs) + [o.value.frame] else FramesOf(outs)
    ensures FramesOf([]) == []
  {
    assert (outs + [o])[..|outs|] == outs;
  }

  lemma LoggedWrites(b: Books, lim: Limits, s: Step, o: Option<Sending>, c: Books)
    requires Next(b, lim, s, o, c)
    ensures Written(Logged(b, lim, s, o)) == if o.Some? then [o.value.frame] else []
  {
    hide AtRoot, Own, Victim, NextOpen, NextClose, NextIntroduce, NextRank, NextPush, NextSend, NextNone, Creates;
    var log := Logged(b, lim, s, o);
    assert log != [] ==> Written(log[1..]) == [] by {
      if |log| == 2 {
        assert log[1..][1..] == [];
      } else if |log| == 1 {
        assert log[1..] == [];
      }
    }
  }

  /** The log holds the frames that were written, one by one. */
  lemma {:induction false} LogFrames(lim: Limits, steps: seq<Step>, books: seq<Books>, outs: seq<Option<Sending>>,
                                     k: nat)
    requires IsTrace(lim, steps, books, outs) && k <= |outs|
    ensures Written(LogOf(lim, steps, books, outs, k)) == FramesOf(outs[..k])
    decreases k
  {
    hide Sound, Next, IsStart, Logged, Written, FramesOf;
    if k == 0 {
      FramesMore([], None);
      assert outs[..0] == [];
      WrittenNone();
    } else {
      LogFrames(lim, steps, books, outs, k - 1);
      LoggedWrites(books[k - 1], lim, steps[k - 1], outs[k - 1], books[k]);
      WrittenMore(LogOf(lim, steps, books, outs, k - 1), Logged(books[k - 1], lim, steps[k - 1], outs[k - 1]));
      FramesMore(outs[..k - 1], outs[k - 1]);
      assert outs[..k] == outs[..k - 1] + [outs[k - 1]];
    }
  }

  lemma TraceStart(lim: Limits, steps: seq<Step>, b: Books)
    requires IsStart(b) && Sound(b)
    ensures IsTrace(lim, steps, [b], []) && FramesOf([]) == []
  {
    hide IsStart, Sound;
  }

  lemma TraceMore(lim: Limits, steps: seq<Step>, books: seq<Books>, outs: seq<Option<Sending>>, o: Option<Sending>,
                  c: Books)
    requires IsTrace(lim, steps, books, outs) && |outs| < |steps| && Sound(c)
    requires Next(books[|outs|], lim, steps[|outs|], o, c)
    ensures IsTrace(lim, steps, books + [c], outs + [o])
  {
    hide IsStart, Sound, Next;
  }

  lemma LawfulAt(steps: seq<Step>, i: nat)
    requires AllLawful(steps) && i < |steps|
    ensures Lawful(steps[i], Used(steps[..i]), Live(steps[..i]))
  {
  }

  /** What holds in every run of a user that keeps to the interface. */
  ghost predicate RunLaws(lim: Limits, steps: seq<Step>, books: seq<Books>, outs: seq<Option<Sending>>)
    requires IsTrace(lim, steps, books, outs)
  {
    var k := |outs|;
    // every tracked stream hangs from the root, and the root counts all that was sent
    && (AllHealthy(books, k) <==> AllHarmless(lim, steps, books, k))
    && (AllMild(lim, steps, books, k) ==> AllHarmless(lim, steps, books, k) && NoDrops(lim, steps, books, k))
    // and every node counts what its subtree sent
    && (AllHealthy(books, k) ==>
          && (AllExact(books, k) <==> AllSettled(lim, steps, books, k))
          && (AllUnmoved(lim, steps, books, k) ==> AllSettled(lim, steps, books, k)))
    // the open streams are tracked, and then nothing panics
    && (KeepsOpen(books[k], Live(steps[..k])) <==> NoDrops(lim, steps, books, k))
    && (NoDrops(lim, steps, books, k) && k < |steps| ==> !Panics(books[k], steps[k]))
    && (NoIdleFirst(steps) ==> NoDrops(lim, steps, books, k))
    // every queued frame can be found, and goes in its turn
    && (AllFindable(books, k) <==> AllFinds(lim, steps, books, k))
    && Ledger(LogOf(lim, steps, books, outs, k), books[k])
    && Written(LogOf(lim, steps, books, outs, k)) == FramesOf(outs)
    // nothing is evicted while the lists have room
    && (|steps| <= lim.closed && |steps| <= lim.idle ==>
          NoVictims(lim, steps, books, k) && AllMild(lim, steps, books, k) && NoDrops(lim, steps, books, k))
  }

  lemma AllLaws(lim: Limits, steps: seq<Step>, books: seq<Books>, outs: seq<Option<Sending>>)
    requires AllLawful(steps) && IsTrace(lim, steps, books, outs)
    ensures RunLaws(lim, steps, books, outs)
  {
    hide AllHealthy, AllExact, AllHarmless, AllMild, AllSettled, AllUnmoved, NoDrops, AllFindable, AllFinds, Ledger;
    hide KeepsOpen, Live, Panics, NoIdleFirst, NoVictims, LogOf, Written, FramesOf, Sound, Next, IsStart, Inv, Lawful;
    hide AllLawful;
    var k := |outs|;
    HealthyRun(lim, steps, books, outs, k);
    if AllMild(lim, steps, books, k) {
      MildRun(lim, steps, books, outs, k);
      MildDrops(lim, steps, books, k);
    }
    if AllHealthy(books, k) {
      ExactRun(lim, steps, books, outs, k);
      if AllUnmoved(lim, steps, books, k) {
        UnmovedRun(lim, steps, books, outs, k);
      }
    }
    OpenRun(lim, steps, books, outs, k);
    if k < |steps| && Panics(books[k], steps[k]) {
      TraceInv(lim, steps, books, outs, k);
      LawfulAt(steps, k);
      PanicLost(books[k], steps[k], Used(steps[..k]), Ranked(steps[..k]), Live(steps[..k]));
    }
    if NoIdleFirst(steps) {
      ShutRun(lim, steps, books, outs, k);
    }
    FindRun(lim, steps, books, outs, k);
    LedgerRun(lim, steps, books, outs, k);
    LogFrames(lim, steps, books, outs, k);
    if |steps| <= lim.closed && |steps| <= lim.idle {
      RoomRun(lim, steps, books, outs, k);
      RoomMild(lim, steps, books, k);
    }
    assert outs[..k] == outs;
  }
}
