/** The scheduler on the heap goes through the books' steps: whole runs, under callers that
    keep to its interface. */
module PriorityRuns {
  import opened Common
  import opened Flow
  import opened Frames
  import opened Forest
  import opened PriorityModel
  import opened PriorityCounts
  import opened PriorityNode
  import opened PriorityKids
  import opened PriorityScheduler
  import opened PriorityBooks
  import opened PriorityLaws
  import opened PriorityFinds
  import opened PriorityLedger
  import opened PriorityTraces

  // ---------- the scheduler's books ----------

  ghost function FirstsOf(all: set<Node>): (m: map<Node, Option<Node>>)
    reads all`kids
    ensures m.Keys == all
  {
    map n | n in all :: Kid(n.kids)
  }

  ghost function BooksOf(ws: Scheduler): Books
    reads ws, ws.all
  {
    Books(ws.View(), StatesOf(ws.all), QueuesOf(ws.all), ws.closedNodes, ws.idleNodes, FirstsOf(ws.all), ws.maxID,
          WeightsOf(ws.all))
  }

  ghost function LimitsOf(ws: Scheduler): Limits {
    Limits(ws.maxClosedNodes, ws.maxIdleNodes)
  }

  lemma LimitsMean(ws: Scheduler)
    ensures LimitsOf(ws) == Limits(ws.maxClosedNodes, ws.maxIdleNodes)
  {
  }

  lemma BooksMean(ws: Scheduler)
    ensures var b := BooksOf(ws);
            && b.tree == ws.View() && b.tree.all == ws.all && b.tree.root == ws.root && b.tree.nodes == ws.nodes
            && b.tree.parent == Parents(ws.all) && b.states == StatesOf(ws.all) && b.queues == QueuesOf(ws.all)
            && b.closed == ws.closedNodes && b.idle == ws.idleNodes && b.first == FirstsOf(ws.all)
            && b.maxID == ws.maxID && b.weights == WeightsOf(ws.all)
  {
  }

  lemma FirstAt(all: set<Node>, n: Node)
    requires n in all
    ensures n in FirstsOf(all) && FirstsOf(all)[n] == Kid(n.kids)
  {
  }

  lemma StateAt(all: set<Node>, n: Node)
    requires n in all
    ensures n in StatesOf(all) && StatesOf(all)[n] == n.state
  {
  }

  lemma QueueAt(all: set<Node>, n: Node)
    requires n in all
    ensures n in QueuesOf(all) && QueuesOf(all)[n] == n.q
  {
  }

  /** The heap's invariant, read off the books. */
  lemma BooksSound(ws: Scheduler)
    requires ws.Valid()
    ensures Sound(BooksOf(ws))
  {
    hide Queues, Links, Acyclic, WellFormed, FirstKid, Parents;
    var b := BooksOf(ws);
    ws.ValidTree();
    ws.WaitingKnown();
    forall n | n in ws.all ensures FirstKid(b.tree, n, b.first[n]) {
      ws.KidsMatch(n);
      FirstAt(ws.all, n);
    }
  }

  // ---------- call by call ----------

  lemma OpenIsNext(b: Books, lim: Limits, id: uint32, pusher: uint32, n: Node, c: Books)
    requires id in c.tree.nodes && c.tree.nodes[id] == n && n.id == id
    requires id in b.tree.nodes ==> c == b.(states := b.states[n := Open], first := c.first) && n == b.tree.nodes[id]
    requires id !in b.tree.nodes ==>
               && n !in b.tree.all
               && c == Books(Add(b.tree, id, n, Target(b, pusher)), b.states[n := Open], b.queues[n := []], b.closed,
                             b.idle, c.first, if id > b.maxID then id else b.maxID, b.weights[n := DEFAULT_WEIGHT])
    ensures Next(b, lim, Opening(id, pusher), None, c)
  {
    hide Add;
  }

  lemma TargetMeans(ws: Scheduler, id: int)
    ensures Target(BooksOf(ws), id) == if id in ws.nodes then ws.nodes[id] else ws.root
  {
  }

  method OpenStep(ws: Scheduler, id: uint32, pusher: uint32)
    requires ws.Valid() && (id in ws.nodes ==> ws.nodes[id].state.Idle?)
    modifies ws`nodes, ws`all, ws`maxID, ws.all`kids, ws.all`prev, ws.all`next, ws.all`state
    ensures ws.Valid() && fresh(ws.all - old(ws.all))
    ensures Next(old(BooksOf(ws)), LimitsOf(ws), Opening(id, pusher), None, BooksOf(ws))
  {
    hide *;
    ghost var b := BooksOf(ws);
    BooksMean(ws);
    TargetMeans(ws, pusher);
    if id in ws.nodes {
      ws.Known(id);
    }
    ws.OpenStream(id, pusher);
    BooksMean(ws);
    ws.Known(id);
    OpenIsNext(b, LimitsOf(ws), id, pusher, ws.nodes[id], BooksOf(ws));
  }

  lemma CloseIsNext(b: Books, lim: Limits, id: uint32, n: Node, v: Option<Node>, u: Tree<Node>, first: Option<Node>,
                    c: Books)
    requires id in b.tree.nodes && WellFormed(b.tree) && n == b.tree.nodes[id] && n in b.tree.all
    requires n in b.states && b.states[n].Open? && u == Bump(b.tree, n, -b.tree.bytes[n])
    requires v == if lim.closed <= 0 then Some(n) else Scheduler.Oldest(b.closed, lim.closed)
    requires v.Some? ==> v.value in b.first && b.first[v.value] == first
    requires c == Books(if v.Some? then Removed(u, v.value, first, v.value.id) else u, b.states[n := Closed],
                        b.queues[n := []],
                        if lim.closed <= 0 then b.closed else (if v.Some? then b.closed[1..] else b.closed) + [n],
                        b.idle, c.first, b.maxID, b.weights)
    ensures Next(b, lim, Closing(id), None, c)
  {
    hide Bump, Removed, WellFormed;
  }

  /** What closing n evicts, and what is handed over. */
  lemma CloseVictimMeans(ws: Scheduler, n: Node, t: Tree<Node>)
    requires ws.Valid() && n in ws.all
    ensures var v := ws.CloseVictim(n);
            && v == (if LimitsOf(ws).closed <= 0 then Some(n)
                     else Scheduler.Oldest(ws.closedNodes, LimitsOf(ws).closed))
            && (v.Some? ==> v.value in FirstsOf(ws.all) && FirstsOf(ws.all)[v.value] == ws.FirstOf(v))
            && ws.Dropped(t, v) ==
               (if v.Some? then Removed(t, v.value, ws.FirstOf(v), v.value.id) else t)
            && LimitsOf(ws).closed == ws.maxClosedNodes
  {
    hide Removed;
    var v := ws.CloseVictim(n);
    ws.WaitingKnown();
    if v.Some? {
      FirstAt(ws.all, v.value);
    }
  }

  method CloseStep(ws: Scheduler, id: uint32)
    requires ws.Valid() && id != 0 && id in ws.nodes && ws.nodes[id].state.Open?
    modifies ws`nodes, ws`closedNodes, ws.all`state, ws.all`q, ws.all`bytes, ws.all`subtreeBytes
    modifies ws.all`kids, ws.all`parent, ws.all`prev, ws.all`next, ws.all`pos
    ensures ws.Valid() && Next(old(BooksOf(ws)), LimitsOf(ws), Closing(id), None, BooksOf(ws))
  {
    hide *;
    ghost var b, n := BooksOf(ws), ws.nodes[id];
    BooksMean(ws);
    ws.Known(id);
    ws.ValidTree();
    StateAt(ws.all, n);
    BytesInView(ws, n);
    ghost var u, v := Bump(b.tree, n, -n.bytes), ws.CloseVictim(n);
    ghost var first := ws.FirstOf(v);
    CloseVictimMeans(ws, n, u);
    ws.CloseStream(id);
    BooksMean(ws);
    CloseIsNext(b, LimitsOf(ws), id, n, v, u, first, BooksOf(ws));
  }

  lemma BytesInView(ws: Scheduler, n: Node)
    requires n in ws.all
    ensures n in ws.View().bytes && ws.View().bytes[n] == n.bytes
  {
  }

  /** A PRIORITY frame that introduces a stream, seen through the books. */
  lemma IntroduceIsNext(b: Books, lim: Limits, id: uint32, priority: PriorityParam, mid: Tree<Node>,
                        first: Option<Node>, c: Books)
    requires Creates(b, lim, id) && id in c.tree.nodes && id in mid.nodes && 0 in mid.nodes
    requires var n, v := c.tree.nodes[id], Scheduler.Oldest(b.idle, lim.idle);
             && n !in b.tree.all && n.id == id && WithIdle(b.tree, id, n, v, first, mid)
             && (v.Some? ==> v.value in b.first && b.first[v.value] == first)
             && c == Books(Adjusted(mid, id, priority.streamDep, priority.exclusive), b.states[n := Idle],
                           b.queues[n := []], b.closed, (if v.Some? then b.idle[1..] else b.idle) + [n], c.first, id,
                           Scheduler.Weighed(b.weights[n := DEFAULT_WEIGHT], mid.nodes, id, priority))
    ensures Next(b, lim, Ranking(id, priority), None, c)
  {
    hide Adjusted, Add, Removed, FirstKid;
  }

  lemma RankIsNext(b: Books, lim: Limits, id: uint32, priority: PriorityParam, c: Books)
    requires !Creates(b, lim, id) && 0 in b.tree.nodes
    requires c == b.(tree := c.tree, first := c.first, weights := c.weights)
    requires if id in b.tree.nodes
             then c.tree == Adjusted(b.tree, id, priority.streamDep, priority.exclusive)
               && c.weights == Scheduler.Weighed(b.weights, b.tree.nodes, id, priority)
             else c.tree == b.tree && c.weights == b.weights
    ensures Next(b, lim, Ranking(id, priority), None, c)
  {
    hide Adjusted;
  }

  lemma CreatesMeans(ws: Scheduler, id: uint32)
    ensures ws.Creates(id) <==> Creates(BooksOf(ws), LimitsOf(ws), id)
    ensures LimitsOf(ws).idle == ws.maxIdleNodes && LimitsOf(ws).closed == ws.maxClosedNodes
  {
  }

  lemma FirstOfOldest(ws: Scheduler)
    requires ws.Valid()
    ensures var v := Scheduler.Oldest(ws.idleNodes, ws.maxIdleNodes);
            v.Some? ==>
              && ws.idleNodes != [] && v.value in FirstsOf(ws.all)
              && FirstsOf(ws.all)[v.value] == ws.FirstOf(v)
  {
    var v := Scheduler.Oldest(ws.idleNodes, ws.maxIdleNodes);
    if v.Some? {
      ws.WaitingKnown();
      FirstAt(ws.all, v.value);
    }
  }

  method RankStep(ws: Scheduler, id: uint32, priority: PriorityParam)
    requires ws.Valid() && id != 0
    modifies ws`nodes, ws`all, ws`maxID, ws`idleNodes
    modifies ws.all`kids, ws.all`parent, ws.all`prev, ws.all`next, ws.all`pos, ws.all`weight
    ensures ws.Valid() && fresh(ws.all - old(ws.all))
    ensures Next(old(BooksOf(ws)), LimitsOf(ws), Ranking(id, priority), None, BooksOf(ws))
  {
    hide *;
    ghost var b, lim := BooksOf(ws), LimitsOf(ws);
    BooksMean(ws);
    ws.RootKnown();
    CreatesMeans(ws, id);
    FirstOfOldest(ws);
    ghost var mid, first := ws.AdjustStream(id, priority);
    BooksMean(ws);
    if old(ws.Creates(id)) {
      IntroduceIsNext(b, lim, id, priority, mid, first, BooksOf(ws));
    } else {
      RankIsNext(b, lim, id, priority, BooksOf(ws));
    }
  }

  lemma PushIsNext(b: Books, lim: Limits, wr: FrameWriteRequest, c: Books)
    requires var n := Target(b, wr.StreamID()); n in b.queues && c == b.(queues := b.queues[n := b.queues[n] + [wr]])
    requires wr.DataSize() > 0 ==> wr.StreamID() in b.tree.nodes
    ensures Next(b, lim, Queueing(wr), None, c)
  {
    hide Target;
  }

  method PushStep(ws: Scheduler, wr: FrameWriteRequest)
    requires ws.Valid() && wr.Sendable() && (wr.StreamID() !in ws.nodes ==> wr.DataSize() == 0)
    modifies ws`windows, ws`conns, ws.all`q
    ensures ws.Valid() && ws.windows == old(ws.windows) + wr.Windows()
    ensures Next(old(BooksOf(ws)), LimitsOf(ws), Queueing(wr), None, BooksOf(ws))
  {
    hide *;
    ghost var b := BooksOf(ws);
    BooksMean(ws);
    ws.RootKnown();
    TargetMeans(ws, wr.StreamID());
    if wr.StreamID() in ws.nodes {
      ws.Known(wr.StreamID());
    }
    QueueAt(ws.all, if wr.StreamID() in ws.nodes then ws.nodes[wr.StreamID()] else ws.root);
    ws.Push(wr);
    BooksMean(ws);
    PushIsNext(b, LimitsOf(ws), wr, BooksOf(ws));
  }

  lemma NowMeans(ws: Scheduler)
    ensures ws.Now().tree == ws.View() && ws.Now().queues == QueuesOf(ws.all)
  {
  }

  lemma FreeReady(s: Snapshot, x: Node)
    requires x in s.queues && Free(s.queues[x])
    ensures Ready(s, x)
  {
  }

  /** Above the sender, up to the root, no frame was free to go. */
  lemma NoneFreeAbove(p: map<Node, Node>, all: set<Node>, s: Snapshot, who: Node, root: Node)
    requires s.queues.Keys == all && root !in p && Reaches(p, who, root) && NoneAboveReady(p, all, s, who, root)
    ensures forall a :: a in s.queues && a != who && Reaches(p, who, a) ==> !Free(s.queues[a])
  {
    forall a | a in s.queues && a != who && Reaches(p, who, a) ensures !Free(s.queues[a]) {
      ReachesLinear(p, who, a, root);
      ReachesStep(p, root, a);
      ReachesSelf(p, root);
      assert Above(p, who, root, a);
      if Free(s.queues[a]) {
        FreeReady(s, a);
      }
    }
  }

  lemma NoneFreeBelow(b: Books, s: Snapshot, top: Node)
    requires s.queues == b.queues && b.queues.Keys == b.tree.all && NoneReady(b.tree.parent, b.tree.all, s, top)
    ensures NoneFree(b, top)
  {
    hide Reaches;
    forall x | x in b.queues && Reaches(b.tree.parent, x, top) ensures !Free(b.queues[x]) {
      if Free(s.queues[x]) {
        FreeReady(s, x);
      }
    }
  }

  /** A fair turn, as far as frames go that need no window. */
  lemma TurnFree(b: Books, s: Snapshot, who: Node)
    requires s.queues == b.queues && b.queues.Keys == b.tree.all && s.tree == b.tree
    requires FairTurn(b.tree.parent, b.tree.all, s, b.weights, who, b.tree.root)
    ensures TakesTurn(b, who)
  {
    hide NoneReady, NoneFree, Overtakes;
    var p := b.tree.parent;
    forall x, d | x in p && d in p && Overtakes(p, b.weights, b.tree.subtree, who, b.tree.root, x, d)
      ensures NoneFree(b, d)
    {
      NoneFreeBelow(b, s, d);
    }
  }

  lemma SentIsNext(b: Books, c: Books, s: Snapshot, r: Snapshot, o: Sending)
    requires Sent(s, r, o.who, o.frame, o.last) && s.tree == b.tree && s.queues == b.queues && r.tree == c.tree
             && r.queues == c.queues
    requires c == b.(tree := c.tree, queues := c.queues, first := c.first)
    requires Reaches(b.tree.parent, o.who, b.tree.root) && TakesTurn(b, o.who)
    requires forall a :: a in b.queues && a != o.who && Reaches(b.tree.parent, o.who, a) ==> !Free(b.queues[a])
    ensures NextSend(b, o, c)
  {
    hide Heads, Free, Reaches, WellFormed, Bump, Debit, TakesTurn;
  }

  lemma SendNext(b: Books, lim: Limits, o: Sending, c: Books)
    requires NextSend(b, o, c)
    ensures Next(b, lim, Writing, Some(o), c)
  {
  }

  lemma NoneNext(b: Books, lim: Limits, c: Books)
    requires NoneFree(b, b.tree.root) && c == b.(first := c.first)
    ensures Next(b, lim, Writing, None, c)
  {
    hide NoneFree;
  }

  /** Pop, as far as the books go. */
  method PopBooks(ws: Scheduler)
    returns (wr: FrameWriteRequest, ok: bool, ghost who: Node, ghost last: bool)
    requires ws.Valid()
    modifies ws`writeThrottleLimit, ws.windows`n
    modifies ws.all`kids, ws.all`parent, ws.all`prev, ws.all`next, ws.all`pos, ws.all`q, ws.all`bytes,
             ws.all`subtreeBytes
    ensures ws.Valid()
    ensures StatesOf(ws.all) == old(StatesOf(ws.all)) && WeightsOf(ws.all) == old(WeightsOf(ws.all))
    ensures ok ==>
              && Reaches(old(ws.View()).parent, who, ws.root) && Sent(old(ws.Now()), ws.Now(), who, wr, last)
              && NoneAboveReady(old(ws.View()).parent, ws.all, old(ws.Now()), who, ws.root)
              && FairTurn(old(ws.View()).parent, ws.all, old(ws.Now()), old(WeightsOf(ws.all)), who, ws.root)
    ensures !ok ==> ws.Now() == old(ws.Now()) && NoneReady(old(ws.View()).parent, ws.all, old(ws.Now()), ws.root)
  {
    hide *;
    ws.ViewAll();
    wr, ok, who, last := ws.Pop();
  }

  method PopStep(ws: Scheduler) returns (wr: FrameWriteRequest, ok: bool, ghost o: Option<Sending>)
    requires ws.Valid()
    modifies ws`writeThrottleLimit, ws.windows`n
    modifies ws.all`kids, ws.all`parent, ws.all`prev, ws.all`next, ws.all`pos, ws.all`q, ws.all`bytes,
             ws.all`subtreeBytes
    ensures ws.Valid() && (ok <==> o.Some?) && (ok ==> o.value.frame == wr)
    ensures Next(old(BooksOf(ws)), LimitsOf(ws), Writing, o, BooksOf(ws))
  {
    hide *;
    ghost var b := BooksOf(ws);
    BooksMean(ws);
    NowMeans(ws);
    ws.ValidTree();
    TreeFacts(ws.View());
    ghost var who, last;
    wr, ok, who, last := PopBooks(ws);
    BooksMean(ws);
    NowMeans(ws);
    if ok {
      o := Some(Sending(who, wr, last));
      NoneFreeAbove(b.tree.parent, ws.all, old(ws.Now()), who, ws.root);
      TurnFree(b, old(ws.Now()), who);
      SentIsNext(b, BooksOf(ws), old(ws.Now()), ws.Now(), o.value);
      SendNext(b, LimitsOf(ws), o.value, BooksOf(ws));
    } else {
      o := None;
      NoneFreeBelow(b, old(ws.Now()), ws.root);
      NoneNext(b, LimitsOf(ws), BooksOf(ws));
    }
  }

  // ---------- whole runs ----------

  ghost function WindowsIn(s: Step): set<Window> {
    if s.Queueing? then s.wr.Windows() else {}
  }

  ghost function AllWindows(steps: seq<Step>): set<Window> {
    if steps == [] then {} else WindowsIn(steps[0]) + AllWindows(steps[1..])
  }

  lemma WindowsAt(steps: seq<Step>, i: nat)
    requires i < |steps|
    ensures WindowsIn(steps[i]) <= AllWindows(steps)
  {
    if i > 0 {
      WindowsAt(steps[1..], i - 1);
      assert steps[1..][i - 1] == steps[i];
    }
  }

  /** A stream that is to be opened is not open yet. */
  lemma NewIsIdle(ws: Scheduler, id: int, used: set<int>, adjusted: set<int>, live: set<int>)
    requires ws.Valid() && Inv(BooksOf(ws), used, adjusted, live) && id !in used
    ensures id in ws.nodes ==> ws.nodes[id].state.Idle?
  {
    if id in ws.nodes {
      ws.Known(id);
      StateAt(ws.all, ws.nodes[id]);
    }
  }

  lemma PanicMeans(ws: Scheduler, s: Step)
    requires ws.Valid()
    ensures Panics(BooksOf(ws), s) <==>
            match s
            case Closing(id) => id !in ws.nodes || !ws.nodes[id].state.Open?
            case Queueing(wr) => wr.DataSize() > 0 && wr.StreamID() !in ws.nodes
            case _ => false
  {
    if s.Closing? && s.id in ws.nodes {
      ws.Known(s.id);
      StateAt(ws.all, ws.nodes[s.id]);
    }
  }

  /** One call. It stops where the source panics, and brings the frame that was written. */
  method Take(ws: Scheduler, s: Step, ghost used: set<int>, ghost adjusted: set<int>, ghost live: set<int>)
    returns (alive: bool, frame: Option<FrameWriteRequest>, ghost o: Option<Sending>)
    requires ws.Valid() && Inv(BooksOf(ws), used, adjusted, live) && Lawful(s, used, live)
    modifies ws, ws.all, ws.windows`n
    ensures ws.Valid() && (alive <==> !old(Panics(BooksOf(ws), s)))
    ensures alive ==> Next(old(BooksOf(ws)), LimitsOf(ws), s, o, BooksOf(ws))
    ensures !alive ==> BooksOf(ws) == old(BooksOf(ws)) && o.None?
    ensures frame == if o.Some? then Some(o.value.frame) else None
    ensures ws.windows <= old(ws.windows) + WindowsIn(s) && fresh(ws.all - old(ws.all))
  {
    hide *;
    alive, frame, o := true, None, None;
    LawMeans(s, used, adjusted, live, BooksOf(ws));
    PanicMeans(ws, s);
    match s
    case Opening(id, pusher) =>
      NewIsIdle(ws, id, used, adjusted, live);
      OpenStep(ws, id, pusher);
    case Closing(id) =>
      if id !in ws.nodes || !ws.nodes[id].state.Open? {
        return false, None, None;
      }
      CloseStep(ws, id);
    case Ranking(id, priority) =>
      RankStep(ws, id, priority);
    case Queueing(wr) =>
      if wr.DataSize() > 0 && wr.StreamID() !in ws.nodes {
        return false, None, None;
      }
      PushStep(ws, wr);
    case Writing =>
      var wr, ok;
      wr, ok, o := PopStep(ws);
      if ok {
        frame := Some(wr);
      }
  }

  lemma LawMeans(s: Step, used: set<int>, adjusted: set<int>, live: set<int>, b: Books)
    requires Inv(b, used, adjusted, live) && Lawful(s, used, live)
    ensures s.Opening? ==> s.id !in used
    ensures s.Closing? || s.Ranking? ==> s.id != 0
    ensures s.Queueing? ==> s.wr.Sendable() && WindowsIn(s) == s.wr.Windows()
  {
  }

  lemma StartBooks(ws: Scheduler)
    requires ws.Valid() && ws.all == {ws.root} && ws.nodes == map[0 := ws.root]
    requires ws.closedNodes == [] && ws.idleNodes == [] && ws.maxID == 0 && ws.root.bytes == 0 && ws.root.q == []
    requires ws.root.weight == 0
    requires Exact(ws.View())
    ensures IsStart(BooksOf(ws))
  {
    hide Queues, Links, Acyclic, Exact;
    var t, r := ws.View(), ws.root;
    ws.ValidTree();
    ws.KidsMatch(r);
    OneCounts(t, r);
    assert Parents(ws.all) == map[];
    assert CountersOf(ws.all) == map[r := r.subtreeBytes];
  }

  lemma OneCounts(t: Tree<Node>, r: Node)
    requires Exact(t) && t.all == {r} && t.root == r && 0 in t.nodes && t.nodes[0] == r && t.bytes[r] == 0
    ensures t.subtree[r] == 0
  {
    ReachesSelf(t.parent, r);
    assert Below(t.parent, t.all, r) == {r};
    SumPick(t.bytes, {r}, r);
    assert Tracked(t, r);
  }

  /** Any run of a user that keeps to the interface is a trace of the books. It stops before
      its end only where the source panics, and writes what the trace sends. */
  method Run(steps: seq<Step>, maxClosed: int, maxIdle: int, throttle: bool)
    returns (ws: Scheduler, alive: bool, frames: seq<FrameWriteRequest>, ghost books: seq<Books>,
             ghost outs: seq<Option<Sending>>)
    requires AllLawful(steps)
    modifies AllWindows(steps)`n
    ensures fresh(ws) && ws.Valid()
    ensures IsTrace(Limits(maxClosed, maxIdle), steps, books, outs) && books[|outs|] == BooksOf(ws)
    ensures alive <==> |outs| == |steps|
    ensures !alive ==> Panics(BooksOf(ws), steps[|outs|])
    ensures frames == FramesOf(outs)
    ensures RunLaws(Limits(maxClosed, maxIdle), steps, books, outs)
  {
    hide *;
    ws := new Scheduler(maxClosed, maxIdle, throttle);
    ghost var lim := Limits(maxClosed, maxIdle);
    alive, frames, books, outs := true, [], [BooksOf(ws)], [];
    LimitsMean(ws);
    StartBooks(ws);
    BooksSound(ws);
    TraceStart(lim, steps, BooksOf(ws));
    for i := 0 to |steps|
      invariant fresh(ws) && fresh(ws.all) && ws.Valid() && LimitsOf(ws) == lim
      invariant ws.windows <= AllWindows(steps)
      invariant |outs| == i && |books| == i + 1 && IsTrace(lim, steps, books, outs) && books[i] == BooksOf(ws)
      invariant frames == FramesOf(outs)
    {
      TraceInv(lim, steps, books, outs, i);
      LawfulAt(steps, i);
      WindowsAt(steps, i);
      var frame;
      ghost var o;
      alive, frame, o := Take(ws, steps[i], Used(steps[..i]), Ranked(steps[..i]), Live(steps[..i]));
      if !alive {
        AllLaws(lim, steps, books, outs);
        return;
      }
      BooksSound(ws);
      TraceMore(lim, steps, books, outs, o, BooksOf(ws));
      FramesMore(outs, o);
      if frame.Some? {
        frames := frames + [frame.value];
      }
      books, outs := books + [BooksOf(ws)], outs + [o];
    }
    AllLaws(lim, steps, books, outs);
  }

  // ---------- runs that go well ----------

  /** Two streams are opened and closed, one after the other. */
  function OpenClose(): seq<Step> {
    [Opening(1, 0), Opening(3, 0), Closing(1), Closing(3)]
  }

  /** A stream is opened, and a PRIORITY frame puts it where it is. */
  function OpenRank(): seq<Step> {
    [Opening(1, 0), Ranking(1, PriorityParam(0, false, 15))]
  }

  lemma OpenCloseLawful()
    ensures AllLawful(OpenClose()) && NoIdleFirst(OpenClose())
    ensures |OpenClose()| == 4 && AllWindows(OpenClose()) == {}
  {
    var s := OpenClose();
    assert s[..0] == [];
    StepSets(s, 0);
    StepSets(s, 1);
    StepSets(s, 2);
    StepSets(s, 3);
    NoWindows(s);
  }

  lemma OpenRankLawful()
    ensures AllLawful(OpenRank()) && NoIdleFirst(OpenRank())
    ensures |OpenRank()| == 2 && AllWindows(OpenRank()) == {}
  {
    var s := OpenRank();
    assert s[..0] == [];
    StepSets(s, 0);
    NoWindows(s);
  }

  lemma OpenNew(b: Books, lim: Limits, id: uint32, o: Option<Sending>, c: Books)
    requires Sound(b) && id !in b.tree.nodes && Next(b, lim, Opening(id, 0), o, c)
    ensures id in c.tree.nodes && c.tree.root == b.tree.root && c.closed == b.closed
    ensures var n := c.tree.nodes[id];
            && n !in b.tree.all && n.id == id && c.tree.nodes == b.tree.nodes[id := n]
            && c.tree.parent == b.tree.parent[n := b.tree.root] && c.states == b.states[n := Open]
  {
    hide Complete, WellFormed, FirstKid;
  }

  lemma CloseFirst(b: Books, lim: Limits, id: uint32, o: Option<Sending>, c: Books)
    requires Sound(b) && id != 0 && lim.closed == 1 && b.closed == [] && Next(b, lim, Closing(id), o, c)
    ensures id in b.tree.nodes && Victim(b, lim, Closing(id)).None?
    ensures var n := b.tree.nodes[id];
            && c.tree.nodes == b.tree.nodes && c.tree.parent == b.tree.parent && c.tree.root == b.tree.root
            && c.states == b.states[n := Closed] && c.closed == [n]
  {
    hide Complete, WellFormed, FirstKid, BumpCounters;
  }

  ghost predicate Start(lim: Limits, steps: seq<Step>, books: seq<Books>, outs: seq<Option<Sending>>) {
    IsTrace(lim, steps, books, outs) && steps != [] && steps[0] == Opening(1, 0) && outs != []
  }

  /** After the first call there is one stream, below the root. */
  lemma FirstOpened(lim: Limits, steps: seq<Step>, books: seq<Books>, outs: seq<Option<Sending>>)
    requires Start(lim, steps, books, outs)
    ensures var b := books[1];
            && b.closed == [] && 1 in b.tree.nodes && 0 in b.tree.nodes && b.tree.nodes[0] == b.tree.root
            && var n := b.tree.nodes[1];
               && n != b.tree.root && n.id == 1 && b.tree.parent == map[n := b.tree.root]
               && b.tree.nodes.Keys == {0, 1}
  {
    hide Sound;
    assert Next(books[0], lim, steps[0], outs[0], books[1]);
    OpenNew(books[0], lim, 1, outs[0], books[1]);
  }

  /** If one closed node is kept, the second close evicts the first stream's node, a leaf. */
  lemma OpenCloseMild(lim: Limits, books: seq<Books>, outs: seq<Option<Sending>>)
    requires lim.closed == 1 && IsTrace(lim, OpenClose(), books, outs) && |outs| == 4
    ensures 1 in books[2].tree.nodes && Victim(books[3], lim, Closing(3)) == Some(books[2].tree.nodes[1])
    ensures forall i :: 0 <= i < 4 ==> Mild(books[i], lim, OpenClose()[i])
    ensures 1 !in books[4].tree.nodes
  {
    hide Sound, Next, NextOpen, NextClose;
    var s := OpenClose();
    FirstOpened(lim, s, books, outs);
    assert Next(books[1], lim, s[1], outs[1], books[2]);
    OpenNew(books[1], lim, 3, outs[1], books[2]);
    assert Next(books[2], lim, s[2], outs[2], books[3]);
    CloseFirst(books[2], lim, 1, outs[2], books[3]);
    var n := books[2].tree.nodes[1];
    assert KidsOf(books[3].tree, n) == {};
    assert Next(books[3], lim, s[3], outs[3], books[4]);
    CloseEvicts(books[3], lim, 3, outs[3], books[4]);
  }

  lemma CloseEvicts(b: Books, lim: Limits, id: uint32, o: Option<Sending>, c: Books)
    requires Sound(b) && Next(b, lim, Closing(id), o, c) && Victim(b, lim, Closing(id)).Some?
    ensures Victim(b, lim, Closing(id)).value.id !in c.tree.nodes
  {
    hide WellFormed, FirstKid, BumpCounters, Remove;
  }

  lemma RanksNothing(lim: Limits, books: seq<Books>, outs: seq<Option<Sending>>)
    requires IsTrace(lim, OpenClose(), books, outs)
    ensures AllUnmoved(lim, OpenClose(), books, |outs|)
  {
    hide Sound, Next, IsStart;
  }

  /** What the laws then say about the end of the run. */
  lemma Ends(lim: Limits, steps: seq<Step>, books: seq<Books>, outs: seq<Option<Sending>>)
    requires IsTrace(lim, steps, books, outs) && RunLaws(lim, steps, books, outs)
    requires AllMild(lim, steps, books, |outs|) && AllUnmoved(lim, steps, books, |outs|)
    ensures Healthy(books[|outs|].tree) && Exact(books[|outs|].tree)
  {
    hide Healthy, Exact, Ledger, AllHarmless, AllMild, AllUnmoved, AllSettled, NoDrops, AllFinds, AllFindable,
         NoVictims;
    hide KeepsOpen, Next, Sound, IsStart, Panics, NoIdleFirst, FramesOf, LogOf, Live;
  }

  /** Nothing panics. */
  lemma GoesOn(lim: Limits, steps: seq<Step>, books: seq<Books>, outs: seq<Option<Sending>>)
    requires IsTrace(lim, steps, books, outs) && RunLaws(lim, steps, books, outs) && NoIdleFirst(steps)
    requires |outs| < |steps| ==> Panics(books[|outs|], steps[|outs|])
    ensures |outs| == |steps|
  {
    hide AllHealthy, AllExact, Ledger, AllHarmless, AllMild, AllUnmoved, AllSettled, NoDrops, AllFinds, AllFindable;
    hide NoVictims, KeepsOpen, Next, Sound, IsStart, Panics, NoIdleFirst, FramesOf, LogOf, Live;
  }

  /** Evicting a leaf does no harm. */
  method EvictsALeaf() returns (ws: Scheduler)
    ensures ws.Valid() && Healthy(ws.View()) && Exact(ws.View()) && 1 !in ws.nodes
  {
    hide *;
    OpenCloseLawful();
    var alive, frames;
    ghost var books, outs;
    ws, alive, frames, books, outs := Run(OpenClose(), 1, 0, false);
    BooksMean(ws);
    ghost var lim := Limits(1, 0);
    OpenCloseEnds(lim, books, outs);
  }

  lemma OpenCloseEnds(lim: Limits, books: seq<Books>, outs: seq<Option<Sending>>)
    requires lim.closed == 1 && IsTrace(lim, OpenClose(), books, outs) && RunLaws(lim, OpenClose(), books, outs)
    requires |outs| < 4 ==> Panics(books[|outs|], OpenClose()[|outs|])
    ensures Healthy(books[|outs|].tree) && Exact(books[|outs|].tree) && 1 !in books[|outs|].tree.nodes
  {
    hide Healthy, Exact, RunLaws, NoIdleFirst, AllLawful, Mild, AllUnmoved, Sound, Next, IsStart, Panics;
    OpenCloseLawful();
    GoesOn(lim, OpenClose(), books, outs);
    OpenCloseMild(lim, books, outs);
    RanksNothing(lim, books, outs);
    Ends(lim, OpenClose(), books, outs);
  }

  lemma NoWindows(steps: seq<Step>)
    requires forall i :: 0 <= i < |steps| ==> !steps[i].Queueing?
    ensures AllWindows(steps) == {}
  {
  }

  lemma OpenRankUnmoved(lim: Limits, books: seq<Books>, outs: seq<Option<Sending>>)
    requires IsTrace(lim, OpenRank(), books, outs)
    ensures AllUnmoved(lim, OpenRank(), books, |outs|) && AllMild(lim, OpenRank(), books, |outs|)
  {
    hide Sound, Next, IsStart, Adjusted, KidsOf;
    if |outs| == 2 {
      FirstOpened(lim, OpenRank(), books, outs);
      SamePlace(books[1].tree);
    }
  }

  lemma SamePlace(t: Tree<Node>)
    requires 0 in t.nodes && t.nodes[0] == t.root && 1 in t.nodes && t.nodes[1] != t.root
    requires t.parent == map[t.nodes[1] := t.root]
    ensures Adjusted(t, 1, 0, false).parent == t.parent
  {
  }

  lemma OpenRankEnds(lim: Limits, books: seq<Books>, outs: seq<Option<Sending>>)
    requires IsTrace(lim, OpenRank(), books, outs) && RunLaws(lim, OpenRank(), books, outs)
    requires |outs| < 2 ==> Panics(books[|outs|], OpenRank()[|outs|])
    ensures |outs| == 2 && Healthy(books[|outs|].tree) && Exact(books[|outs|].tree)
  {
    hide Healthy, Exact, RunLaws, NoIdleFirst, AllLawful, AllMild, AllUnmoved, Sound, Next, IsStart, Panics;
    OpenRankLawful();
    GoesOn(lim, OpenRank(), books, outs);
    OpenRankUnmoved(lim, books, outs);
    Ends(lim, OpenRank(), books, outs);
  }

  /** Neither does a PRIORITY frame that leaves the stream where it is. */
  method RanksInPlace() returns (ws: Scheduler)
    ensures ws.Valid() && Healthy(ws.View()) && Exact(ws.View())
  {
    hide *;
    OpenRankLawful();
    var alive, frames;
    ghost var books, outs;
    ws, alive, frames, books, outs := Run(OpenRank(), 0, 0, false);
    BooksMean(ws);
    OpenRankEnds(Limits(0, 0), books, outs);
  }

  // ---------- runs that do not ----------

  lemma LeftBehind<T>(t: Tree<T>, n: T, first: Option<T>, x: T)
    requires WellFormed(t) && FirstKid(t, n, first) && n in t.all && n != t.root
    requires x in t.parent && t.parent[x] == n && x in t.all && x != n && first != Some(x)
    ensures !Reaches(Remove(t.parent, n, first), x, t.root)
  {
    ReachesSelf(t.parent, x);
    assert OtherKid(t, n, first, x);
    RemoveReaches(t, n, first, x);
  }

  /** Open a new stream below a known one. */
  method OpenBelow(ws: Scheduler, streamID: uint32, pusherID: uint32) returns (n: Node)
    requires ws.Valid() && streamID !in ws.nodes && pusherID in ws.nodes
    modifies ws`nodes, ws`all, ws`maxID, ws.all`kids, ws.all`prev, ws.all`next, ws.all`state
    ensures ws.Valid() && fresh(n) && n.id == streamID && ws.all == old(ws.all) + {n}
    ensures ws.nodes == old(ws.nodes)[streamID := n]
    ensures Parents(ws.all) == old(Parents(ws.all))[n := old(ws.nodes)[pusherID]]
    ensures StatesOf(ws.all) == old(StatesOf(ws.all))[n := Open]
    ensures old(AllEmpty(QueuesOf(ws.all))) ==> AllEmpty(QueuesOf(ws.all))
  {
    hide Scheduler.Valid, Healthy, Exact, QueuesOf, WellFormed, Parents, StatesOf, AllEmpty;
    ghost var queues := QueuesOf(ws.all);
    ws.ViewAll();
    ws.OpenStream(streamID, pusherID);
    ws.ViewAll();
    ws.Known(streamID);
    n := ws.nodes[streamID];
    if AllEmpty(queues) {
      EmptyMore(queues, n);
    }
  }

  ghost predicate AllEmpty(queues: map<Node, seq<FrameWriteRequest>>) {
    forall n :: n in queues ==> queues[n] == []
  }

  /** Stream 1; no closed node is kept. */
  method OneStream() returns (ws: Scheduler, n: Node)
    ensures fresh(ws) && fresh(ws.all) && ws.Valid() && ws.maxClosedNodes == 0 && ws.windows == {}
    ensures ws.all == {ws.root, n} && n != ws.root && ws.nodes == map[0 := ws.root, 1 := n] && n.id == 1
    ensures Parents(ws.all) == map[n := ws.root] && StatesOf(ws.all) == map[ws.root := Open, n := Open]
    ensures AllEmpty(QueuesOf(ws.all))
  {
    hide *;
    ws := new Scheduler(0, 0, false);
    RootTop(ws);
    n := OpenBelow(ws, 1, 0);
  }

  /** Stream 3 depends on it. */
  method TwoStreams() returns (ws: Scheduler, n: Node, a: Node)
    ensures fresh(ws) && fresh(ws.all) && ws.Valid() && ws.maxClosedNodes == 0 && ws.windows == {}
    ensures ws.all == {ws.root, n, a} && n != ws.root && a !in {ws.root, n} && n.id == 1 && a.id == 3
    ensures ws.nodes == map[0 := ws.root, 1 := n, 3 := a] && Parents(ws.all) == map[n := ws.root, a := n]
    ensures StatesOf(ws.all) == map[ws.root := Open, n := Open, a := Open] && AllEmpty(QueuesOf(ws.all))
  {
    hide *;
    ws, n := OneStream();
    a := OpenBelow(ws, 3, 1);
  }

  /** And so does stream 5. */
  method ThreeStreams() returns (ws: Scheduler, n: Node, a: Node, b: Node)
    ensures fresh(ws) && fresh(ws.all) && ws.Valid() && ws.maxClosedNodes == 0 && ws.windows == {}
    ensures n in ws.all && a in ws.all && b in ws.all && n != ws.root && a != b && a != n && b != n
    ensures ws.nodes == map[0 := ws.root, 1 := n, 3 := a, 5 := b] && n.id == 1 && a.id == 3 && b.id == 5
    ensures Parents(ws.all) == map[n := ws.root, a := n, b := n]
    ensures StatesOf(ws.all) == map[ws.root := Open, n := Open, a := Open, b := Open] && AllEmpty(QueuesOf(ws.all))
  {
    hide *;
    ws, n, a := TwoStreams();
    b := OpenBelow(ws, 5, 1);
  }

  lemma EmptyMore(queues: map<Node, seq<FrameWriteRequest>>, n: Node)
    requires AllEmpty(queues)
    ensures AllEmpty(queues[n := []])
  {
  }

  lemma EmptyAt(queues: map<Node, seq<FrameWriteRequest>>, n: Node)
    requires AllEmpty(queues) && n in queues
    ensures queues[n] == []
  {
  }

  lemma RootTop(ws: Scheduler)
    requires ws.Valid() && ws.all == {ws.root} && ws.root.q == []
    ensures Parents(ws.all) == map[] && StatesOf(ws.all) == map[ws.root := Open] && AllEmpty(QueuesOf(ws.all))
  {
  }

  /** Closing stream 1 then leaves one of the others open and tracked, but no longer
      below the root. */
  method StrandsAKid() returns (ws: Scheduler, x: Node)
    ensures ws.Valid() && x.id in {3, 5} && x.id in ws.nodes && ws.nodes[x.id] == x && x.state.Open?
    ensures !Reaches(ws.View().parent, x, ws.root)
    ensures fresh(ws) && fresh(ws.all) && x in ws.all && AllEmpty(QueuesOf(ws.all)) && ws.windows == {}
  {
    hide Scheduler.Valid, Healthy, Exact, QueuesOf, Reaches, WellFormed, Scheduler.Harmless, Parents, FirstKid, Remove;
    hide StatesOf, Scheduler.View, WeightsOf, BumpCounters, BytesOf, CountersOf, AllEmpty;
    var n, a, b;
    ws, n, a, b := ThreeStreams();
    x := if n.kids == a then b else a;
    ws.ViewAll();
    ws.ValidTree();
    ws.KidsMatch(n);
    StateAt(ws.all, n);
    StateAt(ws.all, x);
    LeftBehind(ws.View(), n, Kid(n.kids), x);
    EmptyMore(QueuesOf(ws.all), n);
    ws.CloseStream(1);
    StateAt(ws.all, x);
    ws.ViewAll();
  }

  /** Close a stream, when one closed node is kept: the frames of another stay queued. */
  method CloseOne(ws: Scheduler, id: uint32, ghost m: Node)
    requires ws.Valid() && ws.maxClosedNodes == 1 && |ws.closedNodes| <= 1 && m in ws.all
    requires id != 0 && id in ws.nodes && ws.nodes[id].state.Open?
    modifies ws`nodes, ws`closedNodes, ws.all`state, ws.all`q, ws.all`bytes, ws.all`subtreeBytes
    modifies ws.all`kids, ws.all`parent, ws.all`prev, ws.all`next, ws.all`pos
    ensures ws.Valid() && ws.closedNodes == [old(ws.nodes[id])]
    ensures ws.nodes ==
            if old(ws.closedNodes) == [] then old(ws.nodes) else old(ws.nodes) - {old(ws.closedNodes[0]).id}
    ensures m.q == if m == old(ws.nodes[id]) then [] else old(m.q)
  {
    hide Scheduler.Valid, Scheduler.View, Healthy, Exact, StatesOf, QueuesOf, Scheduler.Harmless, Parents, Remove;
    hide BumpCounters;
    ws.ViewAll();
    QueueAt(ws.all, m);
    ghost var first := ws.closedNodes;
    ws.CloseStream(id);
    ws.ViewAll();
    QueueAt(ws.all, m);
    assert first != [] ==> first[1..] == [];
  }

  /** Stream 1 is closed, and a frame is queued for it then, as RST_STREAM may be. */
  method QueuedLate() returns (ws: Scheduler, n: Node, wr: FrameWriteRequest)
    ensures fresh(ws) && fresh(ws.all) && ws.Valid() && ws.maxClosedNodes == 1 && ws.closedNodes == [n] && n in ws.all
    ensures ws.nodes == map[0 := ws.root, 1 := n] && n.id == 1 && n.q == [wr] && wr.StreamID() == 1
  {
    hide Scheduler.Valid, Healthy, Exact, QueuesOf, WellFormed, Parents, StatesOf, Scheduler.View;
    ws := new Scheduler(1, 0, false);
    n := OpenBelow(ws, 1, 0);
    StateAt(ws.all, n);
    CloseOne(ws, 1, n);
    wr := FrameWriteRequest(None, null, StreamError(1, 0));
    ws.Push(wr);
    QueueAt(ws.all, n);
  }

  /** The frame is discarded with its node when another stream closes. */
  method DiscardsAFrame() returns (ws: Scheduler, n: Node, wr: FrameWriteRequest)
    ensures ws.Valid() && n.id == 1 && 1 !in ws.nodes && n.q == [wr] && wr.StreamID() == 1
  {
    hide *;
    ws, n, wr := QueuedLate();
    var m := OpenBelow(ws, 3, 0);
    StateAt(ws.all, m);
    CloseOne(ws, 3, n);
  }

  /** Only x has a frame queued, and x does not hang from the root: nothing is found. */
  lemma NothingFound(p: map<Node, Node>, s: Snapshot, r: Snapshot, x: Node, q: seq<FrameWriteRequest>, who: Node,
                     wr: FrameWriteRequest, last: bool, root: Node, empty: map<Node, seq<FrameWriteRequest>>)
    requires AllEmpty(empty) && s.queues == empty[x := q] && !Reaches(p, x, root)
    ensures !(Reaches(p, who, root) && Sent(s, r, who, wr, last))
  {
    hide Debit, Bump, AllAtoms, Emitted, WellFormed, Reaches;
  }

  /** A reset for the stream that StrandsAKid leaves behind is queued, and never goes: Pop
      finds nothing to write. */
  method LosesAFrame() returns (ws: Scheduler, x: Node, wr: FrameWriteRequest, ok: bool)
    ensures ws.Valid() && x.id in ws.nodes && ws.nodes[x.id] == x && x.state.Open?
    ensures wr.StreamID() == x.id && x.q == [wr] && !ok
  {
    hide Scheduler.Valid, Healthy, Exact, QueuesOf, Reaches, WellFormed, Parents, StatesOf, Scheduler.View, AllEmpty;
    hide Sent, NoneAboveReady, NoneReady, Scheduler.Now, BooksOf, FirstsOf;
    ws, x := StrandsAKid();
    ghost var empty := QueuesOf(ws.all);
    QueueAt(ws.all, x);
    EmptyAt(empty, x);
    wr := FrameWriteRequest(None, null, StreamError(x.id, 0));
    StateAt(ws.all, x);
    ws.Push(wr);
    QueueAt(ws.all, x);
    NowMeans(ws);
    label L:
    ghost var q, who, last := x.q, ws.root, true;
    var frame;
    frame, ok, who, last := PopBooks(ws);
    NothingFound(old@L(ws.View()).parent, old@L(ws.Now()), ws.Now(), x, q, who, frame, last, ws.root, empty);
    NowMeans(ws);
    QueueAt(ws.all, x);
  }
}
