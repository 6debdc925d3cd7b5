/** Which open streams stay tracked, and which queued frames stay within reach of the
    scheduler, call by call. */
module PriorityFinds {
  import opened Common
  import opened Flow
  import opened Frames
  import opened Forest
  import opened PriorityModel
  import opened PriorityCounts
  import opened PriorityReach
  import opened PriorityNode
  import opened PriorityScheduler
  import opened PriorityBooks
  import opened PriorityKeeps
  import opened PriorityLaws

  // ---------- open streams ----------

  /** The call evicts the node of an open stream. */
  ghost predicate DropsOpen(b: Books, lim: Limits, s: Step) {
    var v := Victim(b, lim, s);
    && s.Ranking? && v.Some? && v.value.id in b.tree.nodes && b.tree.nodes[v.value.id] == v.value
    && v.value in b.states && b.states[v.value].Open?
  }

  /** The table after a call. */
  lemma TableStep(b: Books, lim: Limits, s: Step, o: Option<Sending>, c: Books)
    requires Sound(b) && Orderly(b) && Next(b, lim, s, o, c) && (s.Closing? || s.Ranking? ==> s.id != 0)
    ensures b.maxID <= c.maxID
    ensures var v := Victim(b, lim, s);
            match s
            case Opening(id, _) => id in c.tree.nodes && c.tree.nodes == b.tree.nodes[id := c.tree.nodes[id]]
            case Closing(_) => c.tree.nodes == if v.Some? then b.tree.nodes - {v.value.id} else b.tree.nodes
            case Ranking(id, _) =>
              if Creates(b, lim, id) then
                id in c.tree.nodes && id > b.maxID
                && c.tree.nodes == Scheduler.TableAfter(b.tree.nodes, id, c.tree.nodes[id], v)
              else c.tree.nodes == b.tree.nodes
            case _ => c.tree.nodes == b.tree.nodes
  {
    hide Sound, Orderly, Victim, NextIntroduce, NextClose, Delta, Bump, Adjusted, Listed;
    match s
    case Opening(id, _) =>
    case Closing(id) =>
      SoundMeans(b);
      CloseFacts(b, lim, s, c);
      CloseDelta(b, lim, s, c);
      DeltaTable(b, c, b.tree.nodes[id], Victim(b, lim, s));
      assert b.tree.nodes[id := b.tree.nodes[id]] == b.tree.nodes;
    case Ranking(id, priority) =>
      if Creates(b, lim, id) {
        IntroduceFacts(b, lim, s, c);
        IntroduceDelta(b, lim, s, c);
        DeltaTable(b, c, c.tree.nodes[id], Victim(b, lim, s));
      } else if id in b.tree.nodes {
        AdjustedFacts(b.tree, id, priority.streamDep, priority.exclusive);
      }
    case Queueing(_) =>
    case Writing =>
      if o.Some? {
        BumpBytes(b.tree, o.value.who, o.value.frame.DataSize());
      }
  }

  lemma DeltaTable(b: Books, c: Books, n: Node, v: Option<Node>)
    requires Delta(b, c, n, v)
    ensures c.tree.nodes == Scheduler.TableAfter(b.tree.nodes, n.id, n, v)
  {
  }

  lemma LiveMeans(b: Books, id: int, live: set<int>)
    requires Sound(b) && OpenLive(b, live) && id in b.tree.nodes && id != 0
    ensures b.tree.nodes[id] in b.states && (b.states[b.tree.nodes[id]].Open? <==> id in live)
  {
    NodeKnown(b, id);
  }

  /** All open streams stay tracked exactly if the call evicts none. */
  lemma KeepStep(b: Books, lim: Limits, s: Step, o: Option<Sending>, c: Books,
                 used: set<int>, adjusted: set<int>, live: set<int>)
    requires Inv(b, used, adjusted, live) && Lawful(s, used, live) && Next(b, lim, s, o, c) && KeepsOpen(b, live)
    ensures KeepsOpen(c, LiveAfter(s, live)) <==> !DropsOpen(b, lim, s)
  {
    hide Sound, Orderly, Next, Victim, Traced, OpenLive, Anchored, Addressed, Creates, Listed;
    TableStep(b, lim, s, o, c);
    var v := Victim(b, lim, s);
    if s.Closing? {
      NextMeans(b, lim, s, o, c);
      ClosingVictim(b, lim, s);
      if v.Some? && v.value.id in b.tree.nodes && v.value.id != s.id {
        VictimFacts(b, lim, s);
        ListedMeans(b, v.value);
        SoundIds(b, v.value);
        LiveMeans(b, v.value.id, live);
      }
    } else if s.Ranking? {
      if v.Some? {
        RankCreates(b, lim, s);
        VictimFacts(b, lim, s);
        var e := v.value;
        SoundIds(b, e);
        if e.id in b.tree.nodes {
          LiveMeans(b, e.id, live);
        }
      }
    } else {
      NoVictim(b, lim, s);
    }
  }

  lemma NextMeans(b: Books, lim: Limits, s: Step, o: Option<Sending>, c: Books)
    requires Sound(b) && Next(b, lim, s, o, c) && s.Closing?
    ensures s.id in b.tree.nodes && b.tree.nodes[s.id] in b.states && b.states[b.tree.nodes[s.id]].Open?
    ensures b.tree.nodes[s.id] in b.tree.all && b.tree.nodes[s.id].id == s.id
  {
    NodeKnown(b, s.id);
  }

  lemma NoVictim(b: Books, lim: Limits, s: Step)
    requires !s.Closing? && !s.Ranking?
    ensures Victim(b, lim, s).None?
  {
  }

  lemma RankCreates(b: Books, lim: Limits, s: Step)
    requires s.Ranking? && Victim(b, lim, s).Some?
    ensures Creates(b, lim, s.id)
  {
  }

  lemma ListedMeans(b: Books, n: Node)
    requires n in b.states && Listed(b, n) && n.id in b.tree.nodes
    ensures b.tree.nodes[n.id] == n
  {
  }

  /** A stream that is gone does not come back, unless it is opened. */
  lemma GoneStays(b: Books, lim: Limits, s: Step, o: Option<Sending>, c: Books, id: int)
    requires Sound(b) && Orderly(b) && Next(b, lim, s, o, c) && (s.Closing? || s.Ranking? ==> s.id != 0)
    requires id !in b.tree.nodes && id <= b.maxID && !(s.Opening? && s.id == id)
    ensures id !in c.tree.nodes && id <= c.maxID && !(s.Closing? && s.id == id)
  {
    TableStep(b, lim, s, o, c);
    if s.Closing? {
      NextMeans(b, lim, s, o, c);
    }
    hide Sound, Orderly, Next, Victim;
  }

  /** A dropped stream is gone, and its user still has it open. */
  lemma DropGone(b: Books, lim: Limits, s: Step, o: Option<Sending>, c: Books,
                 used: set<int>, adjusted: set<int>, live: set<int>) returns (id: int)
    requires Inv(b, used, adjusted, live) && Lawful(s, used, live) && Next(b, lim, s, o, c) && DropsOpen(b, lim, s)
    ensures id in LiveAfter(s, live) && id !in c.tree.nodes && id <= c.maxID
  {
    hide Sound, Orderly, Next, Victim, Traced, OpenLive, Anchored, Addressed;
    var e := Victim(b, lim, s).value;
    RankCreates(b, lim, s);
    VictimFacts(b, lim, s);
    SoundIds(b, e);
    LiveMeans(b, e.id, live);
    TableStep(b, lim, s, o, c);
    id := e.id;
  }

  /** If no stream has a priority before it is opened, no open stream is on the idle list. */
  lemma ShutStep(b: Books, lim: Limits, s: Step, o: Option<Sending>, c: Books,
                 used: set<int>, adjusted: set<int>, live: set<int>)
    requires Inv(b, used, adjusted, live) && Lawful(s, used, live) && Next(b, lim, s, o, c) && IdleShut(b)
    requires s.Opening? ==> s.id !in adjusted
    ensures IdleShut(c) && !DropsOpen(b, lim, s)
  {
    hide Sound, Orderly, Traced, OpenLive, Anchored, Addressed, Listed;
    var v := Victim(b, lim, s);
    if s.Ranking? && v.Some? {
      RankCreates(b, lim, s);
      RankingVictim(b, lim, s);
    }
    match s
    case Opening(id, _) => OpenShut(b, s, c, used, adjusted);
    case Closing(id) =>
    case Ranking(id, _) =>
      if Creates(b, lim, id) {
        forall m | m in c.idle ensures m in c.states && !c.states[m].Open? {
          assert m == c.tree.nodes[id] || m in b.idle;
        }
      }
    case Queueing(_) =>
    case Writing =>
  }

  lemma OpenShut(b: Books, s: Step, c: Books, used: set<int>, adjusted: set<int>)
    requires Sound(b) && Traced(b, used, adjusted) && s.Opening? && s.id !in adjusted && NextOpen(b, s.id, s.pusher, c)
    requires IdleShut(b)
    ensures IdleShut(c)
  {
    var n := c.tree.nodes[s.id];
    assert n.id == s.id by {
      SoundMeans(b);
      OpenFacts(b, s.id, s.pusher, c);
    }
    assert n !in b.idle;
  }

  // ---------- queued frames ----------

  /** Every queued frame is where the scheduler looks: it walks down from the root. */
  ghost predicate Findable(b: Books) {
    forall x :: x in b.queues && b.queues[x] != [] ==> Reaches(b.tree.parent, x, b.tree.root)
  }

  /** Then a call that finds nothing to write misses no frame that needs no window, and one
      that finds something takes it from under the root only. */
  lemma NothingMissed(b: Books, lim: Limits, o: Option<Sending>, c: Books, x: Node)
    requires Next(b, lim, Writing, o, c) && x in b.queues
    ensures Findable(b) && o.None? ==> !Free(b.queues[x])
    ensures !Reaches(b.tree.parent, x, b.tree.root) ==> x in c.queues && c.queues[x] == b.queues[x]
  {
    hide Reaches;
    assert Free(b.queues[x]) ==> b.queues[x] != [];
  }

  /** Frames wait at x when the call is over, if the call leaves them there. */
  ghost predicate Waits(b: Books, s: Step, x: Node)
    requires x in b.queues
  {
    if s.Queueing? then b.queues[x] != [] || x == Target(b, s.wr.StreamID())
    else b.queues[x] != [] && Closer(b, s) != Some(x)
  }

  /** The call leaves x off the root: x is evicted, or hangs from a kid that the evicted
      node does not hand over; or x hangs from the node that is moved below a stream which
      is off the root; or x gets a frame off the root. */
  ghost predicate Cuts(b: Books, lim: Limits, s: Step, x: Node) {
    var v := Victim(b, lim, s);
    || (v.Some? && v.value in b.first && (x == v.value || Stranded(b.tree, v.value, b.first[v.value], x)))
    || (s.Ranking? && s.id in b.tree.nodes && s.priority.streamDep != s.id
        && !Reaches(b.tree.parent, Target(b, s.priority.streamDep), b.tree.root)
        && Reaches(b.tree.parent, x, b.tree.nodes[s.id]))
    || (s.Queueing? && !Reaches(b.tree.parent, x, b.tree.root))
  }

  /** The call leaves no waiting frame off the root: a condition on the books before it. */
  ghost predicate Finds(b: Books, lim: Limits, s: Step) {
    forall x :: x in b.queues && Waits(b, s, x) ==> !Cuts(b, lim, s, x)
  }

  lemma StrandedSame(t: Tree<Node>, u: Tree<Node>, e: Node, first: Option<Node>, x: Node)
    requires u.parent == t.parent && u.all == t.all
    ensures Stranded(u, e, first, x) <==> Stranded(t, e, first, x)
  {
    assert KidsOf(u, e) == KidsOf(t, e);
    assert forall c :: OtherKid(u, e, first, c) <==> OtherKid(t, e, first, c);
  }

  lemma StrandedAdd(t: Tree<Node>, id: int, n: Node, e: Node, first: Option<Node>, x: Node)
    requires WellFormed(t) && n !in t.all && e in t.all && e != t.root && x in t.all
    ensures Stranded(Add(t, id, n, t.root), e, first, x) <==> Stranded(t, e, first, x)
  {
    var u := Add(t, id, n, t.root);
    AddKids(t, id, n, e);
    forall c | c in u.all && OtherKid(u, e, first, c)
      ensures c in t.all && OtherKid(t, e, first, c) && (Reaches(u.parent, x, c) <==> Reaches(t.parent, x, c))
    {
      AddReaches(t, id, n, t.root, x, c);
    }
    forall c | c in t.all && OtherKid(t, e, first, c)
      ensures OtherKid(u, e, first, c) && (Reaches(u.parent, x, c) <==> Reaches(t.parent, x, c))
    {
      AddReaches(t, id, n, t.root, x, c);
    }
  }

  /** What an eviction leaves under the root. */
  lemma EvictedReaches(t: Tree<Node>, e: Node, first: map<Node, Option<Node>>, x: Node)
    requires WellFormed(t) && e in t.all && e != t.root && e in first && FirstKid(t, e, first[e]) && x in t.all
    ensures Reaches(Evicted(t, Some(e), first).parent, x, t.root) <==>
            Reaches(t.parent, x, t.root) && x != e && !Stranded(t, e, first[e], x)
  {
    if x == e {
      ReachesStep(Remove(t.parent, e, first[e]), x, t.root);
    } else {
      RemoveReaches(t, e, first[e], x);
    }
  }

  /** It is enough to look at the nodes where frames waited before. */
  lemma FindsBy(b: Books, lim: Limits, s: Step, c: Books, n: Node)
    requires !s.Queueing? && Findable(b) && c.queues == b.queues[n := []]
    requires Closer(b, s) == Some(n) || (Closer(b, s).None? && n !in b.queues)
    requires forall x :: x in b.queues && x != n && b.queues[x] != [] ==>
               (Reaches(c.tree.parent, x, c.tree.root) <==> !Cuts(b, lim, s, x))
    ensures Findable(c) <==> Finds(b, lim, s)
  {
    hide Reaches, Cuts;
  }

  lemma CloseCuts(b: Books, lim: Limits, s: Step, c: Books, x: Node)
    requires Sound(b) && Orderly(b) && s.Closing? && s.id != 0 && NextClose(b, lim, s.id, Victim(b, lim, s), c)
    requires x in b.tree.all && Reaches(b.tree.parent, x, b.tree.root)
    ensures Reaches(c.tree.parent, x, c.tree.root) <==> !Cuts(b, lim, s, x)
  {
    hide Orderly, Sound, Bump, Evicted, FirstKid, Stranded, Reaches, Victim;
    var n, v := b.tree.nodes[s.id], Victim(b, lim, s);
    var d := -b.tree.bytes[n];
    var u := Bump(b.tree, n, d);
    BumpBytes(b.tree, n, d);
    BumpHealthy(b.tree, n, d);
    RootOf(u, v, b.first);
    if v.Some? {
      VictimFacts(b, lim, s);
      BumpFirst(b.tree, n, d, v.value, b.first[v.value]);
      EvictedReaches(u, v.value, b.first, x);
      StrandedSame(b.tree, u, v.value, b.first[v.value], x);
    } else {
      EvictedNone(u, b.first);
    }
  }

  lemma QueueInside(b: Books, x: Node)
    requires Sound(b) && x in b.queues
    ensures x in b.tree.all
  {
  }

  lemma CloseFinds(b: Books, lim: Limits, s: Step, c: Books)
    requires Sound(b) && Orderly(b) && s.Closing? && s.id != 0 && NextClose(b, lim, s.id, Victim(b, lim, s), c)
    requires Findable(b)
    ensures Findable(c) <==> Finds(b, lim, s)
  {
    hide Orderly, Sound, Reaches, Victim, Cuts, Finds, Evicted, Bump, WellFormed;
    var n := b.tree.nodes[s.id];
    forall x | x in b.queues && x != n && b.queues[x] != []
      ensures Reaches(c.tree.parent, x, c.tree.root) <==> !Cuts(b, lim, s, x)
    {
      QueueInside(b, x);
      CloseCuts(b, lim, s, c, x);
    }
    FindsBy(b, lim, s, c, n);
  }

  lemma EvictedNone(t: Tree<Node>, first: map<Node, Option<Node>>)
    ensures Evicted(t, None, first) == t
  {
  }

  lemma RootOf(t: Tree<Node>, v: Option<Node>, first: map<Node, Option<Node>>)
    ensures Evicted(t, v, first).root == t.root
  {
  }

  lemma IntroduceCuts(b: Books, lim: Limits, s: Step, c: Books, x: Node)
    requires Sound(b) && Orderly(b) && s.Ranking? && s.id != 0 && Creates(b, lim, s.id)
    requires NextIntroduce(b, s.id, s.priority, Victim(b, lim, s), c)
    requires x in b.tree.all && Reaches(b.tree.parent, x, b.tree.root)
    ensures Reaches(c.tree.parent, x, c.tree.root) <==> !Cuts(b, lim, s, x)
  {
    hide Orderly, Sound, FirstKid, Stranded, Reaches, Victim, Adjusted, NewLeaf, WellFormed, Mid;
    IntroduceFacts(b, lim, s, c);
    var id, n, v := s.id, c.tree.nodes[s.id], Victim(b, lim, s);
    if v.Some? {
      VictimFacts(b, lim, s);
    }
    MidLeaf(b, id, n, v);
    MidFacts(b, id, n, v);
    AdjustedFacts(Mid(b, id, n, v), id, s.priority.streamDep, s.priority.exclusive);
    LeafMoves(Mid(b, id, n, v), id, n, s.priority.streamDep, s.priority.exclusive, x);
    MidReaches(b, id, n, v, x);
  }

  lemma IntroduceFinds(b: Books, lim: Limits, s: Step, c: Books)
    requires Sound(b) && Orderly(b) && s.Ranking? && s.id != 0 && Creates(b, lim, s.id)
    requires NextIntroduce(b, s.id, s.priority, Victim(b, lim, s), c) && Findable(b)
    ensures Findable(c) <==> Finds(b, lim, s)
  {
    hide Orderly, Sound, Reaches, Victim, Cuts, Finds, Mid, Adjusted, Creates;
    var n := c.tree.nodes[s.id];
    forall x | x in b.queues && x != n && b.queues[x] != []
      ensures Reaches(c.tree.parent, x, c.tree.root) <==> !Cuts(b, lim, s, x)
    {
      QueueInside(b, x);
      IntroduceCuts(b, lim, s, c, x);
    }
    if n in b.queues {
      QueueInside(b, n);
    }
    FindsBy(b, lim, s, c, n);
  }

  lemma MidReaches(b: Books, id: int, n: Node, v: Option<Node>, x: Node)
    requires Sound(b) && n !in b.tree.all && id !in b.tree.nodes && x in b.tree.all
    requires v.Some? ==> v.value in b.tree.all && v.value != b.tree.root && v.value in b.first
    ensures Reaches(Mid(b, id, n, v).parent, x, b.tree.root) <==>
            && Reaches(b.tree.parent, x, b.tree.root)
            && (v.Some? ==> x != v.value && !Stranded(b.tree, v.value, b.first[v.value], x))
  {
    VictimFirst(b, v);
    SoundMeans(b);
    RootInside(b.tree);
    hide Sound, Stranded, Reaches, FirstKid;
    AddReaches(b.tree, id, n, b.tree.root, x, b.tree.root);
    if v.Some? {
      AddWellFormed(b.tree, id, n, b.tree.root);
      AddFirst(b.tree, id, n, v.value, b.first[v.value]);
      EvictedReaches(Add(b.tree, id, n, b.tree.root), v.value, b.first, x);
      StrandedAdd(b.tree, id, n, v.value, b.first[v.value], x);
    }
  }

  lemma RankFinds(b: Books, lim: Limits, s: Step, c: Books)
    requires Sound(b) && s.Ranking? && s.id != 0 && !Creates(b, lim, s.id) && NextRank(b, s.id, s.priority, c)
    requires Findable(b)
    ensures Findable(c) <==> Finds(b, lim, s)
  {
    var n, dep := b.tree.nodes[s.id], s.priority.streamDep;
    NodeKnown(b, s.id);
    SoundMeans(b);
    SoundIds(b, n);
    TargetKnown(b, dep);
    hide Sound, Reaches, Reprioritize, WellFormed;
    forall x | x in b.queues && b.queues[x] != []
      ensures Reaches(c.tree.parent, x, c.tree.root) <==> !Cuts(b, lim, s, x)
    {
      if dep != s.id {
        ReprioritizeReaches(b.tree, n, Target(b, dep), s.priority.exclusive && dep in b.tree.nodes, x);
      }
    }
  }

  lemma OpenFinds(b: Books, lim: Limits, s: Step, c: Books)
    requires Sound(b) && s.Opening? && NextOpen(b, s.id, s.pusher, c) && Findable(b)
    ensures Findable(c) && Finds(b, lim, s)
  {
    SoundMeans(b);
    TargetKnown(b, s.pusher);
    hide Sound, Reaches, WellFormed;
    if s.id !in b.tree.nodes {
      forall x | x in b.queues && b.queues[x] != [] ensures Reaches(c.tree.parent, x, c.tree.root) {
        AddReaches(b.tree, s.id, c.tree.nodes[s.id], Target(b, s.pusher), x, b.tree.root);
      }
    }
  }

  lemma SendFinds(b: Books, o: Sending, c: Books)
    requires NextSend(b, o, c) && Findable(b)
    ensures Findable(c)
  {
    hide Reaches, Heads, Free;
    BumpBytes(b.tree, o.who, o.frame.DataSize());
  }

  /** From books in which every queued frame is within reach, a call leads to others exactly
      if it leaves no waiting frame off the root. */
  lemma FindStep(b: Books, lim: Limits, s: Step, o: Option<Sending>, c: Books,
                 used: set<int>, adjusted: set<int>, live: set<int>)
    requires Inv(b, used, adjusted, live) && Lawful(s, used, live) && Next(b, lim, s, o, c) && Findable(b)
    ensures Findable(c) <==> Finds(b, lim, s)
  {
    hide Orderly, Sound, NextOpen, NextClose, NextIntroduce, NextRank, NextSend, Reaches, Creates, Stranded;
    match s
    case Opening(id, pusher) => OpenFinds(b, lim, s, c);
    case Closing(id) => CloseFinds(b, lim, s, c);
    case Ranking(id, priority) =>
      if Creates(b, lim, id) {
        IntroduceFinds(b, lim, s, c);
      } else if id in b.tree.nodes {
        RankFinds(b, lim, s, c);
      }
    case Queueing(wr) => TargetKnown(b, wr.StreamID());
    case Writing =>
      if o.Some? {
        SendFinds(b, o.value, c);
      }
  }
}
