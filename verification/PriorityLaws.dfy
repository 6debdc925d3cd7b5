/** What each call of the priority scheduler keeps, exactly. */
module PriorityLaws {
  import opened Common
  import opened Flow
  import opened Frames
  import opened Forest
  import opened PriorityModel
  import opened PriorityCounts
  import opened PriorityReach
  import opened PriorityNode
  import opened PriorityScheduler
  import opened PriorityBooks
  import opened PriorityKeeps

  // ---------- evictions ----------

  /** The evicted node, if it is still tracked, has at most one kid and has sent nothing
      that is counted. */
  ghost predicate Harmless(b: Books, lim: Limits, s: Step) {
    var v := Victim(b, lim, s);
    v.Some? && v.value.id in b.tree.nodes ==>
      && |KidsOf(b.tree, v.value)| <= 1
      && (v == Closer(b, s) || (v.value in b.tree.bytes && b.tree.bytes[v.value] == 0))
  }

  /** The node that the call closes. */
  ghost function Closer(b: Books, s: Step): Option<Node> {
    if s.Closing? && s.id in b.tree.nodes then Some(b.tree.nodes[s.id]) else None
  }

  /** The evicted node is not an open stream's and has at most one kid. */
  ghost predicate Mild(b: Books, lim: Limits, s: Step) {
    var v := Victim(b, lim, s);
    v.Some? ==>
      && |KidsOf(b.tree, v.value)| <= 1
      && (v == Closer(b, s) || (v.value in b.states && !b.states[v.value].Open?))
  }

  lemma MildHarmless(b: Books, lim: Limits, s: Step)
    requires Orderly(b) && Mild(b, lim, s)
    ensures Harmless(b, lim, s)
  {
    var v := Victim(b, lim, s);
    if v.Some? && v != Closer(b, s) {
      QuietAt(b, v.value);
    }
  }

  /** A listed node is tracked under its own id or not at all. */
  lemma OneId(b: Books, e: Node)
    requires Complete(b) && e in b.states && (Listed(b, e) || (e.id in b.tree.nodes && b.tree.nodes[e.id] == e))
    ensures forall i :: i in b.tree.nodes ==> (b.tree.nodes[i] == e <==> i == e.id)
  {
  }

  lemma BumpKids(t: Tree<Node>, n: Node, d: int, e: Node)
    requires WellFormed(t) && n in t.all
    ensures KidsOf(Bump(t, n, d), e) == KidsOf(t, e)
  {
  }

  lemma AddKids(t: Tree<Node>, id: int, n: Node, e: Node)
    requires WellFormed(t) && n !in t.all && e in t.all && e != t.root
    ensures KidsOf(Add(t, id, n, t.root), e) == KidsOf(t, e)
  {
  }

  lemma VictimFacts(b: Books, lim: Limits, s: Step)
    requires Sound(b) && Orderly(b) && Victim(b, lim, s).Some?
    requires s.Closing? ==> s.id != 0 && s.id in b.tree.nodes && b.states[b.tree.nodes[s.id]].Open?
    ensures var e := Victim(b, lim, s).value;
            && e in b.tree.all && e != b.tree.root && e in b.first && FirstKid(b.tree, e, b.first[e])
            && (forall i :: i in b.tree.nodes ==> (b.tree.nodes[i] == e <==> i == e.id))
            && (s.Ranking? ==> e.id != s.id)
  {
    var e := Victim(b, lim, s).value;
    if s.Closing? {
      ClosingVictim(b, lim, s);
      NodeKnown(b, s.id);
    } else {
      RankingVictim(b, lim, s);
    }
    OneId(b, e);
    VictimFirst(b, Some(e));
  }

  // ---------- closing ----------

  lemma CloseHealth(b: Books, lim: Limits, s: Step, c: Books)
    requires Sound(b) && Orderly(b) && s.Closing? && s.id != 0 && NextClose(b, lim, s.id, Victim(b, lim, s), c)
    requires Healthy(b.tree)
    ensures Healthy(c.tree) <==> Harmless(b, lim, s)
    ensures Exact(b.tree) && Healthy(c.tree) ==> Exact(c.tree)
  {
    hide Orderly, Healthy, Exact, FirstKid, WellFormed, Bump, Removed, KidsOf;
    var n, v := b.tree.nodes[s.id], Victim(b, lim, s);
    var d := -b.tree.bytes[n];
    BumpHealthy(b.tree, n, d);
    BumpBytes(b.tree, n, d);
    if v.Some? {
      VictimFacts(b, lim, s);
      var e := v.value;
      BumpFirst(b.tree, n, d, e, b.first[e]);
      BumpKids(b.tree, n, d, e);
      RemoveExactly(Bump(b.tree, n, d), e, b.first[e], e.id);
    }
  }

  lemma BumpBytes(t: Tree<Node>, n: Node, d: int)
    requires WellFormed(t) && n in t.all
    ensures var u := Bump(t, n, d);
            && u.root == t.root && u.all == t.all && u.nodes == t.nodes && u.parent == t.parent
            && u.bytes == t.bytes[n := t.bytes[n] + d] && n in t.bytes
  {
  }

  // ---------- a new idle node ----------

  /** A new leaf below the root, before its priority is looked at. */
  ghost predicate NewLeaf(t: Tree<Node>, id: int, n: Node) {
    && WellFormed(t) && 0 in t.nodes && t.nodes[0] == t.root && id != 0 && id in t.nodes && t.nodes[id] == n
    && n != t.root && n in t.all && n in t.parent && t.parent[n] == t.root
    && t.bytes[n] == 0 && t.subtree[n] == 0 && KidsOf(t, n) == {}
  }

  lemma NewLeafAlone(t: Tree<Node>, id: int, n: Node, x: Node)
    requires NewLeaf(t, id, n) && x in t.all && x != n
    ensures !Reaches(t.parent, x, n)
  {
    if Reaches(t.parent, x, n) {
      SomeKid(t, x, n);
    }
  }

  /** A new node elsewhere does not change what an eviction does. */
  lemma AddThenRemove(p: map<Node, Node>, n: Node, root: Node, e: Node, first: Option<Node>)
    requires n !in p && e != n && first != Some(n) && (first.Some? ==> first.value in p)
    ensures Remove(p[n := root], e, first) == Remove(p, e, first)[n := root]
  {
  }

  /** The parents in the tree with the new node in and the victim out. */
  lemma MidParents(b: Books, id: int, n: Node, v: Option<Node>)
    requires Sound(b) && n !in b.tree.all && (v.Some? ==> v.value in b.tree.all)
    ensures var p := Evicted(b.tree, v, b.first).parent;
            && Mid(b, id, n, v).parent == p[n := b.tree.root]
            && (forall x :: x in p ==> x in b.tree.all && p[x] in b.tree.all)
  {
    SoundMeans(b);
    VictimFirst(b, v);
    if v.Some? {
      var e := v.value;
      hide Sound;
      FirstInside(b.tree, e, b.first[e]);
      AddThenRemove(b.tree.parent, n, b.tree.root, e, b.first[e]);
    }
  }

  lemma FirstInside(t: Tree<Node>, e: Node, first: Option<Node>)
    requires FirstKid(t, e, first)
    ensures first.Some? ==> first.value in t.parent && first.value in t.all
  {
  }

  lemma MidLeaf(b: Books, id: int, n: Node, v: Option<Node>)
    requires Sound(b) && n !in b.tree.all && id !in b.tree.nodes && id != 0 && n.id == id
    requires v.Some? ==> v.value in b.tree.all && v.value != b.tree.root && v.value.id != id
    requires v.Some? ==> forall i :: i in b.tree.nodes ==> (b.tree.nodes[i] == v.value <==> i == v.value.id)
    ensures NewLeaf(Mid(b, id, n, v), id, n)
  {
    hide Sound, WellFormed, Mid, Evicted, NewLeaf;
    MidFacts(b, id, n, v);
    MidParents(b, id, n, v);
    SoundMeans(b);
    RootInside(b.tree);
    var u, p := Mid(b, id, n, v), Evicted(b.tree, v, b.first).parent;
    ZeroStays(b, id, n, v);
    LeafFrom(u, p, id, n);
  }

  lemma ZeroStays(b: Books, id: int, n: Node, v: Option<Node>)
    requires Sound(b) && id != 0 && (v.Some? ==> v.value in b.tree.all && v.value != b.tree.root)
    ensures 0 in Scheduler.TableAfter(b.tree.nodes, id, n, v)
    ensures Scheduler.TableAfter(b.tree.nodes, id, n, v)[0] == b.tree.root
  {
    if v.Some? {
      SoundIds(b, v.value);
    }
    SoundMeans(b);
  }

  lemma LeafFrom(u: Tree<Node>, p: map<Node, Node>, id: int, n: Node)
    requires WellFormed(u) && 0 in u.nodes && u.nodes[0] == u.root && id != 0 && id in u.nodes && u.nodes[id] == n
    requires n != u.root && n in u.all && n in u.bytes && u.bytes[n] == 0 && n in u.subtree && u.subtree[n] == 0
    requires u.parent == p[n := u.root] && forall x :: x in p ==> p[x] != n
    ensures NewLeaf(u, id, n)
  {
    hide WellFormed;
    assert forall x :: x in u.parent ==> u.parent[x] != n;
  }

  lemma RootInside(t: Tree<Node>)
    requires WellFormed(t)
    ensures t.root in t.all
  {
  }

  /** Where a new leaf is put matters to itself alone. */
  lemma LeafMoves(t: Tree<Node>, id: int, n: Node, dep: int, exclusive: bool, x: Node)
    requires NewLeaf(t, id, n) && x in t.all && x != n
    ensures Reaches(Adjusted(t, id, dep, exclusive).parent, x, t.root) <==> Reaches(t.parent, x, t.root)
  {
    if dep != id {
      var y := if dep in t.nodes then t.nodes[dep] else t.nodes[0];
      NewLeafAlone(t, id, n, x);
      ReprioritizeReaches(t, n, y, exclusive && dep in t.nodes, x);
    }
  }

  lemma LeafHealth(t: Tree<Node>, id: int, n: Node, dep: int, exclusive: bool)
    requires NewLeaf(t, id, n)
    ensures Healthy(Adjusted(t, id, dep, exclusive)) <==> Healthy(t)
  {
    var u := Adjusted(t, id, dep, exclusive);
    AdjustedHealthy(t, id, dep, exclusive);
    AdjustedFacts(t, id, dep, exclusive);
    ReachesSelf(t.parent, t.root);
    ReachesParent(t.parent, n, t.root);
    if Healthy(u) {
      hide Adjusted, WellFormed;
      forall x | x in t.all ensures Reaches(t.parent, x, t.root) <==> Reaches(u.parent, x, t.root) {
        if x != n {
          LeafMoves(t, id, n, dep, exclusive, x);
        } else {
          assert id in u.nodes;
        }
      }
      assert Below(t.parent, t.all, t.root) == Below(u.parent, u.all, u.root);
      forall x | x in t.all && Reaches(t.parent, x, t.root) ensures Tracked(t, x) {
        assert Tracked(u, x);
      }
    }
  }

  lemma IntroduceHealth(b: Books, lim: Limits, s: Step, c: Books)
    requires Sound(b) && Orderly(b) && s.Ranking? && s.id != 0 && Creates(b, lim, s.id)
    requires NextIntroduce(b, s.id, s.priority, Victim(b, lim, s), c) && Healthy(b.tree)
    ensures var n, v := c.tree.nodes[s.id], Victim(b, lim, s);
            && NewLeaf(Mid(b, s.id, n, v), s.id, n)
            && (Healthy(c.tree) <==> Harmless(b, lim, s))
            && (Healthy(c.tree) ==> Healthy(Mid(b, s.id, n, v)))
            && (Exact(b.tree) && Healthy(c.tree) ==> Exact(Mid(b, s.id, n, v)))
  {
    hide Orderly, Healthy, Exact, FirstKid, Removed, KidsOf, Adjusted, NewLeaf, Add;
    IntroduceFacts(b, lim, s, c);
    var id, n, v := s.id, c.tree.nodes[s.id], Victim(b, lim, s);
    SoundMeans(b);
    if v.Some? {
      VictimFacts(b, lim, s);
    }
    MidLeaf(b, id, n, v);
    var t := Add(b.tree, id, n, b.tree.root);
    AddTracked(b.tree, id, 0, n);
    if v.Some? {
      var e := v.value;
      AddedVictim(b.tree, id, n, e, b.first[e]);
      RemoveExactly(t, e, b.first[e], e.id);
    }
    LeafHealth(Mid(b, id, n, v), id, n, s.priority.streamDep, s.priority.exclusive);
  }

  lemma AddedVictim(t: Tree<Node>, id: int, n: Node, e: Node, first: Option<Node>)
    requires WellFormed(t) && n !in t.all && id !in t.nodes && e in t.all && e != t.root && e.id != id
    requires FirstKid(t, e, first) && forall i :: i in t.nodes ==> (t.nodes[i] == e <==> i == e.id)
    ensures var u := Add(t, id, n, t.root);
            && e in u.all && e != u.root && FirstKid(u, e, first) && KidsOf(u, e) == KidsOf(t, e)
            && (forall i :: i in u.nodes ==> (u.nodes[i] == e <==> i == e.id))
            && (e.id in u.nodes <==> e.id in t.nodes) && e in u.bytes && e in t.bytes && u.bytes[e] == t.bytes[e]
  {
    AddFirst(t, id, n, e, first);
    AddKids(t, id, n, e);
  }

  // ---------- health, call by call ----------

  lemma OpenHealth(b: Books, id: int, pusher: int, c: Books)
    requires Sound(b) && NextOpen(b, id, pusher, c) && id != 0
    ensures Healthy(b.tree) ==> Healthy(c.tree)
    ensures Exact(b.tree) ==> Exact(c.tree)
  {
    if id !in b.tree.nodes {
      AddTracked(b.tree, id, if pusher in b.tree.nodes then pusher else 0, c.tree.nodes[id]);
    }
  }

  /** From a tree in which every tracked stream hangs from the root and the root counts
      what was sent, a call leads to another exactly if its eviction is harmless. */
  lemma HealthStep(b: Books, lim: Limits, s: Step, o: Option<Sending>, c: Books,
                   used: set<int>, adjusted: set<int>, live: set<int>)
    requires Inv(b, used, adjusted, live) && Lawful(s, used, live) && Next(b, lim, s, o, c)
    requires Healthy(b.tree)
    ensures Healthy(c.tree) <==> Harmless(b, lim, s)
  {
    hide Healthy, Orderly, Sound, NextOpen, NextClose, NextIntroduce, Adjusted, Bump;
    match s
    case Opening(id, pusher) => OpenHealth(b, id, pusher, c);
    case Closing(id) => CloseHealth(b, lim, s, c);
    case Ranking(id, priority) =>
      if Creates(b, lim, id) {
        IntroduceHealth(b, lim, s, c);
      } else if id in b.tree.nodes {
        SoundMeans(b);
        AdjustedHealthy(b.tree, id, priority.streamDep, priority.exclusive);
      }
    case Queueing(wr) =>
    case Writing =>
      if o.Some? {
        BumpHealthy(b.tree, o.value.who, o.value.frame.DataSize());
      }
  }

  // ---------- counters ----------

  /** A new stream settles unless it takes over the kids of a stream below which bytes were
      sent. */
  ghost predicate NewSettles(b: Books, lim: Limits, s: Step)
    requires s.Ranking?
  {
    var dep, v := s.priority.streamDep, Victim(b, lim, s);
    dep != s.id && s.priority.exclusive && dep in b.tree.nodes && (v.Some? ==> v.value.id != dep) ==>
      var y := b.tree.nodes[dep]; y in b.tree.subtree && y in b.tree.bytes && b.tree.subtree[y] == b.tree.bytes[y]
  }

  /** The call moves nobody with bytes: a condition on the counters before it. */
  ghost predicate Settled(b: Books, lim: Limits, s: Step)
    requires Sound(b)
  {
    s.Ranking? ==>
      if s.id in b.tree.nodes then AdjustSettles(b.tree, s.id, s.priority.streamDep, s.priority.exclusive)
      else Creates(b, lim, s.id) ==> NewSettles(b, lim, s)
  }

  lemma LeafSettles(t: Tree<Node>, id: int, n: Node, dep: int, exclusive: bool)
    requires NewLeaf(t, id, n)
    ensures AdjustSettles(t, id, dep, exclusive) <==>
            (dep != id && exclusive && dep in t.nodes ==> t.subtree[t.nodes[dep]] == t.bytes[t.nodes[dep]])
  {
    if dep != id {
      NewLeafAlone(t, id, n, if dep in t.nodes then t.nodes[dep] else t.nodes[0]);
    }
  }

  lemma SettlesSame(b: Books, lim: Limits, s: Step, n: Node, mid: Tree<Node>)
    requires s.Ranking? && s.id !in b.tree.nodes && n !in b.tree.all
    requires b.tree.bytes.Keys == b.tree.all && b.tree.subtree.Keys == b.tree.all
    requires s.priority.streamDep in b.tree.nodes ==> b.tree.nodes[s.priority.streamDep] in b.tree.all
    requires mid.bytes == b.tree.bytes[n := 0] && mid.subtree == b.tree.subtree[n := 0]
    requires mid.nodes == Scheduler.TableAfter(b.tree.nodes, s.id, n, Victim(b, lim, s))
    requires forall i :: i in mid.nodes ==> mid.nodes[i] in mid.bytes && mid.nodes[i] in mid.subtree
    ensures var dep := s.priority.streamDep;
            NewSettles(b, lim, s) <==>
              (dep != s.id && s.priority.exclusive && dep in mid.nodes ==>
                 mid.subtree[mid.nodes[dep]] == mid.bytes[mid.nodes[dep]])
  {
    hide Victim;
  }

  lemma MidSettles(b: Books, lim: Limits, s: Step, n: Node)
    requires Sound(b) && Orderly(b) && s.Ranking? && s.id != 0 && Creates(b, lim, s.id) && n !in b.tree.all
             && n.id == s.id
    ensures var mid := Mid(b, s.id, n, Victim(b, lim, s));
            && NewLeaf(mid, s.id, n)
            && (AdjustSettles(mid, s.id, s.priority.streamDep, s.priority.exclusive) <==> NewSettles(b, lim, s))
            && (NonNegative(b.tree) ==> NonNegative(mid))
  {
    hide Sound, Orderly, Mid, NewLeaf, AdjustSettles, Victim, FirstKid, NewSettles;
    var v, dep := Victim(b, lim, s), s.priority.streamDep;
    if v.Some? {
      VictimFacts(b, lim, s);
    }
    MidFacts(b, s.id, n, v);
    MidLeaf(b, s.id, n, v);
    SoundMeans(b);
    var mid := Mid(b, s.id, n, v);
    SettlesSame(b, lim, s, n, mid);
    LeafSettles(mid, s.id, n, dep, s.priority.exclusive);
  }

  lemma BooksNonNegative(b: Books)
    requires Orderly(b)
    ensures NonNegative(b.tree)
  {
    forall x | x in b.tree.bytes ensures 0 <= b.tree.bytes[x] {
      QuietAt(b, x);
    }
  }

  /** Harmless evictions apart, right counters stay right exactly if the call settles. */
  lemma ExactStep(b: Books, lim: Limits, s: Step, o: Option<Sending>, c: Books,
                  used: set<int>, adjusted: set<int>, live: set<int>)
    requires Inv(b, used, adjusted, live) && Lawful(s, used, live) && Next(b, lim, s, o, c)
    requires Healthy(b.tree) && Exact(b.tree) && Harmless(b, lim, s)
    ensures Exact(c.tree) <==> Settled(b, lim, s)
  {
    hide Healthy, Exact, Orderly, Sound, NextOpen, NextClose, Adjusted, Bump, AdjustSettles, Mid, NonNegative, NewLeaf;
    SoundMeans(b);
    BooksNonNegative(b);
    match s
    case Opening(id, pusher) => OpenHealth(b, id, pusher, c);
    case Closing(id) => CloseHealth(b, lim, s, c);
    case Ranking(id, priority) =>
      if Creates(b, lim, id) {
        IntroduceHealth(b, lim, s, c);
        IntroduceExact(b, lim, s, c);
      } else if id in b.tree.nodes {
        AdjustedExact(b.tree, id, priority.streamDep, priority.exclusive);
      }
    case Queueing(wr) =>
    case Writing =>
      if o.Some? {
        BumpHealthy(b.tree, o.value.who, o.value.frame.DataSize());
      }
  }

  lemma IntroduceExact(b: Books, lim: Limits, s: Step, c: Books)
    requires Sound(b) && Orderly(b) && s.Ranking? && s.id != 0 && Creates(b, lim, s.id) && NonNegative(b.tree)
    requires NextIntroduce(b, s.id, s.priority, Victim(b, lim, s), c)
    requires var mid := Mid(b, s.id, c.tree.nodes[s.id], Victim(b, lim, s)); Healthy(mid) && Exact(mid)
    ensures Exact(c.tree) <==> NewSettles(b, lim, s)
  {
    hide Healthy, Exact, Orderly, Sound, Adjusted, AdjustSettles, Mid, NonNegative, NewSettles;
    var n := c.tree.nodes[s.id];
    var mid := Mid(b, s.id, n, Victim(b, lim, s));
    MidSettles(b, lim, s, n);
    AdjustedExact(mid, s.id, s.priority.streamDep, s.priority.exclusive);
  }

  /** The call changes the parent of no node that was there, the evicted node and its first
      kid aside. */
  ghost predicate Unmoved(b: Books, lim: Limits, s: Step)
    requires Sound(b)
  {
    s.Ranking? ==>
      var dep, v := s.priority.streamDep, Victim(b, lim, s);
      if s.id in b.tree.nodes then Adjusted(b.tree, s.id, dep, s.priority.exclusive).parent == b.tree.parent
      else
        Creates(b, lim, s.id) && dep != s.id && s.priority.exclusive && dep in b.tree.nodes
        && (v.Some? ==> v.value.id != dep) ==>
          KidsOf(Evicted(b.tree, v, b.first), b.tree.nodes[dep]) == {}
  }

  lemma MidKids(b: Books, id: int, n: Node, v: Option<Node>, y: Node)
    requires Sound(b) && n !in b.tree.all && id !in b.tree.nodes
    requires v.Some? ==> v.value in b.tree.all && v.value != b.tree.root && v.value.id != id
    ensures KidsOf(Mid(b, id, n, v), y) <= KidsOf(Evicted(b.tree, v, b.first), y) + {n}
  {
    MidParents(b, id, n, v);
    EvictedAll(b.tree, v, b.first);
    hide Sound, Mid, Evicted;
  }

  lemma EvictedAll(t: Tree<Node>, v: Option<Node>, first: map<Node, Option<Node>>)
    ensures Evicted(t, v, first).all == t.all
  {
  }

  /** A PRIORITY frame that changes no parent settles. */
  lemma UnmovedSettles(b: Books, lim: Limits, s: Step, o: Option<Sending>, c: Books,
                       used: set<int>, adjusted: set<int>, live: set<int>)
    requires Inv(b, used, adjusted, live) && Lawful(s, used, live) && Next(b, lim, s, o, c)
    requires Healthy(b.tree) && Exact(b.tree) && Harmless(b, lim, s) && Unmoved(b, lim, s)
    ensures Settled(b, lim, s)
  {
    hide Healthy, Exact, Orderly, Sound, AdjustSettles, Mid, NonNegative, NewLeaf, Adjusted;
    SoundMeans(b);
    BooksNonNegative(b);
    if s.Ranking? {
      if Creates(b, lim, s.id) {
        IntroduceHealth(b, lim, s, c);
        NewTakesNone(b, lim, s, c.tree.nodes[s.id]);
      } else if s.id in b.tree.nodes {
        AdjustedExact(b.tree, s.id, s.priority.streamDep, s.priority.exclusive);
      }
    }
  }

  lemma NewTakesNone(b: Books, lim: Limits, s: Step, n: Node)
    requires Sound(b) && Orderly(b) && s.Ranking? && s.id != 0 && Creates(b, lim, s.id) && n !in b.tree.all
             && n.id == s.id
    requires Unmoved(b, lim, s) && Exact(Mid(b, s.id, n, Victim(b, lim, s)))
    ensures NewSettles(b, lim, s)
  {
    hide Orderly, Sound, Mid, Adjusted;
    var v, dep := Victim(b, lim, s), s.priority.streamDep;
    if dep != s.id && s.priority.exclusive && dep in b.tree.nodes && (v.Some? ==> v.value.id != dep) {
      if v.Some? {
        VictimFacts(b, lim, s);
      }
      MidFacts(b, s.id, n, v);
      MidLeaf(b, s.id, n, v);
      NodeKnown(b, dep);
      var y := b.tree.nodes[dep];
      MidKids(b, s.id, n, v, y);
      assert dep in Mid(b, s.id, n, v).nodes && Mid(b, s.id, n, v).nodes[dep] == y;
      LoneCounts(Mid(b, s.id, n, v), y, n);
    }
  }
}
