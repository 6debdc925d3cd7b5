/** Every call keeps the invariant of the priority scheduler's books. */
module PriorityKeeps {
  import opened Common
  import opened Flow
  import opened Frames
  import opened Forest
  import opened PriorityModel
  import opened PriorityCounts
  import opened PriorityNode
  import opened PriorityScheduler
  import opened PriorityBooks

  // ---------- the pattern of all calls ----------

  /** Apart from the shape of the tree, one node is new or changed and one may go. */
  ghost predicate Delta(b: Books, c: Books, n: Node, v: Option<Node>) {
    && c.tree.root == b.tree.root && c.tree.all == b.tree.all + {n}
    && n in c.states && n in c.queues && n in c.tree.bytes
    && c.states == b.states[n := c.states[n]]
    && c.queues == b.queues[n := c.queues[n]]
    && c.tree.bytes == b.tree.bytes[n := c.tree.bytes[n]]
    && c.tree.nodes == Scheduler.TableAfter(b.tree.nodes, n.id, n, v)
    && c.tree.parent.Keys <= b.tree.parent.Keys + {n}
    && (v.Some? ==> v.value !in c.tree.parent)
    && (n.id in b.tree.nodes ==> b.tree.nodes[n.id] == n)
    && (v.Some? && v.value != n ==> v.value.id != n.id && v.value in b.states && Listed(b, v.value))
  }

  /** Nodes join lists at the end and leave them at the front. */
  ghost predicate Lists(b: Books, c: Books, n: Node, v: Option<Node>) {
    && n in c.states
    && (forall m :: m in c.closed ==> m in b.closed || m == n)
    && (forall m :: m in c.idle ==> m in b.idle || m == n)
    && (n in c.closed ==> c.states[n].Closed?)
    && (v.Some? && v.value != n && v.value in c.idle ==> v.value in b.closed)
    && Distinct(c.idle)
  }

  lemma DeltaQuiet(b: Books, c: Books, n: Node, v: Option<Node>)
    requires Complete(b) && Complete(c) && AllQuiet(b) && Delta(b, c, n, v) && Quiet(c, n)
    ensures AllQuiet(c)
  {
    hide NoData, Listed;
    forall m | m in c.tree.all ensures Quiet(c, m) {
      assert m != n ==> Quiet(b, m);
    }
  }

  lemma ListedStays(b: Books, c: Books, n: Node, v: Option<Node>, m: Node)
    requires Delta(b, c, n, v) && m in b.states && m in c.states && Listed(b, m) && m != n && m.id != n.id
    requires v == Some(m) ==> !b.states[m].Idle?
    ensures Listed(c, m)
  {
  }

  lemma DeltaLists(b: Books, c: Books, n: Node, v: Option<Node>)
    requires Complete(b) && Complete(c) && ListsOk(b) && Delta(b, c, n, v) && Lists(b, c, n, v)
    requires v == Some(n) ==> !c.states[n].Idle?
    requires forall m :: m in b.closed && m.id == n.id ==> m == n
    requires forall m :: m in b.idle && m.id == n.id ==> m == n
    ensures ListsOk(c)
  {
    hide Distinct;
    assert Listed(c, n);
    forall m | m in c.closed ensures c.states[m].Closed? && Listed(c, m) {
      if m != n {
        ListedStays(b, c, n, v, m);
      }
    }
    forall m | m in c.idle ensures Listed(c, m) {
      if m != n {
        ListedStays(b, c, n, v, m);
      }
    }
  }

  lemma DeltaTraced(b: Books, c: Books, n: Node, v: Option<Node>, used: set<int>, adjusted: set<int>,
                    used2: set<int>, adjusted2: set<int>)
    requires Complete(c) && Traced(b, used, adjusted) && Delta(b, c, n, v) && Lists(b, c, n, v)
    requires used <= used2 && adjusted <= adjusted2 && (n in c.idle && n !in b.idle ==> n.id in adjusted2)
    requires if c.states[n].Idle? then n.id in adjusted2 else n.id in used2
    ensures Traced(c, used2, adjusted2)
  {
    hide Distinct, Listed;
    forall m | m in c.tree.all ensures if c.states[m].Idle? then m.id in adjusted2 else m.id in used2 {
      assert m != n ==> m in b.tree.all && c.states[m] == b.states[m];
    }
  }

  lemma DeltaLive(b: Books, c: Books, n: Node, v: Option<Node>, live: set<int>, live2: set<int>)
    requires Complete(b) && OpenLive(b, live) && Delta(b, c, n, v) && live - {n.id} == live2 - {n.id}
    requires n.id != 0 ==> (c.states[n].Open? <==> n.id in live2)
    ensures OpenLive(c, live2)
  {
    hide Listed;
    forall id | id in c.tree.nodes && id != 0 && c.tree.nodes[id] in c.states
      ensures c.states[c.tree.nodes[id]].Open? <==> id in live2
    {
      if id != n.id {
        assert c.tree.nodes[id] == b.tree.nodes[id] && b.tree.nodes[id].id == id;
        assert c.states[c.tree.nodes[id]] == b.states[b.tree.nodes[id]];
        assert id in live <==> id in live - {n.id};
        assert id in live2 <==> id in live2 - {n.id};
      }
    }
  }

  lemma DeltaAnchored(b: Books, c: Books, n: Node, v: Option<Node>)
    requires Complete(b) && Anchored(b) && Delta(b, c, n, v)
    ensures Anchored(c)
  {
    forall x | x in c.tree.parent ensures x.id in c.tree.nodes && c.tree.nodes[x.id] == x {
      assert x != n ==> x in b.tree.parent && b.tree.nodes[x.id] == x;
    }
  }

  lemma DeltaAddressed(b: Books, c: Books, n: Node, v: Option<Node>)
    requires Complete(b) && Complete(c) && Addressed(b) && Delta(b, c, n, v)
    requires 0 in b.tree.nodes && b.tree.nodes[0] == b.tree.root
    requires if n == b.tree.root then NoData(c.queues[n]) else AllFor(c.queues[n], n.id)
    ensures Addressed(c)
  {
    hide NoData, AllFor, Listed;
    forall id | id in c.tree.nodes && id != 0 && c.tree.nodes[id] in c.queues
      ensures AllFor(c.queues[c.tree.nodes[id]], id)
    {
      if id == n.id {
        assert c.tree.nodes[id] == n;
      } else {
        assert c.tree.nodes[id] == b.tree.nodes[id] && c.tree.nodes[id] != n;
      }
    }
  }

  /** The changed node is in order. */
  ghost predicate InOrder(b: Books, c: Books, n: Node, used: set<int>, adjusted: set<int>, live: set<int>)
    requires n in c.states && n in c.queues && n in c.tree.bytes
  {
    && Quiet(c, n)
    && (forall m :: m in b.closed && m.id == n.id ==> m == n)
    && (forall m :: m in b.idle && m.id == n.id ==> m == n)
    && (n in c.idle && n !in b.idle ==> n.id in adjusted)
    && (if c.states[n].Idle? then n.id in adjusted else n.id in used)
    && (n.id != 0 ==> (c.states[n].Open? <==> n.id in live))
    && (if n == b.tree.root then NoData(c.queues[n]) else AllFor(c.queues[n], n.id))
  }

  /** The pattern keeps the invariant. */
  lemma DeltaInv(b: Books, c: Books, n: Node, v: Option<Node>, used: set<int>, adjusted: set<int>, live: set<int>,
                 used2: set<int>, adjusted2: set<int>, live2: set<int>)
    requires Inv(b, used, adjusted, live) && Sound(c) && Delta(b, c, n, v) && Lists(b, c, n, v)
    requires used <= used2 <= used + {n.id} && adjusted <= adjusted2
    requires live - {n.id} == live2 - {n.id} && live2 <= used2 && 0 !in live2 && b.maxID <= c.maxID
    requires InOrder(b, c, n, used2, adjusted2, live2) && (v == Some(n) ==> !c.states[n].Idle?)
    ensures Inv(c, used2, adjusted2, live2)
  {
    hide Delta, Quiet, NoData, AllFor, ListsOk, AllQuiet, Traced, OpenLive, Anchored, Addressed, WellFormed, Lists;
    hide Complete, Sound;
    DeltaHas(b, c, n, v);
    SoundMeans(b);
    SoundMeans(c);
    DeltaQuiet(b, c, n, v);
    DeltaLists(b, c, n, v);
    DeltaTraced(b, c, n, v, used, adjusted, used2, adjusted2);
    DeltaLive(b, c, n, v, live, live2);
    DeltaAnchored(b, c, n, v);
    DeltaAddressed(b, c, n, v);
    SoundIds(c, n);
  }

  lemma SoundMeans(b: Books)
    requires Sound(b)
    ensures Complete(b) && WellFormed(b.tree) && 0 in b.tree.nodes && b.tree.nodes[0] == b.tree.root
  {
  }

  lemma DeltaHas(b: Books, c: Books, n: Node, v: Option<Node>)
    requires Delta(b, c, n, v)
    ensures n in c.tree.all && n in c.states && n in c.queues && n in c.tree.bytes
  {
  }

  lemma SoundIds(b: Books, n: Node)
    requires Sound(b) && n in b.tree.all
    ensures n.id <= b.maxID && (n.id == 0 <==> n == b.tree.root)
  {
  }

  // ---------- call by call ----------

  lemma NoDataNothing()
    ensures NoData([]) && forall id :: AllFor([], id)
  {
  }

  /** What the invariant says of a listed node with the id of n. */
  lemma SameIdListed(b: Books, n: Node, m: Node, used: set<int>, adjusted: set<int>)
    requires Orderly(b) && Traced(b, used, adjusted) && (m in b.closed || m in b.idle) && m.id == n.id
    ensures n.id in b.tree.nodes ==> b.tree.nodes[n.id] == m
    ensures n.id !in b.tree.nodes ==> n.id in used
    ensures m in b.closed ==> n.id in used
  {
    assert Listed(b, m);
  }

  lemma SameIds(b: Books, n: Node, used: set<int>, adjusted: set<int>)
    requires Orderly(b) && Traced(b, used, adjusted)
    requires if n.id in b.tree.nodes then b.tree.nodes[n.id] == n else n.id !in used
    ensures forall m :: m in b.closed && m.id == n.id ==> m == n
    ensures forall m :: m in b.idle && m.id == n.id ==> m == n
    ensures n.id !in used ==> n !in b.closed
  {
    forall m | m in b.closed && m.id == n.id ensures m == n && n.id in used {
      SameIdListed(b, n, m, used, adjusted);
    }
    forall m | m in b.idle && m.id == n.id ensures m == n {
      SameIdListed(b, n, m, used, adjusted);
    }
  }

  lemma OpenFacts(b: Books, id: int, pusher: int, c: Books)
    requires Complete(b) && NextOpen(b, id, pusher, c)
    ensures id in c.tree.nodes && c.tree.nodes[id].id == id && b.maxID <= c.maxID && c.tree.root == b.tree.root
  {
  }

  lemma OpenDelta(b: Books, id: int, pusher: int, c: Books)
    requires Complete(b) && NextOpen(b, id, pusher, c)
    ensures Delta(b, c, c.tree.nodes[id], None)
  {
    hide Listed;
  }

  lemma OpenOrder(b: Books, id: int, pusher: int, c: Books, used: set<int>, adjusted: set<int>, live: set<int>)
    requires Complete(b) && Orderly(b) && Traced(b, used, adjusted) && Addressed(b) && id !in used && id != 0
    requires NextOpen(b, id, pusher, c) && c.tree.nodes[id] != b.tree.root && c.tree.nodes[id] in c.tree.bytes
    ensures var n := c.tree.nodes[id];
            n in c.states && n in c.queues && InOrder(b, c, n, used + {id}, adjusted, live + {id})
              && Lists(b, c, n, None)
  {
    var n := c.tree.nodes[id];
    NoDataNothing();
    SameIds(b, n, used, adjusted);
    if id in b.tree.nodes {
      assert Quiet(b, n);
    }
    hide NoData, AllFor, Listed;
  }

  lemma OpenInv(b: Books, id: int, pusher: int, c: Books, used: set<int>, adjusted: set<int>, live: set<int>)
    requires Inv(b, used, adjusted, live) && Sound(c) && id !in used && NextOpen(b, id, pusher, c)
    ensures Inv(c, used + {id}, adjusted, live + {id})
  {
    hide Delta, Lists, InOrder, NextOpen, Traced, Addressed, Anchored, OpenLive, Sound, Orderly, Complete, WellFormed;
    SoundMeans(b);
    OpenFacts(b, id, pusher, c);
    var n := c.tree.nodes[id];
    OpenDelta(b, id, pusher, c);
    DeltaHas(b, c, n, None);
    SoundIds(c, n);
    OpenOrder(b, id, pusher, c, used, adjusted, live);
    DeltaInv(b, c, n, None, used, adjusted, live, used + {id}, adjusted, live + {id});
  }

  /** A victim from a list is known to the invariant, and the list goes on without it. */
  lemma OldestListed(b: Books, list: seq<Node>, max: int)
    requires Scheduler.Oldest(list, max).Some?
    ensures list != [] && Scheduler.Oldest(list, max).value == list[0] && list[0] in list
    ensures Rest(list, Scheduler.Oldest(list, max)) == list[1..]
  {
  }

  lemma ClosingVictim(b: Books, lim: Limits, s: Step)
    requires Orderly(b) && s.Closing? && s.id in b.tree.nodes && b.states[b.tree.nodes[s.id]].Open?
    ensures var n, v := b.tree.nodes[s.id], Victim(b, lim, s);
            v.Some? && v.value != n ==>
              && lim.closed > 0 && v.value in b.closed && v.value.id != n.id && v.value in b.states
                && Listed(b, v.value)
              && b.states[v.value].Closed?
    ensures var n, v := b.tree.nodes[s.id], Victim(b, lim, s); lim.closed > 0 ==> v != Some(n)
  {
    var n, v := b.tree.nodes[s.id], Victim(b, lim, s);
    if v.Some? && lim.closed > 0 {
      OldestListed(b, b.closed, lim.closed);
    }
  }

  lemma RemoveKeys(t: Tree<Node>, e: Node, first: Option<Node>)
    requires FirstKid(t, e, first)
    ensures Remove(t.parent, e, first).Keys <= t.parent.Keys - {e}
  {
  }

  lemma EvictedFacts(t: Tree<Node>, v: Option<Node>, first: map<Node, Option<Node>>)
    requires v.Some? ==> v.value in first && FirstKid(t, v.value, first[v.value])
    ensures var u := Evicted(t, v, first);
            && u.root == t.root && u.all == t.all && u.bytes == t.bytes && u.subtree == t.subtree
            && u.nodes == (if v.Some? then t.nodes - {v.value.id} else t.nodes)
            && u.parent.Keys <= t.parent.Keys && (v.Some? ==> v.value !in u.parent)
  {
    if v.Some? {
      RemoveKeys(t, v.value, first[v.value]);
    }
  }

  lemma VictimFirst(b: Books, v: Option<Node>)
    requires Sound(b) && (v.Some? ==> v.value in b.tree.all)
    ensures v.Some? ==> v.value in b.first && FirstKid(b.tree, v.value, b.first[v.value])
  {
  }

  lemma BumpFirst(t: Tree<Node>, n: Node, d: int, e: Node, first: Option<Node>)
    requires WellFormed(t) && n in t.all && FirstKid(t, e, first)
    ensures FirstKid(Bump(t, n, d), e, first)
  {
    assert KidsOf(Bump(t, n, d), e) == KidsOf(t, e);
  }

  /** The tree that closing leaves, but for its shape and counters. */
  lemma CloseTree(b: Books, n: Node, v: Option<Node>)
    requires Sound(b) && n in b.tree.all && (v.Some? ==> v.value in b.tree.all)
    ensures var u := Evicted(Bump(b.tree, n, -b.tree.bytes[n]), v, b.first);
            && u.root == b.tree.root && u.all == b.tree.all && u.bytes == b.tree.bytes[n := 0]
            && u.nodes == (if v.Some? then b.tree.nodes - {v.value.id} else b.tree.nodes)
            && u.parent.Keys <= b.tree.parent.Keys && (v.Some? ==> v.value !in u.parent)
  {
    VictimFirst(b, v);
    var t := Bump(b.tree, n, -b.tree.bytes[n]);
    if v.Some? {
      BumpFirst(b.tree, n, -b.tree.bytes[n], v.value, b.first[v.value]);
    }
    EvictedFacts(t, v, b.first);
  }

  /** The tree agrees with the pattern. */
  ghost predicate TreeDelta(t: Tree<Node>, u: Tree<Node>, n: Node, v: Option<Node>, bytes: int) {
    && u.root == t.root && u.all == t.all + {n} && u.bytes == t.bytes[n := bytes]
    && u.nodes == Scheduler.TableAfter(t.nodes, n.id, n, v)
    && u.parent.Keys <= t.parent.Keys + {n} && (v.Some? ==> v.value !in u.parent)
    && (n.id in t.nodes ==> t.nodes[n.id] == n)
  }

  lemma FromTree(b: Books, c: Books, n: Node, v: Option<Node>, bytes: int, state: NodeState, q: seq<FrameWriteRequest>)
    requires TreeDelta(b.tree, c.tree, n, v, bytes)
    requires c.states == b.states[n := state] && c.queues == b.queues[n := q]
    requires v.Some? && v.value != n ==> v.value.id != n.id && v.value in b.states && Listed(b, v.value)
    ensures Delta(b, c, n, v) && c.states[n] == state && c.queues[n] == q && c.tree.bytes[n] == bytes
  {
    hide Listed;
  }

  lemma CloseTreeDelta(b: Books, n: Node, v: Option<Node>)
    requires Sound(b) && n in b.tree.all && (v.Some? ==> v.value in b.tree.all)
    requires n.id in b.tree.nodes && b.tree.nodes[n.id] == n
    ensures TreeDelta(b.tree, Evicted(Bump(b.tree, n, -b.tree.bytes[n]), v, b.first), n, v, 0)
  {
    CloseTree(b, n, v);
    hide Sound, Complete, WellFormed, Bump, Evicted;
    assert b.tree.all + {n} == b.tree.all && b.tree.nodes[n.id := n] == b.tree.nodes;
  }

  lemma CloseDelta(b: Books, lim: Limits, s: Step, c: Books)
    requires Sound(b) && Orderly(b) && s.Closing? && NextClose(b, lim, s.id, Victim(b, lim, s), c)
    ensures var n, v := b.tree.nodes[s.id], Victim(b, lim, s);
            Delta(b, c, n, v) && c.states[n].Closed? && c.queues[n] == [] && c.tree.bytes[n] == 0
  {
    hide Sound, Complete, WellFormed, Listed, ListsOk, AllQuiet, Bump, Evicted, Delta, TreeDelta, Victim;
    SoundMeans(b);
    CloseFacts(b, lim, s, c);
    var n, v := b.tree.nodes[s.id], Victim(b, lim, s);
    ClosingVictim(b, lim, s);
    ClosedInTree(b);
    CloseTreeDelta(b, n, v);
    FromTree(b, c, n, v, 0, Closed, []);
  }

  lemma ClosedInTree(b: Books)
    requires Complete(b)
    ensures forall m :: m in b.closed ==> m in b.tree.all
  {
  }

  lemma CloseLists(b: Books, lim: Limits, s: Step, c: Books)
    requires Orderly(b) && s.Closing? && NextClose(b, lim, s.id, Victim(b, lim, s), c)
    ensures Lists(b, c, b.tree.nodes[s.id], Victim(b, lim, s))
  {
    ClosingVictim(b, lim, s);
    hide WellFormed, Listed, Bump, Evicted, AllQuiet, Distinct;
  }

  lemma CloseInv(b: Books, lim: Limits, s: Step, c: Books, used: set<int>, adjusted: set<int>, live: set<int>)
    requires Inv(b, used, adjusted, live) && Sound(c) && s.Closing? && s.id in live
    requires NextClose(b, lim, s.id, Victim(b, lim, s), c)
    ensures Inv(c, used, adjusted, live - {s.id})
  {
    hide Delta, Lists, NextClose, Traced, Addressed, Anchored, OpenLive, Sound, Orderly, Complete, WellFormed, NoData;
    hide AllFor, Victim;
    SoundMeans(b);
    CloseFacts(b, lim, s, c);
    var n, v := b.tree.nodes[s.id], Victim(b, lim, s);
    CloseDelta(b, lim, s, c);
    CloseLists(b, lim, s, c);
    DeltaHas(b, c, n, v);
    SoundIds(c, n);
    NoDataNothing();
    SameIds(b, n, used, adjusted);
    assert InOrder(b, c, n, used, adjusted, live - {s.id});
    DeltaInv(b, c, n, v, used, adjusted, live, used, adjusted, live - {s.id});
  }

  lemma CloseFacts(b: Books, lim: Limits, s: Step, c: Books)
    requires Complete(b) && s.Closing? && NextClose(b, lim, s.id, Victim(b, lim, s), c)
    ensures s.id in b.tree.nodes && b.tree.nodes[s.id] in b.tree.all && b.tree.nodes[s.id].id == s.id
    ensures c.maxID == b.maxID && c.idle == b.idle && c.tree.root == b.tree.root
  {
  }

  // ---------- a new idle node ----------

  lemma RankingVictim(b: Books, lim: Limits, s: Step)
    requires Sound(b) && Orderly(b) && s.Ranking? && Creates(b, lim, s.id)
    ensures var v := Victim(b, lim, s);
            v.Some? ==>
              && b.idle != [] && v.value == b.idle[0] && v.value in b.idle && v.value in b.tree.all
              && v.value.id != s.id && v.value in b.states && Listed(b, v.value)
              && (forall m :: m in b.idle[1..] ==> m != v.value)
  {
    var v := Victim(b, lim, s);
    if v.Some? {
      OldestListed(b, b.idle, lim.idle);
    }
  }

  lemma AddFirst(t: Tree<Node>, id: int, n: Node, e: Node, first: Option<Node>)
    requires WellFormed(t) && n !in t.all && e in t.all && e != t.root && FirstKid(t, e, first)
    ensures FirstKid(Add(t, id, n, t.root), e, first)
  {
    assert KidsOf(Add(t, id, n, t.root), e) == KidsOf(t, e);
  }

  /** The tree with the new node in and the victim out. */
  lemma MidFacts(b: Books, id: int, n: Node, v: Option<Node>)
    requires Sound(b) && n !in b.tree.all && id !in b.tree.nodes
    requires v.Some? ==> v.value in b.tree.all && v.value != b.tree.root && v.value.id != id
    ensures var u := Mid(b, id, n, v);
            && u.root == b.tree.root && u.all == b.tree.all + {n} && u.bytes == b.tree.bytes[n := 0]
            && u.subtree == b.tree.subtree[n := 0]
            && u.nodes == Scheduler.TableAfter(b.tree.nodes, id, n, v)
            && u.parent.Keys <= b.tree.parent.Keys + {n} && (v.Some? ==> v.value !in u.parent)
            && WellFormed(u) && id in u.nodes && u.nodes[id] == n
  {
    VictimFirst(b, v);
    var t := Add(b.tree, id, n, b.tree.root);
    AddWellFormed(b.tree, id, n, b.tree.root);
    if v.Some? {
      AddFirst(b.tree, id, n, v.value, b.first[v.value]);
      RemoveWellFormed(t, v.value, b.first[v.value], v.value.id);
    }
    EvictedFacts(t, v, b.first);
  }

  lemma AdjustedFacts(t: Tree<Node>, id: int, dep: int, exclusive: bool)
    requires id in t.nodes && 0 in t.nodes
    ensures var u := Adjusted(t, id, dep, exclusive);
            && u.root == t.root && u.all == t.all && u.bytes == t.bytes && u.subtree == t.subtree && u.nodes == t.nodes
            && u.parent.Keys <= t.parent.Keys + {t.nodes[id]}
  {
    var n := t.nodes[id];
    if dep != id && dep in t.nodes && n != t.nodes[dep] {
      ReprioritizeKeys(t.parent, n, t.nodes[dep], exclusive);
    }
    if dep !in t.nodes && n != t.nodes[0] {
      ReprioritizeKeys(t.parent, n, t.nodes[0], false);
    }
  }

  lemma MidTreeDelta(b: Books, id: int, n: Node, v: Option<Node>, priority: PriorityParam)
    requires Sound(b) && n !in b.tree.all && n.id == id && id !in b.tree.nodes && id != 0
    requires v.Some? ==> v.value in b.tree.all && v.value != b.tree.root && v.value.id != id
    requires id in Mid(b, id, n, v).nodes && 0 in Mid(b, id, n, v).nodes
    ensures TreeDelta(b.tree, Adjusted(Mid(b, id, n, v), id, priority.streamDep, priority.exclusive), n, v, 0)
  {
    MidFacts(b, id, n, v);
    hide Sound, WellFormed, Mid, Adjusted;
    AdjustedFacts(Mid(b, id, n, v), id, priority.streamDep, priority.exclusive);
  }

  lemma IntroduceDelta(b: Books, lim: Limits, s: Step, c: Books)
    requires Sound(b) && Orderly(b) && s.Ranking? && s.id != 0 && Creates(b, lim, s.id)
    requires NextIntroduce(b, s.id, s.priority, Victim(b, lim, s), c)
    ensures var n, v := c.tree.nodes[s.id], Victim(b, lim, s);
            && Delta(b, c, n, v) && c.states[n].Idle? && c.queues[n] == [] && c.tree.bytes[n] == 0
            && v != Some(n) && c.tree.root == b.tree.root
  {
    hide Sound, Complete, WellFormed, Listed, ListsOk, AllQuiet, Mid, Adjusted, Delta, TreeDelta, Victim;
    RankingVictim(b, lim, s);
    IdleNotRoot(b);
    var n, v := c.tree.nodes[s.id], Victim(b, lim, s);
    MidTreeDelta(b, s.id, n, v, s.priority);
    FromTree(b, c, n, v, 0, Idle, []);
    RootSame(b, c, n, v);
  }

  lemma RootSame(b: Books, c: Books, n: Node, v: Option<Node>)
    requires Delta(b, c, n, v)
    ensures c.tree.root == b.tree.root
  {
  }

  lemma IdleNotRoot(b: Books)
    requires Sound(b)
    ensures forall m :: m in b.idle ==> m != b.tree.root
  {
  }

  lemma IntroduceLists(b: Books, lim: Limits, s: Step, c: Books)
    requires Sound(b) && Orderly(b) && s.Ranking? && Creates(b, lim, s.id)
    requires NextIntroduce(b, s.id, s.priority, Victim(b, lim, s), c)
    ensures Lists(b, c, c.tree.nodes[s.id], Victim(b, lim, s))
  {
    hide Sound, WellFormed, Listed, AllQuiet, Mid, Adjusted, Victim, Distinct, Lists;
    RankingVictim(b, lim, s);
    var n, v := c.tree.nodes[s.id], Victim(b, lim, s);
    JoinIdle(b, c, n, v);
  }

  lemma JoinIdle(b: Books, c: Books, n: Node, v: Option<Node>)
    requires n in c.states && n !in b.idle && n !in b.closed && Distinct(b.idle)
    requires c.closed == b.closed && c.idle == Rest(b.idle, v) + [n]
    requires v.Some? ==> b.idle != [] && v.value == b.idle[0]
    ensures Lists(b, c, n, v)
  {
  }

  lemma IntroduceFacts(b: Books, lim: Limits, s: Step, c: Books)
    requires s.Ranking? && Creates(b, lim, s.id) && NextIntroduce(b, s.id, s.priority, Victim(b, lim, s), c)
    ensures s.id in c.tree.nodes && c.tree.nodes[s.id].id == s.id && c.maxID == s.id && s.id > b.maxID
    ensures s.id !in b.tree.nodes && c.tree.nodes[s.id] !in b.tree.all
  {
  }

  lemma IntroduceInv(b: Books, lim: Limits, s: Step, c: Books, used: set<int>, adjusted: set<int>, live: set<int>)
    requires Inv(b, used, adjusted, live) && Sound(c) && s.Ranking? && s.id != 0 && Creates(b, lim, s.id)
    requires NextIntroduce(b, s.id, s.priority, Victim(b, lim, s), c)
    ensures Inv(c, used, adjusted + {s.id}, live)
  {
    hide Delta, Lists, NextIntroduce, Traced, Addressed, Anchored, OpenLive, Sound, Orderly, Complete, WellFormed,
         NoData;
    hide AllFor, Victim;
    SoundMeans(b);
    IntroduceFacts(b, lim, s, c);
    var n, v := c.tree.nodes[s.id], Victim(b, lim, s);
    IntroduceDelta(b, lim, s, c);
    IntroduceLists(b, lim, s, c);
    DeltaHas(b, c, n, v);
    SoundIds(c, n);
    NoDataNothing();
    SameIds(b, n, used, adjusted);
    assert InOrder(b, c, n, used, adjusted + {s.id}, live);
    DeltaInv(b, c, n, v, used, adjusted, live, used, adjusted + {s.id}, live);
  }

  // ---------- calls on a tracked node ----------

  /** A call that changes a tracked node's queue or counters, or the shape of the tree. */
  ghost predicate Touches(b: Books, c: Books, n: Node) {
    && n in b.tree.all && n.id in b.tree.nodes && b.tree.nodes[n.id] == n
    && n in c.queues && n in c.tree.bytes
    && c.tree.root == b.tree.root && c.tree.all == b.tree.all && c.tree.nodes == b.tree.nodes
    && c.tree.bytes == b.tree.bytes[n := c.tree.bytes[n]] && c.queues == b.queues[n := c.queues[n]]
    && c.states == b.states && c.closed == b.closed && c.idle == b.idle && c.maxID == b.maxID
    && c.tree.parent.Keys <= b.tree.parent.Keys + {n}
  }

  lemma TouchDelta(b: Books, c: Books, n: Node)
    requires Complete(b) && Touches(b, c, n)
    ensures Delta(b, c, n, None)
  {
    hide Listed;
  }

  lemma TouchOrder(b: Books, c: Books, n: Node, used: set<int>, adjusted: set<int>, live: set<int>)
    requires Sound(b) && Orderly(b) && Traced(b, used, adjusted) && OpenLive(b, live) && Touches(b, c, n) && 0 !in live
    requires n in c.states && Quiet(c, n)
    requires if n == b.tree.root then NoData(c.queues[n]) else AllFor(c.queues[n], n.id)
    ensures InOrder(b, c, n, used, adjusted, live) && Lists(b, c, n, None)
  {
    SameIds(b, n, used, adjusted);
    hide WellFormed, Listed, FirstKid, AllQuiet, NoData, AllFor, Distinct;
  }

  lemma TouchInv(b: Books, c: Books, n: Node, used: set<int>, adjusted: set<int>, live: set<int>)
    requires Inv(b, used, adjusted, live) && Sound(c) && Touches(b, c, n) && n in c.states && Quiet(c, n)
    requires if n == b.tree.root then NoData(c.queues[n]) else AllFor(c.queues[n], n.id)
    ensures Inv(c, used, adjusted, live)
  {
    hide Delta, Lists, Traced, Addressed, Anchored, OpenLive, Sound, Orderly, Complete, WellFormed, NoData, AllFor;
    hide Quiet, Touches, InOrder;
    SoundMeans(b);
    TouchDelta(b, c, n);
    TouchOrder(b, c, n, used, adjusted, live);
    TouchIDs(b, c, n);
    DeltaInv(b, c, n, None, used, adjusted, live, used, adjusted, live);
  }

  lemma TouchIDs(b: Books, c: Books, n: Node)
    requires Touches(b, c, n)
    ensures b.maxID == c.maxID
  {
  }

  lemma QuietAt(b: Books, n: Node)
    requires Orderly(b) && n in b.tree.all
    ensures n in b.states && n in b.queues && n in b.tree.bytes && Quiet(b, n)
  {
  }

  lemma FramesAt(b: Books, n: Node)
    requires Sound(b) && Addressed(b) && n.id in b.tree.nodes && b.tree.nodes[n.id] == n
    ensures n in b.queues && if n == b.tree.root then NoData(b.queues[n]) else AllFor(b.queues[n], n.id)
  {
    hide NoData, AllFor;
  }

  lemma NodeKnown(b: Books, id: int)
    requires Sound(b) && id in b.tree.nodes
    ensures b.tree.nodes[id] in b.tree.all && b.tree.nodes[id].id == id
  {
  }

  /** A priority for a known stream, or for one that is gone for good. */
  lemma RankInv(b: Books, id: int, priority: PriorityParam, c: Books, used: set<int>, adjusted: set<int>,
                live: set<int>)
    requires Inv(b, used, adjusted, live) && Sound(c) && id != 0 && NextRank(b, id, priority, c)
    ensures Inv(c, used, adjusted, live)
  {
    hide Sound, Orderly, Traced, OpenLive, Anchored, Addressed, NoData, AllFor, Adjusted, Touches, Quiet;
    var n := b.tree.nodes[id];
    NodeKnown(b, id);
    QuietAt(b, n);
    FramesAt(b, n);
    AdjustedFacts(b.tree, id, priority.streamDep, priority.exclusive);
    RankTouches(b, c, n);
    TouchInv(b, c, n, used, adjusted, live);
  }

  lemma RankTouches(b: Books, c: Books, n: Node)
    requires n in b.tree.all && n.id in b.tree.nodes && b.tree.nodes[n.id] == n && n in b.queues && n in b.tree.bytes
    requires c == b.(tree := c.tree, first := c.first, weights := c.weights) && c.tree.root == b.tree.root
             && c.tree.all == b.tree.all
    requires c.tree.nodes == b.tree.nodes && c.tree.bytes == b.tree.bytes
    requires c.tree.parent.Keys <= b.tree.parent.Keys + {n}
    ensures Touches(b, c, n) && (n in b.states && Quiet(b, n) ==> Quiet(c, n))
  {
  }

  lemma InvMore(b: Books, used: set<int>, adjusted: set<int>, live: set<int>, id: int)
    requires Inv(b, used, adjusted, live)
    ensures Inv(b, used, adjusted + {id}, live)
  {
    hide Sound, Orderly, OpenLive, Anchored, Addressed;
  }

  /** Only the heads of the lists of kids differ. */
  lemma StillInv(b: Books, c: Books, used: set<int>, adjusted: set<int>, live: set<int>)
    requires Inv(b, used, adjusted, live) && Sound(c) && c == b.(first := c.first)
    ensures Inv(c, used, adjusted, live)
  {
    hide Sound, Orderly, Traced, OpenLive, Anchored, Addressed, NoData, AllFor, Touches, Quiet;
    SoundMeans(b);
    var n := b.tree.root;
    NodeKnown(b, 0);
    QuietAt(b, n);
    FramesAt(b, n);
    RankTouches(b, c, n);
    TouchInv(b, c, n, used, adjusted, live);
  }

  lemma QueueSnoc(q: seq<FrameWriteRequest>, wr: FrameWriteRequest, id: int)
    ensures NoData(q) && wr.DataSize() == 0 ==> NoData(q + [wr])
    ensures AllFor(q, id) && wr.StreamID() == id ==> AllFor(q + [wr], id)
  {
  }

  lemma TargetKnown(b: Books, id: int)
    requires Sound(b)
    ensures var n := Target(b, id);
            && n in b.tree.all && n.id in b.tree.nodes && b.tree.nodes[n.id] == n && n in b.queues
            && (n != b.tree.root ==> n.id == id && id in b.tree.nodes) && (id in b.tree.nodes ==> n == b.tree.nodes[id])
            && (id == 0 ==> n == b.tree.root) && (n == b.tree.root && id in b.tree.nodes ==> id == 0)
  {
    NodeKnown(b, 0);
    if id in b.tree.nodes {
      NodeKnown(b, id);
    }
  }

  lemma PushTouches(b: Books, c: Books, n: Node, wr: FrameWriteRequest)
    requires n in b.tree.all && n.id in b.tree.nodes && b.tree.nodes[n.id] == n && n in b.queues
    requires n in b.states && n in b.tree.bytes && Quiet(b, n) && (wr.DataSize() > 0 ==> b.states[n].Open?)
    requires c == b.(queues := b.queues[n := b.queues[n] + [wr]])
    ensures Touches(b, c, n) && n in c.states && Quiet(c, n) && c.queues[n] == b.queues[n] + [wr]
  {
  }

  lemma LiveOpen(b: Books, id: int, live: set<int>)
    requires Sound(b) && OpenLive(b, live) && id in live && id in b.tree.nodes && id != 0
    ensures b.tree.nodes[id] in b.states && b.states[b.tree.nodes[id]].Open?
  {
    NodeKnown(b, id);
  }

  lemma PushInv(b: Books, wr: FrameWriteRequest, c: Books, used: set<int>, adjusted: set<int>, live: set<int>)
    requires Inv(b, used, adjusted, live) && Sound(c) && NextPush(b, wr, c)
    requires wr.DataSize() > 0 ==> wr.StreamID() in live
    ensures Inv(c, used, adjusted, live)
  {
    hide Sound, Orderly, Traced, OpenLive, Anchored, Addressed, NoData, AllFor, Touches, Quiet;
    var id := wr.StreamID();
    var n := Target(b, id);
    TargetKnown(b, id);
    QuietAt(b, n);
    FramesAt(b, n);
    if wr.DataSize() > 0 {
      LiveOpen(b, id, live);
    }
    QueueSnoc(b.queues[n], wr, n.id);
    PushTouches(b, c, n, wr);
    TouchInv(b, c, n, used, adjusted, live);
  }

  ghost predicate ByteFree(s: seq<Atom>) {
    forall i :: 0 <= i < |s| ==> !s[i].Byte?
  }

  lemma ByteFreeSplit(a: seq<Atom>, b: seq<Atom>)
    ensures ByteFree(a + b) <==> ByteFree(a) && ByteFree(b)
  {
    assert forall i :: 0 <= i < |a| ==> (a + b)[i] == a[i];
    assert forall i :: 0 <= i < |b| ==> (a + b)[|a| + i] == b[i];
  }

  lemma ByteFreeFrame(wr: FrameWriteRequest, last: bool)
    ensures ByteFree(Emitted(wr, last)) <==> wr.DataSize() == 0
    ensures ByteFree(Atoms(wr)) <==> wr.DataSize() == 0
  {
    if wr.DataSize() > 0 {
      assert Emitted(wr, last)[0].Byte? && Atoms(wr)[0].Byte?;
    }
  }

  lemma {:induction false} NoDataAtoms(q: seq<FrameWriteRequest>)
    ensures NoData(q) <==> ByteFree(AllAtoms(q))
  {
    if q != [] {
      NoDataAtoms(q[1..]);
      ByteFreeFrame(q[0], true);
      ByteFreeSplit(Atoms(q[0]), AllAtoms(q[1..]));
      hide ByteFree, Atoms;
      assert forall i :: 1 <= i < |q| ==> q[i] == q[1..][i - 1];
    }
  }

  /** What is sent from a queue without data is no data, and leaves none. */
  lemma SentNoData(q: seq<FrameWriteRequest>, wr: FrameWriteRequest, last: bool, rest: seq<FrameWriteRequest>)
    requires Emitted(wr, last) + AllAtoms(rest) == AllAtoms(q) && NoData(q)
    ensures wr.DataSize() == 0 && NoData(rest)
  {
    NoDataAtoms(q);
    NoDataAtoms(rest);
    ByteFreeFrame(wr, last);
    ByteFreeSplit(Emitted(wr, last), AllAtoms(rest));
  }

  lemma HeadsKeep(q: seq<FrameWriteRequest>, rest: seq<FrameWriteRequest>, wr: FrameWriteRequest, last: bool, id: int)
    requires Heads(q, rest, wr, last)
    ensures NoData(q) ==> wr.DataSize() == 0 && NoData(rest)
    ensures AllFor(q, id) ==> AllFor(rest, id) && wr.StreamID() == id
  {
    if NoData(q) {
      SentNoData(q, wr, last, rest);
    }
    hide Emitted, AllAtoms, NoData;
    assert forall i :: 1 <= i < |q| ==> q[1..][i - 1] == q[i];
    assert rest != q[1..] ==> forall i :: 1 <= i < |rest| ==> rest[1..][i - 1] == rest[i];
  }

  /** The sender is the root or a tracked stream. */
  lemma SenderKnown(b: Books, who: Node)
    requires Sound(b) && Anchored(b) && who in b.tree.all && Reaches(b.tree.parent, who, b.tree.root)
    ensures who.id in b.tree.nodes && b.tree.nodes[who.id] == who
  {
    ReachesStep(b.tree.parent, who, b.tree.root);
    NodeKnown(b, 0);
  }

  lemma SendTouches(b: Books, c: Books, n: Node, size: nat)
    requires n in b.tree.all && n.id in b.tree.nodes && b.tree.nodes[n.id] == n && n in b.queues && n in c.queues
    requires WellFormed(b.tree) && n in b.states && n in b.tree.bytes && Quiet(b, n)
    requires !b.states[n].Open? ==> size == 0 && NoData(c.queues[n])
    requires c == b.(tree := Bump(b.tree, n, size), queues := b.queues[n := c.queues[n]], first := c.first)
    ensures Touches(b, c, n) && n in c.states && Quiet(c, n)
  {
    hide NoData, WellFormed;
  }

  lemma SendInv(b: Books, o: Sending, c: Books, used: set<int>, adjusted: set<int>, live: set<int>)
    requires Inv(b, used, adjusted, live) && Sound(c) && NextSend(b, o, c)
    ensures Inv(c, used, adjusted, live)
  {
    hide Sound, Orderly, Traced, OpenLive, Anchored, Addressed, NoData, AllFor, Touches, Heads, Reaches, WellFormed;
    hide Bump, Free;
    SenderKnown(b, o.who);
    QuietAt(b, o.who);
    FramesAt(b, o.who);
    HeadsKeep(b.queues[o.who], c.queues[o.who], o.frame, o.last, o.who.id);
    SendTouches(b, c, o.who, o.frame.DataSize());
    hide Quiet;
    TouchInv(b, c, o.who, used, adjusted, live);
  }

  /** Every call of a user that keeps to the interface keeps the invariant. */
  lemma StepInv(b: Books, lim: Limits, s: Step, o: Option<Sending>, c: Books,
                used: set<int>, adjusted: set<int>, live: set<int>)
    requires Inv(b, used, adjusted, live) && Sound(c) && Lawful(s, used, live) && Next(b, lim, s, o, c)
    ensures Inv(c, UsedAfter(s, used), AdjustedAfter(s, adjusted), LiveAfter(s, live))
  {
    hide Inv, Sound, NextOpen, NextClose, NextIntroduce, NextRank, NextPush, NextSend, Victim, Creates;
    match s
    case Opening(id, pusher) => OpenInv(b, id, pusher, c, used, adjusted, live);
    case Closing(id) => CloseInv(b, lim, s, c, used, adjusted, live);
    case Ranking(id, priority) =>
      if Creates(b, lim, id) {
        IntroduceInv(b, lim, s, c, used, adjusted, live);
      } else {
        if id in b.tree.nodes {
          RankInv(b, id, priority, c, used, adjusted, live);
        } else {
          StillInv(b, c, used, adjusted, live);
        }
        InvMore(c, used, adjusted, live, id);
      }
    case Queueing(wr) => PushInv(b, wr, c, used, adjusted, live);
    case Writing =>
      if o.Some? {
        SendInv(b, o.value, c, used, adjusted, live);
      } else {
        StillInv(b, c, used, adjusted, live);
      }
  }
}
