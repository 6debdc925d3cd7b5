/** The priority write scheduler: a tree of streams (section 5.3 of RFC 7540)
    with a queue of frames at every node. */
module PriorityScheduler {
  import opened Common
  import opened Flow
  import opened Frames
  import opened Forest
  import opened PriorityModel
  import opened PriorityCounts
  import opened PriorityNode
  import opened PriorityKids
  import opened PriorityOrder

  const DEFAULT_WEIGHT: byte := 15

  datatype PriorityParam = PriorityParam(streamDep: uint32, exclusive: bool, weight: byte)

  /** A queued frame that can be sent touches known windows and connections only. */
  ghost predicate Queues(all: set<Node>, windows: set<Window>, conns: set<Conn>)
    reads all`q
  {
    forall n :: n in all ==> QueueOk(n.q, windows, conns)
  }

  /** The tables agree with the ids of the nodes; waiting nodes are never the root. */
  ghost predicate Tables(root: Node, all: set<Node>, nodes: map<int, Node>, waiting: seq<Node>, maxID: int) {
    && root in all && root.id == 0 && 0 in nodes && nodes[0] == root
    && (forall n :: n in all && n.id == 0 ==> n == root)
    && (forall n :: n in all ==> n.id <= maxID)
    && (forall id :: id in nodes ==> nodes[id] in all && nodes[id].id == id)
    && (forall n :: n in waiting ==> n in all && n != root)
  }

  lemma TablesAdd(root: Node, all: set<Node>, nodes: map<int, Node>, waiting: seq<Node>, maxID: int, n: Node)
    requires Tables(root, all, nodes, waiting, maxID) && n !in all && n.id !in nodes && n.id <= maxID
    ensures Tables(root, all + {n}, nodes[n.id := n], waiting, maxID)
  {
  }

  lemma TablesDrop(root: Node, all: set<Node>, nodes: map<int, Node>, waiting: seq<Node>, maxID: int, n: Node)
    requires Tables(root, all, nodes, waiting, maxID) && n in all && n != root
    ensures Tables(root, all, nodes - {n.id}, waiting, maxID)
  {
  }

  lemma TablesWait(root: Node, all: set<Node>, nodes: map<int, Node>, a: seq<Node>, b: seq<Node>, maxID: int,
                   a2: seq<Node>, b2: seq<Node>, max2: int)
    requires Tables(root, all, nodes, a + b, maxID) && maxID <= max2
    requires forall n :: n in a2 || n in b2 ==> n in all && n != root
    ensures Tables(root, all, nodes, a2 + b2, max2)
  {
  }

  lemma QueuesMore(all: set<Node>, windows: set<Window>, conns: set<Conn>, w: set<Window>, c: set<Conn>)
    requires Queues(all, windows, conns) && windows <= w && conns <= c
    ensures Queues(all, w, c)
  {
    forall n, i | n in all && 0 <= i < |n.q| ensures FrameOk(n.q[i], w, c) {
      assert QueueOk(n.q, windows, conns) && FrameOk(n.q[i], windows, conns);
    }
  }

  /** The frame at the head of x's queue can be sent now, at least in part. */
  ghost predicate HeadReady(x: Node, windows: set<Window>, conns: set<Conn>)
    requires QueueOk(x.q, windows, conns)
    reads x`q, windows, conns
  {
    x.q != [] && (assert FrameOk(x.q[0], windows, conns); x.q[0].Ready())
  }

  ghost function QueuesOf(all: set<Node>): (m: map<Node, seq<FrameWriteRequest>>)
    reads all`q
    ensures m.Keys == all
  {
    map n | n in all :: n.q
  }

  ghost function StatesOf(all: set<Node>): (m: map<Node, NodeState>)
    reads all`state
    ensures m.Keys == all
  {
    map n | n in all :: n.state
  }

  ghost function FrameSizesOf(conns: set<Conn>): map<Conn, int>
    reads conns
  {
    map c | c in conns :: c.maxFrameSize
  }

  /** Everything that decides what may be sent, and what sending changes. */
  datatype Snapshot = Snapshot(
    queues: map<Node, seq<FrameWriteRequest>>,
    windows: map<Window, int>,
    frameSizes: map<Conn, int>,
    tree: Tree<Node>
  )

  /** The head of x's queue can go: it needs no window, or stream, connection and
      frame size all have room. */
  ghost predicate Ready(s: Snapshot, x: Node) {
    && x in s.queues && s.queues[x] != []
    && var wr := s.queues[x][0];
       wr.DataSize() > 0 ==>
         && wr.stream != null && wr.stream.sc in s.frameSizes && s.frameSizes[wr.stream.sc] > 0
         && (forall w :: w in wr.Windows() ==> w in s.windows && s.windows[w] > 0)
  }

  lemma ReadyMeansReady(s: Snapshot, x: Node, all: set<Node>, windows: set<Window>, conns: set<Conn>)
    requires QueueOk(x.q, windows, conns) && x in all
    requires s.queues == QueuesOf(all) && s.windows == WindowsOf(windows) && s.frameSizes == FrameSizesOf(conns)
    ensures Ready(s, x) <==> HeadReady(x, windows, conns)
  {
    if x.q != [] {
      var wr := x.q[0];
      assert FrameOk(wr, windows, conns);
      if wr.DataSize() > 0 {
        assert wr.stream.window in wr.Windows();
        assert wr.stream.window.conn != null ==> wr.stream.window.conn in wr.Windows();
      }
    }
  }

  /** wr is the head of the queue q, or the first bytes of it, and rest is what stays. */
  ghost predicate Heads(q: seq<FrameWriteRequest>, rest: seq<FrameWriteRequest>, wr: FrameWriteRequest, last: bool) {
    && Shortened(q, rest) && wr.StreamID() == q[0].StreamID()
    && Emitted(wr, last) + AllAtoms(rest) == AllAtoms(q)
    && (!last ==> IsPiece(wr))
  }

  /** From s to r, who's queue gave up wr, the windows paid for it, the tree
      counted it, and nothing else happened. */
  ghost predicate Sent(s: Snapshot, r: Snapshot, who: Node, wr: FrameWriteRequest, last: bool) {
    && who in s.queues && who in r.queues
    && r.queues == s.queues[who := r.queues[who]]
    && Heads(s.queues[who], r.queues[who], wr, last)
    && r.windows == Debit(s.windows, wr)
    && r.frameSizes == s.frameSizes
    && WellFormed(s.tree) && who in s.tree.all
    && r.tree == Bump(s.tree, who, wr.DataSize())
  }

  /** The part of Sent that concerns queues and windows. */
  ghost predicate Taken(s: Snapshot, r: Snapshot, who: Node, wr: FrameWriteRequest, last: bool) {
    && who in s.queues && who in r.queues
    && r.queues == s.queues[who := r.queues[who]]
    && Heads(s.queues[who], r.queues[who], wr, last)
    && r.windows == Debit(s.windows, wr)
    && r.frameSizes == s.frameSizes
    && r.tree == s.tree
  }

  lemma TakenSent(s: Snapshot, m: Snapshot, r: Snapshot, who: Node, wr: FrameWriteRequest, last: bool)
    requires Taken(s, m, who, wr, last) && WellFormed(m.tree) && who in m.tree.all
    requires r == m.(tree := Bump(m.tree, who, wr.DataSize()))
    ensures Sent(s, r, who, wr, last)
  {
  }

  // ----- priority order -----

  /** a is above who, at or below n. */
  ghost predicate Above(p: map<Node, Node>, who: Node, n: Node, a: Node) {
    a != who && Reaches(p, who, a) && Reaches(p, a, n)
  }

  ghost predicate NoneAboveReady(p: map<Node, Node>, all: set<Node>, s: Snapshot, who: Node, n: Node) {
    forall a :: a in all && Above(p, who, n, a) ==> !Ready(s, a)
  }

  ghost predicate NoneReady(p: map<Node, Node>, all: set<Node>, s: Snapshot, n: Node) {
    forall x :: x in all && Reaches(p, x, n) ==> !Ready(s, x)
  }

  /** Some node above who, up to n and not counting the root, is open. */
  ghost predicate OpenAbove(p: map<Node, Node>, all: set<Node>, who: Node, n: Node)
    reads all`state
  {
    exists a :: a in all && Above(p, who, n, a) && a.id != 0 && a.state.Open?
  }

  ghost function PlacesOf(all: set<Node>): (m: map<Node, int>)
    reads all`pos
    ensures m.Keys == all
  {
    map n | n in all :: n.pos
  }

  /** Only the lists of nodes at or below n were reordered. */
  ghost predicate OrderKept(p: map<Node, Node>, n: Node, before: map<Node, int>, after: map<Node, int>) {
    && before.Keys == after.Keys
    && forall c :: c in before && (c !in p || !Reaches(p, p[c], n)) ==> after[c] == before[c]
  }

  ghost predicate SamePlaces(p: map<Node, Node>, n: Node, a: map<Node, int>, b: map<Node, int>) {
    a.Keys == b.Keys && forall c :: c in p && p[c] == n && c in a ==> a[c] == b[c]
  }

  lemma SamePlacesTrans(p: map<Node, Node>, n: Node, a: map<Node, int>, b: map<Node, int>, c: map<Node, int>)
    requires SamePlaces(p, n, a, b) && SamePlaces(p, n, b, c)
    ensures SamePlaces(p, n, a, c)
  {
  }

  /** Every kid of n before k was tried, and had nothing to send. */
  ghost predicate Tried(p: map<Node, Node>, all: set<Node>, s: Snapshot, n: Node, places: map<Node, int>, k: Node?) {
    forall c :: c in p && p[c] == n ==> NoneReady(p, all, s, c) || c in Untried(p, n, places, k)
  }

  ghost function Untried(p: map<Node, Node>, n: Node, places: map<Node, int>, k: Node?): set<Node> {
    set c | c in p && p[c] == n && k != null && k in places && c in places && places[k] <= places[c]
  }

  lemma TriedNone(p: map<Node, Node>, all: set<Node>, s: Snapshot, n: Node, places: map<Node, int>, first: Node?)
    requires p.Keys <= places.Keys
    requires forall c :: c in p && p[c] == n ==> first != null && first in places && places[first] <= places[c]
    ensures SamePlaces(p, n, places, places) && Tried(p, all, s, n, places, first)
  {
  }

  lemma TriedAll(p: map<Node, Node>, all: set<Node>, s: Snapshot, n: Node, places: map<Node, int>)
    requires Tried(p, all, s, n, places, null)
    ensures forall c :: c in p && p[c] == n ==> NoneReady(p, all, s, c)
  {
    hide NoneReady;
  }

  /** Stepping to the next kid passes exactly the one that was just tried. */
  lemma TriedNext(p: map<Node, Node>, all: set<Node>, s: Snapshot, n: Node, now: map<Node, int>,
                  places: map<Node, int>, k: Node, next: Node?)
    requires Tried(p, all, s, n, places, k) && NoneReady(p, all, s, k) && SamePlaces(p, n, now, places)
    requires k in p && p[k] == n && p.Keys <= places.Keys
    requires next != null ==> next in p && p[next] == n && now[k] < now[next]
    requires forall c :: c in p && p[c] == n ==> now[c] < now[k] || c == k || (next != null && now[next] <= now[c])
    ensures Tried(p, all, s, n, places, next) && Untried(p, n, places, next) < Untried(p, n, places, k)
  {
    hide NoneReady;
    assert k in Untried(p, n, places, k) && k !in Untried(p, n, places, next);
  }

  // ----- turns among siblings -----

  ghost function WeightsOf(all: set<Node>): (m: map<Node, byte>)
    reads all`weight
    ensures m.Keys == all
  {
    map n | n in all :: n.weight
  }

  ghost predicate KidOf(p: map<Node, Node>, n: Node, c: Node) {
    c in p && p[c] == n
  }

  /** The kids of n have different weights, so they are sorted before they are tried. */
  ghost predicate Mixed(p: map<Node, Node>, w: map<Node, byte>, n: Node) {
    exists c, d :: c in p && d in p && KidOf(p, n, c) && KidOf(p, n, d) && c in w && d in w && w[c] != w[d]
  }

  /** No kid of n has the weight that wraps around, or a negative count. */
  ghost predicate Comparable(p: map<Node, Node>, w: map<Node, byte>, b: map<Node, int>, n: Node) {
    forall c :: c in p && KidOf(p, n, c) ==> c in w && c in b && w[c] < 255 && 0 <= b[c]
  }

  ghost predicate LeadsIn(w: map<Node, byte>, b: map<Node, int>, c: Node, d: Node) {
    c in w && d in w && c in b && d in b && Ahead(w[c], b[c], w[d], b[d])
  }

  ghost predicate Sooner(places: map<Node, int>, c: Node, d: Node) {
    c in places && d in places && places[c] <= places[d]
  }

  ghost predicate SortedBy(p: map<Node, Node>, w: map<Node, byte>, b: map<Node, int>, n: Node, places: map<Node, int>) {
    Comparable(p, w, b, n) ==>
      forall c, d :: c in p && d in p && KidOf(p, n, c) && KidOf(p, n, d) && Sooner(places, c, d) ==>
             LeadsIn(w, b, c, d)
  }

  lemma IsKid(p: map<Node, Node>, n: Node, c: Node)
    requires c in p && p[c] == n
    ensures KidOf(p, n, c)
  {
  }

  /** On the way from n to who, x was chosen, although its sibling c has sent less for its weight. */
  ghost predicate Overtakes(p: map<Node, Node>, w: map<Node, byte>, b: map<Node, int>, who: Node, n: Node, x: Node,
                            c: Node) {
    && x in p && KidOf(p, p[x], c) && Reaches(p, who, x) && Reaches(p, p[x], n)
    && Mixed(p, w, p[x]) && Comparable(p, w, b, p[x]) && !LeadsIn(w, b, x, c)
  }

  /** Then nothing at or below c could be sent. */
  ghost predicate FairTurn(p: map<Node, Node>, all: set<Node>, s: Snapshot, w: map<Node, byte>, who: Node, n: Node) {
    forall x, c :: x in p && c in p && Overtakes(p, w, s.tree.subtree, who, n, x, c) ==> NoneReady(p, all, s, c)
  }

  ghost predicate TopOf(p: map<Node, Node>, all: set<Node>, n: Node, top: Node) {
    top in all && top !in p && Reaches(p, n, top)
  }

  lemma AboveSelf(p: map<Node, Node>, all: set<Node>, s: Snapshot, n: Node, top: Node)
    requires TopOf(p, all, n, top)
    ensures NoneAboveReady(p, all, s, n, n) && !OpenAbove(p, all, n, n)
  {
    forall a | a in all && Above(p, n, n, a) ensures false {
      Antisymmetric(p, n, a, top);
    }
  }

  /** Between who and n there is what is between who and n's kid k, and n. */
  lemma AboveSplit(p: map<Node, Node>, all: set<Node>, who: Node, k: Node, n: Node, a: Node, top: Node)
    requires k in p && p[k] == n && Reaches(p, who, k) && TopOf(p, all, n, top) && Above(p, who, n, a)
    ensures a == n || Above(p, who, k, a)
  {
    ReachesLinear(p, who, k, a);
    if !Reaches(p, a, k) {
      ReachesStep(p, k, a);
      ReachesSelf(p, k);
      Antisymmetric(p, n, a, top);
    }
  }

  lemma FoundBelow(p: map<Node, Node>, all: set<Node>, s: Snapshot, who: Node, k: Node, n: Node, top: Node)
    requires k in p && p[k] == n && Reaches(p, who, k) && TopOf(p, all, n, top)
    requires NoneAboveReady(p, all, s, who, k) && !Ready(s, n)
    ensures Reaches(p, who, n) && NoneAboveReady(p, all, s, who, n)
    ensures n in all ==> (OpenAbove(p, all, who, n) <==> OpenAbove(p, all, who, k) || (n.id != 0 && n.state.Open?))
  {
    ReachesSelf(p, n);
    ReachesParent(p, k, n);
    ReachesTrans(p, who, k, n);
    forall a | a in all && Above(p, who, n, a) ensures a == n || Above(p, who, k, a) {
      AboveSplit(p, all, who, k, n, a, top);
    }
    if n in all {
      BelowShrinks(p, all, k, n, top);
      assert Above(p, who, n, n);
      forall a | a in all && Above(p, who, k, a) ensures Above(p, who, n, a) {
        ReachesTrans(p, a, k, n);
      }
    }
  }

  /** What n hangs from, directly or not, does not hang from n. */
  lemma NoReturn(p: map<Node, Node>, n: Node, x: Node, top: Node)
    requires x in p && Reaches(p, n, x) && top !in p && Reaches(p, n, top)
    ensures !Reaches(p, p[x], n)
  {
    ReachesLinear(p, n, x, top);
    ReachesStep(p, top, x);
    ParentNotBelow(p, x, top);
    if Reaches(p, p[x], n) {
      ReachesTrans(p, p[x], n, x);
    }
  }

  lemma TurnSelf(p: map<Node, Node>, all: set<Node>, s: Snapshot, w: map<Node, byte>, n: Node, top: Node)
    requires TopOf(p, all, n, top)
    ensures FairTurn(p, all, s, w, n, n)
  {
    forall x, c | x in p && c in p ensures !Overtakes(p, w, s.tree.subtree, n, n, x, c) {
      if Reaches(p, n, x) {
        NoReturn(p, n, x, top);
      }
    }
  }

  lemma TurnHere(p: map<Node, Node>, all: set<Node>, s: Snapshot, w: map<Node, byte>, n: Node, places: map<Node, int>,
                 k: Node, c: Node)
    requires SortedBy(p, w, s.tree.subtree, n, places) && Tried(p, all, s, n, places, k)
    requires KidOf(p, n, k) && KidOf(p, n, c) && Comparable(p, w, s.tree.subtree, n)
             && !LeadsIn(w, s.tree.subtree, k, c)
    ensures NoneReady(p, all, s, c)
  {
    hide NoneReady, LeadsIn;
  }

  /** The choice among n's kids, and the choices below the one that was taken. */
  lemma TurnBelow(p: map<Node, Node>, all: set<Node>, s: Snapshot, w: map<Node, byte>, n: Node, places: map<Node, int>,
                  k: Node, who: Node, top: Node)
    requires Mixed(p, w, n) ==> SortedBy(p, w, s.tree.subtree, n, places)
    requires Tried(p, all, s, n, places, k) && KidOf(p, n, k) && Reaches(p, who, k) && TopOf(p, all, n, top)
    requires FairTurn(p, all, s, w, who, k)
    ensures FairTurn(p, all, s, w, who, n)
  {
    hide NoneReady, SortedBy, Tried, Mixed, Comparable, LeadsIn, Reaches;
    var b := s.tree.subtree;
    forall x, c | x in p && c in p && Overtakes(p, w, b, who, n, x, c) ensures NoneReady(p, all, s, c) {
      if x == k {
        TurnHere(p, all, s, w, n, places, k, c);
      } else {
        ReachesLinear(p, who, k, x);
        ReachesStep(p, k, x);
        if Reaches(p, n, x) {
          NoReturn(p, n, x, top);
        }
        ReachesStep(p, x, k);
        assert Overtakes(p, w, b, who, k, x, c);
      }
    }
  }

  lemma NotFoundBelow(p: map<Node, Node>, all: set<Node>, s: Snapshot, n: Node)
    requires !Ready(s, n) && forall c :: c in all && c in p && p[c] == n ==> NoneReady(p, all, s, c)
    requires p.Keys <= all
    ensures NoneReady(p, all, s, n)
  {
    forall x | x in all && Reaches(p, x, n) ensures !Ready(s, x) {
      if x != n {
        var c := KidBetween(p, x, n);
        assert NoneReady(p, all, s, c);
      }
    }
  }

  lemma BelowShrinks(p: map<Node, Node>, all: set<Node>, k: Node, n: Node, top: Node)
    requires k in p && p[k] == n && n in all && TopOf(p, all, n, top)
    ensures Below(p, all, k) < Below(p, all, n)
    ensures !Reaches(p, n, k)
  {
    ReachesParent(p, k, top);
    ParentNotBelow(p, k, top);
    ReachesSelf(p, n);
    ReachesParent(p, k, n);
    forall x | x in Below(p, all, k) ensures x in Below(p, all, n) {
      ReachesTrans(p, x, k, n);
    }
    assert n in Below(p, all, n) && n !in Below(p, all, k);
  }

  lemma OrderSame(p: map<Node, Node>, n: Node, a: map<Node, int>)
    ensures OrderKept(p, n, a, a)
  {
  }

  lemma OrderTrans(p: map<Node, Node>, n: Node, a: map<Node, int>, b: map<Node, int>, c: map<Node, int>)
    requires OrderKept(p, n, a, b) && OrderKept(p, n, b, c)
    ensures OrderKept(p, n, a, c)
  {
  }

  lemma OrderLarger(p: map<Node, Node>, k: Node, n: Node, a: map<Node, int>, b: map<Node, int>, c: map<Node, int>)
    requires k in p && p[k] == n && OrderKept(p, n, a, b) && OrderKept(p, k, b, c)
    requires !Reaches(p, n, k)
    ensures OrderKept(p, n, a, c)
    ensures SamePlaces(p, n, c, b)
  {
    forall x | x in a && (x !in p || !Reaches(p, p[x], n)) ensures c[x] == a[x] {
      if x in p && Reaches(p, p[x], k) {
        ReachesSelf(p, n);
        ReachesParent(p, k, n);
        ReachesTrans(p, p[x], k, n);
      }
    }
  }

  lemma EvictableNode(t: Tree<Node>, e: Node)
    requires Evictable(t, e, e.id)
    ensures e in t.all
  {
  }

  lemma IdleNonNegative(t: Tree<Node>, mid: Tree<Node>, id: int, n: Node, e: Option<Node>, first: Option<Node>)
    requires WithIdle(t, id, n, e, first, mid)
    ensures NonNegative(t) ==> NonNegative(mid)
  {
  }

  lemma TreeFacts(t: Tree<Node>)
    requires WellFormed(t)
    ensures t.root !in t.parent && Grounded(t.parent, t.all, t.all - t.parent.Keys)
  {
  }

  lemma SnapshotsGrow(all: set<Node>, n: Node)
    requires n !in all
    ensures StatesOf(all + {n}) == StatesOf(all)[n := n.state] && QueuesOf(all + {n}) == QueuesOf(all)[n := n.q]
    ensures WeightsOf(all + {n}) == WeightsOf(all)[n := n.weight]
  {
  }

  /** The tree once a new idle node is in and its victim, if any, is out. */
  ghost predicate WithIdle(t: Tree<Node>, id: int, n: Node, victim: Option<Node>, first: Option<Node>,
                           mid: Tree<Node>) {
    var u := Add(t, id, n, t.root);
    if victim.Some? then FirstKid(u, victim.value, first) && mid == Removed(u, victim.value, first, victim.value.id)
       && victim.value.id != id
    else mid == u
  }

  lemma QueuesGrow(all: set<Node>, n: Node, windows: set<Window>, conns: set<Conn>)
    requires Queues(all, windows, conns) && n.q == []
    ensures Queues(all + {n}, windows, conns)
  {
  }

  class Scheduler {
    const root: Node
    var nodes: map<int, Node>
    /** Nodes kept in the tree although their streams are closed or not yet open; oldest first. */
    var closedNodes: seq<Node>
    var idleNodes: seq<Node>
    var maxID: uint32
    var writeThrottleLimit: int32
    const maxClosedNodes: int
    const maxIdleNodes: int
    const enableWriteThrottle: bool

    ghost var all: set<Node>
    ghost var windows: set<Window>
    ghost var conns: set<Conn>

    ghost predicate Valid()
      reads this, all
    {
      && Tables(root, all, nodes, closedNodes + idleNodes, maxID)
      && Queues(all, windows, conns)
      && Links(all) && Acyclic(all)
      && root.parent == null && root.state.Open?
      && 1024 <= writeThrottleLimit
    }

    /** The tree as a value. */
    ghost function View(): Tree<Node>
      reads this`all, this`nodes, all`parent, all`bytes, all`subtreeBytes
    {
      Tree(root, all, Parents(all), BytesOf(all), CountersOf(all), nodes)
    }

    lemma ViewAll()
      ensures View().all == all && View().root == root && View().nodes == nodes && View().parent == Parents(all)
    {
    }

    lemma ValidTree()
      requires Valid()
      ensures WellFormed(View())
    {
      forall c | c in Parents(all) ensures Parents(all)[c] in all {
        assert Linked(c, all);
      }
    }

    lemma Known(id: int)
      requires Valid() && id in nodes
      ensures nodes[id] in all && nodes[id].id == id && (id != 0 ==> nodes[id] != root)
    {
    }

    lemma IdsBelow()
      requires Valid()
      ensures forall n :: n in all ==> n.id <= maxID
    {
    }

    lemma RootKnown()
      requires Valid()
      ensures root in all && 0 in nodes && nodes[0] == root
    {
    }

    lemma BytesAt(n: Node)
      requires n in all
      ensures n in BytesOf(all) && BytesOf(all)[n] == n.bytes
    {
    }

    lemma WaitingKnown()
      requires Valid()
      ensures forall n :: n in closedNodes ==> n in all && n != root
      ensures forall n :: n in idleNodes ==> n in all && n != root
    {
      forall n | n in closedNodes ensures n in all && n != root {
        assert n in closedNodes + idleNodes;
      }
      forall n | n in idleNodes ensures n in all && n != root {
        assert n in closedNodes + idleNodes;
      }
    }

    constructor (maxClosedNodes: int, maxIdleNodes: int, throttle: bool)
      ensures Valid() && Healthy(View()) && Exact(View())
      ensures this.maxClosedNodes == maxClosedNodes && this.maxIdleNodes == maxIdleNodes
      ensures enableWriteThrottle == throttle && writeThrottleLimit == if throttle then 1024 else MAX_INT32
      ensures nodes == map[0 := root] && closedNodes == [] && idleNodes == [] && maxID == 0
      ensures fresh(all) && all == {root} && windows == {} && conns == {} && root.bytes == 0 && root.q == []
      ensures root.weight == 0
    {
      var r := new Node(0, 0, Open);
      root := r;
      nodes := map[0 := r];
      closedNodes, idleNodes, maxID := [], [], 0;
      this.maxClosedNodes, this.maxIdleNodes, enableWriteThrottle := maxClosedNodes, maxIdleNodes, throttle;
      writeThrottleLimit := if throttle then 1024 else MAX_INT32;
      all, windows, conns := {r}, {}, {};
      new;
      assert Linked(root, all) && Ordered(root, root, all);
      var p := Parents(all);
      assert p == map[];
      ReachesSelf(p, root);
      assert HasTop(p, all - p.Keys, root) by {
        assert root in all - p.Keys;
      }
      assert Below(p, all, root) == {root};
      SumPick(View().bytes, {root}, root);
      assert Tracked(View(), root) by {
        assert 0 in View().nodes;
      }
    }

    // ----- opening streams -----

    method AddNode(id: uint32, parent: Node, state: NodeState) returns (n: Node)
      requires Valid() && id !in nodes && id <= maxID && parent in all
      modifies this`nodes, this`all, all`kids, all`prev, all`next
      ensures Valid() && fresh(n) && n.state == state && n.q == [] && n.weight == DEFAULT_WEIGHT
      ensures all == old(all) + {n} && nodes == old(nodes)[id := n]
      ensures forall c :: c in old(all) && c != parent ==> c.kids == old(c.kids)
      ensures View() == Add(old(View()), id, n, parent)
    {
      hide Links, WellFormed, Queues, Acyclic, Tables, Parents, BytesOf, CountersOf;
      ghost var before := all;
      n := LinkNew(id, parent, state);
      TablesAdd(root, before, nodes, closedNodes + idleNodes, maxID, n);
      nodes := nodes[id := n];
    }

    /** AddNode, with the states and the queues. */
    method Enter(id: uint32, parent: Node, state: NodeState) returns (n: Node)
      requires Valid() && id !in nodes && id <= maxID && parent in all
      modifies this`nodes, this`all, all`kids, all`prev, all`next
      ensures Valid() && fresh(n) && n.state == state
      ensures all == old(all) + {n} && nodes == old(nodes)[id := n]
      ensures View() == Add(old(View()), id, n, parent)
      ensures StatesOf(all) == old(StatesOf(all))[n := state] && QueuesOf(all) == old(QueuesOf(all))[n := []]
      ensures WeightsOf(all) == old(WeightsOf(all))[n := DEFAULT_WEIGHT]
    {
      hide *;
      n := AddNode(id, parent, state);
      SnapshotsGrow(old(all), n);
      assert StatesOf(old(all)) == old(StatesOf(all)) && QueuesOf(old(all)) == old(QueuesOf(all));
      assert WeightsOf(old(all)) == old(WeightsOf(all));
    }

    method LinkNew(id: uint32, parent: Node, state: NodeState) returns (n: Node)
      requires Valid() && parent in all
      modifies this`all, all`kids, all`prev, all`next
      ensures fresh(n) && n.id == id && n.state == state && n.q == [] && n.weight == DEFAULT_WEIGHT
      ensures all == old(all) + {n} && forall c :: c in old(all) && c != parent ==> c.kids == old(c.kids)
      ensures Links(all) && Acyclic(all) && Queues(all, windows, conns) && root.parent == null
      ensures Parents(all) == old(Parents(all))[n := parent]
      ensures BytesOf(all) == old(BytesOf(all))[n := 0]
      ensures CountersOf(all) == old(CountersOf(all))[n := 0]
    {
      hide Links, WellFormed, Queues, BytesOf, CountersOf, Parents, Grounded, Tables;
      ghost var t := View();
      ValidTree();
      RootKnown();
      n := NewKid(id, DEFAULT_WEIGHT, state, parent, all);
      QueuesGrow(all, n, windows, conns);
      all := all + {n};
      AddGrounded(t, id, n, parent);
    }

    method MarkOpen(n: Node)
      requires Valid() && n in all
      modifies n`state
      ensures Valid() && n.state.Open? && StatesOf(all) == old(StatesOf(all))[n := Open]
    {
      hide Links, Queues, Acyclic, Tables;
      n.state := Open;
    }

    /** Open a stream. It may be known already, but only as idle. A pushed stream
        hangs from its pusher, any other from the root. */
    method OpenStream(streamID: uint32, pusherID: uint32)
      requires Valid() && (streamID in nodes ==> nodes[streamID].state.Idle?)
      modifies this`nodes, this`all, this`maxID, all`kids, all`prev, all`next, all`state
      ensures Valid() && streamID in nodes && nodes[streamID].state.Open?
      ensures all == old(all) + {nodes[streamID]}
      ensures streamID in old(nodes) ==> View() == old(View()) && maxID == old(maxID) && nodes == old(nodes)
      ensures streamID !in old(nodes) ==>
                && fresh(nodes[streamID])
                && View() == Add(old(View()), streamID, nodes[streamID],
                                 if pusherID in old(nodes) then old(nodes)[pusherID] else root)
                && maxID == (if streamID > old(maxID) then streamID else old(maxID))
      ensures StatesOf(all) == old(StatesOf(all))[nodes[streamID] := Open]
      ensures QueuesOf(all) == if streamID in old(nodes) then old(QueuesOf(all))
              else old(QueuesOf(all))[nodes[streamID] := []]
      ensures WeightsOf(all) == if streamID in old(nodes) then old(WeightsOf(all))
              else old(WeightsOf(all))[nodes[streamID] := DEFAULT_WEIGHT]
      ensures old(Healthy(View())) ==> Healthy(View())
      ensures old(Exact(View())) ==> Exact(View())
    {
      hide *;
      ghost var t := View();
      ViewAll();
      RootKnown();
      if streamID in nodes {
        Known(streamID);
        MarkOpen(nodes[streamID]);
        return;
      }
      var parent := if pusherID in nodes then nodes[pusherID] else root;
      Known(if pusherID in nodes then pusherID else 0);
      ValidTree();
      if streamID > maxID {
        RaiseMaxID(streamID);
      }
      var n := Enter(streamID, parent, Open);
      AddTracked(t, streamID, parent.id, n);
    }

    // ----- removing nodes -----

    method RemoveNode(n: Node)
      requires Valid() && n in all && n != root
      modifies this`nodes, all`kids, all`parent, all`prev, all`next, all`pos
      ensures Valid()
      ensures old(FirstKid(View(), n, Kid(n.kids)))
      ensures nodes == old(nodes) - {n.id}
      ensures View() == Removed(old(View()), n, Kid(old(n.kids)), n.id)
    {
      hide Links, WellFormed, Queues, Acyclic, Remove, FirstKid, Tables;
      TablesDrop(root, all, nodes, closedNodes + idleNodes, maxID, n);
      RootKnown();
      CutFromTree(n);
      nodes := nodes - {n.id};
    }

    method CutFromTree(n: Node)
      requires Valid() && n in all && n != root
      modifies all`kids, all`parent, all`prev, all`next, all`pos
      ensures Links(all) && Acyclic(all) && root.parent == null
      ensures old(FirstKid(View(), n, Kid(n.kids)))
      ensures Parents(all) == Remove(old(Parents(all)), n, Kid(old(n.kids)))
    {
      ValidTree();
      KidsMatch(n);
      RemoveWellFormed(View(), n, Kid(n.kids), n.id);
      assert root !in Remove(Parents(all), n, Kid(n.kids));
      CutNode(n, all);
      assert root !in Parents(all);
    }

    lemma KidsMatch(n: Node)
      requires Valid() && n in all
      ensures FirstKid(View(), n, Kid(n.kids))
    {
      assert Linked(n, all);
      forall c | c in all && c.parent == n ensures n.kids != null {
        FirstKidLeast(n, c, all);
      }
    }

    /** The tree without the victim, if there is one. */
    ghost function Dropped(t: Tree<Node>, victim: Option<Node>): Tree<Node>
      reads if victim.Some? then {victim.value} else {}
    {
      if victim.Some? then Removed(t, victim.value, Kid(victim.value.kids), victim.value.id) else t
    }

    /** The kid that a removed node hands over. */
    ghost function FirstOf(victim: Option<Node>): Option<Node>
      reads if victim.Some? then {victim.value} else {}
    {
      if victim.Some? then Kid(victim.value.kids) else None
    }

    /** The table after a new entry and an eviction. */
    static function TableAfter(nodes: map<int, Node>, id: int, n: Node, victim: Option<Node>): map<int, Node> {
      if victim.Some? then nodes[id := n] - {victim.value.id} else nodes[id := n]
    }

    /** The oldest node goes when the list is full. */
    static function Oldest(list: seq<Node>, maxSize: int): Option<Node> {
      if |list| == maxSize && maxSize != 0 then Some(list[0]) else None
    }

    /** Append n to a list of retired nodes; a full list first gives up its oldest. */
    method Retire(list: seq<Node>, maxSize: int, n: Node) returns (r: seq<Node>)
      requires Valid() && n in all && n != root && maxSize != 0
      requires forall x :: x in list ==> x in all && x != root
      modifies this`nodes, all`kids, all`parent, all`prev, all`next, all`pos
      ensures Valid()
      ensures View() == old(Dropped(View(), Oldest(list, maxSize)))
      ensures nodes == if Oldest(list, maxSize).Some? then old(nodes) - {list[0].id} else old(nodes)
      ensures Oldest(list, maxSize).Some? ==> old(FirstKid(View(), list[0], Kid(list[0].kids)))
      ensures r == (if Oldest(list, maxSize).Some? then list[1..] else list) + [n]
    {
      hide Links, WellFormed, Queues, Acyclic, Tables, FirstKid, Removed, View;
      r := list;
      if |r| == maxSize {
        RemoveNode(r[0]);
        r := r[1..];
      }
      r := r + [n];
    }

    // ----- closing streams -----

    method CountBytes(n: Node, d: int)
      requires Valid() && n in all
      modifies n`bytes, all`subtreeBytes
      ensures Valid() && n.bytes == old(n.bytes) + d
      ensures old(WellFormed(View())) && View() == Bump(old(View()), n, d)
      ensures Now() == old(Now()).(tree := View())
    {
      hide Links, WellFormed, Acyclic, Queues, Tables, QueuesOf, WindowsOf, FrameSizesOf;
      hide BytesOf, CountersOf, BumpCounters, Parents;
      BytesAt(n);
      ValidTree();
      CountUp(n, d, all);
    }

    /** The node that closing n drops from the tree, if any. */
    ghost function CloseVictim(n: Node): Option<Node>
      reads this`closedNodes
    {
      if maxClosedNodes <= 0 then Some(n) else Oldest(closedNodes, maxClosedNodes)
    }

    /** Taking the victim out of t loses nothing. */
    ghost predicate Harmless(t: Tree<Node>, victim: Option<Node>) {
      victim.Some? ==> Evictable(t, victim.value, victim.value.id)
    }

    /** Close a stream: what it sent is forgotten, its frames are discarded, and
        its node stays for a while. */
    method CloseStream(streamID: uint32)
      requires Valid() && streamID != 0 && streamID in nodes && nodes[streamID].state.Open?
      modifies this`nodes, this`closedNodes, all`state, all`q, all`bytes, all`subtreeBytes
      modifies all`kids, all`parent, all`prev, all`next, all`pos
      ensures Valid() && old(WellFormed(View()))
      ensures var n := old(nodes[streamID]);
              StatesOf(all) == old(StatesOf(all))[n := Closed] && QueuesOf(all) == old(QueuesOf(all))[n := []]
      ensures WeightsOf(all) == old(WeightsOf(all))
      ensures var n := old(nodes[streamID]);
              && View() == old(Dropped(Bump(View(), n, -n.bytes), CloseVictim(n)))
              && closedNodes ==
                   if maxClosedNodes <= 0 then old(closedNodes)
                   else (if old(CloseVictim(n)).Some? then old(closedNodes)[1..] else old(closedNodes)) + [n]
      ensures var n := old(nodes[streamID]);
              old(Harmless(Bump(View(), n, -n.bytes), CloseVictim(n))) ==>
                && (old(Healthy(View())) ==> Healthy(View()))
                && (old(Exact(View())) ==> Exact(View()))
    {
      hide Links, WellFormed, Queues, Acyclic, Tables, Healthy, Exact, Bump, Removed, Evictable, FirstKid;
      hide StatesOf, QueuesOf, WeightsOf, View, Harmless;
      ghost var t := View();
      Known(streamID);
      var n := nodes[streamID];
      ViewAll();
      Silence(n);
      BumpHealthy(t, n, -old(n.bytes));
      Shed(n);
    }

    /** Drop, with what it keeps. */
    method Shed(n: Node)
      requires Valid() && n in all && n != root
      modifies this`nodes, this`closedNodes, all`kids, all`parent, all`prev, all`next, all`pos
      ensures Valid()
      ensures View() == old(Dropped(View(), CloseVictim(n)))
      ensures closedNodes == if maxClosedNodes <= 0 then old(closedNodes)
                             else (if old(CloseVictim(n)).Some? then old(closedNodes)[1..] else old(closedNodes)) + [n]
      ensures old(Harmless(View(), CloseVictim(n))) ==>
                && (old(Healthy(View())) ==> Healthy(View()))
                && (old(Exact(View())) ==> Exact(View()))
    {
      hide Links, WellFormed, Queues, Acyclic, Tables, Healthy, Exact, Removed, Evictable, FirstKid, View;
      ghost var u, e := View(), CloseVictim(n);
      ValidTree();
      Drop(n);
      if e.Some? && Harmless(u, e) {
        EvictKeeps(u, e.value, Kid(old(e.value.kids)), e.value.id);
      }
    }

    method Silence(n: Node)
      requires Valid() && n in all && n != root
      modifies n`state, n`q, n`bytes, all`subtreeBytes
      ensures Valid() && n.state.Closed? && n.q == [] && n.bytes == 0
      ensures old(WellFormed(View())) && View() == Bump(old(View()), n, -old(n.bytes))
      ensures StatesOf(all) == old(StatesOf(all))[n := Closed] && QueuesOf(all) == old(QueuesOf(all))[n := []]
    {
      hide Links, WellFormed, Acyclic, Tables, Queues, Bump, View, QueuesOf;
      MarkClosed(n);
      CountBytes(n, -n.bytes);
      SetQueue(n, []);
    }

    method MarkClosed(n: Node)
      requires Valid() && n in all && n != root
      modifies n`state
      ensures Valid() && n.state.Closed? && StatesOf(all) == old(StatesOf(all))[n := Closed]
    {
      hide Links, Queues, Acyclic, Tables;
      n.state := Closed;
    }

    method SetQueue(n: Node, q: seq<FrameWriteRequest>)
      requires Valid() && n in all && QueueOk(q, windows, conns)
      modifies n`q
      ensures Valid() && n.q == q && QueuesOf(all) == old(QueuesOf(all))[n := q]
    {
      hide Links, Acyclic, Tables, QueueOk;
      n.q := q;
    }

    method Drop(n: Node)
      requires Valid() && n in all && n != root
      modifies this`nodes, this`closedNodes, all`kids, all`parent, all`prev, all`next, all`pos
      ensures Valid()
      ensures View() == old(Dropped(View(), CloseVictim(n)))
      ensures var e := old(CloseVictim(n)); e.Some? ==>
                e.value in all && old(FirstKid(View(), e.value, Kid(e.value.kids)))
      ensures closedNodes == if maxClosedNodes <= 0 then old(closedNodes)
                             else (if old(CloseVictim(n)).Some? then old(closedNodes)[1..] else old(closedNodes)) + [n]
    {
      hide Links, WellFormed, Acyclic, Queues, Removed, FirstKid, Tables;
      WaitingKnown();
      if maxClosedNodes > 0 {
        var list := Retire(closedNodes, maxClosedNodes, n);
        TablesWait(root, all, nodes, closedNodes, idleNodes, maxID, list, idleNodes, maxID);
        closedNodes := list;
      } else {
        RemoveNode(n);
      }
    }

    // ----- changing priorities -----

    /** A priority for an unknown stream: it is either gone for good, or it is
        idle and gets a node. */
    ghost predicate Creates(streamID: uint32)
      reads this`nodes, this`maxID
    {
      streamID !in nodes && streamID > maxID && maxIdleNodes != 0
    }

    /** The node of an idle stream, below the root. The oldest idle node may have
        to go; first is the kid it then hands over. */
    method AddIdle(streamID: uint32) returns (n: Node, ghost first: Option<Node>)
      requires Valid() && Creates(streamID)
      modifies this`nodes, this`all, this`maxID, this`idleNodes, all`kids, all`parent, all`prev, all`next, all`pos
      ensures Valid() && fresh(n) && all == old(all) + {n} && n.id == streamID && n.state.Idle? && n.q == []
      ensures n.weight == DEFAULT_WEIGHT
      ensures streamID in nodes && nodes[streamID] == n && maxID == streamID
      ensures nodes == TableAfter(old(nodes), streamID, n, old(Oldest(idleNodes, maxIdleNodes)))
      ensures old(WellFormed(View()))
      ensures idleNodes == old(if Oldest(idleNodes, maxIdleNodes).Some? then idleNodes[1..] else idleNodes) + [n]
      ensures first == old(FirstOf(Oldest(idleNodes, maxIdleNodes)))
      ensures WithIdle(old(View()), streamID, n, old(Oldest(idleNodes, maxIdleNodes)), first, View())
    {
      hide Links, WellFormed, Queues, Acyclic, FirstKid, Tables, View, Add, Removed;
      ghost var e := Oldest(idleNodes, maxIdleNodes);
      ViewAll();
      ValidTree();
      WaitingKnown();
      RootKnown();
      IdsBelow();
      RaiseMaxID(streamID);
      n := AddNode(streamID, root, Idle);
      Known(streamID);
      first := FirstOf(e);
      RetireIdle(n);
    }

    /** AddIdle, with states, queues and weights. */
    method EnterIdle(streamID: uint32) returns (n: Node, ghost first: Option<Node>)
      requires Valid() && Creates(streamID)
      modifies this`nodes, this`all, this`maxID, this`idleNodes, all`kids, all`parent, all`prev, all`next, all`pos
      ensures Valid() && fresh(n) && all == old(all) + {n} && n.id == streamID && n.state.Idle?
      ensures streamID in nodes && nodes[streamID] == n && maxID == streamID
      ensures nodes == TableAfter(old(nodes), streamID, n, old(Oldest(idleNodes, maxIdleNodes)))
      ensures idleNodes == old(if Oldest(idleNodes, maxIdleNodes).Some? then idleNodes[1..] else idleNodes) + [n]
      ensures first == old(FirstOf(Oldest(idleNodes, maxIdleNodes)))
      ensures WithIdle(old(View()), streamID, n, old(Oldest(idleNodes, maxIdleNodes)), first, View())
      ensures StatesOf(all) == old(StatesOf(all))[n := Idle] && QueuesOf(all) == old(QueuesOf(all))[n := []]
      ensures WeightsOf(all) == old(WeightsOf(all))[n := DEFAULT_WEIGHT]
    {
      hide *;
      n, first := AddIdle(streamID);
      SnapshotsGrow(old(all), n);
    }

    /** EnterIdle, with what it keeps. */
    method Introduce(streamID: uint32) returns (ghost mid: Tree<Node>, ghost first: Option<Node>)
      requires Valid() && Creates(streamID)
      modifies this`nodes, this`all, this`maxID, this`idleNodes, all`kids, all`parent, all`prev, all`next, all`pos
      ensures Valid() && mid == View() && streamID in nodes && nodes[streamID].id == streamID && maxID == streamID
      ensures fresh(nodes[streamID]) && nodes[streamID].state.Idle? && all == old(all) + {nodes[streamID]}
      ensures nodes == TableAfter(old(nodes), streamID, nodes[streamID], old(Oldest(idleNodes, maxIdleNodes)))
      ensures idleNodes == old(if Oldest(idleNodes, maxIdleNodes).Some? then idleNodes[1..] else idleNodes)
              + [nodes[streamID]]
      ensures first == old(FirstOf(Oldest(idleNodes, maxIdleNodes)))
      ensures WithIdle(old(View()), streamID, nodes[streamID], old(Oldest(idleNodes, maxIdleNodes)), first, mid)
      ensures StatesOf(all) == old(StatesOf(all))[nodes[streamID] := Idle]
      ensures QueuesOf(all) == old(QueuesOf(all))[nodes[streamID] := []]
      ensures WeightsOf(all) == old(WeightsOf(all))[nodes[streamID] := DEFAULT_WEIGHT]
      ensures old(Harmless(View(), Oldest(idleNodes, maxIdleNodes))) ==>
                && (old(Healthy(View())) ==> Healthy(mid))
                && (old(Exact(View())) ==> Exact(mid))
      ensures old(NonNegative(View())) ==> NonNegative(mid)
    {
      hide *;
      ghost var t, e := View(), Oldest(idleNodes, maxIdleNodes);
      ValidTree();
      ViewAll();
      RootKnown();
      CreatesWhen(streamID);
      IdsBelow();
      var n;
      n, first := EnterIdle(streamID);
      mid := View();
      IdleNonNegative(t, mid, streamID, n, e, first);
      if Harmless(t, e) {
        IntroduceKeeps(t, mid, streamID, n, e, first);
      }
    }

    lemma IntroduceKeeps(t: Tree<Node>, mid: Tree<Node>, id: int, n: Node, e: Option<Node>, first: Option<Node>)
      requires WellFormed(t) && n !in t.all && 0 in t.nodes && t.nodes[0] == t.root && id !in t.nodes
      requires WithIdle(t, id, n, e, first, mid) && Harmless(t, e)
      ensures Healthy(t) ==> Healthy(mid)
      ensures Exact(t) ==> Exact(mid)
    {
      hide WellFormed, Healthy, Exact, FirstKid, Removed, Evictable, Add;
      if e.Some? {
        EvictableNode(t, e.value);
        IdleKeeps(t, id, n, e.value, first, e.value.id);
      } else {
        AddTracked(t, id, 0, n);
      }
    }

    method RaiseMaxID(streamID: uint32)
      requires Valid() && maxID <= streamID
      modifies this`maxID
      ensures Valid() && maxID == streamID
    {
      hide Links, Queues, Acyclic, Tables;
      WaitingKnown();
      TablesWait(root, all, nodes, closedNodes, idleNodes, maxID, closedNodes, idleNodes, streamID);
      maxID := streamID;
    }

    method RetireIdle(n: Node)
      requires Valid() && n in all && n != root && maxIdleNodes != 0
      modifies this`nodes, this`idleNodes, all`kids, all`parent, all`prev, all`next, all`pos
      ensures Valid()
      ensures View() == old(Dropped(View(), Oldest(idleNodes, maxIdleNodes)))
      ensures var e := old(Oldest(idleNodes, maxIdleNodes));
              && (e.Some? ==> old(FirstKid(View(), e.value, Kid(e.value.kids))))
              && nodes == (if e.Some? then old(nodes) - {e.value.id} else old(nodes))
              && idleNodes == (if e.Some? then old(idleNodes)[1..] else old(idleNodes)) + [n]
    {
      hide Links, WellFormed, Acyclic, Queues, Removed, FirstKid, Tables, View;
      WaitingKnown();
      var list := Retire(idleNodes, maxIdleNodes, n);
      TablesWait(root, all, nodes, closedNodes, idleNodes, maxID, closedNodes, list, maxID);
      idleNodes := list;
    }

    /** Hang the tracked node of a stream somewhere else. */
    method Move(streamID: int, dep: int, exclusive: bool)
      requires Valid() && streamID in nodes && dep in nodes && streamID != dep && streamID != 0
      modifies all`kids, all`parent, all`prev, all`next, all`pos
      ensures Valid()
      ensures Parents(all) == Reprioritize(old(Parents(all)), nodes[streamID], nodes[dep], exclusive)
    {
      hide Links, WellFormed, Queues, Tables, Reprioritize;
      ghost var t := View();
      Known(streamID);
      Known(dep);
      RootKnown();
      ValidTree();
      ReprioritizeKeeps(t, nodes[streamID], nodes[dep], exclusive);
      Reparent(nodes[streamID], nodes[dep], exclusive, all);
      TreeFacts(t.(parent := Parents(all)));
    }

    /** The weights after a PRIORITY frame for a tracked stream: the frame's own, the default,
        15, if the frame names an unknown parent, and no change if it names the stream. */
    static function Weighed(weights: map<Node, byte>, nodes: map<int, Node>, id: int, priority: PriorityParam)
      : map<Node, byte>
      requires id in nodes
    {
      if priority.streamDep == id then weights
      else weights[nodes[id] := if priority.streamDep in nodes then priority.weight else 15]
    }

    method Apply(streamID: uint32, priority: PriorityParam)
      requires Valid() && streamID in nodes && 0 in nodes && streamID != 0
      modifies all`kids, all`parent, all`prev, all`next, all`pos, {nodes[streamID]}`weight
      ensures Valid()
      ensures View() == Adjusted(old(View()), streamID, priority.streamDep, priority.exclusive)
      ensures WeightsOf(all) == Weighed(old(WeightsOf(all)), nodes, streamID, priority)
    {
      hide Links, WellFormed, Queues, Acyclic, Tables, Reprioritize, Parents, BytesOf, CountersOf;
      Known(streamID);
      RootKnown();
      var n := nodes[streamID];
      if priority.streamDep !in nodes {
        Move(streamID, 0, false);
        n.weight := DEFAULT_WEIGHT;
        return;
      }
      Known(priority.streamDep);
      var parent := nodes[priority.streamDep];
      if n == parent {
        return;
      }
      Move(streamID, priority.streamDep, priority.exclusive);
      n.weight := priority.weight;
    }

    /** Apply, with what it keeps. */
    method Rank(streamID: uint32, priority: PriorityParam)
      requires Valid() && streamID in nodes && 0 in nodes && streamID != 0
      modifies all`kids, all`parent, all`prev, all`next, all`pos, {nodes[streamID]}`weight
      ensures Valid() && old(WellFormed(View()))
      ensures View() == Adjusted(old(View()), streamID, priority.streamDep, priority.exclusive)
      ensures WeightsOf(all) == Weighed(old(WeightsOf(all)), nodes, streamID, priority)
      ensures old(Healthy(View())) ==> Healthy(View())
      ensures old(Healthy(View()) && Exact(View()) && NonNegative(View())) ==>
                && (Exact(View()) <==> AdjustSettles(old(View()), streamID, priority.streamDep, priority.exclusive))
                && (View().parent == old(View()).parent ==> Exact(View()))
    {
      hide Links, WellFormed, Queues, Acyclic, Tables, Healthy, Exact, Adjusted, View, NonNegative, AdjustSettles;
      hide WeightsOf, Weighed;
      ghost var t := View();
      ValidTree();
      ViewAll();
      RootKnown();
      AdjustedHealthy(t, streamID, priority.streamDep, priority.exclusive);
      if Healthy(t) && Exact(t) && NonNegative(t) {
        AdjustedExact(t, streamID, priority.streamDep, priority.exclusive);
      }
      Apply(streamID, priority);
    }

    lemma CreatesWhen(streamID: uint32)
      ensures Creates(streamID) <==> streamID !in nodes && streamID > maxID && maxIdleNodes != 0
    {
    }

    /** A PRIORITY frame. A stream that was removed is left alone; an unknown
        stream with a new id becomes an idle node first. */
    method AdjustStream(streamID: uint32, priority: PriorityParam)
      returns (ghost mid: Tree<Node>, ghost first: Option<Node>)
      requires Valid() && streamID != 0
      modifies this`nodes, this`all, this`maxID, this`idleNodes
      modifies all`kids, all`parent, all`prev, all`next, all`pos, all`weight
      ensures Valid()
      ensures old(Creates(streamID)) ==> streamID in nodes && nodes[streamID].id == streamID
      ensures all == old(all) + (if old(Creates(streamID)) then {nodes[streamID]} else {})
      ensures old(streamID !in nodes && !Creates(streamID)) ==> View() == old(View()) && nodes == old(nodes)
      ensures !old(Creates(streamID)) ==>
                && idleNodes == old(idleNodes) && maxID == old(maxID)
                && StatesOf(all) == old(StatesOf(all)) && QueuesOf(all) == old(QueuesOf(all))
      ensures old(streamID in nodes) ==> mid == old(View()) && nodes == old(nodes)
      ensures old(Creates(streamID)) ==>
                && streamID in nodes && fresh(nodes[streamID]) && nodes[streamID].state.Idle? && maxID == streamID
                && nodes == TableAfter(old(nodes), streamID, nodes[streamID], old(Oldest(idleNodes, maxIdleNodes)))
                && idleNodes == old(if Oldest(idleNodes, maxIdleNodes).Some? then idleNodes[1..] else idleNodes)
                  + [nodes[streamID]]
                && first == old(FirstOf(Oldest(idleNodes, maxIdleNodes)))
                && WithIdle(old(View()), streamID, nodes[streamID], old(Oldest(idleNodes, maxIdleNodes)), first, mid)
                && StatesOf(all) == old(StatesOf(all))[nodes[streamID] := Idle]
                && QueuesOf(all) == old(QueuesOf(all))[nodes[streamID] := []]
      ensures old(streamID in nodes || Creates(streamID)) ==>
                && streamID in mid.nodes && 0 in mid.nodes && nodes == mid.nodes
                && View() == Adjusted(mid, streamID, priority.streamDep, priority.exclusive)
      ensures WeightsOf(all) == if old(streamID in nodes) then Weighed(old(WeightsOf(all)), nodes, streamID, priority)
              else if old(Creates(streamID))
              then Weighed(old(WeightsOf(all))[nodes[streamID] := DEFAULT_WEIGHT], nodes, streamID, priority)
              else old(WeightsOf(all))
      ensures old(Healthy(View()) && (Creates(streamID) ==> Harmless(View(), Oldest(idleNodes, maxIdleNodes)))) ==>
              Healthy(View())
      ensures old(Healthy(View()) && Exact(View()) && NonNegative(View())
                  && (Creates(streamID) ==> Harmless(View(), Oldest(idleNodes, maxIdleNodes)))) ==>
                && (old(streamID in nodes || Creates(streamID)) ==>
                      && WellFormed(mid)
                      && (Exact(View()) <==> AdjustSettles(mid, streamID, priority.streamDep, priority.exclusive))
                      && (View().parent == mid.parent ==> Exact(View())))
                && (old(streamID !in nodes && !Creates(streamID)) ==> Exact(View()))
    {
      hide *;
      ViewAll();
      RootKnown();
      CreatesWhen(streamID);
      first, mid := None, View();
      if streamID !in nodes {
        if streamID <= maxID || maxIdleNodes == 0 {
          return;
        }
        mid, first := Introduce(streamID);
        ViewAll();
        RootKnown();
      }
      Known(streamID);
      Rank(streamID, priority);
    }

    // ----- frames -----

    /** Queue a frame at its stream's node. Frames for no stream, and resets for
        streams without a node, go to the root. */
    method Push(wr: FrameWriteRequest)
      requires Valid() && wr.Sendable()
      requires wr.StreamID() !in nodes ==> wr.DataSize() == 0
      modifies this`windows, this`conns, all`q
      ensures Valid() && View() == old(View())
      ensures var n := if wr.StreamID() in nodes then nodes[wr.StreamID()] else root;
              n in all && QueuesOf(all) == old(QueuesOf(all))[n := old(n.q) + [wr]]
      ensures windows == old(windows) + wr.Windows()
    {
      hide Links, Acyclic, Tables, Queues, QueuesOf, View, QueueOk;
      RootKnown();
      var n := root;
      if wr.StreamID() in nodes {
        Known(wr.StreamID());
        n := nodes[wr.StreamID()];
      }
      ghost var w := windows + wr.Windows();
      ghost var c := if wr.DataSize() > 0 then conns + {wr.stream.sc} else conns;
      QueuesMore(all, windows, conns, w, c);
      windows, conns := w, c;
      QueueFacts(n);
      QueueSnoc(n.q, wr, w, c);
      SetQueue(n, n.q + [wr]);
    }

    static lemma QueueSnoc(q: seq<FrameWriteRequest>, wr: FrameWriteRequest, windows: set<Window>, conns: set<Conn>)
      requires QueueOk(q, windows, conns) && FrameOk(wr, windows, conns)
      ensures QueueOk(q + [wr], windows, conns)
    {
    }

    lemma QueueFacts(n: Node)
      requires Queues(all, windows, conns) && n in all
      ensures QueueOk(n.q, windows, conns)
    {
    }

    /** Take what may go from the head of n's queue, at most limit bytes. */
    method ConsumeHead(n: Node, limit: int32) returns (wr: FrameWriteRequest, ok: bool, ghost last: bool)
      requires Valid() && n in all && limit > 0
      modifies n`q, windows`n
      ensures Valid() && old(QueueOk(n.q, windows, conns))
      ensures ok <==> old(HeadReady(n, windows, conns))
      ensures !ok ==> n.q == old(n.q) && forall w :: w in windows ==> w.n == old(w.n)
      ensures ok ==> wr.DataSize() <= limit && Heads(old(n.q), n.q, wr, last)
      ensures ok ==> forall w :: w in windows ==> w.n == old(w.n) - (if w in wr.Windows() then wr.DataSize() else 0)
    {
      hide Links, Acyclic, Tables, Queues, AllAtoms, Atoms;
      QueueFacts(n);
      assert n.q != [] ==> FrameOk(n.q[0], windows, conns);
      var rest;
      wr, rest, ok, last := ConsumeQueue(n.q, limit);
      if ok {
        ShortenedOk(n.q, rest, windows, conns);
        SetQueue(n, rest);
      }
    }

    // ----- choosing the next frame -----

    ghost function Now(): Snapshot
      reads this`all, this`nodes, this`windows, this`conns
      reads all`parent, all`q, all`bytes, all`subtreeBytes, windows, conns
    {
      Snapshot(QueuesOf(all), WindowsOf(windows), FrameSizesOf(conns), View())
    }

    /** Below an open stream the limit grows by 1024 and stops at the largest number; else it
        starts again, if there is a throttle. */
    function LimitAfter(limit: int32, openParent: bool): (r: int32)
      ensures 0 <= limit && openParent ==> r == if limit + 1024 > 0x7fff_ffff then 0x7fff_ffff else limit + 1024
      ensures !openParent ==> r == if enableWriteThrottle then 1024 else limit
    {
      if openParent then (if Wrap32(limit + 1024) < 0 then MAX_INT32 else Wrap32(limit + 1024))
      else if enableWriteThrottle then 1024
      else limit
    }

    /** ConsumeHead, seen through snapshots. */
    method SendHead(n: Node, limit: int32) returns (wr: FrameWriteRequest, ok: bool, ghost last: bool)
      requires Valid() && n in all && limit > 0
      modifies n`q, windows`n
      ensures Valid()
      ensures ok <==> Ready(old(Now()), n)
      ensures !ok ==> Now() == old(Now())
      ensures ok ==> wr.DataSize() <= limit && Taken(old(Now()), Now(), n, wr, last)
    {
      hide Links, Acyclic, Tables, Queues, AllAtoms, Emitted, View, Ready, HeadReady, FrameSizesOf;
      QueueFacts(n);
      ReadyMeansReady(Now(), n, all, windows, conns);
      wr, ok, last := ConsumeHead(n, limit);
      if ok {
        assert QueuesOf(all) == old(QueuesOf(all))[n := n.q];
        assert WindowsOf(windows) == Debit(old(WindowsOf(windows)), wr);
      } else {
        assert QueuesOf(all) == old(QueuesOf(all)) && WindowsOf(windows) == old(WindowsOf(windows));
      }
    }

    /** Send from n if its queue allows it. */
    method Visit(n: Node, openParent: bool) returns (wr: FrameWriteRequest, ok: bool, ghost last: bool)
      requires Valid() && n in all
      modifies this`writeThrottleLimit, n`q, n`bytes, all`subtreeBytes, windows`n
      ensures Valid()
      ensures ok <==> Ready(old(Now()), n)
      ensures ok ==> Sent(old(Now()), Now(), n, wr, last)
      ensures ok ==> writeThrottleLimit == LimitAfter(old(writeThrottleLimit), openParent)
      ensures ok && openParent ==> wr.DataSize() <= old(writeThrottleLimit)
      ensures !ok ==> Now() == old(Now()) && writeThrottleLimit == old(writeThrottleLimit)
    {
      hide Links, Acyclic, Tables, Queues, View, Ready, Bump, WellFormed, Now, Taken, Sent;
      NowTree();
      ghost var s := Now();
      var limit: int32 := MAX_INT32;
      if openParent {
        limit := writeThrottleLimit;
      }
      wr, ok, last := SendHead(n, limit);
      if !ok {
        return;
      }
      ghost var m := Now();
      NowTree();
      CountBytes(n, wr.DataSize());
      NowTree();
      writeThrottleLimit := LimitAfter(writeThrottleLimit, openParent);
      TakenSent(s, m, Now(), n, wr, last);
    }

    lemma NowTree()
      ensures Now().tree == View() && View().all == all
    {
    }

    lemma SomeTop(n: Node) returns (top: Node)
      requires Valid() && n in all
      ensures TopOf(Parents(all), all, n, top)
    {
      var p := Parents(all);
      assert HasTop(p, all - p.Keys, n);
      top :| top in all - p.Keys && Reaches(p, n, top);
    }

    /** Visit n and everything below it, parents before kids, until a frame goes. */
    method Walk(n: Node, openParent: bool) returns (wr: FrameWriteRequest, ok: bool, ghost who: Node, ghost last: bool)
      requires Valid() && n in all
      modifies this`writeThrottleLimit, windows`n
      modifies all`kids, all`parent, all`prev, all`next, all`pos, all`q, all`bytes, all`subtreeBytes
      ensures Valid() && Parents(all) == old(Parents(all))
      ensures OrderKept(Parents(all), n, old(PlacesOf(all)), PlacesOf(all))
      ensures ok ==>
                && who in all && Reaches(Parents(all), who, n)
                && Sent(old(Now()), Now(), who, wr, last)
                && NoneAboveReady(Parents(all), all, old(Now()), who, n)
                && FairTurn(Parents(all), all, old(Now()), WeightsOf(all), who, n)
                && (openParent || OpenAbove(Parents(all), all, who, n) ==> wr.DataSize() <= old(writeThrottleLimit))
                && writeThrottleLimit ==
                   LimitAfter(old(writeThrottleLimit), openParent || OpenAbove(Parents(all), all, who, n))
      ensures !ok ==>
                && Now() == old(Now()) && writeThrottleLimit == old(writeThrottleLimit)
                && NoneReady(Parents(all), all, old(Now()), n)
      decreases Below(Parents(all), all, n), 2
    {
      hide Links, Acyclic, Tables, Queues, View, Now, Ready, Sent, Reaches, Below, NoneReady, NoneAboveReady,
           OpenAbove, Parents, FairTurn, WeightsOf;
      who, last := n, true;
      ghost var p, s := Parents(all), Now();
      if n.q != [] {
        wr, ok, last := Visit(n, openParent);
        if ok {
          ghost var top := SomeTop(n);
          ReachesSelf(p, n);
          AboveSelf(p, all, s, n, top);
          TurnSelf(p, all, s, WeightsOf(all), n, top);
          return;
        }
      } else {
        EmptyNotReady(n);
      }
      wr, ok, who, last := WalkBelow(n, openParent);
    }

    /** The part of the walk after n itself had nothing to send. */
    method WalkBelow(n: Node, openParent: bool)
      returns (wr: FrameWriteRequest, ok: bool, ghost who: Node, ghost last: bool)
      requires Valid() && n in all && !Ready(Now(), n)
      modifies this`writeThrottleLimit, windows`n
      modifies all`kids, all`parent, all`prev, all`next, all`pos, all`q, all`bytes, all`subtreeBytes
      ensures Valid() && Parents(all) == old(Parents(all))
      ensures OrderKept(Parents(all), n, old(PlacesOf(all)), PlacesOf(all))
      ensures ok ==>
                && who in all && Reaches(Parents(all), who, n)
                && Sent(old(Now()), Now(), who, wr, last)
                && NoneAboveReady(Parents(all), all, old(Now()), who, n)
                && FairTurn(Parents(all), all, old(Now()), WeightsOf(all), who, n)
                && (openParent || OpenAbove(Parents(all), all, who, n) ==> wr.DataSize() <= old(writeThrottleLimit))
                && writeThrottleLimit ==
                   LimitAfter(old(writeThrottleLimit), openParent || OpenAbove(Parents(all), all, who, n))
      ensures !ok ==>
                && Now() == old(Now()) && writeThrottleLimit == old(writeThrottleLimit)
                && NoneReady(Parents(all), all, old(Now()), n)
      decreases Below(Parents(all), all, n), 1
    {
      hide Links, Acyclic, Tables, Queues, View, Now, Ready, Sent, Reaches, Below, NoneReady, NoneAboveReady,
           OpenAbove, Parents, OrderKept, FairTurn, WeightsOf, SortedBy, Mixed, Tried, KidOf;
      who, last := n, true;
      wr, ok := FrameWriteRequest(None, null, Other(0)), false;
      ghost var p, s := Parents(all), Now();
      ghost var a := PlacesOf(all);
      OrderSame(p, n, a);
      if n.kids == null {
        NoKids(n);
        NotFoundBelow(p, all, s, n);
        return;
      }
      var open := openParent;
      if n.id != 0 {
        open := openParent || n.state.Open?;
      }
      Prepare(n);
      ghost var b := PlacesOf(all);
      ghost var kid;
      wr, ok, who, kid, last := WalkKids(n, open);
      OrderTrans(p, n, a, b, PlacesOf(all));
      if ok {
        ghost var top := SomeTop(n);
        FoundBelow(p, all, s, who, kid, n, top);
        IsKid(p, n, kid);
        TurnBelow(p, all, s, WeightsOf(all), n, b, kid, who, top);
      } else {
        NotFoundBelow(p, all, s, n);
      }
    }

    lemma EmptyNotReady(n: Node)
      requires n in all && n.q == []
      ensures !Ready(Now(), n)
    {
    }

    lemma NoKids(n: Node)
      requires Valid() && n in all && n.kids == null
      ensures forall c :: c in all && c in Parents(all) ==> Parents(all)[c] != n
    {
      forall c | c in all && c in Parents(all) ensures Parents(all)[c] != n {
        if c.parent == n {
          FirstKidLeast(n, c, all);
        }
      }
    }

    method Resort(n: Node)
      requires Valid() && n in all
      modifies all`kids, all`parent, all`prev, all`next, all`pos
      ensures Valid() && Parents(all) == old(Parents(all)) && Now() == old(Now())
      ensures OrderKept(Parents(all), n, old(PlacesOf(all)), PlacesOf(all))
      ensures KidsInOrder(n, all)
    {
      hide Links, Tables, Queues, Reaches, QueuesOf, WindowsOf, FrameSizesOf, BytesOf, CountersOf, KidsInOrder;
      if n.parent != null {
        NoSmallCycle(n, all);
      }
      SortKids(n, all);
      ReachesSelf(Parents(all), n);
      assert Parents(all) == old(Parents(all));
    }

    lemma OrderMeans(n: Node)
      requires Valid() && KidsInOrder(n, all)
      ensures SortedBy(Parents(all), WeightsOf(all), Now().tree.subtree, n, PlacesOf(all))
    {
      var p, w, b, places := Parents(all), WeightsOf(all), Now().tree.subtree, PlacesOf(all);
      if Comparable(p, w, b, n) {
        forall c | c in all && c.parent == n ensures c.weight < 255 && 0 <= c.subtreeBytes {
          assert c in p && KidOf(p, n, c);
        }
        forall c, d | c in p && d in p && KidOf(p, n, c) && KidOf(p, n, d) && Sooner(places, c, d)
          ensures LeadsIn(w, b, c, d)
        {
          assert Leads(c, d);
        }
      }
    }

    lemma MixedMeans(n: Node)
      requires Valid() && n in all && n.kids != null && Mixed(Parents(all), WeightsOf(all), n)
      ensures exists c :: c in all && c.parent == n && c.weight != n.kids.weight
    {
    }

    /** Kids of different weights are sorted before they are tried. */
    method Prepare(n: Node)
      requires Valid() && n in all && n.kids != null
      modifies all`kids, all`parent, all`prev, all`next, all`pos
      ensures Valid() && Parents(all) == old(Parents(all)) && Now() == old(Now())
      ensures OrderKept(Parents(all), n, old(PlacesOf(all)), PlacesOf(all))
      ensures Mixed(Parents(all), WeightsOf(all), n) ==>
                SortedBy(Parents(all), WeightsOf(all), Now().tree.subtree, n, PlacesOf(all))
    {
      hide Acyclic, Tables, Queues, View, Now, OrderKept, Parents, PlacesOf, Mixed, SortedBy, KidsInOrder, WeightsOf;
      OrderSame(Parents(all), n, PlacesOf(all));
      if Mixed(Parents(all), WeightsOf(all), n) {
        MixedMeans(n);
      }
      var needSort := WeightsDiffer(n, all);
      if needSort {
        Resort(n);
        OrderMeans(n);
      }
    }

    method WalkKids(n: Node, openParent: bool)
      returns (wr: FrameWriteRequest, ok: bool, ghost who: Node, ghost kid: Node, ghost last: bool)
      requires Valid() && n in all
      modifies this`writeThrottleLimit, windows`n
      modifies all`kids, all`parent, all`prev, all`next, all`pos, all`q, all`bytes, all`subtreeBytes
      ensures Valid() && Parents(all) == old(Parents(all))
      ensures OrderKept(Parents(all), n, old(PlacesOf(all)), PlacesOf(all))
      ensures ok ==>
                && who in all && kid in Parents(all) && Parents(all)[kid] == n && Reaches(Parents(all), who, kid)
                && Sent(old(Now()), Now(), who, wr, last)
                && NoneAboveReady(Parents(all), all, old(Now()), who, kid)
                && FairTurn(Parents(all), all, old(Now()), WeightsOf(all), who, kid)
                && Tried(Parents(all), all, old(Now()), n, old(PlacesOf(all)), kid)
                && (openParent || OpenAbove(Parents(all), all, who, kid) ==> wr.DataSize() <= old(writeThrottleLimit))
                && writeThrottleLimit ==
                   LimitAfter(old(writeThrottleLimit), openParent || OpenAbove(Parents(all), all, who, kid))
      ensures !ok ==>
                && Now() == old(Now()) && writeThrottleLimit == old(writeThrottleLimit)
                && forall c :: c in all && c in Parents(all) && Parents(all)[c] == n ==>
                     NoneReady(Parents(all), all, old(Now()), c)
      decreases Below(Parents(all), all, n), 0
    {
      hide Links, Acyclic, Tables, Queues, View, Now, Ready, Sent, Reaches, Below, NoneReady, NoneAboveReady, OpenAbove;
      hide Parents, PlacesOf, OrderKept, SamePlaces, Tried, Untried, Valid, FairTurn, WeightsOf;
      who, kid, last := n, n, true;
      wr, ok := FrameWriteRequest(None, null, Other(0)), false;
      ghost var p: map<Node, Node> := Parents(all);
      ghost var places: map<Node, int>, s := PlacesOf(all), Now();
      ghost var top := SomeTop(n);
      OrderSame(p, n, places);
      FirstPlace(n);
      TriedNone(p, all, s, n, places, n.kids);
      var k := n.kids;
      while k != null
        invariant Valid() && Parents(all) == p && OrderKept(p, n, places, PlacesOf(all))
        invariant Now() == s && writeThrottleLimit == old(writeThrottleLimit)
        invariant k != null ==> k in all && k in p && p[k] == n
        invariant SamePlaces(p, n, PlacesOf(all), places) && Tried(p, all, s, n, places, k)
        decreases Untried(p, n, places, k)
      {
        BelowShrinks(p, all, k, n, top);
        ghost var before := PlacesOf(all);
        wr, ok, who, last := Walk(k, openParent);
        OrderLarger(p, k, n, places, before, PlacesOf(all));
        if ok {
          kid := k;
          return;
        }
        NextPlace(k);
        SamePlacesTrans(p, n, PlacesOf(all), before, places);
        TriedNext(p, all, s, n, PlacesOf(all), places, k, k.next);
        k := k.next;
      }
      TriedAll(p, all, s, n, places);
    }

    lemma FirstPlace(n: Node)
      requires Valid() && n in all
      ensures n.kids != null ==> n.kids in all && n.kids in Parents(all) && Parents(all)[n.kids] == n
      ensures forall c :: c in Parents(all) && Parents(all)[c] == n ==>
                n.kids != null && n.kids in all && PlacesOf(all)[n.kids] <= PlacesOf(all)[c]
    {
      assert Linked(n, all);
      forall c | c in all && c.parent == n ensures n.kids != null && n.kids.pos <= c.pos {
        FirstKidLeast(n, c, all);
      }
    }

    lemma NextPlace(k: Node)
      requires Valid() && k in Parents(all)
      ensures var p, m := Parents(all), PlacesOf(all);
              && (k.next != null ==> k.next in all && k.next in p && p[k.next] == p[k] && m[k] < m[k.next])
              && (forall c :: c in p && p[c] == p[k] ==>
                    m[c] < m[k] || c == k || (k.next != null && k.next in all && m[k.next] <= m[c]))
    {
      NextSkipsNone(k, k, all);
      forall c | c in all && c.parent == k.parent
        ensures c.pos < k.pos || c == k || (k.next != null && k.next.pos <= c.pos)
      {
        NextSkipsNone(k, c, all);
      }
    }

    /** The next frame to write. It comes from a stream that could send while
        nothing above it could; if there is none, no stream in the tree can send.
        Below an open stream the throttle bounds the frame. */
    method Pop() returns (wr: FrameWriteRequest, ok: bool, ghost who: Node, ghost last: bool)
      requires Valid()
      modifies this`writeThrottleLimit, windows`n
      modifies all`kids, all`parent, all`prev, all`next, all`pos, all`q, all`bytes, all`subtreeBytes
      ensures Valid() && Parents(all) == old(Parents(all))
      ensures ok ==>
                && who in all && Reaches(Parents(all), who, root)
                && Sent(old(Now()), Now(), who, wr, last)
                && NoneAboveReady(Parents(all), all, old(Now()), who, root)
                && FairTurn(Parents(all), all, old(Now()), WeightsOf(all), who, root)
                && (OpenAbove(Parents(all), all, who, root) ==> wr.DataSize() <= old(writeThrottleLimit))
                && writeThrottleLimit == LimitAfter(old(writeThrottleLimit), OpenAbove(Parents(all), all, who, root))
      ensures !ok ==>
                && Now() == old(Now()) && writeThrottleLimit == old(writeThrottleLimit)
                && NoneReady(Parents(all), all, old(Now()), root)
      ensures old(Healthy(View())) ==> Healthy(View())
      ensures old(Exact(View())) ==> Exact(View())
    {
      hide Links, Acyclic, Tables, Queues, View, Ready, Reaches, NoneReady, NoneAboveReady, OpenAbove, Healthy, Exact;
      hide WellFormed, Bump, Debit, Emitted, AllAtoms, QueuesOf, WindowsOf, FrameSizesOf, Parents;
      RootKnown();
      wr, ok, who, last := Walk(root, false);
      if ok {
        BumpHealthy(old(View()), who, wr.DataSize());
      }
    }
  }

  /** A PRIORITY frame for a new stream, as far as the table and the idle list go. */
  method FirstMention(ws: Scheduler, id: uint32) returns (n: Node)
    requires ws.Valid() && id != 0 && ws.Creates(id)
    modifies ws`nodes, ws`all, ws`maxID, ws`idleNodes
    modifies ws.all`kids, ws.all`parent, ws.all`prev, ws.all`next, ws.all`pos, ws.all`weight
    ensures ws.Valid() && fresh(n) && n.id == id && n.state.Idle? && n in ws.all && old(ws.all) <= ws.all
            && ws.maxID == id
    ensures fresh(ws.all - old(ws.all))
    ensures var victim := Scheduler.Oldest(old(ws.idleNodes), ws.maxIdleNodes);
            && ws.nodes == Scheduler.TableAfter(old(ws.nodes), id, n, victim)
            && ws.idleNodes == (if victim.Some? then old(ws.idleNodes)[1..] else old(ws.idleNodes)) + [n]
  {
    hide Scheduler.Valid, Scheduler.View, Adjusted, FirstKid, Healthy, Exact, Add, Removed, StatesOf, QueuesOf,
         WithIdle;
    hide Scheduler.Harmless, NonNegative, AdjustSettles, WellFormed, Scheduler.Oldest, Scheduler.TableAfter;
    ghost var mid, first := ws.AdjustStream(id, PriorityParam(0, false, 15));
    n := ws.nodes[id];
  }

  /** A stream that was idle when it first appeared keeps its place among the
      idle nodes after it is opened, so it can be evicted while it is open. Its
      CloseStream would then name an unknown stream. */
  method EvictsAnOpenStream() returns (ws: Scheduler, n: Node)
    ensures fresh(ws) && ws.Valid() && ws.maxIdleNodes == 1
    ensures n.id == 1 && n.state.Open? && n.id !in ws.nodes
  {
    hide Scheduler.Valid, Scheduler.View, Healthy, Exact, Add, StatesOf, QueuesOf;
    ws := new Scheduler(10, 1, false);
    n := FirstMention(ws, 1);
    ws.OpenStream(1, 0);
    var _ := FirstMention(ws, 3);
  }
}
