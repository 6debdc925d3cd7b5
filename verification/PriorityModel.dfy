/** The priority tree as a value: who is whose parent, how many bytes each node
    sent, which counters the nodes keep, and which nodes the scheduler tracks.
    The heap operations are specified by the functions here. */
module PriorityModel {
  import opened Common
  import opened Forest

  datatype Tree<!T(==)> = Tree(
    root: T,
    all: set<T>,              // every node, tracked or detached
    parent: map<T, T>,
    bytes: map<T, int>,       // bytes sent by the node itself
    subtree: map<T, int>,     // the node's subtreeBytes counter
    nodes: map<int, T>        // stream id to tracked node
  )

  /** Holds in every run: no cycles, nothing points outside. */
  ghost predicate WellFormed<T>(t: Tree<T>) {
    && t.root in t.all && t.root !in t.parent
    && Closed(t.parent, t.all)
    && t.bytes.Keys == t.all && t.subtree.Keys == t.all
    && (forall id :: id in t.nodes ==> t.nodes[id] in t.all)
    && (forall i, j :: i in t.nodes && j in t.nodes && t.nodes[i] == t.nodes[j] ==> i == j)
    && Grounded(t.parent, t.all, t.all - t.parent.Keys)
  }

  ghost predicate Closed<T>(p: map<T, T>, all: set<T>) {
    && p.Keys <= all
    && forall c :: c in p ==> p[c] in all
  }

  /** The tracked nodes are exactly the nodes that hang, at any depth, from the root. */
  ghost predicate Connected<T>(t: Tree<T>) {
    && (forall id :: id in t.nodes ==> Reaches(t.parent, t.nodes[id], t.root))
    && (forall n :: n in t.all && Reaches(t.parent, n, t.root) ==> Tracked(t, n))
  }

  ghost predicate Tracked<T>(t: Tree<T>, n: T) {
    exists id :: id in t.nodes && t.nodes[id] == n
  }

  /** The counter at n is the sum of the bytes of n and everything below it. */
  ghost predicate CountsAt<T>(t: Tree<T>, n: T)
    requires WellFormed(t) && n in t.all
  {
    t.subtree[n] == Sum(t.bytes, Below(t.parent, t.all, n))
  }

  ghost predicate RootCounts<T>(t: Tree<T>)
    requires WellFormed(t)
  {
    CountsAt(t, t.root)
  }

  ghost predicate AllCount<T>(t: Tree<T>)
    requires WellFormed(t)
  {
    forall id :: id in t.nodes ==> CountsAt(t, t.nodes[id])
  }

  /** Every tracked stream hangs from the root, and the root counts what they sent. */
  ghost predicate Healthy<T>(t: Tree<T>) {
    WellFormed(t) && Connected(t) && RootCounts(t)
  }

  /** Every tracked node counts what its subtree sent. */
  ghost predicate Exact<T>(t: Tree<T>) {
    WellFormed(t) && AllCount(t)
  }

  // ----- operations -----

  function Add<T>(t: Tree<T>, id: int, n: T, parent: T): Tree<T> {
    t.(all := t.all + {n}, parent := t.parent[n := parent], bytes := t.bytes[n := 0],
       subtree := t.subtree[n := 0], nodes := t.nodes[id := n])
  }

  /** n sends d bytes: n and all its ancestors count them. */
  ghost function Bump<T>(t: Tree<T>, n: T, d: int): Tree<T>
    requires WellFormed(t) && n in t.all
  {
    t.(bytes := t.bytes[n := t.bytes[n] + d], subtree := BumpCounters(t.parent, t.subtree, n, d))
  }

  ghost function BumpCounters<T>(p: map<T, T>, counters: map<T, int>, n: T, d: int): map<T, int> {
    map x | x in counters :: counters[x] + (if Reaches(p, n, x) then d else 0)
  }

  /** c hangs from p's parent afterwards, wherever that is. */
  function Lift<T>(p: map<T, T>, c: T, n: T): map<T, T> {
    if n in p then p[c := p[n]] else p - {c}
  }

  /** n becomes a kid of parent. A parent that depended on n first takes n's place;
      an exclusive n takes over the other kids of parent. (RFC 7540, section 5.3.3) */
  ghost function Reprioritize<T>(p: map<T, T>, n: T, parent: T, exclusive: bool): map<T, T> {
    var p1 := if Reaches(p, parent, n) then Lift(p, parent, n) else p;
    (if exclusive then Adopt(p1, n, parent) else p1)[n := parent]
  }

  /** The kids of parent, n excepted, hang from n. */
  function Adopt<T>(p: map<T, T>, n: T, parent: T): map<T, T> {
    map x | x in p :: if p[x] == parent && x != n then n else p[x]
  }

  /** What removing a node does: its first kid moves to its parent, the node is
      detached, and the other kids stay with the detached node. */
  function Remove<T>(p: map<T, T>, n: T, first: Option<T>): map<T, T> {
    (if first.None? then p else Lift(p, first.value, n)) - {n}
  }

  // ----- reaching stays inside -----

  lemma {:induction false} PathStays<T>(p: map<T, T>, all: set<T>, a: T, b: T, k: nat)
    requires Closed(p, all) && a in all && Path(p, a, b, k)
    ensures b in all
    decreases k
  {
    if k > 0 {
      PathStays(p, all, p[a], b, k - 1);
    }
  }

  lemma ReachStays<T>(p: map<T, T>, all: set<T>, a: T, b: T)
    requires Closed(p, all) && a in all && Reaches(p, a, b)
    ensures b in all
  {
    var k: nat :| Path(p, a, b, k);
    PathStays(p, all, a, b, k);
  }

  // ----- adding a node -----

  lemma AddReaches<T>(t: Tree<T>, id: int, n: T, parent: T, a: T, b: T)
    requires WellFormed(t) && n !in t.all && parent in t.all && a in t.all
    ensures Reaches(Add(t, id, n, parent).parent, a, b) <==> Reaches(t.parent, a, b)
    ensures Reaches(Add(t, id, n, parent).parent, n, b) <==> b == n || Reaches(t.parent, parent, b)
  {
    var q := Add(t, id, n, parent).parent;
    assert t.parent - {n} == q - {n};
    forall x | x in t.all ensures !Reaches(t.parent, x, n) {
      if Reaches(t.parent, x, n) {
        ReachStays(t.parent, t.all, x, n);
      }
    }
    ReachesOutside(t.parent, q, n, a, b);
    ReachesOutside(t.parent, q, n, parent, b);
    ReachesStep(q, n, b);
  }

  lemma AddKeeps<T>(t: Tree<T>, id: int, n: T, parent: T)
    requires WellFormed(t) && n !in t.all && parent in t.all && id !in t.nodes
    ensures WellFormed(Add(t, id, n, parent))
    ensures Connected(t) && Reaches(t.parent, parent, t.root) ==> Connected(Add(t, id, n, parent))
    ensures RootCounts(t) ==> RootCounts(Add(t, id, n, parent))
    ensures AllCount(t) ==> AllCount(Add(t, id, n, parent))
  {
    var u := Add(t, id, n, parent);
    AddWellFormed(t, id, n, parent);
    if Connected(t) && Reaches(t.parent, parent, t.root) {
      forall i | i in u.nodes ensures Reaches(u.parent, u.nodes[i], u.root) {
        AddReaches(t, id, n, parent, if i == id then parent else t.nodes[i], t.root);
      }
      forall x | x in u.all && Reaches(u.parent, x, u.root)
        ensures Tracked(u, x)
      {
        if x == n {
          assert id in u.nodes;
        } else {
          AddReaches(t, id, n, parent, x, t.root);
          var i :| i in t.nodes && t.nodes[i] == x;
          assert i in u.nodes;
        }
      }
    }
    forall x | x in t.all && CountsAt(t, x) ensures CountsAt(u, x) {
      AddCounts(t, id, n, parent, x);
    }
    if AllCount(t) {
      AddCounts(t, id, n, parent, parent);
      forall i | i in u.nodes ensures CountsAt(u, u.nodes[i]) {
        if i != id {
          assert CountsAt(t, t.nodes[i]);
        }
      }
    }
  }

  lemma AddWellFormed<T>(t: Tree<T>, id: int, n: T, parent: T)
    requires WellFormed(t) && n !in t.all && parent in t.all && id !in t.nodes
    ensures WellFormed(Add(t, id, n, parent))
  {
    AddGrounded(t, id, n, parent);
  }

  /** A new node below a tracked one. */
  lemma AddTracked<T>(t: Tree<T>, id: int, above: int, n: T)
    requires WellFormed(t) && n !in t.all && id !in t.nodes && above in t.nodes
    ensures Healthy(t) ==> Healthy(Add(t, id, n, t.nodes[above]))
    ensures Exact(t) ==> Exact(Add(t, id, n, t.nodes[above]))
  {
    AddKeeps(t, id, n, t.nodes[above]);
  }

  lemma AddGrounded<T>(t: Tree<T>, id: int, n: T, parent: T)
    requires WellFormed(t) && n !in t.all && parent in t.all
    ensures var u := Add(t, id, n, parent); Grounded(u.parent, u.all, u.all - u.parent.Keys)
  {
    var u := Add(t, id, n, parent);
    forall a | a in u.all
      ensures HasTop(u.parent, u.all - u.parent.Keys, a)
    {
      var b := if a == n then parent else a;
      assert HasTop(t.parent, t.all - t.parent.Keys, b);
      var e :| e in t.all - t.parent.Keys && Reaches(t.parent, b, e);
      AddReaches(t, id, n, parent, b, e);
      assert e in u.all - u.parent.Keys;
    }
  }

  lemma AddCounts<T>(t: Tree<T>, id: int, n: T, parent: T, x: T)
    requires WellFormed(t) && n !in t.all && parent in t.all && id !in t.nodes && x in t.all
    ensures WellFormed(Add(t, id, n, parent))
    ensures CountsAt(t, x) ==> CountsAt(Add(t, id, n, parent), x)
    ensures CountsAt(Add(t, id, n, parent), n)
  {
    var u := Add(t, id, n, parent);
    AddWellFormed(t, id, n, parent);
    var before, after := Below(t.parent, t.all, x), Below(u.parent, u.all, x);
    forall a | a in t.all ensures Reaches(u.parent, a, x) <==> Reaches(t.parent, a, x) {
      AddReaches(t, id, n, parent, a, x);
    }
    assert after - {n} == before;
    SumSame(t.bytes, u.bytes, before);
    if n in after {
      SumPick(u.bytes, after, n);
    } else {
      assert after == before;
    }
    forall a | a in t.all ensures !Reaches(u.parent, a, n) {
      AddReaches(t, id, n, parent, a, n);
      if Reaches(t.parent, a, n) {
        ReachStays(t.parent, t.all, a, n);
      }
    }
    ReachesSelf(u.parent, n);
    assert Below(u.parent, u.all, n) == {n};
    SumPick(u.bytes, {n}, n);
  }

  // ----- sending bytes -----

  lemma BumpKeeps<T>(t: Tree<T>, n: T, d: int)
    requires WellFormed(t) && n in t.all
    ensures WellFormed(Bump(t, n, d))
    ensures Connected(t) ==> Connected(Bump(t, n, d))
    ensures forall x :: x in t.all && CountsAt(t, x) ==> CountsAt(Bump(t, n, d), x)
    ensures RootCounts(t) ==> RootCounts(Bump(t, n, d))
    ensures AllCount(t) ==> AllCount(Bump(t, n, d))
  {
    var u := Bump(t, n, d);
    forall x | x in t.all && CountsAt(t, x) ensures CountsAt(u, x) {
      SumBump(t.bytes, Below(t.parent, t.all, x), n, d);
    }
    if AllCount(t) {
      forall id | id in u.nodes ensures CountsAt(u, u.nodes[id]) {
        assert CountsAt(t, t.nodes[id]);
      }
    }
  }

  lemma BumpHealthy<T>(t: Tree<T>, n: T, d: int)
    requires WellFormed(t) && n in t.all
    ensures WellFormed(Bump(t, n, d))
    ensures Healthy(t) ==> Healthy(Bump(t, n, d))
    ensures Exact(t) ==> Exact(Bump(t, n, d))
  {
    BumpKeeps(t, n, d);
  }

  // ----- changing priority -----

  lemma LiftKeepsGrounded<T>(p: map<T, T>, all: set<T>, tops: set<T>, c: T, n: T)
    requires Grounded(p, all, tops) && Closed(p, all)
    requires n in all && c in p && c != n && Reaches(p, c, n)
    ensures Grounded(Lift(p, c, n), all, if n in p then tops else tops + {c})
    ensures Closed(Lift(p, c, n), all)
    ensures !Reaches(Lift(p, c, n), c, n)
    ensures forall x :: x in all && Reaches(p, x, n) && x != c && !Reaches(p, x, c) ==> Reaches(Lift(p, c, n), x, n)
  {
    var q := Lift(p, c, n);
    assert HasTop(p, tops, c);
    var top :| top in tops && Reaches(p, c, top);
    assert p - {c} == q - {c};
    if n in p {
      if Reaches(p, p[n], c) {
        ReachesTrans(p, p[n], c, n);
        ReachesLinear(p, c, n, top);
        if Reaches(p, top, n) {
          ReachesStep(p, top, n);
        }
        ParentNotBelow(p, n, top);
      }
      MoveKeepsGrounded(p, all, tops, c, p[n]);
      assert tops - {c} == tops;
      ReachesOutside(p, q, c, p[n], n);
      ReachesStep(q, c, n);
      if Reaches(q, c, n) {
        ReachesLinear(p, c, n, top);
        if Reaches(p, top, n) {
          ReachesStep(p, top, n);
        }
        ParentNotBelow(p, n, top);
      }
    } else {
      DetachKeepsGrounded(p, all, tops, c);
      ReachesStep(q, c, n);
    }
    forall x | x in all && Reaches(p, x, n) && x != c && !Reaches(p, x, c) ensures Reaches(q, x, n) {
      ReachesOutside(p, q, c, x, n);
    }
  }

  /** Moving any set of kids of parent under its kid n keeps every chain grounded. */
  lemma {:induction false} AdoptKeepsGrounded<T>(p: map<T, T>, all: set<T>, tops: set<T>, n: T, parent: T, kids: set<T>)
    requires Grounded(p, all, tops) && Closed(p, all)
    requires n in p && p[n] == parent && parent in all && n !in kids
    requires forall c :: c in kids ==> c in p && p[c] == parent
    ensures Grounded(map x | x in p :: if x in kids then n else p[x], all, tops)
    decreases |kids|
  {
    var q := map x | x in p :: if x in kids then n else p[x];
    if kids == {} {
      assert q == p;
    } else {
      var c :| c in kids;
      var r := p[c := n];
      assert parent in all && n in all;
      assert HasTop(p, tops, c);
      var top :| top in tops && Reaches(p, c, top);
      ParentNotBelow(p, c, top);
      ReachesStep(p, n, c);
      MoveKeepsGrounded(p, all, tops, c, n);
      assert tops - {c} == tops;
      AdoptKeepsGrounded(r, all, tops, n, parent, kids - {c});
      assert q == map x | x in r :: if x in kids - {c} then n else r[x];
    }
  }

  /** A reprioritization keeps every chain grounded, although the exclusive case
      done in place puts n below its own kids for a moment. */
  lemma ReprioritizeKeepsGrounded<T>(p: map<T, T>, all: set<T>, tops: set<T>, n: T, parent: T, exclusive: bool)
    requires Grounded(p, all, tops) && Closed(p, all)
    requires n in all && parent in all && n != parent
    ensures Closed(Reprioritize(p, n, parent, exclusive), all)
    ensures Grounded(Reprioritize(p, n, parent, exclusive), all,
                     (if n in p || !Reaches(p, parent, n) then tops else tops + {parent}) - {n})
  {
    var p1 := if Reaches(p, parent, n) then Lift(p, parent, n) else p;
    var tops1 := if n in p || !Reaches(p, parent, n) then tops else tops + {parent};
    if Reaches(p, parent, n) {
      ReachesStep(p, parent, n);
      LiftKeepsGrounded(p, all, tops, parent, n);
    }
    assert Grounded(p1, all, tops1) && Closed(p1, all) && !Reaches(p1, parent, n);
    var p2 := p1[n := parent];
    MoveKeepsGrounded(p1, all, tops1, n, parent);
    var q := Reprioritize(p, n, parent, exclusive);
    if exclusive {
      var kids := set c | c in p1 && p1[c] == parent && c != n;
      AdoptKeepsGrounded(p2, all, tops1 - {n}, n, parent, kids);
      assert q == map x | x in p2 :: if x in kids then n else p2[x];
    } else {
      assert q == p2;
    }
  }

  /** Reprioritizing a node keeps the tree a tree and everything connected; the
      counters do not move, so only the root's stays the sum of what is below it. */
  lemma ReprioritizeKeeps<T>(t: Tree<T>, n: T, parent: T, exclusive: bool)
    requires WellFormed(t) && n in t.all && parent in t.all && n != parent && n != t.root
    ensures var u := t.(parent := Reprioritize(t.parent, n, parent, exclusive));
            && WellFormed(u)
            && (Connected(t) && Reaches(t.parent, n, t.root) && Reaches(t.parent, parent, t.root) ==>
                  && Connected(u)
                  && (RootCounts(t) ==> RootCounts(u)))
  {
    var p, q := t.parent, Reprioritize(t.parent, n, parent, exclusive);
    var u := t.(parent := q);
    var tops := t.all - p.Keys;
    ReprioritizeKeepsGrounded(p, t.all, tops, n, parent, exclusive);
    ReprioritizeKeys(p, n, parent, exclusive);
    assert t.root !in q;
    assert u.all - q.Keys == (if n in p || !Reaches(p, parent, n) then tops else tops + {parent}) - {n};
    if Connected(t) && Reaches(p, n, t.root) && Reaches(p, parent, t.root) {
      ReprioritizeConnected(t, n, parent, exclusive);
    }
  }

  lemma ReprioritizeKeys<T>(p: map<T, T>, n: T, parent: T, exclusive: bool)
    requires n != parent
    ensures Reprioritize(p, n, parent, exclusive).Keys ==
            (if n in p || !Reaches(p, parent, n) then p.Keys else p.Keys - {parent}) + {n}
  {
    if Reaches(p, parent, n) {
      ReachesStep(p, parent, n);
    }
  }

  lemma ReprioritizeConnected<T>(t: Tree<T>, n: T, parent: T, exclusive: bool)
    requires WellFormed(t) && n in t.all && parent in t.all && n != parent && n != t.root
    requires Connected(t) && Reaches(t.parent, n, t.root) && Reaches(t.parent, parent, t.root)
    requires WellFormed(t.(parent := Reprioritize(t.parent, n, parent, exclusive)))
    ensures Connected(t.(parent := Reprioritize(t.parent, n, parent, exclusive)))
    ensures RootCounts(t) ==> RootCounts(t.(parent := Reprioritize(t.parent, n, parent, exclusive)))
  {
    ReprioritizeOnRoot(t, n, parent, exclusive);
    forall x | x in t.all
      ensures Reaches(Reprioritize(t.parent, n, parent, exclusive), x, t.root) <==> Reaches(t.parent, x, t.root)
    {
      assert x in Below(t.parent, t.all, t.root) <==> Reaches(t.parent, x, t.root);
    }
    forall x | x in t.all && Tracked(t, x)
      ensures Tracked(t.(parent := Reprioritize(t.parent, n, parent, exclusive)), x)
    {
      var i :| i in t.nodes && t.nodes[i] == x;
      assert i in t.(parent := Reprioritize(t.parent, n, parent, exclusive)).nodes;
    }
  }

  /** The nodes under the root are the same before and after. */
  lemma ReprioritizeOnRoot<T>(t: Tree<T>, n: T, parent: T, exclusive: bool)
    requires WellFormed(t) && n in t.all && parent in t.all && n != parent && n != t.root
    requires Reaches(t.parent, n, t.root) && Reaches(t.parent, parent, t.root)
    ensures Below(Reprioritize(t.parent, n, parent, exclusive), t.all, t.root) == Below(t.parent, t.all, t.root)
  {
    var p, q := t.parent, Reprioritize(t.parent, n, parent, exclusive);
    var on := Below(p, t.all, t.root);
    ReachesStep(p, n, t.root);
    OnRootClosed(t);
    // The tree under the root, on its own.
    assert Grounded(p, on, {t.root}) by {
      forall x | x in on ensures HasTop(p, {t.root}, x) {
        assert t.root in {t.root} && Reaches(p, x, t.root);
      }
    }
    var pOn := Restrict(p, on);
    RestrictReaches(p, on);
    assert Grounded(pOn, on, {t.root}) by {
      forall x | x in on ensures HasTop(pOn, {t.root}, x) {
        assert t.root in {t.root} && Reaches(pOn, x, t.root);
      }
    }
    ReprioritizeKeepsGrounded(pOn, on, {t.root}, n, parent, exclusive);
    assert {t.root} - {n} == {t.root};
    ReprioritizeRestrict(p, on, n, parent, exclusive);
    RestrictReaches(q, on);
    forall x | x in on ensures Reaches(q, x, t.root) {
      assert HasTop(Restrict(q, on), {t.root}, x);
    }
    // Nodes elsewhere keep their parents, so they stay elsewhere.
    forall x | x in t.all && x !in on ensures !Reaches(q, x, t.root) {
      ElsewhereStays(t, n, parent, exclusive, x);
    }
    assert Below(q, t.all, t.root) == on;
  }

  ghost function Restrict<T>(p: map<T, T>, on: set<T>): map<T, T> {
    map x | x in p && x in on :: p[x]
  }

  /** A set that is closed upwards and downwards can be reprioritized on its own. */
  lemma ReprioritizeRestrict<T>(p: map<T, T>, on: set<T>, n: T, parent: T, exclusive: bool)
    requires forall x :: x in p && x in on ==> p[x] in on
    requires forall x :: x in p && x !in on ==> p[x] !in on
    requires n in on && parent in on && n != parent
    ensures Restrict(Reprioritize(p, n, parent, exclusive), on) == Reprioritize(Restrict(p, on), n, parent, exclusive)
    ensures Closed(Restrict(Reprioritize(p, n, parent, exclusive), on), on)
  {
    var r := Restrict(p, on);
    RestrictReaches(p, on);
    var p1 := if Reaches(p, parent, n) then Lift(p, parent, n) else p;
    var r1 := if Reaches(r, parent, n) then Lift(r, parent, n) else r;
    assert r1 == Restrict(p1, on);
  }

  lemma OnRootClosed<T>(t: Tree<T>)
    requires WellFormed(t)
    ensures var on := Below(t.parent, t.all, t.root);
            && t.root in on
            && (forall x :: x in on && x in t.parent ==> t.parent[x] in on)
            && (forall x :: x in t.all && x !in on && x in t.parent ==> t.parent[x] !in on)
  {
    ReachesSelf(t.parent, t.root);
    forall x | x in t.all && x in t.parent
      ensures Reaches(t.parent, x, t.root) <==> Reaches(t.parent, t.parent[x], t.root)
    {
      ReachesStep(t.parent, x, t.root);
    }
  }

  /** Reaching within a set closed under parents depends on that set only. */
  lemma RestrictReaches<T>(p: map<T, T>, on: set<T>)
    requires forall x :: x in p && x in on ==> p[x] in on
    ensures forall a, b :: a in on ==> (Reaches(p, a, b) <==> Reaches(Restrict(p, on), a, b))
  {
    var r := Restrict(p, on);
    forall a, b | a in on ensures Reaches(p, a, b) <==> Reaches(r, a, b) {
      if Reaches(p, a, b) {
        var k: nat :| Path(p, a, b, k);
        RestrictPath(p, on, a, b, k);
      }
      if Reaches(r, a, b) {
        var k: nat :| Path(r, a, b, k);
        RestrictPath(p, on, a, b, k);
      }
    }
  }

  lemma {:induction false} RestrictPath<T>(p: map<T, T>, on: set<T>, a: T, b: T, k: nat)
    requires forall x :: x in p && x in on ==> p[x] in on
    requires a in on
    ensures Path(p, a, b, k) <==> Path(Restrict(p, on), a, b, k)
    decreases k
  {
    if k > 0 && a in p {
      RestrictPath(p, on, p[a], b, k - 1);
    }
  }

  lemma ElsewhereStays<T>(t: Tree<T>, n: T, parent: T, exclusive: bool, x: T)
    requires WellFormed(t) && n in t.all && parent in t.all && n != parent && n != t.root
    requires Reaches(t.parent, n, t.root) && Reaches(t.parent, parent, t.root)
    requires x in t.all && !Reaches(t.parent, x, t.root)
    ensures !Reaches(Reprioritize(t.parent, n, parent, exclusive), x, t.root)
  {
    var p, q := t.parent, Reprioritize(t.parent, n, parent, exclusive);
    var off := t.all - Below(p, t.all, t.root);
    OnRootClosed(t);
    RestrictReaches(p, off);
    assert Restrict(p, off) == Restrict(q, off);
    RestrictReaches(q, off);
  }


  /** What a PRIORITY frame does to the tree: an unknown dependency means the
      root, a dependency on itself is ignored. */
  ghost function Adjusted<T>(t: Tree<T>, id: int, dep: int, exclusive: bool): Tree<T>
    requires id in t.nodes && 0 in t.nodes
  {
    if dep == id then t
    else if dep in t.nodes then t.(parent := Reprioritize(t.parent, t.nodes[id], t.nodes[dep], exclusive))
    else t.(parent := Reprioritize(t.parent, t.nodes[id], t.nodes[0], false))
  }

  lemma AdjustedHealthy<T>(t: Tree<T>, id: int, dep: int, exclusive: bool)
    requires WellFormed(t) && id in t.nodes && 0 in t.nodes && id != 0 && t.nodes[0] == t.root
    ensures WellFormed(Adjusted(t, id, dep, exclusive))
    ensures Healthy(t) ==> Healthy(Adjusted(t, id, dep, exclusive))
  {
    if dep != id {
      if dep in t.nodes {
        ReprioritizeKeeps(t, t.nodes[id], t.nodes[dep], exclusive);
      } else {
        ReprioritizeKeeps(t, t.nodes[id], t.root, false);
      }
    }
  }

  // ----- what a PRIORITY frame asks for -----

  /** Section 5.3.3 of RFC 7540, node by node: the stream depends on its new parent;
      if the parent depended on it, the parent takes its former place; an exclusive
      stream is then the only kid of its parent, whose other kids it took over; and
      no other dependency changes, nor does any node gain or lose one. */
  lemma ReprioritizeMeaning<T>(p: map<T, T>, n: T, parent: T, exclusive: bool, t: T)
    requires n in p && n != parent && t !in p && Reaches(p, n, t)
    ensures var q := Reprioritize(p, n, parent, exclusive);
            && q.Keys == p.Keys && q[n] == parent
            && (Reaches(p, parent, n) ==> parent in q && q[parent] == p[n])
            && (exclusive ==> forall x :: x in q && q[x] == parent ==> x == n)
            && (forall x :: x in p && x != n && !(x == parent && Reaches(p, parent, n)) ==>
                  x in q && q[x] == if exclusive && p[x] == parent then n else p[x])
  {
    var q := Reprioritize(p, n, parent, exclusive);
    if Reaches(p, parent, n) {
      ParentNotBelow(p, n, t);
      assert p[n] != parent;
      ReachesStep(p, parent, n);
    }
  }
}
