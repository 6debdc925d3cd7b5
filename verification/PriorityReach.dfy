/** What an eviction or a PRIORITY frame does to the nodes under the root, exactly. */
module PriorityReach {
  import opened Common
  import opened Forest
  import opened PriorityModel
  import opened PriorityCounts

  // ----- removing a node -----

  /** No kid of a node off the root is on it. */
  lemma NotStrandedOff<T>(t: Tree<T>, e: T, first: Option<T>, x: T)
    requires WellFormed(t) && e != t.root && !Reaches(t.parent, e, t.root) && Reaches(t.parent, x, t.root)
    ensures !Reaches(t.parent, x, e) && !Stranded(t, e, first, x)
  {
    var p := t.parent;
    if Reaches(p, x, e) {
      ReachesLinear(p, x, e, t.root);
      ReachesStep(p, t.root, e);
    }
    if Stranded(t, e, first, x) {
      var c :| c in t.all && OtherKid(t, e, first, c) && Reaches(p, x, c);
      ReachesSelf(p, e);
      ReachesParent(p, c, e);
      ReachesTrans(p, x, c, e);
    }
  }

  /** Removing a node that is off the root changes nothing under it. */
  lemma RemoveOff<T>(t: Tree<T>, e: T, first: Option<T>, a: T, x: T)
    requires WellFormed(t) && FirstKid(t, e, first) && e in t.all && e != t.root && !Reaches(t.parent, e, t.root)
    requires a in t.all && x in t.all && Reaches(t.parent, x, t.root)
    ensures Reaches(Remove(t.parent, e, first), a, x) <==> Reaches(t.parent, a, x)
  {
    var p, q := t.parent, Remove(t.parent, e, first);
    ReachesStep(q, e, x);
    if Reaches(p, a, x) {
      ReachesTrans(p, a, x, t.root);
      NotStrandedOff(t, e, first, a);
      var k: nat :| Path(p, a, x, k);
      KeptPath(t, e, first, a, x, k);
    }
    if Reaches(q, a, x) {
      var k: nat :| Path(q, a, x, k);
      RemovedPath(t, e, first, a, x, k);
    }
  }

  lemma RemoveOffKeeps<T>(t: Tree<T>, e: T, first: Option<T>, id: int)
    requires Healthy(t) && FirstKid(t, e, first) && e in t.all && e != t.root && id !in t.nodes
    requires forall i :: i in t.nodes ==> t.nodes[i] != e
    ensures Healthy(Removed(t, e, first, id)) && (Exact(t) ==> Exact(Removed(t, e, first, id)))
  {
    var u := Removed(t, e, first, id);
    RemoveWellFormed(t, e, first, id);
    assert u.nodes == t.nodes;
    ReachesSelf(t.parent, t.root);
    assert Reaches(t.parent, e, t.root) ==> Tracked(t, e);
    forall x | x in t.all && Reaches(t.parent, x, t.root)
      ensures Below(u.parent, u.all, x) == Below(t.parent, t.all, x)
    {
      forall a | a in t.all ensures Reaches(u.parent, a, x) <==> Reaches(t.parent, a, x) {
        RemoveOff(t, e, first, a, x);
      }
    }
    assert forall a :: a in t.all ==> (a in Below(u.parent, u.all, t.root) <==> Reaches(u.parent, a, t.root));
    assert forall a :: a in t.all ==> (a in Below(t.parent, t.all, t.root) <==> Reaches(t.parent, a, t.root));
    forall x | x in u.all && Reaches(u.parent, x, u.root) ensures Tracked(u, x) {
      assert Tracked(t, x);
    }
    if Exact(t) {
      forall i | i in u.nodes ensures CountsAt(u, u.nodes[i]) {
        assert CountsAt(t, t.nodes[i]);
      }
    }
  }

  /** A tracked node can go, as far as the root's counter and the connection to the root
      are concerned, exactly if it has at most one kid and has sent nothing. */
  lemma RemoveTracked<T>(t: Tree<T>, e: T, first: Option<T>, id: int)
    requires Healthy(t) && FirstKid(t, e, first) && e in t.all && e != t.root && id in t.nodes
    requires forall i :: i in t.nodes ==> (t.nodes[i] == e <==> i == id)
    ensures Healthy(Removed(t, e, first, id)) <==> |KidsOf(t, e)| <= 1 && t.bytes[e] == 0
    ensures Exact(t) && Healthy(Removed(t, e, first, id)) ==> Exact(Removed(t, e, first, id))
  {
    var u := Removed(t, e, first, id);
    if |KidsOf(t, e)| <= 1 {
      if t.bytes[e] == 0 {
        EvictKeeps(t, e, first, id);
      } else {
        RemoveKeeps(t, e, first, id);
        assert CountsAt(t, t.root);
      }
    } else {
      RemoveConnected(t, e, first);
      var x :| x in t.all && x != e && Reaches(t.parent, x, t.root) && !Reaches(u.parent, x, t.root);
      assert Tracked(t, x);
      var i :| i in t.nodes && t.nodes[i] == x;
      assert i in u.nodes;
    }
  }

  /** The two cases together. */
  lemma RemoveExactly<T>(t: Tree<T>, e: T, first: Option<T>, id: int)
    requires Healthy(t) && FirstKid(t, e, first) && e in t.all && e != t.root
    requires forall i :: i in t.nodes ==> (t.nodes[i] == e <==> i == id)
    ensures Healthy(Removed(t, e, first, id)) <==> (id in t.nodes ==> |KidsOf(t, e)| <= 1 && t.bytes[e] == 0)
    ensures Exact(t) && Healthy(Removed(t, e, first, id)) ==> Exact(Removed(t, e, first, id))
  {
    if id in t.nodes {
      RemoveTracked(t, e, first, id);
    } else {
      RemoveOffKeeps(t, e, first, id);
    }
  }

  // ----- changing a priority -----

  /** A set that no link enters or leaves, grounded in the root, is what is under the root. */
  lemma Sides<T>(q: map<T, T>, all: set<T>, on: set<T>, root: T)
    requires Closed(q, all) && on <= all && root in on
    requires forall x :: x in q ==> (x in on <==> q[x] in on)
    requires Grounded(Restrict(q, on), on, {root})
    ensures forall x :: x in all ==> (Reaches(q, x, root) <==> x in on)
  {
    RestrictReaches(q, on);
    RestrictReaches(q, all - on);
    forall x | x in all ensures Reaches(q, x, root) <==> x in on {
      if x in on {
        assert HasTop(Restrict(q, on), {root}, x);
      } else if Reaches(q, x, root) {
        ReachStays(Restrict(q, all - on), all - on, x, root);
      }
    }
  }

  lemma GroundedIn<T>(t: Tree<T>, on: set<T>)
    requires WellFormed(t) && on <= t.all && t.root in on
    requires forall x :: x in on ==> Reaches(t.parent, x, t.root)
    requires forall x :: x in t.parent && x in on ==> t.parent[x] in on
    ensures Closed(Restrict(t.parent, on), on) && Grounded(Restrict(t.parent, on), on, {t.root})
  {
    RestrictReaches(t.parent, on);
    forall x | x in on ensures HasTop(Restrict(t.parent, on), {t.root}, x) {
      assert t.root in {t.root} && Reaches(Restrict(t.parent, on), x, t.root);
    }
  }

  /** y hangs from the root: n's subtree joins what is there. */
  lemma JoinsRoot<T>(t: Tree<T>, n: T, y: T, exclusive: bool)
    requires WellFormed(t) && n in t.all && y in t.all && n != y && n != t.root
    requires Reaches(t.parent, y, t.root) && !Reaches(t.parent, n, t.root)
    ensures forall x :: x in t.all ==> (Reaches(Reprioritize(t.parent, n, y, exclusive), x, t.root) <==>
                                        Reaches(t.parent, x, t.root) || Reaches(t.parent, x, n))
  {
    var p, q := t.parent, Reprioritize(t.parent, n, y, exclusive);
    ReprioritizeKeeps(t, n, y, exclusive);
    if Reaches(p, y, n) {
      NotStrandedOff(t, n, None, y);
    }
    var on := set x | x in t.all && (Reaches(p, x, t.root) || Reaches(p, x, n));
    var r := Restrict(p, on) - {n};
    ReachesSelf(p, t.root);
    ReachesSelf(p, n);
    NoWayBack(p, r, on, n, y);
    JoinClosed(t, n, on);
    JoinShape(p, on, n, y, exclusive);
    JoinGrounded(t, n, on, r);
    hide Reaches, Reprioritize;
    ReprioritizeKeepsGrounded(r, on, {t.root, n}, n, y, exclusive);
    assert {t.root, n} - {n} == {t.root};
    Sides(q, t.all, on, t.root);
  }

  lemma JoinClosed<T>(t: Tree<T>, n: T, on: set<T>)
    requires WellFormed(t) && n in t.all
    requires on == (set x | x in t.all && (Reaches(t.parent, x, t.root) || Reaches(t.parent, x, n)))
    ensures forall x :: x in t.parent && x != n ==> (x in on <==> t.parent[x] in on)
  {
    forall x | x in t.parent && x != n ensures x in on <==> t.parent[x] in on {
      ReachesStep(t.parent, x, t.root);
      ReachesStep(t.parent, x, n);
    }
  }

  /** A set that links enter or leave at n only can be reprioritized on its own. */
  lemma JoinShape<T>(p: map<T, T>, on: set<T>, n: T, y: T, exclusive: bool)
    requires n in on && y in on && n != y && !Reaches(p, y, n) && !Reaches(Restrict(p, on) - {n}, y, n)
    requires forall x :: x in p && x != n ==> (x in on <==> p[x] in on)
    ensures Restrict(Reprioritize(p, n, y, exclusive), on) == Reprioritize(Restrict(p, on) - {n}, n, y, exclusive)
    ensures var q := Reprioritize(p, n, y, exclusive); forall x :: x in q ==> (x in on <==> q[x] in on)
  {
  }

  lemma NoWayBack<T>(p: map<T, T>, r: map<T, T>, on: set<T>, n: T, y: T)
    requires r == Restrict(p, on) - {n} && !Reaches(p, y, n)
    ensures !Reaches(r, y, n)
  {
    if Reaches(r, y, n) {
      var k: nat :| Path(r, y, n, k);
      SubPath(r, p, y, n, k);
    }
  }

  lemma {:induction false} SubPath<T>(r: map<T, T>, p: map<T, T>, a: T, b: T, k: nat)
    requires Path(r, a, b, k) && forall x :: x in r ==> x in p && p[x] == r[x]
    ensures Reaches(p, a, b)
    decreases k
  {
    if k == 0 {
      ReachesSelf(p, a);
    } else {
      SubPath(r, p, r[a], b, k - 1);
      ReachesParent(p, a, b);
    }
  }

  lemma JoinGrounded<T>(t: Tree<T>, n: T, on: set<T>, r: map<T, T>)
    requires WellFormed(t) && n in t.all && n != t.root && !Reaches(t.parent, n, t.root)
    requires on == (set x | x in t.all && (Reaches(t.parent, x, t.root) || Reaches(t.parent, x, n)))
    requires r == Restrict(t.parent, on) - {n}
    ensures Closed(r, on) && Grounded(r, on, {t.root, n})
  {
    var p := t.parent;
    forall x | x in r ensures r[x] in on {
      ReachesStep(p, x, t.root);
      ReachesStep(p, x, n);
    }
    forall x | x in on ensures HasTop(r, {t.root, n}, x) {
      var top := if Reaches(p, x, n) then n else t.root;
      assert top in {t.root, n};
      var k: nat :| Path(p, x, top, k);
      JoinPath(t, n, on, r, x, top, k);
    }
  }

  lemma {:induction false} JoinPath<T>(t: Tree<T>, n: T, on: set<T>, r: map<T, T>, x: T, top: T, k: nat)
    requires WellFormed(t) && (top == n || top == t.root) && Path(t.parent, x, top, k) && x in on
    requires on == (set a | a in t.all && (Reaches(t.parent, a, t.root) || Reaches(t.parent, a, n)))
    requires r == Restrict(t.parent, on) - {n} && (top == t.root ==> !Reaches(t.parent, x, n))
    ensures Reaches(r, x, top)
    decreases k
  {
    var p := t.parent;
    ReachesSelf(p, x);
    if k == 0 || x == top {
      ReachesSelf(r, x);
    } else {
      ReachesStep(p, x, t.root);
      ReachesStep(p, x, n);
      JoinPath(t, n, on, r, p[x], top, k - 1);
      ReachesParent(r, x, top);
    }
  }

  /** y is off the root: n's subtree leaves with it. */
  lemma LeavesRoot<T>(t: Tree<T>, n: T, y: T, exclusive: bool)
    requires WellFormed(t) && n in t.all && y in t.all && n != y && n != t.root && !Reaches(t.parent, y, t.root)
    ensures forall x :: x in t.all ==> (Reaches(Reprioritize(t.parent, n, y, exclusive), x, t.root) <==>
                                        Reaches(t.parent, x, t.root) && !Reaches(t.parent, x, n))
  {
    var p, q := t.parent, Reprioritize(t.parent, n, y, exclusive);
    ReprioritizeKeeps(t, n, y, exclusive);
    var on := set x | x in t.all && Reaches(p, x, t.root) && !Reaches(p, x, n);
    ReachesSelf(p, t.root);
    ReachesSelf(p, n);
    ReachesStep(p, t.root, n);
    forall x | x in p && x != n ensures x in on <==> p[x] in on {
      ReachesStep(p, x, t.root);
      ReachesStep(p, x, n);
    }
    GroundedIn(t, on);
    if Reaches(p, y, n) {
      if Reaches(p, n, t.root) {
        ReachesTrans(p, y, n, t.root);
      }
      if n in p {
        ReachesStep(p, n, t.root);
      }
    }
    forall x | x in q ensures (x in on <==> q[x] in on) && (x in on ==> x in p && q[x] == p[x]) {
      assert x != n && x != y ==> x in p && (q[x] == p[x] || (p[x] == y && q[x] == n));
    }
    assert Restrict(q, on) == Restrict(p, on);
    Sides(q, t.all, on, t.root);
  }

  /** What hangs from the root after n was put below y. */
  lemma ReprioritizeReaches<T>(t: Tree<T>, n: T, y: T, exclusive: bool, x: T)
    requires WellFormed(t) && n in t.all && y in t.all && x in t.all && n != y && n != t.root
    ensures Reaches(Reprioritize(t.parent, n, y, exclusive), x, t.root) <==>
            if Reaches(t.parent, y, t.root) then Reaches(t.parent, x, t.root) || Reaches(t.parent, x, n)
            else Reaches(t.parent, x, t.root) && !Reaches(t.parent, x, n)
  {
    var p := t.parent;
    if !Reaches(p, y, t.root) {
      LeavesRoot(t, n, y, exclusive);
    } else if !Reaches(p, n, t.root) {
      JoinsRoot(t, n, y, exclusive);
    } else {
      ReprioritizeOnRoot(t, n, y, exclusive);
      assert x in Below(p, t.all, t.root) <==> Reaches(p, x, t.root);
      if Reaches(p, x, n) {
        ReachesTrans(p, x, n, t.root);
      }
    }
  }

  // ----- a new node that takes over nobody -----

  lemma SomeKid<T>(t: Tree<T>, x: T, n: T)
    requires WellFormed(t) && x in t.all && x != n && Reaches(t.parent, x, n)
    ensures KidsOf(t, n) != {}
  {
    var d := KidBetween(t.parent, x, n);
    ReachStays(t.parent, t.all, x, d);
    assert d in KidsOf(t, n);
  }

  /** A node whose only kid is a leaf that sent nothing counts its own bytes. */
  lemma LoneCounts<T>(t: Tree<T>, y: T, n: T)
    requires WellFormed(t) && y in t.all && n in t.all && n != y && CountsAt(t, y) && t.bytes[n] == 0
    requires KidsOf(t, y) <= {n} && KidsOf(t, n) == {}
    ensures t.subtree[y] == t.bytes[y]
  {
    var p, s := t.parent, Below(t.parent, t.all, y);
    ReachesSelf(p, y);
    forall x | x in s && x != y ensures x == n {
      var c := KidBetween(p, x, y);
      ReachStays(p, t.all, x, c);
      assert c in KidsOf(t, y);
      if x != n {
        SomeKid(t, x, n);
      }
    }
    SumPick(t.bytes, s, y);
    if n in s {
      SumPick(t.bytes, s - {y}, n);
      assert s - {y} - {n} == {};
    } else {
      assert s - {y} == {};
    }
  }
}
