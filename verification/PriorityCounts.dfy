/** Byte counters of the priority tree when nodes move or are removed. */
module PriorityCounts {
  import opened Common
  import opened Forest
  import opened PriorityModel

  // ----- moving a node without moving its bytes -----

  lemma {:induction false} PathUpTo<T>(p: map<T, T>, q: map<T, T>, n: T, a: T, x: T, k: nat)
    requires p - {n} == q - {n} && !Reaches(p, n, x) && Path(p, a, x, k)
    ensures Path(q, a, x, k)
    decreases k
  {
    if k > 0 {
      assert Reaches(p, a, x);
      assert a in p - {n};
      assert a in q - {n};
      assert (p - {n})[a] == (q - {n})[a];
      PathUpTo(p, q, n, p[a], x, k - 1);
    }
  }

  /** Below n nothing changes when n moves. */
  lemma BelowInside<T>(p: map<T, T>, all: set<T>, n: T, y: T, x: T, top: T)
    requires n in p && !Reaches(p, y, n) && top !in p && Reaches(p, n, top) && Reaches(p, x, n)
    ensures Below(p[n := y], all, x) == Below(p, all, x)
  {
    var q := p[n := y];
    assert p - {n} == q - {n};
    if x == n {
      forall a | a in all ensures Reaches(p, a, n) <==> Reaches(q, a, n) {
        ReachesMoved(p, q, n, a);
      }
    } else {
      if Reaches(p, n, x) {
        Antisymmetric(p, n, x, top);
      }
      ReachesStep(q, n, x);
      if Reaches(q, y, x) {
        ReachesOutside(p, q, n, y, x);
        ReachesTrans(p, y, x, n);
      }
      forall a | a in all ensures Reaches(p, a, x) <==> Reaches(q, a, x) {
        if Reaches(p, a, x) {
          var k: nat :| Path(p, a, x, k);
          PathUpTo(p, q, n, a, x, k);
        }
        if Reaches(q, a, x) {
          var k: nat :| Path(q, a, x, k);
          PathUpTo(q, p, n, a, x, k);
        }
      }
    }
  }

  /** A node outside n's subtree loses n's subtree if it was above n, and gains
      it if it is at or above y. */
  lemma BelowOutside<T>(p: map<T, T>, all: set<T>, n: T, y: T, x: T)
    requires n in p && !Reaches(p, y, n) && !Reaches(p, x, n)
    ensures var b := Below(p, all, n);
            && (Reaches(p, p[n], x) ==> b <= Below(p, all, x))
            && (!Reaches(p, p[n], x) ==> b !! Below(p, all, x))
            && Below(p[n := y], all, x) == Below(p, all, x) - b + (if Reaches(p, y, x) then b else {})
  {
    var q := p[n := y];
    assert p - {n} == q - {n};
    ReachesStep(p, n, x);
    ReachesStep(q, n, x);
    ReachesSelf(p, n);
    ReachesOutside(p, q, n, y, x);
    ReachesMoved(p, q, n, x);
    forall a | a in all
      ensures Reaches(p, a, n) ==>
                (Reaches(p, a, x) <==> Reaches(p, p[n], x)) && (Reaches(q, a, x) <==> Reaches(p, y, x))
      ensures !Reaches(p, a, n) ==> (Reaches(q, a, x) <==> Reaches(p, a, x))
    {
      if Reaches(p, a, n) {
        ReachesMoved(p, q, n, a);
        if Reaches(p, a, x) { ReachesLinear(p, a, n, x); }
        if Reaches(p, n, x) { ReachesTrans(p, a, n, x); }
        if Reaches(q, a, x) { ReachesLinear(q, a, n, x); }
        if Reaches(q, n, x) { ReachesTrans(q, a, n, x); }
      } else {
        ReachesOutside(p, q, n, a, x);
      }
    }
  }

  lemma SumShift<T>(f: map<T, int>, s: set<T>, b: set<T>, gained: bool)
    requires s + b <= f.Keys && (b <= s || b !! s)
    ensures Sum(f, s - b + (if gained then b else {})) ==
            Sum(f, s) - (if b <= s && b != {} then Sum(f, b) else 0) + (if gained then Sum(f, b) else 0)
  {
    if b <= s {
      SumDisjoint(f, s - b, b);
      assert s - b + b == s;
    } else {
      assert s - b == s;
    }
    if gained {
      SumDisjoint(f, s - b, b);
    } else {
      assert s - b + {} == s - b;
    }
  }

  /** A part of a set sums to no more than the whole. */
  lemma SumPart<T>(f: map<T, int>, r: set<T>, s: set<T>)
    requires r <= s <= f.Keys && forall x :: x in s ==> 0 <= f[x]
    ensures 0 <= Sum(f, r) <= Sum(f, s)
  {
    assert s == (s - r) + r;
    SumDisjoint(f, s - r, r);
    SumNonNegative(f, r);
    SumNonNegative(f, s - r);
  }

  /** What n's subtree sent. */
  ghost function Weigh<T>(t: Tree<T>, p: map<T, T>, x: T): int
    requires t.bytes.Keys == t.all
  {
    Sum(t.bytes, Below(p, t.all, x))
  }

  /** The effect of one move on what the subtree of x sent. */
  lemma WeighMoved<T>(t: Tree<T>, p: map<T, T>, n: T, y: T, x: T, top: T)
    requires t.bytes.Keys == t.all && n in p && n in t.all && !Reaches(p, y, n) && top !in p && Reaches(p, n, top)
    ensures Weigh(t, p[n := y], x) ==
            if Reaches(p, x, n) then Weigh(t, p, x)
            else Weigh(t, p, x) - (if Reaches(p, p[n], x) then Weigh(t, p, n) else 0)
                   + (if Reaches(p, y, x) then Weigh(t, p, n) else 0)
  {
    if Reaches(p, x, n) {
      BelowInside(p, t.all, n, y, x, top);
    } else {
      var b := Below(p, t.all, n);
      BelowOutside(p, t.all, n, y, x);
      SumShift(t.bytes, Below(p, t.all, x), b, Reaches(p, y, x));
      ReachesSelf(p, n);
      assert n in b;
    }
  }

  // ----- an exclusive node takes over its siblings -----

  lemma {:induction false} AdoptPath<T>(p: map<T, T>, n: T, y: T, a: T, x: T, k: nat)
    requires n in p && p[n] == y && Path(p, a, x, k)
    ensures Reaches(Adopt(p, n, y), a, x)
    decreases k
  {
    var q := Adopt(p, n, y);
    if k == 0 {
      ReachesSelf(q, a);
    } else {
      AdoptPath(p, n, y, p[a], x, k - 1);
      if q[a] != p[a] {
        ReachesParent(q, n, x);
      }
      ReachesParent(q, a, x);
    }
  }

  lemma {:induction false} AdoptPathBack<T>(p: map<T, T>, n: T, y: T, a: T, x: T, k: nat)
    requires n in p && p[n] == y && Path(Adopt(p, n, y), a, x, k) && x != n
    ensures Reaches(p, a, x)
    decreases k
  {
    if k == 0 {
      ReachesSelf(p, a);
    } else {
      if p[a] == y && a != n {
        assert Path(Adopt(p, n, y), n, x, k - 1);
        AdoptPathBack(p, n, y, y, x, k - 2);
      } else {
        AdoptPathBack(p, n, y, p[a], x, k - 1);
      }
      ReachesParent(p, a, x);
    }
  }

  lemma {:induction false} AdoptPathTo<T>(p: map<T, T>, n: T, y: T, a: T, k: nat)
    requires n in p && p[n] == y && Path(Adopt(p, n, y), a, n, k)
    ensures Reaches(p, a, y) && a in p && Reaches(p, p[a], y)
    decreases k
  {
    ReachesSelf(p, y);
    if k > 0 && !(p[a] == y && a != n) {
      AdoptPathTo(p, n, y, p[a], k - 1);
    }
    ReachesParent(p, a, y);
  }

  /** Only n gains: it now has below it all that was below its parent. */
  lemma AdoptBelow<T>(p: map<T, T>, all: set<T>, n: T, y: T, top: T)
    requires n in p && p[n] == y && top !in p && Reaches(p, y, top)
    ensures Below(Adopt(p, n, y), all, n) == Below(p, all, y) - {y}
    ensures forall x :: x != n ==> Below(Adopt(p, n, y), all, x) == Below(p, all, x)
  {
    var q := Adopt(p, n, y);
    forall a, x | Reaches(p, a, x) ensures Reaches(q, a, x) {
      var k: nat :| Path(p, a, x, k);
      AdoptPath(p, n, y, a, x, k);
    }
    forall a, x | Reaches(q, a, x) && x != n ensures Reaches(p, a, x) {
      var k: nat :| Path(q, a, x, k);
      AdoptPathBack(p, n, y, a, x, k);
    }
    forall a | a in all ensures Reaches(q, a, n) <==> Reaches(p, a, y) && a != y {
      if Reaches(q, a, n) {
        var k: nat :| Path(q, a, n, k);
        AdoptPathTo(p, n, y, a, k);
        if a == y {
          ParentNotBelow(p, y, top);
        }
      }
      if Reaches(p, a, y) && a != y {
        var c := KidBetween(p, a, y);
        ReachesSelf(q, n);
        if c != n {
          ReachesParent(q, c, n);
          ReachesTrans(q, a, c, n);
        }
      }
    }
  }

  // ----- when a PRIORITY frame leaves the counters right -----

  ghost predicate NonNegative<T>(t: Tree<T>) {
    forall x :: x in t.bytes ==> 0 <= t.bytes[x]
  }

  /** A non-exclusive reprioritization. */
  ghost function Placed<T>(p: map<T, T>, n: T, y: T): map<T, T> {
    (if Reaches(p, y, n) then Lift(p, y, n) else p)[n := y]
  }

  lemma ReprioritizePlaced<T>(p: map<T, T>, n: T, y: T, exclusive: bool)
    requires n != y
    ensures var q := Placed(p, n, y); Reprioritize(p, n, y, exclusive) == if exclusive then Adopt(q, n, y) else q
  {
  }

  /** What every subtree sent, after n moved below a node that did not depend on it. */
  lemma PlacedElsewhere<T>(t: Tree<T>, n: T, y: T)
    requires WellFormed(t) && n in t.parent && y in t.all && y != n
    requires Reaches(t.parent, n, t.root) && !Reaches(t.parent, y, n)
    ensures var q := Placed(t.parent, n, y);
            && Weigh(t, q, n) == Weigh(t, t.parent, n)
            && ((forall x :: x in t.all && Reaches(t.parent, x, t.root) && x != n ==>
                 Weigh(t, q, x) == Weigh(t, t.parent, x))
                ==> Reaches(t.parent, y, t.root) ==> t.parent[n] == y || Weigh(t, t.parent, n) == 0)
            && (t.parent[n] == y || Weigh(t, t.parent, n) == 0 ==>
                  forall x :: x in t.all ==> Weigh(t, q, x) == Weigh(t, t.parent, x))
  {
    var p, q := t.parent, Placed(t.parent, n, y);
    ReachesSelf(p, n);
    forall x ensures Weigh(t, q, x) ==
        if Reaches(p, x, n) then Weigh(t, p, x)
        else Weigh(t, p, x) - (if Reaches(p, p[n], x) then Weigh(t, p, n) else 0)
               + (if Reaches(p, y, x) then Weigh(t, p, n) else 0)
    {
      WeighMoved(t, p, n, y, x, t.root);
    }
    if p[n] == y {
      assert q == p;
    } else if Reaches(p, y, t.root) {
      var x := if Reaches(p, y, p[n]) then y else p[n];
      ReachesSelf(p, y);
      ReachesSelf(p, p[n]);
      ReachesStep(p, n, t.root);
      ParentNotBelow(p, n, t.root);
      if Reaches(p, y, p[n]) && Reaches(p, p[n], y) {
        Antisymmetric(p, p[n], y, t.root);
      }
    }
  }

  /** The same when the new parent y was below n: y first takes n's place. */
  lemma PlacedBelow<T>(t: Tree<T>, n: T, y: T)
    requires WellFormed(t) && n in t.parent && y in t.all && y != n
    requires Reaches(t.parent, n, t.root) && Reaches(t.parent, y, n)
    ensures y in t.parent
    ensures var p, q := t.parent, Placed(t.parent, n, y);
            && Weigh(t, q, y) == Weigh(t, p, n)
            && Weigh(t, q, n) == Weigh(t, p, n) - Weigh(t, p, y)
            && (p[y] != n ==> Weigh(t, q, p[y]) == Weigh(t, p, p[y]) - Weigh(t, p, y))
            && (Weigh(t, p, y) == Weigh(t, p, n) && (p[y] == n || Weigh(t, p, y) == 0) ==>
                  forall x :: x != n ==> Weigh(t, q, x) == Weigh(t, p, x))
  {
    var p, g := t.parent, t.parent[n];
    var p1 := Lift(p, y, n);
    var q := Placed(p, n, y);
    ReachesStep(p, y, n);
    ReachesStep(p, n, t.root);
    ReachesTrans(p, y, n, t.root);
    ParentNotBelow(p, n, t.root);
    ReachesSelf(p, n);
    ReachesSelf(p, y);
    if Reaches(p, g, y) {
      ReachesTrans(p, g, y, n);
    }
    if Reaches(p, n, y) {
      Antisymmetric(p, n, y, t.root);
    }
    forall x ensures Weigh(t, p1, x) ==
        if Reaches(p, x, y) then Weigh(t, p, x)
        else Weigh(t, p, x) - (if Reaches(p, p[y], x) then Weigh(t, p, y) else 0)
               + (if Reaches(p, g, x) then Weigh(t, p, y) else 0)
    {
      WeighMoved(t, p, y, g, x, t.root);
    }
    assert Weigh(t, p1, n) == Weigh(t, p, n) - Weigh(t, p, y);
    LiftFacts(t, n, y);
    forall x ensures Weigh(t, q, x) ==
        if Reaches(p1, x, n) then Weigh(t, p1, x)
        else Weigh(t, p1, x) - (if Reaches(p1, g, x) then Weigh(t, p1, n) else 0)
               + (if Reaches(p1, y, x) then Weigh(t, p1, n) else 0)
    {
      WeighMoved(t, p1, n, y, x, t.root);
    }
    ReachesSelf(p1, n);
    ReachesSelf(p1, y);
    if p[y] != n {
      BetweenFacts(t, n, y);
    }
    forall x | x != n ensures Reaches(p, n, x) <==> Reaches(p, g, x) {
      ReachesStep(p, n, x);
    }
  }

  lemma LiftFacts<T>(t: Tree<T>, n: T, y: T)
    requires WellFormed(t) && n in t.parent && y in t.all && y != n
    requires Reaches(t.parent, n, t.root) && Reaches(t.parent, y, n)
    ensures var p1 := Lift(t.parent, y, n);
            && n in p1 && p1[n] == t.parent[n] && t.root !in p1
            && !Reaches(p1, y, n) && Reaches(p1, n, t.root) && !Reaches(p1, p1[n], y)
  {
    var p, p1, g := t.parent, Lift(t.parent, y, n), t.parent[n];
    assert p - {y} == p1 - {y};
    ReachesStep(p, y, n);
    ReachesTrans(p, y, n, t.root);
    LiftKeepsGrounded(p, t.all, t.all - p.Keys, y, n);
    if Reaches(p, n, y) {
      Antisymmetric(p, n, y, t.root);
    }
    ReachesOutside(p, p1, y, n, t.root);
    ParentNotBelow(p, n, t.root);
    if Reaches(p, g, y) {
      ReachesTrans(p, g, y, n);
    }
    ReachesMoved(p, p1, y, g);
  }

  lemma BetweenFacts<T>(t: Tree<T>, n: T, y: T)
    requires WellFormed(t) && n in t.parent && y in t.parent && y != n && t.parent[y] != n
    requires Reaches(t.parent, n, t.root) && Reaches(t.parent, y, n)
    ensures var p, x := t.parent, t.parent[y];
            !Reaches(p, x, y) && !Reaches(p, p[n], x) && Reaches(Lift(p, y, n), x, n) && Reaches(p, x, x)
  {
    var p, x, p1 := t.parent, t.parent[y], Lift(t.parent, y, n);
    assert p - {y} == p1 - {y};
    ReachesStep(p, y, n);
    ReachesTrans(p, y, n, t.root);
    ParentNotBelow(p, y, t.root);
    ParentNotBelow(p, n, t.root);
    ReachesSelf(p, x);
    if Reaches(p, p[n], x) {
      ReachesTrans(p, p[n], x, n);
    }
    ReachesOutside(p, p1, y, x, n);
  }

  /** What the counters must say for a reprioritization to leave them right. A node
      that changes its parent must have nothing below it that was sent, and an
      exclusive one must already count all that was sent below its parent. Only when
      n changes places with its own kid, exclusively, may both have sent data below:
      the same data. */
  ghost predicate Settles<T>(t: Tree<T>, n: T, y: T, exclusive: bool)
    requires WellFormed(t) && n in t.parent && y in t.all
  {
    && (if !Reaches(t.parent, y, n) then t.parent[n] == y || t.subtree[n] == 0
        else if exclusive && y in t.parent && t.parent[y] == n then t.subtree[y] == t.subtree[n]
        else t.subtree[n] == 0)
    && (exclusive ==> t.subtree[y] - t.bytes[y] == t.subtree[n])
  }

  lemma TrackedCounts<T>(t: Tree<T>, x: T)
    requires Exact(t) && Connected(t) && x in t.all && Reaches(t.parent, x, t.root)
    ensures t.subtree[x] == Weigh(t, t.parent, x)
  {
    assert Tracked(t, x);
    var i :| i in t.nodes && t.nodes[i] == x;
    assert CountsAt(t, t.nodes[i]);
  }

  /** Exact after a reprioritization, in terms of what the subtrees sent. */
  lemma ExactAfter<T>(t: Tree<T>, n: T, y: T, exclusive: bool)
    requires Healthy(t) && Exact(t) && n in t.all && y in t.all && n != y && n != t.root
    requires Reaches(t.parent, n, t.root) && Reaches(t.parent, y, t.root)
    ensures var q := Placed(t.parent, n, y);
            var u := t.(parent := Reprioritize(t.parent, n, y, exclusive));
            && WellFormed(u)
            && (Exact(u) <==>
                  && (forall x :: x in t.all && Reaches(t.parent, x, t.root) && x != n ==>
                      Weigh(t, q, x) == Weigh(t, t.parent, x))
                  && t.subtree[n] == if exclusive then Weigh(t, q, y) - t.bytes[y] else Weigh(t, q, n))
  {
    var p, q := t.parent, Placed(t.parent, n, y);
    var u := t.(parent := Reprioritize(p, n, y, exclusive));
    ReprioritizeKeeps(t, n, y, exclusive);
    ReprioritizeKeeps(t, n, y, false);
    ReprioritizePlaced(p, n, y, exclusive);
    ReprioritizePlaced(p, n, y, false);
    assert Reaches(q, y, t.root) by {
      ReprioritizeOnRoot(t, n, y, false);
      assert y in Below(p, t.all, t.root);
    }
    if exclusive {
      AdoptBelow(q, t.all, n, y, t.root);
      ReachesSelf(q, y);
      SumPick(t.bytes, Below(q, t.all, y), y);
    }
    assert Weigh(t, u.parent, n) == if exclusive then Weigh(t, q, y) - t.bytes[y] else Weigh(t, q, n);
    forall x | x in t.all && x != n ensures Weigh(t, u.parent, x) == Weigh(t, q, x) {
    }
    forall x | x in t.all && Reaches(p, x, t.root) ensures t.subtree[x] == Weigh(t, p, x) && Tracked(t, x) {
      TrackedCounts(t, x);
    }
    if Exact(u) {
      forall x | x in t.all && Reaches(p, x, t.root) ensures t.subtree[x] == Weigh(t, u.parent, x) {
        var i :| i in t.nodes && t.nodes[i] == x;
        assert i in u.nodes && CountsAt(u, u.nodes[i]);
      }
    }
  }

  /** A reprioritization leaves all counters right exactly when they say so. */
  lemma ReprioritizeExact<T>(t: Tree<T>, n: T, y: T, exclusive: bool)
    requires Healthy(t) && Exact(t) && NonNegative(t) && n in t.all && y in t.all && n != y && n != t.root
    requires Reaches(t.parent, n, t.root) && Reaches(t.parent, y, t.root)
    ensures n in t.parent
    ensures Exact(t.(parent := Reprioritize(t.parent, n, y, exclusive))) <==> Settles(t, n, y, exclusive)
  {
    var p, q := t.parent, Placed(t.parent, n, y);
    ReachesStep(p, n, t.root);
    ExactAfter(t, n, y, exclusive);
    hide Healthy, Exact, WellFormed;
    TrackedCounts(t, n);
    TrackedCounts(t, y);
    if Reaches(p, y, n) {
      PlacedBelow(t, n, y);
      SumPart(t.bytes, Below(p, t.all, y), Below(p, t.all, n)) by {
        forall a | a in Below(p, t.all, y) ensures a in Below(p, t.all, n) {
          ReachesTrans(p, a, y, n);
        }
      }
      ReachesStep(p, y, t.root);
    } else {
      PlacedElsewhere(t, n, y);
    }
  }

  /** The same for a PRIORITY frame on a tracked stream: an unknown dependency means
      a plain move below the root, and a dependency on itself is ignored. */
  ghost predicate AdjustSettles<T>(t: Tree<T>, id: int, dep: int, exclusive: bool)
    requires WellFormed(t) && id in t.nodes && 0 in t.nodes
  {
    dep != id ==>
      && t.nodes[id] in t.parent
      && Settles(t, t.nodes[id], if dep in t.nodes then t.nodes[dep] else t.nodes[0], exclusive && dep in t.nodes)
  }

  /** A PRIORITY frame leaves every counter right exactly when the counters say so;
      in particular when it changes no parent. */
  lemma AdjustedExact<T>(t: Tree<T>, id: int, dep: int, exclusive: bool)
    requires Healthy(t) && Exact(t) && NonNegative(t) && id in t.nodes && 0 in t.nodes && id != 0
             && t.nodes[0] == t.root
    ensures Exact(Adjusted(t, id, dep, exclusive)) <==> AdjustSettles(t, id, dep, exclusive)
    ensures Adjusted(t, id, dep, exclusive).parent == t.parent ==> AdjustSettles(t, id, dep, exclusive)
  {
    if dep != id {
      var y := if dep in t.nodes then t.nodes[dep] else t.nodes[0];
      ReprioritizeExact(t, t.nodes[id], y, exclusive && dep in t.nodes);
    }
  }

  // ----- removing a node -----

  ghost function KidsOf<T>(t: Tree<T>, n: T): set<T> {
    set c | c in t.all && c in t.parent && t.parent[c] == n
  }

  ghost predicate FirstKid<T>(t: Tree<T>, n: T, first: Option<T>) {
    if first.Some? then first.value in KidsOf(t, n) else KidsOf(t, n) == {}
  }

  ghost predicate OtherKid<T>(t: Tree<T>, n: T, first: Option<T>, c: T) {
    c in KidsOf(t, n) && first != Some(c)
  }

  /** x hangs from one of the kids that are left behind. */
  ghost predicate Stranded<T>(t: Tree<T>, n: T, first: Option<T>, x: T) {
    exists c :: c in t.all && OtherKid(t, n, first, c) && Reaches(t.parent, x, c)
  }

  lemma {:induction false} RemovedPath<T>(t: Tree<T>, n: T, first: Option<T>, a: T, b: T, k: nat)
    requires WellFormed(t) && FirstKid(t, n, first) && a != n
    requires Path(Remove(t.parent, n, first), a, b, k)
    ensures b == n || Reaches(t.parent, a, b)
    decreases k
  {
    var p, q := t.parent, Remove(t.parent, n, first);
    if k == 0 {
      ReachesSelf(p, a);
    } else if q[a] != n {
      RemovedPath(t, n, first, q[a], b, k - 1);
      if b != n {
        if first == Some(a) {
          assert q[a] == p[n];
          ReachesParent(p, n, b);
        }
        ReachesParent(p, a, b);
      }
    }
  }

  lemma {:induction false} KeptPath<T>(t: Tree<T>, n: T, first: Option<T>, a: T, b: T, k: nat)
    requires WellFormed(t) && FirstKid(t, n, first) && a in t.all && a != n && b != n
    requires Path(t.parent, a, b, k) && !Stranded(t, n, first, a)
    ensures Reaches(Remove(t.parent, n, first), a, b)
    decreases k
  {
    var p, q := t.parent, Remove(t.parent, n, first);
    if k == 0 {
      ReachesSelf(q, a);
    } else {
      ReachesSelf(p, a);
      assert !OtherKid(t, n, first, a);
      if first == Some(a) {
        assert Path(p, n, b, k - 1) && n in p;
        var above := p[n];
        NotStrandedUp(t, n, first, a);
        NotStrandedUp(t, n, first, n);
        NoSelfParent(t, n);
        KeptPath(t, n, first, above, b, k - 2);
      } else {
        NotStrandedUp(t, n, first, a);
        KeptPath(t, n, first, p[a], b, k - 1);
      }
      ReachesParent(q, a, b);
    }
  }

  lemma NoSelfParent<T>(t: Tree<T>, n: T)
    requires WellFormed(t) && n in t.parent
    ensures t.parent[n] != n
  {
    assert HasTop(t.parent, t.all - t.parent.Keys, n);
    var top :| top in t.all - t.parent.Keys && Reaches(t.parent, n, top);
    ParentNotBelow(t.parent, n, top);
  }

  lemma NotStrandedUp<T>(t: Tree<T>, n: T, first: Option<T>, a: T)
    requires WellFormed(t) && a in t.parent && !Stranded(t, n, first, a)
    ensures !Stranded(t, n, first, t.parent[a])
  {
    if Stranded(t, n, first, t.parent[a]) {
      var c :| c in t.all && OtherKid(t, n, first, c) && Reaches(t.parent, t.parent[a], c);
      ReachesParent(t.parent, a, c);
    }
  }

  lemma {:induction false} StrandedPath<T>(t: Tree<T>, n: T, first: Option<T>, a: T, c: T, k: nat)
    requires WellFormed(t) && FirstKid(t, n, first) && OtherKid(t, n, first, c)
    requires Path(t.parent, a, c, k)
    ensures Reaches(Remove(t.parent, n, first), a, n)
    decreases k
  {
    var p, q := t.parent, Remove(t.parent, n, first);
    assert HasTop(p, t.all - p.Keys, c);
    var top :| top in t.all - p.Keys && Reaches(p, c, top);
    ParentNotBelow(p, c, top);
    if k == 0 {
      ReachesSelf(q, n);
      ReachesParent(q, a, n);
    } else {
      assert Path(p, p[a], c, k - 1);
      assert Reaches(p, a, c) && Reaches(p, p[a], c);
      StrandedPath(t, n, first, p[a], c, k - 1);
      ReachesParent(q, a, n);
    }
  }

  /** After n is removed, what still hangs from the root is exactly what did,
      without n and without the subtrees of all its kids but the first. */
  lemma RemoveReaches<T>(t: Tree<T>, n: T, first: Option<T>, x: T)
    requires WellFormed(t) && FirstKid(t, n, first) && n in t.all && n != t.root && x in t.all && x != n
    ensures Reaches(Remove(t.parent, n, first), x, t.root) <==>
            Reaches(t.parent, x, t.root) && !Stranded(t, n, first, x)
  {
    var p, q := t.parent, Remove(t.parent, n, first);
    if Reaches(q, x, t.root) {
      var k: nat :| Path(q, x, t.root, k);
      RemovedPath(t, n, first, x, t.root, k);
      if Stranded(t, n, first, x) {
        var c :| c in t.all && OtherKid(t, n, first, c) && Reaches(p, x, c);
        var j: nat :| Path(p, x, c, j);
        StrandedPath(t, n, first, x, c, j);
        ReachesLinear(q, x, n, t.root);
        ReachesStep(q, n, t.root);
        ReachesStep(q, t.root, n);
      }
    }
    if Reaches(p, x, t.root) && !Stranded(t, n, first, x) {
      var k: nat :| Path(p, x, t.root, k);
      KeptPath(t, n, first, x, t.root, k);
    }
  }

  /** Removing a node of the tree keeps all others reachable exactly when it has
      at most one kid. */
  lemma RemoveConnected<T>(t: Tree<T>, n: T, first: Option<T>)
    requires WellFormed(t) && FirstKid(t, n, first) && n in t.all && n != t.root && Reaches(t.parent, n, t.root)
    ensures (forall x :: x in t.all && x != n && Reaches(t.parent, x, t.root) ==>
                           Reaches(Remove(t.parent, n, first), x, t.root))
            <==> |KidsOf(t, n)| <= 1
  {
    var kids := KidsOf(t, n);
    if |kids| <= 1 {
      forall x | x in t.all && x != n && Reaches(t.parent, x, t.root)
        ensures Reaches(Remove(t.parent, n, first), x, t.root)
      {
        FewKids(t, n, first);
        RemoveReaches(t, n, first, x);
      }
    } else {
      assert |kids - {first.value}| > 0;
      var c :| c in kids - {first.value};
      assert OtherKid(t, n, first, c);
      NoSelfKid(t, n, c);
      ReachesSelf(t.parent, c);
      ReachesParent(t.parent, c, t.root);
      RemoveReaches(t, n, first, c);
    }
  }

  lemma NoSelfKid<T>(t: Tree<T>, n: T, c: T)
    requires WellFormed(t) && c in KidsOf(t, n)
    ensures c != n
  {
    NoSelfParent(t, c);
  }

  lemma FewKids<T>(t: Tree<T>, n: T, first: Option<T>)
    requires FirstKid(t, n, first) && |KidsOf(t, n)| <= 1
    ensures forall c :: c in t.all ==> !OtherKid(t, n, first, c)
  {
    var kids := KidsOf(t, n);
    if first.Some? {
      assert |kids - {first.value}| == |kids| - 1 && kids == kids - {first.value} + {first.value};
    }
  }

  ghost function Removed<T>(t: Tree<T>, n: T, first: Option<T>, id: int): Tree<T> {
    t.(parent := Remove(t.parent, n, first), nodes := t.nodes - {id})
  }

  /** No cycle ever arises from a removal, whatever the number of kids. */
  lemma RemoveWellFormed<T>(t: Tree<T>, n: T, first: Option<T>, id: int)
    requires WellFormed(t) && FirstKid(t, n, first) && n in t.all && n != t.root
    ensures WellFormed(Removed(t, n, first, id))
  {
    var p, q, tops := t.parent, Remove(t.parent, n, first), t.all - t.parent.Keys;
    var p1, tops1 := p, tops;
    if first.Some? {
      var c := first.value;
      ReachesSelf(p, n);
      ReachesParent(p, c, n);
      NoSelfKid(t, n, c);
      LiftKeepsGrounded(p, t.all, tops, c, n);
      p1, tops1 := Lift(p, c, n), if n in p then tops else tops + {c};
    }
    DetachKeepsGrounded(p1, t.all, tops1, n);
    assert q == p1 - {n};
    assert tops1 + {n} == t.all - q.Keys;
  }

  lemma BelowRemoved<T>(t: Tree<T>, n: T, first: Option<T>, x: T)
    requires WellFormed(t) && FirstKid(t, n, first) && |KidsOf(t, n)| <= 1
    requires n in t.all && x in t.all && x != n
    ensures Below(Remove(t.parent, n, first), t.all, x) == Below(t.parent, t.all, x) - {n}
  {
    var p, q := t.parent, Remove(t.parent, n, first);
    FewKids(t, n, first);
    ReachesStep(q, n, x);
    forall a | a in t.all && a != n ensures Reaches(q, a, x) <==> Reaches(p, a, x) {
      if Reaches(q, a, x) {
        var k: nat :| Path(q, a, x, k);
        RemovedPath(t, n, first, a, x, k);
      }
      if Reaches(p, a, x) {
        var k: nat :| Path(p, a, x, k);
        KeptPath(t, n, first, a, x, k);
      }
    }
  }

  /** A node with at most one kid can be removed: the rest stays connected, and
      the counters above it stay right exactly when it had sent nothing. */
  lemma RemoveKeeps<T>(t: Tree<T>, n: T, first: Option<T>, id: int)
    requires WellFormed(t) && FirstKid(t, n, first) && n in t.all && n != t.root && |KidsOf(t, n)| <= 1
    requires forall i :: i in t.nodes ==> (t.nodes[i] == n <==> i == id)
    ensures WellFormed(Removed(t, n, first, id))
    ensures Connected(t) ==> Connected(Removed(t, n, first, id))
    ensures forall x :: x in t.all && x != n && CountsAt(t, x) ==>
              (CountsAt(Removed(t, n, first, id), x) <==> t.bytes[n] == 0 || !Reaches(t.parent, n, x))
  {
    var p, u := t.parent, Removed(t, n, first, id);
    RemoveWellFormed(t, n, first, id);
    FewKids(t, n, first);
    if Connected(t) {
      forall i | i in u.nodes ensures Reaches(u.parent, u.nodes[i], u.root) {
        RemoveReaches(t, n, first, t.nodes[i]);
      }
      forall x | x in u.all && Reaches(u.parent, x, u.root) ensures Tracked(u, x) {
        ReachesStep(u.parent, x, u.root);
        RemoveReaches(t, n, first, x);
        assert Tracked(t, x);
        var i :| i in t.nodes && t.nodes[i] == x;
        assert i in u.nodes;
      }
    }
    forall x | x in t.all && x != n && CountsAt(t, x)
      ensures CountsAt(u, x) <==> t.bytes[n] == 0 || !Reaches(p, n, x)
    {
      var b := Below(p, t.all, x);
      BelowRemoved(t, n, first, x);
      if n in b {
        SumPick(t.bytes, b, n);
      } else {
        assert b - {n} == b;
      }
    }
  }

  /** e can be taken out without loss: it is tracked under its own id or not at
      all, it has at most one kid and it has sent nothing. */
  ghost predicate Evictable<T>(t: Tree<T>, e: T, id: int) {
    && e in t.all && e != t.root && |KidsOf(t, e)| <= 1
    && e in t.bytes && t.bytes[e] == 0
    && (forall i :: i in t.nodes ==> (t.nodes[i] == e <==> i == id))
  }

  lemma EvictKeeps<T>(t: Tree<T>, e: T, first: Option<T>, id: int)
    requires WellFormed(t) && FirstKid(t, e, first) && Evictable(t, e, id)
    ensures Healthy(t) ==> Healthy(Removed(t, e, first, id))
    ensures Exact(t) ==> Exact(Removed(t, e, first, id))
  {
    RemoveKeeps(t, e, first, id);
    var u := Removed(t, e, first, id);
    if AllCount(t) {
      forall i | i in u.nodes ensures CountsAt(u, u.nodes[i]) {
        assert CountsAt(t, t.nodes[i]);
      }
    }
  }

  /** A new node elsewhere does not change whether e can be evicted. */
  lemma AddEvictable<T>(t: Tree<T>, id: int, n: T, parent: T, e: T, eid: int)
    requires WellFormed(t) && n !in t.all && id !in t.nodes && id != eid && parent != e && Evictable(t, e, eid)
    ensures Evictable(Add(t, id, n, parent), e, eid)
  {
    assert KidsOf(Add(t, id, n, parent), e) == KidsOf(t, e);
  }

  /** A new node below the root, with the oldest idle node making room. */
  lemma IdleKeeps<T>(t: Tree<T>, id: int, n: T, e: T, first: Option<T>, eid: int)
    requires WellFormed(t) && n !in t.all && id !in t.nodes && id != eid
    requires 0 in t.nodes && t.nodes[0] == t.root && e in t.all
    requires FirstKid(Add(t, id, n, t.root), e, first) && Evictable(t, e, eid)
    ensures Healthy(t) ==> Healthy(Removed(Add(t, id, n, t.root), e, first, eid))
    ensures Exact(t) ==> Exact(Removed(Add(t, id, n, t.root), e, first, eid))
  {
    AddTracked(t, id, 0, n);
    AddWellFormed(t, id, n, t.root);
    AddEvictable(t, id, n, t.root, e, eid);
    EvictKeeps(Add(t, id, n, t.root), e, first, eid);
  }

  // ----- a tree whose counters go wrong -----

  lemma RootAlone()
    ensures var t := Tree(0, {0}, map[], map[0 := 0], map[0 := 0], map[0 := 0]); Healthy(t) && Exact(t) && WellFormed(t)
  {
    var t := Tree(0, {0}, map[], map[0 := 0], map[0 := 0], map[0 := 0]);
    ReachesSelf(t.parent, 0);
    assert HasTop(t.parent, t.all - t.parent.Keys, 0) by {
      assert 0 in t.all - t.parent.Keys;
    }
    assert Below(t.parent, t.all, 0) == {0};
    SumPick(t.bytes, {0}, 0);
    assert Tracked(t, 0) by {
      assert 0 in t.nodes;
    }
  }

  lemma TwoKids() returns (t: Tree<int>)
    ensures t.root == 0 && t.all == {0, 1, 2} && t.nodes == map[0 := 0, 1 := 1, 2 := 2]
            && t.parent == map[1 := 0, 2 := 0]
    ensures t.bytes == map[0 := 0, 1 := 0, 2 := 0] && t.subtree == map[0 := 0, 1 := 0, 2 := 0]
    ensures Healthy(t) && Exact(t) && WellFormed(t)
  {
    hide Healthy, Exact, WellFormed;
    var s := Tree(0, {0}, map[], map[0 := 0], map[0 := 0], map[0 := 0]);
    RootAlone();
    AddTracked(s, 1, 0, 1);
    AddWellFormed(s, 1, 1, 0);
    var u := Add(s, 1, 1, 0);
    AddTracked(u, 2, 0, 2);
    AddWellFormed(u, 2, 2, 0);
    t := Add(u, 2, 2, 0);
  }

  /** Streams 1 and 2 depend on the root and 2 has sent five bytes. Stream 1 becomes the
      root's exclusive kid: five bytes were sent below it, and its counter says none. */
  lemma ExclusiveMiscounts() returns (t: Tree<int>)
    ensures Healthy(t) && Exact(t) && t.parent == map[1 := 0, 2 := 0] && t.bytes == map[0 := 0, 1 := 0, 2 := 5]
    ensures t.nodes == map[0 := 0, 1 := 1, 2 := 2] && t.subtree == map[0 := 5, 1 := 0, 2 := 5]
    ensures !Exact(Adjusted(t, 1, 0, true))
  {
    hide Healthy, Exact, WellFormed, Reaches;
    var s := TwoKids();
    BumpHealthy(s, 2, 5);
    t := Bump(s, 2, 5);
    ReachesStep(t.parent, 0, 0);
    ReachesStep(t.parent, 2, 2);
    ReachesStep(t.parent, 2, 0);
    ReachesStep(t.parent, 2, 1);
    ReachesStep(t.parent, 0, 1);
    assert t.subtree == map[0 := 5, 1 := 0, 2 := 5];
    AdjustedExact(t, 1, 0, true);
  }
}
