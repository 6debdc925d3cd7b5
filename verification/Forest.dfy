/** Parent maps. A map sends each node to its parent; a node outside the map's
    domain is the top of its tree. Everything here is about values: the heap
    structure of the priority scheduler is tied to these maps elsewhere. */
module Forest {

  /** b is exactly k parent steps above a. */
  ghost predicate Path<T>(p: map<T, T>, a: T, b: T, k: nat)
    decreases k
  {
    if k == 0 then a == b else a in p && Path(p, p[a], b, k - 1)
  }

  /** b is a or one of its ancestors. */
  ghost predicate Reaches<T>(p: map<T, T>, a: T, b: T)
  {
    exists k: nat :: Path(p, a, b, k)
  }

  ghost predicate HasTop<T>(p: map<T, T>, tops: set<T>, a: T)
  {
    exists t :: t in tops && Reaches(p, a, t)
  }

  /** Every chain that starts in dom ends in one of the tops. */
  ghost predicate Grounded<T>(p: map<T, T>, dom: set<T>, tops: set<T>)
  {
    && tops !! p.Keys
    && forall a {:trigger HasTop(p, tops, a)} :: a in dom ==> HasTop(p, tops, a)
  }

  lemma ReachesSelf<T>(p: map<T, T>, a: T)
    ensures Reaches(p, a, a)
  {
    assert Path(p, a, a, 0);
  }

  lemma ReachesParent<T>(p: map<T, T>, a: T, b: T)
    requires a in p && Reaches(p, p[a], b)
    ensures Reaches(p, a, b)
  {
    var k: nat :| Path(p, p[a], b, k);
    assert Path(p, a, b, k + 1);
  }

  /** A node reaches itself and whatever its parent reaches, nothing else. */
  lemma ReachesStep<T>(p: map<T, T>, a: T, b: T)
    ensures Reaches(p, a, b) <==> a == b || (a in p && Reaches(p, p[a], b))
  {
    ReachesSelf(p, a);
    if Reaches(p, a, b) && a != b {
      var k: nat :| Path(p, a, b, k);
      assert Path(p, p[a], b, k - 1);
    }
    if a in p && Reaches(p, p[a], b) {
      ReachesParent(p, a, b);
    }
  }

  lemma {:induction false} PathJoin<T>(p: map<T, T>, a: T, b: T, c: T, j: nat, k: nat)
    requires Path(p, a, b, j) && Path(p, b, c, k)
    ensures Path(p, a, c, j + k)
    decreases j
  {
    if j > 0 {
      PathJoin(p, p[a], b, c, j - 1, k);
    }
  }

  lemma ReachesTrans<T>(p: map<T, T>, a: T, b: T, c: T)
    requires Reaches(p, a, b) && Reaches(p, b, c)
    ensures Reaches(p, a, c)
  {
    var j: nat :| Path(p, a, b, j);
    var k: nat :| Path(p, b, c, k);
    PathJoin(p, a, b, c, j, k);
  }

  /** Chains do not branch: of two ends, the nearer one reaches the farther one. */
  lemma {:induction false} PathSplit<T>(p: map<T, T>, a: T, b: T, c: T, j: nat, k: nat)
    requires Path(p, a, b, j) && Path(p, a, c, k) && j <= k
    ensures Path(p, b, c, k - j)
    decreases j
  {
    if j > 0 {
      PathSplit(p, p[a], b, c, j - 1, k - 1);
    }
  }

  lemma ReachesLinear<T>(p: map<T, T>, a: T, b: T, c: T)
    requires Reaches(p, a, b) && Reaches(p, a, c)
    ensures Reaches(p, b, c) || Reaches(p, c, b)
  {
    var j: nat :| Path(p, a, b, j);
    var k: nat :| Path(p, a, c, k);
    if j <= k {
      PathSplit(p, a, b, c, j, k);
    } else {
      PathSplit(p, a, c, b, k, j);
    }
  }

  /** The number of steps to a top is fixed, so a node with a top is on no cycle. */
  lemma {:induction false} NoCycle<T>(p: map<T, T>, a: T, t: T, j: nat, k: nat)
    requires t !in p && Path(p, a, t, j) && Path(p, a, a, k)
    ensures k == 0
    decreases j
  {
    if k > 0 {
      if j >= k {
        PathSplit(p, a, a, t, k, j);
        NoCycle(p, a, t, j - k, k);
      } else {
        PathSplit(p, a, t, a, j, k);
        assert false;
      }
    }
  }

  lemma Antisymmetric<T>(p: map<T, T>, a: T, b: T, t: T)
    requires t !in p && Reaches(p, a, t)
    requires Reaches(p, a, b) && Reaches(p, b, a)
    ensures a == b
  {
    var j: nat :| Path(p, a, b, j);
    var k: nat :| Path(p, b, a, k);
    var m: nat :| Path(p, a, t, m);
    PathJoin(p, a, b, a, j, k);
    NoCycle(p, a, t, m, j + k);
  }

  /** A grounded parent never lies below its own child. */
  lemma ParentNotBelow<T>(p: map<T, T>, a: T, t: T)
    requires a in p && t !in p && Reaches(p, a, t)
    ensures !Reaches(p, p[a], a)
    ensures p[a] != a
  {
    if Reaches(p, p[a], a) {
      var k: nat :| Path(p, p[a], a, k);
      var j: nat :| Path(p, a, t, j);
      assert Path(p, a, a, k + 1);
      NoCycle(p, a, t, j, k + 1);
    }
    ReachesSelf(p, a);
  }

  /** What lies strictly below n lies at or below one of its kids. */
  lemma {:induction false} PathLastStep<T>(p: map<T, T>, x: T, n: T, k: nat) returns (c: T)
    requires Path(p, x, n, k) && k > 0
    ensures c in p && p[c] == n && Reaches(p, x, c)
    decreases k
  {
    if k == 1 {
      c := x;
      ReachesSelf(p, x);
    } else {
      c := PathLastStep(p, p[x], n, k - 1);
      ReachesParent(p, x, c);
    }
  }

  lemma KidBetween<T>(p: map<T, T>, x: T, n: T) returns (c: T)
    requires Reaches(p, x, n) && x != n
    ensures c in p && p[c] == n && Reaches(p, x, c)
  {
    var k: nat :| Path(p, x, n, k);
    c := PathLastStep(p, x, n, k);
  }

  // ----- moving one node -----

  /** A chain that avoids x is the same before and after x moves. */
  lemma {:induction false} PathAvoiding<T>(p: map<T, T>, q: map<T, T>, x: T, a: T, b: T, k: nat)
    requires p - {x} == q - {x}
    requires !Reaches(p, a, x)
    requires Path(p, a, b, k)
    ensures Path(q, a, b, k)
    decreases k
  {
    ReachesSelf(p, a);
    if k > 0 {
      assert a in p - {x};
      assert a in q - {x};
      assert (p - {x})[a] == (q - {x})[a];
      if Reaches(p, p[a], x) {
        ReachesParent(p, a, x);
      }
      PathAvoiding(p, q, x, p[a], b, k - 1);
    }
  }

  /** Below x, and everywhere else, reaching x does not depend on where x hangs. */
  lemma {:induction false} PathToMoved<T>(p: map<T, T>, q: map<T, T>, x: T, a: T, k: nat)
    requires p - {x} == q - {x}
    requires Path(p, a, x, k)
    ensures Reaches(q, a, x)
    decreases k
  {
    if a == x {
      ReachesSelf(q, a);
    } else {
      assert a in p - {x};
      assert a in q - {x};
      assert (p - {x})[a] == (q - {x})[a];
      PathToMoved(p, q, x, p[a], k - 1);
      ReachesParent(q, a, x);
    }
  }

  lemma ReachesMoved<T>(p: map<T, T>, q: map<T, T>, x: T, a: T)
    requires p - {x} == q - {x}
    ensures Reaches(p, a, x) <==> Reaches(q, a, x)
  {
    if Reaches(p, a, x) {
      var k: nat :| Path(p, a, x, k);
      PathToMoved(p, q, x, a, k);
    }
    if Reaches(q, a, x) {
      var k: nat :| Path(q, a, x, k);
      PathToMoved(q, p, x, a, k);
    }
  }

  /** What a node outside x's subtree reaches is untouched by moving x. */
  lemma ReachesOutside<T>(p: map<T, T>, q: map<T, T>, x: T, a: T, b: T)
    requires p - {x} == q - {x}
    requires !Reaches(p, a, x)
    ensures Reaches(p, a, b) <==> Reaches(q, a, b)
  {
    ReachesMoved(p, q, x, a);
    if Reaches(p, a, b) {
      var k: nat :| Path(p, a, b, k);
      PathAvoiding(p, q, x, a, b, k);
    }
    if Reaches(q, a, b) {
      var k: nat :| Path(q, a, b, k);
      PathAvoiding(q, p, x, a, b, k);
    }
  }

  /** Giving x the parent y, where y does not lie below x, keeps every chain
      grounded. This is the only step that any tree operation needs. */
  lemma MoveKeepsGrounded<T>(p: map<T, T>, dom: set<T>, tops: set<T>, x: T, y: T)
    requires Grounded(p, dom, tops)
    requires y in dom && !Reaches(p, y, x)
    ensures Grounded(p[x := y], dom, tops - {x})
  {
    var q := p[x := y];
    assert HasTop(p, tops, y);
    var ty :| ty in tops && Reaches(p, y, ty);
    assert p - {x} == q - {x};
    ReachesOutside(p, q, x, y, ty);
    ReachesMoved(p, q, x, y);
    ReachesSelf(p, x);
    assert ty != x;
    forall a | a in dom
      ensures HasTop(q, tops - {x}, a)
    {
      if Reaches(p, a, x) {
        ReachesMoved(p, q, x, a);
        ReachesParent(q, x, ty);
        ReachesTrans(q, a, x, ty);
        assert ty in tops - {x};
      } else {
        assert HasTop(p, tops, a);
        var t :| t in tops && Reaches(p, a, t);
        ReachesOutside(p, q, x, a, t);
        assert t in tops - {x};
      }
    }
  }

  /** Detaching x makes it one more top. */
  lemma DetachKeepsGrounded<T>(p: map<T, T>, dom: set<T>, tops: set<T>, x: T)
    requires Grounded(p, dom, tops)
    ensures Grounded(p - {x}, dom, tops + {x})
  {
    var q := p - {x};
    assert p - {x} == q - {x};
    forall a | a in dom
      ensures HasTop(q, tops + {x}, a)
    {
      if Reaches(p, a, x) {
        ReachesMoved(p, q, x, a);
        assert x in tops + {x};
      } else {
        assert HasTop(p, tops, a);
        var t :| t in tops && Reaches(p, a, t);
        ReachesOutside(p, q, x, a, t);
        assert t in tops + {x};
      }
    }
  }

  // ----- sums over subtrees -----

  /** The sum of the values of the nodes in s. */
  ghost function Sum<T>(f: map<T, int>, s: set<T>): int
    requires s <= f.Keys
  {
    if s == {} then 0 else
      var x :| x in s;
      f[x] + Sum(f, s - {x})
  }

  lemma {:induction false} SumPick<T>(f: map<T, int>, s: set<T>, x: T)
    requires s <= f.Keys && x in s
    ensures Sum(f, s) == f[x] + Sum(f, s - {x})
    decreases |s|
  {
    var y :| y in s && Sum(f, s) == f[y] + Sum(f, s - {y});
    if y != x {
      SumPick(f, s - {y}, x);
      SumPick(f, s - {x}, y);
      assert s - {y} - {x} == s - {x} - {y};
    }
  }

  lemma SumAdd<T>(f: map<T, int>, s: set<T>, x: T)
    requires s <= f.Keys && x in f.Keys && x !in s
    ensures Sum(f, s + {x}) == Sum(f, s) + f[x]
  {
    SumPick(f, s + {x}, x);
    assert s + {x} - {x} == s;
  }

  lemma {:induction false} SumSame<T>(f: map<T, int>, g: map<T, int>, s: set<T>)
    requires s <= f.Keys && s <= g.Keys
    requires forall x :: x in s ==> f[x] == g[x]
    ensures Sum(f, s) == Sum(g, s)
    decreases |s|
  {
    if s != {} {
      var x :| x in s;
      SumPick(f, s, x);
      SumPick(g, s, x);
      SumSame(f, g, s - {x});
    }
  }

  /** Changing one value by d changes the sums that contain it by d. */
  lemma SumBump<T>(f: map<T, int>, s: set<T>, x: T, d: int)
    requires s <= f.Keys && x in f
    ensures Sum(f[x := f[x] + d], s) == Sum(f, s) + (if x in s then d else 0)
  {
    var g := f[x := f[x] + d];
    if x in s {
      SumPick(f, s, x);
      SumPick(g, s, x);
      SumSame(f, g, s - {x});
    } else {
      SumSame(f, g, s);
    }
  }

  lemma {:induction false} SumDisjoint<T>(f: map<T, int>, s: set<T>, r: set<T>)
    requires s + r <= f.Keys && s !! r
    ensures Sum(f, s + r) == Sum(f, s) + Sum(f, r)
    decreases |r|
  {
    if r == {} {
      assert s + r == s;
    } else {
      var x :| x in r;
      SumPick(f, r, x);
      SumPick(f, s + r, x);
      assert s + r - {x} == s + (r - {x});
      SumDisjoint(f, s, r - {x});
    }
  }

  lemma {:induction false} SumNonNegative<T>(f: map<T, int>, s: set<T>)
    requires s <= f.Keys && forall x :: x in s ==> 0 <= f[x]
    ensures 0 <= Sum(f, s)
    decreases |s|
  {
    if s != {} {
      var x :| x in s;
      SumPick(f, s, x);
      SumNonNegative(f, s - {x});
    }
  }

  /** The nodes of dom at or below n. */
  ghost function Below<T>(p: map<T, T>, dom: set<T>, n: T): (s: set<T>)
    ensures s <= dom
  {
    set x | x in dom && Reaches(p, x, n)
  }
}
