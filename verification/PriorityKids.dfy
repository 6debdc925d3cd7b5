/** The loops of the priority tree over the kids of a node. */
module PriorityKids {
  import opened Common
  import opened Flow
  import opened Frames
  import opened Forest
  import opened PriorityModel
  import opened PriorityNode
  import opened PriorityOrder

  /** The siblings from k on. */
  ghost function From(k: Node?, all: set<Node>): set<Node>
    reads all`parent, all`pos
  {
    if k == null || k !in all then {} else set c | c in all && c.parent == k.parent && k.pos <= c.pos
  }

  function Kid(k: Node?): Option<Node> {
    if k == null then None else Some(k)
  }

  lemma NextShrinks(k: Node, all: set<Node>)
    requires Links(all) && k in all && k.parent != null
    ensures From(k.next, all) < From(k, all)
    ensures k.next != null ==> k.next in all && k.next.parent == k.parent
  {
    NextSkipsNone(k, k, all);
    assert k in From(k, all) && k !in From(k.next, all);
  }

  lemma NoSmallCycle(c: Node, all: set<Node>)
    requires Links(all) && Acyclic(all) && c in all && c.parent != null
    ensures c.parent != c && c.parent in all && c.parent.parent != c
  {
    var p := Parents(all);
    ParentInside(c, all);
    assert HasTop(p, all - p.Keys, c);
    var top :| top in all - p.Keys && Reaches(p, c, top);
    ParentNotBelow<Node>(p, c, top);
    ReachesStep<Node>(p, c.parent, c);
    ReachesSelf<Node>(p, c);
  }

  /** The loop with which a node that is removed hands its kids to its parent. It
      follows the next pointer of a kid that has just been moved, so it goes on
      along the parent's own kids and moves the first kid only. */
  method HandOverKids(n: Node, ghost all: set<Node>)
    requires Links(all) && Acyclic(all) && n in all
    modifies all`kids, all`parent, all`prev, all`next, all`pos
    ensures Links(all)
    ensures old(n.kids) == null ==> unchanged(all)
    ensures old(n.kids) != null ==> Parents(all) == Lift(old(Parents(all)), old(n.kids), n)
    ensures n.parent == old(n.parent)
  {
    ghost var p0, first, p := Parents(all), n.kids, n.parent;
    ghost var moved := false;
    assert Linked(n, all);
    if p != null {
      NoSmallCycle(n, all);
      ParentInside(n, all);
      if p.parent != null {
        NoSmallCycle(p, all);
      }
    }
    if first != null {
      NoSmallCycle(first, all);
    }
    var k := n.kids;
    while k != null
      invariant Links(all) && n.parent == p
      invariant !moved ==> k == first && unchanged(all)
      invariant moved ==> first != null && Parents(all) == Lift<Node>(p0, first, n)
      invariant moved && k != null ==> p != null && k in all && k.parent == p
      decreases !moved, From(k, all)
    {
      if moved {
        NextShrinks(k, all);
        ParentInside(k, all);
        assert k != p;
      }
      SetParent(k, n.parent, all);
      assert Linked(k, all);
      k := k.next;
      moved := true;
    }
  }

  /** A new node at the head of the kids of parent. */
  method NewKid(id: uint32, weight: byte, state: NodeState, parent: Node, ghost all: set<Node>) returns (n: Node)
    requires Links(all) && parent in all
    modifies all`kids, all`prev, all`next
    ensures fresh(n) && n.id == id && n.state == state && n.weight == weight && n.q == []
    ensures Links(all + {n})
    ensures forall c :: c in all && c != parent ==> c.kids == old(c.kids)
    ensures Parents(all + {n}) == old(Parents(all))[n := parent]
    ensures BytesOf(all + {n}) == old(BytesOf(all))[n := 0]
    ensures CountersOf(all + {n}) == old(CountersOf(all))[n := 0]
  {
    hide Links;
    n := new Node(id, weight, state);
    LinksGrow(all, n);
    SetParent(n, parent, all + {n});
  }

  /** Sent bytes, seen as an update of the two tables. */
  method CountUp(n: Node, d: int, ghost all: set<Node>)
    requires Links(all) && Acyclic(all) && n in all
    modifies n`bytes, all`subtreeBytes
    ensures BytesOf(all) == old(BytesOf(all))[n := old(n.bytes) + d]
    ensures CountersOf(all) == BumpCounters(Parents(all), old(CountersOf(all)), n, d)
    ensures n.bytes == old(n.bytes) + d
  {
    hide Links, Acyclic, Reaches;
    AddBytes(n, d, all);
  }

  /** Take n out of the tree. */
  method CutNode(n: Node, ghost all: set<Node>)
    requires Links(all) && Acyclic(all) && n in all
    modifies all`kids, all`parent, all`prev, all`next, all`pos
    ensures Links(all)
    ensures Parents(all) == Remove(old(Parents(all)), n, Kid(old(n.kids)))
  {
    HandOverKids(n, all);
    SetParent(n, null, all);
  }

  /** An exclusive n takes over the other kids of parent. */
  method AdoptKids(n: Node, parent: Node, ghost all: set<Node>)
    requires Links(all) && n in all && parent in all && n != parent
    modifies all`kids, all`parent, all`prev, all`next, all`pos
    ensures Links(all)
    ensures Parents(all) == Adopt(old(Parents(all)), n, parent)
  {
    assert Linked(parent, all);
    var k := parent.kids;
    forall c | c in all && c.parent == parent ensures k != null && k.pos <= c.pos {
      FirstKidLeast(parent, c, all);
    }
    while k != null
      invariant Links(all)
      invariant k != null ==> k in all && k.parent == parent
      invariant forall c :: c in all && old(c.parent) != parent ==> c.parent == old(c.parent)
      invariant forall c :: c in all && old(c.parent) == parent ==>
                  c.parent == (if c != n && (k == null || old(c.pos) < k.pos) then n else parent)
      invariant forall c :: c in all && c.parent == parent ==> c.pos == old(c.pos)
      decreases if k == null then {} else set c | c in all && old(c.parent) == parent && k.pos <= old(c.pos)
    {
      var next := k.next;
      ghost var at := k.pos;
      NextShrinks(k, all);
      forall c | c in all && c.parent == parent
        ensures c.pos < k.pos || c == k || (next != null && next.pos <= c.pos)
      {
        NextSkipsNone(k, c, all);
      }
      if next != null {
        NextSkipsNone(k, next, all);
      }
      if k != n {
        SetParent(k, n, all);
      }
      k := next;
    }
  }

  /** Whether the kids of n have different weights. */
  method WeightsDiffer(n: Node, ghost all: set<Node>) returns (differ: bool)
    requires Links(all) && n in all && n.kids != null
    ensures differ <==> exists c :: c in all && c.parent == n && c.weight != n.kids.weight
  {
    assert Linked(n, all);
    var w := n.kids.weight;
    forall c | c in all && c.parent == n ensures c == n.kids || (n.kids.next != null && n.kids.next.pos <= c.pos) {
      FirstKidLeast(n, c, all);
      NextSkipsNone(n.kids, c, all);
    }
    NextShrinks(n.kids, all);
    var k := n.kids.next;
    while k != null
      invariant k != null ==> k in all && k.parent == n
      invariant forall c :: c in all && c.parent == n ==> c.weight == w || (k != null && k.pos <= c.pos)
      decreases From(k, all)
    {
      if k.weight != w {
        return true;
      }
      NextShrinks(k, all);
      forall c | c in all && c.parent == n ensures c.pos < k.pos || c == k || (k.next != null && k.next.pos <= c.pos) {
        NextSkipsNone(k, c, all);
      }
      k := k.next;
    }
    return false;
  }

  /** Take all kids off n. */
  method TakeKids(n: Node, ghost all: set<Node>) returns (tmp: seq<Node>)
    requires Links(all) && n in all
    modifies all`kids, all`parent, all`prev, all`next, all`pos
    ensures Links(all)
    ensures forall c :: c in all ==> c.parent == (if old(c.parent) == n then null else old(c.parent))
    ensures forall c :: c in all && old(c.parent) != n ==> c.pos == old(c.pos)
    ensures forall c :: c in tmp <==> c in all && old(c.parent) == n
    ensures forall i, j :: 0 <= i < j < |tmp| ==> tmp[i] != tmp[j]
  {
    tmp := [];
    while n.kids != null
      invariant Links(all)
      invariant forall c :: c in all ==> c.parent == (if c in tmp then null else old(c.parent))
      invariant forall c :: c in all && old(c.parent) != n ==> c.pos == old(c.pos)
      invariant forall c :: c in tmp ==> c in all && old(c.parent) == n
      invariant forall i, j :: 0 <= i < j < |tmp| ==> tmp[i] != tmp[j]
      decreases set c | c in all && c.parent == n
    {
      assert Linked(n, all);
      var k := n.kids;
      ghost var before := set c | c in all && c.parent == n;
      assert k in before;
      tmp := tmp + [k];
      SetParent(k, null, all);
    }
    forall c | c in all && old(c.parent) == n ensures c in tmp {
      if c !in tmp {
        FirstKidLeast(n, c, all);
      }
    }
  }

  /** Put back, last first, so that the list is in the order of s. */
  method PutKids(n: Node, s: seq<Node>, ghost all: set<Node>)
    requires Links(all) && n in all && n !in s
    requires forall c :: c in s ==> c in all && c.parent == null
    requires forall c :: c in all ==> c.parent != n
    requires forall i, j :: 0 <= i < j < |s| ==> s[i] != s[j]
    modifies all`kids, all`parent, all`prev, all`next, all`pos
    ensures Links(all)
    ensures forall c :: c in all ==> c.parent == (if c in s then n else old(c.parent))
    ensures forall c :: c in all && c !in s ==> c.pos == old(c.pos)
    ensures forall i, j :: 0 <= i < j < |s| ==> s[i].pos < s[j].pos
  {
    hide Links;
    var i := |s|;
    ghost var done: set<Node> := {};
    while i > 0
      invariant 0 <= i <= |s| && Links(all) && done <= all
      invariant forall c :: c in done ==> c in s
      invariant forall j :: 0 <= j < |s| ==> (s[j] in done <==> i <= j)
      invariant forall c :: c in all ==> c.parent == (if c in done then n else old(c.parent))
      invariant forall c :: c in all && c !in done ==> c.pos == old(c.pos)
      invariant forall j, k :: i <= j < k < |s| ==> s[j].pos < s[k].pos
    {
      i := i - 1;
      SetParent(s[i], n, all);
      forall j | i < j < |s| ensures s[i].pos < s[j].pos {
        FirstKidFirst(n, s[j], all);
      }
      done := done + {s[i]};
    }
  }

  // ----- sorting siblings -----

  /** Counts the comparison can deal with: bytes were only ever added, and no weight is
      the one that wraps around. */
  predicate Level(s: seq<Node>)
    reads s`weight, s`subtreeBytes
  {
    forall c :: c in s ==> c.weight < 255 && 0 <= c.subtreeBytes
  }

  predicate Leads(a: Node, b: Node)
    reads a`weight, a`subtreeBytes, b`weight, b`subtreeBytes
  {
    Ahead(a.weight, a.subtreeBytes, b.weight, b.subtreeBytes)
  }

  predicate InOrder(s: seq<Node>)
    reads s`weight, s`subtreeBytes
  {
    forall i, j :: 0 <= i < j < |s| ==> Leads(s[i], s[j])
  }

  lemma LeadsTotal(a: Node, b: Node)
    requires Level([a, b])
    ensures Leads(a, b) || Leads(b, a)
    ensures Less(a.weight, a.subtreeBytes, b.weight, b.subtreeBytes) <==> Leads(a, b)
  {
    assert a in [a, b] && b in [a, b];
    LessMeans(a.weight, a.subtreeBytes, b.weight, b.subtreeBytes);
    AheadTotal(a.weight, a.subtreeBytes, b.weight, b.subtreeBytes);
  }

  lemma LeadsTrans(a: Node, b: Node, c: Node)
    requires Level([a, b, c]) && Leads(a, b) && Leads(b, c)
    ensures Leads(a, c)
  {
    assert a in [a, b, c] && b in [a, b, c] && c in [a, b, c];
    AheadTrans(a.weight, a.subtreeBytes, b.weight, b.subtreeBytes, c.weight, c.subtreeBytes);
  }

  lemma Inserted(s: seq<Node>, x: Node, j: nat)
    requires j <= |s| && Level(s + [x]) && InOrder(s)
    requires forall m :: j <= m < |s| ==> Leads(x, s[m])
    requires j > 0 ==> Leads(s[j - 1], x)
    ensures InOrder(s[..j] + [x] + s[j..])
  {
    hide Leads;
    var r := s[..j] + [x] + s[j..];
    forall m | 0 <= m < j ensures Leads(s[m], x) {
      if m < j - 1 {
        forall c | c in [s[m], s[j - 1], x] ensures c in s + [x] {
        }
        LeadsTrans(s[m], s[j - 1], x);
      }
    }
    forall a, b | 0 <= a < b < |r| ensures Leads(r[a], r[b]) {
      var a', b' := if a < j then a else a - 1, if b < j then b else b - 1;
      assert r[a] == (if a == j then x else s[a']) && r[b] == if b == j then x else s[b'];
    }
  }

  /** The place of x among s, by comparing. */
  method Insert(s: seq<Node>, x: Node) returns (r: seq<Node>)
    ensures IsPermutation(r, s + [x])
    ensures Level(s + [x]) && InOrder(s) ==> InOrder(r)
  {
    hide InOrder, Less, Leads;
    var j := |s|;
    while j > 0 && Less(x.weight, x.subtreeBytes, s[j - 1].weight, s[j - 1].subtreeBytes)
      invariant 0 <= j <= |s|
      invariant Level(s + [x]) ==> forall m :: j <= m < |s| ==> Leads(x, s[m])
    {
      j := j - 1;
      if Level(s + [x]) {
        PairLevel(s, x, j);
        LeadsTotal(x, s[j]);
      }
    }
    r := s[..j] + [x] + s[j..];
    assert s == s[..j] + s[j..];
    if Level(s + [x]) && InOrder(s) {
      if j > 0 {
        PairLevel(s, x, j - 1);
        LeadsTotal(x, s[j - 1]);
      }
      Inserted(s, x, j);
    }
  }

  lemma PairLevel(s: seq<Node>, x: Node, j: nat)
    requires Level(s + [x]) && j < |s|
    ensures Level([x, s[j]])
  {
    assert x in s + [x] && s[j] in s + [x];
  }

  method Arrange(tmp: seq<Node>) returns (s: seq<Node>)
    ensures IsPermutation(s, tmp) && (Level(tmp) ==> InOrder(s))
  {
    hide InOrder;
    s := [];
    NoneInOrder();
    for i := 0 to |tmp|
      invariant IsPermutation(s, tmp[..i]) && (Level(tmp) ==> InOrder(s))
    {
      ghost var t := s + [tmp[i]];
      assert tmp[..i + 1] == tmp[..i] + [tmp[i]];
      if Level(tmp) {
        LevelPart(t, tmp, i);
      }
      s := Insert(s, tmp[i]);
    }
    assert tmp[..|tmp|] == tmp;
  }

  lemma NoneInOrder()
    ensures InOrder([])
  {
  }

  lemma LevelPart(t: seq<Node>, tmp: seq<Node>, i: nat)
    requires Level(tmp) && i < |tmp| && IsPermutation(t, tmp[..i] + [tmp[i]])
    ensures Level(t)
  {
    forall c | c in t ensures c in tmp {
      assert c in multiset(t);
      assert c in multiset(tmp[..i] + [tmp[i]]);
      assert c in tmp[..i] + [tmp[i]];
    }
  }

  lemma LevelSame(s: seq<Node>, t: seq<Node>)
    requires forall c :: c in s <==> c in t
    ensures Level(s) <==> Level(t)
  {
  }

  /** The kids of n, when their counts can be compared, stand in the wanted order. */
  ghost predicate KidsInOrder(n: Node, all: set<Node>)
    reads all`parent, all`pos, all`weight, all`subtreeBytes
  {
    (forall c :: c in all && c.parent == n ==> c.weight < 255 && 0 <= c.subtreeBytes) ==>
      forall c, d :: c in all && d in all && c.parent == n && d.parent == n && c.pos <= d.pos ==> Leads(c, d)
  }

  lemma PlacedInOrder(n: Node, s: seq<Node>, all: set<Node>)
    requires forall c :: c in s <==> c in all && c.parent == n
    requires forall i, j :: 0 <= i < j < |s| ==> s[i].pos < s[j].pos
    requires Level(s) ==> InOrder(s)
    ensures KidsInOrder(n, all)
  {
    hide Leads;
    if forall c :: c in all && c.parent == n ==> c.weight < 255 && 0 <= c.subtreeBytes {
      forall c, d | c in all && d in all && c.parent == n && d.parent == n && c.pos <= d.pos ensures Leads(c, d) {
        var i :| 0 <= i < |s| && s[i] == c;
        var j :| 0 <= j < |s| && s[j] == d;
        assert i <= j;
        LeadsTotal(c, c);
      }
    }
  }

  /** Sort the kids of n. The library's sort is free to do anything when the comparison
      is not an order; otherwise the kids come back in the wanted order. Every one of them
      comes back, and nothing else moves. */
  method SortKids(n: Node, ghost all: set<Node>)
    requires Links(all) && n in all && n.parent != n
    modifies all`kids, all`parent, all`prev, all`next, all`pos
    ensures Links(all) && forall c :: c in all ==> c.parent == old(c.parent)
    ensures forall c :: c in all && c.parent != n ==> c.pos == old(c.pos)
    ensures KidsInOrder(n, all)
  {
    hide Level, InOrder, KidsInOrder;
    var tmp := TakeKids(n, all);
    var arranged := Arrange(tmp);
    var sorted: seq<Node> :| IsPermutation(sorted, tmp) && (Level(tmp) ==> InOrder(sorted));
    PermutationFacts(sorted, tmp);
    LevelSame(sorted, tmp);
    PutKids(n, sorted, all);
    PlacedInOrder(n, sorted, all);
  }

  predicate IsPermutation(s: seq<Node>, t: seq<Node>) {
    multiset(s) == multiset(t)
  }

  lemma PermutationFacts(s: seq<Node>, t: seq<Node>)
    requires IsPermutation(s, t)
    requires forall i, j :: 0 <= i < j < |t| ==> t[i] != t[j]
    ensures forall c: Node :: c in s <==> c in t
    ensures forall i, j :: 0 <= i < j < |s| ==> s[i] != s[j]
  {
    forall c: Node ensures c in s <==> c in t {
      assert c in multiset(s) <==> c in s;
      assert c in multiset(t) <==> c in t;
    }
    forall i, j | 0 <= i < j < |s| ensures s[i] != s[j] {
      CountsOnce(t, s[i]);
      assert s == s[..j] + s[j..];
      assert s[i] in s[..j] && s[j] in s[j..];
    }
  }

  lemma {:induction false} CountsOnce(t: seq<Node>, c: Node)
    requires forall i, j :: 0 <= i < j < |t| ==> t[i] != t[j]
    ensures multiset(t)[c] <= 1
  {
    if t != [] {
      assert t == [t[0]] + t[1..];
      CountsOnce(t[1..], c);
      assert c == t[0] ==> c !in t[1..];
    }
  }

  /** Make n depend on parent, in three moves. After the second one n may sit
      below its own kids; the third undoes that. */
  method Reparent(n: Node, parent: Node, exclusive: bool, ghost all: set<Node>)
    requires Links(all) && Acyclic(all) && n in all && parent in all && n != parent
    modifies all`kids, all`parent, all`prev, all`next, all`pos
    ensures Links(all)
    ensures Parents(all) == Reprioritize(old(Parents(all)), n, parent, exclusive)
  {
    hide Links;
    ghost var p := Parents(all);
    var found := DependsOn(parent, n, all);
    if found {
      NotAbove(parent, n, all);
      SetParent(parent, n.parent, all);
    }
    assert Parents(all) == if found then Lift(p, parent, n) else p;
    if exclusive {
      AdoptKids(n, parent, all);
    }
    SetParent(n, parent, all);
  }

  lemma NotAbove(parent: Node, n: Node, all: set<Node>)
    requires Links(all) && Acyclic(all) && n in all && parent in all && n != parent
    requires Reaches(Parents(all), parent, n)
    ensures n.parent != parent && (n.parent != null ==> n.parent in all)
    ensures parent.parent != null
  {
    var p := Parents(all);
    ReachesStep<Node>(p, parent, n);
    if n.parent != null {
      ParentInside(n, all);
      assert HasTop(p, all - p.Keys, n);
      var top :| top in all - p.Keys && Reaches(p, n, top);
      ParentNotBelow<Node>(p, n, top);
    }
  }
}
