/** Nodes of the HTTP/2 priority tree (section 5.3 of RFC 7540): parent pointers
    and intrusive doubly linked lists of siblings. */
module PriorityNode {
  import opened Flow
  import opened Frames
  import opened Forest

  datatype NodeState = Open | Closed | Idle

  class Node {
    const id: uint32
    var bytes: int
    var subtreeBytes: int
    var state: NodeState
    var weight: byte
    var q: seq<FrameWriteRequest>
    var kids: Node?
    var parent: Node?
    var prev: Node?
    var next: Node?
    /** Where the node stands among its siblings: lists are in increasing order. */
    ghost var pos: int

    constructor (id: uint32, weight: byte, state: NodeState)
      ensures this.id == id && this.weight == weight && this.state == state
      ensures bytes == 0 && subtreeBytes == 0 && q == []
      ensures kids == null && parent == null && prev == null && next == null
    {
      this.id, this.weight, this.state := id, weight, state;
      bytes, subtreeBytes, q := 0, 0, [];
      kids, parent, prev, next := null, null, null, null;
      pos := 0;
    }
  }

  /** The pointers at c agree with those of its neighbours. */
  ghost predicate Linked(c: Node, all: set<Node>)
    reads all`kids, all`parent, all`prev, all`next, all`pos
    requires c in all
  {
    && (c.kids != null ==> c.kids in all && c.kids.parent == c && c.kids.prev == null)
    && (c.parent == null ==> c.prev == null && c.next == null)
    && (c.parent != null ==> c.parent in all && c.parent.kids != null && (c.prev == null ==> c.parent.kids == c))
    && (c.prev != null ==>
          c.prev in all && c.prev.next == c && c.prev.parent == c.parent && c.prev.pos < c.pos)
    && (c.next != null ==>
          c.next in all && c.next.prev == c && c.next.parent == c.parent && c.pos < c.next.pos)
  }

  /** Of two siblings the one with the smaller position comes first, and the
      chains between them skip neither. */
  ghost predicate Ordered(c: Node, d: Node, all: set<Node>)
    reads all`parent, all`prev, all`next, all`pos
    requires c in all && d in all
  {
    c.parent != null && c.parent == d.parent && c != d ==>
      && c.pos != d.pos
      && (c.pos < d.pos ==>
            && c.next != null && c.next in all && c.next.pos <= d.pos
            && d.prev != null && d.prev in all && c.pos <= d.prev.pos)
  }

  /** The kids list of every node is exactly the nodes whose parent it is. */
  ghost predicate Links(all: set<Node>)
    reads all`kids, all`parent, all`prev, all`next, all`pos
  {
    && (forall c {:trigger Linked(c, all)} :: c in all ==> Linked(c, all))
    && (forall c, d {:trigger Ordered(c, d, all)} :: c in all && d in all ==> Ordered(c, d, all))
  }

  /** The parent pointers as a map. */
  ghost function Parents(all: set<Node>): (p: map<Node, Node>)
    reads all`parent
    ensures p.Keys <= all
  {
    map c | c in all && c.parent != null :: c.parent
  }

  ghost function BytesOf(all: set<Node>): map<Node, int>
    reads all`bytes
  {
    map n | n in all :: n.bytes
  }

  ghost function CountersOf(all: set<Node>): map<Node, int>
    reads all`subtreeBytes
  {
    map n | n in all :: n.subtreeBytes
  }

  /** The pointer writes that take n out of its list. */
  method CutOut(n: Node, ghost all: set<Node>)
    requires n in all && n.parent != null && Linked(n, all)
    modifies all`kids, all`prev, all`next, n`parent
    ensures n.parent == null
    ensures forall c :: c in all ==>
              c.kids == (if c == old(n.parent) && old(n.prev) == null then old(n.next) else old(c.kids))
    ensures forall c :: c in all ==>
              c.next == (if c == n then null else if c == old(n.prev) then old(n.next) else old(c.next))
    ensures forall c :: c in all ==>
              c.prev == (if c == n then null else if c == old(n.next) then old(n.prev) else old(c.prev))
  {
    if n.prev == null {
      n.parent.kids := n.next;
    } else {
      n.prev.next := n.next;
    }
    if n.next != null {
      n.next.prev := n.prev;
    }
    n.parent := null;
    n.next := null;
    n.prev := null;
  }

  /** Take n out of the list of its parent. */
  method Unlink(n: Node, ghost all: set<Node>)
    requires Links(all) && n in all && n.parent != null
    modifies all`kids, all`prev, all`next, n`parent
    ensures Links(all)
    ensures n.parent == null
  {
    assert Linked(n, all);
    CutOut(n, all);
    forall c | c in all ensures Linked(c, all) {
      assert old(Linked(c, all));
      assert old(n.prev != null ==> Linked(n.prev, all));
      assert old(n.next != null ==> Linked(n.next, all));
      assert old(Ordered(c, n, all) && Ordered(n, c, all));
    }
    forall c, d | c in all && d in all ensures Ordered(c, d, all) {
      assert old(Ordered(c, d, all));
      assert old(Ordered(n, d, all));
      assert old(Ordered(c, n, all));
      assert Linked(c, all) && Linked(d, all);
    }
  }

  /** The pointer writes that put n before the kids of p. */
  method PutFirst(n: Node, p: Node, ghost all: set<Node>)
    requires n in all && p in all && n != p && n.parent == null && Linked(p, all)
    modifies p`kids, n`parent, n`next, n`prev, n`pos, all`prev
    ensures p.kids == n
    ensures n.parent == p && n.prev == null && n.next == old(p.kids)
    ensures n.next != null ==> n.next.prev == n && n.pos < n.next.pos
    ensures forall c :: c in all && c != n && c != n.next ==> c.prev == old(c.prev)
  {
    n.parent := p;
    n.next := p.kids;
    n.prev := null;
    n.pos := if p.kids == null then 0 else p.kids.pos - 1;
    if n.next != null {
      n.next.prev := n;
    }
    p.kids := n;
  }

  /** Put the detached node n at the head of the list of p. */
  method LinkTo(n: Node, p: Node, ghost all: set<Node>)
    requires Links(all) && n in all && p in all && n != p && n.parent == null
    modifies p`kids, n`parent, n`next, n`prev, n`pos, all`prev
    ensures Links(all)
    ensures n.parent == p && p.kids == n
  {
    assert Linked(n, all) && Linked(p, all);
    PutFirst(n, p, all);
    forall c | c in all ensures Linked(c, all) {
      assert old(Linked(c, all));
      assert old(p.kids != null ==> Linked(p.kids, all));
    }
    forall c, d | c in all && d in all ensures Ordered(c, d, all) {
      assert old(Ordered(c, d, all));
      assert old(p.kids != null ==> Ordered(c, p.kids, all));
      assert old(p.kids != null ==> Ordered(d, p.kids, all) && Ordered(p.kids, d, all));
      assert old(Linked(c, all)) && old(Linked(d, all));
      assert Linked(c, all) && Linked(d, all);
    }
  }

  /** Move n to the head of the kids of parent, or detach it if parent is null.
      All other nodes keep their parents and their places. */
  method SetParent(n: Node, parent: Node?, ghost all: set<Node>)
    requires Links(all) && n in all && n != parent && (parent != null ==> parent in all)
    modifies all`kids, all`prev, all`next, n`parent, n`pos
    ensures Links(all)
    ensures n.parent == parent
    ensures Parents(all) == if parent == null then old(Parents(all)) - {n} else old(Parents(all))[n := parent]
    ensures old(n.parent) == parent ==> unchanged(all)
    ensures old(n.parent) != parent && parent != null ==> parent.kids == n
    ensures old(n.parent) == null ==> forall c :: c in all && c != parent ==> c.kids == old(c.kids)
  {
    if n.parent == parent {
      return;
    }
    if n.parent != null {
      Unlink(n, all);
    }
    if parent != null {
      LinkTo(n, parent, all);
    }
  }

  /** A node without links joins without disturbing the others. */
  lemma LinksGrow(all: set<Node>, n: Node)
    requires Links(all) && n !in all
    requires n.kids == null && n.parent == null && n.prev == null && n.next == null
    ensures Links(all + {n})
    ensures Parents(all + {n}) == Parents(all)
    ensures BytesOf(all + {n}) == BytesOf(all)[n := n.bytes]
    ensures CountersOf(all + {n}) == CountersOf(all)[n := n.subtreeBytes]
  {
    forall c | c in all + {n} ensures Linked(c, all + {n}) {
      if c in all {
        assert Linked(c, all);
      }
    }
    forall c, d | c in all + {n} && d in all + {n} ensures Ordered(c, d, all + {n}) {
      if c in all && d in all {
        assert Ordered(c, d, all);
        assert Linked(c, all) && Linked(d, all);
      } else if c in all {
        assert Linked(c, all);
      }
    }
  }

  // ----- walking over a list of siblings -----

  /** The head of a list comes before all others; no head means no kids. */
  lemma FirstKidLeast(p: Node, c: Node, all: set<Node>)
    requires Links(all) && p in all && c in all && c.parent == p
    ensures p.kids != null && p.kids in all && p.kids.parent == p && p.kids.pos <= c.pos
  {
    assert Linked(p, all) && Linked(c, all);
    assert Ordered(c, p.kids, all);
  }

  /** The first kid comes before every other. */
  lemma FirstKidFirst(p: Node, c: Node, all: set<Node>)
    requires Links(all) && p in all && c in all && c.parent == p && p.kids != c
    ensures p.kids != null && p.kids.pos < c.pos
  {
    FirstKidLeast(p, c, all);
    assert Ordered(p.kids, c, all);
  }

  /** Stepping from k to k.next passes k and nothing else. */
  lemma NextSkipsNone(k: Node, c: Node, all: set<Node>)
    requires Links(all) && k in all && c in all && k.parent != null && c.parent == k.parent
    ensures k.next != null ==> k.next in all && k.next.parent == k.parent && k.pos < k.next.pos
    ensures c.pos < k.pos || c == k || (k.next != null && k.next.pos <= c.pos)
  {
    assert Linked(k, all);
    assert Ordered(k, c, all) && Ordered(c, k, all);
  }

  // ----- walking up -----

  ghost predicate Acyclic(all: set<Node>)
    reads all`parent
  {
    Grounded(Parents(all), all, all - Parents(all).Keys)
  }

  lemma ParentInside(n: Node, all: set<Node>)
    requires Links(all) && n in all && n.parent != null
    ensures n.parent in all && n in Parents(all) && Parents(all)[n] == n.parent
  {
    assert Linked(n, all);
  }

  /** n sends b bytes: it and all nodes above it count them. */
  method AddBytes(n: Node, b: int, ghost all: set<Node>)
    requires Links(all) && Acyclic(all) && n in all
    modifies n`bytes, all`subtreeBytes
    ensures n.bytes == old(n.bytes) + b
    ensures forall x :: x in all ==>
              x.subtreeBytes == old(x.subtreeBytes) + (if Reaches(Parents(all), n, x) then b else 0)
  {
    n.bytes := n.bytes + b;
    ghost var p := Parents(all);
    assert HasTop(p, all - p.Keys, n);
    ghost var top :| top in all - p.Keys && Reaches(p, n, top);
    ghost var d: nat :| Path(p, n, top, d);
    var m: Node? := n;
    ReachesSelf<Node>(p, n);
    while m != null
      invariant n.bytes == old(n.bytes) + b
      invariant m != null ==> m in all && Reaches<Node>(p, n, m) && Path<Node>(p, m, top, d)
      invariant forall x :: x in all ==>
                  x.subtreeBytes == old(x.subtreeBytes)
                    + (if Reaches(p, n, x) && !(m != null && Reaches<Node>(p, m, x)) then b else 0)
      decreases if m == null then 0 else d + 1
    {
      ghost var above := m.parent;
      assert Reaches<Node>(p, m, top);
      if above != null {
        ParentInside(m, all);
        ReachesSelf<Node>(p, above);
        ReachesParent<Node>(p, m, above);
        ReachesTrans<Node>(p, n, m, above);
        ParentNotBelow<Node>(p, m, top);
      }
      forall x | x in all
        ensures Reaches<Node>(p, m, x) <==> x == m || (above != null && Reaches<Node>(p, above, x))
        ensures Reaches<Node>(p, m, x) ==> Reaches(p, n, x)
      {
        ReachesStep<Node>(p, m, x);
        if Reaches<Node>(p, m, x) {
          ReachesTrans<Node>(p, n, m, x);
        }
      }
      m.subtreeBytes := m.subtreeBytes + b;
      m := m.parent;
      d := if d > 0 then d - 1 else 0;
    }
  }

  /** Whether n is a proper ancestor of parent. */
  method DependsOn(parent: Node, n: Node, ghost all: set<Node>) returns (found: bool)
    requires Links(all) && Acyclic(all) && n in all && parent in all && n != parent
    ensures found <==> Reaches(Parents(all), parent, n)
  {
    ghost var p := Parents(all);
    assert HasTop(p, all - p.Keys, parent);
    ghost var top :| top in all - p.Keys && Reaches(p, parent, top);
    ghost var d: nat :| Path(p, parent, top, d);
    var x := parent.parent;
    ReachesStep<Node>(p, parent, n);
    if x != null {
      ParentInside(parent, all);
      d := d - 1;
    }
    while x != null
      invariant x != null ==> x in all && Path<Node>(p, x, top, d)
      invariant Reaches(p, parent, n) <==> x != null && Reaches<Node>(p, x, n)
      decreases if x == null then 0 else d + 1
    {
      ReachesStep<Node>(p, x, n);
      if x == n {
        return true;
      }
      if x.parent != null {
        ParentInside(x, all);
        d := d - 1;
      }
      x := x.parent;
    }
    return false;
  }
}
