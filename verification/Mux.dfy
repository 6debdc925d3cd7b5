/** The request multiplexer: a map of patterns and, for subtree patterns, a list
    kept from longest to shortest. */
module Mux {

  datatype Entry = Entry(handler: nat, pattern: string)
  datatype Match = NoMatch | Found(handler: nat, pattern: string)

  /** A pattern that stands for everything below it. */
  predicate Subtree(pattern: string) {
    pattern != "" && pattern[|pattern| - 1] == '/'
  }

  predicate HasPrefix(path: string, pattern: string) {
    pattern <= path
  }

  ghost predicate Descending(es: seq<Entry>) {
    forall i, j :: 0 <= i < j < |es| ==> |es[i].pattern| >= |es[j].pattern|
  }

  /** Go's binary search for the first shorter entry. */
  method Search(es: seq<Entry>, n: nat) returns (at: nat)
    requires Descending(es)
    ensures at <= |es|
    ensures forall k :: 0 <= k < at ==> |es[k].pattern| >= n
    ensures forall k :: at <= k < |es| ==> |es[k].pattern| < n
  {
    var i, j := 0, |es|;
    while i < j
      invariant 0 <= i <= j <= |es|
      invariant forall k :: 0 <= k < i ==> |es[k].pattern| >= n
      invariant forall k :: j <= k < |es| ==> |es[k].pattern| < n
    {
      var h := (i + j) / 2;
      if |es[h].pattern| >= n {
        i := h + 1;
      } else {
        j := h;
      }
    }
    return i;
  }

  /** Inserts behind the entries that are at least as long. */
  method AppendSorted(es: seq<Entry>, e: Entry) returns (r: seq<Entry>)
    requires Descending(es)
    ensures Descending(r) && |r| == |es| + 1
    ensures forall x :: x in r <==> x == e || x in es
  {
    var i := Search(es, |e.pattern|);
    r := es[..i] + [e] + es[i..];
    assert es == es[..i] + es[i..];
    forall a, b | 0 <= a < b < |r| ensures |r[a].pattern| >= |r[b].pattern| {
      if a > i {
        assert r[a] == es[a - 1] && r[b] == es[b - 1];
      }
    }
  }

  /** A registered pattern that covers a path without being it. */
  ghost predicate Covers(m: map<string, Entry>, pattern: string, path: string) {
    && pattern in m && 0 < |pattern| <= |path|
    && pattern[|pattern| - 1] == '/' && path[..|pattern|] == pattern
  }

  /** What the documentation promises: the most specific pattern wins. */
  ghost predicate Best(m: map<string, Entry>, path: string, r: Match) {
    if path in m then r == Found(m[path].handler, path)
    else if r.NoMatch? then forall p :: !Covers(m, p, path)
    else
      && Covers(m, r.pattern, path)
      && r.handler == m[r.pattern].handler
      && forall p :: Covers(m, p, path) ==> |p| <= |r.pattern|
  }

  /** There is one best match, whatever the order of registration. */
  lemma BestUnique(m: map<string, Entry>, path: string, a: Match, b: Match)
    requires Best(m, path, a) && Best(m, path, b)
    ensures a == b
  {
    if path !in m && a.Found? && b.Found? {
      assert |a.pattern| == |b.pattern|;
      assert a.pattern == path[..|a.pattern|] && b.pattern == path[..|b.pattern|];
    }
  }

  class ServeMux {
    var m: map<string, Entry>
    var es: seq<Entry>
    var hosts: bool

    ghost predicate Valid()
      reads this
    {
      && (forall p :: p in m ==> p != "" && m[p].pattern == p)
      && Descending(es)
      && (forall e :: e in es <==> Subtree(e.pattern) && e.pattern in m && m[e.pattern] == e)
    }

    constructor ()
      ensures Valid() && m == map[]
    {
      m, es, hosts := map[], [], false;
    }

    /** Registers a handler; an empty or known pattern is refused. */
    method Handle(pattern: string, handler: nat) returns (ok: bool)
      requires Valid()
      modifies this
      ensures Valid() && (ok <==> pattern != "" && pattern !in old(m))
      ensures m == if ok then old(m)[pattern := Entry(handler, pattern)] else old(m)
      ensures hosts == (old(hosts) || (ok && pattern[0] != '/'))
    {
      if pattern == "" || pattern in m {
        return false;
      }
      var e := Entry(handler, pattern);
      m := m[pattern := e];
      if Subtree(pattern) {
        es := AppendSorted(es, e);
      }
      if pattern[0] != '/' {
        hosts := true;
      }
      return true;
    }

    /** The exact pattern if registered, else the longest subtree pattern above the
        path, else nothing. */
    method Lookup(path: string) returns (r: Match)
      requires Valid()
      ensures Best(m, path, r)
    {
      if path in m {
        return Found(m[path].handler, m[path].pattern);
      }
      for i := 0 to |es|
        invariant forall j :: 0 <= j < i ==> !HasPrefix(path, es[j].pattern)
      {
        if HasPrefix(path, es[i].pattern) {
          assert es[i] in es;
          forall p | Covers(m, p, path) ensures |p| <= |es[i].pattern| {
            assert m[p] in es;
          }
          return Found(es[i].handler, es[i].pattern);
        }
      }
      forall p | p in m && Subtree(p) ensures !HasPrefix(path, p) {
        assert m[p] in es;
      }
      return NoMatch;
    }
  }
}
