/** Ordered headers: sorting a header's entries by a caller's order, with pooled
    sorters whose caches outlive the sort they were made for. */
module HeaderOrder {
  import opened Common

  type Header = map<string, seq<string>>
  datatype KeyValues = KeyValues(key: string, values: seq<string>)

  /** Go's comparison of strings. */
  predicate LexLess(a: string, b: string) {
    b != "" && (a == "" || a[0] < b[0] || (a[0] == b[0] && LexLess(a[1..], b[1..])))
  }

  lemma {:induction false} LexTotal(a: string, b: string)
    ensures LexLess(a, b) || LexLess(b, a) <==> a != b
    ensures !(LexLess(a, b) && LexLess(b, a))
  {
    if a != "" && b != "" {
      LexTotal(a[1..], b[1..]);
      assert a == [a[0]] + a[1..] && b == [b[0]] + b[1..];
    }
  }

  lemma {:induction false} LexTrans(a: string, b: string, c: string)
    requires LexLess(a, b) && LexLess(b, c)
    ensures LexLess(a, c)
  {
    if a != "" && a[0] == b[0] == c[0] {
      LexTrans(a[1..], b[1..], c[1..]);
    }
  }

  /** The first difference decides, and a proper prefix comes first. */
  ghost predicate Precedes(a: string, b: string) {
    a < b || exists i :: 0 <= i < |a| && i < |b| && Differ(a, b, i) && a[i] < b[i]
  }

  ghost predicate Differ(a: string, b: string, i: nat)
    requires i < |a| && i < |b|
  {
    a[..i] == b[..i] && a[i] != b[i]
  }

  lemma {:induction false} LexMeans(a: string, b: string)
    ensures LexLess(a, b) <==> Precedes(a, b)
  {
    if a != "" && b != "" {
      var a1, b1 := a[1..], b[1..];
      LexMeans(a1, b1);
      if a[0] != b[0] {
        assert Differ(a, b, 0);
      } else {
        assert a < b <==> a1 < b1 by {
          assert a == [a[0]] + a1 && b == [b[0]] + b1;
        }
        forall i | 0 <= i < |a1| && i < |b1| ensures Differ(a1, b1, i) <==> Differ(a, b, i + 1) {
          assert a[..i + 1] == [a[0]] + a1[..i] && b[..i + 1] == [b[0]] + b1[..i];
          assert a[1..i + 1] == a1[..i] && b[1..i + 1] == b1[..i];
        }
        forall i | 0 <= i < |a| && i < |b| && Differ(a, b, i) ensures i > 0 && Differ(a1, b1, i - 1) {
          assert a[..i][..1] == [a[0]];
        }
      }
    }
  }

  const UPPER := "ABCDEFGHIJKLMNOPQRSTUVWXYZ"
  const LOWER := "abcdefghijklmnopqrstuvwxyz"

  function LowerByte(c: char): char {
    if 'A' <= c <= 'Z' then c + 32 as char else c
  }

  function ToLower(s: string): string {
    seq(|s|, i requires 0 <= i < |s| => LowerByte(s[i]))
  }

  /** Letter by letter; all other bytes stay. */
  lemma LowerMeans(s: string, i: nat)
    requires i < |s|
    ensures |ToLower(s)| == |s| && (s[i] !in UPPER ==> ToLower(s)[i] == s[i])
    ensures forall k :: 0 <= k < 26 && s[i] == UPPER[k] ==> ToLower(s)[i] == LOWER[k]
  {
    assert UPPER[0] == 'A' && UPPER[25] == 'Z' && |UPPER| == 26 && |LOWER| == 26;
    assert forall k {:trigger UPPER[k]} :: 0 <= k < 26 ==> UPPER[k] as int == 'A' as int + k;
    assert forall k {:trigger LOWER[k]} :: 0 <= k < 26 ==> LOWER[k] as int == 'a' as int + k;
    if 'A' <= s[i] <= 'Z' {
      assert UPPER[s[i] as int - 'A' as int] == s[i];
    }
  }

  type Order = Option<map<string, int>>

  /** The caller's position for a key; keys are listed in lower case. */
  function Position(order: Order, key: string): Option<int> {
    if order.Some? && ToLower(key) in order.value then Some(order.value[ToLower(key)]) else None
  }

  /** Listed keys come first, by position; the rest come in byte order. */
  predicate Before(order: Order, a: string, b: string) {
    var p, q := Position(order, a), Position(order, b);
    if p.None? && q.None? then LexLess(a, b)
    else if p.None? || q.None? then p.Some?
    else p.value < q.value
  }

  predicate NotAfter(order: Order, a: string, b: string) {
    !Before(order, b, a)
  }

  lemma NotAfterTrans(order: Order, a: string, b: string, c: string)
    requires NotAfter(order, a, b) && NotAfter(order, b, c)
    ensures NotAfter(order, a, c)
  {
    hide LexLess, ToLower;
    LexTotal(a, b);
    LexTotal(b, c);
    LexTotal(a, c);
    if LexLess(a, b) && LexLess(b, c) {
      LexTrans(a, b, c);
    }
  }

  lemma NotAfterTotal(order: Order, a: string, b: string)
    ensures NotAfter(order, a, b) || NotAfter(order, b, a)
  {
    if Before(order, b, a) {
      BeforeStrict(order, b, a);
    }
  }

  lemma BeforeStrict(order: Order, a: string, b: string)
    requires Before(order, a, b)
    ensures NotAfter(order, a, b)
  {
    hide LexLess, ToLower;
    LexTotal(a, b);
  }

  ghost predicate Sorted(order: Order, kvs: seq<KeyValues>) {
    forall i, j :: 0 <= i < j < |kvs| ==> NotAfter(order, kvs[i].key, kvs[j].key)
  }

  /** The listed keys of a sorted list are in front, by position, and the others
      follow in byte order. */
  lemma SortedLayout(order: Order, kvs: seq<KeyValues>, i: nat, j: nat)
    requires Sorted(order, kvs) && i < j < |kvs|
    ensures var p, q := Position(order, kvs[i].key), Position(order, kvs[j].key);
            && (q.Some? ==> p.Some? && p.value <= q.value)
            && (p.None? ==> q.None? && (kvs[i].key == kvs[j].key || Precedes(kvs[i].key, kvs[j].key)))
  {
    assert NotAfter(order, kvs[i].key, kvs[j].key);
    hide LexLess, ToLower, Precedes;
    LexTotal(kvs[i].key, kvs[j].key);
    LexMeans(kvs[i].key, kvs[j].key);
  }

  ghost predicate InByteOrder(kvs: seq<KeyValues>) {
    forall i, j :: 0 <= i < j < |kvs| ==> Precedes(kvs[i].key, kvs[j].key)
  }

  lemma SortedInByteOrder(kvs: seq<KeyValues>, h: Header, exclude: set<string>)
    requires Sorted(None, kvs) && Holds(kvs, h, exclude)
    ensures InByteOrder(kvs)
  {
    hide Sorted, Precedes;
    forall i, j | 0 <= i < j < |kvs| ensures Precedes(kvs[i].key, kvs[j].key) {
      SortedLayout(None, kvs, i, j);
    }
  }

  /** Exactly the entries that were not excluded, each once. */
  ghost predicate Holds(kvs: seq<KeyValues>, h: Header, exclude: set<string>) {
    && (forall i :: 0 <= i < |kvs| ==> kvs[i].key in h && kvs[i].key !in exclude && kvs[i].values == h[kvs[i].key])
    && (forall i, j :: 0 <= i < j < |kvs| ==> kvs[i].key != kvs[j].key)
    && (forall k :: k in h && k !in exclude ==> exists i :: 0 <= i < |kvs| && kvs[i].key == k)
  }

  lemma HoldsSwap(kvs: seq<KeyValues>, h: Header, exclude: set<string>, a: nat, b: nat)
    requires Holds(kvs, h, exclude) && a < |kvs| && b < |kvs|
    ensures Holds(kvs[a := kvs[b]][b := kvs[a]], h, exclude)
  {
    var s := kvs[a := kvs[b]][b := kvs[a]];
    forall k | k in h && k !in exclude ensures exists i :: 0 <= i < |s| && s[i].key == k {
      var i :| 0 <= i < |kvs| && kvs[i].key == k;
      var at := if i == a then b else if i == b then a else i;
      assert s[at].key == k;
    }
  }

  class Sorter {
    var kvs: seq<KeyValues>
    var order: Order
    var orderIdx: seq<int>
    var orderOK: seq<bool>
    /** How far the two caches can be extended without being made anew. */
    var idxCap: nat
    var okCap: nat

    constructor ()
      ensures Made()
    {
      kvs, order, orderIdx, orderOK, idxCap, okCap := [], None, [], [], 0, 0;
    }

    /** The caches are made together, so one capacity stands for both. */
    ghost predicate Made()
      reads this
    {
      |orderIdx| <= idxCap && |orderOK| <= okCap && idxCap == okCap
    }

    /** The caches say what looking each key up would say. */
    ghost predicate Cached()
      reads this
    {
      && Made()
      && (order.Some? ==>
        && |orderIdx| == |orderOK| == |kvs|
        && forall i :: 0 <= i < |kvs| ==> CachedAt(order, kvs[i], orderIdx[i], orderOK[i]))
    }

    method Swap(i: nat, j: nat)
      requires Cached() && i < |kvs| && j < |kvs|
      modifies this`kvs, this`orderIdx, this`orderOK
      ensures Cached() && kvs == old(kvs)[i := old(kvs)[j]][j := old(kvs)[i]]
    {
      kvs := kvs[i := kvs[j]][j := kvs[i]];
      if order.Some? {
        orderIdx := orderIdx[i := orderIdx[j]][j := orderIdx[i]];
        orderOK := orderOK[i := orderOK[j]][j := orderOK[i]];
      }
    }

    /** Compares by the caches alone, and agrees with the order they stand for. */
    method Less(i: nat, j: nat) returns (less: bool)
      requires Cached() && i < |kvs| && j < |kvs|
      ensures less <==> Before(order, kvs[i].key, kvs[j].key)
    {
      if order.None? {
        return LexLess(kvs[i].key, kvs[j].key);
      }
      assert CachedAt(order, kvs[i], orderIdx[i], orderOK[i]) && CachedAt(order, kvs[j], orderIdx[j], orderOK[j]);
      if !orderOK[i] && !orderOK[j] {
        return LexLess(kvs[i].key, kvs[j].key);
      } else if !orderOK[i] && orderOK[j] {
        return false;
      } else if orderOK[i] && !orderOK[j] {
        return true;
      }
      return orderIdx[i] < orderIdx[j];
    }

    /** Sorts by comparing and swapping only. */
    method Sort(ghost h: Header, ghost exclude: set<string>)
      requires Cached() && Holds(kvs, h, exclude)
      modifies this`kvs, this`orderIdx, this`orderOK
      ensures Cached() && Holds(kvs, h, exclude) && Sorted(order, kvs)
    {
      hide Holds, Cached;
      var n := |kvs|;
      for i := 0 to n
        invariant |kvs| == n && Cached() && Holds(kvs, h, exclude)
        invariant SortedBut(order, kvs, i, -1)
      {
        Sink(i, h, exclude);
      }
    }

    /** Moves the entry at i down to its place among those before it. */
    method Sink(i: nat, ghost h: Header, ghost exclude: set<string>)
      requires Cached() && Holds(kvs, h, exclude) && i < |kvs| && SortedBut(order, kvs, i, -1)
      modifies this`kvs, this`orderIdx, this`orderOK
      ensures |kvs| == |old(kvs)| && Cached() && Holds(kvs, h, exclude) && SortedBut(order, kvs, i + 1, -1)
    {
      hide Holds, SortedBut, Before, Cached;
      var j := i;
      SortedNext(order, kvs, i);
      while j > 0
        invariant 0 <= j <= i < |kvs| == |old(kvs)| && Cached() && Holds(kvs, h, exclude)
        invariant SortedBut(order, kvs, i + 1, j)
      {
        var less := Less(j, j - 1);
        if !less {
          Settled(order, kvs, i + 1, j);
          return;
        }
        HoldsSwap(kvs, h, exclude, j, j - 1);
        SwappedBut(order, kvs, i + 1, j);
        Swap(j, j - 1);
        j := j - 1;
      }
      SortedFirst(order, kvs, i + 1);
    }

    /** Collects the entries, in whatever order the map yields them. */
    method Collect(h: Header, exclude: set<string>)
      modifies this`kvs
      ensures Holds(kvs, h, exclude)
    {
      kvs := [];
      var todo := h.Keys;
      while todo != {}
        invariant todo <= h.Keys
        invariant forall i :: 0 <= i < |kvs| ==>
                    kvs[i].key in h && kvs[i].key !in exclude && kvs[i].values == h[kvs[i].key]
        invariant forall i :: 0 <= i < |kvs| ==> kvs[i].key !in todo
        invariant forall i, j :: 0 <= i < j < |kvs| ==> kvs[i].key != kvs[j].key
        invariant forall k :: k in h && k !in exclude && k !in todo ==> exists i :: 0 <= i < |kvs| && kvs[i].key == k
        decreases |todo|
      {
        assert (forall k :: k !in todo) ==> todo == {};
        var k :| k in todo;
        todo := todo - {k};
        if k !in exclude {
          ghost var before := kvs;
          kvs := kvs + [KeyValues(k, h[k])];
          assert kvs[|before|].key == k;
          forall k' | k' in h && k' !in exclude && k' !in todo ensures exists i :: 0 <= i < |kvs| && kvs[i].key == k' {
            if k' != k {
              var i :| 0 <= i < |before| && before[i].key == k';
              assert kvs[i].key == k';
            }
          }
        }
      }
    }

    /** Sorting in byte order, on a sorter that may carry anything from an earlier
        use. */
    method SortedKeyValues(h: Header, exclude: set<string>)
      requires Made()
      modifies this
      ensures Made() && order == None && Holds(kvs, h, exclude) && Sorted(None, kvs) && InByteOrder(kvs)
    {
      Collect(h, exclude);
      order := None;
      Sort(h, exclude);
      SortedInByteOrder(kvs, h, exclude);
    }

    /** Sorting by the caller's order: each key is looked up once. */
    method SortedKeyValuesBy(wanted: Order, h: Header, exclude: set<string>)
      requires Made()
      modifies this
      ensures Made() && order == wanted && Cached() && Holds(kvs, h, exclude) && Sorted(wanted, kvs)
    {
      Collect(h, exclude);
      order := wanted;
      hide Holds, Position;
      var n := |kvs|;
      Resize(n);
      for i := 0 to n
        invariant Made() && |orderIdx| == |orderOK| == |kvs| == n && order == wanted && Holds(kvs, h, exclude)
        invariant forall j :: 0 <= j < i ==> CachedAt(order, kvs[j], orderIdx[j], orderOK[j])
      {
        var p := Position(wanted, kvs[i].key);
        orderIdx := orderIdx[i := if p.Some? then p.value else 0];
        orderOK := orderOK[i := p.Some?];
      }
      Sort(h, exclude);
    }

    /** Cuts the caches to length, extends them within their capacity, or replaces them;
        what they hold does not matter. Only one capacity is looked at. */
    method Resize(n: nat)
      requires Made()
      modifies this`orderIdx, this`orderOK, this`idxCap, this`okCap
      ensures Made() && |orderIdx| == |orderOK| == n
    {
      if idxCap < n {
        orderIdx, idxCap := seq(n, _ => 0), n;
        orderOK, okCap := seq(n, _ => false), n;
      }
      orderIdx := Reslice(orderIdx, idxCap, n, 0);
      orderOK := Reslice(orderOK, okCap, n, false);
    }
  }

  /** Go's s[:n], which may uncover old elements, and fails beyond the capacity. */
  function Reslice<T>(s: seq<T>, cap: nat, n: nat, stale: T): (r: seq<T>)
    requires |s| <= cap && n <= cap
    ensures |r| == n && forall i :: 0 <= i < n && i < |s| ==> r[i] == s[i]
  {
    if n <= |s| then s[..n] else s + seq(n - |s|, _ => stale)
  }

  predicate CachedAt(order: Order, kv: KeyValues, idx: int, ok: bool) {
    var p := Position(order, kv.key);
    ok == p.Some? && (ok ==> idx == p.value)
  }

  /** The first n entries are in order, except for what precedes the one at j. */
  ghost predicate SortedBut(order: Order, kvs: seq<KeyValues>, n: nat, j: int) {
    n <= |kvs| && forall a, b :: 0 <= a < b < n && b != j ==> NotAfter(order, kvs[a].key, kvs[b].key)
  }

  lemma SortedNext(order: Order, kvs: seq<KeyValues>, n: nat)
    requires SortedBut(order, kvs, n, -1) && n < |kvs|
    ensures SortedBut(order, kvs, n + 1, n)
  {
  }

  lemma SortedFirst(order: Order, kvs: seq<KeyValues>, n: nat)
    requires SortedBut(order, kvs, n, 0)
    ensures SortedBut(order, kvs, n, -1)
  {
  }

  lemma Settled(order: Order, kvs: seq<KeyValues>, n: nat, j: nat)
    requires SortedBut(order, kvs, n, j) && 0 < j < n && NotAfter(order, kvs[j - 1].key, kvs[j].key)
    ensures SortedBut(order, kvs, n, -1)
  {
    hide NotAfter;
    forall a | 0 <= a < j ensures NotAfter(order, kvs[a].key, kvs[j].key) {
      if a < j - 1 {
        NotAfterTrans(order, kvs[a].key, kvs[j - 1].key, kvs[j].key);
      }
    }
  }

  lemma SwappedBut(order: Order, kvs: seq<KeyValues>, n: nat, j: nat)
    requires SortedBut(order, kvs, n, j) && 0 < j < n && Before(order, kvs[j].key, kvs[j - 1].key)
    ensures SortedBut(order, kvs[j := kvs[j - 1]][j - 1 := kvs[j]], n, j - 1)
  {
    BeforeStrict(order, kvs[j].key, kvs[j - 1].key);
    hide NotAfter, Before;
  }

  // ---------- one result ----------

  /** No two entries compare equal. */
  ghost predicate NoTies(order: Order, h: Header, exclude: set<string>) {
    forall a, b :: Entry(a, h, exclude) && Entry(b, h, exclude) && a != b ==> Before(order, a, b) || Before(order, b, a)
  }

  predicate Entry(k: string, h: Header, exclude: set<string>) {
    k in h && k !in exclude
  }

  /** The caller gave both keys the same place. */
  predicate SamePlace(order: Order, a: string, b: string) {
    Position(order, a).Some? && Position(order, a) == Position(order, b)
  }

  lemma TieExactly(order: Order, a: string, b: string)
    requires a != b
    ensures !Before(order, a, b) && !Before(order, b, a) <==> SamePlace(order, a, b)
  {
    hide LexLess, ToLower;
    LexTotal(a, b);
  }

  /** Entries tie exactly when two of them are listed at one position, as keys that
      differ only in case always are. */
  lemma NoTiesExactly(order: Order, h: Header, exclude: set<string>)
    ensures NoTies(order, h, exclude) <==>
            forall a, b :: Entry(a, h, exclude) && Entry(b, h, exclude) && a != b ==> !SamePlace(order, a, b)
  {
    hide Before, SamePlace;
    forall a: string, b: string | a != b
      ensures !Before(order, a, b) && !Before(order, b, a) <==> SamePlace(order, a, b)
    {
      TieExactly(order, a, b);
    }
  }

  lemma NoTiesInByteOrder(h: Header, exclude: set<string>)
    ensures NoTies(None, h, exclude)
  {
    hide LexLess;
    forall a: string, b: string | a != b ensures Before(None, a, b) || Before(None, b, a) {
      LexTotal(a, b);
    }
  }

  lemma At(kvs: seq<KeyValues>, h: Header, exclude: set<string>, k: string) returns (i: nat)
    requires Holds(kvs, h, exclude) && Entry(k, h, exclude)
    ensures i < |kvs| && kvs[i] == KeyValues(k, h[k])
  {
    i :| i < |kvs| && kvs[i].key == k;
  }

  lemma {:induction false} SamePrefix(order: Order, h: Header, exclude: set<string>, a: seq<KeyValues>,
                                      b: seq<KeyValues>, n: nat)
    requires Holds(a, h, exclude) && Holds(b, h, exclude) && Sorted(order, a) && Sorted(order, b)
             && NoTies(order, h, exclude)
    requires n <= |a| && n <= |b|
    ensures a[..n] == b[..n]
  {
    if n > 0 {
      var m := n - 1;
      SamePrefix(order, h, exclude, a, b, m);
      assert forall i :: 0 <= i < m ==> a[i] == a[..m][i] == b[..m][i] == b[i];
      var x, y := a[m].key, b[m].key;
      var j := At(b, h, exclude, x);
      var k := At(a, h, exclude, y);
      hide Before;
      assert j >= m && (j > m ==> NotAfter(order, y, x));
      assert k >= m && (k > m ==> NotAfter(order, x, y));
      assert x == y;
    }
  }

  /** Neither the map's iteration order nor the sorter's past shows in the result. */
  lemma SortedUnique(order: Order, h: Header, exclude: set<string>, a: seq<KeyValues>, b: seq<KeyValues>)
    requires Holds(a, h, exclude) && Holds(b, h, exclude) && Sorted(order, a) && Sorted(order, b)
             && NoTies(order, h, exclude)
    ensures a == b
  {
    NoLonger(order, h, exclude, a, b);
    NoLonger(order, h, exclude, b, a);
    SamePrefix(order, h, exclude, a, b, |a|);
    assert a[..|a|] == a && b[..|a|] == b;
  }

  lemma NoLonger(order: Order, h: Header, exclude: set<string>, a: seq<KeyValues>, b: seq<KeyValues>)
    requires Holds(a, h, exclude) && Holds(b, h, exclude) && Sorted(order, a) && Sorted(order, b)
             && NoTies(order, h, exclude)
    ensures |a| <= |b|
  {
    if |a| > |b| {
      SamePrefix(order, h, exclude, a, b, |b|);
      var j := At(b, h, exclude, a[|b|].key);
      assert false;
    }
  }

  /** Entries that tie can change places in a sorted list. */
  lemma TiedSwap(order: Order, h: Header, exclude: set<string>, a: seq<KeyValues>, i: nat, j: nat)
    requires Holds(a, h, exclude) && Sorted(order, a) && i < j < |a| && SamePlace(order, a[i].key, a[j].key)
    ensures var b := a[i := a[j]][j := a[i]]; Holds(b, h, exclude) && Sorted(order, b) && b != a
  {
    var b := a[i := a[j]][j := a[i]];
    HoldsSwap(a, h, exclude, i, j);
    assert b[i].key == a[j].key != a[i].key;
    forall x, y | 0 <= x < y < |b| ensures NotAfter(order, b[x].key, b[y].key) {
      SwapNotAfter(order, a, i, j, x, y);
    }
  }

  lemma SwapNotAfter(order: Order, a: seq<KeyValues>, i: nat, j: nat, x: nat, y: nat)
    requires Sorted(order, a) && i < j < |a| && SamePlace(order, a[i].key, a[j].key) && x < y < |a|
    ensures var b := a[i := a[j]][j := a[i]]; NotAfter(order, b[x].key, b[y].key)
  {
    hide LexLess, ToLower;
    assert forall u, v :: 0 <= u < v < |a| ==> NotAfter(order, a[u].key, a[v].key);
  }

  /** A sorted list of the entries is the only one exactly when no two entries tie. */
  lemma UniqueExactly(order: Order, h: Header, exclude: set<string>, a: seq<KeyValues>)
    requires Holds(a, h, exclude) && Sorted(order, a)
    ensures (forall b :: Holds(b, h, exclude) && Sorted(order, b) ==> b == a) <==> NoTies(order, h, exclude)
  {
    hide Holds, Sorted, Before;
    if NoTies(order, h, exclude) {
      forall b | Holds(b, h, exclude) && Sorted(order, b) ensures b == a {
        SortedUnique(order, h, exclude, a, b);
      }
    } else {
      var x, y :| Entry(x, h, exclude) && Entry(y, h, exclude) && x != y && !Before(order, x, y)
        && !Before(order, y, x);
      TieExactly(order, x, y);
      TieExactly(order, y, x);
      var i := At(a, h, exclude, x);
      var j := At(a, h, exclude, y);
      if i < j {
        TiedSwap(order, h, exclude, a, i, j);
      } else {
        TiedSwap(order, h, exclude, a, j, i);
      }
    }
  }
}
