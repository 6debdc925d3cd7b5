/** The HTTP/2 client's connection pool: which connections serve a key, and which
    keys a connection serves. */
module ClientPool {
  import opened Common

  /** A connection, by identity. */
  type ClientConn = nat

  datatype Slot = Nil | Ref(conn: ClientConn)

  type Key = string

  function Filtered(s: seq<ClientConn>, cc: ClientConn): (r: seq<ClientConn>)
    ensures forall c :: c in r <==> c in s && c != cc
  {
    if s == [] then [] else (if s[0] == cc then [] else [s[0]]) + Filtered(s[1..], cc)
  }

  lemma {:induction false} FilteredKeeps(s: seq<ClientConn>, cc: ClientConn)
    ensures Distinct(s) ==> Distinct(Filtered(s, cc))
    ensures cc !in s ==> Filtered(s, cc) == s
  {
    if s != [] {
      FilteredKeeps(s[1..], cc);
      assert s == [s[0]] + s[1..];
      assert Filtered(s, cc) == (if s[0] == cc then [] else [s[0]]) + Filtered(s[1..], cc);
      if Distinct(s) {
        assert s[0] !in s[1..] && Distinct(s[1..]);
      }
    }
  }

  lemma {:induction false} FilteredSnoc(s: seq<ClientConn>, c: ClientConn, cc: ClientConn)
    ensures Filtered(s + [c], cc) == Filtered(s, cc) + if c == cc then [] else [c]
  {
    if s == [] {
      assert s + [c] == [c] && Filtered([c], cc) == (if c == cc then [] else [c]) + Filtered([], cc);
    } else {
      assert (s + [c])[1..] == s[1..] + [c];
      FilteredSnoc(s[1..], c, cc);
    }
  }

  /** Filters the first n slots of an array into its own front. */
  method FilterOut(a: array<Slot>, n: nat, ghost list: seq<ClientConn>, exclude: ClientConn) returns (m: nat)
    requires n <= a.Length && |list| == n && forall i :: 0 <= i < n ==> a[i] == Ref(list[i])
    modifies a
    ensures m == |Filtered(list, exclude)| <= n
    ensures forall i :: 0 <= i < m ==> a[i] == Ref(Filtered(list, exclude)[i])
    ensures m < n ==> a[n - 1] == Nil
    ensures a[n..] == old(a[n..])
  {
    m := 0;
    for i := 0 to n
      invariant m <= i && m == |Filtered(list[..i], exclude)|
      invariant forall k :: 0 <= k < m ==> a[k] == Ref(Filtered(list[..i], exclude)[k])
      invariant forall k :: i <= k < n ==> a[k] == Ref(list[k])
      invariant a[n..] == old(a[n..])
    {
      FilteredSnoc(list[..i], list[i], exclude);
      assert list[..i + 1] == list[..i] + [list[i]];
      if a[i] != Ref(exclude) {
        a[m] := a[i];
        m := m + 1;
      }
    }
    assert list[..n] == list;
    if m != n {
      a[n - 1] := Nil;
    }
  }

  /** A list as the array behind it, filtered in place and read off again. */
  method FilterList(list: seq<ClientConn>, exclude: ClientConn) returns (r: seq<ClientConn>)
    ensures r == Filtered(list, exclude)
  {
    var a := new Slot[|list|](i requires 0 <= i < |list| => Ref(list[i]));
    var m := FilterOut(a, |list|, list, exclude);
    hide Filtered;
    r := [];
    for i := 0 to m
      invariant |r| == i && r == Filtered(list, exclude)[..i]
    {
      r := r + [a[i].conn];
    }
  }

  function At<K, V>(m: map<K, seq<V>>, k: K): seq<V> {
    if k in m then m[k] else []
  }

  ghost predicate Inverse(conns: map<Key, seq<ClientConn>>, keys: map<ClientConn, seq<Key>>, key: Key, cc: ClientConn) {
    cc in At(conns, key) <==> key in At(keys, cc)
  }

  ghost predicate NoEmpty(conns: map<Key, seq<ClientConn>>) {
    forall key :: key in conns ==> conns[key] != []
  }

  ghost predicate Paired(conns: map<Key, seq<ClientConn>>, keys: map<ClientConn, seq<Key>>) {
    && (forall key, cc :: Inverse(conns, keys, key, cc))
    && NoEmpty(conns)
    && (forall key :: Distinct(At(conns, key)))
    && (forall cc :: cc in keys ==> keys[cc] != [] && Distinct(keys[cc]))
  }

  /** Dropping a connection from the lists of its keys drops it everywhere. */
  lemma Unlisted(conns: map<Key, seq<ClientConn>>, keys: map<ClientConn, seq<Key>>, conns': map<Key, seq<ClientConn>>,
                 cc: ClientConn)
    requires Paired(conns, keys) && NoEmpty(conns')
    requires forall key :: At(conns', key) == if key in At(keys, cc) then Filtered(At(conns, key), cc)
             else At(conns, key)
    ensures forall key :: At(conns', key) == Filtered(At(conns, key), cc)
    ensures Paired(conns', keys - {cc})
  {
    forall key ensures At(conns', key) == Filtered(At(conns, key), cc) && Distinct(At(conns', key)) {
      assert Inverse(conns, keys, key, cc);
      FilteredKeeps(At(conns, key), cc);
    }
    forall k, c ensures Inverse(conns', keys - {cc}, k, c) {
      assert Inverse(conns, keys, k, c);
      assert At(conns', k) == Filtered(At(conns, k), cc);
    }
  }

  /** Adding a connection to a list and the key to the connection's list. */
  lemma Listed(conns: map<Key, seq<ClientConn>>, keys: map<ClientConn, seq<Key>>, key: Key, cc: ClientConn)
    requires Paired(conns, keys) && cc !in At(conns, key)
    ensures Paired(conns[key := At(conns, key) + [cc]], keys[cc := At(keys, cc) + [key]])
  {
    var conns', keys' := conns[key := At(conns, key) + [cc]], keys[cc := At(keys, cc) + [key]];
    assert Inverse(conns, keys, key, cc);
    forall k, c ensures Inverse(conns', keys', k, c) {
      assert Inverse(conns, keys, k, c);
    }
    forall k ensures Distinct(At(conns', k)) {
      assert Distinct(At(conns, k));
    }
  }

  class Pool {
    var conns: map<Key, seq<ClientConn>>
    var keys: map<ClientConn, seq<Key>>

    /** The two maps are inverse to each other, without repetitions and without
        empty lists. */
    ghost predicate Valid()
      reads this
    {
      Paired(conns, keys)
    }

    constructor ()
      ensures Valid() && conns == map[] && keys == map[]
    {
      conns, keys := map[], map[];
    }

    /** Adds a connection under a key, once. */
    method AddConn(key: Key, cc: ClientConn)
      requires Valid()
      modifies this
      ensures Valid()
      ensures At(conns, key) == if cc in old(At(conns, key)) then old(At(conns, key)) else old(At(conns, key)) + [cc]
      ensures forall k :: k != key ==> At(conns, k) == old(At(conns, k))
    {
      if cc in At(conns, key) {
        return;
      }
      Listed(conns, keys, key, cc);
      conns := conns[key := At(conns, key) + [cc]];
      keys := keys[cc := At(keys, cc) + [key]];
    }

    /** Removes a connection from one list, and the list once it is empty. */
    method DropFrom(key: Key, cc: ClientConn)
      requires NoEmpty(conns)
      modifies this`conns
      ensures NoEmpty(conns)
      ensures forall k :: At(conns, k) == if k == key then Filtered(old(At(conns, k)), cc) else old(At(conns, k))
    {
      if key in conns {
        var newList := FilterList(conns[key], cc);
        if newList != [] {
          conns := conns[key := newList];
        } else {
          conns := conns - {key};
        }
      }
    }

    /** Removes a connection from every list it is in. */
    method MarkDead(cc: ClientConn)
      requires Valid()
      modifies this
      ensures Valid() && cc !in keys
      ensures forall key :: At(conns, key) == Filtered(old(At(conns, key)), cc)
      ensures forall c :: c != cc ==> At(keys, c) == old(At(keys, c))
    {
      var list := At(keys, cc);
      assert Distinct(list);
      ghost var done: set<Key> := {};
      for i := 0 to |list|
        invariant keys == old(keys) && NoEmpty(conns)
        invariant forall j :: 0 <= j < |list| ==> (list[j] in done <==> j < i)
        invariant forall key :: key in done ==> key in list
        invariant forall key :: At(conns, key) == if key in done then Filtered(old(At(conns, key)), cc)
                  else old(At(conns, key))
      {
        hide At, Filtered;
        DropFrom(list[i], cc);
        done := done + {list[i]};
      }
      assert forall key :: key in done <==> key in list;
      keys := keys - {cc};
      Unlisted(old(conns), old(keys), conns, cc);
    }

    method Apply(op: Op)
      requires Valid()
      modifies this
      ensures Valid()
      ensures forall key :: At(conns, key) == Served(old(At(conns, key)), key, op)
    {
      match op {
        case Add(key, cc) => AddConn(key, cc);
        case Dead(cc) => MarkDead(cc);
      }
    }

    /** Any sequence of additions and deaths: the maps stay inverse, and a key's list
        holds exactly the connections that were added under it, or were there before,
        and have not died since. */
    method Run(ops: seq<Op>)
      requires Valid()
      modifies this
      ensures Valid()
      ensures forall key, cc :: cc in At(conns, key) <==> Serves(old(At(conns, key)), ops, key, cc)
      ensures forall key :: At(conns, key) == ServedAll(old(At(conns, key)), key, ops)
    {
      hide Valid, At, Served;
      for i := 0 to |ops|
        invariant Valid()
        invariant forall key :: At(conns, key) == ServedAll(old(At(conns, key)), key, ops[..i])
      {
        Apply(ops[i]);
        assert ops[..i + 1][..i] == ops[..i];
      }
      assert ops[..|ops|] == ops;
      forall key, cc ensures cc in At(conns, key) <==> Serves(old(At(conns, key)), ops, key, cc) {
        ServedMeans(old(At(conns, key)), key, ops, cc);
      }
    }
  }

  datatype Op = Add(key: Key, cc: ClientConn) | Dead(cc: ClientConn)

  /** The list of a key after one operation. */
  ghost function Served(list: seq<ClientConn>, key: Key, op: Op): seq<ClientConn> {
    match op
    case Add(k, cc) => if k != key || cc in list then list else list + [cc]
    case Dead(cc) => Filtered(list, cc)
  }

  ghost function ServedAll(list: seq<ClientConn>, key: Key, ops: seq<Op>): seq<ClientConn> {
    if ops == [] then list else Served(ServedAll(list, key, ops[..|ops| - 1]), key, ops[|ops| - 1])
  }

  /** Read backwards, the addition comes before the death. */
  ghost predicate Serves(list: seq<ClientConn>, ops: seq<Op>, key: Key, cc: ClientConn) {
    if ops == [] then cc in list
    else ops[|ops| - 1] == Add(key, cc) || (ops[|ops| - 1] != Dead(cc) && Serves(list, ops[..|ops| - 1], key, cc))
  }

  lemma {:induction false} ServedMeans(list: seq<ClientConn>, key: Key, ops: seq<Op>, cc: ClientConn)
    ensures cc in ServedAll(list, key, ops) <==> Serves(list, ops, key, cc)
  {
    if ops != [] {
      ServedMeans(list, key, ops[..|ops| - 1], cc);
    }
  }
}
