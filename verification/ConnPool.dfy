/** The HTTP/1 connection pool of the transport. Every method that is a step of
    the protocol is one region that runs under a lock; requests, dials, closes
    and timeouts may interleave in any order. */
module ConnPool {
  import opened Common
  import opened PoolModel
  import opened PoolLaws

  // ----- the two-stage queue -----

  /** A queue in two stages: head from headPos on, then tail. */
  datatype WantQueue = WantQueue(head: seq<Want>, headPos: nat, tail: seq<Want>)
  {
    ghost predicate Valid() {
      headPos <= |head|
    }

    /** What the queue holds, first in first. */
    function Items(): seq<Want>
      requires Valid()
    {
      head[headPos..] + tail
    }

    function Len(): (n: int)
      requires Valid()
      ensures n == |Items()|
    {
      |head| - headPos + |tail|
    }

    function PushBack(w: Want): (q: WantQueue)
      requires Valid()
      ensures q.Valid() && q.Items() == Items() + [w]
    {
      var q := this.(tail := tail + [w]);
      assert q.Items() == Items() + [w];
      q
    }

    /** Take the front, if any; a used-up first stage is replaced by the second. */
    function PopFront(): (r: (WantQueue, Front))
      requires Valid()
      ensures r.0.Valid()
      ensures Items() == [] ==> r == (this, Nobody)
      ensures Items() != [] ==> r.1.First? && [r.1.want] + r.0.Items() == Items()
    {
      if headPos >= |head| then
        assert Items() == tail;
        if |tail| == 0 then (this, Nobody) else (WantQueue(tail, 1, []), First(tail[0]))
      else
        (this.(headPos := headPos + 1), First(head[headPos]))
    }

    function PeekFront(): (f: Front)
      requires Valid()
      ensures f == if Items() == [] then Nobody else First(Items()[0])
    {
      if headPos < |head| then First(head[headPos])
      else if |tail| > 0 then First(tail[0])
      else Nobody
    }
  }

  datatype Front = Nobody | First(want: Want)

  const EMPTY: WantQueue := WantQueue([], 0, [])

  lemma EmptyQueue()
    ensures EMPTY.Valid() && EMPTY.Items() == []
  {
  }

  // ----- counting -----

  ghost function WantsAt(s: set<Want>, wantKey: map<Want, Key>, k: Key): set<Want> {
    set w | w in s && w in wantKey && wantKey[w] == k
  }

  ghost function OpenAt(connKey: map<Conn, Key>, closed: set<Conn>, k: Key): set<Conn> {
    set c | c in connKey && connKey[c] == k && c !in closed
  }

  lemma WantsAdd(s: set<Want>, wantKey: map<Want, Key>, w: Want, k: Key)
    requires w in wantKey && w !in s
    ensures |WantsAt(s + {w}, wantKey, k)| == |WantsAt(s, wantKey, k)| + (if wantKey[w] == k then 1 else 0)
  {
    assert WantsAt(s + {w}, wantKey, k) == WantsAt(s, wantKey, k) + (if wantKey[w] == k then {w} else {});
  }

  lemma WantsRemove(s: set<Want>, wantKey: map<Want, Key>, w: Want, k: Key)
    requires w in wantKey && w in s
    ensures |WantsAt(s - {w}, wantKey, k)| == |WantsAt(s, wantKey, k)| - (if wantKey[w] == k then 1 else 0)
  {
    WantsAdd(s - {w}, wantKey, w, k);
    assert s - {w} + {w} == s;
  }

  lemma OpenAdd(connKey: map<Conn, Key>, closed: set<Conn>, c: Conn, at: Key, k: Key)
    requires c !in connKey && c !in closed
    ensures |OpenAt(connKey[c := at], closed, k)| == |OpenAt(connKey, closed, k)| + (if at == k then 1 else 0)
  {
    assert OpenAt(connKey[c := at], closed, k) == OpenAt(connKey, closed, k) + (if at == k then {c} else {});
  }

  lemma OpenClose(connKey: map<Conn, Key>, closed: set<Conn>, c: Conn, k: Key)
    requires c in connKey && c !in closed
    ensures |OpenAt(connKey, closed + {c}, k)| == |OpenAt(connKey, closed, k)| - (if connKey[c] == k then 1 else 0)
  {
    assert OpenAt(connKey, closed, k) == OpenAt(connKey, closed + {c}, k) + (if connKey[c] == k then {c} else {});
  }

  predicate Has(s: seq<nat>, x: nat) {
    x in s
  }

  lemma {:induction false} WithoutFacts(s: seq<nat>, x: nat)
    requires Distinct(s)
    ensures Distinct(Without(s, x))
    ensures forall y :: Has(Without(s, x), y) <==> Has(s, y) && y != x
    ensures !Has(s, x) ==> Without(s, x) == s
    ensures Has(s, x) ==> |Without(s, x)| == |s| - 1
  {
    if i :| 0 <= i < |s| && s[i] == x {
      WithoutAt(s, i);
      hide Without;
      var t := s[..i] + s[i + 1..];
      forall y ensures Has(t, y) <==> Has(s, y) && y != x {
        if y in s && y != x {
          var j :| 0 <= j < |s| && s[j] == y;
          assert y == t[if j < i then j else j - 1];
        }
      }
    } else {
      WithoutNone(s, x);
    }
  }

  lemma {:induction false} WithoutNone(s: seq<nat>, x: nat)
    requires x !in s
    ensures Without(s, x) == s
  {
    if s != [] {
      WithoutNone(s[1..], x);
    }
  }

  lemma {:induction false} WithoutAt(s: seq<nat>, i: nat)
    requires i < |s| && Distinct(s)
    ensures Without(s, s[i]) == s[..i] + s[i + 1..]
  {
    if i > 0 {
      WithoutAt(s[1..], i - 1);
    }
  }

  // ----- the transport -----

  function IdleAt(idleConn: map<Key, seq<Conn>>, k: Key): seq<Conn> {
    if k in idleConn then idleConn[k] else []
  }

  ghost predicate SlotsOk(idleConn: map<Key, seq<Conn>>, lru: seq<Conn>, owner: map<Conn, Owner>,
                          connKey: map<Conn, Key>, max: int) {
    && owner.Keys == connKey.Keys
    && (forall k :: Distinct(IdleAt(idleConn, k)) && (IdleAt(idleConn, k) != [] ==> |IdleAt(idleConn, k)| <= max))
    && (forall k, c :: Has(IdleAt(idleConn, k), c) <==> c in owner && owner[c].Idle? && connKey[c] == k)
    && Distinct(lru)
    && (forall c :: Has(lru, c) <==> c in owner && InPool(owner[c]))
  }

  lemma SlotsFacts(idleConn: map<Key, seq<Conn>>, lru: seq<Conn>, owner: map<Conn, Owner>, connKey: map<Conn, Key>,
                   max: int, c: Conn)
    requires SlotsOk(idleConn, lru, owner, connKey, max) && c in owner
    ensures c in connKey && Distinct(IdleAt(idleConn, connKey[c])) && Distinct(lru)
    ensures Has(lru, c) <==> InPool(owner[c])
    ensures Has(IdleAt(idleConn, connKey[c]), c) <==> owner[c].Idle?
  {
  }

  /** Outside the pool ownership may change freely. */
  lemma SlotsElsewhere(idleConn: map<Key, seq<Conn>>, lru: seq<Conn>, owner: map<Conn, Owner>, connKey: map<Conn, Key>,
                       max: int,
                       c: Conn, o: Owner)
    requires SlotsOk(idleConn, lru, owner, connKey, max) && c in owner && !InPool(owner[c]) && !InPool(o)
    ensures SlotsOk(idleConn, lru, owner[c := o], connKey, max)
  {
  }

  /** The idle lists after c was taken out. */
  ghost predicate ListsWithout(before: map<Key, seq<Conn>>, after: map<Key, seq<Conn>>, k: Key, c: Conn) {
    && IdleAt(after, k) == Without(IdleAt(before, k), c)
    && (forall j :: j != k ==> IdleAt(after, j) == IdleAt(before, j))
  }

  lemma SlotsRemove(idleConn: map<Key, seq<Conn>>, after: map<Key, seq<Conn>>, lru: seq<Conn>, owner: map<Conn, Owner>,
                    connKey: map<Conn, Key>, max: int, c: Conn)
    requires SlotsOk(idleConn, lru, owner, connKey, max) && c in owner && ListsWithout(idleConn, after, connKey[c], c)
    ensures SlotsOk(after, Without(lru, c), if InPool(owner[c]) then owner[c := Gone] else owner, connKey, max)
    ensures Has(IdleAt(idleConn, connKey[c]), c) <==> owner[c].Idle?
  {
    hide Without, Distinct, IdleAt, Has;
    WithoutFacts(lru, c);
    forall k ensures Distinct(IdleAt(after, k)) && |IdleAt(after, k)| <= |IdleAt(idleConn, k)|
             ensures forall x :: Has(IdleAt(after, k), x) <==> Has(IdleAt(idleConn, k), x) && x != c
    {
      WithoutFacts(IdleAt(idleConn, k), c);
      assert Has(IdleAt(idleConn, k), c) ==> k == connKey[c];
    }
    var o := if InPool(owner[c]) then owner[c := Gone] else owner;
    forall k, x ensures Has(IdleAt(after, k), x) <==> x in o && o[x].Idle? && connKey[x] == k {
      assert Has(IdleAt(idleConn, k), x) <==> x in owner && owner[x].Idle? && connKey[x] == k;
    }
    forall x ensures Has(Without(lru, c), x) <==> x in o && InPool(o[x]) {
      assert Has(lru, x) <==> x in owner && InPool(owner[x]);
    }
  }

  /** A connection that nobody else uses joins the list of its host and the LRU
      list; it can be in neither before. */
  lemma SlotsAdd(idleConn: map<Key, seq<Conn>>, lru: seq<Conn>, owner: map<Conn, Owner>, connKey: map<Conn, Key>,
                 max: int, c: Conn)
    requires SlotsOk(idleConn, lru, owner, connKey, max) && c in owner && !InPool(owner[c])
    ensures !Has(IdleAt(idleConn, connKey[c]), c) && !Has(lru, c)
    ensures |IdleAt(idleConn, connKey[c])| < max ==>
              SlotsOk(idleConn[connKey[c] := IdleAt(idleConn, connKey[c]) + [c]], [c] + lru, owner[c := Idle], connKey,
                      max)
  {
    var k := connKey[c];
    var after := idleConn[k := IdleAt(idleConn, k) + [c]];
    var o := owner[c := Idle];
    assert !Has(lru, c) && !Has(IdleAt(idleConn, k), c);
    if |IdleAt(idleConn, k)| < max {
      forall j, x ensures Has(IdleAt(after, j), x) <==> x in o && o[x].Idle? && connKey[x] == j {
        assert Has(IdleAt(idleConn, j), x) <==> x in owner && owner[x].Idle? && connKey[x] == j;
      }
      forall x ensures Has([c] + lru, x) <==> x in o && InPool(o[x]) {
        assert Has(lru, x) <==> x in owner && InPool(owner[x]);
      }
      forall j ensures Distinct(IdleAt(after, j)) && (IdleAt(after, j) != [] ==> |IdleAt(after, j)| <= max) {
        assert Distinct(IdleAt(idleConn, j));
      }
    }
  }

  /** An idle connection that must not be used any more leaves the list but not
      yet the LRU list. */
  lemma SlotsDoom(idleConn: map<Key, seq<Conn>>, after: map<Key, seq<Conn>>, lru: seq<Conn>, owner: map<Conn, Owner>,
                  connKey: map<Conn, Key>, max: int, c: Conn)
    requires SlotsOk(idleConn, lru, owner, connKey, max) && c in owner && owner[c].Idle?
    requires ListsWithout(idleConn, after, connKey[c], c)
    ensures SlotsOk(after, lru, owner[c := Doomed], connKey, max)
  {
    hide Without, Distinct, IdleAt, Has;
    var o := owner[c := Doomed];
    forall k ensures Distinct(IdleAt(after, k)) && |IdleAt(after, k)| <= |IdleAt(idleConn, k)|
             ensures forall x :: Has(IdleAt(after, k), x) <==> Has(IdleAt(idleConn, k), x) && x != c
    {
      WithoutFacts(IdleAt(idleConn, k), c);
      assert Has(IdleAt(idleConn, k), c) ==> k == connKey[c];
    }
    forall k, x ensures Has(IdleAt(after, k), x) <==> x in o && o[x].Idle? && connKey[x] == k {
      assert Has(IdleAt(idleConn, k), x) <==> x in owner && owner[x].Idle? && connKey[x] == k;
    }
    forall x ensures Has(lru, x) <==> x in o && InPool(o[x]) {
      assert Has(lru, x) <==> x in owner && InPool(owner[x]);
    }
  }

  lemma WithoutLast(s: seq<nat>)
    requires Distinct(s) && s != []
    ensures Without(s, s[|s| - 1]) == s[..|s| - 1]
  {
    WithoutAt(s, |s| - 1);
  }

  ghost predicate DeliveriesOk(wants: map<Want, WantState>, wantKey: map<Want, Key>, owner: map<Conn, Owner>,
                               connKey: map<Conn, Key>) {
    && wants.Keys == wantKey.Keys && owner.Keys == connKey.Keys
    && (forall w :: w in wants && wants[w].Got? ==>
          wants[w].conn in owner && owner[wants[w].conn] == Delivered(w) && connKey[wants[w].conn] == wantKey[w])
    && (forall c :: c in owner && owner[c].Delivered? ==> owner[c].want in wants && wants[owner[c].want] == Got(c))
  }

  lemma DeliveriesElsewhere(wants: map<Want, WantState>, wantKey: map<Want, Key>, owner: map<Conn, Owner>,
                            connKey: map<Conn, Key>,
                            c: Conn, o: Owner)
    requires DeliveriesOk(wants, wantKey, owner, connKey) && c in owner && !owner[c].Delivered? && !o.Delivered?
    ensures DeliveriesOk(wants, wantKey, owner[c := o], connKey)
  {
  }

  lemma SlotsNew(idleConn: map<Key, seq<Conn>>, lru: seq<Conn>, owner: map<Conn, Owner>, connKey: map<Conn, Key>,
                 max: int,
                 c: Conn, at: Key)
    requires SlotsOk(idleConn, lru, owner, connKey, max) && c !in connKey
    ensures SlotsOk(idleConn, lru, owner[c := Held], connKey[c := at], max)
  {
    assert !Has(lru, c);
  }

  lemma DeliveriesNew(wants: map<Want, WantState>, wantKey: map<Want, Key>, owner: map<Conn, Owner>,
                      connKey: map<Conn, Key>,
                      c: Conn, at: Key)
    requires DeliveriesOk(wants, wantKey, owner, connKey) && c !in connKey
    ensures DeliveriesOk(wants, wantKey, owner[c := Held], connKey[c := at])
  {
  }

  /** Requests that wait for an idle connection to host k. */
  ghost predicate IdleWaitOk(q: WantQueue, k: Key, wantKey: map<Want, Key>) {
    q.Valid() && forall w :: w in q.Items() ==> w in wantKey && wantKey[w] == k
  }

  /** Requests that wait for permission to dial host k, each once, none of them dialing. */
  ghost predicate DialWaitOk(q: WantQueue, k: Key, wantKey: map<Want, Key>, asked: set<Want>, dialing: set<Want>) {
    && q.Valid() && Distinct(q.Items())
    && forall w :: w in q.Items() ==> w in wantKey && wantKey[w] == k && w in asked && w !in dialing
  }

  /** The request that was taken out starts dialing; those behind it still wait. */
  lemma DialWaitAfter(q: WantQueue, r: WantQueue, i: nat, k: Key, wantKey: map<Want, Key>, asked: set<Want>,
                      dialing: set<Want>)
    requires DialWaitOk(q, k, wantKey, asked, dialing) && r.Valid() && i < |q.Items()|
             && r.Items() == q.Items()[i + 1..]
    ensures DialWaitOk(r, k, wantKey, asked, dialing + {q.Items()[i]})
    ensures q.Items()[i] in wantKey && wantKey[q.Items()[i]] == k && q.Items()[i] in asked && q.Items()[i] !in dialing
  {
    var all := q.Items();
    assert all[i] in all;
    forall w | w in all[i + 1..] ensures w in all && w != all[i] {
      var j :| i + 1 <= j < |all| && all[j] == w;
    }
  }

  lemma DialWaitEmpty(q: WantQueue, k: Key, wantKey: map<Want, Key>, asked: set<Want>, dialing: set<Want>)
    requires q.Valid() && q.Items() == []
    ensures DialWaitOk(q, k, wantKey, asked, dialing)
  {
  }

  lemma DialWaitValid(q: WantQueue, k: Key, wantKey: map<Want, Key>, asked: set<Want>, dialing: set<Want>)
    requires DialWaitOk(q, k, wantKey, asked, dialing)
    ensures q.Valid()
  {
  }

  lemma DialWaitAsked(q: WantQueue, k: Key, wantKey: map<Want, Key>, asked: set<Want>, dialing: set<Want>, w: Want)
    requires DialWaitOk(q, k, wantKey, asked, dialing)
    ensures DialWaitOk(q, k, wantKey, asked + {w}, dialing)
  {
  }

  /** A request that never asked before joins at the end. */
  lemma DialWaitJoined(q: WantQueue, i: nat, r: WantQueue, k: Key, wantKey: map<Want, Key>, asked: set<Want>,
                       dialing: set<Want>, w: Want)
    requires DialWaitOk(q, k, wantKey, asked, dialing) && w in wantKey && wantKey[w] == k && w !in asked
             && dialing <= asked
    requires i <= |q.Items()| && r.Valid() && r.Items() == q.Items()[i..] + [w]
    ensures DialWaitOk(r, k, wantKey, asked + {w}, dialing)
  {
    var all := q.Items();
    forall x | x in all[i..] ensures x in all {
    }
  }

  lemma DialWaitOther(q: WantQueue, k: Key, wantKey: map<Want, Key>, asked: set<Want>, dialing: set<Want>, w: Want)
    requires DialWaitOk(q, k, wantKey, asked, dialing) && w in wantKey && wantKey[w] != k
    ensures DialWaitOk(q, k, wantKey, asked, dialing + {w})
  {
  }

  lemma {:induction false} FirstWaitingFrom(s: seq<Want>, wants: map<Want, WantState>, i: nat)
    requires i <= FirstWaiting(s, wants)
    ensures FirstWaiting(s, wants) == i + FirstWaiting(s[i..], wants)
  {
    if i == 0 {
      assert s[0..] == s;
    } else {
      FirstWaitingFrom(s[1..], wants, i - 1);
      assert s[1..][i - 1..] == s[i..];
    }
  }

  lemma FirstWaitingHere(s: seq<Want>, wants: map<Want, WantState>, i: nat)
    requires i <= FirstWaiting(s, wants) && i < |s|
    ensures FirstWaiting(s, wants) == i <==> s[i] in wants && wants[s[i]].Waiting?
  {
    FirstWaitingFrom(s, wants, i);
  }

  /** Pop requests until one still waits. Those before it are dropped for good. */
  method PopWaiting(q0: WantQueue, wants: map<Want, WantState>) returns (q: WantQueue, found: Front)
    requires q0.Valid()
    ensures q.Valid()
    ensures var all := q0.Items();
            var i := FirstWaiting(all, wants);
            if i < |all| then found == First(all[i]) && q.Items() == all[i + 1..]
            else found == Nobody && q.Items() == []
  {
    hide FirstWaiting, WantQueue.Valid, WantQueue.Items;
    q, found := q0, Nobody;
    ghost var all := q0.Items();
    ghost var i := 0;
    while q.Len() > 0
      invariant q.Valid() && 0 <= i <= FirstWaiting(all, wants) && q.Items() == all[i..] && found == Nobody
      decreases |all| - i
    {
      FirstWaitingHere(all, wants, i);
      var (rest, front) := q.PopFront();
      var w := front.want;
      assert rest.Items() == all[i..][1..] == all[i + 1..];
      q := rest;
      if w in wants && wants[w].Waiting? {
        return q, First(w);
      }
      i := i + 1;
    }
  }

  /** Drop requests that no longer wait from the front. */
  method CleanFront(q0: WantQueue, wants: map<Want, WantState>) returns (q: WantQueue, cleaned: bool)
    requires q0.Valid()
    ensures q.Valid() && q.Items() == q0.Items()[FirstWaiting(q0.Items(), wants)..]
    ensures cleaned <==> FirstWaiting(q0.Items(), wants) > 0
  {
    q, cleaned := q0, false;
    ghost var all := q0.Items();
    ghost var i := 0;
    while true
      invariant q.Valid() && 0 <= i <= FirstWaiting(all, wants) && q.Items() == all[i..]
      invariant cleaned <==> i > 0
      decreases |all| - i
    {
      FirstWaitingFrom(all, wants, i);
      var front := q.PeekFront();
      if front.Nobody? || (front.want in wants && wants[front.want].Waiting?) {
        return;
      }
      var (rest, _) := q.PopFront();
      assert rest.Items() == all[i..][1..] == all[i + 1..];
      q := rest;
      cleaned := true;
      i := i + 1;
    }
  }

  // ----- the transport as a value -----

  ghost function NonEmpty(m: map<Key, seq<Conn>>): map<Key, seq<Conn>> {
    map k | k in m && m[k] != [] :: m[k]
  }

  ghost function ItemsAt(m: map<Key, WantQueue>, k: Key): seq<Want> {
    if k in m && m[k].Valid() then m[k].Items() else []
  }

  ghost function QueuesIn(m: map<Key, WantQueue>): map<Key, seq<Want>> {
    map k | k in m && ItemsAt(m, k) != [] :: ItemsAt(m, k)
  }

  ghost function NonZero(m: map<Key, int>): map<Key, int> {
    map k | k in m && m[k] != 0 :: m[k]
  }

  lemma ListAt(m: map<Key, seq<Conn>>, k: Key)
    ensures At(NonEmpty(m), k) == IdleAt(m, k)
  {
  }

  lemma ListSet(m: map<Key, seq<Conn>>, k: Key, s: seq<Conn>)
    ensures NonEmpty(m[k := s]) == Put(NonEmpty(m), k, s)
    ensures NonEmpty(m - {k}) == Put(NonEmpty(m), k, [])
  {
  }

  lemma QueueAt(m: map<Key, WantQueue>, k: Key)
    ensures At(QueuesIn(m), k) == ItemsAt(m, k)
  {
  }

  lemma QueueSet(m: map<Key, WantQueue>, k: Key, q: WantQueue)
    requires q.Valid()
    ensures QueuesIn(m[k := q]) == Put(QueuesIn(m), k, q.Items())
  {
    hide WantQueue.Items, WantQueue.Valid;
    forall j | j != k ensures ItemsAt(m[k := q], j) == ItemsAt(m, j) {
    }
    assert ItemsAt(m[k := q], k) == q.Items();
  }

  lemma QueueDrop(m: map<Key, WantQueue>, k: Key)
    ensures QueuesIn(m - {k}) == Put(QueuesIn(m), k, [])
    ensures ItemsAt(m, k) == [] ==> QueuesIn(m) == Put(QueuesIn(m), k, [])
  {
    hide WantQueue.Items, WantQueue.Valid;
    forall j | j != k ensures ItemsAt(m - {k}, j) == ItemsAt(m, j) {
    }
  }

  lemma CountSet(m: map<Key, int>, k: Key, n: int)
    ensures CountAt(NonZero(m), k) == CountAt(m, k)
    ensures NonZero(m[k := n]) == PutCount(NonZero(m), k, n)
    ensures NonZero(m - {k}) == PutCount(NonZero(m), k, 0)
  {
  }

  lemma ListsPut(before: map<Key, seq<Conn>>, after: map<Key, seq<Conn>>, k: Key, c: Conn)
    requires ListsWithout(before, after, k, c)
    ensures NonEmpty(after) == Put(NonEmpty(before), k, Without(At(NonEmpty(before), k), c))
  {
    hide Without;
    ListAt(before, k);
    forall j ensures j in NonEmpty(after) <==> IdleAt(after, j) != []
             ensures j in NonEmpty(before) <==> IdleAt(before, j) != [] {
    }
  }

  lemma ServeIs(p: Pool, r: Pool, c: Conn, k: Key)
    requires var q := At(p.idleWait, k);
             var i := FirstWaiting(q, p.wants);
             var m := p.(idleWait := Put(p.idleWait, k, if i < |q| then q[i + 1..] else []));
             r == if i < |q| then m.(wants := p.wants[q[i] := Got(c)], owner := p.owner[c := Delivered(q[i])]) else m
    ensures r == Serve(p, c, k)
  {
    hide FirstWaiting, Put;
    var q := At(p.idleWait, k);
    assert q[|q|..] == [];
  }

  lemma HeldOutside(owner: map<Conn, Owner>, c: Conn)
    requires c in owner && owner[c].Held?
    ensures !InPool(owner[c]) && forall w :: !InPool(Delivered(w))
  {
  }

  /** Passing over what is unfit, then delivering the last that is left. */
  lemma SearchFound(p: Pool, r: Pool, w: Want, k: Key, bad: set<Conn>)
    requires var list := At(p.idle, k);
             var n := Usable(list, bad);
             && n > 0
             && var c := list[n - 1];
                var m := p.(idle := Put(p.idle, k, list[..n]), owner := Doom(p.owner, list[n..]));
                r == Deliver(m.(idle := Put(m.idle, k, list[..n][..n - 1]), lru := Without(p.lru, c)), w, c)
    ensures r == AfterSearch(p, w, k, bad)
  {
    hide Usable, Without, Doom;
    var list := At(p.idle, k);
    var n := Usable(list, bad);
    PutTwice(p.idle, k, list[..n], list[..n - 1]);
    assert list[..n][..n - 1] == list[..n - 1];
  }

  lemma SearchKeeps(p: Pool, w: Want, k: Key, bad: set<Conn>)
    ensures var r := AfterSearch(p, w, k, bad);
            r.idleWait == p.idleWait && r.wantKey == p.wantKey && r.closed == p.closed
    ensures Usable(At(p.idle, k), bad) == 0 ==> AfterSearch(p, w, k, bad).wants == p.wants
  {
    hide *;
    SearchIs(p, w, k, bad);
  }

  lemma PutTwice(m: map<Key, seq<Conn>>, k: Key, a: seq<Conn>, b: seq<Conn>)
    ensures Put(Put(m, k, a), k, b) == Put(m, k, b)
  {
  }

  lemma IdleIs(m: map<Key, seq<Conn>>, k: Key)
    ensures IdleAt(m, k) == if k in m then m[k] else []
    ensures NonEmpty(m) == Put(NonEmpty(m), k, IdleAt(m, k))
    ensures k in NonEmpty(m) ==> k in m
  {
  }

  lemma CountIs(m: map<Key, int>, k: Key)
    ensures CountAt(m, k) == if k in m then m[k] else 0
  {
  }

  class Transport {
    const disableKeepAlives: bool
    const maxIdleConnsPerHost: int
    const maxIdleConns: int
    const maxConnsPerHost: int

    // Guarded by one lock: the idle connections and who waits for one.
    var idleConn: map<Key, seq<Conn>>
    var idleConnWait: map<Key, WantQueue>
    /** Idle connections, the one used last first. */
    var lru: seq<Conn>
    var closeIdle: bool

    // Guarded by another lock: how many connections each host has.
    var connsPerHost: map<Key, int>
    var connsPerHostWait: map<Key, WantQueue>

    // The requests and the connections themselves.
    var wants: map<Want, WantState>
    var wantKey: map<Want, Key>
    var connKey: map<Conn, Key>
    var closed: set<Conn>

    // What the goroutines are about: who uses which connection, and the requests
    // whose dial was asked for, is running, or has failed and is still counted.
    var owner: map<Conn, Owner>
    var asked: set<Want>
    var dialing: set<Want>
    var failed: set<Want>

    ghost function View(): Pool
      reads this
    {
      Pool(NonEmpty(idleConn), QueuesIn(idleConnWait), lru, closeIdle, NonZero(connsPerHost),
           QueuesIn(connsPerHostWait), wants, wantKey, connKey, closed, owner, asked, dialing, failed)
    }

    ghost function Lim(): Limits {
      Limits(disableKeepAlives, maxIdleConnsPerHost, maxIdleConns, maxConnsPerHost)
    }

    ghost predicate Known()
      reads this`wants, this`wantKey, this`connKey, this`closed, this`owner, this`asked, this`dialing, this`failed
    {
      && wants.Keys == wantKey.Keys && owner.Keys == connKey.Keys && closed <= connKey.Keys
      && failed <= dialing <= asked <= wants.Keys
    }

    /** A connection is idle in at most one place, and the idle places are the idle connections. */
    ghost predicate IdleLists()
      reads this`idleConn, this`lru, this`owner, this`connKey
    {
      IdleSlots() && (maxIdleConns > 0 ==> |lru| <= maxIdleConns)
    }

    ghost predicate IdleSlots()
      reads this`idleConn, this`lru, this`owner, this`connKey
    {
      SlotsOk(idleConn, lru, owner, connKey, maxIdleConnsPerHost)
    }

    /** A request has a connection exactly if the connection was delivered to it. */
    ghost predicate Deliveries()
      reads this`wants, this`wantKey, this`owner, this`connKey
    {
      DeliveriesOk(wants, wantKey, owner, connKey)
    }

    ghost predicate Waits()
      reads this`idleConnWait, this`connsPerHostWait, this`wantKey, this`asked, this`dialing
    {
      && (forall k :: k in idleConnWait ==> IdleWaitOk(idleConnWait[k], k, wantKey))
      && (forall k :: k in connsPerHostWait ==> DialWaitOk(connsPerHostWait[k], k, wantKey, asked, dialing))
    }

    /** The recorded count is the dials that run plus the connections not closed;
        it keeps the limit, and whoever waits to dial waits because of the limit. */
    ghost predicate Counts()
      reads this`connsPerHost, this`connsPerHostWait, this`wantKey, this`connKey, this`closed, this`dialing
    {
      maxConnsPerHost > 0 ==>
        forall k: Key :: CountOk(k)
    }

    ghost predicate CountOk(k: Key)
      reads this`connsPerHost, this`connsPerHostWait, this`wantKey, this`connKey, this`closed, this`dialing
    {
      && CountAt(connsPerHost, k) == |WantsAt(dialing, wantKey, k)| + |OpenAt(connKey, closed, k)|
      && CountAt(connsPerHost, k) <= maxConnsPerHost
      && (SomeoneWaits(k) ==> CountAt(connsPerHost, k) == maxConnsPerHost)
    }

    ghost predicate Valid()
      reads this
    {
      Known() && IdleLists() && Deliveries() && Waits() && Counts()
    }

    // ----- connection counts -----

    /** Give up one place at host k: to the first request that still waits to
        dial, or else back. The recorded count is never zero here. */
    method DecConnsPerHost(k: Key) returns (started: Front)
      requires maxConnsPerHost > 0
      requires Waits() && CountAt(connsPerHost, k) > 0
      modifies this`connsPerHost, this`connsPerHostWait
      ensures forall j :: j != k ==> CountAt(connsPerHost, j) == old(CountAt(connsPerHost, j))
      ensures connsPerHostWait.Keys <= old(connsPerHostWait.Keys)
      ensures forall j :: j in connsPerHostWait && j != k ==> connsPerHostWait[j] == old(connsPerHostWait[j])
      ensures k in connsPerHostWait ==> connsPerHostWait[k].Valid()
      ensures k in old(connsPerHostWait) ==> old(connsPerHostWait)[k].Valid()
      ensures var q := old(if k in connsPerHostWait then connsPerHostWait[k].Items() else []);
              var i := FirstWaiting(q, wants);
              var rest := if k in connsPerHostWait then connsPerHostWait[k].Items() else [];
              if i < |q| then
                started == First(q[i]) && rest == q[i + 1..]
                  && CountAt(connsPerHost, k) == old(CountAt(connsPerHost, k))
              else
                started == Nobody && rest == [] && CountAt(connsPerHost, k) == old(CountAt(connsPerHost, k)) - 1
      ensures var q := old(ItemsAt(connsPerHostWait, k));
              var i := FirstWaiting(q, wants);
              var rest := if i < |q| then q[i + 1..] else [];
              && QueuesIn(connsPerHostWait) == Put(old(QueuesIn(connsPerHostWait)), k, rest)
              && NonZero(connsPerHost) ==
                 if i < |q| then old(NonZero(connsPerHost))
                 else PutCount(old(NonZero(connsPerHost)), k, old(CountAt(connsPerHost, k)) - 1)
    {
      hide FirstWaiting, WantQueue.Items, QueuesIn, NonZero, Put, PutCount;
      started := Nobody;
      var n := connsPerHost[k];
      QueueDrop(connsPerHostWait, k);
      CountSet(connsPerHost, k, n - 1);
      EmptyQueue();
      if k in connsPerHostWait && connsPerHostWait[k].Len() > 0 {
        var q, found := PopWaiting(connsPerHostWait[k], wants);
        started := found;
        QueueSet(connsPerHostWait, k, q);
        if q.Len() == 0 {
          connsPerHostWait := connsPerHostWait - {k};
        } else {
          connsPerHostWait := connsPerHostWait[k := q];
        }
        if found.First? {
          return;
        }
      }
      n := n - 1;
      if n == 0 {
        connsPerHost := connsPerHost - {k};
      } else {
        connsPerHost := connsPerHost[k := n];
      }
    }

    /** One place at host k is recorded that nobody uses any more. */
    ghost predicate OneToGive(k: Key)
      reads this`connsPerHost, this`connsPerHostWait, this`wantKey, this`connKey, this`closed, this`dialing
    {
      maxConnsPerHost > 0 ==>
        && (forall j: Key :: j != k ==> CountOk(j))
        && CountAt(connsPerHost, k) == |WantsAt(dialing, wantKey, k)| + |OpenAt(connKey, closed, k)| + 1
        && CountAt(connsPerHost, k) <= maxConnsPerHost
        && (SomeoneWaits(k) ==> CountAt(connsPerHost, k) == maxConnsPerHost)
    }

    ghost predicate SomeoneWaits(k: Key)
      reads this`connsPerHostWait
    {
      k in connsPerHostWait && connsPerHostWait[k].Valid() && connsPerHostWait[k].Items() != []
    }

    /** The first request that still waits, if any, starts its dial. */
    method HandOver(k: Key) returns (started: Front)
      requires maxConnsPerHost > 0
      requires Waits() && CountAt(connsPerHost, k) > 0
      modifies this`connsPerHost, this`connsPerHostWait, this`dialing
      ensures Waits()
      ensures forall j :: j != k ==> CountAt(connsPerHost, j) == old(CountAt(connsPerHost, j))
      ensures forall j :: SomeoneWaits(j) ==> old(SomeoneWaits(j))
      ensures started.First? ==>
                && old(SomeoneWaits(k))
                && started.want in wantKey && wantKey[started.want] == k
                && started.want in asked && started.want !in old(dialing)
                && dialing == old(dialing) + {started.want}
                && CountAt(connsPerHost, k) == old(CountAt(connsPerHost, k))
      ensures started.Nobody? ==>
                && dialing == old(dialing) && !SomeoneWaits(k)
                && CountAt(connsPerHost, k) == old(CountAt(connsPerHost, k)) - 1
      ensures View() == GiveBack(old(View()), Lim(), k)
    {
      hide FirstWaiting, DialWaitOk, IdleWaitOk, CountAt, WantQueue.Items, WantQueue.Valid, QueuesIn, NonZero, Put,
           PutCount, NonEmpty;
      EmptyQueue();
      QueueAt(connsPerHostWait, k);
      CountSet(connsPerHost, k, 0);
      ghost var before, was := dialing, connsPerHostWait;
      started := DecConnsPerHost(k);
      if k in connsPerHostWait && connsPerHostWait[k].Items() == [] {
        DialWaitEmpty(connsPerHostWait[k], k, wantKey, asked, if started.First? then dialing + {started.want}
                      else dialing);
      }
      if started.First? {
        var w := started.want;
        DialWaitAfter(was[k], if k in connsPerHostWait then connsPerHostWait[k] else EMPTY,
                      FirstWaiting(was[k].Items(), wants), k, wantKey, asked, before);
        forall j | j in connsPerHostWait && j != k
          ensures DialWaitOk(connsPerHostWait[j], j, wantKey, asked, before + {w}) {
          DialWaitOther(connsPerHostWait[j], j, wantKey, asked, before, w);
        }
        dialing := dialing + {w};
      }
    }

    /** The place goes to a waiting request, whose dial starts, or is given back. */
    method Release(k: Key)
      requires Waits() && OneToGive(k) && dialing <= asked
      modifies this`connsPerHost, this`connsPerHostWait, this`dialing
      ensures Waits() && Counts() && old(dialing) <= dialing <= asked
      ensures View() == GiveBack(old(View()), Lim(), k)
    {
      if maxConnsPerHost <= 0 {
        return;
      }
      hide Waits, WantsAt, OpenAt, CountAt, FirstWaiting, QueuesIn, NonZero, NonEmpty, Put, PutCount;
      ghost var before := dialing;
      var started := HandOver(k);
      forall j: Key ensures CountOk(j) {
        assert old(j != k ==> CountOk(j));
        if started.First? {
          WantsAdd(before, wantKey, started.want, j);
        }
      }
    }

    // ----- closing -----

    /** Close a connection, whoever uses it; only the first close gives up its place. */
    method Close(c: Conn)
      requires Known() && Waits() && Counts() && c in connKey
      modifies this`closed, this`connsPerHost, this`connsPerHostWait, this`dialing
      ensures Known() && Waits() && Counts() && closed == old(closed) + {c} && old(dialing) <= dialing
      ensures View() == Shut(old(View()), Lim(), c)
    {
      hide WantsAt, OpenAt, CountAt, SomeoneWaits, IdleWaitOk, DialWaitOk, GiveBack, QueuesIn, NonZero, NonEmpty;
      if c in closed {
        return;
      }
      forall j ensures |OpenAt(connKey, closed + {c}, j)| ==
                       |OpenAt(connKey, closed, j)| - (if connKey[c] == j then 1 else 0)
      {
        OpenClose(connKey, closed, c, j);
      }
      closed := closed + {c};
      assert old(maxConnsPerHost > 0 ==> CountOk(connKey[c]));
      forall j: Key | maxConnsPerHost > 0 && j != connKey[c] ensures CountOk(j) {
        assert old(CountOk(j));
      }
      Release(connKey[c]);
    }

    // ----- delivering -----

    /** Hand a connection to a request, unless it has one, has failed or was canceled. */
    method TryDeliver(w: Want, c: Conn) returns (delivered: bool)
      requires Known() && Deliveries() && w in wants && c in owner && !owner[c].Delivered? && connKey[c] == wantKey[w]
      modifies this`wants, this`owner
      ensures Known() && Deliveries()
      ensures delivered <==> old(wants[w].Waiting?)
      ensures delivered ==> wants == old(wants)[w := Got(c)] && owner == old(owner)[c := Delivered(w)]
      ensures !delivered ==> wants == old(wants) && owner == old(owner)
      ensures View() == AfterOffer(old(View()), w, c)
    {
      hide QueuesIn, NonZero, NonEmpty;
      if !wants[w].Waiting? {
        return false;
      }
      wants := wants[w := Got(c)];
      owner := owner[c := Delivered(w)];
      return true;
    }

    /** A request ends: it returns the connection it got, or is canceled. A
        connection that it has goes to the goroutine that ends it. */
    method End(w: Want)
      requires Valid() && w in wants
      modifies this`wants, this`owner
      ensures Valid() && wants == old(wants)[w := Done]
      ensures old(wants[w]).Got? ==> owner == old(owner)[old(wants[w]).conn := Held]
      ensures !old(wants[w]).Got? ==> owner == old(owner)
      ensures View() == AfterEnd(old(View()), w)
    {
      hide Waits, Counts, SlotsOk, QueuesIn, NonZero, NonEmpty;
      if wants[w].Got? {
        SlotsElsewhere(idleConn, lru, owner, connKey, maxIdleConnsPerHost, wants[w].conn, Held);
        owner := owner[wants[w].conn := Held];
      }
      wants := wants[w := Done];
    }

    // ----- idle connections -----

    /** The requests that wait for an idle connection to host k. */
    ghost function IdleWaiters(k: Key): seq<Want>
      reads this`idleConnWait
    {
      ItemsAt(idleConnWait, k)
    }

    /** Take the first request that still waits for an idle connection to host k off the
        queue, with those in front of it. */
    method NextIdleWaiter(k: Key) returns (found: Front)
      requires Waits()
      modifies this`idleConnWait
      ensures Waits()
      ensures var q := old(IdleWaiters(k));
              var i := FirstWaiting(q, wants);
              && found == (if i < |q| then First(q[i]) else Nobody)
              && (i < |q| ==> q[i] in wantKey && wantKey[q[i]] == k)
              && QueuesIn(idleConnWait) == Put(old(QueuesIn(idleConnWait)), k, if i < |q| then q[i + 1..] else [])
    {
      hide FirstWaiting, WantQueue.Items, WantQueue.Valid, DialWaitOk, QueuesIn, Put;
      QueueDrop(idleConnWait, k);
      found := Nobody;
      if k in idleConnWait {
        var q;
        ghost var all := idleConnWait[k].Items();
        q, found := PopWaiting(idleConnWait[k], wants);
        QueueSet(idleConnWait, k, q);
        assert forall i :: 0 <= i < |all| ==> all[i] in all;
        if q.Len() == 0 {
          idleConnWait := idleConnWait - {k};
        } else {
          idleConnWait := idleConnWait[k := q];
        }
      }
    }

    lemma ViewIs()
      ensures View() == Pool(NonEmpty(idleConn), QueuesIn(idleConnWait), lru, closeIdle, NonZero(connsPerHost),
                             QueuesIn(connsPerHostWait), wants, wantKey, connKey, closed, owner, asked, dialing, failed)
      ensures Lim() == Limits(disableKeepAlives, maxIdleConnsPerHost, maxIdleConns, maxConnsPerHost)
    {
    }

    lemma AtIs(k: Key)
      ensures IdleWaiters(k) == At(QueuesIn(idleConnWait), k) && DialWaiters(k) == At(QueuesIn(connsPerHostWait), k)
      ensures IdleAt(idleConn, k) == At(NonEmpty(idleConn), k)
      ensures CountAt(connsPerHost, k) == CountAt(NonZero(connsPerHost), k)
    {
    }

    lemma ValidIs()
      ensures Valid() <==> Known() && IdleLists() && Deliveries() && Waits() && Counts()
      ensures IdleLists() <==> IdleSlots() && (maxIdleConns > 0 ==> |lru| <= maxIdleConns)
      ensures IdleSlots() <==> SlotsOk(idleConn, lru, owner, connKey, maxIdleConnsPerHost)
      ensures Deliveries() <==> DeliveriesOk(wants, wantKey, owner, connKey)
      ensures Known() ==> owner.Keys == connKey.Keys && wants.Keys == wantKey.Keys && closed <= connKey.Keys
    {
    }

    /** Hand c to the first request that still waits for an idle connection. */
    method DeliverToWaiter(c: Conn) returns (done: bool)
      requires Known() && Deliveries() && Waits() && c in owner && owner[c].Held?
      modifies this`idleConnWait, this`wants, this`owner
      ensures Known() && Deliveries() && Waits()
      ensures var q := old(IdleWaiters(connKey[c]));
              var i := FirstWaiting(q, old(wants));
              && done == (i < |q|)
              && (done ==> wants == old(wants)[q[i] := Got(c)] && owner == old(owner)[c := Delivered(q[i])])
              && (!done ==> wants == old(wants) && owner == old(owner))
      ensures View() == Serve(old(View()), c, connKey[c])
    {
      hide *;
      ValidIs();
      var k := connKey[c];
      ghost var p := View();
      ViewIs();
      AtIs(k);
      var found := NextIdleWaiter(k);
      if found.First? {
        done := TryDeliver(found.want, c);
      } else {
        done := false;
      }
      ViewIs();
      ServeIs(p, View(), c, k);
    }

    /** Take c out of the idle list of its host, keeping the order of the others. */
    method RemoveFromList(c: Conn) returns (removed: bool)
      requires c in connKey && Distinct(IdleAt(idleConn, connKey[c]))
      modifies this`idleConn
      ensures removed <==> Has(old(IdleAt(idleConn, connKey[c])), c)
      ensures ListsWithout(old(idleConn), idleConn, connKey[c], c)
    {
      var k := connKey[c];
      removed := false;
      if k !in idleConn {
        return;
      }
      var pconns := idleConn[k];
      WithoutFacts(pconns, c);
      if |pconns| == 1 {
        if pconns[0] == c {
          idleConn := idleConn - {k};
          removed := true;
        }
      } else {
        for i := 0 to |pconns|
          invariant c !in pconns[..i] && !removed && idleConn == old(idleConn)
        {
          if pconns[i] == c {
            WithoutAt(pconns, i);
            idleConn := idleConn[k := pconns[..i] + pconns[i + 1..]];
            return true;
          }
        }
      }
    }

    /** c is idle no more. Nothing happens if it was not. */
    method RemoveIdleLocked(c: Conn) returns (removed: bool)
      requires IdleSlots() && c in owner
      modifies this`idleConn, this`lru, this`owner
      ensures IdleSlots() && lru == Without(old(lru), c)
      ensures removed <==> old(owner[c]).Idle?
      ensures owner == if InPool(old(owner[c])) then old(owner)[c := Gone] else old(owner)
      ensures View() == Leave(old(View()), c)
    {
      hide Without, Distinct, SlotsOk, Has, QueuesIn, NonZero, NonEmpty, Put, ListsWithout;
      ghost var lists, was := idleConn, lru;
      SlotsFacts(idleConn, lru, owner, connKey, maxIdleConnsPerHost, c);
      lru := Without(lru, c);
      removed := RemoveFromList(c);
      ListsPut(lists, idleConn, connKey[c], c);
      SlotsRemove(lists, idleConn, was, owner, connKey, maxIdleConnsPerHost, c);
      if InPool(owner[c]) {
        owner := owner[c := Gone];
      }
    }

    /** Over the limit, the connection idle for longest is closed. */
    method EvictOldest()
      requires Known() && Deliveries() && Waits() && Counts() && IdleSlots() && lru != []
      modifies this`idleConn, this`lru, this`owner, this`closed, this`connsPerHost, this`connsPerHostWait, this`dialing
      ensures Known() && Deliveries() && Waits() && Counts() && IdleSlots()
      ensures lru == old(lru)[..|old(lru)| - 1]
      ensures owner == old(owner)[old(lru[|lru| - 1]) := Gone] && closed == old(closed) + {old(lru[|lru| - 1])}
      ensures var oldest := old(lru[|lru| - 1]); View() == Leave(Shut(old(View()), Lim(), oldest), oldest)
    {
      hide SlotsOk, DeliveriesOk, Waits, Counts, Without, Distinct, Has, ListsWithout, View, Leave, Shut;
      var oldest := lru[|lru| - 1];
      LastKnown(lru, idleConn, owner, connKey, maxIdleConnsPerHost);
      Close(oldest);
      Unlist(oldest);
    }

    /** Takes the last entry of the LRU list off both lists. */
    method Unlist(oldest: Conn)
      requires Known() && Deliveries() && IdleSlots() && lru != [] && oldest == lru[|lru| - 1]
      modifies this`idleConn, this`lru, this`owner
      ensures Known() && Deliveries() && IdleSlots()
      ensures lru == old(lru)[..|old(lru)| - 1] && owner == old(owner)[oldest := Gone]
      ensures View() == Leave(old(View()), oldest)
    {
      hide SlotsOk, DeliveriesOk, Without, Distinct, Has, ListsWithout, QueuesIn, NonZero, NonEmpty, Put;
      ghost var lists, was := idleConn, lru;
      LastKnown(lru, idleConn, owner, connKey, maxIdleConnsPerHost);
      lru := lru[..|lru| - 1];
      var _ := RemoveFromList(oldest);
      ListsPut(lists, idleConn, connKey[oldest], oldest);
      SlotsRemove(lists, idleConn, was, owner, connKey, maxIdleConnsPerHost, oldest);
      DeliveriesElsewhere(wants, wantKey, owner, connKey, oldest, Gone);
      owner := owner[oldest := Gone];
    }

    /** Return a connection to the pool: to a request that waits for one, or to
        the idle list, unless the host has its fill. Of the failures of this
        code, the duplicate in the list and the duplicate in the LRU list cannot
        happen. Whether c is broken was looked at before the lock was taken. */
    method PutIdle(c: Conn, sawBroken: bool) returns (ok: bool)
      requires Valid() && c in owner && owner[c].Held? && (sawBroken ==> c in closed)
      modifies this`idleConn, this`idleConnWait, this`lru, this`wants, this`owner
      modifies this`closed, this`connsPerHost, this`connsPerHostWait, this`dialing
      ensures Valid()
      ensures var q := old(IdleWaiters(connKey[c]));
              var i := FirstWaiting(q, old(wants));
              if disableKeepAlives || maxIdleConnsPerHost < 0 || sawBroken then
                !ok && wants == old(wants) && owner == old(owner)
              else if i < |q| then
                ok && wants == old(wants)[q[i] := Got(c)] && owner == old(owner)[c := Delivered(q[i])]
              else
                && wants == old(wants)
                && (ok <==> !closeIdle && |old(IdleAt(idleConn, connKey[c]))| < maxIdleConnsPerHost)
                && (!ok ==> owner == old(owner))
                && (ok && (maxIdleConns == 0 || |old(lru)| < maxIdleConns) ==>
                      owner == old(owner)[c := Idle] && lru == [c] + old(lru) && closed == old(closed))
                && (ok && maxIdleConns != 0 && |old(lru)| >= maxIdleConns ==>
                      var all := [c] + old(lru);
                      var oldest := all[|all| - 1];
                      owner == old(owner)[c := Idle][oldest := Gone] && closed == old(closed) + {oldest})
      ensures old(closed) <= closed
      ensures View() == AfterPut(old(View()), Lim(), c, sawBroken)
    {
      hide *;
      ghost var p := View();
      ViewIs();
      ValidIs();
      PutIs(p, Lim(), c, sawBroken);
      AtIs(connKey[c]);
      if disableKeepAlives || maxIdleConnsPerHost < 0 || sawBroken {
        return false;
      }
      ghost var o := owner;
      HeldOutside(owner, c);
      var done := DeliverToWaiter(c);
      ViewIs();
      ValidIs();
      if done {
        SlotsElsewhere(idleConn, lru, o, connKey, maxIdleConnsPerHost, c, owner[c]);
        return true;
      }
      if closeIdle {
        return false;
      }
      ok := StoreIdle(c);
    }

    /** Nobody waits for c: it becomes idle, if the host has room. */
    method StoreIdle(c: Conn) returns (ok: bool)
      requires Valid() && c in owner && owner[c].Held?
      modifies this`idleConn, this`lru, this`owner
      modifies this`closed, this`connsPerHost, this`connsPerHostWait, this`dialing
      ensures Valid() && old(closed) <= closed
      ensures ok <==> |old(IdleAt(idleConn, connKey[c]))| < maxIdleConnsPerHost
      ensures !ok ==> View() == old(View()) && owner == old(owner)
      ensures ok ==> View() == Evict(Join(old(View()), c, connKey[c]), Lim())
      ensures ok && (maxIdleConns == 0 || |old(lru)| < maxIdleConns) ==>
                owner == old(owner)[c := Idle] && lru == [c] + old(lru) && closed == old(closed)
      ensures ok && maxIdleConns != 0 && |old(lru)| >= maxIdleConns ==>
                var all := [c] + old(lru);
                var oldest := all[|all| - 1];
                owner == old(owner)[c := Idle][oldest := Gone] && closed == old(closed) + {oldest}
    {
      hide *;
      ValidIs();
      ok := AddToLists(c);
      if !ok {
        return;
      }
      ViewIs();
      ValidIs();
      EvictIs(View(), Lim());
      if maxIdleConns != 0 && |lru| > maxIdleConns {
        EvictOldest();
        ValidIs();
      }
    }

    method AddToLists(c: Conn) returns (ok: bool)
      requires Known() && IdleSlots() && Deliveries() && c in owner && owner[c].Held?
      modifies this`idleConn, this`lru, this`owner
      ensures Known() && IdleSlots() && Deliveries()
      ensures ok <==> |old(IdleAt(idleConn, connKey[c]))| < maxIdleConnsPerHost
      ensures !ok ==> unchanged(this)
      ensures ok ==> owner == old(owner)[c := Idle] && lru == [c] + old(lru)
      ensures ok ==> View() == Join(old(View()), c, connKey[c])
    {
      hide SlotsOk, DeliveriesOk, Distinct, QueuesIn, NonZero, NonEmpty, Put;
      ListAt(idleConn, connKey[c]);
      SlotsFacts(idleConn, lru, owner, connKey, maxIdleConnsPerHost, c);
      SlotsAdd(idleConn, lru, owner, connKey, maxIdleConnsPerHost, c);
      DeliveriesElsewhere(wants, wantKey, owner, connKey, c, Idle);
      var idles := IdleAt(idleConn, connKey[c]);
      if |idles| >= maxIdleConnsPerHost {
        return false;
      }
      for i := 0 to |idles| {
        assert Has(idles, idles[i]);
        assert idles[i] != c;   // no duplicate in the list
      }
      ListSet(idleConn, connKey[c], idles + [c]);
      idleConn := idleConn[connKey[c] := idles + [c]];
      assert c !in lru;         // not in the LRU list already
      lru := [c] + lru;
      owner := owner[c := Idle];
      return true;
    }

    /** The reader of a connection ends: the connection is not idle any more. */
    method RemoveIdle(c: Conn) returns (removed: bool)
      requires Valid() && c in owner
      modifies this`idleConn, this`lru, this`owner
      ensures Valid() && (removed <==> old(owner[c]).Idle?)
      ensures owner == if InPool(old(owner[c])) then old(owner)[c := Gone] else old(owner)
      ensures View() == Leave(old(View()), c)
    {
      hide SlotsOk, DeliveriesOk, Waits, Counts, Without, Distinct, Has, View, Leave;
      if InPool(owner[c]) {
        DeliveriesElsewhere(wants, wantKey, owner, connKey, c, Gone);
      }
      ghost var was := lru;
      removed := RemoveIdleLocked(c);
    }

    /** The idle timer of a connection: close it if it is still idle. */
    method CloseIfStillIdle(c: Conn)
      requires Valid() && c in owner
      modifies this`idleConn, this`lru, this`owner, this`closed, this`connsPerHost, this`connsPerHostWait, this`dialing
      ensures Valid()
      ensures if InPool(old(owner[c])) then owner == old(owner)[c := Gone] && closed == old(closed) + {c}
              else owner == old(owner) && closed == old(closed)
      ensures View() == AfterTimeout(old(View()), Lim(), c)
    {
      hide SlotsOk, DeliveriesOk, Waits, Counts, Without, Distinct, View, Leave, Shut;
      SlotsFacts(idleConn, lru, owner, connKey, maxIdleConnsPerHost, c);
      ViewIs();
      if c !in lru {
        return;
      }
      var _ := RemoveIdle(c);
      Close(c);
    }

    /** A new request for a connection to host k. */
    method NewWant(w: Want, k: Key)
      requires Valid() && w !in wants
      modifies this`wants, this`wantKey
      ensures Valid() && wants == old(wants)[w := Waiting] && wantKey == old(wantKey)[w := k]
      ensures View() == old(View()).(wants := wants, wantKey := wantKey)
    {
      hide SlotsOk, CountAt, OpenAt, WantQueue.Items, WantQueue.Valid, QueuesIn, NonZero, NonEmpty;
      forall j ensures WantsAt(dialing, wantKey[w := k], j) == WantsAt(dialing, wantKey, j) {
      }
      wants := wants[w := Waiting];
      wantKey := wantKey[w := k];
      forall j: Key | maxConnsPerHost > 0 ensures CountOk(j) {
        assert old(CountOk(j));
      }
    }

    // ----- dialing -----

    ghost function DialWaiters(k: Key): seq<Want>
      reads this`connsPerHostWait
    {
      ItemsAt(connsPerHostWait, k)
    }

    /** Ask for permission to dial: at once below the limit, in turn otherwise. */
    method QueueForDial(w: Want)
      requires Valid() && w in wants && w !in asked
      modifies this`connsPerHost, this`connsPerHostWait, this`asked, this`dialing
      ensures Valid() && asked == old(asked) + {w}
      ensures maxConnsPerHost <= 0 || old(CountAt(connsPerHost, wantKey[w])) < maxConnsPerHost ==>
                dialing == old(dialing) + {w}
      ensures maxConnsPerHost > 0 && old(CountAt(connsPerHost, wantKey[w])) >= maxConnsPerHost ==>
                && dialing == old(dialing)
                && var q := old(DialWaiters(wantKey[w]));
                   DialWaiters(wantKey[w]) == q[FirstWaiting(q, wants)..] + [w]
      ensures View() == AfterAsk(old(View()), Lim(), w)
    {
      hide *;
      ViewIs();
      ValidIs();
      AskIs(View(), Lim(), w);
      var k := wantKey[w];
      AtIs(k);
      if maxConnsPerHost <= 0 {
        StartDial(w);
        UncountedOk();
      } else {
        var n := if k in connsPerHost then connsPerHost[k] else 0;
        CountIs(connsPerHost, k);
        if n < maxConnsPerHost {
          StartCounted(w, n);
        } else {
          WaitToDial(w);
        }
      }
      ValidIs();
    }

    lemma UncountedOk()
      requires maxConnsPerHost <= 0
      ensures Counts()
    {
    }

    method StartDial(w: Want)
      requires Known() && Waits() && w in wants && w !in asked
      modifies this`asked, this`dialing
      ensures Known() && Waits() && asked == old(asked) + {w} && dialing == old(dialing) + {w}
      ensures View() == old(View()).(asked := asked, dialing := dialing)
    {
      hide WantQueue.Items, QueuesIn, NonZero, NonEmpty;
      asked := asked + {w};
      dialing := dialing + {w};
    }

    method StartCounted(w: Want, n: int)
      requires Known() && Waits() && Counts() && w in wants && w !in asked
      requires maxConnsPerHost > 0 && n == CountAt(connsPerHost, wantKey[w]) < maxConnsPerHost
      modifies this`connsPerHost, this`asked, this`dialing
      ensures Known() && Waits() && Counts() && asked == old(asked) + {w} && dialing == old(dialing) + {w}
      ensures View() == old(View()).(asked := asked, dialing := dialing,
                                     counts := PutCount(old(View()).counts, wantKey[w], n + 1))
    {
      hide Waits, WantsAt, OpenAt, NonZero, PutCount, QueuesIn, NonEmpty;
      CountSet(connsPerHost, wantKey[w], n + 1);
      ghost var before := dialing;
      assert CountOk(wantKey[w]);
      connsPerHost := connsPerHost[wantKey[w] := n + 1];
      StartDial(w);
      forall j: Key ensures CountOk(j) {
        assert old(CountOk(j));
        WantsAdd(before, wantKey, w, j);
      }
    }

    method WaitToDial(w: Want)
      requires Known() && Waits() && Counts() && w in wants && w !in asked
      requires maxConnsPerHost > 0 && CountAt(connsPerHost, wantKey[w]) >= maxConnsPerHost
      modifies this`connsPerHostWait, this`asked
      ensures Known() && Waits() && Counts() && asked == old(asked) + {w}
      ensures var q := old(DialWaiters(wantKey[w]));
              && DialWaiters(wantKey[w]) == q[FirstWaiting(q, wants)..] + [w]
              && View() == old(View()).(asked := asked, dialWait := Put(old(View()).dialWait, wantKey[w],
                                                                        q[FirstWaiting(q, wants)..] + [w]))
    {
      hide WantsAt, OpenAt, CountAt, FirstWaiting, WantQueue.Items, WantQueue.Valid, DialWaitOk, IdleWaitOk, QueuesIn,
           Put, NonZero, NonEmpty;
      EmptyQueue();
      var k := wantKey[w];
      var q := if k in connsPerHostWait then connsPerHostWait[k] else EMPTY;
      if k !in connsPerHostWait {
        DialWaitEmpty(EMPTY, k, wantKey, asked, dialing);
      }
      ghost var q0 := q;
      assert DialWaitOk(q0, k, wantKey, asked, dialing);
      DialWaitValid(q0, k, wantKey, asked, dialing);
      forall j | j in connsPerHostWait ensures DialWaitOk(connsPerHostWait[j], j, wantKey, asked + {w}, dialing) {
        DialWaitAsked(connsPerHostWait[j], j, wantKey, asked, dialing, w);
      }
      var cleaned;
      q, cleaned := CleanFront(q, wants);
      DialWaitJoined(q0, FirstWaiting(q0.Items(), wants), q.PushBack(w), k, wantKey, asked, dialing, w);
      QueueSet(connsPerHostWait, k, q.PushBack(w));
      connsPerHostWait := connsPerHostWait[k := q.PushBack(w)];
      asked := asked + {w};
      forall j: Key ensures CountOk(j) {
        assert old(CountOk(j));
      }
    }

    /** A dial becomes a connection that the dialer holds. */
    method Connect(w: Want, c: Conn)
      requires Valid() && w in dialing && w !in failed && c !in connKey
      modifies this`dialing, this`connKey, this`owner
      ensures Valid() && dialing == old(dialing) - {w} && connKey == old(connKey)[c := wantKey[w]]
      ensures owner == old(owner)[c := Held]
      ensures View() == AfterDial(old(View()), w, c)
    {
      hide SlotsOk, DeliveriesOk, WantsAt, OpenAt, CountAt, SomeoneWaits, IdleWaitOk, QueuesIn, NonZero, NonEmpty;
      ghost var before, keys := dialing, connKey;
      SlotsNew(idleConn, lru, owner, connKey, maxIdleConnsPerHost, c, wantKey[w]);
      DeliveriesNew(wants, wantKey, owner, connKey, c, wantKey[w]);
      connKey := connKey[c := wantKey[w]];
      owner := owner[c := Held];
      dialing := dialing - {w};
      forall j: Key | maxConnsPerHost > 0 ensures CountOk(j) {
        assert old(CountOk(j));
        WantsRemove(before, wantKey, w, j);
        OpenAdd(keys, closed, c, wantKey[w], j);
      }
      forall j | j in connsPerHostWait ensures DialWaitOk(connsPerHostWait[j], j, wantKey, asked, dialing) {
        assert old(DialWaitOk(connsPerHostWait[j], j, wantKey, asked, dialing));
      }
    }

    /** The dialer offers the connection to the request it dialed for. If the request does
        not want it any more, the dialer keeps it. */
    method Offer(w: Want, c: Conn) returns (delivered: bool)
      requires Valid() && w in wants && c in owner && owner[c].Held? && connKey[c] == wantKey[w]
      modifies this`owner, this`wants
      ensures Valid()
      ensures delivered <==> old(wants[w].Waiting?)
      ensures delivered ==> wants == old(wants)[w := Got(c)] && owner == old(owner)[c := Delivered(w)]
      ensures !delivered ==> wants == old(wants) && owner == old(owner)
      ensures View() == AfterOffer(old(View()), w, c)
    {
      hide SlotsOk, DeliveriesOk, Counts, Waits, View, AfterOffer;
      SlotsElsewhere(idleConn, lru, owner, connKey, maxIdleConnsPerHost, c, Delivered(w));
      delivered := TryDeliver(w, c);
    }

    /** A dial fails: the request, if it still waits, gets the error. */
    method DialFails(w: Want)
      requires Valid() && w in dialing && w !in failed
      modifies this`wants, this`failed
      ensures Valid() && failed == old(failed) + {w}
      ensures wants == if old(wants[w].Waiting?) then old(wants)[w := Done] else old(wants)
      ensures View() == AfterError(old(View()), w)
    {
      hide SlotsOk, Waits, Counts, QueuesIn, NonZero, NonEmpty;
      if wants[w].Waiting? {
        wants := wants[w := Done];
      }
      failed := failed + {w};
    }

    /** After that it gives up its place. */
    method GiveUpDial(w: Want)
      requires Valid() && w in failed
      modifies this`failed, this`dialing, this`connsPerHost, this`connsPerHostWait
      ensures Valid() && failed == old(failed) - {w} && old(dialing) - {w} <= dialing
      ensures View() == AfterGiveUp(old(View()), Lim(), w)
    {
      hide SlotsOk, DeliveriesOk, WantsAt, OpenAt, CountAt, SomeoneWaits, IdleWaitOk, QueuesIn, NonZero, NonEmpty,
           GiveBack;
      ghost var before := dialing;
      failed := failed - {w};
      dialing := dialing - {w};
      forall j ensures |WantsAt(before - {w}, wantKey, j)| ==
             |WantsAt(before, wantKey, j)| - (if wantKey[w] == j then 1 else 0) {
        WantsRemove(before, wantKey, w, j);
      }
      assert old(maxConnsPerHost > 0 ==> CountOk(wantKey[w]));
      forall j: Key | maxConnsPerHost > 0 && j != wantKey[w] ensures CountOk(j) {
        assert old(CountOk(j));
      }
      forall j | j in connsPerHostWait ensures DialWaitOk(connsPerHostWait[j], j, wantKey, asked, dialing) {
        assert old(DialWaitOk(connsPerHostWait[j], j, wantKey, asked, dialing));
      }
      Release(wantKey[w]);
    }

    // ----- looking for an idle connection -----

    /** The last idle connection of host k is not used any more. */
    method DoomLast(k: Key)
      requires Known() && IdleSlots() && Deliveries() && IdleAt(idleConn, k) != []
      modifies this`idleConn, this`owner
      ensures Known() && IdleSlots() && Deliveries()
      ensures var list := old(IdleAt(idleConn, k));
              && list[|list| - 1] in old(owner) && k in idleConn
              && IdleAt(idleConn, k) == list[..|list| - 1]
              && NonEmpty(idleConn) == Put(old(NonEmpty(idleConn)), k, list[..|list| - 1])
              && owner == old(owner)[list[|list| - 1] := Doomed]
    {
      hide SlotsOk, DeliveriesOk, Without, Distinct, Has, NonEmpty, Put, ListsWithout;
      ListSet(idleConn, k, IdleAt(idleConn, k)[..|IdleAt(idleConn, k)| - 1]);
      var list := idleConn[k];
      var c := list[|list| - 1];
      LastIdle(k, idleConn, lru, owner, connKey, maxIdleConnsPerHost);
      ghost var before := idleConn;
      idleConn := idleConn[k := list[..|list| - 1]];
      SlotsDoom(before, idleConn, lru, owner, connKey, maxIdleConnsPerHost, c);
      DeliveriesElsewhere(wants, wantKey, owner, connKey, c, Doomed);
      owner := owner[c := Doomed];
    }

    /** The last idle connection of host k goes to w, if w still waits. */
    method DeliverLast(k: Key, w: Want) returns (delivered: bool)
      requires Known() && IdleSlots() && Deliveries() && IdleAt(idleConn, k) != [] && w in wants && wantKey[w] == k
      modifies this`idleConn, this`lru, this`owner, this`wants
      ensures Known() && IdleSlots() && Deliveries() && |lru| <= |old(lru)|
      ensures delivered <==> old(wants[w].Waiting?)
      ensures !delivered ==> unchanged(this)
      ensures var list := old(IdleAt(idleConn, k));
              var c := list[|list| - 1];
              delivered ==>
                && wants == old(wants)[w := Got(c)] && owner == old(owner)[c := Delivered(w)]
                && IdleAt(idleConn, k) == list[..|list| - 1]
                && View() == Deliver(old(View()).(idle := Put(old(View()).idle, k, list[..|list| - 1]),
                                                  lru := Without(old(lru), c)), w, c)
    {
      hide SlotsOk, DeliveriesOk, Without, Distinct, Has, NonEmpty, Put, ListsWithout, QueuesIn, NonZero;
      ListSet(idleConn, k, IdleAt(idleConn, k)[..|IdleAt(idleConn, k)| - 1]);
      var list := idleConn[k];
      var c := list[|list| - 1];
      LastIdle(k, idleConn, lru, owner, connKey, maxIdleConnsPerHost);
      ghost var o, before, was := owner, idleConn, lru;
      delivered := TryDeliver(w, c);
      if delivered {
        lru := Without(lru, c);
        idleConn := idleConn[k := list[..|list| - 1]];
        SlotsRemove(before, idleConn, was, o, connKey, maxIdleConnsPerHost, c);
        SlotsElsewhere(idleConn, lru, o[c := Gone], connKey, maxIdleConnsPerHost, c, Delivered(w));
        assert o[c := Gone][c := Delivered(w)] == owner;
      }
    }

    /** Register w for the next connection that becomes idle. */
    method WaitForIdle(w: Want)
      requires Valid() && w in wantKey
      modifies this`idleConnWait
      ensures Valid()
      ensures var q := old(IdleWaiters(wantKey[w]));
              IdleWaiters(wantKey[w]) == q[FirstWaiting(q, wants)..] + [w]
      ensures var p, k := old(View()), wantKey[w];
              View() == p.(idleWait := Put(p.idleWait, k, Enqueue(At(p.idleWait, k), p.wants, w)))
    {
      hide FirstWaiting, WantQueue.Items, WantQueue.Valid, DialWaitOk, QueuesIn, Put, NonEmpty, NonZero;
      hide Known, IdleLists, Deliveries, Counts;
      AtIs(wantKey[w]);
      EmptyQueue();
      var k := wantKey[w];
      var q := if k in idleConnWait then idleConnWait[k] else EMPTY;
      var cleaned;
      q, cleaned := CleanFront(q, wants);
      QueueSet(idleConnWait, k, q.PushBack(w));
      idleConnWait := idleConnWait[k := q.PushBack(w)];
    }

    /** A request looks for an idle connection: it gets the one used last that is
        neither broken nor too old, or else waits for the next one. */
    method QueueForIdle(w: Want, tooOld: set<Conn>) returns (delivered: bool)
      requires Valid() && w in wants && wants[w].Waiting?
      modifies this`idleConn, this`idleConnWait, this`lru, this`closeIdle, this`wants, this`owner
      ensures Valid()
      ensures delivered <==> !disableKeepAlives && Usable(old(IdleAt(idleConn, wantKey[w])), closed + tooOld) > 0
      ensures View() == AfterLook(old(View()), Lim(), w, tooOld)
    {
      hide *;
      ValidIs();
      ViewIs();
      ghost var p := View();
      AtIs(wantKey[w]);
      LookIs(p, Lim(), w, tooOld);
      if disableKeepAlives {
        return false;
      }
      Reopen();
      SearchKeeps(View(), w, wantKey[w], closed + tooOld);
      delivered := Search(w, tooOld);
      if !delivered {
        WaitForIdle(w);
      }
    }

    method Search(w: Want, tooOld: set<Conn>) returns (delivered: bool)
      requires Valid() && w in wants && w in wantKey && wants[w].Waiting?
      modifies this`idleConn, this`lru, this`wants, this`owner
      ensures Valid()
      ensures delivered <==> Usable(old(IdleAt(idleConn, wantKey[w])), closed + tooOld) > 0
      ensures View() == AfterSearch(old(View()), w, wantKey[w], closed + tooOld)
    {
      hide *;
      ValidIs();
      delivered := SearchIdle(w, tooOld);
      ValidIs();
    }

    method Reopen()
      requires Valid()
      modifies this`closeIdle
      ensures Valid() && !closeIdle && View() == old(View()).(closeIdle := false)
    {
      hide Known, IdleLists, Deliveries, Waits, Counts, QueuesIn, NonZero, NonEmpty;
      closeIdle := false;
    }

    /** From the end of the list, the connections that must not be used are passed over. */
    method SkipUnfit(k: Key, tooOld: set<Conn>)
      requires Known() && IdleSlots() && Deliveries() && k in idleConn
      modifies this`idleConn, this`owner
      ensures Known() && IdleSlots() && Deliveries() && k in idleConn
      ensures var list := old(idleConn[k]);
              var n := Usable(list, closed + tooOld);
              && idleConn[k] == list[..n]
              && View() == old(View()).(idle := Put(old(View()).idle, k, list[..n]), owner := owner)
              && Searched(list, n, old(owner), owner, closed + tooOld)
              && (n > 0 ==> list[n - 1] in owner && owner[list[n - 1]].Idle?)
    {
      hide *;
      ghost var all, unfit := idleConn[k], closed + tooOld;
      SearchedStart(all, owner, unfit);
      IdleIs(idleConn, k);
      ValidIs();
      ViewIs();
      while |idleConn[k]| > 0
        invariant Known() && IdleSlots() && Deliveries() && k in idleConn
        invariant |idleConn[k]| <= |all| && idleConn[k] == all[..|idleConn[k]|]
        invariant Searched(all, |idleConn[k]|, old(owner), owner, unfit)
        invariant NonEmpty(idleConn) == Put(old(NonEmpty(idleConn)), k, idleConn[k])
        decreases |idleConn[k]|
      {
        var list := idleConn[k];
        var pconn := list[|list| - 1];
        ValidIs();
        IdleIs(idleConn, k);
        LastIdle(k, idleConn, lru, owner, connKey, maxIdleConnsPerHost);
        if pconn !in closed && pconn !in tooOld {
          SearchedHit(all, |list|, old(owner), owner, unfit);
          ViewIs();
          return;
        }
        PutTwice(old(NonEmpty(idleConn)), k, list, list[..|list| - 1]);
        SearchedSkip(all, |list|, old(owner), owner, unfit);
        DoomLast(k);
        IdleIs(idleConn, k);
      }
      SearchedAll(all, old(owner), owner, unfit);
      ViewIs();
    }

    method SearchIdle(w: Want, tooOld: set<Conn>) returns (delivered: bool)
      requires Known() && IdleSlots() && Deliveries() && w in wants && w in wantKey && wants[w].Waiting?
      modifies this`idleConn, this`lru, this`wants, this`owner
      ensures Known() && IdleSlots() && Deliveries() && |lru| <= |old(lru)|
      ensures delivered <==> Usable(old(IdleAt(idleConn, wantKey[w])), closed + tooOld) > 0
      ensures View() == AfterSearch(old(View()), w, wantKey[w], closed + tooOld)
    {
      hide *;
      var k := wantKey[w];
      IdleIs(idleConn, k);
      if k in idleConn {
        delivered := SearchList(k, w, tooOld);
      } else {
        delivered := false;
        ViewIs();
        AtIs(k);
        ghost var unfit := closed + tooOld;
        SearchIs(View(), w, k, unfit);
        SearchedStart([], owner, unfit);
        SearchedAll([], owner, owner, unfit);
      }
    }

    method SearchList(k: Key, w: Want, tooOld: set<Conn>) returns (delivered: bool)
      requires Known() && IdleSlots() && Deliveries() && k in idleConn
      requires w in wants && w in wantKey && wantKey[w] == k && wants[w].Waiting?
      modifies this`idleConn, this`lru, this`wants, this`owner
      ensures Known() && IdleSlots() && Deliveries() && |lru| <= |old(lru)|
      ensures delivered <==> Usable(old(idleConn[k]), closed + tooOld) > 0
      ensures k in idleConn ==> idleConn[k] != []
      ensures View() == AfterSearch(old(View()), w, k, closed + tooOld)
    {
      hide *;
      ghost var p, o := View(), owner;
      ViewIs();
      AtIs(k);
      IdleIs(idleConn, k);
      ghost var all, unfit := idleConn[k], closed + tooOld;
      SearchIs(p, w, k, unfit);
      SkipUnfit(k, tooOld);
      IdleIs(idleConn, k);
      if |idleConn[k]| > 0 {
        SearchedHit(all, |idleConn[k]|, o, owner, unfit);
        delivered := DeliverLast(k, w);
        SearchFound(p, View(), w, k, unfit);
      } else {
        delivered := false;
        SearchedAll(all, o, owner, unfit);
      }
      DropEmpty(k);
    }

    /** An empty list of idle connections is not kept. */
    method DropEmpty(k: Key)
      requires IdleSlots()
      modifies this`idleConn
      ensures IdleSlots() && (k in idleConn ==> idleConn[k] != []) && View() == old(View())
    {
      hide Has, Distinct, QueuesIn, NonZero, NonEmpty, Put;
      ListSet(idleConn, k, []);
      IdleIs(idleConn, k);
      if k in idleConn && |idleConn[k]| == 0 {
        ghost var before := idleConn;
        idleConn := idleConn - {k};
        assert forall j :: IdleAt(idleConn, j) == IdleAt(before, j);
      }
    }

    /** All idle connections are taken out of the pool, to be closed one by one. */
    method CloseIdleConnections()
      requires Valid()
      modifies this`idleConn, this`lru, this`closeIdle, this`owner
      ensures Valid() && closeIdle && lru == []
      ensures owner == AfterCloseIdle(old(owner))
      ensures View() == old(View()).(idle := map[], lru := [], closeIdle := true, owner := owner)
    {
      hide Waits, Counts, SlotsOk, DeliveriesOk, QueuesIn, NonZero;
      ClearPool(wants, wantKey, idleConn, lru, owner, connKey, maxIdleConnsPerHost);
      idleConn, lru, closeIdle := map[], [], true;
      owner := AfterCloseIdle(owner);
    }

    constructor (disableKeepAlives: bool, maxIdleConnsPerHost: int, maxIdleConns: int, maxConnsPerHost: int)
      ensures Valid() && owner == map[] && closed == {} && wants == map[] && asked == dialing == failed == {}
      ensures connKey == map[] && idleConn == map[] && idleConnWait == map[] && lru == [] && !closeIdle
      ensures View() == EMPTY_POOL
              && Lim() == Limits(disableKeepAlives, maxIdleConnsPerHost, maxIdleConns, maxConnsPerHost)
      ensures this.maxConnsPerHost == maxConnsPerHost && this.maxIdleConns == maxIdleConns
      ensures this.maxIdleConnsPerHost == maxIdleConnsPerHost && this.disableKeepAlives == disableKeepAlives
    {
      this.disableKeepAlives, this.maxIdleConnsPerHost := disableKeepAlives, maxIdleConnsPerHost;
      this.maxIdleConns, this.maxConnsPerHost := maxIdleConns, maxConnsPerHost;
      idleConn, idleConnWait, lru, closeIdle := map[], map[], [], false;
      connsPerHost, connsPerHostWait := map[], map[];
      wants, wantKey, connKey, closed := map[], map[], map[], {};
      owner, asked, dialing, failed := map[], {}, {}, {};
      new;
      forall k: Key ensures CountAt(connsPerHost, k) == |WantsAt(dialing, wantKey, k)|
             + |OpenAt(connKey, closed, k)| == 0 {
        assert WantsAt(dialing, wantKey, k) == {} && OpenAt(connKey, closed, k) == {};
      }
    }

    /** Whether a step is possible now. */
    method Able(step: Step) returns (able: bool)
      ensures able <==> Enabled(View(), step)
    {
      hide NonEmpty, QueuesIn, NonZero;
      return Enabled(Pool(map[], map[], [], false, map[], map[], wants, wantKey, connKey, closed, owner, asked, dialing,
                          failed), step);
    }

    // ----- what this means -----

    /** No connection is idle in two places, idle and delivered, or delivered twice. */
    ghost predicate Exclusive()
      reads this
    {
      && (forall k :: Distinct(IdleAt(idleConn, k))) && Distinct(lru)
      && (forall j, k, c :: Has(IdleAt(idleConn, j), c) && Has(IdleAt(idleConn, k), c) ==> j == k)
      && (forall v, w :: v in wants && w in wants && wants[v].Got? && wants[v] == wants[w] ==> v == w)
      && (forall k, w :: w in wants && wants[w].Got? ==> !Has(IdleAt(idleConn, k), wants[w].conn))
    }

    lemma Ownership()
      requires Valid()
      ensures Exclusive()
    {
      forall v, w | v in wants && w in wants && wants[v].Got? && wants[v] == wants[w] ensures v == w {
        assert owner[wants[v].conn] == Delivered(v) && owner[wants[w].conn] == Delivered(w);
      }
      forall j, k, c | Has(IdleAt(idleConn, j), c) && Has(IdleAt(idleConn, k), c) ensures j == k {
        assert connKey[c] == j && connKey[c] == k;
      }
    }
  }

  lemma ClearPool(wants: map<Want, WantState>, wantKey: map<Want, Key>, idleConn: map<Key, seq<Conn>>, lru: seq<Conn>,
                  owner: map<Conn, Owner>, connKey: map<Conn, Key>, max: int)
    requires SlotsOk(idleConn, lru, owner, connKey, max) && DeliveriesOk(wants, wantKey, owner, connKey)
    ensures SlotsOk(map[], [], AfterCloseIdle(owner), connKey, max)
    ensures DeliveriesOk(wants, wantKey, AfterCloseIdle(owner), connKey)
  {
    forall c ensures !Has([], c) {
    }
  }

  /** One step of any goroutine: what it makes of the pool, and that it can be made. */
  method Take(t: Transport, step: Step)
    requires t.Valid() && Enabled(t.View(), step)
    modifies t
    ensures t.Valid() && t.View() == After(old(t.View()), t.Lim(), step)
  {
    hide *;
    ghost var p := t.View();
    t.ViewIs();
    t.ValidIs();
    EnabledIs(p, step);
    AfterIs(p, t.Lim(), step);
    var flag;
    match step
    case Request(w, k) => t.NewWant(w, k);
    case LookForIdle(w, tooOld) => flag := t.QueueForIdle(w, tooOld);
    case AskToDial(w) => t.QueueForDial(w);
    case Dialed(w, c) => t.Connect(w, c);
    case OfferDialed(w, c) => flag := t.Offer(w, c);
    case DialError(w) => t.DialFails(w);
    case DialGivenUp(w) => t.GiveUpDial(w);
    case EndRequest(w) => t.End(w);
    case PutBack(c, sawBroken) => flag := t.PutIdle(c, sawBroken);
    case CloseConn(c) =>
      t.Close(c);
      t.ValidIs();
    case ReaderEnds(c) => flag := t.RemoveIdle(c);
    case IdleTimeout(c) => t.CloseIfStillIdle(c);
    case CloseAllIdle => t.CloseIdleConnections();
  }

  lemma EnabledIs(p: Pool, s: Step)
    ensures Enabled(p, s) <==>
            match s
            case Request(w, k) => w !in p.wants
            case LookForIdle(w, tooOld) => w in p.wants && p.wants[w].Waiting?
            case AskToDial(w) => w in p.wants && w !in p.asked
            case Dialed(w, c) => w in p.dialing && w !in p.failed && c !in p.connKey
            case OfferDialed(w, c) =>
              && w in p.wants && w in p.wantKey && c in p.owner && p.owner[c].Held? && c in p.connKey
              && p.connKey[c] == p.wantKey[w]
            case DialError(w) => w in p.dialing && w !in p.failed
            case DialGivenUp(w) => w in p.failed
            case EndRequest(w) => w in p.wants
            case PutBack(c, sawBroken) => c in p.owner && p.owner[c].Held? && (sawBroken ==> c in p.closed)
            case CloseConn(c) => c in p.connKey
            case ReaderEnds(c) => c in p.owner && c in p.closed
            case IdleTimeout(c) => c in p.owner
            case CloseAllIdle => true
  {
  }

  lemma AfterIs(p: Pool, lim: Limits, s: Step)
    ensures After(p, lim, s) ==
            match s
            case Request(w, k) => p.(wants := p.wants[w := Waiting], wantKey := p.wantKey[w := k])
            case LookForIdle(w, tooOld) => AfterLook(p, lim, w, tooOld)
            case AskToDial(w) => AfterAsk(p, lim, w)
            case Dialed(w, c) => AfterDial(p, w, c)
            case OfferDialed(w, c) => AfterOffer(p, w, c)
            case DialError(w) => AfterError(p, w)
            case DialGivenUp(w) => AfterGiveUp(p, lim, w)
            case EndRequest(w) => AfterEnd(p, w)
            case PutBack(c, sawBroken) => AfterPut(p, lim, c, sawBroken)
            case CloseConn(c) => Shut(p, lim, c)
            case ReaderEnds(c) => Leave(p, c)
            case IdleTimeout(c) => AfterTimeout(p, lim, c)
            case CloseAllIdle => p.(idle := map[], lru := [], closeIdle := true, owner := AfterCloseIdle(p.owner))
  {
  }

  /** Any run, in any order of steps, goes through the states of the model: ownership stays
      exclusive and the counts stay right, so none of the pool's internal failures can happen;
      no connection is forgotten unclosed unless some was found too old and the pool is emptied;
      and no request that waits is forgotten. */
  method Run(steps: seq<Step>, disableKeepAlives: bool, maxIdleConnsPerHost: int, maxIdleConns: int,
             maxConnsPerHost: int)
    returns (t: Transport)
    ensures fresh(t) && t.Valid() && t.Exclusive()
    ensures t.View() == RunPool(t.Lim(), steps)
    ensures t.Lim() == Limits(disableKeepAlives, maxIdleConnsPerHost, maxIdleConns, maxConnsPerHost)
    ensures CloseAllIdle !in steps || NoneTooOld(steps) ==> NoLeak(t.owner, t.closed)
    ensures Queued(t.View(), Looked(t.Lim(), steps)) && Asking(t.View(), Connected(t.Lim(), steps))
  {
    hide *;
    t := new Transport(disableKeepAlives, maxIdleConnsPerHost, maxIdleConns, maxConnsPerHost);
    ghost var lim := t.Lim();
    RunNone(lim, steps);
    for i := 0 to |steps|
      invariant fresh(t) && t.Valid() && t.Lim() == lim && t.View() == RunPool(lim, steps[..i])
    {
      RunMore(lim, steps, i);
      var able := t.Able(steps[i]);
      OneStep(t.View(), lim, steps[i]);
      if able {
        Take(t, steps[i]);
      }
    }
    assert steps[..|steps|] == steps;
    t.ViewIs();
    t.Ownership();
    LeakRun(lim, steps);
    QueuedRun(lim, steps);
    AskingRun(lim, steps);
  }

  lemma RunNone(lim: Limits, steps: seq<Step>)
    ensures RunPool(lim, steps[..0]) == EMPTY_POOL
  {
  }

  lemma OneStep(p: Pool, lim: Limits, s: Step)
    ensures After1(p, lim, s) == if Enabled(p, s) then After(p, lim, s) else p
  {
    hide After, Enabled;
  }

  /** Everything from n on was given up, and the search goes on below. */
  ghost predicate Searched(all: seq<Conn>, n: nat, before: map<Conn, Owner>, owner: map<Conn, Owner>,
                           unfit: set<Conn>) {
    && n <= |all|
    && Usable(all, unfit) == Usable(all[..n], unfit)
    && owner == Doom(before, all[n..])
  }

  lemma SearchedStart(all: seq<Conn>, owner: map<Conn, Owner>, unfit: set<Conn>)
    ensures Searched(all, |all|, owner, owner, unfit) && all[..|all|] == all
  {
    assert all[|all|..] == [];
  }

  lemma SearchedSkip(all: seq<Conn>, n: nat, before: map<Conn, Owner>, owner: map<Conn, Owner>, unfit: set<Conn>)
    requires Searched(all, n, before, owner, unfit) && n > 0 && all[n - 1] in unfit
    requires all[n - 1] in owner && owner[all[n - 1]].Idle?
    ensures Searched(all, n - 1, before, owner[all[n - 1] := Doomed], unfit) && all[..n][..n - 1] == all[..n - 1]
  {
    assert all[..n][..n - 1] == all[..n - 1];
    DoomMore(before, all, n);
  }

  lemma DoomMore(owner: map<Conn, Owner>, all: seq<Conn>, n: nat)
    requires 0 < n <= |all| && all[n - 1] in owner
    ensures Doom(owner, all[n..])[all[n - 1] := Doomed] == Doom(owner, all[n - 1..])
  {
    assert all[n - 1..] == [all[n - 1]] + all[n..];
  }

  lemma SearchedHit(all: seq<Conn>, n: nat, before: map<Conn, Owner>, owner: map<Conn, Owner>, unfit: set<Conn>)
    requires Searched(all, n, before, owner, unfit) && n > 0 && all[n - 1] !in unfit
    requires all[n - 1] in owner && owner[all[n - 1]].Idle?
    ensures Usable(all, unfit) == n && owner == Doom(before, all[n..])
  {
  }

  lemma SearchedAll(all: seq<Conn>, before: map<Conn, Owner>, owner: map<Conn, Owner>, unfit: set<Conn>)
    requires Searched(all, 0, before, owner, unfit)
    ensures Usable(all, unfit) == 0 && owner == Doom(before, all[0..])
  {
  }

  lemma LastIdle(k: Key, idleConn: map<Key, seq<Conn>>, lru: seq<Conn>, owner: map<Conn, Owner>,
                 connKey: map<Conn, Key>, max: int)
    requires SlotsOk(idleConn, lru, owner, connKey, max) && IdleAt(idleConn, k) != []
    ensures var list := IdleAt(idleConn, k);
            var c := list[|list| - 1];
            && c in owner && owner[c].Idle? && c in connKey && connKey[c] == k
            && |Without(lru, c)| <= |lru|
            && ListsWithout(idleConn, idleConn[k := list[..|list| - 1]], k, c)
  {
    var list := IdleAt(idleConn, k);
    WithoutLast(list);
    assert Has(list, list[|list| - 1]);
  }

  lemma LastKnown(lru: seq<Conn>, idleConn: map<Key, seq<Conn>>, owner: map<Conn, Owner>, connKey: map<Conn, Key>,
                  max: int)
    requires SlotsOk(idleConn, lru, owner, connKey, max) && lru != []
    ensures var c := lru[|lru| - 1];
            && c in owner && c in connKey && InPool(owner[c]) && Distinct(IdleAt(idleConn, connKey[c]))
            && Without(lru, c) == lru[..|lru| - 1]
  {
    WithoutLast(lru);
    assert Has(lru, lru[|lru| - 1]);
  }

  // ----- a connection that leaks -----

  /** Request 1 dials connection 7, is done with it and puts it back. Request 2 finds it too
      old, and the pool is emptied before its closer runs. */
  function LeakySteps(k: Key): seq<Step> {
    [Request(1, k), AskToDial(1), Dialed(1, 7), OfferDialed(1, 7), EndRequest(1), PutBack(7, false), Request(2, k),
     LookForIdle(2, {7}), CloseAllIdle]
  }

  lemma LeakyDial(lim: Limits, k: Key)
    requires lim == Limits(false, 2, 0, 0)
    ensures RunPool(lim, LeakySteps(k)[..3]) ==
            EMPTY_POOL.(wants := map[1 := Waiting], wantKey := map[1 := k], asked := {1}, connKey := map[7 := k],
                        owner := map[7 := Held])
  {
    var s := LeakySteps(k);
    RunNone(lim, s);
    RunMore(lim, s, 0);
    RunMore(lim, s, 1);
    RunMore(lim, s, 2);
    hide RunPool;
    assert RunPool(lim, s[..1]) == EMPTY_POOL.(wants := map[1 := Waiting], wantKey := map[1 := k]);
  }

  lemma LeakyHeld(lim: Limits, k: Key)
    requires lim == Limits(false, 2, 0, 0)
    ensures RunPool(lim, LeakySteps(k)[..5]) ==
            EMPTY_POOL.(wants := map[1 := Done], wantKey := map[1 := k], asked := {1}, connKey := map[7 := k],
                        owner := map[7 := Held])
  {
    var s := LeakySteps(k);
    LeakyDial(lim, k);
    RunMore(lim, s, 3);
    RunMore(lim, s, 4);
    hide RunPool;
  }

  lemma LeakyIdle(lim: Limits, k: Key)
    requires lim == Limits(false, 2, 0, 0)
    ensures RunPool(lim, LeakySteps(k)[..7]) ==
            EMPTY_POOL.(wants := map[1 := Done, 2 := Waiting], wantKey := map[1 := k, 2 := k], asked := {1},
                        connKey := map[7 := k], owner := map[7 := Idle], idle := map[k := [7]], lru := [7])
  {
    var s := LeakySteps(k);
    LeakyHeld(lim, k);
    RunMore(lim, s, 5);
    RunMore(lim, s, 6);
    var p := RunPool(lim, s[..5]);
    hide RunPool, After, Evict, Serve;
    AfterIs(p, lim, s[5]);
    PutIs(p, lim, 7, false);
    ServeNobody(p, 7, k);
    var idle: seq<Conn>, lru: seq<Conn> := [], [];
    assert idle + [7] == [7] && [7] + lru == [7];
    assert Join(p, 7, k) == p.(idle := map[k := [7]], lru := [7], owner := map[7 := Idle]);
    EvictIs(Join(p, 7, k), lim);
    assert RunPool(lim, s[..6]) == Join(p, 7, k);
    AfterIs(RunPool(lim, s[..6]), lim, s[6]);
  }

  lemma ServeNobody(p: Pool, c: Conn, k: Key)
    requires p.idleWait == map[]
    ensures Serve(p, c, k) == p
  {
    assert Put<Want>(map[], k, []) == map[];
  }

  lemma LeakyDoomed(lim: Limits, k: Key)
    requires lim == Limits(false, 2, 0, 0)
    ensures var p := RunPool(lim, LeakySteps(k)[..8]); p.owner == map[7 := Doomed] && p.closed == {}
  {
    var s := LeakySteps(k);
    LeakyIdle(lim, k);
    RunMore(lim, s, 7);
    var p := RunPool(lim, s[..7]);
    hide RunPool, After, AfterLook, AfterSearch;
    AfterIs(p, lim, s[7]);
    LookIs(p, lim, 2, {7});
    SearchIs(p.(closeIdle := false), 2, k, p.closed + {7});
    assert Usable([7], p.closed + {7}) == 0;
    assert [7][0..] == [7];
    assert Doom(map[7 := Idle], [7]) == map[7 := Doomed];
  }

  lemma LeakyEnd(lim: Limits, k: Key)
    requires lim == Limits(false, 2, 0, 0)
    ensures var p := RunPool(lim, LeakySteps(k)); p.owner == map[7 := Gone] && p.closed == {}
  {
    var s := LeakySteps(k);
    LeakyDoomed(lim, k);
    RunMore(lim, s, 8);
    var p := RunPool(lim, s[..8]);
    hide RunPool, After;
    AfterIs(p, lim, s[8]);
    assert s[..9] == s;
    assert AfterCloseIdle(map[7 := Doomed]) == map[7 := Gone];
  }

  method LeaksAConn(k: Key) returns (t: Transport)
    ensures t.Valid() && 7 in t.owner && t.owner[7].Gone? && 7 !in t.closed
  {
    hide *;
    t := Run(LeakySteps(k), false, 2, 0, 0);
    LeakyEnd(t.Lim(), k);
    t.ViewIs();
  }
}
