/** The connection pool as a value, and what each step makes of it. */
module PoolModel {
  import opened Common

  /** Hosts, connections and waiting requests, known by their identity. */
  type Key = nat
  type Conn = nat
  type Want = nat

  datatype WantState = Waiting | Got(conn: Conn) | Done

  /** Who may use a connection: a goroutine that holds it (a dialer, a round
      trip, a canceler), the idle list, nobody because it only waits to be
      closed, the request it was delivered to, or nobody any more. */
  datatype Owner = Held | Idle | Doomed | Delivered(want: Want) | Gone

  predicate InPool(o: Owner) {
    o.Idle? || o.Doomed?
  }

  datatype Limits = Limits(disableKeepAlives: bool, maxIdlePerHost: int, maxIdle: int, maxPerHost: int)

  /** Hosts without idle connections, waiting requests or places in use have no entry. */
  datatype Pool = Pool(
    idle: map<Key, seq<Conn>>,
    idleWait: map<Key, seq<Want>>,
    lru: seq<Conn>,
    closeIdle: bool,
    counts: map<Key, int>,
    dialWait: map<Key, seq<Want>>,
    wants: map<Want, WantState>,
    wantKey: map<Want, Key>,
    connKey: map<Conn, Key>,
    closed: set<Conn>,
    owner: map<Conn, Owner>,
    asked: set<Want>,
    dialing: set<Want>,
    failed: set<Want>)

  /** What the goroutines around a transport may do next. */
  datatype Step =
    | Request(w: Want, k: Key)
    | LookForIdle(w: Want, tooOld: set<Conn>)
    | AskToDial(w: Want)
    | Dialed(w: Want, c: Conn)
    | OfferDialed(w: Want, c: Conn)
    | DialError(w: Want)
    | DialGivenUp(w: Want)
    | EndRequest(w: Want)
    | PutBack(c: Conn, sawBroken: bool)
    | CloseConn(c: Conn)
    | ReaderEnds(c: Conn)
    | IdleTimeout(c: Conn)
    | CloseAllIdle

  // ---------- lists and counts by host ----------

  function At<V>(m: map<Key, seq<V>>, k: Key): seq<V> {
    if k in m then m[k] else []
  }

  function Put<V>(m: map<Key, seq<V>>, k: Key, s: seq<V>): map<Key, seq<V>> {
    if s == [] then m - {k} else m[k := s]
  }

  function CountAt(m: map<Key, int>, k: Key): int {
    if k in m then m[k] else 0
  }

  function PutCount(m: map<Key, int>, k: Key, n: int): map<Key, int> {
    if n == 0 then m - {k} else m[k := n]
  }

  /** s without its first x. */
  function Without(s: seq<nat>, x: nat): (r: seq<nat>)
    ensures |r| <= |s|
  {
    if s == [] then [] else if s[0] == x then s[1..] else [s[0]] + Without(s[1..], x)
  }

  /** The first position in s of a request that still waits, or |s|. */
  function FirstWaiting(s: seq<Want>, wants: map<Want, WantState>): (i: nat)
    ensures i <= |s|
    ensures forall j :: 0 <= j < i ==> s[j] !in wants || !wants[s[j]].Waiting?
    ensures i < |s| ==> s[i] in wants && wants[s[i]].Waiting?
  {
    if s == [] then 0
    else if s[0] in wants && wants[s[0]].Waiting? then 0
    else 1 + FirstWaiting(s[1..], wants)
  }

  /** The number of idle connections of a host up to the last usable one. */
  function Usable(list: seq<Conn>, bad: set<Conn>): (n: nat)
    ensures n <= |list|
    ensures forall i :: n <= i < |list| ==> list[i] in bad
    ensures n > 0 ==> list[n - 1] !in bad
  {
    if list == [] then 0
    else if list[|list| - 1] in bad then Usable(list[..|list| - 1], bad)
    else |list|
  }

  // ---------- what a step does ----------

  /** A place at host k is free: the first request that still waits to dial takes it. */
  function GiveBack(p: Pool, lim: Limits, k: Key): Pool {
    var q := At(p.dialWait, k);
    var i := FirstWaiting(q, p.wants);
    if lim.maxPerHost <= 0 then p
    else if i < |q| then p.(dialWait := Put(p.dialWait, k, q[i + 1..]), dialing := p.dialing + {q[i]})
    else p.(dialWait := Put(p.dialWait, k, []), counts := PutCount(p.counts, k, CountAt(p.counts, k) - 1))
  }

  /** c is closed; only the first close gives up its place. */
  function Shut(p: Pool, lim: Limits, c: Conn): Pool {
    if c in p.closed || c !in p.connKey then p
    else GiveBack(p.(closed := p.closed + {c}), lim, p.connKey[c])
  }

  function Deliver(p: Pool, w: Want, c: Conn): Pool {
    p.(wants := p.wants[w := Got(c)], owner := p.owner[c := Delivered(w)])
  }

  /** c leaves the idle list of its host and the LRU list. */
  function Leave(p: Pool, c: Conn): Pool {
    if c !in p.connKey || c !in p.owner then p
    else
      var k := p.connKey[c];
      p.(idle := Put(p.idle, k, Without(At(p.idle, k), c)), lru := Without(p.lru, c),
         owner := if InPool(p.owner[c]) then p.owner[c := Gone] else p.owner)
  }

  /** c joins both, as the one used last. */
  function Join(p: Pool, c: Conn, k: Key): Pool {
    p.(idle := Put(p.idle, k, At(p.idle, k) + [c]), lru := [c] + p.lru, owner := p.owner[c := Idle])
  }

  function Evict(p: Pool, lim: Limits): Pool {
    if lim.maxIdle == 0 || |p.lru| <= lim.maxIdle || p.lru == [] then p
    else
      var oldest := p.lru[|p.lru| - 1];
      Leave(Shut(p, lim, oldest), oldest)
  }

  /** c goes to the first request that still waits for an idle connection to its host. */
  function Serve(p: Pool, c: Conn, k: Key): Pool {
    var q := At(p.idleWait, k);
    var i := FirstWaiting(q, p.wants);
    var r := p.(idleWait := Put(p.idleWait, k, q[if i < |q| then i + 1 else i..]));
    if i < |q| then Deliver(r, q[i], c) else r
  }

  function AfterPut(p: Pool, lim: Limits, c: Conn, sawBroken: bool): Pool {
    if lim.disableKeepAlives || lim.maxIdlePerHost < 0 || sawBroken || c !in p.connKey then p
    else
      var k := p.connKey[c];
      var r := Serve(p, c, k);
      if FirstWaiting(At(p.idleWait, k), p.wants) < |At(p.idleWait, k)| then r
      else if p.closeIdle || |At(p.idle, k)| >= lim.maxIdlePerHost then r
      else Evict(Join(r, c, k), lim)
  }

  function Doom(owner: map<Conn, Owner>, s: seq<Conn>): map<Conn, Owner> {
    map c | c in owner :: if c in s then Doomed else owner[c]
  }

  /** From the end of the list of idle connections, those that must not be used are passed
      over for good, up to the first that is delivered. */
  function AfterSearch(p: Pool, w: Want, k: Key, bad: set<Conn>): Pool {
    var list := At(p.idle, k);
    var n := Usable(list, bad);
    var owner := Doom(p.owner, list[n..]);
    if n == 0 then p.(idle := Put(p.idle, k, []), owner := owner)
    else
      var c := list[n - 1];
      Deliver(p.(idle := Put(p.idle, k, list[..n - 1]), lru := Without(p.lru, c), owner := owner), w, c)
  }

  /** w joins the queue behind those that still wait. */
  function Enqueue(q: seq<Want>, wants: map<Want, WantState>, w: Want): seq<Want> {
    q[FirstWaiting(q, wants)..] + [w]
  }

  function AfterLook(p: Pool, lim: Limits, w: Want, tooOld: set<Conn>): Pool {
    if lim.disableKeepAlives || w !in p.wantKey then p
    else
      var k := p.wantKey[w];
      var bad := p.closed + tooOld;
      var r := AfterSearch(p.(closeIdle := false), w, k, bad);
      if Usable(At(p.idle, k), bad) > 0 then r
      else r.(idleWait := Put(p.idleWait, k, Enqueue(At(p.idleWait, k), p.wants, w)))
  }

  function AfterAsk(p: Pool, lim: Limits, w: Want): Pool {
    if w !in p.wantKey then p
    else
      var k := p.wantKey[w];
      var n := CountAt(p.counts, k);
      var r := p.(asked := p.asked + {w});
      if lim.maxPerHost <= 0 then r.(dialing := p.dialing + {w})
      else if n < lim.maxPerHost then r.(dialing := p.dialing + {w}, counts := PutCount(p.counts, k, n + 1))
      else r.(dialWait := Put(p.dialWait, k, Enqueue(At(p.dialWait, k), p.wants, w)))
  }

  function AfterDial(p: Pool, w: Want, c: Conn): Pool {
    if w !in p.wantKey then p
    else p.(dialing := p.dialing - {w}, connKey := p.connKey[c := p.wantKey[w]], owner := p.owner[c := Held])
  }

  function AfterOffer(p: Pool, w: Want, c: Conn): Pool {
    if w in p.wants && p.wants[w].Waiting? then Deliver(p, w, c) else p
  }

  function AfterError(p: Pool, w: Want): Pool {
    p.(failed := p.failed + {w},
       wants := if w in p.wants && p.wants[w].Waiting? then p.wants[w := Done] else p.wants)
  }

  function AfterGiveUp(p: Pool, lim: Limits, w: Want): Pool {
    if w !in p.wantKey then p
    else GiveBack(p.(failed := p.failed - {w}, dialing := p.dialing - {w}), lim, p.wantKey[w])
  }

  function AfterEnd(p: Pool, w: Want): Pool {
    p.(wants := p.wants[w := Done],
       owner := if w in p.wants && p.wants[w].Got? then p.owner[p.wants[w].conn := Held] else p.owner)
  }

  function AfterTimeout(p: Pool, lim: Limits, c: Conn): Pool {
    if c in p.lru then Shut(Leave(p, c), lim, c) else p
  }

  /** Idle connections go to the goroutine that closes them. */
  function AfterCloseIdle(owner: map<Conn, Owner>): map<Conn, Owner> {
    map c | c in owner :: if owner[c].Idle? then Held else if owner[c].Doomed? then Gone else owner[c]
  }

  function After(p: Pool, lim: Limits, s: Step): Pool {
    match s
    case Request(w, k) => p.(wants := p.wants[w := Waiting], wantKey := p.wantKey[w := k])
    case LookForIdle(w, tooOld) => AfterLook(p, lim, w, tooOld)
    case AskToDial(w) => AfterAsk(p, lim, w)
    case Dialed(w, c) => AfterDial(p, w, c)
    case OfferDialed(w, c) => AfterOffer(p, w, c)
    case DialError(w) => AfterError(p, w)
    case DialGivenUp(w) => AfterGiveUp(p, lim, w)
    case EndRequest(w) => AfterEnd(p, w)
    case PutBack(c, sawBroken) => AfterPut(p, lim, c, sawBroken)
    case CloseConn(c) => Shut(p, lim, c)
    case ReaderEnds(c) => Leave(p, c)
    case IdleTimeout(c) => AfterTimeout(p, lim, c)
    case CloseAllIdle => p.(idle := map[], lru := [], closeIdle := true, owner := AfterCloseIdle(p.owner))
  }

  // The same, with the updates of one step in one place.

  lemma GiveBackIs(p: Pool, lim: Limits, k: Key)
    ensures var q := At(p.dialWait, k);
            var i := FirstWaiting(q, p.wants);
            GiveBack(p, lim, k) ==
            if lim.maxPerHost <= 0 then p
            else if i < |q| then p.(dialWait := Put(p.dialWait, k, q[i + 1..]), dialing := p.dialing + {q[i]})
            else p.(dialWait := Put(p.dialWait, k, []), counts := PutCount(p.counts, k, CountAt(p.counts, k) - 1))
  {
  }

  lemma SearchIs(p: Pool, w: Want, k: Key, bad: set<Conn>)
    ensures var list := At(p.idle, k);
            var n := Usable(list, bad);
            AfterSearch(p, w, k, bad) ==
            if n == 0 then p.(idle := Put(p.idle, k, []), owner := Doom(p.owner, list[n..]))
            else p.(idle := Put(p.idle, k, list[..n - 1]), lru := Without(p.lru, list[n - 1]),
                    wants := p.wants[w := Got(list[n - 1])],
                    owner := Doom(p.owner, list[n..])[list[n - 1] := Delivered(w)])
  {
    hide Usable, Without, Doom, Put;
  }

  lemma LookIs(p: Pool, lim: Limits, w: Want, tooOld: set<Conn>)
    requires w in p.wantKey
    ensures var k := p.wantKey[w];
            var q := At(p.idleWait, k);
            var r := AfterSearch(p.(closeIdle := false), w, k, p.closed + tooOld);
            AfterLook(p, lim, w, tooOld) ==
            if lim.disableKeepAlives then p
            else if Usable(At(p.idle, k), p.closed + tooOld) > 0 then r
            else r.(idleWait := Put(p.idleWait, k, Enqueue(q, p.wants, w)))
  {
    hide Usable, AfterSearch, Put, FirstWaiting;
  }

  lemma AskIs(p: Pool, lim: Limits, w: Want)
    requires w in p.wantKey
    ensures var k := p.wantKey[w];
            var q := At(p.dialWait, k);
            AfterAsk(p, lim, w) ==
            if lim.maxPerHost <= 0 then p.(asked := p.asked + {w}, dialing := p.dialing + {w})
            else if CountAt(p.counts, k) < lim.maxPerHost
            then p.(asked := p.asked + {w}, dialing := p.dialing + {w},
                    counts := PutCount(p.counts, k, CountAt(p.counts, k) + 1))
            else p.(asked := p.asked + {w}, dialWait := Put(p.dialWait, k, q[FirstWaiting(q, p.wants)..] + [w]))
  {
    hide Put, PutCount, FirstWaiting, At, CountAt;
  }

  lemma PutIs(p: Pool, lim: Limits, c: Conn, sawBroken: bool)
    requires c in p.connKey
    ensures var k := p.connKey[c];
            var q := At(p.idleWait, k);
            AfterPut(p, lim, c, sawBroken) ==
            if lim.disableKeepAlives || lim.maxIdlePerHost < 0 || sawBroken then p
            else if FirstWaiting(q, p.wants) < |q| || p.closeIdle || |At(p.idle, k)| >= lim.maxIdlePerHost
            then Serve(p, c, k)
            else Evict(Join(Serve(p, c, k), c, k), lim)
  {
  }

  lemma EvictIs(p: Pool, lim: Limits)
    ensures Evict(p, lim) == if lim.maxIdle == 0 || |p.lru| <= lim.maxIdle || p.lru == [] then p
                             else Leave(Shut(p, lim, p.lru[|p.lru| - 1]), p.lru[|p.lru| - 1])
  {
  }

  /** A goroutine takes a step only in the situation in which its code does: it
      asks to dial once, it puts back what it holds, and so on. A connection that someone
      holds may be offered to any request for its key, which covers the dialer's offer. */
  predicate Enabled(p: Pool, s: Step) {
    match s
    case Request(w, k) => w !in p.wants
    case LookForIdle(w, tooOld) => w in p.wants && p.wants[w].Waiting?
    case AskToDial(w) => w in p.wants && w !in p.asked
    case Dialed(w, c) => w in p.dialing && w !in p.failed && c !in p.connKey
    case OfferDialed(w, c) =>
      && w in p.wants && w in p.wantKey && c in p.owner && p.owner[c].Held? && c in p.connKey
      && p.connKey[c] == p.wantKey[w]
    case DialError(w) => w in p.dialing && w !in p.failed
    case DialGivenUp(w) => w in p.failed
    case EndRequest(w) => w in p.wants
    case PutBack(c, sawBroken) => c in p.owner && p.owner[c].Held? && (sawBroken ==> c in p.closed)
    case CloseConn(c) => c in p.connKey
    case ReaderEnds(c) => c in p.owner && c in p.closed
    case IdleTimeout(c) => c in p.owner
    case CloseAllIdle => true
  }

  // ---------- whole runs ----------

  const EMPTY_POOL := Pool(map[], map[], [], false, map[], map[], map[], map[], map[], {}, map[], {}, {}, {})

  /** Steps that are not possible where they come are passed over. */
  function After1(p: Pool, lim: Limits, s: Step): Pool {
    if Enabled(p, s) then After(p, lim, s) else p
  }

  function RunPool(lim: Limits, steps: seq<Step>): Pool {
    if steps == [] then EMPTY_POOL else After1(RunPool(lim, steps[..|steps| - 1]), lim, steps[|steps| - 1])
  }

  lemma RunMore(lim: Limits, steps: seq<Step>, i: nat)
    requires i < |steps|
    ensures RunPool(lim, steps[..i + 1]) == After1(RunPool(lim, steps[..i]), lim, steps[i])
  {
    var s := steps[..i + 1];
    assert s[..|s| - 1] == steps[..i] && s[|s| - 1] == steps[i];
  }
}
