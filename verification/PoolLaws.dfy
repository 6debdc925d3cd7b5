/** What holds of the connection pool step by step and in every run. */
module PoolLaws {
  import opened Common
  import opened PoolModel

  // ---------- looking for an idle connection ----------

  /** While the pool is searched, connections are only delivered, or given up for a reason. */
  ghost predicate Passed(before: map<Conn, Owner>, after: map<Conn, Owner>, unfit: set<Conn>) {
    forall c :: c in after ==>
                  (c in before && after[c] == before[c]) || after[c].Delivered? || (after[c].Doomed? && c in unfit)
  }

  lemma SearchPasses(p: Pool, w: Want, k: Key, bad: set<Conn>)
    ensures var r := AfterSearch(p, w, k, bad);
            && Passed(p.owner, r.owner, bad) && r.closed == p.closed && r.idleWait == p.idleWait
            && r.wantKey == p.wantKey && r.asked == p.asked && r.dialing == p.dialing && r.dialWait == p.dialWait
            && (Usable(At(p.idle, k), bad) > 0 ==> exists c :: r.wants == p.wants[w := Got(c)])
            && (Usable(At(p.idle, k), bad) == 0 ==> r.wants == p.wants)
  {
    hide Usable, Without, Put;
    var list := At(p.idle, k);
    var n := Usable(list, bad);
    if n > 0 {
      assert AfterSearch(p, w, k, bad).wants == p.wants[w := Got(list[n - 1])];
    }
  }

  /** A request that looks for an idle connection gets the one used last that is neither
      broken nor too old, or else waits for the next one; those passed over are given up. */
  lemma LookMeans(p: Pool, lim: Limits, w: Want, tooOld: set<Conn>)
    requires w in p.wantKey && w in p.wants && p.wants[w].Waiting? && !lim.disableKeepAlives
    requires Distinct(At(p.idle, p.wantKey[w]))
    requires forall i :: 0 <= i < |At(p.idle, p.wantKey[w])| ==> At(p.idle, p.wantKey[w])[i] in p.owner
    ensures var list := At(p.idle, p.wantKey[w]);
            var n := Usable(list, p.closed + tooOld);
            var r := AfterLook(p, lim, w, tooOld);
            && !r.closeIdle && At(r.idle, p.wantKey[w]) == list[..if n > 0 then n - 1 else 0]
            && (forall i :: n <= i < |list| ==> r.owner[list[i]].Doomed?)
            && (n > 0 ==> r.wants == p.wants[w := Got(list[n - 1])] && r.owner[list[n - 1]] == Delivered(w))
            && (n == 0 ==> r.wants == p.wants)
            && (n == 0 ==> At(r.idleWait, p.wantKey[w]) == Enqueue(At(p.idleWait, p.wantKey[w]), p.wants, w))
  {
    hide Usable, Without, FirstWaiting;
    var list := At(p.idle, p.wantKey[w]);
    var n := Usable(list, p.closed + tooOld);
    assert forall i :: n <= i < |list| ==> list[i] in list[n..];
    assert list[..0] == [];
  }

  // ---------- connections that leak ----------

  /** A connection that nobody will use or close is closed. */
  ghost predicate NoLeak(owner: map<Conn, Owner>, closed: set<Conn>) {
    forall c :: c in owner && owner[c].Gone? ==> c in closed
  }

  /** A connection that waits to be closed is closed already. */
  ghost predicate DoomedShut(owner: map<Conn, Owner>, closed: set<Conn>) {
    forall c :: c in owner && owner[c].Doomed? ==> c in closed
  }

  /** Connections are given up only once closed, and doomed only if closed or too old. */
  ghost predicate Kept(before: map<Conn, Owner>, shut: set<Conn>, after: map<Conn, Owner>, closed: set<Conn>,
                       tooOld: set<Conn>) {
    && shut <= closed
    && forall c :: c in after && (after[c].Gone? || after[c].Doomed?) ==>
                     || c in closed
                     || (c in before && after[c] == before[c])
                     || (after[c].Doomed? && c in tooOld)
  }

  lemma KeptMeans(before: map<Conn, Owner>, shut: set<Conn>, after: map<Conn, Owner>, closed: set<Conn>,
                  tooOld: set<Conn>)
    requires Kept(before, shut, after, closed, tooOld)
    ensures NoLeak(before, shut) ==> NoLeak(after, closed)
    ensures DoomedShut(before, shut) && tooOld == {} ==> DoomedShut(after, closed)
  {
  }

  /** Emptying the pool forgets the connections that only wait to be closed. */
  lemma ClearLeaks(owner: map<Conn, Owner>, closed: set<Conn>)
    ensures NoLeak(AfterCloseIdle(owner), closed) <==> NoLeak(owner, closed) && DoomedShut(owner, closed)
    ensures DoomedShut(AfterCloseIdle(owner), closed)
  {
    var after := AfterCloseIdle(owner);
    forall c | c in owner && (owner[c].Gone? || owner[c].Doomed?) ensures c in after && after[c].Gone? {
    }
  }

  /** What giving back a place, or closing, leaves alone. */
  ghost predicate Beside(p: Pool, r: Pool) {
    && r.owner == p.owner && r.connKey == p.connKey && r.wants == p.wants && r.wantKey == p.wantKey
    && r.idleWait == p.idleWait && r.asked == p.asked && r.lru == p.lru && r.idle == p.idle
  }

  lemma GiveBackOnly(p: Pool, lim: Limits, k: Key)
    ensures Beside(p, GiveBack(p, lim, k)) && GiveBack(p, lim, k).closed == p.closed
  {
    hide FirstWaiting, Put, PutCount, At;
    var q := At(p.dialWait, k);
    var i := FirstWaiting(q, p.wants);
    if lim.maxPerHost <= 0 {
      assert GiveBack(p, lim, k) == p;
    } else if i < |q| {
      assert GiveBack(p, lim, k) == p.(dialWait := Put(p.dialWait, k, q[i + 1..]), dialing := p.dialing + {q[i]});
    }
  }

  lemma ShutOnly(p: Pool, lim: Limits, c: Conn)
    ensures var r := Shut(p, lim, c);
            Beside(p, r) && r.closed == if c in p.connKey then p.closed + {c} else p.closed
  {
    hide GiveBack;
    if c in p.closed || c !in p.connKey {
      assert c in p.closed ==> p.closed + {c} == p.closed;
    } else {
      GiveBackOnly(p.(closed := p.closed + {c}), lim, p.connKey[c]);
    }
  }

  /** Every step but one gives up only connections that are closed. */
  lemma KeptStep(p: Pool, lim: Limits, s: Step)
    requires Enabled(p, s) && !s.CloseAllIdle?
    ensures var r := After(p, lim, s);
            Kept(p.owner, p.closed, r.owner, r.closed, if s.LookForIdle? then s.tooOld else {})
  {
    hide AfterLook, AfterPut, AfterTimeout, Shut, AfterAsk, AfterGiveUp, Leave, AfterError;
    match s
    case LookForIdle(w, tooOld) => KeptLook(p, lim, w, tooOld);
    case AskToDial(w) => AskOnly(p, lim, w);
    case DialGivenUp(w) => GiveUpOnly(p, lim, w);
    case PutBack(c, sawBroken) => KeptPut(p, lim, c, sawBroken);
    case CloseConn(c) => ShutOnly(p, lim, c);
    case IdleTimeout(c) => KeptTimeout(p, lim, c);
    case ReaderEnds(c) => KeptLeave(p, c);
    case DialError(w) => ErrorOnly(p, w);
    case _ =>
  }

  lemma KeptLeave(p: Pool, c: Conn)
    requires c in p.closed
    ensures var r := Leave(p, c); Kept(p.owner, p.closed, r.owner, r.closed, {})
  {
    hide Put, Without, At;
  }

  lemma ErrorOnly(p: Pool, w: Want)
    ensures AfterError(p, w).owner == p.owner && AfterError(p, w).closed == p.closed
  {
  }

  lemma AskOnly(p: Pool, lim: Limits, w: Want)
    ensures var r := AfterAsk(p, lim, w);
            && r.owner == p.owner && r.closed == p.closed && r.wants == p.wants && r.wantKey == p.wantKey
            && r.idleWait == p.idleWait
  {
    hide Put, PutCount, FirstWaiting, At, CountAt;
    if w in p.wantKey {
      AskParts(p, lim, w);
    }
  }

  lemma AskParts(p: Pool, lim: Limits, w: Want)
    requires w in p.wantKey
    ensures var r := AfterAsk(p, lim, w);
            r == p.(asked := p.asked + {w}, dialing := r.dialing, counts := r.counts, dialWait := r.dialWait)
    ensures var r, k := AfterAsk(p, lim, w), p.wantKey[w];
            if lim.maxPerHost <= 0 || CountAt(p.counts, k) < lim.maxPerHost
            then r.dialing == p.dialing + {w} && r.dialWait == p.dialWait
            else r.dialing == p.dialing && r.dialWait == Put(p.dialWait, k, Enqueue(At(p.dialWait, k), p.wants, w))
  {
    hide Put, PutCount, FirstWaiting, At, CountAt, AfterAsk;
    AskIs(p, lim, w);
  }

  lemma GiveUpOnly(p: Pool, lim: Limits, w: Want)
    ensures var r := AfterGiveUp(p, lim, w);
            && r.owner == p.owner && r.closed == p.closed && r.wants == p.wants && r.wantKey == p.wantKey
            && r.idleWait == p.idleWait && r.asked == p.asked
  {
    hide GiveBack;
    if w in p.wantKey {
      GiveBackOnly(p.(failed := p.failed - {w}, dialing := p.dialing - {w}), lim, p.wantKey[w]);
    }
  }

  lemma KeptLook(p: Pool, lim: Limits, w: Want, tooOld: set<Conn>)
    ensures var r := AfterLook(p, lim, w, tooOld); Kept(p.owner, p.closed, r.owner, r.closed, tooOld)
  {
    hide AfterSearch, Put, Enqueue, At, Usable;
    if w in p.wantKey && !lim.disableKeepAlives {
      SearchPasses(p.(closeIdle := false), w, p.wantKey[w], p.closed + tooOld);
    }
  }

  lemma KeptTimeout(p: Pool, lim: Limits, c: Conn)
    requires c in p.owner
    ensures var r := AfterTimeout(p, lim, c); Kept(p.owner, p.closed, r.owner, r.closed, {})
  {
    hide Shut, Put, Without, At;
    if c in p.lru {
      ShutOnly(Leave(p, c), lim, c);
    }
  }

  lemma ServeOnly(p: Pool, c: Conn, k: Key)
    ensures var r := Serve(p, c, k);
            && r.closed == p.closed && r.connKey == p.connKey && r.lru == p.lru && r.wantKey == p.wantKey
            && r.asked == p.asked && r.dialing == p.dialing && r.dialWait == p.dialWait
            && (r.owner == p.owner || exists w :: r.owner == p.owner[c := Delivered(w)])
  {
    hide FirstWaiting, Put, At;
    var q := At(p.idleWait, k);
    var i := FirstWaiting(q, p.wants);
    if i < |q| {
      assert Serve(p, c, k) == p.(idleWait := Put(p.idleWait, k, q[i + 1..]), wants := p.wants[q[i] := Got(c)],
                                  owner := p.owner[c := Delivered(q[i])]);
    } else {
      assert Serve(p, c, k) == p.(idleWait := Put(p.idleWait, k, q[i..]));
    }
  }

  lemma EvictKeeps(p: Pool, lim: Limits)
    ensures var r := Evict(p, lim); Kept(p.owner, p.closed, r.owner, r.closed, {})
  {
    hide Shut, Put, Without, At;
    if lim.maxIdle != 0 && |p.lru| > lim.maxIdle && p.lru != [] {
      var oldest := p.lru[|p.lru| - 1];
      ShutOnly(p, lim, oldest);
    }
  }

  lemma KeptPut(p: Pool, lim: Limits, c: Conn, sawBroken: bool)
    ensures var r := AfterPut(p, lim, c, sawBroken); Kept(p.owner, p.closed, r.owner, r.closed, {})
  {
    hide FirstWaiting, Serve, Evict, At, Put;
    if c in p.connKey {
      var k := p.connKey[c];
      ServeOnly(p, c, k);
      EvictKeeps(Join(Serve(p, c, k), c, k), lim);
    }
  }

  /** A connection is forgotten without being closed exactly when the pool is emptied
      while a connection that was only too old waits to be closed: its closer then
      finds it idle no more. */
  lemma LeakStep(p: Pool, lim: Limits, s: Step)
    requires Enabled(p, s)
    ensures var r := After(p, lim, s);
            && (NoLeak(p.owner, p.closed) ==>
                  (NoLeak(r.owner, r.closed) <==> !(s.CloseAllIdle? && !DoomedShut(p.owner, p.closed))))
            && (DoomedShut(p.owner, p.closed) && (s.LookForIdle? ==> s.tooOld == {}) ==> DoomedShut(r.owner, r.closed))
  {
    hide Kept, NoLeak, DoomedShut;
    if s.CloseAllIdle? {
      ClearLeaks(p.owner, p.closed);
    } else {
      var r := After(p, lim, s);
      hide After;
      KeptStep(p, lim, s);
      KeptMeans(p.owner, p.closed, r.owner, r.closed, if s.LookForIdle? then s.tooOld else {});
    }
  }

  ghost predicate NoneTooOld(steps: seq<Step>) {
    forall s :: s in steps && s.LookForIdle? ==> s.tooOld == {}
  }

  /** No connection is forgotten unclosed unless some was found too old and the pool is
      emptied. */
  lemma {:induction false} LeakRun(lim: Limits, steps: seq<Step>)
    ensures var p := RunPool(lim, steps);
            && (NoneTooOld(steps) ==> DoomedShut(p.owner, p.closed))
            && (CloseAllIdle !in steps || NoneTooOld(steps) ==> NoLeak(p.owner, p.closed))
  {
    if steps != [] {
      var most, s := steps[..|steps| - 1], steps[|steps| - 1];
      LeakRun(lim, most);
      var p := RunPool(lim, most);
      hide After, NoLeak, DoomedShut;
      assert s in steps && forall x :: x in most ==> x in steps;
      if Enabled(p, s) {
        LeakStep(p, lim, s);
      }
    }
  }

  // ---------- requests that wait ----------

  /** The requests that looked for an idle connection in vain, and those that were given a
      dialed connection to be offered. */
  function Looked(lim: Limits, steps: seq<Step>): set<Want> {
    if steps == [] then {}
    else
      var s := steps[|steps| - 1];
      Looked(lim, steps[..|steps| - 1])
      + if s.LookForIdle? && !lim.disableKeepAlives && Enabled(RunPool(lim, steps[..|steps| - 1]), s) then {s.w} else {}
  }

  function Connected(lim: Limits, steps: seq<Step>): set<Want> {
    if steps == [] then {}
    else
      var s := steps[|steps| - 1];
      Connected(lim, steps[..|steps| - 1])
      + if s.Dialed? && Enabled(RunPool(lim, steps[..|steps| - 1]), s) then {s.w} else {}
  }

  predicate Waits(wants: map<Want, WantState>, w: Want) {
    w in wants && wants[w].Waiting?
  }

  /** Whoever looked and still waits is in the queue of its host. */
  ghost predicate Queued(p: Pool, looked: set<Want>) {
    && p.wants.Keys == p.wantKey.Keys
    && forall w :: w in looked ==> w in p.wants && (Waits(p.wants, w) ==> w in At(p.idleWait, p.wantKey[w]))
  }

  /** Nobody starts to wait. */
  ghost predicate NoneStart(before: map<Want, WantState>, after: map<Want, WantState>) {
    after.Keys == before.Keys && forall w :: Waits(after, w) ==> Waits(before, w)
  }

  lemma NoneStartSet(wants: map<Want, WantState>, w: Want, s: WantState)
    requires w in wants && !s.Waiting?
    ensures NoneStart(wants, wants[w := s]) && NoneStart(wants, wants) && !Waits(wants[w := s], w)
  {
  }

  lemma QueuedStays(p: Pool, r: Pool, looked: set<Want>)
    requires Queued(p, looked) && r.wantKey == p.wantKey && r.idleWait == p.idleWait && NoneStart(p.wants, r.wants)
    ensures Queued(r, looked)
  {
  }

  /** Dropping those in front that wait no more, and the one that is served, loses nobody. */
  lemma StillThere(q: seq<Want>, wants: map<Want, WantState>, w: Want, n: nat)
    requires w in q && w in wants && wants[w].Waiting? && n <= |q|
    requires var i := FirstWaiting(q, wants); n == i || (n == i + 1 && q[i] != w)
    ensures w in q[n..]
  {
    var j :| 0 <= j < |q| && q[j] == w;
    assert q[n..][j - n] == w;
  }

  lemma PutAt<V>(m: map<Key, seq<V>>, k: Key, s: seq<V>, j: Key)
    ensures At(Put(m, k, s), j) == if j == k then s else At(m, j)
  {
  }

  lemma QueuedServe(p: Pool, c: Conn, k: Key, looked: set<Want>)
    requires Queued(p, looked)
    ensures Queued(Serve(p, c, k), looked)
  {
    hide FirstWaiting, Put;
    var q := At(p.idleWait, k);
    var i := FirstWaiting(q, p.wants);
    var n := if i < |q| then i + 1 else i;
    var r := Serve(p, c, k);
    assert r.wantKey == p.wantKey && r.idleWait == Put(p.idleWait, k, q[n..]);
    assert r.wants == if i < |q| then p.wants[q[i] := Got(c)] else p.wants;
    hide Serve;
    forall w | w in looked ensures w in r.wants && (Waits(r.wants, w) ==> w in At(r.idleWait, r.wantKey[w])) {
      PutAt(p.idleWait, k, q[n..], p.wantKey[w]);
      if Waits(r.wants, w) && p.wantKey[w] == k {
        StillThere(q, p.wants, w, n);
      }
    }
    assert i < |q| ==> q[i] in p.wants;
  }

  lemma QueuedLook(p: Pool, lim: Limits, w: Want, tooOld: set<Conn>, looked: set<Want>)
    requires Queued(p, looked) && w in p.wants && p.wants[w].Waiting? && !lim.disableKeepAlives
    ensures Queued(AfterLook(p, lim, w, tooOld), looked + {w})
  {
    hide Put, AfterSearch, Usable;
    var k := p.wantKey[w];
    var q := At(p.idleWait, k);
    var m := AfterSearch(p.(closeIdle := false), w, k, p.closed + tooOld);
    SearchPasses(p.(closeIdle := false), w, k, p.closed + tooOld);
    var r := AfterLook(p, lim, w, tooOld);
    if Usable(At(p.idle, k), p.closed + tooOld) > 0 {
      assert r == m;
      assert !Waits(r.wants, w);
    } else {
      assert r == m.(idleWait := Put(p.idleWait, k, Enqueue(q, p.wants, w)));
      hide AfterLook;
      forall v | v in looked + {w} ensures v in r.wants && (Waits(r.wants, v) ==> v in At(r.idleWait, r.wantKey[v])) {
        PutAt(p.idleWait, k, Enqueue(q, p.wants, w), p.wantKey[v]);
        if Waits(p.wants, v) && p.wantKey[v] == k && v != w {
          StillThere(q, p.wants, v, FirstWaiting(q, p.wants));
        }
      }
    }
  }

  lemma EvictOnly(p: Pool, lim: Limits)
    ensures var r := Evict(p, lim);
            r.wants == p.wants && r.wantKey == p.wantKey && r.idleWait == p.idleWait && r.asked == p.asked
  {
    hide Shut, Put, Without, At;
    if lim.maxIdle != 0 && |p.lru| > lim.maxIdle && p.lru != [] {
      ShutOnly(p, lim, p.lru[|p.lru| - 1]);
    }
  }

  lemma QueuedPut(p: Pool, lim: Limits, c: Conn, sawBroken: bool, looked: set<Want>)
    requires Queued(p, looked)
    ensures Queued(AfterPut(p, lim, c, sawBroken), looked)
  {
    hide FirstWaiting, Serve, Evict, At, Put, Queued;
    if c in p.connKey {
      var k := p.connKey[c];
      var m := Serve(p, c, k);
      QueuedServe(p, c, k, looked);
      EvictOnly(Join(m, c, k), lim);
      NoneStartSame(m.wants);
      QueuedStays(m, Evict(Join(m, c, k), lim), looked);
    }
  }

  lemma NoneStartSame(wants: map<Want, WantState>)
    ensures NoneStart(wants, wants)
  {
  }

  /** Neither queues for idle connections nor hosts change, and nobody starts to wait. */
  ghost predicate Untouched(p: Pool, r: Pool) {
    && r.wantKey == p.wantKey && r.idleWait == p.idleWait
    && (p.wants.Keys == p.wantKey.Keys ==> NoneStart(p.wants, r.wants))
  }

  /** Only requests, and who uses which connection, change. */
  ghost predicate Settles(p: Pool, r: Pool) {
    r == p.(wants := r.wants, owner := r.owner) && (p.wants.Keys == p.wantKey.Keys ==> NoneStart(p.wants, r.wants))
  }

  lemma OfferSettles(p: Pool, w: Want, c: Conn)
    ensures Settles(p, AfterOffer(p, w, c))
  {
    hide NoneStart;
    NoneStartSame(p.wants);
    if w in p.wants {
      NoneStartSet(p.wants, w, Got(c));
    }
  }

  lemma EndSettles(p: Pool, w: Want)
    requires w in p.wants
    ensures Settles(p, AfterEnd(p, w))
  {
    hide NoneStart;
    NoneStartSet(p.wants, w, Done);
  }

  lemma ErrorSettles(p: Pool, w: Want)
    ensures Settles(p.(failed := p.failed + {w}), AfterError(p, w)) && !Waits(AfterError(p, w).wants, w)
  {
    hide NoneStart;
    NoneStartSame(p.wants);
    if w in p.wants {
      NoneStartSet(p.wants, w, Done);
    }
  }

  lemma TimeoutOnly(p: Pool, lim: Limits, c: Conn)
    ensures var r := AfterTimeout(p, lim, c); r.wants == p.wants && r.wantKey == p.wantKey && r.idleWait == p.idleWait
  {
    hide Shut, Leave;
    LeaveOnly(p, c);
    ShutOnly(Leave(p, c), lim, c);
  }

  lemma Elsewhere(p: Pool, lim: Limits, s: Step)
    requires Enabled(p, s) && !s.Request? && !s.LookForIdle? && !s.PutBack?
    ensures Untouched(p, After(p, lim, s))
  {
    hide Shut, Leave, AfterAsk, AfterGiveUp, AfterCloseIdle, AfterTimeout, AfterOffer, AfterError, AfterEnd, NoneStart;
    NoneStartSame(p.wants);
    match s
    case AskToDial(w) => AskOnly(p, lim, w);
    case OfferDialed(w, c) => OfferSettles(p, w, c);
    case DialError(w) => ErrorSettles(p, w);
    case EndRequest(w) => EndSettles(p, w);
    case DialGivenUp(w) => GiveUpOnly(p, lim, w);
    case CloseConn(c) => ShutOnly(p, lim, c);
    case ReaderEnds(c) => LeaveOnly(p, c);
    case IdleTimeout(c) => TimeoutOnly(p, lim, c);
    case _ =>
  }

  lemma LeaveOnly(p: Pool, c: Conn)
    ensures var r := Leave(p, c);
            && r.wants == p.wants && r.wantKey == p.wantKey && r.idleWait == p.idleWait && r.asked == p.asked
            && r.dialing == p.dialing && r.dialWait == p.dialWait && r.failed == p.failed
  {
    hide Put, Without, At;
  }

  lemma QueuedStep(p: Pool, lim: Limits, s: Step, looked: set<Want>)
    requires Enabled(p, s) && Queued(p, looked)
    ensures Queued(After(p, lim, s), looked + if s.LookForIdle? && !lim.disableKeepAlives then {s.w} else {})
  {
    hide AfterLook, AfterPut;
    assert looked + {} == looked;
    match s
    case Request(_, _) =>
    case LookForIdle(w, tooOld) =>
      if lim.disableKeepAlives {
        LookOff(p, lim, w, tooOld);
      } else {
        QueuedLook(p, lim, w, tooOld, looked);
      }
    case PutBack(c, sawBroken) => QueuedPut(p, lim, c, sawBroken, looked);
    case _ =>
      var r := After(p, lim, s);
      hide After;
      Elsewhere(p, lim, s);
      QueuedStays(p, r, looked);
  }

  lemma LookOff(p: Pool, lim: Limits, w: Want, tooOld: set<Conn>)
    requires lim.disableKeepAlives
    ensures AfterLook(p, lim, w, tooOld) == p
  {
  }

  /** In every run, a request that looked for an idle connection and still waits is in the
      queue of its host, where the next connection put back will find it in its turn. */
  lemma {:induction false} QueuedRun(lim: Limits, steps: seq<Step>)
    ensures Queued(RunPool(lim, steps), Looked(lim, steps))
  {
    if steps != [] {
      var most, s := steps[..|steps| - 1], steps[|steps| - 1];
      QueuedRun(lim, most);
      hide After, Queued;
      if Enabled(RunPool(lim, most), s) {
        QueuedStep(RunPool(lim, most), lim, s, Looked(lim, most));
      } else {
        assert Looked(lim, most) + {} == Looked(lim, most);
      }
    }
  }

  /** Whoever asked to dial and still waits is dialing, has dialed, or is in the queue; whose
      dial failed waits no more. */
  ghost predicate Asking(p: Pool, connected: set<Want>) {
    && p.wants.Keys == p.wantKey.Keys && p.dialing <= p.asked <= p.wants.Keys && p.failed <= p.asked
    && (forall k, w :: w in At(p.dialWait, k) ==> w in p.asked)
    && (forall w :: w in p.failed ==> !Waits(p.wants, w))
    && (forall w :: w in p.asked && Waits(p.wants, w) ==>
          w in p.dialing || w in connected || w in At(p.dialWait, p.wantKey[w]))
  }

  lemma AskingStays(p: Pool, r: Pool, connected: set<Want>)
    requires Asking(p, connected) && r.wantKey == p.wantKey && r.dialWait == p.dialWait && r.dialing == p.dialing
    requires r.asked == p.asked && NoneStart(p.wants, r.wants)
    requires r.failed <= r.asked && forall w :: w in r.failed ==> w in p.failed || !Waits(r.wants, w)
    ensures Asking(r, connected)
  {
  }

  lemma AskingGiveBack(p: Pool, lim: Limits, k: Key, connected: set<Want>)
    requires Asking(p, connected)
    ensures Asking(GiveBack(p, lim, k), connected)
  {
    hide FirstWaiting, Put, PutCount, GiveBack;
    GiveBackIs(p, lim, k);
    if lim.maxPerHost > 0 {
      var q := At(p.dialWait, k);
      var i := FirstWaiting(q, p.wants);
      var n := if i < |q| then i + 1 else i;
      assert q[|q|..] == [] && (i < |q| ==> q[i] in q);
      AskingNext(p, GiveBack(p, lim, k), k, n, connected);
    }
  }

  /** The queue of host k gives up those in front, and the one that starts to dial. */
  lemma AskingNext(p: Pool, r: Pool, k: Key, n: nat, connected: set<Want>)
    requires Asking(p, connected)
    requires var q := At(p.dialWait, k);
             var i := FirstWaiting(q, p.wants);
             && n == (if i < |q| then i + 1 else i) && r.dialWait == Put(p.dialWait, k, q[n..])
             && (i < |q| ==> q[i] in p.asked)
             && r.dialing == if i < |q| then p.dialing + {q[i]} else p.dialing
    requires r.wants == p.wants && r.wantKey == p.wantKey && r.asked == p.asked && r.failed == p.failed
    ensures Asking(r, connected)
  {
    hide FirstWaiting, Put;
    var q := At(p.dialWait, k);
    var i := FirstWaiting(q, p.wants);
    forall j, w | w in At(r.dialWait, j) ensures w in r.asked {
      PutAt(p.dialWait, k, q[n..], j);
      assert w in At(p.dialWait, j);
    }
    forall w | w in r.asked && Waits(r.wants, w)
      ensures w in r.dialing || w in connected || w in At(r.dialWait, r.wantKey[w])
    {
      PutAt(p.dialWait, k, q[n..], p.wantKey[w]);
      if w !in p.dialing && w !in connected && p.wantKey[w] == k && !(i < |q| && q[i] == w) {
        StillThere(q, p.wants, w, n);
      }
    }
  }

  lemma AskingShut(p: Pool, lim: Limits, c: Conn, connected: set<Want>)
    requires Asking(p, connected)
    ensures Asking(Shut(p, lim, c), connected)
  {
    hide GiveBack;
    if c !in p.closed && c in p.connKey {
      AskingGiveBack(p.(closed := p.closed + {c}), lim, p.connKey[c], connected);
    }
  }

  lemma AskingAsk(p: Pool, lim: Limits, w: Want, connected: set<Want>)
    requires Asking(p, connected) && w in p.wants && w !in p.asked
    ensures Asking(AfterAsk(p, lim, w), connected)
  {
    hide Put, PutCount, AfterAsk;
    AskParts(p, lim, w);
    var r, k := AfterAsk(p, lim, w), p.wantKey[w];
    if r.dialWait != p.dialWait {
      var q := At(p.dialWait, k);
      var e := Enqueue(q, p.wants, w);
      forall j, v | v in At(r.dialWait, j) ensures v in r.asked {
        PutAt(p.dialWait, k, e, j);
        assert v == w || v in At(p.dialWait, j);
      }
      forall v | v in r.asked && Waits(r.wants, v)
        ensures v in r.dialing || v in connected || v in At(r.dialWait, r.wantKey[v])
      {
        PutAt(p.dialWait, k, e, p.wantKey[v]);
        if v != w && v !in p.dialing && v !in connected && p.wantKey[v] == k {
          StillThere(q, p.wants, v, FirstWaiting(q, p.wants));
        }
      }
    } else if w !in r.dialing {
      PutAt(p.dialWait, k, Enqueue(At(p.dialWait, k), p.wants, w), k);
    }
  }

  lemma AskingPut(p: Pool, lim: Limits, c: Conn, sawBroken: bool, connected: set<Want>)
    requires Asking(p, connected)
    ensures Asking(AfterPut(p, lim, c, sawBroken), connected)
  {
    hide FirstWaiting, Serve, Evict, At, Put, Asking;
    if c in p.connKey {
      var k := p.connKey[c];
      var m := Serve(p, c, k);
      AskingServe(p, c, k, connected);
      AskingJoin(m, c, k, connected);
      AskingEvict(Join(m, c, k), lim, connected);
    }
  }

  lemma AskingServe(p: Pool, c: Conn, k: Key, connected: set<Want>)
    requires Asking(p, connected)
    ensures Asking(Serve(p, c, k), connected)
  {
    hide FirstWaiting, Put;
    var q := At(p.idleWait, k);
    var i := FirstWaiting(q, p.wants);
    var r := Serve(p, c, k);
    NoneStartSame(p.wants);
    if i < |q| {
      NoneStartSet(p.wants, q[i], Got(c));
      assert r == p.(idleWait := Put(p.idleWait, k, q[i + 1..]), wants := p.wants[q[i] := Got(c)],
                     owner := p.owner[c := Delivered(q[i])]);
    } else {
      assert r == p.(idleWait := Put(p.idleWait, k, q[i..]));
    }
    hide Serve, NoneStart;
    AskingStays(p, r, connected);
  }

  lemma AskingJoin(p: Pool, c: Conn, k: Key, connected: set<Want>)
    requires Asking(p, connected)
    ensures Asking(Join(p, c, k), connected)
  {
    hide Put;
    NoneStartSame(p.wants);
    AskingStays(p, Join(p, c, k), connected);
  }

  lemma AskingLeave(p: Pool, c: Conn, connected: set<Want>)
    requires Asking(p, connected)
    ensures Asking(Leave(p, c), connected)
  {
    hide Leave;
    LeaveOnly(p, c);
    NoneStartSame(p.wants);
    AskingStays(p, Leave(p, c), connected);
  }

  lemma AskingEvict(p: Pool, lim: Limits, connected: set<Want>)
    requires Asking(p, connected)
    ensures Asking(Evict(p, lim), connected)
  {
    hide Asking, Shut, Leave;
    if lim.maxIdle != 0 && |p.lru| > lim.maxIdle && p.lru != [] {
      var oldest := p.lru[|p.lru| - 1];
      AskingShut(p, lim, oldest, connected);
      AskingLeave(Shut(p, lim, oldest), oldest, connected);
    }
  }

  lemma AskingLook(p: Pool, lim: Limits, w: Want, tooOld: set<Conn>, connected: set<Want>)
    requires Asking(p, connected) && w in p.wants
    ensures Asking(AfterLook(p, lim, w, tooOld), connected)
  {
    hide AfterSearch, Put, Enqueue, Usable, At, Asking;
    if !lim.disableKeepAlives {
      AskingMeans(p, connected);
      var b := p.(closeIdle := false);
      var m := AfterSearch(b, w, p.wantKey[w], p.closed + tooOld);
      SearchPasses(b, w, p.wantKey[w], p.closed + tooOld);
      NoneStartSame(p.wants);
      if c :| m.wants == p.wants[w := Got(c)] {
        NoneStartSet(p.wants, w, Got(c));
      }
      var r := AfterLook(p, lim, w, tooOld);
      assert r == m.(idleWait := r.idleWait);
      SearchFailed(b, w, p.wantKey[w], p.closed + tooOld);
      AskingStays(p, r, connected);
    }
  }

  lemma AskingMeans(p: Pool, connected: set<Want>)
    requires Asking(p, connected)
    ensures p.wants.Keys == p.wantKey.Keys && p.failed <= p.asked
  {
  }

  lemma SearchFailed(p: Pool, w: Want, k: Key, bad: set<Conn>)
    ensures AfterSearch(p, w, k, bad).failed == p.failed
  {
    hide Usable, Without, Put, Doom, AfterSearch;
    SearchIs(p, w, k, bad);
  }

  lemma AskingGiveUp(p: Pool, lim: Limits, w: Want, connected: set<Want>)
    requires Asking(p, connected) && w in p.failed
    ensures Asking(AfterGiveUp(p, lim, w), connected)
  {
    var m := p.(failed := p.failed - {w}, dialing := p.dialing - {w});
    assert Asking(m, connected);
    AskingGiveBack(m, lim, p.wantKey[w], connected);
  }

  lemma AskingStep(p: Pool, lim: Limits, s: Step, connected: set<Want>)
    requires Enabled(p, s) && Asking(p, connected)
    ensures Asking(After(p, lim, s), connected + if s.Dialed? then {s.w} else {})
  {
    hide AfterLook, AfterPut, Shut, Leave, AfterAsk, AfterGiveUp, AfterCloseIdle, AfterOffer, AfterError, AfterEnd,
         NoneStart;
    assert connected + {} == connected;
    NoneStartSame(p.wants);
    var r := After(p, lim, s);
    match s
    case Request(_, _) =>
    case LookForIdle(w, tooOld) => AskingLook(p, lim, w, tooOld, connected);
    case AskToDial(w) => AskingAsk(p, lim, w, connected);
    case Dialed(w, c) =>
    case OfferDialed(w, c) =>
      OfferSettles(p, w, c);
      AskingStays(p, r, connected);
    case DialError(w) =>
      ErrorSettles(p, w);
      AskingStays(p, r, connected);
    case DialGivenUp(w) => AskingGiveUp(p, lim, w, connected);
    case EndRequest(w) =>
      EndSettles(p, w);
      AskingStays(p, r, connected);
    case PutBack(c, sawBroken) => AskingPut(p, lim, c, sawBroken, connected);
    case CloseConn(c) => AskingShut(p, lim, c, connected);
    case ReaderEnds(c) => AskingLeave(p, c, connected);
    case IdleTimeout(c) =>
      AskingLeave(p, c, connected);
      AskingShut(Leave(p, c), lim, c, connected);
    case CloseAllIdle => AskingStays(p, r, connected);
  }

  /** In every run, a request that asked to dial and still waits is dialing, has dialed, or is
      in the queue of its host. */
  lemma {:induction false} AskingRun(lim: Limits, steps: seq<Step>)
    ensures Asking(RunPool(lim, steps), Connected(lim, steps))
  {
    if steps != [] {
      var most, s := steps[..|steps| - 1], steps[|steps| - 1];
      AskingRun(lim, most);
      hide After, Asking;
      if Enabled(RunPool(lim, most), s) {
        AskingStep(RunPool(lim, most), lim, s, Connected(lim, most));
      } else {
        assert Connected(lim, most) + {} == Connected(lim, most);
      }
    }
  }
}
