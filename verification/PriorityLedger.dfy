/** Every stream's account: frames go out in the order in which they came in, and none is
    lost but by closing or evicting its node. */
module PriorityLedger {
  import opened Common
  import opened Flow
  import opened Frames
  import opened FrameLog
  import opened Forest
  import opened PriorityModel
  import opened PriorityCounts
  import opened PriorityNode
  import opened PriorityScheduler
  import opened PriorityBooks
  import opened PriorityKeeps
  import opened PriorityFinds

  function OfStream(q: seq<FrameWriteRequest>, id: int): seq<FrameWriteRequest> {
    if q == [] then [] else (if q[0].StreamID() == id then [q[0]] else []) + OfStream(q[1..], id)
  }

  lemma {:induction false} OfStreamSnoc(q: seq<FrameWriteRequest>, wr: FrameWriteRequest, id: int)
    ensures OfStream(q + [wr], id) == OfStream(q, id) + if wr.StreamID() == id then [wr] else []
  {
    if q == [] {
      assert q + [wr] == [wr] && [wr][1..] == [];
    } else {
      OfStreamSnoc(q[1..], wr, id);
      assert (q + [wr])[1..] == q[1..] + [wr];
    }
  }

  /** The frames queued at a stream's own node. */
  ghost function Own(b: Books, id: int): seq<FrameWriteRequest> {
    if id != 0 && id in b.tree.nodes && b.tree.nodes[id] in b.queues then b.queues[b.tree.nodes[id]] else []
  }

  /** The frames queued for a stream while it had no node. */
  ghost function AtRoot(b: Books, id: int): seq<FrameWriteRequest> {
    if b.tree.root in b.queues then OfStream(b.queues[b.tree.root], id) else []
  }

  /** All frames queued for a stream, in the order in which they will go. */
  ghost function Pending(b: Books, id: int): seq<FrameWriteRequest> {
    AtRoot(b, id) + Own(b, id)
  }

  // ---------- what a call adds to the log ----------

  /** The frames of an evicted node are dropped, if it has any. */
  ghost function EvictLog(b: Books, v: Option<Node>, closer: int): seq<Event> {
    if v.Some? && v.value.id in b.tree.nodes && v.value.id != closer && Own(b, v.value.id) != []
    then [Dropped(v.value.id, AtRoot(b, v.value.id))] else []
  }

  ghost function Logged(b: Books, lim: Limits, s: Step, o: Option<Sending>): seq<Event> {
    match s
    case Opening(_, _) => []
    case Closing(id) => [Dropped(id, AtRoot(b, id))] + EvictLog(b, Victim(b, lim, s), id)
    case Ranking(_, _) => EvictLog(b, Victim(b, lim, s), 0)
    case Queueing(wr) => [Pushed(wr)]
    case Writing => if o.Some? then [Popped(o.value.frame, o.value.last)] else []
  }

  ghost predicate Ledger(log: seq<Event>, b: Books) {
    && (forall id :: Conserved(log, id, Pending(b, id)))
    && PiecesBare(log)
  }

  // ---------- call by call ----------

  lemma Extend(log: seq<Event>, id: int, queue: seq<FrameWriteRequest>)
    requires Conserved(log, id, queue)
    ensures Conserved(log + [], id, queue)
  {
    assert log + [] == log;
  }

  lemma EvictAccount(log: seq<Event>, b: Books, c: Books, v: Option<Node>, closer: int, id: int)
    requires Conserved(log, id, Pending(b, id)) && id != closer && AtRoot(c, id) == AtRoot(b, id)
    requires v.Some? && v.value.id == id && id in b.tree.nodes ==> Own(c, id) == []
    requires !(v.Some? && v.value.id == id && id in b.tree.nodes) ==> Own(c, id) == Own(b, id)
    ensures Conserved(log + EvictLog(b, v, closer), id, Pending(c, id))
  {
    hide Conserved, AtRoot, Own;
    if EvictLog(b, v, closer) == [] {
      Extend(log, id, Pending(b, id));
    } else {
      ConservedDrop(log, id, Pending(b, id), v.value.id, AtRoot(b, v.value.id));
    }
    assert AtRoot(b, id) + [] == AtRoot(b, id);
  }

  lemma CloserAccount(log: seq<Event>, b: Books, c: Books, v: Option<Node>, id: int)
    requires Conserved(log, id, Pending(b, id)) && AtRoot(c, id) == AtRoot(b, id) && Own(c, id) == []
    ensures Conserved(log + ([Dropped(id, AtRoot(b, id))] + EvictLog(b, v, id)), id, Pending(c, id))
  {
    hide Conserved, AtRoot, Own;
    var mid := log + [Dropped(id, AtRoot(b, id))];
    ConservedDrop(log, id, Pending(b, id), id, AtRoot(b, id));
    assert AtRoot(b, id) + [] == AtRoot(b, id);
    assert log + ([Dropped(id, AtRoot(b, id))] + EvictLog(b, v, id)) == mid + EvictLog(b, v, id);
    if EvictLog(b, v, id) == [] {
      Extend(mid, id, AtRoot(b, id));
    } else {
      ConservedDrop(mid, id, AtRoot(b, id), v.value.id, AtRoot(b, v.value.id));
    }
  }

  lemma CloseOwn(b: Books, c: Books, n: Node, v: Option<Node>, id: int)
    requires Complete(b) && Delta(b, c, n, v) && n != b.tree.root && c.queues[n] == [] && b.tree.root in b.queues
    ensures AtRoot(c, id) == AtRoot(b, id)
    ensures id == n.id ==> Own(c, id) == []
    ensures id != n.id && v.Some? && v.value.id == id ==> Own(c, id) == []
    ensures id != n.id && !(v.Some? && v.value.id == id) ==> Own(c, id) == Own(b, id)
  {
    hide Listed;
    if id != n.id && id in b.tree.nodes {
      assert b.tree.nodes[id] != n;
    }
  }

  lemma CloseAccount(log: seq<Event>, b: Books, lim: Limits, s: Step, c: Books, id: int)
    requires Sound(b) && Orderly(b) && s.Closing? && s.id != 0 && NextClose(b, lim, s.id, Victim(b, lim, s), c)
    requires Conserved(log, id, Pending(b, id))
    ensures Conserved(log + Logged(b, lim, s, None), id, Pending(c, id))
  {
    hide Conserved, Sound, Orderly, Delta, AtRoot, Own, Pending, EvictLog, NextClose, Complete, Victim;
    SoundMeans(b);
    CloseFacts(b, lim, s, c);
    var n, v := b.tree.nodes[s.id], Victim(b, lim, s);
    SoundIds(b, n);
    RootQueue(b);
    CloseDelta(b, lim, s, c);
    CloseOwn(b, c, n, v, id);
    var first := [Dropped(s.id, AtRoot(b, s.id))];
    if id == s.id {
      CloserAccount(log, b, c, v, id);
    } else {
      ConservedDrop(log, id, Pending(b, id), s.id, AtRoot(b, s.id));
      OwnNone(b, v, id);
      EvictAccount(log + first, b, c, v, s.id, id);
      assert log + first + EvictLog(b, v, s.id) == log + (first + EvictLog(b, v, s.id));
    }
  }

  lemma RootQueue(b: Books)
    requires Sound(b)
    ensures b.tree.root in b.queues && b.tree.root in b.tree.all
  {
  }

  lemma OwnNone(b: Books, v: Option<Node>, id: int)
    ensures v.Some? && v.value.id == id && id !in b.tree.nodes ==> Own(b, id) == []
  {
  }

  lemma IntroduceAccount(log: seq<Event>, b: Books, lim: Limits, s: Step, c: Books, id: int)
    requires Sound(b) && Orderly(b) && s.Ranking? && s.id != 0 && Creates(b, lim, s.id)
    requires NextIntroduce(b, s.id, s.priority, Victim(b, lim, s), c) && Conserved(log, id, Pending(b, id))
    ensures Conserved(log + Logged(b, lim, s, None), id, Pending(c, id))
  {
    hide Conserved, Sound, Orderly, Delta, AtRoot, Own, EvictLog, NextIntroduce, Complete, Victim, Creates;
    SoundMeans(b);
    IntroduceFacts(b, lim, s, c);
    var n, v := c.tree.nodes[s.id], Victim(b, lim, s);
    RootQueue(b);
    IntroduceDelta(b, lim, s, c);
    if v.Some? {
      RankingVictim(b, lim, s);
    }
    CloseOwn(b, c, n, v, id);
    if id == 0 {
      ZeroAccount(log, b, c, v);
    } else {
      OwnNone(b, v, id);
      OwnNone(b, Some(n), id);
      EvictAccount(log, b, c, v, 0, id);
    }
  }

  /** Frames for no stream are never dropped. */
  lemma ZeroAccount(log: seq<Event>, b: Books, c: Books, v: Option<Node>)
    requires Conserved(log, 0, Pending(b, 0)) && AtRoot(c, 0) == AtRoot(b, 0)
    ensures Conserved(log + EvictLog(b, v, 0), 0, Pending(c, 0))
  {
    hide Conserved, AtRoot;
    if EvictLog(b, v, 0) == [] {
      Extend(log, 0, Pending(b, 0));
    } else {
      ConservedDrop(log, 0, Pending(b, 0), v.value.id, AtRoot(b, v.value.id));
    }
  }

  /** Calls that leave queues and table alone. */
  lemma StillAccount(log: seq<Event>, b: Books, c: Books, id: int)
    requires Conserved(log, id, Pending(b, id)) && c.tree.root == b.tree.root && c.tree.nodes == b.tree.nodes
    requires c.queues == b.queues
    ensures Conserved(log + [], id, Pending(c, id))
  {
    hide Conserved;
    Extend(log, id, Pending(b, id));
  }

  lemma OpenAccount(log: seq<Event>, b: Books, s: Step, c: Books, id: int)
    requires Sound(b) && s.Opening? && s.id != 0 && NextOpen(b, s.id, s.pusher, c) && Conserved(log, id, Pending(b, id))
    ensures Conserved(log + [], id, Pending(c, id))
  {
    hide Conserved, Sound, Pending, Add;
    RootQueue(b);
    if id in b.tree.nodes {
      NodeKnown(b, id);
    }
    if s.id in b.tree.nodes {
      StillAccount(log, b, c, id);
    } else {
      OpenPending(b, c, s.id, c.tree.nodes[s.id], Target(b, s.pusher), id);
      Extend(log, id, Pending(b, id));
    }
  }

  lemma OpenPending(b: Books, c: Books, sid: int, n: Node, parent: Node, id: int)
    requires b.tree.root in b.tree.all && n !in b.tree.all && sid !in b.tree.nodes
    requires c.tree == Add(b.tree, sid, n, parent) && c.queues == b.queues[n := []] && b.tree.root in b.queues
    requires id in b.tree.nodes ==> b.tree.nodes[id] in b.tree.all
    ensures Pending(c, id) == Pending(b, id)
  {
    hide OfStream;
    assert Own(c, id) == Own(b, id);
  }

  lemma PushAccount(log: seq<Event>, b: Books, wr: FrameWriteRequest, c: Books, id: int)
    requires Sound(b) && NextPush(b, wr, c) && Conserved(log, id, Pending(b, id))
    ensures Conserved(log + [Pushed(wr)], id, Pending(c, id))
  {
    hide Conserved, Sound, Pending;
    RootQueue(b);
    TargetKnown(b, wr.StreamID());
    if id in b.tree.nodes {
      NodeKnown(b, id);
    }
    SoundMeans(b);
    NodeKnown(b, 0);
    var n := Target(b, wr.StreamID());
    ConservedPush(log, id, Pending(b, id), wr);
    if wr.StreamID() == id {
      PushedPending(b, c, n, wr, id);
    } else {
      PushedOther(b, c, n, wr, id);
    }
  }

  lemma PushedOther(b: Books, c: Books, n: Node, wr: FrameWriteRequest, id: int)
    requires b.tree.root in b.queues && n in b.queues && c == b.(queues := b.queues[n := b.queues[n] + [wr]])
    requires wr.StreamID() != id && (id in b.tree.nodes && id != 0 ==> b.tree.nodes[id] != n)
    ensures Pending(c, id) == Pending(b, id)
  {
    hide OfStream;
    if n == b.tree.root {
      OfStreamSnoc(b.queues[n], wr, id);
    }
    assert AtRoot(c, id) == AtRoot(b, id) && Own(c, id) == Own(b, id);
  }

  lemma PushedPending(b: Books, c: Books, n: Node, wr: FrameWriteRequest, id: int)
    requires b.tree.root in b.queues && n in b.queues && c == b.(queues := b.queues[n := b.queues[n] + [wr]])
    requires wr.StreamID() == id
    requires if n == b.tree.root then id == 0 || id !in b.tree.nodes
             else id != 0 && id in b.tree.nodes && b.tree.nodes[id] == n
    ensures Pending(c, id) == Pending(b, id) + [wr]
  {
    hide OfStream;
    if n == b.tree.root {
      OfStreamSnoc(b.queues[n], wr, id);
    }
  }

  lemma Cancel(a: seq<Atom>, b: seq<Atom>, c: seq<Atom>)
    requires a + c == b + c
    ensures a == b
  {
    assert |a + c| == |a| + |c| && |b + c| == |b| + |c|;
    assert a == (a + c)[..|a|] && b == (b + c)[..|b|];
  }

  /** What the root sends is the oldest frame of its stream at the root. */
  lemma RootHead(q: seq<FrameWriteRequest>, rest: seq<FrameWriteRequest>, wr: FrameWriteRequest, last: bool, id: int)
    requires Heads(q, rest, wr, last) && NoData(q)
    ensures wr.StreamID() == id ==>
              Emitted(wr, last) + AllAtoms(OfStream(rest, id)) == AllAtoms(OfStream(q, id))
    ensures wr.StreamID() != id ==> OfStream(rest, id) == OfStream(q, id)
  {
    assert rest == q[1..];
    SplitHead(q);
    Cancel(Emitted(wr, last), Atoms(q[0]), AllAtoms(rest));
    if wr.StreamID() == id {
      assert OfStream(q, id)[0] == q[0] && OfStream(q, id)[1..] == OfStream(rest, id);
      SplitHead(OfStream(q, id));
    }
  }

  lemma Behind(wr: FrameWriteRequest, last: bool, rest: seq<FrameWriteRequest>, q: seq<FrameWriteRequest>,
               more: seq<FrameWriteRequest>)
    requires Emitted(wr, last) + AllAtoms(rest) == AllAtoms(q)
    ensures Emitted(wr, last) + AllAtoms(rest + more) == AllAtoms(q + more)
  {
    hide AllAtoms, Emitted;
    AllAtomsAppend(rest, more);
    AllAtomsAppend(q, more);
    var e, a, m := Emitted(wr, last), AllAtoms(rest), AllAtoms(more);
    assert e + (a + m) == (e + a) + m;
  }

  /** A sender other than the root found nothing at the root. */
  lemma RootEmpty(b: Books, o: Sending, c: Books)
    requires Sound(b) && Addressed(b) && NextSend(b, o, c) && o.who != b.tree.root
    ensures b.tree.root in b.queues && b.queues[b.tree.root] == []
  {
    RootQueue(b);
    hide Sound;
    assert !Free(b.queues[b.tree.root]);
  }

  lemma SendAccount(log: seq<Event>, b: Books, o: Sending, c: Books, id: int)
    requires Sound(b) && Anchored(b) && Addressed(b) && NextSend(b, o, c) && Conserved(log, id, Pending(b, id))
    ensures Conserved(log + [Popped(o.frame, o.last)], id, Pending(c, id))
  {
    hide Sound, Anchored, Addressed, NextSend, Conserved, Pending, Reaches, Heads, OfStream;
    if o.who == b.tree.root {
      RootPending(b, o, c, id);
    } else {
      NodePending(b, o, c, id);
    }
    ConservedPop(log, id, Pending(b, id), Pending(c, id), o.frame, o.last);
  }

  lemma RootPending(b: Books, o: Sending, c: Books, id: int)
    requires Sound(b) && Addressed(b) && NextSend(b, o, c) && o.who == b.tree.root
    ensures o.frame.StreamID() == id ==>
              Emitted(o.frame, o.last) + AllAtoms(Pending(c, id)) == AllAtoms(Pending(b, id))
    ensures o.frame.StreamID() != id ==> Pending(c, id) == Pending(b, id)
  {
    hide NoData, Reaches, Heads, OfStream, Bump, Emitted, AllAtoms, Free;
    RootQueue(b);
    BumpTable(b, o);
    if id in b.tree.nodes {
      NodeKnown(b, id);
    }
    SoundMeans(b);
    hide Sound;
    RootHead(b.queues[o.who], c.queues[o.who], o.frame, o.last, id);
    assert Own(c, id) == Own(b, id);
    if o.frame.StreamID() == id {
      Behind(o.frame, o.last, AtRoot(c, id), AtRoot(b, id), Own(b, id));
    }
  }

  lemma BumpTable(b: Books, o: Sending)
    requires WellFormed(b.tree) && o.who in b.tree.all
    ensures var u := Bump(b.tree, o.who, o.frame.DataSize()); u.root == b.tree.root && u.nodes == b.tree.nodes
  {
  }

  lemma NodePending(b: Books, o: Sending, c: Books, id: int)
    requires Sound(b) && Anchored(b) && Addressed(b) && NextSend(b, o, c) && o.who != b.tree.root
    ensures o.frame.StreamID() == id ==>
              Emitted(o.frame, o.last) + AllAtoms(Pending(c, id)) == AllAtoms(Pending(b, id))
    ensures o.frame.StreamID() != id ==> Pending(c, id) == Pending(b, id)
  {
    hide NoData, Reaches, Bump, Emitted, AllAtoms, Free, AllFor, Anchored, Addressed;
    RootEmpty(b, o, c);
    SenderKnown(b, o.who);
    SoundIds(b, o.who);
    FramesAt(b, o.who);
    BumpTable(b, o);
    HeadsKeep(b.queues[o.who], c.queues[o.who], o.frame, o.last, o.who.id);
    if id in b.tree.nodes {
      NodeKnown(b, id);
    }
    hide Sound;
    assert AtRoot(b, id) == [] && AtRoot(c, id) == [];
    assert Pending(b, id) == Own(b, id) && Pending(c, id) == Own(c, id);
  }

  /** Every call keeps the account of every stream. */
  lemma LedgerStep(log: seq<Event>, b: Books, lim: Limits, s: Step, o: Option<Sending>, c: Books,
                   used: set<int>, adjusted: set<int>, live: set<int>)
    requires Inv(b, used, adjusted, live) && Lawful(s, used, live) && Next(b, lim, s, o, c) && Ledger(log, b)
    ensures Ledger(log + Logged(b, lim, s, o), c)
  {
    hide Inv, Conserved, Pending, Next, Lawful, Logged;
    forall id ensures Conserved(log + Logged(b, lim, s, o), id, Pending(c, id)) {
      AccountStep(log, b, lim, s, o, c, id, used, adjusted, live);
    }
    BareStep(log, b, lim, s, o, c);
  }

  lemma AccountStep(log: seq<Event>, b: Books, lim: Limits, s: Step, o: Option<Sending>, c: Books, id: int,
                    used: set<int>, adjusted: set<int>, live: set<int>)
    requires Inv(b, used, adjusted, live) && Lawful(s, used, live) && Next(b, lim, s, o, c)
    requires Conserved(log, id, Pending(b, id))
    ensures Conserved(log + Logged(b, lim, s, o), id, Pending(c, id))
  {
    hide Sound, Orderly, Traced, OpenLive, Anchored, Addressed, Conserved, Pending, NextOpen, NextClose, NextIntroduce,
         NextPush, NextSend, EvictLog, Adjusted, Creates;
    match s
    case Opening(_, _) => OpenAccount(log, b, s, c, id);
    case Closing(_) => CloseAccount(log, b, lim, s, c, id);
    case Ranking(sid, priority) =>
      if Creates(b, lim, sid) {
        IntroduceAccount(log, b, lim, s, c, id);
      } else {
        NoEviction(b, lim, s);
        if sid in b.tree.nodes {
          AdjustedFacts(b.tree, sid, priority.streamDep, priority.exclusive);
        }
        StillAccount(log, b, c, id);
      }
    case Queueing(wr) => PushAccount(log, b, wr, c, id);
    case Writing =>
      if o.Some? {
        SendAccount(log, b, o.value, c, id);
      } else {
        StillAccount(log, b, c, id);
      }
  }

  lemma NoEviction(b: Books, lim: Limits, s: Step)
    requires s.Ranking? && !Creates(b, lim, s.id)
    ensures EvictLog(b, Victim(b, lim, s), 0) == []
  {
  }

  lemma BareStep(log: seq<Event>, b: Books, lim: Limits, s: Step, o: Option<Sending>, c: Books)
    requires Next(b, lim, s, o, c) && PiecesBare(log)
    ensures PiecesBare(log + Logged(b, lim, s, o))
  {
    hide NextOpen, NextClose, NextIntroduce, NextRank, NextPush, IsPiece, Reaches, Emitted, AllAtoms;
    var more := Logged(b, lim, s, o);
    assert forall i :: 0 <= i < |more| && more[i].Popped? && !more[i].last ==> IsPiece(more[i].frame);
    assert forall i :: |log| <= i < |log + more| ==> (log + more)[i] == more[i - |log|];
  }

  lemma LedgerStart(b: Books)
    requires b.tree.nodes == map[0 := b.tree.root] && b.queues == map[b.tree.root := []]
    ensures Ledger([], b)
  {
    forall id ensures Conserved([], id, Pending(b, id)) {
      assert Pending(b, id) == [];
    }
  }
}
