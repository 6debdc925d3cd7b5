/** The random write scheduler: control frames first, then any stream that can send. */
module RandomScheduler {
  import opened Common
  import opened Flow
  import opened Frames
  import opened FrameLog

  class WriteQueue {
    var s: seq<FrameWriteRequest>
    constructor ()
      ensures s == []
    {
      s := [];
    }
  }

  ghost predicate OwnFrame(wr: FrameWriteRequest, id: int, windows: set<Window>, conns: set<Conn>) {
    wr.StreamID() == id && FrameOk(wr, windows, conns)
  }

  ghost predicate OwnQueue(s: seq<FrameWriteRequest>, id: int, windows: set<Window>, conns: set<Conn>) {
    forall i :: 0 <= i < |s| ==> OwnFrame(s[i], id, windows, conns)
  }

  lemma SomeStream(s: set<int>)
    requires s != {}
    ensures exists id :: id in s
  {
    assert (forall id :: id !in s) ==> s == {};
  }

  lemma ShortenedOwn(s: seq<FrameWriteRequest>, rest: seq<FrameWriteRequest>, id: int, windows: set<Window>,
                     conns: set<Conn>)
    requires OwnQueue(s, id, windows, conns) && Shortened(s, rest)
    ensures OwnQueue(rest, id, windows, conns)
  {
    assert OwnFrame(s[0], id, windows, conns);
    forall i | 0 <= i < |rest| ensures OwnFrame(rest[i], id, windows, conns) {
      if rest == s[1..] {
        assert rest[i] == s[i + 1];
      } else if i > 0 {
        assert rest[i] == rest[1..][i - 1] == s[i];
      }
    }
  }

  /** Sends the head of a stream's queue, or as much of it as may go. */
  method Draw(s: seq<FrameWriteRequest>, id: int, ghost windows: set<Window>, ghost conns: set<Conn>)
    returns (wr: FrameWriteRequest, rest: seq<FrameWriteRequest>, ok: bool, ghost last: bool)
    requires s != [] && OwnQueue(s, id, windows, conns) && OwnFrame(s[0], id, windows, conns)
    modifies windows`n
    ensures ok <==> old(s[0].Ready())
    ensures !ok ==> unchanged(windows)
    ensures ok ==>
              && wr.StreamID() == id && OwnQueue(rest, id, windows, conns)
              && Emitted(wr, last) + AllAtoms(rest) == AllAtoms(s)
              && (!last ==> IsPiece(wr))
              && WindowsOf(windows) == Debit(old(WindowsOf(windows)), wr)
  {
    hide AllAtoms, Atoms, Emitted, IsPiece, OwnQueue;
    wr, rest, ok, last := ConsumeQueue(s, MAX_INT32);
    if ok {
      ShortenedOwn(s, rest, id, windows, conns);
    }
  }

  class Scheduler {
    const zero: WriteQueue
    var sq: map<int, WriteQueue>
    var queuePool: seq<WriteQueue>

    ghost var log: seq<Event>
    ghost var windows: set<Window>
    ghost var conns: set<Conn>

    /** All queues, in use or pooled. */
    ghost function Repr(): set<WriteQueue>
      reads this`sq, this`queuePool
    {
      {zero} + sq.Values + (set q | q in queuePool)
    }

    /** No queue serves two purposes. */
    ghost predicate Separate()
      reads this`sq, this`queuePool
    {
      && 0 !in sq && zero !in queuePool
      && (forall id :: id in sq ==> sq[id] != zero && sq[id] !in queuePool)
      && (forall i, j :: i in sq && j in sq && sq[i] == sq[j] ==> i == j)
      && (forall i, j :: 0 <= i < j < |queuePool| ==> queuePool[i] != queuePool[j])
    }

    ghost function Queue(id: int): seq<FrameWriteRequest>
      reads this`sq, this`queuePool, Repr()
    {
      if id == 0 then zero.s else if id in sq then sq[id].s else []
    }

    ghost predicate QueuesOk()
      reads this`sq, this`queuePool, this`windows, this`conns, Repr()
    {
      && (forall q :: q in queuePool ==> q.s == [])
      && (forall id :: id in sq ==> sq[id].s != [] && OwnQueue(sq[id].s, id, windows, conns))
      && (forall i :: 0 <= i < |zero.s| ==> zero.s[i].StreamID() == 0)
    }

    /** The promise of the scheduler, for every stream. */
    ghost predicate Ledger()
      reads this`sq, this`queuePool, this`log, Repr()
    {
      && (forall id :: Conserved(log, id, Queue(id)))
      && PiecesBare(log)
    }

    ghost predicate Valid()
      reads this, Repr()
    {
      Separate() && QueuesOk() && Ledger()
    }

    constructor ()
      ensures Valid() && log == [] && fresh(Repr())
    {
      zero := new WriteQueue();
      sq, queuePool, log, windows, conns := map[], [], [], {}, {};
      new;
      assert sq.Values == {};
      assert Repr() == {zero};
      forall id ensures Conserved(log, id, Queue(id)) {
      }
    }

    /** An empty queue, reused if there is one. */
    method GetQueue() returns (q: WriteQueue)
      requires Separate() && QueuesOk()
      modifies this`queuePool
      ensures Separate() && QueuesOk() && q.s == [] && q != zero && q !in queuePool
      ensures forall id :: id in sq ==> sq[id] != q
      ensures fresh(q) || q in old(Repr())
      ensures Repr() <= old(Repr())
    {
      if |queuePool| == 0 {
        q := new WriteQueue();
      } else {
        var x := |queuePool| - 1;
        q := queuePool[x];
        queuePool := queuePool[..x];
      }
    }

    /** Put a queue that is no longer needed back, emptied. */
    method PutQueue(q: WriteQueue)
      requires Separate() && QueuesOk() && q != zero && q !in queuePool && forall id :: id in sq ==> sq[id] != q
      modifies this`queuePool, q
      ensures Separate() && QueuesOk()
      ensures Repr() == old(Repr()) + {q}
      ensures zero.s == old(zero.s) && forall id :: id in sq ==> sq[id].s == old(sq[id].s)
    {
      q.s := [];
      queuePool := queuePool + [q];
    }

    method Enqueue(id: int, wr: FrameWriteRequest)
      requires Separate() && QueuesOk() && id != 0 && OwnFrame(wr, id, windows, conns)
      modifies this`sq, this`queuePool, Repr()
      ensures Separate() && QueuesOk() && fresh(Repr() - old(Repr()))
      ensures forall i :: Queue(i) == if i == id then old(Queue(i)) + [wr] else old(Queue(i))
    {
      if id !in sq {
        var q := GetQueue();
        q.s := [wr];
        sq := sq[id := q];
      } else {
        var q := sq[id];
        q.s := q.s + [wr];
      }
    }

    method EnqueueControl(wr: FrameWriteRequest)
      requires Separate() && QueuesOk() && wr.StreamID() == 0
      modifies zero
      ensures QueuesOk()
      ensures forall i :: Queue(i) == if i == 0 then old(Queue(i)) + [wr] else old(Queue(i))
    {
      zero.s := zero.s + [wr];
    }

    /** The windows and connections that frames may touch. */
    method Remember(wr: FrameWriteRequest)
      requires QueuesOk() && wr.Sendable()
      modifies this`windows, this`conns
      ensures QueuesOk() && windows == old(windows) + wr.Windows()
      ensures wr.DataSize() > 0 ==> wr.stream.sc in conns
    {
      windows := windows + wr.Windows();
      if wr.DataSize() > 0 {
        conns := conns + {wr.stream.sc};
      }
      forall id | id in sq ensures OwnQueue(sq[id].s, id, windows, conns) {
        assert old(OwnQueue(sq[id].s, id, windows, conns));
        forall i | 0 <= i < |sq[id].s| ensures OwnFrame(sq[id].s[i], id, windows, conns) {
          assert old(OwnFrame(sq[id].s[i], id, windows, conns));
        }
      }
    }

    /** Control frames apart, every stream on its own. */
    method Store(wr: FrameWriteRequest)
      requires Separate() && QueuesOk() && wr.Sendable()
      modifies this`sq, this`queuePool, this`windows, this`conns, Repr()
      ensures Separate() && QueuesOk() && fresh(Repr() - old(Repr())) && windows == old(windows) + wr.Windows()
      ensures forall id :: Queue(id) == if id == wr.StreamID() then old(Queue(id)) + [wr] else old(Queue(id))
    {
      hide Separate, QueuesOk, Queue;
      Remember(wr);
      if wr.StreamID() == 0 {
        EnqueueControl(wr);
      } else {
        Enqueue(wr.StreamID(), wr);
      }
    }

    /** Queue a frame. */
    method Push(wr: FrameWriteRequest)
      requires Valid() && wr.Sendable() && (wr.stream != null ==> wr.stream.id != 0)
      modifies this, Repr()
      ensures Valid() && log == old(log) + [Pushed(wr)] && fresh(Repr() - old(Repr()))
      ensures windows == old(windows) + wr.Windows()
      ensures forall id :: Queue(id) == if id == wr.StreamID() then old(Queue(id)) + [wr] else old(Queue(id))
    {
      hide Separate, QueuesOk, Conserved, Queue, PushedOf, PoppedOf, IsPiece;
      ghost var before := log;
      Store(wr);
      log := log + [Pushed(wr)];
      forall i ensures Conserved(log, i, Queue(i)) {
        assert old(Conserved(log, i, Queue(i)));
        ConservedPush(before, i, old(Queue(i)), wr);
      }
    }

    /** Stream id has no frames any more: its queue goes back to the pool. */
    method Forget(id: int)
      requires Separate() && id in sq
      requires forall q :: q in queuePool ==> q.s == []
      requires forall i :: i in sq && i != id ==> sq[i].s != [] && OwnQueue(sq[i].s, i, windows, conns)
      requires forall i :: 0 <= i < |zero.s| ==> zero.s[i].StreamID() == 0
      modifies this`sq, this`queuePool, sq[id]
      ensures Separate() && QueuesOk() && Repr() == old(Repr())
      ensures forall i :: Queue(i) == if i == id then [] else old(Queue(i))
    {
      var q := sq[id];
      assert forall x :: x in sq.Values <==> exists i :: i in sq && sq[i] == x;
      sq := sq - {id};
      PutQueue(q);
      assert forall x :: x in old(sq).Values <==> x == q || x in sq.Values by {
        forall x | x in old(sq).Values ensures x == q || x in sq.Values {
          var i :| i in old(sq) && old(sq)[i] == x;
          assert i != id ==> i in sq && sq[i] == x;
        }
        assert id in old(sq);
      }
    }

    method Discard(id: int)
      requires Separate() && QueuesOk() && id in sq
      modifies this`sq, this`queuePool, sq[id]
      ensures Separate() && QueuesOk() && Repr() == old(Repr())
      ensures forall i :: Queue(i) == if i == id then [] else old(Queue(i))
    {
      hide OwnQueue, OwnFrame;
      Forget(id);
    }

    lemma NoQueue(id: int)
      requires id !in sq && id != 0
      ensures Queue(id) == []
    {
    }

    lemma ControlApart()
      requires Separate()
      ensures 0 !in sq
    {
    }

    /** Close a stream: its frames are discarded. */
    method CloseStream(streamID: uint32)
      requires Valid()
      modifies this, Repr()
      ensures Valid() && fresh(Repr() - old(Repr())) && windows == old(windows)
      ensures log == if streamID == 0 then old(log) else old(log) + [Dropped(streamID, [])]
      ensures forall id :: Queue(id) == if id == streamID && id != 0 then [] else old(Queue(id))
    {
      hide Conserved, PushedOf, PoppedOf, Separate, QueuesOk, Queue, IsPiece;
      ControlApart();
      if streamID !in sq {
        if streamID == 0 {
          return;
        }
        NoQueue(streamID);
      } else {
        Discard(streamID);
      }
      ghost var before := log;
      log := log + [Dropped(streamID, [])];
      forall i ensures Conserved(log, i, Queue(i)) {
        assert old(Conserved(log, i, Queue(i)));
        ConservedDrop(before, i, old(Queue(i)), streamID, []);
      }
    }

    /** The next frame of stream id can go, at least in part. */
    ghost predicate HeadReady(id: int)
      requires QueuesOk() && id in sq
      reads this`sq, this`queuePool, this`windows, this`conns, Repr(), windows, conns
    {
      assert OwnQueue(sq[id].s, id, windows, conns) && OwnFrame(sq[id].s[0], id, windows, conns);
      sq[id].s[0].Ready()
    }

    lemma HeadOk(id: int)
      requires QueuesOk() && Separate() && id in sq
      ensures sq[id].s != [] && OwnQueue(sq[id].s, id, windows, conns) && Queue(id) == sq[id].s
      ensures OwnFrame(sq[id].s[0], id, windows, conns)
      ensures HeadReady(id) <==> sq[id].s[0].Ready()
    {
    }

    /** The streams that can send now. */
    ghost function ReadyStreams(): set<int>
      requires QueuesOk()
      reads this`sq, this`queuePool, this`windows, this`conns, Repr(), windows, conns
    {
      set id | id in sq && HeadReady(id)
    }

    /** Try to send from stream id. */
    method TryStream(id: int) returns (wr: FrameWriteRequest, ok: bool, ghost last: bool)
      requires Separate() && QueuesOk() && id in sq
      modifies this`sq, this`queuePool, sq[id], windows`n
      ensures Separate() && QueuesOk() && Repr() == old(Repr())
      ensures ok <==> id in old(ReadyStreams())
      ensures !ok ==> unchanged(this) && unchanged(Repr()) && unchanged(windows)
      ensures ok ==>
                && wr.StreamID() == id
                && Emitted(wr, last) + AllAtoms(Queue(id)) == AllAtoms(old(Queue(id)))
                && (!last ==> IsPiece(wr))
                && (forall i :: i != id ==> Queue(i) == old(Queue(i)))
                && WindowsOf(windows) == Debit(old(WindowsOf(windows)), wr)
    {
      hide AllAtoms, Atoms, Emitted, IsPiece, Separate, OwnQueue, Shortened, WindowsOf, Debit;
      var q := sq[id];
      HeadOk(id);
      var rest;
      wr, rest, ok, last := Draw(q.s, id, windows, conns);
      if ok {
        Replace(id, rest);
      }
    }

    method Replace(id: int, rest: seq<FrameWriteRequest>)
      requires Separate() && QueuesOk() && id in sq && OwnQueue(rest, id, windows, conns)
      modifies this`sq, this`queuePool, sq[id]
      ensures Separate() && QueuesOk() && Repr() == old(Repr())
      ensures forall i :: Queue(i) == if i == id then rest else old(Queue(i))
    {
      var q := sq[id];
      q.s := rest;
      if q.s == [] {
        Forget(id);
      }
    }

    /** The oldest control frame. */
    method ShiftControl() returns (wr: FrameWriteRequest)
      requires Separate() && QueuesOk() && zero.s != []
      modifies zero
      ensures QueuesOk() && wr.StreamID() == 0
      ensures Emitted(wr, true) + AllAtoms(Queue(0)) == AllAtoms(old(Queue(0)))
      ensures [wr] + Queue(0) == old(Queue(0)) && forall i :: i != 0 ==> Queue(i) == old(Queue(i))
    {
      hide Atoms, AllAtoms;
      wr := zero.s[0];
      SplitHead(zero.s);
      zero.s := zero.s[1..];
    }

    /** Try the streams in any order until one can send. */
    method TryStreams() returns (wr: FrameWriteRequest, ok: bool, ghost last: bool)
      requires Separate() && QueuesOk()
      modifies this`sq, this`queuePool, Repr(), windows`n
      ensures Separate() && QueuesOk() && Repr() == old(Repr())
      ensures ok <==> old(ReadyStreams()) != {}
      ensures !ok ==> (forall i :: Queue(i) == old(Queue(i))) && WindowsOf(windows) == old(WindowsOf(windows))
      ensures ok ==>
                var id := wr.StreamID();
                && id in old(sq) && id != 0
                && Emitted(wr, last) + AllAtoms(Queue(id)) == AllAtoms(old(Queue(id)))
                && (!last ==> IsPiece(wr))
                && (forall i :: i != id ==> Queue(i) == old(Queue(i)))
                && WindowsOf(windows) == Debit(old(WindowsOf(windows)), wr)
    {
      hide AllAtoms, Emitted, IsPiece, HeadReady, QueuesOk, Debit;
      wr, ok, last := FrameWriteRequest(None, null, Other(0)), false, true;
      var remaining: set<int> := sq.Keys;
      assert ReadyStreams() <= sq.Keys;
      while remaining != {}
        invariant Separate() && QueuesOk() && unchanged(this) && unchanged(Repr()) && unchanged(windows)
        invariant remaining <= sq.Keys
        invariant old(ReadyStreams()) <= remaining
        decreases remaining
      {
        SomeStream(remaining);
        var id :| id in remaining;
        wr, ok, last := TryStream(id);
        if ok {
          return;
        }
        remaining := remaining - {id};
      }
      ok := false;
    }

    /** The next frame to write: control frames come first; a stream frame is
        paid for from its windows. Pop fails only if there is no control frame
        and every stream waits with DATA that has no window. */
    method Pop() returns (wr: FrameWriteRequest, ok: bool, ghost last: bool)
      requires Valid()
      modifies this`sq, this`queuePool, this`log, Repr(), windows`n
      ensures Valid() && Repr() == old(Repr())
      ensures ok <==> old(Queue(0)) != [] || old(ReadyStreams()) != {}
      ensures log == if ok then old(log) + [Popped(wr, last)] else old(log)
      ensures !ok ==> (forall i :: Queue(i) == old(Queue(i))) && WindowsOf(windows) == old(WindowsOf(windows))
      ensures ok && old(Queue(0)) != [] ==>
                wr == old(Queue(0))[0] && last && WindowsOf(windows) == old(WindowsOf(windows))
      ensures ok && old(Queue(0)) == [] ==>
                wr.StreamID() in old(sq) && WindowsOf(windows) == Debit(old(WindowsOf(windows)), wr)
    {
      hide Separate, AllAtoms, Emitted, Conserved, ReadyStreams, PushedOf, PoppedOf, QueuesOk, IsPiece, Debit,
           WindowsOf;
      ghost var before := log;
      last := true;
      if zero.s != [] {
        wr := ShiftControl();
        ok := true;
      } else {
        wr, ok, last := TryStreams();
        if !ok {
          return;
        }
      }
      log := log + [Popped(wr, last)];
      forall i ensures Conserved(log, i, Queue(i)) {
        assert old(Conserved(log, i, Queue(i)));
        ConservedPop(before, i, old(Queue(i)), Queue(i), wr, last);
      }
    }
  }
}
