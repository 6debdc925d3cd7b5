/** The account of a write scheduler: what was pushed for a stream, what was popped, and
    what is still queued. */
module FrameLog {
  import opened Common
  import opened Flow
  import opened Frames

  /** What has happened so far. A stream whose queue is dropped keeps the frames that wait
      elsewhere. */
  datatype Event =
    | Pushed(wr: FrameWriteRequest)
    | Popped(frame: FrameWriteRequest, last: bool)
    | Dropped(id: int, kept: seq<FrameWriteRequest>)

  /** The frames pushed for a stream since its queue was last dropped. */
  function PushedOf(log: seq<Event>, id: int): seq<FrameWriteRequest> {
    if log == [] then [] else PushedThen(PushedOf(log[..|log| - 1], id), log[|log| - 1], id)
  }

  function PushedThen(before: seq<FrameWriteRequest>, e: Event, id: int): seq<FrameWriteRequest> {
    if e.Dropped? && e.id == id then e.kept
    else if e.Pushed? && e.wr.StreamID() == id then before + [e.wr]
    else before
  }

  /** The content popped for a stream since its queue was last dropped. */
  function PoppedOf(log: seq<Event>, id: int): seq<Atom> {
    if log == [] then [] else PoppedThen(PoppedOf(log[..|log| - 1], id), log[|log| - 1], id)
  }

  function PoppedThen(before: seq<Atom>, e: Event, id: int): seq<Atom> {
    if e.Dropped? && e.id == id then []
    else if e.Popped? && e.frame.StreamID() == id then before + Emitted(e.frame, e.last)
    else before
  }

  lemma LogStep(log: seq<Event>, e: Event, id: int)
    ensures PushedOf(log + [e], id) == PushedThen(PushedOf(log, id), e, id)
    ensures PoppedOf(log + [e], id) == PoppedThen(PoppedOf(log, id), e, id)
  {
    assert (log + [e])[..|log + [e]| - 1] == log;
  }

  /** Content popped so far, then content queued, is the content pushed. */
  ghost predicate Conserved(log: seq<Event>, id: int, queue: seq<FrameWriteRequest>) {
    PoppedOf(log, id) + AllAtoms(queue) == AllAtoms(PushedOf(log, id))
  }

  /** END_STREAM and the done channel are never on a piece that is not a frame's last. */
  ghost predicate PiecesBare(log: seq<Event>) {
    forall i :: 0 <= i < |log| && log[i].Popped? && !log[i].last ==> IsPiece(log[i].frame)
  }

  lemma ConservedPush(log: seq<Event>, id: int, queue: seq<FrameWriteRequest>, wr: FrameWriteRequest)
    requires Conserved(log, id, queue)
    ensures wr.StreamID() == id ==> Conserved(log + [Pushed(wr)], id, queue + [wr])
    ensures wr.StreamID() != id ==> Conserved(log + [Pushed(wr)], id, queue)
  {
    hide AllAtoms, Atoms, PushedOf, PoppedOf;
    LogStep(log, Pushed(wr), id);
    AllAtomsAppend(queue, [wr]);
    AllAtomsAppend(PushedOf(log, id), [wr]);
    assert PoppedOf(log, id) + (AllAtoms(queue) + AllAtoms([wr])) == (PoppedOf(log, id) + AllAtoms(queue))
           + AllAtoms([wr]);
  }

  lemma ConservedPop(log: seq<Event>, id: int, queue: seq<FrameWriteRequest>, rest: seq<FrameWriteRequest>,
                     wr: FrameWriteRequest, last: bool)
    requires Conserved(log, id, queue)
    requires wr.StreamID() == id ==> Emitted(wr, last) + AllAtoms(rest) == AllAtoms(queue)
    requires wr.StreamID() != id ==> rest == queue
    ensures Conserved(log + [Popped(wr, last)], id, rest)
  {
    LogStep(log, Popped(wr, last), id);
    if wr.StreamID() == id {
      assert PoppedOf(log, id) + Emitted(wr, last) + AllAtoms(rest) == PoppedOf(log, id)
             + (Emitted(wr, last) + AllAtoms(rest));
    }
  }

  lemma ConservedDrop(log: seq<Event>, id: int, queue: seq<FrameWriteRequest>, dropped: int,
                      kept: seq<FrameWriteRequest>)
    requires Conserved(log, id, queue)
    ensures dropped != id ==> Conserved(log + [Dropped(dropped, kept)], id, queue)
    ensures dropped == id ==> Conserved(log + [Dropped(dropped, kept)], id, kept)
  {
    LogStep(log, Dropped(dropped, kept), id);
  }

  /** The frames that were popped. */
  function Written(log: seq<Event>): seq<FrameWriteRequest> {
    if log == [] then [] else Head(log[0]) + Written(log[1..])
  }

  function Head(e: Event): seq<FrameWriteRequest> {
    if e.Popped? then [e.frame] else []
  }

  lemma WrittenNone()
    ensures Written([]) == []
  {
  }

  lemma {:induction false} WrittenMore(log: seq<Event>, more: seq<Event>)
    ensures Written(log + more) == Written(log) + Written(more)
  {
    hide Head;
    if log == [] {
      assert log + more == more;
    } else {
      WrittenMore(log[1..], more);
      assert (log + more)[1..] == log[1..] + more && (log + more)[0] == log[0];
      assert Head(log[0]) + (Written(log[1..]) + Written(more)) == Head(log[0]) + Written(log[1..]) + Written(more);
    }
  }
}
