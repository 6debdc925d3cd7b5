/** The books of the priority scheduler as a value, and what one call does to them. */
module PriorityBooks {
  import opened Common
  import opened Flow
  import opened Frames
  import opened Forest
  import opened PriorityModel
  import opened PriorityCounts
  import opened PriorityNode
  import opened PriorityScheduler

  /** How many closed and idle nodes are kept. */
  datatype Limits = Limits(closed: int, idle: int)

  datatype Books = Books(
    tree: Tree<Node>,
    states: map<Node, NodeState>,
    queues: map<Node, seq<FrameWriteRequest>>,
    closed: seq<Node>,
    idle: seq<Node>,
    first: map<Node, Option<Node>>,    // the head of each node's list of kids
    maxID: int,
    weights: map<Node, byte>)

  /** The calls of the interface. */
  datatype Step =
    | Opening(id: uint32, pusher: uint32)
    | Closing(id: uint32)
    | Ranking(id: uint32, priority: PriorityParam)
    | Queueing(wr: FrameWriteRequest)
    | Writing

  /** What a call to write brought: the frame, the node it came from, and whether it was
      the last of what was queued as one frame. */
  datatype Sending = Sending(who: Node, frame: FrameWriteRequest, last: bool)

  // ---------- what a call does ----------

  ghost predicate Creates(b: Books, lim: Limits, id: int) {
    id !in b.tree.nodes && id > b.maxID && lim.idle != 0
  }

  /** The node that the call evicts, if any. */
  ghost function Victim(b: Books, lim: Limits, s: Step): Option<Node> {
    match s
    case Closing(id) =>
      if id !in b.tree.nodes then None
      else if lim.closed <= 0 then Some(b.tree.nodes[id])
      else Scheduler.Oldest(b.closed, lim.closed)
    case Ranking(id, _) => if Creates(b, lim, id) then Scheduler.Oldest(b.idle, lim.idle) else None
    case _ => None
  }

  /** The tree without the victim: its first kid takes its place. */
  ghost function Evicted(t: Tree<Node>, victim: Option<Node>, first: map<Node, Option<Node>>): Tree<Node> {
    if victim.Some? && victim.value in first
    then Removed(t, victim.value, first[victim.value], victim.value.id) else t
  }

  /** A list after its oldest entry made room, if it had to. */
  function Rest(list: seq<Node>, victim: Option<Node>): seq<Node> {
    if victim.Some? && list != [] then list[1..] else list
  }

  ghost function Target(b: Books, id: int): Node {
    if id in b.tree.nodes then b.tree.nodes[id] else b.tree.root
  }

  ghost predicate NextOpen(b: Books, id: int, pusher: int, c: Books) {
    && id in c.tree.nodes
    && var n := c.tree.nodes[id];
       if id in b.tree.nodes then n == b.tree.nodes[id] && c == b.(states := b.states[n := Open], first := c.first)
       else
         && n !in b.tree.all && n.id == id
         && c == Books(Add(b.tree, id, n, Target(b, pusher)), b.states[n := Open], b.queues[n := []], b.closed, b.idle,
                       c.first, if id > b.maxID then id else b.maxID, b.weights[n := DEFAULT_WEIGHT])
  }

  ghost predicate NextClose(b: Books, lim: Limits, id: int, victim: Option<Node>, c: Books) {
    && id in b.tree.nodes && WellFormed(b.tree) && b.tree.nodes[id] in b.tree.all
    && var n := b.tree.nodes[id];
       && n in b.states && b.states[n].Open?
       && c == Books(Evicted(Bump(b.tree, n, -b.tree.bytes[n]), victim, b.first), b.states[n := Closed],
                     b.queues[n := []], if lim.closed <= 0 then b.closed else Rest(b.closed, victim) + [n], b.idle,
                     c.first, b.maxID, b.weights)
  }

  /** The tree with the new idle node, before its priority is looked at. */
  ghost function Mid(b: Books, id: int, n: Node, victim: Option<Node>): Tree<Node> {
    Evicted(Add(b.tree, id, n, b.tree.root), victim, b.first)
  }

  ghost predicate NextIntroduce(b: Books, id: int, priority: PriorityParam, victim: Option<Node>, c: Books) {
    && id in c.tree.nodes
    && var n := c.tree.nodes[id];
       var mid := Mid(b, id, n, victim);
       && n !in b.tree.all && n.id == id && id in mid.nodes && 0 in mid.nodes
       && c == Books(Adjusted(mid, id, priority.streamDep, priority.exclusive), b.states[n := Idle], b.queues[n := []],
                     b.closed, Rest(b.idle, victim) + [n], c.first, id,
                     Scheduler.Weighed(b.weights[n := DEFAULT_WEIGHT], mid.nodes, id, priority))
  }

  ghost predicate NextRank(b: Books, id: int, priority: PriorityParam, c: Books) {
    && id in b.tree.nodes && 0 in b.tree.nodes
    && c == b.(tree := Adjusted(b.tree, id, priority.streamDep, priority.exclusive), first := c.first,
               weights := Scheduler.Weighed(b.weights, b.tree.nodes, id, priority))
  }

  ghost predicate NextPush(b: Books, wr: FrameWriteRequest, c: Books) {
    var n := Target(b, wr.StreamID());
    && n in b.queues && c == b.(queues := b.queues[n := b.queues[n] + [wr]])
    && (wr.DataSize() > 0 ==> wr.StreamID() in b.tree.nodes)
  }

  /** The head of the queue needs no window. */
  ghost predicate Free(q: seq<FrameWriteRequest>) {
    q != [] && q[0].DataSize() == 0
  }

  /** On the way from the root to the sender, a node with a sibling that has sent less for
      its weight was chosen only if nothing at or below that sibling could have gone without
      a window. */
  ghost predicate TakesTurn(b: Books, who: Node) {
    var p := b.tree.parent;
    forall x, d :: x in p && d in p && Overtakes(p, b.weights, b.tree.subtree, who, b.tree.root, x, d) ==>
           NoneFree(b, d)
  }

  ghost predicate NoneFree(b: Books, top: Node) {
    forall x :: x in b.queues && Reaches(b.tree.parent, x, top) ==> !Free(b.queues[x])
  }

  /** The sender hangs from the root and goes in its turn, and no frame above it could have
      gone without a window. */
  ghost predicate NextSend(b: Books, o: Sending, c: Books) {
    && o.who in b.queues && o.who in c.queues && WellFormed(b.tree) && o.who in b.tree.all
    && Reaches(b.tree.parent, o.who, b.tree.root)
    && (forall a :: a in b.queues && a != o.who && Reaches(b.tree.parent, o.who, a) ==> !Free(b.queues[a]))
    && TakesTurn(b, o.who)
    && Heads(b.queues[o.who], c.queues[o.who], o.frame, o.last)
    && c == b.(tree := Bump(b.tree, o.who, o.frame.DataSize()), queues := b.queues[o.who := c.queues[o.who]],
               first := c.first)
  }

  /** Nothing under the root could have gone without a window. */
  ghost predicate NextNone(b: Books, c: Books) {
    NoneFree(b, b.tree.root) && c == b.(first := c.first)
  }

  /** The call s turns the books b into c and brings o. It fails, and this does not hold,
      where the source panics: to close a stream that is not tracked as open, or to queue
      data for a stream that is not tracked. */
  ghost predicate Next(b: Books, lim: Limits, s: Step, o: Option<Sending>, c: Books) {
    match s
    case Opening(id, pusher) => o.None? && NextOpen(b, id, pusher, c)
    case Closing(id) => o.None? && NextClose(b, lim, id, Victim(b, lim, s), c)
    case Ranking(id, priority) =>
      && o.None?
      && (if Creates(b, lim, id) then NextIntroduce(b, id, priority, Victim(b, lim, s), c)
          else if id in b.tree.nodes then NextRank(b, id, priority, c)
          else c == b.(first := c.first))
    case Queueing(wr) => o.None? && NextPush(b, wr, c)
    case Writing => if o.Some? then NextSend(b, o.value, c) else NextNone(b, c)
  }

  // ---------- what always holds ----------

  ghost predicate NoData(q: seq<FrameWriteRequest>) {
    forall i :: 0 <= i < |q| ==> q[i].DataSize() == 0
  }

  /** Only open streams have sent data, or have data to send. */
  ghost predicate Quiet(b: Books, n: Node)
    requires n in b.tree.bytes && n in b.states && n in b.queues
  {
    0 <= b.tree.bytes[n] && (!b.states[n].Open? ==> b.tree.bytes[n] == 0 && NoData(b.queues[n]))
  }

  /** A listed node is tracked under its own id, or was opened and is gone. */
  ghost predicate Listed(b: Books, n: Node)
    requires n in b.states
  {
    if n.id in b.tree.nodes then b.tree.nodes[n.id] == n else !b.states[n].Idle?
  }

  ghost predicate Complete(b: Books) {
    && b.states.Keys == b.tree.all && b.queues.Keys == b.tree.all && b.tree.bytes.Keys == b.tree.all
    && (forall id :: id in b.tree.nodes ==> b.tree.nodes[id] in b.tree.all && b.tree.nodes[id].id == id)
    && (forall n :: n in b.closed ==> n in b.tree.all)
    && (forall n :: n in b.idle ==> n in b.tree.all)
  }

  /** What the heap's own invariant says of its books. */
  ghost predicate Sound(b: Books) {
    && Complete(b) && WellFormed(b.tree) && b.first.Keys == b.tree.all && b.weights.Keys == b.tree.all
    && 0 in b.tree.nodes && b.tree.nodes[0] == b.tree.root
    && (forall n :: n in b.tree.all ==> n.id <= b.maxID && (n.id == 0 ==> n == b.tree.root))
    && (forall n :: n in b.tree.all ==> FirstKid(b.tree, n, b.first[n]))
    && (forall n :: n in b.closed ==> n != b.tree.root)
    && (forall n :: n in b.idle ==> n != b.tree.root)
  }

  ghost predicate AllQuiet(b: Books)
    requires Complete(b)
  {
    forall n :: n in b.tree.all ==> Quiet(b, n)
  }

  ghost predicate ListsOk(b: Books)
    requires Complete(b)
  {
    && Distinct(b.idle)
    && (forall n :: n in b.closed ==> b.states[n].Closed? && Listed(b, n))
    && (forall n :: n in b.idle ==> Listed(b, n))
  }

  ghost predicate Orderly(b: Books) {
    Complete(b) && AllQuiet(b) && ListsOk(b)
  }

  /** Where nodes come from: a stream that was opened, or a PRIORITY frame. */
  ghost predicate Traced(b: Books, used: set<int>, adjusted: set<int>) {
    && b.states.Keys == b.tree.all
    && (forall n :: n in b.tree.all ==> if b.states[n].Idle? then n.id in adjusted else n.id in used)
    && (forall n :: n in b.idle ==> n.id in adjusted)
  }

  /** Every stream its user has open is tracked. */
  ghost predicate KeepsOpen(b: Books, live: set<int>) {
    forall id :: id in live ==> id in b.tree.nodes
  }

  ghost predicate IdleShut(b: Books) {
    forall n :: n in b.idle ==> n in b.states && !b.states[n].Open?
  }

  /** The tracked streams that are open are those the user has open. */
  ghost predicate OpenLive(b: Books, live: set<int>) {
    forall id :: id in b.tree.nodes && id != 0 && b.tree.nodes[id] in b.states ==>
      (b.states[b.tree.nodes[id]].Open? <==> id in live)
  }

  /** Only tracked nodes have parents. */
  ghost predicate Anchored(b: Books) {
    forall x :: x in b.tree.parent ==> x.id in b.tree.nodes && b.tree.nodes[x.id] == x
  }

  ghost predicate AllFor(q: seq<FrameWriteRequest>, id: int) {
    forall i :: 0 <= i < |q| ==> q[i].StreamID() == id
  }

  /** A tracked stream's queue holds its own frames, and the root's holds no data. */
  ghost predicate Addressed(b: Books) {
    && b.tree.root in b.queues && NoData(b.queues[b.tree.root])
    && (forall id :: id in b.tree.nodes && id != 0 && b.tree.nodes[id] in b.queues ==>
          AllFor(b.queues[b.tree.nodes[id]], id))
  }

  /** What holds between any two calls of a user that has opened `used`, ranked `adjusted`
      and not closed `live`. */
  ghost predicate Inv(b: Books, used: set<int>, adjusted: set<int>, live: set<int>) {
    && Sound(b) && Orderly(b) && Traced(b, used, adjusted) && OpenLive(b, live) && Anchored(b) && Addressed(b)
    && live <= used && 0 in used && 0 !in live && forall id :: id in used ==> id <= b.maxID
  }

  // ---------- users that keep to the interface ----------

  function UsedAfter(s: Step, used: set<int>): set<int> {
    if s.Opening? then used + {s.id} else used
  }

  function AdjustedAfter(s: Step, adjusted: set<int>): set<int> {
    if s.Ranking? then adjusted + {s.id} else adjusted
  }

  function LiveAfter(s: Step, live: set<int>): set<int> {
    if s.Opening? then live + {s.id} else if s.Closing? then live - {s.id} else live
  }

  /** What the interface asks of its user: every stream is opened once, closed only
      while open, and DATA is queued for open streams. */
  ghost predicate Lawful(s: Step, used: set<int>, live: set<int>) {
    match s
    case Opening(id, _) => id !in used
    case Closing(id) => id in live
    case Ranking(id, _) => id != 0
    case Queueing(wr) => wr.Sendable() && (wr.DataSize() > 0 ==> wr.StreamID() in live)
    case Writing => true
  }
}
