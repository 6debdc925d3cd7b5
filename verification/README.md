# Protocol state of an HTTP client and server library, in Dafny

This project models the stateful core of `fhttp`, a Go HTTP library with a bundled
HTTP/2 implementation, and proves what that core promises: over whole runs, for every
interleaving of its steps, and for every input of its printers and parsers.

| file | models |
|---|---|
| `Common.dfy` | options and lists without repetitions |
| `Flow.dfy` | 32-bit flow-control windows |
| `Frames.dfy` | frames waiting to be written, and how DATA is cut to the windows |
| `FrameLog.dfy` | the account of a write scheduler: frames pushed, popped and dropped |
| `Forest.dfy`, `PriorityModel.dfy`, `PriorityCounts.dfy`, `PriorityReach.dfy` | the priority tree as a parent map with byte counters |
| `PriorityOrder.dfy` | how siblings of different weights are compared |
| `PriorityNode.dfy`, `PriorityKids.dfy`, `PriorityScheduler.dfy` | the same tree as linked nodes, and the scheduler on top |
| `PriorityBooks.dfy`, `PriorityKeeps.dfy` | the scheduler's state as a value, what each call does to it, and the invariant that all calls keep |
| `PriorityLaws.dfy`, `PriorityFinds.dfy`, `PriorityLedger.dfy` | call by call and exactly: health and counters, open streams, frames within reach, every stream's account |
| `PriorityTraces.dfy`, `PriorityRuns.dfy` | the same over whole runs, on values and for the scheduler on the heap |
| `RandomScheduler.dfy` | the scheduler without priorities, with its pooled queues |
| `ServerSteps.dfy` | what each step of a server connection does, on values, and the runs they make |
| `ServerModel.dfy`, `Server.dfy` | the serve loop itself: stream table, states, request bodies, both window ledgers |
| `PoolModel.dfy`, `PoolLaws.dfy` | the HTTP/1 connection pool as a value, what each step does to it, and what holds over runs |
| `ConnPool.dfy` | the pool itself: idle lists, LRU, wait queues, per-host counts |
| `DataBuffer.dfy`, `Pipe.dfy` | chunked body buffers and the pipe between serve loop and handler |
| `FrameCodec.dfy`, `Framer.dfy`, `HeaderBlocks.dfy` | frames on the wire, and header blocks that span frames |
| `FrameLayout.dfy` | the wire format byte by byte, stated on its own, and that writers and parsers keep to it |
| `ClientPool.dfy` | the HTTP/2 client pool's two-way index |
| `HeaderOrder.dfy` | ordered headers and their pooled sorters |
| `Cookies.dfy` | the Cookie header, written and read |
| `Mux.dfy` | the request multiplexer |

Where the source changes state step by step, the model does too: linked nodes, chunk
arrays, queues, windows and connections are classes whose methods update fields, each
proved against a function or relation on values. Concurrency is modelled by atomic
steps: what runs under one lock, or in one turn of the serve loop, is one method, and
`ConnPool.Run`, `Server.Conn.Run`, `PriorityRuns.Run` and `ClientPool.Pool.Run` take any
sequence of them.

## What does not hold as intended

Some promises hold only under a condition. The code is kept as it is; for each there is
the condition, proved exact where the word is used, and a member with a failing case.

- Removing a priority node hands only its first kid to the parent. Every other node stays
  reachable exactly when the node had at most one kid (`RemoveConnected`); otherwise
  `RemoveReaches` says which nodes are stranded. A call keeps the tree healthy exactly if the
  node it evicts, where still tracked, has at most one kid and no bytes that count
  (`HealthStep`), and a run does exactly if all its calls do (`HealthyRun`).
  `StrandsAKid` is a run that strands a stream, `EvictsALeaf` one that evicts without harm.
- A PRIORITY frame moves a subtree and leaves the byte counters alone. They stay right
  exactly when a condition on the counters before the frame holds: `AdjustSettles` for a
  known stream (`AdjustedExact`), `Settled` for any call, new streams included (`ExactStep`),
  and at every call of a run (`ExactRun`). `ExclusiveMiscounts` is a tree in which they do
  not; `RanksInPlace` is a run in which they do.
- A stream that was idle before it was opened stays on the list of idle nodes, and a later
  PRIORITY frame may evict it while it is open. The open streams of a run are all tracked
  exactly if no call evicts an open one (`KeepStep`, `OpenRun`); then nothing panics, and
  none is evicted if no stream has a priority before it is opened (`ShutRun`).
  `EvictsAnOpenStream` evicts one.
- Frames should be lost by closing only, and all others should go. A frame can go only while
  its node hangs from the root, where `Pop` starts. After a call every queued frame is there
  exactly if `Finds` held before it (`FindStep`, and `FindRun` for runs): no node with frames
  is evicted, or stranded by an eviction, or moved below a stranded stream, and no frame is
  queued at a stranded node. `DiscardsAFrame` is a run in which a queued frame is evicted with
  its node; in `LosesAFrame` a frame for an open, tracked stream is queued at a stranded node,
  and `Pop` finds nothing. Otherwise every stream's frames go in the order in which they were
  queued (`LedgerRun`).
- Siblings of different weights take turns by bytes sent per weight (`FairTurn` in `Pop`), up
  to the rounding of the quotients. The comparison adds one to an 8-bit weight, so the largest
  wraps to zero: without rounding it means what it should for all counts exactly when neither
  weight is the largest (`LessExactly`, which names counts that fail otherwise).
- A request body can be read after its stream closed, although closing already gave its
  bytes back. The receive ledger is exact with these late reads counted; the window can
  overflow only if the steps read more of bodies after steps that close their streams than
  fits above the window (`Server.Conn.Run`). `LateReadIsFatal` overflows.
- Writing the reset of a panicked handler insists that the stream is still there, which
  fails exactly when it was closed in the meantime (`WroteHandlerPanic`,
  `PanicFindsNoStream`).
- An idle connection found too old is taken out of its list and closed by a goroutine that
  looks it up again. Emptying the pool in between forgets it without closing it, and no
  other step forgets an open connection (`LeakStep`, exactly, and `LeakRun`; `LeaksAConn`).
- The frame writers accept requests that the parsers do not give back: an empty HEADERS
  fragment, a first initial window above 2^31 - 1, a WINDOW_UPDATE or GOAWAY id of 32 bits.
  `RoundTrip` is an equivalence with exactly these excluded; `WriterLosses` has one of each.
- Header blocks are cut at the frame limit, so a PUSH_PROMISE, which also carries an id,
  exceeds the limit exactly for blocks longer than the limit less four (`FrameSizes`,
  `PromiseTooLong`).
- Sorting headers by a caller's order has one result exactly when no two entries are listed
  at the same position (`NoTiesExactly`, `UniqueExactly`; `TiedSwap` gives a second result).
- A cookie survives being written and read exactly when it is `Faithful`: a space in an
  unquoted value, or a bare value within quotes, comes back differently
  (`SpaceGainsQuotes`).

## Model

| member | source | states |
|---|---|---|
| `Flow.Added` | http2/flow.go:45-52 | the sign test after a wrapping addition accepts exactly the sums that fit 32 bits, and changes nothing otherwise |
| `Flow.Window.Available` | http2/flow.go:25-31 | the smaller of the stream's and the connection's window |
| `Flow.Window.Take` | http2/flow.go:33-41 | both windows fall by what was taken, and a non-negative take leaves both non-negative |
| `Flow.Window.Add` | h2_bundle.go:1274-1283 | succeeds if and only if the true sum fits 32 bits |
| `Frames.Consume` | h2_bundle.go:10511-10565 | nothing goes if and only if no window, frame limit or caller limit allows it; a cut frame and its rest together hold the same bytes, with END_STREAM and the reply channel on the last piece only; both windows fall by exactly the bytes taken |
| `Frames.ConsumeQueue` | h2_bundle.go:10600-10636 | what is emitted followed by what stays queued is the old queue, byte for byte |
| `Forest.MoveKeepsGrounded` | h2_bundle.go:10763-10796 | giving a node a parent that is not below it creates no cycle |
| `Forest.DetachKeepsGrounded` | h2_bundle.go:10763-10796 | detaching a node keeps every chain finite, with that node as one more top |
| `PriorityModel.AddKeeps` | h2_bundle.go:10920-10950 | a new leaf keeps the tree a tree, connected, with its counters right |
| `PriorityModel.BumpKeeps` | h2_bundle.go:10798-10803 | adding bytes to a node and to all its ancestors keeps every right counter right |
| `PriorityModel.ReprioritizeKeepsGrounded` | h2_bundle.go:11017-11046 | reprioritizing never leaves a cycle, although its middle steps may make one |
| `PriorityModel.ReprioritizeKeeps` | h2_bundle.go:11017-11046 | nodes tracked and connected before are connected after, and the root's counter still covers all |
| `PriorityModel.ReprioritizeOnRoot` | h2_bundle.go:11017-11046 | the set of nodes below the root does not change |
| `PriorityModel.ElsewhereStays` | h2_bundle.go:11017-11046 | a stranded node is not brought back by reprioritizing others |
| `PriorityModel.ReprioritizeMeaning` | h2_bundle.go:11017-11046 | dependency by dependency, what section 5.3.3 of RFC 7540 asks for, and nothing else: no other dependency changes, appears or goes |
| `PriorityModel.AdjustedHealthy` | h2_bundle.go:10977-11048 | an adjusted tree is well formed, and healthy if it was |
| `PriorityCounts.ReprioritizeExact` | h2_bundle.go:11017-11046 | for every branch of a reprioritization: all counters stay right if and only if a condition on the counters before holds, subtree by subtree |
| `PriorityCounts.AdjustedExact` | h2_bundle.go:10977-11048 | the same for a PRIORITY frame, including self-dependency and unknown parents; a frame that changes no parent meets the condition |
| `PriorityCounts.ExclusiveMiscounts` | h2_bundle.go:11035-11046 | a healthy tree with right counters whose counters an exclusive move makes wrong |
| `PriorityCounts.RemoveReaches` | h2_bundle.go:11114-11120 | exactly which nodes still reach the root after a removal |
| `PriorityCounts.RemoveConnected` | h2_bundle.go:11114-11120 | all others stay reachable if and only if the removed node had at most one kid |
| `PriorityCounts.RemoveWellFormed` | h2_bundle.go:11114-11120 | a removal never creates a cycle, whatever the number of kids |
| `PriorityCounts.RemoveKeeps` | h2_bundle.go:11114-11120 | with at most one kid the tree stays connected, and a counter stays right if and only if the removed node had no bytes or was not below it |
| `PriorityCounts.EvictKeeps` | h2_bundle.go:11100-11120 | evicting a node with at most one kid that has sent nothing keeps health and exact counters |
| `PriorityCounts.IdleKeeps` | h2_bundle.go:10977-11000 | a new idle node that pushes such a node out keeps health and exact counters |
| `PriorityOrder.LessMeans` | h2_bundle.go:10873-10886 | the comparison of siblings is by bytes sent per weight, and by weight among those that sent nothing, for weights below the largest |
| `PriorityOrder.LessExactly` | h2_bundle.go:10873-10886 | it is so for all counts if and only if neither weight is the largest |
| `PriorityOrder.AheadTotal` | h2_bundle.go:10873-10886 | any two siblings can be compared |
| `PriorityOrder.AheadTrans` | h2_bundle.go:10873-10886 | the comparison is transitive |
| `PriorityNode.SetParent` | h2_bundle.go:10763-10796 | parent, sibling and kid pointers agree afterwards, and only this node's parent changed |
| `PriorityNode.AddBytes` | h2_bundle.go:10798-10803 | the node and exactly its ancestors are bumped |
| `PriorityNode.DependsOn` | h2_bundle.go:11024-11030 | the upward walk finds the node if and only if it is an ancestor |
| `PriorityKids.HandOverKids` | h2_bundle.go:11114-11117 | the loop moves the first kid and no other |
| `PriorityKids.AdoptKids` | h2_bundle.go:11035-11044 | every other kid of the parent moves to the exclusive node |
| `PriorityKids.WeightsDiffer` | h2_bundle.go:10828-10836 | true if and only if two kids have different weights |
| `PriorityKids.TakeKids` | h2_bundle.go:10847-10853 | takes off all kids, each once, and nothing else |
| `PriorityKids.PutKids` | h2_bundle.go:10854-10857 | puts them back in the order of the list |
| `PriorityKids.SortKids` | h2_bundle.go:10847-10857 | the kids come back in order of bytes per weight if no weight is the largest and no count negative; no node moves to another parent and no other list is reordered |
| `PriorityKids.Reparent` | h2_bundle.go:11017-11046 | the pointer operations refine the map operation, through a temporary cycle |
| `PriorityScheduler.Scheduler.constructor` | h2_bundle.go:10710-10736 | starts with the root alone, healthy and exact, and with the throttle limit that the settings call for |
| `PriorityScheduler.Scheduler.OpenStream` | h2_bundle.go:10920-10950 | an idle node becomes open in place and keeps its weight; a new one goes below its pusher or the root with weight 15; health and exact counters are kept |
| `PriorityScheduler.Scheduler.CloseStream` | h2_bundle.go:10952-10975 | the queue is dropped, its bytes leave all counters, the node is kept or evicts the oldest closed one; health and exactness are kept if that eviction is harmless |
| `PriorityScheduler.Scheduler.AdjustStream` | h2_bundle.go:10977-11048 | the new tree is the reprioritized one, with an idle node created when the id is new; the stream takes the weight of the frame, or the default when its parent is unknown, and keeps its weight when it depends on itself; no other weight changes; after a harmless eviction health is kept, and exact counters are kept if and only if the exact condition on the tree before holds |
| `PriorityScheduler.Scheduler.Push` | h2_bundle.go:11050-11069 | the frame joins its stream's queue, or the root's if the stream is unknown |
| `PriorityScheduler.TurnBelow` | h2_bundle.go:10811-10865 | choices among siblings compose down the tree: a chosen node overtakes a sibling that sent less for its weight only if nothing below that sibling could be sent |
| `PriorityScheduler.Scheduler.Walk` | h2_bundle.go:10811-10865 | finds a stream that can send with none above it that can and in its turn among siblings, or nothing exactly when no stream below can send; the tree is unchanged, and the throttle limit moves as it should |
| `PriorityScheduler.Scheduler.Pop` | h2_bundle.go:11071-11098 | the frame comes from such a stream, is throttled below open streams, the next throttle limit is exact, and health and exact counters are kept |
| `PriorityScheduler.Scheduler.RemoveNode` | h2_bundle.go:11114-11120 | refines the removal whose result is characterised above |
| `PriorityScheduler.Scheduler.Retire` | h2_bundle.go:11100-11112 | evicts the oldest entry when the list is full, and appends |
| `PriorityScheduler.EvictsAnOpenStream` | h2_bundle.go:10920-10950 | a run in which an open stream is evicted |
| `PriorityReach.RemoveExactly` | h2_bundle.go:11114-11120 | a removal keeps a healthy tree healthy if and only if the node is not tracked, or has at most one kid and no bytes; then exact counters stay exact |
| `PriorityReach.ReprioritizeReaches` | h2_bundle.go:11017-11046 | exactly which nodes reach the root after any reprioritization, stranded nodes and targets included |
| `PriorityKeeps.StepInv` | h2_bundle.go:10920-11098 | every lawful call keeps the invariant: nodes that are not open have sent nothing and hold no DATA, listed nodes are tracked or gone, the tracked streams that are open are those the user has open, every queue holds its own stream's frames |
| `PriorityKeeps.SentNoData` | h2_bundle.go:10511-10565 | a queue without DATA stays without DATA, so closed and idle nodes count no bytes |
| `PriorityLaws.HealthStep` | h2_bundle.go:10920-11120 | a healthy tree stays healthy if and only if the call's eviction is harmless, a condition on the state before |
| `PriorityLaws.MildHarmless` | h2_bundle.go:11100-11120 | evicting a node that is not open and has at most one kid is harmless |
| `PriorityLaws.ExactStep` | h2_bundle.go:10920-11120 | then exact counters stay exact if and only if the call settles, a condition on the counters before, also for a stream that the frame introduces |
| `PriorityLaws.UnmovedSettles` | h2_bundle.go:10977-11048 | a PRIORITY frame that changes no parent settles |
| `PriorityFinds.KeepStep` | h2_bundle.go:10920-11120 | all open streams stay tracked if and only if the call evicts no open one |
| `PriorityFinds.GoneStays` | h2_bundle.go:10977-11000 | a stream that is gone stays gone unless it is opened |
| `PriorityFinds.ShutStep` | h2_bundle.go:10920-11000 | while no open node is listed as idle, no call evicts an open one, and opening a stream that had no priority lists none |
| `PriorityFinds.FindStep` | h2_bundle.go:10920-11120 | all queued frames stay under the root if and only if the call leaves no waiting frame off it, a condition on the state before |
| `PriorityFinds.NothingMissed` | h2_bundle.go:11071-11098 | then a call that writes nothing misses no frame that needs no window; what is off the root is never written |
| `PriorityLedger.LedgerStep` | h2_bundle.go:10431-10434 | every call keeps each stream's account, over its node's queue and what waits at the root: content written, then content queued, is the content pushed, in order; only closing or evicting its node drops any |
| `PriorityTraces.TraceInv` | h2_bundle.go:10920-11098 | the invariant holds at every point of every run |
| `PriorityTraces.HealthyRun` | h2_bundle.go:10920-11120 | a run keeps the tree healthy at all times if and only if all its evictions are harmless |
| `PriorityTraces.ExactRun` | h2_bundle.go:10920-11120 | and then all counters right at all times if and only if all its calls settle |
| `PriorityTraces.MildRun` | h2_bundle.go:10920-11120 | runs that evict only nodes that are not open with at most one kid are harmless |
| `PriorityTraces.UnmovedRun` | h2_bundle.go:10977-11048 | runs whose PRIORITY frames change no parent settle |
| `PriorityTraces.OpenRun` | h2_bundle.go:10920-11120 | at the end of a run all open streams are tracked if and only if none was evicted |
| `PriorityTraces.ShutRun` | h2_bundle.go:10920-11000 | none is if no stream has a priority before it is opened |
| `PriorityTraces.FindRun` | h2_bundle.go:10920-11120 | all queued frames are under the root at all times if and only if every call leaves none off it |
| `PriorityTraces.LedgerRun` | h2_bundle.go:10431-10434 | every stream's account balances at the end of every run |
| `PriorityTraces.LogFrames` | h2_bundle.go:11071-11098 | the account's log names exactly the frames that were written, in order |
| `PriorityTraces.RoomRun` | h2_bundle.go:11100-11112 | runs no longer than the limits evict nothing |
| `PriorityTraces.PanicLost` | h2_bundle.go:10952-10975 | a lawful call panics only for an open stream that is no longer tracked |
| `PriorityTraces.AllLaws` | h2_bundle.go:10920-11120 | all of these at once, for every run |
| `PriorityRuns.BooksSound` | h2_bundle.go:10710-10736 | the heap's pointers and tables always give sound books |
| `PriorityRuns.Take` | h2_bundle.go:10920-11098 | one call on the heap is one step of the books, weights and turns among siblings included, stops if and only if the source panics, and brings the frame that was written |
| `PriorityRuns.Run` | h2_bundle.go:10920-11098 | any lawful run on the heap is a run of the books from the root alone to the scheduler's final state, which it returns with the frames written, and all the laws above hold of it; it ends early only at a panic |
| `PriorityRuns.OpenCloseMild` | h2_bundle.go:11100-11120 | two streams opened and closed with one closed node kept: the second close evicts the first node, a leaf |
| `PriorityRuns.EvictsALeaf` | h2_bundle.go:11100-11120 | after that run the tree is healthy and all counters are right |
| `PriorityRuns.RanksInPlace` | h2_bundle.go:10977-11048 | so it is after a PRIORITY frame that puts a stream where it is |
| `PriorityRuns.StrandsAKid` | h2_bundle.go:11114-11120 | a run after which an open, tracked stream no longer hangs from the root |
| `PriorityRuns.LosesAFrame` | h2_bundle.go:11071-11098 | a frame queued for that stream is not found: nothing is written although it waits |
| `PriorityRuns.DiscardsAFrame` | h2_bundle.go:11100-11120 | a run that discards a queued frame by closing another stream |
| `FrameLog.ConservedPush` | h2_bundle.go:11161-11174 | pushing extends what was pushed and what is queued alike |
| `FrameLog.ConservedPop` | h2_bundle.go:11176-11194 | popped followed by queued content stays the pushed content of the stream |
| `FrameLog.ConservedDrop` | h2_bundle.go:11148-11155 | dropping a queue restarts one stream's account and no other's |
| `RandomScheduler.Scheduler.Push` | h2_bundle.go:11161-11174 | appends to its stream's queue only |
| `RandomScheduler.Scheduler.CloseStream` | h2_bundle.go:11148-11155 | empties that queue only, and recycles it |
| `RandomScheduler.Scheduler.Pop` | h2_bundle.go:11176-11194 | fails exactly when no control frame is queued and no stream can send; control frames come first; windows are debited by what was emitted |
| `RandomScheduler.Scheduler.GetQueue` | h2_bundle.go:10652-10663 | a queue from the pool is empty and belongs to no stream |
| `RandomScheduler.Scheduler.PutQueue` | h2_bundle.go:10643-10649 | a queue given back is cleared and touches no live queue |
| `ServerModel.StateLegend` | h2_bundle.go:4582-4605 | an id is live if and only if it is in the table, idle if and only if it is beyond the highest of its side, closed otherwise |
| `ServerModel.CountsSmall` | h2_bundle.go:4467-4468 | the counters never come near wrapping around |
| `ServerModel.BalancedSet` | h2_bundle.go:5504-5537 | the receive ledger moves with one stream's body, window and unreported reads |
| `ServerModel.BalancedRoom` | h2_bundle.go:6271-6296 | no body and no unreported read is larger than the room left in the window, late reads apart |
| `ServerModel.Overflows` | h2_bundle.go:5603-5630 | a window that cannot take a new initial size would pass 2^31 - 1, never underflow |
| `ServerModel.MovedAll` | h2_bundle.go:5603-5630 | moving every window by the difference restores the send ledger for the new initial size |
| `ServerSteps.ErrorCodes` | h2_bundle.go:5632-5680 | the errors go out with the codes of section 7 of RFC 7540, by number |
| `Server.Conn.constructor` | h2_bundle.go:4340-4380 | starts with every id idle and both ledgers balanced |
| `Server.Conn.Standing` | h2_bundle.go:4467-4489 | counters equal the odd and even ids in the table, client streams keep the limit, open streams without a queued reset have a body, each send window is initial + granted - sent and at least -(2^31 - 1), the connection's send window is never negative, and the receive ledger balances |
| `Server.Conn.UpdateConn` | h2_bundle.go:6255-6296 | giving back in pieces fails if and only if the whole does not fit |
| `Server.Conn.UpdateStream` | h2_bundle.go:6255-6296 | the same for a stream's window |
| `Server.Conn.NewStream` | h2_bundle.go:5951-5986 | the new stream has the current initial windows, and every invariant but its body holds |
| `Server.Conn.ResetStream` | h2_bundle.go:5326-5332 | a queued reset restores the invariant about bodies |
| `Server.Conn.CloseStream` | h2_bundle.go:5504-5537 | the stream leaves the table, its body's bytes go back, and overflow needs late reads |
| `Server.Conn.EndStream` | h2_bundle.go:5747-5759 | the body is closed and the stream half-closed (remote) |
| `Server.Conn.GoAway` | h2_bundle.go:5310-5319 | only the first error code counts |
| `Server.Conn.ProcessGoAway` | h2_bundle.go:5725-5738 | shutdown begins without an error unless it had begun, and pushing ends |
| `Server.Conn.React` | h2_bundle.go:5369-5388 | after a stream error that stream has a reset queued, after a connection error shutdown has begun, and every invariant holds again |
| `Server.Conn.ProcessTrailers` | h2_bundle.go:5896-5925 | which error trailers are, exactly, and the whole new table |
| `Server.Conn.OpenRequest` | h2_bundle.go:5819-5875 | the stream is refused exactly at the limit; an accepted, well-formed open request has an empty body |
| `Server.Conn.ProcessHeaders` | h2_bundle.go:5778-5894 | the error for every kind of id, a fresh one opened exactly below the limit, no other stream touched, states only moving forward |
| `Server.Conn.DiscardData` | h2_bundle.go:5651-5680 | DATA with nowhere to go leaves the window as it was, unless it exceeds it |
| `Server.Conn.AcceptData` | h2_bundle.go:5694-5717 | a flow-control error if and only if the frame exceeds the smaller window; otherwise exactly the data, not the padding, stays charged |
| `Server.Conn.ProcessData` | h2_bundle.go:5632-5723 | the error cases exactly, and the whole new table on success; the missing-body panic is unreachable |
| `Server.Conn.ProcessReset` | h2_bundle.go:5484-5502 | an idle stream is a connection error; any other is closed afterwards |
| `Server.Conn.WroteEndStream` | h2_bundle.go:5178-5204 | an open stream becomes half-closed (local) with a reset queued; a half-closed (remote) one closes |
| `Server.Conn.WroteReset` | h2_bundle.go:5207-5210 | the stream is gone |
| `Server.Conn.WroteHandlerPanic` | h2_bundle.go:5211-5212 | fails if and only if the stream had already been closed |
| `Server.Conn.CloseAll` | h2_bundle.go:4760-4765 | the table empties, both counters reach zero, and the window is whole but for unreported reads |
| `Server.Conn.Promise` | h2_bundle.go:6853-6920 | succeeds if and only if its parent is open or half-closed (remote), push is on, the client's limit allows it and an id is left; the id was idle |
| `Server.Conn.GrantStream` | h2_bundle.go:5451-5472 | refused if and only if the window would pass 2^31 - 1, and recorded otherwise |
| `Server.Conn.GrantConn` | h2_bundle.go:5473-5482 | the same for the connection |
| `Server.Conn.Send` | h2_bundle.go:10511-10565 | both windows fall by what is sent, and the ledger follows |
| `Server.Conn.SetInitialWindow` | h2_bundle.go:5603-5630 | refused if and only if some stream would be allowed more than 2^31 - 1 bytes |
| `Server.Conn.HandlerRead` | h2_bundle.go:6319-6337 | a read yields what the body has, is owed to the loop, and counts as late exactly when the stream is gone |
| `Server.Conn.HandlerClose` | h2_bundle.go:6310-6317 | what was buffered stays charged; the body of a stream that is gone can be closed too |
| `Server.Conn.NoteBodyRead` | h2_bundle.go:6244-6296 | fatal if and only if the connection's window would pass 2^31 - 1 |
| `Server.LateWitness` | h2_bundle.go:6319-6337 | bytes can be late only if some step reads a body after a step that may close its stream |
| `Server.Conn.Take` | h2_bundle.go:5337-5426 | the whole new state is the one that the step calls for, frame by frame and error by error; it is fatal if and only if what it gives back does not fit the window or a panicked handler finds no stream; each step keeps every invariant and moves states forward only; late bytes come from reads of retired bodies, and bodies retire by closing steps |
| `Server.Conn.Run` | h2_bundle.go:4582-4605 | any run goes through exactly the states that its steps call for, one linked to the next, and ends early only at a fatal step; an id once closed stays closed, all invariants hold, and overflow means that the steps read bodies after steps that close their streams, by more than the room above the window |
| `Server.Conn.ReadAfterClose` | h2_bundle.go:5504-5537 | closing, reading and reporting gives the same bytes back twice |
| `Server.LateReadIsFatal` | h2_bundle.go:6244-6296 | with the largest window, one late byte is fatal |
| `Server.PanicFindsNoStream` | h2_bundle.go:5211-5212 | a stream reset while its handler panics is missed |
| `ConnPool.WantQueue.PushBack` | transport.go:1269-1271 | appends to the FIFO that the two slices stand for |
| `ConnPool.WantQueue.PopFront` | transport.go:1274-1286 | takes its first element, or nothing exactly when it is empty |
| `ConnPool.WantQueue.PeekFront` | transport.go:1289-1297 | shows its first element |
| `ConnPool.WantQueue.Len` | transport.go:1264-1266 | its length |
| `ConnPool.CleanFront` | transport.go:1301-1310 | drops exactly the leading requests that no longer wait |
| `ConnPool.PopWaiting` | transport.go:1479-1489 | the first request that still waits, and everything behind it |
| `ConnPool.Transport.DecConnsPerHost` | transport.go:1461-1507 | the place goes to the first waiting dial, or the count falls by one; it was never zero |
| `ConnPool.Transport.Close` | transport.go:2703-2721 | closing gives the place on, and every count is right again |
| `ConnPool.Transport.TryDeliver` | transport.go:1212-1227 | delivers if and only if the request still waits |
| `ConnPool.Transport.End` | transport.go:1231-1244 | a cancelled or finished request holds nothing; its connection is held by its user again |
| `ConnPool.Transport.RemoveIdleLocked` | transport.go:1098-1128 | gone from its list and the LRU, and from nowhere else |
| `ConnPool.Transport.EvictOldest` | transport.go:981-985 | the last LRU entry is removed and closed |
| `ConnPool.Transport.PutIdle` | transport.go:908-999 | the first waiting request gets it and leaves the queue with those in front of it, no other queue changes, or it becomes idle at the end of its list within the limits, evicting the oldest; refused exactly when the limits or settings say so |
| `ConnPool.Transport.DeliverToWaiter` | transport.go:935-962 | the first request in the queue of its host that still waits gets it; exactly that one and those in front leave the queue |
| `ConnPool.Transport.RemoveIdle` | transport.go:1091-1095 | true if and only if it was idle |
| `ConnPool.Transport.CloseIfStillIdle` | transport.go:1979-1989 | closes an idle connection and touches no other |
| `ConnPool.Transport.QueueForIdle` | transport.go:1004-1088 | delivers if and only if some connection of the host is neither broken nor too old, and the whole new pool is that of `LookMeans` |
| `ConnPool.Transport.QueueForDial` | transport.go:1412-1438 | dials at once below the limit, else waits in turn |
| `ConnPool.Transport.Connect` | transport.go:1443-1447 | the new connection takes over the dial's place in its count, and the dialer holds it |
| `ConnPool.Transport.Offer` | transport.go:1448-1453 | it goes to its request if and only if that still waits, and stays with the dialer otherwise |
| `ConnPool.Transport.DialFails` | transport.go:1443-1457 | a waiting request is told; the dial is still counted |
| `ConnPool.Transport.GiveUpDial` | transport.go:1443-1457 | its place is passed on |
| `ConnPool.Transport.CloseIdleConnections` | transport.go:762-778 | nothing is idle afterwards, and later returns are refused |
| `ConnPool.Transport.Ownership` | transport.go:908-999 | no connection is in two idle slots, idle and delivered at once, or delivered to two requests |
| `PoolLaws.LookMeans` | transport.go:1004-1088 | a request that looks gets the connection used last that is neither broken nor too old; those passed over are given up, older ones stay; otherwise it joins the queue of its host behind those who still wait |
| `PoolLaws.ClearLeaks` | transport.go:762-778 | emptying the pool forgets an unclosed connection if and only if one only waits to be closed |
| `PoolLaws.KeptStep` | transport.go:908-1507 | every other step gives up only connections that are closed |
| `PoolLaws.LeakStep` | transport.go:908-1507 | a step forgets an unclosed connection if and only if it empties the pool while one that was too old waits to be closed |
| `PoolLaws.LeakRun` | transport.go:890-1507 | a run forgets none unless some connection was too old and the pool is emptied |
| `PoolLaws.QueuedStep` | transport.go:1004-1088 | a step takes nobody who still waits for an idle connection out of the queue |
| `PoolLaws.QueuedRun` | transport.go:1004-1088 | in every run, whoever looked for an idle connection and still waits is in the queue of its host |
| `PoolLaws.AskingStep` | transport.go:1412-1507 | a step takes nobody who still waits to dial out of the queue without starting the dial |
| `PoolLaws.AskingRun` | transport.go:1412-1507 | in every run, whoever asked to dial and still waits is dialing, has dialed or is in the queue of its host; whose dial failed waits no more |
| `ConnPool.Take` | transport.go:908-1507 | every step leaves exactly the pool that the step calls for, and keeps lists, deliveries, wait queues and counts right; someone waits to dial only when the count is at the limit |
| `ConnPool.Run` | transport.go:890-1507 | every interleaving from an empty pool ends in exactly the pool that its steps call for; ownership is exclusive and the counts are exact; the laws on leaks and on both wait queues hold of it |
| `ConnPool.LeaksAConn` | transport.go:1036-1054 | a run that leaks a connection |
| `DataBuffer.QueueDrop` | h2_bundle.go:1048-1056 | dropping a chunk read to its end drops exactly its bytes |
| `DataBuffer.QueueGrow` | h2_bundle.go:1096-1108 | a new chunk behind a full one changes nothing in the queue |
| `DataBuffer.Pool.Get` | h2_bundle.go:996-1005 | the smallest size class that suffices, else the largest |
| `DataBuffer.Pool.Put` | h2_bundle.go:1007-1016 | chunks come back in pooled sizes only, so the size panic is unreachable |
| `DataBuffer.Buffer.Len` | h2_bundle.go:1070-1072 | the length of the byte queue |
| `DataBuffer.Buffer.Advance` | h2_bundle.go:1042-1056 | drops bytes from the front of the queue |
| `DataBuffer.Buffer.Read` | h2_bundle.go:1035-1059 | the front of the queue, as far as the slice goes, is copied and removed |
| `DataBuffer.Buffer.LastChunkOrAlloc` | h2_bundle.go:1096-1108 | room at the end, with the queue unchanged |
| `DataBuffer.Buffer.Write` | h2_bundle.go:1075-1094 | all of the slice is appended |
| `DataBuffer.WriteBeside` | h2_bundle.go:980-1016 | two buffers on one pool share no chunk, and writing to one leaves the other's contents |
| `DataBuffer.ReadBeside` | h2_bundle.go:980-1016 | so does reading, although it frees chunks |
| `Pipe.Pipe.Len` | h2_bundle.go:3705-3713 | accepted bytes less delivered bytes, broken or not |
| `Pipe.Pipe.Read` | h2_bundle.go:3717-3741 | the next bytes in order; the closing error only after the last of them, which drops the buffer and runs the pending code once; a break at once |
| `Pipe.Pipe.Write` | h2_bundle.go:3747-3764 | refused once closed, discarded but counted once broken, else appended |
| `Pipe.Pipe.CloseWithError` | h2_bundle.go:3782-3805 | the first closing error and its code stay |
| `Pipe.Pipe.BreakWithError` | h2_bundle.go:3782-3805 | the length does not change, and pending code is dropped |
| `FrameCodec.HeaderBack` | h2_bundle.go:1509-1522 | a header reads back with its id cut to 31 bits, and the payload behind it is untouched |
| `FrameCodec.DataBack` | h2_bundle.go:1883-1913 | DATA loses its padding and nothing else |
| `FrameCodec.HeadersBack` | h2_bundle.go:2307-2343 | HEADERS reads back with any padding and priority, unless its fragment is empty |
| `FrameCodec.PushBack` | h2_bundle.go:2590-2625 | PUSH_PROMISE reads back with any padding |
| `FrameCodec.SettingsAt` | h2_bundle.go:2044-2051 | each setting is found at its index |
| `FrameCodec.SettingsValue` | h2_bundle.go:2031-2040 | the lookup of any id finds the first value written for it |
| `FrameCodec.SettingsBack` | h2_bundle.go:1992-2025 | SETTINGS is rejected exactly when the first initial window is too large |
| `FrameCodec.PayloadBack` | h2_bundle.go:2137-2272 | every payload type reads back, with the exact exceptions |
| `FrameCodec.RoundTrip` | h2_bundle.go:1775-1810 | a written frame with anything behind it reads back as requested if and only if the request survives, and the rest is left; what is in between is `WrittenExactly` |
| `FrameCodec.WriterLosses` | h2_bundle.go:2150-2566 | one accepted request of each kind that does not read back |
| `FrameCodec.TooLargeRefused` | h2_bundle.go:1785-1787 | a frame beyond the limit is refused whatever it holds |
| `FrameCodec.StreamRoundTrip` | h2_bundle.go:1775-1810 | any sequence of frames reads back in order |
| `FrameLayout.WrittenExactly` | h2_bundle.go:1630-2566 | the bytes of every request are exactly those of the layout in section 6 of RFC 7540: type codes, flags, lengths, high byte first, every field in its place |
| `FrameLayout.ResetBytes` | h2_bundle.go:2511-2518 | a reset of stream 1 with code 8, in thirteen bytes |
| `FrameLayout.ReadExactly` | h2_bundle.go:1883-2625 | for every header and payload: what is refused and with which error, and what an accepted payload says, field by field |
| `FrameLayout.HeaderRead` | h2_bundle.go:1509-1522 | length, type, flags and id of a header, without the reserved bit |
| `FrameLayout.StreamRead` | h2_bundle.go:1775-1810 | for every byte stream: whether a frame is in front, what becomes of it, and what is left |
| `Framer.Framer.EndWrite` | h2_bundle.go:1630-1651 | the length is filled in, and an oversized frame sends nothing |
| `Framer.Framer.CheckPad` | h2_bundle.go:1956-1963 | padding is all zeros |
| `Framer.Framer.WriteDataPadded` | h2_bundle.go:1948-1980 | sends exactly the encoding, or nothing if and only if the request is illegal |
| `Framer.Framer.WriteHeaders` | h2_bundle.go:2380-2416 | the same for HEADERS |
| `Framer.Framer.WritePushPromise` | h2_bundle.go:2657-2680 | the same for PUSH_PROMISE |
| `Framer.Framer.WriteSettings` | h2_bundle.go:2106-2114 | the same for SETTINGS |
| `Framer.Framer.WriteFixed` | h2_bundle.go:2150-2566 | the same for the frames of fixed layout |
| `HeaderBlocks.AcceptedExactly` | h2_bundle.go:1825-1859 | the order check lets through exactly the runs in which every CONTINUATION directly continues a block of its stream and no block is interrupted |
| `HeaderBlocks.SplitWhole` | h2_bundle.go:10193-10216 | non-empty fragments within the limit, the first opens, only the last ends, together they are the block |
| `HeaderBlocks.SplitHeaderBlock` | h2_bundle.go:10193-10290 | the loop writes exactly these frames, or nothing for an illegal stream |
| `HeaderBlocks.SplitWritable` | h2_bundle.go:8330-8358 | every frame of a split is accepted by the writers and given back by the parsers |
| `HeaderBlocks.FrameSizes` | h2_bundle.go:10329-10340 | frames keep the limit except a promise whose block is longer than the limit less four |
| `HeaderBlocks.PromiseTooLong` | h2_bundle.go:10329-10340 | a promise with a block of 16384 bytes is one frame of 16388 |
| `HeaderBlocks.ParsedKind` | h2_bundle.go:1408-1414 | header and payload of a parsed frame agree, and carriers of header blocks are on a stream |
| `HeaderBlocks.Reader.ReadFrame` | h2_bundle.go:1775-1810 | one frame that passes the parsers and the order check; one that fails either is consumed all the same, and what is left behind is exact in every case |
| `HeaderBlocks.Reader.ReadMetaFrame` | h2_bundle.go:2960-2976 | collects the block; the assertion that the next frame is a CONTINUATION cannot fail |
| `HeaderBlocks.GatherSplit` | h2_bundle.go:2960-2976 | the frames of a split bring back the rest of the block |
| `HeaderBlocks.BlockRoundTrip` | h2_bundle.go:10193-10216 | writing a block and reading it on an idle connection gives back the block and leaves the connection idle |
| `ClientPool.FilterOut` | h2_bundle.go:944-958 | the in-place filter leaves the list without the connection in front, and clears the freed slot |
| `ClientPool.FilterList` | h2_bundle.go:944-958 | run on the array behind a list, it yields the list without the connection |
| `ClientPool.Pool.AddConn` | h2_bundle.go:894-908 | added once, and the maps stay inverse |
| `ClientPool.Pool.MarkDead` | h2_bundle.go:910-926 | gone from every list, with all other lists and keys as they were |
| `ClientPool.ServedMeans` | h2_bundle.go:894-926 | the operations, applied one by one, leave a connection in a list if and only if its last addition there came after its last death |
| `ClientPool.Pool.Run` | h2_bundle.go:894-926 | after any sequence the maps are inverse without repetitions, and a key serves exactly the connections that were added under it, or served it before, and have not died since |
| `HeaderOrder.Sorter.Swap` | header.go:190-198 | the caches agree with a direct lookup through every swap |
| `HeaderOrder.Sorter.Less` | header.go:199-214 | the cached comparison is the comparison by the caller's order |
| `HeaderOrder.LexMeans` | header.go:199-214 | strings are compared at the first byte in which they differ, and a prefix comes first |
| `HeaderOrder.LowerMeans` | header.go:267-267 | lower-casing maps each letter to its small form and leaves every other byte |
| `HeaderOrder.NotAfterTrans` | header.go:199-214 | the comparison is transitive |
| `HeaderOrder.NotAfterTotal` | header.go:199-214 | and total |
| `HeaderOrder.SortedLayout` | header.go:199-214 | listed keys come first by position, the rest in byte order as `LexMeans` has it |
| `HeaderOrder.SortedInByteOrder` | header.go:223-241 | without a caller's order, a sorted list is in byte order throughout |
| `HeaderOrder.Sorter.Collect` | header.go:228-233 | exactly the entries not excluded, each once, in any order of the map |
| `HeaderOrder.Sorter.SortedKeyValues` | header.go:223-241 | a sorter with any past gives each entry once, every key before all that are greater in byte order |
| `HeaderOrder.Sorter.Resize` | header.go:260-265 | both caches get the length of the list, although only one capacity is tested |
| `HeaderOrder.Sorter.SortedKeyValuesBy` | header.go:243-273 | a sorted permutation of the entries under the caller's order |
| `HeaderOrder.SortedUnique` | header.go:223-273 | without ties the result depends on nothing but header, order and exclusions |
| `HeaderOrder.NoTiesExactly` | header.go:199-214 | entries tie if and only if two of them are listed at one position |
| `HeaderOrder.TiedSwap` | header.go:223-273 | entries that tie can change places in a sorted list |
| `HeaderOrder.UniqueExactly` | header.go:223-273 | the sorted list is the only one if and only if no two entries tie |
| `HeaderOrder.NoTiesInByteOrder` | header.go:223-241 | byte order has no ties |
| `Cookies.SanitizeOrWarn` | cookie.go:401-422 | drops exactly the invalid bytes |
| `Cookies.TokenBytes` | cookie.go:438-443 | the bytes of a token, by code |
| `Cookies.ValueBytes` | cookie.go:383-385 | the bytes that a value may hold, by code |
| `Cookies.TrimMeans` | cookie.go:248-257 | trimming takes off spaces, tabs and line ends on both sides, and nothing else |
| `Cookies.SanitizeNameAt` | cookie.go:353-357 | line ends in a name become dashes, and nothing else changes |
| `Cookies.Request.AddCookie` | request.go:435-442 | one line, extended |
| `Cookies.ReadCookies` | cookie.go:240-279 | the loops compute the cookies of all lines in order |
| `Cookies.ParseSanitized` | cookie.go:372-436 | a sanitized value always parses |
| `Cookies.PrintClean` | request.go:435-442 | a printed cookie has no semicolon and no outer space |
| `Cookies.ParseWhole` | cookie.go:250-277 | the line of many cookies falls apart into exactly their parts |
| `Cookies.RereadSame` | cookie.go:372-436 | a cookie reads back the same if and only if it is faithful |
| `Cookies.LinesNames` | cookie.go:240-279 | no cookie without a token name is ever returned |
| `Cookies.LinesFiltered` | cookie.go:240-279 | reading with a name gives exactly the cookies of that name among all, in order |
| `Cookies.LinesMore` | cookie.go:240-279 | several lines are read one after the other |
| `Cookies.CookieRoundTrip` | cookie.go:240-279 | any list reads back as added if and only if every cookie in it is faithful |
| `Cookies.SpaceGainsQuotes` | cookie.go:372-436 | a cookie with a space comes back quoted |
| `Mux.Search` | server.go:2492-2496 | the binary search finds the first shorter entry |
| `Mux.AppendSorted` | server.go:2490-2504 | the list stays complete and in descending length |
| `Mux.ServeMux.Handle` | server.go:2463-2488 | registers unless the pattern is empty or known |
| `Mux.ServeMux.Lookup` | server.go:2320-2335 | the exact pattern, else the longest subtree pattern that is a prefix, else nothing |
| `Mux.BestUnique` | server.go:2318-2319 | there is one best match, whatever the order of registration |

## Left out

- HPACK: header blocks are opaque bytes, and decoding errors are not modelled.
- TLS, dialing, proxies, DNS and real network reads and writes.
- Timers, contexts, logging and tracing; a timer that fires is a step that may happen at any time, and idle ages are a parameter of `ConnPool.Transport.QueueForIdle`.
- HTTP/2 connections inside the HTTP/1 pool, which are shared by design.
- The client side of HTTP/2 flow control, and its reaction to SETTINGS.
- Response writers, redirects, file serving, MIME sniffing, compression and status tables.
- Set-Cookie attributes, whose parsing depends on library time and address parsing.
- 64-bit overflow of the priority tree's byte counters, which are unbounded here.
- SortKids: quotients are real numbers here, without floating-point rounding; siblings of equal weight keep their list order, about which nothing is promised.
- LessMeans: the same, its quotients are exact.
- LessExactly: the same; the source compares 64-bit floating-point quotients, which may round two different ones to one.
- Push: a DATA frame for an unknown stream is a programming error in the source and is excluded by a precondition; the priority scheduler's recycling of queues is not modelled, its queues are values.
- PriorityRuns.Run: the priority scheduler's runs keep to the interface, with every stream opened once, closed while open and sent DATA only while open.
- Promise: that only a client's stream has promises is checked by the handler's side, and building the promised request is not modelled; the check of the parent and the choice of the id are one step, since the promise goes out before its parent's end and is dropped with its parent.
- Offer: a connection that someone holds may be offered to any request for its key, more than dialers do.
- ReadMetaFrame: where reading stops inside a block that fails is stated frame by frame, by ReadFrame.
- OpenStream: the highest id is raised before the node is linked rather than after, which no other step can observe.
- Sort: the library's sort is represented by one that uses the same comparisons and swaps; only sortedness and permutation are promised, not the order of ties.
- SortedKeyValuesBy: keys are lower-cased byte by byte, which is what the library does for ASCII keys.
- MarkDead: lists are values, each filtered in place on an array of its own; that two slices may share one array is not captured.
- NewStream: a stream's fields are a record in the connection's table, not a separately allocated object; handlers refer to it by id, and a closed stream lives on as the body its handler may still hold.
- ProcessFrame: the frames that the loop queues for writing, and their order, are the schedulers' part and not recorded here; PING and PRIORITY frames change none of the modelled state and have no step; each setting that the modelled state depends on is a step of its own, and the checks on a SETTINGS frame as a whole, and that it comes first, are not modelled.
- WriteDataPadded: the framer's mode that allows illegal writes is not modelled.
- WriteFixed: raw frames of arbitrary type have no writer in the model; the parsers do keep unknown types.
- Read: a pipe's reader that would wait gets the answer Blocked.
- SplitHeaderBlock: a server's empty trailer block writes no frame at all, as in the source; the client's loop is the same with its own limit, and its sticky write error is not modelled.
