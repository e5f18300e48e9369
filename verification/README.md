# Trinity in Dafny

This project models the state machines and data structures at the heart of the Trinity Ethereum
client and proves that they do what the client relies on. Code that updates objects in place is a
Dafny class with the same fields and steps, proved against a specification of another kind (a plain
walk up a tree, a plain map, a byte stream, a set of nearest nodes). Where the source only computes
an expression, so does the model. Asynchronous code is modelled as the atomic steps between its suspension points, so a
sequence of method calls is an arbitrary interleaving.

| file | what it models |
|---|---|
| `TreeRoot.dfy` | `Tree`, `TreeRoot` and `RootTracker`: which root, how deep, in a forest built in any order and pruned at its roots |
| `TaskFacts.dfy`, `OrderedTasks.dfy` | `OrderedTaskPreparation`: releasing tasks in dependency order, with the readiness cascade and pruning |
| `TaskRuns.dfy`, `TaskCorners.dfy` | whole runs of it, and two runs that show the limits of its rules |
| `TaskQueue.dfy`, `RepeatedOffers.dfy` | `TaskQueue`: the bounded priority queue with checked-out batches and its full-lock; two runs in which a task is offered twice |
| `ByteStreams.dfy`, `DbProtocol.dfy` | the buffered socket and the database protocol over it |
| `Rlpx.dfy` | secrets, framing, encryption and MACs of the peer transport |
| `Capabilities.dfy`, `PeerProtocol.dfy` | capability selection, command id ranges, dispatch of received commands; a command end to end |
| `ResourceLock.dfy`, `PeerPool.dfy`, `PeerAddresses.dfy` | the per-node handshake lock, peer admission, and how many sessions one address gets |
| `Kademlia.dfy`, `Lookup.dfy` | the routing table and the iterative lookup |
| `Rlp.dfy`, `Neighbours.dfy` | the encoding of datagrams, and splitting neighbours into datagrams that fit |
| `Crc.dfy`, `ForkId.dfy` | the CRC-32 checksum, and fork identifiers, EIP-2124 |
| `TokenBucket.dfy` | the token bucket rate limiter |
| `Collections.dfy`, `Bits.dfy` | shared helpers: sequences as sets, stable sorting, exclusive or on naturals |

## What turned out differently than expected

- Two rules for callers of `OrderedTaskPreparation` suggest themselves: never register a parent of a
  ready present task, and never declare a task finished while its own dependency is present and
  unready. They do not keep unready tasks from being pruned. `RegisteredAgainTooSoon` is a run with
  one consumer at a time that obeys both and loses an unready task: a task is pruned while it still
  waits in the queue, then handed out, then registered again. A third rule, not to register a task
  that is in the queue or in the batch handed out last, makes the claim true for every run
  (`TaskRuns.Run`). Exactly what n prunings from a task remove, and exactly when they spare all
  unready tasks, is `PruningSparesUnready`; `BatchSparesIff` is the same for a whole call of
  `ready_tasks()`, which prunes twice for each task of the last batch.
- `set_finished_dependency` keeps "ready means: declared, or complete with a ready dependency" a
  fixed point exactly if no complete unready task is waiting for the declared one
  (`DeclareKeepsSettled`). `DeclaredTooLate` is a run that misses this: a task is finished before its
  dependency is declared. It then waits for good: `finish_prereq` refuses it (`FinishIsRefused`),
  and no run without pruning releases it (`RunWithoutPruning`).
- The comment in `TaskQueue.complete` reports that `put_nowait` occasionally finds the queue full, for
  an undiagnosed reason. `add()` compares its tasks with the pending ones only once, at its start. A
  task that it names twice, or that another `add()` which waits for room still holds, is counted once
  but queued twice; an insertion keeps the queued copies and the pending tasks in step if and only if
  it repeats no task (`InsertKeepsSurplus`). Each pending task has one copy throughout a run if and
  only if every accepted `add()` names no task twice and none that a waiting `add()` still holds
  (`TidyRuns`), and then `complete()` always finds room (`TaskQueue.Run`). `FullAfterRepeat` and
  `FullAfterOverlap` are two runs that break either half of the condition and find the queue full.
- The check on inbound connections says that it allows two nodes with the same IP. It compares
  before adding, so one address can get three inbound sessions (`ThreeFromOneAddress`), and in no
  run more than three (`PeerPool.Run`). A check passes exactly while there are two or fewer sessions
  at the address, and adding makes it one more (`PeerStarted`). Outbound connections are not checked
  at all (`AnyNumberToOneAddress`). If nobody is ever dialed, the limit on the share of inbound peers
  keeps the whole pool at two sessions. As long as nobody leaves, there are at most three inbound
  sessions to each outbound one and one more, or two at the start.
- `validate_forkid` compares the head with `>` where EIP-2124 counts a fork at the head block as
  passed. With the same genesis and forks, a peer is rejected exactly if its announced next fork is
  the local head (`SameChainAccepted`, `RejectedAtForkBlock`); exactly at the heads that are no
  fork block the rules are those of the EIP (`FollowsEip`).
- `KademliaRoutingTable.update` says that it returns the oldest node of a full bucket as eviction
  candidate. It returns the last one in the bucket, which is the one that was not updated for the
  longest time unless it was promoted from the replacement cache (`RoutingTable.Update`). Promotion
  puts a node last, however recent it is, so it can be named before an older one
  (`NewcomerEvictedFirst`).
- `Message` decodes the command id from the first byte of the body only. A command therefore reaches
  the other peer exactly if its id, counted from the start of all protocols, is below 128 and its
  frame fits 3 bytes (`EncodeCommandWorks`, `Exchange`).
- The neighbour sizing loop leaves the command byte out of its sum. The code does not fail for it:
  expirations are timestamps of at most 8 bytes, and there the slack is enough (`PacketFits`). Only an
  expiration of a size that never occurs would make a packet one byte too long
  (`CommandByteForgotten`).
- The database server means to answer an unknown operation byte with a `TypeError` branch, but the
  enumeration raises `ValueError`. Either way the connection ends; the model ends it.

## Model

| member | source | states |
|---|---|---|
| TreeRoots.RootExists | trinity/_utils/tree_root.py:191-200 | over an acyclic parent relation the walk up from every present node ends at a present node with an absent parent |
| TreeRoots.RootUnique | trinity/_utils/tree_root.py:257-289 | root and depth depend on the present edges alone, so never on insertion order or caching |
| TreeRoots.IndexMore | trinity/_utils/tree_root.py:48-54 | appending a fresh node to its parent's list keeps the child lists the exact inverse of the parent relation |
| TreeRoots.IndexLess | trinity/_utils/tree_root.py:56-70 | so does removing a node from its parent's list, dropping the list when it becomes empty |
| TreeRoots.Tree.Add | trinity/_utils/tree_root.py:48-54 | adds exactly the edge and the list entry; a present node is refused without a change |
| TreeRoots.Tree.Prune | trinity/_utils/tree_root.py:56-70 | removes exactly one parentless node; missing and parented nodes are refused |
| TreeRoots.TreeRoot.Extend | trinity/_utils/tree_root.py:106-115 | links an unextended root to its target; an extended one is refused |
| TreeRoots.TreeRoot.PruneOne | trinity/_utils/tree_root.py:117-144 | both forms of following a pruned root down, with the consistency checks that refuse |
| TreeRoots.TreeRoot.GetTrueRoot | trinity/_utils/tree_root.py:191-200 | the loop ends and returns the last link of the chain and the sum of all extensions on the way |
| TreeRoots.HeadAbove | trinity/_utils/tree_root.py:327-348 | the id stored in a shared TreeRoot is always that of a present node |
| TreeRoots.AddHead | trinity/_utils/tree_root.py:327-348 | giving a new node its own TreeRoot, free or extending the parent's, keeps all links right and leaves exactly the node's children to be linked |
| TreeRoots.AddHeir | trinity/_utils/tree_root.py:327-348 | so does sharing the TreeRoot of a parent that had no child |
| TreeRoots.LinkOrphan | trinity/_utils/tree_root.py:350-370 | extending the TreeRoot of an orphaned child links the child and everything that shares the object |
| TreeRoots.PruneToHeir | trinity/_utils/tree_root.py:117-173 | moving the shared TreeRoot of a pruned root down to its heir keeps every other link right |
| TreeRoots.PruneToHead | trinity/_utils/tree_root.py:117-173 | so does cutting the extension of a child that heads its own TreeRoot |
| TreeRoots.ChainOf | trinity/_utils/tree_root.py:257-289 | the chain of TreeRoots above any node exists, and root id, offsets and extensions add up to the plain walk |
| TreeRoots.RootTracker.GetRoot | trinity/_utils/tree_root.py:257-289 | cached or not, returns the topmost present ancestor and the number of parent steps to it; only a missing node is an error |
| TreeRoots.RootTracker.Add | trinity/_utils/tree_root.py:240-252 | adds exactly one edge, before or after the parent arrives; no internal check trips; a present node is refused |
| TreeRoots.RootTracker.NewRoot | trinity/_utils/tree_root.py:327-348 | picks or builds the TreeRoot so that the links of the grown forest are right but for the new node's children |
| TreeRoots.RootTracker.LinkChildren | trinity/_utils/tree_root.py:350-370 | links all children that came first, without tripping a check |
| TreeRoots.RootTracker.Prune | trinity/_utils/tree_root.py:291-325 | removes exactly a parentless node, trips no internal check, and makes every child its own root at depth 0 |
| TreeRoots.RootTracker.PruneTo | trinity/_utils/tree_root.py:146-173 | moves all children off the pruned root; the links describe the forest without it |
| TreeRoots.RootTracker.Replay | trinity/_utils/tree_root.py:240-325 | any script of adds and prunes, refused ones included, leaves exactly the edges the script says and a tracker that answers for them |
| TaskFacts.SettledIsFixedPoint | trinity/_utils/datastructures.py:655-695 | in a settled state the tasks that are no longer unready are a fixed point of the readiness rule |
| TaskFacts.SettledIsLeast | trinity/_utils/datastructures.py:655-695 | and the least one: every set closed under the rule contains them |
| TaskFacts.DeclareKeepsSettled | trinity/_utils/datastructures.py:515-542 | declaring a task finished keeps the state settled if and only if no complete unready task waits for it |
| TaskFacts.DeclareKeepsDiscipline | trinity/_utils/datastructures.py:515-542 | declaring a task without an unready dependency keeps readiness closed towards the roots |
| TaskFacts.Advance | trinity/_utils/datastructures.py:666-695 | replacing a task of the wave by its complete unready children keeps everything that could be ready in the wave, twice nothing, early nothing |
| TaskFacts.RecordReady | trinity/_utils/datastructures.py:674-695 | a task that becomes ready does so after its dependency and at most once per registration |
| TaskFacts.MovedTwice | trinity/_utils/datastructures.py:666-695 | over any number of steps, exactly the tasks that stop being unready are appended to the queue, each once |
| OrderedTasks.OrderedTaskPreparation.MarkOneTaskComplete | trinity/_utils/datastructures.py:674-695 | moves one task to the queue and yields exactly its complete unready children |
| TaskFacts.DueIsLeast | trinity/_utils/datastructures.py:666-695 | what is due with a task is the least set that holds it and is closed under complete waiting children |
| TaskFacts.CascadeEnds | trinity/_utils/datastructures.py:666-672 | a cascade whose wave is empty has released exactly what is due with its first task |
| OrderedTasks.OrderedTaskPreparation.MarkComplete | trinity/_utils/datastructures.py:666-672 | the wave ends, has released exactly what is due, and leaves no task stuck that could be ready |
| OrderedTasks.OrderedTaskPreparation.SetFinishedDependency | trinity/_utils/datastructures.py:515-542 | tracks the task as finished; exactly when the state stays settled, and when it stays closed |
| OrderedTasks.OrderedTaskPreparation.RegisterTasks | trinity/_utils/datastructures.py:544-604 | registers the new tasks in order of first mention up to the first missing dependency; every error and what it leaves behind; exactly what becomes ready; what stays settled, closed and disciplined |
| TaskFacts.FirstNewInOrder | trinity/_utils/datastructures.py:544-586 | the tasks it registers keep the order of their first mention |
| OrderedTasks.OrderedTaskPreparation.FinishPrereq | trinity/_utils/datastructures.py:617-634 | records the prerequisite task by task up to the first refusal; which refusal; exactly what becomes ready; what stays settled, closed and disciplined |
| OrderedTasks.OrderedTaskPreparation.FinishOne | trinity/_utils/datastructures.py:275-318 | unknown, finished and repeated prerequisites are refused without a change |
| OrderedTasks.OrderedTaskPreparation.PruneFinished | trinity/_utils/datastructures.py:697-735 | removes exactly the root of the task's tree if that is more than max_depth above it; never an unready task under a disciplined caller |
| OrderedTasks.OrderedTaskPreparation.BeginReadyTasks | trinity/_utils/datastructures.py:636-650 | what pruning twice for each task of the last batch removes; exactly when that spares all unready tasks; under a disciplined caller it does |
| OrderedTasks.OrderedTaskPreparation.TakeReadyTasks | trinity/_utils/datastructures.py:636-650 | refuses a request for less than one task, waits on an empty queue, and else hands out the front of the queue, as much as asked for |
| OrderedTasks.OrderedTaskPreparation.YieldedInOrder | trinity/_utils/datastructures.py:636-650 | in every run the consumer gets each task after its dependency, or the dependency was declared finished |
| TaskFacts.NearAncestorsStay | trinity/_utils/datastructures.py:697-735 | one pruning removes at most one task, and the task it starts from keeps its nearest max_depth ancestors |
| TaskFacts.ReadyUpwards | trinity/_utils/datastructures.py:697-735 | in a closed state every present ancestor of a ready task is ready |
| TaskFacts.CutTimesAre | trinity/_utils/datastructures.py:697-735 | n prunings from a task remove exactly its ancestors above the new root, which is n steps lower but never within max_depth; the rest stays in place |
| TaskFacts.PruningSparesUnready | trinity/_utils/datastructures.py:697-735 | in a closed state n prunings from a task spare all unready tasks if and only if n is 0, the root is within max_depth, or the lowest ancestor they remove is ready |
| TaskFacts.TaskSparesIff | trinity/_utils/datastructures.py:641-646 | the same for the two prunings the source does per task |
| TaskFacts.BatchSparesIff | trinity/_utils/datastructures.py:636-650 | the same for the prunings of a whole call, each in the state the ones before it leave |
| TaskFacts.SettledUnlessStuck | trinity/_utils/datastructures.py:655-695 | if nothing is ready too early, the state is settled if and only if no complete unready task has a ready dependency |
| TaskFacts.FinishKeepsStuck | trinity/_utils/datastructures.py:617-634 | a finished prerequisite and its cascade release no such stuck task |
| TaskRuns.Execute | trinity/_utils/datastructures.py:515-650 | every call changes the state as the step relation says; what it adds to the log; what it keeps |
| TaskRuns.OrderMore | trinity/_utils/datastructures.py:587-695 | one more step keeps the order: whatever enters the queue does so behind its dependency, or after an earlier step at which that was accepted as finished |
| TaskRuns.AccountMore | trinity/_utils/datastructures.py:515-604 | the calls recorded in a run are exactly the steps that started to track a task or declared one finished |
| TaskRuns.OncePerTracking | trinity/_utils/datastructures.py:587-695 | no task enters the queue more often than there were steps that started to track it |
| TaskRuns.Run | trinity/_utils/datastructures.py:515-735 | for every run, pruning and repeated registration included: the states follow the step relation, whatever enters the queue does so behind its dependency or after an earlier step that declared it finished, no task is queued more often than there were steps that registered it as new, the root tracker holds exactly the tracked tasks; if all commands obey the three rules no unready task is ever pruned; without pruning and with early declarations the ready tasks are the least fixed point of the readiness rule |
| TaskRuns.StillTimely | trinity/_utils/datastructures.py:515-542 | with early declarations nothing unready depends on a task when it is declared finished |
| TaskRuns.RunWithoutPruning | trinity/_utils/datastructures.py:515-695 | a stuck task stays unready in every run without pruning, from any state on |
| TaskRuns.FinishIsRefused | trinity/_utils/datastructures.py:617-634 | finish_prereq refuses every prerequisite of a stuck task |
| TaskCorners.RegisteredAgainTooSoon | trinity/_utils/datastructures.py:636-650 | a concrete run, one consumer at a time, whose every command obeys the first two rules, and which prunes an unready task |
| TaskCorners.DeclaredTooLate | trinity/_utils/datastructures.py:515-542 | a concrete run that leaves a complete task stuck below a task declared finished |
| Collections.SortIsStable | trinity/_utils/datastructures.py:157-158 | sorting by urgency keeps the order of equally urgent tasks |
| TaskQueues.FillIs | trinity/_utils/datastructures.py:142-185 | what an add() inserts is the shortest prefix that brings the pending tasks to the limit, or everything |
| TaskQueues.FillSplit | trinity/_utils/datastructures.py:160-182 | a round that inserts as many tasks as there are open slots is part of that prefix, repeated tasks or not |
| TaskQueues.FillDistinct | trinity/_utils/datastructures.py:160-182 | without repeated tasks that is as many as there are open slots |
| TaskQueues.InsertMore | trinity/_utils/datastructures.py:160-185 | the full-lock after any number of rounds: given up after the first round if there is room then, and never later |
| TaskQueues.TaskQueue.Add | trinity/_utils/datastructures.py:142-185 | pending tasks are refused without a change; else the most urgent tasks that fit go in and the rest waits for the lock; exactly when a put() has to wait |
| TaskQueues.TaskQueue.ResumeAdd | trinity/_utils/datastructures.py:160-185 | a woken add() takes the lock, inserts the next tasks that fit in order of urgency, and gives the lock up or waits again with the rest |
| TaskQueues.TaskQueue.PutAll | trinity/_utils/datastructures.py:176-182 | a put() in add() waits if and only if the open queue has no room for all tasks of the round |
| TaskQueues.RoomMeansWoken | trinity/_utils/datastructures.py:160-185 | no lost wake-up: while an add() waits and there is room, a waiter has been woken |
| TaskQueues.InsertKeepsSurplus | trinity/_utils/datastructures.py:150-182 | an insertion keeps open copies and pending tasks in step if and only if it names no task twice and none that is pending |
| TaskQueues.TidyStep | trinity/_utils/datastructures.py:142-256 | from a state in which each pending task has one copy, an event leads to such a state, without a put() that waits, if and only if the add() it makes, if accepted, names no task twice and none that a waiting add() holds |
| TaskQueues.TidyRuns | trinity/_utils/datastructures.py:142-256 | the same for all states of a run and all its events |
| TaskQueues.OpenHasRoom | trinity/_utils/datastructures.py:238-251 | in such a state the open queue has a free place while any task is checked out |
| TaskQueues.InOnePlace | trinity/_utils/datastructures.py:142-256 | and every pending task is open once or in exactly one checked-out or completing batch |
| TaskQueues.TaskQueue.Run | trinity/_utils/datastructures.py:142-256 | after every interleaving of add(), get() and complete(): both counts are within maxsize and nobody waits for room that is there without a wake-up under way; if and only if all offers are separate each task was in one place throughout, and then no put() ever waited |
| TaskQueues.TaskQueue.Get | trinity/_utils/datastructures.py:209-223 | refuses a request for less than one task, waits without open tasks, and else checks out the most urgent ones, in order, under a fresh id: as many as asked for, or all there are |
| TaskQueues.TaskQueue.GetNowait | trinity/_utils/datastructures.py:187-207 | the same without waiting: an error without open tasks, an empty batch for a request below one, else as many as asked for or all there are |
| TaskQueues.TaskQueue.Complete | trinity/_utils/datastructures.py:225-256 | unknown batches and foreign tasks are refused without a change; otherwise the first incomplete task is open again, or has to wait for a full queue, or the batch is done |
| TaskQueues.TaskQueue.ResumeComplete | trinity/_utils/datastructures.py:238-256 | each further step reopens one incomplete task, the last one discharges the completed ones and frees the lock if there is room |
| TaskQueues.TaskQueue.Release | trinity/_utils/datastructures.py:184-185 | releasing the full-lock wakes the first waiter, if any |
| TaskQueues.PopOne | trinity/_utils/datastructures.py:49-96 | taking the least element repeatedly yields the most urgent tasks in order |
| TaskQueues.Requeue | trinity/_utils/datastructures.py:238-251 | reopening a task of a completing batch keeps the places of all tasks disjoint and complete |
| TaskQueues.Discharge | trinity/_utils/datastructures.py:253-256 | so does removing the completed tasks with their batch |
| RepeatedOffers.JamAfterTwice | trinity/_utils/datastructures.py:142-251 | every run of the four given calls, the first of which names a task twice, ends with complete() at a full queue |
| RepeatedOffers.FullAfterRepeat | trinity/_utils/datastructures.py:238-251 | such a run, with two pending tasks and room for two |
| RepeatedOffers.JamAfterOverlap | trinity/_utils/datastructures.py:142-251 | the same for nine given events in which no call names a task twice or a pending one, but two waiting calls hold the same task |
| RepeatedOffers.FullAfterOverlap | trinity/_utils/datastructures.py:238-251 | such a run |
| ByteStreams.LE32RoundTrip | trinity/db/manager.py:281-300 | a length below 2^32 is read back from its 4 bytes |
| ByteStreams.LE32Value | trinity/db/manager.py:180-188 | the bytes are the digits of the length to the base 256, least significant first |
| ByteStreams.FromLE32Fits | trinity/db/manager.py:180-188 | and every 4 bytes are the encoding of the length they decode to |
| ByteStreams.BufferedSocket.ReadExactly | trinity/_utils/socket.py:21-32 | for every chunking of the input: the next n bytes and nothing more, or an error at the end of the stream |
| DbProtocol.BatchIsDiff | trinity/db/manager.py:218-244 | applying the listed sets and then the deletes equals applying the diff at once |
| DbProtocol.ApplyTells | trinity/db/manager.py:190-244 | what a request does to every key: a set assigns, a delete erases, the last pair of a batch counts unless the key is deleted too, and nothing else changes |
| DbProtocol.HistoryTells | trinity/db/manager.py:190-244 | after any requests each key is as the last request that wrote it left it, or as the initial store has it |
| DbProtocol.LastWriteUnique | trinity/db/manager.py:190-244 | which determines it |
| DbProtocol.RequestRoundTrip | trinity/db/manager.py:281-355 | the server parses every request the client prints, and leaves exactly the bytes after it |
| DbProtocol.BatchRoundTrip | trinity/db/manager.py:326-355 | in particular atomic batches, with all their sizes and keys |
| DbProtocol.AnswerRoundTrip | trinity/db/manager.py:281-324 | the client reads from every reply the answer a plain map gives |
| DbProtocol.ParsedFits | trinity/db/manager.py:146-178 | whatever bytes arrive, what is parsed from them could have been printed, and parsing makes progress |
| DbProtocol.ParseAllRoundTrip | trinity/db/manager.py:146-178 | a stream of printed requests is parsed back to exactly these requests |
| DbProtocol.ServedOneMore | trinity/db/manager.py:146-178 | serving requests one by one equals applying them in sequence |
| DbProtocol.DbManager.ServeConn | trinity/db/manager.py:146-178 | for every byte stream and every chunking: database and replies are those of the parsed requests, up to the first malformed one; the last write to each key decides |
| DbProtocol.DbManager.ServeOne | trinity/db/manager.py:180-244 | reads one request exactly, applies it, and replies; a truncated or unknown one changes nothing |
| DbProtocol.DbManager.ReadBatch | trinity/db/manager.py:218-242 | reads an atomic batch exactly as the parser says |
| DbProtocol.DbManager.HandleBatch | trinity/db/manager.py:233-244 | the two loops over sets and deletes commit exactly the batch |
| DbProtocol.Call | trinity/db/manager.py:281-355 | a client call returns what the plain map returns and leaves no byte behind in either direction |
| DbProtocol.Converse | trinity/db/manager.py:281-355 | in any sequence of calls, the answer to a get, exists or delete is decided by the last request before it that wrote the key, or else by the initial store |
| Rlpx.CipherTwice | p2p/transport.py:299-354 | decrypting at the position of encryption gives the data back |
| Rlpx.CipherEnciphers | p2p/transport.py:299-354 | what turns plain bytes into cipher bytes is the keystream from the position on |
| Rlpx.SecretsMirror | p2p/auth.py:136-173 | both sides derive the same keys, and egress of one is ingress of the other |
| Rlpx.SecretsBindHandshake | p2p/auth.py:136-173 | how the keys are hashed from the key agreement and the nonces; each side starts its own MAC from the other side's nonce and its own handshake message |
| Rlpx.EncodeCommandWorks | p2p/commands.py:103-121 | encoding succeeds if and only if the id is below 128 and the frame fits 3 bytes; then id and payload are read back |
| Rlpx.CommandIdIs | p2p/message.py:9-12 | the id of a message is n if and only if its first byte is the whole RLP encoding of n |
| Rlpx.RlpIntIs | p2p/commands.py:103-121 | integers are encoded as the string of their digits |
| Rlpx.BE24Value | p2p/transport.py:356-361 | the frame size is the big-endian value of its three bytes |
| Rlpx.HeaderRoundTrip | p2p/transport.py:245-272 | frame size and header data survive padding and rebuilding |
| Rlpx.IntsAreCanonical | p2p/transport.py:53-62 | re-encoding the integers the header decoder accepts, of any size, gives the same bytes |
| Rlpx.HeaderDataRoundTrip | p2p/transport.py:53-62 | every list of at most two integers that can be encoded is read back, whatever follows it |
| Rlpx.RebuildCutsPadding | p2p/transport.py:264-272 | for every header the decoder accepts, decoding and re-encoding cuts the padding and changes nothing else |
| Rlpx.SealOpens | p2p/transport.py:245-354 | whatever follows on the wire, the receiver opens exactly the sealed message and ends in the sender's state |
| Rlpx.HeaderTamperEvident | p2p/transport.py:318-334 | of an accepted header neither the bytes nor the MAC alone can be changed without a collision of digests |
| Rlpx.BodyTamperEvident | p2p/transport.py:336-354 | the same for a body |
| Rlpx.PositionsDistinct | p2p/transport.py:299-316 | no keystream position serves two bytes of the messages sent in one direction |
| Rlpx.SealAllFrames | p2p/transport.py:274-316 | the sealed messages are frames on consecutive keystream positions |
| Rlpx.SealAllAppend | p2p/transport.py:274-316 | sealing a sequence is sealing its messages one after the other |
| Rlpx.Transport.Encrypt | p2p/transport.py:299-316 | header and frame come out masked with the keystream from the cipher position on; both MACs are the digests of everything absorbed before them; a header of the wrong size is refused |
| Rlpx.Transport.Send | p2p/transport.py:274-283 | a closing transport and a header of the wrong size are refused without a change; otherwise exactly the padded, enciphered and authenticated message is appended to the wire |
| Rlpx.Transport.DecryptHeader | p2p/transport.py:318-334 | accepts exactly data of the right length whose MAC matches, and unmasks it with the keystream |
| Rlpx.Transport.DecryptBody | p2p/transport.py:336-354 | accepts exactly data that is long enough and whose MAC matches, ignores what follows, unmasks with the keystream, and cuts the padding |
| Rlpx.Transport.Recv | p2p/transport.py:245-272 | for every byte stream: the message, a lost connection, or a malformed one |
| Rlpx.InStep | p2p/transport.py:245-354 | when nothing is under way both ends agree on the MAC and the cipher position |
| Rlpx.Connect | p2p/auth.py:136-173 | derived secrets put the two transports in step, both ways |
| Rlpx.ChannelSend | p2p/transport.py:274-283 | sending adds the message to those under way |
| Rlpx.ChannelRecv | p2p/transport.py:245-272 | receiving takes the oldest message under way |
| Rlpx.Session | p2p/transport.py:245-283 | for every schedule of sends and receives at both ends, each side has received a prefix of what the other sent, the rest is under way, and the ends stay in step; what was read and what is on a wire are the enciphered frames of everything sent that way |
| Capabilities.SelectIsSelection | p2p/handshake.py:92-119 | the selected list has one capability per shared name, the highest shared version, ordered by name |
| Capabilities.SelectionUnique | p2p/handshake.py:92-119 | there is only one such list |
| Capabilities.SelectSymmetric | p2p/handshake.py:92-119 | both peers select the same list |
| Capabilities.SnappyAgreed | p2p/handshake.py:151-168 | compression is on if and only if both versions are at least 5, so both peers decide alike |
| Capabilities.OffsetsContiguous | p2p/protocol.py:61-72 | the first range starts where told and every further one where the previous ends |
| Capabilities.OffsetsOrdered | p2p/protocol.py:61-72 | so the ranges are disjoint |
| Capabilities.OffsetsFromStart | p2p/protocol.py:61-72 | and all after the base protocol |
| Capabilities.Dispatcher.Dispatch | p2p/multiplexer.py:57-95 | with or without a cache hit, the first protocol whose range reaches the id |
| Capabilities.FirstMatchIs | p2p/multiplexer.py:72-95 | what the scan finds is determined |
| Capabilities.DispatchRoundTrip | p2p/protocol.py:31-40 | a command id is dispatched to the sender's protocol, and no other command of it has that id |
| Capabilities.Deliver | p2p/handshake.py:241-274 | two peers that negotiated independently agree on where a command goes |
| PeerProtocol.Exchange | p2p/multiplexer.py:72-95 | end to end, a command arrives at the same protocol and command with its payload if and only if its id is below 128 and the frame fits 3 bytes |
| ResourceLocks.ResourceLock.Enter | p2p/resource_lock.py:22-35 | the lock is granted at once exactly if nobody uses or awaits the resource |
| ResourceLocks.ResourceLock.Resume | p2p/resource_lock.py:22-35 | the waiter that has waited longest gets the lock |
| ResourceLocks.ResourceLock.Exit | p2p/resource_lock.py:22-35 | the lock object lives exactly as long as somebody uses or awaits it |
| ResourceLocks.ResourceLock.OneHolder | p2p/resource_lock.py:22-41 | mutual exclusion per resource, across creation and deletion of lock objects |
| ResourceLocks.EnterNew | p2p/resource_lock.py:22-35 | a new lock object has no stale user |
| ResourceLocks.EnterOld | p2p/resource_lock.py:22-35 | joining an existing lock keeps counts, waiters and holders in agreement |
| ResourceLocks.ExitShared | p2p/resource_lock.py:22-35 | so does leaving it to others |
| ResourceLocks.ExitLast | p2p/resource_lock.py:22-35 | and deleting it with the last reference |
| PeerPools.PeerPool.BeginTask | p2p/peer_pool.py:497-517 | which attempts give up, queue for the node's lock, dial, or start their peer at once |
| PeerPools.PeerPool.ResumeTask | p2p/peer_pool.py:511-517 | the longest waiting attempt for the node goes on, unless the node got connected |
| PeerPools.PeerPool.DialFinished | p2p/peer_pool.py:519-535 | a failed dial leaves the lock, a good one starts its peer |
| PeerPools.PeerPool.PeerStarted | p2p/peer_pool.py:261-357 | a peer is added if and only if it started, the pool is not full, the node has no session, and the policy of its direction agrees: a running pool, or at most two sessions at the address and at most three inbound ones to each outbound one (or one session in all) |
| PeerPools.PeerPool.AddPeer | p2p/peer_pool.py:378-395 | adds exactly this session |
| PeerPools.PeerPool.LeaveTask | trinity/server.py:150-164 | an attempt leaves the lock region |
| PeerPools.PeerPool.PeerFinished | p2p/peer_pool.py:540-558 | removes exactly this session, if known |
| PeerPools.AddKeepsSingle | p2p/peer_pool.py:334-357 | an outbound attempt need not check for a session again: nobody else could add one for its node |
| PeerPools.AddAtAddress | p2p/peer_pool.py:261-268 | adding a session makes one more at its address; an inbound one that passed the check keeps the bound of three |
| PeerPools.AddKeepsShare | p2p/peer_pool.py:323-330 | adding a peer that passed the check on the share of inbound ones keeps the bound on that share |
| PeerAddresses.ThreeFromOneAddress | p2p/peer_pool.py:261-268 | a concrete run after which one address has three inbound sessions |
| PeerAddresses.AnyNumberToOneAddress | p2p/peer_pool.py:334-357 | runs of any length after which one address has all outbound sessions of the pool |
| PeerPools.PeerPool.Run | p2p/peer_pool.py:298-535 | after every interleaving of attempts and exits no node has two sessions, the pool is within max_peers, and no address has more than three inbound sessions; without outbound attempts there are at most two sessions; while nobody leaves, the inbound ones are at most three times the outbound ones and one more, or two |
| Bits.XorInjective | p2p/kademlia.py:267-270 | equal distances to a target mean equal ids |
| Kademlia.LogDistanceIsPrefix | p2p/kademlia.py:273-277 | the log distance is at most k if and only if the ids agree above their k lowest bits |
| Kademlia.LogDistanceInRange | p2p/kademlia.py:273-277 | distinct 256-bit ids have a bucket |
| Kademlia.TouchSlot | p2p/kademlia.py:358-375 | moving a node to the front of a bucket with room adds exactly this node and pushes nothing out |
| Kademlia.CacheSlot | p2p/kademlia.py:337-352 | caching a node behind a full bucket adds exactly this node |
| Kademlia.RemoveFromBucket | p2p/kademlia.py:377-427 | removing from a bucket promotes the newest cached node and loses no other |
| Kademlia.RemoveFromCache | p2p/kademlia.py:377-427 | removing from the cache removes exactly one node |
| Kademlia.Touch | p2p/kademlia.py:358-375 | moving a bucket to the front keeps the order by recency |
| Kademlia.Forget | p2p/kademlia.py:377-427 | so does dropping an emptied bucket |
| Kademlia.ReplaceSlot | p2p/kademlia.py:312-427 | changing one bucket by one id changes the table by this id and leaves all ids in their own buckets |
| Kademlia.LastIsOldest | p2p/kademlia.py:358-375 | the last node of a bucket was not updated for the longest time, unless it was promoted |
| Kademlia.AllSeatLast | p2p/kademlia.py:389-399 | a promoted node takes the last seat of its bucket and leaves all other seats in order |
| Kademlia.NewcomerEvictedFirst | p2p/kademlia.py:312-356 | a concrete run that names a promoted node as eviction candidate before an older one |
| Kademlia.RoutingTable.Update | p2p/kademlia.py:312-356 | adds exactly this id, in its own bucket or cache, and keeps the table sound; the eviction candidate is the one in the bucket not updated for the longest time, unless it was promoted; the own id is refused |
| Kademlia.RoutingTable.UpdateBucketUnchecked | p2p/kademlia.py:358-375 | puts the node first in its bucket and the bucket first in the order |
| Kademlia.RoutingTable.Remove | p2p/kademlia.py:377-427 | removes exactly this id, refilling the bucket from its cache, and keeps the table sound; the own id is refused |
| Kademlia.RoutingTable.LeastRecentlyUpdated | p2p/kademlia.py:443-453 | the bucket whose last update is oldest among all non-empty ones, or none |
| Lookup.SortByDistanceSpec | p2p/kademlia.py:248-250 | sorting orders by distance and keeps the nodes |
| Lookup.SortedPrefixIsNearest | p2p/discovery.py:631-633 | the first k of the sorted nodes are the k nearest |
| Lookup.NearestOfMore | p2p/discovery.py:629-633 | the k nearest of (what stands for the old nodes, and new ones) are the k nearest of all |
| Lookup.NearestUnique | p2p/kademlia.py:248-250 | the k nearest are determined, so the answers determine the rounds of a lookup |
| Lookup.HeardSpec | p2p/discovery.py:619-633 | what a lookup was told is what the nodes it asked in each round answered in that round |
| Lookup.ExcludeIfAskedSpec | p2p/discovery.py:608-610 | the next nodes to ask are the nearest unasked ones, at most three, none twice |
| Lookup.Keep | p2p/discovery.py:629-633 | after each round the kept nodes are the 16 nearest of everything learned |
| Lookup.Choose | p2p/discovery.py:608-617 | nothing is left to ask exactly if all kept nodes were asked |
| Lookup.FindNearest | p2p/discovery.py:576-639 | whatever the answers, the lookup ends; each round asks the nearest three unasked of the 16 nearest known; no node is asked twice; the result is exactly the 16 nearest of the initial nodes and all that the asked ones answered when asked, each of them asked |
| Rlp.Encode | p2p/discovery.py:1246-1276 | the size computed for an item is the number of its bytes |
| Rlp.RoundTrip | p2p/discovery.py:1246-1276 | every item is read back from its bytes, whatever follows them |
| Neighbours.MaxNeighboursPerPacket | p2p/discovery.py:1246-1263 | the sizing loop ends with the largest count whose sum fits |
| Neighbours.MaxIsTwelve | p2p/discovery.py:1246-1263 | for expirations up to 8 bytes that is 12 |
| Neighbours.SendNeighbours | p2p/discovery.py:1047-1061 | the packets concatenate to the sorted list, none is empty, and each fits 1280 bytes with hash, signature and command byte |
| Neighbours.PacketFits | p2p/discovery.py:1266-1276 | any 12 neighbours with IPv4 or IPv6 addresses fit |
| Neighbours.FullPacketFits | p2p/discovery.py:1246-1276 | the sizing sum lacks the command byte, so a full packet is too long only if the sum hits the limit |
| Neighbours.CommandByteForgotten | p2p/discovery.py:1246-1276 | a hypothetical expiration, longer than any timestamp, for which the sum fits and the packet does not |
| Crc.CrcChain | trinity/protocol/eth/forkid.py:55-69 | a checksum continued over further bytes is the checksum of the concatenation |
| Crc.LongDivision | trinity/protocol/eth/forkid.py:55-69 | long division by the CRC-32 generator over two elements gives a quotient and a remainder |
| Crc.DivisionUnique | trinity/protocol/eth/forkid.py:55-69 | which are determined |
| Crc.AbsorbIsRemainder | trinity/protocol/eth/forkid.py:55-69 | the shift register is the remainder of the message polynomial times x^32, with its start added in front |
| Crc.CrcIsRemainder | trinity/protocol/eth/forkid.py:55-69 | the checksum of a message, by the remainder alone |
| ForkIds.BE64Value | trinity/protocol/eth/forkid.py:67 | the eight bytes of a block number are its digits, most significant first |
| ForkIds.ForkBytesSpellOut | trinity/protocol/eth/forkid.py:61-67 | what is hashed after the genesis spells out the passed fork blocks in this way, one after the other |
| ForkIds.ChecksumChain | trinity/protocol/eth/forkid.py:85-89 | each checksum follows from the one before it and the next fork number |
| ForkIds.MakeForkId | trinity/protocol/eth/forkid.py:55-69 | for any fork list: the checksum of genesis and the big-endian block numbers of all forks before the first one above the head, and that fork or 0 |
| ForkIds.Checksums | trinity/protocol/eth/forkid.py:85-89 | the list of all prefix checksums |
| ForkIds.Decide | trinity/protocol/eth/forkid.py:98-125 | the loop decides by the rules of EIP-2124, at the fork index it is given |
| ForkIds.ValidateForkId | trinity/protocol/eth/forkid.py:72-128 | for any fork list: the verdict follows these rules at the index of the first fork not below the head; a head beyond all of them and the sentinel is accepted |
| ForkIds.CountedIs | trinity/protocol/eth/forkid.py:91-96 | that is the index the scan stops at |
| ForkIds.FollowsEip | trinity/protocol/eth/forkid.py:91-96 | it is the index EIP-2124 means if and only if the head is no fork block |
| ForkIds.VerdictBetweenChains | trinity/protocol/eth/forkid.py:72-128 | for peers on any two chains: incompatible unless genesis and passed forks agree with ours; a peer behind must know our next fork, one level with us must not announce a fork we have reached, one ahead is accepted |
| ForkIds.SameChainAccepted | trinity/protocol/eth/forkid.py:72-128 | a peer on the same chain is accepted if and only if its next fork is not the local head |
| ForkIds.OwnForkIdAccepted | trinity/protocol/eth/forkid.py:72-128 | a node accepts its own fork id at every head |
| ForkIds.RejectedAtForkBlock | trinity/protocol/eth/forkid.py:91-106 | a concrete peer on the same chain that is rejected |
| TokenBuckets.TokenBucket.Deduct | p2p/token_bucket.py:51-63 | refills to the balance of the moment, capped, and deducts; negative amounts are refused |
| TokenBuckets.TokenBucket.Take | p2p/token_bucket.py:65-81 | after any idle time up to min(capacity, balance + rate * time) is released at once; beyond that the caller sleeps exactly as long as the missing tokens take |
| TokenBuckets.TokenBucket.TakeNowait | p2p/token_bucket.py:83-93 | fails exactly if there are not enough tokens after the idle time; a positive amount never leaves a debt |
| TokenBuckets.SleepPays | p2p/token_bucket.py:65-81 | the time slept adds exactly the tokens owed |
| TokenBuckets.RefillWithin | p2p/token_bucket.py:43-49 | a refill adds no more than the rate allows |
| TokenBuckets.ReleaseBound | p2p/token_bucket.py:51-93 | the bound on released tokens, for any history of paced grants |
| TokenBuckets.TokenBucket.NeverTooFast | p2p/token_bucket.py:43-93 | in every run the tokens of callers released by time t total at most capacity + rate * (t - start) |

## Left out

- TreeRoots.RootTracker.Replay: ids are integers compared for equality only; memory use and the log messages are not modelled.
- OrderedTasks.OrderedTaskPreparation.RegisterTasks: a task is its id; the prerequisite tracker object of a task is the set of its finished prerequisites. wait_add_tasks, max_tasks and the events behind them are not modelled.
- TaskRuns.Run: that no unready task is pruned is proved for callers that obey all three rules, because it is false for the first two alone; cancellation of a waiting call is not modelled.
- TaskQueues.TaskQueue.Run: a run is followed up to the first put() that has to wait for a full open queue, not beyond. That all offers are separate is enough for complete() to find room, not necessary, because completing a task that was queued twice takes the surplus away again.
- Task cancellation and timeouts anywhere in asyncio or trio code.
- DbProtocol.Call: the client does not tell a failed SET or batch reply from a good one, and the server sends no failed one; sockets, processes, threads and logging are not modelled.
- Rlpx: Keccak, AES, ECDH and the handshake messages are parameters; of them output lengths and the symmetry of the key agreement are assumed. That a MAC cannot be forged by somebody who does not know the keys, and that digests do not collide, is not modelled.
- Rlpx.EncodeCommandWorks: payload serialization and snappy compression are not modelled.
- Capabilities: the exchange of Hello messages, per-protocol handshakes, per-protocol queues and counters of the multiplexer.
- PeerPools.PeerPool.PeerStarted: the share of inbound peers is compared exactly instead of in floating point; subscribers, boot managers, the limit of concurrent dials and metrics are not modelled.
- Kademlia.RoutingTable.Update: of a promoted eviction candidate nothing is said about its age, because it can be the oldest node of its bucket or a younger one.
- Lookup.FindNearest: an answer is what _find_node returns for a node in a round, after its filters and bonding, and nothing for a node that is not queried after all; wait_neighbours, bonding, ENR handling and packet signing are not modelled.
- Neighbours.SendNeighbours: expirations of at most 8 bytes, which covers all timestamps.
- ForkIds.MakeForkId: block numbers of at most 64 bits, beyond which the source raises an error.
- ForkIds.SameChainAccepted: assumes that the prefix checksums differ, as the comparison of checksums does; ForkIds.VerdictBetweenChains assumes it between the two chains.
- TokenBuckets.TokenBucket.Take: real numbers instead of floating point, and a clock that does not run backwards.
- Sync and chain logic, JSON-RPC, the component registry, configuration, metrics and the command line, which are dispatch, I/O or code of other packages.
