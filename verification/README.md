# Verification of the IP-noise arbitrator

IP-noise disturbs the packets of a network by rule: chains of states, each a
Markov chain, decide for every packet whether it is dropped, delayed or let
through. A compiler in Perl parses the description of the chains and sends it to
the arbitrator, a C program, over a small binary protocol. This project models
that arbitrator and the parts of the compiler it depends on, and proves what they
promise. `dafny verify dfyconfig.toml` checks all of it.

| files | component |
|---|---|
| `Basics`, `Orders`, `RbTrees`, `RbLayout`, `RbOrder`, `RedBlack` | the ordered map: a red-black tree of linked nodes with up pointers and a shared sentinel. `RbTrees` holds the trees as values, seen from a focus; `RbLayout` says how they lie in memory; `RbOrder` is the sorted sequence they stand for; `RedBlack` is the program on nodes |
| `NameDict` | the case-insensitive name dictionary on top of it |
| `RwLock` | the readers-writers lock: all runs of any number of threads, and its operations as steps of them |
| `Heaps`, `PQueue` | the binary heap |
| `Delayer` | the kernel delayer: packets, deadlines and one timer |
| `Wire`, `TextQueue`, `Bsearch`, `Configs`, `Protocol`, `Schedules`, `Iface` | the configuration line: both codecs, the byte queue, the handlers, whole runs of chunks and calls, and the reader as a program |
| `Translator`, `Loader`, `MoveTo`, `Ports`, `Declared`, `Markov` | the compiler's end, and what a declaration means once it is loaded |
| `Rows`, `Switcher`, `Times` | the switcher that moves each chain through its states |
| `Filters`, `Delays`, `PacketLogic` | the decision on a packet |

Programs that work on state are classes whose methods are proved against
functions on values; the main results are then about those functions.

Where the code does something else than its comments or names suggest, the code
is followed, and a result says exactly when it matters:

- An unknown opcode is answered but neither committed nor rolled back, so the
  replies can depend on how the bytes are divided (`IndependentIffOpcodesKnown`).
- `delete_state` and `delete_chain` can be sent but are unknown to the arbitrator
  (`TablesAgree`), so they are such opcodes (`WithoutHandlerUnknown`,
  `DeleteStateUnknown`).
- The interpolation weighs each point by the distance from itself, so it runs
  backwards between two points: exactly when, `InterpolatedIsLinearIff` says, and
  `InterpolatedTheWrongWay` shows one draw.
- A draw that hits a point of a curve gets the delay of the point before it. It is
  the right one exactly if the two are equal (`HitAnsweredIff`); on the curve of
  the syntax description a draw of 0.2 is not (`DocumentedCurveMissed`). A draw of
  0 reads before the array.
- Strict and non-strict comparisons of a packet's length are parsed alike, so a
  length that is a bound of a strict one is let through, or kept out by an
  inverted range (`LoadedChainAppliesIff`, `StrictLengthMissed`).
- Names in `move_to` are compared without regard to case while parsing but with
  regard to it while loading; what is spelled otherwise is lost
  (`RowIsDistributionIff`, `CaseMatters`).
- `set_move_probs` stops reading at a state index out of range; what is left of its
  lists is taken for the next transactions (`SourceRefused`, `DestRefused`).
- A time whose microseconds come to just 1000000 is not carried over, so its event
  is due at the whole second it is equal to and not only after it
  (`BeforeIsEarlier`, `AfterCarries`).
- A drawn delay of 0 can set the stable clock back (`StableClockGoesBackIff`,
  `StableClockMayGoBack`).
- The deadline of a packet is read off the clock before the delayer is locked, so
  packets can leave out of deadline order (`EnterInOrderIff`,
  `OvertakenBeforeTheLock`).

## Model

| member | source | states |
|---|---|---|
| RedBlack.RbTree.Search | C/arbitrator/redblack.c:143-154 | rbsearch leaves an equal key alone and the tree untouched, or adds just the new key at its place in the sorted key sequence; shape, order, colours, black heights and up pointers all hold again |
| RedBlack.RbTree.Find | C/arbitrator/redblack.c:156-171 | rbfind answers the equal key if there is one |
| RedBlack.RbTree.Delete | C/arbitrator/redblack.c:173-195 | rbdelete answers and removes exactly the equal key, keeps every other key, and all tree invariants hold again; without a hit nothing changes |
| RedBlack.RbTree.Descend | C/arbitrator/redblack.c:260-285 | the descent ends at the equal node or at the empty place where the key belongs, after at most as many nodes as the tree is high |
| RedBlack.RbTree.InsertNode | C/arbitrator/redblack.c:286-388 | hanging in a red node and repairing gives a red-black tree with one key more, in its place |
| RedBlack.RbTree.InsertRepair | C/arbitrator/redblack.c:309-386 | the recolour/rotate loop ends, restores all invariants and leaves the key sequence as it was |
| RedBlack.RbTree.InsertIteration | C/arbitrator/redblack.c:317-382 | one iteration on the linked nodes does what the step on trees does, in both mirror images |
| RedBlack.RbTree.LeftRotate | C/arbitrator/redblack.c:502-545 | rb_left_rotate relinks nodes and up pointers as the rotation of the tree value says, at the root or below it |
| RedBlack.RbTree.RightRotate | C/arbitrator/redblack.c:547-590 | rb_right_rotate, likewise |
| RbTrees.RotationKeepsKeys | C/arbitrator/redblack.c:488-590 | a rotation leaves the in-order key sequence unchanged |
| RbTrees.InsertStepKeeps | C/arbitrator/redblack.c:317-382 | each repair step keeps the loop invariant (one red-red clash at most, black heights equal) and moves towards the root or ends |
| RbTrees.InsertStepKeepsKeys | C/arbitrator/redblack.c:317-382 | no repair step changes the key sequence |
| RbTrees.JoinsIffRedBlack | C/arbitrator/redblack.c:96-106 | a subtree fits its surroundings exactly if the whole is a red-black tree |
| RedBlack.RbTree.DeleteNode | C/arbitrator/redblack.c:656-695 | rb_delete on a node: its key goes, all others stay in order, all invariants hold again, also where the sentinel lends its up pointer |
| RedBlack.RbTree.DeleteInner | C/arbitrator/redblack.c:665-690 | a node with two children takes over the key of its successor, whose node is spliced out |
| RedBlack.RbTree.Splice | C/arbitrator/redblack.c:668-686 | the node with at most one child is bypassed; the child, or the sentinel, gets its parent as up pointer |
| RedBlack.RbTree.DeleteFix | C/arbitrator/redblack.c:697-774 | rb_delete_fix ends and mends the missing black level without changing a key |
| RedBlack.RbTree.DeleteIteration | C/arbitrator/redblack.c:702-771 | one iteration does what the step on trees does, in both mirror images, from a real focus or the sentinel |
| RbTrees.DeleteStepKeeps | C/arbitrator/redblack.c:702-771 | each deletion step keeps the loop invariant (one black level short at the focus) |
| RbTrees.DeleteStepKeepsKeys | C/arbitrator/redblack.c:702-771 | no deletion step changes the key sequence |
| RbTrees.SpliceStarts | C/arbitrator/redblack.c:676-694 | taking out a node leaves a valid tree if it was red and a hole the loop can start from if it was black |
| RbTrees.MovedKeys | C/arbitrator/redblack.c:665-690 | moving the key of the successor up leaves all keys but the deleted one, in order |
| RedBlack.RbTree.Successor | C/arbitrator/redblack.c:594-623 | rb_successor finds the node of the next key, or the sentinel |
| RedBlack.RbTree.Predecessor | C/arbitrator/redblack.c:625-652 | rb_preccessor finds the node of the previous key, or the sentinel |
| RedBlack.RbTree.LookupMode | C/arbitrator/redblack.c:392-469 | every lookup mode answers what the sorted key sequence prescribes, hit or miss |
| RbOrder.PrescribedIsNearest | C/arbitrator/redblack.c:392-469 | what is prescribed is the nearest key on the side the mode asks for, or none if there is none |
| RbOrder.EndsPrescribed | C/arbitrator/redblack.c:402-423 | the first and last modes name the strictly least and greatest key, or none without a key |
| RbOrder.NeighboursPrescribed | C/arbitrator/redblack.c:392-469 | next and previous name the nearest key beyond an equal one, or none without an equal one |
| RedBlack.RbTree.Extreme | C/arbitrator/redblack.c:402-423 | the first and last modes answer the ends of the sequence |
| RedBlack.RbTree.ListAll | C/arbitrator/redblack.c:801-834 | opening a list and reading until the end enumerates precisely the sorted key sequence and stops |
| RedBlack.RbTree.OpenList | C/arbitrator/redblack.c:801-820 | rb_openlist starts at the least key |
| RedBlack.RbTree.ReadList | C/arbitrator/redblack.c:822-834 | rb_readlist answers the current key and moves to its successor |
| RedBlack.RbTree.Walk | C/arbitrator/redblack.c:776-799 | rb_walk makes just the prescribed reports |
| RbTrees.WalkReportsKeys | C/arbitrator/redblack.c:776-799 | the reports after the left subtree and of leaves are the keys in order |
| RbTrees.WalkReportsOnlyKeys | C/arbitrator/redblack.c:776-799 | every report is of a key of the tree |
| RbTrees.ReportLevels | C/arbitrator/redblack.c:776-799 | each report carries the depth of its node, and those of the root come first and last |
| RbTrees.HeightIsLogarithmic | C/arbitrator/redblack.c:96-106 | a red-black tree of n keys is at most 2 log2(n + 1) high: 2 to the power of half the height, rounded up, is at most n + 1 |
| RbOrder.LookupInserted | C/arbitrator/redblack.c:252-388 | after an insertion each key is found as before, and the new one unless an equal one was there |
| RbOrder.LookupDeleted | C/arbitrator/redblack.c:656-695 | after a deletion each key is found as before, except those equal to the deleted one |
| RbOrder.LookupIff | C/arbitrator/redblack.c:156-171 | a lookup answers a key exactly if it is present and compares equal |
| RbOrder.SortedUnique | C/arbitrator/redblack.c:96-106 | two sorted key sequences with the same keys are the same |
| NameDict.CompareIsTotalPreorder | C/arbitrator/str2int_dict.c:22-31 | the case-insensitive comparison is consistent, as the tree needs it |
| NameDict.CompareEqualMeansSameName | C/arbitrator/str2int_dict.c:22-31 | it calls names equal exactly if they differ in case only |
| Basics.LowerCodeIff | C/arbitrator/str2int_dict.c:22-31 | two codes count as one letter exactly if they are equal or the upper and lower case of one of the 26 letters |
| NameDict.Dict.Get | C/arbitrator/str2int_dict.c:41-56 | get answers the index bound to the name in any case, or -1 |
| NameDict.Dict.Add | C/arbitrator/str2int_dict.c:58-71 | add inserts the binding unless the name is bound |
| NameDict.AddNeverOverwrites | C/arbitrator/str2int_dict.c:58-71 | a bound name keeps its index, whatever the case of the added name; only an unbound one gets the new index |
| NameDict.Dict.Remove | C/arbitrator/str2int_dict.c:73-79 | remove takes out the binding of the name |
| NameDict.RemoveUnbindsOnly | C/arbitrator/str2int_dict.c:73-79 | every other name keeps its binding |
| NameDict.Dict.Reset | C/arbitrator/str2int_dict.c:81-95 | deleting the least element until none is left ends with an empty dictionary |
| NameDict.Dict.Duplicate | C/arbitrator/str2int_dict.c:103-118 | the copy has the same elements, though the walk reports inner ones three times |
| NameDict.CopyIsFaithful | C/arbitrator/str2int_dict.c:103-118 | adding all reports in walk order rebuilds the same sorted elements |
| NameDict.MeaningIff | C/arbitrator/str2int_dict.c:41-56 | a dictionary answers an index exactly if an element of that name, up to case, has it |
| RwLock.RwLockStruct.constructor | C/arbitrator/rwlock.c:40-59 | a new lock starts a run: all threads idle, invariant holds |
| RwLock.RwLockStruct.StartDownRead | C/arbitrator/rwlock.c:80-107 | down_read of a thread up to its first wait or return is its arrival in the protocol: it gets in exactly if no thread writes or waits to write, readers inside or not; the counters follow the threads and the invariant (counting, exclusion, no lost wake-up) still holds |
| RwLock.RwLockStruct.TestDownRead | C/arbitrator/rwlock.c:88-104 | a woken reader tests again: it enters exactly if no thread writes or waits to write and is blocked again otherwise; the invariant still holds |
| RwLock.RwLockStruct.StartDownWrite | C/arbitrator/rwlock.c:109-133 | down_write up to its first wait or return, likewise: it gets in exactly if no thread is inside |
| RwLock.RwLockStruct.TestDownWrite | C/arbitrator/rwlock.c:117-130 | a woken writer tests again, likewise |
| RwLock.RwLockStruct.UpRead | C/arbitrator/rwlock.c:135-148 | up_read of a reading thread leaves the threads as the protocol says, every blocked writer and some blocked reader woken, and the invariant still holds |
| RwLock.RwLockStruct.UpWrite | C/arbitrator/rwlock.c:150-163 | up_write of the writing thread, likewise |
| RwLock.StepKeepsInv | C/arbitrator/rwlock.c:70-163 | every step of every thread, spurious wake-ups included, keeps the invariant: the counters count the threads, writers exclude, no wake-up is lost |
| RwLock.InvAlways | C/arbitrator/rwlock.c:70-163 | the invariant holds in every state of every run, for any number of threads |
| RwLock.Safety | C/arbitrator/rwlock.c:80-163 | at most one writer is active, never together with a reader |
| RwLock.ReadersYield | C/arbitrator/rwlock.c:70-107 | no step lets a reader in while a writer waits |
| RwLock.ReaderEntersIff | C/arbitrator/rwlock.c:70-107 | a reader that tries gets in exactly if no thread writes or waits to write, and is blocked otherwise; no other thread moves |
| RwLock.WriterEntersIff | C/arbitrator/rwlock.c:75-133 | a writer that tries gets in exactly if no thread reads or writes, and is blocked otherwise; no other thread moves |
| RwLock.TwoReaders | C/arbitrator/rwlock.c:70-107 | a concrete run that ends with two readers inside |
| RwLock.ReleaseWakes | C/arbitrator/rwlock.c:135-163 | giving the lock back wakes all blocked writers and the readers signalled, and nobody else |
| RwLock.FairnessCounts | C/arbitrator/rwlock.c:135-163 | over any run the fairness counter grows by the writers that left less the readers that left |
| RwLock.Progress | C/arbitrator/rwlock.c:135-163 | whenever the lock is free and a thread waits, some waiter is woken and its test would let it in |
| RwLock.WaiterCanEnter | C/arbitrator/rwlock.c:70-163 | from such a state some thread enters in one step |
| RwLock.InternalStepsDrain | C/arbitrator/rwlock.c:80-163 | every step that is not an arrival or spurious reduces the work left |
| RwLock.SomeInternalStep | C/arbitrator/rwlock.c:80-163 | as long as a thread is inside or waits, some such step is possible |
| RwLock.Drains | C/arbitrator/rwlock.c:80-163 | once arrivals stop, a run of such steps is no longer than the work left at its start, and it can stop only when every thread got the lock and gave it back |
| PQueues.PQueue.Push | C/arbitrator/pqueue.c:67-143 | push keeps heap order, also where the array grows, and adds just the item |
| PQueues.PQueue.PercolateUp | C/arbitrator/pqueue.c:79-138 | the hole rises until the item may go in; the elements stay the same multiset |
| PQueues.PQueue.Pop | C/arbitrator/pqueue.c:185-276 | pop takes out a least element (greatest in the ascending mode), keeps heap order and every other element; an empty queue answers none |
| PQueues.PQueue.PercolateDown | C/arbitrator/pqueue.c:209-273 | the hole sinks along the better child until the last item may go in |
| PQueues.PQueue.Peek | C/arbitrator/pqueue.c:145-161 | peek answers a least element, or none if the queue is empty |
| PQueues.PQueue.MakeRoom | C/arbitrator/pqueue.c:71-77 | growing by 256 keeps the elements |
| PQueues.PQueue.Drain | C/arbitrator/pqueue.c:185-276 | popping until empty yields all elements once, in order |
| PQueues.PQueue.IsEmpty | C/arbitrator/pqueue.c:163-175 | empty exactly if there is no element |
| Heaps.RootIsFirst | C/arbitrator/pqueue.c:185-204 | in a heap nothing comes before the root |
| Heaps.BubbleUp | C/arbitrator/pqueue.c:103-132 | moving the hole up keeps everything but the edge above it in order |
| Heaps.SinkDown | C/arbitrator/pqueue.c:216-270 | moving the hole down to the best child keeps everything but the edges below it in order |
| Delayers.Delayer.DelayPacket | C/arbitrator/delayer.c:213-304 | delaying a packet keeps the books good and the timer armed for the earliest deadline; the packet enters with the deadline of the reading before the lock, and only releases, by the reading under it, happen besides |
| Delayers.Delayer.CheckPq | C/arbitrator/delayer.c:145-210 | everything due is released, each time a packet of the earliest deadline and not early, and the timer is armed exactly if a packet is left, for the earliest deadline |
| Delayers.Delayer.ReleaseDue | C/arbitrator/delayer.c:164-196 | the release loop ends with only later deadlines queued |
| Delayers.Delayer.TimerFunction | C/arbitrator/delayer.c:136-142 | when the timer goes off at its time, at least one packet is released |
| Delayers.Delayer.constructor | C/arbitrator/delayer.c:79-108 | the delayer starts empty, with no timer armed |
| Delayers.ReleaseKeepsGood | C/arbitrator/delayer.c:164-191 | releasing the first packet keeps: each packet released once or still queued, none early; and the log is in deadline order after it exactly if it was before |
| Delayers.EnterKeepsGood | C/arbitrator/delayer.c:236-262 | so does entering a packet |
| Delayers.EnterInOrderIff | C/arbitrator/delayer.c:236-262 | a packet that comes in breaks the deadline order of the releases exactly if one of a later deadline was released before |
| Delayers.EnterInTime | C/arbitrator/delayer.c:241-262 | it does not if the delayer did nothing between the clock reading and the lock |
| Delayers.OvertakenBeforeTheLock | C/arbitrator/delayer.c:241-262 | a concrete packet that is overtaken between reading the clock and taking the lock |
| Delayers.DueReleased | C/arbitrator/delayer.c:136-196 | if a packet was due and none is any more, some packet was released |
| Wire.RoundTrip | perl/compiler/IP/Noise/C/Translator.pm:173-417 | every parameter within its limits is read back as meant and just its bytes are consumed, so parameters and transactions can follow each other |
| Wire.IntRoundTrip | C/arbitrator/iface.c:350-373 | an int comes back unchanged exactly if it is in 0 .. 2^31 - 1; four bytes are consumed in any case |
| Wire.PackIntBytes | perl/compiler/IP/Noise/C/Translator.pm:173-246 | the four bytes of an int, and the two of a port, lowest first |
| Wire.PackNameBytes | perl/compiler/IP/Noise/C/Translator.pm:199-204 | a name takes 80 bytes, its characters and then zeros |
| Wire.PackedCodes | perl/compiler/IP/Noise/C/Translator.pm:215-403 | the codes of state references, delay types and length comparisons |
| Wire.PackedEnds | perl/compiler/IP/Noise/C/Translator.pm:241-376 | the terminators of port lists and IP filters |
| Wire.ReadOddly | C/arbitrator/iface.c:537-900 | what the reader makes of values out of range: negative ints, probabilities off 0 .. 1, delays of 0, unknown codes |
| Wire.NameRoundTrip | perl/compiler/IP/Noise/C/Translator.pm:199-204 | a name comes back cut to 79 characters |
| Wire.StateRoundTrip | perl/compiler/IP/Noise/C/Translator.pm:263-279 | a state reference, last or by index, is read as the state it names |
| Wire.PortsRoundTrip | perl/compiler/IP/Noise/C/Translator.pm:241-260 | port ranges up to the reversed terminator |
| Wire.SpecsRoundTrip | perl/compiler/IP/Noise/C/Translator.pm:359-376 | the list of IP specifications up to the 255.255.255.255 terminator |
| Wire.PointsRoundTrip | perl/compiler/IP/Noise/C/Translator.pm:343-350 | the points of a generic delay up to the one of probability 1 |
| Wire.ParseStable | C/arbitrator/iface.c:537-900 | once a parameter can be read, bytes arriving later change neither its value nor its length; if it could not, it takes some of them |
| Wire.ParseShrinks | C/arbitrator/iface.c:537-900 | reading a parameter consumes bytes |
| TextQueues.TextQueueIn.PutBytes | C/arbitrator/text_queue_in.c:38-56 | put appends the bytes, growing the buffer if need be |
| TextQueues.TextQueueIn.ReadBytes | C/arbitrator/text_queue_in.c:58-73 | read takes all bytes asked for or moves nothing |
| TextQueues.TextQueueIn.Commit | C/arbitrator/text_queue_in.c:82-89 | commit forgets just the bytes read |
| TextQueues.TextQueueIn.Rollback | C/arbitrator/text_queue_in.c:91-96 | rollback makes all uncommitted bytes pending again |
| Bsearch.SFOBsearch | C/arbitrator/fcs_dm.c:21-62 | the place found splits the array at the key, equal elements in a row included; found tells whether an equal element is there, and then the place holds one |
| Configs.SetBitMeaning | C/arbitrator/iface_handlers.c:438-460 | setting a protocol or TOS bit changes that bit alone, or all bits if the index is past the mask |
| Configs.BitInByte | C/arbitrator/iface_handlers.c:450-460 | the same within one byte of the mask |
| Protocol.TransactionStable | C/arbitrator/iface.c:1319-1440 | once its bytes are there, bytes arriving later change neither what a transaction does nor how many bytes it takes |
| Protocol.TransactionKeepsWellFormed | C/arbitrator/iface_handlers.c:172-776 | whatever arrives, each state keeps one move probability per state of its chain and the masks keep their sizes |
| Protocol.TransactionShrinks | C/arbitrator/iface.c:1319-1440 | a completed transaction, or an unknown opcode, takes at least four bytes |
| Protocol.FoundAt | C/arbitrator/iface.c:1356-1373 | an opcode of the sorted table is found with its record |
| Schedules.ChunkIndependence | C/arbitrator/iface.c:1319-1440 | for bytes of known opcodes, any division into chunks with transaction calls in between gives at any time a part of the same replies and, once nothing moves, the same configuration, replies and leftover bytes |
| Schedules.RunSettles | C/arbitrator/iface.c:1319-1440 | whatever has happened, the line can still settle only where delivering everything at once would have led |
| Schedules.CallsDrain | C/arbitrator/iface.c:1456-1459 | enough calls do drain what has arrived |
| Schedules.IndependentIffOpcodesKnown | C/arbitrator/iface.c:1368-1373 | the replies to a byte string are independent of chunks and calls exactly if no unknown opcode comes up at the start of a transaction |
| Schedules.UnknownAnsweredOften | C/arbitrator/iface.c:1368-1373 | otherwise some division into chunks draws as many error replies as one likes, since the opcode is neither committed nor rolled back |
| Schedules.DrainedInParts | C/arbitrator/text_queue_in.c:38-96 | draining a part first and the rest later comes to the same |
| Schedules.CallAllOrNothing | C/arbitrator/iface.c:1319-1440 | one call: only a completed transaction changes the configuration or gives up bytes; otherwise all bytes stay, and the read pointer goes back to the start, but after an unknown opcode, answered with 2, it stays four bytes on; replies are only added, just for these two |
| Ifaces.Iface.Transact | C/arbitrator/iface.c:1319-1440 | the imperative transaction routine on queue and configuration does just what the line model says; an incomplete transaction leaves configuration and bytes as they were and the read pointer at the start |
| Ifaces.Iface.DeviceWrite | C/arbitrator/iface.c:1037-1053 | a write to the device queues the bytes and tries one transaction |
| Ifaces.Iface.Attempt | C/arbitrator/iface.c:1338-1423 | opcode, parameters and handler, up to the return code |
| Ifaces.Iface.LookUp | C/arbitrator/iface.c:1356-1373 | binary search in the operation table |
| Ifaces.Iface.ReadParam | C/arbitrator/iface.c:537-900 | read_param_type on the queue answers what the bytes say, for every type |
| Ifaces.Iface.ReadParams | C/arbitrator/iface.c:1376-1401 | the parameters of a record, one at a time |
| Ifaces.Iface.ReadInt | C/arbitrator/iface.c:350-373 | read_int |
| Ifaces.Iface.ReadPorts | C/arbitrator/iface.c:744-779 | the port range loop |
| Ifaces.Iface.ReadFilter | C/arbitrator/iface.c:694-806 | the IP filter loop |
| Ifaces.Iface.ReadPoints | C/arbitrator/iface.c:808-856 | the points loop |
| Ifaces.Iface.ReadStates | C/arbitrator/iface_handlers.c:292-326 | the loops that read state references below the number of states |
| Ifaces.Iface.ReadTable | C/arbitrator/iface_handlers.c:328-344 | the double loop that reads the probabilities |
| Ifaces.Iface.WriteAllRows | C/arbitrator/iface_handlers.c:352-358 | the double loop that writes the probabilities, row by row |
| Ifaces.Iface.SetMoveProbs | C/arbitrator/iface_handlers.c:269-368 | set_move_probs: reads its three lists, gives up at an index out of range, else writes |
| Ifaces.Iface.NewState | C/arbitrator/iface_handlers.c:209-265 | new_state widens every row by a zero and adds a state that only moves to itself |
| Configs.NewStateMeaning | C/arbitrator/iface_handlers.c:209-265 | the added state neither drops nor delays and moves to itself with probability 1; every other state keeps its row, with a zero more |
| Configs.NewChainMeaning | C/arbitrator/iface_handlers.c:172-207 | a new chain has no state, no address filter and every protocol and TOS bit set |
| Configs.WithKindMeaning | C/arbitrator/iface_handlers.c:609-642 | choosing a delay type gives a fresh function of that type, except that an exponential one stays as it is |
| Ifaces.Iface.RunHandler | C/arbitrator/iface_handlers.c:172-776 | each handler edits the configuration and answers as specified; NoSuchChain, StateAnswers, MoveProbsAnswer and OthersAnswer say which codes these are |
| Protocol.NoSuchChain | C/arbitrator/iface_handlers.c:172-776 | a chain out of range is answered 3, and nothing changes |
| Protocol.StateAnswers | C/arbitrator/iface_handlers.c:583-756 | a handler on a state answers 3 if there is no such state, 4 if its delay function is of another type, and 0 otherwise |
| Protocol.MoveProbsAnswer | C/arbitrator/iface_handlers.c:269-368 | set_move_probs answers 3 without a change if an index is out of range, and 0 otherwise |
| Protocol.OthersAnswer | C/arbitrator/iface_handlers.c:172-776 | all other handlers answer 0, and new_chain and new_state the index of what they made |
| Ifaces.Iface.WriteReply | C/arbitrator/iface.c:952-1001 | the return value and the out parameters are sent |
| Ifaces.Iface.constructor | C/arbitrator/iface.c:1230-1278 | a connection starts from the configuration in use and the last chain and state of the connection before, with an empty queue |
| Translator.TablesAgree | perl/compiler/IP/Noise/C/Translator.pm:52-171 | the translator and the arbitrator agree on opcode and parameters of every transaction but two: delete_state and delete_chain are unknown to the arbitrator |
| Translator.WithoutHandlerUnknown | perl/compiler/IP/Noise/C/Translator.pm:52-171 | so these two meet no handler, whatever parameters follow: their bytes are among those that IndependentIffOpcodesKnown excludes |
| Translator.WithoutHandlerUnbounded | C/arbitrator/iface.c:1368-1373 | what is answered to them depends on how the bytes arrive: no reply string bounds the replies |
| Translator.DeleteStateUnknown | perl/compiler/IP/Noise/C/Translator.pm:159-164 | the bytes of the two opcodes, as concrete inputs with an unknown opcode |
| Translator.PlainArrives | perl/compiler/IP/Noise/C/Translator.pm:289-417 | a packed transaction reaches its handler with the parameters as meant and leaves the bytes behind it |
| Translator.MoveProbsArrive | perl/compiler/IP/Noise/C/Translator.pm:377-412 | set_move_probs arrives with its lists and writes just the declared probabilities |
| Translator.SourceRefused | C/arbitrator/iface_handlers.c:292-326 | a source that is no state is answered 3 and changes nothing; the rest of the lists is not read, so it comes up as the next transactions |
| Translator.DestRefused | C/arbitrator/iface_handlers.c:309-326 | a destination that is no state, likewise |
| Translator.AllRoundTrip | perl/compiler/IP/Noise/C/Translator.pm:310-417 | the parameters of a transaction in a row |
| Translator.UnpackPacked | perl/compiler/IP/Noise/C/Translator.pm:188-197 | the translator reads an int of the arbitrator back, modulo 2 to the 32nd |
| Translator.ReplyRead | perl/compiler/IP/Noise/C/Translator.pm:188-197 | a reply of 0 with its out parameters is read by the translator as a success with these |
| Loader.LoadArbitrator | perl/compiler/IP/Noise/C/Translator.pm:441-864 | the bytes of load_arbitrator, in any chunks: once nothing moves the connection has ended, no byte is left, every transaction was answered with 0, and the configuration is the declared one, matrices and filters included; in front is the first declared default chain, or, if there is none, one state that lets everything pass |
| Loader.LoadSent | perl/compiler/IP/Noise/C/Translator.pm:441-864 | every transaction of the loading is answered, and the first int the translator reads of each answer is 0; the chains are those declared |
| Loader.AnsweredInARow | perl/compiler/IP/Noise/C/Translator.pm:420-437 | of transactions sent one after the other each answer is 0 followed by its out parameters, as the translator reads them |
| Loader.ChainSent | perl/compiler/IP/Noise/C/Translator.pm:489-857 | loading one chain adds just that chain as declared |
| Loader.DefaultFirst | perl/compiler/IP/Noise/C/Translator.pm:454-487 | the chain sent first is the first declared default chain, in whatever order the chains come; only if none is declared it is the built-in one, with one state that never drops or delays and only moves to itself and with no filter; of the others just the non-default ones are sent |
| Loader.OthersInOrder | perl/compiler/IP/Noise/C/Translator.pm:454-487 | behind it come exactly the chains that are no default chain, each once and in their order |
| Loader.IsDefaultMeaning | perl/compiler/IP/Noise/C/Translator.pm:456-460 | a default chain is one called default, in any mix of upper and lower case |
| Loader.BodyEffect | perl/compiler/IP/Noise/C/Translator.pm:518-857 | the transactions of one chain build the declared chain |
| Loader.StatesEffect | perl/compiler/IP/Noise/C/Translator.pm:518-637 | the states arrive with probabilities, delay function, time factor and stable probability as declared |
| Loader.MovesEffect | perl/compiler/IP/Noise/C/Translator.pm:813-857 | entry (id of s, id of d) of the matrix is the declared probability of moving from s to d, in whatever order the states are listed |
| Loader.SetEffect | perl/compiler/IP/Noise/C/Translator.pm:675-756 | after the protocol or TOS transactions a bit is set exactly if the declaration lets the number pass |
| Loader.LengthEffect | perl/compiler/IP/Noise/C/Translator.pm:758-811 | the packet length limits arrive as declared |
| Loader.EffectsSent | perl/compiler/IP/Noise/C/Translator.pm:289-437 | transactions sent one after the other leave what their effects say |
| Loader.SentInARow | perl/compiler/IP/Noise/C/Translator.pm:289-437 | transactions accepted one by one are carried out alike when their bytes come in a row |
| Loader.RowsWritten | C/arbitrator/iface_handlers.c:352-358 | distinct rows are written each by itself and nothing else changes |
| Loader.RowWritten | C/arbitrator/iface_handlers.c:352-358 | distinct columns each get their probability and nothing else changes |
| MoveTos.ParseMoveTo | perl/compiler/IP/Noise/C/Parser.pm:184-286 | probabilities over 1 or a state named twice are refused at the first such line; otherwise the missing probability goes to the state itself and the sum is 1 |
| MoveTos.Complete | perl/compiler/IP/Noise/C/Parser.pm:268-282 | the completion, with or without an entry for the state itself |
| MoveTos.RowIsDistributionIff | perl/compiler/IP/Noise/C/Parser.pm:184-286 | the completed row sums to 1 in the matrix exactly if every state that may be moved to is spelled as declared |
| MoveTos.RowSumAndLost | perl/compiler/IP/Noise/C/Translator.pm:837-844 | what a row of the matrix lacks is what went to names that are no state's |
| MoveTos.CaseMatters | perl/compiler/IP/Noise/C/Parser.pm:284-285 | a concrete row that loses its probability because of the case of a letter |
| MoveTos.LcMeaning | perl/compiler/IP/Noise/C/Parser.pm:233-276 | names are one to the parser exactly if they differ in case only |
| Ports.ParsePortList | perl/compiler/IP/Noise/C/Parser.pm:809-913 | the ranges hold exactly the listed ports, or all if none is listed, in order, apart, and within what the line carries |
| Ports.EncodePorts | perl/compiler/IP/Noise/C/Parser.pm:881-913 | the run-length encoding: sorted, disjoint, maximal ranges whose union is the selected set |
| Ports.MarkPorts | perl/compiler/IP/Noise/C/Parser.pm:821-879 | a port is marked exactly if some item names it |
| Ports.EncodingUnique | perl/compiler/IP/Noise/C/Parser.pm:881-907 | no other list of separated ranges holds the same ports |
| Rows.SwitchChain | C/arbitrator/switcher.c:183-224 | the state whose cumulative interval holds the draw is picked; beyond the sum the state stays |
| Rows.OneInterval | C/arbitrator/switcher.c:208-223 | at most one interval holds a draw, and never that of a state of probability 0 |
| Markov.LoadedChainMoves | C/arbitrator/switcher.c:183-224 | in a chain loaded from a completed declaration every draw picks exactly one state, of positive probability, and it is the one switch_chain goes to |
| Markov.LoadedRowSum | C/arbitrator/switcher.c:208-223 | the row adds up to what the parser's probabilities for it add up to |
| Switchers.Switcher.Poll | C/arbitrator/switcher.c:294-342 | the poll ends; the queue holds one event per chain before and after, every state index is in range, no chain is left with an event earlier, in microseconds, than the clock reading at the start, and each switch in between was of a chain whose event was due and the earliest of all, by its draw |
| Switchers.Switcher.SwitchFirst | C/arbitrator/switcher.c:322-334 | one round switches the chain whose event is the earliest, in microseconds, and makes the number of chains due smaller |
| Switchers.Switcher.Reinit | C/arbitrator/switcher.c:129-181 | after a change of configuration every chain is in its first state with one event |
| Switchers.Switcher.NewSwitchTime | C/arbitrator/switcher.c:260-290 | the new event is never before the time of the poll, though a sum of 1000000 microseconds is not carried |
| Times.After | C/arbitrator/switcher.c:276-282 | adding milliseconds with the carry test as written |
| Times.BeforeIsEarlier | C/arbitrator/delayer.c:24-55 | between times of less than 1000000 microseconds the comparison is that of the microseconds since the epoch; a kept 1000000 comes before the whole second it is equal to, and nothing else goes wrong |
| Times.AfterCarries | C/arbitrator/switcher.c:276-282 | a sum keeps 1000000 microseconds exactly if it comes to just as many |
| Switchers.FewerDue | C/arbitrator/switcher.c:320-339 | the measure that ends the poll |
| Filters.IsInIpFilter | C/arbitrator/packet_logic.c:121-187 | an address and port pass exactly if some specification of the list admits them, or there is no list |
| Filters.ShiftComparesBits | C/arbitrator/packet_logic.c:161-164 | comparing after the shift compares exactly the upper bits |
| Filters.AddressBit | C/arbitrator/packet_logic.c:151-164 | each bit of an address comes from its byte, the fourth byte holding the lowest ones |
| Filters.BitsMakeByte | C/arbitrator/packet_logic.c:151-164 | and the bits make up the byte |
| Filters.BlockOfBytes | C/arbitrator/packet_logic.c:151-164 | so with a mask of 8, 16 or 24 the first three, two or one bytes are compared |
| Filters.IsInChainFilter | C/arbitrator/packet_logic.c:194-301 | a packet suits a chain exactly if source, destination, TOS, protocol and length all do |
| Declared.LengthLineMeantIff | perl/compiler/IP/Noise/C/Parser.pm:550-643 | the length declaration the parser makes of a line agrees with the line exactly if the length is no bound of a strict comparison, since strict and non-strict ones are parsed alike |
| Declared.LengthRefusedIff | perl/compiler/IP/Noise/C/Parser.pm:1053-1073 | a length line is refused exactly if its range runs the wrong way or a bound is over 65535 |
| Declared.StrictLengthMissed | perl/compiler/IP/Noise/C/Parser.pm:612-640 | a concrete line, l < 3000, that lets a packet of length 3000 through |
| Declared.LoadedChainApplies | C/arbitrator/packet_logic.c:194-301 | a chain as loaded applies to exactly the packets its parsed declaration names |
| Declared.LoadedChainAppliesIff | C/arbitrator/packet_logic.c:194-301 | and to exactly those its source text names, except for a packet that suits all other lines and whose length is a bound of a strict comparison |
| Declared.PortsKeepTheirMeaning | C/arbitrator/packet_logic.c:149-186 | a specification admits a TCP or UDP port of a matching address exactly if its port list selected it |
| Declared.BlockDigits | C/arbitrator/packet_logic.c:151-164 | an address lies in the block of a specification exactly if all bits from the mask upwards agree |
| Delays.SplitLinearDelay | C/arbitrator/packet_logic.c:376-434 | strictly between two points at least 0.00000000001 apart the floor of the line at the mirrored draw is answered, and the mean of two nearer ones; a draw that hits a point gets the delay of the point before, and one that hits the first point what lies before the array |
| Delays.HitAnsweredIff | C/arbitrator/packet_logic.c:388-411 | a draw that hits a point is answered with the delay of that point exactly if the point before has the same; the first point is never answered |
| Delays.DocumentedCurveMissed | C/arbitrator/packet_logic.c:388-411 | on the curve of Docs/Syntax_Description.txt:106-114 a draw of 0.2, declared as 300, is answered with 500 |
| Delays.CurveDelayBounds | C/arbitrator/packet_logic.c:376-434 | any draw but 0 gets a delay, and a delay lies between those of the two points around the draw, in the guarded division too |
| Delays.InterpolatedIsMirrored | C/arbitrator/packet_logic.c:428-429 | the formula is the straight line taken at the mirrored draw |
| Delays.BetweenAnswered | C/arbitrator/packet_logic.c:414-431 | what the formula and its guard compute is the floor of the line at the mirrored draw for points at least 0.00000000001 apart, and the mean for nearer ones |
| Delays.LineIsStraight | C/arbitrator/packet_logic.c:428-429 | the line meant goes through both points with one slope |
| Delays.DocumentedCurveBetween | C/arbitrator/packet_logic.c:414-431 | on the documented curve a draw of 0.11 is answered 320 |
| Delays.InterpolatedIsLinearIff | C/arbitrator/packet_logic.c:428-429 | so it is linear interpolation exactly for equal delays or a draw half way |
| Delays.InterpolatedTheWrongWay | C/arbitrator/packet_logic.c:414-431 | a concrete draw, a quarter of the way from 20 to 500, that is answered 380 where the line gives 140 |
| Delays.StableClock | C/arbitrator/packet_logic.c:460-505 | the new release time is within a millisecond of the later of now and d after the last one, and for d of at least 1 not before the last one |
| Delays.StableClockGoesBackIff | C/arbitrator/packet_logic.c:460-505 | exactly when a release time goes back: a drawn delay of 0, the last release ahead, and a fraction of a millisecond lost |
| Delays.StableClockMayGoBack | C/arbitrator/packet_logic.c:460-505 | a concrete decision with a drawn delay of 0 that sets the release time back by half a millisecond |
| Delays.RestartedClock | C/arbitrator/packet_logic.c:449-505 | with the restart of a clock whose seconds are 0, a delay of at least 1 does not set the release time back |
| Delays.FirstDelay | C/arbitrator/packet_logic.c:449-505 | a chain that released nothing yet delays by what was drawn; any other counts from its last release |
| PacketLogics.ReleasesNeverGoBack | C/arbitrator/packet_logic.c:313-517 | along any run of a chain's decisions whose delays are stable and at least 1 the remembered release times never go back |
| PacketLogics.PacketLogic.ChainDecide | C/arbitrator/packet_logic.c:313-517 | drop, delay or accept by the draw; how long, and what is remembered as the last release |
| PacketLogics.PacketLogic.Decide | C/arbitrator/packet_logic.c:528-615 | the verdict is the rule's: one drop drops, delays add up, the first chain is asked exactly if no other processed the packet, no delay at all means accept |
| PacketLogics.OverallFollowsRule | C/arbitrator/packet_logic.c:550-595 | the accumulation over the chains follows the rule |
| PacketLogics.OrderDoesNotMatter | C/arbitrator/packet_logic.c:550-595 | for given verdicts the order of the chains does not matter |

## Left out

- RwLock.RwLockStruct.TestDownRead: a condition wait that fails, after which the source leaves without the lock, is not modelled; the mutex and the condition variables are the steps of the protocol model, and a call takes the thread that makes it as ghost parameter.
- RwLock.Progress: says that a woken waiter can enter, not that the scheduler lets it run; with arrivals without end a reader may wait for ever, as writer preference has it.
- Delayers.Delayer.DelayPacket: models the kernel build with jiffies from 1 on that do not wrap around; the user-mode build, whose loop waits on a condition variable, is not modelled.
- RedBlack.RbTree.LookupMode: on an empty tree only the exact, next, previous, first and last modes are modelled, because the others read an uninitialised variable there.
- RedBlack.RbTree.Walk: the callback is modelled as the sequence of reports it gets.
- Ifaces.Iface.RunHandler: chains, states and rows are values inside the configuration field rather than linked structures; the growth of their arrays by 16 and the names dictionaries, which follow from the names, are not modelled; the assignments of the filter and state handlers are the functions `EditFilter` and `EditState` on values.
- Ifaces.Iface.ReadFilter: an empty list, which leaves a specification that was never filled in, ends the model, as do the exits on unknown selectors and writes through an index of -1.
- Ifaces.Iface.constructor: the configuration in use is a parameter, and the locked copying of it is not modelled.
- Ifaces.Iface.Transact: models the user-mode loop, which stops calling at the end of the connection; an out parameter that was never set is one fixed unknown int.
- Wire.RoundTrip: probabilities are reals that a double represents exactly; rounding and NaN are not modelled, and the machine is little-endian.
- Loader.LoadArbitrator: the order of a Perl hash is a parameter, the same for keys and values; a dropped second default chain is one that differs from the first in case only.
- MoveTos.ParseMoveTo: lines are already split into probability and name; the rounding slack of the sum is not modelled.
- Ports.ParsePortList: port items are already split into start and end.
- Filters.IsInIpFilter: needs net masks below 32, because C does not define a shift of 32 bits by 32.
- Filters.IsInChainFilter: needs a TOS byte below 64, because the mask has no more bits.
- Delays.HitAnsweredIff: needs points of different probability; where the parser lets equal ones through, `SplitLinearDelay` says which answers there are.
- Declared.LengthLineMeantIff: the line is already cut into numbers and operators.
- PacketLogics.PacketLogic.ChainDecide: the exponential delay is an input, because the logarithm is not modelled, and so are the draws, the clock, and what a draw that hits the first point finds before the array, which is taken not to be negative.
- PacketLogics.ReleasesNeverGoBack: for a clock past the first second of its count, whose seconds of 0 the source takes for a chain that released nothing yet.
- Switchers.Switcher.Poll: clock, draws and delays are inputs; the clock must not go back, and the flag that asks for a new start is the call of `Reinit`.
- The kernel build of the switcher, with one timer per chain, and of the lock, which is a plain mutex there.
- Memory: allocation always succeeds, and freeing is not modelled.
- Integers do not overflow, except where the wire format cuts them.
- The copy of the configuration taken when a connection opens and the swap when it closes.
- The outgoing text queue, the plain queue, the pipes, the device files and the packet capture.
- The header fields of a packet, read at fixed offsets.
- The Perl expressions that split source lines.
