# The kernel of an asynchronous networking framework, modelled in Dafny

The project models the parts of `src/kernel` whose correctness rests on invariants that no single
function shows, and proves them for every input and every interleaving.

- `redblack.dfy`, `rbtree.dfy`, `rbinsert.dfy`, `rberase.dfy`, `rbwalk.dfy`: the red-black tree with
  parent pointers (`rbtree.c`, `rbtree.h`). The nodes are heap objects; a ghost tree and a one-hole
  context (the path from a place up to the root) describe them, so that each state of the fix-up
  loops, which walk towards the root, is a pair of a context and a subtree.
- `timerqueue.dfy`: the deadlines of a poller (`poller.cc`): a sorted list, the tree with its cached
  ends, and one timerfd. It refines the plain set of pending nodes with their deadlines.
- `poller.dfy`: the index `nodes[]`, the three containers, the flags and the pipe, as a class whose
  methods are the critical sections of `poller.cc`.
- `pollerprotocol.dfy`: who owns a registered node, over every interleaving of callers, the poller
  thread and `poller_stop`. One terminal callback per registration; no use of a node in the current
  batch after its callback.
- `pollerpipe.dfy`: the same protocol with a pipe of bounded capacity: when a caller that sleeps on the
  full pipe, holding the mutex, can ever be released.
- `pollerend.dfy`: `poller_stop` comes to its end whoever is scheduled.
- `pollerrounds.dfy`: the loop of the poller thread, told by its history.
- `pollersteps.dfy`, `trackedpoller.dfy`, `pollerexpiry.dfy`, `polleruse.dfy`: the methods of that class are
  the steps of that protocol; a poller that carries the run it has made; one that also knows what was
  due at the last wake-up; and any sequence of steps on a new poller: what the protocol guarantees over
  all interleavings holds of the heap.
- `mpoller.dfy`: several pollers on one array (`mpoller.cc`, `mpoller.h`): a step of one leaves all others
  valid.
- `connection.dfy`, `connectionhistory.dfy`, `requests.dfy`: the client connection of `communicator.cc`,
  where several handler threads may take a connection's results out of order; what its history of
  results, sends and replies makes of each request; and any number of such connections under `request`.
- `sendpath.dfy`: iovec accounting across `send_message_sync`, `send_message_async` and
  `__poller_handle_write`.
- `deadline.dfy`: response timeout and receive budget while a reply arrives.
- `subtask.dfy`: series-parallel tasks (`subtask.cc`).
- `msgqueue.dfy`, `queueprotocol.dfy`, `queuesteps.dfy`, `queueuse.dfy`, `queueend.dfy`: the two-buffer
  message queue as linked cells, as steps under its two locks, the one as the other, any sequence of
  its sections, and everything coming out of it.
- `threadpool.dfy`: how the threads of a pool end (`thrdpool.cc`).
- `aioprotocol.dfy`, `aioservice.dfy`: the reference count of an AIO service (`ioservice_linux.cc`), as
  steps of its threads and as the object they share.
- `common.dfy`: sets and counts that the others use.

Sequential code is modelled by classes and methods with loops. Concurrent code is modelled by a state
machine: `Enabled` and `Apply` give the steps, each one critical section, atomic operation, system call
or callback of the source, and the theorems speak of all runs (`Runs`). The classes of
`trackedpoller.dfy`, `queuesteps.dfy` and `aioservice.dfy` hold their run as a ghost field: each section
is a step, and `Valid()` says that the run leads from the start to what the fields show. In `poller.dfy`
`Valid()` is the invariant that any order of its methods keeps. `dafny verify dfyconfig.toml` checks the
whole project.

## Modelling assumptions

System calls are choices with a small contract: `writev` takes any prefix of the data, though not none
of it if there is some, or fails; `epoll_wait` reports registered nodes only, each descriptor at most
once in a batch; a blocking `io_getevents` returns the event of some submitted request; clocks are
normalised, past zero, and do not run backwards.

The source is a rewrite in progress. Where a slip leaves a clear intent, the intent is modelled:

- `list_add_tail` does not update `head->prev` (`src/kernel/list.h:21-33`) and is called with `->prev`
  as the head (`src/kernel/poller.cc:803`, `src/kernel/poller.cc:807`): appending at the tail.
- The expiry loop reads `pos->next` after `pos` was linked elsewhere (`src/kernel/poller.cc:552-553`):
  the due prefix moves to a local list.
- `poller_stop` calls `list_add_list` (`src/kernel/poller.cc:1141-1142`): both lists are spliced.
- `msgqueue_put_head` tests `try_lock() == 0` and `nonblock` the wrong way round
  (`src/kernel/msgqueue.cc:65`, `src/kernel/msgqueue.cc:74`): a lock that was got is used, and waiting
  is for blocking queues.
- `communicator.cc` writes some fields with and some without a trailing underscore: one field each.

Where the code as written behaves differently from the intent in a way that can be stated exactly, both
are stated: `removed` read before the lock (`PollerProtocol.StaleReadExact`, `DoubleCallback`), a
maximum of 0 in the message queue (`QueueProtocol.FirstPutExactly`, `ZeroDeliversNothing`), a
`put_head` that waits for room (`QueueProtocol.WakesInFrontExactly`, `WakesBehind`), a write to a full
pipe under the mutex (`PollerPipe.FullPipeExactly`, `DeadlockReachable`), `handle_stop` without a
reference (`AioProtocol.UnbindExactly`, `LateReachable`), a reply to half a message
(`ConnectionHistory.SuccessEarned`, `ReplyToHalf`), and the thread count stored before
the creation loop (`ThreadPool.CreateExactly`, `DestroyNeverReturns`).

## Model

| member | source | states |
|---|---|---|
| RbTree.RotateLeft | src/kernel/rbtree.c:3-21 | At any place of a linked tree the rotation keeps nodes, sort order, parent/child agreement and everything outside the place; only two levels of shape change |
| RbTree.RotateRight | src/kernel/rbtree.c:23-41 | The mirror image, from the other link of the parent |
| RbTree.LinkNode | src/kernel/rbtree.h:47-55 | The new node hangs in red at exactly the null link that was passed, both links agree, nothing else moves |
| RbInsert.InsertColor | src/kernel/rbtree.c:43-106 | From a tree whose only broken rule is red node under red parent at the new node: all rules hold again, black root, same nodes in the same order; the loop ends because the violation climbs |
| RbInsert.FixLeft | src/kernel/rbtree.c:51-76 | Parent is a left child: after one round the tree again breaks at most the one rule at the new focus, lists the same nodes in the same order, and the focus is strictly nearer the root |
| RbInsert.FixRight | src/kernel/rbtree.c:77-102 | The mirror image |
| RbInsert.FlipColors | src/kernel/rbtree.c:55-62 | Red uncle: exactly three colours change |
| RbInsert.FlipRaises | src/kernel/rbtree.c:55-62 | ... which keeps black heights and order and moves the violation two levels up |
| RbInsert.LinkAndColor | src/kernel/rbtree.c:43-106 | Linking at any null link and fixing up: the node appears at that place of the order, the rules hold, the node set grows by it |
| RbErase.SiblingExists | src/kernel/rbtree.c:113-118 | Wherever the erase fix-up still has work, the sibling is a real node (and has two children if red), so its fields may be read |
| RbErase.EraseColor | src/kernel/rbtree.c:108-198 | From a tree with one subtree short of a black node: all rules hold again, order kept; the loop ends |
| RbErase.RedSiblingLeft | src/kernel/rbtree.c:118-124 | Red sibling: recolour and rotate give a black sibling, one level further down, deficit unchanged |
| RbErase.RedSiblingRight | src/kernel/rbtree.c:158-164 | The mirror image |
| RbErase.BlackNephews | src/kernel/rbtree.c:125-133 | No red nephew: recolouring the sibling moves the deficit one level up |
| RbErase.NearNephewLeft | src/kernel/rbtree.c:136-145 | Only the near nephew is red: one rotation at the sibling makes the far one red |
| RbErase.NearNephewRight | src/kernel/rbtree.c:176-185 | The mirror image |
| RbErase.FarNephewLeft | src/kernel/rbtree.c:146-152 | Red far nephew: the last rotation removes the deficit |
| RbErase.FarNephewRight | src/kernel/rbtree.c:186-192 | The mirror image |
| RbErase.EraseInner | src/kernel/rbtree.c:209-252 | Two children: the successor takes over the place of the erased node; order is the old one without it; a black height may be short only where the successor was. The successor has a parent (its result is not nullable), so the root branch at line 230 is dead |
| RbErase.EraseOuter | src/kernel/rbtree.c:254-267 | At most one child: the child is spliced in; order is the old one without the node; a black height is short there exactly when a black node went |
| RbErase.Erase | src/kernel/rbtree.c:200-272 | Erasing any node of a valid tree gives a valid tree (links, colours, black heights, black root) whose sequence is the old one with exactly that node removed |
| RbWalk.First | src/kernel/rbtree.c:277-287 | The first node of the in-order sequence, or null for the empty tree |
| RbWalk.LastOf | src/kernel/rbtree.c:289-299 | The last node of the in-order sequence, or null |
| RbWalk.Next | src/kernel/rbtree.c:301-322 | The next node of the in-order sequence, or null at its end |
| RbWalk.Prev | src/kernel/rbtree.c:324-341 | The previous node of the in-order sequence, or null at its start |
| RbWalk.NextPrevInverse | src/kernel/rbtree.c:301-341 | rb_next and rb_prev are inverse to each other on the nodes of a tree |
| RbWalk.HeightBound | src/kernel/rbtree.c:43-106 | A tree that obeys the rules is at most 2*log2(n+1) high |
| RbTree.ReplaceChild | src/kernel/rbtree.c:259-267 | The link that pointed to one node, from its parent or the root, points to another; the place then holds the other subtree |
| RbErase.Successor | src/kernel/rbtree.c:213-215 | The leftmost node of the right subtree, at its place |
| RbErase.Cut | src/kernel/rbtree.c:257-267 | A node with at most one child is replaced by that child, all links agreeing |
| RbErase.TakePlace | src/kernel/rbtree.c:234-250 | The successor takes over fields, parent link and children of the erased node |
| TimerQueue.TimerQueue.Append | src/kernel/poller.cc:803-807 | The deadline list grows at its end and stays sorted |
| TimerQueue.TimerQueue.ExpireList | src/kernel/poller.cc:537-554 | The due prefix of the list leaves, all of it and nothing else |
| TimerQueue.TimerQueue.ExpireTree | src/kernel/poller.cc:556-575 | The due prefix of the tree leaves, all of it and nothing else |
| Poller.Poller.NewNode | src/kernel/poller.cc:861-896 | A fresh unflagged node with the right deadline |
| Poller.Poller.Displace | src/kernel/poller.cc:949-956 | Running: flagged and at the end of the pipe; stopped: back to the caller, unflagged |
| Poller.Poller.Replace | src/kernel/poller.cc:984-1003 | The critical section of mod |
| Poller.Poller.Retime | src/kernel/poller.cc:1038-1047 | Out of one container, a new deadline, into another |
| Poller.Poller.Accept | src/kernel/poller.cc:908-913 | A node enters its container and its slot |
| Poller.Poller.Forget | src/kernel/poller.cc:545-568 | Exactly the slots of the given descriptors become empty, exactly the timers become flagged |
| SendPath.Socket.Writev | src/kernel/communicator.cc:310-313 | The contract taken for writev: of at most IOV_MAX vectors a prefix goes out, not empty if there is data, or nothing, for the time being (EAGAIN) or for good |
| SendPath.SyncRound | src/kernel/communicator.cc:310-326 | One round: progress, or failure without a change |
| SendPath.WriteNode.WriteRound | src/kernel/poller.cc:291-314 | The same for the poller, with at most IOV_MAX vectors at a time |
| Deadline.RecvSession.SetTimeout | src/kernel/communicator.cc:1017 | The deadline is the timeout counted from now; negative means none |
| Deadline.RecvSession.Renew | src/kernel/communicator.cc:117-122 | The message starts over without a budget |
| MsgQueue.Queue.constructor | src/kernel/msgqueue.cc:119-135 | Both lists start empty |
| Poller.Poller.constructor | src/kernel/poller.cc:711-745 | A new poller is stopped, with nothing live on an empty index |
| TimerQueue.CmpIsInstantOrder | src/kernel/poller.cc:122-129 | On normalised times the field-wise comparison is the comparison of instants, both ways |
| TimerQueue.FindLink | src/kernel/poller.cc:154-161 | The descent ends at the null link between everything not later and everything later, after at most 2*log2(n+1) rounds |
| TimerQueue.TimerQueue.TreeInsert | src/kernel/poller.cc:132-171 | The tree stays sorted with equal deadlines in insertion order, and tree_first and tree_last stay its two ends |
| TimerQueue.TimerQueue.TreeErase | src/kernel/poller.cc:174-182 | Exactly this node leaves, the ends stay cached, the flag is cleared |
| TimerQueue.TimerQueue.InsertNode | src/kernel/poller.cc:796-820 | Append when the list is empty or the deadline is not before its end, tree otherwise; if the timerfd was no later than every pending deadline it stays so, and a wake-up that was pending is lost only when the timerfd guards all deadlines instead |
| TimerQueue.TimerQueue.InsertBelow | src/kernel/poller.cc:809-819 | The tree branch: rearmed exactly when the new deadline is before all others, with the same guarantee for timerfd and pending wake-up |
| TimerQueue.TimerQueue.Remove | src/kernel/poller.cc:192-196 | Exactly this node leaves list or tree; no deadline loses its guard |
| TimerQueue.TimerQueue.SetTimer | src/kernel/poller.cc:594-617 | The timerfd holds the earliest pending deadline, and is disarmed exactly when there is none |
| TimerQueue.TimerQueue.Fire | src/kernel/poller.cc:594-617 | What the kernel does with it: at that time it is disarmed and a wake-up is pending |
| TimerQueue.TimerQueue.PopFirst | src/kernel/poller.cc:569-574 | One round of tree expiry takes the first node and keeps order and cached ends |
| TimerQueue.TimerQueue.Expire | src/kernel/poller.cc:537-575 | Exactly the nodes due by now leave, each once, as a prefix of the list and a prefix of the tree; what stays is later and sorted |
| TimerQueue.TimerQueue.TakeAll | src/kernel/poller.cc:1133-1141 | Taking the tree apart root by root and emptying the list yields every pending node once |
| Poller.DeadlineExact | src/kernel/poller.cc:822-830 | The deadline is normalised and exactly `timeout` milliseconds after the clock |
| Poller.TimerDeadlineExact | src/kernel/poller.cc:1069-1075 | The same for timers, for normalised values |
| Poller.Route | src/kernel/mpoller.h:20-40 | The index is in range, and for a descriptor in range of `int` that is not negative the unsigned conversion changes nothing: it is the remainder of the descriptor itself |
| Poller.ForeignSlots | src/kernel/mpoller.cc:9-33 | The pollers share one array: what one of them writes to the slots routed to it leaves the index of every other as it was |
| Poller.EachSlotOnce | src/kernel/mpoller.h:20-40 | The pollers divide the descriptors: the node in a filled slot is live in the poller its descriptor is routed to, and in no other |
| MPoller.MPoller.constructor | src/kernel/mpoller.cc:35-53 | One array of empty slots, one valid poller for each thread, at least one |
| MPoller.MPoller.Add | src/kernel/mpoller.h:20-24 | mpoller_add fills exactly the slot of the descriptor and makes exactly the new node live; every poller, the one it goes to and all others on the array, is valid afterwards |
| MPoller.MPoller.Del | src/kernel/mpoller.h:26-29 | mpoller_del empties exactly the slot of the descriptor, of whichever poller has it; every poller stays valid |
| MPoller.MPoller.Mod | src/kernel/mpoller.h:31-35 | mpoller_mod replaces exactly the node of the slot; every poller stays valid |
| MPoller.MPoller.SetTimeout | src/kernel/mpoller.h:37-40 | mpoller_set_timeout leaves slots and live nodes as they are; every poller stays valid |
| MPoller.MPoller.AddTimer | src/kernel/mpoller.h:42-48 | The timer is live in the poller whose index comes back, and in no other |
| MPoller.MPoller.DelTimer | src/kernel/mpoller.h:50-52 | With that index the timer is found exactly if it is not flagged; every poller stays valid |
| MPoller.MPoller.RemoveNode | src/kernel/poller.cc:185-201 | A handler in the thread of one poller ends a node: its slot, and nothing of any other poller, changes |
| MPoller.MPoller.HandleTimeout | src/kernel/poller.cc:530-575 | Expiry in the thread of one poller takes nodes of this poller only; every poller stays valid |
| MPoller.MPoller.Stop | src/kernel/poller.cc:1127-1155 | Stopping one poller leaves the nodes of every other where they are |
| MPoller.MPoller.StopAll | src/kernel/mpoller.cc:72-77 | After mpoller_stop no node is live anywhere and every slot of the shared array is empty |
| Poller.Poller.Add | src/kernel/poller.cc:898-926 | EBADF below zero, EMFILE from max_open_files on, EEXIST on a filled slot, the error of epoll if that refuses; otherwise the new node is live, in its slot, in the deadline containers exactly if it has a timeout, with the right deadline. On failure nothing changes, and no other node ever does |
| Poller.Poller.Del | src/kernel/poller.cc:928-967 | EBADF, EMFILE and ENOENT by descriptor and slot; otherwise the node leaves slot and container, and goes into the pipe and is flagged while the poller runs, back to the caller otherwise |
| Poller.Poller.Mod | src/kernel/poller.cc:969-1020 | EBADF, EMFILE, ENOENT on an empty slot, the error of epoll if that refuses; otherwise a new node takes slot and place and the displaced one goes as for del. Nothing changes on failure |
| Poller.Poller.SetTimeout | src/kernel/poller.cc:1022-1053 | EBADF, EMFILE and ENOENT by descriptor and slot; otherwise exactly this node gets the new deadline and the container that asks for; live nodes, index and all other deadlines stay |
| Poller.Poller.AddTimer | src/kernel/poller.cc:1055-1086 | A timer is live, pending, without a slot, with the right deadline |
| Poller.Poller.DelTimer | src/kernel/poller.cc:1088-1114 | Found exactly when it is not flagged; then it leaves its container and is flagged |
| Poller.Poller.RemoveNode | src/kernel/poller.cc:185-201 | In one critical section: true exactly for a node that del or mod has put into the pipe, which is left alone; otherwise the node leaves slot and container |
| Poller.Poller.HandlePipe | src/kernel/poller.cc:511-527 | All that was written comes back in order, once, and none of it is live |
| Poller.Poller.HandleTimeout | src/kernel/poller.cc:530-575 | Exactly the due nodes leave; slots of expired descriptors are empty, expired timers are flagged, all other slots are untouched |
| Poller.Poller.Stop | src/kernel/poller.cc:1123-1155 | Pipe, tree and both lists come back, each node once; no slot of this poller stays filled |
| Poller.Poller.SetTimer | src/kernel/poller.cc:594-617 | Before the poller thread waits, the timerfd holds the earliest pending deadline; nothing else changes |
| Poller.Poller.TimerFires | src/kernel/poller.cc:629-631 | Running out turns the guard of the timerfd into a pending wake-up; the invariant stays |
| Poller.Poller.Wake | src/kernel/poller.cc:629-633 | epoll_wait returns; the thread, no longer waiting, is the one that will look at deadlines and arm the timer again |
| Poller.Poller.NoLostTimeout | src/kernel/poller.cc:629-673 | In every reachable state in which the poller thread waits: for each pending deadline the timerfd is armed no later than it, in nanoseconds, or a wake-up is already pending |
| Poller.Poller.DueInTime | src/kernel/poller.cc:122-129 | In every reachable state the field-wise test for expiry of a pending node is the comparison in nanoseconds |
| Poller.Poller.Evict | src/kernel/poller.cc:940-956 | The node of a filled slot leaves slot and container and goes into the pipe or back to the caller |
| Poller.Poller.ExpireLive | src/kernel/poller.cc:537-575 | Exactly the due nodes leave the containers; deadlines of the others stay normalised and guarded |
| Poller.Poller.Unplace | src/kernel/poller.cc:984-987 | The node leaves its container, whichever of the three it is in, and only that; no deadline is lost |
| Poller.IndexInsert | src/kernel/poller.cc:906-913 | Filling the empty slot of a new node keeps the agreement of index and containers |
| Poller.IndexDelete | src/kernel/poller.cc:939-946 | Emptying the slot of a node that leaves keeps it |
| Poller.IndexForget | src/kernel/poller.cc:545-567 | Emptying the slots of any set of leaving nodes keeps it |
| PollerProtocol.StepKeeps | src/kernel/poller.cc:619-677 | Every step of callers, poller thread and poller_stop keeps: each accepted node has exactly one owner (container, pipe, poller thread, caller, or its one callback), index and flags agree, the rest of the batch is owned by containers or pipe |
| PollerProtocol.AtMostOnce | src/kernel/poller.cc:928-1171 | Over every run no node gets two terminal callbacks or one without having been accepted, and none while it is in a container, in the pipe or held by a caller |
| PollerProtocol.BatchSafe | src/kernel/poller.cc:635-671 | Over every run, no node still to be visited in the current epoll batch has been given to a callback or is on its way to one; it is live exactly if not flagged |
| PollerProtocol.ExactlyOnce | src/kernel/poller.cc:1116-1171 | When containers, pipe and all hands are empty, every node ever accepted has had exactly one terminal callback |
| PollerProtocol.StopCompletes | src/kernel/poller.cc:1116-1171 | From every reachable state poller_stop can be called and come to its end, and then every accepted node has had exactly one callback |
| PollerEnd.RunsAreBounded | src/kernel/poller.cc:1116-1171 | Once poller_stop has begun, a run of any threads in any order is no longer than an explicit measure of what is left, plus five for each further request of a caller, if epoll_wait reports a pipe that is not empty |
| PollerEnd.StopEnds | src/kernel/poller.cc:1116-1171 | ... and where nothing but new requests can happen any more, poller_stop is over, pipe and hands are empty, and every node accepted before has had exactly one callback |
| PollerProtocol.DrainKeeps | src/kernel/poller.cc:1127-1153 | The final drain keeps the invariant and empties the whole index |
| PollerProtocol.ReadPipeKeeps | src/kernel/poller.cc:517-525 | Reading any part of the pipe moves ownership to the poller thread, node by node |
| PollerProtocol.StaleReadExact | src/kernel/poller.cc:185-201 | As written, with `removed` read before the lock: the critical section keeps the invariant if and only if the value read is still right |
| PollerProtocol.StaleTwiceExactly | src/kernel/poller.cc:185-201 | Over whole runs, in any reachable state: going on with the value read can lead to a second callback of the node, even if all other reads are fresh, if and only if that value is no longer right |
| PollerProtocol.FreshRunIsSafe | src/kernel/poller.cc:187-190 | A run of the code as written without a del or mod between read and lock is a run of the one-section form |
| PollerProtocol.DoubleCallback | src/kernel/poller.cc:187-190 | A concrete run of the code as written, for every descriptor, in which one node gets two callbacks |
| PollerPipe.FullPipeExactly | src/kernel/poller.cc:949-956 | A caller that sleeps in write on a full pipe, with the mutex, can be released if and only if the poller thread is on its way to the pipe: in epoll_wait, or in a batch that contains the pipe event and not about to take the mutex |
| PollerPipe.DeadlockReachable | src/kernel/poller.cc:949-956 | For every capacity of the pipe there is a run, within that capacity, after which the next poller_del sleeps for ever |
| PollerSteps.Create | src/kernel/poller.cc:711-745 | A new poller shows the initial state of the protocol |
| PollerSteps.AddStep | src/kernel/poller.cc:898-926 | poller_add on the real slots, lists and flags is the protocol step Add for a fresh node, or no step when it fails |
| PollerSteps.DelStep | src/kernel/poller.cc:928-967 | poller_del is the step Del, whatever the descriptor |
| PollerSteps.ModStep | src/kernel/poller.cc:969-1020 | poller_mod is the step Mod, or no step when it fails |
| PollerSteps.SetTimeoutStep | src/kernel/poller.cc:1022-1053 | poller_set_timeout changes nothing the protocol sees, and succeeds exactly for a filled slot |
| PollerSteps.AddTimerStep | src/kernel/poller.cc:1055-1086 | poller_add_timer is the step AddTimer |
| PollerSteps.DelTimerStep | src/kernel/poller.cc:1088-1114 | poller_del_timer on any timer not yet called back is the step DelTimer, which finds it exactly if it is not flagged; that an unflagged one is still in its container follows from the invariant of the protocol |
| PollerSteps.RemoveStep | src/kernel/poller.cc:185-201 | __poller_remove_node is the step Remove of the handler that is at this node; that the node is still in a container or in the pipe follows from the invariant of the protocol |
| PollerSteps.HandlePipeStep | src/kernel/poller.cc:511-527 | Reading the pipe is the step ReadPipe; what comes back is what the thread has to report, in order |
| PollerSteps.HandleTimeoutStep | src/kernel/poller.cc:530-576 | Expiry by deadlines in list and tree is a step Expire of exactly the nodes it returns |
| PollerSteps.StopStep | src/kernel/poller.cc:1127-1155 | The last section of poller_stop is the step Drain; what it returns is what it now has to call back |
| PollerSteps.JoinStep | src/kernel/poller.cc:1124-1125 | The join and the flag after it are the step Join |
| PollerSteps.StartStep | src/kernel/poller.cc:775-793 | poller_start is the step Start |
| PollerSteps.ArmStep | src/kernel/poller.cc:629-631 | Setting the timer and going to wait is the step Arm, after which the timerfd guards every pending deadline |
| PollerSteps.WakeStep | src/kernel/poller.cc:631-633 | The return of epoll_wait is the step Wait, with whatever batch |
| PollerSteps.PlainStep | src/kernel/poller.cc:635-671 | All other steps of the threads touch no slot, list, flag or deadline |
| TrackedPoller.Tracked.constructor | src/kernel/poller.cc:711-745 | A new poller, with no node named and the empty run, on fresh objects |
| TrackedPoller.Tracked.Add | src/kernel/poller.cc:898-926 | Extends the run by the step Add, and the names by the new node, which is live; by nothing when it fails. The other methods say in the same way what becomes of run and names |
| TrackedPoller.Tracked.Remove | src/kernel/poller.cc:185-201 | Extends the run by the step Remove, from any state that a run can reach; all names stay |
| TrackedPoller.Tracked.Stop | src/kernel/poller.cc:1127-1155 | Extends the run by the step Drain; all names stay |
| TrackedPoller.Tracked.Always | src/kernel/poller.cc:619-677 | In every state that calls of its methods lead to: a node of the real poller has had at most one terminal callback, none while it is live, and no pending deadline can pass unnoticed while the thread waits |
| TrackedPoller.Tracked.AfterStop | src/kernel/poller.cc:1116-1171 | After the drain and the callbacks every node that was ever registered has had exactly one |
| PollerExpiry.Timed.Wake | src/kernel/poller.cc:631-633 | epoll_wait returns and the clock is read: what is pending and due by it is owed an expiry |
| PollerExpiry.Timed.HandleTimeout | src/kernel/poller.cc:673 | Expiry uses the clock of the wake-up, and nothing that is owed stays pending |
| PollerExpiry.Timed.SetTimeout | src/kernel/poller.cc:1022-1053 | Only a new deadline from a caller takes a node off what is owed |
| PollerExpiry.Timed.Proceed | src/kernel/poller.cc:635-673 | No way through the loop, with or without the pipe event, leads to the next wait past the expiry |
| PollerExpiry.Timed.NothingOverdue | src/kernel/poller.cc:629-674 | In every state that calls lead to: when the thread waits again, or is about to, no node that was pending at the last wake-up and due by its clock is still pending, unless it has a new deadline |
| PollerRounds.InTurn | src/kernel/poller.cc:629-677 | Over every run: a batch ends, or the pipe is read, after each reported event has been looked at in order, by whether the pipe was reported; the thread waits only after that and after expiry; a handler ends the node it was called for, with a flag that is right if nobody has touched the node since it was read |
| PollerUse.Take | src/kernel/poller.cc:619-677 | Any step of callers, poller thread, kernel timer or poller_stop: taken exactly if it can be, with just its own action added to the run |
| PollerUse.Use | src/kernel/poller.cc:711-1171 | Any sequence of such steps on a new poller, of any length: no node has had two terminal callbacks, no live node one, and nothing overdue is left when the thread waits |
| Connection.StepKeeps | src/kernel/communicator.cc:518-589 | Every step of callers, poller thread and handlers keeps: ref equals the owners, each session is in one place, state, registration, reply and idle list fit together |
| Connection.ReleasedOnce | src/kernel/communicator.cc:580-588 | Over every run the entry is released at most once; before that ref is the number of owners, afterwards no step touches the entry |
| Connection.DirectReleaseIsLast | src/kernel/communicator.cc:786-789 | The failure path of a connect releases without counting down, and is then the only owner |
| Connection.HandledOnce | src/kernel/communicator.cc:580-584 | Over every run each session is released to its target and handled at most once, never if it was not accepted, and exactly once by the time the entry is released |
| Connection.OneReplyAtATime | src/kernel/communicator.cc:984-999 | A complete reply never meets an unresolved earlier one; until it is queued the state stays Success, the entry stays out of the idle list and no handler can take a result of this connection; the handler that resolves it has read the right session; an idle connection owes nothing |
| Connection.EndReached | src/kernel/communicator.cc:518-589 | From every reachable state the connection can come to its release with every accepted session handled exactly once |
| Connection.RunsAreBounded | src/kernel/communicator.cc:518-589 | Whatever threads do in whatever order, a run is no longer than an explicit measure of what is left, plus 114 for each time a caller takes the idle connection |
| Connection.QuietIsReleased | src/kernel/communicator.cc:580-588 | ... and where no step is left but a new request, the connection has been released and every accepted session handled exactly once |
| ConnectionHistory.Verdicts | src/kernel/communicator.cc:518-589 | Over every run, session->handle says exactly how the request ended: success if and only if a complete reply was stored for it, and otherwise error or stopped by what failed first: the connect, the sending, a registration, the reading |
| ConnectionHistory.SuccessEarned | src/kernel/communicator.cc:656-791 | Who is told of success had the connect FINISHED and the whole message written, unless mpoller_mod had answered ENOENT to half of it |
| ConnectionHistory.ReplyToHalf | src/kernel/communicator.cc:402-405 | That exception can be reached, for any two sessions |
| ConnectionHistory.SentInTurn | src/kernel/communicator.cc:742-791 | A message is sent only after the connect has FINISHED, a read registered only after the whole message is out, for a request that has not ended |
| ConnectionHistory.ListedIsKept | src/kernel/communicator.cc:530-538 | On the idle list only if the last complete reply had a keep-alive timeout other than 0, and still registered for reading if nothing has happened to that |
| ConnectionHistory.KeptIsListed | src/kernel/communicator.cc:530-538 | A reply with another timeout than 0, resolved before the connection ended, puts it on the idle list, and the next caller can take it |
| ConnectionHistory.NeverTakenAgain | src/kernel/communicator.cc:989-996 | After a reply with 0 the registration is gone before anybody hears of the reply, and the connection is never listed or taken again |
| Connection.RefCountsKeptByReader | src/kernel/communicator.cc:529-588 | Handlers of a reply and of a terminal result keep ref equal to the number of owners, in whichever order the two results are handled |
| Connection.ShapeKeptByCaller | src/kernel/communicator.cc:1349-1393 | request_idle_conn keeps the fit of all fields through every outcome of set_timeout, sending, mod and del |
| Connection.ShapeKeptByHandler | src/kernel/communicator.cc:656-791 | So do the handlers of connect, write and read results |
| Connection.ShapeKeptByPoller | src/kernel/communicator.cc:980-1019 | So do registration, its end, deletion, create_reply and a completed reply |
| Requests.MoveSound | src/kernel/communicator.cc:1418-1440 | With any number of connections and callers every session given to request stays in exactly one place |
| Requests.CalledAtMostOnce | src/kernel/communicator.cc:1418-1440 | Over every run a session is handled at most once in all, and never if request returned -1 |
| Requests.CalledExactlyOnce | src/kernel/communicator.cc:1418-1440 | When all connections are released, exactly the sessions that request did not turn away have been handled, once each |
| Requests.EndReachedByAll | src/kernel/communicator.cc:1418-1440 | From every reachable state all connections can come to be released with nobody looking for one, and then every session ever asked for was called once or turned away |
| SendPath.SkipSent | src/kernel/communicator.cc:315-323 | After a short write exactly the written bytes are skipped over the vectors |
| SendPath.SendSync | src/kernel/communicator.cc:300-327 | For any short writes: bytes out plus bytes in the last `ret` vectors are the message, so end - cnt is the unsent suffix; 0 means all is out; -1 exactly if the socket failed for good, above 0 exactly if it would block; the loop ends |
| SendPath.WriteNode.constructor | src/kernel/communicator.cc:384-398 | The asynchronous copy holds exactly the unsent suffix |
| SendPath.WriteNode.Advance | src/kernel/poller.cc:301-314 | The do-while loop skips exactly the written bytes |
| SendPath.WriteNode.HandleWrite | src/kernel/poller.cc:283-339 | Bytes out plus bytes held never change in sum; FINISHED exactly when no vector is left; failed exactly if the socket failed for good, or something went out and partial_written refused |
| SendPath.SendMessage | src/kernel/communicator.cc:425-443 | Any split between synchronous and asynchronous sending and any number of write events: bytes out plus bytes held are the encoded message; reported as sent only when exactly the message is out, as failed exactly if it did not fit or the socket failed for good |
| Deadline.TimeUsedNear | src/kernel/communicator.cc:261-262 | The C arithmetic with truncating division is within a millisecond of the true time, before and after the second wraps |
| Deadline.RecvSession.FirstTimeoutRecv | src/kernel/communicator.cc:243-253 | The first deadline is exactly the earlier of both timeouts, negative ones meaning none |
| Deadline.RecvSession.NextTimeout | src/kernel/communicator.cc:255-271 | Each later deadline is within a millisecond of min(now + response, max(now, begin + receive)); the field becomes 0 only when the deadline is the end of the budget |
| Deadline.RecvSession.Sent | src/kernel/communicator.cc:668-677 | Which budget and deadline a reply starts with |
| Deadline.RecvSession.Chunk | src/kernel/communicator.cc:1000-1018 | An incomplete chunk keeps all of the above; the first chunk of a message that started over gets the first timeout; with the field at 0 the deadline is not moved |
| Deadline.SettledStaysIdeal | src/kernel/communicator.cc:1013-1014 | A deadline that is no longer moved stays within a millisecond of what both timeouts ask for at any later chunk |
| Deadline.Receive | src/kernel/communicator.cc:980-1019 | Over a whole reply, with any chunks at which the message starts over: first the first timeout from the last chunk, then a deadline within a millisecond of min(chunk + response, max(time it was set, begin + receive)), set again at a chunk or left exactly as it was |
| SubTask.StepKeeps | src/kernel/subtask.cc:3-40 | Every round of the dispatch loop, completion, done() and count-down keeps: nleft is the number of chains that have not ended, parents are right, series are in order |
| SubTask.OnceEach | src/kernel/subtask.cc:10-14 | Over every run each task is dispatched and done at most once, and done only after its dispatch |
| SubTask.SeriesOrder | src/kernel/subtask.cc:8-14 | A task of a series is dispatched only after done() of the one before it has returned, and between the two stands just the thread that hands over |
| SubTask.DoneAfterChains | src/kernel/subtask.cc:15-19 | A parallel task gets to done() only after every task of all its chains |
| SubTask.CountCounters | src/kernel/subtask.cc:17-19 | Counting down one chain keeps nleft equal to the unended chains; it was positive; zero ends the parallel task |
| SubTask.LoopKeeps | src/kernel/subtask.cc:34-37 | A round of the dispatch loop keeps the invariant even while earlier chains end |
| SubTask.HandKeeps | src/kernel/subtask.cc:10-14 | Between done() of a task and the dispatch of the next one any other thread may act; the dispatch still keeps the invariant |
| SubTask.SmallJob | src/kernel/subtask.h:39-58 | A parallel task with one series of two is a job in the sense of these theorems |
| SubTask.HeadStarted | src/kernel/subtask.cc:34-37 | The head of the chain it dispatches has not been dispatched before |
| SubTask.RunsAreBounded | src/kernel/subtask.cc:3-40 | Every run of a finite job is finite, with an explicit bound |
| SubTask.QuietIsFinished | src/kernel/subtask.cc:3-40 | When nobody has anything left to do, every task has been dispatched and done exactly once |
| MsgQueue.Queue.Put | src/kernel/msgqueue.cc:47-54 | The linked cells hold the old sequence and the message at its end |
| MsgQueue.Queue.PutHead | src/kernel/msgqueue.cc:59-84 | When nobody comes between its sections the message is in front of all others, whichever list it goes to |
| MsgQueue.Queue.PrependGet | src/kernel/msgqueue.cc:65-71 | With get_mutex alone: in front of the get list, links, count and tail of the put side untouched |
| MsgQueue.Queue.PrependPut | src/kernel/msgqueue.cc:77-82 | With put_mutex: in front of the put list, with any get list; tail and count follow |
| MsgQueue.Queue.Take | src/kernel/msgqueue.cc:111-112 | The first message of the get list leaves |
| MsgQueue.Queue.Swap | src/kernel/msgqueue.cc:86-104 | Only with an empty get list; the sequence stays the same |
| MsgQueue.Queue.Get | src/kernel/msgqueue.cc:106-117 | When nobody comes between its sections: the first message of the sequence, or null exactly when there is none |
| QueueProtocol.Refines | src/kernel/msgqueue.cc:36-117 | Every section of every thread, seen as one sequence: put appends, get takes the front, put_head prepends when it finds room or messages in the get list, and goes behind the get list when it has waited; all else changes nothing |
| QueueProtocol.Conserved | src/kernel/msgqueue.cc:36-117 | Over every run each message has been taken, is in the queue or is in the hands of a put_head exactly as often as it was given |
| QueueProtocol.Fifo | src/kernel/msgqueue.cc:36-117 | Over every run without put_head the messages come out in the order they were put |
| QueueEnd.AllComeOut | src/kernel/msgqueue.cc:36-117 | From every reachable state of a queue that can hold a message there is a run in which everything that was ever given comes out, as often as it was given |
| QueueProtocol.WakesInFrontExactly | src/kernel/msgqueue.cc:74-81 | A put_head that had to wait for room puts its message first if and only if the get list is empty when it wakes |
| QueueProtocol.WakesBehind | src/kernel/msgqueue.cc:59-84 | A run from the empty queue, for any two messages, in which put_head is overtaken and comes second |
| QueueProtocol.FirstPutExactly | src/kernel/msgqueue.cc:49-51 | As written a queue can take its first message if and only if maxlen is positive or it does not block |
| QueueProtocol.ZeroDeliversNothing | src/kernel/thrdpool.cc:128-129 | With maxlen 0, as the thread pool asks for, no run of a blocking queue delivers anything, if msgqueue_put_head waits on a full queue that blocks, as msg_queue_put does |
| QueueProtocol.ZeroWithoutHead | src/kernel/msgqueue.cc:49-75 | With the test of msgqueue_put_head as written, no run without a put_head delivers anything |
| QueueProtocol.HeadGetsPast | src/kernel/msgqueue.cc:74-81 | ... and one put_head is enough: a run in which its message is delivered |
| QueueSteps.TrackedQueue.Put | src/kernel/msgqueue.cc:47-54 | msg_queue_put on the linked cells is the step Put |
| QueueSteps.TrackedQueue.HeadLooks | src/kernel/msgqueue.cc:62-75 | The look of msgqueue_put_head at list and count is the step HeadLooks, whose outcome is what the cells show |
| QueueSteps.TrackedQueue.HeadPrepends | src/kernel/msgqueue.cc:65-71 | Linking under get_mutex alone is the step HeadPrepends, even if the get list was emptied since the look |
| QueueSteps.TrackedQueue.HeadWrites | src/kernel/msgqueue.cc:77-82 | Linking into the put list is the step HeadWrites |
| QueueSteps.TrackedQueue.HeadWakes | src/kernel/msgqueue.cc:74-82 | ... and after a wait the step HeadWakes, with whatever get list there is by then |
| QueueSteps.TrackedQueue.GetSwaps | src/kernel/msgqueue.cc:86-104 | The swap of the two cells is the step GetSwaps |
| QueueSteps.TrackedQueue.GetTakes | src/kernel/msgqueue.cc:108-116 | Unlinking the first cell is the step GetTakes |
| QueueSteps.TrackedQueue.Always | src/kernel/msgqueue.cc:36-117 | After any interleaving of these sections msg_cnt is the length of the put list, put_tail its last message, both lists are linked, and each message is taken, queued or held as often as it was given |
| QueueUse.Use | src/kernel/msgqueue.cc:36-117 | Any sequence of these sections on a new queue, each run if it can be: count and tail are right and every message is accounted for |
| ThreadPool.StepKeeps | src/kernel/thrdpool.cc:29-89 | Every step keeps the chain: each leaver joins the one before it, the count is the number of running threads |
| ThreadPool.JoinedAtMostOnce | src/kernel/thrdpool.cc:33-41 | Over every run no thread is joined twice, none before it left, and a destroyer inside the pool never |
| ThreadPool.NobodyLeaves | src/kernel/thrdpool.cc:47-70 | No thread leaves a pool that nobody destroys unless it was asked to |
| ThreadPool.DestroyLeavesNobody | src/kernel/thrdpool.cc:72-89 | When destroy returns every thread has ended and been joined exactly once; only a destroyer inside the pool remains |
| ThreadPool.NeverStuck | src/kernel/thrdpool.cc:72-89 | The joins follow exit order and cannot wait in a circle: some thread or the destroyer can always go on |
| ThreadPool.WindingDescends | src/kernel/thrdpool.cc:29-44 | Each step of winding down lowers a bounded count |
| ThreadPool.DestroyCanReturn | src/kernel/thrdpool.cc:208-227 | From every reachable state in which a destroy has begun it can return |
| ThreadPool.CreateExactly | src/kernel/thrdpool.cc:100-132 | As written, with nthreads stored before the creation loop: once a destroy has begun, however the pool was used before, there is a run in which it returns if and only if the pool was asked for no thread |
| ThreadPool.DestroyNeverReturns | src/kernel/thrdpool.cc:83-85 | As written and with any other number, destroy never returns |
| AioProtocol.StepKeeps | src/kernel/ioservice_linux.cc:262-326 | Every step of callers, poller thread and handlers keeps: ref is the bind reference plus what is in flight, each session is in one place, event_fd, registration and io_unbind fit together |
| AioProtocol.HandledOnce | src/kernel/ioservice_linux.cc:262-287 | Over every run no session is called twice or without having been accepted; handle_unbound runs at most once, and then every accepted session has been called and no reference is left |
| AioProtocol.IncrefAlive | src/kernel/ioservice_linux.cc:318-322 | Over every run the poller thread takes a reference only while the count is positive, so a count that has come to zero never rises |
| AioProtocol.UnboundReached | src/kernel/communicator.cc:1754-1762 | From every reachable state there is a run to handle_unbound, and there every accepted session has been handled exactly once |
| AioProtocol.RunsAreBounded | src/kernel/ioservice_linux.cc:262-326 | Every run is no longer than an explicit measure of what is left, plus seven for each new request, and after the shutdown there are none |
| AioProtocol.QuietIsUnbound | src/kernel/ioservice_linux.cc:262-287 | ... and where nothing but new requests can happen, handle_unbound has run and every accepted session was handled exactly once |
| AioProtocol.UnbindExactly | src/kernel/communicator.cc:921-928 | The handler of an ERROR or STOPPED result calls handle_stop without a reference: after an io_unbind it can come later than handle_unbound if and only if that result is still on its way when io_unbind is called |
| AioProtocol.LateReachable | src/kernel/communicator.cc:1757-1760 | A run in which it does |
| AioProtocol.LateOnlyThen | src/kernel/communicator.cc:1757-1760 | Over every run in which it does, io_unbind was called while the result was on its way |
| AioService.IOService.constructor | src/kernel/communicator.cc:1729-1752 | A bound service has the one bind reference, its descriptor and no session |
| AioService.IOService.Request | src/kernel/ioservice_linux.cc:289-311 | A session is listed exactly while event_fd is open and submission works; otherwise -1, its result is -errno and nothing else changes |
| AioService.IOService.AioFinish | src/kernel/ioservice_linux.cc:313-326 | The result of the event is stored in its session, and the reference that goes with it is taken on a count that was positive |
| AioService.IOService.HandleAioResult | src/kernel/communicator.cc:898-930 | For each kind of result the whole run of steps: a finished session leaves the list, is called with the state and error of its own event, and its reference is given up; a removed registration shuts the service down; an error or a stop takes no reference along |
| AioService.IOService.ShutdownIoService | src/kernel/communicator.cc:1721-1727 | The descriptor is closed, the bind reference given up, and at zero all of decref happens |
| AioService.IOService.IoUnbind | src/kernel/communicator.cc:1754-1762 | One deletion if the registration is still there, otherwise the shutdown at once, never both |
| AioService.IOService.Decref | src/kernel/ioservice_linux.cc:262-287 | Above zero one reference less and nothing else; at zero the loop calls each listed session once, in whatever order events come, and then the service is told, when all it ever accepted have been called |
| AioService.IOService.Accounts | src/kernel/ioservice_linux.cc:262-326 | However the sections have been interleaved: the count is right, each call carried the result of its session's event, no session was called twice, handle_unbound came at most once and last, and can still be brought about |

## Left out

- Deadline.RecvSession.NextTimeout: C integers are unbounded here; the elapsed milliseconds fit into `int` as long as the poller expires connections on time.
- Poller.Route: the counter of `mpoller_add_timer` and its wrap-around are not modelled; any index it yields is in range.
- PollerProtocol.StopCompletes: writes to the pipe do not block in this module (`PollerPipe` says exactly when one that does can be released), and the final read of the pipe is taken to empty it, as its buffer is larger than a pipe.
- PollerEnd.StopEnds: `epoll_wait` is taken to report a pipe that is not empty at each call, with at most 256 events; a kernel that puts it off for a while only adds rounds.
- PollerPipe.FullPipeExactly: one pointer is one entry; poller_stop's own write is not made with the mutex and only waits with the others.
- Connection.RunsAreBounded: a registration that is live ends by a deadline, an error, a close or `poller_stop`; when that happens is not modelled.
- Connection.HandledOnce: `target->release()` and `session->handle()` are one step, as one handler always makes both calls in a row.
- AioService.IOService.HandleAioResult: like `AioFinish`, `IoUnbind`, `ShutdownIoService` and `Decref` it says what one thread does when no other comes in between; what others can do between its sections is the matter of `AioProtocol` and `Accounts`.
- Poller.Poller.Add: epoll failure is one error code, and an unknown operation (`EINVAL`) or a failed `malloc` is not modelled.
- The non-terminal results of a poller node (messages, accepted sockets, datagrams, AIO events) apart from the complete reply of a client connection.
- The server side of a connection (`handle_incoming_request`, `handle_reply_result`, `CommService::drain`): the rewrite loses a close when the service is already unbound (src/kernel/communicator.cc:344-354), so its counts would not follow the code.
- The send-side time budget: `partial_written` asks for the next timeout even when the field is already 0 (src/kernel/communicator.cc:1149-1157).
- The result values that only pass through: `error` and `errno` of results, except where a method's answer is one of them or decides something.
- `rb_replace_node`, which nothing in the kernel calls.
- The pointers of `list.h`: lists are sequences with append, remove and move-all.
- iocb layout and the `prep_*` setters, address handling, sockets, start-up of communicator and pools, `deinit`.
