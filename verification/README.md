# libuv's data structures and protocols, verified

This project models the parts of libuv 1.37 (the copy under `lib/ios/Pods/Libuv-gRPC`) that hold state machines, pointer
structures or delicate arithmetic, and proves that they do what libuv's documentation, its comments and the standards it
follows promise, and exactly when they do where they do not always. `dafny verify dfyconfig.toml` checks all of it.

What the code does by changing memory is modelled by methods that change memory: nodes are objects with the source's
fields, macros that rewrite pointers are methods that do, and each is proved against a value that describes the
structure. What runs in several threads is modelled as a state machine whose steps are the source's critical sections,
compare-and-swaps and pipe operations, and theorems are about all runs of it.

- **Thread pool** (`PoolQueue`, `PoolCrew`, `ThreadPool`, `PoolKinds`, `PoolTheorems`). The critical section of a worker, and of a
  post, as methods over the two queues, the slow-work message and the counters; then workers, condition variable,
  loops and cancellation, interleaved in every way. No work is lost, stranded, or completed twice, cancelled work never
  runs, and slow work never takes more than half of the workers.
- **Async wake-up** (`AsyncSend`, `AsyncKeeps`, `AsyncTheorems`). Any number of senders and one loop. Every send is
  answered by a callback that starts after it, and the abort in the sender cannot be reached.
- **Red-black tree** (`RbLinks`, `RbBalance`, `RbInsert`, `RbRemoveColor`, `RbRemove`, `RbWalk`). Rotations on nodes
  with parent pointers, both fix-up loops, removal with the successor taking the place of the removed node, and the
  walks. A position in a tree is a zipper: the subtree and its surroundings.
- **Splay tree** (`SplayLinks`, `SplaySteps`, `SplayShape`, `Splay`, `SplayBalance`, `SplayRuns`, `SplayNext`). Top-down
  splaying with the two side trees hung on a dummy node, the exact tree it makes, and the Balance Theorem for the turns
  of all splays of a run. Its logarithms are avoided by stating bounds as powers of two.
- **Heap and timers** (`HeapSlots`, `HeapOrder`, `TimerHeap`, `TimerSched`, `TimerPass`, `TimerBounds`,
  `TimerPromises`, `Timers`). The
  pointer heap addressed by the bits of the element count, the timers in it, and a pass whose callbacks do what they like.
  A callback is any sequence of timer commands, so what is proved holds for all callbacks, among it exactly when a pass is
  sure to end.
- **IDNA** (`Punycode`, `PunycodeRoundTrip`, `PunycodeLimits`, `PunycodeSamples`, `Utf8`, `Idna`, `IdnaHost`). The encoder and the decoder
  of RFC 3492 on unbounded numbers, their round trip, and the C code in 32-bit arithmetic over a bounded buffer, proved to
  be the ideal encoder but for what does not fit. `Decode`, in `Punycode`, follows section 6.2 of RFC 3492; the source
  has no decoder.
- **IP addresses as text** (`InetText`, `InetQuad`, `InetGrammar`, `InetAccepts`, `InetTheorems`, `Inet`). The parsers
  accept dotted quads and the addresses of section 2.2 of RFC 4291, exactly, and printers and parsers undo each other.
- **Intrusive lists and loop watchers** (`QueueRings`, `WatcherPass`, `Watchers`). The list macros on a circular list, and
  the pass over watchers whose callbacks change the list.
- **I/O watchers** (`PowerOfTwo`, `IoWatchers`) and **vectored writes** (`FsWrite`). The table of watchers in 32-bit
  arithmetic, and which bytes each call of a vectored write is handed.
- `Wrappers`, `Sequences` and `Arithmetic` hold what the others share.

Some things that the proofs brought out:

- `uv_inet_ntop` for IPv6 returns success for a size of zero, although nothing is written (src/inet.c:144,
  src/strscpy.c:7-16): see `Inet.Ntop6`. The IPv4 printer reports UV_ENOSPC.
- The test `best.len == 7` at src/inet.c:130 can never hold together with `i == 6` and `best.base == 0`, since word 6 is
  then inside the stretch that is skipped (`InetTheorems.SevenIsInside`).
- `next_power_of_two` is 0 for 0 and for everything above 2^31 (`PowerOfTwo.NextPowerOfTwo` says exactly when), so
  `maybe_resize` finds a table for lengths up to 2^31-2 and no further (`IoWatchers.RoomExactly`). `uv__io_start` admits
  one descriptor more, INT_MAX-1, with which the process aborts (`IoWatchers.NoTable`, `IoWatchers.IoLoop.Start`).
- The bound that include/uv/tree.h:50-52 gives for all operations on a splay tree is not met by runs with `SPLAY_NEXT`,
  which walks down without splaying: whatever the factor c, there is a run that takes longer than c times the operations
  times the logarithm of the size. Runs without it meet the bound, with the factor 6 (`SplayNext.BoundedExactly`).
- `heap->min` is already NULL when src/heap-inl.h:189 tests it for the last node, because `*max = NULL` has cleared it.
- A pass of `uv__run_timers` need not end when a callback arms a timer that is due at once, or when time is 2^64-1 and
  sums saturate (`TimerBounds.EndlessAtOnce`, `TimerBounds.EndlessAtMax`). It is bounded over all callbacks exactly if
  nothing is due, and over those that arm nothing with a timeout of 0 exactly if the time is below 2^64-1 or nothing is
  armed (`TimerBounds.UnboundedExactly`, `TimerBounds.MildUnboundedExactly`).
- A vectored write stops with what it has when the first iovmax buffers left are all empty, even if a later one is not:
  the kernel's result is 0 then (`FsWrite.StopsEarly`). With a kernel that takes something whenever it can, this is the
  only way to stop early (`FsWrite.AllWritten`).

## Model

| member | source | states |
|---|---|---|
| PoolTheorems.ExactlyOnce | lib/ios/Pods/Libuv-gRPC/src/threadpool.c:57-315 | After every run of submissions, worker steps, spurious wake-ups, cancellations, clean-ups and completion passes, each request is in exactly one place (a queue of the pool, a worker, a loop's completion queue, on its way there, or returned), its done callback was called at most once, with UV_ECANCELED if and only if its work never ran and with 0 if and only if it did |
| PoolTheorems.NoStrandedWork | lib/ios/Pods/Libuv-gRPC/src/threadpool.c:45-160 | After every run: slow work pending implies the slow-work message is in the queue; slow_io_work_running is the number of workers running slow work and at most (nthreads+1)/2 (PoolKinds says that this is the work submitted as slow); while a worker sleeps, there are as many awake ones as there is work to take; if there is anything a worker may take, and one worker has not exited, one is awake |
| PoolKinds.KindsApart | lib/ios/Pods/Libuv-gRPC/src/threadpool.c:63-160 | After every run: a request submitted as UV__WORK_SLOW_IO is never in the work queue itself and any other never in slow_io_pending_wq, and a worker executes a request as slow work if and only if it was submitted as slow |
| PoolKinds.SlowCap | lib/ios/Pods/Libuv-gRPC/src/threadpool.c:80-107 | After every run at most (nthreads+1)/2 workers execute requests that were submitted as slow |
| PoolKinds.SubmissionLasts | lib/ios/Pods/Libuv-gRPC/src/threadpool.c:256-266 | What a request was submitted as, and by the loop it was submitted to, it is known as in every later state of every run |
| PoolKinds.SubmitPossible | lib/ios/Pods/Libuv-gRPC/src/threadpool.c:256-266 | In every reachable state work of every kind can be submitted, by every loop |
| PoolKinds.CompletionsInOrder | lib/ios/Pods/Libuv-gRPC/src/threadpool.c:114-137 | Each loop calls done in the order in which its work ended or was cancelled: the end of work and the commit of a cancellation append to that order, a call of done takes its first, a successful cancellation takes its request out, and no other step changes it |
| PoolKinds.DoneReports | lib/ios/Pods/Libuv-gRPC/src/threadpool.c:295-315 | The call of done gives UV_ECANCELED if and only if the work never ran, to a request of that loop that has not been called yet |
| PoolTheorems.EverythingCompletes | lib/ios/Pods/Libuv-gRPC/src/threadpool.c:57-315 | A run of internal steps is no longer than the rank of its first state, and when no internal step is left and no exit was posted, done has been called exactly once for every request |
| PoolTheorems.StepRank | lib/ios/Pods/Libuv-gRPC/src/threadpool.c:57-315 | Every internal step (worker, cancel commit, completion pass) lowers the rank, so that none of them can go on for ever |
| PoolTheorems.CancelTest | lib/ios/Pods/Libuv-gRPC/src/threadpool.c:272-279 | The test of uv__work_cancel under the mutex succeeds exactly for work that has not started |
| PoolTheorems.CancelDooms | lib/ios/Pods/Libuv-gRPC/src/threadpool.c:269-292 | When the test succeeds, the request is out of the pool for good |
| PoolTheorems.CancelledNeverRuns | lib/ios/Pods/Libuv-gRPC/src/threadpool.c:269-292 | Work whose cancellation succeeded does not run in any continuation |
| PoolTheorems.TakeableIsDemand | lib/ios/Pods/Libuv-gRPC/src/threadpool.c:63-71 | Whenever a worker would not wait, the queues hold at least one thing it can take |
| PoolTheorems.AwakeExists | lib/ios/Pods/Libuv-gRPC/src/threadpool.c:63-71 | Whenever a worker would not wait and some worker has not exited, a worker is awake |
| ThreadPool.StepKeeps | lib/ios/Pods/Libuv-gRPC/src/threadpool.c:57-315 | Every step of any thread keeps the whole invariant of pool, loops and requests |
| ThreadPool.InitHolds | lib/ios/Pods/Libuv-gRPC/src/threadpool.c:188-232 | The pool as init_threads leaves it satisfies the invariant |
| PoolCrew.PostKeeps | lib/ios/Pods/Libuv-gRPC/src/threadpool.c:142-160 | A post, with its signal when a worker is idle, keeps the invariant of the workers and queues |
| PoolCrew.TakeKeeps | lib/ios/Pods/Libuv-gRPC/src/threadpool.c:63-112 | A worker that goes through its critical section, and signals another when it has to, keeps that invariant |
| PoolCrew.FinishKeeps | lib/ios/Pods/Libuv-gRPC/src/threadpool.c:114-137 | The end of a piece of work keeps it; slow work gives its place back |
| PoolCrew.SpuriousKeeps | lib/ios/Pods/Libuv-gRPC/src/threadpool.c:69-70 | A wake-up without a signal keeps it |
| PoolCrew.DropKeeps | lib/ios/Pods/Libuv-gRPC/src/threadpool.c:273-281 | Taking a cancelled request out of the pool keeps it |
| PoolQueue.SectionHasEffect | lib/ios/Pods/Libuv-gRPC/src/threadpool.c:63-112 | What the critical section of a worker does to the counts: what it took is gone, the slow counter rises with slow work only and not past the threshold, the slow-work message is in the queue if slow work is left, it waits only if there is nothing to take |
| PoolQueue.SectionTakesWork | lib/ios/Pods/Libuv-gRPC/src/threadpool.c:80-112 | Exactly the request that is run leaves the work queue |
| PoolQueue.SectionIsFifo | lib/ios/Pods/Libuv-gRPC/src/threadpool.c:80-112 | First in, first out: what is run is the oldest of its queue, the work queue or the slow queue, and all others keep their order, though the slow-work message is moved about |
| PoolQueue.SectionCounts | lib/ios/Pods/Libuv-gRPC/src/threadpool.c:80-112 | Each request is in the queues as often as before, but for the one that is run |
| PoolQueue.PostCounts | lib/ios/Pods/Libuv-gRPC/src/threadpool.c:142-160 | A post adds one entry for its request and no other |
| PoolQueue.PostAppends | lib/ios/Pods/Libuv-gRPC/src/threadpool.c:142-160 | A post appends: slow work to slow_io_pending_wq, with the slow-work message at the end of the work queue unless it is there, anything else to the work queue; nothing else changes, and a worker is signalled if and only if one sleeps and the work queue has grown |
| PoolQueue.SectionByHead | lib/ios/Pods/Libuv-gRPC/src/threadpool.c:80-112 | The head of the work queue decides: the exit message stays for the others, a request is run as it is, and the slow-work message gives out the oldest slow request exactly while 2 * running < nthreads, and is moved behind what waits otherwise |
| PoolQueue.Pool.PostItem | lib/ios/Pods/Libuv-gRPC/src/threadpool.c:142-160 | On the real queues and counters, in plain terms: a request of another kind goes to the end of the work queue, a slow one to the end of slow_io_pending_wq with the slow-work message in the work queue, the exit message to the end of the work queue; a signal if and only if a worker is idle and the work queue has grown |
| PoolQueue.Pool.Turn | lib/ios/Pods/Libuv-gRPC/src/threadpool.c:63-112 | One turn of the loop at line 61: the slow-work message that may not be served yet goes to the end and the loop goes on, or the outcome is that of the section |
| PoolQueue.Pool.RunSection | lib/ios/Pods/Libuv-gRPC/src/threadpool.c:57-112 | The loop ends, and its outcome and the new state are those of the section's specification |
| AsyncTheorems.NeverAborts | lib/ios/Pods/Libuv-gRPC/src/unix/async.c:62-79 | The abort at line 76 is unreachable in every interleaving of any number of senders with the loop |
| AsyncTheorems.SendIsAnswered | lib/ios/Pods/Libuv-gRPC/src/unix/async.c:62-152 | Every send is answered: any run that begins with uv_async_send on an open handle with a callback, never closes the handle and ends at rest, has the send return and a callback of the handle start after that |
| AsyncTheorems.OwedIsAnswered | lib/ios/Pods/Libuv-gRPC/src/unix/async.c:62-152 | A handle that is owed a callback has had one by the time everything is quiet, unless it was closed |
| AsyncTheorems.SendOwes | lib/ios/Pods/Libuv-gRPC/src/unix/async.c:62-79 | A send that was made is under way, or has returned with the callback owed |
| AsyncTheorems.ReturnOwes | lib/ios/Pods/Libuv-gRPC/src/unix/async.c:62-79 | Whatever step makes a send return leaves its handle owed a callback |
| AsyncTheorems.InitialisedIsOpen | lib/ios/Pods/Libuv-gRPC/src/unix/async.c:44-59 | From uv_async_init on, every idle thread can send to the handle, and it is called back if and only if it was given a callback |
| AsyncTheorems.CloseShuts | lib/ios/Pods/Libuv-gRPC/src/unix/async.c:102-106 | uv__async_close takes the handle off the loop with nothing pending |
| AsyncTheorems.ClosedIsSilent | lib/ios/Pods/Libuv-gRPC/src/unix/async.c:102-152 | and it is never called back after that, whatever senders do |
| AsyncTheorems.OrderStays | lib/ios/Pods/Libuv-gRPC/src/unix/async.c:136-151 | Visiting the handles keeps their order around the list |
| AsyncTheorems.ReadsDrain | lib/ios/Pods/Libuv-gRPC/src/unix/async.c:118-134 | The read loop empties the pipe, 1024 bytes at a time, and goes on after the first short read |
| AsyncTheorems.OnlyCallPays | lib/ios/Pods/Libuv-gRPC/src/unix/async.c:83-152 | Only the start of the callback, or the closing of the handle, ends the debt |
| AsyncTheorems.QuietOwesNothing | lib/ios/Pods/Libuv-gRPC/src/unix/async.c:62-152 | When no internal step is left, no answer is owed |
| AsyncTheorems.CallbackComes | lib/ios/Pods/Libuv-gRPC/src/unix/async.c:62-152 | From every reachable state in which an answer is owed there is a run without new sends that calls the callback |
| AsyncTheorems.StepLowers | lib/ios/Pods/Libuv-gRPC/src/unix/async.c:62-186 | Every internal step lowers a rank |
| AsyncTheorems.RunsEnd | lib/ios/Pods/Libuv-gRPC/src/unix/async.c:62-186 | so a run without new sends is finite, and its length is bounded by the rank |
| AsyncTheorems.OneCallEach | lib/ios/Pods/Libuv-gRPC/src/unix/async.c:62-152 | In a run from the start, every change of pending from 0 to 1 gets one callback start of its own, counted over the actions of the run: never fewer changes than calls, at most two more, and as many when all is quiet |
| AsyncKeeps.StepKeeps | lib/ios/Pods/Libuv-gRPC/src/unix/async.c:62-152 | Every step keeps the invariant: pending == 2 implies a byte in the pipe or a scan that has yet to visit the handle; pending == 1 has one sender at work |
| AsyncKeeps.NoAbort | lib/ios/Pods/Libuv-gRPC/src/unix/async.c:74-76 | When a sender makes its second compare-and-swap, pending is 1 |
| AsyncKeeps.OneBusy | lib/ios/Pods/Libuv-gRPC/src/unix/async.c:66-68 | At most one sender is between the first and the second compare-and-swap of a handle |
| RbBalance.HeightBound | lib/ios/Pods/Libuv-gRPC/include/uv/tree.h:56-61 | The bound claimed for the height: 2^h <= (n+1)^2 for every red-black tree of height h with n nodes |
| RbBalance.SizeCounts | lib/ios/Pods/Libuv-gRPC/include/uv/tree.h:56-61 | n is the number of nodes in order |
| RbLinks.Head.RotateLeft | lib/ios/Pods/Libuv-gRPC/include/uv/tree.h:342-360 | The rotation in memory, anywhere in a tree, turns a(bd) into (ab)d, with parents, child links and root to match |
| RbLinks.Head.RotateRight | lib/ios/Pods/Libuv-gRPC/include/uv/tree.h:362-380 | Its mirror image |
| RbInsert.Insert | lib/ios/Pods/Libuv-gRPC/include/uv/tree.h:598-626 | On a valid red-black tree: an equal member is returned, with root, tree, nodes and their fields all unchanged, or the node is added at its place in the order; the tree is valid again (order, no red node with a red child, equal black heights, black root, parent links) |
| RbInsert.Descend | lib/ios/Pods/Libuv-gRPC/include/uv/tree.h:604-615 | The search ends at the member with the key, or at the leaf between the nodes below and above the key, with its parent and side |
| RbInsert.InsertColor | lib/ios/Pods/Libuv-gRPC/include/uv/tree.h:407-449 | From a red node whose parent may be red, the loop ends with a red-black tree of the same nodes in the same order |
| RbInsert.FixLeft | lib/ios/Pods/Libuv-gRPC/include/uv/tree.h:422-429 | The turn for a black uncle on the right: same order, and the violation is gone after it |
| RbInsert.FixRight | lib/ios/Pods/Libuv-gRPC/include/uv/tree.h:438-445 | Its mirror image |
| RbRemove.Remove | lib/ios/Pods/Libuv-gRPC/include/uv/tree.h:530-595 | Removal of any member: exactly this node goes, the order of the others stays, and the tree is valid again |
| RbRemove.RemoveOne | lib/ios/Pods/Libuv-gRPC/include/uv/tree.h:579-594 | The removal of a node with at most one child, through the recolouring |
| RbRemove.RemoveTwo | lib/ios/Pods/Libuv-gRPC/include/uv/tree.h:539-577 | The removal of a node with two children, whose place its successor takes |
| RbRemove.Successor | lib/ios/Pods/Libuv-gRPC/include/uv/tree.h:541-543 | The loop ends at the first node of the right subtree, which has no left child |
| RbRemoveColor.RemoveColor | lib/ios/Pods/Libuv-gRPC/include/uv/tree.h:451-528 | From a place where one black node is missing, the loop ends with a red-black tree of the same nodes in the same order |
| RbRemoveColor.SiblingThere | lib/ios/Pods/Libuv-gRPC/include/uv/tree.h:458-497 | The sibling at such a place is not NULL, and a red one has two children and a black parent |
| RbRemoveColor.RepairLeft | lib/ios/Pods/Libuv-gRPC/include/uv/tree.h:458-490 | One turn on the left side settles the matter, or moves the missing black node up and makes progress |
| RbRemoveColor.RepairRight | lib/ios/Pods/Libuv-gRPC/include/uv/tree.h:491-523 | Its mirror image |
| RbRemoveColor.SettleLeft | lib/ios/Pods/Libuv-gRPC/include/uv/tree.h:472-489 | With a red nephew the rotations give the missing black node back |
| RbRemoveColor.SettleRight | lib/ios/Pods/Libuv-gRPC/include/uv/tree.h:505-522 | Its mirror image |
| RbWalk.Find | lib/ios/Pods/Libuv-gRPC/include/uv/tree.h:629-644 | A member with the key, or NULL if and only if there is none |
| RbWalk.NFind | lib/ios/Pods/Libuv-gRPC/include/uv/tree.h:647-665 | The least member not below the key, or NULL when there is none |
| RbWalk.Next | lib/ios/Pods/Libuv-gRPC/include/uv/tree.h:668-687 | The next member in the order, or NULL after the last |
| RbWalk.Prev | lib/ios/Pods/Libuv-gRPC/include/uv/tree.h:690-709 | The one before, or NULL before the first |
| RbWalk.MinMax | lib/ios/Pods/Libuv-gRPC/include/uv/tree.h:711-724 | The first member for a negative argument, otherwise the last; NULL in an empty tree |
| RbWalk.ForEach | lib/ios/Pods/Libuv-gRPC/include/uv/tree.h:738-741 | RB_MIN and repeated RB_NEXT end and visit every member once in order |
| RbWalk.ForEachReverse | lib/ios/Pods/Libuv-gRPC/include/uv/tree.h:753-756 | RB_MAX and repeated RB_PREV end and visit every member once, in the reverse of the order |
| RbWalk.HeadHeight | lib/ios/Pods/Libuv-gRPC/include/uv/tree.h:56-61 | The bound on the height, of the tree on any valid head and in terms of the number of its members |
| Splay.SplayTree.DoSplay | lib/ios/Pods/Libuv-gRPC/include/uv/tree.h:209-244 | The splay ends; the order of the nodes is unchanged; the root matches the key, or is next to where it would be: if the key is below the root, all to the root's left is below the key, and if it is above, all to the right is above the key. The tree is exactly that of SplayShape.Splay, with its rotations, and so is the number of turns of the loop |
| Splay.SplayTree.Insert | lib/ios/Pods/Libuv-gRPC/include/uv/tree.h:164-186 | The node is added if and only if no member has its key; otherwise that member is returned and the order stays; the tree that is left, and the turns of the splays, are those that the theorems below count |
| Splay.SplayTree.Remove | lib/ios/Pods/Libuv-gRPC/include/uv/tree.h:188-207 | Exactly the member with the key is removed and the argument returned; NULL and no change when there is none; the tree that is left, and the turns of the splays, are those that the theorems below count |
| Splay.SplayTree.Find | lib/ios/Pods/Libuv-gRPC/include/uv/tree.h:128-137 | The member with the key, or NULL if and only if there is none; the order stays; the tree that is left, and the turns of the splays, are those that the theorems below count |
| Splay.SplayTree.Next | lib/ios/Pods/Libuv-gRPC/include/uv/tree.h:139-151 | The least member above a given one, or NULL; the order stays; the tree that is left, and the turns of the splays and the steps of the walk, are those that the theorems below count |
| Splay.SplayTree.MinMax | lib/ios/Pods/Libuv-gRPC/include/uv/tree.h:246-278 | A least or a greatest member becomes the root; the order stays; the tree that is left, and the turns of the splays, are those that the theorems below count |
| Splay.TopMatches | lib/ios/Pods/Libuv-gRPC/include/uv/tree.h:209-244 | After a splay only the root can have the key |
| Splay.OrderUnique | lib/ios/Pods/Libuv-gRPC/include/uv/tree.h:164-207 | The order of a sorted tree is determined by its members, so that insertion and removal are those of a sorted sequence |
| SplayRuns.Balance | lib/ios/Pods/Libuv-gRPC/include/uv/tree.h:50-52 | The Balance Theorem: the turns of all splays in any run from an empty tree, in which n nodes are put in, are at most lg(n+1) times what the operations allow, which is three for a splay and one for a node put in, so at most six for each operation |
| SplayRuns.Accesses | lib/ios/Pods/Libuv-gRPC/include/uv/tree.h:50-52 | m accesses to any tree of n nodes, sorted or not, take at most (3m + n) lg(n+1) turns, so O(lg n) each when m is at least n |
| SplayRuns.RunPays | lib/ios/Pods/Libuv-gRPC/include/uv/tree.h:50-52 | From any tree, the turns of a run are paid for by its operations and by what the potential, the product of the weights of all subtrees, falls by |
| SplayBalance.Access | lib/ios/Pods/Libuv-gRPC/include/uv/tree.h:209-241 | One splay: 2^turns, times the cube of the weight that the node brought up had before, times the potential after it, is at most twice the cube of the weight of the tree times the potential before it |
| SplayBalance.SplayPays | lib/ios/Pods/Libuv-gRPC/include/uv/tree.h:209-241 | and so 4 * 2^turns times the potential after it is at most the cube of the weight of the tree times the potential before |
| SplayNext.BoundedExactly | lib/ios/Pods/Libuv-gRPC/include/uv/tree.h:50-52 | With the walk of SPLAY_NEXT counted, the bound holds, for a factor of 6 or more, for all runs or for all runs without SPLAY_NEXT: only the latter is true |
| SplayNext.NextBreaks | lib/ios/Pods/Libuv-gRPC/include/uv/tree.h:139-151 | The runs that break it: 2^(6c+6)-1 nodes put in upwards, the least one looked up, and then SPLAY_NEXT of it as often |
| SplayNext.HalfStays | lib/ios/Pods/Libuv-gRPC/include/uv/tree.h:209-241 | Why: a splay for the least of n nodes put in upwards leaves a chain of n/2 left links to the right of the root |
| SplaySteps.RotateRightMid | lib/ios/Pods/Libuv-gRPC/include/uv/tree.h:88-92 | In the middle of a splay the rotation in memory rotates the middle tree and leaves both side trees |
| SplaySteps.RotateLeftMid | lib/ios/Pods/Libuv-gRPC/include/uv/tree.h:94-98 | Its mirror image |
| SplaySteps.LinkLeftMid | lib/ios/Pods/Libuv-gRPC/include/uv/tree.h:100-104 | The middle root and its right subtree go to the right side tree |
| SplaySteps.LinkRightMid | lib/ios/Pods/Libuv-gRPC/include/uv/tree.h:106-110 | The middle root and its left subtree go to the left side tree |
| SplaySteps.AssembleHolds | lib/ios/Pods/Libuv-gRPC/include/uv/tree.h:112-117 | The four assignments put the three trees together: one tree with left, middle and right nodes in order |
| TimerHeap.Heap.Insert | lib/ios/Pods/Libuv-gRPC/src/heap-inl.h:106-148 | The heap stays complete, linked and ordered, and holds exactly one node more |
| TimerHeap.Heap.Remove | lib/ios/Pods/Libuv-gRPC/src/heap-inl.h:150-237 | Removal of any member keeps all of it, and exactly this node is gone; nothing happens in an empty heap |
| TimerHeap.Heap.Dequeue | lib/ios/Pods/Libuv-gRPC/src/heap-inl.h:239-241 | Removal of the least node |
| TimerHeap.Heap.Min | lib/ios/Pods/Libuv-gRPC/src/heap-inl.h:67-69 | heap->min is a least node, and NULL if and only if the heap is empty |
| TimerHeap.Heap.NodeSwap | lib/ios/Pods/Libuv-gRPC/src/heap-inl.h:72-104 | Exchanging a parent and its child keeps the tree complete and linked, and swaps the two in the sequence of slots |
| TimerHeap.Heap.Walk | lib/ios/Pods/Libuv-gRPC/src/heap-inl.h:126-136 | Following the bits of n leads to slot n, and one step before to slot n/2 |
| TimerHeap.Heap.SiftUp | lib/ios/Pods/Libuv-gRPC/src/heap-inl.h:143-147 | The loop ends with an ordered heap of the same nodes |
| TimerHeap.Heap.SiftDown | lib/ios/Pods/Libuv-gRPC/src/heap-inl.h:216-229 | The loop ends with a node that is not above its children, and the rest in order |
| HeapOrder.PathTo | lib/ios/Pods/Libuv-gRPC/src/heap-inl.h:122-124 | The bits of the path are those of n after the first, in reverse |
| HeapOrder.LeastAtRoot | lib/ios/Pods/Libuv-gRPC/src/heap-inl.h:67-69 | In an ordered heap the first slot is least |
| HeapOrder.SiftUpStep | lib/ios/Pods/Libuv-gRPC/src/heap-inl.h:146-147 | A swap upwards leaves at most one slot out of order, one level higher |
| HeapOrder.SiftDownStep | lib/ios/Pods/Libuv-gRPC/src/heap-inl.h:220-229 | A swap downwards leaves at most one slot out of order, one level lower |
| HeapSlots.SwappedComplete | lib/ios/Pods/Libuv-gRPC/src/heap-inl.h:72-104 | The links after the exchange are those of a complete tree with two slots swapped |
| Timers.TimerLoop.RunTimers | lib/ios/Pods/Libuv-gRPC/src/timer.c:154-171 | One pass on fields and heap, for callbacks that do any commands: it fires the least due timer each time and ends when none is due, and `done` tells which of the end and the end of the script came first; with callbacks that arm nothing with a timeout of 0 and leave the clock alone, below 2^64-1, it is always the end |
| TimerPass.PassIncreases | lib/ios/Pods/Libuv-gRPC/src/timer.c:38-55 | The (timeout, start_id) pairs fired in a pass strictly increase, whatever the callbacks do |
| TimerPass.PassIsNotEarly | lib/ios/Pods/Libuv-gRPC/src/timer.c:163-164 | The definition of a pass, read at its i-th turn: the timer taken off then is not later than the loop's time, which earlier callbacks may have moved on |
| TimerPass.PassEnds | lib/ios/Pods/Libuv-gRPC/src/timer.c:154-171 | Below 2^64-1, with callbacks that arm nothing with a timeout of 0 and leave the clock alone, a pass fires no more timers than are due at its start |
| TimerBounds.EndlessAtOnce | lib/ios/Pods/Libuv-gRPC/src/timer.c:154-171 | With anything due, and callbacks that start their own timer again with a timeout of 0, there is a pass of every length |
| TimerBounds.EndlessAtMax | lib/ios/Pods/Libuv-gRPC/src/timer.c:78-80 | At time 2^64-1, with anything armed, the same for a timeout of 1, since the sum is cut to 2^64-1 |
| TimerBounds.UnboundedExactly | lib/ios/Pods/Libuv-gRPC/src/timer.c:154-171 | The lengths of the passes from a state have a bound, over all callbacks, if and only if nothing is due: for every n some callbacks make a pass longer than n exactly if something is due |
| TimerBounds.MildUnboundedExactly | lib/ios/Pods/Libuv-gRPC/src/timer.c:154-171 | Over the callbacks that arm nothing with a timeout of 0 and leave the clock alone they have one, the number of timers due, if and only if the time is below 2^64-1 or nothing is armed |
| TimerPass.DueAreFired | lib/ios/Pods/Libuv-gRPC/src/timer.c:154-171 | A finished pass has fired every timer that was due at its start and that no callback touched |
| TimerPass.LeastDecides | lib/ios/Pods/Libuv-gRPC/src/timer.c:163-164 | Looking at the least node is enough: it is due if and only if some timer is |
| TimerPass.RunKeeps | lib/ios/Pods/Libuv-gRPC/src/timer.c:58-176 | Any sequence of commands keeps the scheduler's invariant |
| TimerPromises.NeverEarly | lib/ios/Pods/Libuv-gRPC/src/timer.c:66-171 | A timer started with a timeout d is fired in no pass before time + d, whatever the program, its passes and its callbacks do, if they leave this timer alone |
| TimerPromises.FiredInTime | lib/ios/Pods/Libuv-gRPC/src/timer.c:66-171 | and the first finished pass from then on fires it |
| TimerPromises.StartArms | lib/ios/Pods/Libuv-gRPC/src/timer.c:66-94 | uv_timer_start arms the timer for time + timeout, or 2^64-1 if that is less, and touches no other |
| TimerPromises.PopRearms | lib/ios/Pods/Libuv-gRPC/src/timer.c:154-171 | A timer that fires is armed again for time + repeat, cut to 2^64-1, with the repeat value it keeps, if that is not zero, and is not armed otherwise; no other timer is touched |
| TimerPromises.RepeatIsKept | lib/ios/Pods/Libuv-gRPC/src/timer.c:123-125 | What uv_timer_set_repeat sets is what the timer repeats with |
| TimerPromises.AgainMeans | lib/ios/Pods/Libuv-gRPC/src/timer.c:110-120 | uv_timer_again arms the timer for time + repeat if it has a callback and repeats |
| TimerPromises.CommandMeans | lib/ios/Pods/Libuv-gRPC/src/timer.c:58-176 | What each command that arms nothing does to the fields of its timer, and that it leaves time and all other timers alone |
| TimerSched.StartKeeps | lib/ios/Pods/Libuv-gRPC/src/timer.c:66-94 | uv_timer_start keeps the invariant (ACTIVE if and only if armed, the count of active and referenced handles, start ids all different and below the counter) and arms exactly this timer, or none when closing or without a callback |
| TimerSched.StopKeeps | lib/ios/Pods/Libuv-gRPC/src/timer.c:97-107 | uv_timer_stop keeps it and disarms exactly this timer |
| TimerSched.AgainKeeps | lib/ios/Pods/Libuv-gRPC/src/timer.c:110-120 | uv_timer_again keeps it |
| TimerSched.RefKeeps | lib/ios/Pods/Libuv-gRPC/src/uv-common.h:257-264 | uv__handle_ref keeps it and arms nothing |
| TimerSched.UnrefKeeps | lib/ios/Pods/Libuv-gRPC/src/uv-common.h:266-273 | uv__handle_unref keeps it and disarms nothing |
| TimerSched.CloseKeeps | lib/ios/Pods/Libuv-gRPC/src/timer.c:174-176 | Closing keeps it and disarms exactly this timer |
| TimerSched.InitKeeps | lib/ios/Pods/Libuv-gRPC/src/timer.c:58-63 | A new timer keeps it |
| TimerSched.RepeatKeeps | lib/ios/Pods/Libuv-gRPC/src/timer.c:123-125 | uv_timer_set_repeat keeps it |
| Timers.TimerLoop.TimerInit | lib/ios/Pods/Libuv-gRPC/src/timer.c:58-63 | The state after uv_timer_init is the specified one |
| Timers.TimerLoop.TimerStart | lib/ios/Pods/Libuv-gRPC/src/timer.c:66-94 | The whole new state of uv_timer_start on fields and heap, in plain numbers: on success the timer is armed, its timeout is time + timeout or 2^64-1 if that is less, its repeat the one given and its start id the old counter, and no other timer changes; UV_EINVAL without a callback or when closing |
| Timers.TimerLoop.TimerStop | lib/ios/Pods/Libuv-gRPC/src/timer.c:97-107 | The whole new state of uv_timer_stop: not armed, all other fields and timers as they were |
| Timers.TimerLoop.TimerAgain | lib/ios/Pods/Libuv-gRPC/src/timer.c:110-120 | The whole new state of uv_timer_again, in plain numbers: a timer that repeats is armed for time + repeat, cut to 2^64-1; UV_EINVAL without a callback |
| Timers.TimerLoop.TimerClose | lib/ios/Pods/Libuv-gRPC/src/timer.c:174-176 | The whole new state after a close: closing, not armed, all other fields and timers as they were |
| Timers.TimerLoop.NextTimeout | lib/ios/Pods/Libuv-gRPC/src/timer.c:133-151 | -1 if and only if no timer is armed; otherwise a t within int, not later than any deadline unless 0, and exactly the earliest deadline, or 0 when one is due, unless cut to INT_MAX |
| Timers.TimerLoop.HandleStart | lib/ios/Pods/Libuv-gRPC/src/uv-common.h:241-247 | uv__handle_start: flag and count change as specified |
| Timers.TimerLoop.HandleStop | lib/ios/Pods/Libuv-gRPC/src/uv-common.h:249-255 | uv__handle_stop: likewise |
| Timers.TimerLoop.TimerRef | lib/ios/Pods/Libuv-gRPC/src/uv-common.h:257-264 | uv__handle_ref on a timer |
| Timers.TimerLoop.TimerUnref | lib/ios/Pods/Libuv-gRPC/src/uv-common.h:266-273 | uv__handle_unref on a timer |
| PunycodeRoundTrip.RoundTrip | lib/ios/Pods/Libuv-gRPC/src/idna.c:102-246 | The decoder of section 6.2 of RFC 3492 maps what the encoder writes back to the code points, for every sequence of code points |
| PunycodeRoundTrip.RoundsDecode | lib/ios/Pods/Libuv-gRPC/src/idna.c:161-243 | The digits of all rounds, read by the decoder, put every code point at its place |
| PunycodeRoundTrip.EmitInserts | lib/ios/Pods/Libuv-gRPC/src/idna.c:192-238 | The digits of one delta make the decoder insert one code point where it stands in the label |
| PunycodeRoundTrip.ReadsDigits | lib/ios/Pods/Libuv-gRPC/src/idna.c:192-218 | The variable-length digits of a number are read back as the number |
| PunycodeLimits.RoundsOver | lib/ios/Pods/Libuv-gRPC/src/idna.c:174-178 | If a jump passes 2^32-1, the ideal encoding has a delta that does |
| PunycodeLimits.ScanOverflows | lib/ios/Pods/Libuv-gRPC/src/idna.c:185-187 | If counting passes 2^32-1, the ideal encoding has a delta that does |
| Punycode.AdaptIs | lib/ios/Pods/Libuv-gRPC/src/idna.c:220-236 | The bias adaptation of encoder and decoder is that closed form |
| Punycode.AdaptedOnce | lib/ios/Pods/Libuv-gRPC/src/idna.c:220-236 | which leaves no choice of the bias |
| Punycode.Alphabet | lib/ios/Pods/Libuv-gRPC/src/idna.c:104 | The digits are those of the alphabet |
| PunycodeSamples.SenseiSample | lib/ios/Pods/Libuv-gRPC/src/idna.c:102-246 | Sample (L) of section 7.1 of RFC 3492, eight code points of which five are not basic, is encoded and decoded as printed there |
| PunycodeSamples.SpeedSample | lib/ios/Pods/Libuv-gRPC/src/idna.c:102-246 | Sample (R), of seven code points none of which is basic, likewise |
| Idna.ToAsciiLabel | lib/ios/Pods/Libuv-gRPC/src/idna.c:102-246 | UV_EINVAL for a malformed code point, with nothing written; UV_E2BIG if and only if an ideal delta passes 2^32-1, with a beginning of the ideal output written; otherwise what is written is the part that fits of the plain label, or of "xn--" and the ideal Punycode, though all arithmetic is in 32 bits |
| Idna.LabelKinds | lib/ios/Pods/Libuv-gRPC/src/idna.c:124-159 | A label has no coding if and only if it holds a malformed code point, and is written as it is if and only if all its code points are basic |
| Idna.FitIs | lib/ios/Pods/Libuv-gRPC/src/idna.c:133-159 | What is written of a text is its beginning, up to the room there is |
| Idna.CodedDecodes | lib/ios/Pods/Libuv-gRPC/src/idna.c:102-246 | A coded label is "xn--" and a string that decodes to exactly the label's code points |
| Idna.CodedDiffer | lib/ios/Pods/Libuv-gRPC/src/idna.c:102-246 | Different labels have different codings |
| Idna.WriteDeltas | lib/ios/Pods/Libuv-gRPC/src/idna.c:161-243 | All rounds in 32 bits: they report an overflow if and only if an ideal delta has one, and write the ideal digits |
| Idna.WriteDelta | lib/ios/Pods/Libuv-gRPC/src/idna.c:192-218 | The digits of one delta, with every alphabet index below 36 |
| Idna.AdaptBias | lib/ios/Pods/Libuv-gRPC/src/idna.c:220-236 | The bias after a delta is that of section 6.1 of RFC 3492 in closed form, 36 k + 36 e/(e + 38), where e is the damped delta (1/700 of it the first time, half of it later, and its share for each code point) divided by 35 until it is at most 455, and k the number of these divisions; no step of the adaptation wraps |
| Idna.JumpDelta | lib/ios/Pods/Libuv-gRPC/src/idna.c:174-180 | The overflow test is exact, and the sum is |
| Idna.LeastLeft | lib/ios/Pods/Libuv-gRPC/src/idna.c:167-172 | The next code point to encode is the least one left |
| Idna.CountPass | lib/ios/Pods/Libuv-gRPC/src/idna.c:120-131 | The first pass counts the basic code points and the others |
| Idna.CopyPass | lib/ios/Pods/Libuv-gRPC/src/idna.c:140-151 | The second pass copies the basic code points that fit |
| IdnaHost.ToAscii | lib/ios/Pods/Libuv-gRPC/src/idna.c:250-291 | For any bytes, well-formed or not: all labels of a host name, split at any of the four dots, each label decoded anew from its first byte to the first byte of the dot; the first error, or the names joined by dots with a closing NUL, as much as fits |
| IdnaHost.HostSplits | lib/ios/Pods/Libuv-gRPC/src/idna.c:250-291 | The host name is cut at U+002E, U+3002, U+FF0E and U+FF61: the part before the first of them is converted as one label, with a dot behind it, and the rest is a host name again |
| IdnaHost.HostEnds | lib/ios/Pods/Libuv-gRPC/src/idna.c:280-288 | The part behind the last one is converted without a dot, and nothing is written for an empty one |
| IdnaHost.WellFormedHost | lib/ios/Pods/Libuv-gRPC/src/idna.c:250-291 | For well-formed UTF-8 the host name is that of its code points, and no byte behind it is read but one |
| IdnaHost.RoomForHost | lib/ios/Pods/Libuv-gRPC/src/idna.c:24-97 | Whatever the bytes are, none is read beyond the fourth behind the name |
| Utf8.Decode1 | lib/ios/Pods/Libuv-gRPC/src/idna.c:88-97 | One step of the decoder, which never yields anything but a scalar value or an error |
| Utf8.StepDecodes | lib/ios/Pods/Libuv-gRPC/src/idna.c:24-97 | Every well-formed sequence (section 3 of RFC 3629) is decoded to its code point and stepped over as a whole |
| Utf8.WellFormed | lib/ios/Pods/Libuv-gRPC/src/idna.c:99-100 | Well-formed text is decoded to exactly its code points |
| Utf8.NextCodePoint | lib/ios/Pods/Libuv-gRPC/src/idna.c:99-100 | foreach_codepoint yields the code points one by one, and ends with the last |
| InetTheorems.RoundTrip6 | lib/ios/Pods/Libuv-gRPC/src/inet.c:67-302 | Parsing the text printed for an address gives the same 16 bytes, for every address, and whichever stretch of zeros became "::" |
| Inet.ZoneRoundTrip | lib/ios/Pods/Libuv-gRPC/src/inet.c:150-176 | The text that is printed, with or without a zone behind it, is accepted by uv_inet_pton and means the same 16 bytes |
| InetTheorems.TextInside | lib/ios/Pods/Libuv-gRPC/src/inet.c:116-143 | With "::" inside or at the end the text is the groups before it, "::", and the groups behind it, in hexadecimal |
| InetTheorems.TextAtStart | lib/ios/Pods/Libuv-gRPC/src/inet.c:116-143 | With "::" at the start the text is "::" and all the remaining groups, for every length but six, and for five unless word 5 is ffff |
| InetTheorems.TextPlain | lib/ios/Pods/Libuv-gRPC/src/inet.c:116-143 | Without "::" it is all eight groups |
| InetTheorems.TextCompatible | lib/ios/Pods/Libuv-gRPC/src/inet.c:128-137 | After six zero words the text is "::" and the IPv4 text |
| InetTheorems.TextMapped | lib/ios/Pods/Libuv-gRPC/src/inet.c:128-137 | After five zero words and ffff it is "::ffff:" and the IPv4 text |
| InetTheorems.HexIsCanonical | lib/ios/Pods/Libuv-gRPC/src/inet.c:138 | Each group is printed in lower case and without leading zeros (sections 4.1 and 4.3 of RFC 5952) |
| InetTheorems.PrintedDenotes | lib/ios/Pods/Libuv-gRPC/src/inet.c:67-147 | Whatever is printed for 16 bytes is an address of section 2.2 of RFC 4291 that denotes these bytes |
| InetTheorems.SevenIsInside | lib/ios/Pods/Libuv-gRPC/src/inet.c:129-131 | The test best.len == 7 never decides: with base 0 and length 7, word 6 is inside the stretch that is skipped |
| InetQuad.RoundTrip4 | lib/ios/Pods/Libuv-gRPC/src/inet.c:53-215 | Parsing the dotted text of four bytes gives the bytes |
| InetQuad.DecimalDigits | lib/ios/Pods/Libuv-gRPC/src/inet.c:53-64 | An octet is printed as its decimal digits |
| InetQuad.AcceptsQuads | lib/ios/Pods/Libuv-gRPC/src/inet.c:179-215 | inet_pton4 accepts a text and yields b if and only if b is four octets and the text is these in decimal, without leading zeros, with dots between them |
| InetGrammar.OnlyAddresses | lib/ios/Pods/Libuv-gRPC/src/inet.c:218-302 | Whatever inet_pton6 accepts is an address of section 2.2 of RFC 4291: eight groups of one to four hexadecimal digits, the last two of which may be a dotted quad, or fewer with one "::" among them; and what is stored is what it denotes |
| InetAccepts.AcceptsAddresses | lib/ios/Pods/Libuv-gRPC/src/inet.c:218-302 | It accepts all of them: the parser yields b for a text if and only if the text denotes b in that grammar |
| Inet.FindRun | lib/ios/Pods/Libuv-gRPC/src/inet.c:88-111 | The first longest stretch of at least two zero words, or none if there is no such stretch (sections 4.2.2 and 4.2.3 of RFC 5952) |
| Inet.LoadWords | lib/ios/Pods/Libuv-gRPC/src/inet.c:85-87 | The eight words of the 16 bytes, each 256 times the byte at an even place plus the one behind it |
| Inet.Print6 | lib/ios/Pods/Libuv-gRPC/src/inet.c:116-143 | The text is printed, and fits the temporary buffer |
| Inet.TextFits | lib/ios/Pods/Libuv-gRPC/src/inet.c:31 | Every text is shorter than 46 characters, whichever stretch is left out |
| Inet.Ntop6 | lib/ios/Pods/Libuv-gRPC/src/inet.c:67-147 | The text with the best stretch as "::", closed by NUL; or, if and only if it does not fit, UV_ENOSPC with its first size-1 characters and a NUL; a size of zero passes for success with nothing written |
| Inet.Ntop4 | lib/ios/Pods/Libuv-gRPC/src/inet.c:53-64 | The dotted text closed by NUL, or UV_ENOSPC and nothing written if and only if it does not fit |
| Inet.Pton6 | lib/ios/Pods/Libuv-gRPC/src/inet.c:218-302 | Accepts exactly the addresses of section 2.2 of RFC 4291 and stores what they denote; UV_EINVAL for everything else |
| Inet.Pton4 | lib/ios/Pods/Libuv-gRPC/src/inet.c:179-215 | Accepts exactly four decimal octets without leading zeros, with dots between them, and stores them; UV_EINVAL for everything else |
| Inet.ShiftGap | lib/ios/Pods/Libuv-gRPC/src/inet.c:282-297 | The shift in place moves the bytes behind the gap to the end and fills the gap with zeros |
| Inet.InetPton | lib/ios/Pods/Libuv-gRPC/src/inet.c:150-176 | Success exactly for two arguments that are not NULL and an address of the family, an IPv6 address having an optional zone behind at most 45 characters; UV_EAFNOSUPPORT for other families and UV_EINVAL for the rest, NULL arguments included |
| Inet.Strscpy | lib/ios/Pods/Libuv-gRPC/src/strscpy.c:4-17 | The copy is complete and closed by NUL, or cut to n-1 characters and closed, with UV_E2BIG; nothing for n of zero |
| QueueRings.InitRing | lib/ios/Pods/Libuv-gRPC/src/queue.h:45-50 | A ring of one |
| QueueRings.AddRing | lib/ios/Pods/Libuv-gRPC/src/queue.h:52-59 | Two rings become one: the first, then the members of the second |
| QueueRings.SplitRings | lib/ios/Pods/Libuv-gRPC/src/queue.h:61-70 | One ring becomes two, cut before the given node |
| QueueRings.InsertHeadRing | lib/ios/Pods/Libuv-gRPC/src/queue.h:83-90 | The node is first in the ring |
| QueueRings.InsertTailRing | lib/ios/Pods/Libuv-gRPC/src/queue.h:92-99 | The node is last in the ring |
| QueueRings.RemoveRing | lib/ios/Pods/Libuv-gRPC/src/queue.h:101-106 | The ring without the node |
| Watchers.WatcherLoop.QueueMove | lib/ios/Pods/Libuv-gRPC/src/queue.h:72-81 | All members move to the local list, and the source is empty |
| Watchers.WatcherLoop.Run | lib/ios/Pods/Libuv-gRPC/src/unix/loop-watcher.c:48-60 | For callbacks that stop, start or restart any watcher, the pass ends with an empty local list, and its calls and the new list are those of the specification on sequences |
| Watchers.WatcherLoop.WatcherStart | lib/ios/Pods/Libuv-gRPC/src/unix/loop-watcher.c:32-39 | First in the list and flagged, and active_handles up by one if the handle is referenced; nothing for an active watcher; UV_EINVAL without a callback |
| Watchers.WatcherLoop.WatcherStop | lib/ios/Pods/Libuv-gRPC/src/unix/loop-watcher.c:41-46 | Off whichever list holds it, and active_handles down by one if the handle is referenced; nothing for an inactive watcher |
| WatcherPass.PassIsFair | lib/ios/Pods/Libuv-gRPC/src/unix/loop-watcher.c:48-60 | A pass calls each watcher at most once, and exactly those that were active at its start and not stopped before their turn; none that was started during the pass |
| WatcherPass.CalledUnlessStopped | lib/ios/Pods/Libuv-gRPC/src/unix/loop-watcher.c:48-60 | The same for a pass under way: of those still to come, exactly those not stopped first are called |
| WatcherPass.CalledAtMostOnce | lib/ios/Pods/Libuv-gRPC/src/unix/loop-watcher.c:48-60 | No watcher is called twice, and none that was not in the local list |
| WatcherPass.DrainKeeps | lib/ios/Pods/Libuv-gRPC/src/unix/loop-watcher.c:48-60 | After the pass the lists hold every active watcher once, and the local list is empty |
| WatcherPass.QuietPass | lib/ios/Pods/Libuv-gRPC/src/unix/loop-watcher.c:48-60 | With callbacks that do nothing, all are called in order and the list is what it was |
| PowerOfTwo.NextPowerOfTwo | lib/ios/Pods/Libuv-gRPC/src/unix/core.c:807-816 | The least power of two not below the argument for 1 to 2^31, and 0 if and only if the argument is 0 or above 2^31 |
| IoWatchers.RoomExactly | lib/ios/Pods/Libuv-gRPC/src/unix/core.c:837-839 | In 32-bit unsigned arithmetic the slots allocated are enough for len watchers and the two behind them if and only if len is at most 2^31-2; for 2^31-1 they are none |
| IoWatchers.NoTable | lib/ios/Pods/Libuv-gRPC/src/unix/core.c:837-839 | For len 2^31-1 the length comes out as 2^32-2 and the number of slots as 0 |
| IoWatchers.IoLoop.MaybeResize | lib/ios/Pods/Libuv-gRPC/src/unix/core.c:818-850 | For every len up to 2^31-1: it aborts exactly for 2^31-1; otherwise there is room for len watchers in a table that, with its two trailing slots, has the least power of two as its length, and all entries and the two trailing slots are kept |
| IoWatchers.IoLoop.Start | lib/ios/Pods/Libuv-gRPC/src/unix/core.c:870-895 | For every descriptor the assertions admit: it aborts exactly for INT_MAX-1; otherwise the events are added, the watcher is in the table and queued at the end if there is news for the kernel; the table holds exactly the watchers with pevents, nfds counts them, and every watcher with news is queued |
| IoWatchers.IoLoop.Stop | lib/ios/Pods/Libuv-gRPC/src/unix/core.c:898-927 | The events are dropped; without any left the watcher leaves table and queue, otherwise it is queued; the same invariant |
| IoWatchers.IoLoop.TakeQueue | lib/ios/Pods/Libuv-gRPC/src/unix/kqueue.c:140-192 | The poll empties the queue; the kernel is told of an event and a descriptor if and only if a watcher of this descriptor was queued with the event among pevents and not among events, for POLLIN, POLLOUT and POLLPRI, of each once, and in the order of the queue; the invariant is kept, and then the kernel knows the events of all watchers |
| IoWatchers.AllNewsAre | lib/ios/Pods/Libuv-gRPC/src/unix/kqueue.c:140-192 | The specification of these changes has exactly them, each once and in that order |
| IoWatchers.IoLoop.QueuedIsStarted | lib/ios/Pods/Libuv-gRPC/src/unix/kqueue.c:146-148 | A queued watcher has events and a descriptor in the table, as the poll asserts, and the entry there is its own |
| IoWatchers.IoLoop.IdleQueue | lib/ios/Pods/Libuv-gRPC/src/unix/kqueue.c:133-136 | nfds == 0 implies an empty watcher queue, as the poll asserts |
| FsWrite.BufOffset | lib/ios/Pods/Libuv-gRPC/src/unix/fs.c:1466-1478 | The first size bytes are taken off the buffers, the ones used up are passed over and the next is shortened, and no other buffer is touched |
| FsWrite.AnswerIs | lib/ios/Pods/Libuv-gRPC/src/unix/fs.c:1497-1499 | A call is made again until it is not interrupted, and no more often |
| FsWrite.WriteAll | lib/ios/Pods/Libuv-gRPC/src/unix/fs.c:1480-1523 | For every sequence of results and interruptions: each call is made where the last one ended and is handed exactly the bytes of the next iovmax buffers, or of all that are left, up to the first call that takes nothing or until no buffer is left; the total is the number of bytes taken or else the result of the first call, and a non-negative offset advances by it |
| FsWrite.TakenFirst | lib/ios/Pods/Libuv-gRPC/src/unix/fs.c:1480-1523 | The bytes taken so far and those in the buffers left are together, in order, the bytes there were |
| FsWrite.AllWritten | lib/ios/Pods/Libuv-gRPC/src/unix/fs.c:1480-1523 | With a kernel that takes at least a byte whenever it is given one, everything is written if and only if iovmax empty buffers in a row never stand before one that is not empty |
| FsWrite.NeverAll | lib/ios/Pods/Libuv-gRPC/src/unix/fs.c:1480-1523 | Otherwise something is left unwritten, whatever the kernel does |
| FsWrite.StopsEarly | lib/ios/Pods/Libuv-gRPC/src/unix/fs.c:1480-1523 | An instance: of an empty buffer and one with a byte nothing is written when iovmax is 1, and the result is 0 |

## Left out

- Thread pool: the stretch from one `uv_cond_wait` or work call to the next, under the mutex, is one atomic step, as are the steps under a loop's own mutex; memory order, mutexes and condition variables themselves are not modelled.
- Thread pool: `uv_async_send` is a flag there, and the async modules are about how it is answered; `uv_cancel` is called from the loop's thread only, and not for a request whose callback has started; `cleanup` posts its message, joining and freeing threads is not modelled; nor are `fork`, thread creation and its failure.
- Async: compare-and-swap, and reading and writing the pipe, are atomic and sequentially consistent; an interruption of read or write is a step that does not happen; memory is never reused for a new handle. The protocol is a state machine, since its methods interleave and a method of Dafny does not.
- Trees: the comparison macro is the order of an integer key of each node, so it is a total order; RB_AUGMENT is empty as in the source; SPLAY_FOREACH and the loops from a given node, or safe against removal, are not modelled.
- Splay.SplayTree.MinMax: splaying towards an end is the same loop as splaying for a key beyond all keys, and is modelled so; the cases of a NULL root are their callers'.
- Splay tree: a turn of the loop at line 218 is the unit of the bound; the constant work of an operation around its splays is not counted.
- Heap: the comparison function is that of the timers.
- Timers: the counter of start ids does not wrap at 2^64; a handle that is active is not initialised again; callbacks are sequences of commands of the timer API, among them a change of the loop's time, which only grows.
- Timers.TimerLoop.TimerInit: sets timeout and start id to 0, which the source leaves as they were; nothing reads them before a start.
- Timers.TimerLoop.RunTimers: takes the callbacks' commands as a script and stops where it ends, so that it ends for every script; `done` tells whether the pass was over by then.
- Idna.ToAsciiLabel: for labels below 2^31 bytes, since the length is returned as an int; how much was written before UV_E2BIG was found is not specified, only that it is a beginning of the ideal output.
- IdnaHost.ToAscii: for names below 2^31 bytes, and with as many bytes readable behind the name as the decoder looks at: one for well-formed text, never more than four. That the decoder rejects everything ill-formed is not claimed.
- Inet: a C string is the characters before its NUL; the choice by family in `uv_inet_ntop` is not modelled. What a parser leaves in its local buffer when it fails is not stated; the source copies nothing out then.
- Watchers: callbacks are sequences of starts and stops.
- IoWatchers: the queue of watchers is a sequence and an event mask a set; the ring itself is in QueueRings. One watcher per descriptor, as the source asserts. When the process would abort, nothing is said of the fields. Which of the kernel's filters stands for an event, and that changes are handed over in batches, is not modelled.
- FsWrite: a buffer is the sequence of its bytes; the request's fields that are only reset at the end, and the freeing of the array, are not modelled.
- Not modelled at all: system calls, streams, processes, files other than the vectored write, address resolution, closing handles, `uv_backend_timeout`, `uv_fs_poll_t` and the getters; allocation failure.
- The Swift and Objective-C parts of the repository declare things and have no logic of their own here.
