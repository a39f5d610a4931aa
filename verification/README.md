# A verified model of libuv's portable core

libuv's platform files are mostly system calls, but the code between them holds
several algorithms and protocols of its own.  This project models those parts in
Dafny, in the form in which the source has them, and proves what the source relies on.

| Modules | Source | Subject |
|---|---|---|
| RbShape, RbLinks, RbTree | include/uv/tree.h | red-black trees on linked nodes |
| SplayShape, SplayTree, SplayCost, SplayNumbers | include/uv/tree.h | splay trees on linked nodes, and their amortized bound |
| PoolQueues, PoolProtocol, PoolSafety, PoolLedger, PoolTheorems, PoolProgress | src/threadpool.c | the thread pool, every interleaving |
| AsyncProtocol, AsyncTheorems, AsyncProgress | src/unix/async.c | the wake-up handshake, every interleaving |
| HeapShape, TimerHeap | src/heap-inl.h | the pointer-based binary heap |
| Timers, TimerLoop | src/timer.c | timers on that heap, with arbitrary callbacks |
| Utf8, Punycode, Idna, IdnaName, IdnaRules | src/idna.c | UTF-8 decoding, Punycode, host names |
| Inet4, Inet6, Inet6Parse | src/inet.c | text of IP addresses |
| Spawn | src/unix/process.c | the descriptor shuffle at spawn |
| FsVector | src/unix/fs.c | buffer vectors under partial I/O |
| Queue, LoopWatcher | src/queue.h, src/unix/loop-watcher.c | circular lists, idle, prepare and check handles |
| Handles | src/uv-common.h, src/unix/core.c | handle flags, the active count, closing, uv_run |
| Seqs | | lists without repetition, used throughout |
| PowerOfTwo, IoWatchers, EpollWatchers | src/unix/core.c, epoll.c | I/O watchers, the kernel's lagging table, a batch of events |
| PollFds, PollWatchers | src/unix/posix-poll.c | the pollfd array, and the watchers behind it |
| Inotify | src/unix/linux-inotify.c | watcher lists that survive their callbacks |

How to read it:

- Linked structures are classes whose nodes have the source's pointer fields.  A ghost
  map `m` repeats the links, small setters keep it in step with the fields, and all
  reasoning about shapes is done by lemmas on that map (RbLinks, SplayShape, HeapShape,
  Queue).  The methods then say which tree, heap or list the links form.
- Loops and operations that update state are methods.  Each is proved against a function
  of the old state or against the property itself, and the lemmas prove what the source
  promises about those functions.
- Protocols between threads are transition systems with one atomic step per critical
  section (thread pool) or per read, write and compare-and-swap (async).  Their theorems
  are about every state of every run, and about what the threads then still get done:
  a falling measure bounds the steps that are left, and while something is left to do
  some step is possible.
- Callbacks are scripts: sequences of operations, one for each call.  A theorem for all
  scripts is a theorem for all callbacks, since what the callbacks of a run do can be
  written down as a script.
- Where a promise fails, the project says exactly when.
  A request that is cancelled again after its done callback has reported the cancellation
  gets a second callback (PoolTheorems.InvNext says that nothing else breaks the ledger,
  PoolTheorems.LateCancelRepeats what follows, PoolTheorems.DoneTwice gives a run).
  The active count goes wrong exactly when a handle that is active though it is closing
  loses or gains its reference (Handles.StepDrift, Handles.RunDrift), which takes a start
  of a closing handle (Handles.DoInv, Handles.LateStartSticks).
  A pass over the timers fires exactly those due at its start and those that become due in
  it, less what callbacks take off (Timers.PassBalance); below the end of time and with the
  clock standing still only a start with delay zero makes a timer due
  (Timers.DueByZeroDelay), and for each of these conditions there are passes that go on for
  ever without it
  (Timers.ZeroDelaySpins, Timers.EndOfTimeSpins, Timers.SlowSpins).
  Text that the UTF-8 decoder accepts is well-formed exactly when each step through it takes
  as many bytes as its first one announces and all of these are continuation bytes, which
  the code does not check (Utf8.WellFormedExactly, with inputs in Utf8.IllFormedAccepted);
  in other text a character may swallow a separator, in well-formed text none does
  (Utf8.DotsKept).
  A label is refused as too big only from 3856 code points on (Punycode.NeverTooBig,
  Punycode.TooBigBeyond), and next_power_of_two gives zero from 2^31+1 on
  (PowerOfTwo.NextPowerIsLeast), which makes uv__io_start abort for descriptor INT_MAX-1.
- Three branches of the source turn out to be unreachable and are left out of the methods,
  with the reason proved beside them: the encapsulated address with a run of seven zero
  words (src/inet.c:130), because such a run holds word 6 and is skipped before; the spare
  descriptor that would be closed (src/unix/process.c:347), because it is never above the
  targets; and the unlinked node that still is the minimum (src/heap-inl.h:189-191).

`dafny verify dfyconfig.toml` checks the whole project.

## Model

| member | source | states |
|---|---|---|
| RbShape.HeightBound | libuv/include/uv/tree.h:60-61 | a red-black tree of n nodes is at most 2 lg(n+1) high, written as 2^height <= (n+1)^2 |
| RbTree.Head.RotateLeft | libuv/include/uv/tree.h:342-360 | on the linked nodes, anywhere in the tree: exactly the left rotation of the subtree, all parent and child links consistent |
| RbTree.Head.RotateRight | libuv/include/uv/tree.h:362-380 | the mirror image |
| RbTree.InsertRecolored | libuv/include/uv/tree.h:415-421 | with a red uncle, recolouring moves the only possible red-red pair two levels up and changes neither order nor black counts |
| RbTree.InsertRotatedLeft | libuv/include/uv/tree.h:422-429 | with a black uncle, one or two rotations end the red-red pair and keep order and black counts |
| RbTree.Head.InsertColor | libuv/include/uv/tree.h:407-449 | a search tree whose one fault is a red pair at the new node becomes a red-black tree with the same nodes in the same order |
| RbTree.Head.Insert | libuv/include/uv/tree.h:598-626 | the tree stays red-black, sorted and linked; it gains exactly the new node, or already holds the key, returns that node and stays as it is; the search and the fix-up each make at most 2 lg(n+1) turns |
| RbTree.RemoveHoleSibling | libuv/include/uv/tree.h:456-462 | at a node that lost a black one the sibling exists, so reading its colour is safe; a red sibling has two children |
| RbTree.RemoveRedSibling | libuv/include/uv/tree.h:459-464 | the rotation for a red sibling leaves the same problem with a black sibling |
| RbTree.RemoveBlackNephews | libuv/include/uv/tree.h:465-472 | with two black nephews, reddening the sibling moves the missing black one up |
| RbTree.RemoveFinished | libuv/include/uv/tree.h:473-489 | with a red nephew, the rotations restore the whole tree: red-black, same nodes, same order |
| RbTree.Head.RemoveColor | libuv/include/uv/tree.h:451-528 | a tree that misses one black node on the paths through the cursor becomes red-black again, same nodes, same order |
| RbTree.Head.Remove | libuv/include/uv/tree.h:530-595 | removes exactly the given node, for nodes with no, one or two children; the rest stays red-black, sorted and linked; the search for the successor and the fix-up each make at most 2 lg(n+1) turns |
| RbTree.Head.Find | libuv/include/uv/tree.h:629-644 | the node with the key; null exactly when no node has it; at most 2 lg(n+1) turns |
| RbTree.Head.NFind | libuv/include/uv/tree.h:647-665 | the least node not below the key; null exactly when all are below; at most 2 lg(n+1) turns |
| RbTree.Head.MinMax | libuv/include/uv/tree.h:711-727 | the first or the last node of the sorted order |
| RbTree.Head.Next | libuv/include/uv/tree.h:668-687 | through the parent links: the node after the given one in sorted order, null after the last |
| RbTree.Head.Prev | libuv/include/uv/tree.h:690-709 | the node before the given one in sorted order, null before the first |
| RbTree.Head.Visit | libuv/include/uv/tree.h:738-741 | iteration from the minimum by RB_NEXT lists every node once, in key order |
| RbShape.QuickByHeight | libuv/include/uv/tree.h:60-61 | a loop that makes at most as many turns as the tree is high makes at most 2 lg(n+1), written as 2^turns <= (n+1)^2 |
| RbTree.InsertedKeys | libuv/include/uv/tree.h:598-626 | an insertion adds its key, which was absent, and no other |
| RbTree.RemovedKeys | libuv/include/uv/tree.h:530-595 | a removal takes away its key, which was present, and no other |
| RbTree.Head.Run | libuv/include/uv/tree.h:729-734 | after any sequence of insertions and removals the tree is well formed and holds exactly the keys inserted and not removed since |
| SplayShape.RotateRight | libuv/include/uv/tree.h:88-92 | the rotation keeps the three parts of a top-down splay linked and the in-order sequence of all nodes unchanged |
| SplayShape.RotateLeft | libuv/include/uv/tree.h:94-98 | the mirror image |
| SplayShape.LinkLeft | libuv/include/uv/tree.h:100-104 | moving the root to the tree of greater nodes keeps the parts linked and the in-order sequence |
| SplayShape.LinkRight | libuv/include/uv/tree.h:106-110 | moving the root to the tree of smaller nodes keeps the parts linked and the in-order sequence |
| SplayShape.Assemble | libuv/include/uv/tree.h:112-117 | the three parts become one tree with the same in-order sequence, without `__node`; no other node is written |
| SplayTree.Head.Splay | libuv/include/uv/tree.h:209-242 | ends; the in-order sequence is unchanged, every node before the new root has a smaller key than the one searched and every node after it a greater one; the tree and the number of turns are those of the recursive function that the bound is proved about |
| SplayTree.Head.Find | libuv/include/uv/tree.h:128-137 | the node with the key, now the root; null exactly when no node has it |
| SplayTree.Head.Insert | libuv/include/uv/tree.h:164-186 | the sorted tree gains exactly the new node as its root, or already has a node with the key and returns that one, which is the given node itself if it was inserted before |
| SplayTree.Head.Remove | libuv/include/uv/tree.h:188-207 | the sorted tree loses exactly the node with the key; null and no change exactly when there is none |
| SplayTree.NoRightChild | libuv/include/uv/tree.h:200-202 | after the left subtree is splayed again for the removed key its root has no right child, so no node is lost when the right subtree is hung there |
| SplayTree.JoinPlan | libuv/include/uv/tree.h:198-203 | the joined tree is linked and sorted and holds all nodes but the removed one |
| SplayCost.SplayIsCheap | libuv/include/uv/tree.h:50-52 | for every tree and key: with the product of all subtree sizes as potential, 2^turns times the potential afterwards, root apart, is at most 2 n^2 times the potential before |
| SplayCost.InsertAffords | libuv/include/uv/tree.h:164-186 | an insertion pays for its turns: 2^turns times the new potential is at most 4 n^5 times the old one |
| SplayCost.RemoveInnerAffords | libuv/include/uv/tree.h:188-207 | so does a removal with its two splays |
| SplayCost.AverageTurns | libuv/include/uv/tree.h:50-52 | the Balance Theorem in numbers: whatever has been paid for so on a new tree, m operations on at most 2^k nodes make at most m(5k+2) turns in all |
| SplayTree.Head.Run | libuv/include/uv/tree.h:50-52 | any sequence of finds, insertions and removals, on the linked nodes: the loop of SPLAY makes no more turns than the potential pays for, so m of them on a new tree make at most m(5k+2) turns if m <= 2^k |
| PoolQueues.PickSleeps | libuv/src/threadpool.c:72-82 | a worker that goes to sleep leaves no item that it could have taken, keeps the slow queue and its marker, and counts as idle |
| PoolQueues.PickRunsFast | libuv/src/threadpool.c:84-98 | a fast item taken is the first fast one queued, and the marker stays while slow work is pending |
| PoolQueues.PickRunsSlow | libuv/src/threadpool.c:108-139 | a slow item taken is the first pending, taken below the threshold only; the marker is queued again exactly when more is pending, with a signal if a thread is idle |
| PoolQueues.Pool.PickTask | libuv/src/threadpool.c:66-142 | the pick-a-task loop ends in every critical section and does what the specification function says |
| PoolQueues.Pool.PostWork | libuv/src/threadpool.c:170-210 | the queues after post, and whether it signals, including the return without signal when the marker is queued |
| PoolSafety.PoolInvNext | libuv/src/threadpool.c:45-47 | every step of every thread keeps: the marker is in wq at most once and is there while slow work is pending, slow_io_work_running equals the number of workers on slow work and never exceeds (nthreads+1)/2, idle_threads covers the waiting workers, and enough workers are awake for the queued work |
| PoolSafety.NoLostWakeup | libuv/src/threadpool.c:72-81 | if all workers wait unsignalled, wq and the slow queue are empty |
| PoolTheorems.InvNext | libuv/src/threadpool.c:336-375 | a step keeps the whole ledger of work items exactly when it does not cancel a request whose done callback has already reported its cancellation |
| PoolTheorems.OnePlace | libuv/src/threadpool.c:54-167 | every item is in exactly one of: wq, the slow queue, a worker, being cancelled, loop wq, the local done list, finished |
| PoolTheorems.RunSafe | libuv/src/threadpool.c:320-404 | at every moment of every orderly interleaving each item is in one place, its done callback ran at most once, it got UV_ECANCELED exactly when its work function never ran, and slow work keeps within its share of workers |
| PoolTheorems.RunNoLostWakeup | libuv/src/threadpool.c:133-139 | in every orderly interleaving: when all workers wait unsignalled, nothing is queued anywhere |
| PoolTheorems.RunAnnounced | libuv/src/threadpool.c:150-158 | completed work in loop wq always has its wq_async pending, or is about to be taken |
| PoolTheorems.RunFifo | libuv/src/threadpool.c:84-98 | fast items start in submission order and so do slow items: once a younger one of its kind has started, an older one that has not will never start |
| PoolTheorems.LateCancelRepeats | libuv/src/threadpool.c:336-375 | after such a cancel, however the run goes on in the model, the next done callback of the request is its second |
| PoolTheorems.DoneTwice | libuv/src/threadpool.c:349-352 | a whole run, from the first state, in which that happens |
| PoolProgress.ItemsAreSubmitted | libuv/src/threadpool.c:320-333 | after any run the items are the requests submitted in it, in that order, each with its loop and its kind |
| PoolProgress.CallsAllowed | libuv/src/threadpool.c:320-354 | a request can be submitted or cancelled exactly while its loop thread is not in uv__work_done at its lock nor in another uv_cancel |
| PoolProgress.CancelExactly | libuv/src/threadpool.c:336-375 | uv_cancel succeeds exactly when no worker has picked the request, fast or slow; it then takes it out of whichever list it was in and moves nothing else, and otherwise it changes nothing |
| PoolProgress.SomethingToDo | libuv/src/threadpool.c:54-167 | no deadlock: while a request has not had its done callback, some worker or its loop has a step to take |
| PoolProgress.EveryRequestIsServed | libuv/src/threadpool.c:54-167 | in whatever order workers and loops take their steps, from any point of an orderly run only a bounded number can follow without new calls of the user, and when none is left every request has had its done callback exactly once |
| AsyncProgress.OpenUntilClosed | libuv/src/unix/async.c:45-64 | the handles of a run are those initialised in it, with or without callback as given, and each is open exactly until it is closed |
| AsyncProgress.CallsAllowed | libuv/src/unix/async.c:45-128 | a send can begin on every open handle at any time, init and close exactly while the loop thread runs user code, and the loop wakes up exactly when it polls and there is something to read |
| AsyncProgress.BeginAdds | libuv/src/unix/async.c:73-77 | every send is a call of its own |
| AsyncProgress.SenderGoesOn | libuv/src/unix/async.c:73-95 | uv_async_send waits for nobody: a call that has not returned has a step in every state, and each of its steps brings it nearer to its return |
| AsyncProgress.LoopGoesOn | libuv/src/unix/async.c:98-206 | while no call is between its two exchanges the loop thread has a step exactly until it polls again with nothing to close, and each step brings it nearer to that |
| AsyncProgress.SignalTaken | libuv/src/unix/async.c:197-204 | at a handle that a finished call has signalled the exchange takes the signal, and the next thing that the loop thread does is to call the callback, if there is one |
| AsyncProgress.PassBounded | libuv/src/unix/async.c:141-206 | a pass is over after a bounded number of steps |
| AsyncProgress.EverySendIsAnswered | libuv/src/unix/async.c:73-206 | from every point of every run the senders and the loop can go on to rest, and in whatever way they do, every call without an answer for an open handle with a callback gets its callback on the way |
| AsyncTheorems.InvNext | libuv/src/unix/async.c:73-127 | every atomic step of any sender and of the loop keeps: a handle at 1 has exactly one owner between its two exchanges, and a fully signalled handle implies a readable descriptor or a pass that has still to look at it |
| AsyncTheorems.NeverAborts | libuv/src/unix/async.c:90-92 | in every interleaving the second exchange of uv_async_send finds 1, so its abort is unreachable |
| AsyncTheorems.NoLostSend | libuv/src/unix/async.c:73-95 | when the loop is about to block with nothing to read and no write is under way, every returned uv_async_send was followed by a callback that started after the call began |
| AsyncTheorems.PassAnswers | libuv/src/unix/async.c:141-206 | one pass of uv__async_io calls back every handle that had unanswered sends when the pass started, unless it is closed meanwhile |
| HeapShape.SwapShape | libuv/src/heap-inl.h:72-104 | heap_node_swap exchanges exactly two adjacent positions of the complete binary tree, all mutual links consistent |
| HeapShape.ComputePath | libuv/src/heap-inl.h:122-124 | the bit path computed from the count is the sequence of turns from the root to that slot |
| TimerHeap.Heap.Walk | libuv/src/heap-inl.h:127-136 | following the bit path leads to exactly the link of the last or of the next slot |
| TimerHeap.Heap.Swap | libuv/src/heap-inl.h:72-104 | on the linked nodes: the two nodes are exchanged and nothing else moves |
| TimerHeap.Heap.Insert | libuv/src/heap-inl.h:106-148 | the heap stays the complete, ordered, mutually linked tree and gains exactly the new node |
| TimerHeap.Heap.Remove | libuv/src/heap-inl.h:150-237 | for any member: the heap stays complete, ordered and linked and loses exactly that node |
| TimerHeap.Heap.Sink | libuv/src/heap-inl.h:216-229 | sifting a misplaced node down leaves at most its order towards its parent open, same nodes, same shape |
| TimerHeap.Heap.Rise | libuv/src/heap-inl.h:231-236 | sifting up restores the order of the whole heap, same nodes, same shape |
| TimerHeap.Heap.Dequeue | libuv/src/heap-inl.h:239-241 | removes exactly the minimum, if there is one |
| TimerHeap.Heap.Min | libuv/src/heap-inl.h:66-68 | null exactly for the empty heap; otherwise no node is less |
| HeapShape.RootIsLeast | libuv/src/heap-inl.h:66-68 | in an ordered heap no node is less than the root |
| Timers.DeadlineClamps | libuv/src/timer.c:89-91 | the 64-bit sum with its wrap check is the sum, or the largest value when the sum does not fit |
| Timers.StartMeans | libuv/src/timer.c:73-108 | a start arms the timer for the clamped deadline, behind every active timer with the same deadline, and touches no other timer |
| Timers.OpMeans | libuv/src/timer.c:73-158 | for every operation and timer: exactly when the timer is armed afterwards, with which deadline, start id and interval, whether it is closing, and what the clock shows |
| Timers.AgainMeans | libuv/src/timer.c:127-139 | again re-arms a repeating timer one interval from now and does nothing to another one; a closing timer, which it accepts, stays unarmed, since the start inside is refused |
| TimerLoop.Loop.StartTimer | libuv/src/timer.c:73-108 | on the pointer heap: UV_EINVAL for a closing handle or no callback, otherwise the specified start; the heap holds exactly the active timers |
| TimerLoop.Loop.StopTimer | libuv/src/timer.c:111-124 | the timer is inactive and out of the heap; no other timer changes |
| TimerLoop.Loop.AgainTimer | libuv/src/timer.c:127-139 | UV_EINVAL without callback, otherwise the specified restart; the heap holds exactly the active timers |
| TimerLoop.Loop.NextTimeout | libuv/src/timer.c:160-178 | -1 exactly with no active timer, 0 exactly when one is due; a positive result never passes the earliest deadline and reaches it unless that is over INT_MAX away |
| TimerLoop.Loop.RunTimers | libuv/src/timer.c:181-202 | for callbacks that do anything to timers: the loop is a pass as specified, and the heap holds exactly the active timers throughout |
| Timers.FiringOrder | libuv/src/timer.c:181-202 | whatever the callbacks do, timers fire in strictly increasing order of deadline and start id |
| Timers.DueFires | libuv/src/timer.c:181-202 | in a pass that has ended, every timer due at its start fired unless an earlier callback touched it |
| Timers.OpMakesDue | libuv/src/timer.c:73-139 | exactly which timers become due by an operation, and which due ones it takes off, at all times: a start with delay zero, at the end of time any start or restart, and a clock that passes deadlines |
| Timers.DueByZeroDelay | libuv/src/timer.c:73-108 | below the end of time and while the clock stands still, an operation makes a timer due exactly when it is a start with delay zero that is not refused |
| Timers.PassBalance | libuv/src/timer.c:181-202 | for all callbacks and all times, the number of timers that a pass fires: those due at its start plus those that become due, minus those that callbacks take off and those still due at its end |
| Timers.ShotsBound | libuv/src/timer.c:181-202 | below the end of time and while the clock stands still, a pass fires at most the timers due at its start and one for each start with delay zero |
| Timers.PassEnds | libuv/src/timer.c:181-202 | with callbacks that stop timers or arm positive delays the pass ends, fires only timers due at its start, each at most once |
| Timers.FiresExactlyOnce | libuv/src/timer.c:181-202 | such a pass leaves nothing due and fires every due timer exactly once, apart from those touched before their turn |
| Timers.ZeroDelaySpins | libuv/src/timer.c:185-201 | from any state with something due, callbacks that re-arm their timer with delay zero keep one pass going for any number of turns |
| Timers.EndOfTimeSpins | libuv/src/timer.c:89-91 | so do callbacks that do nothing, at time 2^64-1 with any repeating timer |
| Timers.SlowSpins | libuv/src/timer.c:185-201 | so do callbacks that update the time and have taken as long as the interval of a due repeating timer |
| Utf8.DecodesScalars | libuv/src/idna.c:72-89 | every code point that the decoder does not refuse, ill-formed bytes included, is a Unicode scalar value |
| Utf8.RoundTrip | libuv/src/idna.c:92-103 | any sequence of scalar values encoded as in RFC 3629 decodes to itself |
| Utf8.StepExact | libuv/src/idna.c:72-103 | one step yields the code point whose RFC 3629 form its bytes are exactly when the bytes are proper: as many as the first one announces, all others marked as continuation bytes; and text that begins with the form of a scalar value is always read properly |
| Utf8.WellFormedExactly | libuv/src/idna.c:127-129 | the promise that all characters are legal after the counting loop, and when it fails: text is well-formed exactly when every step is proper, well-formed text is never refused, and text that is not refused is the form of its code points exactly when every step is proper |
| Utf8.IllFormedAccepted | libuv/src/idna.c:37-72 | texts that break the promise: E1 00 00 is read as U+1000, E1 2E 2E as U+1BAE, E2 80 as U+0080 |
| Utf8.DotsKept | libuv/src/idna.c:127-129 | in well-formed text no full stop is swallowed by a character |
| Punycode.ThresholdIsRfc | libuv/src/idna.c:215-221 | the threshold of the digit loop is that of section 6.2 of RFC 3492 |
| Punycode.AdaptIsRfc | libuv/src/idna.c:242-258 | the new bias is that of section 6.1 of RFC 3492 |
| Punycode.ReadsBack | libuv/src/idna.c:214-240 | the digits written for a delta are read back as that delta by the decoder of section 6.2 of RFC 3492, whatever follows |
| Punycode.PassResets | libuv/src/idna.c:202-264 | a pass leaves a delta below the length of the label, so the increment without overflow check never wraps |
| Punycode.NeverTooBig | libuv/src/idna.c:193-209 | up to 3855 code points no label is refused with UV_E2BIG |
| Punycode.TooBigBeyond | libuv/src/idna.c:193-197 | and of every greater length some label is |
| Punycode.RoundTrip | libuv/src/idna.c:175-268 | for every label that is not refused with UV_E2BIG the decoder of section 6.2 of RFC 3492 gives back the code points |
| Idna.RestDigits | libuv/src/idna.c:214-240 | every digit index is below 36 |
| Idna.WriteDigits | libuv/src/idna.c:214-240 | the digit loop ends and writes the digits of delta as letters |
| Idna.AdaptBias | libuv/src/idna.c:242-258 | the adaptation loop computes the specified bias |
| Idna.CountPoints | libuv/src/idna.c:130-140 | refuses exactly what the decoder refuses, which is never well-formed text; the code points of what it accepts are scalar values whose RFC 3629 form is the text exactly when every step through it is proper; counts basic and other code points |
| Idna.FindLeast | libuv/src/idna.c:184-191 | the least code point from n on |
| Idna.RunPass | libuv/src/idna.c:202-261 | one pass writes the delta of every copy of n, or fails exactly where the specification overflows |
| Idna.WriteDeltas | libuv/src/idna.c:175-267 | the outer loop writes the whole encoding, or returns UV_E2BIG exactly when the specification fails |
| Idna.ToAsciiLabel | libuv/src/idna.c:105-268 | UV_EINVAL for text that the decoder refuses, never for well-formed text; otherwise the label of the code points read, which are those of the text exactly when every step through it is proper; of the label a short buffer holds exactly a prefix |
| Idna.LabelRoundTrip | libuv/src/idna.c:142-173 | unless it is refused with UV_E2BIG, a label with a non-ASCII code point becomes "xn--" and a text that decodes to the original code points |
| IdnaName.ToAscii | libuv/src/idna.c:270-315 | splits at the four separators, converts each label, joins with dots and ends with NUL, the result is the number of bytes written; otherwise the error of the first label that cannot be converted, or UV_EINVAL if text that the decoder refuses, never well-formed text, comes first; the code points are those of the text exactly when every step through it is proper |
| IdnaRules.LabelForm | libuv/src/idna.c:142-173 | an ASCII label stays as it is; any other becomes "xn--", its ASCII code points, "-" if there are any, and lower-case letters and digits |
| IdnaRules.NameSplits | libuv/src/idna.c:287-302 | a label, any of the four separators and any rest: the conversion of the label, ".", and that of the rest; the first error decides |
| IdnaRules.AsciiName | libuv/src/idna.c:270-315 | a name of ASCII bytes is converted to itself |
| IdnaRules.ResultIsAscii | libuv/src/idna.c:270-315 | whatever is converted, the result is ASCII |
| Inet4.Ntop4 | libuv/src/inet.c:53-64 | the dotted form, or an error exactly when it does not fit with its terminator |
| Inet4.Pton4 | libuv/src/inet.c:180-216 | the character loop does what the scanner specification says, on every string |
| Inet4.Parse4Sound | libuv/src/inet.c:188-213 | every accepted string is what inet_ntop4 prints for the bytes read from it |
| Inet4.RoundTrip4 | libuv/src/inet.c:180-216 | whatever inet_ntop4 prints is read back |
| Inet6.FindRun | libuv/src/inet.c:88-111 | the leftmost longest run of at least two zero words, -1 exactly when there is none |
| Inet6.Ntop6 | libuv/src/inet.c:67-148 | the text with "::" for that run, as section 4.2 of RFC 5952 asks, or an error exactly when it does not fit |
| Inet6.TextFits | libuv/src/inet.c:75 | no text is longer than 39 characters, so the buffer of 46 that is filled without checks suffices |
| Inet6.TextUnique | libuv/src/inet.c:88-111 | an address has one text |
| Inet6.TextTidy | libuv/src/inet.c:138 | the text has decimal and lower-case hexadecimal digits, colons and dots only, and no group begins with a zero unless it is "0" |
| Inet6.V4Exactly | libuv/src/inet.c:129-136 | exactly the addresses ::ffff:a.b.c.d, and those of six zero words before a word that is not zero, end in dotted form |
| Inet6Parse.Shift | libuv/src/inet.c:288-296 | the overlapping shift by hand moves the tail to the end and leaves zeros between |
| Inet6Parse.Pton6 | libuv/src/inet.c:219-303 | the character loop does what the parser specification says, on every string |
| Inet6Parse.ParsesExactly | libuv/src/inet.c:219-303 | a string is accepted, as a certain address, exactly when it is a text of that address in the grammar of section 2.2 of RFC 4291: groups of one to four digits of either case, at most one "::" for at least one group of zeros, an IPv4 part at the end |
| Inet6Parse.RoundTrip6 | libuv/src/inet.c:219-303 | for all 16-byte addresses: inet_pton6 reads the text of inet_ntop6 as the address |
| Spawn.Table.MoveLowSources | libuv/src/unix/process.c:293-309 | afterwards every source is at its target number or above it and still refers to the same file; new descriptors are close-on-exec and above the targets |
| Spawn.Table.Place | libuv/src/unix/process.c:311-349 | one turn of the second loop; with the lower standard streams open, open() returns the number just closed |
| Spawn.Table.ChildInit | libuv/src/unix/process.c:289-349 | the parallel move, for all sources, swaps and cycles included: each requested descriptor refers to what its source referred to, close-on-exec clear; unrequested standard streams are /dev/null; all others, such as the error pipe, stay |
| FsVector.Request.WriteAll | libuv/src/unix/fs.c:1650-1693 | for any kernel that takes any prefix: exactly the first `total` bytes of the buffers, contiguous from the start position, nothing else; all of them unless a write returns nothing, as it does for an empty buffer that is offered alone, which ends the transfer although bytes are left |
| FsVector.BufOffset | libuv/src/unix/fs.c:1636-1648 | after `size` bytes what is left of the vector is exactly the bytes behind them; indices stay in range |
| FsVector.Reader.Preadv | libuv/src/unix/fs.c:411-456 | the buffers hold exactly the first `result` bytes of the file from the offset, the rest of them is untouched, and they are full unless a read returns nothing, as it does for an empty buffer that is offered alone, which ends the transfer although more would fit |
| Queue.InsertTail | libuv/src/queue.h:92-99 | the circular list gains exactly one element at its end |
| Queue.InsertHead | libuv/src/queue.h:83-90 | the circular list gains exactly one element at its front |
| Queue.Remove | libuv/src/queue.h:101-106 | the circular list loses exactly the given element |
| Queue.Split | libuv/src/queue.h:61-70 | the list goes over to the new head from the given element on and ends before it at the old head |
| Queue.Add | libuv/src/queue.h:52-59 | the first list goes on with all elements of the second; an empty second list changes nothing |
| Queue.Move | libuv/src/queue.h:72-81 | the whole list changes its head; the old head is empty |
| LoopWatcher.CallsAreOld | libuv/src/unix/loop-watcher.c:60-79 | only handles registered when the pass starts are called in it, none twice |
| LoopWatcher.CalledOnce | libuv/src/unix/loop-watcher.c:60-79 | a handle is called exactly when it was registered at the start and no callback stopped it before its turn, so one started, or stopped and started again, during the pass is not called in it |
| LoopWatcher.QuietPass | libuv/src/unix/loop-watcher.c:65-78 | if no callback changes registrations every handle is called and the order stays |
| LoopWatcher.Loop.StartHandle | libuv/src/unix/loop-watcher.c:34-47 | at the front of the list, once; UV_EINVAL without callback |
| LoopWatcher.Loop.StopHandle | libuv/src/unix/loop-watcher.c:49-57 | out of whichever list it is in, the local one of a pass included |
| LoopWatcher.Loop.Run | libuv/src/unix/loop-watcher.c:60-79 | on the linked lists, for callbacks that start and stop handles at will: ends, makes exactly the specified calls, lists linked and disjoint throughout |
| LoopWatcher.RegisteredExactly | libuv/src/unix/loop-watcher.c:34-57 | after any operations a handle is registered exactly if it was started with a callback after its last stop |
| Handles.DoInv | libuv/src/uv-common.h:248-306 | active_handles equals the number of handles that are active and referenced, and closing handles are inactive and listed once: an operation keeps all this exactly when it does not start a closing handle |
| Handles.StepDrift | libuv/src/uv-common.h:266-303 | the count alone, on every state: a step spoils it exactly when a handle that is active though closing loses or gains its reference, which uv__handle_unref and uv__handle_ref do not count |
| Handles.RunDrift | libuv/src/uv-common.h:266-303 | after any run, late starts included, active_handles is the number of active referenced handles plus the sum of those miscounts |
| Handles.StepFlags | libuv/src/uv-common.h:266-303 | what every step does to the flags of every handle: active, referenced, closing, closed, and how often the close callback has run |
| Handles.RunFlags | libuv/src/uv-common.h:266-303 | after any run of a new loop: a handle is active exactly if it was started after its last stop or close, referenced exactly if neither an unref nor its finishing came after its init or last ref, closing exactly if it was closed, and closed exactly if it was finished |
| Handles.LateStartCounts | libuv/src/uv-common.h:266-272 | a late start is counted at first and a stop undoes it; otherwise finishing the handle leaves the count one too high exactly when the handle is referenced |
| Handles.FinishInv | libuv/src/unix/core.c:249-298 | the asserts of uv__finish_close hold; the close callback runs once, when the handle has left handle_queue |
| Handles.Loop.RunClosingHandles | libuv/src/unix/core.c:301-313 | for callbacks that do anything to handles: ends in the specified state, and every listed handle is finished with one close callback, or is a busy signal handle that is back on the list |
| Handles.DeadLoop | libuv/src/unix/core.c:326-331 | the loop is dead exactly when nothing is pending, no handle is active and referenced, and every closing handle is closed |
| Handles.LateStartSticks | libuv/src/uv-common.h:290 | a whole run that ends with the count one too high: close, start, closing pass |
| Handles.TurnCloses | libuv/src/unix/core.c:380-435 | a turn of uv_run finishes every handle that was closed before it or by its callbacks, apart from signal handles that are busy |
| Handles.TurnIsRun | libuv/src/unix/core.c:380-435 | a turn of uv_run is a run of the single steps: the calls of its callbacks, the closing pass, and in UV_RUN_ONCE mode the timers again, so that all results about runs of steps hold of uv_run |
| Handles.Loop.Run | libuv/src/unix/core.c:380-435 | uv_run makes its turns while something is left to do and uv_stop was not called, one at most outside of default mode, and no other; the state is that after these turns, and the result is 0 exactly when no referenced active handle, request, pending watcher or closing handle remains |
| PowerOfTwo.NextPowerIsLeast | libuv/src/unix/core.c:811-820 | next_power_of_two on 32-bit words: the least power of two from its argument on, and zero exactly where there is none |
| IoWatchers.ResizedFacts | libuv/src/unix/core.c:822-854 | resizing by next_power_of_two keeps every slot and both trailing slots, the new slots are NULL, and the allocation is a power of two less than twice what is needed |
| IoWatchers.Loop.IoStart | libuv/src/unix/core.c:879-904 | the flags are added and the watcher is started and in the slot of its descriptor, no other watcher changes, and the bookkeeping invariant holds; it aborts exactly for descriptor INT_MAX-1, for which next_power_of_two gives zero |
| IoWatchers.Loop.IoStop | libuv/src/unix/core.c:909-943 | on any watcher, started or not: the flags are removed, no other watcher changes, the invariant holds and nfds does not underflow |
| IoWatchers.Loop.IoClose | libuv/src/unix/core.c:946-953 | the watcher is stopped and the kernel no longer knows its descriptor |
| IoWatchers.SyncInv | libuv/src/unix/epoll.c:145-189 | the asserts of the drain loop hold, EPOLL_CTL_MOD is used only on a descriptor that is there, and the invariant holds |
| IoWatchers.Loop.Drain | libuv/src/unix/epoll.c:144-189 | afterwards the queue is empty and the kernel watches each started descriptor for exactly the wanted events |
| IoWatchers.NothingWatched | libuv/src/unix/epoll.c:137-140 | nfds is zero exactly when no watcher is started, and then the queue is empty |
| PollFds.Table.Add | libuv/src/unix/posix-poll.c:86-104 | exactly one entry for the descriptor, with its events; all other entries stay |
| PollFds.Table.Del | libuv/src/unix/posix-poll.c:107-131 | no entry for the descriptor, or none that was invalidated; all other entries stay |
| PollFds.Table.Invalidate | libuv/src/unix/posix-poll.c:336-357 | during a pass the entries of the descriptor become void and nothing moves; outside of one they are deleted |
| PollWatchers.Poller.Drain | libuv/src/unix/posix-poll.c:155-169 | afterwards the queue is empty and every started watcher has exactly one pollfd entry, with the events it wants |
| PollWatchers.Poller.Dispatch | libuv/src/unix/posix-poll.c:248-308 | for callbacks that start, stop and close watchers at will: exactly the specified calls, and after the purge exactly the entries whose descriptor was not taken off meanwhile |
| PollWatchers.EntryAnswered | libuv/src/unix/posix-poll.c:263-288 | each entry in turn gets exactly one callback if it is not void by then and its descriptor has a started watcher for which an error, a hangup or a flag that it wants was reported, and none otherwise; the callback gets exactly these flags |
| PollWatchers.AllHeard | libuv/src/unix/posix-poll.c:262-288 | if no callback does anything, exactly the started watchers that the reports concern are called, in the order of the array |
| PollWatchers.CallsStarted | libuv/src/unix/posix-poll.c:262-288 | a callback is called for the watcher that is started on its descriptor at that time |
| PollWatchers.ClosedStaysQuiet | libuv/src/unix/posix-poll.c:262-264 | a descriptor closed by a callback gets no callback in the rest of the pass |
| EpollWatchers.Dispatcher.Invalidate | libuv/src/unix/epoll.c:49-79 | the pending events of the descriptor, and no others, become void, and the kernel forgets it |
| EpollWatchers.Dispatcher.Dispatch | libuv/src/unix/epoll.c:328-395 | for callbacks that start, stop and close watchers at will: exactly the specified calls; a reported descriptor is always in range, and the bookkeeping invariant holds throughout |
| EpollWatchers.EventAnswered | libuv/src/unix/epoll.c:333-391 | each event in turn gets exactly one callback if it is not void by then and its descriptor has a started watcher for which an error, a hangup or a flag that it wants was reported, and none otherwise; the callback gets these flags, and with a bare error or hangup also all that the watcher waits for |
| EpollWatchers.AllHeard | libuv/src/unix/epoll.c:328-395 | if no callback does anything, exactly the started watchers that the events concern are called, in the order of the batch |
| EpollWatchers.CallsStarted | libuv/src/unix/epoll.c:341-391 | a callback is called for the watcher that is started on its descriptor at that time |
| EpollWatchers.ClosedStaysQuiet | libuv/src/unix/epoll.c:333-335 | a descriptor closed by a callback gets no callback in the rest of the batch, even if a watcher is started on it again |
| Inotify.StartInv | libuv/src/unix/linux-inotify.c:249-302 | a started handle is in exactly one list, that of its watch descriptor |
| Inotify.StopInv | libuv/src/unix/linux-inotify.c:305-322 | the lookup that uv_fs_event_stop asserts succeeds in every reachable state, inside callbacks too; a list is freed only when empty and not iterated over |
| Inotify.Loop.FsEventStart | libuv/src/unix/linux-inotify.c:249-302 | an error for an active handle or a failed watch, otherwise the handle is active and the last of its list; no other handle changes |
| Inotify.Loop.FsEventStop | libuv/src/unix/linux-inotify.c:305-322 | the handle is inactive and out of its queue, the local one of an event included; no other handle changes |
| Inotify.Loop.Dispatch | libuv/src/unix/linux-inotify.c:203-238 | for callbacks that stop and start handles at will: exactly the handles of the list that no callback stops before their turn are called, once each, and one that is stopped and started again is not; the list outlives the loop over it, and calls and state are those of the pass function |
| Inotify.HandleExactly | libuv/src/unix/linux-inotify.c:249-322 | a handle after any starts and stops, inside an event or outside: active on the descriptor of its first successful start after its last stop, or inactive |
| Inotify.Quiet | libuv/src/unix/linux-inotify.c:157-165 | outside of an event no list is empty, and a list holds exactly the active handles of its descriptor |

## Left out

- PoolTheorems.RunSafe: is about runs in which no request is cancelled again after its done callback has run; PoolTheorems.InvNext shows that this is the exact condition, and PoolTheorems.LateCancelRepeats what happens otherwise.
- PoolTheorems.LateCancelRepeats: uv_cancel unlinks a node that is on no list any more; the model gives this no effect. In memory the stale links of the node are written through, which can link later items back into the local list if they have left it meanwhile, so what the lemma says is about runs in which that write hits nothing.
- PoolQueues.Pool.PostWork: the exit message and the ordering of slow work behind it at pool shutdown are not modelled; threads exist from the start and never end.
- AsyncTheorems.NoLostSend: says nothing about handles that are closed, or whose callback is NULL; a reader may leave wake-ups unread, which covers eventfd and pipe alike.
- AsyncProgress.EverySendIsAnswered: says that a state of rest can be reached from everywhere, not that a scheduler reaches it: a thread that is never run again between its two exchanges holds the loop up for ever, in the source too.
- PoolProgress.EveryRequestIsServed: leaves out user calls and spurious wake-ups, of which there can be any number; work functions return.
- AsyncTheorems.NeverAborts: assumes sequential consistency, like all results about threads here; weak memory, signals and the yield inside the spin loop are not modelled.
- TimerHeap.Heap.Insert: the comparison is that of timers, and the count and the bit path are unbounded where the source has 32 bits.
- TimerLoop.Loop.RunTimers: a pass stops where its script of callbacks ends; the lemmas about complete passes ask for a script that is long enough. The counter behind start ids does not wrap, and a timer's loop, user data and the callback pointer itself are not modelled.
- Timers.PassEnds: asks for loop time below 2^64-1 and for callbacks that arm positive delays and do not update the time; Timers.PassBalance counts the shots of every pass without that, and each of the three conditions has a lemma that shows a pass that goes on without it.
- RbTree.Head.Insert: keys are integers, which stand for any total order given by the comparison; RB_AUGMENT and the unused RB_INF are not modelled. Next and Prev take the position of the node as a ghost argument.
- SplayTree.Head.Run: counts the turns of the loop of SPLAY, each of which does a fixed amount of work; an operation without a splay counts no turn.
- SplayTree.Head.Remove: returns the argument, as the source does, even when the node taken out is another one with the same key. SPLAY_NEXT and SPLAY_MINMAX, variations of the same loop, are not modelled.
- Punycode.RoundTrip: is about labels of fewer than 2^32 code points, since the source counts them in 32 bits.
- Idna.DecodeLabel: the decoder of section 6.2 of RFC 3492 is written without overflow checks; libuv has no decoder.
- Inet6Parse.Pton6: the zone suffix that uv_inet_pton cuts off at "%" and unsupported address families are not modelled.
- Spawn.Table.ChildInit: all system calls succeed, open file descriptions are numbers, and the blocking mode that the child sets on its standard streams is not modelled; an error pipe below the number of targets would be overwritten like any descriptor there.
- FsVector.Request.WriteAll: interrupted calls are repeated inside the kernel step; memory is written to a buffer vector of its own, so buffers do not overlap.
- LoopWatcher.Loop.Run: the local list head is kept with the loop instead of on the stack; closing is the same as stopping here.
- IoWatchers.Loop.IoStart: watchers are records in a sequence, numbered instead of pointed to, so aliasing between watcher objects is not captured; the pending queue, error returns of epoll_ctl are not modelled, and started watchers have distinct descriptors.
- Handles.Loop.RunClosingHandles: handles are records in a sequence and the closing list is a sequence, not a chain through next_closing; fs-poll handles, which ask for the closing step later, and the work of the type-specific close functions other than stopping are not modelled.
- EpollWatchers.Dispatcher.Dispatch: the reported descriptors and flags are an input; the descriptors were on the kernel's list when the batch was reported; the signal watcher, which is called last, and the retries of epoll_wait() are not modelled.
- Inotify.Loop.Dispatch: the tree of watcher lists is a map, since RbTree is about the tree; queues are sequences, as in Queue; paths, file names and uv__inotify_fork are not modelled.
- PollFds.Table.Add: the array grows without allocation failure.
- PollWatchers.Poller.Dispatch: the revents that poll() reports are an input; the signal watcher, which is called last, and the retries of poll() are not modelled.
- Allocation failure and abort paths, apart from the ones proved unreachable, are not modelled.
- Handles.Loop.Run: what the phases of an iteration do is a script of operations on handles; the phases themselves are modelled one by one (timers, loop watchers, polling, closing), and real time, signal masks and metrics are not.
- The kqueue, AIX and z/OS pollers and all of Windows are left out: the same bookkeeping behind other calls.
- System-call wrappers, getters and setters, string tables and the remaining handle types would only add easy members.
