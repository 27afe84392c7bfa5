# Verification models for BaseCoreLib

Dafny models of the concurrent queues, pools, integer arithmetic, file rotation, coroutine
scheduler, pattern compiler and Unicode conversion of BaseCoreLib and of the spdlog and fmt
sources it carries, with proofs of what they are for. `dafny verify dfyconfig.toml` checks them.

How concurrency is modelled: a state, a set of events, and a function from one state to the
next; a run is any sequence of enabled events by any number of threads. Memory is sequentially
consistent. A mutex makes a critical section one step; waiting, waking, notifying and timing out
are steps of their own, and condition variables may wake spuriously. Weak compare-and-swap may
fail spuriously. History fields (what was pushed, who removed what) are read by no branch.

How objects are modelled: a class with the source's fields and methods that update them, each
proved against a function on values; the laws are then lemmas about that function.

| module | models |
|---|---|
| QueueCas, QueueCasProgress, QueueCasPool | the lock-free queue under every interleaving, with fresh nodes, and what its calls get done; and with real node reuse, run by one thread |
| CircularQ, BlockingQueue, BlockingCalls, MpmcQueue, CircularQueue | the ring, the monitor of both blocking queues, what a single call does, and their critical sections on real buffers |
| ThreadPool, PoolPosts | workers, posts with three overflow policies, and the destructor, on top of that monitor; what a single post does |
| RingQueue | the lock-free ring for one producer and one consumer |
| FixedThreadPool, FixedPoolIdle | the task queue and its parameter map; the pool left alone |
| WideMul, TrailingZeros, Calendar | arithmetic with its word sizes, and calendar arithmetic |
| FileNames, RotatingSink | rotation over a model file system |
| Coroutine | the scheduler's list, statuses and context switches |
| Padder, Pattern, PatternFormatter, FullReading, DateFlags | padding, the pattern language and its compiler, the caches of the formatter, what can be read from a line, and the date flags |
| Unicode | UTF-8, UTF-16 and the conversions between them |
| Options, Sizes, Sums, Sequences, Modulo, Decimal | shared definitions and facts |

Results that come out against the code, each with its exact condition and a failing input: a task
argument submitted while pending, or a task that is no function pointer, hangs the fixed thread
pool, and nothing else does (`DoneExactlyWhenPolite`; `PendingTwiceSticks`, `CallableSticks`); a
thread pool whose queue has no capacity never shuts down (`NoCapacityNeverJoins`, against
`ShutdownMoves`; `NoCapacityStarts`, `NoCapacityExists`); a padded `!` flag is read as a truncation
mark, which loses the flag unless the text behind it starts with an unknown flag
(`RoundTripExactlyWhen`, `Lost`; `MarkBeforeMain`, and `MarkBeforeBracket` for the repaired case); a
very long width wraps (`WidthExactlyWhen`; `WidthWraps`); a field announced longer than it is, as by
`%D`, is padded or cut wrongly, even into the text before it (`RightExactlyWhen` of Padder;
`ShortDate`), which concerns `%D` always and `%c` when month and day do not take five characters
(`SizeExactlyWhen`); messages from second 0 that come first carry a zeroed date
(`SecondZeroExactlyWhen`, `FullExactlyWhen`; `SecondZeroIsWrong`); and `%I`, announced as 1 to 12 by
its comment, writes 00 after midnight (`TwelveExactlyWhen`; `MidnightIsZero`). That a rotation whose rename fails
twice loses the newest file and keeps older ones is what the code means to do; what exactly is lost
is in `FailureLosesNewest` and `KeptIsSuffix`.

Limits of domains, which the program is not meant to reach: the magic-number division by 1000 is
exact up to 15534100272597517998, the bound Dragonbox is designed for, and one too large for larger
n ending in 999 (`DivideDoubleExact`, `DivideDoubleFails`); the 64-bit trailing-zero removal is
right below 10^8 * 2^32, and from there on for numbers that 10^8 does not divide (`RightExactlyWhen`
of TrailingZeros, `DivergesAt`, `WrongAt`), and its two calls stay below that: at
format-inl.h:1334 and 1358 the significand is the quotient of a 64-bit number by 1000, and at :1246
and 1251 it is a tenth of zi, a 64-bit number shifted right by 11 - beta (:1128-1130), where beta is
the logarithm of a number below 40/3 (:1230-1231), so that zi stays below 2^57.

## Model

| member | source | states |
|---|---|---|
| `QueueCas.StepKeepsInv` | BaseCoreLib/inc/os/LockFreeQueue.hpp:152-235 | every step of every thread, spurious CAS failures included, keeps the shape (acyclic null-terminated chain from the first dummy, head not past tail, tail last or last but one) and what each thread may rely on at its program point |
| `QueueCas.RunKeepsInv` | BaseCoreLib/inc/os/LockFreeQueue.hpp:140-235 | the shape holds in every state of every run of any number of threads |
| `QueueCas.StepIsMonotone` | BaseCoreLib/inc/os/LockFreeQueue.hpp:162-231 | a non-null next never changes; head and tail only move, and only to the next node |
| `QueueCas.InvIsSafe` | BaseCoreLib/inc/os/LockFreeQueue.hpp:152-235 | no step ever dereferences a null or unallocated node, or moves out an element that is not there |
| `QueueCas.LocalStable` | BaseCoreLib/inc/os/LockFreeQueue.hpp:162-231 | what a thread knows from its snapshots stays true under every step of the others |
| `QueueCas.LinkIsAtTail` | BaseCoreLib/inc/os/LockFreeQueue.hpp:172-175 | a snapshot of tail whose next is still null is the last node, so the linking CAS appends at the end |
| `QueueCas.ContentsAreUnremoved` | BaseCoreLib/inc/os/LockFreeQueue.hpp:237-254 | walking the nodes behind head reads exactly the enqueued elements not yet removed, oldest first |
| `QueueCas.WalkChain` | BaseCoreLib/inc/os/LockFreeQueue.hpp:247-252 | the walk along next visits the chain in order and ends |
| `QueueCas.StepRefinesFifo` | BaseCoreLib/inc/os/LockFreeQueue.hpp:152-235 | the linking CAS appends its element, the CAS on head removes the oldest, every other step leaves the abstract queue alone |
| `QueueCas.RunRefinesFifo` | BaseCoreLib/inc/os/LockFreeQueue.hpp:152-235 | over every interleaving the linking and removing CASes are a sequential FIFO execution ending with what memory holds |
| `QueueCas.CallsAreLinearizable` | BaseCoreLib/inc/os/LockFreeQueue.hpp:152-235 | at each moment of a call it has had exactly the effect its program counter tells: an enqueue links once, a successful try_dequeue removes what it returns once, inside the call; and line 212 is reached only if the queue was empty at an instant inside the call |
| `QueueCas.RemovedAreReturnedOnce` | BaseCoreLib/inc/os/LockFreeQueue.hpp:227-231 | every removed element was returned, or its one remover is about to return it; returned elements are the enqueued ones, at their places |
| `QueueCas.NullNextMeansEmpty` | BaseCoreLib/inc/os/LockFreeQueue.hpp:203-213 | a null next read from a node at most head means nothing is queued at that instant |
| `QueueCas.GivingUpSaysNothing` | BaseCoreLib/inc/os/LockFreeQueue.hpp:227-234 | the false after the last attempt promises nothing: a spurious failure gives it with elements queued |
| `QueueCasProgress.SoloDequeue` | BaseCoreLib/inc/os/LockFreeQueue.hpp:198-235 | try_dequeue running alone, from any reachable state and without spurious failures, ends within 19 steps: with the oldest element, or at line 212 on an empty queue; it gives up with elements left exactly when it has no attempt, or a single one that has to move a tail lagging at head |
| `QueueCasProgress.SoloEnqueue` | BaseCoreLib/inc/os/LockFreeQueue.hpp:152-183 | enqueue running alone ends within 15 steps with its element last in the queue and tail at the last node; it returns false exactly when it gets no node, and then nothing has changed |
| `QueueCasProgress.SoloExists` | BaseCoreLib/inc/os/LockFreeQueue.hpp:152-235 | such a run exists from every reachable state, for every choice of the environment |
| `QueueCasProgress.GaveUpWasDisturbed` | BaseCoreLib/inc/os/LockFreeQueue.hpp:199-234 | in every run line 234 is reached only after all attempts, and during each of them tail lagged, head or tail moved, or the CAS on head failed spuriously |
| `QueueCasProgress.NotEnqueuedHadNoNode` | BaseCoreLib/inc/os/LockFreeQueue.hpp:153-156 | in every run enqueue returns false only if the allocation in that call failed |
| `QueueCasPool.QueueCas.PoolIsAccounted` | BaseCoreLib/inc/os/LockFreeQueue.hpp:94-126 | free count plus queue length plus one is the pool size, and every node is in exactly one of the free list and the queue chain |
| `QueueCasPool.QueueCas.constructor` | BaseCoreLib/inc/os/LockFreeQueue.hpp:57-59 | a pool of 1024 nodes with the dummy taken, an empty queue |
| `QueueCasPool.QueueCas.PushFree` | BaseCoreLib/inc/os/LockFreeQueue.hpp:111-116 | puts a node at the front of the free list, whatever weak CASes fail |
| `QueueCasPool.QueueCas.PopFree` | BaseCoreLib/inc/os/LockFreeQueue.hpp:118-126 | takes the first free node; none exactly when the free list is empty |
| `QueueCasPool.QueueCas.Expand` | BaseCoreLib/inc/os/LockFreeQueue.hpp:100-109 | grows the pool in place, all new nodes free, old nodes untouched |
| `QueueCasPool.QueueCas.Allocate` | BaseCoreLib/inc/os/LockFreeQueue.hpp:68-84 | hands out a node rebuilt with version 0 and a null next; the pool doubles exactly when nothing is free |
| `QueueCasPool.QueueCas.Deallocate` | BaseCoreLib/inc/os/LockFreeQueue.hpp:86-93 | rebuilds the node and makes it free again, others untouched |
| `QueueCasPool.QueueCas.Enqueue` | BaseCoreLib/inc/os/LockFreeQueue.hpp:152-183 | appends its element to the abstract queue with reused nodes and spurious failures, keeping the pool partitioned |
| `QueueCasPool.QueueCas.FindLast` | BaseCoreLib/inc/os/LockFreeQueue.hpp:162-179 | the loop ends with tail at the last node |
| `QueueCasPool.QueueCas.TryDequeue` | BaseCoreLib/inc/os/LockFreeQueue.hpp:198-235 | a result is the oldest element; the return at line 212 means empty; with enough attempts for the spurious failures to come, false means exactly empty |
| `QueueCasPool.QueueCas.TakeFirst` | BaseCoreLib/inc/os/LockFreeQueue.hpp:227-229 | the next node becomes the dummy and gives up its element |
| `QueueCasPool.QueueCas.FinishDequeue` | BaseCoreLib/inc/os/LockFreeQueue.hpp:227-231 | behind the CAS on head: the oldest element leaves, the old dummy is free again |
| `QueueCasPool.PartitionCounts` | BaseCoreLib/inc/os/LockFreeQueue.hpp:94-126 | nodes each held exactly once are as many as the pool |
| `QueueCasPool.ListAppend` | BaseCoreLib/inc/os/LockFreeQueue.hpp:172-175 | linking a node with a null next behind the last one appends it to the list memory holds |
| `CircularQ.SlotIsMod` | BaseCoreLib/thirdparty/spdlog-1.x/include/spdlog/details/circular_q.h:47-76 | stepping around the end is the source's remainder |
| `CircularQ.RingPush` | BaseCoreLib/thirdparty/spdlog-1.x/include/spdlog/details/circular_q.h:44-55 | writing the slot at tail and moving the indices appends, and drops the oldest when the ring was full |
| `CircularQ.WindowPop` | BaseCoreLib/thirdparty/spdlog-1.x/include/spdlog/details/circular_q.h:59-81 | the front is the slot at head, and moving head removes it |
| `CircularQ.CircularQ.constructor` | BaseCoreLib/thirdparty/spdlog-1.x/include/spdlog/details/circular_q.h:26-29 | an empty ring with one slot more than asked; the greatest size_t wraps to a disabled ring |
| `CircularQ.CircularQ.PushBack` | BaseCoreLib/thirdparty/spdlog-1.x/include/spdlog/details/circular_q.h:44-55 | appends, losing and counting the oldest element exactly when full; nothing on a disabled ring |
| `CircularQ.CircularQ.PopFront` | BaseCoreLib/thirdparty/spdlog-1.x/include/spdlog/details/circular_q.h:81-81 | removes the oldest element |
| `CircularQ.CircularQ.At` | BaseCoreLib/thirdparty/spdlog-1.x/include/spdlog/details/circular_q.h:74-77 | the element at a position counted from the oldest |
| `CircularQ.CircularQ.Front` | BaseCoreLib/thirdparty/spdlog-1.x/include/spdlog/details/circular_q.h:59-61 | the oldest element |
| `CircularQ.CircularQ.Size` | BaseCoreLib/thirdparty/spdlog-1.x/include/spdlog/details/circular_q.h:64-70 | the number of stored elements, whichever index is ahead |
| `CircularQ.CircularQ.Full` | BaseCoreLib/thirdparty/spdlog-1.x/include/spdlog/details/circular_q.h:85-91 | true exactly when an enabled ring has no room |
| `CircularQ.CircularQ.Empty` | BaseCoreLib/thirdparty/spdlog-1.x/include/spdlog/details/circular_q.h:83-83 | true exactly when nothing is stored |
| `BlockingQueue.StepKeepsInv` | BaseCoreLib/thirdparty/spdlog-1.x/include/spdlog/details/mpmc_blocking_q.h:31-146 | every step of any threads (all operations, spurious wake-ups, timeouts, both notify placements) keeps bounds, wake-up accounting, order and conservation |
| `BlockingQueue.RunsLoseNothing` | BaseCoreLib/thirdparty/spdlog-1.x/include/spdlog/details/mpmc_blocking_q.h:31-146 | in every run: no wake-up is lost for consumers or producers; items come out in the order they went in; every posted item is stored, taken, overrun, discarded or still on its way; the counters agree |
| `BlockingQueue.RestIsJustified` | BaseCoreLib/thirdparty/spdlog-1.x/include/spdlog/details/mpmc_blocking_q.h:31-90 | when every thread rests, consumers sleep only on an empty queue, producers only on a full one, never both |
| `BlockingQueue.NoCapacityBlocks` | BaseCoreLib/thirdparty/spdlog-1.x/include/spdlog/details/mpmc_blocking_q.h:31-39 | with capacity 0, in every run, nothing is ever stored and a blocking enqueue never returns |
| `BlockingQueue.WakeTotals` | BaseCoreLib/thirdparty/spdlog-1.x/include/spdlog/details/mpmc_blocking_q.h:38-38 | one notify moves one sleeper to the signalled ones, or there was none to move |
| `BlockingQueue.NotifyingTotals` | BaseCoreLib/thirdparty/spdlog-1.x/include/spdlog/details/mpmc_blocking_q.h:97-103 | storing or taking under the lock leaves one notify owed, or gives it at once, in the accounting of sleepers |
| `BlockingQueue.StoreConserves` | BaseCoreLib/thirdparty/spdlog-1.x/include/spdlog/details/mpmc_blocking_q.h:41-47 | a push into a full ring moves exactly its oldest element from the queue to the lost ones |
| `BlockingQueue.TakeConserves` | BaseCoreLib/thirdparty/spdlog-1.x/include/spdlog/details/mpmc_blocking_q.h:82-90 | a dequeue moves exactly the oldest element out |
| `BlockingQueue.RunKeepsInv` | BaseCoreLib/inc/os/CircularQueue.hpp:63-145 | the same holds over every run of the variant that notifies inside the section |
| `BlockingCalls.CallTakesEffectOnce` | BaseCoreLib/thirdparty/spdlog-1.x/include/spdlog/details/mpmc_blocking_q.h:31-146 | in every run each call has its effect in exactly one step of its own and returns the matching result: enqueue puts its item in with room; enqueue_nowait too, and loses the oldest item exactly without room; enqueue_if_have_room puts it in with room and drops it without; the dequeues take the oldest item, and report nothing only on an empty queue, dequeue_for only after its timeout; nobody else ever sleeps |
| `MpmcQueue.MpmcBlockingQueue.constructor` | BaseCoreLib/thirdparty/spdlog-1.x/include/spdlog/details/mpmc_blocking_q.h:26-28 | an empty queue of the asked capacity; the greatest size_t gives a disabled ring |
| `MpmcQueue.MpmcBlockingQueue.Enqueue` | BaseCoreLib/thirdparty/spdlog-1.x/include/spdlog/details/mpmc_blocking_q.h:31-39 | on the real ring: waits exactly when full, otherwise appends; a disabled ring never waits and keeps nothing |
| `MpmcQueue.MpmcBlockingQueue.EnqueueNoWait` | BaseCoreLib/thirdparty/spdlog-1.x/include/spdlog/details/mpmc_blocking_q.h:41-47 | on the real ring: appends, and overruns the oldest and counts it exactly when full |
| `MpmcQueue.MpmcBlockingQueue.EnqueueIfHaveRoom` | BaseCoreLib/thirdparty/spdlog-1.x/include/spdlog/details/mpmc_blocking_q.h:49-64 | on the real ring: appends when there is room, otherwise drops the new item |
| `MpmcQueue.MpmcBlockingQueue.Dequeue` | BaseCoreLib/thirdparty/spdlog-1.x/include/spdlog/details/mpmc_blocking_q.h:68-90 | on the real ring: waits, times out, or takes the oldest element |
| `CircularQueue.CircularQueue.constructor` | BaseCoreLib/inc/os/CircularQueue.hpp:28-33 | an empty queue over a buffer of the given capacity |
| `CircularQueue.CircularQueue.Push` | BaseCoreLib/inc/os/CircularQueue.hpp:63-117 | one section of push on the real buffer: waits or refuses exactly when full, otherwise appends |
| `CircularQueue.CircularQueue.Pop` | BaseCoreLib/inc/os/CircularQueue.hpp:119-145 | one section of pop on the real buffer: waits or refuses exactly when empty, otherwise takes the oldest |
| `ThreadPool.StepKeepsInv` | BaseCoreLib/thirdparty/spdlog-1.x/include/spdlog/details/thread_pool-inl.h:45-124 | every step keeps: during shutdown, terminate messages queued plus still to be posted equal workers still looping; and every post is accounted for |
| `ThreadPool.RunKeepsInv` | BaseCoreLib/thirdparty/spdlog-1.x/include/spdlog/details/thread_pool-inl.h:45-124 | this holds in every reachable state |
| `ThreadPool.ShutdownMoves` | BaseCoreLib/thirdparty/spdlog-1.x/include/spdlog/details/thread_pool-inl.h:45-56 | with capacity at least 1, until all workers are joined some step other than a spurious wake-up is enabled: shutdown never deadlocks |
| `ThreadPool.ShutdownStepsGetCloser` | BaseCoreLib/thirdparty/spdlog-1.x/include/spdlog/details/thread_pool-inl.h:45-124 | every step of a shutdown but a spurious wake-up brings it closer to its end |
| `ThreadPool.ShutdownEnds` | BaseCoreLib/thirdparty/spdlog-1.x/include/spdlog/details/thread_pool-inl.h:45-124 | a shutdown has at most as many steps as its measure plus two per spurious wake-up |
| `ThreadPool.JoinedIsClean` | BaseCoreLib/thirdparty/spdlog-1.x/include/spdlog/details/thread_pool-inl.h:45-124 | after the joins every worker exited, the queue is empty, and messages posted equal processed plus one terminate per worker plus overrun plus discarded |
| `ThreadPool.NoCapacityNeverJoins` | BaseCoreLib/thirdparty/spdlog-1.x/include/spdlog/details/thread_pool-inl.h:45-56 | with capacity 0 the destructor never joins, in any run |
| `ThreadPool.NoCapacityStarts` | BaseCoreLib/thirdparty/spdlog-1.x/include/spdlog/details/thread_pool-inl.h:45-56 | every fresh pool of capacity 0 gets there by the first step of its destructor |
| `ThreadPool.NoCapacityExists` | BaseCoreLib/thirdparty/spdlog-1.x/include/spdlog/details/thread_pool-inl.h:15-37 | such a pool, with one worker |
| `ThreadPool.OverrunEvictsTerminate` | BaseCoreLib/thirdparty/spdlog-1.x/include/spdlog/details/thread_pool-inl.h:80-90 | a post beside the destructor that overruns a terminate message leaves fewer of them than workers still looping |
| `ThreadPool.OverrunIsEnqueueNoWait` | BaseCoreLib/thirdparty/spdlog-1.x/include/spdlog/details/mpmc_blocking_q.h:41-47 | that post is the four steps of enqueue_nowait, with the notify in either place |
| `ThreadPool.DeficitNeverJoins` | BaseCoreLib/thirdparty/spdlog-1.x/include/spdlog/details/thread_pool-inl.h:45-56 | and from then on the destructor never joins, in any continuation |
| `ThreadPool.TermsAppend` | BaseCoreLib/thirdparty/spdlog-1.x/include/spdlog/details/thread_pool-inl.h:45-50 | the count of queued terminate messages grows by one exactly when one is appended |
| `ThreadPool.TermsPop` | BaseCoreLib/thirdparty/spdlog-1.x/include/spdlog/details/thread_pool-inl.h:105-124 | and falls by one exactly when one is taken |
| `PoolPosts.PostTakesEffectOnce` | BaseCoreLib/thirdparty/spdlog-1.x/include/spdlog/details/thread_pool-inl.h:80-90 | every post has its effect in one step of its own and returns only after it: block puts its message into a queue with room, never evicting or dropping; overrun_oldest never sleeps or drops, its message goes in and the oldest one out exactly without room; discard_new never sleeps or evicts, its message goes in with room and is dropped without |
| `PoolPosts.RunProcessesTaken` | BaseCoreLib/thirdparty/spdlog-1.x/include/spdlog/details/thread_pool-inl.h:105-124 | in every run the messages processed, with those a worker holds, are as a multiset the messages taken from the queue, terminate messages aside |
| `PoolPosts.JoinedProcessedAll` | BaseCoreLib/thirdparty/spdlog-1.x/include/spdlog/details/thread_pool-inl.h:45-124 | after the joins every message stored has been processed, as often as it was stored and not overrun |
| `RingQueue.StepKeepsInv` | BaseCoreLib/inc/os/CircularQueue.hpp:167-243 | every load, store and slot access of either side keeps the slots holding the items in flight and the snapshots right |
| `RingQueue.RunKeepsInv` | BaseCoreLib/inc/os/CircularQueue.hpp:167-243 | this holds in every state of every interleaving |
| `RingQueue.RunIsFifo` | BaseCoreLib/inc/os/CircularQueue.hpp:167-243 | popped is always a prefix of pushed, at most N items are in flight, and producer and consumer never touch the same slot at once |
| `RingQueue.RefusalsAreJustified` | BaseCoreLib/inc/os/CircularQueue.hpp:167-243 | a push (pop) is refused only when the ring was full (empty) as the other index was read, and goes on only when it was not |
| `RingQueue.PushDoesWhatItSays` | BaseCoreLib/inc/os/CircularQueue.hpp:222-241 | in every run, since its call a push has published exactly its item if it returns true, and nothing if it returns false, which needs a call that does not block and a full ring at some moment of it |
| `RingQueue.PopDoesWhatItSays` | BaseCoreLib/inc/os/CircularQueue.hpp:167-184 | in every run, since its call a pop has given up exactly the item it returns, and none if it returns nothing, which needs a call that does not block and an empty ring at some moment of it |
| `RingQueue.PushAlone` | BaseCoreLib/inc/os/CircularQueue.hpp:222-241 | from any reachable state, the consumer standing still: with room a push ends after four steps with its item published; a full ring refuses it after two or keeps it testing |
| `RingQueue.PopAlone` | BaseCoreLib/inc/os/CircularQueue.hpp:167-184 | from any reachable state, the producer standing still: a pop ends after four steps with the oldest item; an empty ring refuses it after two or keeps it testing |
| `RingQueue.PopReturnsOldest` | BaseCoreLib/inc/os/CircularQueue.hpp:175-184 | a pop returns the oldest item not yet popped |
| `RingQueue.SlotsApart` | BaseCoreLib/inc/os/CircularQueue.hpp:222-243 | the slot being written is none of those holding items |
| `RingQueue.IndicesTell` | BaseCoreLib/inc/os/CircularQueue.hpp:222-243 | equal indices mean empty, and a write index just behind the read index means full |
| `FixedThreadPool.ExecuteKeepsInStep` | BaseCoreLib/inc/os/SimpleFixedThreadpool.hpp:78-86 | execute keeps queue and parameter map in step if and only if its argument is not pending |
| `FixedThreadPool.TakeKeepsInStep` | BaseCoreLib/inc/os/SimpleFixedThreadpool.hpp:32-51 | a worker's iteration keeps them in step |
| `FixedThreadPool.HeadFindsParameter` | BaseCoreLib/inc/os/SimpleFixedThreadpool.hpp:33-42 | while they are in step the head task always finds a parameter |
| `FixedThreadPool.StepKeepsInv` | BaseCoreLib/inc/os/SimpleFixedThreadpool.hpp:29-86 | every step keeps them in step, every call in exactly one place, and no worker exited before all tasks were taken |
| `FixedThreadPool.RunKeepsInv` | BaseCoreLib/inc/os/SimpleFixedThreadpool.hpp:29-86 | this holds over every run with function pointers and no pending argument submitted again |
| `FixedThreadPool.EachRunsOnce` | BaseCoreLib/inc/os/SimpleFixedThreadpool.hpp:29-86 | each submitted call runs at most once, by a worker holding its own function and argument; when all workers have exited the queue and map are empty and each ran |
| `FixedThreadPool.ClosingMoves` | BaseCoreLib/inc/os/SimpleFixedThreadpool.hpp:30-76 | after the destructor's notify every worker that has not exited has a step |
| `FixedThreadPool.ClosingEnds` | BaseCoreLib/inc/os/SimpleFixedThreadpool.hpp:30-76 | each step after the destructor's notify brings the end closer, however the callers behaved |
| `FixedThreadPool.ClosingRunEnds` | BaseCoreLib/inc/os/SimpleFixedThreadpool.hpp:30-76 | so from there a run has at most its measure of steps left |
| `FixedThreadPool.DoneExactlyWhenPolite` | BaseCoreLib/inc/os/SimpleFixedThreadpool.hpp:29-86 | a run come to rest has every worker gone and every call run if and only if every execute passed a plain function pointer and no pending argument (and, without workers, nothing was submitted); otherwise a worker spins under the mutex |
| `FixedThreadPool.ImpoliteNeverEnds` | BaseCoreLib/inc/os/SimpleFixedThreadpool.hpp:78-86 | after one execute with a pending argument or another kind of callable, in whatever state, some task stays queued and no worker ever exits |
| `FixedThreadPool.PendingTwiceSticks` | BaseCoreLib/inc/os/SimpleFixedThreadpool.hpp:79-86 | the shortest run in which a pending argument submitted again leaves a worker spinning |
| `FixedThreadPool.CallableSticks` | BaseCoreLib/inc/os/SimpleFixedThreadpool.hpp:33-52 | one task that is no function pointer brings a pool of one worker to rest with that worker spinning |
| `FixedThreadPool.StuckForever` | BaseCoreLib/inc/os/SimpleFixedThreadpool.hpp:31-52 | a worker that spins never stops, and nothing is taken, submitted or shut down any more |
| `FixedPoolIdle.RunKeepsNotified` | BaseCoreLib/inc/os/SimpleFixedThreadpool.hpp:53-86 | no notify is lost, however the callers behave: while a task is queued a worker is up, or a notify is still owed |
| `FixedPoolIdle.QueuedMoves` | BaseCoreLib/inc/os/SimpleFixedThreadpool.hpp:30-86 | while a task is queued and no worker spins, the pool has a step of its own |
| `FixedPoolIdle.LeftAloneStops` | BaseCoreLib/inc/os/SimpleFixedThreadpool.hpp:30-86 | before the destructor the pool takes a bounded number of steps by itself |
| `FixedPoolIdle.StoppedMeansRan` | BaseCoreLib/inc/os/SimpleFixedThreadpool.hpp:30-86 | and where it stops, everything polite callers submitted has run |
| `FixedPoolIdle.TakenInOrder` | BaseCoreLib/inc/os/SimpleFixedThreadpool.hpp:33-45 | in every run tasks are taken in the order of the calls of execute |
| `WideMul.UmulExact` | BaseCoreLib/thirdparty/spdlog-1.x/include/spdlog/fmt/bundled/format-inl.h:147-173 | the portable 64x64 multiply gives hi * 2^64 + lo = x * y for all inputs |
| `WideMul.UmulUpper` | BaseCoreLib/thirdparty/spdlog-1.x/include/spdlog/fmt/bundled/format-inl.h:177-187 | its halves are quotient and remainder by 2^64 |
| `WideMul.AddToExact` | BaseCoreLib/thirdparty/spdlog-1.x/include/spdlog/fmt/bundled/format.h:401-424 | adding 64 bits with the carry found by comparison is exact when the sum fits 128 bits |
| `WideMul.Umul192UpperExact` | BaseCoreLib/thirdparty/spdlog-1.x/include/spdlog/fmt/bundled/format-inl.h:189-196 | the exact upper 128 of 192 bits |
| `WideMul.Umul192LowerExact` | BaseCoreLib/thirdparty/spdlog-1.x/include/spdlog/fmt/bundled/format-inl.h:204-211 | the exact lower 128 bits |
| `WideMul.Umul96Exact` | BaseCoreLib/thirdparty/spdlog-1.x/include/spdlog/fmt/bundled/format-inl.h:198-217 | the 96-bit products' halves are exact |
| `WideMul.DivideFloatExact` | BaseCoreLib/thirdparty/spdlog-1.x/include/spdlog/fmt/bundled/format-inl.h:279-283 | the float version of divide_by_10_to_kappa_plus_1 is n / 100 for every 32-bit n |
| `WideMul.DivideDoubleExact` | BaseCoreLib/thirdparty/spdlog-1.x/include/spdlog/fmt/bundled/format-inl.h:284-288 | the double version is n / 1000 if and only if n <= 15534100272597517998 or n does not end in 999 |
| `WideMul.OneTooLarge` | BaseCoreLib/thirdparty/spdlog-1.x/include/spdlog/fmt/bundled/format-inl.h:284-288 | in all other cases it is one too large |
| `WideMul.DivideDoubleFails` | BaseCoreLib/thirdparty/spdlog-1.x/include/spdlog/fmt/bundled/format-inl.h:284-288 | the first of them is 15534100272597517999 |
| `TrailingZeros.TestBy100In32` | BaseCoreLib/thirdparty/spdlog-1.x/include/spdlog/fmt/bundled/format-inl.h:1153-1159 | inverse, rotate and compare decides divisibility by 100 exactly, and then gives the quotient |
| `TrailingZeros.TestBy10In32` | BaseCoreLib/thirdparty/spdlog-1.x/include/spdlog/fmt/bundled/format-inl.h:1163-1164 | the same for 10 |
| `TrailingZeros.TestBy100In64` | BaseCoreLib/thirdparty/spdlog-1.x/include/spdlog/fmt/bundled/format-inl.h:1206-1212 | the same for 100 in 64 bits |
| `TrailingZeros.TestBy10In64` | BaseCoreLib/thirdparty/spdlog-1.x/include/spdlog/fmt/bundled/format-inl.h:1216-1217 | the same for 10 in 64 bits |
| `TrailingZeros.TestBy1E8IsExact` | BaseCoreLib/thirdparty/spdlog-1.x/include/spdlog/fmt/bundled/format-inl.h:1176-1183 | the 2^90 / 10^8 test decides divisibility by 10^8 exactly and gives the quotient, for every 64-bit n |
| `TrailingZeros.RotrAdds32` | BaseCoreLib/thirdparty/spdlog-1.x/include/spdlog/fmt/bundled/format-inl.h:137-140 | on machine words, the or of the two shifts is the sum the numeric rotations by one and two use |
| `TrailingZeros.RotrMovesLowBits32` | BaseCoreLib/thirdparty/spdlog-1.x/include/spdlog/fmt/bundled/format-inl.h:137-140 | those rotations move the low bits to the top |
| `TrailingZeros.RotrAdds64` | BaseCoreLib/thirdparty/spdlog-1.x/include/spdlog/fmt/bundled/format-inl.h:141-144 | the same for 64-bit words |
| `TrailingZeros.RotrMovesLowBits64` | BaseCoreLib/thirdparty/spdlog-1.x/include/spdlog/fmt/bundled/format-inl.h:141-144 | the same in 64 bits |
| `TrailingZeros.Strip32` | BaseCoreLib/thirdparty/spdlog-1.x/include/spdlog/fmt/bundled/format-inl.h:1156-1169 | the 32-bit loop ends and leaves n' and s with n = n' * 10^s, n' not divisible by 10 |
| `TrailingZeros.Strip64` | BaseCoreLib/thirdparty/spdlog-1.x/include/spdlog/fmt/bundled/format-inl.h:1205-1222 | the 64-bit loop does the same |
| `TrailingZeros.RemoveTrailingZeros32` | BaseCoreLib/thirdparty/spdlog-1.x/include/spdlog/fmt/bundled/format-inl.h:1151-1170 | the whole 32-bit function, for every n >= 1 |
| `TrailingZeros.RemoveTrailingZeros64` | BaseCoreLib/thirdparty/spdlog-1.x/include/spdlog/fmt/bundled/format-inl.h:1173-1223 | the whole 64-bit function: it loops for ever exactly when 10^8 divides n and the quotient casts to 0; otherwise what it strips |
| `TrailingZeros.StrippedUnique` | BaseCoreLib/thirdparty/spdlog-1.x/include/spdlog/fmt/bundled/format-inl.h:1151-1223 | there is only one right answer |
| `TrailingZeros.RightExactlyWhen` | BaseCoreLib/thirdparty/spdlog-1.x/include/spdlog/fmt/bundled/format-inl.h:1173-1223 | it is right if and only if 10^8 does not divide n or n < 10^8 * 2^32 |
| `TrailingZeros.DivergesAt` | BaseCoreLib/thirdparty/spdlog-1.x/include/spdlog/fmt/bundled/format-inl.h:1183-1194 | at n = 429496729600000000 it never ends |
| `TrailingZeros.WrongAt` | BaseCoreLib/thirdparty/spdlog-1.x/include/spdlog/fmt/bundled/format-inl.h:1183-1203 | at n = 429496729700000000 it leaves 1 and eight zeros |
| `TrailingZeros.ZeroLoops` | BaseCoreLib/thirdparty/spdlog-1.x/include/spdlog/fmt/bundled/format-inl.h:1189-1194 | 0 passes the loop's test for 100 and stays 0 |
| `Calendar.DaysBeforeClosed` | BaseCoreLib/thirdparty/spdlog-1.x/include/spdlog/details/os-inl.h:273-295 | the year-by-year day count with Gregorian leap days has the closed form |
| `Calendar.GmtOffsetIsExact` | BaseCoreLib/thirdparty/spdlog-1.x/include/spdlog/details/os-inl.h:273-295 | calculate_gmt_offset is the exact difference in seconds of any two calendar times with years from 1 on |
| `Calendar.IsoWeekIsRight` | BaseCoreLib/thirdparty/spdlog-1.x/include/spdlog/fmt/bundled/chrono.h:1017-1044 | year and week are those of the week whose Thursday decides them (section 2.2.10 of ISO 8601:2004), and the number is within the year's weeks |
| `Calendar.IsoWeekDeterminesDate` | BaseCoreLib/thirdparty/spdlog-1.x/include/spdlog/fmt/bundled/chrono.h:1017-1044 | ISO year, week and weekday determine the date |
| `Calendar.WeeksAreThursdays` | BaseCoreLib/thirdparty/spdlog-1.x/include/spdlog/fmt/bundled/chrono.h:1017-1026 | iso_year_weeks counts the Thursdays of the year |
| `Calendar.WeekNumTells` | BaseCoreLib/thirdparty/spdlog-1.x/include/spdlog/fmt/bundled/chrono.h:1027-1030 | iso_week_num locates the week's Thursday in the year, also when it lies in a neighbouring one |
| `Calendar.DayDeterminesDate` | BaseCoreLib/thirdparty/spdlog-1.x/include/spdlog/fmt/bundled/chrono.h:1017-1044 | the day number determines year and day of the year |
| `FileNames.SplitParts` | BaseCoreLib/thirdparty/spdlog-1.x/include/spdlog/details/file_helper-inl.h:130-148 | base and extension make up the name; an extension is a dot, something, no further dot or separator, behind a proper name |
| `FileNames.SplitsExactlyWhen` | BaseCoreLib/thirdparty/spdlog-1.x/include/spdlog/details/file_helper-inl.h:130-148 | an extension is found exactly when a last dot stands behind a character of the file's own name and before the last character, and then all of it |
| `FileNames.NamedLikeTheComment` | BaseCoreLib/thirdparty/spdlog-1.x/include/spdlog/sinks/rotating_file_sink-inl.h:52-53 | "logs/mylog.txt" with index 3 is "logs/mylog.3.txt" |
| `FileNames.NamesDistinct` | BaseCoreLib/thirdparty/spdlog-1.x/include/spdlog/sinks/rotating_file_sink-inl.h:55-64 | distinct indices have distinct file names |
| `RotatingSink.RotationLosesOldest` | BaseCoreLib/thirdparty/spdlog-1.x/include/spdlog/sinks/rotating_file_sink-inl.h:103-131 | a rotation loses only the last file, and that only when another moves into its place |
| `RotatingSink.WriteAppends` | BaseCoreLib/thirdparty/spdlog-1.x/include/spdlog/sinks/rotating_file_sink-inl.h:88-88 | a write appends its bytes to what is kept |
| `RotatingSink.FailureLosesNewest` | BaseCoreLib/thirdparty/spdlog-1.x/include/spdlog/sinks/rotating_file_sink-inl.h:103-131 | a rotation whose rename fails twice, wherever it fails, loses the newest file, and the last one as if it had not failed; the rest stays in order |
| `RotatingSink.KeptIsSuffix` | BaseCoreLib/thirdparty/spdlog-1.x/include/spdlog/sinks/rotating_file_sink-inl.h:73-132 | over any run, failed rotations included, file max_files down to file 0 is a suffix of all bytes written less, for each failed rotation, the refused message and the bytes then in file 0 |
| `RotatingSink.AllSurvive` | BaseCoreLib/thirdparty/spdlog-1.x/include/spdlog/sinks/rotating_file_sink-inl.h:73-132 | without a failed rotation these are all bytes ever written |
| `RotatingSink.LimitHolds` | BaseCoreLib/thirdparty/spdlog-1.x/include/spdlog/sinks/rotating_file_sink-inl.h:73-132 | over any run, failed rotations included, a file the sink started exceeds max_size only if it holds a single non-empty message |
| `RotatingSink.AppendsExactlyWhenFits` | BaseCoreLib/thirdparty/spdlog-1.x/include/spdlog/sinks/rotating_file_sink-inl.h:73-90 | a call appends its message to file 0 and touches nothing else if and only if the two together are within max_size or file 0 is empty; otherwise it throws, or file 0 holds the message alone and file 1 what was file 0 |
| `RotatingSink.SmallRunsStay` | BaseCoreLib/thirdparty/spdlog-1.x/include/spdlog/sinks/rotating_file_sink-inl.h:73-90 | a run whose bytes fit into file 0 loses nothing and touches no other file |
| `RotatingSink.RotatesOnlyWhenFull` | BaseCoreLib/thirdparty/spdlog-1.x/include/spdlog/sinks/rotating_file_sink-inl.h:78-86 | in every run a call that does anything else found a file 0 that was not empty and together with its message above max_size |
| `RotatingSink.RotatingFileSink.constructor` | BaseCoreLib/thirdparty/spdlog-1.x/include/spdlog/sinks/rotating_file_sink-inl.h:33-36 | the member initializers, over any file system and any rename failures to come |
| `RotatingSink.RotatingFileSink.Make` | BaseCoreLib/thirdparty/spdlog-1.x/include/spdlog/sinks/rotating_file_sink-inl.h:27-50 | throws on a zero size or more than 200000 files, touching nothing, and when a rotation it was asked for fails, leaving what a failed rotation leaves; otherwise a sink with file 0 opened, rotated if asked and not empty |
| `RotatingSink.RotatingFileSink.Start` | BaseCoreLib/thirdparty/spdlog-1.x/include/spdlog/sinks/rotating_file_sink-inl.h:43-50 | opens file 0, takes its size, rotates when asked and not empty; fails only with a failing rename, and what the files are then |
| `RotatingSink.RotatingFileSink.Open` | BaseCoreLib/thirdparty/spdlog-1.x/include/spdlog/details/file_helper-inl.h:28-64 | truncating or appending open of file 0; no other file touched |
| `RotatingSink.RotatingFileSink.RenameFile` | BaseCoreLib/thirdparty/spdlog-1.x/include/spdlog/sinks/rotating_file_sink-inl.h:133-141 | removes the target, then renames; a failure loses the target only |
| `RotatingSink.RotatingFileSink.Rotate` | BaseCoreLib/thirdparty/spdlog-1.x/include/spdlog/sinks/rotating_file_sink-inl.h:103-131 | on the file system: the abstract rotation when every needed rename came through, even at the second try; otherwise file 0 truncated, size 0, the place it failed at empty, those above moved and those below untouched |
| `RotatingSink.RotatingFileSink.ShiftAll` | BaseCoreLib/thirdparty/spdlog-1.x/include/spdlog/sinks/rotating_file_sink-inl.h:107-129 | the loop moves every file up, highest first, up to the place where a rename fails twice |
| `RotatingSink.RotatingFileSink.Shift` | BaseCoreLib/thirdparty/spdlog-1.x/include/spdlog/sinks/rotating_file_sink-inl.h:108-129 | one round: nothing without a source file, otherwise the move, or its target lost after two failures |
| `RotatingSink.RotatingFileSink.Move` | BaseCoreLib/thirdparty/spdlog-1.x/include/spdlog/sinks/rotating_file_sink-inl.h:115-120 | a failing rename is tried once more |
| `RotatingSink.RotatingFileSink.SinkIt` | BaseCoreLib/thirdparty/spdlog-1.x/include/spdlog/sinks/rotating_file_sink-inl.h:73-90 | on the file system: appends and succeeds when the message fits, and otherwise leaves it alone in file 0 or throws; the abstract logging call, failing exactly when it rotates and a rename fails twice, current_size_ staying the size of file 0, other names untouched |
| `Coroutine.StepKeepsInv` | BaseCoreLib/src/os/SimpleCoroutine.cpp:35-285 | every call keeps: a duplicate-free list that contains main once in use, no other coroutine marked running than the current one, the current one not done, and every other listed one parked where it stopped |
| `Coroutine.RunKeepsInv` | BaseCoreLib/src/os/SimpleCoroutine.cpp:35-285 | this holds in every run in which only main resumes |
| `Coroutine.DoneStaysDone` | BaseCoreLib/src/os/SimpleCoroutine.cpp:92-100 | a finished coroutine stays done and is never the current one, at any step of any run, until it is destroyed |
| `Coroutine.SwitchesAreSafe` | BaseCoreLib/src/os/SimpleCoroutine.cpp:104-248 | control only goes to a coroutine that was not done, and that had saved its context or had never started |
| `Coroutine.DestroyedWasIdle` | BaseCoreLib/src/os/SimpleCoroutine.cpp:251-285 | a coroutine disappears only by its own destruction, ready or done, and never while it is the current one |
| `Coroutine.ResumedGoesOnExactlyWhen` | BaseCoreLib/src/os/SimpleCoroutine.cpp:104-132 | a resumed coroutine goes on, listed and with main parked, if and only if it was ready or suspended and has a stack or gets one; otherwise nothing changes |
| `Coroutine.YieldedGoesOn` | BaseCoreLib/src/os/SimpleCoroutine.cpp:228-248 | a coroutine that yields to another one is suspended and parked, and the other goes on |
| `Coroutine.CreatedIsReady` | BaseCoreLib/src/os/SimpleCoroutine.cpp:76-88 | a new coroutine is ready, and nothing else changes |
| `Coroutine.FinishedIsDone` | BaseCoreLib/src/os/SimpleCoroutine.cpp:92-100 | a coroutine whose function returns is done, and another goes on |
| `Coroutine.DestroyedIsGone` | BaseCoreLib/src/os/SimpleCoroutine.cpp:251-285 | a destroyed coroutine is gone exactly when it was ready or done and is not main |
| `Coroutine.Scheduler.CoroAddList` | BaseCoreLib/src/os/SimpleCoroutine.cpp:35-45 | adds at the head unless already there, and counts |
| `Coroutine.Scheduler.CoroSelect` | BaseCoreLib/src/os/SimpleCoroutine.cpp:48-73 | returns a listed coroutine that is not done, whatever rand gives, recursing at most once |
| `Coroutine.Scheduler.CoroResume` | BaseCoreLib/src/os/SimpleCoroutine.cpp:104-132 | is the resume step: only ready or suspended ones are entered; a suspended one had saved its context; main joins the list first |
| `Coroutine.Scheduler.CoroYield` | BaseCoreLib/src/os/SimpleCoroutine.cpp:228-248 | is a yield step: the target was not done and, unless it is the yielder, had saved its context |
| `Coroutine.Scheduler.CoroFinish` | BaseCoreLib/src/os/SimpleCoroutine.cpp:92-100 | is a finish step: the coroutine is done, control goes to another that was not done and had saved its context |
| `Coroutine.Scheduler.CoroDestroy` | BaseCoreLib/src/os/SimpleCoroutine.cpp:251-285 | is a destroy step: waits for a running or suspended one, which still exists; frees only ready or done ones, removing them from list and count |
| `Coroutine.Scheduler.Unlink` | BaseCoreLib/src/os/SimpleCoroutine.cpp:260-278 | the walk removes exactly the given coroutine |
| `Padder.FieldShape` | BaseCoreLib/thirdparty/spdlog-1.x/include/spdlog/pattern_formatter-inl.h:37-76 | what a padded field is: width, text unbroken, spaces left, right or split with the odd one behind, cut only when asked |
| `Padder.RightExactlyWhen` | BaseCoreLib/thirdparty/spdlog-1.x/include/spdlog/pattern_formatter-inl.h:37-70 | for every announced length, a field comes out as specified behind an untouched buffer if and only if the announced length is right, or leaves the same gap with nothing to be cut |
| `Padder.OverAnnounced` | BaseCoreLib/thirdparty/spdlog-1.x/include/spdlog/pattern_formatter-inl.h:37-70 | a text announced too long comes out right if and only if it is not to be cut and fills its width by itself |
| `Padder.ShortDate` | BaseCoreLib/thirdparty/spdlog-1.x/include/spdlog/pattern_formatter-inl.h:256-270 | the date of %D, announced as ten characters and eight long: two columns short in a width of ten, one character instead of three, a character of the text before it lost, or a resize below zero |
| `Padder.ScopedPadder.constructor` | BaseCoreLib/thirdparty/spdlog-1.x/include/spdlog/pattern_formatter-inl.h:39-56 | the spaces before the text, never more than the 64 stored ones |
| `Padder.ScopedPadder.Destroy` | BaseCoreLib/thirdparty/spdlog-1.x/include/spdlog/pattern_formatter-inl.h:63-70 | the spaces behind it, or the cut, which fails when it would leave less than nothing |
| `Padder.ScopedPadder.PadIt` | BaseCoreLib/thirdparty/spdlog-1.x/include/spdlog/pattern_formatter-inl.h:73-76 | a stretch of the stored spaces |
| `Padder.WriteField` | BaseCoreLib/thirdparty/spdlog-1.x/include/spdlog/pattern_formatter-inl.h:37-76 | construction, body, destruction for any announced length: the stated buffer or the failing resize, and the specified field when the announced length is right |
| `Pattern.RoundTrip` | BaseCoreLib/thirdparty/spdlog-1.x/include/spdlog/pattern_formatter-inl.h:945-1267 | spelling a readable normal list of formatters and compiling it gives the same list back, for any custom flags |
| `Pattern.RoundTripExactlyWhen` | BaseCoreLib/thirdparty/spdlog-1.x/include/spdlog/pattern_formatter-inl.h:945-1267 | with plain custom flags, up to merging adjacent texts, a normal list survives spelling and compiling if and only if every padded '!' without a mark is followed by a text that starts with an unknown flag |
| `Pattern.UnsplitExactlyWhen` | BaseCoreLib/thirdparty/spdlog-1.x/include/spdlog/pattern_formatter-inl.h:1162-1183 | the list comes back without merging, no text split in two, if and only if that text is moreover one character long |
| `Pattern.Lost` | BaseCoreLib/thirdparty/spdlog-1.x/include/spdlog/pattern_formatter-inl.h:1162-1183 | any other padded, unmarked '!' is gone: what comes out does not start with it, merged or not |
| `Pattern.MarkBeforeMain` | BaseCoreLib/thirdparty/spdlog-1.x/include/spdlog/pattern_formatter-inl.h:1222-1230 | "%10!main" is a month cut to ten columns and the text "ain" |
| `Pattern.MarkBeforeBracket` | BaseCoreLib/thirdparty/spdlog-1.x/include/spdlog/pattern_formatter-inl.h:1170-1179 | the case the compiler repairs: in "[%10!] %v" the padded funcname survives, as the code's comment promises |
| `Pattern.ReadsPad` | BaseCoreLib/thirdparty/spdlog-1.x/include/spdlog/pattern_formatter-inl.h:1188-1231 | a spelled padding is read back, unless what follows continues it |
| `Pattern.MarkTaken` | BaseCoreLib/thirdparty/spdlog-1.x/include/spdlog/pattern_formatter-inl.h:1222-1230 | a '!' behind an unmarked width is taken for the truncation mark, and the next character for the flag |
| `Pattern.WidthExactlyWhen` | BaseCoreLib/thirdparty/spdlog-1.x/include/spdlog/pattern_formatter-inl.h:1216-1230 | a width counts as written, up to 64, if and only if it does not wrap in 64 bits to less than 64 |
| `Pattern.WidthWraps` | BaseCoreLib/thirdparty/spdlog-1.x/include/spdlog/pattern_formatter-inl.h:1216-1230 | the pattern with the width 2^64 compiles to a width of 0 |
| `Pattern.Collects` | BaseCoreLib/thirdparty/spdlog-1.x/include/spdlog/pattern_formatter-inl.h:1257-1262 | characters outside flags are merged |
| `Pattern.UnknownIsWritten` | BaseCoreLib/thirdparty/spdlog-1.x/include/spdlog/pattern_formatter-inl.h:1160-1181 | an unknown flag is written as it stands, without its padding; behind a truncation mark the mark was the flag |
| `Pattern.SharedFlags` | BaseCoreLib/thirdparty/spdlog-1.x/include/spdlog/pattern_formatter-inl.h:993-1087 | h compiles like b, x like D, X like T |
| `Pattern.UnfinishedIsDropped` | BaseCoreLib/thirdparty/spdlog-1.x/include/spdlog/pattern_formatter-inl.h:1245-1256 | a flag the end of the pattern cuts off is dropped, with its padding |
| `PatternFormatter.CachesNeverShow` | BaseCoreLib/thirdparty/spdlog-1.x/include/spdlog/pattern_formatter-inl.h:793-933 | over any calls, messages in any time order, the cached formatter writes what one without caches writes; the only trace of the past is whether a message has set the date |
| `PatternFormatter.CachedIsUncached` | BaseCoreLib/thirdparty/spdlog-1.x/include/spdlog/pattern_formatter-inl.h:793-933 | unless the first message that needs the date is from second 0, every message is written with the date of its own second |
| `PatternFormatter.SecondZeroExactlyWhen` | BaseCoreLib/thirdparty/spdlog-1.x/include/spdlog/pattern_formatter-inl.h:872-933 | over every run, the outputs are the uncached ones if and only if no message before the first needed one of another second reads differently under the zeroed date |
| `PatternFormatter.FullExactlyWhen` | BaseCoreLib/thirdparty/spdlog-1.x/include/spdlog/pattern_formatter-inl.h:887-920 | under the full pattern, where the zeroed date does not read like second 0, a run of messages comes out right if and only if the first is not from second 0 |
| `PatternFormatter.SecondZeroIsWrong` | BaseCoreLib/thirdparty/spdlog-1.x/include/spdlog/pattern_formatter-inl.h:887-920 | with an epoch in 1970 every run under the full pattern that starts in second 0 comes out wrong |
| `PatternFormatter.TextAgrees` | BaseCoreLib/thirdparty/spdlog-1.x/include/spdlog/pattern_formatter-inl.h:793-825 | a full formatter's cached text, current or outdated, gives the uncached text |
| `PatternFormatter.StepAgrees` | BaseCoreLib/thirdparty/spdlog-1.x/include/spdlog/pattern_formatter-inl.h:912-935 | each call keeps caches and reference in agreement |
| `PatternFormatter.PatternFormatter.constructor` | BaseCoreLib/thirdparty/spdlog-1.x/include/spdlog/pattern_formatter-inl.h:872-884 | compiles the pattern; zeroed date, second 0 |
| `PatternFormatter.PatternFormatter.Default` | BaseCoreLib/thirdparty/spdlog-1.x/include/spdlog/pattern_formatter-inl.h:887-895 | the full formatter, the date needed |
| `PatternFormatter.PatternFormatter.SetPattern` | BaseCoreLib/thirdparty/spdlog-1.x/include/spdlog/pattern_formatter-inl.h:929-933 | recompiles and recomputes whether the date is needed; the cached date stays |
| `PatternFormatter.PatternFormatter.NeedLocaltime` | BaseCoreLib/thirdparty/spdlog-1.x/include/spdlog/pattern_formatter-inl.h:935-935 | sets the flag and nothing else |
| `PatternFormatter.PatternFormatter.HandlePadspec` | BaseCoreLib/thirdparty/spdlog-1.x/include/spdlog/pattern_formatter-inl.h:1188-1231 | advances past exactly the padding specification and returns it |
| `PatternFormatter.PatternFormatter.ReadWidth` | BaseCoreLib/thirdparty/spdlog-1.x/include/spdlog/pattern_formatter-inl.h:1216-1220 | consumes all digits, accumulating modulo 2^64 |
| `PatternFormatter.PatternFormatter.HandleFlag` | BaseCoreLib/thirdparty/spdlog-1.x/include/spdlog/pattern_formatter-inl.h:945-1183 | appends what the flag stands for and asks for the date exactly when one of the appended formatters reads it |
| `PatternFormatter.PatternFormatter.CompilePattern` | BaseCoreLib/thirdparty/spdlog-1.x/include/spdlog/pattern_formatter-inl.h:1233-1267 | the compile loop computes the specified list |
| `PatternFormatter.PatternFormatter.Format` | BaseCoreLib/thirdparty/spdlog-1.x/include/spdlog/pattern_formatter-inl.h:912-927 | refreshes the date, runs every formatter in order on the caller's buffer, which a formatter may also cut into, updates the full formatters' caches in place, appends the end of line |
| `PatternFormatter.MergedReadsSame` | BaseCoreLib/thirdparty/spdlog-1.x/include/spdlog/pattern_formatter-inl.h:912-927 | merging adjacent texts changes nothing that is written |
| `FullReading.DateReads` | BaseCoreLib/thirdparty/spdlog-1.x/include/spdlog/pattern_formatter-inl.h:804-820 | the date text is 21 characters: the year, month, day, hour, minute and second can be read at their places, each behind its separator |
| `FullReading.DateDetermines` | BaseCoreLib/thirdparty/spdlog-1.x/include/spdlog/pattern_formatter-inl.h:804-820 | so it determines the date down to the second |
| `FullReading.TailReads` | BaseCoreLib/thirdparty/spdlog-1.x/include/spdlog/pattern_formatter-inl.h:826-866 | behind the date: the milliseconds of the second in three digits, the logger's name in brackets if it has one, the level in brackets, base name and line of the source in brackets if there is one, and the payload to the end |
| `FullReading.BasenameTells` | BaseCoreLib/thirdparty/spdlog-1.x/include/spdlog/pattern_formatter-inl.h:694-713 | a base name has no separator and is what stands behind the last one |
| `FullReading.WritesInOrder` | BaseCoreLib/thirdparty/spdlog-1.x/include/spdlog/pattern_formatter-inl.h:923-925 | formatters run in the order of the pattern |
| `FullReading.PlainLine` | BaseCoreLib/thirdparty/spdlog-1.x/include/spdlog/pattern_formatter-inl.h:1257-1262 | a pattern without flags is its own line, and the end of line follows |
| `FullReading.PercentLine` | BaseCoreLib/thirdparty/spdlog-1.x/include/spdlog/pattern_formatter-inl.h:1134-1136 | a doubled percent sign writes one |
| `FullReading.DefaultLine` | BaseCoreLib/thirdparty/spdlog-1.x/include/spdlog/pattern_formatter-inl.h:793-927 | the default line of a message not from second 0 is the date of its own second and the rest, behind what the buffer held, and the end of line |
| `DateFlags.DatedExactlyWhen` | BaseCoreLib/thirdparty/spdlog-1.x/include/spdlog/pattern_formatter-inl.h:985-1104 | the date is asked for by exactly the flags whose text differs for different dates, and by %z |
| `DateFlags.SizeExactlyWhen` | BaseCoreLib/thirdparty/spdlog-1.x/include/spdlog/pattern_formatter-inl.h:147-504 | for dates from 1900 on a date formatter announces the length of its text, unless it is that of %D, or of %c with a month and day that do not take five characters together |
| `DateFlags.PaddedRight` | BaseCoreLib/thirdparty/spdlog-1.x/include/spdlog/pattern_formatter-inl.h:147-504 | so the other padded dates come out as specified for every padding and every buffer |
| `DateFlags.TwelveHoursTell` | BaseCoreLib/thirdparty/spdlog-1.x/include/spdlog/pattern_formatter-inl.h:139-141 | %I and %p together tell the hour |
| `DateFlags.TwelveExactlyWhen` | BaseCoreLib/thirdparty/spdlog-1.x/include/spdlog/pattern_formatter-inl.h:329-342 | the hour of %I is between 1 and 12, as its comment says, if and only if it is not the one after midnight |
| `DateFlags.MidnightIsZero` | BaseCoreLib/thirdparty/spdlog-1.x/include/spdlog/pattern_formatter-inl.h:141-141 | where it writes 00 |
| `PatternFormatter.PatternFormatter.AppendFull` | BaseCoreLib/thirdparty/spdlog-1.x/include/spdlog/pattern_formatter-inl.h:793-859 | renews the cached date text exactly when the second changed or there is none |
| `Unicode.DecodeIsExact` | BaseCoreLib/thirdparty/spdlog-1.x/include/spdlog/fmt/bundled/format.h:603-637 | the branchless decoder reports no error exactly on the byte sequences of section 4 of RFC 3629, and then gives their length and value |
| `Unicode.EmitsUtf8` | BaseCoreLib/thirdparty/spdlog-1.x/include/spdlog/fmt/bundled/chrono.h:373-389 | the shifts and masks of the emitting loop give the UTF-8 bytes of section 3 of RFC 3629, and it throws on everything that is no scalar value |
| `Unicode.WellFormedIsUtf8` | BaseCoreLib/thirdparty/spdlog-1.x/include/spdlog/fmt/bundled/format.h:603-637 | well-formed bytes are the encoding of their value |
| `Unicode.JoinsPair` | BaseCoreLib/thirdparty/spdlog-1.x/include/spdlog/fmt/bundled/chrono.h:364-372 | the one-step join equals the value of the surrogate pair (section 2.2 of RFC 2781) |
| `Unicode.PairIsUtf16` | BaseCoreLib/thirdparty/spdlog-1.x/include/spdlog/fmt/bundled/chrono.h:364-372 | a surrogate pair is the encoding of that value |
| `Unicode.AppendsUtf16` | BaseCoreLib/thirdparty/spdlog-1.x/include/spdlog/fmt/bundled/format-inl.h:1440-1446 | the units appended for a code point are those of section 2.1 of RFC 2781 |
| `Unicode.ParseEncode` | BaseCoreLib/thirdparty/spdlog-1.x/include/spdlog/fmt/bundled/format.h:644-672 | parsing gives back every encoded string |
| `Unicode.EncodeParse` | BaseCoreLib/thirdparty/spdlog-1.x/include/spdlog/fmt/bundled/format.h:644-672 | nothing but encoded strings is parsed |
| `Unicode.EncodeInjective` | BaseCoreLib/thirdparty/spdlog-1.x/include/spdlog/fmt/bundled/chrono.h:362-389 | different strings have different bytes |
| `Unicode.JoinUnits` | BaseCoreLib/thirdparty/spdlog-1.x/include/spdlog/fmt/bundled/chrono.h:362-372 | joining surrogates gives back every string encoded in UTF-16 |
| `Unicode.ThereAndBack` | BaseCoreLib/thirdparty/spdlog-1.x/include/spdlog/fmt/bundled/format-inl.h:1437-1450 | a UTF-8 string converted to UTF-16 comes back from the joining, byte-emitting loop as itself |
| `Unicode.WriteEncoded16` | BaseCoreLib/thirdparty/spdlog-1.x/include/spdlog/fmt/bundled/chrono.h:359-391 | the loop over 16-bit units: the UTF-8 encoding of what the units stand for, or the error exactly when a surrogate stands alone |
| `Unicode.WriteEncoded32` | BaseCoreLib/thirdparty/spdlog-1.x/include/spdlog/fmt/bundled/chrono.h:359-391 | the loop over whole code points: the UTF-8 encoding, or the error exactly when one is no scalar value |
| `Unicode.Utf8ToUtf16` | BaseCoreLib/thirdparty/spdlog-1.x/include/spdlog/fmt/bundled/format-inl.h:1437-1450 | the UTF-16 form with a terminating zero, or the error exactly when the bytes are not well formed |
| `Unicode.DecodeAt` | BaseCoreLib/thirdparty/spdlog-1.x/include/spdlog/fmt/bundled/format.h:645-652 | one step of the code point walk, bytes past the end read as zero |

## Left out

- Reuse of nodes by several threads in the lock-free queue: in QueueCas `allocate` never hands out a node twice and `deallocate` does nothing. The placement-new at LockFreeQueue.hpp:80 and :90 sets `version` back to 0, so the re-checks at :168 and :206 say nothing about a reused node. First-in-first-out order can then fail: between the CAS of one dequeuer at :227 and its read of next's element at :228, a second dequeuer can move head past that same node and deallocate it, and it may be rebuilt, and even refilled by an enqueue, before the first one reads it.
- Memory orders weaker than sequential consistency, in the lock-free queue and in RingQueue.
- Progress of the retry loops under contention: no fairness is claimed. QueueCasProgress bounds the steps of a call that runs alone; QueueCasPool bounds the loops by the spurious failures to come.
- A failing allocation: in QueueCas `allocate` may fail and `enqueue` then returns false; in QueueCasPool memory is unbounded and it never does.
- `QueueCasPool.QueueCas.Expand` takes the nodes one at a time, as the source does, but growing the vector is one assignment of a sequence.
- BlockingQueue.RunsLoseNothing: does not wrap the overrun and discard counters at 2^64; CircularQ does.
- Resetting and reading the queue counters, and `copy_moveable` of circular_q: they would only add easy members.
- MpmcQueue: memory for the ring is unbounded; the monitor of BlockingQueue has no disabled ring, which only the greatest size_t gives.
- A push refused by CircularQueue counts as a discard in the monitor; the source keeps no such counter.
- Posts that run beside the pool's destructor: the logger's shared pointer to the pool excludes them (async_logger-inl.h); OverrunEvictsTerminate and DeficitNeverJoins show what one of them would break.
- ThreadPool: the handlers on_thread_start and on_thread_stop, flushing, and what a message does to its sinks.
- FixedThreadPool: tasks that throw, and detaching of the worker threads.
- Full Dragonbox, its power tables and its logarithm approximations on small fixed ranges, which enumeration settles.
- Calendar: years before 1, and seconds fields above 59 only as numbers.
- RotatingSink: event handlers, buffering, the delay before the second try of a rename, and failing writes, opens and removals.
- Coroutine stacks, setjmp frames and inline assembly: a context is a flag saying it was saved. `rand` is an arbitrary choice; nothing is claimed about fairness or about how long `coro_destroy` waits. Coroutines that resume others are not part of this model, nor is a yield before the first resume, which the source asserts against.
- PatternFormatter: the texts of the formatters other than `+` are arbitrary functions of the message, the date and the buffer there; DateFlags has the texts of the date flags. The ten-second cache of `%z`, the running time of `%u`, `%i`, `%o`, `%O` and the colour range of the message are not part of this model. The date is not switched off under a pattern that reads it, and it is switched on when custom formatters that read it are called; those that do not read it are called either way. A cut that would leave less than nothing of the buffer, which Padder models, does not end a call here.
- PatternFormatter: `clone`, which compiles the same pattern into a new object.
- Pattern: `std::isdigit` is the one of the "C" locale.
- Unicode: converting a locale's text to code units (`write_codecvt`).
- The looper, the wrappers over OS primitives, files, the other sinks, registry, levels, hex dump and benchmarks: I/O, foreign libraries or easy members; MessageQueue.cpp is not part of this model.
