# Verified models of the operating-systems labs

This project models the concurrent protocols, the two allocators and the shell's parse path of
the labs repository, and proves what they guarantee for every configuration (numbers of threads,
slots, chunks, chairs, rounds) and every schedule.

`dafny verify dfyconfig.toml` checks everything.

## How the concurrent programs are modelled

A protocol is a state machine: a `State` datatype, an `Action` for each atomic step, `Enabled`
and `Do`, and `After(c, acts)`, the state a schedule leads to. One atomic step is the code from
taking the mutex (or being handed it back by `pthread_cond_wait`) to the next `pthread_cond_wait`
or unlock. A thread asleep on a condition variable becomes woken when signalled and stays so
until it has the mutex again. `pthread_cond_signal` wakes one sleeper, any of them, if there is one
(IEEE Std 1003.1, `pthread_cond_signal`); spurious wakeups are separate actions. Safety results
quantify over schedules with spurious wakeups unless the program itself cannot stand them;
termination results are about schedules without.

Next to each protocol stands a class with the program's own variables and one method per critical
section, proved to take exactly the step of the state machine (`View() == Do(c, old(View()), a)`).
What a step does is also told without the program's counters, by the positions of the threads and
what has happened so far: the lemmas named `...Outcome`, `...AdmittedIff` and `...Wakes`.

| file | what it covers |
|---|---|
| `Tallies`, `Ranking`, `Conditions` | counting over sequences, lexicographic ranks, signals and broadcasts |
| `MasterWorker*` | bounded LIFO buffer: steps, their outcomes, safety, termination, three exact characterizations, the monitor |
| `RwLock*` | reader- and writer-preferring locks: steps, their outcomes, safety, termination, histories, the lock |
| `TokenRing*` | zemaphores and the ring of printing threads |
| `Barber*` | sleeping barber |
| `Chunks`, `ChunkLoops`, `Fragmentation` | a page's bitmap and size table, its loops, first fit |
| `Page*`, `Heap*` | the single-page and the growing allocator |
| `AllocatorOutcomes` | what each call does to the tables of either, entry by entry |
| `Slot*` | shared-memory slots and the offset FIFO, byte by byte |
| `Shell` | tokenizer and command splitter |

## What the proofs found

* With a master, a worker and a slot, the master/worker program has produced and consumed every
  item below `total_items` exactly once wherever no thread can step, under every schedule. But it
  neither always ends nor always stops at `total_items`, and an item beyond may stay in the buffer.
  All three are characterized exactly:
  `MasterWorkerExactness.AllThreadsExitIff` gives the settings under which every thread always
  exits (with several workers, one can be left asleep; with one worker, a master can, once there
  are at least `max_buf_size + 2` masters and more items than slots), and
  `MasterWorkerExactness.OverproductionIff` those under which more items are produced than asked
  for (two masters, a worker, a slot, and more items than slots); under the same settings, and no
  others, one of them can be left in the buffer for good (`MasterWorkerExactness.LeftoverIff`).
* A reader can overtake a registered writer under the reader-preferring lock for exactly the
  settings in `RwLockHistory.CanOvertake`, and never under the writer-preferring one.
* The wait of `zem_down` is not looped. With spurious wakeups, a run of the ring stays in turn, with
  no count below zero, if and only if no down that resumes finds its count at zero
  (`TokenRing.InTurnIff`); every run does so for exactly the rings with one thread or no rounds
  (`TokenRing.EveryRunInTurnIff`).
* Nor is the customer's wait in the barber shop. The shop's counters are exact throughout a run if and
  only if no customer is woken spuriously (`Barber.ExactIff`), which every run satisfies only with no
  chairs or no customers (`Barber.EveryRunExactIff`). Yet wherever no thread can step any more, all
  customers have gone and there were as many haircuts as customers seated
  (`Barber.QuiescentMeansServed`).
* `dealloc` of either allocator accepts any pointer into the first chunk of a live block, not only the
  one `alloc` returned, and ignores every other pointer (`Page.TargetIff`, `HeapMonitor.FreedIff`).
* With blocks of one size, the growing allocator refuses a request only when full, even after failures
  of `mmap` (`Heap.UniformRefusedOnlyWhenFull`).
* However slow the consumer, the slot producer gets every message across if there is a slot for each,
  and otherwise at least one for each slot (`SlotDelivery.ProducerDelivers`). With fewer slots than
  messages, as in the program (256 and 1000), some runs lose messages (`SlotDelivery.AllSentIff`), down to
  one for each slot (`SlotDelivery.DeliveryBoundReached`); a failed scan costs its own iteration only
  (`SlotRecovery.LaterOnesDelivered`, `SlotRecovery.OneLost`).
* `serial_process` runs a command without words exactly where a separator has nothing before it
  (`Shell.EmptyCommandIff`).

## Model

| member | source | states |
|---|---|---|
| MasterWorkerSafety.Safety | pthreads-sync-code/master-worker/master-worker.c:23-79 | In every state of every schedule, spurious wakeups included: items are numbered consecutively and each is either buffered or consumed; no wakeup is lost (a sleeping master leaves no more free slots than there are woken masters, a sleeping worker no more items than woken workers); nobody exits early; masters past their check are bounded |
| MasterWorkerSafety.ProduceKeepsInv | pthreads-sync-code/master-worker/master-worker.c:38-46 | Producing and signalling one sleeping worker keeps all of that, although the producer does not test the item count again after its wait |
| MasterWorkerSafety.WorkerKeepsInv | pthreads-sync-code/master-worker/master-worker.c:54-77 | So does every way through a worker's critical section |
| MasterWorkerSafety.ConsumesNewest | pthreads-sync-code/master-worker/master-worker.c:69-73 | A worker takes the newest of the items not yet consumed, and none that was consumed before |
| MasterWorkerSafety.ExactlyOnce | pthreads-sync-code/master-worker/master-worker.c:23-79 | With a master, a worker and a slot, where no thread can step every item below total_items has been produced once and consumed once, even if threads are asleep for good; the predicate of check.awk |
| MasterWorkerSafety.AllProduced | pthreads-sync-code/master-worker/master-worker.c:26-45 | There all items asked for are produced, a sleeping worker means an empty buffer, and a sleeping master a full one and no sleeping worker |
| MasterWorkerSafety.NextBounded | pthreads-sync-code/master-worker/master-worker.c:28-42 | item_to_produce never exceeds total_items by more than the number of other masters |
| MasterWorkerOutcomes.MasterOutcome | pthreads-sync-code/master-worker/master-worker.c:27-46 | In any run, a master exits exactly when it has just taken the mutex and total_items are produced; else it sleeps exactly when as many items are unconsumed as there are slots; else it produces the next number and wakes one sleeping worker, if any |
| MasterWorkerOutcomes.WorkerOutcome | pthreads-sync-code/master-worker/master-worker.c:54-77 | In any run, a worker takes the newest unconsumed item, if there is one, and wakes one sleeping master, if any; else it sleeps exactly while items are to be produced, and then exits if it has just taken the mutex and goes round again if it was woken |
| MasterWorkerTermination.StepMakesProgress | pthreads-sync-code/master-worker/master-worker.c:26-77 | Every step that is no spurious wakeup lowers the pair of remaining work and threads awake |
| MasterWorkerTermination.EveryRunIsFinite | pthreads-sync-code/master-worker/master-worker.c:26-77 | No schedule without spurious wakeups is longer than an explicit bound in the settings |
| MasterWorkerTermination.RunsToQuiescence | pthreads-sync-code/master-worker/master-worker.c:112-119 | From any reachable state the threads can be run until none can step, and a thread that nothing will signal is still asleep then |
| MasterWorkerTermination.DoomedForGood | pthreads-sync-code/master-worker/master-worker.c:64-74 | A sleeping master with no consumption to come, or a sleeping worker with no production to come, still sleeps at every later point of every schedule without spurious wakeups |
| MasterWorkerExactness.AllThreadsExitIff | pthreads-sync-code/master-worker/master-worker.c:112-119 | Every thread exits in every run for exactly the settings of EveryoneExits, with or without spurious wakeups |
| MasterWorkerExactness.QuiescentAllExited | pthreads-sync-code/master-worker/master-worker.c:23-79 | Under those settings a state where no thread can step has all threads exited |
| MasterWorkerExactness.SomeoneDoomed | pthreads-sync-code/master-worker/master-worker.c:23-79 | Under any other settings a schedule leaves some thread asleep that nothing will signal |
| MasterWorkerExactness.Advance | pthreads-sync-code/master-worker/master-worker.c:34-45 | One worker and one master can pass all items along while every other master sleeps past its check |
| MasterWorkerExactness.Alternate | pthreads-sync-code/master-worker/master-worker.c:64-77 | In some schedule master 0 and worker 0 alone pass every item along after worker 1 has gone to sleep, and worker 1 is never signalled |
| MasterWorkerExactness.Overproduce | pthreads-sync-code/master-worker/master-worker.c:34-45 | Each further master that slept past its check can produce one item more than asked for |
| MasterWorkerExactness.OverproductionIff | pthreads-sync-code/master-worker/master-worker.c:28-42 | item_to_produce exceeds total_items in some run for exactly the settings of CanOverproduce, and then by as much as NextBounded allows |
| MasterWorkerExactness.LeftoverIff | pthreads-sync-code/master-worker/master-worker.c:26-77 | An item beyond total_items is in the buffer in some state where no thread can step for exactly the settings of CanOverproduce, with or without spurious wakeups |
| MasterWorkerMonitor.Monitor.constructor | pthreads-sync-code/master-worker/master-worker.c:5-13 | The shared variables start as the state machine does |
| MasterWorkerMonitor.Monitor.MasterEnters | pthreads-sync-code/master-worker/master-worker.c:27-46 | A master's critical section on taking the mutex is the state machine's step, and its outcome says whether it sleeps, goes round again or exits |
| MasterWorkerMonitor.Monitor.MasterResumes | pthreads-sync-code/master-worker/master-worker.c:34-46 | The same from the loop test on, where a woken master goes on without checking the item count |
| MasterWorkerMonitor.Monitor.WorkerEnters | pthreads-sync-code/master-worker/master-worker.c:55-76 | A worker's critical section on taking the mutex is the state machine's step |
| MasterWorkerMonitor.Monitor.WorkerResumes | pthreads-sync-code/master-worker/master-worker.c:64-76 | The same from the loop test on, where a woken worker that finds production over takes nothing |
| RwLockSafety.Safety | pthreads-sync-code/rwlock/rwlock-writer-pref.cpp:13-55 | In every state of every schedule of either lock: readers, writers_waiting and writer_active count exactly the threads reading, registered and writing; at most one writer, and then no reader; a sleeping writer has an active thread or a woken writer to rely on, a sleeping reader an active (or, writer-preferring, a waiting) writer |
| RwLockSafety.WriterUnlockKeepsInv | pthreads-sync-code/rwlock/rwlock-reader-pref.cpp:50-62 | Unlocking a writer, with its signal or broadcast under either preference, keeps that |
| RwLockSafety.WriterStepKeepsInv | pthreads-sync-code/rwlock/rwlock-reader-pref.cpp:36-48 | So do a writer's arrival, its return to sleep and its entry |
| RwLockSafety.ReaderStepKeepsInv | pthreads-sync-code/rwlock/rwlock-writer-pref.cpp:13-31 | So do a reader's arrival, entry and unlock |
| RwLockSafety.MutualExclusion | pthreads-sync-code/rwlock/rwlock-reader-pref.cpp:12-62 | While a writer is inside, no reader and no other writer is |
| RwLockOutcomes.WriterAdmittedIff | pthreads-sync-code/rwlock/rwlock-writer-pref.cpp:33-43 | In any run of either lock, a writer that has the mutex, on arrival or after a wakeup, is admitted exactly when no reader and no writer is inside, and else sleeps |
| RwLockOutcomes.ReaderAdmittedIff | pthreads-sync-code/rwlock/rwlock-writer-pref.cpp:13-21 | In any run, a reader is admitted exactly when no writer is inside and, under writer preference, none waits |
| RwLockOutcomes.ReaderUnlockWakes | pthreads-sync-code/rwlock/rwlock-writer-pref.cpp:23-31 | A reader that unlocks wakes one sleeping writer, if any, exactly when it is the last inside |
| RwLockOutcomes.WriterUnlockWakes | pthreads-sync-code/rwlock/rwlock-reader-pref.cpp:50-62 | A writer that unlocks wakes one sleeping writer, if any, and all sleeping readers, under writer preference the readers only if no writer waits |
| RwLockTermination.RankDrops | pthreads-sync-code/rwlock/rwlock-writer-pref.cpp:13-55 | Every step that is no spurious wakeup lowers the rank, whatever a broadcast wakes |
| RwLockTermination.EveryRunIsFinite | pthreads-sync-code/rwlock/rwlock-reader-pref.cpp:12-62 | No schedule of threads that lock and unlock once is longer than an explicit bound, under either lock |
| RwLockTermination.QuiescentMeansFinished | pthreads-sync-code/rwlock/rwlock-writer-pref.cpp:13-55 | Where no thread can step, every thread has unlocked and the lock is as it was initialized |
| RwLockHistory.LogSafety | pthreads-sync-code/rwlock/test-writer-pref.cpp:41-64 | In every run the note of a writer's acquire is followed at once by its release, or is the last note so far |
| RwLockHistory.WriterStampsAdjacent | pthreads-sync-code/rwlock/test-writer-pref.cpp:194-200 | Each writer's release time is its acquire time plus one, under either lock |
| RwLockHistory.WritersNotOvertaken | pthreads-sync-code/rwlock/rwlock-writer-pref.cpp:16-19 | Writer preference: whenever a reader is admitted, every writer registered earlier has unlocked in between |
| RwLockHistory.AdmissionOvertakesNone | pthreads-sync-code/rwlock/rwlock-writer-pref.cpp:33-43 | Admitting a reader with no writer waiting or inside overtakes none |
| RwLockHistory.ReaderOvertakes | pthreads-sync-code/rwlock/rwlock-reader-pref.cpp:12-22 | Reader preference: with two readers and a writer, or a reader and two writers, some run lets a reader overtake |
| RwLockHistory.OvertakingIff | pthreads-sync-code/rwlock/rwlock-reader-pref.cpp:12-62 | A reader can overtake a registered writer for exactly those settings |
| RwLockMonitor.ReadWriteLock.constructor | pthreads-sync-code/rwlock/rwlock-reader-pref.cpp:3-10 | The lock's fields start as the state machine does |
| RwLockMonitor.ReadWriteLock.ReaderTriesLock | pthreads-sync-code/rwlock/rwlock-writer-pref.cpp:15-20 | A pass through ReaderLock's loop test is the state machine's step |
| RwLockMonitor.ReadWriteLock.ReaderUnlocks | pthreads-sync-code/rwlock/rwlock-writer-pref.cpp:23-31 | ReaderUnlock is the state machine's step |
| RwLockMonitor.ReadWriteLock.WriterArrives | pthreads-sync-code/rwlock/rwlock-writer-pref.cpp:33-43 | WriterLock up to its first wait or its unlock is the state machine's step |
| RwLockMonitor.ReadWriteLock.WriterTests | pthreads-sync-code/rwlock/rwlock-writer-pref.cpp:37-41 | The loop test admits the writer exactly when no writer and no reader is inside |
| RwLockMonitor.ReadWriteLock.WriterResumes | pthreads-sync-code/rwlock/rwlock-reader-pref.cpp:41-47 | WriterLock from a wakeup on is the state machine's step |
| RwLockMonitor.ReadWriteLock.WriterUnlocks | pthreads-sync-code/rwlock/rwlock-reader-pref.cpp:50-62 | WriterUnlock, of either file, is the state machine's step |
| TokenRing.Safety | pthreads-sync-code/zemaphore/test-toggle.c:11-37 | Without spurious wakeups, in every state there is exactly one token, on one semaphore or with one thread, no count is negative, the rounds differ by at most one, and the k-th print is by thread k mod N |
| TokenRing.InTurnIff | pthreads-sync-code/zemaphore/zemaphore.c:19-22 | With any spurious wakeups, a run stays in turn with no count negative if and only if no down resumed from its wait finds the count at zero |
| TokenRing.EveryRunInTurnIff | pthreads-sync-code/zemaphore/zemaphore.c:19-22 | Every run stays in turn, spurious wakeups or not, for exactly the rings of one thread or no rounds |
| TokenRing.UpMovesToken | pthreads-sync-code/zemaphore/zemaphore.c:26-33 | An up moves the token to the next thread and wakes it if it sleeps, also in a ring of one |
| TokenRing.StepKeepsInv | pthreads-sync-code/zemaphore/zemaphore.c:16-24 | Every step, spurious wakeups included, keeps the token unique, unless a resumed down takes a count that is not there |
| TokenRing.DownSteps | pthreads-sync-code/zemaphore/zemaphore.c:16-24 | In any state, a thread arriving at its semaphore sleeps exactly when the count is not positive, and one woken takes the count untested |
| TokenRing.UpStep | pthreads-sync-code/zemaphore/test-toggle.c:21-22 | In any state, an up adds one to the next thread's count, the first thread's after the last, and wakes that thread if it sleeps |
| TokenRing.DownOutcome | pthreads-sync-code/zemaphore/test-toggle.c:17-17 | Without spurious wakeups, a thread gets through its down exactly when the next print is its own and no thread is between down and up |
| TokenRing.ResumeOutcome | pthreads-sync-code/zemaphore/zemaphore.c:20-24 | Without spurious wakeups, a woken thread is the one to print next, and finds its count at one |
| TokenRing.UpOutcome | pthreads-sync-code/zemaphore/test-toggle.c:11-25 | Without spurious wakeups, an up passes a count of one to the thread whose print is next, and ends the thread's last round exactly when it has done all |
| TokenRing.QuiescentMeansDone | pthreads-sync-code/zemaphore/test-toggle.c:27-53 | Where no thread can step, all rounds times threads prints are made in turn, all threads are finished and the token is back on semaphore 0 |
| TokenRing.EveryRunIsFinite | pthreads-sync-code/zemaphore/test-toggle.c:11-25 | A run takes at most six steps for each thread and round |
| TokenRing.SpuriousWakeupBreaksTurns | pthreads-sync-code/zemaphore/zemaphore.c:19-22 | A run of four steps, one of them a spurious wakeup, takes a count to -1 and lets thread 1 print first |
| TokenRingMonitor.Zemaphore.Down | pthreads-sync-code/zemaphore/zemaphore.c:16-24 | Down blocks exactly when the count is not positive, and otherwise takes one |
| TokenRingMonitor.Zemaphore.Resume | pthreads-sync-code/zemaphore/zemaphore.c:20-24 | After its wait, down takes one whatever the count |
| TokenRingMonitor.Zemaphore.Up | pthreads-sync-code/zemaphore/zemaphore.c:26-33 | Up adds one and wakes one sleeper if there is any |
| TokenRingMonitor.Ring.constructor | pthreads-sync-code/zemaphore/test-toggle.c:32-37 | The start-up leaves the token on semaphore 0 |
| TokenRingMonitor.Ring.Down | pthreads-sync-code/zemaphore/test-toggle.c:17-17 | A thread's down on its own semaphore is the ring's step |
| TokenRingMonitor.Ring.Resume | pthreads-sync-code/zemaphore/test-toggle.c:17-17 | So is the rest of it after a wakeup |
| TokenRingMonitor.Ring.Up | pthreads-sync-code/zemaphore/test-toggle.c:21-22 | A thread's up on the next semaphore is the ring's step |
| Barber.Safety | pthreads-sync-code/own-sync-problem/barber-cv.c:15-48 | While customers are not woken spuriously: waiting_customers counts the customers asleep and not called, at most chairs; each haircut called exactly one customer; the barber sleeps only when nobody waits |
| Barber.BooksHold | pthreads-sync-code/own-sync-problem/barber-cv.c:15-48 | In every run, spurious wakeups included: waiting_customers is at most chairs and at least the customers asleep and not called; haircuts and waiting_customers together are the customers seated; nobody is turned away before all chairs were taken |
| Barber.ExactIff | pthreads-sync-code/own-sync-problem/barber-cv.c:41-42 | Throughout a run waiting_customers counts exactly the customers asleep and not called, and each haircut one customer called, if and only if no customer is woken spuriously |
| Barber.EveryRunExactIff | pthreads-sync-code/own-sync-problem/barber-cv.c:36-42 | Every run does so for exactly the shops without chairs or without customers |
| Barber.NoCallLost | pthreads-sync-code/own-sync-problem/barber-cv.c:22-25 | Each time the barber cuts, one waiting customer is called |
| Barber.QuiescentMeansServed | pthreads-sync-code/own-sync-problem/barber-cv.c:32-48 | Where no thread can step, after spurious wakeups too, every customer has gone, the haircuts are as many as the customers that took a chair, and at least as many as the chairs or the customers |
| Barber.ArrivalOutcome | pthreads-sync-code/own-sync-problem/barber-cv.c:36-46 | In any run, a customer is turned away exactly when waiting_customers equals chairs, which while no customer is woken spuriously means that so many wait; else it waits and wakes a sleeping barber |
| Barber.BarberOutcome | pthreads-sync-code/own-sync-problem/barber-cv.c:17-25 | In any run, the barber sleeps exactly when waiting_customers is zero, which while no customer is woken spuriously means that none waits; else it calls one that waits |
| Barber.EveryRunIsFinite | pthreads-sync-code/own-sync-problem/barber-cv.c:15-48 | A run takes at most four steps for each customer and one more |
| Barber.SpuriousWakeupLosesHaircut | pthreads-sync-code/own-sync-problem/barber-cv.c:41-42 | A run of three steps, one of them a spurious wakeup of a customer, sends it off without a haircut and leaves its chair counted as taken |
| BarberMonitor.Shop.BarberLooks | pthreads-sync-code/own-sync-problem/barber-cv.c:17-25 | The barber's critical section is the state machine's step |
| BarberMonitor.Shop.CustomerArrives | pthreads-sync-code/own-sync-problem/barber-cv.c:36-46 | A customer takes a chair if one is free and leaves otherwise |
| BarberMonitor.Shop.CustomerServed | pthreads-sync-code/own-sync-problem/barber-cv.c:41-46 | A called customer is served and leaves |
| Chunks.FirstFit | malloc-code/alloc.h:57-73 | The search finds the lowest start of a free run, or there is none |
| Chunks.TakeKeepsValid | malloc-code/alloc.h:66-72 | Handing out a free run keeps the tables those of disjoint blocks that cover exactly the used chunks |
| Chunks.GiveKeepsValid | malloc-code/alloc.h:93-96 | So does taking back a block |
| Chunks.CoveredOnce | malloc-code/alloc.h:13-14 | A used chunk is covered by exactly one live block |
| Chunks.GiveUndoesTake | malloc-code/alloc.h:66-96 | Giving back a block just taken restores bitmap and size table |
| Chunks.GivesCommute | malloc-code/alloc.h:77-97 | Two blocks may be given back in either order |
| Chunks.Conservation | malloc-code/alloc.h:13-14 | The used chunks are as many as the sizes of the live blocks add up to |
| ChunkLoops.FindRun | malloc-code/alloc.h:57-65 | The nested search loops find exactly the first fit |
| ChunkLoops.MarkRun | malloc-code/alloc.h:67-69 | The marking loop changes exactly the chunks of the block |
| Fragmentation.RefusalBound | malloc-code/alloc.h:55-74 | A page that refuses r chunks has at least floor(n / r) chunks in use |
| Fragmentation.RefusalBoundTight | malloc-code/alloc.h:55-74 | For every n and r some live blocks get r chunks refused with exactly that many in use |
| Page.RefusalBoundReached | malloc-code/alloc.h:49-97 | Calls of alloc and dealloc lead there, for every size: the bound on refusals is exact |
| Fragmentation.FirstFitAligned | malloc-code/alloc.h:57-72 | With live blocks of r chunks at multiples of r, first fit puts the next one at a multiple of r |
| Fragmentation.UniformRefusal | malloc-code/alloc.h:55-74 | Such a page refuses r chunks exactly when floor(n / r) blocks are live |
| Fragmentation.CapacityBound | malloc-code/alloc.h:13-14 | No page holds more than floor(n / r) blocks of r chunks, wherever they are placed |
| Page.FirstFitOverAnyRun | malloc-code/alloc.h:49-75 | After any calls, a chunk is used exactly when one live block covers it, and a request gets the lowest free run or is refused when there is none |
| Page.RefusedMeansUsed | malloc-code/alloc.h:51-74 | After any calls, a refused request of r chunks finds at least floor(NUMCHUNKS / r) chunks in use |
| Page.UniformNeverFragments | malloc-code/alloc.h:49-97 | Calls for one size, with frees in any order, never fragment: a request is refused exactly when floor(NUMCHUNKS / r) blocks are live |
| Page.TargetIff | malloc-code/alloc.h:77-91 | A dealloc gives back a block exactly when the pointer lies in the first chunk of it |
| Page.DeallocUndoesAlloc | malloc-code/alloc.h:49-97 | Freeing the pointer alloc just returned restores both tables |
| Page.DeallocAllRestores | malloc-code/alloc.h:77-97 | Freeing every live block, in any order, gives the tables of an empty page |
| Page.BytesDisjoint | malloc-code/alloc.h:71-71 | Distinct live blocks occupy disjoint bytes |
| AllocatorOutcomes.GrantedIff | malloc-code/alloc.h:51-74 | A request is served exactly when its size is a positive multiple of MINALLOC up to the page and a free run is long enough, and gets the lowest such run |
| AllocatorOutcomes.FreshGrants | malloc-code/alloc.h:51-72 | On an empty page every such size, the whole page included, is served from the start |
| AllocatorOutcomes.AllocOutcome | malloc-code/alloc.h:51-74 | A request served changes exactly the bitmap entries of its chunks and the size entry of its start; a refused one changes nothing |
| AllocatorOutcomes.DeallocOutcome | malloc-code/alloc.h:77-97 | A pointer into the first chunk of a live block changes exactly that block's bitmap entries and its size entry; any other changes nothing |
| PageMonitor.Allocator.constructor | malloc-code/alloc.h:12-14 | At the start no page is mapped, no chunk is free and no block is live |
| PageMonitor.Allocator.InitAlloc | malloc-code/alloc.h:23-34 | A mapped page starts all free; a failed mmap is reported and changes no table |
| PageMonitor.Allocator.Alloc | malloc-code/alloc.h:49-75 | The in-place alloc returns the address of the first fit and updates the tables accordingly; in a mapped page it returns NULL exactly when the request is bad or nothing fits, and before any init_alloc always; after a failed mmap, with tables left from an earlier page, it hands out addresses counted from MAP_FAILED |
| PageMonitor.Allocator.Dealloc | malloc-code/alloc.h:77-97 | The in-place dealloc gives back the block of which the pointer hits the first chunk, and otherwise changes nothing; after a failed mmap it never does anything |
| PageMonitor.Allocator.Cleanup | malloc-code/alloc.h:36-47 | The page is forgotten unless unmapping it fails |
| Heap.FindSpot | malloc-code/ealloc.h:38-55 | The search finds the first page with room and the first place in it |
| Heap.After | malloc-code/ealloc.h:32-102 | After any calls every page's tables are those of disjoint blocks, there are at most MAXPAGES pages, and their number never shrinks |
| Heap.RefusedMeansUsed | malloc-code/ealloc.h:36-57 | A request of r chunks refused although mmap would succeed finds all MAXPAGES pages mapped and MAXPAGES * floor(NUMCHUNKS / r) chunks in use |
| HeapRefusal.RefusalBoundReached | malloc-code/ealloc.h:32-102 | Calls of alloc and dealloc lead there, for every size and every MAXPAGES: that bound is exact too |
| Heap.UniformOverAnyRun | malloc-code/ealloc.h:32-102 | Calls for one size keep the blocks of every page at multiples of that size, whether or not an mmap fails |
| Heap.UniformRefusedOnlyWhenFull | malloc-code/ealloc.h:32-79 | After any calls for one size, failures of mmap included, one more is refused exactly when all MAXPAGES pages are full of live blocks, or, if its own mmap would fail, when all the pages there are are full |
| AllocatorOutcomes.PlaceIff | malloc-code/ealloc.h:33-63 | A request of a good size gets the lowest long enough run of the first page that has one; a page is added for it exactly when none has, fewer than MAXPAGES are mapped and mmap succeeds |
| AllocatorOutcomes.HeapAllocOutcome | malloc-code/ealloc.h:38-78 | That changes exactly the entries of its chunks in that page; an added page is all free but for them; a refused request changes nothing |
| Heap.AllocJustEnough | malloc-code/ealloc.h:38-79 | One allocation keeps the number of pages just enough for the most blocks ever live |
| Heap.FootprintMinimal | malloc-code/ealloc.h:38-79 | Calls for one size with mmap succeeding: the pages mapped are exactly the ceiling of the peak of live blocks over floor(NUMCHUNKS / r), and no arrangement of that many blocks fits in fewer |
| Heap.DeallocUndoesAlloc | malloc-code/ealloc.h:38-102 | Freeing what alloc just handed out restores all tables, but for a page added for it, which stays and is all free |
| Heap.DeallocAllRestores | malloc-code/ealloc.h:81-102 | Freeing every live block of every page, in any order, leaves every page all free |
| Heap.BytesDisjoint | malloc-code/ealloc.h:52-52 | With disjoint pages, distinct live blocks occupy disjoint bytes |
| HeapMonitor.PointerLeadsBack | malloc-code/ealloc.h:52-85 | The pointer alloc returns leads dealloc back to that very block |
| HeapMonitor.GrowingAllocator.constructor | malloc-code/ealloc.h:23-30 | No pages at the start |
| HeapMonitor.GrowingAllocator.FindPlace | malloc-code/ealloc.h:38-54 | The loop over the pages finds the first page with room and the first place in it |
| HeapMonitor.GrowingAllocator.Alloc | malloc-code/ealloc.h:32-79 | The in-place alloc takes the first place in the first page with room, else adds a page, else returns NULL |
| HeapMonitor.GrowingAllocator.AddBlock | malloc-code/ealloc.h:65-78 | The added page is all free but for the block at its start |
| HeapMonitor.FreedIff | malloc-code/ealloc.h:81-91 | A pointer frees a block exactly when it points into the first chunk of it, whichever page that is in |
| HeapMonitor.GrowingAllocator.Dealloc | malloc-code/ealloc.h:81-102 | The in-place dealloc gives back the block the pointer frees, and otherwise changes nothing |
| HeapMonitor.GrowingAllocator.Cleanup | malloc-code/ealloc.h:105-115 | All pages are forgotten |
| SlotSafety.Safety | ipc-code/shm-posix-producer.c:37-62 | However the two processes' bytes interleave, no slot is in two hands, a slot in nobody's hands carries the whole marker, and the pending messages are intact in their slots in order |
| SlotSafety.ScanFindsFree | ipc-code/shm-posix-producer.c:48-54 | A scan racing with the consumer's writing of the marker takes a slot only once the whole marker is there and nobody has the slot |
| SlotSafety.ProducerKeepsOwnership | ipc-code/shm-posix-producer.c:44-62 | Every producer step keeps the ownership of slots disjoint |
| SlotSafety.ConsumerKeepsStored | ipc-code/shm-posix-consumer.c:36-51 | Every consumer step leaves the messages still pending intact |
| SlotSafety.ReceivedIsPrefix | ipc-code/shm-posix-consumer.c:36-51 | The messages printed are the messages sent, uncorrupted, in order, each from a different iteration |
| SlotSafety.SlotsPartitioned | ipc-code/shm-posix-producer.c:44-62 | Each slot is at most one of filled, queued once and taken; one that is none carries the whole marker, and one with an unread message shows no byte of it |
| SlotSafety.FifoBounded | ipc-code/shm-posix-producer.c:61-61 | The FIFO never holds more offsets than there are slots |
| SlotSafety.StuckOnlyAtEnd | ipc-code/shm-posix-consumer.c:41-50 | No access leaves its slot, and a process is stuck only at the producer's end or on the empty FIFO |
| SlotSafety.AllReceivedAtEnd | ipc-code/shm-posix-consumer.c:36-51 | When neither process can step, everything sent was printed and every slot is free |
| SlotDelivery.ProducerDelivers | ipc-code/shm-posix-producer.c:42-66 | However slow the consumer, the producer sends every message if there is a slot for each, and otherwise at least as many as there are slots |
| SlotDelivery.DeliveryBoundReached | ipc-code/shm-posix-producer.c:42-66 | While the consumer does not run, that is exactly how many it sends |
| SlotDelivery.AllSentIff | ipc-code/shm-posix-producer.c:42-66 | Every run that brings the producer to its end sends every message, if and only if there is a slot for each |
| SlotRecovery.IterationEnds | ipc-code/shm-posix-producer.c:44-66 | An iteration ends exactly by sending its message or by a scan past the last slot, and the next one starts at the first slot |
| SlotRecovery.ByteWritten | ipc-code/shm-posix-producer.c:36-59 | The only byte a step changes is the one of the marker or message that it writes |
| SlotRecovery.ConsumerOutcome | ipc-code/shm-posix-consumer.c:40-50 | The consumer takes the FIFO's first offset, prints what is in the slot up to the NUL, and then frees it |
| SlotRecovery.ScanAlone | ipc-code/shm-posix-producer.c:48-54 | A scan that is not interleaved takes the first slot that holds the marker, and is given up only if none does |
| SlotRecovery.LaterOnesDelivered | ipc-code/shm-posix-producer.c:44-65 | In every state, whatever was given up before, some continuation sends the messages of all later iterations |
| SlotRecovery.OneLost | ipc-code/shm-posix-producer.c:44-65 | With fewer slots than messages, some run fails one scan and loses the message of that iteration and no other |
| SlotTermination.EveryRunIsFinite | ipc-code/shm-posix-producer.c:42-66 | No interleaving is longer than an explicit bound |
| SlotConstants.ProgramSuitable | ipc-code/shm-posix-producer.c:12-17 | The marker and the messages of all 1000 iterations are proper strings, fit their slots and differ in each of the marker's eight bytes |
| SlotConstants.NumberOfDecimal | ipc-code/shm-posix-producer.c:59-59 | The printed iteration number determines the iteration |
| SlotConstants.NoDuplicates | ipc-code/shm-posix-consumer.c:47-50 | With the program's constants, every line printed is "OSisFUN n" of a message sent, and no two lines are the same |
| SlotMonitor.RowsSet | ipc-code/shm-posix-consumer.c:48-48 | Writing byte k of slot i at address i * MESSAGE_SIZE + k changes that byte of that slot only |
| SlotMonitor.SharedSegment.MarkByte | ipc-code/shm-posix-producer.c:36-40 | A byte of the initial marking is the state machine's step |
| SlotMonitor.SharedSegment.CompareByte | ipc-code/shm-posix-producer.c:46-54 | A byte of the scan is the state machine's step |
| SlotMonitor.SharedSegment.WriteByte | ipc-code/shm-posix-producer.c:57-59 | A byte of writing the message is the state machine's step |
| SlotMonitor.SharedSegment.SendOffset | ipc-code/shm-posix-producer.c:60-61 | Sending the offset is the state machine's step |
| SlotMonitor.SharedSegment.ReceiveOffset | ipc-code/shm-posix-consumer.c:40-48 | Receiving an offset is the state machine's step |
| SlotMonitor.SharedSegment.ReadByte | ipc-code/shm-posix-consumer.c:49-49 | A byte of printing the message is the state machine's step |
| SlotMonitor.SharedSegment.FreeByte | ipc-code/shm-posix-consumer.c:50-50 | A byte of marking the slot free is the state machine's step |
| Shell.Tokenize | shell-code/my_shell.c:18-43 | Within the buffers' limits, the array returned holds the whitespace-separated tokens and then a NULL |
| Shell.FitsIff | shell-code/my_shell.c:8-10 | A line that ends in whitespace stays within the buffers exactly when its tokens are fewer than 64 and shorter than 64 |
| Shell.SerialProcess | shell-code/my_shell.c:199-241 | The commands forked are those between the separators, each with its argument vector, in order, up to the number forked when an interrupt arrives, which may be none, and exactly the separators reached become NULL |
| Shell.TokensOfLine | shell-code/my_shell.c:24-38 | Words with any spaces, tabs and newlines before and between them are the tokens of their line; what follows the last of these characters is dropped |
| Shell.LineForm | shell-code/my_shell.c:24-38 | Every line has that form, so this gives the tokens of every line |
| Shell.ParseInvertsPrint | shell-code/my_shell.c:18-241 | Printing any commands as a line and parsing it gives exactly those commands |
| Shell.TokensOfPrint | shell-code/my_shell.c:24-38 | The tokens of the printed line are the words with the separators between commands |
| Shell.CommandsOfJoin | shell-code/my_shell.c:203-225 | Splitting those tokens gives the commands back |
| Shell.JoinInvertsSplit | shell-code/my_shell.c:203-225 | Joining the commands of any tokens gives the tokens back, but for a separator at the end |
| Shell.EmptyCommandIff | shell-code/my_shell.c:203-225 | A command without words is run exactly where a separator stands at the start or right after another |
| Shell.RunPrinted | shell-code/my_shell.c:199-241 | Run on the tokens tokenize makes of a printed line within its limits, serial_process executes exactly the commands printed |

## Left out

- Negative command-line arguments, failures to create or join threads, sleeps and all other timing: settings are natural numbers, and a sleep is a point where other threads may run.
- Wrap-around of C `int`: counters are unbounded; the number of steps of every run is bounded explicitly instead.
- `pthread_cond_signal` waking more than one thread at once: such a wakeup is a signal followed by spurious ones, which the safety results cover.
- RwLockTermination.EveryRunIsFinite: threads lock and unlock once each, as in the tests; starvation under endless traffic is not stated.
- TokenRing.Safety: one thread downs each semaphore, as in the ring; several downers of one zemaphore (`test-zem.c`) are not modelled.
- PageMonitor.Allocator.Alloc: pointers are addresses of 64 bits, and their arithmetic wraps around; mmap returns no page that ends at the last address.
- HeapMonitor.GrowingAllocator.Alloc: the three tables grow as sequences of arrays instead of holding NULL beyond num_pages, and malloc of a bitmap or size table does not fail; mmap returns a page apart from the mapped ones or fails.
- HeapMonitor.GrowingAllocator.Cleanup: freeing the arrays is only forgetting them; pages are not unmapped, as in the program.
- The order in which memory accesses of two processes become visible: the shared segment is sequentially consistent, and the FIFO is unbounded with whole offsets written and read at once.
- SlotSafety.StuckOnlyAtEnd: a consumer that polls the empty FIFO and sleeps takes no step in the model.
- Shell.Tokenize: lines beyond the limits of its buffers, where the program writes out of bounds, are excluded by a precondition that is exactly the bounds of its writes.
- Shell.SerialProcess: an interrupt is placed by the number of commands forked when it arrives; the exit status and output of commands are not modelled.
- The rest of the shell: `cd`, pipes, background and parallel commands, signal delivery.
- Sockets, the key-value servers and clients, the introductory and warm-up programs: input and output without an invariant worth a proof.
