# IVOS models and proofs

A Dafny 4.11 model of the four parts of IVOS that carry state or parse data, with proofs about every
run, every input or every interleaving:

* the green-thread scheduler and its semaphores (`scheduler/`): `Welford`, `Timekeeping`,
  `ThreadTable`, `Machine`, `Semaphores`, `Fairness`, `Accounting`, `Tickets`, and the library as it is
  written, with an array, loops and a linked list, in `WaitQueue` and `Kernel`;
* the FAT16 reader (`fat/`): `Fat16`, `FatNames`;
* the HTTP request parser (`http_server/http/Request.cpp`): `Splitting`, `HttpRequest`;
* the worker pool (`http_server/core/Server.cpp`): `WorkerPool`.

`dafny verify dfyconfig.toml` checks everything.

## How the scheduler is modelled

`Machine` is a state machine whose steps are the library's calls: create, schedule (a tick or a yield),
exit, wait, post, try-wait. The number of slots N (`MaxGThreads`), the lowest priority P (`MinPriority`)
and the number of semaphores are arbitrary. Clock readings, `rand()` and the success of `malloc` are
inputs of a step. A run is any legal list of steps; theorems about runs start from any state that
satisfies the invariant, which `Machine.Initial` establishes and `Machine.Next` keeps. `Kernel.Library` is
the mutable program; each of its methods is proved to take exactly the step of the machine, so the theorems
hold of it.

What callers must respect (`Machine.Enabled`):

* the idle thread (slot 0) never waits on a semaphore and never exits (scheduler/main.c:96-101).
  `round_robin` returns exactly when some thread is Ready or the current one is not Blocked, and spins for
  ever otherwise (`ThreadTable.RoundRobinReturnsIff`);
* a thread that `sem_wait` has marked Blocked takes no further step until the next `gt_schedule`.
  `sem_wait` itself only marks the caller and returns (scheduler/g_semaphore.c:36-42), see below;
* calls are atomic, `gt_init` runs once, semaphores start with a value of at least 0.

Permits are counted in books kept beside the machine; `Semaphores.Honest` says which posts and exits they
allow. `sem_try_wait` returns nothing (scheduler/g_semaphore.c:78), so a caller of it does not learn from the
call whether it holds a permit, and can be honest only if it knows otherwise.

`int` and `double` are unbounded integers and exact reals.

## Where the code falls short of what one might expect

* The recorded minimum slice forgets an empty slice, because zero doubles as "unset":
  `Timekeeping.LeastForgetsEmptySlice`; it is the true minimum exactly when no slice is empty, or the last
  one is, or some slice is negative (`Timekeeping.LeastExactly`).
* `sem_wait` returns also to a caller that it has just queued. The caller leaves it with a permit if and only
  if the value was positive (`Semaphores.WaitGrantsIff`); otherwise it runs on, Blocked and without a permit,
  until the next tick (`Semaphores.WindowClosesAtTick`). Mutual exclusion is that of permits granted.
* Waiting while holding a permit can lose all hope. If blocked threads hold nothing, a wait on the only semaphore
  keeps a permit with a thread that can run exactly when it finds one, or the caller holds none, or another
  thread that can run holds one (`Semaphores.WaitKeepsHopeIffEmptyHanded`). Once every holder of a semaphore
  waits for it, no honest run frees any thread in its queue again (`Semaphores.StuckForGood`); threads that do
  not use it go on. `Semaphores.DoubleWaitDeadlocks` is a run that ends there.
* An exiting thread is not charged for its last slice (`Accounting.ExitDropsLastSlice`).
* Tickets of blocked and dead threads are not redistributed: all such draws go to the one thread that
  round robin would choose (`Tickets.StrayDrawFallsBack`).
* The search of a subdirectory never ends on a chain of any length that runs back into itself without a match
  (`Fat16.CyclicSearchNeverEnds`; `Fat16.CyclicDirectoryExists` gives an image), and on nothing else that lies on
  the image (`Fat16.SearchEndsIff`). Reading a file ends on every chain.
* The loops that read a file know different end markers. They emit different bytes exactly for a file longer
  than its chain, where the chain ends with 0xFFF8 to 0xFFFE (`Fat16.MarkersAgreeIff`).
* `read` compares `strlen` many characters of a directory entry, and nothing ends the name in it with a NUL: the
  comparison runs on into the attributes. So it finds a file only if its attributes are none, or the archive bit
  alone (`FatNames.FileIsFoundIff`), never a read-only, hidden or system one (`FatNames.OnlyPlainFilesAreFound`).
* The root directory is found where the tables end only with 512-byte sectors (`Fat16.RootFollowsFats`),
  and the first cluster overlaps it unless it fills whole sectors (`Fat16.DataFollowsRoot`).
* `parse` destroys the Content-Type field down to its last segment (`HttpRequest.ContentTypeSurvivesIff`),
  cuts values at ": " (`HttpRequest.ValueSurvivesIff`, `HttpRequest.ValueIsCut`) and boundaries at "=" (`HttpRequest.BoundaryRecoveredIff`).
* A busy pool does not refuse connections: the queue of available workers blocks when it is empty, because
  `mq_open` ignores the `O_NONBLOCK` in `mq_flags` (http_server/core/Server.cpp:164-170). "Service unavailable" is
  sent only when `mq_receive` fails (`WorkerPool.Server.ReceivePid`); without that the parent waits in vain exactly
  when every worker has been lost (`WorkerPool.ParentWaitsInVainIff`).
* A worker is lost for good by a message without a descriptor and by a failed return of its pid, and by nothing
  else (`WorkerPool.NoWorkerIsLost`).

## Model

| member | source | states |
|---|---|---|
| Welford.MomentsExact | scheduler/gthr.c:94-98 | after any values, running mean times count is their sum exactly |
| Welford.VarianceIsExact | scheduler/gthr.c:94-98 | the one-pass variance accumulator is the two-pass sum of squared deviations |
| Timekeeping.Subtract | scheduler/gthr.c:36-45 | the difference is exact in microseconds and stays normalised |
| Timekeeping.Add | scheduler/gthr.c:47-56 | the sum is exact in microseconds and stays normalised |
| Timekeeping.Shorter | scheduler/gthr.c:80-82 | the written-out comparison is the order of the durations |
| Timekeeping.Replay | scheduler/gthr.c:367-370 | the count is the number of slices and the last one is remembered |
| Timekeeping.ReplayAccumulates | scheduler/gthr.c:74-99 | recording slices accumulates their values in microseconds, and their total |
| Timekeeping.LeastExactly | scheduler/gthr.c:80-85 | the recorded minimum is the true one if and only if no slice is empty, or the last is, or one is negative |
| Timekeeping.MostExactly | scheduler/gthr.c:87-92 | the recorded maximum is the true one if and only if no slice is empty, or the last is, or one is positive |
| Timekeeping.MostForForwardClock | scheduler/gthr.c:87-92 | with non-negative slices the maximum is always right |
| Timekeeping.LeastForgetsEmptySlice | scheduler/gthr.c:80-85 | slices 0 and 5 leave a recorded minimum of 5 |
| ThreadTable.RoundRobinIsFirstReady | scheduler/gthr.c:389-403 | round robin returns the first Ready slot in cyclic order, and the current one only if none is Ready |
| ThreadTable.RoundRobinReturnsIff | scheduler/gthr.c:389-403 | on any table the scan returns if and only if a slot is Ready or the current one is not Blocked, and then within a turn |
| ThreadTable.PriorityScanFrame | scheduler/gthr.c:405-429 | a priority scan ends by slot 0, picks a Ready slot or the idle current thread, and changes only skip counts |
| ThreadTable.PriorityScanSkip | scheduler/gthr.c:412-423 | a Ready slot is picked if and only if visited and due, ages by one if visited early, else keeps its count |
| ThreadTable.PriorityScanExact | scheduler/gthr.c:405-429 | distance plus N times the missing age falls by one per slot visited; picked exactly at zero |
| ThreadTable.PriorityPickIsLeastResidual | scheduler/gthr.c:405-429 | the pick is the Ready slot with the strictly least residual, or the idle thread when all exceed a turn |
| ThreadTable.FirstWinner | scheduler/gthr.c:434-445 | the first slot whose runnable thread owns the ticket, none before it |
| Machine.Initial | scheduler/gthr.c:317-331 | start-up establishes the whole invariant, for any N, P and semaphores |
| Machine.FirstUnused | scheduler/gthr.c:495-499 | creation uses the first unused slot, none before it |
| Machine.Clamp | scheduler/gthr.c:509-512 | the priority given is the allowed one nearest to the one asked for |
| Machine.StartUp | scheduler/gthr.c:317-331 | after start-up slot 0 is current, Running, of the greatest priority and owns all tickets; all other slots are free |
| Machine.CreateMakesThread | scheduler/gthr.c:495-525 | a successful create turns the first free slot into a Ready thread of the nearest allowed priority, with the tickets from the counter on, and changes nothing else |
| Machine.CreateRefused | scheduler/gthr.c:495-503 | without a free slot or memory it changes nothing |
| Machine.PickInTable | scheduler/gthr.c:389-448 | each of the three pickers returns a Ready or Running slot and changes at most skip counts |
| Machine.CreateKeepsInv | scheduler/gthr.c:490-526 | creating keeps the invariant; fresh tickets stay disjoint across slot reuse |
| Machine.ScheduleStates | scheduler/gthr.c:456-481 | the pick runs, the old current thread is Ready, Blocked or gone, everybody else is as before |
| Machine.SkipsStayBounded | scheduler/gthr.c:405-429 | skip counts stay between 0 and the priority for every live thread but the idle one |
| Machine.ScheduleKeepsInv | scheduler/gthr.c:456-481 | scheduling keeps the invariant, also with an exiting current thread |
| Machine.WaitKeepsInv | scheduler/g_semaphore.c:24-43 | waiting keeps the invariant: Blocked exactly when queued once, never permits and waiters together |
| Machine.HeadIsBlocked | scheduler/g_semaphore.c:59-61 | the thread a post pops is a Blocked thread of the table |
| Machine.PostKeepsInv | scheduler/g_semaphore.c:45-64 | posting keeps the invariant |
| Machine.TryWaitKeepsInv | scheduler/g_semaphore.c:78-95 | try-wait keeps the invariant |
| Machine.Next | scheduler/gthr.c:456-526 | every legal step leads to a state with the invariant and the same shape |
| Machine.Run | scheduler/gthr.c:456-526 | so does every run: the invariant holds in all reachable states |
| Machine.ScheduleNeverRevives | scheduler/gthr.c:334-345 | in any reachable state a picker returns a thread that can run, never the exiting one; afterwards only the current thread is Running |
| Machine.DeadStaysDead | scheduler/gthr.c:334-345 | a dead slot comes back only as a freshly created Ready thread |
| Semaphores.BlockedIffQueued | scheduler/g_semaphore.c:24-64 | in any reachable state a thread is Blocked exactly when it is in some semaphore's queue |
| Semaphores.PlaceIsUnique | scheduler/g_semaphore.c:24-64 | no thread is in two places of the queues |
| Semaphores.LevelOfRun | scheduler/g_semaphore.c:24-95 | value minus queue length changes by posts minus waits minus successful try-waits |
| Semaphores.SemaphoreIsOneInteger | scheduler/g_semaphore.c:12-95 | after any run from start-up, value = max(0, c) and queue length = max(0, -c) |
| Semaphores.BooksStayBalanced | scheduler/g_semaphore.c:24-95 | each call of an honest thread conserves permits in the semaphore and in hands |
| Semaphores.PermitsAreConserved | scheduler/g_semaphore.c:24-95 | so does every run |
| Semaphores.PostHandsOver | scheduler/g_semaphore.c:53-62 | a post takes the permit from the caller and gives it to the head of the queue, which is woken, or back to the semaphore |
| Semaphores.BooksCountGrants | scheduler/g_semaphore.c:24-95 | over any run a thread's permits change by the grants an observer counts minus its own posts |
| Semaphores.AtMostOneHolder | scheduler/g_semaphore.c:24-64 | with one permit in all there is at most one holder, and then the value is 0 |
| Semaphores.MutualExclusion | scheduler/g_semaphore.c:24-64 | of permits granted: on a semaphore initialised to 1, in every honest run from start-up, at most one thread is between its grant and its post, in the books and by counting grants and posts |
| Semaphores.WaitGrantsIff | scheduler/g_semaphore.c:32-42 | a wait returns with a permit if and only if the value was positive, else with the caller queued and Blocked but still current |
| Semaphores.WindowClosesAtTick | scheduler/gthr.c:456-481 | such a caller loses the processor at the next tick, and stays Blocked |
| Semaphores.BlockedWaitForRunnable | scheduler/g_semaphore.c:24-64 | if a thread is blocked, a thread that can run holds a permit |
| Semaphores.NoDeadlock | scheduler/main.c:20-37 | that is so after every run of honest threads that wait only empty-handed |
| Semaphores.WaitKeepsHopeIff | scheduler/g_semaphore.c:24-43 | with any number of permits, a wait leaves a runnable holder if and only if it finds a permit or another runnable thread holds one |
| Semaphores.WaitKeepsHopeIffEmptyHanded | scheduler/g_semaphore.c:24-43 | if blocked threads hold nothing: if and only if it finds a permit, or the caller holds none, or another thread that is not Blocked holds one |
| Semaphores.OnlyPermitKeepsHopeIff | scheduler/g_semaphore.c:24-43 | with a single permit: if and only if the caller holds none |
| Semaphores.StuckForGood | scheduler/g_semaphore.c:24-95 | once all holders of an empty semaphore are queued on it, no honest run changes its books or lets anybody out of its queue |
| Semaphores.LostHopeNeverReturns | scheduler/g_semaphore.c:24-95 | with one semaphore, once no runnable thread holds a permit while one is blocked, that is so after every honest run |
| Semaphores.DoubleWaitDeadlocks | scheduler/g_semaphore.c:24-43 | a legal run from start-up in which a second wait leaves the only holder blocked |
| Fairness.ScheduleLowersRemaining | scheduler/gthr.c:456-481 | one schedule call lowers a Ready thread's remaining distance by exactly the slots passed; picked exactly at zero |
| Fairness.OthersKeepRemaining | scheduler/gthr.c:490-526 | creates, waits, posts and try-waits leave it as it is |
| Fairness.PickedExactlyAtRemaining | scheduler/gthr.c:389-429 | over any run, a Ready thread is picked if and only if the position has advanced by its remaining distance |
| Fairness.EveryScheduleAdvances | scheduler/gthr.c:389-429 | each schedule call advances the position by at least one slot and at most a turn |
| Fairness.BoundedWaiting | scheduler/gthr.c:405-429 | a Ready thread runs within as many schedule calls as its remaining distance, for both round robins |
| Fairness.RemainingBound | scheduler/gthr.c:389-429 | which is at most N - 1 for plain round robin and N (priority + 1) - 1 with priorities |
| Fairness.QueuePlace | scheduler/g_queue.c:16-47 | a queued thread moves up one place per post on its semaphore and by nothing else |
| Fairness.BlockedUntilItsPost | scheduler/g_semaphore.c:45-64 | a thread at place q stays Blocked through any run with at most q posts |
| Fairness.WokenByItsPost | scheduler/g_semaphore.c:45-64 | and the next post wakes it |
| Fairness.BoundedWakeup | scheduler/g_semaphore.c:45-64 | it has run after q + 1 posts followed by that many schedule calls |
| Fairness.ShareStep | scheduler/gthr.c:405-429 | each step keeps (priority + 1) picks + skip count = visits while Ready |
| Fairness.ExactShare | scheduler/gthr.c:405-429 | so over any window of a live thread, with the skip count at most the priority |
| Fairness.ShareSinceCreation | scheduler/gthr.c:509-515 | since its creation, picks = visits / (priority + 1), rounded down |
| Fairness.EveryLandingIsReady | scheduler/gthr.c:405-429 | while a thread is runnable every visit of the scan finds it Ready |
| Fairness.LandingsFollowAdvance | scheduler/gthr.c:409-410 | N times the visits of a slot is the total advance, up to the slot's change of distance |
| Fairness.ProportionalShare | scheduler/gthr.c:405-429 | over any window in which two threads stay runnable, their weighted picks differ by at most 1 + p + q |
| Accounting.SlicesTelescope | scheduler/gthr.c:358-384 | running and waiting slices together cover a timeline |
| Accounting.MoveIsAccounted | scheduler/gthr.c:347-387 | a change of state keeps the record equal to that of the thread's timeline |
| Accounting.NewThreadIsAccounted | scheduler/gthr.c:514-523 | a new thread's accounts open when it becomes Ready, whatever its slot held before |
| Accounting.ScheduleMoves | scheduler/gthr.c:468-477 | a schedule call charges the old current thread, then the pick, and nobody else |
| Accounting.AccountsAreExact | scheduler/gthr.c:347-387 | after any run from start-up every live thread's record is that of its timeline, for any clock readings |
| Accounting.TimeIsConserved | scheduler/gthr.c:347-387 | total running + total waiting = last change - opening of the accounts |
| Accounting.StatisticsAgreeWithTotals | scheduler/gthr.c:363-380 | average times count is the total, and the variance is that of the slices |
| Accounting.ExitDropsLastSlice | scheduler/gthr.c:336-340 | an exiting thread is not charged for its last slice |
| Tickets.OwnShare | scheduler/gthr.c:514-518 | a runnable thread owns exactly P - priority + 1 draws, all below the ticket count |
| Tickets.OwnDrawsDisjoint | scheduler/gthr.c:514-518 | no draw has two owners, across creates, exits and slot reuse |
| Tickets.OwnDrawWins | scheduler/gthr.c:431-445 | a draw picks its owner, whatever the order of the scan |
| Tickets.StrayDrawFallsBack | scheduler/gthr.c:447 | every draw without an owner goes to the one round-robin choice |
| Tickets.LotteryOdds | scheduler/gthr.c:431-448 | how many of all draws pick each thread, exactly |
| Tickets.EveryDrawIsWon | scheduler/gthr.c:431-448 | these counts add up to the number of tickets |
| Tickets.ScheduleDraws | scheduler/gthr.c:433 | the draw of a schedule call is one of those counted |
| Tickets.TicketsArePartitioned | scheduler/gthr.c:516-518 | after any run from start-up without an exit every ticket below the counter belongs to exactly one live thread |
| WaitQueue.Queue.constructor | scheduler/g_queue.c:5-9 | a new queue is empty |
| WaitQueue.Queue.Push | scheduler/g_queue.c:16-31 | push appends to the sequence the list stands for, keeping it acyclic with its tail last |
| WaitQueue.Queue.Pop | scheduler/g_queue.c:33-47 | pop takes the first element, or returns -1 from an empty queue |
| WaitQueue.Queue.WalkIsQueueOrder | scheduler/g_queue.h:3-11 | walking the links from the head meets every item in queue order, the tail last, and then ends |
| Kernel.Semaphore.constructor | scheduler/g_semaphore.c:12-22 | a semaphore starts with its value and an empty queue |
| Kernel.Library.constructor | scheduler/gthr.c:317-331 | start-up gives the machine's initial state |
| Kernel.Library.UpdateThreadState | scheduler/gthr.c:347-387 | the table changes in that one slot, to the moved thread |
| Kernel.Library.RoundRobinPick | scheduler/gthr.c:389-403 | the loop ends, succeeds and returns the machine's choice |
| Kernel.Library.RoundRobinPrioPick | scheduler/gthr.c:405-429 | the loop ends, succeeds, and leaves choice and skip counts as the machine's scan |
| Kernel.Library.LotteryPick | scheduler/gthr.c:431-448 | the loop and its fallback return the machine's choice |
| Kernel.Library.GetNextThread | scheduler/gthr.c:450-466 | the installed picker always succeeds with the machine's choice |
| Kernel.Library.SwitchTo | scheduler/gthr.c:468-477 | both changes of state and the new current thread |
| Kernel.Library.GtSchedule | scheduler/gthr.c:456-481 | takes the machine's schedule step and always returns true, so line 344 is never reached |
| Kernel.Library.GtAlarmHandle | scheduler/gthr.c:24-27 | a tick takes the machine's schedule step |
| Kernel.Library.GtReturn | scheduler/gthr.c:334-345 | takes the machine's exit step |
| Kernel.Library.GtCreate | scheduler/gthr.c:490-526 | takes the machine's create step; 0 exactly when there is a free slot and memory, and then the table has the new thread in the first free slot; else -1 and no change |
| Kernel.Library.SemInit | scheduler/g_semaphore.c:12-22 | one more semaphore, everything else as before |
| Kernel.Library.SemWait | scheduler/g_semaphore.c:24-43 | takes the machine's wait step |
| Kernel.Library.SemPost | scheduler/g_semaphore.c:45-64 | takes the machine's post step |
| Kernel.Library.SemTryWait | scheduler/g_semaphore.c:78-95 | takes the machine's try-wait step |
| Fat16.Disk.GetNextCluster | fat/fat_helpers.c:8-15 | the next cluster is the little-endian table entry |
| Fat16.Disk.ReadFile | fat/fat.c:236-253 | emits the first `size` bytes of the clusters the table links, up to the marker 0xFFF8 in the root directory and 0xFFFF elsewhere; ends on every chain, also a cyclic one |
| Fat16.Disk.FindIn | fat/fat.c:231-235 | finds the first hit among the entries at the cursor: a used entry that compares equal; none only if there is none |
| Fat16.Disk.ReadFromRoot | fat/fat.c:228-258 | in the root directory: the file of the first hit in directory order, or none |
| Fat16.Disk.ReadFromSubdirectory | fat/fat.c:260-296 | the same along the cluster chain of a subdirectory |
| Fat16.FirstHit | fat/fat.c:234 | the first used entry whose name compares equal, none before it |
| Fat16.LookupIsFirstMatch | fat/fat.c:231-257 | `read` gives the file of the first used entry that compares equal, or nothing if there is none |
| Fat16.EntryRoundTrip | fat/fat.h:38-47 | cluster and size are read from where an entry of this layout has them |
| Fat16.FileBytesArePrefix | fat/fat.c:239-252 | the loop's bytes are the first `size` bytes of the concatenated chain |
| Fat16.FileBytesLength | fat/fat.c:239-252 | their number is min(size, chain length times cluster size) |
| Fat16.FileIsItsClusters | fat/fat.c:239-252 | for clusters linked on the disk the bytes are, byte by byte, the first `size` bytes of these clusters |
| Fat16.MarkersAgreeIff | fat/fat.c:239-287 | the root and the subdirectory loop emit the same bytes if and only if the root loop emits the whole file or its chain ends with the marker both know |
| Fat16.LongChainsAgree | fat/fat.c:239-287 | so they do on every chain long enough for the file |
| Fat16.ClustersForSuffice | fat/fat.c:244-245 | a file fills size / cluster size clusters, rounded up: enough, and one fewer is not |
| Fat16.SearchHits | fat/fat.c:266-289 | a hit in a directory cluster decides the whole search |
| Fat16.SearchGoesOn | fat/fat.c:261-293 | a cluster without a hit leaves the search to the rest of the chain |
| Fat16.EntriesTile | fat/fat.c:266-268 | the entries searched in a cluster cover it, 32 bytes each, but for a rest shorter than an entry |
| Fat16.WholeDirectoryIsSearched | fat/fat.c:261-293 | where the table links the directory's clusters up to 0xFFFF, the search ends with the first hit among all their entries, or with none |
| Fat16.CyclicSearchNeverEnds | fat/fat.c:261-293 | a directory chain that runs back into itself anywhere, without a hit, is searched for ever from each of its clusters |
| Fat16.SearchEndsIff | fat/fat.c:261-293 | a search ends if and only if it ends within 65535 clusters, and otherwise runs off the image or is caught in a ring of hit-free clusters |
| Fat16.CyclicDirectoryExists | fat/fat.c:261-293 | an image with a ring of two clusters on which the search never ends |
| Fat16.FatCopiesTile | fat/fat.c:222-224 | copies of the table follow each other without gaps |
| Fat16.ClustersTile | fat/fat.c:241 | clusters follow each other without gaps |
| Fat16.RootFollowsFats | fat/fat.c:486-492 | the root directory starts 512 bytes less one sector behind the tables, so right behind them if and only if sectors have 512 bytes |
| Fat16.DataFollowsRoot | fat/fat.c:222-223 | with 512-byte sectors cluster 2 starts where the root directory ends if and only if that fills whole sectors |
| Fat16.FatCopiesDisjoint | fat/fat.c:222-224 | no two table copies overlap |
| Fat16.RootAfterFats | fat/fat.c:486-492 | every table copy lies before the root directory, with 512-byte sectors |
| Fat16.ClustersAfterRoot | fat/fat.c:222-241 | every cluster lies behind the root directory of a well-formed volume |
| Fat16.ClustersDisjoint | fat/fat.c:241 | no two clusters overlap |
| Fat16.LookupInFirstFat | fat/fat_helpers.c:8-15 | a look-up stays inside the first table exactly for the clusters that table describes |
| FatNames.FillBuffer | fat/fat.c:195-221 | the buffer holds the name padded to eight, the extension padded to three, and a blank |
| FatNames.ComparesIff | fat/fat.c:234 | an entry compares equal if and only if, up to its first NUL, it is a prefix of the buffer and what lies behind |
| FatNames.FileIsFoundIff | fat/fat.c:234 | an entry is taken for the file if and only if name and extension are the padded ones and the attributes are 0, or 0x20 with no further bytes that differ |
| FatNames.OnlyPlainFilesAreFound | fat/fat.c:231-235 | a hit has no attributes but perhaps the archive bit |
| Splitting.Find | http_server/http/Request.cpp:8 | the first occurrence of the delimiter, or none |
| Splitting.StringSplit | http_server/http/Request.cpp:3-17 | ends for any non-empty delimiter, returns the tokens, and leaves the last piece of the input |
| Splitting.JoinRestores | http_server/http/Request.cpp:3-17 | joining the raw pieces restores the input |
| Splitting.NoDelimiterInside | http_server/http/Request.cpp:3-17 | no raw piece contains the delimiter |
| Splitting.TokensAreCleanedPieces | http_server/http/Request.cpp:9-15 | every token but the last is its piece without control characters |
| Splitting.OneCharacter | http_server/http/Request.cpp:10 | exactly the characters below the blank and DEL vanish, wherever they stand |
| Splitting.TokensAreControlFreeIff | http_server/http/Request.cpp:9-15 | every token but the last is free of control characters, and all are if and only if the last piece is |
| Splitting.TokensRestoreCleanInput | http_server/http/Request.cpp:3-17 | without control characters joining the tokens restores the input |
| Splitting.SplitOne | http_server/http/Request.cpp:8-12 | splitting takes off a piece that was joined |
| Splitting.RawPiecesOfJoin | http_server/http/Request.cpp:8-12 | whatever was joined is taken apart into the same raw pieces |
| Splitting.SplitOfJoin | http_server/http/Request.cpp:3-17 | splitting gives joined pieces back, if they have no delimiter and no control character |
| HttpRequest.Request.ParseText | http_server/http/Request.cpp:33-65 | the object ends up with the parsed message; an unknown method leaves it untouched |
| HttpRequest.MethodNames | http_server/http/Request.hpp:16-31 | a word is read as a method if and only if it is that method's name |
| HttpRequest.MethodWords | http_server/http/Request.hpp:16-31 | the six words, and an error for every other |
| HttpRequest.RequestLineDecides | http_server/http/Request.cpp:37-40 | for any number of words: an unknown method is an error, fewer than three words never parse, else the second and third are path and version |
| HttpRequest.FurtherWordsDoNotMatter | http_server/http/Request.cpp:37-40 | words after the third do not matter |
| HttpRequest.AnyLineIsStored | http_server/http/Request.cpp:44-49 | any header line, given by its pieces between ": "s: the first names the field, the second is its value, the rest is lost; a single piece is skipped |
| HttpRequest.ValueIsCut | http_server/http/Request.cpp:46-49 | a value is cut at its first ": " |
| HttpRequest.LineWithoutColonDoesNotMatter | http_server/http/Request.cpp:44-49 | a line without ": " is skipped and the lines behind it count |
| HttpRequest.LineIsStored | http_server/http/Request.cpp:46-49 | a printed header line is stored as its name and value |
| HttpRequest.ValueSurvivesIff | http_server/http/Request.cpp:46-49 | a value comes back if and only if it contains no ": " |
| HttpRequest.RenderedLines | http_server/http/Request.cpp:35 | a printed request splits into its request line and header lines |
| HttpRequest.RoundTrip | http_server/http/Request.cpp:33-65 | parsing a printed request, into an object in any state, recovers method, path, version and all fields but the content type, and the boundary |
| HttpRequest.FieldsSurvive | http_server/http/Request.cpp:42-50 | every field but `Content-Type` comes back with the value of its last line |
| HttpRequest.ContentTypeSurvivesIff | http_server/http/Request.cpp:52-54 | the content type comes back if and only if it has a single segment |
| HttpRequest.LastMentionDecides | http_server/http/Request.cpp:54-60 | over any segments: fails if and only if one mentions a boundary without "=", else the last mention decides |
| HttpRequest.BoundaryRecoveredIff | http_server/http/Request.cpp:54-60 | a boundary parameter in any place, the last to mention one, comes back if and only if it contains no "=" and no other mention lacks one |
| HttpRequest.BoundaryRoundTrip | http_server/http/Request.cpp:33-65 | the same for whole printed requests, with any further parameters in the content type |
| WorkerPool.InitialHolds | http_server/core/Server.cpp:177-178 | the invariant holds before any worker starts |
| WorkerPool.StepKeepsTokens | http_server/core/Server.cpp:446-489 | no step puts a worker into a second place |
| WorkerPool.TokenMoves | http_server/core/Server.cpp:446-489 | a step neither makes nor loses a worker's token, except that a fault of that worker destroys it |
| WorkerPool.StepKeepsTaken | http_server/core/Server.cpp:479-480 | a connection is only ever with the worker whose pid was taken for it |
| WorkerPool.Next | http_server/core/Server.cpp:446-489 | every step of parent or worker keeps the invariant |
| WorkerPool.Run | http_server/core/Server.cpp:446-489 | so does every interleaving |
| WorkerPool.TokenInOnePlace | http_server/core/Server.cpp:82-143 | a worker is in at most one of: free queue, parent's hand, pending on its socket, serving |
| WorkerPool.FreeQueueFits | http_server/core/Server.cpp:164-168 | the free queue never exceeds its size, `max_connections` |
| WorkerPool.NoWorkerIsLost | http_server/core/Server.cpp:82-143 | after an interleaving each worker is in exactly one place if and only if there was no fault in it |
| WorkerPool.ParentWaitsInVainIff | http_server/core/Server.cpp:459-477 | while the parent has a connection and its queue does not fail, something can happen if and only if some worker is left |
| WorkerPool.OneWorkerAtATime | http_server/core/Server.cpp:479-480 | a connection is with at most one worker |
| WorkerPool.OneWorkerForEver | http_server/core/Server.cpp:479-480 | also over time, and it is the one whose pid was taken |
| WorkerPool.FreePlace | http_server/core/Server.cpp:459-460 | a free worker moves up one place in the queue with each pid taken, and with nothing else |
| WorkerPool.TakenInOrder | http_server/core/Server.cpp:459-460 | workers are taken in the order in which they became free |
| WorkerPool.ConnectionsAreConserved | http_server/core/Server.cpp:446-489 | over every interleaving no connection is lost or doubled |
| WorkerPool.EveryConnectionIsAccountedFor | http_server/core/Server.cpp:446-489 | from the start on, each connection accepted has ended exactly once or is in exactly one place, and no other has or is |
| WorkerPool.Server.constructor | http_server/core/Server.cpp:162-178 | the pool before any worker starts |
| WorkerPool.Server.StartClientProcess | http_server/core/Server.cpp:180-200 | one more worker, free |
| WorkerPool.Server.AcceptConnection | http_server/core/Server.cpp:451-457 | takes the step of accepting |
| WorkerPool.Server.ReceivePid | http_server/core/Server.cpp:459-477 | a pid is taken when there is one, an empty queue blocks, and the connection is refused only on an error |
| WorkerPool.Server.FindClient | http_server/core/Server.cpp:479 | the first position of the pid |
| WorkerPool.Server.SendToClient | http_server/core/Server.cpp:480-486 | the connection goes to that worker's socket, or the pid goes back |
| WorkerPool.Server.ReceiveConnection | http_server/core/Server.cpp:89-95 | the worker takes the oldest message from its socket |
| WorkerPool.Server.FinishConnection | http_server/core/Server.cpp:140-141 | the worker's pid goes back |

## Left out

- Context switch assembly, stacks, signal masks, timers and `nanosleep`: a switch is the change of the current thread; line 341 is covered as "the exiting thread is never picked again".
- Nested SIGALRM inside a call: steps are atomic.
- `while (gt_schedule())` of the idle thread: an endless loop, represented by repeated schedule steps.
- Integer overflow of tickets, counters and offsets, rounding of `double`, and the bias of `rand() % n`.
- `sem_destroy`: its loop condition is inverted, so it does nothing on a waiting queue and never ends on an empty one.
- Kernel.Library.GtReturn: takes no call by the idle thread, which would loop over `gt_schedule` for ever.
- Kernel.Library.SemWait: takes no call by the idle thread, nor by a caller that is still running after an earlier wait marked it Blocked.
- Kernel.Library.SemPost: takes no call by a caller that `sem_wait` has just marked Blocked and that has not yet been switched from.
- Kernel.Library.SemTryWait: the same.
- Kernel.Library.SemInit: takes only initial values of at least 0, as every use of the library does.
- `gt_print_stats`, listings, prompts and command loops.
- Parsing of the partition table and boot sector: `Fat16.Volume` holds the fields the reader uses.
- The use of `strtok` to cut a file name at its dots, and `strlen` on an entry without any NUL: `FatNames` starts from name and extension, and looks no further than the entry. In `Fat16` an arbitrary predicate stands for the comparison.
- Fat16.Disk.GetNextCluster: assumes that the table entry lies on the image; the source would return what the stack holds.
- Fat16.Disk.FindIn: assumes that the block of entries lies on the image; the source would compare the previous entry again.
- Fat16.Disk.ReadFromRoot: assumes that the root directory and a matching file lie on the image, for the same reasons.
- Fat16.Disk.ReadFile: assumes that the table entries and clusters it visits lie on the image, because the source ignores short reads and would emit stale buffer contents.
- Fat16.Disk.ReadFromSubdirectory: assumes that the search comes to an end; `Fat16.SearchEndsIff` says exactly when it does not.
- `print_tree` and `change_directory`: nested ".." entries make the walk endless, and the path text is not maintained.
- HttpRequest.Request.ParseText: reports failure where the source would index past the end of a token list, which is undefined there.
- The TLS client, responses, loggers, message-queue system calls, fork failures and shutdown of the server.
