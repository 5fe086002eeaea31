# Lock ordering, the SPDK data path, and three small kernels

A model of the hardest parts of a storage library written in C++, with proofs of what they promise.

**Lock ordering.** `lockdep.cpp` keeps a registry of lock classes, the classes each thread holds, and a graph of
"taken after" edges; `mutex_debug.hpp` calls it around a real pthread mutex. `Lockdep.Lockdep` is the checker as a
class that updates its tables in place. Each call is proved to be a function on the tables as a value (`LockdepTables`),
and the registry, bounds and acyclicity invariants are proved of those functions, over every run. `MutexSystem` puts the calls
into a transition system in which any number of threads lock, try, unlock, build and destroy mutexes, one visible effect a step:
reading a mutex's class id, the call made with it and storing what it returned are steps of their own. Two threads that use a
new mutex for the first time at once then register its class twice; how far reference counts are off is
proved exactly, and `FirstUseRace` is a run in which a class outlives its last mutex.
`CircularWait` proves the point of it all: as long as lockdep has not aborted, every cycle of
threads blocked each on a mutex the next one holds contains a thread that owns a mutex of a class lockdep does not know it to
hold, whatever the program does. So there is no such cycle if a thread calls lock only when lockdep knows the classes it
holds. `LockOutcome` says what lock, try_lock and unlock have
done by the time they return, and `LockProgress` who can always go on. `TryRule` proves that it is enough never to take a second mutex of a class the thread already holds by
try_lock, and `TryLockGap` that some such rule is needed. `Digraph` holds the graph theory.

**The SPDK data path.** A read or write becomes tasks of at most 128 KiB (`Tiling`) on an I/O context. The queue
(`NvmeQueue`: the task, the context and the per-thread queue as classes) hands out 8 KiB segments from a pool of 1024,
shows them to the NVMe driver through a scatter/gather cursor (`Segments`), polls, copies data out, and returns
the segments (`Pool`). `IoModel` is the same submission as a transition system on values: tasks go out in order, and the drive
may complete any command in flight next. Every method of the loop is proved to be one of its steps, and `NvmeDevice`
draws the conclusion a caller cares about: a write changes exactly its range of the drive, and a read of any range, aligned or
not, fills the buffer with exactly that range, whatever order completions arrive in and however often the queue or the
pool is full. `AioBatch` and `AioClient` do the same for several requests queued on one context, and
`DeviceClient` reads back what it wrote.

**Kernels.** Alignment by masks on 64-bit words (`BitOp`), submission to libaio with exponential back-off (`SubmitBatch`), the
lowest set bit of a hexadecimal core mask (`Coremask`), and the self-pipe loop that runs signal handlers (`SignalLoop`, `SignalHandling`).

## How the environment is modelled

- The drive, the user's memory and the commands in flight are fields of the queue; an address is an index.
- A poll completes any commands in flight, any number of them, in any order. It may complete none, but only finitely often in a
  row: without that no submission ends.
- Commands complete without error and are never refused; the code aborts otherwise.
- A free segment's contents are arbitrary: the list's links live in its first bytes, so releasing one overwrites them.
- The block size is a power of two of at most 8192, and the queue takes at least one command.
- One thread submits on a context. Memory is sequentially consistent.
- The drive's bytes and the user's memory together are no more than 2^64, so that no buffer is long enough for a request
  whose end wraps.
- The drive ends at least 128 KiB before the end of the 64-bit address space (`NvmeDevice.Device.EveryReadEndsIff`).
- The kernel takes at least one task of a batch offered to it, or fails with any error at any time.

Termination is proved of every method, among them the recursive graph search, the submit/poll loop and the retry loop.

## Model

| member | source | states |
|---|---|---|
| `CircularWait.CycleHidesAMutex` | src/common/mutex_debug.hpp:198-241 | in every state of every interleaving of lock, try_lock, unlock, construction and destruction in which lockdep has not aborted, with no rule for the program: what lockdep believes a thread to hold it does hold, and every cycle of threads blocked in lock each on a tracked mutex owned by the next contains a thread that owns a mutex of a class lockdep does not believe it to hold |
| `CircularWait.NoCircularWait` | src/common/mutex_debug.hpp:198-241 | there is no such cycle if threads call lock only while lockdep knows the class of every mutex they hold; what they take by try_lock and give back in between does not matter |
| `TryRule.TryRuleSuffices` | src/common/mutex_debug.hpp:198-208 | a program in which no try_lock succeeds in taking a second mutex of a class the thread holds keeps that rule, and lockdep then believes each thread to hold exactly the classes of its mutexes, one mutex a class |
| `TryLockGap.CircularWaitWithoutTheRule` | src/common/mutex_debug.hpp:198-208 | some rule is needed: a run of two threads, one of which takes a second mutex of a held class by try_lock and gives the first one back, ends in a circular wait without lockdep having aborted |
| `CircularWait.StepSafe` | src/common/mutex_debug.hpp:198-241 | every step of any thread of any program keeps: each class lockdep believes a thread to hold is that of a mutex it owns, and has an edge to the class of the mutex the thread waits for |
| `CircularWait.TrackingForbidsCycle` | src/common/lockdep.cpp:275-335 | a cycle of waiting threads whose classes are known would be a cycle of lock classes, so an acyclic graph excludes it |
| `MutexSystem.AssertionsNeverFail` | src/common/mutex_debug.hpp:163-196 | no run in which threads unlock only what they hold reaches a failed assertion in post-lock, pre-unlock, the destructor or lockdep |
| `MutexSystem.BookkeepingExact` | src/common/mutex_debug.hpp:163-241 | a mutex no thread is working on shows exactly the pthread mutex's hold count and owner, plain or recursive |
| `LockOutcome.LockTakes` | src/common/mutex_debug.hpp:210-232 | over every interleaving, a lock that returns holds the mutex exactly once more than at its start, contended or not, for plain, recursive and untracked mutexes; only a thread that already owned a mutex that is not recursive has it fail and change nothing |
| `LockOutcome.TryLockTakes` | src/common/mutex_debug.hpp:198-208 | a try_lock that returns has tried the mutex once, and holds it once more exactly if it was free, or recursive and the thread's own, at that moment |
| `LockOutcome.UnlockReleases` | src/common/mutex_debug.hpp:234-241 | an unlock that returns has given up exactly one hold, and the mutex is free after the last |
| `LockProgress.CanStepIff` | src/common/mutex_debug.hpp:125-161 | a thread inside a call can take its next step exactly unless it is blocked on a mutex another thread owns |
| `LockProgress.SomebodyGoesOn` | src/common/mutex_debug.hpp:198-241 | under the rule for lock, every thread that waits does so for one that waits for one, and so on, that is outside of all calls, can take its next step, or is blocked on a mutex lockdep does not follow |
| `LockProgress.CreateMakes` | src/common/mutex_debug.cpp:9-16 | building a mutex gives a free one of the kind and group asked for, in the class of the name registered if lockdep follows it, and changes no other; it aborts only when no id is free |
| `MutexSystem.StepSound` | src/common/mutex_debug.cpp:9-42 | every step, among them reading a mutex's class id, calling lockdep with it and storing the answer each on its own, keeps the bookkeeping of every mutex; each id a mutex stores or a thread is about to store is that of a registered class, counted at least once per mutex, and all threads store the same one |
| `MutexSystem.ReferencesExact` | src/common/mutex_debug.cpp:9-42 | in every reachable state the references to a class are its mutexes, plus one for each time a thread registered it for a mutex that had got it since the thread read its id |
| `MutexSystem.RegisteredIff` | src/common/mutex_debug.cpp:18-27 | a class is registered exactly if some mutex refers to it, or such a race has ever happened on it |
| `FirstUseRace.ClassOutlivesItsMutex` | src/common/mutex_debug.cpp:29-42 | such a race is reachable: a run of two threads and one mutex after which the mutex is destroyed and its class still registered |
| `Lockdep.Lockdep.AddDependencies` | src/common/lockdep.cpp:275-335 | the loop that inserts edges between its own checks aborts if and only if the graph on entry has a path from the class to a held class (or the class is held and not recursive), for every order of the held classes; otherwise it adds exactly the missing edges |
| `Lockdep.Lockdep.DoesFollow` | src/common/lockdep.cpp:231-256 | the search ends on every acyclic graph and answers whether there is a non-empty path |
| `Digraph.ReachShrinks` | src/common/lockdep.cpp:244-253 | what the search can still reach strictly shrinks along every edge it follows |
| `Digraph.PathsFromTargetUnchanged` | src/common/lockdep.cpp:275-335 | edges into a class from classes it does not reach leave the paths out of it as they were |
| `Digraph.AddEdgesAcyclic` | src/common/lockdep.cpp:294-333 | edges into a class from classes it does not reach close no cycle |
| `Digraph.AddEdgesAcyclicIff` | src/common/lockdep.cpp:294-333 | edges into a class close a cycle exactly when it reaches one of the classes they come from |
| `LockdepTables.WillLockExact` | src/common/lockdep.cpp:258-339 | for a new or a known class, held or not, the call aborts exactly when the edges from the held classes would close a cycle (or the class is held and not recursive); otherwise it leaves an acyclic graph with exactly the edges there were and those |
| `LockdepTables.WillLockKeeps` | src/common/lockdep.cpp:258-339 | the call keeps the registry, the bounds, acyclicity, and that ids not in use are isolated |
| `LockdepTables.RunsKeepRegistry` | src/common/lockdep.cpp:111-229 | after any run of calls names and ids in use are inverse, the ids in use are exactly those not free, each reference count is the number of registrations outstanding, and the graph is acyclic |
| `LockdepTables.RunsIsolatedIff` | src/common/lockdep.cpp:186-229 | over any run, every unused id has an empty row and column and is held by nobody, so that its reuse starts isolated, if and only if no call took the last reference to a class some thread holds or passed the id of a class that is gone |
| `LockdepTables.HeldClassUnregistered` | src/common/lockdep.cpp:204-224 | a run of three calls that breaks this: register, lock, unregister; the next new class gets the id, and taking it aborts as a recursive lock |
| `LockdepTables.UnregisterIsolatesIff` | src/common/lockdep.cpp:186-229 | unregistering leaves every unused id without edges and unheld, so that its reuse starts isolated, if and only if it is not the last reference to a class some thread still holds |
| `LockdepTables.NextIdIsFree` | src/common/lockdep.cpp:111-133 | the id handed out is free and never above the bound on ids handed out, so the bound grows by one at a time and the resize test by equality suffices; -1 means no id is free |
| `LockdepTables.RegisterKeeps` | src/common/lockdep.cpp:135-184 | registering keeps the invariants and adds one reference to exactly the class of that name |
| `LockdepTables.UnregisterValid` | src/common/lockdep.cpp:186-229 | unregistering keeps the registry, the bounds and acyclicity |
| `LockdepTables.FreedIdIsReused` | src/common/lockdep.cpp:111-133 | the id of a class dropped with its last reference goes to the next new class, however many smaller ids are free, and the one after that gets the least free id |
| `LockdepTables.DisabledDoesNothing` | src/common/lockdep.cpp:135-142 | while lockdep is off registering returns -1, the other calls return the id they were given, and none touches anything |
| `LockdepTables.LockedKeeps` | src/common/lockdep.cpp:341-364 | noting a lock keeps the invariants |
| `LockdepTables.WillUnlockKeeps` | src/common/lockdep.cpp:366-394 | dropping a held class keeps the invariants |
| `Lockdep.Lockdep.GlobalInit` | src/common/lockdep.cpp:35-53 | the first call makes every id free, later ones change nothing |
| `Lockdep.Lockdep.GetFreeId` | src/common/lockdep.cpp:111-133 | takes the last freed id if it is still free, else the least free one, and nothing else |
| `Lockdep.Lockdep.RegisterClass` | src/common/lockdep.cpp:135-184 | the tables after the call, all of them, as the specification has them, with the invariant kept |
| `Lockdep.Lockdep.UnregisterClass` | src/common/lockdep.cpp:186-229 | the same for unregistering, clearing row and column of the last reference |
| `Lockdep.Lockdep.WillLockClass` | src/common/lockdep.cpp:258-339 | the same for a thread about to wait, and when it aborts |
| `Lockdep.Lockdep.LockedClass` | src/common/lockdep.cpp:341-364 | the same for a thread that has the lock |
| `Lockdep.Lockdep.WillUnlockClass` | src/common/lockdep.cpp:366-394 | the same for a thread about to unlock |
| `NvmeDevice.Device.Write` | src/blk/spdk/nvme_device.cpp:347-373 | for any accepted range whose buffer is in memory the drive afterwards is the drive before with exactly the range replaced by the buffer; memory is unchanged; the pool is whole again |
| `NvmeDevice.Device.ReadRandom` | src/blk/spdk/nvme_device.cpp:300-322 | for any range the assertions accept whose buffer is in memory the buffer afterwards holds exactly that range, the rest of memory and the drive are unchanged, and the result is 0 |
| `NvmeDevice.Device.Read` | src/blk/spdk/nvme_device.cpp:269-298 | the same for whole blocks |
| `NvmeDevice.Device.AioSubmit` | src/blk/spdk/nvme_device.cpp:99-151 | a context with pending tasks ends with every one of them done once, bytes no task is for unchanged, nothing pending or running, exactly one callback or wake-up unless a primary task waits instead, and the pool whole, even if tasks overlap; if they keep apart each has had exactly its effect; a context without tasks is left alone |
| `NvmeDevice.Device.AioWrite` | src/blk/spdk/nvme_device.cpp:375-392 | for every accepted range, even one whose end wraps, appends exactly the write's tasks, all new, with their 64-bit offsets and addresses |
| `NvmeDevice.Device.WriteInsideIff` | src/blk/block_device.cpp:72-79 | the tasks of an accepted write all stay inside the device if and only if its end does not wrap at 64 bits |
| `NvmeDevice.Device.AioRead` | src/blk/spdk/nvme_device.cpp:324-345 | appends exactly the read's tasks, all new; an accepted read appends a task if and only if its end does not wrap at 64 bits, and returns 0 either way |
| `NvmeDevice.Device.EveryReadEndsIff` | src/blk/spdk/nvme_device.cpp:226-230 | the loop that cuts a read ends for every request the check accepts if and only if the device ends at least 128 KiB before the end of the address space; otherwise it does not for the last block |
| `NvmeDevice.WriteSplit` | src/blk/spdk/nvme_device.cpp:170-198 | the loop's tasks are the pieces of the range, in order, with offsets and addresses taken at 64 bits |
| `NvmeDevice.MakeReadTasks` | src/blk/spdk/nvme_device.cpp:200-267 | the loop, in 64-bit arithmetic, appends one task with its copy for each of its turns; the primary does a read of one piece itself and otherwise counts one subtask per piece |
| `NvmeDevice.Device.ReadResult` | src/blk/spdk/driver_queue.cpp:54-77 | once everything is done the task a synchronous read waits for has return code 0 |
| `NvmeDevice.Device.ValidIoIsInside` | src/blk/block_device.cpp:72-79 | a request the check accepts lies inside the device exactly when its end does not wrap at 64 bits |
| `NvmeDevice.Device.ValidIoIff` | src/blk/block_device.cpp:72-79 | where the end does not wrap, the check accepts exactly the non-empty ranges of whole blocks inside the device |
| `NvmeDevice.Device.WrappedIoIsAccepted` | src/blk/block_device.cpp:72-79 | an input for which it does wrap: from the second block on, all of the address space but one block |
| `NvmeDevice.Device.EndDoesNotWrap` | src/blk/block_device.cpp:72-79 | with a buffer of that length in memory beside the device the end cannot wrap |
| `NvmeDevice.Device.constructor` | src/blk/spdk/nvme_device.cpp:58-67 | opening rounds the size down to whole blocks and gives a new queue at rest |
| `DeviceClient.OpenWriteRead` | src/blk/spdk/nvme_device.cpp:300-373 | on a device just opened, any part of a range just written, aligned or not, is read back as it was in memory |
| `Tiling.ReadTiling` | src/blk/spdk/nvme_device.cpp:226-266 | the tasks cover the window end to end and their copies the destination: no gap, no overlap, each byte to its place, none left over; no task reads past its own bytes or needs more than 16 segments |
| `Tiling.ReadItemsSplit` | src/blk/spdk/nvme_device.cpp:226-266 | the closed form of the pieces, or no piece if the end wraps, is what the loop's 64-bit variables compute from one turn to the next, whenever the loop ends |
| `Tiling.CutEndsIff` | src/blk/spdk/nvme_device.cpp:226-230 | the loop ends if and only if the window's end wraps, when it does nothing, or the step past the last piece does not wrap |
| `Tiling.ReadEffect` | src/blk/spdk/nvme_device.cpp:200-267 | when all tasks of a read are done, memory is as before with exactly the range asked for laid over the buffer |
| `Tiling.WriteEffect` | src/blk/spdk/nvme_device.cpp:170-198 | when all tasks of a write are done, the drive is as before with exactly the buffer laid over the range |
| `Tiling.WindowAround` | src/blk/spdk/nvme_device.cpp:306-311 | the window of whole blocks around a range contains it and stays inside a device of whole blocks |
| `Tiling.PieceIsAligned` | src/blk/spdk/nvme_device.cpp:182-197 | cutting whole blocks at 128 KiB gives whole blocks, for every power of two up to the segment size |
| `AioBatch.BatchFits` | src/blk/spdk/nvme_device.cpp:324-392 | any requests inside the device and memory make a submission the queue works through, and independent ones make tasks that keep apart |
| `AioBatch.BatchEffect` | src/blk/spdk/nvme_device.cpp:324-392 | each of several requests on one context has the effect it has alone: a write's range holds its buffer, a read's buffer the range as it was at submission |
| `AioBatch.BatchLeaves` | src/blk/spdk/nvme_device.cpp:324-392 | bytes of the drive outside every write and of memory outside every read are untouched |
| `AioClient.RunBatch` | src/blk/spdk/nvme_device.cpp:99-151 | a client that queues any reads and writes on one context by the two asynchronous calls and submits: independent ones have all had their effects, bytes that none is for are untouched, and the context is told exactly once, by its callback if it has a private pointer and by waking its waiters if not |
| `AioClient.QueueAll` | src/blk/spdk/nvme_device.cpp:324-392 | queuing the requests one after the other leaves the context with all of their tasks in order |
| `IoModel.AnyOrder` | src/blk/spdk/driver_queue.cpp:190-285 | every run, whatever the order of completions, has at most two steps a task; with nothing running every task has finished and, if tasks keep apart, has had exactly its effect; with something running there is a next step |
| `IoModel.CanGoOn` | src/blk/spdk/driver_queue.cpp:190-285 | whenever something is running some submission or completion can take place |
| `IoModel.SubmitKeeps` | src/blk/spdk/driver_queue.cpp:213-281 | a submission keeps the whole invariant: depth counts the commands in flight and stays within the limit, running is unsubmitted plus in flight, every task from the cursor on is unsubmitted, the pool is partitioned, contents are as the finished tasks say |
| `IoModel.CompleteKeeps` | src/blk/spdk/driver_queue.cpp:11-84 | completing any command in flight keeps the same invariant |
| `IoModel.NeverStuck` | src/blk/spdk/driver_queue.cpp:145-153 | with nothing in flight the whole pool is free and any task fits, so a failed allocation always has a completion to wait for |
| `IoModel.NextKeeps` | src/blk/spdk/driver_queue.cpp:199-282 | twice the unsubmitted tasks plus those in flight drops at every submission and every completion |
| `IoModel.NothingRunning` | src/blk/spdk/driver_queue.cpp:199-282 | when the count of running tasks is 0 every task has finished, all segments are back, no byte outside the tasks' ranges has changed, the data of tasks that keep apart is in place, and the context has been told exactly once |
| `NvmeQueue.DriverQueue.AioHandle` | src/blk/spdk/driver_queue.cpp:190-285 | the loop ends with every task done, for every behaviour of the drive that eventually completes something |
| `NvmeQueue.DriverQueue.SubmitMany` | src/blk/spdk/driver_queue.cpp:213-281 | the inner loop submits in order and stops early only when the queue is full or too few segments are free for the next task, and then with commands in flight to wait for; the cursor is always the next unsubmitted task |
| `NvmeQueue.DriverQueue.ProcessCompletions` | src/blk/spdk/driver_queue.cpp:204-211 | a poll that completes any set of commands keeps the invariant |
| `NvmeQueue.DriverQueue.IssueNext` | src/blk/spdk/driver_queue.cpp:220-280 | allocating and issuing the next task is exactly one submission step of the transition system, or changes nothing when segments are short |
| `NvmeQueue.DriverQueue.FinishOne` | src/blk/spdk/driver_queue.cpp:11-84 | carrying out and completing any command in flight is exactly one completion step of the transition system |
| `NvmeQueue.DriverQueue.IoComplete` | src/blk/spdk/driver_queue.cpp:11-84 | the state after a completion callback: data copied before the segments go back, counts down by one, a callback or wake-up exactly when the last task of an asynchronous context completes, the primary's code 0 exactly when its last subtask does |
| `NvmeQueue.DriverQueue.AllocBufFromPool` | src/blk/spdk/driver_queue.cpp:143-188 | all of a task's segments or none, a failure changes nothing, and a write's segments hold its buffer |
| `NvmeQueue.DriverQueue.CopyIn` | src/blk/spdk/driver_queue.cpp:172-185 | the copy loop fills the segments with the buffer and touches no other segment |
| `NvmeQueue.DriverQueue.ReleaseSegs` | src/blk/spdk/task.hpp:54-69 | exactly the task's segments go back, and only their contents may change |
| `NvmeQueue.DriverQueue.CopyToBuf` | src/blk/spdk/task.hpp:71-84 | the copy loop lays exactly the asked bytes of the segments over the buffer |
| `NvmeQueue.DriverQueue.ShowSegments` | src/blk/spdk/driver_queue.cpp:86-140 | a driver that splits a command at any offsets, resets the cursor to the start of each part and calls next until it has enough, is shown every byte of the task once and in order |
| `NvmeQueue.DriverQueue.Transfer` | src/blk/spdk/driver_queue.cpp:233-257 | moving bytes through the ranges shown, however the command was split, moves exactly the task's bytes between its segments and its range of the drive |
| `NvmeQueue.DriverQueue.FillPool` | src/blk/spdk/driver_queue.hpp:55-63 | the pool starts with every segment once |
| `NvmeQueue.Task.constructor` | src/blk/spdk/task.hpp:37-45 | a subtask counts itself on its primary and takes its return code |
| `NvmeQueue.Task.Delete` | src/blk/spdk/task.hpp:47-52 | a task is deleted once, with no segments, and uncounts itself |
| `NvmeQueue.Task.ResetSgl` | src/blk/spdk/driver_queue.cpp:86-106 | the search loop sets the cursor to the segment of the offset and the bytes left in it |
| `NvmeQueue.Task.NextSge` | src/blk/spdk/driver_queue.cpp:108-140 | the next range, the short tail included, and the cursor moved on; nothing at the end |
| `NvmeQueue.IoContext.AppendTask` | src/blk/spdk/nvme_device.cpp:153-168 | the linked list from first to last is the old one with the task at its end |
| `NvmeQueue.IoContext.TryAioWake` | src/blk/io_context.hpp:59-71 | one fewer running, and waiters are woken exactly when none is left |
| `NvmeQueue.DriverQueue.ReportDone` | src/blk/spdk/driver_queue.cpp:26-34 | one fewer running, and exactly when none is left a context with a private pointer has its callback run and one without has its waiters woken |
| `Segments.ResetThenDrain` | src/blk/spdk/driver_queue.cpp:86-140 | after a reset to an offset, the ranges are exactly the task's bytes from there on, once each and none empty, if and only if the offset is before the end or the task is whole segments |
| `Segments.DrainCovers` | src/blk/spdk/driver_queue.cpp:108-140 | from any cursor the ranges drained run on without gap to the task's end |
| `Segments.GatherCovers` | src/blk/spdk/driver_queue.cpp:108-140 | ranges that cover a stretch of the task collect exactly its bytes |
| `Segments.ScatterCovers` | src/blk/spdk/driver_queue.cpp:108-140 | writing through them changes exactly those bytes |
| `Pool.PartitionIff` | src/blk/spdk/driver_queue.cpp:143-170 | each segment free or owned once is the same as the free ones and those of all commands being the 1024 segments of the pool, none lost and none twice |
| `Pool.PartitionTake` | src/blk/spdk/driver_queue.cpp:162-170 | taking segments keeps free and owned segments a partition of the pool |
| `Pool.PartitionReturn` | src/blk/spdk/task.hpp:54-69 | giving a command's segments back, in any order, keeps it |
| `Pool.OwnedDisjoint` | src/blk/spdk/driver_queue.cpp:162-170 | no segment belongs to two commands, or to a command and the free list |
| `BitOp.P2AlignExact` | src/common/bit_op.hpp:19-22 | for every power of two the mask takes off exactly the remainder |
| `BitOp.P2RoundupExact` | src/common/bit_op.hpp:29-32 | for every power of two the result is the least multiple not below the argument, or 0 exactly when that does not fit in 64 bits |
| `BitOp.LeastMultipleIsLeast` | src/common/bit_op.hpp:24-32 | no smaller multiple is at or above the argument |
| `SubmitBatch.AioQueue.SubmitBatch` | src/blk/kernel/io_queue.cpp:6-60 | whatever the kernel answers and has taken before: each call offers it what is left up to the depth, what it newly takes is a prefix of the list in order and each once, EAGAIN is slept on and any other error ends the batch; a non-negative result means all is taken, a negative one is the kernel's own last answer, EAGAIN means 17 of them in a row with 16 sleeps of 8191875 microseconds in all between, and every sleep is counted as a retry |
| `SubmitBatch.OverIff` | src/blk/kernel/io_queue.cpp:26-60 | a batch goes on exactly until it is over: all taken, or a failure that is not slept on |
| `SubmitBatch.NextIsDecided` | src/blk/kernel/io_queue.cpp:26-60 | what comes next, a sleep of a certain length or a call offering a certain number of tasks, is decided by what has happened; only the kernel's answer is not |
| `SubmitBatch.FailureEnds` | src/blk/kernel/io_queue.cpp:45-52 | every failure that is not the last thing to happen is EAGAIN and is followed by a sleep |
| `SubmitBatch.BackOffBounded` | src/blk/kernel/io_queue.cpp:8-10 | at no point has it slept more than 16 times, or more than 125 * (2^16 - 1) microseconds in all, since the kernel last took something |
| `Coremask.FindFirstBitset` | src/blk/spdk/nvme_manager.cpp:63-80 | for a numeral of digits of the table in either case, alone or after "0x" or "0X": 0 when its value is 0, otherwise the position p of the lowest bit set, that is, the value is divisible by 2^(p-1) and not by 2^p; for any other string, the last character that is not '0' after the prefix decides: its lowest bit and its place if it is a digit, an error if not |
| `Coremask.ScanFindsLowestBit` | src/blk/spdk/nvme_manager.cpp:53-80 | the same of the scan from the right, for every numeral of every value |
| `Coremask.ScanFailsIff` | src/blk/spdk/nvme_manager.cpp:71-78 | it fails exactly when some character is no digit and all those to its right are zeros |
| `SignalLoop.EveryByteOnce` | src/common/signal_handler_async.cpp:120-156 | in every state of every run, for each signal, calls made, bytes queued and a call about to be made add up to the completed writes |
| `SignalHandling.PassHandles` | src/common/signal_handler_async.cpp:120-152 | a pass calls every registered handler whose pipe held a byte at its start exactly once, none more than once, and none whose pipe was and stayed empty |
| `SignalHandling.HandledInTime` | src/common/signal_handler_async.cpp:88-152 | until stop is set, a byte queued for a handler that is registered and has woken the worker is handled by the time the worker has taken 104 steps, and 36 for each poll that failed |
| `SignalHandling.HandlingNeverStuck` | src/common/signal_handler_async.cpp:88-152 | and until then the worker, or the registration that holds the lock it needs, can take a step |
| `SignalHandling.EveryWakeByteOnce` | src/common/signal_handler_async.cpp:70-76 | wake bytes read, one a pass if there is one, and wake bytes in the pipe add up to those written by registrations and the shutdown |
| `SignalHandling.SignalArrives` | src/common/signal_handler_async.cpp:178-202 | a signal for a registered handler can come in any state and leaves one byte in its pipe |
| `SignalHandling.RegistrationGoesOn` | src/common/signal_handler_async.cpp:204-229 | a registration can take its next step exactly unless it waits for the lock, and when it is through its handler is in place |
| `SignalHandling.ShutdownGoesOn` | src/common/signal_handler_async.cpp:78-83 | the shutdown waits for nothing but the worker, and is over only when the worker has left |
| `SignalLoop.NoLostWakeup` | src/common/signal_handler_async.cpp:88-112 | the worker never stays in poll with a byte queued that it does not see, unless the registration of that handler is about to write the wake byte; it polls the pipes of registered handlers only |
| `SignalLoop.ShutdownBounded` | src/common/signal_handler_async.cpp:78-91 | from the moment stop is set the worker takes at most 68 more steps, whatever the other threads do |
| `SignalLoop.ShutdownNeverStuck` | src/common/signal_handler_async.cpp:78-112 | once the shutdown has written its byte, and until the worker has left, the worker or the registration that holds the lock can take a step that lowers the steps left |
| `SignalLoop.WorkerLeaves` | src/common/signal_handler_async.cpp:78-112 | by the time the worker and the registrations have taken 68 steps, and four for each registration, after stop is set the worker has left, for every schedule and whatever signals arrive |
| `SignalLoop.StepKeepsSnapshots` | src/common/signal_handler_async.cpp:204-229 | every step keeps: a handler missing from the snapshot being polled has its wake byte in the pipe or to come |

## Left out

- Starting lockdep again after `lockdep_global_destroy`: it clears the names and the graph but not the reference counts, free ids and bound (src/common/lockdep.cpp:55-84), so the invariants are those of one period.
- The debug mutex and the signal handler's thread are transition systems over all threads rather than classes, because what is proved of them is about interleavings; the order in which plain and atomic stores become visible is not captured, and a read or store of a mutex's class id, a plain field that threads share, is taken to be whole.
- CircularWait.NoCircularWait: does not cover recursive mutexes, mutexes built without lockdep, or calls with the `no_lockdep` argument, because lockdep does not follow those.
- `shared_mutex_debug_impl`, whose try_lock_shared drops its held entry and then blocks (src/common/mutex_debug.cpp:124-141).
- The name the mutex constructor registers is an input: the code reads the parameter after moving from it (src/common/mutex_debug.cpp:9-15).
- Backtraces, logging and abort messages.
- FLUSH commands: none is ever created (src/blk/spdk/driver_queue.cpp:78-83).
- The branches that delete a task and abort when the driver refuses a command (src/blk/spdk/driver_queue.cpp:237-243 and 259-264), and failed completions, which the code asserts away.
- A completion callback that destroys its context, which the code still touches afterwards (src/blk/spdk/driver_queue.cpp:26-35).
- NvmeQueue.DriverQueue.ReleaseSegs: also empties the task's own list of segments, where the code only sets its length to 0; nothing reads the list after that.
- NvmeDevice.Device.AioSubmit: does not say what data tasks of one context that overlap leave in the bytes they share, because completions come in any order; everything else it says of them too. A single request never overlaps itself (`Tiling.WritesFit`, `Tiling.ReadsFit`).
- NvmeDevice.Device.constructor: does not open a drive that ends within 128 KiB of 2^64, because there the loop that cuts a read of the last block never ends (`NvmeDevice.Device.EveryReadEndsIff`, `Tiling.CutEndsIff`).
- NvmeDevice.Device.AioWrite: an address past 2^64 wraps, where C++ leaves pointer arithmetic outside the buffer undefined.
- Several devices or threads: the queue belongs to the device because there is one of each (src/blk/spdk/nvme_manager.hpp:69).
- Opening and probing devices, the rest of the NVMe manager, the kernel block device, and the POSIX AIO branches.
- SubmitBatch.AioQueue.SubmitBatch: does not model the size of the array that holds the list; the caller's bound on it is a precondition.
- Coremask.FindFirstBitset: counts positions in unbounded integers.
- Removing a handler or registering one twice, the contents of the signal information, and a pipe that is full.
