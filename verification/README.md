# Verified models of Asterinas kernel components

Dafny models of the parts of the Asterinas kernel whose correctness is a statement over whole
runs or all inputs, each with the properties its code keeps.

| file | what it models |
|---|---|
| RwLock.dfy | the packed 64-bit word of `RwLock` and `RwMutex`, as interleaved atomic steps of any number of agents, and the lock object whose methods are those steps |
| TaskScheduling.dfy | task statuses, `sleep`, `wakeup`, `switch_to`, `add_task` and `yield_to` on any number of CPUs, with the scheduler as a bag |
| RequestQueue.dfy | the block request queue, which merges and reorders adjacent bios |
| VirtQueue.dfy, VirtQueueDriver.dfy | the split virtqueue (section 2.6, "Split Virtqueues", of VIRTIO 1.1): descriptor free list, rings with wrapping indices, and the driver object |
| PathStrings.dfy, PathResolution.dfy | names in a path, `split_path`, path lookup with symlinks, and lookup of directory and base name |
| PathLaws.dfy | what names, symlinks and paths put together lead to |
| PageTable.dfy, Mmu.dfy | the four-level page table (section 4.5, "4-Level Paging", of the Intel SDM, Volume 3A), walked and grown in place, and the processor's own walk over its words |
| MemorySet.dfy, VmSpace.dfy | the area index beside the page table, and ranges of pages on top of it |
| AddressSpaceIo.dfy, VmSpaceIo.dfy | byte access through an address space against a flat array, and what a mapping's permissions let it do |
| MemoryRegion.dfy, AlignExt.dfy | boot memory regions, rounding to a power of two, and the frames given to the frame allocator |
| SuffixTrie.dfy, KtestTree.dfy | the kernel test tree, its iterator with an explicit stack, the runner's counts and the whitelist trie |
| AtomicBits.dfy | bits in 64-bit words and the word-at-a-time iterators |
| Bits.dfy, Wrappers.dfy | bitwise and, masks and powers of two; result types |

Objects that the source updates in place are classes. Their methods follow the source's statements,
and each is tied to a specification: a step of a state machine, a plain map, a list or a partition.
The properties over whole runs are lemmas about those specifications. Every induction is written out:
automatic induction is switched off where Dafny would try it. A panic of the source (a failed
assertion or unwrap) is an outcome of the method, and its exact condition is part of the contract.

Where the code and what is written about it part ways, the model follows the code, and the exact
condition is proved:

- `VmSpace::unmap` stops at the first page of its range that is not mapped, although its comment allows
  gaps (`VmSpace.GapStopsUnmap`); mapping with overwriting panics exactly when a mapped page follows a
  gap (`VmSpace.OverwriteClearsIff`).
- `MemorySet::protect` keeps area index and page table in agreement exactly for single-page areas or
  unchanged flags, PRESENT among them (`MemorySet.ProtectAgreesIff`); `VmSpace` only ever makes
  single-page areas and sets PRESENT.
- On an address whose bit 47 is clear but which is not canonical, `map`, `unmap` and `protect` of a user
  page table change the entry of the page that bits 47 to 12 select before the TLB flush panics
  (`PageTable.UserPageTable.Map`).
- `recycle_descriptors` also rewrites the link of the descriptor before the chain. That is harmless
  exactly when this descriptor ends its list (`VirtQueue.RecycleKeepsPartitionIff`). When it is a member
  of the chain other than its last, the walk never ends (`VirtQueue.RecycleEndsIff`), and harmless
  operations can lead there (`VirtQueue.EndlessRecycleIsReachable`). Returning the newest chain first
  always meets the condition; returning the oldest first need not.
- `try_upgrade` on a guard that has not announced an upgrade never succeeds (`RwLock.TryUpgradeOutcome`),
  and the wake-up test in the drop of `RwMutex`'s upread guard never holds (`RwLock.UpreadDropNeverWakes`).
- A wakeup that arrives before `sleep` is not remembered, however the run goes on
  (`TaskScheduling.EarlyWakeupIsLost`); one that arrives after it never gets lost
  (`TaskScheduling.NoLostWakeup`).
- The runner's documentation selects the tests whose path is a suffix of a whitelisted path; the code
  selects those of whose path a whitelisted path is a suffix (`KtestTree.RunTests`).
- The counter of a test module other than a crate's root is twice the number of its tests
  (`KtestTree.InsertCounts`); the root's, which the runner compares, is exact.

Conventions: integers are unbounded, and every wrap-around or truncation that matters is written out.
Virtual addresses and page numbers are natural numbers, and page table entries are 64-bit words.
Strings are sequences of characters, and lengths are counted in characters, one byte each. Physical
memory is a map from frames to their contents. The frame allocator is a supply of frames, passed as a
parameter, that are distinct and not in use. Atomic operations are sequentially consistent steps.

## Model

| member | source | states |
|---|---|---|
| RwLock.TryReadKeepsInv | framework/aster-frame/src/sync/rwlock.rs:321-332 | A read attempt, granted or failing, leaves the word equal to the counts of who holds what; a grant under a writer, an upgrade or a full reader count is impossible |
| RwLock.LeaveReadKeepsInv | framework/aster-frame/src/sync/rwlock.rs:422-427 | Dropping a read guard and undoing a failed attempt take exactly one reader off the count, without a borrow from the flag bits |
| RwLock.WriteStepKeepsInv | framework/aster-frame/src/sync/rwlock.rs:344-357 | The compare-and-exchange grants a write guard only from the idle word; stores and the drop keep the word equal to the counts |
| RwLock.TryUpreadKeepsInv | framework/aster-frame/src/sync/rwlock.rs:369-380 | Setting the upread bit grants at most one upread guard, and a bit set under a writer is the failing agent's own |
| RwLock.LeaveUpreadKeepsInv | framework/aster-frame/src/sync/rwlock.rs:516-521 | Subtracting the upread bit, on a drop, an undo or after a finished upgrade, removes the subtracting agent's own bit |
| RwLock.UpgradeStepKeepsInv | framework/aster-frame/src/sync/rwlock.rs:479-507 | Announcing and completing an upgrade keep one writer at most and no reader beside it |
| RwLock.ReadGrantedIff | framework/aster-frame/src/sync/rwlock.rs:321-332 | In every state with the invariant a read attempt is granted exactly when no agent writes, none waits in an upgrade and fewer than 2^60 readers are counted; an upread guard is no obstacle |
| RwLock.WriteGrantedIff | framework/aster-frame/src/sync/rwlock.rs:344-357 | A write attempt is granted exactly when every other agent is idle |
| RwLock.UpreadGrantedIff | framework/aster-frame/src/sync/rwlock.rs:369-380 | An upread attempt is granted exactly when no agent holds or has set the upread bit and none writes; only under a writer does it leave a bit behind |
| RwLock.LeavesTo | framework/aster-frame/src/sync/rwlock.rs:422-521 | Drops and undos make the agent idle, `upgrade` makes it an upgrader, and a finished upgrade a writer |
| RwLock.OnlyOwnPhase | framework/aster-frame/src/sync/rwlock.rs:321-521 | A step changes what no other agent holds, and the protected value only if it is a store |
| RwLock.StepKeepsInv | framework/aster-frame/src/sync/rwlock.rs:321-521 | Any atomic step of any agent keeps the word equal to the decoded counts, provided fewer than 2^60 failing readers are in flight |
| RwLock.RunKeepsInv | framework/aster-frame/src/sync/rwlock.rs:321-521 | The same over every interleaving of any number of agents |
| RwLock.IdleIffZero | framework/aster-frame/src/sync/rwlock.rs:344-346 | The word is 0 exactly when no agent holds anything or has an attempt in flight, so a write can be granted exactly then |
| RwLock.PairCompatible | framework/aster-frame/src/sync/rwlock.rs:17-110 | What two agents can hold at once: nothing but failing attempts beside a writer, one upreader, readers beside an upreader |
| RwLock.Exclusion | framework/aster-frame/src/sync/rwlock.rs:17-110 | In every reachable state: exclusion of readers and writer, one writer and one upreader at most, no carry of the reader count into bit 61, idle word 0 |
| RwLock.SharedValueIsStable | framework/aster-frame/src/sync/rwlock.rs:479-507 | While an agent keeps a read or upread guard nobody else writes and the protected value does not change, whatever the interleaving |
| RwLock.UpgradeIsAtomic | framework/aster-frame/src/sync/rwlock.rs:479-507 | The value seen at the grant of an upread guard is the value at the start of the upgraded write section, and then nobody else holds a guard |
| RwLock.TryUpgradeOutcome | framework/aster-frame/src/sync/rwlock.rs:491-507 | The exchange of `try_upgrade` succeeds exactly during an announced upgrade with no reader in flight; on a plain upread guard it never does |
| RwLock.UpreadDropNeverWakes | framework/aster-frame/src/sync/rwmutex.rs:318-325 | The word fetched by the drop of an upread guard is never 0, so the wake-up it is compared for never happens |
| RwLock.ReadDropWakesIffIdle | framework/aster-frame/src/sync/rwmutex.rs:224-230 | The drop of a read guard wakes a waiter exactly when everything else is idle |
| RwLock.ReadBurst | framework/aster-frame/src/sync/rwlock.rs:321-332 | 2^60 read attempts in a row succeed and the following ones fail, while nobody leaves |
| RwLock.FailingReaderBoundIsTight | framework/aster-frame/src/sync/rwlock.rs:106-110 | With 2^60 failing readers in flight there is a run that ends with a write guard and a read guard held at once: the bound above is exact |
| RwLock.Lock.constructor | framework/aster-frame/src/sync/rwlock.rs:114-119 | A new lock is idle and holds the given value |
| RwLock.Lock.TryReadAdd | framework/aster-frame/src/sync/rwlock.rs:321-332 | The access of `try_read`: with the invariant, granted exactly when no agent writes, none waits in an upgrade and fewer than 2^60 readers are counted; the agent then reads, otherwise it has a reader to take back; no other agent and no value changes |
| RwLock.Lock.SubReader | framework/aster-frame/src/sync/rwlock.rs:422-427 | The agent is idle afterwards, by a drop or an undo; nothing else changes and the invariant holds |
| RwLock.Lock.TryWriteExchange | framework/aster-frame/src/sync/rwlock.rs:344-357 | The access of `try_write`: granted exactly when every other agent is idle, and then the agent writes; otherwise nothing changes, the word included |
| RwLock.Lock.WriteValue | framework/aster-frame/src/sync/rwlock.rs:447-452 | A store through a write guard changes the value and nothing else, while nobody else holds a guard |
| RwLock.Lock.DropWriter | framework/aster-frame/src/sync/rwlock.rs:454-458 | The agent is idle afterwards; the writer bit alone is cleared and the invariant holds |
| RwLock.Lock.TryUpreadOr | framework/aster-frame/src/sync/rwlock.rs:369-380 | The access of `try_upread`: granted exactly when no agent holds or has set the upread bit and none writes, a bit left behind exactly under a writer, nothing changed exactly when the bit was set already |
| RwLock.Lock.SubUpreader | framework/aster-frame/src/sync/rwlock.rs:516-521 | After a drop or an undo the agent is idle, after an upgrade it writes; nothing else changes and the invariant holds |
| RwLock.Lock.UpgradeOr | framework/aster-frame/src/sync/rwlock.rs:479-488 | `upgrade` turns the upread guard into an announced upgrade and keeps the invariant |
| RwLock.Lock.TryUpgradeExchange | framework/aster-frame/src/sync/rwlock.rs:491-507 | The exchange of `try_upgrade`: granted exactly for an announced upgrade while no reader is counted; otherwise nothing changes |
| RwLock.Lock.TryRead | framework/aster-frame/src/sync/rwlock.rs:321-332 | The whole call: granted exactly when no agent writes, none waits in an upgrade and fewer than 2^60 readers are counted, an upread guard beside it or not; a refusal leaves everything as it was |
| RwLock.Lock.TryUpread | framework/aster-frame/src/sync/rwlock.rs:369-380 | The whole call: granted exactly when no agent holds or has set the upread bit and none writes; a refusal leaves everything as it was |
| RwLock.Lock.TryUpgrade | framework/aster-frame/src/sync/rwlock.rs:491-507 | The whole call: granted exactly for an announced upgrade while no reader is counted, and then the upread guard has become a write guard with no other guard beside it; a refusal leaves everything as it was |
| TaskScheduling.PanicsOnlyOnDoubleSleep | framework/aster-frame/src/task/processor.rs:116-169 | In every state with the token invariant no assertion of the source fires, except that of `sleep`, exactly when the sleeper is not running |
| TaskScheduling.SwitchInKeepsInv | framework/aster-frame/src/task/processor.rs:116-140 | Claiming the next task makes it `Running` on the CPU with its one token in `current`; the replaced task's token goes to the CPU that leaves it, and no other task moves |
| TaskScheduling.SwitchOutKeepsInv | framework/aster-frame/src/task/processor.rs:142-169 | The replaced task keeps its one token if it is still runnable and has none once it sleeps or has exited; no other task moves |
| TaskScheduling.WakeupKeepsInv | framework/aster-frame/src/task/task.rs:310-325 | A wakeup makes a sleeping task runnable with exactly one token, its pending enqueue, returns a drowsy one to `Running`, and changes nothing for others |
| TaskScheduling.AddStepKeepsInv | framework/aster-frame/src/task/scheduler.rs:155-161 | Enqueueing moves the one token of a fresh or woken task into the queue, where it is runnable; no other task moves |
| TaskScheduling.PickStepKeepsInv | framework/aster-frame/src/task/scheduler.rs:140-152 | Picking moves the one token from the queue to the CPU; no other task moves |
| TaskScheduling.BuildKeepsInv | framework/aster-frame/src/task/task.rs:446-470 | A new task is runnable and has one token, with its maker |
| TaskScheduling.RequeueKeepsInv | framework/aster-frame/src/task/processor.rs:160-169 | The replaced task that is still runnable gets its one token back into the queue |
| TaskScheduling.OwnStepKeepsInv | framework/aster-frame/src/task/task.rs:302-308 | `sleep` and `exit` change the status of the current task, to about to sleep on this CPU or to exited, and leave its token |
| TaskScheduling.StepKeepsInv | framework/aster-frame/src/task/processor.rs:72-173 | Every step of every CPU and every waker keeps one token per awake task |
| TaskScheduling.RunKeepsInv | framework/aster-frame/src/task/processor.rs:72-173 | The same over every interleaving |
| TaskScheduling.OneTokenPerTask | framework/aster-frame/src/task/processor.rs:116-169 | In every reachable state each task that is not asleep or exited is in exactly one place; none is current twice, queued twice, or queued while current |
| TaskScheduling.DrowsyUntilWoken | framework/aster-frame/src/task/task.rs:302-308 | A task that announced its sleep stays about to sleep or asleep until a wakeup |
| TaskScheduling.WideAwakeUntilSleep | framework/aster-frame/src/task/task.rs:302-325 | A task that is runnable or running stays so until it acts itself |
| TaskScheduling.WakeupTakesEffect | framework/aster-frame/src/task/task.rs:310-325 | A wakeup after the announcement catches the task on its CPU, or leaves it runnable with exactly one pending enqueue |
| TaskScheduling.NoLostWakeup | framework/aster-frame/src/task/task.rs:302-325 | However `sleep`, the switch-out and the wakeup interleave, a wakeup after `sleep` never leaves the task stranded |
| TaskScheduling.WaitsUntilClaimed | framework/aster-frame/src/task/scheduler.rs:140-161 | In every run, a task that waits for its enqueue, or in the queue, stays there and runnable until it is enqueued or picked |
| TaskScheduling.WokenCanBeAdded | framework/aster-frame/src/task/task.rs:310-325 | After an effective wakeup, however the run goes on, the enqueue it owes can be made and trips no assertion |
| TaskScheduling.AddedTaskCanRun | framework/aster-frame/src/task/scheduler.rs:140-161 | After that enqueue, however the run goes on until somebody picks the task, every CPU that is not in a switch can pick it, and its switch makes the task the running task of that CPU |
| TaskScheduling.EarlyWakeupIsLost | framework/aster-frame/src/sync/wait.rs:191-211 | In every run, a wakeup of a task that has not announced its sleep changes nothing, and after the task's next `sleep` it stays about to sleep or asleep until a further wakeup: with `NoLostWakeup`, the announcement is the exact condition |
| TaskScheduling.WakeupMattersIff | framework/aster-frame/src/task/task.rs:310-325 | A wakeup changes the state exactly when the task has announced its sleep or is asleep |
| TaskScheduling.SecondSleepPanics | framework/aster-frame/src/sync/wait.rs:191-211 | A waiter woken between testing its condition and `sleep` goes on as about to sleep, and its next `sleep` panics |
| TaskScheduling.SwitchCompletes | framework/aster-frame/src/task/processor.rs:116-169 | `switch_to` as a whole makes the next task current and running and deals with the replaced one by its status |
| TaskScheduling.Kernel.ClaimNext | framework/aster-frame/src/task/processor.rs:116-141 | From the invariant alone, the first critical section trips none of its assertions, makes the next task current and running, hands the replaced one to the leaving CPU, and keeps the invariant |
| TaskScheduling.Kernel.Release | framework/aster-frame/src/task/processor.rs:142-169 | From the invariant alone, the second critical section trips none of its assertions, is the switch-out step and keeps the invariant |
| TaskScheduling.Kernel.Enqueue | framework/aster-frame/src/task/processor.rs:167-169 | The enqueue of a replaced task that is still runnable never trips its assertion and keeps the invariant |
| TaskScheduling.Kernel.SwitchTo | framework/aster-frame/src/task/processor.rs:116-173 | The two sections and the enqueue make up the whole switch, no assertion fires, and the invariant holds again |
| TaskScheduling.Kernel.GoToSleep | framework/aster-frame/src/task/task.rs:302-308 | `sleep` of a running task trips no assertion, is the sleep step and keeps the invariant |
| TaskScheduling.Kernel.WakeUp | framework/aster-frame/src/task/task.rs:310-325 | `wakeup` makes a sleeping task runnable with one enqueue owed, a drowsy one running again, and changes nothing otherwise; it says which, and keeps the invariant |
| TaskScheduling.Kernel.AddTask | framework/aster-frame/src/task/scheduler.rs:155-161 | `add_task` after a wakeup never trips its assertion; the task is in the queue and nowhere else afterwards, runnable, and the other tasks are where they were |
| RequestQueue.Swap | kernel/comps/block/src/request_queue.rs:163-173 | Two bios on disjoint sectors can be exchanged without changing the disk or what any read returns |
| RequestQueue.MoveToFront | kernel/comps/block/src/request_queue.rs:163-173 | A bio that overlaps none of the bios before it can be executed first |
| RequestQueue.MergeIsFaithful | kernel/comps/block/src/request_queue.rs:147-173 | Merging at the back or at the front keeps a request a permuted segment of submissions of one type that tiles its range and means the same in request order |
| RequestQueue.NewIsFaithful | kernel/comps/block/src/request_queue.rs:177-187 | A request made from one bio is such a request |
| RequestQueue.StepKeepsInv | kernel/comps/block/src/request_queue.rs:47-89 | Every enqueue and dequeue keeps all requests, taken and queued, faithful to consecutive segments of the submissions |
| RequestQueue.RunKeepsInv | kernel/comps/block/src/request_queue.rs:47-89 | The same over every run |
| RequestQueue.ExecutedPrefix | kernel/comps/block/src/request_queue.rs:68-89 | The requests taken so far mean what a prefix of the submissions means |
| RequestQueue.MergedStreamMeansSubmittedStream | kernel/comps/block/src/request_queue.rs:47-89 | After any run, executing the requests in order leaves the same disk and returns the same data to every read as executing the bios in submission order; no bio is lost or repeated |
| RequestQueue.RequestsTileTheirRange | kernel/comps/block/src/request_queue.rs:147-173 | In any run, the bios of every request follow each other over one contiguous range and have its type |
| RequestQueue.OnlyOpensWhenApart | kernel/comps/block/src/request_queue.rs:47-66 | In every run, each queued request was opened by a bio that the next older request could not take at either end |
| RequestQueue.BioRequestSingleQueue.EnqueueBio | kernel/comps/block/src/request_queue.rs:47-66 | Merges exactly when the newest request has the type of the bio and the bio begins where its range ends or ends where it begins: at the back in the first case, at the front otherwise, with the range grown at that end; else a request of this bio alone is pushed. Every other request stays |
| RequestQueue.BioRequestSingleQueue.TryDequeue | kernel/comps/block/src/request_queue.rs:68-89 | The oldest request is taken, or the caller waits |
| VirtQueue.SafeRecycleKeepsPartition | kernel/comps/virtio/src/queue.rs:330-355 | If the descriptor before the chain's head ends the list it is on, recycling yields a correct free list and leaves the other chains intact |
| VirtQueue.UnsafeRecycleBreaksPartition | kernel/comps/virtio/src/queue.rs:330-355 | Otherwise, if the walk ends, the table it leaves is no partition with any free list at all |
| VirtQueue.RecycleKeepsPartitionIff | kernel/comps/virtio/src/queue.rs:330-355 | Recycling ends in a table that some free list partitions together with the other chains exactly when the descriptor before the head ends the list it is on |
| VirtQueue.RecycleEndsIff | kernel/comps/virtio/src/queue.rs:330-355 | The walk ends exactly when the descriptor before the head is not a member of the chain other than its last, and the table is then the chain in front of the free list |
| VirtQueue.WalkNeverEnds | kernel/comps/virtio/src/queue.rs:342-355 | When it is, the walk goes round from the head to the head, whatever number of steps it is given |
| VirtQueue.HarmlessRunKeepsPartition | kernel/comps/virtio/src/queue.rs:182-355 | Every run of adds and of pops that meet the condition keeps the partition |
| VirtQueue.EndlessRecycleIsReachable | kernel/comps/virtio/src/queue.rs:182-355 | A run of adds and harmless pops on a table of four descriptors leads to a pop whose walk never ends |
| VirtQueue.AddKeepsPartition | kernel/comps/virtio/src/queue.rs:191-226 | Adding a chain takes the front of the free list and keeps the partition |
| VirtQueue.GatheredAlong | kernel/comps/virtio/src/queue.rs:202-226 | Following NEXT from the head of a chain, the device gathers the buffers and directions of its descriptors in order |
| VirtQueue.FilledOffers | kernel/comps/virtio/src/queue.rs:202-226 | From the head that an add returns the device finds exactly the inputs, to read, and then the outputs, to write |
| VirtQueue.InitialPartition | kernel/comps/virtio/src/queue.rs:148-161 | The table as linked by the constructor is one free list of all descriptors |
| VirtQueue.PopTopIsSafe | kernel/comps/virtio/src/queue.rs:330-355 | Returning the most recently added chain always meets the condition and keeps the stack shape |
| VirtQueue.LifoStepKeepsGood | kernel/comps/virtio/src/queue.rs:182-355 | Adds and last-in-first-out pops keep partition and stack shape |
| VirtQueue.LifoRunKeepsPartition | kernel/comps/virtio/src/queue.rs:182-355 | In every run that returns the newest outstanding chain first, the free list and the chains partition the table |
| VirtQueue.FifoReturnBreaksPartition | kernel/comps/virtio/src/queue.rs:330-355 | Returning two one-descriptor chains in the order they were added makes the free list a cycle |
| VirtQueueDriver.SlotIsMod | kernel/comps/virtio/src/queue.rs:228 | The slot of an index, its bitwise and with the queue size less one, is its remainder by the queue size |
| Bits.MaskIsRem | kernel/comps/virtio/src/queue.rs:228 | Masking with 2^k - 1 is the remainder by 2^k |
| VirtQueueDriver.SlotOfWrapped | kernel/comps/virtio/src/queue.rs:228-246 | The slot of a wrapped 16-bit index is the total count modulo the queue size |
| VirtQueueDriver.SlotsDiffer | kernel/comps/virtio/src/queue.rs:228-236 | Counts less than the queue size apart use different slots |
| VirtQueueDriver.WrappedEqual | kernel/comps/virtio/src/queue.rs:318-320 | Wrapped indices are equal exactly when the counts are, while fewer than 2^16 apart |
| VirtQueueDriver.RingAppend | kernel/comps/virtio/src/queue.rs:228-243 | Writing at the wrapped index overwrites no live entry, over unboundedly many wraps |
| VirtQueueDriver.RingRead | kernel/comps/virtio/src/queue.rs:367-380 | Reading at the wrapped index gives the oldest live entry |
| VirtQueueDriver.FreeCount | kernel/comps/virtio/src/queue.rs:182-200 | The free list has the table's size less the descriptors in flight, so the size check suffices |
| VirtQueueDriver.TakenTwice | kernel/comps/virtio/src/queue.rs:203-226 | The two loops and the clearing of the last NEXT flag write one chain, readable buffers first |
| VirtQueueDriver.Queue.constructor | kernel/comps/virtio/src/queue.rs:148-178 | A new queue has every descriptor free and nothing in flight |
| VirtQueueDriver.Queue.Take | kernel/comps/virtio/src/queue.rs:205-220 | One loop of `add_buf` writes its buffers to the next free descriptors and advances the free head |
| VirtQueueDriver.Queue.FillChain | kernel/comps/virtio/src/queue.rs:202-226 | The descriptor half of `add_buf` writes exactly one chain and touches no other descriptor |
| VirtQueueDriver.Queue.AddChain | kernel/comps/virtio/src/queue.rs:202-226 | It moves the front of the free list into flight, and the device, following NEXT from its head, finds the inputs to read and then the outputs to write |
| VirtQueueDriver.Queue.Publish | kernel/comps/virtio/src/queue.rs:228-246 | The head goes into the available ring without overwriting one the device has yet to take |
| VirtQueueDriver.Queue.AddBuf | kernel/comps/virtio/src/queue.rs:182-248 | Both errors exactly on their conditions, nothing changed then; otherwise the chain, the free list and the ring as above, and from the returned head the device finds the inputs to read and then the outputs to write |
| VirtQueueDriver.Queue.DeviceTake | kernel/comps/virtio/src/queue.rs:228-246 | The device sees exactly the heads added, in order |
| VirtQueueDriver.Queue.CanPop | kernel/comps/virtio/src/queue.rs:318-320 | `can_pop` is true exactly when a returned element is pending |
| VirtQueueDriver.Queue.Recycle | kernel/comps/virtio/src/queue.rs:330-355 | The recycle walk ends unless the descriptor before the head leads back into the chain; it then visits exactly the chain, and `num_used` falls by its length |
| VirtQueueDriver.Queue.TakeBack | kernel/comps/virtio/src/queue.rs:378-380 | A pop returns one in-flight chain to the front of the free list; the queue's invariant holds afterwards if the chain was safe to recycle, and otherwise no free list makes it hold |
| VirtQueueDriver.Queue.PopUsed | kernel/comps/virtio/src/queue.rs:360-383 | Not ready exactly when nothing is pending; otherwise the oldest returned element, and the state as above |
| VirtQueueDriver.Queue.PopUsedWithToken | kernel/comps/virtio/src/queue.rs:386-410 | Nothing pending or a wrong token changes nothing, whatever the pending chain; the right one pops |
| VirtQueueDriver.Submit | kernel/comps/virtio/src/queue.rs:182-248 | On a quiet queue the add cannot fail, puts one chain in flight and offers the device these buffers |
| VirtQueueDriver.Finish | kernel/comps/virtio/src/queue.rs:386-410 | Popping the one outstanding chain cannot fail and makes the queue quiet again |
| VirtQueueDriver.SynchronousRequest | kernel/comps/virtio/src/queue.rs:182-410 | Add, the device's turn and the pop together: the device finds the inputs to read and the outputs to write, the pop is always successful with the device's answer, and the queue is quiet again, over any number of requests |
| VirtQueueDriver.Queue.LifoPopSafe | kernel/comps/virtio/src/queue.rs:330-355 | With the stack shape, the newest chain can be popped without harm |
| VirtQueueDriver.Queue.PopNewest | kernel/comps/virtio/src/queue.rs:360-383 | With any number of chains in flight, popping the newest succeeds, keeps the queue's invariant and the stack shape, and leaves the other chains in flight |
| VirtQueueDriver.UnsafeRecycleBreaks | kernel/comps/virtio/src/queue.rs:330-355 | A pop of a chain that is not safe to recycle leaves a table that no free list partitions together with the chains still in flight |
| PathStrings.ComponentsAt | kernel/aster-nix/src/fs/fs_resolver.rs:178-184 | A slash separates: the names on its two sides are independent of each other |
| PathStrings.TrimStartKeeps | kernel/aster-nix/src/fs/fs_resolver.rs:180 | Trimming slashes in front changes neither the names nor the final slash |
| PathStrings.TrimEndKeeps | kernel/aster-nix/src/fs/fs_resolver.rs:393 | Trimming slashes at the end changes no name |
| PathResolution.CutComponents | kernel/aster-nix/src/fs/fs_resolver.rs:178-184 | The split at the first slash takes off the first name and keeps the rest of the list and the final slash |
| PathResolution.PlainTurn | kernel/aster-nix/src/fs/fs_resolver.rs:188-224 | A turn of the loop that follows no symlink keeps the meaning of what remains, its directory check included |
| PathResolution.LinkTurn | kernel/aster-nix/src/fs/fs_resolver.rs:193-218 | A turn that follows one splices the target's names in front of the names that remain, and the final slash with them |
| PathResolution.LookupFromParent | kernel/aster-nix/src/fs/fs_resolver.rs:158-229 | Lookup ends for every file system, cyclic symlinks included, and equals recursive resolution over the list of names, errors and symlink budget included; the laws below are of that resolution |
| PathResolution.OnlyComponentsMatter | kernel/aster-nix/src/fs/fs_resolver.rs:158-229 | Paths with the same names and the same final slash resolve alike |
| PathResolution.RepeatedSlashes | kernel/aster-nix/src/fs/fs_resolver.rs:158-229 | Repeating a slash never matters |
| PathLaws.DotIs | kernel/aster-nix/src/fs/utils/dentry.rs:231-232 | "." leads to the directory itself |
| PathLaws.DotDotIs | kernel/aster-nix/src/fs/utils/dentry.rs:231-233 | ".." leads to the parent, the root's own where there is none above |
| PathLaws.ChildIs | kernel/aster-nix/src/fs/utils/dentry.rs:231-249 | A plain name leads to the child, or fails as the directory's lookup does; a final slash asks for a directory |
| PathLaws.Unsearchable | kernel/aster-nix/src/fs/utils/dentry.rs:220-225 | From a dentry that is no directory every path with a name fails with ENOTDIR, from one that may not be searched with EACCES |
| PathLaws.TooLong | kernel/aster-nix/src/fs/utils/dentry.rs:226-228 | A path of more than 4096 or a name of more than 255 characters fails with ENAMETOOLONG |
| PathLaws.LinkIs | kernel/aster-nix/src/fs/fs_resolver.rs:193-218 | A followed symlink means its target, from the root if that is absolute and from the symlink's directory otherwise, with one link less to spend; ELOOP without links left, ENOENT for an empty target |
| PathLaws.FortyLinks | kernel/aster-nix/src/fs/fs_resolver.rs:193-196 | A chain of symlinks, each to the next name, leads to its end exactly when it has at most forty of them, and to ELOOP otherwise |
| PathLaws.SelfLink | kernel/aster-nix/src/fs/fs_resolver.rs:193-196 | A symlink to itself is ELOOP whatever the budget |
| PathLaws.ResolveThen | kernel/aster-nix/src/fs/fs_resolver.rs:178-224 | Resolving names and then more names is resolving the first to a directory and the rest from there, with the links that are left |
| PathLaws.PathsCompose | kernel/aster-nix/src/fs/fs_resolver.rs:178-224 | The path p/q leads where q leads from the directory p/ leads to, and fails as p/ does |
| PathLaws.DownAndUp | kernel/aster-nix/src/fs/fs_resolver.rs:178-224 | p/x/.. and p/. lead where p/ leads, for a child x whose parent that is |
| PathStrings.LastPiece | kernel/aster-nix/src/fs/fs_resolver.rs:387-391 | The last piece that is not a lone slash is the last name with its slash |
| PathStrings.BaseNameIs | kernel/aster-nix/src/fs/fs_resolver.rs:386-391 | The base name is the last name, with a slash exactly when the path ends in one |
| PathStrings.DirPathIs | kernel/aster-nix/src/fs/fs_resolver.rs:393-404 | The directory path has all names but the last, or "." where that leaves a relative path without names, is absolute exactly when the path is, and is no longer |
| PathResolution.ResolveSplit | kernel/aster-nix/src/fs/fs_resolver.rs:158-229 | Resolving all names without following the last is resolving all but the last with following and then looking the last one up |
| PathResolution.ResolveDot | kernel/aster-nix/src/fs/fs_resolver.rs:158-229 | The same where the directory part is "." |
| PathResolution.PathSplits | kernel/aster-nix/src/fs/fs_resolver.rs:249-281 | Lookup of a whole path without following equals lookup of its directory and then of its base name, for absolute, working-directory and descriptor paths |
| PathResolution.NewIsWellFormed | kernel/aster-nix/src/fs/fs_resolver.rs:337-365 | What a path built by the constructor can be |
| PathResolution.LookupInner | kernel/aster-nix/src/fs/fs_resolver.rs:128-146 | Absolute paths are resolved from the root, relative ones from the working directory or from the directory of their descriptor; without text the answer is the working directory or the descriptor's own |
| PathResolution.LookupAt | kernel/aster-nix/src/fs/fs_resolver.rs:337-365 | From descriptor and text to dentry: ENAMETOOLONG above 4096 characters, the root for a leading slash whatever the descriptor, the working directory for AT_FDCWD, EBADF for other negative descriptors, and the descriptor's directory otherwise |
| PathResolution.LookupDirAndBaseName | kernel/aster-nix/src/fs/fs_resolver.rs:249-281 | The base name it returns is the last name, with a slash exactly where the path has one; it and the directory lead exactly where the whole path leads, and the call fails exactly as the whole lookup does |
| PageTable.WordRoundTrip | framework/aster-frame/src/arch/x86/mm/mod.rs:184-205 | An address and flags written into an entry word read back as the masked address and the same flags |
| PageTable.Decode | framework/aster-frame/src/arch/x86/mm/mod.rs:189-197 | What is read from a word has the address of a frame; a present entry counts as used, and the zero word says nothing |
| PageTable.SameIndices | framework/aster-frame/src/arch/x86/mm/mod.rs:207-210 | The upper 16 bits of an address select no slot |
| PageTable.PageIs | framework/aster-frame/src/arch/x86/mm/mod.rs:53-63 | A walk for an address leads to a user page exactly when bit 47 is clear |
| PageTable.LeafInjective | framework/aster-frame/src/arch/x86/mm/mod.rs:207-210 | The four indices determine the user page |
| PageTable.GrowKeepsTree | framework/aster-frame/src/vm/page_table.rs:309-325 | Linking a new zeroed table keeps a tree of distinct frames, all of whose inner entries are writable, executable and open to user code |
| PageTable.GrowKeepsView | framework/aster-frame/src/vm/page_table.rs:309-325 | and changes no translation |
| PageTable.WriteKeepsTree | framework/aster-frame/src/vm/page_table.rs:277-297 | Writing a last-level entry keeps the tree |
| PageTable.WriteUpdatesView | framework/aster-frame/src/vm/page_table.rs:277-297 | and is a plain update of the translation at its own page and nowhere else |
| PageTable.MissingBelow | framework/aster-frame/src/vm/page_table.rs:343-364 | A missing table at one level means none further down |
| PageTable.WalkStep | framework/aster-frame/src/vm/page_table.rs:343-364 | What a walk finds at each level decides whether the last level exists, and an inner entry withholds no right |
| PageTable.OutsideKernel | framework/aster-frame/src/vm/page_table.rs:144-170 | Operations on user addresses never write the kernel's root entries |
| PageTable.UserPageTable.constructor | framework/aster-frame/src/vm/page_table.rs:134-142 | A new table maps nothing in the user half and holds the kernel's root entries |
| PageTable.UserPageTable.Walk | framework/aster-frame/src/vm/page_table.rs:343-364 | For any address with bit 47 clear, the read-only walk reaches the last-level entry exactly when the last-level table exists |
| PageTable.UserPageTable.WalkMut | framework/aster-frame/src/vm/page_table.rs:302-337 | For any such address the creating walk always reaches it, keeps the tree, the kernel entries and every translation, and takes at most three frames |
| PageTable.UserPageTable.NextEntry | framework/aster-frame/src/vm/page_table.rs:309-335 | One level of the walk: the entry points to the next table, which is created when missing and wanted |
| PageTable.UserPageTable.Map | framework/aster-frame/src/vm/page_table.rs:144-157 | For every address: fails exactly on kernel addresses and on mapped pages, changing nothing; otherwise sets exactly its page's translation to the masked frame address and the flags, and then panics exactly if the address is not canonical |
| PageTable.UserPageTable.Unmap | framework/aster-frame/src/vm/page_table.rs:159-165 | For every address: fails exactly on kernel addresses and on unmapped pages; otherwise removes exactly its page, and then panics exactly if the address is not canonical |
| PageTable.UserPageTable.Protect | framework/aster-frame/src/vm/page_table.rs:167-173 | For every address: fails likewise; otherwise changes the flags of its page, keeps the frame, and returns the old flags or panics likewise |
| PageTable.UserPageTable.IsMapped | framework/aster-frame/src/vm/page_table.rs:442-445 | True exactly for the pages of the translation |
| PageTable.UserPageTable.FlagsAt | framework/aster-frame/src/vm/page_table.rs:432-434 | The flags of a mapped page; for others none, or flags without PRESENT |
| Mmu.EntryFormat | framework/aster-frame/src/arch/x86/mm/mod.rs:184-205 | The kernel's reading of an entry agrees with the processor's: bits 51 to 12 the frame, bits 0, 1, 2, 7 and 63 present, writable, user, large page and no-execute |
| Mmu.IndexIs | framework/aster-frame/src/arch/x86/mm/mod.rs:207-210 | The slot at each level is given by bits 47-39, 38-30, 29-21 and 20-12 of the address |
| Mmu.MmuSeesView | framework/aster-frame/src/vm/page_table.rs:134-173 | For every user page, the four-level walk of the processor over the raw words finds exactly what the translation says: mapped or not, the frame, and the rights to write, to execute and to access from user mode |
| MemorySet.NewMapArea | framework/aster-frame/src/vm/memory_set.rs:35-64 | A new area has one frame for every page of its range, in order |
| MemorySet.AddKeepsAgreement | framework/aster-frame/src/vm/memory_set.rs:128-144 | Adding an area to both indexes keeps them in agreement |
| MemorySet.RemoveKeepsAgreement | framework/aster-frame/src/vm/memory_set.rs:174-183 | Removing one does too |
| MemorySet.ProtectAgreesIff | framework/aster-frame/src/vm/memory_set.rs:243-251 | `protect` keeps the area index and the page table in agreement exactly when the new flags hold PRESENT and the page is an area of its own or its flags do not change |
| MemorySet.SameAreasSameView | framework/aster-frame/src/vm/memory_set.rs:254-262 | The area index determines the translation |
| MemorySet.MemorySet.Map | framework/aster-frame/src/vm/memory_set.rs:128-144 | Panics exactly when an area starts there already or some page is mapped or no user page; otherwise both indexes gain exactly the area's pages and agree, except that flags without PRESENT leave the page table as it was |
| MemorySet.MemorySet.Unmap | framework/aster-frame/src/vm/memory_set.rs:174-183 | Fails exactly when no area starts there; otherwise both indexes lose exactly its pages and no unwrap fails |
| MemorySet.MemorySet.Clear | framework/aster-frame/src/vm/memory_set.rs:185-192 | Both indexes are empty afterwards |
| MemorySet.MemorySet.Protect | framework/aster-frame/src/vm/memory_set.rs:243-251 | For any flags: panics exactly when the page is not mapped; the agreement survives exactly under the condition above |
| MemorySet.MemorySet.Clone | framework/aster-frame/src/vm/memory_set.rs:254-262 | The copy has page tables of its own, the same areas and the same translation; none of its inner maps can panic |
| VmSpace.OverwriteClearsIff | framework/aster-frame/src/vm/space.rs:58-62 | Unmapping before an overwrite clears the range exactly when no mapped page in it comes after a gap |
| VmSpace.RoomIff | framework/aster-frame/src/vm/space.rs:57-80 | There is room for a mapping exactly when all its pages are user pages and none is mapped, or with overwriting none after a gap |
| VmSpace.GapStopsUnmap | framework/aster-frame/src/vm/space.rs:104-121 | A page after a gap stays mapped, although the comment allows gaps |
| VmSpace.AreaIsPage | framework/aster-frame/src/vm/space.rs:66-67 | With single-page areas a page is mapped exactly when an area starts there |
| VmSpace.VmSpace.constructor | framework/aster-frame/src/vm/space.rs:29-33 | A new space translates nothing |
| VmSpace.VmSpace.Unmap | framework/aster-frame/src/vm/space.rs:108-121 | Panics exactly on unaligned or reversed ranges, changing nothing; otherwise removes exactly the longest mapped prefix of the range, and succeeds exactly when that is the whole range |
| VmSpace.VmSpace.MapFrames | framework/aster-frame/src/vm/space.rs:74-79 | Maps the frames to consecutive pages, or panics exactly when one of the pages is taken or no user page, or the address is unaligned |
| VmSpace.VmSpace.Map | framework/aster-frame/src/vm/space.rs:51-82 | The exact outcome for every combination of arguments: invalid arguments, overflow, panic, or success, exactly when all pages are user pages and none is mapped, or with overwriting none after a gap; the i-th page then leads to the i-th frame, present, open to user code, writable exactly if W and executable exactly if X was asked for, and no other page changes |
| VmSpace.VmSpace.Protect | framework/aster-frame/src/vm/space.rs:134-145 | Panics exactly when an end of the range is unaligned or some page of it is not mapped; otherwise every page of the range keeps its frame and is writable exactly if W and executable exactly if X was asked for, and no other page changes |
| VmSpace.VmSpace.Clear | framework/aster-frame/src/vm/space.rs:124-128 | Nothing is mapped afterwards |
| VmSpace.VmSpace.DeepCopy | framework/aster-frame/src/vm/space.rs:151-155 | The copy translates every user page to the same frame with the same flags |
| VmSpaceIo.PermissionDecides | framework/aster-frame/src/vm/space.rs:281-292 | An access inside pages that are all writable, or all not, can be written exactly in the first case |
| VmSpaceIo.WriteBytes | framework/aster-frame/src/vm/space.rs:164-171 | A write of some bytes succeeds exactly when every page of it is mapped writable, and its bytes are then at their addresses |
| VmSpaceIo.MapThenWrite | framework/aster-frame/src/vm/space.rs:51-82 | A write into frames just mapped succeeds exactly if they were mapped with W |
| VmSpaceIo.ProtectThenWrite | framework/aster-frame/src/vm/space.rs:134-145 | After `protect`, a write into the range succeeds exactly if W was asked for |
| AddressSpaceIo.WriteInPage | framework/aster-frame/src/vm/memory_set.rs:90-103 | Bytes that stay in one page replace that part of its frame |
| AddressSpaceIo.ReadBack | framework/aster-frame/src/vm/memory_set.rs:194-241 | Data written is read back when the touched pages have distinct frames |
| AddressSpaceIo.WriteLeavesRest | framework/aster-frame/src/vm/memory_set.rs:194-218 | A write changes no byte of memory but those its addresses are mapped to |
| AddressSpaceIo.ReachesEndIff | framework/aster-frame/src/vm/memory_set.rs:194-241 | An access reaches its end exactly when every page of it is mapped, and writable for a write |
| AddressSpaceIo.WriteData | framework/aster-frame/src/vm/memory_set.rs:90-103 | For any address and data, writing through an area is writing the bytes that lie in the area to a flat byte array |
| AddressSpaceIo.ReadData | framework/aster-frame/src/vm/memory_set.rs:105-118 | For any address and length, reading through an area is reading the bytes that lie in it from one |
| AddressSpaceIo.WriteBytes | framework/aster-frame/src/vm/memory_set.rs:194-218 | Writes exactly the bytes before the first page that is not mapped writable, and succeeds exactly when all pages of it are; each byte is then at its address if the pages have distinct frames, and no byte of memory changes that its addresses are not mapped to |
| AddressSpaceIo.ReadBytes | framework/aster-frame/src/vm/memory_set.rs:220-241 | Reads exactly the bytes before the first page that is not mapped, each from the frame and offset of its address, and succeeds exactly when all pages are mapped |
| MemoryRegion.TruncateCover | framework/aster-frame/src/boot/memory_region.rs:83-120 | The pieces hold each address outside the removed range as often as the region did, and no address inside it |
| MemoryRegion.TruncateAll | framework/aster-frame/src/boot/memory_region.rs:154-160 | The same for a round over all usable regions |
| MemoryRegion.NonOverlappingRegionsFrom | framework/aster-frame/src/boot/memory_region.rs:129-166 | Usable and reclaimable memory lose exactly the addresses in other regions and keep the multiplicity of the rest, so disjoint inputs stay disjoint; the other regions stay |
| AlignExt.IsPowerOfTwoIff | framework/libs/align_ext/src/lib.rs:54-56 | The bit test finds exactly the powers of two |
| AlignExt.AlignUpIs | framework/libs/align_ext/src/lib.rs:59-62 | Panics exactly unless the alignment is a power of two from 2 on and the addition fits; otherwise the least multiple at or above the number |
| AlignExt.AlignDownIs | framework/libs/align_ext/src/lib.rs:65-68 | Panics exactly unless the alignment is a power of two from 2 on; otherwise the greatest multiple at or below the number |
| Bits.HighMask | framework/libs/align_ext/src/lib.rs:65-68 | Masking with the high bits of a word takes the remainder off |
| MemoryRegion.RoundedRange | framework/aster-frame/src/vm/frame_allocator.rs:102-105 | The rounded range holds exactly the frames that lie wholly in the region |
| MemoryRegion.FrameAllocatorInit | framework/aster-frame/src/vm/frame_allocator.rs:97-113 | Panics exactly when a usable region reaches the end of the machine integers; otherwise each frame is given to the allocator once for every usable region that holds all of it |
| MemoryRegion.InitFrames | framework/aster-frame/src/vm/frame_allocator.rs:97-113 | Every frame given lies wholly in usable memory and in no other region, and is given no more often than its bytes were listed |
| SuffixTrie.InsertAddsPath | framework/libs/ktest/src/path.rs:185-195 | An insertion adds its path and no other |
| SuffixTrie.FromPaths | framework/libs/ktest/src/path.rs:177-183 | The trie holds exactly the listed paths |
| SuffixTrie.Matches | framework/libs/ktest/src/path.rs:198-212 | True exactly for an inserted path |
| SuffixTrie.Contains | framework/libs/ktest/src/path.rs:215-232 | The walk stops at the first inserted end on the reversed path |
| SuffixTrie.ContainsMeansSuffix | framework/libs/ktest/src/path.rs:215-232 | `contains` is true exactly when some inserted path that is not empty is a suffix of the query |
| KtestTree.InsertAddsTest | framework/libs/ktest/src/tree.rs:43-58 | An insertion adds its test to the tree and loses none |
| KtestTree.InsertKeepsOrder | framework/libs/ktest/src/tree.rs:43-58 | Siblings stay in the order of their names, one of each name |
| KtestTree.LessIs | framework/libs/ktest/src/tree.rs:22-28 | The order of the names: at their first difference, or a prefix before what it begins |
| KtestTree.InsertCounts | framework/libs/ktest/src/tree.rs:43-58 | Below the root every counter is twice the number of tests, because parent and child both count |
| KtestTree.ReplacedLookup | framework/libs/ktest/src/tree.rs:48-56 | Entering a child changes what the lookup of its own name finds, and of no other name |
| KtestTree.InsertAtPath | framework/libs/ktest/src/tree.rs:43-58 | Looked up by path, an insertion appends its test at its own path and changes the tests at no other path |
| KtestTree.AddPathHolds | framework/libs/ktest/src/tree.rs:110-119 | Registering a test keeps, for every crate and every module path, the list of tests there equal to those registered for it |
| KtestTree.ZeroCounts | framework/libs/ktest/src/runner.rs:100-141 | When none is filtered out, none fails and none passes, in terms of the whitelist and the results |
| KtestTree.PackagePasses | framework/libs/ktest/src/runner.rs:35-76 | No test of a package fails exactly when every selected one passes |
| KtestTree.KtestCrateIter.Next | framework/libs/ktest/src/tree.rs:176-193 | The explicit stack yields the preorder of the modules, each once |
| KtestTree.PreorderTests | framework/libs/ktest/src/runner.rs:103-104 | The tests of the modules visited are all tests below the root |
| KtestTree.NumberOfPermutation | framework/libs/ktest/src/runner.rs:103-130 | How many tests pass, fail or are filtered out does not depend on the order in which they are met |
| KtestTree.RunTests | framework/libs/ktest/src/runner.rs:104-130 | A test is filtered out exactly when there is a whitelist and none of its paths that is not empty is a suffix of the test's path; the others count by their result |
| KtestTree.RunCrate | framework/libs/ktest/src/runner.rs:100-141 | The three counts are exactly those of the tests below the root that are filtered out, pass and fail, and add up to the number of these tests |
| KtestTree.KtestTree.RunPackage | framework/libs/ktest/src/runner.rs:78-141 | The runner's assertion holds for every registered crate, and the three counts are those of the tests registered for the package; none fails exactly when every test that the whitelist admits passes, and none is filtered out exactly when it admits all |
| KtestTree.KtestTree.RunKtests | framework/libs/ktest/src/runner.rs:35-76 | Success exactly when every registered test passes whose package is not skipped and whose path has a whitelisted path as a suffix, or any path without a whitelist |
| KtestTree.KtestTree.AddKtest | framework/libs/ktest/src/tree.rs:110-119 | Each crate holds exactly the tests registered for its package, each at its own module path and nowhere else, in the order of registration, with an exact counter and none at its root |
| AtomicBits.AtomicBits.constructor | framework/aster-frame/src/sync/atomic_bits.rs:29-39 | All bits are what was asked for |
| AtomicBits.AtomicBits.Get | framework/aster-frame/src/sync/atomic_bits.rs:47-54 | The bit at the position |
| AtomicBits.AtomicBits.Set | framework/aster-frame/src/sync/atomic_bits.rs:57-68 | Sets one bit and leaves every other |
| AtomicBits.PositionsAre | framework/aster-frame/src/sync/atomic_bits.rs:139-259 | The specification of the iterators: increasing, and exactly the positions in range with the bit looked for |
| AtomicBits.BitsIter.GetU64Val | framework/aster-frame/src/sync/atomic_bits.rs:159-169 | Garbage bits of the last word read as what is not looked for |
| AtomicBits.BitsIter.Next | framework/aster-frame/src/sync/atomic_bits.rs:175-194 | The next position in increasing order, or none when no position is left |
| AtomicBits.Collect | framework/aster-frame/src/sync/atomic_bits.rs:139-259 | An iterator returns exactly the specified positions |

## Left out

- Weak memory orderings, spinning, fairness and every liveness claim: the models are about safety.
- Register contexts, CR3, interrupt masking, and the TLB beyond the check of the flushed address: only statuses, tokens and tables are modelled.
- Huge pages and kernel- or device-mode page tables: the kernel's root entries are opaque and shown unchanged.
- Failing frame allocation: the supply of table frames is taken to be large enough.
- PageTable.UserPageTable.Walk: requires an address with bit 47 clear; the tables below the kernel's root entries are shared with the kernel and not part of this table.
- PageTable.UserPageTable.IsMapped: likewise.
- PageTable.UserPageTable.FlagsAt: likewise.
- PageTable.UserPageTable.WalkMut: likewise; its three callers return an error for other addresses.
- MemorySet.MemorySet.Map: does not say which pages were entered before a panic; nor do `VmSpace.VmSpace.Map` and `VmSpace.VmSpace.Protect`.
- MemoryRegion.NonOverlappingRegionsFrom: region ends are unbounded, so that a region that ends beyond the machine integers is truncated rather than a panic.
- AtomicBits.BitsIter.Next: one class stands for `OnesIter` and `ZeroesIter`, which are the same code for the two values of a bit.
- MapArea's own `map` and `unmap` of single pages, which the memory set never calls, and `is_writable` and `is_executable`.
- Arithmetic overflow in `VmSpace` and in the frame allocator's set-up counts as a panic, as overflow checks make it.
- PathResolution.LookupFromParent: models the dentry cache and mounts as a fixed graph during one lookup; the tail-symlink loop of `lookup_dir_and_base_name` for followed links is not modelled.
- PathResolution.LookupFromParent: requires a path that does not start with a slash, as the source's debug assertion does.
- VirtQueueDriver.Queue.PopUsed: requires that the recycle walk of the next returned chain ends, because a method cannot run for ever; the exact condition is `VirtQueue.RecycleEndsIff`.
- VirtQueueDriver.Queue.Recycle: likewise.
- VirtQueueDriver.Queue.TakeBack: likewise.
- VirtQueueDriver.Queue.PopUsedWithToken: likewise, where the token matches.
- The contents of descriptors' buffers, `add_vm` (the same steps on other buffer types), notification and DMA.
- Timing of the scheduler's choices, priorities and preemption: any queued task may be picked.
- RequestQueue.BioRequestSingleQueue.TryDequeue: models one pass of the waiting loop; the wait queue is not modelled.
- KtestTree.Insert and SuffixTrie.Inserted are functions on tree values where the source updates nodes through references; aliasing does not arise in either.
- KtestTree.RunCrate: a test's result is a parameter; printing and unwinding are not modelled.
- KtestTree.KtestTree.RunKtests: takes the crates in any order where the source takes them by name.
- Concurrent `set` calls during an iteration over `AtomicBits`.
- `VmFrameVec` I/O, block-device geometry, `RecycleAllocator`, the buddy allocator, the CFS scheduler, processes and system calls.
