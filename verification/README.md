# A model of a small i386 kernel: memory, buffers, processes, boot

This project models the four parts of the kernel that carry its state, and proves what they are for:

- **Memory** (`Words`, `PagingModel`, `PagingInvariant`, `PagingSteps`, `PagingFork`, `PagingRuns`,
  `PagingAbstract`, `PagingReach`, `PagingKernel`): `MEM_MAP`, physical memory with its page directory and tables, the process slots.
  `PagingKernel.Kernel` is mm/memory.c and the memory half of `copyProcess` as they run, on arrays
  updated in place; each of its methods leaves what the function of the same name in `PagingModel`
  says. `PagingRuns` shows that over every run of forks, user stores and write faults the kernel
  behaves as if every process had a memory of its own, and that `MEM_MAP` counts references exactly.
  `PagingAbstract` is that other machine, with private memories and no sharing, and every run is one
  of its runs.
- **Buffer cache** (`BufferModel`, `BufferLists`, `BufferQueues`, `BufferCache`, `BufferCacheInv`,
  `BufferCacheRuns`, `BufferCacheLists`, `BufferCalls`, `BufferSync`, `BufferWitness`):
  `BufferQueues.Buffers` is the relinking code on an array of headers.
  `BufferCache` is any number of processes inside `getblk`, `bread`, `brelse` and `syncDev`, one step
  for each stretch between two possible sleeps; the invariant of `BufferCacheInv` holds in every
  interleaving. `BufferCacheLists` carries the linked lists through every run, and
  `BufferCalls` says what a call delivers to its caller and when it waits.
- **Processes** (`TaskModel`, `TaskRuns`, `TaskTables`, `Descriptors`, `WaitQueue`): pids, the counter-driven
  scheduler, ticks, forks, and the wait queue threaded through each sleeper's local variable.
  `TaskTables.TaskTable` is the code on process objects.
- **Boot** (`BootMemory`, `BootPaging`, `NullStore`, `Fat12`): how memory is divided, the identity map,
  what the buffer cache does to it, and the floppy loader. `BootPaging.BootState` says exactly when the
  runs of `PagingRuns` may start.

A class method carries the whole new state in its contract, as a function of the old one; the
theorems are about those functions, over all inputs or all runs.

## What the code does not do

Where the text of the kernel falls short of its intent, the model follows the text, and a lemma says
exactly when it works:

- fs/buffer.c:251 stores through `b_next` without a test. In an empty chain the store goes to address
  0x14, entry 5 of the page directory (`BufferLists.NullStore`, `NullStore.StoreHits`), and the first
  buffer assigned after boot does it (`BufferWitness.FirstInsert`): the first `bread` of the hard disk
  driver. The lists come to no harm, but the entry is then one that is not present, and the kernel
  loses its identity map from 20 to 24 MB (`NullStore.AfterStore`, `MapSurvives`). `MEM_MAP` still calls
  those frames free, and the kernel faults when it takes one. All theorems about forks and write faults
  are therefore about events whose frames the kernel reaches (`PagingRuns.Contained`, and `Reaches` in
  `PagingFork.ForkOk`): all of them until the store has happened (`PagingRuns.WholeMap`,
  `PagingRuns.Always`), and afterwards exactly those for which enough frames are free below 20 MB
  (`PagingReach.ForkAfterwards`, `FaultAfterwards`). With a test of `b_next` they hold without limit.
- A device number of more than 16 bits is truncated in the header but not in the lookup. Unless it
  truncates to 0 a block gets two headers (`BufferCacheRuns.NarrowExact`, `UniqueRuns`); in any case two
  calls of `getblk` return two buffers for one block (`CommitFound`, `BufferWitness.TwoBuffers`).
- `b_count` is a byte: the 256th simultaneous hold makes it 0 (`BufferCacheRuns.WrapExact`), and the
  buffer may be given away (`BufferWitness.HoldersWrap`).
- When a write fails (`endRequest(0)` in kernel/blk_drv/ll_rw_blk.c), the buffer is neither dirty nor
  up to date and the data are gone (`BufferCacheRuns.FailedWrite`, `BufferWitness.DataLost`).
- A fork into slot 62 or 63 stores descriptors past the end of the GDT (`Descriptors.InstallOk`). What
  lies there is not known, so the theorems about forks hold up to slot 61 (`PagingFork.ForkOk`,
  `TaskRuns.ForkTaskOk`) and runs end before it; since no task ever leaves, it happens at the 63rd
  process (`TaskRuns.PastTheTable`).
- `copyProcess` returns the pid as a signed word: from pid 2^31 on it is negative, and the child with
  the largest pid looks like a failure to its parent (`TaskRuns.MinusOne`, `Negative`,
  `SuccessAsFailure`).
- A process that goes to sleep while the queue is being drained sleeps for ever, unless a wake-up
  comes before the next sleeper returns (`WaitQueue.LateFate`, `WaitQueue.LostForever`,
  `WaitQueue.LateSleeperLost`).
- With less than 32 MB `MEM_MAP` calls frames free that do not exist (`BootMemory.FreeFrames`), so the
  theorems about memory start from 32 MB on (`PagingRuns.Booted`). With less than 4 MB and 8 KB there is
  no buffer, and `initBuffer` links a header it has not made (`BootMemory.SomeBuffer`).
- `setupPageing` leaves the directory entries after the last as they were. The interrupt vectors of
  the BIOS lie there, and a word with its lowest bit set is a table that no process made; more than
  64 MB make entries that belong to slot 1 (`BootPaging.BootState`).
- A setup program of more than 89 clusters is overwritten by the FAT sectors that the loader reads
  (`Fat12.ArrivesWhole`, `Fat12.TooLong`).

## Model

| member | source | states |
|---|---|---|
| Words.ValueDecode | include/mm.h:20-23 | every 32-bit word is an entry of frame number and flags, nothing lost |
| Words.DecodeValue | include/mm.h:20-23 | every entry is a 32-bit word, nothing lost |
| Words.Bits | include/mm.h:20-23 | the three flags are the lowest bits, the frame the highest twenty, and write permission is one bit set or cleared alone |
| Words.KernelTest | mm/memory.c:127-130 | comparing a whole entry, flags included, with KERNEL_MEM tells kernel frames from others |
| PagingModel.FirstFree | mm/memory.c:43-46 | the frame found has count 0 and no earlier one has |
| PagingKernel.Kernel.InitMemory | mm/memory.c:11-37 | MEM_MAP is 100 up to the end of the cache and 0 beyond, or the kernel hangs, exactly below 4 MB |
| PagingKernel.Kernel.GetFreePage | mm/memory.c:40-60 | the first free frame, with count 1 and full of zeros, or 0 and nothing changed |
| PagingKernel.Kernel.FreePage | mm/memory.c:63-82 | kernel frames are left alone, a count goes down by one but stays 0 at 0 |
| PagingKernel.Kernel.CopyPageTables | mm/memory.c:85-142 | the whole new memory, -1 for unaligned addresses, a present target or no frame |
| PagingKernel.Kernel.ShareTable | mm/memory.c:119-136 | each present page is in both tables read-only and counted once more, kernel pages in the target only |
| PagingKernel.Kernel.FreePageTables | mm/memory.c:145-188 | the whole new memory, -1 for address 0 or an unaligned one |
| PagingKernel.Kernel.DropAll | mm/memory.c:170-180 | every page of one table is freed and every entry 0 |
| PagingKernel.Kernel.UnWriteProtectPage | mm/memory.c:191-221 | the only user of a frame may write it, any other gets a copy |
| PagingKernel.Kernel.WriteProtectPage | mm/memory.c:224-232 | the entry treated is the one of the faulting address |
| PagingKernel.Kernel.CopyMem | kernel/process.c:156-179 | the child's tables, or what is left after they are dropped again |
| PagingKernel.Kernel.CopyProcess | kernel/process.c:76-153 | the new slot with its PCB as written and its tables, or both given back |
| PagingInvariant.CountBound | include/process.h:8 | references to one frame lie in different slots, so a count never passes 63 |
| PagingSteps.ShareStep | mm/memory.c:119-136 | sharing one page keeps the invariant, shows the child what the parent sees and changes nobody else's view |
| PagingSteps.DropStep | mm/memory.c:172-180 | dropping one page keeps the invariant and changes nothing elsewhere |
| PagingSteps.SplitStep | mm/memory.c:205-220 | the copy made on a write fault is private, writable and shows the same contents |
| PagingSteps.AllowStep | mm/memory.c:196-203 | the last user of a frame gets write permission, nobody's view changes |
| PagingSteps.InstallTable | mm/memory.c:112-117 | a new empty table keeps the invariant |
| PagingSteps.FreeFrame | mm/memory.c:40-60 | the frame handed out is referred to by nothing |
| PagingFork.CopyTablesOk | mm/memory.c:97-141 | copying succeeds exactly when there is a frame for each table of the parent, and then every page of the child shows what the parent's shows |
| PagingFork.DropTablesOk | mm/memory.c:159-187 | no table is left in the range, and nothing else is disturbed |
| PagingFork.SameDirs | mm/memory.c:97 | data_limit and data_limit + 1 round up to the same number of tables, at most the 16 of a slot, and they cover the limit and no more than they must |
| PagingFork.ForkFails | kernel/process.c:121-127 | after a failed copy MEM_MAP, slots and every process's view are as before |
| PagingFork.ForkOk | kernel/process.c:76-153 | fork is all or nothing, by MEM_MAP succeeds exactly when there are frames for the PCB and every table, takes the lowest of them, leaves in the child's frame the PCB written and every other PCB as it was, and is right exactly when the kernel reaches the frames concerned and, for a success, the slot is at most 61 |
| Descriptors.InstallOk | kernel/process.c:149-150 | a slot gets its own descriptors and takes none from another, and they are in the GDT exactly for slots up to 61 |
| Descriptors.SelectorsMatch | kernel/krn.asm:52-66 | the selectors computed for a slot when switching, and for its LDT, name the descriptors installed for it |
| PagingRuns.FaultOk | mm/memory.c:191-232 | a write fault changes nobody's view, makes the page private and writable, and hangs only if a copy is needed and no frame is free |
| PagingRuns.StoreOk | mm/memory.c:224-232 | a user store, fault included, changes that word for that process only |
| PagingRuns.StepOk | kernel/syscall.asm:21-29 | every event keeps the invariant, shows each process what it would see with a memory of its own and leaves each PCB but for stores of the kernel itself, as long as the kernel reaches its frames and a fork its descriptors; only the store through NULL changes the kernel's map |
| PagingRuns.WholeMap | mm/memory.c:51-54 | as long as the kernel's map is whole, only a successful fork past slot 61 is not contained |
| PagingRuns.RunMap | fs/buffer.c:251 | over every run the kernel's map loses the 4 MB from 20 MB on exactly if the buffer cache stored through NULL, and nothing else |
| PagingRuns.RunInv | mm/memory.c:40-221 | the invariant holds after every run |
| PagingRuns.RunPrivate | mm/memory.c:85-232 | over every run a page of a live process holds its own stores and nothing else |
| PagingRuns.RunPcb | kernel/process.c:82-121 | over every run a live process keeps its PCB, and it contains the stores the kernel made into it and nothing else |
| PagingRuns.RunIsolated | mm/memory.c:85-232 | without a store of its own a process keeps seeing what it saw; only pages still in low memory follow slot 0 |
| PagingRuns.LowPageSplits | mm/memory.c:205-220 | the first store to a page shared with slot 0 gives a copy of that moment |
| PagingRuns.CountsExact | mm/memory.c:40-82 | a count is the number of references, 0 exactly for an unused frame, and 1 with no other reference for a writable page, which is never a kernel frame |
| PagingRuns.BootInv | mm/memory.c:26-36 | the state after boot, when all free frames exist, satisfies the invariant |
| PagingRuns.Always | mm/memory.c:11-37 | from boot on, over every run, the invariant holds, every page, table and PCB lies in memory that exists, and the kernel's map is whole exactly if the buffer cache has not stored through NULL |
| PagingReach.BootStruck | fs/buffer.c:251 | right after boot the store leaves the invariant but hides 1024 frames that MEM_MAP calls free |
| PagingReach.StruckRun | fs/buffer.c:251 | over every run that goes on, those frames stay unused |
| PagingReach.ForkAfterwards | kernel/process.c:76-153 | from then on a fork is right exactly when its frames are free below 20 MB and the slot is at most 61 |
| PagingReach.FaultAfterwards | mm/memory.c:191-221 | from then on a write fault is handled exactly when the frame is the process's own or one is free below 20 MB |
| PagingAbstract.ActOk | mm/memory.c:85-232 | each event does to what is shown what it does to private memories |
| PagingAbstract.RunRefines | mm/memory.c:85-232 | every run shows what the machine with private memories shows after the same events |
| BufferModel.BestIsBest | fs/buffer.c:117-137 | there is no victim exactly when every buffer is held; otherwise the victim is unheld, no other unheld one is clean while it is dirty or, with equal dirty flags, unlocked while it is locked, and none before it is as good |
| BufferModel.BestStops | fs/buffer.c:132-135 | the early exit at a clean and unlocked buffer does not change the choice |
| BufferModel.BadnessOrder | include/fs.h:123-124 | the weight orders headers by dirty flag first and lock second |
| BufferModel.HashOk | include/fs.h:120-122 | the hash is symmetric, 0 for equal numbers, and blind to bits past the sixteenth |
| BufferModel.MoveKeepsOrder | fs/buffer.c:241-244 | the free list still names every header once |
| BufferModel.SortedByAge | fs/buffer.c:228-244 | after any sequence of moves to the tail the list is sorted by time of last move |
| BufferModel.OldestFirst | fs/buffer.c:117-144 | in such a list, of victims with equal dirty flags and locks the oldest move goes first |
| BufferQueues.Buffers.constructor | fs/buffer.c:31-56 | n headers, unkeyed and unheld, in one ring, all chains empty |
| BufferQueues.Buffers.FindBuffer | fs/buffer.c:204-217 | the loop is the walk of one chain, and finds a header for the block exactly when there is one anywhere |
| BufferQueues.Buffers.FindVictim | fs/buffer.c:117-137 | the scan over links, with its early exit, finds the victim that BestIsBest describes |
| BufferQueues.Buffers.RemoveFromQueues | fs/buffer.c:220-237 | all links, the free list head and the hash table after the removal |
| BufferQueues.Buffers.InsertIntoQueues | fs/buffer.c:239-252 | all links, the free list head and the hash table after the insertion |
| BufferQueues.Buffers.Commit | fs/buffer.c:169-176 | the victim re-keyed: all headers and links |
| BufferLists.RemoveOk | fs/buffer.c:220-237 | one header leaves both lists, the others stay in order in one ring and in their chains |
| BufferLists.InsertOk | fs/buffer.c:239-252 | the header is last in the ring and first in the chain of its hash, or in none for device 0 |
| BufferLists.NullStore | fs/buffer.c:247-251 | the b_prev of a header at NULL is overwritten with the new header exactly when that starts a chain |
| NullStore.StoreHits | fs/buffer.c:251 | that word, at address 0x14, is entry 5 of the page directory |
| NullStore.AfterStore | fs/buffer.c:251 | every address is still mapped to itself, but the processor faults from 20 to 24 MB once a chain was started |
| NullStore.MapSurvives | boot/setup.asm:226-247 | the identity map survives an insertion exactly when the chain was not empty, the header is of no device, or memory ends at 20 MB |
| BufferLists.RekeyOk | fs/buffer.c:168-176 | after a commit the free list is one ring of all headers and every chain holds exactly the keyed headers of its hash |
| BufferLists.FreshOk | fs/buffer.c:31-56 | so they are after initBuffer |
| BufferLists.WalkChain | fs/buffer.c:208-216 | walking a chain from any place finds a matching header there or shows that there is none |
| BufferLists.LookupOk | fs/buffer.c:204-217 | on proper lists the walk of one chain finds a header exactly when any header at all stands for the block |
| BufferCacheInv.HoldersUpdate | fs/buffer.c:191-198 | what a process holds is counted once, whatever the others hold |
| BufferCacheInv.CommitStep | fs/buffer.c:164-176 | a commit right after the lookup keeps the invariant: no second header for the block, no holder dropped, no dirty data lost |
| BufferCacheInv.StartRequest | fs/buffer.c:301-306 | locking a buffer and starting its request, for bread or syncDev, keeps the invariant |
| BufferCacheInv.Finish | fs/buffer.c:75-80 | a request that ends, other than a failed write, leaves buffers and disk in agreement with the flat store |
| BufferCacheInv.StepInv | fs/buffer.c:60-309 | every step of every process keeps the invariant: unique keys, exact counts, locks, agreement with the flat store |
| BufferCacheRuns.RunInv | fs/buffer.c:60-309 | so does every interleaving |
| BufferCacheRuns.FromBoot | fs/buffer.c:15-57 | the invariant holds from initBuffer on |
| BufferCacheRuns.ReadReturns | fs/buffer.c:60-83 | bread returns a held, up-to-date buffer of that block with what was last stored there |
| BufferCacheRuns.RecheckSucceeds | fs/buffer.c:191-198 | after the wait in getHashTable the buffer still has the key looked up |
| BufferCacheRuns.KeyStable | fs/buffer.c:145-175 | only the commit changes a key, and only of a buffer that is unheld, clean and unlocked |
| BufferCacheRuns.WrapExact | fs/buffer.c:191 | one more holder is counted right exactly below 255 |
| BufferCacheRuns.CommitUnique | fs/buffer.c:173-175 | a commit leaves keys unique exactly when no other header has the truncated key |
| BufferCacheRuns.NarrowExact | fs/buffer.c:164-175 | the lookup ensures that exactly for device numbers that fit 16 bits or truncate to 0 |
| BufferCacheRuns.CommitFound | fs/buffer.c:164-175 | the next lookup finds the buffer exactly for device numbers from 1 to 65535 |
| BufferCacheRuns.UniqueRuns | fs/buffer.c:106-177 | over every run with such numbers keys stay unique, whatever holders and device do |
| BufferCacheRuns.FailedWrite | fs/buffer.c:285-288 | after a failed write the store is right exactly when the disk already had the data |
| BufferCacheRuns.ShapeKept | fs/buffer.c:60-309 | after every event all numbers are buffers and the free list names each once |
| BufferCacheLists.ListsStep | fs/buffer.c:204-252 | every step carried out on right lists leaves right lists |
| BufferCacheLists.InitialListed | fs/buffer.c:31-56 | the lists that initBuffer builds are right |
| BufferCacheLists.RunLists | fs/buffer.c:204-252 | over every run without wide device numbers the lists the code has built, step by step, are one ring and proper chains, and every lookup on them finds what the cache finds |
| BufferCacheLists.LookupAgrees | fs/buffer.c:204-217 | on right lists with unique keys the walk of one chain equals a scan of all headers |
| BufferCacheLists.FoundIsUnique | fs/buffer.c:204-217 | from boot on, over every run, findBuffer on the lists kept returns a header exactly when that one stands for the block |
| BufferCacheLists.RunOrder | fs/buffer.c:228-244 | the free list of a running cache is what the assignments of the run made of it |
| BufferCacheLists.VictimIsOldest | fs/buffer.c:117-144 | after every run without wide device numbers the victim is unheld, never dirty while an unheld buffer is clean nor locked while one with the same dirty flag is not, and of those with equal flags the one assigned longest ago |
| BufferCalls.BreadDelivers | fs/buffer.c:60-83 | in every interleaving, when bread has ended its caller holds a buffer of the block with what was last stored there, or was told that it failed |
| BufferCalls.GetblkDelivers | fs/buffer.c:106-177 | in every interleaving, when getblk has ended its caller holds a buffer of the block; it never fails |
| BufferCalls.HeldStays | fs/buffer.c:106-177 | a buffer somebody holds keeps its device and block, and once up to date stays so |
| BufferCalls.BreadSucceeds | fs/buffer.c:75-83 | over every run in which no request fails and the device is never refused to a process, no bread of its own fails: it waits for its READ |
| BufferCalls.BreadFails | fs/buffer.c:76-82 | a bread whose READ has ended without an up-to-date buffer gives the buffer back and fails |
| BufferCalls.ReturnsUnlocked | fs/buffer.c:60-83 | getblk and bread return unlocked buffers only |
| BufferCalls.LeavesUnlocked | fs/buffer.c:86-103 | a buffer loses a holder only in brelse, and only while it is unlocked |
| BufferCalls.OwnedRun | fs/buffer.c:257-266 | over every run a locked buffer has a request under way or a process about to make one: no lock is left behind |
| BufferCalls.WaitsExactly | fs/buffer.c:106-266 | a process that is let run stays where it is exactly when it waits for a lock, or for a buffer while its block is absent and all are held, as long as requests are free |
| BufferSync.SyncCleans | fs/buffer.c:269-309 | in every interleaving without stores or refusals, no buffer of the device is dirty when syncDev has made its two passes |
| BufferSync.SyncedDisk | fs/buffer.c:269-309 | once the writes of a device have ended too, the disk holds what was stored, for every block of it |
| BufferSync.SyncDelivers | fs/buffer.c:269-309 | when a call of syncDev for a device has ended, nobody has stored meanwhile and the device was not refused to it, the disk holds what was stored, for every block of that device |
| BufferSync.VictimSynced | fs/buffer.c:149-153 | where getblk meets a dirty victim, a sync of the device of that victim begins |
| BufferSync.VictimCleaned | fs/buffer.c:149-153 | at its end, in every interleaving without stores or refusals, the victim is clean |
| BufferSync.VictimTaken | fs/buffer.c:149-175 | getblk then takes the victim, if it is still free and the block still absent |
| BufferSync.GetGoesOn | fs/buffer.c:110-144 | a process at the start of getblk goes on exactly when the block is present or a buffer unheld |
| BufferSync.ReleaseHelps | fs/buffer.c:86-103 | when the last holder releases a buffer, everyone waiting for one can go on |
| BufferWitness.TwoBuffers | fs/buffer.c:106-177 | a run from boot on which two calls for one block of a wide device return two buffers |
| BufferWitness.HoldersWrap | fs/buffer.c:191 | a run from boot after which a buffer held 256 times counts as free and is the next victim |
| BufferWitness.DataLost | fs/buffer.c:285-288 | a run from boot on which stored data end up neither on disk nor pending |
| BufferWitness.FirstInsert | fs/buffer.c:247-251 | the first buffer assigned after boot makes the store through NULL happen |
| TaskModel.ScheduleOk | kernel/process.c:200-233 | a refill happens exactly when all runnable tasks are at 0; then the lowest-numbered runnable task with the greatest counter, which is positive, or slot 0 if none is runnable |
| TaskModel.StopsInTime | kernel/process.c:200-232 | one refill is enough to end the loop |
| TaskModel.Pids | kernel/process.c:53-61 | pids in use are no more than slots |
| TaskModel.FreshPid | kernel/process.c:51-61 | the restarting search ends after at most 64 restarts with a pid no live task has, wrap-around included |
| TaskRuns.FreeSlot | kernel/process.c:63-72 | the lowest free slot |
| TaskRuns.ForkTaskOk | kernel/syscall.asm:21-29 | a fork succeeds exactly when there are a slot and memory, and fills the lowest free slot with a fresh pid, the parent's priority as time slice and its descriptors, all in the GDT exactly up to slot 61; the child is runnable and waits for the processor as BoundedWaiting asks; the result, a signed word, is -1 also for the largest pid |
| TaskRuns.MinusOne | kernel/process.c:51-61 | a fork that succeeds returns -1 exactly when every pid after last_pid is in use but the largest |
| TaskRuns.Negative | kernel/process.c:51-61 | when it returns a negative number, in terms of last_pid and the pids in use |
| TaskRuns.LastPid | kernel/process.c:51-61 | last_pid moves to the first unused word after it, past used ones only, whether the fork succeeds or not |
| TaskRuns.PastTheTable | kernel/process.c:149-150 | a run from boot after which the next fork stores past the GDT |
| TaskRuns.SuccessAsFailure | kernel/process.c:92-152 | a run from boot on which a fork that succeeds returns -1 |
| TaskRuns.StepInv | kernel/time.c:96-104 | every event keeps pids distinct, counters between 0 and the priority, time left for who runs, and each task's own descriptors |
| TaskRuns.After | kernel/process.c:88-152 | so does every run |
| TaskRuns.TickOk | kernel/time.c:96-104 | a tick takes one from the current counter and nothing else, and with time left the same task goes on; at 0 and below the task chosen is the runnable one with the greatest counter, after a refill if all are at 0 |
| TaskRuns.SwitchOk | kernel/process.c:200-234 | a switch refills exactly when needed and goes on with the first runnable task of greatest, positive counter, or slot 0 |
| TaskRuns.OthersOk | kernel/syscall.asm:30-36 | sleeping sets the own state and lets schedule choose, schedule alone changes no state, and a wake-up switches nothing |
| TaskRuns.SleepSlots | kernel/syscall.asm:30-36 | giving up the processor sets the current task's state and changes nothing of any other but its counter |
| TaskRuns.TickCharges | kernel/time.c:96-104 | a charged tick takes exactly one from the sum of the counters, or ends the round, and then the sum is that of the priorities |
| TaskRuns.SwitchAhead | kernel/process.c:200-233 | schedule with a runnable task picks a task, and nobody waiting is worse off |
| TaskRuns.BoundStep | kernel/time.c:96-104 | while a task waits every tick lowers its bound, and only a fork raises it |
| TaskRuns.BoundedWaiting | kernel/process.c:200-232 | a runnable task runs within the others' time slices plus what slot 0 may still take, plus one round if it must wait for the refill, plus slices of tasks forked meanwhile |
| TaskTables.TaskTable.constructor | kernel/process.c:22-29 | slot 0 alone, with pid 0 and 15 ticks |
| TaskTables.TaskTable.FindEmptyProcess | kernel/process.c:48-73 | last_pid is the first unused pid after it, the result the lowest free slot or -1; the loop with restarts ends |
| TaskTables.TaskTable.Recharge | kernel/process.c:225-231 | every task but slot 0 has its priority as counter, nothing else changes |
| TaskTables.TaskTable.Choose | kernel/process.c:200-232 | the loop ends with the table and slot that ScheduleOk describes |
| TaskTables.TaskTable.Schedule | kernel/process.c:182-234 | CURRENT is the task chosen |
| TaskTables.TaskTable.TimerHandler | kernel/time.c:96-104 | the tick is counted and leaves what the tick of TickOk leaves |
| TaskTables.TaskTable.GiveUp | kernel/syscall.asm:30-36 | the current task's state changes and another is chosen |
| TaskTables.TaskTable.CopyProcess | kernel/process.c:88-152 | the child, runnable and with a full slice, in its slot with its descriptors, and its pid as a signed word |
| TaskTables.TaskTable.SysFork | kernel/syscall.asm:21-29 | table, last_pid, GDT and signed result of a fork |
| TaskTables.TaskTable.GoToSleep | kernel/process.c:251-254 | queue and table when a process goes to sleep |
| TaskTables.TaskTable.ComeBack | kernel/process.c:255-260 | queue and table when it returns |
| TaskTables.TaskTable.WakeUp | kernel/process.c:264-271 | queue and table after a wake-up |
| WaitQueue.Arrivals | kernel/process.c:251-253 | sleepers are chained in reverse order of arrival |
| WaitQueue.DrainStep | kernel/process.c:255-270 | while a queue drains extra wake-ups are harmless and only the first sleeper can return |
| WaitQueue.WakeDrains | kernel/process.c:237-271 | one wake-up brings all sleepers back in reverse order of arrival and leaves the head NULL |
| WaitQueue.LateSleep | kernel/process.c:251-253 | who sleeps during a drain stands before the drained ones |
| WaitQueue.LateFate | kernel/process.c:255 | the next wake-up saves all late sleepers, the next return loses them all |
| WaitQueue.LostForever | kernel/process.c:255-260 | a lost process returns in no run whatever |
| WaitQueue.LateSleeperLost | kernel/process.c:251-260 | a run of four steps that loses a sleeper |
| WaitQueue.OwedRun | kernel/process.c:255-260 | a woken chain cannot be broken: its last process returns or stays owed a wake-up, with somebody ready to pass it on |
| BootMemory.Counts | mm/memory.c:26-36 | MEM_MAP after initMemory |
| BootMemory.UsableOk | mm/memory.c:11-18 | the memory used is whole frames, at most 60 MB, and short of what there is by less than a frame up to there |
| BootMemory.FreeFrames | mm/memory.c:22-36 | frames handed out lie above kernel and cache, and all exist exactly with 32 MB of memory |
| BootMemory.CarveBuffers | fs/buffer.c:27-47 | number and places of headers and blocks: floor((mem/4 - 1 MB) / 1060) of them |
| BootMemory.Partition | fs/buffer.c:27-47 | headers and blocks overlap neither each other nor any free frame, and no more would fit |
| BootMemory.SomeBuffer | fs/buffer.c:23-32 | there is a buffer exactly from 4 MB and 8 KB on |
| BootPaging.SetupPaging | boot/setup.asm:216-247 | directory and tables, everything else unchanged |
| BootPaging.Identity | boot/setup.asm:226-247 | every address below the end of memory, rounded up to 4 MB, is mapped to itself |
| BootPaging.TablesFit | boot/include/const.inc:5-28 | the tables cover memory and no more than they must, end before the kernel exactly up to 60 MB, and directory entries from 15 on are free |
| BootPaging.MapWhole | boot/setup.asm:226-247 | with 32 MB or more the kernel reaches every frame that MEM_MAP covers |
| BootPaging.BootState | boot/setup.asm:226-235 | the kernel starts in a good state exactly when there are 32 to 64 MB of memory and no leftover word looks like a present entry |
| Fat12.EntryIsNibbles | boot/lib/floppylib.inc:47-75 | the value decoded is the three half-bytes of the entry |
| Fat12.EntryOfPack | boot/lib/floppylib.inc:47-75 | decoding inverts packing for every entry |
| Fat12.Geometry | boot/lib/floppylib.inc:13-22 | sector numbers and places on the floppy correspond one to one |
| Fat12.Layout | boot/include/fat12hdr.inc:6-26 | FAT and first cluster lie where the numbers in the boot sector put them, and the FAT has an entry for every cluster |
| Fat12.FileIsChain | boot/boot.asm:70-82 | every file of the disk format is a chain for the loop, which stops at no cluster before its last |
| Fat12.ReadSectors | boot/lib/floppylib.inc:8-33 | memory after reading consecutive sectors |
| Fat12.ReadFatValue | boot/lib/floppylib.inc:39-75 | the value is the entry of the whole table, across sectors too, and what the read leaves in memory |
| Fat12.OneMore | boot/boot.asm:70-82 | one round of the loop: the data, then the FAT sectors |
| Fat12.Load | boot/boot.asm:70-82 | on a chain that ends the loop ends, and every byte of memory is known |
| Fat12.ArrivesWhole | boot/boot.asm:70-82 | a file up to 64 KB arrives whole exactly when what overlaps the FAT window happens to be equal; up to 89 clusters at 0x90000 and always at 0x50000 |
| Fat12.LongChain | boot/boot.asm:70-82 | a disk with a file of 90 clusters |
| Fat12.TooLong | boot/boot.asm:70-82 | that file does not arrive |

## Left out

- Block driver and disk: a request stores or fetches a block at its end, at any time; elevator order (`IN_ORDER`), the number of request structures and read-ahead are not modelled. A process may find no free request at any time.
- Wake-ups in the buffer cache: a sleeper may look again at any moment, which allows every run of the kernel and more. What the queues themselves do is `WaitQueue`.
- `getblk`, `bread`, `brelse` and `syncDev` are small steps on values, not methods: a method cannot stop in the middle of a sleep. Their list operations are methods of `BufferQueues.Buffers`.
- `getblk` may give up the processor at a few places where the kernel cannot (`goto repeat`, a lock that is free); the theorems hold for these runs too.
- `syncInodes` between the two passes of `syncDev`: what it does is done by another process at that point.
- Timer interrupts inside kernel code: the steps between two sleeps are taken as not interrupted.
- The wait queue has no signals and no other wake-ups of a sleeper. Slot 0 may sleep on it, since the test at kernel/process.c:246 compares with an address that CURRENT never has; that `schedule` may go on with slot 0 all the same, before it is woken, is not in the queue's model.
- Whether a waiting process is in fact woken: `BufferCalls.WaitsExactly` says when it waits, `BufferSync` when it could go on, `WaitQueue` when a sleeper is woken and when it is lost. The two are not one model, so a process lost on `BUFFER_WAIT` or `b_wait` may sleep although a buffer is free.
- The signal scan of `schedule` (kernel/process.c:187-198): its test is inverted, so it never acts on a live task.
- PCB contents: one page of words in the memory model, four fields in the task model.
- The slots of the memory model and of the task model are the same table but two models; a fork is told whether memory is found.
- PagingKernel.Kernel.FreePage: an address past the 32 MB that `MEM_MAP` covers is ignored, where the kernel loops for ever; no page, table or PCB of a reachable state lies there (`PagingRuns.Always`).
- PagingKernel.Kernel.CopyMem: the return of -1 for unequal code and data bases is not modelled; slot 0 starts with both 0 and every fork sets both alike.
- PagingKernel.Kernel.CopyProcess: the counts of open files and inodes are not modelled; the descriptors are in `TaskTables.TaskTable.CopyProcess`.
- PagingFork.ForkOk: what a fork into slot 62 or 63 overwrites past the GDT, and what becomes of a fork that faults in the kernel, is not modelled; runs of `PagingRuns` end before it.
- BufferCacheInv.Finish: a failed write is left to `BufferCacheRuns.FailedWrite`.
- Stores into a buffer that is locked or not up to date: the one writer in the kernel, `writeInode`, stores after `bread` and before it gives up the processor, so `Modify` asks for an unlocked buffer that is up to date.
- Directory entries past the 1024th, which `copyPageTables` and `freePageTables` would reach for sizes that no process has.
- Accessed and dirty bits; the processor's cache of translations and its reloads: a change of a table or of the directory acts at once.
- Stores by slot 0 or the kernel into page tables, but for the one through NULL; their stores to low memory, the cache and PCBs are events of `PagingRuns`.
- `missingPage`, which only prints: a store to an unmapped page changes nothing.
- Frames past the 32 MB that `MEM_MAP` covers: loads give 0 and stores are lost. No reachable state refers to one.
- Kernel files of more than 64 KB, the ELF loader, a floppy read that fails for ever, and the search of the root directory.
- `mkTime`, descriptor and TSS packing, interrupt stubs, port I/O, printing.
