# Study-code verification

A Dafny model of the algorithmic cores of this repository, with proofs of what they promise. Each
component is one module, in the form of its source: objects whose methods change fields are classes,
loops are loops, protocols between threads are step systems over every interleaving. A method that
changes state is proved against a function of the old state or an independent description of the
result; the properties of a whole run are lemmas, or methods that serve any sequence of requests.

| files | models |
|---|---|
| `IntervalList`, `BlockSizes`, `BlockAllocator` | the PMFS block allocator: a list of in-use intervals that refines a set of used blocks, with a node allocation that may fail |
| `Philosophers`, `SharedBuffer`, `ProducerConsumer` | semaphore protocols over every interleaving: dining philosophers, the multi-producer buffer `sbuf`, and one producer with one consumer |
| `QuantumStore`, `IntAddressing`, `Scull`, `Scullp` | the scull devices: a list of quantum sets that refines a partial byte map exactly where the unchecked int addresses fit, and the mmap view of scullp beside its reads |
| `SnullPackets`, `SnullRuns`, `Snull` | packet pools and receive queues of the snull network driver, threaded through one `next` field, with any number of threads |
| `TopPages`, `Popcount`, `NvmTables` | the NVM simulator: top-k page selection, the parallel bit count, and the bitmap, map and access tables |
| `ExpressionGrammar`, `ProgramGrammar`, `SymbolTables`, `TokenNames`, `LabParser` | the recursive-descent parser with its token cursor, symbol tables and Python exceptions, and what the names of a token list mean by themselves |
| `ScullPipe`, `RobustIo` | the scull pipe as a bounded byte queue, and the buffered reader over any chunking, interruption, end and failure of the stream |
| `ShellState`, `ShellRuns`, `ShellEffects`, `TinyShell` | the process and resource manager tShell |
| `Words`, `Arithmetic`, `Wrappers` | machine words, division facts and the option type the others share |

`dafny verify dfyconfig.toml` checks the whole project.

Calls into code outside the model are parameters of the methods: whether an allocation succeeds (and
what a fresh quantum contains), whether a copy to or from user space succeeds, whether a wait was
interrupted, what `read()` delivers. A user copy is all or nothing. Sleeping is a result or the guard
of a step. Pointers are positions: a list node is identified by its place in the list, a packet by the
order of its allocation.

## Where the code does not do what it says

These are results of the model. The code is followed, and where a lemma names the condition under
which the code does meet its promise, it is an equivalence.

- `pmfs_new_block` never looks before the head of the in-use list. With a list node at hand it answers
  -ENOSPC although some run fits exactly when none fits above the head and one lies before it, or the list
  is empty and the region has room (`RefusalIsExact`; `FreedRegionRefuses` and `FreedFrontIsMissed` come there
  from a fresh region); otherwise -ENOSPC means that no
  run fits, and what it returns is the least fit of all (`FirstFitIsGlobal`).
  Neither happens in a run that starts as mount leaves the region (`EveryRunIsFirstFit`).
- A release of a snull packet looks at the queue state after its lock section. When the packet has been
  sent again and the pool drained in between, it wakes a queue whose pool is empty
  (`OnlyLateChecksMislead`, `LateCheckWakesEmptyPool`); with prompt releases that cannot happen
  (`EveryPromptRunIsSettled`), provided both pools were granted a packet (`PromptRunsFromStart`).
- The philosophers' protocol deadlocks for a single philosopher (`OnePhilosopherDeadlocks`).
- scull's ioctl checks neither size, and their product and the item number are ints. The positions below
  a limit form a byte map if and only if they stay inside the first item, or the wrapped product is a
  positive multiple of the quantum and the last item number is below 2^31 (`FitsIsExact`). Any sizes whose
  wrapped product ends inside a quantum lose a byte that was written (`SpilledByteIsLost`), and even with the
  default sizes a write 2^32 items further on goes over position 0 (`FarWriteOverwrites`).
- scullp's nopage divides by the array length and its reads by the wrapped product. They reach the same page
  if and only if the addresses use whole arrays or the page is among the used slots of the first item
  (`MapPlaces`); else a mapping can miss a page that reads find (`MappingMissesPage`).
- tShell hands the units a waiter asked for to the process that released them, requeues that process and
  never takes a waiter off the wait list. A process that blocks leaves the ready lists if and only if it was
  not queued a second time by such a release (`BlockedIsOut`), and whoever has left them starves
  (`BlockedStarves`, `WaitersStarve`; a run from the start is `UnitsGoToReleaser` with `WokenWaiterStarves`).
  A process queued twice stays current when it blocks (`BlockedTwiceQueuedStays`). Units are conserved
  exactly by fair commands (`CommandConserves`).
- The parser's `write` statement consumes its own semicolon, and without one the program stops because
  a string is called (`WriteStatement`). Its statement tables separate statements by semicolons where
  the comments end each with one, so a semicolon behind the last statement is an error
  (`TrailingSemicolonIsRejected`); `ProgramGrammar` is the grammar the code follows, and it is accepted
  exactly (`BlockIsExact`).
- The parser's line spans end one line beyond the last name of a function exactly when the run of consecutive
  lines with names before it is odd (`SpanIsFirstToLast`, `OneLineEndsOnNext`). A name's first declaration holds
  for the whole rest of the program, whatever its scope (`MainProcedure`).
- tShell's destroy goes by names: what leaves a ready list is its first entries of the destroyed names, so a
  destroyed process is out of it for sure only if its name was there once (`DestroyedTree`, `DestroyedIsOut`).
- `query_bitmap` answers 0 both for "nothing free" and for "bit 0 is free" (`QueryBitmap`).
- snull's poll does not charge packets dropped for lack of memory, so it takes more packets than its quota
  exactly when the queue is longer and one of the first quota packets is dropped (`DropsEvadeQuota`).
- The access table charges a page the request did not write exactly when the request stops at the start of
  that page, or writes nothing at all (`UnwrittenCharge`); an entry is right modulo 2^32 exactly when those
  overcharges cancel (`EntryIsRightIff`, `WholePageOvercharges`).
- The shared buffer's counters are ints that are never reduced: the one step that can overflow is the store
  of item 2^31 (`OnlyStoresOverflow`), and a run comes to it (`OverflowIsReached`).
- `rio_readnb` and `rio_readlineb` lose what they read before an error (`ErrorLosesBytes`), and with a length
  of 0 `rio_readlineb` stores its 0 behind the buffer (`ReadLine`).
- The page extraction checks its allocations except the last, where it crashes (`ExtractSmall`).

## Model

| member | source | states |
|---|---|---|
| `BlockSizes.AlignAfterIsNext` | drivers/nvm-ref/pmfs/balloc.c:180 | for all three block types and all block numbers below 2^52, the add-and-mask expression on 64-bit words is the least multiple of the run length above the given block |
| `BlockSizes.MaskOfBlocks` | drivers/nvm-ref/pmfs/balloc.c:180 | masking a 64-bit word with the complement of the run length less one rounds it down to a multiple of that length |
| `BlockSizes.CeilingDivision` | drivers/nvm-ref/pmfs/balloc.c:32-33 | the initial used size in bytes is rounded up to whole blocks and stays within the region |
| `BlockSizes.RunsHaveTheirBytes` | drivers/nvm-ref/pmfs/pmfs.h:523-538 | the run of a block type is as many blocks of 4096 bytes as make its 2^12, 2^21 or 2^30 bytes, and an aligned run begins at a multiple of them |
| `IntervalList.CanonicalIsUnique` | drivers/nvm-ref/pmfs/balloc.c:85-131 | two sorted lists of intervals with gaps between them that cover the same blocks are the same list |
| `IntervalList.UsedRunInOneInterval` | drivers/nvm-ref/pmfs/balloc.c:85-131 | a run of used blocks lies inside a single interval of the list |
| `IntervalList.FreeUpdate` | drivers/nvm-ref/pmfs/balloc.c:85-131 | cutting a run out of its interval, in any of the four geometric cases, keeps the list canonical and removes exactly the run from the used set |
| `IntervalList.AllocUpdateUses` | drivers/nvm-ref/pmfs/balloc.c:188-248 | filling, extending or splitting a gap with a run keeps the list canonical and adds exactly the run, which was free, to the used set |
| `IntervalList.FirstGapWins` | drivers/nvm-ref/pmfs/balloc.c:171-186 | if no earlier gap has room, the aligned run after a node is the least fit above the head of the list |
| `IntervalList.SkippedGaps` | drivers/nvm-ref/pmfs/balloc.c:183-186 | a base whose gap has been skipped does not fit |
| `IntervalList.FirstFitIsGlobal` | drivers/nvm-ref/pmfs/balloc.c:171-249 | the fit found above the head is the least fit of the whole region if and only if no aligned run lies before the head, which holds while the first block of the region is used |
| `IntervalList.FirstFitCanMissTheFront` | drivers/nvm-ref/pmfs/balloc.c:171-249 | with the front of the region free again, an allocation can pass over a lower fit |
| `IntervalList.LeastFitExists` | drivers/nvm-ref/pmfs/balloc.c:171-186 | where some run fits above the head there is a least one |
| `IntervalList.RefusalIsExact` | drivers/nvm-ref/pmfs/balloc.c:171-262 | with a node at hand -ENOSPC is answered although some run fits if and only if none fits above the head and one lies before it, the whole region counting as before the head of an empty list; else exactly when no run fits |
| `IntervalList.FirstAlignedDecides` | drivers/nvm-ref/pmfs/balloc.c:171-186 | whether a run lies before the head is decided by the first aligned block of the region |
| `IntervalList.EmptyListRefuses` | drivers/nvm-ref/pmfs/balloc.c:171-262 | with everything freed an allocation is refused on a wholly free region |
| `BlockAllocator.FreedRegionRefuses` | drivers/nvm-ref/pmfs/balloc.c:26-280 | on a fresh region of any size with one block used, freeing it makes the next allocation fail with every block free |
| `BlockAllocator.FreedFrontIsMissed` | drivers/nvm-ref/pmfs/balloc.c:26-280 | allocating behind that block and freeing it makes the next allocation pass over the free front |
| `IntervalList.NeedsNodeIff` | drivers/nvm-ref/pmfs/balloc.c:188-248 | an allocation needs a new list node exactly when neither neighbouring block is used |
| `IntervalList.CanFreeInside` | drivers/nvm-ref/pmfs/balloc.c:85-131 | a run inside a node can be freed if and only if a node is available or the run reaches an end of the node |
| `IntervalList.FreeMiss` | drivers/nvm-ref/pmfs/balloc.c:78-134 | a run that lies inside no node contains a free block |
| `IntervalList.FreeOutcome` | drivers/nvm-ref/pmfs/balloc.c:54-140 | a free removes exactly the run or nothing, moves the free counter by as much, happens exactly when the blocks are used and a needed node is available, and leaves the first node above the run as the hint |
| `IntervalList.AllocOutcome` | drivers/nvm-ref/pmfs/balloc.c:151-280 | an allocation adds exactly the least fit above the head or nothing, and fails only if there is none or its node could not be allocated |
| `IntervalList.GrantsIsCanAllocate` | drivers/nvm-ref/pmfs/balloc.c:151-280 | which run an allocation gets depends on the used set alone, the head of the list starting at the least used block |
| `IntervalList.LeastFitIsUnique` | drivers/nvm-ref/pmfs/balloc.c:171-249 | the least fit of a used set is unique |
| `BlockAllocator.SuperBlock.constructor` | drivers/nvm-ref/pmfs/balloc.c:26-42 | initialisation marks the first blocks used, as many as the initial used size needs, in one node |
| `IntervalList.HintIsNext` | drivers/nvm-ref/pmfs/balloc.c:88-129 | the hint left by a free is the first node above the freed run, or null behind the last |
| `BlockAllocator.SuperBlock.FreeInNode` | drivers/nvm-ref/pmfs/balloc.c:85-131 | the four cases of one node: freed exactly when the run lies in it and a needed node is there |
| `BlockAllocator.SuperBlock.FreeBlock` | drivers/nvm-ref/pmfs/balloc.c:54-140 | a free from any hint takes out the run when its blocks are used and a needed node is there, else changes nothing; what leaves the used set and joins the counter is exactly the blocks of the 2^12, 2^21 or 2^30 bytes from the given block on; the hint is null or a node of the list |
| `BlockAllocator.SuperBlock.NewBlock` | drivers/nvm-ref/pmfs/balloc.c:151-280 | an allocation returns the least aligned fit above the head and adds its blocks: exactly those of the 2^12, 2^21 or 2^30 bytes of its type, taken off the counter, at a multiple of as many bytes; none is returned exactly when there is no such fit or no node for it, and with a node at hand that means no run fits at all exactly when none lies before the head |
| `BlockAllocator.SuperBlock.FreeAll` | drivers/nvm-ref/pmfs/balloc.c:72-130 | a chain of frees does what the same frees do on the plain set of used blocks, hints threaded or not |
| `BlockAllocator.HintedFreesAgree` | drivers/nvm-ref/pmfs/balloc.c:72-130 | frees that thread the hint and frees that scan from the head give the same results, list and counter |
| `BlockAllocator.FreeUndoesAllocation` | drivers/nvm-ref/pmfs/balloc.c:85-131 | freeing what was allocated restores the used set, and is possible unless the run stands apart from its neighbours and no node is available |
| `BlockAllocator.AllocateThenFree` | drivers/nvm-ref/pmfs/balloc.c:85-253 | an allocation followed by freeing it restores the identical list and counter |
| `BlockAllocator.SuperBlock.ServeOne` | drivers/nvm-ref/pmfs/balloc.c:54-280 | an allocation appends the run the used set grants, a release takes its run out, and either leaves the live runs alone exactly when it cannot |
| `BlockAllocator.SuperBlock.Serve` | drivers/nvm-ref/pmfs/balloc.c:26-280 | over any sequence of allocations and releases each is answered as the used set at its time demands, the live runs never overlap, used blocks are the initial and the live ones, the counter is conserved, and releasing all restores the list |
| `BlockAllocator.EveryRunIsFirstFit` | drivers/nvm-ref/pmfs/balloc.c:26-280 | in every run of allocations and releases that starts with the first block in use, as mount leaves it, an allocation with a node at hand gets the least free aligned run of the whole region, and -ENOSPC exactly when there is none |
| `BlockAllocator.GrantsIsLeastFit` | drivers/nvm-ref/pmfs/balloc.c:171-249 | where the first block is used, the run granted is the least fit of the region |
| `Philosophers.StepKeepsInv` | qinke/philo-problem/philo.c:22-46 | every step of every philosopher keeps who holds the mutex and each chopstick |
| `Philosophers.NeighboursNeverEatTogether` | qinke/philo-problem/philo.c:32-43 | in no reachable state do two adjacent philosophers eat |
| `Philosophers.RightOfIsModular` | qinke/philo-problem/philo.c:34-43 | the chopstick on the right is the one after the own, round the table |
| `Philosophers.ChopstickHolderMoves` | qinke/philo-problem/philo.c:32-43 | a philosopher cannot take the chopstick it waits for if and only if the neighbour who shares it has it in hand, and that neighbour can move |
| `Philosophers.NoDeadlock` | qinke/philo-problem/philo.c:22-46 | for two or more philosophers, nobody can move if and only if everybody has finished |
| `Philosophers.StepCounts` | qinke/philo-problem/philo.c:22-46 | each step takes exactly one from the steps left in the whole run |
| `Philosophers.EveryRunFinishes` | qinke/philo-problem/philo.c:22-70 | for every N of at least two and every interleaving: neighbours never eat together, and a run has exactly N(7N+1) steps when it can go no further, with everybody finished |
| `Philosophers.OnePhilosopherDeadlocks` | qinke/philo-problem/philo.c:32-43 | with one philosopher there is a run that gets stuck unfinished |
| `SharedBuffer.StepKeepsInv` | Compiler/csapp.c:1097-1121 | every step that does not overflow keeps the credit counts: slots, items, mutex and threads in flight add up, and each access finds its cell |
| `SharedBuffer.StepKeepsFifo` | Compiler/csapp.c:1097-1121 | every step keeps the buffer's live cells equal to what was inserted and not yet removed, in order |
| `SharedBuffer.AccessIsSafe` | Compiler/csapp.c:1102-1115 | a store never overwrites an unread cell and a load always finds an item |
| `SharedBuffer.MutualExclusion` | Compiler/csapp.c:1100-1117 | no two threads are between the P and V of the mutex |
| `SharedBuffer.OnlyStoresOverflow` | Compiler/csapp.c:1102-1115 | a step is undefined if and only if it is a store after 2^31-1 stores |
| `SharedBuffer.OverflowIsReached` | Compiler/csapp.c:1097-1121 | with any buffer and any threads there is a run that comes to that store |
| `SharedBuffer.EveryRunIsFifo` | Compiler/csapp.c:1084-1121 | under any interleaving of any number of threads removals are a prefix of insertions in mutex order, rear less front stays between 0 and n, and every enabled step is defined except the store of item 2^31, where the int counter overflows |
| `SharedBuffer.EveryItemArrives` | Compiler/csapp.c:1097-1106 | over every run the items callers passed, read off the actions alone, are those inserted and those still on their way in a thread |
| `SharedBuffer.StoresOwnItem` | Compiler/csapp.c:1097-1106 | only a store inserts, and it puts the item of its own thread's last insert behind all others |
| `SharedBuffer.ReturnsOwnLoad` | Compiler/csapp.c:1109-1121 | what a remove is about to return is the item its own last load removed |
| `SharedBuffer.StepMovesReturn` | Compiler/csapp.c:1109-1121 | only a load removes, and it takes the oldest item not yet removed; nothing changes what its thread returns until the thread is idle |
| `SharedBuffer.StuckOnlyWhenFullOrEmpty` | Compiler/csapp.c:1099-1113 | no thread can advance if and only if all in flight wait to insert into a full buffer or to remove from an empty one |
| `ProducerConsumer.PutFindsEmptyCell` | qinke/philo-problem/pc.c:21-34 | the producer's store never overwrites an unconsumed cell |
| `ProducerConsumer.TakeFindsItem` | qinke/philo-problem/pc.c:43-56 | the consumer at its j-th item reads the value j |
| `ProducerConsumer.NoDeadlock` | qinke/philo-problem/pc.c:16-58 | neither thread can move if and only if both have finished |
| `ProducerConsumer.EveryRunDeliversInOrder` | qinke/philo-problem/pc.c:16-58 | for any buffer size and item count and every interleaving the j-th consumed value is j, and a run has exactly 12C+2 steps when it can go no further, with all items consumed |
| `QuantumStore.PutQuantumByte` | drivers/examples/scull/main.c:309-324 | replacing one quantum changes the bytes of that quantum and no others |
| `QuantumStore.CopyStores` | drivers/examples/scull/main.c:373-377 | a copy into one quantum stores exactly its bytes at consecutive positions |
| `QuantumStore.ExtendKeepsBytes` | drivers/examples/scull/main.c:262-286 | appending empty list items changes no byte |
| `IntAddressing.ToIntKeeps` | drivers/examples/scull/main.c:297-312 | a product or quotient stored in an int keeps its value exactly below 2^31 |
| `IntAddressing.FitsIsExact` | drivers/examples/scull/main.c:297-312 | for all sizes the int addresses of the positions below a limit form a byte map, one usable place each and neighbours in a quantum in a row, if and only if the positions stay inside the first item or the wrapped product is a positive multiple of the quantum and the last item number is below 2^31 |
| `IntAddressing.Locate` | drivers/examples/scull/main.c:309-312 | item, slot and offset as the int divisions give them, for any sizes that divide |
| `IntAddressing.FittingPlace` | drivers/examples/scull/main.c:309-312 | where they fit, item, slot and offset are those of exact division |
| `IntAddressing.SizesOfEachKind` | drivers/examples/scull/main.c:426-500 | sizes an ioctl accepts whose product wraps and fits all the same, ends inside a quantum, is 0, or is negative |
| `Scull.WriteFitsIsExact` | drivers/examples/scull/main.c:336-387 | the condition under which runs serve a write is exactly that the positions as far as its end form a byte map |
| `Scull.SpilledByteIsLost` | drivers/examples/scull/main.c:336-500 | for all sizes whose wrapped product ends inside a quantum: set by ioctl, adopted by trim, a two-byte write over the end of the first item succeeds and a read of its second byte returns nothing |
| `Scull.FarWriteOverwrites` | drivers/examples/scull/main.c:336-387 | for all sizes with a positive wrapped product, the defaults included, a write at the wrapped product times 2^32 goes over the byte at position 0 |
| `Scull.Globals.Ioctl` | drivers/examples/scull/main.c:419-513 | reset sets 4000 and 1000; of the twelve size commands Set, Exchange, Tell and Shift give exactly their own global the value fetched or the argument as an int, Get and Exchange copy the old one out, Query and Shift return it; changes need the capability, a fault is reported, and an exchange that cannot copy out has changed the size |
| `Scull.Device.Trim` | drivers/examples/scull/main.c:63-84 | trimming frees every allocation exactly once, empties the device and takes over the global sizes |
| `Scull.Device.Follow` | drivers/examples/scull/main.c:262-286 | following finds the n-th item, appending empty items as memory lasts and touching nothing else |
| `Scull.Device.Read` | drivers/examples/scull/main.c:292-334 | for any sizes and position that compute a place: the stretch of that place's quantum up to its end and the size, or nothing from a hole |
| `Scull.Device.Write` | drivers/examples/scull/main.c:336-387 | for any sizes and position that compute a place: the bytes that fit are copied over that place's quantum, allocated as memory lasts, and the size is raised to their end; else no byte changes |
| `Scull.ReadRefines` | drivers/examples/scull/main.c:292-334 | in a byte map a read allocates nothing and returns, up to the end of quantum and data, the bytes last written |
| `Scull.WriteRefines` | drivers/examples/scull/main.c:336-387 | a write that fits stores exactly a prefix of its data, changes no other byte and leaves a byte map; a failing one changes no byte |
| `Scull.ReadValid` | drivers/examples/scull/main.c:292-334 | a read of a device that is a byte map returns the bytes last written and changes nothing, whatever the position |
| `Scull.WriteValid` | drivers/examples/scull/main.c:336-387 | a write that fits stores min(count, rest of the quantum) bytes and no others, raises the size to its end, and keeps the device a byte map; with memory provided it fails only on a fault |
| `Scull.Llseek` | drivers/examples/scull/main.c:523-547 | seeking sets the position from start, position or size, or fails exactly for a bad mode or a negative result |
| `Scull.Serve` | drivers/examples/scull/main.c:63-547 | over any sequence of reads, writes, seeks, ioctls and trims, up to a write whose address does not fit, each is answered with the position and the sizes of its time: a write with memory stores all that fits its quantum, a read of a written byte returns all up to the end of quantum and data, as last written, a trim takes over the global sizes, an ioctl changes those alone, and the size is the highest end reached since the last trim |
| `Scull.ServeOne` | drivers/examples/scull/main.c:292-547 | one request of any kind extends a history the device agrees with: a read of a written byte and a write with memory transfer all up to the end of the quantum and move the position by it, a seek moves it as asked, and an ioctl leaves the open device's own sizes alone |
| `Arithmetic.AddressSplits` | drivers/examples/scullp/main.c:186-188 | splitting a position into item, slot and offset by the item size agrees with splitting its page number by the set size |
| `Scullp.Device.Trim` | drivers/examples/scullp/main.c:482-510 | trimming is refused exactly while the device is mapped, and otherwise empties it |
| `Scullp.Device.Follow` | drivers/examples/scullp/main.c:151-162 | following extends the list with empty items up to the n-th |
| `Scullp.Device.Nopage` | drivers/examples/scullp/mmap.c:60-93 | the page found by repeated subtraction along the list is the one in the item and slot that division by the array length gives, and none is found past the size or in a hole |
| `Scullp.Device.Read` | drivers/examples/scullp/main.c:168-212 | as in scull for any array length and position that compute a place, except that a read at the very end goes on, transfers nothing and may extend the list; a position beyond it is answered with 0 whatever it is |
| `Scullp.Device.Write` | drivers/examples/scullp/main.c:216-268 | as in scull for any array length and position that compute a place; fresh pages are zeroed |
| `Scullp.Device.VmaOpen` | drivers/examples/scullp/mmap.c:33-38 | opening a mapping counts it and changes nothing else |
| `Scullp.Device.VmaClose` | drivers/examples/scullp/mmap.c:40-45 | closing a mapping uncounts it and changes nothing else |
| `Scullp.ReadMatchesMapping` | drivers/examples/scullp/mmap.c:68-84 | at every position below the size where the two computations lead to the same slot a read returns the stretch of the very page a mapping gets, and both refuse the same holes |
| `Scullp.MapPlaces` | drivers/examples/scullp/mmap.c:78-83 | the two computations lead to the same slot if and only if the addresses use whole arrays or the page is among the used slots of the first item |
| `Scullp.MappingMissesPage` | drivers/examples/scullp/mmap.c:60-93 | with 2^20+1 slots a written second page is read back and not mapped |
| `Scullp.ReadValid` | drivers/examples/scullp/main.c:168-212 | a read of a byte map returns the bytes last written and zeros where nothing was, and changes no byte |
| `Scullp.WriteValid` | drivers/examples/scullp/main.c:216-268 | a write that fits stores a prefix within one page and no other byte, takes no page away, and with memory provided fails only on a fault |
| `Scullp.PlaceKeepsZero` | drivers/examples/scullp/main.c:241-247 | after any write every allocated byte that nobody wrote is zero |
| `Scullp.ServeRead` | drivers/examples/scullp/main.c:168-212 | a read returns bytes last written and zeros elsewhere, and some whenever the first one was written |
| `Scullp.ServeOne` | drivers/examples/scullp/main.c:168-510 | a request extends the history the device agrees with: reads return what was last written, a provided write stores all that fits its page, a trim is refused exactly while there are mappings, and no other request changes the geometry or takes a page away |
| `Scullp.Serve` | drivers/examples/scullp/main.c:168-510 | over any requests on a fresh device, as far as their addresses are in reach, every read returns what was last written and zeros elsewhere, and every trim is refused exactly while more mappings were opened than closed |
| `Scullp.MappedPagesStay` | drivers/examples/scullp/main.c:488-489 | over any stretch of any run in which every trim meets a mapping the array length stays, the size does not shrink, and every page that nopage maps at the start it maps at the end |
| `SnullPackets.PushKeeps` | drivers/examples/snull/snull.c:156-157 | pushing a packet onto a list through its link field gives the list with the packet in front |
| `SnullPackets.PopKeeps` | drivers/examples/snull/snull.c:139-140 | taking the head leaves the list behind it |
| `SnullPackets.OthersKeep` | drivers/examples/snull/snull.c:163-186 | moving a packet through the shared link field leaves every list it is not on unchanged |
| `SnullPackets.GetKeeps` | drivers/examples/snull/snull.c:132-147 | taking a transmit buffer moves one packet from the device's pool into the thread's hand |
| `SnullPackets.EnqueueKeeps` | drivers/examples/snull/snull.c:163-172 | enqueueing moves the packet from the hand into the other device's receive queue |
| `SnullPackets.DequeueKeeps` | drivers/examples/snull/snull.c:174-186 | dequeueing moves one packet from a receive queue into the hand |
| `SnullPackets.ReleaseKeeps` | drivers/examples/snull/snull.c:150-158 | releasing puts the packet into the pool of the device it belongs to |
| `SnullPackets.StepKeepsInv` | drivers/examples/snull/snull.c:129-186 | in every interleaving each packet is in exactly one of its owner's pool, one receive queue, or one thread's hand |
| `SnullRuns.StepIsFaithful` | drivers/examples/snull/snull.c:483-486 | every step keeps the messages sent equal to those received and those still queued, payloads included |
| `SnullRuns.EveryRunConserves` | drivers/examples/snull/snull.c:129-504 | over every interleaving each packet is in one place and what was sent is what was received and what is queued, payloads included |
| `SnullRuns.SentIsAsked` | drivers/examples/snull/snull.c:481-486 | over every interleaving the messages sent are those callers asked for, read off the actions alone: each frame unchanged and for the other device |
| `SnullRuns.EveryFrameArrives` | drivers/examples/snull/snull.c:132-186 | from the start and over every interleaving the frames callers asked to send are those received and those in the two queues, unchanged |
| `SnullRuns.StartIsSound` | drivers/examples/snull/snull.c:98-115 | the pools set up at the start, of any sizes, satisfy the invariant |
| `SnullRuns.MoveSettles` | drivers/examples/snull/snull.c:141-160 | a step whose release is not interrupted keeps the queue stopped exactly while the pool is empty |
| `SnullRuns.EveryPromptRunIsSettled` | drivers/examples/snull/snull.c:141-160 | over every run with uninterrupted releases the transmit queue runs if and only if the pool has a packet |
| `SnullRuns.PromptRunsFromStart` | drivers/examples/snull/snull.c:98-160 | after any such run from the initial pools the queues run exactly while their pools have a packet if and only if both pools were granted one, so a transmit never meets an empty pool |
| `SnullRuns.OnlyLateChecksMislead` | drivers/examples/snull/snull.c:150-161 | a step breaks "running means a packet is there" if and only if it is a release's late look that finds its link field cleared, the queue stopped and the pool empty |
| `SnullRuns.LateCheckWakesEmptyPool` | drivers/examples/snull/snull.c:150-161 | there is such a run: a released packet sent again lets its releaser wake an empty pool's queue |
| `Snull.Driver.constructor` | drivers/examples/snull/snull.c:630-676 | both devices start with their granted packets, running |
| `Snull.Driver.SetupPool` | drivers/examples/snull/snull.c:98-115 | the pool is the list of packets granted before kmalloc failed, the last one first |
| `Snull.Driver.GetTxBuffer` | drivers/examples/snull/snull.c:132-147 | the method takes the model's step: head out, queue stopped when that was the last |
| `Snull.Driver.ReleaseBuffer` | drivers/examples/snull/snull.c:150-161 | the method takes the model's two steps, push and look |
| `Snull.Driver.EnqueueBuf` | drivers/examples/snull/snull.c:163-172 | the packet becomes the head of the receive queue with the old head behind it |
| `Snull.Driver.DequeueBuf` | drivers/examples/snull/snull.c:174-186 | the head of the receive queue, or nothing from an empty one |
| `Snull.Driver.HwTx` | drivers/examples/snull/snull.c:481-486 | the first packet of the sender's pool leads the other device's queue and holds the frame, the next one leads the pool, and no other packet changes |
| `Snull.TurnKeeps` | drivers/examples/snull/snull.c:294-316 | a receiver's turn takes the head of the queue, returns its packet to the owner and leaves nothing in hand |
| `Snull.Driver.ReceiveInterrupt` | drivers/examples/snull/snull.c:357-374 | an interrupt hands up the frame of the packet that leads the queue, if there is one, which counts as received, and releases the packet |
| `Snull.Driver.Poll` | drivers/examples/snull/snull.c:287-327 | polling takes packets from the front of the queue up to the first point where the deliveries, dropped packets not counted, reach the quota or the queue is empty; it delivers the frames those packets held, in order and without the dropped ones, never more than the quota, and more is asked for exactly while the queue is not empty |
| `Snull.AfterTurns` | drivers/examples/snull/snull.c:294-316 | after n turns the queue has lost its first n packets and every packet is in one place |
| `Snull.DropsEvadeQuota` | drivers/examples/snull/snull.c:294-316 | more packets are taken than the quota if and only if the queue is longer than the quota and one of the first quota packets is dropped |
| `TopPages.Minium` | drivers/NVMSIM/syncer.c:49-68 | the first index of a least value |
| `TopPages.Maxium` | drivers/NVMSIM/syncer.c:70-89 | the first index of a greatest value |
| `TopPages.BigKIndex` | drivers/NVMSIM/syncer.c:91-132 | k distinct indices whose values are at least every value left out, or nothing exactly for a bad k or no memory |
| `TopPages.SmallKIndex` | drivers/NVMSIM/syncer.c:134-173 | k distinct indices whose values are at most every value left out, or nothing exactly for a bad k or no memory |
| `TopPages.ReplaceLeast` | drivers/NVMSIM/syncer.c:114-123 | overwriting a least kept value by a larger one keeps the selection the largest of all seen |
| `TopPages.ReplaceGreatest` | drivers/NVMSIM/syncer.c:155-164 | overwriting a greatest kept value by a smaller one keeps the selection the smallest of all seen |
| `TopPages.PageCount` | drivers/NVMSIM/bitmap.c:71-87 | the number of words that are not zero |
| `TopPages.Compact` | drivers/NVMSIM/syncer.c:198-207 | compaction lists the pages in use in order with their access counts, and their sum modulo 2^32 |
| `TopPages.SelectionIsLeast` | drivers/NVMSIM/syncer.c:275-283 | indices selected among the compacted counts map back to distinct pages in use of least access count |
| `TopPages.SelectionIsMost` | drivers/NVMSIM/syncer.c:214-225 | the same for the greatest access count |
| `TopPages.ExtractSmall` | drivers/NVMSIM/syncer.c:238-293 | k distinct pages in use, none of the others accessed less, and the average count rounded down, of a sum modulo 2^32, exactly when the page count is right, k fits and every allocation succeeds; a crash exactly when only the result array is missing; else a refusal |
| `TopPages.ExtractBigSmall` | drivers/NVMSIM/syncer.c:176-236 | the k most and the k least accessed pages in use, with the same three outcomes |
| `Popcount.FoldKeepsSum` | drivers/NVMSIM/bitmap.c:63-67 | adding masked neighbouring fields keeps the sum of all fields and loses no carry, for any field width and count |
| `Popcount.MaskValues` | drivers/NVMSIM/bitmap.c:63-67 | the five constants are the alternating masks of the five field widths |
| `Popcount.BitCount` | drivers/NVMSIM/bitmap.c:58-69 | for every 32-bit word the result is the number of set bits |
| `Popcount.OrSetsBit` | drivers/NVMSIM/bitmap.h:19-20 | or with a shifted one sets that bit and no other |
| `Popcount.AndOneBit` | drivers/NVMSIM/bitmap.h:25-26 | and with a shifted one is zero exactly when that bit is clear |
| `NvmTables.SetMarksOne` | drivers/NVMSIM/bitmap.h:15-20 | setting a position in the word array marks that position and no other |
| `NvmTables.TestReadsMark` | drivers/NVMSIM/bitmap.h:25-26 | the test macro is true exactly for marked positions |
| `NvmTables.TotalIsMarked` | drivers/NVMSIM/bitmap.c:149-161 | adding up the bit counts of all words counts the marked positions |
| `NvmTables.WrittenMeans` | drivers/NVMSIM/ramdevice.c:793-796 | a sector counts as written exactly if some request of the log covered it |
| `NvmTables.Device.constructor` | drivers/NVMSIM/ramdevice.c:272-295 | the tables start zeroed, agreeing with the empty log |
| `NvmTables.Device.UpdateInfo` | drivers/NVMSIM/infotable.c:31-41 | one access more modulo 2^32, or a failure that changes nothing past the table |
| `NvmTables.Device.Map` | drivers/NVMSIM/maptable.c:29-64 | the entry is replaced and the old one returned, or nothing happens past the table |
| `NvmTables.Device.ChargePages` | drivers/NVMSIM/ramdevice.c:806-814 | every page the request wrote is charged one access, and exactly the page it stops before is charged without being written |
| `NvmTables.UnwrittenCharge` | drivers/NVMSIM/ramdevice.c:793-806 | a page is charged and none of its sectors written if and only if it is the page of the end sector, and the end is its first sector or the request is empty; every written page is charged |
| `NvmTables.EntryIsRightIff` | drivers/NVMSIM/ramdevice.c:806-814 | an entry equals the number of requests that wrote its page, modulo 2^32, if and only if the requests that stop before it are a multiple of 2^32 |
| `NvmTables.WholePageOvercharges` | drivers/NVMSIM/ramdevice.c:806-814 | one write of exactly page 0 counts an access of page 1 |
| `NvmTables.Device.MarkSectors` | drivers/NVMSIM/ramdevice.c:816-827 | exactly the sectors of the request become marked and mapped |
| `NvmTables.Device.WriteHelper` | drivers/NVMSIM/ramdevice.c:790-830 | after any writes: bit i is set iff sector i was written, the map table has i+1 there and 0 elsewhere, and the access table counts for each page the requests that wrote it and those that stopped before it, modulo 2^32 |
| `NvmTables.Device.TotalBitmap` | drivers/NVMSIM/bitmap.c:149-161 | the total is the number of distinct sectors ever written |
| `NvmTables.QueryBitmap` | drivers/NVMSIM/bitmap.c:29-56 | the first clear bit at or cyclically after the position; 0 exactly when there is none, the position is out of range, or bit 0 is the one found |
| `NvmTables.Serve` | drivers/NVMSIM/ramdevice.c:790-830 | for any run of in-range writes on a fresh device the bitmap total is the number of distinct sectors written |
| `ExpressionGrammar.ExprIsSound` | Compiler/lab-py/lab_parser.py:400-407 | what the rewritten expression grammar consumes derives from the left-recursive one |
| `ExpressionGrammar.ExprAIsSound` | Compiler/lab-py/lab_parser.py:409-418 | the loop of minus signs extends the tree on its left to a left-recursive one |
| `ExpressionGrammar.ItemIsSound` | Compiler/lab-py/lab_parser.py:420-427 | the same for products |
| `ExpressionGrammar.FactorIsSound` | Compiler/lab-py/lab_parser.py:438-468 | the same for variables, constants and calls |
| `ExpressionGrammar.ConditionIsSound` | Compiler/lab-py/lab_parser.py:488-499 | the same for conditions |
| `ExpressionGrammar.ItemIsRead` | Compiler/lab-py/lab_parser.py:420-436 | reading the codes of any product leaves the loop of times signs to decide about what follows |
| `ExpressionGrammar.ExprIsRead` | Compiler/lab-py/lab_parser.py:400-418 | reading the codes of any expression leaves the two loops to decide about what follows |
| `ExpressionGrammar.ExprIsExact` | Compiler/lab-py/lab_parser.py:400-458 | a derivable string is consumed exactly if and only if what follows is no minus or times sign and, after a closing variable, there is a token and it is no left parenthesis |
| `ExpressionGrammar.ConditionIsExact` | Compiler/lab-py/lab_parser.py:488-499 | the same for conditions |
| `ProgramGrammar.StatementIsSound` | Compiler/lab-py/lab_parser.py:332-398 | what statement parsing consumes derives from the statement grammar the code follows |
| `ProgramGrammar.DeclarationIsSound` | Compiler/lab-py/lab_parser.py:185-193 | what declaration parsing consumes derives from its grammar, nested functions included |
| `ProgramGrammar.FunctionIsSound` | Compiler/lab-py/lab_parser.py:244-282 | what function parsing consumes is a function heading and a block |
| `ProgramGrammar.BlockIsSound` | Compiler/lab-py/lab_parser.py:146-164 | what a begin-end block consumes derives from its grammar |
| `ProgramGrammar.StatementIsExact` | Compiler/lab-py/lab_parser.py:332-398 | a derivable statement is consumed exactly if and only if what follows does not continue the expression it ends with |
| `ProgramGrammar.StatementsAreExact` | Compiler/lab-py/lab_parser.py:306-330 | a derivable statement list is consumed exactly if and only if the last statement is and no semicolon with a further statement follows |
| `ProgramGrammar.DeclarationIsRead` | Compiler/lab-py/lab_parser.py:185-282 | a derivable declaration, nested functions included, is consumed exactly whatever follows |
| `ProgramGrammar.DeclarationsAreRead` | Compiler/lab-py/lab_parser.py:166-183 | a derivable declaration list leaves the loop of semicolons to decide about what follows |
| `ProgramGrammar.BlockIsRead` | Compiler/lab-py/lab_parser.py:146-164 | a derivable block is consumed exactly whatever follows |
| `ProgramGrammar.BlockIsExact` | Compiler/lab-py/lab_parser.py:146-164 | a string is accepted if and only if it begins with a derivable block |
| `ProgramGrammar.TrailingSemicolonIsRejected` | Compiler/lab-py/lab_parser.py:306-330 | no program with a semicolon behind its last statement is accepted |
| `ProgramGrammar.SampleIsAccepted` | Compiler/lab-py/lab_parser.py:15-32 | one program with every kind of declaration, statement and expression, accepted in the numbers its tokens have |
| `TokenNames.VariableHasRowAt` | Compiler/lab-py/lab_parser.py:206-214 | the variable table of a token list has a name exactly when an earlier identifier declares it as a variable or parameter |
| `TokenNames.FunctionHasRowAt` | Compiler/lab-py/lab_parser.py:255-261 | the same for functions |
| `TokenNames.SpanMore` | Compiler/lab-py/lab_parser.py:226-231 | one more line stretches the span of a list of lines exactly as the source stretches a row |
| `TokenNames.PassName` | Compiler/lab-py/lab_parser.py:203-282 | what an identifier adds to the reports, tables and scopes of a token list is decided by the tokens before it and the one behind it |
| `TokenNames.PassToken` | Compiler/lab-py/lab_parser.py:99-123 | any other token adds nothing, except that `end` closes a scope |
| `TokenNames.TouchLinesAreThose` | Compiler/lab-py/lab_parser.py:226-231 | the lines kept of a function are exactly those of the names declared or used in it, in order |
| `TokenNames.SpanIsFirstToLast` | Compiler/lab-py/lab_parser.py:226-231 | a function's span begins with the first of those lines and ends with the last or one line beyond, beyond exactly when the run of consecutive lines before it is odd |
| `TokenNames.OneLineEndsOnNext` | Compiler/lab-py/lab_parser.py:226-231 | a function with names on one line only is said to end on the next |
| `LabParser.Parser.constructor` | Compiler/lab-py/lab_parser.py:13-43 | the parser starts at the first token on line 1, inside "main", with empty tables |
| `LabParser.Parser.CurrentCode` | Compiler/lab-py/lab_parser.py:99-107 | the current token that ends no line; the erased input is unchanged and the line counts the ends passed |
| `LabParser.Parser.Advanced` | Compiler/lab-py/lab_parser.py:120-123 | exactly one token of the erased input is consumed, and a token that is no name leaves the tables those of the tokens passed |
| `LabParser.Parser.NowMoreOne` | Compiler/lab-py/lab_parser.py:125-129 | the next code of the erased input, or an exception at its end |
| `LabParser.Parser.Identifier` | Compiler/lab-py/lab_parser.py:234-242 | the identifier's word and one token consumed, or one syntax error and no word; what it adds to the tables is decided by the tokens around it |
| `LabParser.Parser.Define` | Compiler/lab-py/lab_parser.py:206-214 | a new name gets a row whose position is its index; a known name changes nothing |
| `LabParser.Parser.Use` | Compiler/lab-py/lab_parser.py:215-225 | a name in neither table is reported, and a missing name crashes unless a missing name was declared |
| `LabParser.Parser.TouchProcedures` | Compiler/lab-py/lab_parser.py:226-231 | exactly the current procedure's line span is stretched to the current line |
| `SymbolTables.TouchKeepsSpans` | Compiler/lab-py/lab_parser.py:226-231 | stretching keeps every span ordered and within the lines seen, and names distinct |
| `LabParser.Parser.Var` | Compiler/lab-py/lab_parser.py:203-231 | recognises one identifier; defining adds a row for a new name and using reports an undeclared one, neither does anything else, and the current procedure's span is stretched |
| `LabParser.Parser.UseVar` | Compiler/lab-py/lab_parser.py:215-225 | a use declares nothing, is reported if its name is in neither table, stretches the current procedure's span to its line, and leaves reports and tables those of the tokens passed |
| `LabParser.Parser.DefineVar` | Compiler/lab-py/lab_parser.py:206-214 | defining puts the identifier just read into the table, as a parameter or not and at the current level, unless it is there already, and leaves the tables those of the tokens passed |
| `LabParser.Parser.MathExpression` | Compiler/lab-py/lab_parser.py:400-407 | declares nothing, comes back without a new syntax error exactly when the grammar function accepts, consuming exactly the same tokens, always keeps the parser's invariants, and leaves reports, tables and scope those of the tokens passed |
| `LabParser.Parser.MathExpressionA` | Compiler/lab-py/lab_parser.py:409-418 | the same for the tail of differences |
| `LabParser.Parser.ReadItem` | Compiler/lab-py/lab_parser.py:420-427 | the same for products |
| `LabParser.Parser.ItemA` | Compiler/lab-py/lab_parser.py:429-436 | the same for the tail of factors |
| `LabParser.Parser.ReadFactor` | Compiler/lab-py/lab_parser.py:438-445 | the same for factors, with the look-ahead past the end an exception |
| `LabParser.Parser.FuncCall` | Compiler/lab-py/lab_parser.py:447-458 | the same for calls |
| `LabParser.Parser.UnsignedInteger` | Compiler/lab-py/lab_parser.py:460-468 | the same for constants |
| `LabParser.Parser.ConditionExpression` | Compiler/lab-py/lab_parser.py:488-492 | the same for conditions |
| `LabParser.Parser.RelationOperator` | Compiler/lab-py/lab_parser.py:494-499 | the same for relation signs |
| `LabParser.Parser.AssignStatement` | Compiler/lab-py/lab_parser.py:389-398 | the same for assignments |
| `LabParser.Parser.ReadStatement` | Compiler/lab-py/lab_parser.py:348-364 | the same for read statements |
| `LabParser.Parser.WriteStatement` | Compiler/lab-py/lab_parser.py:366-386 | the same for write statements, which crash exactly when only the semicolon is missing |
| `LabParser.Parser.ExecStatement` | Compiler/lab-py/lab_parser.py:332-346 | the same for statements |
| `LabParser.Parser.ConditionStatement` | Compiler/lab-py/lab_parser.py:470-486 | the same for if statements |
| `LabParser.Parser.ExecStatementTable` | Compiler/lab-py/lab_parser.py:306-319 | the same for statement lists |
| `LabParser.Parser.ExecStatementTableA` | Compiler/lab-py/lab_parser.py:321-330 | the same for the rest of a statement list, decided by the token behind the semicolon |
| `LabParser.Parser.DeclareStatementTable` | Compiler/lab-py/lab_parser.py:166-173 | the same for declaration lists |
| `LabParser.Parser.DeclareStatementTableA` | Compiler/lab-py/lab_parser.py:176-183 | the same for the rest of a declaration list |
| `LabParser.Parser.DeclareStatement` | Compiler/lab-py/lab_parser.py:185-193 | the same for declarations |
| `LabParser.Parser.VarDeclare` | Compiler/lab-py/lab_parser.py:195-201 | the same for variable declarations, which put the variable into the table as no parameter |
| `LabParser.Parser.FuncDeclare` | Compiler/lab-py/lab_parser.py:244-282 | the same for function declarations; the enclosing procedure and level are back on every path that returns |
| `LabParser.Parser.FuncHeading` | Compiler/lab-py/lab_parser.py:252-278 | after a clean function declaration the declared procedure is in the table, rows keep their names and levels, and reports, tables and scope are those of the tokens passed |
| `LabParser.Parser.NewFunction` | Compiler/lab-py/lab_parser.py:254-261 | the named function becomes the current procedure, with a row at the level of its body unless it has one, and the innermost scope |
| `LabParser.Parser.Parameter` | Compiler/lab-py/lab_parser.py:284-287 | the parameter gets a row marked formal, in the declared function and at its level, unless its name has a row |
| `LabParser.Parser.DefineProcedure` | Compiler/lab-py/lab_parser.py:255-261 | a new procedure gets a row at the current level; a known one changes nothing |
| `LabParser.Parser.Block` | Compiler/lab-py/lab_parser.py:146-164 | the same for program and function bodies, which close their scope |
| `LabParser.MainProcedure` | Compiler/lab-py/lab_parser.py:140-164 | on every token list that ends in an end mark the parser terminates, never passes the mark, has line equal to one plus the line ends passed and sound tables; without a syntax error exactly when the tokens begin with a program of the grammar, and then the consumed tokens are that program, the reports are exactly the uses of names no earlier identifier declares, in order and with their lines, and the tables have one row for each name declared, of its first declaration: the function around it, whether it is a parameter, its depth, and for functions the span of its lines |
| `ScullPipe.SpaceIsConserved` | drivers/examples/scull/pipe.c:181-186 | bytes held plus space free is always one less than the buffer, and empty means equal pointers |
| `ScullPipe.ReadTakesPrefix` | drivers/examples/scull/pipe.c:138-148 | advancing the read pointer takes a prefix of the contents, wrapped or not |
| `ScullPipe.WriteAppends` | drivers/examples/scull/pipe.c:203-215 | storing at the write pointer appends to the contents and never makes a full ring look empty |
| `ScullPipe.Pipe.constructor` | drivers/examples/scull/pipe.c:70-80 | the first open gives an empty pipe |
| `ScullPipe.Pipe.Read` | drivers/examples/scull/pipe.c:118-155 | a read removes and returns as many bytes as are asked for, held, and before the end of the buffer, would block exactly when empty, and loses nothing on a fault |
| `ScullPipe.Pipe.FreeSpace` | drivers/examples/scull/pipe.c:181-186 | the computed free space is what is missing to capacity |
| `ScullPipe.Pipe.Write` | drivers/examples/scull/pipe.c:188-226 | a write appends as many bytes as are given, fit the free space, and fit before the end of the buffer, would block exactly when full, and changes nothing otherwise |
| `ScullPipe.Pipe.Poll` | drivers/examples/scull/pipe.c:228-247 | readable unless empty, writable unless full |
| `ScullPipe.ServeOne` | drivers/examples/scull/pipe.c:118-226 | one request takes from the front or appends at the back as many bytes as it asks for, the contents allow, and lie before the end of the buffer |
| `ScullPipe.Serve` | drivers/examples/scull/pipe.c:118-226 | over any sequence of requests and after each of them the bytes read are a prefix of the bytes written with at most buffersize-1 in between, and how many bytes each request moves follows from the totals read and written before it |
| `RobustIo.Rio.Refill` | Compiler/csapp.c:798-809 | refilling loses no byte, retries interruptions, and stops at the next end or error of the stream, which it uses up |
| `RobustIo.Rio.Read` | Compiler/csapp.c:794-819 | a buffered read takes the next bytes of the stream, at most n, or uses up the end or error that comes first |
| `RobustIo.Rio.ReadN` | Compiler/csapp.c:838-853 | on any stream the result and what is left are those of taking n bytes off it: fewer before an end, none and an error before an error |
| `RobustIo.Rio.ReadLine` | Compiler/csapp.c:860-882 | on any stream the result and what is left are those of taking a line off it: up to and with the first byte 10, all bytes before an end, none and an error before an error, but after maxlen-1 bytes it stops; a terminating 0 is stored exactly on success with a byte read or a maxlen of at most 1 |
| `RobustIo.TakeNStops` | Compiler/csapp.c:843-852 | taking n bytes stops at n, at an end before that, or at an error before that, which loses the bytes |
| `RobustIo.TakeLineStops` | Compiler/csapp.c:865-879 | a line stops right behind the first newline, when the room is used up, or at an end or error before that |
| `RobustIo.LineIsRead` | Compiler/csapp.c:865-879 | for every number of bytes other than 10 the stream begins with: what the line must be by what comes next, a byte 10, an end, an error, or maxlen-1 bytes used up |
| `RobustIo.Serve` | Compiler/csapp.c:794-882 | over any script of deliveries, interruptions, ends and failures any mix of calls answers as the stream demands, whatever the size of the pieces read() delivers and wherever it is interrupted |
| `RobustIo.PiecesAreConsecutive` | Compiler/csapp.c:794-882 | as long as no call fails the pieces returned are consecutive from the start of the stream, across ends of file too |
| `RobustIo.ErrorLosesBytes` | Compiler/csapp.c:843-852 | bytes read before an error are in no answer |
| `ShellState.CountTaken` | qinke/tShell-Procss-Lab/tShell.c:225-239 | freeing n nodes of a resource removes as many as there are, up to n, and no others |
| `ShellState.AllocatedTotal` | qinke/tShell-Procss-Lab/tShell.c:473-482 | an allocation keeps each resource's total unless its amount is negative |
| `ShellState.FreedTotal` | qinke/tShell-Procss-Lab/tShell.c:513-516 | a release keeps each resource's total up to the units it did not hold |
| `ShellState.ServedFromTotal` | qinke/tShell-Procss-Lab/tShell.c:518-535 | the waiter loop keeps every total |
| `ShellState.KillAllTotal` | qinke/tShell-Procss-Lab/tShell.c:432-466 | destroying a tree of processes keeps every total |
| `ShellRuns.HeadIsFound` | qinke/tShell-Procss-Lab/tShell.c:244-278 | the current process heads its own ready list, every higher list is empty, and removal by name takes exactly it |
| `ShellRuns.CreatedKeeps` | qinke/tShell-Procss-Lab/tShell.c:320-354 | creating keeps the tables sound and every total |
| `ShellRuns.DestroyedKeeps` | qinke/tShell-Procss-Lab/tShell.c:395-466 | destroying keeps the tables sound and every total |
| `ShellRuns.RequestedKeeps` | qinke/tShell-Procss-Lab/tShell.c:470-509 | requesting keeps the tables sound and changes a total only by a negative amount |
| `ShellRuns.ReleasedKeeps` | qinke/tShell-Procss-Lab/tShell.c:511-536 | releasing keeps the tables sound and changes a total only by units not held |
| `ShellRuns.TimedOutKeeps` | qinke/tShell-Procss-Lab/tShell.c:609-617 | a time-out keeps the tables sound and every total |
| `ShellRuns.CommandConserves` | qinke/tShell-Procss-Lab/tShell.c:320-617 | a command keeps every resource's total if and only if it requests no negative amount and releases at most what is held; the head of the highest ready list runs afterwards |
| `ShellRuns.EveryRunConserves` | qinke/tShell-Procss-Lab/tShell.c:320-617 | over every run of fair commands each resource's status plus its nodes is its initial amount, the status is never negative, and the head of the highest ready list is current |
| `ShellRuns.StartIsConserved` | qinke/tShell-Procss-Lab/tShell.c:574-607 | the initial tables are sound and conserved, with init current |
| `ShellRuns.WaitersStayOut` | qinke/tShell-Procss-Lab/tShell.c:511-536 | no command puts a process back into a ready list once it is in none |
| `ShellRuns.WaitersStarve` | qinke/tShell-Procss-Lab/tShell.c:470-536 | over every run a process that is in no ready list never runs again |
| `ShellRuns.BlockedIsOut` | qinke/tShell-Procss-Lab/tShell.c:484-507 | a process that blocks leaves the ready lists if and only if it is not queued a second time in its own |
| `ShellRuns.BlockedStarves` | qinke/tShell-Procss-Lab/tShell.c:470-536 | a request that blocks a process queued once means that it never runs again, over every run |
| `ShellRuns.UnitsGoToReleaser` | qinke/tShell-Procss-Lab/tShell.c:511-536 | a run from the start: the unit a waiter asked for goes to the process that releases it, which is queued twice, while the waiter is only marked ready |
| `ShellRuns.WokenWaiterStarves` | qinke/tShell-Procss-Lab/tShell.c:511-536 | whatever commands follow that run, the waiter never runs |
| `ShellRuns.BlockedTwiceQueuedStays` | qinke/tShell-Procss-Lab/tShell.c:484-507 | the releaser, queued twice, stays current when its next request blocks it |
| `ShellEffects.TimedOutRotates` | qinke/tShell-Procss-Lab/tShell.c:609-617 | a time-out moves the head of the highest list behind the others of that list, changes no other list, and the next one runs |
| `ShellEffects.EveryEntryRuns` | qinke/tShell-Procss-Lab/tShell.c:609-617 | over as many time-outs as the highest list has entries each runs once, in order, and then every list is as it was |
| `ShellEffects.CreatedJoins` | qinke/tShell-Procss-Lab/tShell.c:320-354 | the new process is last in its list and last child of the current one, which goes on unless the new one has a higher list; nothing else changes |
| `ShellEffects.RequestedMoves` | qinke/tShell-Procss-Lab/tShell.c:470-509 | units that are there go to the current process; the shell ends exactly when more are asked for than there are and ever were; else the process goes from the head of its list to the end of the wait list and the head of the highest list runs |
| `ShellEffects.TakenIsCut` | qinke/tShell-Procss-Lab/tShell.c:225-239 | freeing takes the first n nodes of the resource, or all there are, and leaves every other node in its place |
| `ShellEffects.ReleasedMoves` | qinke/tShell-Procss-Lab/tShell.c:511-536 | the waiters are served in order up to the first whose wish exceeds what is left; the releaser gets the sum of their wishes and is queued once more for each; the shell ends exactly when it holds nothing |
| `ShellEffects.OrderIsExact` | qinke/tShell-Procss-Lab/tShell.c:432-442 | the processes visited are exactly those a chain of children leads to |
| `ShellEffects.FoundIsFirst` | qinke/tShell-Procss-Lab/tShell.c:360-393 | a name is found exactly when some ready list has it, at its first place in the highest such list |
| `ShellEffects.DestroyedTree` | qinke/tShell-Procss-Lab/tShell.c:395-466 | the process found and all its descendants, and no other, lose what they hold; each takes one entry of its name off the list of its priority while there is one, and entries of other names keep their order |
| `ShellEffects.DestroyedIsOut` | qinke/tShell-Procss-Lab/tShell.c:449-461 | a destroyed process whose name was at most once in its list is in no ready list afterwards |
| `TinyShell.Shell.RemoveReady` | qinke/tShell-Procss-Lab/tShell.c:244-278 | removing the current process takes the first node of its ready list |
| `TinyShell.Shell.FindPcb` | qinke/tShell-Procss-Lab/tShell.c:292-312 | the head of the highest ready list that is not empty |
| `TinyShell.Shell.RemoveNodes` | qinke/tShell-Procss-Lab/tShell.c:225-239 | the unlinking loop removes the first n nodes of the resource and keeps the order of the rest |
| `TinyShell.Shell.Create` | qinke/tShell-Procss-Lab/tShell.c:320-354 | the new process is last child of the current one and last in its ready list |
| `TinyShell.Shell.Request` | qinke/tShell-Procss-Lab/tShell.c:470-509 | allocates, blocks, or exits, as the state functions say |
| `TinyShell.Shell.Release` | qinke/tShell-Procss-Lab/tShell.c:511-536 | frees, then serves the wait list without shortening it, or exits when nothing is held |
| `TinyShell.Shell.KillTree` | qinke/tShell-Procss-Lab/tShell.c:432-466 | the processes of the tree are emptied in post-order, each returning its nodes and losing its ready node; it terminates on every tree |
| `TinyShell.Shell.FindNamePcb` | qinke/tShell-Procss-Lab/tShell.c:360-393 | the first ready process of that name, highest list first |
| `TinyShell.Shell.Destroy` | qinke/tShell-Procss-Lab/tShell.c:395-405 | the named process's tree is destroyed and the scheduler runs, or nothing happens |
| `TinyShell.Shell.TimeOut` | qinke/tShell-Procss-Lab/tShell.c:609-617 | the current process goes to the end of its ready list and the scheduler runs, as the state function says |
| `TinyShell.Serve` | qinke/tShell-Procss-Lab/tShell.c:619-720 | the command loop on any run of fair commands ends with every unit accounted for |

## Left out

- Kernel registration, `/proc`, timers, wait queues, interrupt wiring, printing and file output: foreign calls around the modelled code.
- Freed memory and leaks: node and packet memory is not tracked, except that scull's trim frees every allocation once; `extract_small` and tShell leak, which the model does not show.
- BlockAllocator.SuperBlock.constructor: the initial used size is positive, as super block, inode table and journal make it; with 0 the source would insert a node that ends before it begins.
- BlockAllocator.SuperBlock.FreeBlock: list nodes are values at positions of a sequence, so aliasing of node pointers is not captured; a hint is valid only until the next change of the list, as the source's comment says.
- BlockAllocator.SuperBlock.NewBlock: zeroing the new block and the lock around the call are not modelled.
- `pmfs_free_blocknode` and the inode and truncate code that issue the frees: plumbing.
- `sleep`, `rand` and thread creation: any interleaving is allowed, so timing does not matter.
- Scull.Device.Write: `f_pos` plus the count stays below 2^63. Sizes that are not positive, a wrapped product of 0 and a negative item number are outside: the source divides by zero, indexes backwards or walks the list without end.
- Scull.Globals.Ioctl: the pipe size commands and the check of the command word are not modelled; after a faulting fetch the size may be anything.
- Scullp.Device.Follow: kmalloc of a list item succeeds; the source dereferences NULL when it does not.
- Scullp.Device.Read: at the very end of the file the position must compute a place, as the source goes on to compute it; array lengths that are not positive are outside.
- Scullp.Device.Write: order 0 only, which mapping requires and list items get; other orders have the same shape.
- scullc, sculld and scullv: near-copies of scullp.
- Snull.Driver.HwTx: address rewriting, the checksum and the statistics are not modelled, and the status word and the enabling of receive interrupts are over-approximated by letting any thread receive at any time.
- SnullRuns.EveryRunConserves: transmit time-outs, the simulated lockup, close and teardown are no steps of a run.
- SnullRuns.EveryFrameArrives: a frame counts as received when its packet leaves the queue; its loss for lack of a socket buffer shows in `Poll` only.
- Snull.Driver.GetTxBuffer: a transmit on a running queue with an empty pool, where the source dereferences NULL, is no step.
- TopPages.Compact: the page count given is at least the number of pages in use, because the source would write past its arrays otherwise.
- NvmTables.Device.WriteHelper: the request ends within the allocated bitmap; past it the source writes outside its table. The spin lock and the 32-bit truncation of sector numbers that do not fit are not modelled.
- `exchange_pbi`, `wear_level` and the block-device request path: reached only from commented-out code, or plumbing.
- LabParser.MainProcedure: reading the token file, writing the report files and the final check for leftover tokens; Python's recursion limit. After a syntax error the tables are stated step by step (`Var`, `NewFunction`), not from the token list.
- LabParser.Parser.WriteStatement: message texts, of which only the kind and the line are kept.
- `lab_lex.c`, `lex.py`, `lab_parser.c` and the generated scanner: the token list is the input.
- ScullPipe.Pipe.constructor: the buffer size is positive and held constant; resizing by ioctl and re-opening, which resets the pointers, are not modelled.
- ScullPipe.Pipe.Read: sleeping and signals; an empty pipe is a result and the caller tries again.
- RobustIo.Rio.ReadLine: lengths that do not fit an int; `rio_readn` and `rio_writen`, the unbuffered forms.
- ShellState.Without: names are compared without the 16-byte limit of the source's buffers.
- TinyShell.Serve: text parsing and output; a run ends where a command exits or no process is ready, where the source dereferences NULL. Uninitialised list headers count as empty.
- `funds/`, the remaining drivers and the older copies of the shell: bounds checks, plumbing or data.
