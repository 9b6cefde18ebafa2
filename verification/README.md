# Cheat Engine: page tables, trace buffers, locks and scans

A Dafny model of the parts of Cheat Engine's kernel driver (DBKKernel), its UEFI loader (DBVM UEFI) and its
Linux/Android server (ceserver) where something can go subtly wrong: skipping page-table scans, tables that hardware
walks, buffers shared with hardware, locks, virtualised debug registers and chunked memory access. Each module models
the code branch by branch and proves what the code is for.

`dafny verify dfyconfig.toml` checks everything.

| module | what it is about |
|---|---|
| `Paging` | physical memory as 8-byte entries, and the four-level page walk of the Intel SDM Volume 3A, section 4.5 |
| `SelfMap` | the page-table window: index arithmetic and the four entry pointers |
| `RegionScan` | `FindFirstDifferentAddress` against a linear scan over 2^36 page indexes |
| `PageWalk` | the walk over all present pages, the list of accessed ranges, clearing accessed bits |
| `TableBuilders` | the tables DBVM is started with, read back through the same page walk |
| `PatternScan` | the chunked masked byte-pattern scan against a scan that looks at every address |
| `TopaLayout` | Intel PT output tables, the hardware that walks them, and the size recovered from its pointers |
| `TraceBuffers` | the double buffer between hardware, DPC, writer thread and flushers |
| `TraceFlush` | what a call of `ultimap2_flushBuffers` promises about that buffer |
| `TraceProgress` | that its parties come to rest |
| `BlockPool` | the semaphore/mutex/event pool of data blocks |
| `PoolProgress` | that its producers and workers finish |
| `ReentrantLock` | the re-entrant per-CPU spinlock |
| `DebugRegisters` | the debug registers a guest sees while the debugger borrows the unused ones |
| `WordAccess` | the word-by-word ptrace loops |
| `PagedRegions` | the growing region list and the extraction of present pages |

Loops and in-place updates are methods proved against a specification; concurrent code is a state machine whose runs
are all interleavings of single accesses, and its theorems hold for runs of every length.

Where the code does not do what its name or the surrounding code suggests, the model follows the code and states for
exactly which inputs the promise holds:

- `FindFirstDifferentAddress` does not reset `pagetableindex` when it leaves a 2 MB page (DBKKernel/memscan.c:1066-1079).
  Started strictly inside one it can jump over pages: `ScanIsLinearExactly`, `StartsExactly`, `InsideLargePage`.
- It does not stop where a read-write region turns read-only (DBKKernel/memscan.c:1062, 1129): `StopsAtChangesExactly`,
  `ReportsChangeExactly`, `MissesLostWrite`.
- `enumAllAccessedPages` returns the list's byte size in 32 bits; a client that hands it back gets the whole list only
  below 2^27 ranges: `EnumerateAndFetch`, `MaxCountOf`, `TooManyRanges`.
- `AOBScan` reads its first chunk at address 0 when a search starts at 0 inside a mapping, and reads there give nothing
  (Cheat Engine/ceserver/api.c:3296): `ScanIsSimpleScanExactly`, `FirstChunkIsLost`.
- The double buffer is safe as long as no thread gets past the wait while another is between its own wait and the end
  of the swap, but nothing keeps `bufferWriterThread` and `ultimap2_flushBuffers` from it: `SafeExactlyWhileSwapsApart`,
  `OverlapCollides`.
- Even then `ultimap2_flushBuffers` can return with bytes unsaved if it begins just before another such call, or
  `ultimap2_pause`, clears `flushallbuffers` (DBKKernel/ultimap2.c:739, 1307): `FlushSavesExactly`, `FlushMissesAByte`.
- The lock is safe only if the memory of a free lock does not name a CPU. Zeroed memory names CPU 0, as the global
  `StacksCS` does until its first release: `LockWorksExactly`.
- The debug-register handler emulates every operand but RSP, which it neither reads nor restores: `EmulatesExactly`.
  It forces bit 13 of DR6 and DR7 to 0, which a processor keeps: `KeepsBit13Exactly`.
- `WriteProcessMemory` counts whole words without looking whether they were written: `CountIsHonestExactly`,
  `CountsALostWord`, `WritesAllExactly`. If the last word cannot be read it is written all the same, with ones behind
  the buffer's end: `WritesNothingElseExactly`, `SpillsOver`.
- The driver's loader accepts image files of up to 4 MB, but from 0x3E9000 bytes on the tables it builds lie behind its
  allocation (DBKKernel/vmxoffload.c:342, 373-398): `TablesFitExactly`.
- The mask in the UEFI loader's free-address computation clears eight bits, not twelve (DBVM UEFI/dbvmoffload.c:148);
  the tables are page-aligned exactly for images that end in the first 256 bytes of a page: `FreeStartAlignedExactly`.
- `tl.index = tl.index++` (DBKKernel/ultimap2.c:1247) is modelled as an increment, and `csLeave` enables interrupts before
  it releases the lock (DBKKernel/DBKFunc.c:276-280).

## Model

| member | source | states |
|---|---|---|
| SelfMap.JoinThenSplit | DBKKernel/memscan.c:20-71 | splitting the address joined from four 9-bit indexes gives the indexes back, and the address is canonical |
| SelfMap.SplitThenJoin | DBKKernel/memscan.c:20-71 | joining the indexes and offset of any canonical address gives the address back |
| SelfMap.PtePointer | DBKKernel/memscan.c:92-134 | with a self-mapping PML4 slot, walking the PTE pointer through the tables ends at exactly the PTE of the address, or nowhere if the tables above it are absent |
| SelfMap.PdePointer | DBKKernel/memscan.c:92-134 | the same for the PDE pointer |
| SelfMap.PdptePointer | DBKKernel/memscan.c:92-134 | the same for the PDPTE pointer |
| SelfMap.Pml4ePointer | DBKKernel/memscan.c:92-134 | the same for the PML4E pointer, which is always mapped |
| SelfMap.ReadsThroughWindow | DBKKernel/memscan.c:691-701 | reading through the four pointers gives the entries of the page walk, each one once the entries above it are present |
| SelfMap.PteArray | DBKKernel/memscan.c:1088-1102 | indexing the PTE pointer by k reaches the entry k places on in the same page table |
| SelfMap.PdeArray | DBKKernel/memscan.c:1027-1041 | the same for the PDE pointer |
| SelfMap.PdpteArray | DBKKernel/memscan.c:988-1003 | the same for the PDPTE pointer |
| SelfMap.Pml4Array | DBKKernel/memscan.c:955-970 | the same for the PML4E pointer |
| RegionScan.FindFirstDifferentAddress | DBKKernel/memscan.c:897-1153 | terminates; `protection` is that of the start's page and the result is the least later differing page that is not one it jumps over, 0 exactly when there is none |
| RegionScan.ScanIsLinear | DBKKernel/memscan.c:897-1153 | from a start not strictly inside a 2 MB page the result is that of the linear scan |
| RegionScan.ScanIsLinearExactly | DBKKernel/memscan.c:1066-1079 | from any start, the two agree if and only if the first differing page is not among those jumped over |
| RegionScan.StartsExactly | DBKKernel/memscan.c:1066-1079 | the starts from which the scan is linear for all tables are those on a 2 MB boundary and those in the last 2 MB |
| RegionScan.InsideLargePage | DBKKernel/memscan.c:1066-1079 | for every other start, concrete tables on which the scan returns the wrong page |
| RegionScan.LinearResultUnique | DBKKernel/memscan.c:897-901 | the linear scan has one result, so agreeing with it determines the value returned |
| RegionScan.StopsAtChangesExactly | DBKKernel/memscan.c:1062-1063 | over all tables and starts of one protection the scan stops exactly at pages of another, if and only if that protection is not read-write |
| RegionScan.ReportsChangeExactly | DBKKernel/memscan.c:1125-1130 | a linear result is the first page whose protection changes if and only if that change is not from read-write to read-only |
| RegionScan.MissesLostWrite | DBKKernel/memscan.c:1062-1130 | concrete tables on which every scan from address 0 returns the second change of protection instead of the first |
| PageWalk.PageScanner.WalkPagingLayout | DBKKernel/memscan.c:681-762 | for every 64-bit limit, terminates with wrap-around, and the recorded calls of the callback are one for each present leaf that starts below the limit, in order, and no others |
| PageWalk.PageScanner.NextAddress | DBKKernel/memscan.c:687-760 | one round stays on a boundary of the level being skipped, advances, and makes exactly the callback calls of the pages passed, one at most |
| PageWalk.LeavesAscending | DBKKernel/memscan.c:681-762 | the pages passed to the callback are disjoint and ascend |
| PageWalk.LeavesComplete | DBKKernel/memscan.c:681-762 | an entry is passed for a page if and only if the page walk of that page ends at that entry |
| PageWalk.PageScanner.StoreAccessedRange | DBKKernel/memscan.c:785-808 | extends the newest range or adds one, as the accessed bit and adjacency say |
| PageWalk.StoreAllCollects | DBKKernel/memscan.c:785-808 | over ascending pages the list is exactly the accessed addresses, disjoint, descending and with gaps, and the counter is its length |
| PageWalk.EnumerateExact | DBKKernel/memscan.c:811-831 | for all tables the enumeration lists the maximal runs of accessed present pages and changes no entry |
| PageWalk.PageScanner.EnumAllAccessedPages | DBKKernel/memscan.c:811-831 | the list afterwards is exactly those runs, its size field is its length, and the byte size returned is the 32-bit product |
| PageWalk.PageScanner.GetAccessedPageList | DBKKernel/memscan.c:833-863 | copies the list, or as much as fits the 32-bit size, leaves the rest of the buffer alone and empties the list |
| PageWalk.CopiesWhatFits | DBKKernel/memscan.c:833-863 | a buffer of any size below 2 GB gets as many whole ranges of the list as fit |
| PageWalk.PageScanner.EnumerateAndFetch | DBKKernel/IOPLDispatcher.c:2105-2120 | asking for the size and fetching with it delivers the whole list if and only if it has fewer than 2^27 ranges |
| PageWalk.MaxCountOf | DBKKernel/memscan.c:824-836 | for every list length, the count recovered from the returned byte size is that length below 2^27, and negative from there up to 2^28 |
| PageWalk.TooManyRanges | DBKKernel/memscan.c:824-836 | concrete tables with 2^30 accessed ranges: the byte size returned is 0 and nothing is fetched with it |
| PageWalk.CounterFits | DBKKernel/memscan.c:783-819 | the list has at most 2^30 ranges, so its 32-bit counter does not overflow |
| PageWalk.PageScanner.MarkAllPagesAsNeverAccessed | DBKKernel/memscan.c:866-893 | clears the accessed bit of every leaf entry below the limit; the list is untouched |
| PageWalk.MarkAllIs | DBKKernel/memscan.c:866-893 | marking clears that bit of leaf entries and no other bit of any entry |
| PageWalk.MarkIs | DBKKernel/memscan.c:866-893 | after marking no page counts as accessed and every entry that maps no page is unchanged |
| PageWalk.MarkTouchEnumerate | DBKKernel/memscan.c:803-844 | mark, touch any set of entries, enumerate: exactly the pages whose leaf entry was touched are listed |
| PageWalk.MarkAccessEnumerate | DBKKernel/memscan.c:803-844 | mark, access any set of pages that own their leaves, enumerate: exactly the pages that share a leaf with an accessed one are listed |
| PageWalk.TreeOwnsLeaves | DBKKernel/memscan.c:803-844 | pages own their leaves whenever the tables are a tree apart from their own window and the accesses lie outside the window |
| PageWalk.SelfMappedOwnsLeaves | DBKKernel/memscan.c:803-844 | a self-mapped address space with mapped pages in which every set of accesses outside the window does so |
| PageWalk.OwnReadsUnseen | DBKKernel/memscan.c:691-760 | the accessed bits set by the walk's own reads through the window belong to no entry that maps a page below the limit, so they change neither what is accessed nor what is listed |
| TableBuilders.InitializeDBVM | DBVM UEFI/dbvmoffload.c:148-242 | builds the five tables behind the image and writes nothing outside the 22 pages there |
| TableBuilders.UefiTranslation | DBVM UEFI/dbvmoffload.c:175-242 | through the page walk, addresses below 4 MB translate to themselves, the next 4 MB to the image, and no other address to anything |
| TableBuilders.FreeStartAligned | DBVM UEFI/dbvmoffload.c:148 | for page-aligned image ends the mask computation gives the page after the image |
| TableBuilders.FreeStartAlignedExactly | DBVM UEFI/dbvmoffload.c:148 | for every image end below 2^60 the tables are page-aligned if and only if the image ends in the first 256 bytes of a page |
| TableBuilders.TablesFitExactly | DBKKernel/vmxoffload.c:342-398 | of the files the loader accepts, exactly those below 0x3E9000 bytes leave room for the tables in the allocation |
| TableBuilders.BuildVmmTables | DBKKernel/vmxoffload.c:384-450 | the driver's tables over an allocation whose pages lie anywhere; only the five table pages are written |
| TableBuilders.DriverTranslation | DBKKernel/vmxoffload.c:384-450 | identity below 4 MB, the allocation page by page above, its first stack page and everything else unmapped |
| TableBuilders.WritableExactly | DBVM UEFI/dbvmoffload.c:175-242 | in either kind of tables the window can be written, and the pages below 4 MB in the loader's but not in the driver's |
| TableBuilders.BuildTemporaryTables | DBKKernel/vmxoffload.c:544-566 | fills four tables with one target each and writes nothing else |
| TableBuilders.TemporaryTranslation | DBKKernel/vmxoffload.c:544-566 | every address translates into the one page, at its own page offset |
| TableBuilders.TemporaryReadOnly | DBKKernel/vmxoffload.c:544-566 | none of those addresses can be written |
| PatternScan.VirtualQueryEx | Cheat Engine/ceserver/api.c:3819-3888 | from the page of the address on, reports the mapping around it up to its end, or the inaccessible gap up to where the next mapping starts, or that nothing follows |
| PatternScan.AOBScan | Cheat Engine/ceserver/native-api.c:12-111 | terminates in 64-bit arithmetic; stores the first MAX_HIT_COUNT hits in ascending order and returns their number; rejects bad arguments with 0 |
| PatternScan.ScanChunk | Cheat Engine/ceserver/native-api.c:60-98 | after a chunk exactly the addresses up to the next chunk, or the end of the region, have been looked at |
| PatternScan.MatchesAt | Cheat Engine/ceserver/native-api.c:78-86 | true exactly when every byte not masked by '?' is equal |
| PatternScan.HitsExact | Cheat Engine/ceserver/native-api.c:25-109 | the hits are strictly ascending and are exactly the aligned matches inside one readable mapping of the wanted protection, clipped to the end |
| PatternScan.HitMeans | Cheat Engine/ceserver/native-api.c:25-109 | what a hit is, from the bytes, the mask, the mappings and the raster alone |
| PatternScan.WantedExactly | Cheat Engine/ceserver/native-api.c:46 | a mapping is searched if and only if its protection shares a flag with the one asked for |
| PatternScan.WideningKeeps | Cheat Engine/ceserver/native-api.c:46 | asking for more protections loses no hit |
| PatternScan.ScanIsSimpleScan | Cheat Engine/ceserver/native-api.c:25-109 | unless the search starts at 0 in a process with a mapping there, the chunked scan finds what the scan of every address finds |
| PatternScan.ScanIsSimpleScanExactly | Cheat Engine/ceserver/native-api.c:25-109 | for all searches, the two agree if and only if no match lies in the unreadable first chunk |
| PatternScan.FirstChunkIsLost | Cheat Engine/ceserver/api.c:3296-3297 | a concrete process and search in which the match at address 0 is missed |
| TopaLayout.HeaderFits | DBKKernel/ultimap2.c:974-984 | the reserved tables suffice for every page still to be listed |
| TopaLayout.HeaderCountIs | DBKKernel/ultimap2.c:974-984 | one table for every started 511 whole pages, and one to spare when nothing is over |
| TopaLayout.FillEntries | DBKKernel/ultimap2.c:1236-1259 | one entry per buffer page in order, a link exactly at every index 511 mod 512, and every table in the lookup with its number, within the reserved size |
| TopaLayout.RequestInterrupts | DBKKernel/ultimap2.c:1263-1290 | sets the INT bits of exactly the entries chosen and changes nothing else |
| TopaLayout.InterruptsWellPlaced | DBKKernel/ultimap2.c:1263-1290 | for every number of entries, INT is never on a link nor on the last entry if there are several, and is on at least one unless PMIs are off |
| TopaLayout.InterruptsFrom | DBKKernel/ultimap2.c:1261-1290 | in every finished table INT is on the entry at 90%, or on the one before if that is a link, from there on every second entry up to the last but one that is no link, and nowhere else; nowhere at all if PMIs are off |
| TopaLayout.SetupToPA | DBKKernel/ultimap2.c:1211-1291 | the finished tables: pages, links, STOP on the last data entry only, INT, and the lookup table |
| TopaLayout.EveryPageOnce | DBKKernel/ultimap2.c:1236-1259 | each buffer page has exactly one entry and the entries keep the pages' order |
| TopaLayout.HardwareAt | DBKKernel/ultimap2.c:1236-1259 | hardware walking the tables puts trace byte n at byte n of the buffer, for every n |
| TopaLayout.SizeRecovered | DBKKernel/ultimap2.c:342-353 | after n bytes, for every n up to the whole buffer, the size formula gives n, before and after a link is followed |
| TraceBuffers.StepKeeps | DBKKernel/ultimap2.c:477-605 | every step of hardware, DPC, writer and any number of flushers keeps the invariant, unless a thread is past the wait while the DPC hands the buffer over |
| TraceBuffers.TableOffsetIs | DBKKernel/ultimap2.c:506 | the table offset the DPC compares is, for every number of bytes up to the whole buffer, the one of hardware that stored them through the tables of `setupToPA` |
| TraceBuffers.SwapsExactly | DBKKernel/ultimap2.c:499-581 | a queued DPC swaps the buffers if and only if there was an interrupt, everything is to be flushed, or that offset is at least 2; otherwise it does nothing |
| TraceBuffers.SafeWhileSwapsApart | DBKKernel/ultimap2.c:326-397 | for any number of flushers, in every run in which at most one swap is due at a time, the hardware and the writer use different buffers, and saved, pending and active bytes are the recorded bytes in order |
| TraceBuffers.SafeWhilePassesApart | DBKKernel/ultimap2.c:586-605 | the same in every run in which no two threads are between the end of the wait and the end of the DPC |
| TraceBuffers.SafeExactlyWhileSwapsApart | DBKKernel/ultimap2.c:586-605 | after any run that kept swaps apart and any further step, the file stays right in all continuations in which no further thread gets past the wait, if and only if swaps are still apart |
| TraceBuffers.OverlapCollides | DBKKernel/ultimap2.c:586-605 | a run in which a flush of `bufferWriterThread` overlaps one of `ultimap2_flushBuffers`, the hardware gets the buffer being saved, and overwrites a byte that is lost |
| TraceFlush.CallStays | DBKKernel/ultimap2.c:731-740 | each step of any party keeps what a call under way relies on, and when it returns its bytes are saved |
| TraceFlush.FlushSavesExactly | DBKKernel/ultimap2.c:713-754 | for a call made after any run that kept swaps apart: it returns only with everything recorded before it saved, whatever the others do as long as swaps stay apart, if and only if it cannot be overtaken |
| TraceFlush.OneOrTwoPasses | DBKKernel/ultimap2.c:731-740 | in every run a call of `ultimap2_flushBuffers` makes two passes before it returns, one of `bufferWriterThread` makes one |
| TraceFlush.FlushMissesAByte | DBKKernel/ultimap2.c:731-740 | a run in which a call begins before another clears `flushallbuffers` and returns with a byte recorded before it unsaved |
| TraceProgress.FlusherMovesExactly | DBKKernel/ultimap2.c:586-605 | a flushing thread is held up only by a buffer that is not ready or a DPC that is queued or runs |
| TraceProgress.SomebodyMoves | DBKKernel/ultimap2.c:477-605 | as long as a flush, a DPC or a save is under way some party can make a step that keeps swaps apart |
| TraceProgress.BusyEnds | DBKKernel/ultimap2.c:477-605 | whoever moves and in whatever order, the work begun ends after a bounded number of steps |
| TraceProgress.RunsComeToRest | DBKKernel/ultimap2.c:477-605 | after every run that kept swaps apart the parties can come to rest: all calls return, the buffer is ready, and all but the hardware's buffer is saved |
| BlockPool.StepKeeps | DBKKernel/ultimap.c:115-203 | every step of a producer or consumer keeps the pool's invariant |
| BlockPool.PoolNeverRunsDry | DBKKernel/ultimap.c:289-335 | in every run a producer past the semaphore finds a block, no release exceeds the limit, and available blocks = semaphore + producers past it + continues not yet released |
| BlockPool.EveryBufferOnce | DBKKernel/ultimap.c:289-335 | every buffer is with its producer, in a block, or delivered, and delivered at most once |
| BlockPool.BlocksAreNotShared | DBKKernel/ultimap.c:115-203 | no two parties have the same block, and no block in use is available |
| BlockPool.RunKeeps | DBKKernel/ultimap.c:115-335 | the invariant holds after every interleaving of any number of producers and consumers |
| BlockPool.InitInv | DBKKernel/ultimap.c:690-718 | the initialised pool satisfies the invariant, for any number of blocks and parties |
| PoolProgress.ContinueReleases | DBKKernel/ultimap.c:125-131 | ultimap_continue ends with the semaphore one higher and no exception |
| PoolProgress.ProducerMovesExactly | DBKKernel/ultimap.c:289-335 | a producer is held up only at the semaphore with no block left, or at the mutex while somebody holds it |
| PoolProgress.ConsumerMovesExactly | DBKKernel/ultimap.c:134-203 | a worker is held up only waiting for a block, or at the mutex while somebody holds it |
| PoolProgress.SomebodyMoves | DBKKernel/ultimap.c:115-335 | with a block and a worker there is no deadlock |
| PoolProgress.BusyEnds | DBKKernel/ultimap.c:115-335 | whoever moves and in whatever order, the work begun ends after a bounded number of steps |
| PoolProgress.EveryBufferDelivered | DBKKernel/ultimap.c:115-335 | after every run the parties can finish: all blocks are back, the semaphore counts them all, and every buffer ever produced has been delivered |
| ReentrantLock.StepKeeps | DBKKernel/DBKFunc.c:231-284 | every access of any CPU keeps the lock's invariant |
| ReentrantLock.LockWorks | DBKKernel/DBKFunc.c:231-284 | in every run at most one CPU is inside, `cpunr` names a CPU only while it owns the lock, `lockcount` is its depth, and the outermost leave restores the interrupt flag |
| ReentrantLock.EnterAlone | DBKKernel/DBKFunc.c:231-266 | csEnter on a free lock, undisturbed, takes it: the fields name the CPU, one level and its interrupt flag, and interrupts are off |
| ReentrantLock.LeaveAlone | DBKKernel/DBKFunc.c:268-286 | the outermost csLeave, undisturbed, frees the lock: `locked` 0, `cpunr` -1, no level, interrupts as they were |
| ReentrantLock.NestAlone | DBKKernel/DBKFunc.c:247-257 | a further csEnter of the owner only counts one level up |
| ReentrantLock.UnnestAlone | DBKKernel/DBKFunc.c:268-286 | and its csLeave one level down |
| ReentrantLock.GoesOnExactly | DBKKernel/DBKFunc.c:231-284 | inside the two routines only a taken lock holds a CPU up |
| ReentrantLock.TwoInside | DBKKernel/DBKFunc.c:251-256 | if a free lock's `cpunr` names one of several CPUs, a run with two of them inside |
| ReentrantLock.LockWorksExactly | DBKKernel/DBKFunc.c:231-284 | mutual exclusion holds in all runs if and only if a free lock's `cpunr` names none of several CPUs |
| DebugRegisters.Debugger.constructor | DBKKernel/debugger.c:283-292 | the guest at first sees the processor's own registers, and the next access will trap |
| DebugRegisters.Debugger.SetGDBreakpoint | DBKKernel/debugger.c:477-488 | stores the breakpoint; the guest's view is unchanged |
| DebugRegisters.Debugger.UnsetGDBreakpoint | DBKKernel/debugger.c:470-475 | deactivates the breakpoint and says whether it was active; the guest's view is unchanged |
| DebugRegisters.Debugger.Decode | DBKKernel/debugger.c:920-937 | finds length, debug register and general register of every MOV DR with an optional REX prefix |
| DebugRegisters.Assembled | DBKKernel/debugger.c:920-937 | the bytes 0F 21 or 23, 0xC0 + 8 * d + g, with or without a REX prefix, decode to debug register d and general register g, or g + 8 with REX.B |
| DebugRegisters.InSavedOrder | DBKKernel/interruptHook.h:8 | the saved stack holds the guest's registers in the order RAX, RBX, RCX, RDX, RSI, RDI, RBP, RSP, R8 to R15 |
| DebugRegisters.RegisterFile | DBKKernel/debugger.c:942-983 | DR4 is DR6, DR5 is DR7, the others are their own; a write is read back from its register alone |
| DebugRegisters.Debugger.EmulateWrite | DBKKernel/debugger.c:1139-1207 | a write changes the guest's view as it would change unborrowed registers, DR5 being DR7 and bit 10 on, except that bit 13 of DR6 and DR7 becomes 0 |
| DebugRegisters.Debugger.Handler | DBKKernel/debugger.c:883-1229 | for every operand, what a trapped access does to the guest's view; inside the epilogue it changes nothing |
| DebugRegisters.EmulatesExactly | DBKKernel/debugger.c:1002-1088 | the emulation is the instruction for every guest if and only if the operand is not RSP |
| DebugRegisters.EmulatesRsp | DBKKernel/debugger.c:1002-1088 | with RSP as operand a read changes only RIP and a write stores zeros |
| DebugRegisters.KeepsBit13Exactly | DBKKernel/debugger.c:1163-1204 | in any run the guest's machine is, at every point, one that keeps bit 13 of DR6 and DR7, if and only if the guest never writes that bit |
| DebugRegisters.Debugger.PlaceBreakpoints | DBKKernel/debugger.c:1629-1702 | as many breakpoints are placed as are active, or as there are registers with both enable bits clear, in order; all other registers are the guest's |
| DebugRegisters.Debugger.Epilogue | DBKKernel/debugger.c:1557-1741 | the guest's view is unchanged, the breakpoints are planted and general detect is armed again |
| DebugRegisters.Debugger.Trap | DBKKernel/debugger.c:883-1740 | one trapped access is an emulated one, and so, unless its operand is RSP, an execution on unborrowed registers without bit 13 |
| DebugRegisters.Debugger.Run | DBKKernel/debugger.c:883-1740 | the same for any run of accesses with breakpoints set and removed in between |
| DebugRegisters.ReadsLastWritten | DBKKernel/debugger.c:883-1229 | in every run each debug register reads as what was last written to it |
| DebugRegisters.OnlyTheTarget | DBKKernel/debugger.c:942-1227 | an access changes no general register but its destination and passes the instruction |
| DebugRegisters.GuestRegistersKept | DBKKernel/debugger.c:1651 | a register the guest enabled locally or globally keeps address, enable, LEN and RW |
| DebugRegisters.BreakpointsPlanted | DBKKernel/debugger.c:1629-1702 | the k-th active breakpoint is in the k-th register with both enable bits clear, enabled locally, with its address, type and length; registers left over are the guest's |
| WordAccess.Process.WriteProcessMemory | Cheat Engine/ceserver/api.c:2969-3013 | bytes mapped from the start of their word on become the buffer's; ones follow them if the last word cannot be read; every other byte of memory stays; the count is that of `Written`, which depends on the last word alone |
| WordAccess.Process.ReadProcessMemory | Cheat Engine/ceserver/api.c:3416-3461 | fills the buffer from the words before the first inaccessible one, and leaves the rest of it alone |
| WordAccess.ReadableExactly | Cheat Engine/ceserver/api.c:3427-3461 | the count read covers accessible words only and ends at an inaccessible one unless everything was read |
| WordAccess.ReadableAll | Cheat Engine/ceserver/api.c:3427-3461 | everything is read if and only if every word is accessible |
| WordAccess.WriteIsExact | Cheat Engine/ceserver/api.c:2969-3013 | when every word is accessible, memory changes exactly in the buffer's range, for every length |
| WordAccess.WritesAllExactly | Cheat Engine/ceserver/api.c:2980-3009 | for every length, all of the buffer arrives whatever was in memory if and only if every byte it goes to is mapped |
| WordAccess.WritesNothingElseExactly | Cheat Engine/ceserver/api.c:2989-3009 | for every length, no byte outside the buffer's range changes whatever was in memory, if and only if the last word can be read or is not mapped beyond the buffer's end |
| WordAccess.SpillsOver | Cheat Engine/ceserver/api.c:2989-3009 | three bytes over five mapped ones: the two behind them become ones, and nothing is counted |
| WordAccess.CountIsHonestExactly | Cheat Engine/ceserver/api.c:2976-3012 | for every length, all bytes the returned count covers have arrived, whatever was in memory, if and only if every word before the last is accessible |
| WordAccess.CountsALostWord | Cheat Engine/ceserver/api.c:2976-2986 | sixteen bytes over an unmapped and a mapped word: sixteen are counted and eight are lost |
| WordAccess.ReadsBackWhatWasWritten | Cheat Engine/ceserver/api.c:2969-3013 | what can be read back of a transfer equals the buffer, for every pattern of accessible words |
| PagedRegions.RegionList.AddToRegionList | Cheat Engine/ceserver/api.c:3534-3556 | appends the entry, keeps all earlier ones, and always leaves room for one more |
| PagedRegions.RegionList.AddBatch | Cheat Engine/ceserver/api.c:3695-3727 | adds exactly the runs of present pages of one page-map read |
| PagedRegions.RegionList.AddPresentPages | Cheat Engine/ceserver/api.c:3669-3731 | adds the runs of a mapping, 512 pages at a time |
| PagedRegions.RegionList.VirtualQueryExFull | Cheat Engine/ceserver/api.c:3618-3741 | the list afterwards is the wanted entries of all mappings, appended to what was there |
| PagedRegions.RunsInMeans | Cheat Engine/ceserver/api.c:3695-3727 | the runs are in order, cover exactly the present pages, and none can be extended |
| PagedRegions.BatchesMean | Cheat Engine/ceserver/api.c:3669-3731 | the same over a whole mapping, except that runs are split where a batch of 512 pages ends |
| PagedRegions.FullListMeans | Cheat Engine/ceserver/api.c:3618-3741 | over all mappings the entries are sorted and disjoint, and a page is listed if and only if its mapping does not begin at 0, is not shared if those are unwanted, is dirty if only those are wanted, and the page is present if only those are wanted |
| PagedRegions.EntriesDescribe | Cheat Engine/ceserver/api.c:3644-3737 | every entry lies in one mapping and has its protection and type, is the whole of it outside paged mode, and with `noshared` is not of type MEM_MAPPED |

## Left out

- FindFirstDifferentAddress: tables with 1 GB pages are excluded, because the code's PDPTE type has no size bit and would follow such an entry as a table.
- WalkPagingLayout: entries are read by region number instead of through the window's pointers; `ReadsThroughWindow` says the pointers read those entries, and `OwnReadsUnseen` that the reads leave no trace.
- MarkAccessEnumerate: accesses through an entry that also maps a page they do not go to, such as those to the window itself, are excluded; such an access sets the bit of a page nobody accessed.
- EnumerateAndFetch: both requests are made with nothing in between.
- PtePointer: a PDPTE of a present 1 GB page above the address is excluded, because no PTE exists then.
- The 32-bit and PAE variants of all page-table code, attaching to a process, exceptions during a walk, and finding the page-table base.
- BuildVmmTables: image files from 0x3E9000 bytes on, whose tables lie behind the allocation; what is there is not known. The GDT, start-up stack and descriptors written beside the tables are not part of this model; only what the page walk reads is.
- InitializeDBVM: the image size is page-aligned, as its caller makes it.
- BuildTemporaryTables: the entry code's page lies below 4 MB, where the driver allocates it.
- AOBScan: reads inside a mapping are either complete or, for an unreadable mapping, empty; the text of the maps file is taken as already parsed, sorted and disjoint; null pattern and mask pointers and a failed allocation are not modelled.
- SetupToPA: the single-entry output mode of older processors, allocation failures and the MDL are not modelled; the buffer begins on a page boundary.
- SwapsExactly: hardware has followed the link it stands on when the DPC reads its pointers; before that the offset it reads is 511.
- SizeRecovered: the pointers of a trace that was stopped by a full buffer are those of the last byte stored.
- SafeWhileSwapsApart: each CPU's buffers are separate, so one CPU is modelled; file and event handover to user mode are one byte-by-byte copy, and shutdown is left out.
- FlushSavesExactly: suspending the traced process is not modelled, because the statement holds even if it keeps running.
- EveryBufferDelivered: a pool without blocks or workers is excluded; there nothing can be delivered.
- PoolNeverRunsDry: each delivered block is continued once, which user mode has to ensure; a block's size and CPU number, which travel with its data, mapping the buffer into user mode, file mode and shutdown are left out.
- LockWorks: a CPU inside the two routines is not interrupted by code that takes the same lock, and csLeave is called only after csEnter.
- Handler: debug exceptions other than a trapped kernel-mode register access, the RF flag, reserved bits of DR6 and DR7 and general-protection faults on bad values are left out; an instruction with REX.R, which the processor refuses, is too.
- Epilogue: the local copy of DR6 that the code computes for unhandled exceptions and never stores.
- WriteProcessMemory: the process_vm_writev and /proc/pid/mem variants, attaching, and address wrap-around; a refused poke is taken to store the word up to its first unmapped byte, as Linux does.
- AddPresentPages: page-map reads are complete; after a failed read the code tries the same place again without end.
- VirtualQueryExFull: the smaps text is taken as parsed, and a mapping that begins at address 0 is skipped as in the code.
- Sockets, command dispatch, handle tables, thread lists and protection-string conversion, which would add only easy members.
