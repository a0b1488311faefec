# Verified model of the driver's porting layer

Dafny models of the hard algorithms in the open porting layer of the ioMemory VSL4 flash driver, with
proofs of what they promise. Every lemma carries `{:induction false}`: the proof is what is written.

| modules | what they model |
|---|---|
| SixLockTables, SixLockProtocol, SixLockSafety, SixLockRuns, SixLockGrants, SixLockWitnesses, SixLockStarvation, SixLockStarved, SixLock | the SIX multi-granularity lock: its tables, a transition system over any number of holders, invariants of one step, results about whole runs, what each call is granted, runs that show their limits, who can never get through, and the semaphore object with 8-bit mask and 16-bit counts that refines it |
| AtomicList | the lock-free push / take-all list under every interleaving of its loads, stores and compare-exchanges |
| Pieces, ScatterList, SgList, SglDma, SglCopy | scatter-gather lists as flat byte sequences: mapping pages, bios and buffers, rollback, DMA slices, and the two-cursor copy over a byte memory |
| BioRange, BioChains, BioLog, BioBooks, BioPlug, BioDisk | cutting a plugged list of bios into merged requests, the chains in flight and their completion at any later time, and the block device as the kernel sees it |
| Ring | intrusive circular lists |
| InfoForest, InfoRings, InfoNames, InfoTree, InfoPath, InfoListing, InfoWalk | the info tree over those lists: insertion, deletion without recursion, path printer and path resolver, and the listing walk with its bounded buffers |
| CpuQueues, Div64 | placing CPUs on completion queues, and the approximate 64-bit divider |
| Division, Machine, Sequences | the little arithmetic, word-size and sequence theory the others need |

## How to read it

Objects the code updates in place are classes: `Semaphore`, `SgList`, `DmaMap`, `Memories`, `Fbio`, `Block`,
`Disk`, `Info`, `InfoData`, `Lists`. Their methods keep the loops and branches of the code and are proved
against functions on values; the lemmas are about those functions. Memory that holds linked nodes (bios, info
nodes, list entries) is a map field of its object, from pointer to node, which the methods reassign. Ghost fields
record history: the run of the lock, the log of requests, chains in flight and completions, the freed nodes.
Children of an info directory are both a sequence, which the tree results speak of, and a ring of next and prev
pointers with the directory's list head, which the code follows; `Info.Valid` keeps the two equal.

The SIX lock steps at its critical sections, since every call works under one spinlock; sleeping requests may be
re-evaluated at any time, which covers spurious wake-ups. What depends on the kernel or on the closed core is
left open: whether a request is granted and with how many list entries, when bios are completed, what the backend
answers to a new node, what lies behind a table.

Where the code and its comments disagree the model follows the code:

- `serial64_compare` does not order serials as its comment says (which also speaks of 32 bits): for a larger first
  argument it answers -1. `CompareIsOrderIffNotLarger` says exactly when it is right. The order of conversions
  rests on this, and holds until the 64-bit serials wrap (`SerialWrapOvertakes`, `OvertakingIsReachable`).
- The conversion table is not a join for U with SIX and for IS with S (`ConversionIsStrongEnoughIff`). Mutual
  exclusion is not affected, since it is checked for the converted mode.
- The wait loop says that it prevents starvation. `StarvesIff` says which sleeping requests never get through: plain
  ones that a conversion asked for after them has passed, since the serial test fails behind its turn as well as before
  it (`PassingIsReachable`), and those behind conversions that wait for each other (`DeadlockIsReachable`).
- A full lock count drops the mode held before and leaves wait_count raised; `BooksAreExact` says that this is the
  only way wait_count goes wrong, `OverflowIsReachable` that it happens, and mutual exclusion is proved with it.
- `kfio_sgl_copy_data` takes an entry's length for its end offset (`CopyIsRightIff`,
  `OffsetsAreMisread`); a walk that ends early runs off its table (`CopyData`).
- The flags of an entry are written before the capacity test in `kfio_sgl_map_bytes_gen`; with a full list the
  write lands in the first entry, whose page is lost (`MapBytes`).
- Block alignment of a joining bio is only asserted (`GoodIsContiguousIff`, `GoodSizesIff`; `ShortBioJoins` and
  `ShiftedBioJoins` are the two ways it goes wrong).
- A new node below NULL is not checked for a taken name (`GrownUniqueIff`, `TwoOfAName`).
- The node map does not close all gaps in node numbers (`InRangeIff`), so that a CPU can be given a queue that does not
  exist (`ClustersExistIff`, `MapCpus`, `GapRunsOver`), which the code's assertion does not notice (`GapUnnoticed`);
  `GapHasRoom` (with `TwoClusters`) is a gap that does no harm. It also reads one place behind the histogram, harmlessly.
- The divider may return one more than the quotient (`ExactIffNothingDropped`).

Assumptions, each a `requires` of the members concerned: lists of fewer than 2^31 entries; segments whose
32-bit ends do not wrap; a kernel buffer that does not wrap the address space; bios whose segments add up to
their size; a fully mapped list and a range inside it for slices; entries that start inside their page and a
length below 2^31 for the copy; a new bio whose link is NULL; info nodes at positive addresses, with list heads
at addresses of their own; names that are not empty and hold no separator, and distinct sibling names, for the
path results; cluster numbers below the length of the code's table, as it asserts, and no CPU going on- or
offline during the placement. `Quot` and `Rem` are the code's `/` and `%`, and `Mod32` is its 32-bit
wrap-around (`QuotIsDivision`, `RemIsModulo`, `Mod32IsRemainder`).

## Model

| member | source | states |
|---|---|---|
| `SixLockTables.OnlyUpdateIsAsymmetric` | root/usr/src/iomemory-vsl4-4.3.7/six_lock.c:77-94 | U may join S but S may not join U; the compatibility table has no other asymmetry |
| `SixLockTables.AdmitsIff` | root/usr/src/iomemory-vsl4-4.3.7/six_lock.c:77-94 | a mode is admitted beside a held one if and only if neither rules out what the other does to the whole or its parts, and it is not S beside U |
| `SixLockTables.CoexistIff` | root/usr/src/iomemory-vsl4-4.3.7/six_lock.c:77-94 | two holders may coexist if and only if neither mode rules out what the other does |
| `SixLockTables.ConversionIsStrongEnoughIff` | root/usr/src/iomemory-vsl4-4.3.7/six_lock.c:98-115 | a converted mode keeps out all that the held and the asked mode keep out, if and only if the pair is not U/SIX or IS/S |
| `SixLockTables.ConversionIsJoinIff` | root/usr/src/iomemory-vsl4-4.3.7/six_lock.c:98-115 | the converted mode keeps out exactly what the held and the asked mode keep out, if and only if the pair is not U/SIX or IS/S, where it is SIX and S |
| `SixLockTables.JoinIsUnique` | root/usr/src/iomemory-vsl4-4.3.7/six_lock.c:98-115 | no two modes go with the same modes, so that the join is one mode |
| `SixLockTables.CompareIsOrderIffNotLarger` | root/usr/src/iomemory-vsl4-4.3.7/six_lock.c:158-188 | `serial64_compare` is the wrapped order its comment promises exactly when the first serial is not numerically larger |
| `SixLockTables.SerialTestMeaning` | root/usr/src/iomemory-vsl4-4.3.7/six_lock.c:218-232 | a request whose turn is at most 65535 conversions away is held back exactly until its turn, unless the 64-bit serials wrapped in between |
| `SixLockTables.SerialWrapOvertakes` | root/usr/src/iomemory-vsl4-4.3.7/six_lock.c:165-188 | the first serial after the wrap is let through early: the counterexample behind the bound of the order results |
| `SixLockTables.SerialIsRemainder` | root/usr/src/iomemory-vsl4-4.3.7/six_lock.c:218-243 | a counter incremented n times holds n modulo 2^64 |
| `SixLockTables.SerialDifference` | root/usr/src/iomemory-vsl4-4.3.7/six_lock.c:218-243 | two 64-bit counters whose true values are less than 2^64 apart differ, modulo 2^64, by exactly that much |
| `SixLockSafety.CompatibleIff` | root/usr/src/iomemory-vsl4-4.3.7/six_lock.c:119-137 | the mask test of an upgrade answers whether the wanted mode is admitted by every claim but the caller's own |
| `SixLockSafety.StepKeepsInv` | root/usr/src/iomemory-vsl4-4.3.7/six_lock.c:196-343 | every step of the lock, overflow of a 16-bit count included, keeps books, peace, the wait queue and the serials |
| `SixLockRuns.StepKeepsFifo` | root/usr/src/iomemory-vsl4-4.3.7/six_lock.c:211-266 | every step keeps conversions pending in the order they were asked for |
| `SixLockRuns.LetThroughInTurn` | root/usr/src/iomemory-vsl4-4.3.7/six_lock.c:231-237 | a step that lets a request through does so when all conversions asked for before it are served |
| `SixLockRuns.RunKeepsInv` | root/usr/src/iomemory-vsl4-4.3.7/six_lock.c:141-343 | the invariants hold after any run of any number of holders, with spurious wake-ups |
| `SixLockRuns.MutualExclusion` | root/usr/src/iomemory-vsl4-4.3.7/six_lock.c:77-137 | any two claims of a reachable state are allowed by the table in at least one order: X excludes every real mode, U and SIX exclude themselves |
| `SixLockRuns.ConversionsAreFifo` | root/usr/src/iomemory-vsl4-4.3.7/six_lock.c:218-243 | below 2^64 conversions: conversions are served in request order, and the pending serials are exactly wake_serial to wait_serial - 1 |
| `SixLockRuns.NoOvertaking` | root/usr/src/iomemory-vsl4-4.3.7/six_lock.c:231-243 | below 2^64 conversions: no plain request or trylock passes a conversion asked for earlier, and a conversion passes exactly in its turn |
| `SixLockRuns.LostCountsOverflows` | root/usr/src/iomemory-vsl4-4.3.7/six_lock.c:254-260 | no request was lost if and only if no granted request met a full lock count |
| `SixLockRuns.BooksAreExact` | root/usr/src/iomemory-vsl4-4.3.7/six_lock.c:210-266 | in every reachable state counts and mask are the holders, and wait_serial - wake_serial in 64 bits is the number of pending conversions; wait_count equals the waiting requests if and only if no count ever overflowed |
| `SixLockRuns.SerialDistance` | root/usr/src/iomemory-vsl4-4.3.7/six_lock.c:218-243 | the distance of the two serial fields is the number of conversions that wait, whether or not the serials wrapped |
| `SixLockRuns.TryLockSerialTestIsRedundant` | root/usr/src/iomemory-vsl4-4.3.7/six_lock.c:300-307 | in every reachable state with wait_count 0 the serials are equal: the trylock's serial test never decides |
| `SixLockGrants.TryLockGrantsIff` | root/usr/src/iomemory-vsl4-4.3.7/six_lock.c:290-322 | after any run: a trylock is granted if and only if nobody waits, no count overflowed before, fewer than 65535 hold the mode, and the table admits it beside every claim; otherwise nothing changes |
| `SixLockGrants.RequestGrantsIff` | root/usr/src/iomemory-vsl4-4.3.7/six_lock.c:211-237 | after any run: the first test lets a request through if and only if nobody waits, no count overflowed before, and the table admits the converted mode beside every claim of the others |
| `SixLockGrants.RequestLeaves` | root/usr/src/iomemory-vsl4-4.3.7/six_lock.c:196-266 | what a request leaves behind: no trace at a full queue, asleep with its prior lock, holding the converted mode, or nothing at a full count |
| `SixLockGrants.RecheckLeaves` | root/usr/src/iomemory-vsl4-4.3.7/six_lock.c:231-266 | what a wake-up leaves behind |
| `SixLockGrants.UpLeaves` | root/usr/src/iomemory-vsl4-4.3.7/six_lock.c:325-343 | an unlock takes away its own claim and nothing else |
| `SixLockWitnesses.OverflowIsReachable` | root/usr/src/iomemory-vsl4-4.3.7/six_lock.c:254-260 | 65536 requests for IS: the last one meets a full count and is lost, and wait_count stays 1 with nobody waiting |
| `SixLockWitnesses.OvertakingIsReachable` | root/usr/src/iomemory-vsl4-4.3.7/six_lock.c:231-237 | 2^64 conversions and a blocked one: a legal run after which a conversion is let through before the one asked for earlier, so the bound of NoOvertaking is needed |
| `SixLockStarvation.WakesIff` | root/usr/src/iomemory-vsl4-4.3.7/six_lock.c:231-237 | below 2^63 conversions: a sleeping request leaves the wait loop if and only if it is exactly its turn and the mode is compatible |
| `SixLockStarvation.StarvesIff` | root/usr/src/iomemory-vsl4-4.3.7/six_lock.c:225-243 | below 2^63 conversions: a sleeping request is let through in no continuation of the run if and only if it was passed by a conversion asked for after it, or it or a conversion it must wait for is blocked by a lock that another conversion keeps until after that one's turn |
| `SixLockStarvation.DoomedForEver` | root/usr/src/iomemory-vsl4-4.3.7/six_lock.c:225-243 | such a request sleeps in every later state of every run, and no trylock succeeds ever after; a passed one is a plain request |
| `SixLockStarvation.WayOut` | root/usr/src/iomemory-vsl4-4.3.7/six_lock.c:225-243 | for any other sleeping request, releases and conversions of the others that let it through |
| `SixLockStarved.PassingIsReachable` | root/usr/src/iomemory-vsl4-4.3.7/six_lock.c:196-343 | five steps of two holders after which the lock is free and the second sleeps for ever |
| `SixLockStarved.DeadlockIsReachable` | root/usr/src/iomemory-vsl4-4.3.7/six_lock.c:196-343 | two holders of S convert to X: nobody was passed, and both sleep for ever |
| `SixLock.ResultIs` | root/usr/src/iomemory-vsl4-4.3.7/six_lock.c:211-272 | success is returned exactly when the request got through and its count had room, and then its holder has the converted mode |
| `SixLock.MaskOfSubset` | root/usr/src/iomemory-vsl4-4.3.7/six_lock.c:77-96 | the 8-bit test against the incompatibility mask is inclusion of mode sets |
| `SixLock.Semaphore.constructor` | root/usr/src/iomemory-vsl4-4.3.7/six_lock.c:142-156 | a fresh semaphore is the start of the transition system |
| `SixLock.Semaphore.IsCompatible` | root/usr/src/iomemory-vsl4-4.3.7/six_lock.c:119-137 | the bit test computes the compatibility of the protocol |
| `SixLock.Semaphore.Upgrade` | root/usr/src/iomemory-vsl4-4.3.7/six_lock.c:196-272 | one call up to its first sleep is one Request step, with the code's return value |
| `SixLock.Semaphore.Recheck` | root/usr/src/iomemory-vsl4-4.3.7/six_lock.c:231-272 | one wake-up of a sleeping request, spurious or not, is one Recheck step |
| `SixLock.Semaphore.DownTrylock` | root/usr/src/iomemory-vsl4-4.3.7/six_lock.c:290-322 | one call is one TryLock step, and true means granted |
| `SixLock.Semaphore.UpMode` | root/usr/src/iomemory-vsl4-4.3.7/six_lock.c:325-343 | one call releases exactly the claim named |
| `AtomicList.StepKeepsShape` | root/usr/src/iomemory-vsl4-4.3.7/include/fio/port/atomic_list.h:51-71 | under every interleaving of load, link, compare-exchange, take-all and walk steps the shared list stays a chain of distinct entries |
| `AtomicList.StepKeepsConserved` | root/usr/src/iomemory-vsl4-4.3.7/include/fio/port/atomic_list.h:51-67 | every step keeps splices plus list equal to the successful pushes |
| `AtomicList.EveryPushCounts` | root/usr/src/iomemory-vsl4-4.3.7/include/fio/port/atomic_list.h:51-61 | in every reachable state the entries of all pushes begun are, as a multiset, those pushed and those threads are still pushing: no push is dropped |
| `AtomicList.PushGoesOn` | root/usr/src/iomemory-vsl4-4.3.7/include/fio/port/atomic_list.h:51-61 | a step of a push leaves its thread pushing the same entry with nothing pushed, or done with exactly this entry pushed |
| `AtomicList.PushEnds` | root/usr/src/iomemory-vsl4-4.3.7/include/fio/port/atomic_list.h:51-61 | left alone, a push gets through after at most five steps, wherever it stood |
| `AtomicList.SpliceTakesAll` | root/usr/src/iomemory-vsl4-4.3.7/include/fio/port/atomic_list.h:63-71 | a splice leaves the empty list, and its walk, left alone, ends after handing over all that was on it |
| `AtomicList.ListStaysAcyclic` | root/usr/src/iomemory-vsl4-4.3.7/include/fio/port/atomic_list.h:51-61 | in every reachable state the links from the head visit distinct entries and end, even if the compared head was removed and pushed again |
| `AtomicList.NothingLostOrDuplicated` | root/usr/src/iomemory-vsl4-4.3.7/include/fio/port/atomic_list.h:51-67 | in every reachable state the splices in order, each turned round, followed by what the links from the shared head lead through, are exactly the successful pushes in order |
| `AtomicList.SpliceIsNewestFirst` | root/usr/src/iomemory-vsl4-4.3.7/include/fio/port/atomic_list.h:63-67 | each splice returns one stretch of the pushes, newest first |
| `AtomicList.WalkSeesItsSplice` | root/usr/src/iomemory-vsl4-4.3.7/include/fio/port/atomic_list.h:69-71 | a walk hands over the entries of its splice in order, none skipped, although bodies may push their entry again at once |
| `ScatterList.AddSegmentsMeaning` | root/usr/src/iomemory-vsl4-4.3.7/kscatter.c:374-410 | mapping segments with in-place merging appends exactly their bytes, and adds their sizes |
| `ScatterList.AddSegmentsIff` | root/usr/src/iomemory-vsl4-4.3.7/kscatter.c:374-410 | mapping segments is refused if and only if one neither goes on where the one before it ends nor lies in its page; else there is one new entry for each that does not go on |
| `ScatterList.AllMerged` | root/usr/src/iomemory-vsl4-4.3.7/kscatter.c:384-390 | no two entries are left that could have been merged |
| `ScatterList.PageSegmentsFit` | root/usr/src/iomemory-vsl4-4.3.7/kscatter.c:321-327 | segments that lie inside their pages are never refused |
| `ScatterList.PageEntriesMeaning` | root/usr/src/iomemory-vsl4-4.3.7/include/fio/port/kmem.h:126-130 | one entry per page touched: as many as the closed form says, each inside one page, together exactly the buffer |
| `SgList.SgList.MapPage` | root/usr/src/iomemory-vsl4-4.3.7/kscatter.c:307-339 | appends one entry, or refuses with -EINVAL and changes nothing, exactly when the list is full or the 32-bit end of the span leaves its page; a span whose end wraps passes |
| `SgList.SgList.MapSegment` | root/usr/src/iomemory-vsl4-4.3.7/kscatter.c:376-409 | one round of the loop of `kfio_sgl_map_bio`: grow the last entry or append one |
| `SgList.SgList.MapBio` | root/usr/src/iomemory-vsl4-4.3.7/kscatter.c:341-428 | all or nothing: the old list with the segments added, or the old list; -EAGAIN if and only if the first test fires, so the overflow test in the loop is unreachable |
| `SgList.SgList.Restore` | root/usr/src/iomemory-vsl4-4.3.7/kscatter.c:412-426 | the rollback restores the list, sizes included, despite merging |
| `SgList.SgList.MapBytes` | root/usr/src/iomemory-vsl4-4.3.7/kscatter.c:214-297 | for a kernel buffer: succeeds if and only if enough entries are free and then appends the page entries; on failure it leaves those that fit, with the first entry's page overwritten |
| `SgList.SgList.GetBytePointer` | root/usr/src/iomemory-vsl4-4.3.7/kscatter.c:571-593 | finds the entry and byte at an offset, or nothing beyond the end |
| `SglDma.SliceIsExact` | root/usr/src/iomemory-vsl4-4.3.7/kscatter.c:622-725 | enumerating a slice yields exactly bus bytes offset to offset + length, in sge_count pieces that sum to map_length |
| `SglDma.SliceStartsAtBytePointer` | root/usr/src/iomemory-vsl4-4.3.7/kscatter.c:571-593 | the slice starts at the entry and byte that `kfio_sgl_get_byte_pointer` finds |
| `SglDma.DmaMap.FindFirst` | root/usr/src/iomemory-vsl4-4.3.7/kscatter.c:631-648 | the first loop finds the entry that holds byte `offset` |
| `SglDma.DmaMap.FindLast` | root/usr/src/iomemory-vsl4-4.3.7/kscatter.c:653-668 | the second loop ends with the first entry by which `length` bytes are reached, and the surplus as truncation |
| `SglDma.DmaMap.MakeSlice` | root/usr/src/iomemory-vsl4-4.3.7/kscatter.c:622-671 | the map covers bytes offset to offset + length |
| `SglDma.DmaMap.First` | root/usr/src/iomemory-vsl4-4.3.7/kscatter.c:684-702 | the first segment: skipped at the front, truncated if it is also the last |
| `SglDma.DmaMap.Next` | root/usr/src/iomemory-vsl4-4.3.7/kscatter.c:704-725 | the segment behind the iterator, or nothing after the last |
| `SglDma.DmaMap.Enumerate` | root/usr/src/iomemory-vsl4-4.3.7/kscatter.c:684-725 | first and then next until nothing comes: the segments of the slice |
| `SglCopy.CopyIsRightIff` | root/usr/src/iomemory-vsl4-4.3.7/kscatter.c:737-792 | for non-empty entries, each in its own page: copying n bytes is right for every memory if and only if no needed entry is misread (has an offset and is needed beyond its length minus offset) |
| `SglCopy.ZeroOffsetsCopyRight` | root/usr/src/iomemory-vsl4-4.3.7/kscatter.c:728-792 | between lists without offsets the first n bytes arrive and nothing else changes, whatever the entry boundaries |
| `SglCopy.OffsetsAreMisread` | root/usr/src/iomemory-vsl4-4.3.7/kscatter.c:755-786 | two concrete lists for which the copy is wrong |
| `SglCopy.ReachesAgrees` | root/usr/src/iomemory-vsl4-4.3.7/kscatter.c:754-786 | where nothing is misread the bytes visited are the list's bytes |
| `SglCopy.Memories.MemCpy` | root/usr/src/iomemory-vsl4-4.3.7/kscatter.c:765-771 | copies a stretch byte by byte |
| `SglCopy.Memories.CopyData` | root/usr/src/iomemory-vsl4-4.3.7/kscatter.c:737-792 | the two-cursor loop terminates and copies along both walks, or runs off a table if and only if a walk is shorter than the length; -EFAULT if and only if a list is too short |
| `BioRange.BlocksAreBytesIff` | root/usr/src/iomemory-vsl4-4.3.7/kblock.c:1109-1121 | the blocks of several bios are their bytes if and only if every size is a multiple of the block size |
| `BioRange.GoodIsContiguousIff` | root/usr/src/iomemory-vsl4-4.3.7/kblock.c:1109-1121 | the bytes of a request's block range are exactly its bios' bytes, each bio's starting where those before it end, if and only if every bio's sector and size are aligned |
| `BioRange.GoodSizesIff` | root/usr/src/iomemory-vsl4-4.3.7/kblock.c:1169-1182 | range.length times the block size is sgl_size if and only if every bio's size is aligned |
| `BioRange.ShortBioJoins` | root/usr/src/iomemory-vsl4-4.3.7/kblock.c:1109-1184 | a read of 512 bytes joins a good request of 4096-byte blocks, whose range then is shorter than its list |
| `BioRange.ShiftedBioJoins` | root/usr/src/iomemory-vsl4-4.3.7/kblock.c:1109-1184 | a whole-block write at sector 9 joins a good request that ends at sector 8: all sizes are aligned, and its data goes 512 bytes too early |
| `BioRange.JoinKeepsRange` | root/usr/src/iomemory-vsl4-4.3.7/kblock.c:1130-1184 | joining keeps one direction, one range, at most 2048 blocks, no discard and no atomic write |
| `BioRange.JoinsIff` | root/usr/src/iomemory-vsl4-4.3.7/kblock.c:1130-1184 | a bio is allowed to join if and only if the request with it is still a good one: none is refused for nothing |
| `BioRange.GoodCommands` | root/usr/src/iomemory-vsl4-4.3.7/kblock.c:1412-1436 | a request discards, writes or reads exactly if every bio in it asks for that, with the SYNC and ATOMIC flags of its first bio |
| `BioRange.FirstServes` | root/usr/src/iomemory-vsl4-4.3.7/kblock.c:1401-1446 | the request of one aligned bio has its bytes, its direction and its flags |
| `BioRange.JoinKeepsData` | root/usr/src/iomemory-vsl4-4.3.7/kblock.c:1176-1180 | joining appends the bio's segments to those of the request |
| `BioPlug.Fbio.AddBio` | root/usr/src/iomemory-vsl4-4.3.7/kblock.c:1130-1184 | 0 if and only if the bio may join and fits; then its blocks and segments are at the end; on 1 nothing changed |
| `BioPlug.Fbio.Fill` | root/usr/src/iomemory-vsl4-4.3.7/kblock.c:1401-1446 | range, command, SYNC and ATOMIC flags and segments of a request for one bio; it fails if and only if the segments do not fit |
| `BioPlug.Block.Complete` | root/usr/src/iomemory-vsl4-4.3.7/kblock.c:1081-1107 | every bio of the chain is completed once, in order, with the error given, and the byte sum is the chain's size |
| `BioPlug.Block.Submit` | root/usr/src/iomemory-vsl4-4.3.7/kblock.c:1493-1496 | the request is logged and its chain in flight; at once or later this and other chains may be completed, and those that are not stay whole; all books are kept |
| `BioPlug.Block.CompleteRequest` | root/usr/src/iomemory-vsl4-4.3.7/kblock.c:1081-1107 | any chain in flight can be completed at any later time: each of its bios ends once, in order, and the other chains stay whole |
| `BioPlug.Block.CompleteSome` | root/usr/src/iomemory-vsl4-4.3.7/kblock.c:1081-1107 | any number of chains in flight completed, in any order: the rest stay whole, and nothing but the links of bios given away changes |
| `BioPlug.Block.MapToFbio` | root/usr/src/iomemory-vsl4-4.3.7/kblock.c:1368-1449 | a good request of one bio if and only if the bio is aligned, the core grants one, and the segments fit; it has the bio's bytes, direction, discard, SYNC and ATOMIC |
| `BioPlug.Block.SetNext` | root/usr/src/iomemory-vsl4-4.3.7/kblock.c:1460-1475 | the one place where the driver writes a link, always of a bio that was not given away |
| `BioPlug.Block.Refuse` | root/usr/src/iomemory-vsl4-4.3.7/kblock.c:1483-1488 | a bio without a request is completed with -EIO |
| `BioPlug.Block.Kickoff` | root/usr/src/iomemory-vsl4-4.3.7/kblock.c:1451-1497 | every bio of the list ends up once, in order, in a good request, or as a failed bio that was misaligned, granted no request or did not fit; a request ends only where the next bio cannot join; between any two rounds the core may complete any chains in flight, and still nothing ends twice, pending chains stay whole, and every failed bio ended with -EIO |
| `BioLog.LogTrans` | root/usr/src/iomemory-vsl4-4.3.7/kblock.c:1458-1491 | rounds of the loop compose: order, goodness and maximality of the cut |
| `BioBooks.HandOver` | root/usr/src/iomemory-vsl4-4.3.7/kblock.c:1493-1496 | submitting a request puts its chain in flight and keeps the books |
| `BioBooks.Landed` | root/usr/src/iomemory-vsl4-4.3.7/kblock.c:1081-1107 | completing a chain in flight keeps the books, whatever then becomes of its links |
| `BioBooks.WaitingFrame` | root/usr/src/iomemory-vsl4-4.3.7/kblock.c:1460-1475 | writing links of bios that were not given away leaves every chain in flight whole |
| `BioBooks.EndsOnce` | root/usr/src/iomemory-vsl4-4.3.7/kblock.c:1081-1107 | over any run: a bio is completed at most once, is completed if and only if it left the driver and is not in flight, and with -EIO if it failed |
| `BioBooks.AllDone` | root/usr/src/iomemory-vsl4-4.3.7/kblock.c:1081-1107 | with nothing in flight every bio that left the driver was completed |
| `BioDisk.Disk.AddToPlug` | root/usr/src/iomemory-vsl4-4.3.7/kblock.c:1792-1814 | the bio is linked at the tail; the whole list is given back if and only if the bio is empty or a discard and no work queue is used |
| `BioDisk.Disk.Plugged` | root/usr/src/iomemory-vsl4-4.3.7/kblock.c:1869-1884 | over every run, log plus plug are the bios of each route in order of arrival, and all books are kept; without a work queue a flush or discard takes the whole plug into the log, any other bio waits in the plug and changes no log |
| `BioDisk.Disk.Direct` | root/usr/src/iomemory-vsl4-4.3.7/kblock.c:1847-1866 | a bio whose task has no plug goes straight into a request of its own, past the bios other tasks have plugged |
| `BioDisk.Disk.Unplug` | root/usr/src/iomemory-vsl4-4.3.7/kblock.c:1529-1556 | afterwards the plug is empty, and the log holds every bio that ever arrived |
| `BioDisk.Disk.CoreCompletes` | root/usr/src/iomemory-vsl4-4.3.7/kblock.c:1081-1107 | the core may complete any chain in flight between two calls: plug, log and books are kept |
| `BioDisk.UnpluggedInOrder` | root/usr/src/iomemory-vsl4-4.3.7/kblock.c:1529-1556 | after an unplug the log holds the bios of each route in order of arrival; all bios, if none went past the plug |
| `BioDisk.ChainExtend` | root/usr/src/iomemory-vsl4-4.3.7/kblock.c:1797-1806 | linking a new bio behind the list |
| `InfoRings.ListsApart` | root/usr/src/iomemory-vsl4-4.3.7/common_kinfo.c:88-88 | lists of different directories share no entry |
| `InfoRings.GraftKeepsRings` | root/usr/src/iomemory-vsl4-4.3.7/common_kinfo.c:124-154 | putting a new node's entry at the tail of its parent's list keeps every directory's list a ring of exactly its children, in order |
| `InfoRings.FreeKeepsRings` | root/usr/src/iomemory-vsl4-4.3.7/common_kinfo.c:159-171 | so does taking a node off its list and freeing it |
| `InfoRings.NextIs` | root/usr/src/iomemory-vsl4-4.3.7/common_kinfo.c:846-860 | entry->next is the child behind this one, or the list head after the last |
| `InfoForest.PostOnce` | root/usr/src/iomemory-vsl4-4.3.7/common_kinfo.c:256-287 | the order of deletion names every node of the subtree once |
| `InfoForest.PostBelowFirst` | root/usr/src/iomemory-vsl4-4.3.7/common_kinfo.c:256-287 | in that order every descendant comes before its ancestors |
| `InfoForest.PostLeftFirst` | root/usr/src/iomemory-vsl4-4.3.7/common_kinfo.c:256-287 | in that order siblings, with all that is below them, come in the order of their list |
| `InfoForest.PruneSet` | root/usr/src/iomemory-vsl4-4.3.7/common_kinfo.c:243-302 | pruning takes away the node and what is below it, and nothing else |
| `InfoForest.PrunePtrs` | root/usr/src/iomemory-vsl4-4.3.7/common_kinfo.c:167-169 | the order of the remaining siblings is unchanged |
| `InfoForest.DeletedHolds` | root/usr/src/iomemory-vsl4-4.3.7/common_kinfo.c:243-302 | memory from which a subtree was deleted holds the pruned tree |
| `InfoTree.Info.LookupNode` | root/usr/src/iomemory-vsl4-4.3.7/common_kinfo.c:105-119 | following the list pointers, the first child of that name, or NULL |
| `InfoTree.Info.InsertNode` | root/usr/src/iomemory-vsl4-4.3.7/common_kinfo.c:124-154 | links the node at the tail of its parent's circular list; -EEXIST exactly for a taken name below a real parent, else the backend's answer; on any error the tree is unchanged |
| `InfoTree.GrownUniqueIff` | root/usr/src/iomemory-vsl4-4.3.7/common_kinfo.c:128-147 | sibling names stay distinct if and only if no sibling has the name: below NULL, the fake root, the insert does not look |
| `InfoTree.TwoOfAName` | root/usr/src/iomemory-vsl4-4.3.7/common_kinfo.c:128-147 | a whole tree whose root has a child of a name, and a second one of that name inserted below NULL |
| `InfoTree.Info.UnlinkAndFree` | root/usr/src/iomemory-vsl4-4.3.7/common_kinfo.c:159-171 | takes a node that is in memory off its parent's circular list and frees it; every directory's list still holds exactly its children |
| `InfoTree.Info.RemoveNode` | root/usr/src/iomemory-vsl4-4.3.7/common_kinfo.c:243-302 | frees exactly the subtree of a node other than the root, in the order of the recursive delete; the tree is the pruned one |
| `InfoTree.Info.RemoveDir` | root/usr/src/iomemory-vsl4-4.3.7/common_kinfo.c:256-287 | the two nested loops over list heads and parent pointers terminate and free the subtree in post-order |
| `InfoNames.LookupIsFirst` | root/usr/src/iomemory-vsl4-4.3.7/common_kinfo.c:105-119 | a lookup gives the first child of that name |
| `InfoNames.ResolveIff` | root/usr/src/iomemory-vsl4-4.3.7/common_kinfo.c:707-749 | with distinct sibling names, a path resolves to a node if and only if it is that node's path, and to NULL if it is nobody's |
| `InfoNames.ResolvesToPath` | root/usr/src/iomemory-vsl4-4.3.7/common_kinfo.c:707-749 | whatever the names, a node a path resolves to has that path |
| `InfoNames.ResolvePath` | root/usr/src/iomemory-vsl4-4.3.7/common_kinfo.c:707-749 | with distinct sibling names the path of a node leads to it |
| `InfoNames.ComponentsOfJoin` | root/usr/src/iomemory-vsl4-4.3.7/common_kinfo.c:717-746 | cutting a path at its separators undoes joining |
| `InfoNames.ComponentsSplit` | root/usr/src/iomemory-vsl4-4.3.7/common_kinfo.c:717-746 | a separator cuts a string in two parts that are cut each for itself, so that empty components do not count |
| `InfoNames.ComponentsWord` | root/usr/src/iomemory-vsl4-4.3.7/common_kinfo.c:717-746 | a string without separators is one component, unless it is empty |
| `InfoNames.PathRoundTrip` | root/usr/src/iomemory-vsl4-4.3.7/common_kinfo.c:707-806 | the printed path of a node resolves to that node |
| `InfoNames.PathClimbs` | root/usr/src/iomemory-vsl4-4.3.7/common_kinfo.c:761-782 | climbing to the parent takes one name off the path |
| `InfoPath.FindNode` | root/usr/src/iomemory-vsl4-4.3.7/common_kinfo.c:707-749 | the node whose path the components of the string are, or NULL if no node has it; the string is as it was |
| `InfoPath.Descend` | root/usr/src/iomemory-vsl4-4.3.7/common_kinfo.c:731-745 | one component: the separator is overwritten, the child looked up, the separator put back |
| `InfoPath.Pathname` | root/usr/src/iomemory-vsl4-4.3.7/common_kinfo.c:756-806 | the path of a node, its length as result; -EINVAL if and only if the components and one separator each do not fit |
| `InfoPath.PrintAndFind` | root/usr/src/iomemory-vsl4-4.3.7/common_kinfo.c:707-806 | printing a path and looking it up gives the node and leaves the string as printed |
| `InfoListing.ListingIsPaths` | root/usr/src/iomemory-vsl4-4.3.7/common_kinfo.c:908-912 | the listing is the NUL-terminated paths of its leaves, in list order |
| `InfoListing.ListedIff` | root/usr/src/iomemory-vsl4-4.3.7/common_kinfo.c:882-906 | a leaf is listed if and only if the printed path of its directory fits the 256-byte buffer |
| `InfoListing.ListedInOrder` | root/usr/src/iomemory-vsl4-4.3.7/common_kinfo.c:846-912 | leaves are listed once each, in the order of the tree |
| `InfoListing.EveryLineResolves` | root/usr/src/iomemory-vsl4-4.3.7/common_kinfo.c:707-749 | every path shown, looked up again from the top, gives its leaf |
| `InfoWalk.WalkShowsLines` | root/usr/src/iomemory-vsl4-4.3.7/common_kinfo.c:813-916 | a walk from any directory shows the paths of its leaves as seen from the top |
| `InfoWalk.InfoData.Write` | root/usr/src/iomemory-vsl4-4.3.7/common_kinfo.c:531-547 | the buffer holds the first max_size bytes of everything written, tot_size counts all of it |
| `InfoWalk.StartPath` | root/usr/src/iomemory-vsl4-4.3.7/common_kinfo.c:825-840 | the path of the start directory with a separator behind it, or -EINVAL if it does not fit |
| `InfoWalk.WalkTree` | root/usr/src/iomemory-vsl4-4.3.7/common_kinfo.c:813-916 | writes exactly the listing of the recursive pre-order walk, or fails because the start is no directory or its path does not fit |
| `InfoWalk.Loop` | root/usr/src/iomemory-vsl4-4.3.7/common_kinfo.c:846-912 | the loop over parent pointers and entry->next terminates and refines the recursive walk |
| `Ring.Insert` | root/usr/src/iomemory-vsl4-4.3.7/include/fio/port/list.h:66-71 | putting an entry between neighbours keeps the ring |
| `Ring.Remove` | root/usr/src/iomemory-vsl4-4.3.7/include/fio/port/list.h:106-112 | bypassing an entry keeps the ring of the others |
| `Ring.InsertAll` | root/usr/src/iomemory-vsl4-4.3.7/include/fio/port/list.h:223-233 | putting a whole list between neighbours keeps the ring |
| `Ring.RingFrame` | root/usr/src/iomemory-vsl4-4.3.7/include/fio/port/list.h:66-251 | a change of other entries leaves a ring as it is |
| `Ring.Lists.Init` | root/usr/src/iomemory-vsl4-4.3.7/include/fio/port/list.h:48-58 | an entry alone is the empty list |
| `Ring.Lists.Add` | root/usr/src/iomemory-vsl4-4.3.7/include/fio/port/list.h:66-71 | the entry is at its position, all others in order |
| `Ring.Lists.AddHead` | root/usr/src/iomemory-vsl4-4.3.7/include/fio/port/list.h:83-85 | the entry comes first |
| `Ring.Lists.AddTail` | root/usr/src/iomemory-vsl4-4.3.7/include/fio/port/list.h:94-96 | the entry comes last |
| `Ring.Lists.Unlink` | root/usr/src/iomemory-vsl4-4.3.7/include/fio/port/list.h:106-112 | the others stay, in order |
| `Ring.Lists.UnlinkAlone` | root/usr/src/iomemory-vsl4-4.3.7/include/fio/port/list.h:106-112 | harmless for an entry that is on no list |
| `Ring.Lists.Del` | root/usr/src/iomemory-vsl4-4.3.7/include/fio/port/list.h:120-123 | the others stay in order and the entry is on no list |
| `Ring.Lists.MoveHead` | root/usr/src/iomemory-vsl4-4.3.7/include/fio/port/list.h:132-135 | an entry of the list moves to its front |
| `Ring.Lists.MoveTail` | root/usr/src/iomemory-vsl4-4.3.7/include/fio/port/list.h:144-147 | an entry of the list moves to its end |
| `Ring.Lists.MoveHeadFrom` | root/usr/src/iomemory-vsl4-4.3.7/include/fio/port/list.h:132-135 | an entry of another list moves to the front, the rest of both stays in order |
| `Ring.Lists.MoveTailFrom` | root/usr/src/iomemory-vsl4-4.3.7/include/fio/port/list.h:144-147 | an entry of another list moves to the end, the rest of both stays in order |
| `Ring.Lists.MoveHeadAlone` | root/usr/src/iomemory-vsl4-4.3.7/include/fio/port/list.h:132-135 | an entry on no list moves to the front |
| `Ring.Lists.MoveTailAlone` | root/usr/src/iomemory-vsl4-4.3.7/include/fio/port/list.h:144-147 | an entry on no list moves to the end |
| `Ring.Lists.AddList` | root/usr/src/iomemory-vsl4-4.3.7/include/fio/port/list.h:162-186 | src followed by dst, and src empty |
| `Ring.Lists.SpliceBetween` | root/usr/src/iomemory-vsl4-4.3.7/include/fio/port/list.h:223-233 | a whole list between two neighbours |
| `Ring.Lists.Splice` | root/usr/src/iomemory-vsl4-4.3.7/include/fio/port/list.h:235-242 | src followed by dst, and src empty, the same as `fusion_list_add_list` |
| `Ring.Lists.SpliceTail` | root/usr/src/iomemory-vsl4-4.3.7/include/fio/port/list.h:244-251 | dst followed by src, and src empty |
| `Ring.Lists.PopHead` | root/usr/src/iomemory-vsl4-4.3.7/include/fio/port/list.h:191-203 | the first entry, off the list, or NULL |
| `CpuQueues.InRangeIff` | root/usr/src/iomemory-vsl4-4.3.7/kcpu.c:242-263 | nodes with CPUs get numbers below the number of online nodes if and only if they are numbered below it themselves, but for the last one when node 0 has no CPU |
| `CpuQueues.BelowIff` | root/usr/src/iomemory-vsl4-4.3.7/kcpu.c:242-263 | for any bound from the number of online nodes on: all numbers stay below it if and only if it leaves room for the nodes that are themselves numbered too high, less one if node 0 has no CPU |
| `CpuQueues.ClustersExistIff` | root/usr/src/iomemory-vsl4-4.3.7/kcpu.c:317-345 | every node with CPUs is in one of the first k clusters if and only if these have room in that sense |
| `CpuQueues.GapRunsOver` | root/usr/src/iomemory-vsl4-4.3.7/kcpu.c:242-263 | nodes 0 and 2 of two: node 2 lands in a cluster that does not exist |
| `CpuQueues.GapUnnoticed` | root/usr/src/iomemory-vsl4-4.3.7/kcpu.c:345-347 | there is no room for it, and the code's assertion holds all the same |
| `CpuQueues.GapHasRoom` | root/usr/src/iomemory-vsl4-4.3.7/kcpu.c:242-263 | nodes 0, 1 and 3 of three with two queues: node 3 is numbered too high and still has a cluster |
| `CpuQueues.MapNodes` | root/usr/src/iomemory-vsl4-4.3.7/kcpu.c:248-263 | the node map, one read behind the histogram included |
| `CpuQueues.NextCounter` | root/usr/src/iomemory-vsl4-4.3.7/kcpu.c:257-259 | the inner loop stops at the next node with CPUs or at the number of online nodes |
| `CpuQueues.CountNodes` | root/usr/src/iomemory-vsl4-4.3.7/kcpu.c:226-230 | the histogram tells which nodes have CPUs |
| `CpuQueues.OneEachPlace` | root/usr/src/iomemory-vsl4-4.3.7/kcpu.c:268-297 | with enough queues every CPU gets a valid queue, an online one a queue below the count returned |
| `CpuQueues.OneEachDistinct` | root/usr/src/iomemory-vsl4-4.3.7/kcpu.c:268-297 | with enough queues online CPUs have queues of their own |
| `CpuQueues.OfflineShares` | root/usr/src/iomemory-vsl4-4.3.7/kcpu.c:268-297 | with enough queues an offline CPU shares the queue of the next online one |
| `CpuQueues.OfflineSharesInCluster` | root/usr/src/iomemory-vsl4-4.3.7/kcpu.c:337-359 | with too few, that of the next online one of its cluster |
| `CpuQueues.NeverShared` | root/usr/src/iomemory-vsl4-4.3.7/kcpu.c:337-359 | with too few queues CPUs of different clusters never share one |
| `CpuQueues.LoadIs` | root/usr/src/iomemory-vsl4-4.3.7/kcpu.c:337-359 | the online load of each queue of a cluster |
| `CpuQueues.Balanced` | root/usr/src/iomemory-vsl4-4.3.7/kcpu.c:337-359 | inside a cluster online loads differ by at most one |
| `CpuQueues.ClustersExact` | root/usr/src/iomemory-vsl4-4.3.7/kcpu.c:317-326 | the cluster count is the least that holds all nodes |
| `CpuQueues.GrowClusters` | root/usr/src/iomemory-vsl4-4.3.7/kcpu.c:317-326 | the cluster-growing loop terminates with the smallest cluster size that leaves a queue for every cluster |
| `CpuQueues.PlaceOneEach` | root/usr/src/iomemory-vsl4-4.3.7/kcpu.c:268-297 | the assignment with enough queues |
| `CpuQueues.PlaceInClusters` | root/usr/src/iomemory-vsl4-4.3.7/kcpu.c:337-359 | the assignment with too few queues, over the 16 counters of the code |
| `CpuQueues.MapCpus` | root/usr/src/iomemory-vsl4-4.3.7/kcpu.c:204-362 | the whole placement: one queue each, whatever the node numbers, or the smallest clusters with as many queues each as there are; then every CPU gets a queue below the count returned if and only if the clusters have room for the nodes numbered too high; the count is at most the queues there are, and with a queue for every node less than one per node is left unused |
| `Div64.ShiftedFits` | root/usr/src/iomemory-vsl4-4.3.7/kfio_common.c:274-290 | the shifted divisor is at least 2^31 and fits 32 bits: the cast loses nothing |
| `Div64.DivIsQuotientOrOneMore` | root/usr/src/iomemory-vsl4-4.3.7/kfio_common.c:274-290 | the quotient or one more, for every dividend and every divisor but 0; exact for divisors below 2^32 |
| `Div64.ExactIffNothingDropped` | root/usr/src/iomemory-vsl4-4.3.7/kfio_common.c:278-287 | for a given divisor the result is exact on all dividends if and only if the shift drops no bit of the divisor |
| `Div64.DroppedShows` | root/usr/src/iomemory-vsl4-4.3.7/kfio_common.c:278-287 | otherwise a dividend that is less than the divisor gives 1 |

## Left out

- SIX lock progress: which sleeping request the condition variable wakes is up to the scheduler, so nothing is claimed about how soon one that is not doomed gets through.
- Weak memory: the lock-free list is modelled under sequential consistency.
- BioPlug.Block.Submit: the closed core is modelled as taking the request and completing its bios at once or later; nothing is said about what it does with the data.
- BioDisk.Disk.New: a bio the kernel gets back and submits again counts as another bio, with an id of its own.
- BioPlug.Block.MapToFbio: completion CPU and latency records are not modelled.
- BioRange.GoodIsContiguousIff: byte addresses of bios are unbounded, where the code multiplies in 64 bits.
- BioDisk.Disk.Plugged: one plug at a time is modelled, and write hold-off and splitting of bios happen before it; the deferred flush over a work queue is the same as the direct one.
- Bios are values with an id, and their links a map of the driver object, so that aliasing of bio objects is expressed by their ids.
- SglDma.DmaMap.MakeSlice: partial DMA mappings and the kernel's own merging of entries are not modelled.
- SglCopy.Memories.CopyData: once the code has run off a table nothing is said about memory; `kfio_memcpy` is a byte copy from the front.
- SgList.SgList.MapBytes: user-memory pages, their pinning and release are not modelled; the pages of vmalloc buffers are taken to be numbered like their addresses.
- SgList.SgList.MapPage: the variant for devices that cross page boundaries is not modelled.
- InfoTree.Info.InsertNode: allocation of nodes, their sizes, modes and handlers, and the effect of the OS backend are not modelled.
- InfoTree.Info.RemoveNode: the root itself is not deleted, as the code asserts.
- InfoWalk.InfoData.Write: the formatted variant of the write is not modelled.
- CpuQueues.MapCpus: cluster numbers that run over the table of 16, which the code asserts do not occur, are excluded; hot-plug during the placement is not modelled.
- Ring: iteration macros and the head and tail tests would only add easy members.
- The blk-mq completion path, the atomic bio chains (dead code), disk creation, PCI, interrupts, character device, proc files and module parameters are thin wrappers or experimental.
- Bit operations, byte swapping, range helpers, time and errno translation would only add easy members.
