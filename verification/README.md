# Physical memory map: model and proofs

This project models the stage 2 physical memory map of the kernel and the code
that feeds it, and proves what the map guarantees:

* `kernel/memory_map.c`: the RAM, reserved and free tables that
  `mm_stage2_build` fills in place, the page totals, and the three self-checks.
* `libs/dtb/dtb.c`: the decoders for `reg`, `ranges`, `compatible` and
  `interrupt-parent`, and the two bounded collections of memory ranges
  (Devicetree Specification v0.4, sections 2.2.4, 2.3.1, 2.3.5, 2.3.6, 2.3.8
  and 2.4).
* `drivers/uart/ns16550a.c` and `drivers/uart/uart_console.c`: the number
  printers, and the parser of the baud rate behind `/chosen/stdout-path`.

`dafny verify dfyconfig.toml` checks everything.

## How it is built

Each loop of the C code is a method over arrays, proved equal to a
specification function over sequences; the theorems are about those functions.
`MemoryMap.Map` is the static state: three region arrays with their counts,
totals and verdicts. `Map.Build` ties them to the functions of `MapSpec`, which
depend on a `Platform` alone: the memory base, two linker symbols and the tree.

| file | part |
|---|---|
| `Machine`, `Intervals` | 64-bit arithmetic and page rounding; address sets, canonical lists, page counts |
| `Regions`, `Merging` | adding, insertion sort and merge in place; what merging preserves |
| `Subtraction`, `FreeList` | the cursor sweep as a function; the loop that stores it |
| `ClippedPages` | the clip, exchange sort and sweep that count reserved RAM pages |
| `DeviceTree`, `RegDecoder`, `RegCodec`, `Readings` | the tree, cells and `reg`, bounded collection; the encoder that the decoder inverts; what each reader makes of bytes and nodes |
| `BusRanges`, `NodeQueries` | `ranges` translation; string lists and the interrupt-parent climb |
| `MapSpec`, `MapTheorems` | what the build has to produce, and what that guarantees |
| `DeviceMemory`, `DeviceCount` | what device regions do to the free list, its capacity, and the stored count |
| `Exclusion`, `ListedRanges` | the kernel; free memory in terms of the listed ranges |
| `TableClasses`, `BuildStatus` | flags and sources of all table entries, and the status of the build, in terms of the tree |
| `Collection`, `SelfChecks`, `MemoryMap` | the stages of the build and the build itself |
| `Partition` | tables split at an address sort, merge and count apart |
| `Boards` | what holds of every platform that boots, and platforms made from lists of ranges |
| `ScanLimit`, `CrowdedPlatform`, `Shortfalls` | platforms on which a promise fails |
| `Numerals`, `StdoutPath` | printers and parser |

64-bit wrap-around is part of the model everywhere, so no theorem about the
tables assumes that addresses do not wrap. Where wrapping costs a guarantee, the
exact condition is a theorem.

## Where the code falls short of its documentation

The model follows the code. Each point names the exact condition, and lemmas about
every platform with certain lists of ranges, whatever other nodes its tree has. For
each of them there is a tree on which the kernel gets as far as the build
(`Boards.Booted`): it finds a CPU for hart 0 with a time base, a timer and a
console, the tree is at a non-null address with a size, the memory base is that of
the first listed RAM range, and kernel image and tree lie in listed RAM, apart from
each other. But for the one in the last page, the kernel is where `kernel/linker.ld`
puts it (`Exclusion.Linked`).

* The page totals are to agree always
  (`PlanWdrażania/Etap2_MapaFizyczna_Reserved.md:59-60`), and device regions, which
  are reserved outside RAM only, should not matter for them. They never change the
  free list. But the clipped count stops between regions once it has 64
  intersections, and within one region it does not stop and writes past its arrays;
  and a device in a hole of RAM can keep two reservations from merging. So a device
  can spoil the totals (`CrowdedPlatform.DeviceCanSpoilTotals`), cause an overrun
  (`CrowdedPlatform.DeviceCanOverrun`), or prevent one
  (`CrowdedPlatform.DeviceCanPreventOverrun`); trees: `CrowdedPlatform.CrowdedBoots`.
  Conditions: `MapTheorems.TotalsAgreeExactly` for the totals,
  `MemoryMap.Map.Build` for the overrun, `DeviceCount.DevicesMatterExactly` for the
  devices. None of it happens within 64 intersections
  (`DeviceCount.DevicesNeutralWithinLimit`), or when RAM is one block
  (`DeviceMemory.SmallMapsAgree`).
* No free region is to meet a reserved one
  (`PlanWdrażania/Etap2_MapaFizyczna_Reserved.md:56`). Of a `/reserved-memory`
  node only the first eight ranges count, and of all nodes the first 32. The
  overflow of one node is tolerated without a report, although
  `libs/dtb/dtb.h:11-12` announces an error code. Condition:
  `ListedRanges.ReservedExactly`, and for the free list `ListedRanges.FreeFromTree`.
  `Shortfalls.NinthRangeIsFree`, where the build returns 0 and every self-check
  passes; tree: `Shortfalls.NineBoots`.
* The kernel image is never to be handed out
  (`PlanWdrażania/MemoryContract_v0.md:41`). It is not, as the kernel is linked
  (`Exclusion.LinkedKernelNeverFree`). At another link address its reservation
  wraps away if the image ends in the last page of the address space. Condition:
  `Exclusion.ImageCoveredExactly`. `Shortfalls.KernelCanBeFree`; tree:
  `Shortfalls.TopBoots`. The same happens to any other range there
  (`ListedRanges.RangeKeptUnlessAtTop`, `ListedRanges.DeviceRangeKeptUnlessAtTop`,
  both conditions for every range).
* Free memory is to start at the first free frame
  (`PlanWdrażania/MemoryContract_v0.md:45`), and that frame is to be free
  (`PlanWdrażania/Etap2_MapaFizyczna_Reserved.md:58`). Conditions:
  `ListedRanges.FreeStartsAtFrame` and `ListedRanges.FrameIsFreeExactly`. Both fail
  in `Shortfalls.FrameCanBeMisplaced`; tree: `Shortfalls.LowBoots`.
* A bus window is to serve the addresses it describes (section 2.3.8 of the
  Devicetree Specification v0.4). One that reaches the top of the 64-bit space
  serves none. Condition: `BusRanges.WindowServedUnlessAtTop`. A tree for each such
  window: `BusRanges.TopWindowUnserved`.

Rounding outward is prescribed for every region
(`PlanWdrażania/Etap2_MapaFizyczna_Reserved.md:30-33`). For RAM that are partial
pages it means more memory than is listed; `ListedRanges.NothingAddedToWholePages`
says exactly when it does not.

## Model

| member | source | states |
|---|---|---|
| MemoryMap.Map.Build | kernel/memory_map.c:549-697 | The status for every input, the only undefined case, and on success all three tables, all totals and all verdicts in terms of the platform; a failing build leaves counts, totals and verdicts alone |
| MemoryMap.Map.constructor | kernel/memory_map.c:39-65 | The static state before the first build: empty tables of 32, 768 and 768 entries, and zero in every total, verdict and the frame |
| MemoryMap.Map.CollectReserved | kernel/memory_map.c:590-635 | After all reservations are gathered the table is the merge of every candidate, or the error the first failing source calls for |
| MemoryMap.Map.CollectFree | kernel/memory_map.c:637-671 | Subtraction and the merge after it leave exactly the difference and cannot run out of entries |
| MemoryMap.Map.Finish | kernel/memory_map.c:673-696 | Totals and verdicts describe the tables; while the count is undefined nothing of the state is assigned |
| MemoryMap.VerdictsFollow | kernel/memory_map.c:678-681 | `totals_ok` says whether the scan cut off a RAM page, `first_free_ok` whether the frame is listed RAM and unreserved, and an overlap is never reported |
| MemoryMap.ListingsKeepTotals | kernel/memory_map.c:673-681 | Two platforms whose RAM addresses, reserved RAM addresses and frame agree store the same totals and verdicts within 64 intersections; only pages with multiplicity may differ |
| ListedRanges.FreeExactly | kernel/memory_map.c:576-671 | An address is free if and only if some listed RAM range keeps it and the kernel, boot area, blob and gathered reserved-memory ranges do not; devices, order, overlap and splitting play no part |
| ListedRanges.FreeFromTree | kernel/memory_map.c:576-671 | An address is free if and only if a memory node lists it among its first eight ranges and neither kernel, boot area, blob nor a reserved-memory child within the limits has it |
| TableClasses.RamClasses | kernel/memory_map.c:580-588 | The RAM table holds an address with given flags if and only if those are read-write (6) and allocatable (1) and some gathered RAM range keeps it |
| TableClasses.RamEntries | kernel/memory_map.c:581-583 | Every RAM entry, on any platform, has those flags and the source `dtb-memory` |
| TableClasses.ReservedClasses | kernel/memory_map.c:592-635 | The reserved table holds an address with given flags if and only if it is the image (0x0E, 6), what lies below it (2, 0x0A), the blob (2, 0x22), a listed reservation (2, 2), or device memory (6, 0x10): some node with a non-empty `compatible` lists it among its first eight ranges with a size, and no address of the range, its end saturated, is RAM |
| TableClasses.ReservedEntries | kernel/memory_map.c:592-635 | Every reserved entry is of one of these kinds, with the source of its kind |
| TableClasses.MergedEntries | kernel/memory_map.c:205-206 | An entry called `merged` is a device entry that took in candidates of different sources |
| TableClasses.FreeClasses | kernel/memory_map.c:648-666 | The free table holds exactly the free addresses, as read-write and allocatable |
| TableClasses.FreeEntries | kernel/memory_map.c:648-666 | Every free entry has those flags and the source `free` |
| BuildStatus.StatusExactly | kernel/memory_map.c:573-633 | The status from the tree: RAM fails for no tree, an unreadable memory node or more than 32 ranges; reservations for a path or subnode error that is neither absence nor lack of space; the device scan for more than 768 entries, counted range by range |
| ListedRanges.RangeKeptUnlessAtTop | kernel/memory_map.c:140-144 | A listed range is kept whole if and only if it is empty or ends below the last page of the address space |
| ListedRanges.NothingAddedToWholePages | kernel/memory_map.c:140-144 | Outward rounding adds no address if and only if the range is whole pages or is dropped |
| ListedRanges.DeviceRangeKeptUnlessAtTop | kernel/memory_map.c:349-360 | A device range outside RAM is reserved whole if and only if it ends below the last page, and not at all otherwise |
| ListedRanges.ReservedRangeNeverFree | kernel/memory_map.c:616-628 | No address of a gathered reserved-memory range that ends below the last page is free |
| ListedRanges.ReservedExactly | libs/dtb/dtb.c:1301-1319 | A range is gathered if and only if some node whose parent is `/reserved-memory` lists it among its first eight and, counting those of the nodes before, among the first 32 |
| ListedRanges.RamExactly | libs/dtb/dtb.c:1251-1273 | A RAM range is gathered if and only if some node whose `device_type` begins with the string "memory" lists it among its first eight |
| ListedRanges.ReservedAreGathered | libs/dtb/dtb.c:1307-1309 | When the build gets past the reserved ranges, a tree with `/reserved-memory` listed them without a fault |
| ListedRanges.ReservedNodeNeverFree | libs/dtb/dtb.c:1283-1320 | From tree to free list: no address of a range within the two limits is free, provided the range ends below the last page |
| ListedRanges.BlobNeverFree | kernel/memory_map.c:605-614 | No address of the device tree blob is free unless the blob reaches the last page |
| ListedRanges.FreeIsListedRam | kernel/memory_map.c:580-588 | Every free address is in a listed RAM range when those ranges are whole pages |
| ListedRanges.FrameIsFreeExactly | kernel/memory_map.c:679 | For an image that runs upward below the last page, the first free frame is free if and only if RAM reaches there and neither blob nor reserved memory does |
| ListedRanges.FreeStartsAtFrame | kernel/memory_map.c:590-603 | Every free address is at or above the first free frame if and only if all RAM below boot area and kernel is reserved by blob or reserved memory |
| ListedRanges.FreeStartsAtFrameFromLowestBase | kernel/memory_map.c:599-601 | It is whenever the memory base is the lowest listed RAM address |
| Shortfalls.NinthRangeIsFree | libs/dtb/dtb.c:1304-1315 | On every platform with these lists a range listed under `/reserved-memory` is free, with the kernel as linked, a defined count, agreeing totals and a free first frame |
| Shortfalls.NineBoots | libs/dtb/dtb.c:1304-1315 | Such a platform on which the kernel boots |
| Shortfalls.KernelCanBeFree | kernel/memory_map.c:590-603 | On every platform with these lists and a kernel linked for the last two pages, its first page is free, with a defined count and agreeing totals |
| Shortfalls.TopBoots | kernel/memory_map.c:590-603 | Such a platform on which everything the kernel looks for is found |
| Shortfalls.FrameCanBeMisplaced | kernel/memory_map.c:599-601 | On every platform with these lists there is free memory below the first free frame and the frame itself is not free, with the kernel as linked and a defined count |
| Shortfalls.LowBoots | kernel/memory_map.c:599-601 | Such a platform on which the kernel boots |
| MapTheorems.FreeIsRamMinusReserved | kernel/memory_map.c:635-671 | Free memory is canonical, whole pages, and address by address the gathered RAM outside the gathered reservations |
| MapTheorems.FreeMergeIsIdentity | kernel/memory_map.c:671 | The last merge never changes the free list |
| MapTheorems.PageConservation | kernel/memory_map.c:673-678 | RAM pages are the distinct reserved pages in RAM plus the free pages, for any canonical RAM and any sorted, possibly overlapping, reservations |
| MapTheorems.TotalsAgreeExactly | kernel/memory_map.c:246-302 | The totals agree if and only if no region behind the scan limit holds an uncounted RAM page; always with at most 64 intersections |
| MapTheorems.TotalsOnPlatform | kernel/memory_map.c:673-678 | The same for every platform, and the compared sum does not overflow |
| MapTheorems.MultiplicityBound | kernel/memory_map.c:674-675 | Reserved pages with multiplicity are at least those counted in RAM; equal to the distinct ones if and only if reservations are disjoint and inside RAM |
| MapTheorems.FreeMissesReserved | kernel/memory_map.c:680-681 | No address is both free and reserved, so the overlap check cannot fail |
| MapTheorems.RamTableShape | kernel/memory_map.c:580-588 | The RAM table is the canonical list of the addresses gathered, at most 32 entries of whole pages |
| MapTheorems.ReservedTableShape | kernel/memory_map.c:635 | The reserved table is sorted whole pages with exactly the addresses gathered |
| DeviceMemory.MmioCandidatesMissRam | kernel/memory_map.c:399-410 | Device regions checked against RAM before rounding miss it after rounding too |
| DeviceMemory.MmioIsNeutral | kernel/memory_map.c:630-669 | Without any device region the free list and the set of reserved RAM pages are the same |
| DeviceCount.DevicesMatterExactly | kernel/memory_map.c:246-302 | What the build stores for reserved RAM pages and totals, or that it overruns, is the same with and without devices if and only if both scans overrun or both fit and the first sees every RAM page of every entry the second visits |
| DeviceCount.DevicesOnlySpoil | kernel/memory_map.c:674-678 | Where both counts are defined, devices can only lower the stored count and spoil the totals |
| DeviceCount.DevicesNeutralWithinLimit | kernel/memory_map.c:674-678 | With at most 64 intersections the count is defined and the same with and without devices, and the totals agree |
| DeviceCount.NoDeviceRegions | kernel/memory_map.c:630-635 | A platform without device regions has the table that is compared with |
| DeviceCount.FewEntriesFit | kernel/memory_map.c:256-267 | With at most 64 pairs of a fixed or reserved-memory range and a RAM range the count is defined and the totals agree, whatever the devices |
| DeviceCount.CoalesceTracks | kernel/memory_map.c:187-217 | Merging a sorted list with and without its devices: every other entry lies in one of the smaller table, with no more intersections before it |
| DeviceCount.VisitsExactly | kernel/memory_map.c:256 | The outer loop visits an entry if and only if fewer than 64 intersections precede it |
| Partition.SortSplits | kernel/memory_map.c:165-179 | Entries that start below an address and those from it on sort apart |
| Partition.CoalesceApart | kernel/memory_map.c:199-213 | Where the flags differ nothing merges across a seam |
| Partition.ScanStopsAfter | kernel/memory_map.c:256-266 | Entries that meet no RAM do not move the scan limit: where the scan stops behind them, and whether it overruns |
| DeviceMemory.ReservedInRamIsFirm | kernel/memory_map.c:635 | A RAM address is reserved if and only if something other than a device reserves it |
| DeviceMemory.FreeAlwaysFits | kernel/memory_map.c:637-669 | At most 67 free regions for any device tree, so the 768 entries never run out |
| DeviceMemory.IntersectionBound | kernel/memory_map.c:256-267 | The intersections the count gathers are bounded by the entries that are not devices times the RAM ranges |
| DeviceMemory.SmallMapsAgree | kernel/memory_map.c:256-267 | Totals agree and the scratch suffices when that product is at most 64, and always when RAM is one block |
| Exclusion.KernelCoveredExactly | kernel/memory_map.c:590-603 | Kernel and boot reservations cover everything from the memory base to the end of the image, rounded up, if and only if the image neither starts nor ends in the last page, or no address lies between the two |
| Exclusion.KernelNeverFree | kernel/memory_map.c:590-603 | Under that condition nothing from the memory base to the end of the image, rounded up, is ever free |
| Exclusion.ImageCoveredExactly | kernel/memory_map.c:592-595 | Kernel and boot reservations cover the image, wherever the memory base is, if and only if it does not end in the last page or is empty |
| Exclusion.ImageNeverFree | kernel/memory_map.c:592-595 | Under that condition no address of the image is ever free |
| Exclusion.LinkedKernelNeverFree | kernel/linker.ld:6-55 | At the link address, with a stack and within the 2 GiB of its code model, the image is never free |
| Exclusion.ListingsDoNotMatter | kernel/memory_map.c:580-671 | Two platforms whose RAM addresses and reserved RAM addresses agree get the same RAM and free lists |
| CrowdedPlatform.DeviceCanSpoilTotals | kernel/memory_map.c:256-266 | On every two platforms with these lists, one with a device in a hole of RAM: its count is defined and its totals disagree, those of the other agree |
| CrowdedPlatform.DeviceCanOverrun | kernel/memory_map.c:256-266 | The same for other lists: the count overruns with the device, and is defined and agrees without it |
| CrowdedPlatform.DeviceCanPreventOverrun | kernel/memory_map.c:256-266 | The same for other lists: the count is defined and agrees with the device, and overruns without it |
| CrowdedPlatform.CrowdedBoots | kernel/memory_map.c:256-266 | Such platforms, with the device and without, on which the kernel boots |
| ScanLimit.ApartCounts | kernel/memory_map.c:256-267 | How many intersections the first entries of the table with the device make |
| ScanLimit.JoinedCounts | kernel/memory_map.c:256-267 | How many those of the table without it make |
| Regions.RegionAdd | kernel/memory_map.c:136-158 | Appends the rounded region, nothing for an empty one, or reports a full table and leaves it as it was |
| Regions.InsertNext | kernel/memory_map.c:169-178 | One turn of the sort inserts the entry behind all that do not start after it |
| Regions.SortRegions | kernel/memory_map.c:165-179 | The table prefix becomes its sorted form, the rest of the array stays |
| Regions.SortSorts | kernel/memory_map.c:165-179 | That form is in order and a permutation |
| Regions.SortStable | kernel/memory_map.c:165-179 | Entries with equal start keep their order |
| Regions.MergeStep | kernel/memory_map.c:199-213 | One turn of the merge extends the last entry of the same flags or opens a new one, in place |
| Regions.MergeRegions | kernel/memory_map.c:187-217 | The prefix of the returned length is the merge of the table |
| Merging.MergeKeepsClasses | kernel/memory_map.c:187-217 | For every pair of flags the covered addresses are the same before and after; the result is sorted, and neighbours differ in flags or leave a gap |
| Merging.MergeIsCanonical | kernel/memory_map.c:187-217 | A list of one flag pair merges to the canonical list of its addresses |
| Merging.MergeOrderIndependent | kernel/memory_map.c:187-217 | Neither order nor splitting of such a list changes the merged ranges |
| Merging.MergeIdempotent | kernel/memory_map.c:187-217 | Merging twice is merging once |
| Subtraction.SubtractIsDifference | kernel/memory_map.c:637-669 | The sweep yields the canonical list of RAM addresses outside every reserved range, also when reserved ranges overlap |
| Subtraction.SubtractDependsOnSetsOnly | kernel/memory_map.c:637-669 | Two listings of the same addresses give the same pieces |
| Subtraction.SubtractBound | kernel/memory_map.c:637-669 | At most one piece per RAM range and one per reserved range that starts inside RAM, hence never more than both lists together |
| Subtraction.SweepExact | kernel/memory_map.c:638-668 | Inside one RAM range, from the cursor on, an address is in a piece if and only if no reserved range holds it |
| FreeList.SubtractFrom | kernel/memory_map.c:638-668 | The inner loop stores the pieces of one RAM region behind what is there, or fills the table and reports it |
| FreeList.SubtractReserved | kernel/memory_map.c:637-669 | The whole loop stores RAM minus reserved, or as much as fits with an error |
| Intervals.CanonicalUnique | kernel/memory_map.c:187-217 | An address set has only one sorted list of ranges with gaps between them |
| Intervals.FuseIsCanonical | kernel/memory_map.c:283-299 | Extending the current range while the next one touches it gives the canonical list of the same set |
| Intervals.SumCountsDisjointOnce | kernel/memory_map.c:225-234 | Summing range by range counts distinct pages if and only if the ranges are disjoint |
| ClippedPages.Collect | kernel/memory_map.c:255-267 | The scratch holds the intersections of the regions visited, and the overrun is told exactly |
| ClippedPages.SortRanges | kernel/memory_map.c:269-281 | The exchange sort orders both arrays together and loses nothing |
| ClippedPages.SumFused | kernel/memory_map.c:283-299 | The last sweep sums the pages of the fused ranges without overflow |
| ClippedPages.SumPagesClippedToRam | kernel/memory_map.c:246-302 | The number of distinct pages in regions and RAM, over the regions visited, and over all of them with at most 64 intersections |
| ClippedPages.ClipCounts | kernel/memory_map.c:256-267 | There are as many intersections as pairs of a region and a RAM range that share an address |
| DeviceCount.ScanFitsExactly | kernel/memory_map.c:255-267 | The count is defined if and only if no region met with fewer than 64 intersections takes them beyond 64 |
| Intervals.SumAddsPages | kernel/memory_map.c:225-234 | The page sum adds the pages of each range |
| ClippedPages.ClipExact | kernel/memory_map.c:256-267 | The gathered intersections cover exactly the addresses in both lists |
| SelfChecks.SumPagesOf | kernel/memory_map.c:225-234 | The page sum with multiplicity, which cannot overflow below 4096 entries |
| SelfChecks.RegionOverlapsAny | kernel/memory_map.c:326-337 | Whether some region overlaps the range |
| SelfChecks.AddrInRegions | kernel/memory_map.c:453-463 | Whether the address is covered |
| SelfChecks.FreeOverlapsReserved | kernel/memory_map.c:428-444 | Whether some address is in both tables |
| SelfChecks.CheckTables | kernel/memory_map.c:673-681 | All totals and verdicts in terms of address sets and page sets |
| Collection.CollectRam | kernel/memory_map.c:576-588 | The RAM table, or an error if and only if the tree's memory is unreadable or lists more than 32 ranges |
| Collection.CollectFirm | kernel/memory_map.c:592-628 | Kernel, boot, blob and reserved-memory entries in this order; an absent or overlong `/reserved-memory` is no error |
| Collection.AddMmio | kernel/memory_map.c:399-410 | An empty range or one that meets RAM adds nothing, any other is added rounded with a saturated end |
| Collection.CollectNodeMmio | kernel/memory_map.c:388-412 | Reading entries until none is found visits exactly the node's bounded list |
| Collection.CollectMmio | kernel/memory_map.c:372-418 | The device regions of all nodes in tree order, or an error if and only if they do not fit |
| Machine.AlignDownIsFloor | kernel/memory_map.c:73-76 | The largest page boundary not above the value |
| Machine.AlignUpIsCeilingOrWraps | kernel/memory_map.c:84-87 | The smallest page boundary not below the value, or 0 in the last partial page |
| Machine.RoundingByPages | kernel/memory_map.c:73-87 | Both as multiples of 4096, and addition as a sum modulo 2^64 |
| RegDecoder.ReadCells | libs/dtb/dtb.c:36-49 | The big-endian number of one or two cells, a bad-cell-count error for any other count |
| RegDecoder.DecodeRegEntry | libs/dtb/dtb.c:233-292 | Entry `index` of the node's list, not-found from its length on, or the list's error |
| RegDecoder.DecodeRegList | libs/dtb/dtb.c:300-355 | As many entries as fit, no-space if and only if some do not, and the given count back on an error |
| RegDecoder.MemoryRegions | libs/dtb/dtb.c:1237-1274 | The first entries of the concatenation over all memory nodes, no-space if and only if there are more; or the first node's error, with the given count |
| RegDecoder.ReservedMemoryRegions | libs/dtb/dtb.c:1283-1320 | The same over the children of `/reserved-memory`, where a missing entry is tolerated |
| RegDecoder.GatherMeaning | libs/dtb/dtb.c:1251-1273 | A collection fails if and only if a selected node does; else it holds exactly what those nodes contribute |
| RegDecoder.GatherPlaces | libs/dtb/dtb.c:1301-1319 | The ranges of a node follow those of the nodes before it |
| RegDecoder.GatheredFrom | libs/dtb/dtb.c:1301-1319 | Every gathered range is one of the first eight of a selected node, behind those of the nodes before |
| RegDecoder.GatherErrors | libs/dtb/dtb.c:1307-1309 | A collection that tolerates missing lists and lack of space never fails for either |
| Readings.CellReads | libs/dtb/dtb.c:36-49 | A cell has a value if and only if its four bytes are that value's, the most significant first |
| Readings.NumberReads | libs/dtb/dtb.c:36-49 | Two cells are a 64-bit number, high cell first |
| Readings.RegReads | libs/dtb/dtb.c:304-355 | With the parent's cell counts usable, a node's list has one entry for every whole entry of `reg`, read from its cells |
| Readings.NoRegReads | libs/dtb/dtb.c:332-339 | Without `reg` the list is empty; another error is passed on |
| Readings.CellsFail | libs/dtb/dtb.c:316-329 | Otherwise there is no list: the error of the parent, of its address cells, of its size cells, or bad cell counts |
| Readings.MemoryNodesExactly | libs/dtb/dtb.c:1251-1255 | RAM is read from the nodes whose `device_type` is the bytes of "memory", ended by NUL or the property |
| Readings.ChildrenExactly | libs/dtb/dtb.c:1301-1303 | Reservations are read from every node with the given parent, and no other |
| RegCodec.CellsRoundTrip | libs/dtb/dtb.c:36-49 | Cells spell a number if and only if they are its big-endian encoding |
| RegCodec.DecodeEncode | libs/dtb/dtb.c:300-355 | Decoding an encoded list gives the list, whatever partial entry follows |
| RegCodec.EncodeDecode | libs/dtb/dtb.c:300-355 | Encoding what was decoded gives the property back up to a partial entry at its end |
| RegCodec.RegRoundTrip | libs/dtb/dtb.c:300-355 | The same at a node of a tree with its parent's cell counts |
| BusRanges.TranslateRanges | libs/dtb/dtb.c:472-552 | The translation of the node, identity without windows, or the error of the first missing ingredient |
| BusRanges.SearchWindows | libs/dtb/dtb.c:525-551 | The loop finds the translation through the decoded windows |
| BusRanges.TranslationReads | libs/dtb/dtb.c:506-551 | With usable cell counts a bus without `ranges`, or with an empty one, maps every address to itself; otherwise the first window hit moves it, modulo 2^64, and without one it is not found |
| BusRanges.TranslationFails | libs/dtb/dtb.c:487-504 | Otherwise the error is the parent's, or that of the child, parent or size cells, in this order, or bad cell counts |
| BusRanges.WindowRoundTrip | libs/dtb/dtb.c:525-542 | For every layout and every window: the bytes of an entry are the encoding of a window if and only if it is read there; whole entries only are read |
| BusRanges.TranslateUsesFirstHit | libs/dtb/dtb.c:525-551 | The result is the offset into the first window hit; there is none if and only if no window is hit |
| BusRanges.TranslateInjective | libs/dtb/dtb.c:544-548 | With disjoint parent sides no two addresses translate to the same one, even if child sides overlap |
| BusRanges.WindowServedUnlessAtTop | libs/dtb/dtb.c:544 | A window serves all of its addresses if and only if it is empty or ends below 2^64; otherwise it serves none |
| BusRanges.TopWindowUnserved | libs/dtb/dtb.c:544-551 | For every window that reaches the top there is a bus whose `ranges` holds it and on which none of its addresses is found |
| NodeQueries.SearchStrings | libs/dtb/dtb.c:105-112 | Whether the needle is one of the strings before the first empty one |
| NodeQueries.CompatHas | libs/dtb/dtb.c:88-113 | The same for a node's `compatible`; false without one, and for a null needle |
| NodeQueries.StringListRoundTrip | libs/dtb/dtb.c:105-112 | On a well-formed list the strings searched are the listed ones up to the first empty one |
| NodeQueries.ListedByStrings | libs/dtb/dtb.c:105-112 | For any property: a string and its NUL come before those of the rest, an empty string ends the list, and the last string needs no NUL |
| NodeQueries.U32PropReads | libs/dtb/dtb.c:55-71 | The value is the first four bytes, the most significant first; fewer are a bad value |
| NodeQueries.U32PropFails | libs/dtb/dtb.c:55-71 | It fails with an error if and only if the property does, or with a bad value for fewer than four bytes |
| NodeQueries.GetInterruptParent | libs/dtb/dtb.c:172-189 | The value at the nearest ancestor-or-self that has the property, the error of a malformed one, not-found if and only if nobody has it |
| Numerals.PutDec | drivers/uart/ns16550a.c:195-231 | The decimal notation is sent; the buffer limit is never reached |
| Numerals.PutDecU32 | drivers/uart/ns16550a.c:195-212 | The same for every 32-bit value and 11 bytes |
| Numerals.PutDecU64 | drivers/uart/ns16550a.c:214-231 | The same for every 64-bit value and 21 bytes |
| Numerals.PutDecI32 | drivers/uart/ns16550a.c:233-242 | A minus sign and the notation of the magnitude for negative values |
| Numerals.PutHexU64 | drivers/uart/ns16550a.c:185-193 | "0x" and sixteen digits, each the entry of the table 0 to 9, a to f for its four bits of the value; together they denote the value |
| Numerals.ValueByDigits | drivers/uart/ns16550a.c:205-206 | What a digit string denotes, digit by digit |
| Numerals.DecimalByDigits | drivers/uart/ns16550a.c:204-211 | Decimal notation ends with the digit of the remainder by ten, behind the notation of the quotient |
| Numerals.DecimalDenotes | drivers/uart/ns16550a.c:195-231 | Decimal notation evaluates to the number |
| Numerals.DecimalUnique | drivers/uart/ns16550a.c:195-231 | It is the only digit string without a leading zero that does |
| StdoutPath.ParseDigits | drivers/uart/uart_console.c:81-95 | The value of the longest digit run; giving up early is right, because no longer run fits 32 bits |
| StdoutPath.ParseBaud | drivers/uart/uart_console.c:50-96 | The meaning of the path, or the first error on the way to it |
| StdoutPath.PathReads | drivers/uart/uart_console.c:75-95 | Every path either has no colon before its end or first NUL, or is a name, a colon, a run of digits and a rest |
| StdoutPath.NoOptionsNoBaud | drivers/uart/uart_console.c:75-78 | In the first case the rate is not found |
| StdoutPath.SpelledRateIsBaud | drivers/uart/uart_console.c:81-95 | In the second it is not found without digits, their number if it fits 32 bits, and a bad value otherwise |
| StdoutPath.PrintParseRoundTrip | drivers/uart/uart_console.c:75-95 | A printed number behind a name is parsed back for every 32-bit value; any larger one is a bad value |

## Left out

- `mm_stage2_dump`, the flag and state dumps, UART registers, timeouts and dispatch tables: console output and volatile hardware; printers return the bytes they send.
- SBI calls, panic, hart control, timers, `kmain` and assembly: thin wrappers around firmware.
- libfdt: a tree gives each node its parent, cell counts and properties, each a value or an error, and the nodes of two paths; errors of the walk itself (`fdt_next_node`) and header checks are not part of this model.
- `dtb_detect_*`, `dtb_find_compatible*`, `dtb_get_u32`, CPU and device readers: single lookups without a hard property.
- The linker symbols and `hw->mem_base` are inputs of the build; what the boot code makes of them before is the predicate `Boards.Booted`.
- Null out-pointers and negative capacities of the decoders: no caller in the repository passes them. A null `hw`, tree and needle are modelled.
- The static buffers for tree ranges are local arrays of the same size: nothing reads them after a build.
- The region source is a literal or a node's `compatible`, compared as a value where C compares addresses; the text plays no part.
- Error returns after additions that always fit (32 RAM ranges into 32 entries, at most 35 fixed entries and 67 free pieces into 768) are not written out, as the stages prove that they fit.
- The frame allocator and page tables of the plan documents are not implemented there.
- MemoryMap.Map.Build: does not say what follows the write past the scratch arrays, because C leaves it undefined; after a failed build the tables may hold new entries under old counts, as in C.
- RegDecoder.DecodeRegEntry: does not model the overflow of `(index + 1) * stride * 4` in `int`, because every caller passes an index below 8 or below the entry count.
- Strings without a final NUL: `strcmp` and `strlen` would read the byte behind the property. That byte is always 0, as zero padding or as the first byte of the next big-endian token (section 5.4.1 of the Devicetree Specification v0.4), so `RegDecoder.MemoryRegions` and `NodeQueries.SearchStrings` end the string at the property's end.
- `Boards.Booted` is what the boot code needs to find, not how it searches: paths are fields of the tree, and a stdout path, other 16550 and timer names and disabled CPUs are left out of the boards.
- NodeQueries.GetInterruptParent: any failure to find a parent ends the climb with not-found, as in the code.
- Numerals.PutDecI32: takes the magnitude of the least `int` as a number, where C leaves `-value` undefined.
- Regions.SortRegions, ClippedPages.SumPagesClippedToRam and the other array methods: an array and its count stand for a C pointer with `int` count; a negative count is not modelled.
