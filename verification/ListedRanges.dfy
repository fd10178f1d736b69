// From the ranges a platform lists to the free list: an address is free exactly
// when some RAM range keeps it and no firm reservation does.
module ListedRanges {
  import opened Machine
  import opened Intervals
  import opened Regions
  import opened DeviceTree
  import opened RegDecoder
  import opened Readings
  import opened MapSpec
  import opened MapTheorems
  import opened DeviceMemory
  import opened Exclusion

  // Address x is in the range as it was written, whose end is not cut to 64 bits.
  predicate Lists(a: Addr, x: int) { a.base <= x < a.base + a.size }

  // Address x is in the region the build makes of the range.
  predicate Keeps(a: Addr, x: int) { AlignDown(a.base) <= x < AlignUp(Add(a.base, a.size)) }

  // The region holds the whole range, except for a range that reaches into the
  // last page of the address space: its end wraps and at best a page is left.
  lemma {:induction false} RangeKeptUnlessAtTop(a: Addr)
    ensures (forall x :: Lists(a, x) ==> Keeps(a, x)) <==> a.size == 0 || a.base + a.size <= U64_LIMIT - PAGE
  {
    AlignDownIsFloor(a.base, 0);
    AlignUpIsCeilingOrWraps(Add(a.base, a.size), 0);
    if a.size > 0 && a.base + a.size > U64_LIMIT - PAGE {
      assert Lists(a, a.base + a.size - 1) && !Keeps(a, a.base + a.size - 1);
    }
  }

  // The region holds nothing else exactly when the range is made of whole pages,
  // or comes to nothing. Rounding goes outward for RAM too.
  lemma {:induction false} NothingAddedToWholePages(a: Addr)
    ensures (forall x :: Keeps(a, x) ==> Lists(a, x)) <==>
      (Aligned(a.base) && Aligned(a.base + a.size)) || AlignUp(Add(a.base, a.size)) <= AlignDown(a.base)
  {
    var lo, hi := AlignDown(a.base), AlignUp(Add(a.base, a.size));
    AlignDownIsFloor(a.base, 0);
    AlignUpIsCeilingOrWraps(Add(a.base, a.size), 0);
    if lo < hi {
      assert Keeps(a, lo) && Keeps(a, hi - 1);
      assert (forall x :: Keeps(a, x) ==> Lists(a, x)) <==> a.base <= lo && hi <= a.base + a.size;
    }
  }

  lemma {:induction false} KeptByRounding(x: int, list: seq<Addr>, pte: u8, protect: u16, source: Source)
    ensures Covered(x, Spans(RoundedAll(list, pte, protect, source))) <==> exists a :: a in list && Keeps(a, x)
  {
    if list != [] {
      var init, a := list[..|list| - 1], list[|list| - 1];
      var before := RoundedAll(init, pte, protect, source);
      var last := Rounded(a.base, Add(a.base, a.size), pte, protect, source);
      KeptByRounding(x, init, pte, protect, source);
      CoveredByRounded(x, a.base, Add(a.base, a.size), pte, protect, source);
      SpansConcat(before, last);
      CoveredConcat(x, Spans(before), Spans(last));
      assert Covered(x, Spans(RoundedAll(list, pte, protect, source))) <==>
        (exists b :: b in init && Keeps(b, x)) || Keeps(a, x);
    }
  }

  // A device range outside RAM is reserved whole, except one that reaches into
  // the last page: its saturated end wraps when it is rounded, and nothing of it
  // is reserved.
  lemma {:induction false} DeviceRangeKeptUnlessAtTop(node: nat, a: Addr, ram: seq<Span>)
    requires a.size > 0 && a.base < U64_MAX && !OverlapsAny(MmioSpan(a), ram)
    ensures (forall x :: In(x, MmioSpan(a)) ==> Covered(x, Spans(MmioEntry(node, a, ram)))) <==>
      a.base + a.size <= U64_LIMIT - PAGE
    ensures a.base + a.size > U64_LIMIT - PAGE ==> MmioEntry(node, a, ram) == []
  {
    var s := MmioSpan(a);
    AlignDownIsFloor(s.start, 0);
    AlignUpIsCeilingOrWraps(s.end, 0);
    if a.base + a.size > U64_LIMIT - PAGE {
      assert In(s.start, s);
    } else {
      forall x | In(x, s) ensures Covered(x, Spans(MmioEntry(node, a, ram))) {
        CoveredByRounded(x, s.start, s.end, MM_RW, FLAG_MMIO, Compatible(node));
      }
    }
  }

  // The image with everything below it down to the memory base, and the blob.
  predicate KernelKeeps(p: Platform, x: int) {
    (AlignDown(p.kernelStart) <= x < AlignUp(p.kernelImageEnd)) ||
    (AlignDown(p.memBase) <= x < AlignUp(p.kernelStart))
  }

  predicate BlobKeeps(p: Platform, x: int) {
    p.fdt.Some? && p.fdt.value.totalSize > 0 && Keeps(Addr(p.fdt.value.address, p.fdt.value.totalSize), x)
  }

  predicate RamKeeps(p: Platform, x: int)
    requires p.WellFormed()
  {
    MemoryRanges(p.fdt).Got? && exists a :: a in MemoryRanges(p.fdt).value && Keeps(a, x)
  }

  predicate ReservedKeeps(p: Platform, x: int)
    requires p.WellFormed()
  {
    exists a :: a in ReservedList(p) && Keeps(a, x)
  }

  lemma {:induction false} FirmKeeps(p: Platform, x: int)
    requires p.WellFormed()
    ensures Covered(x, Spans(FirmCandidates(p))) <==>
      KernelKeeps(p, x) || BlobKeeps(p, x) || ReservedKeeps(p, x)
  {
    var kernel, blob := KernelCandidates(p), BlobCandidates(p);
    var listed := RoundedAll(ReservedList(p), MM_R, FLAG_RESERVED, Literal("dtb-reserved"));
    KernelCoverage(x, p);
    KeptByRounding(x, ReservedList(p), MM_R, FLAG_RESERVED, Literal("dtb-reserved"));
    SpansConcat(kernel, blob);
    SpansConcat(kernel + blob, listed);
    CoveredConcat(x, Spans(kernel), Spans(blob));
    CoveredConcat(x, Spans(kernel + blob), Spans(listed));
    if p.fdt.Some? && p.fdt.value.totalSize > 0 {
      CoveredByRounded(x, p.fdt.value.address, Add(p.fdt.value.address, p.fdt.value.totalSize),
                       MM_R, FLAG_DTB + FLAG_RESERVED, Literal("dtb"));
    }
  }

  // The free list in terms of the platform alone. Devices play no part, and
  // neither do order, overlap or splitting of the ranges.
  lemma {:induction false} FreeExactly(p: Platform, x: int)
    requires p.WellFormed() && ExpectedStatus(p) == Ok
    ensures Covered(x, FreeSpans(p)) <==>
      RamKeeps(p, x) && !KernelKeeps(p, x) && !BlobKeeps(p, x) && !ReservedKeeps(p, x)
  {
    var all := MemoryRanges(p.fdt).value;
    assert Firsts(all) == all;
    FreeIsRamMinusReserved(p);
    RamTableShape(p);
    ReservedTableShape(p);
    KeptByRounding(x, all, MM_RW, FLAG_ALLOCATABLE, Literal("dtb-memory"));
    if Covered(x, Spans(RamTable(p))) { ReservedInRamIsFirm(p, x); }
    FirmKeeps(p, x);
  }

  // ---- Never free ----

  // A gathered reserved-memory range that ends below the last page of the
  // address space is never free.
  lemma {:induction false} ReservedRangeNeverFree(p: Platform, a: Addr, x: int)
    requires p.WellFormed() && ExpectedStatus(p) == Ok
    requires a in ReservedList(p) && Lists(a, x) && a.base + a.size <= U64_LIMIT - PAGE
    ensures !Covered(x, FreeSpans(p))
  {
    RangeKeptUnlessAtTop(a);
    FreeExactly(p, x);
  }

  // The ranges a node has, as far as the code reads them: eight at most.
  function RangesRead(t: Tree, node: nat): nat
    requires t.WellFormed() && node < |t.nodes|
  {
    if RegList(t, node).Got? then Min(|RegList(t, node).value|, 8) else 0
  }

  // How many ranges the subnodes of /reserved-memory before a node contribute.
  function ReservedBefore(t: Tree, node: nat): nat
    requires t.WellFormed() && node <= |t.nodes|
  {
    if node == 0 then 0
    else
      ReservedBefore(t, node - 1) +
      if t.nodes[node - 1].parent == t.reservedMemory then RangesRead(t, node - 1) else 0
  }

  lemma {:induction false} GatheredBefore(t: Tree, r: nat, node: nat)
    requires t.WellFormed() && t.reservedMemory == Got(r) && node <= |t.nodes|
    requires Gather(t, Children(t, r), true, node).Got?
    ensures |Gather(t, Children(t, r), true, node).value| == ReservedBefore(t, node)
  {
    if node > 0 {
      GatheredBefore(t, r, node - 1);
      ChildrenExactly(t, r, node - 1);
    }
  }

  lemma {:induction false} GatheredEntry(t: Tree, select: set<nat>, node: nat, k: nat)
    requires t.WellFormed() && node in select && node < |t.nodes|
    requires Gather(t, select, true, |t.nodes|).Got?
    requires RegList(t, node).Got? && k < |RegList(t, node).value| && k < MAX_REGS
    ensures Gather(t, select, true, node).Got?
    ensures var i, all := |Gather(t, select, true, node).value| + k, Gather(t, select, true, |t.nodes|).value;
      i < |all| && all[i] == RegList(t, node).value[k]
  {
    GatherPlaces(t, select, true, node, |t.nodes|);
    var before, row := Gather(t, select, true, node).value, FirstRegs(RegList(t, node).value);
    assert Contribution(t, node, true) == Got(row);
    assert (before + row)[|before| + k] == RegList(t, node).value[k];
  }

  lemma {:induction false} FirstsHold(all: seq<Addr>, i: nat)
    requires i < |all| && i < MAX_RAM
    ensures all[i] in Firsts(all)
  {
    assert Firsts(all)[i] == all[i];
  }

  // The tree lists range a as entry k of a subnode of /reserved-memory, within the
  // first eight of the node and the first 32 of all of them.
  predicate ReservedAt(t: Tree, node: nat, k: nat, a: Addr)
    requires t.WellFormed() && t.reservedMemory.Got?
  {
    && node < |t.nodes| && t.nodes[node].parent == t.reservedMemory
    && RegList(t, node).Got? && k < |RegList(t, node).value| && RegList(t, node).value[k] == a
    && k < 8 && ReservedBefore(t, node) + k < 32
  }

  ghost predicate ReservedInTree(t: Tree, a: Addr)
    requires t.WellFormed() && t.reservedMemory.Got?
  {
    exists node: nat, k: nat :: ReservedAt(t, node, k, a)
  }

  // A tree for which the build gets past its ranges lists them without a fault.
  lemma {:induction false} ReservedAreGathered(p: Platform)
    requires p.WellFormed() && ExpectedStatus(p) == Ok && p.fdt.value.reservedMemory.Got?
    ensures ReservedRanges(p.fdt).Got?
  {
    var t := p.fdt.value;
    if ReservedRanges(p.fdt).Failed? { GatherErrors(t, Children(t, t.reservedMemory.value), |t.nodes|); }
  }

  // What is gathered is exactly what the tree lists within those limits.
  lemma {:induction false} ReservedExactly(p: Platform, a: Addr)
    requires p.WellFormed() && p.fdt.Some? && p.fdt.value.reservedMemory.Got? && ReservedRanges(p.fdt).Got?
    ensures a in ReservedList(p) <==> ReservedInTree(p.fdt.value, a)
  {
    var t := p.fdt.value;
    var select, all := Children(t, t.reservedMemory.value), ReservedRanges(p.fdt).value;
    if ReservedInTree(t, a) {
      var node: nat, k: nat :| ReservedAt(t, node, k, a);
      ChildrenExactly(t, t.reservedMemory.value, node);
      GatheredEntry(t, select, node, k);
      GatheredBefore(t, t.reservedMemory.value, node);
      FirstsHold(all, ReservedBefore(t, node) + k);
    }
    if a in ReservedList(p) {
      var at :| 0 <= at < |ReservedList(p)| && ReservedList(p)[at] == a;
      var node, k := GatheredFrom(t, select, true, |t.nodes|, at);
      ChildrenExactly(t, t.reservedMemory.value, node);
      GatheredBefore(t, t.reservedMemory.value, node);
      assert ReservedAt(t, node, k, a);
    }
  }

  // The tree lists range a among the first eight of a memory node.
  ghost predicate RamInTree(t: Tree, a: Addr)
    requires t.WellFormed()
  {
    exists node: nat, k: nat :: RamAt(t, node, k, a)
  }

  predicate RamAt(t: Tree, node: nat, k: nat, a: Addr)
    requires t.WellFormed()
  {
    && node < |t.nodes| && IsMemoryNode(t, node)
    && RegList(t, node).Got? && k < |RegList(t, node).value| && RegList(t, node).value[k] == a && k < 8
  }

  // The node's device_type property begins with the string "memory".
  predicate IsMemoryNode(t: Tree, node: nat)
    requires node < |t.nodes|
  {
    t.Prop(node, "device_type").Got? && SaysMemory(t.Prop(node, "device_type").value)
  }

  lemma {:induction false} RamExactly(p: Platform, a: Addr)
    requires p.WellFormed() && p.fdt.Some? && MemoryRanges(p.fdt).Got?
    ensures a in MemoryRanges(p.fdt).value <==> RamInTree(p.fdt.value, a)
  {
    var t := p.fdt.value;
    var select, all := MemoryNodes(t), MemoryRanges(p.fdt).value;
    if RamInTree(t, a) {
      var node: nat, k: nat :| RamAt(t, node, k, a);
      MemoryNodesExactly(t, node);
      RamEntry(t, node, k);
    }
    if a in all {
      var at :| 0 <= at < |all| && all[at] == a;
      var node, k := GatheredFrom(t, select, false, |t.nodes|, at);
      MemoryNodesExactly(t, node);
      assert RamAt(t, node, k, a);
    }
  }

  lemma {:induction false} RamEntry(t: Tree, node: nat, k: nat)
    requires t.WellFormed() && node < |t.nodes| && IsMemory(t, node)
    requires Gather(t, MemoryNodes(t), false, |t.nodes|).Got?
    requires RegList(t, node).Got? && k < |RegList(t, node).value| && k < MAX_REGS
    ensures RegList(t, node).value[k] in Gather(t, MemoryNodes(t), false, |t.nodes|).value
  {
    var list := RegList(t, node).value;
    GatherMeaning(t, MemoryNodes(t), false, |t.nodes|);
    assert Contribution(t, node, false) == Got(FirstRegs(list)) && FirstRegs(list)[k] == list[k];
  }

  // ---- From the tree to the free list ----

  ghost predicate TreeReserves(t: Tree, x: int)
    requires t.WellFormed()
  {
    t.reservedMemory.Got? && exists a :: ReservedInTree(t, a) && Keeps(a, x)
  }

  // The free list in terms of the tree: some memory node lists RAM there, and
  // neither kernel nor blob nor a /reserved-memory child within the limits has it.
  lemma {:induction false} FreeFromTree(p: Platform, x: int)
    requires p.WellFormed() && ExpectedStatus(p) == Ok
    ensures Covered(x, FreeSpans(p)) <==>
      && (exists a :: RamInTree(p.fdt.value, a) && Keeps(a, x))
      && !KernelKeeps(p, x) && !BlobKeeps(p, x) && !TreeReserves(p.fdt.value, x)
  {
    FreeExactly(p, x);
    RamFromTree(p, x);
    ReservedFromTree(p, x);
  }

  lemma {:induction false} RamFromTree(p: Platform, x: int)
    requires p.WellFormed() && ExpectedStatus(p) == Ok
    ensures RamKeeps(p, x) <==> exists a :: RamInTree(p.fdt.value, a) && Keeps(a, x)
  {
    if RamKeeps(p, x) {
      var a :| a in MemoryRanges(p.fdt).value && Keeps(a, x);
      RamExactly(p, a);
    }
    if a :| RamInTree(p.fdt.value, a) && Keeps(a, x) { RamExactly(p, a); }
  }

  lemma {:induction false} ReservedFromTree(p: Platform, x: int)
    requires p.WellFormed() && ExpectedStatus(p) == Ok
    ensures ReservedKeeps(p, x) <==> TreeReserves(p.fdt.value, x)
  {
    var t := p.fdt.value;
    if t.reservedMemory.Got? {
      ReservedAreGathered(p);
      if ReservedKeeps(p, x) {
        var a :| a in ReservedList(p) && Keeps(a, x);
        ReservedExactly(p, a);
      }
      if a :| ReservedInTree(t, a) && Keeps(a, x) { ReservedExactly(p, a); }
    }
  }

  lemma {:induction false} ReservedNodeNeverFree(p: Platform, node: nat, k: nat, a: Addr, x: int)
    requires p.WellFormed() && ExpectedStatus(p) == Ok && p.fdt.value.reservedMemory.Got?
    requires ReservedAt(p.fdt.value, node, k, a) && Lists(a, x) && a.base + a.size <= U64_LIMIT - PAGE
    ensures !Covered(x, FreeSpans(p))
  {
    ReservedAreGathered(p);
    ReservedExactly(p, a);
    ReservedRangeNeverFree(p, a, x);
  }

  lemma {:induction false} BlobNeverFree(p: Platform, x: int)
    requires p.WellFormed() && ExpectedStatus(p) == Ok
    requires Lists(Addr(p.fdt.value.address, p.fdt.value.totalSize), x)
    requires p.fdt.value.address + p.fdt.value.totalSize <= U64_LIMIT - PAGE
    ensures !Covered(x, FreeSpans(p))
  {
    RangeKeptUnlessAtTop(Addr(p.fdt.value.address, p.fdt.value.totalSize));
    FreeExactly(p, x);
  }

  // Free memory is memory the tree lists, if the tree lists whole pages.
  lemma {:induction false} FreeIsListedRam(p: Platform, x: int)
    requires p.WellFormed() && ExpectedStatus(p) == Ok
    requires forall a :: a in MemoryRanges(p.fdt).value ==> Aligned(a.base) && Aligned(a.base + a.size)
    requires Covered(x, FreeSpans(p))
    ensures exists a :: a in MemoryRanges(p.fdt).value && Lists(a, x)
  {
    FreeExactly(p, x);
    var a :| a in MemoryRanges(p.fdt).value && Keeps(a, x);
    NothingAddedToWholePages(a);
  }

  // ---- The first free frame ----

  // An image that runs upward and ends below the last page.
  predicate KernelUpright(p: Platform) { p.kernelStart <= p.kernelImageEnd <= U64_LIMIT - PAGE }

  // Kernel and boot area together are one run of pages up to the first free frame.
  lemma {:induction false} KernelKeepsUpToFrame(p: Platform, x: int)
    requires KernelUpright(p)
    ensures KernelKeeps(p, x) <==> AlignDown(Min(p.memBase, p.kernelStart)) <= x < FirstFreeFrame(p)
  {
    AlignDownIsFloor(p.kernelStart, 0);
    RoundingIsMonotone(p.kernelStart, p.kernelImageEnd);
    if p.memBase <= p.kernelStart {
      RoundingIsMonotone(p.memBase, p.kernelStart);
    } else {
      RoundingIsMonotone(p.kernelStart, p.memBase);
    }
  }

  // The first free frame is free exactly when RAM reaches there and neither the
  // blob nor a reserved-memory range does.
  lemma {:induction false} FrameIsFreeExactly(p: Platform)
    requires p.WellFormed() && ExpectedStatus(p) == Ok && KernelUpright(p)
    ensures Covered(FirstFreeFrame(p), FreeSpans(p)) <==>
      RamKeeps(p, FirstFreeFrame(p)) && !BlobKeeps(p, FirstFreeFrame(p)) && !ReservedKeeps(p, FirstFreeFrame(p))
  {
    FreeExactly(p, FirstFreeFrame(p));
    KernelKeepsUpToFrame(p, FirstFreeFrame(p));
  }

  // Free memory starts at the first free frame exactly when all RAM below the
  // boot area and the kernel is reserved by something else.
  lemma {:induction false} FreeStartsAtFrame(p: Platform)
    requires p.WellFormed() && ExpectedStatus(p) == Ok && KernelUpright(p)
    ensures (forall x :: Covered(x, FreeSpans(p)) ==> x >= FirstFreeFrame(p)) <==>
      forall x :: RamKeeps(p, x) && x < AlignDown(Min(p.memBase, p.kernelStart)) ==>
        BlobKeeps(p, x) || ReservedKeeps(p, x)
  {
    var low := AlignDown(Min(p.memBase, p.kernelStart));
    AlignDownIsFloor(Min(p.memBase, p.kernelStart), 0);
    AlignUpIsCeilingOrWraps(p.kernelImageEnd, 0);
    forall x ensures Covered(x, FreeSpans(p)) <==>
      RamKeeps(p, x) && !BlobKeeps(p, x) && !ReservedKeeps(p, x) && !(low <= x < FirstFreeFrame(p))
    {
      FreeExactly(p, x);
      KernelKeepsUpToFrame(p, x);
    }
  }

  // It does when the memory base is the lowest listed RAM address.
  lemma {:induction false} FreeStartsAtFrameFromLowestBase(p: Platform, x: int)
    requires p.WellFormed() && ExpectedStatus(p) == Ok && KernelUpright(p) && p.memBase <= p.kernelStart
    requires forall a :: a in MemoryRanges(p.fdt).value ==> p.memBase <= a.base
    requires Covered(x, FreeSpans(p))
    ensures x >= FirstFreeFrame(p)
  {
    FreeStartsAtFrame(p);
    forall y | RamKeeps(p, y) ensures y >= AlignDown(p.memBase) { KeptFromLowestBase(p, y); }
  }

  lemma {:induction false} KeptFromLowestBase(p: Platform, y: int)
    requires p.WellFormed() && RamKeeps(p, y)
    requires forall a :: a in MemoryRanges(p.fdt).value ==> p.memBase <= a.base
    ensures y >= AlignDown(p.memBase)
  {
    var a :| a in MemoryRanges(p.fdt).value && Keeps(a, y);
    RoundingIsMonotone(p.memBase, a.base);
  }
}
