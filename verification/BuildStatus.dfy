// When the build fails, and how: its status in terms of the tree.
module BuildStatus {
  import opened Machine
  import opened Intervals
  import opened Regions
  import opened DeviceTree
  import opened RegDecoder
  import opened Readings
  import opened MapSpec
  import opened Collection
  import opened ListedRanges
  import opened TableClasses

  // ---- RAM ----

  // Before node n, a memory node's ranges cannot be read.
  predicate RamFault(t: Tree, n: nat)
    requires t.WellFormed() && n <= |t.nodes|
  {
    exists i :: 0 <= i < n && IsMemoryNode(t, i) && RegList(t, i).Failed? && RegList(t, i).error != NoSpace
  }

  // How many ranges the memory nodes before node n contribute.
  function RamBefore(t: Tree, n: nat): nat
    requires t.WellFormed() && n <= |t.nodes|
  {
    if n == 0 then 0
    else RamBefore(t, n - 1) + if IsMemoryNode(t, n - 1) then RangesRead(t, n - 1) else 0
  }

  lemma {:induction false} RamGathered(t: Tree, n: nat)
    requires t.WellFormed() && n <= |t.nodes|
    ensures Gather(t, MemoryNodes(t), false, n).Failed? <==> RamFault(t, n)
    ensures !RamFault(t, n) ==> |Gather(t, MemoryNodes(t), false, n).value| == RamBefore(t, n)
  {
    if n > 0 {
      RamGathered(t, n - 1);
      MemoryNodesExactly(t, n - 1);
      assert RamFault(t, n) <==>
        || RamFault(t, n - 1)
        || (IsMemoryNode(t, n - 1) && RegList(t, n - 1).Failed? && RegList(t, n - 1).error != NoSpace);
    }
  }

  // ---- Reserved memory ----

  // Before node n, the ranges of a subnode of /reserved-memory cannot be read.
  predicate ReservedFault(t: Tree, n: nat)
    requires t.WellFormed() && n <= |t.nodes|
  {
    exists i :: 0 <= i < n && t.nodes[i].parent == t.reservedMemory &&
      RegList(t, i).Failed? && RegList(t, i).error != NoSpace && RegList(t, i).error != NotFound
  }

  lemma {:induction false} ReservedGathered(t: Tree, r: nat, n: nat)
    requires t.WellFormed() && t.reservedMemory == Got(r) && n <= |t.nodes|
    ensures Gather(t, Children(t, r), true, n).Failed? <==> ReservedFault(t, n)
  {
    if n > 0 {
      ReservedGathered(t, r, n - 1);
      ChildrenExactly(t, r, n - 1);
      assert ReservedFault(t, n) <==>
        || ReservedFault(t, n - 1)
        || (t.nodes[n - 1].parent == t.reservedMemory && RegList(t, n - 1).Failed? &&
            RegList(t, n - 1).error != NoSpace && RegList(t, n - 1).error != NotFound);
    }
  }

  // The path leads nowhere for another reason than absence, or a subnode fails.
  predicate ReservedUnreadable(t: Tree)
    requires t.WellFormed()
  {
    if t.reservedMemory.Failed? then t.reservedMemory.error != NotFound && t.reservedMemory.error != NoSpace
    else ReservedFault(t, |t.nodes|)
  }

  lemma {:induction false} ReservedFails(p: Platform, t: Tree)
    requires p.WellFormed() && p.fdt == Some(t)
    ensures (ReservedRanges(p.fdt).Failed? && ReservedRanges(p.fdt).error !in {NotFound, NoSpace}) <==>
      ReservedUnreadable(t)
  {
    if t.reservedMemory.Got? {
      ReservedGathered(t, t.reservedMemory.value, |t.nodes|);
      if ReservedRanges(p.fdt).Failed? { GatherErrors(t, Children(t, t.reservedMemory.value), |t.nodes|); }
    }
  }

  // ---- How many entries there are ----

  function One(b: bool): nat { if b then 1 else 0 }

  // Entries of the listed reservations before number n of them.
  function ListedBefore(list: seq<Addr>, n: nat): nat
    requires n <= |list|
  {
    if n == 0 then 0
    else
      ListedBefore(list, n - 1) +
      One(AlignDown(list[n - 1].base) < AlignUp(Add(list[n - 1].base, list[n - 1].size)))
  }

  lemma {:induction false} RoundedCount(list: seq<Addr>, n: nat, pte: u8, protect: u16, source: Source)
    requires n <= |list|
    ensures |RoundedAll(list[..n], pte, protect, source)| == ListedBefore(list, n)
  {
    if n > 0 {
      RoundedCount(list, n - 1, pte, protect, source);
      assert list[..n][..n - 1] == list[..n - 1];
    }
  }

  // Entry k of the node is device memory outside RAM, and comes to something.
  ghost predicate AddsDevice(p: Platform, t: Tree, node: nat, k: nat)
    requires p.WellFormed() && t.WellFormed()
  {
    exists a :: DeviceAt(t, node, k, a) && OutsideRam(p, a) && AlignDown(a.base) < AlignUp(SaturatedEnd(a))
  }

  ghost function DevicesOf(p: Platform, t: Tree, node: nat, k: nat): nat
    requires p.WellFormed() && t.WellFormed()
  {
    if k == 0 then 0 else DevicesOf(p, t, node, k - 1) + One(AddsDevice(p, t, node, k - 1))
  }

  // Device entries of the nodes before node n.
  ghost function DevicesBefore(p: Platform, t: Tree, n: nat): nat
    requires p.WellFormed() && t.WellFormed()
  {
    if n == 0 then 0 else DevicesBefore(p, t, n - 1) + DevicesOf(p, t, n - 1, 8)
  }

  lemma {:induction false} MmioEntryCount(p: Platform, node: nat, a: Addr)
    requires p.WellFormed()
    ensures |MmioEntry(node, a, Spans(RamTable(p)))| ==
      One(a.size > 0 && OutsideRam(p, a) && AlignDown(a.base) < AlignUp(SaturatedEnd(a)))
  {
    var row := MmioEntry(node, a, Spans(RamTable(p)));
    MmioEntryHas(p, node, a, AlignDown(a.base));
    if row != [] {
      assert In(AlignDown(a.base), Spans(row)[0]);
    }
  }

  // The first k entries of a device node; there are no more from the end of its
  // list on.
  lemma {:induction false} NodeCount(p: Platform, t: Tree, node: nat, list: seq<Addr>, ram: seq<Span>, k: nat)
    requires p.WellFormed() && t.WellFormed() && node < |t.nodes| && k <= 8
    requires HasCompatible(t, node) && list == NodeRegs(t, node) && ram == Spans(RamTable(p))
    ensures |MmioTo(node, list, k, ram)| == DevicesOf(p, t, node, k)
  {
    if k == 0 {
      assert list[..0] == [];
    } else {
      NodeCount(p, t, node, list, ram, k - 1);
      NodeTurn(p, t, node, list, ram, k - 1);
    }
  }

  lemma {:induction false} NodeTurn(p: Platform, t: Tree, node: nat, list: seq<Addr>, ram: seq<Span>, k: nat)
    requires p.WellFormed() && t.WellFormed() && node < |t.nodes| && k < 8
    requires HasCompatible(t, node) && list == NodeRegs(t, node) && ram == Spans(RamTable(p))
    ensures |MmioTo(node, list, k + 1, ram)| == |MmioTo(node, list, k, ram)| + One(AddsDevice(p, t, node, k))
  {
    MmioTurn(node, list, k, ram);
    if k < |list| {
      MmioEntryCount(p, node, list[k]);
      assert DeviceAt(t, node, k, list[k]) <==> list[k].size > 0;
    }
  }

  lemma {:induction false} NoDeviceCount(p: Platform, t: Tree, node: nat, k: nat)
    requires p.WellFormed() && t.WellFormed() && node < |t.nodes| && !HasCompatible(t, node)
    ensures DevicesOf(p, t, node, k) == 0
  {
    if k > 0 {
      NoDeviceCount(p, t, node, k - 1);
      assert !AddsDevice(p, t, node, k - 1);
    }
  }

  lemma {:induction false} NodeAdds(p: Platform, t: Tree, node: nat)
    requires p.WellFormed() && t.WellFormed() && node < |t.nodes|
    ensures |MmioOfNode(t, node, Spans(RamTable(p)))| == DevicesOf(p, t, node, 8)
  {
    if HasCompatible(t, node) {
      var list := NodeRegs(t, node);
      NodeCount(p, t, node, list, Spans(RamTable(p)), 8);
      MmioTurn(node, list, 8, Spans(RamTable(p)));
    } else {
      NoDeviceCount(p, t, node, 8);
    }
  }

  lemma {:induction false} RowsCount(p: Platform, t: Tree, n: nat)
    requires p.WellFormed() && t.WellFormed() && n <= |t.nodes|
    ensures |Flatten(MmioRows(t, Spans(RamTable(p)))[..n])| == DevicesBefore(p, t, n)
  {
    if n > 0 {
      var rows := MmioRows(t, Spans(RamTable(p)));
      RowsCount(p, t, n - 1);
      assert rows[..n][..n - 1] == rows[..n - 1];
      NodeAdds(p, t, n - 1);
    }
  }

  // What the reserved table has to take: an entry for the image, the area below
  // it, the blob, every listed reservation and every device range.
  ghost function ReservedSize(p: Platform, t: Tree): nat
    requires p.WellFormed() && t.WellFormed()
  {
    One(AlignDown(p.kernelStart) < AlignUp(p.kernelImageEnd)) +
    One(AlignDown(p.memBase) < AlignUp(p.kernelStart)) +
    One(t.totalSize > 0 && AlignDown(t.address) < AlignUp(Add(t.address, t.totalSize))) +
    ListedBefore(ReservedList(p), |ReservedList(p)|) +
    DevicesBefore(p, t, |t.nodes|)
  }

  lemma {:induction false} FirmCandidatesCount(p: Platform, t: Tree)
    requires p.WellFormed() && p.fdt == Some(t)
    ensures |FirmCandidates(p)| ==
      One(AlignDown(p.kernelStart) < AlignUp(p.kernelImageEnd)) +
      One(AlignDown(p.memBase) < AlignUp(p.kernelStart)) +
      One(t.totalSize > 0 && AlignDown(t.address) < AlignUp(Add(t.address, t.totalSize))) +
      ListedBefore(ReservedList(p), |ReservedList(p)|)
  {
    var list := ReservedList(p);
    RoundedCount(list, |list|, MM_R, FLAG_RESERVED, Literal("dtb-reserved"));
    assert list[..|list|] == list;
  }

  lemma {:induction false} CandidatesCount(p: Platform, t: Tree)
    requires p.WellFormed() && p.fdt == Some(t)
    ensures |ReservedCandidates(p)| == ReservedSize(p, t)
  {
    var rows := MmioRows(t, Spans(RamTable(p)));
    FirmCandidatesCount(p, t);
    RowsCount(p, t, |t.nodes|);
    assert rows[..|t.nodes|] == rows;
  }

  // ---- The status ----

  // The first stage that fails decides: RAM that is absent, unreadable or listed in
  // more than 32 ranges, reservations that are unreadable, or more than 768 entries.
  lemma {:induction false} StatusExactly(p: Platform)
    requires p.WellFormed()
    ensures p.fdt.None? ==> ExpectedStatus(p) == DtbRam
    ensures p.fdt.Some? ==>
      var t := p.fdt.value;
      ExpectedStatus(p) ==
        if RamFault(t, |t.nodes|) || RamBefore(t, |t.nodes|) > 32 then DtbRam
        else if ReservedUnreadable(t) then DtbReserved
        else if ReservedSize(p, t) > 768 then DtbDeviceScan
        else Ok
  {
    if p.fdt.Some? {
      var t := p.fdt.value;
      RamGathered(t, |t.nodes|);
      ReservedFails(p, t);
      CandidatesCount(p, t);
    }
  }
}
