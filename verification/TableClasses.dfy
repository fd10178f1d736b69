// Permissions and protection flags of the three tables, class by class in terms of
// the platform, and which ranges of which nodes are device memory.
module TableClasses {
  import opened Machine
  import opened Intervals
  import opened Regions
  import opened Merging
  import opened FreeList
  import opened DeviceTree
  import opened RegDecoder
  import opened MapSpec
  import opened MapTheorems
  import opened DeviceMemory
  import opened Exclusion
  import opened ListedRanges

  predicate AllAs(s: seq<Region>, pte: u8, protect: u16) {
    forall r :: r in s ==> r.pte == pte && r.protect == protect
  }

  lemma {:induction false} CoveredAsOne(x: int, s: seq<Region>, own: u8, flags: u16, pte: u8, protect: u16)
    requires AllAs(s, own, flags)
    ensures CoveredAs(x, s, pte, protect) <==> pte == own && protect == flags && Covered(x, Spans(s))
  {
    CoveredByRegions(x, s);
  }

  lemma {:induction false} CoveredAsConcat(x: int, s: seq<Region>, t: seq<Region>, pte: u8, protect: u16)
    ensures CoveredAs(x, s + t, pte, protect) <==> CoveredAs(x, s, pte, protect) || CoveredAs(x, t, pte, protect)
  {
    assert forall r :: r in s + t <==> r in s || r in t;
  }

  // ---- RAM and free memory ----

  // Listed RAM is readable, writable and allocatable, and nothing else is.
  lemma {:induction false} RamClasses(p: Platform, x: int, pte: u8, protect: u16)
    requires p.WellFormed() && ExpectedStatus(p) == Ok
    ensures CoveredAs(x, RamTable(p), pte, protect) <==> pte == 0x06 && protect == 0x01 && RamKeeps(p, x)
  {
    var all := MemoryRanges(p.fdt).value;
    assert Firsts(all) == all;
    MergeKeepsClasses(RamCandidates(p));
    KeptByRounding(x, all, MM_RW, FLAG_ALLOCATABLE, Literal("dtb-memory"));
    CoveredAsOne(x, RamCandidates(p), MM_RW, FLAG_ALLOCATABLE, pte, protect);
  }

  lemma {:induction false} FreeClasses(p: Platform, x: int, pte: u8, protect: u16)
    requires p.WellFormed()
    ensures CoveredAs(x, FreeRegions(FreeSpans(p)), pte, protect) <==>
      pte == 0x06 && protect == 0x01 && Covered(x, FreeSpans(p))
  {
    FreeTableShape(p);
    CoveredAsOne(x, FreeRegions(FreeSpans(p)), MM_RW, FLAG_ALLOCATABLE, pte, protect);
  }

  // An entry of a merged table has the class of some candidate.
  lemma {:induction false} EntryClass(s: seq<Region>, r: Region) returns (c: Region)
    requires WholePages(s) && r in Merge(s)
    ensures c in s && c.SameClass(r)
  {
    MergeKeepsClasses(s);
    assert r.Whole() && In(r.start, r.Extent());
    assert CoveredAs(r.start, Merge(s), r.pte, r.protect);
    c :| c in s && c.pte == r.pte && c.protect == r.protect && In(r.start, c.Extent());
  }

  // A source all candidates of a class share is the source of its entries.
  predicate SharedSource(s: seq<Region>, pte: u8, protect: u16, source: Source) {
    forall r :: r in s && r.pte == pte && r.protect == protect ==> r.source == source
  }

  lemma {:induction false} CoalesceSharedSource(s: seq<Region>, pte: u8, protect: u16, source: Source)
    requires SharedSource(s, pte, protect, source)
    ensures SharedSource(Coalesce(s), pte, protect, source)
  {
    if s != [] {
      var out, r := Coalesce(s[..|s| - 1]), s[|s| - 1];
      CoalesceSharedSource(s[..|s| - 1], pte, protect, source);
      if out != [] { assert out[|out| - 1] in out && r in s; }
    }
  }

  lemma {:induction false} MergeSharedSource(s: seq<Region>, pte: u8, protect: u16, source: Source)
    requires SharedSource(s, pte, protect, source)
    ensures SharedSource(Merge(s), pte, protect, source)
  {
    SortSameElements(s);
    CoalesceSharedSource(SortByStart(s), pte, protect, source);
  }

  // Candidate c gave entry r its source.
  predicate Supplies(c: Region, r: Region) {
    c.SameClass(r) && c.source == r.source && r.start <= c.start && c.end <= r.end
  }

  lemma {:induction false} CoalesceSource(s: seq<Region>, r: Region)
    requires r in Coalesce(s) && r.source != MERGED
    ensures exists c :: c in s && Supplies(c, r)
  {
    var init, x := s[..|s| - 1], s[|s| - 1];
    var out := Coalesce(init);
    if r in out {
      CoalesceSource(init, r);
    } else if r == x {
      assert Supplies(x, r);
    } else {
      var last := out[|out| - 1];
      CoalesceSource(init, last);
      var c :| c in init && Supplies(c, last);
      assert Supplies(c, r);
    }
  }

  predicate Within(c: Region, r: Region) { c.SameClass(r) && r.start <= c.start && c.end <= r.end }

  // Two candidates of different sources are in entry r.
  ghost predicate Mixed(s: seq<Region>, r: Region) {
    exists c, d :: c in s && d in s && Within(c, r) && Within(d, r) && c.source != d.source
  }

  // An entry that is neither an earlier one nor the region itself is the last one,
  // grown.
  lemma {:induction false} GrownEntry(out: seq<Region>, x: Region, r: Region)
    requires r in MergeInto(out, x) && r !in out && r != x
    ensures out != [] && Within(out[|out| - 1], r) && x.SameClass(r) && x.end <= r.end
    ensures r.start == out[|out| - 1].start
    ensures x.source == out[|out| - 1].source ==> r.source == x.source
  {
  }

  lemma {:induction false} MixedGrows(s: seq<Region>, last: Region, x: Region, r: Region)
    requires Mixed(s, last) && Within(last, r)
    ensures Mixed(s + [x], r)
  {
    var c, d :| c in s && d in s && Within(c, last) && Within(d, last) && c.source != d.source;
    assert c in s + [x] && d in s + [x] && Within(c, r) && Within(d, r);
  }

  // An entry is called "merged" only when candidates of different sources joined.
  lemma {:induction false} CoalesceMixed(s: seq<Region>, r: Region)
    requires SortedByStart(s) && r in Coalesce(s) && r.source == MERGED && forall c :: c in s ==> c.source != MERGED
    ensures Mixed(s, r)
  {
    var init, x := s[..|s| - 1], s[|s| - 1];
    var out := Coalesce(init);
    assert s == init + [x];
    CoalesceShape(init);
    if r in out {
      CoalesceMixed(init, r);
      MixedGrows(init, r, x, r);
    } else {
      GrownEntry(out, x, r);
      if out[|out| - 1].source == MERGED {
        CoalesceMixed(init, out[|out| - 1]);
        MixedGrows(init, out[|out| - 1], x, r);
      } else {
        CoalesceSource(init, out[|out| - 1]);
        MixedJoins(init, out[|out| - 1], x, r);
      }
    }
  }

  lemma {:induction false} MixedJoins(init: seq<Region>, last: Region, x: Region, r: Region)
    requires exists c :: c in init && Supplies(c, last)
    requires Within(last, r) && Within(x, r) && x.source != last.source
    ensures Mixed(init + [x], r)
  {
    var c :| c in init && Supplies(c, last);
    assert c in init + [x] && x in init + [x] && Within(c, r);
  }

  lemma {:induction false} MergeMixed(s: seq<Region>, r: Region)
    requires r in Merge(s) && r.source == MERGED && forall c :: c in s ==> c.source != MERGED
    ensures Mixed(s, r)
  {
    SortSorts(s);
    SortSameElements(s);
    CoalesceMixed(SortByStart(s), r);
    var t := SortByStart(s);
    var c, d :| c in t && d in t && Within(c, r) && Within(d, r) && c.source != d.source;
    assert c in s && d in s;
  }

  lemma {:induction false} RoundedSource(list: seq<Addr>, pte: u8, protect: u16, source: Source)
    ensures forall r :: r in RoundedAll(list, pte, protect, source) ==> r.source == source
  {
    if list != [] { RoundedSource(list[..|list| - 1], pte, protect, source); }
  }

  // So is every single entry, on any platform, and it keeps its source.
  lemma {:induction false} RamEntries(p: Platform, r: Region)
    requires p.WellFormed() && r in RamTable(p)
    ensures r.pte == 0x06 && r.protect == 0x01 && r.source == Literal("dtb-memory")
  {
    var c := EntryClass(RamCandidates(p), r);
    var list := match MemoryRanges(p.fdt) case Got(all) => Firsts(all) case Failed(e) => [];
    RoundedSource(list, MM_RW, FLAG_ALLOCATABLE, Literal("dtb-memory"));
    MergeSharedSource(RamCandidates(p), MM_RW, FLAG_ALLOCATABLE, Literal("dtb-memory"));
  }

  lemma {:induction false} FreeEntries(p: Platform, r: Region)
    requires p.WellFormed() && r in FreeRegions(FreeSpans(p))
    ensures r.pte == 0x06 && r.protect == 0x01 && r.source == Literal("free")
  {
  }

  // ---- Device memory ----

  // The tree lists range a as entry k, of the first eight, of a node whose
  // "compatible" property is there and starts with a string that is not empty.
  predicate DeviceAt(t: Tree, node: nat, k: nat, a: Addr)
    requires t.WellFormed()
  {
    && node < |t.nodes| && t.Prop(node, "compatible").Got?
    && |t.Prop(node, "compatible").value| > 0 && t.Prop(node, "compatible").value[0] != 0
    && RegList(t, node).Got? && k < |RegList(t, node).value| && RegList(t, node).value[k] == a
    && k < 8 && a.size > 0
  }

  // Where the range ends for the scan, which saturates.
  function SaturatedEnd(a: Addr): u64 { Min(a.base + a.size, 0xFFFF_FFFF_FFFF_FFFF) }

  // No address of the range is in the RAM table.
  ghost predicate OutsideRam(p: Platform, a: Addr)
    requires p.WellFormed()
  {
    forall y :: a.base <= y < SaturatedEnd(a) ==> !Covered(y, Spans(RamTable(p)))
  }

  predicate DeviceKeeps(a: Addr, x: int) { AlignDown(a.base) <= x < AlignUp(SaturatedEnd(a)) }

  ghost predicate DeviceHas(p: Platform, x: int)
    requires p.WellFormed()
  {
    p.fdt.Some? && exists node: nat, k: nat, a: Addr ::
      DeviceAt(p.fdt.value, node, k, a) && OutsideRam(p, a) && DeviceKeeps(a, x)
  }

  lemma {:induction false} SpanMeetsNoRam(s: Span, ram: seq<Span>)
    requires NonEmpty(ram) && s.start <= s.end && (s.start == s.end ==> s.end == U64_MAX) && AllAligned(ram)
    ensures !OverlapsAny(s, ram) <==> forall y :: In(y, s) ==> !Covered(y, ram)
  {
    if i :| 0 <= i < |ram| && Overlap(s, ram[i]) {
      assert Aligned(ram[i].end);
      assert In(Max(s.start, ram[i].start), s) && In(Max(s.start, ram[i].start), ram[i]);
    }
    if y :| In(y, s) && Covered(y, ram) {
      var i :| 0 <= i < |ram| && In(y, ram[i]);
      assert Overlap(s, ram[i]);
    }
  }

  // A range adds an entry that holds x.
  lemma {:induction false} MmioEntryHas(p: Platform, node: nat, a: Addr, x: int)
    requires p.WellFormed()
    ensures Covered(x, Spans(MmioEntry(node, a, Spans(RamTable(p))))) <==>
      a.size > 0 && OutsideRam(p, a) && DeviceKeeps(a, x)
  {
    var s, ram := MmioSpan(a), Spans(RamTable(p));
    RamTableShape(p);
    WholePagesSpans(RamTable(p));
    if a.size > 0 {
      SpanMeetsNoRam(s, ram);
      assert OutsideRam(p, a) <==> !OverlapsAny(s, ram);
      CoveredByRounded(x, a.base, s.end, MM_RW, FLAG_MMIO, Compatible(node));
    }
  }

  lemma {:induction false} MmioEntriesHave(node: nat, list: seq<Addr>, ram: seq<Span>, x: int)
    ensures Covered(x, Spans(MmioEntries(node, list, ram))) <==>
      exists a :: a in list && Covered(x, Spans(MmioEntry(node, a, ram)))
  {
    if list != [] {
      var init, last := list[..|list| - 1], list[|list| - 1];
      MmioEntriesHave(node, init, ram, x);
      SpansConcat(MmioEntries(node, init, ram), MmioEntry(node, last, ram));
      CoveredConcat(x, Spans(MmioEntries(node, init, ram)), Spans(MmioEntry(node, last, ram)));
      assert forall a :: a in list <==> a in init || a == last;
    }
  }

  lemma {:induction false} RowsHave(rows: seq<seq<Region>>, x: int)
    ensures Covered(x, Spans(Flatten(rows))) <==> exists i: nat :: i < |rows| && Covered(x, Spans(rows[i]))
  {
    if rows != [] {
      var init, last := rows[..|rows| - 1], rows[|rows| - 1];
      RowsHave(init, x);
      SpansConcat(Flatten(init), last);
      CoveredConcat(x, Spans(Flatten(init)), Spans(last));
      if i: nat :| i < |rows| && Covered(x, Spans(rows[i])) { assert i < |init| ==> init[i] == rows[i]; }
      if i: nat :| i < |init| && Covered(x, Spans(init[i])) { assert init[i] == rows[i]; }
    }
  }

  // What one node adds, with its property and its list written out.
  lemma {:induction false} NodeHas(p: Platform, t: Tree, node: nat, x: int)
    requires p.WellFormed() && p.fdt == Some(t) && node < |t.nodes|
    ensures Covered(x, Spans(MmioOfNode(t, node, Spans(RamTable(p))))) <==>
      exists k: nat, a: Addr :: DeviceAt(t, node, k, a) && OutsideRam(p, a) && DeviceKeeps(a, x)
  {
    var ram, list := Spans(RamTable(p)), NodeRegs(t, node);
    MmioEntriesHave(node, list, ram, x);
    if HasCompatible(t, node) {
      if a :| a in list && Covered(x, Spans(MmioEntry(node, a, ram))) {
        MmioEntryHas(p, node, a, x);
        var k :| 0 <= k < |list| && list[k] == a;
        assert DeviceAt(t, node, k, a);
      }
    }
    if k: nat, a: Addr :| DeviceAt(t, node, k, a) && OutsideRam(p, a) && DeviceKeeps(a, x) {
      assert list[k] == a;
      MmioEntryHas(p, node, a, x);
    }
  }

  lemma {:induction false} DevicesHave(p: Platform, x: int)
    requires p.WellFormed()
    ensures Covered(x, Spans(MmioCandidates(p))) <==> DeviceHas(p, x)
  {
    if p.fdt.Some? {
      var t, ram := p.fdt.value, Spans(RamTable(p));
      RowsHave(MmioRows(t, ram), x);
      if i: nat :| i < |t.nodes| && Covered(x, Spans(MmioRows(t, ram)[i])) {
        NodeHas(p, t, i, x);
      }
      if node: nat, k: nat, a: Addr :| DeviceAt(t, node, k, a) && OutsideRam(p, a) && DeviceKeeps(a, x) {
        NodeHas(p, t, node, x);
        assert MmioRows(t, ram)[node] == MmioOfNode(t, node, ram);
      }
    }
  }

  // ---- The reserved table ----

  lemma {:induction false} FirmClasses(p: Platform, x: int, pte: u8, protect: u16)
    requires p.WellFormed()
    ensures CoveredAs(x, FirmCandidates(p), pte, protect) <==>
      || (pte == 0x0E && protect == 0x06 && AlignDown(p.kernelStart) <= x < AlignUp(p.kernelImageEnd))
      || (pte == 0x02 && protect == 0x0A && AlignDown(p.memBase) <= x < AlignUp(p.kernelStart))
      || (pte == 0x02 && protect == 0x22 && BlobKeeps(p, x))
      || (pte == 0x02 && protect == 0x02 && ReservedKeeps(p, x))
  {
    var kernel := Rounded(p.kernelStart, p.kernelImageEnd, MM_RWX, FLAG_KERNEL + FLAG_RESERVED, Literal("kernel"));
    var boot := Rounded(p.memBase, p.kernelStart, MM_R, FLAG_BOOT + FLAG_RESERVED, Literal("boot-reserved"));
    var blob := BlobCandidates(p);
    var listed := RoundedAll(ReservedList(p), MM_R, FLAG_RESERVED, Literal("dtb-reserved"));
    CoveredAsConcat(x, kernel, boot, pte, protect);
    CoveredAsConcat(x, kernel + boot, blob, pte, protect);
    CoveredAsConcat(x, kernel + boot + blob, listed, pte, protect);
    CoveredAsOne(x, kernel, MM_RWX, FLAG_KERNEL + FLAG_RESERVED, pte, protect);
    CoveredAsOne(x, boot, MM_R, FLAG_BOOT + FLAG_RESERVED, pte, protect);
    CoveredAsOne(x, blob, MM_R, FLAG_DTB + FLAG_RESERVED, pte, protect);
    CoveredAsOne(x, listed, MM_R, FLAG_RESERVED, pte, protect);
    CoveredByRounded(x, p.kernelStart, p.kernelImageEnd, MM_RWX, FLAG_KERNEL + FLAG_RESERVED, Literal("kernel"));
    CoveredByRounded(x, p.memBase, p.kernelStart, MM_R, FLAG_BOOT + FLAG_RESERVED, Literal("boot-reserved"));
    BlobCovers(p, x);
    KeptByRounding(x, ReservedList(p), MM_R, FLAG_RESERVED, Literal("dtb-reserved"));
  }

  lemma {:induction false} BlobCovers(p: Platform, x: int)
    ensures Covered(x, Spans(BlobCandidates(p))) <==> BlobKeeps(p, x)
  {
    if p.fdt.Some? && p.fdt.value.totalSize > 0 {
      CoveredByRounded(x, p.fdt.value.address, Add(p.fdt.value.address, p.fdt.value.totalSize),
                       MM_R, FLAG_DTB + FLAG_RESERVED, Literal("dtb"));
    }
  }

  // Five classes and no other: the image, what lies below it, the blob, the listed
  // reservations, and the device ranges outside RAM.
  lemma {:induction false} ReservedClasses(p: Platform, x: int, pte: u8, protect: u16)
    requires p.WellFormed()
    ensures CoveredAs(x, ReservedTable(p), pte, protect) <==>
      || (pte == 0x0E && protect == 0x06 && AlignDown(p.kernelStart) <= x < AlignUp(p.kernelImageEnd))
      || (pte == 0x02 && protect == 0x0A && AlignDown(p.memBase) <= x < AlignUp(p.kernelStart))
      || (pte == 0x02 && protect == 0x22 && BlobKeeps(p, x))
      || (pte == 0x02 && protect == 0x02 && ReservedKeeps(p, x))
      || (pte == 0x06 && protect == 0x10 && DeviceHas(p, x))
  {
    var firm, mmio := FirmCandidates(p), MmioCandidates(p);
    MergeKeepsClasses(firm + mmio);
    FirmClasses(p, x, pte, protect);
    CandidatesAreWhole(p);
    CoveredAsConcat(x, firm, mmio, pte, protect);
    CoveredAsOne(x, mmio, MM_RW, FLAG_MMIO, pte, protect);
    DevicesHave(p, x);
  }

  // ---- Entries of the reserved table ----

  predicate IsClass(r: Region, pte: u8, protect: u16, text: string) {
    r.pte == pte && r.protect == protect && r.source == Literal(text)
  }

  predicate IsFirmEntry(r: Region) {
    || IsClass(r, 0x0E, 0x06, "kernel") || IsClass(r, 0x02, 0x0A, "boot-reserved")
    || IsClass(r, 0x02, 0x22, "dtb") || IsClass(r, 0x02, 0x02, "dtb-reserved")
  }

  // The source of a device entry: the node that lists it, or "merged" for several.
  ghost predicate IsDeviceEntry(t: Tree, r: Region)
    requires t.WellFormed()
  {
    && r.pte == 0x06 && r.protect == 0x10
    && (r.source == Literal("merged") ||
        exists node: nat, k: nat, a: Addr :: DeviceAt(t, node, k, a) && r.source == Compatible(node))
  }

  lemma {:induction false} FirmAreEntries(p: Platform, r: Region)
    requires p.WellFormed() && r in FirmCandidates(p)
    ensures IsFirmEntry(r)
  {
    RoundedSource(ReservedList(p), MM_R, FLAG_RESERVED, Literal("dtb-reserved"));
    assert r in KernelCandidates(p) || r in BlobCandidates(p) ||
      r in RoundedAll(ReservedList(p), MM_R, FLAG_RESERVED, Literal("dtb-reserved"));
  }

  lemma {:induction false} MmioAreEntries(p: Platform, r: Region)
    requires p.WellFormed() && r in MmioCandidates(p)
    ensures p.fdt.Some? && IsDeviceEntry(p.fdt.value, r)
  {
    var t, ram := p.fdt.value, Spans(RamTable(p));
    FlattenMember(MmioRows(t, ram), r);
    var i :| 0 <= i < |MmioRows(t, ram)| && r in MmioRows(t, ram)[i];
    NodeEntry(t, i, ram, r);
  }

  lemma {:induction false} NodeEntry(t: Tree, node: nat, ram: seq<Span>, r: Region)
    requires t.WellFormed() && node < |t.nodes| && r in MmioOfNode(t, node, ram)
    ensures IsDeviceEntry(t, r)
  {
    var k := EntriesMember(node, NodeRegs(t, node), ram, r);
    assert DeviceAt(t, node, k, NodeRegs(t, node)[k]);
  }

  lemma {:induction false} EntriesMember(node: nat, list: seq<Addr>, ram: seq<Span>, r: Region) returns (k: nat)
    requires r in MmioEntries(node, list, ram)
    ensures k < |list| && r in MmioEntry(node, list[k], ram)
  {
    if r in MmioEntry(node, list[|list| - 1], ram) {
      k := |list| - 1;
    } else {
      k := EntriesMember(node, list[..|list| - 1], ram, r);
    }
  }

  // Every entry belongs to one of the five kinds, with the flags and the source of
  // its kind.
  lemma {:induction false} ReservedEntries(p: Platform, r: Region)
    requires p.WellFormed() && r in ReservedTable(p)
    ensures IsFirmEntry(r) || (p.fdt.Some? && IsDeviceEntry(p.fdt.value, r))
  {
    var s := ReservedCandidates(p);
    CandidatesAreWhole(p);
    forall c | c in s ensures IsFirmEntry(c) || (p.fdt.Some? && IsDeviceEntry(p.fdt.value, c)) {
      if c in FirmCandidates(p) { FirmAreEntries(p, c); } else { MmioAreEntries(p, c); }
    }
    EntryOfKind(s, p.fdt, r);
  }

  lemma {:induction false} EntryOfKind(s: seq<Region>, fdt: Option<Tree>, r: Region)
    requires WholePages(s) && r in Merge(s) && (fdt.Some? ==> fdt.value.WellFormed())
    requires forall c :: c in s ==> IsFirmEntry(c) || (fdt.Some? && IsDeviceEntry(fdt.value, c))
    ensures IsFirmEntry(r) || (fdt.Some? && IsDeviceEntry(fdt.value, r))
  {
    var c := EntryClass(s, r);
    if IsFirmEntry(c) {
      MergeSharedSource(s, r.pte, r.protect, c.source);
    } else if r.source != MERGED {
      SortSameElements(s);
      CoalesceSource(SortByStart(s), r);
    }
  }

  lemma {:induction false} MergedIsNotFirm(r: Region)
    requires r.source == MERGED
    ensures !IsFirmEntry(r)
  {
  }

  lemma {:induction false} CandidateSources(p: Platform)
    requires p.WellFormed()
    ensures forall c :: c in ReservedCandidates(p) ==> c.source != MERGED
  {
    forall c | c in ReservedCandidates(p) ensures c.source != MERGED {
      if c in FirmCandidates(p) {
        FirmAreEntries(p, c);
        if c.source == MERGED { MergedIsNotFirm(c); }
      } else {
        MmioCandidateOrigin(p, c);
      }
    }
  }

  // An entry called "merged" holds device ranges of different nodes.
  lemma {:induction false} MergedEntries(p: Platform, r: Region)
    requires p.WellFormed() && r in ReservedTable(p) && r.source == MERGED
    ensures r.pte == 0x06 && r.protect == 0x10 && Mixed(ReservedCandidates(p), r)
  {
    ReservedEntries(p, r);
    MergedIsNotFirm(r);
    CandidateSources(p);
    MergeMixed(ReservedCandidates(p), r);
  }
}
