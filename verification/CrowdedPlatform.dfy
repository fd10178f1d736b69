// Platforms on which one device decides what the count of reserved RAM pages is:
// it can spoil the totals, overrun the scratch, or keep it from overrunning. The
// lemmas speak of every platform with the given lists, whatever other devices it
// has below RAM; the kernel boots on one for each.
module CrowdedPlatform {
  import opened Machine
  import opened Intervals
  import opened Regions
  import opened ClippedPages
  import opened DeviceTree
  import opened RegDecoder
  import opened MapSpec
  import opened MapTheorems
  import opened DeviceMemory
  import opened DeviceCount
  import opened Exclusion
  import opened Partition
  import opened Boards
  import opened ScanLimit
  import opened Shortfalls

  // ---- The platforms ----

  function PageList(n: nat): (r: seq<Addr>)
    requires n <= 29
    ensures |r| == n
  {
    seq(n, i requires 0 <= i < n => RunAddr(2 * i, 2 * i + 1))
  }

  function RamList(): seq<Addr> { PageList(29) + [RunAddr(512, 560)] }

  function ListedRuns(e: Ends): seq<Addr>
    requires e.Valid()
  {
    [RunAddr(0, e.first), RunAddr(2, e.second), RunAddr(14, e.third)]
  }

  // The device regions that start in or behind RAM are exactly these.
  ghost predicate Crowded(p: Platform, e: Ends, devices: seq<Region>) {
    && e.Valid() && HasLists(p, RamList(), ListedRuns(e), RunAddr(12, 13), Image())
    && From(MmioCandidates(p), RAM_START) == devices
  }

  lemma {:induction false} RunRounded(from: nat, to: nat, pte: u8, protect: u16, source: Source)
    requires from < to <= 1024
    ensures var a := RunAddr(from, to);
      Rounded(a.base, Add(a.base, a.size), pte, protect, source) ==
        [Region(Run(from, to).start, Run(from, to).end, pte, protect, source)]
  {
    RunIsWhole(from, to);
  }

  lemma {:induction false} RoundedSnoc(list: seq<Addr>, from: nat, to: nat, pte: u8, protect: u16, source: Source)
    requires from < to <= 1024
    ensures RoundedAll(list + [RunAddr(from, to)], pte, protect, source) ==
      RoundedAll(list, pte, protect, source) + [Region(Run(from, to).start, Run(from, to).end, pte, protect, source)]
  {
    RunRounded(from, to, pte, protect, source);
    assert (list + [RunAddr(from, to)])[..|list|] == list;
  }

  lemma {:induction false} PageListSnoc(n: nat)
    requires n < 29
    ensures PageList(n + 1) == PageList(n) + [RunAddr(2 * n, 2 * n + 1)]
    ensures ScatteredRam(n + 1) == ScatteredRam(n) + [Run(2 * n, 2 * n + 1)]
  {
  }

  lemma {:induction false} SpansSnoc(s: seq<Region>, r: Region)
    ensures Spans(s + [r]) == Spans(s) + [r.Extent()]
  {
  }

  lemma {:induction false} PagesRounded(n: nat, pte: u8, protect: u16, source: Source)
    requires n <= 29
    ensures Spans(RoundedAll(PageList(n), pte, protect, source)) == ScatteredRam(n)
  {
    if n > 0 {
      var k := n - 1;
      PagesRounded(k, pte, protect, source);
      PageListSnoc(k);
      RoundedSnoc(PageList(k), 2 * k, 2 * k + 1, pte, protect, source);
      SpansSnoc(RoundedAll(PageList(k), pte, protect, source),
                Region(Run(2 * k, 2 * k + 1).start, Run(2 * k, 2 * k + 1).end, pte, protect, source));
    }
  }

  lemma {:induction false} RamRounded(list: seq<Addr>, pte: u8, protect: u16, source: Source)
    requires list == RamList()
    ensures Spans(RoundedAll(list, pte, protect, source)) == CrowdedRam()
  {
    PagesRounded(29, pte, protect, source);
    RoundedSnoc(PageList(29), 512, 560, pte, protect, source);
    SpansSnoc(RoundedAll(PageList(29), pte, protect, source),
              Region(Run(512, 560).start, Run(512, 560).end, pte, protect, source));
  }

  lemma {:induction false} RamIsCrowded(p: Platform)
    requires p.WellFormed() && MemoryRanges(p.fdt) == Got(RamList())
    ensures Spans(RamTable(p)) == CrowdedRam()
  {
    assert Firsts(RamList()) == RamList();
    RamRounded(RamList(), MM_RW, FLAG_ALLOCATABLE, Literal("dtb-memory"));
    CrowdedIsCanonical(CrowdedRam());
    RamTableShape(p);
    CanonicalUnique(Spans(RamTable(p)), CrowdedRam());
  }

  // ---- Reservations ----

  lemma {:induction false} KernelRounded(p: Platform)
    requires p.memBase == Run(0, 1).start && p.kernelStart == Image().start && p.kernelImageEnd == Image().end
    ensures KernelCandidates(p) == [KernelEntry(Run(512, 530)), BootEntry(Run(0, 512))]
  {
    RunRounded(512, 530, MM_RWX, FLAG_KERNEL + FLAG_RESERVED, Literal("kernel"));
    RunRounded(0, 512, MM_R, FLAG_BOOT + FLAG_RESERVED, Literal("boot-reserved"));
  }

  lemma {:induction false} BlobRounded(p: Platform)
    requires p.fdt.Some? && p.fdt.value.address == RunAddr(12, 13).base && p.fdt.value.totalSize == RunAddr(12, 13).size
    ensures BlobCandidates(p) == [BlobEntry(Run(12, 13))]
  {
    RunRounded(12, 13, MM_R, FLAG_DTB + FLAG_RESERVED, Literal("dtb"));
  }

  lemma {:induction false} ListedRounded(list: seq<Addr>, e: Ends)
    requires e.Valid() && list == ListedRuns(e)
    ensures RoundedAll(list, MM_R, FLAG_RESERVED, Literal("dtb-reserved")) ==
      [ListedEntry(Run(0, e.first)), ListedEntry(Run(2, e.second)), ListedEntry(Run(14, e.third))]
  {
    RoundedSnoc([], 0, e.first, MM_R, FLAG_RESERVED, Literal("dtb-reserved"));
    RoundedSnoc([list[0]], 2, e.second, MM_R, FLAG_RESERVED, Literal("dtb-reserved"));
    RoundedSnoc([list[0], list[1]], 14, e.third, MM_R, FLAG_RESERVED, Literal("dtb-reserved"));
    assert [] + [list[0]] == [list[0]] && [list[0]] + [list[1]] == [list[0], list[1]];
    assert [list[0], list[1]] + [list[2]] == list;
  }

  lemma {:induction false} FirmParts(p: Platform, kernel: seq<Region>, blob: seq<Region>, listed: seq<Region>)
    requires p.WellFormed() && KernelCandidates(p) == kernel && BlobCandidates(p) == blob
    requires RoundedAll(ReservedList(p), MM_R, FLAG_RESERVED, Literal("dtb-reserved")) == listed
    ensures FirmCandidates(p) == kernel + blob + listed
  {
  }

  lemma {:induction false} FirmConcat(e: Ends, s: seq<Region>)
    requires e.Valid() && s == FirmList(e)
    ensures s == s[..2] + s[2..3] + s[3..]
    ensures s[..2] == [KernelEntry(Run(512, 530)), BootEntry(Run(0, 512))] && s[2..3] == [BlobEntry(Run(12, 13))]
    ensures s[3..] == [ListedEntry(Run(0, e.first)), ListedEntry(Run(2, e.second)), ListedEntry(Run(14, e.third))]
  {
  }

  lemma {:induction false} FixedEntries(p: Platform)
    requires HasFixed(p)
    ensures KernelCandidates(p) == [KernelEntry(Run(512, 530)), BootEntry(Run(0, 512))]
    ensures BlobCandidates(p) == [BlobEntry(Run(12, 13))]
  {
    KernelRounded(p);
    BlobRounded(p);
  }

  // The memory base, image and tree of such a platform.
  predicate HasFixed(p: Platform) {
    && p.memBase == Run(0, 1).start && p.kernelStart == Image().start && p.kernelImageEnd == Image().end
    && p.fdt.Some? && p.fdt.value.address == RunAddr(12, 13).base && p.fdt.value.totalSize == RunAddr(12, 13).size
  }

  lemma {:induction false} FirmFromParts(p: Platform, e: Ends, listed: seq<Region>)
    requires e.Valid() && p.WellFormed() && HasFixed(p)
    requires listed == FirmList(e)[3..]
    requires listed == RoundedAll(ReservedList(p), MM_R, FLAG_RESERVED, Literal("dtb-reserved"))
    ensures FirmCandidates(p) == FirmList(e)
  {
    FixedEntries(p);
    FirmConcat(e, FirmList(e));
    FirmParts(p, FirmList(e)[..2], FirmList(e)[2..3], listed);
  }

  lemma {:induction false} FixedFromLists(p: Platform, ram: seq<Addr>, listed: seq<Addr>)
    requires HasLists(p, ram, listed, RunAddr(12, 13), Image()) && ram[0] == RunAddr(0, 1)
    ensures HasFixed(p)
  {
  }

  lemma {:induction false} FirmIsListed(p: Platform, e: Ends)
    requires e.Valid() && HasLists(p, RamList(), ListedRuns(e), RunAddr(12, 13), Image())
    ensures FirmCandidates(p) == FirmList(e)
  {
    FixedFromLists(p, RamList(), ListedRuns(e));
    ListedRounded(ReservedList(p), e);
    FirmConcat(e, FirmList(e));
    FirmFromParts(p, e, FirmList(e)[3..]);
  }

  lemma {:induction false} FirmAboveRamStart(s: seq<Region>, e: Ends)
    requires e.Valid() && s == FirmList(e)
    ensures forall r :: r in s ==> r.start >= RAM_START
  {
  }

  // ---- The tables ----

  // The reserved table and the RAM of a platform.
  ghost predicate TablesAre(p: Platform, table: seq<Region>, ram: seq<Span>) {
    p.WellFormed() && ReservedTable(p) == table && Spans(RamTable(p)) == ram
  }

  predicate Proper(s: seq<Span>) { Sorted(s) && NonEmpty(s) && AllAligned(s) }

  // With the device: low devices, which do not hold address a of RAM, and then
  // seven entries.
  lemma {:induction false} ApartOn(p: Platform, e: Ends, node: nat, a: int) returns (low: seq<Region>)
    requires Crowded(p, e, [DeviceEntry(Run(1, 2), node)]) && Covered(a, CrowdedRam())
    ensures TablesAre(p, low + ApartTable(e, node), CrowdedRam()) && Count(low, CrowdedRam()) == 0
    ensures Proper(Spans(low + ApartTable(e, node)))
    ensures forall i :: 0 <= i < |low| ==> !In(a, low[i].Extent())
  {
    FirmIsListed(p, e);
    FirmAboveRamStart(FirmCandidates(p), e);
    ApartSorts(FirmCandidates(p) + From(MmioCandidates(p), RAM_START), e, node);
    TableSplits(p, RAM_START, ApartTable(e, node));
    low := LowTable(p, RAM_START);
    LowDevices(p, RAM_START);
    RamIsCrowded(p);
    LowHolds(p, low, ApartTable(e, node), CrowdedRam(), a);
  }

  lemma {:induction false} LowHolds(p: Platform, low: seq<Region>, high: seq<Region>, ram: seq<Span>, a: int)
    requires TablesAre(p, low + high, ram) && (forall r :: r in low ==> IsDevice(r)) && Covered(a, ram)
    ensures Count(low, ram) == 0 && Proper(Spans(low + high))
    ensures forall i :: 0 <= i < |low| ==> !In(a, low[i].Extent())
  {
    LowCountsNothing(p, low, high, ram);
    ReservedTableShape(p);
    forall i | 0 <= i < |low| ensures !In(a, low[i].Extent()) {
      assert low[i] in low;
      if In(a, low[i].Extent()) { LowOutsideRam(p, low, high, i, a); }
    }
  }

  lemma {:induction false} KernelPageIsRam(ram: seq<Span>)
    requires ram == CrowdedRam()
    ensures Covered(Run(512, 513).start, ram)
  {
    assert In(Run(512, 513).start, ram[29]);
  }

  lemma {:induction false} JoinedSplits(p: Platform, e: Ends, s: seq<Region>, t: seq<Region>)
    requires e.Valid() && s == FirmList(e) && t == [s[1], s[3], s[4], s[2], s[5], s[0]]
    requires p.WellFormed() && FirmCandidates(p) == s && From(MmioCandidates(p), RAM_START) == []
    ensures ReservedTable(p) == LowTable(p, RAM_START) + JoinedTable(e)
  {
    FirmAboveRamStart(s, e);
    JoinedSorts(s, e, t);
    assert s + [] == s;
    TableSplits(p, RAM_START, t);
  }

  // Without it: low devices, and then five entries.
  lemma {:induction false} JoinedOn(p: Platform, e: Ends) returns (low: seq<Region>)
    requires Crowded(p, e, [])
    ensures TablesAre(p, low + JoinedTable(e), CrowdedRam()) && Count(low, CrowdedRam()) == 0
    ensures Proper(Spans(low + JoinedTable(e)))
  {
    var s := FirmList(e);
    FirmIsListed(p, e);
    JoinedSplits(p, e, s, [s[1], s[3], s[4], s[2], s[5], s[0]]);
    low := LowTable(p, RAM_START);
    LowDevices(p, RAM_START);
    RamIsCrowded(p);
    KernelPageIsRam(CrowdedRam());
    LowHolds(p, low, JoinedTable(e), CrowdedRam(), Run(512, 513).start);
  }

  lemma {:induction false} FirmTableIs(p: Platform, e: Ends)
    requires e.Valid() && HasLists(p, RamList(), ListedRuns(e), RunAddr(12, 13), Image())
    ensures FirmTable(p) == JoinedTable(e) && Spans(RamTable(p)) == CrowdedRam() && Proper(Spans(JoinedTable(e)))
  {
    var s := FirmCandidates(p);
    FirmIsListed(p, e);
    JoinedSorts(s, e, [s[1], s[3], s[4], s[2], s[5], s[0]]);
    RamIsCrowded(p);
    FirmTableShape(p);
  }

  // ---- The verdicts, table by table ----

  // 64 intersections or fewer: all is counted and agrees.
  lemma {:induction false} AllCounted(low: seq<Region>, high: seq<Region>, ram: seq<Span>)
    requires Count(low, ram) == 0 && Count(high, ram) <= MAX_RANGES && ram == CrowdedRam()
    requires Proper(Spans(low + high))
    ensures VerdictOn(Spans(low + high), ram).Stored? && VerdictOn(Spans(low + high), ram).ok
  {
    CountConcat(low, high, ram);
    CrowdedIsCanonical(ram);
    TotalsAgreeExactly(ram, Spans(low + high));
    ScanPages(Spans(low + high), ram);
  }

  // Without the device 31 intersections and those of the first and third range.
  lemma {:induction false} JoinedStored(low: seq<Region>, e: Ends, ram: seq<Span>)
    requires e.Valid() && ram == CrowdedRam() && Count(low, ram) == 0 && Proper(Spans(low + JoinedTable(e)))
    requires 31 + FirstMeets(e) + ThirdMeets(e) <= MAX_RANGES
    ensures var v := VerdictOn(Spans(low + JoinedTable(e)), ram); v.Stored? && v.ok
  {
    JoinedCounts(JoinedTable(e), e, ram);
    assert JoinedTable(e)[..5] == JoinedTable(e);
    AllCounted(low, JoinedTable(e), ram);
  }

  // Or an overrun, where the third range meets too many.
  lemma {:induction false} JoinedOverruns(low: seq<Region>, e: Ends, ram: seq<Span>)
    requires e.Valid() && ram == CrowdedRam() && Count(low, ram) == 0
    requires 30 + FirstMeets(e) < MAX_RANGES < 30 + FirstMeets(e) + ThirdMeets(e)
    ensures VerdictOn(Spans(low + JoinedTable(e)), ram) == Overrun
  {
    JoinedCounts(JoinedTable(e), e, ram);
    ScanStopsAfter(low, JoinedTable(e), ram, 4);
  }

  // With the device: an overrun, or a scan that ends before the tree's entry.
  lemma {:induction false} ApartScan(low: seq<Region>, e: Ends, node: nat, ram: seq<Span>)
    requires e.Valid() && ram == CrowdedRam() && Count(low, ram) == 0
    requires 29 + FirstMeets(e) < MAX_RANGES <= 29 + FirstMeets(e) + SecondMeets(e)
    ensures Scanned(Spans(low + ApartTable(e, node)), ram) == Spans(low + ApartTable(e, node)[..4])
    ensures VerdictOn(Spans(low + ApartTable(e, node)), ram).Stored? <==>
      29 + FirstMeets(e) + SecondMeets(e) == MAX_RANGES
  {
    ApartCounts(ApartTable(e, node), e, node, ram);
    ScanStopsAfter(low, ApartTable(e, node), ram, 4);
  }

  lemma {:induction false} KernelPageMissed(low: seq<Region>, high: seq<Region>, e: Ends, node: nat, a: int)
    requires e.Valid() && e.first <= 512 && high == ApartTable(e, node) && a == Run(512, 513).start
    requires forall i :: 0 <= i < |low| ==> !In(a, low[i].Extent())
    ensures !Covered(a, Spans(low + high[..4])) && Covered(a, Spans(low + high))
  {
    var seen := low + high[..4];
    forall i | 0 <= i < |seen| ensures !In(a, Spans(seen)[i]) {
      assert seen[i] == if i < |low| then low[i] else high[i - |low|];
    }
    assert (low + high)[|low| + 6] == high[6] && In(a, Spans(low + high)[|low| + 6]);
  }

  lemma {:induction false} PageUnseen(all: seq<Span>, ram: seq<Span>, page: int)
    requires Proper(all) && Separated(ram) && AllAligned(ram)
    requires 0 <= page < PAGE_COUNT && Covered(page * PAGE, all) && Covered(page * PAGE, ram)
    requires !Covered(page * PAGE, Scanned(all, ram))
    ensures !TotalsAgree(ram, all)
  {
    assert page in Pages(all) * Pages(ram) && page !in Pages(Scanned(all, ram));
    SplitAtScan(ram, all);
    TotalsAgreeExactly(ram, all);
  }

  // When no listed range reaches the kernel, its pages go uncounted.
  lemma {:induction false} KernelUncounted(low: seq<Region>, e: Ends, node: nat, ram: seq<Span>)
    requires e.Valid() && ram == CrowdedRam() && Count(low, ram) == 0 && Proper(Spans(low + ApartTable(e, node)))
    requires forall i :: 0 <= i < |low| ==> !In(Run(512, 513).start, low[i].Extent())
    requires e.first <= 512 && 29 + FirstMeets(e) < MAX_RANGES == 29 + FirstMeets(e) + SecondMeets(e)
    ensures var v := VerdictOn(Spans(low + ApartTable(e, node)), ram); v.Stored? && !v.ok
  {
    ApartScan(low, e, node, ram);
    KernelPageIsRam(ram);
    CrowdedIsCanonical(ram);
    KernelPageMissed(low, ApartTable(e, node), e, node, Run(512, 513).start);
    PageUnseen(Spans(low + ApartTable(e, node)), ram, FIRST + 512);
  }

  // When the first listed range covers all RAM, nothing does.
  lemma {:induction false} EverythingCounted(low: seq<Region>, e: Ends, node: nat, ram: seq<Span>)
    requires e.Valid() && ram == CrowdedRam() && Count(low, ram) == 0 && Proper(Spans(low + ApartTable(e, node)))
    requires e.first == 560 && 29 + FirstMeets(e) < MAX_RANGES == 29 + FirstMeets(e) + SecondMeets(e)
    ensures var v := VerdictOn(Spans(low + ApartTable(e, node)), ram); v.Stored? && v.ok
  {
    ApartScan(low, e, node, ram);
    FirstRangeAt(low, e, node);
    AllRamInside(ram, Spans(low + ApartTable(e, node)[..4]), |low| + 1);
    CrowdedIsCanonical(ram);
    AllSeen(Spans(low + ApartTable(e, node)), ram);
  }

  lemma {:induction false} FirstRangeAt(low: seq<Region>, e: Ends, node: nat)
    requires e.Valid()
    ensures Spans(low + ApartTable(e, node)[..4])[|low| + 1] == Run(0, e.first)
  {
  }

  lemma {:induction false} AllSeen(all: seq<Span>, ram: seq<Span>)
    requires Proper(all) && Separated(ram) && AllAligned(ram) && Pages(ram) <= Pages(Scanned(all, ram))
    ensures TotalsAgree(ram, all)
  {
    SplitAtScan(ram, all);
    TotalsAgreeExactly(ram, all);
  }

  lemma {:induction false} AllRamInside(ram: seq<Span>, seen: seq<Span>, k: nat)
    requires ram == CrowdedRam() && k < |seen| && seen[k] == Run(0, 560)
    ensures Pages(ram) <= Pages(seen)
  {
    forall q | q in Pages(ram) ensures q in Pages(seen) {
      var i :| 0 <= i < |ram| && In(q * PAGE, ram[i]);
      assert In(q * PAGE, seen[k]);
    }
  }

  // ---- The verdicts on a platform ----

  lemma {:induction false} VerdictWith(p: Platform, table: seq<Region>, ram: seq<Span>)
    requires TablesAre(p, table, ram)
    ensures WithDevices(p) == VerdictOn(Spans(table), ram)
  {
  }

  lemma {:induction false} VerdictWithout(p: Platform, e: Ends)
    requires e.Valid() && HasLists(p, RamList(), ListedRuns(e), RunAddr(12, 13), Image())
    ensures WithoutDevices(p) == VerdictOn(Spans([] + JoinedTable(e)), CrowdedRam())
    ensures Count([], CrowdedRam()) == 0 && Proper(Spans([] + JoinedTable(e)))
  {
    FirmTableIs(p, e);
    assert [] + JoinedTable(e) == JoinedTable(e);
  }

  lemma {:induction false} JoinedVerdict(q: Platform, e: Ends) returns (low: seq<Region>)
    requires Crowded(q, e, [])
    ensures WithDevices(q) == VerdictOn(Spans(low + JoinedTable(e)), CrowdedRam())
    ensures Count(low, CrowdedRam()) == 0 && Proper(Spans(low + JoinedTable(e)))
  {
    low := JoinedOn(q, e);
    VerdictWith(q, low + JoinedTable(e), CrowdedRam());
  }

  lemma {:induction false} ApartVerdict(p: Platform, e: Ends, node: nat) returns (low: seq<Region>)
    requires Crowded(p, e, [DeviceEntry(Run(1, 2), node)])
    ensures WithDevices(p) == VerdictOn(Spans(low + ApartTable(e, node)), CrowdedRam())
    ensures Count(low, CrowdedRam()) == 0 && Proper(Spans(low + ApartTable(e, node)))
    ensures forall i :: 0 <= i < |low| ==> !In(Run(512, 513).start, low[i].Extent())
    ensures Linked(p)
  {
    KernelPageIsRam(CrowdedRam());
    low := ApartOn(p, e, node, Run(512, 513).start);
    VerdictWith(p, low + ApartTable(e, node), CrowdedRam());
  }

  // Without the device, on a platform that has none there, and for p by leaving
  // all of its devices out.
  lemma {:induction false} AllStored(p: Platform, q: Platform, e: Ends)
    requires Crowded(q, e, []) && HasLists(p, RamList(), ListedRuns(e), RunAddr(12, 13), Image())
    requires 31 + FirstMeets(e) + ThirdMeets(e) <= MAX_RANGES
    ensures WithDevices(q).Stored? && WithDevices(q).ok && WithoutDevices(p).Stored? && WithoutDevices(p).ok
  {
    var low := JoinedVerdict(q, e);
    JoinedStored(low, e, CrowdedRam());
    VerdictWithout(p, e);
    JoinedStored([], e, CrowdedRam());
  }

  lemma {:induction false} AllOverrun(p: Platform, q: Platform, e: Ends)
    requires Crowded(q, e, []) && HasLists(p, RamList(), ListedRuns(e), RunAddr(12, 13), Image())
    requires 30 + FirstMeets(e) < MAX_RANGES < 30 + FirstMeets(e) + ThirdMeets(e)
    ensures WithDevices(q) == Overrun && WithoutDevices(p) == Overrun
  {
    var low := JoinedVerdict(q, e);
    JoinedOverruns(low, e, CrowdedRam());
    VerdictWithout(p, e);
    JoinedOverruns([], e, CrowdedRam());
  }

  // ---- What a device can do ----

  const SPOILING := Ends(57, 13, 15)
  const OVERRUNNING := Ends(57, 57, 15)
  const PREVENTING := Ends(560, 11, 560)

  lemma {:induction false} SpoiledWith(p: Platform, e: Ends, node: nat)
    requires e == SPOILING && Crowded(p, e, [DeviceEntry(Run(1, 2), node)])
    ensures WithDevices(p).Stored? && !WithDevices(p).ok && Linked(p)
  {
    var low := ApartVerdict(p, e, node);
    assert FirstMeets(e) == 29 && SecondMeets(e) == 6;
    KernelUncounted(low, e, node, CrowdedRam());
  }

  // Exactly 64 intersections before the kernel's entry: the totals disagree, and
  // without the device they agree.
  lemma {:induction false} DeviceCanSpoilTotals(p: Platform, q: Platform, e: Ends, node: nat)
    requires e == SPOILING && Crowded(p, e, [DeviceEntry(Run(1, 2), node)]) && Crowded(q, e, [])
    ensures WithDevices(p).Stored? && !WithDevices(p).ok && WithoutDevices(p).Stored? && WithoutDevices(p).ok
    ensures WithDevices(q).Stored? && WithDevices(q).ok && Linked(p)
  {
    SpoiledWith(p, e, node);
    assert FirstMeets(e) == 29 && ThirdMeets(e) == 1;
    AllStored(p, q, e);
  }

  // 86 intersections at the device's neighbour: an overrun, and without the device
  // all is counted.
  lemma {:induction false} DeviceCanOverrun(p: Platform, q: Platform, e: Ends, node: nat)
    requires e == OVERRUNNING && Crowded(p, e, [DeviceEntry(Run(1, 2), node)]) && Crowded(q, e, [])
    ensures WithDevices(p) == Overrun && WithoutDevices(p).Stored? && WithoutDevices(p).ok
    ensures WithDevices(q).Stored? && WithDevices(q).ok && Linked(p)
  {
    var low := ApartVerdict(p, e, node);
    ApartScan(low, e, node, CrowdedRam());
    AllStored(p, q, e);
  }

  // The device ends the scan at exactly 64, with all RAM seen; without it the scan
  // goes on to 83.
  lemma {:induction false} DeviceCanPreventOverrun(p: Platform, q: Platform, e: Ends, node: nat)
    requires e == PREVENTING && Crowded(p, e, [DeviceEntry(Run(1, 2), node)]) && Crowded(q, e, [])
    ensures WithDevices(p).Stored? && WithDevices(p).ok && WithoutDevices(p) == Overrun
    ensures WithDevices(q) == Overrun && Linked(p)
  {
    var low := ApartVerdict(p, e, node);
    EverythingCounted(low, e, node, CrowdedRam());
    AllOverrun(p, q, e);
  }

  // ---- Boards ----

  // Four memory nodes of up to eight ranges, one child of /reserved-memory, and
  // the device in the first hole or none.
  function CrowdedBoard(e: Ends, others: seq<seq<Addr>>): (b: Board)
    requires e.Valid()
    ensures b.Valid()
  {
    Board([RamList()[..8], RamList()[8..16], RamList()[16..24], RamList()[24..]], [ListedRuns(e)], others,
          RunAddr(12, 13), Image())
  }

  lemma {:induction false} JoinedFour(a: seq<Addr>, b: seq<Addr>, c: seq<Addr>, d: seq<Addr>)
    requires |a| <= MAX_REGS && |b| <= MAX_REGS && |c| <= MAX_REGS && |d| <= MAX_REGS
    ensures Joined([a, b, c, d]) == a + b + c + d
  {
    OneList(a);
    JoinedSnoc([a], b);
    JoinedSnoc([a, b], c);
    JoinedSnoc([a, b, c], d);
    assert [a] + [b] == [a, b] && [a, b] + [c] == [a, b, c] && [a, b, c] + [d] == [a, b, c, d];
  }

  lemma {:induction false} JoinedSnoc(lists: seq<seq<Addr>>, last: seq<Addr>)
    requires |last| <= MAX_REGS
    ensures Joined(lists + [last]) == Joined(lists) + last
  {
    assert (lists + [last])[..|lists|] == lists && FirstRegs(last) == last;
  }

  lemma {:induction false} BoardIsCrowded(b: Board, e: Ends, others: seq<seq<Addr>>)
    requires e.Valid() && b == CrowdedBoard(e, others) && |others| <= 1
    ensures HasLists(PlatformOf(b), RamList(), ListedRuns(e), RunAddr(12, 13), Image())
    ensures Joined(b.memory) == RamList()
  {
    var r := RamList();
    JoinedFour(r[..8], r[8..16], r[16..24], r[24..]);
    assert r[..8] + r[8..16] + r[16..24] + r[24..] == r;
    OneList(ListedRuns(e));
    BoardLists(b, r, ListedRuns(e));
  }

  lemma {:induction false} BoardBootsWith(b: Board, e: Ends, others: seq<seq<Addr>>)
    requires e.Valid() && b == CrowdedBoard(e, others) && |others| <= 1
    ensures Booted(PlatformOf(b))
  {
    var r := RamList();
    BoardIsCrowded(b, e, others);
    RunListed(r, 29, 512, 560, Run(512, 530).start, Run(512, 530).end);
    RunListed(r, 6, 12, 13, Run(12, 13).start, Run(12, 13).end);
    BoardBoots(b, r);
  }

  lemma {:induction false} DeviceInHole(ram: seq<Span>)
    requires ram == CrowdedRam()
    ensures !OverlapsAny(MmioSpan(RunAddr(1, 2)), ram)
  {
    forall i | 0 <= i < |ram| ensures !Overlap(MmioSpan(RunAddr(1, 2)), ram[i]) {
      if i < 29 { assert ram[i] == Run(2 * i, 2 * i + 1); }
    }
  }

  lemma {:induction false} HoleEntry(node: nat, list: seq<Addr>, ram: seq<Span>)
    requires list == [RunAddr(1, 2)] && ram == CrowdedRam()
    ensures MmioEntries(node, FirstRegs(list), ram) == [DeviceEntry(Run(1, 2), node)]
    ensures From([DeviceEntry(Run(1, 2), node)], RAM_START) == [DeviceEntry(Run(1, 2), node)]
  {
    DeviceInHole(ram);
    RunRounded(1, 2, MM_RW, FLAG_MMIO, Compatible(node));
    assert FirstRegs(list) == list && list[..0] == [];
    assert MmioEntries(node, list[..0], ram) == [];
    AllFrom([DeviceEntry(Run(1, 2), node)], RAM_START);
  }

  // With the device and without it, for any ends: these boards are such platforms,
  // and the kernel boots on them.
  lemma {:induction false} CrowdedBoots(b: Board, c: Board, e: Ends)
    requires e.Valid() && b == CrowdedBoard(e, [[RunAddr(1, 2)]]) && c == CrowdedBoard(e, [])
    ensures Crowded(PlatformOf(b), e, [DeviceEntry(Run(1, 2), b.FirstDevice() + 2)]) && Booted(PlatformOf(b))
    ensures Crowded(PlatformOf(c), e, []) && Booted(PlatformOf(c))
  {
    BoardIsCrowded(b, e, [[RunAddr(1, 2)]]);
    BoardBootsWith(b, e, [[RunAddr(1, 2)]]);
    RamIsCrowded(PlatformOf(b));
    HoleEntry(b.FirstDevice() + 2, [RunAddr(1, 2)], CrowdedRam());
    OneOther(b, [RunAddr(1, 2)], [DeviceEntry(Run(1, 2), b.FirstDevice() + 2)]);
    BoardIsCrowded(c, e, []);
    BoardBootsWith(c, e, []);
    NoOthers(c);
  }
}
