// mm_stage2_build: the tables and the state it leaves, stage by stage.
module MemoryMap {
  import opened Machine
  import opened Intervals
  import opened Regions
  import opened ClippedPages
  import opened FreeList
  import opened DeviceTree
  import opened RegDecoder
  import opened MapSpec
  import opened MapTheorems
  import opened DeviceMemory
  import opened Exclusion
  import opened Collection
  import opened SelfChecks

  // A build returns a status, except where the scratch of the clipped page
  // count is overrun and C leaves the behaviour undefined.
  datatype Outcome = Returned(status: Regions.Status) | Undefined

  // ---- The build ----

  // What the state holds after a successful build on platform p: the three
  // tables, the page totals over them, and the self-check verdicts.
  ghost predicate BuiltFor(m: Map, p: Platform)
    reads m, m.ram, m.reserved, m.free
    requires p.WellFormed()
  {
    && m.Valid()
    && m.ram[..m.ramCount] == RamTable(p)
    && m.reserved[..m.reservedCount] == ReservedTable(p)
    && m.free[..m.freeCount] == FreeRegions(FreeSpans(p))
    && m.firstFreeFrame == FirstFreeFrame(p)
    && TotalsFor(m.Stored(), p)
    && VerdictsFor(m.Stored(), p)
  }

  ghost predicate TotalsFor(t: Totals, p: Platform)
    requires p.WellFormed()
  {
    TotalsOf(t, Spans(RamTable(p)), Spans(ReservedTable(p)), FreeSpans(p), FirstFreeFrame(p))
  }

  // The self-checks: the totals agree exactly when the scan cut nothing off, the
  // first free frame is RAM outside every reservation, and free and reserved
  // memory never overlap.
  ghost predicate VerdictsFor(t: Totals, p: Platform)
    requires p.WellFormed()
  {
    && (t.ok <==> NothingCutOff(Spans(RamTable(p)), Spans(ReservedTable(p))))
    && (t.frameOk <==>
         Covered(FirstFreeFrame(p), Spans(RamCandidates(p))) &&
         !Covered(FirstFreeFrame(p), Spans(ReservedCandidates(p))))
    && !t.overlap
  }

  class Map {
    const ram: array<Region>
    const reserved: array<Region>
    const free: array<Region>
    var ramCount: nat
    var reservedCount: nat
    var freeCount: nat
    var firstFreeFrame: u64
    var ramPages: u64
    var reservedPages: u64
    var reservedPagesInRam: u64
    var freePages: u64
    var totalsOk: bool
    var firstFreeOk: bool
    var overlapFreeReserved: bool

    ghost predicate Valid()
      reads this
    {
      && ram != reserved && ram != free && reserved != free
      && ram.Length == MAX_RAM && reserved.Length == WORKSPACE && free.Length == WORKSPACE
      && ramCount <= MAX_RAM && reservedCount <= WORKSPACE && freeCount <= WORKSPACE
    }

    ghost function Stored(): Totals
      reads this
    {
      Totals(ramPages, reservedPages, reservedPagesInRam, freePages, totalsOk, firstFreeOk, overlapFreeReserved)
    }

    constructor ()
      ensures Valid() && ramCount == 0 && reservedCount == 0 && freeCount == 0
      ensures firstFreeFrame == 0 && Stored() == Totals(0, 0, 0, 0, false, false, false)
      ensures fresh(ram) && fresh(reserved) && fresh(free)
    {
      var none := Region(0, 0, 0, 0, Literal(""));
      ram := new Region[MAX_RAM](_ => none);
      reserved := new Region[WORKSPACE](_ => none);
      free := new Region[WORKSPACE](_ => none);
      ramCount, reservedCount, freeCount := 0, 0, 0;
      firstFreeFrame, ramPages, reservedPages, reservedPagesInRam, freePages := 0, 0, 0, 0, 0;
      totalsOk, firstFreeOk, overlapFreeReserved := false, false, false;
    }

    // hw is absent when the caller passes a null pointer.
    method Build(hw: Option<Platform>) returns (outcome: Outcome)
      requires Valid() && (hw.Some? ==> hw.value.WellFormed())
      modifies this, ram, reserved, free
      ensures Valid()
      ensures outcome ==
        if hw.None? then Returned(Regions.BadValue)
        else if ExpectedStatus(hw.value) != Ok then Returned(ExpectedStatus(hw.value))
        else if !ScanFits(Spans(ReservedTable(hw.value)), Spans(RamTable(hw.value))) then Undefined
        else Returned(Ok)
      ensures outcome == Returned(Ok) ==> BuiltFor(this, hw.value)
      ensures outcome.Returned? && outcome.status != Ok ==> unchanged(this)
    {
      if hw.None? {
        return Returned(Regions.BadValue);
      }
      var p := hw.value;
      var err, newRam, newReserved, newFree;
      err, newRam := CollectRam(ram, p);
      if err != Ok {
        return Returned(err);
      }
      err, newReserved := CollectReserved(p, newRam);
      if err != Ok {
        return Returned(err);
      }
      newFree := CollectFree(p, newRam, newReserved);
      TablesAreWhole(p);
      outcome := Finish(newRam, newReserved, newFree, FirstFreeFrame(p));
      if outcome == Returned(Ok) {
        VerdictsFollow(p, Stored());
      }
    }

    // Reserved candidates of every kind, then their merge.
    method CollectReserved(p: Platform, newRam: nat) returns (err: Regions.Status, n: nat)
      requires Valid() && p.WellFormed() && newRam <= MAX_RAM && ram[..newRam] == RamTable(p)
      requires MemoryRanges(p.fdt).Got? && |MemoryRanges(p.fdt).value| <= MAX_RAM
      modifies reserved
      ensures err == ExpectedStatus(p) && n <= WORKSPACE
      ensures err == Ok ==> reserved[..n] == ReservedTable(p)
    {
      err, n := CollectFirm(reserved, p);
      if err != Ok {
        return;
      }
      // Without a tree the RAM scan has already failed.
      err, n := CollectMmio(p.fdt.value, reserved, n, ram, newRam);
      if err != Ok {
        return DtbDeviceScan, n;
      }
      n := MergeRegions(reserved, n);
    }

    // The free list always fits, so subtraction and merge cannot fail.
    method CollectFree(p: Platform, newRam: nat, newReserved: nat) returns (n: nat)
      requires Valid() && p.WellFormed() && newRam <= MAX_RAM && newReserved <= WORKSPACE
      requires ram[..newRam] == RamTable(p) && reserved[..newReserved] == ReservedTable(p)
      modifies free
      ensures n <= WORKSPACE && free[..n] == FreeRegions(FreeSpans(p))
    {
      RamTableShape(p);
      ReservedTableShape(p);
      FreeAlwaysFits(p);
      FreeMergeIsIdentity(p);
      var err;
      err, n := SubtractReserved(ram, newRam, reserved, newReserved, free);
      n := MergeRegions(free, n);
    }

    // Totals, self-checks and the final assignment of the state.
    method Finish(newRam: nat, newReserved: nat, newFree: nat, frame: u64) returns (outcome: Outcome)
      requires Valid() && newRam <= MAX_RAM && newReserved <= WORKSPACE && newFree <= WORKSPACE
      requires WholePages(ram[..newRam]) && WholePages(reserved[..newReserved]) && WholePages(free[..newFree])
      modifies this
      ensures Valid()
      ensures var ms, rs := Spans(ram[..newRam]), Spans(reserved[..newReserved]);
        && outcome == (if ScanFits(rs, ms) then Returned(Ok) else Undefined)
        && (outcome == Returned(Ok) ==> TotalsOf(Stored(), ms, rs, Spans(free[..newFree]), frame))
      ensures outcome == Returned(Ok) ==>
        && ramCount == newRam && reservedCount == newReserved && freeCount == newFree
        && firstFreeFrame == frame
      ensures outcome == Undefined ==> unchanged(this)
    {
      var defined, totals := CheckTables(ram, newRam, reserved, newReserved, free, newFree, frame);
      if !defined {
        return Undefined;
      }
      Store(newRam, newReserved, newFree, frame, totals);
      outcome := Returned(Ok);
    }

    method Store(newRam: nat, newReserved: nat, newFree: nat, frame: u64, t: Totals)
      requires Valid() && newRam <= MAX_RAM && newReserved <= WORKSPACE && newFree <= WORKSPACE
      modifies this
      ensures Valid() && Stored() == t && firstFreeFrame == frame
      ensures ramCount == newRam && reservedCount == newReserved && freeCount == newFree
    {
      ramCount, reservedCount, freeCount := newRam, newReserved, newFree;
      firstFreeFrame := frame;
      ramPages, reservedPages, reservedPagesInRam, freePages := t.ram, t.reserved, t.reservedInRam, t.free;
      totalsOk, firstFreeOk, overlapFreeReserved := t.ok, t.frameOk, t.overlap;
    }
  }

  // The verdicts in terms of the inputs.
  lemma {:induction false} VerdictsFollow(p: Platform, t: Totals)
    requires p.WellFormed() && TotalsFor(t, p)
    ensures VerdictsFor(t, p)
  {
    TotalsOnPlatform(p);
    CompareWrapped(t.ram, t.reservedInRam, t.free);
    FreeIsRamMinusReserved(p);
    FreeMissesReserved(p);
  }

  // Totals and verdicts do not depend on the listing either, as long as at most
  // 64 pairs meet on both platforms. The reserved pages counted with multiplicity
  // do.
  lemma {:induction false} ListingsKeepTotals(p: Platform, q: Platform, t: Totals, u: Totals)
    requires p.WellFormed() && q.WellFormed() && TotalsFor(t, p) && TotalsFor(u, q)
    requires SameSet(Spans(RamCandidates(p)), Spans(RamCandidates(q)))
    requires forall a :: Covered(a, Spans(RamCandidates(p))) ==>
      (Covered(a, Spans(FirmCandidates(p))) <==> Covered(a, Spans(FirmCandidates(q))))
    requires FirstFreeFrame(p) == FirstFreeFrame(q)
    requires |Clip(Spans(ReservedTable(p)), Spans(RamTable(p)))| <= MAX_RANGES
    requires |Clip(Spans(ReservedTable(q)), Spans(RamTable(q)))| <= MAX_RANGES
    ensures t.(reserved := 0) == u.(reserved := 0) && t.ok
  {
    ListingsDoNotMatter(p, q);
    TotalsOnPlatform(p);
    TotalsOnPlatform(q);
    CompareWrapped(t.ram, t.reservedInRam, t.free);
    CompareWrapped(u.ram, u.reservedInRam, u.free);
    FreeMissesReserved(p);
    FreeMissesReserved(q);
  }
}
