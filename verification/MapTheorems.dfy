// What the memory map of mm_stage2_build guarantees, for every platform.
module MapTheorems {
  import opened Machine
  import opened Intervals
  import opened Regions
  import opened Merging
  import opened Subtraction
  import opened ClippedPages
  import opened FreeList
  import opened MapSpec

  // ---- The tables ----

  lemma {:induction false} SortedSpans(s: seq<Region>)
    requires SortedByStart(s) && WholePages(s)
    ensures Sorted(Spans(s)) && NonEmpty(Spans(s)) && AllAligned(Spans(s))
  {
    WholePagesSpans(s);
  }

  lemma {:induction false} RamTableShape(p: Platform)
    requires p.WellFormed()
    ensures |RamTable(p)| <= MAX_RAM && WholePages(RamTable(p))
    ensures Separated(Spans(RamTable(p))) && AllAligned(Spans(RamTable(p)))
    ensures SameSet(Spans(RamTable(p)), Spans(RamCandidates(p)))
  {
    MergeIsCanonical(RamCandidates(p));
    MergeKeepsClasses(RamCandidates(p));
    WholePagesSpans(RamTable(p));
  }

  lemma {:induction false} ReservedTableShape(p: Platform)
    requires p.WellFormed()
    ensures |ReservedTable(p)| <= |ReservedCandidates(p)| && WholePages(ReservedTable(p))
    ensures Sorted(Spans(ReservedTable(p))) && NonEmpty(Spans(ReservedTable(p))) && AllAligned(Spans(ReservedTable(p)))
    ensures SameSet(Spans(ReservedTable(p)), Spans(ReservedCandidates(p)))
  {
    CandidatesAreWhole(p);
    MergeKeepsClasses(ReservedCandidates(p));
    SortedSpans(ReservedTable(p));
    SameClassesSameSet(ReservedTable(p), ReservedCandidates(p));
  }

  // Free memory is exactly the RAM that was reported minus everything that was
  // reserved, as a canonical list of whole pages.
  lemma {:induction false} FreeIsRamMinusReserved(p: Platform)
    requires p.WellFormed()
    ensures Separated(FreeSpans(p)) && AllAligned(FreeSpans(p))
    ensures forall a :: Covered(a, FreeSpans(p)) <==>
      Covered(a, Spans(RamCandidates(p))) && !Covered(a, Spans(ReservedCandidates(p)))
  {
    RamTableShape(p);
    ReservedTableShape(p);
    SubtractIsDifference(Spans(RamTable(p)), Spans(ReservedTable(p)));
  }

  // The last merge finds nothing to do.
  lemma {:induction false} FreeMergeIsIdentity(p: Platform)
    requires p.WellFormed()
    ensures Merge(FreeRegions(FreeSpans(p))) == FreeRegions(FreeSpans(p))
  {
    FreeIsRamMinusReserved(p);
    var f := FreeRegions(FreeSpans(p));
    forall i, j | 0 <= i < j < |f| ensures f[i].end < f[j].start {
      assert FreeSpans(p)[i].end < FreeSpans(p)[j].start;
    }
    forall i, j | 0 <= i < j < |f| ensures f[i].start <= f[j].start {
      assert FreeSpans(p)[i].start < FreeSpans(p)[i].end;
    }
    MergeFixesSettled(f);
  }

  // ---- Pages ----

  // RAM pages are the reserved ones among them plus the free ones, each counted
  // once, for any canonical RAM list and any sorted reserved list.
  lemma {:induction false} PageConservation(ram: seq<Span>, reserved: seq<Span>)
    requires Separated(ram) && AllAligned(ram)
    requires Sorted(reserved) && NonEmpty(reserved) && AllAligned(reserved)
    ensures SumPages(ram) == |Pages(reserved) * Pages(ram)| + SumPages(Subtract(ram, reserved))
  {
    SubtractIsDifference(ram, reserved);
    SeparatedSum(ram);
    SeparatedSum(Subtract(ram, reserved));
    DifferencePages(ram, reserved);
    SetSizes(Pages(ram), Pages(reserved));
    assert Pages(ram) * Pages(reserved) == Pages(reserved) * Pages(ram);
  }

  lemma {:induction false} DifferencePages(ram: seq<Span>, reserved: seq<Span>)
    requires Sorted(reserved) && NonEmpty(reserved)
    ensures Pages(Subtract(ram, reserved)) == Pages(ram) - Pages(reserved)
  {
    forall q ensures q in Pages(Subtract(ram, reserved)) <==> q in Pages(ram) - Pages(reserved) {
      SubtractExact(q * PAGE, ram, reserved);
    }
  }

  // The totals of the build: RAM pages against clipped reserved plus free pages.
  ghost predicate TotalsAgree(ram: seq<Span>, reserved: seq<Span>) {
    SumPages(ram) == |Counted(reserved, ram)| + SumPages(Subtract(ram, reserved))
  }

  // No region behind the scan limit holds a RAM page the scan did not see.
  ghost predicate NothingCutOff(ram: seq<Span>, reserved: seq<Span>) {
    forall i :: ScanEnd(reserved, ram, 0) <= i < |reserved| ==>
      Pages([reserved[i]]) * Pages(ram) <= Pages(Scanned(reserved, ram))
  }

  lemma {:induction false} PagesOfAll(s: seq<Span>, bound: set<int>, ram: set<int>)
    requires forall i :: 0 <= i < |s| ==> Pages([s[i]]) * ram <= bound
    ensures Pages(s) * ram <= bound
  {
    if s == [] {
      assert Pages(s) == {};
    } else {
      var init, x := s[..|s| - 1], s[|s| - 1];
      assert s == init + [x];
      PagesOfAll(init, bound, ram);
      PagesConcat(init, [x]);
    }
  }

  lemma {:induction false} PagesOfMember(s: seq<Span>, i: nat)
    requires i < |s|
    ensures Pages([s[i]]) <= Pages(s)
  {
    assert s == s[..i] + [s[i]] + s[i + 1..];
    PagesConcat(s[..i], [s[i]]);
    PagesConcat(s[..i] + [s[i]], s[i + 1..]);
  }

  lemma {:induction false} SplitAtScan(ram: seq<Span>, reserved: seq<Span>)
    ensures NothingCutOff(ram, reserved) <==> Pages(reserved) * Pages(ram) <= Pages(Scanned(reserved, ram))
  {
    var k := ScanEnd(reserved, ram, 0);
    var seen, rest := reserved[..k], reserved[k..];
    assert reserved == seen + rest;
    PagesConcat(seen, rest);
    if NothingCutOff(ram, reserved) {
      forall i | 0 <= i < |rest| ensures Pages([rest[i]]) * Pages(ram) <= Pages(seen) {
        assert rest[i] == reserved[k + i];
      }
      PagesOfAll(rest, Pages(seen), Pages(ram));
    }
    if Pages(reserved) * Pages(ram) <= Pages(seen) {
      forall i | k <= i < |reserved| ensures Pages([reserved[i]]) * Pages(ram) <= Pages(seen) {
        PagesOfMember(reserved, i);
      }
    }
  }

  lemma {:induction false} SubsetSizes(a: set<int>, b: set<int>)
    requires a <= b
    ensures |a| <= |b| && (|a| == |b| <==> a == b)
  {
    SetSizes(b, a);
    assert b * a == a;
    assert |b - a| == 0 <==> b - a == {};
  }

  // The page totals agree exactly when the 64-entry scan cut nothing off; with
  // at most 64 intersections it never does.
  lemma {:induction false} TotalsAgreeExactly(ram: seq<Span>, reserved: seq<Span>)
    requires Separated(ram) && AllAligned(ram)
    requires Sorted(reserved) && NonEmpty(reserved) && AllAligned(reserved)
    ensures TotalsAgree(ram, reserved) <==> NothingCutOff(ram, reserved)
    ensures |Clip(reserved, ram)| <= MAX_RANGES ==> TotalsAgree(ram, reserved)
  {
    PageConservation(ram, reserved);
    SplitAtScan(ram, reserved);
    ScannedPages(ram, reserved);
    if |Clip(reserved, ram)| <= MAX_RANGES { ScanPages(reserved, ram); }
  }

  // The scan sees some of the reserved RAM pages; it sees as many only if it
  // sees them all.
  lemma {:induction false} ScannedPages(ram: seq<Span>, reserved: seq<Span>)
    ensures var seen, all := Counted(reserved, ram), Pages(reserved) * Pages(ram);
      |seen| <= |all| && (|seen| == |all| <==> all <= Pages(Scanned(reserved, ram)))
  {
    var k := ScanEnd(reserved, ram, 0);
    assert reserved == reserved[..k] + reserved[k..];
    PagesConcat(reserved[..k], reserved[k..]);
    SubsetSizes(Pages(reserved[..k]) * Pages(ram), Pages(reserved) * Pages(ram));
  }

  lemma {:induction false} CountedAtMost(ram: seq<Span>, reserved: seq<Span>)
    requires Separated(ram) && AllAligned(ram)
    requires Sorted(reserved) && NonEmpty(reserved) && AllAligned(reserved)
    ensures |Counted(reserved, ram)| + SumPages(Subtract(ram, reserved)) <= SumPages(ram)
  {
    PageConservation(ram, reserved);
    ScannedPages(ram, reserved);
  }

  // ---- Counting with multiplicity ----

  lemma {:induction false} AlignedCoverage(a: int, s: seq<Span>)
    requires AllAligned(s)
    ensures Covered(a, s) <==> Covered(a - a % PAGE, s)
  {
    if i :| 0 <= i < |s| && In(a, s[i]) { assert In(a - a % PAGE, s[i]); }
    if i :| 0 <= i < |s| && In(a - a % PAGE, s[i]) { assert In(a, s[i]); }
  }

  lemma {:induction false} InsideByPages(s: seq<Span>, t: seq<Span>)
    requires AllAligned(s) && AllAligned(t)
    ensures Pages(s) <= Pages(t) <==> forall a :: Covered(a, s) ==> Covered(a, t)
  {
    if Pages(s) <= Pages(t) {
      forall a | Covered(a, s) ensures Covered(a, t) {
        AlignedCoverage(a, s);
        AlignedCoverage(a, t);
        assert a / PAGE * PAGE == a - a % PAGE;
        assert a / PAGE in Pages(s);
      }
    }
  }

  // Reserved pages counted with multiplicity are never fewer than the distinct
  // ones in RAM; the two agree just when no page is reserved twice and every
  // reserved address is RAM.
  lemma {:induction false} MultiplicityBound(ram: seq<Span>, reserved: seq<Span>)
    requires AllAligned(ram) && NonEmpty(reserved) && AllAligned(reserved)
    ensures SumPages(reserved) >= |Pages(reserved) * Pages(ram)| >= |Counted(reserved, ram)|
    ensures SumPages(reserved) == |Pages(reserved) * Pages(ram)| <==>
      PairwiseDisjoint(reserved) && forall a :: Covered(a, reserved) ==> Covered(a, ram)
  {
    SumCountsDisjointOnce(reserved);
    SubsetSizes(Pages(reserved) * Pages(ram), Pages(reserved));
    InsideByPages(reserved, ram);
    ScannedPages(ram, reserved);
  }

  // ---- All three tables ----

  lemma {:induction false} FreeTableShape(p: Platform)
    requires p.WellFormed()
    ensures WholePages(FreeRegions(FreeSpans(p))) && Spans(FreeRegions(FreeSpans(p))) == FreeSpans(p)
  {
    FreeIsRamMinusReserved(p);
    var f := FreeRegions(FreeSpans(p));
    forall r | r in f ensures r.Whole() {
      var i :| 0 <= i < |f| && f[i] == r;
      assert FreeSpans(p)[i].start < FreeSpans(p)[i].end;
    }
  }

  lemma {:induction false} TablesAreWhole(p: Platform)
    requires p.WellFormed()
    ensures WholePages(RamTable(p)) && WholePages(ReservedTable(p)) && WholePages(FreeRegions(FreeSpans(p)))
    ensures Spans(FreeRegions(FreeSpans(p))) == FreeSpans(p)
  {
    RamTableShape(p);
    ReservedTableShape(p);
    FreeTableShape(p);
  }

  // On the tables of a platform the page totals agree exactly when the scan cut
  // nothing off, and adding them up does not overflow.
  lemma {:induction false} TotalsOnPlatform(p: Platform)
    requires p.WellFormed()
    ensures var ram, reserved := Spans(RamTable(p)), Spans(ReservedTable(p));
      && (TotalsAgree(ram, reserved) <==> NothingCutOff(ram, reserved))
      && (|Clip(reserved, ram)| <= MAX_RANGES ==> TotalsAgree(ram, reserved))
      && |Counted(reserved, ram)| + SumPages(Subtract(ram, reserved)) <= SumPages(ram)
  {
    RamTableShape(p);
    ReservedTableShape(p);
    TotalsAgreeExactly(Spans(RamTable(p)), Spans(ReservedTable(p)));
    CountedAtMost(Spans(RamTable(p)), Spans(ReservedTable(p)));
  }

  lemma {:induction false} FreeMissesReserved(p: Platform)
    requires p.WellFormed()
    ensures !exists a :: Covered(a, FreeSpans(p)) && Covered(a, Spans(ReservedTable(p)))
  {
    FreeIsRamMinusReserved(p);
    ReservedTableShape(p);
  }
}
