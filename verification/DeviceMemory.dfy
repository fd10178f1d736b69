// Device memory never touches RAM, so it changes neither the free list nor the
// reserved pages in RAM, and the free table can never fill up.
module DeviceMemory {
  import opened Machine
  import opened Intervals
  import opened Regions
  import opened Merging
  import opened Subtraction
  import opened ClippedPages
  import opened RegDecoder
  import opened MapSpec
  import opened MapTheorems

  // A range that misses RAM before rounding still misses it after outward
  // rounding, because RAM itself is made of whole pages.
  lemma {:induction false} MmioEntryMissesRam(node: nat, a: Addr, ram: seq<Span>, r: Region, i: nat)
    requires AllAligned(ram) && i < |ram| && r in MmioEntry(node, a, ram)
    ensures r.end <= ram[i].start || ram[i].end <= r.start
  {
    var x := MmioSpan(a);
    assert !Overlap(x, ram[i]);
    assert Aligned(ram[i].start) && Aligned(ram[i].end);
    if ram[i].end <= x.start {
      AlignDownIsFloor(x.start, ram[i].end);
    } else {
      AlignUpIsCeilingOrWraps(x.end, ram[i].start);
    }
  }

  predicate Misses(r: Region, ram: seq<Span>) {
    forall i :: 0 <= i < |ram| ==> r.end <= ram[i].start || ram[i].end <= r.start
  }

  predicate MissesRam(s: seq<Region>, ram: seq<Span>) { forall r :: r in s ==> Misses(r, ram) }

  lemma {:induction false} MmioCandidatesMissRam(p: Platform)
    requires p.WellFormed()
    ensures MissesRam(MmioCandidates(p), Spans(RamTable(p)))
    ensures forall a :: Covered(a, Spans(RamTable(p))) ==> !Covered(a, Spans(MmioCandidates(p)))
  {
    RamTableShape(p);
    var ram, mmio := Spans(RamTable(p)), MmioCandidates(p);
    forall r, i | r in mmio && 0 <= i < |ram| ensures r.end <= ram[i].start || ram[i].end <= r.start {
      MmioCandidateOrigin(p, r);
      var node, a :| r in MmioEntry(node, a, ram);
      MmioEntryMissesRam(node, a, ram, r, i);
    }
    assert forall r :: r in mmio ==> Misses(r, ram);
    forall a | Covered(a, ram) ensures !Covered(a, Spans(mmio)) {
      var i :| 0 <= i < |ram| && In(a, ram[i]);
      forall k | 0 <= k < |mmio| ensures !In(a, Spans(mmio)[k]) {
        assert mmio[k] in mmio && Misses(mmio[k], ram);
      }
    }
  }

  lemma {:induction false} SpansConcat(s: seq<Region>, t: seq<Region>)
    ensures Spans(s + t) == Spans(s) + Spans(t)
  {
  }

  // ---- Neutrality ----

  // In RAM, a reservation always comes from something else than a device.
  lemma {:induction false} ReservedInRamIsFirm(p: Platform, a: int)
    requires p.WellFormed() && Covered(a, Spans(RamTable(p)))
    ensures Covered(a, Spans(ReservedTable(p))) <==> Covered(a, Spans(FirmCandidates(p)))
  {
    ReservedTableShape(p);
    MmioCandidatesMissRam(p);
    SpansConcat(FirmCandidates(p), MmioCandidates(p));
    CoveredConcat(a, Spans(FirmCandidates(p)), Spans(MmioCandidates(p)));
    assert Covered(a, Spans(ReservedTable(p))) <==> Covered(a, Spans(ReservedCandidates(p)));
  }

  // Dropping every device region leaves the free list and the set of reserved RAM
  // pages as they are. What becomes of the count of that set is in DeviceCount.
  lemma {:induction false} MmioIsNeutral(p: Platform)
    requires p.WellFormed()
    ensures FreeSpans(p) == Subtract(Spans(RamTable(p)), Spans(Merge(FirmCandidates(p))))
    ensures Pages(Spans(ReservedTable(p))) * Pages(Spans(RamTable(p))) ==
      Pages(Spans(Merge(FirmCandidates(p)))) * Pages(Spans(RamTable(p)))
  {
    var ram, all, firm := Spans(RamTable(p)), Spans(ReservedTable(p)), Spans(Merge(FirmCandidates(p)));
    RamTableShape(p);
    ReservedTableShape(p);
    FirmTableShape(p);
    forall a | Covered(a, ram) ensures Covered(a, all) <==> Covered(a, firm) {
      ReservedInRamIsFirm(p, a);
      assert Covered(a, firm) <==> Covered(a, Spans(FirmCandidates(p)));
    }
    SubtractDependsOnSetsOnly(ram, all, ram, firm);
    forall q ensures q in Pages(all) * Pages(ram) <==> q in Pages(firm) * Pages(ram) {
      assert Covered(q * PAGE, ram) ==> (Covered(q * PAGE, all) <==> Covered(q * PAGE, firm));
    }
  }

  lemma {:induction false} FirmTableShape(p: Platform)
    requires p.WellFormed()
    ensures var firm := Spans(Merge(FirmCandidates(p)));
      && Sorted(firm) && NonEmpty(firm) && AllAligned(firm)
      && SameSet(firm, Spans(FirmCandidates(p)))
  {
    MergeKeepsClasses(FirmCandidates(p));
    SortedSpans(Merge(FirmCandidates(p)));
    SameClassesSameSet(Merge(FirmCandidates(p)), FirmCandidates(p));
  }

  // ---- Capacity ----

  // Entries outside the device class.
  function FirmCount(s: seq<Region>): nat {
    if s == [] then 0
    else FirmCount(s[..|s| - 1]) + if IsDevice(s[|s| - 1]) then 0 else 1
  }

  lemma {:induction false} FirmCountSnoc(s: seq<Region>, r: Region)
    ensures FirmCount(s + [r]) == FirmCount(s) + if IsDevice(r) then 0 else 1
  {
    assert (s + [r])[..|s|] == s;
  }

  lemma {:induction false} FirmCountInsert(s: seq<Region>, key: Region)
    ensures FirmCount(Insert(s, key)) == FirmCount(s) + if IsDevice(key) then 0 else 1
  {
    FirmCountSnoc(s, key);
    if s != [] && s[|s| - 1].start > key.start {
      FirmCountInsert(s[..|s| - 1], key);
      FirmCountSnoc(Insert(s[..|s| - 1], key), s[|s| - 1]);
    }
  }

  lemma {:induction false} FirmCountSort(s: seq<Region>)
    ensures FirmCount(SortByStart(s)) == FirmCount(s)
  {
    if s != [] {
      FirmCountSort(s[..|s| - 1]);
      FirmCountInsert(SortByStart(s[..|s| - 1]), s[|s| - 1]);
    }
  }

  lemma {:induction false} FirmCountCoalesce(s: seq<Region>)
    ensures FirmCount(Coalesce(s)) <= FirmCount(s)
  {
    if s != [] {
      var out, r := Coalesce(s[..|s| - 1]), s[|s| - 1];
      FirmCountCoalesce(s[..|s| - 1]);
      FirmCountSnoc(out, r);
      if out != [] {
        var last := out[|out| - 1];
        FirmCountSnoc(out[..|out| - 1], MergeInto(out, r)[|out| - 1]);
      }
    }
  }

  lemma {:induction false} FirmCountConcat(s: seq<Region>, t: seq<Region>)
    ensures FirmCount(s + t) == FirmCount(s) + FirmCount(t)
  {
    if t == [] {
      assert s + t == s;
    } else {
      assert (s + t)[..|s + t| - 1] == s + t[..|t| - 1];
      FirmCountConcat(s, t[..|t| - 1]);
    }
  }

  lemma {:induction false} FirmCountAtMost(s: seq<Region>)
    ensures FirmCount(s) <= |s|
    ensures (forall r :: r in s ==> IsDevice(r)) ==> FirmCount(s) == 0
  {
    if s != [] { FirmCountAtMost(s[..|s| - 1]); }
  }

  lemma {:induction false} FirmCountOfTable(p: Platform)
    requires p.WellFormed()
    ensures FirmCount(ReservedTable(p)) <= MAX_RAM + 3
  {
    FirmEntriesAtMost(p);
  }

  lemma {:induction false} FirmEntriesAtMost(p: Platform)
    requires p.WellFormed()
    ensures FirmCount(ReservedTable(p)) <= |FirmCandidates(p)|
  {
    var firm, mmio := FirmCandidates(p), MmioCandidates(p);
    FirmCountCoalesce(SortByStart(firm + mmio));
    FirmCountSort(firm + mmio);
    FirmCountConcat(firm, mmio);
    FirmCountAtMost(firm);
    CandidatesAreWhole(p);
    FirmCountAtMost(mmio);
  }

  // Every address of a device entry of the merged table lies outside RAM.
  lemma {:induction false} DeviceEntryOutsideRam(p: Platform, k: nat, a: int)
    requires p.WellFormed() && k < |ReservedTable(p)| && IsDevice(ReservedTable(p)[k])
    requires In(a, ReservedTable(p)[k].Extent())
    ensures !Covered(a, Spans(RamTable(p)))
  {
    var table, r := ReservedTable(p), ReservedTable(p)[k];
    CandidatesAreWhole(p);
    MergeKeepsClasses(ReservedCandidates(p));
    assert CoveredAs(a, table, r.pte, r.protect);
    var c :| c in ReservedCandidates(p) && IsDevice(c) && In(a, c.Extent());
    FirmIsNotDevice(p);
    MmioCandidatesMissRam(p);
    CoveredByRegions(a, MmioCandidates(p));
  }

  lemma {:induction false} DeviceStartsOutsideRam(p: Platform, k: nat, i: nat)
    requires p.WellFormed() && k < |ReservedTable(p)| && i < |RamTable(p)| && IsDevice(ReservedTable(p)[k])
    ensures !(RamTable(p)[i].start < ReservedTable(p)[k].start < RamTable(p)[i].end)
  {
    var r := ReservedTable(p)[k];
    ReservedTableShape(p);
    assert r in ReservedTable(p) && r.Whole();
    DeviceEntryOutsideRam(p, k, r.start);
    assert Spans(RamTable(p))[i] == RamTable(p)[i].Extent();
  }

  lemma {:induction false} FirmIsNotDevice(p: Platform)
    requires p.WellFormed()
    ensures forall r :: r in FirmCandidates(p) ==> !IsDevice(r)
  {
  }

  lemma {:induction false} StartsInsideConcat(s: seq<Span>, t: seq<Span>, ram: seq<Span>)
    ensures StartsInside(s + t, ram) == StartsInside(s, ram) + StartsInside(t, ram)
  {
    if s == [] {
      assert s + t == t;
    } else {
      assert (s + t)[1..] == s[1..] + t;
      StartsInsideConcat(s[1..], t, ram);
    }
  }

  lemma {:induction false} StartsInsideAreFirm(s: seq<Region>, ram: seq<Span>)
    requires forall k, i :: 0 <= k < |s| && 0 <= i < |ram| && IsDevice(s[k]) ==>
      !(ram[i].start < s[k].start < ram[i].end)
    ensures StartsInside(Spans(s), ram) <= FirmCount(s)
  {
    if s != [] {
      var init, r := s[..|s| - 1], s[|s| - 1];
      StartsInsideAreFirm(init, ram);
      assert Spans(s) == Spans(init) + [r.Extent()];
      StartsInsideConcat(Spans(init), [r.Extent()], ram);
      assert [r.Extent()][1..] == [];
      assert StartsInside([r.Extent()], ram) <= 1;
    }
  }

  // At most 67 free pieces for any device tree, so the free table of 768 entries
  // never overflows, although RAM and reserved regions together could exceed it.
  lemma {:induction false} FreeAlwaysFits(p: Platform)
    requires p.WellFormed()
    ensures |FreeSpans(p)| <= 2 * MAX_RAM + 3 < WORKSPACE
  {
    var ram, reserved := Spans(RamTable(p)), Spans(ReservedTable(p));
    RamTableShape(p);
    ReservedTableShape(p);
    SubtractBound(ram, reserved);
    forall k, i | 0 <= k < |ReservedTable(p)| && 0 <= i < |ram| && IsDevice(ReservedTable(p)[k])
      ensures !(ram[i].start < ReservedTable(p)[k].start < ram[i].end)
    {
      DeviceStartsOutsideRam(p, k, i);
    }
    StartsInsideAreFirm(ReservedTable(p), ram);
    FirmCountOfTable(p);
  }

  // ---- Intersections ----

  lemma {:induction false} ClipRowAtMost(x: Span, ram: seq<Span>)
    ensures |ClipRow(x, ram)| <= |ram|
  {
    if ram != [] { ClipRowAtMost(x, ram[..|ram| - 1]); }
  }

  lemma {:induction false} ClipRowEmpty(x: Span, ram: seq<Span>)
    requires forall a :: In(a, x) ==> !Covered(a, ram)
    ensures ClipRow(x, ram) == []
  {
    var row := ClipRow(x, ram);
    if row != [] {
      ClipRowWhole(x, ram);
      assert In(row[0].start, row[0]);
      ClipRowExact(row[0].start, x, ram);
    }
  }

  // Only firm entries meet RAM, each of them every RAM range at most once.
  lemma {:induction false} ClipBound(s: seq<Region>, ram: seq<Span>)
    requires forall k, a :: 0 <= k < |s| && IsDevice(s[k]) && In(a, s[k].Extent()) ==> !Covered(a, ram)
    ensures |Clip(Spans(s), ram)| <= FirmCount(s) * |ram|
  {
    if s != [] {
      var init, r := s[..|s| - 1], s[|s| - 1];
      ClipBound(init, ram);
      assert Spans(s)[..|s| - 1] == Spans(init);
      ClipRowAtMost(r.Extent(), ram);
      if IsDevice(r) {
        ClipRowEmpty(r.Extent(), ram);
      } else {
        assert (FirmCount(init) + 1) * |ram| == FirmCount(init) * |ram| + |ram|;
      }
    }
  }

  lemma {:induction false} IntersectionBound(p: Platform)
    requires p.WellFormed()
    ensures |Clip(Spans(ReservedTable(p)), Spans(RamTable(p)))| <= FirmCount(ReservedTable(p)) * |RamTable(p)|
  {
    var table, ram := ReservedTable(p), Spans(RamTable(p));
    forall k, a | 0 <= k < |table| && IsDevice(table[k]) && In(a, table[k].Extent()) ensures !Covered(a, ram) {
      DeviceEntryOutsideRam(p, k, a);
    }
    ClipBound(table, ram);
  }

  lemma {:induction false} ProductAtMost(f: nat, m: nat)
    requires m <= 1
    ensures f * m <= f
  {
  }

  // The page totals agree whenever firm entries times RAM ranges fit the
  // scratch; in particular always when RAM is one contiguous block.
  lemma {:induction false} SmallMapsAgree(p: Platform)
    requires p.WellFormed()
    requires FirmCount(ReservedTable(p)) * |RamTable(p)| <= MAX_RANGES || |RamTable(p)| <= 1
    ensures |Clip(Spans(ReservedTable(p)), Spans(RamTable(p)))| <= MAX_RANGES
    ensures TotalsAgree(Spans(RamTable(p)), Spans(ReservedTable(p)))
  {
    IntersectionBound(p);
    if |RamTable(p)| <= 1 {
      FirmCountOfTable(p);
      ProductAtMost(FirmCount(ReservedTable(p)), |RamTable(p)|);
    }
    TotalsOnPlatform(p);
  }
}
