// The page sums and the three self-checks at the end of mm_stage2_build, over
// the tables as they stand.
module SelfChecks {
  import opened Machine
  import opened Intervals
  import opened Regions
  import opened Merging
  import opened ClippedPages

  method RegionOverlapsAny(x: Span, regions: array<Region>, count: nat) returns (r: bool)
    requires count <= regions.Length
    ensures r == OverlapsAny(x, Spans(regions[..count]))
  {
    ghost var s := Spans(regions[..count]);
    var i := 0;
    while i < count
      invariant i <= count && forall k :: 0 <= k < i ==> !Overlap(x, s[k])
    {
      assert s[i] == regions[i].Extent();
      if Overlap(x, regions[i].Extent()) {
        return true;
      }
      i := i + 1;
    }
    r := false;
  }

  // mm_sum_pages; the sum cannot overflow for tables below 4096 entries.
  method SumPagesOf(arr: array<Region>, count: nat) returns (sum: u64)
    requires count <= arr.Length && count < 0x1000
    ensures sum == SumPages(Spans(arr[..count]))
  {
    ghost var s := Spans(arr[..count]);
    sum := 0;
    assert s[..0] == [];
    var i := 0;
    while i < count
      invariant i <= count && sum == SumPages(s[..i])
    {
      SumTurn(s, i);
      sum := Add(sum, PageCount(arr[i].Extent()));
      i := i + 1;
    }
    assert s[..count] == s;
  }

  lemma {:induction false} SumTurn(s: seq<Span>, i: nat)
    requires i < |s| < 0x1000
    ensures 0 <= SumPages(s[..i]) < U64_LIMIT
    ensures SumPages(s[..i + 1]) == Add(SumPages(s[..i]), PageCount(s[i]))
  {
    assert s[..i + 1][..i] == s[..i];
    SumPagesBound(s[..i]);
    SumPagesBound(s[..i + 1]);
  }

  // mm_addr_in_regions
  method AddrInRegions(a: u64, regions: array<Region>, count: nat) returns (r: bool)
    requires count <= regions.Length
    ensures r == Covered(a, Spans(regions[..count]))
  {
    ghost var s := Spans(regions[..count]);
    var i := 0;
    while i < count
      invariant i <= count && forall k :: 0 <= k < i ==> !In(a, s[k])
    {
      assert s[i] == regions[i].Extent();
      if regions[i].start <= a < regions[i].end {
        return true;
      }
      i := i + 1;
    }
    r := false;
  }

  // mm_free_overlaps_reserved: on non-empty ranges, two overlap iff they share
  // an address.
  method FreeOverlapsReserved(free: array<Region>, freeCount: nat, reserved: array<Region>, reservedCount: nat)
      returns (r: bool)
    requires freeCount <= free.Length && reservedCount <= reserved.Length
    requires WholePages(free[..freeCount]) && WholePages(reserved[..reservedCount])
    ensures r <==> exists a :: Covered(a, Spans(free[..freeCount])) && Covered(a, Spans(reserved[..reservedCount]))
  {
    ghost var fs, rs := Spans(free[..freeCount]), Spans(reserved[..reservedCount]);
    WholePagesSpans(free[..freeCount]);
    WholePagesSpans(reserved[..reservedCount]);
    var i := 0;
    while i < freeCount
      invariant i <= freeCount && forall k :: 0 <= k < i ==> !OverlapsAny(fs[k], rs)
    {
      r := RegionOverlapsAny(free[i].Extent(), reserved, reservedCount);
      assert fs[i] == free[i].Extent();
      if r {
        SharedAddress(fs, rs, i);
        return;
      }
      i := i + 1;
    }
    NoSharedAddress(fs, rs);
    r := false;
  }

  lemma {:induction false} SharedAddress(s: seq<Span>, t: seq<Span>, i: nat)
    requires NonEmpty(s) && NonEmpty(t) && i < |s| && OverlapsAny(s[i], t)
    ensures exists a :: Covered(a, s) && Covered(a, t)
  {
    var j :| 0 <= j < |t| && Overlap(s[i], t[j]);
    var a := Max(s[i].start, t[j].start);
    assert In(a, s[i]) && In(a, t[j]);
    assert Covered(a, s) && Covered(a, t);
  }

  lemma {:induction false} NoSharedAddress(s: seq<Span>, t: seq<Span>)
    requires forall k :: 0 <= k < |s| ==> !OverlapsAny(s[k], t)
    ensures !exists a :: Covered(a, s) && Covered(a, t)
  {
    forall a | Covered(a, s) ensures !Covered(a, t) {
      var i :| 0 <= i < |s| && In(a, s[i]);
      forall j | 0 <= j < |t| ensures !In(a, t[j]) {
        assert !Overlap(s[i], t[j]);
      }
    }
  }

  // The totals and verdicts of a build before they are stored.
  datatype Totals = Totals(ram: u64, reserved: u64, reservedInRam: u64, free: u64,
                           ok: bool, frameOk: bool, overlap: bool)

  ghost predicate TotalsOf(t: Totals, ram: seq<Span>, reserved: seq<Span>, free: seq<Span>, frame: u64) {
    && t.ram == SumPages(ram) && t.reserved == SumPages(reserved) && t.free == SumPages(free)
    && t.reservedInRam == |Counted(reserved, ram)|
    && t.ok == (t.ram == Add(t.reservedInRam, t.free))
    && t.frameOk == Covered(frame, free)
    && (t.overlap <==> exists a :: Covered(a, free) && Covered(a, reserved))
  }

  // The page totals and self-checks of three tables; false when the scratch of
  // the clipped count is overrun.
  method CheckTables(ram: array<Region>, ramCount: nat, reserved: array<Region>, reservedCount: nat,
                     free: array<Region>, freeCount: nat, frame: u64) returns (defined: bool, t: Totals)
    requires ramCount <= ram.Length && reservedCount <= reserved.Length && freeCount <= free.Length
    requires ramCount < 0x1000 && reservedCount < 0x1000 && freeCount < 0x1000
    requires WholePages(ram[..ramCount]) && WholePages(reserved[..reservedCount]) && WholePages(free[..freeCount])
    ensures var ms, rs := Spans(ram[..ramCount]), Spans(reserved[..reservedCount]);
      && defined == ScanFits(rs, ms)
      && (defined ==> TotalsOf(t, ms, rs, Spans(free[..freeCount]), frame))
  {
    t := Totals(0, 0, 0, 0, false, false, false);
    var pages := SumPagesOf(ram, ramCount);
    var resPages := SumPagesOf(reserved, reservedCount);
    var inRam := SumPagesClippedToRam(reserved, reservedCount, ram, ramCount);
    defined := inRam.PageTotal?;
    if defined {
      var unused := SumPagesOf(free, freeCount);
      var frameOk := AddrInRegions(frame, free, freeCount);
      var overlap := FreeOverlapsReserved(free, freeCount, reserved, reservedCount);
      t := Totals(pages, resPages, inRam.pages, unused, pages == Add(inRam.pages, unused), frameOk, overlap);
    }
  }

  // Page totals that do not wrap are compared as numbers.
  lemma {:induction false} CompareWrapped(ramPages: u64, inRam: u64, freePages: u64)
    requires inRam + freePages <= ramPages
    ensures ramPages == Add(inRam, freePages) <==> ramPages == inRam + freePages
  {
  }
}
