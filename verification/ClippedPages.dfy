// mm_sum_pages_clipped_to_ram: the distinct reserved pages inside RAM, counted
// by clipping, an exchange sort over two parallel arrays, and a sweep.
module ClippedPages {
  import opened Machine
  import opened Intervals
  import opened Regions
  import opened Merging

  // Entries of the scratch arrays on the stack (MM_MAX_RANGES).
  const MAX_RANGES: int := 64

  // The C function checks the scratch capacity between regions only, so one
  // region that meets several RAM ranges can write past the end of the arrays.
  // That undefined write is the outcome ScratchOverrun.
  datatype ClippedTotal = PageTotal(pages: u64) | ScratchOverrun

  // ---- What the collection loop gathers ----

  function ClipOne(x: Span, y: Span): seq<Span> {
    var c := Span(Max(x.start, y.start), Min(x.end, y.end));
    if c.end > c.start then [c] else []
  }

  function ClipRow(x: Span, ram: seq<Span>): seq<Span> {
    if ram == [] then [] else ClipRow(x, ram[..|ram| - 1]) + ClipOne(x, ram[|ram| - 1])
  }

  // The non-empty intersections of each region with each RAM range.
  function Clip(regions: seq<Span>, ram: seq<Span>): seq<Span> {
    if regions == [] then []
    else Clip(regions[..|regions| - 1], ram) + ClipRow(regions[|regions| - 1], ram)
  }

  // How many regions the outer loop visits: it stops once the scratch is full.
  function ScanEnd(regions: seq<Span>, ram: seq<Span>, k: nat): (r: nat)
    requires k <= |regions|
    ensures k <= r <= |regions|
    ensures r == |regions| || |Clip(regions[..r], ram)| >= MAX_RANGES
    decreases |regions| - k
  {
    if k == |regions| || |Clip(regions[..k], ram)| >= MAX_RANGES then k
    else ScanEnd(regions, ram, k + 1)
  }

  function Scanned(regions: seq<Span>, ram: seq<Span>): seq<Span> {
    regions[..ScanEnd(regions, ram, 0)]
  }

  // The RAM pages that the count sees in the regions.
  ghost function Counted(regions: seq<Span>, ram: seq<Span>): set<int> {
    Pages(Scanned(regions, ram)) * Pages(ram)
  }

  // The count is defined: its scratch holds what the scan gathers.
  ghost predicate ScanFits(regions: seq<Span>, ram: seq<Span>) {
    |Clip(Scanned(regions, ram), ram)| <= MAX_RANGES
  }

  lemma {:induction false} ClipRowExact(a: int, x: Span, ram: seq<Span>)
    ensures Covered(a, ClipRow(x, ram)) <==> In(a, x) && Covered(a, ram)
  {
    if ram != [] {
      var init, y := ram[..|ram| - 1], ram[|ram| - 1];
      assert ram == init + [y];
      ClipRowExact(a, x, init);
      CoveredConcat(a, ClipRow(x, init), ClipOne(x, y));
      CoveredConcat(a, init, [y]);
      CoveredOne(a, y);
      CoveredOne(a, Span(Max(x.start, y.start), Min(x.end, y.end)));
    }
  }

  lemma {:induction false} ClipExact(a: int, regions: seq<Span>, ram: seq<Span>)
    ensures Covered(a, Clip(regions, ram)) <==> Covered(a, regions) && Covered(a, ram)
  {
    if regions != [] {
      var init, x := regions[..|regions| - 1], regions[|regions| - 1];
      assert regions == init + [x];
      ClipExact(a, init, ram);
      ClipRowExact(a, x, ram);
      CoveredConcat(a, Clip(init, ram), ClipRow(x, ram));
      CoveredConcat(a, init, [x]);
      CoveredOne(a, x);
    }
  }

  // The two ranges share an address.
  ghost predicate Meet(x: Span, y: Span) { exists a :: In(a, x) && In(a, y) }

  // The RAM ranges, by number, that x meets.
  ghost function MeetsIn(x: Span, ram: seq<Span>): set<nat> { set j: nat | j < |ram| && Meet(x, ram[j]) }

  // How many pairs of a region and a RAM range meet.
  ghost function Meetings(regions: seq<Span>, ram: seq<Span>): nat {
    if regions == [] then 0
    else Meetings(regions[..|regions| - 1], ram) + |MeetsIn(regions[|regions| - 1], ram)|
  }

  lemma {:induction false} ClipOneCounts(x: Span, y: Span)
    ensures |ClipOne(x, y)| == if Meet(x, y) then 1 else 0
  {
    var a := Max(x.start, y.start);
    if a < Min(x.end, y.end) { assert In(a, x) && In(a, y); }
  }

  lemma {:induction false} ClipRowCounts(x: Span, ram: seq<Span>)
    ensures |ClipRow(x, ram)| == |MeetsIn(x, ram)|
  {
    if ram == [] {
      assert MeetsIn(x, ram) == {};
    } else {
      var n, init, y := |ram| - 1, ram[..|ram| - 1], ram[|ram| - 1];
      ClipRowCounts(x, init);
      ClipOneCounts(x, y);
      assert MeetsIn(x, ram) == if Meet(x, y) then MeetsIn(x, init) + {n} else MeetsIn(x, init);
    }
  }

  // There are as many intersections as pairs that meet.
  lemma {:induction false} ClipCounts(regions: seq<Span>, ram: seq<Span>)
    ensures |Clip(regions, ram)| == Meetings(regions, ram)
  {
    if regions != [] {
      ClipCounts(regions[..|regions| - 1], ram);
      ClipRowCounts(regions[|regions| - 1], ram);
    }
  }

  lemma {:induction false} ClipRowWhole(x: Span, ram: seq<Span>)
    ensures NonEmpty(ClipRow(x, ram))
    ensures AllAligned([x]) && AllAligned(ram) ==> AllAligned(ClipRow(x, ram))
  {
    if ram != [] {
      ClipRowWhole(x, ram[..|ram| - 1]);
      assert AllAligned([x]) ==> Aligned([x][0].start) && Aligned([x][0].end);
    }
  }

  lemma {:induction false} ClipWhole(regions: seq<Span>, ram: seq<Span>)
    ensures NonEmpty(Clip(regions, ram))
    ensures AllAligned(regions) && AllAligned(ram) ==> AllAligned(Clip(regions, ram))
  {
    if regions != [] {
      ClipWhole(regions[..|regions| - 1], ram);
      ClipRowWhole(regions[|regions| - 1], ram);
    }
  }

  lemma {:induction false} ClipPrefix(regions: seq<Span>, ram: seq<Span>, k: nat)
    requires k <= |regions|
    ensures Clip(regions[..k], ram) <= Clip(regions, ram)
    decreases |regions|
  {
    if k < |regions| {
      var init := regions[..|regions| - 1];
      assert init[..k] == regions[..k];
      ClipPrefix(init, ram, k);
    } else {
      assert regions[..k] == regions;
    }
  }

  // With at most 64 intersections nothing is cut off.
  lemma {:induction false} ScanComplete(regions: seq<Span>, ram: seq<Span>)
    requires |Clip(regions, ram)| <= MAX_RANGES
    ensures Clip(Scanned(regions, ram), ram) == Clip(regions, ram)
  {
    var k := ScanEnd(regions, ram, 0);
    ClipPrefix(regions, ram, k);
    if k == |regions| { assert regions[..k] == regions; }
  }

  // ---- The sum of the fused, sorted scratch ----

  lemma {:induction false} SortedClipTotal(z: seq<Span>, regions: seq<Span>, ram: seq<Span>)
    requires multiset(z) == multiset(Clip(regions, ram)) && Sorted(z)
    requires AllAligned(regions) && AllAligned(ram)
    ensures SumPages(Fuse(z)) == |Pages(regions) * Pages(ram)|
  {
    var c := Clip(regions, ram);
    ClipWhole(regions, ram);
    assert forall x :: x in z <==> x in c by {
      assert forall x :: x in z <==> x in multiset(z);
    }
    forall i | 0 <= i < |z|
      ensures z[i].start < z[i].end && Aligned(z[i].start) && Aligned(z[i].end)
    {
      assert z[i] in c;
    }
    FuseIsCanonical(z);
    FuseKeepsAlignment(z);
    SeparatedSum(Fuse(z));
    SameSetSamePages(Fuse(z), z);
    SameElementsSamePages(z, c);
    ClipPages(regions, ram);
  }

  lemma {:induction false} SameElementsSamePages(z: seq<Span>, c: seq<Span>)
    requires forall x :: x in z <==> x in c
    ensures Pages(z) == Pages(c)
  {
    forall a ensures Covered(a, z) <==> Covered(a, c) {
      if i :| 0 <= i < |z| && In(a, z[i]) { assert z[i] in c; }
      if i :| 0 <= i < |c| && In(a, c[i]) { assert c[i] in z; }
    }
    SameSetSamePages(z, c);
  }

  lemma {:induction false} ClipPages(regions: seq<Span>, ram: seq<Span>)
    ensures Pages(Clip(regions, ram)) == Pages(regions) * Pages(ram)
  {
    forall p ensures p in Pages(Clip(regions, ram)) <==> p in Pages(regions) * Pages(ram) {
      ClipExact(p * PAGE, regions, ram);
    }
  }

  // ---- The method ----

  // The first n entries of the two scratch arrays spell out z.
  ghost predicate Holds(starts: array<u64>, ends: array<u64>, n: nat, z: seq<Span>)
    reads starts, ends
  {
    && starts != ends
    && starts.Length == MAX_RANGES && ends.Length == MAX_RANGES && n == |z| <= MAX_RANGES
    && forall k :: 0 <= k < n ==> z[k] == Span(starts[k], ends[k])
  }

  // The body of the inner collection loop; false is the write past the end.
  method Push(starts: array<u64>, ends: array<u64>, count: nat, x: Span, y: Span, ghost z: seq<Span>)
      returns (ok: bool, n: nat)
    requires Holds(starts, ends, count, z)
    modifies starts, ends
    ensures ok ==> Holds(starts, ends, n, z + ClipOne(x, y))
    ensures !ok ==> |z + ClipOne(x, y)| > MAX_RANGES
  {
    n := count;
    var start := Max(x.start, y.start);
    var end := Min(x.end, y.end);
    if end > start {
      if count >= MAX_RANGES {
        return false, n;
      }
      starts[count] := start;
      ends[count] := end;
      n := count + 1;
    }
    ok := true;
  }

  method CollectRow(starts: array<u64>, ends: array<u64>, count: nat, x: Span,
                    ram: array<Region>, ramCount: nat, ghost z: seq<Span>) returns (ok: bool, n: nat)
    requires Holds(starts, ends, count, z) && ramCount <= ram.Length
    modifies starts, ends
    ensures ok ==> Holds(starts, ends, n, z + ClipRow(x, Spans(ram[..ramCount])))
    ensures !ok ==> |z + ClipRow(x, Spans(ram[..ramCount]))| > MAX_RANGES
  {
    ghost var ms := Spans(ram[..ramCount]);
    n := count;
    var j := 0;
    while j < ramCount
      invariant j <= ramCount
      invariant Holds(starts, ends, n, z + RowTo(x, ms, j))
    {
      RowTurn(x, ms, j, z);
      ok, n := Push(starts, ends, n, x, ram[j].Extent(), z + RowTo(x, ms, j));
      if !ok {
        RowPrefix(x, ms, j + 1);
        return;
      }
      j := j + 1;
    }
    RowPrefix(x, ms, ramCount);
    ok := true;
  }

  ghost function RowTo(x: Span, ram: seq<Span>, j: nat): seq<Span>
    requires j <= |ram|
  {
    ClipRow(x, ram[..j])
  }

  lemma {:induction false} RowTurn(x: Span, ram: seq<Span>, j: nat, z: seq<Span>)
    requires j < |ram|
    ensures z + RowTo(x, ram, j + 1) == (z + RowTo(x, ram, j)) + ClipOne(x, ram[j])
  {
    assert ram[..j + 1][..j] == ram[..j];
  }

  lemma {:induction false} RowPrefix(x: Span, ram: seq<Span>, j: nat)
    requires j <= |ram|
    ensures |RowTo(x, ram, j)| <= |ClipRow(x, ram)|
    ensures j == |ram| ==> RowTo(x, ram, j) == ClipRow(x, ram)
    decreases |ram| - j
  {
    if j < |ram| {
      RowTurn(x, ram, j, []);
      RowPrefix(x, ram, j + 1);
      assert [] + RowTo(x, ram, j + 1) == RowTo(x, ram, j + 1);
      assert [] + RowTo(x, ram, j) == RowTo(x, ram, j);
    } else {
      assert ram[..j] == ram;
    }
  }

  lemma {:induction false} ScanGoesOn(regions: seq<Span>, i: nat, ram: seq<Span>)
    requires i < |regions| && |ClipTo(regions, i, ram)| < MAX_RANGES
    ensures ScanEnd(regions, ram, i) == ScanEnd(regions, ram, i + 1)
  {
  }

  lemma {:induction false} ScanStops(regions: seq<Span>, i: nat, ram: seq<Span>)
    requires i <= |regions| && (i == |regions| || |ClipTo(regions, i, ram)| >= MAX_RANGES)
    requires ScanEnd(regions, ram, 0) == ScanEnd(regions, ram, i)
    ensures Clip(Scanned(regions, ram), ram) == ClipTo(regions, i, ram)
  {
  }

  // The scratch holds what the first i regions give, and the scan goes on there.
  ghost predicate Scanning(starts: array<u64>, ends: array<u64>, n: nat, rs: seq<Span>, ms: seq<Span>, i: nat)
    requires i <= |rs|
    reads starts, ends
  {
    Holds(starts, ends, n, ClipTo(rs, i, ms)) && ScanEnd(rs, ms, 0) == ScanEnd(rs, ms, i)
  }

  // One turn of the outer loop; it starts with room in the scratch.
  method CollectTurn(starts: array<u64>, ends: array<u64>, count: nat, x: Span, ram: array<Region>, ramCount: nat,
                     ghost rs: seq<Span>, ghost ms: seq<Span>, ghost i: nat) returns (ok: bool, n: nat)
    requires i < |rs| && rs[i] == x && ramCount <= ram.Length && ms == Spans(ram[..ramCount])
    requires Scanning(starts, ends, count, rs, ms, i) && count < MAX_RANGES
    modifies starts, ends
    ensures ok ==> Scanning(starts, ends, n, rs, ms, i + 1)
    ensures !ok ==> !ScanFits(rs, ms)
  {
    ClipTurn(rs, i, ms);
    ScanGoesOn(rs, i, ms);
    ok, n := CollectRow(starts, ends, count, x, ram, ramCount, ClipTo(rs, i, ms));
    if !ok { ScanStops(rs, i + 1, ms); }
  }

  // The collection loops: false when the scratch arrays would be overrun.
  method Collect(starts: array<u64>, ends: array<u64>, regions: array<Region>, regionCount: nat,
                 ram: array<Region>, ramCount: nat) returns (ok: bool, n: nat)
    requires Holds(starts, ends, 0, [])
    requires regionCount <= regions.Length && ramCount <= ram.Length
    modifies starts, ends
    ensures var rs, ms := Spans(old(regions[..regionCount])), Spans(old(ram[..ramCount]));
      && ok == ScanFits(rs, ms)
      && (ok ==> Holds(starts, ends, n, Clip(Scanned(rs, ms), ms)))
  {
    ghost var rs, ms := Spans(regions[..regionCount]), Spans(ram[..ramCount]);
    n := 0;
    var i := 0;
    while i < regionCount && n < MAX_RANGES
      invariant i <= regionCount && Scanning(starts, ends, n, rs, ms, i)
    {
      ok, n := CollectTurn(starts, ends, n, regions[i].Extent(), ram, ramCount, rs, ms, i);
      if !ok {
        return;
      }
      i := i + 1;
    }
    ScanStops(rs, i, ms);
    ok := true;
  }

  ghost function ClipTo(regions: seq<Span>, i: nat, ram: seq<Span>): seq<Span>
    requires i <= |regions|
  {
    Clip(regions[..i], ram)
  }

  lemma {:induction false} ClipTurn(regions: seq<Span>, i: nat, ram: seq<Span>)
    requires i < |regions|
    ensures ClipTo(regions, i + 1, ram) == ClipTo(regions, i, ram) + ClipRow(regions[i], ram)
  {
    assert regions[..i + 1][..i] == regions[..i];
  }

  method SwapRanges(starts: array<u64>, ends: array<u64>, n: nat, i: nat, j: nat, ghost z: seq<Span>)
    requires Holds(starts, ends, n, z) && i < j < n
    modifies starts, ends
    ensures Holds(starts, ends, n, z[i := z[j]][j := z[i]])
  {
    var tmp := starts[i];
    starts[i] := starts[j];
    starts[j] := tmp;
    tmp := ends[i];
    ends[i] := ends[j];
    ends[j] := tmp;
  }

  // Position i holds the least start of positions i up to n.
  predicate LeastAt(z: seq<Span>, i: nat, n: nat)
    requires i < |z| && n <= |z|
  {
    forall b :: i < b < n ==> z[i].start <= z[b].start
  }

  lemma {:induction false} LeastAfterSwap(z: seq<Span>, i: nat, j: nat)
    requires i < j < |z| && z[i].start > z[j].start
    requires LeastAt(z, i, j) && forall a :: 0 <= a < i ==> LeastAt(z, a, |z|)
    ensures var y := z[i := z[j]][j := z[i]];
      && LeastAt(y, i, j + 1)
      && (forall a :: 0 <= a < i ==> LeastAt(y, a, |y|))
      && multiset(y) == multiset(z)
  {
    var y := z[i := z[j]][j := z[i]];
    forall a, b | 0 <= a < i && a < b < |y| ensures y[a].start <= y[b].start {
      assert LeastAt(z, a, |z|);
    }
  }

  // One comparison of the inner loop.
  method CompareRanges(starts: array<u64>, ends: array<u64>, n: nat, i: nat, j: nat, ghost z: seq<Span>)
      returns (ghost y: seq<Span>)
    requires Holds(starts, ends, n, z) && i < j < n
    requires LeastAt(z, i, j) && forall a :: 0 <= a < i ==> LeastAt(z, a, n)
    modifies starts, ends
    ensures Holds(starts, ends, n, y) && multiset(y) == multiset(z)
    ensures LeastAt(y, i, j + 1) && forall a :: 0 <= a < i ==> LeastAt(y, a, n)
  {
    y := z;
    if starts[i] > starts[j] {
      LeastAfterSwap(z, i, j);
      SwapRanges(starts, ends, n, i, j, z);
      y := z[i := z[j]][j := z[i]];
    }
  }

  // The inner loop: the least start of the rest comes to position i.
  method SelectLeast(starts: array<u64>, ends: array<u64>, n: nat, i: nat, ghost z: seq<Span>)
      returns (ghost y: seq<Span>)
    requires Holds(starts, ends, n, z) && i < n
    requires forall a :: 0 <= a < i ==> LeastAt(z, a, n)
    modifies starts, ends
    ensures Holds(starts, ends, n, y) && multiset(y) == multiset(z)
    ensures forall a :: 0 <= a <= i ==> LeastAt(y, a, n)
  {
    y := z;
    var j := i + 1;
    while j < n
      invariant i < j <= n && Holds(starts, ends, n, y) && multiset(y) == multiset(z)
      invariant forall a :: 0 <= a < i ==> LeastAt(y, a, n)
      invariant LeastAt(y, i, j)
    {
      y := CompareRanges(starts, ends, n, i, j, y);
      j := j + 1;
    }
  }

  // The exchange sort: the two arrays move together.
  method SortRanges(starts: array<u64>, ends: array<u64>, n: nat, ghost z: seq<Span>)
      returns (ghost y: seq<Span>)
    requires Holds(starts, ends, n, z)
    modifies starts, ends
    ensures Holds(starts, ends, n, y) && multiset(y) == multiset(z) && Sorted(y)
  {
    y := z;
    var i := 0;
    while i < n - 1
      invariant 0 <= i && (i < n || i == 0) && Holds(starts, ends, n, y) && multiset(y) == multiset(z)
      invariant forall a :: 0 <= a < i ==> LeastAt(y, a, n)
    {
      y := SelectLeast(starts, ends, n, i, y);
      i := i + 1;
    }
    forall a, b | 0 <= a < b < n ensures y[a].start <= y[b].start {
      assert LeastAt(y, a, n);
    }
  }

  // After i ranges: the one still growing, and the pages of those before it.
  ghost function Current(z: seq<Span>, i: nat): Span
    requires 1 <= i <= |z|
  {
    var f := Fuse(z[..i]);
    f[|f| - 1]
  }

  ghost function FinishedPages(z: seq<Span>, i: nat): u64
    requires 1 <= i <= |z| <= MAX_RANGES
  {
    var f := Fuse(z[..i]);
    SumPagesBound(f[..|f| - 1]);
    SumPages(f[..|f| - 1])
  }

  lemma {:induction false} SweepStarts(z: seq<Span>)
    requires 1 <= |z| <= MAX_RANGES
    ensures Current(z, 1) == z[0] && FinishedPages(z, 1) == 0
  {
    assert z[..1][..0] == [] && Fuse([]) == [];
    assert Fuse(z[..1]) == [z[0]];
  }

  // Closing the current range counts its pages, without overflow within the
  // scratch size.
  lemma {:induction false} SweepCloses(z: seq<Span>, i: nat)
    requires 1 <= i <= |z| <= MAX_RANGES
    ensures SumPages(Fuse(z[..i])) == Add(FinishedPages(z, i), PageCount(Current(z, i)))
  {
    SumPagesBound(Fuse(z[..i]));
  }

  lemma {:induction false} SweepTurns(z: seq<Span>, i: nat)
    requires 1 <= i < |z| <= MAX_RANGES
    ensures var c, x := Current(z, i), z[i];
      if x.start <= c.end then
        Current(z, i + 1) == Span(c.start, Max(c.end, x.end)) && FinishedPages(z, i + 1) == FinishedPages(z, i)
      else
        Current(z, i + 1) == x && FinishedPages(z, i + 1) == Add(FinishedPages(z, i), PageCount(c))
  {
    var f := Fuse(z[..i]);
    assert z[..i + 1][..i] == z[..i];
    assert Fuse(z[..i + 1]) == FuseInto(f, z[i]);
    if z[i].start > Current(z, i).end {
      SweepCloses(z, i);
      assert (f + [z[i]])[..|f|] == f;
    }
  }

  // The final sweep sums the fused ranges one by one.
  method SumFused(starts: array<u64>, ends: array<u64>, n: nat, ghost z: seq<Span>) returns (sum: u64)
    requires Holds(starts, ends, n, z)
    ensures sum == SumPages(Fuse(z))
  {
    sum := 0;
    if n > 0 {
      var currentStart, currentEnd := starts[0], ends[0];
      SweepStarts(z);
      var i := 1;
      while i < n
        invariant 1 <= i <= n
        invariant Current(z, i) == Span(currentStart, currentEnd) && FinishedPages(z, i) == sum
      {
        SweepTurns(z, i);
        if starts[i] <= currentEnd {
          if ends[i] > currentEnd {
            currentEnd := ends[i];
          }
        } else {
          sum := Add(sum, PageCount(Span(currentStart, currentEnd)));
          currentStart := starts[i];
          currentEnd := ends[i];
        }
        i := i + 1;
      }
      SweepCloses(z, n);
      assert z[..n] == z;
      sum := Add(sum, PageCount(Span(currentStart, currentEnd)));
    }
  }

  // What the outcome means, for the scan as far as it got and in full.
  lemma {:induction false} ScanPages(regions: seq<Span>, ram: seq<Span>)
    ensures AllAligned(regions) ==> AllAligned(Scanned(regions, ram))
    ensures |Clip(regions, ram)| <= MAX_RANGES ==>
      && ScanFits(regions, ram)
      && Counted(regions, ram) == Pages(regions) * Pages(ram)
  {
    if |Clip(regions, ram)| <= MAX_RANGES {
      ScanComplete(regions, ram);
      ClipPages(regions, ram);
      ClipPages(Scanned(regions, ram), ram);
    }
  }

  // The distinct pages of RAM in the regions the scan reached; every region is
  // reached when at most 64 (region, RAM range) pairs intersect.
  method SumPagesClippedToRam(regions: array<Region>, regionCount: nat, ram: array<Region>, ramCount: nat)
      returns (total: ClippedTotal)
    requires regionCount <= regions.Length && ramCount <= ram.Length
    requires WholePages(regions[..regionCount]) && WholePages(ram[..ramCount])
    ensures var rs, ms := Spans(regions[..regionCount]), Spans(ram[..ramCount]);
      && total.PageTotal? == ScanFits(rs, ms)
      && (total.PageTotal? ==> total.pages == |Counted(rs, ms)|)
      && (|Clip(rs, ms)| <= MAX_RANGES ==> total.PageTotal? && total.pages == |Pages(rs) * Pages(ms)|)
  {
    ghost var rs, ms := Spans(regions[..regionCount]), Spans(ram[..ramCount]);
    WholePagesSpans(regions[..regionCount]);
    WholePagesSpans(ram[..ramCount]);
    var starts := new u64[MAX_RANGES](_ => 0);
    var ends := new u64[MAX_RANGES](_ => 0);
    var ok, n := Collect(starts, ends, regions, regionCount, ram, ramCount);
    ScanPages(rs, ms);
    if !ok {
      return ScratchOverrun;
    }
    ghost var z := SortRanges(starts, ends, n, Clip(Scanned(rs, ms), ms));
    SortedClipTotal(z, Scanned(rs, ms), ms);
    var sum := SumFused(starts, ends, n, z);
    total := PageTotal(sum);
  }
}
