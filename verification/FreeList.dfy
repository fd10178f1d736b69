// The subtraction loop of mm_stage2_build: writing the free list into its table.
module FreeList {
  import opened Machine
  import opened Intervals
  import opened Regions
  import opened Subtraction

  function FreeRegion(x: Span): Region {
    Region(x.start, x.end, MM_RW, FLAG_ALLOCATABLE, Literal("free"))
  }

  function FreeRegions(s: seq<Span>): (r: seq<Region>)
    ensures |r| == |s|
    ensures forall i :: 0 <= i < |s| ==> r[i] == FreeRegion(s[i])
  {
    seq(|s|, i requires 0 <= i < |s| => FreeRegion(s[i]))
  }

  // Whole pages pass through the rounding of RegionAdd unchanged.
  lemma {:induction false} RoundedWhole(x: Span)
    requires Aligned(x.start) && Aligned(x.end) && x.start < x.end
    ensures Rounded(x.start, x.end, MM_RW, FLAG_ALLOCATABLE, Literal("free")) == [FreeRegion(x)]
  {
  }

  lemma {:induction false} FreeRegionsConcat(s: seq<Span>, t: seq<Span>)
    ensures FreeRegions(s + t) == FreeRegions(s) + FreeRegions(t)
  {
  }

  // What remains to be stored for one RAM range from reserved entry j on.
  ghost function Rest(cursor: u64, end: u64, reserved: seq<Span>, j: nat): seq<Region>
    requires j <= |reserved|
  {
    FreeRegions(Sweep(cursor, end, reserved[j..]))
  }

  ghost function Tail(cursor: u64, end: u64): seq<Region> {
    if cursor < end then [FreeRegion(Span(cursor, end))] else []
  }

  // One turn of the sweep, by the case the loop takes.
  lemma {:induction false} SweepTurn(cursor: u64, end: u64, reserved: seq<Span>, j: nat)
    requires j < |reserved|
    ensures var r, rest := reserved[j], Rest(cursor, end, reserved, j);
      if r.end <= cursor then rest == Rest(cursor, end, reserved, j + 1)
      else if r.start >= end then rest == Tail(cursor, end)
      else
        rest == (if r.start > cursor then [FreeRegion(Span(cursor, Min(r.start, end)))] else []) +
                (if r.end >= end then [] else Rest(r.end, end, reserved, j + 1))
  {
    var r := reserved[j];
    assert reserved[j..][0] == r && reserved[j..][1..] == reserved[j + 1..];
    if r.end > cursor && r.start < end {
      var piece := if r.start > cursor then [Span(cursor, Min(r.start, end))] else [];
      FreeRegionsConcat(piece, if r.end >= end then [] else Sweep(r.end, end, reserved[j + 1..]));
    }
  }

  lemma {:induction false} SweepOver(cursor: u64, end: u64, reserved: seq<Span>)
    ensures Rest(cursor, end, reserved, |reserved|) == Tail(cursor, end)
  {
  }

  // Store one piece; rest is what has to follow it.
  method AddFree(free: array<Region>, count: nat, start: u64, end: u64,
                 ghost rest: seq<Region>, ghost target: seq<Region>) returns (err: Status, n: nat)
    requires Aligned(start) && Aligned(end) && start < end
    requires count <= free.Length && 0 < free.Length
    requires target == free[..count] + ([FreeRegion(Span(start, end))] + rest)
    modifies free
    ensures n <= free.Length
    ensures err == Ok ==> n == count + 1 && target == free[..n] + rest
    ensures err != Ok ==> Stored(free[..n], target, free.Length, err)
  {
    RoundedWhole(Span(start, end));
    err, n := RegionAdd(free, count, start, end, MM_RW, FLAG_ALLOCATABLE, Literal("free"));
  }

  // What the sweep does to one RAM region, entry by entry of the reserved table.
  method SubtractFrom(r: Region, reserved: array<Region>, reservedCount: nat,
                      free: array<Region>, count: nat) returns (err: Status, n: nat)
    requires r.Whole() && reservedCount <= reserved.Length && WholePages(reserved[..reservedCount])
    requires free != reserved && 0 < free.Length && count <= free.Length
    modifies free
    ensures n <= free.Length
    ensures Stored(free[..n],
                   old(free[..count]) + FreeRegions(Sweep(r.start, r.end, Spans(reserved[..reservedCount]))),
                   free.Length, err)
  {
    ghost var table := reserved[..reservedCount];
    ghost var rs := Spans(table);
    ghost var target := free[..count] + Rest(r.start, r.end, rs, 0);
    assert rs[0..] == rs;
    var cursor: u64 := r.start;
    err, n := Ok, count;
    var j := 0;
    while j < reservedCount
      invariant j <= reservedCount && Aligned(cursor) && n <= free.Length
      invariant target == free[..n] + Rest(cursor, r.end, rs, j)
    {
      assert reserved[j] in table;
      SweepTurn(cursor, r.end, rs, j);
      if reserved[j].end <= cursor {
        j := j + 1;
        continue;
      }
      if reserved[j].start >= r.end {
        break;
      }
      if reserved[j].start > cursor {
        ghost var rest := if reserved[j].end >= r.end then [] else Rest(reserved[j].end, r.end, rs, j + 1);
        err, n := AddFree(free, n, cursor, Min(reserved[j].start, r.end), rest, target);
        if err != Ok {
          return;
        }
      }
      if reserved[j].end > cursor {
        cursor := reserved[j].end;
      }
      if cursor >= r.end {
        break;
      }
      j := j + 1;
    }
    if j == reservedCount { SweepOver(cursor, r.end, rs); }
    assert target == free[..n] + Tail(cursor, r.end);
    err := Ok;
    if cursor < r.end {
      err, n := AddFree(free, n, cursor, r.end, [], target);
    }
  }

  ghost function SubtractTo(ram: seq<Span>, i: nat, reserved: seq<Span>): seq<Span>
    requires i <= |ram|
  {
    Subtract(ram[..i], reserved)
  }

  lemma {:induction false} SubtractTurn(ram: seq<Span>, i: nat, reserved: seq<Span>)
    requires i < |ram|
    ensures FreeRegions(SubtractTo(ram, i + 1, reserved)) ==
      FreeRegions(SubtractTo(ram, i, reserved)) + FreeRegions(Sweep(ram[i].start, ram[i].end, reserved))
  {
    assert ram[..i + 1][..i] == ram[..i];
    FreeRegionsConcat(SubtractTo(ram, i, reserved), Sweep(ram[i].start, ram[i].end, reserved));
  }

  lemma {:induction false} SubtractPrefix(ram: seq<Span>, i: nat, reserved: seq<Span>)
    requires i <= |ram|
    ensures FreeRegions(SubtractTo(ram, i, reserved)) <= FreeRegions(Subtract(ram, reserved))
    decreases |ram| - i
  {
    if i == |ram| {
      assert ram[..i] == ram;
    } else {
      SubtractTurn(ram, i, reserved);
      SubtractPrefix(ram, i + 1, reserved);
    }
  }

  method SubtractReserved(ram: array<Region>, ramCount: nat, reserved: array<Region>, reservedCount: nat,
                          free: array<Region>) returns (err: Status, n: nat)
    requires ramCount <= ram.Length && reservedCount <= reserved.Length
    requires free != ram && free != reserved && 0 < free.Length
    requires WholePages(ram[..ramCount]) && WholePages(reserved[..reservedCount])
    modifies free
    ensures n <= free.Length
    ensures Stored(free[..n],
                   FreeRegions(Subtract(Spans(ram[..ramCount]), Spans(reserved[..reservedCount]))),
                   free.Length, err)
  {
    ghost var table := ram[..ramCount];
    ghost var ms := Spans(table);
    ghost var rs := Spans(reserved[..reservedCount]);
    err, n := Ok, 0;
    var i := 0;
    while i < ramCount
      invariant i <= ramCount && n <= free.Length && err == Ok
      invariant free[..n] == FreeRegions(SubtractTo(ms, i, rs))
    {
      assert ram[i] in table;
      SubtractTurn(ms, i, rs);
      err, n := SubtractFrom(ram[i], reserved, reservedCount, free, n);
      if err != Ok {
        SubtractPrefix(ms, i + 1, rs);
        return;
      }
      i := i + 1;
    }
    SubtractPrefix(ms, ramCount, rs);
    assert ms[..ramCount] == ms;
  }
}
