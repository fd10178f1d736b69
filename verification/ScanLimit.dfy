// The 64-entry scratch of the clipped page count is a real limit: reserved tables,
// within every capacity, on which a device makes the difference between a count
// that sees all, one that is cut short, and one that overruns.
module ScanLimit {
  import opened Machine
  import opened Intervals
  import opened Regions
  import opened Merging
  import opened ClippedPages
  import opened DeviceCount
  import opened Partition
  import opened Boards

  // ---- RAM ----

  // n single RAM pages with a hole behind each.
  function ScatteredRam(n: nat): (r: seq<Span>)
    requires n <= 29
    ensures |r| == n && forall i :: 0 <= i < n ==> r[i] == Run(2 * i, 2 * i + 1)
  {
    seq(n, i requires 0 <= i < n => Run(2 * i, 2 * i + 1))
  }

  // 29 of them below the kernel, and a range for kernel and stack.
  function CrowdedRam(): (r: seq<Span>)
    ensures |r| == 30 && r[29] == Run(512, 560) && forall i :: 0 <= i < 29 ==> r[i] == Run(2 * i, 2 * i + 1)
  {
    ScatteredRam(29) + [Run(512, 560)]
  }

  lemma {:induction false} RunIsWhole(from: nat, to: nat)
    requires from < to <= 1024
    ensures Aligned(Run(from, to).start) && Aligned(Run(from, to).end) && Run(from, to).start < Run(from, to).end
  {
  }

  lemma {:induction false} CrowdedIsCanonical(ram: seq<Span>)
    requires ram == CrowdedRam()
    ensures Separated(ram) && AllAligned(ram)
  {
    forall i | 0 <= i < |ram| ensures Aligned(ram[i].start) && Aligned(ram[i].end) {
      if i < 29 { RunIsWhole(2 * i, 2 * i + 1); } else { RunIsWhole(512, 560); }
    }
  }

  // A run meets the RAM pages from its first to its last even page number.
  lemma {:induction false} RunMeetsPages(from: nat, to: nat, n: nat)
    requires from < to <= 1024 && n <= 29
    ensures Meets(Run(from, to), ScatteredRam(n)) == Max(0, Min(n, (to + 1) / 2) - (from + 1) / 2)
  {
    if n > 0 {
      var ram := ScatteredRam(n);
      RunMeetsPages(from, to, n - 1);
      assert ram[..n - 1] == ScatteredRam(n - 1);
      assert |ClipOne(Run(from, to), ram[n - 1])| == if from <= 2 * (n - 1) < to then 1 else 0;
    } else {
      assert ScatteredRam(0) == [];
    }
  }

  lemma {:induction false} MeetsSnoc(x: Span, ram: seq<Span>, y: Span)
    ensures Meets(x, ram + [y]) == Meets(x, ram) + |ClipOne(x, y)|
  {
    assert (ram + [y])[..|ram|] == ram;
  }

  // How many RAM ranges a run of pages meets.
  function RunMeetings(from: nat, to: nat): nat {
    Max(0, Min(29, (to + 1) / 2) - (from + 1) / 2) + if from < 560 && 512 < to then 1 else 0
  }

  lemma {:induction false} RunMeets(r: Region, from: nat, to: nat, ram: seq<Span>)
    requires from < to <= 1024 && ram == CrowdedRam() && r.Extent() == Run(from, to)
    ensures Meets(r.Extent(), ram) == RunMeetings(from, to)
  {
    RunMeetsPages(from, to, 29);
    MeetsSnoc(Run(from, to), ScatteredRam(29), Run(512, 560));
  }

  // ---- Reserved entries ----

  function KernelEntry(x: Span): Region {
    Region(x.start, x.end, MM_RWX, FLAG_KERNEL + FLAG_RESERVED, Literal("kernel"))
  }

  function BootEntry(x: Span): Region {
    Region(x.start, x.end, MM_R, FLAG_BOOT + FLAG_RESERVED, Literal("boot-reserved"))
  }

  function BlobEntry(x: Span): Region {
    Region(x.start, x.end, MM_R, FLAG_DTB + FLAG_RESERVED, Literal("dtb"))
  }

  function ListedEntry(x: Span): Region {
    Region(x.start, x.end, MM_R, FLAG_RESERVED, Literal("dtb-reserved"))
  }

  function DeviceEntry(x: Span, node: nat): Region {
    Region(x.start, x.end, MM_RW, FLAG_MMIO, Compatible(node))
  }

  // The ends of three reserved-memory ranges that start at pages 0, 2 and 14.
  datatype Ends = Ends(first: nat, second: nat, third: nat) {
    predicate Valid() { 2 < second <= first <= 560 && 14 < third <= 560 }
  }

  // As gathered: the kernel as it is linked, the boot area below it, the tree on
  // page 12, and the three ranges.
  function FirmList(e: Ends): seq<Region>
    requires e.Valid()
  {
    [KernelEntry(Run(512, 530)), BootEntry(Run(0, 512)), BlobEntry(Run(12, 13)),
     ListedEntry(Run(0, e.first)), ListedEntry(Run(2, e.second)), ListedEntry(Run(14, e.third))]
  }

  // As merged: a device on page 1 keeps the first two ranges apart.
  function ApartTable(e: Ends, node: nat): (r: seq<Region>)
    requires e.Valid()
    ensures |r| == 7
  {
    [BootEntry(Run(0, 512)), ListedEntry(Run(0, e.first)), DeviceEntry(Run(1, 2), node),
     ListedEntry(Run(2, e.second)), BlobEntry(Run(12, 13)), ListedEntry(Run(14, e.third)), KernelEntry(Run(512, 530))]
  }

  function JoinedTable(e: Ends): (r: seq<Region>)
    requires e.Valid()
    ensures |r| == 5
  {
    [BootEntry(Run(0, 512)), ListedEntry(Run(0, e.first)),
     BlobEntry(Run(12, 13)), ListedEntry(Run(14, e.third)), KernelEntry(Run(512, 530))]
  }

  // ---- Sorting ----

  // Sorting one more entry of a list, to a given place.
  lemma {:induction false} SortOneMore(s: seq<Region>, i: nat, sorted: seq<Region>, at: nat)
    requires i < |s| && SortByStart(s[..i]) == sorted && at <= |sorted|
    requires at > 0 ==> sorted[at - 1].start <= s[i].start
    requires forall k :: at <= k < |sorted| ==> sorted[k].start > s[i].start
    ensures SortByStart(s[..i + 1]) == sorted[..at] + [s[i]] + sorted[at..]
  {
    assert s[..i + 1] == s[..i] + [s[i]];
    SortSnoc(s[..i], s[i]);
    InsertPlace(sorted, s[i], at);
  }

  // The order of the starts in such a list, with or without a device behind it.
  predicate Mixed(s: seq<Region>) {
    && 6 <= |s| <= 7
    && s[1].start == s[3].start < s[4].start < s[2].start < s[5].start < s[0].start
    && (|s| == 7 ==> s[3].start < s[6].start < s[4].start)
  }

  // Where entry n goes, and what the first n sort to.
  function Place(n: nat): nat { if n <= 1 then 0 else if n <= 3 then 1 else if n == 5 then 4 else 2 }

  function Stage(s: seq<Region>, n: nat): (t: seq<Region>)
    requires Mixed(s) && n <= |s|
    ensures |t| == n
  {
    if n == 0 then []
    else
      var t, at := Stage(s, n - 1), Place(n - 1);
      t[..at] + [s[n - 1]] + t[at..]
  }

  lemma {:induction false} StageFour(s: seq<Region>)
    requires Mixed(s)
    ensures Stage(s, 1) == [s[0]] && Stage(s, 2) == [s[1], s[0]] && Stage(s, 3) == [s[1], s[2], s[0]]
    ensures Stage(s, 4) == [s[1], s[3], s[2], s[0]]
  {
    assert Stage(s, 0) == [];
    assert Stage(s, 1) == [s[0]];
    assert Stage(s, 2) == [s[1], s[0]];
    assert Stage(s, 3) == [s[1], s[2], s[0]];
  }

  lemma {:induction false} StageSix(s: seq<Region>)
    requires Mixed(s)
    ensures Stage(s, 5) == [s[1], s[3], s[4], s[2], s[0]]
    ensures Stage(s, 6) == [s[1], s[3], s[4], s[2], s[5], s[0]]
  {
    StageFour(s);
    assert Stage(s, 5) == [s[1], s[3], s[4], s[2], s[0]];
  }

  lemma {:induction false} PlaceFits(s: seq<Region>, n: nat)
    requires Mixed(s) && n < |s|
    ensures var t, at := Stage(s, n), Place(n);
      && (at > 0 ==> t[at - 1].start <= s[n].start)
      && (forall k :: at <= k < n ==> t[k].start > s[n].start)
  {
    StageFour(s);
    StageSix(s);
  }

  lemma {:induction false} SortStage(s: seq<Region>, n: nat)
    requires Mixed(s) && n <= |s|
    ensures SortByStart(s[..n]) == Stage(s, n)
  {
    if n == 0 {
      assert s[..0] == [];
    } else {
      var t, at := Stage(s, n - 1), Place(n - 1);
      SortStage(s, n - 1);
      PlaceFits(s, n - 1);
      SortOneMore(s, n - 1, t, at);
    }
  }

  lemma {:induction false} SortMixed(s: seq<Region>)
    requires Mixed(s)
    ensures SortByStart(s) ==
      if |s| == 6 then [s[1], s[3], s[4], s[2], s[5], s[0]] else [s[1], s[3], s[6], s[4], s[2], s[5], s[0]]
  {
    SortStage(s, |s|);
    StageSix(s);
    if |s| == 7 { StageSeven(s, [s[1], s[3], s[4], s[2], s[5], s[0]]); }
    assert s[..|s|] == s;
  }

  lemma {:induction false} StageSeven(s: seq<Region>, t: seq<Region>)
    requires Mixed(s) && |s| == 7 && t == Stage(s, 6) && t == [s[1], s[3], s[4], s[2], s[5], s[0]]
    ensures Stage(s, 7) == [s[1], s[3], s[6], s[4], s[2], s[5], s[0]]
  {
    assert t[..2] == [s[1], s[3]] && t[2..] == [s[4], s[2], s[5], s[0]];
  }

  // ---- Merging ----

  lemma {:induction false} ApartSorts(s: seq<Region>, e: Ends, node: nat)
    requires e.Valid() && s == FirmList(e) + [DeviceEntry(Run(1, 2), node)]
    ensures SortByStart(s) == ApartTable(e, node) && Coalesce(ApartTable(e, node)) == ApartTable(e, node)
  {
    SortMixed(s);
    CoalesceFixesSettled(ApartTable(e, node));
  }

  // An entry that the last output entry takes in whole leaves no trace.
  lemma {:induction false} CoalesceAbsorbs(s: seq<Region>, r: Region, rest: seq<Region>)
    requires MergeInto(Coalesce(s), r) == Coalesce(s)
    ensures Coalesce(s + [r] + rest) == Coalesce(s + rest)
    decreases |rest|
  {
    if rest == [] {
      assert s + [r] + rest == s + [r] && s + rest == s;
      CoalesceSnoc(s, r);
    } else {
      CoalesceAbsorbs(s, r, rest[..|rest| - 1]);
      CoalesceLast(s + [r], rest);
      CoalesceLast(s, rest);
    }
  }

  // The second listed range joins the first.
  lemma {:induction false} JoinedCoalesces(t: seq<Region>, u: seq<Region>)
    requires |t| == 6 && Settled(u) && u == t[..2] + t[3..]
    requires MergeInto(t[..2], t[2]) == t[..2]
    ensures Coalesce(t) == u
  {
    assert t[..2] == u[..2];
    CoalesceFixesSettled(u[..2]);
    CoalesceAbsorbs(t[..2], t[2], t[3..]);
    assert t[..2] + [t[2]] + t[3..] == t;
    CoalesceFixesSettled(u);
  }

  lemma {:induction false} JoinedSorts(s: seq<Region>, e: Ends, t: seq<Region>)
    requires e.Valid() && s == FirmList(e) && t == [s[1], s[3], s[4], s[2], s[5], s[0]]
    ensures SortByStart(s) == t && Coalesce(t) == JoinedTable(e)
  {
    SortMixed(s);
    assert MergeInto(t[..2], t[2]) == t[..2];
    assert JoinedTable(e) == t[..2] + t[3..];
    JoinedCoalesces(t, JoinedTable(e));
  }

  // ---- Counting ----

  lemma {:induction false} CountTurn(s: seq<Region>, k: nat, ram: seq<Span>)
    requires k < |s|
    ensures Count(s[..k + 1], ram) == Count(s[..k], ram) + Meets(s[k].Extent(), ram)
  {
    assert s[..k + 1] == s[..k] + [s[k]];
    CountSnoc(s[..k], s[k], ram);
  }

  lemma {:induction false} CountFour(s: seq<Region>, ram: seq<Span>, a: nat, b: nat, c: nat, d: nat)
    requires |s| >= 4 && Meets(s[0].Extent(), ram) == a && Meets(s[1].Extent(), ram) == b
    requires Meets(s[2].Extent(), ram) == c && Meets(s[3].Extent(), ram) == d
    ensures Count(s[..3], ram) == a + b + c && Count(s[..4], ram) == a + b + c + d
  {
    assert s[..0] == [];
    CountTurn(s, 0, ram);
    CountTurn(s, 1, ram);
    CountTurn(s, 2, ram);
    CountTurn(s, 3, ram);
  }

  // The RAM ranges that the listed ranges meet.
  function FirstMeets(e: Ends): nat { RunMeetings(0, e.first) }

  function SecondMeets(e: Ends): nat { RunMeetings(2, e.second) }

  function ThirdMeets(e: Ends): nat { RunMeetings(14, e.third) }

  lemma {:induction false} ApartMeets(table: seq<Region>, e: Ends, node: nat, ram: seq<Span>)
    requires e.Valid() && table == ApartTable(e, node) && ram == CrowdedRam()
    ensures Meets(table[0].Extent(), ram) == 29 && Meets(table[1].Extent(), ram) == FirstMeets(e)
    ensures Meets(table[2].Extent(), ram) == 0 && Meets(table[3].Extent(), ram) == SecondMeets(e)
  {
    RunMeets(table[0], 0, 512, ram);
    RunMeets(table[1], 0, e.first, ram);
    RunMeets(table[2], 1, 2, ram);
    RunMeets(table[3], 2, e.second, ram);
  }

  lemma {:induction false} ApartCounts(table: seq<Region>, e: Ends, node: nat, ram: seq<Span>)
    requires e.Valid() && table == ApartTable(e, node) && ram == CrowdedRam()
    ensures Count(table[..3], ram) == 29 + FirstMeets(e)
    ensures Count(table[..4], ram) == 29 + FirstMeets(e) + SecondMeets(e)
  {
    ApartMeets(table, e, node, ram);
    CountFour(table, ram, 29, FirstMeets(e), 0, SecondMeets(e));
  }

  lemma {:induction false} JoinedMeets(table: seq<Region>, e: Ends, ram: seq<Span>)
    requires e.Valid() && table == JoinedTable(e) && ram == CrowdedRam()
    ensures Meets(table[0].Extent(), ram) == 29 && Meets(table[1].Extent(), ram) == FirstMeets(e)
    ensures Meets(table[2].Extent(), ram) == 1 && Meets(table[3].Extent(), ram) == ThirdMeets(e)
    ensures Meets(table[4].Extent(), ram) == 1
  {
    RunMeets(table[0], 0, 512, ram);
    RunMeets(table[1], 0, e.first, ram);
    RunMeets(table[2], 12, 13, ram);
    RunMeets(table[3], 14, e.third, ram);
    RunMeets(table[4], 512, 530, ram);
  }

  lemma {:induction false} JoinedCounts(table: seq<Region>, e: Ends, ram: seq<Span>)
    requires e.Valid() && table == JoinedTable(e) && ram == CrowdedRam()
    ensures Count(table[..3], ram) == 30 + FirstMeets(e)
    ensures Count(table[..4], ram) == 30 + FirstMeets(e) + ThirdMeets(e)
    ensures Count(table[..5], ram) == 31 + FirstMeets(e) + ThirdMeets(e)
  {
    JoinedMeets(table, e, ram);
    CountFour(table, ram, 29, FirstMeets(e), 1, ThirdMeets(e));
    CountTurn(table, 4, ram);
  }
}
