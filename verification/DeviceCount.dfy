// What device regions do to the stored count of reserved RAM pages. They hold no
// RAM themselves, but they can keep two reservations of one class apart. That
// brings the 64-entry limit of the count closer, so that it is cut short, or
// overruns, or ends before the entry that would have overrun it.
module DeviceCount {
  import opened Machine
  import opened Intervals
  import opened Regions
  import opened Merging
  import opened ClippedPages
  import opened MapSpec
  import opened MapTheorems
  import opened DeviceMemory

  // ---- Leaving the devices out ----

  // The entries outside the device class, in their order.
  function Firm(s: seq<Region>): seq<Region> {
    if s == [] then []
    else Firm(s[..|s| - 1]) + if IsDevice(s[|s| - 1]) then [] else [s[|s| - 1]]
  }

  lemma {:induction false} FirmSnoc(s: seq<Region>, r: Region)
    ensures Firm(s + [r]) == Firm(s) + if IsDevice(r) then [] else [r]
  {
    assert (s + [r])[..|s|] == s;
  }

  lemma {:induction false} FirmMember(s: seq<Region>, r: Region)
    requires r in Firm(s)
    ensures r in s
  {
    var init, last := s[..|s| - 1], s[|s| - 1];
    assert s == init + [last];
    if r in Firm(init) { FirmMember(init, r); }
  }

  lemma {:induction false} FirmOfFirm(s: seq<Region>)
    requires forall r :: r in s ==> !IsDevice(r)
    ensures Firm(s) == s
  {
    if s != [] {
      FirmOfFirm(s[..|s| - 1]);
      assert s[|s| - 1] in s && s == s[..|s| - 1] + [s[|s| - 1]];
    }
  }

  lemma {:induction false} FirmBeforeDevices(s: seq<Region>, t: seq<Region>)
    requires forall r :: r in t ==> IsDevice(r)
    ensures Firm(s + t) == Firm(s)
  {
    if t == [] {
      assert s + t == s;
    } else {
      var init, last := t[..|t| - 1], t[|t| - 1];
      assert last in t && s + t == (s + init) + [last];
      FirmBeforeDevices(s, init);
      FirmSnoc(s + init, last);
    }
  }

  // Leaving devices out commutes with the stable sort.
  lemma {:induction false} FirmInsert(s: seq<Region>, key: Region)
    requires SortedByStart(s)
    ensures Firm(Insert(s, key)) == if IsDevice(key) then Firm(s) else Insert(Firm(s), key)
  {
    if s == [] || s[|s| - 1].start <= key.start {
      FirmSnoc(s, key);
      FirmEndsBy(s, key.start);
    } else {
      var init, last := s[..|s| - 1], s[|s| - 1];
      assert s == init + [last];
      FirmInsert(init, key);
      FirmInsertBefore(init, last, key);
    }
  }

  lemma {:induction false} FirmInsertBefore(init: seq<Region>, last: Region, key: Region)
    requires last.start > key.start
    requires Firm(Insert(init, key)) == if IsDevice(key) then Firm(init) else Insert(Firm(init), key)
    ensures Firm(Insert(init + [last], key)) ==
      if IsDevice(key) then Firm(init + [last]) else Insert(Firm(init + [last]), key)
  {
    InsertBefore(init, last, key);
    FirmSnoc(init, last);
    FirmSnoc(Insert(init, key), last);
    if IsDevice(last) {
      assert Firm(init) + [] == Firm(init) && Insert(Firm(init), key) + [] == Insert(Firm(init), key);
    } else {
      InsertBefore(Firm(init), last, key);
    }
  }

  lemma {:induction false} FirmEndsBy(s: seq<Region>, v: int)
    requires SortedByStart(s) && (s == [] || s[|s| - 1].start <= v)
    ensures Firm(s) == [] || Firm(s)[|Firm(s)| - 1].start <= v
  {
    if s != [] && IsDevice(s[|s| - 1]) { FirmEndsBy(s[..|s| - 1], v); }
  }

  lemma {:induction false} SortSnoc(s: seq<Region>, r: Region)
    ensures SortByStart(s + [r]) == Insert(SortByStart(s), r)
  {
    assert (s + [r])[..|s|] == s;
  }

  lemma {:induction false} FirmSort(s: seq<Region>)
    ensures Firm(SortByStart(s)) == SortByStart(Firm(s))
  {
    if s == [] {
      assert SortByStart(s) == [] && SortByStart(Firm(s)) == [];
    } else {
      var init, last := s[..|s| - 1], s[|s| - 1];
      assert s == init + [last];
      FirmSort(init);
      SortSorts(init);
      SortSnoc(init, last);
      FirmSnoc(init, last);
      FirmInsert(SortByStart(init), last);
      if IsDevice(last) { assert Firm(init) + [] == Firm(init); } else { SortSnoc(Firm(init), last); }
    }
  }

  // ---- Counting intersections ----

  // How many RAM ranges a range meets.
  function Meets(x: Span, ram: seq<Span>): nat { |ClipRow(x, ram)| }

  // How many intersections a table has with RAM.
  function Count(s: seq<Region>, ram: seq<Span>): nat { |Clip(Spans(s), ram)| }

  lemma {:induction false} CountSnoc(s: seq<Region>, r: Region, ram: seq<Span>)
    ensures Count(s + [r], ram) == Count(s, ram) + Meets(r.Extent(), ram)
  {
    assert Spans(s + [r])[..|s|] == Spans(s);
  }

  lemma {:induction false} CountSplit(s: seq<Region>, ram: seq<Span>)
    requires s != []
    ensures Count(s, ram) == Count(s[..|s| - 1], ram) + Meets(s[|s| - 1].Extent(), ram)
  {
    assert s == s[..|s| - 1] + [s[|s| - 1]];
    CountSnoc(s[..|s| - 1], s[|s| - 1], ram);
  }

  // The range x extended to the end of r, as a merge does it.
  function Join(x: Span, r: Span): Span { Span(x.start, Max(x.end, r.end)) }

  predicate Inside(x: Span, y: Span) { y.start <= x.start && x.end <= y.end }

  lemma {:induction false} MeetsMore(x: Span, y: Span, ram: seq<Span>)
    requires Inside(x, y)
    ensures Meets(x, ram) <= Meets(y, ram)
  {
    if ram != [] { MeetsMore(x, y, ram[..|ram| - 1]); }
  }

  lemma {:induction false} JoinMeetsNoMore(x: Span, r: Span, ram: seq<Span>)
    requires x.start <= r.start <= x.end
    ensures Meets(Join(x, r), ram) <= Meets(x, ram) + Meets(r, ram)
  {
    if ram != [] { JoinMeetsNoMore(x, r, ram[..|ram| - 1]); }
  }

  // The larger of two ranges gains no more by the same extension.
  lemma {:induction false} JoinGainsLess(x: Span, y: Span, r: Span, ram: seq<Span>)
    requires Inside(x, y) && x.start < x.end && x.start <= r.start <= x.end
    ensures Meets(Join(y, r), ram) + Meets(x, ram) <= Meets(Join(x, r), ram) + Meets(y, ram)
  {
    if ram != [] {
      JoinGainsLess(x, y, r, ram[..|ram| - 1]);
      JoinGainsLessHere(x, y, r, ram[|ram| - 1]);
    }
  }

  lemma {:induction false} JoinGainsLessHere(x: Span, y: Span, r: Span, z: Span)
    requires Inside(x, y) && x.start < x.end && x.start <= r.start <= x.end
    ensures |ClipOne(Join(y, r), z)| + |ClipOne(x, z)| <= |ClipOne(Join(x, r), z)| + |ClipOne(y, z)|
  {
  }

  // ---- The table without devices follows the table with them ----

  // Some entry of firm holds x, and at most n intersections come before it.
  ghost predicate Seen(x: Span, n: nat, firm: seq<Region>, ram: seq<Span>) {
    exists j :: 0 <= j < |firm| && Inside(x, firm[j].Extent()) && Count(firm[..j], ram) <= n
  }

  // The last entry of all lies in the last entry of firm, with no more before it.
  ghost predicate LastTracked(all: seq<Region>, firm: seq<Region>, ram: seq<Span>)
    requires all != []
  {
    && firm != [] && firm[|firm| - 1].SameClass(all[|all| - 1])
    && Inside(all[|all| - 1].Extent(), firm[|firm| - 1].Extent())
    && Count(firm[..|firm| - 1], ram) <= Count(all[..|all| - 1], ram)
  }

  ghost predicate Tracks(all: seq<Region>, firm: seq<Region>, ram: seq<Span>) {
    && Count(firm, ram) <= Count(all, ram)
    && (all != [] && !IsDevice(all[|all| - 1]) ==> LastTracked(all, firm, ram))
    && (forall k :: 0 <= k < |all| && !IsDevice(all[k]) ==> Seen(all[k].Extent(), Count(all[..k], ram), firm, ram))
  }

  // A merge changes no entry but the last, and that only upward.
  lemma {:induction false} SeenAfterMerge(x: Span, n: nat, firm: seq<Region>, r: Region, ram: seq<Span>)
    requires Seen(x, n, firm, ram)
    ensures Seen(x, n, MergeInto(firm, r), ram)
  {
    var j :| 0 <= j < |firm| && Inside(x, firm[j].Extent()) && Count(firm[..j], ram) <= n;
    var m := MergeInto(firm, r);
    MergeIntoShape(firm, r);
    assert m[..j] == firm[..j];
    assert Inside(x, m[j].Extent());
  }

  lemma {:induction false} CountAfterMerge(all: seq<Region>, r: Region, ram: seq<Span>)
    ensures Count(MergeInto(all, r), ram) >= Count(all, ram)
    ensures forall k :: 0 <= k < |all| ==> MergeInto(all, r)[..k] == all[..k]
    ensures |all| <= |MergeInto(all, r)|
  {
    var m := MergeInto(all, r);
    if all == [] {
      assert Count(all, ram) == 0;
    } else {
      MergeIntoShape(all, r);
      CountSplit(all, ram);
      if |m| == |all| {
        CountSplit(m, ram);
        assert m[..|m| - 1] == all[..|all| - 1];
        MeetsMore(all[|all| - 1].Extent(), m[|m| - 1].Extent(), ram);
      } else {
        CountSnoc(all, r, ram);
      }
    }
  }

  lemma {:induction false} DeviceKeepsTrack(all: seq<Region>, firm: seq<Region>, r: Region, ram: seq<Span>)
    requires Tracks(all, firm, ram) && IsDevice(r)
    ensures Tracks(MergeInto(all, r), firm, ram)
  {
    var m := MergeInto(all, r);
    CountAfterMerge(all, r, ram);
    if all != [] { MergeIntoShape(all, r); }
    forall k | 0 <= k < |m| && !IsDevice(m[k]) ensures Seen(m[k].Extent(), Count(m[..k], ram), firm, ram) {
      assert k < |all| && m[k] == all[k] && m[..k] == all[..k];
    }
  }

  // A firm region that extends the last entry of all extends that of firm too.
  lemma {:induction false} JoinKeepsTrack(all: seq<Region>, firm: seq<Region>, r: Region, ram: seq<Span>)
    requires Tracks(all, firm, ram) && !IsDevice(r) && all != [] && r.SameClass(all[|all| - 1])
    requires all[|all| - 1].start < all[|all| - 1].end && all[|all| - 1].start <= r.start <= all[|all| - 1].end
    ensures Tracks(MergeInto(all, r), MergeInto(firm, r), ram)
  {
    var m, f := MergeInto(all, r), MergeInto(firm, r);
    var x, y := all[|all| - 1].Extent(), firm[|firm| - 1].Extent();
    assert LastTracked(all, firm, ram);
    MergeIntoShape(all, r);
    MergeIntoShape(firm, r);
    assert m[..|m| - 1] == all[..|all| - 1] && f[..|f| - 1] == firm[..|firm| - 1];
    assert m[|m| - 1].Extent() == Join(x, r.Extent()) && f[|f| - 1].Extent() == Join(y, r.Extent());
    CountSplit(all, ram);
    CountSplit(firm, ram);
    CountSplit(m, ram);
    CountSplit(f, ram);
    JoinGainsLess(x, y, r.Extent(), ram);
    StillTracks(all, firm, r, ram);
  }

  // A firm region that opens a new entry of all may still extend that of firm.
  lemma {:induction false} AppendKeepsTrack(all: seq<Region>, firm: seq<Region>, r: Region, ram: seq<Span>)
    requires Tracks(all, firm, ram) && !IsDevice(r) && MergeInto(all, r) == all + [r]
    requires firm != [] ==> firm[|firm| - 1].start <= r.start
    ensures Tracks(MergeInto(all, r), MergeInto(firm, r), ram)
  {
    var m, f := all + [r], MergeInto(firm, r);
    CountSnoc(all, r, ram);
    assert m[..|m| - 1] == all;
    if f == firm + [r] {
      CountSnoc(firm, r, ram);
      assert f[..|f| - 1] == firm;
    } else {
      MergeIntoShape(firm, r);
      assert f[..|f| - 1] == firm[..|firm| - 1];
      CountSplit(firm, ram);
      CountSplit(f, ram);
      JoinMeetsNoMore(firm[|firm| - 1].Extent(), r.Extent(), ram);
    }
    StillTracks(all, firm, r, ram);
  }

  lemma {:induction false} StillTracks(all: seq<Region>, firm: seq<Region>, r: Region, ram: seq<Span>)
    requires Tracks(all, firm, ram)
    requires Count(MergeInto(firm, r), ram) <= Count(MergeInto(all, r), ram)
    requires MergeInto(all, r) != [] && LastTracked(MergeInto(all, r), MergeInto(firm, r), ram)
    ensures Tracks(MergeInto(all, r), MergeInto(firm, r), ram)
  {
    var m, f := MergeInto(all, r), MergeInto(firm, r);
    CountAfterMerge(all, r, ram);
    if all != [] { MergeIntoShape(all, r); }
    forall k | 0 <= k < |m| && !IsDevice(m[k]) ensures Seen(m[k].Extent(), Count(m[..k], ram), f, ram) {
      if k < |m| - 1 {
        assert m[k] == all[k] && m[..k] == all[..k];
        SeenAfterMerge(m[k].Extent(), Count(m[..k], ram), firm, r, ram);
      }
    }
  }

  // Along a sorted list the two merges stay in step.
  lemma {:induction false} CoalesceTracks(s: seq<Region>, ram: seq<Span>)
    requires SortedByStart(s) && WholePages(s)
    ensures Tracks(Coalesce(s), Coalesce(Firm(s)), ram)
  {
    if s == [] {
      assert Coalesce(s) == [] && Coalesce(Firm(s)) == [];
    } else {
      var init, r := s[..|s| - 1], s[|s| - 1];
      assert s == init + [r];
      CoalesceTracks(init, ram);
      if IsDevice(r) {
        FirmSnoc(init, r);
        assert Firm(s) == Firm(init);
        DeviceKeepsTrack(Coalesce(init), Coalesce(Firm(init)), r, ram);
      } else {
        CoalesceFirmSnoc(init, r);
        LastStarts(init, r);
        FirmTurn(init, r, ram);
      }
    }
  }

  lemma {:induction false} CoalesceFirmSnoc(init: seq<Region>, r: Region)
    requires !IsDevice(r)
    ensures Coalesce(Firm(init + [r])) == MergeInto(Coalesce(Firm(init)), r)
  {
    FirmSnoc(init, r);
    assert (Firm(init) + [r])[..|Firm(init)|] == Firm(init);
  }

  lemma {:induction false} FirmSorted(s: seq<Region>)
    requires SortedByStart(s)
    ensures SortedByStart(Firm(s))
  {
    SortFixesSorted(s);
    FirmSort(s);
    SortSorts(Firm(s));
  }

  // The last entries before r start no later and are not empty.
  ghost predicate EndsBefore(out: seq<Region>, r: Region) {
    out != [] ==> out[|out| - 1].start <= r.start && out[|out| - 1].start < out[|out| - 1].end
  }

  lemma {:induction false} CoalesceEndsBefore(s: seq<Region>, r: Region)
    requires SortedByStart(s) && WholePages(s) && forall x :: x in s ==> x.start <= r.start
    ensures EndsBefore(Coalesce(s), r)
  {
    CoalesceShape(s);
    CoalesceKeepsWholePages(s);
    var out := Coalesce(s);
    if out != [] {
      assert s != [] && s[|s| - 1] in s;
      assert out[|out| - 1] in out && out[|out| - 1].Whole();
    }
  }

  lemma {:induction false} LastStarts(init: seq<Region>, r: Region)
    requires SortedByStart(init + [r]) && WholePages(init + [r])
    ensures EndsBefore(Coalesce(init), r) && EndsBefore(Coalesce(Firm(init)), r)
  {
    var s := init + [r];
    forall x | x in init ensures x.start <= r.start && x.Whole() {
      var i :| 0 <= i < |init| && init[i] == x;
      assert s[i] == x && s[|init|] == r && x in s;
    }
    assert SortedByStart(init) by {
      assert forall i :: 0 <= i < |init| ==> init[i] == s[i];
    }
    CoalesceEndsBefore(init, r);
    FirmSorted(init);
    forall x | x in Firm(init) ensures x.start <= r.start && x.Whole() {
      FirmMember(init, x);
    }
    CoalesceEndsBefore(Firm(init), r);
  }

  lemma {:induction false} FirmTurn(init: seq<Region>, r: Region, ram: seq<Span>)
    requires !IsDevice(r) && Tracks(Coalesce(init), Coalesce(Firm(init)), ram)
    requires EndsBefore(Coalesce(init), r) && EndsBefore(Coalesce(Firm(init)), r)
    ensures Tracks(MergeInto(Coalesce(init), r), MergeInto(Coalesce(Firm(init)), r), ram)
  {
    var all, firm := Coalesce(init), Coalesce(Firm(init));
    if all != [] && r.start <= all[|all| - 1].end && r.SameClass(all[|all| - 1]) {
      JoinKeepsTrack(all, firm, r, ram);
    } else {
      AppendKeepsTrack(all, firm, r, ram);
    }
  }

  // ---- The scan ----

  // The scan visits an entry exactly when fewer than 64 intersections precede it.
  lemma {:induction false} VisitsExactly(table: seq<Span>, ram: seq<Span>, i: nat, k: nat)
    requires i <= k < |table|
    ensures k < ScanEnd(table, ram, i) <==> |Clip(table[..k], ram)| < 64
    decreases k - i
  {
    ClipGrows(table, ram, i, k);
    if i < k { VisitsExactly(table, ram, i + 1, k); }
  }

  lemma {:induction false} ClipGrows(table: seq<Span>, ram: seq<Span>, i: nat, k: nat)
    requires i <= k <= |table|
    ensures |Clip(table[..i], ram)| <= |Clip(table[..k], ram)|
  {
    assert table[..k][..i] == table[..i];
    ClipPrefix(table[..k], ram, i);
  }

  // The count is defined exactly when no entry that it visits takes the scratch
  // beyond 64 intersections.
  lemma {:induction false} ScanFitsExactly(table: seq<Span>, ram: seq<Span>)
    ensures ScanFits(table, ram) <==>
      forall k :: 0 <= k < |table| && |Clip(table[..k], ram)| < 64 ==> |Clip(table[..k + 1], ram)| <= 64
  {
    var e := ScanEnd(table, ram, 0);
    forall k | 0 <= k < |table| && |Clip(table[..k], ram)| < 64 && |Clip(table[..k + 1], ram)| > 64
      ensures k + 1 == e
    {
      VisitsExactly(table, ram, 0, k);
      if k + 1 < |table| { VisitsExactly(table, ram, 0, k + 1); }
    }
    if e > 0 {
      VisitsExactly(table, ram, 0, e - 1);
      assert table[..e] == Scanned(table, ram);
    } else {
      assert Clip(table[..0], ram) == [];
    }
  }

  lemma {:induction false} SpansPrefix(s: seq<Region>, k: nat)
    requires k <= |s|
    ensures Spans(s[..k]) == Spans(s)[..k]
  {
  }

  // A page the scan meets in a firm entry of all it also meets in firm.
  lemma {:induction false} SeenIsVisited(all: seq<Region>, firm: seq<Region>, k: nat, a: int, ram: seq<Span>)
    requires Tracks(all, firm, ram) && k < |all| && !IsDevice(all[k]) && In(a, all[k].Extent())
    requires k < ScanEnd(Spans(all), ram, 0)
    ensures Covered(a, Scanned(Spans(firm), ram))
  {
    VisitsExactly(Spans(all), ram, 0, k);
    SpansPrefix(all, k);
    var n := Count(all[..k], ram);
    var j :| 0 <= j < |firm| && Inside(all[k].Extent(), firm[j].Extent()) && Count(firm[..j], ram) <= n;
    VisitsExactly(Spans(firm), ram, 0, j);
    SpansPrefix(firm, j);
    assert In(a, Scanned(Spans(firm), ram)[j]);
  }

  // ---- On a platform ----

  // The reserved table of a platform whose device nodes are ignored.
  function FirmTable(p: Platform): seq<Region>
    requires p.WellFormed()
  {
    Merge(FirmCandidates(p))
  }

  lemma {:induction false} FirmTableTracks(p: Platform, ram: seq<Span>)
    requires p.WellFormed()
    ensures Tracks(ReservedTable(p), FirmTable(p), ram)
  {
    var s := SortByStart(ReservedCandidates(p));
    CandidatesAreWhole(p);
    FirmIsNotDevice(p);
    SortSorts(ReservedCandidates(p));
    SortSameElements(ReservedCandidates(p));
    CoalesceTracks(s, ram);
    FirmSort(ReservedCandidates(p));
    FirmBeforeDevices(FirmCandidates(p), MmioCandidates(p));
    FirmOfFirm(FirmCandidates(p));
  }

  // No device entry of the table holds an address of RAM.
  ghost predicate DevicesOutside(all: seq<Region>, ram: seq<Span>) {
    forall k, a :: 0 <= k < |all| && IsDevice(all[k]) && In(a, all[k].Extent()) ==> !Covered(a, ram)
  }

  lemma {:induction false} PageSeenToo(q: int, all: seq<Region>, firm: seq<Region>, ram: seq<Span>)
    requires Tracks(all, firm, ram) && DevicesOutside(all, ram) && q in Counted(Spans(all), ram)
    ensures q in Counted(Spans(firm), ram)
  {
    var seen := Scanned(Spans(all), ram);
    var k :| 0 <= k < |seen| && In(q * PAGE, seen[k]);
    assert seen[k] == all[k].Extent() && !IsDevice(all[k]);
    SeenIsVisited(all, firm, k, q * PAGE, ram);
  }

  lemma {:induction false} CountedAgain(all: seq<Region>, firm: seq<Region>, ram: seq<Span>)
    requires Tracks(all, firm, ram) && DevicesOutside(all, ram)
    ensures Counted(Spans(all), ram) <= Counted(Spans(firm), ram)
  {
    forall q | q in Counted(Spans(all), ram) ensures q in Counted(Spans(firm), ram) {
      PageSeenToo(q, all, firm, ram);
    }
  }

  lemma {:induction false} CountedWithoutDevices(p: Platform)
    requires p.WellFormed()
    ensures Counted(Spans(ReservedTable(p)), Spans(RamTable(p))) <= Counted(Spans(FirmTable(p)), Spans(RamTable(p)))
  {
    var all, ram := ReservedTable(p), Spans(RamTable(p));
    forall k, a | 0 <= k < |all| && IsDevice(all[k]) && In(a, all[k].Extent()) ensures !Covered(a, ram) {
      DeviceEntryOutsideRam(p, k, a);
    }
    FirmTableTracks(p, ram);
    CountedAgain(all, FirmTable(p), ram);
  }

  lemma {:induction false} CountedCompare(all: seq<Span>, firm: seq<Span>, ram: seq<Span>)
    requires Counted(all, ram) <= Counted(firm, ram)
    ensures |Counted(all, ram)| <= |Counted(firm, ram)|
    ensures |Counted(all, ram)| == |Counted(firm, ram)| <==> VisitedSeen(all, firm, ram)
  {
    SubsetSizes(Counted(all, ram), Counted(firm, ram));
    var seen := Scanned(firm, ram);
    PagesByEntry(seen, Pages(Scanned(all, ram)), Pages(ram));
    assert |seen| == ScanEnd(firm, ram, 0) && forall i :: 0 <= i < |seen| ==> seen[i] == firm[i];
  }

  lemma {:induction false} PagesByEntry(s: seq<Span>, bound: set<int>, ram: set<int>)
    ensures (forall i :: 0 <= i < |s| ==> Pages([s[i]]) * ram <= bound) <==> Pages(s) * ram <= bound
  {
    if forall i :: 0 <= i < |s| ==> Pages([s[i]]) * ram <= bound { PagesOfAll(s, bound, ram); }
    if Pages(s) * ram <= bound {
      forall i | 0 <= i < |s| ensures Pages([s[i]]) * ram <= bound {
        PagesOfMember(s, i);
      }
    }
  }

  // The scan of all sees every RAM page of every entry that the scan of firm
  // visits.
  ghost predicate VisitedSeen(all: seq<Span>, firm: seq<Span>, ram: seq<Span>) {
    forall i :: 0 <= i < ScanEnd(firm, ram, 0) ==> Pages([firm[i]]) * Pages(ram) <= Pages(Scanned(all, ram))
  }

  // ---- What the build stores ----

  // The reserved pages in RAM and the verdict on the totals, or no value at all.
  datatype Verdict = Overrun | Stored(pages: nat, ok: bool)

  ghost function VerdictOn(reserved: seq<Span>, ram: seq<Span>): Verdict {
    if ScanFits(reserved, ram) then Stored(|Counted(reserved, ram)|, TotalsAgree(ram, reserved)) else Overrun
  }

  // The table of a platform, and that of its firm entries alone.
  ghost function WithDevices(p: Platform): Verdict
    requires p.WellFormed()
  {
    VerdictOn(Spans(ReservedTable(p)), Spans(RamTable(p)))
  }

  ghost function WithoutDevices(p: Platform): Verdict
    requires p.WellFormed()
  {
    VerdictOn(Spans(FirmTable(p)), Spans(RamTable(p)))
  }

  // A platform with the same firm entries and no device region has that table.
  lemma {:induction false} NoDeviceRegions(p: Platform, q: Platform)
    requires p.WellFormed() && q.WellFormed()
    requires FirmCandidates(p) == FirmCandidates(q) && MmioCandidates(q) == []
    ensures ReservedTable(q) == FirmTable(p)
  {
    assert FirmCandidates(q) + [] == FirmCandidates(q);
  }

  // Devices change what is stored exactly when one of the two counts overruns and
  // the other does not, or both are defined and the scan with devices misses a
  // RAM page of an entry that the scan without them visits.
  lemma {:induction false} DevicesMatterExactly(p: Platform)
    requires p.WellFormed()
    ensures var all, firm, ram := Spans(ReservedTable(p)), Spans(FirmTable(p)), Spans(RamTable(p));
      WithDevices(p) == WithoutDevices(p) <==>
        (ScanFits(all, ram) <==> ScanFits(firm, ram)) && (ScanFits(all, ram) ==> VisitedSeen(all, firm, ram))
  {
    var all, firm, ram := Spans(ReservedTable(p)), Spans(FirmTable(p)), Spans(RamTable(p));
    CountedWithoutDevices(p);
    CountedCompare(all, firm, ram);
    MmioIsNeutral(p);
  }

  // Where both are defined, devices can only lower the count and spoil the totals.
  lemma {:induction false} DevicesOnlySpoil(p: Platform)
    requires p.WellFormed() && WithDevices(p).Stored? && WithoutDevices(p).Stored?
    ensures WithDevices(p).pages <= WithoutDevices(p).pages
    ensures WithDevices(p).ok ==> WithoutDevices(p).ok
  {
    var all, firm, ram := Spans(ReservedTable(p)), Spans(FirmTable(p)), Spans(RamTable(p));
    CountedWithoutDevices(p);
    CountedCompare(all, firm, ram);
    MmioIsNeutral(p);
    RamTableShape(p);
    FirmTableShape(p);
    CountedAtMost(ram, firm);
  }

  // Within 64 intersections devices change nothing, and the totals agree.
  lemma {:induction false} DevicesNeutralWithinLimit(p: Platform)
    requires p.WellFormed()
    requires |Clip(Spans(ReservedTable(p)), Spans(RamTable(p)))| <= MAX_RANGES
    ensures WithDevices(p) == WithoutDevices(p) && WithDevices(p).Stored? && WithDevices(p).ok
  {
    var all, firm, ram := Spans(ReservedTable(p)), Spans(FirmTable(p)), Spans(RamTable(p));
    FirmTableTracks(p, ram);
    ScanPages(all, ram);
    ScanPages(firm, ram);
    MmioIsNeutral(p);
    TotalsOnPlatform(p);
    RamTableShape(p);
    FirmTableShape(p);
    TotalsAgreeExactly(ram, firm);
  }

  // ---- Few entries ----

  lemma {:induction false} ProductGrows(a: nat, b: nat, c: nat, d: nat)
    requires a <= c && b <= d
    ensures a * b <= c * d
  {
    assert a * b <= c * b;
    assert c * b <= c * d;
  }

  // With few ranges the count is defined, whatever the devices.
  lemma {:induction false} FewEntriesFit(p: Platform)
    requires p.WellFormed() && |FirmCandidates(p)| * |RamCandidates(p)| <= MAX_RANGES
    ensures WithDevices(p).Stored? && WithDevices(p).ok
  {
    var all, ram := Spans(ReservedTable(p)), Spans(RamTable(p));
    MergeKeepsClasses(RamCandidates(p));
    FirmEntriesAtMost(p);
    ProductGrows(FirmCount(ReservedTable(p)), |RamTable(p)|, |FirmCandidates(p)|, |RamCandidates(p)|);
    SmallMapsAgree(p);
    ScanPages(all, ram);
  }
}
