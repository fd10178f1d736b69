// Tables split at an address: what starts below it and what starts from it on
// sort and merge apart.
module Partition {
  import opened Intervals
  import opened Regions
  import opened Merging
  import opened ClippedPages
  import opened MapSpec
  import opened DeviceMemory
  import opened DeviceCount

  function Below(s: seq<Region>, v: int): seq<Region> {
    if s == [] then []
    else Below(s[..|s| - 1], v) + if s[|s| - 1].start < v then [s[|s| - 1]] else []
  }

  function From(s: seq<Region>, v: int): seq<Region> {
    if s == [] then []
    else From(s[..|s| - 1], v) + if s[|s| - 1].start < v then [] else [s[|s| - 1]]
  }

  lemma {:induction false} PartsSnoc(s: seq<Region>, r: Region, v: int)
    ensures Below(s + [r], v) == if r.start < v then Below(s, v) + [r] else Below(s, v)
    ensures From(s + [r], v) == if r.start < v then From(s, v) else From(s, v) + [r]
  {
    assert (s + [r])[..|s|] == s;
    assert Below(s, v) + [] == Below(s, v) && From(s, v) + [] == From(s, v);
  }

  lemma {:induction false} PartsConcat(s: seq<Region>, t: seq<Region>, v: int)
    ensures Below(s + t, v) == Below(s, v) + Below(t, v) && From(s + t, v) == From(s, v) + From(t, v)
  {
    if t == [] {
      assert s + t == s;
    } else {
      var init, last := t[..|t| - 1], t[|t| - 1];
      assert s + t == (s + init) + [last] && t == init + [last];
      PartsConcat(s, init, v);
      PartsSnoc(s + init, last, v);
      PartsSnoc(init, last, v);
    }
  }

  lemma {:induction false} PartsMembers(s: seq<Region>, v: int)
    ensures forall r :: r in Below(s, v) <==> r in s && r.start < v
    ensures forall r :: r in From(s, v) <==> r in s && r.start >= v
  {
    if s != [] {
      var init, last := s[..|s| - 1], s[|s| - 1];
      assert s == init + [last];
      PartsMembers(init, v);
    }
  }

  lemma {:induction false} AllFrom(s: seq<Region>, v: int)
    requires forall r :: r in s ==> r.start >= v
    ensures Below(s, v) == [] && From(s, v) == s
  {
    if s != [] {
      var init, last := s[..|s| - 1], s[|s| - 1];
      assert last in s && s == init + [last];
      AllFrom(init, v);
      PartsSnoc(init, last, v);
    }
  }

  lemma {:induction false} AllBelow(s: seq<Region>, v: int)
    requires forall r :: r in s ==> r.start < v
    ensures From(s, v) == []
  {
    if s != [] {
      var init, last := s[..|s| - 1], s[|s| - 1];
      assert last in s && s == init + [last];
      AllBelow(init, v);
      PartsSnoc(init, last, v);
    }
  }

  // ---- Sorting ----

  lemma {:induction false} InsertLeft(s: seq<Region>, t: seq<Region>, key: Region)
    requires forall r :: r in t ==> r.start > key.start
    ensures Insert(s + t, key) == Insert(s, key) + t
    decreases |t|
  {
    if t == [] {
      assert s + t == s;
    } else {
      var init, last := t[..|t| - 1], t[|t| - 1];
      assert last in t && s + t == (s + init) + [last];
      InsertLeft(s, init, key);
      InsertBefore(s + init, last, key);
      assert Insert(s, key) + t == (Insert(s, key) + init) + [last];
    }
  }

  lemma {:induction false} InsertRight(s: seq<Region>, t: seq<Region>, key: Region)
    requires forall r :: r in s ==> r.start <= key.start
    ensures Insert(s + t, key) == s + Insert(t, key)
    decreases |t|
  {
    if t == [] {
      assert s + t == s;
      if s != [] { assert s[|s| - 1] in s; }
    } else {
      var init, last := t[..|t| - 1], t[|t| - 1];
      assert t == init + [last] && s + t == (s + init) + [last];
      if last.start > key.start {
        InsertRight(s, init, key);
        InsertBefore(s + init, last, key);
        InsertBefore(init, last, key);
        assert s + (Insert(init, key) + [last]) == (s + Insert(init, key)) + [last];
      } else {
        assert (s + t) + [key] == s + (t + [key]);
      }
    }
  }

  lemma {:induction false} SortSplits(s: seq<Region>, v: int)
    ensures SortByStart(s) == SortByStart(Below(s, v)) + SortByStart(From(s, v))
  {
    if s == [] {
      assert SortByStart([]) == [];
    } else {
      var init, r := s[..|s| - 1], s[|s| - 1];
      var low, high := Below(init, v), From(init, v);
      assert s == init + [r];
      SortSplits(init, v);
      PartsSnoc(init, r, v);
      PartsMembers(init, v);
      SortSameElements(low);
      SortSameElements(high);
      SortSnoc(init, r);
      if r.start < v {
        SortSnoc(low, r);
        InsertLeft(SortByStart(low), SortByStart(high), r);
      } else {
        SortSnoc(high, r);
        InsertRight(SortByStart(low), SortByStart(high), r);
      }
    }
  }

  // ---- Merging ----

  lemma {:induction false} CoalesceSnoc(s: seq<Region>, r: Region)
    ensures Coalesce(s + [r]) == MergeInto(Coalesce(s), r)
  {
    assert (s + [r])[..|s|] == s;
  }

  lemma {:induction false} MergeIntoRight(out: seq<Region>, t: seq<Region>, r: Region)
    requires t != [] || out == [] || !r.SameClass(out[|out| - 1])
    ensures MergeInto(out + t, r) == out + MergeInto(t, r)
  {
    if t == [] {
      assert out + t == out;
    } else {
      var init, last := t[..|t| - 1], t[|t| - 1];
      assert t == init + [last] && out + t == (out + init) + [last];
      assert (out + t)[..|out + t| - 1] == out + init;
    }
  }

  lemma {:induction false} CoalesceLast(s: seq<Region>, t: seq<Region>)
    requires t != []
    ensures Coalesce(s + t) == MergeInto(Coalesce(s + t[..|t| - 1]), t[|t| - 1])
  {
    assert s + t == (s + t[..|t| - 1]) + [t[|t| - 1]];
    CoalesceSnoc(s + t[..|t| - 1], t[|t| - 1]);
  }

  // Where the classes differ at the seam nothing merges across it.
  lemma {:induction false} CoalesceApart(s: seq<Region>, t: seq<Region>)
    requires t != [] && (Coalesce(s) != [] ==> !t[0].SameClass(Coalesce(s)[|Coalesce(s)| - 1]))
    ensures Coalesce(s + t) == Coalesce(s) + Coalesce(t)
    decreases |t|
  {
    var init := t[..|t| - 1];
    CoalesceLast(s, t);
    if init == [] {
      assert s + init == s && Coalesce(init) == [];
      assert Coalesce(s) + Coalesce(init) == Coalesce(s);
    } else {
      assert init[0] == t[0];
      CoalesceApart(s, init);
      CoalesceLength(init);
    }
    MergeIntoRight(Coalesce(s), Coalesce(init), t[|t| - 1]);
  }

  lemma {:induction false} CoalesceDevices(s: seq<Region>)
    requires forall r :: r in s ==> IsDevice(r)
    ensures forall r :: r in Coalesce(s) ==> IsDevice(r)
  {
    if s != [] {
      var init, last := s[..|s| - 1], s[|s| - 1];
      assert last in s && s == init + [last];
      CoalesceDevices(init);
      var out := Coalesce(init);
      if out != [] { assert out[|out| - 1] in out; }
    }
  }

  // ---- The reserved table ----

  // The device regions that start below v, merged.
  function LowTable(p: Platform, v: int): seq<Region>
    requires p.WellFormed()
  {
    Coalesce(SortByStart(Below(MmioCandidates(p), v)))
  }

  // When firm memory starts at v or above, and first, the table is the low
  // devices, and then all the rest.
  lemma {:induction false} MergeSplits(firm: seq<Region>, mmio: seq<Region>, v: int,
                                             low: seq<Region>, high: seq<Region>)
    requires forall r :: r in firm ==> r.start >= v
    requires low == SortByStart(Below(mmio, v)) && high == SortByStart(firm + From(mmio, v))
    requires high != [] && (Coalesce(low) != [] ==> !high[0].SameClass(Coalesce(low)[|Coalesce(low)| - 1]))
    ensures Merge(firm + mmio) == Coalesce(low) + Coalesce(high)
  {
    PartsConcat(firm, mmio, v);
    AllFrom(firm, v);
    SortSplits(firm + mmio, v);
    assert [] + Below(mmio, v) == Below(mmio, v);
    CoalesceApart(low, high);
  }

  lemma {:induction false} ClassesDiffer(low: seq<Region>, r: Region)
    requires (forall x :: x in low ==> IsDevice(x)) && !IsDevice(r)
    ensures low != [] ==> !r.SameClass(low[|low| - 1])
  {
    if low != [] { assert low[|low| - 1] in low; }
  }

  lemma {:induction false} TableSplits(p: Platform, v: int, high: seq<Region>)
    requires p.WellFormed() && forall r :: r in FirmCandidates(p) ==> r.start >= v
    requires high == SortByStart(FirmCandidates(p) + From(MmioCandidates(p), v))
    requires high != [] && !IsDevice(high[0])
    ensures ReservedTable(p) == LowTable(p, v) + Coalesce(high)
  {
    LowDevices(p, v);
    ListsSplit(FirmCandidates(p), MmioCandidates(p), v, SortByStart(Below(MmioCandidates(p), v)), high);
  }

  lemma {:induction false} ListsSplit(firm: seq<Region>, mmio: seq<Region>, v: int, low: seq<Region>, high: seq<Region>)
    requires forall r :: r in firm ==> r.start >= v
    requires low == SortByStart(Below(mmio, v)) && high == SortByStart(firm + From(mmio, v))
    requires high != [] && !IsDevice(high[0]) && forall r :: r in Coalesce(low) ==> IsDevice(r)
    ensures Merge(firm + mmio) == Coalesce(low) + Coalesce(high)
  {
    ClassesDiffer(Coalesce(low), high[0]);
    MergeSplits(firm, mmio, v, low, high);
  }

  lemma {:induction false} LowDevices(p: Platform, v: int)
    requires p.WellFormed()
    ensures forall r :: r in LowTable(p, v) ==> IsDevice(r)
  {
    CandidatesAreWhole(p);
    PartsMembers(MmioCandidates(p), v);
    SortSameElements(Below(MmioCandidates(p), v));
    CoalesceDevices(SortByStart(Below(MmioCandidates(p), v)));
  }

  // ---- Counting ----

  lemma {:induction false} CountConcat(s: seq<Region>, t: seq<Region>, ram: seq<Span>)
    ensures Count(s + t, ram) == Count(s, ram) + Count(t, ram)
  {
    if t == [] {
      assert s + t == s && Count(t, ram) == 0;
    } else {
      var init, last := t[..|t| - 1], t[|t| - 1];
      assert t == init + [last] && s + t == (s + init) + [last];
      CountConcat(s, init, ram);
      CountSnoc(s + init, last, ram);
      CountSnoc(init, last, ram);
    }
  }

  // Devices that hold no RAM meet none.
  lemma {:induction false} NoneCounted(low: seq<Region>, ram: seq<Span>)
    requires forall r :: r in low ==> IsDevice(r)
    requires forall k, a :: 0 <= k < |low| && In(a, low[k].Extent()) ==> !Covered(a, ram)
    ensures Count(low, ram) == 0
  {
    FirmCountAtMost(low);
    ClipBound(low, ram);
    assert 0 * |ram| == 0;
  }

  lemma {:induction false} LowOutsideRam(p: Platform, low: seq<Region>, high: seq<Region>, k: nat, a: int)
    requires p.WellFormed() && ReservedTable(p) == low + high
    requires k < |low| && IsDevice(low[k]) && In(a, low[k].Extent())
    ensures !Covered(a, Spans(RamTable(p)))
  {
    assert ReservedTable(p)[k] == low[k];
    DeviceEntryOutsideRam(p, k, a);
  }

  lemma {:induction false} LowCountsNothing(p: Platform, low: seq<Region>, high: seq<Region>, ram: seq<Span>)
    requires p.WellFormed() && ReservedTable(p) == low + high && ram == Spans(RamTable(p))
    requires forall r :: r in low ==> IsDevice(r)
    ensures Count(low, ram) == 0
  {
    forall k, a | 0 <= k < |low| && In(a, low[k].Extent()) ensures !Covered(a, ram) {
      assert low[k] in low;
      LowOutsideRam(p, low, high, k, a);
    }
    NoneCounted(low, ram);
  }

  // A scan that passes over low and stops after k entries of high.
  lemma {:induction false} ScanStopsAfter(low: seq<Region>, high: seq<Region>, ram: seq<Span>, k: nat)
    requires Count(low, ram) == 0 && 0 < k <= |high| && Count(high[..k - 1], ram) < MAX_RANGES
    requires k == |high| || Count(high[..k], ram) >= MAX_RANGES
    ensures Scanned(Spans(low + high), ram) == Spans(low + high[..k])
    ensures ScanFits(Spans(low + high), ram) <==> Count(high[..k], ram) <= MAX_RANGES
  {
    var table := low + high;
    VisitsAfter(low, high, ram, k - 1);
    if k < |high| { VisitsAfter(low, high, ram, k); }
    assert table[..|low| + k] == low + high[..k];
    SpansPrefix(table, |low| + k);
    CountConcat(low, high[..k], ram);
  }

  lemma {:induction false} VisitsAfter(low: seq<Region>, high: seq<Region>, ram: seq<Span>, k: nat)
    requires Count(low, ram) == 0 && k < |high|
    ensures |low| + k < ScanEnd(Spans(low + high), ram, 0) <==> Count(high[..k], ram) < MAX_RANGES
  {
    var table := low + high;
    VisitsEntry(table, ram, |low| + k);
    ConcatPrefix(low, high, k);
    CountConcat(low, high[..k], ram);
  }

  lemma {:induction false} ConcatPrefix(low: seq<Region>, high: seq<Region>, k: nat)
    requires k <= |high|
    ensures (low + high)[..|low| + k] == low + high[..k]
  {
  }

  lemma {:induction false} VisitsEntry(table: seq<Region>, ram: seq<Span>, n: nat)
    requires n < |table|
    ensures n < ScanEnd(Spans(table), ram, 0) <==> Count(table[..n], ram) < MAX_RANGES
  {
    SpansPrefix(table, n);
    VisitsExactly(Spans(table), ram, 0, n);
  }
}
