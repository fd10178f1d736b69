// The region tables of kernel/memory_map.c: adding a rounded region, insertion
// sort by start address, and the in-place merge that respects flag classes.
module Regions {
  import opened Machine
  import opened Intervals

  // Page-table permissions and protection flags (kernel/memory_map.h).
  const MM_R: u8 := 0x02
  const MM_RW: u8 := 0x06
  const MM_RWX: u8 := 0x0E
  const FLAG_ALLOCATABLE: u16 := 0x01
  const FLAG_RESERVED: u16 := 0x02
  const FLAG_KERNEL: u16 := 0x04
  const FLAG_BOOT: u16 := 0x08
  const FLAG_MMIO: u16 := 0x10
  const FLAG_DTB: u16 := 0x20

  // A region's source is a C string compared by address: a string literal of
  // memory_map.c, or the "compatible" property of a device tree node.
  datatype Source = Literal(text: string) | Compatible(node: nat)

  const MERGED: Source := Literal("merged")

  datatype Region = Region(start: u64, end: u64, pte: u8, protect: u16, source: Source) {
    function Extent(): Span { Span(start, end) }

    // A non-empty run of whole pages, as every table entry is.
    predicate Whole() { start < end && Aligned(start) && Aligned(end) }

    predicate SameClass(r: Region) { pte == r.pte && protect == r.protect }
  }

  datatype Status = Ok | BadValue | DtbRam | DtbReserved | DtbDeviceScan | RegionCap

  function Spans(s: seq<Region>): (r: seq<Span>)
    ensures |r| == |s|
    ensures forall i :: 0 <= i < |s| ==> r[i] == s[i].Extent()
  {
    seq(|s|, i requires 0 <= i < |s| => s[i].Extent())
  }

  predicate WholePages(s: seq<Region>) { forall r :: r in s ==> r.Whole() }

  predicate Uniform(s: seq<Region>) {
    forall i, j :: 0 <= i < |s| && 0 <= j < |s| ==> s[i].SameClass(s[j])
  }

  // Address a lies in a region of the class (pte, protect).
  ghost predicate CoveredAs(a: int, s: seq<Region>, pte: u8, protect: u16) {
    exists r :: r in s && r.pte == pte && r.protect == protect && In(a, r.Extent())
  }

  ghost predicate SameClassSets(s: seq<Region>, t: seq<Region>) {
    forall a, pte, protect :: CoveredAs(a, s, pte, protect) <==> CoveredAs(a, t, pte, protect)
  }

  // ---- Adding a region ----

  // Outward rounding to pages; a range that comes out empty adds nothing.
  function Rounded(start: u64, end: u64, pte: u8, protect: u16, source: Source): (r: seq<Region>)
    ensures |r| <= 1 && WholePages(r)
  {
    var lo, hi := AlignDown(start), AlignUp(end);
    if hi <= lo then [] else [Region(lo, hi, pte, protect, source)]
  }

  method RegionAdd(arr: array<Region>, count: nat, start: u64, end: u64,
                   pte: u8, protect: u16, source: Source) returns (err: Status, n: nat)
    requires count <= arr.Length
    modifies arr
    ensures var add := Rounded(start, end, pte, protect, source);
      if count + |add| <= arr.Length then
        err == Ok && n == count + |add| && arr[..n] == old(arr[..count]) + add
      else
        err == (if arr.Length == 0 then BadValue else RegionCap) && n == count
    ensures err != Ok ==> arr[..] == old(arr[..])
    ensures forall k :: n <= k < arr.Length ==> arr[k] == old(arr[k])
  {
    err, n := Ok, count;
    var lo := AlignDown(start);
    var hi := AlignUp(end);
    if hi <= lo {
      return;
    }
    if arr.Length == 0 {
      return BadValue, count;
    }
    if count >= arr.Length {
      return RegionCap, count;
    }
    arr[count] := Region(lo, hi, pte, protect, source);
    n := count + 1;
  }

  // A table of capacity cap that was to receive target: all of it, or an error
  // and as much of it as fits.
  ghost predicate Stored(table: seq<Region>, target: seq<Region>, cap: nat, err: Status) {
    if |target| <= cap then err == Ok && table == target
    else err == RegionCap && table == target[..cap]
  }

  // ---- Insertion sort ----

  // Insert key behind every entry whose start is not larger, from the right.
  function Insert(s: seq<Region>, key: Region): seq<Region> {
    if s == [] || s[|s| - 1].start <= key.start then s + [key]
    else Insert(s[..|s| - 1], key) + [s[|s| - 1]]
  }

  function SortByStart(s: seq<Region>): seq<Region> {
    if s == [] then [] else Insert(SortByStart(s[..|s| - 1]), s[|s| - 1])
  }

  lemma {:induction false} InsertLength(s: seq<Region>, key: Region)
    ensures |Insert(s, key)| == |s| + 1
  {
    if s != [] { InsertLength(s[..|s| - 1], key); }
  }

  lemma {:induction false} SortLength(s: seq<Region>)
    ensures |SortByStart(s)| == |s|
  {
    if s != [] {
      SortLength(s[..|s| - 1]);
      InsertLength(SortByStart(s[..|s| - 1]), s[|s| - 1]);
    }
  }

  lemma {:induction false} InsertBefore(s: seq<Region>, last: Region, key: Region)
    requires last.start > key.start
    ensures Insert(s + [last], key) == Insert(s, key) + [last]
  {
    assert (s + [last])[..|s|] == s;
  }

  // The key lands between the entries it does not precede and those it does.
  lemma {:induction false} InsertBetween(s: seq<Region>, t: seq<Region>, key: Region)
    requires s == [] || s[|s| - 1].start <= key.start
    requires forall k :: 0 <= k < |t| ==> t[k].start > key.start
    ensures Insert(s + t, key) == s + [key] + t
    decreases |t|
  {
    if t == [] {
      assert s + t == s && s + [key] + t == s + [key];
    } else {
      var init, last := t[..|t| - 1], t[|t| - 1];
      InsertBetween(s, init, key);
      InsertBefore(s + init, last, key);
      assert s + t == (s + init) + [last] && s + [key] + t == (s + [key] + init) + [last];
    }
  }

  lemma {:induction false} InsertPlace(s: seq<Region>, key: Region, at: nat)
    requires at <= |s|
    requires at > 0 ==> s[at - 1].start <= key.start
    requires forall k :: at <= k < |s| ==> s[k].start > key.start
    ensures Insert(s, key) == s[..at] + [key] + s[at..]
  {
    InsertBetween(s[..at], s[at..], key);
    assert s == s[..at] + s[at..];
  }

  // The inner loop of the sort: shift larger entries right, then drop the key.
  method InsertAt(arr: array<Region>, i: nat) returns (ghost at: nat)
    requires i < arr.Length
    modifies arr
    ensures at <= i
    ensures at > 0 ==> old(arr[at - 1]).start <= old(arr[i]).start
    ensures forall k :: at <= k < i ==> old(arr[k]).start > old(arr[i]).start
    ensures forall k :: 0 <= k < at ==> arr[k] == old(arr[k])
    ensures arr[at] == old(arr[i])
    ensures forall k :: at < k <= i ==> arr[k] == old(arr[k - 1])
    ensures forall k :: i < k < arr.Length ==> arr[k] == old(arr[k])
  {
    var key := arr[i];
    var j := i - 1;
    while j >= 0 && arr[j].start > key.start
      invariant -1 <= j < i
      invariant forall k :: 0 <= k <= j ==> arr[k] == old(arr[k])
      invariant forall k :: j + 2 <= k <= i ==> arr[k] == old(arr[k - 1])
      invariant forall k :: j < k < i ==> old(arr[k]).start > key.start
      invariant forall k :: i < k < arr.Length ==> arr[k] == old(arr[k])
    {
      arr[j + 1] := arr[j];
      j := j - 1;
    }
    arr[j + 1] := key;
    at := j + 1;
  }

  method InsertNext(arr: array<Region>, i: nat)
    requires i < arr.Length
    modifies arr
    ensures arr[..i + 1] == Insert(old(arr[..i]), old(arr[i]))
    ensures forall k :: i < k < arr.Length ==> arr[k] == old(arr[k])
  {
    ghost var s, key := arr[..i], arr[i];
    ghost var at := InsertAt(arr, i);
    InsertPlace(s, key, at);
    assert arr[..i + 1] == s[..at] + [key] + s[at..];
  }

  ghost function SortTo(s: seq<Region>, i: nat): seq<Region>
    requires i <= |s|
  {
    SortByStart(s[..i])
  }

  lemma {:induction false} SortTurn(s: seq<Region>, i: nat)
    requires i < |s|
    ensures SortTo(s, i + 1) == Insert(SortTo(s, i), s[i])
    ensures i == 0 ==> SortTo(s, 1) == [s[0]]
    ensures i + 1 == |s| ==> SortTo(s, i + 1) == SortByStart(s)
  {
    assert s[..i + 1][..i] == s[..i];
    if i + 1 == |s| { assert s[..i + 1] == s; }
  }

  method SortRegions(arr: array<Region>, count: nat)
    requires count <= arr.Length
    modifies arr
    ensures arr[..count] == SortByStart(old(arr[..count]))
    ensures forall k :: count <= k < arr.Length ==> arr[k] == old(arr[k])
  {
    ghost var s := arr[..count];
    if count > 0 { SortTurn(s, 0); }
    var i := 1;
    while i < count
      invariant 1 <= i && (i <= count || i == 1)
      invariant count > 0 ==> arr[..i] == SortTo(s, i)
      invariant forall k :: i <= k < arr.Length ==> arr[k] == old(arr[k])
      invariant i == count ==> SortTo(s, i) == SortByStart(s)
      invariant count == 0 ==> forall k :: 0 <= k < arr.Length ==> arr[k] == old(arr[k])
    {
      SortTurn(s, i);
      InsertNext(arr, i);
      i := i + 1;
    }
  }

  predicate SortedByStart(s: seq<Region>) {
    forall i, j :: 0 <= i < j < |s| ==> s[i].start <= s[j].start
  }

  lemma {:induction false} InsertElements(s: seq<Region>, key: Region)
    ensures multiset(Insert(s, key)) == multiset(s) + multiset{key}
  {
    if s != [] && s[|s| - 1].start > key.start {
      var init, last := s[..|s| - 1], s[|s| - 1];
      assert s == init + [last];
      InsertElements(init, key);
    }
  }

  // How many entries at the front do not start after v.
  function StartsUpTo(s: seq<Region>, v: int): (at: nat)
    requires SortedByStart(s)
    ensures at <= |s| && (forall k :: 0 <= k < at ==> s[k].start <= v) && (forall k :: at <= k < |s| ==> s[k].start > v)
  {
    if s == [] || s[|s| - 1].start <= v then |s| else StartsUpTo(s[..|s| - 1], v)
  }

  lemma {:induction false} InsertSorted(s: seq<Region>, key: Region)
    requires SortedByStart(s)
    ensures SortedByStart(Insert(s, key))
  {
    var at := StartsUpTo(s, key.start);
    InsertPlace(s, key, at);
    SortedAround(s[..at], key, s[at..]);
  }

  lemma {:induction false} SortedAround(s: seq<Region>, key: Region, t: seq<Region>)
    requires SortedByStart(s) && SortedByStart(t)
    requires forall k :: 0 <= k < |s| ==> s[k].start <= key.start
    requires forall k :: 0 <= k < |t| ==> key.start <= t[k].start
    ensures SortedByStart(s + [key] + t)
  {
  }

  lemma {:induction false} SortSorts(s: seq<Region>)
    ensures SortedByStart(SortByStart(s))
    ensures multiset(SortByStart(s)) == multiset(s)
  {
    if s != [] {
      var init, last := s[..|s| - 1], s[|s| - 1];
      assert s == init + [last];
      SortSorts(init);
      InsertSorted(SortByStart(init), last);
      InsertElements(SortByStart(init), last);
    }
  }

  // The entries with start v, in list order.
  function StartingAt(s: seq<Region>, v: int): seq<Region> {
    if s == [] then []
    else StartingAt(s[..|s| - 1], v) + if s[|s| - 1].start == v then [s[|s| - 1]] else []
  }

  lemma {:induction false} StartingSnoc(s: seq<Region>, r: Region, v: int)
    ensures StartingAt(s + [r], v) == StartingAt(s, v) + if r.start == v then [r] else []
  {
    assert (s + [r])[..|s|] == s;
  }

  lemma {:induction false} InsertStable(s: seq<Region>, key: Region, v: int)
    ensures StartingAt(Insert(s, key), v) == StartingAt(s, v) + if key.start == v then [key] else []
  {
    if s == [] || s[|s| - 1].start <= key.start {
      StartingSnoc(s, key, v);
    } else {
      var init, last := s[..|s| - 1], s[|s| - 1];
      InsertStable(init, key, v);
      StartingSnoc(Insert(init, key), last, v);
      // Only one of the two can start at v.
      if key.start != v { assert StartingAt(init, v) + [] == StartingAt(init, v); }
    }
  }

  // Entries with equal start keep their relative order.
  lemma {:induction false} SortStable(s: seq<Region>, v: int)
    ensures StartingAt(SortByStart(s), v) == StartingAt(s, v)
  {
    if s != [] {
      var init, last := s[..|s| - 1], s[|s| - 1];
      SortStable(init, v);
      InsertStable(SortByStart(init), last, v);
      StartingSnoc(SortByStart(init), last, v);
    }
  }

  lemma {:induction false} SortFixesSorted(s: seq<Region>)
    requires SortedByStart(s)
    ensures SortByStart(s) == s
  {
    if s != [] {
      var init, last := s[..|s| - 1], s[|s| - 1];
      assert s == init + [last];
      SortFixesSorted(init);
    }
  }

  // ---- Merging ----

  // The last output entry takes in a region of its own class that touches it;
  // any other region becomes a new entry.
  function MergeInto(out: seq<Region>, r: Region): seq<Region> {
    if out == [] then [r]
    else
      var last := out[|out| - 1];
      if r.start <= last.end && r.SameClass(last) then
        out[..|out| - 1] + [last.(end := Max(last.end, r.end),
                                  source := if r.source == last.source then last.source else MERGED)]
      else out + [r]
  }

  function Coalesce(s: seq<Region>): seq<Region> {
    if s == [] then [] else MergeInto(Coalesce(s[..|s| - 1]), s[|s| - 1])
  }

  function Merge(s: seq<Region>): seq<Region> { Coalesce(SortByStart(s)) }

  lemma {:induction false} CoalesceLength(s: seq<Region>)
    ensures |Coalesce(s)| <= |s|
    ensures s != [] ==> Coalesce(s) != []
  {
    if s != [] { CoalesceLength(s[..|s| - 1]); }
  }

  // One turn of the merge loop: entry i joins entry out or becomes the next one.
  method MergeStep(arr: array<Region>, out: nat, i: nat, ghost merged: seq<Region>, ghost r: Region)
      returns (next: nat)
    requires out < i < arr.Length && arr[..out + 1] == merged && arr[i] == r
    modifies arr
    ensures next <= i
    ensures arr[..next + 1] == MergeInto(merged, r)
    ensures forall k :: i < k < arr.Length ==> arr[k] == old(arr[k])
  {
    MergeIntoShape(merged, r);
    next := out;
    if arr[i].start <= arr[out].end && arr[i].pte == arr[out].pte && arr[i].protect == arr[out].protect {
      if arr[i].end > arr[out].end {
        arr[out] := arr[out].(end := arr[i].end);
      }
      if arr[i].source != arr[out].source {
        arr[out] := arr[out].(source := MERGED);
      }
      return;
    }
    next := out + 1;
    if next != i {
      arr[next] := arr[i];
    }
  }

  lemma {:induction false} MergeIntoShape(out: seq<Region>, r: Region)
    requires out != []
    ensures var m, o := MergeInto(out, r), |out| - 1;
      && (forall k :: 0 <= k < o ==> m[k] == out[k])
      && if r.start <= out[o].end && r.SameClass(out[o]) then
           && |m| == |out|
           && m[o] == Region(out[o].start, Max(out[o].end, r.end), out[o].pte, out[o].protect,
                             if r.source == out[o].source then out[o].source else MERGED)
         else |m| == |out| + 1 && m[o] == out[o] && m[o + 1] == r
  {
  }

  ghost function CoalesceTo(s: seq<Region>, i: nat): seq<Region>
    requires i <= |s|
  {
    Coalesce(s[..i])
  }

  lemma {:induction false} CoalesceTurn(s: seq<Region>, i: nat)
    requires i < |s|
    ensures CoalesceTo(s, i + 1) == MergeInto(CoalesceTo(s, i), s[i])
  {
    assert s[..i + 1][..i] == s[..i];
  }

  lemma {:induction false} CoalesceEnds(s: seq<Region>)
    requires s != []
    ensures CoalesceTo(s, 1) == [s[0]]
    ensures CoalesceTo(s, |s|) == Coalesce(s)
  {
    CoalesceTurn(s, 0);
    assert CoalesceTo(s, 0) == [];
    assert s[..|s|] == s;
  }

  lemma {:induction false} MergeSmall(s: seq<Region>)
    requires |s| <= 1
    ensures Merge(s) == s
  {
    if |s| == 1 {
      assert s[..0] == [];
      assert SortByStart(s) == s;
      assert Coalesce(s) == s;
    }
  }

  method MergeRegions(arr: array<Region>, count: nat) returns (n: nat)
    requires count <= arr.Length
    modifies arr
    ensures n <= count && arr[..n] == Merge(old(arr[..count]))
    ensures forall k :: count <= k < arr.Length ==> arr[k] == old(arr[k])
  {
    ghost var given := arr[..count];
    if count <= 1 {
      MergeSmall(given);
      return count;
    }
    SortRegions(arr, count);
    n := MergeSorted(arr, count);
  }

  method MergeTurn(arr: array<Region>, out: nat, i: nat, ghost s: seq<Region>) returns (next: nat)
    requires out < i < arr.Length && i < |s| && arr[..out + 1] == CoalesceTo(s, i) && arr[i] == s[i]
    modifies arr
    ensures next <= i && arr[..next + 1] == CoalesceTo(s, i + 1)
    ensures forall k :: i < k < arr.Length ==> arr[k] == old(arr[k])
  {
    CoalesceTurn(s, i);
    next := MergeStep(arr, out, i, CoalesceTo(s, i), s[i]);
  }

  // The merge loop, over the sorted table.
  method MergeSorted(arr: array<Region>, count: nat) returns (n: nat)
    requires 1 <= count <= arr.Length
    modifies arr
    ensures n <= count && arr[..n] == Coalesce(old(arr[..count]))
    ensures forall k :: count <= k < arr.Length ==> arr[k] == old(arr[k])
  {
    ghost var s := arr[..count];
    CoalesceEnds(s);
    var out := 0;
    var i := 1;
    while i < count
      invariant 0 <= out < i <= count
      invariant arr[..out + 1] == CoalesceTo(s, i)
      invariant forall k :: i <= k < count ==> arr[k] == s[k]
      invariant forall k :: count <= k < arr.Length ==> arr[k] == old(arr[k])
    {
      out := MergeTurn(arr, out, i, s);
      i := i + 1;
    }
    n := out + 1;
  }
}
