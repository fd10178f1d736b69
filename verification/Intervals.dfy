// Half-open address ranges, the set of addresses a list of them covers, its
// canonical form, and the number of pages in it.
module Intervals {
  import opened Machine

  datatype Span = Span(start: u64, end: u64)

  predicate In(a: int, x: Span) { x.start <= a < x.end }

  ghost predicate Covered(a: int, s: seq<Span>) {
    exists i :: 0 <= i < |s| && In(a, s[i])
  }

  ghost predicate SameSet(s: seq<Span>, t: seq<Span>) {
    forall a :: Covered(a, s) <==> Covered(a, t)
  }

  predicate NonEmpty(s: seq<Span>) { forall i :: 0 <= i < |s| ==> s[i].start < s[i].end }

  predicate AllAligned(s: seq<Span>) {
    forall i :: 0 <= i < |s| ==> Aligned(s[i].start) && Aligned(s[i].end)
  }

  predicate Sorted(s: seq<Span>) {
    forall i, j :: 0 <= i < j < |s| ==> s[i].start <= s[j].start
  }

  predicate PairwiseDisjoint(s: seq<Span>) {
    forall i, j :: 0 <= i < j < |s| ==> s[i].end <= s[j].start || s[j].end <= s[i].start
  }

  predicate Overlap(x: Span, y: Span) { x.start < y.end && y.start < x.end }

  predicate OverlapsAny(x: Span, s: seq<Span>) { exists i :: 0 <= i < |s| && Overlap(x, s[i]) }

  // The canonical form: non-empty ranges in ascending order with a gap between
  // any two of them.
  predicate Separated(s: seq<Span>) {
    && NonEmpty(s)
    && (forall i, j :: 0 <= i < j < |s| ==> s[i].end < s[j].start)
  }

  lemma {:induction false} CoveredConcat(a: int, s: seq<Span>, t: seq<Span>)
    ensures Covered(a, s + t) <==> Covered(a, s) || Covered(a, t)
  {
    var c := s + t;
    if i :| 0 <= i < |s| && In(a, s[i]) { assert In(a, c[i]); }
    if i :| 0 <= i < |t| && In(a, t[i]) { assert In(a, c[|s| + i]); }
  }

  lemma {:induction false} CoveredOne(a: int, x: Span)
    ensures Covered(a, [x]) <==> In(a, x)
  {
    if In(a, x) { assert In(a, [x][0]); }
  }

  // ---- Canonical form ----

  // What is left of the set once the first range of a canonical list is gone.
  lemma {:induction false} CoveredTail(a: int, s: seq<Span>)
    requires Separated(s) && s != []
    ensures Covered(a, s[1..]) <==> Covered(a, s) && s[0].end <= a
  {
    assert s == [s[0]] + s[1..];
    CoveredConcat(a, [s[0]], s[1..]);
    CoveredOne(a, s[0]);
    assert forall i :: 0 <= i < |s[1..]| ==> s[1..][i] == s[i + 1];
  }

  lemma {:induction false} FirstSpanAtMost(s: seq<Span>, t: seq<Span>)
    requires Separated(s) && Separated(t) && SameSet(s, t) && s != []
    ensures t != [] && t[0].start <= s[0].start
  {
    assert In(s[0].start, s[0]);
    assert Covered(s[0].start, t);
  }

  lemma {:induction false} FirstSpanEndsBy(s: seq<Span>, t: seq<Span>)
    requires Separated(s) && Separated(t) && SameSet(s, t) && s != [] && t != []
    requires s[0].start == t[0].start
    ensures t[0].end <= s[0].end
  {
    assert In(s[0].end, t[0]) <==> s[0].end < t[0].end;
    assert !Covered(s[0].end, s);
  }

  // An address set has at most one canonical list.
  lemma {:induction false} CanonicalUnique(s: seq<Span>, t: seq<Span>)
    requires Separated(s) && Separated(t) && SameSet(s, t)
    ensures s == t
  {
    if s == [] {
      if t != [] { FirstSpanAtMost(t, s); }
    } else {
      FirstSpanAtMost(s, t);
      FirstSpanAtMost(t, s);
      FirstSpanEndsBy(s, t);
      FirstSpanEndsBy(t, s);
      forall a ensures Covered(a, s[1..]) <==> Covered(a, t[1..]) {
        CoveredTail(a, s);
        CoveredTail(a, t);
      }
      CanonicalUnique(s[1..], t[1..]);
      assert s == [s[0]] + s[1..] && t == [t[0]] + t[1..];
    }
  }

  // ---- Fusing a sorted list ----

  function FuseInto(out: seq<Span>, x: Span): seq<Span> {
    if out == [] then [x]
    else
      var last := out[|out| - 1];
      if x.start <= last.end then out[..|out| - 1] + [Span(last.start, Max(last.end, x.end))]
      else out + [x]
  }

  // One pass from the left that extends the last range while the next one
  // touches it.
  function Fuse(s: seq<Span>): (r: seq<Span>)
    ensures |r| <= |s| && (s != [] ==> r != [])
  {
    if s == [] then [] else FuseInto(Fuse(s[..|s| - 1]), s[|s| - 1])
  }

  lemma {:induction false} FuseIntoMeaning(out: seq<Span>, x: Span)
    requires Separated(out) && x.start < x.end
    requires out != [] ==> out[|out| - 1].start <= x.start
    ensures var r := FuseInto(out, x);
      Separated(r) && r != [] && r[|r| - 1].start <= x.start
    ensures SameSet(FuseInto(out, x), out + [x])
  {
    var r := FuseInto(out, x);
    forall a ensures Covered(a, r) <==> Covered(a, out + [x]) {
      CoveredConcat(a, out, [x]);
      CoveredOne(a, x);
      if out != [] {
        var last := out[|out| - 1];
        assert out == out[..|out| - 1] + [last];
        CoveredConcat(a, out[..|out| - 1], [last]);
        CoveredOne(a, last);
        if x.start <= last.end {
          CoveredConcat(a, out[..|out| - 1], [Span(last.start, Max(last.end, x.end))]);
          CoveredOne(a, Span(last.start, Max(last.end, x.end)));
        }
      }
    }
  }

  lemma {:induction false} SameSetSnoc(s: seq<Span>, t: seq<Span>, x: Span)
    requires SameSet(s, t)
    ensures SameSet(s + [x], t + [x])
  {
    forall a ensures Covered(a, s + [x]) <==> Covered(a, t + [x]) {
      CoveredConcat(a, s, [x]);
      CoveredConcat(a, t, [x]);
    }
  }

  // The canonical list of the set of a sorted list, ending no later than it.
  ghost predicate Canonical(out: seq<Span>, s: seq<Span>) {
    && Separated(out) && SameSet(out, s) && (out == [] <==> s == [])
    && (s != [] ==> out[|out| - 1].start <= s[|s| - 1].start)
  }

  // One step of the pass.
  lemma {:induction false} FuseTurn(out: seq<Span>, init: seq<Span>, x: Span)
    requires Canonical(out, init) && x.start < x.end
    requires init != [] ==> init[|init| - 1].start <= x.start
    ensures Canonical(FuseInto(out, x), init + [x])
  {
    FuseIntoMeaning(out, x);
    SameSetSnoc(out, init, x);
  }

  lemma {:induction false} SortedInit(init: seq<Span>, x: Span)
    requires Sorted(init + [x]) && NonEmpty(init + [x])
    ensures Sorted(init) && NonEmpty(init) && x.start < x.end
    ensures init != [] ==> init[|init| - 1].start <= x.start
  {
    var s := init + [x];
    assert forall i :: 0 <= i < |init| ==> init[i] == s[i];
    assert s[|init|] == x;
  }

  lemma {:induction false} FuseSnoc(init: seq<Span>, x: Span)
    ensures Fuse(init + [x]) == FuseInto(Fuse(init), x)
  {
    assert (init + [x])[..|init|] == init;
  }

  lemma {:induction false} FuseOneMore(init: seq<Span>, x: Span)
    requires Canonical(Fuse(init), init) && x.start < x.end
    requires init != [] ==> init[|init| - 1].start <= x.start
    ensures Canonical(Fuse(init + [x]), init + [x])
  {
    FuseSnoc(init, x);
    FuseTurn(Fuse(init), init, x);
  }

  // On a sorted list the pass yields the canonical list of the same set.
  lemma {:induction false} FuseIsCanonical(s: seq<Span>)
    requires Sorted(s) && NonEmpty(s)
    ensures Canonical(Fuse(s), s)
  {
    if s != [] {
      var init, x := s[..|s| - 1], s[|s| - 1];
      assert s == init + [x];
      SortedInit(init, x);
      FuseIsCanonical(init);
      FuseOneMore(init, x);
    } else {
      assert Fuse(s) == [];
    }
  }

  lemma {:induction false} FuseKeepsAlignment(s: seq<Span>)
    requires AllAligned(s)
    ensures AllAligned(Fuse(s))
  {
    if s != [] {
      FuseKeepsAlignment(s[..|s| - 1]);
    }
  }

  // ---- Pages ----

  function PageCount(x: Span): u64 {
    if x.end > x.start then (x.end - x.start) / PAGE else 0
  }

  // Page counts with multiplicity: a page in two ranges counts twice.
  function SumPages(s: seq<Span>): int {
    if s == [] then 0 else SumPages(s[..|s| - 1]) + PageCount(s[|s| - 1])
  }

  ghost function Pages(s: seq<Span>): set<int> {
    set p | 0 <= p < PAGE_COUNT && Covered(p * PAGE, s)
  }

  // The page numbers from lo up to hi.
  ghost function PageRange(lo: int, hi: int): (r: set<int>)
    requires lo <= hi
    ensures forall p :: p in r <==> lo <= p < hi
    ensures |r| == hi - lo
    decreases hi - lo
  {
    if lo == hi then {} else PageRange(lo, hi - 1) + {hi - 1}
  }

  lemma {:induction false} PagesOfOne(x: Span)
    requires Aligned(x.start) && Aligned(x.end) && x.start < x.end
    ensures Pages([x]) == PageRange(x.start / PAGE, x.end / PAGE)
    ensures |Pages([x])| == PageCount(x)
  {
    forall p ensures p in Pages([x]) <==> p in PageRange(x.start / PAGE, x.end / PAGE) {
      CoveredOne(p * PAGE, x);
    }
  }

  lemma {:induction false} PagesConcat(s: seq<Span>, t: seq<Span>)
    ensures Pages(s + t) == Pages(s) + Pages(t)
  {
    forall p ensures p in Pages(s + t) <==> p in Pages(s) + Pages(t) {
      CoveredConcat(p * PAGE, s, t);
    }
  }

  lemma {:induction false} SetSizes(a: set<int>, b: set<int>)
    ensures |a + b| + |a * b| == |a| + |b|
    ensures |a| == |a * b| + |a - b|
  {
    assert a == (a * b) + (a - b);
    assert (a * b) !! (a - b);
    assert a + b == b + (a - b);
  }

  // Two aligned ranges share a page unless one ends before the other starts.
  lemma {:induction false} SharedPage(s: seq<Span>, x: Span)
    requires AllAligned(s) && NonEmpty(s)
    requires Aligned(x.start) && Aligned(x.end) && x.start < x.end
    ensures Pages(s) * Pages([x]) == {} <==>
      forall i :: 0 <= i < |s| ==> s[i].end <= x.start || x.end <= s[i].start
  {
    if i :| 0 <= i < |s| && !(s[i].end <= x.start || x.end <= s[i].start) {
      var p := Max(s[i].start, x.start) / PAGE;
      assert In(p * PAGE, s[i]) && In(p * PAGE, [x][0]);
      assert p in Pages(s) * Pages([x]);
    } else {
      forall p | p in Pages(s) ensures p !in Pages([x]) {
        CoveredOne(p * PAGE, x);
      }
    }
  }

  lemma {:induction false} DisjointSnoc(s: seq<Span>, x: Span)
    ensures PairwiseDisjoint(s + [x]) <==>
      (PairwiseDisjoint(s) && forall i :: 0 <= i < |s| ==> s[i].end <= x.start || x.end <= s[i].start)
  {
    var t := s + [x];
    if PairwiseDisjoint(t) {
      forall i | 0 <= i < |s| ensures s[i].end <= x.start || x.end <= s[i].start {
        assert t[i] == s[i] && t[|s|] == x;
      }
      forall i, j | 0 <= i < j < |s| ensures s[i].end <= s[j].start || s[j].end <= s[i].start {
        assert t[i] == s[i] && t[j] == s[j];
      }
    }
  }

  // Summing range by range counts every page of the set at least once, and
  // exactly once just when the ranges are pairwise disjoint.
  lemma {:induction false} SumCountsDisjointOnce(s: seq<Span>)
    requires AllAligned(s) && NonEmpty(s)
    ensures SumPages(s) >= |Pages(s)|
    ensures SumPages(s) == |Pages(s)| <==> PairwiseDisjoint(s)
  {
    if s == [] {
      assert Pages(s) == {};
    } else {
      var init, x := s[..|s| - 1], s[|s| - 1];
      assert s == init + [x];
      SumCountsDisjointOnce(init);
      PagesConcat(init, [x]);
      PagesOfOne(x);
      SetSizes(Pages(init), Pages([x]));
      SharedPage(init, x);
      assert |Pages(init) * Pages([x])| == 0 <==> Pages(init) * Pages([x]) == {};
      DisjointSnoc(init, x);
    }
  }

  // The sum adds the pages of each range.
  lemma {:induction false} SumAddsPages(s: seq<Span>, x: Span)
    requires Aligned(x.start) && Aligned(x.end) && x.start < x.end
    ensures SumPages([]) == 0 && SumPages(s + [x]) == SumPages(s) + |Pages([x])|
  {
    assert (s + [x])[..|s|] == s;
    PagesOfOne(x);
  }

  lemma {:induction false} SameSetSamePages(s: seq<Span>, t: seq<Span>)
    requires SameSet(s, t)
    ensures Pages(s) == Pages(t)
  {
  }

  lemma {:induction false} SeparatedSum(s: seq<Span>)
    requires Separated(s) && AllAligned(s)
    ensures SumPages(s) == |Pages(s)|
  {
    SumCountsDisjointOnce(s);
  }

  lemma {:induction false} SumPagesBound(s: seq<Span>)
    ensures 0 <= SumPages(s) <= |s| * PAGE_COUNT
  {
    if s != [] {
      SumPagesBound(s[..|s| - 1]);
    }
  }
}
