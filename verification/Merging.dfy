// What merging means: the address set of every flag class is kept, the result
// is sorted with gaps inside a class, and a list of one class becomes the
// canonical list of its address set.
module Merging {
  import opened Intervals
  import opened Regions

  // Neighbours either differ in flags or leave a gap.
  predicate Settled(s: seq<Region>) {
    forall i :: 0 <= i < |s| - 1 ==> !s[i].SameClass(s[i + 1]) || s[i].end < s[i + 1].start
  }

  lemma {:induction false} MergeIntoKeepsClasses(out: seq<Region>, r: Region)
    requires out != [] ==> out[|out| - 1].start <= r.start
    ensures SameClassSets(MergeInto(out, r), out + [r])
  {
    if out != [] {
      var init, last := out[..|out| - 1], out[|out| - 1];
      assert out == init + [last];
      var m := MergeInto(out, r);
      if r.start <= last.end && r.SameClass(last) {
        var grown := m[|m| - 1];
        assert m == init + [grown];
        forall a, pte, protect
          ensures CoveredAs(a, m, pte, protect) <==> CoveredAs(a, out + [r], pte, protect)
        {
          assert In(a, grown.Extent()) <==> In(a, last.Extent()) || In(a, r.Extent());
          assert grown in m && last in out + [r] && r in out + [r];
          assert forall x :: x in init ==> x in m && x in out + [r];
        }
      }
    }
  }

  lemma {:induction false} ClassSetsSnoc(s: seq<Region>, t: seq<Region>, r: Region)
    requires SameClassSets(s, t)
    ensures SameClassSets(s + [r], t + [r])
  {
    forall a, pte, protect
      ensures CoveredAs(a, s + [r], pte, protect) <==> CoveredAs(a, t + [r], pte, protect)
    {
      assert forall u: seq<Region> :: CoveredAs(a, u + [r], pte, protect) <==>
        (CoveredAs(a, u, pte, protect) || CoveredAs(a, [r], pte, protect)) by {
        forall u: seq<Region>
          ensures CoveredAs(a, u + [r], pte, protect) <==>
            (CoveredAs(a, u, pte, protect) || CoveredAs(a, [r], pte, protect))
        {
          assert forall x :: x in u + [r] <==> x in u || x in [r];
        }
      }
    }
  }

  lemma {:induction false} CoalesceShape(s: seq<Region>)
    requires SortedByStart(s)
    ensures SortedByStart(Coalesce(s)) && Settled(Coalesce(s))
    ensures s != [] ==> Coalesce(s) != [] && Coalesce(s)[|Coalesce(s)| - 1].start <= s[|s| - 1].start
  {
    if s != [] {
      var init, r := s[..|s| - 1], s[|s| - 1];
      CoalesceShape(init);
      if init == [] {
        assert Coalesce(init) == [];
      } else {
        assert init[|init| - 1] == s[|s| - 2];
      }
      MergeIntoSettles(Coalesce(init), r);
    }
  }

  lemma {:induction false} MergeIntoSettles(out: seq<Region>, r: Region)
    requires SortedByStart(out) && Settled(out)
    requires out != [] ==> out[|out| - 1].start <= r.start
    ensures var m := MergeInto(out, r);
      SortedByStart(m) && Settled(m) && m != [] && m[|m| - 1].start <= r.start
  {
    if out != [] {
      var m := MergeInto(out, r);
      MergeIntoShape(out, r);
      forall i | 0 <= i < |m| - 1 ensures !m[i].SameClass(m[i + 1]) || m[i].end < m[i + 1].start {
        assert i < |out| - 1 ==> !out[i].SameClass(out[i + 1]) || out[i].end < out[i + 1].start;
      }
    }
  }

  lemma {:induction false} CoalesceKeepsClasses(s: seq<Region>)
    requires SortedByStart(s)
    ensures SameClassSets(Coalesce(s), s)
  {
    if s != [] {
      var init, r := s[..|s| - 1], s[|s| - 1];
      assert s == init + [r];
      CoalesceKeepsClasses(init);
      CoalesceShape(init);
      if init == [] {
        assert Coalesce(init) == [];
      } else {
        assert init[|init| - 1] == s[|s| - 2];
      }
      MergeIntoKeepsClasses(Coalesce(init), r);
      ClassSetsSnoc(Coalesce(init), init, r);
    }
  }

  lemma {:induction false} CoalesceKeepsWholePages(s: seq<Region>)
    requires SortedByStart(s) && WholePages(s)
    ensures WholePages(Coalesce(s))
  {
    if s != [] {
      var init, r := s[..|s| - 1], s[|s| - 1];
      CoalesceKeepsWholePages(init);
      var out := Coalesce(init);
      if out != [] {
        assert out[|out| - 1].Whole() && r.Whole();
      }
    }
  }

  lemma {:induction false} SortSameElements(s: seq<Region>)
    ensures forall r :: r in SortByStart(s) <==> r in s
  {
    SortSorts(s);
    assert forall r :: r in SortByStart(s) <==> r in multiset(SortByStart(s));
  }

  // For each pair of flags the covered addresses are the same before and after
  // a merge; the result is sorted by start and settled.
  lemma {:induction false} MergeKeepsClasses(s: seq<Region>)
    ensures SameClassSets(Merge(s), s)
    ensures SortedByStart(Merge(s)) && Settled(Merge(s))
    ensures WholePages(s) ==> WholePages(Merge(s))
    ensures |Merge(s)| <= |s|
  {
    var t := SortByStart(s);
    SortSorts(s);
    SortSameElements(s);
    SortLength(s);
    CoalesceLength(t);
    CoalesceShape(t);
    CoalesceKeepsClasses(t);
    if WholePages(s) { CoalesceKeepsWholePages(t); }
  }

  lemma {:induction false} CoveredByRegions(a: int, s: seq<Region>)
    ensures Covered(a, Spans(s)) <==> exists r :: r in s && In(a, r.Extent())
  {
    if r :| r in s && In(a, r.Extent()) {
      var i :| 0 <= i < |s| && s[i] == r;
      assert In(a, Spans(s)[i]);
    }
  }

  lemma {:induction false} SameClassesSameSet(s: seq<Region>, t: seq<Region>)
    requires SameClassSets(s, t)
    ensures SameSet(Spans(s), Spans(t))
  {
    forall a ensures Covered(a, Spans(s)) <==> Covered(a, Spans(t)) {
      CoveredByRegions(a, s);
      CoveredByRegions(a, t);
      if r :| r in s && In(a, r.Extent()) { assert CoveredAs(a, s, r.pte, r.protect); }
      if r :| r in t && In(a, r.Extent()) { assert CoveredAs(a, t, r.pte, r.protect); }
    }
  }

  lemma {:induction false} WholePagesSpans(s: seq<Region>)
    requires WholePages(s)
    ensures NonEmpty(Spans(s)) && AllAligned(Spans(s))
  {
    forall i | 0 <= i < |s| ensures s[i].Whole() {
      assert s[i] in s;
    }
  }

  lemma {:induction false} UniformKept(s: seq<Region>)
    requires WholePages(s) && Uniform(s)
    ensures Uniform(Merge(s))
    ensures forall i, k :: 0 <= i < |Merge(s)| && 0 <= k < |s| ==> Merge(s)[i].SameClass(s[k])
  {
    var m := Merge(s);
    MergeKeepsClasses(s);
    forall i, k | 0 <= i < |m| && 0 <= k < |s| ensures m[i].SameClass(s[k]) {
      assert m[i] in m && m[i].Whole();
      assert CoveredAs(m[i].start, m, m[i].pte, m[i].protect);
      assert CoveredAs(m[i].start, s, m[i].pte, m[i].protect);
      var r :| r in s && r.SameClass(m[i]);
    }
    if s == [] { assert m == []; }
  }

  lemma {:induction false} UniformSettledIsSeparated(s: seq<Region>)
    requires WholePages(s) && Uniform(s) && SortedByStart(s) && Settled(s)
    ensures Separated(Spans(s))
  {
    WholePagesSpans(s);
    forall i, j | 0 <= i < j < |s| ensures Spans(s)[i].end < Spans(s)[j].start {
      assert s[i].SameClass(s[i + 1]);
      assert s[i + 1].start <= s[j].start;
    }
  }

  // A list of one flag class merges to the canonical list of its address set.
  lemma {:induction false} MergeIsCanonical(s: seq<Region>)
    requires WholePages(s) && Uniform(s)
    ensures Separated(Spans(Merge(s))) && SameSet(Spans(Merge(s)), Spans(s))
    ensures WholePages(Merge(s)) && Uniform(Merge(s))
  {
    MergeKeepsClasses(s);
    UniformKept(s);
    UniformSettledIsSeparated(Merge(s));
    SameClassesSameSet(Merge(s), s);
  }

  // So neither the order of the entries nor how they split the set matters.
  lemma {:induction false} MergeOrderIndependent(s: seq<Region>, t: seq<Region>)
    requires WholePages(s) && Uniform(s) && WholePages(t) && Uniform(t)
    requires SameSet(Spans(s), Spans(t))
    ensures Spans(Merge(s)) == Spans(Merge(t))
  {
    MergeIsCanonical(s);
    MergeIsCanonical(t);
    CanonicalUnique(Spans(Merge(s)), Spans(Merge(t)));
  }

  lemma {:induction false} CoalesceFixesSettled(s: seq<Region>)
    requires Settled(s)
    ensures Coalesce(s) == s
  {
    if s != [] {
      var init, r := s[..|s| - 1], s[|s| - 1];
      assert s == init + [r];
      assert Settled(init);
      CoalesceFixesSettled(init);
      if init != [] {
        assert init[|init| - 1] == s[|s| - 2];
        assert !s[|s| - 2].SameClass(s[|s| - 1]) || s[|s| - 2].end < r.start;
      }
    }
  }

  lemma {:induction false} MergeFixesSettled(s: seq<Region>)
    requires SortedByStart(s) && Settled(s)
    ensures Merge(s) == s
  {
    SortFixesSorted(s);
    CoalesceFixesSettled(s);
  }

  lemma {:induction false} MergeIdempotent(s: seq<Region>)
    ensures Merge(Merge(s)) == Merge(s)
  {
    MergeKeepsClasses(s);
    MergeFixesSettled(Merge(s));
  }
}
