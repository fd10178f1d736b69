// RAM minus reserved memory: the cursor sweep of mm_stage2_build as a function,
// what it leaves, and how many pieces it can leave.
module Subtraction {
  import opened Machine
  import opened Intervals

  // No reserved range is left, or the next one lies at or behind the end.
  predicate Undisturbed(cursor: u64, end: u64, reserved: seq<Span>) {
    reserved == [] || (reserved[0].end > cursor && reserved[0].start >= end)
  }

  // The pieces the sweep emits for what is left of one RAM range, from cursor to
  // its end, against the reserved ranges still to come.
  function Sweep(cursor: u64, end: u64, reserved: seq<Span>): seq<Span>
    decreases |reserved|
  {
    if Undisturbed(cursor, end, reserved) then
      if cursor < end then [Span(cursor, end)] else []
    else
      var r := reserved[0];
      if r.end <= cursor then Sweep(cursor, end, reserved[1..])
      else
        (if r.start > cursor then [Span(cursor, Min(r.start, end))] else []) +
        (if r.end >= end then [] else Sweep(r.end, end, reserved[1..]))
  }

  function Subtract(ram: seq<Span>, reserved: seq<Span>): seq<Span> {
    if ram == [] then []
    else
      Subtract(ram[..|ram| - 1], reserved) +
      Sweep(ram[|ram| - 1].start, ram[|ram| - 1].end, reserved)
  }

  predicate Within(s: seq<Span>, lo: int, hi: int) {
    forall i :: 0 <= i < |s| ==> lo <= s[i].start && s[i].end <= hi
  }

  lemma {:induction false} SeparatedConcat(s: seq<Span>, t: seq<Span>, lo: int, mid: int, hi: int)
    requires Separated(s) && Separated(t)
    requires Within(s, lo, mid) && Within(t, mid + 1, hi) && lo <= mid + 1 && mid <= hi
    ensures Separated(s + t) && Within(s + t, lo, hi)
  {
  }

  lemma {:induction false} SweepSeparated(cursor: u64, end: u64, reserved: seq<Span>)
    requires Sorted(reserved) && NonEmpty(reserved)
    ensures Separated(Sweep(cursor, end, reserved)) && Within(Sweep(cursor, end, reserved), cursor, end)
    decreases |reserved|
  {
    if Undisturbed(cursor, end, reserved) {
    } else {
      var r := reserved[0];
      if r.end <= cursor {
        SweepSeparated(cursor, end, reserved[1..]);
      } else if r.end < end {
        SweepSeparated(r.end, end, reserved[1..]);
        if r.start > cursor {
          SeparatedConcat([Span(cursor, r.start)], Sweep(r.end, end, reserved[1..]), cursor, r.end - 1, end);
        }
      }
    }
  }

  // An address of the RAM range is in a piece iff no reserved range holds it.
  lemma {:induction false} SweepExact(a: int, cursor: u64, end: u64, reserved: seq<Span>)
    requires Sorted(reserved) && NonEmpty(reserved)
    ensures Covered(a, Sweep(cursor, end, reserved)) <==>
      (cursor <= a < end && !Covered(a, reserved))
    decreases |reserved|
  {
    if Undisturbed(cursor, end, reserved) {
      if cursor < end { CoveredOne(a, Span(cursor, end)); }
    } else {
      var r, rest := reserved[0], reserved[1..];
      assert reserved == [r] + rest;
      CoveredConcat(a, [r], rest);
      CoveredOne(a, r);
      if r.end <= cursor {
        SweepExact(a, cursor, end, rest);
      } else {
        var piece := if r.start > cursor then [Span(cursor, Min(r.start, end))] else [];
        var later := if r.end >= end then [] else Sweep(r.end, end, rest);
        if r.end < end { SweepExact(a, r.end, end, rest); }
        CoveredConcat(a, piece, later);
        if r.start > cursor { CoveredOne(a, Span(cursor, Min(r.start, end))); }
        assert a < r.start ==> !Covered(a, rest);
      }
    }
  }

  lemma {:induction false} SweepAligned(cursor: u64, end: u64, reserved: seq<Span>)
    requires Aligned(cursor) && Aligned(end) && AllAligned(reserved)
    ensures AllAligned(Sweep(cursor, end, reserved))
    decreases |reserved|
  {
    if Undisturbed(cursor, end, reserved) {
    } else if reserved[0].end <= cursor {
      SweepAligned(cursor, end, reserved[1..]);
    } else if reserved[0].end < end {
      SweepAligned(reserved[0].end, end, reserved[1..]);
    }
  }

  lemma {:induction false} SubtractSeparated(ram: seq<Span>, reserved: seq<Span>)
    requires Separated(ram) && Sorted(reserved) && NonEmpty(reserved)
    ensures Separated(Subtract(ram, reserved))
    ensures Within(Subtract(ram, reserved), 0, if ram == [] then 0 else ram[|ram| - 1].end)
  {
    if ram != [] {
      var init, r := ram[..|ram| - 1], ram[|ram| - 1];
      SubtractSeparated(init, reserved);
      SweepSeparated(r.start, r.end, reserved);
      assert Within(Subtract(init, reserved), 0, r.start - 1) by {
        if init != [] { assert init[|init| - 1] == ram[|ram| - 2]; }
      }
      SeparatedConcat(Subtract(init, reserved), Sweep(r.start, r.end, reserved), 0, r.start - 1, r.end);
    }
  }

  lemma {:induction false} SubtractExact(a: int, ram: seq<Span>, reserved: seq<Span>)
    requires Sorted(reserved) && NonEmpty(reserved)
    ensures Covered(a, Subtract(ram, reserved)) <==> Covered(a, ram) && !Covered(a, reserved)
  {
    if ram != [] {
      var init, r := ram[..|ram| - 1], ram[|ram| - 1];
      assert ram == init + [r];
      SubtractExact(a, init, reserved);
      SweepExact(a, r.start, r.end, reserved);
      CoveredConcat(a, Subtract(init, reserved), Sweep(r.start, r.end, reserved));
      CoveredConcat(a, init, [r]);
      CoveredOne(a, r);
    }
  }

  lemma {:induction false} SubtractAligned(ram: seq<Span>, reserved: seq<Span>)
    requires AllAligned(ram) && AllAligned(reserved)
    ensures AllAligned(Subtract(ram, reserved))
  {
    if ram != [] {
      SubtractAligned(ram[..|ram| - 1], reserved);
      SweepAligned(ram[|ram| - 1].start, ram[|ram| - 1].end, reserved);
    }
  }

  // The free list is canonical, made of whole pages, and holds exactly the RAM
  // addresses outside every reserved range, also where reserved ranges overlap.
  lemma {:induction false} SubtractIsDifference(ram: seq<Span>, reserved: seq<Span>)
    requires Separated(ram) && Sorted(reserved) && NonEmpty(reserved)
    ensures Separated(Subtract(ram, reserved))
    ensures forall a :: Covered(a, Subtract(ram, reserved)) <==> Covered(a, ram) && !Covered(a, reserved)
    ensures AllAligned(ram) && AllAligned(reserved) ==> AllAligned(Subtract(ram, reserved))
  {
    SubtractSeparated(ram, reserved);
    forall a ensures Covered(a, Subtract(ram, reserved)) <==> Covered(a, ram) && !Covered(a, reserved) {
      SubtractExact(a, ram, reserved);
    }
    if AllAligned(ram) && AllAligned(reserved) { SubtractAligned(ram, reserved); }
  }

  // Only the address sets matter: any two ways of listing the same RAM and the
  // same reserved memory leave the same free list.
  lemma {:induction false} SubtractDependsOnSetsOnly(ram: seq<Span>, reserved: seq<Span>,
                                                           ram': seq<Span>, reserved': seq<Span>)
    requires Separated(ram) && Sorted(reserved) && NonEmpty(reserved)
    requires Separated(ram') && Sorted(reserved') && NonEmpty(reserved')
    requires SameSet(ram, ram') && forall a :: Covered(a, ram) ==> (Covered(a, reserved) <==> Covered(a, reserved'))
    ensures Subtract(ram, reserved) == Subtract(ram', reserved')
  {
    SubtractIsDifference(ram, reserved);
    SubtractIsDifference(ram', reserved');
    CanonicalUnique(Subtract(ram, reserved), Subtract(ram', reserved'));
  }

  // ---- How many pieces ----

  // Reserved ranges that start strictly inside (lo, hi).
  function StartsWithin(reserved: seq<Span>, lo: int, hi: int): nat {
    if reserved == [] then 0
    else (if lo < reserved[0].start < hi then 1 else 0) + StartsWithin(reserved[1..], lo, hi)
  }

  lemma {:induction false} StartsWithinMonotone(reserved: seq<Span>, lo: int, lo': int, hi: int)
    requires lo <= lo'
    ensures StartsWithin(reserved, lo', hi) <= StartsWithin(reserved, lo, hi)
  {
    if reserved != [] { StartsWithinMonotone(reserved[1..], lo, lo', hi); }
  }

  // Every piece but the last is charged to the reserved range that ended it.
  lemma {:induction false} SweepBound(cursor: u64, end: u64, reserved: seq<Span>)
    requires NonEmpty(reserved)
    ensures |Sweep(cursor, end, reserved)| <= 1 + StartsWithin(reserved, cursor, end)
    decreases |reserved|
  {
    if Undisturbed(cursor, end, reserved) {
    } else if reserved[0].end <= cursor {
      SweepBound(cursor, end, reserved[1..]);
    } else if reserved[0].end < end {
      SweepBound(reserved[0].end, end, reserved[1..]);
      StartsWithinMonotone(reserved[1..], cursor, reserved[0].end, end);
    }
  }

  // Reserved ranges that start strictly inside some RAM range.
  ghost function StartsInside(reserved: seq<Span>, ram: seq<Span>): nat {
    if reserved == [] then 0
    else (if exists i :: 0 <= i < |ram| && ram[i].start < reserved[0].start < ram[i].end then 1 else 0)
         + StartsInside(reserved[1..], ram)
  }

  lemma {:induction false} StartsInsideSnoc(reserved: seq<Span>, ram: seq<Span>, r: Span)
    requires Separated(ram + [r])
    ensures StartsInside(reserved, ram + [r]) == StartsInside(reserved, ram) + StartsWithin(reserved, r.start, r.end)
  {
    if reserved != [] {
      StartsInsideSnoc(reserved[1..], ram, r);
      var all, v := ram + [r], reserved[0].start;
      if r.start < v < r.end {
        assert all[|ram|].start < v < all[|ram|].end;
        forall i | 0 <= i < |ram| ensures !(ram[i].start < v < ram[i].end) {
          assert all[i] == ram[i] && all[|ram|] == r;
        }
      } else if i :| 0 <= i < |ram| && ram[i].start < v < ram[i].end {
        assert all[i].start < v < all[i].end;
      }
    }
  }

  lemma {:induction false} StartsInsideAtMost(reserved: seq<Span>, ram: seq<Span>)
    ensures StartsInside(reserved, ram) <= |reserved|
  {
    if reserved != [] { StartsInsideAtMost(reserved[1..], ram); }
  }

  // One piece per RAM range, and one more per reserved range that starts inside
  // RAM; hence never more than RAM and reserved ranges together.
  lemma {:induction false} SubtractBound(ram: seq<Span>, reserved: seq<Span>)
    requires Separated(ram) && NonEmpty(reserved)
    ensures |Subtract(ram, reserved)| <= |ram| + StartsInside(reserved, ram)
    ensures |Subtract(ram, reserved)| <= |ram| + |reserved|
  {
    if ram != [] {
      var init, r := ram[..|ram| - 1], ram[|ram| - 1];
      assert ram == init + [r];
      SubtractBound(init, reserved);
      SweepBound(r.start, r.end, reserved);
      StartsInsideSnoc(reserved, init, r);
    }
    StartsInsideAtMost(reserved, ram);
  }
}
