// Guarantees about particular memory: the kernel and what lies below it, the
// first free frame, and independence of how the inputs are listed.
module Exclusion {
  import opened Machine
  import opened Intervals
  import opened Regions
  import opened Merging
  import opened Subtraction
  import opened MapSpec
  import opened MapTheorems
  import opened DeviceMemory

  // The end of the kernel image, rounded up where that is possible: in the last
  // page of the address space the first free frame wraps to 0.
  function KernelTop(p: Platform): int { Max(p.kernelImageEnd, FirstFreeFrame(p)) }

  // The kernel and boot reservations cover everything from the memory base to
  // the end of the image.
  ghost predicate KernelCovered(p: Platform) {
    forall a :: p.memBase <= a < KernelTop(p) ==> Covered(a, Spans(KernelCandidates(p)))
  }

  lemma {:induction false} CoveredByRounded(a: int, start: u64, end: u64, pte: u8, protect: u16, source: Source)
    ensures Covered(a, Spans(Rounded(start, end, pte, protect, source))) <==>
      AlignDown(start) <= a < AlignUp(end)
  {
    var s := Spans(Rounded(start, end, pte, protect, source));
    if AlignDown(start) <= a < AlignUp(end) { assert In(a, s[0]); }
  }

  lemma {:induction false} KernelCoverage(a: int, p: Platform)
    ensures Covered(a, Spans(KernelCandidates(p))) <==>
      (AlignDown(p.kernelStart) <= a < AlignUp(p.kernelImageEnd)) ||
      (AlignDown(p.memBase) <= a < AlignUp(p.kernelStart))
  {
    var kernel := Rounded(p.kernelStart, p.kernelImageEnd, MM_RWX, FLAG_KERNEL + FLAG_RESERVED, Literal("kernel"));
    var boot := Rounded(p.memBase, p.kernelStart, MM_R, FLAG_BOOT + FLAG_RESERVED, Literal("boot-reserved"));
    SpansConcat(kernel, boot);
    CoveredConcat(a, Spans(kernel), Spans(boot));
    CoveredByRounded(a, p.kernelStart, p.kernelImageEnd, MM_RWX, FLAG_KERNEL + FLAG_RESERVED, Literal("kernel"));
    CoveredByRounded(a, p.memBase, p.kernelStart, MM_R, FLAG_BOOT + FLAG_RESERVED, Literal("boot-reserved"));
  }

  // The kernel neither starts nor ends in the last page of the address space.
  predicate KernelBelowTop(p: Platform) {
    p.kernelStart <= U64_LIMIT - PAGE && p.kernelImageEnd <= U64_LIMIT - PAGE
  }

  // They do exactly then, or when there is nothing to cover.
  lemma {:induction false} KernelCoveredExactly(p: Platform)
    ensures KernelCovered(p) <==> KernelBelowTop(p) || KernelTop(p) <= p.memBase
  {
    AlignUpIsCeilingOrWraps(p.kernelImageEnd, 0);
    AlignUpIsCeilingOrWraps(p.kernelStart, 0);
    AlignDownIsFloor(p.kernelStart, 0);
    AlignDownIsFloor(p.memBase, 0);
    if KernelBelowTop(p) {
      forall a | p.memBase <= a < KernelTop(p) ensures Covered(a, Spans(KernelCandidates(p))) {
        KernelCoverage(a, p);
        AlignUpIsCeilingOrWraps(p.kernelImageEnd, AlignUp(p.kernelStart));
      }
    } else if KernelTop(p) > p.memBase {
      KernelUncovered(p);
    }
  }

  // The address left open: the base itself, or the last one of the image.
  lemma {:induction false} KernelUncovered(p: Platform)
    requires !KernelBelowTop(p) && KernelTop(p) > p.memBase
    ensures !KernelCovered(p)
  {
    AlignUpIsCeilingOrWraps(p.kernelImageEnd, U64_LIMIT - PAGE);
    AlignUpIsCeilingOrWraps(p.kernelStart, U64_LIMIT - PAGE);
    AlignDownIsFloor(p.kernelStart, U64_LIMIT - PAGE);
    if p.kernelImageEnd > U64_LIMIT - PAGE {
      KernelCoverage(p.kernelImageEnd - 1, p);
    } else {
      KernelCoverage(p.memBase, p);
    }
  }

  // The image itself, wherever the memory base is.
  ghost predicate ImageCovered(p: Platform) {
    forall a :: p.kernelStart <= a < p.kernelImageEnd ==> Covered(a, Spans(KernelCandidates(p)))
  }

  // It is covered exactly when it does not end in the last page of the address
  // space, or is empty.
  lemma {:induction false} ImageCoveredExactly(p: Platform)
    ensures ImageCovered(p) <==> p.kernelImageEnd <= U64_LIMIT - PAGE || p.kernelImageEnd <= p.kernelStart
  {
    AlignDownIsFloor(p.kernelStart, 0);
    AlignUpIsCeilingOrWraps(p.kernelImageEnd, 0);
    if p.kernelImageEnd <= U64_LIMIT - PAGE {
      forall a | p.kernelStart <= a < p.kernelImageEnd ensures Covered(a, Spans(KernelCandidates(p))) {
        KernelCoverage(a, p);
      }
    } else if p.kernelStart < p.kernelImageEnd {
      AlignUpIsCeilingOrWraps(p.kernelStart, U64_LIMIT - PAGE);
      KernelCoverage(p.kernelImageEnd - 1, p);
    }
  }

  lemma {:induction false} ImageNeverFree(p: Platform, a: int)
    requires p.WellFormed() && p.kernelImageEnd <= U64_LIMIT - PAGE
    requires p.kernelStart <= a < p.kernelImageEnd
    ensures !Covered(a, FreeSpans(p))
  {
    ImageCoveredExactly(p);
    KernelReserved(p, a);
  }

  // Where kernel/linker.ld puts the image, with its stack. The medany code model
  // that the makefile selects keeps it within 2 GiB.
  const LINK_ADDRESS: int := 0x8020_0000
  const STACK_SIZE: int := 0x4000
  const IMAGE_LIMIT: int := 0x8000_0000

  predicate Linked(p: Platform) {
    p.kernelStart == LINK_ADDRESS && STACK_SIZE <= p.kernelImageEnd - p.kernelStart <= IMAGE_LIMIT
  }

  // The kernel as it is linked is never free, on any platform.
  lemma {:induction false} LinkedKernelNeverFree(p: Platform, a: int)
    requires p.WellFormed() && Linked(p) && p.kernelStart <= a < p.kernelImageEnd
    ensures !Covered(a, FreeSpans(p))
  {
    ImageNeverFree(p, a);
  }

  lemma {:induction false} KernelReserved(p: Platform, a: int)
    requires p.WellFormed() && Covered(a, Spans(KernelCandidates(p)))
    ensures !Covered(a, FreeSpans(p))
  {
    FreeIsRamMinusReserved(p);
    CoveredPrefix(a, KernelCandidates(p), BlobCandidates(p));
    CoveredPrefix(a, KernelCandidates(p) + BlobCandidates(p),
                  RoundedAll(ReservedList(p), MM_R, FLAG_RESERVED, Literal("dtb-reserved")));
    CoveredPrefix(a, FirmCandidates(p), MmioCandidates(p));
  }

  // No free address lies between the memory base and the end of the image,
  // whatever else is reserved.
  lemma {:induction false} KernelNeverFree(p: Platform, a: int)
    requires p.WellFormed() && KernelBelowTop(p)
    requires p.memBase <= a < KernelTop(p)
    ensures !Covered(a, FreeSpans(p))
  {
    KernelCoveredExactly(p);
    KernelReserved(p, a);
  }

  lemma {:induction false} CoveredPrefix(a: int, s: seq<Region>, t: seq<Region>)
    requires Covered(a, Spans(s))
    ensures Covered(a, Spans(s + t))
  {
    SpansConcat(s, t);
    CoveredConcat(a, Spans(s), Spans(t));
  }

  // RAM listed in another order or split differently, and other reservations
  // for the same addresses of RAM, give the same RAM and free lists; the device
  // nodes do not matter at all.
  lemma {:induction false} ListingsDoNotMatter(p: Platform, q: Platform)
    requires p.WellFormed() && q.WellFormed()
    requires SameSet(Spans(RamCandidates(p)), Spans(RamCandidates(q)))
    requires forall a :: Covered(a, Spans(RamCandidates(p))) ==>
      (Covered(a, Spans(FirmCandidates(p))) <==> Covered(a, Spans(FirmCandidates(q))))
    ensures Spans(RamTable(p)) == Spans(RamTable(q))
    ensures FreeSpans(p) == FreeSpans(q)
  {
    MergeOrderIndependent(RamCandidates(p), RamCandidates(q));
    RamTableShape(p);
    RamTableShape(q);
    ReservedTableShape(p);
    ReservedTableShape(q);
    var ram := Spans(RamTable(p));
    forall a | Covered(a, ram)
      ensures Covered(a, Spans(ReservedTable(p))) <==> Covered(a, Spans(ReservedTable(q)))
    {
      assert Covered(a, Spans(RamCandidates(p)));
      ReservedInRamIsFirm(p, a);
      ReservedInRamIsFirm(q, a);
    }
    SubtractDependsOnSetsOnly(ram, Spans(ReservedTable(p)), ram, Spans(ReservedTable(q)));
  }
}
