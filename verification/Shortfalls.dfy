// Platforms on which the map misses what its documentation promises: lemmas about
// every platform with the given lists, and one the kernel boots on for each. The
// build returns 0 on all of them.
module Shortfalls {
  import opened Machine
  import opened Intervals
  import opened Regions
  import opened DeviceTree
  import opened RegDecoder
  import opened MapSpec
  import opened DeviceCount
  import opened Exclusion
  import opened ListedRanges
  import opened Boards

  // ---- Platforms with given lists ----

  ghost predicate HasLists(p: Platform, ram: seq<Addr>, listed: seq<Addr>, blob: Addr, kernel: Span) {
    && p.WellFormed() && ExpectedStatus(p) == Ok
    && MemoryRanges(p.fdt) == Got(ram) && ReservedList(p) == listed
    && p.fdt.value.address == blob.base && p.fdt.value.totalSize == blob.size > 0
    && p.kernelStart == kernel.start && p.kernelImageEnd == kernel.end
    && ram != [] && p.memBase == ram[0].base
  }

  lemma {:induction false} KeptExactly(p: Platform, ram: seq<Addr>, listed: seq<Addr>, blob: Addr, kernel: Span, x: int)
    requires HasLists(p, ram, listed, blob, kernel)
    ensures Covered(x, FreeSpans(p)) <==>
      && (exists a :: a in ram && Keeps(a, x)) && !KernelKeeps(p, x) && !Keeps(blob, x)
      && !exists a :: a in listed && Keeps(a, x)
  {
    FreeExactly(p, x);
  }

  // Few ranges leave the count defined, and the totals agree.
  lemma {:induction false} FewLists(p: Platform, ram: seq<Addr>, listed: seq<Addr>, blob: Addr, kernel: Span)
    requires HasLists(p, ram, listed, blob, kernel) && |ram| <= 2 && |listed| <= 8
    ensures WithDevices(p).Stored? && WithDevices(p).ok
  {
    assert |FirmCandidates(p)| <= 11 && |RamCandidates(p)| <= 2;
    ProductGrows(|FirmCandidates(p)|, |RamCandidates(p)|, 11, 2);
    FewEntriesFit(p);
  }

  lemma {:induction false} RunKept(from: nat, to: nat, x: int)
    requires from <= to <= 1024
    ensures Keeps(RunAddr(from, to), x) <==> In(x, Run(from, to))
    ensures Lists(RunAddr(from, to), x) <==> In(x, Run(from, to))
  {
  }

  lemma {:induction false} RunKernelKept(p: Platform, base: nat, from: nat, to: nat, x: int)
    requires base <= from < to <= 1024
    requires p.memBase == Run(base, to).start
    requires p.kernelStart == Run(from, to).start && p.kernelImageEnd == Run(from, to).end
    ensures KernelKeeps(p, x) <==> In(x, Run(base, to))
    ensures FirstFreeFrame(p) == Run(base, to).end && KernelUpright(p)
  {
  }

  // Boards with at most 31 memory nodes and 31 children of /reserved-memory.
  lemma {:induction false} BoardLists(b: Board, ram: seq<Addr>, listed: seq<Addr>)
    requires b.Valid() && |b.memory| <= 31 && |b.reserved| <= 31 && |b.others| <= 1
    requires Joined(b.memory) == ram && |ram| <= MAX_RAM && Joined(b.reserved) == listed && |listed| <= MAX_RAM
    requires ram != [] && ram[0] == b.memory[0][0]
    ensures HasLists(PlatformOf(b), ram, listed, b.blob, b.kernel)
    ensures ReservedRanges(PlatformOf(b).fdt) == Got(listed)
  {
    var p := PlatformOf(b);
    BoardRanges(b);
    assert Firsts(listed) == listed;
    DevicesFit(TreeOf(b), Spans(RamTable(p)));
    StatusIsOk(p, ram, listed);
  }

  lemma {:induction false} StatusIsOk(p: Platform, ram: seq<Addr>, listed: seq<Addr>)
    requires p.WellFormed() && MemoryRanges(p.fdt) == Got(ram) && |ram| <= MAX_RAM
    requires ReservedRanges(p.fdt) == Got(listed)
    requires |MmioCandidates(p)| + MAX_RAM + 3 <= WORKSPACE
    ensures ExpectedStatus(p) == Ok
  {
  }

  lemma {:induction false} BoardBoots(b: Board, ram: seq<Addr>)
    requires b.Valid() && Joined(b.memory) == ram
    requires InMemory(PlatformOf(b), ram, b.blob.base, b.blob.base + b.blob.size)
    ensures Booted(PlatformOf(b))
  {
    BoardRanges(b);
    BoardHasCpu(b);
    BoardHasTimer(b);
    BoardHasConsole(b);
  }

  // The image that docs and linker script give: 18 pages from 0x80200000 on.
  function Image(): Span { Run(512, 530) }

  // ---- A reserved range that is free ----

  function NineRanges(): (r: seq<Addr>)
    ensures |r| == 9
  {
    seq(9, i requires 0 <= i < 9 => RunAddr(600 + 2 * i, 601 + 2 * i))
  }

  // One RAM range with kernel and tree, and a child of /reserved-memory with nine
  // ranges.
  ghost predicate NineListed(p: Platform, child: nat) {
    && HasLists(p, [RunAddr(0, 1024)], NineRanges()[..8], RunAddr(540, 541), Image())
    && p.fdt.value.reservedMemory.Got? && child < |p.fdt.value.nodes|
    && child in Children(p.fdt.value, p.fdt.value.reservedMemory.value)
    && RegList(p.fdt.value, child) == Got(NineRanges())
  }

  lemma {:induction false} EightRangesMiss(page: nat)
    requires page == 530 || page == 616
    ensures !exists a :: a in NineRanges()[..8] && Keeps(a, Run(page, page + 1).start)
  {
    forall a | a in NineRanges()[..8] ensures !Keeps(a, Run(page, page + 1).start) {
      var i :| 0 <= i < 8 && NineRanges()[i] == a;
      RunKept(600 + 2 * i, 601 + 2 * i, Run(page, page + 1).start);
    }
  }

  lemma {:induction false} NinePage(p: Platform, page: nat)
    requires HasLists(p, [RunAddr(0, 1024)], NineRanges()[..8], RunAddr(540, 541), Image())
    requires page == 530 || page == 616
    ensures Covered(Run(page, page + 1).start, FreeSpans(p))
  {
    var x, ram := Run(page, page + 1).start, [RunAddr(0, 1024)];
    KeptExactly(p, ram, NineRanges()[..8], RunAddr(540, 541), Image(), x);
    RunKept(0, 1024, x);
    RunKept(540, 541, x);
    RunKernelKept(p, 0, 512, 530, x);
    EightRangesMiss(page);
    assert ram[0] in ram;
  }

  lemma {:induction false} FrameAfterImage(p: Platform)
    requires p.memBase == Run(0, 1).start && p.kernelStart == Image().start && p.kernelImageEnd == Image().end
    ensures FirstFreeFrame(p) == Run(530, 531).start && Linked(p)
  {
    RunKernelKept(p, 0, 512, 530, 0);
  }

  // The child lists page 616 ninth. The build returns 0 with every check passed,
  // and the page is free.
  lemma {:induction false} NinthRangeIsFree(p: Platform, child: nat)
    requires NineListed(p, child)
    ensures RegList(p.fdt.value, child).value[8] == RunAddr(616, 617)
    ensures Covered(Run(616, 617).start, FreeSpans(p))
    ensures WithDevices(p).Stored? && WithDevices(p).ok && Covered(FirstFreeFrame(p), FreeSpans(p)) && Linked(p)
  {
    NinePage(p, 616);
    NinePage(p, 530);
    FrameAfterImage(p);
    FewLists(p, [RunAddr(0, 1024)], NineRanges()[..8], RunAddr(540, 541), Image());
  }

  function NineBoard(): (b: Board)
    ensures b.Valid()
  {
    Board([[RunAddr(0, 1024)]], [NineRanges()], [], RunAddr(540, 541), Image())
  }

  lemma {:induction false} NineBoardLists(b: Board)
    requires b == NineBoard()
    ensures HasLists(PlatformOf(b), [RunAddr(0, 1024)], NineRanges()[..8], RunAddr(540, 541), Image())
    ensures Joined(b.memory) == [RunAddr(0, 1024)]
  {
    OneList([RunAddr(0, 1024)]);
    OneList(NineRanges());
    BoardLists(b, [RunAddr(0, 1024)], NineRanges()[..8]);
  }

  lemma {:induction false} NineBoardChild(b: Board)
    requires b == NineBoard()
    ensures var t := TreeOf(b); t.reservedMemory == Got(2) && 3 in Children(t, 2) && RegList(t, 3) == Got(NineRanges())
  {
    TreeReads(b);
    assert KindOf(TreeOf(b), b, 3) && RangesOf(TreeOf(b), b, 3);
  }

  lemma {:induction false} RunListed(list: seq<Addr>, i: nat, from: nat, to: nat, lo: int, hi: int)
    requires i < |list| && from <= to <= 1024 && list[i] == RunAddr(from, to)
    requires Run(from, to).start <= lo && hi <= Run(from, to).end
    ensures AllListed(list, lo, hi)
  {
    forall x | lo <= x < hi ensures Listed(list, x) {
      assert list[i] in list && Lists(list[i], x);
    }
  }

  lemma {:induction false} NineBoots(b: Board)
    requires b == NineBoard()
    ensures NineListed(PlatformOf(b), 3) && Booted(PlatformOf(b))
  {
    var list := [RunAddr(0, 1024)];
    NineBoardLists(b);
    NineBoardChild(b);
    RunListed(list, 0, 0, 1024, Run(512, 530).start, Run(512, 530).end);
    RunListed(list, 0, 0, 1024, Run(540, 541).start, Run(540, 541).end);
    BoardBoots(b, list);
  }

  // ---- A kernel in the last page ----

  const TOP: int := U64_LIMIT - PAGE

  // RAM up to the last byte but one, in two ranges of which the second is dropped
  // when it is rounded.
  function TopRam(): seq<Addr> { [Addr(TOP - 3 * PAGE, 3 * PAGE), Addr(TOP, PAGE - 1)] }

  ghost predicate TopListed(p: Platform) {
    HasLists(p, TopRam(), [], Addr(TOP - 3 * PAGE, PAGE), Span(TOP - PAGE, U64_MAX))
  }

  lemma {:induction false} TopKept(p: Platform, x: int)
    requires p.memBase == TOP - 3 * PAGE && x == p.kernelStart == TOP - PAGE && p.kernelImageEnd == U64_MAX
    ensures !KernelKeeps(p, x) && Keeps(Addr(TOP - 3 * PAGE, 3 * PAGE), x) && !Keeps(Addr(TOP - 3 * PAGE, PAGE), x)
  {
  }

  // A kernel linked for the last two pages: its reservation wraps away, and its
  // first page is free memory.
  lemma {:induction false} KernelCanBeFree(p: Platform)
    requires TopListed(p)
    ensures Covered(p.kernelStart, FreeSpans(p)) && !Linked(p) && p.kernelImageEnd > U64_LIMIT - PAGE
    ensures WithDevices(p).Stored? && WithDevices(p).ok
  {
    KeptExactly(p, TopRam(), [], Addr(TOP - 3 * PAGE, PAGE), Span(TOP - PAGE, U64_MAX), p.kernelStart);
    TopKept(p, p.kernelStart);
    assert TopRam()[0] in TopRam();
    FewLists(p, TopRam(), [], Addr(TOP - 3 * PAGE, PAGE), Span(TOP - PAGE, U64_MAX));
  }

  function TopBoard(): (b: Board)
    ensures b.Valid()
  {
    Board([TopRam()], [], [], Addr(TOP - 3 * PAGE, PAGE), Span(TOP - PAGE, U64_MAX))
  }

  lemma {:induction false} TopBoots(b: Board)
    requires b == TopBoard()
    ensures TopListed(PlatformOf(b)) && Booted(PlatformOf(b))
  {
    var list := TopRam();
    OneList(list);
    assert Joined([]) == [];
    BoardLists(b, list, []);
    forall x | list[0].base <= x < U64_MAX ensures Listed(list, x) {
      assert list[0] in list && list[1] in list && (Lists(list[0], x) || Lists(list[1], x));
    }
    BoardBoots(b, list);
  }

  // ---- Free memory below the kernel ----

  // The first listed RAM range is the upper one; the tree follows the kernel.
  function LowRam(): seq<Addr> { [RunAddr(512, 1024), RunAddr(0, 512)] }

  ghost predicate LowListed(p: Platform) { HasLists(p, LowRam(), [], RunAddr(530, 531), Image()) }

  lemma {:induction false} LowPages(p: Platform)
    requires LowListed(p)
    ensures Covered(Run(0, 1).start, FreeSpans(p)) && !Covered(Run(530, 531).start, FreeSpans(p))
  {
    var x, frame := Run(0, 1).start, Run(530, 531).start;
    KeptExactly(p, LowRam(), [], RunAddr(530, 531), Image(), x);
    KeptExactly(p, LowRam(), [], RunAddr(530, 531), Image(), frame);
    RunKept(0, 512, x);
    RunKept(530, 531, x);
    RunKept(530, 531, frame);
    RunKernelKept(p, 512, 512, 530, x);
    assert LowRam()[1] in LowRam();
  }

  // Free memory does not start at the first free frame, and that frame is not
  // free itself.
  lemma {:induction false} FrameCanBeMisplaced(p: Platform)
    requires LowListed(p)
    ensures Covered(Run(0, 1).start, FreeSpans(p)) && Run(0, 1).start < FirstFreeFrame(p)
    ensures !Covered(FirstFreeFrame(p), FreeSpans(p))
    ensures WithDevices(p).Stored? && WithDevices(p).ok && Linked(p) && KernelUpright(p)
  {
    LowPages(p);
    RunKernelKept(p, 512, 512, 530, 0);
    FewLists(p, LowRam(), [], RunAddr(530, 531), Image());
  }

  function LowBoard(): (b: Board)
    ensures b.Valid()
  {
    Board([LowRam()], [], [], RunAddr(530, 531), Image())
  }

  lemma {:induction false} LowBoots(b: Board)
    requires b == LowBoard()
    ensures LowListed(PlatformOf(b)) && Booted(PlatformOf(b))
  {
    var list := LowRam();
    OneList(list);
    assert Joined([]) == [];
    BoardLists(b, list, []);
    RunListed(list, 0, 512, 1024, Run(512, 530).start, Run(512, 530).end);
    RunListed(list, 0, 512, 1024, Run(530, 531).start, Run(530, 531).end);
    BoardBoots(b, list);
  }
}
