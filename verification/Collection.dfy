// The gathering loops of mm_stage2_build: RAM ranges, fixed and reserved-memory
// ranges, and the scan for device memory.
module Collection {
  import opened Machine
  import opened Intervals
  import opened Regions
  import opened DeviceTree
  import opened RegDecoder
  import opened MapSpec
  import opened SelfChecks

  // ---- Collecting ----

  ghost function RoundedTo(list: seq<Addr>, i: nat, pte: u8, protect: u16, source: Source): seq<Region>
    requires i <= |list|
  {
    RoundedAll(list[..i], pte, protect, source)
  }

  lemma {:induction false} RoundedTurn(list: seq<Addr>, i: nat, pte: u8, protect: u16, source: Source)
    requires i < |list|
    ensures RoundedTo(list, i + 1, pte, protect, source) == RoundedTo(list, i, pte, protect, source) +
      Rounded(list[i].base, Add(list[i].base, list[i].size), pte, protect, source)
  {
    assert list[..i + 1][..i] == list[..i];
  }

  lemma {:induction false} RoundedPrefix(list: seq<Addr>, i: nat, pte: u8, protect: u16, source: Source)
    requires i <= |list|
    ensures RoundedTo(list, i, pte, protect, source) <= RoundedAll(list, pte, protect, source)
    ensures i == |list| ==> RoundedTo(list, i, pte, protect, source) == RoundedAll(list, pte, protect, source)
    decreases |list| - i
  {
    if i < |list| {
      RoundedTurn(list, i, pte, protect, source);
      RoundedPrefix(list, i + 1, pte, protect, source);
    } else {
      assert list[..i] == list;
    }
  }

  // Storing the next row of a target whose earlier part is already stored.
  lemma {:induction false} StoredNext(table: seq<Region>, before: seq<Region>, part: seq<Region>,
                                            row: seq<Region>, whole: seq<Region>, cap: nat, err: Regions.Status)
    requires Stored(table, (before + part) + row, cap, err) && part + row <= whole
    ensures err == Ok ==> table == before + (part + row)
    ensures err != Ok ==> Stored(table, before + whole, cap, err)
  {
    assert (before + part) + row == before + (part + row);
    assert before + (part + row) <= before + whole;
  }

  // One turn of such a loop.
  method AddRange(arr: array<Region>, count: nat, a: Addr, pte: u8, protect: u16, source: Source,
                  ghost before: seq<Region>, ghost ranges: seq<Addr>, ghost i: nat)
      returns (err: Regions.Status, total: nat)
    requires count <= arr.Length && 0 < arr.Length && i < |ranges| && ranges[i] == a
    requires arr[..count] == before + RoundedTo(ranges, i, pte, protect, source)
    modifies arr
    ensures total <= arr.Length
    ensures err == Ok ==> arr[..total] == before + RoundedTo(ranges, i + 1, pte, protect, source)
    ensures err != Ok ==> Stored(arr[..total], before + RoundedAll(ranges, pte, protect, source), arr.Length, err)
  {
    err, total := RegionAdd(arr, count, a.base, Add(a.base, a.size), pte, protect, source);
    RoundedTurn(ranges, i, pte, protect, source);
    RoundedPrefix(ranges, i + 1, pte, protect, source);
    StoredNext(arr[..total], before, RoundedTo(ranges, i, pte, protect, source),
               Rounded(a.base, Add(a.base, a.size), pte, protect, source),
               RoundedAll(ranges, pte, protect, source), arr.Length, err);
  }

  // The loops that add decoded ranges to a table.
  method AddRanges(arr: array<Region>, count: nat, list: array<Addr>, n: nat,
                   pte: u8, protect: u16, source: Source) returns (err: Regions.Status, total: nat)
    requires n <= list.Length && count <= arr.Length && 0 < arr.Length
    modifies arr
    ensures total <= arr.Length
    ensures Stored(arr[..total], old(arr[..count]) + RoundedAll(old(list[..n]), pte, protect, source), arr.Length, err)
  {
    ghost var ranges := list[..n];
    ghost var before := arr[..count];
    err, total := Ok, count;
    var i := 0;
    while i < n
      invariant i <= n && total <= arr.Length && err == Ok && list[..n] == ranges
      invariant arr[..total] == before + RoundedTo(ranges, i, pte, protect, source)
    {
      assert list[i] == ranges[i];
      err, total := AddRange(arr, total, list[i], pte, protect, source, before, ranges, i);
      if err != Ok {
        return;
      }
      i := i + 1;
    }
    RoundedPrefix(ranges, n, pte, protect, source);
  }

  method CollectRam(ram: array<Region>, p: Platform) returns (err: Regions.Status, n: nat)
    requires ram.Length == MAX_RAM && p.WellFormed()
    modifies ram
    ensures err == if MemoryRanges(p.fdt).Failed? || |MemoryRanges(p.fdt).value| > MAX_RAM then DtbRam else Ok
    ensures n <= MAX_RAM
    ensures err == Ok ==> ram[..n] == RamTable(p)
  {
    var dtbRam := new Addr[MAX_RAM](_ => Addr(0, 0));
    var code, count := MemoryRegions(p.fdt, dtbRam, 0);
    if code != Success {
      return DtbRam, 0;
    }
    // At most 32 ranges always fit the 32 entries.
    err, n := AddRanges(ram, 0, dtbRam, count, MM_RW, FLAG_ALLOCATABLE, Literal("dtb-memory"));
    assert ram[..n] == RamCandidates(p) by {
      assert dtbRam[..count] == Firsts(MemoryRanges(p.fdt).value);
    }
    n := MergeRegions(ram, n);
    err := Ok;
  }

  method CollectFirm(reserved: array<Region>, p: Platform) returns (err: Regions.Status, n: nat)
    requires reserved.Length == WORKSPACE && p.WellFormed()
    modifies reserved
    ensures err == if ReservedRanges(p.fdt).Failed? && ReservedRanges(p.fdt).error !in {NotFound, NoSpace}
      then DtbReserved else Ok
    ensures n <= WORKSPACE
    ensures err == Ok ==> reserved[..n] == FirmCandidates(p)
  {
    err, n := RegionAdd(reserved, 0, p.kernelStart, p.kernelImageEnd,
                        MM_RWX, FLAG_KERNEL + FLAG_RESERVED, Literal("kernel"));
    err, n := RegionAdd(reserved, n, p.memBase, p.kernelStart,
                        MM_R, FLAG_BOOT + FLAG_RESERVED, Literal("boot-reserved"));
    assert reserved[..n] == KernelCandidates(p);
    if p.fdt.Some? && p.fdt.value.totalSize > 0 {
      var dtbStart := p.fdt.value.address;
      err, n := RegionAdd(reserved, n, dtbStart, Add(dtbStart, p.fdt.value.totalSize),
                          MM_R, FLAG_DTB + FLAG_RESERVED, Literal("dtb"));
    }
    assert reserved[..n] == KernelCandidates(p) + BlobCandidates(p);
    var dtbReserved := new Addr[MAX_RAM](_ => Addr(0, 0));
    var code, count := ReservedMemoryRegions(p.fdt, dtbReserved, 0);
    if code == Success || code == Err(NoSpace) {
      assert dtbReserved[..count] == ReservedList(p);
      // At most 35 entries so far, of 768.
      err, n := AddRanges(reserved, n, dtbReserved, count, MM_R, FLAG_RESERVED, Literal("dtb-reserved"));
    } else if code != Err(NotFound) {
      return DtbReserved, n;
    }
    err := Ok;
  }

  // ---- Device memory ----

  // One range of a device: skipped when empty or in RAM, else added rounded.
  method AddMmio(reserved: array<Region>, count: nat, node: nat, a: Addr, ram: array<Region>, ramCount: nat)
      returns (err: Regions.Status, n: nat)
    requires count <= reserved.Length && 0 < reserved.Length && ramCount <= ram.Length && ram != reserved
    modifies reserved
    ensures n <= reserved.Length
    ensures Stored(reserved[..n], old(reserved[..count]) + MmioEntry(node, a, Spans(old(ram[..ramCount]))),
                   reserved.Length, err)
  {
    if a.size == 0 {
      return Ok, count;
    }
    var end := if a.size > U64_MAX - a.base then U64_MAX else a.base + a.size;
    var overlaps := RegionOverlapsAny(Span(a.base, end), ram, ramCount);
    if overlaps {
      return Ok, count;
    }
    err, n := RegionAdd(reserved, count, a.base, end, MM_RW, FLAG_MMIO, Compatible(node));
  }

  ghost function MmioTo(node: nat, list: seq<Addr>, i: nat, ram: seq<Span>): seq<Region> {
    MmioEntries(node, list[..Min(i, |list|)], ram)
  }

  lemma {:induction false} MmioTurn(node: nat, list: seq<Addr>, i: nat, ram: seq<Span>)
    ensures i < |list| ==> MmioTo(node, list, i + 1, ram) == MmioTo(node, list, i, ram) + MmioEntry(node, list[i], ram)
    ensures i >= |list| ==> MmioTo(node, list, i + 1, ram) == MmioTo(node, list, i, ram)
    ensures i >= |list| ==> MmioTo(node, list, i, ram) == MmioEntries(node, list, ram)
  {
    if i < |list| { assert list[..i + 1][..i] == list[..i]; } else { assert list[..|list|] == list; }
  }

  lemma {:induction false} MmioPrefix(node: nat, list: seq<Addr>, i: nat, ram: seq<Span>)
    ensures MmioTo(node, list, i, ram) <= MmioEntries(node, list, ram)
    decreases if i < |list| then |list| - i else 0
  {
    MmioTurn(node, list, i, ram);
    if i < |list| { MmioPrefix(node, list, i + 1, ram); }
  }

  // One turn of the scan of a node.
  method AddNodeMmio(reserved: array<Region>, count: nat, node: nat, a: Addr, ram: array<Region>, ramCount: nat,
                     ghost before: seq<Region>, ghost list: seq<Addr>, ghost i: nat, ghost ms: seq<Span>)
      returns (err: Regions.Status, n: nat)
    requires count <= reserved.Length && 0 < reserved.Length && ramCount <= ram.Length && ram != reserved
    requires i < |list| && list[i] == a && ms == Spans(ram[..ramCount])
    requires reserved[..count] == before + MmioTo(node, list, i, ms)
    modifies reserved
    ensures n <= reserved.Length
    ensures err == Ok ==> reserved[..n] == before + MmioTo(node, list, i + 1, ms)
    ensures err != Ok ==> Stored(reserved[..n], before + MmioEntries(node, list, ms), reserved.Length, err)
  {
    err, n := AddMmio(reserved, count, node, a, ram, ramCount);
    MmioTurn(node, list, i, ms);
    MmioPrefix(node, list, i + 1, ms);
    StoredNext(reserved[..n], before, MmioTo(node, list, i, ms), MmioEntry(node, a, ms),
               MmioEntries(node, list, ms), reserved.Length, err);
  }

  // The scan of one node reads entry after entry until the decoder reports
  // NotFound, and so visits exactly the bounded list of its ranges.
  method CollectNodeMmio(t: Tree, node: nat, reserved: array<Region>, count: nat, ram: array<Region>, ramCount: nat)
      returns (err: Regions.Status, n: nat)
    requires t.WellFormed() && node < |t.nodes|
    requires count <= reserved.Length && 0 < reserved.Length && ramCount <= ram.Length && ram != reserved
    modifies reserved
    ensures n <= reserved.Length
    ensures Stored(reserved[..n],
                   old(reserved[..count]) + MmioEntries(node, NodeRegs(t, node), Spans(old(ram[..ramCount]))),
                   reserved.Length, err)
  {
    ghost var before, ms, list := reserved[..count], Spans(ram[..ramCount]), NodeRegs(t, node);
    err, n := Ok, count;
    var i := 0;
    while i < MAX_REGS
      invariant 0 <= i <= MAX_REGS && n <= reserved.Length && err == Ok
      invariant reserved[..n] == before + MmioTo(node, list, i, ms)
    {
      MmioTurn(node, list, i, ms);
      var reg := DecodeRegEntry(t, node, i);
      if reg == Failed(NotFound) {
        assert i >= |list|;
        return;
      }
      if reg.Got? {
        assert i < |list| && list[i] == reg.value;
        err, n := AddNodeMmio(reserved, n, node, reg.value, ram, ramCount, before, list, i, ms);
        if err != Ok {
          return;
        }
      }
      i := i + 1;
    }
    MmioTurn(node, list, MAX_REGS, ms);
  }

  ghost function FlattenTo(rows: seq<seq<Region>>, i: nat): seq<Region>
    requires i <= |rows|
  {
    Flatten(rows[..i])
  }

  lemma {:induction false} FlattenTurn(rows: seq<seq<Region>>, i: nat)
    requires i < |rows|
    ensures FlattenTo(rows, i + 1) == FlattenTo(rows, i) + rows[i]
  {
    assert rows[..i + 1][..i] == rows[..i];
  }

  lemma {:induction false} FlattenPrefix(rows: seq<seq<Region>>, i: nat)
    requires i <= |rows|
    ensures FlattenTo(rows, i) <= Flatten(rows) && (i == |rows| ==> FlattenTo(rows, i) == Flatten(rows))
    decreases |rows| - i
  {
    if i < |rows| {
      FlattenTurn(rows, i);
      FlattenPrefix(rows, i + 1);
    } else {
      assert rows[..i] == rows;
    }
  }

  method CollectNodeIfDevice(t: Tree, node: nat, reserved: array<Region>, count: nat, ram: array<Region>, ramCount: nat)
      returns (err: Regions.Status, n: nat)
    requires t.WellFormed() && node < |t.nodes|
    requires count <= reserved.Length && 0 < reserved.Length && ramCount <= ram.Length && ram != reserved
    modifies reserved
    ensures n <= reserved.Length
    ensures Stored(reserved[..n], old(reserved[..count]) + MmioOfNode(t, node, Spans(old(ram[..ramCount]))),
                   reserved.Length, err)
  {
    err, n := Ok, count;
    if HasCompatible(t, node) {
      err, n := CollectNodeMmio(t, node, reserved, n, ram, ramCount);
    }
  }

  method CollectMmio(t: Tree, reserved: array<Region>, count: nat, ram: array<Region>, ramCount: nat)
      returns (err: Regions.Status, n: nat)
    requires t.WellFormed()
    requires count <= reserved.Length && 0 < reserved.Length && ramCount <= ram.Length && ram != reserved
    modifies reserved
    ensures n <= reserved.Length
    ensures Stored(reserved[..n], old(reserved[..count]) + Flatten(MmioRows(t, Spans(old(ram[..ramCount])))),
                   reserved.Length, err)
  {
    ghost var before := reserved[..count];
    ghost var rows := MmioRows(t, Spans(ram[..ramCount]));
    err, n := Ok, count;
    var node := 0;
    while node < |t.nodes|
      invariant node <= |t.nodes| == |rows| && n <= reserved.Length && err == Ok
      invariant reserved[..n] == before + FlattenTo(rows, node)
    {
      err, n := CollectNodeIfDevice(t, node, reserved, n, ram, ramCount);
      FlattenTurn(rows, node);
      FlattenPrefix(rows, node + 1);
      StoredNext(reserved[..n], before, FlattenTo(rows, node), rows[node], Flatten(rows), reserved.Length, err);
      if err != Ok {
        return;
      }
      node := node + 1;
    }
    FlattenPrefix(rows, |rows|);
  }
}
