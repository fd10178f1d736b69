// What holds of every platform the kernel gets as far as the build on, and device
// trees made from lists of ranges, with what the decoders read from them.
module Boards {
  import opened Machine
  import opened Intervals
  import opened Regions
  import opened DeviceTree
  import opened RegDecoder
  import opened RegCodec
  import opened NodeQueries
  import opened MapSpec
  import opened ListedRanges
  import opened Partition

  // ---- Boot ----

  predicate Listed(list: seq<Addr>, x: int) { exists a :: a in list && Lists(a, x) }

  ghost predicate AllListed(list: seq<Addr>, lo: int, hi: int) {
    forall x :: lo <= x < hi ==> Listed(list, x)
  }

  // A node is compatible with name.
  predicate Compat(t: Tree, i: nat, name: string)
    requires i < |t.nodes|
  {
    var p := t.Prop(i, "compatible");
    p.Got? && Ascii(name) in NodeQueries.Listed(p.value)
  }

  predicate IsCpu(t: Tree, i: nat)
    requires i < |t.nodes|
  {
    var p := t.Prop(i, "device_type");
    p.Got? && CString(p.value) == Ascii("cpu")
  }

  // A time base, and an enabled CPU node for hart 0, on which alone kmain goes on.
  ghost predicate HasCpu(t: Tree)
    requires t.WellFormed()
  {
    && t.cpus.Got? && U32Prop(t, t.cpus.value, "timebase-frequency").Got?
    && U32Prop(t, t.cpus.value, "timebase-frequency").value > 0
    && exists i: nat :: i < |t.nodes| && IsBootCpu(t, i)
  }

  predicate IsBootCpu(t: Tree, i: nat)
    requires t.WellFormed() && t.cpus.Got? && i < |t.nodes|
  {
    && t.nodes[i].parent == t.cpus && IsCpu(t, i) && t.Prop(i, "status") == Failed(NotFound)
    && RegList(t, i).Got? && RegList(t, i).value != [] && RegList(t, i).value[0].base == 0
  }

  ghost predicate HasTimer(t: Tree) {
    exists i: nat :: i < |t.nodes| && (Compat(t, i, "riscv,timer") || Compat(t, i, "riscv,clint0"))
  }

  // Without a stdout path the console is the first 16550 of the tree.
  ghost predicate HasConsole(t: Tree)
    requires t.WellFormed()
  {
    && t.chosen.Failed?
    && exists i: nat :: i < |t.nodes| && IsConsole(t, i) && forall j :: 0 <= j < i ==> !Compat(t, j, "ns16550a")
  }

  predicate IsConsole(t: Tree, i: nat)
    requires t.WellFormed() && i < |t.nodes|
  {
    && Compat(t, i, "ns16550a")
    && RegList(t, i).Got? && RegList(t, i).value != [] && RegList(t, i).value[0].base > 0
  }

  // Enough for kmain to call the build: CPU, timer and console are found, the
  // tree has a size, and the memory base is that of the first listed RAM range.
  // Kernel image and tree lie in listed RAM, apart from each other.
  ghost predicate Booted(p: Platform)
    requires p.WellFormed()
  {
    && p.fdt.Some? && p.fdt.value.totalSize > 0 && MemoryRanges(p.fdt).Got?
    && HasCpu(p.fdt.value) && HasTimer(p.fdt.value) && HasConsole(p.fdt.value)
    && InMemory(p, MemoryRanges(p.fdt).value, p.fdt.value.address, p.fdt.value.address + p.fdt.value.totalSize)
  }

  ghost predicate InMemory(p: Platform, list: seq<Addr>, blob: int, blobEnd: int) {
    && list != [] && p.memBase == list[0].base
    && p.kernelStart < p.kernelImageEnd
    && AllListed(list, p.kernelStart, p.kernelImageEnd) && AllListed(list, blob, blobEnd)
    && (blobEnd <= p.kernelStart || p.kernelImageEnd <= blob)
  }

  // ---- Boards ----

  // The first RAM page and its number, as on the QEMU platform.
  const RAM_START: int := 0x8000_0000
  const FIRST: int := 0x8_0000

  function Run(from: nat, to: nat): Span
    requires from <= to <= 1024
  {
    Span((FIRST + from) * PAGE, (FIRST + to) * PAGE)
  }

  function RunAddr(from: nat, to: nat): Addr
    requires from <= to <= 1024
  {
    Addr((FIRST + from) * PAGE, (to - from) * PAGE)
  }

  // The interrupt controller with the timer, and the console, of that platform.
  const CLINT := Addr(0x200_0000, 0x1_0000)
  const UART := Addr(0x1000_0000, 0x100)
  const TIMEBASE: u32 := 10_000_000

  // The ranges of every memory node, every child of /reserved-memory and every
  // device node beside timer and console.
  datatype Board = Board(memory: seq<seq<Addr>>, reserved: seq<seq<Addr>>, others: seq<seq<Addr>>,
                         blob: Addr, kernel: Span)
  {
    predicate Valid() { memory != [] && memory[0] != [] && blob.base > 0 && 0 < blob.size < U32_LIMIT }

    // The order of the nodes: root, memory nodes, /reserved-memory and its
    // children, /cpus and its CPU, timer, console, other devices.
    function Rmem(): nat { 1 + |memory| }

    function Cpus(): nat { Rmem() + 1 + |reserved| }

    function FirstDevice(): nat { Cpus() + 2 }

    function Devices(): seq<seq<Addr>> { [[CLINT], [UART]] + others }

    function NodeCount(): nat { FirstDevice() + |Devices()| }

    function NodeAt(i: nat): Node
      requires i < NodeCount()
    {
      if i == 0 || i == Rmem() then WithCells(if i == 0 then Failed(NotFound) else Got(0), map[])
      else if i < Rmem() then
        WithCells(Got(0), map["device_type" := Got(Ascii("memory") + [0]),
                              "reg" := Got(EncodeReg(memory[i - 1], 2, 2))])
      else if i < Cpus() then
        WithCells(Got(Rmem()), map["reg" := Got(EncodeReg(reserved[i - Rmem() - 1], 2, 2))])
      else if i == Cpus() then
        Node(Got(0), Got(1), Got(0), map["timebase-frequency" := Got(EncodeBe32(TIMEBASE))])
      else if i == Cpus() + 1 then
        WithCells(Got(Cpus()), map["device_type" := Got(Ascii("cpu") + [0]), "compatible" := Got(Ascii("riscv") + [0]),
                                   "reg" := Got(EncodeReg([Addr(0, 0)], 1, 0))])
      else
        WithCells(Got(0), map["compatible" := Got(Ascii(DeviceName(i - FirstDevice())) + [0]),
                              "reg" := Got(EncodeReg(Devices()[i - FirstDevice()], 2, 2))])
    }
  }

  function DeviceName(i: nat): string { if i == 0 then "riscv,clint0" else if i == 1 then "ns16550a" else "other" }

  // Two address and two size cells.
  function WithCells(parent: Lookup<nat>, props: map<string, Lookup<seq<u8>>>): Node {
    Node(parent, Got(2), Got(2), props)
  }

  function TreeOf(b: Board): (t: Tree)
    requires b.Valid()
    ensures t.WellFormed()
  {
    Tree(seq(b.NodeCount(), i requires 0 <= i < b.NodeCount() => b.NodeAt(i)),
         b.blob.base, b.blob.size, Got(b.Rmem()), Failed(NotFound), Got(b.Cpus()))
  }

  function PlatformOf(b: Board): (p: Platform)
    requires b.Valid()
    ensures p.WellFormed()
  {
    Platform(b.memory[0][0].base, b.kernel.start, b.kernel.end, Some(TreeOf(b)))
  }

  // ---- What the decoders read ----

  predicate KindOf(t: Tree, b: Board, i: nat)
    requires i < |t.nodes|
  {
    && (IsMemory(t, i) <==> 0 < i < b.Rmem())
    && (t.nodes[i].parent == Got(b.Rmem()) <==> b.Rmem() < i < b.Cpus())
    && (HasCompatible(t, i) <==> b.Cpus() < i)
  }

  predicate RangesOf(t: Tree, b: Board, i: nat)
    requires t.WellFormed() && i < |t.nodes| == b.NodeCount()
  {
    && (0 < i < b.Rmem() ==> RegList(t, i) == Got(b.memory[i - 1]))
    && (b.Rmem() < i < b.Cpus() ==> RegList(t, i) == Got(b.reserved[i - b.Rmem() - 1]))
    && (i == b.Cpus() + 1 ==> RegList(t, i) == Got([Addr(0, 0)]))
    && (b.FirstDevice() <= i ==> RegList(t, i) == Got(b.Devices()[i - b.FirstDevice()]))
  }

  ghost predicate ReadsAs(t: Tree, b: Board) {
    && t.WellFormed() && |t.nodes| == b.NodeCount() && t.reservedMemory == Got(b.Rmem())
    && forall i :: 0 <= i < |t.nodes| ==> KindOf(t, b, i) && RangesOf(t, b, i)
  }

  lemma {:induction false} MemoryName()
    ensures CString(Ascii("memory") + [0]) == Ascii("memory")
    ensures CString(Ascii("cpu") + [0]) == Ascii("cpu") && |Ascii("cpu")| < |Ascii("memory")|
  {
    assert Ascii("memory") == [109, 101, 109, 111, 114, 121] && Ascii("cpu") == [99, 112, 117];
    NameEnds(Ascii("memory"));
    NameEnds(Ascii("cpu"));
  }

  lemma {:induction false} NameEnds(name: seq<u8>)
    requires 0 !in name
    ensures CString(name + [0]) == name
  {
    CStringStops(name, []);
    assert name + [0] + [] == name + [0];
  }

  lemma {:induction false} RegRead(t: Tree, i: nat, parent: nat, list: seq<Addr>)
    requires t.WellFormed() && i < |t.nodes| && t.nodes[i].parent == Got(parent)
    requires t.nodes[parent].addressCells == Got(2) && t.nodes[parent].sizeCells == Got(2)
    requires t.Prop(i, "reg") == Got(EncodeReg(list, 2, 2))
    ensures RegList(t, i) == Got(list)
  {
    assert Power32(0) == 1 && Power32(1) == U32_LIMIT && Power32(2) == U64_LIMIT;
    assert EncodeReg(list, 2, 2) + [] == EncodeReg(list, 2, 2);
    RegRoundTrip(t, i, parent, 2, 2, list, []);
  }

  lemma {:induction false} CpuRead(t: Tree, i: nat, parent: nat, list: seq<Addr>)
    requires t.WellFormed() && i < |t.nodes| && t.nodes[i].parent == Got(parent)
    requires t.nodes[parent].addressCells == Got(1) && t.nodes[parent].sizeCells == Got(0)
    requires list == [Addr(0, 0)] && t.Prop(i, "reg") == Got(EncodeReg(list, 1, 0))
    ensures RegList(t, i) == Got(list)
  {
    assert Power32(0) == 1 && Power32(1) == U32_LIMIT;
    assert EncodeReg(list, 1, 0) + [] == EncodeReg(list, 1, 0);
    RegRoundTrip(t, i, parent, 1, 0, list, []);
  }

  lemma {:induction false} KindRead(t: Tree, b: Board, i: nat)
    requires i < b.NodeCount() && i < |t.nodes| && t.nodes[i] == b.NodeAt(i)
    ensures KindOf(t, b, i)
  {
    MemoryName();
  }

  lemma {:induction false} MemoryRead(t: Tree, b: Board, i: nat)
    requires b.Valid() && t == TreeOf(b) && 0 < i < b.Rmem()
    ensures RegList(t, i) == Got(b.memory[i - 1])
  {
    assert t.nodes[i] == b.NodeAt(i) && t.nodes[0] == b.NodeAt(0);
    RegRead(t, i, 0, b.memory[i - 1]);
  }

  lemma {:induction false} ReservedRead(t: Tree, b: Board, i: nat)
    requires b.Valid() && t == TreeOf(b) && b.Rmem() < i < b.Cpus()
    ensures RegList(t, i) == Got(b.reserved[i - b.Rmem() - 1])
  {
    assert t.nodes[i] == b.NodeAt(i) && t.nodes[b.Rmem()] == b.NodeAt(b.Rmem());
    RegRead(t, i, b.Rmem(), b.reserved[i - b.Rmem() - 1]);
  }

  lemma {:induction false} DeviceRead(t: Tree, b: Board, i: nat)
    requires b.Valid() && t == TreeOf(b) && b.FirstDevice() <= i < b.NodeCount()
    ensures RegList(t, i) == Got(b.Devices()[i - b.FirstDevice()])
  {
    assert t.nodes[i] == b.NodeAt(i) && t.nodes[0] == b.NodeAt(0);
    RegRead(t, i, 0, b.Devices()[i - b.FirstDevice()]);
  }

  lemma {:induction false} CpuNodeRead(t: Tree, b: Board, i: nat)
    requires b.Valid() && t == TreeOf(b) && i == b.Cpus() + 1
    ensures RegList(t, i) == Got([Addr(0, 0)])
  {
    assert t.nodes[i] == b.NodeAt(i) && t.nodes[b.Cpus()] == b.NodeAt(b.Cpus());
    CpuRead(t, i, b.Cpus(), [Addr(0, 0)]);
  }

  lemma {:induction false} RangesRead(t: Tree, b: Board, i: nat)
    requires b.Valid() && t == TreeOf(b) && i < b.NodeCount()
    ensures RangesOf(t, b, i)
  {
    if 0 < i < b.Rmem() {
      MemoryRead(t, b, i);
    } else if b.Rmem() < i < b.Cpus() {
      ReservedRead(t, b, i);
    } else if i == b.Cpus() + 1 {
      CpuNodeRead(t, b, i);
    } else if b.FirstDevice() <= i {
      DeviceRead(t, b, i);
    }
  }

  lemma {:induction false} TreeReads(b: Board)
    requires b.Valid()
    ensures ReadsAs(TreeOf(b), b)
  {
    var t := TreeOf(b);
    forall i | 0 <= i < |t.nodes| ensures KindOf(t, b, i) && RangesOf(t, b, i) {
      KindRead(t, b, i);
      RangesRead(t, b, i);
    }
  }

  // ---- Gathered ranges ----

  // The first eight ranges of every list, one list after the other.
  function Joined(lists: seq<seq<Addr>>): seq<Addr> {
    if lists == [] then [] else Joined(lists[..|lists| - 1]) + FirstRegs(lists[|lists| - 1])
  }

  ghost function JoinedTo(lists: seq<seq<Addr>>, k: int): seq<Addr> {
    if k <= 0 then [] else Joined(lists[..Min(k, |lists|)])
  }

  lemma {:induction false} JoinedTurn(lists: seq<seq<Addr>>, k: int)
    ensures 0 <= k < |lists| ==> JoinedTo(lists, k + 1) == JoinedTo(lists, k) + FirstRegs(lists[k])
    ensures k < 0 || |lists| <= k ==> JoinedTo(lists, k + 1) == JoinedTo(lists, k)
    ensures |lists| <= k ==> JoinedTo(lists, k) == Joined(lists)
  {
    if 0 <= k < |lists| {
      assert lists[..k + 1][..k] == lists[..k];
      if k == 0 { assert lists[..0] == [] && Joined(lists[..0]) == []; }
    } else if |lists| <= k {
      assert lists[..|lists|] == lists;
    }
  }

  lemma {:induction false} OneList(list: seq<Addr>)
    ensures Joined([list]) == FirstRegs(list)
    ensures |list| <= MAX_REGS ==> Joined([list]) == list
  {
    assert [list][..0] == [] && Joined([list][..0]) == [];
    if |list| <= MAX_REGS { assert FirstRegs(list) == list; }
  }

  lemma {:induction false} MemoryGathered(t: Tree, b: Board, n: nat)
    requires ReadsAs(t, b) && n <= |t.nodes|
    ensures Gather(t, MemoryNodes(t), false, n) == Got(JoinedTo(b.memory, n - 1))
  {
    if n > 0 {
      MemoryGathered(t, b, n - 1);
      JoinedTurn(b.memory, n - 2);
      assert KindOf(t, b, n - 1) && RangesOf(t, b, n - 1);
      assert n - 1 in MemoryNodes(t) <==> IsMemory(t, n - 1);
    }
  }

  lemma {:induction false} ReservedGathered(t: Tree, b: Board, n: nat)
    requires ReadsAs(t, b) && n <= |t.nodes|
    ensures Gather(t, Children(t, b.Rmem()), true, n) == Got(JoinedTo(b.reserved, n - b.Rmem() - 1))
  {
    if n > 0 {
      ReservedGathered(t, b, n - 1);
      JoinedTurn(b.reserved, n - b.Rmem() - 2);
      assert KindOf(t, b, n - 1) && RangesOf(t, b, n - 1);
      assert n - 1 in Children(t, b.Rmem()) <==> t.nodes[n - 1].parent == Got(b.Rmem());
    }
  }

  lemma {:induction false} BoardRanges(b: Board)
    requires b.Valid()
    ensures MemoryRanges(PlatformOf(b).fdt) == Got(Joined(b.memory))
    ensures ReservedRanges(PlatformOf(b).fdt) == Got(Joined(b.reserved))
  {
    var t := TreeOf(b);
    TreeReads(b);
    MemoryGathered(t, b, |t.nodes|);
    ReservedGathered(t, b, |t.nodes|);
    JoinedTurn(b.memory, |t.nodes| - 1);
    JoinedTurn(b.reserved, |t.nodes| - b.Rmem() - 1);
  }

  // ---- CPU, timer and console ----

  lemma {:induction false} OneName(name: seq<u8>)
    requires 0 !in name && name != []
    ensures NodeQueries.Listed(name + [0]) == [name]
  {
    StringListRoundTrip([name]);
    assert [name][1..] == [] && StringList([]) == [] && name + [0] + [] == name + [0];
    assert BeforeEmpty([]) == [] && BeforeEmpty([name]) == [name] + [];
  }

  lemma {:induction false} CompatRead(t: Tree, i: nat, have: string, name: string)
    requires i < |t.nodes| && t.Prop(i, "compatible") == Got(Ascii(have) + [0])
    requires 0 !in Ascii(have) && have != []
    ensures Compat(t, i, name) <==> Ascii(name) == Ascii(have)
  {
    OneName(Ascii(have));
  }

  lemma {:induction false} DeviceNames()
    ensures 0 !in Ascii("riscv,clint0") && 0 !in Ascii("ns16550a") && 0 !in Ascii("riscv")
    ensures |Ascii("riscv,clint0")| == 12 && |Ascii("ns16550a")| == 8 && |Ascii("riscv")| == 5
  {
    assert Ascii("riscv,clint0") == [114, 105, 115, 99, 118, 44, 99, 108, 105, 110, 116, 48];
    assert Ascii("ns16550a") == [110, 115, 49, 54, 53, 53, 48, 97];
    assert Ascii("riscv") == [114, 105, 115, 99, 118];
  }

  lemma {:induction false} BoardHasCpu(b: Board)
    requires b.Valid()
    ensures HasCpu(TreeOf(b))
  {
    var t, i := TreeOf(b), b.Cpus() + 1;
    MemoryName();
    TreeReads(b);
    assert t.nodes[i] == b.NodeAt(i) && t.nodes[b.Cpus()] == b.NodeAt(b.Cpus());
    assert RangesOf(t, b, i) && IsBootCpu(t, i);
    var freq := EncodeBe32(TIMEBASE);
    assert freq[4 * 0..4 * 0 + 4] == freq;
    Be32RoundTrip(freq, 0, TIMEBASE);
  }

  lemma {:induction false} BoardHasTimer(b: Board)
    requires b.Valid()
    ensures HasTimer(TreeOf(b))
  {
    var t, i := TreeOf(b), b.FirstDevice();
    assert t.nodes[i] == b.NodeAt(i);
    DeviceNames();
    CompatRead(t, i, "riscv,clint0", "riscv,clint0");
  }

  lemma {:induction false} BoardHasConsole(b: Board)
    requires b.Valid()
    ensures HasConsole(TreeOf(b))
  {
    var t, i := TreeOf(b), b.FirstDevice() + 1;
    TreeReads(b);
    assert t.nodes[i] == b.NodeAt(i);
    DeviceNames();
    CompatRead(t, i, "ns16550a", "ns16550a");
    assert RangesOf(t, b, i) && IsConsole(t, i);
    forall j | 0 <= j < i ensures !Compat(t, j, "ns16550a") {
      NoConsoleBefore(t, b, j);
    }
  }

  lemma {:induction false} NoConsoleBefore(t: Tree, b: Board, j: nat)
    requires b.Valid() && t == TreeOf(b) && j <= b.FirstDevice()
    ensures !Compat(t, j, "ns16550a")
  {
    assert t.nodes[j] == b.NodeAt(j);
    DeviceNames();
    if j == b.FirstDevice() {
      CompatRead(t, j, "riscv,clint0", "ns16550a");
    } else if j == b.Cpus() + 1 {
      CompatRead(t, j, "riscv", "ns16550a");
    }
  }

  // ---- Device regions ----

  lemma {:induction false} EntriesStart(node: nat, list: seq<Addr>, ram: seq<Span>, v: int)
    requires forall a :: a in list ==> a.base < v
    ensures From(MmioEntries(node, list, ram), v) == [] && |MmioEntries(node, list, ram)| <= |list|
  {
    if list != [] {
      var init, a := list[..|list| - 1], list[|list| - 1];
      assert a in list && list == init + [a];
      EntriesStart(node, init, ram, v);
      AlignDownIsFloor(a.base, 0);
      AllBelow(MmioEntry(node, a, ram), v);
      PartsConcat(MmioEntries(node, init, ram), MmioEntry(node, a, ram), v);
    }
  }

  lemma {:induction false} RowShort(t: Tree, node: nat, ram: seq<Span>)
    requires t.WellFormed() && node < |t.nodes|
    ensures |MmioOfNode(t, node, ram)| <= MAX_REGS
  {
    EntriesStart(node, NodeRegs(t, node), ram, U64_LIMIT);
  }

  lemma {:induction false} FlattenShort(rows: seq<seq<Region>>)
    requires forall i :: 0 <= i < |rows| ==> |rows[i]| <= MAX_REGS
    ensures |Flatten(rows)| <= |rows| * MAX_REGS
  {
    if rows != [] { FlattenShort(rows[..|rows| - 1]); }
  }

  // A tree of at most 90 nodes lists few enough devices.
  lemma {:induction false} DevicesFit(t: Tree, ram: seq<Span>)
    requires t.WellFormed() && |t.nodes| <= 90
    ensures |Flatten(MmioRows(t, ram))| + MAX_RAM + 3 <= WORKSPACE
  {
    forall i | 0 <= i < |t.nodes| ensures |MmioRows(t, ram)[i]| <= MAX_REGS {
      RowShort(t, i, ram);
    }
    FlattenShort(MmioRows(t, ram));
  }

  // The first n rows hold nothing that starts at v or above.
  ghost predicate EmptyFrom(rows: seq<seq<Region>>, n: nat, v: int) {
    n <= |rows| && forall i :: 0 <= i < n ==> From(rows[i], v) == []
  }

  lemma {:induction false} FromLastRow(rows: seq<seq<Region>>, v: int)
    requires rows != [] && EmptyFrom(rows, |rows| - 1, v)
    ensures From(Flatten(rows), v) == From(rows[|rows| - 1], v)
    decreases |rows|
  {
    var init, last := rows[..|rows| - 1], rows[|rows| - 1];
    PartsConcat(Flatten(init), last, v);
    if init == [] {
      assert Flatten(init) == [];
    } else {
      assert forall i :: 0 <= i < |init| ==> init[i] == rows[i];
      FromLastRow(init, v);
    }
    assert [] + From(last, v) == From(last, v);
  }

  // No node but the others has a device region in or behind RAM.
  lemma {:induction false} RowBelow(t: Tree, b: Board, ram: seq<Span>, i: nat)
    requires ReadsAs(t, b) && i < b.FirstDevice() + 2
    ensures From(MmioRows(t, ram)[i], RAM_START) == []
  {
    assert KindOf(t, b, i) && RangesOf(t, b, i);
    if b.Cpus() < i {
      var list := if i == b.Cpus() + 1 then [Addr(0, 0)] else b.Devices()[i - b.FirstDevice()];
      assert RegList(t, i) == Got(list) && FirstRegs(list) == list;
      EntriesStart(i, list, ram, RAM_START);
    }
  }

  lemma {:induction false} OtherRow(t: Tree, b: Board, ram: seq<Span>, i: nat, list: seq<Addr>)
    requires ReadsAs(t, b) && b.FirstDevice() <= i < |t.nodes|
    requires list == b.Devices()[i - b.FirstDevice()]
    ensures MmioRows(t, ram)[i] == MmioEntries(i, FirstRegs(list), ram)
  {
    assert KindOf(t, b, i) && RangesOf(t, b, i);
    assert NodeRegs(t, i) == FirstRegs(list);
  }

  lemma {:induction false} RowsBelow(t: Tree, b: Board, ram: seq<Span>)
    requires ReadsAs(t, b)
    ensures EmptyFrom(MmioRows(t, ram), b.FirstDevice() + 2, RAM_START)
  {
    forall i | 0 <= i < b.FirstDevice() + 2 ensures From(MmioRows(t, ram)[i], RAM_START) == [] {
      RowBelow(t, b, ram, i);
    }
  }

  // Device regions from RAM on: none without other devices, and those of the
  // single other one.
  lemma {:induction false} NoOthers(b: Board)
    requires b.Valid() && b.others == []
    ensures From(MmioCandidates(PlatformOf(b)), RAM_START) == []
  {
    TreeReads(b);
    NoOtherRow(TreeOf(b), b, Spans(RamTable(PlatformOf(b))));
  }

  lemma {:induction false} NoOtherRow(t: Tree, b: Board, ram: seq<Span>)
    requires ReadsAs(t, b) && b.others == []
    ensures From(Flatten(MmioRows(t, ram)), RAM_START) == []
  {
    var k := b.FirstDevice() + 1;
    RowBelow(t, b, ram, k);
    RowsBelow(t, b, ram);
    LastRow(MmioRows(t, ram), k, MmioRows(t, ram)[k]);
  }

  lemma {:induction false} LastRow(rows: seq<seq<Region>>, k: nat, row: seq<Region>)
    requires |rows| == k + 1 && rows[k] == row && EmptyFrom(rows, k, RAM_START)
    ensures From(Flatten(rows), RAM_START) == From(row, RAM_START)
  {
    FromLastRow(rows, RAM_START);
  }

  lemma {:induction false} OneOther(b: Board, list: seq<Addr>, row: seq<Region>)
    requires b.Valid() && b.others == [list]
    requires row == MmioEntries(b.FirstDevice() + 2, FirstRegs(list), Spans(RamTable(PlatformOf(b))))
    ensures From(MmioCandidates(PlatformOf(b)), RAM_START) == From(row, RAM_START)
  {
    TreeReads(b);
    OneOtherRow(TreeOf(b), b, Spans(RamTable(PlatformOf(b))), list, row);
  }

  lemma {:induction false} OneOtherRow(t: Tree, b: Board, ram: seq<Span>, list: seq<Addr>, row: seq<Region>)
    requires ReadsAs(t, b) && b.others == [list] && row == MmioEntries(b.FirstDevice() + 2, FirstRegs(list), ram)
    ensures From(Flatten(MmioRows(t, ram)), RAM_START) == From(row, RAM_START)
  {
    var k := b.FirstDevice() + 2;
    assert b.Devices()[2] == list;
    RowsBelow(t, b, ram);
    OtherRow(t, b, ram, k, list);
    LastRow(MmioRows(t, ram), k, row);
  }
}
