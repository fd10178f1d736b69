// What mm_stage2_build has to produce, as functions of its inputs: the RAM
// candidates, the reserved candidates, and the tables made from them.
module MapSpec {
  import opened Machine
  import opened Intervals
  import opened Regions
  import opened Subtraction
  import opened DeviceTree
  import opened RegDecoder

  const MAX_RAM: int := 32
  // MM_REGION_WORKSPACE_CAP, entries of the reserved and the free table.
  const WORKSPACE: int := MAX_RAM * ((MAX_REGS * 2) + 8)

  // memBase is hw->mem_base, the kernel symbols come from the linker.
  datatype Platform = Platform(memBase: u64, kernelStart: u64, kernelImageEnd: u64, fdt: Option<Tree>) {
    predicate WellFormed() { fdt.Some? ==> fdt.value.WellFormed() }
  }

  // ---- Candidates ----

  function RoundedAll(list: seq<Addr>, pte: u8, protect: u16, source: Source): (r: seq<Region>)
    ensures |r| <= |list|
    ensures forall x :: x in r ==> x.Whole() && x.pte == pte && x.protect == protect
  {
    if list == [] then []
    else
      var a := list[|list| - 1];
      RoundedAll(list[..|list| - 1], pte, protect, source) +
      Rounded(a.base, Add(a.base, a.size), pte, protect, source)
  }

  function Firsts(list: seq<Addr>): (r: seq<Addr>)
    ensures |r| <= MAX_RAM
  {
    list[..Min(|list|, MAX_RAM)]
  }

  function RamCandidates(p: Platform): (r: seq<Region>)
    requires p.WellFormed()
    ensures |r| <= MAX_RAM && WholePages(r) && Uniform(r)
  {
    var list := match MemoryRanges(p.fdt) case Got(all) => Firsts(all) case Failed(e) => [];
    RoundedAll(list, MM_RW, FLAG_ALLOCATABLE, Literal("dtb-memory"))
  }

  function KernelCandidates(p: Platform): (r: seq<Region>)
    ensures |r| <= 2 && WholePages(r)
  {
    Rounded(p.kernelStart, p.kernelImageEnd, MM_RWX, FLAG_KERNEL + FLAG_RESERVED, Literal("kernel")) +
    Rounded(p.memBase, p.kernelStart, MM_R, FLAG_BOOT + FLAG_RESERVED, Literal("boot-reserved"))
  }

  function BlobCandidates(p: Platform): (r: seq<Region>)
    ensures |r| <= 1 && WholePages(r)
  {
    if p.fdt.Some? && p.fdt.value.totalSize > 0 then
      Rounded(p.fdt.value.address, Add(p.fdt.value.address, p.fdt.value.totalSize),
              MM_R, FLAG_DTB + FLAG_RESERVED, Literal("dtb"))
    else []
  }

  // The ranges of /reserved-memory; an overflow is tolerated and cuts the list.
  function ReservedList(p: Platform): (r: seq<Addr>)
    requires p.WellFormed()
    ensures |r| <= MAX_RAM
  {
    match ReservedRanges(p.fdt) case Got(all) => Firsts(all) case Failed(e) => []
  }

  // Everything reserved but device memory: at most 35 entries.
  function FirmCandidates(p: Platform): (r: seq<Region>)
    requires p.WellFormed()
    ensures |r| <= MAX_RAM + 3 && WholePages(r)
  {
    KernelCandidates(p) + BlobCandidates(p) +
    RoundedAll(ReservedList(p), MM_R, FLAG_RESERVED, Literal("dtb-reserved"))
  }

  // ---- Device memory ----

  predicate IsDevice(r: Region) { r.pte == MM_RW && r.protect == FLAG_MMIO }

  predicate DeviceRegions(s: seq<Region>) { forall r :: r in s ==> r.Whole() && IsDevice(r) }

  // The end saturates at the top of the address space.
  function MmioSpan(a: Addr): Span { Span(a.base, Min(a.base + a.size, U64_MAX)) }

  function MmioEntry(node: nat, a: Addr, ram: seq<Span>): seq<Region> {
    if a.size == 0 || OverlapsAny(MmioSpan(a), ram) then []
    else Rounded(a.base, MmioSpan(a).end, MM_RW, FLAG_MMIO, Compatible(node))
  }

  function MmioEntries(node: nat, list: seq<Addr>, ram: seq<Span>): seq<Region> {
    if list == [] then []
    else MmioEntries(node, list[..|list| - 1], ram) + MmioEntry(node, list[|list| - 1], ram)
  }

  predicate HasCompatible(t: Tree, node: nat)
    requires node < |t.nodes|
  {
    var p := t.Prop(node, "compatible");
    p.Got? && |p.value| > 0 && p.value[0] != 0
  }

  // The ranges the scan of a node visits: what a bounded decode would return.
  function NodeRegs(t: Tree, node: nat): seq<Addr>
    requires t.WellFormed() && node < |t.nodes|
  {
    match RegList(t, node) case Got(list) => FirstRegs(list) case Failed(e) => []
  }

  function MmioOfNode(t: Tree, node: nat, ram: seq<Span>): seq<Region>
    requires t.WellFormed() && node < |t.nodes|
  {
    if HasCompatible(t, node) then MmioEntries(node, NodeRegs(t, node), ram) else []
  }

  // One row of device regions for every node.
  function MmioRows(t: Tree, ram: seq<Span>): (r: seq<seq<Region>>)
    requires t.WellFormed()
    ensures |r| == |t.nodes| && forall i :: 0 <= i < |r| ==> r[i] == MmioOfNode(t, i, ram)
  {
    seq(|t.nodes|, i requires 0 <= i < |t.nodes| => MmioOfNode(t, i, ram))
  }

  function Flatten(rows: seq<seq<Region>>): seq<Region> {
    if rows == [] then [] else Flatten(rows[..|rows| - 1]) + rows[|rows| - 1]
  }

  lemma {:induction false} FlattenMember(rows: seq<seq<Region>>, r: Region)
    ensures r in Flatten(rows) <==> exists i :: 0 <= i < |rows| && r in rows[i]
  {
    if rows != [] {
      var init := rows[..|rows| - 1];
      FlattenMember(init, r);
      assert forall i :: 0 <= i < |init| ==> init[i] == rows[i];
    }
  }

  function MmioCandidates(p: Platform): seq<Region>
    requires p.WellFormed()
  {
    if p.fdt.None? then [] else Flatten(MmioRows(p.fdt.value, Spans(RamTable(p))))
  }

  // A device candidate comes from one range of one node.
  lemma {:induction false} MmioCandidateOrigin(p: Platform, r: Region)
    requires p.WellFormed() && r in MmioCandidates(p)
    ensures exists node, a :: r in MmioEntry(node, a, Spans(RamTable(p)))
  {
    var t, ram := p.fdt.value, Spans(RamTable(p));
    FlattenMember(MmioRows(t, ram), r);
    var i :| 0 <= i < |MmioRows(t, ram)| && r in MmioRows(t, ram)[i];
    MmioEntriesMember(i, NodeRegs(t, i), ram, r);
  }

  lemma {:induction false} MmioEntriesMember(node: nat, list: seq<Addr>, ram: seq<Span>, r: Region)
    requires r in MmioEntries(node, list, ram)
    ensures exists a :: r in MmioEntry(node, a, ram)
  {
    if r !in MmioEntry(node, list[|list| - 1], ram) {
      MmioEntriesMember(node, list[..|list| - 1], ram, r);
    }
  }

  // Every candidate is a run of whole pages, and the device scan adds nothing
  // but device regions.
  lemma {:induction false} CandidatesAreWhole(p: Platform)
    requires p.WellFormed()
    ensures DeviceRegions(MmioCandidates(p)) && WholePages(ReservedCandidates(p))
  {
    forall r | r in MmioCandidates(p) ensures r.Whole() && IsDevice(r) {
      MmioCandidateOrigin(p, r);
    }
  }

  // ---- Tables ----

  function RamTable(p: Platform): seq<Region>
    requires p.WellFormed()
  {
    Merge(RamCandidates(p))
  }

  function ReservedCandidates(p: Platform): seq<Region>
    requires p.WellFormed()
  {
    FirmCandidates(p) + MmioCandidates(p)
  }

  function ReservedTable(p: Platform): seq<Region>
    requires p.WellFormed()
  {
    Merge(ReservedCandidates(p))
  }

  function FreeSpans(p: Platform): seq<Span>
    requires p.WellFormed()
  {
    Subtract(Spans(RamTable(p)), Spans(ReservedTable(p)))
  }

  function FirstFreeFrame(p: Platform): u64 { AlignUp(p.kernelImageEnd) }

  // ---- When the build succeeds ----

  function ExpectedStatus(p: Platform): Regions.Status
    requires p.WellFormed()
  {
    if MemoryRanges(p.fdt).Failed? || |MemoryRanges(p.fdt).value| > MAX_RAM then DtbRam
    else if ReservedRanges(p.fdt).Failed? && ReservedRanges(p.fdt).error !in {NotFound, NoSpace} then DtbReserved
    else if |ReservedCandidates(p)| > WORKSPACE then DtbDeviceScan
    else Ok
  }
}
