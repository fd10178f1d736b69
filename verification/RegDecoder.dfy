// Decoding of "reg" properties in libs/dtb/dtb.c: big-endian cells, single
// entries, bounded lists, and the collection of memory ranges over the tree
// (Devicetree Specification v0.4, sections 2.3.5 and 2.3.6).
module RegDecoder {
  import opened Machine
  import opened DeviceTree

  const MAX_REGS: int := 8

  datatype Addr = Addr(base: u64, size: u64)

  // ---- Cells ----

  function Be32(b: seq<u8>, cell: nat): u32
    requires 4 * cell + 4 <= |b|
  {
    var o := 4 * cell;
    b[o] as int * 0x100_0000 + b[o + 1] as int * 0x1_0000 + b[o + 2] as int * 0x100 + b[o + 3]
  }

  function Power32(n: nat): int { if n == 0 then 1 else U32_LIMIT * Power32(n - 1) }

  // The number a run of cells spells, most significant cell first.
  function CellsValue(b: seq<u8>, cell: nat, count: nat): (v: int)
    requires 4 * (cell + count) <= |b|
    ensures 0 <= v < Power32(count)
  {
    if count == 0 then 0
    else CellsValue(b, cell, count - 1) * U32_LIMIT + Be32(b, cell + count - 1)
  }

  lemma {:induction false} TwoCells(count: nat)
    requires count <= 2
    ensures Power32(count) <= U64_LIMIT && (count <= 1 ==> Power32(count) <= U32_LIMIT)
  {
    assert Power32(0) == 1 && Power32(1) == U32_LIMIT && Power32(2) == U32_LIMIT * U32_LIMIT;
  }

  // One more cell; nothing is shifted out as long as there are two at most.
  lemma {:induction false} CellsTurn(b: seq<u8>, cell: nat, i: nat)
    requires i <= 1 && 4 * (cell + i + 1) <= |b|
    ensures CellsValue(b, cell, i) * U32_LIMIT < U64_LIMIT
    ensures CellsValue(b, cell, i + 1) == Wrap(CellsValue(b, cell, i) * U32_LIMIT) + Be32(b, cell + i) < U64_LIMIT
  {
    TwoCells(i);
    TwoCells(i + 1);
  }

  method ReadCells(b: seq<u8>, cell: nat, count: int) returns (r: Lookup<u64>)
    requires 0 <= count <= 2 ==> 4 * (cell + count) <= |b|
    ensures r == if 1 <= count <= 2 then Got(CellsValue(b, cell, count)) else Failed(BadNCells)
  {
    if count <= 0 || count > 2 {
      return Failed(BadNCells);
    }
    TwoCells(count);
    var val: u64 := 0;
    var i := 0;
    while i < count
      invariant 0 <= i <= count && val == CellsValue(b, cell, i)
    {
      CellsTurn(b, cell, i);
      // The low half of the shifted value is clear, so the OR is a sum.
      val := Wrap(val * U32_LIMIT) + Be32(b, cell + i);
      i := i + 1;
    }
    r := Got(val);
  }

  // ---- One node's "reg" ----

  function EntryAt(b: seq<u8>, na: nat, ns: nat, i: nat): Addr
    requires 1 <= na <= 2 && ns <= 2 && (i + 1) * (na + ns) * 4 <= |b|
  {
    TwoCells(na);
    TwoCells(ns);
    EntryFits(b, na, ns, i);
    Addr(CellsValue(b, i * (na + ns), na), CellsValue(b, i * (na + ns) + na, ns))
  }

  lemma {:induction false} EntryFits(b: seq<u8>, na: nat, ns: nat, i: nat)
    requires (i + 1) * (na + ns) * 4 <= |b|
    ensures 4 * (i * (na + ns) + na + ns) <= |b|
  {
    assert (i + 1) * (na + ns) == i * (na + ns) + (na + ns);
  }

  function EntryCount(b: seq<u8>, na: nat, ns: nat): nat
    requires na > 0
  {
    |b| / ((na + ns) * 4)
  }

  lemma {:induction false} QuotientAtLeast(len: nat, w: nat, k: nat)
    requires w > 0
    ensures k <= len / w <==> k * w <= len
  {
    var n := len / w;
    assert len == n * w + len % w;
    if k <= n {
      assert k * w <= n * w;
    } else {
      assert k * w >= (n + 1) * w == n * w + w;
    }
  }

  lemma {:induction false} EntryInRange(b: seq<u8>, na: nat, ns: nat, i: nat)
    requires na > 0
    ensures i < EntryCount(b, na, ns) <==> (i + 1) * (na + ns) * 4 <= |b|
  {
    QuotientAtLeast(|b|, (na + ns) * 4, i + 1);
    assert (i + 1) * ((na + ns) * 4) == (i + 1) * (na + ns) * 4;
  }

  // All whole entries of a property; trailing bytes are ignored.
  function Entries(b: seq<u8>, na: nat, ns: nat): (r: seq<Addr>)
    requires 1 <= na <= 2 && ns <= 2
    ensures |r| == EntryCount(b, na, ns)
  {
    seq(EntryCount(b, na, ns), i requires 0 <= i < EntryCount(b, na, ns) =>
      EntryInRange(b, na, ns, i); EntryAt(b, na, ns, i))
  }

  // The cell counts that apply to a node are those of its parent.
  function RegCells(t: Tree, node: nat): (r: Lookup<(nat, nat)>)
    requires t.WellFormed() && node < |t.nodes|
    ensures r.Got? ==> 1 <= r.value.0 <= 2 && r.value.1 <= 2
  {
    match t.nodes[node].parent
    case Failed(e) => Failed(e)
    case Got(p) =>
      match t.nodes[p].addressCells
      case Failed(e) => Failed(e)
      case Got(na) =>
        match t.nodes[p].sizeCells
        case Failed(e) => Failed(e)
        case Got(ns) => if 1 <= na <= 2 && ns <= 2 then Got((na, ns)) else Failed(BadNCells)
  }

  // The full list of a node's ranges. A node without "reg" has none.
  function RegList(t: Tree, node: nat): Lookup<seq<Addr>>
    requires t.WellFormed() && node < |t.nodes|
  {
    match RegCells(t, node)
    case Failed(e) => Failed(e)
    case Got(cells) =>
      match t.Prop(node, "reg")
      case Failed(e) => if e == NotFound then Got([]) else Failed(e)
      case Got(b) => Got(Entries(b, cells.0, cells.1))
  }

  // Reading entry by entry finds the list and then NotFound, so a caller that
  // counts up until NotFound visits the whole list and nothing else.
  method DecodeRegEntry(t: Tree, node: nat, index: int) returns (r: Lookup<Addr>)
    requires t.WellFormed() && node < |t.nodes|
    ensures index < 0 ==> r == Failed(BadValue)
    ensures index >= 0 ==> r == match RegList(t, node)
      case Failed(e) => Failed(e)
      case Got(list) => if index < |list| then Got(list[index]) else Failed(NotFound)
  {
    if index < 0 {
      return Failed(BadValue);
    }
    if t.nodes[node].parent.Failed? {
      return Failed(t.nodes[node].parent.error);
    }
    var parent := t.nodes[node].parent.value;
    if t.nodes[parent].addressCells.Failed? {
      return Failed(t.nodes[parent].addressCells.error);
    }
    var naddr := t.nodes[parent].addressCells.value;
    if t.nodes[parent].sizeCells.Failed? {
      return Failed(t.nodes[parent].sizeCells.error);
    }
    var nsize := t.nodes[parent].sizeCells.value;
    if naddr <= 0 || naddr > 2 || nsize > 2 {
      return Failed(BadNCells);
    }
    var stride := naddr + nsize;
    var reg := t.Prop(node, "reg");
    if reg.Failed? {
      return Failed(reg.error);
    }
    EntryInRange(reg.value, naddr, nsize, index);
    if |reg.value| < (index + 1) * stride * 4 {
      return Failed(NotFound);
    }
    EntryFits(reg.value, naddr, nsize, index);
    // Both cell counts are valid here, so neither read can fail.
    var base := ReadCells(reg.value, index * stride, naddr);
    if nsize == 0 {
      return Got(Addr(base.value, 0));
    }
    var size := ReadCells(reg.value, index * stride + naddr, nsize);
    r := Got(Addr(base.value, size.value));
  }

  // The first arr.Length ranges of the node. The count the caller passes in comes
  // back where the code leaves its out-parameter alone.
  method DecodeRegList(t: Tree, node: nat, arr: array<Addr>, given: nat) returns (err: Code, count: nat)
    requires t.WellFormed() && node < |t.nodes|
    modifies arr
    ensures match RegList(t, node)
      case Failed(e) => err == Err(e) && count == given
      case Got(list) =>
        && count == Min(|list|, arr.Length)
        && arr[..count] == list[..count]
        && err == if |list| > arr.Length then Err(NoSpace) else Success
  {
    if t.nodes[node].parent.Failed? {
      return Err(t.nodes[node].parent.error), given;
    }
    var parent := t.nodes[node].parent.value;
    if t.nodes[parent].addressCells.Failed? {
      return Err(t.nodes[parent].addressCells.error), given;
    }
    var naddr := t.nodes[parent].addressCells.value;
    if t.nodes[parent].sizeCells.Failed? {
      return Err(t.nodes[parent].sizeCells.error), given;
    }
    var nsize := t.nodes[parent].sizeCells.value;
    if naddr <= 0 || naddr > 2 || nsize > 2 {
      return Err(BadNCells), given;
    }
    var reg := t.Prop(node, "reg");
    if reg.Failed? {
      if reg.error == NotFound {
        return Success, 0;
      }
      return Err(reg.error), given;
    }
    var entries := |reg.value| / ((naddr + nsize) * 4);
    var outc := Min(entries, arr.Length);
    ghost var list := RegList(t, node).value;
    var i := 0;
    while i < outc
      invariant 0 <= i <= outc && arr[..i] == list[..i]
    {
      var entry := DecodeRegEntry(t, node, i);
      arr[i] := entry.value;
      i := i + 1;
    }
    count := outc;
    err := if entries > arr.Length then Err(NoSpace) else Success;
  }

  // ---- Collecting ranges over many nodes ----

  function FirstRegs(list: seq<Addr>): seq<Addr> { list[..Min(|list|, MAX_REGS)] }

  // What one node adds: its first eight ranges. Overlong lists are cut, and an
  // error that the caller tolerates adds nothing.
  function Contribution(t: Tree, node: nat, skipNotFound: bool): Lookup<seq<Addr>>
    requires t.WellFormed() && node < |t.nodes|
  {
    match RegList(t, node)
    case Got(list) => Got(FirstRegs(list))
    case Failed(e) => if e == NoSpace || (skipNotFound && e == NotFound) then Got([]) else Failed(e)
  }

  // The unbounded specification: the contributions of the selected nodes, in
  // tree order, or the error of the first node that has one.
  function Gather(t: Tree, select: set<nat>, skipNotFound: bool, upTo: nat): Lookup<seq<Addr>>
    requires t.WellFormed() && upTo <= |t.nodes|
  {
    if upTo == 0 then Got([])
    else
      match Gather(t, select, skipNotFound, upTo - 1)
      case Failed(e) => Failed(e)
      case Got(before) =>
        if upTo - 1 !in select then Got(before)
        else
          match Contribution(t, upTo - 1, skipNotFound)
          case Failed(e) => Failed(e)
          case Got(list) => Got(before + list)
  }

  // A gathering fails exactly when some selected node's contribution does; else
  // it holds exactly the ranges the selected nodes contribute.
  lemma {:induction false} GatherMeaning(t: Tree, select: set<nat>, skipNotFound: bool, upTo: nat)
    requires t.WellFormed() && upTo <= |t.nodes|
    ensures Gather(t, select, skipNotFound, upTo).Failed? <==>
      exists i :: 0 <= i < upTo && i in select && Contribution(t, i, skipNotFound).Failed?
    ensures Gather(t, select, skipNotFound, upTo).Got? ==>
      forall r :: r in Gather(t, select, skipNotFound, upTo).value <==>
        exists i :: 0 <= i < upTo && i in select && r in Contribution(t, i, skipNotFound).value
  {
    if upTo > 0 { GatherMeaning(t, select, skipNotFound, upTo - 1); }
  }

  // A finished gathering begins with what every earlier stage of it held, so the
  // ranges of a selected node follow those of the nodes before it.
  lemma {:induction false} GatherPlaces(t: Tree, select: set<nat>, skipNotFound: bool, node: nat, upTo: nat)
    requires t.WellFormed() && node < upTo <= |t.nodes| && node in select
    requires Gather(t, select, skipNotFound, upTo).Got?
    ensures Gather(t, select, skipNotFound, node).Got? && Contribution(t, node, skipNotFound).Got?
    ensures Gather(t, select, skipNotFound, node).value + Contribution(t, node, skipNotFound).value <=
      Gather(t, select, skipNotFound, upTo).value
  {
    if node < upTo - 1 { GatherPlaces(t, select, skipNotFound, node, upTo - 1); }
  }

  // Every gathered range has a place: entry k of a selected node, behind those of
  // the nodes before it.
  lemma {:induction false} GatheredFrom(t: Tree, select: set<nat>, skipNotFound: bool, upTo: nat, at: nat)
      returns (node: nat, k: nat)
    requires t.WellFormed() && upTo <= |t.nodes| && Gather(t, select, skipNotFound, upTo).Got?
    requires at < |Gather(t, select, skipNotFound, upTo).value|
    ensures node < upTo && node in select && RegList(t, node).Got?
    ensures k < MAX_REGS && k < |RegList(t, node).value|
    ensures Gather(t, select, skipNotFound, node).Got? && at == |Gather(t, select, skipNotFound, node).value| + k
    ensures Gather(t, select, skipNotFound, upTo).value[at] == RegList(t, node).value[k]
  {
    var before := Gather(t, select, skipNotFound, upTo - 1).value;
    if at < |before| {
      node, k := GatheredFrom(t, select, skipNotFound, upTo - 1, at);
    } else {
      node, k := upTo - 1, at - |before|;
    }
  }

  // A gathering that tolerates a missing list never fails for one, nor for want
  // of space.
  lemma {:induction false} GatherErrors(t: Tree, select: set<nat>, upTo: nat)
    requires t.WellFormed() && upTo <= |t.nodes| && Gather(t, select, true, upTo).Failed?
    ensures Gather(t, select, true, upTo).error !in {NotFound, NoSpace}
  {
    if Gather(t, select, true, upTo - 1).Failed? { GatherErrors(t, select, upTo - 1); }
  }

  // Nodes whose device_type is "memory".
  function MemoryNodes(t: Tree): set<nat> {
    set i: nat | i < |t.nodes| && IsMemory(t, i)
  }

  predicate IsMemory(t: Tree, i: nat)
    requires i < |t.nodes|
  {
    var p := t.Prop(i, "device_type");
    p.Got? && CString(p.value) == Ascii("memory")
  }

  function Children(t: Tree, parent: nat): set<nat> {
    set i: nat | i < |t.nodes| && t.nodes[i].parent == Got(parent)
  }

  // Everything dtb_memory_regions and dtb_reserved_memory_regions would return
  // with room for it all.
  function MemoryRanges(fdt: Option<Tree>): Lookup<seq<Addr>>
    requires fdt.Some? ==> fdt.value.WellFormed()
  {
    if fdt.None? then Failed(BadState)
    else Gather(fdt.value, MemoryNodes(fdt.value), false, |fdt.value.nodes|)
  }

  function ReservedRanges(fdt: Option<Tree>): Lookup<seq<Addr>>
    requires fdt.Some? ==> fdt.value.WellFormed()
  {
    if fdt.None? then Failed(BadState)
    else
      match fdt.value.reservedMemory
      case Failed(e) => Failed(e)
      case Got(rmem) => Gather(fdt.value, Children(fdt.value, rmem), true, |fdt.value.nodes|)
  }

  // arr holds the first elements of all, as many as fit.
  ghost predicate HoldsFirst(arr: array<Addr>, all: seq<Addr>)
    reads arr
  {
    arr[..Min(|all|, arr.Length)] == all[..Min(|all|, arr.Length)]
  }

  lemma {:induction false} HoldsFirstNext(before: seq<Addr>, after: seq<Addr>, all: seq<Addr>, x: Addr)
    requires |before| == |after| && before[..Min(|all|, |before|)] == all[..Min(|all|, |before|)]
    requires after == if |all| < |before| then before[|all| := x] else before
    ensures after[..Min(|all| + 1, |after|)] == (all + [x])[..Min(|all| + 1, |after|)]
  {
  }

  method AppendRegs(arr: array<Addr>, n: nat, regs: array<Addr>, count: nat, ghost all: seq<Addr>)
      returns (total: nat)
    requires arr != regs && count <= regs.Length && n == |all| && HoldsFirst(arr, all)
    modifies arr
    ensures total == n + count && HoldsFirst(arr, all + regs[..count])
  {
    total := n;
    ghost var list := regs[..count];
    assert all + list[..0] == all;
    var i := 0;
    while i < count
      invariant i <= count && total == n + i && regs[..count] == list
      invariant HoldsFirst(arr, all + list[..i])
    {
      assert list[i] == regs[i] && list[..i + 1] == list[..i] + [regs[i]];
      assert all + list[..i + 1] == (all + list[..i]) + [regs[i]];
      HoldsFirstNext(arr[..], if total < arr.Length then arr[..][total := regs[i]] else arr[..],
                     all + list[..i], regs[i]);
      if total < arr.Length {
        arr[total] := regs[i];
      }
      total := total + 1;
      i := i + 1;
    }
    assert list[..count] == list;
  }

  // The loop body both collections share, for one node.
  method CollectNode(t: Tree, off: nat, skipNotFound: bool, arr: array<Addr>, n: nat, ghost all: seq<Addr>)
      returns (err: Code, total: nat)
    requires t.WellFormed() && off < |t.nodes| && n == |all| && HoldsFirst(arr, all)
    modifies arr
    ensures match Contribution(t, off, skipNotFound)
      case Failed(e) => err == Err(e)
      case Got(list) => err == Success && total == n + |list| && HoldsFirst(arr, all + list)
  {
    var regs := new Addr[MAX_REGS](_ => Addr(0, 0));
    var ret, regCount := DecodeRegList(t, off, regs, 0);
    if ret != Success && ret != Err(NoSpace) && !(skipNotFound && ret == Err(NotFound)) {
      return ret, n;
    }
    assert Contribution(t, off, skipNotFound) == Got(regs[..regCount]);
    total := AppendRegs(arr, n, regs, regCount, all);
    err := Success;
  }

  ghost predicate HoldsAtMost(arr: array<Addr>, count: nat, all: seq<Addr>)
    reads arr
  {
    count == Min(|all|, arr.Length) && arr[..count] == all[..count]
  }

  lemma {:induction false} GatherStops(t: Tree, select: set<nat>, skipNotFound: bool, i: nat)
    requires t.WellFormed() && i <= |t.nodes| && Gather(t, select, skipNotFound, i).Failed?
    ensures Gather(t, select, skipNotFound, |t.nodes|) == Gather(t, select, skipNotFound, i)
    decreases |t.nodes| - i
  {
    if i < |t.nodes| { GatherStops(t, select, skipNotFound, i + 1); }
  }

  // The outcome of a bounded collection against its unbounded specification:
  // the first ranges that fit, and NoSpace exactly when some do not. An error
  // leaves the count as it was given.
  ghost predicate Collected(spec: Lookup<seq<Addr>>, arr: array<Addr>, err: Code, given: nat, count: nat)
    reads arr
  {
    match spec
    case Failed(e) => err == Err(e) && count == given
    case Got(all) => HoldsAtMost(arr, count, all) && err == if |all| > arr.Length then Err(NoSpace) else Success
  }

  method MemoryRegions(fdt: Option<Tree>, arr: array<Addr>, given: nat) returns (err: Code, count: nat)
    requires fdt.Some? ==> fdt.value.WellFormed()
    modifies arr
    ensures Collected(MemoryRanges(fdt), arr, err, given, count)
  {
    if fdt.None? {
      return Err(BadState), given;
    }
    var t := fdt.value;
    var n := 0;
    ghost var all: seq<Addr> := [];
    var off := 0;
    while off < |t.nodes|
      invariant off <= |t.nodes| && n == |all| && HoldsFirst(arr, all)
      invariant Gather(t, MemoryNodes(t), false, off) == Got(all)
    {
      if IsMemory(t, off) {
        err, n := CollectNode(t, off, false, arr, n, all);
        if err != Success {
          GatherStops(t, MemoryNodes(t), false, off + 1);
          return err, given;
        }
        all := all + Contribution(t, off, false).value;
      }
      off := off + 1;
    }
    count := Min(n, arr.Length);
    err := if n > arr.Length then Err(NoSpace) else Success;
  }

  method ReservedMemoryRegions(fdt: Option<Tree>, arr: array<Addr>, given: nat) returns (err: Code, count: nat)
    requires fdt.Some? ==> fdt.value.WellFormed()
    modifies arr
    ensures Collected(ReservedRanges(fdt), arr, err, given, count)
  {
    if fdt.None? {
      return Err(BadState), given;
    }
    var t := fdt.value;
    if t.reservedMemory.Failed? {
      return Err(t.reservedMemory.error), given;
    }
    var rmem := t.reservedMemory.value;
    var n := 0;
    ghost var all: seq<Addr> := [];
    var sub := 0;
    while sub < |t.nodes|
      invariant sub <= |t.nodes| && n == |all| && HoldsFirst(arr, all)
      invariant Gather(t, Children(t, rmem), true, sub) == Got(all)
    {
      if t.nodes[sub].parent == Got(rmem) {
        err, n := CollectNode(t, sub, true, arr, n, all);
        if err != Success {
          GatherStops(t, Children(t, rmem), true, sub + 1);
          return err, given;
        }
        all := all + Contribution(t, sub, true).value;
      }
      sub := sub + 1;
    }
    count := Min(n, arr.Length);
    err := if n > arr.Length then Err(NoSpace) else Success;
  }
}
