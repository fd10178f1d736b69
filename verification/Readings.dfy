// What the readers of libs/dtb/dtb.c make of the bytes and nodes of a tree: cells,
// "reg" properties, and the nodes the two range collections select.
module Readings {
  import opened Machine
  import opened DeviceTree
  import opened RegDecoder
  import opened RegCodec

  // ---- Cells ----

  // A cell is four bytes, the most significant first.
  lemma {:induction false} CellReads(b: seq<u8>, cell: nat, v: u32)
    requires 4 * cell + 4 <= |b|
    ensures Be32(b, cell) == v <==>
      && b[4 * cell] == v / 0x100_0000 && b[4 * cell + 1] == v / 0x1_0000 % 0x100
      && b[4 * cell + 2] == v / 0x100 % 0x100 && b[4 * cell + 3] == v % 0x100
  {
    var o := 4 * cell;
    BytesDetermined(b[o], b[o + 1], b[o + 2], b[o + 3], v);
  }

  // Two cells make a 64-bit number, one a 32-bit number, and none is zero.
  lemma {:induction false} NumberReads(b: seq<u8>, cell: nat)
    requires 4 * cell + 8 <= |b|
    ensures CellsValue(b, cell, 0) == 0
    ensures CellsValue(b, cell, 1) == Be32(b, cell)
    ensures CellsValue(b, cell, 2) == Be32(b, cell) * 0x1_0000_0000 + Be32(b, cell + 1)
  {
    assert CellsValue(b, cell, 1) == CellsValue(b, cell, 0) * U32_LIMIT + Be32(b, cell);
  }

  // ---- One node's "reg" ----

  // The parent of the node has these cell counts, and the code can use them.
  predicate HasCells(t: Tree, node: nat, na: nat, ns: nat) {
    && node < |t.nodes| && t.nodes[node].parent.Got? && t.nodes[node].parent.value < |t.nodes|
    && t.nodes[t.nodes[node].parent.value].addressCells == Got(na)
    && t.nodes[t.nodes[node].parent.value].sizeCells == Got(ns)
    && 1 <= na <= 2 && ns <= 2
  }

  // With usable cell counts the list holds the whole entries of the property, each
  // an address of na cells followed by a size of ns cells.
  lemma {:induction false} RegReads(t: Tree, node: nat, na: nat, ns: nat, b: seq<u8>)
    requires t.WellFormed() && HasCells(t, node, na, ns) && t.Prop(node, "reg") == Got(b)
    ensures RegList(t, node).Got?
    ensures var list := RegList(t, node).value;
      && |list| * ((na + ns) * 4) <= |b| < (|list| + 1) * ((na + ns) * 4)
      && (forall i: nat :: i < |list| ==> EntryReads(b, na, ns, i, list[i]))
  {
    var list := RegList(t, node).value;
    QuotientAtLeast(|b|, (na + ns) * 4, |list|);
    QuotientAtLeast(|b|, (na + ns) * 4, |list| + 1);
    forall i: nat | i < |list| ensures EntryReads(b, na, ns, i, list[i]) {
      EntryInRange(b, na, ns, i);
      EntryFits(b, na, ns, i);
      EntrySpells(b, na, ns, i, i * (na + ns), list[i]);
    }
  }

  predicate EntryReads(b: seq<u8>, na: nat, ns: nat, i: nat, a: Addr) {
    && 4 * (i * (na + ns) + na + ns) <= |b|
    && a.base == CellsValue(b, i * (na + ns), na) && a.size == CellsValue(b, i * (na + ns) + na, ns)
  }

  // A node without "reg" has an empty list; any other error is passed on.
  lemma {:induction false} NoRegReads(t: Tree, node: nat, na: nat, ns: nat, e: Error)
    requires t.WellFormed() && HasCells(t, node, na, ns) && t.Prop(node, "reg") == Failed(e)
    ensures RegList(t, node) == if e == NotFound then Got([]) else Failed(e)
  {
  }

  // Without usable cell counts there is no list: the error is that of the parent,
  // of its address cells or of its size cells, in this order, or bad cells.
  lemma {:induction false} CellsFail(t: Tree, node: nat)
    requires t.WellFormed() && node < |t.nodes|
    ensures t.nodes[node].parent.Failed? ==> RegList(t, node) == Failed(t.nodes[node].parent.error)
    ensures t.nodes[node].parent.Got? ==>
      var up := t.nodes[t.nodes[node].parent.value];
      && (up.addressCells.Failed? ==> RegList(t, node) == Failed(up.addressCells.error))
      && (up.addressCells.Got? && up.sizeCells.Failed? ==> RegList(t, node) == Failed(up.sizeCells.error))
      && (up.addressCells.Got? && up.sizeCells.Got? ==>
           HasCells(t, node, up.addressCells.value, up.sizeCells.value) || RegList(t, node) == Failed(BadNCells))
  {
  }

  // ---- The nodes that count ----

  // The string at the start of the property is "memory".
  predicate SaysMemory(v: seq<u8>) { [109, 101, 109, 111, 114, 121] <= v && (|v| > 6 ==> v[6] == 0) }

  lemma {:induction false} MemoryNodesExactly(t: Tree, i: nat)
    ensures i in MemoryNodes(t) <==>
      i < |t.nodes| && t.Prop(i, "device_type").Got? && SaysMemory(t.Prop(i, "device_type").value)
  {
    if i < |t.nodes| && t.Prop(i, "device_type").Got? { MemoryInBytes(t.Prop(i, "device_type").value); }
  }

  lemma {:induction false} MemoryInBytes(v: seq<u8>)
    ensures CString(v) == Ascii("memory") <==> SaysMemory(v)
  {
    var s, name := CString(v), [109, 101, 109, 111, 114, 121];
    assert Ascii("memory") == name;
    if SaysMemory(v) {
      forall i | 0 <= i < 6 ensures v[i] == name[i] != 0 {
        assert v[..6] == name;
        assert v[i] == v[..6][i];
      }
    }
  }

  // Every subnode of a node, and nothing else.
  lemma {:induction false} ChildrenExactly(t: Tree, parent: nat, i: nat)
    ensures i in Children(t, parent) <==> i < |t.nodes| && t.nodes[i].parent == Got(parent)
  {
  }
}
