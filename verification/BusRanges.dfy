// Address translation through a bus node's "ranges" property
// (Devicetree Specification v0.4, section 2.3.8).
module BusRanges {
  import opened Machine
  import opened DeviceTree
  import opened RegDecoder
  import opened RegCodec

  datatype Window = Window(child: u64, parent: u64, size: u64) {
    // The test the code makes; the end of the window is a 64-bit sum.
    predicate Hit(a: u64) { child <= a < Add(child, size) }

    function Target(a: u64): u64
      requires Hit(a)
    {
      Add(parent, a - child)
    }
  }

  datatype Layout = Layout(child: nat, parent: nat, size: nat) {
    predicate Valid() { 1 <= child <= 2 && 1 <= parent <= 2 && 1 <= size <= 2 }

    function Stride(): nat { child + parent + size }
  }

  function WindowCount(b: seq<u8>, l: Layout): nat
    requires l.Valid()
  {
    |b| / (l.Stride() * 4)
  }

  lemma {:induction false} WindowFits(b: seq<u8>, l: Layout, i: nat)
    requires l.Valid() && i < WindowCount(b, l)
    ensures 4 * (i * l.Stride() + l.child + l.parent + l.size) <= |b|
  {
    QuotientAtLeast(|b|, l.Stride() * 4, i + 1);
    assert (i + 1) * (l.Stride() * 4) == 4 * (i * l.Stride() + l.Stride());
  }

  function WindowAt(b: seq<u8>, l: Layout, i: nat): Window
    requires l.Valid() && i < WindowCount(b, l)
  {
    WindowFits(b, l, i);
    TwoCells(l.child);
    TwoCells(l.parent);
    TwoCells(l.size);
    var c := i * l.Stride();
    Window(CellsValue(b, c, l.child), CellsValue(b, c + l.child, l.parent),
           CellsValue(b, c + l.child + l.parent, l.size))
  }

  function Windows(b: seq<u8>, l: Layout): (r: seq<Window>)
    requires l.Valid()
    ensures |r| == WindowCount(b, l)
  {
    seq(WindowCount(b, l), i requires 0 <= i < WindowCount(b, l) => WindowAt(b, l, i))
  }

  function EncodeWindow(w: Window, l: Layout): (r: seq<u8>)
    ensures |r| == l.Stride() * 4
  {
    EncodeCells(w.child, l.child) + EncodeCells(w.parent, l.parent) + EncodeCells(w.size, l.size)
  }

  predicate FitsLayout(w: Window, l: Layout) {
    w.child < Power32(l.child) && w.parent < Power32(l.parent) && w.size < Power32(l.size)
  }

  // The bytes of entry i hold a window iff they are its encoding, for every
  // layout; as many entries are read as fit the property whole.
  lemma {:induction false} WindowRoundTrip(b: seq<u8>, l: Layout, i: nat, w: Window)
    requires l.Valid() && FitsLayout(w, l)
    ensures i < |Windows(b, l)| <==> (i + 1) * (4 * l.Stride()) <= |b|
    ensures i < |Windows(b, l)| ==>
      (Windows(b, l)[i] == w <==> b[i * (4 * l.Stride())..i * (4 * l.Stride()) + 4 * l.Stride()] == EncodeWindow(w, l))
  {
    QuotientAtLeast(|b|, l.Stride() * 4, i + 1);
    if i < |Windows(b, l)| {
      WindowFits(b, l, i);
      FourTimes(i, l.Stride());
      WindowSpells(b, l, i, i * l.Stride(), w);
    }
  }

  lemma {:induction false} FourTimes(i: nat, k: nat)
    ensures i * (4 * k) == 4 * (i * k)
  {
  }

  lemma {:induction false} WindowSpells(b: seq<u8>, l: Layout, i: nat, c: nat, w: Window)
    requires l.Valid() && FitsLayout(w, l) && i < WindowCount(b, l)
    requires c == i * l.Stride() && 4 * (c + l.Stride()) <= |b|
    ensures WindowAt(b, l, i) == w <==> b[4 * c..4 * c + 4 * l.Stride()] == EncodeWindow(w, l)
  {
    var p, s, e := c + l.child, c + l.child + l.parent, c + l.Stride();
    TripleRoundTrip(b, c, p, s, e, w, l);
    WindowIs(b, l, i, c, p, s, w);
    assert b[4 * c..4 * c + 4 * l.Stride()] == b[4 * c..4 * e];
  }

  lemma {:induction false} WindowIs(b: seq<u8>, l: Layout, i: nat, c: nat, p: nat, s: nat, w: Window)
    requires l.Valid() && i < WindowCount(b, l)
    requires c == i * l.Stride() && p == c + l.child && s == p + l.parent && 4 * (s + l.size) <= |b|
    ensures WindowAt(b, l, i) == w <==>
      && CellsValue(b, c, l.child) == w.child && CellsValue(b, p, l.parent) == w.parent
      && CellsValue(b, s, l.size) == w.size
  {
  }

  // Three runs of cells, from c, p and s on, hold the encoding iff they spell
  // the three numbers.
  lemma {:induction false} TripleRoundTrip(b: seq<u8>, c: nat, p: nat, s: nat, e: nat, w: Window, l: Layout)
    requires p == c + l.child && s == p + l.parent && e == s + l.size && 4 * e <= |b| && FitsLayout(w, l)
    ensures b[4 * c..4 * e] == EncodeWindow(w, l) <==>
      && CellsValue(b, c, l.child) == w.child && CellsValue(b, p, l.parent) == w.parent
      && CellsValue(b, s, l.size) == w.size
  {
    var x, y, z := EncodeCells(w.child, l.child), EncodeCells(w.parent, l.parent), EncodeCells(w.size, l.size);
    CellsRoundTrip(b, c, l.child, w.child);
    CellsRoundTrip(b, p, l.parent, w.parent);
    CellsRoundTrip(b, s, l.size, w.size);
    ThreeParts(b, 4 * c, 4 * p, 4 * s, 4 * e, x, y, z);
  }

  lemma {:induction false} ThreeParts(b: seq<u8>, c: nat, p: nat, s: nat, e: nat, x: seq<u8>, y: seq<u8>, z: seq<u8>)
    requires c <= p <= s <= e <= |b| && |x| == p - c && |y| == s - p && |z| == e - s
    ensures b[c..e] == x + y + z <==> b[c..p] == x && b[p..s] == y && b[s..e] == z
  {
    SliceSplit(b, c, s, e);
    SliceSplit(b, c, p, s);
    ConcatParts(b[c..s], b[s..e], x + y, z);
    ConcatParts(b[c..p], b[p..s], x, y);
  }

  // The first window that is hit decides.
  function Translate(ws: seq<Window>, a: u64): Lookup<u64> {
    if ws == [] then Failed(NotFound)
    else if ws[0].Hit(a) then Got(ws[0].Target(a))
    else Translate(ws[1..], a)
  }

  // The cell counts in force at a bus node.
  function RangesLayout(t: Tree, node: nat): (r: Lookup<Layout>)
    requires t.WellFormed() && node < |t.nodes|
    ensures r.Got? ==> r.value.Valid()
  {
    match t.nodes[node].parent
    case Failed(e) => Failed(e)
    case Got(p) =>
      match t.nodes[node].addressCells
      case Failed(e) => Failed(e)
      case Got(cc) =>
        match t.nodes[p].addressCells
        case Failed(e) => Failed(e)
        case Got(pc) =>
          match t.nodes[node].sizeCells
          case Failed(e) => Failed(e)
          case Got(sc) => if Layout(cc, pc, sc).Valid() then Got(Layout(cc, pc, sc)) else Failed(BadNCells)
  }

  // A bus without "ranges", or with an empty one, maps addresses to themselves.
  function Translation(t: Tree, node: nat, a: u64): Lookup<u64>
    requires t.WellFormed() && node < |t.nodes|
  {
    match RangesLayout(t, node)
    case Failed(e) => Failed(e)
    case Got(l) =>
      match t.Prop(node, "ranges")
      case Failed(e) => if e == NotFound then Got(a) else Failed(e)
      case Got(b) => if b == [] then Got(a) else Translate(Windows(b, l), a)
  }

  method TranslateRanges(fdt: Option<Tree>, node: nat, childAddr: u64) returns (r: Lookup<u64>)
    requires fdt.Some? ==> fdt.value.WellFormed() && node < |fdt.value.nodes|
    ensures r == if fdt.None? then Failed(BadState) else Translation(fdt.value, node, childAddr)
  {
    if fdt.None? {
      return Failed(BadState);
    }
    var t := fdt.value;
    if t.nodes[node].parent.Failed? {
      return Failed(t.nodes[node].parent.error);
    }
    var parent := t.nodes[node].parent.value;
    if t.nodes[node].addressCells.Failed? {
      return Failed(t.nodes[node].addressCells.error);
    }
    if t.nodes[parent].addressCells.Failed? {
      return Failed(t.nodes[parent].addressCells.error);
    }
    if t.nodes[node].sizeCells.Failed? {
      return Failed(t.nodes[node].sizeCells.error);
    }
    var l := Layout(t.nodes[node].addressCells.value, t.nodes[parent].addressCells.value,
                    t.nodes[node].sizeCells.value);
    if !l.Valid() {
      return Failed(BadNCells);
    }
    var ranges := t.Prop(node, "ranges");
    if ranges.Failed? {
      return if ranges.error == NotFound then Got(childAddr) else Failed(ranges.error);
    }
    if |ranges.value| == 0 {
      return Got(childAddr);
    }
    r := SearchWindows(ranges.value, l, childAddr);
  }

  // The layout is valid, so none of the three reads can fail.
  method ReadWindow(b: seq<u8>, l: Layout, i: nat) returns (w: Window)
    requires l.Valid() && i < WindowCount(b, l)
    ensures w == WindowAt(b, l, i)
  {
    WindowFits(b, l, i);
    var entry := i * l.Stride();
    var cbase := ReadCells(b, entry, l.child);
    var pbase := ReadCells(b, entry + l.child, l.parent);
    var sz := ReadCells(b, entry + l.child + l.parent, l.size);
    w := Window(cbase.value, pbase.value, sz.value);
  }

  ghost function TranslateFrom(ws: seq<Window>, a: u64, i: nat): Lookup<u64>
    requires i <= |ws|
  {
    Translate(ws[i..], a)
  }

  lemma {:induction false} TranslateTurn(ws: seq<Window>, a: u64, i: nat)
    requires i < |ws|
    ensures TranslateFrom(ws, a, i) ==
      if ws[i].Hit(a) then Got(ws[i].Target(a)) else TranslateFrom(ws, a, i + 1)
  {
    assert ws[i..][0] == ws[i] && ws[i..][1..] == ws[i + 1..];
  }

  // The loop over the windows of a non-empty property.
  method SearchWindows(b: seq<u8>, l: Layout, childAddr: u64) returns (r: Lookup<u64>)
    requires l.Valid()
    ensures r == Translate(Windows(b, l), childAddr)
  {
    ghost var ws := Windows(b, l);
    assert ws[0..] == ws;
    var entries := |b| / (l.Stride() * 4);
    var i := 0;
    while i < entries
      invariant 0 <= i <= entries == |ws|
      invariant Translate(ws, childAddr) == TranslateFrom(ws, childAddr, i)
    {
      var w := ReadWindow(b, l, i);
      TranslateTurn(ws, childAddr, i);
      if childAddr >= w.child && childAddr < Add(w.child, w.size) {
        var off := childAddr - w.child;
        return Got(Add(w.parent, off));
      }
      i := i + 1;
    }
    r := Failed(NotFound);
  }

  // ---- What a bus node says ----

  // Child and parent of the bus have these cell counts.
  predicate BusCells(t: Tree, node: nat, l: Layout) {
    && node < |t.nodes| && t.nodes[node].parent.Got? && t.nodes[node].parent.value < |t.nodes|
    && t.nodes[node].addressCells == Got(l.child) && t.nodes[node].sizeCells == Got(l.size)
    && t.nodes[t.nodes[node].parent.value].addressCells == Got(l.parent)
  }

  // A bus with usable cell counts maps addresses to themselves when it has no
  // "ranges" or an empty one, and through its windows otherwise.
  lemma {:induction false} TranslationReads(t: Tree, node: nat, l: Layout, a: u64)
    requires t.WellFormed() && BusCells(t, node, l) && l.Valid()
    ensures match t.Prop(node, "ranges")
      case Failed(e) => Translation(t, node, a) == if e == NotFound then Got(a) else Failed(e)
      case Got(b) =>
        if |b| == 0 then Translation(t, node, a) == Got(a)
        else if Untouched(Windows(b, l), a) then Translation(t, node, a) == Failed(NotFound)
        else
          exists i: nat :: FirstHit(Windows(b, l), a, i) && Translation(t, node, a) == Got(Moved(Windows(b, l)[i], a))
  {
    var ranges := t.Prop(node, "ranges");
    if ranges.Got? && |ranges.value| > 0 {
      var ws := Windows(ranges.value, l);
      TranslateUsesFirstHit(ws, a);
      if i: nat :| FirstHit(ws, a, i) && Translate(ws, a) == Got(ws[i].Target(a)) { TargetIsMoved(ws[i], a); }
    }
  }

  // Where a window puts a bus address, modulo 2^64.
  function Moved(w: Window, a: u64): u64 { (w.parent - w.child + a) % 0x1_0000_0000_0000_0000 }

  lemma {:induction false} TargetIsMoved(w: Window, a: u64)
    requires w.Hit(a)
    ensures w.Target(a) == Moved(w, a)
  {
    RoundingByPages(w.parent, a - w.child);
  }

  predicate Untouched(ws: seq<Window>, a: u64) { forall i :: 0 <= i < |ws| ==> !ws[i].Hit(a) }

  // Without usable cell counts there is no translation: the first count that
  // cannot be read gives its error, counts out of range give a bad-cells error.
  lemma {:induction false} TranslationFails(t: Tree, node: nat, a: u64)
    requires t.WellFormed() && node < |t.nodes|
    ensures var bus := t.nodes[node];
      && (bus.parent.Failed? ==> Translation(t, node, a) == Failed(bus.parent.error))
      && (bus.parent.Got? ==>
           var up := t.nodes[bus.parent.value];
           && (bus.addressCells.Failed? ==> Translation(t, node, a) == Failed(bus.addressCells.error))
           && (bus.addressCells.Got? && up.addressCells.Failed? ==>
                Translation(t, node, a) == Failed(up.addressCells.error))
           && (bus.addressCells.Got? && up.addressCells.Got? && bus.sizeCells.Failed? ==>
                Translation(t, node, a) == Failed(bus.sizeCells.error)))
    ensures forall l :: BusCells(t, node, l) && !l.Valid() ==> Translation(t, node, a) == Failed(BadNCells)
  {
  }

  // ---- Properties ----

  predicate FirstHit(ws: seq<Window>, a: u64, i: nat) {
    i < |ws| && ws[i].Hit(a) && forall k :: 0 <= k < i ==> !ws[k].Hit(a)
  }

  // The result comes from the first window hit, and keeps the offset into it.
  lemma {:induction false} TranslateUsesFirstHit(ws: seq<Window>, a: u64)
    ensures Translate(ws, a).Failed? <==> forall i :: 0 <= i < |ws| ==> !ws[i].Hit(a)
    ensures Translate(ws, a).Failed? ==> Translate(ws, a).error == NotFound
    ensures Translate(ws, a).Got? ==>
      exists i: nat :: FirstHit(ws, a, i) && Translate(ws, a).value == ws[i].Target(a)
  {
    if ws != [] {
      if ws[0].Hit(a) {
        assert FirstHit(ws, a, 0);
      } else {
        var rest := ws[1..];
        TranslateUsesFirstHit(rest, a);
        assert forall i :: 0 < i < |ws| ==> ws[i] == rest[i - 1];
        if Translate(rest, a).Got? {
          var i: nat :| FirstHit(rest, a, i) && Translate(rest, a).value == rest[i].Target(a);
          assert FirstHit(ws, a, i + 1);
        }
      }
    }
  }

  predicate ParentsDisjoint(ws: seq<Window>) {
    && (forall i :: 0 <= i < |ws| ==> ws[i].parent + ws[i].size <= U64_LIMIT)
    && (forall i, j :: 0 <= i < j < |ws| ==>
         ws[i].parent + ws[i].size <= ws[j].parent || ws[j].parent + ws[j].size <= ws[i].parent)
  }

  lemma {:induction false} TargetInside(w: Window, a: u64)
    requires w.Hit(a) && w.parent + w.size <= U64_LIMIT
    ensures a < w.child + w.size
    ensures w.Target(a) == w.parent + (a - w.child)
  {
  }

  // With disjoint parent sides no two bus addresses share a CPU address, even
  // if child sides overlap.
  lemma {:induction false} TranslateInjective(ws: seq<Window>, a: u64, b: u64)
    requires ParentsDisjoint(ws) && a != b
    requires Translate(ws, a).Got? && Translate(ws, b).Got?
    ensures Translate(ws, a) != Translate(ws, b)
  {
    TranslateUsesFirstHit(ws, a);
    TranslateUsesFirstHit(ws, b);
    var i: nat :| FirstHit(ws, a, i) && Translate(ws, a).value == ws[i].Target(a);
    var j: nat :| FirstHit(ws, b, j) && Translate(ws, b).value == ws[j].Target(b);
    TargetInside(ws[i], a);
    TargetInside(ws[j], b);
  }

  // A window serves all of its addresses unless it reaches the top of the
  // 64-bit space: then its end wraps and the code never uses it.
  lemma {:induction false} WindowServedUnlessAtTop(w: Window)
    ensures (forall a: u64 :: w.child <= a < w.child + w.size ==> w.Hit(a)) <==>
      (w.size == 0 || w.child + w.size < U64_LIMIT)
    ensures w.child + w.size >= U64_LIMIT ==> forall a: u64 :: !w.Hit(a)
  {
    if w.size > 0 && w.child + w.size >= U64_LIMIT {
      assert !w.Hit(w.child);
    }
  }

  // ---- A window no address gets through ----

  lemma {:induction false} OneWindow(b: seq<u8>, w: Window, l: Layout)
    requires l == Layout(2, 2, 2) && b == EncodeWindow(w, l)
    ensures Windows(b, l) == [w]
  {
    assert Power32(1) == U32_LIMIT && Power32(2) == U64_LIMIT;
    assert |b| == 24;
    assert b[0..24] == b;
    WindowRoundTrip(b, l, 0, w);
  }

  // The root and a bus below it with a single window.
  function BusTree(w: Window): (t: Tree)
    ensures t.WellFormed()
  {
    Tree([Node(Failed(NotFound), Got(2), Got(2), map[]),
          Node(Got(0), Got(2), Got(2), map["ranges" := Got(EncodeWindow(w, Layout(2, 2, 2)))])],
         1, 0, Failed(NotFound), Failed(NotFound), Failed(NotFound))
  }

  // The bus describes the address, but its window ends at or beyond the top of
  // the 64-bit space: the address is not found.
  lemma {:induction false} TopWindowUnserved(w: Window, a: u64)
    requires w.child <= a < w.child + w.size && w.child + w.size >= U64_LIMIT
    ensures Translation(BusTree(w), 1, a) == Failed(NotFound)
  {
    var l := Layout(2, 2, 2);
    var b := EncodeWindow(w, l);
    WindowServedUnlessAtTop(w);
    OneWindow(b, w, l);
    assert Translate([w], a) == Translate([w][1..], a) && [w][1..] == [];
    assert RangesLayout(BusTree(w), 1) == Got(l) && BusTree(w).Prop(1, "ranges") == Got(b);
  }
}
