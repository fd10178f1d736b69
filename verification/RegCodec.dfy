// The encoder the Devicetree Specification v0.4 defines for "reg" (sections
// 2.2.4 and 2.3.6), and that the decoder of RegDecoder inverts it both ways.
module RegCodec {
  import opened Machine
  import opened DeviceTree
  import opened RegDecoder

  function EncodeBe32(v: u32): (r: seq<u8>)
    ensures |r| == 4
  {
    [v / 0x100_0000, v / 0x1_0000 % 0x100, v / 0x100 % 0x100, v % 0x100]
  }

  // v as count big-endian cells.
  function EncodeCells(v: int, count: nat): (r: seq<u8>)
    requires 0 <= v
    ensures |r| == 4 * count
  {
    if count == 0 then [] else EncodeCells(v / U32_LIMIT, count - 1) + EncodeBe32(v % U32_LIMIT)
  }

  predicate Fits(a: Addr, na: nat, ns: nat) { a.base < Power32(na) && a.size < Power32(ns) }

  function EncodeEntry(a: Addr, na: nat, ns: nat): (r: seq<u8>)
    ensures |r| == (na + ns) * 4
  {
    EncodeCells(a.base, na) + EncodeCells(a.size, ns)
  }

  function EncodeReg(list: seq<Addr>, na: nat, ns: nat): seq<u8> {
    if list == [] then [] else EncodeReg(list[..|list| - 1], na, ns) + EncodeEntry(list[|list| - 1], na, ns)
  }

  lemma {:induction false} Be32RoundTrip(b: seq<u8>, cell: nat, v: u32)
    requires 4 * cell + 4 <= |b|
    ensures b[4 * cell..4 * cell + 4] == EncodeBe32(v) <==> Be32(b, cell) == v
  {
    var s := b[4 * cell..4 * cell + 4];
    assert s == [b[4 * cell], b[4 * cell + 1], b[4 * cell + 2], b[4 * cell + 3]];
    BytesDetermined(s[0], s[1], s[2], s[3], v);
    var e := EncodeBe32(v);
    assert s == e <==> s[0] == e[0] && s[1] == e[1] && s[2] == e[2] && s[3] == e[3];
  }

  lemma {:induction false} HalvesDetermined(hi: int, lo: int, v: int)
    requires 0 <= lo < 0x1_0000
    ensures hi * 0x1_0000 + lo == v <==> hi == v / 0x1_0000 && lo == v % 0x1_0000
  {
  }

  lemma {:induction false} PairDetermined(hi: u8, lo: u8, v: int)
    ensures hi as int * 0x100 + lo as int == v <==> hi == v / 0x100 && lo == v % 0x100
  {
  }

  lemma {:induction false} NestedDivisions(v: int)
    ensures v / 0x1_0000 / 0x100 == v / 0x100_0000
  {
  }

  lemma {:induction false} NestedRemainders(v: int)
    ensures v % 0x1_0000 / 0x100 == v / 0x100 % 0x100
    ensures v % 0x1_0000 % 0x100 == v % 0x100
  {
  }

  lemma {:induction false} BytesDetermined(b0: u8, b1: u8, b2: u8, b3: u8, v: u32)
    ensures b0 as int * 0x100_0000 + b1 as int * 0x1_0000 + b2 as int * 0x100 + b3 as int == v <==>
      b0 == v / 0x100_0000 && b1 == v / 0x1_0000 % 0x100 && b2 == v / 0x100 % 0x100 && b3 == v % 0x100
  {
    HalvesDetermined(b0 as int * 0x100 + b1 as int, b2 as int * 0x100 + b3 as int, v);
    PairDetermined(b0, b1, v / 0x1_0000);
    PairDetermined(b2, b3, v % 0x1_0000);
    NestedDivisions(v);
    NestedRemainders(v);
  }

  // The last cell of a run.
  lemma {:induction false} LastCell(b: seq<u8>, cell: nat, count: nat, v: int)
    requires count > 0 && 4 * (cell + count) <= |b| && 0 <= v < Power32(count)
    ensures var c := cell + count - 1;
      && 0 <= v / U32_LIMIT < Power32(count - 1)
      && b[4 * cell..4 * (cell + count)] == b[4 * cell..4 * c] + b[4 * c..4 * c + 4]
      && EncodeCells(v, count) == EncodeCells(v / U32_LIMIT, count - 1) + EncodeBe32(v % U32_LIMIT)
      && (CellsValue(b, cell, count) == v <==>
           CellsValue(b, cell, count - 1) == v / U32_LIMIT && Be32(b, c) == v % U32_LIMIT)
  {
    var c := cell + count - 1;
    CellSplit(CellsValue(b, cell, count - 1), Be32(b, c), v, Power32(count - 1));
    SliceSplit(b, 4 * cell, 4 * c, 4 * (cell + count));
  }

  // A run of cells holds the encoding of v iff it spells v.
  lemma {:induction false} CellsRoundTrip(b: seq<u8>, cell: nat, count: nat, v: int)
    requires 4 * (cell + count) <= |b| && 0 <= v < Power32(count)
    ensures b[4 * cell..4 * (cell + count)] == EncodeCells(v, count) <==> CellsValue(b, cell, count) == v
  {
    if count == 0 {
      assert b[4 * cell..4 * cell] == [];
    } else {
      var c := cell + count - 1;
      LastCell(b, cell, count, v);
      CellsRoundTrip(b, cell, count - 1, v / U32_LIMIT);
      Be32RoundTrip(b, c, v % U32_LIMIT);
      ConcatParts(b[4 * cell..4 * c], b[4 * c..4 * c + 4],
                  EncodeCells(v / U32_LIMIT, count - 1), EncodeBe32(v % U32_LIMIT));
    }
  }

  lemma {:induction false} SliceSplit(b: seq<u8>, lo: nat, mid: nat, hi: nat)
    requires lo <= mid <= hi <= |b|
    ensures b[lo..hi] == b[lo..mid] + b[mid..hi]
  {
  }

  lemma {:induction false} CellSplit(hi: int, lo: u32, v: int, p: int)
    requires 0 <= v < U32_LIMIT * p
    ensures hi * U32_LIMIT + lo == v <==> hi == v / U32_LIMIT && lo == v % U32_LIMIT
    ensures 0 <= v / U32_LIMIT < p
  {
  }

  lemma {:induction false} ConcatParts(a: seq<u8>, b: seq<u8>, c: seq<u8>, d: seq<u8>)
    requires |a| == |c|
    ensures a + b == c + d <==> a == c && b == d
  {
    if a + b == c + d {
      assert (a + b)[..|a|] == a && (c + d)[..|c|] == c;
      assert (a + b)[|a|..] == b && (c + d)[|c|..] == d;
    }
  }

  // Where entry i lies in the property.
  function EntryBytes(b: seq<u8>, na: nat, ns: nat, i: nat): seq<u8>
    requires (i + 1) * (na + ns) * 4 <= |b|
  {
    EntryFits(b, na, ns, i);
    b[4 * (i * (na + ns))..4 * (i * (na + ns) + na + ns)]
  }

  // The entry's cells, from cell c on.
  lemma {:induction false} EntryBytesSplit(b: seq<u8>, na: nat, ns: nat, i: nat, c: nat)
    requires (i + 1) * (na + ns) * 4 <= |b| && c == i * (na + ns) && 4 * (c + na + ns) <= |b|
    ensures EntryBytes(b, na, ns, i) == b[4 * c..4 * (c + na)] + b[4 * (c + na)..4 * (c + na + ns)]
  {
    SliceSplit(b, 4 * c, 4 * (c + na), 4 * (c + na + ns));
  }

  // Two runs of cells hold two encodings iff they spell the two numbers.
  lemma {:induction false} PairRoundTrip(b: seq<u8>, c: nat, na: nat, ns: nat, base: int, size: int)
    requires 4 * (c + na + ns) <= |b| && 0 <= base < Power32(na) && 0 <= size < Power32(ns)
    ensures
      (b[4 * c..4 * (c + na)] + b[4 * (c + na)..4 * (c + na + ns)] ==
       EncodeCells(base, na) + EncodeCells(size, ns)) <==>
      CellsValue(b, c, na) == base && CellsValue(b, c + na, ns) == size
  {
    CellsRoundTrip(b, c, na, base);
    CellsRoundTrip(b, c + na, ns, size);
    ConcatParts(b[4 * c..4 * (c + na)], b[4 * (c + na)..4 * (c + na + ns)],
                EncodeCells(base, na), EncodeCells(size, ns));
  }

  lemma {:induction false} EntrySpells(b: seq<u8>, na: nat, ns: nat, i: nat, c: nat, a: Addr)
    requires 1 <= na <= 2 && ns <= 2 && (i + 1) * (na + ns) * 4 <= |b|
    requires c == i * (na + ns) && 4 * (c + na + ns) <= |b|
    ensures EntryAt(b, na, ns, i) == a <==> CellsValue(b, c, na) == a.base && CellsValue(b, c + na, ns) == a.size
  {
  }

  lemma {:induction false} EntryRoundTrip(b: seq<u8>, na: nat, ns: nat, i: nat, a: Addr)
    requires 1 <= na <= 2 && ns <= 2 && (i + 1) * (na + ns) * 4 <= |b| && Fits(a, na, ns)
    ensures EntryBytes(b, na, ns, i) == EncodeEntry(a, na, ns) <==> EntryAt(b, na, ns, i) == a
  {
    EntryFits(b, na, ns, i);
    CellsRoundTripAt(b, na, ns, i, i * (na + ns), a);
  }

  lemma {:induction false} CellsRoundTripAt(b: seq<u8>, na: nat, ns: nat, i: nat, c: nat, a: Addr)
    requires 1 <= na <= 2 && ns <= 2 && (i + 1) * (na + ns) * 4 <= |b| && Fits(a, na, ns)
    requires c == i * (na + ns) && 4 * (c + na + ns) <= |b|
    ensures EntryBytes(b, na, ns, i) == EncodeEntry(a, na, ns) <==> EntryAt(b, na, ns, i) == a
  {
    EntryBytesSplit(b, na, ns, i, c);
    EntrySpells(b, na, ns, i, c, a);
    PairRoundTrip(b, c, na, ns, a.base, a.size);
  }

  lemma {:induction false} EncodeRegLength(list: seq<Addr>, na: nat, ns: nat)
    ensures |EncodeReg(list, na, ns)| == |list| * ((na + ns) * 4)
  {
    if list != [] {
      EncodeRegLength(list[..|list| - 1], na, ns);
      assert |list| * ((na + ns) * 4) == (|list| - 1) * ((na + ns) * 4) + (na + ns) * 4;
    }
  }

  lemma {:induction false} Product(i: nat, k: nat)
    ensures 4 * (i * k) == i * (k * 4) && (i + 1) * k * 4 == i * (k * 4) + k * 4
    ensures 4 * (i * k + k) == (i + 1) * k * 4
  {
    assert (i + 1) * k == i * k + k;
    assert i * (k * 4) == i * k * 4;
  }

  lemma {:induction false} EncodeRegLast(list: seq<Addr>, na: nat, ns: nat, tail: seq<u8>)
    requires list != []
    ensures EncodeReg(list, na, ns) + tail ==
      EncodeReg(list[..|list| - 1], na, ns) + (EncodeEntry(list[|list| - 1], na, ns) + tail)
  {
    var e, last := EncodeReg(list[..|list| - 1], na, ns), EncodeEntry(list[|list| - 1], na, ns);
    assert (e + last) + tail == e + (last + tail);
  }

  lemma {:induction false} EntryBytesAt(b: seq<u8>, e: seq<u8>, x: seq<u8>, rest: seq<u8>, na: nat, ns: nat, i: nat)
    requires b == e + (x + rest) && |e| == i * ((na + ns) * 4) && |x| == (na + ns) * 4
    ensures (i + 1) * (na + ns) * 4 <= |b| && EntryBytes(b, na, ns, i) == x
  {
    Product(i, na + ns);
    assert b[|e|..|e| + |x|] == x;
  }

  lemma {:induction false} EncodeRegEntry(list: seq<Addr>, na: nat, ns: nat, tail: seq<u8>, i: nat)
    requires i < |list|
    ensures var b := EncodeReg(list, na, ns) + tail;
      (i + 1) * (na + ns) * 4 <= |b| && EntryBytes(b, na, ns, i) == EncodeEntry(list[i], na, ns)
    decreases |list|
  {
    var init, last := list[..|list| - 1], EncodeEntry(list[|list| - 1], na, ns);
    EncodeRegLast(list, na, ns, tail);
    if i < |list| - 1 {
      EncodeRegEntry(init, na, ns, last + tail, i);
    } else {
      EncodeRegLength(init, na, ns);
      EntryBytesAt(EncodeReg(list, na, ns) + tail, EncodeReg(init, na, ns), last, tail, na, ns, i);
    }
  }

  // Decoding an encoded list gives the list back, whatever shorter-than-an-entry
  // rest follows it.
  lemma {:induction false} DecodeEncode(list: seq<Addr>, na: nat, ns: nat, tail: seq<u8>)
    requires 1 <= na <= 2 && ns <= 2 && |tail| < (na + ns) * 4
    requires forall i :: 0 <= i < |list| ==> Fits(list[i], na, ns)
    ensures Entries(EncodeReg(list, na, ns) + tail, na, ns) == list
  {
    var b := EncodeReg(list, na, ns) + tail;
    EncodeRegLength(list, na, ns);
    var w := (na + ns) * 4;
    QuotientAtLeast(|b|, w, |list|);
    QuotientAtLeast(|b|, w, |list| + 1);
    assert (|list| + 1) * w == |list| * w + w;
    forall i | 0 <= i < |list| ensures Entries(b, na, ns)[i] == list[i] {
      EncodeRegEntry(list, na, ns, tail, i);
      EntryRoundTrip(b, na, ns, i, list[i]);
    }
  }

  // Encoding what was decoded gives back the whole entries of the property, so
  // decoding loses nothing but a partial entry at the end.
  lemma {:induction false} EncodeDecode(b: seq<u8>, na: nat, ns: nat)
    requires 1 <= na <= 2 && ns <= 2
    ensures EncodeReg(Entries(b, na, ns), na, ns) <= b
    ensures |b| - |EncodeReg(Entries(b, na, ns), na, ns)| < (na + ns) * 4
  {
    var list := Entries(b, na, ns);
    EncodePrefix(b, na, ns, |list|);
    assert list[..|list|] == list;
    RestIsShort(b, na, ns);
  }

  lemma {:induction false} RestIsShort(b: seq<u8>, na: nat, ns: nat)
    requires 1 <= na <= 2 && ns <= 2
    ensures |b| - |EncodeReg(Entries(b, na, ns), na, ns)| < (na + ns) * 4
  {
    var n := EntryCount(b, na, ns);
    EncodeRegLength(Entries(b, na, ns), na, ns);
    EntryInRange(b, na, ns, n);
    Product(n, na + ns);
  }

  lemma {:induction false} EncodeEntryAt(b: seq<u8>, na: nat, ns: nat, i: nat)
    requires 1 <= na <= 2 && ns <= 2 && i < EntryCount(b, na, ns)
    ensures i * ((na + ns) * 4) + (na + ns) * 4 <= |b|
    ensures EncodeEntry(Entries(b, na, ns)[i], na, ns) ==
      b[i * ((na + ns) * 4)..i * ((na + ns) * 4) + (na + ns) * 4]
  {
    EntryInRange(b, na, ns, i);
    Product(i, na + ns);
    EntryFits(b, na, ns, i);
    TwoCells(na);
    TwoCells(ns);
    EntryRoundTrip(b, na, ns, i, EntryAt(b, na, ns, i));
  }

  lemma {:induction false} EncodeRegSnoc(list: seq<Addr>, na: nat, ns: nat, k: nat)
    requires k < |list|
    ensures EncodeReg(list[..k + 1], na, ns) == EncodeReg(list[..k], na, ns) + EncodeEntry(list[k], na, ns)
  {
    assert list[..k + 1][..k] == list[..k];
  }

  lemma {:induction false} PrefixGrows(b: seq<u8>, e: seq<u8>, x: seq<u8>, at: nat)
    requires e <= b && at == |e| && at + |x| <= |b| && x == b[at..at + |x|]
    ensures e + x <= b
  {
  }

  lemma {:induction false} EncodePrefix(b: seq<u8>, na: nat, ns: nat, k: nat)
    requires 1 <= na <= 2 && ns <= 2 && k <= EntryCount(b, na, ns)
    ensures EncodeReg(Entries(b, na, ns)[..k], na, ns) <= b
  {
    if k > 0 {
      var list := Entries(b, na, ns);
      EncodePrefix(b, na, ns, k - 1);
      EncodeEntryAt(b, na, ns, k - 1);
      PrefixTurn(b, list, na, ns, k - 1);
    }
  }

  lemma {:induction false} PrefixTurn(b: seq<u8>, list: seq<Addr>, na: nat, ns: nat, k: nat)
    requires k < |list| && EncodeReg(list[..k], na, ns) <= b
    requires k * ((na + ns) * 4) + (na + ns) * 4 <= |b|
    requires EncodeEntry(list[k], na, ns) == b[k * ((na + ns) * 4)..k * ((na + ns) * 4) + (na + ns) * 4]
    ensures EncodeReg(list[..k + 1], na, ns) <= b
  {
    EncodeRegSnoc(list, na, ns, k);
    EncodeRegLength(list[..k], na, ns);
    PrefixGrows(b, EncodeReg(list[..k], na, ns), EncodeEntry(list[k], na, ns), k * ((na + ns) * 4));
  }

  // A node whose parent has these cell counts and whose "reg" encodes the list
  // has exactly that list of ranges.
  lemma {:induction false} RegRoundTrip(t: Tree, node: nat, parent: nat, na: nat, ns: nat,
                                              list: seq<Addr>, tail: seq<u8>)
    requires t.WellFormed() && node < |t.nodes| && t.nodes[node].parent == Got(parent)
    requires t.nodes[parent].addressCells == Got(na) && t.nodes[parent].sizeCells == Got(ns)
    requires 1 <= na <= 2 && ns <= 2 && |tail| < (na + ns) * 4
    requires forall i :: 0 <= i < |list| ==> Fits(list[i], na, ns)
    requires t.Prop(node, "reg") == Got(EncodeReg(list, na, ns) + tail)
    ensures RegList(t, node) == Got(list)
  {
    DecodeEncode(list, na, ns, tail);
  }
}
