// String lists and inherited properties: compat_has and get_interrupt_parent
// (Devicetree Specification v0.4, sections 2.2.4.1, 2.3.1 and 2.4).
module NodeQueries {
  import opened Machine
  import opened DeviceTree
  import opened RegDecoder

  // ---- "compatible" ----

  // The strings the search looks at: those before the first empty one.
  function Listed(b: seq<u8>): seq<seq<u8>> {
    if b == [] || b[0] == 0 then []
    else
      var entry := CString(b);
      [entry] + if |entry| < |b| then Listed(b[|entry| + 1..]) else []
  }

  // The C string that starts at byte off.
  function StringAt(b: seq<u8>, off: nat): (r: seq<u8>)
    requires off <= |b|
    ensures off + |r| <= |b|
  {
    CString(b[off..])
  }

  // Whether the needle is still to come from byte off on.
  ghost predicate ListedFrom(b: seq<u8>, off: nat, needle: seq<u8>) {
    off <= |b| && needle in Listed(b[off..])
  }

  lemma {:induction false} ListedTurn(b: seq<u8>, off: nat, needle: seq<u8>)
    requires off < |b| && b[off] != 0
    ensures var entry := StringAt(b, off);
      ListedFrom(b, off, needle) <==> needle == entry || ListedFrom(b, off + |entry| + 1, needle)
  {
    var s, entry := b[off..], CString(b[off..]);
    if |entry| < |s| { assert s[|entry| + 1..] == b[off + |entry| + 1..]; }
  }

  lemma {:induction false} ListedEnds(b: seq<u8>, off: nat, needle: seq<u8>)
    requires off < |b| ==> b[off] == 0
    ensures !ListedFrom(b, off, needle)
  {
    if off < |b| { assert b[off..][0] == b[off]; }
  }

  // One turn of the search: compare the string at off and step behind its NUL.
  method SearchTurn(b: seq<u8>, off: nat, needle: seq<u8>) returns (hit: bool, next: nat)
    requires off < |b| && b[off] != 0
    ensures off < next <= |b| + 1
    ensures ListedFrom(b, off, needle) <==> hit || ListedFrom(b, next, needle)
  {
    ListedTurn(b, off, needle);
    var entry := StringAt(b, off);
    hit := entry == needle;
    next := off + |entry| + 1;
  }

  // The loop over the strings of a property.
  method SearchStrings(b: seq<u8>, needle: seq<u8>) returns (r: bool)
    ensures r == (needle in Listed(b))
  {
    ghost var found := needle in Listed(b);
    assert b[0..] == b;
    var off := 0;
    while off < |b| && b[off] != 0
      invariant 0 <= off <= |b| + 1
      invariant found <==> ListedFrom(b, off, needle)
    {
      r, off := SearchTurn(b, off, needle);
      if r {
        return;
      }
    }
    ListedEnds(b, off, needle);
    r := false;
  }

  // needle is absent when the caller passes a null pointer.
  method CompatHas(t: Tree, node: nat, needle: Option<seq<u8>>) returns (r: bool)
    requires node < |t.nodes|
    ensures var compat := t.Prop(node, "compatible");
      r == (needle.Some? && compat.Got? && needle.value in Listed(compat.value))
  {
    if needle.None? {
      return false;
    }
    var compat := t.Prop(node, "compatible");
    if compat.Failed? || |compat.value| == 0 {
      return false;
    }
    r := SearchStrings(compat.value, needle.value);
  }

  // A string list as the specification stores it: every string ends with NUL.
  function StringList(list: seq<seq<u8>>): seq<u8> {
    if list == [] then [] else list[0] + [0] + StringList(list[1..])
  }

  function BeforeEmpty(list: seq<seq<u8>>): seq<seq<u8>> {
    if list == [] || list[0] == [] then [] else [list[0]] + BeforeEmpty(list[1..])
  }

  lemma {:induction false} CStringStops(s: seq<u8>, rest: seq<u8>)
    requires 0 !in s
    ensures CString(s + [0] + rest) == s
  {
    if s != [] {
      assert (s + [0] + rest)[1..] == s[1..] + [0] + rest;
      CStringStops(s[1..], rest);
    }
  }

  // What is listed, string by string, for any property: an empty string or the end
  // of the property ends the list, and the last string needs no NUL.
  lemma {:induction false} ListedByStrings(s: seq<u8>, rest: seq<u8>)
    requires s != [] && 0 !in s
    ensures Listed([]) == [] && Listed([0] + rest) == []
    ensures Listed(s) == [s] && Listed(s + [0] + rest) == [s] + Listed(rest)
  {
    CStringStops(s, rest);
    CStringWhole(s);
    assert (s + [0] + rest)[|s| + 1..] == rest;
  }

  lemma {:induction false} CStringWhole(s: seq<u8>)
    requires 0 !in s
    ensures CString(s) == s
  {
    if s != [] { CStringWhole(s[1..]); }
  }

  lemma {:induction false} StringListRoundTrip(list: seq<seq<u8>>)
    requires forall i :: 0 <= i < |list| ==> 0 !in list[i]
    ensures Listed(StringList(list)) == BeforeEmpty(list)
  {
    if list != [] {
      var b, rest := StringList(list), StringList(list[1..]);
      if list[0] == [] {
        assert b[0] == 0;
      } else {
        assert b[0] == list[0][0];
        CStringStops(list[0], rest);
        assert b[|list[0]| + 1..] == rest;
        StringListRoundTrip(list[1..]);
      }
    }
  }

  // ---- "interrupt-parent" ----

  // get_u32_prop: a property shorter than one cell is a bad value.
  function U32Prop(t: Tree, node: nat, name: string): Lookup<u32>
    requires node < |t.nodes|
  {
    match t.Prop(node, name)
    case Failed(e) => Failed(e)
    case Got(b) => if |b| < 4 then Failed(BadValue) else Got(Be32(b, 0))
  }

  // The value is the first four bytes, most significant first; what follows them
  // does not matter.
  lemma {:induction false} U32PropReads(t: Tree, node: nat, name: string, b: seq<u8>)
    requires node < |t.nodes| && t.Prop(node, name) == Got(b)
    ensures |b| < 4 ==> U32Prop(t, node, name) == Failed(BadValue)
    ensures |b| >= 4 ==>
      U32Prop(t, node, name) == Got(((b[0] as int * 0x100 + b[1]) * 0x100 + b[2]) * 0x100 + b[3])
  {
  }

  lemma {:induction false} U32PropFails(t: Tree, node: nat, name: string, e: Error)
    requires node < |t.nodes|
    ensures U32Prop(t, node, name) == Failed(e) <==>
      t.Prop(node, name) == Failed(e) || (e == BadValue && t.Prop(node, name).Got? && |t.Prop(node, name).value| < 4)
  {
  }

  // The node, its parent, and so on up to the node without one.
  function Ancestry(t: Tree, node: nat): (r: seq<nat>)
    requires t.WellFormed() && node < |t.nodes|
    ensures r != [] && r[0] == node && (forall i :: 0 <= i < |r| ==> r[i] < |t.nodes|)
    ensures forall i :: 0 <= i < |r| - 1 ==> t.nodes[r[i]].parent == Got(r[i + 1])
    ensures forall i :: 0 <= i < |r| ==> (t.nodes[r[i]].parent.Got? <==> i < |r| - 1)
    decreases node
  {
    if t.nodes[node].parent.Failed? then [node] else [node] + Ancestry(t, t.nodes[node].parent.value)
  }

  // Ancestor k has the property, well-formed or not, and no nearer one has it.
  predicate NearestHolder(t: Tree, up: seq<nat>, k: nat, name: string)
    requires forall i :: 0 <= i < |up| ==> up[i] < |t.nodes|
  {
    && k < |up| && U32Prop(t, up[k], name) != Failed(NotFound)
    && forall i :: 0 <= i < k ==> U32Prop(t, up[i], name) == Failed(NotFound)
  }

  predicate HeldNowhere(t: Tree, up: seq<nat>, name: string)
    requires forall i :: 0 <= i < |up| ==> up[i] < |t.nodes|
  {
    forall i :: 0 <= i < |up| ==> U32Prop(t, up[i], name) == Failed(NotFound)
  }

  // The property at its nearest holder, and NotFound only where there is none.
  method GetInterruptParent(t: Tree, node: nat) returns (r: Lookup<u32>)
    requires t.WellFormed() && node < |t.nodes|
    ensures r == Failed(NotFound) <==> HeldNowhere(t, Ancestry(t, node), "interrupt-parent")
    ensures r != Failed(NotFound) ==> exists k: nat ::
      NearestHolder(t, Ancestry(t, node), k, "interrupt-parent") &&
      r == U32Prop(t, Ancestry(t, node)[k], "interrupt-parent")
  {
    ghost var up := Ancestry(t, node);
    ghost var k: nat := 0;
    var cur := node;
    while true
      invariant k < |up| && cur == up[k] && cur < |t.nodes|
      invariant forall i :: 0 <= i < k ==> U32Prop(t, up[i], "interrupt-parent") == Failed(NotFound)
      decreases cur
    {
      r := U32Prop(t, cur, "interrupt-parent");
      if r != Failed(NotFound) {
        assert NearestHolder(t, up, k, "interrupt-parent") && r == U32Prop(t, up[k], "interrupt-parent");
        return;
      }
      assert k < |up| - 1 <==> t.nodes[up[k]].parent.Got?;
      k := k + 1;
      // Any failure to find a parent ends the climb.
      if t.nodes[cur].parent.Failed? {
        return Failed(NotFound);
      }
      cur := t.nodes[cur].parent.value;
    }
  }
}
