// The flattened device tree as libs/dtb/dtb.c sees it through libfdt: nodes in
// preorder, named by their index, with the results libfdt gives for each.
module DeviceTree {
  import opened Machine

  datatype Option<+T> = None | Some(value: T)

  // The libfdt error codes the code tells apart; any other code is Other.
  datatype Error = NotFound | NoSpace | BadState | BadNCells | BadValue | Other(code: nat)

  // The result of a lookup that yields a value or a negative error code.
  datatype Lookup<+T> = Got(value: T) | Failed(error: Error)

  // The result of a call that returns 0 or a negative error code.
  datatype Code = Success | Err(error: Error)

  datatype Node = Node(
    parent: Lookup<nat>,
    addressCells: Lookup<nat>,
    sizeCells: Lookup<nat>,
    props: map<string, Lookup<seq<u8>>>)

  // address and totalSize locate the blob itself; reservedMemory, chosen and cpus
  // are the nodes of those three paths.
  datatype Tree = Tree(
    nodes: seq<Node>,
    address: u64,
    totalSize: u32,
    reservedMemory: Lookup<nat>,
    chosen: Lookup<nat>,
    cpus: Lookup<nat>)
  {
    // The blob is somewhere, as dtb_init refuses a null pointer. A parent comes
    // before its children, and paths lead to nodes.
    predicate WellFormed() {
      && address > 0
      && (forall i :: 0 <= i < |nodes| && nodes[i].parent.Got? ==> nodes[i].parent.value < i)
      && (reservedMemory.Got? ==> reservedMemory.value < |nodes|)
      && (chosen.Got? ==> chosen.value < |nodes|)
      && (cpus.Got? ==> cpus.value < |nodes|)
    }

    function Prop(node: nat, name: string): Lookup<seq<u8>>
      requires node < |nodes|
    {
      if name in nodes[node].props then nodes[node].props[name] else Failed(NotFound)
    }
  }

  // The bytes of a C string literal.
  function Ascii(s: string): (r: seq<u8>)
    ensures |r| == |s|
  {
    seq(|s|, i requires 0 <= i < |s| => s[i] as int % 0x100)
  }

  // The C string at the start of a buffer: the bytes before the first NUL.
  function CString(b: seq<u8>): (r: seq<u8>)
    ensures |r| <= |b| && r == b[..|r|] && 0 !in r
    ensures |r| < |b| ==> b[|r|] == 0
  {
    if b == [] || b[0] == 0 then [] else [b[0]] + CString(b[1..])
  }
}
