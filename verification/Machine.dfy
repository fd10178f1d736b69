// The machine integers of kernel/memory_map.c and libs/dtb/dtb.c.
// Values are mathematical integers in the range of the C type; wrap-around is
// written out wherever the C code can reach it.
module Machine {
  const U64_LIMIT: int := 0x1_0000_0000_0000_0000
  const U32_LIMIT: int := 0x1_0000_0000
  const U64_MAX: int := U64_LIMIT - 1
  const PAGE: int := 0x1000
  // One past the largest page number of a 64-bit physical address.
  const PAGE_COUNT: int := 0x10_0000_0000_0000

  type u8 = x: int | 0 <= x < 0x100
  type u16 = x: int | 0 <= x < 0x1_0000
  type u32 = x: int | 0 <= x < U32_LIMIT
  type u64 = x: int | 0 <= x < U64_LIMIT

  function Min(a: int, b: int): int { if a < b then a else b }

  function Max(a: int, b: int): int { if a > b then a else b }

  // The value a 64-bit register holds when the exact result is x.
  function Wrap(x: int): u64 { x % U64_LIMIT }

  // A 64-bit addition; it loses the carry.
  function Add(a: u64, b: u64): u64 {
    if a + b < U64_LIMIT then a + b else a + b - U64_LIMIT
  }

  // The mask of the code clears the low twelve bits.
  function AlignDown(v: u64): u64 { v - v % PAGE }

  function AlignUp(v: u64): u64 { AlignDown(Add(v, PAGE - 1)) }

  predicate Aligned(v: int) { v % PAGE == 0 }

  // Rounding down is the largest page boundary not above v.
  lemma {:induction false} AlignDownIsFloor(v: u64, b: u64)
    requires Aligned(b)
    ensures Aligned(AlignDown(v)) && AlignDown(v) <= v
    ensures b <= v ==> b <= AlignDown(v)
  {
  }

  // Rounding up is the smallest page boundary not below v, except in the last
  // partial page of the address space, where the sum wraps and the result is 0.
  lemma {:induction false} AlignUpIsCeilingOrWraps(v: u64, b: u64)
    requires Aligned(b)
    ensures Aligned(AlignUp(v))
    ensures v <= U64_LIMIT - PAGE ==> v <= AlignUp(v) && (v <= b ==> AlignUp(v) <= b)
    ensures v > U64_LIMIT - PAGE ==> AlignUp(v) == 0
  {
  }

  // Both in terms of page numbers, and the addition as a sum modulo 2^64.
  lemma {:induction false} RoundingByPages(v: u64, w: u64)
    ensures AlignDown(v) == v / 0x1000 * 0x1000
    ensures AlignUp(v) == if v <= 0xFFFF_FFFF_FFFF_F000 then (v + 0xFFF) / 0x1000 * 0x1000 else 0
    ensures Aligned(v) <==> v % 0x1000 == 0
    ensures Add(v, w) == (v + w) % 0x1_0000_0000_0000_0000
  {
    AlignUpIsCeilingOrWraps(v, 0);
  }

  lemma {:induction false} RoundingIsMonotone(a: u64, b: u64)
    requires a <= b
    ensures AlignDown(a) <= AlignDown(b)
    ensures b <= U64_LIMIT - PAGE ==> a <= AlignUp(a) <= AlignUp(b)
  {
    AlignDownIsFloor(b, AlignDown(a));
    AlignDownIsFloor(a, 0);
    if b <= U64_LIMIT - PAGE {
      AlignUpIsCeilingOrWraps(b, 0);
      AlignUpIsCeilingOrWraps(a, AlignUp(b));
    }
  }
}
