// The number printers of drivers/uart/ns16550a.c, as producers of the bytes
// they send.
module Numerals {
  import opened Machine
  import opened DeviceTree

  const ZERO: int := 48    // '0'
  const COLON: int := 58   // ':'

  predicate IsDigit(c: u8) { ZERO <= c <= ZERO + 9 }

  // The number a digit string denotes.
  function Value(s: seq<u8>): (v: int)
    requires forall i :: 0 <= i < |s| ==> IsDigit(s[i])
    ensures v >= 0
  {
    if s == [] then 0
    else
      assert IsDigit(s[|s| - 1]);
      Value(s[..|s| - 1]) * 10 + (s[|s| - 1] - ZERO)
  }

  // The decimal digits of v without leading zeros; none for zero.
  function Digits(v: nat): (s: seq<u8>)
    ensures forall i :: 0 <= i < |s| ==> IsDigit(s[i])
    ensures s == [] <==> v == 0
    ensures s != [] ==> s[0] != ZERO
  {
    if v == 0 then [] else Digits(v / 10) + [ZERO + v % 10]
  }

  function Decimal(v: nat): (s: seq<u8>)
    ensures s != [] && forall i :: 0 <= i < |s| ==> IsDigit(s[i])
  {
    if v == 0 then [ZERO] else Digits(v)
  }

  function Power10(n: nat): int { if n == 0 then 1 else 10 * Power10(n - 1) }

  function Reversed(s: seq<u8>): (r: seq<u8>)
    ensures |r| == |s|
  {
    if s == [] then [] else [s[|s| - 1]] + Reversed(s[..|s| - 1])
  }

  lemma {:induction false} DigitsDenote(v: nat)
    ensures Value(Digits(v)) == v
  {
    if v != 0 {
      var d := Digits(v / 10);
      DigitsDenote(v / 10);
      assert (d + [ZERO + v % 10])[..|d|] == d;
    }
  }

  // What the decimal printers send denotes the number they were given.
  lemma {:induction false} DecimalDenotes(v: nat)
    ensures Value(Decimal(v)) == v
  {
    if v == 0 {
      assert Value([]) == 0;
    } else {
      DigitsDenote(v);
    }
  }

  // Decimal notation is the only digit string without a leading zero for v.
  lemma {:induction false} DecimalUnique(s: seq<u8>, v: nat)
    requires s != [] && forall i :: 0 <= i < |s| ==> IsDigit(s[i])
    requires Value(s) == v && (s[0] == ZERO ==> |s| == 1)
    ensures s == Decimal(v)
  {
    var init := s[..|s| - 1];
    assert s == init + [s[|s| - 1]];
    if init == [] {
      assert Value(init) == 0;
      assert v > 0 ==> Digits(v) == Digits(0) + [ZERO + v % 10];
    } else {
      DecimalUnique(init, v / 10);
      LeadingDigitPositive(init);
    }
  }

  lemma {:induction false} LeadingDigitPositive(s: seq<u8>)
    requires s != [] && s[0] != ZERO && forall i :: 0 <= i < |s| ==> IsDigit(s[i])
    ensures Value(s) > 0
  {
    if |s| > 1 {
      LeadingDigitPositive(s[..|s| - 1]);
    } else {
      assert s[..0] == [];
    }
  }

  // Both notations, spelled out for the last digit.
  lemma {:induction false} ValueByDigits(s: seq<u8>, d: nat)
    requires (forall i :: 0 <= i < |s| ==> 48 <= s[i] <= 57) && d < 10
    ensures Value([]) == 0 && Value(s + [48 + d]) == Value(s) * 10 + d
  {
    assert (s + [48 + d])[..|s|] == s;
  }

  lemma {:induction false} DecimalByDigits(v: nat)
    ensures v < 10 ==> Decimal(v) == [48 + v]
    ensures v >= 10 ==> Decimal(v) == Decimal(v / 10) + [48 + v % 10]
  {
    if 0 < v < 10 { assert Digits(v / 10) == []; }
  }

  // ---- The printers ----

  // The division loop fills a buffer of the given size from the low digit up,
  // then the buffer is sent backwards. Both printers share this shape: 11 bytes
  // for 32-bit values, 21 bytes for 64-bit values.
  method PutDec(value: nat, size: nat) returns (sent: seq<u8>)
    requires value < Power10(size)
    ensures sent == Decimal(value)
  {
    if value == 0 {
      return [ZERO];
    }
    var buf := new u8[size](_ => 0);
    var i := 0;
    var v: nat := value;
    ghost var low: seq<u8> := [];
    while v != 0 && i < size
      invariant 0 <= i <= size && v < Power10(size - i) && buf[..i] == low
      invariant Digits(value) == Digits(v) + Reversed(low)
    {
      DigitTurn(v, low, size - i);
      buf[i] := ZERO + v % 10;
      low := low + [ZERO + v % 10];
      i := i + 1;
      v := v / 10;
    }
    // The buffer limit never ends the loop: v is zero here.
    sent := SendBackwards(buf, i);
  }

  lemma {:induction false} DigitTurn(v: nat, low: seq<u8>, left: nat)
    requires v != 0 && v < Power10(left)
    ensures left > 0 && v / 10 < Power10(left - 1)
    ensures Digits(v) + Reversed(low) == Digits(v / 10) + Reversed(low + [ZERO + v % 10])
  {
    ReversedSnoc(low, ZERO + v % 10);
  }

  lemma {:induction false} ReversedSnoc(s: seq<u8>, x: u8)
    ensures Reversed(s + [x]) == [x] + Reversed(s)
  {
    assert (s + [x])[..|s|] == s;
  }

  method SendBackwards(buf: array<u8>, n: nat) returns (sent: seq<u8>)
    requires n <= buf.Length
    ensures sent == Reversed(buf[..n])
  {
    sent := [];
    var i := n;
    while i > 0
      invariant 0 <= i <= n && Reversed(buf[..n]) == sent + Reversed(buf[..i])
    {
      i := i - 1;
      assert buf[..i + 1][..i] == buf[..i];
      sent := sent + [buf[i]];
    }
  }

  method PutDecU32(value: u32) returns (sent: seq<u8>)
    ensures sent == Decimal(value)
  {
    Power10Bounds();
    sent := PutDec(value, 11);
  }

  method PutDecU64(value: u64) returns (sent: seq<u8>)
    ensures sent == Decimal(value)
  {
    Power10Bounds();
    sent := PutDec(value, 21);
  }

  lemma {:induction false} Power10Bounds()
    ensures U32_LIMIT <= Power10(11) && U64_LIMIT <= Power10(21)
  {
    assert Power10(5) == 100000;
    assert Power10(10) == 100000 * Power10(5);
    assert Power10(15) == 100000 * Power10(10);
    assert Power10(20) == 100000 * Power10(15);
  }

  const MINUS: int := 45   // '-'

  type i32 = x: int | -0x8000_0000 <= x < 0x8000_0000

  method PutDecI32(value: i32) returns (sent: seq<u8>)
    ensures sent == if value < 0 then [45] + Decimal(0 - value) else Decimal(value)
  {
    if value < 0 {
      var digits := PutDecU32(0 - value);
      return [MINUS] + digits;
    }
    sent := PutDecU32(value);
  }

  // ---- Hexadecimal ----

  // The digit table, as bytes.
  function HexDigit(d: int): (c: u8)
    requires 0 <= d < 16
    ensures IsHexDigit(c) && HexDigitValue(c) == d
    ensures c == "0123456789abcdef"[d] as int
  {
    var hex := "0123456789abcdef";
    assert d < 10 ==> hex[d] as int == 48 + d;
    assert d >= 10 ==> hex[d] as int == 97 + (d - 10);
    hex[d] as int
  }

  predicate IsHexDigit(c: u8) { 48 <= c <= 57 || 97 <= c <= 102 }

  function HexDigitValue(c: u8): int
    requires IsHexDigit(c)
  {
    if c <= 57 then c - 48 else c - 97 + 10
  }

  function HexValue(s: seq<u8>): int
    requires forall i :: 0 <= i < |s| ==> IsHexDigit(s[i])
  {
    if s == [] then 0
    else
      assert IsHexDigit(s[|s| - 1]);
      HexValue(s[..|s| - 1]) * 16 + HexDigitValue(s[|s| - 1])
  }

  function Power16(n: nat): (p: int)
    ensures p > 0
  {
    if n == 0 then 1 else 16 * Power16(n - 1)
  }

  // A right shift by 4*n bits.
  function ShiftRight(v: nat, n: nat): (r: nat)
  {
    if n == 0 then v else ShiftRight(v, n - 1) / 16
  }

  // Four bits of the value, counted from the low end.
  function Nibble(v: nat, n: nat): (d: int)
    ensures 0 <= d < 16
  {
    v / Power16(n) % 16
  }

  lemma {:induction false} QuotientOfQuotient(v: nat, m: nat)
    requires m > 0
    ensures v / m / 16 == v / (16 * m)
  {
    var u, low := v / m, v % m;
    assert v == u * m + low;
    Regroup(u / 16, u % 16, m);
    QuotientIs(v, 16 * m, u / 16, u % 16 * m + low);
  }

  lemma {:induction false} Regroup(q: nat, r: nat, m: nat)
    requires r < 16
    ensures (16 * q + r) * m == q * (16 * m) + r * m && r * m <= 15 * m
  {
    assert (15 - r) * m >= 0;
  }

  lemma {:induction false} QuotientIs(v: nat, k: nat, q: nat, rest: nat)
    requires k > 0 && v == q * k + rest && rest < k
    ensures v / k == q
  {
    var n := v / k;
    assert v == n * k + v % k;
    Cancel(n, q + 1, k);
    Cancel(q, n + 1, k);
  }

  lemma {:induction false} Cancel(a: int, b: int, k: nat)
    requires a * k < b * k
    ensures a < b
  {
    assert (b - a) * k == b * k - a * k;
  }

  lemma {:induction false} ShiftIsDivision(v: nat, n: nat)
    ensures ShiftRight(v, n) == v / Power16(n)
  {
    if n > 0 {
      ShiftIsDivision(v, n - 1);
      QuotientOfQuotient(v, Power16(n - 1));
    }
  }

  // All but the low n digits of the value.
  ghost predicate HighDigits(value: nat, digits: seq<u8>, n: nat) {
    && n <= 16 && |digits| == 16 - n
    && (forall k :: 0 <= k < |digits| ==> digits[k] == HexDigit(Nibble(value, 15 - k)))
    && HexValue(digits) == ShiftRight(value, n)
  }

  lemma {:induction false} HighDigitsTurn(value: nat, digits: seq<u8>, n: nat)
    requires n > 0 && HighDigits(value, digits, n)
    ensures HighDigits(value, digits + [HexDigit(ShiftRight(value, n - 1) % 16)], n - 1)
  {
    var d := ShiftRight(value, n - 1) % 16;
    ShiftIsDivision(value, n - 1);
    assert (digits + [HexDigit(d)])[..|digits|] == digits;
  }

  // "0x" and sixteen digits, high to low: each the table entry of its four bits,
  // and together they denote the value.
  method PutHexU64(value: u64) returns (sent: seq<u8>)
    ensures |sent| == 18 && sent[0] == 48 && sent[1] == 120
    ensures forall k :: 2 <= k < 18 ==> IsHexDigit(sent[k])
    ensures forall k :: 2 <= k < 18 ==> sent[k] == "0123456789abcdef"[Nibble(value, 17 - k)] as int
    ensures HexValue(sent[2..]) == value
  {
    ghost var digits: seq<u8> := [];
    sent := Ascii("0x");
    ShiftedOut(value);
    var n := 16;
    while n > 0
      invariant 0 <= n <= 16 && sent == [48, 120] + digits && HighDigits(value, digits, n)
    {
      HighDigitsTurn(value, digits, n);
      n := n - 1;
      var d := ShiftRight(value, n) % 16;
      digits := digits + [HexDigit(d)];
      sent := sent + [HexDigit(d)];
    }
    assert sent[2..] == digits;
    assert forall k :: 2 <= k < 18 ==> sent[k] == digits[k - 2];
  }

  lemma {:induction false} ShiftBound(v: nat, n: nat, m: nat)
    requires v < Power16(n + m)
    ensures ShiftRight(v, n) < Power16(m)
  {
    if n > 0 { ShiftBound(v, n - 1, m + 1); }
  }

  lemma {:induction false} ShiftedOut(v: u64)
    ensures ShiftRight(v, 16) == 0
  {
    assert Power16(4) == 0x1_0000;
    assert Power16(8) == 0x1_0000 * Power16(4);
    assert Power16(12) == 0x1_0000 * Power16(8);
    assert Power16(16) == 0x1_0000 * Power16(12);
    ShiftBound(v, 16, 0);
  }
}
