// uart_console_parse_baud_from_stdout_path: the baud rate behind the colon of
// /chosen/stdout-path, the inverse of the decimal printer.
module StdoutPath {
  import opened Machine
  import opened DeviceTree
  import opened Numerals

  datatype BaudResult = Baud(rate: u32) | DtbNotReady | FdtError(error: Error)

  // Length of the part before the first colon or NUL.
  function NameLength(b: seq<u8>): (n: nat)
    ensures n <= |b|
  {
    if b == [] || b[0] == 0 || b[0] == COLON then 0 else 1 + NameLength(b[1..])
  }

  // The longest run of digits at the start.
  function DigitRun(b: seq<u8>): (s: seq<u8>)
    ensures s <= b && forall i :: 0 <= i < |s| ==> IsDigit(s[i])
    ensures |s| < |b| ==> !IsDigit(b[|s|])
  {
    if b == [] || !IsDigit(b[0]) then [] else [b[0]] + DigitRun(b[1..])
  }

  // What a stdout-path means: the number its digit run denotes, when there is a
  // colon, at least one digit, and the number fits 32 bits.
  function BaudOf(b: seq<u8>): BaudResult {
    var n := NameLength(b);
    if n == |b| || b[n] != COLON then FdtError(NotFound)
    else
      var digits := DigitRun(b[n + 1..]);
      if digits == [] then FdtError(NotFound)
      else if Value(digits) >= U32_LIMIT then FdtError(BadValue)
      else Baud(Value(digits))
  }

  lemma {:induction false} NameLengthIs(b: seq<u8>, n: nat)
    requires n <= |b| && forall i :: 0 <= i < n ==> b[i] != 0 && b[i] != COLON
    requires n < |b| ==> b[n] == 0 || b[n] == COLON
    ensures NameLength(b) == n
  {
    if n > 0 { NameLengthIs(b[1..], n - 1); }
  }

  lemma {:induction false} DigitRunIs(b: seq<u8>, n: nat)
    requires n <= |b| && forall i :: 0 <= i < n ==> IsDigit(b[i])
    requires n < |b| ==> !IsDigit(b[n])
    ensures DigitRun(b) == b[..n]
  {
    if n > 0 { DigitRunIs(b[1..], n - 1); }
  }

  lemma {:induction false} DigitRunAtLeast(b: seq<u8>, n: nat)
    requires n <= |b| && forall i :: 0 <= i < n ==> IsDigit(b[i])
    ensures n <= |DigitRun(b)|
  {
    if n > 0 { DigitRunAtLeast(b[1..], n - 1); }
  }

  // A longer digit string never denotes less.
  lemma {:induction false} ValueGrows(s: seq<u8>, n: nat)
    requires n <= |s| && forall i :: 0 <= i < |s| ==> IsDigit(s[i])
    ensures Value(s[..n]) <= Value(s)
    decreases |s|
  {
    if n < |s| {
      assert IsDigit(s[|s| - 1]);
      assert s[..|s| - 1][..n] == s[..n];
      ValueGrows(s[..|s| - 1], n);
    } else {
      assert s[..n] == s;
    }
  }

  predicate DigitsUpTo(b: seq<u8>, n: nat) { n <= |b| && forall k :: 0 <= k < n ==> IsDigit(b[k]) }

  lemma {:induction false} ValueTurn(b: seq<u8>, i: nat)
    requires i < |b| && DigitsUpTo(b, i) && IsDigit(b[i])
    ensures DigitsUpTo(b, i + 1) && Value(b[..i + 1]) == Value(b[..i]) * 10 + (b[i] - ZERO)
  {
    assert b[..i + 1][..i] == b[..i];
  }

  lemma {:induction false} RunEnds(b: seq<u8>, n: nat)
    requires DigitsUpTo(b, n) && (n < |b| ==> !IsDigit(b[n]))
    ensures Value(DigitRun(b)) == Value(b[..n]) && (DigitRun(b) == [] <==> n == 0)
  {
    DigitRunIs(b, n);
  }

  lemma {:induction false} RunDenotesMore(b: seq<u8>, n: nat)
    requires DigitsUpTo(b, n)
    ensures n <= |DigitRun(b)| && Value(b[..n]) <= Value(DigitRun(b))
  {
    DigitRunAtLeast(b, n);
    ValueGrows(DigitRun(b), n);
    assert DigitRun(b)[..n] == b[..n];
  }

  // The digit loop: it gives up at the first prefix that does not fit, which is
  // right because no longer run can fit either.
  method ParseDigits(b: seq<u8>) returns (r: BaudResult)
    ensures var digits := DigitRun(b);
      r == if digits == [] then FdtError(NotFound)
           else if Value(digits) >= U32_LIMIT then FdtError(BadValue)
           else Baud(Value(digits))
  {
    var value: u64 := 0;
    var hasDigit := false;
    var i := 0;
    assert Value(b[..0]) == 0;
    while i < |b|
      invariant DigitsUpTo(b, i) && (hasDigit <==> i > 0) && value < U32_LIMIT
      invariant value == Value(b[..i])
    {
      if !IsDigit(b[i]) {
        break;
      }
      hasDigit := true;
      ValueTurn(b, i);
      value := Wrap(value * 10 + (b[i] - ZERO));
      if value > U32_LIMIT - 1 {
        RunDenotesMore(b, i + 1);
        return FdtError(BadValue);
      }
      i := i + 1;
    }
    RunEnds(b, i);
    if !hasDigit {
      return FdtError(NotFound);
    }
    r := Baud(value);
  }

  method ParseBaud(fdt: Option<Tree>) returns (r: BaudResult)
    requires fdt.Some? ==> fdt.value.WellFormed()
    ensures r ==
      if fdt.None? then DtbNotReady
      else if fdt.value.chosen.Failed? then FdtError(fdt.value.chosen.error)
      else
        match fdt.value.Prop(fdt.value.chosen.value, "stdout-path")
        case Failed(e) => FdtError(e)
        case Got(b) => BaudOf(b)
  {
    if fdt.None? {
      return DtbNotReady;
    }
    if fdt.value.chosen.Failed? {
      return FdtError(fdt.value.chosen.error);
    }
    var path := fdt.value.Prop(fdt.value.chosen.value, "stdout-path");
    if path.Failed? {
      return FdtError(path.error);
    }
    var b := path.value;
    var i := 0;
    while i < |b| && b[i] != 0 && b[i] != COLON
      invariant 0 <= i <= |b| && forall k :: 0 <= k < i ==> b[k] != 0 && b[k] != COLON
    {
      i := i + 1;
    }
    NameLengthIs(b, i);
    if i >= |b| || b[i] != COLON {
      return FdtError(NotFound);
    }
    r := ParseDigits(b[i + 1..]);
  }

  // ---- What a path says, in bytes ----

  // No colon (58), or a NUL before the first one.
  predicate NamesNoOptions(b: seq<u8>) {
    forall i :: 0 <= i < |b| && b[i] == 58 ==> 0 in b[..i]
  }

  predicate DecimalBytes(s: seq<u8>) { forall i :: 0 <= i < |s| ==> 48 <= s[i] <= 57 }

  // A name, a colon, digits, and a rest that does not go on with a digit.
  predicate SpellsRate(b: seq<u8>, name: seq<u8>, digits: seq<u8>, rest: seq<u8>) {
    && b == name + [58] + digits + rest && 0 !in name && 58 !in name
    && DecimalBytes(digits) && (rest != [] ==> !(48 <= rest[0] <= 57))
  }

  // Every path either names no options or is read in one way as name and digits.
  lemma {:induction false} PathReads(b: seq<u8>) returns (name: seq<u8>, digits: seq<u8>, rest: seq<u8>)
    ensures NamesNoOptions(b) || SpellsRate(b, name, digits, rest)
  {
    var n := NameLength(b);
    NameStops(b);
    name, digits, rest := b[..n], [], [];
    if n < |b| && b[n] == 58 {
      digits := DigitRun(b[n + 1..]);
      rest := b[n + 1..][|digits|..];
      OptionsSplit(b, n, digits, rest);
    } else {
      StopsAtNul(b, n);
    }
  }

  lemma {:induction false} OptionsSplit(b: seq<u8>, n: nat, digits: seq<u8>, rest: seq<u8>)
    requires n < |b| && b[n] == 58 && digits <= b[n + 1..] && rest == b[n + 1..][|digits|..]
    ensures b == b[..n] + [58] + digits + rest
  {
    assert b[n + 1..] == digits + rest;
    assert b == b[..n] + [b[n]] + b[n + 1..];
  }

  lemma {:induction false} StopsAtNul(b: seq<u8>, n: nat)
    requires n <= |b| && (n < |b| ==> b[n] == 0) && forall i :: 0 <= i < n ==> b[i] != 58
    ensures NamesNoOptions(b)
  {
    forall i | 0 <= i < |b| && b[i] == 58 ensures 0 in b[..i] {
      assert b[..i][n] == b[n];
    }
  }

  lemma {:induction false} NameStops(b: seq<u8>)
    ensures var n := NameLength(b);
      && (forall i :: 0 <= i < n ==> b[i] != 0 && b[i] != 58)
      && (n < |b| ==> b[n] == 0 || b[n] == 58)
  {
    if !(b == [] || b[0] == 0 || b[0] == COLON) { NameStops(b[1..]); }
  }

  lemma {:induction false} NoOptionsNoBaud(b: seq<u8>)
    requires NamesNoOptions(b)
    ensures BaudOf(b) == FdtError(NotFound)
  {
    NameStops(b);
  }

  // A rate without digits is missing; else it is the number, if it fits 32 bits.
  lemma {:induction false} SpelledRateIsBaud(b: seq<u8>, name: seq<u8>, digits: seq<u8>, rest: seq<u8>)
    requires SpellsRate(b, name, digits, rest)
    ensures BaudOf(b) ==
      if digits == [] then FdtError(NotFound)
      else if Value(digits) < 0x1_0000_0000 then Baud(Value(digits))
      else FdtError(BadValue)
  {
    assert b == name + ([COLON] + (digits + rest));
    NameEnds(name, digits + rest);
    DigitRunIs(digits + rest, |digits|);
    assert (digits + rest)[..|digits|] == digits;
  }

  // Printing a number behind a console name and parsing it gives it back, for
  // every number of 32 bits; any larger number is reported as a bad value.
  lemma {:induction false} PrintParseRoundTrip(name: seq<u8>, v: nat, options: seq<u8>)
    requires 0 !in name && COLON !in name
    requires options == [] || !IsDigit(options[0])
    ensures BaudOf(name + [COLON] + Decimal(v) + options) ==
      if v < U32_LIMIT then Baud(v) else FdtError(BadValue)
  {
    var rest := Decimal(v) + options;
    assert name + [COLON] + Decimal(v) + options == name + ([COLON] + rest);
    NameEnds(name, rest);
    DigitRunIs(rest, |Decimal(v)|);
    assert rest[..|Decimal(v)|] == Decimal(v);
    DecimalDenotes(v);
  }

  lemma {:induction false} NameEnds(name: seq<u8>, rest: seq<u8>)
    requires 0 !in name && COLON !in name
    ensures var b := name + ([COLON] + rest);
      NameLength(b) == |name| && b[|name|] == COLON && b[|name| + 1..] == rest
  {
    NameLengthIs(name + ([COLON] + rest), |name|);
  }
}
