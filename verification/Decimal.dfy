/** Decimal text: how integers are written and read back. */
module Decimal {
  import opened Basics

  const I64_MIN: int := -0x8000_0000_0000_0000
  const I64_MAX: int := 0x7fff_ffff_ffff_ffff
  const U64_LIMIT: int := 0x1_0000_0000_0000_0000
  const MINUS: Byte := 45
  const PLUS: Byte := 43

  predicate IsI64(n: int) {
    I64_MIN <= n <= I64_MAX
  }

  predicate IsDigit(b: Byte) {
    48 <= b <= 57
  }

  predicate AllDigits(s: Bytes) {
    forall i | 0 <= i < |s| :: IsDigit(s[i])
  }

  function DigitByte(d: int): (b: Byte)
    requires 0 <= d < 10
    ensures IsDigit(b) && b as int - 48 == d
  {
    (48 + d) as Byte
  }

  /** The decimal digits of `n`, no leading zero: what `to_string` prints. */
  function Digits(n: nat): (s: Bytes)
    ensures |s| > 0 && AllDigits(s)
  {
    if n < 10 then [DigitByte(n)] else Digits(n / 10) + [DigitByte(n % 10)]
  }

  function DecimalOf(n: int): (s: Bytes)
    ensures |s| > 0
  {
    if n < 0 then [MINUS] + Digits(-n) else Digits(n)
  }

  function Value(s: Bytes): (v: int)
    requires AllDigits(s)
    ensures v >= 0
  {
    if s == [] then 0 else 10 * Value(s[..|s| - 1]) + (s[|s| - 1] as int - 48)
  }

  /** `str::parse::<i64>`: an optional sign, at least one digit, and the value must fit. */
  function ParseI64(s: Bytes): (r: Option<int>)
    ensures r.Some? ==> IsI64(r.value)
  {
    var digits := if |s| > 0 && (s[0] == MINUS || s[0] == PLUS) then s[1..] else s;
    if digits == [] || !AllDigits(digits) then None
    else
      var v := if s[0] == MINUS then -Value(digits) else Value(digits);
      if IsI64(v) then Some(v) else None
  }

  lemma {:induction false} ValueOfDigits(n: nat)
    ensures Value(Digits(n)) == n
  {
    if n < 10 {
      assert Value([]) == 0;
      assert Digits(n)[..0] == [];
    } else {
      ValueOfDigits(n / 10);
      assert Digits(n)[..|Digits(n)| - 1] == Digits(n / 10);
    }
  }

  /** Reading back what was written: for every i64, down to its minimum. */
  lemma ParseWritten(n: int)
    requires IsI64(n)
    ensures ParseI64(DecimalOf(n)) == Some(n)
  {
    if n < 0 {
      ValueOfDigits(-n);
      assert DecimalOf(n)[1..] == Digits(-n);
    } else {
      ValueOfDigits(n);
      assert IsDigit(Digits(n)[0]);
    }
  }

  // ---------- surrounding white space ----------

  /** Bytes of the white-space character (in UTF-8) that `s` starts with; 0 if it starts with none. */
  function SpaceAt(s: Bytes): (n: nat)
    ensures n <= |s|
  {
    if |s| >= 1 && (9 <= s[0] <= 13 || s[0] == 32) then 1
    else if |s| >= 2 && s[0] == 0xC2 && (s[1] == 0x85 || s[1] == 0xA0) then 2
    else if |s| >= 3 && s[0] == 0xE1 && s[1] == 0x9A && s[2] == 0x80 then 3
    else if |s| >= 3 && s[0] == 0xE2 && s[1] == 0x80
            && (0x80 <= s[2] <= 0x8A || s[2] == 0xA8 || s[2] == 0xA9 || s[2] == 0xAF) then 3
    else if |s| >= 3 && s[0] == 0xE2 && s[1] == 0x81 && s[2] == 0x9F then 3
    else if |s| >= 3 && s[0] == 0xE3 && s[1] == 0x80 && s[2] == 0x80 then 3
    else 0
  }

  function TrimStart(s: Bytes): Bytes {
    if SpaceAt(s) == 0 then s else TrimStart(s[SpaceAt(s)..])
  }

  /** Length of the white-space character that `s` ends with; 0 if it ends with none. */
  function SpaceBefore(s: Bytes): (n: nat)
    ensures n <= |s|
  {
    if |s| >= 1 && SpaceAt(s[|s| - 1..]) == 1 then 1
    else if |s| >= 2 && SpaceAt(s[|s| - 2..]) == 2 then 2
    else if |s| >= 3 && SpaceAt(s[|s| - 3..]) == 3 then 3
    else 0
  }

  function TrimEnd(s: Bytes): Bytes {
    if SpaceBefore(s) == 0 then s else TrimEnd(s[..|s| - SpaceBefore(s)])
  }

  /** A stored string read as a counter: trimmed, then parsed. */
  function ParseCounter(s: Bytes): (r: Option<int>)
    ensures r.Some? ==> IsI64(r.value)
  {
    ParseI64(TrimEnd(TrimStart(s)))
  }

  /** A counter the store wrote is read back exactly. */
  lemma ParseCounterWritten(n: int)
    requires IsI64(n)
    ensures ParseCounter(DecimalOf(n)) == Some(n)
  {
    hide ParseI64, DecimalOf, SpaceAt, SpaceBefore;
    WrittenIsBare(n);
    ParseWritten(n);
  }

  lemma WrittenIsBare(n: int)
    ensures SpaceAt(DecimalOf(n)) == 0 && SpaceBefore(DecimalOf(n)) == 0
  {
    hide Digits;
    var s := DecimalOf(n);
    var d := Digits(if n < 0 then -n else n);
    assert s[0] == (if n < 0 then MINUS else d[0]) && (s[0] == MINUS || IsDigit(s[0]));
    assert s[|s| - 1] == d[|d| - 1] && IsDigit(s[|s| - 1]);
  }

  // ---------- the allocation-free writer ----------

  function Pow10(k: nat): (p: nat)
    ensures p > 0
  {
    if k == 0 then 1 else 10 * Pow10(k - 1)
  }

  lemma TwentyDigitsSuffice()
    ensures Pow10(20) > U64_LIMIT
  {
    assert Pow10(4) == 10000;
    assert Pow10(8) == 100000000;
    assert Pow10(12) == 1000000000000;
    assert Pow10(16) == 10000000000000000;
  }

  /** Writes through a 20-byte stack buffer what the allocating printer writes. */
  method WriteUint(out: Bytes, n: nat) returns (r: Bytes)
    requires n < U64_LIMIT
    ensures r == out + Digits(n)
  {
    if n == 0 {
      assert [48] == Digits(0);
      return out + [48];
    }
    var v: nat := n;
    var tmp := new Byte[20](_ => 0);
    var i := 20;
    TwentyDigitsSuffice();
    while v > 0
      invariant 0 <= i <= 20 && v < Pow10(i)
      invariant v > 0 ==> Digits(v) + tmp[i..] == Digits(n)
      invariant v == 0 ==> tmp[i..] == Digits(n)
    {
      ghost var tail := tmp[i..];
      i := i - 1;
      tmp[i] := (48 + v % 10) as Byte;
      assert tmp[i..] == [DigitByte(v % 10)] + tail;
      v := v / 10;
    }
    r := out + tmp[i..];
  }
}
