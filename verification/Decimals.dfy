// Decimal digits as bytes, shared by timestamps and JSON numbers.
module Decimals {
  import opened Base

  predicate IsDigit(c: Byte) { 0x30 <= c <= 0x39 }

  ghost predicate AllDigits(s: Bytes) { forall i :: 0 <= i < |s| ==> IsDigit(s[i]) }

  function DigitValue(c: Byte): int { c as int - 0x30 }

  function Decimal(s: Bytes): int {
    if s == [] then 0 else 10 * Decimal(s[..|s| - 1]) + DigitValue(s[|s| - 1])
  }

  function Pow10(n: nat): (p: nat)
    ensures p > 0
  {
    if n == 0 then 1 else 10 * Pow10(n - 1)
  }

  // A number as exactly that many digits.
  function Padded(n: int, width: nat): (s: Bytes)
    requires 0 <= n < Pow10(width)
    ensures |s| == width
  {
    if width == 0 then [] else Padded(n / 10, width - 1) + [(0x30 + n % 10) as Byte]
  }

  lemma {:induction false} PaddedDecimal(n: int, width: nat)
    requires 0 <= n < Pow10(width)
    ensures AllDigits(Padded(n, width)) && Decimal(Padded(n, width)) == n
  {
    if width > 0 {
      PaddedDecimal(n / 10, width - 1);
      var s := Padded(n, width);
      assert s[..width - 1] == Padded(n / 10, width - 1);
    }
  }

  lemma {:induction false} DecimalRange(s: Bytes)
    requires AllDigits(s)
    ensures 0 <= Decimal(s) < Pow10(|s|)
  {
    if s != [] {
      DecimalRange(s[..|s| - 1]);
    }
  }

  lemma {:induction false} PowSplit(a: nat, b: nat)
    ensures Pow10(a + b) == Pow10(a) * Pow10(b)
  {
    if a > 0 {
      PowSplit(a - 1, b);
    }
  }

  // The shortest digits of a number: no leading zero unless it is zero.
  function Digits(n: nat): (s: Bytes)
    ensures s != []
  {
    if n < 10 then [(0x30 + n) as Byte] else Digits(n / 10) + [(0x30 + n % 10) as Byte]
  }

  lemma {:induction false} DigitsDecimal(n: nat)
    ensures AllDigits(Digits(n)) && Decimal(Digits(n)) == n
  {
    var s := Digits(n);
    if n >= 10 {
      DigitsDecimal(n / 10);
      assert s[..|s| - 1] == Digits(n / 10);
    } else {
      assert s[..0] == [];
    }
  }
}
