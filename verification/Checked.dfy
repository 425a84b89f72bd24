// Overflow-checked integer arithmetic (include/congestion/core/checked.hpp), for integers of any width:
// a signed type holds [-max - 1, max], an unsigned one [0, max].
module Checked {
  import opened Base

  const I64_MAX: int := 9223372036854775807

  predicate FitsSigned(x: int, max: nat) { -1 - max <= x <= max }

  // C++ division: truncates toward zero.
  function TruncDiv(a: int, b: int): int
    requires b != 0
  {
    if a >= 0 then (if b > 0 then a / b else -(a / -b))
    else (if b > 0 then -(-a / b) else -a / -b)
  }

  function TruncMod(a: int, b: int): int
    requires b != 0
  {
    a - b * TruncDiv(a, b)
  }

  function CheckedAdd(lhs: int, rhs: int, max: nat): (r: Option<int>)
    requires FitsSigned(lhs, max) && FitsSigned(rhs, max)
    ensures r.Some? <==> FitsSigned(lhs + rhs, max)
    ensures r.Some? ==> r.value == lhs + rhs
  {
    if rhs > 0 && lhs > max - rhs then None
    else if rhs < 0 && lhs < -1 - max - rhs then None
    else Some(lhs + rhs)
  }

  function CheckedAddUnsigned(lhs: nat, rhs: nat, max: nat): (r: Option<nat>)
    requires lhs <= max && rhs <= max
    ensures r.Some? <==> lhs + rhs <= max
    ensures r.Some? ==> r.value == lhs + rhs
  {
    if rhs > max - lhs then None else Some(lhs + rhs)
  }

  // For a positive divisor, a product is within a bound exactly when the factor is within the quotient.
  lemma QuotientBound(x: nat, d: nat, n: nat)
    requires d > 0
    ensures x * d <= n <==> x <= n / d
  {
    if x <= n / d {
      Monotone(x, n / d, d);
    } else {
      Monotone(n / d + 1, x, d);
    }
  }

  lemma Monotone(a: nat, b: nat, d: nat)
    requires a <= b
    ensures a * d <= b * d
  {
  }

  lemma SignedProduct(lhs: int, rhs: int)
    ensures (-lhs) * rhs == -(lhs * rhs) && lhs * (-rhs) == -(lhs * rhs) && (-lhs) * (-rhs) == lhs * rhs
  {
  }

  lemma PositiveProduct(a: int, b: int)
    requires a > 0 && b > 0
    ensures a * b > 0
  {
  }

  function CheckedMul(lhs: int, rhs: int, max: nat): (r: Option<int>)
    requires FitsSigned(lhs, max) && FitsSigned(rhs, max)
  {
    if lhs == 0 || rhs == 0 then Some(0)
    else if lhs > 0 then
      if rhs > 0 then
        if lhs > TruncDiv(max, rhs) then None else Some(lhs * rhs)
      else
        if rhs < TruncDiv(-1 - max, lhs) then None else Some(lhs * rhs)
    else
      if rhs > 0 then
        if lhs < TruncDiv(-1 - max, rhs) then None else Some(lhs * rhs)
      else
        if rhs < TruncDiv(max, lhs) then None else Some(lhs * rhs)
  }

  lemma BothPositive(lhs: int, rhs: int, max: nat)
    requires 0 < lhs && 0 < rhs
    ensures lhs * rhs > 0 && (lhs > TruncDiv(max, rhs) <==> lhs * rhs > max)
  {
    QuotientBound(lhs, rhs, max);
    PositiveProduct(lhs, rhs);
  }

  lemma BothNegative(lhs: int, rhs: int, max: nat)
    requires lhs < 0 && rhs < 0
    ensures lhs * rhs > 0 && (rhs < TruncDiv(max, lhs) <==> lhs * rhs > max)
  {
    SignedProduct(lhs, rhs);
    QuotientBound(-rhs, -lhs, max);
    PositiveProduct(-lhs, -rhs);
  }

  lemma OppositeSigns(positive: int, negative: int, max: nat)
    requires 0 < positive && negative < 0
    ensures positive * negative < 0 && (negative < TruncDiv(-1 - max, positive) <==> positive * negative < -1 - max)
  {
    SignedProduct(positive, negative);
    QuotientBound(-negative, positive, max + 1);
    PositiveProduct(positive, -negative);
  }

  // A product is reported exactly when it fits, and is then exact.
  lemma CheckedMulExact(lhs: int, rhs: int, max: nat)
    requires FitsSigned(lhs, max) && FitsSigned(rhs, max)
    ensures CheckedMul(lhs, rhs, max) == if FitsSigned(lhs * rhs, max) then Some(lhs * rhs) else None
  {
    if lhs == 0 || rhs == 0 {
      assert lhs * rhs == 0;
    } else if lhs > 0 && rhs > 0 {
      BothPositive(lhs, rhs, max);
    } else if lhs > 0 {
      OppositeSigns(lhs, rhs, max);
    } else if rhs > 0 {
      OppositeSigns(rhs, lhs, max);
    } else {
      BothNegative(lhs, rhs, max);
    }
  }

  function CheckedMulUnsigned(lhs: nat, rhs: nat, max: nat): Option<nat> {
    if lhs == 0 || rhs == 0 then Some(0)
    else if lhs > max / rhs then None
    else Some(lhs * rhs)
  }

  lemma CheckedMulUnsignedExact(lhs: nat, rhs: nat, max: nat)
    ensures CheckedMulUnsigned(lhs, rhs, max) == if lhs * rhs <= max then Some(lhs * rhs) else None
  {
    if lhs != 0 && rhs != 0 {
      QuotientBound(lhs, rhs, max);
    }
  }
}
