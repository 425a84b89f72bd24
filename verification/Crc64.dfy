// CRC-64/XZ, bit by bit, and the linear algebra that makes it detect bursts (src/core/crc64.cpp).
module Checksum {
  import opened Base
  import opened Fold

  const INIT: bv64 := 0xFFFF_FFFF_FFFF_FFFF
  const XOR_OUT: bv64 := 0xFFFF_FFFF_FFFF_FFFF
  const POLYNOMIAL: bv64 := 0xC96C_5795_D787_0F42

  const BYTE_BITS: nat := 8

  function Bit(on: bool): bv64 { if on then 1 else 0 }

  function Double(x: bv64): bv64 { x << 1 }

  function Xor(a: bv64, b: bv64): bv64 { a ^ b }

  function Push(bit: bv64, word: bv64): bv64 { Xor(bit, Double(word)) }

  // The n low bits of a number, as a word.
  function LowBits(v: nat, n: nat): bv64 { Digits(Bit, Push, 0, v, n) }

  function ToBits(b: Byte): bv64 { LowBits(b as nat, BYTE_BITS) }

  predicate Odd(crc: bv64) { crc & 1 == 1 }

  // One shift of the reflected register.
  function BitStep(crc: bv64): bv64 {
    if Odd(crc) then (crc >> 1) ^ POLYNOMIAL else crc >> 1
  }

  function Mix(crc: bv64, b: Byte): bv64 { Xor(crc, ToBits(b)) }

  function Absorb(crc: bv64, b: Byte): bv64 {
    Iterate(BitStep, Mix(crc, b), BYTE_BITS)
  }

  function Run(crc: bv64, data: Bytes): bv64 {
    Over(Absorb, crc, data)
  }

  function Crc(data: Bytes): bv64 {
    Run(INIT, data) ^ XOR_OUT
  }

  // The branch-free step of the source: the mask is all ones exactly when a bit is shifted out.
  method ShiftOnce(crc: bv64) returns (next: bv64)
    ensures next == BitStep(crc)
  {
    assert crc & 1 == 0 || crc & 1 == 1;
    var mask := 0 - (crc & 1);
    next := (crc >> 1) ^ (POLYNOMIAL & mask);
  }

  // The inner loop: the eight bit steps of one byte.
  method AbsorbByte(crc: bv64, b: Byte) returns (next: bv64)
    ensures next == Absorb(crc, b)
  {
    next := Mix(crc, b);
    var bit := 0;
    while bit < BYTE_BITS
      invariant 0 <= bit <= BYTE_BITS
      invariant Iterate(BitStep, next, BYTE_BITS - bit) == Absorb(crc, b)
    {
      next := ShiftOnce(next);
      bit := bit + 1;
    }
  }

  // The incremental checksum object: `Update` in any chunking, `Value` at any time.
  class Crc64 {
    var state: bv64

    constructor ()
      ensures state == INIT
    {
      state := INIT;
    }

    method Reset()
      modifies this
      ensures state == INIT
    {
      state := INIT;
    }

    method Update(data: Bytes)
      modifies this
      ensures state == Run(old(state), data)
    {
      var crc := state;
      var i := 0;
      while i < |data|
        invariant 0 <= i <= |data|
        invariant Over(Absorb, crc, data[i..]) == Run(old(state), data)
      {
        crc := AbsorbByte(crc, data[i]);
        assert data[i..][1..] == data[i + 1..];
        i := i + 1;
      }
      state := crc;
    }

    function Value(): (r: bv64)
      reads this
    {
      state ^ XOR_OUT
    }
  }

  // ---- The register is a linear, invertible map over GF(2) ----

  lemma ShiftXor(a: bv64, b: bv64)
    ensures (a ^ b) >> 1 == (a >> 1) ^ (b >> 1)
    ensures Odd(a ^ b) == (Odd(a) != Odd(b))
  {
  }

  lemma XorLeft(a: bv64, b: bv64, p: bv64)
    ensures (a ^ p) ^ b == (a ^ b) ^ p
  {
  }

  lemma XorRight(a: bv64, b: bv64, p: bv64)
    ensures a ^ (b ^ p) == (a ^ b) ^ p
  {
  }

  lemma XorBoth(a: bv64, b: bv64, p: bv64)
    ensures (a ^ p) ^ (b ^ p) == a ^ b
  {
  }

  lemma BitStepLinear(a: bv64, b: bv64)
    ensures BitStep(a ^ b) == BitStep(a) ^ BitStep(b)
  {
    ShiftXor(a, b);
    if Odd(a) && Odd(b) {
      XorBoth(a >> 1, b >> 1, POLYNOMIAL);
    } else if Odd(a) {
      XorLeft(a >> 1, b >> 1, POLYNOMIAL);
    } else if Odd(b) {
      XorRight(a >> 1, b >> 1, POLYNOMIAL);
    }
  }

  // Undoes one step: the polynomial's top bit tells which branch was taken.
  function BitBack(crc: bv64): bv64 {
    if crc >> 63 == 1 then ((crc ^ POLYNOMIAL) << 1) | 1 else crc << 1
  }

  lemma BitStepInvertible(crc: bv64)
    ensures BitBack(BitStep(crc)) == crc
  {
  }

  lemma XorCancel(a: bv64, b: bv64, w: bv64)
    requires a ^ w == b ^ w
    ensures a == b
  {
  }

  lemma BitStepIsLinear()
    ensures Linear(BitStep, Xor)
  {
    forall a, b ensures BitStep(Xor(a, b)) == Xor(BitStep(a), BitStep(b)) {
      BitStepLinear(a, b);
    }
  }

  lemma BitStepIsInjective()
    ensures Injective(BitStep)
  {
    forall a, b | BitStep(a) == BitStep(b) ensures a == b {
      BitStepInvertible(a);
      BitStepInvertible(b);
    }
  }

  lemma MixIsInjective()
    ensures InjectiveInState(Mix)
  {
    forall a, b, c | Mix(a, c) == Mix(b, c) ensures a == b {
      XorCancel(a, b, ToBits(c));
    }
  }

  lemma AbsorbIsStepped()
    ensures Stepped(Absorb, BitStep, Mix, BYTE_BITS)
  {
  }

  lemma AbsorbIsInjective()
    ensures InjectiveInState(Absorb)
  {
    BitStepIsInjective();
    MixIsInjective();
    AbsorbIsStepped();
    IterateAfterInjective(BitStep, Mix, Absorb, BYTE_BITS);
  }
}
