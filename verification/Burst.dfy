// What CRC-64 detects: exactly the differences the linear register does not annihilate, and hence
// every difference confined to eight consecutive bytes.
module Burst {
  import opened Base
  import opened Fold
  import opened Checksum

  const WINDOW: nat := 8

  function Raise(high: bv64): bv64 { high << 8 }

  // Puts a byte below a word, little endian.
  function Join(b: Byte, high: bv64): bv64 {
    Xor(ToBits(b), Raise(high))
  }

  // The word occupies at most n bytes.
  predicate Fits(word: bv64, n: nat) {
    match n
    case 0 => word == 0
    case 1 => word >> 8 == 0
    case 2 => word >> 16 == 0
    case 3 => word >> 24 == 0
    case 4 => word >> 32 == 0
    case 5 => word >> 40 == 0
    case 6 => word >> 48 == 0
    case 7 => word >> 56 == 0
    case _ => true
  }

  function Word(data: Bytes): bv64 { Spell(Join, 0, data) }

  // ---- Bit-vector facts, one at a time ----

  // The word occupies at most n bits.
  predicate Narrow(x: bv64, n: nat) {
    match n
    case 0 => x == 0
    case 1 => x >> 1 == 0
    case 2 => x >> 2 == 0
    case 3 => x >> 3 == 0
    case 4 => x >> 4 == 0
    case 5 => x >> 5 == 0
    case 6 => x >> 6 == 0
    case 7 => x >> 7 == 0
    case 8 => x >> 8 == 0
    case _ => true
  }

  lemma PushNarrow(bit: bv64, x: bv64, n: nat)
    requires bit == 0 || bit == 1
    requires n < 8 && Narrow(x, n)
    ensures Narrow(Xor(bit, Double(x)), n + 1)
  {
  }

  lemma PushInjective(p: bv64, x: bv64, q: bv64, y: bv64)
    requires (p == 0 || p == 1) && (q == 0 || q == 1)
    requires x >> 8 == 0 && y >> 8 == 0
    requires Xor(p, Double(x)) == Xor(q, Double(y))
    ensures p == q && x == y
  {
  }

  lemma WidenNarrow(x: bv64, n: nat)
    requires n <= 8 && Narrow(x, n)
    ensures x >> 8 == 0
  {
  }

  lemma {:induction false} LowBitsNarrow(v: nat, n: nat)
    requires n <= 8
    ensures Narrow(LowBits(v, n), n)
  {
    if n > 0 {
      LowBitsNarrow(v / 2, n - 1);
      PushNarrow(Bit(v % 2 == 1), LowBits(v / 2, n - 1), n - 1);
    }
  }

  lemma {:induction false} LowBitsInjective(v: nat, w: nat, n: nat)
    requires n <= 8 && v < Pow2(n) && w < Pow2(n)
    requires LowBits(v, n) == LowBits(w, n)
    ensures v == w
  {
    if n > 0 {
      LowBitsNarrow(v / 2, n - 1);
      LowBitsNarrow(w / 2, n - 1);
      WidenNarrow(LowBits(v / 2, n - 1), n - 1);
      WidenNarrow(LowBits(w / 2, n - 1), n - 1);
      PushInjective(Bit(v % 2 == 1), LowBits(v / 2, n - 1), Bit(w % 2 == 1), LowBits(w / 2, n - 1));
      LowBitsInjective(v / 2, w / 2, n - 1);
    }
  }

  lemma ToBitsFits(b: Byte)
    ensures ToBits(b) >> 8 == 0
  {
    LowBitsNarrow(b as nat, BYTE_BITS);
  }

  lemma ToBitsInjective(a: Byte, b: Byte)
    requires ToBits(a) == ToBits(b)
    ensures a == b
  {
    assert Pow2(8) == 256;
    LowBitsInjective(a as nat, b as nat, BYTE_BITS);
  }

  lemma LowByte(low: bv64, high: bv64)
    requires low >> 8 == 0 && high >> 56 == 0
    ensures (low ^ (high << 8)) & 0xFF == low
  {
  }

  lemma HighBytes(low: bv64, high: bv64)
    requires low >> 8 == 0 && high >> 56 == 0
    ensures (low ^ (high << 8)) >> 8 == high
  {
  }

  lemma JoinInjective(p: Byte, h: bv64, q: Byte, k: bv64)
    requires Fits(h, 7) && Fits(k, 7) && Join(p, h) == Join(q, k)
    ensures p == q && h == k
  {
    ToBitsFits(p);
    ToBitsFits(q);
    LowByte(ToBits(p), h);
    LowByte(ToBits(q), k);
    HighBytes(ToBits(p), h);
    HighBytes(ToBits(q), k);
    ToBitsInjective(p, q);
  }

  lemma JoinFitsRaw(low: bv64, high: bv64, n: nat)
    requires low >> 8 == 0 && n < 7 && Fits(high, n)
    ensures Fits(low ^ (high << 8), n + 1)
  {
  }

  lemma WidenFits(word: bv64, n: nat)
    requires n <= 7 && Fits(word, n)
    ensures Fits(word, 7)
  {
  }

  lemma JoinIsFitting()
    ensures Fitting(Join, 0, Fits, 7)
  {
    forall b, h, n: nat | n < 7 && Fits(h, n) ensures Fits(Join(b, h), n + 1) {
      ToBitsFits(b);
      JoinFitsRaw(ToBits(b), h, n);
    }
    forall h, n: nat | n <= 7 && Fits(h, n) ensures Fits(h, 7) {
      WidenFits(h, n);
    }
  }

  lemma DoubleStep(x: bv64)
    requires x >> 63 == 0
    ensures BitStep(x << 1) == x
  {
  }

  // The top n bits are clear.
  predicate Room(x: bv64, n: nat) {
    match n
    case 0 => true
    case 1 => x >> 63 == 0
    case 2 => x >> 62 == 0
    case 3 => x >> 61 == 0
    case 4 => x >> 60 == 0
    case 5 => x >> 59 == 0
    case 6 => x >> 58 == 0
    case 7 => x >> 57 == 0
    case 8 => x >> 56 == 0
    case _ => false
  }

  lemma DoubleRoom(x: bv64, n: nat)
    requires n > 0 && Room(x, n)
    ensures Room(Double(x), n - 1)
  {
  }

  lemma RoomAtLeastOne(x: bv64, n: nat)
    requires n > 0 && Room(x, n)
    ensures x >> 63 == 0
  {
  }

  lemma ShiftsAdd(x: bv64)
    ensures Double(Double(x)) == x << 2
    ensures (x << 2) << 2 == x << 4
    ensures (x << 4) << 4 == x << 8
  {
  }

  lemma ShiftsUp(x: bv64)
    ensures Iterate(Double, x, BYTE_BITS) == x << 8
  {
    ShiftsAdd(x);
    ShiftsAdd(x << 2);
    ShiftsAdd(x << 4);
    ShiftsAdd((x << 4) << 2);
    IterateCompose(Double, x, 2, 6);
    IterateCompose(Double, x << 2, 2, 4);
    IterateCompose(Double, x << 4, 2, 2);
  }

  // Eight steps move a word down one byte when its low byte is clear.
  lemma ShiftOut(h: bv64)
    requires Fits(h, 7)
    ensures Iterate(BitStep, h << 8, BYTE_BITS) == h
  {
    forall y, k: nat | k > 0 && Room(y, k) ensures Room(Double(y), k - 1) && BitStep(Double(y)) == y {
      DoubleRoom(y, k);
      RoomAtLeastOne(y, k);
      DoubleStep(y);
    }
    IterateUndo(BitStep, Double, Room, h, BYTE_BITS);
    ShiftsUp(h);
  }

  lemma XorAssociative()
    ensures Associative(Xor)
  {
    forall a, b, c ensures Xor(Xor(a, b), c) == Xor(a, Xor(b, c)) {
      XorRight(a, c, b);
      XorLeft(a, c, b);
    }
  }

  lemma MixThenJoin(crc: bv64, b: Byte, high: bv64)
    ensures Xor(Mix(crc, b), Raise(high)) == Xor(crc, Join(b, high))
  {
    XorAssociative();
  }

  lemma XorZero()
    ensures forall y :: Xor(y, 0) == y
  {
  }

  lemma AbsorbThenXor(crc: bv64, b: Byte, high: bv64)
    requires Fits(high, 7)
    ensures Xor(Absorb(crc, b), high) == Iterate(BitStep, Xor(crc, Join(b, high)), BYTE_BITS)
  {
    BitStepIsLinear();
    IterateLinear(BitStep, Xor, Mix(crc, b), Raise(high), BYTE_BITS);
    ShiftOut(high);
    MixThenJoin(crc, b, high);
  }

  lemma AbsorbIsAbsorbing()
    ensures Absorbing(BitStep, Absorb, Xor, Join, Fits, BYTE_BITS, 7)
  {
    forall x, b, h | Fits(h, 7)
      ensures Xor(Absorb(x, b), h) == Iterate(BitStep, Xor(x, Join(b, h)), BYTE_BITS)
    {
      AbsorbThenXor(x, b, h);
    }
  }

  // ---- Detection ----

  // Processing up to eight bytes equals xoring them in as one word, then stepping once per bit.
  lemma WindowIsWord(crc: bv64, window: Bytes)
    requires |window| <= WINDOW
    ensures Run(crc, window) == Iterate(BitStep, Xor(crc, Word(window)), BYTE_BITS * |window|)
  {
    AbsorbIsAbsorbing();
    JoinIsFitting();
    XorZero();
    WindowAtOnce(BitStep, Absorb, Xor, Join, 0, Fits, BYTE_BITS, 7, crc, window);
  }

  lemma RunConcat(crc: bv64, a: Bytes, b: Bytes)
    ensures Run(Run(crc, a), b) == Run(crc, a + b)
  {
    OverConcat(Absorb, crc, a, b);
  }

  lemma SameCrcSameRun(a: Bytes, b: Bytes)
    requires Crc(a) == Crc(b)
    ensures Run(INIT, a) == Run(INIT, b)
  {
    XorCancel(Run(INIT, a), Run(INIT, b), XOR_OUT);
  }

  lemma SameWindowState(crc: bv64, a: Bytes, b: Bytes)
    requires |a| == |b| <= WINDOW
    requires Run(crc, a) == Run(crc, b)
    ensures a == b
  {
    WindowIsWord(crc, a);
    WindowIsWord(crc, b);
    BitStepIsInjective();
    IterateInjective(BitStep, Xor(crc, Word(a)), Xor(crc, Word(b)), BYTE_BITS * |a|);
    XorCancelLeft(crc, Word(a), Word(b));
    JoinIsFitting();
    forall p, q, h, k | Fits(h, 7) && Fits(k, 7) && Join(p, h) == Join(q, k) ensures p == q && h == k {
      JoinInjective(p, h, q, k);
    }
    SpellInjective(Join, 0, Fits, 7, a, b);
  }

  lemma XorCancelLeft(w: bv64, a: bv64, b: bv64)
    requires Xor(w, a) == Xor(w, b)
    ensures a == b
  {
  }

  // Two payloads of equal length that differ only inside one window of eight consecutive bytes
  // never have the same checksum, whatever surrounds the window.
  lemma WindowDetected(before: Bytes, a: Bytes, b: Bytes, after: Bytes)
    requires |a| == |b| <= WINDOW
    requires a != b
    ensures Crc(before + a + after) != Crc(before + b + after)
  {
    if Crc(before + a + after) == Crc(before + b + after) {
      SameCrcSameRun(before + a + after, before + b + after);
      RunConcat(INIT, before + a, after);
      RunConcat(INIT, before + b, after);
      AbsorbIsInjective();
      OverInjective(Absorb, Run(INIT, before + a), Run(INIT, before + b), after);
      RunConcat(INIT, before, a);
      RunConcat(INIT, before, b);
      SameWindowState(Run(INIT, before), a, b);
      assert false;
    }
  }

  function XorByte(a: Byte, b: Byte): Byte {
    assert Pow2(8) == 256;
    XorLow(a as nat, b as nat, BYTE_BITS) as Byte
  }

  lemma XorInterchanges()
    ensures Interchange(Xor)
  {
    XorAssociative();
    assert Commutative(Xor);
    InterchangeFromLaws(Xor);
  }

  lemma DoubleIsLinear()
    ensures Linear(Double, Xor)
  {
  }

  lemma BitIsLinear()
    ensures forall a, b :: Bit(a != b) == Xor(Bit(a), Bit(b))
  {
  }

  lemma PushIsLinear()
    ensures LinearPush(Push, Xor)
  {
    XorInterchanges();
    DoubleIsLinear();
    PushFromLaws(Push, Xor, Double);
  }

  lemma LowBitsXor(v: nat, w: nat, n: nat)
    ensures LowBits(XorLow(v, w, n), n) == Xor(LowBits(v, n), LowBits(w, n))
  {
    PushIsLinear();
    BitIsLinear();
    DigitsLinear(Bit, Push, 0, Xor, v, w, n);
  }

  lemma XorByteBits(a: Byte, b: Byte)
    ensures ToBits(XorByte(a, b)) == Xor(ToBits(a), ToBits(b))
  {
    LowBitsXor(a as nat, b as nat, BYTE_BITS);
  }

  lemma ToBitsIsLinear()
    ensures LinearLift(ToBits, XorByte, Xor)
  {
    forall c, d ensures ToBits(XorByte(c, d)) == Xor(ToBits(c), ToBits(d)) {
      XorByteBits(c, d);
    }
  }

  lemma MixIsLifted()
    ensures LiftedMix(Mix, Xor, ToBits)
  {
  }

  lemma AbsorbIsLinear()
    ensures LinearFold(Absorb, Xor, XorByte)
  {
    BitStepIsLinear();
    XorInterchanges();
    ToBitsIsLinear();
    MixIsLifted();
    AbsorbIsStepped();
    IterateAfterLinear(BitStep, Mix, Absorb, ToBits, Xor, XorByte, BYTE_BITS);
  }

  lemma RunDifference(x: bv64, a: Bytes, b: Bytes)
    requires |a| == |b|
    ensures Run(0, Zip(XorByte, a, b)) == Xor(Run(x, a), Run(x, b))
  {
    AbsorbIsLinear();
    OverLinear(Absorb, Xor, XorByte, x, x, a, b);
    XorZeroIff(x, x);
  }

  // Exactly which differences go unseen: those the register, started at zero, maps to zero.
  lemma UndetectedDifference(a: Bytes, b: Bytes)
    requires |a| == |b|
    ensures Crc(a) == Crc(b) <==> Run(0, Zip(XorByte, a, b)) == 0
  {
    RunDifference(INIT, a, b);
    XorZeroIff(Run(INIT, a), Run(INIT, b));
    if Crc(a) == Crc(b) {
      SameCrcSameRun(a, b);
    }
  }

  lemma XorZeroIff(a: bv64, b: bv64)
    ensures Xor(a, b) == 0 <==> a == b
  {
    if Xor(a, b) == 0 {
      XorAssociative();
      assert Xor(Xor(a, b), b) == Xor(a, Xor(b, b));
      assert b ^ b == 0;
      assert a ^ 0 == a;
      assert 0 ^ b == b;
    }
  }
}
