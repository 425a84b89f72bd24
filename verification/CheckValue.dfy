// The check value published for CRC-64/XZ: the checksum of the nine digits "123456789" (src/core/crc64.cpp).
module CheckValue {
  import opened Base
  import opened Fold
  import opened Checksum

  // The digits from one up to n.
  function Counting(n: nat): Bytes
    requires n < 10
  {
    if n == 0 then [] else Counting(n - 1) + [(0x30 + n) as Byte]
  }

  function Eight(x: bv64): bv64 { BitStep(BitStep(BitStep(BitStep(BitStep(BitStep(BitStep(BitStep(x)))))))) }

  lemma EightSteps(x: bv64)
    ensures Iterate(BitStep, x, BYTE_BITS) == Eight(x)
  {
    var a := BitStep(x);
    var b := BitStep(BitStep(a));
    var c := BitStep(BitStep(b));
    var d := BitStep(BitStep(c));
    assert Iterate(BitStep, x, BYTE_BITS) == Iterate(BitStep, a, 7);
    assert Iterate(BitStep, a, 7) == Iterate(BitStep, b, 5);
    assert Iterate(BitStep, b, 5) == Iterate(BitStep, c, 3);
    assert Iterate(BitStep, c, 3) == Iterate(BitStep, d, 1);
  }

  // The digits as words, one more bit at a time.
  lemma FourBits()
    ensures LowBits(3, 4) == 3
  {
    assert LowBits(0, 2) == 0;
    assert LowBits(1, 3) == Push(1, LowBits(0, 2));
  }

  lemma SixBits()
    ensures LowBits(0xC, 6) == 0xC && LowBits(0xD, 6) == 0xD && LowBits(0xE, 6) == 0xE
  {
    FourBits();
    assert LowBits(6, 5) == Push(0, LowBits(3, 4));
    assert LowBits(7, 5) == Push(1, LowBits(3, 4));
  }

  lemma SevenBits()
    ensures LowBits(0x18, 7) == 0x18 && LowBits(0x19, 7) == 0x19 && LowBits(0x1A, 7) == 0x1A
    ensures LowBits(0x1B, 7) == 0x1B && LowBits(0x1C, 7) == 0x1C
  {
    SixBits();
    assert LowBits(0x18, 7) == Push(0, LowBits(0xC, 6)) && LowBits(0x19, 7) == Push(1, LowBits(0xC, 6));
    assert LowBits(0x1A, 7) == Push(0, LowBits(0xD, 6)) && LowBits(0x1B, 7) == Push(1, LowBits(0xD, 6));
    assert LowBits(0x1C, 7) == Push(0, LowBits(0xE, 6));
  }

  lemma Words()
    ensures ToBits(0x31) == 0x31 && ToBits(0x32) == 0x32 && ToBits(0x33) == 0x33 && ToBits(0x34) == 0x34 && ToBits(0x35) == 0x35
    ensures ToBits(0x36) == 0x36 && ToBits(0x37) == 0x37 && ToBits(0x38) == 0x38 && ToBits(0x39) == 0x39
  {
    SevenBits();
  }

  lemma Absorbs(crc: bv64, b: Byte, word: bv64, next: bv64)
    requires ToBits(b) == word && Eight(crc ^ word) == next
    ensures Absorb(crc, b) == next
  {
    EightSteps(crc ^ word);
  }

  lemma AllAbsorbed()
    ensures Absorb(0xFFFF_FFFF_FFFF_FFFF, 0x31) == 0xD5D0_F17A_6B6A_3512
    ensures Absorb(0xD5D0_F17A_6B6A_3512, 0x32) == 0xFBE2_9281_D80D_A6A7
    ensures Absorb(0xFBE2_9281_D80D_A6A7, 0x33) == 0xCFDC_D7BB_F8E3_3A9E
    ensures Absorb(0xCFDC_D7BB_F8E3_3A9E, 0x34) == 0x31B1_786C_9947_3CD7
    ensures Absorb(0x31B1_786C_9947_3CD7, 0x35) == 0xA258_B900_5AFB_A316
    ensures Absorb(0xA258_B900_5AFB_A316, 0x36) == 0xFB95_1AC9_A23C_3731
    ensures Absorb(0xFB95_1AC9_A23C_3731, 0x37) == 0x8FAF_60C9_9E6D_C25F
    ensures Absorb(0x8FAF_60C9_9E6D_C25F, 0x38) == 0xA374_7FB7_D453_87F6
    ensures Absorb(0xA374_7FB7_D453_87F6, 0x39) == 0x66A2_3644_20E6_C605
  {
    Words();
    Absorbs(0xFFFF_FFFF_FFFF_FFFF, 0x31, 0x31, 0xD5D0_F17A_6B6A_3512);
    Absorbs(0xD5D0_F17A_6B6A_3512, 0x32, 0x32, 0xFBE2_9281_D80D_A6A7);
    Absorbs(0xFBE2_9281_D80D_A6A7, 0x33, 0x33, 0xCFDC_D7BB_F8E3_3A9E);
    Absorbs(0xCFDC_D7BB_F8E3_3A9E, 0x34, 0x34, 0x31B1_786C_9947_3CD7);
    Absorbs(0x31B1_786C_9947_3CD7, 0x35, 0x35, 0xA258_B900_5AFB_A316);
    Absorbs(0xA258_B900_5AFB_A316, 0x36, 0x36, 0xFB95_1AC9_A23C_3731);
    Absorbs(0xFB95_1AC9_A23C_3731, 0x37, 0x37, 0x8FAF_60C9_9E6D_C25F);
    Absorbs(0x8FAF_60C9_9E6D_C25F, 0x38, 0x38, 0xA374_7FB7_D453_87F6);
    Absorbs(0xA374_7FB7_D453_87F6, 0x39, 0x39, 0x66A2_3644_20E6_C605);
  }

  lemma OneMoreByte(crc: bv64, data: Bytes, b: Byte)
    ensures Run(crc, data + [b]) == Absorb(Run(crc, data), b)
  {
    OverConcat(Absorb, crc, data, [b]);
  }

  // The register after the first digits.
  lemma FirstDigits()
    ensures Run(INIT, Counting(1)) == 0xD5D0_F17A_6B6A_3512
    ensures Run(INIT, Counting(2)) == 0xFBE2_9281_D80D_A6A7
    ensures Run(INIT, Counting(3)) == 0xCFDC_D7BB_F8E3_3A9E
    ensures Run(INIT, Counting(4)) == 0x31B1_786C_9947_3CD7
    ensures Run(INIT, Counting(5)) == 0xA258_B900_5AFB_A316
    ensures Run(INIT, Counting(6)) == 0xFB95_1AC9_A23C_3731
    ensures Run(INIT, Counting(7)) == 0x8FAF_60C9_9E6D_C25F
    ensures Run(INIT, Counting(8)) == 0xA374_7FB7_D453_87F6
    ensures Run(INIT, Counting(9)) == 0x66A2_3644_20E6_C605
  {
    AllAbsorbed();
    assert Run(INIT, Counting(0)) == INIT;
    OneMoreByte(INIT, Counting(0), 0x31);
    OneMoreByte(INIT, Counting(1), 0x32);
    OneMoreByte(INIT, Counting(2), 0x33);
    OneMoreByte(INIT, Counting(3), 0x34);
    OneMoreByte(INIT, Counting(4), 0x35);
    OneMoreByte(INIT, Counting(5), 0x36);
    OneMoreByte(INIT, Counting(6), 0x37);
    OneMoreByte(INIT, Counting(7), 0x38);
    OneMoreByte(INIT, Counting(8), 0x39);
  }

  // What the repository's tests compare the checksum with.
  lemma PublishedValue()
    ensures Crc(Counting(9)) == 0x995D_C9BB_DF19_39FA
  {
    FirstDigits();
  }
}
