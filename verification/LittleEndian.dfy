// Fixed-width little-endian integers: the writers and readers of src/transport/frame.cpp and
// src/persistence/snapshot.cpp put `(value >> 8 * i) & 0xFF`, the i-th digit to base 256.
module LittleEndian {
  import opened Base

  type u16 = n: nat | n < 0x1_0000
  type u32 = n: nat | n < 0x1_0000_0000
  type u64 = n: nat | n < 0x1_0000_0000_0000_0000

  const BYTE: nat := 1
  const HALF: nat := 2
  const WORD: nat := 4
  const LONG: nat := 8

  const U32_MAX: nat := 0xFFFF_FFFF
  const U64_MAX: nat := 0xFFFF_FFFF_FFFF_FFFF

  function Pow256(width: nat): (r: nat)
    ensures r > 0
  {
    if width == 0 then 1 else 256 * Pow256(width - 1)
  }

  // The low `width` digits of n, least significant first.
  function Put(n: nat, width: nat): (r: Bytes)
    ensures |r| == width
    decreases width
  {
    if width == 0 then [] else [(n % 256) as Byte] + Put(n / 256, width - 1)
  }

  function Get(digits: Bytes): nat {
    if digits == [] then 0 else digits[0] as nat + 256 * Get(digits[1..])
  }

  lemma Widths()
    ensures Pow256(BYTE) == 256 && Pow256(HALF) == 0x1_0000 && Pow256(WORD) == 0x1_0000_0000 && Pow256(LONG) == 0x1_0000_0000_0000_0000
  {
    assert Pow256(3) == 0x100_0000;
    assert Pow256(6) == 0x1_0000_0000_0000;
  }

  lemma {:induction false} GetPut(n: nat, width: nat)
    requires n < Pow256(width)
    ensures Get(Put(n, width)) == n
    decreases width
  {
    if width > 0 {
      GetPut(n / 256, width - 1);
      assert Put(n, width)[1..] == Put(n / 256, width - 1);
    }
  }

  lemma {:induction false} PutGet(digits: Bytes)
    ensures Get(digits) < Pow256(|digits|)
    ensures Put(Get(digits), |digits|) == digits
  {
    if digits != [] {
      PutGet(digits[1..]);
      assert Get(digits) / 256 == Get(digits[1..]) && Get(digits) % 256 == digits[0] as nat;
      assert digits == [digits[0]] + digits[1..];
    }
  }

  // The writers' loop: one digit per iteration, appended to what is there.
  method Append(out: Bytes, value: nat, width: nat) returns (next: Bytes)
    ensures next == out + Put(value, width)
  {
    next := out;
    var rest := value;
    for i := 0 to width
      invariant next + Put(rest, width - i) == out + Put(value, width)
    {
      next := next + [(rest % 256) as Byte];
      rest := rest / 256;
    }
  }
}
