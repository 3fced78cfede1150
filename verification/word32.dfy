/** Fixed-width machine integers used by the benchmark: the unsigned 32-bit
    accumulator of the work function, and the signed `int`/`long` widths of
    the C++ configuration and of Go's `int`. Integers in Dafny are unbounded,
    so every wrap-around is written out here. */
module Word32 {

  const Modulus: int := 0x1_0000_0000

  /** A value of C's `uint32_t` / Go's `uint32`. */
  type U32 = x: int | 0 <= x < 0x1_0000_0000

  /** A value of C's 32-bit `int`. */
  type Int32 = x: int | -0x8000_0000 <= x < 0x8000_0000

  /** A value of C's 64-bit `long` (LP64) and of Go's `int` on 64-bit targets. */
  type Int64 = x: int | -0x8000_0000_0000_0000 <= x < 0x8000_0000_0000_0000

  /** Conversion of any integer to `uint32_t`: reduction modulo 2^32. */
  function Wrap(x: int): (r: U32)
    ensures (r - x) % Modulus == 0
  {
    x % Modulus
  }

  /** Conversion of a `long` to `int` (C++20: the unique value congruent modulo 2^32). */
  function WrapInt32(x: int): (r: Int32)
    ensures (r - x) % Modulus == 0
    ensures -0x8000_0000 <= x < 0x8000_0000 ==> r == x
  {
    var u := x % Modulus;
    if u < 0x8000_0000 then u else u - Modulus
  }

  function Pow2(k: nat): (r: nat)
    ensures r >= 1
  {
    if k == 0 then 1 else 2 * Pow2(k - 1)
  }

  /** Bitwise exclusive or of two non-negative integers, one binary digit
      at a time from the least significant end. */
  function XorBits(a: nat, b: nat): nat
    decreases a
  {
    if a == 0 then b
    else if b == 0 then a
    else 2 * XorBits(a / 2, b / 2) + (if a % 2 == b % 2 then 0 else 1)
  }

  /** Exclusive or never sets a bit above the operands' width. */
  lemma {:induction false} XorBitsBelow(a: nat, b: nat, k: nat)
    requires a < Pow2(k) && b < Pow2(k)
    ensures XorBits(a, b) < Pow2(k)
    decreases a
  {
    if a != 0 && b != 0 {
      XorBitsBelow(a / 2, b / 2, k - 1);
    }
  }

  /** Every word XOR-ed with itself is zero. */
  lemma {:induction false} XorBitsSelf(a: nat)
    ensures XorBits(a, a) == 0
    decreases a
  {
    if a != 0 {
      XorBitsSelf(a / 2);
    }
  }

  lemma {:induction false} Pow2Width()
    ensures Pow2(32) == Modulus
  {
    assert Pow2(8) == 0x100;
    assert Pow2(16) == 0x1_0000;
    assert Pow2(24) == 0x100_0000;
  }

  /** Bitwise exclusive or of two 32-bit words (`fetch_xor`). */
  function Xor(a: U32, b: U32): U32
  {
    Pow2Width();
    XorBitsBelow(a, b, 32);
    XorBits(a, b)
  }
}
