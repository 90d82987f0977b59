/** Bytes and the few operations on them that the codecs and the cipher share. */
module Bytes {

  type byte = x: int | 0 <= x < 256

  /** The low `width` bits of `a ^ b`, one bit at a time from the least significant. */
  function XorBits(a: nat, b: nat, width: nat): nat {
    if width == 0 then 0
    else (if a % 2 == b % 2 then 0 else 1) + 2 * XorBits(a / 2, b / 2, width - 1)
  }

  function Pow2(n: nat): (p: nat)
    ensures p > 0
  {
    if n == 0 then 1 else 2 * Pow2(n - 1)
  }

  function Pow256(k: nat): (p: nat)
    ensures p > 0
  {
    if k == 0 then 1 else 0x100 * Pow256(k - 1)
  }

  lemma {:induction false} XorBitsLaws(a: nat, b: nat, c: nat, width: nat)
    requires a < Pow2(width)
    ensures XorBits(a, b, width) < Pow2(width)
    ensures XorBits(a, b, width) == XorBits(b, a, width)
    ensures XorBits(XorBits(a, b, width), b, width) == a
    ensures XorBits(XorBits(a, b, width), c, width) == XorBits(a, XorBits(b, c, width), width)
    ensures XorBits(a, 0, width) == a
  {
    if width > 0 {
      XorBitsLaws(a / 2, b / 2, c / 2, width - 1);
      assert XorBits(a, b, width) / 2 == XorBits(a / 2, b / 2, width - 1);
      assert XorBits(b, c, width) / 2 == XorBits(b / 2, c / 2, width - 1);
    }
  }

  /** Bitwise exclusive or of two bytes. */
  function Xor(a: byte, b: byte): byte {
    assert Pow2(8) == 256;
    XorBitsLaws(a, b, 0, 8);
    XorBits(a, b, 8)
  }

  lemma XorLaws(a: byte, b: byte, c: byte)
    ensures Xor(a, b) == Xor(b, a)
    ensures Xor(Xor(a, b), b) == a
    ensures Xor(Xor(a, b), c) == Xor(a, Xor(b, c))
    ensures Xor(a, 0) == a
  {
    assert Pow2(8) == 256;
    XorBitsLaws(a, b, c, 8);
  }
}
