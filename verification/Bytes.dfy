/** Bytes as numbers, with the bitwise operations the codecs apply to them. */
module Bytes {
  type octet = b: int | 0 <= b < 256

  const BITS: nat := 8

  function Pow2(n: nat): nat { if n == 0 then 1 else 2 * Pow2(n - 1) }

  lemma OctetBits()
    ensures Pow2(BITS) == 256
  {
    assert Pow2(4) == 16;
  }

  function XorBit(i: nat, j: nat): nat { if i % 2 == j % 2 then 0 else 1 }

  function OrBit(i: nat, j: nat): nat { if i % 2 == 0 && j % 2 == 0 then 0 else 1 }

  /** Exclusive or of the low `n` bits. */
  function XorBits(a: nat, b: nat, n: nat): (r: nat)
    ensures r < Pow2(n)
  {
    if n == 0 then 0 else XorBit(a, b) + 2 * XorBits(a / 2, b / 2, n - 1)
  }

  /** Inclusive or of the low `n` bits. */
  function OrBits(a: nat, b: nat, n: nat): (r: nat)
    ensures r < Pow2(n)
  {
    if n == 0 then 0 else OrBit(a, b) + 2 * OrBits(a / 2, b / 2, n - 1)
  }

  function Xor(a: octet, b: octet): octet { OctetBits(); XorBits(a, b, BITS) }

  function Or(a: octet, b: octet): octet { OctetBits(); OrBits(a, b, BITS) }

  lemma Halves(i: nat, r: nat)
    requires i < 2
    ensures (i + 2 * r) / 2 == r && (i + 2 * r) % 2 == i
  {
  }

  lemma {:induction false} XorBitsBack(a: nat, b: nat, n: nat)
    requires a < Pow2(n)
    ensures XorBits(XorBits(a, b, n), b, n) == a
  {
    if n > 0 {
      XorBitsBack(a / 2, b / 2, n - 1);
      Halves(XorBit(a, b), XorBits(a / 2, b / 2, n - 1));
    }
  }

  lemma {:induction false} XorBitsZero(a: nat, b: nat, n: nat)
    requires a < Pow2(n) && b < Pow2(n)
    ensures XorBits(a, b, n) == 0 <==> a == b
  {
    if n > 0 { XorBitsZero(a / 2, b / 2, n - 1); }
  }

  lemma {:induction false} OrBitsZero(a: nat, b: nat, n: nat)
    requires a < Pow2(n) && b < Pow2(n)
    ensures OrBits(a, b, n) == 0 <==> a == 0 && b == 0
  {
    if n > 0 { OrBitsZero(a / 2, b / 2, n - 1); }
  }

  lemma {:induction false} OrBitsNeutral(a: nat, n: nat)
    requires a < Pow2(n)
    ensures OrBits(a, 0, n) == a && OrBits(0, a, n) == a
  {
    if n > 0 { OrBitsNeutral(a / 2, n - 1); }
  }

  lemma OrNeutral(a: octet)
    ensures Or(a, 0) == a && Or(0, a) == a
  {
    OctetBits();
    OrBitsNeutral(a, BITS);
  }

  /** Setting the lowest bit of an even number. */
  lemma OrOne(a: octet)
    requires a % 2 == 0
    ensures Or(a, 1) == a + 1
  {
    OctetBits();
    OrBitsNeutral(a / 2, BITS - 1);
  }

  lemma XorTwice(a: octet, b: octet)
    ensures Xor(Xor(a, b), b) == a
  {
    OctetBits();
    XorBitsBack(a, b, BITS);
  }

  lemma XorZero(a: octet, b: octet)
    ensures Xor(a, b) == 0 <==> a == b
  {
    OctetBits();
    XorBitsZero(a, b, BITS);
  }

  lemma OrZero(a: octet, b: octet)
    ensures Or(a, b) == 0 <==> a == 0 && b == 0
  {
    OctetBits();
    OrBitsZero(a, b, BITS);
  }

  /** Bit `k` of a number. */
  function Bit(a: nat, k: nat): nat { if k == 0 then a % 2 else Bit(a / 2, k - 1) }

  lemma {:induction false} XorBitsAt(a: nat, b: nat, n: nat, k: nat)
    requires k < n
    ensures Bit(XorBits(a, b, n), k) == (if Bit(a, k) == Bit(b, k) then 0 else 1)
    decreases n
  {
    var r := XorBits(a / 2, b / 2, n - 1);
    Halves(XorBit(a, b), r);
    if k > 0 {
      XorBitsAt(a / 2, b / 2, n - 1, k - 1);
    }
  }

  /** Exclusive or differs from zero exactly in the bits in which its arguments differ. */
  lemma XorAt(a: octet, b: octet, k: nat)
    requires k < 8
    ensures Bit(Xor(a, b), k) == (if Bit(a, k) == Bit(b, k) then 0 else 1)
  {
    XorBitsAt(a, b, BITS, k);
  }

  lemma {:induction false} XorBitsNeutral(a: nat, n: nat)
    requires a < Pow2(n)
    ensures XorBits(a, 0, n) == a
  {
    if n > 0 { XorBitsNeutral(a / 2, n - 1); }
  }

  /** Exclusive or with a power of two flips that bit. */
  lemma {:induction false} XorPow(a: nat, m: nat, n: nat)
    requires a < Pow2(n) && m < n
    ensures XorBits(a, Pow2(m), n) == if Bit(a, m) == 1 then a - Pow2(m) else a + Pow2(m)
    decreases n
  {
    if m == 0 {
      XorBitsNeutral(a / 2, n - 1);
    } else {
      XorPow(a / 2, m - 1, n - 1);
    }
  }
}
