/** Python's `^` on non-negative integers, defined bit by bit, with the
    algebra the checksum relies on. */
module Bits {
  type Byte = x: int | 0 <= x < 256

  function Pow2(n: nat): (p: nat)
    ensures p >= 1
  {
    if n == 0 then 1 else 2 * Pow2(n - 1)
  }

  /** The lowest bit of a ^ b. */
  function Bit(a: nat, b: nat): nat {
    if a % 2 == b % 2 then 0 else 1
  }

  /** Bitwise exclusive or, least significant bit first. */
  function Xor(a: nat, b: nat): nat
    decreases a + b
  {
    if a == 0 && b == 0 then 0 else 2 * Xor(a / 2, b / 2) + Bit(a, b)
  }

  lemma XorHalves(a: nat, b: nat)
    ensures Xor(a, b) / 2 == Xor(a / 2, b / 2)
    ensures Xor(a, b) % 2 == Bit(a, b)
  {
  }

  lemma XorStep(a: nat, b: nat)
    requires a != 0 || b != 0
    ensures Xor(a, b) == 2 * Xor(a / 2, b / 2) + Bit(a, b)
  {
  }

  /** Two numbers below 2^n have an exclusive or below 2^n. */
  lemma {:induction false} XorBound(a: nat, b: nat, n: nat)
    requires a < Pow2(n) && b < Pow2(n)
    ensures Xor(a, b) < Pow2(n)
    decreases n
  {
    if n > 0 && !(a == 0 && b == 0) {
      XorBound(a / 2, b / 2, n - 1);
    }
  }

  lemma {:induction false} XorSelf(a: nat)
    ensures Xor(a, a) == 0
    decreases a
  {
    if a != 0 {
      XorSelf(a / 2);
    }
  }

  lemma {:induction false} XorZero(a: nat)
    ensures Xor(a, 0) == a && Xor(0, a) == a
    decreases a
  {
    if a != 0 {
      XorZero(a / 2);
    }
  }

  /** a ^ b == 0 only when a and b are equal. */
  lemma {:induction false} XorCancel(a: nat, b: nat)
    requires Xor(a, b) == 0
    ensures a == b
    decreases a + b
  {
    if !(a == 0 && b == 0) {
      XorCancel(a / 2, b / 2);
    }
  }

  lemma HalvesDetermine(x: nat, y: nat)
    requires x / 2 == y / 2 && x % 2 == y % 2
    ensures x == y
  {
  }

  lemma {:induction false} XorAssoc(a: nat, b: nat, c: nat)
    ensures Xor(Xor(a, b), c) == Xor(a, Xor(b, c))
    decreases a + b + c
  {
    if !(a == 0 && b == 0 && c == 0) {
      var ab, bc := Xor(a, b), Xor(b, c);
      var l, r := Xor(ab, c), Xor(a, bc);
      assert l / 2 == r / 2 by {
        XorHalves(a, b);
        XorHalves(b, c);
        XorHalves(ab, c);
        XorHalves(a, bc);
        XorAssoc(a / 2, b / 2, c / 2);
      }
      assert l % 2 == r % 2 by {
        XorHalves(a, b);
        XorHalves(b, c);
        XorHalves(ab, c);
        XorHalves(a, bc);
      }
      HalvesDetermine(l, r);
    }
  }

  lemma Pow2Byte()
    ensures Pow2(8) == 256
  {
    assert Pow2(2) == 4;
    assert Pow2(4) == 16;
    assert Pow2(6) == 64;
  }

  /** `^` on two bytes stays a byte. */
  function XorByte(a: Byte, b: Byte): Byte {
    Pow2Byte();
    XorBound(a, b, 8);
    Xor(a, b)
  }

  /** The running XOR of the Enable header 0xBB 0x00 0x01 0xB1. */
  lemma XorEnableHeader()
    ensures XorByte(XorByte(XorByte(XorByte(0, 0xBB), 0x00), 0x01), 0xB1) == 0x0B
  {
    XorZero(0xBB);
    XorZero(93);
    XorStep(187, 1);
    assert Xor(187, 1) == 186;
    XorSelf(11);
    XorStep(23, 22);
    XorStep(46, 44);
    XorStep(93, 88);
    XorStep(186, 177);
    assert Xor(186, 177) == 11;
  }

  lemma XorEnableTrailer()
    ensures XorByte(0x0B, 0x01) == 0x0A && XorByte(0x0B, 0x00) == 0x0B
  {
    XorZero(0x0B);
    XorZero(5);
    XorStep(11, 1);
  }
}
