/** Bytes as integers, and the exclusive or on them. */
module Bytes {
  type Byte = x: int | 0 <= x < 256

  function Power2(n: nat): (p: nat)
    ensures p >= 1
  {
    if n == 0 then 1 else 2 * Power2(n - 1)
  }

  /** Exclusive or of the lowest `bits` binary digits. */
  function XorBits(bits: nat, a: nat, b: nat): (r: nat)
    ensures r < Power2(bits)
  {
    if bits == 0 then 0 else (a + b) % 2 + 2 * XorBits(bits - 1, a / 2, b / 2)
  }

  function Xor(a: Byte, b: Byte): (r: Byte) {
    assert Power2(8) == 256 by { PowerOfEight(); }
    XorBits(8, a, b)
  }

  lemma PowerOfEight()
    ensures Power2(8) == 256
  {
    assert Power2(4) == 16;
  }

  lemma LowestBit(a: nat, b: nat, high: nat)
    ensures ((a + b) % 2 + 2 * high) / 2 == high && ((a + b) % 2 + 2 * high + b) % 2 == a % 2
  {
  }

  lemma {:induction false} XorBitsTwice(bits: nat, a: nat, b: nat)
    requires a < Power2(bits)
    ensures XorBits(bits, XorBits(bits, a, b), b) == a
  {
    if bits > 0 {
      var low := (a + b) % 2;
      var high := XorBits(bits - 1, a / 2, b / 2);
      LowestBit(a, b, high);
      XorBitsTwice(bits - 1, a / 2, b / 2);
    }
  }

  lemma XorTwice(a: Byte, k: Byte)
    ensures Xor(Xor(a, k), k) == a
  {
    PowerOfEight();
    XorBitsTwice(8, a, k);
  }
}
