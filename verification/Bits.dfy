/** The bit operators of C++ on unsigned words, bit by bit, and what they come to in arithmetic. */
module Bits {

  function Pow2(k: nat): (p: nat)
    ensures p > 0
  {
    if k == 0 then 1 else 2 * Pow2(k - 1)
  }

  function Digit(b: bool): nat {
    if b then 1 else 0
  }

  function Or(a: nat, b: nat): nat
    decreases a + b
  {
    if a == 0 && b == 0 then 0 else 2 * Or(a / 2, b / 2) + Digit(a % 2 == 1 || b % 2 == 1)
  }

  function And(a: nat, b: nat): nat
    decreases a + b
  {
    if a == 0 && b == 0 then 0 else 2 * And(a / 2, b / 2) + Digit(a % 2 == 1 && b % 2 == 1)
  }

  function Xor(a: nat, b: nat): nat
    decreases a + b
  {
    if a == 0 && b == 0 then 0 else 2 * Xor(a / 2, b / 2) + Digit(a % 2 != b % 2)
  }

  /** Bit i of a. */
  predicate Bit(a: nat, i: nat) {
    if i == 0 then a % 2 == 1 else Bit(a / 2, i - 1)
  }

  /** Each operator works on every bit by itself. */
  lemma {:induction false} BitOfEach(a: nat, b: nat, i: nat)
    ensures Bit(Or(a, b), i) <==> Bit(a, i) || Bit(b, i)
    ensures Bit(And(a, b), i) <==> Bit(a, i) && Bit(b, i)
    ensures Bit(Xor(a, b), i) <==> Bit(a, i) != Bit(b, i)
  {
    if i > 0 {
      BitOfEach(a / 2, b / 2, i - 1);
      assert Or(a, b) / 2 == Or(a / 2, b / 2) && And(a, b) / 2 == And(a / 2, b / 2);
      assert Xor(a, b) / 2 == Xor(a / 2, b / 2);
    }
  }

  lemma {:induction false} OrZero(b: nat)
    ensures Or(0, b) == b
  {
    if b > 0 { OrZero(b / 2); }
  }

  lemma {:induction false} XorZero(a: nat)
    ensures Xor(a, 0) == a
  {
    if a > 0 { XorZero(a / 2); }
  }

  lemma {:induction false} AndZero(a: nat)
    ensures And(a, 0) == 0
  {
    if a > 0 { AndZero(a / 2); }
  }

  /** Or of numbers that share no bit is their sum: the low k bits in one, the others in the other. */
  lemma {:induction false} OrOfDisjointBits(a: nat, c: nat, k: nat)
    requires a < Pow2(k)
    ensures Or(a, c * Pow2(k)) == a + c * Pow2(k)
  {
    if k == 0 {
      OrZero(c);
    } else {
      var b := c * Pow2(k - 1);
      assert c * Pow2(k) == 2 * b;
      OrOfDisjointBits(a / 2, c, k - 1);
      assert a == 2 * (a / 2) + a % 2;
    }
  }

  lemma XorStep(a: nat, b: nat)
    ensures Xor(a, b) == 2 * Xor(a / 2, b / 2) + Digit(a % 2 != b % 2)
  {
  }

  /** Exclusive or of a k-bit number with k ones is its complement. */
  lemma {:induction false} XorAllOnes(a: nat, k: nat)
    requires a < Pow2(k)
    ensures Xor(a, Pow2(k) - 1) == Pow2(k) - 1 - a
  {
    if k > 0 {
      var m := Pow2(k - 1);
      assert Pow2(k) == 2 * m && (2 * m - 1) / 2 == m - 1 && (2 * m - 1) % 2 == 1;
      XorAllOnes(a / 2, k - 1);
      XorStep(a, 2 * m - 1);
      assert a == 2 * (a / 2) + a % 2;
    }
  }

  /** And with k ones keeps the low k bits. */
  lemma {:induction false} AndLowBits(a: nat, k: nat)
    ensures And(a, Pow2(k) - 1) == a % Pow2(k)
  {
    if k == 0 {
      AndZero(a);
    } else {
      assert (Pow2(k) - 1) / 2 == Pow2(k - 1) - 1 && (Pow2(k) - 1) % 2 == 1;
      AndLowBits(a / 2, k - 1);
      LowBits(a, Pow2(k - 1));
    }
  }

  lemma LowBits(a: nat, m: nat)
    requires m > 0
    ensures a % (2 * m) == 2 * ((a / 2) % m) + a % 2
  {
    var h := a / 2;
    var q, r := h / m, h % m;
    assert h == q * m + r;
    assert a == q * (2 * m) + (2 * r + a % 2) by { assert 2 * (q * m) == q * (2 * m); }
    ModIs(a, q, 2 * r + a % 2, 2 * m);
  }

  lemma ModIs(x: int, q: int, r: nat, w: nat)
    requires r < w && x == q * w + r
    ensures x % w == r
  {
    var d := x / w - q;
    assert d * w == (x / w) * w - q * w == r - x % w;
    assert (d >= 1 ==> d * w >= w) && (d <= -1 ==> d * w <= 0 - w);
  }

  /** (v & 0x7F) | 0x80 */
  lemma SevenBits(v: nat)
    ensures And(v, 0x7F) == v % 128 && Or(And(v, 0x7F), 0x80) == v % 128 + 128
  {
    assert Pow2(7) == 8 * Pow2(4) == 128;
    AndLowBits(v, 7);
    OrOfDisjointBits(v % 128, 1, 7);
  }

  lemma WordSizes()
    ensures Pow2(32) == 0x1_0000_0000 && Pow2(64) == 0x1_0000_0000_0000_0000
  {
    assert Pow2(8) == 16 * Pow2(4) == 256;
    assert Pow2(16) == 16 * Pow2(12) == 256 * Pow2(8);
    assert Pow2(24) == 16 * Pow2(20) == 256 * Pow2(16);
    assert Pow2(32) == 16 * Pow2(28) == 256 * Pow2(24);
    assert Pow2(40) == 16 * Pow2(36) == 256 * Pow2(32);
    assert Pow2(48) == 16 * Pow2(44) == 256 * Pow2(40);
    assert Pow2(56) == 16 * Pow2(52) == 256 * Pow2(48);
    assert Pow2(64) == 16 * Pow2(60) == 256 * Pow2(56);
  }

}
