/** Bitwise operators of unsigned words, on natural numbers by their binary digits, and the
    arithmetic form of the masks and shifts that the program uses. */
module Bits {

  function And(a: nat, b: nat): nat {
    if a == 0 || b == 0 then 0
    else (if a % 2 == 1 && b % 2 == 1 then 1 else 0) + 2 * And(a / 2, b / 2)
  }

  function Or(a: nat, b: nat): nat {
    if a == 0 then b
    else if b == 0 then a
    else (if a % 2 == 1 || b % 2 == 1 then 1 else 0) + 2 * Or(a / 2, b / 2)
  }

  function Xor(a: nat, b: nat): nat {
    if a == 0 then b
    else if b == 0 then a
    else (if a % 2 != b % 2 then 1 else 0) + 2 * Xor(a / 2, b / 2)
  }

  /** Shift left and right by k bits, the k low bits, and the mask of k ones. */
  function Shl(a: nat, k: nat): nat { if k == 0 then a else 2 * Shl(a, k - 1) }
  function Shr(a: nat, k: nat): nat { if k == 0 then a else Shr(a / 2, k - 1) }
  function Low(a: nat, k: nat): nat { if k == 0 then 0 else a % 2 + 2 * Low(a / 2, k - 1) }
  function Ones(k: nat): nat { if k == 0 then 0 else 1 + 2 * Ones(k - 1) }

  /** Binary digit k. */
  function Bit(a: nat, k: nat): nat { if k == 0 then a % 2 else Bit(a / 2, k - 1) }

  /** The operators act digit by digit. */
  lemma {:induction false} DigitByDigit(a: nat, b: nat, k: nat)
    ensures Bit(And(a, b), k) == 1 <==> Bit(a, k) == 1 && Bit(b, k) == 1
    ensures Bit(Or(a, b), k) == 1 <==> Bit(a, k) == 1 || Bit(b, k) == 1
    ensures Bit(Xor(a, b), k) == 1 <==> Bit(a, k) != Bit(b, k)
    ensures Bit(a, k) <= 1 && Bit(b, k) <= 1
  {
    XorBits(a, b);
    AndOrHalves(a, b);
    if k > 0 {
      DigitByDigit(a / 2, b / 2, k - 1);
    }
  }

  lemma AndOrHalves(a: nat, b: nat)
    ensures And(a, b) / 2 == And(a / 2, b / 2) && (And(a, b) % 2 == 1 <==> a % 2 == 1 && b % 2 == 1)
    ensures Or(a, b) / 2 == Or(a / 2, b / 2) && (Or(a, b) % 2 == 1 <==> a % 2 == 1 || b % 2 == 1)
  {
    var r, q := And(a / 2, b / 2), Or(a / 2, b / 2);
    if a != 0 && b != 0 {
      assert And(a, b) == (if a % 2 == 1 && b % 2 == 1 then 1 else 0) + 2 * r;
      assert Or(a, b) == (if a % 2 == 1 || b % 2 == 1 then 1 else 0) + 2 * q;
    }
  }

  lemma {:induction false} ShiftedDigits(a: nat, j: nat, k: nat)
    ensures Bit(Shl(a, j), k) == if k < j then 0 else Bit(a, k - j)
    ensures Bit(Shr(a, j), k) == Bit(a, k + j)
  {
    if j > 0 {
      assert Shl(a, j) == 2 * Shl(a, j - 1);
      if k > 0 {
        ShiftedDigits(a, j - 1, k - 1);
      }
      ShiftedDigits(a / 2, j - 1, k);
    }
  }

  // ---------------------------------------------------------------- exclusive or

  lemma {:induction false} XorBits(a: nat, b: nat)
    ensures Xor(a, b) % 2 == (a % 2 + b % 2) % 2
    ensures Xor(a, b) / 2 == Xor(a / 2, b / 2)
  {
    if a != 0 && b != 0 {
      var r := Xor(a / 2, b / 2);
      assert Xor(a, b) == (if a % 2 != b % 2 then 1 else 0) + 2 * r;
    }
  }

  lemma {:induction false} XorAssociative(a: nat, b: nat, c: nat)
    ensures Xor(Xor(a, b), c) == Xor(a, Xor(b, c))
    decreases a + b + c
  {
    if a != 0 && b != 0 && c != 0 {
      XorAssociative(a / 2, b / 2, c / 2);
      XorBits(a, b);
      XorBits(b, c);
      XorBits(Xor(a, b), c);
      XorBits(a, Xor(b, c));
    }
  }

  lemma {:induction false} XorCommutative(a: nat, b: nat)
    ensures Xor(a, b) == Xor(b, a)
  {
    if a != 0 && b != 0 {
      XorCommutative(a / 2, b / 2);
    }
  }

  lemma {:induction false} XorZero(a: nat, b: nat)
    ensures Xor(a, b) == 0 <==> a == b
  {
    if a != 0 && b != 0 {
      XorZero(a / 2, b / 2);
    }
  }

  lemma {:induction false} XorBound(a: nat, b: nat, k: nat)
    requires a < Shl(1, k) && b < Shl(1, k)
    ensures Xor(a, b) < Shl(1, k)
  {
    if a != 0 && b != 0 {
      XorBound(a / 2, b / 2, k - 1);
    }
  }

  lemma XorCancels(p: nat, x: nat, y: nat)
    requires Xor(p, x) == Xor(p, y)
    ensures x == y
  {
    XorAssociative(p, p, x);
    XorAssociative(p, p, y);
    XorZero(p, p);
  }

  // ---------------------------------------------------------------- masks

  lemma {:induction false} OrBound(a: nat, b: nat, k: nat)
    requires a < Shl(1, k) && b < Shl(1, k)
    ensures Or(a, b) < Shl(1, k)
  {
    if a != 0 && b != 0 {
      OrBound(a / 2, b / 2, k - 1);
    }
  }

  /** Or of a value and bits above it is their sum. */
  lemma {:induction false} OrDisjoint(low: nat, high: nat, k: nat)
    requires low < Shl(1, k)
    ensures Or(low, Shl(high, k)) == low + Shl(high, k) == Or(Shl(high, k), low)
  {
    if k > 0 {
      OrDisjoint(low / 2, high, k - 1);
    }
  }

  lemma {:induction false} OrHigh(low: nat, h: nat, e: nat, k: nat)
    requires low < Shl(1, k)
    ensures Or(low + Shl(h, k), Shl(e, k)) == low + Shl(Or(h, e), k)
  {
    if k > 0 {
      OrHigh(low / 2, h, e, k - 1);
      assert (low + Shl(h, k)) / 2 == low / 2 + Shl(h, k - 1);
    }
  }

  lemma {:induction false} AndStep(a: nat, m: nat, bit: nat)
    requires bit <= 1
    ensures And(a, 2 * m + bit) == (if bit == 1 then a % 2 else 0) + 2 * And(a / 2, m)
  {
    if a != 0 && 2 * m + bit != 0 {
      assert (2 * m + bit) / 2 == m && (2 * m + bit) % 2 == bit;
    }
  }

  lemma {:induction false} AndOnes(a: nat, k: nat)
    ensures And(a, Ones(k)) == Low(a, k)
  {
    if k > 0 {
      AndOnes(a / 2, k - 1);
      AndStep(a, Ones(k - 1), 1);
    }
  }

  /** A mask shifted up by k bits looks at the value shifted down by k bits. */
  lemma {:induction false} AndShift(a: nat, m: nat, k: nat)
    ensures And(a, Shl(m, k)) == Shl(And(Shr(a, k), m), k)
  {
    if k > 0 {
      AndShift(a / 2, m, k - 1);
      AndStep(a, Shl(m, k - 1), 0);
    }
  }

  // ---------------------------------------------------------------- the widths in use

  lemma {:induction false} Compose(a: nat, i: nat, j: nat)
    ensures Shl(a, i + j) == Shl(Shl(a, j), i)
    ensures Shr(a, i + j) == Shr(Shr(a, i), j)
    ensures Low(a, i + j) == Low(a, i) + Shl(Low(Shr(a, i), j), i)
  {
    if i > 0 {
      Compose(a, i - 1, j);
      Compose(a / 2, i - 1, j);
    }
  }

  lemma Shift1(a: nat)
    ensures Shl(a, 1) == 2 * a && Shr(a, 1) == a / 2 && Low(a, 1) == a % 2
  {
    assert Shl(a, 0) == a && Shr(a / 2, 0) == a / 2 && Low(a / 2, 0) == 0;
  }

  lemma Shift2(a: nat)
    ensures Shl(a, 2) == 4 * a && Shr(a, 2) == a / 4 && Low(a, 2) == a % 4
  {
    Compose(a, 1, 1);
    Shift1(a);
    Shift1(2 * a);
    Shift1(a / 2);
    Shift1(Low(a / 2, 1));
  }

  lemma Shift4(a: nat)
    ensures Shl(a, 4) == 16 * a && Shr(a, 4) == a / 16 && Low(a, 4) == a % 16
  {
    Compose(a, 2, 2);
    Shift2(a);
    Shift2(4 * a);
    Shift2(a / 4);
    Shift2(Low(a / 4, 2));
  }

  lemma Shift8(a: nat)
    ensures Shl(a, 8) == 256 * a && Shr(a, 8) == a / 256 && Low(a, 8) == a % 256
  {
    Compose(a, 4, 4);
    Shift4(a);
    Shift4(16 * a);
    Shift4(a / 16);
    Shift4(Low(a / 16, 4));
  }

  lemma Shift10(a: nat)
    ensures Shl(a, 10) == 1024 * a && Shr(a, 10) == a / 1024 && Low(a, 10) == a % 1024
  {
    Compose(a, 8, 2);
    Shift8(a);
    Shift8(4 * a);
    Shift8(Low(a / 256, 2));
    Shift2(a);
    Shift2(a / 256);
  }

  lemma Shift3(a: nat)
    ensures Shl(a, 3) == 8 * a && Shr(a, 3) == a / 8 && Low(a, 3) == a % 8
  {
    Compose(a, 2, 1);
    Shift1(a);
    Shift1(a / 4);
    Shift2(a);
    Shift2(2 * a);
    Shift2(Low(a / 4, 1));
  }

  /** A field of k bits that starts at bit 10. */
  lemma Field(p: nat, k: nat, ones: nat, mask: nat)
    requires ones == Ones(k) && mask == 1024 * ones
    ensures And(p, mask) == Low(p / 1024, k) * 1024
    ensures k == 1 ==> Low(p / 1024, k) == p / 1024 % 2
    ensures k == 3 ==> Low(p / 1024, k) == p / 1024 % 8
  {
    AndShift(p, ones, 10);
    Shift10(p);
    Shift10(ones);
    AndOnes(p / 1024, k);
    Shift10(And(p / 1024, ones));
    Shift1(p / 1024);
    Shift3(p / 1024);
  }

  lemma Bit11(a: nat)
    ensures And(a, 0x0800) == a / 2048 % 2 * 2048
  {
    AndStep(a, 0x0400, 0);
    Field(a / 2, 1, 1, 0x0400);
  }

  lemma Bit12(a: nat)
    ensures And(a, 0x1000) == a / 4096 % 2 * 4096
  {
    AndStep(a, 0x0800, 0);
    Bit11(a / 2);
  }

  lemma Bit13(a: nat)
    ensures And(a, 0x2000) == a / 8192 % 2 * 8192
  {
    AndStep(a, 0x1000, 0);
    Bit12(a / 2);
  }

  lemma Bit14(a: nat)
    ensures And(a, 0x4000) == a / 16384 % 2 * 16384
  {
    AndStep(a, 0x2000, 0);
    Bit13(a / 2);
  }

  lemma Bit15(a: nat)
    ensures And(a, 0x8000) == a / 32768 % 2 * 32768
  {
    AndStep(a, 0x4000, 0);
    Bit14(a / 2);
  }

  /** Two values of four bits each, side by side. */
  lemma Nibbles(h: nat, l: nat)
    requires l < 16
    ensures Or(16 * h, l) == 16 * h + l
  {
    assert Shl(h, 4) == 16 * h by { Shift4(h); }
    assert l < Shl(1, 4) by { Shift4(1); }
    OrDisjoint(l, h, 4);
  }

  lemma LowMask10(a: nat)
    ensures And(a, 0x03FF) == a % 1024
  {
    AndOnes(a, 10);
    Shift10(a);
  }

  lemma LowMask4(a: nat)
    ensures And(a, 0x0F) == a % 16
  {
    AndOnes(a, 4);
    Shift4(a);
  }

  lemma LowMask3(a: nat)
    ensures And(a, 0x07) == a % 8
  {
    AndOnes(a, 3);
    Shift3(a);
  }

  /** Exclusive-or stays within 32 bits. */
  lemma XorWithin32(a: nat, b: nat)
    requires a < 0x1_0000_0000 && b < 0x1_0000_0000
    ensures Xor(a, b) < 0x1_0000_0000
  {
    hide Xor, Shl, Shr, Low;
    Compose(1, 16, 16);
    Compose(1, 8, 8);
    Compose(0x1_0000, 8, 8);
    Shift8(1);
    Shift8(0x100);
    Shift8(0x1_0000);
    Shift8(0x100_0000);
    XorBound(a, b, 32);
  }
}
