/**
 * The C++ bitwise operators the interpreter applies to unsigned bytes (`|`, `&`, `^` and the
 * one-bit masks of the shifts and the draw loop), defined on integers one binary digit at a time.
 */
module Bits {
  import opened EmuTypes

  /** The three bitwise operators of 8XY1, 8XY2 and 8XY3. */
  datatype Logic = Or | And | Xor

  /** `1 << n` without overflow. */
  function Pow2(n: nat): (p: nat)
    ensures p >= 1
  {
    if n == 0 then 1 else 2 * Pow2(n - 1)
  }

  /** `a >> s` on an unsigned value: `s` halvings, each dropping the lowest digit. */
  function ShiftDown(a: nat, s: nat): (r: nat)
    ensures r <= a
  {
    if s == 0 then a else ShiftDown(a / 2, s - 1)
  }

  /** Shifting `1 << s` down by `s` gives 1, and shifting 0 gives 0. */
  lemma {:induction false} ShiftDownPower(s: nat)
    ensures ShiftDown(Pow2(s), s) == 1 && ShiftDown(0, s) == 0
  {
    if s > 0 {
      assert Pow2(s) / 2 == Pow2(s - 1);
      ShiftDownPower(s - 1);
    }
  }

  /** Binary digit `k` of `a`, counting from the least significant. */
  function Bit(a: nat, k: nat): (b: nat)
    ensures b < 2
  {
    if k == 0 then a % 2 else Bit(a / 2, k - 1)
  }

  /** One operator applied to one pair of binary digits. */
  function Combine(op: Logic, p: nat, q: nat): (r: nat)
    requires p < 2 && q < 2
    ensures r < 2
  {
    match op
    case Or => if p == 1 || q == 1 then 1 else 0
    case And => if p == 1 && q == 1 then 1 else 0
    case Xor => if p != q then 1 else 0
  }

  /** `a op b` on the low `width` digits: the least significant digit, then the rest one place up. */
  function Bitwise(op: Logic, a: nat, b: nat, width: nat): (r: nat)
    ensures r < Pow2(width)
  {
    if width == 0 then 0 else Combine(op, a % 2, b % 2) + 2 * Bitwise(op, a / 2, b / 2, width - 1)
  }

  /** Each digit of a bitwise result is the operator applied to the operands' digits at that place. */
  lemma {:induction false} BitwiseDigits(op: Logic, a: nat, b: nat, width: nat, k: nat)
    requires k < width
    ensures Bit(Bitwise(op, a, b, width), k) == Combine(op, Bit(a, k), Bit(b, k))
  {
    var rest := Bitwise(op, a / 2, b / 2, width - 1);
    var r := Bitwise(op, a, b, width);
    assert r == Combine(op, a % 2, b % 2) + 2 * rest;
    assert r / 2 == rest;
    if k > 0 {
      BitwiseDigits(op, a / 2, b / 2, width - 1, k - 1);
    }
  }

  /** `1 << 8` is one more than the largest byte. */
  lemma ByteWidth()
    ensures Pow2(8) == 0x100
  {
  }

  /** `a | b`, `a & b` or `a ^ b` on two bytes: every one of the eight digits combines the operands' digits. */
  function ByteLogic(op: Logic, a: Byte, b: Byte): (r: Byte)
    ensures forall k :: 0 <= k < 8 ==> Bit(r, k) == Combine(op, Bit(a, k), Bit(b, k))
  {
    ByteWidth();
    var r := Bitwise(op, a, b, 8);
    forall k | 0 <= k < 8
      ensures Bit(r, k) == Combine(op, Bit(a, k), Bit(b, k))
    {
      BitwiseDigits(op, a, b, 8, k);
    }
    r
  }

  /** ANDing with zero clears every digit. */
  lemma {:induction false} AndZero(a: nat, width: nat)
    ensures Bitwise(And, a, 0, width) == 0
  {
    if width > 0 {
      AndZero(a / 2, width - 1);
    }
  }

  /** ANDing with `1 << k` keeps digit `k` in place and clears the others. */
  lemma {:induction false} MaskOneDigit(a: nat, k: nat, width: nat)
    requires k < width
    ensures Bitwise(And, a, Pow2(k), width) == if Bit(a, k) == 1 then Pow2(k) else 0
  {
    if k == 0 {
      AndZero(a / 2, width - 1);
    } else {
      assert Pow2(k) % 2 == 0 && Pow2(k) / 2 == Pow2(k - 1);
      MaskOneDigit(a / 2, k - 1, width - 1);
    }
  }

  /** XOR with all ones complements a number below `1 << width`. */
  lemma {:induction false} XorAllOnes(a: nat, width: nat)
    requires a < Pow2(width)
    ensures Bitwise(Xor, a, Pow2(width) - 1, width) == Pow2(width) - 1 - a
  {
    if width > 0 {
      var ones := Pow2(width) - 1;
      assert ones % 2 == 1 && ones / 2 == Pow2(width - 1) - 1;
      XorAllOnes(a / 2, width - 1);
    }
  }

  /** XOR with zero leaves a number below `1 << width` unchanged. */
  lemma {:induction false} XorZero(a: nat, width: nat)
    requires a < Pow2(width)
    ensures Bitwise(Xor, a, 0, width) == a
  {
    if width > 0 {
      XorZero(a / 2, width - 1);
    }
  }

  /** The top digit of a number below `1 << (k + 1)` says whether it reaches `1 << k`. */
  lemma {:induction false} TopDigit(a: nat, k: nat)
    requires a < Pow2(k + 1)
    ensures Bit(a, k) == if a >= Pow2(k) then 1 else 0
  {
    if k > 0 {
      TopDigit(a / 2, k - 1);
    }
  }

  /** Every digit below `width` of `(1 << width) - 1` is set. */
  lemma {:induction false} AllOnesDigit(width: nat, k: nat)
    requires k < width
    ensures Bit(Pow2(width) - 1, k) == 1
  {
    if k > 0 {
      assert (Pow2(width) - 1) / 2 == Pow2(width - 1) - 1;
      AllOnesDigit(width - 1, k - 1);
    }
  }

  /** No digit of zero is set. */
  lemma {:induction false} ZeroDigit(k: nat)
    ensures Bit(0, k) == 0
  {
    if k > 0 {
      ZeroDigit(k - 1);
    }
  }

  /** `b & 0x01` is the low binary digit of `b`. */
  lemma LowMask(b: Byte)
    ensures ByteLogic(And, b, 0x01) == b % 2
  {
    MaskOneDigit(b, 0, 8);
  }

  /** `b & 0x80` keeps the top binary digit of `b` in place and clears the rest. */
  lemma HighMask(b: Byte)
    ensures ByteLogic(And, b, 0x80) == if b >= 0x80 then 0x80 else 0
  {
    ByteWidth();
    MaskOneDigit(b, 7, 8);
    TopDigit(b, 7);
  }
}
