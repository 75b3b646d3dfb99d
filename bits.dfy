/** Fixed-width value types of the machine and the integer bit operations
    (`&`, `|`, `^`, `<<`, `>>`) the interpreter applies to non-negative
    integers. The operations are defined bit by bit, on unbounded naturals,
    so they agree with the source language's integer operators; the lemmas
    relate masks and shifts to division and remainder. */
module Bits {

  /** An 8-bit value: a register, a memory cell, a timer. */
  type Byte = x: int | 0 <= x < 0x100

  /** A pixel, a sprite bit or a key state. */
  type Bit = x: int | 0 <= x < 2

  /** A 16-bit instruction word. */
  type Word = x: int | 0 <= x < 0x10000

  /** `v << k` */
  function ShiftLeft(v: nat, k: nat): nat
  {
    if k == 0 then v else 2 * ShiftLeft(v, k - 1)
  }

  /** `v >> k` (floor division by 2^k) */
  function ShiftRight(v: nat, k: nat): nat
  {
    if k == 0 then v else ShiftRight(v, k - 1) / 2
  }

  /** The mask of the k lowest bits, 2^k - 1. */
  function Ones(k: nat): nat
  {
    if k == 0 then 0 else 2 * Ones(k - 1) + 1
  }

  /** `a & b`: a set bit of the result is set in both operands, so the
      result is no larger than either. */
  function BitAnd(a: nat, b: nat): (r: nat)
    ensures r <= a && r <= b
  {
    if a == 0 || b == 0 then 0
    else 2 * BitAnd(a / 2, b / 2) + (if a % 2 == 1 && b % 2 == 1 then 1 else 0)
  }

  /** `a | b`: every bit set in either operand is set in the result, so the
      result is no smaller than either. */
  function BitOr(a: nat, b: nat): (r: nat)
    ensures r >= a && r >= b
  {
    if a == 0 then b
    else if b == 0 then a
    else 2 * BitOr(a / 2, b / 2) + (if a % 2 == 1 || b % 2 == 1 then 1 else 0)
  }

  /** `a ^ b` */
  function BitXor(a: nat, b: nat): nat
  {
    if a == 0 then b
    else if b == 0 then a
    else 2 * BitXor(a / 2, b / 2) + (a % 2 + b % 2) % 2
  }

  /** `|` and `^` of two k-bit values are k-bit values. */
  lemma {:induction false} BitOpsBelow(a: nat, b: nat, k: nat)
    requires a < ShiftLeft(1, k) && b < ShiftLeft(1, k)
    ensures BitOr(a, b) < ShiftLeft(1, k) && BitXor(a, b) < ShiftLeft(1, k)
  {
    if k > 0 && a > 0 && b > 0 {
      BitOpsBelow(a / 2, b / 2, k - 1);
    }
  }

  /** `a & b` on bytes. */
  function And8(a: Byte, b: Byte): (r: Byte)
    ensures r <= b
  {
    BitAnd(a, b)
  }

  /** `a | b` on bytes. */
  function Or8(a: Byte, b: Byte): (r: Byte)
    ensures r >= a && r >= b
  {
    BitOpsBelow(a, b, 8);
    BitOr(a, b)
  }

  /** `a ^ b` on bytes. */
  function Xor8(a: Byte, b: Byte): (r: Byte)
  {
    BitOpsBelow(a, b, 8);
    BitXor(a, b)
  }

  /** `a ^ b` on single bits: the bit flips exactly when b is set. */
  function XorBit(a: Bit, b: Bit): (r: Bit)
    ensures r == (if b == 1 then 1 - a else a)
  {
    BitOpsBelow(a, b, 1);
    BitXor(a, b)
  }

  /** `a & b` on single bits: set exactly when both are set. */
  function AndBit(a: Bit, b: Bit): (r: Bit)
    ensures r == 1 <==> a == 1 && b == 1
  {
    BitAnd(a, b)
  }

  lemma {:induction false} ShiftRightHalf(v: nat, k: nat)
    ensures ShiftRight(v / 2, k) == ShiftRight(v, k) / 2
  {
    if k > 0 {
      ShiftRightHalf(v, k - 1);
    }
  }

  lemma {:induction false} ShiftLeftZero(k: nat)
    ensures ShiftLeft(0, k) == 0
  {
    if k > 0 {
      ShiftLeftZero(k - 1);
    }
  }

  lemma {:induction false} ShiftLeftPositive(m: nat, k: nat)
    requires m > 0
    ensures ShiftLeft(m, k) > 0
  {
    if k > 0 {
      ShiftLeftPositive(m, k - 1);
    }
  }

  lemma AndDouble(v: nat, m: nat)
    requires m > 0
    ensures BitAnd(v, 2 * m) == 2 * BitAnd(v / 2, m)
  {
  }

  /** Masking with a shifted mask: `v & (m << k) == ((v >> k) & m) << k`. */
  lemma {:induction false} AndShifted(v: nat, m: nat, k: nat)
    ensures BitAnd(v, ShiftLeft(m, k)) == ShiftLeft(BitAnd(ShiftRight(v, k), m), k)
  {
    if k == 0 {
    } else if m == 0 {
      ShiftLeftZero(k);
      assert ShiftLeft(m, k) == 0;
    } else {
      ShiftLeftPositive(m, k - 1);
      AndDouble(v, ShiftLeft(m, k - 1));
      AndShifted(v / 2, m, k - 1);
      ShiftRightHalf(v, k - 1);
    }
  }

  /** The k low bits of v, read off one bit at a time. */
  function LowBits(v: nat, k: nat): nat
  {
    if k == 0 then 0 else 2 * LowBits(v / 2, k - 1) + v % 2
  }

  /** Masking with 2^k - 1 keeps exactly the k low bits, and those together
      with the high part `(v >> k) << k` give back v. */
  lemma {:induction false} MaskLow(v: nat, k: nat)
    ensures BitAnd(v, Ones(k)) == LowBits(v, k)
    ensures LowBits(v, k) + ShiftLeft(ShiftRight(v, k), k) == v
  {
    if k > 0 {
      MaskLow(v / 2, k - 1);
      ShiftRightHalf(v, k - 1);
      if k == 1 {
        assert Ones(0) == 0;
      }
    }
  }

  lemma Shifts4(v: nat)
    ensures ShiftRight(v, 4) == v / 16 && ShiftLeft(v, 4) == 16 * v && Ones(4) == 15
  {
    assert ShiftRight(v, 1) == v / 2;
    assert ShiftRight(v, 2) == v / 4;
    assert ShiftRight(v, 3) == v / 8;
    assert ShiftLeft(v, 1) == 2 * v;
    assert ShiftLeft(v, 2) == 4 * v;
    assert ShiftLeft(v, 3) == 8 * v;
  }

  lemma {:induction false} ShiftRightCompose(v: nat, a: nat, b: nat)
    ensures ShiftRight(ShiftRight(v, a), b) == ShiftRight(v, a + b)
  {
    if b > 0 {
      ShiftRightCompose(v, a, b - 1);
    }
  }

  lemma {:induction false} ShiftLeftCompose(v: nat, a: nat, b: nat)
    ensures ShiftLeft(ShiftLeft(v, a), b) == ShiftLeft(v, a + b)
  {
    if b > 0 {
      ShiftLeftCompose(v, a, b - 1);
    }
  }

  lemma Shifts8(v: nat)
    ensures ShiftRight(v, 8) == v / 256 && ShiftLeft(v, 8) == 256 * v && Ones(8) == 255
  {
    Shifts4(v);
    Shifts4(v / 16);
    Shifts4(ShiftLeft(v, 4));
    ShiftRightCompose(v, 4, 4);
    ShiftLeftCompose(v, 4, 4);
  }

  lemma Shifts12(v: nat)
    ensures ShiftRight(v, 12) == v / 4096 && ShiftLeft(v, 12) == 4096 * v && Ones(12) == 0xFFF
  {
    Shifts8(v);
    Shifts4(v / 256);
    Shifts4(ShiftLeft(v, 8));
    ShiftRightCompose(v, 8, 4);
    ShiftLeftCompose(v, 8, 4);
  }

  /** `v & 0xF == v % 16` */
  lemma MaskNibble(v: nat)
    ensures BitAnd(v, 0xF) == v % 0x10
  {
    Shifts4(v);
    Shifts4(v / 16);
    MaskLow(v, 4);
  }

  /** `v & 0xFF == v % 256` */
  lemma MaskByte(v: nat)
    ensures BitAnd(v, 0xFF) == v % 0x100
  {
    Shifts8(v);
    Shifts8(v / 256);
    MaskLow(v, 8);
  }

  /** `v & 0xFFF == v % 4096` */
  lemma MaskAddress(v: nat)
    ensures BitAnd(v, 0xFFF) == v % 0x1000
  {
    Shifts12(v);
    Shifts12(v / 4096);
    MaskLow(v, 12);
  }

  /** `(v & (0xF << k)) >> k` is the nibble of v at bit k, for k = 4 and 8. */
  lemma NibbleAt(v: nat)
    ensures ShiftRight(BitAnd(v, 0x0F00), 8) == (v / 0x100) % 0x10
    ensures ShiftRight(BitAnd(v, 0x00F0), 4) == (v / 0x10) % 0x10
  {
    Shifts8(15);
    Shifts4(15);
    AndShifted(v, 15, 8);
    AndShifted(v, 15, 4);
    var hi := BitAnd(ShiftRight(v, 8), 15);
    var mid := BitAnd(ShiftRight(v, 4), 15);
    Shifts8(v);
    Shifts4(v);
    MaskNibble(v / 256);
    MaskNibble(v / 16);
    Shifts8(hi);
    Shifts8(256 * hi);
    Shifts4(mid);
    Shifts4(16 * mid);
  }

  /** `v >> 1` and `v >> 7` on a byte. */
  lemma HalveByte(v: Byte)
    ensures ShiftRight(v, 1) == v / 2 && ShiftRight(v, 7) == v / 0x80
  {
    Shifts4(v);
    assert ShiftRight(v, 5) == v / 32;
    assert ShiftRight(v, 6) == v / 64;
  }

  /** `v & 1` is the lowest bit of v. */
  lemma MaskLowestBit(v: nat)
    ensures BitAnd(v, 1) == v % 2
  {
  }

  /** `v & 0x80` on a byte is 0x80 when the top bit is set and 0 otherwise. */
  lemma MaskTopBit(v: Byte)
    ensures BitAnd(v, 0x80) == if v >= 0x80 then 0x80 else 0
  {
    AndShifted(v, 1, 7);
    Shifts4(v);
    assert ShiftRight(v, 5) == v / 32;
    assert ShiftRight(v, 6) == v / 64;
    assert ShiftRight(v, 7) == v / 128;
    var top := BitAnd(ShiftRight(v, 7), 1);
    assert top == (v / 128) % 2;
    Shifts4(top);
    assert ShiftLeft(top, 5) == 32 * top;
    assert ShiftLeft(top, 6) == 64 * top;
    assert ShiftLeft(top, 7) == 128 * top;
    Shifts4(1);
    assert ShiftLeft(1, 7) == 0x80;
  }

  /** The quotient and remainder by 2 of `a & m`. */
  lemma AndHalves(a: nat, m: nat)
    ensures BitAnd(a, m) / 2 == BitAnd(a / 2, m / 2)
    ensures BitAnd(a, m) % 2 == (if a % 2 == 1 && m % 2 == 1 then 1 else 0)
  {
  }

  /** Masking twice with the same mask changes nothing: every set bit of
      `a & m` is already a bit of m. */
  lemma {:induction false} AndAbsorbs(a: nat, m: nat)
    ensures BitAnd(BitAnd(a, m), m) == BitAnd(a, m)
  {
    var r := BitAnd(a, m);
    if r > 0 {
      AndHalves(a, m);
      AndHalves(r, m);
      AndAbsorbs(a / 2, m / 2);
    }
  }

  /** `a ^ b` splits into the xor of the halves and the xor of the lowest
      bits, also when an operand is 0. */
  lemma XorHalves(a: nat, b: nat)
    ensures BitXor(a, b) == 2 * BitXor(a / 2, b / 2) + (a % 2 + b % 2) % 2
  {
  }

  lemma HalfParts(c: nat, h: nat, bit: nat)
    requires c == 2 * h + bit && bit < 2
    ensures c / 2 == h && c % 2 == bit
  {
  }

  lemma ParityCancels(x: nat, y: nat)
    requires x < 2 && y < 2
    ensures ((x + y) % 2 + y) % 2 == x
  {
  }

  /** `(a ^ b) ^ b == a`: xor with the same value twice undoes itself. */
  lemma {:induction false} XorCancels(a: nat, b: nat)
    ensures BitXor(BitXor(a, b), b) == a
    decreases a + b
  {
    if a + b > 0 {
      var c := BitXor(a, b);
      var h, bit := BitXor(a / 2, b / 2), (a % 2 + b % 2) % 2;
      XorHalves(a, b);
      XorHalves(c, b);
      XorCancels(a / 2, b / 2);
      HalfParts(c, h, bit);
      ParityCancels(a % 2, b % 2);
    }
  }

  /** `a & a == a` and `a | a == a`. */
  lemma {:induction false} SelfOps(a: nat)
    ensures BitAnd(a, a) == a && BitOr(a, a) == a
  {
    if a > 0 {
      SelfOps(a / 2);
    }
  }

  /** `a ^ a == 0`. */
  lemma {:induction false} XorSelf(a: nat)
    ensures BitXor(a, a) == 0
  {
    if a > 0 {
      XorSelf(a / 2);
    }
  }
}
