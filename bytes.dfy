/**
 * Unsigned 8-bit values (Rust `u8`) as integers, with the bitwise, shift and wrapping
 * operations the interpreter applies to them. The bitwise operations are defined bit by
 * bit, least significant first.
 */
module Bytes {

  newtype byte = x: int | 0 <= x < 0x100

  function Pow2(k: nat): (p: nat)
    ensures p >= 1
  {
    if k == 0 then 1 else 2 * Pow2(k - 1)
  }

  datatype BitOp = AndOp | OrOp | XorOp

  /** How `op` combines one bit of each operand. */
  function Combine(op: BitOp, p: bool, q: bool): bool
  {
    match op
    case AndOp => p && q
    case OrOp => p || q
    case XorOp => p != q
  }

  /** The low `width` bits of `a` and `b`, combined bit by bit with `op`. */
  function Bitwise(op: BitOp, a: nat, b: nat, width: nat): (r: nat)
    ensures r < Pow2(width)
    decreases width
  {
    if width == 0 then 0
    else 2 * Bitwise(op, a / 2, b / 2, width - 1) + (if Combine(op, a % 2 == 1, b % 2 == 1) then 1 else 0)
  }

  /** `a & b`. */
  function And(a: byte, b: byte): byte
  {
    Bitwise(AndOp, a as nat, b as nat, 8) as byte
  }

  /** `a | b`. */
  function Or(a: byte, b: byte): byte
  {
    Bitwise(OrOp, a as nat, b as nat, 8) as byte
  }

  /** `a ^ b`. */
  function Xor(a: byte, b: byte): byte
  {
    Bitwise(XorOp, a as nat, b as nat, 8) as byte
  }

  /** `a >> k`, one halving per position. */
  function ShiftRight(a: byte, k: nat): byte
  {
    if k == 0 then a else ShiftRight(a / 2, k - 1)
  }

  /** `a << 1`: the top bit falls off. */
  function ShiftLeft(a: byte): byte
  {
    (a as int * 2 % 0x100) as byte
  }

  /** `a.wrapping_add(b)`. */
  function WrappingAdd(a: byte, b: byte): (r: byte)
    ensures r as int == (a as int + b as int) % 0x100
  {
    if a as int + b as int < 0x100 then a + b else (a as int + b as int - 0x100) as byte
  }

  /** `a.wrapping_sub(b)`. */
  function WrappingSub(a: byte, b: byte): (r: byte)
    ensures r as int == (a as int - b as int) % 0x100
  {
    if b <= a then a - b else (a as int - b as int + 0x100) as byte
  }

  /** Masking with `b` keeps only bits of `b`: the result is at most `b`. */
  lemma {:induction false} BitwiseAndBelow(a: nat, b: nat, width: nat)
    ensures Bitwise(AndOp, a, b, width) <= b
    decreases width
  {
    if width > 0 {
      BitwiseAndBelow(a / 2, b / 2, width - 1);
    }
  }

  /** Masking with 1 keeps the low bit, that is the parity. */
  lemma {:induction false} BitwiseAndOne(a: nat, width: nat)
    requires width > 0
    ensures Bitwise(AndOp, a, 1, width) == a % 2
  {
    BitwiseAndBelow(a / 2, 0, width - 1);
  }

  /** `a & 1` is the low bit of `a`. */
  lemma LowBit(a: byte)
    ensures And(a, 0x01) as int == a as int % 2
  {
    BitwiseAndOne(a as nat, 8);
  }

  /** `a & m` is at most `m`. */
  lemma AndBelow(a: byte, m: byte)
    ensures And(a, m) <= m
  {
    BitwiseAndBelow(a as nat, m as nat, 8);
  }

  /** `a >> 1` halves `a`. */
  lemma HalfShift(a: byte)
    ensures ShiftRight(a, 1) as int == a as int / 2
  {
  }

  /** Bit `k` of `v`, counting from the least significant bit. */
  function Bit(v: nat, k: nat): bool
  {
    if k == 0 then v % 2 == 1 else Bit(v / 2, k - 1)
  }

  /** Bit `k` of a bitwise combination is `op` applied to bit `k` of each operand. */
  lemma {:induction false} BitwiseBit(op: BitOp, a: nat, b: nat, width: nat, k: nat)
    requires k < width
    ensures Bit(Bitwise(op, a, b, width), k) == Combine(op, Bit(a, k), Bit(b, k))
    decreases k
  {
    if k > 0 {
      BitwiseBit(op, a / 2, b / 2, width - 1, k - 1);
    }
  }

  /** Bit `k` of `a & b` is set exactly when it is set in both. */
  lemma AndBits(a: byte, b: byte, k: nat)
    requires k < 8
    ensures Bit(And(a, b) as nat, k) == (Bit(a as nat, k) && Bit(b as nat, k))
  {
    BitwiseBit(AndOp, a as nat, b as nat, 8, k);
  }

  /** Bit `k` of `a | b` is set exactly when it is set in either. */
  lemma OrBits(a: byte, b: byte, k: nat)
    requires k < 8
    ensures Bit(Or(a, b) as nat, k) == (Bit(a as nat, k) || Bit(b as nat, k))
  {
    BitwiseBit(OrOp, a as nat, b as nat, 8, k);
  }

  /** Bit `k` of `a ^ b` is set exactly when the operands differ there. */
  lemma XorBits(a: byte, b: byte, k: nat)
    requires k < 8
    ensures Bit(Xor(a, b) as nat, k) == (Bit(a as nat, k) != Bit(b as nat, k))
  {
    BitwiseBit(XorOp, a as nat, b as nat, 8, k);
  }

  /** Bit `i` of `a >> k` is bit `i + k` of `a`. */
  lemma {:induction false} ShiftRightBits(a: byte, k: nat, i: nat)
    ensures Bit(ShiftRight(a, k) as nat, i) == Bit(a as nat, i + k)
    decreases k
  {
    if k > 0 {
      ShiftRightBits(a / 2, k - 1, i);
    }
  }

  /** Masking with a single bit keeps that bit's value or gives zero. */
  lemma {:induction false} BitwiseAndPow2(a: nat, j: nat, width: nat)
    requires j < width
    ensures Bitwise(AndOp, a, Pow2(j), width) == if Bit(a, j) then Pow2(j) else 0
    decreases j
  {
    if j == 0 {
      BitwiseAndOne(a, width);
    } else {
      BitwiseAndPow2(a / 2, j - 1, width - 1);
    }
  }

  /** Shifting the single bit `j` right by `k <= j` leaves the single bit `j - k`. */
  lemma {:induction false} ShiftRightPow2(j: nat, k: nat)
    requires k <= j && Pow2(j) < 0x100
    ensures ShiftRight(Pow2(j) as byte, k) as nat == Pow2(j - k)
    decreases k
  {
    if k > 0 {
      ShiftRightPow2(j - 1, k - 1);
    }
  }
}
