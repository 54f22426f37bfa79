/** Numbers as strings of bits: the operations that work bit by bit, by recursion over the bits. */
module Bits {
  function Pow2(n: nat): (r: nat)
    ensures r > 0
  {
    if n == 0 then 1 else 2 * Pow2(n - 1)
  }

  datatype BitOp = BitAnd | BitOr | BitXor

  function OneBit(op: BitOp, a: nat, b: nat): nat {
    match op
    case BitAnd => if a == 1 && b == 1 then 1 else 0
    case BitOr => if a == 1 || b == 1 then 1 else 0
    case BitXor => if a != b then 1 else 0
  }

  function Bitwise(op: BitOp, x: nat, y: nat): nat
    decreases x + y
  {
    if x == 0 && y == 0 then 0 else 2 * Bitwise(op, x / 2, y / 2) + OneBit(op, x % 2, y % 2)
  }

  lemma {:induction false} BitwiseBelow(op: BitOp, x: nat, y: nat, n: nat)
    requires x < Pow2(n) && y < Pow2(n)
    ensures Bitwise(op, x, y) < Pow2(n)
  {
    if n > 0 {
      BitwiseBelow(op, x / 2, y / 2, n - 1);
    }
  }

  lemma {:induction false} BitwiseZero(op: BitOp, x: nat)
    requires op != BitAnd
    ensures Bitwise(op, x, 0) == x && Bitwise(op, 0, x) == x
  {
    if x > 0 {
      BitwiseZero(op, x / 2);
    }
  }

  lemma {:induction false} BitwiseStep(op: BitOp, x: nat, y: nat)
    ensures Bitwise(op, x, y) == 2 * Bitwise(op, x / 2, y / 2) + OneBit(op, x % 2, y % 2)
  {
  }

  /** A shift left by n bits, without losing any. */
  function Shifted(x: nat, n: nat): nat {
    if n == 0 then x else 2 * Shifted(x, n - 1)
  }

  /** Low bits and high bits do not mix. */
  lemma {:induction false} BitwiseSplits(op: BitOp, n: nat, h: nat, l: nat, g: nat, k: nat)
    requires l < Pow2(n) && k < Pow2(n)
    ensures Bitwise(op, Shifted(h, n) + l, Shifted(g, n) + k) == Shifted(Bitwise(op, h, g), n) + Bitwise(op, l, k)
  {
    if n > 0 {
      BitwiseSplits(op, n - 1, h, l / 2, g, k / 2);
      hide Bitwise;
      BitwiseDoubles(op, Shifted(h, n - 1), l, Shifted(g, n - 1), k);
    }
  }

  lemma BitwiseDoubles(op: BitOp, x: nat, l: nat, y: nat, k: nat)
    ensures Bitwise(op, 2 * x + l, 2 * y + k) - Bitwise(op, l, k)
         == 2 * (Bitwise(op, x + l / 2, y + k / 2) - Bitwise(op, l / 2, k / 2))
  {
    hide Bitwise, OneBit;
    TwiceAnd(x, l);
    TwiceAnd(y, k);
    BitwiseStep(op, 2 * x + l, 2 * y + k);
    BitwiseStep(op, l, k);
  }

  lemma TwiceAnd(x: nat, l: nat)
    ensures (2 * x + l) / 2 == x + l / 2 && (2 * x + l) % 2 == l % 2
  {
  }
}
