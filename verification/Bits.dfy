/** 32-bit words as the bits they are made of, and the bitwise operations of bit-vectors on them. */
module Bits {
  import opened Words

  datatype BitOp = BIT_AND | BIT_OR | BIT_XOR

  function Power2(n: nat): (p: nat)
    ensures p >= 1
  {
    if n == 0 then 1 else 2 * Power2(n - 1)
  }

  lemma ProductNotNegative(m: nat, n: nat)
    ensures m * n >= 0
  {
  }

  lemma NegativeProduct(q: int, b: nat)
    requires q < 0
    ensures q * b + b <= 0
  {
    var m: int := -q - 1;
    assert q * b + b == -(m * b);
    ProductNotNegative(m, b);
  }

  lemma QuotientBounds(a: nat, b: nat, q: int, r: nat)
    requires a == q * b + r && r < b
    ensures 0 <= q <= a
  {
    if q < 0 {
      NegativeProduct(q, b);
    } else if q > 0 {
      var m: nat := b - 1;
      assert q * b == q * m + q;
      ProductNotNegative(q, m);
    }
  }

  /** One bit of the result. */
  function BitOf(op: BitOp, a: bool, b: bool): bool {
    match op
    case BIT_AND => a && b
    case BIT_OR => a || b
    case BIT_XOR => a != b
  }

  predicate IsOdd(a: nat) {
    a % 2 == 1
  }

  /** The lowest `n` bits, bit by bit from the lowest. */
  function Bitwise(op: BitOp, a: nat, b: nat, n: nat): (r: nat)
    ensures r < Power2(n)
  {
    if n == 0 then 0
    else (if BitOf(op, IsOdd(a), IsOdd(b)) then 1 else 0) + 2 * Bitwise(op, a / 2, b / 2, n - 1)
  }

  // ---------------------------------------------------------------------------------------------
  // Bit-vectors
  // ---------------------------------------------------------------------------------------------

  function IntOf(v: bv32): U32 {
    v as int
  }

  function Double(v: bv32): bv32 {
    v << 1
  }

  function DoublePlus(v: bv32): bv32 {
    (v << 1) | 1
  }

  function Pair(v: bv32, low: bool): bv32 {
    if low then DoublePlus(v) else Double(v)
  }

  function And32(v: bv32, w: bv32): bv32 {
    v & w
  }

  function Or32(v: bv32, w: bv32): bv32 {
    v | w
  }

  function Xor32(v: bv32, w: bv32): bv32 {
    v ^ w
  }

  function OnVectors(op: BitOp, v: bv32, w: bv32): bv32 {
    match op
    case BIT_AND => And32(v, w)
    case BIT_OR => Or32(v, w)
    case BIT_XOR => Xor32(v, w)
  }

  predicate IsSmall(v: bv32) {
    v < 0x8000_0000
  }

  lemma SmallVector(v: bv32)
    requires IntOf(v) < 0x8000_0000
    ensures IsSmall(v)
  {
  }

  lemma DoublePlusInt(v: bv32)
    requires IsSmall(v)
    ensures IntOf(DoublePlus(v)) == 2 * IntOf(v) + 1
  {
  }

  lemma DoubleInt(v: bv32)
    requires IsSmall(v)
    ensures IntOf(Double(v)) == 2 * IntOf(v)
  {
  }

  lemma PairInt(v: bv32, low: bool)
    requires IntOf(v) < 0x8000_0000
    ensures IntOf(Pair(v, low)) == 2 * IntOf(v) + if low then 1 else 0
  {
    hide IntOf, Double, DoublePlus, IsSmall;
    SmallVector(v);
    DoublePlusInt(v);
    DoubleInt(v);
  }

  lemma AndOddOdd(v: bv32, w: bv32)
    ensures And32(DoublePlus(v), DoublePlus(w)) == DoublePlus(And32(v, w))
  {
  }

  lemma AndOddEven(v: bv32, w: bv32)
    ensures And32(DoublePlus(v), Double(w)) == Double(And32(v, w))
  {
  }

  lemma AndEvenOdd(v: bv32, w: bv32)
    ensures And32(Double(v), DoublePlus(w)) == Double(And32(v, w))
  {
  }

  lemma AndEvenEven(v: bv32, w: bv32)
    ensures And32(Double(v), Double(w)) == Double(And32(v, w))
  {
  }

  lemma PairAnd(v: bv32, p: bool, w: bv32, q: bool)
    ensures And32(Pair(v, p), Pair(w, q)) == Pair(And32(v, w), p && q)
  {
    hide And32, Double, DoublePlus;
    AndOddOdd(v, w);
    AndOddEven(v, w);
    AndEvenOdd(v, w);
    AndEvenEven(v, w);
  }

  lemma OrOddOdd(v: bv32, w: bv32)
    ensures Or32(DoublePlus(v), DoublePlus(w)) == DoublePlus(Or32(v, w))
  {
  }

  lemma OrOddEven(v: bv32, w: bv32)
    ensures Or32(DoublePlus(v), Double(w)) == DoublePlus(Or32(v, w))
  {
  }

  lemma OrEvenOdd(v: bv32, w: bv32)
    ensures Or32(Double(v), DoublePlus(w)) == DoublePlus(Or32(v, w))
  {
  }

  lemma OrEvenEven(v: bv32, w: bv32)
    ensures Or32(Double(v), Double(w)) == Double(Or32(v, w))
  {
  }

  lemma PairOr(v: bv32, p: bool, w: bv32, q: bool)
    ensures Or32(Pair(v, p), Pair(w, q)) == Pair(Or32(v, w), p || q)
  {
    hide Or32, Double, DoublePlus;
    OrOddOdd(v, w);
    OrOddEven(v, w);
    OrEvenOdd(v, w);
    OrEvenEven(v, w);
  }

  lemma XorOddOdd(v: bv32, w: bv32)
    ensures Xor32(DoublePlus(v), DoublePlus(w)) == Double(Xor32(v, w))
  {
  }

  lemma XorOddEven(v: bv32, w: bv32)
    ensures Xor32(DoublePlus(v), Double(w)) == DoublePlus(Xor32(v, w))
  {
  }

  lemma XorEvenOdd(v: bv32, w: bv32)
    ensures Xor32(Double(v), DoublePlus(w)) == DoublePlus(Xor32(v, w))
  {
  }

  lemma XorEvenEven(v: bv32, w: bv32)
    ensures Xor32(Double(v), Double(w)) == Double(Xor32(v, w))
  {
  }

  lemma PairXor(v: bv32, p: bool, w: bv32, q: bool)
    ensures Xor32(Pair(v, p), Pair(w, q)) == Pair(Xor32(v, w), p != q)
  {
    hide Xor32, Double, DoublePlus;
    XorOddOdd(v, w);
    XorOddEven(v, w);
    XorEvenOdd(v, w);
    XorEvenEven(v, w);
  }

  lemma PairOp(op: BitOp, v: bv32, p: bool, w: bv32, q: bool)
    ensures OnVectors(op, Pair(v, p), Pair(w, q)) == Pair(OnVectors(op, v, w), BitOf(op, p, q))
  {
    hide Pair, And32, Or32, Xor32;
    PairAnd(v, p, w, q);
    PairOr(v, p, w, q);
    PairXor(v, p, w, q);
  }

  function VectorOf(a: nat, n: nat): bv32 {
    if n == 0 then 0 else Pair(VectorOf(a / 2, n - 1), IsOdd(a))
  }

  lemma Power2Of31()
    ensures Power2(31) == 0x8000_0000 && Power2(32) == 0x1_0000_0000
  {
    assert Power2(8) == 0x100;
    assert Power2(16) == 0x1_0000;
    assert Power2(24) == 0x100_0000;
  }

  lemma {:induction false} Power2Grows(m: nat, n: nat)
    requires m <= n
    ensures Power2(m) <= Power2(n)
    decreases n
  {
    if m == n {
    } else {
      Power2Grows(m, n - 1);
    }
  }

  lemma {:induction false} VectorInt(a: nat, n: nat)
    requires n <= 32 && a < Power2(n)
    ensures IntOf(VectorOf(a, n)) == a
    decreases n
  {
    hide IntOf, Pair;
    if n == 0 {
      ZeroVector();
    } else {
      VectorInt(a / 2, n - 1);
      Power2Of31();
      Power2Grows(n - 1, 31);
      PairInt(VectorOf(a / 2, n - 1), IsOdd(a));
    }
  }

  lemma ZeroVector()
    ensures IntOf(0) == 0
  {
  }

  lemma ConvertBack(v: bv32)
    ensures (v as int) as bv32 == v
  {
  }

  lemma VectorIs(a: U32)
    ensures a as bv32 == VectorOf(a, 32)
  {
    Power2Of31();
    VectorInt(a, 32);
    ConvertBack(VectorOf(a, 32));
  }

  lemma {:induction false} OnVectorsOf(op: BitOp, a: nat, b: nat, n: nat)
    ensures OnVectors(op, VectorOf(a, n), VectorOf(b, n)) == VectorOf(Bitwise(op, a, b, n), n)
    decreases n
  {
    hide OnVectors, Pair;
    if n == 0 {
      ZeroOp(op);
    } else {
      OnVectorsOf(op, a / 2, b / 2, n - 1);
      PairOp(op, VectorOf(a / 2, n - 1), IsOdd(a), VectorOf(b / 2, n - 1), IsOdd(b));
      var r, rest := Bitwise(op, a, b, n), Bitwise(op, a / 2, b / 2, n - 1);
      assert r / 2 == rest && IsOdd(r) == BitOf(op, IsOdd(a), IsOdd(b));
    }
  }

  lemma ZeroOp(op: BitOp)
    ensures OnVectors(op, 0, 0) == 0
  {
  }

  /** The bitwise operations of bit-vectors are the ones bit by bit. */
  lemma VectorsAreBitwise(op: BitOp, a: U32, b: U32)
    ensures IntOf(OnVectors(op, a as bv32, b as bv32)) == Bitwise(op, a, b, 32)
  {
    hide OnVectors, IntOf, VectorOf, Bitwise;
    VectorIs(a);
    VectorIs(b);
    OnVectorsOf(op, a, b, 32);
    VectorInt(Bitwise(op, a, b, 32), 32);
  }
}
