/** The S-box is the one of FIPS 197, section 5.1.1: the inverse in the field, and an affine transformation. */
module AesSbox {
  import opened Bits
  import opened Bitwise
  import opened AesField
  import opened AesTables

  // ----- sums and bits ------------------------------------------------------------------------

  function Plus(a: bv8, b: bv8): (r: bv8) { a ^ b }

  /** Multiplication by x. */
  function Twice(a: bv8): (r: bv8) { Plus(a << 1, if a >> 7 == 1 then 0x1b else 0) }

  /** Bit i. */
  predicate BitAt(a: bv8, i: nat)
    requires i < 8
  {
    (a >> i) & 1 == 1
  }

  lemma {:induction false} HalfPlus(a: bv8, b: bv8)
    ensures Half(Plus(a, b)) == Plus(Half(a), Half(b)) && (Odd(Plus(a, b)) <==> Odd(a) != Odd(b)) && (Value(a) == Value(b) == 0 ==> Value(Plus(a, b)) == 0)
  {}

  lemma {:induction false} PlusIs(a: bv8, b: bv8)
    ensures XorB(Value(a), Value(b)) == Value(Plus(a, b))
    decreases Value(a) + Value(b)
  {
    hide Value, Half, Odd, Plus;
    HalfPlus(a, b);
    HalfIs(a);
    HalfIs(b);
    HalfIs(Plus(a, b));
    if Value(a) != 0 || Value(b) != 0 { PlusIs(Half(a), Half(b)); }
  }

  lemma {:induction false} HalfAt(a: bv8, i: nat)
    requires i < 8
    ensures i > 0 ==> BitAt(a, i) == BitAt(Half(a), i - 1)
    ensures BitAt(a, 0) == Odd(a)
  {}

  lemma {:induction false} BitIs(a: bv8, i: nat)
    requires i < 8
    ensures Bit(Value(a), i) == BitAt(a, i)
    decreases i
  {
    hide Value, Half, Odd, BitAt;
    HalfIs(a);
    HalfAt(a, i);
    if i > 0 { BitIs(Half(a), i - 1); }
  }

  lemma {:induction false} Doubled(a: bv8)
    ensures 2 * Value(a) % 256 == Value(a << 1) && (Value(a) >= 128 <==> a >> 7 == 1) && Value(0x1b) == 0x1b && Value(0) == 0
  {}

  lemma {:induction false} TwiceIs(a: bv8)
    ensures Xtime(Value(a)) == Value(Twice(a))
  {
    hide Xor, Value;
    Doubled(a);
    PlusIs(a << 1, if a >> 7 == 1 then 0x1b else 0);
  }

  // ----- products -----------------------------------------------------------------------------

  /** The product with y, one bit after the other. */
  function Product(x: bv8, y: bv8, n: nat): (r: bv8)
    decreases n
  {
    if n == 0 then 0 else Plus(if Odd(y) then x else 0, Product(Twice(x), Half(y), n - 1))
  }

  lemma {:induction false} PolyIs(x: bv8, y: bv8, n: nat)
    requires Value(y) < Pow2(n)
    ensures Poly(Value(x), Value(y)) == Value(Product(x, y, n))
    decreases n
  {
    hide Xor, Xtime, Twice, Half, Odd, Value, Plus;
    Doubled(0);
    if n > 0 {
      HalfIs(y);
      TwiceIs(x);
      PolyStep(Value(x), Value(y));
      PolyIs(Twice(x), Half(y), n - 1);
      PlusIs(if Odd(y) then x else 0, Product(Twice(x), Half(y), n - 1));
    }
  }

  function IfOdd(y: bv8, x: bv8): (r: bv8) { if Odd(y) then x else 0 }

  /** The product of two bytes in the field. */
  function Times(x: bv8, y: bv8): (r: bv8)
  {
    var x1, y1 := Twice(x), Half(y);
    var x2, y2 := Twice(x1), Half(y1);
    var x3, y3 := Twice(x2), Half(y2);
    var x4, y4 := Twice(x3), Half(y3);
    var x5, y5 := Twice(x4), Half(y4);
    var x6, y6 := Twice(x5), Half(y5);
    var x7, y7 := Twice(x6), Half(y6);
    Plus(IfOdd(y, x), Plus(IfOdd(y1, x1), Plus(IfOdd(y2, x2), Plus(IfOdd(y3, x3),
      Plus(IfOdd(y4, x4), Plus(IfOdd(y5, x5), Plus(IfOdd(y6, x6), Plus(IfOdd(y7, x7), 0))))))))
  }

  lemma {:induction false} TimesIs(x: bv8, y: bv8)
    ensures Times(x, y) == Product(x, y, 8)
  {
    hide Twice, Half, Odd, Plus;
  }

  // ----- the table ----------------------------------------------------------------------------

  /** x rotated to the left by n bits: bit i comes from bit i - n modulo 8. */
  function Rotated(x: bv8, n: nat): (r: bv8)
    requires n <= 8
  {
    (x << n) ^ (x >> (8 - n))
  }

  /** The affine transformation: bit i is the sum of bits i, i + 4, i + 5, i + 6 and i + 7 modulo 8 and of bit i of 0x63. */
  function Affine(y: bv8): (r: bv8) 
  {
    Plus(y, Plus(Rotated(y, 4), Plus(Rotated(y, 3), Plus(Rotated(y, 2), Plus(Rotated(y, 1), 0x63)))))
  }

  /** Undoes it. */
  function Unaffine(s: bv8): (y: bv8) { Plus(Rotated(s, 1), Plus(Rotated(s, 3), Plus(Rotated(s, 6), 0x05))) }

  lemma {:induction false} FirstProduct(x: bv8)
    requires x != 0 && x < 0x20
    ensures Times(x, Unaffine(SboxTable(x))) == 1
  {
    if x & 0x10 == 0 { if x & 0x08 == 0 {} else {} } else { if x & 0x08 == 0 {} else {} }
  }

  lemma {:induction false} NextProduct(x: bv8)
    requires 0x20 <= x < 0x40
    ensures Times(x, Unaffine(SboxTable(x))) == 1
  {
    if x & 0x10 == 0 { if x & 0x08 == 0 {} else {} } else { if x & 0x08 == 0 {} else {} }
  }

  lemma {:induction false} SecondProduct(x: bv8)
    requires 0x40 <= x < 0x80
    ensures Times(x, Unaffine(SboxTable(x))) == 1
  {
    if x & 0x20 == 0 { if x & 0x10 == 0 { if x & 0x08 == 0 {} else {} } else { if x & 0x08 == 0 {} else {} } }
    else { if x & 0x10 == 0 { if x & 0x08 == 0 {} else {} } else { if x & 0x08 == 0 {} else {} } }
  }

  lemma {:induction false} ThirdProduct(x: bv8)
    requires 0x80 <= x < 0xc0
    ensures Times(x, Unaffine(SboxTable(x))) == 1
  {
    if x & 0x20 == 0 { if x & 0x10 == 0 { if x & 0x08 == 0 {} else {} } else { if x & 0x08 == 0 {} else {} } }
    else { if x & 0x10 == 0 { if x & 0x08 == 0 {} else {} } else { if x & 0x08 == 0 {} else {} } }
  }

  lemma {:induction false} LastProduct(x: bv8)
    requires 0xc0 <= x
    ensures Times(x, Unaffine(SboxTable(x))) == 1
  {
    if x & 0x20 == 0 { if x & 0x10 == 0 { if x & 0x08 == 0 {} else {} } else { if x & 0x08 == 0 {} else {} } }
    else { if x & 0x10 == 0 { if x & 0x08 == 0 {} else {} } else { if x & 0x08 == 0 {} else {} } }
  }

  /** Undoing the affine transformation of a substitute leaves the inverse in the field. */
  lemma {:induction false} SboxIsInverse(x: bv8)
    requires x != 0
    ensures Times(x, Unaffine(SboxTable(x))) == 1
  {
    hide SboxTable, Times, Unaffine;
    if x < 0x20 { FirstProduct(x); } else if x < 0x40 { NextProduct(x); } else if x < 0x80 { SecondProduct(x); } else if x < 0xc0 { ThirdProduct(x); } else { LastProduct(x); }
  }

  lemma {:induction false} RotatedIs(x: bv8)
    ensures Rotated(x, 1) == (x << 1) ^ (x >> 7) && Rotated(x, 2) == (x << 2) ^ (x >> 6) && Rotated(x, 3) == (x << 3) ^ (x >> 5)
    ensures Rotated(x, 4) == (x << 4) ^ (x >> 4) && Rotated(x, 6) == (x << 6) ^ (x >> 2)
  {}

  lemma {:induction false} AffineUnaffine(s: bv8)
    ensures Affine(Unaffine(s)) == s
  {
    hide Rotated;
    RotatedIs(s);
    RotatedIs(Unaffine(s));
  }

  lemma {:induction false} RotatedOnce(y: bv8, i: nat)
    requires i < 8
    ensures BitAt(Rotated(y, 1), i) == BitAt(y, (i + 7) % 8)
  {
    if i == 0 {} else if i == 1 {} else if i == 2 {} else if i == 3 {} else if i == 4 {} else if i == 5 {} else if i == 6 {} else {}
  }

  lemma {:induction false} RotatedAgain(y: bv8)
    ensures Rotated(y, 0) == y && Rotated(y, 2) == Rotated(Rotated(y, 1), 1)
    ensures Rotated(y, 3) == Rotated(Rotated(y, 2), 1) && Rotated(y, 4) == Rotated(Rotated(y, 3), 1)
  {}

  /** Rotating moves the bits. */
  lemma {:induction false} RotatedBit(y: bv8, n: nat, i: nat)
    requires 1 <= n <= 4 && i < 8
    ensures BitAt(Rotated(y, n), i) == BitAt(y, (i + 8 - n) % 8)
    decreases n
  {
    hide BitAt, Rotated;
    if n == 1 {
      RotatedOnce(y, i);
    } else {
      RotatedAgain(y);
      RotatedOnce(Rotated(y, n - 1), i);
      RotatedBit(y, n - 1, (i + 7) % 8);
    }
  }

  lemma {:induction false} PlusBit(a: bv8, b: bv8, i: nat)
    requires i < 8
    ensures BitAt(Plus(a, b), i) == (BitAt(a, i) != BitAt(b, i))
  {
    var j := i as bv8;
    assert (a ^ b) >> j == (a >> j) ^ (b >> j);
  }

  lemma {:induction false} AffineBits(y: bv8, i: nat)
    requires i < 8
    ensures BitAt(Affine(y), i) == (BitAt(y, i) != (BitAt(y, (i + 4) % 8) != (BitAt(y, (i + 5) % 8)
                                    != (BitAt(y, (i + 6) % 8) != (BitAt(y, (i + 7) % 8) != BitAt(0x63, i))))))
  {
    hide BitAt, Plus, Rotated;
    RotatedBit(y, 1, i);
    RotatedBit(y, 2, i);
    RotatedBit(y, 3, i);
    RotatedBit(y, 4, i);
    var a := Rotated(y, 1);
    var b := Plus(Rotated(y, 2), Plus(a, 0x63));
    var c := Plus(Rotated(y, 3), b);
    var d := Plus(Rotated(y, 4), c);
    PlusBit(a, 0x63, i);
    PlusBit(Rotated(y, 2), Plus(a, 0x63), i);
    PlusBit(Rotated(y, 3), b, i);
    PlusBit(Rotated(y, 4), c, i);
    PlusBit(y, d, i);
  }

  /** The affine transformation on numbers: bit i of s is the sum of bits i, i + 4, i + 5, i + 6 and i + 7 modulo 8 of y and
      of bit i of 0x63. */
  predicate IsAffine(s: byte, y: byte)
  {
    forall i: nat :: i < 8 ==>
      Bit(s, i) == (Bit(y, i) != (Bit(y, (i + 4) % 8) != (Bit(y, (i + 5) % 8) != (Bit(y, (i + 6) % 8) != (Bit(y, (i + 7) % 8) != Bit(0x63, i))))))
  }

  lemma {:induction false} ConstantIs()
    ensures Value(0x63) == 0x63
  {}

  lemma {:induction false} AffineIs(y: bv8)
    ensures IsAffine(Value(Affine(y)), Value(y))
  {
    hide Bit, BitAt, Affine, Value;
    ConstantIs();
    forall i: nat | i < 8
      ensures Bit(Value(Affine(y)), i) == (Bit(Value(y), i) != (Bit(Value(y), (i + 4) % 8) != (Bit(Value(y), (i + 5) % 8)
                                           != (Bit(Value(y), (i + 6) % 8) != (Bit(Value(y), (i + 7) % 8) != Bit(0x63, i))))))
    {
      AffineBits(y, i);
      BitIs(Affine(y), i);
      BitIs(y, i);
      BitIs(y, (i + 4) % 8);
      BitIs(y, (i + 5) % 8);
      BitIs(y, (i + 6) % 8);
      BitIs(y, (i + 7) % 8);
      BitIs(0x63, i);
    }
  }

  lemma {:induction false} Known()
    ensures SboxTable(0) == 0x63 && Unaffine(0x63) == 0 && Value(0) == 0 && Value(1) == 1 && Vector(0) == 0
  {}

  /** The S-box substitutes each byte by the affine image of its inverse in the field, and 0 by that of 0. */
  lemma {:induction false} SboxIs(x: byte)
    ensures exists y: byte :: (if x == 0 then y == 0 else Poly(x, y) == 1) && IsAffine(Sbox(x), y)
  {
    hide Value, Vector, Poly, IsAffine, Affine, Unaffine, SboxTable, Times;
    var v := Vector(x);
    ValueVector(x);
    var y := Unaffine(SboxTable(v));
    AffineIs(y);
    AffineUnaffine(SboxTable(v));
    Known();
    assert Affine(y) == SboxTable(v);
    assert Sbox(x) == Value(SboxTable(v));
    assert IsAffine(Sbox(x), Value(y));
    if x != 0 {
      SboxIsInverse(v);
      PolyIs(v, y, 8);
      TimesIs(v, y);
      Pow2Small();
    }
    assert (if x == 0 then Value(y) == 0 else Poly(x, Value(y)) == 1) && IsAffine(Sbox(x), Value(y));
  }
}
