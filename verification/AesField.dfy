/** Arithmetic of AES: bytes as polynomials over GF(2) modulo x^8 + x^4 + x^3 + x + 1 (FIPS 197, section 4). */
module AesField {
  import opened Bits
  import opened Bitwise

  function XorB(x: byte, y: byte): (r: byte)
  {
    XorByte(x, y);
    Xor(x, y)
  }

  /** Multiplication by x. */
  function Xtime(x: byte): (r: byte) { XorB(2 * x % 256, if x >= 128 then 0x1b else 0) }

  /** Multiplication of x by the polynomial m, from its lowest coefficient up (section 4.2.1). */
  function Poly(x: byte, m: nat): (r: byte)
    decreases m, x
  {
    if m == 0 then 0 else XorB(if m % 2 == 1 then x else 0, Poly(Xtime(x), m / 2))
  }

  /** Product of two polynomials, not reduced. */
  function Carryless(m: nat, n: nat): (r: nat)
    decreases n, m
  {
    if n == 0 then 0 else Xor(if n % 2 == 1 then m else 0, Carryless(2 * m, n / 2))
  }

  // ----- linearity ----------------------------------------------------------------------------

  lemma {:induction false} BitXors()
    ensures forall x: nat, y: nat, i: nat {:trigger Bit(Xor(x, y), i)} :: Bit(Xor(x, y), i) == (Bit(x, i) != Bit(y, i))
  {
    forall x: nat, y: nat, i: nat ensures Bit(Xor(x, y), i) == (Bit(x, i) != Bit(y, i)) { BitXor(x, y, i); }
  }

  lemma {:induction false} SameByte(x: byte, y: byte)
    requires forall i: nat :: i < 8 ==> Bit(x, i) == Bit(y, i)
    ensures x == y
  {
    hide Bit;
    Pow2Small();
    SameBitsSame(x, y, 8);
  }

  /** Doubling within n bits shifts the bits. */
  lemma {:induction false} BitDouble(x: nat, n: nat, i: nat)
    requires x < 2 * Pow2(n) && i <= n
    ensures Bit(if x >= Pow2(n) then 2 * x - 2 * Pow2(n) else 2 * x, i) == (i > 0 && Bit(x, i - 1))
  {
    var y := if x >= Pow2(n) then x - Pow2(n) else x;
    assert (2 * y) / 2 == y && (2 * y) % 2 == 0;
    if i > 0 && x >= Pow2(n) { BitBelow(y, n, i - 1); }
  }

  lemma {:induction false} BitBelow(y: nat, n: nat, i: nat)
    requires i < n
    ensures Bit(y + Pow2(n), i) == Bit(y, i)
    decreases i
  {
    assert (y + Pow2(n)) / 2 == y / 2 + Pow2(n - 1) && (y + Pow2(n)) % 2 == y % 2;
    if i > 0 { BitBelow(y / 2, n - 1, i - 1); }
  }

  lemma {:induction false} BitTop(x: nat, n: nat)
    requires x < 2 * Pow2(n)
    ensures Bit(x, n) == (x >= Pow2(n))
    decreases n
  {
    if n > 0 { BitTop(x / 2, n - 1); }
  }

  lemma {:induction false} XtimeBit(x: byte, i: nat)
    requires i < 8
    ensures Bit(Xtime(x), i) == ((i > 0 && Bit(x, i - 1)) != (Bit(x, 7) && Bit(0x1b, i)))
  {
    hide Bit, Xor;
    assert Pow2(7) == 128;
    BitDouble(x, 7, i);
    BitTop(x, 7);
    BitXor(2 * x % 256, if x >= 128 then 0x1b else 0, i);
    BitZero(i);
    assert 2 * x % 256 == if x >= 128 then 2 * x - 256 else 2 * x;
  }

  lemma {:induction false} XtimeXor(x: byte, y: byte)
    ensures Xtime(XorB(x, y)) == XorB(Xtime(x), Xtime(y))
  {
    hide Bit, Xor, Xtime;
    BitXors();
    forall i: nat | i < 8 ensures Bit(Xtime(XorB(x, y)), i) == Bit(XorB(Xtime(x), Xtime(y)), i) {
      XtimeBit(x, i);
      XtimeBit(y, i);
      XtimeBit(XorB(x, y), i);
    }
    SameByte(Xtime(XorB(x, y)), XorB(Xtime(x), Xtime(y)));
  }

  lemma {:induction false} XtimeZero()
    ensures Xtime(0) == 0
  {
    XorZero(0);
  }

  /** Multiplication distributes over the sum of bytes ... */
  lemma {:induction false} PolyXor(x: byte, y: byte, m: nat)
    ensures Poly(XorB(x, y), m) == XorB(Poly(x, m), Poly(y, m))
    decreases m
  {
    hide Xtime, Xor;
    XorZero(0);
    if m > 0 {
      PolyXor(Xtime(x), Xtime(y), m / 2);
      XtimeXor(x, y);
      var x0, y0 := if m % 2 == 1 then x else 0, if m % 2 == 1 then y else 0;
      XorSwap(x0, y0, Poly(Xtime(x), m / 2), Poly(Xtime(y), m / 2));
    }
  }

  /** ... and over the sum of polynomials; multiplying twice is multiplying by the product. */
  lemma {:induction false} PolySum(x: byte, m: nat, n: nat)
    ensures Poly(x, Xor(m, n)) == XorB(Poly(x, m), Poly(x, n))
    decreases m + n
  {
    hide Xtime, Xor;
    XorZero(0);
    XorHalf(m, n);
    if m == 0 || n == 0 {
      XorZero(m);
      XorZero(n);
      XorZero(Poly(x, m));
      XorZero(Poly(x, n));
    } else {
      PolySum(Xtime(x), m / 2, n / 2);
      var p, q := Poly(Xtime(x), m / 2), Poly(Xtime(x), n / 2);
      var m0, n0 := if m % 2 == 1 then x else 0, if n % 2 == 1 then x else 0;
      XorSwap(m0, p, n0, q);
      XorSelf(x);
      XorZero(x);
      PolyStep(x, Xor(m, n));
      PolyStep(x, m);
      PolyStep(x, n);
    }
  }

  /** The defining equation, also for the polynomial 0. */
  lemma {:induction false} PolyStep(x: byte, m: nat)
    ensures Poly(x, m) == XorB(if m % 2 == 1 then x else 0, Poly(Xtime(x), m / 2))
  {
    XorZero(0);
  }

  lemma {:induction false} PolyXtime(x: byte, m: nat)
    ensures Xtime(Poly(x, m)) == Poly(Xtime(x), m) == Poly(x, 2 * m)
    decreases m
  {
    hide Xtime, Xor;
    XtimeZero();
    PolyStep(x, 2 * m);
    XorZero(Poly(Xtime(x), m));
    if m > 0 {
      PolyXtime(Xtime(x), m / 2);
      XtimeXor(if m % 2 == 1 then x else 0, Poly(Xtime(x), m / 2));
    }
  }

  lemma {:induction false} PolyPoly(x: byte, m: nat, n: nat)
    ensures Poly(Poly(x, m), n) == Poly(x, Carryless(m, n))
    decreases n
  {
    hide Xtime, Xor;
    if n > 0 {
      PolyXtime(x, m);
      PolyPoly(x, 2 * m, n / 2);
      PolySum(x, if n % 2 == 1 then m else 0, Carryless(2 * m, n / 2));
    }
  }

  // ----- columns ------------------------------------------------------------------------------

  /** A row of a matrix: coefficients for the four bytes of a column. */
  datatype Coefficients = Coefficients(m0: nat, m1: nat, m2: nat, m3: nat)

  /** {m0} a + {m1} b + {m2} c + {m3} d */
  function Row(a: byte, b: byte, c: byte, d: byte, m: Coefficients): (r: byte)
  {
    XorB(XorB(Poly(a, m.m0), Poly(b, m.m1)), XorB(Poly(c, m.m2), Poly(d, m.m3)))
  }

  function Sum(m: Coefficients, n: Coefficients): (r: Coefficients)
  {
    Coefficients(Xor(m.m0, n.m0), Xor(m.m1, n.m1), Xor(m.m2, n.m2), Xor(m.m3, n.m3))
  }

  function Scaled(m: Coefficients, n: nat): (r: Coefficients)
  {
    Coefficients(Carryless(m.m0, n), Carryless(m.m1, n), Carryless(m.m2, n), Carryless(m.m3, n))
  }

  lemma {:induction false} RowSum(a: byte, b: byte, c: byte, d: byte, m: Coefficients, n: Coefficients)
    ensures XorB(Row(a, b, c, d, m), Row(a, b, c, d, n)) == Row(a, b, c, d, Sum(m, n))
  {
    hide Xor, Poly;
    PolySum(a, m.m0, n.m0);
    PolySum(b, m.m1, n.m1);
    PolySum(c, m.m2, n.m2);
    PolySum(d, m.m3, n.m3);
    XorSwap(Poly(a, m.m0), Poly(b, m.m1), Poly(a, n.m0), Poly(b, n.m1));
    XorSwap(Poly(c, m.m2), Poly(d, m.m3), Poly(c, n.m2), Poly(d, n.m3));
    XorSwap(XorB(Poly(a, m.m0), Poly(b, m.m1)), XorB(Poly(c, m.m2), Poly(d, m.m3)),
            XorB(Poly(a, n.m0), Poly(b, n.m1)), XorB(Poly(c, n.m2), Poly(d, n.m3)));
  }

  lemma {:induction false} RowScaled(a: byte, b: byte, c: byte, d: byte, m: Coefficients, n: nat)
    ensures Poly(Row(a, b, c, d, m), n) == Row(a, b, c, d, Scaled(m, n))
  {
    hide Xor, Poly, Carryless;
    PolyXor(XorB(Poly(a, m.m0), Poly(b, m.m1)), XorB(Poly(c, m.m2), Poly(d, m.m3)), n);
    PolyXor(Poly(a, m.m0), Poly(b, m.m1), n);
    PolyXor(Poly(c, m.m2), Poly(d, m.m3), n);
    PolyPoly(a, m.m0, n);
    PolyPoly(b, m.m1, n);
    PolyPoly(c, m.m2, n);
    PolyPoly(d, m.m3, n);
  }

  /** The rows of the matrices of MixColumns and InvMixColumns (sections 5.1.3 and 5.3.3). */
  const MIX: Coefficients := Coefficients(2, 3, 1, 1)
  const UNMIX: Coefficients := Coefficients(14, 11, 13, 9)

  function Rotated(m: Coefficients): (r: Coefficients) { Coefficients(m.m3, m.m0, m.m1, m.m2) }

  /** Row(b, c, d, a, m) == Row(a, b, c, d, Rotated(m)) */
  lemma {:induction false} RowRotated(a: byte, b: byte, c: byte, d: byte, m: Coefficients)
    ensures Row(b, c, d, a, m) == Row(a, b, c, d, Rotated(m))
  {
    hide Xor, Poly;
    var p, q, r, s := Poly(b, m.m0), Poly(c, m.m1), Poly(d, m.m2), Poly(a, m.m3);
    XorCommutes(r, s);
    XorSwap(p, q, s, r);
    XorCommutes(p, s);
    XorCommutes(q, r);
    XorCommutes(r, q);
  }

  /** One coefficient of the product of the two matrices. */
  function Product(m0: nat, m1: nat, m2: nat, m3: nat): (r: nat)
  {
    Xor(Xor(Carryless(m0, 14), Carryless(m1, 11)), Xor(Carryless(m2, 13), Carryless(m3, 9)))
  }

  /** Carry-less products with the coefficients of the inverse matrix. */
  lemma {:induction false} CarrylessStep(m: nat, n: nat)
    requires 0 < n
    ensures Carryless(m, n) == if n % 2 == 1 then Xor(m, Carryless(2 * m, n / 2)) else Carryless(2 * m, n / 2)
    ensures Carryless(m, 1) == m
  {
    XorZero(Carryless(2 * m, n / 2));
    XorZero(m);
    assert Carryless(m, 1) == Xor(m, Carryless(2 * m, 0));
  }

  lemma {:induction false} CarrylessBy(m: nat)
    ensures Carryless(m, 14) == Xor(2 * m, Xor(4 * m, 8 * m)) && Carryless(m, 11) == Xor(m, Xor(2 * m, 8 * m))
    ensures Carryless(m, 13) == Xor(m, Xor(4 * m, 8 * m)) && Carryless(m, 9) == Xor(m, 8 * m)
  {
    hide Xor, Carryless;
    CarrylessStep(m, 14);
    CarrylessStep(2 * m, 7);
    CarrylessStep(4 * m, 3);
    CarrylessStep(8 * m, 1);
    CarrylessStep(m, 11);
    CarrylessStep(2 * m, 5);
    CarrylessStep(4 * m, 2);
    CarrylessStep(m, 13);
    CarrylessStep(2 * m, 6);
    CarrylessStep(m, 9);
    CarrylessStep(2 * m, 4);
  }

  function Differ(x: nat, y: nat): (b: nat) { if x % 2 == y % 2 then 0 else 1 }

  /** Exclusive or of numbers below 32, bit by bit. */
  lemma {:induction false} XorSmall(x: nat, y: nat)
    requires x < 32 && y < 32
    ensures Xor(x, y) == Differ(x, y) + 2 * Differ(x / 2, y / 2) + 4 * Differ(x / 4, y / 4) + 8 * Differ(x / 8, y / 8) + 16 * Differ(x / 16, y / 16)
  {
    hide Xor;
    XorHalf(x, y);
    XorHalf(x / 2, y / 2);
    XorHalf(x / 4, y / 4);
    XorHalf(x / 8, y / 8);
    XorHalf(x / 16, y / 16);
    XorZero(0);
    assert x / 4 == x / 2 / 2 && y / 4 == y / 2 / 2 && x / 8 == x / 4 / 2 && y / 8 == y / 4 / 2;
    assert x / 16 == x / 8 / 2 && y / 16 == y / 8 / 2 && x / 16 / 2 == 0 && y / 16 / 2 == 0;
  }

  /** The exclusive ors that the product of the matrices needs. */
  lemma {:induction false} XorValues()
    ensures Xor(4, 8) == 12 && Xor(2, 12) == 14 && Xor(8, 16) == 24 && Xor(4, 24) == 28 && Xor(12, 24) == 20 && Xor(6, 20) == 18
    ensures Xor(2, 8) == 10 && Xor(1, 10) == 11 && Xor(4, 16) == 20 && Xor(2, 20) == 22 && Xor(6, 24) == 30 && Xor(3, 30) == 29
    ensures Xor(1, 12) == 13 && Xor(2, 24) == 26 && Xor(3, 20) == 23 && Xor(1, 8) == 9 && Xor(2, 16) == 18 && Xor(3, 24) == 27
    ensures Xor(28, 11) == 23 && Xor(13, 27) == 22 && Xor(23, 22) == 1 && Xor(18, 22) == 4 && Xor(13, 9) == 4 && Xor(14, 29) == 19
    ensures Xor(26, 9) == 19 && Xor(14, 11) == 5 && Xor(23, 18) == 5
  {
    hide Xor;
    forall x: nat, y: nat | x < 32 && y < 32
      ensures Xor(x, y) == Differ(x, y) + 2 * Differ(x / 2, y / 2) + 4 * Differ(x / 4, y / 4) + 8 * Differ(x / 8, y / 8) + 16 * Differ(x / 16, y / 16)
    {
      XorSmall(x, y);
    }
  }

  /** The product of the two matrices is the identity. */
  lemma {:induction false} ProductIsIdentity()
    ensures Product(2, 1, 1, 3) == 1 && Product(3, 2, 1, 1) == 0 && Product(1, 3, 2, 1) == 0 && Product(1, 1, 3, 2) == 0
  {
    hide Xor, Carryless;
    XorValues();
    CarrylessBy(1);
    CarrylessBy(2);
    CarrylessBy(3);
    XorSelf(4);
    XorSelf(19);
    XorSelf(5);
  }

  /** Unmixing a mixed column gives back its first byte; the others follow by rotation. */
  lemma {:induction false} UnmixMixed(a: byte, b: byte, c: byte, d: byte)
    ensures Row(Row(a, b, c, d, MIX), Row(b, c, d, a, MIX), Row(c, d, a, b, MIX), Row(d, a, b, c, MIX), UNMIX) == a
  {
    hide Xor, Poly, Carryless, Row;
    var m0, m1 := MIX, Rotated(MIX);
    var m2, m3 := Rotated(m1), Rotated(Rotated(m1));
    RowRotated(a, b, c, d, m0);
    RowRotated(a, b, c, d, m1);
    RowRotated(b, c, d, a, m0);
    RowRotated(a, b, c, d, m2);
    RowRotated(b, c, d, a, m1);
    RowRotated(c, d, a, b, m0);
    RowScaled(a, b, c, d, m0, 14);
    RowScaled(a, b, c, d, m1, 11);
    RowScaled(a, b, c, d, m2, 13);
    RowScaled(a, b, c, d, m3, 9);
    var s0, s1, s2, s3 := Scaled(m0, 14), Scaled(m1, 11), Scaled(m2, 13), Scaled(m3, 9);
    RowSum(a, b, c, d, s0, s1);
    RowSum(a, b, c, d, s2, s3);
    RowSum(a, b, c, d, Sum(s0, s1), Sum(s2, s3));
    ProductIsIdentity();
    assert Sum(Sum(s0, s1), Sum(s2, s3)) == Coefficients(1, 0, 0, 0);
    RowIs(Row(a, b, c, d, m0), Row(a, b, c, d, m1), Row(a, b, c, d, m2), Row(a, b, c, d, m3), UNMIX);
    RowFirst(a, b, c, d);
  }

  lemma {:induction false} RowIs(a: byte, b: byte, c: byte, d: byte, m: Coefficients)
    ensures Row(a, b, c, d, m) == XorB(XorB(Poly(a, m.m0), Poly(b, m.m1)), XorB(Poly(c, m.m2), Poly(d, m.m3)))
  {}

  lemma {:induction false} PolyOne(x: byte)
    ensures Poly(x, 1) == x && Poly(x, 0) == 0
  {
    hide Xtime, Xor;
    PolyStep(x, 1);
    XorZero(x);
  }

  lemma {:induction false} RowFirst(a: byte, b: byte, c: byte, d: byte)
    ensures Row(a, b, c, d, Coefficients(1, 0, 0, 0)) == a
  {
    hide Poly, Xor;
    PolyOne(a);
    PolyOne(b);
    PolyOne(c);
    PolyOne(d);
    XorZero(a);
    XorZero(0);
  }

  // ----- the forms of the code ----------------------------------------------------------------

  /** One byte of MixColumns as the code computes it from the sum of the column. */
  function MixByte(a: byte, b: byte, sum: byte): (r: byte) { XorB(a, XorB(Xtime(XorB(a, b)), sum)) }

  lemma {:induction false} MixByteIs(a: byte, b: byte, c: byte, d: byte, sum: byte)
    requires forall i: nat :: i < 8 ==> Bit(sum, i) == (Bit(a, i) != (Bit(b, i) != (Bit(c, i) != Bit(d, i))))
    ensures MixByte(a, b, sum) == Row(a, b, c, d, MIX)
  {
    hide Xor, Poly, Bit, Xtime;
    PolyOne(a);
    PolyOne(b);
    PolyOne(c);
    PolyOne(d);
    PolyOne(Xtime(a));
    PolyOne(Xtime(b));
    PolyStep(a, 2);
    PolyStep(b, 3);
    XorZero(Xtime(a));
    XtimeXor(a, b);
    BitXors();
    forall i: nat | i < 8 ensures Bit(MixByte(a, b, sum), i) == Bit(Row(a, b, c, d, MIX), i) {}
    SameByte(MixByte(a, b, sum), Row(a, b, c, d, MIX));
  }

  /** The sum of a column, from any of its bytes on. */
  lemma {:induction false} ColumnSum(a: byte, b: byte, c: byte, d: byte, i: nat)
    ensures var s := XorB(XorB(XorB(a, b), c), d);
            && Bit(s, i) == (Bit(a, i) != (Bit(b, i) != (Bit(c, i) != Bit(d, i))))
            && Bit(s, i) == (Bit(b, i) != (Bit(c, i) != (Bit(d, i) != Bit(a, i))))
            && Bit(s, i) == (Bit(c, i) != (Bit(d, i) != (Bit(a, i) != Bit(b, i))))
            && Bit(s, i) == (Bit(d, i) != (Bit(a, i) != (Bit(b, i) != Bit(c, i))))
  {
    hide Bit, Xor;
    BitXors();
  }

  /** (y & 1) * x */
  function IfOdd(y: nat, x: byte): (r: byte) { if y % 2 == 1 then x else 0 }

  /** Multiplication by a constant below 32, as the code has it. */
  function Multiply(x: byte, y: nat): (r: byte)
  {
    var x1 := Xtime(x);
    var x2 := Xtime(x1);
    var x3 := Xtime(x2);
    var x4 := Xtime(x3);
    XorB(XorB(XorB(XorB(IfOdd(y, x), IfOdd(y / 2, x1)), IfOdd(y / 4, x2)), IfOdd(y / 8, x3)), IfOdd(y / 16, x4))
  }

  lemma {:induction false} MultiplyIs(x: byte, y: nat)
    requires y < 32
    ensures Multiply(x, y) == Poly(x, y)
  {
    hide Xor, Poly, Bit, Xtime;
    var x1 := Xtime(x);
    var x2 := Xtime(x1);
    var x3 := Xtime(x2);
    var x4 := Xtime(x3);
    assert y / 2 / 2 == y / 4 && y / 4 / 2 == y / 8 && y / 8 / 2 == y / 16 && y / 16 / 2 == 0;
    PolyStep(x, y);
    PolyStep(x1, y / 2);
    PolyStep(x2, y / 4);
    PolyStep(x3, y / 8);
    PolyStep(x4, y / 16);
    PolyOne(Xtime(x4));
    Regroup(IfOdd(y, x), IfOdd(y / 2, x1), IfOdd(y / 4, x2), IfOdd(y / 8, x3), IfOdd(y / 16, x4));
  }

  lemma {:induction false} Regroup(a: byte, b: byte, c: byte, d: byte, e: byte)
    ensures XorB(XorB(XorB(XorB(a, b), c), d), e) == XorB(a, XorB(b, XorB(c, XorB(d, XorB(e, 0)))))
  {
    hide Xor;
    XorZero(e);
    XorAssociates(XorB(XorB(a, b), c), d, e);
    XorAssociates(XorB(a, b), c, XorB(d, e));
    XorAssociates(a, b, XorB(c, XorB(d, e)));
  }
}
