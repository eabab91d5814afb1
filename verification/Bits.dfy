/** Bytes, bit sequences and shifts: the vocabulary shared by the DEFLATE modules.

    A DEFLATE stream is read least significant bit first within each byte (RFC 1951, section 3.1.1).
    `BitsOf` gives that reading of a byte sequence; `Val` is the number denoted by a bit sequence
    whose first element is the least significant bit. Shifts and masks are defined one bit at a time,
    so that everything about them is linear arithmetic. */
module Bits {

  type byte = x: int | 0 <= x < 256

  // ----- shifts, masks and powers of two ------------------------------------------------------

  function Pow2(n: nat): (r: nat)
    ensures 1 <= r
  {
    if n == 0 then 1 else 2 * Pow2(n - 1)
  }

  /** x << n */
  function Shl(x: nat, n: nat): (r: nat)
  {
    if n == 0 then x else 2 * Shl(x, n - 1)
  }

  /** x >> n */
  function Shr(x: nat, n: nat): (r: nat)
    decreases n, x
  {
    if n == 0 then x else Shr(x / 2, n - 1)
  }

  /** x & ((1 << n) - 1) */
  function Low(x: nat, n: nat): (r: nat)
    decreases n, x
  {
    if n == 0 then 0 else x % 2 + 2 * Low(x / 2, n - 1)
  }

  lemma {:induction false} Pow2Mono(a: nat, b: nat)
    requires a <= b
    ensures Pow2(a) <= Pow2(b)
  {
    if a < b { Pow2Mono(a, b - 1); }
  }

  lemma {:induction false} Pow2Small()
    ensures Pow2(0) == 1 && Pow2(8) == 256
  {}

  lemma {:induction false} Pow2Shl(a: nat, b: nat)
    ensures Shl(Pow2(a), b) == Pow2(a + b)
  {
    if b > 0 { Pow2Shl(a, b - 1); }
  }

  lemma {:induction false} ShlAdd(x: nat, y: nat, n: nat)
    ensures Shl(x + y, n) == Shl(x, n) + Shl(y, n)
  {
    if n > 0 { ShlAdd(x, y, n - 1); }
  }

  lemma {:induction false} ShlMono(x: nat, y: nat, n: nat)
    requires x <= y
    ensures Shl(x, n) <= Shl(y, n)
    ensures x < y ==> Shl(x, n) + Pow2(n) <= Shl(y, n)
  {
    if n > 0 { ShlMono(x, y, n - 1); }
  }

  lemma {:induction false} ShlShl(x: nat, a: nat, b: nat)
    ensures Shl(Shl(x, a), b) == Shl(x, a + b)
  {
    if b > 0 { ShlShl(x, a, b - 1); }
  }

  lemma {:induction false} ShrShr(x: nat, a: nat, b: nat)
    ensures Shr(Shr(x, a), b) == Shr(x, a + b)
    decreases a
  {
    if a > 0 { ShrShr(x / 2, a - 1, b); }
  }

  lemma {:induction false} LowBound(x: nat, n: nat)
    ensures Low(x, n) < Pow2(n)
    decreases n
  {
    if n > 0 { LowBound(x / 2, n - 1); }
  }

  /** A number is its low part plus its shifted high part. */
  lemma {:induction false} Split(x: nat, n: nat)
    ensures x == Low(x, n) + Shl(Shr(x, n), n)
    decreases n
  {
    if n > 0 { Split(x / 2, n - 1); }
  }

  /** The low and high parts of a number given as `r + (q << n)`. */
  lemma {:induction false} Join(r: nat, q: nat, n: nat)
    requires r < Pow2(n)
    ensures Low(r + Shl(q, n), n) == r && Shr(r + Shl(q, n), n) == q
    decreases n
  {
    if n > 0 {
      Join(r / 2, q, n - 1);
      assert (r + Shl(q, n)) / 2 == r / 2 + Shl(q, n - 1);
    }
  }

  lemma {:induction false} LowId(x: nat, n: nat)
    requires x < Pow2(n)
    ensures Low(x, n) == x && Shr(x, n) == 0
  {
    ShlZero(n);
    Join(x, 0, n);
  }

  lemma {:induction false} ShlZero(n: nat)
    ensures Shl(0, n) == 0
  {
    if n > 0 { ShlZero(n - 1); }
  }

  lemma {:induction false} LowLow(x: nat, m: nat, n: nat)
    requires n <= m
    ensures Low(Low(x, m), n) == Low(x, n)
    decreases n
  {
    if n > 0 { LowLow(x / 2, m - 1, n - 1); }
  }

  lemma {:induction false} LowSplit(x: nat, a: nat, b: nat)
    ensures Low(x, a + b) == Low(x, a) + Shl(Low(Shr(x, a), b), a)
    decreases a
  {
    if a > 0 { LowSplit(x / 2, a - 1, b); }
  }

  lemma {:induction false} ShrBound(x: nat, a: nat, b: nat)
    requires x < Pow2(a + b)
    ensures Shr(x, a) < Pow2(b)
    decreases a
  {
    if a > 0 { ShrBound(x / 2, a - 1, b); }
  }

  /** Low and high parts of a shifted number. */
  lemma {:induction false} ShlParts(x: nat, n: nat)
    ensures Low(Shl(x, n), n) == 0 && Shr(Shl(x, n), n) == x
  {
    Join(0, x, n);
  }

  lemma {:induction false} ShlNine(x: nat)
    ensures Shl(x, 9) == 512 * x
  {
    assert Shl(x, 1) == 2 * Shl(x, 0);
    assert Shl(x, 3) == 2 * Shl(x, 2) && Shl(x, 2) == 2 * Shl(x, 1);
    assert Shl(x, 5) == 2 * Shl(x, 4) && Shl(x, 4) == 2 * Shl(x, 3);
    assert Shl(x, 7) == 2 * Shl(x, 6) && Shl(x, 6) == 2 * Shl(x, 5);
    assert Shl(x, 9) == 2 * Shl(x, 8) && Shl(x, 8) == 2 * Shl(x, 7);
  }

  /** Shifts by nine bits are the usual quotient and remainder. */
  lemma {:induction false} NineBits(x: nat)
    ensures Pow2(9) == 512 && Low(x, 9) == x % 512 && Shr(x, 9) == x / 512
  {
    assert Pow2(9) == 512;
    Split(x, 9);
    LowBound(x, 9);
    ShlNine(Shr(x, 9));
  }

  // ----- bit sequences ------------------------------------------------------------------------

  function BitVal(b: bool): (r: nat)
    ensures r < 2
  {
    if b then 1 else 0
  }

  /** The number denoted by a bit sequence, least significant bit first. */
  function Val(b: seq<bool>): (v: nat)
  {
    if b == [] then 0 else BitVal(b[0]) + 2 * Val(b[1..])
  }

  /** The low `n` bits of `v`, least significant first. */
  function LowBits(v: nat, n: nat): (b: seq<bool>)
    ensures |b| == n
    decreases n, v
  {
    if n == 0 then [] else [v % 2 == 1] + LowBits(v / 2, n - 1)
  }

  /** The low `n` bits of `v`, most significant first: the order in which Huffman codes are sent. */
  function HighFirst(v: nat, n: nat): (b: seq<bool>)
    ensures |b| == n
    decreases n, v
  {
    if n == 0 then [] else HighFirst(v / 2, n - 1) + [v % 2 == 1]
  }

  lemma {:induction false} ValBound(b: seq<bool>)
    ensures Val(b) < Pow2(|b|)
  {
    if b != [] { ValBound(b[1..]); }
  }

  lemma {:induction false} ValAppend(a: seq<bool>, b: seq<bool>)
    ensures Val(a + b) == Val(a) + Shl(Val(b), |a|)
  {
    if a == [] {
      assert a + b == b;
    } else {
      ValAppend(a[1..], b);
      assert (a + b)[1..] == a[1..] + b;
    }
  }

  /** Splitting a bit sequence is splitting its value. */
  lemma {:induction false} ValSplit(a: seq<bool>, b: seq<bool>)
    ensures Low(Val(a + b), |a|) == Val(a)
    ensures Shr(Val(a + b), |a|) == Val(b)
  {
    ValAppend(a, b);
    ValBound(a);
    Join(Val(a), Val(b), |a|);
  }

  lemma {:induction false} ValLowBits(v: nat, n: nat)
    ensures Val(LowBits(v, n)) == Low(v, n)
    decreases n
  {
    if n > 0 {
      ValLowBits(v / 2, n - 1);
      assert LowBits(v, n)[1..] == LowBits(v / 2, n - 1);
    }
  }

  lemma {:induction false} LowBitsVal(b: seq<bool>)
    ensures LowBits(Val(b), |b|) == b
  {
    if b != [] {
      LowBitsVal(b[1..]);
      assert Val(b) / 2 == Val(b[1..]);
    }
  }

  /** Two bit sequences of the same length with the same value are the same. */
  lemma {:induction false} ValInjective(a: seq<bool>, b: seq<bool>)
    requires |a| == |b| && Val(a) == Val(b)
    ensures a == b
  {
    LowBitsVal(a);
    LowBitsVal(b);
  }

  lemma {:induction false} LowBitsAt(v: nat, n: nat, i: nat)
    requires i < n
    ensures LowBits(v, n)[i] == (Shr(v, i) % 2 == 1)
    decreases n
  {
    if i > 0 { LowBitsAt(v / 2, n - 1, i - 1); }
  }

  /** Sending the most significant bit first, stated bit by bit. */
  lemma {:induction false} HighFirstAt(v: nat, n: nat, i: nat)
    requires i < n
    ensures HighFirst(v, n)[i] == (Shr(v, n - 1 - i) % 2 == 1)
    decreases n
  {
    if i < n - 1 { HighFirstAt(v / 2, n - 1, i); }
  }

  /** The leading bits of a most-significant-first reading belong to the high part of the number. */
  lemma {:induction false} HighFirstPrefix(v: nat, m: nat, n: nat)
    ensures HighFirst(v, m + n)[..m] == HighFirst(Shr(v, n), m)
    decreases n
  {
    if n > 0 { HighFirstPrefix(v / 2, m, n - 1); }
  }

  lemma {:induction false} HighFirstInjective(v: nat, w: nat, n: nat)
    requires v < Pow2(n) && w < Pow2(n)
    requires HighFirst(v, n) == HighFirst(w, n)
    ensures v == w
    decreases n
  {
    if n > 0 {
      var a, b := HighFirst(v, n), HighFirst(w, n);
      assert a[..n - 1] == HighFirst(v / 2, n - 1) && b[..n - 1] == HighFirst(w / 2, n - 1);
      HighFirstInjective(v / 2, w / 2, n - 1);
      assert a[n - 1] == (v % 2 == 1) && b[n - 1] == (w % 2 == 1);
    }
  }

  // ----- streams ------------------------------------------------------------------------------

  /** The bits of a byte sequence in DEFLATE order. */
  function BitsOf(data: seq<byte>): (b: seq<bool>)
    ensures |b| == 8 * |data|
  {
    if data == [] then [] else LowBits(data[0], 8) + BitsOf(data[1..])
  }

  /** `n` bits of the stream `s` from position `pos`, reading zero bits past its end. */
  function Take(s: seq<bool>, pos: nat, n: nat): (b: seq<bool>)
    ensures |b| == n
  {
    seq(n, i requires 0 <= i < n => pos + i < |s| && s[pos + i])
  }

  lemma {:induction false} TakeSplit(s: seq<bool>, pos: nat, m: nat, n: nat)
    ensures Take(s, pos, m + n) == Take(s, pos, m) + Take(s, pos + m, n)
  {}

  /** The bit sequence `b` stands in the stream `s` at position `pos`. */
  predicate At(s: seq<bool>, pos: nat, b: seq<bool>) {
    pos + |b| <= |s| && s[pos..pos + |b|] == b
  }

  lemma {:induction false} AtTake(s: seq<bool>, pos: nat, b: seq<bool>)
    requires At(s, pos, b)
    ensures Take(s, pos, |b|) == b
  {
    assert Take(s, pos, |b|) == s[pos..pos + |b|];
  }

  lemma {:induction false} AtSplit(s: seq<bool>, pos: nat, a: seq<bool>, b: seq<bool>)
    ensures At(s, pos, a + b) <==> At(s, pos, a) && At(s, pos + |a|, b)
  {
    if At(s, pos, a + b) {
      assert a == (a + b)[..|a|] && b == (a + b)[|a|..];
      assert s[pos..pos + |a|] == s[pos..pos + |a + b|][..|a|];
      assert s[pos + |a|..pos + |a| + |b|] == s[pos..pos + |a + b|][|a|..];
    }
    if At(s, pos, a) && At(s, pos + |a|, b) {
      assert s[pos..pos + |a + b|] == s[pos..pos + |a|] + s[pos + |a|..pos + |a| + |b|];
    }
  }

  lemma {:induction false} BitsOfAppend(a: seq<byte>, b: seq<byte>)
    ensures BitsOf(a + b) == BitsOf(a) + BitsOf(b)
  {
    if a == [] {
      assert a + b == b;
    } else {
      BitsOfAppend(a[1..], b);
      assert (a + b)[1..] == a[1..] + b;
      var h := LowBits(a[0], 8);
      assert h + (BitsOf(a[1..]) + BitsOf(b)) == (h + BitsOf(a[1..])) + BitsOf(b);
    }
  }

  lemma {:induction false} BitsOfOne(v: byte)
    ensures BitsOf([v]) == LowBits(v, 8)
  {
    assert BitsOf([v][1..]) == [];
  }

  /** The eight bits of the byte at index `k`. */
  lemma {:induction false} BitsOfByte(data: seq<byte>, k: nat)
    requires k < |data|
    ensures At(BitsOf(data), 8 * k, LowBits(data[k], 8))
  {
    var s := BitsOf(data);
    if k == 0 {
      assert s[..8] == LowBits(data[0], 8);
    } else {
      BitsOfByte(data[1..], k - 1);
      var t := BitsOf(data[1..]);
      assert s[8 * k..8 * k + 8] == t[8 * (k - 1)..8 * (k - 1) + 8];
    }
  }
}
