/** Bits of a buffer, most significant first, and the padding of scanlines to whole bytes. */
module Bitmap {
  import opened Bits
  import opened Bitwise
  import opened BitIO
  import opened Buffers

  // ----- single bits --------------------------------------------------------------------------

  lemma {:induction false} BitOr(x: nat, y: nat, i: nat)
    ensures Bit(Or(x, y), i) == (Bit(x, i) || Bit(y, i))
    decreases i
  {
    if x == 0 {
      BitZero(i);
    } else {
      assert Or(x, y) / 2 == Or(x / 2, y / 2);
      if i > 0 { BitOr(x / 2, y / 2, i - 1); }
    }
  }

  lemma {:induction false} BitAnd(x: nat, y: nat, i: nat)
    ensures Bit(And(x, y), i) == (Bit(x, i) && Bit(y, i))
    decreases i
  {
    if x == 0 || y == 0 {
      BitZero(i);
    } else {
      assert And(x, y) / 2 == And(x / 2, y / 2);
      if i > 0 { BitAnd(x / 2, y / 2, i - 1); }
    }
  }

  /** 1 << m has bit m only; its complement has all the others. */
  lemma {:induction false} BitMask(m: nat, n: nat, i: nat)
    requires m < n && i < n
    ensures Pow2(m) < Pow2(n) && Bit(Pow2(m), i) == (i == m) && Bit(Pow2(n) - 1 - Pow2(m), i) == (i != m)
    decreases m
  {
    if m == 0 {
      assert Pow2(n) - 1 - Pow2(0) == 2 * (Pow2(n - 1) - 1);
      if i > 0 {
        BitZero(i - 1);
        BitOnes(n - 1, i - 1);
      }
    } else {
      assert (Pow2(n) - 1 - Pow2(m)) / 2 == Pow2(n - 1) - 1 - Pow2(m - 1) && (Pow2(n) - 1 - Pow2(m)) % 2 == 1;
      if i > 0 {
        BitMask(m - 1, n - 1, i - 1);
      } else {
        BitMask(m - 1, n - 1, i);
      }
    }
  }

  lemma {:induction false} BitOnes(n: nat, i: nat)
    requires i < n
    ensures Bit(Pow2(n) - 1, i)
    decreases n
  {
    assert (Pow2(n) - 1) / 2 == Pow2(n - 1) - 1 && (Pow2(n) - 1) % 2 == 1;
    if i > 0 { BitOnes(n - 1, i - 1); }
  }

  lemma {:induction false} OrBound(x: nat, y: nat, n: nat)
    requires x < Pow2(n) && y < Pow2(n)
    ensures Or(x, y) < Pow2(n)
    decreases n
  {
    if n > 0 && x > 0 { OrBound(x / 2, y / 2, n - 1); }
  }

  lemma {:induction false} OrByte(x: byte, m: nat)
    requires m < 8
    ensures Or(x, Pow2(m)) < 256
  {
    BitMask8(m);
    Pow2Small();
    OrBound(x, Pow2(m), 8);
  }

  /** A byte with its k-th bit from the top set or cleared. */
  function WithBit(b: byte, k: nat, bit: bool): (r: byte)
    requires k < 8
  {
    if bit then
      OrByte(b, 7 - k);
      Or(b, Pow2(7 - k))
    else
      BitMask8(7 - k);
      And(b, 255 - Pow2(7 - k))
  }

  lemma {:induction false} BitMask8(m: nat)
    requires m < 8
    ensures Pow2(m) < 256
  {
    Pow2Small();
    BitMask(m, 8, 0);
  }

  lemma {:induction false} WithBitIs(b: byte, k: nat, bit: bool, j: nat)
    requires k < 8 && j < 8
    ensures Bit(WithBit(b, k, bit), 7 - j) == if j == k then bit else Bit(b, 7 - j)
  {
    hide Bit, Or, And;
    Pow2Small();
    BitMask(7 - k, 8, 7 - j);
    if bit {
      BitOr(b, Pow2(7 - k), 7 - j);
    } else {
      BitAnd(b, 255 - Pow2(7 - k), 7 - j);
    }
  }

  // ----- the bits of a buffer -----------------------------------------------------------------

  function BitAt(data: seq<byte>, k: nat): (b: bool)
    requires k < 8 * |data|
  {
    Bit(data[k / 8], 7 - k % 8)
  }

  function MsbBits(data: seq<byte>): (s: seq<bool>)
    ensures |s| == 8 * |data| && forall k :: 0 <= k < |s| ==> s[k] == BitAt(data, k)
  {
    seq(8 * |data|, k requires 0 <= k < 8 * |data| => BitAt(data, k))
  }

  lemma {:induction false} MsbBitsSet(data: seq<byte>, p: nat, bit: bool)
    requires p < 8 * |data|
    ensures MsbBits(data[p / 8 := WithBit(data[p / 8], p % 8, bit)]) == MsbBits(data)[p := bit]
  {
    hide Bit, WithBit;
    var data' := data[p / 8 := WithBit(data[p / 8], p % 8, bit)];
    forall k | 0 <= k < 8 * |data| ensures BitAt(data', k) == MsbBits(data)[p := bit][k] {
      WithBitIs(data[p / 8], p % 8, bit, k % 8);
    }
  }

  /** Sets one bit of a buffer, whatever it was. */
  method SetBitOfReversedStream(out: array<byte>, p: nat, bit: bool)
    requires p < 8 * out.Length
    modifies out
    ensures MsbBits(out[..]) == old(MsbBits(out[..]))[p := bit]
  {
    hide WithBit, MsbBits, Bit;
    ghost var o := out[..];
    MsbBitsSet(o, p, bit);
    out[p / 8] := WithBit(out[p / 8], p % 8, bit);
    assert out[..] == o[p / 8 := WithBit(o[p / 8], p % 8, bit)];
  }

  // ----- padding ------------------------------------------------------------------------------

  function Line(bits: seq<bool>, s: nat, n: nat, y: nat, len: nat): (r: seq<bool>)
    requires s + Times(y, n) + len <= |bits|
    ensures |r| == len
  {
    bits[s + Times(y, n)..s + Times(y, n) + len]
  }

  /** The first ol bits of each of h lines of il bits. */
  function DropPadding(bits: seq<bool>, s: nat, ol: nat, il: nat, h: nat): (r: seq<bool>)
    requires ol <= il && s + Times(h, il) <= |bits|
    ensures |r| == Times(h, ol)
    decreases h
  {
    if h == 0 then [] else DropPadding(bits, s, ol, il, h - 1) + Line(bits, s, il, h - 1, ol)
  }

  function Unset(n: nat): (r: seq<bool>)
    ensures |r| == n
  {
    seq(n, _ => false)
  }

  /** h lines of il bits, each followed by zeros up to ol bits. */
  function PutPadding(bits: seq<bool>, s: nat, ol: nat, il: nat, h: nat): (r: seq<bool>)
    requires il <= ol && s + Times(h, il) <= |bits|
    ensures |r| == Times(h, ol)
    decreases h
  {
    if h == 0 then [] else PutPadding(bits, s, ol, il, h - 1) + (Line(bits, s, il, h - 1, il) + Unset(ol - il))
  }

  /** Dropping the padding gives back the lines. */
  lemma {:induction false} DropPutPadding(bits: seq<bool>, s: nat, ol: nat, il: nat, h: nat, padded: seq<bool>, t: nat)
    requires il <= ol && s + Times(h, il) <= |bits| && t + Times(h, ol) <= |padded|
    requires padded[t..t + Times(h, ol)] == PutPadding(bits, s, ol, il, h)
    ensures DropPadding(padded, t, il, ol, h) == bits[s..s + Times(h, il)]
    decreases h
  {
    hide Line, PutPadding, DropPadding;
    NothingDropped(padded, t, il, ol);
    if h > 0 {
      PaddedParts(bits, s, ol, il, h - 1, padded, t);
      DropPutPadding(bits, s, ol, il, h - 1, padded, t);
      MoreDropped(padded, t, il, ol, h - 1);
      LineIs(bits, s, il, h - 1);
      Consecutive(bits, s, s + Times(h - 1, il), s + Times(h - 1, il) + il);
    }
  }

  /** The lines before the last one, and the last one. */
  lemma {:induction false} PaddedParts(bits: seq<bool>, s: nat, ol: nat, il: nat, y: nat, padded: seq<bool>, t: nat)
    requires il <= ol && s + Times(y + 1, il) <= |bits| && t + Times(y + 1, ol) <= |padded|
    requires padded[t..t + Times(y + 1, ol)] == PutPadding(bits, s, ol, il, y + 1)
    ensures padded[t..t + Times(y, ol)] == PutPadding(bits, s, ol, il, y)
    ensures Line(padded, t, ol, y, il) == Line(bits, s, il, y, il)
  {
    hide Unset, PutPadding;
    MorePadding(bits, s, ol, il, y);
    var n, front, line := Times(y, ol), PutPadding(bits, s, ol, il, y), Line(bits, s, il, y, il);
    var p := padded[t..t + (n + ol)];
    assert p[0..n] == front && p[n..n + il] == line;
    SubPiece(padded, t, n + ol, 0, n);
    SubPiece(padded, t, n + ol, n, n + il);
  }

  lemma {:induction false} NothingDropped(bits: seq<bool>, s: nat, ol: nat, il: nat)
    requires ol <= il && s <= |bits|
    ensures DropPadding(bits, s, ol, il, 0) == []
  {}

  lemma {:induction false} MoreDropped(bits: seq<bool>, s: nat, ol: nat, il: nat, y: nat)
    requires ol <= il && s + Times(y + 1, il) <= |bits|
    ensures DropPadding(bits, s, ol, il, y + 1) == DropPadding(bits, s, ol, il, y) + Line(bits, s, il, y, ol)
  {}

  lemma {:induction false} Consecutive(bits: seq<bool>, a: nat, b: nat, c: nat)
    requires a <= b <= c <= |bits|
    ensures bits[a..b] + bits[b..c] == bits[a..c]
  {}

  lemma {:induction false} SubPiece<T>(s: seq<T>, t: nat, n: nat, i: nat, j: nat)
    requires t + n <= |s| && i <= j <= n
    ensures s[t..t + n][i..j] == s[t + i..t + j]
  {
    var x, y := s[t..t + n][i..j], s[t + i..t + j];
    assert |x| == |y| && forall k :: 0 <= k < |x| ==> x[k] == s[t..t + n][i + k] == s[t + i + k] == y[k];
  }

  /** Lines on their way from bit s of one buffer to bit r of another, or of the same one. */
  datatype BitMove = BitMove(o0: seq<bool>, i0: seq<bool>, r: nat, s: nat, ol: nat, il: nat, h: nat, same: bool)

  predicate ValidBitMove(m: BitMove) {
    && m.r + Times(m.h, m.ol) <= |m.o0| && m.s + Times(m.h, m.il) <= |m.i0| && m.ol <= m.il
    && (m.same ==> m.r <= m.s && m.o0 == m.i0)
  }

  lemma {:induction false} BitMoveBounds(m: BitMove, y: nat)
    requires ValidBitMove(m) && y <= m.h
    ensures m.r + Times(y, m.ol) <= |m.o0| && m.s + Times(y, m.il) <= |m.i0| && Times(y, m.ol) <= Times(y, m.il)
    ensures y < m.h ==> m.r + Times(y, m.ol) + m.ol <= |m.o0| && m.s + Times(y, m.il) + m.il <= |m.i0|
  {
    TimesMonotone(y, m.h, m.ol);
    TimesMonotone(y, m.h, m.il);
    TimesLess(y, m.ol, m.il);
    if y < m.h {
      TimesNext(y, m.h, m.ol);
      TimesNext(y, m.h, m.il);
    }
  }

  /** After y lines and x bits of the next: what is still to be read is intact. */
  predicate BitMoved(m: BitMove, o: seq<bool>, i: seq<bool>, y: nat, x: nat) {
    && ValidBitMove(m) && y <= m.h && (y == m.h ==> x == 0) && x <= m.ol && |i| == |m.i0|
    && m.r + Times(y, m.ol) + x <= |m.o0| && m.s + Times(y, m.il) + x <= |m.i0|
    && o == Replaced(m.o0, m.r, DropPadding(m.i0, m.s, m.ol, m.il, y) + Line(m.i0, m.s, m.il, y, x))
    && (forall k :: m.s + Times(y, m.il) + x <= k < |i| ==> i[k] == m.i0[k])
    && (m.same ==> o == i)
  }

  lemma {:induction false} BitMovedNone(m: BitMove)
    requires ValidBitMove(m)
    ensures BitMoved(m, m.o0, m.i0, 0, 0)
  {
    assert DropPadding(m.i0, m.s, m.ol, m.il, 0) + Line(m.i0, m.s, m.il, 0, 0) == [];
    ReplacedNothing(m.o0, m.r);
  }

  lemma {:induction false} BitMovedMore(m: BitMove, o: seq<bool>, i: seq<bool>, y: nat, x: nat)
    requires BitMoved(m, o, i, y, x) && y < m.h && x < m.ol
    ensures m.r + Times(y, m.ol) + x < |o| && m.s + Times(y, m.il) + x < |i|
    ensures var o' := o[m.r + Times(y, m.ol) + x := i[m.s + Times(y, m.il) + x]];
            BitMoved(m, o', if m.same then o' else i, y, x + 1)
  {
    hide DropPadding, Replaced;
    BitMoveBounds(m, y);
    var v, at := i[m.s + Times(y, m.il) + x], m.r + Times(y, m.ol) + x;
    var u := DropPadding(m.i0, m.s, m.ol, m.il, y) + Line(m.i0, m.s, m.il, y, x);
    assert Line(m.i0, m.s, m.il, y, x + 1) == Line(m.i0, m.s, m.il, y, x) + [v];
    assert u + [v] == DropPadding(m.i0, m.s, m.ol, m.il, y) + Line(m.i0, m.s, m.il, y, x + 1);
    ReplacedTwice(m.o0, m.r, u, [v]);
    ReplacedOne(o, at, v);
  }

  lemma {:induction false} ReplacedOne<T>(o: seq<T>, at: nat, v: T)
    requires at < |o|
    ensures Replaced(o, at, [v]) == o[at := v]
  {}

  lemma {:induction false} BitMovedLine(m: BitMove, o: seq<bool>, i: seq<bool>, y: nat)
    requires BitMoved(m, o, i, y, m.ol) && y < m.h
    ensures BitMoved(m, o, i, y + 1, 0)
  {
    hide Replaced;
    BitMoveBounds(m, y);
    BitMoveBounds(m, y + 1);
    hide Line;
    assert DropPadding(m.i0, m.s, m.ol, m.il, y + 1) + Line(m.i0, m.s, m.il, y + 1, 0)
        == DropPadding(m.i0, m.s, m.ol, m.il, y) + Line(m.i0, m.s, m.il, y, m.ol);
  }

  lemma {:induction false} BitMovedAll(m: BitMove, o: seq<bool>, i: seq<bool>)
    requires BitMoved(m, o, i, m.h, 0)
    ensures o == Replaced(m.o0, m.r, DropPadding(m.i0, m.s, m.ol, m.il, m.h))
  {
    assert DropPadding(m.i0, m.s, m.ol, m.il, m.h) + [] == DropPadding(m.i0, m.s, m.ol, m.il, m.h);
  }

  /** Copies h lines without their padding, from byte s of inp to byte r of out. The buffers may be the
      same, the input then being at or behind the output. */
  method RemovePaddingBits(out: array<byte>, r: nat, inp: array<byte>, s: nat, olinebits: nat, ilinebits: nat, h: nat)
    requires 8 * r + Times(h, olinebits) <= 8 * out.Length && 8 * s + Times(h, ilinebits) <= 8 * inp.Length
    requires olinebits <= ilinebits && (out == inp ==> r <= s)
    modifies out
    ensures MsbBits(out[..]) == Replaced(old(MsbBits(out[..])), 8 * r, DropPadding(old(MsbBits(inp[..])), 8 * s, olinebits, ilinebits, h))
  {
    hide BitMoved, MsbBits, DropPadding, Replaced;
    ghost var m := BitMove(MsbBits(out[..]), MsbBits(inp[..]), 8 * r, 8 * s, olinebits, ilinebits, h, out == inp);
    BitMovedNone(m);
    var ibp, obp := 8 * s, 8 * r;
    var y := 0;
    while y < h
      invariant 0 <= y <= h && ibp == 8 * s + Times(y, ilinebits) && obp == 8 * r + Times(y, olinebits)
      invariant BitMoved(m, MsbBits(out[..]), MsbBits(inp[..]), y, 0)
    {
      var x := 0;
      while x < olinebits
        invariant 0 <= x <= olinebits && ibp == 8 * s + Times(y, ilinebits) + x && obp == 8 * r + Times(y, olinebits) + x
        invariant BitMoved(m, MsbBits(out[..]), MsbBits(inp[..]), y, x)
      {
        BitMovedMore(m, MsbBits(out[..]), MsbBits(inp[..]), y, x);
        var bit := BitAt(inp[..], ibp);
        ghost var i := MsbBits(inp[..]);
        SetBitOfReversedStream(out, obp, bit);
        assert out != inp ==> MsbBits(inp[..]) == i;
        ibp, obp, x := ibp + 1, obp + 1, x + 1;
      }
      BitMovedLine(m, MsbBits(out[..]), MsbBits(inp[..]), y);
      ibp := ibp + (ilinebits - olinebits);
      y := y + 1;
    }
    BitMovedAll(m, MsbBits(out[..]), MsbBits(inp[..]));
  }

  /** Copies h lines from byte s of inp to another buffer, filling each up with zeros. */
  method AddPaddingBits(out: array<byte>, inp: array<byte>, s: nat, olinebits: nat, ilinebits: nat, h: nat)
    requires Times(h, olinebits) <= 8 * out.Length && 8 * s + Times(h, ilinebits) <= 8 * inp.Length
    requires ilinebits <= olinebits && out != inp
    modifies out
    ensures MsbBits(out[..]) == Replaced(old(MsbBits(out[..])), 0, PutPadding(MsbBits(inp[..]), 8 * s, olinebits, ilinebits, h))
  {
    hide MsbBits, PutPadding, Replaced, Line, Unset;
    ghost var o0, i0 := MsbBits(out[..]), MsbBits(inp[..]);
    var ibp, obp := 8 * s, 0;
    var y := 0;
    ReplacedNothing(o0, 0);
    NoPadding(i0, 8 * s, olinebits, ilinebits);
    while y != h
      invariant 0 <= y <= h && ibp == 8 * s + Times(y, ilinebits) <= |i0| && obp == Times(y, olinebits) <= |o0|
      invariant MsbBits(out[..]) == Replaced(o0, 0, PutPadding(i0, 8 * s, olinebits, ilinebits, y))
    {
      TimesNext(y, h, ilinebits);
      TimesNext(y, h, olinebits);
      ghost var line := Line(i0, 8 * s, ilinebits, y, ilinebits) + Unset(olinebits - ilinebits);
      AddLine(out, obp, inp, ibp, olinebits, ilinebits);
      LineIs(i0, 8 * s, ilinebits, y);
      MorePadding(i0, 8 * s, olinebits, ilinebits, y);
      ReplacedTwice(o0, 0, PutPadding(i0, 8 * s, olinebits, ilinebits, y), line);
      ibp, obp, y := ibp + ilinebits, obp + olinebits, y + 1;
    }
  }

  lemma {:induction false} LineIs(i: seq<bool>, s: nat, n: nat, y: nat)
    requires s + Times(y, n) + n <= |i|
    ensures Line(i, s, n, y, n) == i[s + Times(y, n)..s + Times(y, n) + n]
  {}

  lemma {:induction false} NoPadding(i: seq<bool>, s: nat, ol: nat, il: nat)
    requires il <= ol && s <= |i|
    ensures PutPadding(i, s, ol, il, 0) == []
  {}

  lemma {:induction false} MorePadding(i: seq<bool>, s: nat, ol: nat, il: nat, y: nat)
    requires il <= ol && s + Times(y + 1, il) <= |i| && s + Times(y, il) + il <= |i|
    ensures PutPadding(i, s, ol, il, y + 1) == PutPadding(i, s, ol, il, y) + (Line(i, s, il, y, il) + Unset(ol - il))
  {}

  /** One line and its padding. */
  method AddLine(out: array<byte>, obp: nat, inp: array<byte>, ibp: nat, olinebits: nat, ilinebits: nat)
    requires obp + olinebits <= 8 * out.Length && ibp + ilinebits <= 8 * inp.Length && ilinebits <= olinebits && out != inp
    modifies out
    ensures MsbBits(out[..]) == Replaced(old(MsbBits(out[..])), obp, MsbBits(inp[..])[ibp..ibp + ilinebits] + Unset(olinebits - ilinebits))
  {
    hide Overwritten;
    ghost var o0, i0 := MsbBits(out[..]), MsbBits(inp[..]);
    ghost var res := i0[ibp..ibp + ilinebits] + Unset(olinebits - ilinebits);
    NothingOverwritten(o0, obp, res);
    var x := 0;
    while x < ilinebits
      invariant 0 <= x <= ilinebits && Overwritten(MsbBits(out[..]), o0, obp, res, x)
    {
      OverwrittenMore(MsbBits(out[..]), o0, obp, res, x);
      var bit := BitAt(inp[..], ibp + x);
      SetBitOfReversedStream(out, obp + x, bit);
      x := x + 1;
    }
    x := 0;
    while x != olinebits - ilinebits
      invariant 0 <= x <= olinebits - ilinebits && Overwritten(MsbBits(out[..]), o0, obp, res, ilinebits + x)
    {
      OverwrittenMore(MsbBits(out[..]), o0, obp, res, ilinebits + x);
      SetBitOfReversedStream(out, obp + ilinebits + x, false);
      x := x + 1;
    }
    OverwrittenAll(MsbBits(out[..]), o0, obp, res);
  }
}
