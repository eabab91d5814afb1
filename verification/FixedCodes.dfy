/** The codes of fixed blocks as RFC 1951, section 3.2.6 lists them, and a stream that is written with them. */
module FixedCodes {
  import opened Bits
  import opened Huffman
  import opened LZ77
  import opened Inflate
  import opened DeflateFormat

  /** How many of the symbols below n lie in first..last. */
  function Among(n: nat, first: nat, last: nat): (c: nat)
    requires first <= last
  {
    if n <= first then 0 else if n <= last then n - first else last + 1 - first
  }

  lemma {:induction false} FixedLengthAt(s: nat)
    requires s < 288
    ensures FixedLL()[s] == if s <= 143 then 8 else if s <= 255 then 9 else if s <= 279 then 7 else 8
  {}

  lemma {:induction false} CountBelow(n: nat, len: nat)
    requires n <= 288
    ensures Count(FixedLL()[..n], len)
         == if len == 7 then Among(n, 256, 279) else if len == 8 then Among(n, 0, 143) + Among(n, 280, 287)
            else if len == 9 then Among(n, 144, 255) else 0
    decreases n
  {
    hide FixedLL;
    if n > 0 {
      var l := FixedLL()[..n];
      assert l[..n - 1] == FixedLL()[..n - 1];
      FixedLengthAt(n - 1);
      CountBelow(n - 1, len);
    }
  }

  lemma {:induction false} CountAll(len: nat)
    ensures Count(FixedLL(), len) == if len == 7 then 24 else if len == 8 then 152 else if len == 9 then 112 else 0
  {
    hide FixedLL, Count;
    assert FixedLL()[..288] == FixedLL();
    CountBelow(288, len);
  }

  lemma {:induction false} NoShortCodes(lengths: seq<nat>, len: nat)
    requires forall l: nat :: l < len ==> Count(lengths, l) == 0
    ensures NextCode(lengths, len) == 0
    decreases len
  {
    if len > 1 { NoShortCodes(lengths, len - 1); }
  }

  lemma {:induction false} FirstCodes()
    ensures NextCode(FixedLL(), 7) == 0 && NextCode(FixedLL(), 8) == 0x30 && NextCode(FixedLL(), 9) == 0x190
  {
    hide FixedLL, Count;
    forall l: nat | l < 7 ensures Count(FixedLL(), l) == 0 { CountAll(l); }
    NoShortCodes(FixedLL(), 7);
    CountAll(7);
    CountAll(8);
  }

  /** The literal/length codes: symbols 0-143 have 8 bits from 00110000 on, 144-255 nine bits from 110010000 on, 256-279 seven
      bits from 0000000 on and 280-287 eight bits from 11000000 on. */
  lemma {:induction false} FixedCodeIs(s: nat)
    requires s < 288
    ensures s <= 143 ==> FixedLL()[s] == 8 && Code(FixedLL(), s) == 0x30 + s
    ensures 144 <= s <= 255 ==> FixedLL()[s] == 9 && Code(FixedLL(), s) == 0x190 + (s - 144)
    ensures 256 <= s <= 279 ==> FixedLL()[s] == 7 && Code(FixedLL(), s) == s - 256
    ensures 280 <= s ==> FixedLL()[s] == 8 && Code(FixedLL(), s) == 0xc0 + (s - 280)
  {
    hide FixedLL, Count, NextCode;
    FixedLengthAt(s);
    CountBelow(s, FixedLL()[s]);
    FirstCodes();
  }

  lemma {:induction false} CountDistances(n: nat, len: nat)
    requires n <= 32
    ensures Count(FixedD()[..n], len) == if len == 5 then n else 0
    decreases n
  {
    if n > 0 {
      assert FixedD()[..n][..n - 1] == FixedD()[..n - 1];
      CountDistances(n - 1, len);
    }
  }

  /** The distance codes are the five bits of the symbol. */
  lemma {:induction false} FixedDistanceIs(s: nat)
    requires s < 32
    ensures FixedD()[s] == 5 && Code(FixedD(), s) == s
  {
    hide Count;
    assert FixedD()[..32] == FixedD();
    forall l: nat | l < 5 ensures Count(FixedD(), l) == 0 { CountDistances(32, l); }
    NoShortCodes(FixedD(), 5);
    CountDistances(s, 5);
  }

  // ----- streams, byte by byte ----------------------------------------------------------------

  /** Bits that begin within a byte and end within the next one. */
  lemma {:induction false} Across(s: seq<bool>, pos: nat, a: seq<bool>, b: seq<bool>, m: nat, n: nat)
    requires At(s, pos, a) && At(s, pos + |a|, b) && m <= |a| && n <= |b|
    ensures At(s, pos + m, a[m..] + b[..n])
  {
    var c := a[m..] + b[..n];
    assert s[pos + m..pos + m + |c|] == s[pos..pos + |a|][m..] + s[pos + |a|..pos + |a| + |b|][..n];
  }

  lemma {:induction false} LiteralRead(data: seq<byte>, pos: nat, b: byte, out: seq<byte>, rfc: bool)
    requires b <= 143 && At(BitsOf(data), pos, HighFirst(0x30 + b, 8))
    ensures Symbols(data, pos, FixedLL(), FixedD(), out, rfc) == Symbols(data, pos + 8, FixedLL(), FixedD(), out + [b], rfc)
  {
    hide BitsOf, At, HighFirst, FixedLL, FixedD, Code, Count, Kraft;
    FixedCodeIs(b);
    FixedCodable();
    TokenSent(data, pos, FixedLL(), FixedD(), out, Literal(b), rfc);
  }

  lemma {:induction false} FixedCodable()
    ensures Codable(FixedLL()) && Codable(FixedD()) && |FixedLL()| == 288 && |FixedD()| == 32
  {
    FixedComplete();
  }

  lemma {:induction false} EndRead(data: seq<byte>, pos: nat, out: seq<byte>, rfc: bool)
    requires At(BitsOf(data), pos, HighFirst(0, 7))
    ensures Symbols(data, pos, FixedLL(), FixedD(), out, rfc) == Ok(State(pos + 7, out))
  {
    hide BitsOf, At, HighFirst, FixedLL, FixedD, Code, Count, Kraft;
    FixedCodeIs(256);
    FixedCodable();
    EndSent(data, pos, FixedLL(), FixedD(), out, rfc);
  }

  /** A final block with the fixed codes. */
  lemma {:induction false} FixedRead(data: seq<byte>, rfc: bool, ignoreNlen: bool)
    requires At(BitsOf(data), 0, [true, true, false]) && |data| < 1000
    ensures Inflated(data, rfc, ignoreNlen)
         == match Symbols(data, 3, FixedLL(), FixedD(), [], rfc) case Err(e) => Err(e) case Ok(st) => Ok(st.out)
  {
    hide BitsOf, Symbols, FixedLL, FixedD;
    var s := BitsOf(data);
    assert s[0..3] == [true, true, false];
    assert Take(s, 0, 1) == [true] && Take(s, 1, 2) == [true, false];
    assert Val([true]) == 1 && Val([true, false]) == 1;
    assert |data| > 0;
  }

  /** The code c of n bits stands m bits into byte k; v and w are that byte and the next one. */
  lemma {:induction false} CodeAcross(data: seq<byte>, k: nat, m: nat, v: byte, w: byte, c: seq<bool>)
    requires k + 1 < |data| && data[k] == v && data[k + 1] == w && m <= 8 <= m + |c| <= 16
    requires LowBits(v, 8)[m..] + LowBits(w, 8)[..m + |c| - 8] == c
    ensures At(BitsOf(data), 8 * k + m, c)
  {
    hide BitsOf, At, LowBits;
    BitsOfByte(data, k);
    BitsOfByte(data, k + 1);
    Across(BitsOf(data), 8 * k, LowBits(v, 8), LowBits(w, 8), m, m + |c| - 8);
  }

  lemma {:induction false} HeaderRead(data: seq<byte>, v: byte)
    requires data != [] && data[0] == v && LowBits(v, 8)[..3] == [true, true, false]
    ensures At(BitsOf(data), 0, [true, true, false])
  {
    hide BitsOf, At, LowBits;
    BitsOfByte(data, 0);
    assert LowBits(v, 8)[..3] + LowBits(v, 8)[3..] == LowBits(v, 8);
    AtSplit(BitsOf(data), 0, LowBits(v, 8)[..3], LowBits(v, 8)[3..]);
  }

  /** Binary digit i, below the eighth. */
  predicate Digit(x: nat, i: nat) {
    (if i == 0 then x else if i == 1 then x / 2 else if i == 2 then x / 4 else if i == 3 then x / 8 else if i == 4 then x / 16
     else if i == 5 then x / 32 else if i == 6 then x / 64 else x / 128) % 2 == 1
  }

  lemma {:induction false} DigitStep(x: nat, i: nat)
    requires 0 < i < 8
    ensures Digit(x, i) == Digit(x / 2, i - 1)
  {}

  lemma {:induction false} DigitIs(x: nat, i: nat)
    requires i < 8
    ensures Digit(x, i) == (Shr(x, i) % 2 == 1)
    decreases i
  {
    if i > 0 {
      DigitStep(x, i);
      DigitIs(x / 2, i - 1);
    }
  }

  /** Eight bits, the highest first, of which five begin in v and three are in w. */
  predicate Spells(v: byte, w: byte, c: byte)
  {
    && Digit(v, 3) == Digit(c, 7) && Digit(v, 4) == Digit(c, 6) && Digit(v, 5) == Digit(c, 5) && Digit(v, 6) == Digit(c, 4)
    && Digit(v, 7) == Digit(c, 3) && Digit(w, 0) == Digit(c, 2) && Digit(w, 1) == Digit(c, 1) && Digit(w, 2) == Digit(c, 0)
  }

  lemma {:induction false} Spelled(v: byte, w: byte, c: byte)
    requires Spells(v, w, c)
    ensures LowBits(v, 8)[3..] + LowBits(w, 8)[..3] == HighFirst(c, 8)
  {
    hide LowBits, HighFirst, Digit, Shr;
    var b, h := LowBits(v, 8)[3..] + LowBits(w, 8)[..3], HighFirst(c, 8);
    forall i: nat | i < 8 ensures b[i] == h[i] {
      HighFirstAt(c, 8, i);
      DigitIs(c, 7 - i);
      if i < 5 {
        LowBitsAt(v, 8, 3 + i);
        DigitIs(v, 3 + i);
      } else {
        LowBitsAt(w, 8, i - 5);
        DigitIs(w, i - 5);
      }
    }
  }

  /** The bits of a byte, and those of a number of at most seven bits, one by one. */
  lemma {:induction false} Octet(v: byte)
    ensures LowBits(v, 8) == [Digit(v, 0), Digit(v, 1), Digit(v, 2), Digit(v, 3), Digit(v, 4), Digit(v, 5), Digit(v, 6), Digit(v, 7)]
  {
    hide LowBits, Shr, Digit;
    forall i: nat | i < 8 ensures LowBits(v, 8)[i] == Digit(v, i) {
      LowBitsAt(v, 8, i);
      DigitIs(v, i);
    }
  }

  lemma {:induction false} OneByteBits()
    ensures LowBits(75, 8)[..3] == [true, true, false] && Spells(75, 4, 0x91)
    ensures LowBits(4, 8)[3..] + LowBits(0, 8)[..2] == HighFirst(0, 7)
  {
    hide LowBits, HighFirst;
    Octet(75);
    Octet(4);
    Octet(0);
    EndBits();
  }

  lemma {:induction false} EndBits()
    ensures HighFirst(0, 7) == [false, false, false, false, false, false, false]
  {}

  /** "a", whatever follows the block */
  lemma {:induction false} OneByteThen(data: seq<byte>, rfc: bool, ignoreNlen: bool)
    requires 3 <= |data| < 1000 && data[0] == 75 && data[1] == 4 && data[2] == 0
    ensures Inflated(data, rfc, ignoreNlen) == Ok([97])
  {
    hide BitsOf, At, Symbols, FixedLL, FixedD, LowBits, HighFirst, Inflated;
    OneByteBits();
    Spelled(75, 4, 0x91);
    HeaderRead(data, 75);
    FixedRead(data, rfc, ignoreNlen);
    CodeAcross(data, 0, 3, 75, 4, HighFirst(0x91, 8));
    LiteralRead(data, 3, 97, [], rfc);
    CodeAcross(data, 1, 3, 4, 0, HighFirst(0, 7));
    EndRead(data, 11, [97], rfc);
    assert [] + [97 as byte] == [97];
  }

  lemma {:induction false} OneByte(rfc: bool, ignoreNlen: bool)
    ensures Inflated([75, 4, 0], rfc, ignoreNlen) == Ok([97])
  {
    hide Inflated;
    OneByteThen([75, 4, 0], rfc, ignoreNlen);
  }

  // ----- with a copy --------------------------------------------------------------------------

  /** "abcdef" four times: seven literals, a copy of 17 bytes from 6 bytes back, and the end code. */
  const EXAMPLE: seq<byte> := [75, 76, 74, 78, 73, 77, 75, 196, 32, 1]
  const MEANING: seq<byte> := [97, 98, 99, 100, 101, 102, 97, 98, 99, 100, 101, 102, 97, 98, 99, 100, 101, 102, 97, 98, 99, 100, 101, 102]

  lemma {:induction false} ExampleSpells()
    ensures Spells(75, 76, 0x30 + 97) && Spells(76, 74, 0x30 + 98) && Spells(74, 78, 0x30 + 99) && Spells(78, 73, 0x30 + 100)
    ensures Spells(73, 77, 0x30 + 101) && Spells(77, 75, 0x30 + 102) && Spells(75, 196, 0x30 + 97)
  {}

  lemma {:induction false} Slice(s: seq<bool>, pos: nat, b: seq<bool>, i: nat, j: nat)
    requires At(s, pos, b) && i <= j <= |b|
    ensures At(s, pos + i, b[i..j])
  {
    assert s[pos..pos + |b|] == b;
    forall k | 0 <= k < j - i ensures s[pos + i..pos + j][k] == b[i..j][k] { assert b[i + k] == s[pos + (i + k)]; }
  }

  lemma {:induction false} CodesOfCopy()
    ensures LengthCode(17) == 11 && DistanceCode(6) == 4
  {
    hide Largest;
    BasesIncrease();
    LargestIs(LENGTHBASE, 17, 28, 11);
    LargestIs(DISTANCEBASE, 6, 29, 4);
  }

  /** The copy: length code 268 and an extra bit 0, distance code 4 and an extra bit 1. */
  lemma {:induction false} CopyCodesAre()
    ensures Fits(FixedLL(), FixedD(), Copy(17, 6)) && Near(FixedD(), Copy(17, 6))
    ensures CopyBits(FixedLL(), FixedD(), 17, 6) == HighFirst(12, 7) + LowBits(0, 1) + (HighFirst(4, 5) + LowBits(1, 1))
  {
    hide FixedLL, FixedD, Code, HighFirst, LowBits, Largest, LengthCode, DistanceCode;
    CodesOfCopy();
    FixedCodeIs(268);
    FixedDistanceIs(4);
    FixedCodable();
  }

  lemma {:induction false} CopyOctets()
    ensures LowBits(196, 8) == [false, false, true, false, false, false, true, true]
    ensures LowBits(32, 8) == [false, false, false, false, false, true, false, false]
    ensures LowBits(1, 8) == [true, false, false, false, false, false, false, false]
  {
    hide LowBits;
    Octet(196);
    Octet(32);
    Octet(1);
  }

  lemma {:induction false} CopyBitsAre()
    ensures HighFirst(12, 7) + LowBits(0, 1) + (HighFirst(4, 5) + LowBits(1, 1))
         == (LowBits(196, 8) + (LowBits(32, 8) + LowBits(1, 8)))[3..17]
    ensures LowBits(1, 8)[1..] == HighFirst(0, 7)
  {
    hide LowBits, HighFirst;
    EndBits();
    CopyOctets();
    SmallCodes();
    var a, b, c := LowBits(196, 8), LowBits(32, 8), LowBits(1, 8);
    assert (a + (b + c))[3..17] == a[3..] + b + [c[0]];
    assert a[3..] + b == HighFirst(12, 7) + LowBits(0, 1) + HighFirst(4, 5);
  }

  lemma {:induction false} SmallCodes()
    ensures HighFirst(12, 7) == [false, false, false, true, true, false, false]
    ensures HighFirst(4, 5) == [false, false, true, false, false] && LowBits(0, 1) == [false] && LowBits(1, 1) == [true]
  {}

  lemma {:induction false} CopyRead(out: seq<byte>, rfc: bool)
    requires |out| >= 6
    ensures Symbols(EXAMPLE, 59, FixedLL(), FixedD(), out, rfc) == Ok(State(80, CopyBytes(out, 6, 17)))
  {
    hide BitsOf, At, Symbols, SymbolStep, FixedLL, FixedD, LowBits, HighFirst, CopyBits, CopyBytes;
    var s := BitsOf(EXAMPLE);
    var a, b, c := LowBits(196, 8), LowBits(32, 8), LowBits(1, 8);
    BitsOfByte(EXAMPLE, 7);
    BitsOfByte(EXAMPLE, 8);
    BitsOfByte(EXAMPLE, 9);
    AtSplit(s, 64, b, c);
    AtSplit(s, 56, a, b + c);
    Slice(s, 56, a + (b + c), 3, 17);
    Slice(s, 72, c, 1, 8);
    CopyCodesAre();
    CopyBitsAre();
    FixedCodable();
    TokenSent(EXAMPLE, 59, FixedLL(), FixedD(), out, Copy(17, 6), rfc);
    assert |CopyBits(FixedLL(), FixedD(), 17, 6)| == 14;
    assert c[1..8] == c[1..];
    EndRead(EXAMPLE, 73, CopyBytes(out, 6, 17), rfc);
    MoreSymbols(EXAMPLE, 59, 73, FixedLL(), FixedD(), out, CopyBytes(out, 6, 17), rfc);
  }

  lemma {:induction false} MoreSymbols(data: seq<byte>, pos: nat, p: nat, ll: seq<nat>, d: seq<nat>, out: seq<byte>, o: seq<byte>, rfc: bool)
    requires SymbolStep(data, pos, ll, d, out, rfc) == More(p, o)
    ensures Symbols(data, pos, ll, d, out, rfc) == Symbols(data, p, ll, d, o, rfc)
  {
    hide SymbolStep;
  }

  /** Byte k of the example is read as a literal. */
  lemma {:induction false} ExampleLiteral(k: nat, rfc: bool)
    requires k < 7
    ensures Symbols(EXAMPLE, 3 + 8 * k, FixedLL(), FixedD(), MEANING[..k], rfc)
         == Symbols(EXAMPLE, 11 + 8 * k, FixedLL(), FixedD(), MEANING[..k + 1], rfc)
  {
    hide BitsOf, At, Symbols, FixedLL, FixedD, LowBits, HighFirst, Spells;
    ExampleSpells();
    var v, w, b := EXAMPLE[k], EXAMPLE[k + 1], MEANING[k];
    assert Spells(v, w, 0x30 + b) && b <= 143;
    Spelled(v, w, 0x30 + b);
    CodeAcross(EXAMPLE, k, 3, v, w, HighFirst(0x30 + b, 8));
    LiteralRead(EXAMPLE, 3 + 8 * k, b, MEANING[..k], rfc);
    assert MEANING[..k] + [b] == MEANING[..k + 1];
  }

  /** "abcdefabcdefabcdefabcdef" */
  lemma {:induction false} Example(rfc: bool, ignoreNlen: bool)
    ensures Inflated(EXAMPLE, rfc, ignoreNlen) == Ok(MEANING)
  {
    hide BitsOf, At, Symbols, FixedLL, FixedD, LowBits, HighFirst, Inflated, CopyBytes;
    assert LowBits(75, 8)[..3] == [true, true, false] by { OneByteBits(); }
    HeaderRead(EXAMPLE, 75);
    FixedRead(EXAMPLE, rfc, ignoreNlen);
    ExampleLiteral(0, rfc);
    ExampleLiteral(1, rfc);
    ExampleLiteral(2, rfc);
    ExampleLiteral(3, rfc);
    ExampleLiteral(4, rfc);
    ExampleLiteral(5, rfc);
    ExampleLiteral(6, rfc);
    CopyRead(MEANING[..7], rfc);
    CopyRepeats(MEANING, 7, 6, 17);
    assert MEANING[..24] == MEANING && MEANING[..0] == [];
  }
}
