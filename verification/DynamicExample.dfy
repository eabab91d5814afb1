/** A stream with a dynamic block, byte by byte: thirteen bytes that stand for the one byte 97. */
module DynamicExample {
  import opened Bits
  import opened BitIO
  import opened Huffman
  import opened HuffmanTable
  import opened LZ77
  import opened Inflate
  import opened DeflateFormat
  import opened SpoiltStream
  import FixedCodes

  const EXAMPLE: seq<byte> := [5, 192, 129, 8, 0, 0, 0, 0, 32, 214, 253, 37, 78]

  // ----- numbers and bits within two bytes ------------------------------------------------------

  lemma {:induction false} LoadTwo(data: seq<byte>, k: nat)
    ensures LittleEndian(data, k, 2) == ByteAt(data, k) + 256 * ByteAt(data, k + 1)
  {
    LoadOne(data, k + 1);
    var x: nat := ByteAt(data, k + 1);
    assert Shl(x, 2) == 2 * Shl(x, 1) && Shl(x, 1) == 2 * Shl(x, 0);
    assert Shl(x, 4) == 2 * Shl(x, 3) && Shl(x, 3) == 2 * Shl(x, 2);
    assert Shl(x, 6) == 2 * Shl(x, 5) && Shl(x, 5) == 2 * Shl(x, 4);
    assert Shl(x, 8) == 2 * Shl(x, 7) && Shl(x, 7) == 2 * Shl(x, 6);
  }

  lemma {:induction false} NumTwo(data: seq<byte>, pos: nat, n: nat)
    requires n + pos % 8 <= 16
    ensures Num(data, pos, n) == Low(Shr(ByteAt(data, pos / 8) + 256 * ByteAt(data, pos / 8 + 1), pos % 8), n)
  {
    hide BitsOf, Take, Val, LittleEndian, ByteAt, Low, Shr;
    LoadTwo(data, pos / 8);
    LoadShift(data, pos, 2);
    TakePrefix(BitsOf(data), pos, 16 - pos % 8, n);
  }

  /** A number read from within the data stands there. */
  lemma {:induction false} NumStands(data: seq<byte>, pos: nat, n: nat, v: nat)
    requires pos + n <= 8 * |data| && Num(data, pos, n) == v
    ensures At(BitsOf(data), pos, LowBits(v, n))
  {
    hide BitsOf, Val, LowBits;
    LowBitsVal(Take(BitsOf(data), pos, n));
    assert Take(BitsOf(data), pos, n) == BitsOf(data)[pos..pos + n];
  }

  // ----- the code length code -------------------------------------------------------------------

  /** The lengths sent for the code length code, in the order in which they are sent. */
  function SentLength(i: nat): (v: nat) { if i == 2 then 1 else if i == 3 || i == 17 then 2 else 0 }

  /** Two bytes from byte k on, shifted down to bit m of the first, show h; the n lowest bits of that are r. */
  lemma {:induction false} NumIs(pos: nat, n: nat, k: nat, m: nat, x: nat, h: nat, r: nat)
    requires pos == 8 * k + m && m < 8 && n + m <= 16 && x == ByteAt(EXAMPLE, k) + 256 * ByteAt(EXAMPLE, k + 1)
    requires Shr(x, m) == h && Low(h, n) == r
    ensures Num(EXAMPLE, pos, n) == r
  {
    hide Num, Low, Shr, ByteAt;
    NumTwo(EXAMPLE, pos, n);
  }

  lemma {:induction false} FirstNums(i: nat)
    requires i < 9
    ensures Num(EXAMPLE, 17 + 3 * i, 3) == SentLength(i)
  {
    hide Num;
    if i == 0 { NumIs(17, 3, 2, 1, 2177, 1088, 0); } else if i == 1 { NumIs(20, 3, 2, 4, 2177, 136, 0); } else if i == 2 { NumIs(23, 3, 2, 7, 2177, 17, 1); }
    else if i == 3 { NumIs(26, 3, 3, 2, 8, 2, 2); } else if i == 4 { NumIs(29, 3, 3, 5, 8, 0, 0); } else if i == 5 { NumIs(32, 3, 4, 0, 0, 0, 0); }
    else if i == 6 { NumIs(35, 3, 4, 3, 0, 0, 0); } else if i == 7 { NumIs(38, 3, 4, 6, 0, 0, 0); } else { NumIs(41, 3, 5, 1, 0, 0, 0); }
  }

  lemma {:induction false} LastNums(i: nat)
    requires 9 <= i < 18
    ensures Num(EXAMPLE, 17 + 3 * i, 3) == SentLength(i)
  {
    hide Num;
    if i == 9 { NumIs(44, 3, 5, 4, 0, 0, 0); } else if i == 10 { NumIs(47, 3, 5, 7, 0, 0, 0); } else if i == 11 { NumIs(50, 3, 6, 2, 0, 0, 0); }
    else if i == 12 { NumIs(53, 3, 6, 5, 0, 0, 0); } else if i == 13 { NumIs(56, 3, 7, 0, 8192, 8192, 0); } else if i == 14 { NumIs(59, 3, 7, 3, 8192, 1024, 0); }
    else if i == 15 { NumIs(62, 3, 7, 6, 8192, 128, 0); } else if i == 16 { NumIs(65, 3, 8, 1, 54816, 27408, 0); } else { NumIs(68, 3, 8, 4, 54816, 3426, 2); }
  }

  /** The order of the code length code lengths: 16, 17, 18, 0, and then from 8 up and from 7 down in turn. */
  lemma {:induction false} ClclOrder(i: nat)
    requires i < 19
    ensures CLCL_ORDER[i] == if i < 3 then 16 + i else if i == 3 then 0 else if i % 2 == 0 then 6 + i / 2 else 9 - i / 2
  {}

  function CL(): (cl: seq<nat>)
    ensures |cl| == 19
  {
    [2] + ([2] + (Zeros(16) + [1]))
  }

  lemma {:induction false} ClclRead(n: nat)
    requires n <= 18
    ensures forall k :: 0 <= k < 19 ==>
              ReadClcl(EXAMPLE, 17, n)[k] == if k == 18 && n > 2 then 1 else if (k == 0 && n > 3) || (k == 1 && n > 17) then 2 else 0
    decreases n
  {
    hide Num, CLCL_ORDER, EXAMPLE;
    if n > 0 {
      ClclRead(n - 1);
      ClclOrder(n - 1);
      ClclInRange(n - 1);
      SmallNum(EXAMPLE, 17 + 3 * (n - 1), 3);
      if n - 1 < 9 { FirstNums(n - 1); } else { LastNums(n - 1); }
    }
  }

  lemma {:induction false} ClclIs()
    ensures ReadClcl(EXAMPLE, 17, 18) == CL()
  {
    hide ReadClcl, EXAMPLE;
    ClclRead(18);
  }

  lemma {:induction false} CLComplete()
    ensures Complete(CL()) && ValidLengths(CL())
  {
    hide Kraft, Pow2;
    Powers();
    KraftAppend(Zeros(16), [1]);
    KraftZeros(16);
    KraftOne(1);
    KraftMore(2, Zeros(16) + [1]);
    KraftMore(2, [2] + (Zeros(16) + [1]));
  }

  lemma {:induction false} CLCounts()
    ensures Count(CL(), 1) == 1 && Count(CL()[..18], 1) == 0 && Count(CL()[..0], 2) == 0 && Count(CL()[..1], 2) == 1
  {
    hide Count;
    var cl := CL();
    assert cl[..0] == [] && cl[..1] == [2] && cl == cl[..18] + [1];
    CountAbsent(cl[..18], 1);
    CountAbsent([], 2);
    CountTwo(cl[..18], [1], 1);
    CountOne(1, 1);
    CountOne(2, 2);
  }

  /** The codes: 0 for 18, 10 for 0 and 11 for 1. */
  lemma {:induction false} CLCodes()
    ensures CodeBits(CL(), 18) == LowBits(0, 1) && CodeBits(CL(), 0) == LowBits(1, 2) && CodeBits(CL(), 1) == LowBits(3, 2)
  {
    hide Count, HighFirst, LowBits;
    var cl := CL();
    CLCounts();
    assert cl[18] == 1 && cl[0] == 2 && cl[1] == 2;
    assert NextCode(cl, 2) == 2 * (NextCode(cl, 1) + Count(cl, 1)) == 2;
    assert Code(cl, 18) == 0 && Code(cl, 0) == 2 && Code(cl, 1) == 3;
    SmallOnes();
  }

  lemma {:induction false} SmallOnes()
    ensures HighFirst(0, 1) == LowBits(0, 1) && HighFirst(1, 1) == LowBits(1, 1) && HighFirst(2, 2) == LowBits(1, 2) && HighFirst(3, 2) == LowBits(3, 2)
  {}

  // ----- the code lengths -------------------------------------------------------------------------

  /** Codes of one bit each for the byte 97 and the end code. */
  function LL(): (ll: seq<nat>)
    ensures |ll| == 257
  {
    Zeros(97) + [1] + (Zeros(158) + [1])
  }

  lemma {:induction false} HeaderIs()
    ensures Num(EXAMPLE, 0, 1) == 1 && Num(EXAMPLE, 1, 2) == 2 && Num(EXAMPLE, 3, 5) == 0 && Num(EXAMPLE, 8, 5) == 0 && Num(EXAMPLE, 13, 4) == 14
  {
    hide Num;
    NumIs(0, 1, 0, 0, 49157, 49157, 1);
    NumIs(1, 2, 0, 1, 49157, 24578, 2);
    NumIs(3, 5, 0, 3, 49157, 6144, 0);
    NumIs(8, 5, 1, 0, 33216, 33216, 0);
    NumIs(13, 4, 1, 5, 33216, 1038, 14);
  }

  lemma {:induction false} RunNums()
    ensures Num(EXAMPLE, 72, 7) == 86 && Num(EXAMPLE, 82, 7) == 127 && Num(EXAMPLE, 90, 7) == 9
  {
    hide Num;
    NumIs(72, 7, 9, 0, 64982, 64982, 86);
    NumIs(82, 7, 10, 2, 9725, 2431, 127);
    NumIs(90, 7, 11, 2, 20005, 5001, 9);
  }

  lemma {:induction false} CodeNums()
    ensures Num(EXAMPLE, 71, 1) == 0 && Num(EXAMPLE, 79, 2) == 3 && Num(EXAMPLE, 81, 1) == 0 && Num(EXAMPLE, 89, 1) == 0
    ensures Num(EXAMPLE, 97, 2) == 3 && Num(EXAMPLE, 99, 2) == 1 && Num(EXAMPLE, 101, 1) == 0 && Num(EXAMPLE, 102, 1) == 1
  {
    hide Num;
    NumIs(71, 1, 8, 7, 54816, 428, 0);
    NumIs(79, 2, 9, 7, 64982, 507, 3);
    NumIs(81, 1, 10, 1, 9725, 4862, 0);
    NumIs(89, 1, 11, 1, 20005, 10002, 0);
    NumIs(97, 2, 12, 1, 78, 39, 3);
    NumIs(99, 2, 12, 3, 78, 9, 1);
    NumIs(101, 1, 12, 5, 78, 2, 0);
    NumIs(102, 1, 12, 6, 78, 1, 1);
  }

  lemma {:induction false} SymbolStands(lengths: seq<nat>, n: nat, pos: nat, len: nat, v: nat)
    requires Codable(lengths) && n < |lengths| && lengths[n] == len > 0 && CodeBits(lengths, n) == LowBits(v, len)
    requires pos + len <= 104 && Num(EXAMPLE, pos, len) == v
    ensures SymbolAt(lengths, EXAMPLE, pos) == Some(n)
  {
    hide BitsOf, CodeBits, LowBits, Num, Kraft;
    NumStands(EXAMPLE, pos, len, v);
    SymbolSent(lengths, n, EXAMPLE, pos);
  }

  lemma {:induction false} RunSymbols()
    ensures SymbolAt(CL(), EXAMPLE, 71) == Some(18) && SymbolAt(CL(), EXAMPLE, 79) == Some(1) && SymbolAt(CL(), EXAMPLE, 81) == Some(18)
    ensures SymbolAt(CL(), EXAMPLE, 89) == Some(18) && SymbolAt(CL(), EXAMPLE, 97) == Some(1) && SymbolAt(CL(), EXAMPLE, 99) == Some(0)
  {
    hide SymbolAt, CodeBits, LowBits, Num, Kraft;
    CLComplete();
    CLCodes();
    CodeNums();
    var cl := CL();
    assert cl[18] == 1 && cl[0] == 2 && cl[1] == 2;
    SymbolStands(cl, 18, 71, 1, 0);
    SymbolStands(cl, 1, 79, 2, 3);
    SymbolStands(cl, 18, 81, 1, 0);
    SymbolStands(cl, 18, 89, 1, 0);
    SymbolStands(cl, 1, 97, 2, 3);
    SymbolStands(cl, 0, 99, 2, 1);
  }

  predicate Small(acc: seq<nat>) { forall k :: 0 <= k < |acc| ==> acc[k] <= 15 }

  lemma {:induction false} ReadZeros(pos: nat, acc: seq<nat>, v: nat)
    requires SymbolAt(CL(), EXAMPLE, pos) == Some(18) && Num(EXAMPLE, pos + 1, 7) == v && pos + 8 <= 104 && |acc| + 11 + v <= 258 && Small(acc)
    ensures Small(acc + Zeros(11 + v)) && ReadLengths(EXAMPLE, pos, CL(), 258, acc) == ReadLengths(EXAMPLE, pos + 8, CL(), 258, acc + Zeros(11 + v))
  {
    hide SymbolAt, Num;
    assert CL()[18] == 1;
  }

  lemma {:induction false} ReadOne(pos: nat, acc: seq<nat>, v: nat)
    requires v <= 1 && SymbolAt(CL(), EXAMPLE, pos) == Some(v) && pos + 2 <= 104 && |acc| < 258 && Small(acc)
    ensures Small(acc + [v]) && ReadLengths(EXAMPLE, pos, CL(), 258, acc) == ReadLengths(EXAMPLE, pos + 2, CL(), 258, acc + [v])
  {
    hide SymbolAt, Num;
    assert CL()[0] == 2 && CL()[1] == 2;
  }

  lemma {:induction false} LengthsRead()
    ensures ReadLengths(EXAMPLE, 71, CL(), 258, []) == Ok((101, LL() + [0]))
  {
    hide SymbolAt, Num, ReadLengths, EXAMPLE;
    RunSymbols();
    RunNums();
    var a := [] + Zeros(97);
    var b := a + [1];
    var c := b + Zeros(138);
    var d := c + Zeros(20);
    var e := d + [1];
    ReadZeros(71, [], 86);
    ReadOne(79, a, 1);
    ReadZeros(81, b, 127);
    ReadZeros(89, c, 9);
    ReadOne(97, d, 1);
    ReadOne(99, e, 0);
    assert e == LL();
    LengthsDone(e + [0]);
  }

  lemma {:induction false} LengthsDone(acc: seq<nat>)
    requires |acc| == 258 && Small(acc)
    ensures ReadLengths(EXAMPLE, 101, CL(), 258, acc) == Ok((101, acc))
  {
    hide LengthSymbol;
  }

  // ----- the block --------------------------------------------------------------------------------

  lemma {:induction false} LLComplete()
    ensures Complete(LL()) && Codable(Pad(LL(), 288))
  {
    hide Kraft, Pow2;
    Powers();
    KraftAppend(Zeros(97), [1]);
    KraftAppend(Zeros(158), [1]);
    KraftAppend(Zeros(97) + [1], Zeros(158) + [1]);
    KraftZeros(97);
    KraftZeros(158);
    KraftOne(1);
    PadKraft(LL(), 288);
  }

  /** The code of the byte is 0, the end code is 1. */
  lemma {:induction false} LLCodes()
    ensures CodeBits(Pad(LL(), 288), 97) == LowBits(0, 1) && CodeBits(Pad(LL(), 288), 256) == LowBits(1, 1)
  {
    hide Count, HighFirst, LowBits;
    var ll := LL();
    assert ll[97] == 1 && ll[256] == 1;
    PadCode(ll, 288, 97);
    PadCode(ll, 288, 256);
    assert ll[..97] == Zeros(97) && ll[..256] == (Zeros(97) + [1]) + Zeros(158);
    CountAbsent(Zeros(97), 1);
    CountAbsent(Zeros(158), 1);
    CountOne(1, 1);
    CountTwo(Zeros(97), [1], 1);
    CountTwo(Zeros(97) + [1], Zeros(158), 1);
    assert Code(ll, 97) == 0 && Code(ll, 256) == 1;
    SmallOnes();
  }

  lemma {:induction false} NoDistances()
    ensures Pad([0], 32) == Zeros(32) && Present(Zeros(32)) == 0 && Kraft(Zeros(32)) == 0
  {
    assert Pad([0], 32) == [] + Zeros(32) == Zeros(32);
    PadPresent([], 32);
    KraftZeros(32);
  }

  lemma {:induction false} Split()
    ensures forall k :: 0 <= k < 258 ==> (LL() + [0])[k] <= 15
    ensures SplitLengths(101, 257, LL() + [0]) == Ok(Trees(101, Pad(LL(), 288), Zeros(32)))
  {
    hide Kraft, Present;
    LLComplete();
    NoDistances();
    PadKraft(LL(), 288);
    var lengths := LL() + [0];
    assert lengths[..257] == LL() && lengths[257..] == [0];
    assert Pad(LL(), 288)[256] == 1;
  }

  /** The trees of the block: one bit each for the byte 97 and the end code, and no distance. */
  lemma {:induction false} TreesAre()
    ensures DynamicTrees(EXAMPLE, 3) == Ok(Trees(101, Pad(LL(), 288), Zeros(32)))
  {
    hide Num, ReadClcl, ReadLengths, SplitLengths, Kraft, Present;
    HeaderIs();
    ClclIs();
    CLComplete();
    LengthsRead();
    Split();
  }

  /** The bytes hold one block, with a code of its own, in which a single bit stands for the byte 97. */
  lemma {:induction false} Example(rfc: bool, ignoreNlen: bool)
    ensures Inflated(EXAMPLE, rfc, ignoreNlen) == Ok([97])
  {
    hide BitsOf, At, Num, CodeBits, LowBits, Symbols, SymbolStep, DynamicTrees, Kraft;
    var ll, d := Pad(LL(), 288), Zeros(32);
    HeaderIs();
    TreesAre();
    LLComplete();
    LLCodes();
    NoDistances();
    CodeNums();
    NumStands(EXAMPLE, 101, 1, 0);
    NumStands(EXAMPLE, 102, 1, 1);
    assert ll[97] == 1 && ll[256] == 1;
    TokenSent(EXAMPLE, 101, ll, d, [], Literal(97), rfc);
    assert [] + [97 as byte] == [97];
    FixedCodes.MoreSymbols(EXAMPLE, 101, 102, ll, d, [], [97], rfc);
    EndSent(EXAMPLE, 102, ll, d, [97], rfc);
    SymbolsEnd(EXAMPLE, 102, ll, d, [97], State(103, [97]), rfc);
  }

  lemma {:induction false} SymbolsEnd(data: seq<byte>, pos: nat, ll: seq<nat>, d: seq<nat>, out: seq<byte>, st: State, rfc: bool)
    requires SymbolStep(data, pos, ll, d, out, rfc) == Done(Ok(st))
    ensures Symbols(data, pos, ll, d, out, rfc) == Ok(st)
  {
    hide SymbolStep;
  }
}
