/** A valid stream that the reader refuses, because its 32-bit refill misplaces a byte. */
module SpoiltStream {
  import opened Bits
  import opened BitIO
  import opened Huffman
  import opened HuffmanTable
  import opened LZ77
  import RunLength
  import opened Inflate
  import opened Refill
  import opened DeflateFormat
  import opened Deflate

  // ----- bytes of bits ------------------------------------------------------------------------

  /** Bits packed into bytes, the first bit lowest, the last byte filled up with zeros. */
  function BytesOf(bits: seq<bool>): (b: seq<byte>)
    decreases |bits|
  {
    if |bits| == 0 then []
    else
      var n := if |bits| < 8 then |bits| else 8;
      SmallVal(bits[..n]);
      [Val(bits[..n])] + BytesOf(bits[n..])
  }

  lemma {:induction false} SmallVal(b: seq<bool>)
    requires |b| <= 8
    ensures Val(b) < 256
  {
    ValBound(b);
    Pow2Mono(|b|, 8);
    Pow2Small();
  }

  lemma {:induction false} ByteBits(b: seq<bool>)
    requires |b| <= 8
    ensures LowBits(Val(b), 8)[..|b|] == b
  {
    hide LowBits, Val;
    SmallVal(b);
    LowBitsVal(b);
    PrefixBits(Val(b), |b|, 8);
  }

  lemma {:induction false} PrefixBits(v: nat, m: nat, n: nat)
    requires m <= n
    ensures LowBits(v, n)[..m] == LowBits(v, m)
    decreases m
  {
    if m > 0 { PrefixBits(v / 2, m - 1, n - 1); }
  }

  /** The bytes hold the bits. */
  lemma {:induction false} BytesHold(bits: seq<bool>)
    ensures |bits| <= 8 * |BytesOf(bits)| < |bits| + 8 && BitsOf(BytesOf(bits))[..|bits|] == bits
    decreases |bits|
  {
    hide LowBits, Val;
    if |bits| > 0 {
      var n := if |bits| < 8 then |bits| else 8;
      var rest := BytesOf(bits[n..]);
      BytesHold(bits[n..]);
      ByteBits(bits[..n]);
      assert BytesOf(bits)[1..] == rest;
      var h := LowBits(Val(bits[..n]), 8);
      assert BitsOf(BytesOf(bits)) == h + BitsOf(rest);
      if n == 8 {
        assert h[..8] == h;
        assert (h + BitsOf(rest))[..|bits|] == h + BitsOf(rest)[..|bits| - 8];
        assert bits[..8] + bits[8..] == bits;
      } else {
        assert bits[..n] == bits;
      }
    }
  }

  // ----- the block ----------------------------------------------------------------------------

  function Zeros(n: nat): (z: seq<nat>)
    ensures |z| == n
  {
    seq(n, _ => 0)
  }

  /** The lengths 1, 2, ..., n. */
  function Ramp(n: nat): (r: seq<nat>)
    ensures |r| == n
  {
    if n == 0 then [] else Ramp(n - 1) + [n]
  }

  /** Codes for the byte 0 and the end (two bits) and for copies of three bytes (one bit). */
  function SpoiltLL(): (ll: seq<nat>)
    ensures |ll| == 258
  {
    [2] + Zeros(255) + [2, 1]
  }

  /** A complete code in which distances from 2049 on have 15 bits. */
  function SpoiltD(): (d: seq<nat>)
    ensures |d| == 24
  {
    Ramp(14) + Zeros(8) + [15, 15]
  }

  function SpoiltCL(): (cl: seq<nat>)
    ensures |cl| == 19
  {
    [0] + seq(13, _ => 4) + [5, 4, 0, 4, 5]
  }

  function RampRuns(n: nat): (r: seq<RunLength.Run>)
    ensures |r| == n
  {
    if n == 0 then [] else RampRuns(n - 1) + [RunLength.Single(n)]
  }

  function SpoiltRuns(): (runs: seq<RunLength.Run>)
  {
    FirstRuns() + RampRuns(14) + LastRuns()
  }

  /** A dynamic block with a single copy, of three bytes from 2049 bytes back. */
  function SpoiltBlock(): (b: Block)
  {
    Dynamic([Copy(3, 2049)], SpoiltLL(), SpoiltD(), SpoiltCL(), 19, SpoiltRuns())
  }

  // ----- the block is valid -------------------------------------------------------------------

  lemma {:induction false} KraftOne(l: nat)
    requires l <= MAX_BITS
    ensures Kraft([l]) == if l == 0 then 0 else Pow2(MAX_BITS - l)
  {
    var s: seq<nat> := [l];
    assert s[..|s| - 1] == [] && Space([], MAX_BITS + 1) == 0;
  }

  lemma {:induction false} KraftNone()
    ensures Kraft([]) == 0
  {}

  lemma {:induction false} KraftRamp(n: nat)
    requires n <= 14
    ensures Kraft(Ramp(n)) + Pow2(MAX_BITS - n) == FULL
    decreases n
  {
    hide Kraft;
    FullIsPow2();
    if n == 0 {
      KraftNone();
    } else {
      KraftRamp(n - 1);
      KraftAppend(Ramp(n - 1), [n]);
      KraftOne(n);
      assert Pow2(MAX_BITS - (n - 1)) == 2 * Pow2(MAX_BITS - n);
    }
  }

  /** The Kraft sum of a few lengths, one by one. */
  lemma {:induction false} KraftMore(l: nat, rest: seq<nat>)
    requires l <= MAX_BITS
    ensures Kraft([l] + rest) == (if l == 0 then 0 else Pow2(MAX_BITS - l)) + Kraft(rest)
  {
    hide Kraft;
    KraftAppend([l], rest);
    KraftOne(l);
  }

  lemma {:induction false} Powers()
    ensures Pow2(0) == 1 && Pow2(1) == 2 && Pow2(10) == 1024 && Pow2(11) == 2048 && Pow2(13) == 8192 && Pow2(14) == 16384
  {
    Pow2Small();
    assert Pow2(10) == 4 * Pow2(8) && Pow2(11) == 2 * Pow2(10) && Pow2(13) == 4 * Pow2(11) && Pow2(14) == 2 * Pow2(13);
  }

  lemma {:induction false} LLComplete()
    ensures Complete(SpoiltLL())
  {
    hide Kraft, Pow2;
    Powers();
    KraftOne(2);
    KraftOne(1);
    KraftAppend([2], Zeros(255));
    KraftZeros(255);
    KraftMore(2, [1]);
    assert [2] + [1] == [2, 1];
    KraftAppend([2] + Zeros(255), [2, 1]);
  }

  lemma {:induction false} DComplete()
    ensures Complete(SpoiltD())
  {
    hide Kraft, Pow2, Ramp;
    Powers();
    KraftRamp(14);
    KraftAppend(Ramp(14), Zeros(8));
    KraftZeros(8);
    KraftOne(15);
    KraftMore(15, [15]);
    assert [15] + [15] == [15, 15];
    KraftAppend(Ramp(14) + Zeros(8), [15, 15]);
  }

  lemma {:induction false} CLComplete()
    ensures Complete(SpoiltCL())
  {
    hide Kraft, Pow2, Shl;
    Powers();
    var fours: seq<nat> := seq(13, _ => 4);
    KraftOne(0);
    KraftEqual(13, 4);
    Thirteen();
    KraftAppend([0], fours);
    KraftOne(5);
    KraftMore(4, [5]);
    KraftMore(0, [4, 5]);
    KraftMore(4, [0, 4, 5]);
    KraftMore(5, [4, 0, 4, 5]);
    assert [4] + [5] == [4, 5] && [0] + [4, 5] == [0, 4, 5] && [4] + [0, 4, 5] == [4, 0, 4, 5] && [5] + [4, 0, 4, 5] == [5, 4, 0, 4, 5];
    KraftAppend([0] + fours, [5, 4, 0, 4, 5]);
  }

  lemma {:induction false} Thirteen()
    ensures Shl(13, 11) == 26624
  {
    assert Shl(13, 4) == 208;
    assert Shl(13, 8) == 3328;
  }

  // ----- its runs -----------------------------------------------------------------------------

  lemma {:induction false} UnpackTwo(acc: seq<nat>, x: seq<RunLength.Run>, y: seq<RunLength.Run>)
    ensures RunLength.UnpackAll(acc, x + y) == RunLength.UnpackAll(RunLength.UnpackAll(acc, x), y)
    ensures RunLength.ValidRuns(acc, x + y) <==> RunLength.ValidRuns(acc, x) && RunLength.ValidRuns(RunLength.UnpackAll(acc, x), y)
    decreases |x|
  {
    hide RunLength.Unpack, RunLength.ValidRun;
    if x == [] {
      assert x + y == y;
    } else {
      assert (x + y)[1..] == x[1..] + y;
      UnpackTwo(RunLength.Unpack(acc, x[0]), x[1..], y);
    }
  }

  lemma {:induction false} UnpackOne(acc: seq<nat>, r: RunLength.Run)
    ensures RunLength.UnpackAll(acc, [r]) == RunLength.Unpack(acc, r)
    ensures RunLength.ValidRuns(acc, [r]) <==> RunLength.ValidRun(r, |acc|)
  {
    hide RunLength.Unpack, RunLength.ValidRun;
    assert [r][1..] == [];
  }

  /** A run more in front. */
  lemma {:induction false} UnpackFirst(acc: seq<nat>, r: RunLength.Run, rest: seq<RunLength.Run>)
    ensures RunLength.UnpackAll(acc, [r] + rest) == RunLength.UnpackAll(RunLength.Unpack(acc, r), rest)
    ensures RunLength.ValidRuns(acc, [r] + rest) <==> RunLength.ValidRun(r, |acc|) && RunLength.ValidRuns(RunLength.Unpack(acc, r), rest)
  {
    hide RunLength.Unpack, RunLength.ValidRun;
    assert ([r] + rest)[1..] == rest;
  }

  lemma {:induction false} UnpackRamp(acc: seq<nat>, n: nat)
    requires n <= 14
    ensures RunLength.UnpackAll(acc, RampRuns(n)) == acc + Ramp(n) && RunLength.ValidRuns(acc, RampRuns(n))
    decreases n
  {
    hide RunLength.UnpackAll, RunLength.ValidRuns;
    if n == 0 {
      UnpackNone(acc);
      assert acc + Ramp(0) == acc;
    } else {
      var r := RunLength.Single(n);
      UnpackRamp(acc, n - 1);
      UnpackTwo(acc, RampRuns(n - 1), [r]);
      UnpackOne(acc + Ramp(n - 1), r);
    }
  }

  lemma {:induction false} UnpackNone(acc: seq<nat>)
    ensures RunLength.UnpackAll(acc, []) == acc && RunLength.ValidRuns(acc, [])
  {}

  lemma {:induction false} RunsUnpack()
    ensures RunLength.ValidRuns([], SpoiltRuns()) && RunLength.UnpackAll([], SpoiltRuns()) == SpoiltLL() + SpoiltD()
  {
    hide RunLength.UnpackAll, RunLength.ValidRuns, RampRuns, Ramp;
    var x, y, z := FirstRuns(), RampRuns(14), LastRuns();
    FirstUnpack();
    UnpackRamp(SpoiltLL(), 14);
    LastUnpack(SpoiltLL() + Ramp(14));
    UnpackTwo([], x, y);
    UnpackTwo([], x + y, z);
  }

  function FirstRuns(): (runs: seq<RunLength.Run>)
  {
    [RunLength.Single(2), RunLength.Zeros(138), RunLength.Zeros(117), RunLength.Single(2), RunLength.Single(1)]
  }

  function LastRuns(): (runs: seq<RunLength.Run>)
  {
    [RunLength.Zeros(8), RunLength.Single(15), RunLength.Single(15)]
  }

  lemma {:induction false} FirstUnpack()
    ensures RunLength.ValidRuns([], FirstRuns()) && RunLength.UnpackAll([], FirstRuns()) == SpoiltLL()
  {
    hide RunLength.UnpackAll, RunLength.ValidRuns;
    var two, one, z, y := RunLength.Single(2), RunLength.Single(1), RunLength.Zeros(138), RunLength.Zeros(117);
    var a: seq<nat> := [2];
    var b := a + Zeros(138);
    var c := b + Zeros(117);
    assert c == [2] + Zeros(255);
    UnpackFirst([], two, [z, y, two, one]);
    assert [two] + [z, y, two, one] == FirstRuns() && [] + a == a;
    UnpackFirst(a, z, [y, two, one]);
    assert [z] + [y, two, one] == [z, y, two, one];
    UnpackFirst(b, y, [two, one]);
    assert [y] + [two, one] == [y, two, one];
    UnpackFirst(c, two, [one]);
    assert [two] + [one] == [two, one];
    UnpackOne(c + [2], one);
    assert c + [2] + [1] == SpoiltLL();
  }

  lemma {:induction false} LastUnpack(acc: seq<nat>)
    ensures RunLength.ValidRuns(acc, LastRuns()) && RunLength.UnpackAll(acc, LastRuns()) == acc + Zeros(8) + [15, 15]
  {
    hide RunLength.UnpackAll, RunLength.ValidRuns;
    var z, f := RunLength.Zeros(8), RunLength.Single(15);
    UnpackFirst(acc, z, [f, f]);
    assert [z] + [f, f] == LastRuns();
    UnpackFirst(acc + Zeros(8), f, [f]);
    assert [f] + [f] == [f, f];
    UnpackOne(acc + Zeros(8) + [15], f);
  }

  // ----- its bits -----------------------------------------------------------------------------

  /** The code length symbols in use have codes. */
  lemma {:induction false} RunsHaveCodes()
    ensures RunsFit(SpoiltCL(), SpoiltRuns())
  {
    hide RampRuns;
    var cl := SpoiltCL();
    assert cl[14] == 5 && cl[15] == 4 && cl[17] == 4 && cl[18] == 5 && forall k :: 1 <= k <= 13 ==> cl[k] == 4;
    forall i | 0 <= i < 14 ensures RampRuns(14)[i] == RunLength.Single(i + 1) { RampRun(14, i); }
    forall i | 0 <= i < |SpoiltRuns()| ensures RunFits(cl, SpoiltRuns()[i]) {
      if 5 <= i < 19 { assert SpoiltRuns()[i] == RampRuns(14)[i - 5]; }
    }
  }

  lemma {:induction false} RampRun(n: nat, i: nat)
    requires i < n
    ensures RampRuns(n)[i] == RunLength.Single(i + 1)
    decreases n
  {
    if i < n - 1 { RampRun(n - 1, i); }
  }

  lemma {:induction false} SpoiltHeader()
    ensures ValidHeader(SpoiltBlock())
  {
    hide Kraft, RunLength.UnpackAll, RunLength.ValidRuns, RunsFit, SpoiltRuns, Ramp, CLCL_ORDER;
    LLComplete();
    DComplete();
    CLComplete();
    CompleteIsUsable(SpoiltD());
    RunsHaveCodes();
    RunsUnpack();
    forall i | 0 <= i < 14 ensures Ramp(14)[i] == i + 1 { RampAt(14, i); }
  }

  lemma {:induction false} RampAt(n: nat, i: nat)
    requires i < n
    ensures Ramp(n)[i] == i + 1
    decreases n
  {
    if i < n - 1 { RampAt(n - 1, i); }
  }

  lemma {:induction false} RunsBitsTwo(cl: seq<nat>, x: seq<RunLength.Run>, y: seq<RunLength.Run>)
    requires RunsFit(cl, x + y)
    ensures RunsFit(cl, x) && RunsFit(cl, y) && |RunsBits(cl, x + y)| == |RunsBits(cl, x)| + |RunsBits(cl, y)|
    decreases |x|
  {
    hide RunBits, RunFits;
    forall i | 0 <= i < |x| ensures RunFits(cl, x[i]) { assert x[i] == (x + y)[i]; }
    forall i | 0 <= i < |y| ensures RunFits(cl, y[i]) { assert y[i] == (x + y)[|x| + i]; }
    if x == [] {
      assert x + y == y;
    } else {
      assert (x + y)[1..] == x[1..] + y;
      RunsBitsTwo(cl, x[1..], y);
    }
  }

  lemma {:induction false} RunsBitsOne(cl: seq<nat>, r: RunLength.Run)
    requires RunFits(cl, r)
    ensures |RunsBits(cl, [r])| == cl[RunCode(r).0] + RunCode(r).2
  {
    hide CodeBits, LowBits;
    assert [r][1..] == [];
    RunsBitsNone(cl);
  }

  lemma {:induction false} RunsBitsNone(cl: seq<nat>)
    ensures RunsBits(cl, []) == []
  {}

  lemma {:induction false} RunsBitsRamp(cl: seq<nat>, n: nat)
    requires n <= 14 && cl == SpoiltCL() && RunsFit(cl, RampRuns(n))
    ensures |RunsBits(cl, RampRuns(n))| == 4 * n + if n == 14 then 1 else 0
    decreases n
  {
    hide RunsBits;
    if n == 0 {
      RunsBitsNone(cl);
    } else {
      RunsBitsTwo(cl, RampRuns(n - 1), [RunLength.Single(n)]);
      assert RunFits(cl, RampRuns(n)[n - 1]);
      RunsBitsRamp(cl, n - 1);
      RunsBitsOne(cl, RunLength.Single(n));
      assert cl[n] == if n == 14 then 5 else 4;
    }
  }

  /** A few runs one by one. */
  lemma {:induction false} RunsBitsFirst(cl: seq<nat>, r: RunLength.Run, rest: seq<RunLength.Run>)
    requires RunsFit(cl, [r] + rest)
    ensures RunFits(cl, r) && RunsFit(cl, rest) && |RunsBits(cl, [r] + rest)| == cl[RunCode(r).0] + RunCode(r).2 + |RunsBits(cl, rest)|
  {
    hide RunsBits;
    assert ([r] + rest)[0] == r;
    RunsBitsTwo(cl, [r], rest);
    RunsBitsOne(cl, r);
  }

  lemma {:induction false} RunsLength()
    ensures RunsFit(SpoiltCL(), SpoiltRuns()) && |RunsBits(SpoiltCL(), SpoiltRuns())| == 108
  {
    hide RunsBits, RampRuns, RunsFit;
    var cl := SpoiltCL();
    var x, y, z := FirstRuns(), RampRuns(14), LastRuns();
    RunsHaveCodes();
    RunsBitsTwo(cl, x + y, z);
    RunsBitsTwo(cl, x, y);
    RunsBitsRamp(cl, 14);
    assert |RunsBits(cl, x)| == 36 by { FirstLength(); }
    assert |RunsBits(cl, z)| == 15 by { LastLength(); }
  }

  lemma {:induction false} FirstLength()
    requires RunsFit(SpoiltCL(), FirstRuns())
    ensures |RunsBits(SpoiltCL(), FirstRuns())| == 36
  {
    hide RunsBits, RunsFit;
    var cl := SpoiltCL();
    var two, one, z, y := RunLength.Single(2), RunLength.Single(1), RunLength.Zeros(138), RunLength.Zeros(117);
    assert [two] + [z, y, two, one] == FirstRuns() && [z] + [y, two, one] == [z, y, two, one];
    assert [y] + [two, one] == [y, two, one] && [two] + [one] == [two, one] && [one] + [] == [one];
    RunsBitsFirst(cl, two, [z, y, two, one]);
    RunsBitsFirst(cl, z, [y, two, one]);
    RunsBitsFirst(cl, y, [two, one]);
    RunsBitsFirst(cl, two, [one]);
    RunsBitsFirst(cl, one, []);
    RunsBitsNone(cl);
    assert cl[1] == 4 && cl[2] == 4 && cl[18] == 5;
  }

  lemma {:induction false} LastLength()
    requires RunsFit(SpoiltCL(), LastRuns())
    ensures |RunsBits(SpoiltCL(), LastRuns())| == 15
  {
    hide RunsBits, RunsFit;
    var cl := SpoiltCL();
    var z, f := RunLength.Zeros(8), RunLength.Single(15);
    assert [z] + [f, f] == LastRuns() && [f] + [f] == [f, f] && [f] + [] == [f];
    RunsBitsFirst(cl, z, [f, f]);
    RunsBitsFirst(cl, f, [f]);
    RunsBitsFirst(cl, f, []);
    RunsBitsNone(cl);
    assert cl[15] == 4 && cl[17] == 4;
  }

  // ----- the stream ---------------------------------------------------------------------------

  lemma {:induction false} CopyCode()
    ensures LengthCode(3) == 0 && LengthExtra(0) == 0 && LengthBase(0) == 3
    ensures DistanceCode(2049) == 22 && DistanceExtra(22) == 10 && DistanceBase(22) == 2049
  {
    BasesIncrease();
    LargestIs(LENGTHBASE, 3, 28, 0);
    LargestIs(DISTANCEBASE, 2049, 29, 22);
  }

  lemma {:induction false} SpoiltValid(out: seq<byte>)
    ensures ValidHeader(SpoiltBlock())
    ensures Sendable(BlockLL(SpoiltBlock()), BlockD(SpoiltBlock()), SpoiltBlock().tokens)
    ensures |out| >= 2049 ==> ValidBlock(SpoiltBlock(), out) && ValidBlocks(out, [SpoiltBlock()])
  {
    hide LengthCode, DistanceCode, ValidHeader, Ramp, SpoiltRuns, SpoiltCL;
    SpoiltHeader();
    CopyCode();
    var b := SpoiltBlock();
    assert BlockLL(b)[257] == SpoiltLL()[257] == 1 && BlockD(b)[22] == SpoiltD()[22] == 15;
    assert [b][1..] == [] && b.tokens[1..] == [];
  }

  /** A stored block with the data, then the dynamic block. */
  function SpoiltStream(data: seq<byte>): (s: seq<byte>)
    requires |data| == 2049
  {
    SpoiltValid(data);
    StoredHeader(false, 2049) + data + BytesOf(BlockBits(SpoiltBlock(), true))
  }

  const START: nat := 8 * 2054

  /** Where the parts of the dynamic block stand. */
  lemma {:induction false} Places(data: seq<byte>, s: seq<byte>)
    requires |data| == 2049 && s == SpoiltStream(data)
    ensures ValidHeader(SpoiltBlock()) && Sendable(BlockLL(SpoiltBlock()), BlockD(SpoiltBlock()), SpoiltBlock().tokens)
    ensures At(BitsOf(s), START, BlockBits(SpoiltBlock(), true)) && |s| > 2080
    ensures At(BitsOf(s), START, LowBits(1, 1)) && At(BitsOf(s), START + 1, LowBits(2, 2))
    ensures At(BitsOf(s), START + 3, HeaderBits(SpoiltBlock())) && |HeaderBits(SpoiltBlock())| == 179
    ensures At(BitsOf(s), START + 182, CodedBits(SpoiltBlock()))
  {
    hide BitsOf, BlockLL, BlockD, ValidHeader, Sendable, LowBits, CodedBits, ClclBits, RunsBits, SpoiltRuns, SpoiltCL, RunsFit, BytesOf, At;
    SpoiltValid(data);
    var b := SpoiltBlock();
    var bits := BlockBits(b, true);
    StreamBitsAt(data, s, bits);
    assert |CodedBits(b)| == 28 by { CodedParts(); }
    RunsLength();
    HeaderParts(b);
    var x, y := LowBits(1, 1), LowBits(2, 2);
    AtSplit(BitsOf(s), START, x + y, BodyBits(b));
    AtSplit(BitsOf(s), START, x, y);
    AtSplit(BitsOf(s), START + 3, HeaderBits(b), CodedBits(b));
  }

  /** The copy and the end code. */
  lemma {:induction false} CodedParts()
    ensures ValidHeader(SpoiltBlock()) && Sendable(BlockLL(SpoiltBlock()), BlockD(SpoiltBlock()), SpoiltBlock().tokens)
    ensures var ll, d := BlockLL(SpoiltBlock()), BlockD(SpoiltBlock());
            && |ll| == 288 && |d| == 32 && ll[256] == 2 && ll[257] == 1 && d[22] == 15
            && CodedBits(SpoiltBlock()) == CodeBits(ll, 257) + (CodeBits(d, 22) + LowBits(0, 10)) + CodeBits(ll, 256)
            && |CodedBits(SpoiltBlock())| == 28
  {
    hide LengthCode, DistanceCode, LengthExtra, LengthBase, DistanceExtra, DistanceBase, ValidHeader, Ramp, SpoiltRuns, SpoiltCL, CodeBits, LowBits;
    SpoiltValid([]);
    CopyCode();
    var b := SpoiltBlock();
    var ll, d := BlockLL(b), BlockD(b);
    assert ll[256] == SpoiltLL()[256] == 2 && ll[257] == SpoiltLL()[257] == 1 && d[22] == SpoiltD()[22] == 15;
    var t := Copy(3, 2049);
    assert b.tokens == [t] && b.tokens[1..] == [];
    assert TokensBits(ll, d, []) == [];
    assert LowBits(0, 0) == [];
    assert CopyBits(ll, d, 3, 2049) == CodeBits(ll, 257) + [] + (CodeBits(d, 22) + LowBits(0, 10));
    assert TokensBits(ll, d, [t]) == CopyBits(ll, d, 3, 2049) + [];
  }

  lemma {:induction false} HeaderParts(b: Block)
    requires ValidHeader(b) && b.Dynamic?
    ensures |HeaderBits(b)| == 14 + 3 * b.hclen + |RunsBits(b.cl, b.runs)|
  {
    hide HeaderNumbers, ClclBits, RunsBits;
  }

  lemma {:induction false} StreamBitsAt(data: seq<byte>, s: seq<byte>, bits: seq<bool>)
    requires |data| == 2049 && s == StoredHeader(false, 2049) + data + BytesOf(bits)
    ensures At(BitsOf(s), START, bits) && 8 * |s| >= START + |bits|
  {
    hide BitsOf, BytesOf;
    var pre := StoredHeader(false, 2049) + data;
    BitsOfAppend(pre, BytesOf(bits));
    BytesHold(bits);
    assert BitsOf(s)[START..START + |bits|] == BitsOf(BytesOf(bits))[..|bits|];
  }

  lemma {:induction false} CountTwo(a: seq<nat>, b: seq<nat>, len: nat)
    ensures Count(a + b, len) == Count(a, len) + Count(b, len)
    decreases |b|
  {
    if b == [] {
      assert a + b == a;
    } else {
      assert (a + b)[..|a + b| - 1] == a + b[..|b| - 1];
      CountTwo(a, b[..|b| - 1], len);
    }
  }

  lemma {:induction false} CountOne(l: nat, len: nat)
    ensures Count([l], len) == if l == len then 1 else 0
  {
    var s: seq<nat> := [l];
    assert s[..|s| - 1] == [] && Count([], len) == 0;
  }

  /** The end code is 11: it starts with a one. */
  lemma {:induction false} EndCode()
    ensures CodeBits(Pad(SpoiltLL(), 288), 256) == [true, true]
  {
    hide Count, HighFirst;
    var ll := SpoiltLL();
    PadCode(ll, 288, 256);
    var front := [2] + Zeros(255);
    assert ll[..256] == front;
    forall len | len == 1 || len == 2 ensures Count(front, len) == len - 1 {
      CountTwo([2], Zeros(255), len);
      CountOne(2, len);
      CountAbsent(Zeros(255), len);
    }
    CountTwo(front, [2, 1], 1);
    CountTwo([2], [1], 1);
    assert [2] + [1] == [2, 1];
    CountOne(2, 1);
    CountOne(1, 1);
    assert NextCode(ll, 2) == 2 * (NextCode(ll, 1) + Count(ll, 1)) == 2;
    assert Code(ll, 256) == 3;
    ThreeHigh();
  }

  lemma {:induction false} ThreeHigh()
    ensures HighFirst(3, 2) == [true, true]
  {
    assert HighFirst(1, 1) == HighFirst(0, 0) + [true];
    assert HighFirst(3, 2) == HighFirst(1, 1) + [true];
  }

  /** The copy in the stream: its length, its distance, and what follows the distance. */
  lemma {:induction false} CopyPlaces(data: seq<byte>, s: seq<byte>)
    requires |data| == 2049 && s == SpoiltStream(data)
    ensures var ll, d := Pad(SpoiltLL(), 288), Pad(SpoiltD(), 32);
            && SymbolAt(ll, s, START + 182) == Some(257) && SymbolAt(d, s, START + 183) == Some(22)
            && Num(s, START + 183 + 15, 10) == 0
            && At(BitsOf(s), START + 198, LowBits(0, 10)) && At(BitsOf(s), START + 208, [true, true])
  {
    hide BitsOf, CodeBits, LowBits, At, Kraft, SymbolAt, Num, CodedBits, SpoiltStream, ValidHeader, HeaderBits, Sendable, BlockBits, Ramp, Pow2;
    Places(data, s);
    CodedParts();
    EndCode();
    var b := SpoiltBlock();
    var ll, d := Pad(SpoiltLL(), 288), Pad(SpoiltD(), 32);
    LLShape(b);
    var x, y, z, e := CodeBits(ll, 257), CodeBits(d, 22), LowBits(0, 10), CodeBits(ll, 256);
    var bits := BitsOf(s);
    AtSplit(bits, START + 182, x + (y + z), e);
    AtSplit(bits, START + 182, x, y + z);
    AtSplit(bits, START + 183, y, z);
    SymbolSent(ll, 257, s, START + 182);
    SymbolSent(d, 22, s, START + 183);
    Pow2Mono(0, 10);
    Pow2Small();
    NumSent(0, 10, s, START + 198);
  }

  /** A bit of the stream is a bit of one of its bytes. */
  lemma {:induction false} BitOfByte(s: seq<byte>, k: nat, j: nat)
    requires k < |s| && j < 8
    ensures BitsOf(s)[8 * k + j] == (Shr(s[k], j) % 2 == 1)
  {
    hide BitsOf, LowBits, Shr;
    BitsOfByte(s, k);
    LowBitsAt(s[k], 8, j);
    assert BitsOf(s)[8 * k + j] == BitsOf(s)[8 * k..8 * k + 8][j];
  }

  lemma {:induction false} HighBit(u: nat, n: nat)
    requires u < 2 * Pow2(n)
    ensures Shr(u, n) == if Pow2(n) <= u then 1 else 0
    decreases n
  {
    if n > 0 { HighBit(u / 2, n - 1); }
  }

  /** A one behind the distance and a zero at its end: the refill misplaces the one. */
  lemma {:induction false} Misplaced(s: seq<byte>, k: nat)
    requires k + 4 < |s| && !BitsOf(s)[8 * (k + 3) + 7] && BitsOf(s)[8 * (k + 4)]
    ensures !Intact32(s, 8 * k + 7, 25)
  {
    hide BitsOf, Pow2;
    var u, v := s[k + 3], s[k + 4];
    BitOfByte(s, k + 3, 7);
    BitOfByte(s, k + 4, 0);
    assert Pow2(7) == 128 && 2 * Pow2(7) == 256 by { SevenBits(); }
    HighBit(u, 7);
    assert Low(v, 1) == 1 by { LowOne(v); }
    assert (8 * k + 7) / 8 == k && (8 * k + 7) % 8 == 7;
  }

  lemma {:induction false} SevenBits()
    ensures Pow2(7) == 128
  {
    Pow2Small();
    assert Pow2(8) == 2 * Pow2(7);
  }

  lemma {:induction false} LowOne(v: nat)
    requires Shr(v, 0) % 2 == 1
    ensures Low(v, 1) == 1
  {
    assert Low(v / 2, 0) == 0;
  }

  lemma {:induction false} NotIntact(data: seq<byte>, s: seq<byte>)
    requires |data| == 2049 && s == SpoiltStream(data)
    ensures !Intact32(s, START + 183, 25)
  {
    hide BitsOf, LowBits, SpoiltStream, Intact32, SymbolAt, Num;
    CopyPlaces(data, s);
    LongEnough(data, s);
    var bits := BitsOf(s);
    ZeroBit(10, 9);
    assert bits[START + 207] == bits[START + 198..START + 208][9];
    assert bits[START + 208] == bits[START + 208..START + 210][0];
    Misplaced(s, 2076);
  }

  lemma {:induction false} LongEnough(data: seq<byte>, s: seq<byte>)
    requires |data| == 2049 && s == SpoiltStream(data)
    ensures |s| > 2080
  {
    hide BitsOf, LowBits, SpoiltStream, At, HeaderBits, CodedBits, BlockBits, ValidHeader, Sendable;
    Places(data, s);
  }

  // ----- the two readings ---------------------------------------------------------------------

  /** The reader finds a distance that reaches back before the start. */
  lemma {:induction false} Misread(data: seq<byte>, s: seq<byte>, len: nat)
    requires |data| == 2049 && s == SpoiltStream(data)
    ensures DistanceStep(s, START + 183, Pad(SpoiltD(), 32), data, len, false) == Done(Err(52))
  {
    hide BitsOf, LowBits, SpoiltStream, Intact32, SymbolAt, Symbol, DistanceBase, DistanceExtra, Low, Shr, CopyBytes, Ramp, Word32, At, Take, Val;
    var d, q := Pad(SpoiltD(), 32), START + 183;
    CopyPlaces(data, s);
    CopyCode();
    NotIntact(data, s);
    SameSymbol(s, q, d);
    ExtraExact(s, q, 15, 10);
    WordAgrees(s, q, true, 25);
    AdvanceHolds(s, q, Num(s, q, 32), 15, 10);
    assert d[22] == SpoiltD()[22] == 15;
    var x := CopyDistance(s, q, d, false);
    assert x.Ok? && x.value.dist == 2049 + Low(Shr(Word32(s, q), 15), 10);
  }

  /** The first block: the data, stored. */
  lemma {:induction false} FirstBlock(data: seq<byte>, s: seq<byte>, rfc: bool, ignoreNlen: bool)
    requires |data| == 2049 && s == SpoiltStream(data)
    ensures Blocks(s, 0, [], rfc, ignoreNlen) == Blocks(s, START, data, rfc, ignoreNlen)
  {
    hide BlockBits, BytesOf, Num, StoredBlock, Inflate.Block, ValidHeader, Sendable, StoredHeader, SpoiltBlock;
    SpoiltValid(data);
    var h, t := StoredHeader(false, 2049), BytesOf(BlockBits(SpoiltBlock(), true));
    Pieces(s, 0, h, data, t);
    assert s[0] == s[0..5][0] == h[0] && s[1..5] == s[0..5][1..] == h[1..];
    Deflate.HeaderParts(false, 2049);
    Deflate.StoredType(s, 0);
    StoredBlockSent(s, 0, data, [], ignoreNlen);
    BlockIsStored(s, 3, [], rfc, ignoreNlen);
    assert [] + data == data;
  }

  /** The whole stream, with any data: RFC 1951 gives the data and three bytes more, the reader refuses it. */
  lemma {:induction false} StreamFails(data: seq<byte>, ignoreNlen: bool)
    requires |data| == 2049
    ensures var s := SpoiltStream(data);
            && Inflated(s, true, ignoreNlen) == Ok(data + data[..3])
            && Inflated(s, false, ignoreNlen) == Err(52)
            && !Intact(s, ignoreNlen)
  {
    hide Blocks, IntactBlocks, SpoiltStream, BlockBits;
    var s := SpoiltStream(data);
    StreamSize(data, s);
    FirstBlock(data, s, true, ignoreNlen);
    FirstBlock(data, s, false, ignoreNlen);
    RfcReads(data, s, ignoreNlen);
    OwnFails(data, s, ignoreNlen);
    ReadersAgree(s, ignoreNlen);
  }

  lemma {:induction false} StreamSize(data: seq<byte>, s: seq<byte>)
    requires |data| == 2049 && s == SpoiltStream(data)
    ensures 8 * |s| + 64 < SIZE_LIMIT
  {
    hide BytesOf, BlockBits, BitsOf, CodedBits, HeaderBits, ValidHeader, Sendable, At, LowBits;
    SpoiltValid(data);
    var b := SpoiltBlock();
    BytesHold(BlockBits(b, true));
    assert |BlockBits(b, true)| == 210 by { BlockSize(data, s); }
  }

  lemma {:induction false} BlockSize(data: seq<byte>, s: seq<byte>)
    requires |data| == 2049 && s == SpoiltStream(data)
    ensures ValidHeader(SpoiltBlock()) && Sendable(BlockLL(SpoiltBlock()), BlockD(SpoiltBlock()), SpoiltBlock().tokens)
    ensures |BlockBits(SpoiltBlock(), true)| == 210
  {
    hide SpoiltStream, BitsOf, HeaderBits, CodedBits, ValidHeader, Sendable, At, LowBits;
    Places(data, s);
    CodedParts();
  }

  lemma {:induction false} RfcReads(data: seq<byte>, s: seq<byte>, ignoreNlen: bool)
    requires |data| == 2049 && s == SpoiltStream(data)
    ensures Blocks(s, START, data, true, ignoreNlen) == Ok(data + data[..3])
  {
    hide Blocks, BitsOf, BlockBits, SpoiltStream, ValidHeader, Sendable, HeaderBits, CodedBits, LowBits, CopyBytes, BlockLL, BlockD;
    var b := SpoiltBlock();
    SpoiltValid(data);
    Places(data, s);
    assert [b][1..] == [];
    assert StreamBits(data, [b]) == BlockBits(b, true) + [] == BlockBits(b, true);
    StreamSent(s, START, [b], data, true, ignoreNlen);
    CopySlice(data, 2049, 3);
    assert data[0..3] == data[..3] && b.tokens[1..] == [];
    assert Expand(data, b.tokens) == CopyBytes(data, 2049, 3);
  }

  lemma {:induction false} OwnFails(data: seq<byte>, s: seq<byte>, ignoreNlen: bool)
    requires |data| == 2049 && s == SpoiltStream(data)
    ensures Blocks(s, START, data, false, ignoreNlen) == Err(52)
  {
    hide BitsOf, BlockBits, SpoiltStream, ValidHeader, Sendable, HeaderBits, CodedBits, LowBits, SymbolAt, DistanceStep, DynamicTrees, Num, At, Pow2, LengthBase, LengthExtra;
    var b := SpoiltBlock();
    Places(data, s);
    CopyPlaces(data, s);
    LongEnough(data, s);
    CopyCode();
    BitBounds();
    NumSent(1, 1, s, START);
    NumSent(2, 2, s, START + 1);
    HeaderSent(s, START + 3, b);
    var ll, d := Pad(SpoiltLL(), 288), Pad(SpoiltD(), 32);
    assert ll[257] == SpoiltLL()[257] == 1;
    Misread(data, s, LengthBase(0) + Num(s, START + 183, 0));
    assert SymbolStep(s, START + 182, ll, d, data, false) == Done(Err(52));
  }
}
