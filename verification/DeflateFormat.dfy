/** The bits of DEFLATE blocks (RFC 1951, section 3.2) and the proof that inflating them gives back
    what they stand for. */
module DeflateFormat {
  import opened Bits
  import opened BitIO
  import opened Huffman
  import opened HuffmanTable
  import opened LZ77
  import RunLength
  import opened Inflate
  import opened Refill

  // ----- sending a symbol and reading it back -------------------------------------------------

  /** Lengths usable for both sides: a code with Kraft sum at most 1. */
  predicate Codable(lengths: seq<nat>) {
    ValidLengths(lengths) && Kraft(lengths) <= FULL
  }

  lemma {:induction false} SymbolSent(lengths: seq<nat>, n: nat, data: seq<byte>, pos: nat)
    requires Codable(lengths) && n < |lengths| && 0 < lengths[n]
    requires At(BitsOf(data), pos, CodeBits(lengths, n))
    ensures SymbolAt(lengths, data, pos) == Some(n)
  {
    hide CodeBits, BitsOf, Kraft;
    var s, l := BitsOf(data), lengths[n];
    AtTake(s, pos, CodeBits(lengths, n));
    TakeSplit(s, pos, l, MAX_BITS - l);
    var w := Take(s, pos, MAX_BITS);
    assert w[..l] == CodeBits(lengths, n);
    DecodeMatch(lengths, n, w);
  }

  lemma {:induction false} NumSent(v: nat, n: nat, data: seq<byte>, pos: nat)
    requires v < Pow2(n) && At(BitsOf(data), pos, LowBits(v, n))
    ensures Num(data, pos, n) == v
  {
    hide BitsOf, LowBits;
    AtTake(BitsOf(data), pos, LowBits(v, n));
    ValLowBits(v, n);
    LowId(v, n);
  }

  // ----- codes of zeros -----------------------------------------------------------------------

  lemma {:induction false} CountAbsent(lengths: seq<nat>, len: nat)
    requires forall i :: 0 <= i < |lengths| ==> lengths[i] != len
    ensures Count(lengths, len) == 0
    decreases |lengths|
  {
    if lengths != [] { CountAbsent(lengths[..|lengths| - 1], len); }
  }

  lemma {:induction false} NextCodeAbsent(lengths: seq<nat>, len: nat)
    requires forall i :: 0 <= i < |lengths| ==> lengths[i] == 0 || lengths[i] >= len
    ensures NextCode(lengths, len) == 0
    decreases len
  {
    if len > 1 {
      CountAbsent(lengths, len - 1);
      NextCodeAbsent(lengths, len - 1);
    }
  }

  lemma {:induction false} ZeroVal(w: seq<bool>)
    requires Val(w) == 0
    ensures forall i :: 0 <= i < |w| ==> !w[i]
    decreases |w|
  {
    if w != [] {
      ZeroVal(w[1..]);
      forall i | 0 <= i < |w| ensures !w[i] { if i > 0 { assert w[i] == w[1..][i - 1]; } }
    }
  }

  lemma {:induction false} ShrZero(n: nat)
    ensures Shr(0, n) == 0 && Low(0, n) == 0
    decreases n
  {
    if n > 0 { ShrZero(n - 1); }
  }

  /** The first of the shortest codes is all zeros. */
  lemma {:induction false} ZeroSymbol(lengths: seq<nat>, n: nat, len: nat, data: seq<byte>, pos: nat)
    requires Codable(lengths) && n < |lengths| && lengths[n] == len && 0 < len && Num(data, pos, MAX_BITS) == 0
    requires forall i :: 0 <= i < |lengths| ==> lengths[i] == 0 || lengths[i] >= len
    requires forall i :: 0 <= i < n ==> lengths[i] != len
    ensures SymbolAt(lengths, data, pos) == Some(n) && CodeBits(lengths, n) == LowBits(0, len)
  {
    hide BitsOf, Take, NextCode, Count, Kraft;
    var w := Take(BitsOf(data), pos, MAX_BITS);
    ZeroCode(lengths, n, len);
    ZeroVal(w);
    assert w[..len] == CodeBits(lengths, n) by {
      forall i: nat | i < len ensures LowBits(0, len)[i] == w[i] { ZeroBit(len, i); }
    }
    DecodeMatch(lengths, n, w);
  }

  lemma {:induction false} ZeroCode(lengths: seq<nat>, n: nat, len: nat)
    requires n < |lengths| && lengths[n] == len && 0 < len
    requires forall i :: 0 <= i < |lengths| ==> lengths[i] == 0 || lengths[i] >= len
    requires forall i :: 0 <= i < n ==> lengths[i] != len
    ensures CodeBits(lengths, n) == LowBits(0, len)
  {
    hide NextCode, Count;
    NextCodeAbsent(lengths, len);
    CountAbsent(lengths[..n], len);
    forall i: nat | i < len ensures HighFirst(0, len)[i] == LowBits(0, len)[i] {
      HighFirstAt(0, len, i);
      ShrZero(len - 1 - i);
      ZeroBit(len, i);
    }
  }

  lemma {:induction false} ZeroBit(n: nat, i: nat)
    requires i < n
    ensures !LowBits(0, n)[i]
  {
    LowBitsAt(0, n, i);
    ShrZero(i);
  }

  // ----- tokens -------------------------------------------------------------------------------

  /** All symbols of the token have codes. */
  predicate Covered(ll: seq<nat>, d: seq<nat>, t: Token) {
    match t
    case Literal(b) => b < |ll| && ll[b] > 0
    case Copy(len, dist) =>
      && LengthCode(len) + 257 < |ll| && ll[LengthCode(len) + 257] > 0
      && DistanceCode(dist) < |d| && d[DistanceCode(dist)] > 0
  }

  /** A token that can be sent with these lengths. */
  predicate Fits(ll: seq<nat>, d: seq<nat>, t: Token) {
    Covered(ll, d, t) && (t.Copy? ==> 3 <= t.len <= 258 && 1 <= t.dist <= 32768)
  }

  /** The reader's 32-bit refill covers the distance code and its extra bits wherever they stand. */
  predicate Near(d: seq<nat>, t: Token) {
    t.Copy? && DistanceCode(t.dist) < |d| ==> d[DistanceCode(t.dist)] + DistanceExtra(DistanceCode(t.dist)) <= 24
  }

  function CopyBits(ll: seq<nat>, d: seq<nat>, len: nat, dist: nat): (b: seq<bool>)
    requires Fits(ll, d, Copy(len, dist))
  {
    CopyCodes(len, dist);
    var lc, dc := LengthCode(len), DistanceCode(dist);
    CodeBits(ll, lc + 257) + LowBits(len - LengthBase(lc), LengthExtra(lc))
    + (CodeBits(d, dc) + LowBits(dist - DistanceBase(dc), DistanceExtra(dc)))
  }

  function TokenBits(ll: seq<nat>, d: seq<nat>, t: Token): (b: seq<bool>)
    requires Fits(ll, d, t)
    ensures |b| > 0
  {
    match t
    case Literal(b) => CodeBits(ll, b)
    case Copy(len, dist) => CopyBits(ll, d, len, dist)
  }

  /** A distance, sent and read back. */
  lemma {:induction false} DistanceSent(data: seq<byte>, pos: nat, d: seq<nat>, out: seq<byte>, len: nat, dist: nat, rfc: bool)
    requires Codable(d) && |d| <= 32 && 1 <= dist <= |out| && dist <= 32768
    requires var dc := DistanceCode(dist);
             && dc < |d| && d[dc] > 0 && (rfc || d[dc] + DistanceExtra(dc) <= 24) && DistanceBase(dc) <= dist
             && At(BitsOf(data), pos, CodeBits(d, dc) + LowBits(dist - DistanceBase(dc), DistanceExtra(dc)))
    ensures var dc := DistanceCode(dist);
            DistanceStep(data, pos, d, out, len, rfc) == More(pos + d[dc] + DistanceExtra(dc), CopyBytes(out, dist, len))
  {
    hide At, Take, Val, BitsOf, CodeBits, LowBits, Kraft, Low, Shr, CopyBytes, DistanceStep, DistanceWord, Symbol, SymbolAt,
         DistanceBase, DistanceExtra, DistanceCode, Pow2;
    var dc := DistanceCode(dist);
    var l, e := d[dc], DistanceExtra(dc);
    CopyCodes(3, dist);
    AtSplit(BitsOf(data), pos, CodeBits(d, dc), LowBits(dist - DistanceBase(dc), e));
    SymbolSent(d, dc, data, pos);
    SameSymbol(data, pos, d);
    NumSent(dist - DistanceBase(dc), e, data, pos + l);
    var word := DistanceWord(data, pos, rfc);
    assert l + e <= if rfc then 32 else 24;
    WordAgrees(data, pos, rfc, l + e);
    AdvanceHolds(data, pos, word, l, e);
    StepIs(data, pos, d, out, len, rfc, dc);
  }

  lemma {:induction false} StepIs(data: seq<byte>, pos: nat, d: seq<nat>, out: seq<byte>, len: nat, rfc: bool, c: nat)
    requires c < |d| && c <= 29 && Symbol(d, DistanceWord(data, pos, rfc)) == Some(c)
    ensures var dist := DistanceBase(c) + Low(Shr(DistanceWord(data, pos, rfc), d[c]), DistanceExtra(c));
            1 <= dist <= |out| ==> DistanceStep(data, pos, d, out, len, rfc) == More(pos + d[c] + DistanceExtra(c), CopyBytes(out, dist, len))
  {
    hide DistanceWord, Symbol, DistanceBase, DistanceExtra, Low, Shr, CopyBytes;
  }

  /** One token, sent and read back. */
  lemma {:induction false} TokenSent(data: seq<byte>, pos: nat, ll: seq<nat>, d: seq<nat>, out: seq<byte>, t: Token, rfc: bool)
    requires Codable(ll) && Codable(d) && |d| <= 32
    requires Fits(ll, d, t) && Usable(t, |out|, 32768) && (rfc || Near(d, t))
    requires At(BitsOf(data), pos, TokenBits(ll, d, t))
    ensures SymbolStep(data, pos, ll, d, out, rfc) == More(pos + |TokenBits(ll, d, t)|, Apply(out, t))
  {
    hide BitsOf, CodeBits, Codable, DistanceStep, CopyBytes, CopyBits, LengthBase, LengthExtra, At;
    match t
    case Literal(b) =>
      SymbolSent(ll, b, data, pos);
      AtBound(data, pos, CodeBits(ll, b));
    case Copy(len, dist) =>
      AtBound(data, pos, CopyBits(ll, d, len, dist));
      CopySent(data, pos, ll, d, out, len, dist, rfc);
  }

  lemma {:induction false} AtBound(data: seq<byte>, pos: nat, b: seq<bool>)
    requires At(BitsOf(data), pos, b)
    ensures pos + |b| <= 8 * |data|
  {}

  lemma {:induction false} CopySent(data: seq<byte>, pos: nat, ll: seq<nat>, d: seq<nat>, out: seq<byte>, len: nat, dist: nat, rfc: bool)
    requires Codable(ll) && Codable(d) && |d| <= 32 && Fits(ll, d, Copy(len, dist)) && dist <= |out|
    requires rfc || Near(d, Copy(len, dist))
    requires At(BitsOf(data), pos, CopyBits(ll, d, len, dist))
    ensures var lc := LengthCode(len);
            var x := LengthExtra(lc);
            && SymbolAt(ll, data, pos) == Some(lc + 257)
            && LengthBase(lc) + Num(data, pos + ll[lc + 257], x) == len
            && DistanceStep(data, pos + ll[lc + 257] + x, d, out, len, rfc)
               == More(pos + |CopyBits(ll, d, len, dist)|, CopyBytes(out, dist, len))
  {
    hide BitsOf, CodeBits, LowBits, Codable, DistanceStep, SymbolAt, CopyBytes, Num, LengthBase, LengthExtra,
         DistanceBase, DistanceExtra, LengthCode, DistanceCode, At, Pow2;
    CopyCodes(len, dist);
    var lc, dc := LengthCode(len), DistanceCode(dist);
    var a := CodeBits(ll, lc + 257);
    var b := LowBits(len - LengthBase(lc), LengthExtra(lc));
    var c := CodeBits(d, dc) + LowBits(dist - DistanceBase(dc), DistanceExtra(dc));
    assert CopyBits(ll, d, len, dist) == a + b + c;
    AtSplit(BitsOf(data), pos, a + b, c);
    AtSplit(BitsOf(data), pos, a, b);
    SymbolSent(ll, lc + 257, data, pos);
    NumSent(len - LengthBase(lc), LengthExtra(lc), data, pos + |a|);
    DistanceSent(data, pos + |a + b|, d, out, len, dist, rfc);
  }

  /** Every token of the sequence can be sent with these lengths. */
  predicate Sendable(ll: seq<nat>, d: seq<nat>, tokens: seq<Token>) {
    forall i :: 0 <= i < |tokens| ==> Fits(ll, d, tokens[i])
  }

  function TokensBits(ll: seq<nat>, d: seq<nat>, tokens: seq<Token>): (b: seq<bool>)
    requires Sendable(ll, d, tokens)
    decreases |tokens|
  {
    if tokens == [] then [] else TokenBits(ll, d, tokens[0]) + TokensBits(ll, d, tokens[1..])
  }

  lemma {:induction false} TokensBitsAppend(ll: seq<nat>, d: seq<nat>, tokens: seq<Token>, t: Token)
    requires Sendable(ll, d, tokens) && Fits(ll, d, t)
    ensures Sendable(ll, d, tokens + [t])
    ensures TokensBits(ll, d, tokens + [t]) == TokensBits(ll, d, tokens) + TokenBits(ll, d, t)
    decreases |tokens|
  {
    hide TokenBits, Fits;
    if tokens == [] {
      assert [] + [t] == [t] && [t][1..] == [] && [t][0] == t;
      assert TokensBits(ll, d, [t]) == TokenBits(ll, d, t) + [];
    } else {
      TokensBitsAppend(ll, d, tokens[1..], t);
      assert (tokens + [t])[1..] == tokens[1..] + [t];
      var h := TokenBits(ll, d, tokens[0]);
      assert h + (TokensBits(ll, d, tokens[1..]) + TokenBits(ll, d, t)) == (h + TokensBits(ll, d, tokens[1..])) + TokenBits(ll, d, t);
    }
  }

  /** Distances the decoder's refill cannot spoil. */
  predicate AllNear(d: seq<nat>, tokens: seq<Token>) {
    forall i :: 0 <= i < |tokens| ==> Near(d, tokens[i])
  }

  /** The tokens of a block and its end code, read back: the block's meaning. */
  lemma {:induction false} TokensSent(data: seq<byte>, pos: nat, ll: seq<nat>, d: seq<nat>, out: seq<byte>, tokens: seq<Token>, rfc: bool)
    requires Codable(ll) && Codable(d) && |d| <= 32 && |ll| > 256 && ll[256] > 0
    requires Sendable(ll, d, tokens) && AllUsable(out, tokens, 32768)
    requires rfc || AllNear(d, tokens) || IntactSymbols(data, pos, ll, d, out)
    requires At(BitsOf(data), pos, TokensBits(ll, d, tokens) + CodeBits(ll, 256))
    ensures Symbols(data, pos, ll, d, out, rfc)
            == Ok(State(pos + |TokensBits(ll, d, tokens)| + ll[256], Expand(out, tokens)))
    decreases |tokens|, if rfc then 0 else 1
  {
    hide BitsOf, CodeBits, Codable, Fits, TokenBits, SymbolStep, Apply, Usable, Near, IntactSymbols;
    if !rfc && !AllNear(d, tokens) {
      TokensSent(data, pos, ll, d, out, tokens, true);
      CodableLengths(d);
      SymbolsAgree(data, pos, ll, d, out);
    } else if tokens == [] {
      assert TokensBits(ll, d, tokens) + CodeBits(ll, 256) == CodeBits(ll, 256);
      EndSent(data, pos, ll, d, out, rfc);
    } else {
      var h, rest := TokenBits(ll, d, tokens[0]), TokensBits(ll, d, tokens[1..]);
      assert (h + rest) + CodeBits(ll, 256) == h + (rest + CodeBits(ll, 256));
      AtSplit(BitsOf(data), pos, h, rest + CodeBits(ll, 256));
      TokenSent(data, pos, ll, d, out, tokens[0], rfc);
      TokensSent(data, pos + |h|, ll, d, Apply(out, tokens[0]), tokens[1..], rfc);
    }
  }

  lemma {:induction false} CodableLengths(lengths: seq<nat>)
    requires Codable(lengths)
    ensures ValidLengths(lengths)
  {}

  lemma {:induction false} EndSent(data: seq<byte>, pos: nat, ll: seq<nat>, d: seq<nat>, out: seq<byte>, rfc: bool)
    requires Codable(ll) && |ll| > 256 && ll[256] > 0 && At(BitsOf(data), pos, CodeBits(ll, 256))
    ensures SymbolStep(data, pos, ll, d, out, rfc) == Done(Ok(State(pos + ll[256], out)))
  {
    hide BitsOf, CodeBits, Kraft, DistanceStep, SymbolAt;
    SymbolSent(ll, 256, data, pos);
  }

  // ----- code lengths -------------------------------------------------------------------------

  /** Symbol of the code length alphabet for a run, with the value and number of its extra bits. */
  function RunCode(r: RunLength.Run): (c: (nat, nat, nat))
  {
    match r
    case Single(v) => (v, 0, 0)
    case Repeat(n) => (16, if n < 3 then 0 else n - 3, 2)
    case Zeros(n) => if n <= 10 then (17, if n < 3 then 0 else n - 3, 3) else (18, n - 11, 7)
  }

  /** A run whose symbol has a code. */
  predicate RunFits(cl: seq<nat>, r: RunLength.Run) {
    RunCode(r).0 < |cl| && cl[RunCode(r).0] > 0
  }

  function RunBits(cl: seq<nat>, r: RunLength.Run): (b: seq<bool>)
    requires RunFits(cl, r)
  {
    CodeBits(cl, RunCode(r).0) + LowBits(RunCode(r).1, RunCode(r).2)
  }

  predicate RunsFit(cl: seq<nat>, runs: seq<RunLength.Run>) {
    forall i :: 0 <= i < |runs| ==> RunFits(cl, runs[i])
  }

  function RunsBits(cl: seq<nat>, runs: seq<RunLength.Run>): (b: seq<bool>)
    requires RunsFit(cl, runs)
    decreases |runs|
  {
    if runs == [] then [] else RunBits(cl, runs[0]) + RunsBits(cl, runs[1..])
  }

  lemma {:induction false} RunsBitsAppend(cl: seq<nat>, runs: seq<RunLength.Run>, r: RunLength.Run)
    requires RunsFit(cl, runs) && RunFits(cl, r)
    ensures RunsFit(cl, runs + [r]) && RunsBits(cl, runs + [r]) == RunsBits(cl, runs) + RunBits(cl, r)
    decreases |runs|
  {
    hide RunBits, RunFits;
    if runs == [] {
      assert [] + [r] == [r] && [r][1..] == [] && [r][0] == r;
      assert RunsBits(cl, [r]) == RunBits(cl, r) + [];
    } else {
      RunsBitsAppend(cl, runs[1..], r);
      assert (runs + [r])[1..] == runs[1..] + [r];
      var h := RunBits(cl, runs[0]);
      assert h + (RunsBits(cl, runs[1..]) + RunBits(cl, r)) == (h + RunsBits(cl, runs[1..])) + RunBits(cl, r);
    }
  }

  lemma {:induction false} RunExtraFits(r: RunLength.Run, before: nat)
    requires RunLength.ValidRun(r, before)
    ensures RunCode(r).1 < Pow2(RunCode(r).2) && RunCode(r).0 <= 18
  {
    assert Pow2(0) == 1 && Pow2(2) == 4 && Pow2(3) == 8 && Pow2(7) == 128;
  }

  /** One run, sent and read back. */
  lemma {:induction false} RunSent(data: seq<byte>, pos: nat, cl: seq<nat>, total: nat, acc: seq<nat>, r: RunLength.Run)
    requires Codable(cl) && |cl| == 19 && RunFits(cl, r) && RunLength.ValidRun(r, |acc|)
    requires |acc| < total && |RunLength.Unpack(acc, r)| <= total && forall k :: 0 <= k < |acc| ==> acc[k] <= 15
    requires At(BitsOf(data), pos, RunBits(cl, r))
    ensures LengthSymbol(data, pos, cl, total, acc) == Next(pos + |RunBits(cl, r)|, RunLength.Unpack(acc, r))
  {
    hide BitsOf, CodeBits, LowBits, Kraft, SymbolAt, Num, At, Pow2;
    var c := RunCode(r);
    RunExtraFits(r, |acc|);
    AtBound(data, pos, RunBits(cl, r));
    AtSplit(BitsOf(data), pos, CodeBits(cl, c.0), LowBits(c.1, c.2));
    SymbolSent(cl, c.0, data, pos);
    NumSent(c.1, c.2, data, pos + cl[c.0]);
    match r
    case Single(v) =>
    case Repeat(n) => assert seq(n, _ => acc[|acc| - 1]) == RunLength.Copies(acc[|acc| - 1], n);
    case Zeros(n) => assert seq(n, _ => 0) == RunLength.Copies(0, n);
  }

  lemma {:induction false} UnpackSmall(acc: seq<nat>, r: RunLength.Run)
    requires RunLength.ValidRun(r, |acc|) && forall k :: 0 <= k < |acc| ==> acc[k] <= 15
    ensures forall k :: 0 <= k < |RunLength.Unpack(acc, r)| ==> RunLength.Unpack(acc, r)[k] <= 15
    ensures |acc| < |RunLength.Unpack(acc, r)|
  {}

  /** Packed code lengths, sent and read back. */
  lemma {:induction false} RunsSent(data: seq<byte>, pos: nat, cl: seq<nat>, acc: seq<nat>, runs: seq<RunLength.Run>)
    requires Codable(cl) && |cl| == 19 && RunsFit(cl, runs) && RunLength.ValidRuns(acc, runs)
    requires forall k :: 0 <= k < |acc| ==> acc[k] <= 15
    requires At(BitsOf(data), pos, RunsBits(cl, runs))
    ensures |acc| <= |RunLength.UnpackAll(acc, runs)|
    ensures ReadLengths(data, pos, cl, |RunLength.UnpackAll(acc, runs)|, acc)
            == Ok((pos + |RunsBits(cl, runs)|, RunLength.UnpackAll(acc, runs)))
    decreases |runs|
  {
    hide BitsOf, Codable, RunFits, RunBits, LengthSymbol, RunLength.Unpack, RunLength.ValidRun;
    RunLength.UnpackGrows(acc, runs);
    if runs != [] {
      var r, h := runs[0], RunBits(cl, runs[0]);
      var acc' := RunLength.Unpack(acc, r);
      UnpackSmall(acc, r);
      RunLength.UnpackGrows(acc', runs[1..]);
      AtSplit(BitsOf(data), pos, h, RunsBits(cl, runs[1..]));
      RunSent(data, pos, cl, |RunLength.UnpackAll(acc, runs)|, acc, r);
      RunsSent(data, pos + |h|, cl, acc', runs[1..]);
    }
  }

  /** The first `n` lengths of the code length alphabet, in the order in which they are sent. */
  function ClclBits(cl: seq<nat>, n: nat): (b: seq<bool>)
    requires |cl| == 19 && n <= 19
    ensures |b| == 3 * n
  {
    if n == 0 then []
    else
      ClclInRange(n - 1);
      ClclBits(cl, n - 1) + LowBits(cl[CLCL_ORDER[n - 1]], 3)
  }

  lemma {:induction false} ClclDistinct(i: nat, j: nat)
    requires i < j < 19
    ensures CLCL_ORDER[i] != CLCL_ORDER[j]
  {}

  /** Where a symbol stands in that order. */
  function ClclPlace(k: nat): (i: nat)
    requires k < 19
    ensures i < 19 && CLCL_ORDER[i] == k
  {
    [3, 17, 15, 13, 11, 9, 7, 5, 4, 6, 8, 10, 12, 14, 16, 18, 0, 1, 2][k]
  }

  lemma {:induction false} ClclSent(data: seq<byte>, pos: nat, cl: seq<nat>, n: nat, i: nat)
    requires |cl| == 19 && n <= 19 && i < 19 && CLCL_ORDER[i] < 19 && forall k :: 0 <= k < 19 ==> cl[k] <= 7
    requires At(BitsOf(data), pos, ClclBits(cl, n))
    ensures ReadClcl(data, pos, n)[CLCL_ORDER[i]] == if i < n then cl[CLCL_ORDER[i]] else 0
    decreases n
  {
    hide BitsOf, LowBits, Num, Pow2, At;
    if n > 0 {
      ClclInRange(n - 1);
      AtSplit(BitsOf(data), pos, ClclBits(cl, n - 1), LowBits(cl[CLCL_ORDER[n - 1]], 3));
      ClclSent(data, pos, cl, n - 1, i);
      EightValues();
      NumSent(cl[CLCL_ORDER[n - 1]], 3, data, pos + 3 * (n - 1));
      if i < n - 1 { ClclDistinct(i, n - 1); }
      if n - 1 < i { ClclDistinct(n - 1, i); }
    }
  }

  lemma {:induction false} EightValues()
    ensures Pow2(3) == 8
  {}

  /** Lengths of the code length alphabet, without their trailing zeros, sent and read back. */
  lemma {:induction false} AllClclSent(data: seq<byte>, pos: nat, cl: seq<nat>, n: nat)
    requires |cl| == 19 && n <= 19 && forall k :: 0 <= k < 19 ==> cl[k] <= 7
    requires forall i :: n <= i < 19 ==> CLCL_ORDER[i] < 19 && cl[CLCL_ORDER[i]] == 0
    requires At(BitsOf(data), pos, ClclBits(cl, n))
    ensures ReadClcl(data, pos, n) == cl
  {
    hide BitsOf, ClclBits, ReadClcl, CLCL_ORDER;
    forall k | 0 <= k < 19 ensures ReadClcl(data, pos, n)[k] == cl[k] {
      var i := ClclPlace(k);
      ClclSent(data, pos, cl, n, i);
    }
  }

  // ----- padding ------------------------------------------------------------------------------

  lemma {:induction false} PadCount(lengths: seq<nat>, z: nat, len: nat)
    requires 0 < len
    ensures Count(lengths + seq(z, _ => 0), len) == Count(lengths, len)
    decreases z
  {
    var p := lengths + seq(z, _ => 0);
    if z == 0 {
      assert p == lengths;
    } else {
      assert p[..|p| - 1] == lengths + seq(z - 1, _ => 0);
      PadCount(lengths, z - 1, len);
    }
  }

  lemma {:induction false} PadNext(lengths: seq<nat>, n: nat, len: nat)
    requires |lengths| <= n
    ensures NextCode(Pad(lengths, n), len) == NextCode(lengths, len)
    decreases len
  {
    if len > 1 {
      PadNext(lengths, n, len - 1);
      PadCount(lengths, n - |lengths|, len - 1);
    }
  }

  /** Symbols without codes at the end of the alphabet change neither codes nor Kraft sum. */
  lemma {:induction false} PadCode(lengths: seq<nat>, n: nat, k: nat)
    requires k < |lengths| <= n && lengths[k] > 0
    ensures CodeBits(Pad(lengths, n), k) == CodeBits(lengths, k)
  {
    var p := Pad(lengths, n);
    PadNext(lengths, n, lengths[k]);
    assert p[..k] == lengths[..k];
  }

  lemma {:induction false} KraftZeros(z: nat)
    ensures Kraft(seq(z, _ => 0)) == 0
    decreases z
  {
    var s: seq<nat> := seq(z, _ => 0);
    if z > 0 {
      assert s[..z - 1] == seq(z - 1, _ => 0);
      KraftZeros(z - 1);
    }
  }

  lemma {:induction false} PadPresent(lengths: seq<nat>, z: nat)
    ensures Present(lengths + seq(z, _ => 0)) == Present(lengths)
    decreases z
  {
    var p := lengths + seq(z, _ => 0);
    if z == 0 {
      assert p == lengths;
    } else {
      assert p[..|p| - 1] == lengths + seq(z - 1, _ => 0);
      PadPresent(lengths, z - 1);
    }
  }

  lemma {:induction false} PadKraft(lengths: seq<nat>, n: nat)
    requires |lengths| <= n
    ensures Kraft(Pad(lengths, n)) == Kraft(lengths)
  {
    hide Kraft;
    KraftAppend(lengths, seq(n - |lengths|, _ => 0));
    KraftZeros(n - |lengths|);
  }

  // ----- blocks -------------------------------------------------------------------------------

  datatype Block =
    | Fixed(tokens: seq<Token>)
    | Dynamic(tokens: seq<Token>, ll: seq<nat>, d: seq<nat>, cl: seq<nat>, hclen: nat, runs: seq<RunLength.Run>)

  predicate ValidHeader(b: Block) {
    b.Dynamic? ==>
      && 257 <= |b.ll| <= 288 && 1 <= |b.d| <= 32 && ValidLengths(b.ll) && ValidLengths(b.d)
      && Complete(b.ll) && Kraft(b.d) <= FULL && !BadTree(b.d) && b.ll[256] > 0
      && |b.cl| == 19 && Complete(b.cl) && (forall k :: 0 <= k < 19 ==> b.cl[k] <= 7)
      && 4 <= b.hclen <= 19 && (forall i :: b.hclen <= i < 19 ==> CLCL_ORDER[i] < 19 && b.cl[CLCL_ORDER[i]] == 0)
      && RunsFit(b.cl, b.runs) && RunLength.ValidRuns([], b.runs) && RunLength.UnpackAll([], b.runs) == b.ll + b.d
  }

  function BlockLL(b: Block): (ll: seq<nat>)
    requires ValidHeader(b)
  {
    if b.Fixed? then FixedLL() else Pad(b.ll, 288)
  }

  function BlockD(b: Block): (d: seq<nat>)
    requires ValidHeader(b)
  {
    if b.Fixed? then FixedD() else Pad(b.d, 32)
  }

  /** A block that can be sent after the output `out`. */
  predicate ValidBlock(b: Block, out: seq<byte>) {
    ValidHeader(b) && Sendable(BlockLL(b), BlockD(b), b.tokens) && AllUsable(out, b.tokens, 32768)
  }

  function HeaderNumbers(b: Block): (h: seq<bool>)
    requires ValidHeader(b) && b.Dynamic?
    ensures |h| == 14
  {
    LowBits(|b.ll| - 257, 5) + LowBits(|b.d| - 1, 5) + LowBits(b.hclen - 4, 4)
  }

  function HeaderBits(b: Block): (h: seq<bool>)
    requires ValidHeader(b) && b.Dynamic?
  {
    HeaderNumbers(b) + (ClclBits(b.cl, b.hclen) + RunsBits(b.cl, b.runs))
  }

  lemma {:induction false} LLShape(b: Block)
    requires ValidHeader(b)
    ensures Codable(BlockLL(b)) && |BlockLL(b)| == 288 && BlockLL(b)[256] > 0
    ensures Codable(BlockD(b)) && |BlockD(b)| == 32
  {
    hide Kraft;
    if b.Fixed? {
      FixedComplete();
    } else {
      PadKraft(b.ll, 288);
      PadKraft(b.d, 32);
    }
  }

  function CodedBits(b: Block): (s: seq<bool>)
    requires ValidHeader(b) && Sendable(BlockLL(b), BlockD(b), b.tokens)
    ensures |s| > 0
  {
    LLShape(b);
    TokensBits(BlockLL(b), BlockD(b), b.tokens) + CodeBits(BlockLL(b), 256)
  }

  function BodyBits(b: Block): (s: seq<bool>)
    requires ValidHeader(b) && Sendable(BlockLL(b), BlockD(b), b.tokens)
    ensures |s| > 0
  {
    if b.Fixed? then CodedBits(b) else HeaderBits(b) + CodedBits(b)
  }

  function BlockType(b: Block): (t: nat)
  {
    if b.Fixed? then 1 else 2
  }

  function BlockBits(b: Block, final: bool): (s: seq<bool>)
    requires ValidHeader(b) && Sendable(BlockLL(b), BlockD(b), b.tokens)
    ensures |s| > 3
  {
    LowBits(BitVal(final), 1) + LowBits(BlockType(b), 2) + BodyBits(b)
  }

  /** The header of a dynamic block, sent and read back. */
  lemma {:induction false} HeaderSent(data: seq<byte>, pos: nat, b: Block)
    requires ValidHeader(b) && b.Dynamic? && At(BitsOf(data), pos, HeaderBits(b))
    ensures DynamicTrees(data, pos) == Ok(Trees(pos + |HeaderBits(b)|, Pad(b.ll, 288), Pad(b.d, 32)))
  {
    hide BitsOf, ClclBits, RunsBits, At, ReadClcl, ReadLengths, SplitLengths, HeaderNumbers, Num, Kraft, BadTree, CLCL_ORDER,
         RunLength.ValidRuns, RunLength.UnpackAll, RunsFit, Pad;
    var s := BitsOf(data);
    AtBound(data, pos, HeaderBits(b));
    AtSplit(s, pos, HeaderNumbers(b), ClclBits(b.cl, b.hclen) + RunsBits(b.cl, b.runs));
    AtSplit(s, pos + 14, ClclBits(b.cl, b.hclen), RunsBits(b.cl, b.runs));
    NumbersSent(data, pos, b);
    AllClclSent(data, pos + 14, b.cl, b.hclen);
    BadTreeIs(b.cl);
    RunsSent(data, pos + 14 + 3 * b.hclen, b.cl, [], b.runs);
    SplitSent(pos + |HeaderBits(b)|, b);
  }

  lemma {:induction false} NumbersSent(data: seq<byte>, pos: nat, b: Block)
    requires ValidHeader(b) && b.Dynamic? && At(BitsOf(data), pos, HeaderNumbers(b))
    ensures Num(data, pos, 5) == |b.ll| - 257 && Num(data, pos + 5, 5) == |b.d| - 1 && Num(data, pos + 10, 4) == b.hclen - 4
  {
    hide BitsOf, LowBits, At, Num, Kraft, Complete, RunLength.ValidRuns, RunLength.UnpackAll, RunsFit, CLCL_ORDER;
    var x, y, z := LowBits(|b.ll| - 257, 5), LowBits(|b.d| - 1, 5), LowBits(b.hclen - 4, 4);
    AtSplit(BitsOf(data), pos, x + y, z);
    AtSplit(BitsOf(data), pos, x, y);
    assert Pow2(5) == 32 && Pow2(4) == 16;
    NumSent(|b.ll| - 257, 5, data, pos);
    NumSent(|b.d| - 1, 5, data, pos + 5);
    NumSent(b.hclen - 4, 4, data, pos + 10);
  }

  lemma {:induction false} SplitSent(pos: nat, b: Block)
    requires ValidHeader(b) && b.Dynamic?
    ensures forall k :: 0 <= k < |b.ll + b.d| ==> (b.ll + b.d)[k] <= 15
    ensures SplitLengths(pos, |b.ll|, b.ll + b.d) == Ok(Trees(pos, Pad(b.ll, 288), Pad(b.d, 32)))
  {
    hide Kraft, RunLength.ValidRuns, RunLength.UnpackAll, RunsFit, CLCL_ORDER;
    var l := b.ll + b.d;
    assert l[..|b.ll|] == b.ll && l[|b.ll|..] == b.d;
    PadKraft(b.ll, 288);
    PadKraft(b.d, 32);
    PadPresent(b.d, 32 - |b.d|);
  }

  /** A block, sent and read back: it yields its meaning. */
  lemma {:induction false} BlockSent(data: seq<byte>, pos: nat, b: Block, out: seq<byte>, rfc: bool, ignoreNlen: bool)
    requires ValidBlock(b, out) && (rfc || AllNear(BlockD(b), b.tokens))
    requires At(BitsOf(data), pos, BodyBits(b))
    ensures Inflate.Block(data, pos, BlockType(b), out, rfc, ignoreNlen)
            == Ok(State(pos + |BodyBits(b)|, Expand(out, b.tokens)))
  {
    hide BitsOf, At, HeaderBits, DynamicTrees, Symbols, Sendable, AllUsable, ValidHeader, Codable, AllNear, CodeBits, Expand, TokensBits;
    LLShape(b);
    if b.Fixed? {
      TokensSent(data, pos, BlockLL(b), BlockD(b), out, b.tokens, rfc);
    } else {
      AtSplit(BitsOf(data), pos, HeaderBits(b), CodedBits(b));
      HeaderSent(data, pos, b);
      TokensSent(data, pos + |HeaderBits(b)|, BlockLL(b), BlockD(b), out, b.tokens, rfc);
    }
  }

  function ExpandAll(out: seq<byte>, blocks: seq<Block>): (r: seq<byte>)
    decreases |blocks|
  {
    if blocks == [] then out else ExpandAll(Expand(out, blocks[0].tokens), blocks[1..])
  }

  predicate ValidBlocks(out: seq<byte>, blocks: seq<Block>)
    decreases |blocks|
  {
    blocks != [] ==> ValidBlock(blocks[0], out) && ValidBlocks(Expand(out, blocks[0].tokens), blocks[1..])
  }

  /** All distances of all blocks are safe from the decoder's refill. */
  predicate BlocksNear(blocks: seq<Block>) {
    forall i :: 0 <= i < |blocks| ==> ValidHeader(blocks[i]) ==> AllNear(BlockD(blocks[i]), blocks[i].tokens)
  }

  /** The bits of a stream: all blocks, the last one marked final. */
  function StreamBits(out: seq<byte>, blocks: seq<Block>): (s: seq<bool>)
    requires ValidBlocks(out, blocks)
    decreases |blocks|
  {
    if blocks == [] then []
    else BlockBits(blocks[0], |blocks| == 1) + StreamBits(Expand(out, blocks[0].tokens), blocks[1..])
  }

  /** A stream of blocks, sent and read back: inflating it gives their meaning. */
  lemma {:induction false} StreamSent(data: seq<byte>, pos: nat, blocks: seq<Block>, out: seq<byte>, rfc: bool, ignoreNlen: bool)
    requires blocks != [] && ValidBlocks(out, blocks)
    requires rfc || BlocksNear(blocks) || IntactBlocks(data, pos, out, ignoreNlen)
    requires At(BitsOf(data), pos, StreamBits(out, blocks))
    ensures Blocks(data, pos, out, rfc, ignoreNlen) == Ok(ExpandAll(out, blocks))
    decreases |blocks|, if rfc then 0 else 1
  {
    hide BitsOf, At, Inflate.Block, ValidHeader, BodyBits, AllNear, Expand, LowBits, Num, Sendable, AllUsable, BlockLL, BlockD, IntactBlocks;
    if !rfc && !BlocksNear(blocks) {
      StreamSent(data, pos, blocks, out, true, ignoreNlen);
      BlocksAgree(data, pos, out, ignoreNlen);
      return;
    }
    var b, s := blocks[0], BitsOf(data);
    var rest := StreamBits(Expand(out, b.tokens), blocks[1..]);
    var x, y := LowBits(BitVal(|blocks| == 1), 1), LowBits(BlockType(b), 2);
    AtSplit(s, pos, BlockBits(b, |blocks| == 1), rest);
    AtSplit(s, pos, x + y, BodyBits(b));
    AtSplit(s, pos, x, y);
    AtBound(data, pos, BlockBits(b, |blocks| == 1));
    BitBounds();
    NumSent(BitVal(|blocks| == 1), 1, data, pos);
    NumSent(BlockType(b), 2, data, pos + 1);
    BlockSent(data, pos + 3, b, out, rfc, ignoreNlen);
    if |blocks| > 1 {
      StreamSent(data, pos + 3 + |BodyBits(b)|, blocks[1..], Expand(out, b.tokens), rfc, ignoreNlen);
    }
  }
}
