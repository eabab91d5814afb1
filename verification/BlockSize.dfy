/** How many bits a block spends on its tokens. */
module BlockSize {
  import opened Bits
  import opened Huffman
  import opened PackageMerge
  import opened LZ77
  import opened Inflate
  import opened DeflateFormat

  /** The symbol of the literal/length alphabet that a token needs. */
  function TokenSymbol(t: Token): (s: nat)
  {
    match t case Literal(b) => b case Copy(len, _) => LengthCode(len) + 257
  }

  /** How often the tokens use a literal/length symbol, and a distance symbol. */
  function Uses(tokens: seq<Token>, s: nat): (n: nat)
    decreases |tokens|
  {
    if tokens == [] then 0
    else Uses(tokens[..|tokens| - 1], s) + if TokenSymbol(tokens[|tokens| - 1]) == s then 1 else 0
  }

  function DistanceUses(tokens: seq<Token>, s: nat): (n: nat)
    decreases |tokens|
  {
    if tokens == [] then 0
    else
      var t := tokens[|tokens| - 1];
      DistanceUses(tokens[..|tokens| - 1], s) + if t.Copy? && DistanceCode(t.dist) == s then 1 else 0
  }

  /** Extra bits of the tokens; no code changes them. */
  function ExtraBits(tokens: seq<Token>): (n: nat)
    decreases |tokens|
  {
    if tokens == [] then 0
    else
      var t := tokens[|tokens| - 1];
      ExtraBits(tokens[..|tokens| - 1])
      + if t.Copy? && 3 <= t.len <= 258 && 1 <= t.dist <= 32768 then LengthExtra(LengthCode(t.len)) + DistanceExtra(DistanceCode(t.dist)) else 0
  }

  /** The numbers of uses of the first n symbols. */
  function AllUses(tokens: seq<Token>, n: nat): (f: seq<nat>)
    ensures |f| == n && forall s :: 0 <= s < n ==> f[s] == Uses(tokens, s)
  {
    seq(n, s requires 0 <= s < n => Uses(tokens, s))
  }

  function AllDistanceUses(tokens: seq<Token>, n: nat): (f: seq<nat>)
    ensures |f| == n && forall s :: 0 <= s < n ==> f[s] == DistanceUses(tokens, s)
  {
    seq(n, s requires 0 <= s < n => DistanceUses(tokens, s))
  }

  lemma {:induction false} WeightedMore(f: seq<nat>, lengths: seq<nat>, i: nat)
    requires i < |lengths| == |f|
    ensures Weighted(f[i := f[i] + 1], lengths) == Weighted(f, lengths) + lengths[i]
    decreases |lengths|
  {
    var k := |lengths| - 1;
    if i == k {
      assert f[i := f[i] + 1][..k] == f[..k];
    } else {
      assert f[i := f[i] + 1][..k] == f[..k][i := f[i] + 1];
      WeightedMore(f[..k], lengths[..k], i);
    }
  }

  lemma {:induction false} UsesMore(tokens: seq<Token>, t: Token, n: nat, m: nat)
    requires TokenSymbol(t) < n && (t.Copy? ==> DistanceCode(t.dist) < m)
    ensures var f := AllUses(tokens, n); AllUses(tokens + [t], n) == f[TokenSymbol(t) := f[TokenSymbol(t)] + 1]
    ensures var f := AllDistanceUses(tokens, m);
            AllDistanceUses(tokens + [t], m) == if t.Copy? then f[DistanceCode(t.dist) := f[DistanceCode(t.dist)] + 1] else f
  {
    hide TokenSymbol, DistanceCode;
    var more := tokens + [t];
    assert more[..|more| - 1] == tokens && more[|more| - 1] == t;
  }

  lemma {:induction false} TokenSize(ll: seq<nat>, d: seq<nat>, t: Token)
    requires Fits(ll, d, t)
    ensures |TokenBits(ll, d, t)| == ll[TokenSymbol(t)] + if t.Copy? then d[DistanceCode(t.dist)] + LengthExtra(LengthCode(t.len)) + DistanceExtra(DistanceCode(t.dist)) else 0
  {
    hide CodeBits, LowBits, LengthCode, DistanceCode, LengthExtra, DistanceExtra, LengthBase, DistanceBase;
  }

  /** The bits of the tokens: every use of a symbol costs the length of its code. */
  lemma {:induction false} TokensSize(ll: seq<nat>, d: seq<nat>, tokens: seq<Token>)
    requires Sendable(ll, d, tokens)
    ensures |TokensBits(ll, d, tokens)| == Weighted(AllUses(tokens, |ll|), ll) + Weighted(AllDistanceUses(tokens, |d|), d) + ExtraBits(tokens)
    decreases |tokens|
  {
    hide Weighted, TokenBits, TokensBits, AllUses, AllDistanceUses, LengthCode, DistanceCode, LengthExtra, DistanceExtra;
    if tokens == [] {
      NoUses(ll, d);
    } else {
      var front, t := tokens[..|tokens| - 1], tokens[|tokens| - 1];
      assert tokens == front + [t];
      TokensSize(ll, d, front);
      TokensBitsAppend(ll, d, front, t);
      TokenSize(ll, d, t);
      UsesMore(front, t, |ll|, |d|);
      WeightedMore(AllUses(front, |ll|), ll, TokenSymbol(t));
      if t.Copy? { WeightedMore(AllDistanceUses(front, |d|), d, DistanceCode(t.dist)); }
    }
  }

  lemma {:induction false} NoUses(ll: seq<nat>, d: seq<nat>)
    ensures Weighted(AllUses([], |ll|), ll) == 0 && Weighted(AllDistanceUses([], |d|), d) == 0
    ensures Sendable(ll, d, []) && TokensBits(ll, d, []) == []
  {
    WeightedZero(AllUses([], |ll|), ll);
    WeightedZero(AllDistanceUses([], |d|), d);
  }

  /** Symbols that do not occur do not count. */
  lemma {:induction false} WeightedFront(f: seq<nat>, lengths: seq<nat>, n: nat)
    requires n <= |lengths| == |f| && forall i :: n <= i < |f| ==> f[i] == 0
    ensures Weighted(f, lengths) == Weighted(f[..n], lengths[..n])
    decreases |lengths|
  {
    var k := |lengths| - 1;
    if n == |lengths| {
      assert f[..n] == f && lengths[..n] == lengths;
    } else {
      assert f[..k][..n] == f[..n] && lengths[..k][..n] == lengths[..n];
      WeightedFront(f[..k], lengths[..k], n);
    }
  }

  lemma {:induction false} KraftFront(lengths: seq<nat>, n: nat)
    requires n <= |lengths|
    ensures Kraft(lengths[..n]) <= Kraft(lengths)
    decreases |lengths|
  {
    if n == |lengths| {
      assert lengths[..n] == lengths;
    } else {
      assert lengths[..|lengths| - 1][..n] == lengths[..n];
      KraftFront(lengths[..|lengths| - 1], n);
    }
  }

  /** A symbol used by the tokens has a code. */
  lemma {:induction false} UsedHasCode(ll: seq<nat>, d: seq<nat>, tokens: seq<Token>, s: nat)
    requires Sendable(ll, d, tokens)
    ensures Uses(tokens, s) > 0 ==> s < |ll| && ll[s] > 0 && s < 286 && s != 256
    ensures DistanceUses(tokens, s) > 0 ==> s < |d| && d[s] > 0 && s < 30
    decreases |tokens|
  {
    hide LengthCode, DistanceCode;
    if tokens != [] {
      var t := tokens[|tokens| - 1];
      assert Fits(ll, d, t);
      UsedHasCode(ll, d, tokens[..|tokens| - 1], s);
      if t.Copy? { CodesSmall(t.len, t.dist); }
    }
  }

  lemma {:induction false} CodesSmall(len: nat, dist: nat)
    requires 3 <= len <= 258 && 1 <= dist <= 32768
    ensures LengthCode(len) <= 28 && DistanceCode(dist) <= 29
  {}

  // ----- the shortest block -------------------------------------------------------------------

  /** Codes that can send the tokens of b. */
  predicate Codes(b: Block) {
    ValidHeader(b) && Sendable(BlockLL(b), BlockD(b), b.tokens)
  }

  /** The bits b spends on its tokens and its end mark. */
  function Coded(b: Block): (n: nat)
    requires Codes(b)
  {
    LLShape(b);
    |TokensBits(BlockLL(b), BlockD(b), b.tokens)| + |CodeBits(BlockLL(b), 256)|
  }

  /** No block with the same tokens, whatever its codes, spends fewer bits on them. */
  ghost predicate Shortest(b: Block) {
    Codes(b) && forall other: Block | Codes(other) && other.tokens == b.tokens :: Coded(b) <= Coded(other)
  }

  /** The frequencies that a block's codes are made for: the uses of every symbol, and one end mark. */
  ghost predicate FrequenciesOf(tokens: seq<Token>, fll: seq<nat>, fd: seq<nat>) {
    && |fll| == 286 && |fd| == 30 && fll[256] == 1
    && (forall s :: 0 <= s < 286 && s != 256 ==> fll[s] == Uses(tokens, s))
    && (forall s :: 0 <= s < 30 ==> fd[s] == DistanceUses(tokens, s))
  }

  /** The size of a block in terms of the frequencies of its first n literal/length symbols and m distance symbols. */
  lemma {:induction false} CodedSize(b: Block, fll: seq<nat>, fd: seq<nat>, n: nat, m: nat)
    requires Codes(b) && FrequenciesOf(b.tokens, fll, fd) && 257 <= n <= 286 && m <= 30
    requires (forall i :: n <= i < 286 ==> fll[i] == 0) && (forall i :: m <= i < 30 ==> fd[i] == 0)
    ensures |BlockLL(b)| == 288 && |BlockD(b)| == 32
    ensures Coded(b) == Weighted(fll[..n], BlockLL(b)[..n]) + Weighted(fd[..m], BlockD(b)[..m]) + ExtraBits(b.tokens)
    ensures CodeFor(fll[..n], BlockLL(b)[..n], MAX_BITS) && CodeFor(fd[..m], BlockD(b)[..m], MAX_BITS)
  {
    hide Weighted, Kraft, TokensBits, ValidHeader, Sendable, BlockLL, BlockD, Uses, DistanceUses, ExtraBits;
    LLShape(b);
    var ll, d := BlockLL(b), BlockD(b);
    TokensSize(ll, d, b.tokens);
    var f, g := AllUses(b.tokens, 288), AllDistanceUses(b.tokens, 32);
    forall s: nat ensures Uses(b.tokens, s) > 0 ==> s < |ll| && ll[s] > 0 && s < 286 && s != 256
                  ensures DistanceUses(b.tokens, s) > 0 ==> s < |d| && d[s] > 0 && s < 30
    {
      UsedHasCode(ll, d, b.tokens, s);
    }
    assert f[256] == 0;
    var f' := f[256 := f[256] + 1];
    WeightedMore(f, ll, 256);
    WeightedFront(f', ll, n);
    WeightedFront(g, d, m);
    assert f'[..n] == fll[..n] && g[..m] == fd[..m];
    KraftFront(ll, n);
    KraftFront(d, m);
  }

  /** Codes that are best for the frequencies of the tokens make the shortest block. */
  lemma {:induction false} BestCodes(b: Block, fll: seq<nat>, fd: seq<nat>)
    requires Codes(b) && b.Dynamic? && |b.ll| <= 286 && |b.d| <= 30 && FrequenciesOf(b.tokens, fll, fd)
    requires forall i :: 0 <= i < 286 && fll[i] > 0 ==> i < |b.ll|
    requires forall i :: 0 <= i < 30 && fd[i] > 0 ==> i < |b.d|
    requires Optimal(fll[..|b.ll|], b.ll, MAX_BITS) && Optimal(fd[..|b.d|], b.d, MAX_BITS)
    ensures Shortest(b)
  {
    hide Weighted, Kraft, CodeFor, Sendable, Coded, FrequenciesOf;
    var n, m := |b.ll|, |b.d|;
    assert |fll| == 286 && |fd| == 30 by { FrequencySizes(b.tokens, fll, fd); }
    CodedSize(b, fll, fd, n, m);
    assert BlockLL(b)[..n] == b.ll && BlockD(b)[..m] == b.d;
    forall other: Block | Codes(other) && other.tokens == b.tokens ensures Coded(b) <= Coded(other) {
      CodedSize(other, fll, fd, n, m);
    }
  }

  lemma {:induction false} FrequencySizes(tokens: seq<Token>, fll: seq<nat>, fd: seq<nat>)
    requires FrequenciesOf(tokens, fll, fd)
    ensures |fll| == 286 && |fd| == 30
  {}
}
