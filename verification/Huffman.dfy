/** Canonical Huffman codes as defined by RFC 1951, section 3.2.2, from code lengths alone.

    A code of length l occupies 2^(15-l) of the 2^15 values of a 15-bit window; canonical codes lay
    these intervals end to end in order of (length, symbol). All the facts about prefixes follow from
    that picture. */
module Huffman {
  import opened Bits

  const MAX_BITS: nat := 15

  predicate ValidLengths(lengths: seq<nat>) {
    forall i :: 0 <= i < |lengths| ==> lengths[i] <= MAX_BITS
  }

  // ----- RFC 1951, section 3.2.2 --------------------------------------------------------------

  /** Step 1: the number of codes of length `len`. */
  function Count(lengths: seq<nat>, len: nat): (c: nat)
  {
    if lengths == [] then 0
    else Count(lengths[..|lengths| - 1], len) + (if lengths[|lengths| - 1] == len then 1 else 0)
  }

  /** Step 2: the smallest code of length `len`, the count of length 0 being taken as 0. */
  function NextCode(lengths: seq<nat>, len: nat): (c: nat)
  {
    if len <= 1 then 0 else 2 * (NextCode(lengths, len - 1) + Count(lengths, len - 1))
  }

  /** Step 3: consecutive values for the symbols of one length. */
  function Code(lengths: seq<nat>, n: nat): (c: nat)
    requires n < |lengths|
  {
    NextCode(lengths, lengths[n]) + Count(lengths[..n], lengths[n])
  }

  /** The bits sent for symbol `n`, first bit first. */
  function CodeBits(lengths: seq<nat>, n: nat): (b: seq<bool>)
    requires n < |lengths|
    ensures |b| == lengths[n]
  {
    HighFirst(Code(lengths, n), lengths[n])
  }

  /** Symbol `n` is present and its code starts the bit sequence `w`. */
  predicate Match(lengths: seq<nat>, n: nat, w: seq<bool>) {
    n < |lengths| && 0 < lengths[n] <= |w| && w[..lengths[n]] == CodeBits(lengths, n)
  }

  datatype Option<+T> = None | Some(value: T)

  /** Prefix decoding, the plain way: the first symbol from `n` on whose code starts `w`. */
  function DecodeFrom(lengths: seq<nat>, w: seq<bool>, n: nat): (r: Option<nat>)
    requires n <= |lengths|
    ensures r.Some? ==> Match(lengths, r.value, w)
    ensures r.None? ==> forall m :: n <= m ==> !Match(lengths, m, w)
    decreases |lengths| - n
  {
    if n == |lengths| then None
    else if Match(lengths, n, w) then Some(n)
    else DecodeFrom(lengths, w, n + 1)
  }

  function Decode(lengths: seq<nat>, w: seq<bool>): (r: Option<nat>)
    ensures r.Some? ==> Match(lengths, r.value, w)
    ensures r.None? ==> forall m :: !Match(lengths, m, w)
  {
    DecodeFrom(lengths, w, 0)
  }

  // ----- the space taken by codes, in units of 2^-15 ------------------------------------------

  /** Space taken by the codes shorter than `len`. */
  function Space(lengths: seq<nat>, len: nat): (s: nat)
  {
    if lengths == [] then 0
    else
      var l := lengths[|lengths| - 1];
      Space(lengths[..|lengths| - 1], len) + (if 0 < l < len && l <= MAX_BITS then Pow2(MAX_BITS - l) else 0)
  }

  /** The Kraft sum, scaled by 2^15: a code is complete when it equals 2^15. */
  function Kraft(lengths: seq<nat>): (s: nat)
  {
    Space(lengths, MAX_BITS + 1)
  }

  const FULL: nat := 32768

  predicate Complete(lengths: seq<nat>) {
    Kraft(lengths) == FULL
  }

  /** Number of symbols that have a code. */
  function Present(lengths: seq<nat>): (c: nat)
  {
    if lengths == [] then 0
    else Present(lengths[..|lengths| - 1]) + (if lengths[|lengths| - 1] > 0 then 1 else 0)
  }

  lemma {:induction false} FullIsPow2()
    ensures Pow2(MAX_BITS) == FULL
  {
    assert Pow2(4) == 16 && Pow2(8) == 256;
    assert Pow2(12) == 16 * Pow2(8);
    assert Pow2(15) == 8 * Pow2(12);
  }

  lemma {:induction false} SpaceStep(lengths: seq<nat>, len: nat)
    requires 1 <= len <= MAX_BITS
    ensures Space(lengths, len + 1) == Space(lengths, len) + Shl(Count(lengths, len), MAX_BITS - len)
  {
    if lengths == [] {
      ShlZero(MAX_BITS - len);
    } else {
      var rest := lengths[..|lengths| - 1];
      SpaceStep(rest, len);
      ShlAdd(Count(rest, len), 1, MAX_BITS - len);
      Pow2Shl(0, MAX_BITS - len);
    }
  }

  lemma {:induction false} SpaceMono(lengths: seq<nat>, a: nat, b: nat)
    requires a <= b
    ensures Space(lengths, a) <= Space(lengths, b)
  {
    if lengths != [] { SpaceMono(lengths[..|lengths| - 1], a, b); }
  }

  lemma {:induction false} SpaceOne(lengths: seq<nat>)
    ensures Space(lengths, 1) == 0
  {
    if lengths != [] { SpaceOne(lengths[..|lengths| - 1]); }
  }

  /** The first code of each length starts where the shorter codes end. */
  lemma {:induction false} NextCodeSpace(lengths: seq<nat>, len: nat)
    requires 1 <= len <= MAX_BITS
    ensures Shl(NextCode(lengths, len), MAX_BITS - len) == Space(lengths, len)
  {
    if len == 1 {
      SpaceOne(lengths);
      ShlZero(MAX_BITS - 1);
    } else {
      NextCodeSpace(lengths, len - 1);
      SpaceStep(lengths, len - 1);
      var x := NextCode(lengths, len - 1) + Count(lengths, len - 1);
      ShlAdd(NextCode(lengths, len - 1), Count(lengths, len - 1), MAX_BITS - (len - 1));
      ShlShl(x, 1, MAX_BITS - len);
      assert Shl(x, 1) == 2 * Shl(x, 0);
    }
  }

  lemma {:induction false} CountPrefix(lengths: seq<nat>, n: nat, k: nat, len: nat)
    requires n <= k <= |lengths|
    ensures Count(lengths[..n], len) <= Count(lengths[..k], len)
    ensures n < k && lengths[n] == len ==> Count(lengths[..n], len) + 1 <= Count(lengths[..k], len)
    decreases k
  {
    if n < k {
      assert lengths[..k][..k - 1] == lengths[..k - 1];
      CountPrefix(lengths, n, k - 1, len);
    }
  }

  /** Where the interval of symbol `n` starts. */
  function Start(lengths: seq<nat>, n: nat): (s: nat)
    requires n < |lengths| && lengths[n] <= MAX_BITS
  {
    Shl(Code(lengths, n), MAX_BITS - lengths[n])
  }

  lemma {:induction false} StartIs(lengths: seq<nat>, n: nat)
    requires n < |lengths| && 0 < lengths[n] <= MAX_BITS
    ensures Start(lengths, n) == Space(lengths, lengths[n])
                                 + Shl(Count(lengths[..n], lengths[n]), MAX_BITS - lengths[n])
  {
    NextCodeSpace(lengths, lengths[n]);
    ShlAdd(NextCode(lengths, lengths[n]), Count(lengths[..n], lengths[n]), MAX_BITS - lengths[n]);
  }

  /** An interval ends before the codes of its own length do. */
  lemma {:induction false} EndWithin(lengths: seq<nat>, n: nat)
    requires n < |lengths| && 0 < lengths[n] <= MAX_BITS
    ensures Start(lengths, n) + Pow2(MAX_BITS - lengths[n]) <= Space(lengths, lengths[n] + 1) <= Kraft(lengths)
  {
    var l := lengths[n];
    StartIs(lengths, n);
    SpaceStep(lengths, l);
    assert lengths[..|lengths|] == lengths;
    CountPrefix(lengths, n, |lengths|, l);
    ShlMono(Count(lengths[..n], l), Count(lengths, l), MAX_BITS - l);
    SpaceMono(lengths, l + 1, MAX_BITS + 1);
  }

  /** Canonical order. */
  predicate Before(lengths: seq<nat>, m: nat, n: nat)
    requires m < |lengths| && n < |lengths|
  {
    lengths[m] < lengths[n] || (lengths[m] == lengths[n] && m < n)
  }

  lemma {:induction false} IntervalsInOrder(lengths: seq<nat>, m: nat, n: nat)
    requires m < |lengths| && 0 < lengths[m] <= MAX_BITS
    requires n < |lengths| && 0 < lengths[n] <= MAX_BITS
    requires Before(lengths, m, n)
    ensures Start(lengths, m) + Pow2(MAX_BITS - lengths[m]) <= Start(lengths, n)
  {
    StartIs(lengths, n);
    if lengths[m] < lengths[n] {
      EndWithin(lengths, m);
      SpaceMono(lengths, lengths[m] + 1, lengths[n]);
    } else {
      StartIs(lengths, m);
      CountPrefix(lengths, m, n, lengths[n]);
      ShlMono(Count(lengths[..m], lengths[n]), Count(lengths[..n], lengths[n]), MAX_BITS - lengths[n]);
    }
  }

  // ----- prefix-freeness ----------------------------------------------------------------------

  /** With a Kraft sum of at most 1 every code fits its length. */
  lemma {:induction false} CodeFits(lengths: seq<nat>, n: nat)
    requires n < |lengths| && 0 < lengths[n] <= MAX_BITS && Kraft(lengths) <= FULL
    ensures Code(lengths, n) < Pow2(lengths[n])
  {
    var l := lengths[n];
    EndWithin(lengths, n);
    FullIsPow2();
    Pow2Shl(l, MAX_BITS - l);
    if Code(lengths, n) >= Pow2(l) {
      ShlMono(Pow2(l), Code(lengths, n), MAX_BITS - l);
      assert false;
    }
  }

  /** A code that is a prefix of another one covers its interval. */
  lemma {:induction false} PrefixCovers(lengths: seq<nat>, m: nat, n: nat)
    requires m < |lengths| && 0 < lengths[m] <= MAX_BITS
    requires n < |lengths| && 0 < lengths[n] <= MAX_BITS
    requires lengths[m] <= lengths[n] && Kraft(lengths) <= FULL
    requires CodeBits(lengths, n)[..lengths[m]] == CodeBits(lengths, m)
    ensures Start(lengths, m) <= Start(lengths, n) < Start(lengths, m) + Pow2(MAX_BITS - lengths[m])
  {
    hide HighFirst, Shl, Shr, Pow2, Code, Kraft;
    var a, b := lengths[m], lengths[n];
    var x, y := Code(lengths, m), Code(lengths, n);
    CodeFits(lengths, m);
    CodeFits(lengths, n);
    HighFirstPrefix(y, a, b - a);
    ShrBound(y, b - a, a);
    HighFirstInjective(Shr(y, b - a), x, a);
    ShiftedPrefix(x, y, b - a, MAX_BITS - b);
  }

  lemma {:induction false} ShiftedPrefix(x: nat, y: nat, d: nat, r: nat)
    requires Shr(y, d) == x
    ensures Shl(x, d + r) <= Shl(y, r) < Shl(x, d + r) + Pow2(d + r)
  {
    var low := Low(y, d);
    Split(y, d);
    LowBound(y, d);
    ShlAdd(low, Shl(x, d), r);
    ShlShl(x, d, r);
    ShlMono(low, Pow2(d), r);
    Pow2Shl(d, r);
  }

  /** No two symbols of a code with Kraft sum at most 1 can start the same bits. */
  lemma {:induction false} PrefixFree(lengths: seq<nat>, m: nat, n: nat, w: seq<bool>)
    requires ValidLengths(lengths) && Kraft(lengths) <= FULL
    requires Match(lengths, m, w) && Match(lengths, n, w)
    ensures m == n
  {
    if m != n {
      var a, b := if lengths[m] <= lengths[n] then m else n, if lengths[m] <= lengths[n] then n else m;
      assert CodeBits(lengths, b)[..lengths[a]] == w[..lengths[b]][..lengths[a]] == w[..lengths[a]];
      PrefixCovers(lengths, a, b);
      if Before(lengths, a, b) {
        IntervalsInOrder(lengths, a, b);
      } else {
        IntervalsInOrder(lengths, b, a);
      }
      assert false;
    }
  }

  /** Decoding returns the one symbol that matches. */
  lemma {:induction false} DecodeMatch(lengths: seq<nat>, n: nat, w: seq<bool>)
    requires ValidLengths(lengths) && Kraft(lengths) <= FULL && Match(lengths, n, w)
    ensures Decode(lengths, w) == Some(n)
  {
    var r := Decode(lengths, w);
    assert r.Some?;
    PrefixFree(lengths, r.value, n, w);
  }

  // ----- completeness -------------------------------------------------------------------------

  /** The number whose most-significant-first bits are `w`. */
  function HighVal(w: seq<bool>): (v: nat)
  {
    if w == [] then 0 else 2 * HighVal(w[..|w| - 1]) + BitVal(w[|w| - 1])
  }

  lemma {:induction false} HighValBits(w: seq<bool>)
    ensures HighVal(w) < Pow2(|w|) && HighFirst(HighVal(w), |w|) == w
  {
    if w != [] { HighValBits(w[..|w| - 1]); }
  }

  /** The k-th symbol of a given length. */
  lemma {:induction false} SymbolOfRank(lengths: seq<nat>, len: nat, k: nat) returns (n: nat)
    requires k < Count(lengths, len)
    ensures n < |lengths| && lengths[n] == len && Count(lengths[..n], len) == k
  {
    var rest := lengths[..|lengths| - 1];
    if k < Count(rest, len) {
      n := SymbolOfRank(rest, len, k);
      assert rest[..n] == lengths[..n];
    } else {
      n := |lengths| - 1;
    }
  }

  /** Every point below the Kraft sum lies in the interval of some symbol of length at most `len`. */
  lemma {:induction false} SymbolCovering(lengths: seq<nat>, len: nat, v: nat) returns (n: nat)
    requires len <= MAX_BITS && v < Space(lengths, len + 1)
    ensures n < |lengths| && 0 < lengths[n] <= len
    ensures Start(lengths, n) <= v < Start(lengths, n) + Pow2(MAX_BITS - lengths[n])
  {
    if len == 0 {
      SpaceOne(lengths);
      assert false;
    }
    if v < Space(lengths, len) {
      n := SymbolCovering(lengths, len - 1, v);
    } else {
      SpaceStep(lengths, len);
      var off, sh := v - Space(lengths, len), MAX_BITS - len;
      var k := Shr(off, sh);
      Split(off, sh);
      LowBound(off, sh);
      if Count(lengths, len) <= k { ShlMono(Count(lengths, len), k, sh); assert false; }
      n := SymbolOfRank(lengths, len, k);
      StartIs(lengths, n);
    }
  }

  /** A 15-bit window whose value lies in the interval of `n` starts with the code of `n`. */
  lemma {:induction false} InIntervalMatches(lengths: seq<nat>, n: nat, w: seq<bool>)
    requires n < |lengths| && 0 < lengths[n] <= MAX_BITS && |w| == MAX_BITS
    requires Start(lengths, n) <= HighVal(w) < Start(lengths, n) + Pow2(MAX_BITS - lengths[n])
    ensures Match(lengths, n, w)
  {
    hide HighFirst, HighVal, Code, Pow2, Shl, Shr;
    var v, l := HighVal(w), lengths[n];
    HighValBits(w);
    HighFirstPrefix(v, l, MAX_BITS - l);
    Join(v - Start(lengths, n), Code(lengths, n), MAX_BITS - l);
  }

  /** A complete code decodes every window. */
  lemma {:induction false} CompleteDecodes(lengths: seq<nat>, w: seq<bool>) returns (n: nat)
    requires Complete(lengths) && |w| == MAX_BITS
    ensures Match(lengths, n, w)
  {
    HighValBits(w);
    FullIsPow2();
    n := SymbolCovering(lengths, MAX_BITS, HighVal(w));
    InIntervalMatches(lengths, n, w);
  }

  /** An incomplete code leaves the all-ones window undecoded. */
  lemma {:induction false} IncompleteStuck(lengths: seq<nat>, n: nat, w: seq<bool>)
    requires ValidLengths(lengths) && Kraft(lengths) < FULL
    requires |w| == MAX_BITS && HighVal(w) == FULL - 1
    ensures !Match(lengths, n, w)
  {
    if Match(lengths, n, w) {
      var l := lengths[n];
      HighValBits(w);
      CodeFits(lengths, n);
      EndWithin(lengths, n);
      FullIsPow2();
      var v := HighVal(w);
      HighFirstPrefix(v, l, MAX_BITS - l);
      ShrBound(v, MAX_BITS - l, l);
      HighFirstInjective(Shr(v, MAX_BITS - l), Code(lengths, n), l);
      Split(v, MAX_BITS - l);
      LowBound(v, MAX_BITS - l);
      assert false;
    }
  }

  /** An over-full code gives two different symbols the all-zero bits, the first of them the first in
      canonical order. */
  lemma {:induction false} OverfullCollides(lengths: seq<nat>) returns (f: nat, n: nat)
    requires ValidLengths(lengths) && FULL < Kraft(lengths)
    ensures f < |lengths| && 0 < lengths[f] && Code(lengths, f) == 0 && Space(lengths, lengths[f]) == 0
    ensures n < |lengths| && 0 < lengths[n] && Code(lengths, n) == Pow2(lengths[n]) && f != n
  {
    f := SymbolCovering(lengths, MAX_BITS, 0);
    StartIs(lengths, f);
    if Code(lengths, f) > 0 { ShlMono(0, Code(lengths, f), MAX_BITS - lengths[f]); assert false; }
    n := SymbolCovering(lengths, MAX_BITS, FULL);
    var l, c := lengths[n], Code(lengths, n);
    FullIsPow2();
    Pow2Shl(l, MAX_BITS - l);
    if c < Pow2(l) { ShlMono(c, Pow2(l), MAX_BITS - l); assert false; }
    if Pow2(l) < c { ShlMono(Pow2(l), c, MAX_BITS - l); assert false; }
  }

  /** Without codes shorter than ten bits, 288 symbols cannot fill the space. */
  lemma {:induction false} LongCodesAreSmall(lengths: seq<nat>)
    requires ValidLengths(lengths) && Space(lengths, 10) == 0
    ensures Kraft(lengths) <= 32 * |lengths|
  {
    if lengths != [] {
      var rest, l := lengths[..|lengths| - 1], lengths[|lengths| - 1];
      LongCodesAreSmall(rest);
      if 0 < l { Pow2Mono(MAX_BITS - l, 5); assert Pow2(5) == 32; }
    }
  }
}
