/** The Huffman tree of the decoder and encoder: codes built from lengths, and the two-level lookup
    table (nine root bits, then a secondary table per long prefix) that decodes them. */
module HuffmanTable {
  import opened Bits
  import opened BitIO
  import opened Huffman

  const FIRSTBITS: nat := 9
  const HEADSIZE: nat := 512
  const INVALIDSYMBOL: nat := 65535
  const UNUSED: nat := 16
  const MAX_SYMBOLS: nat := 288

  // ----- codes --------------------------------------------------------------------------------

  lemma {:induction false} HighFirstLow(v: nat, n: nat)
    ensures HighFirst(Low(v, n), n) == HighFirst(v, n)
    decreases n
  {
    if n > 0 {
      LowHalf(v, n);
      HighFirstLow(v / 2, n - 1);
    }
  }

  lemma {:induction false} LowHalf(v: nat, n: nat)
    requires 0 < n
    ensures Low(v, n) / 2 == Low(v / 2, n - 1) && Low(v, n) % 2 == v % 2
  {}

  /** A multiple of 2^n does not reach the low n bits. */
  lemma {:induction false} LowAddShl(v: nat, z: nat, n: nat)
    ensures Low(v + Shl(z, n), n) == Low(v, n)
  {
    LowBound(v, n);
    Split(v, n);
    ShlAdd(Shr(v, n), z, n);
    Join(Low(v, n), Shr(v, n) + z, n);
  }

  /** The code array of a tree: the canonical codes, masked to their lengths. */
  ghost predicate CodesOk(lengths: seq<nat>, codes: seq<nat>) {
    && |codes| == |lengths|
    && forall n :: 0 <= n < |lengths| && lengths[n] > 0 ==> codes[n] == Low(Code(lengths, n), lengths[n])
  }

  /** Counting, first codes and numbering as in RFC 1951, section 3.2.2, except that the count of
      absent symbols is left in place: it only adds multiples of 2^length, which the mask removes. */
  method MakeCodes(lengths: seq<nat>, maxbitlen: nat) returns (codes: seq<nat>)
    requires forall i :: 0 <= i < |lengths| ==> lengths[i] <= maxbitlen
    ensures CodesOk(lengths, codes)
  {
    hide Low, Shl, Count, NextCode;
    var blcount := CountLengths(lengths, maxbitlen);
    var nextcode := FirstCodes(lengths, maxbitlen, blcount);
    ghost var z := Count(lengths, 0);
    codes := seq(|lengths|, _ => 0);
    var n := 0;
    forall l | 1 <= l <= maxbitlen ensures Count(lengths[..0], l) == 0 { CountNone(lengths, l); }
    while n != |lengths|
      invariant 0 <= n <= |lengths| && |codes| == |lengths| && |nextcode| == maxbitlen + 1
      invariant forall l :: 1 <= l <= maxbitlen ==>
                  nextcode[l] == NextCode(lengths, l) + Shl(z, l) + Count(lengths[..n], l)
      invariant forall i :: 0 <= i < n && lengths[i] > 0 ==> codes[i] == Low(Code(lengths, i), lengths[i])
    {
      var l := lengths[n];
      forall k | 1 <= k <= maxbitlen
        ensures Count(lengths[..n + 1], k) == Count(lengths[..n], k) + if k == l then 1 else 0
      {
        CountNext(lengths, n, k);
      }
      if l != 0 {
        LowAddShl(Code(lengths, n), z, l);
        codes := codes[n := Low(nextcode[l], l)];
        nextcode := nextcode[l := nextcode[l] + 1];
      }
      n := n + 1;
    }
  }

  lemma {:induction false} CountNone(lengths: seq<nat>, l: nat)
    ensures Count(lengths[..0], l) == 0
  {}

  lemma {:induction false} CountNext(lengths: seq<nat>, n: nat, l: nat)
    requires n < |lengths|
    ensures Count(lengths[..n + 1], l) == Count(lengths[..n], l) + if l == lengths[n] then 1 else 0
  {
    assert lengths[..n + 1][..n] == lengths[..n];
  }

  method CountLengths(lengths: seq<nat>, maxbitlen: nat) returns (blcount: seq<nat>)
    requires forall i :: 0 <= i < |lengths| ==> lengths[i] <= maxbitlen
    ensures |blcount| == maxbitlen + 1
    ensures forall l :: 0 <= l <= maxbitlen ==> blcount[l] == Count(lengths, l)
  {
    blcount := seq(maxbitlen + 1, _ => 0);
    var i := 0;
    while i != |lengths|
      invariant 0 <= i <= |lengths| && |blcount| == maxbitlen + 1
      invariant forall l :: 0 <= l <= maxbitlen ==> blcount[l] == Count(lengths[..i], l)
    {
      assert lengths[..i + 1][..i] == lengths[..i];
      blcount := blcount[lengths[i] := blcount[lengths[i]] + 1];
      i := i + 1;
    }
    assert lengths[..i] == lengths;
  }

  method FirstCodes(lengths: seq<nat>, maxbitlen: nat, blcount: seq<nat>) returns (nextcode: seq<nat>)
    requires |blcount| == maxbitlen + 1
    requires forall l :: 0 <= l <= maxbitlen ==> blcount[l] == Count(lengths, l)
    ensures |nextcode| == maxbitlen + 1
    ensures forall l :: 1 <= l <= maxbitlen ==> nextcode[l] == NextCode(lengths, l) + Shl(Count(lengths, 0), l)
  {
    nextcode := seq(maxbitlen + 1, _ => 0);
    var bits := 1;
    while bits <= maxbitlen
      invariant 1 <= bits <= maxbitlen + 1 && |nextcode| == maxbitlen + 1 && nextcode[0] == 0
      invariant forall l :: 1 <= l < bits ==> nextcode[l] == NextCode(lengths, l) + Shl(Count(lengths, 0), l)
    {
      nextcode := nextcode[bits := 2 * (nextcode[bits - 1] + blcount[bits - 1])];
      assert Shl(Count(lengths, 0), bits) == 2 * Shl(Count(lengths, 0), bits - 1);
      bits := bits + 1;
    }
  }

  // ----- codes as the reader sees them --------------------------------------------------------

  /** The code of symbol `n` read least significant bit first, as the bit reader delivers it. */
  function Rev(lengths: seq<nat>, n: nat): (r: nat)
    requires n < |lengths|
    ensures r < Pow2(lengths[n])
  {
    ValBound(CodeBits(lengths, n));
    Val(CodeBits(lengths, n))
  }

  /** The buffer value `x` starts with the code of symbol `n`. */
  predicate Hits(lengths: seq<nat>, n: nat, x: nat) {
    n < |lengths| && lengths[n] > 0 && Low(x, lengths[n]) == Rev(lengths, n)
  }

  lemma {:induction false} HitsMatch(lengths: seq<nat>, n: nat, w: seq<bool>)
    requires n < |lengths| && lengths[n] <= |w|
    ensures Match(lengths, n, w) <==> Hits(lengths, n, Val(w))
  {
    hide CodeBits, Val, Low;
    var l := lengths[n];
    assert w == w[..l] + w[l..];
    ValSplit(w[..l], w[l..]);
    if Val(w[..l]) == Val(CodeBits(lengths, n)) { ValInjective(w[..l], CodeBits(lengths, n)); }
  }

  /** Whether a symbol hits depends only on as many low bits as its code has. */
  lemma {:induction false} HitsLow(lengths: seq<nat>, n: nat, x: nat, y: nat, k: nat)
    requires n < |lengths| && lengths[n] <= k && Low(x, k) == Low(y, k)
    ensures Hits(lengths, n, x) <==> Hits(lengths, n, y)
  {
    LowLow(x, k, lengths[n]);
    LowLow(y, k, lengths[n]);
  }

  /** Two symbols of a code with Kraft sum at most 1 never hit the same value. */
  lemma {:induction false} HitsUnique(lengths: seq<nat>, m: nat, n: nat, x: nat)
    requires ValidLengths(lengths) && Kraft(lengths) <= FULL
    requires Hits(lengths, m, x) && Hits(lengths, n, x)
    ensures m == n
  {
    hide Hits, Match, Kraft, LowBits, Low;
    var w := LowBits(x, MAX_BITS);
    ValLowBits(x, MAX_BITS);
    assert lengths[m] <= MAX_BITS && lengths[n] <= MAX_BITS by { HitsInRange(lengths, m, x); HitsInRange(lengths, n, x); }
    LowLow(x, MAX_BITS, MAX_BITS);
    HitsLow(lengths, m, x, Val(w), MAX_BITS);
    HitsLow(lengths, n, x, Val(w), MAX_BITS);
    HitsMatch(lengths, m, w);
    HitsMatch(lengths, n, w);
    PrefixFree(lengths, m, n, w);
  }

  lemma {:induction false} HitsInRange(lengths: seq<nat>, n: nat, x: nat)
    requires Hits(lengths, n, x)
    ensures n < |lengths| && lengths[n] > 0
  {}

  /** A symbol hits its own code. */
  lemma {:induction false} HitsOwn(lengths: seq<nat>, n: nat)
    requires n < |lengths| && lengths[n] > 0
    ensures Hits(lengths, n, Rev(lengths, n))
  {
    LowId(Rev(lengths, n), lengths[n]);
  }

  /** In a complete code some symbol hits every value. */
  lemma {:induction false} CompleteHits(lengths: seq<nat>, x: nat) returns (n: nat)
    requires ValidLengths(lengths) && Complete(lengths)
    ensures Hits(lengths, n, x)
  {
    hide Hits, Complete, LowBits, Low;
    var w := LowBits(x, MAX_BITS);
    ValLowBits(x, MAX_BITS);
    n := CompleteDecodes(lengths, w);
    LowLow(x, MAX_BITS, MAX_BITS);
    HitsLow(lengths, n, x, Val(w), MAX_BITS);
    HitsMatch(lengths, n, w);
  }

  lemma {:induction false} AllOnes(n: nat, k: nat)
    requires k <= n
    ensures Low(Pow2(n) - 1, k) == Pow2(k) - 1
    decreases n
  {
    if k > 0 {
      var h := Pow2(n - 1);
      assert (2 * h - 1) / 2 == h - 1 && (2 * h - 1) % 2 == 1;
      AllOnes(n - 1, k - 1);
      assert Low(2 * h - 1, k) == 1 + 2 * Low(h - 1, k - 1);
    }
  }

  lemma {:induction false} AllOnesBits(n: nat)
    ensures HighVal(LowBits(Pow2(n) - 1, n)) == Pow2(n) - 1
    decreases n
  {
    var w := LowBits(Pow2(n) - 1, n);
    forall i | 0 <= i < n ensures w[i] {
      LowBitsAt(Pow2(n) - 1, n, i);
      OnesShr(n, i);
    }
    OnesHigh(w);
  }

  lemma {:induction false} OnesShr(n: nat, i: nat)
    requires i < n
    ensures Shr(Pow2(n) - 1, i) == Pow2(n - i) - 1
    decreases i
  {
    if i > 0 {
      assert (Pow2(n) - 1) / 2 == Pow2(n - 1) - 1;
      OnesShr(n - 1, i - 1);
    }
  }

  lemma {:induction false} OnesHigh(w: seq<bool>)
    requires forall i :: 0 <= i < |w| ==> w[i]
    ensures HighVal(w) == Pow2(|w|) - 1
  {
    if w != [] { OnesHigh(w[..|w| - 1]); }
  }

  /** An incomplete code has no symbol for the all-ones value. */
  lemma {:induction false} IncompleteMisses(lengths: seq<nat>, n: nat, k: nat)
    requires ValidLengths(lengths) && Kraft(lengths) < FULL
    requires n < |lengths| && lengths[n] <= k
    ensures !Hits(lengths, n, Pow2(k) - 1)
  {
    hide Match, Kraft, LowBits, HighVal;
    var w := LowBits(Pow2(MAX_BITS) - 1, MAX_BITS);
    AllOnesBits(MAX_BITS);
    FullIsPow2();
    IncompleteStuck(lengths, n, w);
    HitsMatch(lengths, n, w);
    ValLowBits(Pow2(MAX_BITS) - 1, MAX_BITS);
    AllOnes(MAX_BITS, MAX_BITS);
    AllOnes(MAX_BITS, lengths[n]);
    AllOnes(k, lengths[n]);
  }

  // ----- the first table and the layout of the secondary tables -------------------------------

  /** Symbol `n` has a long code whose first nine bits are `i`. */
  predicate LongAt(lengths: seq<nat>, n: nat, i: nat) {
    n < |lengths| && lengths[n] > FIRSTBITS && Low(Rev(lengths, n), FIRSTBITS) == i
  }

  /** `maxlens[i]` is the greatest length of the long codes below `k` with prefix `i`, or 0. */
  ghost predicate MaxLens(lengths: seq<nat>, maxlens: seq<nat>, k: nat) {
    && |maxlens| == HEADSIZE
    && (forall i: nat :: 0 <= i < HEADSIZE ==>
          maxlens[i] == 0 || exists n: nat :: n < k && LongAt(lengths, n, i) && lengths[n] == maxlens[i])
    && (forall n: nat, i: nat :: n < k && LongAt(lengths, n, i) && i < HEADSIZE ==> lengths[n] <= maxlens[i])
  }

  lemma {:induction false} PrefixIndex(lengths: seq<nat>, codes: seq<nat>, n: nat)
    requires CodesOk(lengths, codes) && n < |lengths| && lengths[n] > FIRSTBITS
    ensures Val(HighFirst(Shr(codes[n], lengths[n] - FIRSTBITS), FIRSTBITS)) == Low(Rev(lengths, n), FIRSTBITS)
    ensures Low(Rev(lengths, n), FIRSTBITS) < HEADSIZE
  {
    hide Val, HighFirst, Low, Shr;
    var l := lengths[n];
    HighFirstLow(Code(lengths, n), l);
    HighFirstPrefix(codes[n], FIRSTBITS, l - FIRSTBITS);
    var w := CodeBits(lengths, n);
    assert w == HighFirst(codes[n], l);
    assert w == w[..FIRSTBITS] + w[FIRSTBITS..];
    ValSplit(w[..FIRSTBITS], w[FIRSTBITS..]);
    LowBound(Rev(lengths, n), FIRSTBITS);
    NineBits(0);
  }

  method ReverseBits(bits: nat, num: nat) returns (result: nat)
    ensures result == Val(HighFirst(bits, num))
  {
    hide Or, HighFirst, Shl;
    result := 0;
    var w := HighFirst(bits, num);
    var i := 0;
    while i < num
      invariant 0 <= i <= num && result == Val(w[..i])
    {
      HighFirstAt(bits, num, i);
      assert w[..i + 1] == w[..i] + [w[i]];
      ValAppend(w[..i], [w[i]]);
      assert [w[i]][1..] == [];
      ValBound(w[..i]);
      OrDisjoint(result, Shr(bits, num - i - 1) % 2, i);
      result := Or(result, Shl(Shr(bits, num - i - 1) % 2, i));
      i := i + 1;
    }
    assert w[..num] == w;
  }

  lemma {:induction false} MaxLensStep(lengths: seq<nat>, maxlens: seq<nat>, n: nat, maxlens': seq<nat>, i: nat)
    requires MaxLens(lengths, maxlens, n) && n < |lengths|
    requires i < HEADSIZE && (lengths[n] > FIRSTBITS ==> LongAt(lengths, n, i))
    requires maxlens' == if lengths[n] <= FIRSTBITS then maxlens
                         else maxlens[i := if maxlens[i] > lengths[n] then maxlens[i] else lengths[n]]
    ensures MaxLens(lengths, maxlens', n + 1)
  {
    hide Rev, Low;
    forall j: nat | 0 <= j < HEADSIZE
      ensures maxlens'[j] == 0 || exists q: nat :: q < n + 1 && LongAt(lengths, q, j) && lengths[q] == maxlens'[j]
    {
      if maxlens'[j] != 0 {
        if maxlens'[j] == maxlens[j] {
          var q: nat :| q < n && LongAt(lengths, q, j) && lengths[q] == maxlens[j];
          assert q < n + 1 && LongAt(lengths, q, j);
        } else {
          assert j == i && n < n + 1 && LongAt(lengths, n, j) && lengths[n] == maxlens'[j];
        }
      }
    }
    forall q: nat, j: nat | q < n + 1 && LongAt(lengths, q, j) && j < HEADSIZE
      ensures lengths[q] <= maxlens'[j]
    {
      if q < n { assert lengths[q] <= maxlens[j]; } else { assert j == i; }
    }
  }

  method ComputeMaxLens(lengths: seq<nat>, codes: seq<nat>) returns (maxlens: seq<nat>)
    requires CodesOk(lengths, codes)
    ensures MaxLens(lengths, maxlens, |lengths|)
  {
    hide Rev, HighFirst, Low, Shr, CodesOk, MaxLens;
    maxlens := seq(HEADSIZE, _ => 0);
    assert MaxLens(lengths, maxlens, 0) by { NoMaxLens(lengths, maxlens); }
    assert |codes| == |lengths| by { CodesSize(lengths, codes); }
    var i := 0;
    while i < |lengths|
      invariant 0 <= i <= |lengths| && |maxlens| == HEADSIZE && MaxLens(lengths, maxlens, i)
    {
      var l := lengths[i];
      if l <= FIRSTBITS {
        MaxLensStep(lengths, maxlens, i, maxlens, 0);
      } else {
        PrefixIndex(lengths, codes, i);
        var index := ReverseBits(Shr(codes[i], l - FIRSTBITS), FIRSTBITS);
        ghost var before := maxlens;
        maxlens := maxlens[index := if maxlens[index] > l then maxlens[index] else l];
        MaxLensStep(lengths, before, i, maxlens, index);
      }
      i := i + 1;
    }
  }

  lemma {:induction false} NoMaxLens(lengths: seq<nat>, maxlens: seq<nat>)
    requires |maxlens| == HEADSIZE && forall i: nat :: 0 <= i < HEADSIZE ==> maxlens[i] == 0
    ensures MaxLens(lengths, maxlens, 0)
  {}

  lemma {:induction false} CodesSize(lengths: seq<nat>, codes: seq<nat>)
    requires CodesOk(lengths, codes)
    ensures |codes| == |lengths|
  {}

  /** Where the secondary table of head entry `i` starts. */
  function Ptr(maxlens: seq<nat>, i: nat): (p: nat)
    requires i <= |maxlens|
    ensures HEADSIZE <= p
  {
    if i == 0 then HEADSIZE else Ptr(maxlens, i - 1) + Room(maxlens[i - 1])
  }

  /** Size of the secondary table for a greatest length of `l`. */
  function Room(l: nat): (r: nat)
  {
    if l > FIRSTBITS then Pow2(l - FIRSTBITS) else 0
  }

  /** Index of entry `y` of the secondary table of head entry `i`. */
  function Sec(maxlens: seq<nat>, i: nat, y: nat): (p: nat)
    requires i <= |maxlens|
  {
    Ptr(maxlens, i) + y
  }

  lemma {:induction false} PtrMono(maxlens: seq<nat>, i: nat, j: nat)
    requires i < j <= |maxlens|
    ensures Ptr(maxlens, i) + Room(maxlens[i]) <= Ptr(maxlens, j)
    decreases j
  {
    if i < j - 1 { PtrMono(maxlens, i, j - 1); }
  }

  /** Every index beyond the first table belongs to one secondary table. */
  lemma {:induction false} Region(maxlens: seq<nat>, k: nat, e: nat) returns (i: nat, y: nat)
    requires k <= |maxlens| && HEADSIZE <= e < Ptr(maxlens, k)
    ensures i < k && y < Room(maxlens[i]) && e == Sec(maxlens, i, y)
    decreases k
  {
    if e < Ptr(maxlens, k - 1) {
      i, y := Region(maxlens, k - 1, e);
    } else {
      i, y := k - 1, e - Ptr(maxlens, k - 1);
    }
  }

  // ----- the state of the table while it is filled ---------------------------------------------

  /** A table entry with length `el` and value `ev` for codes of one kind (long or short), after the
      first `c` symbols: unused because none of them hits `x`, or holding one that does. */
  ghost predicate Entry(lengths: seq<nat>, long: bool, el: nat, ev: nat, x: nat, c: nat) {
    || (el == UNUSED && forall n: nat :: n < c && Hits(lengths, n, x) ==> (lengths[n] > FIRSTBITS) != long)
    || (ev < c && Hits(lengths, ev, x) && el == lengths[ev] && (el > FIRSTBITS) == long)
  }

  ghost predicate Heads(lengths: seq<nat>, maxlens: seq<nat>, tl: seq<nat>, tv: seq<nat>, c: nat)
    requires |maxlens| == HEADSIZE && |tl| == |tv| >= HEADSIZE
  {
    && (forall i: nat :: 0 <= i < HEADSIZE && maxlens[i] > 0 ==> tl[i] == maxlens[i] && tv[i] == Ptr(maxlens, i))
    && (forall i: nat :: 0 <= i < HEADSIZE && maxlens[i] == 0 ==> Entry(lengths, false, tl[i], tv[i], i, c))
    // every short symbol below c owns all the head entries it hits
    && (forall n: nat, i: nat :: n < c && 0 <= i < HEADSIZE && Hits(lengths, n, i) && lengths[n] <= FIRSTBITS ==>
          maxlens[i] == 0 && tv[i] == n && tl[i] == lengths[n])
  }

  ghost predicate Secondary(lengths: seq<nat>, maxlens: seq<nat>, tl: seq<nat>, tv: seq<nat>, c: nat)
    requires |maxlens| == HEADSIZE && |tl| == |tv| == Ptr(maxlens, HEADSIZE)
  {
    forall i: nat, y: nat {:trigger Sec(maxlens, i, y)} :: 0 <= i < HEADSIZE && 0 <= y < Room(maxlens[i]) ==>
      && HEADSIZE <= Sec(maxlens, i, y) < |tl|
      && Entry(lengths, true, tl[Sec(maxlens, i, y)], tv[Sec(maxlens, i, y)], i + HEADSIZE * y, c)
  }

  ghost predicate Filled(lengths: seq<nat>, maxlens: seq<nat>, tl: seq<nat>, tv: seq<nat>, c: nat) {
    && MaxLens(lengths, maxlens, |lengths|)
    && |tl| == |tv| == Ptr(maxlens, HEADSIZE)
    && Heads(lengths, maxlens, tl, tv, c)
    && Secondary(lengths, maxlens, tl, tv, c)
  }

  /** Sizing the table and writing the head entries of the long prefixes. */
  method Layout(lengths: seq<nat>, maxlens: seq<nat>) returns (tl: seq<nat>, tv: seq<nat>)
    requires MaxLens(lengths, maxlens, |lengths|) && ValidLengths(lengths)
    ensures Filled(lengths, maxlens, tl, tv, 0)
  {
    hide MaxLens, Hits, Room, Pow2;
    MaxLensShape(lengths, maxlens);
    var size := HEADSIZE;
    var i := 0;
    while i < HEADSIZE
      invariant 0 <= i <= HEADSIZE && size == Ptr(maxlens, i)
    {
      size := size + Room(maxlens[i]);
      i := i + 1;
    }
    tl := seq(size, _ => UNUSED);
    tv := seq(size, _ => 0);
    var pointer := HEADSIZE;
    i := 0;
    while i < HEADSIZE
      invariant 0 <= i <= HEADSIZE && pointer == Ptr(maxlens, i) && |tl| == |tv| == size
      invariant forall j :: 0 <= j < i && maxlens[j] > FIRSTBITS ==> tl[j] == maxlens[j] && tv[j] == Ptr(maxlens, j)
      invariant forall j :: 0 <= j < i && maxlens[j] <= FIRSTBITS ==> tl[j] == UNUSED
      invariant forall j :: i <= j < size ==> tl[j] == UNUSED
    {
      var l := maxlens[i];
      if l > FIRSTBITS {
        tl := tl[i := l];
        tv := tv[i := pointer];
      }
      pointer := pointer + Room(l);
      i := i + 1;
    }
    LayoutDone(lengths, maxlens, tl, tv);
  }

  lemma {:induction false} MaxLensShape(lengths: seq<nat>, maxlens: seq<nat>)
    requires MaxLens(lengths, maxlens, |lengths|) && ValidLengths(lengths)
    ensures |maxlens| == HEADSIZE
    ensures forall i: nat :: 0 <= i < HEADSIZE ==> maxlens[i] == 0 || FIRSTBITS < maxlens[i] <= MAX_BITS
  {
    forall i: nat | 0 <= i < HEADSIZE ensures maxlens[i] == 0 || FIRSTBITS < maxlens[i] <= MAX_BITS {
      if maxlens[i] != 0 {
        var n: nat :| n < |lengths| && LongAt(lengths, n, i) && lengths[n] == maxlens[i];
      }
    }
  }

  lemma {:induction false} LayoutDone(lengths: seq<nat>, maxlens: seq<nat>, tl: seq<nat>, tv: seq<nat>)
    requires MaxLens(lengths, maxlens, |lengths|) && ValidLengths(lengths)
    requires |tl| == |tv| == Ptr(maxlens, HEADSIZE)
    requires forall j :: 0 <= j < HEADSIZE && maxlens[j] > FIRSTBITS ==> tl[j] == maxlens[j] && tv[j] == Ptr(maxlens, j)
    requires forall j :: 0 <= j < HEADSIZE && maxlens[j] <= FIRSTBITS ==> tl[j] == UNUSED
    requires forall j :: HEADSIZE <= j < |tl| ==> tl[j] == UNUSED
    ensures Filled(lengths, maxlens, tl, tv, 0)
  {
    hide MaxLens, Hits, Room;
    MaxLensShape(lengths, maxlens);
    forall i: nat, y: nat | 0 <= i < HEADSIZE && 0 <= y < Room(maxlens[i])
      ensures HEADSIZE <= Sec(maxlens, i, y) < |tl|
      ensures Entry(lengths, true, tl[Sec(maxlens, i, y)], tv[Sec(maxlens, i, y)], i + HEADSIZE * y, 0)
    {
      PtrMono(maxlens, i, HEADSIZE);
    }
  }

  // ----- filling ------------------------------------------------------------------------------

  /** Index `e` is one of the first `j` entries of the form base + (r | (i << k)). */
  predicate InSlot(e: nat, base: nat, k: nat, r: nat, j: nat) {
    base <= e && Low(e - base, k) == r && Shr(e - base, k) < j
  }

  lemma {:induction false} SlotStep(e: nat, base: nat, k: nat, r: nat, j: nat)
    requires r < Pow2(k)
    ensures InSlot(e, base, k, r, j + 1) <==> InSlot(e, base, k, r, j) || e == base + Or(r, Shl(j, k))
    ensures !InSlot(base + Or(r, Shl(j, k)), base, k, r, j)
  {
    hide Or;
    OrDisjoint(r, j, k);
    Join(r, j, k);
    if base <= e { Split(e - base, k); }
  }

  /** The slots of one symbol stay within its table of 2^bits entries and are all those with low part r. */
  lemma {:induction false} SlotRange(y: nat, k: nat, r: nat, bits: nat)
    requires k <= bits && r < Pow2(k)
    ensures InSlot(y, 0, k, r, Pow2(bits - k)) <==> y < Pow2(bits) && Low(y, k) == r
  {
    if y < Pow2(bits) {
      ShrBound(y, k, bits - k);
    } else if Shr(y, k) < Pow2(bits - k) {
      Split(y, k);
      LowBound(y, k);
      ShlMono(Shr(y, k), Pow2(bits - k), k);
      Pow2Shl(bits - k, k);
    }
  }

  lemma {:induction false} SlotBound(k: nat, r: nat, bits: nat, j: nat)
    requires k <= bits && r < Pow2(k) && j < Pow2(bits - k)
    ensures Or(r, Shl(j, k)) < Pow2(bits)
  {
    hide Or;
    OrDisjoint(r, j, k);
    ShlMono(j, Pow2(bits - k), k);
    Pow2Shl(bits - k, k);
  }

  /** Short symbol: replicated over the first table; refused where an entry is already taken. */
  method FillShort(tl: seq<nat>, tv: seq<nat>, rev: nat, l: nat, sym: nat) returns (ok: bool, tl': seq<nat>, tv': seq<nat>)
    requires |tl| == |tv| >= HEADSIZE && l <= FIRSTBITS && rev < Pow2(l)
    ensures !ok ==> exists e: nat :: e < HEADSIZE && Low(e, l) == rev && tl[e] != UNUSED
    ensures ok ==> |tl'| == |tv'| == |tl|
    ensures ok ==> forall e: nat :: e < |tl| ==>
                     if e < HEADSIZE && Low(e, l) == rev then tl[e] == UNUSED && tl'[e] == l && tv'[e] == sym
                     else tl'[e] == tl[e] && tv'[e] == tv[e]
  {
    hide Or, Low, Shr, Shl, InSlot;
    tl', tv' := tl, tv;
    var num := Pow2(FIRSTBITS - l);
    var j := 0;
    forall e: nat ensures !InSlot(e, 0, l, rev, 0) { SlotEmpty(e, 0, l, rev); }
    NineBits(0);
    while j < num
      invariant 0 <= j <= num && |tl'| == |tv'| == |tl|
      invariant forall e: nat :: e < |tl| ==>
                  if InSlot(e, 0, l, rev, j) then tl[e] == UNUSED && tl'[e] == l && tv'[e] == sym
                  else tl'[e] == tl[e] && tv'[e] == tv[e]
    {
      var index := Or(rev, Shl(j, l));
      SlotBound(l, rev, FIRSTBITS, j);
      forall e: nat
        ensures InSlot(e, 0, l, rev, j + 1) <==> InSlot(e, 0, l, rev, j) || e == index
        ensures !InSlot(index, 0, l, rev, j)
      {
        SlotStep(e, 0, l, rev, j);
      }
      if tl'[index] != UNUSED {
        assert index < HEADSIZE && Low(index, l) == rev by { SlotLow(index, l, rev, j + 1); }
        return false, tl', tv';
      }
      tl' := tl'[index := l];
      tv' := tv'[index := sym];
      j := j + 1;
    }
    forall e: nat ensures InSlot(e, 0, l, rev, num) <==> e < HEADSIZE && Low(e, l) == rev {
      SlotRange(e, l, rev, FIRSTBITS);
    }
    ok := true;
  }

  lemma {:induction false} SlotEmpty(e: nat, base: nat, k: nat, r: nat)
    ensures !InSlot(e, base, k, r, 0)
  {}

  lemma {:induction false} SlotLow(e: nat, k: nat, r: nat, j: nat)
    requires InSlot(e, 0, k, r, j)
    ensures Low(e, k) == r
  {}

  /** Long symbol: replicated over the secondary table at `start`, which has 2^bits entries. */
  method FillLong(tl: seq<nat>, tv: seq<nat>, start: nat, bits: nat, k: nat, rev2: nat, l: nat, sym: nat)
    returns (tl': seq<nat>, tv': seq<nat>)
    requires |tl| == |tv| && k <= bits && rev2 < Pow2(k) && start + Pow2(bits) <= |tl|
    ensures |tl'| == |tv'| == |tl|
    ensures forall e: nat :: e < |tl| ==>
              if InSlot(e, start, k, rev2, Pow2(bits - k)) then tl'[e] == l && tv'[e] == sym
              else tl'[e] == tl[e] && tv'[e] == tv[e]
  {
    hide Or, Low, Shr, Shl, InSlot;
    tl', tv' := tl, tv;
    var num := Pow2(bits - k);
    var j := 0;
    forall e: nat ensures !InSlot(e, start, k, rev2, 0) { SlotEmpty(e, start, k, rev2); }
    while j < num
      invariant 0 <= j <= num && |tl'| == |tv'| == |tl|
      invariant forall e: nat :: e < |tl| ==>
                  if InSlot(e, start, k, rev2, j) then tl'[e] == l && tv'[e] == sym
                  else tl'[e] == tl[e] && tv'[e] == tv[e]
    {
      var index2 := start + Or(rev2, Shl(j, k));
      SlotBound(k, rev2, bits, j);
      forall e: nat ensures InSlot(e, start, k, rev2, j + 1) <==> InSlot(e, start, k, rev2, j) || e == index2 {
        SlotStep(e, start, k, rev2, j);
      }
      tl' := tl'[index2 := l];
      tv' := tv'[index2 := sym];
      j := j + 1;
    }
  }

  lemma {:induction false} EntryKept(lengths: seq<nat>, long: bool, el: nat, ev: nat, x: nat, c: nat)
    requires Entry(lengths, long, el, ev, x, c)
    requires Hits(lengths, c, x) ==> (lengths[c] > FIRSTBITS) != long
    ensures Entry(lengths, long, el, ev, x, c + 1)
  {
    hide Hits;
  }

  /** A symbol without a code leaves the table as it is. */
  lemma {:induction false} StepAbsent(lengths: seq<nat>, maxlens: seq<nat>, tl: seq<nat>, tv: seq<nat>, c: nat)
    requires Filled(lengths, maxlens, tl, tv, c) && c < |lengths| && lengths[c] == 0
    ensures Filled(lengths, maxlens, tl, tv, c + 1)
  {
    hide MaxLens, Entry, Room;
    assert |maxlens| == HEADSIZE by { MaxLensSize(lengths, maxlens); }
    forall i: nat | i < HEADSIZE && maxlens[i] == 0 ensures Entry(lengths, false, tl[i], tv[i], i, c + 1) {
      EntryKept(lengths, false, tl[i], tv[i], i, c);
    }
    forall i: nat, y: nat | i < HEADSIZE && y < Room(maxlens[i])
      ensures HEADSIZE <= Sec(maxlens, i, y) < |tl|
      ensures Entry(lengths, true, tl[Sec(maxlens, i, y)], tv[Sec(maxlens, i, y)], i + HEADSIZE * y, c + 1)
    {
      EntryKept(lengths, true, tl[Sec(maxlens, i, y)], tv[Sec(maxlens, i, y)], i + HEADSIZE * y, c);
    }
  }

  lemma {:induction false} MaxLensSize(lengths: seq<nat>, maxlens: seq<nat>)
    requires MaxLens(lengths, maxlens, |lengths|)
    ensures |maxlens| == HEADSIZE
  {}

  lemma {:induction false} StepShort(lengths: seq<nat>, maxlens: seq<nat>, tl: seq<nat>, tv: seq<nat>,
                                     tl': seq<nat>, tv': seq<nat>, c: nat)
    requires Filled(lengths, maxlens, tl, tv, c) && c < |lengths| && 0 < lengths[c] <= FIRSTBITS
    requires ValidLengths(lengths)
    requires |tl'| == |tv'| == |tl|
    requires forall e: nat :: e < |tl| ==>
               if e < HEADSIZE && Hits(lengths, c, e) then tl[e] == UNUSED && tl'[e] == lengths[c] && tv'[e] == c
               else tl'[e] == tl[e] && tv'[e] == tv[e]
    ensures Filled(lengths, maxlens, tl', tv', c + 1)
  {
    hide MaxLens, Hits, Room, Entry;
    MaxLensShape(lengths, maxlens);
    forall i: nat | i < HEADSIZE && maxlens[i] == 0 ensures Entry(lengths, false, tl'[i], tv'[i], i, c + 1) {
      ShortEntry(lengths, tl[i], tv[i], tl'[i], tv'[i], i, c);
    }
    forall n: nat, i: nat | n < c + 1 && i < HEADSIZE && Hits(lengths, n, i) && lengths[n] <= FIRSTBITS
      ensures maxlens[i] == 0 && tv'[i] == n && tl'[i] == lengths[n]
    {
      if n < c { assert tl[i] == lengths[n]; }
    }
    forall i: nat, y: nat | i < HEADSIZE && y < Room(maxlens[i])
      ensures HEADSIZE <= Sec(maxlens, i, y) < |tl'|
      ensures Entry(lengths, true, tl'[Sec(maxlens, i, y)], tv'[Sec(maxlens, i, y)], i + HEADSIZE * y, c + 1)
    {
      EntryKept(lengths, true, tl[Sec(maxlens, i, y)], tv[Sec(maxlens, i, y)], i + HEADSIZE * y, c);
    }
  }

  lemma {:induction false} ShortEntry(lengths: seq<nat>, el: nat, ev: nat, el': nat, ev': nat, i: nat, c: nat)
    requires c < |lengths| && 0 < lengths[c] <= FIRSTBITS && Entry(lengths, false, el, ev, i, c)
    requires if Hits(lengths, c, i) then el' == lengths[c] && ev' == c else el' == el && ev' == ev
    ensures Entry(lengths, false, el', ev', i, c + 1)
  {
    hide Hits;
  }

  /** A long symbol hits a secondary entry when its prefix is the head and its rest the entry. */
  lemma {:induction false} HitsSecondary(lengths: seq<nat>, c: nat, i: nat, y: nat)
    requires c < |lengths| && lengths[c] > FIRSTBITS && i < HEADSIZE
    ensures Hits(lengths, c, i + HEADSIZE * y)
            <==> Low(Rev(lengths, c), FIRSTBITS) == i
                 && Low(y, lengths[c] - FIRSTBITS) == Shr(Rev(lengths, c), FIRSTBITS)
  {
    hide Rev, Low, Shr, Shl, Pow2;
    var x, rev, k := i + HEADSIZE * y, Rev(lengths, c), lengths[c] - FIRSTBITS;
    ShlNine(y);
    NineBits(0);
    Join(i, y, FIRSTBITS);
    LowSplit(x, FIRSTBITS, k);
    Split(rev, FIRSTBITS);
    LowBound(rev, FIRSTBITS);
    Join(i, Low(y, k), FIRSTBITS);
    Join(Low(rev, FIRSTBITS), Shr(rev, FIRSTBITS), FIRSTBITS);
  }

  lemma {:induction false} LongEntry(lengths: seq<nat>, el: nat, ev: nat, el': nat, ev': nat, x: nat, c: nat)
    requires c < |lengths| && lengths[c] > FIRSTBITS && Entry(lengths, true, el, ev, x, c)
    requires if Hits(lengths, c, x) then el' == lengths[c] && ev' == c else el' == el && ev' == ev
    ensures Entry(lengths, true, el', ev', x, c + 1)
  {
    hide Hits;
  }

  /** Which secondary entries a long symbol is written to: those it hits. */
  lemma {:induction false} LongSlot(lengths: seq<nat>, maxlens: seq<nat>, c: nat, i: nat, y: nat)
    requires c < |lengths| && lengths[c] > FIRSTBITS && |maxlens| == HEADSIZE
    requires i < HEADSIZE && y < Room(maxlens[i])
    requires var i0 := Low(Rev(lengths, c), FIRSTBITS); i0 < HEADSIZE && lengths[c] <= maxlens[i0]
    ensures var i0, k := Low(Rev(lengths, c), FIRSTBITS), lengths[c] - FIRSTBITS;
            InSlot(Sec(maxlens, i, y), Ptr(maxlens, i0), k, Shr(Rev(lengths, c), FIRSTBITS), Pow2(maxlens[i0] - FIRSTBITS - k))
            <==> Hits(lengths, c, i + HEADSIZE * y)
  {
    hide Hits, Low, Shr, Rev, Pow2, Ptr;
    var rev := Rev(lengths, c);
    var i0, k, r := Low(rev, FIRSTBITS), lengths[c] - FIRSTBITS, Shr(rev, FIRSTBITS);
    var bits := maxlens[i0] - FIRSTBITS;
    HitsSecondary(lengths, c, i, y);
    ShrBound(rev, FIRSTBITS, k);
    var e, p := Sec(maxlens, i, y), Ptr(maxlens, i0);
    if i < i0 {
      PtrMono(maxlens, i, i0);
    } else if i0 < i {
      PtrMono(maxlens, i0, i);
      SlotRange(e - p, k, r, bits);
    } else {
      SlotRange(y, k, r, bits);
    }
  }

  lemma {:induction false} StepLong(lengths: seq<nat>, maxlens: seq<nat>, tl: seq<nat>, tv: seq<nat>,
                                    tl': seq<nat>, tv': seq<nat>, c: nat)
    requires Filled(lengths, maxlens, tl, tv, c) && c < |lengths| && lengths[c] > FIRSTBITS
    requires |tl'| == |tv'| == |tl|
    requires forall e: nat :: e < HEADSIZE ==> tl'[e] == tl[e] && tv'[e] == tv[e]
    requires forall i: nat, y: nat {:trigger Sec(maxlens, i, y)} :: |maxlens| == HEADSIZE && i < HEADSIZE && y < Room(maxlens[i]) ==>
               var e := Sec(maxlens, i, y);
               HEADSIZE <= e < |tl|
               && if Hits(lengths, c, i + HEADSIZE * y) then tl'[e] == lengths[c] && tv'[e] == c
                  else tl'[e] == tl[e] && tv'[e] == tv[e]
    ensures Filled(lengths, maxlens, tl', tv', c + 1)
  {
    hide MaxLens, Hits, Room, Entry;
    MaxLensSize(lengths, maxlens);
    forall i: nat | i < HEADSIZE && maxlens[i] == 0 ensures Entry(lengths, false, tl'[i], tv'[i], i, c + 1) {
      EntryKept(lengths, false, tl[i], tv[i], i, c);
    }
    forall i: nat, y: nat | i < HEADSIZE && y < Room(maxlens[i])
      ensures HEADSIZE <= Sec(maxlens, i, y) < |tl'|
      ensures Entry(lengths, true, tl'[Sec(maxlens, i, y)], tv'[Sec(maxlens, i, y)], i + HEADSIZE * y, c + 1)
    {
      var e := Sec(maxlens, i, y);
      LongEntry(lengths, tl[e], tv[e], tl'[e], tv'[e], i + HEADSIZE * y, c);
    }
  }

  // ----- what the finished table means --------------------------------------------------------

  lemma {:induction false} PresentTwo(lengths: seq<nat>, a: nat, b: nat)
    requires a < b < |lengths| && lengths[a] > 0 && lengths[b] > 0
    ensures Present(lengths) >= 2
  {
    var rest := lengths[..|lengths| - 1];
    if b < |rest| {
      PresentTwo(rest, a, b);
    } else {
      PresentOne(rest, a);
    }
  }

  lemma {:induction false} PresentOne(lengths: seq<nat>, a: nat)
    requires a < |lengths| && lengths[a] > 0
    ensures Present(lengths) >= 1
  {
    var rest := lengths[..|lengths| - 1];
    if a < |rest| { PresentOne(rest, a); }
  }

  /** Fewer than two codes take at most half of the space. */
  lemma {:induction false} FewIsSmall(lengths: seq<nat>)
    requires Present(lengths) < 2
    ensures Kraft(lengths) <= FULL / 2 && (Present(lengths) == 0 ==> Kraft(lengths) == 0)
  {
    if lengths != [] {
      var l := lengths[|lengths| - 1];
      FewIsSmall(lengths[..|lengths| - 1]);
      if 0 < l <= MAX_BITS {
        Pow2Mono(MAX_BITS - l, MAX_BITS - 1);
        FullIsPow2();
        assert Pow2(MAX_BITS) == 2 * Pow2(MAX_BITS - 1);
      }
    }
  }

  /** A short symbol that hits the head entry of a long prefix hits the long symbol too. */
  lemma {:induction false} ShortHitsLong(lengths: seq<nat>, n: nat, q: nat, i: nat)
    requires n < |lengths| && lengths[n] <= FIRSTBITS && i < HEADSIZE && Hits(lengths, n, i) && LongAt(lengths, q, i)
    ensures Hits(lengths, n, Rev(lengths, q)) && Hits(lengths, q, Rev(lengths, q))
  {
    hide Hits, Rev, Low;
    NineBits(0);
    LowId(i, FIRSTBITS);
    HitsLow(lengths, n, i, Rev(lengths, q), FIRSTBITS);
    HitsOwn(lengths, q);
  }

  /** Being refused by an entry already taken proves that the lengths are over-full. */
  lemma {:induction false} ConflictMeansOverfull(lengths: seq<nat>, maxlens: seq<nat>, tl: seq<nat>, tv: seq<nat>, c: nat, e: nat)
    requires Filled(lengths, maxlens, tl, tv, c) && ValidLengths(lengths)
    requires c < |lengths| && 0 < lengths[c] <= FIRSTBITS
    requires e < HEADSIZE && Hits(lengths, c, e) && tl[e] != UNUSED
    ensures FULL < Kraft(lengths) && Present(lengths) >= 2
  {
    hide Hits, Rev, Low, Kraft, Present, Secondary;
    var q: nat;
    var x: nat;
    if maxlens[e] > 0 {
      q :| q < |lengths| && LongAt(lengths, q, e) && lengths[q] == maxlens[e];
      ShortHitsLong(lengths, c, q, e);
      x := Rev(lengths, q);
    } else {
      q, x := tv[e], e;
      HitsInRange(lengths, q, e);
    }
    assert Hits(lengths, q, x) && Hits(lengths, c, x) && q != c && q < |lengths| && lengths[q] > 0;
    if Kraft(lengths) <= FULL { HitsUnique(lengths, q, c, x); }
    PresentTwo(lengths, if q < c then q else c, if q < c then c else q);
  }

  /** The table cannot be filled without a refusal when the lengths are over-full. */
  lemma {:induction false} FilledNotOverfull(lengths: seq<nat>, maxlens: seq<nat>, tl: seq<nat>, tv: seq<nat>)
    requires Filled(lengths, maxlens, tl, tv, |lengths|) && ValidLengths(lengths) && |lengths| <= MAX_SYMBOLS
    ensures Kraft(lengths) <= FULL
  {
    hide Hits, Secondary, Rev, Code;
    if FULL < Kraft(lengths) {
      var f, n := OverfullCollides(lengths);
      ZeroCode(lengths, f);
      ZeroCode(lengths, n);
      assert lengths[n] > FIRSTBITS ==> LongAt(lengths, n, 0);
      if lengths[f] > FIRSTBITS {
        SpaceMono(lengths, 10, lengths[f]);
        LongCodesAreSmall(lengths);
        assert false;
      }
      assert false;
    }
  }

  /** Codes 0 and 2^l are sent as l zero bits. */
  lemma {:induction false} ZeroCode(lengths: seq<nat>, n: nat)
    requires n < |lengths| && 0 < lengths[n] && (Code(lengths, n) == 0 || Code(lengths, n) == Pow2(lengths[n]))
    ensures Hits(lengths, n, 0) && Rev(lengths, n) == 0 && Low(Rev(lengths, n), FIRSTBITS) == 0
  {
    hide Code;
    var l, c := lengths[n], Code(lengths, n);
    ZeroBits(c, l);
    LowId(0, l);
    LowId(0, FIRSTBITS);
  }

  lemma {:induction false} ZeroBits(c: nat, l: nat)
    requires c == 0 || c == Pow2(l)
    ensures Val(HighFirst(c, l)) == 0
    decreases l
  {
    if l > 0 {
      ZeroBits(c / 2, l - 1);
      ValAppend(HighFirst(c / 2, l - 1), [false]);
      assert HighFirst(c, l) == HighFirst(c / 2, l - 1) + [false];
      assert Val([false]) == 0 by { assert [false][1..] == []; }
      ShlZero(l - 1);
    }
  }

  /** With a complete code no entry is left unused. */
  lemma {:induction false} NoneUnused(lengths: seq<nat>, maxlens: seq<nat>, tl: seq<nat>, tv: seq<nat>, e: nat)
    requires Filled(lengths, maxlens, tl, tv, |lengths|) && ValidLengths(lengths) && Complete(lengths)
    requires e < |tl|
    ensures tl[e] != UNUSED
  {
    hide Hits, Rev, Low, Kraft;
    MaxLensShape(lengths, maxlens);
    if tl[e] == UNUSED {
      if e < HEADSIZE {
        var n := CompleteHits(lengths, e);
        HitsInRange(lengths, n, e);
        LongHitsHead(lengths, n, e);
        assert false;
      } else {
        var i, y := Region(maxlens, HEADSIZE, e);
        var x := i + HEADSIZE * y;
        assert Entry(lengths, true, tl[e], tv[e], x, |lengths|);
        var n := CompleteHits(lengths, x);
        HitsInRange(lengths, n, x);
        var q: nat :| q < |lengths| && LongAt(lengths, q, i) && lengths[q] == maxlens[i];
        ShortInSecondary(lengths, n, q, i, y);
        assert false;
      }
    }
  }

  lemma {:induction false} LongHitsHead(lengths: seq<nat>, n: nat, e: nat)
    requires n < |lengths| && e < HEADSIZE && Hits(lengths, n, e)
    ensures lengths[n] > FIRSTBITS ==> LongAt(lengths, n, e)
  {
    hide Rev;
    if lengths[n] > FIRSTBITS {
      LowLow(e, lengths[n], FIRSTBITS);
      NineBits(e);
    }
  }

  /** A symbol that hits a value below a long prefix is itself long. */
  lemma {:induction false} ShortInSecondary(lengths: seq<nat>, n: nat, q: nat, i: nat, y: nat)
    requires ValidLengths(lengths) && Kraft(lengths) <= FULL
    requires n < |lengths| && i < HEADSIZE && LongAt(lengths, q, i) && Hits(lengths, n, i + HEADSIZE * y)
    ensures lengths[n] > FIRSTBITS
  {
    hide Hits, Kraft, Low, Rev, Pow2;
    if lengths[n] <= FIRSTBITS {
      NineBits(0);
      ShlNine(y);
      Join(i, y, FIRSTBITS);
      LowId(i, FIRSTBITS);
      HitsLow(lengths, n, i, i + HEADSIZE * y, FIRSTBITS);
      ShortHitsLong(lengths, n, q, i);
      HitsUnique(lengths, n, q, Rev(lengths, q));
    }
  }

  /** A long symbol held by a secondary entry is no longer than the table allows. */
  lemma {:induction false} LongWithin(lengths: seq<nat>, maxlens: seq<nat>, n: nat, i: nat, y: nat)
    requires MaxLens(lengths, maxlens, |lengths|) && i < HEADSIZE
    requires n < |lengths| && lengths[n] > FIRSTBITS && Hits(lengths, n, i + HEADSIZE * y)
    ensures lengths[n] <= maxlens[i]
  {
    hide Hits, Low, Rev;
    HitsSecondary(lengths, n, i, y);
    assert LongAt(lengths, n, i);
  }

  /** With an incomplete code the entry for all-ones is left unused. */
  lemma {:induction false} SomeUnused(lengths: seq<nat>, maxlens: seq<nat>, tl: seq<nat>, tv: seq<nat>) returns (e: nat)
    requires Filled(lengths, maxlens, tl, tv, |lengths|) && ValidLengths(lengths) && Kraft(lengths) < FULL
    ensures e < |tl| && tl[e] == UNUSED
  {
    hide Hits, Kraft, MaxLens, Pow2;
    MaxLensShape(lengths, maxlens);
    NineBits(0);
    forall n: nat, x: nat | Hits(lengths, n, x) ensures n < |lengths| { HitsInRange(lengths, n, x); }
    if maxlens[511] == 0 {
      e := 511;
      assert Entry(lengths, false, tl[e], tv[e], 511, |lengths|);
      if tl[e] != UNUSED { IncompleteMisses(lengths, tv[e], FIRSTBITS); }
    } else {
      var t := maxlens[511] - FIRSTBITS;
      var y := Pow2(t) - 1;
      e := Sec(maxlens, 511, y);
      assert Entry(lengths, true, tl[e], tv[e], 511 + HEADSIZE * y, |lengths|);
      Pow2Shl(t, FIRSTBITS);
      ShlNine(Pow2(t));
      if tl[e] != UNUSED {
        LongWithin(lengths, maxlens, tv[e], 511, y);
        IncompleteMisses(lengths, tv[e], MAX_BITS);
        OnesAgree(lengths, tv[e], t + FIRSTBITS);
      }
    }
  }

  lemma {:induction false} OnesAgree(lengths: seq<nat>, n: nat, k: nat)
    requires n < |lengths| && lengths[n] <= MAX_BITS && k <= MAX_BITS
    ensures lengths[n] <= k ==> (Hits(lengths, n, Pow2(k) - 1) <==> Hits(lengths, n, Pow2(MAX_BITS) - 1))
  {
    hide Hits, Pow2;
    if lengths[n] <= k {
      AllOnes(k, k);
      AllOnes(MAX_BITS, k);
      HitsLow(lengths, n, Pow2(k) - 1, Pow2(MAX_BITS) - 1, k);
    }
  }

  /** A first-table entry of a finished table. */
  ghost predicate HeadMeans(lengths: seq<nat>, el: nat, ev: nat, i: nat) {
    && 0 < el <= FIRSTBITS
    && ((Hits(lengths, ev, i) && el == lengths[ev])
        || (ev == INVALIDSYMBOL && forall n: nat, x: nat :: Low(x, FIRSTBITS) == i ==> !Hits(lengths, n, x)))
  }

  /** A secondary entry of a finished table; `bits` is the width of that table. */
  ghost predicate SecMeans(lengths: seq<nat>, el: nat, ev: nat, bits: nat, x: nat) {
    && FIRSTBITS < el
    && ((Hits(lengths, ev, x) && el == lengths[ev] <= FIRSTBITS + bits)
        || (ev == INVALIDSYMBOL && forall n: nat, z: nat :: Low(z, FIRSTBITS + bits) == x ==> !Hits(lengths, n, z)))
  }

  function SecIndex(tv: seq<nat>, i: nat, y: nat): (e: nat)
    requires i < |tv|
  {
    tv[i] + y
  }

  /** What first-table entry `i` of a finished table stands for. */
  ghost predicate LineOk(lengths: seq<nat>, tl: seq<nat>, tv: seq<nat>, i: nat)
    requires i < |tl| == |tv|
  {
    if tl[i] <= FIRSTBITS then HeadMeans(lengths, tl[i], tv[i], i)
    else forall y: nat {:trigger SecIndex(tv, i, y)} :: y < Pow2(tl[i] - FIRSTBITS) ==>
           && SecIndex(tv, i, y) < |tl|
           && SecMeans(lengths, tl[SecIndex(tv, i, y)], tv[SecIndex(tv, i, y)], tl[i] - FIRSTBITS, i + HEADSIZE * y)
  }

  ghost predicate TableOk(lengths: seq<nat>, tl: seq<nat>, tv: seq<nat>) {
    |tl| == |tv| >= HEADSIZE && forall i: nat :: i < HEADSIZE ==> LineOk(lengths, tl, tv, i)
  }

  /** An unused entry that is replaced by the invalid symbol. */
  ghost function Patched(tl: seq<nat>, tv: seq<nat>, e: nat): (p: (nat, nat))
    requires e < |tl| == |tv|
  {
    if tl[e] == UNUSED then (if e < HEADSIZE then 1 else FIRSTBITS + 1, INVALIDSYMBOL) else (tl[e], tv[e])
  }

  lemma {:induction false} PatchedHead(lengths: seq<nat>, maxlens: seq<nat>, tl: seq<nat>, tv: seq<nat>, i: nat)
    requires Filled(lengths, maxlens, tl, tv, |lengths|) && ValidLengths(lengths)
    requires i < HEADSIZE && maxlens[i] == 0
    ensures var p := Patched(tl, tv, i); HeadMeans(lengths, p.0, p.1, i)
  {
    hide Hits, Rev, Secondary;
    assert Entry(lengths, false, tl[i], tv[i], i, |lengths|);
    if tl[i] == UNUSED {
      forall n: nat, x: nat | Low(x, FIRSTBITS) == i ensures !Hits(lengths, n, x) {
        if Hits(lengths, n, x) {
          HitsInRange(lengths, n, x);
          NineBits(i);
          if lengths[n] <= FIRSTBITS {
            HitsLow(lengths, n, x, i, FIRSTBITS);
          } else {
            PrefixOfHit(lengths, n, x);
          }
          assert false;
        }
      }
    } else {
      HitsInRange(lengths, tv[i], i);
    }
  }

  lemma {:induction false} PrefixOfHit(lengths: seq<nat>, n: nat, x: nat)
    requires n < |lengths| && lengths[n] > FIRSTBITS && Hits(lengths, n, x)
    ensures LongAt(lengths, n, Low(x, FIRSTBITS))
  {
    hide Rev;
    LowLow(x, lengths[n], FIRSTBITS);
  }

  lemma {:induction false} PatchedSecondary(lengths: seq<nat>, maxlens: seq<nat>, tl: seq<nat>, tv: seq<nat>, i: nat, y: nat)
    requires Filled(lengths, maxlens, tl, tv, |lengths|) && ValidLengths(lengths) && Kraft(lengths) <= FULL
    requires i < HEADSIZE && maxlens[i] > FIRSTBITS && y < Pow2(maxlens[i] - FIRSTBITS)
    ensures HEADSIZE <= Sec(maxlens, i, y) < |tl|
    ensures var p := Patched(tl, tv, Sec(maxlens, i, y));
            SecMeans(lengths, p.0, p.1, maxlens[i] - FIRSTBITS, i + HEADSIZE * y)
  {
    hide Hits, Rev, Kraft, Pow2;
    var e, x, bits := Sec(maxlens, i, y), i + HEADSIZE * y, maxlens[i] - FIRSTBITS;
    assert Entry(lengths, true, tl[e], tv[e], x, |lengths|);
    var q: nat :| q < |lengths| && LongAt(lengths, q, i) && lengths[q] == maxlens[i];
    if tl[e] == UNUSED {
      forall n: nat, z: nat | Low(z, FIRSTBITS + bits) == x ensures !Hits(lengths, n, z) {
        if Hits(lengths, n, z) { BelowPrefix(lengths, maxlens, n, q, i, y, z); assert false; }
      }
    } else {
      HitsInRange(lengths, tv[e], x);
      LongWithin(lengths, maxlens, tv[e], i, y);
    }
  }

  /** Whatever hits a value below a long prefix is long and hits the secondary entry. */
  lemma {:induction false} BelowPrefix(lengths: seq<nat>, maxlens: seq<nat>, n: nat, q: nat, i: nat, y: nat, z: nat)
    requires MaxLens(lengths, maxlens, |lengths|) && ValidLengths(lengths) && Kraft(lengths) <= FULL
    requires i < HEADSIZE && LongAt(lengths, q, i) && maxlens[i] > FIRSTBITS
    requires Low(z, maxlens[i]) == i + HEADSIZE * y && Hits(lengths, n, z)
    ensures n < |lengths| && lengths[n] > FIRSTBITS && Hits(lengths, n, i + HEADSIZE * y)
  {
    hide Hits, Rev, Kraft, Low, Pow2;
    var x := i + HEADSIZE * y;
    HitsInRange(lengths, n, z);
    NineBits(0);
    ShlNine(y);
    Join(i, y, FIRSTBITS);
    LowLow(z, maxlens[i], FIRSTBITS);
    LowLow(z, maxlens[i], maxlens[i]);
    if lengths[n] <= FIRSTBITS {
      HitsLow(lengths, n, z, x, FIRSTBITS);
      ShortInSecondary(lengths, n, q, i, y);
    } else {
      PrefixOfHit(lengths, n, z);
      assert lengths[n] <= maxlens[i];
      HitsLow(lengths, n, z, x, maxlens[i]);
    }
  }

  /** The filled table, with its unused entries replaced, means what it should. */
  lemma {:induction false} TableDone(lengths: seq<nat>, maxlens: seq<nat>, tl: seq<nat>, tv: seq<nat>, tl': seq<nat>, tv': seq<nat>)
    requires Filled(lengths, maxlens, tl, tv, |lengths|) && ValidLengths(lengths) && Kraft(lengths) <= FULL
    requires |tl'| == |tv'| == |tl|
    requires forall e: nat :: e < |tl| ==> (tl'[e], tv'[e]) == Patched(tl, tv, e)
    ensures TableOk(lengths, tl', tv')
  {
    hide LineOk, Heads, Secondary, Kraft, MaxLens, Patched;
    MaxLensShape(lengths, maxlens);
    forall i: nat | i < HEADSIZE ensures LineOk(lengths, tl', tv', i) {
      LineDone(lengths, maxlens, tl, tv, tl', tv', i);
    }
  }

  lemma {:induction false} LineDone(lengths: seq<nat>, maxlens: seq<nat>, tl: seq<nat>, tv: seq<nat>,
                                    tl': seq<nat>, tv': seq<nat>, i: nat)
    requires Filled(lengths, maxlens, tl, tv, |lengths|) && ValidLengths(lengths) && Kraft(lengths) <= FULL
    requires |tl'| == |tv'| == |tl|
    requires forall e: nat :: e < |tl| ==> (tl'[e], tv'[e]) == Patched(tl, tv, e)
    requires i < HEADSIZE
    ensures LineOk(lengths, tl', tv', i)
  {
    hide HeadMeans, SecMeans, Entry, Kraft, MaxLens, Hits, Pow2;
    MaxLensShape(lengths, maxlens);
    if maxlens[i] == 0 {
      PatchedHead(lengths, maxlens, tl, tv, i);
      HeadShort(lengths, tl'[i], tv'[i], i);
    } else {
      assert tl'[i] == maxlens[i] && tv'[i] == Ptr(maxlens, i);
      forall y: nat {:trigger SecIndex(tv', i, y)} | y < Pow2(tl'[i] - FIRSTBITS)
        ensures SecIndex(tv', i, y) < |tl'|
        ensures SecMeans(lengths, tl'[SecIndex(tv', i, y)], tv'[SecIndex(tv', i, y)], tl'[i] - FIRSTBITS, i + HEADSIZE * y)
      {
        PatchedSecondary(lengths, maxlens, tl, tv, i, y);
        assert SecIndex(tv', i, y) == Sec(maxlens, i, y);
      }
    }
  }

  lemma {:induction false} HeadShort(lengths: seq<nat>, el: nat, ev: nat, i: nat)
    requires HeadMeans(lengths, el, ev, i)
    ensures 0 < el <= FIRSTBITS
  {}

  // ----- making the table ---------------------------------------------------------------------

  /** Builds the decoding table. With two or more symbols it succeeds exactly for complete codes. */
  method MakeTable(lengths: seq<nat>, codes: seq<nat>) returns (error: nat, tl: seq<nat>, tv: seq<nat>)
    requires CodesOk(lengths, codes) && ValidLengths(lengths) && |lengths| <= MAX_SYMBOLS
    ensures error == if Present(lengths) >= 2 && !Complete(lengths) then 55 else 0
    ensures error == 0 ==> TableOk(lengths, tl, tv) && Kraft(lengths) <= FULL
  {
    hide Filled, TableOk, CodesOk, Kraft;
    var maxlens := ComputeMaxLens(lengths, codes);
    tl, tv := Layout(lengths, maxlens);
    var numpresent: nat;
    error, tl, tv, numpresent := FillTable(lengths, codes, maxlens, tl, tv);
    if error != 0 { return; }
    FilledNotOverfull(lengths, maxlens, tl, tv);
    ghost var tl0, tv0 := tl, tv;
    FilledSize(lengths, maxlens, tl, tv);
    if numpresent < 2 {
      FewIsSmall(lengths);
      tl, tv := PatchUnused(tl, tv);
    } else {
      var i := 0;
      while i < |tl|
        invariant 0 <= i <= |tl| && forall e: nat :: e < i ==> tl[e] != UNUSED
      {
        if tl[i] == UNUSED {
          if Complete(lengths) { NoneUnused(lengths, maxlens, tl, tv, i); }
          return 55, tl, tv;
        }
        i := i + 1;
      }
      if Kraft(lengths) < FULL {
        ghost var e := SomeUnused(lengths, maxlens, tl, tv);
      }
    }
    TableDone(lengths, maxlens, tl0, tv0, tl, tv);
  }

  lemma {:induction false} FilledSize(lengths: seq<nat>, maxlens: seq<nat>, tl: seq<nat>, tv: seq<nat>)
    requires Filled(lengths, maxlens, tl, tv, |lengths|)
    ensures |maxlens| == HEADSIZE && |tl| == |tv| >= HEADSIZE
  {}

  method PatchUnused(tl: seq<nat>, tv: seq<nat>) returns (tl': seq<nat>, tv': seq<nat>)
    requires |tl| == |tv|
    ensures |tl'| == |tv'| == |tl|
    ensures forall e: nat :: e < |tl| ==> (tl'[e], tv'[e]) == Patched(tl, tv, e)
  {
    tl', tv' := tl, tv;
    var i := 0;
    while i < |tl|
      invariant 0 <= i <= |tl| && |tl'| == |tv'| == |tl|
      invariant forall e: nat :: e < i ==> (tl'[e], tv'[e]) == Patched(tl, tv, e)
      invariant forall e: nat :: i <= e < |tl| ==> tl'[e] == tl[e] && tv'[e] == tv[e]
    {
      if tl'[i] == UNUSED {
        tl' := tl'[i := if i < HEADSIZE then 1 else FIRSTBITS + 1];
        tv' := tv'[i := INVALIDSYMBOL];
      }
      i := i + 1;
    }
  }

  /** Enters the symbols one by one. */
  method FillTable(lengths: seq<nat>, codes: seq<nat>, maxlens: seq<nat>, tl0: seq<nat>, tv0: seq<nat>)
    returns (error: nat, tl: seq<nat>, tv: seq<nat>, numpresent: nat)
    requires CodesOk(lengths, codes) && ValidLengths(lengths)
    requires Filled(lengths, maxlens, tl0, tv0, 0)
    ensures error == 0 || (error == 55 && FULL < Kraft(lengths) && Present(lengths) >= 2)
    ensures error == 0 ==> Filled(lengths, maxlens, tl, tv, |lengths|) && numpresent == Present(lengths)
  {
    hide Filled, CodesOk, Kraft, Hits, Rev, HighFirst, Val, Low, Shr;
    tl, tv, numpresent, error := tl0, tv0, 0, 0;
    CodesSize(lengths, codes);
    var i := 0;
    while i < |lengths|
      invariant 0 <= i <= |lengths| && Filled(lengths, maxlens, tl, tv, i)
      invariant numpresent == Present(lengths[..i]) && error == 0
    {
      var l := lengths[i];
      var reverse := ReverseBits(codes[i], l);
      assert l > 0 ==> reverse == Rev(lengths, i) by { ReverseIsRev(lengths, codes, i); }
      assert lengths[..i + 1][..i] == lengths[..i];
      if l == 0 {
        StepAbsent(lengths, maxlens, tl, tv, i);
      } else {
        numpresent := numpresent + 1;
        if l <= FIRSTBITS {
          var ok, tl', tv' := EnterShort(lengths, maxlens, tl, tv, i, reverse);
          if !ok { return 55, tl', tv', numpresent; }
          tl, tv := tl', tv';
        } else {
          tl, tv := EnterLong(lengths, maxlens, tl, tv, i, reverse);
        }
      }
      i := i + 1;
    }
    assert lengths[..i] == lengths;
  }

  lemma {:induction false} ReverseIsRev(lengths: seq<nat>, codes: seq<nat>, i: nat)
    requires CodesOk(lengths, codes) && i < |lengths|
    ensures lengths[i] > 0 ==> Val(HighFirst(codes[i], lengths[i])) == Rev(lengths, i)
  {
    HighFirstLow(Code(lengths, i), lengths[i]);
  }

  lemma {:induction false} HitsIs(lengths: seq<nat>, n: nat, x: nat)
    requires n < |lengths| && lengths[n] > 0
    ensures Hits(lengths, n, x) <==> Low(x, lengths[n]) == Rev(lengths, n)
  {}

  method EnterShort(lengths: seq<nat>, maxlens: seq<nat>, tl: seq<nat>, tv: seq<nat>, i: nat, reverse: nat)
    returns (ok: bool, tl': seq<nat>, tv': seq<nat>)
    requires Filled(lengths, maxlens, tl, tv, i) && ValidLengths(lengths)
    requires i < |lengths| && 0 < lengths[i] <= FIRSTBITS && reverse == Rev(lengths, i)
    ensures ok ==> Filled(lengths, maxlens, tl', tv', i + 1)
    ensures !ok ==> FULL < Kraft(lengths) && Present(lengths) >= 2
  {
    hide Filled, Kraft, Hits, Rev, Low;
    FilledShape(lengths, maxlens, tl, tv, i);
    ok, tl', tv' := FillShort(tl, tv, reverse, lengths[i], i);
    forall e: nat ensures Hits(lengths, i, e) <==> Low(e, lengths[i]) == reverse { HitsIs(lengths, i, e); }
    if ok {
      StepShort(lengths, maxlens, tl, tv, tl', tv', i);
    } else {
      var e: nat :| e < HEADSIZE && Low(e, lengths[i]) == reverse && tl[e] != UNUSED;
      ConflictMeansOverfull(lengths, maxlens, tl, tv, i, e);
    }
  }

  lemma {:induction false} FilledShape(lengths: seq<nat>, maxlens: seq<nat>, tl: seq<nat>, tv: seq<nat>, c: nat)
    requires Filled(lengths, maxlens, tl, tv, c)
    ensures |maxlens| == HEADSIZE && |tl| == |tv| == Ptr(maxlens, HEADSIZE)
    ensures MaxLens(lengths, maxlens, |lengths|)
    ensures forall i: nat :: i < HEADSIZE && maxlens[i] > 0 ==> tl[i] == maxlens[i] && tv[i] == Ptr(maxlens, i)
  {}

  method EnterLong(lengths: seq<nat>, maxlens: seq<nat>, tl: seq<nat>, tv: seq<nat>, i: nat, reverse: nat)
    returns (tl': seq<nat>, tv': seq<nat>)
    requires Filled(lengths, maxlens, tl, tv, i) && ValidLengths(lengths)
    requires i < |lengths| && lengths[i] > FIRSTBITS && reverse == Rev(lengths, i)
    ensures Filled(lengths, maxlens, tl', tv', i + 1)
  {
    hide Filled, Hits, Rev, Low, Shr, MaxLens, Ptr, Pow2, InSlot;
    var l := lengths[i];
    var index := Low(reverse, FIRSTBITS);
    LowBound(reverse, FIRSTBITS);
    NineBits(0);
    FilledShape(lengths, maxlens, tl, tv, i);
    LongHasRoom(lengths, maxlens, i, index);
    var maxlen := tl[index];
    var start := tv[index];
    // the branch for maxlen < l, an invalid tree, cannot be taken: maxlens covers every long symbol
    ShrBound(reverse, FIRSTBITS, l - FIRSTBITS);
    PtrMono(maxlens, index, HEADSIZE);
    tl', tv' := FillLong(tl, tv, start, maxlen - FIRSTBITS, l - FIRSTBITS, Shr(reverse, FIRSTBITS), l, i);
    ghost var k, r, num := l - FIRSTBITS, Shr(reverse, FIRSTBITS), Pow2(maxlen - FIRSTBITS - (l - FIRSTBITS));
    forall e: nat | e < HEADSIZE ensures !InSlot(e, start, k, r, num) { SlotAbove(e, start, k, r, num); }
    forall p: nat, y: nat {:trigger Sec(maxlens, p, y)} | p < HEADSIZE && y < Room(maxlens[p])
      ensures var e := Sec(maxlens, p, y);
              HEADSIZE <= e < |tl|
              && if Hits(lengths, i, p + HEADSIZE * y) then tl'[e] == l && tv'[e] == i
                 else tl'[e] == tl[e] && tv'[e] == tv[e]
    {
      PtrMono(maxlens, p, HEADSIZE);
      LongSlot(lengths, maxlens, i, p, y);
    }
    StepLong(lengths, maxlens, tl, tv, tl', tv', i);
  }

  lemma {:induction false} SlotAbove(e: nat, base: nat, k: nat, r: nat, j: nat)
    requires e < base
    ensures !InSlot(e, base, k, r, j)
  {}

  lemma {:induction false} LongHasRoom(lengths: seq<nat>, maxlens: seq<nat>, n: nat, i: nat)
    requires MaxLens(lengths, maxlens, |lengths|) && n < |lengths| && lengths[n] > FIRSTBITS
    requires i == Low(Rev(lengths, n), FIRSTBITS) < HEADSIZE
    ensures lengths[n] <= maxlens[i]
  {
    assert LongAt(lengths, n, i);
  }

  // ----- the tree -----------------------------------------------------------------------------

  class HuffmanTree {
    var codes: seq<nat>
    var lengths: seq<nat>
    var maxbitlen: nat
    var tableLen: seq<nat>
    var tableValue: seq<nat>

    /** The tree is built and can be used to write and to read. */
    ghost predicate Ready()
      reads this
    {
      && ValidLengths(lengths) && |lengths| <= MAX_SYMBOLS
      && Kraft(lengths) <= FULL
      && CodesOk(lengths, codes)
      && TableOk(lengths, tableLen, tableValue)
    }

    constructor ()
      ensures lengths == []
    {
      codes, lengths, maxbitlen, tableLen, tableValue := [], [], 0, [], [];
    }

    /** Codes and table for the lengths already stored. */
    method MakeFromLengths2() returns (error: nat)
      requires maxbitlen <= MAX_BITS && |lengths| <= MAX_SYMBOLS
      requires forall i :: 0 <= i < |lengths| ==> lengths[i] <= maxbitlen
      modifies this
      ensures lengths == old(lengths) && maxbitlen == old(maxbitlen)
      ensures error == if Present(lengths) >= 2 && !Complete(lengths) then 55 else 0
      ensures error == 0 ==> Ready()
    {
      hide CodesOk, TableOk, Kraft, Present;
      codes := MakeCodes(lengths, maxbitlen);
      error, tableLen, tableValue := MakeTable(lengths, codes);
    }

    method MakeFromLengths(bitlen: seq<nat>, maxbitlen: nat) returns (error: nat)
      requires maxbitlen <= MAX_BITS && |bitlen| <= MAX_SYMBOLS
      requires forall i :: 0 <= i < |bitlen| ==> bitlen[i] <= maxbitlen
      modifies this
      ensures lengths == bitlen
      ensures error == if Present(bitlen) >= 2 && !Complete(bitlen) then 55 else 0
      ensures error == 0 ==> Ready()
    {
      hide CodesOk, TableOk, Kraft, Present, Ready;
      this.lengths := bitlen;
      this.maxbitlen := maxbitlen;
      error := MakeFromLengths2();
    }

    /** The bits the encoder sends for symbol `n`. */
    lemma {:induction false} SentBits(n: nat)
      requires Ready() && n < |lengths| && lengths[n] > 0
      ensures n < |codes| && HighFirst(codes[n], lengths[n]) == CodeBits(lengths, n)
    {
      HighFirstLow(Code(lengths, n), lengths[n]);
    }
  }

  // ----- decoding a symbol --------------------------------------------------------------------

  /** Symbol and result of plain prefix decoding of a buffer value. */
  function Symbol(lengths: seq<nat>, buffer: nat): (r: Option<nat>)
  {
    Decode(lengths, LowBits(buffer, MAX_BITS))
  }

  lemma {:induction false} SymbolHit(lengths: seq<nat>, n: nat, buffer: nat)
    requires ValidLengths(lengths) && Kraft(lengths) <= FULL && Hits(lengths, n, buffer)
    ensures Symbol(lengths, buffer) == Some(n)
  {
    hide Hits, Kraft, LowBits, Decode, Low;
    var w := LowBits(buffer, MAX_BITS);
    HitsInRange(lengths, n, buffer);
    ValLowBits(buffer, MAX_BITS);
    LowLow(buffer, MAX_BITS, MAX_BITS);
    HitsLow(lengths, n, buffer, Val(w), MAX_BITS);
    HitsMatch(lengths, n, w);
    DecodeMatch(lengths, n, w);
  }

  lemma {:induction false} SymbolMiss(lengths: seq<nat>, buffer: nat)
    requires ValidLengths(lengths) && forall n: nat :: !Hits(lengths, n, buffer)
    ensures Symbol(lengths, buffer) == None
  {
    hide Hits, LowBits, Low;
    var w := LowBits(buffer, MAX_BITS);
    var r := Decode(lengths, w);
    if r.Some? {
      var n := r.value;
      ValLowBits(buffer, MAX_BITS);
      LowLow(buffer, MAX_BITS, MAX_BITS);
      HitsLow(lengths, n, buffer, Val(w), MAX_BITS);
      HitsMatch(lengths, n, w);
      assert false;
    }
  }

  /** A head entry, looked up with the low nine bits of the buffer. */
  lemma {:induction false} LookupHead(lengths: seq<nat>, el: nat, ev: nat, buffer: nat)
    requires ValidLengths(lengths) && |lengths| <= MAX_SYMBOLS && Kraft(lengths) <= FULL
    requires HeadMeans(lengths, el, ev, Low(buffer, FIRSTBITS))
    ensures match Symbol(lengths, buffer)
            case Some(n) => n == ev && n < |lengths| && el == lengths[n]
            case None => ev == INVALIDSYMBOL
  {
    hide Hits, Kraft, Low, Symbol;
    if Hits(lengths, ev, Low(buffer, FIRSTBITS)) { HitsInRange(lengths, ev, Low(buffer, FIRSTBITS)); }
    if ev < |lengths| && Hits(lengths, ev, Low(buffer, FIRSTBITS)) && el == lengths[ev] {
      LowLow(buffer, FIRSTBITS, FIRSTBITS);
      HitsLow(lengths, ev, buffer, Low(buffer, FIRSTBITS), FIRSTBITS);
      SymbolHit(lengths, ev, buffer);
    } else {
      SymbolMiss(lengths, buffer);
    }
  }

  /** A secondary entry, looked up with the following bits. */
  lemma {:induction false} LookupSecondary(lengths: seq<nat>, el: nat, ev: nat, bits: nat, buffer: nat)
    requires ValidLengths(lengths) && |lengths| <= MAX_SYMBOLS && Kraft(lengths) <= FULL
    requires SecMeans(lengths, el, ev, bits, Low(buffer, FIRSTBITS) + HEADSIZE * Low(Shr(buffer, FIRSTBITS), bits))
    ensures match Symbol(lengths, buffer)
            case Some(n) => n == ev && n < |lengths| && el == lengths[n]
            case None => ev == INVALIDSYMBOL
  {
    hide Hits, Kraft, Low, Symbol, Shr;
    var x := Low(buffer, FIRSTBITS + bits);
    LowSplit(buffer, FIRSTBITS, bits);
    ShlNine(Low(Shr(buffer, FIRSTBITS), bits));
    if Hits(lengths, ev, x) { HitsInRange(lengths, ev, x); }
    if ev < |lengths| && Hits(lengths, ev, x) && el == lengths[ev] <= FIRSTBITS + bits {
      LowLow(buffer, FIRSTBITS + bits, FIRSTBITS + bits);
      HitsLow(lengths, ev, buffer, x, FIRSTBITS + bits);
      SymbolHit(lengths, ev, buffer);
    } else {
      SymbolMiss(lengths, buffer);
    }
  }

  /** One symbol by table lookup: the same symbol, and the same number of bits consumed, as plain
      prefix decoding of the fifteen bits in the buffer. */
  method DecodeSymbol(reader: BitReader, tree: HuffmanTree) returns (r: nat)
    requires tree.Ready()
    modifies reader
    ensures match Symbol(tree.lengths, old(reader.buffer))
            case Some(n) => r == n && n < |tree.lengths| && 0 < tree.lengths[n]
                            && reader.bp == old(reader.bp) + tree.lengths[n]
                            && reader.buffer == Shr(old(reader.buffer), tree.lengths[n])
            case None => r == INVALIDSYMBOL
  {
    hide HeadMeans, SecMeans, Kraft, Low, Shr, Symbol, Pow2;
    ghost var buffer, lengths := reader.buffer, tree.lengths;
    var code := reader.PeekBits(FIRSTBITS);
    NineBits(0);
    var l := tree.tableLen[code];
    var value := tree.tableValue[code];
    assert LineOk(lengths, tree.tableLen, tree.tableValue, code);
    if l <= FIRSTBITS {
      LookupHead(lengths, l, value, buffer);
      HeadShort(lengths, l, value, code);
      reader.AdvanceBits(l, 0);
      r := value;
    } else {
      reader.AdvanceBits(FIRSTBITS, 0);
      var y := reader.PeekBits(l - FIRSTBITS);
      var index2 := value + y;
      assert index2 == SecIndex(tree.tableValue, code, y);
      LookupSecondary(lengths, tree.tableLen[index2], tree.tableValue[index2], l - FIRSTBITS, buffer);
      SecondaryLong(lengths, tree.tableLen[index2], tree.tableValue[index2], l - FIRSTBITS, code + HEADSIZE * y);
      ShrShr(buffer, FIRSTBITS, tree.tableLen[index2] - FIRSTBITS);
      reader.AdvanceBits(tree.tableLen[index2] - FIRSTBITS, 0);
      r := tree.tableValue[index2];
    }
  }

  lemma {:induction false} SecondaryLong(lengths: seq<nat>, el: nat, ev: nat, bits: nat, x: nat)
    requires SecMeans(lengths, el, ev, bits, x)
    ensures FIRSTBITS < el
  {}
}
