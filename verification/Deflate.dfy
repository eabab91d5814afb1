/** Deflate: stored, fixed and dynamic blocks. */
module Deflate {
  import opened Bits
  import opened BitIO
  import opened Huffman
  import opened HuffmanTable
  import opened PackageMerge
  import opened LZ77
  import opened MatchSearch
  import opened LZ77Encoder
  import RunLength
  import opened Inflate
  import opened Refill
  import opened DeflateFormat
  import opened BlockSize

  datatype Settings = Settings(btype: nat, useLz77: bool, windowsize: nat, minmatch: nat, nicematch: nat, lazymatching: bool)

  // ----- trees --------------------------------------------------------------------------------

  /** A tree for the symbols that occur: trailing absent symbols are dropped, but not below
      `mincodes`. It is complete and gives a code to every symbol that occurs. */
  method MakeFromFrequencies(tree: HuffmanTree, frequencies: seq<nat>, mincodes: nat, maxbitlen: nat) returns (error: nat)
    requires 2 <= mincodes <= |frequencies| <= MAX_SYMBOLS && maxbitlen <= MAX_BITS && |frequencies| <= Pow2(maxbitlen)
    modifies tree
    ensures error == 0 && tree.Ready() && Complete(tree.lengths)
    ensures mincodes <= |tree.lengths| <= |frequencies|
    ensures |tree.lengths| == mincodes || frequencies[|tree.lengths| - 1] > 0
    ensures forall i :: 0 <= i < |tree.lengths| ==> tree.lengths[i] <= maxbitlen
    ensures forall i :: 0 <= i < |frequencies| && frequencies[i] > 0 ==> i < |tree.lengths| && tree.lengths[i] > 0
    ensures Optimal(frequencies[..|tree.lengths|], tree.lengths, maxbitlen)
  {
    hide HuffmanTree.Ready, Kraft, Pow2, Optimal;
    var numcodes := |frequencies|;
    while frequencies[numcodes - 1] == 0 && numcodes > mincodes
      invariant mincodes <= numcodes <= |frequencies|
      invariant forall i :: numcodes <= i < |frequencies| ==> frequencies[i] == 0
    {
      numcodes := numcodes - 1;
    }
    tree.maxbitlen := maxbitlen;
    var lengths;
    error, lengths := CodeLengths(frequencies[..numcodes], maxbitlen);
    tree.lengths := lengths;
    assert forall i :: 0 <= i < numcodes ==> frequencies[..numcodes][i] == frequencies[i];
    error := tree.MakeFromLengths2();
  }

  /** The tree sends the codes of `padded`, which may have further symbols without codes. */
  ghost predicate Sends(tree: HuffmanTree, padded: seq<nat>)
    reads tree
  {
    && tree.Ready() && |tree.lengths| <= |padded|
    && (forall n :: 0 <= n < |tree.lengths| ==> padded[n] == tree.lengths[n])
    && (forall n :: 0 <= n < |tree.lengths| && tree.lengths[n] > 0 ==> CodeBits(padded, n) == CodeBits(tree.lengths, n))
    && (forall n :: |tree.lengths| <= n < |padded| ==> padded[n] == 0)
  }

  lemma {:induction false} SendsPadded(tree: HuffmanTree, n: nat)
    requires tree.Ready() && |tree.lengths| <= n
    ensures Sends(tree, Pad(tree.lengths, n))
  {
    hide HuffmanTree.Ready, CodeBits;
    forall k | 0 <= k < |tree.lengths| && tree.lengths[k] > 0
      ensures CodeBits(Pad(tree.lengths, n), k) == CodeBits(tree.lengths, k)
    {
      PadCode(tree.lengths, n, k);
    }
  }

  lemma {:induction false} SendsItself(tree: HuffmanTree)
    requires tree.Ready()
    ensures Sends(tree, tree.lengths)
  {}

  /** One symbol. */
  method WriteSymbol(writer: BitWriter, tree: HuffmanTree, n: nat, ghost padded: seq<nat>)
    requires writer.Valid() && Sends(tree, padded) && n < |padded| && padded[n] > 0
    modifies writer
    ensures writer.Valid() && writer.Written() == old(writer.Written()) + CodeBits(padded, n)
  {
    hide CodeBits, HighFirst, HuffmanTree.Ready, BitWriter.Valid, BitWriter.Written;
    tree.SentBits(n);
    writer.WriteBitsReversed(tree.codes[n], tree.lengths[n]);
  }

  // ----- tokens -------------------------------------------------------------------------------

  lemma {:induction false} FlatPrefix(tokens: seq<Token>, k: nat)
    requires k <= |tokens|
    ensures Flat(tokens[..k]) <= Flat(tokens)
    decreases |tokens|
  {
    if k == |tokens| {
      assert tokens[..k] == tokens;
    } else {
      var t := tokens[..|tokens| - 1];
      FlatPrefix(t, k);
      assert t[..k] == tokens[..k];
    }
  }

  /** Token k in the flat vector. */
  lemma {:induction false} FlatAt(tokens: seq<Token>, k: nat)
    requires k < |tokens|
    ensures var i := |Flat(tokens[..k])|;
            && i + |Stored(tokens[k])| == |Flat(tokens[..k + 1])| <= |Flat(tokens)|
            && Flat(tokens)[i..i + |Stored(tokens[k])|] == Stored(tokens[k])
  {
    hide Stored;
    FlatPrefix(tokens, k + 1);
    assert tokens[..k + 1] == tokens[..k] + [tokens[k]];
    FlatAppend(tokens[..k], tokens[k]);
  }

  /** Lengths and distances in the range of the format. */
  predicate InRange(t: Token) {
    t.Copy? ==> 3 <= t.len <= 258 && 1 <= t.dist <= 32768
  }

  lemma {:induction false} StoredShape(t: Token)
    requires InRange(t)
    ensures match t
            case Literal(b) => Stored(t) == [b]
            case Copy(len, dist) =>
              LengthBase(LengthCode(len)) <= len && DistanceBase(DistanceCode(dist)) <= dist
              && Stored(t) == [LengthCode(len) + 257, len - LengthBase(LengthCode(len)), DistanceCode(dist), dist - DistanceBase(DistanceCode(dist))]
  {
    if t.Copy? { CopyCodes(t.len, t.dist); }
  }

  lemma {:induction false} UsableRange(out: seq<byte>, tokens: seq<Token>, window: nat, i: nat)
    requires AllUsable(out, tokens, window) && window <= 32768 && i < |tokens|
    ensures InRange(tokens[i]) && (tokens[i].Copy? ==> tokens[i].dist <= window)
    decreases i
  {
    hide Apply;
    if i > 0 { UsableRange(Apply(out, tokens[0]), tokens[1..], window, i - 1); }
  }

  lemma {:induction false} UsableWider(out: seq<byte>, tokens: seq<Token>, window: nat, wider: nat)
    requires AllUsable(out, tokens, window) && window <= wider
    ensures AllUsable(out, tokens, wider)
    decreases |tokens|
  {
    hide Apply;
    if tokens != [] { UsableWider(Apply(out, tokens[0]), tokens[1..], window, wider); }
  }

  /** Writes tokens from the flat vector. */
  method WriteLZ77Data(writer: BitWriter, encoded: seq<nat>, treeLL: HuffmanTree, treeD: HuffmanTree,
                       ghost tokens: seq<Token>, ghost ll: seq<nat>, ghost d: seq<nat>)
    requires writer.Valid() && Sends(treeLL, ll) && Sends(treeD, d)
    requires encoded == Flat(tokens) && Sendable(ll, d, tokens)
    modifies writer
    ensures writer.Valid() && writer.Written() == old(writer.Written()) + TokensBits(ll, d, tokens)
  {
    hide Sends, BitWriter.Valid, BitWriter.Written, Stored, Fits, TokenBits, TokensBits, Flat;
    var i := 0;
    ghost var k := 0;
    NoTokens(ll, d, tokens);
    assert old(writer.Written()) + [] == old(writer.Written());
    while i != |encoded|
      invariant 0 <= k <= |tokens| && i == |Flat(tokens[..k])| <= |encoded|
      invariant Sends(treeLL, ll) && Sends(treeD, d) && writer.Valid() && Sendable(ll, d, tokens[..k])
      invariant writer.Written() == old(writer.Written()) + TokensBits(ll, d, tokens[..k])
      decreases |encoded| - i
    {
      assert tokens[..|tokens|] == tokens;
      FlatAt(tokens, k);
      ghost var before := writer.Written();
      assert Fits(ll, d, tokens[k]);
      StoredNotEmpty(ll, d, tokens[k]);
      var n := WriteToken(writer, encoded, i, treeLL, treeD, tokens[k], ll, d);
      TokensBitsAppend(ll, d, tokens[..k], tokens[k]);
      assert tokens[..k + 1] == tokens[..k] + [tokens[k]];
      assert old(writer.Written()) + TokensBits(ll, d, tokens[..k]) + TokenBits(ll, d, tokens[k])
          == old(writer.Written()) + (TokensBits(ll, d, tokens[..k]) + TokenBits(ll, d, tokens[k]));
      i := i + n;
      k := k + 1;
    }
    if k < |tokens| {
      FlatAt(tokens, k);
      StoredNotEmpty(ll, d, tokens[k]);
      assert false;
    }
    assert tokens[..k] == tokens;
  }

  lemma {:induction false} StoredNotEmpty(ll: seq<nat>, d: seq<nat>, t: Token)
    requires Fits(ll, d, t)
    ensures |Stored(t)| > 0
  {
    StoredShape(t);
  }

  lemma {:induction false} NoTokens(ll: seq<nat>, d: seq<nat>, tokens: seq<Token>)
    ensures Sendable(ll, d, tokens[..0]) && TokensBits(ll, d, tokens[..0]) == [] && Flat(tokens[..0]) == []
  {}

  /** One token: its symbol, and for a copy the extra bits and the distance. */
  method WriteToken(writer: BitWriter, encoded: seq<nat>, i: nat, treeLL: HuffmanTree, treeD: HuffmanTree,
                    ghost t: Token, ghost ll: seq<nat>, ghost d: seq<nat>) returns (n: nat)
    requires writer.Valid() && Sends(treeLL, ll) && Sends(treeD, d) && Fits(ll, d, t)
    requires i + |Stored(t)| <= |encoded| && encoded[i..i + |Stored(t)|] == Stored(t)
    modifies writer
    ensures writer.Valid() && writer.Written() == old(writer.Written()) + TokenBits(ll, d, t)
    ensures n == |Stored(t)|
  {
    hide Sends, BitWriter.Valid, BitWriter.Written, Stored, CodeBits, CopyTail, CopyBits,
         LengthBase, LengthExtra, DistanceBase, DistanceExtra, LengthCode, DistanceCode, Pow2;
    StoredShape(t);
    var val := encoded[i];
    assert encoded[i..i + |Stored(t)|][0] == val;
    WriteSymbol(writer, treeLL, val, ll);
    if val > 256 {
      var x, y, z := encoded[i + 1], encoded[i + 2], encoded[i + 3];
      assert encoded[i..i + 4][1] == x && encoded[i..i + 4][2] == y && encoded[i..i + 4][3] == z;
      WriteCopyTail(writer, val - 257, x, y, z, treeD, t.len, t.dist, ll, d);
      CopyBitsSplit(ll, d, t.len, t.dist);
      assert old(writer.Written()) + CodeBits(ll, val) + CopyTail(ll, d, t.len, t.dist)
          == old(writer.Written()) + (CodeBits(ll, val) + CopyTail(ll, d, t.len, t.dist));
      n := 4;
    } else {
      n := 1;
    }
  }

  /** What follows the length symbol of a copy. */
  ghost function CopyTail(ll: seq<nat>, d: seq<nat>, len: nat, dist: nat): (b: seq<bool>)
    requires Fits(ll, d, Copy(len, dist))
  {
    CopyCodes(len, dist);
    var lc, dc := LengthCode(len), DistanceCode(dist);
    LowBits(len - LengthBase(lc), LengthExtra(lc)) + CodeBits(d, dc) + LowBits(dist - DistanceBase(dc), DistanceExtra(dc))
  }

  lemma {:induction false} CopyBitsSplit(ll: seq<nat>, d: seq<nat>, len: nat, dist: nat)
    requires Fits(ll, d, Copy(len, dist))
    ensures CopyBits(ll, d, len, dist) == CodeBits(ll, LengthCode(len) + 257) + CopyTail(ll, d, len, dist)
  {
    hide CodeBits, LowBits, LengthBase, LengthExtra, DistanceBase, DistanceExtra, LengthCode, DistanceCode, Pow2;
    CopyCodes(len, dist);
    var lc, dc := LengthCode(len), DistanceCode(dist);
    var a, b := CodeBits(ll, lc + 257), LowBits(len - LengthBase(lc), LengthExtra(lc));
    var c, e := CodeBits(d, dc), LowBits(dist - DistanceBase(dc), DistanceExtra(dc));
    assert a + b + (c + e) == a + (b + c + e);
  }

  method WriteCopyTail(writer: BitWriter, lengthIndex: nat, lengthExtra: nat, distanceCode: nat, distanceExtra: nat,
                       treeD: HuffmanTree, ghost len: nat, ghost dist: nat, ghost ll: seq<nat>, ghost d: seq<nat>)
    requires writer.Valid() && Sends(treeD, d) && Fits(ll, d, Copy(len, dist))
    requires lengthIndex == LengthCode(len) && LengthBase(lengthIndex) <= len && lengthExtra == len - LengthBase(lengthIndex)
    requires distanceCode == DistanceCode(dist) && DistanceBase(distanceCode) <= dist && distanceExtra == dist - DistanceBase(distanceCode)
    modifies writer
    ensures writer.Valid() && writer.Written() == old(writer.Written()) + CopyTail(ll, d, len, dist)
  {
    hide Sends, BitWriter.Valid, BitWriter.Written, CodeBits, LowBits, LengthCode, DistanceCode,
         LengthBase, LengthExtra, DistanceBase, DistanceExtra, Pow2;
    CopyCodes(len, dist);
    ghost var before := writer.Written();
    OneBit(lengthExtra, LengthExtra(lengthIndex));
    OneBit(distanceExtra, DistanceExtra(distanceCode));
    writer.WriteBits(lengthExtra, LengthExtra(lengthIndex));
    WriteSymbol(writer, treeD, distanceCode, d);
    writer.WriteBits(distanceExtra, DistanceExtra(distanceCode));
    ghost var x, y, z := LowBits(lengthExtra, LengthExtra(lengthIndex)), CodeBits(d, distanceCode), LowBits(distanceExtra, DistanceExtra(distanceCode));
    assert before + x + y + z == before + (x + y + z);
  }

  lemma {:induction false} OneBit(v: nat, n: nat)
    requires v < Pow2(n)
    ensures n == 1 ==> v < 2
  {
    assert Pow2(1) == 2;
  }

  // ----- frequencies --------------------------------------------------------------------------

  /** Every symbol of every token has been counted. */
  ghost predicate Counted(tokens: seq<Token>, fll: seq<nat>, fd: seq<nat>) {
    && |fll| == 286 && |fd| == 30
    && forall i :: 0 <= i < |tokens| ==>
         match tokens[i]
         case Literal(b) => fll[b] > 0
         case Copy(len, dist) => fll[LengthCode(len) + 257] > 0 && fd[DistanceCode(dist)] > 0
  }

  lemma {:induction false} CountMore(tokens: seq<Token>, fll: seq<nat>, fd: seq<nat>, t: Token, fll': seq<nat>, fd': seq<nat>)
    requires Counted(tokens, fll, fd) && |fll'| == 286 && |fd'| == 30
    requires forall i :: 0 <= i < 286 ==> fll[i] <= fll'[i]
    requires forall i :: 0 <= i < 30 ==> fd[i] <= fd'[i]
    requires match t
             case Literal(b) => fll'[b] > 0
             case Copy(len, dist) => fll'[LengthCode(len) + 257] > 0 && fd'[DistanceCode(dist)] > 0
    ensures Counted(tokens + [t], fll', fd')
  {
    hide LengthCode, DistanceCode;
  }

  /** The frequencies are the exact numbers of uses. */
  ghost predicate Tallied(tokens: seq<Token>, fll: seq<nat>, fd: seq<nat>) {
    && |fll| == 286 && |fd| == 30
    && (forall s :: 0 <= s < 286 ==> fll[s] == Uses(tokens, s)) && (forall s :: 0 <= s < 30 ==> fd[s] == DistanceUses(tokens, s))
  }

  lemma {:induction false} TallyMore(tokens: seq<Token>, t: Token, fll: seq<nat>, fd: seq<nat>, fll': seq<nat>, fd': seq<nat>)
    requires Tallied(tokens, fll, fd) && TokenSymbol(t) < 286 && fll' == fll[TokenSymbol(t) := fll[TokenSymbol(t)] + 1]
    requires t.Copy? ==> DistanceCode(t.dist) < 30
    requires fd' == if t.Copy? then fd[DistanceCode(t.dist) := fd[DistanceCode(t.dist)] + 1] else fd
    ensures Tallied(tokens + [t], fll', fd')
  {
    hide LengthCode, DistanceCode, TokenSymbol;
    var more := tokens + [t];
    assert more[..|more| - 1] == tokens && more[|more| - 1] == t;
    forall s | 0 <= s < 286 ensures fll'[s] == Uses(more, s) { assert fll[s] == Uses(tokens, s); }
    forall s | 0 <= s < 30 ensures fd'[s] == DistanceUses(more, s) { assert fd[s] == DistanceUses(tokens, s); }
  }

  lemma {:induction false} NothingTallied(fll: seq<nat>, fd: seq<nat>)
    requires fll == seq(286, _ => 0) && fd == seq(30, _ => 0)
    ensures Tallied([], fll, fd)
  {}

  /** Counts the symbols of both alphabets in the flat vector. */
  method CountFrequencies(encoded: seq<nat>, ghost tokens: seq<Token>) returns (fll: seq<nat>, fd: seq<nat>)
    requires encoded == Flat(tokens) && forall i :: 0 <= i < |tokens| ==> InRange(tokens[i])
    ensures Counted(tokens, fll, fd) && FrequenciesOf(tokens, fll, fd)
  {
    hide Stored, Flat, Counted, LengthCode, DistanceCode, Tallied, Uses, DistanceUses;
    fll, fd := seq(286, _ => 0), seq(30, _ => 0);
    NothingTallied(fll, fd);
    assert tokens[..0] == [];
    assert Counted(tokens[..0], fll, fd) && Flat(tokens[..0]) == [] by { NoneCounted(tokens, fll, fd); }
    var i := 0;
    ghost var k := 0;
    while i != |encoded|
      invariant 0 <= k <= |tokens| && i == |Flat(tokens[..k])| <= |encoded|
      invariant |fll| == 286 && |fd| == 30 && Counted(tokens[..k], fll, fd) && Tallied(tokens[..k], fll, fd)
      decreases |encoded| - i
    {
      assert tokens[..|tokens|] == tokens;
      FlatAt(tokens, k);
      StoredShape(tokens[k]);
      ghost var t, fll0, fd0 := tokens[k], fll, fd;
      var symbol := encoded[i];
      assert encoded[i..i + |Stored(t)|][0] == symbol;
      fll := fll[symbol := fll[symbol] + 1];
      if symbol > 256 {
        var dist := encoded[i + 2];
        assert encoded[i..i + 4][2] == dist;
        fd := fd[dist := fd[dist] + 1];
        i := i + 3;
      }
      CountMore(tokens[..k], fll0, fd0, t, fll, fd);
      TallyMore(tokens[..k], t, fll0, fd0, fll, fd);
      assert tokens[..k + 1] == tokens[..k] + [t];
      i := i + 1;
      k := k + 1;
    }
    if k < |tokens| {
      FlatAt(tokens, k);
      StoredShape(tokens[k]);
      assert false;
    }
    assert tokens[..k] == tokens;
    EndCounted(tokens, fll, fd);
    TalliedIs(tokens, fll, fd);
    fll := fll[256 := 1];
  }

  lemma {:induction false} TalliedIs(tokens: seq<Token>, fll: seq<nat>, fd: seq<nat>)
    requires Tallied(tokens, fll, fd)
    ensures FrequenciesOf(tokens, fll[256 := 1], fd)
  {
    hide Uses, DistanceUses;
  }

  lemma {:induction false} EndCounted(tokens: seq<Token>, fll: seq<nat>, fd: seq<nat>)
    requires Counted(tokens, fll, fd)
    ensures Counted(tokens, fll[256 := 1], fd)
  {
    hide LengthCode, DistanceCode;
  }

  lemma {:induction false} NoneCounted(tokens: seq<Token>, fll: seq<nat>, fd: seq<nat>)
    requires |fll| == 286 && |fd| == 30
    ensures Counted(tokens[..0], fll, fd) && Flat(tokens[..0]) == []
  {}

  // ----- packed code lengths ------------------------------------------------------------------

  lemma {:induction false} RunFlatPrefix(runs: seq<RunLength.Run>, k: nat)
    requires k <= |runs|
    ensures RunLength.Flat(runs[..k]) <= RunLength.Flat(runs)
    decreases |runs|
  {
    if k == |runs| {
      assert runs[..k] == runs;
    } else {
      var t := runs[..|runs| - 1];
      RunFlatPrefix(t, k);
      assert t[..k] == runs[..k];
    }
  }

  /** Run k in the flat vector. */
  lemma {:induction false} RunFlatAt(runs: seq<RunLength.Run>, k: nat)
    requires k < |runs|
    ensures var i := |RunLength.Flat(runs[..k])|;
            && i + |RunLength.Stored(runs[k])| == |RunLength.Flat(runs[..k + 1])| <= |RunLength.Flat(runs)|
            && RunLength.Flat(runs)[i..i + |RunLength.Stored(runs[k])|] == RunLength.Stored(runs[k])
  {
    hide RunLength.Stored;
    RunFlatPrefix(runs, k + 1);
    assert runs[..k + 1] == runs[..k] + [runs[k]];
    RunLength.FlatAppend(runs[..k], runs[k]);
  }

  lemma {:induction false} RunShape(r: RunLength.Run, before: nat)
    requires RunLength.ValidRun(r, before)
    ensures RunCode(r).0 <= 18
    ensures RunLength.Stored(r) == if RunCode(r).0 < 16 then [RunCode(r).0] else [RunCode(r).0, RunCode(r).1]
    ensures RunCode(r).0 < 16 ==> RunCode(r).2 == 0
    ensures RunCode(r).0 >= 16 ==> RunCode(r).2 == if RunCode(r).0 == 16 then 2 else if RunCode(r).0 == 17 then 3 else 7
  {}

  /** Ranges of all runs of a valid sequence. */
  lemma {:induction false} RunRange(acc: seq<nat>, runs: seq<RunLength.Run>, i: nat) returns (before: nat)
    requires RunLength.ValidRuns(acc, runs) && i < |runs|
    ensures RunLength.ValidRun(runs[i], before)
    decreases i
  {
    hide RunLength.Unpack;
    if i > 0 {
      before := RunRange(RunLength.Unpack(acc, runs[0]), runs[1..], i - 1);
    } else {
      before := |acc|;
    }
  }

  /** Every symbol of every run has been counted. */
  ghost predicate RunsCounted(runs: seq<RunLength.Run>, fcl: seq<nat>) {
    |fcl| == 19 && forall i :: 0 <= i < |runs| ==> RunCode(runs[i]).0 < 19 && fcl[RunCode(runs[i]).0] > 0
  }

  /** How often the runs use a symbol. */
  function RunUses(runs: seq<RunLength.Run>, symbol: nat): (n: nat)
  {
    if runs == [] then 0 else RunUses(runs[..|runs| - 1], symbol) + if RunCode(runs[|runs| - 1]).0 == symbol then 1 else 0
  }

  function RunFrequencies(runs: seq<RunLength.Run>): (f: seq<nat>)
    ensures |f| == 19 && forall s :: 0 <= s < 19 ==> f[s] == RunUses(runs, s)
  {
    seq(19, (s: nat) => RunUses(runs, s))
  }

  ghost predicate RunsTallied(runs: seq<RunLength.Run>, fcl: seq<nat>) {
    |fcl| == 19 && forall s :: 0 <= s < 19 ==> fcl[s] == RunUses(runs, s)
  }

  lemma {:induction false} RunTally(runs: seq<RunLength.Run>, r: RunLength.Run, fcl: seq<nat>)
    requires RunsTallied(runs, fcl) && RunCode(r).0 < 19
    ensures RunsTallied(runs + [r], fcl[RunCode(r).0 := fcl[RunCode(r).0] + 1])
  {
    hide RunCode;
    assert (runs + [r])[..|runs|] == runs;
  }

  lemma {:induction false} NoneTallied(runs: seq<RunLength.Run>, fcl: seq<nat>)
    requires runs == [] && |fcl| == 19 && forall s :: 0 <= s < 19 ==> fcl[s] == 0
    ensures RunsTallied(runs, fcl)
  {}

  method CountRunFrequencies(packed: seq<nat>, ghost runs: seq<RunLength.Run>) returns (fcl: seq<nat>)
    requires packed == RunLength.Flat(runs) && RunLength.ValidRuns([], runs)
    ensures RunsCounted(runs, fcl) && RunsTallied(runs, fcl)
  {
    hide RunLength.Stored, RunLength.Flat, RunCode, RunLength.ValidRuns, RunsTallied;
    fcl := seq(19, _ => 0);
    NoneTallied(runs[..0], fcl);
    assert RunLength.Flat(runs[..0]) == [] by { NoRuns(runs); }
    var i := 0;
    ghost var k := 0;
    while i != |packed|
      invariant 0 <= k <= |runs| && i == |RunLength.Flat(runs[..k])| <= |packed|
      invariant RunsCounted(runs[..k], fcl) && RunsTallied(runs[..k], fcl)
      decreases |packed| - i
    {
      assert runs[..|runs|] == runs;
      RunFlatAt(runs, k);
      ghost var r := runs[k];
      ghost var before := RunRange([], runs, k);
      RunShape(r, before);
      var symbol := packed[i];
      assert packed[i..i + |RunLength.Stored(r)|][0] == symbol;
      RunTally(runs[..k], r, fcl);
      fcl := fcl[symbol := fcl[symbol] + 1];
      if symbol >= 16 { i := i + 1; }
      assert runs[..k + 1] == runs[..k] + [r];
      i := i + 1;
      k := k + 1;
    }
    if k < |runs| {
      RunFlatAt(runs, k);
      ghost var before := RunRange([], runs, k);
      RunShape(runs[k], before);
      assert false;
    }
    assert runs[..k] == runs;
  }

  lemma {:induction false} NoRuns(runs: seq<RunLength.Run>)
    ensures RunLength.Flat(runs[..0]) == []
  {}

  /** Writes the packed code lengths. */
  method WriteRuns(writer: BitWriter, packed: seq<nat>, tree: HuffmanTree, ghost runs: seq<RunLength.Run>)
    requires writer.Valid() && tree.Ready() && RunsFit(tree.lengths, runs)
    requires packed == RunLength.Flat(runs) && RunLength.ValidRuns([], runs)
    modifies writer
    ensures writer.Valid() && writer.Written() == old(writer.Written()) + RunsBits(tree.lengths, runs)
  {
    hide RunLength.Stored, RunLength.Flat, RunLength.ValidRuns, RunFits, RunBits, RunsBits, RunCode, HuffmanTree.Ready,
         BitWriter.Valid, BitWriter.Written;
    ghost var cl := tree.lengths;
    NoRunBits(cl, runs);
    assert old(writer.Written()) + [] == old(writer.Written());
    var i := 0;
    ghost var k := 0;
    while i != |packed|
      invariant 0 <= k <= |runs| && i == |RunLength.Flat(runs[..k])| <= |packed|
      invariant writer.Valid() && tree.Ready() && tree.lengths == cl && RunsFit(cl, runs[..k])
      invariant writer.Written() == old(writer.Written()) + RunsBits(cl, runs[..k])
      decreases |packed| - i
    {
      assert runs[..|runs|] == runs;
      RunFlatAt(runs, k);
      ghost var r := runs[k];
      ghost var before := RunRange([], runs, k);
      var n := WriteRun(writer, packed, i, tree, r, before);
      RunsBitsAppend(cl, runs[..k], r);
      assert runs[..k + 1] == runs[..k] + [r];
      assert old(writer.Written()) + RunsBits(cl, runs[..k]) + RunBits(cl, r)
          == old(writer.Written()) + (RunsBits(cl, runs[..k]) + RunBits(cl, r));
      i := i + n;
      k := k + 1;
    }
    if k < |runs| {
      RunFlatAt(runs, k);
      ghost var before := RunRange([], runs, k);
      RunShape(runs[k], before);
      assert false;
    }
    assert runs[..k] == runs;
  }

  lemma {:induction false} NoRunBits(cl: seq<nat>, runs: seq<RunLength.Run>)
    ensures RunsFit(cl, runs[..0]) && RunsBits(cl, runs[..0]) == [] && RunLength.Flat(runs[..0]) == []
  {}

  method WriteRun(writer: BitWriter, packed: seq<nat>, i: nat, tree: HuffmanTree, ghost r: RunLength.Run, ghost before: nat)
    returns (n: nat)
    requires writer.Valid() && tree.Ready() && RunFits(tree.lengths, r) && RunLength.ValidRun(r, before)
    requires i + |RunLength.Stored(r)| <= |packed| && packed[i..i + |RunLength.Stored(r)|] == RunLength.Stored(r)
    modifies writer
    ensures writer.Valid() && writer.Written() == old(writer.Written()) + RunBits(tree.lengths, r)
    ensures n == |RunLength.Stored(r)| > 0
  {
    hide RunLength.Stored, RunLength.ValidRun, RunCode, HuffmanTree.Ready, BitWriter.Valid, BitWriter.Written, CodeBits, LowBits, Sends;
    RunShape(r, before);
    ghost var s := RunLength.Stored(r);
    var symbol := packed[i];
    assert packed[i..i + |s|][0] == symbol;
    SendsItself(tree);
    ghost var c := CodeBits(tree.lengths, symbol);
    WriteSymbol(writer, tree, symbol, tree.lengths);
    n := 1;
    ghost var x := LowBits(RunCode(r).1, RunCode(r).2);
    if symbol >= 16 {
      assert packed[i..i + 2][1] == packed[i + 1];
      writer.WriteBits(packed[i + 1], if symbol == 16 then 2 else if symbol == 17 then 3 else 7);
      n := 2;
    } else {
      assert x == [];
    }
    assert old(writer.Written()) + c + x == old(writer.Written()) + (c + x);
  }

  /** Writes the lengths of the code length alphabet. */
  method WriteClcl(writer: BitWriter, cl: seq<nat>, hclen: nat)
    requires writer.Valid() && |cl| == 19 && hclen <= 19
    modifies writer
    ensures writer.Valid() && writer.Written() == old(writer.Written()) + ClclBits(cl, hclen)
  {
    hide BitWriter.Valid, BitWriter.Written, LowBits;
    assert old(writer.Written()) + [] == old(writer.Written());
    var i := 0;
    while i != hclen
      invariant 0 <= i <= hclen && writer.Valid()
      invariant writer.Written() == old(writer.Written()) + ClclBits(cl, i)
    {
      ClclInRange(i);
      writer.WriteBits(cl[CLCL_ORDER[i]], 3);
      ghost var x := LowBits(cl[CLCL_ORDER[i]], 3);
      assert ClclBits(cl, i + 1) == ClclBits(cl, i) + x;
      assert old(writer.Written()) + ClclBits(cl, i) + x == old(writer.Written()) + (ClclBits(cl, i) + x);
      i := i + 1;
    }
  }

  /** How many of the code length code lengths have to be sent: at least four, up to the last one that is not zero. */
  method CountClcl(cl: seq<nat>) returns (hclen: nat)
    requires |cl| == 19
    ensures 4 <= hclen <= 19
    ensures forall i :: hclen <= i < 19 ==> CLCL_ORDER[i] < 19 && cl[CLCL_ORDER[i]] == 0
    ensures hclen == 4 || (CLCL_ORDER[hclen - 1] < 19 && cl[CLCL_ORDER[hclen - 1]] != 0)
  {
    hclen := 19;
    ClclInRange(18);
    while hclen > 4 && cl[CLCL_ORDER[hclen - 1]] == 0
      invariant 4 <= hclen <= 19 && CLCL_ORDER[hclen - 1] < 19
      invariant forall i :: hclen <= i < 19 ==> CLCL_ORDER[i] < 19 && cl[CLCL_ORDER[i]] == 0
    {
      ClclInRange(hclen - 2);
      hclen := hclen - 1;
    }
  }

  // ----- blocks -------------------------------------------------------------------------------

  /** Error of the LZ77 settings: the window must be a power of two up to 32768. */
  function WindowError(settings: Settings): (e: nat)
  {
    if !settings.useLz77 then 0
    else if settings.windowsize == 0 || settings.windowsize > 32768 then 60
    else if !IsPowerOfTwo(settings.windowsize) then 90
    else 0
  }

  /** The window within which the tokens refer back. */
  function Reach(settings: Settings): (w: nat)
  {
    if settings.useLz77 then settings.windowsize else 1
  }

  /** The hash is ready for position n, if it is going to be used. */
  ghost predicate HashReady(hash: Hash, data: seq<byte>, n: nat, settings: Settings)
    reads hash
  {
    settings.useLz77 && 0 < settings.windowsize ==> hash.Ok(data, n) && hash.Window() == settings.windowsize && !hash.forgot
  }

  /** The tokens of a block: with LZ77 those that the encoder's rules choose after the hashes and zero counts entered before, and
      otherwise one literal for each byte. */
  ghost predicate Tokenized(data: seq<byte>, start: nat, end: nat, settings: Settings, hashes: seq<nat>, counts: seq<nat>, tokens: seq<Token>) {
    && start <= end <= |data|
    && if settings.useLz77 then
         && |hashes| == |counts| == start && EndOf(start, tokens) == end
         && Parsed(RulesFor(hashes, counts, data, end, settings.windowsize, settings.minmatch, settings.nicematch, settings.lazymatching),
                   start, tokens, false)
       else
         |tokens| == end - start && forall i :: 0 <= i < |tokens| ==> tokens[i] == Literal(data[start + i])
  }

  /** The positions of a block were entered after those before it. */
  ghost predicate Entered(hash: Hash, data: seq<byte>, end: nat, settings: Settings, hashes: seq<nat>, counts: seq<nat>)
    reads hash
  {
    settings.useLz77 ==>
      && |hashes| == |counts| <= end <= |data|
      && hash.hashes == Hashes(hashes, data, end) && hash.counts == Counts(counts, data, end)
  }

  /** LZ77 tokens, or one literal for each byte. */
  method Tokenize(hash: Hash, data: seq<byte>, start: nat, end: nat, settings: Settings)
    returns (error: nat, encoded: seq<nat>, ghost tokens: seq<Token>)
    requires start <= end <= |data| && HashReady(hash, data, start, settings)
    modifies hash
    ensures error == WindowError(settings)
    ensures error == 0 ==> HashReady(hash, data, end, settings)
    ensures error == 0 ==> 0 < Reach(settings) <= 32768 && Encoded(data, start, Reach(settings), end, tokens, encoded)
    ensures error == 0 ==> Tokenized(data, start, end, settings, old(hash.hashes), old(hash.counts), tokens)
    ensures error == 0 ==> Entered(hash, data, end, settings, old(hash.hashes), old(hash.counts))
  {
    hide Encoded, Hash.Ok, IsPowerOfTwo, Parsed, Hashes, Counts;
    if settings.useLz77 {
      error, encoded, tokens := EncodeLZ77(hash, data, start, end, settings.windowsize, settings.minmatch,
                                           settings.nicematch, settings.lazymatching);
    } else {
      error, encoded, tokens := 0, [], [];
      EncodeNothing(data, start, 1);
      var i := start;
      while i < end
        invariant start <= i <= end && Encoded(data, start, 1, i, tokens, encoded)
        invariant |tokens| == i - start && forall k :: 0 <= k < |tokens| ==> tokens[k] == Literal(data[start + k])
      {
        EncodeLiteral(data, start, 1, i, tokens, encoded);
        encoded, tokens := encoded + [data[i]], tokens + [Literal(data[i])];
        i := i + 1;
      }
    }
  }

  /** Settings and sizes for which every distance fits the reader's refill wherever it stands: no distances
      behind 15-bit codes, or none above 2048. A copy of three bytes in 2051 bytes reaches no further. */
  predicate Safe(settings: Settings, size: nat) {
    settings.btype != 2 || !settings.useLz77 || settings.windowsize <= 2048 || size <= 2051
  }

  /** The block stands for data[start..end] and was written after what was there before. */
  ghost predicate BlockFor(b: Block, data: seq<byte>, start: nat, end: nat, settings: Settings) {
    && start <= end <= |data|
    && ValidBlock(b, data[..start]) && Expand(data[..start], b.tokens) == data[..end]
    && (Safe(settings, |data|) ==> AllNear(BlockD(b), b.tokens))
  }

  lemma {:induction false} FixedFits(t: Token)
    requires InRange(t)
    ensures Fits(FixedLL(), FixedD(), t) && Near(FixedD(), t)
  {
    if t.Copy? { CopyCodes(t.len, t.dist); }
  }

  lemma {:induction false} FixedBlock(data: seq<byte>, start: nat, end: nat, settings: Settings, tokens: seq<Token>, encoded: seq<nat>)
    requires 0 < Reach(settings) <= 32768 && end <= |data| && Encoded(data, start, Reach(settings), end, tokens, encoded)
    ensures BlockFor(Fixed(tokens), data, start, end, settings) && Sendable(FixedLL(), FixedD(), tokens)
    ensures encoded == Flat(tokens)
  {
    hide Fits, FixedLL, FixedD, Near, InRange, Expand, AllUsable, Flat;
    forall i | 0 <= i < |tokens| ensures Fits(FixedLL(), FixedD(), tokens[i]) && Near(FixedD(), tokens[i]) {
      UsableRange(data[..start], tokens, Reach(settings) - 1, i);
      FixedFits(tokens[i]);
    }
    UsableWider(data[..start], tokens, Reach(settings) - 1, 32768);
  }

  /** A block with the fixed trees. */
  method DeflateFixed(writer: BitWriter, hash: Hash, data: seq<byte>, start: nat, end: nat, settings: Settings, final: bool)
    returns (error: nat, ghost b: Block)
    requires writer.Valid() && start <= end <= |data| && HashReady(hash, data, start, settings)
    modifies writer, hash
    ensures error == WindowError(settings) && writer.Valid()
    ensures error == 0 ==> HashReady(hash, data, end, settings) && BlockFor(b, data, start, end, settings) && b.Fixed?
    ensures error == 0 ==> Tokenized(data, start, end, settings, old(hash.hashes), old(hash.counts), b.tokens)
    ensures error == 0 ==> Entered(hash, data, end, settings, old(hash.hashes), old(hash.counts))
    ensures error == 0 ==> writer.Written() == old(writer.Written()) + BlockBits(b, final)
  {
    hide BitWriter.Valid, BitWriter.Written, Encoded, Hash.Ok, Tokenized, Entered, Sends, HuffmanTree.Ready, FixedLL, FixedD, BlockFor, TokensBits, CodeBits, LowBits;
    b := Fixed([]);
    var treeLL := new HuffmanTree();
    var treeD := new HuffmanTree();
    GetTreeInflateFixed(treeLL, treeD);
    WriteType(writer, final, 1);
    ghost var before := writer.Written();
    var encoded;
    ghost var tokens;
    error, encoded, tokens := Tokenize(hash, data, start, end, settings);
    if error != 0 { return; }
    b := Fixed(tokens);
    FixedBlock(data, start, end, settings, tokens, encoded);
    SendsItself(treeLL);
    SendsItself(treeD);
    WriteLZ77Data(writer, encoded, treeLL, treeD, tokens, FixedLL(), FixedD());
    EndCode(b);
    WriteSymbol(writer, treeLL, 256, FixedLL());
    FixedBits(old(writer.Written()), before, b, final);
  }

  lemma {:induction false} EndCode(b: Block)
    requires b.Fixed?
    ensures |FixedLL()| == 288 && FixedLL()[256] > 0
  {}

  lemma {:induction false} FixedBits(w: seq<bool>, before: seq<bool>, b: Block, final: bool)
    requires b.Fixed? && Sendable(FixedLL(), FixedD(), b.tokens)
    requires before == w + (LowBits(BitVal(final), 1) + LowBits(1, 2))
    ensures before + TokensBits(FixedLL(), FixedD(), b.tokens) + CodeBits(FixedLL(), 256) == w + BlockBits(b, final)
  {
    hide FixedLL, FixedD, TokensBits, CodeBits, LowBits, Sendable;
    var h, t, e := LowBits(BitVal(final), 1) + LowBits(1, 2), TokensBits(FixedLL(), FixedD(), b.tokens), CodeBits(FixedLL(), 256);
    assert w + h + t + e == w + (h + (t + e));
  }

  /** The three bits in front of every block. */
  method WriteType(writer: BitWriter, final: bool, btype: nat)
    requires writer.Valid() && (btype == 1 || btype == 2)
    modifies writer
    ensures writer.Valid()
    ensures writer.Written() == old(writer.Written()) + (LowBits(BitVal(final), 1) + LowBits(btype, 2))
  {
    hide BitWriter.Valid, BitWriter.Written;
    writer.WriteBits(if final then 1 else 0, 1);
    writer.WriteBits(if btype == 1 then 1 else 0, 1);
    writer.WriteBits(if btype == 1 then 0 else 1, 1);
    assert LowBits(0, 1) == [false] && LowBits(1, 1) == [true];
    assert LowBits(1, 2) == [true, false] && LowBits(2, 2) == [false, true];
    ghost var f := LowBits(BitVal(final), 1);
    ghost var x, y: seq<bool> := [btype == 1], [btype != 1];
    assert old(writer.Written()) + f + x + y == old(writer.Written()) + (f + (x + y));
  }

  /** The parts of a dynamic block, before it is written. */
  lemma {:induction false} DynamicBlock(data: seq<byte>, start: nat, end: nat, settings: Settings, encoded: seq<nat>,
                                        fll: seq<nat>, fd: seq<nat>, fcl: seq<nat>, packed: seq<nat>, b: Block)
    requires b.Dynamic? && settings.btype == 2
    requires 0 < Reach(settings) <= 32768 && end <= |data| && Encoded(data, start, Reach(settings), end, b.tokens, encoded)
    requires Counted(b.tokens, fll, fd) && fll[256] > 0 && RunsCounted(b.runs, fcl)
    requires 257 <= |b.ll| <= 286 && 2 <= |b.d| <= 30 && |b.cl| == 19
    requires Complete(b.ll) && Complete(b.d) && Complete(b.cl)
    requires ValidLengths(b.ll) && ValidLengths(b.d) && forall k :: 0 <= k < 19 ==> b.cl[k] <= 7
    requires forall i :: 0 <= i < 286 && fll[i] > 0 ==> i < |b.ll| && b.ll[i] > 0
    requires forall i :: 0 <= i < 30 && fd[i] > 0 ==> i < |b.d| && b.d[i] > 0
    requires forall i :: 0 <= i < 19 && fcl[i] > 0 ==> b.cl[i] > 0
    requires RunLength.Packed(b.ll + b.d, |b.ll + b.d|, b.runs, packed)
    requires 4 <= b.hclen <= 19 && forall i :: b.hclen <= i < 19 ==> CLCL_ORDER[i] < 19 && b.cl[CLCL_ORDER[i]] == 0
    ensures BlockFor(b, data, start, end, settings) && ValidHeader(b)
    ensures encoded == Flat(b.tokens) && packed == RunLength.Flat(b.runs)
  {
    hide Complete, RunLength.ValidRuns, RunLength.UnpackAll, RunLength.Flat, RunCode, Fits, Near, InRange, Expand, AllUsable, Flat, CLCL_ORDER, Pad;
    assert (b.ll + b.d)[..|b.ll + b.d|] == b.ll + b.d;
    CompleteIsUsable(b.d);
    forall i | 0 <= i < |b.tokens|
      ensures Fits(Pad(b.ll, 288), Pad(b.d, 32), b.tokens[i])
      ensures Safe(settings, |data|) ==> Near(Pad(b.d, 32), b.tokens[i])
    {
      UsableRange(data[..start], b.tokens, Reach(settings) - 1, i);
      PaddedFits(b.tokens, fll, fd, b.ll, b.d, i);
      UsableShort(data[..start], b.tokens, Reach(settings) - 1, i);
      if Safe(settings, |data|) { PaddedNear(b.d, b.tokens[i]); }
    }
    UsableWider(data[..start], b.tokens, Reach(settings) - 1, 32768);
  }

  lemma {:induction false} CompleteIsUsable(lengths: seq<nat>)
    requires Complete(lengths)
    ensures Kraft(lengths) <= FULL && !BadTree(lengths)
  {}

  lemma {:induction false} PaddedFits(tokens: seq<Token>, fll: seq<nat>, fd: seq<nat>, ll: seq<nat>, d: seq<nat>, i: nat)
    requires Counted(tokens, fll, fd) && i < |tokens| && InRange(tokens[i]) && |ll| <= 288 && |d| <= 32
    requires forall i :: 0 <= i < 286 && fll[i] > 0 ==> i < |ll| && ll[i] > 0
    requires forall i :: 0 <= i < 30 && fd[i] > 0 ==> i < |d| && d[i] > 0
    ensures Fits(Pad(ll, 288), Pad(d, 32), tokens[i])
  {
    hide LengthCode, DistanceCode;
    match tokens[i]
    case Literal(b) =>
    case Copy(len, dist) =>
      assert fll[LengthCode(len) + 257] > 0 && fd[DistanceCode(dist)] > 0;
  }

  lemma {:induction false} PaddedNear(d: seq<nat>, t: Token)
    requires InRange(t) && ValidLengths(d) && |d| <= 32 && (t.Copy? ==> t.dist <= 2048)
    ensures Near(Pad(d, 32), t)
  {
    hide DistanceCode, DistanceExtra;
    if t.Copy? { ShortDistance(t.dist); }
  }

  /** A copy reaches back at most to the start, and makes three bytes at least. */
  lemma {:induction false} UsableShort(out: seq<byte>, tokens: seq<Token>, window: nat, i: nat)
    requires AllUsable(out, tokens, window) && i < |tokens|
    ensures tokens[i].Copy? ==> tokens[i].dist <= window && tokens[i].dist + 3 <= |Expand(out, tokens)|
    decreases |tokens|
  {
    hide Apply;
    ApplyLength(out, tokens[0]);
    if i == 0 {
      ExpandGrows(Apply(out, tokens[0]), tokens[1..]);
    } else {
      UsableShort(Apply(out, tokens[0]), tokens[1..], window, i - 1);
    }
  }

  lemma {:induction false} ApplyLength(out: seq<byte>, t: Token)
    ensures |out| <= |Apply(out, t)|
    ensures t.Copy? && 1 <= t.dist <= |out| ==> |Apply(out, t)| == |out| + t.len
  {
    if t.Copy? && 1 <= t.dist <= |out| { CopyNext(out, t.dist, t.len); }
  }

  lemma {:induction false} ExpandGrows(out: seq<byte>, tokens: seq<Token>)
    ensures |out| <= |Expand(out, tokens)|
    decreases |tokens|
  {
    hide Apply;
    if tokens != [] {
      ApplyLength(out, tokens[0]);
      ExpandGrows(Apply(out, tokens[0]), tokens[1..]);
    }
  }

  /** The header of a dynamic block says no more than it has to: the alphabets end with a symbol in use, or at their least sizes; the
      code lengths are run-length coded by the rule, with a code of least weighted length for the runs; and the lengths of that
      code end with one that is not zero, or after four. */
  ghost predicate Trim(b: Block)
    requires b.Dynamic?
  {
    && 257 <= |b.ll| <= 286 && (|b.ll| == 257 || Uses(b.tokens, |b.ll| - 1) > 0)
    && 2 <= |b.d| <= 30 && (|b.d| == 2 || DistanceUses(b.tokens, |b.d| - 1) > 0)
    && b.runs == RunLength.RunsFrom(b.ll + b.d, 0)
    && |b.cl| == 19 && Optimal(RunFrequencies(b.runs), b.cl, 7)
    && 4 <= b.hclen <= 19 && (b.hclen == 4 || (CLCL_ORDER[b.hclen - 1] < 19 && b.cl[CLCL_ORDER[b.hclen - 1]] != 0))
  }

  lemma {:induction false} HeaderTrim(b: Block, fll: seq<nat>, fd: seq<nat>, fcl: seq<nat>)
    requires b.Dynamic? && FrequenciesOf(b.tokens, fll, fd) && RunsTallied(b.runs, fcl)
    requires 257 <= |b.ll| <= 286 && (|b.ll| == 257 || fll[|b.ll| - 1] > 0)
    requires 2 <= |b.d| <= 30 && (|b.d| == 2 || fd[|b.d| - 1] > 0)
    requires b.runs == RunLength.RunsFrom(b.ll + b.d, 0)
    requires |b.cl| == 19 && |fcl| == 19 && Optimal(fcl, b.cl, 7)
    requires 4 <= b.hclen <= 19 && (b.hclen == 4 || (CLCL_ORDER[b.hclen - 1] < 19 && b.cl[CLCL_ORDER[b.hclen - 1]] != 0))
    ensures Trim(b)
  {
    hide Uses, DistanceUses, Optimal, RunUses, CLCL_ORDER;
    assert fcl == RunFrequencies(b.runs);
  }

  /** The code lengths of both alphabets, packed, with the code for the runs. */
  method BuildHeader(lld: seq<nat>, treeCL: HuffmanTree) returns (packed: seq<nat>, hclen: nat, ghost runs: seq<RunLength.Run>, ghost fcl: seq<nat>)
    requires forall k :: 0 <= k < |lld| ==> lld[k] <= 15
    modifies treeCL
    ensures treeCL.Ready() && Complete(treeCL.lengths) && |treeCL.lengths| == 19 && forall k :: 0 <= k < 19 ==> treeCL.lengths[k] <= 7
    ensures RunLength.Packed(lld, |lld|, runs, packed) && runs == RunLength.RunsFrom(lld, 0)
    ensures RunsCounted(runs, fcl) && RunsTallied(runs, fcl) && |fcl| == 19 && Optimal(fcl, treeCL.lengths, 7)
    ensures forall i :: 0 <= i < 19 && fcl[i] > 0 ==> treeCL.lengths[i] > 0
    ensures 4 <= hclen <= 19 && forall i :: hclen <= i < 19 ==> CLCL_ORDER[i] < 19 && treeCL.lengths[CLCL_ORDER[i]] == 0
    ensures hclen == 4 || (CLCL_ORDER[hclen - 1] < 19 && treeCL.lengths[CLCL_ORDER[hclen - 1]] != 0)
  {
    hide HuffmanTree.Ready, Complete, Optimal, RunsCounted, RunsTallied, RunLength.Packed, CLCL_ORDER, RunLength.Flat, Pow2;
    BigEnough();
    packed, runs := RunLength.PackLengths(lld);
    PackedRuns(lld, runs, packed);
    var f := CountRunFrequencies(packed, runs);
    fcl := f;
    RunsCountedSize(runs, f);
    var error := MakeFromFrequencies(treeCL, f, 19, 7);
    assert f[..19] == f;
    hclen := CountClcl(treeCL.lengths);
  }

  /** The trees and packed lengths of a dynamic block. */
  method BuildDynamic(treeLL: HuffmanTree, treeD: HuffmanTree, treeCL: HuffmanTree, encoded: seq<nat>, data: seq<byte>,
                      ghost start: nat, ghost end: nat, settings: Settings, ghost tokens: seq<Token>)
    returns (packed: seq<nat>, hclen: nat, ghost b: Block)
    requires treeLL != treeD && treeLL != treeCL && treeD != treeCL && settings.btype == 2
    requires 0 < Reach(settings) <= 32768 && end <= |data| && Encoded(data, start, Reach(settings), end, tokens, encoded)
    modifies treeLL, treeD, treeCL
    ensures treeLL.Ready() && treeD.Ready() && treeCL.Ready()
    ensures b.Dynamic? && b.tokens == tokens && b.ll == treeLL.lengths && b.d == treeD.lengths && b.cl == treeCL.lengths && b.hclen == hclen
    ensures BlockFor(b, data, start, end, settings) && ValidHeader(b)
    ensures encoded == Flat(tokens) && packed == RunLength.Flat(b.runs) && Shortest(b) && Trim(b)
  {
    hide HuffmanTree.Ready, Complete, Encoded, Counted, FrequenciesOf, Optimal, Shortest, Trim, RunsCounted, RunsTallied, RunLength.Packed,
         RunLength.RunsFrom, CLCL_ORDER, BlockFor, ValidHeader, Flat, RunLength.Flat, Pow2;
    EncodedFlat(data, start, Reach(settings), end, tokens, encoded);
    var fll, fd := CountFrequencies(encoded, tokens);
    CountedSizes(tokens, fll, fd);
    BigEnough();
    var error := MakeFromFrequencies(treeLL, fll, 257, 15);
    error := MakeFromFrequencies(treeD, fd, 2, 15);
    ghost var runs, fcl;
    packed, hclen, runs, fcl := BuildHeader(treeLL.lengths + treeD.lengths, treeCL);
    b := Dynamic(tokens, treeLL.lengths, treeD.lengths, treeCL.lengths, hclen, runs);
    EndMark(tokens, fll, fd);
    DynamicBlock(data, start, end, settings, encoded, fll, fd, fcl, packed, b);
    ForCodes(b, data, start, end, settings);
    BestCodes(b, fll, fd);
    HeaderTrim(b, fll, fd, fcl);
  }

  lemma {:induction false} EndMark(tokens: seq<Token>, fll: seq<nat>, fd: seq<nat>)
    requires FrequenciesOf(tokens, fll, fd)
    ensures |fll| == 286 && fll[256] > 0
  {}

  lemma {:induction false} ForCodes(b: Block, data: seq<byte>, start: nat, end: nat, settings: Settings)
    requires BlockFor(b, data, start, end, settings)
    ensures Codes(b)
  {
    hide ValidHeader, Sendable, Expand, AllUsable, AllNear;
  }

  lemma {:induction false} EncodedFlat(data: seq<byte>, start: nat, window: nat, end: nat, tokens: seq<Token>, encoded: seq<nat>)
    requires window <= 32768 && Encoded(data, start, window, end, tokens, encoded)
    ensures encoded == Flat(tokens) && forall i :: 0 <= i < |tokens| ==> InRange(tokens[i])
  {
    hide Flat, InRange, AllUsable;
    forall i | 0 <= i < |tokens| ensures InRange(tokens[i]) { UsableRange(data[..start], tokens, window - 1, i); }
  }

  lemma {:induction false} CountedSizes(tokens: seq<Token>, fll: seq<nat>, fd: seq<nat>)
    requires Counted(tokens, fll, fd)
    ensures |fll| == 286 && |fd| == 30
  {}

  lemma {:induction false} RunsCountedSize(runs: seq<RunLength.Run>, fcl: seq<nat>)
    requires RunsCounted(runs, fcl)
    ensures |fcl| == 19
  {}

  lemma {:induction false} PackedRuns(lengths: seq<nat>, runs: seq<RunLength.Run>, packed: seq<nat>)
    requires RunLength.Packed(lengths, |lengths|, runs, packed)
    ensures packed == RunLength.Flat(runs) && RunLength.ValidRuns([], runs)
  {}

  lemma {:induction false} BigEnough()
    ensures 286 <= Pow2(15) && 30 <= Pow2(15) && 19 <= Pow2(7)
  {
    FullIsPow2();
    assert Pow2(7) == 128;
  }

  /** A block with trees of its own. */
  method DeflateDynamic(writer: BitWriter, hash: Hash, data: seq<byte>, start: nat, end: nat, settings: Settings, final: bool)
    returns (error: nat, ghost b: Block)
    requires writer.Valid() && start <= end <= |data| && HashReady(hash, data, start, settings) && settings.btype == 2
    modifies writer, hash
    ensures error == WindowError(settings) && writer.Valid()
    ensures error == 0 ==> HashReady(hash, data, end, settings) && BlockFor(b, data, start, end, settings)
    ensures error == 0 ==> b.Dynamic? && Shortest(b) && Trim(b)
    ensures error == 0 ==> Tokenized(data, start, end, settings, old(hash.hashes), old(hash.counts), b.tokens)
    ensures error == 0 ==> Entered(hash, data, end, settings, old(hash.hashes), old(hash.counts))
    ensures error == 0 ==> writer.Written() == old(writer.Written()) + BlockBits(b, final)
  {
    hide BitWriter.Valid, BitWriter.Written, Encoded, Hash.Ok, Tokenized, Entered, Sends, HuffmanTree.Ready, BlockFor, Shortest, Trim, ValidHeader, Flat, RunLength.Flat, BlockBits;
    b := Fixed([]);
    var encoded;
    ghost var tokens;
    error, encoded, tokens := Tokenize(hash, data, start, end, settings);
    if error != 0 { return; }
    var treeLL := new HuffmanTree();
    var treeD := new HuffmanTree();
    var treeCL := new HuffmanTree();
    var packed, hclen;
    packed, hclen, b := BuildDynamic(treeLL, treeD, treeCL, encoded, data, start, end, settings, tokens);
    WriteDynamic(writer, treeLL, treeD, treeCL, encoded, packed, hclen, b, data, start, end, settings, final);
  }

  method WriteDynamic(writer: BitWriter, treeLL: HuffmanTree, treeD: HuffmanTree, treeCL: HuffmanTree, encoded: seq<nat>,
                      packed: seq<nat>, hclen: nat, ghost b: Block, ghost data: seq<byte>, ghost start: nat, ghost end: nat,
                      ghost settings: Settings, final: bool)
    requires writer.Valid() && treeLL.Ready() && treeD.Ready() && treeCL.Ready()
    requires b.Dynamic? && b.ll == treeLL.lengths && b.d == treeD.lengths && b.cl == treeCL.lengths && b.hclen == hclen
    requires BlockFor(b, data, start, end, settings) && ValidHeader(b)
    requires encoded == Flat(b.tokens) && packed == RunLength.Flat(b.runs)
    modifies writer
    ensures writer.Valid() && Sendable(BlockLL(b), BlockD(b), b.tokens)
    ensures writer.Written() == old(writer.Written()) + BlockBits(b, final)
  {
    hide BitWriter.Valid, BitWriter.Written, Sends, HuffmanTree.Ready, Flat, RunLength.Flat, RunsBits, ClclBits, TokensBits,
         CodeBits, LowBits, Sendable, Expand, AllUsable, Near, Complete, CLCL_ORDER, RunLength.ValidRuns, RunLength.UnpackAll, RunsFit, Pad;
    ghost var w := writer.Written();
    WriteType(writer, final, 2);
    ghost var w1 := writer.Written();
    writer.WriteBits(|treeLL.lengths| - 257, 5);
    writer.WriteBits(|treeD.lengths| - 1, 5);
    writer.WriteBits(hclen - 4, 4);
    ghost var w2 := writer.Written();
    assert w2 == w1 + HeaderNumbers(b) by { Gather(w1, LowBits(|b.ll| - 257, 5), LowBits(|b.d| - 1, 5), LowBits(hclen - 4, 4)); }
    WriteClcl(writer, treeCL.lengths, hclen);
    WriteRuns(writer, packed, treeCL, b.runs);
    ghost var w3 := writer.Written();
    assert w3 == w1 + HeaderBits(b) by { Gather(w1, HeaderNumbers(b), ClclBits(b.cl, hclen), RunsBits(b.cl, b.runs)); }
    SendsPadded(treeLL, 288);
    SendsPadded(treeD, 32);
    WriteLZ77Data(writer, encoded, treeLL, treeD, b.tokens, BlockLL(b), BlockD(b));
    LLShape(b);
    WriteSymbol(writer, treeLL, 256, BlockLL(b));
    ghost var t, e := TokensBits(BlockLL(b), BlockD(b), b.tokens), CodeBits(BlockLL(b), 256);
    ghost var h := LowBits(BitVal(final), 1) + LowBits(2, 2);
    assert w1 + HeaderBits(b) + t + e == w1 + (HeaderBits(b) + (t + e));
    assert w + h + (HeaderBits(b) + (t + e)) == w + (h + (HeaderBits(b) + (t + e)));
  }

  lemma {:induction false} Gather(w: seq<bool>, x: seq<bool>, y: seq<bool>, z: seq<bool>)
    ensures w + x + y + z == w + (x + y + z) && w + x + y + z == w + (x + (y + z))
  {}

  // ----- stored blocks ------------------------------------------------------------------------

  const MAX_STORED: nat := 65535

  /** Header of a stored block of n bytes: type, length and its complement. */
  function StoredHeader(final: bool, n: nat): (h: seq<byte>)
    requires n <= MAX_STORED
    ensures |h| == 5
  {
    [if final then 1 else 0, n % 256, n / 256, (MAX_STORED - n) % 256, (MAX_STORED - n) / 256]
  }

  /** Data cut into stored blocks of at most 65535 bytes. */
  function StoredStream(data: seq<byte>): (out: seq<byte>)
    decreases |data|
  {
    if data == [] then []
    else if |data| <= MAX_STORED then StoredHeader(true, |data|) + data
    else StoredHeader(false, MAX_STORED) + data[..MAX_STORED] + StoredStream(data[MAX_STORED..])
  }

  /** The type bits of a stored block, read from its first byte. */
  lemma {:induction false} StoredType(out: seq<byte>, p: nat)
    requires p < |out| && out[p] < 2
    ensures Num(out, 8 * p, 1) == out[p] && Num(out, 8 * p + 1, 2) == 0
  {
    hide BitsOf, At, Num;
    var v := out[p];
    BitsOfByte(out, p);
    var rest := LowBits(v / 2, 7);
    assert LowBits(v, 8) == LowBits(v, 1) + rest by { assert LowBits(v / 2, 0) == []; }
    AtSplit(BitsOf(out), 8 * p, LowBits(v, 1), rest);
    assert v / 2 == 0;
    ZeroBits();
    AtSplit(BitsOf(out), 8 * p + 1, LowBits(0, 2), LowBits(0, 5));
    BitBounds();
    NumSent(v, 1, out, 8 * p);
    NumSent(0, 2, out, 8 * p + 1);
  }

  lemma {:induction false} ZeroBits()
    ensures LowBits(0, 7) == LowBits(0, 2) + LowBits(0, 5)
  {}

  /** One stored block, read back. */
  lemma {:induction false} StoredBlockSent(out: seq<byte>, p: nat, chunk: seq<byte>, sofar: seq<byte>, ignoreNlen: bool)
    requires 0 < |chunk| <= MAX_STORED && p + 5 + |chunk| <= |out|
    requires out[p + 1..p + 5] == StoredHeader(true, |chunk|)[1..] && out[p + 5..p + 5 + |chunk|] == chunk
    ensures StoredBlock(out, 8 * p + 3, sofar, ignoreNlen) == Ok(State(8 * (p + 5 + |chunk|), sofar + chunk))
  {
    var h, n := out[p + 1..p + 5], |chunk|;
    assert h[0] == out[p + 1] && h[1] == out[p + 2] && h[2] == out[p + 3] && h[3] == out[p + 4];
    assert (8 * p + 3 + 7) / 8 == p + 1;
    assert out[p + 1] as nat + 256 * out[p + 2] as nat == n;
    assert out[p + 3] as nat + 256 * out[p + 4] as nat == MAX_STORED - n;
  }

  /** A stored stream, read back. */
  lemma {:induction false} StoredSent(out: seq<byte>, p: nat, data: seq<byte>, sofar: seq<byte>, rfc: bool, ignoreNlen: bool)
    requires data != [] && p + |StoredStream(data)| <= |out| && out[p..p + |StoredStream(data)|] == StoredStream(data)
    ensures Blocks(out, 8 * p, sofar, rfc, ignoreNlen) == Ok(sofar + data)
    decreases |data|
  {
    hide Num, StoredBlock, StoredHeader, Inflate.Block;
    var last := |data| <= MAX_STORED;
    var chunk := if last then data else data[..MAX_STORED];
    var h := StoredHeader(last, |chunk|);
    var rest := if last then [] else StoredStream(data[MAX_STORED..]);
    var q := p + 5 + |chunk|;
    assert StoredStream(data) == h + chunk + rest;
    Pieces(out, p, h, chunk, rest);
    assert out[p] == out[p..p + 5][0] == h[0] && out[p + 1..p + 5] == out[p..p + 5][1..] == h[1..];
    HeaderParts(last, |chunk|);
    StoredType(out, p);
    StoredBlockSent(out, p, chunk, sofar, ignoreNlen);
    BlockIsStored(out, 8 * p + 3, sofar, rfc, ignoreNlen);
    if !last {
      StoredSent(out, q, data[MAX_STORED..], sofar + chunk, rfc, ignoreNlen);
      assert sofar + chunk + data[MAX_STORED..] == sofar + data;
    }
  }

  lemma {:induction false} Pieces(out: seq<byte>, p: nat, h: seq<byte>, c: seq<byte>, r: seq<byte>)
    requires p + |h + c + r| <= |out| && out[p..p + |h + c + r|] == h + c + r
    ensures out[p..p + |h|] == h && out[p + |h|..p + |h| + |c|] == c && out[p + |h| + |c|..p + |h| + |c| + |r|] == r
  {
    var s := out[p..p + |h + c + r|];
    assert h == s[..|h|] && c == s[|h|..|h| + |c|] && r == s[|h| + |c|..];
    SubSlice(out, p, p + |s|, 0, |h|);
    SubSlice(out, p, p + |s|, |h|, |h| + |c|);
    SubSlice(out, p, p + |s|, |h| + |c|, |s|);
  }

  lemma {:induction false} SubSlice(s: seq<byte>, a: nat, b: nat, i: nat, j: nat)
    requires a + j <= b <= |s| && i <= j
    ensures s[a..b][i..j] == s[a + i..a + j]
  {
    var x, y := s[a..b][i..j], s[a + i..a + j];
    assert |x| == |y| && forall k :: 0 <= k < |x| ==> x[k] == s[a..b][i + k] == s[a + i + k] == y[k];
  }

  lemma {:induction false} BlockIsStored(out: seq<byte>, pos: nat, sofar: seq<byte>, rfc: bool, ignoreNlen: bool)
    ensures Inflate.Block(out, pos, 0, sofar, rfc, ignoreNlen) == StoredBlock(out, pos, sofar, ignoreNlen)
  {}

  lemma {:induction false} HeaderParts(final: bool, n: nat)
    requires n <= MAX_STORED
    ensures StoredHeader(final, n)[1..] == StoredHeader(true, n)[1..]
    ensures StoredHeader(final, n)[0] == if final then 1 else 0
  {}

  /** Stored blocks for all of the data; nothing at all for empty data. */
  method DeflateNoCompression(data: seq<byte>) returns (out: seq<byte>)
    ensures out == StoredStream(data)
  {
    hide StoredHeader;
    var numdeflateblocks := (|data| + 65534) / 65535;
    out := [];
    var datapos := 0;
    var i := 0;
    assert data[0..] == data;
    while i != numdeflateblocks
      invariant 0 <= i <= numdeflateblocks && datapos == (if i == numdeflateblocks then |data| else 65535 * i) <= |data|
      invariant out + StoredStream(data[datapos..]) == StoredStream(data)
    {
      var final := i == numdeflateblocks - 1;
      var len := if |data| - datapos < MAX_STORED then |data| - datapos else MAX_STORED;
      ghost var rest := data[datapos..];
      assert final ==> |rest| <= MAX_STORED;
      assert !final ==> |rest| > MAX_STORED;
      var block := StoredHeader(final, len) + data[datapos..datapos + len];
      StoredStep(data, datapos, final, len);
      assert out + (block + StoredStream(data[datapos + len..])) == (out + block) + StoredStream(data[datapos + len..]);
      out := out + block;
      datapos := datapos + len;
      i := i + 1;
    }
    assert data[datapos..] == [];
  }

  lemma {:induction false} StoredStep(data: seq<byte>, p: nat, final: bool, len: nat)
    requires p < |data| && len <= MAX_STORED && (if final then len == |data| - p else len == MAX_STORED < |data| - p)
    ensures StoredStream(data[p..]) == StoredHeader(final, len) + data[p..p + len] + StoredStream(data[p + len..])
  {
    hide StoredHeader;
    var rest := data[p..];
    if final {
      assert data[p..p + len] == rest && data[p + len..] == [];
    } else {
      assert rest[..MAX_STORED] == data[p..p + len] && rest[MAX_STORED..] == data[p + len..];
    }
  }

  // ----- streams ------------------------------------------------------------------------------

  /** The bits of blocks none of which is the last. */
  ghost function OpenBits(out: seq<byte>, blocks: seq<Block>): (s: seq<bool>)
    requires ValidBlocks(out, blocks)
    decreases |blocks|
  {
    if blocks == [] then []
    else BlockBits(blocks[0], false) + OpenBits(Expand(out, blocks[0].tokens), blocks[1..])
  }

  lemma {:induction false} BlocksAppend(out: seq<byte>, blocks: seq<Block>, b: Block)
    requires ValidBlocks(out, blocks) && ValidBlock(b, ExpandAll(out, blocks))
    ensures ValidBlocks(out, blocks + [b])
    ensures ExpandAll(out, blocks + [b]) == Expand(ExpandAll(out, blocks), b.tokens)
    decreases |blocks|
  {
    hide ValidBlock, Expand;
    var all := blocks + [b];
    if blocks == [] {
      assert all == [b] && all[1..] == [];
    } else {
      assert all[1..] == blocks[1..] + [b] && all[0] == blocks[0];
      BlocksAppend(Expand(out, blocks[0].tokens), blocks[1..], b);
    }
  }

  lemma {:induction false} NoBlocks(out: seq<byte>)
    ensures OpenBits(out, []) == [] == StreamBits(out, [])
  {}

  lemma {:induction false} FirstBlock(out: seq<byte>, blocks: seq<Block>)
    requires blocks != [] && ValidBlocks(out, blocks)
    ensures ValidBlock(blocks[0], out) && ValidBlocks(Expand(out, blocks[0].tokens), blocks[1..])
    ensures ExpandAll(out, blocks) == ExpandAll(Expand(out, blocks[0].tokens), blocks[1..])
    ensures OpenBits(out, blocks) == BlockBits(blocks[0], false) + OpenBits(Expand(out, blocks[0].tokens), blocks[1..])
    ensures StreamBits(out, blocks)
         == BlockBits(blocks[0], |blocks| == 1) + StreamBits(Expand(out, blocks[0].tokens), blocks[1..])
  {
    hide ValidHeader, Sendable, AllUsable, BlockLL, BlockD, BlockBits, Expand;
  }

  lemma {:induction false} OpenAppend(out: seq<byte>, blocks: seq<Block>, b: Block)
    requires ValidBlocks(out, blocks) && ValidBlock(b, ExpandAll(out, blocks)) && ValidBlocks(out, blocks + [b])
    ensures OpenBits(out, blocks + [b]) == OpenBits(out, blocks) + BlockBits(b, false)
    decreases |blocks|
  {
    hide ValidHeader, Sendable, AllUsable, BlockLL, BlockD, BlockBits, Expand, OpenBits, StreamBits, ValidBlocks, ExpandAll;
    var all := blocks + [b];
    FirstBlock(out, all);
    if blocks == [] {
      assert all == [b] && all[1..] == [];
      NoBlocks(out);
      assert BlockBits(b, true) + [] == [] + BlockBits(b, true) && BlockBits(b, false) + [] == [] + BlockBits(b, false);
      NoBlocks(Expand(out, b.tokens));
    } else {
      var out' := Expand(out, blocks[0].tokens);
      assert all[1..] == blocks[1..] + [b] && all[0] == blocks[0];
      FirstBlock(out, blocks);
      OpenAppend(out', blocks[1..], b);
      Gather(BlockBits(blocks[0], false), OpenBits(out', blocks[1..]), BlockBits(b, false), []);
    }
  }

  lemma {:induction false} StreamAppend(out: seq<byte>, blocks: seq<Block>, b: Block)
    requires ValidBlocks(out, blocks) && ValidBlock(b, ExpandAll(out, blocks)) && ValidBlocks(out, blocks + [b])
    ensures StreamBits(out, blocks + [b]) == OpenBits(out, blocks) + BlockBits(b, true)
    decreases |blocks|
  {
    hide ValidHeader, Sendable, AllUsable, BlockLL, BlockD, BlockBits, Expand, OpenBits, StreamBits, ValidBlocks, ExpandAll;
    var all := blocks + [b];
    FirstBlock(out, all);
    if blocks == [] {
      assert all == [b] && all[1..] == [];
      NoBlocks(out);
      assert BlockBits(b, true) + [] == [] + BlockBits(b, true) && BlockBits(b, false) + [] == [] + BlockBits(b, false);
      NoBlocks(Expand(out, b.tokens));
    } else {
      var out' := Expand(out, blocks[0].tokens);
      assert all[1..] == blocks[1..] + [b] && all[0] == blocks[0];
      FirstBlock(out, blocks);
      StreamAppend(out', blocks[1..], b);
      Gather(BlockBits(blocks[0], false), OpenBits(out', blocks[1..]), BlockBits(b, true), []);
    }
  }

  /** Error code of the whole operation. */
  function DeflateError(settings: Settings): (e: nat)
  {
    if settings.btype > 2 then 61 else if settings.btype == 0 then 0 else WindowError(settings)
  }

  /** Where block i starts. */
  function BlockStart(blocksize: nat, i: nat): (start: nat)
  {
    if i == 0 then 0 else BlockStart(blocksize, i - 1) + blocksize
  }

  lemma {:induction false} BlockStartMonotone(blocksize: nat, i: nat, j: nat)
    requires i <= j
    ensures BlockStart(blocksize, i) <= BlockStart(blocksize, j)
  {
    if i < j { BlockStartMonotone(blocksize, i, j - 1); }
  }

  lemma {:induction false} BlockStartIs(blocksize: nat, i: nat)
    ensures BlockStart(blocksize, i) == i * blocksize
  {
    if i > 0 {
      BlockStartIs(blocksize, i - 1);
      assert (i - 1) * blocksize + blocksize == i * blocksize;
    }
  }

  /** How the number of blocks relates to the size: the last block is the one that reaches the end. */
  lemma {:induction false} BlockCount(size: nat, blocksize: nat, num: nat, i: nat)
    requires blocksize > 0 && num == (size + blocksize - 1) / blocksize && i < num
    ensures i == num - 1 ==> size <= BlockStart(blocksize, i + 1)
    ensures i < num - 1 ==> BlockStart(blocksize, i + 1) < size
  {
    var x := size + blocksize - 1;
    assert x == num * blocksize + x % blocksize;
    BlockStartIs(blocksize, num);
    if i < num - 1 { BlockStartMonotone(blocksize, i + 1, num - 1); }
  }

  // ----- what is emitted ----------------------------------------------------------------------

  /** The block type asked for decides how many bytes a block holds. */
  function PieceSize(settings: Settings, size: nat): (n: nat)
  {
    if settings.btype == 1 then size
    else if size / 8 + 8 < 65536 then 65536 else if size / 8 + 8 > 262144 then 262144 else size / 8 + 8
  }

  /** The number of pieces: one at least. */
  function PieceCount(size: nat, blocksize: nat): (n: nat)
    requires blocksize > 0
    ensures n > 0
  {
    var n := (size + blocksize - 1) / blocksize;
    if n == 0 then 1 else n
  }

  /** Where piece k of the data begins; piece k - 1 ends there. */
  function Edge(size: nat, blocksize: nat, k: nat): (start: nat)
    ensures start <= size
  {
    if BlockStart(blocksize, k) > size then size else BlockStart(blocksize, k)
  }

  lemma {:induction false} FirstEdge(size: nat, blocksize: nat)
    ensures Edge(size, blocksize, 0) == 0
  {}

  lemma {:induction false} EdgesGrow(size: nat, blocksize: nat, k: nat)
    ensures Edge(size, blocksize, k) <= Edge(size, blocksize, k + 1)
  {}

  /** The hashes and the zero counts with which the first k pieces were entered. */
  function PastHashes(data: seq<byte>, blocksize: nat, k: nat): (h: seq<nat>)
    ensures |h| == Edge(|data|, blocksize, k)
  {
    if k == 0 then []
    else
      EdgesGrow(|data|, blocksize, k - 1);
      Hashes(PastHashes(data, blocksize, k - 1), data, Edge(|data|, blocksize, k))
  }

  function PastCounts(data: seq<byte>, blocksize: nat, k: nat): (c: seq<nat>)
    ensures |c| == Edge(|data|, blocksize, k)
  {
    if k == 0 then []
    else
      EdgesGrow(|data|, blocksize, k - 1);
      Counts(PastCounts(data, blocksize, k - 1), data, Edge(|data|, blocksize, k))
  }

  /** The block for piece k: of the type asked for, with the tokens that the rules choose. */
  ghost predicate BlockIs(b: Block, data: seq<byte>, settings: Settings, blocksize: nat, k: nat) {
    var start, end := Edge(|data|, blocksize, k), Edge(|data|, blocksize, k + 1);
    && BlockFor(b, data, start, end, settings)
    && (if settings.btype == 1 then b.Fixed? else b.Dynamic? && Shortest(b) && Trim(b))
    && Tokenized(data, start, end, settings, PastHashes(data, blocksize, k), PastCounts(data, blocksize, k), b.tokens)
  }

  /** The bytes are those of the bits, the last one filled up with zeros. */
  predicate Holding(out: seq<byte>, w: seq<bool>) {
    |out| == (|w| + 7) / 8 && BitsOf(out)[..|w|] == w && forall i :: |w| <= i < 8 * |out| ==> !BitsOf(out)[i]
  }

  /** What deflate writes for the type asked for: the bytes of the stored stream, or a block for each piece of the data. */
  ghost predicate Emitted(out: seq<byte>, data: seq<byte>, settings: Settings, blocks: seq<Block>) {
    if settings.btype == 0 then out == StoredStream(data)
    else PieceSize(settings, |data|) > 0 && PiecesEmitted(out, data, settings, PieceSize(settings, |data|), blocks)
  }

  ghost predicate PiecesEmitted(out: seq<byte>, data: seq<byte>, settings: Settings, blocksize: nat, blocks: seq<Block>)
    requires blocksize > 0
  {
    && |blocks| == PieceCount(|data|, blocksize) && (forall k :: 0 <= k < |blocks| ==> BlockIs(blocks[k], data, settings, blocksize, k))
    && ValidBlocks([], blocks) && Holding(out, StreamBits([], blocks))
  }

  lemma {:induction false} HighBitsClear(v: byte, k: nat, i: nat)
    requires v < Pow2(k) && k <= i < 8
    ensures !LowBits(v, 8)[i]
  {
    LowBitsAt(v, 8, i);
    Pow2Mono(k, i);
    LowId(v, i);
  }

  /** The writer's bytes hold what was written. */
  lemma {:induction false} WriterHolds(writer: BitWriter)
    requires writer.Valid()
    ensures Holding(writer.data, writer.Written())
  {
    hide BitsOf, LowBits, Pow2;
    writer.WrittenIs();
    var out, n := writer.data, writer.bp;
    forall i | n <= i < 8 * |out| ensures !BitsOf(out)[i] {
      var k := |out| - 1;
      BitsOfByte(out, k);
      HighBitsClear(out[k], n % 8, i - 8 * k);
      assert BitsOf(out)[8 * k..8 * k + 8][i - 8 * k] == BitsOf(out)[i];
    }
  }

  lemma {:induction false} Quotient(x: nat, n: nat, q: nat)
    requires n > 0 && q * n <= x < q * n + n
    ensures x / n == q
  {
    var d, m := x / n, x % n;
    assert x == d * n + m;
    if d < q { Less(d, q, n); } else if q < d { Less(q, d, n); }
  }

  lemma {:induction false} Less(d: nat, q: nat, n: nat)
    requires d < q
    ensures d * n + n <= q * n
  {
    assert q * n == d * n + (q - d) * n;
    assert (q - d) * n == n + (q - d - 1) * n;
  }

  lemma {:induction false} RoundedUp(size: nat, n: nat)
    requires n > 0
    ensures var q := (size + n - 1) / n; size <= q * n < size + n
  {
    var x := size + n - 1;
    assert x == x / n * n + x % n;
  }

  /** With block type 1 there is one block, and with block type 2 one for every piece that the data begins. */
  lemma {:induction false} PiecesAre(settings: Settings, size: nat)
    requires (settings.btype == 1 && size > 0) || settings.btype == 2
    ensures var n := PieceSize(settings, size);
            && n > 0 && (settings.btype == 1 ==> PieceCount(size, n) == 1)
            && (settings.btype == 2 ==> 65536 <= n <= 262144 && if size == 0 then PieceCount(size, n) == 1 else size <= PieceCount(size, n) * n < size + n)
  {
    var n := PieceSize(settings, size);
    RoundedUp(size, n);
    if settings.btype == 1 { Quotient(size + size - 1, size, 1); }
    if size == 0 { Quotient(n - 1, n, 0); }
  }

  /** The stream begins with the block type asked for. */
  lemma {:induction false} FirstType(out: seq<byte>, data: seq<byte>, settings: Settings, blocks: seq<Block>)
    requires Emitted(out, data, settings, blocks) && settings.btype <= 2 && (settings.btype == 0 ==> data != [])
    ensures Num(out, 1, 2) == settings.btype
  {
    hide BitsOf, LowBits, Num, BlockBits, BlockFor, Shortest, Trim, Tokenized, PastHashes, PastCounts, Edge, PieceSize;
    if settings.btype == 0 {
      StoredStart(data);
      StoredType(out, 0);
    } else {
      var b := blocks[0];
      assert BlockIs(b, data, settings, PieceSize(settings, |data|), 0);
      FirstBlock([], blocks);
      BlockStarts(out, b, |blocks| == 1, StreamBits(Expand([], b.tokens), blocks[1..]));
      assert settings.btype == BlockType(b);
    }
  }

  /** n equal bytes in one piece are one block of a literal and a copy, or of a literal, a copy of 258 bytes and more. */
  lemma {:induction false} EqualBytesPacked(out: seq<byte>, data: seq<byte>, settings: Settings, blocks: seq<Block>)
    requires Emitted(out, data, settings, blocks) && (settings.btype == 1 || settings.btype == 2)
    requires settings.useLz77 && settings.windowsize >= 8 && settings.minmatch <= 3
    requires 4 <= |data| <= PieceSize(settings, |data|) && forall i :: 0 <= i < |data| ==> data[i] == data[0]
    ensures |blocks| == 1 && |blocks[0].tokens| >= 2 && blocks[0].tokens[0] == Literal(data[0])
    ensures blocks[0].tokens[1] == Copy(if |data| - 1 < MAX_LENGTH then |data| - 1 else MAX_LENGTH, 1)
    ensures |data| <= 1 + MAX_LENGTH ==> |blocks[0].tokens| == 2
  {
    hide Parsed, Hashes, Counts, BlockFor, Shortest, Trim, Holding, ValidBlocks, StreamBits;
    var n := PieceSize(settings, |data|);
    Quotient(|data| + n - 1, n, 1);
    assert BlockIs(blocks[0], data, settings, n, 0);
    assert BlockStart(n, 1) == n && Edge(|data|, n, 1) == |data| && Edge(|data|, n, 0) == 0;
    NoPast(data, n);
    EqualBytes(data, settings.windowsize, settings.minmatch, settings.nicematch, settings.lazymatching, blocks[0].tokens);
  }

  lemma {:induction false} StoredStart(data: seq<byte>)
    requires data != []
    ensures StoredStream(data) != [] && StoredStream(data)[0] < 2
  {}

  lemma {:induction false} BlockStarts(out: seq<byte>, b: Block, final: bool, rest: seq<bool>)
    requires ValidHeader(b) && Sendable(BlockLL(b), BlockD(b), b.tokens) && Holding(out, BlockBits(b, final) + rest)
    ensures Num(out, 1, 2) == BlockType(b)
  {
    hide BitsOf, LowBits, Num, ValidHeader, Sendable, BlockLL, BlockD, BodyBits;
    var w := BlockBits(b, final) + rest;
    var x, y := LowBits(BitVal(final), 1), LowBits(BlockType(b), 2);
    assert BitsOf(out)[..|w|][1..3] == y;
    assert BitsOf(out)[1..3] == BitsOf(out)[..|w|][1..3];
    BitBounds();
    NumSent(BlockType(b), 2, out, 1);
  }

  /** The stream written so far: complete, or still open at `start`. */
  ghost predicate Progress(w: seq<bool>, blocks: seq<Block>, data: seq<byte>, start: nat, settings: Settings, done: bool) {
    && start <= |data| && ValidBlocks([], blocks) && ExpandAll([], blocks) == data[..start]
    && (Safe(settings, |data|) ==> BlocksNear(blocks))
    && (if done then blocks != [] && start == |data| && w == StreamBits([], blocks) else w == OpenBits([], blocks))
  }

  lemma {:induction false} NextBlock(w: seq<bool>, blocks: seq<Block>, b: Block, data: seq<byte>, start: nat, end: nat, settings: Settings, final: bool)
    requires Progress(w, blocks, data, start, settings, false) && BlockFor(b, data, start, end, settings)
    requires final ==> end == |data|
    ensures Progress(w + BlockBits(b, final), blocks + [b], data, end, settings, final)
  {
    hide ValidBlock, BlockBits, Expand, AllNear, ExpandAll, OpenBits, StreamBits, ValidBlocks;
    BlocksAppend([], blocks, b);
    if final { StreamAppend([], blocks, b); } else { OpenAppend([], blocks, b); }
    assert ValidHeader(b) by { HeaderOf(b, data[..start]); }
  }

  lemma {:induction false} HeaderOf(b: Block, out: seq<byte>)
    requires ValidBlock(b, out)
    ensures ValidHeader(b)
  {}

  /** A finished stream inflates to the data, whatever follows it. */
  lemma {:induction false} Finished(out: seq<byte>, tail: seq<byte>, w: seq<bool>, blocks: seq<Block>, data: seq<byte>,
                                    settings: Settings, rfc: bool, ignoreNlen: bool)
    requires Progress(w, blocks, data, |data|, settings, true)
    requires rfc || Safe(settings, |data|) || Intact(out + tail, ignoreNlen)
    requires |w| <= 8 * |out| && w == BitsOf(out)[..|w|] && 8 * |out + tail| + 64 < SIZE_LIMIT
    ensures Inflated(out + tail, rfc, ignoreNlen) == Ok(data)
  {
    hide BitsOf, StreamBits, ValidBlocks, ExpandAll, BlocksNear, Blocks, IntactBlocks;
    BitsOfAppend(out, tail);
    assert BitsOf(out + tail)[0..|w|] == w;
    StreamSent(out + tail, 0, blocks, [], rfc, ignoreNlen);
    assert data[..|data|] == data;
  }

  /** What deflate promises: a stream that inflates to the data, whatever follows it. Following RFC 1951 it
      always does; with the reader of this library it does whenever the bytes it reads are intact, and they
      need not be looked at for safe settings and sizes. */
  ghost predicate RoundTrips(out: seq<byte>, data: seq<byte>, settings: Settings) {
    forall tail: seq<byte>, rfc: bool, ignoreNlen: bool ::
      8 * |out + tail| + 64 < SIZE_LIMIT && (rfc || Safe(settings, |data|) || Intact(out + tail, ignoreNlen)) ==>
      Inflated(out + tail, rfc, ignoreNlen) == Ok(data)
  }

  method DeflateStream(data: seq<byte>, settings: Settings) returns (error: nat, out: seq<byte>, ghost blocks: seq<Block>)
    requires settings.btype == 1 ==> data != []
    ensures error == DeflateError(settings)
    ensures error == 0 && (settings.btype == 0 ==> data != []) ==> RoundTrips(out, data, settings)
    ensures settings.btype == 0 && data == [] ==> out == []
    ensures error == 0 ==> Emitted(out, data, settings, blocks)
    ensures error == 0 && (settings.btype == 0 ==> data != []) ==> Num(out, 1, 2) == settings.btype
  {
    hide StoredStream, Blocks, PiecesEmitted, Num;
    out, blocks := [], [];
    if settings.btype > 2 { return 61, out, blocks; }
    if settings.btype == 0 {
      out := DeflateNoCompression(data);
      if data != [] {
        StoredRoundTrips(out, data, settings);
        FirstType(out, data, settings, blocks);
      } else {
        NothingStored();
      }
      return 0, out, blocks;
    }
    var blocksize := |data|;
    if settings.btype == 2 {
      blocksize := |data| / 8 + 8;
      if blocksize < 65536 { blocksize := 65536; }
      if blocksize > 262144 { blocksize := 262144; }
    }
    error, out, blocks := DeflateBlocks(data, settings, blocksize);
    if error == 0 { FirstType(out, data, settings, blocks); }
  }

  lemma {:induction false} NothingStored()
    ensures StoredStream([]) == []
  {}

  lemma {:induction false} StoredRoundTrips(out: seq<byte>, data: seq<byte>, settings: Settings)
    requires data != [] && out == StoredStream(data)
    ensures RoundTrips(out, data, settings)
  {
    hide StoredStream, Blocks;
    forall tail: seq<byte>, rfc: bool, ignoreNlen: bool ensures Blocks(out + tail, 0, [], rfc, ignoreNlen) == Ok(data) {
      assert (out + tail)[0..|out|] == out;
      StoredSent(out + tail, 0, data, [], rfc, ignoreNlen);
      assert [] + data == data;
    }
  }

  /** One block, for piece k of the data. */
  method DeflateBlock(writer: BitWriter, hash: Hash, data: seq<byte>, settings: Settings, ghost blocksize: nat, ghost k: nat,
                      start: nat, end: nat, final: bool) returns (error: nat, ghost b: Block)
    requires writer.Valid() && (settings.btype == 1 || settings.btype == 2) && HashReady(hash, data, start, settings)
    requires start == Edge(|data|, blocksize, k) <= end == Edge(|data|, blocksize, k + 1)
    requires settings.useLz77 ==> hash.hashes == PastHashes(data, blocksize, k) && hash.counts == PastCounts(data, blocksize, k)
    modifies writer, hash
    ensures error == WindowError(settings) && writer.Valid()
    ensures error == 0 ==> HashReady(hash, data, end, settings) && BlockFor(b, data, start, end, settings) && BlockIs(b, data, settings, blocksize, k)
    ensures error == 0 && settings.useLz77 ==> hash.hashes == PastHashes(data, blocksize, k + 1) && hash.counts == PastCounts(data, blocksize, k + 1)
    ensures error == 0 ==> writer.Written() == old(writer.Written()) + BlockBits(b, final)
  {
    hide BitWriter.Valid, BitWriter.Written, Hash.Ok, BlockFor, BlockBits, BlockIs, Tokenized, Entered, PastHashes, PastCounts, Shortest, Trim, Edge;
    ghost var hashes, counts := hash.hashes, hash.counts;
    if settings.btype == 1 {
      error, b := DeflateFixed(writer, hash, data, start, end, settings, final);
    } else {
      error, b := DeflateDynamic(writer, hash, data, start, end, settings, final);
    }
    if error == 0 { NextPast(hash, b, data, settings, blocksize, k, hashes, counts); }
  }

  /** Fixed or dynamic blocks that share one hash. */
  method DeflateBlocks(data: seq<byte>, settings: Settings, blocksize: nat) returns (error: nat, out: seq<byte>, ghost blocks: seq<Block>)
    requires (settings.btype == 1 || settings.btype == 2) && blocksize > 0
    ensures error == DeflateError(settings)
    ensures error == 0 ==> RoundTrips(out, data, settings) && PiecesEmitted(out, data, settings, blocksize, blocks)
  {
    hide BitWriter.Valid, BitWriter.Written, Hash.Ok, Progress, BlockFor, BlockBits, RoundTrips, BlockIs, Holding,
         PastHashes, PastCounts, ValidBlocks, StreamBits, Edge;
    var numdeflateblocks := (|data| + blocksize - 1) / blocksize;
    if numdeflateblocks == 0 { numdeflateblocks := 1; }
    var hash := new Hash(if settings.windowsize == 0 then 1 else settings.windowsize);
    var writer := new BitWriter();
    assert Progress(writer.Written(), [], data, 0, settings, false) by { NoProgress(data, settings); }
    error, out, blocks := 0, [], [];
    NoPast(data, blocksize);
    FirstEdge(|data|, blocksize);
    var i: nat, start: nat := 0, 0;
    while i != numdeflateblocks
      invariant 0 <= i <= numdeflateblocks && writer.Valid() && error == 0
      invariant i == numdeflateblocks ==> WindowError(settings) == 0
      invariant HashReady(hash, data, start, settings)
      invariant Progress(writer.Written(), blocks, data, start, settings, i == numdeflateblocks)
      invariant |blocks| == i && forall k :: 0 <= k < i ==> BlockIs(blocks[k], data, settings, blocksize, k)
      invariant start == Edge(|data|, blocksize, i) && (i == numdeflateblocks ==> start == |data|)
      invariant settings.useLz77 ==> hash.hashes == PastHashes(data, blocksize, i) && hash.counts == PastCounts(data, blocksize, i)
    {
      var final := i == numdeflateblocks - 1;
      ProgressBound(writer.Written(), blocks, data, start, settings);
      var end := start + blocksize;
      if end > |data| { end := |data|; }
      NextEdge(|data|, blocksize, numdeflateblocks, i);
      ghost var b: Block;
      ghost var w := writer.Written();
      error, b := DeflateBlock(writer, hash, data, settings, blocksize, i, start, end, final);
      if error != 0 { return; }
      NextBlock(w, blocks, b, data, start, end, settings, final);
      blocks := blocks + [b];
      start := end;
      i := i + 1;
    }
    out := writer.data;
    WriterHolds(writer);
    ProgressDone(writer.Written(), blocks, data, start, settings);
    writer.WrittenIs();
    WithAnyTail(out, writer.Written(), blocks, data, settings);
  }

  lemma {:induction false} WithAnyTail(out: seq<byte>, w: seq<bool>, blocks: seq<Block>, data: seq<byte>, settings: Settings)
    requires Progress(w, blocks, data, |data|, settings, true) && |w| <= 8 * |out| && w == BitsOf(out)[..|w|]
    ensures RoundTrips(out, data, settings)
  {
    hide Progress, Inflated, Intact;
    forall tail: seq<byte>, rfc: bool, ignoreNlen: bool
      | (rfc || Safe(settings, |data|) || Intact(out + tail, ignoreNlen)) && 8 * |out + tail| + 64 < SIZE_LIMIT
      ensures Inflated(out + tail, rfc, ignoreNlen) == Ok(data)
    {
      Finished(out, tail, w, blocks, data, settings, rfc, ignoreNlen);
    }
  }

  lemma {:induction false} NoProgress(data: seq<byte>, settings: Settings)
    ensures Progress([], [], data, 0, settings, false)
  {}

  lemma {:induction false} ProgressDone(w: seq<bool>, blocks: seq<Block>, data: seq<byte>, start: nat, settings: Settings)
    requires Progress(w, blocks, data, start, settings, true)
    ensures ValidBlocks([], blocks) && w == StreamBits([], blocks)
  {}

  lemma {:induction false} NoPast(data: seq<byte>, blocksize: nat)
    ensures PastHashes(data, blocksize, 0) == [] && PastCounts(data, blocksize, 0) == []
  {}

  lemma {:induction false} NextPast(hash: Hash, b: Block, data: seq<byte>, settings: Settings, blocksize: nat, k: nat, hashes: seq<nat>, counts: seq<nat>)
    requires var start, end := Edge(|data|, blocksize, k), Edge(|data|, blocksize, k + 1);
             && BlockFor(b, data, start, end, settings) && Tokenized(data, start, end, settings, hashes, counts, b.tokens)
             && (if settings.btype == 1 then b.Fixed? else b.Dynamic? && Shortest(b) && Trim(b))
             && Entered(hash, data, end, settings, hashes, counts)
    requires settings.useLz77 ==> hashes == PastHashes(data, blocksize, k) && counts == PastCounts(data, blocksize, k)
    ensures BlockIs(b, data, settings, blocksize, k)
    ensures settings.useLz77 ==> hash.hashes == PastHashes(data, blocksize, k + 1) && hash.counts == PastCounts(data, blocksize, k + 1)
  {
    hide BlockFor, Shortest, Trim, Parsed, Hashes, Counts, Edge;
    EdgesGrow(|data|, blocksize, k);
  }

  lemma {:induction false} ProgressBound(w: seq<bool>, blocks: seq<Block>, data: seq<byte>, start: nat, settings: Settings)
    requires Progress(w, blocks, data, start, settings, false)
    ensures start <= |data|
  {}

  /** The next piece ends a block further, or with the data; the last one ends with the data. */
  lemma {:induction false} NextEdge(size: nat, blocksize: nat, num: nat, i: nat)
    requires blocksize > 0 && num == PieceCount(size, blocksize) && i < num
    ensures var start, end := Edge(size, blocksize, i), Edge(size, blocksize, i + 1);
            && start <= end == (if start + blocksize > size then size else start + blocksize)
            && (i == num - 1 ==> end == size)
  {
    hide PieceCount;
    LastBlock(size, blocksize, num, i);
    if i > 0 { LastBlock(size, blocksize, num, i - 1); }
  }

  lemma {:induction false} LastBlock(size: nat, blocksize: nat, num: nat, i: nat)
    requires blocksize > 0 && num == PieceCount(size, blocksize) && i < num
    ensures i == num - 1 ==> size <= BlockStart(blocksize, i + 1)
    ensures i < num - 1 ==> BlockStart(blocksize, i + 1) < size
  {
    if (size + blocksize - 1) / blocksize == 0 {
      assert size == 0;
    } else {
      BlockCount(size, blocksize, num, i);
    }
  }
}
