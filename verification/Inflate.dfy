/** Inflate: a plain description of what it computes, reading bits at positions and decoding symbols
    by comparing prefixes, and the implementation with its bit buffer and lookup tables, which agrees
    with it on every input, well-formed or not. */
module Inflate {
  import opened Bits
  import opened BitIO
  import opened Huffman
  import opened HuffmanTable
  import opened LZ77

  datatype Result<+T> = Ok(value: T) | Err(code: nat)

  /** Bit position and output after a block. */
  datatype State = State(pos: nat, out: seq<byte>)

  // ----- description --------------------------------------------------------------------------

  /** `n` bits of the stream as a number. */
  function Num(data: seq<byte>, pos: nat, n: nat): (v: nat)
  {
    Val(Take(BitsOf(data), pos, n))
  }

  /** The symbol whose code stands at `pos`. */
  function SymbolAt(lengths: seq<nat>, data: seq<byte>, pos: nat): (r: Option<nat>)
    ensures r.Some? ==> r.value < |lengths| && 0 < lengths[r.value]
  {
    Decode(lengths, Take(BitsOf(data), pos, MAX_BITS))
  }

  /** The 32 bits from which a distance code and its extra bits are taken: those of the stream if
      `rfc`, and otherwise those the reader's 32-bit refill leaves in its buffer. */
  function DistanceWord(data: seq<byte>, pos: nat, rfc: bool): (w: nat)
  {
    if rfc then Num(data, pos, 32) else Word32(data, pos)
  }

  datatype Step = Done(result: Result<State>) | More(pos: nat, out: seq<byte>)

  /** A distance, and the position behind it. */
  datatype Distance = Distance(pos: nat, dist: nat)

  /** The distance that stands at `pos`: its code and its extra bits. */
  function CopyDistance(data: seq<byte>, pos: nat, d: seq<nat>, rfc: bool): (r: Result<Distance>)
    ensures r.Ok? ==> pos < r.value.pos && 1 <= r.value.dist
    ensures r.Err? ==> r.code == 16 || r.code == 18
  {
    var word := DistanceWord(data, pos, rfc);
    match Symbol(d, word)
    case None => Err(16)
    case Some(c) =>
      if c > 29 then Err(if c <= 31 then 18 else 16)
      else
        DistanceGaps(c);
        Ok(Distance(pos + d[c] + DistanceExtra(c), DistanceBase(c) + Low(Shr(word, d[c]), DistanceExtra(c))))
  }

  /** A distance after a length of `len`, at `pos`, and the copy. */
  function DistanceStep(data: seq<byte>, pos: nat, d: seq<nat>, out: seq<byte>, len: nat, rfc: bool): (s: Step)
    ensures s.More? ==> s.pos > pos
    ensures s.Done? ==> s.result.Err? && s.result.code > 0
  {
    match CopyDistance(data, pos, d, rfc)
    case Err(e) => Done(Err(e))
    case Ok(x) => if x.dist > |out| then Done(Err(52)) else More(x.pos, CopyBytes(out, x.dist, len))
  }

  /** The check, after every symbol but the end code, that the reader did not pass the end. */
  function Checked(data: seq<byte>, s: Step): (r: Step)
  {
    if s.More? && s.pos > 8 * |data| then Done(Err(51)) else s
  }

  /** One literal/length symbol at `pos`, with everything that follows it. */
  function SymbolStep(data: seq<byte>, pos: nat, ll: seq<nat>, d: seq<nat>, out: seq<byte>, rfc: bool): (s: Step)
    ensures s.More? ==> pos < s.pos <= 8 * |data|
    ensures s.Done? && s.result.Ok? ==> pos < s.result.value.pos
    ensures s.Done? && s.result.Err? ==> s.result.code > 0
  {
    match SymbolAt(ll, data, pos)
    case None => Done(Err(16))
    case Some(c) =>
      var p := pos + ll[c];
      if c <= 255 then Checked(data, More(p, out + [c]))
      else if c == 256 then Done(Ok(State(p, out)))
      else if c <= 285 then
        var x := LengthExtra(c - 257);
        Checked(data, DistanceStep(data, p + x, d, out, LengthBase(c - 257) + Num(data, p, x), rfc))
      else Done(Err(16))
  }

  /** The symbols of a block up to its end code. */
  function Symbols(data: seq<byte>, pos: nat, ll: seq<nat>, d: seq<nat>, out: seq<byte>, rfc: bool): (r: Result<State>)
    ensures r.Ok? ==> pos < r.value.pos
    decreases if pos > 8 * |data| then 0 else 8 * |data| + 1 - pos
  {
    match SymbolStep(data, pos, ll, d, out, rfc)
    case Done(r) => r
    case More(p, o) => Symbols(data, p, ll, d, o, rfc)
  }

  const CLCL_ORDER: seq<nat> := [16, 17, 18, 0, 8, 7, 9, 6, 10, 5, 11, 4, 12, 3, 13, 2, 14, 1, 15]

  /** The code length code lengths, `n` of them, three bits each, in their peculiar order. */
  function ReadClcl(data: seq<byte>, pos: nat, n: nat): (cl: seq<nat>)
    requires n <= 19
    ensures |cl| == 19 && forall i :: 0 <= i < 19 ==> cl[i] <= 7
  {
    if n == 0 then seq(19, _ => 0)
    else
      ClclInRange(n - 1);
      SmallNum(data, pos + 3 * (n - 1), 3);
      ReadClcl(data, pos, n - 1)[CLCL_ORDER[n - 1] := Num(data, pos + 3 * (n - 1), 3)]
  }

  lemma {:induction false} ClclInRange(i: nat)
    requires i < 19
    ensures CLCL_ORDER[i] < 19
  {}

  lemma {:induction false} SmallNum(data: seq<byte>, pos: nat, n: nat)
    ensures Num(data, pos, n) < Pow2(n)
    ensures n == 3 ==> Num(data, pos, n) <= 7
  {
    ValBound(Take(BitsOf(data), pos, n));
    assert Pow2(3) == 8;
  }

  /** Error of a repeat that runs past the last length: the final bounds check takes precedence. */
  function Overrun(data: seq<byte>, pos: nat, code: nat): (e: nat)
  {
    if pos > 8 * |data| then 50 else code
  }

  datatype LengthStep = Stop(code: nat) | Next(pos: nat, lengths: seq<nat>)

  function RepeatStep(data: seq<byte>, pos: nat, total: nat, acc: seq<nat>, v: nat, n: nat, code: nat): (s: LengthStep)
  {
    if |acc| + n > total then Stop(Overrun(data, pos, code))
    else if pos > 8 * |data| then Stop(50)
    else Next(pos, acc + seq(n, _ => v))
  }

  /** One symbol of the code length alphabet. */
  function LengthSymbol(data: seq<byte>, pos: nat, cl: seq<nat>, total: nat, acc: seq<nat>): (s: LengthStep)
    requires |acc| < total && |cl| <= 19 && forall k :: 0 <= k < |acc| ==> acc[k] <= 15
    ensures s.Next? ==> pos < s.pos <= 8 * |data| && |acc| < |s.lengths| <= total
    ensures s.Next? ==> forall k :: 0 <= k < |s.lengths| ==> s.lengths[k] <= 15
  {
    match SymbolAt(cl, data, pos)
    case None => Stop(16)
    case Some(c) =>
      var p := pos + cl[c];
      if c <= 15 then (if p > 8 * |data| then Stop(50) else Next(p, acc + [c]))
      else if c == 16 then
        (if acc == [] then Stop(54)
         else RepeatStep(data, p + 2, total, acc, acc[|acc| - 1], 3 + Num(data, p, 2), 13))
      else if c == 17 then RepeatStep(data, p + 3, total, acc, 0, 3 + Num(data, p, 3), 14)
      else RepeatStep(data, p + 7, total, acc, 0, 11 + Num(data, p, 7), 15)
  }

  /** The code lengths of both alphabets, `total` of them. */
  function ReadLengths(data: seq<byte>, pos: nat, cl: seq<nat>, total: nat, acc: seq<nat>): (r: Result<(nat, seq<nat>)>)
    requires |acc| <= total && |cl| <= 19 && forall k :: 0 <= k < |acc| ==> acc[k] <= 15
    ensures r.Ok? ==> pos <= r.value.0 && |r.value.1| == total && forall k :: 0 <= k < total ==> r.value.1[k] <= 15
    decreases total - |acc|
  {
    if |acc| == total then Ok((pos, acc))
    else
      match LengthSymbol(data, pos, cl, total, acc)
      case Stop(e) => Err(e)
      case Next(p, more) => ReadLengths(data, p, cl, total, more)
  }

  /** Lengths that give no usable tree: two or more codes that do not fill the code space. */
  predicate BadTree(lengths: seq<nat>) {
    Present(lengths) >= 2 && !Complete(lengths)
  }

  function Pad(lengths: seq<nat>, n: nat): (p: seq<nat>)
    requires |lengths| <= n
    ensures |p| == n
  {
    lengths + seq(n - |lengths|, _ => 0)
  }

  datatype Trees = Trees(pos: nat, ll: seq<nat>, d: seq<nat>)

  /** Splitting the lengths read into the two alphabets, and checking them. */
  function SplitLengths(pos: nat, hlit: nat, lengths: seq<nat>): (r: Result<Trees>)
    requires 257 <= hlit <= 288 && hlit <= |lengths| <= hlit + 32
    requires forall k :: 0 <= k < |lengths| ==> lengths[k] <= 15
    ensures r.Ok? ==> pos == r.value.pos && |r.value.ll| == 288 && |r.value.d| == 32
                      && ValidLengths(r.value.ll) && ValidLengths(r.value.d)
  {
    var ll, d := Pad(lengths[..hlit], 288), Pad(lengths[hlit..], 32);
    if ll[256] == 0 then Err(64)
    else if BadTree(ll) || BadTree(d) then Err(55)
    else Ok(Trees(pos, ll, d))
  }

  /** The header of a dynamic block. */
  function DynamicTrees(data: seq<byte>, pos: nat): (r: Result<Trees>)
    ensures r.Ok? ==> pos < r.value.pos && |r.value.ll| == 288 && |r.value.d| == 32
                      && ValidLengths(r.value.ll) && ValidLengths(r.value.d)
  {
    if !(pos + 14 < 8 * |data|) then Err(49)
    else
      HeaderNums(data, pos);
      var hlit, hdist, hclen := Num(data, pos, 5) + 257, Num(data, pos + 5, 5) + 1, Num(data, pos + 10, 4) + 4;
      var p := pos + 14;
      if p + 3 * hclen > 8 * |data| then Err(50)
      else
        var cl := ReadClcl(data, p, hclen);
        if BadTree(cl) then Err(55)
        else
          match ReadLengths(data, p + 3 * hclen, cl, hlit + hdist, [])
          case Err(e) => Err(e)
          case Ok((q, lengths)) => SplitLengths(q, hlit, lengths)
  }

  lemma {:induction false} HeaderNums(data: seq<byte>, pos: nat)
    ensures Num(data, pos, 5) <= 31 && Num(data, pos + 5, 5) <= 31 && Num(data, pos + 10, 4) <= 15
  {
    SmallNum(data, pos, 5);
    SmallNum(data, pos + 5, 5);
    SmallNum(data, pos + 10, 4);
    assert Pow2(5) == 32 && Pow2(4) == 16;
  }

  /** The fixed trees of RFC 1951, section 3.2.6. */
  function FixedLL(): (ll: seq<nat>)
    ensures |ll| == 288 && ValidLengths(ll)
  {
    seq(144, _ => 8) + seq(112, _ => 9) + seq(24, _ => 7) + seq(8, _ => 8)
  }

  function FixedD(): (d: seq<nat>)
    ensures |d| == 32 && ValidLengths(d)
  {
    seq(32, _ => 5)
  }

  /** A stored block. */
  function StoredBlock(data: seq<byte>, pos: nat, out: seq<byte>, ignoreNlen: bool): (r: Result<State>)
    ensures r.Ok? ==> pos < r.value.pos
  {
    var b := (pos + 7) / 8;
    if b + 4 >= |data| then Err(52)
    else
      var len: nat := data[b] as nat + 256 * data[b + 1] as nat;
      var nlen: nat := data[b + 2] as nat + 256 * data[b + 3] as nat;
      if !ignoreNlen && len + nlen != 65535 then Err(21)
      else if b + 4 + len > |data| then Err(23)
      else Ok(State(8 * (b + 4 + len), out + data[b + 4..b + 4 + len]))
  }

  function Block(data: seq<byte>, pos: nat, btype: nat, out: seq<byte>, rfc: bool, ignoreNlen: bool): (r: Result<State>)
    ensures r.Ok? ==> pos < r.value.pos
  {
    if btype == 0 then StoredBlock(data, pos, out, ignoreNlen)
    else if btype == 1 then Symbols(data, pos, FixedLL(), FixedD(), out, rfc)
    else if btype == 2 then
      match DynamicTrees(data, pos)
      case Err(e) => Err(e)
      case Ok(t) => Symbols(data, t.pos, t.ll, t.d, out, rfc)
    else Err(20)
  }

  /** The blocks from `pos` on. */
  function Blocks(data: seq<byte>, pos: nat, out: seq<byte>, rfc: bool, ignoreNlen: bool): (r: Result<seq<byte>>)
    decreases if pos > 8 * |data| then 0 else 8 * |data| - pos
  {
    if !(pos + 3 < 8 * |data|) then Err(52)
    else
      match Block(data, pos + 3, Num(data, pos + 1, 2), out, rfc, ignoreNlen)
      case Err(e) => Err(e)
      case Ok(st) => if Num(data, pos, 1) == 1 then Ok(st.out) else Blocks(data, st.pos, st.out, rfc, ignoreNlen)
  }

  const SIZE_LIMIT: nat := 0x1_0000_0000

  /** Inflate of a whole stream; `rfc` says how distances are read. Bit counts must fit a 32-bit size. */
  function Inflated(data: seq<byte>, rfc: bool, ignoreNlen: bool): (r: Result<seq<byte>>)
  {
    if 8 * |data| + 64 >= SIZE_LIMIT then Err(105) else Blocks(data, 0, [], rfc, ignoreNlen)
  }

  // ----- implementation: symbols --------------------------------------------------------------

  /** Copying up to `dist` bytes is one slice. */
  lemma {:induction false} CopySlice(out: seq<byte>, dist: nat, n: nat)
    requires 1 <= dist <= |out| && n <= dist
    ensures CopyBytes(out, dist, n) == out + out[|out| - dist..|out| - dist + n]
    decreases n
  {
    if n > 0 {
      var out' := out + [out[|out| - dist]];
      CopySlice(out', dist, n - 1);
      assert out'[|out'| - dist..|out'| - dist + (n - 1)] == out[|out| - dist + 1..|out| - dist + n];
    }
  }

  /** Copying in two parts. */
  lemma {:induction false} CopyTwice(out: seq<byte>, dist: nat, m: nat, n: nat)
    requires 1 <= dist <= |out|
    ensures CopyBytes(CopyBytes(out, dist, m), dist, n) == CopyBytes(out, dist, m + n)
    decreases m
  {
    if m > 0 { CopyTwice(out + [out[|out| - dist]], dist, m - 1, n); }
  }

  /** The copy of the decoder: a block copy of the bytes that exist, then byte by byte. */
  method CopyMatch(out: seq<byte>, distance: nat, length: nat) returns (out': seq<byte>)
    requires 1 <= distance <= |out|
    ensures out' == CopyBytes(out, distance, length)
  {
    hide CopyBytes;
    var backward := |out| - distance;
    if distance < length {
      CopySlice(out, distance, distance);
      out' := out + out[backward..backward + distance];
      var forward := distance;
      while forward < length
        invariant distance <= forward <= length && backward == |out| - distance + (forward - distance)
        invariant |out'| == |out| + forward
        invariant out' == CopyBytes(out, distance, forward)
      {
        CopyNext(out, distance, forward);
        CopyPeriod(out, distance, forward, backward);
        out' := out' + [out'[backward]];
        backward := backward + 1;
        forward := forward + 1;
      }
    } else {
      CopySlice(out, distance, length);
      out' := out + out[backward..backward + length];
    }
  }

  lemma {:induction false} CopyNext(out: seq<byte>, dist: nat, n: nat)
    requires 1 <= dist <= |out|
    ensures var c := CopyBytes(out, dist, n);
            |c| == |out| + n && CopyBytes(out, dist, n + 1) == c + [c[|c| - dist]]
  {
    CopyTwice(out, dist, n, 1);
    var c := CopyBytes(out, dist, n);
    assert CopyBytes(c, dist, 1) == CopyBytes(c + [c[|c| - dist]], dist, 0);
  }

  /** Copied bytes repeat with the distance as their period. */
  lemma {:induction false} CopyPeriod(out: seq<byte>, dist: nat, n: nat, i: nat)
    requires 1 <= dist <= |out| && |out| - dist <= i && i + dist < |out| + n
    ensures var c := CopyBytes(out, dist, n); |c| == |out| + n && c[i + dist] == c[i]
    decreases n
  {
    hide CopyBytes;
    CopyNext(out, dist, n - 1);
    if i + dist < |out| + (n - 1) { CopyPeriod(out, dist, n - 1, i); }
  }

  /** A symbol while at least 25 bits are available. */
  method ReadSymbol(reader: BitReader, tree: HuffmanTree) returns (r: nat)
    requires tree.Ready() && reader.Holds(25)
    modifies reader
    ensures match SymbolAt(tree.lengths, reader.data, old(reader.bp))
            case Some(c) => r == c && reader.bp == old(reader.bp) + tree.lengths[c] && tree.lengths[c] <= MAX_BITS
                            && reader.Holds(10)
            case None => r == INVALIDSYMBOL
  {
    hide Decode, LowBits, Take, Low, Shr, Kraft, CodesOk, TableOk;
    reader.HoldsFewer(25, MAX_BITS);
    reader.HoldsBits(MAX_BITS);
    ghost var buffer, bp := reader.buffer, reader.bp;
    r := DecodeSymbol(reader, tree);
    ghost var c := SymbolAt(tree.lengths, reader.data, bp);
    if c.Some? {
      AdvanceHolds(reader.data, bp, buffer, tree.lengths[c.value], 25 - tree.lengths[c.value]);
      reader.HoldsFewer(25 - tree.lengths[c.value], 10);
    }
  }

  /** Distance code, extra bits and copy. */
  method ReadDistance(reader: BitReader, tree: HuffmanTree, out: seq<byte>, length: nat) returns (error: nat, out': seq<byte>)
    requires tree.Ready() && |tree.lengths| <= 32
    modifies reader
    ensures match DistanceStep(reader.data, old(reader.bp), tree.lengths, out, length, false)
            case More(p, o) => error == 0 && reader.bp == p && out' == o
            case Done(r) => r == Err(error)
  {
    hide Symbol, Low, Shr, HuffmanTree.Ready, Word32, CopyBytes, BitReader.Holds, Intact32;
    var ok := reader.EnsureBits32(28);
    ghost var word := reader.buffer;
    var code := DecodeSymbol(reader, tree);
    out' := out;
    if code > 29 {
      if code <= 31 { return 18, out'; } else { return 16, out'; }
    }
    DistanceGaps(code);
    var distance := DistanceBase(code);
    var extra := ReadExtra(reader, DistanceExtra(code));
    distance := distance + extra;
    if distance > |out| { return 52, out'; }
    out' := CopyMatch(out, distance, length);
    error := 0;
  }

  /** Extra bits, if there are any. */
  method ReadExtra(reader: BitReader, n: nat) returns (extra: nat)
    modifies reader
    ensures extra == Low(old(reader.buffer), n) && reader.bp == old(reader.bp) + n
    ensures old(reader.Holds(n)) ==> extra == Num(reader.data, old(reader.bp), n)
  {
    hide Take, Val;
    NoBits(reader.buffer);
    extra := 0;
    if n != 0 {
      extra := reader.ReadBits(n, 0);
    } else {
      NumZero(reader.data, reader.bp);
    }
  }

  lemma {:induction false} NoBits(x: nat)
    ensures Low(x, 0) == 0
  {}

  /** A length code with its extra bits, and the distance that follows. */
  method ReadCopy(reader: BitReader, tree: HuffmanTree, code: nat, out: seq<byte>) returns (error: nat, out': seq<byte>)
    requires tree.Ready() && |tree.lengths| <= 32 && 257 <= code <= 285 && reader.Holds(10)
    modifies reader
    ensures var x := LengthExtra(code - 257);
            var len := LengthBase(code - 257) + Num(reader.data, old(reader.bp), x);
            match DistanceStep(reader.data, old(reader.bp) + x, tree.lengths, out, len, false)
            case More(p, o) => error == 0 && reader.bp == p && out' == o
            case Done(r) => r == Err(error)
  {
    hide DistanceStep, HuffmanTree.Ready, BitReader.Holds, Num, Low;
    LengthGaps(code - 257);
    var length := LengthBase(code - 257);
    reader.HoldsFewer(10, LengthExtra(code - 257));
    var extra := ReadExtra(reader, LengthExtra(code - 257));
    length := length + extra;
    error, out' := ReadDistance(reader, tree, out, length);
  }

  lemma {:induction false} NumZero(data: seq<byte>, pos: nat)
    ensures Num(data, pos, 0) == 0
  {}

  /** The symbols of a Huffman block up to its end code. */
  method ReadSymbols(reader: BitReader, treeLL: HuffmanTree, treeD: HuffmanTree, out: seq<byte>) returns (error: nat, out': seq<byte>)
    requires treeLL.Ready() && treeD.Ready() && |treeD.lengths| <= 32
    modifies reader
    ensures match Symbols(reader.data, old(reader.bp), treeLL.lengths, treeD.lengths, out, false)
            case Ok(st) => error == 0 && reader.bp == st.pos && out' == st.out
            case Err(e) => error == e && e > 0
  {
    hide HuffmanTree.Ready, BitReader.Holds, DistanceStep, SymbolAt, LengthBase, LengthExtra, Num;
    out' := out;
    ghost var ll, d := treeLL.lengths, treeD.lengths;
    ghost var whole := Symbols(reader.data, reader.bp, ll, d, out, false);
    while true
      invariant treeLL.Ready() && treeD.Ready() && treeLL.lengths == ll && treeD.lengths == d
      invariant Symbols(reader.data, reader.bp, ll, d, out', false) == whole
      decreases if reader.bp > 8 * |reader.data| then 0 else 8 * |reader.data| + 1 - reader.bp
    {
      ghost var bp := reader.bp;
      var ok := reader.EnsureBits25(20);
      var code := ReadSymbol(reader, treeLL);
      if code <= 255 {
        out' := out' + [code];
      } else if 257 <= code <= 285 {
        error, out' := ReadCopy(reader, treeD, code, out');
        if error != 0 { return; }
      } else if code == 256 {
        return 0, out';
      } else {
        return 16, out';
      }
      if reader.bp > 8 * |reader.data| { return 51, out'; }
    }
  }

  // ----- implementation: the header of a dynamic block ----------------------------------------

  /** The lengths read so far, as they lie in the array of the literal/length alphabet. */
  ghost function LLPart(acc: seq<nat>, hlit: nat): (p: seq<nat>)
    requires hlit <= 288
    ensures |p| == 288
  {
    Pad(if |acc| <= hlit then acc else acc[..hlit], 288)
  }

  /** And in that of the distance alphabet. */
  ghost function DPart(acc: seq<nat>, hlit: nat): (p: seq<nat>)
    requires |acc| <= hlit + 32
    ensures |p| == 32
  {
    Pad(if |acc| <= hlit then [] else acc[hlit..], 32)
  }

  method StoreLength(ll: seq<nat>, d: seq<nat>, ghost acc: seq<nat>, hlit: nat, i: nat, v: nat)
    returns (ll': seq<nat>, d': seq<nat>)
    requires hlit <= 288 && |acc| == i < hlit + 32 && ll == LLPart(acc, hlit) && d == DPart(acc, hlit)
    ensures ll' == LLPart(acc + [v], hlit) && d' == DPart(acc + [v], hlit)
  {
    ll', d' := ll, d;
    ghost var acc' := acc + [v];
    if i < hlit {
      ll' := ll'[i := v];
      assert ll' == LLPart(acc', hlit);
    } else {
      d' := d'[i - hlit := v];
      assert acc'[..hlit] == acc[..hlit];
      assert |acc| == hlit ==> acc[..hlit] == acc;
      assert acc'[hlit..] == acc[hlit..] + [v];
      assert d' == DPart(acc', hlit);
    }
  }

  /** `n` copies of a length, stopped where the lengths end. */
  method StoreRepeat(ll: seq<nat>, d: seq<nat>, ghost acc: seq<nat>, hlit: nat, hdist: nat, i: nat, v: nat, n: nat)
    returns (ok: bool, ll': seq<nat>, d': seq<nat>, i': nat)
    requires hlit <= 288 && hdist <= 32 && |acc| == i <= hlit + hdist && ll == LLPart(acc, hlit) && d == DPart(acc, hlit)
    ensures ok <==> i + n <= hlit + hdist
    ensures ok ==> i' == i + n && ll' == LLPart(acc + seq(n, _ => v), hlit) && d' == DPart(acc + seq(n, _ => v), hlit)
  {
    hide LLPart, DPart;
    ll', d', i', ok := ll, d, i, true;
    var k := 0;
    assert acc + seq(0, _ => v) == acc;
    while k < n
      invariant 0 <= k <= n && i' == i + k <= hlit + hdist
      invariant ll' == LLPart(acc + seq(k, _ => v), hlit) && d' == DPart(acc + seq(k, _ => v), hlit)
    {
      if i' >= hlit + hdist { return false, ll', d', i'; }
      ghost var sofar := acc + seq(k, _ => v);
      assert sofar + [v] == acc + seq(k + 1, _ => v);
      ll', d' := StoreLength(ll', d', sofar, hlit, i', v);
      i' := i' + 1;
      k := k + 1;
    }
  }

  /** The length that a repeat code repeats. */
  lemma {:induction false} PreviousLength(acc: seq<nat>, hlit: nat)
    requires hlit <= 288 && 0 < |acc| <= hlit + 32
    ensures acc[|acc| - 1] == if |acc| < hlit + 1 then LLPart(acc, hlit)[|acc| - 1] else DPart(acc, hlit)[|acc| - hlit - 1]
  {}

  /** One symbol of the code length alphabet. */
  method ReadLengthSymbol(reader: BitReader, tree: HuffmanTree, ll: seq<nat>, d: seq<nat>, ghost acc: seq<nat>,
                          hlit: nat, hdist: nat, i: nat)
    returns (error: nat, ll': seq<nat>, d': seq<nat>, i': nat)
    requires tree.Ready() && |tree.lengths| == 19 && hlit <= 288 && hdist <= 32 && |acc| == i < hlit + hdist
    requires forall k :: 0 <= k < |acc| ==> acc[k] <= 15
    requires ll == LLPart(acc, hlit) && d == DPart(acc, hlit)
    modifies reader
    ensures match LengthSymbol(reader.data, old(reader.bp), tree.lengths, hlit + hdist, acc)
            case Stop(e) => error == e && e > 0
            case Next(p, more) => error == 0 && reader.bp == p && i' == |more| && ll' == LLPart(more, hlit) && d' == DPart(more, hlit)
  {
    hide HuffmanTree.Ready, BitReader.Holds, SymbolAt, Num, LLPart, DPart;
    error, ll', d', i' := 0, ll, d, i;
    var ensured := reader.EnsureBits25(22);
    var code := ReadSymbol(reader, tree);
    if code <= 15 {
      ll', d' := StoreLength(ll, d, acc, hlit, i, code);
      i' := i + 1;
    } else if code == 16 {
      if i == 0 { error := 54; return; }
      reader.HoldsFewer(10, 2);
      var extra := ReadExtra(reader, 2);
      PreviousLength(acc, hlit);
      var value := if i < hlit + 1 then ll[i - 1] else d[i - hlit - 1];
      var ok;
      ok, ll', d', i' := StoreRepeat(ll, d, acc, hlit, hdist, i, value, 3 + extra);
      if !ok { error := 13; }
    } else if code == 17 {
      reader.HoldsFewer(10, 3);
      var extra := ReadExtra(reader, 3);
      var ok;
      ok, ll', d', i' := StoreRepeat(ll, d, acc, hlit, hdist, i, 0, 3 + extra);
      if !ok { error := 14; }
    } else if code == 18 {
      reader.HoldsFewer(10, 7);
      var extra := ReadExtra(reader, 7);
      var ok;
      ok, ll', d', i' := StoreRepeat(ll, d, acc, hlit, hdist, i, 0, 11 + extra);
      if !ok { error := 15; }
    } else {
      error := 16;
      return;
    }
    // leaving the repeat loop with an error does not skip this check
    if reader.bp > 8 * |reader.data| { error := 50; }
  }

  /** The code lengths of both alphabets. */
  method ReadAllLengths(reader: BitReader, tree: HuffmanTree, hlit: nat, hdist: nat)
    returns (error: nat, ll: seq<nat>, d: seq<nat>)
    requires tree.Ready() && |tree.lengths| == 19 && hlit <= 288 && hdist <= 32
    modifies reader
    ensures match ReadLengths(reader.data, old(reader.bp), tree.lengths, hlit + hdist, [])
            case Err(e) => error == e && e > 0
            case Ok((p, lengths)) => error == 0 && reader.bp == p && ll == LLPart(lengths, hlit) && d == DPart(lengths, hlit)
  {
    hide HuffmanTree.Ready, BitReader.Holds, LengthSymbol, LLPart, DPart;
    ll, d := seq(288, _ => 0), seq(32, _ => 0);
    error := 0;
    ghost var acc: seq<nat> := [];
    ghost var cl := tree.lengths;
    ghost var whole := ReadLengths(reader.data, reader.bp, cl, hlit + hdist, []);
    NoLengths(hlit);
    var i := 0;
    while i < hlit + hdist
      invariant tree.Ready() && tree.lengths == cl && |acc| == i <= hlit + hdist
      invariant forall k :: 0 <= k < |acc| ==> acc[k] <= 15
      invariant ll == LLPart(acc, hlit) && d == DPart(acc, hlit)
      invariant ReadLengths(reader.data, reader.bp, cl, hlit + hdist, acc) == whole
      decreases hlit + hdist - i
    {
      ghost var step := LengthSymbol(reader.data, reader.bp, cl, hlit + hdist, acc);
      error, ll, d, i := ReadLengthSymbol(reader, tree, ll, d, acc, hlit, hdist, i);
      if error != 0 { return; }
      acc := step.lengths;
    }
  }

  lemma {:induction false} NoLengths(hlit: nat)
    requires hlit <= 288
    ensures LLPart([], hlit) == seq(288, _ => 0) && DPart([], hlit) == seq(32, _ => 0)
  {}

  /** The three-bit lengths of the code length alphabet. */
  method ReadClclLengths(reader: BitReader, hclen: nat) returns (cl: seq<nat>)
    requires hclen <= 19
    modifies reader
    ensures cl == ReadClcl(reader.data, old(reader.bp), hclen) && reader.bp == old(reader.bp) + 3 * hclen
  {
    hide BitReader.Holds, Num;
    cl := seq(19, _ => 0);
    var i := 0;
    while i != hclen
      invariant 0 <= i <= hclen && reader.bp == old(reader.bp) + 3 * i
      invariant cl == ReadClcl(reader.data, old(reader.bp), i)
    {
      var ok := reader.EnsureBits9(3);
      reader.HoldsFewer(9, 3);
      ClclInRange(i);
      var v := ReadExtra(reader, 3);
      SmallNum(reader.data, old(reader.bp) + 3 * i, 3);
      cl := cl[CLCL_ORDER[i] := v];
      i := i + 1;
    }
  }

  /** The header of a dynamic block: reads the lengths and builds both trees. */
  method GetTreeInflateDynamic(reader: BitReader, treeLL: HuffmanTree, treeD: HuffmanTree) returns (error: nat)
    requires treeLL != treeD
    modifies reader, treeLL, treeD
    ensures match DynamicTrees(reader.data, old(reader.bp))
            case Err(e) => error == e && e > 0
            case Ok(t) => error == 0 && reader.bp == t.pos && treeLL.lengths == t.ll && treeD.lengths == t.d
                          && treeLL.Ready() && treeD.Ready()
  {
    hide HuffmanTree.Ready, BitReader.Holds, ReadLengths, ReadClcl, BadTree, SplitLengths, Num, LLPart, DPart;
    ghost var bp := reader.bp;
    var ok := reader.EnsureBits17(14);
    if !ok { return 49; }
    HeaderNums(reader.data, bp);
    var hlit, hdist, hclen := ReadHeader(reader);
    if reader.bp + 3 * hclen > 8 * |reader.data| { return 50; }
    var cl := ReadClclLengths(reader, hclen);
    var treeCL := new HuffmanTree();
    error := treeCL.MakeFromLengths(cl, 7);
    assert (error != 0) == BadTree(cl) by { BadTreeIs(cl); }
    if error != 0 { return; }
    ghost var p := reader.bp;
    var ll, d;
    error, ll, d := ReadAllLengths(reader, treeCL, hlit, hdist);
    if error != 0 { return; }
    ghost var lengths := ReadLengths(reader.data, p, cl, hlit + hdist, []).value.1;
    SplitIs(reader.bp, hlit, lengths);
    if ll[256] == 0 { return 64; }
    error := treeLL.MakeFromLengths(ll, 15);
    BadTreeIs(ll);
    if error != 0 { return; }
    error := treeD.MakeFromLengths(d, 15);
    BadTreeIs(d);
  }

  method ReadHeader(reader: BitReader) returns (hlit: nat, hdist: nat, hclen: nat)
    requires reader.Holds(17)
    modifies reader
    ensures reader.bp == old(reader.bp) + 14
    ensures hlit == Num(reader.data, old(reader.bp), 5) + 257
    ensures hdist == Num(reader.data, old(reader.bp) + 5, 5) + 1
    ensures hclen == Num(reader.data, old(reader.bp) + 10, 4) + 4
  {
    hide BitReader.Holds, Low, Shr;
    var a := reader.ReadBits(5, 12);
    var b := reader.ReadBits(5, 7);
    var c := reader.ReadBits(4, 3);
    hlit, hdist, hclen := a + 257, b + 1, c + 4;
  }

  lemma {:induction false} BadTreeIs(lengths: seq<nat>)
    ensures BadTree(lengths) <==> Present(lengths) >= 2 && !Complete(lengths)
  {}

  lemma {:induction false} SplitIs(pos: nat, hlit: nat, lengths: seq<nat>)
    requires 257 <= hlit <= 288 && hlit <= |lengths| <= hlit + 32
    requires forall k :: 0 <= k < |lengths| ==> lengths[k] <= 15
    ensures var ll, d := LLPart(lengths, hlit), DPart(lengths, hlit);
            && SplitLengths(pos, hlit, lengths) == (if ll[256] == 0 then Err(64)
                                                    else if BadTree(ll) || BadTree(d) then Err(55)
                                                    else Ok(Trees(pos, ll, d)))
            && (forall k :: 0 <= k < 288 ==> ll[k] <= 15) && (forall k :: 0 <= k < 32 ==> d[k] <= 15)
  {
    hide BadTree;
    if |lengths| == hlit {
      assert lengths[..hlit] == lengths && lengths[hlit..] == [];
    }
  }

  // ----- implementation: blocks ---------------------------------------------------------------

  lemma {:induction false} KraftAppend(a: seq<nat>, b: seq<nat>)
    ensures Kraft(a + b) == Kraft(a) + Kraft(b)
    decreases |b|
  {
    if b == [] {
      assert a + b == a;
    } else {
      assert (a + b)[..|a + b| - 1] == a + b[..|b| - 1];
      KraftAppend(a, b[..|b| - 1]);
    }
  }

  lemma {:induction false} KraftEqual(n: nat, l: nat)
    requires 0 < l <= MAX_BITS
    ensures Kraft(seq(n, _ => l)) == Shl(n, MAX_BITS - l)
    decreases n
  {
    var s := seq(n, _ => l);
    if n == 0 {
      ShlZero(MAX_BITS - l);
    } else {
      assert s[..n - 1] == seq(n - 1, _ => l);
      KraftEqual(n - 1, l);
      ShlAdd(n - 1, 1, MAX_BITS - l);
      Pow2Shl(0, MAX_BITS - l);
    }
  }

  /** The fixed codes are complete. */
  lemma {:induction false} FixedComplete()
    ensures Complete(FixedLL()) && Complete(FixedD())
  {
    hide Kraft;
    KraftEqual(144, 8);
    KraftEqual(112, 9);
    KraftEqual(24, 7);
    KraftEqual(8, 8);
    KraftEqual(32, 5);
    var a, b, c, e: seq<nat> := seq(144, _ => 8), seq(112, _ => 9), seq(24, _ => 7), seq(8, _ => 8);
    KraftAppend(a, b);
    KraftAppend(a + b, c);
    KraftAppend(a + b + c, e);
    assert Shl(144, 7) == 18432 && Shl(112, 6) == 7168 && Shl(24, 8) == 6144 && Shl(8, 7) == 1024;
    assert Shl(32, 10) == 32768;
  }

  /** Both fixed trees. */
  method GetTreeInflateFixed(treeLL: HuffmanTree, treeD: HuffmanTree)
    requires treeLL != treeD
    modifies treeLL, treeD
    ensures treeLL.lengths == FixedLL() && treeD.lengths == FixedD() && treeLL.Ready() && treeD.Ready()
  {
    hide Complete, HuffmanTree.Ready;
    FixedComplete();
    var bitlen := FixedLengths();
    var error := treeLL.MakeFromLengths(bitlen, 15);
    error := treeD.MakeFromLengths(seq(32, _ => 5), 15);
  }

  /** The lengths of the fixed literal/length tree, range by range. */
  method FixedLengths() returns (bitlen: seq<nat>)
    ensures bitlen == FixedLL()
  {
    bitlen := seq(288, i => if i <= 143 then 8 else if i <= 255 then 9 else if i <= 279 then 7 else 8);
    assert bitlen == FixedLL();
  }

  /** Blocks of type 1 or 2. */
  method InflateHuffmanBlock(reader: BitReader, btype: nat, out: seq<byte>) returns (error: nat, out': seq<byte>)
    requires btype == 1 || btype == 2
    modifies reader
    ensures match Block(reader.data, old(reader.bp), btype, out, false, false)
            case Ok(st) => error == 0 && reader.bp == st.pos && out' == st.out
            case Err(e) => error == e && e > 0
  {
    hide HuffmanTree.Ready, Symbols, DynamicTrees, FixedLL, FixedD;
    var treeLL := new HuffmanTree();
    var treeD := new HuffmanTree();
    out' := out;
    if btype == 1 {
      GetTreeInflateFixed(treeLL, treeD);
      FixedSize();
    } else {
      error := GetTreeInflateDynamic(reader, treeLL, treeD);
      if error != 0 { return; }
    }
    error, out' := ReadSymbols(reader, treeLL, treeD, out);
  }

  lemma {:induction false} FixedSize()
    ensures |FixedD()| == 32
  {}

  /** A stored block. */
  method InflateNoCompression(reader: BitReader, out: seq<byte>, ignoreNlen: bool) returns (error: nat, out': seq<byte>)
    modifies reader
    ensures match StoredBlock(reader.data, old(reader.bp), out, ignoreNlen)
            case Ok(st) => error == 0 && reader.bp == st.pos && out' == st.out
            case Err(e) => error == e && e > 0
  {
    out' := out;
    var data := reader.data;
    var bytepos := (reader.bp + 7) / 8;
    if bytepos + 4 >= |data| { return 52, out'; }
    var len := data[bytepos] as nat + 256 * data[bytepos + 1] as nat;
    var nlen := data[bytepos + 2] as nat + 256 * data[bytepos + 3] as nat;
    bytepos := bytepos + 4;
    if !ignoreNlen && len + nlen != 65535 { return 21, out'; }
    if bytepos + len > |data| { return 23, out'; }
    out' := out + data[bytepos..bytepos + len];
    bytepos := bytepos + len;
    reader.bp := 8 * bytepos;
    error := 0;
  }

  /** Inflate of a whole stream: the description above, whatever the data. */
  method InflateStream(data: seq<byte>, ignoreNlen: bool) returns (error: nat, out: seq<byte>)
    ensures match Inflated(data, false, ignoreNlen)
            case Ok(o) => error == 0 && out == o
            case Err(e) => error == e && e > 0
  {
    hide Block, BitReader.Holds, Val, Take, BitsOf;
    out := [];
    if 8 * |data| + 64 >= SIZE_LIMIT { return 105, out; }
    var reader := new BitReader(data);
    ghost var whole := Blocks(data, 0, [], false, ignoreNlen);
    var final := 0;
    while final == 0
      invariant reader.data == data
      invariant final == 0 ==> Blocks(data, reader.bp, out, false, ignoreNlen) == whole
      invariant final != 0 ==> whole == Ok(out)
      decreases if final != 0 then 0 else 1, if reader.bp > 8 * |data| then 0 else 8 * |data| - reader.bp
    {
      ghost var bp := reader.bp;
      var ok := reader.EnsureBits9(3);
      if !ok { return 52, out; }
      reader.HoldsFewer(9, 3);
      var f := reader.ReadBits(1, 2);
      var btype := reader.ReadBits(2, 0);
      assert f == Num(data, bp, 1) && btype == Num(data, bp + 1, 2);
      assert f < 2 && btype < 4 by { BitBounds(); }
      if btype == 3 {
        ThirdType(data, bp + 3, out, ignoreNlen);
        return 20, out;
      } else if btype == 0 {
        StoredType(data, bp + 3, out, ignoreNlen);
        error, out := InflateNoCompression(reader, out, ignoreNlen);
      } else {
        CodedType(data, bp + 3, btype, out, ignoreNlen);
        error, out := InflateHuffmanBlock(reader, btype, out);
      }
      if error != 0 { return; }
      final := f;
    }
    error := 0;
  }

  lemma {:induction false} BitBounds()
    ensures Pow2(1) == 2 && Pow2(2) == 4
  {}

  lemma {:induction false} ThirdType(data: seq<byte>, pos: nat, out: seq<byte>, ignoreNlen: bool)
    ensures Block(data, pos, 3, out, false, ignoreNlen) == Err(20)
  {}

  lemma {:induction false} StoredType(data: seq<byte>, pos: nat, out: seq<byte>, ignoreNlen: bool)
    ensures Block(data, pos, 0, out, false, ignoreNlen) == StoredBlock(data, pos, out, ignoreNlen)
  {}

  lemma {:induction false} CodedType(data: seq<byte>, pos: nat, btype: nat, out: seq<byte>, ignoreNlen: bool)
    requires btype == 1 || btype == 2
    ensures Block(data, pos, btype, out, false, ignoreNlen) == Block(data, pos, btype, out, false, false)
  {}
}
