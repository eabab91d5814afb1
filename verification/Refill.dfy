/** Two readings of a stream: what RFC 1951 says, and what the reader makes of it when its 32-bit refill
    misplaces a byte. They agree exactly on the streams whose distances the refill delivers. */
module Refill {
  import opened Bits
  import opened BitIO
  import opened Huffman
  import opened HuffmanTable
  import opened LZ77
  import opened Inflate

  // ----- one distance -------------------------------------------------------------------------

  /** The distance word agrees with the stream on all 32 bits, or on the first 24 at least. */
  lemma {:induction false} WordAgrees(data: seq<byte>, pos: nat, rfc: bool, n: nat)
    requires n <= if rfc then 32 else 24
    ensures Low(DistanceWord(data, pos, rfc), n) == Num(data, pos, n)
  {
    hide Word32, BitsOf, Take, Val;
    if rfc {
      TakePrefix(BitsOf(data), pos, 32, n);
    } else {
      Refill32(data, pos, 24);
      LowLow(Word32(data, pos), 24, n);
      TakePrefix(BitsOf(data), pos, 24, n);
    }
  }

  lemma {:induction false} WordBits(data: seq<byte>, pos: nat, word: nat)
    requires Low(word, MAX_BITS) == Num(data, pos, MAX_BITS)
    ensures LowBits(word, MAX_BITS) == Take(BitsOf(data), pos, MAX_BITS)
  {
    hide BitsOf, Take;
    ValLowBits(word, MAX_BITS);
    ValInjective(LowBits(word, MAX_BITS), Take(BitsOf(data), pos, MAX_BITS));
  }

  /** Symbols never suffer from the misplaced byte. */
  lemma {:induction false} SameSymbol(data: seq<byte>, pos: nat, d: seq<nat>)
    ensures Symbol(d, DistanceWord(data, pos, false)) == Symbol(d, DistanceWord(data, pos, true)) == SymbolAt(d, data, pos)
  {
    hide Word32, BitsOf, Take, Val, Decode;
    WordAgrees(data, pos, false, MAX_BITS);
    WordAgrees(data, pos, true, MAX_BITS);
    WordBits(data, pos, DistanceWord(data, pos, false));
    WordBits(data, pos, DistanceWord(data, pos, true));
  }

  /** The refill delivers all bits of the distance at `pos`, if there is one. */
  predicate IntactDistance(data: seq<byte>, pos: nat, d: seq<nat>) {
    var c := SymbolAt(d, data, pos);
    c.Some? && c.value <= 29 ==> Intact32(data, pos, d[c.value] + DistanceExtra(c.value))
  }

  /** The reader gets the distance that RFC 1951 says exactly when the refill delivered all the bits of
      its code and extra bits. */
  lemma {:induction false} DistanceExact(data: seq<byte>, pos: nat, d: seq<nat>)
    requires ValidLengths(d)
    ensures CopyDistance(data, pos, d, false) == CopyDistance(data, pos, d, true) <==> IntactDistance(data, pos, d)
  {
    hide Word32, BitsOf, Take, Val, Decode, Intact32, DistanceBase, DistanceExtra, Low, Shr, SymbolAt, Symbol;
    SameSymbol(data, pos, d);
    var c := SymbolAt(d, data, pos);
    if c.Some? && c.value <= 29 {
      DistanceGaps(c.value);
      ExtraExact(data, pos, d[c.value], DistanceExtra(c.value));
    }
  }

  lemma {:induction false} ExtraExact(data: seq<byte>, pos: nat, l: nat, x: nat)
    requires 0 < l <= MAX_BITS && x <= 13
    ensures Low(Shr(Word32(data, pos), l), x) == Low(Shr(Num(data, pos, 32), l), x) <==> Intact32(data, pos, l + x)
  {
    hide Word32, BitsOf, Take, Val, Intact32, Low, Shr, Shl;
    var w, v := Word32(data, pos), Num(data, pos, 32);
    WordAgrees(data, pos, false, l);
    WordAgrees(data, pos, true, l);
    WordAgrees(data, pos, true, l + x);
    Refill32(data, pos, l + x);
    LowSplit(w, l, x);
    LowSplit(v, l, x);
    ShlInjective(Low(Shr(w, l), x), Low(Shr(v, l), x), l);
  }

  lemma {:induction false} ShlInjective(x: nat, y: nat, n: nat)
    ensures Shl(x, n) == Shl(y, n) <==> x == y
    decreases n
  {
    if n > 0 { ShlInjective(x, y, n - 1); }
  }

  // ----- one block ----------------------------------------------------------------------------

  /** Where the distance stands, if the symbol at `pos` is a length. */
  function DistancePlace(data: seq<byte>, pos: nat, ll: seq<nat>): (q: Option<nat>)
  {
    match SymbolAt(ll, data, pos)
    case None => None
    case Some(c) => if 257 <= c <= 285 then Some(pos + ll[c] + LengthExtra(c - 257)) else None
  }

  /** Every distance that RFC 1951 finds among the symbols from `pos` on is intact. */
  predicate IntactSymbols(data: seq<byte>, pos: nat, ll: seq<nat>, d: seq<nat>, out: seq<byte>)
    decreases if pos > 8 * |data| then 0 else 8 * |data| + 1 - pos
  {
    && (var q := DistancePlace(data, pos, ll); q.Some? ==> IntactDistance(data, q.value, d))
    && match SymbolStep(data, pos, ll, d, out, true)
       case Done(_) => true
       case More(p, o) => IntactSymbols(data, p, ll, d, o)
  }

  /** The distances that a reading of a block meets, with their errors, up to the end of the block or the
      first error. */
  function SymbolDistances(data: seq<byte>, pos: nat, ll: seq<nat>, d: seq<nat>, out: seq<byte>, rfc: bool): (s: seq<Result<Distance>>)
    decreases if pos > 8 * |data| then 0 else 8 * |data| + 1 - pos
  {
    var q := DistancePlace(data, pos, ll);
    (if q.Some? then [CopyDistance(data, q.value, d, rfc)] else [])
    + match SymbolStep(data, pos, ll, d, out, rfc)
      case Done(_) => []
      case More(p, o) => SymbolDistances(data, p, ll, d, o, rfc)
  }

  /** Apart from the distance both readings do the same. */
  lemma {:induction false} SameStep(data: seq<byte>, pos: nat, ll: seq<nat>, d: seq<nat>, out: seq<byte>)
    requires var q := DistancePlace(data, pos, ll);
             q.Some? ==> CopyDistance(data, q.value, d, false) == CopyDistance(data, q.value, d, true)
    ensures SymbolStep(data, pos, ll, d, out, false) == SymbolStep(data, pos, ll, d, out, true)
  {
    hide CopyDistance, SymbolAt, LengthBase, LengthExtra, Num, CopyBytes;
  }

  /** Both readings of a block meet the same distances exactly when all are intact, and then they agree. */
  lemma {:induction false} SymbolsAgree(data: seq<byte>, pos: nat, ll: seq<nat>, d: seq<nat>, out: seq<byte>)
    requires ValidLengths(d)
    ensures SymbolDistances(data, pos, ll, d, out, false) == SymbolDistances(data, pos, ll, d, out, true)
            <==> IntactSymbols(data, pos, ll, d, out)
    ensures IntactSymbols(data, pos, ll, d, out) ==> Symbols(data, pos, ll, d, out, false) == Symbols(data, pos, ll, d, out, true)
    decreases if pos > 8 * |data| then 0 else 8 * |data| + 1 - pos
  {
    hide CopyDistance, SymbolAt, SymbolStep, DistancePlace, IntactDistance;
    var q := DistancePlace(data, pos, ll);
    if q.Some? { DistanceExact(data, q.value, d); }
    if q.Some? && !IntactDistance(data, q.value, d) {
      var a, b := SymbolDistances(data, pos, ll, d, out, false), SymbolDistances(data, pos, ll, d, out, true);
      assert a[0] == CopyDistance(data, q.value, d, false) && b[0] == CopyDistance(data, q.value, d, true);
    } else {
      SameStep(data, pos, ll, d, out);
      var s := SymbolStep(data, pos, ll, d, out, true);
      if s.More? {
        SymbolsAgree(data, s.pos, ll, d, s.out);
        var x, y := SymbolDistances(data, s.pos, ll, d, s.out, false), SymbolDistances(data, s.pos, ll, d, s.out, true);
        if q.Some? { SameTail(CopyDistance(data, q.value, d, true), x, y); } else { assert [] + x == x && [] + y == y; }
      }
    }
  }

  lemma {:induction false} SameTail<T>(h: T, x: seq<T>, y: seq<T>)
    ensures [h] + x == [h] + y <==> x == y
  {
    assert ([h] + x)[1..] == x && ([h] + y)[1..] == y;
  }

  // ----- streams ------------------------------------------------------------------------------

  predicate IntactBlock(data: seq<byte>, pos: nat, btype: nat, out: seq<byte>) {
    if btype == 1 then IntactSymbols(data, pos, FixedLL(), FixedD(), out)
    else if btype == 2 then
      match DynamicTrees(data, pos)
      case Err(_) => true
      case Ok(t) => IntactSymbols(data, t.pos, t.ll, t.d, out)
    else true
  }

  function BlockDistances(data: seq<byte>, pos: nat, btype: nat, out: seq<byte>, rfc: bool): (s: seq<Result<Distance>>)
  {
    if btype == 1 then SymbolDistances(data, pos, FixedLL(), FixedD(), out, rfc)
    else if btype == 2 then
      match DynamicTrees(data, pos)
      case Err(_) => []
      case Ok(t) => SymbolDistances(data, t.pos, t.ll, t.d, out, rfc)
    else []
  }

  lemma {:induction false} BlockAgrees(data: seq<byte>, pos: nat, btype: nat, out: seq<byte>, ignoreNlen: bool)
    ensures BlockDistances(data, pos, btype, out, false) == BlockDistances(data, pos, btype, out, true) <==> IntactBlock(data, pos, btype, out)
    ensures IntactBlock(data, pos, btype, out) ==> Block(data, pos, btype, out, false, ignoreNlen) == Block(data, pos, btype, out, true, ignoreNlen)
  {
    hide Symbols, SymbolDistances, IntactSymbols, DynamicTrees, FixedLL, FixedD, StoredBlock;
    if btype == 1 {
      SymbolsAgree(data, pos, FixedLL(), FixedD(), out);
    } else if btype == 2 {
      var t := DynamicTrees(data, pos);
      if t.Ok? { SymbolsAgree(data, t.value.pos, t.value.ll, t.value.d, out); }
    }
  }

  predicate IntactBlocks(data: seq<byte>, pos: nat, out: seq<byte>, ignoreNlen: bool)
    decreases if pos > 8 * |data| then 0 else 8 * |data| - pos
  {
    pos + 3 < 8 * |data| ==>
      && IntactBlock(data, pos + 3, Num(data, pos + 1, 2), out)
      && match Block(data, pos + 3, Num(data, pos + 1, 2), out, true, ignoreNlen)
         case Err(_) => true
         case Ok(st) => Num(data, pos, 1) == 1 || IntactBlocks(data, st.pos, st.out, ignoreNlen)
  }

  /** The distances of the blocks from `pos` on, block by block. */
  function BlocksDistances(data: seq<byte>, pos: nat, out: seq<byte>, rfc: bool, ignoreNlen: bool): (s: seq<seq<Result<Distance>>>)
    decreases if pos > 8 * |data| then 0 else 8 * |data| - pos
  {
    if !(pos + 3 < 8 * |data|) then []
    else
      [BlockDistances(data, pos + 3, Num(data, pos + 1, 2), out, rfc)]
      + match Block(data, pos + 3, Num(data, pos + 1, 2), out, rfc, ignoreNlen)
        case Err(_) => []
        case Ok(st) => if Num(data, pos, 1) == 1 then [] else BlocksDistances(data, st.pos, st.out, rfc, ignoreNlen)
  }

  lemma {:induction false} BlocksAgree(data: seq<byte>, pos: nat, out: seq<byte>, ignoreNlen: bool)
    ensures BlocksDistances(data, pos, out, false, ignoreNlen) == BlocksDistances(data, pos, out, true, ignoreNlen)
            <==> IntactBlocks(data, pos, out, ignoreNlen)
    ensures IntactBlocks(data, pos, out, ignoreNlen) ==> Blocks(data, pos, out, false, ignoreNlen) == Blocks(data, pos, out, true, ignoreNlen)
    decreases if pos > 8 * |data| then 0 else 8 * |data| - pos
  {
    hide Block, BlockDistances, IntactBlock, Num;
    if pos + 3 < 8 * |data| {
      var t := Num(data, pos + 1, 2);
      BlockAgrees(data, pos + 3, t, out, ignoreNlen);
      var a, b := BlocksDistances(data, pos, out, false, ignoreNlen), BlocksDistances(data, pos, out, true, ignoreNlen);
      assert a[0] == BlockDistances(data, pos + 3, t, out, false) && b[0] == BlockDistances(data, pos + 3, t, out, true);
      var r := Block(data, pos + 3, t, out, true, ignoreNlen);
      if IntactBlock(data, pos + 3, t, out) && r.Ok? && Num(data, pos, 1) != 1 {
        var st := r.value;
        BlocksAgree(data, st.pos, st.out, ignoreNlen);
        SameTail(b[0], BlocksDistances(data, st.pos, st.out, false, ignoreNlen), BlocksDistances(data, st.pos, st.out, true, ignoreNlen));
      }
    }
  }

  /** The refill delivers every distance that RFC 1951 finds in the stream. */
  predicate Intact(data: seq<byte>, ignoreNlen: bool) {
    8 * |data| + 64 < SIZE_LIMIT ==> IntactBlocks(data, 0, [], ignoreNlen)
  }

  /** All distances that a reading of the stream meets, block by block. */
  function Distances(data: seq<byte>, rfc: bool, ignoreNlen: bool): (s: seq<seq<Result<Distance>>>)
  {
    if 8 * |data| + 64 >= SIZE_LIMIT then [] else BlocksDistances(data, 0, [], rfc, ignoreNlen)
  }

  /** For every stream, well-formed or not: the reader meets the distances that RFC 1951 says if and only if
      the stream is intact, and then it returns what RFC 1951 says. */
  lemma {:induction false} ReadersAgree(data: seq<byte>, ignoreNlen: bool)
    ensures Distances(data, false, ignoreNlen) == Distances(data, true, ignoreNlen) <==> Intact(data, ignoreNlen)
    ensures Intact(data, ignoreNlen) ==> Inflated(data, false, ignoreNlen) == Inflated(data, true, ignoreNlen)
  {
    hide Blocks, BlocksDistances, IntactBlocks;
    BlocksAgree(data, 0, [], ignoreNlen);
  }
}
