/** The DEFLATE bit writer and bit reader, with their buffers and bit pointers. */
module BitIO {
  import opened Bits

  // ----- bitwise or ---------------------------------------------------------------------------

  /** Bitwise or of two natural numbers. */
  function Or(x: nat, y: nat): (r: nat)
    decreases x, y
  {
    if x == 0 then y
    else (if x % 2 == 1 || y % 2 == 1 then 1 else 0) + 2 * Or(x / 2, y / 2)
  }

  /** A number shifted left by `m` bits leaves the low `m` bits of the other operand alone. */
  lemma {:induction false} OrShl(x: nat, y: nat, m: nat)
    ensures Low(Or(x, Shl(y, m)), m) == Low(x, m)
    ensures Shr(Or(x, Shl(y, m)), m) == Or(Shr(x, m), y)
    decreases m
  {
    if m > 0 { OrShl(x / 2, y, m - 1); }
  }

  /** Or of numbers that occupy different bits is their sum. */
  lemma {:induction false} OrDisjoint(x: nat, y: nat, m: nat)
    requires x < Pow2(m)
    ensures Or(x, Shl(y, m)) == x + Shl(y, m)
  {
    OrShl(x, y, m);
    LowId(x, m);
    Split(Or(x, Shl(y, m)), m);
  }

  // ----- writer -------------------------------------------------------------------------------

  /** Setting bit `k` of a byte whose bits from `k` on are zero. */
  lemma {:induction false} SetBit(v: nat, bit: nat, k: nat, n: nat)
    requires v < Pow2(k) && bit < 2 && k < n
    ensures v + Shl(bit, k) < Pow2(k + 1)
    ensures LowBits(v + Shl(bit, k), n)[..k + 1] == LowBits(v, n)[..k] + [bit == 1]
    decreases k
  {
    var w := v + Shl(bit, k);
    if k > 0 {
      SetBit(v / 2, bit, k - 1, n - 1);
      assert w / 2 == v / 2 + Shl(bit, k - 1) && w % 2 == v % 2;
      assert LowBits(w, n)[..k + 1] == [v % 2 == 1] + LowBits(w / 2, n - 1)[..k];
      assert LowBits(v, n)[..k] == [v % 2 == 1] + LowBits(v / 2, n - 1)[..k - 1];
    }
  }

  lemma {:induction false} AppendBit(front: seq<byte>, last: byte, v: byte, k: nat, bit: bool)
    requires k < 8 && LowBits(v, 8)[..k + 1] == LowBits(last, 8)[..k] + [bit]
    ensures BitsOf(front + [v])[..8 * |front| + k + 1] == BitsOf(front + [last])[..8 * |front| + k] + [bit]
  {
    BitsOfAppend(front, [v]);
    BitsOfAppend(front, [last]);
    BitsOfOne(v);
    BitsOfOne(last);
    var f, x, y := BitsOf(front), LowBits(v, 8), LowBits(last, 8);
    assert (f + x)[..|f| + k + 1] == f + x[..k + 1];
    assert (f + y)[..|f| + k] == f + y[..k];
  }

  lemma {:induction false} PadByte(data: seq<byte>)
    ensures BitsOf(data + [0])[..8 * |data|] == BitsOf(data)
  {
    BitsOfAppend(data, [0]);
  }

  /** One written bit: `padded` is the data with a zero byte added when the last byte is full. */
  lemma {:induction false} WriteStep(data: seq<byte>, bp: nat, padded: seq<byte>, bit: nat)
    requires |data| == (bp + 7) / 8 && bit < 2
    requires bp % 8 != 0 ==> data[|data| - 1] < Pow2(bp % 8) && padded == data
    requires bp % 8 == 0 ==> padded == data + [0]
    ensures var n := |padded| - 1;
            var v := Or(padded[n], Shl(bit, bp % 8));
            v < Pow2(bp % 8 + 1) <= 256 && BitsOf(padded[n := v])[..bp + 1] == BitsOf(data)[..bp] + [bit == 1]
  {
    hide BitsOf, Or, LowBits, Shl, Pow2;
    var n, k := |padded| - 1, bp % 8;
    var front, last := padded[..n], padded[n];
    assert padded == front + [last];
    SetBit(last, bit, k, 8);
    Pow2Mono(k + 1, 8);
    Pow2Small();
    OrDisjoint(last, bit, k);
    var v: byte := Or(last, Shl(bit, k));
    AppendBit(front, last, v, k, bit == 1);
    assert padded[n := v] == front + [v];
    PadByte(data);
  }

  class BitWriter {
    var data: seq<byte>
    var bp: nat

    ghost predicate Valid()
      reads this
    {
      && |data| == (bp + 7) / 8
      && (bp % 8 != 0 ==> data[|data| - 1] < Pow2(bp % 8))
    }

    /** Everything written so far. */
    ghost function Written(): (b: seq<bool>)
      requires Valid()
      reads this
      ensures |b| == bp
    {
      BitsOf(data)[..bp]
    }

    constructor ()
      ensures Valid() && data == [] && Written() == []
    {
      data, bp := [], 0;
    }

    lemma {:induction false} WrittenIs()
      requires Valid()
      ensures Written() == BitsOf(data)[..bp] && bp <= 8 * |data| && |Written()| == bp
    {}

    method WriteBit(bit: nat)
      requires Valid() && bit < 2
      modifies this
      ensures Valid() && Written() == old(Written()) + [bit == 1]
    {
      hide BitsOf, Or, Shl, LowBits, Pow2;
      ghost var before := data;
      if bp % 8 == 0 {
        data := data + [0];
      }
      var last := data[|data| - 1];
      assert bp % 8 == 0 ==> data == before + [0];
      WriteStep(before, bp, data, bit);
      // the last byte or-ed with the shifted bit
      data := data[|data| - 1 := Or(last, Shl(bit, bp % 8))];
      bp := bp + 1;
    }

    /** Least significant bit of `value` first. */
    method WriteBits(value: nat, nbits: nat)
      requires Valid() && (nbits == 1 ==> value < 2)
      modifies this
      ensures Valid() && Written() == old(Written()) + LowBits(value, nbits)
    {
      if nbits == 1 {
        WriteBit(value);
        assert LowBits(value, 1) == [value == 1];
      } else {
        var i := 0;
        while i != nbits
          invariant Valid() && 0 <= i <= nbits
          invariant Written() == old(Written()) + LowBits(value, nbits)[..i]
        {
          LowBitsAt(value, nbits, i);
          WriteBit(Shr(value, i) % 2);
          assert LowBits(value, nbits)[..i + 1] == LowBits(value, nbits)[..i] + [LowBits(value, nbits)[i]];
          i := i + 1;
        }
        assert LowBits(value, nbits)[..nbits] == LowBits(value, nbits);
      }
    }

    /** Most significant of the `nbits` bits of `value` first: used for Huffman codes. */
    method WriteBitsReversed(value: nat, nbits: nat)
      requires Valid()
      modifies this
      ensures Valid() && Written() == old(Written()) + HighFirst(value, nbits)
    {
      var i := 0;
      while i != nbits
        invariant Valid() && 0 <= i <= nbits
        invariant Written() == old(Written()) + HighFirst(value, nbits)[..i]
      {
        HighFirstAt(value, nbits, i);
        WriteBit(Shr(value, nbits - 1 - i) % 2);
        assert HighFirst(value, nbits)[..i + 1] == HighFirst(value, nbits)[..i] + [HighFirst(value, nbits)[i]];
        i := i + 1;
      }
      assert HighFirst(value, nbits)[..nbits] == HighFirst(value, nbits);
    }
  }

  // ----- what the reader loads ----------------------------------------------------------------

  /** The byte at index `i`, or zero past the end: what the reader's guarded loads see. */
  function ByteAt(data: seq<byte>, i: nat): (b: byte)
  {
    if i < |data| then data[i] else 0
  }

  /** Little-endian value of `k` bytes from `start`. */
  function LittleEndian(data: seq<byte>, start: nat, k: nat): (v: nat)
    decreases k, start
  {
    if k == 0 then 0 else ByteAt(data, start) + Shl(LittleEndian(data, start + 1, k - 1), 8)
  }

  lemma {:induction false} TakeByte(data: seq<byte>, k: nat)
    ensures Take(BitsOf(data), 8 * k, 8) == LowBits(ByteAt(data, k), 8)
  {
    if k < |data| {
      BitsOfByte(data, k);
      AtTake(BitsOf(data), 8 * k, LowBits(data[k], 8));
    } else {
      assert LowBits(0, 8) == Take(BitsOf(data), 8 * k, 8);
    }
  }

  lemma {:induction false} ByteVal(v: byte)
    ensures Val(LowBits(v, 8)) == v
  {
    ValLowBits(v, 8);
    assert Pow2(8) == 256;
    LowId(v, 8);
  }

  lemma {:induction false} LittleEndianVal(data: seq<byte>, start: nat, k: nat)
    ensures LittleEndian(data, start, k) == Val(Take(BitsOf(data), 8 * start, 8 * k))
    decreases k
  {
    hide BitsOf, ByteAt;
    var s := BitsOf(data);
    if k > 0 {
      LittleEndianVal(data, start + 1, k - 1);
      TakeSplit(s, 8 * start, 8, 8 * (k - 1));
      TakeByte(data, start);
      ValAppend(Take(s, 8 * start, 8), Take(s, 8 * start + 8, 8 * (k - 1)));
      ByteVal(ByteAt(data, start));
    }
  }

  /** The first `n` of `m` stream bits, as numbers. */
  lemma {:induction false} TakePrefix(s: seq<bool>, pos: nat, m: nat, n: nat)
    requires n <= m
    ensures Low(Val(Take(s, pos, m)), n) == Val(Take(s, pos, n))
    ensures Shr(Val(Take(s, pos, m)), n) == Val(Take(s, pos + n, m - n))
  {
    TakeSplit(s, pos, n, m - n);
    ValSplit(Take(s, pos, n), Take(s, pos + n, m - n));
  }

  /** Loading `k` bytes around bit position `bp` and shifting out the consumed bits. */
  lemma {:induction false} LoadShift(data: seq<byte>, bp: nat, k: nat)
    requires 1 <= k
    ensures Shr(LittleEndian(data, bp / 8, k), bp % 8) == Val(Take(BitsOf(data), bp, 8 * k - bp % 8))
  {
    LittleEndianVal(data, bp / 8, k);
    TakePrefix(BitsOf(data), 8 * (bp / 8), 8 * k, bp % 8);
  }

  /** Past the end of the data a longer load sees only zeros. */
  lemma {:induction false} LoadPastEnd(data: seq<byte>, start: nat, k: nat, m: nat)
    requires |data| <= start + k && k <= m
    ensures LittleEndian(data, start, m) == LittleEndian(data, start, k)
    decreases m
  {
    if k > 0 {
      LoadPastEnd(data, start + 1, k - 1, m - 1);
    } else if m > 0 {
      LoadPastEnd(data, start + 1, 0, m - 1);
      ShlZero(8);
    }
  }

  /** Adding the byte above the `k` bytes already loaded is or-ing it in, shifted. */
  lemma {:induction false} LoadTop(data: seq<byte>, start: nat, k: nat)
    ensures LittleEndian(data, start, k) < Pow2(8 * k)
    ensures LittleEndian(data, start, k + 1) == LittleEndian(data, start, k) + Shl(ByteAt(data, start + k), 8 * k)
    ensures Or(LittleEndian(data, start, k), Shl(ByteAt(data, start + k), 8 * k)) == LittleEndian(data, start, k + 1)
  {
    hide LittleEndian, BitsOf, Or, LowBits, Shl, Take, Val;
    LittleEndianVal(data, start, k);
    LittleEndianVal(data, start, k + 1);
    var s := BitsOf(data);
    ValBound(Take(s, 8 * start, 8 * k));
    TakeSplit(s, 8 * start, 8 * k, 8);
    ValAppend(Take(s, 8 * start, 8 * k), Take(s, 8 * (start + k), 8));
    TakeByte(data, start + k);
    ByteVal(ByteAt(data, start + k));
    OrDisjoint(LittleEndian(data, start, k), ByteAt(data, start + k), 8 * k);
  }

  lemma {:induction false} LoadOne(data: seq<byte>, start: nat)
    ensures LittleEndian(data, start, 1) == ByteAt(data, start)
  {
    assert LittleEndian(data, start + 1, 0) == 0;
    ShlZero(8);
  }

  // ----- the 32-bit refill --------------------------------------------------------------------

  lemma {:induction false} LowShl(x: nat, a: nat, b: nat)
    ensures Low(Shl(x, a), a + b) == Shl(Low(x, b), a)
    decreases a
  {
    if a > 0 { LowShl(x, a - 1, b); }
  }

  /** The word left in the buffer by the 32-bit refill. When at least five bytes remain, the fifth
      byte is shifted by 31 - bp%8 rather than 32 - bp%8: it lands one bit too low, on top of the
      highest bit of the fourth byte. */
  function Word32(data: seq<byte>, bp: nat): (w: nat)
  {
    var loaded := Shr(LittleEndian(data, bp / 8, 4), bp % 8);
    if bp / 8 + 4 < |data| then Or(loaded, Low(Shl(data[bp / 8 + 4], 31 - bp % 8), 32)) else loaded
  }

  /** When the low `n` bits of the refilled word are the next `n` bits of the stream: fewer than
      five bytes were left, or no more than 31 - bp%8 bits are asked for, or the bits of the
      misplaced byte happen to agree with those they displaced. */
  predicate Intact32(data: seq<byte>, bp: nat, n: nat)
  {
    || |data| <= bp / 8 + 4
    || n <= 31 - bp % 8
    || (var e := n - (31 - bp % 8);
        var d := Low(data[bp / 8 + 4], e);
        d == 0 || (128 <= data[bp / 8 + 3] && d == Pow2(e) - 1))
  }

  lemma {:induction false} EqualNeighbours(d: nat, n: nat)
    ensures Low(d / 2, n) == Low(d, n) <==> Low(d, n + 1) == 0 || Low(d, n + 1) == Pow2(n + 1) - 1
    decreases n
  {
    if n > 0 { EqualNeighbours(d / 2, n - 1); LowBound(d / 4, n - 1); }
  }

  lemma {:induction false} DoubledLow(d: nat, e: nat)
    ensures Low(d, e) == Low(2 * d, e) <==> Low(d, e) == 0
    decreases e
  {
    if e > 0 {
      if d % 2 == 0 { DoubledLow(d / 2, e - 1); }
    }
  }

  /** Or-ing `d` onto a single bit `t`, against the intended `t + 2d`. */
  lemma {:induction false} MisplacedBits(t: nat, d: nat, e: nat)
    requires t < 2 && 1 <= e
    ensures Low(Or(t, d), e) == Low(t + 2 * d, e)
            <==> Low(d, e) == 0 || (t == 1 && Low(d, e) == Pow2(e) - 1)
  {
    if t == 0 {
      DoubledLow(d, e);
    } else {
      assert Or(1, d) == 1 + 2 * (d / 2);
      EqualNeighbours(d, e - 1);
    }
  }

  /** Two numbers agree on their low m + e bits when they agree on the low m and on the next e. */
  lemma {:induction false} LowAgree(x: nat, y: nat, m: nat, e: nat)
    requires Low(x, m) == Low(y, m)
    ensures Low(x, m + e) == Low(y, m + e) <==> Low(Shr(x, m), e) == Low(Shr(y, m), e)
  {
    LowSplit(x, m, e);
    LowSplit(y, m, e);
    var a, b := Low(Shr(x, m), e), Low(Shr(y, m), e);
    ShlParts(a, m);
    ShlParts(b, m);
  }

  /** The bit on which the misplaced byte lands is the top bit of the fourth byte. */
  lemma {:induction false} TopBit(data: seq<byte>, i: nat)
    requires i < |data|
    ensures Val(Take(BitsOf(data), 8 * i + 7, 1)) == if 128 <= data[i] then 1 else 0
  {
    var s := BitsOf(data);
    var b := Take(s, 8 * i + 7, 1);
    TakeByte(data, i);
    assert b[0] == Take(s, 8 * i, 8)[7];
    LowBitsAt(data[i], 8, 7);
    ShrSeven(data[i]);
    assert Val(b[1..]) == 0;
  }

  lemma {:induction false} TopBitAndNext(data: seq<byte>, i: nat)
    requires i + 1 < |data|
    ensures var next: nat := data[i + 1];
            Val(Take(BitsOf(data), 8 * i + 7, 9)) == (if 128 <= data[i] then 1 else 0) + 2 * next
  {
    var s := BitsOf(data);
    TopBit(data, i);
    TakeSplit(s, 8 * i + 7, 1, 8);
    TakeByte(data, i + 1);
    ByteVal(data[i + 1]);
    ValAppend(Take(s, 8 * i + 7, 1), Take(s, 8 * (i + 1), 8));
    assert Shl(data[i + 1], 1) == 2 * Shl(data[i + 1], 0);
  }

  lemma {:induction false} ShrSeven(v: byte)
    ensures Shr(v, 7) == v / 128
  {
    assert Shr(v, 7) == Shr(v / 2, 6) && Shr(v / 2, 6) == Shr(v / 4, 5);
    assert Shr(v / 4, 5) == Shr(v / 8, 4) && Shr(v / 8, 4) == Shr(v / 16, 3);
    assert Shr(v / 16, 3) == Shr(v / 32, 2) && Shr(v / 32, 2) == Shr(v / 64, 1);
    assert Shr(v / 64, 1) == Shr(v / 128, 0);
  }

  /** Exactly when the 32-bit refill delivers the next `n` bits of the stream. */
  lemma {:induction false} Refill32(data: seq<byte>, bp: nat, n: nat)
    requires 0 < n <= 32
    ensures Low(Word32(data, bp), n) == Val(Take(BitsOf(data), bp, n)) <==> Intact32(data, bp, n)
  {
    var s, k := BitsOf(data), bp % 8;
    if |data| <= bp / 8 + 4 {
      LoadPastEnd(data, bp / 8, 4, 5);
      LoadShift(data, bp, 5);
      TakePrefix(s, bp, 40 - k, n);
    } else {
      if n <= 31 - k {
        Word32Parts(data, bp);
        LowLow(Word32(data, bp), 31 - k, n);
        TakePrefix(s, bp, 31 - k, n);
      } else {
        Misplaced(data, bp, n);
      }
    }
  }

  /** The refilled word, split at the misplaced bit. */
  lemma {:induction false} Word32Parts(data: seq<byte>, bp: nat)
    requires bp / 8 + 4 < |data|
    ensures Low(Word32(data, bp), 31 - bp % 8) == Val(Take(BitsOf(data), bp, 31 - bp % 8))
    ensures Shr(Word32(data, bp), 31 - bp % 8)
            == Or(if 128 <= data[bp / 8 + 3] then 1 else 0, Low(data[bp / 8 + 4], bp % 8 + 1))
  {
    var s, k := BitsOf(data), bp % 8;
    LoadShift(data, bp, 4);
    TakePrefix(s, bp, 32 - k, 31 - k);
    TopBit(data, bp / 8 + 3);
    LowShl(data[bp / 8 + 4], 31 - k, k + 1);
    OrShl(Val(Take(s, bp, 32 - k)), Low(data[bp / 8 + 4], k + 1), 31 - k);
  }

  lemma {:induction false} Misplaced(data: seq<byte>, bp: nat, n: nat)
    requires bp / 8 + 4 < |data| && 31 - bp % 8 < n <= 32
    ensures Low(Word32(data, bp), n) == Val(Take(BitsOf(data), bp, n)) <==> Intact32(data, bp, n)
  {
    hide BitsOf, Or, Take, Val, Word32, Low, Shr;
    var s, m := BitsOf(data), 31 - bp % 8;
    var d: nat, e := data[bp / 8 + 4], n - m;
    var top := if 128 <= data[bp / 8 + 3] then 1 else 0;
    var w, right := Word32(data, bp), Val(Take(s, bp, m + 9));
    Word32Parts(data, bp);
    TakePrefix(s, bp, m + 9, n);
    TakePrefix(s, bp, m + 9, m);
    TopBitAndNext(data, bp / 8 + 3);
    assert Shr(right, m) == top + 2 * d;
    LowAgree(w, right, m, e);
    OrLow(top, d, bp % 8 + 1, e);
    MisplacedBits(top, d, e);
  }

  lemma {:induction false} OrLow(t: nat, d: nat, m: nat, e: nat)
    requires t < 2 && 1 <= e <= m
    ensures Low(Or(t, Low(d, m)), e) == Low(Or(t, d), e)
  {
    LowLow(d, m, e);
    if t == 1 {
      var x := Low(d, m);
      assert Or(1, x) == 1 + 2 * (x / 2) && Or(1, d) == 1 + 2 * (d / 2);
      assert x / 2 == Low(d / 2, m - 1);
      LowLow(d / 2, m - 1, e - 1);
    }
  }

  // ----- reader -------------------------------------------------------------------------------

  /** A refill by `k` bytes, `loaded` of which were read one by one, delivers every count of bits
      up to 8k - 7. */
  lemma {:induction false} RefillHolds(data: seq<byte>, bp: nat, k: nat, n: nat)
    requires 1 <= k && n <= 8 * k - bp % 8
    ensures Low(Shr(LittleEndian(data, bp / 8, k), bp % 8), n) == Val(Take(BitsOf(data), bp, n))
  {
    LoadShift(data, bp, k);
    TakePrefix(BitsOf(data), bp, 8 * k - bp % 8, n);
  }

  class BitReader {
    const data: seq<byte>
    var bp: nat
    var buffer: nat

    /** The low `n` bits of the buffer are the next `n` bits of the stream (zeros past its end). */
    ghost predicate Holds(n: nat)
      reads this
    {
      Low(buffer, n) == Val(Take(BitsOf(data), bp, n))
    }

    constructor (data: seq<byte>)
      ensures this.data == data && bp == 0 && buffer == 0
    {
      this.data, bp, buffer := data, 0, 0;
    }

    /** Makes up to 9 bits available. The answer is "yes" for too few bits never, but it can be "no"
        for a request that reaches exactly the last bit. */
    method EnsureBits9(nbits: nat) returns (ok: bool)
      requires nbits <= 9
      modifies this`buffer
      ensures Holds(9)
      ensures bp + nbits < 8 * |data| ==> ok
      ensures ok ==> bp + nbits <= 8 * |data|
      ensures nbits <= 8 && bp + nbits == 8 * |data| ==> !ok
    {
      hide LittleEndian, BitsOf, Or, Shl, Shr, Low, Take, Val, Pow2;
      var start := bp / 8;
      LoadOne(data, start);
      LoadTop(data, start, 1);
      if start + 1 < |data| {
        buffer := Shr(Or(data[start], Shl(data[start + 1], 8)), bp % 8);
        ok := true;
      } else {
        LoadPastEnd(data, start, 1, 2);
        var w: nat := if start < |data| then data[start] else 0;
        buffer := Shr(w, bp % 8);
        ok := bp + nbits < 8 * |data|;
      }
      RefillHolds(data, bp, 2, 9);
    }

    /** Makes up to 17 bits available. */
    method EnsureBits17(nbits: nat) returns (ok: bool)
      requires nbits <= 17
      modifies this`buffer
      ensures Holds(17)
      ensures bp + nbits < 8 * |data| ==> ok
      ensures ok ==> bp + nbits <= 8 * |data|
      ensures nbits <= 16 && bp + nbits == 8 * |data| ==> !ok
    {
      hide LittleEndian, BitsOf, Or, Shl, Shr, Low, Take, Val, Pow2;
      var start := bp / 8;
      LoadOne(data, start);
      LoadTop(data, start, 1);
      LoadTop(data, start, 2);
      var w := Or(if start < |data| then data[start] else 0, Shl(if start + 1 < |data| then data[start + 1] else 0, 8));
      if start + 2 < |data| {
        w := Or(w, Shl(data[start + 2], 16));
        ok := true;
      } else {
        LoadPastEnd(data, start, 2, 3);
        ok := bp + nbits < 8 * |data|;
      }
      buffer := Shr(w, bp % 8);
      RefillHolds(data, bp, 3, 17);
    }

    /** Makes up to 25 bits available. */
    method EnsureBits25(nbits: nat) returns (ok: bool)
      requires nbits <= 25
      modifies this`buffer
      ensures Holds(25)
      ensures bp + nbits < 8 * |data| ==> ok
      ensures ok ==> bp + nbits <= 8 * |data|
      ensures nbits <= 24 && bp + nbits == 8 * |data| ==> !ok
    {
      hide LittleEndian, BitsOf, Or, Shl, Shr, Low, Take, Val, Pow2;
      var start := bp / 8;
      LoadOne(data, start);
      LoadTop(data, start, 1);
      LoadTop(data, start, 2);
      LoadTop(data, start, 3);
      var w := Or(if start < |data| then data[start] else 0, Shl(if start + 1 < |data| then data[start + 1] else 0, 8));
      w := Or(w, Shl(if start + 2 < |data| then data[start + 2] else 0, 16));
      if start + 3 < |data| {
        w := Or(w, Shl(data[start + 3], 24));
        ok := true;
      } else {
        LoadPastEnd(data, start, 3, 4);
        ok := bp + nbits < 8 * |data|;
      }
      buffer := Shr(w, bp % 8);
      RefillHolds(data, bp, 4, 25);
    }

    /** Meant to make up to 32 bits available: the word it leaves is `Word32`, which holds the next
        `n` bits exactly when `Intact32` says so. */
    method EnsureBits32(nbits: nat) returns (ok: bool)
      requires nbits <= 32
      modifies this`buffer
      ensures buffer == Word32(data, bp)
      ensures forall n :: 0 < n <= 32 ==> (Holds(n) <==> Intact32(data, bp, n))
      ensures bp + nbits < 8 * |data| ==> ok
      ensures ok ==> bp + nbits <= 8 * |data|
    {
      hide LittleEndian, BitsOf, Or, Shl, Shr, Low, Take, Val, Pow2;
      var start := bp / 8;
      LoadOne(data, start);
      LoadTop(data, start, 1);
      LoadTop(data, start, 2);
      LoadTop(data, start, 3);
      var w := Or(if start < |data| then data[start] else 0, Shl(if start + 1 < |data| then data[start + 1] else 0, 8));
      w := Or(w, Shl(if start + 2 < |data| then data[start + 2] else 0, 16));
      w := Or(w, Shl(if start + 3 < |data| then data[start + 3] else 0, 24));
      buffer := Shr(w, bp % 8);
      if start + 4 < |data| {
        buffer := Or(buffer, Low(Shl(data[start + 4], 31 - bp % 8), 32));
        ok := true;
      } else {
        ok := bp + nbits < 8 * |data|;
      }
      forall n | 0 < n <= 32 ensures Holds(n) <==> Intact32(data, bp, n) { Refill32(data, bp, n); }
    }

    /** The next `nbits` bits, as a number, without consuming them. */
    method PeekBits(nbits: nat) returns (v: nat)
      ensures v == Low(buffer, nbits) && v < Pow2(nbits)
      ensures Holds(nbits) ==> v == Val(Take(BitsOf(data), bp, nbits))
    {
      LowBound(buffer, nbits);
      v := Low(buffer, nbits);
    }

    /** Consumes `nbits` bits; whatever further bits were available still are. */
    method AdvanceBits(nbits: nat, ghost left: nat)
      modifies this
      ensures bp == old(bp) + nbits && buffer == Shr(old(buffer), nbits)
      ensures old(Holds(nbits + left)) ==> Holds(left)
    {
      if Holds(nbits + left) { AdvanceHolds(data, bp, buffer, nbits, left); }
      buffer := Shr(buffer, nbits);
      bp := bp + nbits;
    }

    method ReadBits(nbits: nat, ghost left: nat) returns (v: nat)
      modifies this
      ensures v == Low(old(buffer), nbits) && v < Pow2(nbits)
      ensures bp == old(bp) + nbits && buffer == Shr(old(buffer), nbits)
      ensures old(Holds(nbits + left)) ==> Holds(left) && v == Val(Take(BitsOf(data), old(bp), nbits))
    {
      if Holds(nbits + left) { HoldsFewer(nbits + left, nbits); }
      v := PeekBits(nbits);
      AdvanceBits(nbits, left);
    }

    lemma {:induction false} HoldsFewer(n: nat, m: nat)
      requires Holds(n) && m <= n
      ensures Holds(m)
    {
      LowLow(buffer, n, m);
      TakePrefix(BitsOf(data), bp, n, m);
    }

    /** Bits the buffer holds, read as a bit sequence. */
    lemma {:induction false} HoldsBits(n: nat)
      requires Holds(n)
      ensures LowBits(buffer, n) == Take(BitsOf(data), bp, n)
    {
      ValLowBits(buffer, n);
      ValInjective(LowBits(buffer, n), Take(BitsOf(data), bp, n));
    }
  }

  lemma {:induction false} AdvanceHolds(data: seq<byte>, bp: nat, buffer: nat, n: nat, left: nat)
    requires Low(buffer, n + left) == Val(Take(BitsOf(data), bp, n + left))
    ensures Low(Shr(buffer, n), left) == Val(Take(BitsOf(data), bp + n, left))
  {
    TakePrefix(BitsOf(data), bp, n + left, n);
    LowSplit(buffer, n, left);
    LowBound(buffer, n);
    Join(Low(buffer, n), Low(Shr(buffer, n), left), n);
  }

  /** A refill of 25 bits at bit offset 7 that does not deliver them: the stream holds 25 zero bits
      there, but the fifth byte sets the highest of them in the buffer. */
  lemma {:induction false} RefillFails()
    ensures var data: seq<byte> := [0, 0, 0, 0, 1];
            Low(Word32(data, 7), 25) != Val(Take(BitsOf(data), 7, 25))
  {
    var data: seq<byte> := [0, 0, 0, 0, 1];
    assert Low(1, 1) == 1 by { assert Low(0, 0) == 0; }
    assert Pow2(1) == 2;
    Refill32(data, 7, 25);
  }
}
