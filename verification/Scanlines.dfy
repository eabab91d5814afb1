/** From an image to the scanlines that are compressed, and back. */
module Scanlines {
  import opened Bits
  import opened Bitwise
  import opened Buffers
  import opened Bitmap
  import opened Filter
  import opened FilterImage
  import opened Adam7

  // ----- colour types -------------------------------------------------------------------------

  function NumColorChannels(colortype: nat): (n: nat)
  {
    match colortype
    case 0 => 1
    case 2 => 3
    case 3 => 1
    case 4 => 2
    case 6 => 4
    case _ => 0
  }

  /** Bits per pixel; 0 for an invalid colour type. */
  function BitsPerPixel(colortype: nat, bitdepth: nat): (bpp: nat) { NumColorChannels(colortype) * bitdepth }

  /** The combinations of colour type and depth that PNG allows. */
  predicate ValidColor(colortype: nat, bitdepth: nat) {
    match colortype
    case 0 => bitdepth in {1, 2, 4, 8, 16}
    case 2 => bitdepth in {8, 16}
    case 3 => bitdepth in {1, 2, 4, 8}
    case 4 => bitdepth in {8, 16}
    case 6 => bitdepth in {8, 16}
    case _ => false
  }

  /** Pixels are less than a byte, or whole bytes. */
  predicate ValidBpp(bpp: nat) { 0 < bpp && (bpp < 8 || bpp % 8 == 0) }

  lemma {:induction false} ColorBpp(colortype: nat, bitdepth: nat)
    requires ValidColor(colortype, bitdepth)
    ensures ValidBpp(BitsPerPixel(colortype, bitdepth))
  {}

  function ByteWidth(bpp: nat): (n: nat) { (bpp + 7) / 8 }

  // ----- bits and bytes -----------------------------------------------------------------------

  /** Equal bits from byte k on the buffer mean equal bytes. */
  lemma {:induction false} BytesFromBits(a: seq<byte>, b: seq<byte>, k: nat)
    requires |a| == |b| && k < |a|
    requires forall i :: 8 * k <= i < 8 * k + 8 ==> MsbBits(a)[i] == MsbBits(b)[i]
    ensures a[k] == b[k]
  {
    hide Bit;
    forall i: nat | i < 8 ensures Bit(a[k], i) == Bit(b[k], i) {
      var j := 8 * k + 7 - i;
      assert MsbBits(a)[j] == MsbBits(b)[j];
      assert j / 8 == k && j % 8 == 7 - i;
    }
    Pow2Small();
    SameBitsSame(a[k], b[k], 8);
  }

  lemma {:induction false} ByteIndex(a: nat, k: nat)
    ensures (8 * a + k) / 8 == a + k / 8 && (8 * a + k) % 8 == k % 8
  {}

  lemma {:induction false} MsbSlice(s: seq<byte>, a: nat, b: nat)
    requires a <= b <= |s|
    ensures MsbBits(s[a..b]) == MsbBits(s)[8 * a..8 * b]
  {
    hide Bit, BitAt;
    var x, y := MsbBits(s[a..b]), MsbBits(s)[8 * a..8 * b];
    forall k: nat | k < 8 * (b - a) ensures x[k] == y[k] {
      assert x[k] == BitAt(s[a..b], k) && y[k] == MsbBits(s)[8 * a + k] == BitAt(s, 8 * a + k);
      SameBit(s, a, b, k);
    }
  }

  lemma {:induction false} SameBit(s: seq<byte>, a: nat, b: nat, k: nat)
    requires a <= b <= |s| && k < 8 * (b - a)
    ensures BitAt(s[a..b], k) == BitAt(s, 8 * a + k)
  {
    hide Bit;
    ByteIndex(a, k);
    assert k / 8 < b - a && s[a..b][k / 8] == s[a + k / 8];
  }

  /** Lines taken from a piece of a buffer are the lines of that piece. */
  lemma {:induction false} DropShift(bits: seq<bool>, s: nat, piece: seq<bool>, ol: nat, il: nat, h: nat)
    requires ol <= il && s + Times(h, il) <= |bits| && Times(h, il) <= |piece|
    requires bits[s..s + Times(h, il)] == piece[..Times(h, il)]
    ensures DropPadding(bits, s, ol, il, h) == DropPadding(piece, 0, ol, il, h)
    decreases h
  {
    if h > 0 {
      var t := Times(h - 1, il);
      SubPiece(bits, s, t + il, 0, t);
      SubPiece(bits, s, t + il, t, t + ol);
      SubPiece(piece, 0, t + il, 0, t);
      SubPiece(piece, 0, t + il, t, t + ol);
      assert piece[0..t + il] == piece[..t + il];
      DropShift(bits, s, piece, ol, il, h - 1);
    }
  }

  /** Lines without padding are kept as they are. */
  lemma {:induction false} DropNothing(bits: seq<bool>, n: nat, h: nat)
    requires Times(h, n) <= |bits|
    ensures DropPadding(bits, 0, n, n, h) == bits[..Times(h, n)]
    decreases h
  {
    if h > 0 { DropNothing(bits, n, h - 1); }
  }

  // ----- passes -------------------------------------------------------------------------------

  /** Size of an image and of its pixels. */
  datatype Shape = Shape(w: nat, h: nat, bpp: nat)

  predicate ValidShape(s: Shape) { 0 < s.w && 0 < s.h && ValidBpp(s.bpp) }

  /** A (reduced) image: its rows, bytes and bits of a row, and where it starts with filter bytes, with
      padded rows, and packed. */
  datatype Pass = Pass(h: nat, bytes: nat, bits: nat, filtered: nat, padded: nat, packed: nat)

  function PassAt(s: Shape, p: nat): (i: Pass)
  {
    var w, h := PassW(p, s.w, s.h), PassH(p, s.w, s.h);
    Pass(h, LineBytes(w, s.bpp), Times(w, s.bpp), FilterStart(s.w, s.h, s.bpp, p), PaddedStart(s.w, s.h, s.bpp, p),
         PackedStart(s.w, s.h, s.bpp, p))
  }

  lemma {:induction false} Layout(s: Shape, p: nat)
    ensures var i, j := PassAt(s, p), PassAt(s, p + 1);
            && j.filtered == i.filtered + Times(i.h, i.bytes + 1)
            && j.padded == i.padded + Times(i.h, i.bytes)
            && 8 * i.packed + Times(i.h, i.bits) <= 8 * j.packed
            && i.packed <= i.padded <= i.filtered && j.packed <= j.padded <= j.filtered
            && (s.bpp % 8 == 0 ==> i.packed == i.padded && j.packed == j.padded)
            && i.bits <= 8 * i.bytes
  {
    hide PassW, PassH, FilterStart, PaddedStart, PackedStart, FilteredBytes;
    StartsNext(s.w, s.h, s.bpp, p);
    FormsShrink(s.w, s.h, s.bpp, p);
    StartsShrink(s.w, s.h, s.bpp, p);
    StartsShrink(s.w, s.h, s.bpp, p + 1);
    TimesTimes(PassH(p, s.w, s.h), PassW(p, s.w, s.h), s.bpp);
  }

  lemma {:induction false} LayoutMonotone(s: Shape, p: nat, q: nat)
    requires p <= q
    ensures PassAt(s, p).filtered <= PassAt(s, q).filtered && PassAt(s, p).padded <= PassAt(s, q).padded
            && PassAt(s, p).packed <= PassAt(s, q).packed
    decreases q
  {
    hide PassAt;
    if p < q {
      LayoutMonotone(s, p, q - 1);
      Layout(s, q - 1);
    }
  }

  /** A reduced image that has rows has columns. */
  lemma {:induction false} RowsHaveBytes(s: Shape, p: nat)
    requires 0 < s.bpp && 0 < PassAt(s, p).h
    ensures ByteWidth(s.bpp) <= PassAt(s, p).bytes
  {
    hide PassW, PassH;
    PassEmpty(s.w, s.h, p);
    TimesMonotone(1, PassW(p, s.w, s.h), s.bpp);
    assert Times(1, s.bpp) == s.bpp;
  }

  /** The filtered rows of a pass. */
  function PassData(data: seq<byte>, i: Pass): (d: seq<byte>)
    requires i.filtered + Times(i.h, i.bytes + 1) <= |data|
    ensures |d| == Times(i.h, i.bytes + 1)
  {
    data[i.filtered..i.filtered + Times(i.h, i.bytes + 1)]
  }

  /** Rows without their padding. */
  function Unpadded(rows: seq<byte>, i: Pass): (bits: seq<bool>)
    requires |rows| == Times(i.h, i.bytes) && i.bits <= 8 * i.bytes
    ensures |bits| == Times(i.h, i.bits)
  {
    TimesEight(i.h, i.bytes);
    DropPadding(MsbBits(rows), 0, i.bits, 8 * i.bytes, i.h)
  }

  /** The packed image in `buf` has the rows of a pass: pixels less than a byte without padding. */
  predicate HoldsRows(rows: seq<byte>, buf: seq<byte>, i: Pass, bpp: nat) {
    && |rows| == Times(i.h, i.bytes) && i.bits <= 8 * i.bytes
    && if bpp < 8 then
         8 * i.packed + Times(i.h, i.bits) <= 8 * |buf|
         && MsbBits(buf)[8 * i.packed..8 * i.packed + Times(i.h, i.bits)] == Unpadded(rows, i)
       else
         i.packed + |rows| <= |buf| && buf[i.packed..i.packed + |rows|] == rows
  }

  /** The packed image in `buf` has a pass as `data` has it. */
  predicate HoldsPass(data: seq<byte>, buf: seq<byte>, i: Pass, bpp: nat) {
    && 0 < bpp && i.filtered + Times(i.h, i.bytes + 1) <= |data|
    && GoodKinds(PassData(data, i), i.bytes, i.h)
    && HoldsRows(UnfilterRows(PassData(data, i), i.bytes, ByteWidth(bpp), i.h), buf, i, bpp)
  }

  // ----- decoding the passes ------------------------------------------------------------------

  /** The buffer after p passes: the passes before p are packed, the filtered rows from pass p on intact. */
  predicate Decoded(data: seq<byte>, buf: seq<byte>, s: Shape, p: nat) {
    && |buf| == |data| && p <= 7 && PassAt(s, 7).filtered <= |data|
    && (forall q :: 0 <= q < p ==> HoldsPass(data, buf, PassAt(s, q), s.bpp))
    && (forall k :: PassAt(s, p).filtered <= k < |buf| ==> buf[k] == data[k])
  }

  /** Writing behind a pass leaves it alone. */
  lemma {:induction false} RowsKept(rows: seq<byte>, buf: seq<byte>, buf': seq<byte>, i: Pass, bpp: nat, n: nat)
    requires HoldsRows(rows, buf, i, bpp) && |buf'| == |buf| && n <= |buf|
    requires if bpp < 8 then 8 * i.packed + Times(i.h, i.bits) <= 8 * n else i.packed + Times(i.h, i.bytes) <= n
    requires forall k :: 0 <= k < n ==> buf'[k] == buf[k]
    ensures HoldsRows(rows, buf', i, bpp)
  {
    hide Unpadded;
    assert buf[..n] == buf'[..n];
    if bpp < 8 {
      MsbSlice(buf, 0, n);
      MsbSlice(buf', 0, n);
      assert buf[0..n] == buf[..n] && buf'[0..n] == buf'[..n];
      var a, b := 8 * i.packed, 8 * i.packed + Times(i.h, i.bits);
      SubPiece(MsbBits(buf), 0, 8 * n, a, b);
      SubPiece(MsbBits(buf'), 0, 8 * n, a, b);
    } else {
      SubPiece(buf, 0, n, i.packed, i.packed + |rows|);
      SubPiece(buf', 0, n, i.packed, i.packed + |rows|);
      assert buf[0..n] == buf[..n] && buf'[0..n] == buf'[..n];
    }
  }

  /** Unfiltering a pass in place: its rows are there, everything before and behind is as before. */
  lemma {:induction false} RowsPlaced(buf: seq<byte>, rows: seq<byte>, i: Pass, bpp: nat)
    requires |rows| == Times(i.h, i.bytes) && i.bits <= 8 * i.bytes && i.padded + |rows| <= |buf|
    requires 8 <= bpp && i.packed == i.padded
    ensures HoldsRows(rows, Replaced(buf, i.padded, rows), i, bpp)
  {
    hide Unpadded;
  }

  /** Removing the padding of a pass in place. */
  lemma {:induction false} RowsPacked(buf: seq<byte>, buf': seq<byte>, rows: seq<byte>, i: Pass, bpp: nat)
    requires |rows| == Times(i.h, i.bytes) && i.bits <= 8 * i.bytes && i.padded + |rows| <= |buf| == |buf'|
    requires bpp < 8 && i.packed <= i.padded && 8 * i.packed + Times(i.h, i.bits) <= 8 * |buf| && 8 * i.padded + Times(i.h, 8 * i.bytes) <= 8 * |buf|
    requires MsbBits(buf')
          == Replaced(MsbBits(buf), 8 * i.packed, DropPadding(MsbBits(buf), 8 * i.padded, i.bits, 8 * i.bytes, i.h))
    requires buf[i.padded..i.padded + |rows|] == rows
    ensures HoldsRows(rows, buf', i, bpp)
  {
    hide DropPadding, MsbBits;
    TimesEight(i.h, i.bytes);
    MsbSlice(buf, i.padded, i.padded + |rows|);
    var bits := MsbBits(rows);
    assert bits[..Times(i.h, 8 * i.bytes)] == bits;
    DropShift(MsbBits(buf), 8 * i.padded, bits, i.bits, 8 * i.bytes, i.h);
    ReplacedPiece(MsbBits(buf), 8 * i.packed, Unpadded(rows, i));
  }

  /** Bytes outside the bits that were replaced are as before. */
  lemma {:induction false} BytesKept(buf: seq<byte>, buf': seq<byte>, at: nat, x: seq<bool>, k: nat)
    requires |buf| == |buf'| && at + |x| <= 8 * |buf| && MsbBits(buf') == Replaced(MsbBits(buf), at, x)
    requires k < |buf| && (8 * k + 8 <= at || at + |x| <= 8 * k)
    ensures buf'[k] == buf[k]
  {
    hide MsbBits;
    BytesFromBits(buf, buf', k);
  }

  // ----- one pass -----------------------------------------------------------------------------

  /** Unfilters a pass within one buffer and removes its padding. */
  method DecodePass(buf: array<byte>, i: Pass, bpp: nat) returns (error: nat)
    requires ValidBpp(bpp) && (i.h > 0 ==> ByteWidth(bpp) <= i.bytes)
    requires i.filtered + Times(i.h, i.bytes + 1) <= buf.Length && i.padded + Times(i.h, i.bytes) <= buf.Length
    requires 8 * i.packed + Times(i.h, i.bits) <= 8 * buf.Length
    requires i.packed <= i.padded <= i.filtered && i.bits <= 8 * i.bytes && (8 <= bpp ==> i.packed == i.padded)
    modifies buf
    ensures error == if GoodKinds(PassData(old(buf[..]), i), i.bytes, i.h) then 0 else 36
    ensures error == 0 ==> HoldsPass(old(buf[..]), buf[..], i, bpp)
    ensures error == 0 ==> forall k :: 0 <= k < buf.Length && (k < i.packed || i.padded + Times(i.h, i.bytes) <= k) ==> buf[k] == old(buf[k])
  {
    hide GoodKinds, UnfilterRows, HoldsRows, Replaced, MsbBits, DropPadding;
    ghost var b0 := buf[..];
    ghost var data := PassData(b0, i);
    assert data == buf[i.filtered..i.filtered + Times(i.h, i.bytes + 1)];
    error := Unfilter(buf, i.padded, buf, i.filtered, i.bytes, ByteWidth(bpp), i.h);
    if error != 0 { return; }
    ghost var rows := UnfilterRows(data, i.bytes, ByteWidth(bpp), i.h);
    ghost var b1 := buf[..];
    ReplacedElsewhere(b0, i.padded, rows);
    ReplacedPiece(b0, i.padded, rows);
    if bpp < 8 {
      TimesEight(i.h, i.bytes);
      TimesLess(i.h, i.bits, 8 * i.bytes);
      RemovePaddingBits(buf, i.packed, buf, i.padded, i.bits, 8 * i.bytes, i.h);
      RowsPacked(b1, buf[..], rows, i, bpp);
      ghost var x := DropPadding(MsbBits(b1), 8 * i.padded, i.bits, 8 * i.bytes, i.h);
      forall k | 0 <= k < buf.Length && (k < i.packed || i.padded + Times(i.h, i.bytes) <= k) ensures buf[k] == b1[k] {
        BytesKept(b1, buf[..], 8 * i.packed, x, k);
      }
    } else {
      RowsPlaced(b0, rows, i, bpp);
    }
  }

  /** One more pass, decoded in place. */
  lemma {:induction false} DecodedMore(data: seq<byte>, buf: seq<byte>, buf': seq<byte>, s: Shape, p: nat)
    requires ValidBpp(s.bpp) && p < 7 && Decoded(data, buf, s, p) && |buf'| == |buf|
    requires var i := PassAt(s, p);
             HoldsPass(buf, buf', i, s.bpp)
             && forall k :: 0 <= k < |buf| && (k < i.packed || i.padded + Times(i.h, i.bytes) <= k) ==> buf'[k] == buf[k]
    ensures Decoded(data, buf', s, p + 1)
  {
    hide PassAt, HoldsPass, GoodKinds, UnfilterRows, HoldsRows;
    Layout(s, p);
    var i := PassAt(s, p);
    LayoutMonotone(s, p + 1, 7);
    SamePass(data, buf, buf', i, s.bpp);
    forall q | 0 <= q < p ensures HoldsPass(data, buf', PassAt(s, q), s.bpp) {
      PassBefore(s, q, p);
      PassKept(data, buf, buf', PassAt(s, q), s.bpp, i.packed);
    }
  }

  /** A pass read from the intact part of the buffer is the pass of the data. */
  lemma {:induction false} SamePass(data: seq<byte>, buf: seq<byte>, buf': seq<byte>, i: Pass, bpp: nat)
    requires HoldsPass(buf, buf', i, bpp) && |buf| == |data| && forall k :: i.filtered <= k < |buf| ==> buf[k] == data[k]
    ensures HoldsPass(data, buf', i, bpp)
  {
    hide GoodKinds, UnfilterRows, HoldsRows;
    assert PassData(data, i) == PassData(buf, i);
  }

  lemma {:induction false} PassKept(data: seq<byte>, buf: seq<byte>, buf': seq<byte>, i: Pass, bpp: nat, n: nat)
    requires HoldsPass(data, buf, i, bpp) && |buf'| == |buf| && n <= |buf|
    requires if bpp < 8 then 8 * i.packed + Times(i.h, i.bits) <= 8 * n else i.packed + Times(i.h, i.bytes) <= n
    requires forall k :: 0 <= k < n ==> buf'[k] == buf[k]
    ensures HoldsPass(data, buf', i, bpp)
  {
    hide GoodKinds, UnfilterRows, HoldsRows;
    RowsKept(UnfilterRows(PassData(data, i), i.bytes, ByteWidth(bpp), i.h), buf, buf', i, bpp, n);
  }

  lemma {:induction false} PassBefore(s: Shape, q: nat, p: nat)
    requires q < p && ValidBpp(s.bpp)
    ensures var i, n := PassAt(s, q), PassAt(s, p).packed;
            if s.bpp < 8 then 8 * i.packed + Times(i.h, i.bits) <= 8 * n else i.packed + Times(i.h, i.bytes) <= n
  {
    hide PassAt;
    Layout(s, q);
    LayoutMonotone(s, q + 1, p);
  }

  // ----- whole images -------------------------------------------------------------------------

  /** An image that is not interlaced, as one pass. */
  function Plain(s: Shape): (i: Pass)
  {
    Pass(s.h, LineBytes(s.w, s.bpp), Times(s.w, s.bpp), 0, 0, 0)
  }

  function BitGrid(s: Shape): (g: Grid)
    requires ValidBpp(s.bpp)
    ensures ValidGrid(g) && g.start[7] == 8 * PassAt(s, 7).packed && g.u == s.bpp
  {
    var g := Grid(s.w, s.h, s.bpp, seq(8, p requires 0 <= p < 8 => 8 * PassAt(s, p).packed));
    GridIsValid(s, g, 1);
    g
  }

  function ByteGrid(s: Shape): (g: Grid)
    requires ValidBpp(s.bpp) && 8 <= s.bpp
    ensures ValidGrid(g) && g.start[7] == PassAt(s, 7).packed && g.u == s.bpp / 8
  {
    var g := Grid(s.w, s.h, s.bpp / 8, seq(8, p requires 0 <= p < 8 => PassAt(s, p).packed));
    GridIsValid(s, g, 8);
    g
  }

  /** Cells of one or of eight bits: the passes do not overlap. */
  lemma {:induction false} GridIsValid(s: Shape, g: Grid, unit: nat)
    requires ValidBpp(s.bpp) && g.w == s.w && g.h == s.h && |g.start| == 8 && (unit == 1 || unit == 8) && unit * g.u == s.bpp
    requires forall p :: 0 <= p < 8 ==> unit * g.start[p] == 8 * PassAt(s, p).packed
    ensures ValidGrid(g)
  {
    hide PassW, PassH, PassAt;
    forall p | 0 <= p < 7 ensures g.start[p] + PassCells(g, p) <= g.start[p + 1] {
      Layout(s, p);
      PassCellsAre(s, g, p, unit);
    }
  }

  lemma {:induction false} PassCellsAre(s: Shape, g: Grid, p: nat, unit: nat)
    requires g.w == s.w && g.h == s.h && (unit == 1 || unit == 8) && unit * g.u == s.bpp
    ensures unit * PassCells(g, p) == Times(PassAt(s, p).h, PassAt(s, p).bits)
  {
    hide PassW, PassH, LineBytes, FilterStart, PaddedStart, PackedStart;
    var n := Times(PassH(p, s.w, s.h), PassW(p, s.w, s.h));
    TimesTimes(PassH(p, s.w, s.h), PassW(p, s.w, s.h), s.bpp);
    if unit == 8 { TimesEight(n, g.u); }
  }

  /** All passes of the packed image are those of the data. */
  ghost predicate HoldsAll(data: seq<byte>, buf: seq<byte>, s: Shape) {
    PassAt(s, 7).packed <= |buf| && forall p :: 0 <= p < 7 ==> HoldsPass(data, buf, PassAt(s, p), s.bpp)
  }

  /** The scanlines in `data` show the image. */
  ghost predicate Shows(data: seq<byte>, img: seq<byte>, s: Shape, interlaced: bool)
    requires ValidBpp(s.bpp)
  {
    if !interlaced then HoldsPass(data, img, Plain(s), s.bpp)
    else exists buf: seq<byte> :: HoldsAll(data, buf, s) && Unwoven(buf, img, s)
  }

  /** The packed image shows the image. */
  ghost predicate Unwoven(buf: seq<byte>, img: seq<byte>, s: Shape)
    requires ValidBpp(s.bpp)
  {
    if s.bpp < 8 then Agree(MsbBits(buf), MsbBits(img), BitGrid(s)) else Agree(buf, img, ByteGrid(s))
  }

  function ImageBits(s: Shape): (n: nat) { Times(Times(s.h, s.w), s.bpp) }

  /** Two buffers show the same w * h pixels. */
  predicate SameImage(img: seq<byte>, img': seq<byte>, s: Shape) {
    ImageBits(s) <= 8 * |img| && ImageBits(s) <= 8 * |img'| && MsbBits(img)[..ImageBits(s)] == MsbBits(img')[..ImageBits(s)]
  }

  /** Scanlines show one image only. */
  lemma {:induction false} ShowsOne(data: seq<byte>, img: seq<byte>, img': seq<byte>, s: Shape, interlaced: bool)
    requires ValidShape(s) && Shows(data, img, s, interlaced) && Shows(data, img', s, interlaced)
    ensures SameImage(img, img', s)
  {
    hide HoldsPass, HoldsAll, Unwoven, SameImage, PassAt, ValidBpp;
    if interlaced {
      var buf :| HoldsAll(data, buf, s) && Unwoven(buf, img, s);
      var buf' :| HoldsAll(data, buf', s) && Unwoven(buf', img', s);
      if s.bpp < 8 { WovenBits(data, buf, buf', img, img', s); } else { WovenBytes(data, buf, buf', img, img', s); }
    } else {
      PlainOne(data, img, img', s);
    }
  }

  lemma {:induction false} PlainOne(data: seq<byte>, img: seq<byte>, img': seq<byte>, s: Shape)
    requires ValidShape(s) && HoldsPass(data, img, Plain(s), s.bpp) && HoldsPass(data, img', Plain(s), s.bpp)
    ensures SameImage(img, img', s)
  {
    hide GoodKinds, UnfilterRows, Unpadded, PassData, MsbBits;
    TimesTimes(s.h, s.w, s.bpp);
    if s.bpp >= 8 {
      PlainBytes(s);
      var n := Times(s.h, LineBytes(s.w, s.bpp));
      MsbSlice(img, 0, n);
      MsbSlice(img', 0, n);
    } else {
      var n := ImageBits(s);
      assert MsbBits(img)[0..n] == MsbBits(img)[..n] && MsbBits(img')[0..n] == MsbBits(img')[..n];
    }
  }

  lemma {:induction false} PlainBytes(s: Shape)
    requires ValidBpp(s.bpp) && 8 <= s.bpp
    ensures 8 * Times(s.h, LineBytes(s.w, s.bpp)) == ImageBits(s) && 8 * LineBytes(s.w, s.bpp) == Times(s.w, s.bpp)
    ensures LineBytes(s.w, s.bpp) == Times(s.w, s.bpp / 8) && Times(s.h, LineBytes(s.w, s.bpp)) == Times(Times(s.h, s.w), s.bpp / 8)
  {
    var u := s.bpp / 8;
    assert s.bpp == 8 * u;
    TimesEight(s.w, u);
    TimesTimes(s.h, s.w, u);
    TimesTimes(s.h, s.w, s.bpp);
    TimesEight(s.h, Times(s.w, u));
  }

  lemma {:induction false} WovenBits(data: seq<byte>, buf: seq<byte>, buf': seq<byte>, img: seq<byte>, img': seq<byte>, s: Shape)
    requires ValidShape(s) && s.bpp < 8 && HoldsAll(data, buf, s) && HoldsAll(data, buf', s)
    requires Unwoven(buf, img, s) && Unwoven(buf', img', s)
    ensures SameImage(img, img', s)
  {
    hide HoldsPass, PassAt, ValidGrid, MsbBits, PassCells;
    var g := BitGrid(s);
    forall p, k | 0 <= p < 7 && g.start[p] <= k < g.start[p] + PassCells(g, p) && k < 8 * |buf| && k < 8 * |buf'|
      ensures MsbBits(buf)[k] == MsbBits(buf')[k]
    {
      PassCellsAre(s, g, p, 1);
      SameBits(data, buf, buf', PassAt(s, p), s.bpp, k);
    }
    MsbLength(buf);
    MsbLength(buf');
    AgreeUnique(MsbBits(buf), MsbBits(img), MsbBits(buf'), MsbBits(img'), g);
    AgreeSizes(MsbBits(buf), MsbBits(img), g);
    AgreeSizes(MsbBits(buf'), MsbBits(img'), g);
  }

  lemma {:induction false} MsbLength(b: seq<byte>)
    ensures |MsbBits(b)| == 8 * |b|
  {}

  lemma {:induction false} AgreeSizes<T>(packed: seq<T>, img: seq<T>, g: Grid)
    requires ValidGrid(g) && Agree(packed, img, g)
    ensures ImageCells(g) <= |img|
  {}

  lemma {:induction false} SameBits(data: seq<byte>, buf: seq<byte>, buf': seq<byte>, i: Pass, bpp: nat, k: nat)
    requires bpp < 8 && HoldsPass(data, buf, i, bpp) && HoldsPass(data, buf', i, bpp)
    requires 8 * i.packed <= k < 8 * i.packed + Times(i.h, i.bits)
    ensures k < |MsbBits(buf)| && k < |MsbBits(buf')| && MsbBits(buf)[k] == MsbBits(buf')[k]
  {
    hide GoodKinds, UnfilterRows, Unpadded, PassData;
    var a, b := 8 * i.packed, 8 * i.packed + Times(i.h, i.bits);
    assert MsbBits(buf)[k] == MsbBits(buf)[a..b][k - a] && MsbBits(buf')[k] == MsbBits(buf')[a..b][k - a];
  }

  lemma {:induction false} WovenBytes(data: seq<byte>, buf: seq<byte>, buf': seq<byte>, img: seq<byte>, img': seq<byte>, s: Shape)
    requires ValidShape(s) && 8 <= s.bpp && HoldsAll(data, buf, s) && HoldsAll(data, buf', s)
    requires Unwoven(buf, img, s) && Unwoven(buf', img', s)
    ensures SameImage(img, img', s)
  {
    hide HoldsPass, PassAt, ValidGrid, MsbBits, PassCells;
    var g := ByteGrid(s);
    forall p, k | 0 <= p < 7 && g.start[p] <= k < g.start[p] + PassCells(g, p) && k < |buf| && k < |buf'|
      ensures buf[k] == buf'[k]
    {
      PassCellsAre(s, g, p, 8);
      PassBytesAre(s, p);
      SameBytes(data, buf, buf', PassAt(s, p), s.bpp, k);
    }
    AgreeUnique(buf, img, buf', img', g);
    AgreeSizes(buf, img, g);
    AgreeSizes(buf', img', g);
    PlainBytes(s);
    var n := ImageCells(g);
    assert img[0..n] == img[..n] && img'[0..n] == img'[..n];
    MsbSlice(img, 0, n);
    MsbSlice(img', 0, n);
  }

  lemma {:induction false} PassBytesAre(s: Shape, p: nat)
    requires ValidBpp(s.bpp) && 8 <= s.bpp
    ensures Times(PassAt(s, p).h, PassAt(s, p).bits) == 8 * Times(PassAt(s, p).h, PassAt(s, p).bytes)
  {
    hide PassW, PassH, FilterStart, PaddedStart, PackedStart;
    PlainBytes(Shape(PassW(p, s.w, s.h), PassH(p, s.w, s.h), s.bpp));
    TimesEight(PassH(p, s.w, s.h), LineBytes(PassW(p, s.w, s.h), s.bpp));
  }

  lemma {:induction false} SameBytes(data: seq<byte>, buf: seq<byte>, buf': seq<byte>, i: Pass, bpp: nat, k: nat)
    requires 8 <= bpp && HoldsPass(data, buf, i, bpp) && HoldsPass(data, buf', i, bpp)
    requires i.packed <= k < i.packed + Times(i.h, i.bytes)
    ensures k < |buf| && k < |buf'| && buf[k] == buf'[k]
  {
    hide GoodKinds, UnfilterRows, Unpadded, PassData;
    var a, b := i.packed, i.packed + Times(i.h, i.bytes);
    assert buf[k] == buf[a..b][k - a] && buf'[k] == buf'[a..b][k - a];
  }

  // ----- decoding -----------------------------------------------------------------------------

  predicate GoodPass(data: seq<byte>, i: Pass) {
    i.filtered + Times(i.h, i.bytes + 1) <= |data| && GoodKinds(PassData(data, i), i.bytes, i.h)
  }

  /** All filter bytes name a filter. */
  predicate GoodFilters(data: seq<byte>, s: Shape, interlaced: bool) {
    if interlaced then forall p :: 0 <= p < 7 ==> GoodPass(data, PassAt(s, p)) else GoodPass(data, Plain(s))
  }

  /** Bytes of the scanlines. */
  function ScanlineBytes(s: Shape, interlaced: bool): (n: nat)
  {
    if interlaced then PassAt(s, 7).filtered else Times(s.h, LineBytes(s.w, s.bpp) + 1)
  }

  lemma {:induction false} PlainFacts(s: Shape)
    requires ValidShape(s)
    ensures 0 < s.bpp && 0 < ByteWidth(s.bpp) <= LineBytes(s.w, s.bpp) && Times(s.w, s.bpp) <= 8 * LineBytes(s.w, s.bpp)
    ensures Times(s.h, Times(s.w, s.bpp)) == ImageBits(s) && Times(s.h, 8 * LineBytes(s.w, s.bpp)) == 8 * Times(s.h, LineBytes(s.w, s.bpp))
    ensures Times(s.h, LineBytes(s.w, s.bpp)) <= Times(s.h, LineBytes(s.w, s.bpp) + 1)
    ensures 8 <= s.bpp ==> Times(s.w, s.bpp) == 8 * LineBytes(s.w, s.bpp)
  {
    TimesMonotone(1, s.w, s.bpp);
    assert Times(1, s.bpp) == s.bpp;
    TimesTimes(s.h, s.w, s.bpp);
    TimesEight(s.h, LineBytes(s.w, s.bpp));
    TimesLess(s.h, LineBytes(s.w, s.bpp), LineBytes(s.w, s.bpp) + 1);
    if 8 <= s.bpp { PlainBytes(s); }
  }

  /** Decoding without interlacing. When rows have padding, the input buffer is unfiltered in place first. */
  method PostProcessPlain(out: array<byte>, inp: array<byte>, s: Shape) returns (error: nat)
    requires ValidShape(s) && out != inp && ScanlineBytes(s, false) <= inp.Length && ImageBits(s) <= 8 * out.Length
    modifies out, inp
    ensures error == if GoodFilters(old(inp[..]), s, false) then 0 else 36
    ensures error == 0 ==> Shows(old(inp[..]), out[..], s, false)
  {
    hide GoodKinds, UnfilterRows, HoldsRows, Replaced, MsbBits, DropPadding, LineBytes, ValidBpp, ByteWidth;
    PlainFacts(s);
    ghost var data, i := inp[..], Plain(s);
    var linebytes, linebits := LineBytes(s.w, s.bpp), Times(s.w, s.bpp);
    ghost var rows := UnfilterRows(PassData(data, i), linebytes, ByteWidth(s.bpp), s.h);
    assert inp[0..0 + Times(s.h, linebytes + 1)] == PassData(data, i);
    if s.bpp < 8 && linebits != 8 * linebytes {
      error := Unfilter(inp, 0, inp, 0, linebytes, ByteWidth(s.bpp), s.h);
      if error != 0 { return; }
      ReplacedPiece(data, 0, rows);
      ghost var mid := inp[..];
      RemovePaddingBits(out, 0, inp, 0, linebits, 8 * linebytes, s.h);
      RowsMoved(mid, out[..], old(MsbBits(out[..])), rows, i, s.bpp);
    } else {
      FitsPlain(s, out.Length);
      error := Unfilter(out, 0, inp, 0, linebytes, ByteWidth(s.bpp), s.h);
      if error != 0 { return; }
      ReplacedPiece(old(out[..]), 0, rows);
      RowsDirect(out[..], rows, i, s.bpp);
    }
  }

  lemma {:induction false} FitsPlain(s: Shape, n: nat)
    requires ValidShape(s) && ImageBits(s) <= 8 * n && (s.bpp >= 8 || Times(s.w, s.bpp) == 8 * LineBytes(s.w, s.bpp))
    ensures Times(s.h, LineBytes(s.w, s.bpp)) <= n
  {
    hide LineBytes;
    PlainFacts(s);
  }

  /** Removing padding into another buffer. */
  lemma {:induction false} RowsMoved(buf: seq<byte>, img: seq<byte>, before: seq<bool>, rows: seq<byte>, i: Pass, bpp: nat)
    requires |rows| == Times(i.h, i.bytes) && i.bits <= 8 * i.bytes && |rows| <= |buf| && i.packed == 0
    requires bpp < 8 && Times(i.h, i.bits) <= 8 * |img| && Times(i.h, 8 * i.bytes) <= 8 * |buf| && |before| == 8 * |img|
    requires MsbBits(img) == Replaced(before, 0, DropPadding(MsbBits(buf), 0, i.bits, 8 * i.bytes, i.h))
    requires buf[0..0 + |rows|] == rows
    ensures HoldsRows(rows, img, i, bpp)
  {
    hide DropPadding, MsbBits;
    TimesEight(i.h, i.bytes);
    MsbSlice(buf, 0, |rows|);
    var bits := MsbBits(rows);
    assert bits[..Times(i.h, 8 * i.bytes)] == bits;
    DropShift(MsbBits(buf), 0, bits, i.bits, 8 * i.bytes, i.h);
    ReplacedPiece(before, 0, Unpadded(rows, i));
  }

  /** Rows that need no padding. */
  lemma {:induction false} RowsDirect(img: seq<byte>, rows: seq<byte>, i: Pass, bpp: nat)
    requires |rows| == Times(i.h, i.bytes) && i.bits == 8 * i.bytes && i.packed == 0
    requires |rows| <= |img| && img[0..0 + |rows|] == rows
    ensures HoldsRows(rows, img, i, bpp)
  {
    hide DropPadding, MsbBits;
    TimesEight(i.h, i.bytes);
    MsbSlice(img, 0, |rows|);
    DropNothing(MsbBits(rows), i.bits, i.h);
    var bits := MsbBits(rows);
    assert bits[..Times(i.h, i.bits)] == bits;
  }

  /** Decoding an interlaced image: seven passes unfiltered and packed within the input buffer. */
  method PostProcessAdam7(out: array<byte>, inp: array<byte>, s: Shape) returns (error: nat)
    requires ValidShape(s) && out != inp && ScanlineBytes(s, true) <= inp.Length && ImageBits(s) <= 8 * out.Length
    modifies out, inp
    ensures error == if GoodFilters(old(inp[..]), s, true) then 0 else 36
    ensures error == 0 ==> Shows(old(inp[..]), out[..], s, true)
  {
    hide PassAt, Decoded, HoldsPass, GoodPass, BitGrid, ByteGrid, Agree, MsbBits, ImageBits;
    ghost var data := inp[..];
    DecodedNone(data, s);
    var p := 0;
    error := 0;
    while p != 7
      invariant 0 <= p <= 7 && error == 0 && Decoded(data, inp[..], s, p)
      invariant forall q :: 0 <= q < p ==> GoodPass(data, PassAt(s, q))
    {
      ghost var buf := inp[..];
      Layout(s, p);
      LayoutMonotone(s, p + 1, 7);
      LayoutMonotone(s, p, 7);
      PassReady(s, p);
      Intact(data, buf, s, p);
      SameGood(data, buf, PassAt(s, p));
      error := DecodePass(inp, PassAt(s, p), s.bpp);
      if error != 0 { return; }
      DecodedMore(data, buf, inp[..], s, p);
      p := p + 1;
    }
    AllDecoded(data, inp[..], s);
    GridSizes(s);
    if s.bpp < 8 { DeinterlaceBits(out, inp, BitGrid(s)); } else { DeinterlaceBytes(out, inp, ByteGrid(s)); }
    assert HoldsAll(data, inp[..], s) && Unwoven(inp[..], out[..], s);
  }

  lemma {:induction false} DecodedNone(data: seq<byte>, s: Shape)
    requires PassAt(s, 7).filtered <= |data|
    ensures Decoded(data, data, s, 0)
  {
    hide PassAt;
  }

  lemma {:induction false} PassReady(s: Shape, p: nat)
    requires ValidShape(s)
    ensures PassAt(s, p).h > 0 ==> ByteWidth(s.bpp) <= PassAt(s, p).bytes
    ensures 8 <= s.bpp ==> PassAt(s, p).packed == PassAt(s, p).padded
  {
    hide PassAt;
    if PassAt(s, p).h > 0 { RowsHaveBytes(s, p); }
    Layout(s, p);
  }

  lemma {:induction false} Intact(data: seq<byte>, buf: seq<byte>, s: Shape, p: nat)
    requires Decoded(data, buf, s, p)
    ensures |buf| == |data| && PassAt(s, 7).filtered <= |data|
    ensures forall k :: PassAt(s, p).filtered <= k < |buf| ==> buf[k] == data[k]
  {
    hide PassAt, HoldsPass;
  }

  lemma {:induction false} SameGood(data: seq<byte>, buf: seq<byte>, i: Pass)
    requires i.filtered + Times(i.h, i.bytes + 1) <= |buf| == |data| && forall k :: i.filtered <= k < |buf| ==> buf[k] == data[k]
    ensures GoodPass(data, i) == GoodKinds(PassData(buf, i), i.bytes, i.h)
  {
    hide GoodKinds;
    assert PassData(data, i) == PassData(buf, i);
  }

  lemma {:induction false} AllDecoded(data: seq<byte>, buf: seq<byte>, s: Shape)
    requires Decoded(data, buf, s, 7)
    ensures HoldsAll(data, buf, s) && |buf| == |data|
  {
    hide PassAt, HoldsPass;
    Layout(s, 6);
  }

  lemma {:induction false} GridSizes(s: Shape)
    requires ValidShape(s)
    ensures ImageCells(BitGrid(s)) == ImageBits(s)
    ensures 8 <= s.bpp ==> 8 * ImageCells(ByteGrid(s)) == ImageBits(s)
  {
    hide PassAt, ValidGrid;
    if 8 <= s.bpp { TimesEight(Times(s.h, s.w), s.bpp / 8); }
  }

  /** Turns scanlines into an image: 31 for an invalid colour type, 36 for an unknown filter; otherwise
      the image that the scanlines show. The input buffer is overwritten. */
  method PostProcessScanlines(out: array<byte>, inp: array<byte>, w: nat, h: nat, colortype: nat, bitdepth: nat, interlaced: bool) returns (error: nat)
    requires 0 < w && 0 < h && out != inp && (ValidColor(colortype, bitdepth) || BitsPerPixel(colortype, bitdepth) == 0)
    requires var s := Shape(w, h, BitsPerPixel(colortype, bitdepth));
             ScanlineBytes(s, interlaced) <= inp.Length && ImageBits(s) <= 8 * out.Length
    modifies out, inp
    ensures var s := Shape(w, h, BitsPerPixel(colortype, bitdepth));
            && error == (if s.bpp == 0 then 31 else if GoodFilters(old(inp[..]), s, interlaced) then 0 else 36)
            && (error == 0 ==> ValidShape(s) && Shows(old(inp[..]), out[..], s, interlaced))
  {
    hide GoodFilters, Shows, ScanlineBytes, ImageBits, BitsPerPixel, ValidColor, ValidBpp;
    var bpp := BitsPerPixel(colortype, bitdepth);
    if bpp == 0 { return 31; }
    ColorBpp(colortype, bitdepth);
    if !interlaced {
      error := PostProcessPlain(out, inp, Shape(w, h, bpp));
    } else {
      error := PostProcessAdam7(out, inp, Shape(w, h, bpp));
    }
  }

  // ----- encoding -----------------------------------------------------------------------------

  /** Filtered rows name filters that exist. */
  lemma {:induction false} FilteredIsGood(img: seq<byte>, n: nat, bytewidth: nat, kinds: seq<byte>, h: nat, data: seq<byte>)
    requires Times(h, n) <= |img| && 0 < bytewidth && h <= |kinds| && forall y :: 0 <= y < h ==> kinds[y] <= 4
    requires Times(h, n + 1) <= |data| && data[..Times(h, n + 1)] == FilterRows(img, n, bytewidth, kinds, h)
    ensures GoodKinds(data, n, h)
    decreases h
  {
    hide Filtered, RowAbove, FilterRows;
    if h > 0 {
      var t := Times(h - 1, n + 1);
      LastFilteredRow(img, n, bytewidth, kinds, h);
      var all := data[..Times(h, n + 1)];
      assert data[..t] == all[..t];
      FilteredIsGood(img, n, bytewidth, kinds, h - 1, data);
      assert Row(data, n + 1, h - 1) == all[t..];
    }
  }

  /** Rows filtered in any way are read back. */
  lemma {:induction false} EncodedRows(data: seq<byte>, rows: seq<byte>, kinds: seq<byte>, buf: seq<byte>, i: Pass, bpp: nat)
    requires 0 < bpp && |rows| == Times(i.h, i.bytes) && |kinds| == i.h && forall y :: 0 <= y < i.h ==> kinds[y] <= 4
    requires i.filtered + Times(i.h, i.bytes + 1) <= |data|
    requires PassData(data, i) == FilterRows(rows, i.bytes, ByteWidth(bpp), kinds, i.h)
    requires HoldsRows(rows, buf, i, bpp)
    ensures HoldsPass(data, buf, i, bpp)
  {
    hide GoodKinds, UnfilterRows, FilterRows, HoldsRows;
    var d := PassData(data, i);
    assert d[..Times(i.h, i.bytes + 1)] == d && rows[..Times(i.h, i.bytes)] == rows;
    FilteredIsGood(rows, i.bytes, ByteWidth(bpp), kinds, i.h, d);
    UnfilterFilteredRows(rows, i.bytes, ByteWidth(bpp), kinds, i.h);
  }

  /** Padded rows hold the bits they were made from. */
  lemma {:induction false} PaddedHolds(padded: seq<byte>, buf: seq<byte>, i: Pass, bpp: nat)
    requires bpp < 8 && |padded| == Times(i.h, i.bytes) && i.bits <= 8 * i.bytes && 8 * i.packed + Times(i.h, i.bits) <= 8 * |buf|
    requires MsbBits(padded) == PutPadding(MsbBits(buf), 8 * i.packed, 8 * i.bytes, i.bits, i.h)
    ensures HoldsRows(padded, buf, i, bpp)
  {
    hide DropPadding, PutPadding, MsbBits;
    TimesEight(i.h, i.bytes);
    var bits := MsbBits(padded);
    assert bits[0..0 + Times(i.h, 8 * i.bytes)] == bits;
    DropPutPadding(MsbBits(buf), 8 * i.packed, 8 * i.bytes, i.bits, i.h, bits, 0);
  }

  // ----- which filters ------------------------------------------------------------------------

  /** The rows of a pass, each filled up with zeros to whole bytes. */
  ghost predicate PaddedRows(rows: seq<byte>, buf: seq<byte>, i: Pass) {
    && |rows| == Times(i.h, i.bytes) && i.bits <= 8 * i.bytes && 8 * i.packed + Times(i.h, i.bits) <= 8 * |buf|
    && MsbBits(rows) == PutPadding(MsbBits(buf), 8 * i.packed, 8 * i.bytes, i.bits, i.h)
  }

  /** The data are the padded rows of the pass, filtered with the kinds given. */
  ghost predicate FilteredWith(data: seq<byte>, buf: seq<byte>, i: Pass, bpp: nat, t: Strategy, rows: seq<byte>, kinds: seq<byte>) {
    && 0 < bpp && i.filtered + Times(i.h, i.bytes + 1) <= |data| && PaddedRows(rows, buf, i)
    && ByStrategy(t, rows, i.bytes, ByteWidth(bpp), kinds, i.h)
    && PassData(data, i) == FilterRows(rows, i.bytes, ByteWidth(bpp), kinds, i.h)
  }

  ghost predicate FilteredPass(data: seq<byte>, buf: seq<byte>, i: Pass, bpp: nat, t: Strategy) {
    exists rows: seq<byte>, kinds: seq<byte> :: FilteredWith(data, buf, i, bpp, t, rows, kinds)
  }

  /** The scanlines are the image, interlaced or not, with its rows padded with zeros and filtered as the strategy asks. */
  ghost predicate FilteredImage(data: seq<byte>, img: seq<byte>, s: Shape, interlaced: bool, t: Strategy)
    requires ValidBpp(s.bpp)
  {
    if !interlaced then FilteredPass(data, img, Plain(s), s.bpp, t)
    else exists buf: seq<byte> :: Unwoven(buf, img, s) && forall p :: 0 <= p < 7 ==> FilteredPass(data, buf, PassAt(s, p), s.bpp, t)
  }

  /** With a palette or pixels of less than a byte the rows can be left unfiltered, whatever the strategy. */
  function Effective(paletteZero: bool, colortype: nat, bitdepth: nat, t: Strategy): (r: Strategy)
  {
    if paletteZero && (colortype == 3 || bitdepth < 8) then Fixed(0) else t
  }

  /** With one filter for all rows, every row of the scanlines names that filter. */
  lemma {:induction false} RowsNamed(data: seq<byte>, img: seq<byte>, s: Shape, k: byte, y: nat)
    requires ValidBpp(s.bpp) && FilteredImage(data, img, s, false, Fixed(k)) && y < s.h
    ensures var n := LineBytes(s.w, s.bpp) + 1; Times(y, n) < |data| && data[Times(y, n)] == k
  {
    hide FilterRows, LineBytes, MsbBits, PutPadding;
    var i := Plain(s);
    var rows, kinds :| FilteredWith(data, img, i, s.bpp, Fixed(k), rows, kinds);
    RowNamed(rows, i.bytes, ByteWidth(s.bpp), kinds, s.h, y);
    TimesNext(y, s.h, i.bytes + 1);
    assert PassData(data, i)[Times(y, i.bytes + 1)] == data[Times(y, i.bytes + 1)];
  }

  lemma {:induction false} PutNothing(bits: seq<bool>, s: nat, n: nat, h: nat)
    requires s + Times(h, n) <= |bits|
    ensures PutPadding(bits, s, n, n, h) == bits[s..s + Times(h, n)]
    decreases h
  {
    if h > 0 { PutNothing(bits, s, n, h - 1); }
  }

  /** Rows of whole bytes are padded as they are. */
  lemma {:induction false} WholeRows(buf: seq<byte>, i: Pass)
    requires i.bits == 8 * i.bytes && i.packed + Times(i.h, i.bytes) <= |buf|
    ensures PaddedRows(buf[i.packed..i.packed + Times(i.h, i.bytes)], buf, i)
  {
    hide PutPadding, MsbBits;
    TimesEight(i.h, i.bytes);
    MsbSlice(buf, i.packed, i.packed + Times(i.h, i.bytes));
    PutNothing(MsbBits(buf), 8 * i.packed, i.bits, i.h);
  }

  lemma {:induction false} PaddedAre(rows: seq<byte>, buf: seq<byte>, i: Pass)
    requires |rows| == Times(i.h, i.bytes) && i.bits <= 8 * i.bytes && 8 * i.packed + Times(i.h, i.bits) <= 8 * |buf|
    requires MsbBits(rows) == PutPadding(MsbBits(buf), 8 * i.packed, 8 * i.bytes, i.bits, i.h)
    ensures PaddedRows(rows, buf, i)
  {}

  lemma {:induction false} FilteredAre(data: seq<byte>, buf: seq<byte>, i: Pass, bpp: nat, t: Strategy, rows: seq<byte>, kinds: seq<byte>)
    requires 0 < bpp && i.filtered + Times(i.h, i.bytes + 1) <= |data| && |rows| == Times(i.h, i.bytes) && PaddedRows(rows, buf, i)
    requires ByStrategy(t, rows, i.bytes, ByteWidth(bpp), kinds, i.h) && i.h <= |kinds|
    requires PassData(data, i) == FilterRows(rows, i.bytes, ByteWidth(bpp), kinds, i.h)
    ensures FilteredWith(data, buf, i, bpp, t, rows, kinds)
  {
    hide PaddedRows, ByStrategy, FilterRows;
  }

  /** Pads and filters a pass of the packed image. */
  method EncodePass(out: array<byte>, buf: array<byte>, i: Pass, bpp: nat, t: Strategy)
    requires ValidBpp(bpp) && (i.h > 0 ==> ByteWidth(bpp) <= i.bytes) && out != buf && ValidStrategy(t, i.h)
    requires i.filtered + Times(i.h, i.bytes + 1) <= out.Length && 8 * i.packed + Times(i.h, i.bits) <= 8 * buf.Length
    requires i.bits <= 8 * i.bytes && (8 <= bpp ==> i.packed == i.padded && i.bits == 8 * i.bytes)
    modifies out
    ensures HoldsPass(out[..], buf[..], i, bpp) && FilteredPass(out[..], buf[..], i, bpp, t)
    ensures forall k :: 0 <= k < out.Length && (k < i.filtered || i.filtered + Times(i.h, i.bytes + 1) <= k) ==> out[k] == old(out[k])
  {
    hide GoodKinds, UnfilterRows, FilterRows, HoldsRows, HoldsPass, Replaced, MsbBits, PutPadding, BestRows, PaddedRows, FilteredWith, ByStrategy;
    TimesEight(i.h, i.bytes);
    ghost var before := out[..];
    var rows: seq<byte>;
    if bpp < 8 {
      var padded := new byte[Times(i.h, i.bytes)];
      ghost var blank := MsbBits(padded[..]);
      AddPaddingBits(padded, buf, i.packed, 8 * i.bytes, i.bits, i.h);
      ReplacedAll(blank, PutPadding(MsbBits(buf[..]), 8 * i.packed, 8 * i.bytes, i.bits, i.h));
      rows := padded[..];
      PaddedHolds(rows, buf[..], i, bpp);
      PaddedAre(rows, buf[..], i);
    } else {
      rows := buf[i.padded..i.padded + Times(i.h, i.bytes)];
      BytesHold(buf[..], i, bpp);
      WholeRows(buf[..], i);
    }
    ghost var kinds := FilterWith(out, i.filtered, rows, i.bytes, ByteWidth(bpp), i.h, t);
    StrategyKinds(t, rows, i.bytes, ByteWidth(bpp), kinds, i.h);
    ghost var data := FilterRows(rows, i.bytes, ByteWidth(bpp), kinds, i.h);
    ReplacedPiece(before, i.filtered, data);
    ReplacedElsewhere(before, i.filtered, data);
    EncodedRows(out[..], rows, kinds, buf[..], i, bpp);
    FilteredAre(out[..], buf[..], i, bpp, t, rows, kinds);
  }

  lemma {:induction false} StrategyKinds(t: Strategy, img: seq<byte>, n: nat, bytewidth: nat, kinds: seq<byte>, h: nat)
    requires Times(h, n) <= |img| && 0 < bytewidth && ByStrategy(t, img, n, bytewidth, kinds, h)
    ensures |kinds| == h && forall y :: 0 <= y < h ==> kinds[y] <= 4
  {}

  lemma {:induction false} ReplacedAll<T>(before: seq<T>, x: seq<T>)
    requires |x| == |before|
    ensures Replaced(before, 0, x) == x
  {}

  lemma {:induction false} BytesHold(buf: seq<byte>, i: Pass, bpp: nat)
    requires 8 <= bpp && i.packed == i.padded && i.padded + Times(i.h, i.bytes) <= |buf| && i.bits <= 8 * i.bytes
    ensures HoldsRows(buf[i.padded..i.padded + Times(i.h, i.bytes)], buf, i, bpp)
  {
    hide Unpadded;
  }

  /** Encoding without interlacing. */
  method PreProcessPlain(img: array<byte>, s: Shape, t: Strategy) returns (out: array<byte>)
    requires ValidShape(s) && ImageBits(s) <= 8 * img.Length && ValidStrategy(t, s.h)
    ensures fresh(out) && out.Length == ScanlineBytes(s, false) && Shows(out[..], img[..], s, false)
    ensures FilteredImage(out[..], img[..], s, false, t)
  {
    hide HoldsPass, HoldsRows, FilterRows, Replaced, LineBytes, ValidBpp, ByteWidth, MsbBits, PaddedRows, FilteredWith, ByStrategy;
    PlainFacts(s);
    ghost var i := Plain(s);
    var linebytes, linebits := LineBytes(s.w, s.bpp), Times(s.w, s.bpp);
    out := new byte[Times(s.h, linebytes + 1)];
    if s.bpp < 8 && linebits != 8 * linebytes {
      EncodePass(out, img, Plain(s), s.bpp, t);
    } else {
      FitsPlain(s, img.Length);
      var rows := img[0..0 + Times(s.h, linebytes)];
      RowsDirect(img[..], rows, i, s.bpp);
      ghost var blank := out[..];
      ghost var kinds := FilterWith(out, 0, rows, linebytes, ByteWidth(s.bpp), s.h, t);
      StrategyKinds(t, rows, linebytes, ByteWidth(s.bpp), kinds, s.h);
      ReplacedAll(blank, FilterRows(rows, linebytes, ByteWidth(s.bpp), kinds, s.h));
      EncodedRows(out[..], rows, kinds, img[..], i, s.bpp);
      WholeRows(img[..], i);
      FilteredAre(out[..], img[..], i, s.bpp, t, rows, kinds);
    }
  }

  /** The passes before p have been encoded. */
  ghost predicate Encoded(data: seq<byte>, buf: seq<byte>, s: Shape, p: nat, t: Strategy) {
    forall q :: 0 <= q < p ==> HoldsPass(data, buf, PassAt(s, q), s.bpp) && FilteredPass(data, buf, PassAt(s, q), s.bpp, t)
  }

  lemma {:induction false} EncodedMore(data: seq<byte>, data': seq<byte>, buf: seq<byte>, s: Shape, p: nat, t: Strategy)
    requires Encoded(data, buf, s, p, t) && HoldsPass(data', buf, PassAt(s, p), s.bpp) && FilteredPass(data', buf, PassAt(s, p), s.bpp, t)
    requires |data'| == |data| && forall k :: 0 <= k < PassAt(s, p).filtered && k < |data| ==> data'[k] == data[k]
    ensures Encoded(data', buf, s, p + 1, t)
  {
    hide PassAt, HoldsPass, FilteredPass;
    forall q | 0 <= q < p ensures HoldsPass(data', buf, PassAt(s, q), s.bpp) && FilteredPass(data', buf, PassAt(s, q), s.bpp, t) {
      Layout(s, q);
      LayoutMonotone(s, q + 1, p);
      DataKept(data, data', buf, PassAt(s, q), s.bpp);
      FilteredKept(data, data', buf, PassAt(s, q), s.bpp, t);
    }
  }

  lemma {:induction false} FilteredKept(data: seq<byte>, data': seq<byte>, buf: seq<byte>, i: Pass, bpp: nat, t: Strategy)
    requires FilteredPass(data, buf, i, bpp, t) && |data'| == |data|
    requires forall k :: 0 <= k < i.filtered + Times(i.h, i.bytes + 1) && k < |data| ==> data'[k] == data[k]
    ensures FilteredPass(data', buf, i, bpp, t)
  {
    hide PaddedRows, FilterRows, ByStrategy;
    var rows, kinds :| FilteredWith(data, buf, i, bpp, t, rows, kinds);
    assert PassData(data', i) == PassData(data, i);
    assert FilteredWith(data', buf, i, bpp, t, rows, kinds);
  }

  lemma {:induction false} DataKept(data: seq<byte>, data': seq<byte>, buf: seq<byte>, i: Pass, bpp: nat)
    requires HoldsPass(data, buf, i, bpp) && |data'| == |data|
    requires forall k :: 0 <= k < i.filtered + Times(i.h, i.bytes + 1) && k < |data| ==> data'[k] == data[k]
    ensures HoldsPass(data', buf, i, bpp)
  {
    hide GoodKinds, UnfilterRows, HoldsRows;
    assert PassData(data', i) == PassData(data, i);
  }

  /** Encoding an interlaced image. */
  method PreProcessAdam7(img: array<byte>, s: Shape, t: Strategy) returns (out: array<byte>)
    requires ValidShape(s) && ImageBits(s) <= 8 * img.Length && ValidStrategy(t, s.h)
    ensures fresh(out) && out.Length == ScanlineBytes(s, true) && Shows(out[..], img[..], s, true)
    ensures FilteredImage(out[..], img[..], s, true, t)
  {
    hide PassAt, HoldsPass, FilteredPass, Encoded, BitGrid, ByteGrid, Agree, MsbBits, ImageBits, ValidStrategy;
    out := new byte[PassAt(s, 7).filtered];
    var adam7 := new byte[PassAt(s, 7).packed];
    GridSizes(s);
    if s.bpp < 8 { InterlaceBits(adam7, img, BitGrid(s)); } else { InterlaceBytes(adam7, img, ByteGrid(s)); }
    ghost var image := img[..];
    assert Unwoven(adam7[..], image, s);
    ghost var packed := adam7[..];
    NothingEncoded(out[..], packed, s, t);
    var p := 0;
    while p != 7
      invariant 0 <= p <= 7 && Encoded(out[..], packed, s, p, t) && adam7[..] == packed
    {
      ghost var data := out[..];
      Layout(s, p);
      LayoutMonotone(s, p + 1, 7);
      PassReady(s, p);
      PassFull(s, p);
      PassLower(s, p, t);
      EncodePass(out, adam7, PassAt(s, p), s.bpp, t);
      EncodedMore(data, out[..], packed, s, p, t);
      p := p + 1;
    }
    EncodedAll(out[..], packed, s, t);
    assert HoldsAll(out[..], packed, s) && Unwoven(packed, image, s);
  }

  lemma {:induction false} NothingEncoded(data: seq<byte>, buf: seq<byte>, s: Shape, t: Strategy)
    ensures Encoded(data, buf, s, 0, t)
  {}

  lemma {:induction false} EncodedAll(data: seq<byte>, buf: seq<byte>, s: Shape, t: Strategy)
    requires Encoded(data, buf, s, 7, t) && PassAt(s, 7).packed <= |buf|
    ensures HoldsAll(data, buf, s) && forall p :: 0 <= p < 7 ==> FilteredPass(data, buf, PassAt(s, p), s.bpp, t)
  {
    hide PassAt, HoldsPass, FilteredPass;
  }

  lemma {:induction false} PassFull(s: Shape, p: nat)
    requires ValidBpp(s.bpp)
    ensures 8 <= s.bpp ==> PassAt(s, p).bits == 8 * PassAt(s, p).bytes
  {
    hide PassW, PassH, FilterStart, PaddedStart, PackedStart;
    if 8 <= s.bpp { PlainBytes(Shape(PassW(p, s.w, s.h), PassH(p, s.w, s.h), s.bpp)); }
  }

  lemma {:induction false} PassLower(s: Shape, p: nat, t: Strategy)
    requires ValidStrategy(t, s.h) && p < 7
    ensures ValidStrategy(t, PassAt(s, p).h)
  {
    hide ValidStrategy, FilterStart, PaddedStart, PackedStart, LineBytes;
    Shorter(t, PassAt(s, p).h, s.h);
  }

  lemma {:induction false} Unfiltered(h: nat)
    ensures ValidStrategy(Fixed(0), h)
  {}

  /** Turns an image into scanlines that show it, filtered as the strategy asks; `paletteZero` leaves rows of palettes and of pixels
      of less than a byte unfiltered. */
  method PreProcessScanlines(img: array<byte>, w: nat, h: nat, colortype: nat, bitdepth: nat, interlaced: bool, paletteZero: bool, t: Strategy)
    returns (out: array<byte>)
    requires 0 < w && 0 < h && ValidColor(colortype, bitdepth) && ValidStrategy(t, h)
    requires ImageBits(Shape(w, h, BitsPerPixel(colortype, bitdepth))) <= 8 * img.Length
    ensures var s := Shape(w, h, BitsPerPixel(colortype, bitdepth));
            && ValidShape(s) && fresh(out) && out.Length == ScanlineBytes(s, interlaced) && Shows(out[..], img[..], s, interlaced)
            && FilteredImage(out[..], img[..], s, interlaced, Effective(paletteZero, colortype, bitdepth, t))
  {
    hide Shows, FilteredImage, ScanlineBytes, ImageBits, BitsPerPixel, ValidColor, ValidBpp, ValidStrategy;
    ColorBpp(colortype, bitdepth);
    var s := Shape(w, h, BitsPerPixel(colortype, bitdepth));
    var strategy := t;
    if paletteZero && (colortype == 3 || bitdepth < 8) { strategy := Fixed(0); }
    Unfiltered(h);
    if !interlaced {
      out := PreProcessPlain(img, s, strategy);
    } else {
      out := PreProcessAdam7(img, s, strategy);
    }
  }

  // ----- round trip ---------------------------------------------------------------------------

  /** Scanlines that show an image have good filters only: decoding them succeeds. */
  lemma {:induction false} ShownIsGood(data: seq<byte>, img: seq<byte>, s: Shape, interlaced: bool)
    requires ValidBpp(s.bpp) && Shows(data, img, s, interlaced)
    ensures GoodFilters(data, s, interlaced)
  {
    hide PassAt, GoodKinds, HoldsRows, Unwoven;
  }

  /** Encoding an image and decoding the scanlines gives back all of its pixels, for every size, every
      colour type and depth, with and without interlacing, and for every choice of filters. */
  method RoundTrip(img: array<byte>, w: nat, h: nat, colortype: nat, bitdepth: nat, interlaced: bool, paletteZero: bool, t: Strategy)
    returns (error: nat, out: array<byte>)
    requires 0 < w && 0 < h && ValidColor(colortype, bitdepth) && ValidStrategy(t, h)
    requires ImageBits(Shape(w, h, BitsPerPixel(colortype, bitdepth))) <= 8 * img.Length
    ensures error == 0 && SameImage(img[..], out[..], Shape(w, h, BitsPerPixel(colortype, bitdepth)))
  {
    hide Shows, GoodFilters, ScanlineBytes, ImageBits, BitsPerPixel, ValidColor, ValidBpp, ValidStrategy, SameImage;
    ghost var s := Shape(w, h, BitsPerPixel(colortype, bitdepth));
    var data := PreProcessScanlines(img, w, h, colortype, bitdepth, interlaced, paletteZero, t);
    ghost var scanlines := data[..];
    ShownIsGood(scanlines, img[..], s, interlaced);
    ColorBpp(colortype, bitdepth);
    out := new byte[img.Length];
    error := PostProcessScanlines(out, data, w, h, colortype, bitdepth, interlaced);
    ShowsOne(scanlines, img[..], out[..], s, interlaced);
  }
}
