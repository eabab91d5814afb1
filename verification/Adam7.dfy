/** Adam7 interlacing (PNG, second edition, section 8): seven reduced images that partition an image. */
module Adam7 {
  import opened Bits
  import opened Buffers
  import opened Bitmap

  // ----- passes -------------------------------------------------------------------------------

  function StartX(p: nat): (r: nat) { if p == 1 then 4 else if p == 3 then 2 else if p == 5 then 1 else 0 }
  function StartY(p: nat): (r: nat) { if p == 2 then 4 else if p == 4 then 2 else if p == 6 then 1 else 0 }
  function DeltaX(p: nat): (r: nat) { if p < 2 then 8 else if p < 4 then 4 else if p < 6 then 2 else 1 }
  function DeltaY(p: nat): (r: nat) { if p < 3 then 8 else if p < 5 then 4 else 2 }

  /** x * d, for a step d */
  function Scale(x: nat, d: nat): (r: nat) { if d == 8 then 8 * x else if d == 4 then 4 * x else if d == 2 then 2 * x else x }

  /** x / d, for a step d */
  function Unscale(x: nat, d: nat): (r: nat) { if d == 8 then x / 8 else if d == 4 then x / 4 else if d == 2 then x / 2 else x }

  function Columns(p: nat, w: nat): (r: nat) { Unscale(w + DeltaX(p) - StartX(p) - 1, DeltaX(p)) }
  function Lines(p: nat, h: nat): (r: nat) { Unscale(h + DeltaY(p) - StartY(p) - 1, DeltaY(p)) }

  /** Width and height of a reduced image; an image without columns has no rows, and the other way round. */
  function PassW(p: nat, w: nat, h: nat): (r: nat) { if Lines(p, h) == 0 then 0 else Columns(p, w) }
  function PassH(p: nat, w: nat, h: nat): (r: nat) { if Columns(p, w) == 0 then 0 else Lines(p, h) }

  /** Where pixel (x, y) of a reduced image lies in the image. */
  function ImageX(p: nat, x: nat): (r: nat) { StartX(p) + Scale(x, DeltaX(p)) }
  function ImageY(p: nat, y: nat): (r: nat) { StartY(p) + Scale(y, DeltaY(p)) }

  /** The pass that holds a pixel of the image, and its place there. */
  function PassOf(x: nat, y: nat): (p: nat)
    ensures p < 7
  {
    if y % 2 == 1 then 6
    else if x % 2 == 1 then 5
    else if y % 4 == 2 then 4
    else if x % 4 == 2 then 3
    else if y % 8 == 4 then 2
    else if x % 8 == 4 then 1
    else 0
  }

  function ReducedX(x: nat, y: nat): (r: nat) { Unscale(x, DeltaX(PassOf(x, y))) }
  function ReducedY(x: nat, y: nat): (r: nat) { Unscale(y, DeltaY(PassOf(x, y))) }

  /** Every pixel lies in a pass ... */
  lemma {:induction false} Covered(w: nat, h: nat, x: nat, y: nat)
    requires x < w && y < h
    ensures var p := PassOf(x, y);
            && ReducedX(x, y) < PassW(p, w, h) && ReducedY(x, y) < PassH(p, w, h)
            && ImageX(p, ReducedX(x, y)) == x && ImageY(p, ReducedY(x, y)) == y
  {
    var p := PassOf(x, y);
    Residue(x, y);
    Exact(x, DeltaX(p), StartX(p));
    Exact(y, DeltaY(p), StartY(p));
    InColumns(p, w, ReducedX(x, y));
    InLines(p, h, ReducedY(x, y));
  }

  lemma {:induction false} Residue(x: nat, y: nat)
    ensures var p := PassOf(x, y);
            x % DeltaX(p) == StartX(p) && y % DeltaY(p) == StartY(p)
  {
    Halves(x);
    Halves(y);
  }

  lemma {:induction false} Halves(x: nat)
    ensures x % 2 == 0 ==> x % 4 == 0 || x % 4 == 2
    ensures x % 4 == 0 ==> x % 8 == 0 || x % 8 == 4
    ensures x % 8 == 0 ==> x % 4 == 0
    ensures x % 4 == 0 ==> x % 2 == 0
  {
    assert x == 8 * (x / 8) + x % 8;
  }

  lemma {:induction false} Exact(x: nat, d: nat, r: nat)
    requires d in {1, 2, 4, 8} && x % d == r
    ensures r + Scale(Unscale(x, d), d) == x
  {}

  lemma {:induction false} InColumns(p: nat, w: nat, x: nat)
    requires p < 7
    ensures x < Columns(p, w) <==> ImageX(p, x) < w
  {}

  lemma {:induction false} InLines(p: nat, h: nat, y: nat)
    requires p < 7
    ensures y < Lines(p, h) <==> ImageY(p, y) < h
  {}

  /** ... in that one only, at one place only, and every place of a pass is a pixel. */
  lemma {:induction false} Unique(w: nat, h: nat, p: nat, x: nat, y: nat)
    requires p < 7 && x < PassW(p, w, h) && y < PassH(p, w, h)
    ensures var x', y' := ImageX(p, x), ImageY(p, y);
            && x' < w && y' < h && PassOf(x', y') == p && ReducedX(x', y') == x && ReducedY(x', y') == y
  {
    UniqueX(p, x, y);
  }

  lemma {:induction false} UniqueX(p: nat, x: nat, y: nat)
    requires p < 7
    ensures PassOf(ImageX(p, x), ImageY(p, y)) == p
  {
    if p < 2 { UniqueFirst(p, x, y); } else if p < 4 { UniqueMiddle(p, x, y); } else { UniqueLast(p, x, y); }
  }

  /** Remainders of multiples. */
  lemma {:induction false} Mod2(q: nat, r: nat)
    requires r < 2
    ensures (r + 2 * q) % 2 == r
  {}

  lemma {:induction false} Mod4(q: nat, r: nat)
    requires r < 4
    ensures (r + 4 * q) % 4 == r
  {}

  lemma {:induction false} Mod8(q: nat, r: nat)
    requires r < 8
    ensures (r + 8 * q) % 8 == r
  {}

  lemma {:induction false} Twos(z: nat)
    ensures (2 * z) % 2 == 0 && (1 + 2 * z) % 2 == 1
  {
    Mod2(z, 0);
    Mod2(z, 1);
  }

  lemma {:induction false} Fours(z: nat)
    ensures (4 * z) % 4 == 0 && (4 * z) % 2 == 0 && (2 + 4 * z) % 4 == 2 && (2 + 4 * z) % 2 == 0
  {
    Mod4(z, 0);
    Mod4(z, 2);
    Mod2(2 * z, 0);
    Mod2(2 * z + 1, 0);
  }

  lemma {:induction false} Eights(z: nat)
    ensures (8 * z) % 8 == 0 && (8 * z) % 4 == 0 && (8 * z) % 2 == 0
    ensures (4 + 8 * z) % 8 == 4 && (4 + 8 * z) % 4 == 0 && (4 + 8 * z) % 2 == 0
  {
    Mod8(z, 0);
    Mod8(z, 4);
    Mod4(2 * z, 0);
    Mod4(2 * z + 1, 0);
    Mod2(4 * z, 0);
    Mod2(4 * z + 2, 0);
  }

  lemma {:induction false} UniqueFirst(p: nat, x: nat, y: nat)
    requires p < 2
    ensures PassOf(ImageX(p, x), ImageY(p, y)) == p
  {
    Eights(x);
    Eights(y);
    assert ImageY(p, y) == 8 * y;
    if p == 0 { assert ImageX(p, x) == 8 * x; } else { assert ImageX(p, x) == 4 + 8 * x; }
  }

  lemma {:induction false} UniqueMiddle(p: nat, x: nat, y: nat)
    requires 2 <= p < 4
    ensures PassOf(ImageX(p, x), ImageY(p, y)) == p
  {
    Fours(x);
    if p == 2 {
      Eights(y);
      assert ImageX(p, x) == 4 * x && ImageY(p, y) == 4 + 8 * y;
    } else {
      Fours(y);
      assert ImageX(p, x) == 2 + 4 * x && ImageY(p, y) == 4 * y;
    }
  }

  lemma {:induction false} UniqueLast(p: nat, x: nat, y: nat)
    requires 4 <= p < 7
    ensures PassOf(ImageX(p, x), ImageY(p, y)) == p
  {
    Twos(x);
    if p == 4 {
      Fours(y);
      assert ImageX(p, x) == 2 * x && ImageY(p, y) == 2 + 4 * y;
    } else {
      Twos(y);
      if p == 5 { assert ImageX(p, x) == 1 + 2 * x && ImageY(p, y) == 2 * y; } else { assert ImageY(p, y) == 1 + 2 * y; }
    }
  }

  // ----- cells --------------------------------------------------------------------------------

  /** An image of w * h pixels of u cells each (bits or bytes), and where each pass starts when the
      reduced images are stored one behind the other. */
  datatype Grid = Grid(w: nat, h: nat, u: nat, start: seq<nat>)

  function PassCells(g: Grid, p: nat): (n: nat)
  {
    Times(Times(PassH(p, g.w, g.h), PassW(p, g.w, g.h)), g.u)
  }

  predicate ValidGrid(g: Grid) {
    |g.start| == 8 && 0 < g.u && forall p :: 0 <= p < 7 ==> g.start[p] + PassCells(g, p) <= g.start[p + 1]
  }

  function ImageCells(g: Grid): (n: nat) { Times(Times(g.h, g.w), g.u) }

  predicate In(g: Grid, x: nat, y: nat, c: nat) { x < g.w && y < g.h && c < g.u }

  predicate InPass(g: Grid, p: nat, x: nat, y: nat, c: nat) {
    p < 7 && x < PassW(p, g.w, g.h) && y < PassH(p, g.w, g.h) && c < g.u
  }

  function ImageCell(g: Grid, x: nat, y: nat, c: nat): (k: nat) { Times(Times(y, g.w) + x, g.u) + c }

  function PackedCell(g: Grid, p: nat, x: nat, y: nat, c: nat): (k: nat)
    requires ValidGrid(g) && p < 7
  {
    g.start[p] + Times(Times(y, PassW(p, g.w, g.h)) + x, g.u) + c
  }

  /** Where cell c of pixel (x, y) is stored. */
  function PackedOf(g: Grid, x: nat, y: nat, c: nat): (k: nat)
    requires ValidGrid(g)
  {
    PackedCell(g, PassOf(x, y), ReducedX(x, y), ReducedY(x, y), c)
  }

  /** A cell of a table of n rows. */
  lemma {:induction false} CellBound(n: nat, w: nat, u: nat, x: nat, y: nat, c: nat)
    requires x < w && y < n && c < u
    ensures Times(Times(y, w) + x, u) + c < Times(Times(n, w), u)
  {
    TimesNext(y, n, w);
    TimesNext(Times(y, w) + x, Times(n, w), u);
  }

  lemma {:induction false} CellUnique(w: nat, u: nat, x: nat, y: nat, c: nat, x': nat, y': nat, c': nat)
    requires x < w && x' < w && c < u && c' < u && Times(Times(y, w) + x, u) + c == Times(Times(y', w) + x', u) + c'
    ensures x == x' && y == y' && c == c'
  {
    TimesUnique(Times(y, w) + x, c, Times(y', w) + x', c', u);
    TimesUnique(y, x, y', x', w);
  }

  lemma {:induction false} StartMonotone(g: Grid, p: nat, q: nat)
    requires ValidGrid(g) && p <= q <= 7
    ensures g.start[p] <= g.start[q]
    decreases q
  {
    if p < q {
      StartMonotone(g, p, q - 1);
      assert g.start[q - 1] + PassCells(g, q - 1) <= g.start[q - 1 + 1];
    }
  }

  /** The cells of a pass lie between its start and the start of the next. */
  lemma {:induction false} PackedBound(g: Grid, p: nat, x: nat, y: nat, c: nat)
    requires ValidGrid(g) && InPass(g, p, x, y, c)
    ensures g.start[p] <= PackedCell(g, p, x, y, c) < g.start[p] + PassCells(g, p) <= g.start[p + 1] <= g.start[7]
  {
    CellBound(PassH(p, g.w, g.h), PassW(p, g.w, g.h), g.u, x, y, c);
    StartMonotone(g, p + 1, 7);
  }

  lemma {:induction false} PackedUnique(g: Grid, p: nat, x: nat, y: nat, c: nat, p': nat, x': nat, y': nat, c': nat)
    requires ValidGrid(g) && InPass(g, p, x, y, c) && InPass(g, p', x', y', c')
    requires PackedCell(g, p, x, y, c) == PackedCell(g, p', x', y', c')
    ensures p == p' && x == x' && y == y' && c == c'
  {
    hide PassCells, ValidGrid, PassW, PassH;
    PackedBound(g, p, x, y, c);
    PackedBound(g, p', x', y', c');
    if p < p' { StartMonotone(g, p + 1, p'); }
    if p' < p { StartMonotone(g, p' + 1, p); }
    CellUnique(PassW(p, g.w, g.h), g.u, x, y, c, x', y', c');
  }

  /** Place (p, x, y) of the packed image is pixel (ImageX, ImageY). */
  lemma {:induction false} PlaceIs(g: Grid, p: nat, x: nat, y: nat, c: nat)
    requires ValidGrid(g) && InPass(g, p, x, y, c)
    ensures In(g, ImageX(p, x), ImageY(p, y), c) && PackedOf(g, ImageX(p, x), ImageY(p, y), c) == PackedCell(g, p, x, y, c)
  {
    hide PassCells, ValidGrid;
    Unique(g.w, g.h, p, x, y);
  }

  lemma {:induction false} PixelIs(g: Grid, x: nat, y: nat, c: nat)
    requires ValidGrid(g) && In(g, x, y, c)
    ensures InPass(g, PassOf(x, y), ReducedX(x, y), ReducedY(x, y), c)
    ensures PackedOf(g, x, y, c) < g.start[7] && ImageCell(g, x, y, c) < ImageCells(g)
  {
    hide PassOf, ReducedX, ReducedY, ImageX, ImageY, PassCells, ValidGrid;
    Covered(g.w, g.h, x, y);
    PackedBound(g, PassOf(x, y), ReducedX(x, y), ReducedY(x, y), c);
    CellBound(g.h, g.w, g.u, x, y, c);
  }

  // ----- agreement ----------------------------------------------------------------------------

  /** Cell c of pixel (x, y) comes before place (p, j, i, b) in the order of the loops. */
  predicate Before(x: nat, y: nat, c: nat, p: nat, j: nat, i: nat, b: nat) {
    var q, j', i' := PassOf(x, y), ReducedY(x, y), ReducedX(x, y);
    q < p || (q == p && (j' < j || (j' == j && (i' < i || (i' == i && c < b)))))
  }

  ghost predicate Same<T>(packed: seq<T>, img: seq<T>, g: Grid, x: nat, y: nat, c: nat)
    requires ValidGrid(g)
  {
    PackedOf(g, x, y, c) < |packed| && ImageCell(g, x, y, c) < |img| && packed[PackedOf(g, x, y, c)] == img[ImageCell(g, x, y, c)]
  }

  /** All cells before place (p, j, i, b) have been copied. */
  ghost predicate Copied<T>(packed: seq<T>, img: seq<T>, g: Grid, p: nat, j: nat, i: nat, b: nat)
    requires ValidGrid(g)
  {
    g.start[7] <= |packed| && ImageCells(g) <= |img| &&
    forall x: nat, y: nat, c: nat :: In(g, x, y, c) && Before(x, y, c, p, j, i, b) ==> Same(packed, img, g, x, y, c)
  }

  /** Packed and image show the same pixels. */
  ghost predicate Agree<T>(packed: seq<T>, img: seq<T>, g: Grid)
    requires ValidGrid(g)
  {
    g.start[7] <= |packed| && ImageCells(g) <= |img| &&
    forall x: nat, y: nat, c: nat :: In(g, x, y, c) ==> Same(packed, img, g, x, y, c)
  }

  /** Copying a cell to the image. */
  lemma {:induction false} CopyToImage<T>(packed: seq<T>, img: seq<T>, g: Grid, p: nat, j: nat, i: nat, b: nat)
    requires ValidGrid(g) && Copied(packed, img, g, p, j, i, b) && InPass(g, p, i, j, b)
    ensures var k, k' := PackedCell(g, p, i, j, b), ImageCell(g, ImageX(p, i), ImageY(p, j), b);
            k < |packed| && k' < |img| && Copied(packed, img[k' := packed[k]], g, p, j, i, b + 1)
  {
    hide PassOf, ReducedX, ReducedY, ImageX, ImageY, ImageCell, PackedCell, PackedOf, PassCells, ValidGrid, PassW, PassH, ImageCells;
    var x0, y0 := ImageX(p, i), ImageY(p, j);
    PlaceIs(g, p, i, j, b);
    PixelIs(g, x0, y0, b);
    var k, k' := PackedCell(g, p, i, j, b), ImageCell(g, x0, y0, b);
    var img' := img[k' := packed[k]];
    forall x: nat, y: nat, c: nat | In(g, x, y, c) && Before(x, y, c, p, j, i, b + 1)
      ensures Same(packed, img', g, x, y, c)
    {
      PixelIs(g, x, y, c);
      if Before(x, y, c, p, j, i, b) {
        assert Same(packed, img, g, x, y, c);
        if ImageCell(g, x, y, c) == k' {
          ImageUnique(g, x, y, c, x0, y0, b);
        }
      } else {
        PlaceOf(g, x, y, c, p, i, j);
      }
    }
  }

  lemma {:induction false} ImageUnique(g: Grid, x: nat, y: nat, c: nat, x': nat, y': nat, c': nat)
    requires In(g, x, y, c) && In(g, x', y', c') && ImageCell(g, x, y, c) == ImageCell(g, x', y', c')
    ensures x == x' && y == y' && c == c'
  {
    CellUnique(g.w, g.u, x, y, c, x', y', c');
  }

  /** A pixel with place (p, i, j) is the pixel of that place. */
  lemma {:induction false} PlaceOf(g: Grid, x: nat, y: nat, c: nat, p: nat, i: nat, j: nat)
    requires In(g, x, y, c) && PassOf(x, y) == p && ReducedX(x, y) == i && ReducedY(x, y) == j
    ensures x == ImageX(p, i) && y == ImageY(p, j)
  {
    Covered(g.w, g.h, x, y);
  }

  /** Copying a cell from the image. */
  lemma {:induction false} CopyFromImage<T>(packed: seq<T>, img: seq<T>, g: Grid, p: nat, j: nat, i: nat, b: nat)
    requires ValidGrid(g) && Copied(packed, img, g, p, j, i, b) && InPass(g, p, i, j, b)
    ensures var k, k' := PackedCell(g, p, i, j, b), ImageCell(g, ImageX(p, i), ImageY(p, j), b);
            k < |packed| && k' < |img| && Copied(packed[k := img[k']], img, g, p, j, i, b + 1)
  {
    hide PassOf, ReducedX, ReducedY, ImageX, ImageY, ImageCell, PackedCell, PassCells, ValidGrid, PassW, PassH, ImageCells;
    var x0, y0 := ImageX(p, i), ImageY(p, j);
    PlaceIs(g, p, i, j, b);
    PixelIs(g, x0, y0, b);
    var k, k' := PackedCell(g, p, i, j, b), ImageCell(g, x0, y0, b);
    var packed' := packed[k := img[k']];
    forall x: nat, y: nat, c: nat | In(g, x, y, c) && Before(x, y, c, p, j, i, b + 1)
      ensures Same(packed', img, g, x, y, c)
    {
      PixelIs(g, x, y, c);
      if Before(x, y, c, p, j, i, b) {
        assert Same(packed, img, g, x, y, c);
        if PackedOf(g, x, y, c) == k {
          PackedUnique(g, PassOf(x, y), ReducedX(x, y), ReducedY(x, y), c, p, i, j, b);
        }
      } else {
        PlaceOf(g, x, y, c, p, i, j);
      }
    }
  }

  // ----- the order of the loops ---------------------------------------------------------------

  lemma {:induction false} CopiedNone<T>(packed: seq<T>, img: seq<T>, g: Grid)
    requires ValidGrid(g) && g.start[7] <= |packed| && ImageCells(g) <= |img|
    ensures Copied(packed, img, g, 0, 0, 0, 0)
  {
    hide PassOf, ReducedX, ReducedY, Same;
  }

  lemma {:induction false} NextPixel<T>(packed: seq<T>, img: seq<T>, g: Grid, p: nat, j: nat, i: nat)
    requires ValidGrid(g) && Copied(packed, img, g, p, j, i, g.u)
    ensures Copied(packed, img, g, p, j, i + 1, 0)
  {
    hide PassOf, ReducedX, ReducedY, Same, ImageCells;
    forall x: nat, y: nat, c: nat | In(g, x, y, c) && Before(x, y, c, p, j, i + 1, 0) ensures Same(packed, img, g, x, y, c) {
      assert Before(x, y, c, p, j, i, g.u);
    }
  }

  lemma {:induction false} NextLine<T>(packed: seq<T>, img: seq<T>, g: Grid, p: nat, j: nat)
    requires ValidGrid(g) && Copied(packed, img, g, p, j, PassW(p, g.w, g.h), 0)
    ensures Copied(packed, img, g, p, j + 1, 0, 0)
  {
    hide PassOf, ReducedX, ReducedY, Same, ImageCells, PassW, PassH, ValidGrid;
    forall x: nat, y: nat, c: nat | In(g, x, y, c) && Before(x, y, c, p, j + 1, 0, 0) ensures Same(packed, img, g, x, y, c) {
      PixelIs(g, x, y, c);
      assert Before(x, y, c, p, j, PassW(p, g.w, g.h), 0);
    }
  }

  lemma {:induction false} NextPass<T>(packed: seq<T>, img: seq<T>, g: Grid, p: nat)
    requires ValidGrid(g) && Copied(packed, img, g, p, PassH(p, g.w, g.h), 0, 0)
    ensures Copied(packed, img, g, p + 1, 0, 0, 0)
  {
    hide PassOf, ReducedX, ReducedY, Same, ImageCells, PassW, PassH, ValidGrid;
    forall x: nat, y: nat, c: nat | In(g, x, y, c) && Before(x, y, c, p + 1, 0, 0, 0) ensures Same(packed, img, g, x, y, c) {
      PixelIs(g, x, y, c);
      assert Before(x, y, c, p, PassH(p, g.w, g.h), 0, 0);
    }
  }

  lemma {:induction false} CopiedAll<T>(packed: seq<T>, img: seq<T>, g: Grid)
    requires ValidGrid(g) && Copied(packed, img, g, 7, 0, 0, 0)
    ensures Agree(packed, img, g)
  {
    hide PassOf, ReducedX, ReducedY, Same, ImageCells, ValidGrid;
    forall x: nat, y: nat, c: nat | In(g, x, y, c) ensures Same(packed, img, g, x, y, c) {
      assert Before(x, y, c, 7, 0, 0, 0);
    }
  }

  /** A packed image shows one image only: interlacing loses nothing. */
  lemma {:induction false} AgreeUnique<T>(packed: seq<T>, img: seq<T>, packed': seq<T>, img': seq<T>, g: Grid)
    requires ValidGrid(g) && Agree(packed, img, g) && Agree(packed', img', g)
    requires forall p, k :: 0 <= p < 7 && g.start[p] <= k < g.start[p] + PassCells(g, p) && k < |packed| && k < |packed'| ==> packed[k] == packed'[k]
    ensures img'[..ImageCells(g)] == img[..ImageCells(g)]
  {
    hide PassOf, ReducedX, ReducedY, PassCells, ValidGrid, PassW, PassH;
    forall k: nat | k < ImageCells(g) ensures img'[k] == img[k] {
      var x, y, c := CellOf(g, k);
      PixelIs(g, x, y, c);
      PackedBound(g, PassOf(x, y), ReducedX(x, y), ReducedY(x, y), c);
      assert Same(packed, img, g, x, y, c) && Same(packed', img', g, x, y, c);
    }
  }

  /** Every cell of the image is a cell of a pixel. */
  lemma {:induction false} CellOf(g: Grid, k: nat) returns (x: nat, y: nat, c: nat)
    requires k < ImageCells(g)
    ensures In(g, x, y, c) && ImageCell(g, x, y, c) == k
  {
    var n;
    n, c := SplitCell(Times(g.h, g.w), g.u, k);
    y, x := SplitCell(g.h, g.w, n);
  }

  lemma {:induction false} SplitCell(h: nat, n: nat, k: nat) returns (y: nat, x: nat)
    requires k < Times(h, n)
    ensures y < h && x < n && Times(y, n) + x == k
    decreases h
  {
    if Times(h - 1, n) <= k {
      y, x := h - 1, k - Times(h - 1, n);
    } else {
      y, x := SplitCell(h - 1, n, k);
    }
  }

  // ----- operations on bytes ------------------------------------------------------------------

  /** The reduced images of an image whose pixels are whole bytes. */
  method InterlaceBytes(out: array<byte>, inp: array<byte>, g: Grid)
    requires ValidGrid(g) && out != inp && g.start[7] <= out.Length && ImageCells(g) <= inp.Length
    modifies out
    ensures Agree(out[..], inp[..], g)
  {
    hide Copied, Agree, ValidGrid, ImageCells, PassW, PassH, PackedCell, ImageCell, ImageX, ImageY;
    CopiedNone(out[..], inp[..], g);
    var p := 0;
    while p != 7
      invariant 0 <= p <= 7 && Copied(out[..], inp[..], g, p, 0, 0, 0)
    {
      var y := 0;
      while y < PassH(p, g.w, g.h)
        invariant 0 <= y <= PassH(p, g.w, g.h) && Copied(out[..], inp[..], g, p, y, 0, 0)
      {
        var x := 0;
        while x < PassW(p, g.w, g.h)
          invariant 0 <= x <= PassW(p, g.w, g.h) && Copied(out[..], inp[..], g, p, y, x, 0)
        {
          var b := 0;
          while b < g.u
            invariant 0 <= b <= g.u && Copied(out[..], inp[..], g, p, y, x, b)
          {
            CopyFromImage(out[..], inp[..], g, p, y, x, b);
            ghost var o := out[..];
            var k, k' := PackedCell(g, p, x, y, b), ImageCell(g, ImageX(p, x), ImageY(p, y), b);
            out[k] := inp[k'];
            assert out[..] == o[k := inp[..][k']];
            b := b + 1;
          }
          NextPixel(out[..], inp[..], g, p, y, x);
          x := x + 1;
        }
        NextLine(out[..], inp[..], g, p, y);
        y := y + 1;
      }
      NextPass(out[..], inp[..], g, p);
      p := p + 1;
    }
    CopiedAll(out[..], inp[..], g);
  }

  /** The image of reduced images whose pixels are whole bytes. */
  method DeinterlaceBytes(out: array<byte>, inp: array<byte>, g: Grid)
    requires ValidGrid(g) && out != inp && g.start[7] <= inp.Length && ImageCells(g) <= out.Length
    modifies out
    ensures Agree(inp[..], out[..], g)
  {
    hide Copied, Agree, ValidGrid, ImageCells, PassW, PassH, PackedCell, ImageCell, ImageX, ImageY;
    CopiedNone(inp[..], out[..], g);
    var p := 0;
    while p != 7
      invariant 0 <= p <= 7 && Copied(inp[..], out[..], g, p, 0, 0, 0)
    {
      var y := 0;
      while y < PassH(p, g.w, g.h)
        invariant 0 <= y <= PassH(p, g.w, g.h) && Copied(inp[..], out[..], g, p, y, 0, 0)
      {
        var x := 0;
        while x < PassW(p, g.w, g.h)
          invariant 0 <= x <= PassW(p, g.w, g.h) && Copied(inp[..], out[..], g, p, y, x, 0)
        {
          var b := 0;
          while b < g.u
            invariant 0 <= b <= g.u && Copied(inp[..], out[..], g, p, y, x, b)
          {
            CopyToImage(inp[..], out[..], g, p, y, x, b);
            ghost var o := out[..];
            var k, k' := PackedCell(g, p, x, y, b), ImageCell(g, ImageX(p, x), ImageY(p, y), b);
            out[k'] := inp[k];
            assert out[..] == o[k' := inp[..][k]];
            b := b + 1;
          }
          NextPixel(inp[..], out[..], g, p, y, x);
          x := x + 1;
        }
        NextLine(inp[..], out[..], g, p, y);
        y := y + 1;
      }
      NextPass(inp[..], out[..], g, p);
      p := p + 1;
    }
    CopiedAll(inp[..], out[..], g);
  }

  // ----- operations on bits -------------------------------------------------------------------

  lemma {:induction false} GridBounds(g: Grid)
    requires ValidGrid(g)
    ensures |g.start| == 8 && 0 < g.u
  {}

  /** The bit positions the loops compute. */
  lemma {:induction false} BitCell(g: Grid, p: nat, x: nat, y: nat, b: nat)
    requires ValidGrid(g) && p < 7
    ensures g.start[p] + (Times(y, Times(PassW(p, g.w, g.h), g.u)) + Times(x, g.u)) + b == PackedCell(g, p, x, y, b)
    ensures Times(ImageY(p, y), Times(g.w, g.u)) + Times(ImageX(p, x), g.u) + b == ImageCell(g, ImageX(p, x), ImageY(p, y), b)
  {
    hide PassW, ImageX, ImageY;
    var pw := PassW(p, g.w, g.h);
    TimesTimes(y, pw, g.u);
    TimesAdd(Times(y, pw), x, g.u);
    TimesTimes(ImageY(p, y), g.w, g.u);
    TimesAdd(Times(ImageY(p, y), g.w), ImageX(p, x), g.u);
  }

  /** The reduced images of an image whose pixels are less than a byte. */
  method InterlaceBits(out: array<byte>, inp: array<byte>, g: Grid)
    requires ValidGrid(g) && out != inp && g.start[7] <= 8 * out.Length && ImageCells(g) <= 8 * inp.Length
    modifies out
    ensures Agree(MsbBits(out[..]), MsbBits(inp[..]), g)
  {
    hide Copied, Agree, ValidGrid, ImageCells, PassW, PassH, PackedCell, ImageCell, ImageX, ImageY, MsbBits;
    GridBounds(g);
    CopiedNone(MsbBits(out[..]), MsbBits(inp[..]), g);
    var p := 0;
    while p != 7
      invariant 0 <= p <= 7 && Copied(MsbBits(out[..]), MsbBits(inp[..]), g, p, 0, 0, 0)
    {
      var packedLine, imageLine := Times(PassW(p, g.w, g.h), g.u), Times(g.w, g.u);
      var y := 0;
      while y < PassH(p, g.w, g.h)
        invariant 0 <= y <= PassH(p, g.w, g.h) && Copied(MsbBits(out[..]), MsbBits(inp[..]), g, p, y, 0, 0)
      {
        var x := 0;
        while x < PassW(p, g.w, g.h)
          invariant 0 <= x <= PassW(p, g.w, g.h) && Copied(MsbBits(out[..]), MsbBits(inp[..]), g, p, y, x, 0)
        {
          var k := g.start[p] + (Times(y, packedLine) + Times(x, g.u));
          var k' := Times(ImageY(p, y), imageLine) + Times(ImageX(p, x), g.u);
          var b := 0;
          while b < g.u
            invariant 0 <= b <= g.u && Copied(MsbBits(out[..]), MsbBits(inp[..]), g, p, y, x, b)
          {
            CopyFromImage(MsbBits(out[..]), MsbBits(inp[..]), g, p, y, x, b);
            BitCell(g, p, x, y, b);
            var bit := BitAt(inp[..], k' + b);
            SetBitOfReversedStream(out, k + b, bit);
            b := b + 1;
          }
          NextPixel(MsbBits(out[..]), MsbBits(inp[..]), g, p, y, x);
          x := x + 1;
        }
        NextLine(MsbBits(out[..]), MsbBits(inp[..]), g, p, y);
        y := y + 1;
      }
      NextPass(MsbBits(out[..]), MsbBits(inp[..]), g, p);
      p := p + 1;
    }
    CopiedAll(MsbBits(out[..]), MsbBits(inp[..]), g);
  }

  /** The image of reduced images whose pixels are less than a byte. */
  method DeinterlaceBits(out: array<byte>, inp: array<byte>, g: Grid)
    requires ValidGrid(g) && out != inp && g.start[7] <= 8 * inp.Length && ImageCells(g) <= 8 * out.Length
    modifies out
    ensures Agree(MsbBits(inp[..]), MsbBits(out[..]), g)
  {
    hide Copied, Agree, ValidGrid, ImageCells, PassW, PassH, PackedCell, ImageCell, ImageX, ImageY, MsbBits;
    GridBounds(g);
    CopiedNone(MsbBits(inp[..]), MsbBits(out[..]), g);
    var p := 0;
    while p != 7
      invariant 0 <= p <= 7 && Copied(MsbBits(inp[..]), MsbBits(out[..]), g, p, 0, 0, 0)
    {
      var packedLine, imageLine := Times(PassW(p, g.w, g.h), g.u), Times(g.w, g.u);
      var y := 0;
      while y < PassH(p, g.w, g.h)
        invariant 0 <= y <= PassH(p, g.w, g.h) && Copied(MsbBits(inp[..]), MsbBits(out[..]), g, p, y, 0, 0)
      {
        var x := 0;
        while x < PassW(p, g.w, g.h)
          invariant 0 <= x <= PassW(p, g.w, g.h) && Copied(MsbBits(inp[..]), MsbBits(out[..]), g, p, y, x, 0)
        {
          var k := g.start[p] + (Times(y, packedLine) + Times(x, g.u));
          var k' := Times(ImageY(p, y), imageLine) + Times(ImageX(p, x), g.u);
          var b := 0;
          while b < g.u
            invariant 0 <= b <= g.u && Copied(MsbBits(inp[..]), MsbBits(out[..]), g, p, y, x, b)
          {
            CopyToImage(MsbBits(inp[..]), MsbBits(out[..]), g, p, y, x, b);
            BitCell(g, p, x, y, b);
            var bit := BitAt(inp[..], k + b);
            SetBitOfReversedStream(out, k' + b, bit);
            b := b + 1;
          }
          NextPixel(MsbBits(inp[..]), MsbBits(out[..]), g, p, y, x);
          x := x + 1;
        }
        NextLine(MsbBits(inp[..]), MsbBits(out[..]), g, p, y);
        y := y + 1;
      }
      NextPass(MsbBits(inp[..]), MsbBits(out[..]), g, p);
      p := p + 1;
    }
    CopiedAll(MsbBits(inp[..]), MsbBits(out[..]), g);
  }

  // ----- layout -------------------------------------------------------------------------------

  function LineBytes(w: nat, bpp: nat): (n: nat) { (Times(w, bpp) + 7) / 8 }

  /** Bytes of a reduced image: with filter bytes and padded lines, with padded lines, and packed. */
  function FilteredBytes(w: nat, h: nat, bpp: nat, p: nat): (n: nat)
  {
    var pw, ph := PassW(p, w, h), PassH(p, w, h);
    if pw != 0 && ph != 0 then Times(ph, LineBytes(pw, bpp) + 1) else 0
  }

  function PaddedBytes(w: nat, h: nat, bpp: nat, p: nat): (n: nat)
  {
    Times(PassH(p, w, h), LineBytes(PassW(p, w, h), bpp))
  }

  function PackedBytes(w: nat, h: nat, bpp: nat, p: nat): (n: nat)
  {
    (Times(Times(PassH(p, w, h), PassW(p, w, h)), bpp) + 7) / 8
  }

  function FilterStart(w: nat, h: nat, bpp: nat, p: nat): (n: nat)
    decreases p
  {
    if p == 0 then 0 else FilterStart(w, h, bpp, p - 1) + FilteredBytes(w, h, bpp, p - 1)
  }

  function PaddedStart(w: nat, h: nat, bpp: nat, p: nat): (n: nat)
    decreases p
  {
    if p == 0 then 0 else PaddedStart(w, h, bpp, p - 1) + PaddedBytes(w, h, bpp, p - 1)
  }

  function PackedStart(w: nat, h: nat, bpp: nat, p: nat): (n: nat)
    decreases p
  {
    if p == 0 then 0 else PackedStart(w, h, bpp, p - 1) + PackedBytes(w, h, bpp, p - 1)
  }

  /** A reduced image has rows exactly when it has columns. */
  lemma {:induction false} PassEmpty(w: nat, h: nat, p: nat)
    ensures PassW(p, w, h) == 0 <==> PassH(p, w, h) == 0
  {}

  /** The three forms of a reduced image shrink in this order. */
  lemma {:induction false} FormsShrink(w: nat, h: nat, bpp: nat, p: nat)
    ensures PackedBytes(w, h, bpp, p) <= PaddedBytes(w, h, bpp, p) <= FilteredBytes(w, h, bpp, p)
    ensures FilteredBytes(w, h, bpp, p) == Times(PassH(p, w, h), LineBytes(PassW(p, w, h), bpp) + 1)
    ensures bpp % 8 == 0 ==> PackedBytes(w, h, bpp, p) == PaddedBytes(w, h, bpp, p)
  {
    hide PassW, PassH;
    PassEmpty(w, h, p);
    var pw, ph := PassW(p, w, h), PassH(p, w, h);
    var n := LineBytes(pw, bpp);
    TimesTimes(ph, pw, bpp);
    TimesLess(ph, Times(pw, bpp), 8 * n);
    TimesEight(ph, n);
    TimesLess(ph, n, n + 1);
    if bpp % 8 == 0 {
      TimesEight(pw, bpp / 8);
      assert 8 * (bpp / 8) == bpp;
    }
  }

  lemma {:induction false} StartsShrink(w: nat, h: nat, bpp: nat, p: nat)
    ensures PackedStart(w, h, bpp, p) <= PaddedStart(w, h, bpp, p) <= FilterStart(w, h, bpp, p)
    ensures bpp % 8 == 0 ==> PackedStart(w, h, bpp, p) == PaddedStart(w, h, bpp, p)
    decreases p
  {
    hide PackedBytes, PaddedBytes, FilteredBytes;
    if p > 0 {
      StartsShrink(w, h, bpp, p - 1);
      FormsShrink(w, h, bpp, p - 1);
    }
  }

  method GetPassValues(w: nat, h: nat, bpp: nat) returns (passw: seq<nat>, passh: seq<nat>, filterStart: seq<nat>, paddedStart: seq<nat>, packedStart: seq<nat>)
    ensures |passw| == |passh| == 7 && |filterStart| == |paddedStart| == |packedStart| == 8
    ensures forall p :: 0 <= p < 7 ==> passw[p] == PassW(p, w, h) && passh[p] == PassH(p, w, h)
    ensures forall p :: 0 <= p < 8 ==> filterStart[p] == FilterStart(w, h, bpp, p) && paddedStart[p] == PaddedStart(w, h, bpp, p)
                                       && packedStart[p] == PackedStart(w, h, bpp, p)
  {
    hide Columns, Lines, LineBytes, FilterStart, PaddedStart, PackedStart, Times;
    passw, passh := [], [];
    var i := 0;
    while i != 7
      invariant 0 <= i <= 7 && |passw| == |passh| == i
      invariant forall p :: 0 <= p < i ==> passw[p] == PassW(p, w, h) && passh[p] == PassH(p, w, h)
    {
      var pw, ph := Columns(i, w), Lines(i, h);
      if pw == 0 { ph := 0; }
      if ph == 0 { pw := 0; }
      passw, passh := passw + [pw], passh + [ph];
      i := i + 1;
    }
    filterStart, paddedStart, packedStart := [0], [0], [0];
    StartsZero(w, h, bpp);
    i := 0;
    while i != 7
      invariant 0 <= i <= 7 && |filterStart| == |paddedStart| == |packedStart| == i + 1
      invariant forall p :: 0 <= p <= i ==> filterStart[p] == FilterStart(w, h, bpp, p) && paddedStart[p] == PaddedStart(w, h, bpp, p)
                                            && packedStart[p] == PackedStart(w, h, bpp, p)
    {
      var pw, ph := passw[i], passh[i];
      StartsNext(w, h, bpp, i);
      filterStart := filterStart + [filterStart[i] + if pw != 0 && ph != 0 then Times(ph, 1 + LineBytes(pw, bpp)) else 0];
      paddedStart := paddedStart + [paddedStart[i] + Times(ph, LineBytes(pw, bpp))];
      packedStart := packedStart + [packedStart[i] + (Times(Times(ph, pw), bpp) + 7) / 8];
      i := i + 1;
    }
  }

  lemma {:induction false} StartsZero(w: nat, h: nat, bpp: nat)
    ensures FilterStart(w, h, bpp, 0) == PaddedStart(w, h, bpp, 0) == PackedStart(w, h, bpp, 0) == 0
  {}

  lemma {:induction false} StartsNext(w: nat, h: nat, bpp: nat, p: nat)
    ensures FilterStart(w, h, bpp, p + 1) == FilterStart(w, h, bpp, p) + FilteredBytes(w, h, bpp, p)
    ensures PaddedStart(w, h, bpp, p + 1) == PaddedStart(w, h, bpp, p) + PaddedBytes(w, h, bpp, p)
    ensures PackedStart(w, h, bpp, p + 1) == PackedStart(w, h, bpp, p) + PackedBytes(w, h, bpp, p)
  {
    hide FilteredBytes, PaddedBytes, PackedBytes;
  }

  // ----- the size the decoder expects ---------------------------------------------------------

  function RawSizeIdat(w: nat, h: nat, bpp: nat): (n: nat)
  {
    Times(h, Times(w / 8, bpp) + 1 + (Times(w % 8, bpp) + 7) / 8)
  }

  lemma {:induction false} RawSizeIs(w: nat, h: nat, bpp: nat)
    ensures RawSizeIdat(w, h, bpp) == Times(h, LineBytes(w, bpp) + 1)
  {
    var q, r := w / 8, w % 8;
    TimesAdd(8 * q, r, bpp);
    TimesIs(8 * q, bpp);
    TimesIs(q, bpp);
    assert 8 * q * bpp == 8 * (q * bpp);
  }

  function ExpectedSize(w: nat, h: nat, bpp: nat): (n: nat)
  {
    RawSizeIdat((w + 7) / 8, (h + 7) / 8, bpp)
    + (if w > 4 then RawSizeIdat((w + 3) / 8, (h + 7) / 8, bpp) else 0)
    + RawSizeIdat((w + 3) / 4, (h + 3) / 8, bpp)
    + (if w > 2 then RawSizeIdat((w + 1) / 4, (h + 3) / 4, bpp) else 0)
    + RawSizeIdat((w + 1) / 2, (h + 1) / 4, bpp)
    + (if w > 1 then RawSizeIdat(w / 2, (h + 1) / 2, bpp) else 0)
    + RawSizeIdat(w, h / 2, bpp)
  }

  lemma {:induction false} ExpectedPass(w: nat, h: nat, bpp: nat, p: nat)
    requires 0 < w && 0 < h && p < 7
    ensures FilteredBytes(w, h, bpp, p) == if Columns(p, w) > 0 then RawSizeIdat(Columns(p, w), Lines(p, h), bpp) else 0
  {
    hide RawSizeIdat, Columns, Lines, LineBytes;
    RawSizeIs(Columns(p, w), Lines(p, h), bpp);
  }

  /** The decoder expects as many bytes as the encoder makes. */
  lemma {:induction false} ExpectedSizeIs(w: nat, h: nat, bpp: nat)
    requires 0 < w && 0 < h
    ensures ExpectedSize(w, h, bpp) == FilterStart(w, h, bpp, 7)
  {
    hide RawSizeIdat, FilteredBytes, Columns, Lines, FilterStart;
    Starts(w, h, bpp);
    forall p | 0 <= p < 7 ensures FilteredBytes(w, h, bpp, p) == if Columns(p, w) > 0 then RawSizeIdat(Columns(p, w), Lines(p, h), bpp) else 0 {
      ExpectedPass(w, h, bpp, p);
    }
    Dimensions(w, h);
  }

  lemma {:induction false} Starts(w: nat, h: nat, bpp: nat)
    ensures FilterStart(w, h, bpp, 7)
         == FilteredBytes(w, h, bpp, 0) + FilteredBytes(w, h, bpp, 1) + FilteredBytes(w, h, bpp, 2) + FilteredBytes(w, h, bpp, 3)
          + FilteredBytes(w, h, bpp, 4) + FilteredBytes(w, h, bpp, 5) + FilteredBytes(w, h, bpp, 6)
  {
    hide FilteredBytes;
  }

  lemma {:induction false} Dimensions(w: nat, h: nat)
    requires 0 < w
    ensures Columns(0, w) == (w + 7) / 8 > 0 && Columns(1, w) == (w + 3) / 8 && (Columns(1, w) > 0 <==> w > 4)
    ensures Columns(2, w) == (w + 3) / 4 > 0 && Columns(3, w) == (w + 1) / 4 && (Columns(3, w) > 0 <==> w > 2)
    ensures Columns(4, w) == (w + 1) / 2 > 0 && Columns(5, w) == w / 2 && (Columns(5, w) > 0 <==> w > 1) && Columns(6, w) == w
    ensures Lines(0, h) == Lines(1, h) == (h + 7) / 8 && Lines(2, h) == (h + 3) / 8 && Lines(3, h) == (h + 3) / 4
    ensures Lines(4, h) == (h + 1) / 4 && Lines(5, h) == (h + 1) / 2 && Lines(6, h) == h / 2
  {}
}
