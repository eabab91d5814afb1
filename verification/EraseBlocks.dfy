/** Erase blocks: remainders of addresses, and the mask that stands for them. */
module EraseBlocks {
  import opened Bits
  import opened Bitwise
  import opened Flash

  // ----- whole blocks -------------------------------------------------------------------------

  lemma {:induction false} Multiple(x: nat, e: nat)
    requires 0 < e && x % e == 0
    ensures x == e * (x / e) && (0 < x ==> e <= x)
  {}

  lemma {:induction false} ModMod(x: nat, e: nat)
    requires 0 < e && e % SECTOR == 0 && x % e == 0
    ensures x % SECTOR == 0
  {
    var k, j := x / e, e / SECTOR;
    assert x == e * k && e == SECTOR * j;
    assert x == SECTOR * (j * k);
  }

  lemma {:induction false} BlockStep(p: nat, erase: nat, n: nat)
    requires 0 < erase && 0 < n <= erase - p % erase
    ensures (p + n) % erase == if n == erase - p % erase then 0 else p % erase + n
  {
    var k, r := p / erase, p % erase;
    assert p + n == erase * k + (r + n);
    if n == erase - r {
      assert p + n == erase * (k + 1);
      ModOf(erase, k + 1, 0);
    } else {
      ModOf(erase, k, r + n);
    }
  }

  lemma {:induction false} ModOf(e: nat, k: nat, r: nat)
    requires r < e
    ensures (e * k + r) % e == r
  {
    var x := e * k + r;
    Unique(e, x / e, x % e, k, r);
  }

  lemma {:induction false} Unique(e: nat, q: nat, r: nat, q': nat, r': nat)
    requires e * q + r == e * q' + r' && r < e && r' < e
    ensures r == r'
  {
    if q < q' { Further(e, q, q'); }
    if q' < q { Further(e, q', q); }
  }

  lemma {:induction false} Further(e: nat, q: nat, q': nat)
    requires q < q'
    ensures e * q + e <= e * q'
  {
    assert e * q' == e * q + e + e * (q' - q - 1);
  }

  lemma {:induction false} Room(e: nat, k: nat, i: nat, n: nat)
    requires e * k < e * i + e * n
    ensures e * k + e <= e * i + e * n
  {
    assert e * i + e * n == e * (i + n);
    if i + n < k { Further(e, i + n, k); }
    if k < i + n { Further(e, k, i + n); }
  }

  lemma {:induction false} SumOfMultiples(x: nat, y: nat, e: nat)
    requires 0 < e && x % e == 0 && y % e == 0
    ensures (x + y) % e == 0
  {
    Multiple(x, e);
    Multiple(y, e);
    Distribute(e, x / e, y / e);
    ModOf(e, x / e + y / e, 0);
  }

  lemma {:induction false} Distribute(e: nat, i: nat, j: nat)
    ensures e * (i + j) == e * i + e * j
  {}

  /** The block of an address ends at or before every later block boundary. */
  lemma {:induction false} NextBlock(addr: nat, end: nat, e: nat)
    requires 0 < e && end % e == 0 && addr < end
    ensures addr + (e - addr % e) <= end
  {
    Multiple(end, e);
    var k := addr / e;
    assert addr == e * k + addr % e;
    if k < end / e { Further(e, k, end / e); } else if end / e < k { Further(e, end / e, k); }
  }

  // ----- the mask -----------------------------------------------------------------------------

  /** addr & (erase - 1) */
  function Mask(addr: nat, erase: nat): (r: nat)
    requires 0 < erase
    ensures r < erase
  {
    And(addr, erase - 1)
  }

  predicate IsPow2(e: nat) {
    e == 1 || (0 < e && e % 2 == 0 && IsPow2(e / 2))
  }

  /** For powers of two the mask is the remainder. */
  lemma {:induction false} MaskIsRemainder(addr: nat, e: nat)
    requires IsPow2(e)
    ensures Mask(addr, e) == addr % e
    decreases e
  {
    if e > 1 {
      var x, h := addr / 2, e / 2;
      MaskIsRemainder(x, h);
      MaskHalf(addr, e);
      Doubled(h, x, addr % 2);
    }
  }

  /** One bit of the mask of an even erase size. */
  lemma {:induction false} MaskHalf(addr: nat, e: nat)
    requires 0 < e && e % 2 == 0
    ensures Mask(addr, e) == addr % 2 + 2 * Mask(addr / 2, e / 2)
  {
    assert (e - 1) / 2 == e / 2 - 1 && (e - 1) % 2 == 1;
    if addr == 0 { assert Mask(addr / 2, e / 2) == 0; }
    if e / 2 - 1 == 0 { assert Mask(addr / 2, e / 2) == 0; }
  }

  lemma {:induction false} Doubled(h: nat, x: nat, b: nat)
    requires 0 < h && b < 2
    ensures (2 * x + b) % (2 * h) == b + 2 * (x % h)
  {
    var q, r := x / h, x % h;
    assert x == h * q + r;
    assert 2 * x + b == (2 * h) * q + (b + 2 * r);
    ModOf(2 * h, q, b + 2 * r);
  }

  /** For an odd erase size above 1 the mask does not see the lowest bit of an address. */
  lemma {:induction false} MaskOdd(x: nat, y: nat, e: nat)
    requires e % 2 == 1 && x / 2 == y / 2
    ensures Mask(x, e) == Mask(y, e)
  {}

  /** For every other erase size an address without offset has a neighbour, less than a block away, without offset. */
  lemma {:induction false} Neighbour(x: nat, e: nat) returns (y: nat)
    requires 0 < e && !IsPow2(e) && Mask(x, e) == 0
    ensures y != x && x < y + e && y < x + e && Mask(y, e) == 0
    decreases e
  {
    if e % 2 == 1 {
      y := if x % 2 == 0 then x + 1 else x - 1;
      MaskOdd(x, y, e);
    } else {
      MaskHalf(x, e);
      y := Neighbour(x / 2, e / 2);
      y := 2 * y;
      MaskHalf(y, e);
    }
  }

  /** An address without offset is a multiple of every power of two that divides the erase size. */
  lemma {:induction false} NoOffset(x: nat, e: nat, k: nat)
    requires 0 < e && Low(e, k) == 0 && Mask(x, e) == 0
    ensures Low(x, k) == 0
    decreases k
  {
    if k > 0 {
      MaskHalf(x, e);
      NoOffset(x / 2, e / 2, k - 1);
    }
  }

  lemma {:induction false} Sectors(x: nat)
    ensures Low(x, 12) == 0 <==> x % SECTOR == 0
  {
    hide Low, Shl, Shr;
    Nibble(x);
    Nibble(x / 16);
    Nibble(x / 256);
    LowSplit(x, 4, 8);
    LowSplit(x / 16, 4, 4);
    ShlFour(Low(x / 16, 8));
    ShlFour(Low(x / 256, 4));
    assert x / 16 / 16 == x / 256;
  }

  lemma {:induction false} ShlFour(x: nat)
    ensures Shl(x, 4) == 16 * x
  {
    assert Shl(x, 4) == 2 * Shl(x, 3) && Shl(x, 3) == 2 * Shl(x, 2) && Shl(x, 2) == 2 * Shl(x, 1) && Shl(x, 1) == 2 * Shl(x, 0);
  }

  lemma {:induction false} Nibble(x: nat)
    ensures Low(x, 4) == x % 16 && Shr(x, 4) == x / 16
  {
    hide Low, Shr;
    var a := x / 2;
    var b := a / 2;
    var c := b / 2;
    var d := c / 2;
    assert x == 16 * d + 8 * (c % 2) + 4 * (b % 2) + 2 * (a % 2) + x % 2;
    LowHalf(x, 4);
    LowHalf(a, 3);
    LowHalf(b, 2);
    LowHalf(c, 1);
    LowNone(d);
  }

  lemma {:induction false} LowHalf(x: nat, n: nat)
    requires 0 < n
    ensures Low(x, n) == x % 2 + 2 * Low(x / 2, n - 1) && Shr(x, n) == Shr(x / 2, n - 1)
  {}

  lemma {:induction false} LowNone(x: nat)
    ensures Low(x, 0) == 0 && Shr(x, 0) == x
  {}

  /** Blocks are erased at whole sectors only. */
  lemma {:induction false} MaskSector(x: nat, e: nat)
    requires 0 < e && e % SECTOR == 0 && Mask(x, e) == 0
    ensures x % SECTOR == 0
  {
    Sectors(e);
    NoOffset(x, e, 12);
    Sectors(x);
  }

  /** A multiple less than one block away from another is that one. */
  lemma {:induction false} SameBlock(x: nat, y: nat, e: nat)
    requires 0 < e && x % e == 0 && y % e == 0 && x < y + e && y < x + e
    ensures x == y
  {
    Multiple(x, e);
    Multiple(y, e);
    if x / e < y / e { Further(e, x / e, y / e); }
    if y / e < x / e { Further(e, y / e, x / e); }
  }
}
