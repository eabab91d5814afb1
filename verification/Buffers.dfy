/** Buffers that are filled from a position on, and rows of equal length. */
module Buffers {

  /** The first n elements of `res` have been stored from `at` on. */
  predicate Overwritten<T(==)>(o: seq<T>, before: seq<T>, at: nat, res: seq<T>, n: nat) {
    && |o| == |before| && at + |res| <= |o| && n <= |res|
    && (forall k :: 0 <= k < |o| ==> o[k] == if at <= k < at + n then res[k - at] else before[k])
  }

  /** `res` has replaced what was there from `at` on. */
  function Replaced<T>(before: seq<T>, at: nat, res: seq<T>): (o: seq<T>)
    requires at + |res| <= |before|
    ensures |o| == |before|
  {
    before[..at] + res + before[at + |res|..]
  }

  lemma {:induction false} NothingOverwritten<T>(o: seq<T>, at: nat, res: seq<T>)
    requires at + |res| <= |o|
    ensures Overwritten(o, o, at, res, 0)
  {}

  lemma {:induction false} OverwrittenMore<T>(o: seq<T>, before: seq<T>, at: nat, res: seq<T>, n: nat)
    requires Overwritten(o, before, at, res, n) && n < |res|
    ensures Overwritten(o[at + n := res[n]], before, at, res, n + 1)
  {}

  lemma {:induction false} OverwrittenAll<T>(o: seq<T>, before: seq<T>, at: nat, res: seq<T>)
    requires Overwritten(o, before, at, res, |res|)
    ensures o == Replaced(before, at, res)
  {}

  /** Replacing a piece and then the piece after it. */
  lemma {:induction false} ReplacedTwice<T>(before: seq<T>, at: nat, x: seq<T>, y: seq<T>)
    requires at + |x| + |y| <= |before|
    ensures Replaced(Replaced(before, at, x), at + |x|, y) == Replaced(before, at, x + y)
  {}

  lemma {:induction false} ReplacedNothing<T>(before: seq<T>, at: nat)
    requires at <= |before|
    ensures Replaced(before, at, []) == before
  {}

  lemma {:induction false} ReplacedPiece<T>(before: seq<T>, at: nat, x: seq<T>)
    requires at + |x| <= |before|
    ensures Replaced(before, at, x)[at..at + |x|] == x
  {}

  lemma {:induction false} ReplacedElsewhere<T>(before: seq<T>, at: nat, x: seq<T>)
    requires at + |x| <= |before|
    ensures forall k :: 0 <= k < |before| && (k < at || at + |x| <= k) ==> Replaced(before, at, x)[k] == before[k]
  {}

  /** The second of two replacements of the same piece counts. */
  lemma {:induction false} ReplacedAgain<T>(before: seq<T>, at: nat, x: seq<T>, y: seq<T>)
    requires at + |x| <= |before| && |x| == |y|
    ensures Replaced(Replaced(before, at, x), at, y) == Replaced(before, at, y)
  {}

  // ----- rows ---------------------------------------------------------------------------------

  /** y * n: where row y starts. */
  function Times(y: nat, n: nat): (r: nat)
    decreases y, n
  {
    if y == 0 then 0 else Times(y - 1, n) + n
  }

  lemma {:induction false} TimesIs(y: nat, n: nat)
    ensures Times(y, n) == y * n
  {
    if y > 0 {
      TimesIs(y - 1, n);
      assert (y - 1) * n + n == y * n;
    }
  }

  lemma {:induction false} TimesMonotone(y: nat, y': nat, n: nat)
    requires y <= y'
    ensures Times(y, n) <= Times(y', n)
    decreases y'
  {
    if y < y' { TimesMonotone(y, y' - 1, n); }
  }

  /** Row y ends where row y + 1 starts or before it. */
  lemma {:induction false} TimesNext(y: nat, h: nat, n: nat)
    requires y < h
    ensures Times(y, n) + n == Times(y + 1, n) <= Times(h, n)
  {
    TimesMonotone(y + 1, h, n);
  }

  lemma {:induction false} TimesLess(y: nat, n: nat, m: nat)
    requires n <= m
    ensures Times(y, n) <= Times(y, m)
    decreases y
  {
    if y > 0 { TimesLess(y - 1, n, m); }
  }

  /** Row and column of a cell are unique. */
  lemma {:induction false} TimesUnique(y: nat, x: nat, y': nat, x': nat, n: nat)
    requires x < n && x' < n && Times(y, n) + x == Times(y', n) + x'
    ensures y == y' && x == x'
  {
    if y < y' { TimesNext(y, y', n); }
    if y' < y { TimesNext(y', y, n); }
  }

  lemma {:induction false} TimesAdd(a: nat, b: nat, n: nat)
    ensures Times(a + b, n) == Times(a, n) + Times(b, n)
    decreases b
  {
    if b > 0 { TimesAdd(a, b - 1, n); }
  }

  lemma {:induction false} TimesTimes(a: nat, b: nat, n: nat)
    ensures Times(Times(a, b), n) == Times(a, Times(b, n))
    decreases a
  {
    if a > 0 {
      TimesTimes(a - 1, b, n);
      TimesAdd(Times(a - 1, b), b, n);
    }
  }

  lemma {:induction false} TimesEight(y: nat, n: nat)
    ensures Times(y, 8 * n) == 8 * Times(y, n)
    decreases y
  {
    if y > 0 { TimesEight(y - 1, n); }
  }
}
