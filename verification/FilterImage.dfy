/** Filtering and unfiltering of whole images, row by row; unfiltering also in place. */
module FilterImage {
  import opened Bits
  import opened Buffers
  import opened Filter

  function Row(img: seq<byte>, n: nat, y: nat): (r: seq<byte>)
    requires Times(y, n) + n <= |img|
    ensures |r| == n
  {
    img[Times(y, n)..Times(y, n) + n]
  }

  /** The row above row y; zeros above the first row. */
  function RowAbove(img: seq<byte>, n: nat, y: nat): (r: seq<byte>)
    requires Times(y, n) <= |img|
    ensures |r| == n
  {
    if y == 0 then Zeros(n) else Row(img, n, y - 1)
  }

  /** Rows filtered with the given kinds, each behind the byte that names its kind. */
  function FilterRows(img: seq<byte>, n: nat, bytewidth: nat, kinds: seq<byte>, h: nat): (r: seq<byte>)
    requires Times(h, n) <= |img| && 0 < bytewidth && h <= |kinds|
    ensures |r| == Times(h, n + 1)
    decreases h
  {
    if h == 0 then []
    else FilterRows(img, n, bytewidth, kinds, h - 1) + [kinds[h - 1]]
         + Filtered(Row(img, n, h - 1), RowAbove(img, n, h - 1), bytewidth, kinds[h - 1])
  }

  /** Row y of the unfiltered image. */
  function UnfilterRow(data: seq<byte>, n: nat, bytewidth: nat, y: nat): (r: seq<byte>)
    requires Times(y + 1, n + 1) <= |data| && 0 < bytewidth
    ensures |r| == n
    decreases y, 1
  {
    var row := Row(data, n + 1, y);
    Unfiltered(row[1..], RowAbove(UnfilterRows(data, n, bytewidth, y), n, y), bytewidth, row[0])
  }

  function UnfilterRows(data: seq<byte>, n: nat, bytewidth: nat, h: nat): (r: seq<byte>)
    requires Times(h, n + 1) <= |data| && 0 < bytewidth
    ensures |r| == Times(h, n)
    decreases h, 0
  {
    if h == 0 then [] else UnfilterRows(data, n, bytewidth, h - 1) + UnfilterRow(data, n, bytewidth, h - 1)
  }

  /** Only the rows themselves matter. */
  lemma {:induction false} UnfilterRowsPrefix(data: seq<byte>, data': seq<byte>, n: nat, bytewidth: nat, h: nat)
    requires Times(h, n + 1) <= |data| && Times(h, n + 1) <= |data'| && 0 < bytewidth
    requires data[..Times(h, n + 1)] == data'[..Times(h, n + 1)]
    ensures UnfilterRows(data, n, bytewidth, h) == UnfilterRows(data', n, bytewidth, h)
    decreases h
  {
    hide Unfiltered;
    if h > 0 {
      var t := Times(h - 1, n + 1);
      var all, all' := data[..Times(h, n + 1)], data'[..Times(h, n + 1)];
      assert data[..t] == all[..t] && data'[..t] == all'[..t];
      assert Row(data, n + 1, h - 1) == all[t..] && Row(data', n + 1, h - 1) == all'[t..];
      UnfilterRowsPrefix(data, data', n, bytewidth, h - 1);
    }
  }

  /** The last of the filtered rows. */
  lemma {:induction false} LastFilteredRow(img: seq<byte>, n: nat, bytewidth: nat, kinds: seq<byte>, h: nat)
    requires 0 < h && Times(h, n) <= |img| && 0 < bytewidth && h <= |kinds|
    ensures var data, front := FilterRows(img, n, bytewidth, kinds, h), FilterRows(img, n, bytewidth, kinds, h - 1);
            && data[..Times(h - 1, n + 1)] == front
            && Row(data, n + 1, h - 1)[0] == kinds[h - 1]
            && Row(data, n + 1, h - 1)[1..] == Filtered(Row(img, n, h - 1), RowAbove(img, n, h - 1), bytewidth, kinds[h - 1])
  {
    hide Filtered, Row, RowAbove;
    var data, front := FilterRows(img, n, bytewidth, kinds, h), FilterRows(img, n, bytewidth, kinds, h - 1);
    var line := Filtered(Row(img, n, h - 1), RowAbove(img, n, h - 1), bytewidth, kinds[h - 1]);
    assert data == front + ([kinds[h - 1]] + line);
    RowIs(front, [kinds[h - 1]] + line, n + 1, h - 1);
  }

  lemma {:induction false} RowIs(front: seq<byte>, row: seq<byte>, n: nat, y: nat)
    requires |front| == Times(y, n) && |row| == n
    ensures Row(front + row, n, y) == row
  {}

  /** Unfiltering an image undoes any row-by-row choice of filters. */
  lemma {:induction false} UnfilterFilteredRows(img: seq<byte>, n: nat, bytewidth: nat, kinds: seq<byte>, h: nat)
    requires Times(h, n) <= |img| && 0 < bytewidth && h <= |kinds|
    ensures UnfilterRows(FilterRows(img, n, bytewidth, kinds, h), n, bytewidth, h) == img[..Times(h, n)]
    decreases h
  {
    hide Unfiltered, Filtered, FilterRows, RowAbove, Row;
    if h > 0 {
      var data, front := FilterRows(img, n, bytewidth, kinds, h), FilterRows(img, n, bytewidth, kinds, h - 1);
      var line, above := Row(img, n, h - 1), RowAbove(img, n, h - 1);
      UnfilterFilteredRows(img, n, bytewidth, kinds, h - 1);
      LastFilteredRow(img, n, bytewidth, kinds, h);
      assert front[..Times(h - 1, n + 1)] == front;
      UnfilterRowsPrefix(data, front, n, bytewidth, h - 1);
      AbovePrefix(img, n, h - 1);
      UnfilterFiltered(line, above, bytewidth, kinds[h - 1]);
      RowAppends(img, n, h - 1);
    }
  }

  lemma {:induction false} RowAppends(img: seq<byte>, n: nat, y: nat)
    requires Times(y, n) + n <= |img|
    ensures img[..Times(y, n)] + Row(img, n, y) == img[..Times(y + 1, n)]
  {}

  lemma {:induction false} AbovePrefix(img: seq<byte>, n: nat, y: nat)
    requires Times(y, n) <= |img|
    ensures RowAbove(img[..Times(y, n)], n, y) == RowAbove(img, n, y)
  {
    if y > 0 {
      var t := Times(y - 1, n);
      assert img[..t + n][t..t + n] == img[t..t + n];
    }
  }

  // ----- unfiltering --------------------------------------------------------------------------

  predicate GoodKinds(data: seq<byte>, n: nat, h: nat)
    requires Times(h, n + 1) <= |data|
    decreases h
  {
    h == 0 || (GoodKinds(data, n, h - 1) && Row(data, n + 1, h - 1)[0] <= 4)
  }

  /** An image on its way from inp[s..] to out[r..]: the data, and what the buffers held before. */
  datatype Move = Move(o0: seq<byte>, i0: seq<byte>, r: nat, s: nat, n: nat, bytewidth: nat, h: nat, same: bool)

  predicate ValidMove(m: Move) {
    && m.r + Times(m.h, m.n) <= |m.o0| && m.s + Times(m.h, m.n + 1) <= |m.i0| && 0 < m.bytewidth
    && (m.same ==> m.r <= m.s && m.o0 == m.i0)
  }

  function Data(m: Move): (d: seq<byte>)
    requires ValidMove(m)
    ensures |d| == Times(m.h, m.n + 1)
  {
    m.i0[m.s..m.s + Times(m.h, m.n + 1)]
  }

  lemma {:induction false} MoveBounds(m: Move, y: nat)
    requires ValidMove(m) && y <= m.h
    ensures m.r + Times(y, m.n) <= |m.o0| && m.s + Times(y, m.n + 1) <= |m.i0| && Times(y, m.n + 1) <= |Data(m)|
    ensures y < m.h ==> m.r + Times(y, m.n) + m.n <= |m.o0| && m.s + Times(y, m.n + 1) + m.n + 1 <= |m.i0|
                        && Times(y + 1, m.n + 1) <= |Data(m)|
    ensures Times(y, m.n) <= Times(y, m.n + 1)
  {
    TimesMonotone(y, m.h, m.n);
    TimesMonotone(y, m.h, m.n + 1);
    TimesLess(y, m.n, m.n + 1);
    if y < m.h {
      TimesNext(y, m.h, m.n);
      TimesNext(y, m.h, m.n + 1);
    }
  }

  /** The buffers after y rows: the rows that are still to be read are intact. */
  predicate Moved(m: Move, o: seq<byte>, i: seq<byte>, y: nat) {
    && ValidMove(m) && y <= m.h && |i| == |m.i0| && m.r + Times(y, m.n) <= |m.o0| && Times(y, m.n + 1) <= |Data(m)|
    && o == Replaced(m.o0, m.r, UnfilterRows(Data(m), m.n, m.bytewidth, y))
    && (forall k :: m.s + Times(y, m.n + 1) <= k < |i| ==> i[k] == m.i0[k])
    && (m.same ==> o == i)
  }

  lemma {:induction false} MovedNone(m: Move)
    requires ValidMove(m)
    ensures Moved(m, m.o0, m.i0, 0)
  {
    ReplacedNothing(m.o0, m.r);
  }

  /** What row y reads: its kind and its filtered bytes. */
  lemma {:induction false} SeesRow(m: Move, o: seq<byte>, i: seq<byte>, y: nat)
    requires Moved(m, o, i, y) && y < m.h
    ensures Times(y + 1, m.n + 1) <= |Data(m)| && m.s + Times(y, m.n + 1) + m.n + 1 <= |i|
    ensures var row, t := Row(Data(m), m.n + 1, y), m.s + Times(y, m.n + 1);
            i[t] == row[0] && i[t + 1..t + 1 + m.n] == row[1..]
  {
    hide UnfilterRows, Replaced;
    MoveBounds(m, y);
    var t := Times(y, m.n + 1);
    var row := Row(Data(m), m.n + 1, y);
    var read := i[m.s + t..m.s + t + m.n + 1];
    forall k | 0 <= k < m.n + 1 ensures read[k] == row[k] {
      assert row[k] == Data(m)[t + k] == m.i0[m.s + t + k] == i[m.s + t + k];
    }
    assert read == row;
  }

  /** The row above row y, where row y looks for it. */
  lemma {:induction false} SeesAbove(m: Move, o: seq<byte>, i: seq<byte>, y: nat)
    requires Moved(m, o, i, y) && 0 < y < m.h
    ensures m.r + Times(y - 1, m.n) + m.n <= |o|
    ensures o[m.r + Times(y - 1, m.n)..m.r + Times(y - 1, m.n) + m.n] == RowAbove(UnfilterRows(Data(m), m.n, m.bytewidth, y), m.n, y)
  {
    hide UnfilterRows, Data;
    PieceOf(m.o0, m.r, UnfilterRows(Data(m), m.n, m.bytewidth, y), Times(y - 1, m.n), m.n);
  }

  lemma {:induction false} PieceOf(before: seq<byte>, at: nat, res: seq<byte>, a: nat, n: nat)
    requires at + |res| <= |before| && a + n <= |res|
    ensures Replaced(before, at, res)[at + a..at + a + n] == res[a..a + n]
  {
    var o := Replaced(before, at, res);
    var x, y := o[at + a..at + a + n], res[a..a + n];
    forall k | 0 <= k < n ensures x[k] == y[k] { assert x[k] == o[at + a + k] == res[a + k]; }
  }

  lemma {:induction false} MovedMore(m: Move, o: seq<byte>, i: seq<byte>, y: nat, o': seq<byte>)
    requires Moved(m, o, i, y) && y < m.h
    requires m.r + Times(y, m.n) + m.n <= |o| && Times(y + 1, m.n + 1) <= |Data(m)|
    requires o' == Replaced(o, m.r + Times(y, m.n), UnfilterRow(Data(m), m.n, m.bytewidth, y))
    ensures Moved(m, o', if m.same then o' else i, y + 1)
  {
    hide UnfilterRow, Data, Replaced;
    MoveBounds(m, y);
    var u, line := UnfilterRows(Data(m), m.n, m.bytewidth, y), UnfilterRow(Data(m), m.n, m.bytewidth, y);
    ReplacedTwice(m.o0, m.r, u, line);
    if m.same { ReplacedBehind(o, m.r + Times(y, m.n), line); }
  }

  lemma {:induction false} ReplacedBehind(before: seq<byte>, at: nat, res: seq<byte>)
    requires at + |res| <= |before|
    ensures forall k :: at + |res| <= k < |before| ==> Replaced(before, at, res)[k] == before[k]
  {}

  /** Unfilters row y. */
  method UnfilterOneRow(out: array<byte>, r: nat, inp: array<byte>, s: nat, n: nat, bytewidth: nat, y: nat, ghost m: Move) returns (error: nat)
    requires Moved(m, out[..], inp[..], y) && y < m.h && m.same == (out == inp)
    requires m.r == r && m.s == s && m.n == n && m.bytewidth == bytewidth <= n
    modifies out
    ensures Times(y + 1, n + 1) <= |Data(m)| && error == if Row(Data(m), n + 1, y)[0] <= 4 then 0 else 36
    ensures error == 0 ==> Moved(m, out[..], inp[..], y + 1)
  {
    hide Unfiltered, Data, UnfilterRows, Replaced;
    ghost var o, i := out[..], inp[..];
    MoveBounds(m, y);
    SeesRow(m, o, i, y);
    var outindex, inindex := r + Times(y, n), s + Times(y, n + 1);
    var kind := inp[inindex];
    if y > 0 { SeesAbove(m, o, i, y); }
    ghost var above := RowAbove(UnfilterRows(Data(m), n, bytewidth, y), n, y);
    assert above == if y > 0 then out[outindex - n..outindex] else Zeros(n);
    assert inp[inindex + 1..inindex + 1 + n] == Row(Data(m), n + 1, y)[1..];
    error := UnfilterScanline(out, outindex, inp, inindex + 1, y > 0, if y > 0 then outindex - n else 0, bytewidth, kind, n);
    if error == 0 { MovedMore(m, o, i, y, out[..]); }
  }

  /** Unfilters an image from inp[s..] to out[r..]; these may overlap in one buffer as long as the
      result does not start behind the input. */
  method Unfilter(out: array<byte>, r: nat, inp: array<byte>, s: nat, n: nat, bytewidth: nat, h: nat) returns (error: nat)
    requires r + Times(h, n) <= out.Length && s + Times(h, n + 1) <= inp.Length && (out == inp ==> r <= s)
    requires 0 < bytewidth && (h > 0 ==> bytewidth <= n)
    modifies out
    ensures error == if GoodKinds(old(inp[s..s + Times(h, n + 1)]), n, h) then 0 else 36
    ensures error == 0 ==> out[..] == Replaced(old(out[..]), r, UnfilterRows(old(inp[s..s + Times(h, n + 1)]), n, bytewidth, h))
  {
    hide Moved, GoodKinds, Replaced, UnfilterRows;
    ghost var m := Move(out[..], inp[..], r, s, n, bytewidth, h, out == inp);
    MovedNone(m);
    NoKinds(Data(m), n);
    var y := 0;
    error := 0;
    while y < h
      invariant 0 <= y <= h && Times(y, n + 1) <= |Data(m)| && GoodKinds(Data(m), n, y) && error == 0
      invariant Moved(m, out[..], inp[..], y)
    {
      error := UnfilterOneRow(out, r, inp, s, n, bytewidth, y, m);
      MoreKinds(Data(m), n, y);
      if error != 0 {
        BadKinds(Data(m), n, y, h);
        return;
      }
      y := y + 1;
    }
    MovedAll(m, out[..], inp[..]);
  }

  lemma {:induction false} MovedAll(m: Move, o: seq<byte>, i: seq<byte>)
    requires Moved(m, o, i, m.h)
    ensures o == Replaced(m.o0, m.r, UnfilterRows(Data(m), m.n, m.bytewidth, m.h))
  {}

  lemma {:induction false} NoKinds(data: seq<byte>, n: nat)
    ensures GoodKinds(data, n, 0)
  {}

  lemma {:induction false} MoreKinds(data: seq<byte>, n: nat, y: nat)
    requires Times(y + 1, n + 1) <= |data| && GoodKinds(data, n, y)
    ensures GoodKinds(data, n, y + 1) == (Row(data, n + 1, y)[0] <= 4)
  {}

  lemma {:induction false} BadKinds(data: seq<byte>, n: nat, y: nat, h: nat)
    requires y < h && Times(h, n + 1) <= |data| && Times(y + 1, n + 1) <= |data| && !GoodKinds(data, n, y + 1)
    ensures !GoodKinds(data, n, h)
    decreases h
  {
    if y + 1 < h {
      TimesNext(h - 1, h, n + 1);
      BadKinds(data, n, y, h - 1);
    }
  }

  // ----- filtering ----------------------------------------------------------------------------

  /** How the filter of each row is chosen: always the same, the one with the smallest sum of absolute
      differences, or as given. */
  datatype Strategy = Fixed(kind: byte) | MinSum | Predefined(kinds: seq<byte>)

  predicate ValidStrategy(t: Strategy, h: nat) {
    match t
    case Fixed(k) => k <= 4
    case MinSum => true
    case Predefined(kinds) => h <= |kinds| && forall y :: 0 <= y < h ==> kinds[y] <= 4
  }

  function Score(kind: nat, line: seq<byte>): (sum: nat)
    decreases |line|
  {
    if line == [] then 0
    else
      var last := line[|line| - 1];
      Score(kind, line[..|line| - 1]) + if kind == 0 || last < 128 then last else 255 - last
  }

  method SumOf(kind: nat, line: seq<byte>) returns (sum: nat)
    ensures sum == Score(kind, line)
  {
    sum := 0;
    var x := 0;
    while x != |line|
      invariant 0 <= x <= |line| && sum == Score(kind, line[..x])
    {
      assert line[..x + 1][..x] == line[..x];
      sum := sum + if kind == 0 || line[x] < 128 then line[x] else 255 - line[x];
      x := x + 1;
    }
    assert line[..x] == line;
  }

  /** No filter scores better on this row, and no earlier one as well. */
  ghost predicate Best(line: seq<byte>, prev: seq<byte>, bytewidth: nat, kind: nat)
    requires |prev| == |line| && 0 < bytewidth
  {
    kind <= 4 && forall k :: 0 <= k <= 4 ==>
      var mine, other := Score(kind, Filtered(line, prev, bytewidth, kind)), Score(k, Filtered(line, prev, bytewidth, k));
      mine <= other && (k < kind ==> mine < other)
  }

  /** Every row has the best filter. */
  ghost predicate BestRows(img: seq<byte>, n: nat, bytewidth: nat, kinds: seq<byte>, h: nat)
    requires Times(h, n) <= |img| && 0 < bytewidth && h <= |kinds|
    decreases h
  {
    h == 0 || (BestRows(img, n, bytewidth, kinds, h - 1) && Best(Row(img, n, h - 1), RowAbove(img, n, h - 1), bytewidth, kinds[h - 1]))
  }

  lemma {:induction false} BestRowsPrefix(img: seq<byte>, n: nat, bytewidth: nat, a: seq<byte>, b: seq<byte>, y: nat)
    requires Times(y, n) <= |img| && 0 < bytewidth && y <= |a| && y <= |b| && a[..y] == b[..y]
    requires BestRows(img, n, bytewidth, a, y)
    ensures BestRows(img, n, bytewidth, b, y)
    decreases y
  {
    hide Best, Row, RowAbove;
    if y > 0 {
      assert a[..y - 1] == a[..y][..y - 1] && b[..y - 1] == b[..y][..y - 1];
      assert a[y - 1] == a[..y][y - 1] && b[y - 1] == b[..y][y - 1];
      BestRowsPrefix(img, n, bytewidth, a, b, y - 1);
    }
  }

  lemma {:induction false} BestRowsMore(img: seq<byte>, n: nat, bytewidth: nat, kinds: seq<byte>, y: nat, kind: byte)
    requires Times(y + 1, n) <= |img| && Times(y, n) + n <= |img| && 0 < bytewidth && |kinds| == y
    requires BestRows(img, n, bytewidth, kinds, y) && Best(Row(img, n, y), RowAbove(img, n, y), bytewidth, kind)
    ensures BestRows(img, n, bytewidth, kinds + [kind], y + 1)
  {
    hide Best, Row, RowAbove;
    BestRowsPrefix(img, n, bytewidth, kinds, kinds + [kind], y);
  }

  lemma {:induction false} NoBestRows(img: seq<byte>, n: nat, bytewidth: nat, kinds: seq<byte>)
    requires 0 < bytewidth
    ensures BestRows(img, n, bytewidth, kinds, 0)
  {}

  /** Tries all five filters on a row. */
  method BestFilter(line: seq<byte>, prev: seq<byte>, hasPrev: bool, bytewidth: nat) returns (bestKind: byte, best: seq<byte>)
    requires 0 < bytewidth <= |line| && |prev| == |line| && (!hasPrev ==> prev == Zeros(|line|))
    ensures Best(line, prev, bytewidth, bestKind) && best == Filtered(line, prev, bytewidth, bestKind)
  {
    hide Filtered, Score;
    bestKind := 0;
    var smallest := 0;
    var kind := 0;
    best := line;
    while kind != 5
      invariant 0 <= kind <= 5 && (kind > 0 ==> bestKind < kind)
      invariant kind > 0 ==> best == Filtered(line, prev, bytewidth, bestKind) && smallest == Score(bestKind, best)
      invariant forall k :: 0 <= k < kind ==>
                  var other := Score(k, Filtered(line, prev, bytewidth, k)); smallest <= other && (k < bestKind ==> smallest < other)
    {
      var attempt := new byte[|line|];
      FilterScanline(attempt, 0, line, prev, hasPrev, bytewidth, kind);
      ReplacedWhole(attempt[..], Filtered(line, prev, bytewidth, kind));
      var sum := SumOf(kind, attempt[..]);
      if kind == 0 || sum < smallest {
        bestKind := kind;
        smallest := sum;
        best := attempt[..];
      }
      kind := kind + 1;
    }
  }

  lemma {:induction false} ReplacedWhole(o: seq<byte>, res: seq<byte>)
    ensures forall before: seq<byte> :: |before| == |res| && o == Replaced(before, 0, res) ==> o == res
  {}

  /** Stores the kind of a row and its filtered bytes. */
  method FilterOneRow(out: array<byte>, at: nat, line: seq<byte>, prev: seq<byte>, hasPrev: bool, bytewidth: nat, t: Strategy, y: nat)
    returns (kind: byte)
    requires at + 1 + |line| <= out.Length && 0 < bytewidth <= |line| && ValidStrategy(t, y + 1)
    requires |prev| == |line| && (!hasPrev ==> prev == Zeros(|line|))
    modifies out
    ensures kind <= 4 && out[..] == Replaced(old(out[..]), at, [kind] + Filtered(line, prev, bytewidth, kind))
    ensures match t case Fixed(k) => kind == k case MinSum => Best(line, prev, bytewidth, kind) case Predefined(ks) => kind == ks[y]
  {
    hide Filtered, Best, Overwritten;
    ghost var before := out[..];
    if t.MinSum? {
      var best;
      kind, best := BestFilter(line, prev, hasPrev, bytewidth);
      BestBound(line, prev, bytewidth, kind);
      out[at] := kind;
      PutOne(before, at, kind);
      ghost var mid := out[..];
      assert mid == before[at := kind];
      NothingOverwritten(mid, at + 1, best);
      var x := 0;
      while x != |line|
        invariant 0 <= x <= |line| && Overwritten(out[..], mid, at + 1, best, x)
      {
        ghost var o := out[..];
        OverwrittenMore(o, mid, at + 1, best, x);
        out[at + 1 + x] := best[x];
        assert out[..] == o[at + 1 + x := best[x]];
        x := x + 1;
      }
      OverwrittenAll(out[..], mid, at + 1, best);
    } else {
      kind := if t.Fixed? then t.kind else t.kinds[y];
      out[at] := kind;
      PutOne(before, at, kind);
      assert out[..] == before[at := kind];
      FilterScanline(out, at + 1, line, prev, hasPrev, bytewidth, kind);
    }
    ReplacedTwice(before, at, [kind], Filtered(line, prev, bytewidth, kind));
  }

  lemma {:induction false} BestBound(line: seq<byte>, prev: seq<byte>, bytewidth: nat, kind: nat)
    requires |prev| == |line| && 0 < bytewidth && Best(line, prev, bytewidth, kind)
    ensures kind <= 4
  {}

  lemma {:induction false} PutOne(before: seq<byte>, at: nat, v: byte)
    requires at < |before|
    ensures before[at := v] == Replaced(before, at, [v])
  {}

  /** The filters are those that the strategy asks for. */
  ghost predicate ByStrategy(t: Strategy, img: seq<byte>, n: nat, bytewidth: nat, kinds: seq<byte>, h: nat)
    requires Times(h, n) <= |img| && 0 < bytewidth
  {
    && |kinds| == h && (forall y :: 0 <= y < h ==> kinds[y] <= 4)
    && match t
       case Fixed(k) => forall y :: 0 <= y < h ==> kinds[y] == k
       case Predefined(ks) => h <= |ks| && forall y :: 0 <= y < h ==> kinds[y] == ks[y]
       case MinSum => BestRows(img, n, bytewidth, kinds, h)
  }

  /** Every filtered row begins with the byte that names its filter. */
  lemma {:induction false} RowNamed(img: seq<byte>, n: nat, bytewidth: nat, kinds: seq<byte>, h: nat, y: nat)
    requires y < h && Times(h, n) <= |img| && 0 < bytewidth && h <= |kinds|
    ensures Times(y + 1, n + 1) <= Times(h, n + 1) && Row(FilterRows(img, n, bytewidth, kinds, h), n + 1, y)[0] == kinds[y]
    decreases h
  {
    hide Filtered, RowAbove, FilterRows;
    TimesNext(y, h, n + 1);
    LastFilteredRow(img, n, bytewidth, kinds, h);
    if y < h - 1 {
      var data, front := FilterRows(img, n, bytewidth, kinds, h), FilterRows(img, n, bytewidth, kinds, h - 1);
      RowNamed(img, n, bytewidth, kinds, h - 1, y);
      assert data[..Times(h - 1, n + 1)] == front;
      assert data[Times(y, n + 1)] == front[Times(y, n + 1)];
    }
  }

  /** Filters an image into out[at..]. */
  method FilterWith(out: array<byte>, at: nat, img: seq<byte>, n: nat, bytewidth: nat, h: nat, t: Strategy) returns (ghost kinds: seq<byte>)
    requires at + Times(h, n + 1) <= out.Length && Times(h, n) <= |img| && ValidStrategy(t, h)
    requires 0 < bytewidth && (h > 0 ==> bytewidth <= n)
    modifies out
    ensures ByStrategy(t, img, n, bytewidth, kinds, h)
    ensures out[..] == Replaced(old(out[..]), at, FilterRows(img, n, bytewidth, kinds, h))
  {
    hide Filtered, Replaced, Best, Row, RowAbove, FilterRows, BestRows;
    kinds := [];
    ghost var before := out[..];
    var y := 0;
    ReplacedNothing(before, at);
    NoRows(img, n, bytewidth, kinds);
    NoBestRows(img, n, bytewidth, kinds);
    while y != h
      invariant 0 <= y <= h && |kinds| == y && Times(y, n) <= |img| && at + Times(y, n + 1) <= |before| == out.Length
      invariant forall k :: 0 <= k < y ==> kinds[k] <= 4
      invariant t.Fixed? ==> forall k :: 0 <= k < y ==> kinds[k] == t.kind
      invariant t.Predefined? ==> forall k :: 0 <= k < y ==> kinds[k] == t.kinds[k]
      invariant t.MinSum? ==> BestRows(img, n, bytewidth, kinds, y)
      invariant out[..] == Replaced(before, at, FilterRows(img, n, bytewidth, kinds, y))
    {
      TimesNext(y, h, n);
      TimesNext(y, h, n + 1);
      var line, prev := Row(img, n, y), RowAbove(img, n, y);
      ZerosAbove(img, n, y);
      Shorter(t, y + 1, h);
      var kind := FilterOneRow(out, at + Times(y, n + 1), line, prev, y > 0, bytewidth, t, y);
      MoreRows(img, n, bytewidth, kinds, y, kind);
      if t.MinSum? { BestRowsMore(img, n, bytewidth, kinds, y, kind); }
      ReplacedTwice(before, at, FilterRows(img, n, bytewidth, kinds, y), [kind] + Filtered(line, prev, bytewidth, kind));
      kinds := kinds + [kind];
      y := y + 1;
    }
  }

  lemma {:induction false} Shorter(t: Strategy, y: nat, h: nat)
    requires ValidStrategy(t, h) && y <= h
    ensures ValidStrategy(t, y)
  {}

  lemma {:induction false} ZerosAbove(img: seq<byte>, n: nat, y: nat)
    requires Times(y, n) <= |img|
    ensures y == 0 ==> RowAbove(img, n, y) == Zeros(n)
  {}

  lemma {:induction false} NoRows(img: seq<byte>, n: nat, bytewidth: nat, kinds: seq<byte>)
    requires 0 < bytewidth
    ensures FilterRows(img, n, bytewidth, kinds, 0) == []
  {}

  lemma {:induction false} MoreRows(img: seq<byte>, n: nat, bytewidth: nat, kinds: seq<byte>, y: nat, kind: byte)
    requires Times(y + 1, n) <= |img| && Times(y, n) + n <= |img| && 0 < bytewidth && |kinds| == y
    ensures FilterRows(img, n, bytewidth, kinds + [kind], y + 1)
         == FilterRows(img, n, bytewidth, kinds, y) + ([kind] + Filtered(Row(img, n, y), RowAbove(img, n, y), bytewidth, kind))
  {
    hide Filtered, Row, RowAbove;
    KindsPrefix(img, n, bytewidth, kinds + [kind], kinds, y);
  }

  lemma {:induction false} KindsPrefix(img: seq<byte>, n: nat, bytewidth: nat, a: seq<byte>, b: seq<byte>, y: nat)
    requires Times(y, n) <= |img| && 0 < bytewidth && y <= |a| && y <= |b| && a[..y] == b[..y]
    ensures FilterRows(img, n, bytewidth, a, y) == FilterRows(img, n, bytewidth, b, y)
    decreases y
  {
    hide Filtered, Row, RowAbove;
    if y > 0 {
      assert a[..y - 1] == a[..y][..y - 1] && b[..y - 1] == b[..y][..y - 1];
      assert a[y - 1] == a[..y][y - 1] && b[y - 1] == b[..y][y - 1];
      KindsPrefix(img, n, bytewidth, a, b, y - 1);
    }
  }
}
