/** PNG scanline filters (PNG, second edition, section 9) and their removal, also in place. */
module Filter {
  import opened Bits
  import opened Buffers

  // ----- predictors ---------------------------------------------------------------------------

  function Abs(x: int): (r: nat) { if x < 0 then -x else x }

  /** The Paeth predictor as the code computes it. */
  function PaethPredictor(a: byte, b: byte, c: byte): (r: byte)
  {
    var pa, pb, pc := Abs(b - c), Abs(a - c), Abs(a + b - c - c);
    var a', pa' := if pb < pa then b else a, if pb < pa then pb else pa;
    if pc < pa' then c else a'
  }

  /** The Paeth predictor of section 9.4: the neighbour closest to a + b - c, in the order a, b, c. */
  function Paeth(a: byte, b: byte, c: byte): (r: byte)
  {
    var p := a as int + b as int - c as int;
    var pa, pb, pc := Abs(p - a), Abs(p - b), Abs(p - c);
    if pa <= pb && pa <= pc then a else if pb <= pc then b else c
  }

  lemma {:induction false} PaethPredictorIsPaeth(a: byte, b: byte, c: byte)
    ensures PaethPredictor(a, b, c) == Paeth(a, b, c)
    ensures Paeth(0, b, 0) == b && Paeth(a, 0, 0) == a
  {}

  /** What filter `kind` predicts from the byte to the left, above, and above to the left. */
  function Predict(kind: nat, a: byte, b: byte, c: byte): (r: byte)
  {
    if kind == 1 then a
    else if kind == 2 then b
    else if kind == 3 then (a as nat + b as nat) / 2
    else if kind == 4 then Paeth(a, b, c)
    else 0
  }

  function Left(line: seq<byte>, i: nat, bytewidth: nat): (r: byte)
    requires i < |line| + bytewidth
  {
    if i < bytewidth then 0 else line[i - bytewidth]
  }

  function Zeros(n: nat): (z: seq<byte>)
    ensures |z| == n && forall i :: 0 <= i < n ==> z[i] == 0
  {
    seq(n, _ => 0)
  }

  // ----- scanlines ----------------------------------------------------------------------------

  /** One byte of a filtered scanline. */
  function FilterByte(line: seq<byte>, prev: seq<byte>, bytewidth: nat, kind: nat, i: nat): (r: byte)
    requires |prev| == |line| && 0 < bytewidth && i < |line|
  {
    (line[i] - Predict(kind, Left(line, i, bytewidth), prev[i], Left(prev, i, bytewidth))) % 256
  }

  function Filtered(line: seq<byte>, prev: seq<byte>, bytewidth: nat, kind: nat): (r: seq<byte>)
    requires |prev| == |line| && 0 < bytewidth
    ensures |r| == |line| && forall i :: 0 <= i < |line| ==> r[i] == FilterByte(line, prev, bytewidth, kind, i)
  {
    seq(|line|, i requires 0 <= i < |line| => FilterByte(line, prev, bytewidth, kind, i))
  }

  /** The first n bytes of the scanline, each from the bytes before it. */
  function UnfilterPrefix(scan: seq<byte>, prev: seq<byte>, bytewidth: nat, kind: nat, n: nat): (r: seq<byte>)
    requires |prev| == |scan| && 0 < bytewidth && n <= |scan|
    ensures |r| == n
    decreases n
  {
    if n == 0 then []
    else
      var r := UnfilterPrefix(scan, prev, bytewidth, kind, n - 1);
      r + [UnfilterByte(scan, r, prev, bytewidth, kind, n - 1)]
  }

  function UnfilterByte(scan: seq<byte>, line: seq<byte>, prev: seq<byte>, bytewidth: nat, kind: nat, i: nat): (r: byte)
    requires |prev| == |scan| && 0 < bytewidth && i < |scan| && i <= |line|
  {
    (scan[i] as nat + Predict(kind, Left(line, i, bytewidth), prev[i], Left(prev, i, bytewidth)) as nat) % 256
  }

  function Unfiltered(scan: seq<byte>, prev: seq<byte>, bytewidth: nat, kind: nat): (r: seq<byte>)
    requires |prev| == |scan| && 0 < bytewidth
    ensures |r| == |scan|
  {
    UnfilterPrefix(scan, prev, bytewidth, kind, |scan|)
  }

  lemma {:induction false} PrefixOf(scan: seq<byte>, prev: seq<byte>, bytewidth: nat, kind: nat, n: nat, m: nat)
    requires |prev| == |scan| && 0 < bytewidth && n <= m <= |scan|
    ensures UnfilterPrefix(scan, prev, bytewidth, kind, m)[..n] == UnfilterPrefix(scan, prev, bytewidth, kind, n)
    decreases m
  {
    hide UnfilterByte;
    if n < m { PrefixOf(scan, prev, bytewidth, kind, n, m - 1); }
  }

  /** Each byte follows from the bytes of the whole result. */
  lemma {:induction false} UnfilteredAt(scan: seq<byte>, prev: seq<byte>, bytewidth: nat, kind: nat, i: nat)
    requires |prev| == |scan| && 0 < bytewidth && i < |scan|
    ensures var r := Unfiltered(scan, prev, bytewidth, kind);
            r[i] == UnfilterByte(scan, r, prev, bytewidth, kind, i)
  {
    hide Predict;
    PrefixOf(scan, prev, bytewidth, kind, i + 1, |scan|);
    PrefixOf(scan, prev, bytewidth, kind, i, |scan|);
    var r, p := Unfiltered(scan, prev, bytewidth, kind), UnfilterPrefix(scan, prev, bytewidth, kind, i);
    assert r[i] == r[..i + 1][i] && p == r[..i];
  }

  /** Unfiltering undoes filtering, for every filter kind. */
  lemma {:induction false} UnfilterFiltered(line: seq<byte>, prev: seq<byte>, bytewidth: nat, kind: nat)
    requires |prev| == |line| && 0 < bytewidth
    ensures Unfiltered(Filtered(line, prev, bytewidth, kind), prev, bytewidth, kind) == line
  {
    PrefixFiltered(line, prev, bytewidth, kind, |line|);
  }

  lemma {:induction false} PrefixFiltered(line: seq<byte>, prev: seq<byte>, bytewidth: nat, kind: nat, n: nat)
    requires |prev| == |line| && 0 < bytewidth && n <= |line|
    ensures UnfilterPrefix(Filtered(line, prev, bytewidth, kind), prev, bytewidth, kind, n) == line[..n]
    decreases n
  {
    hide Predict;
    if n > 0 {
      PrefixFiltered(line, prev, bytewidth, kind, n - 1);
      var scan := Filtered(line, prev, bytewidth, kind);
      assert Left(line[..n - 1], n - 1, bytewidth) == Left(line, n - 1, bytewidth);
      AddSubtract(line[n - 1], Predict(kind, Left(line, n - 1, bytewidth), prev[n - 1], Left(prev, n - 1, bytewidth)));
      assert scan[n - 1] == FilterByte(line, prev, bytewidth, kind, n - 1);
    }
  }

  lemma {:induction false} AddSubtract(x: byte, p: byte)
    ensures ((x - p) % 256 + p as int) % 256 == x
  {}

  // ----- filtering a scanline -----------------------------------------------------------------

  /** Stores the difference from a prediction. */
  method PutDifference(out: array<byte>, at: nat, line: seq<byte>, i: nat, p: byte, ghost before: seq<byte>, ghost res: seq<byte>)
    requires i < |line| == |res| && Overwritten(out[..], before, at, res, i)
    requires res[i] == (line[i] - p) % 256
    modifies out
    ensures Overwritten(out[..], before, at, res, i + 1)
  {
    ghost var o := out[..];
    out[at + i] := (line[i] - p) % 256;
    OverwrittenMore(o, before, at, res, i);
    assert out[..] == o[at + i := res[i]];
  }

  lemma {:induction false} FilteredIs(line: seq<byte>, prev: seq<byte>, bytewidth: nat, kind: nat, i: nat, p: byte)
    requires |prev| == |line| && 0 < bytewidth && i < |line|
    requires p == Predict(kind, Left(line, i, bytewidth), prev[i], Left(prev, i, bytewidth))
    ensures Filtered(line, prev, bytewidth, kind)[i] == (line[i] - p) % 256
  {
    hide Predict;
  }

  /** Filters one line into out[at..]; without a line above, `prev` is all zeros. */
  method FilterScanline(out: array<byte>, at: nat, line: seq<byte>, prev: seq<byte>, hasPrev: bool, bytewidth: nat, kind: nat)
    requires at + |line| <= out.Length && 0 < bytewidth <= |line|
    requires |prev| == |line| && (!hasPrev ==> prev == Zeros(|line|)) && kind <= 4
    modifies out
    ensures out[..] == Replaced(old(out[..]), at, Filtered(line, prev, bytewidth, kind))
  {
    hide Filtered, Overwritten, Predict;
    ghost var before, res := out[..], Filtered(line, prev, bytewidth, kind);
    NothingOverwritten(before, at, res);
    if kind == 0 {
      FilterNone(out, at, line, prev, bytewidth, before);
    } else if kind == 1 {
      FilterSub(out, at, line, prev, bytewidth, before);
    } else if kind == 2 {
      FilterUp(out, at, line, prev, hasPrev, bytewidth, before);
    } else if kind == 3 {
      FilterAverage(out, at, line, prev, hasPrev, bytewidth, before);
    } else {
      FilterPaeth(out, at, line, prev, hasPrev, bytewidth, before);
    }
    OverwrittenAll(out[..], before, at, res);
  }

  method FilterNone(out: array<byte>, at: nat, line: seq<byte>, prev: seq<byte>, bytewidth: nat, ghost before: seq<byte>)
    requires |prev| == |line| && 0 < bytewidth <= |line|
    requires Overwritten(out[..], before, at, Filtered(line, prev, bytewidth, 0), 0)
    modifies out
    ensures Overwritten(out[..], before, at, Filtered(line, prev, bytewidth, 0), |line|)
  {
    hide Filtered, Overwritten, Paeth, PaethPredictor;
    ghost var res := Filtered(line, prev, bytewidth, 0);
    var i := 0;
    while i != |line|
      invariant 0 <= i <= |line| && Overwritten(out[..], before, at, res, i)
    {
      FilteredIs(line, prev, bytewidth, 0, i, 0);
      PutDifference(out, at, line, i, 0, before, res);
      i := i + 1;
    }
  }

  method FilterSub(out: array<byte>, at: nat, line: seq<byte>, prev: seq<byte>, bytewidth: nat, ghost before: seq<byte>)
    requires |prev| == |line| && 0 < bytewidth <= |line|
    requires Overwritten(out[..], before, at, Filtered(line, prev, bytewidth, 1), 0)
    modifies out
    ensures Overwritten(out[..], before, at, Filtered(line, prev, bytewidth, 1), |line|)
  {
    hide Filtered, Overwritten, Paeth, PaethPredictor;
    ghost var res := Filtered(line, prev, bytewidth, 1);
    var i := 0;
    while i != bytewidth
      invariant 0 <= i <= bytewidth && Overwritten(out[..], before, at, res, i)
    {
      FilteredIs(line, prev, bytewidth, 1, i, 0);
      PutDifference(out, at, line, i, 0, before, res);
      i := i + 1;
    }
    while i < |line|
      invariant bytewidth <= i <= |line| && Overwritten(out[..], before, at, res, i)
    {
      FilteredIs(line, prev, bytewidth, 1, i, line[i - bytewidth]);
      PutDifference(out, at, line, i, line[i - bytewidth], before, res);
      i := i + 1;
    }
  }

  method FilterUp(out: array<byte>, at: nat, line: seq<byte>, prev: seq<byte>, hasPrev: bool, bytewidth: nat, ghost before: seq<byte>)
    requires |prev| == |line| && 0 < bytewidth <= |line|
    requires Overwritten(out[..], before, at, Filtered(line, prev, bytewidth, 2), 0)
    requires !hasPrev ==> prev == Zeros(|line|)
    modifies out
    ensures Overwritten(out[..], before, at, Filtered(line, prev, bytewidth, 2), |line|)
  {
    hide Filtered, Overwritten, Paeth, PaethPredictor;
    ghost var res := Filtered(line, prev, bytewidth, 2);
    var i := 0;
    if hasPrev {
      while i != |line|
        invariant 0 <= i <= |line| && Overwritten(out[..], before, at, res, i)
      {
        FilteredIs(line, prev, bytewidth, 2, i, prev[i]);
        PutDifference(out, at, line, i, prev[i], before, res);
        i := i + 1;
      }
    } else {
      while i != |line|
        invariant 0 <= i <= |line| && Overwritten(out[..], before, at, res, i)
      {
        FilteredIs(line, prev, bytewidth, 2, i, 0);
        PutDifference(out, at, line, i, 0, before, res);
        i := i + 1;
      }
    }
  }

  method FilterAverage(out: array<byte>, at: nat, line: seq<byte>, prev: seq<byte>, hasPrev: bool, bytewidth: nat, ghost before: seq<byte>)
    requires |prev| == |line| && 0 < bytewidth <= |line|
    requires Overwritten(out[..], before, at, Filtered(line, prev, bytewidth, 3), 0)
    requires !hasPrev ==> prev == Zeros(|line|)
    modifies out
    ensures Overwritten(out[..], before, at, Filtered(line, prev, bytewidth, 3), |line|)
  {
    hide Filtered, Overwritten, Paeth, PaethPredictor;
    ghost var res := Filtered(line, prev, bytewidth, 3);
    var i := 0;
    if hasPrev {
      while i != bytewidth
        invariant 0 <= i <= bytewidth && Overwritten(out[..], before, at, res, i)
      {
        FilteredIs(line, prev, bytewidth, 3, i, prev[i] / 2);
        PutDifference(out, at, line, i, prev[i] / 2, before, res);
        i := i + 1;
      }
      while i < |line|
        invariant bytewidth <= i <= |line| && Overwritten(out[..], before, at, res, i)
      {
        FilteredIs(line, prev, bytewidth, 3, i, (line[i - bytewidth] as nat + prev[i] as nat) / 2);
        PutDifference(out, at, line, i, (line[i - bytewidth] as nat + prev[i] as nat) / 2, before, res);
        i := i + 1;
      }
    } else {
      while i != bytewidth
        invariant 0 <= i <= bytewidth && Overwritten(out[..], before, at, res, i)
      {
        FilteredIs(line, prev, bytewidth, 3, i, 0);
        PutDifference(out, at, line, i, 0, before, res);
        i := i + 1;
      }
      while i < |line|
        invariant bytewidth <= i <= |line| && Overwritten(out[..], before, at, res, i)
      {
        FilteredIs(line, prev, bytewidth, 3, i, line[i - bytewidth] / 2);
        PutDifference(out, at, line, i, line[i - bytewidth] / 2, before, res);
        i := i + 1;
      }
    }
  }

  method FilterPaeth(out: array<byte>, at: nat, line: seq<byte>, prev: seq<byte>, hasPrev: bool, bytewidth: nat, ghost before: seq<byte>)
    requires |prev| == |line| && 0 < bytewidth <= |line|
    requires Overwritten(out[..], before, at, Filtered(line, prev, bytewidth, 4), 0)
    requires !hasPrev ==> prev == Zeros(|line|)
    modifies out
    ensures Overwritten(out[..], before, at, Filtered(line, prev, bytewidth, 4), |line|)
  {
    hide Filtered, Overwritten, Paeth, PaethPredictor;
    ghost var res := Filtered(line, prev, bytewidth, 4);
    var i := 0;
    if hasPrev {
      while i != bytewidth
        invariant 0 <= i <= bytewidth && Overwritten(out[..], before, at, res, i)
      {
        PaethPredictorIsPaeth(0, prev[i], 0);
        FilteredIs(line, prev, bytewidth, 4, i, prev[i]);
        PutDifference(out, at, line, i, prev[i], before, res);
        i := i + 1;
      }
      while i < |line|
        invariant bytewidth <= i <= |line| && Overwritten(out[..], before, at, res, i)
      {
        PaethPredictorIsPaeth(line[i - bytewidth], prev[i], prev[i - bytewidth]);
        FilteredIs(line, prev, bytewidth, 4, i, PaethPredictor(line[i - bytewidth], prev[i], prev[i - bytewidth]));
        PutDifference(out, at, line, i, PaethPredictor(line[i - bytewidth], prev[i], prev[i - bytewidth]), before, res);
        i := i + 1;
      }
    } else {
      while i != bytewidth
        invariant 0 <= i <= bytewidth && Overwritten(out[..], before, at, res, i)
      {
        PaethPredictorIsPaeth(0, 0, 0);
        FilteredIs(line, prev, bytewidth, 4, i, 0);
        PutDifference(out, at, line, i, 0, before, res);
        i := i + 1;
      }
      while i < |line|
        invariant bytewidth <= i <= |line| && Overwritten(out[..], before, at, res, i)
      {
        PaethPredictorIsPaeth(line[i - bytewidth], 0, 0);
        FilteredIs(line, prev, bytewidth, 4, i, line[i - bytewidth]);
        PutDifference(out, at, line, i, line[i - bytewidth], before, res);
        i := i + 1;
      }
    }
  }

  // ----- unfiltering a scanline ---------------------------------------------------------------

  /** Unfiltering in[s..s + length] to out[r..r + length], where out and in held o0 and i0. The line
      above, if there is one, is out[p..p + length]. Both may be the same buffer. */
  datatype Job = Job(o0: seq<byte>, i0: seq<byte>, r: nat, s: nat, length: nat, hasPrev: bool, p: nat, bytewidth: nat,
                     kind: nat, same: bool)

  predicate ValidJob(j: Job) {
    && j.r + j.length <= |j.o0| && j.s + j.length <= |j.i0| && 0 < j.bytewidth <= j.length
    && (j.hasPrev ==> j.p + j.length <= j.r) && (j.same ==> j.r <= j.s && j.o0 == j.i0)
  }

  function Scan(j: Job): (l: seq<byte>)
    requires ValidJob(j)
    ensures |l| == j.length
  {
    j.i0[j.s..j.s + j.length]
  }

  function Above(j: Job): (l: seq<byte>)
    requires ValidJob(j)
    ensures |l| == j.length
  {
    if j.hasPrev then j.o0[j.p..j.p + j.length] else Zeros(j.length)
  }

  function Result(j: Job): (l: seq<byte>)
    requires ValidJob(j)
    ensures |l| == j.length
  {
    Unfiltered(Scan(j), Above(j), j.bytewidth, j.kind)
  }

  /** The buffers after n bytes: the input that is still to be read is intact. */
  predicate Reached(j: Job, o: seq<byte>, i: seq<byte>, n: nat)
    requires ValidJob(j)
  {
    && Overwritten(o, j.o0, j.r, Result(j), n) && |i| == |j.i0|
    && (forall k :: j.s + n <= k < |i| ==> i[k] == j.i0[k])
    && (j.same ==> o == i)
  }

  lemma {:induction false} ReachedNothing(j: Job)
    requires ValidJob(j)
    ensures Reached(j, j.o0, j.i0, 0)
  {
    hide Unfiltered;
  }

  /** What the buffers hold for the next byte: the input, the byte to the left, the line above. */
  lemma {:induction false} Sees(j: Job, o: seq<byte>, i: seq<byte>, n: nat, k: nat)
    requires ValidJob(j) && Reached(j, o, i, n) && n <= k < j.length
    ensures i[j.s + k] == Scan(j)[k]
    ensures j.bytewidth <= k < n + j.bytewidth ==> o[j.r + k - j.bytewidth] == Result(j)[k - j.bytewidth]
    ensures j.hasPrev ==> o[j.p + k] == Above(j)[k] && (j.bytewidth <= k ==> o[j.p + k - j.bytewidth] == Above(j)[k - j.bytewidth])
    ensures !j.hasPrev ==> Above(j)[k] == 0 && (j.bytewidth <= k ==> Above(j)[k - j.bytewidth] == 0)
  {
    hide Unfiltered;
  }

  lemma {:induction false} ReachedMore(j: Job, o: seq<byte>, i: seq<byte>, n: nat)
    requires ValidJob(j) && Reached(j, o, i, n) && n < j.length
    ensures var o' := o[j.r + n := Result(j)[n]];
            Reached(j, o', if j.same then o' else i, n + 1)
  {
    hide Unfiltered;
    OverwrittenMore(o, j.o0, j.r, Result(j), n);
  }

  lemma {:induction false} ResultIs(j: Job, k: nat)
    requires ValidJob(j) && k < j.length
    ensures Result(j)[k]
         == (Scan(j)[k] as nat + Predict(j.kind, Left(Result(j), k, j.bytewidth), Above(j)[k], Left(Above(j), k, j.bytewidth)) as nat) % 256
  {
    hide Unfiltered, Predict;
    UnfilteredAt(Scan(j), Above(j), j.bytewidth, j.kind, k);
  }

  /** The buffers hold what the job says. */
  ghost predicate Holds(j: Job, out: array<byte>, inp: array<byte>, n: nat)
    reads out, inp
  {
    ValidJob(j) && Reached(j, out[..], inp[..], n) && j.same == (out == inp)
  }

  /** Stores one byte, the n-th, from the filtered byte v and its prediction. */
  method PutSum(out: array<byte>, inp: array<byte>, n: nat, v: byte, x: byte, at: nat, ghost j: Job)
    requires Holds(j, out, inp, n) && n < j.length && at == j.r + n && v == Scan(j)[n]
    requires x == Predict(j.kind, Left(Result(j), n, j.bytewidth), Above(j)[n], Left(Above(j), n, j.bytewidth))
    modifies out
    ensures Holds(j, out, inp, n + 1)
  {
    hide Reached, Predict, Result, Scan, Above;
    ghost var o, i := out[..], inp[..];
    Bounds(j, o, i, n);
    ResultIs(j, n);
    ReachedMore(j, o, i, n);
    out[at] := (v as nat + x as nat) % 256;
    assert out[..] == o[at := Result(j)[n]];
    assert !j.same ==> inp[..] == i;
  }

  lemma {:induction false} Bounds(j: Job, o: seq<byte>, i: seq<byte>, n: nat)
    requires ValidJob(j) && Reached(j, o, i, n)
    ensures |o| == |j.o0| && |i| == |j.i0|
  {}

  method UnfilterNone(out: array<byte>, r: nat, inp: array<byte>, s: nat, bytewidth: nat, length: nat, ghost j: Job)
    requires Holds(j, out, inp, 0) && j.kind == 0
    requires j.r == r && j.s == s && j.bytewidth == bytewidth && j.length == length
    modifies out
    ensures Holds(j, out, inp, length)
  {
    hide Reached, Result, Scan, Above, Paeth, PaethPredictor;
    var i := 0;
    Bounds(j, out[..], inp[..], 0);
    while i != length
      invariant 0 <= i <= length && Holds(j, out, inp, i)
    {
      Sees(j, out[..], inp[..], i, i);
      PutSum(out, inp, i, inp[s + i], 0, r + i, j);
      i := i + 1;
    }
  }

  method UnfilterSub(out: array<byte>, r: nat, inp: array<byte>, s: nat, bytewidth: nat, length: nat, ghost j: Job)
    requires Holds(j, out, inp, 0) && j.kind == 1
    requires j.r == r && j.s == s && j.bytewidth == bytewidth && j.length == length
    modifies out
    ensures Holds(j, out, inp, length)
  {
    hide Reached, Result, Scan, Above, Paeth, PaethPredictor;
    var i := 0;
    Bounds(j, out[..], inp[..], 0);
    while i != bytewidth
      invariant 0 <= i <= bytewidth && Holds(j, out, inp, i)
    {
      Sees(j, out[..], inp[..], i, i);
      PutSum(out, inp, i, inp[s + i], 0, r + i, j);
      i := i + 1;
    }
    while i < length
      invariant bytewidth <= i <= length && Holds(j, out, inp, i)
    {
      Sees(j, out[..], inp[..], i, i);
      PutSum(out, inp, i, inp[s + i], out[r + i - bytewidth], r + i, j);
      i := i + 1;
    }
  }

  method UnfilterUp(out: array<byte>, r: nat, inp: array<byte>, s: nat, hasPrev: bool, p: nat, bytewidth: nat, length: nat, ghost j: Job)
    requires Holds(j, out, inp, 0) && j.kind == 2
    requires j.r == r && j.s == s && j.bytewidth == bytewidth && j.length == length && j.hasPrev == hasPrev && j.p == p
    modifies out
    ensures Holds(j, out, inp, length)
  {
    hide Reached, Result, Scan, Above, Paeth, PaethPredictor;
    var i := 0;
    Bounds(j, out[..], inp[..], 0);
    if hasPrev {
      while i != length
        invariant 0 <= i <= length && Holds(j, out, inp, i)
      {
        Sees(j, out[..], inp[..], i, i);
        PutSum(out, inp, i, inp[s + i], out[p + i], r + i, j);
        i := i + 1;
      }
    } else {
      while i != length
        invariant 0 <= i <= length && Holds(j, out, inp, i)
      {
        Sees(j, out[..], inp[..], i, i);
        PutSum(out, inp, i, inp[s + i], 0, r + i, j);
        i := i + 1;
      }
    }
  }

  method UnfilterAverage(out: array<byte>, r: nat, inp: array<byte>, s: nat, hasPrev: bool, p: nat, bytewidth: nat, length: nat, ghost j: Job)
    requires Holds(j, out, inp, 0) && j.kind == 3
    requires j.r == r && j.s == s && j.bytewidth == bytewidth && j.length == length && j.hasPrev == hasPrev && j.p == p
    modifies out
    ensures Holds(j, out, inp, length)
  {
    hide Reached, Result, Scan, Above, Paeth, PaethPredictor;
    var i := 0;
    Bounds(j, out[..], inp[..], 0);
    if hasPrev {
      while i != bytewidth
        invariant 0 <= i <= bytewidth && Holds(j, out, inp, i)
      {
        Sees(j, out[..], inp[..], i, i);
        PutSum(out, inp, i, inp[s + i], out[p + i] / 2, r + i, j);
        i := i + 1;
      }
      while i < length
        invariant bytewidth <= i <= length && Holds(j, out, inp, i)
      {
        Sees(j, out[..], inp[..], i, i);
        PutSum(out, inp, i, inp[s + i], (out[r + i - bytewidth] as nat + out[p + i] as nat) / 2, r + i, j);
        i := i + 1;
      }
    } else {
      while i != bytewidth
        invariant 0 <= i <= bytewidth && Holds(j, out, inp, i)
      {
        Sees(j, out[..], inp[..], i, i);
        PutSum(out, inp, i, inp[s + i], 0, r + i, j);
        i := i + 1;
      }
      while i < length
        invariant bytewidth <= i <= length && Holds(j, out, inp, i)
      {
        Sees(j, out[..], inp[..], i, i);
        PutSum(out, inp, i, inp[s + i], out[r + i - bytewidth] / 2, r + i, j);
        i := i + 1;
      }
    }
  }

  method UnfilterPaeth(out: array<byte>, r: nat, inp: array<byte>, s: nat, hasPrev: bool, p: nat, bytewidth: nat, length: nat, ghost j: Job)
    requires Holds(j, out, inp, 0) && j.kind == 4
    requires j.r == r && j.s == s && j.bytewidth == bytewidth && j.length == length && j.hasPrev == hasPrev && j.p == p
    modifies out
    ensures Holds(j, out, inp, length)
  {
    hide Reached, Result, Scan, Above, Paeth, PaethPredictor;
    var i := 0;
    Bounds(j, out[..], inp[..], 0);
    if hasPrev {
      while i != bytewidth
        invariant 0 <= i <= bytewidth && Holds(j, out, inp, i)
      {
        Sees(j, out[..], inp[..], i, i);
        PaethPredictorIsPaeth(0, out[p + i], 0);
        PutSum(out, inp, i, inp[s + i], out[p + i], r + i, j);
        i := i + 1;
      }
      if bytewidth >= 4 {
        i := UnfilterPaethByFour(out, r, inp, s, p, bytewidth, length, j);
      } else if bytewidth >= 3 {
        i := UnfilterPaethByThree(out, r, inp, s, p, bytewidth, length, j);
      } else if bytewidth >= 2 {
        i := UnfilterPaethByTwo(out, r, inp, s, p, bytewidth, length, j);
      }
      while i != length
        invariant bytewidth <= i <= length && Holds(j, out, inp, i)
      {
        Sees(j, out[..], inp[..], i, i);
        PaethPredictorIsPaeth(out[r + i - bytewidth], out[p + i], out[p + i - bytewidth]);
        PutSum(out, inp, i, inp[s + i], PaethPredictor(out[r + i - bytewidth], out[p + i], out[p + i - bytewidth]), r + i, j);
        i := i + 1;
      }
    } else {
      while i != bytewidth
        invariant 0 <= i <= bytewidth && Holds(j, out, inp, i)
      {
        Sees(j, out[..], inp[..], i, i);
        PaethPredictorIsPaeth(0, 0, 0);
        PutSum(out, inp, i, inp[s + i], 0, r + i, j);
        i := i + 1;
      }
      while i < length
        invariant bytewidth <= i <= length && Holds(j, out, inp, i)
      {
        Sees(j, out[..], inp[..], i, i);
        PaethPredictorIsPaeth(out[r + i - bytewidth], 0, 0);
        PutSum(out, inp, i, inp[s + i], out[r + i - bytewidth], r + i, j);
        i := i + 1;
      }
    }
  }

  /** The Paeth loop in steps of four, three or two bytes when pixels are that wide: the bytes of one
      step do not depend on each other. */
  method UnfilterPaethByFour(out: array<byte>, r: nat, inp: array<byte>, s: nat, p: nat, bytewidth: nat, length: nat, ghost j: Job)
    returns (i: nat)
    requires Holds(j, out, inp, bytewidth) && j.kind == 4 && 4 <= bytewidth
    requires j.r == r && j.s == s && j.bytewidth == bytewidth && j.length == length && j.hasPrev && j.p == p
    modifies out
    ensures bytewidth <= i <= length && Holds(j, out, inp, i)
  {
    hide Reached, Result, Scan, Above, Paeth, PaethPredictor;
    i := bytewidth;
    Bounds(j, out[..], inp[..], i);
    while i + 3 < length
      invariant bytewidth <= i <= length && Holds(j, out, inp, i)
      decreases length - i
    {
      var k := i - bytewidth;
      Sees(j, out[..], inp[..], i, i);
      Sees(j, out[..], inp[..], i, i + 1);
      Sees(j, out[..], inp[..], i, i + 2);
      Sees(j, out[..], inp[..], i, i + 3);
      var s0, s1, s2, s3 := inp[s + i], inp[s + i + 1], inp[s + i + 2], inp[s + i + 3];
      var r0, r1, r2, r3 := out[r + k], out[r + k + 1], out[r + k + 2], out[r + k + 3];
      var p0, p1, p2, p3 := out[p + i], out[p + i + 1], out[p + i + 2], out[p + i + 3];
      var q0, q1, q2, q3 := out[p + k], out[p + k + 1], out[p + k + 2], out[p + k + 3];
      PaethPredictorIsPaeth(r0, p0, q0);
      PutSum(out, inp, i, s0, PaethPredictor(r0, p0, q0), r + i, j);
      PaethPredictorIsPaeth(r1, p1, q1);
      PutSum(out, inp, i + 1, s1, PaethPredictor(r1, p1, q1), r + i + 1, j);
      PaethPredictorIsPaeth(r2, p2, q2);
      PutSum(out, inp, i + 2, s2, PaethPredictor(r2, p2, q2), r + i + 2, j);
      PaethPredictorIsPaeth(r3, p3, q3);
      PutSum(out, inp, i + 3, s3, PaethPredictor(r3, p3, q3), r + i + 3, j);
      i := i + 4;
    }
  }

  method UnfilterPaethByThree(out: array<byte>, r: nat, inp: array<byte>, s: nat, p: nat, bytewidth: nat, length: nat, ghost j: Job)
    returns (i: nat)
    requires Holds(j, out, inp, bytewidth) && j.kind == 4 && 3 <= bytewidth
    requires j.r == r && j.s == s && j.bytewidth == bytewidth && j.length == length && j.hasPrev && j.p == p
    modifies out
    ensures bytewidth <= i <= length && Holds(j, out, inp, i)
  {
    hide Reached, Result, Scan, Above, Paeth, PaethPredictor;
    i := bytewidth;
    Bounds(j, out[..], inp[..], i);
    while i + 2 < length
      invariant bytewidth <= i <= length && Holds(j, out, inp, i)
      decreases length - i
    {
      var k := i - bytewidth;
      Sees(j, out[..], inp[..], i, i);
      Sees(j, out[..], inp[..], i, i + 1);
      Sees(j, out[..], inp[..], i, i + 2);
      var s0, s1, s2 := inp[s + i], inp[s + i + 1], inp[s + i + 2];
      var r0, r1, r2 := out[r + k], out[r + k + 1], out[r + k + 2];
      var p0, p1, p2 := out[p + i], out[p + i + 1], out[p + i + 2];
      var q0, q1, q2 := out[p + k], out[p + k + 1], out[p + k + 2];
      PaethPredictorIsPaeth(r0, p0, q0);
      PutSum(out, inp, i, s0, PaethPredictor(r0, p0, q0), r + i, j);
      PaethPredictorIsPaeth(r1, p1, q1);
      PutSum(out, inp, i + 1, s1, PaethPredictor(r1, p1, q1), r + i + 1, j);
      PaethPredictorIsPaeth(r2, p2, q2);
      PutSum(out, inp, i + 2, s2, PaethPredictor(r2, p2, q2), r + i + 2, j);
      i := i + 3;
    }
  }

  method UnfilterPaethByTwo(out: array<byte>, r: nat, inp: array<byte>, s: nat, p: nat, bytewidth: nat, length: nat, ghost j: Job)
    returns (i: nat)
    requires Holds(j, out, inp, bytewidth) && j.kind == 4 && 2 <= bytewidth
    requires j.r == r && j.s == s && j.bytewidth == bytewidth && j.length == length && j.hasPrev && j.p == p
    modifies out
    ensures bytewidth <= i <= length && Holds(j, out, inp, i)
  {
    hide Reached, Result, Scan, Above, Paeth, PaethPredictor;
    i := bytewidth;
    Bounds(j, out[..], inp[..], i);
    while i + 1 < length
      invariant bytewidth <= i <= length && Holds(j, out, inp, i)
      decreases length - i
    {
      var k := i - bytewidth;
      Sees(j, out[..], inp[..], i, i);
      Sees(j, out[..], inp[..], i, i + 1);
      var s0, s1 := inp[s + i], inp[s + i + 1];
      var r0, r1 := out[r + k], out[r + k + 1];
      var p0, p1 := out[p + i], out[p + i + 1];
      var q0, q1 := out[p + k], out[p + k + 1];
      PaethPredictorIsPaeth(r0, p0, q0);
      PutSum(out, inp, i, s0, PaethPredictor(r0, p0, q0), r + i, j);
      PaethPredictorIsPaeth(r1, p1, q1);
      PutSum(out, inp, i + 1, s1, PaethPredictor(r1, p1, q1), r + i + 1, j);
      i := i + 2;
    }
  }

  /** Unfilters one line, in place or not. */
  method UnfilterScanline(out: array<byte>, r: nat, inp: array<byte>, s: nat, hasPrev: bool, p: nat, bytewidth: nat, kind: nat, length: nat)
    returns (error: nat)
    requires r + length <= out.Length && s + length <= inp.Length && 0 < bytewidth <= length
    requires (hasPrev ==> p + length <= r) && (out == inp ==> r <= s)
    modifies out
    ensures error == if kind <= 4 then 0 else 36
    ensures error != 0 ==> out[..] == old(out[..])
    ensures error == 0 ==>
      out[..] == Replaced(old(out[..]), r, Unfiltered(old(inp[s..s + length]),
                                                      if hasPrev then old(out[p..p + length]) else Zeros(length), bytewidth, kind))
  {
    hide Reached, Unfiltered;
    if kind > 4 { return 36; }
    ghost var j := Job(out[..], inp[..], r, s, length, hasPrev, p, bytewidth, kind, out == inp);
    ReachedNothing(j);
    if kind == 0 {
      UnfilterNone(out, r, inp, s, bytewidth, length, j);
    } else if kind == 1 {
      UnfilterSub(out, r, inp, s, bytewidth, length, j);
    } else if kind == 2 {
      UnfilterUp(out, r, inp, s, hasPrev, p, bytewidth, length, j);
    } else if kind == 3 {
      UnfilterAverage(out, r, inp, s, hasPrev, p, bytewidth, length, j);
    } else {
      UnfilterPaeth(out, r, inp, s, hasPrev, p, bytewidth, length, j);
    }
    ReachedAll(j, out[..], inp[..]);
    error := 0;
  }

  lemma {:induction false} ReachedAll(j: Job, o: seq<byte>, i: seq<byte>)
    requires ValidJob(j) && Reached(j, o, i, j.length)
    ensures o == Replaced(j.o0, j.r, Result(j))
  {
    hide Unfiltered;
    OverwrittenAll(o, j.o0, j.r, Result(j));
  }
}
