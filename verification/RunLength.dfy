/** Run-length coding of code lengths with the symbols 16, 17 and 18 (RFC 1951, section 3.2.7). */
module RunLength {
  import opened Bits

  /** A length as such, three to six repeats of the previous one, or three to 138 zeros. */
  datatype Run = Single(v: nat) | Repeat(n: nat) | Zeros(n: nat)

  predicate ValidRun(r: Run, before: nat) {
    match r
    case Single(v) => v <= 15
    case Repeat(n) => 3 <= n <= 6 && 0 < before
    case Zeros(n) => 3 <= n <= 138
  }

  function Copies(v: nat, n: nat): (s: seq<nat>)
    ensures |s| == n
  {
    seq(n, _ => v)
  }

  /** The lengths after one more run. */
  function Unpack(acc: seq<nat>, r: Run): (s: seq<nat>)
  {
    match r
    case Single(v) => acc + [v]
    case Repeat(n) => if acc == [] then acc else acc + Copies(acc[|acc| - 1], n)
    case Zeros(n) => acc + Copies(0, n)
  }

  /** What a sequence of runs stands for, following the lengths `acc`. */
  function UnpackAll(acc: seq<nat>, runs: seq<Run>): (s: seq<nat>)
    decreases |runs|
  {
    if runs == [] then acc else UnpackAll(Unpack(acc, runs[0]), runs[1..])
  }

  predicate ValidRuns(acc: seq<nat>, runs: seq<Run>)
    decreases |runs|
  {
    runs != [] ==> ValidRun(runs[0], |acc|) && ValidRuns(Unpack(acc, runs[0]), runs[1..])
  }

  lemma {:induction false} UnpackAppend(acc: seq<nat>, runs: seq<Run>, r: Run)
    ensures UnpackAll(acc, runs + [r]) == Unpack(UnpackAll(acc, runs), r)
    ensures ValidRuns(acc, runs + [r]) <==> ValidRuns(acc, runs) && ValidRun(r, |UnpackAll(acc, runs)|)
    decreases |runs|
  {
    hide Unpack, ValidRun;
    if runs == [] {
      assert [r][1..] == [];
    } else {
      assert (runs + [r])[1..] == runs[1..] + [r];
      UnpackAppend(Unpack(acc, runs[0]), runs[1..], r);
    }
  }

  lemma {:induction false} UnpackGrows(acc: seq<nat>, runs: seq<Run>)
    ensures |acc| <= |UnpackAll(acc, runs)|
    decreases |runs|
  {
    if runs != [] { UnpackGrows(Unpack(acc, runs[0]), runs[1..]); }
  }

  /** How a run is stored: its symbol, and for a repeat the value of its extra bits. */
  function Stored(r: Run): (v: seq<nat>)
  {
    match r
    case Single(v) => [v]
    case Repeat(n) => if n < 3 then [] else [16, n - 3]
    case Zeros(n) => if n < 3 then [] else if n <= 10 then [17, n - 3] else [18, n - 11]
  }

  function Flat(runs: seq<Run>): (v: seq<nat>)
  {
    if runs == [] then [] else Flat(runs[..|runs| - 1]) + Stored(runs[|runs| - 1])
  }

  lemma {:induction false} FlatAppend(runs: seq<Run>, r: Run)
    ensures Flat(runs + [r]) == Flat(runs) + Stored(r)
  {
    assert (runs + [r])[..|runs|] == runs;
  }

  lemma {:induction false} FlatNone()
    ensures Flat([]) == []
  {}

  lemma {:induction false} FlatLast(runs: seq<Run>)
    requires runs != []
    ensures Flat(runs) == Flat(runs[..|runs| - 1]) + Stored(runs[|runs| - 1])
  {
    hide Stored;
  }

  lemma {:induction false} FlatHead(runs: seq<Run>)
    requires runs != []
    ensures Flat(runs) == Stored(runs[0]) + Flat(runs[1..])
    decreases |runs|
  {
    hide Stored, Flat;
    var n := |runs| - 1;
    FlatLast(runs);
    FlatNone();
    if n > 0 {
      FlatHead(runs[..n]);
      var tail := runs[1..];
      assert runs[..n][1..] == tail[..n - 1] && tail[n - 1] == runs[n] && |tail| == n;
      FlatLast(tail);
      var a, b, c := Stored(runs[0]), Flat(tail[..n - 1]), Stored(runs[n]);
      assert (a + b) + c == a + (b + c);
    } else {
      assert runs[..0] == [] && runs[1..] == [];
    }
  }

  /** The run that a symbol and its extra bits stand for. */
  function RunOf(symbol: nat, extra: nat): (r: Run)
  {
    if symbol == 16 then Repeat(extra + 3) else if symbol == 17 then Zeros(extra + 3) else Zeros(extra + 11)
  }

  /** Stored symbols, replayed from the first one on. */
  function Replay(packed: seq<nat>, acc: seq<nat>): (s: seq<nat>)
    decreases |packed|
  {
    if packed == [] then acc
    else if packed[0] < 16 || |packed| == 1 then Replay(packed[1..], acc + [packed[0]])
    else Replay(packed[2..], Unpack(acc, RunOf(packed[0], packed[1])))
  }

  lemma {:induction false} ReplayFlat(runs: seq<Run>, acc: seq<nat>)
    requires ValidRuns(acc, runs)
    ensures Replay(Flat(runs), acc) == UnpackAll(acc, runs)
    decreases |runs|
  {
    hide Unpack;
    if runs != [] {
      var r, rest := runs[0], Flat(runs[1..]);
      FlatHead(runs);
      ReplayFlat(runs[1..], Unpack(acc, r));
      ReplayOne(r, rest, acc);
    }
  }

  lemma {:induction false} ReplayOne(r: Run, rest: seq<nat>, acc: seq<nat>)
    requires ValidRun(r, |acc|)
    ensures Replay(Stored(r) + rest, acc) == Replay(rest, Unpack(acc, r))
  {
    var packed := Stored(r) + rest;
    if r.Single? {
      assert packed[1..] == rest;
    } else {
      assert packed[2..] == rest && RunOf(packed[0], packed[1]) == r;
    }
  }

  // ----- which runs are chosen ----------------------------------------------------------------

  /** How many lengths from p on are equal. */
  function Ahead(lengths: seq<nat>, p: nat): (m: nat)
    requires p < |lengths|
    ensures 1 <= m && p + m <= |lengths| && forall k :: p <= k < p + m ==> lengths[k] == lengths[p]
    decreases |lengths| - p
  {
    if p + 1 < |lengths| && lengths[p + 1] == lengths[p] then 1 + Ahead(lengths, p + 1) else 1
  }

  /** The run that begins at p: at least three zeros together, at most 138; at least three repeats of the length before, at most six;
      a single length otherwise. */
  function RunAt(lengths: seq<nat>, p: nat): (r: Run)
    requires p < |lengths|
  {
    var m := Ahead(lengths, p);
    if m < 3 then Single(lengths[p])
    else if lengths[p] == 0 then Zeros(if m > 138 then 138 else m)
    else if p > 0 && lengths[p - 1] == lengths[p] then Repeat(if m > 6 then 6 else m)
    else Single(lengths[p])
  }

  function Width(r: Run): (n: nat)
  {
    match r
    case Single(_) => 1
    case Repeat(n) => n
    case Zeros(n) => n
  }

  /** The runs from p on. */
  function RunsFrom(lengths: seq<nat>, p: nat): (runs: seq<Run>)
    requires p <= |lengths|
    decreases |lengths| - p
  {
    if p == |lengths| then [] else [RunAt(lengths, p)] + RunsFrom(lengths, p + Width(RunAt(lengths, p)))
  }

  lemma {:induction false} AheadIs(lengths: seq<nat>, p: nat, m: nat)
    requires 1 <= m && p + m <= |lengths| && (forall k :: p <= k < p + m ==> lengths[k] == lengths[p])
    requires p + m == |lengths| || lengths[p + m] != lengths[p]
    ensures Ahead(lengths, p) == m
    decreases m
  {
    if m > 1 {
      assert lengths[p + 1] == lengths[p];
      AheadIs(lengths, p + 1, m - 1);
    }
  }

  lemma {:induction false} WidthFits(lengths: seq<nat>, p: nat)
    requires p < |lengths|
    ensures p + Width(RunAt(lengths, p)) <= |lengths|
  {
    hide Ahead;
  }

  /** The runs chosen so far, and those still to be chosen from i on. */
  ghost predicate Choosing(lengths: seq<nat>, i: nat, runs: seq<Run>) {
    i <= |lengths| && runs + RunsFrom(lengths, i) == RunsFrom(lengths, 0)
  }

  lemma {:induction false} ChooseNext(lengths: seq<nat>, i: nat, runs: seq<Run>, r: Run)
    requires Choosing(lengths, i, runs) && i < |lengths| && r == RunAt(lengths, i)
    ensures Choosing(lengths, i + Width(r), runs + [r])
  {
    hide RunAt, Width;
    WidthFits(lengths, i);
    var rest := RunsFrom(lengths, i + Width(r));
    assert runs + ([r] + rest) == (runs + [r]) + rest;
  }

  /** No repeat begins at i: what precedes it differs, or too few equal lengths are left. */
  predicate Fresh(lengths: seq<nat>, i: nat) {
    0 < i < |lengths| && lengths[i - 1] == lengths[i] && lengths[i] != 0 ==> Ahead(lengths, i) < 3
  }

  /** The first `i` lengths are packed as `runs`, stored as `out`. */
  ghost predicate Packed(lengths: seq<nat>, i: nat, runs: seq<Run>, out: seq<nat>) {
    && i <= |lengths|
    && ValidRuns([], runs) && UnpackAll([], runs) == lengths[..i]
    && out == Flat(runs)
  }

  lemma {:induction false} PackOne(lengths: seq<nat>, i: nat, runs: seq<Run>, out: seq<nat>, r: Run, n: nat)
    requires Packed(lengths, i, runs, out) && i + n <= |lengths| && ValidRun(r, i)
    requires Unpack(lengths[..i], r) == lengths[..i + n]
    ensures Packed(lengths, i + n, runs + [r], out + Stored(r))
  {
    hide Unpack, ValidRun, Stored;
    UnpackAppend([], runs, r);
    FlatAppend(runs, r);
  }

  lemma {:induction false} Extend(lengths: seq<nat>, i: nat, v: nat, n: nat)
    requires i + n <= |lengths| && forall k :: i <= k < i + n ==> lengths[k] == v
    ensures lengths[..i] + Copies(v, n) == lengths[..i + n]
  {}

  lemma {:induction false} PackedReplays(lengths: seq<nat>, runs: seq<Run>, out: seq<nat>)
    requires Packed(lengths, |lengths|, runs, out)
    ensures Replay(out, []) == lengths
  {
    hide Replay, UnpackAll, ValidRuns, Flat;
    ReplayFlat(runs, []);
    assert lengths[..|lengths|] == lengths;
  }

  /** Packs code lengths; the reader of dynamic blocks undoes it for every sequence of lengths. */
  method PackLengths(lengths: seq<nat>) returns (out: seq<nat>, ghost runs: seq<Run>)
    requires forall k :: 0 <= k < |lengths| ==> lengths[k] <= 15
    ensures Packed(lengths, |lengths|, runs, out)
    ensures Replay(out, []) == lengths
    ensures runs == RunsFrom(lengths, 0)
  {
    hide Packed, RunsFrom, Ahead;
    out, runs := [], [];
    assert Packed(lengths, 0, runs, out) && Choosing(lengths, 0, runs) by { PackNone(lengths); }
    var i := 0;
    while i != |lengths|
      invariant 0 <= i <= |lengths| && Packed(lengths, i, runs, out)
      invariant Choosing(lengths, i, runs) && Fresh(lengths, i)
      decreases |lengths| - i
    {
      var j := CountEqual(lengths, i);
      if lengths[i] == 0 && j >= 2 {
        j := j + 1;
        if j > 138 { j := 138; }
        Extend(lengths, i, 0, j);
        PackOne(lengths, i, runs, out, Zeros(j), j);
        ChooseNext(lengths, i, runs, Zeros(j));
        if j <= 10 {
          out := out + [17, j - 3];
        } else {
          out := out + [18, j - 11];
        }
        runs := runs + [Zeros(j)];
        i := i + (j - 1);
      } else if j >= 3 {
        out, runs, j := PackRepeats(lengths, i, j, out, runs);
        i := i + j;
      } else {
        Extend(lengths, i, lengths[i], 1);
        assert Copies(lengths[i], 1) == [lengths[i]];
        PackOne(lengths, i, runs, out, Single(lengths[i]), 1);
        ChooseNext(lengths, i, runs, Single(lengths[i]));
        if j > 0 { AheadIs(lengths, i + 1, j); }
        out, runs := out + [lengths[i]], runs + [Single(lengths[i])];
      }
      i := i + 1;
    }
    PackedReplays(lengths, runs, out);
    Chosen(lengths, runs);
  }

  lemma {:induction false} PackNone(lengths: seq<nat>)
    ensures Packed(lengths, 0, [], []) && Choosing(lengths, 0, [])
  {
    hide RunsFrom;
  }

  lemma {:induction false} Chosen(lengths: seq<nat>, runs: seq<Run>)
    requires Choosing(lengths, |lengths|, runs)
    ensures runs == RunsFrom(lengths, 0)
  {
    assert RunsFrom(lengths, |lengths|) == [];
  }

  /** How many lengths after index i equal it. */
  method CountEqual(lengths: seq<nat>, i: nat) returns (j: nat)
    requires i < |lengths|
    ensures i + j < |lengths| && forall k :: i <= k <= i + j ==> lengths[k] == lengths[i]
    ensures i + j + 1 == |lengths| || lengths[i + j + 1] != lengths[i]
    ensures j + 1 == Ahead(lengths, i)
  {
    hide Ahead;
    j := 0;
    while i + j + 1 < |lengths| && lengths[i + j + 1] == lengths[i]
      invariant i + j < |lengths| && forall k :: i <= k <= i + j ==> lengths[k] == lengths[i]
      decreases |lengths| - j
    {
      j := j + 1;
    }
    AheadIs(lengths, i, j + 1);
  }

  /** A length and its repeats, six at a time; `j'` of the j repeats are covered. */
  method PackRepeats(lengths: seq<nat>, i: nat, j: nat, out: seq<nat>, ghost runs: seq<Run>)
    returns (out': seq<nat>, ghost runs': seq<Run>, j': nat)
    requires Packed(lengths, i, runs, out) && 3 <= j && i + j < |lengths| && lengths[i] <= 15
    requires forall k :: i <= k <= i + j ==> lengths[k] == lengths[i]
    requires i + j + 1 == |lengths| || lengths[i + j + 1] != lengths[i]
    requires Choosing(lengths, i, runs) && Fresh(lengths, i) && lengths[i] != 0
    ensures j' <= j && Packed(lengths, i + j' + 1, runs', out')
    ensures Choosing(lengths, i + j' + 1, runs') && Fresh(lengths, i + j' + 1)
  {
    hide Packed, Choosing, Ahead;
    AheadIs(lengths, i, j + 1);
    var num, rest := j / 6, j % 6;
    Extend(lengths, i, lengths[i], 1);
    assert Copies(lengths[i], 1) == [lengths[i]];
    PackOne(lengths, i, runs, out, Single(lengths[i]), 1);
    ChooseNext(lengths, i, runs, Single(lengths[i]));
    out', runs' := out + [lengths[i]], runs + [Single(lengths[i])];
    var k := 0;
    while k < num
      invariant 0 <= k <= num && Packed(lengths, i + 1 + 6 * k, runs', out') && Choosing(lengths, i + 1 + 6 * k, runs')
    {
      AheadIs(lengths, i + 1 + 6 * k, j - 6 * k);
      assert lengths[i + 6 * k] == lengths[i + 1 + 6 * k];
      ChooseNext(lengths, i + 1 + 6 * k, runs', Repeat(6));
      PackRepeat(lengths, i, j, 6 * k, 6, runs', out');
      out', runs' := out' + [16, 3], runs' + [Repeat(6)];
      k := k + 1;
    }
    j' := j;
    if rest > 0 { AheadIs(lengths, i + 1 + 6 * num, rest); }
    if rest >= 3 {
      assert lengths[i + 6 * num] == lengths[i + 1 + 6 * num];
      ChooseNext(lengths, i + 1 + 6 * num, runs', Repeat(rest));
      PackRepeat(lengths, i, j, 6 * num, rest, runs', out');
      out', runs' := out' + [16, rest - 3], runs' + [Repeat(rest)];
    } else {
      j' := j' - rest;
    }
  }

  lemma {:induction false} PackRepeat(lengths: seq<nat>, i: nat, j: nat, done: nat, n: nat, runs: seq<Run>, out: seq<nat>)
    requires Packed(lengths, i + 1 + done, runs, out) && 3 <= n <= 6 && done + n <= j && i + j < |lengths|
    requires forall k :: i <= k <= i + j ==> lengths[k] == lengths[i]
    ensures Packed(lengths, i + 1 + done + n, runs + [Repeat(n)], out + [16, n - 3])
  {
    hide Packed;
    var p := i + 1 + done;
    Extend(lengths, p, lengths[i], n);
    assert lengths[..p][p - 1] == lengths[i];
    PackOne(lengths, p, runs, out, Repeat(n), n);
  }
}
