/** The leaves of a code sorted by weight with a bottom-up merge sort. */
module LeafSort {
  datatype Leaf = Leaf(weight: int, index: nat)

  predicate Sorted(s: seq<Leaf>) {
    forall i :: 0 < i < |s| ==> s[i - 1].weight <= s[i].weight
  }

  /** Stable merge of two runs. */
  function Merge(x: seq<Leaf>, y: seq<Leaf>): (m: seq<Leaf>)
    ensures |m| == |x| + |y|
    decreases |x| + |y|
  {
    if x != [] && (y == [] || x[0].weight <= y[0].weight) then [x[0]] + Merge(x[1..], y)
    else if y != [] then [y[0]] + Merge(x, y[1..])
    else []
  }

  function Min(a: nat, b: nat): (m: nat)
  {
    if a < b then a else b
  }

  /** One pass: neighbouring runs of the given width merged two by two. */
  function Pass(a: seq<Leaf>, width: nat): (b: seq<Leaf>)
    requires width > 0
    ensures |b| == |a|
    decreases |a|
  {
    if a == [] then []
    else
      var q, r := Min(width, |a|), Min(2 * width, |a|);
      Merge(a[..q], a[q..r]) + Pass(a[r..], width)
  }

  /** Consecutive runs of the given width, each sorted. */
  predicate Runs(s: seq<Leaf>, width: nat)
    requires width > 0
    decreases |s|
  {
    if |s| <= width then Sorted(s) else Sorted(s[..width]) && Runs(s[width..], width)
  }

  lemma {:induction false} MergeHead(x: seq<Leaf>, y: seq<Leaf>, low: int)
    requires x != [] ==> low <= x[0].weight
    requires y != [] ==> low <= y[0].weight
    ensures Merge(x, y) != [] ==> low <= Merge(x, y)[0].weight
  {}

  lemma {:induction false} SortedCons(h: Leaf, t: seq<Leaf>)
    requires Sorted(t) && (t != [] ==> h.weight <= t[0].weight)
    ensures Sorted([h] + t)
  {}

  lemma {:induction false} MergeSorted(x: seq<Leaf>, y: seq<Leaf>)
    requires Sorted(x) && Sorted(y)
    ensures Sorted(Merge(x, y))
    decreases |x| + |y|
  {
    hide Sorted;
    if x != [] && (y == [] || x[0].weight <= y[0].weight) {
      SortedTail(x);
      MergeSorted(x[1..], y);
      MergeHead(x[1..], y, x[0].weight);
      SortedCons(x[0], Merge(x[1..], y));
    } else if y != [] {
      SortedTail(y);
      MergeSorted(x, y[1..]);
      MergeHead(x, y[1..], y[0].weight);
      SortedCons(y[0], Merge(x, y[1..]));
    } else {
      assert Sorted([]) by { SortedNil(); }
    }
  }

  lemma {:induction false} SortedNil()
    ensures Sorted([])
  {}

  lemma {:induction false} SortedTail(s: seq<Leaf>)
    requires Sorted(s) && s != []
    ensures Sorted(s[1..]) && (|s| > 1 ==> s[0].weight <= s[1..][0].weight)
  {}

  lemma {:induction false} MergeElements(x: seq<Leaf>, y: seq<Leaf>)
    ensures multiset(Merge(x, y)) == multiset(x) + multiset(y)
    decreases |x| + |y|
  {
    if x != [] && (y == [] || x[0].weight <= y[0].weight) {
      MergeElements(x[1..], y);
      assert x == [x[0]] + x[1..];
    } else if y != [] {
      MergeElements(x, y[1..]);
      assert y == [y[0]] + y[1..];
    }
  }

  lemma {:induction false} PassElements(a: seq<Leaf>, width: nat)
    requires width > 0
    ensures multiset(Pass(a, width)) == multiset(a)
    decreases |a|
  {
    hide Merge;
    if a != [] {
      var q, r := Min(width, |a|), Min(2 * width, |a|);
      MergeElements(a[..q], a[q..r]);
      PassElements(a[r..], width);
      assert a == a[..q] + a[q..r] + a[r..];
    }
  }

  /** The leaves of one weight, in their order. */
  function OfWeight(s: seq<Leaf>, v: int): (t: seq<Leaf>)
  {
    if s == [] then [] else (if s[0].weight == v then [s[0]] else []) + OfWeight(s[1..], v)
  }

  /** The first leaf alone, if it has that weight. */
  function Head(h: Leaf, v: int): (t: seq<Leaf>) { if h.weight == v then [h] else [] }

  lemma {:induction false} OfWeightCons(h: Leaf, t: seq<Leaf>, v: int)
    ensures OfWeight([h] + t, v) == Head(h, v) + OfWeight(t, v)
  {
    assert ([h] + t)[1..] == t;
  }

  lemma {:induction false} OfWeightTail(s: seq<Leaf>, v: int)
    requires s != []
    ensures OfWeight(s, v) == Head(s[0], v) + OfWeight(s[1..], v)
  {}

  lemma {:induction false} OfWeightJoin(x: seq<Leaf>, y: seq<Leaf>, v: int)
    ensures OfWeight(x + y, v) == OfWeight(x, v) + OfWeight(y, v)
  {
    if x == [] {
      assert x + y == y;
    } else {
      hide OfWeight, Head;
      OfWeightJoin(x[1..], y, v);
      assert x + y == [x[0]] + (x[1..] + y);
      OfWeightCons(x[0], x[1..] + y, v);
      OfWeightTail(x, v);
    }
  }

  /** A sorted run that starts above v has nothing of weight v. */
  lemma {:induction false} NoneOfWeight(s: seq<Leaf>, v: int)
    requires Sorted(s) && (s != [] ==> v < s[0].weight)
    ensures OfWeight(s, v) == []
  {
    if s != [] {
      SortedTail(s);
      NoneOfWeight(s[1..], v);
    }
  }

  lemma {:induction false} Regroup(h: seq<Leaf>, x: seq<Leaf>, y: seq<Leaf>)
    ensures h + (x + y) == (h + x) + y && (h == [] || x == [] ==> h + (x + y) == x + (h + y))
  {}

  lemma {:induction false} MergeTakes(x: seq<Leaf>, y: seq<Leaf>)
    requires x != [] || y != []
    ensures if x != [] && (y == [] || x[0].weight <= y[0].weight) then Merge(x, y) == [x[0]] + Merge(x[1..], y)
            else y != [] && Merge(x, y) == [y[0]] + Merge(x, y[1..])
  {}

  /** Leaves of equal weight keep their order, those of the first run before those of the second. */
  lemma {:induction false} MergeStable(x: seq<Leaf>, y: seq<Leaf>, v: int)
    requires Sorted(x) && Sorted(y)
    ensures OfWeight(Merge(x, y), v) == OfWeight(x, v) + OfWeight(y, v)
    decreases |x| + |y|
  {
    if x != [] || y != [] {
      hide Sorted, OfWeight, Merge;
      MergeTakes(x, y);
      if x != [] && (y == [] || x[0].weight <= y[0].weight) {
        SortedTail(x);
        MergeStable(x[1..], y, v);
        OfWeightCons(x[0], Merge(x[1..], y), v);
        OfWeightTail(x, v);
        Regroup(Head(x[0], v), OfWeight(x[1..], v), OfWeight(y, v));
      } else {
        SortedTail(y);
        MergeStable(x, y[1..], v);
        OfWeightCons(y[0], Merge(x, y[1..]), v);
        OfWeightTail(y, v);
        if y[0].weight == v { NoneOfWeight(x, v); }
        Regroup(Head(y[0], v), OfWeight(x, v), OfWeight(y[1..], v));
      }
    }
  }

  lemma {:induction false} PassStable(a: seq<Leaf>, width: nat, v: int)
    requires width > 0 && Runs(a, width)
    ensures OfWeight(Pass(a, width), v) == OfWeight(a, v)
    decreases |a|
  {
    hide Merge, Sorted, OfWeight;
    if a != [] {
      var q, r := Min(width, |a|), Min(2 * width, |a|);
      PairOfRuns(a, width);
      MergeStable(a[..q], a[q..r], v);
      PassStable(a[r..], width, v);
      OfWeightJoin(Merge(a[..q], a[q..r]), Pass(a[r..], width), v);
      OfWeightJoin(a[..q], a[q..r], v);
      OfWeightJoin(a[..q] + a[q..r], a[r..], v);
      assert a == (a[..q] + a[q..r]) + a[r..];
    }
  }

  /** The first two runs and the rest. */
  lemma {:induction false} PairOfRuns(a: seq<Leaf>, width: nat)
    requires width > 0 && Runs(a, width) && a != []
    ensures var q, r := Min(width, |a|), Min(2 * width, |a|);
            Sorted(a[..q]) && Sorted(a[q..r]) && Runs(a[r..], width)
  {
    hide Sorted;
    SortedNil();
    var q, r := Min(width, |a|), Min(2 * width, |a|);
    if |a| <= width {
      assert a[..q] == a && a[q..r] == [] && a[r..] == [];
    } else {
      var rest := a[width..];
      if |rest| <= width {
        assert a[q..r] == rest && a[r..] == [];
      } else {
        assert a[q..r] == rest[..width] && a[r..] == rest[width..];
      }
    }
  }

  lemma {:induction false} PassRuns(a: seq<Leaf>, width: nat)
    requires width > 0 && Runs(a, width)
    ensures Runs(Pass(a, width), 2 * width)
    decreases |a|
  {
    hide Sorted;
    if a == [] {
      SortedNil();
    } else {
      var q, r := Min(width, |a|), Min(2 * width, |a|);
      PairOfRuns(a, width);
      MergeSorted(a[..q], a[q..r]);
      PassRuns(a[r..], width);
      var m, b := Merge(a[..q], a[q..r]), Pass(a, width);
      if |a| <= 2 * width {
        assert b == m;
      } else {
        assert b[..2 * width] == m && b[2 * width..] == Pass(a[r..], width);
      }
    }
  }

  /** One merge pass of the bottom-up sort, as it fills the other buffer. */
  method MergePass(a: seq<Leaf>, width: nat) returns (b: seq<Leaf>)
    requires width > 0
    ensures b == Pass(a, width)
  {
    hide Merge, Pass;
    b := [];
    var p := 0;
    assert a[0..] == a;
    assert [] + Pass(a, width) == Pass(a, width);
    while p < |a|
      invariant 0 <= p <= |a|
      invariant b + Pass(a[p..], width) == Pass(a, width)
      decreases |a| - p
    {
      var q := if p + width > |a| then |a| else p + width;
      var r := if p + 2 * width > |a| then |a| else p + 2 * width;
      var m := MergeRuns(a, p, q, r);
      PassStep(a, p, width, q, r);
      assert (b + m) + Pass(a[r..], width) == b + (m + Pass(a[r..], width));
      b := b + m;
      p := r;
    }
    assert Pass(a[p..], width) == [];
    assert b + [] == b;
  }

  lemma {:induction false} PassStep(a: seq<Leaf>, p: nat, width: nat, q: nat, r: nat)
    requires p < |a| && width > 0 && q == Min(p + width, |a|) && r == Min(p + 2 * width, |a|)
    ensures Pass(a[p..], width) == Merge(a[p..q], a[q..r]) + Pass(a[r..], width)
  {
    hide Merge;
    var t := a[p..];
    assert t[..q - p] == a[p..q] && t[q - p..r - p] == a[q..r] && t[r - p..] == a[r..];
  }

  method MergeRuns(a: seq<Leaf>, p: nat, q: nat, r: nat) returns (m: seq<Leaf>)
    requires p <= q <= r <= |a|
    ensures m == Merge(a[p..q], a[q..r])
  {
    hide Merge;
    m := [];
    var i, j := p, q;
    var k := p;
    while k < r
      invariant p <= i <= q <= j <= r && k - p == (i - p) + (j - q)
      invariant m + Merge(a[i..q], a[j..r]) == Merge(a[p..q], a[q..r])
    {
      MergeStep(a, i, q, j, r);
      if i < q && (j >= r || a[i].weight <= a[j].weight) {
        assert (m + [a[i]]) + Merge(a[i + 1..q], a[j..r]) == m + ([a[i]] + Merge(a[i + 1..q], a[j..r]));
        m := m + [a[i]];
        i := i + 1;
      } else {
        assert (m + [a[j]]) + Merge(a[i..q], a[j + 1..r]) == m + ([a[j]] + Merge(a[i..q], a[j + 1..r]));
        m := m + [a[j]];
        j := j + 1;
      }
      k := k + 1;
    }
    assert Merge(a[i..q], a[j..r]) == [];
    assert m + [] == m;
  }

  lemma {:induction false} MergeStep(a: seq<Leaf>, i: nat, q: nat, j: nat, r: nat)
    requires i <= q <= j <= r <= |a| && (i < q || j < r)
    ensures if i < q && (j >= r || a[i].weight <= a[j].weight)
            then Merge(a[i..q], a[j..r]) == [a[i]] + Merge(a[i + 1..q], a[j..r])
            else j < r && Merge(a[i..q], a[j..r]) == [a[j]] + Merge(a[i..q], a[j + 1..r])
  {
    var x, y := a[i..q], a[j..r];
    if i < q { assert x[1..] == a[i + 1..q]; }
    if j < r { assert y[1..] == a[j + 1..r]; }
  }

  lemma {:induction false} SingleRuns(s: seq<Leaf>)
    ensures Runs(s, 1)
    decreases |s|
  {
    if |s| > 1 { SingleRuns(s[1..]); }
  }

  /** Sorts the leaves; leaves of equal weight keep their order. */
  method SortLeaves(leaves: seq<Leaf>) returns (a: seq<Leaf>)
    ensures Sorted(a) && multiset(a) == multiset(leaves)
    ensures forall v :: OfWeight(a, v) == OfWeight(leaves, v)
  {
    hide Pass, Sorted, OfWeight;
    a := leaves;
    SingleRuns(a);
    var width := 1;
    while width < |leaves|
      invariant width >= 1 && |a| == |leaves|
      invariant Runs(a, width) && multiset(a) == multiset(leaves)
      invariant forall v :: OfWeight(a, v) == OfWeight(leaves, v)
      decreases |leaves| - width
    {
      PassRuns(a, width);
      PassElements(a, width);
      forall v ensures OfWeight(Pass(a, width), v) == OfWeight(a, v) { PassStable(a, width, v); }
      a := MergePass(a, width);
      width := width * 2;
    }
  }
}
