/** The items that package-merge ranks, and why its first items are the best choice.

    Every list holds the leaves and the packages of the list below, each package two of its items.
    A code of bounded length is a choice of items, and no choice of the same worth is lighter than the
    first items of the last list. */
module PackageItems {
  import opened Bits
  import opened LeafSort

  // ----- the lists ----------------------------------------------------------------------------

  /** Neighbouring items packed two by two. */
  function Pairs(s: seq<Leaf>): (p: seq<Leaf>)
    ensures |p| == |s| / 2
  {
    seq(|s| / 2, j requires 0 <= j < |s| / 2 => Leaf(s[2 * j].weight + s[2 * j + 1].weight, 0))
  }

  /** The packages of list c. */
  function Packages(w: seq<Leaf>, c: nat): (p: seq<Leaf>)
    decreases c, 0
  {
    if c == 0 then [] else Pairs(Items(w, c - 1))
  }

  /** All items of list c, lightest first. */
  function Items(w: seq<Leaf>, c: nat): (s: seq<Leaf>)
    ensures |s| == |Packages(w, c)| + |w|
    decreases c, 1
  {
    Merge(Packages(w, c), w)
  }

  lemma {:induction false} SortedLe(w: seq<Leaf>, i: nat, j: nat)
    requires Sorted(w) && i <= j < |w|
    ensures w[i].weight <= w[j].weight
    decreases j
  {
    if i < j { SortedLe(w, i, j - 1); }
  }

  lemma {:induction false} PairsSorted(s: seq<Leaf>)
    requires Sorted(s)
    ensures Sorted(Pairs(s))
  {
    var p := Pairs(s);
    forall j | 0 < j < |p| ensures p[j - 1].weight <= p[j].weight {
      SortedLe(s, 2 * j - 2, 2 * j);
      SortedLe(s, 2 * j - 1, 2 * j + 1);
    }
  }

  lemma {:induction false} ItemsSorted(w: seq<Leaf>, c: nat)
    requires Sorted(w)
    ensures Sorted(Items(w, c)) && Sorted(Packages(w, c))
  {
    hide Sorted, Pairs, Merge;
    if c == 0 {
      SortedNil();
    } else {
      ItemsSorted(w, c - 1);
      PairsSorted(Items(w, c - 1));
    }
    MergeSorted(Packages(w, c), w);
  }

  // ----- the first items of a merge -----------------------------------------------------------

  /** How many of the first r items of Merge(x, y) come from y. */
  function Taken(x: seq<Leaf>, y: seq<Leaf>, r: nat): (t: nat)
    requires r <= |x| + |y|
    ensures t <= r && t <= |y| && r - t <= |x|
    decreases r
  {
    if r == 0 then 0
    else if x != [] && (y == [] || x[0].weight <= y[0].weight) then Taken(x[1..], y, r - 1)
    else 1 + Taken(x, y[1..], r - 1)
  }

  /** Item r of a merge is the lighter of the two that come next. */
  lemma {:induction false} TakenStep(x: seq<Leaf>, y: seq<Leaf>, r: nat)
    requires r < |x| + |y|
    ensures var t := Taken(x, y, r);
            if r - t < |x| && (t == |y| || x[r - t].weight <= y[t].weight)
            then Merge(x, y)[r] == x[r - t] && Taken(x, y, r + 1) == t
            else t < |y| && Merge(x, y)[r] == y[t] && Taken(x, y, r + 1) == t + 1
    decreases r
  {
    if r > 0 {
      hide Merge;
      if x != [] && (y == [] || x[0].weight <= y[0].weight) {
        TakenStep(x[1..], y, r - 1);
        MergeFirst(x, y, r);
      } else {
        TakenStep(x, y[1..], r - 1);
        MergeFirst(x, y, r);
      }
    }
  }

  lemma {:induction false} MergeFirst(x: seq<Leaf>, y: seq<Leaf>, r: nat)
    requires 0 < r < |x| + |y|
    ensures Merge(x, y)[r] == if x != [] && (y == [] || x[0].weight <= y[0].weight) then Merge(x[1..], y)[r - 1] else Merge(x, y[1..])[r - 1]
  {}

  /** What the first r items weigh. */
  function Weight(s: seq<Leaf>, r: nat): (v: int)
    requires r <= |s|
  {
    if r == 0 then 0 else Weight(s, r - 1) + s[r - 1].weight
  }

  lemma {:induction false} MergeWeight(x: seq<Leaf>, y: seq<Leaf>, r: nat)
    requires r <= |x| + |y|
    ensures var t := Taken(x, y, r);
            Weight(Merge(x, y), r) == Weight(x, r - t) + Weight(y, t)
  {
    hide Merge;
    if r > 0 {
      MergeWeight(x, y, r - 1);
      TakenStep(x, y, r - 1);
    }
  }

  /** No other choice of r items, some from the front of x and m from the front of y, is lighter. */
  lemma {:induction false} MergeLightest(x: seq<Leaf>, y: seq<Leaf>, r: nat, m: nat)
    requires Sorted(x) && Sorted(y) && m <= r && m <= |y| && r - m <= |x|
    ensures Weight(Merge(x, y), r) <= Weight(x, r - m) + Weight(y, m)
    decreases r
  {
    hide Merge, Taken, Sorted;
    if r > 0 {
      var t := Taken(x, y, r - 1);
      TakenStep(x, y, r - 1);
      if t < m {
        SortedLe(y, t, m - 1);
        MergeLightest(x, y, r - 1, m - 1);
      } else {
        SortedLe(x, r - 1 - t, r - m - 1);
        MergeLightest(x, y, r - 1, m);
      }
    }
  }

  lemma {:induction false} PairsWeight(s: seq<Leaf>, j: nat)
    requires 2 * j <= |s|
    ensures Weight(Pairs(s), j) == Weight(s, 2 * j)
  {
    if j > 0 {
      PairsWeight(s, j - 1);
      assert Weight(s, 2 * j) == Weight(s, 2 * j - 1) + s[2 * j - 1].weight;
    }
  }

  // ----- the first items of a list ------------------------------------------------------------

  lemma {:induction false} PackageIs(w: seq<Leaf>, c: nat, j: nat)
    requires 0 < c
    ensures |Packages(w, c)| == |Items(w, c - 1)| / 2
    ensures j < |Packages(w, c)| ==> Packages(w, c)[j].weight == Items(w, c - 1)[2 * j].weight + Items(w, c - 1)[2 * j + 1].weight
  {
    hide Items, Pairs;
    PairIs(Items(w, c - 1), j);
  }

  lemma {:induction false} PairIs(s: seq<Leaf>, j: nat)
    ensures j < |Pairs(s)| ==> Pairs(s)[j].weight == s[2 * j].weight + s[2 * j + 1].weight
  {}

  lemma {:induction false} PackagesWeight(w: seq<Leaf>, c: nat, j: nat)
    requires 0 < c && 2 * j <= |Items(w, c - 1)|
    ensures j <= |Packages(w, c)| && Weight(Packages(w, c), j) == Weight(Items(w, c - 1), 2 * j)
  {
    hide Items, Weight, Pairs;
    PairsWeight(Items(w, c - 1), j);
  }

  /** Item r of a list is its next leaf if that is lighter than its next package, else that package. */
  lemma {:induction false} ItemIs(w: seq<Leaf>, c: nat, r: nat)
    requires r < |Items(w, c)|
    ensures var p, t := Packages(w, c), Taken(Packages(w, c), w, r);
            if r - t < |p| && (t == |w| || p[r - t].weight <= w[t].weight)
            then Items(w, c)[r] == p[r - t] && Taken(p, w, r + 1) == t
            else t < |w| && Items(w, c)[r] == w[t] && Taken(p, w, r + 1) == t + 1
  {
    hide Taken, Packages, Merge;
    TakenStep(Packages(w, c), w, r);
  }

  lemma {:induction false} ItemsWeight(w: seq<Leaf>, c: nat, r: nat)
    requires r <= |Items(w, c)|
    ensures var p, t := Packages(w, c), Taken(Packages(w, c), w, r);
            Weight(Items(w, c), r) == Weight(p, r - t) + Weight(w, t)
  {
    hide Taken, Packages, Merge, Weight;
    MergeWeight(Packages(w, c), w, r);
  }

  // ----- every code is a choice of items ------------------------------------------------------

  /** The code space that the first k lengths take: the sum of 2^(c+1-d), of 2^(c+1) in all. */
  ghost function Room(d: seq<nat>, c: nat, k: nat): (v: nat)
    requires k <= |d|
  {
    if k == 0 then 0 else Room(d, c, k - 1) + if d[k - 1] <= c + 1 then Pow2(c + 1 - d[k - 1]) else 0
  }

  /** The sum of 2^(c+1) - 2^(c+1-d): what the first k lengths are worth in list c, whose items are worth 2^c. */
  ghost function Worth(d: seq<nat>, c: nat, k: nat): (v: int)
    requires k <= |d|
  {
    Shl(k, c + 1) - Room(d, c, k)
  }

  /** Weighted sum of the lengths of the first k leaves. */
  ghost function Cost(w: seq<Leaf>, d: seq<nat>, k: nat): (v: int)
    requires k <= |w| == |d|
  {
    if k == 0 then 0 else Cost(w, d, k - 1) + w[k - 1].weight * d[k - 1]
  }

  /** How many of the first k lengths are positive. */
  ghost function Used(d: seq<nat>, k: nat): (m: nat)
    requires k <= |d|
    ensures m <= k
  {
    if k == 0 then 0 else Used(d, k - 1) + if d[k - 1] > 0 then 1 else 0
  }

  /** Every positive length one less. */
  ghost function Shorter(d: seq<nat>): (e: seq<nat>)
    ensures |e| == |d| && forall k :: 0 <= k < |d| ==> e[k] == if d[k] == 0 then 0 else d[k] - 1
  {
    seq(|d|, k requires 0 <= k < |d| => if d[k] == 0 then 0 else d[k] - 1)
  }

  /** Leaves taken in list c count whole items; the rest is worth half as much as in the list below. */
  lemma {:induction false} WorthStep(d: seq<nat>, c: nat, k: nat)
    requires k <= |d| && forall i :: 0 <= i < |d| ==> d[i] <= c + 1
    ensures Worth(d, c, k) == Shl(Used(d, k), c) + if c == 0 then 0 else Worth(Shorter(d), c - 1, k)
    decreases k
  {
    hide Shl;
    if k == 0 {
      ShlZero(c);
      ShlZero(c + 1);
    } else {
      WorthStep(d, c, k - 1);
      ShlAdd(Used(d, k - 1), 1, c);
      ShlAdd(k - 1, 1, c + 1);
      ShlAdd(k - 1, 1, c);
      Pow2Shl(0, c);
      Pow2Shl(0, c + 1);
    }
  }

  /** The leaves used weigh no less than as many of the lightest. */
  lemma {:induction false} CostStep(w: seq<Leaf>, d: seq<nat>, k: nat)
    requires k <= |w| == |d| && Sorted(w)
    ensures Weight(w, Used(d, k)) + Cost(w, Shorter(d), k) <= Cost(w, d, k)
    decreases k
  {
    hide Sorted;
    if k > 0 {
      CostStep(w, d, k - 1);
      if d[k - 1] > 0 {
        SortedLe(w, Used(d, k - 1), k - 1);
        assert w[k - 1].weight * d[k - 1] == w[k - 1].weight * (d[k - 1] - 1) + w[k - 1].weight;
      }
    }
  }

  lemma {:induction false} NoWeight(s: seq<Leaf>)
    ensures Weight(s, 0) == 0
  {}

  lemma {:induction false} WeightMore(w: seq<Leaf>, i: nat, j: nat)
    requires i <= j <= |w| && forall k :: 0 <= k < |w| ==> 0 < w[k].weight
    ensures Weight(w, i) <= Weight(w, j)
    decreases j
  {
    if i < j { WeightMore(w, i, j - 1); }
  }

  lemma {:induction false} CostNonNegative(w: seq<Leaf>, d: seq<nat>, k: nat)
    requires k <= |w| == |d| && forall k :: 0 <= k < |w| ==> 0 < w[k].weight
    ensures 0 <= Cost(w, d, k)
  {
    if k > 0 { CostNonNegative(w, d, k - 1); }
  }

  /** Lengths worth r items of list c weigh no less than its first r items. */
  lemma {:induction false} Lightest(w: seq<Leaf>, d: seq<nat>, c: nat, r: nat)
    requires |d| == |w| && Sorted(w) && forall k :: 0 <= k < |w| ==> 0 < w[k].weight && d[k] <= c + 1
    requires Shl(r, c) <= Worth(d, c, |w|)
    ensures r <= |Items(w, c)| && Weight(Items(w, c), r) <= Cost(w, d, |w|)
    decreases c
  {
    hide Sorted, Worth, Cost, Used, Weight, Merge, Packages;
    var n, m := |w|, Used(d, |w|);
    var x := Packages(w, c);
    WorthStep(d, c, n);
    CostStep(w, d, n);
    CostNonNegative(w, Shorter(d), n);
    ItemsSorted(w, c);
    if r <= m {
      WeightMore(w, r, m);
      MergeLightest(x, w, r, r);
      NoWeight(x);
    } else {
      ShlAdd(m, r - m, c);
      ShlPositive(r - m, c);
      ShlDouble(r - m, c);
      Lightest(w, Shorter(d), c - 1, 2 * (r - m));
      PackagesWeight(w, c, r - m);
      MergeLightest(x, w, r, m);
    }
  }

  lemma {:induction false} ShlPositive(x: nat, c: nat)
    requires 0 < x
    ensures 0 < Shl(x, c)
    decreases c
  {
    if c > 0 { ShlPositive(x, c - 1); }
  }

  lemma {:induction false} ShlDouble(x: nat, c: nat)
    requires 0 < c
    ensures Shl(2 * x, c - 1) == Shl(x, c)
  {
    ShlShl(x, 1, c - 1);
    assert Shl(x, 1) == 2 * Shl(x, 0);
  }
}
