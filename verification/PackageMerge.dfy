/** Length-limited Huffman code lengths by boundary package-merge (Katajainen, Moffat, Turpin 1995).

    Every list holds only its last two chains. A chain of list c stands for the first r items of that
    list: `index` of them are leaves, the others are packages, each made of two items of list c-1, so
    its tail stands for the first 2(r - index) items of list c-1. */
module PackageMerge {
  import opened Bits
  import opened Huffman
  import opened LeafSort
  import opened PackageItems

  // ----- chains -------------------------------------------------------------------------------

  datatype Chain = Nil | Node(weight: int, index: nat, tail: Chain)

  /** `x` stands for the first `r` items of list `c` over `n` leaves. List 0 holds only the leaves
      and stops at the last one however many items are asked of it. */
  ghost predicate Good(x: Chain, n: nat, c: nat, r: nat)
    decreases x
  {
    && x.Node? && x.index <= n
    && if c == 0 then x.tail.Nil? && x.index == Min(r, n)
       else
         && x.index <= r
         && if r == x.index then x.tail.Nil?
            else Good(x.tail, n, c - 1, 2 * (r - x.index)) && x.tail.index <= x.index
  }

  /** True number of items of list `c`. */
  ghost function Size(n: nat, c: nat): (s: nat)
    ensures n <= s
  {
    if c == 0 then n else n + Size(n, c - 1) / 2
  }

  /** A list asked for all of its items has taken all leaves; one asked for no more than that has not
      used its predecessor beyond its size. */
  lemma {:induction false} Exhausted(x: Chain, n: nat, c: nat, r: nat)
    requires Good(x, n, c, r)
    ensures r >= Size(n, c) ==> x.index == n
    ensures c > 0 && r <= Size(n, c) ==> 2 * (r - x.index) <= Size(n, c - 1)
    decreases x
  {
    if c > 0 && r != x.index { Exhausted(x.tail, n, c - 1, 2 * (r - x.index)); }
  }

  /** After 2n - 2 items every list has taken all leaves. */
  lemma {:induction false} AllLeaves(x: Chain, n: nat, c: nat, r: nat)
    requires Good(x, n, c, r) && n >= 2 && r >= 2 * n - 2
    ensures x.index == n
    decreases x
  {
    if c > 0 && x.index < n { AllLeaves(x.tail, n, c - 1, 2 * (r - x.index)); }
  }

  /** When 2^(c+1) >= n, list c has at least 2n - 2 items. */
  lemma {:induction false} SizeEnough(n: nat, c: nat, k: nat)
    requires n <= Pow2(c + k)
    ensures 2 * n - Size(n, c) <= Pow2(k)
    decreases c
  {
    if c > 0 { SizeEnough(n, c - 1, k + 1); }
  }

  // ----- the Kraft sum of a chain -------------------------------------------------------------

  /** Code length of leaf `i`: in how many lists of the chain it was taken. */
  function LenOf(x: Chain, i: nat): (l: nat)
    decreases x
  {
    if x.Nil? then 0 else (if i < x.index then 1 else 0) + LenOf(x.tail, i)
  }

  lemma {:induction false} LenBound(x: Chain, n: nat, c: nat, r: nat, i: nat)
    requires Good(x, n, c, r)
    ensures LenOf(x, i) <= c + 1
    ensures x.index <= i ==> LenOf(x, i) == 0
    decreases x
  {
    if c > 0 && r != x.index { LenBound(x.tail, n, c - 1, 2 * (r - x.index), i); }
  }

  /** Sum over the first `m` leaves of 2^(c + 1 - length). */
  ghost function ChainSum(x: Chain, c: nat, m: nat): (s: nat)
    decreases m
  {
    if m == 0 then 0
    else ChainSum(x, c, m - 1) + (if LenOf(x, m - 1) <= c + 1 then Pow2(c + 1 - LenOf(x, m - 1)) else 0)
  }

  lemma {:induction false} SumWithTail(x: Chain, n: nat, c: nat, r: nat, m: nat)
    requires Good(x, n, c, r) && c > 0 && r != x.index && m <= x.index && x.tail.Node?
    ensures if m <= x.tail.index then ChainSum(x, c, m) == ChainSum(x.tail, c - 1, m)
            else ChainSum(x, c, m) == ChainSum(x.tail, c - 1, x.tail.index) + Shl(m - x.tail.index, c)
    decreases m
  {
    if m == 0 {
    } else {
      SumWithTail(x, n, c, r, m - 1);
      LenBound(x.tail, n, c - 1, 2 * (r - x.index), m - 1);
      if m > x.tail.index {
        ShlAdd(m - 1 - x.tail.index, 1, c);
        Pow2Shl(0, c);
        ShlZero(c);
      }
    }
  }

  lemma {:induction false} SumWithoutTail(x: Chain, c: nat, m: nat)
    requires x.Node? && x.tail.Nil? && m <= x.index
    ensures ChainSum(x, c, m) == Shl(m, c)
    decreases m
  {
    if m == 0 {
      ShlZero(c);
    } else {
      SumWithoutTail(x, c, m - 1);
      assert LenOf(x, m - 1) == 1 + LenOf(x.tail, m - 1);
      ShlAdd(m - 1, 1, c);
      Pow2Shl(0, c);
    }
  }

  /** A chain for r true items with a leaves has Kraft sum 2^c (2a - r), in units of 2^-(c+1). */
  lemma {:induction false} ChainKraft(x: Chain, n: nat, c: nat, r: nat)
    requires Good(x, n, c, r) && r <= Size(n, c)
    ensures ChainSum(x, c, x.index) + Shl(r, c) == Shl(2 * x.index, c)
    decreases x
  {
    hide ChainSum, LenOf, Shl;
    var a := x.index;
    if x.tail.Nil? {
      SumWithoutTail(x, c, a);
      ShlAdd(a, a, c);
    } else {
      var y, p := x.tail, r - a;
      Exhausted(x, n, c, r);
      ChainKraft(y, n, c - 1, 2 * p);
      SumWithTail(x, n, c, r, a);
      TelescopeShl(a, y.index, p, c);
      assert if a == y.index then ChainSum(x, c, a) == ChainSum(y, c - 1, y.index)
             else ChainSum(x, c, a) == ChainSum(y, c - 1, y.index) + Shl(a - y.index, c);
      if a == y.index { ShlZero(c); }
    }
  }

  /** 2^(c-1)(2b) - 2^(c-1)(2p) + 2^c (a - b) + 2^c (a + p) == 2^c (2a). */
  lemma {:induction false} TelescopeShl(a: nat, b: nat, p: nat, c: nat)
    requires b <= a && 0 < c
    ensures Shl(2 * b, c - 1) == Shl(b, c) && Shl(2 * p, c - 1) == Shl(p, c)
    ensures Shl(b, c) + Shl(a - b, c) + Shl(a + p, c) == Shl(2 * a, c) + Shl(p, c)
  {
    ShlDouble(b, c);
    ShlDouble(p, c);
    ShlAdd(b, a - b, c);
    ShlAdd(a, p, c);
    ShlAdd(a, a, c);
  }

  // ----- boundary package-merge ---------------------------------------------------------------

  lemma {:induction false} SizeIs(w: seq<Leaf>, c: nat)
    ensures |Items(w, c)| == Size(|w|, c)
  {
    hide Merge;
    if c > 0 { SizeIs(w, c - 1); }
  }

  /** What the leaves taken by a chain weigh, in all of its lists. */
  ghost function ChainCost(w: seq<Leaf>, x: Chain): (v: int)
    decreases x
  {
    if x.Nil? || |w| < x.index then 0 else Weight(w, x.index) + ChainCost(w, x.tail)
  }

  /** As long as the list has items, x1 holds exactly its first r: their leaves, their whole weight, and the
      weight of the last of them; x0 has the weight of the one before. */
  ghost predicate Exact(w: seq<Leaf>, x0: Chain, x1: Chain, c: nat, r: nat)
    requires x0.Node? && x1.Node?
  {
    var s := Items(w, c);
    r <= |s| ==>
      && 2 <= r && x1.index == Taken(Packages(w, c), w, r) && ChainCost(w, x1) == Weight(s, r)
      && x1.weight == s[r - 1].weight && x0.weight == s[r - 2].weight
  }

  /** Every list starts with the two lightest leaves. */
  lemma {:induction false} FirstItems(w: seq<Leaf>, c: nat)
    requires |w| >= 2 && w[0].weight <= w[1].weight && 0 < w[0].weight
    ensures |Items(w, c)| >= 2 && Items(w, c)[0] == w[0] && Items(w, c)[1] == w[1] && Taken(Packages(w, c), w, 2) == 2
  {
    hide Items, Packages;
    if c > 0 {
      FirstItems(w, c - 1);
      PackageIs(w, c, 0);
    } else {
      NoPackages(w);
    }
    ItemIs(w, c, 0);
    ItemIs(w, c, 1);
  }

  lemma {:induction false} NoPackages(w: seq<Leaf>)
    ensures Packages(w, 0) == []
  {}

  lemma {:induction false} FirstExact(w: seq<Leaf>, c: nat)
    requires |w| >= 2 && w[0].weight <= w[1].weight && 0 < w[0].weight
    ensures Exact(w, Node(w[0].weight, 1, Nil), Node(w[1].weight, 2, Nil), c, 2)
  {
    hide Items, Packages, Taken;
    FirstItems(w, c);
    var s := Items(w, c);
    assert Weight(w, 2) == Weight(w, 1) + w[1].weight && Weight(w, 1) == Weight(w, 0) + w[0].weight;
    assert Weight(s, 2) == Weight(s, 1) + s[1].weight && Weight(s, 1) == Weight(s, 0) + s[0].weight;
    assert ChainCost(w, Nil) == 0;
  }

  /** Two items of the list below make the next package; past its end there are none. */
  lemma {:induction false} NextPackage(w: seq<Leaf>, t: nat, c: nat, r: nat, y0: Chain, y1: Chain, s: nat)
    requires c > 0 && r < |Items(w, c)| && t == Taken(Packages(w, c), w, r)
    requires y0.Node? && y1.Node? && Sorted(w) && ListOk(w, y0, y1, c - 1, s) && s == 2 * (r - t) + 2
    ensures r - t < |Packages(w, c)| ==> s <= |Items(w, c - 1)| && Packages(w, c)[r - t].weight == y0.weight + y1.weight
    ensures |Packages(w, c)| <= r - t ==> t < |w| && w[t].weight < y0.weight + y1.weight
  {
    hide Taken, Items, Packages, Good, Weight, ChainCost, Sorted;
    PackageIs(w, c, r - t);
    if |Packages(w, c)| <= r - t {
      SizeIs(w, c - 1);
      Exhausted(y1, |w|, c - 1, s);
      SortedLe(w, t, |w| - 1);
    }
  }

  lemma {:induction false} ExactLeaf(w: seq<Leaf>, x0: Chain, x1: Chain, c: nat, r: nat)
    requires x0.Node? && x1.Node? && Exact(w, x0, x1, c, r) && x1.index < |w|
    requires r < |Items(w, c)| && x1.index <= r && r - x1.index < |Packages(w, c)| ==>
               w[x1.index].weight < Packages(w, c)[r - x1.index].weight
    ensures Exact(w, x1, Node(w[x1.index].weight, x1.index + 1, x1.tail), c, r + 1)
  {
    hide Taken, Items, Packages;
    if r < |Items(w, c)| { ItemIs(w, c, r); }
  }

  lemma {:induction false} ExactPackage(w: seq<Leaf>, x0: Chain, x1: Chain, c: nat, r: nat, y0: Chain, y1: Chain, s: nat)
    requires x0.Node? && x1.Node? && Exact(w, x0, x1, c, r) && x1.index <= |w|
    requires y0.Node? && y1.Node? && c > 0 && Sorted(w) && ListOk(w, y0, y1, c - 1, s) && x1.index <= r && s == 2 * (r - x1.index) + 2
    requires x1.index < |w| ==> y0.weight + y1.weight <= w[x1.index].weight
    ensures Exact(w, x1, Node(y0.weight + y1.weight, x1.index, y1), c, r + 1)
  {
    hide Taken, Items, Packages, Good, Weight, Sorted;
    if r < |Items(w, c)| {
      NextPackage(w, x1.index, c, r, y0, y1, s);
      ItemIs(w, c, r);
      ItemsWeight(w, c, r + 1);
      PackagesWeight(w, c, r + 1 - x1.index);
    }
  }

  /** The two chains of one list: `x1` stands for its first `r` items and `x0` for one item less. */
  ghost predicate ListOk(w: seq<Leaf>, x0: Chain, x1: Chain, c: nat, r: nat) {
    && Good(x1, |w|, c, r) && x0.Node?
    && 0 < x0.weight <= x1.weight
    && 0 < x1.index && w[x1.index - 1].weight <= x1.weight
    && (x1.index < |w| ==> x1.weight <= w[x1.index].weight)
    && Exact(w, x0, x1, c, r)
  }

  /** The next package of a list, made of the chains y0 and y1 of the list below, is no lighter than
      its last item, and the list below stands exactly two items ahead of what was used of it. */
  ghost predicate LinkOk(y0: Chain, y1: Chain, s: nat, x1: Chain, r: nat)
    requires y0.Node? && y1.Node? && x1.Node?
  {
    x1.weight <= y0.weight + y1.weight && x1.index <= r && s == 2 * (r - x1.index) + 2
  }

  lemma {:induction false} TakeFirst(w: seq<Leaf>, x0: Chain, x1: Chain, r: nat)
    requires Sorted(w) && ListOk(w, x0, x1, 0, r) && x1.index < |w|
    ensures ListOk(w, x1, Node(w[x1.index].weight, x1.index + 1, Nil), 0, r + 1)
  {
    hide Exact;
    ExactLeaf(w, x0, x1, 0, r);
  }

  lemma {:induction false} TakeLeaf(w: seq<Leaf>, x0: Chain, x1: Chain, c: nat, r: nat, y0: Chain, y1: Chain, s: nat)
    requires Sorted(w) && c > 0 && ListOk(w, x0, x1, c, r) && ListOk(w, y0, y1, c - 1, s)
    requires LinkOk(y0, y1, s, x1, r) && x1.index < |w| && w[x1.index].weight < y0.weight + y1.weight
    ensures ListOk(w, x1, Node(w[x1.index].weight, x1.index + 1, x1.tail), c, r + 1)
  {
    hide Items, Packages, Taken, Weight, ChainCost;
    if r < |Items(w, c)| { NextPackage(w, x1.index, c, r, y0, y1, s); }
    ExactLeaf(w, x0, x1, c, r);
    hide Exact;
  }

  lemma {:induction false} TakePackage(w: seq<Leaf>, x0: Chain, x1: Chain, c: nat, r: nat, y0: Chain, y1: Chain, s: nat)
    requires Sorted(w) && c > 0 && ListOk(w, x0, x1, c, r) && ListOk(w, y0, y1, c - 1, s)
    requires LinkOk(y0, y1, s, x1, r)
    requires x1.index < |w| ==> y0.weight + y1.weight <= w[x1.index].weight
    ensures ListOk(w, x1, Node(y0.weight + y1.weight, x1.index, y1), c, r + 1)
  {
    hide Exact;
    if x1.index < y1.index { SortedLe(w, x1.index, y1.index - 1); assert false; }
    assert Good(y1, |w|, c - 1, 2 * (r + 1 - x1.index));
    ExactPackage(w, x0, x1, c, r, y0, y1, s);
  }

  class Lists {
    var chains0: seq<Chain>
    var chains1: seq<Chain>
    /** How many items have been asked of each list. */
    ghost var asked: seq<nat>

    /** Lists 0 to c are in step with one another. */
    ghost predicate UpTo(w: seq<Leaf>, c: nat)
      reads this
    {
      && c < |chains0| == |chains1| == |asked|
      && (forall j: nat :: j <= c ==> ListOk(w, chains0[j], chains1[j], j, asked[j]))
      && (forall j: nat :: 0 < j <= c ==> LinkOk(chains0[j - 1], chains1[j - 1], asked[j - 1], chains1[j], asked[j]))
    }

    constructor (w: seq<Leaf>, listsize: nat)
      requires |w| >= 2 && Sorted(w) && forall i :: 0 <= i < |w| ==> 0 < w[i].weight
      ensures |chains0| == |chains1| == |asked| == listsize
      ensures forall c :: 0 <= c < listsize ==> UpTo(w, c) && asked[c] == 2
    {
      chains0 := seq(listsize, _ => Node(w[0].weight, 1, Nil));
      chains1 := seq(listsize, _ => Node(w[1].weight, 2, Nil));
      asked := seq(listsize, _ => 2);
      new;
      forall j: nat | j < listsize ensures ListOk(w, chains0[j], chains1[j], j, asked[j]) {
        assert w[0].weight <= w[1].weight;
        FirstExact(w, j);
      }
    }

    /** Adds one item to list c: its next leaf or its next package, whichever is lighter. */
    method AddItem(w: seq<Leaf>, c: nat) returns (package: bool)
      requires Sorted(w) && UpTo(w, c)
      modifies this
      ensures |chains0| == |chains1| == |asked| == old(|asked|)
      ensures asked[c] == old(asked[c]) + 1 && ListOk(w, chains0[c], chains1[c], c, asked[c])
      ensures forall j: nat :: j < |asked| && j != c ==>
                chains0[j] == old(chains0[j]) && chains1[j] == old(chains1[j]) && asked[j] == old(asked[j])
      ensures old(chains0[c].Node? && chains1[c].Node?)
      ensures chains0[c].weight >= old(chains0[c].weight) && chains1[c].weight >= old(chains1[c].weight)
      ensures !package ==> UpTo(w, c)
      ensures package ==> c > 0 && chains0[c - 1].Node? && chains1[c - 1].Node?
                          && chains1[c].weight == chains0[c - 1].weight + chains1[c - 1].weight
                          && chains1[c].index <= asked[c] && asked[c - 1] == 2 * (asked[c] - chains1[c].index)
    {
      hide Good, ListOk, LinkOk, Sorted;
      var x0, x1 := chains0[c], chains1[c];
      ghost var r := asked[c];
      ListFacts(w, x0, x1, c, r);
      var lastindex := x1.index;
      package := false;
      if c == 0 {
        if lastindex >= |w| {
          AskAgain(w, x0, x1, r);
          asked := asked[c := r + 1];
          return;
        }
        TakeFirst(w, x0, x1, r);
        chains0 := chains0[c := x1];
        chains1 := chains1[c := Node(w[lastindex].weight, lastindex + 1, Nil)];
      } else {
        var y0, y1 := chains0[c - 1], chains1[c - 1];
        ghost var s := asked[c - 1];
        ListFacts(w, y0, y1, c - 1, s);
        LinkFacts(y0, y1, s, x1, r);
        var sum := y0.weight + y1.weight;
        chains0 := chains0[c := x1];
        if lastindex < |w| && sum > w[lastindex].weight {
          TakeLeaf(w, x0, x1, c, r, y0, y1, s);
          LinkIs(y0, y1, s, Node(w[lastindex].weight, lastindex + 1, x1.tail), r + 1);
          chains1 := chains1[c := Node(w[lastindex].weight, lastindex + 1, x1.tail)];
        } else {
          TakePackage(w, x0, x1, c, r, y0, y1, s);
          chains1 := chains1[c := Node(sum, lastindex, y1)];
          package := true;
        }
      }
      asked := asked[c := r + 1];
    }

    /** Adds one item to list c, and brings the lists below up to date unless this was the last item
        needed. */
    method BoundaryPM(w: seq<Leaf>, c: nat, num: nat)
      requires Sorted(w) && UpTo(w, c)
      modifies this
      ensures |chains0| == |chains1| == |asked| == old(|asked|)
      ensures asked[c] == old(asked[c]) + 1 && ListOk(w, chains0[c], chains1[c], c, asked[c])
      ensures num + 1 < 2 * |w| - 2 ==> UpTo(w, c)
      ensures forall j: nat :: c < j < |asked| ==>
                chains0[j] == old(chains0[j]) && chains1[j] == old(chains1[j]) && asked[j] == old(asked[j])
      ensures old(chains0[c].Node? && chains1[c].Node?)
      ensures chains0[c].weight >= old(chains0[c].weight) && chains1[c].weight >= old(chains1[c].weight)
      decreases c
    {
      hide Good, ListOk, LinkOk, Sorted;
      var package := AddItem(w, c);
      if package && num + 1 < 2 * |w| - 2 {
        assert UpTo(w, c - 1);
        BoundaryPM(w, c - 1, num);
        BoundaryPM(w, c - 1, num);
        ListFacts(w, chains0[c], chains1[c], c, asked[c]);
        ListFacts(w, chains0[c - 1], chains1[c - 1], c - 1, asked[c - 1]);
        LinkIs(chains0[c - 1], chains1[c - 1], asked[c - 1], chains1[c], asked[c]);
      }
    }
  }

  lemma {:induction false} ListFacts(w: seq<Leaf>, x0: Chain, x1: Chain, c: nat, r: nat)
    requires ListOk(w, x0, x1, c, r)
    ensures x0.Node? && x1.Node? && 0 < x0.weight <= x1.weight && 0 < x1.index <= |w|
    ensures x1.index < |w| ==> x1.weight <= w[x1.index].weight
  {}

  lemma {:induction false} LinkFacts(y0: Chain, y1: Chain, s: nat, x1: Chain, r: nat)
    requires y0.Node? && y1.Node? && x1.Node? && LinkOk(y0, y1, s, x1, r)
    ensures x1.weight <= y0.weight + y1.weight && x1.index <= r && s == 2 * (r - x1.index) + 2
  {}

  lemma {:induction false} LinkIs(y0: Chain, y1: Chain, s: nat, x1: Chain, r: nat)
    requires y0.Node? && y1.Node? && x1.Node?
    requires x1.weight <= y0.weight + y1.weight && x1.index <= r && s == 2 * (r - x1.index) + 2
    ensures LinkOk(y0, y1, s, x1, r)
  {}

  /** Asking the exhausted first list again changes nothing. */
  lemma {:induction false} AskAgain(w: seq<Leaf>, x0: Chain, x1: Chain, r: nat)
    requires ListOk(w, x0, x1, 0, r) && x1.index >= |w|
    ensures ListOk(w, x0, x1, 0, r + 1)
  {
    SizeIs(w, 0);
  }

  // ----- code lengths -------------------------------------------------------------------------

  /** The leaves of an alphabet: one for each symbol with a frequency, in some order. */
  ghost predicate LeavesOf(frequencies: seq<nat>, w: seq<Leaf>) {
    && (forall k :: 0 <= k < |w| ==> w[k].index < |frequencies| && w[k].weight == frequencies[w[k].index] && 0 < w[k].weight)
    && (forall i, k :: 0 <= i < k < |w| ==> w[i].index != w[k].index)
    && (forall j :: 0 <= j < |frequencies| && frequencies[j] > 0 ==> Leaf(frequencies[j], j) in w)
  }

  lemma {:induction false} CountTwice(s: seq<Leaf>, i: nat, j: nat)
    requires i < j < |s| && s[i] == s[j]
    ensures multiset(s)[s[i]] >= 2
  {
    assert s == s[..j] + s[j..];
    assert s[i] in s[..j] && s[i] in s[j..] by { assert s[..j][i] == s[i] && s[j..][0] == s[j]; }
  }

  lemma {:induction false} CountOnce(s: seq<Leaf>, x: Leaf)
    requires forall i, j :: 0 <= i < j < |s| ==> s[i] != s[j]
    ensures multiset(s)[x] <= 1
  {
    if s != [] {
      var t := s[..|s| - 1];
      assert s == t + [s[|s| - 1]];
      CountOnce(t, x);
      if x == s[|s| - 1] { assert x !in t; }
    }
  }

  /** Sorting keeps the leaves of the alphabet. */
  lemma {:induction false} SortKeepsLeaves(frequencies: seq<nat>, w: seq<Leaf>, v: seq<Leaf>)
    requires LeavesOf(frequencies, w) && multiset(v) == multiset(w)
    ensures LeavesOf(frequencies, v) && |v| == |w|
  {
    assert |multiset(v)| == |v| && |multiset(w)| == |w|;
    forall k | 0 <= k < |v|
      ensures v[k].index < |frequencies| && v[k].weight == frequencies[v[k].index] && 0 < v[k].weight
    {
      assert v[k] in multiset(v);
      assert v[k] in w;
    }
    forall i, k | 0 <= i < k < |v| ensures v[i].index != v[k].index {
      if v[i].index == v[k].index {
        assert v[i] == v[k];
        CountTwice(v, i, k);
        CountOnce(w, v[i]);
      }
    }
    forall j | 0 <= j < |frequencies| && frequencies[j] > 0 ensures Leaf(frequencies[j], j) in v {
      assert Leaf(frequencies[j], j) in multiset(w);
    }
  }

  method CollectLeaves(frequencies: seq<nat>) returns (leaves: seq<Leaf>)
    ensures LeavesOf(frequencies, leaves)
  {
    leaves := [];
    var i := 0;
    while i != |frequencies|
      invariant 0 <= i <= |frequencies|
      invariant forall k :: 0 <= k < |leaves| ==>
                  leaves[k].index < i && leaves[k].weight == frequencies[leaves[k].index] && 0 < leaves[k].weight
      invariant forall j, k :: 0 <= j < k < |leaves| ==> leaves[j].index != leaves[k].index
      invariant forall j :: 0 <= j < i && frequencies[j] > 0 ==> Leaf(frequencies[j], j) in leaves
    {
      if frequencies[i] > 0 {
        leaves := leaves + [Leaf(frequencies[i], i)];
      }
      i := i + 1;
    }
  }

  /** Setting the length of a symbol that had none adds the room of its code. */
  lemma {:induction false} SpaceUpdate(lengths: seq<nat>, k: nat, l: nat)
    requires k < |lengths| && lengths[k] == 0 && 0 < l <= MAX_BITS
    ensures Kraft(lengths[k := l]) == Kraft(lengths) + Pow2(MAX_BITS - l)
  {
    var t := lengths[..|lengths| - 1];
    if k == |lengths| - 1 {
      assert lengths[k := l][..|lengths| - 1] == t;
    } else {
      assert lengths[k := l][..|lengths| - 1] == t[k := l];
      SpaceUpdate(t, k, l);
    }
  }

  lemma {:induction false} SpaceZeros(lengths: seq<nat>)
    requires forall i :: 0 <= i < |lengths| ==> lengths[i] == 0
    ensures Kraft(lengths) == 0
  {
    if lengths != [] { SpaceZeros(lengths[..|lengths| - 1]); }
  }

  /** `lengths` gives the first m leaves their lengths in chain x and everything else 0. */
  ghost predicate Assigned(lengths: seq<nat>, w: seq<Leaf>, x: Chain, m: nat) {
    && m <= |w|
    && (forall k :: 0 <= k < |w| ==> w[k].index < |lengths|)
    && (forall k :: 0 <= k < m ==> lengths[w[k].index] == LenOf(x, k))
    && (forall j :: 0 <= j < |lengths| && (forall k :: 0 <= k < m ==> w[k].index != j) ==> lengths[j] == 0)
  }

  lemma {:induction false} AssignedKraft(lengths: seq<nat>, w: seq<Leaf>, x: Chain, c: nat, m: nat)
    requires Assigned(lengths, w, x, m) && c < MAX_BITS
    requires forall i, k :: 0 <= i < k < |w| ==> w[i].index != w[k].index
    requires forall k :: 0 <= k < m ==> 0 < LenOf(x, k) <= c + 1
    ensures Kraft(lengths) == Shl(ChainSum(x, c, m), MAX_BITS - (c + 1))
    decreases m
  {
    hide LenOf, Kraft, Shl, Assigned, Pow2;
    var sh := MAX_BITS - (c + 1);
    if m == 0 {
      NoneAssigned(lengths, w, x);
      ShlZero(sh);
    } else {
      DropLast(lengths, w, x, m);
      var k, l := w[m - 1].index, LenOf(x, m - 1);
      var before := lengths[k := 0];
      AssignedKraft(before, w, x, c, m - 1);
      SpaceUpdate(before, k, l);
      assert before[k := l] == lengths;
      ShlAdd(ChainSum(x, c, m - 1), Pow2(c + 1 - l), sh);
      Pow2Shl(c + 1 - l, sh);
    }
  }

  lemma {:induction false} NoneAssigned(lengths: seq<nat>, w: seq<Leaf>, x: Chain)
    requires Assigned(lengths, w, x, 0)
    ensures Kraft(lengths) == 0
  {
    hide Kraft;
    SpaceZeros(lengths);
  }

  lemma {:induction false} DropLast(lengths: seq<nat>, w: seq<Leaf>, x: Chain, m: nat)
    requires Assigned(lengths, w, x, m) && 0 < m
    requires forall i, k :: 0 <= i < k < |w| ==> w[i].index != w[k].index
    ensures m <= |w| && w[m - 1].index < |lengths| && lengths[w[m - 1].index] == LenOf(x, m - 1)
    ensures Assigned(lengths[w[m - 1].index := 0], w, x, m - 1)
  {
    hide LenOf;
    var before := lengths[w[m - 1].index := 0];
    forall j | 0 <= j < |before| && (forall k :: 0 <= k < m - 1 ==> w[k].index != j) ensures before[j] == 0 {
      if j != w[m - 1].index {
        assert forall k :: 0 <= k < m ==> w[k].index != j;
      }
    }
  }

  /** Lengths taken from the final chain: one more for each list in which a leaf was taken. */
  method CountChain(w: seq<Leaf>, x: Chain, size: nat) returns (lengths: seq<nat>)
    requires x.Node? ==> ChainWithin(x, |w|)
    requires forall k :: 0 <= k < |w| ==> w[k].index < size
    requires forall i, k :: 0 <= i < k < |w| ==> w[i].index != w[k].index
    ensures |lengths| == size && Assigned(lengths, w, x, |w|)
  {
    lengths := seq(size, _ => 0);
    var node := x;
    while node.Node?
      invariant |lengths| == size && (node.Node? ==> ChainWithin(node, |w|))
      invariant forall k :: 0 <= k < |w| ==> lengths[w[k].index] + LenOf(node, k) == LenOf(x, k)
      invariant forall j :: 0 <= j < size && (forall k :: 0 <= k < |w| ==> w[k].index != j) ==> lengths[j] == 0
      decreases node
    {
      lengths := CountNode(w, lengths, node.index);
      node := node.tail;
    }
  }

  /** No node of the chain takes more leaves than there are. */
  ghost predicate ChainWithin(x: Chain, n: nat)
    decreases x
  {
    x.Node? ==> x.index <= n && ChainWithin(x.tail, n)
  }

  lemma {:induction false} GoodWithin(x: Chain, n: nat, c: nat, r: nat)
    requires Good(x, n, c, r)
    ensures ChainWithin(x, n)
    decreases x
  {
    if c > 0 && r != x.index { GoodWithin(x.tail, n, c - 1, 2 * (r - x.index)); }
  }

  method CountNode(w: seq<Leaf>, lengths: seq<nat>, index: nat) returns (lengths': seq<nat>)
    requires index <= |w|
    requires forall k :: 0 <= k < |w| ==> w[k].index < |lengths|
    requires forall i, k :: 0 <= i < k < |w| ==> w[i].index != w[k].index
    ensures |lengths'| == |lengths|
    ensures forall k :: 0 <= k < |w| ==> lengths'[w[k].index] == lengths[w[k].index] + if k < index then 1 else 0
    ensures forall j :: 0 <= j < |lengths| && (forall k :: 0 <= k < |w| ==> w[k].index != j) ==> lengths'[j] == lengths[j]
  {
    lengths' := lengths;
    var i := 0;
    while i != index
      invariant 0 <= i <= index && |lengths'| == |lengths|
      invariant forall k :: 0 <= k < |w| ==> lengths'[w[k].index] == lengths[w[k].index] + if k < i then 1 else 0
      invariant forall j :: 0 <= j < |lengths| && (forall k :: 0 <= k < |w| ==> w[k].index != j) ==> lengths'[j] == lengths[j]
    {
      lengths' := lengths'[w[i].index := lengths'[w[i].index] + 1];
      i := i + 1;
    }
  }

  // ----- the best code ------------------------------------------------------------------------

  /** What a text with these frequencies takes when coded with these lengths. */
  function Weighted(frequencies: seq<nat>, lengths: seq<nat>): (v: nat)
    requires |lengths| == |frequencies|
  {
    if lengths == [] then 0
    else
      var k := |lengths| - 1;
      Weighted(frequencies[..k], lengths[..k]) + frequencies[k] * lengths[k]
  }

  /** Lengths of a prefix code for every symbol in use, none above `maxbitlen`. */
  ghost predicate CodeFor(frequencies: seq<nat>, lengths: seq<nat>, maxbitlen: nat) {
    && |lengths| == |frequencies|
    && Kraft(lengths) <= FULL
    && (forall i :: 0 <= i < |lengths| ==> lengths[i] <= maxbitlen)
    && (forall i :: 0 <= i < |lengths| && frequencies[i] > 0 ==> lengths[i] > 0)
  }

  /** No code with lengths up to `maxbitlen` codes a text with these frequencies in fewer bits. */
  ghost predicate Optimal(frequencies: seq<nat>, lengths: seq<nat>, maxbitlen: nat)
    requires |lengths| == |frequencies|
  {
    forall other | CodeFor(frequencies, other, maxbitlen) :: Weighted(frequencies, lengths) <= Weighted(frequencies, other)
  }

  lemma {:induction false} WeightedUpdate(frequencies: seq<nat>, lengths: seq<nat>, i: nat)
    requires i < |lengths| == |frequencies|
    ensures Weighted(frequencies, lengths) == Weighted(frequencies, lengths[i := 0]) + frequencies[i] * lengths[i]
    decreases |lengths|
  {
    var k := |lengths| - 1;
    if i == k {
      assert lengths[i := 0][..k] == lengths[..k];
    } else {
      assert lengths[i := 0][..k] == lengths[..k][i := 0];
      WeightedUpdate(frequencies[..k], lengths[..k], i);
    }
  }

  lemma {:induction false} WeightedZero(frequencies: seq<nat>, lengths: seq<nat>)
    requires |lengths| == |frequencies| && forall i :: 0 <= i < |lengths| ==> frequencies[i] == 0 || lengths[i] == 0
    ensures Weighted(frequencies, lengths) == 0
    decreases |lengths|
  {
    if lengths != [] { WeightedZero(frequencies[..|lengths| - 1], lengths[..|lengths| - 1]); }
  }

  /** d gives the lengths of the first m leaves. */
  ghost predicate LengthsOf(w: seq<Leaf>, lengths: seq<nat>, d: seq<nat>, m: nat) {
    && m <= |w| == |d|
    && (forall k :: 0 <= k < m ==> w[k].index < |lengths| && d[k] == lengths[w[k].index])
    && (forall i, k :: 0 <= i < k < |w| ==> w[i].index != w[k].index)
  }

  lemma {:induction false} WithoutLast(w: seq<Leaf>, lengths: seq<nat>, d: seq<nat>, m: nat)
    requires LengthsOf(w, lengths, d, m) && 0 < m
    ensures LengthsOf(w, lengths[w[m - 1].index := 0], d, m - 1)
  {}

  lemma {:induction false} LeavesCost(frequencies: seq<nat>, w: seq<Leaf>, lengths: seq<nat>, d: seq<nat>, m: nat)
    requires |lengths| == |frequencies| && LengthsOf(w, lengths, d, m)
    requires forall k :: 0 <= k < m ==> w[k].weight == frequencies[w[k].index]
    requires forall i :: 0 <= i < |lengths| && (forall k :: 0 <= k < m ==> w[k].index != i) ==> frequencies[i] == 0 || lengths[i] == 0
    ensures Cost(w, d, m) == Weighted(frequencies, lengths)
    decreases m
  {
    hide Weighted;
    if m == 0 {
      WeightedZero(frequencies, lengths);
    } else {
      var i := w[m - 1].index;
      var rest := lengths[i := 0];
      WeightedUpdate(frequencies, lengths, i);
      WithoutLast(w, lengths, d, m);
      forall j | 0 <= j < |rest| && (forall k :: 0 <= k < m - 1 ==> w[k].index != j) ensures frequencies[j] == 0 || rest[j] == 0 {
        if j != i { assert forall k :: 0 <= k < m ==> w[k].index != j; }
      }
      LeavesCost(frequencies, w, rest, d, m - 1);
    }
  }

  lemma {:induction false} LeavesRoom(w: seq<Leaf>, lengths: seq<nat>, d: seq<nat>, c: nat, m: nat)
    requires LengthsOf(w, lengths, d, m) && c < MAX_BITS && forall k :: 0 <= k < m ==> 0 < d[k] <= c + 1
    ensures Shl(Room(d, c, m), MAX_BITS - (c + 1)) <= Kraft(lengths)
    decreases m
  {
    hide Kraft, Shl;
    var sh := MAX_BITS - (c + 1);
    if m == 0 {
      ShlZero(sh);
    } else {
      var i, l := w[m - 1].index, d[m - 1];
      var rest := lengths[i := 0];
      WithoutLast(w, lengths, d, m);
      LeavesRoom(w, rest, d, c, m - 1);
      SpaceUpdate(rest, i, l);
      assert rest[i := l] == lengths;
      ShlAdd(Room(d, c, m - 1), Pow2(c + 1 - l), sh);
      Pow2Shl(c + 1 - l, sh);
    }
  }

  /** A code is worth 2n - 2 items of the last list. */
  lemma {:induction false} CodeWorth(w: seq<Leaf>, lengths: seq<nat>, d: seq<nat>, c: nat)
    requires LengthsOf(w, lengths, d, |w|) && 2 <= |w| && c < MAX_BITS && forall k :: 0 <= k < |w| ==> 0 < d[k] <= c + 1
    requires Kraft(lengths) <= FULL
    ensures Shl(2 * |w| - 2, c) <= Worth(d, c, |w|)
  {
    hide Kraft, Shl, Room;
    var n, sh := |w|, MAX_BITS - (c + 1);
    LeavesRoom(w, lengths, d, c, n);
    FullIsPow2();
    Pow2Shl(c + 1, sh);
    if Pow2(c + 1) < Room(d, c, n) { ShlMono(Pow2(c + 1), Room(d, c, n), sh); }
    ShlDouble(n - 1, c + 1);
    ShlAdd(n - 1, 1, c + 1);
    Pow2Shl(0, c + 1);
  }

  /** One list more: every leaf taken in it costs one bit more. */
  lemma {:induction false} CostMore(w: seq<Leaf>, d: seq<nat>, e: seq<nat>, a: nat, k: nat)
    requires k <= |w| == |d| == |e| && a <= |w|
    requires forall i :: 0 <= i < |w| ==> d[i] == e[i] + if i < a then 1 else 0
    ensures Cost(w, d, k) == Cost(w, e, k) + Weight(w, Min(a, k))
    decreases k
  {
    if k > 0 {
      CostMore(w, d, e, a, k - 1);
      if k <= a { assert w[k - 1].weight * d[k - 1] == w[k - 1].weight * e[k - 1] + w[k - 1].weight; }
    }
  }

  lemma {:induction false} CostNone(w: seq<Leaf>, d: seq<nat>, k: nat)
    requires k <= |w| == |d| && forall i :: 0 <= i < |w| ==> d[i] == 0
    ensures Cost(w, d, k) == 0
  {
    if k > 0 { CostNone(w, d, k - 1); }
  }

  lemma {:induction false} ChainCostIs(w: seq<Leaf>, x: Chain, d: seq<nat>)
    requires ChainWithin(x, |w|) && |d| == |w| && forall k: nat :: k < |w| ==> d[k] == LenOf(x, k)
    ensures Cost(w, d, |w|) == ChainCost(w, x)
    decreases x
  {
    hide Cost, Weight;
    if x.Nil? {
      CostNone(w, d, |w|);
    } else {
      var e := seq(|w|, k requires 0 <= k < |w| => LenOf(x.tail, k));
      ChainCostIs(w, x.tail, e);
      CostMore(w, d, e, x.index, |w|);
    }
  }

  /** The final chain gives the best code. */
  lemma {:induction false} ChainOptimal(frequencies: seq<nat>, w: seq<Leaf>, x: Chain, maxbitlen: nat, lengths: seq<nat>)
    requires LeavesOf(frequencies, w) && Sorted(w) && |w| >= 2 && 0 < maxbitlen <= MAX_BITS
    requires ChainWithin(x, |w|) && |lengths| == |frequencies| && Assigned(lengths, w, x, |w|)
    requires 2 * |w| - 2 <= |Items(w, maxbitlen - 1)| && ChainCost(w, x) == Weight(Items(w, maxbitlen - 1), 2 * |w| - 2)
    ensures Optimal(frequencies, lengths, maxbitlen)
  {
    hide Kraft, Weighted, Items, Weight, Cost, Sorted, LenOf;
    var own := seq(|w|, k requires 0 <= k < |w| => LenOf(x, k));
    ChainCostIs(w, x, own);
    assert LengthsOf(w, lengths, own, |w|);
    LeavesCost(frequencies, w, lengths, own, |w|);
    forall other | CodeFor(frequencies, other, maxbitlen) ensures Weighted(frequencies, lengths) <= Weighted(frequencies, other) {
      OtherCode(frequencies, w, other, maxbitlen);
    }
  }

  /** Every code weighs at least as much as the first 2n - 2 items of the last list. */
  lemma {:induction false} OtherCode(frequencies: seq<nat>, w: seq<Leaf>, other: seq<nat>, maxbitlen: nat)
    requires LeavesOf(frequencies, w) && Sorted(w) && |w| >= 2 && 0 < maxbitlen <= MAX_BITS && CodeFor(frequencies, other, maxbitlen)
    ensures 2 * |w| - 2 <= |Items(w, maxbitlen - 1)| && Weight(Items(w, maxbitlen - 1), 2 * |w| - 2) <= Weighted(frequencies, other)
  {
    hide Kraft, Weighted, Items, Weight, Cost, Sorted, Worth, LeavesOf, LengthsOf;
    assert forall k :: 0 <= k < |w| ==> 0 < w[k].weight && w[k].index < |other| && 0 < other[w[k].index] by {
      LeafFacts(frequencies, w);
    }
    var d := seq(|w|, k requires 0 <= k < |w| => other[w[k].index]);
    OtherLengths(frequencies, w, other, d);
    CodeWorth(w, other, d, maxbitlen - 1);
    Lightest(w, d, maxbitlen - 1, 2 * |w| - 2);
  }

  lemma {:induction false} LeafFacts(frequencies: seq<nat>, w: seq<Leaf>)
    requires LeavesOf(frequencies, w)
    ensures forall k :: 0 <= k < |w| ==> w[k].index < |frequencies| && w[k].weight == frequencies[w[k].index] && 0 < w[k].weight
  {}

  lemma {:induction false} OtherLengths(frequencies: seq<nat>, w: seq<Leaf>, other: seq<nat>, d: seq<nat>)
    requires LeavesOf(frequencies, w) && |other| == |frequencies| && |d| == |w|
    requires forall k :: 0 <= k < |w| ==> w[k].index < |other| && d[k] == other[w[k].index]
    ensures LengthsOf(w, other, d, |w|) && Cost(w, d, |w|) == Weighted(frequencies, other)
  {
    hide Weighted, Cost;
    forall i | 0 <= i < |other| && (forall k :: 0 <= k < |w| ==> w[k].index != i) ensures frequencies[i] == 0 {
      assert Leaf(frequencies[i], i) !in w;
    }
    LeavesCost(frequencies, w, other, d, |w|);
  }

  /** With at most one symbol in use one bit for it is best. */
  lemma {:induction false} FewOptimal(frequencies: seq<nat>, lengths: seq<nat>, j: nat, maxbitlen: nat)
    requires j < |lengths| == |frequencies| && lengths[j] == 1 && forall i :: 0 <= i < |frequencies| && i != j ==> frequencies[i] == 0
    ensures Optimal(frequencies, lengths, maxbitlen)
  {
    hide Weighted, Kraft;
    WeightedUpdate(frequencies, lengths, j);
    WeightedZero(frequencies, lengths[j := 0]);
    forall other | CodeFor(frequencies, other, maxbitlen) ensures Weighted(frequencies, lengths) <= Weighted(frequencies, other) {
      WeightedUpdate(frequencies, other, j);
      if frequencies[j] > 0 { assert frequencies[j] <= frequencies[j] * other[j]; }
    }
  }

  // ----- the whole ----------------------------------------------------------------------------

  /** Code lengths of a complete code for the alphabet, none above `maxbitlen`. */
  ghost predicate LengthsFor(frequencies: seq<nat>, lengths: seq<nat>, maxbitlen: nat) {
    && |lengths| == |frequencies|
    && Complete(lengths)
    && (forall i :: 0 <= i < |lengths| ==> lengths[i] <= maxbitlen)
    && (forall i :: 0 <= i < |lengths| && frequencies[i] > 0 ==> lengths[i] > 0)
  }

  method CodeLengths(frequencies: seq<nat>, maxbitlen: nat) returns (error: nat, lengths: seq<nat>)
    requires |frequencies| != 1 && maxbitlen <= MAX_BITS
    ensures error == if |frequencies| == 0 || Pow2(maxbitlen) < |frequencies| then 80 else 0
    ensures error == 0 ==> LengthsFor(frequencies, lengths, maxbitlen) && Optimal(frequencies, lengths, maxbitlen)
    // with two or more symbols in use, only they get codes
    ensures error == 0 && (exists i, j :: 0 <= i < j < |frequencies| && frequencies[i] > 0 && frequencies[j] > 0) ==>
              forall i :: 0 <= i < |lengths| && frequencies[i] == 0 ==> lengths[i] == 0
  {
    hide Kraft, LeavesOf, Assigned, Optimal;
    if |frequencies| == 0 || Pow2(maxbitlen) < |frequencies| { return 80, []; }
    error := 0;
    var leaves := CollectLeaves(frequencies);
    lengths := seq(|frequencies|, _ => 0);
    assert maxbitlen > 0;
    if |leaves| == 0 {
      NoLeaves(frequencies, leaves);
      lengths := lengths[0 := 1][1 := 1];
      TwoSymbols(lengths, 0, 1);
      FewOptimal(frequencies, lengths, 0, maxbitlen);
    } else if |leaves| == 1 {
      OneLeaf(frequencies, leaves);
      var other := if leaves[0].index == 0 then 1 else 0;
      lengths := lengths[leaves[0].index := 1];
      lengths := lengths[other := 1];
      TwoSymbols(lengths, leaves[0].index, other);
      FewOptimal(frequencies, lengths, leaves[0].index, maxbitlen);
    } else {
      var w := SortLeaves(leaves);
      SortKeepsLeaves(frequencies, leaves, w);
      lengths := ChainLengths(frequencies, w, maxbitlen);
    }
  }

  lemma {:induction false} NoLeaves(frequencies: seq<nat>, w: seq<Leaf>)
    requires LeavesOf(frequencies, w) && w == []
    ensures forall i :: 0 <= i < |frequencies| ==> frequencies[i] == 0
  {
    assert forall i :: 0 <= i < |frequencies| ==> Leaf(frequencies[i], i) !in w;
  }

  lemma {:induction false} OneLeaf(frequencies: seq<nat>, w: seq<Leaf>)
    requires LeavesOf(frequencies, w) && |w| == 1
    ensures w[0].index < |frequencies|
    ensures forall i :: 0 <= i < |frequencies| && frequencies[i] > 0 ==> i == w[0].index
  {
    forall i | 0 <= i < |frequencies| && frequencies[i] > 0 ensures i == w[0].index {
      assert Leaf(frequencies[i], i) in w;
    }
  }

  /** Two codes of one bit are complete. */
  lemma {:induction false} TwoSymbols(lengths: seq<nat>, i: nat, j: nat)
    requires i < |lengths| && j < |lengths| && i != j && lengths[i] == lengths[j] == 1
    requires forall k :: 0 <= k < |lengths| && k != i && k != j ==> lengths[k] == 0
    ensures Complete(lengths)
  {
    hide Kraft;
    var one := lengths[j := 0];
    var none := one[i := 0];
    SpaceZeros(none);
    SpaceUpdate(none, i, 1);
    assert none[i := 1] == one;
    SpaceUpdate(one, j, 1);
    assert one[j := 1] == lengths;
    FullIsPow2();
    assert Pow2(MAX_BITS) == 2 * Pow2(MAX_BITS - 1);
  }

  method ChainLengths(frequencies: seq<nat>, w: seq<Leaf>, maxbitlen: nat) returns (lengths: seq<nat>)
    requires LeavesOf(frequencies, w) && Sorted(w) && |w| >= 2
    requires 0 < maxbitlen <= MAX_BITS && |frequencies| <= Pow2(maxbitlen)
    ensures LengthsFor(frequencies, lengths, maxbitlen) && Optimal(frequencies, lengths, maxbitlen)
    ensures forall i :: 0 <= i < |lengths| && frequencies[i] == 0 ==> lengths[i] == 0
  {
    hide Kraft, ListOk, LinkOk, Sorted, Assigned, Good, Optimal, Exact;
    var lists := new Lists(w, maxbitlen);
    var top := maxbitlen - 1;
    var i := 2;
    assert lists.UpTo(w, top);
    while i != 2 * |w| - 2
      invariant 2 <= i <= 2 * |w| - 2
      invariant top < |lists.chains0| == |lists.chains1| == |lists.asked|
      invariant lists.asked[top] == i && ListOk(w, lists.chains0[top], lists.chains1[top], top, i)
      invariant i < 2 * |w| - 2 ==> lists.UpTo(w, top)
    {
      lists.BoundaryPM(w, top, i);
      i := i + 1;
    }
    var x := lists.chains1[top];
    ghost var n := |w|;
    LeafCount(frequencies, w);
    ListGood(w, lists.chains0[top], x, top, 2 * n - 2);
    GoodWithin(x, n, top, 2 * n - 2);
    FinalCost(w, lists.chains0[top], x, top);
    lengths := CountChain(w, x, |frequencies|);
    ChainComplete(frequencies, w, x, maxbitlen, lengths);
    ChainOptimal(frequencies, w, x, maxbitlen, lengths);
  }

  lemma {:induction false} ListGood(w: seq<Leaf>, x0: Chain, x1: Chain, c: nat, r: nat)
    requires ListOk(w, x0, x1, c, r)
    ensures Good(x1, |w|, c, r) && x0.Node? && x1.Node? && Exact(w, x0, x1, c, r)
  {}

  /** The final chain weighs what the first 2n - 2 items of the last list weigh. */
  lemma {:induction false} FinalCost(w: seq<Leaf>, x0: Chain, x1: Chain, c: nat)
    requires 2 <= |w| <= Pow2(c + 1) && x0.Node? && x1.Node? && Exact(w, x0, x1, c, 2 * |w| - 2)
    ensures 2 * |w| - 2 <= |Items(w, c)| && ChainCost(w, x1) == Weight(Items(w, c), 2 * |w| - 2)
  {
    hide ChainCost, Weight, Items;
    SizeEnough(|w|, c, 1);
    assert Pow2(1) == 2;
    SizeIs(w, c);
  }

  function Below(n: nat): (s: set<nat>)
    ensures |s| == n && forall j: nat :: j in s <==> j < n
  {
    if n == 0 then {} else Below(n - 1) + {n - 1}
  }

  /** There are no more leaves than symbols. */
  lemma {:induction false} LeafCount(frequencies: seq<nat>, w: seq<Leaf>)
    requires LeavesOf(frequencies, w)
    ensures |w| <= |frequencies|
  {
    var used: set<nat> := set k | 0 <= k < |w| :: w[k].index;
    IndexSet(w, |w|);
    var all := Below(|frequencies|);
    assert used <= all;
    assert all == used + (all - used);
  }

  lemma {:induction false} IndexSet(w: seq<Leaf>, m: nat)
    requires m <= |w| && forall i, k :: 0 <= i < k < |w| ==> w[i].index != w[k].index
    ensures |set k | 0 <= k < m :: w[k].index| == m
  {
    var s := set k | 0 <= k < m :: w[k].index;
    if m > 0 {
      IndexSet(w, m - 1);
      var t := set k | 0 <= k < m - 1 :: w[k].index;
      assert s == t + {w[m - 1].index};
    }
  }

  /** The final chain gives every leaf a length between 1 and maxbitlen, with Kraft sum exactly 1. */
  lemma {:induction false} ChainComplete(frequencies: seq<nat>, w: seq<Leaf>, x: Chain, maxbitlen: nat, lengths: seq<nat>)
    requires LeavesOf(frequencies, w) && |w| >= 2 && 0 < maxbitlen <= MAX_BITS && |frequencies| <= Pow2(maxbitlen)
    requires Good(x, |w|, maxbitlen - 1, 2 * |w| - 2)
    requires |lengths| == |frequencies| && Assigned(lengths, w, x, |w|)
    ensures LengthsFor(frequencies, lengths, maxbitlen)
    ensures forall i :: 0 <= i < |lengths| && frequencies[i] == 0 ==> lengths[i] == 0
  {
    hide Good, ChainSum, Kraft, LenOf;
    var n, c := |w|, maxbitlen - 1;
    LeafCount(frequencies, w);
    forall k | 0 <= k < n ensures 0 < LenOf(x, k) <= c + 1 { LeafLength(x, n, c, k); }
    TopKraft(x, n, c);
    AssignedKraft(lengths, w, x, c, n);
    Pow2Shl(maxbitlen, MAX_BITS - maxbitlen);
    FullIsPow2();
    forall i | 0 <= i < |lengths| && frequencies[i] > 0 ensures 0 < lengths[i] <= maxbitlen {
      var k :| 0 <= k < |w| && w[k] == Leaf(frequencies[i], i);
      assert lengths[w[k].index] == LenOf(x, k);
    }
  }

  lemma {:induction false} LeafLength(x: Chain, n: nat, c: nat, k: nat)
    requires n >= 2 && Good(x, n, c, 2 * n - 2) && k < n
    ensures 0 < LenOf(x, k) <= c + 1
  {
    AllLeaves(x, n, c, 2 * n - 2);
    LenBound(x, n, c, 2 * n - 2, k);
  }

  lemma {:induction false} TopKraft(x: Chain, n: nat, c: nat)
    requires n >= 2 && Good(x, n, c, 2 * n - 2) && n <= Pow2(c + 1)
    ensures ChainSum(x, c, n) == Pow2(c + 1)
  {
    hide ChainSum, Good;
    AllLeaves(x, n, c, 2 * n - 2);
    SizeEnough(n, c, 1);
    assert Pow2(1) == 2;
    ChainKraft(x, n, c, 2 * n - 2);
    ShlAdd(2 * n - 2, 2, c);
    Pow2Shl(1, c);
  }
}
