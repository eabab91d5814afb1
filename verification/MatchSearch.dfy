/** The LZ77 encoder's search for matches: hash chains over a circular window, and a second set of chains for
    positions with equal runs of zeros. What the search finds is described without the window's tables, by the
    hashes and zero counts of the positions entered so far. */
module MatchSearch {
  import opened Bits
  import opened LZ77

  // ----- zero runs ----------------------------------------------------------------------------

  const MAX_LENGTH: nat := 258

  /** `z` zero bytes stand at position q. */
  predicate ZeroRun(data: seq<byte>, q: nat, z: nat) {
    q + z <= |data| && forall p :: q <= p < q + z ==> data[p] == 0
  }

  /** The exact zero run at q within the first `size` bytes, capped at 258. */
  predicate ExactRun(data: seq<byte>, size: nat, q: nat, z: nat)
    requires size <= |data|
  {
    && ZeroRun(data, q, z) && z <= MAX_LENGTH && q + z <= size
    && (z == MAX_LENGTH || q + z == size || data[q + z] != 0)
  }

  method CountZeros(data: seq<byte>, size: nat, pos: nat) returns (n: nat)
    requires pos <= size <= |data|
    ensures ExactRun(data, size, pos, n)
  {
    var end := if pos + MAX_LENGTH > size then size else pos + MAX_LENGTH;
    n := 0;
    while pos + n != end && data[pos + n] == 0
      invariant pos + n <= end && ZeroRun(data, pos, n)
      decreases end - (pos + n)
    {
      n := n + 1;
    }
  }

  /** The running zero count for position `pos`, given the one for this or the previous position. */
  method UpdateZeros(data: seq<byte>, size: nat, pos: nat, hashval: nat, numzeros: nat) returns (n: nat)
    requires pos < size <= |data|
    requires numzeros == 0 || ExactRun(data, size, pos, numzeros) || (0 < pos && ExactRun(data, size, pos - 1, numzeros))
    ensures hashval == 0 ==> ExactRun(data, size, pos, n)
    ensures hashval != 0 ==> n == 0
  {
    if hashval == 0 {
      if numzeros == 0 {
        n := CountZeros(data, size, pos);
      } else if pos + numzeros > size || data[pos + numzeros - 1] != 0 {
        n := numzeros - 1;
      } else {
        n := numzeros;
      }
    } else {
      n := 0;
    }
  }

  /** The zeros from p on, before `limit`. */
  function Zeros(data: seq<byte>, p: nat, limit: nat): (z: nat)
    requires p <= limit <= |data|
    ensures p + z <= limit
    decreases limit - p
  {
    if p == limit || data[p] != 0 then 0 else 1 + Zeros(data, p + 1, limit)
  }

  lemma {:induction false} ZerosAre(data: seq<byte>, p: nat, limit: nat, z: nat)
    requires p + z <= limit <= |data| && ZeroRun(data, p, z) && (p + z == limit || data[p + z] != 0)
    ensures Zeros(data, p, limit) == z
    decreases z
  {
    if z > 0 {
      assert data[p] == 0;
      ZerosAre(data, p + 1, limit, z - 1);
    }
  }

  /** End of all comparisons at `pos`: the end of the input or the greatest match length. */
  function Limit(size: nat, pos: nat): (l: nat)
  {
    if size < pos + MAX_LENGTH then size else pos + MAX_LENGTH
  }

  // ----- the hash ------------------------------------------------------------------------------

  const HASH_NUM_VALUES: nat := 65536

  /** Three bytes hashed to sixteen bits; fewer at the end of the data. */
  function GetHash(data: seq<byte>, size: nat, pos: nat): (h: nat)
    requires size <= |data|
    ensures h < HASH_NUM_VALUES
  {
    if pos + 2 < size then
      ((data[pos] as bv16) ^ ((data[pos + 1] as bv16) << 4) ^ ((data[pos + 2] as bv16) << 8)) as int
    else if pos >= size then 0
    else if pos + 1 == size then data[pos]
    else ((data[pos] as bv16) ^ ((data[pos + 1] as bv16) << 8)) as int
  }

  /** Circular position of q in a window of w entries: q & (w - 1) for a power of two w. */
  function Slot(q: nat, w: nat): (s: nat)
    requires 0 < w
    ensures s < w
    decreases q
  {
    if q < w then q else Slot(q - w, w)
  }

  lemma {:induction false} SlotDistinct(p: nat, q: nat, w: nat)
    requires 0 < w && q < p < q + w
    ensures Slot(p, w) != Slot(q, w)
    decreases q
  {
    if w <= q { SlotDistinct(p - w, q - w, w); }
  }

  /** How far back slot `h` lies from position `pos`. */
  function Offset(pos: nat, w: nat, h: nat): (off: nat)
    requires 0 < w && h < w
    ensures off < w
  {
    if h <= Slot(pos, w) then Slot(pos, w) - h else Slot(pos, w) - h + w
  }

  lemma {:induction false} SlotBack(pos: nat, w: nat, h: nat)
    requires 0 < w && h < w
    requires w <= pos + 1 || h <= pos
    ensures Offset(pos, w, h) <= pos && Slot(pos - Offset(pos, w, h), w) == h
    decreases pos
  {
    var off := Offset(pos, w, h);
    if w <= pos {
      if w <= pos - w + 1 || h <= pos - w {
        SlotBack(pos - w, w, h);
        assert Slot(pos - off, w) == Slot(pos - w - off, w);
      } else {
        assert Slot(pos, w) == pos - w;
      }
    }
  }

  /** The zero count that position q is entered with. */
  function CountAt(data: seq<byte>, size: nat, q: nat): (z: nat)
    requires q < size <= |data|
    ensures z <= MAX_LENGTH
  {
    if GetHash(data, size, q) == 0 then Zeros(data, q, Limit(size, q)) else 0
  }

  lemma {:induction false} SlotRange(pos: nat, w: nat)
    requires 0 < w
    ensures Slot(pos, w) <= pos && (pos < w ==> Slot(pos, w) == pos)
    decreases pos
  {
    if w <= pos { SlotRange(pos - w, w); }
  }

  /** A position within the window behind `pos` is found by its slot. */
  lemma {:induction false} OffsetOf(pos: nat, w: nat, q: nat)
    requires q <= pos < q + w
    ensures Offset(pos, w, Slot(q, w)) == pos - q
  {
    SlotRange(q, w);
    SlotRange(pos, w);
    var h := Slot(q, w);
    SlotBack(pos, w, h);
    var p := pos - Offset(pos, w, h);
    if p < q { SlotDistinct(q, p, w); } else if q < p { SlotDistinct(p, q, w); }
  }

  // ----- what was entered -----------------------------------------------------------------------

  /** The last of the first n positions that was entered with this key, or -1. */
  function Last(keys: seq<nat>, key: nat, n: nat): (q: int)
    requires n <= |keys|
    ensures -1 <= q < n && (q >= 0 ==> keys[q] == key)
    ensures forall i :: q < i < n ==> keys[i] != key
  {
    if n == 0 then -1 else if keys[n - 1] == key then n - 1 else Last(keys, key, n - 1)
  }

  lemma {:induction false} LastIs(keys: seq<nat>, key: nat, n: nat, q: nat)
    requires q < n <= |keys| && keys[q] == key && forall i :: q < i < n ==> keys[i] != key
    ensures Last(keys, key, n) == q
  {}

  lemma {:induction false} LastAppend(keys: seq<nat>, k: nat, key: nat, n: nat)
    requires n <= |keys|
    ensures Last(keys + [k], key, n) == Last(keys, key, n)
    decreases n
  {
    if n > 0 { LastAppend(keys, k, key, n - 1); }
  }

  /** Slot i of a window of w slots was used by one of the first n positions. */
  predicate Entered(i: int, w: nat, n: nat) {
    0 <= i < n && i < w
  }

  /** One chain table: heads and links lead to entered slots only. */
  predicate Links(heads: seq<int>, links: seq<nat>, n: nat) {
    && (forall h :: 0 <= h < |heads| ==> heads[h] == -1 || Entered(heads[h], |links|, n))
    && (forall i :: 0 <= i < |links| ==> if i < n then Entered(links[i], |links|, n) else links[i] == i)
  }

  /** The heads lead to the last positions entered with each key, unless the one of the very last position was forgotten. */
  ghost predicate Heads(heads: seq<int>, w: nat, keys: seq<nat>, forgot: bool)
    requires 0 < w
  {
    forall h :: 0 <= h < |heads| && Last(keys, h, |keys|) >= 0 ==>
      heads[h] == if forgot && h == keys[|keys| - 1] then -1 else Slot(Last(keys, h, |keys|), w)
  }

  /** From each position still in the window the links lead to the one entered before with the same key, if there is one. The slot
      found may belong to a later position by now. */
  ghost predicate Linked(links: seq<nat>, keys: seq<nat>)
    requires 0 < |links|
  {
    forall q: nat {:trigger Slot(q, |links|)} :: |keys| - |links| <= q < |keys| && Last(keys, keys[q], q) >= 0 ==>
      links[Slot(q, |links|)] == Slot(Last(keys, keys[q], q), |links|)
  }

  /** Each slot records the key of the last position entered there. */
  ghost predicate Recorded(vals: seq<int>, keys: seq<nat>)
    requires 0 < |vals|
  {
    forall q: nat {:trigger Slot(q, |vals|)} :: |keys| - |vals| <= q < |keys| ==> vals[Slot(q, |vals|)] == keys[q]
  }

  ghost predicate Chained(heads: seq<int>, links: seq<nat>, keys: seq<nat>, forgot: bool) {
    && 0 < |links| && (forgot ==> keys != [])
    && Links(heads, links, |keys|) && Heads(heads, |links|, keys, forgot) && Linked(links, keys)
  }

  lemma {:induction false} LinksEnter(heads: seq<int>, links: seq<nat>, n: nat, pos: nat, slot: nat, h: nat)
    requires Links(heads, links, n) && (n == pos || n == pos + 1) && h < |heads|
    requires slot < |links| && slot <= pos && (pos < |links| ==> slot == pos)
    ensures heads[h] >= -1 && Links(heads[h := slot], if heads[h] != -1 then links[slot := heads[h]] else links, pos + 1)
  {}

  /** Entering the next position. */
  lemma {:induction false} ChainEnter(heads: seq<int>, links: seq<nat>, keys: seq<nat>, h: nat)
    requires Chained(heads, links, keys, false) && h < |heads|
    ensures var slot := Slot(|keys|, |links|);
            heads[h] >= -1 && Chained(heads[h := slot], if heads[h] != -1 then links[slot := heads[h]] else links, keys + [h], false)
  {
    hide Slot, Links, Last;
    var n, w := |keys|, |links|;
    var slot, keys' := Slot(n, w), keys + [h];
    SlotRange(n, w);
    LinksEnter(heads, links, n, n, slot, h);
    var heads', links' := heads[h := slot], if heads[h] != -1 then links[slot := heads[h]] else links;
    LastAppend(keys, h, h, n);
    forall g | 0 <= g < |heads'| && Last(keys', g, n + 1) >= 0 ensures heads'[g] == Slot(Last(keys', g, n + 1), w) {
      if g != h { LastAppend(keys, h, g, n); LastOther(keys', g, n); } else { LastIs(keys', h, n + 1, n); }
    }
    forall q: nat {:trigger Slot(q, w)} | n + 1 - w <= q < n + 1 && Last(keys', keys'[q], q) >= 0
      ensures links'[Slot(q, w)] == Slot(Last(keys', keys'[q], q), w)
    {
      LastAppend(keys, h, keys'[q], q);
      if q < n { SlotDistinct(n, q, w); }
    }
  }

  lemma {:induction false} LastOther(keys: seq<nat>, g: nat, n: nat)
    requires n < |keys| && keys[n] != g
    ensures Last(keys, g, n + 1) == Last(keys, g, n)
  {}

  /** Forgetting the head of the last position ... */
  lemma {:induction false} ChainForget(heads: seq<int>, links: seq<nat>, keys: seq<nat>)
    requires Chained(heads, links, keys, false) && keys != [] && keys[|keys| - 1] < |heads|
    ensures Chained(heads[keys[|keys| - 1] := -1], links, keys, true)
  {
    hide Slot, Last, Linked;
  }

  /** ... and entering that position again leaves everything as it was. */
  lemma {:induction false} ChainAgain(heads: seq<int>, links: seq<nat>, keys: seq<nat>)
    requires Chained(heads, links, keys, true) && keys[|keys| - 1] < |heads|
    ensures heads[keys[|keys| - 1]] == -1
    ensures Chained(heads[keys[|keys| - 1] := Slot(|keys| - 1, |links|)], links, keys, false)
  {
    hide Slot, Linked, Last;
    var n, h := |keys|, keys[|keys| - 1];
    LastIs(keys, h, n, n - 1);
    SlotRange(n - 1, |links|);
    LinksEnter(heads, links, n, n - 1, Slot(n - 1, |links|), h);
  }

  lemma {:induction false} RecordEnter(vals: seq<int>, keys: seq<nat>, h: nat)
    requires 0 < |vals| && Recorded(vals, keys)
    ensures Recorded(vals[Slot(|keys|, |vals|) := h], keys + [h])
  {
    hide Slot;
    var n, w := |keys|, |vals|;
    forall q: nat {:trigger Slot(q, w)} | n + 1 - w <= q < n + 1 ensures vals[Slot(n, w) := h][Slot(q, w)] == (keys + [h])[q] {
      if q < n { SlotDistinct(n, q, w); }
    }
  }

  lemma {:induction false} RecordedAt(vals: seq<int>, keys: seq<nat>, q: nat)
    requires 0 < |vals| && Recorded(vals, keys) && |keys| - |vals| <= q < |keys|
    ensures Slot(q, |vals|) < |vals| && vals[Slot(q, |vals|)] == keys[q]
  {
    hide Slot;
    SlotRange(q, |vals|);
  }

  lemma {:induction false} RecordAgain(vals: seq<int>, keys: seq<nat>)
    requires 0 < |vals| && keys != [] && Recorded(vals, keys)
    ensures vals[Slot(|keys| - 1, |vals|) := keys[|keys| - 1]] == vals
  {
    hide Slot;
    assert vals[Slot(|keys| - 1, |vals|)] == keys[|keys| - 1];
  }

  /** The keys after a position was entered, or entered again. */
  function Noting(keys: seq<nat>, forgot: bool, key: nat): (r: seq<nat>) { if forgot then keys else keys + [key] }

  lemma {:induction false} ChainUpdate(heads: seq<int>, links: seq<nat>, keys: seq<nat>, forgot: bool, h: nat, slot: nat)
    requires Chained(heads, links, keys, forgot) && h < |heads| && (forgot ==> keys != [] && h == keys[|keys| - 1])
    requires slot == Slot(if forgot then |keys| - 1 else |keys|, |links|)
    ensures heads[h] >= -1
    ensures Chained(heads[h := slot], if heads[h] != -1 then links[slot := heads[h]] else links, Noting(keys, forgot, h), false)
  {
    hide Slot, Chained;
    if forgot { ChainAgain(heads, links, keys); } else { ChainEnter(heads, links, keys, h); }
  }

  lemma {:induction false} RecordUpdate(vals: seq<int>, keys: seq<nat>, forgot: bool, h: nat, slot: nat)
    requires 0 < |vals| && Recorded(vals, keys) && (forgot ==> keys != [] && h == keys[|keys| - 1])
    requires slot == Slot(if forgot then |keys| - 1 else |keys|, |vals|)
    ensures Recorded(vals[slot := h], Noting(keys, forgot, h))
  {
    hide Slot, Recorded;
    if forgot { RecordAgain(vals, keys); } else { RecordEnter(vals, keys, h); }
  }

  // ----- following the chains -------------------------------------------------------------------

  /** A position that `pos` can refer to. */
  predicate InWindow(pos: nat, w: nat, q: int) { 0 <= q < pos < q + w }

  /** If the previous position with the same key is in the window, the link leads there. */
  lemma {:induction false} LinkLeads(heads: seq<int>, links: seq<nat>, keys: seq<nat>, vals: seq<int>, q: nat)
    requires Chained(heads, links, keys, false) && |vals| == |links| && Recorded(vals, keys)
    requires q < |keys| < q + 1 + |links| && InWindow(|keys| - 1, |links|, Last(keys, keys[q], q))
    ensures var l := Last(keys, keys[q], q);
            var slot := links[Slot(q, |links|)];
            slot < |vals| && slot != Slot(q, |links|) && vals[slot] == keys[q] && Offset(|keys| - 1, |links|, slot) == |keys| - 1 - l
  {
    hide Slot, Last, Offset, Links, Heads;
    var w, l := |links|, Last(keys, keys[q], q);
    assert links[Slot(q, w)] == Slot(l, w);
    SlotDistinct(q, l, w);
    OffsetOf(|keys| - 1, w, l);
  }

  /** A link that leads to an earlier position of the window with the same key leads to the previous one. */
  lemma {:induction false} LedIsLast(heads: seq<int>, links: seq<nat>, keys: seq<nat>, p: nat, q: nat)
    requires Chained(heads, links, keys, false) && |keys| < p + 1 + |links|
    requires p < q < |keys| && keys[p] == keys[q] && Slot(p, |links|) == links[Slot(q, |links|)]
    ensures p == Last(keys, keys[q], q)
  {
    hide Slot, Last, Links, Heads;
    var w, l := |links|, Last(keys, keys[q], q);
    assert links[Slot(q, w)] == Slot(l, w);
    if p < l { SlotDistinct(l, p, w); }
  }

  // ----- comparing ------------------------------------------------------------------------------

  /** Number of equal bytes from p and from q on, p not passing `limit`. */
  function Common(data: seq<byte>, p: nat, q: nat, limit: nat): (n: nat)
    requires q <= p <= limit <= |data|
    ensures p + n <= limit
    decreases limit - p
  {
    if p == limit || data[p] != data[q] then 0 else 1 + Common(data, p + 1, q + 1, limit)
  }

  lemma {:induction false} CommonRepeats(data: seq<byte>, p: nat, q: nat, limit: nat)
    requires q < p <= limit <= |data|
    ensures Repeats(data, p, p - q, Common(data, p, q, limit))
    decreases limit - p
  {
    if p != limit && data[p] == data[q] { CommonRepeats(data, p + 1, q + 1, limit); }
  }

  /** Equal bytes can be skipped without changing the result of the comparison. */
  lemma {:induction false} CommonSkip(data: seq<byte>, p: nat, q: nat, limit: nat, k: nat)
    requires q < p && p + k <= limit <= |data|
    requires ZeroRun(data, p, k) && ZeroRun(data, q, k)
    ensures Common(data, p, q, limit) == k + Common(data, p + k, q + k, limit)
    decreases k
  {
    if k > 0 {
      assert data[p] == 0 && data[q] == 0;
      CommonSkip(data, p + 1, q + 1, limit, k - 1);
    }
  }

  /** Length of the match `offset` bytes back. Skipping the zeros both positions are known to start
      with gives the same length as comparing every byte. */
  method MatchLength(data: seq<byte>, size: nat, pos: nat, offset: nat, numzeros: nat, zerosThere: nat) returns (length: nat)
    requires pos < size <= |data| && 1 <= offset <= pos
    requires numzeros == 0 || ExactRun(data, size, pos, numzeros)
    requires ZeroRun(data, pos - offset, zerosThere)
    ensures length == Common(data, pos, pos - offset, Limit(size, pos))
  {
    hide Common;
    var last := Limit(size, pos);
    var fore, back := pos, pos - offset;
    if numzeros >= 3 {
      var skip := zerosThere;
      if skip > numzeros { skip := numzeros; }
      CommonSkip(data, pos, pos - offset, last, skip);
      back := back + skip;
      fore := fore + skip;
    }
    while fore != last && data[back] == data[fore]
      invariant pos <= fore <= last && fore - back == offset && 0 <= back
      invariant Common(data, pos, pos - offset, last) == fore - pos + Common(data, fore, back, last)
      decreases last - fore
    {
      CommonStep(data, fore, back, last);
      back := back + 1;
      fore := fore + 1;
    }
    CommonStop(data, fore, back, last);
    length := fore - pos;
  }

  lemma {:induction false} CommonStep(data: seq<byte>, p: nat, q: nat, limit: nat)
    requires q <= p < limit <= |data| && data[p] == data[q]
    ensures Common(data, p, q, limit) == 1 + Common(data, p + 1, q + 1, limit)
  {}

  lemma {:induction false} CommonStop(data: seq<byte>, p: nat, q: nat, limit: nat)
    requires q <= p <= limit <= |data| && (p == limit || data[p] != data[q])
    ensures Common(data, p, q, limit) == 0
  {}

  // ----- what a search finds --------------------------------------------------------------------

  /** The input up to the end of the block, the window, and how far to search. */
  datatype Terms = Terms(data: seq<byte>, size: nat, window: nat, maxchain: nat, nicematch: nat)

  /** The candidates compared with `pos`, as offsets, and the match taken. */
  datatype Match = Match(visited: seq<nat>, length: nat, offset: nat)

  /** Length of the match `off` bytes back. */
  function Equal(m: Terms, pos: nat, off: nat): (n: nat)
  {
    if off <= pos <= m.size <= |m.data| then Common(m.data, pos, pos - off, Limit(m.size, pos)) else 0
  }

  /** The longest match of the candidates visited, and the first of them that has it. */
  function Longest(m: Terms, pos: nat, visited: seq<nat>): (n: nat)
  {
    if visited == [] then 0
    else
      var n, x := Longest(m, pos, visited[..|visited| - 1]), Equal(m, pos, visited[|visited| - 1]);
      if x > n then x else n
  }

  function FirstLongest(m: Terms, pos: nat, visited: seq<nat>): (off: nat)
  {
    if visited == [] then 0
    else
      var v := visited[..|visited| - 1];
      if Equal(m, pos, visited[|visited| - 1]) > Longest(m, pos, v) then visited[|visited| - 1] else FirstLongest(m, pos, v)
  }

  /** A match with which the search is content. */
  predicate Enough(m: Terms, n: nat) { 0 < n && m.nicematch <= n }

  /** Once a match is longer than the zeros at `pos`, only positions with equally many zeros are of interest. */
  predicate ByZeros(counts: seq<nat>, pos: nat, n: nat)
    requires pos < |counts|
  {
    3 <= counts[pos] < n
  }

  /** The candidate before the k-th one. */
  function From(pos: nat, visited: seq<nat>, k: nat): (q: int)
    requires k <= |visited|
  {
    if k == 0 then pos else pos - visited[k - 1]
  }

  predicate Offsets(pos: nat, w: nat, visited: seq<nat>) {
    forall k :: 0 <= k < |visited| ==> 1 <= visited[k] <= pos && visited[k] < w
  }

  /** The k-th candidate is the last position before the one before it that was entered with the hash of `pos`; if the window has none at
      all, the first candidate can be any. By zeros, it has as many zeros as `pos`, and from a candidate with as many zeros it is the
      last such position before it; if the window has none, the same one again. */
  predicate Step(m: Terms, hashes: seq<nat>, counts: seq<nat>, pos: nat, visited: seq<nat>, k: nat)
    requires k < |visited| && pos < |hashes| && pos < |counts| && Offsets(pos, m.window, visited)
  {
    var p, q := pos - visited[k], From(pos, visited, k);
    if ByZeros(counts, pos, Longest(m, pos, visited[..k])) then
      var l := Last(counts, counts[pos], q);
      counts[p] == counts[pos] && p <= q && (counts[q] == counts[pos] ==> p == if InWindow(pos, m.window, l) then l else q)
    else
      p == Last(hashes, hashes[pos], q) || (k == 0 && !InWindow(pos, m.window, Last(hashes, hashes[pos], pos)))
  }

  /** The search ends after the last candidate: there were as many as allowed, the match is good enough, or the window has no further
      position with the same hash or the same number of zeros. */
  predicate Ends(m: Terms, hashes: seq<nat>, counts: seq<nat>, pos: nat, visited: seq<nat>)
    requires pos < |hashes| && pos < |counts| && Offsets(pos, m.window, visited)
  {
    var n, q := Longest(m, pos, visited), From(pos, visited, |visited|);
    || |visited| == m.maxchain || Enough(m, n)
    || if ByZeros(counts, pos, n) then counts[q] == counts[pos] ==> !InWindow(pos, m.window, Last(counts, counts[pos], q))
       else !InWindow(pos, m.window, Last(hashes, hashes[pos], q))
  }

  /** The candidates so far follow the rules, and none was good enough to stop. */
  ghost predicate Walk(m: Terms, hashes: seq<nat>, counts: seq<nat>, pos: nat, visited: seq<nat>)
  {
    && |hashes| == |counts| == pos + 1 && Offsets(pos, m.window, visited) && |visited| <= m.maxchain
    && (forall k :: 0 <= k < |visited| ==> Step(m, hashes, counts, pos, visited, k))
    && (forall k :: 0 <= k <= |visited| ==> !Enough(m, Longest(m, pos, visited[..k])))
  }

  /** What a search at `pos` finds, given the hashes and zero counts of the positions entered: nothing here depends on the tables. */
  ghost predicate Searched(m: Terms, hashes: seq<nat>, counts: seq<nat>, pos: nat, s: Match)
  {
    && |hashes| == |counts| == pos + 1 && Offsets(pos, m.window, s.visited) && |s.visited| <= m.maxchain
    && (forall k :: 0 <= k < |s.visited| ==> Step(m, hashes, counts, pos, s.visited, k))
    && (forall k :: 0 <= k < |s.visited| ==> !Enough(m, Longest(m, pos, s.visited[..k])))
    && Ends(m, hashes, counts, pos, s.visited)
    && s.length == Longest(m, pos, s.visited) && s.offset == FirstLongest(m, pos, s.visited)
  }

  lemma {:induction false} NotByZeros(counts: seq<nat>, pos: nat)
    requires pos < |counts|
    ensures !ByZeros(counts, pos, 0)
  {}

  lemma {:induction false} WalkOffsets(m: Terms, hashes: seq<nat>, counts: seq<nat>, pos: nat, visited: seq<nat>)
    requires Walk(m, hashes, counts, pos, visited)
    ensures Offsets(pos, m.window, visited)
  {}

  lemma {:induction false} WalkStart(m: Terms, hashes: seq<nat>, counts: seq<nat>, pos: nat)
    requires |hashes| == |counts| == pos + 1
    ensures Walk(m, hashes, counts, pos, [])
  {}

  lemma {:induction false} WalkEnds(m: Terms, hashes: seq<nat>, counts: seq<nat>, pos: nat, visited: seq<nat>)
    requires Walk(m, hashes, counts, pos, visited) && Ends(m, hashes, counts, pos, visited)
    ensures Searched(m, hashes, counts, pos, Match(visited, Longest(m, pos, visited), FirstLongest(m, pos, visited)))
  {
    hide Step, Ends, Longest, FirstLongest, Enough;
  }

  lemma {:induction false} StepPrefix(m: Terms, hashes: seq<nat>, counts: seq<nat>, pos: nat, visited: seq<nat>, x: nat, k: nat)
    requires k < |visited| && pos < |hashes| && pos < |counts|
    requires Offsets(pos, m.window, visited) && Offsets(pos, m.window, visited + [x])
    ensures Step(m, hashes, counts, pos, visited + [x], k) == Step(m, hashes, counts, pos, visited, k)
  {
    hide Longest, Last, ByZeros, InWindow;
    assert (visited + [x])[..k] == visited[..k];
  }

  /** One more candidate. */
  lemma {:induction false} WalkMore(m: Terms, hashes: seq<nat>, counts: seq<nat>, pos: nat, visited: seq<nat>, x: nat)
    requires Walk(m, hashes, counts, pos, visited) && |visited| < m.maxchain && 1 <= x <= pos && x < m.window
    requires Offsets(pos, m.window, visited + [x]) && Step(m, hashes, counts, pos, visited + [x], |visited|)
    ensures var n, e := Longest(m, pos, visited), Equal(m, pos, x);
            && Longest(m, pos, visited + [x]) == (if e > n then e else n)
            && FirstLongest(m, pos, visited + [x]) == (if e > n then x else FirstLongest(m, pos, visited))
            && if e > n && e >= m.nicematch then
                 Searched(m, hashes, counts, pos, Match(visited + [x], e, x))
               else Walk(m, hashes, counts, pos, visited + [x])
  {
    hide Step, Equal;
    var more := visited + [x];
    assert more[..|visited|] == visited && visited[..|visited|] == visited && more[..|more|] == more;
    forall k | 0 <= k < |visited| ensures Step(m, hashes, counts, pos, more, k) { StepPrefix(m, hashes, counts, pos, visited, x, k); }
    forall k | 0 <= k <= |visited| ensures !Enough(m, Longest(m, pos, more[..k])) { assert more[..k] == visited[..k]; }
  }

  /** The match taken repeats earlier data. */
  lemma {:induction false} LongestRepeats(m: Terms, pos: nat, visited: seq<nat>)
    requires pos <= m.size <= |m.data| && Offsets(pos, m.window, visited)
    ensures var n, off := Longest(m, pos, visited), FirstLongest(m, pos, visited);
            pos + n <= m.size && n <= MAX_LENGTH && (n > 0 ==> 1 <= off < m.window && Repeats(m.data, pos, off, n))
  {
    hide Common, Repeats;
    if visited != [] {
      var v, x := visited[..|visited| - 1], visited[|visited| - 1];
      assert Offsets(pos, m.window, v);
      LongestRepeats(m, pos, v);
      CommonRepeats(m.data, pos, pos - x, Limit(m.size, pos));
    }
  }

  lemma {:induction false} LongestGrows(m: Terms, pos: nat, visited: seq<nat>)
    requires visited != []
    ensures Longest(m, pos, visited[..|visited| - 1]) <= Longest(m, pos, visited)
  {
    hide Equal;
  }

  lemma {:induction false} NoneLonger(m: Terms, pos: nat, visited: seq<nat>)
    ensures forall k :: 0 <= k < |visited| ==> Equal(m, pos, visited[k]) <= Longest(m, pos, visited)
    ensures Longest(m, pos, visited) > 0 ==>
              exists k :: 0 <= k < |visited| && visited[k] == FirstLongest(m, pos, visited) && Equal(m, pos, visited[k]) == Longest(m, pos, visited)
  {
    hide Equal;
    if visited != [] {
      var rest := visited[..|visited| - 1];
      NoneLonger(m, pos, rest);
      assert forall k :: 0 <= k < |rest| ==> rest[k] == visited[k];
      if Equal(m, pos, visited[|rest|]) <= Longest(m, pos, rest) && Longest(m, pos, rest) > 0 {
        var k :| 0 <= k < |rest| && rest[k] == FirstLongest(m, pos, rest) && Equal(m, pos, rest[k]) == Longest(m, pos, rest);
        assert visited[k] == FirstLongest(m, pos, visited);
      }
    }
  }

  /** The newest position of the window with the same hash is always compared, if there is one; the match taken is one of the
      candidates compared, and none of them matches longer. */
  lemma {:induction false} SearchedMeans(m: Terms, hashes: seq<nat>, counts: seq<nat>, pos: nat, s: Match)
    requires Searched(m, hashes, counts, pos, s)
    ensures var l := Last(hashes, hashes[pos], pos);
            InWindow(pos, m.window, l) && 0 < m.maxchain ==> s.visited != [] && s.visited[0] == pos - l
    ensures forall k :: 0 <= k < |s.visited| ==> Equal(m, pos, s.visited[k]) <= s.length
    ensures s.length > 0 ==> exists k :: 0 <= k < |s.visited| && s.visited[k] == s.offset && Equal(m, pos, s.visited[k]) == s.length
  {
    hide Equal, Longest, FirstLongest, Last, InWindow;
    NoneLonger(m, pos, s.visited);
    NothingLongest(m, pos);
    var l := Last(hashes, hashes[pos], pos);
    if InWindow(pos, m.window, l) && 0 < m.maxchain {
      if s.visited != [] {
        assert s.visited[..0] == [] && Step(m, hashes, counts, pos, s.visited, 0);
      }
    }
  }

  // ----- the tables find what is described ------------------------------------------------------

  /** As long as the hash chain is followed, all candidates have the hash of `pos`, unless the window has no such position. */
  lemma {:induction false} OnChain(m: Terms, hashes: seq<nat>, counts: seq<nat>, pos: nat, visited: seq<nat>)
    requires Walk(m, hashes, counts, pos, visited) && visited != [] && !ByZeros(counts, pos, Longest(m, pos, visited))
    ensures hashes[pos - visited[|visited| - 1]] == hashes[pos] || !InWindow(pos, m.window, Last(hashes, hashes[pos], pos))
  {
    hide Longest, Equal, Enough, InWindow;
    LongestGrows(m, pos, visited);
    assert Step(m, hashes, counts, pos, visited, |visited| - 1);
  }

  /** The next slot on the hash chain holds the candidate described. */
  lemma {:induction false} StepByHash(m: Terms, hashes: seq<nat>, counts: seq<nat>, heads: seq<int>, links: seq<nat>, vals: seq<int>,
                                      pos: nat, visited: seq<nat>, slot: nat, x: nat)
    requires Chained(heads, links, hashes, false) && |vals| == |links| == m.window && Recorded(vals, hashes)
    requires Walk(m, hashes, counts, pos, visited) && !ByZeros(counts, pos, Longest(m, pos, visited))
    requires var q := From(pos, visited, |visited|); 0 <= q && slot == links[Slot(q, m.window)] && (visited != [] ==> slot < m.window && vals[slot] == hashes[pos] && slot != Slot(q, m.window))
    requires 1 <= x <= pos && x < m.window && Slot(pos - x, m.window) == slot && x == Offset(pos, m.window, slot)
    requires visited != [] ==> visited[|visited| - 1] <= x
    ensures Offsets(pos, m.window, visited + [x]) && Step(m, hashes, counts, pos, visited + [x], |visited|)
  {
    hide Slot, Last, Offset, Longest, Chained, Recorded, ByZeros;
    var more, q, p := visited + [x], From(pos, visited, |visited|), pos - x;
    assert more[..|visited|] == visited && more[|visited|] == x;
    var l := Last(hashes, hashes[pos], pos);
    if visited == [] {
      if InWindow(pos, m.window, l) { LinkLeads(heads, links, hashes, vals, pos); }
    } else {
      OnChain(m, hashes, counts, pos, visited);
      RecordedAt(vals, hashes, p);
      assert p < q;
      if hashes[q] == hashes[pos] {
        LedIsLast(heads, links, hashes, p, q);
      } else {
        assert false;
      }
    }
  }

  /** If the window has a further position with the same hash, the hash chain does not end here. */
  lemma {:induction false} MoreByHash(m: Terms, hashes: seq<nat>, counts: seq<nat>, heads: seq<int>, links: seq<nat>, vals: seq<int>,
                                      pos: nat, visited: seq<nat>)
    requires Chained(heads, links, hashes, false) && |vals| == |links| == m.window && Recorded(vals, hashes)
    requires Walk(m, hashes, counts, pos, visited) && !ByZeros(counts, pos, Longest(m, pos, visited))
    requires var q := From(pos, visited, |visited|); 0 <= q <= pos && InWindow(pos, m.window, Last(hashes, hashes[pos], q))
    ensures var q := From(pos, visited, |visited|);
            var slot := links[Slot(q, m.window)];
            slot < m.window && slot != Slot(q, m.window) && vals[slot] == hashes[pos] && pos - q < Offset(pos, m.window, slot)
  {
    hide Slot, Last, Offset, Longest, Chained, Recorded, ByZeros;
    var q := From(pos, visited, |visited|);
    if visited != [] {
      OnChain(m, hashes, counts, pos, visited);
      assert InWindow(pos, m.window, Last(hashes, hashes[pos], pos));
    }
    LinkLeads(heads, links, hashes, vals, q);
  }

  /** The next slot on the chain of equal zero counts holds the candidate described. */
  lemma {:induction false} StepByZeros(m: Terms, hashes: seq<nat>, counts: seq<nat>, heads: seq<int>, links: seq<nat>, vals: seq<int>,
                                       pos: nat, visited: seq<nat>, slot: nat, x: nat)
    requires Chained(heads, links, counts, false) && |vals| == |links| == m.window && Recorded(vals, counts)
    requires Walk(m, hashes, counts, pos, visited) && visited != [] && ByZeros(counts, pos, Longest(m, pos, visited))
    requires var q := From(pos, visited, |visited|); 0 <= q && slot == links[Slot(q, m.window)] && slot < m.window && vals[slot] == counts[pos]
    requires 1 <= x <= pos && x < m.window && Slot(pos - x, m.window) == slot && x == Offset(pos, m.window, slot) && visited[|visited| - 1] <= x
    ensures Offsets(pos, m.window, visited + [x]) && Step(m, hashes, counts, pos, visited + [x], |visited|)
  {
    hide Slot, Last, Offset, Longest, Chained, Recorded;
    var more, q, p := visited + [x], From(pos, visited, |visited|), pos - x;
    assert more[..|visited|] == visited && more[|visited|] == x;
    RecordedAt(vals, counts, p);
    if counts[q] == counts[pos] {
      if InWindow(pos, m.window, Last(counts, counts[pos], q)) { LinkLeads(heads, links, counts, vals, q); }
      if p < q { LedIsLast(heads, links, counts, p, q); }
    }
  }

  /** If the window has a further position with as many zeros, neither chain ends here. */
  lemma {:induction false} MoreByZeros(m: Terms, hashes: seq<nat>, counts: seq<nat>, headz: seq<int>, chainz: seq<nat>, zeros: seq<int>,
                                       heads: seq<int>, chain: seq<nat>, vals: seq<int>, pos: nat, visited: seq<nat>)
    requires Chained(headz, chainz, counts, false) && |zeros| == |chainz| == m.window && Recorded(zeros, counts)
    requires Chained(heads, chain, hashes, false) && |vals| == |chain| == m.window && Recorded(vals, hashes)
    requires forall i :: 0 <= i < |counts| && i < |hashes| && counts[i] > 0 ==> hashes[i] == 0
    requires Walk(m, hashes, counts, pos, visited) && visited != [] && ByZeros(counts, pos, Longest(m, pos, visited))
    requires var q := From(pos, visited, |visited|); 0 <= q <= pos && counts[q] == counts[pos] && InWindow(pos, m.window, Last(counts, counts[pos], q))
    ensures var q := From(pos, visited, |visited|);
            var slot := chainz[Slot(q, m.window)];
            && slot < m.window && zeros[slot] == counts[pos] && pos - q < Offset(pos, m.window, slot)
            && chain[Slot(q, m.window)] != Slot(q, m.window)
  {
    hide Slot, Last, Offset, Longest, Chained, Recorded;
    var q := From(pos, visited, |visited|);
    var l := Last(counts, counts[pos], q);
    LinkLeads(headz, chainz, counts, zeros, q);
    assert hashes[l] == 0 && hashes[q] == 0;
    LinkLeads(heads, chain, hashes, vals, q);
  }

  // ----- the tables -----------------------------------------------------------------------------

  /** The encoder's hash tables over a window of |chain| entries. */
  class Hash {
    var head: seq<int>
    var chain: seq<nat>
    var val: seq<int>
    var headz: seq<int>
    var chainz: seq<nat>
    var zeros: seq<nat>
    /** The hashes and zero counts of all positions entered, and whether the heads of the last one were forgotten. */
    ghost var hashes: seq<nat>
    ghost var counts: seq<nat>
    ghost var forgot: bool

    /** Size of the window. */
    function Window(): (w: nat)
      reads this
    {
      |chain|
    }

    /** The tables after the first n positions of `data` were entered. */
    ghost predicate Ok(data: seq<byte>, n: nat)
      reads this
    {
      && 0 < |chain| == |chainz| == |val| == |zeros| && |hashes| == |counts| == n
      && |head| == HASH_NUM_VALUES && |headz| == MAX_LENGTH + 1
      && Chained(head, chain, hashes, forgot) && Chained(headz, chainz, counts, forgot)
      && Recorded(val, hashes) && Recorded(zeros, counts) && Noted(data, hashes, counts)
    }

    constructor (windowsize: nat)
      requires 0 < windowsize
      ensures |chain| == windowsize && !forgot && hashes == [] && counts == [] && forall data: seq<byte> :: Ok(data, 0)
    {
      head := seq(HASH_NUM_VALUES, _ => -1);
      chain := seq(windowsize, i => i);
      val := seq(windowsize, _ => -1);
      headz := seq(MAX_LENGTH + 1, _ => -1);
      chainz := seq(windowsize, i => i);
      zeros := seq(windowsize, _ => 0);
      hashes, counts, forgot := [], [], false;
    }

    /** Forgets the heads of two chains, so that entering the last position again does not link it to itself. */
    method ForgetHeads(ghost data: seq<byte>, ghost n: nat, hashval: nat, numzeros: nat)
      requires Ok(data, n) && !forgot && 0 < n && hashval == hashes[n - 1] && numzeros == counts[n - 1]
      modifies this`head, this`headz, this`forgot
      ensures Ok(data, n) && forgot
    {
      hide Slot, Chained, Recorded, Noted;
      NotedBounds(data, hashes, counts, n - 1);
      ChainForget(head, chain, hashes);
      ChainForget(headz, chainz, counts);
      head := head[hashval := -1];
      headz := headz[numzeros := -1];
      forgot := true;
    }

    /** Enters position `pos`, or enters it again after its heads were forgotten: then everything is as it was. */
    method UpdateHashChain(ghost data: seq<byte>, ghost pos: nat, wpos: nat, hashval: nat, numzeros: nat)
      requires if forgot then Ok(data, pos + 1) && hashval == hashes[pos] && numzeros == counts[pos] else Ok(data, pos)
      requires wpos == Slot(pos, |chain|) && hashval < HASH_NUM_VALUES
      requires ZeroRun(data, pos, numzeros) && numzeros <= MAX_LENGTH && (numzeros > 0 ==> hashval == 0)
      modifies this
      ensures |chain| == old(|chain|) && Ok(data, pos + 1) && !forgot
      ensures hashes == old(hashes)[..pos] + [hashval] && counts == old(counts)[..pos] + [numzeros]
    {
      hide Slot, ZeroRun, Chained, Recorded, Noted, Noting;
      SlotRange(pos, |chain|);
      ChainUpdate(head, chain, hashes, forgot, hashval, wpos);
      ChainUpdate(headz, chainz, counts, forgot, numzeros, wpos);
      RecordUpdate(val, hashes, forgot, hashval, wpos);
      RecordUpdate(zeros, counts, forgot, numzeros, wpos);
      NotedUpdate(data, hashes, counts, forgot, pos, hashval, numzeros);
      hashes, counts, forgot := Noting(hashes, forgot, hashval), Noting(counts, forgot, numzeros), false;
      val := val[wpos := hashval];
      chain := if head[hashval] != -1 then chain[wpos := head[hashval]] else chain;
      head := head[hashval := wpos];
      zeros := zeros[wpos := numzeros];
      chainz := if headz[numzeros] != -1 then chainz[wpos := headz[numzeros]] else chainz;
      headz := headz[numzeros := wpos];
      assert Chained(head, chain, hashes, false) && Chained(headz, chainz, counts, false);
      assert Recorded(val, hashes) && Recorded(zeros, counts) && Noted(data, hashes, counts);
    }
  }

  /** Hashes are hashes, and zero counts are runs of zeros, which have the hash 0. */
  predicate Noted(data: seq<byte>, hashes: seq<nat>, counts: seq<nat>) {
    && |hashes| == |counts|
    && forall q :: 0 <= q < |hashes| ==> hashes[q] < HASH_NUM_VALUES && counts[q] <= MAX_LENGTH && ZeroRun(data, q, counts[q]) && (counts[q] > 0 ==> hashes[q] == 0)
  }

  lemma {:induction false} NotedMore(data: seq<byte>, hashes: seq<nat>, counts: seq<nat>, h: nat, z: nat)
    requires Noted(data, hashes, counts) && h < HASH_NUM_VALUES && z <= MAX_LENGTH && ZeroRun(data, |hashes|, z) && (z > 0 ==> h == 0)
    ensures Noted(data, hashes + [h], counts + [z])
  {
    hide ZeroRun;
  }

  lemma {:induction false} NotedSizes(data: seq<byte>, hashes: seq<nat>, counts: seq<nat>)
    requires Noted(data, hashes, counts)
    ensures |hashes| == |counts|
  {}

  lemma {:induction false} NotedUpdate(data: seq<byte>, hashes: seq<nat>, counts: seq<nat>, forgot: bool, pos: nat, h: nat, z: nat)
    requires Noted(data, hashes, counts) && |hashes| == (if forgot then pos + 1 else pos)
    requires forgot ==> h == hashes[pos] && z == counts[pos]
    requires h < HASH_NUM_VALUES && z <= MAX_LENGTH && ZeroRun(data, pos, z) && (z > 0 ==> h == 0)
    ensures Noted(data, Noting(hashes, forgot, h), Noting(counts, forgot, z))
    ensures Noting(hashes, forgot, h) == hashes[..pos] + [h] && Noting(counts, forgot, z) == counts[..pos] + [z]
  {
    hide Noted, ZeroRun;
    if !forgot { NotedMore(data, hashes, counts, h, z); }
    NotedSizes(data, hashes, counts);
  }

  lemma {:induction false} NotedBounds(data: seq<byte>, hashes: seq<nat>, counts: seq<nat>, q: nat)
    requires Noted(data, hashes, counts) && q < |hashes|
    ensures hashes[q] < HASH_NUM_VALUES && counts[q] <= MAX_LENGTH
  {
    hide ZeroRun;
  }

  // ----- the search -----------------------------------------------------------------------------

  /** The tables once `pos` was entered. */
  ghost predicate Ready(hash: Hash, m: Terms, pos: nat)
    reads hash
  {
    hash.Ok(m.data, pos + 1) && !hash.forgot && hash.Window() == m.window && pos < m.size <= |m.data|
  }

  /** The slot in which the search looks for its next candidate. */
  ghost predicate Looking(hash: Hash, m: Terms, pos: nat, visited: seq<nat>, slot: nat)
    requires Ready(hash, m, pos) && Offsets(pos, m.window, visited)
    reads hash
  {
    var q := From(pos, visited, |visited|);
    && 0 <= q <= pos && slot < m.window
    && if ByZeros(hash.counts, pos, Longest(m, pos, visited)) then
         visited != [] && slot == hash.chainz[Slot(q, m.window)] && hash.zeros[slot] == hash.counts[pos]
       else
         slot == hash.chain[Slot(q, m.window)] && (visited != [] ==> hash.val[slot] == hash.hashes[pos] && slot != Slot(q, m.window))
  }

  /** The candidate in that slot, if it does not lie before the last one. */
  lemma {:induction false} Looked(hash: Hash, m: Terms, pos: nat, visited: seq<nat>, slot: nat, x: nat)
    requires Ready(hash, m, pos) && Walk(m, hash.hashes, hash.counts, pos, visited) && Looking(hash, m, pos, visited, slot)
    requires 1 <= x <= pos && x < m.window && Slot(pos - x, m.window) == slot && x == Offset(pos, m.window, slot)
    requires visited != [] ==> visited[|visited| - 1] <= x
    ensures Offsets(pos, m.window, visited + [x]) && Step(m, hash.hashes, hash.counts, pos, visited + [x], |visited|)
  {
    hide Slot, Longest, Offset, Chained, Recorded, Noted, Walk, Step, Offsets;
    if ByZeros(hash.counts, pos, Longest(m, pos, visited)) {
      StepByZeros(m, hash.hashes, hash.counts, hash.headz, hash.chainz, hash.zeros, pos, visited, slot, x);
    } else {
      StepByHash(m, hash.hashes, hash.counts, hash.head, hash.chain, hash.val, pos, visited, slot, x);
    }
  }

  /** The next slot in the mode of the search. */
  ghost function NextSlot(hash: Hash, m: Terms, pos: nat, visited: seq<nat>): (slot: nat)
    requires Ready(hash, m, pos) && Offsets(pos, m.window, visited)
    reads hash
  {
    var q := From(pos, visited, |visited|);
    if q < 0 then 0
    else if ByZeros(hash.counts, pos, Longest(m, pos, visited)) then hash.chainz[Slot(q, m.window)] else hash.chain[Slot(q, m.window)]
  }

  /** If the description has a further candidate, the tables have it too: no check stops the search. */
  lemma {:induction false} NotOver(hash: Hash, m: Terms, pos: nat, visited: seq<nat>)
    requires Ready(hash, m, pos) && Walk(m, hash.hashes, hash.counts, pos, visited)
    requires !Ends(m, hash.hashes, hash.counts, pos, visited)
    ensures var q, slot := From(pos, visited, |visited|), NextSlot(hash, m, pos, visited);
            && 0 <= q <= pos && slot < m.window && pos - q < Offset(pos, m.window, slot)
            && hash.chain[Slot(q, m.window)] != Slot(q, m.window)
            && if ByZeros(hash.counts, pos, Longest(m, pos, visited)) then hash.zeros[slot] == hash.counts[pos] else hash.val[slot] == hash.hashes[pos]
  {
    hide Slot, Longest, Offset, Chained, Recorded, Step, Last, Enough;
    if ByZeros(hash.counts, pos, Longest(m, pos, visited)) {
      NothingLongest(m, pos);
      MoreByZeros(m, hash.hashes, hash.counts, hash.headz, hash.chainz, hash.zeros, hash.head, hash.chain, hash.val, pos, visited);
    } else {
      MoreByHash(m, hash.hashes, hash.counts, hash.head, hash.chain, hash.val, pos, visited);
    }
  }

  /** A check that stops the search is right. */
  lemma {:induction false} Stops(hash: Hash, m: Terms, pos: nat, visited: seq<nat>)
    requires Ready(hash, m, pos) && Walk(m, hash.hashes, hash.counts, pos, visited)
    requires var q, slot := From(pos, visited, |visited|), NextSlot(hash, m, pos, visited);
             || |visited| == m.maxchain
             || (0 <= q && hash.chain[Slot(q, m.window)] == Slot(q, m.window))
             || (slot < m.window && Offset(pos, m.window, slot) <= pos - q)
             || (slot < m.window && ByZeros(hash.counts, pos, Longest(m, pos, visited)) && hash.zeros[slot] != hash.counts[pos])
             || (slot < m.window && !ByZeros(hash.counts, pos, Longest(m, pos, visited)) && hash.val[slot] != hash.hashes[pos])
    ensures Searched(m, hash.hashes, hash.counts, pos, Match(visited, Longest(m, pos, visited), FirstLongest(m, pos, visited)))
  {
    hide Slot, Longest, FirstLongest, Offset, Chained, Recorded, Noted, Step, Last, Enough, Searched, NextSlot, ByZeros, InWindow;
    if !Ends(m, hash.hashes, hash.counts, pos, visited) {
      NotOver(hash, m, pos, visited);
      assert false;
    }
    WalkEnds(m, hash.hashes, hash.counts, pos, visited);
  }

  lemma {:induction false} NothingLongest(m: Terms, pos: nat)
    ensures Longest(m, pos, []) == 0 && FirstLongest(m, pos, []) == 0
  {}

  lemma {:induction false} LinksWithin(hash: Hash, m: Terms, pos: nat, slot: nat)
    requires Ready(hash, m, pos) && slot <= pos && slot < m.window
    ensures hash.chain[slot] <= pos && hash.chain[slot] < m.window && hash.chainz[slot] <= pos && hash.chainz[slot] < m.window
  {
    hide Heads, Linked, Recorded, Noted;
  }

  lemma {:induction false} ZerosThere(hash: Hash, m: Terms, pos: nat, q: nat)
    requires Ready(hash, m, pos) && q <= pos < q + m.window
    ensures ZeroRun(m.data, q, hash.zeros[Slot(q, m.window)])
  {
    hide Slot, Chained, ZeroRun;
  }

  /** The search so far: the next candidate is in `slot`. */
  ghost predicate Searching(hash: Hash, m: Terms, pos: nat, visited: seq<nat>, slot: nat, length: nat, offset: nat)
    reads hash
  {
    && Ready(hash, m, pos) && Walk(m, hash.hashes, hash.counts, pos, visited) && slot <= pos && Looking(hash, m, pos, visited, slot)
    && length == Longest(m, pos, visited) && offset == FirstLongest(m, pos, visited)
  }

  /** The search so far: the last candidate was in `slot`. */
  ghost predicate Compared(hash: Hash, m: Terms, pos: nat, visited: seq<nat>, slot: nat, length: nat, offset: nat)
    reads hash
  {
    && Ready(hash, m, pos) && Walk(m, hash.hashes, hash.counts, pos, visited) && slot <= pos && slot < m.window
    && 0 <= From(pos, visited, |visited|) <= pos && Slot(From(pos, visited, |visited|), m.window) == slot
    && (visited == [] ==> hash.chain[slot] == slot)
    && length == Longest(m, pos, visited) && offset == FirstLongest(m, pos, visited)
  }

  ghost predicate Found(hash: Hash, m: Terms, pos: nat, visited: seq<nat>, length: nat, offset: nat)
    reads hash
  {
    Searched(m, hash.hashes, hash.counts, pos, Match(visited, length, offset))
  }

  lemma {:induction false} SearchStarts(hash: Hash, m: Terms, pos: nat)
    requires Ready(hash, m, pos)
    ensures Slot(pos, m.window) < |hash.chain| && Searching(hash, m, pos, [], hash.chain[Slot(pos, m.window)], 0, 0)
  {
    hide Slot, Chained, Recorded, Noted, Walk, Last;
    WalkStart(m, hash.hashes, hash.counts, pos);
    NothingLongest(m, pos);
    SlotRange(pos, m.window);
    LinksWithin(hash, m, pos, Slot(pos, m.window));
  }

  /** The candidate in the slot. */
  lemma {:induction false} SearchLooks(hash: Hash, m: Terms, pos: nat, visited: seq<nat>, slot: nat, length: nat, offset: nat)
    requires Searching(hash, m, pos, visited, slot, length, offset)
    ensures slot < m.window == |hash.zeros| && Offset(pos, m.window, slot) <= pos && ZeroRun(m.data, pos - Offset(pos, m.window, slot), hash.zeros[slot])
    ensures Offset(pos, m.window, slot) < (if visited == [] then 0 else visited[|visited| - 1]) ==> Found(hash, m, pos, visited, length, offset)
  {
    hide Slot, Chained, Recorded, Noted, Walk, Longest, FirstLongest, Searched, Last, ZeroRun;
    SlotBack(pos, m.window, slot);
    ZerosThere(hash, m, pos, pos - Offset(pos, m.window, slot));
    if Offset(pos, m.window, slot) < (if visited == [] then 0 else visited[|visited| - 1]) { Stops(hash, m, pos, visited); }
  }

  /** Comparing it, if it is not `pos` itself. */
  lemma {:induction false} SearchCompares(hash: Hash, m: Terms, pos: nat, visited: seq<nat>, slot: nat, length: nat, offset: nat)
    requires Searching(hash, m, pos, visited, slot, length, offset) && |visited| < m.maxchain
    requires slot < m.window && (if visited == [] then 0 else visited[|visited| - 1]) <= Offset(pos, m.window, slot)
    ensures var x := Offset(pos, m.window, slot);
            var n := Equal(m, pos, x);
            if x == 0 then Compared(hash, m, pos, visited, slot, length, offset) && slot < |hash.chain| && hash.chain[slot] == slot
            else if n > length && n >= m.nicematch then Found(hash, m, pos, visited + [x], n, x)
            else Compared(hash, m, pos, visited + [x], slot, if n > length then n else length, if n > length then x else offset)
  {
    hide Slot, Chained, Recorded, Noted, Walk, Longest, FirstLongest, Searched, Last, Step, Offset, Equal, ByZeros;
    var x := Offset(pos, m.window, slot);
    SlotBack(pos, m.window, slot);
    if x == 0 {
      WalkOffsets(m, hash.hashes, hash.counts, pos, visited);
      NothingLongest(m, pos);
      NotByZeros(hash.counts, pos);
    } else {
      Looked(hash, m, pos, visited, slot, x);
      WalkMore(m, hash.hashes, hash.counts, pos, visited, x);
    }
  }

  /** Going on from there. */
  lemma {:induction false} SearchGoesOn(hash: Hash, m: Terms, pos: nat, visited: seq<nat>, slot: nat, length: nat, offset: nat)
    requires Compared(hash, m, pos, visited, slot, length, offset)
    ensures slot < |hash.chain| == |hash.chainz| == |hash.zeros| == |hash.val| && |hash.counts| == |hash.hashes| == pos + 1
    ensures hash.chain[slot] < m.window && hash.chainz[slot] < m.window
    ensures hash.chain[slot] == slot ==> Found(hash, m, pos, visited, length, offset)
    ensures hash.chain[slot] != slot ==>
              if ByZeros(hash.counts, pos, length) then
                if hash.zeros[hash.chainz[slot]] != hash.counts[pos] then Found(hash, m, pos, visited, length, offset)
                else Searching(hash, m, pos, visited, hash.chainz[slot], length, offset)
              else
                if hash.val[hash.chain[slot]] != hash.hashes[pos] then Found(hash, m, pos, visited, length, offset)
                else Searching(hash, m, pos, visited, hash.chain[slot], length, offset)
  {
    hide Slot, Chained, Recorded, Noted, Walk, Longest, FirstLongest, Searched, Last, Offset, ByZeros;
    LinksWithin(hash, m, pos, slot);
    NothingLongest(m, pos);
    NotByZeros(hash.counts, pos);
    if hash.chain[slot] == slot
       || (if ByZeros(hash.counts, pos, length) then hash.zeros[hash.chainz[slot]] != hash.counts[pos] else hash.val[hash.chain[slot]] != hash.hashes[pos]) {
      Stops(hash, m, pos, visited);
    }
  }

  lemma {:induction false} SearchLimit(hash: Hash, m: Terms, pos: nat, visited: seq<nat>, slot: nat, length: nat, offset: nat)
    requires Searching(hash, m, pos, visited, slot, length, offset) && |visited| == m.maxchain
    ensures Found(hash, m, pos, visited, length, offset)
  {
    hide Slot, Chained, Recorded, Noted, Walk, Longest, FirstLongest, Searched, Last, Offset;
    Stops(hash, m, pos, visited);
  }

  /** Walks the hash chain, or the chain of equal zero counts, for the longest match. Stale links are harmless: what is found
      is what the positions entered say. */
  method LongestMatch(hash: Hash, data: seq<byte>, size: nat, pos: nat, hashval: nat, numzeros: nat,
                      maxchainlength: nat, nicematch: nat) returns (length: nat, offset: nat, ghost visited: seq<nat>)
    requires Ready(hash, Terms(data, size, hash.Window(), maxchainlength, nicematch), pos)
    requires hashval == hash.hashes[pos] && numzeros == hash.counts[pos] && (numzeros == 0 || ExactRun(data, size, pos, numzeros))
    ensures Searched(Terms(data, size, hash.Window(), maxchainlength, nicematch), hash.hashes, hash.counts, pos, Match(visited, length, offset))
  {
    hide Slot, Searching, Compared, Searched, ExactRun, Common, Offset, ZeroRun, Chained, Recorded, Noted;
    ghost var m := Terms(data, size, hash.Window(), maxchainlength, nicematch);
    var w := |hash.chain|;
    var wpos := Slot(pos, w);
    length, offset, visited := 0, 0, [];
    SearchStarts(hash, m, pos);
    var hashpos: nat := hash.chain[wpos];
    var chainlength, prevOffset := 0, 0;
    while chainlength < maxchainlength
      invariant |visited| == chainlength <= maxchainlength && Searching(hash, m, pos, visited, hashpos, length, offset)
      invariant prevOffset == if visited == [] then 0 else visited[|visited| - 1]
      decreases maxchainlength - chainlength
    {
      chainlength := chainlength + 1;
      SearchLooks(hash, m, pos, visited, hashpos, length, offset);
      var currentOffset := Offset(pos, w, hashpos);
      if currentOffset < prevOffset { return; }
      SearchCompares(hash, m, pos, visited, hashpos, length, offset);
      prevOffset := currentOffset;
      if currentOffset > 0 {
        var currentLength := MatchLength(data, size, pos, currentOffset, numzeros, hash.zeros[hashpos]);
        visited := visited + [currentOffset];
        if currentLength > length {
          length, offset := currentLength, currentOffset;
          if currentLength >= nicematch { return; }
        }
      }
      SearchGoesOn(hash, m, pos, visited, hashpos, length, offset);
      if hashpos == hash.chain[hashpos] { return; }
      if numzeros >= 3 && length > numzeros {
        hashpos := hash.chainz[hashpos];
        if hash.zeros[hashpos] != numzeros { return; }
      } else {
        hashpos := hash.chain[hashpos];
        if hash.val[hashpos] != hashval { return; }
      }
    }
    SearchLimit(hash, m, pos, visited, hashpos, length, offset);
  }
}
