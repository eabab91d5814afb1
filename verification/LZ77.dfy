/** LZ77 tokens, what they stand for, and how they are stored. */
module LZ77 {
  import opened Bits

  // ----- tokens and their meaning -------------------------------------------------------------

  datatype Token = Literal(b: byte) | Copy(len: nat, dist: nat)

  /** Copying `len` bytes from `dist` bytes back, one at a time, so that a copy may feed itself. */
  function CopyBytes(out: seq<byte>, dist: nat, len: nat): (r: seq<byte>)
    requires 1 <= dist <= |out|
    ensures |r| == |out| + len
    decreases len
  {
    if len == 0 then out else CopyBytes(out + [out[|out| - dist]], dist, len - 1)
  }

  /** A token that can be applied to `n` bytes of output and sent as DEFLATE symbols, with a distance
      of at most `window`. */
  predicate Usable(t: Token, n: nat, window: nat) {
    t.Copy? ==> 3 <= t.len <= 258 && 1 <= t.dist <= n && t.dist <= window
  }

  function Apply(out: seq<byte>, t: Token): (r: seq<byte>)
  {
    match t
    case Literal(b) => out + [b]
    case Copy(len, dist) => if 1 <= dist <= |out| then CopyBytes(out, dist, len) else out
  }

  /** What a token sequence stands for, following the output `out`. */
  function Expand(out: seq<byte>, tokens: seq<Token>): (r: seq<byte>)
    decreases |tokens|
  {
    if tokens == [] then out else Expand(Apply(out, tokens[0]), tokens[1..])
  }

  predicate AllUsable(out: seq<byte>, tokens: seq<Token>, window: nat)
    decreases |tokens|
  {
    tokens != [] ==> Usable(tokens[0], |out|, window) && AllUsable(Apply(out, tokens[0]), tokens[1..], window)
  }

  lemma {:induction false} ExpandAppend(out: seq<byte>, tokens: seq<Token>, t: Token, window: nat)
    ensures Expand(out, tokens + [t]) == Apply(Expand(out, tokens), t)
    ensures AllUsable(out, tokens + [t], window)
            <==> AllUsable(out, tokens, window) && Usable(t, |Expand(out, tokens)|, window)
    decreases |tokens|
  {
    hide Apply, Usable;
    if tokens == [] {
      assert [t][1..] == [];
    } else {
      assert (tokens + [t])[1..] == tokens[1..] + [t];
      ExpandAppend(Apply(out, tokens[0]), tokens[1..], t, window);
    }
  }

  /** The bytes from `pos` on repeat those `dist` back, for `len` bytes. */
  predicate Repeats(data: seq<byte>, pos: nat, dist: nat, len: nat) {
    1 <= dist <= pos && pos + len <= |data| && forall p :: pos <= p < pos + len ==> data[p] == data[p - dist]
  }

  lemma {:induction false} CopyRepeats(data: seq<byte>, pos: nat, dist: nat, len: nat)
    requires Repeats(data, pos, dist, len)
    ensures CopyBytes(data[..pos], dist, len) == data[..pos + len]
    decreases len
  {
    if len > 0 {
      assert data[pos] == data[pos - dist];
      assert data[..pos] + [data[pos - dist]] == data[..pos + 1];
      CopyRepeats(data, pos + 1, dist, len - 1);
    }
  }

  // ----- length and distance codes (RFC 1951, section 3.2.5) ----------------------------------

  const LENGTHBASE: seq<nat> := [3, 4, 5, 6, 7, 8, 9, 10, 11, 13, 15, 17, 19, 23, 27, 31, 35, 43, 51, 59,
                                 67, 83, 99, 115, 131, 163, 195, 227, 258]
  const LENGTHEXTRA: seq<nat> := [0, 0, 0, 0, 0, 0, 0, 0, 1, 1, 1, 1, 2, 2, 2, 2, 3, 3, 3, 3,
                                  4, 4, 4, 4, 5, 5, 5, 5, 0]
  const DISTANCEBASE: seq<nat> := [1, 2, 3, 4, 5, 7, 9, 13, 17, 25, 33, 49, 65, 97, 129, 193, 257, 385, 513,
                                   769, 1025, 1537, 2049, 3073, 4097, 6145, 8193, 12289, 16385, 24577]
  const DISTANCEEXTRA: seq<nat> := [0, 0, 0, 0, 1, 1, 2, 2, 3, 3, 4, 4, 5, 5, 6, 6, 7, 7, 8,
                                    8, 9, 9, 10, 10, 11, 11, 12, 12, 13, 13]

  function LengthBase(c: nat): (b: nat)
    requires c < 29
  {
    LENGTHBASE[c]
  }

  function LengthExtra(c: nat): (b: nat)
    requires c < 29
  {
    LENGTHEXTRA[c]
  }

  function DistanceBase(c: nat): (b: nat)
    requires c < 30
  {
    DISTANCEBASE[c]
  }

  function DistanceExtra(c: nat): (b: nat)
    requires c < 30
  {
    DISTANCEEXTRA[c]
  }

  /** The greatest index up to `i` whose base does not exceed `v`. */
  function Largest(base: seq<nat>, v: nat, i: nat): (r: nat)
    requires i < |base|
    ensures r <= i
  {
    if i == 0 || base[i] <= v then i else Largest(base, v, i - 1)
  }

  predicate Increasing(base: seq<nat>) {
    forall i, j :: 0 <= i < j < |base| ==> base[i] < base[j]
  }

  lemma {:induction false} LargestIs(base: seq<nat>, v: nat, i: nat, r: nat)
    requires Increasing(base) && r <= i < |base| && base[r] <= v && (r < i ==> v < base[r + 1])
    ensures Largest(base, v, i) == r
    decreases i
  {
    if r < i {
      assert base[r + 1] <= base[i] by { if r + 1 < i { assert base[r + 1] < base[i]; } }
      LargestIs(base, v, i - 1, r);
    }
  }

  lemma {:induction false} LargestHolds(base: seq<nat>, v: nat, i: nat)
    requires i < |base| && base[0] <= v
    ensures base[Largest(base, v, i)] <= v
    ensures Largest(base, v, i) < i ==> v < base[Largest(base, v, i) + 1]
    decreases i
  {
    if i != 0 && base[i] > v { LargestHolds(base, v, i - 1); }
  }

  method SearchCodeIndex(array_: seq<nat>, value: nat) returns (left: nat)
    requires |array_| >= 2 && Increasing(array_) && array_[0] <= value
    ensures left == Largest(array_, value, |array_| - 1)
  {
    left := 1;
    var right := |array_| - 1;
    while left <= right
      invariant 1 <= left <= right + 1 <= |array_|
      invariant left == 1 || array_[left - 1] < value
      invariant right + 1 == |array_| || value <= array_[right + 1]
      decreases right + 1 - left
    {
      var mid := (left + right) / 2;
      if array_[mid] >= value {
        right := mid - 1;
      } else {
        left := mid + 1;
      }
    }
    if left >= |array_| || array_[left] > value { left := left - 1; }
    LargestIs(array_, value, |array_| - 1, left);
  }

  function LengthCode(len: nat): (c: nat)
    ensures c < 29
  {
    Largest(LENGTHBASE, len, 28)
  }

  function DistanceCode(dist: nat): (c: nat)
    ensures c < 30
  {
    Largest(DISTANCEBASE, dist, 29)
  }

  lemma {:induction false} BasesIncrease()
    ensures Increasing(LENGTHBASE) && Increasing(DISTANCEBASE)
  {}

  /** The gap to the next base is what the extra bits can express. */
  lemma {:induction false} LengthGaps(i: nat)
    requires i < 29
    ensures i < 28 ==> LengthBase(i + 1) - LengthBase(i) <= Pow2(LengthExtra(i))
    ensures LengthExtra(i) <= 5 && 3 <= LengthBase(i)
    ensures i == 28 ==> LengthBase(i) == 258
  {
    assert Pow2(0) == 1 && Pow2(1) == 2 && Pow2(2) == 4 && Pow2(3) == 8 && Pow2(4) == 16 && Pow2(5) == 32;
  }

  lemma {:induction false} DistanceGaps(i: nat)
    requires i < 30
    ensures (if i < 29 then DistanceBase(i + 1) else 32769) - DistanceBase(i) <= Pow2(DistanceExtra(i))
    ensures DistanceExtra(i) <= 13 && 1 <= DistanceBase(i)
    ensures i < 22 ==> DistanceExtra(i) <= 9
  {
    assert Pow2(0) == 1 && Pow2(1) == 2 && Pow2(2) == 4 && Pow2(3) == 8 && Pow2(4) == 16 && Pow2(5) == 32;
    assert Pow2(6) == 64 && Pow2(7) == 128 && Pow2(8) == 256 && Pow2(9) == 512 && Pow2(10) == 1024;
    assert Pow2(11) == 2048 && Pow2(12) == 4096 && Pow2(13) == 8192;
  }

  /** The tables in closed form: the first length is 3 and the first distance 1, each code begins where the extra bits of the one before
      it end, the numbers of extra bits grow by one every four length codes and every two distance codes, and 258 has a code of its own. */
  lemma {:induction false} LengthTable(c: nat)
    requires c < 29
    ensures LengthExtra(c) == (if c < 8 || c == 28 then 0 else (c - 4) / 4)
    ensures LengthBase(c) == (if c == 0 then 3 else if c == 28 then 258 else LengthBase(c - 1) + Pow2(LengthExtra(c - 1)))
  {
    assert Pow2(0) == 1 && Pow2(1) == 2 && Pow2(2) == 4 && Pow2(3) == 8 && Pow2(4) == 16 && Pow2(5) == 32;
  }

  lemma {:induction false} DistanceTable(c: nat)
    requires c < 30
    ensures DistanceExtra(c) == (if c < 4 then 0 else (c - 2) / 2)
    ensures DistanceBase(c) == (if c == 0 then 1 else DistanceBase(c - 1) + Pow2(DistanceExtra(c - 1)))
  {
    assert Pow2(0) == 1 && Pow2(1) == 2 && Pow2(2) == 4 && Pow2(3) == 8 && Pow2(4) == 16 && Pow2(5) == 32;
    assert Pow2(6) == 64 && Pow2(7) == 128 && Pow2(8) == 256 && Pow2(9) == 512 && Pow2(10) == 1024;
    assert Pow2(11) == 2048 && Pow2(12) == 4096 && Pow2(13) == 8192;
  }

  // ----- the flat form of tokens --------------------------------------------------------------

  /** How a token is stored in the encoder's vector: a literal byte, or length code, extra length
      bits, distance code, extra distance bits. */
  function Stored(t: Token): (v: seq<nat>)
  {
    match t
    case Literal(b) => [b]
    case Copy(len, dist) =>
      var lc, dc := LengthCode(len), DistanceCode(dist);
      if LengthBase(lc) <= len && DistanceBase(dc) <= dist then
        [lc + 257, len - LengthBase(lc), dc, dist - DistanceBase(dc)]
      else []
  }

  function Flat(tokens: seq<Token>): (v: seq<nat>)
  {
    if tokens == [] then [] else Flat(tokens[..|tokens| - 1]) + Stored(tokens[|tokens| - 1])
  }

  lemma {:induction false} FlatAppend(tokens: seq<Token>, t: Token)
    ensures Flat(tokens + [t]) == Flat(tokens) + Stored(t)
  {
    assert (tokens + [t])[..|tokens|] == tokens;
  }

  /** The codes and extra bits of a usable copy: in range, and enough to recover it. */
  lemma {:induction false} CopyCodes(len: nat, dist: nat)
    requires 3 <= len <= 258 && 1 <= dist <= 32768
    ensures var lc, dc := LengthCode(len), DistanceCode(dist);
            && LengthBase(lc) <= len && len - LengthBase(lc) < Pow2(LengthExtra(lc))
            && DistanceBase(dc) <= dist && dist - DistanceBase(dc) < Pow2(DistanceExtra(dc))
            && LengthExtra(lc) <= 5 && DistanceExtra(dc) <= 13
  {
    var lc, dc := LengthCode(len), DistanceCode(dist);
    LargestHolds(LENGTHBASE, len, 28);
    LargestHolds(DISTANCEBASE, dist, 29);
    LengthGaps(lc);
    DistanceGaps(dc);
  }

  /** Distances of at most 2048 have at most nine extra bits. */
  lemma {:induction false} ShortDistance(dist: nat)
    requires 1 <= dist <= 2048
    ensures DistanceExtra(DistanceCode(dist)) <= 9
  {
    var dc := DistanceCode(dist);
    LargestHolds(DISTANCEBASE, dist, 29);
    BasesIncrease();
    assert DistanceBase(22) == 2049;
    DistanceGaps(dc);
  }

  method AddLengthDistance(values: seq<nat>, length: nat, distance: nat) returns (values': seq<nat>)
    requires 3 <= length <= 258 && 1 <= distance <= 32768
    ensures values' == values + Stored(Copy(length, distance))
  {
    BasesIncrease();
    CopyCodes(length, distance);
    var lengthCode := SearchCodeIndex(LENGTHBASE, length);
    var extraLength := length - LengthBase(lengthCode);
    var distCode := SearchCodeIndex(DISTANCEBASE, distance);
    var extraDistance := distance - DistanceBase(distCode);
    values' := values + [lengthCode + 257] + [extraLength] + [distCode] + [extraDistance];
  }
}
