/** The LZ77 encoder: which tokens it chooses, and that they stand for the data. */
module LZ77Encoder {
  import opened Bits
  import opened LZ77
  import opened MatchSearch

  // ----- what is chosen -------------------------------------------------------------------------

  /** The input up to the end of the block, the hashes and zero counts with which all its positions are entered, and the settings. */
  datatype Rules = Rules(data: seq<byte>, size: nat, hashes: seq<nat>, counts: seq<nat>,
                         windowsize: nat, minmatch: nat, nicematch: nat, lazymatching: bool)

  /** The hashes of a block after those before it, and its zero counts. */
  function Hashes(before: seq<nat>, data: seq<byte>, size: nat): (r: seq<nat>)
    requires |before| <= size <= |data|
    ensures |r| == size
  {
    before + seq<nat>(size - |before|, i requires 0 <= i < size - |before| => GetHash(data, size, |before| + i))
  }

  function Counts(before: seq<nat>, data: seq<byte>, size: nat): (r: seq<nat>)
    requires |before| <= size <= |data|
    ensures |r| == size
  {
    before + seq<nat>(size - |before|, i requires 0 <= i < size - |before| => CountAt(data, size, |before| + i))
  }

  function MaxChain(windowsize: nat): (n: nat) { if windowsize >= 8192 then windowsize else windowsize / 8 }

  function MaxLazy(windowsize: nat): (n: nat) { if windowsize >= 8192 then MAX_LENGTH else 64 }

  function Nice(nicematch: nat): (n: nat) { if nicematch > MAX_LENGTH then MAX_LENGTH else nicematch }

  /** What the search at p finds. */
  ghost predicate SearchAt(r: Rules, p: nat, s: Match) {
    && p < |r.hashes| == |r.counts|
    && Searched(Terms(r.data, r.size, r.windowsize, MaxChain(r.windowsize), Nice(r.nicematch)), r.hashes[..p + 1], r.counts[..p + 1], p, s)
  }

  /** A match that is worth its bits. */
  predicate Worth(r: Rules, s: Match) {
    3 <= s.length && r.minmatch <= s.length && !(s.length == 3 && s.offset > 4096)
  }

  /** A match for which the next position is tried first. */
  predicate Delays(r: Rules, s: Match) {
    r.lazymatching && 3 <= s.length <= MaxLazy(r.windowsize) && s.length < MAX_LENGTH
  }

  ghost predicate BetterNext(r: Rules, p: nat, s: Match) { exists t :: SearchAt(r, p + 1, t) && t.length > s.length + 1 }

  ghost predicate NoBetterNext(r: Rules, p: nat, s: Match) { exists t :: SearchAt(r, p + 1, t) && t.length <= s.length + 1 }

  /** The token at p: a copy of the longest match if that is worth it, and otherwise the byte. With lazy matching the byte is also
      taken if the match at the next position is longer by more than one; then the token there is chosen without a further delay. */
  ghost predicate Chosen(r: Rules, p: nat, t: Token, after: bool, putOff: bool) {
    exists s :: SearchAt(r, p, s) && p < |r.data| &&
      if putOff then t == Literal(r.data[p]) && Delays(r, s) && !after && BetterNext(r, p, s)
      else (Delays(r, s) && !after ==> NoBetterNext(r, p, s)) && t == if Worth(r, s) then Copy(s.length, s.offset) else Literal(r.data[p])
  }

  /** Where the tokens end that start at p. */
  function EndOf(p: nat, tokens: seq<Token>): (e: nat)
  {
    if tokens == [] then p else EndOf(p, tokens[..|tokens| - 1]) + match tokens[|tokens| - 1] case Literal(_) => 1 case Copy(len, _) => len
  }

  /** Every token was chosen so; `putOff` says whether the last one puts off a match to the next position. */
  ghost predicate Parsed(r: Rules, inpos: nat, tokens: seq<Token>, putOff: bool)
    decreases |tokens|
  {
    if tokens == [] then !putOff
    else
      var rest, t := tokens[..|tokens| - 1], tokens[|tokens| - 1];
      || (Parsed(r, inpos, rest, false) && Chosen(r, EndOf(inpos, rest), t, false, putOff))
      || (Parsed(r, inpos, rest, true) && Chosen(r, EndOf(inpos, rest), t, true, putOff))
  }

  lemma {:induction false} ParsedMore(r: Rules, inpos: nat, tokens: seq<Token>, after: bool, t: Token, putOff: bool)
    requires Parsed(r, inpos, tokens, after) && Chosen(r, EndOf(inpos, tokens), t, after, putOff)
    ensures Parsed(r, inpos, tokens + [t], putOff)
    ensures EndOf(inpos, tokens + [t]) == EndOf(inpos, tokens) + match t case Literal(_) => 1 case Copy(len, _) => len
  {
    hide Chosen;
    assert (tokens + [t])[..|tokens|] == tokens;
  }

  // ----- entering positions ---------------------------------------------------------------------

  /** The rules say how the positions from inpos on are entered. */
  ghost predicate Fit(r: Rules, inpos: nat) {
    && |r.hashes| == |r.counts| == r.size <= |r.data| && inpos <= r.size
    && forall q :: inpos <= q < r.size ==> r.hashes[q] == GetHash(r.data, r.size, q) && r.counts[q] == CountAt(r.data, r.size, q)
  }

  /** The first n positions were entered so. */
  ghost predicate Holds(hash: Hash, r: Rules, n: nat)
    reads hash
  {
    && n <= |r.hashes| == |r.counts| && hash.Ok(r.data, n) && hash.Window() == r.windowsize
    && hash.hashes == r.hashes[..n] && hash.counts == r.counts[..n]
  }

  /** The running zero count is that of position q, or 0. */
  predicate ZerosOf(data: seq<byte>, size: nat, q: int, z: nat)
    requires size <= |data|
  {
    z == 0 || (0 <= q && ExactRun(data, size, q, z))
  }

  lemma {:induction false} CountIs(data: seq<byte>, size: nat, pos: nat, h: nat, z: nat)
    requires pos < size <= |data| && h == GetHash(data, size, pos)
    requires if h == 0 then ExactRun(data, size, pos, z) else z == 0
    ensures z == CountAt(data, size, pos) && ZeroRun(data, pos, z) && z <= MAX_LENGTH && ZerosOf(data, size, pos, z)
  {
    hide GetHash;
    if h == 0 { ZerosAre(data, pos, Limit(size, pos), z); }
  }

  /** Hash, zero count and table update for one position, perhaps after its heads were forgotten. */
  method EnterPosition(hash: Hash, ghost r: Rules, ghost inpos: nat, data: seq<byte>, size: nat, pos: nat, ghost n: nat, numzeros: nat)
    returns (hashval: nat, numzeros': nat)
    requires Fit(r, inpos) && r.data == data && r.size == size && inpos <= pos < size
    requires Holds(hash, r, n) && n == (if hash.forgot then pos + 1 else pos) && ZerosOf(data, size, n - 1, numzeros)
    modifies hash
    ensures Holds(hash, r, pos + 1) && !hash.forgot
    ensures hashval == r.hashes[pos] && numzeros' == r.counts[pos] && ZerosOf(data, size, pos, numzeros')
  {
    hide Slot, GetHash, Chained, Recorded, Noted, ExactRun, ZeroRun, CountAt;
    hashval := GetHash(data, size, pos);
    numzeros' := UpdateZeros(data, size, pos, hashval, numzeros);
    CountIs(data, size, pos, hashval, numzeros');
    hash.UpdateHashChain(data, pos, Slot(pos, |hash.chain|), hashval, numzeros');
  }

  lemma {:induction false} FitSizes(r: Rules, inpos: nat)
    requires Fit(r, inpos)
    ensures r.size <= |r.data|
  {}

  /** Enters the positions covered by a match that starts at pos. */
  method EnterMatch(hash: Hash, ghost r: Rules, ghost inpos: nat, data: seq<byte>, size: nat, pos: nat, ghost n: nat, numzeros: nat, length: nat)
    returns (numzeros': nat)
    requires Fit(r, inpos) && r.data == data && r.size == size && inpos <= pos && 3 <= length && pos + length <= size
    requires Holds(hash, r, n) && n == (if hash.forgot then pos + 2 else pos + 1) && ZerosOf(data, size, n - 1, numzeros)
    modifies hash
    ensures Holds(hash, r, pos + length) && !hash.forgot && ZerosOf(data, size, pos + length - 1, numzeros')
  {
    hide ZerosOf, Fit, Holds;
    FitSizes(r, inpos);
    numzeros' := numzeros;
    ghost var k: nat := n;
    var i := 1;
    while i < length
      invariant 1 <= i <= length && Holds(hash, r, k) && k == (if hash.forgot then pos + i + 1 else pos + i)
      invariant i == length ==> !hash.forgot
      invariant ZerosOf(data, size, k - 1, numzeros')
    {
      var hashval;
      hashval, numzeros' := EnterPosition(hash, r, inpos, data, size, pos + i, k, numzeros');
      k := pos + i + 1;
      i := i + 1;
    }
  }

  // ----- tokens so far --------------------------------------------------------------------------

  /** Everything before `e` has been encoded by `tokens`, stored as `out`. */
  ghost predicate Encoded(data: seq<byte>, inpos: nat, window: nat, e: nat, tokens: seq<Token>, out: seq<nat>) {
    && inpos <= e <= |data| && 0 < window
    && Expand(data[..inpos], tokens) == data[..e]
    && AllUsable(data[..inpos], tokens, window - 1)
    && out == Flat(tokens)
  }

  lemma {:induction false} LiteralStored(b: byte)
    ensures Stored(Literal(b)) == [b]
  {}

  lemma {:induction false} EncodeLiteral(data: seq<byte>, inpos: nat, window: nat, e: nat, tokens: seq<Token>, out: seq<nat>)
    requires Encoded(data, inpos, window, e, tokens, out) && e < |data|
    ensures Encoded(data, inpos, window, e + 1, tokens + [Literal(data[e])], out + [data[e]])
  {
    hide Flat, Stored, Expand, AllUsable;
    LiteralStored(data[e]);
    ExpandAppend(data[..inpos], tokens, Literal(data[e]), window - 1);
    FlatAppend(tokens, Literal(data[e]));
    assert data[..e] + [data[e]] == data[..e + 1];
  }

  lemma {:induction false} EncodeCopy(data: seq<byte>, inpos: nat, window: nat, e: nat, tokens: seq<Token>, out: seq<nat>, len: nat, dist: nat)
    requires Encoded(data, inpos, window, e, tokens, out) && e + len <= |data|
    requires 3 <= len <= MAX_LENGTH && 1 <= dist < window && Repeats(data, e, dist, len)
    ensures Encoded(data, inpos, window, e + len, tokens + [Copy(len, dist)], out + Stored(Copy(len, dist)))
  {
    hide Stored;
    ExpandAppend(data[..inpos], tokens, Copy(len, dist), window - 1);
    FlatAppend(tokens, Copy(len, dist));
    CopyRepeats(data, e, dist, len);
  }


  lemma {:induction false} EncodeNothing(data: seq<byte>, inpos: nat, window: nat)
    requires inpos <= |data| && 0 < window
    ensures Encoded(data, inpos, window, inpos, [], [])
  {}

  predicate IsPowerOfTwo(w: nat)
  {
    w == 1 || (w > 1 && w % 2 == 0 && IsPowerOfTwo(w / 2))
  }

  /** Both at once: the tokens stand for the data up to e, and each was chosen by the rules. */
  ghost predicate Going(r: Rules, inpos: nat, e: nat, tokens: seq<Token>, out: seq<nat>, putOff: bool) {
    Encoded(r.data, inpos, r.windowsize, e, tokens, out) && Parsed(r, inpos, tokens, putOff) && EndOf(inpos, tokens) == e
  }

  lemma {:induction false} GoLiteral(r: Rules, inpos: nat, e: nat, tokens: seq<Token>, out: seq<nat>, after: bool, putOff: bool, s: Match)
    requires Going(r, inpos, e, tokens, out, after) && e < |r.data| && SearchAt(r, e, s)
    requires if putOff then Delays(r, s) && !after && BetterNext(r, e, s) else !Worth(r, s) && (Delays(r, s) && !after ==> NoBetterNext(r, e, s))
    ensures Going(r, inpos, e + 1, tokens + [Literal(r.data[e])], out + [r.data[e]], putOff)
  {
    hide Encoded, Parsed, EndOf, SearchAt, BetterNext, NoBetterNext, Worth, Delays;
    EncodeLiteral(r.data, inpos, r.windowsize, e, tokens, out);
    ParsedMore(r, inpos, tokens, after, Literal(r.data[e]), putOff);
  }

  /** The match repeats earlier data within the window. */
  predicate Repeated(r: Rules, p: nat, s: Match) {
    && p + s.length <= r.size <= |r.data| && s.length <= MAX_LENGTH
    && (s.length > 0 ==> 1 <= s.offset < r.windowsize && Repeats(r.data, p, s.offset, s.length))
  }

  lemma {:induction false} GoCopy(r: Rules, inpos: nat, e: nat, tokens: seq<Token>, out: seq<nat>, after: bool, s: Match)
    requires Going(r, inpos, e, tokens, out, after) && e < |r.data| && SearchAt(r, e, s) && Repeated(r, e, s) && Worth(r, s)
    requires Delays(r, s) && !after ==> NoBetterNext(r, e, s)
    ensures Going(r, inpos, e + s.length, tokens + [Copy(s.length, s.offset)], out + Stored(Copy(s.length, s.offset)), false)
  {
    hide Encoded, Parsed, EndOf, SearchAt, NoBetterNext, Delays, Stored, Repeats;
    EncodeCopy(r.data, inpos, r.windowsize, e, tokens, out, s.length, s.offset);
    ParsedMore(r, inpos, tokens, after, Copy(s.length, s.offset), false);
  }

  lemma {:induction false} AtRepeats(r: Rules, p: nat, s: Match)
    requires SearchAt(r, p, s) && p < r.size <= |r.data|
    ensures Repeated(r, p, s)
  {
    hide Longest, FirstLongest, Step, Ends, Repeats;
    LongestRepeats(Terms(r.data, r.size, r.windowsize, MaxChain(r.windowsize), Nice(r.nicematch)), p, s.visited);
  }

  /** The longest match at a position just entered. */
  method FindMatch(hash: Hash, ghost r: Rules, data: seq<byte>, size: nat, pos: nat, hashval: nat, numzeros: nat,
                   maxchainlength: nat, nicematch: nat) returns (length: nat, offset: nat, ghost s: Match)
    requires r.data == data && r.size == size && pos < size <= |data| && Holds(hash, r, pos + 1) && !hash.forgot
    requires hashval == r.hashes[pos] && numzeros == r.counts[pos] && ZerosOf(data, size, pos, numzeros)
    requires maxchainlength == MaxChain(r.windowsize) && nicematch == Nice(r.nicematch)
    ensures SearchAt(r, pos, s) && Repeated(r, pos, s) && length == s.length && offset == s.offset
  {
    hide Chained, Recorded, Noted, Searched, ExactRun, Repeated, Nice, MaxChain;
    ghost var visited;
    length, offset, visited := LongestMatch(hash, data, size, pos, hashval, numzeros, maxchainlength, nicematch);
    s := Match(visited, length, offset);
    AtRepeats(r, pos, s);
  }

  /** Encodes the position as a literal or as the start of a match; `pos'` is the last byte covered. */
  method Emit(hash: Hash, ghost r: Rules, ghost inpos: nat, data: seq<byte>, insize: nat, minmatch: nat, pos: nat, ghost n: nat, numzeros: nat,
              length: nat, offset: nat, ghost s: Match, ghost after: bool, ghost tokens: seq<Token>, out: seq<nat>)
    returns (out': seq<nat>, ghost tokens': seq<Token>, pos': nat, ghost n': nat, numzeros': nat)
    requires Fit(r, inpos) && r.data == data && r.size == insize && r.minmatch == minmatch && r.windowsize <= 32768 && inpos <= pos < insize
    requires Holds(hash, r, n) && n == (if hash.forgot then pos + 2 else pos + 1) <= insize && ZerosOf(data, insize, n - 1, numzeros)
    requires Going(r, inpos, pos, tokens, out, after)
    requires SearchAt(r, pos, s) && Repeated(r, pos, s) && length == s.length && offset == s.offset && (Delays(r, s) && !after ==> NoBetterNext(r, pos, s))
    modifies hash
    ensures Holds(hash, r, n') && pos <= pos' < insize && n' == (if hash.forgot then pos' + 2 else pos' + 1) <= insize
    ensures ZerosOf(data, insize, n' - 1, numzeros')
    ensures Going(r, inpos, pos' + 1, tokens', out', false)
  {
    hide Going, Holds, Fit, ZerosOf, SearchAt, Delays, NoBetterNext, Stored, Repeats;
    if length < 3 || length < minmatch || (length == 3 && offset > 4096) {
      GoLiteral(r, inpos, pos, tokens, out, after, false, s);
      out', tokens', pos', n', numzeros' := out + [data[pos]], tokens + [Literal(data[pos])], pos, n, numzeros;
    } else {
      GoCopy(r, inpos, pos, tokens, out, after, s);
      out' := AddLengthDistance(out, length, offset);
      tokens' := tokens + [Copy(length, offset)];
      numzeros' := EnterMatch(hash, r, inpos, data, insize, pos, n, numzeros, length);
      pos' := pos + length - 1;
      n' := pos + length;
    }
  }

  // ----- the encoder ----------------------------------------------------------------------------

  /** The rules for a block that follows what was entered before. */
  function RulesFor(hashes: seq<nat>, counts: seq<nat>, data: seq<byte>, size: nat,
                    windowsize: nat, minmatch: nat, nicematch: nat, lazymatching: bool): (r: Rules)
    requires |hashes| == |counts| <= size <= |data|
  {
    Rules(data, size, Hashes(hashes, data, size), Counts(counts, data, size), windowsize, minmatch, nicematch, lazymatching)
  }

  lemma {:induction false} RulesFit(hash: Hash, r: Rules, inpos: nat)
    requires inpos <= r.size <= |r.data| && hash.Ok(r.data, inpos) && hash.Window() == r.windowsize
    requires r.hashes == Hashes(hash.hashes, r.data, r.size) && r.counts == Counts(hash.counts, r.data, r.size)
    ensures Fit(r, inpos) && Holds(hash, r, inpos)
  {
    hide GetHash, CountAt, Chained, Recorded, Noted;
  }

  lemma {:induction false} AllHeld(hash: Hash, r: Rules, inpos: nat)
    requires Fit(r, inpos) && Holds(hash, r, r.size)
    ensures hash.hashes == r.hashes && hash.counts == r.counts && hash.Ok(r.data, r.size) && hash.Window() == r.windowsize
  {
    hide Chained, Recorded, Noted, GetHash, CountAt;
  }

  lemma {:induction false} NoZeros(data: seq<byte>, size: nat, q: int)
    requires size <= |data|
    ensures ZerosOf(data, size, q, 0)
  {}

  lemma {:induction false} OkSizes(hash: Hash, data: seq<byte>, n: nat)
    requires hash.Ok(data, n)
    ensures |hash.hashes| == |hash.counts| == n
  {
    hide Chained, Recorded, Noted;
  }

  lemma {:induction false} GoNowhere(r: Rules, inpos: nat)
    requires inpos <= |r.data| && 0 < r.windowsize
    ensures Going(r, inpos, inpos, [], [], false)
  {
    EncodeNothing(r.data, inpos, r.windowsize);
  }

  lemma {:induction false} BetterIs(r: Rules, p: nat, s: Match, t: Match)
    requires SearchAt(r, p + 1, t) && t.length > s.length + 1
    ensures BetterNext(r, p, s)
  {
    hide SearchAt;
  }

  lemma {:induction false} NoBetterIs(r: Rules, p: nat, s: Match, t: Match)
    requires SearchAt(r, p + 1, t) && t.length <= s.length + 1
    ensures NoBetterNext(r, p, s)
  {
    hide SearchAt;
  }

  lemma {:induction false} DelayFits(r: Rules, p: nat, s: Match)
    requires Repeated(r, p, s) && Delays(r, s)
    ensures p + 3 <= r.size
  {
    hide Repeats;
  }

  lemma {:induction false} GoingMeans(r: Rules, inpos: nat, e: nat, tokens: seq<Token>, out: seq<nat>)
    requires Going(r, inpos, e, tokens, out, false)
    ensures Encoded(r.data, inpos, r.windowsize, e, tokens, out) && Parsed(r, inpos, tokens, false) && EndOf(inpos, tokens) == e
  {
    hide Encoded, Parsed, EndOf;
  }

  method ForgetLast(hash: Hash, ghost r: Rules, ghost n: nat, hashval: nat, numzeros: nat)
    requires Holds(hash, r, n) && !hash.forgot && 0 < n && hashval == r.hashes[n - 1] && numzeros == r.counts[n - 1]
    modifies hash
    ensures Holds(hash, r, n) && hash.forgot
  {
    hide Chained, Recorded, Noted;
    hash.ForgetHeads(r.data, n, hashval, numzeros);
  }

  /** LZ77-encodes data[inpos..insize] in blocks that share one hash. Whatever the match settings, expanding the output after the
      bytes before inpos gives back exactly data[..insize], and every token is the one that the rules choose. */
  method EncodeLZ77(hash: Hash, data: seq<byte>, inpos: nat, insize: nat, windowsize: nat,
                    minmatch: nat, nicematch_: nat, lazymatching: bool)
    returns (error: nat, out: seq<nat>, ghost tokens: seq<Token>)
    requires inpos <= insize <= |data|
    requires 0 < windowsize ==> hash.Ok(data, inpos) && hash.Window() == windowsize && !hash.forgot
    modifies hash
    ensures error == if windowsize == 0 || windowsize > 32768 then 60 else if !IsPowerOfTwo(windowsize) then 90 else 0
    ensures error == 0 ==> hash.Ok(data, insize) && hash.Window() == windowsize && !hash.forgot
    ensures error == 0 ==> Encoded(data, inpos, windowsize, insize, tokens, out)
    ensures error == 0 ==> |old(hash.hashes)| == |old(hash.counts)| == inpos
    ensures error == 0 ==> var r := RulesFor(old(hash.hashes), old(hash.counts), data, insize, windowsize, minmatch, nicematch_, lazymatching);
                           && Parsed(r, inpos, tokens, false) && EndOf(inpos, tokens) == insize
                           && hash.hashes == r.hashes && hash.counts == r.counts
  {
    hide Slot, Hash.Ok, Going, Holds, Fit, ZerosOf, SearchAt, BetterNext, NoBetterNext, Repeated, Worth;
    out, tokens := [], [];
    if windowsize == 0 || windowsize > 32768 { return 60, out, tokens; }
    if !IsPowerOfTwo(windowsize) { return 90, out, tokens; }
    error := 0;
    OkSizes(hash, data, inpos);
    ghost var r := RulesFor(hash.hashes, hash.counts, data, insize, windowsize, minmatch, nicematch_, lazymatching);
    RulesFit(hash, r, inpos);
    GoNowhere(r, inpos);
    var maxchainlength := if windowsize >= 8192 then windowsize else windowsize / 8;
    var maxlazymatch := if windowsize >= 8192 then MAX_LENGTH else 64;
    var nicematch := if nicematch_ > MAX_LENGTH then MAX_LENGTH else nicematch_;
    var numzeros := 0;
    var lazy, lazylength, lazyoffset := false, 0, 0;
    var pos := inpos;
    ghost var e: nat, n: nat, held := inpos, inpos, Match([], 0, 0);
    NoZeros(data, insize, n - 1);
    while pos < insize
      invariant inpos <= e <= pos <= insize && e == (if lazy then pos - 1 else pos)
      invariant Holds(hash, r, n) && n == (if hash.forgot then pos + 1 else pos) <= insize && (lazy ==> !hash.forgot)
      invariant ZerosOf(data, insize, n - 1, numzeros)
      invariant Going(r, inpos, e, tokens, out, false)
      invariant lazy ==> e + 3 <= insize && SearchAt(r, e, held) && Delays(r, held) && Repeated(r, e, held) && lazylength == held.length && lazyoffset == held.offset
      decreases insize - e, insize - pos
    {
      var hashval;
      hashval, numzeros := EnterPosition(hash, r, inpos, data, insize, pos, n, numzeros);
      n := pos + 1;
      ghost var s;
      ghost var after := false;
      var length, offset;
      length, offset, s := FindMatch(hash, r, data, insize, pos, hashval, numzeros, maxchainlength, nicematch);
      if lazymatching && !lazy && 3 <= length <= maxlazymatch && length < MAX_LENGTH {
        lazy, lazylength, lazyoffset, held := true, length, offset, s;
        DelayFits(r, pos, s);
        pos := pos + 1;
        continue;
      }
      if lazy {
        lazy := false;
        if length > lazylength + 1 {
          BetterIs(r, e, held, s);
          GoLiteral(r, inpos, e, tokens, out, false, true, held);
          out, tokens, e, after := out + [data[pos - 1]], tokens + [Literal(data[pos - 1])], pos, true;
        } else {
          NoBetterIs(r, e, held, s);
          length, offset, s := lazylength, lazyoffset, held;
          ForgetLast(hash, r, n, hashval, numzeros);
          pos := pos - 1;
        }
      }
      out, tokens, pos, n, numzeros := Emit(hash, r, inpos, data, insize, minmatch, pos, n, numzeros, length, offset, s, after, tokens, out);
      pos := pos + 1;
      e := pos;
    }
    AllHeld(hash, r, inpos);
    GoingMeans(r, inpos, e, tokens, out);
  }

  // ----- what this means ------------------------------------------------------------------------

  /** Each token of a parse is chosen by the rules where it starts. */
  lemma {:induction false} TokenChosen(r: Rules, inpos: nat, tokens: seq<Token>, putOff: bool, k: nat) returns (after: bool, delays: bool)
    requires Parsed(r, inpos, tokens, putOff) && k < |tokens|
    ensures Parsed(r, inpos, tokens[..k], after) && Chosen(r, EndOf(inpos, tokens[..k]), tokens[k], after, delays)
    ensures k == |tokens| - 1 ==> delays == putOff
    decreases |tokens|
  {
    hide Chosen;
    var rest, t := tokens[..|tokens| - 1], tokens[|tokens| - 1];
    after := !(Parsed(r, inpos, rest, false) && Chosen(r, EndOf(inpos, rest), t, false, putOff));
    delays := putOff;
    if k < |tokens| - 1 {
      assert rest[..k] == tokens[..k];
      after, delays := TokenChosen(r, inpos, rest, after, k);
    }
  }

  /** A literal that does not put off a match: no position compared matches three bytes or minmatch bytes, or the longest match has three
      bytes and is more than 4096 bytes away. */
  lemma {:induction false} LiteralMeans(r: Rules, p: nat, b: byte, after: bool) returns (s: Match)
    requires Chosen(r, p, Literal(b), after, false) && p < r.size <= |r.data|
    ensures SearchAt(r, p, s) && b == r.data[p]
    ensures forall k :: 0 <= k < |s.visited| ==>
              var n := Common(r.data, p, p - s.visited[k], Limit(r.size, p));
              n < 3 || n < r.minmatch || (n == s.length == 3 && s.offset > 4096)
  {
    hide Common, Searched;
    s := ChosenBy(r, p, Literal(b), after);
    CandidatesEqual(r, p, s);
  }

  /** A copy is the longest match among the positions compared, and repeats the first of them that matches as long. */
  lemma {:induction false} CopyMeans(r: Rules, p: nat, len: nat, dist: nat, after: bool) returns (s: Match)
    requires Chosen(r, p, Copy(len, dist), after, false) && p < r.size <= |r.data|
    ensures SearchAt(r, p, s) && 3 <= len && r.minmatch <= len && !(len == 3 && dist > 4096)
    ensures forall k :: 0 <= k < |s.visited| ==> Common(r.data, p, p - s.visited[k], Limit(r.size, p)) <= len
    ensures exists k :: 0 <= k < |s.visited| && s.visited[k] == dist && Common(r.data, p, p - s.visited[k], Limit(r.size, p)) == len
  {
    hide Common, Searched;
    s := ChosenBy(r, p, Copy(len, dist), after);
    CandidatesEqual(r, p, s);
  }

  lemma {:induction false} ChosenBy(r: Rules, p: nat, t: Token, after: bool) returns (s: Match)
    requires Chosen(r, p, t, after, false)
    ensures SearchAt(r, p, s) && p < |r.data| && t == if Worth(r, s) then Copy(s.length, s.offset) else Literal(r.data[p])
  {
    hide SearchAt, Worth, Delays, NoBetterNext, BetterNext;
    s :| SearchAt(r, p, s) && p < |r.data| && (Delays(r, s) && !after ==> NoBetterNext(r, p, s))
         && t == if Worth(r, s) then Copy(s.length, s.offset) else Literal(r.data[p]);
  }

  lemma {:induction false} CandidatesEqual(r: Rules, p: nat, s: Match)
    requires SearchAt(r, p, s) && p < r.size <= |r.data|
    ensures forall k :: 0 <= k < |s.visited| ==> 1 <= s.visited[k] <= p && Common(r.data, p, p - s.visited[k], Limit(r.size, p)) <= s.length
    ensures s.length > 0 ==>
              exists k :: 0 <= k < |s.visited| && s.visited[k] == s.offset && Common(r.data, p, p - s.visited[k], Limit(r.size, p)) == s.length
  {
    hide Common, Step, Ends, Longest, FirstLongest;
    var m := Terms(r.data, r.size, r.windowsize, MaxChain(r.windowsize), Nice(r.nicematch));
    SearchedMeans(m, r.hashes[..p + 1], r.counts[..p + 1], p, s);
    assert forall k :: 0 <= k < |s.visited| ==> Equal(m, p, s.visited[k]) == Common(r.data, p, p - s.visited[k], Limit(r.size, p));
  }

  lemma {:induction false} OnlyOnes(m: Terms, pos: nat, visited: seq<nat>)
    requires visited != [] && forall k :: 0 <= k < |visited| ==> visited[k] == 1
    ensures Longest(m, pos, visited) == Equal(m, pos, 1) && (Equal(m, pos, 1) > 0 ==> FirstLongest(m, pos, visited) == 1)
  {
    hide Equal;
    var rest := visited[..|visited| - 1];
    if rest == [] { NothingLongest(m, pos); } else { OnlyOnes(m, pos, rest); }
  }

  /** The first position has nothing to refer to. */
  lemma {:induction false} FirstIsLiteral(r: Rules, t: Token, after: bool, putOff: bool)
    requires Chosen(r, 0, t, after, putOff)
    ensures |r.data| > 0 && t == Literal(r.data[0]) && !putOff
  {
    hide Step, Ends;
  }

  /** All bytes up to the limit are equal. */
  lemma {:induction false} CommonOfEqual(data: seq<byte>, p: nat, q: nat, limit: nat)
    requires q <= p <= limit <= |data| && forall i :: 0 <= i < |data| ==> data[i] == data[0]
    ensures Common(data, p, q, limit) == limit - p
    decreases limit - p
  {
    if p < limit {
      assert data[p] == data[0] && data[q] == data[0];
      CommonOfEqual(data, p + 1, q + 1, limit);
    }
  }

  lemma {:induction false} HashOfEqual(data: seq<byte>, r: Rules)
    requires |data| >= 4 && forall i :: 0 <= i < |data| ==> data[i] == data[0]
    requires |r.hashes| == |data| && r.hashes == Hashes([], data, |data|)
    ensures r.hashes[..2][0] == r.hashes[..2][1] && Last(r.hashes[..2], r.hashes[..2][1], 1) == 0
  {
    assert data[0] == data[1] == data[2] == data[3];
    assert GetHash(data, |data|, 0) == GetHash(data, |data|, 1);
    LastIs(r.hashes[..2], r.hashes[..2][1], 1, 0);
  }

  /** What the search at the second of n equal bytes finds. */
  lemma {:induction false} SecondFinds(data: seq<byte>, r: Rules, s: Match)
    requires |data| >= 4 && forall i :: 0 <= i < |data| ==> data[i] == data[0]
    requires r.data == data && r.size == |data| && r.hashes == Hashes([], data, |data|) && r.windowsize >= 8 && SearchAt(r, 1, s)
    ensures s.length == (if |data| - 1 < MAX_LENGTH then |data| - 1 else MAX_LENGTH) && s.offset == 1
  {
    hide Hashes, Longest, FirstLongest, Last, Enough, GetHash;
    var m := Terms(r.data, r.size, r.windowsize, MaxChain(r.windowsize), Nice(r.nicematch));
    HashOfEqual(data, r);
    assert InWindow(1, m.window, 0) && m.maxchain >= 1;
    NothingLongest(m, 1);
    if s.visited == [] {
      NothingEnough(m);
      assert false;
    }
    OnlyOnes(m, 1, s.visited);
    CommonOfEqual(data, 1, 0, Limit(|data|, 1));
  }

  lemma {:induction false} EndOfGrows(p: nat, tokens: seq<Token>, k: nat)
    requires k <= |tokens|
    ensures EndOf(p, tokens[..k]) <= EndOf(p, tokens)
    decreases |tokens|
  {
    if k == |tokens| {
      assert tokens[..k] == tokens;
    } else {
      assert tokens[..|tokens| - 1][..k] == tokens[..k];
      EndOfGrows(p, tokens[..|tokens| - 1], k);
    }
  }

  lemma {:induction false} TokenMoves(r: Rules, p: nat, t: Token, after: bool, putOff: bool)
    requires Chosen(r, p, t, after, putOff)
    ensures t.Copy? ==> t.len >= 3
  {
    hide SearchAt, BetterNext, NoBetterNext;
  }

  /** n equal bytes: the first one, and a copy of the rest, or of as much as a copy can hold, from one byte back. */
  lemma {:induction false} EqualBytes(data: seq<byte>, windowsize: nat, minmatch: nat, nicematch: nat, lazymatching: bool, tokens: seq<Token>)
    requires |data| >= 4 && forall i :: 0 <= i < |data| ==> data[i] == data[0]
    requires windowsize >= 8 && minmatch <= 3
    requires Parsed(RulesFor([], [], data, |data|, windowsize, minmatch, nicematch, lazymatching), 0, tokens, false)
    requires EndOf(0, tokens) == |data|
    ensures |tokens| >= 2 && tokens[0] == Literal(data[0])
    ensures tokens[1] == Copy(if |data| - 1 < MAX_LENGTH then |data| - 1 else MAX_LENGTH, 1)
    ensures |data| <= 1 + MAX_LENGTH ==> |tokens| == 2
  {
    hide SearchAt, Parsed, Hashes, Counts, Chosen;
    var r := RulesFor([], [], data, |data|, windowsize, minmatch, nicematch, lazymatching);
    assert tokens != [];
    var after, delays := TokenChosen(r, 0, tokens, false, 0);
    assert tokens[..0] == [] && EndOf(0, []) == 0;
    FirstIsLiteral(r, tokens[0], after, delays);
    assert tokens[..1][..0] == [];
    assert EndOf(0, tokens[..1]) == 1;
    assert tokens[..|tokens|] == tokens;
    if |tokens| == 1 { assert false; }
    after, delays := TokenChosen(r, 0, tokens, false, 1);
    NotPutOff(r, tokens[..1], after);
    SecondIsCopy(data, r, tokens[1], delays);
    assert tokens[..2][..1] == tokens[..1];
    if |tokens| > 2 && |data| <= 1 + MAX_LENGTH {
      after, delays := TokenChosen(r, 0, tokens, false, 2);
      TokenMoves(r, EndOf(0, tokens[..2]), tokens[2], after, delays);
      assert tokens[..3][..2] == tokens[..2];
      EndOfGrows(0, tokens, 3);
      assert false;
    }
  }

  lemma {:induction false} NotPutOff(r: Rules, tokens: seq<Token>, after: bool)
    requires |tokens| == 1 && Parsed(r, 0, tokens, after)
    ensures !after
  {
    hide Chosen;
    assert tokens[..0] == [] && EndOf(0, []) == 0;
    if Parsed(r, 0, [], false) && Chosen(r, 0, tokens[0], false, after) { FirstIsLiteral(r, tokens[0], false, after); }
  }

  lemma {:induction false} NothingEnough(m: Terms)
    ensures !Enough(m, 0)
  {}

  lemma {:induction false} SecondIsCopy(data: seq<byte>, r: Rules, t: Token, putOff: bool)
    requires |data| >= 4 && forall i :: 0 <= i < |data| ==> data[i] == data[0]
    requires r.data == data && r.size == |data| && r.hashes == Hashes([], data, |data|) && r.windowsize >= 8 && r.minmatch <= 3
    requires Chosen(r, 1, t, false, putOff)
    ensures t == Copy(if |data| - 1 < MAX_LENGTH then |data| - 1 else MAX_LENGTH, 1)
  {
    hide SearchAt, Hashes;
    var s :| SearchAt(r, 1, s) && (if putOff then t == Literal(r.data[1]) && Delays(r, s) && BetterNext(r, 1, s)
      else (Delays(r, s) ==> NoBetterNext(r, 1, s)) && t == if Worth(r, s) then Copy(s.length, s.offset) else Literal(r.data[1]));
    SecondFinds(data, r, s);
    if putOff {
      var next :| SearchAt(r, 2, next) && next.length > s.length + 1;
      AtRepeats(r, 2, next);
      assert false;
    }
  }
}
