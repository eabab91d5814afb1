/** AES-128 (FIPS 197) on blocks in a buffer, and its CBC and CTR modes (NIST SP 800-38A). */
module Aes {
  import opened Bits
  import opened Bitwise
  import opened Buffers
  import opened AesField
  import opened AesTables

  const NR: nat := 10
  const BLOCK: nat := 16
  const KEYS: nat := 176

  // ----- steps of the cipher ------------------------------------------------------------------

  predicate IsBlock(s: seq<byte>) { |s| == 16 }

  function RoundKey(rk: seq<byte>, round: nat): (k: seq<byte>)
    requires |rk| == KEYS && round <= NR
    ensures IsBlock(k)
  {
    rk[16 * round..16 * round + 16]
  }

  function Keyed(s: seq<byte>, k: seq<byte>): (r: seq<byte>)
    requires IsBlock(s) && IsBlock(k)
    ensures IsBlock(r) && forall i :: 0 <= i < 16 ==> r[i] == XorB(s[i], k[i])
  {
    seq(16, i requires 0 <= i < 16 => XorB(s[i], k[i]))
  }

  function Substituted(s: seq<byte>): (r: seq<byte>)
    requires IsBlock(s)
    ensures IsBlock(r) && forall i :: 0 <= i < 16 ==> r[i] == Sbox(s[i])
  {
    seq(16, i requires 0 <= i < 16 => Sbox(s[i]))
  }

  function Unsubstituted(s: seq<byte>): (r: seq<byte>)
    requires IsBlock(s)
    ensures IsBlock(r) && forall i :: 0 <= i < 16 ==> r[i] == Rsbox(s[i])
  {
    seq(16, i requires 0 <= i < 16 => Rsbox(s[i]))
  }

  /** Byte of row j, j places further left or right. Byte k is in row k % 4 and column k / 4. */
  function LeftOf(k: nat): (i: nat)
    requires k < 16
    ensures i < 16
  {
    4 * ((k / 4 + k % 4) % 4) + k % 4
  }

  function RightOf(k: nat): (i: nat)
    requires k < 16
    ensures i < 16
  {
    4 * ((k / 4 + 4 - k % 4) % 4) + k % 4
  }

  /** ShiftRows: row j moves left by j (section 5.1.2). */
  function Shifted(s: seq<byte>): (r: seq<byte>)
    requires IsBlock(s)
    ensures IsBlock(r) && forall k :: 0 <= k < 16 ==> r[k] == s[LeftOf(k)]
  {
    seq(16, k requires 0 <= k < 16 => s[LeftOf(k)])
  }

  function Unshifted(s: seq<byte>): (r: seq<byte>)
    requires IsBlock(s)
    ensures IsBlock(r) && forall k :: 0 <= k < 16 ==> r[k] == s[RightOf(k)]
  {
    seq(16, k requires 0 <= k < 16 => s[RightOf(k)])
  }

  /** The next byte of a column; the first one follows the last. */
  function Next(k: nat): (i: nat)
    requires k < 16
    ensures i < 16
  {
    if k % 4 == 3 then k - 3 else k + 1
  }

  lemma {:induction false} NextFour(k: nat)
    requires k < 16
    ensures Next(Next(Next(Next(k)))) == k
  {}

  /** Byte k of a block whose columns are multiplied by a circulant matrix. */
  function MatrixByte(s: seq<byte>, m: Coefficients, k: nat): (r: byte)
    requires IsBlock(s) && k < 16
  {
    Row(s[k], s[Next(k)], s[Next(Next(k))], s[Next(Next(Next(k)))], m)
  }

  function Mixed(s: seq<byte>, m: Coefficients): (r: seq<byte>)
    requires IsBlock(s)
    ensures IsBlock(r) && forall k :: 0 <= k < 16 ==> r[k] == MatrixByte(s, m, k)
  {
    seq(16, k requires 0 <= k < 16 => MatrixByte(s, m, k))
  }

  // ----- each step is undone ------------------------------------------------------------------

  lemma {:induction false} KeyedTwice(s: seq<byte>, k: seq<byte>)
    requires IsBlock(s) && IsBlock(k)
    ensures Keyed(Keyed(s, k), k) == s
  {
    hide Xor;
    forall i | 0 <= i < 16 ensures Keyed(Keyed(s, k), k)[i] == s[i] { XorTwice(s[i], k[i]); }
  }

  lemma {:induction false} Unsubstitute(s: seq<byte>)
    requires IsBlock(s)
    ensures Unsubstituted(Substituted(s)) == s
  {
    hide Sbox, Rsbox;
    forall i | 0 <= i < 16 ensures Unsubstituted(Substituted(s))[i] == s[i] { SboxInverse(s[i]); }
  }

  lemma {:induction false} Unshift(s: seq<byte>)
    requires IsBlock(s)
    ensures Unshifted(Shifted(s)) == s
  {
    hide LeftOf, RightOf;
    forall k | 0 <= k < 16 ensures Unshifted(Shifted(s))[k] == s[k] { LeftRight(k); }
  }

  lemma {:induction false} LeftRight(k: nat)
    requires k < 16
    ensures LeftOf(RightOf(k)) == k
  {
    var i, j := k / 4, k % 4;
    assert RightOf(k) % 4 == j && RightOf(k) / 4 == (i + 4 - j) % 4;
  }

  lemma {:induction false} Unmix(s: seq<byte>)
    requires IsBlock(s)
    ensures Mixed(Mixed(s, MIX), UNMIX) == s
  {
    hide Row, Next;
    var t := Mixed(s, MIX);
    forall k | 0 <= k < 16 ensures Mixed(t, UNMIX)[k] == s[k] {
      var k1 := Next(k);
      var k2 := Next(k1);
      var k3 := Next(k2);
      NextFour(k);
      UnmixMixed(s[k], s[k1], s[k2], s[k3]);
      assert t[k] == MatrixByte(s, MIX, k) && t[k1] == MatrixByte(s, MIX, k1);
      assert t[k2] == MatrixByte(s, MIX, k2) && t[k3] == MatrixByte(s, MIX, k3);
    }
  }

  // ----- the cipher ---------------------------------------------------------------------------

  /** The state after the first n rounds. */
  function AfterRounds(s: seq<byte>, rk: seq<byte>, n: nat): (r: seq<byte>)
    requires IsBlock(s) && |rk| == KEYS && n < NR
    ensures IsBlock(r)
    decreases n
  {
    if n == 0 then Keyed(s, RoundKey(rk, 0))
    else Keyed(Mixed(Shifted(Substituted(AfterRounds(s, rk, n - 1))), MIX), RoundKey(rk, n))
  }

  function Enciphered(s: seq<byte>, rk: seq<byte>): (r: seq<byte>)
    requires IsBlock(s) && |rk| == KEYS
    ensures IsBlock(r)
  {
    Keyed(Shifted(Substituted(AfterRounds(s, rk, NR - 1))), RoundKey(rk, NR))
  }

  /** The rounds from n down to 0, undone. */
  function Unrolled(s: seq<byte>, rk: seq<byte>, n: nat): (r: seq<byte>)
    requires IsBlock(s) && |rk| == KEYS && n < NR
    ensures IsBlock(r)
    decreases n
  {
    var t := Keyed(Unsubstituted(Unshifted(s)), RoundKey(rk, n));
    if n == 0 then t else Unrolled(Mixed(t, UNMIX), rk, n - 1)
  }

  function Deciphered(s: seq<byte>, rk: seq<byte>): (r: seq<byte>)
    requires IsBlock(s) && |rk| == KEYS
    ensures IsBlock(r)
  {
    Unrolled(Keyed(s, RoundKey(rk, NR)), rk, NR - 1)
  }

  lemma {:induction false} UnrollRounds(s: seq<byte>, rk: seq<byte>, n: nat)
    requires IsBlock(s) && |rk| == KEYS && n < NR
    ensures Unrolled(Shifted(Substituted(AfterRounds(s, rk, n))), rk, n) == s
    decreases n
  {
    hide Keyed, Substituted, Unsubstituted, Shifted, Unshifted, Mixed, RoundKey;
    var t := AfterRounds(s, rk, n);
    Unshift(Substituted(t));
    Unsubstitute(t);
    if n == 0 {
      KeyedTwice(s, RoundKey(rk, 0));
    } else {
      var u := Shifted(Substituted(AfterRounds(s, rk, n - 1)));
      KeyedTwice(Mixed(u, MIX), RoundKey(rk, n));
      Unmix(u);
      UnrollRounds(s, rk, n - 1);
    }
  }

  /** Deciphering undoes enciphering, for every block and every array of round keys. */
  lemma {:induction false} DecipherEnciphered(s: seq<byte>, rk: seq<byte>)
    requires IsBlock(s) && |rk| == KEYS
    ensures Deciphered(Enciphered(s, rk), rk) == s
  {
    hide Keyed, Substituted, Shifted, RoundKey, Unrolled, AfterRounds;
    KeyedTwice(Shifted(Substituted(AfterRounds(s, rk, NR - 1))), RoundKey(rk, NR));
    UnrollRounds(s, rk, NR - 1);
  }

  // ----- steps in place -----------------------------------------------------------------------

  method AddRoundKey(round: nat, buf: array<byte>, off: nat, rk: seq<byte>)
    requires off + 16 <= buf.Length && |rk| == KEYS && round <= NR
    modifies buf
    ensures buf[..] == Replaced(old(buf[..]), off, Keyed(old(buf[off..off + 16]), RoundKey(rk, round)))
  {
    hide Xor, Overwritten, Replaced;
    ghost var before, s := buf[..], buf[off..off + 16];
    ghost var res := Keyed(s, RoundKey(rk, round));
    NothingOverwritten(before, off, res);
    var i := 0;
    while i < 4
      invariant 0 <= i <= 4 && Overwritten(buf[..], before, off, res, 4 * i)
    {
      var j := 0;
      while j < 4
        invariant 0 <= j <= 4 && Overwritten(buf[..], before, off, res, 4 * i + j)
      {
        ghost var o := buf[..];
        OverwrittenMore(o, before, off, res, 4 * i + j);
        StillThere(o, before, off, res, 4 * i + j);
        buf[off + (4 * i + j)] := XorB(buf[off + (4 * i + j)], rk[16 * round + 4 * i + j]);
        assert buf[..] == o[off + (4 * i + j) := res[4 * i + j]];
        j := j + 1;
      }
      i := i + 1;
    }
    OverwrittenAll(buf[..], before, off, res);
  }

  /** What has not been overwritten is as before. */
  lemma {:induction false} StillThere(o: seq<byte>, before: seq<byte>, at: nat, res: seq<byte>, n: nat)
    requires Overwritten(o, before, at, res, n)
    ensures forall k :: at + n <= k < at + |res| ==> o[k] == before[k]
  {}

  /** A block changed row after row: rows before i, and the first j bytes of row i. */
  predicate ByColumns(o: seq<byte>, before: seq<byte>, off: nat, s: seq<byte>, res: seq<byte>, i: nat, j: nat) {
    && |o| == |before| && off + 16 <= |o| && IsBlock(s) && IsBlock(res)
    && (forall k :: 0 <= k < 16 ==> o[off + k] == if k % 4 < i || (k % 4 == i && k / 4 < j) then res[k] else s[k])
    && (forall k :: 0 <= k < |o| && !(off <= k < off + 16) ==> o[k] == before[k])
  }

  method SubBytes(buf: array<byte>, off: nat)
    requires off + 16 <= buf.Length
    modifies buf
    ensures buf[..] == Replaced(old(buf[..]), off, Substituted(old(buf[off..off + 16])))
  {
    hide Sbox, Rsbox;
    ghost var before, s := buf[..], buf[off..off + 16];
    ghost var res := Substituted(s);
    var i := 0;
    while i < 4
      invariant 0 <= i <= 4 && ByColumns(buf[..], before, off, s, res, i, 0)
    {
      var j := 0;
      while j < 4
        invariant 0 <= j <= 4 && ByColumns(buf[..], before, off, s, res, i, j)
      {
        ghost var o := buf[..];
        buf[off + (4 * j + i)] := Sbox(buf[off + (4 * j + i)]);
        assert buf[..] == o[off + (4 * j + i) := res[4 * j + i]];
        j := j + 1;
      }
      i := i + 1;
    }
    assert buf[..] == Replaced(before, off, res);
  }

  method InvSubBytes(buf: array<byte>, off: nat)
    requires off + 16 <= buf.Length
    modifies buf
    ensures buf[..] == Replaced(old(buf[..]), off, Unsubstituted(old(buf[off..off + 16])))
  {
    hide Sbox, Rsbox;
    ghost var before, s := buf[..], buf[off..off + 16];
    ghost var res := Unsubstituted(s);
    var i := 0;
    while i < 4
      invariant 0 <= i <= 4 && ByColumns(buf[..], before, off, s, res, i, 0)
    {
      var j := 0;
      while j < 4
        invariant 0 <= j <= 4 && ByColumns(buf[..], before, off, s, res, i, j)
      {
        ghost var o := buf[..];
        buf[off + (4 * j + i)] := Rsbox(buf[off + (4 * j + i)]);
        assert buf[..] == o[off + (4 * j + i) := res[4 * j + i]];
        j := j + 1;
      }
      i := i + 1;
    }
    assert buf[..] == Replaced(before, off, res);
  }

  method ShiftRows(buf: array<byte>, off: nat)
    requires off + 16 <= buf.Length
    modifies buf
    ensures buf[..] == Replaced(old(buf[..]), off, Shifted(old(buf[off..off + 16])))
  {
    ghost var before, s := buf[..], buf[off..off + 16];
    ShiftRow1(buf, off);
    ShiftRow2(buf, off);
    ShiftRow3(buf, off);
    assert buf[off..off + 16] == Shifted(s);
    FromBlock(buf[..], before, off);
  }

  lemma {:induction false} FromBlock(o: seq<byte>, before: seq<byte>, off: nat)
    requires |o| == |before| && off + 16 <= |o| && forall k :: 0 <= k < |o| && !(off <= k < off + 16) ==> o[k] == before[k]
    ensures o == Replaced(before, off, o[off..off + 16])
  {}

  /** Row 1, one column to the left. */
  method ShiftRow1(buf: array<byte>, off: nat)
    requires off + 16 <= buf.Length
    modifies buf
    ensures forall k :: 0 <= k < buf.Length ==>
      buf[k] == old(if k == off + 1 then buf[off + 5] else if k == off + 5 then buf[off + 9]
                    else if k == off + 9 then buf[off + 13] else if k == off + 13 then buf[off + 1] else buf[k])
  {
    var temp := buf[off + 1];
    buf[off + 1] := buf[off + 5];
    buf[off + 5] := buf[off + 9];
    buf[off + 9] := buf[off + 13];
    buf[off + 13] := temp;
  }

  /** Row 2, two columns to the left. */
  method ShiftRow2(buf: array<byte>, off: nat)
    requires off + 16 <= buf.Length
    modifies buf
    ensures forall k :: 0 <= k < buf.Length ==>
      buf[k] == old(if k == off + 2 then buf[off + 10] else if k == off + 10 then buf[off + 2]
                    else if k == off + 6 then buf[off + 14] else if k == off + 14 then buf[off + 6] else buf[k])
  {
    var temp := buf[off + 2];
    buf[off + 2] := buf[off + 10];
    buf[off + 10] := temp;
    temp := buf[off + 6];
    buf[off + 6] := buf[off + 14];
    buf[off + 14] := temp;
  }

  /** Row 3, three columns to the left. */
  method ShiftRow3(buf: array<byte>, off: nat)
    requires off + 16 <= buf.Length
    modifies buf
    ensures forall k :: 0 <= k < buf.Length ==>
      buf[k] == old(if k == off + 3 then buf[off + 15] else if k == off + 15 then buf[off + 11]
                    else if k == off + 11 then buf[off + 7] else if k == off + 7 then buf[off + 3] else buf[k])
  {
    var temp := buf[off + 3];
    buf[off + 3] := buf[off + 15];
    buf[off + 15] := buf[off + 11];
    buf[off + 11] := buf[off + 7];
    buf[off + 7] := temp;
  }

  method InvShiftRows(buf: array<byte>, off: nat)
    requires off + 16 <= buf.Length
    modifies buf
    ensures buf[..] == Replaced(old(buf[..]), off, Unshifted(old(buf[off..off + 16])))
  {
    ghost var before, s := buf[..], buf[off..off + 16];
    UnshiftRow1(buf, off);
    ShiftRow2(buf, off);
    UnshiftRow3(buf, off);
    assert buf[off..off + 16] == Unshifted(s);
    FromBlock(buf[..], before, off);
  }

  /** Row 1, one column to the right. */
  method UnshiftRow1(buf: array<byte>, off: nat)
    requires off + 16 <= buf.Length
    modifies buf
    ensures forall k :: 0 <= k < buf.Length ==>
      buf[k] == old(if k == off + 13 then buf[off + 9] else if k == off + 9 then buf[off + 5]
                    else if k == off + 5 then buf[off + 1] else if k == off + 1 then buf[off + 13] else buf[k])
  {
    var temp := buf[off + 13];
    buf[off + 13] := buf[off + 9];
    buf[off + 9] := buf[off + 5];
    buf[off + 5] := buf[off + 1];
    buf[off + 1] := temp;
  }

  /** Row 3, three columns to the right. */
  method UnshiftRow3(buf: array<byte>, off: nat)
    requires off + 16 <= buf.Length
    modifies buf
    ensures forall k :: 0 <= k < buf.Length ==>
      buf[k] == old(if k == off + 3 then buf[off + 7] else if k == off + 7 then buf[off + 11]
                    else if k == off + 11 then buf[off + 15] else if k == off + 15 then buf[off + 3] else buf[k])
  {
    var temp := buf[off + 3];
    buf[off + 3] := buf[off + 7];
    buf[off + 7] := buf[off + 11];
    buf[off + 11] := buf[off + 15];
    buf[off + 15] := temp;
  }

  /** A column from byte q on, multiplied by a circulant matrix. */
  lemma {:induction false} ColumnBytes(s: seq<byte>, m: Coefficients, i: nat)
    requires IsBlock(s) && i < 4
    ensures var q := 4 * i; var a, b, c, d := s[q], s[q + 1], s[q + 2], s[q + 3];
            && Mixed(s, m)[q] == Row(a, b, c, d, m) && Mixed(s, m)[q + 1] == Row(b, c, d, a, m)
            && Mixed(s, m)[q + 2] == Row(c, d, a, b, m) && Mixed(s, m)[q + 3] == Row(d, a, b, c, m)
  {
    hide Row;
    var q := 4 * i;
    assert q % 4 == 0 && (q + 1) % 4 == 1 && (q + 2) % 4 == 2 && (q + 3) % 4 == 3;
  }

  function PutFour(o: seq<byte>, at: nat, w: byte, x: byte, y: byte, z: byte): (r: seq<byte>)
    requires at + 4 <= |o|
    ensures |r| == |o|
  {
    o[..at] + [w, x, y, z] + o[at + 4..]
  }

  /** Four bytes of the result, stored. */
  lemma {:induction false} FourMore(o: seq<byte>, before: seq<byte>, at: nat, res: seq<byte>, n: nat)
    requires Overwritten(o, before, at, res, n) && n + 4 <= |res|
    ensures Overwritten(PutFour(o, at + n, res[n], res[n + 1], res[n + 2], res[n + 3]), before, at, res, n + 4)
  {}

  method PutColumn(buf: array<byte>, q: nat, w: byte, x: byte, y: byte, z: byte,
                   ghost before: seq<byte>, ghost off: nat, ghost res: seq<byte>, ghost n: nat)
    requires Overwritten(buf[..], before, off, res, n) && n + 4 <= |res| && q == off + n && q + 4 <= buf.Length
    requires w == res[n] && x == res[n + 1] && y == res[n + 2] && z == res[n + 3]
    modifies buf
    ensures Overwritten(buf[..], before, off, res, n + 4)
  {
    hide Overwritten;
    ghost var o := buf[..];
    FourMore(o, before, off, res, n);
    buf[q] := w;
    buf[q + 1] := x;
    buf[q + 2] := y;
    buf[q + 3] := z;
    assert buf[..] == PutFour(o, q, w, x, y, z);
  }

  method MixColumns(buf: array<byte>, off: nat)
    requires off + 16 <= buf.Length
    modifies buf
    ensures buf[..] == Replaced(old(buf[..]), off, Mixed(old(buf[off..off + 16]), MIX))
  {
    hide Overwritten, Replaced, Row, Mixed, XorB, Xtime;
    ghost var before, s := buf[..], buf[off..off + 16];
    ghost var res := Mixed(s, MIX);
    NothingOverwritten(before, off, res);
    var i := 0;
    while i < 4
      invariant 0 <= i <= 4 && Overwritten(buf[..], before, off, res, 4 * i)
    {
      StillThere(buf[..], before, off, res, 4 * i);
      var q := off + 4 * i;
      var a, b, c, d := buf[q], buf[q + 1], buf[q + 2], buf[q + 3];
      MixedColumn(s, i, a, b, c, d);
      var tmp := XorB(XorB(XorB(a, b), c), d);
      PutColumn(buf, q, MixByte(a, b, tmp), MixByte(b, c, tmp), MixByte(c, d, tmp), MixByte(d, a, tmp), before, off, res, 4 * i);
      i := i + 1;
    }
    OverwrittenAll(buf[..], before, off, res);
  }

  lemma {:induction false} MixedColumn(s: seq<byte>, i: nat, a: byte, b: byte, c: byte, d: byte)
    requires IsBlock(s) && i < 4 && a == s[4 * i] && b == s[4 * i + 1] && c == s[4 * i + 2] && d == s[4 * i + 3]
    ensures var tmp := XorB(XorB(XorB(a, b), c), d); var res := Mixed(s, MIX);
            && MixByte(a, b, tmp) == res[4 * i] && MixByte(b, c, tmp) == res[4 * i + 1]
            && MixByte(c, d, tmp) == res[4 * i + 2] && MixByte(d, a, tmp) == res[4 * i + 3]
  {
    hide Row, Mixed, XorB, Xtime, MixByte, Bit;
    ColumnBytes(s, MIX, i);
    var tmp := XorB(XorB(XorB(a, b), c), d);
    forall k: nat
      ensures Bit(tmp, k) == (Bit(a, k) != (Bit(b, k) != (Bit(c, k) != Bit(d, k)))) && Bit(tmp, k) == (Bit(b, k) != (Bit(c, k) != (Bit(d, k) != Bit(a, k))))
      ensures Bit(tmp, k) == (Bit(c, k) != (Bit(d, k) != (Bit(a, k) != Bit(b, k)))) && Bit(tmp, k) == (Bit(d, k) != (Bit(a, k) != (Bit(b, k) != Bit(c, k))))
    {
      ColumnSum(a, b, c, d, k);
    }
    MixByteIs(a, b, c, d, tmp);
    MixByteIs(b, c, d, a, tmp);
    MixByteIs(c, d, a, b, tmp);
    MixByteIs(d, a, b, c, tmp);
  }

  method InvMixColumns(buf: array<byte>, off: nat)
    requires off + 16 <= buf.Length
    modifies buf
    ensures buf[..] == Replaced(old(buf[..]), off, Mixed(old(buf[off..off + 16]), UNMIX))
  {
    hide Overwritten, Replaced, Row, Mixed, XorB, Multiply;
    ghost var before, s := buf[..], buf[off..off + 16];
    ghost var res := Mixed(s, UNMIX);
    NothingOverwritten(before, off, res);
    var i := 0;
    while i < 4
      invariant 0 <= i <= 4 && Overwritten(buf[..], before, off, res, 4 * i)
    {
      StillThere(buf[..], before, off, res, 4 * i);
      var q := off + 4 * i;
      var a, b, c, d := buf[q], buf[q + 1], buf[q + 2], buf[q + 3];
      ColumnBytes(s, UNMIX, i);
      UnmixCode(a, b, c, d);
      PutColumn(buf, q, XorB(XorB(XorB(Multiply(a, 14), Multiply(b, 11)), Multiply(c, 13)), Multiply(d, 9)),
                XorB(XorB(XorB(Multiply(a, 9), Multiply(b, 14)), Multiply(c, 11)), Multiply(d, 13)),
                XorB(XorB(XorB(Multiply(a, 13), Multiply(b, 9)), Multiply(c, 14)), Multiply(d, 11)),
                XorB(XorB(XorB(Multiply(a, 11), Multiply(b, 13)), Multiply(c, 9)), Multiply(d, 14)), before, off, res, 4 * i);
      i := i + 1;
    }
    OverwrittenAll(buf[..], before, off, res);
  }

  /** The sums of InvMixColumns as the code writes them. */
  lemma {:induction false} UnmixCode(a: byte, b: byte, c: byte, d: byte)
    ensures XorB(XorB(XorB(Multiply(a, 14), Multiply(b, 11)), Multiply(c, 13)), Multiply(d, 9)) == Row(a, b, c, d, UNMIX)
    ensures XorB(XorB(XorB(Multiply(a, 9), Multiply(b, 14)), Multiply(c, 11)), Multiply(d, 13)) == Row(b, c, d, a, UNMIX)
    ensures XorB(XorB(XorB(Multiply(a, 13), Multiply(b, 9)), Multiply(c, 14)), Multiply(d, 11)) == Row(c, d, a, b, UNMIX)
    ensures XorB(XorB(XorB(Multiply(a, 11), Multiply(b, 13)), Multiply(c, 9)), Multiply(d, 14)) == Row(d, a, b, c, UNMIX)
  {
    hide Row, Multiply, XorB;
    RowRotated(a, b, c, d, UNMIX);
    RowRotated(a, b, c, d, Rotated(UNMIX));
    RowRotated(b, c, d, a, UNMIX);
    RowRotated(a, b, c, d, Rotated(Rotated(UNMIX)));
    RowRotated(b, c, d, a, Rotated(UNMIX));
    RowRotated(c, d, a, b, UNMIX);
    MultiplyRow(a, b, c, d, UNMIX);
    MultiplyRow(a, b, c, d, Rotated(UNMIX));
    MultiplyRow(a, b, c, d, Rotated(Rotated(UNMIX)));
    MultiplyRow(a, b, c, d, Rotated(Rotated(Rotated(UNMIX))));
  }

  lemma {:induction false} MultiplyRow(a: byte, b: byte, c: byte, d: byte, m: Coefficients)
    requires m.m0 < 32 && m.m1 < 32 && m.m2 < 32 && m.m3 < 32
    ensures XorB(XorB(XorB(Multiply(a, m.m0), Multiply(b, m.m1)), Multiply(c, m.m2)), Multiply(d, m.m3)) == Row(a, b, c, d, m)
  {
    hide Poly, Multiply, Xor;
    MultiplyIs(a, m.m0);
    MultiplyIs(b, m.m1);
    MultiplyIs(c, m.m2);
    MultiplyIs(d, m.m3);
    XorAssociates(XorB(Poly(a, m.m0), Poly(b, m.m1)), Poly(c, m.m2), Poly(d, m.m3));
  }

  // ----- blocks in place ----------------------------------------------------------------------

  /** The block at `off` is now `t`; the rest of the buffer is as before. */
  predicate Now(o: seq<byte>, before: seq<byte>, off: nat, t: seq<byte>) {
    IsBlock(t) && off + 16 <= |before| && o == Replaced(before, off, t)
  }

  /** A step that replaces the block again. */
  lemma {:induction false} NowAgain(o: seq<byte>, before: seq<byte>, off: nat, t: seq<byte>, o': seq<byte>, t': seq<byte>)
    requires Now(o, before, off, t) && IsBlock(t') && o' == Replaced(o, off, t')
    ensures Now(o', before, off, t')
  {
    hide Replaced;
    ReplacedAgain(before, off, t, t');
  }

  lemma {:induction false} NowBlock(o: seq<byte>, before: seq<byte>, off: nat, t: seq<byte>)
    requires Now(o, before, off, t)
    ensures |o| == |before| && off + 16 <= |o| && o[off..off + 16] == t
  {
    hide Replaced;
    ReplacedPiece(before, off, t);
  }

  /** SubBytes and ShiftRows. */
  method SubShift(buf: array<byte>, off: nat, ghost before: seq<byte>, ghost t: seq<byte>)
    requires Now(buf[..], before, off, t)
    modifies buf
    ensures Now(buf[..], before, off, Shifted(Substituted(t)))
  {
    hide Now, Shifted, Substituted, Replaced;
    NowBlock(buf[..], before, off, t);
    ghost var o := buf[..];
    SubBytes(buf, off);
    NowAgain(o, before, off, t, buf[..], Substituted(t));
    NowBlock(buf[..], before, off, Substituted(t));
    o := buf[..];
    ShiftRows(buf, off);
    NowAgain(o, before, off, Substituted(t), buf[..], Shifted(Substituted(t)));
  }

  method AddKey(round: nat, buf: array<byte>, off: nat, rk: seq<byte>, ghost before: seq<byte>, ghost t: seq<byte>)
    requires Now(buf[..], before, off, t) && |rk| == KEYS && round <= NR
    modifies buf
    ensures Now(buf[..], before, off, Keyed(t, RoundKey(rk, round)))
  {
    hide Now, Keyed, RoundKey, Replaced;
    NowBlock(buf[..], before, off, t);
    ghost var o := buf[..];
    AddRoundKey(round, buf, off, rk);
    NowAgain(o, before, off, t, buf[..], Keyed(t, RoundKey(rk, round)));
  }

  method Mix(buf: array<byte>, off: nat, ghost before: seq<byte>, ghost t: seq<byte>)
    requires Now(buf[..], before, off, t)
    modifies buf
    ensures Now(buf[..], before, off, Mixed(t, MIX))
  {
    hide Now, Mixed, Replaced;
    NowBlock(buf[..], before, off, t);
    ghost var o := buf[..];
    MixColumns(buf, off);
    NowAgain(o, before, off, t, buf[..], Mixed(t, MIX));
  }

  lemma {:induction false} NowItself(o: seq<byte>, off: nat)
    requires off + 16 <= |o|
    ensures Now(o, o, off, o[off..off + 16])
  {}

  /** Enciphers the block at `off`. */
  method Cipher(buf: array<byte>, off: nat, rk: seq<byte>)
    requires off + 16 <= buf.Length && |rk| == KEYS
    modifies buf
    ensures buf[..] == Replaced(old(buf[..]), off, Enciphered(old(buf[off..off + 16]), rk))
  {
    hide Now, Keyed, RoundKey, Shifted, Substituted, Mixed, Replaced;
    ghost var before, s := buf[..], buf[off..off + 16];
    NowItself(before, off);
    AddKey(0, buf, off, rk, before, s);
    var round := 1;
    while round < NR
      invariant 1 <= round <= NR && Now(buf[..], before, off, AfterRounds(s, rk, round - 1))
    {
      ghost var t := AfterRounds(s, rk, round - 1);
      SubShift(buf, off, before, t);
      Mix(buf, off, before, Shifted(Substituted(t)));
      AddKey(round, buf, off, rk, before, Mixed(Shifted(Substituted(t)), MIX));
      round := round + 1;
    }
    SubShift(buf, off, before, AfterRounds(s, rk, NR - 1));
    AddKey(NR, buf, off, rk, before, Shifted(Substituted(AfterRounds(s, rk, NR - 1))));
    NowIs(buf[..], before, off, Enciphered(s, rk));
  }

  lemma {:induction false} NowIs(o: seq<byte>, before: seq<byte>, off: nat, t: seq<byte>)
    requires Now(o, before, off, t)
    ensures o == Replaced(before, off, t)
  {}

  /** InvShiftRows, InvSubBytes and AddRoundKey. */
  method UnshiftUnsub(round: nat, buf: array<byte>, off: nat, rk: seq<byte>, ghost before: seq<byte>, ghost t: seq<byte>)
    requires Now(buf[..], before, off, t) && |rk| == KEYS && round <= NR
    modifies buf
    ensures Now(buf[..], before, off, Keyed(Unsubstituted(Unshifted(t)), RoundKey(rk, round)))
  {
    hide Now, Unshifted, Unsubstituted, Replaced, Keyed, RoundKey;
    NowBlock(buf[..], before, off, t);
    ghost var o := buf[..];
    InvShiftRows(buf, off);
    NowAgain(o, before, off, t, buf[..], Unshifted(t));
    NowBlock(buf[..], before, off, Unshifted(t));
    o := buf[..];
    InvSubBytes(buf, off);
    NowAgain(o, before, off, Unshifted(t), buf[..], Unsubstituted(Unshifted(t)));
    AddKey(round, buf, off, rk, before, Unsubstituted(Unshifted(t)));
  }

  method UnmixBlock(buf: array<byte>, off: nat, ghost before: seq<byte>, ghost t: seq<byte>)
    requires Now(buf[..], before, off, t)
    modifies buf
    ensures Now(buf[..], before, off, Mixed(t, UNMIX))
  {
    hide Now, Mixed, Replaced;
    NowBlock(buf[..], before, off, t);
    ghost var o := buf[..];
    InvMixColumns(buf, off);
    NowAgain(o, before, off, t, buf[..], Mixed(t, UNMIX));
  }

  lemma {:induction false} DecipheredIs(s: seq<byte>, rk: seq<byte>)
    requires IsBlock(s) && |rk| == KEYS
    ensures Deciphered(s, rk) == Unrolled(Keyed(s, RoundKey(rk, NR)), rk, NR - 1)
  {}

  lemma {:induction false} UnrolledStep(s: seq<byte>, rk: seq<byte>, n: nat)
    requires IsBlock(s) && |rk| == KEYS && n < NR
    ensures var t := Keyed(Unsubstituted(Unshifted(s)), RoundKey(rk, n));
            Unrolled(s, rk, n) == if n == 0 then t else Unrolled(Mixed(t, UNMIX), rk, n - 1)
  {}

  /** Deciphers the block at `off`. */
  method InvCipher(buf: array<byte>, off: nat, rk: seq<byte>)
    requires off + 16 <= buf.Length && |rk| == KEYS
    modifies buf
    ensures buf[..] == Replaced(old(buf[..]), off, Deciphered(old(buf[off..off + 16]), rk))
  {
    hide Now, Keyed, RoundKey, Unshifted, Unsubstituted, Mixed, Replaced, Unrolled, Deciphered;
    ghost var before, s := buf[..], buf[off..off + 16];
    NowItself(before, off);
    DecipheredIs(s, rk);
    AddKey(NR, buf, off, rk, before, s);
    ghost var t := Keyed(s, RoundKey(rk, NR));
    var round := NR - 1;
    while round > 0
      invariant 0 <= round < NR && IsBlock(t) && Now(buf[..], before, off, t) && Unrolled(t, rk, round) == Deciphered(s, rk)
    {
      UnrolledStep(t, rk, round);
      UnshiftUnsub(round, buf, off, rk, before, t);
      ghost var u := Keyed(Unsubstituted(Unshifted(t)), RoundKey(rk, round));
      UnmixBlock(buf, off, before, u);
      t := Mixed(u, UNMIX);
      round := round - 1;
    }
    UnrolledStep(t, rk, 0);
    UnshiftUnsub(0, buf, off, rk, before, t);
    NowIs(buf[..], before, off, Deciphered(s, rk));
  }

  // ----- key schedule -------------------------------------------------------------------------

  const RCON: seq<byte> := [0x8d, 0x01, 0x02, 0x04, 0x08, 0x10, 0x20, 0x40, 0x80, 0x1b, 0x36]

  function XorWord(x: seq<byte>, y: seq<byte>): (r: seq<byte>)
    requires |x| == 4 && |y| == 4
    ensures |r| == 4
  {
    [XorB(x[0], y[0]), XorB(x[1], y[1]), XorB(x[2], y[2]), XorB(x[3], y[3])]
  }

  /** SubWord(RotWord(w)) + Rcon (section 5.2) */
  function SubRot(w: seq<byte>, rcon: byte): (r: seq<byte>)
    requires |w| == 4
    ensures |r| == 4
  {
    [XorB(Sbox(w[1]), rcon), Sbox(w[2]), Sbox(w[3]), Sbox(w[0])]
  }

  /** Word i of the key schedule. */
  function KeyWord(key: seq<byte>, i: nat): (w: seq<byte>)
    requires IsBlock(key) && i < 44
    ensures |w| == 4
    decreases i
  {
    if i < 4 then key[4 * i..4 * i + 4]
    else
      var t := KeyWord(key, i - 1);
      XorWord(KeyWord(key, i - 4), if i % 4 == 0 then SubRot(t, RCON[i / 4]) else t)
  }

  /** The first words of the array are those of the key schedule. */
  predicate Scheduled(o: seq<byte>, key: seq<byte>, n: nat) {
    IsBlock(key) && |o| == KEYS && n <= 44 && forall i :: 0 <= i < n ==> o[4 * i..4 * i + 4] == KeyWord(key, i)
  }

  lemma {:induction false} ScheduledMore(o: seq<byte>, key: seq<byte>, n: nat, w: seq<byte>)
    requires Scheduled(o, key, n) && n < 44 && w == KeyWord(key, n)
    ensures Scheduled(PutFour(o, 4 * n, w[0], w[1], w[2], w[3]), key, n + 1)
  {
    hide KeyWord;
    var o' := PutFour(o, 4 * n, w[0], w[1], w[2], w[3]);
    forall i | 0 <= i < n + 1 ensures o'[4 * i..4 * i + 4] == KeyWord(key, i) {
      if i < n { assert o'[4 * i..4 * i + 4] == o[4 * i..4 * i + 4]; } else { assert o'[4 * i..4 * i + 4] == w; }
    }
  }

  method PutWord(rk: array<byte>, n: nat, w: seq<byte>, ghost key: seq<byte>)
    requires Scheduled(rk[..], key, n) && n < 44 && w == KeyWord(key, n)
    modifies rk
    ensures Scheduled(rk[..], key, n + 1)
  {
    hide Scheduled, KeyWord;
    ScheduledSize(rk[..], key, n);
    ghost var o := rk[..];
    ScheduledMore(o, key, n, w);
    rk[4 * n] := w[0];
    rk[4 * n + 1] := w[1];
    rk[4 * n + 2] := w[2];
    rk[4 * n + 3] := w[3];
    assert rk[..] == PutFour(o, 4 * n, w[0], w[1], w[2], w[3]);
  }

  lemma {:induction false} ScheduledSize(o: seq<byte>, key: seq<byte>, n: nat)
    requires Scheduled(o, key, n)
    ensures |o| == KEYS && IsBlock(key)
  {}

  lemma {:induction false} ScheduledWord(o: seq<byte>, key: seq<byte>, n: nat, i: nat)
    requires Scheduled(o, key, n) && i < n
    ensures 4 * i + 4 <= |o| && o[4 * i..4 * i + 4] == KeyWord(key, i)
  {}

  /** Expands a key into the round keys. */
  method KeyExpansion(key: seq<byte>) returns (rk: array<byte>)
    requires IsBlock(key)
    ensures fresh(rk) && Scheduled(rk[..], key, 44)
  {
    hide Scheduled, KeyWord, Sbox, XorB, RCON;
    rk := new byte[KEYS];
    NothingScheduled(rk[..], key);
    var i := 0;
    while i < 4
      invariant 0 <= i <= 4 && Scheduled(rk[..], key, i)
    {
      FirstWords(key, i);
      PutWord(rk, i, key[4 * i..4 * i + 4], key);
      i := i + 1;
    }
    while i < 44
      invariant 4 <= i <= 44 && Scheduled(rk[..], key, i)
    {
      ScheduledWord(rk[..], key, i, i - 1);
      ScheduledWord(rk[..], key, i, i - 4);
      RconSize();
      LaterWords(key, i);
      var t := rk[4 * (i - 1)..4 * (i - 1) + 4];
      if i % 4 == 0 { t := SubRot(t, RCON[i / 4]); }
      PutWord(rk, i, XorWord(rk[4 * (i - 4)..4 * (i - 4) + 4], t), key);
      i := i + 1;
    }
  }

  lemma {:induction false} RconSize() ensures |RCON| == 11 {}

  lemma {:induction false} NothingScheduled(o: seq<byte>, key: seq<byte>)
    requires |o| == KEYS && IsBlock(key)
    ensures Scheduled(o, key, 0)
  {}

  lemma {:induction false} FirstWords(key: seq<byte>, i: nat)
    requires IsBlock(key) && i < 4
    ensures KeyWord(key, i) == key[4 * i..4 * i + 4]
  {}

  lemma {:induction false} LaterWords(key: seq<byte>, i: nat)
    requires IsBlock(key) && 4 <= i < 44
    ensures |RCON| == 11 && KeyWord(key, i)
         == XorWord(KeyWord(key, i - 4), if i % 4 == 0 then SubRot(KeyWord(key, i - 1), RCON[i / 4]) else KeyWord(key, i - 1))
  {
    hide XorWord, SubRot;
  }
}
