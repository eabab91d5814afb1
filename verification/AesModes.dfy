/** The CBC and CTR modes (NIST SP 800-38A, sections 6.2 and 6.5) over buffers, with the IV kept between calls. */
module AesModes {
  import opened Bits
  import opened Bitwise
  import opened Buffers
  import opened AesField
  import opened Aes

  // ----- CBC ----------------------------------------------------------------------------------

  predicate Whole(data: seq<byte>) { |data| % 16 == 0 }

  /** Section 6.2 of SP 800-38A. */
  function CbcEncrypted(data: seq<byte>, iv: seq<byte>, rk: seq<byte>): (r: seq<byte>)
    requires Whole(data) && IsBlock(iv) && |rk| == KEYS
    ensures |r| == |data|
    decreases |data|
  {
    if data == [] then []
    else
      var c := Enciphered(Keyed(data[..16], iv), rk);
      c + CbcEncrypted(data[16..], c, rk)
  }

  function CbcDecrypted(data: seq<byte>, iv: seq<byte>, rk: seq<byte>): (r: seq<byte>)
    requires Whole(data) && IsBlock(iv) && |rk| == KEYS
    ensures |r| == |data|
    decreases |data|
  {
    if data == [] then [] else Keyed(Deciphered(data[..16], rk), iv) + CbcDecrypted(data[16..], data[..16], rk)
  }

  /** The IV for the next call: the last block of ciphertext. */
  function NextIv(cipher: seq<byte>, iv: seq<byte>): (r: seq<byte>)
    requires Whole(cipher) && IsBlock(iv)
    ensures IsBlock(r)
  {
    if cipher == [] then iv else cipher[|cipher| - 16..]
  }

  /** Every block of ciphertext is the block of data, combined with the ciphertext before it, enciphered. */
  lemma {:induction false} CbcBlock(data: seq<byte>, iv: seq<byte>, rk: seq<byte>, k: nat)
    requires Whole(data) && IsBlock(iv) && |rk| == KEYS && 16 * k + 16 <= |data|
    ensures var c := CbcEncrypted(data, iv, rk);
            c[16 * k..16 * k + 16] == Enciphered(Keyed(data[16 * k..16 * k + 16], if k == 0 then iv else c[16 * k - 16..16 * k]), rk)
    decreases k
  {
    hide Enciphered, Keyed, CbcEncrypted;
    var c0 := Enciphered(Keyed(data[..16], iv), rk);
    var c, rest := CbcEncrypted(data, iv, rk), CbcEncrypted(data[16..], c0, rk);
    EncryptFirst(data, iv, rk);
    if k == 0 {
      assert c[..16] == c0;
    } else {
      var n := 16 * k;
      CbcBlock(data[16..], c0, rk, k - 1);
      Behind(c0, rest, n);
      Behind(data[..16], data[16..], n);
      assert data[..16] + data[16..] == data;
      if k == 1 { assert c[..16] == c0; } else { Behind(c0, rest, n - 16); }
    }
  }

  lemma {:induction false} EncryptFirst(data: seq<byte>, iv: seq<byte>, rk: seq<byte>)
    requires Whole(data) && IsBlock(iv) && |rk| == KEYS && data != []
    ensures 16 <= |data| && Whole(data[16..])
    ensures var c := Enciphered(Keyed(data[..16], iv), rk); CbcEncrypted(data, iv, rk) == c + CbcEncrypted(data[16..], c, rk)
  {
    hide Enciphered, Keyed;
  }

  lemma {:induction false} Behind(c: seq<byte>, rest: seq<byte>, n: nat)
    requires IsBlock(c) && 16 <= n <= |rest|
    ensures (c + rest)[n..n + 16] == rest[n - 16..n]
  {}

  /** Decryption undoes encryption, for any number of blocks. */
  lemma {:induction false} CbcRoundTrip(data: seq<byte>, iv: seq<byte>, rk: seq<byte>)
    requires Whole(data) && IsBlock(iv) && |rk| == KEYS
    ensures CbcDecrypted(CbcEncrypted(data, iv, rk), iv, rk) == data
    decreases |data|
  {
    hide Enciphered, Deciphered, Keyed;
    if data != [] {
      var p := data[..16];
      var c := Enciphered(Keyed(p, iv), rk);
      var rest := CbcEncrypted(data[16..], c, rk);
      assert (c + rest)[..16] == c && (c + rest)[16..] == rest;
      DecipherEnciphered(Keyed(p, iv), rk);
      KeyedTwice(p, iv);
      CbcRoundTrip(data[16..], c, rk);
    }
  }

  /** Any split into calls, each going on with the IV the one before left, encrypts the same. */
  lemma {:induction false} CbcEncryptSplit(x: seq<byte>, y: seq<byte>, iv: seq<byte>, rk: seq<byte>)
    requires Whole(x) && Whole(y) && IsBlock(iv) && |rk| == KEYS
    ensures var c := CbcEncrypted(x, iv, rk);
            CbcEncrypted(x + y, iv, rk) == c + CbcEncrypted(y, NextIv(c, iv), rk)
    decreases |x|
  {
    hide Enciphered, Keyed;
    if x == [] {
      assert x + y == y;
    } else {
      var c0 := Enciphered(Keyed(x[..16], iv), rk);
      assert (x + y)[..16] == x[..16] && (x + y)[16..] == x[16..] + y;
      CbcEncryptSplit(x[16..], y, c0, rk);
      var c, rest := CbcEncrypted(x, iv, rk), CbcEncrypted(x[16..], c0, rk);
      NextIvAfter(c0, rest, iv);
    }
  }

  lemma {:induction false} NextIvAfter(c: seq<byte>, rest: seq<byte>, iv: seq<byte>)
    requires IsBlock(c) && Whole(rest) && IsBlock(iv)
    ensures NextIv(c + rest, iv) == NextIv(rest, c)
  {
    if rest == [] {
      assert c + rest == c && c[0..] == c;
    } else {
      LastBlock(c, rest);
    }
  }

  lemma {:induction false} LastBlock(c: seq<byte>, rest: seq<byte>)
    requires |rest| % 16 == 0 && rest != []
    ensures 16 <= |rest| && (c + rest)[|c + rest| - 16..] == rest[|rest| - 16..]
  {}

  lemma {:induction false} NoNextIv(iv: seq<byte>)
    requires IsBlock(iv)
    ensures NextIv([], iv) == iv
  {}

  lemma {:induction false} DecryptFirst(c: seq<byte>, rest: seq<byte>, iv: seq<byte>, rk: seq<byte>)
    requires IsBlock(c) && Whole(rest) && IsBlock(iv) && |rk| == KEYS
    ensures Whole(c + rest) && CbcDecrypted(c + rest, iv, rk) == Keyed(Deciphered(c, rk), iv) + CbcDecrypted(rest, c, rk)
  {
    hide Deciphered, Keyed;
    assert (c + rest)[..16] == c && (c + rest)[16..] == rest;
  }

  /** The same for decryption. */
  lemma {:induction false} CbcDecryptSplit(x: seq<byte>, y: seq<byte>, iv: seq<byte>, rk: seq<byte>)
    requires Whole(x) && Whole(y) && IsBlock(iv) && |rk| == KEYS
    ensures CbcDecrypted(x + y, iv, rk) == CbcDecrypted(x, iv, rk) + CbcDecrypted(y, NextIv(x, iv), rk)
    decreases |x|
  {
    hide Deciphered, Keyed, CbcDecrypted, NextIv;
    if x == [] {
      assert x + y == y;
      NoCbc(iv, rk);
      NoNextIv(iv);
    } else {
      var c, rest := x[..16], x[16..];
      assert c + rest == x && c + (rest + y) == x + y;
      DecryptFirst(c, rest, iv, rk);
      DecryptFirst(c, rest + y, iv, rk);
      CbcDecryptSplit(rest, y, c, rk);
      NextIvAfter(c, rest, iv);
    }
  }

  // ----- counters -----------------------------------------------------------------------------

  /** A big-endian counter plus one, wrapping around. */
  function Inc(iv: seq<byte>): (r: seq<byte>)
    ensures |r| == |iv|
    decreases |iv|
  {
    if iv == [] then []
    else
      var n := |iv| - 1;
      if iv[n] == 255 then Inc(iv[..n]) + [0] else iv[..n] + [iv[n] + 1]
  }

  function IncBy(iv: seq<byte>, n: nat): (r: seq<byte>)
    ensures |r| == |iv|
    decreases n
  {
    if n == 0 then iv else Inc(IncBy(iv, n - 1))
  }

  function Value(iv: seq<byte>): (v: nat)
    decreases |iv|
  {
    if iv == [] then 0 else 256 * Value(iv[..|iv| - 1]) + iv[|iv| - 1] as nat
  }

  function Pow256(n: nat): (r: nat)
    ensures 0 < r
  {
    if n == 0 then 1 else 256 * Pow256(n - 1)
  }

  lemma {:induction false} ValueBound(iv: seq<byte>)
    ensures Value(iv) < Pow256(|iv|)
    decreases |iv|
  {
    if iv != [] { ValueBound(iv[..|iv| - 1]); }
  }

  lemma {:induction false} ValueInc(iv: seq<byte>)
    ensures Value(Inc(iv)) == if Value(iv) + 1 == Pow256(|iv|) then 0 else Value(iv) + 1
    decreases |iv|
  {
    if iv != [] {
      var n := |iv| - 1;
      ValueInc(iv[..n]);
      ValueBound(iv[..n]);
      assert Inc(iv)[..n] == if iv[n] == 255 then Inc(iv[..n]) else iv[..n];
    }
  }

  const TWO_TO_128: nat := 0x1_0000_0000_0000_0000_0000_0000_0000_0000

  lemma {:induction false} CounterSize()
    ensures Pow256(16) == TWO_TO_128
  {
    assert Pow256(4) == 0x1_0000_0000;
    assert Pow256(8) == 0x1_0000_0000_0000_0000;
    assert Pow256(12) == 0x1_0000_0000_0000_0000_0000_0000;
  }

  /** The counter advances modulo 2^128. */
  lemma {:induction false} ValueIncBy(iv: seq<byte>, n: nat)
    requires IsBlock(iv)
    ensures Value(IncBy(iv, n)) == (Value(iv) + n) % TWO_TO_128
    decreases n
  {
    hide Value, Inc, Pow256;
    CounterSize();
    ValueBound(iv);
    if n > 0 {
      ValueIncBy(iv, n - 1);
      ValueInc(IncBy(iv, n - 1));
    }
  }

  // ----- CTR ----------------------------------------------------------------------------------

  /** Byte k of the key stream: block k / 16 enciphers the counter advanced that often. */
  function Stream(iv: seq<byte>, rk: seq<byte>, k: nat): (b: byte)
    requires IsBlock(iv) && |rk| == KEYS
  {
    Enciphered(IncBy(iv, k / 16), rk)[k % 16]
  }

  function CtrCrypted(data: seq<byte>, iv: seq<byte>, rk: seq<byte>): (r: seq<byte>)
    requires IsBlock(iv) && |rk| == KEYS
    ensures |r| == |data| && forall k :: 0 <= k < |data| ==> r[k] == XorB(data[k], Stream(iv, rk, k))
  {
    seq(|data|, k requires 0 <= k < |data| => XorB(data[k], Stream(iv, rk, k)))
  }

  /** Applying it twice from the same IV gives back the data. */
  lemma {:induction false} CtrTwice(data: seq<byte>, iv: seq<byte>, rk: seq<byte>)
    requires IsBlock(iv) && |rk| == KEYS
    ensures CtrCrypted(CtrCrypted(data, iv, rk), iv, rk) == data
  {
    hide Stream, Xor;
    var r := CtrCrypted(CtrCrypted(data, iv, rk), iv, rk);
    forall k | 0 <= k < |data| ensures r[k] == data[k] { XorTwice(data[k], Stream(iv, rk, k)); }
  }

  // ----- contexts -----------------------------------------------------------------------------

  /** The length rounded up to whole blocks: the blocks that loops in steps of 16 work on. */
  function WholeBlocks(length: nat): (n: nat)
    ensures n % 16 == 0 && length <= n < length + 16
  {
    (length + 15) / 16 * 16
  }

  lemma {:induction false} BlockEnds(i: nat, length: nat)
    requires i % 16 == 0
    ensures (i + 16) % 16 == 0 && (i < length ==> i + 16 <= WholeBlocks(length)) && (length <= i <= WholeBlocks(length) ==> i == WholeBlocks(length))
  {}

  class Context {
    var roundKey: seq<byte>
    var iv: seq<byte>

    predicate Valid()
      reads this
    {
      |roundKey| == KEYS && IsBlock(iv)
    }

    constructor (key: seq<byte>, iv0: seq<byte>)
      requires IsBlock(key) && IsBlock(iv0)
      ensures Valid() && iv == iv0 && Scheduled(roundKey, key, 44)
    {
      hide KeyWord;
      var rk := KeyExpansion(key);
      ScheduledSize(rk[..], key, 44);
      roundKey, iv := rk[..], iv0;
    }

    method SetIv(iv0: seq<byte>)
      requires Valid() && IsBlock(iv0)
      modifies this`iv
      ensures Valid() && iv == iv0
    {
      iv := iv0;
    }

    /** Encrypts the blocks that the length reaches into, in place; the last block of ciphertext becomes the IV. */
    method CbcEncryptBuffer(buf: array<byte>, length: nat)
      requires Valid() && WholeBlocks(length) <= buf.Length
      modifies this`iv, buf
      ensures Valid()
      ensures var n := WholeBlocks(length);
              var c := CbcEncrypted(old(buf[..n]), old(iv), roundKey);
              buf[..] == c + old(buf[n..]) && iv == NextIv(c, old(iv))
    {
      hide Encrypting, Enciphered, Keyed, Replaced, CbcEncrypted, NextIv, Inc, Xor;
      ghost var n := WholeBlocks(length);
      ghost var before, data := buf[..], buf[..n];
      var last := iv;
      var i := 0;
      EncryptingNone(before, data, iv, roundKey);
      while i < length
        invariant 0 <= i <= n && i % 16 == 0 && IsBlock(last) && iv == old(iv) && Valid()
        invariant Encrypting(buf[..], before, data, i, iv, roundKey, last)
      {
        ghost var o := buf[..];
        BlockEnds(i, length);
        EncryptBlock(buf, i, last, roundKey);
        EncryptingMore(o, before, data, i, iv, roundKey, last, buf[..]);
        last := buf[i..i + 16];
        i := i + 16;
      }
      BlockEnds(i, length);
      EncryptingAll(buf[..], before, data, iv, roundKey, last);
      iv := last;
    }

    /** Decrypts the blocks that the length reaches into, in place. */
    method CbcDecryptBuffer(buf: array<byte>, length: nat)
      requires Valid() && WholeBlocks(length) <= buf.Length
      modifies this`iv, buf
      ensures Valid()
      ensures var n := WholeBlocks(length);
              buf[..] == CbcDecrypted(old(buf[..n]), old(iv), roundKey) + old(buf[n..]) && iv == NextIv(old(buf[..n]), old(iv))
    {
      hide Decrypting, Deciphered, Keyed, Replaced, CbcDecrypted, NextIv;
      ghost var n := WholeBlocks(length);
      ghost var before, data := buf[..], buf[..n];
      var i := 0;
      DecryptingNone(before, data, iv, roundKey);
      while i < length
        invariant 0 <= i <= n && i % 16 == 0 && Valid() && roundKey == old(roundKey)
        invariant Decrypting(buf[..], before, data, i, old(iv), roundKey, iv)
      {
        ghost var o, last := buf[..], iv;
        BlockEnds(i, length);
        var storeNextIv := buf[i..i + 16];
        DecryptBlock(buf, i, iv, roundKey);
        DecryptingMore(o, before, data, i, old(iv), roundKey, last, buf[..]);
        iv := storeNextIv;
        i := i + 16;
      }
      BlockEnds(i, length);
      DecryptingAll(buf[..], before, data, old(iv), roundKey, iv);
    }

    /** Encrypts or decrypts a buffer in place and advances the IV by the number of blocks begun. */
    method CtrXcryptBuffer(buf: array<byte>, length: nat)
      requires Valid() && length <= buf.Length
      modifies this`iv, buf
      ensures Valid()
      ensures buf[..] == CtrCrypted(old(buf[..length]), old(iv), roundKey) + old(buf[length..])
      ensures iv == IncBy(old(iv), (length + 15) / 16)
    {
      hide Enciphered, Xor, Inc, Overwritten, CtrCrypted;
      ghost var before, data, iv0 := buf[..], buf[..length], iv;
      ghost var res := CtrCrypted(data, iv0, roundKey);
      NothingOverwritten(before, 0, res);
      var buffer: seq<byte> := iv;
      var i, bi := 0, 16;
      while i < length
        invariant 0 <= i <= length && bi == (if i % 16 == 0 then 16 else i % 16) && Valid() && IsBlock(buffer)
        invariant iv == IncBy(iv0, (i + 15) / 16) && (i % 16 != 0 ==> buffer == Enciphered(IncBy(iv0, i / 16), roundKey))
        invariant roundKey == old(roundKey) && Overwritten(buf[..], before, 0, res, i)
      {
        if bi == 16 {
          buffer := EncipherCopy(iv);
          Increment();
          bi := 0;
        }
        ghost var o := buf[..];
        OverwrittenMore(o, before, 0, res, i);
        StillThere(o, before, 0, res, i);
        CtrByte(data, iv0, roundKey, i);
        buf[i] := XorB(buf[i], buffer[bi]);
        assert buf[..] == o[i := res[i]];
        i, bi := i + 1, bi + 1;
      }
      OverwrittenAll(buf[..], before, 0, res);
    }

    method EncipherCopy(s: seq<byte>) returns (t: seq<byte>)
      requires Valid() && IsBlock(s)
      ensures t == Enciphered(s, roundKey)
    {
      hide Enciphered;
      var buffer := new byte[16](k requires 0 <= k < 16 => s[k]);
      assert buffer[..] == s && buffer[0..0 + 16] == s;
      Cipher(buffer, 0, roundKey);
      t := buffer[..];
    }

    /** Adds one to the IV, from the last byte up. */
    method Increment()
      requires Valid()
      modifies this`iv
      ensures Valid() && iv == Inc(old(iv))
    {
      ghost var iv0 := iv;
      assert iv0[..16] == iv0 && iv0[16..] == [];
      var bi := 15;
      while bi >= 0
        invariant -1 <= bi <= 15 && Valid()
        invariant iv[..bi + 1] == iv0[..bi + 1] && Inc(iv0) == Inc(iv0[..bi + 1]) + iv[bi + 1..]
        decreases bi
      {
        IncStep(iv0, bi, iv);
        if iv[bi] == 255 {
          iv := iv[bi := 0];
          bi := bi - 1;
          continue;
        }
        iv := iv[bi := iv[bi] + 1];
        break;
      }
      assert bi < 0 ==> iv[0..] == iv;
    }
  }

  lemma {:induction false} IncStep(iv0: seq<byte>, bi: nat, iv: seq<byte>)
    requires IsBlock(iv0) && IsBlock(iv) && bi < 16 && iv[..bi + 1] == iv0[..bi + 1]
    ensures iv[bi] == iv0[bi]
    ensures Inc(iv0[..bi + 1]) == if iv[bi] == 255 then Inc(iv0[..bi]) + [0] else iv0[..bi] + [iv[bi] + 1]
  {
    assert iv0[..bi + 1][..bi] == iv0[..bi] && iv[bi] == iv[..bi + 1][bi];
  }

  lemma {:induction false} CtrByte(data: seq<byte>, iv: seq<byte>, rk: seq<byte>, k: nat)
    requires IsBlock(iv) && |rk| == KEYS && k < |data|
    ensures CtrCrypted(data, iv, rk)[k] == XorB(data[k], Enciphered(IncBy(iv, k / 16), rk)[k % 16])
  {
    hide Enciphered, Xor;
  }

  /** Xors a block of the buffer with the IV. */
  method XorWithIv(buf: array<byte>, off: nat, iv: seq<byte>)
    requires off + 16 <= buf.Length && IsBlock(iv)
    modifies buf
    ensures buf[..] == Replaced(old(buf[..]), off, Keyed(old(buf[off..off + 16]), iv))
  {
    hide Xor, Overwritten, Replaced;
    ghost var before, s := buf[..], buf[off..off + 16];
    ghost var res := Keyed(s, iv);
    NothingOverwritten(before, off, res);
    var i := 0;
    while i < 16
      invariant 0 <= i <= 16 && Overwritten(buf[..], before, off, res, i)
    {
      ghost var o := buf[..];
      OverwrittenMore(o, before, off, res, i);
      StillThere(o, before, off, res, i);
      buf[off + i] := XorB(buf[off + i], iv[i]);
      assert buf[..] == o[off + i := res[i]];
      i := i + 1;
    }
    OverwrittenAll(buf[..], before, off, res);
  }

  /** Xors a block with the IV and enciphers it. */
  method EncryptBlock(buf: array<byte>, off: nat, iv: seq<byte>, rk: seq<byte>)
    requires off + 16 <= buf.Length && IsBlock(iv) && |rk| == KEYS
    modifies buf
    ensures buf[..] == Replaced(old(buf[..]), off, Enciphered(Keyed(old(buf[off..off + 16]), iv), rk))
  {
    hide Enciphered, Keyed, Replaced;
    ghost var o, t := buf[..], Keyed(buf[off..off + 16], iv);
    XorWithIv(buf, off, iv);
    ReplacedPiece(o, off, t);
    Cipher(buf, off, rk);
    ReplacedAgain(o, off, t, Enciphered(t, rk));
  }

  /** Deciphers a block and xors it with the IV. */
  method DecryptBlock(buf: array<byte>, off: nat, iv: seq<byte>, rk: seq<byte>)
    requires off + 16 <= buf.Length && IsBlock(iv) && |rk| == KEYS
    modifies buf
    ensures buf[..] == Replaced(old(buf[..]), off, Keyed(Deciphered(old(buf[off..off + 16]), rk), iv))
  {
    hide Deciphered, Keyed, Replaced;
    ghost var o, t := buf[..], Deciphered(buf[off..off + 16], rk);
    InvCipher(buf, off, rk);
    ReplacedPiece(o, off, t);
    XorWithIv(buf, off, iv);
    ReplacedAgain(o, off, t, Keyed(t, iv));
  }

  /** The first i bytes are encrypted, and `last` is the IV for the next block. */
  predicate Encrypting(o: seq<byte>, before: seq<byte>, data: seq<byte>, i: nat, iv: seq<byte>, rk: seq<byte>, last: seq<byte>) {
    && IsBlock(iv) && |rk| == KEYS && i % 16 == 0 && i <= |data| <= |before| && data == before[..|data|]
    && var c := CbcEncrypted(data[..i], iv, rk);
       o == c + before[i..] && last == NextIv(c, iv)
  }

  predicate Decrypting(o: seq<byte>, before: seq<byte>, data: seq<byte>, i: nat, iv: seq<byte>, rk: seq<byte>, last: seq<byte>) {
    && IsBlock(iv) && |rk| == KEYS && i % 16 == 0 && i <= |data| <= |before| && data == before[..|data|]
    && o == CbcDecrypted(data[..i], iv, rk) + before[i..] && last == NextIv(data[..i], iv)
  }

  lemma {:induction false} EncryptingNone(before: seq<byte>, data: seq<byte>, iv: seq<byte>, rk: seq<byte>)
    requires IsBlock(iv) && |rk| == KEYS && |data| <= |before| && data == before[..|data|]
    ensures Encrypting(before, before, data, 0, iv, rk, iv)
  {
    NoCbc(iv, rk);
    assert data[..0] == [] && before[0..] == before && [] + before == before;
  }

  lemma {:induction false} DecryptingNone(before: seq<byte>, data: seq<byte>, iv: seq<byte>, rk: seq<byte>)
    requires IsBlock(iv) && |rk| == KEYS && |data| <= |before| && data == before[..|data|]
    ensures Decrypting(before, before, data, 0, iv, rk, iv)
  {
    NoCbc(iv, rk);
    assert data[..0] == [] && before[0..] == before && [] + before == before;
  }

  lemma {:induction false} EncryptingMore(o: seq<byte>, before: seq<byte>, data: seq<byte>, i: nat, iv: seq<byte>, rk: seq<byte>, last: seq<byte>, o': seq<byte>)
    requires Encrypting(o, before, data, i, iv, rk, last) && i + 16 <= |data| && i + 16 <= |o| && IsBlock(last)
    requires o' == Replaced(o, i, Enciphered(Keyed(o[i..i + 16], last), rk))
    ensures |o'| == |o| && Encrypting(o', before, data, i + 16, iv, rk, o'[i..i + 16])
  {
    hide Enciphered, Keyed, CbcEncrypted, Replaced, NextIv;
    CbcMore(data, i, iv, rk, o, before, CbcEncrypted(data[..i], iv, rk), last);
    ReplacedPiece(o, i, Enciphered(Keyed(o[i..i + 16], last), rk));
  }

  lemma {:induction false} DecryptingMore(o: seq<byte>, before: seq<byte>, data: seq<byte>, i: nat, iv: seq<byte>, rk: seq<byte>, last: seq<byte>, o': seq<byte>)
    requires Decrypting(o, before, data, i, iv, rk, last) && i + 16 <= |data| && i + 16 <= |o| && IsBlock(last)
    requires o' == Replaced(o, i, Keyed(Deciphered(o[i..i + 16], rk), last))
    ensures |o'| == |o| && Decrypting(o', before, data, i + 16, iv, rk, o[i..i + 16])
  {
    hide Deciphered, Keyed, CbcDecrypted, Replaced, NextIv;
    UncbcMore(data, i, iv, rk, o, before, CbcDecrypted(data[..i], iv, rk), last);
  }

  lemma {:induction false} EncryptingAll(o: seq<byte>, before: seq<byte>, data: seq<byte>, iv: seq<byte>, rk: seq<byte>, last: seq<byte>)
    requires Encrypting(o, before, data, |data|, iv, rk, last)
    ensures o == CbcEncrypted(data, iv, rk) + before[|data|..] && last == NextIv(CbcEncrypted(data, iv, rk), iv)
  {
    hide CbcEncrypted, NextIv;
    assert data[..|data|] == data;
  }

  lemma {:induction false} DecryptingAll(o: seq<byte>, before: seq<byte>, data: seq<byte>, iv: seq<byte>, rk: seq<byte>, last: seq<byte>)
    requires Decrypting(o, before, data, |data|, iv, rk, last)
    ensures o == CbcDecrypted(data, iv, rk) + before[|data|..] && last == NextIv(data, iv)
  {
    hide CbcDecrypted, NextIv;
    assert data[..|data|] == data;
  }

  lemma {:induction false} NoCbc(iv: seq<byte>, rk: seq<byte>)
    requires IsBlock(iv) && |rk| == KEYS
    ensures CbcEncrypted([], iv, rk) == [] && CbcDecrypted([], iv, rk) == []
  {}

  /** One more block encrypted. */
  lemma {:induction false} CbcMore(data: seq<byte>, i: nat, iv: seq<byte>, rk: seq<byte>, o: seq<byte>, before: seq<byte>, c: seq<byte>, last: seq<byte>)
    requires IsBlock(iv) && |rk| == KEYS && i % 16 == 0 && i + 16 <= |data| <= |before| && data == before[..|data|]
    requires c == CbcEncrypted(data[..i], iv, rk) && o == c + before[i..] && last == NextIv(c, iv)
    ensures o[i..i + 16] == data[i..i + 16] && |c| == i
    ensures var block := Enciphered(Keyed(o[i..i + 16], last), rk);
            && CbcEncrypted(data[..i + 16], iv, rk) == c + block && NextIv(c + block, iv) == block
            && Replaced(o, i, block) == c + block + before[i + 16..]
  {
    hide Enciphered, Keyed, CbcEncrypted;
    var x := data[i..i + 16];
    Beyond(c, before, i);
    assert o[i..i + 16] == before[i..i + 16] == x;
    assert data[..i] + x == data[..i + 16];
    CbcEncryptSplit(data[..i], x, iv, rk);
    OneBlock(x, last, rk);
    assert o[..i] == c;
  }

  lemma {:induction false} Beyond(c: seq<byte>, before: seq<byte>, i: nat)
    requires |c| == i && i + 16 <= |before|
    ensures (c + before[i..])[i + 16..] == before[i + 16..] && (c + before[i..])[i..i + 16] == before[i..i + 16]
  {}

  lemma {:induction false} OneBlock(x: seq<byte>, iv: seq<byte>, rk: seq<byte>)
    requires IsBlock(x) && IsBlock(iv) && |rk| == KEYS
    ensures CbcEncrypted(x, iv, rk) == Enciphered(Keyed(x, iv), rk)
  {
    hide Enciphered, Keyed;
    var block := Enciphered(Keyed(x, iv), rk);
    assert x[..16] == x && x[16..] == [];
    NoCbc(block, rk);
  }

  lemma {:induction false} UncbcMore(data: seq<byte>, i: nat, iv: seq<byte>, rk: seq<byte>, o: seq<byte>, before: seq<byte>, p: seq<byte>, last: seq<byte>)
    requires IsBlock(iv) && |rk| == KEYS && i % 16 == 0 && i + 16 <= |data| <= |before| && data == before[..|data|]
    requires p == CbcDecrypted(data[..i], iv, rk) && o == p + before[i..] && last == NextIv(data[..i], iv)
    ensures o[i..i + 16] == data[i..i + 16] && |p| == i
    ensures var block := Keyed(Deciphered(o[i..i + 16], rk), last);
            && CbcDecrypted(data[..i + 16], iv, rk) == p + block && NextIv(data[..i + 16], iv) == o[i..i + 16]
            && Replaced(o, i, block) == p + block + before[i + 16..]
  {
    hide Deciphered, Keyed;
    var x := data[i..i + 16];
    assert o[i..i + 16] == before[i..i + 16] == x;
    assert data[..i] + x == data[..i + 16];
    CbcDecryptSplit(data[..i], x, iv, rk);
    var block := Keyed(Deciphered(x, rk), last);
    assert x[..16] == x && x[16..] == [];
    assert CbcDecrypted(x, last, rk) == block + CbcDecrypted([], x, rk);
    NoCbc(x, rk);
    assert o[i + 16..] == before[i + 16..];
  }
}
