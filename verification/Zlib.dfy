/** Adler-32 with its modulo deferred, and the zlib container around a deflate stream. */
module Zlib {
  import opened Bits
  import opened Huffman
  import opened Inflate
  import opened Refill
  import opened DeflateFormat
  import opened Deflate

  const BASE: nat := 65521

  /** First sum of section 8.2 of RFC 1950, reduced after every byte. */
  function SumA(a: nat, data: seq<byte>): (r: nat)
    ensures data != [] ==> r < BASE
    decreases |data|
  {
    if data == [] then a else (SumA(a, data[..|data| - 1]) + data[|data| - 1]) % BASE
  }

  /** Second sum of section 8.2 of RFC 1950, reduced after every byte. */
  function SumB(a: nat, b: nat, data: seq<byte>): (r: nat)
    ensures data != [] ==> r < BASE
    decreases |data|
  {
    if data == [] then b else (SumB(a, b, data[..|data| - 1]) + SumA(a, data)) % BASE
  }

  /** The checksum of RFC 1950 continued from the value `adler`. */
  function Adler(adler: nat, data: seq<byte>): (r: nat)
    requires adler < 0x1_0000_0000
    ensures r < 0x1_0000_0000
  {
    SumB(adler % 65536, adler / 65536, data) * 65536 + SumA(adler % 65536, data)
  }

  /** Largest value of the second sum after i additions without a reduction. */
  function Peak(i: nat): (p: nat)
  {
    65535 + i * 65535 + 255 * ((i * i + i) / 2)
  }

  lemma {:induction false} PeakStep(i: nat)
    ensures Peak(i + 1) == Peak(i) + 65535 + 255 * (i + 1)
  {
    assert (i + 1) * (i + 1) + (i + 1) == i * i + i + 2 * (i + 1);
  }

  /** 5552 is small enough: the second sum stays within 32 bits. */
  lemma {:induction false} PeakFits(i: nat)
    requires i <= 5552
    ensures Peak(i) < 0x1_0000_0000
    decreases 5552 - i
  {
    if i < 5552 {
      PeakStep(i);
      PeakFits(i + 1);
    }
  }

  function Wrap(x: nat): (r: nat) { x % 0x1_0000_0000 }

  lemma {:induction false} WrapNothing(x: nat)
    ensures x < 0x1_0000_0000 ==> Wrap(x) == x
  {}

  /** The sums of the first p bytes, up to multiples of the base. */
  predicate Sums(a: nat, b: nat, data: seq<byte>, p: nat, s1: nat, s2: nat) {
    p <= |data| && s1 % BASE == SumA(a, data[..p]) % BASE && s2 % BASE == SumB(a, b, data[..p]) % BASE
  }

  lemma {:induction false} SumsStep(a: nat, b: nat, data: seq<byte>, k: nat, s1: nat, s2: nat)
    requires k < |data| && Sums(a, b, data, k, s1, s2)
    ensures Sums(a, b, data, k + 1, s1 + data[k], s2 + (s1 + data[k]))
  {
    assert data[..k + 1][..k] == data[..k];
    SumMod(s1, SumA(a, data[..k]), data[k]);
    SumMod(s2, SumB(a, b, data[..k]), s1 + data[k]);
    SumMod(s1 + data[k], SumA(a, data[..k + 1]), SumB(a, b, data[..k]));
  }

  /** Reducing ends the deferral. */
  lemma {:induction false} SumsReduced(a: nat, b: nat, data: seq<byte>, p: nat, s1: nat, s2: nat)
    requires 0 < p && Sums(a, b, data, p, s1, s2)
    ensures s1 % BASE == SumA(a, data[..p]) && s2 % BASE == SumB(a, b, data[..p])
  {}

  lemma {:induction false} SumMod(x: nat, y: nat, z: nat)
    requires x % BASE == y % BASE
    ensures (x + z) % BASE == (y + z) % BASE
  {}

  /** Adds up to 5552 bytes with 32-bit wrap-around; nothing wraps. */
  method AddBytes(data: seq<byte>, p: nat, amount: nat, s1: nat, s2: nat, ghost a: nat, ghost b: nat)
    returns (s1': nat, s2': nat)
    requires p + amount <= |data| && amount <= 5552 && s1 < 65536 && s2 < 65536
    requires Sums(a, b, data, p, s1, s2)
    ensures Sums(a, b, data, p + amount, s1', s2')
  {
    hide Peak, Wrap, Sums;
    s1', s2' := s1, s2;
    NoPeak();
    var i: nat := 0;
    while i != amount
      invariant i <= amount && s1' <= 65535 + 255 * i && s2' <= Peak(i)
      invariant Sums(a, b, data, p + i, s1', s2')
    {
      PeakStep(i);
      PeakFits(i + 1);
      SumsStep(a, b, data, p + i, s1', s2');
      WrapNothing(s1' + data[p + i]);
      s1' := Wrap(s1' + data[p + i]);
      WrapNothing(s2' + s1');
      s2' := Wrap(s2' + s1');
      i := i + 1;
    }
  }

  /** One reduction per 5552 bytes gives the checksum that reduces after every byte. */
  method UpdateAdler32(adler: nat, data: seq<byte>) returns (r: nat)
    requires adler < 0x1_0000_0000
    ensures r == Adler(adler, data)
  {
    hide SumA, SumB;
    var s1: nat, s2: nat := adler % 65536, adler / 65536;
    ghost var a: nat, b: nat := s1, s2;
    var len: nat, p: nat := |data|, 0;
    NoSums(a, b, data);
    while len != 0
      invariant p + len == |data| && s1 < 65536 && s2 < 65536
      invariant s1 == SumA(a, data[..p]) && s2 == SumB(a, b, data[..p])
    {
      var amount: nat := if len > 5552 then 5552 else len;
      len := len - amount;
      s1, s2 := AddBytes(data, p, amount, s1, s2, a, b);
      p := p + amount;
      SumsReduced(a, b, data, p, s1, s2);
      s1 := s1 % 65521;
      s2 := s2 % 65521;
    }
    assert data[..p] == data;
    r := s2 * 65536 + s1;
  }

  lemma {:induction false} NoSums(a: nat, b: nat, data: seq<byte>)
    ensures SumA(a, data[..0]) == a && SumB(a, b, data[..0]) == b
  {}

  lemma {:induction false} NoPeak()
    ensures Peak(0) == 65535
  {}

  // ----- container ----------------------------------------------------------------------------

  function BigEndian32(v: nat): (b: seq<byte>)
    requires v < 0x1_0000_0000
    ensures |b| == 4
  {
    [v / 256 / 256 / 256, v / 256 / 256 % 256, v / 256 % 256, v % 256]
  }

  function Read32(b: seq<byte>, p: nat): (v: nat)
    requires p + 4 <= |b|
  {
    256 * (256 * (256 * b[p] as nat + b[p + 1] as nat) + b[p + 2] as nat) + b[p + 3] as nat
  }

  lemma {:induction false} ReadBigEndian32(v: nat, b: seq<byte>, p: nat)
    requires v < 0x1_0000_0000 && p + 4 <= |b|
    ensures Read32(b, p) == v <==> b[p..p + 4] == BigEndian32(v)
  {
    var q, q' := v / 256, 256 * (256 * b[p] as nat + b[p + 1] as nat) + b[p + 2] as nat;
    Digits(v, q', b[p + 3]);
    Digits(q, 256 * b[p] as nat + b[p + 1] as nat, b[p + 2]);
    Digits(q / 256, b[p], b[p + 1]);
    assert b[p..p + 4] == [b[p], b[p + 1], b[p + 2], b[p + 3]];
  }

  lemma {:induction false} Digits(v: nat, high: nat, low: byte)
    ensures v == 256 * high + low as nat <==> v / 256 == high && v % 256 == low
  {}

  /** Why the two header bytes are refused; 0 when they are not. */
  function HeaderError(cmf: byte, flg: byte): (e: nat)
  {
    if (256 * cmf as nat + flg as nat) % 31 != 0 then 24
    else if cmf % 16 != 8 || cmf / 16 > 7 then 25
    else if flg / 32 % 2 != 0 then 26
    else 0
  }

  /** The one case in which the checksum would be read from before the input: three bytes, a valid header,
      and a last byte that inflates on its own. */
  predicate ReadsBefore(data: seq<byte>, rfc: bool, ignoreAdler: bool, ignoreNlen: bool) {
    |data| == 3 && !ignoreAdler && HeaderError(data[0], data[1]) == 0 && Inflated(data[2..], rfc, ignoreNlen).Ok?
  }

  /** What a zlib stream holds; the deflate reader also sees the checksum that follows its stream. */
  function Unpacked(data: seq<byte>, rfc: bool, ignoreAdler: bool, ignoreNlen: bool): (r: Result<seq<byte>>)
    requires !ReadsBefore(data, rfc, ignoreAdler, ignoreNlen)
  {
    if |data| < 2 then Err(53)
    else if HeaderError(data[0], data[1]) != 0 then Err(HeaderError(data[0], data[1]))
    else
      assert |data| == 2 ==> data[2..] == [];
      var r := Inflated(data[2..], rfc, ignoreNlen);
      if r.Err? || ignoreAdler then r
      else
        NothingInflates(rfc, ignoreNlen);
        if Adler(1, r.value) != Read32(data, |data| - 4) then Err(58) else r
  }

  /** There is such an input: the end code of a fixed block is accepted although only five of its seven
      bits are there. */
  lemma {:induction false} ThreeBytes(rfc: bool, ignoreNlen: bool)
    ensures Inflated([3], rfc, ignoreNlen) == Ok([]) && ReadsBefore([120, 1, 3], rfc, false, ignoreNlen)
  {
    hide Blocks, Num, Symbols;
    var data: seq<byte> := [3];
    OneByte(data);
    FixedEnd(data, 3, [], rfc);
    FixedAlone(data, rfc, ignoreNlen);
    var whole: seq<byte> := [120, 1, 3];
    assert whole[2..] == data;
  }

  lemma {:induction false} FixedAlone(data: seq<byte>, rfc: bool, ignoreNlen: bool)
    requires |data| == 1 && Num(data, 0, 1) == 1 && Num(data, 1, 2) == 1
    requires Symbols(data, 3, FixedLL(), FixedD(), [], rfc) == Ok(State(10, []))
    ensures Blocks(data, 0, [], rfc, ignoreNlen) == Ok([])
  {
    hide Num, Symbols, FixedLL, FixedD;
  }

  /** The bits of the byte 3, and zeros behind it. */
  lemma {:induction false} OneByte(data: seq<byte>)
    requires data == [3]
    ensures Num(data, 0, 1) == 1 && Num(data, 1, 2) == 1 && Num(data, 3, MAX_BITS) == 0
  {
    var s := BitsOf(data);
    BitsOfOne(3);
    assert s == LowBits(3, 8) == [true, true, false, false, false, false, false, false];
    assert Take(s, 0, 1) == [true] && Take(s, 1, 2) == [true, false];
    assert Val([true]) == 1 && Val([true, false]) == 1;
    var w := Take(s, 3, MAX_BITS);
    assert forall i :: 0 <= i < MAX_BITS ==> !w[i];
    NoVal(w);
  }

  lemma {:induction false} NoVal(w: seq<bool>)
    requires forall i :: 0 <= i < |w| ==> !w[i]
    ensures Val(w) == 0
    decreases |w|
  {
    if w != [] { NoVal(w[1..]); }
  }

  /** Zeros are the end code of a fixed block. */
  lemma {:induction false} FixedEnd(data: seq<byte>, pos: nat, out: seq<byte>, rfc: bool)
    requires Num(data, pos, MAX_BITS) == 0
    ensures Symbols(data, pos, FixedLL(), FixedD(), out, rfc) == Ok(State(pos + 7, out))
  {
    hide DistanceStep, Num, Kraft;
    FixedComplete();
    ZeroSymbol(FixedLL(), 256, 7, data, pos);
  }

  lemma {:induction false} NothingInflates(rfc: bool, ignoreNlen: bool)
    ensures Inflated([], rfc, ignoreNlen) == Err(52)
  {}

  method ZlibDecompress(data: seq<byte>, ignoreAdler: bool, ignoreNlen: bool) returns (error: nat, out: seq<byte>)
    requires !ReadsBefore(data, false, ignoreAdler, ignoreNlen)
    ensures match Unpacked(data, false, ignoreAdler, ignoreNlen)
            case Ok(o) => error == 0 && out == o
            case Err(e) => error == e && e > 0
  {
    hide Adler, Inflated, Read32;
    out := [];
    if |data| < 2 { return 53, out; }
    if (256 * data[0] as nat + data[1] as nat) % 31 != 0 { return 24, out; }
    var cm, cinfo, fdict := data[0] % 16, data[0] / 16 % 16, data[1] / 32 % 2;
    if cm != 8 || cinfo > 7 { return 25, out; }
    if fdict != 0 { return 26, out; }
    assert |data| == 2 ==> data[2..] == [];
    error, out := InflateStream(data[2..], ignoreNlen);
    if error != 0 { return; }
    if !ignoreAdler {
      NothingInflates(false, ignoreNlen);
      var stored := Read32(data, |data| - 4);
      var checksum := UpdateAdler32(1, out);
      if checksum != stored { return 58, out; }
    }
  }

  /** A packed stream unpacks to the data, whether or not its checksum is looked at. */
  ghost predicate Unpacks(out: seq<byte>, data: seq<byte>, settings: Settings) {
    |out| >= 6 && forall rfc: bool, ignoreAdler: bool, ignoreNlen: bool ::
      8 * |out| + 48 < SIZE_LIMIT && (rfc || Safe(settings, |data|) || Intact(out[2..], ignoreNlen)) ==>
      Unpacked(out, rfc, ignoreAdler, ignoreNlen) == Ok(data)
  }

  /** The zlib form of deflated data: the two header bytes for a window of up to 32768 bytes, and the checksum at the end. */
  ghost predicate Wrapped(out: seq<byte>, data: seq<byte>, settings: Settings, blocks: seq<Block>) {
    && |out| >= 6 && out[0] == 0x78 && out[1] == 0x01
    && Emitted(out[2..|out| - 4], data, settings, blocks) && Read32(out, |out| - 4) == Adler(1, data)
  }

  method ZlibCompress(data: seq<byte>, settings: Settings) returns (error: nat, out: seq<byte>, ghost blocks: seq<Block>)
    requires settings.btype == 1 ==> data != []
    ensures error == DeflateError(settings)
    ensures error == 0 && (settings.btype == 0 ==> data != []) ==> Unpacks(out, data, settings)
    ensures error == 0 ==> Wrapped(out, data, settings, blocks)
  {
    hide RoundTrips, Unpacks, Adler, Emitted, Num;
    out := [];
    var deflated;
    error, deflated, blocks := DeflateStream(data, settings);
    if error != 0 { return; }
    var adler := UpdateAdler32(1, data);
    var cmfflg: nat := 256 * 120;
    cmfflg := cmfflg + (31 - cmfflg % 31);
    out := [cmfflg / 256, cmfflg % 256];
    ghost var header := out;
    var i := 0;
    while i != |deflated|
      invariant 0 <= i <= |deflated| && out == header + deflated[..i]
    {
      out := out + [deflated[i]];
      i := i + 1;
    }
    out := out + BigEndian32(adler);
    WrapIs(out, deflated, data, settings, blocks);
    if settings.btype == 0 ==> data != [] { Packed(out, deflated, data, settings); }
  }

  lemma {:induction false} WrapIs(out: seq<byte>, deflated: seq<byte>, data: seq<byte>, settings: Settings, blocks: seq<Block>)
    requires Emitted(deflated, data, settings, blocks) && out == [120, 1] + deflated + BigEndian32(Adler(1, data))
    ensures Wrapped(out, data, settings, blocks)
  {
    hide Adler, BigEndian32, Read32, Emitted;
    assert out[2..|out| - 4] == deflated;
    ReadBigEndian32(Adler(1, data), out, |out| - 4);
  }

  lemma {:induction false} Packed(out: seq<byte>, deflated: seq<byte>, data: seq<byte>, settings: Settings)
    requires RoundTrips(deflated, data, settings) && out == [120, 1] + deflated + BigEndian32(Adler(1, data))
    ensures Unpacks(out, data, settings)
  {
    hide Adler, Inflated, BigEndian32, Read32, Intact;
    var tail := BigEndian32(Adler(1, data));
    assert out[2..] == deflated + tail && out[|out| - 4..|out|] == tail;
    ReadBigEndian32(Adler(1, data), out, |out| - 4);
  }

  /** Changing the stored checksum of a stream that unpacks makes it refused. */
  lemma {:induction false} WrongChecksum(data: seq<byte>, rfc: bool, ignoreNlen: bool, adler: nat)
    requires |data| >= 4 && Unpacked(data, rfc, true, ignoreNlen).Ok? && adler < 0x1_0000_0000
    requires data[|data| - 4..] == BigEndian32(adler)
    ensures Unpacked(data, rfc, false, ignoreNlen)
         == if adler == Adler(1, Unpacked(data, rfc, true, ignoreNlen).value) then Unpacked(data, rfc, true, ignoreNlen) else Err(58)
  {
    hide Adler, Inflated, BigEndian32, Read32;
    ReadBigEndian32(adler, data, |data| - 4);
  }
}
