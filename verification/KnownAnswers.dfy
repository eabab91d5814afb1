/** Values that others have published, or that follow from a standard by hand. */
module KnownAnswers {
  import opened Bits
  import Crc32
  import Checked
  import DateTime
  import Filter
  import FixedCodes
  import Inflate
  import Zlib

  // ----- CRC-32 -------------------------------------------------------------------------------

  lemma {:induction false} UpdateIs(accu: Crc32.u32, b: byte, w: bv32, r: Crc32.u32)
    requires Crc32.UpdateWord(Crc32.Word(accu), Crc32.Octet(b)) == w && Crc32.Number(w) == r
    ensures Crc32.Update(accu, b) == r
  {
    hide Crc32.UpdateWord, Crc32.Word, Crc32.Octet, Crc32.Number;
  }

  lemma {:induction false} CrcFirst(accu: Crc32.u32, b: byte, rest: seq<byte>)
    ensures Crc32.Crc(accu, [b] + rest) == Crc32.Crc(Crc32.Update(accu, b), rest)
  {
    hide Crc32.Update;
    assert ([b] + rest)[1..] == rest;
  }

  lemma {:induction false} UpdatesFirst()
    ensures Crc32.Update(0, 49) == 0xd0f37027
    ensures Crc32.Update(0xd0f37027, 50) == 0x3f5b3a17
    ensures Crc32.Update(0x3f5b3a17, 51) == 0x6e368c64
  {
    UpdateIs(0, 49, 0xd0f37027, 0xd0f37027);
    UpdateIs(0xd0f37027, 50, 0x3f5b3a17, 0x3f5b3a17);
    UpdateIs(0x3f5b3a17, 51, 0x6e368c64, 0x6e368c64);
  }

  lemma {:induction false} UpdatesNext()
    ensures Crc32.Update(0x6e368c64, 52) == 0x619119d1
    ensures Crc32.Update(0x619119d1, 53) == 0xfa8a0cdb
    ensures Crc32.Update(0xfa8a0cdb, 54) == 0xe28ad0fd
  {
    UpdateIs(0x6e368c64, 52, 0x619119d1, 0x619119d1);
    UpdateIs(0x619119d1, 53, 0xfa8a0cdb, 0xfa8a0cdb);
    UpdateIs(0xfa8a0cdb, 54, 0xe28ad0fd, 0xe28ad0fd);
  }

  lemma {:induction false} UpdatesLast()
    ensures Crc32.Update(0xe28ad0fd, 55) == 0x8c8edd82
    ensures Crc32.Update(0x8c8edd82, 56) == 0x20e779a2
    ensures Crc32.Update(0x20e779a2, 57) == 0x89a1897f
  {
    UpdateIs(0xe28ad0fd, 55, 0x8c8edd82, 0x8c8edd82);
    UpdateIs(0x8c8edd82, 56, 0x20e779a2, 0x20e779a2);
    UpdateIs(0x20e779a2, 57, 0x89a1897f, 0x89a1897f);
  }

  const DIGITS: seq<byte> := [49, 50, 51, 52, 53, 54, 55, 56, 57]

  /** The check value of this CRC, that of the digits 1 to 9, and the header of a file that holds them: size and CRC, lowest
      byte first. */
  lemma {:induction false} DigitsCrc()
    ensures Crc32.Crc(0, DIGITS) == 0x89a1897f
    ensures Checked.Header(|DIGITS|, 0x89a1897f) == [9, 0, 0, 0, 0x7f, 0x89, 0xa1, 0x89]
  {
    hide Crc32.Crc, Crc32.Update;
    UpdatesFirst();
    UpdatesNext();
    UpdatesLast();
    assert [49] + [50, 51, 52, 53, 54, 55, 56, 57] == [49, 50, 51, 52, 53, 54, 55, 56, 57] && [50] + [51, 52, 53, 54, 55, 56, 57] == [50, 51, 52, 53, 54, 55, 56, 57] && [51] + [52, 53, 54, 55, 56, 57] == [51, 52, 53, 54, 55, 56, 57] && [52] + [53, 54, 55, 56, 57] == [52, 53, 54, 55, 56, 57] && [53] + [54, 55, 56, 57] == [53, 54, 55, 56, 57] && [54] + [55, 56, 57] == [54, 55, 56, 57] && [55] + [56, 57] == [55, 56, 57] && [56] + [57] == [56, 57] && [57] + [] == [57];
    CrcFirst(0, 49, [50, 51, 52, 53, 54, 55, 56, 57]);
    CrcFirst(0xd0f37027, 50, [51, 52, 53, 54, 55, 56, 57]);
    CrcFirst(0x3f5b3a17, 51, [52, 53, 54, 55, 56, 57]);
    CrcFirst(0x6e368c64, 52, [53, 54, 55, 56, 57]);
    CrcFirst(0x619119d1, 53, [54, 55, 56, 57]);
    CrcFirst(0xfa8a0cdb, 54, [55, 56, 57]);
    CrcFirst(0xe28ad0fd, 55, [56, 57]);
    CrcFirst(0x8c8edd82, 56, [57]);
    CrcFirst(0x20e779a2, 57, []);
    Crc32.CrcNone(0x89a1897f);
  }

  // ----- Adler-32 and zlib --------------------------------------------------------------------

  lemma {:induction false} AdlerMore(data: seq<byte>, n: nat, a: nat, b: nat)
    requires n < |data| && Zlib.SumA(1, data[..n]) == a && Zlib.SumB(1, 0, data[..n]) == b && a + b + data[n] < 32768
    ensures Zlib.SumA(1, data[..n + 1]) == a + data[n] && Zlib.SumB(1, 0, data[..n + 1]) == b + a + data[n]
  {
    assert data[..n + 1][..n] == data[..n] && data[..n + 1][n] == data[n];
  }

  lemma {:induction false} AdlerNone(data: seq<byte>)
    ensures Zlib.SumA(1, data[..0]) == 1 && Zlib.SumB(1, 0, data[..0]) == 0
  {}

  const WIKIPEDIA: seq<byte> := [87, 105, 107, 105, 112, 101, 100, 105, 97]

  lemma {:induction false} WikipediaAdler()
    ensures Zlib.Adler(1, WIKIPEDIA) == 0x11e60398
  {
    hide Zlib.SumA, Zlib.SumB;
    var w := WIKIPEDIA;
    AdlerNone(w);
    AdlerMore(w, 0, 1, 0);
    AdlerMore(w, 1, 88, 88);
    AdlerMore(w, 2, 193, 281);
    AdlerMore(w, 3, 300, 581);
    AdlerMore(w, 4, 405, 986);
    AdlerMore(w, 5, 517, 1503);
    AdlerMore(w, 6, 618, 2121);
    AdlerMore(w, 7, 718, 2839);
    AdlerMore(w, 8, 823, 3662);
    assert w[..9] == w;
  }

  /** A zlib stream for the one byte 97: two bytes of header, one fixed block, and the checksum, highest byte first. */
  lemma {:induction false} ZlibExample(rfc: bool, ignoreAdler: bool, ignoreNlen: bool)
    ensures Zlib.Unpacked([120, 1, 75, 4, 0, 0, 98, 0, 98], rfc, ignoreAdler, ignoreNlen) == Inflate.Ok([97])
  {
    hide Inflate.Inflated;
    var data: seq<byte> := [120, 1, 75, 4, 0, 0, 98, 0, 98];
    FixedCodes.OneByteThen(data[2..], rfc, ignoreNlen);
    assert Zlib.Adler(1, [97]) == 98 * 65536 + 98;
  }

  // ----- PNG filters --------------------------------------------------------------------------

  /** The five filters of section 9.2 of the PNG specification, on a line of one byte a pixel and on one of two. */
  lemma {:induction false} FilterExample()
    ensures Filter.Filtered([10, 20, 40], [1, 2, 3], 1, 0) == [10, 20, 40]
    ensures Filter.Filtered([10, 20, 40], [1, 2, 3], 1, 1) == [10, 10, 20]
    ensures Filter.Filtered([10, 20, 40], [1, 2, 3], 1, 2) == [9, 18, 37]
    ensures Filter.Filtered([10, 20, 40], [1, 2, 3], 1, 3) == [10, 14, 29]
    ensures Filter.Filtered([10, 20, 40], [1, 2, 3], 1, 4) == [9, 10, 20]
    ensures Filter.Filtered([10, 20, 40], [1, 2, 3], 2, 1) == [10, 20, 30]
  {}

  // ----- dates --------------------------------------------------------------------------------

  /** The last second of a signed 32-bit clock: Tuesday, 19 January 2038, 03:14:07. */
  lemma {:induction false} LastSecond()
    ensures DateTime.Unix(DateTime.DateTime(7, 14, 3, 2, 18, 0, 2038)) == 0x7fff_ffff
    ensures DateTime.CalcDayOfWeek(2038, 0, 18) == 2
  {
    DateTime.DaysBeforeYearIs(2038);
  }
}
