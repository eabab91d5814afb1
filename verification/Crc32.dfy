/** CRC-32, most significant bit first: division by the polynomial bit by bit, and byte by byte from a table. */
module Crc32 {
  import opened Bits

  type u32 = x: int | 0 <= x < 0x1_0000_0000

  /** The generator polynomial, without its leading term. */
  const POLY: bv32 := 0x04c1_1db7

  // ----- bit by bit ---------------------------------------------------------------------------

  /** Addition of polynomials over GF(2). */
  function Plus(x: bv32, y: bv32): (r: bv32) { x ^ y }

  /** Multiplication by x modulo the polynomial: one step of the division. */
  function Step(x: bv32): (r: bv32) { (x << 1) ^ (if x >> 31 == 1 then POLY else 0) }

  function Step8(x: bv32): (r: bv32) { Step(Step(Step(Step(Step(Step(Step(Step(x)))))))) }

  lemma {:induction false} PlusShifted(x: bv32, y: bv32)
    ensures (x ^ y) << 1 == (x << 1) ^ (y << 1)
  {}

  lemma {:induction false} PlusTop(x: bv32, y: bv32)
    ensures (x ^ y) >> 31 == (x >> 31) ^ (y >> 31) && (x >> 31 == 0 || x >> 31 == 1) && (y >> 31 == 0 || y >> 31 == 1)
  {}

  lemma {:induction false} PlusSwapped(a: bv32, b: bv32, p: bv32)
    ensures (a ^ p) ^ (b ^ p) == a ^ b && (a ^ p) ^ (b ^ 0) == (a ^ b) ^ p && (a ^ 0) ^ (b ^ p) == (a ^ b) ^ p
    ensures (a ^ 0) ^ (b ^ 0) == (a ^ b) ^ 0 && (a ^ b) ^ 0 == a ^ b
  {}

  /** Division is linear. */
  lemma {:induction false} StepXor(x: bv32, y: bv32)
    ensures Step(x ^ y) == Step(x) ^ Step(y)
  {
    PlusShifted(x, y);
    PlusTop(x, y);
    PlusSwapped(x << 1, y << 1, POLY);
    OneBit();
    if x >> 31 == 0 {
      if y >> 31 == 0 {} else {}
    } else {
      if y >> 31 == 0 {} else {}
    }
  }

  lemma {:induction false} StepPlus(x: bv32, y: bv32)
    ensures Step(Plus(x, y)) == Plus(Step(x), Step(y))
  {
    hide Step;
    StepXor(x, y);
  }

  lemma {:induction false} OneBit()
    ensures (0 as bv32) ^ 0 == 0 && (0 as bv32) ^ 1 == 1 && (1 as bv32) ^ 0 == 1 && (1 as bv32) ^ 1 == 0
  {}

  lemma {:induction false} Step8Plus(x: bv32, y: bv32)
    ensures Step8(Plus(x, y)) == Plus(Step8(x), Step8(y))
  {
    hide Step, Plus;
    var x1, y1 := Step(x), Step(y);
    var x2, y2 := Step(x1), Step(y1);
    var x3, y3 := Step(x2), Step(y2);
    var x4, y4 := Step(x3), Step(y3);
    var x5, y5 := Step(x4), Step(y4);
    var x6, y6 := Step(x5), Step(y5);
    var x7, y7 := Step(x6), Step(y6);
    StepPlus(x, y);
    StepPlus(x1, y1);
    StepPlus(x2, y2);
    StepPlus(x3, y3);
    StepPlus(x4, y4);
    StepPlus(x5, y5);
    StepPlus(x6, y6);
    StepPlus(x7, y7);
  }

  function Twice(x: bv32): (r: bv32) { x << 1 }

  predicate Low31(x: bv32) { x >> 31 == 0 }

  lemma {:induction false} StepLow(x: bv32)
    requires Low31(x)
    ensures Step(x) == Twice(x)
  {}

  /** Eight steps only shift a number whose eight highest bits are zero. */
  lemma {:induction false} Step8Low(x: bv32)
    requires x >> 24 == 0
    ensures Step8(x) == x << 8
  {
    hide Step, Twice, Low31;
    NoCarry(x);
    var x1 := Twice(x);
    var x2 := Twice(x1);
    var x3 := Twice(x2);
    var x4 := Twice(x3);
    var x5 := Twice(x4);
    var x6 := Twice(x5);
    var x7 := Twice(x6);
    StepLow(x);
    StepLow(x1);
    StepLow(x2);
    StepLow(x3);
    StepLow(x4);
    StepLow(x5);
    StepLow(x6);
    StepLow(x7);
  }

  lemma {:induction false} NoCarry(x: bv32)
    requires x >> 24 == 0
    ensures var x4 := Twice(Twice(Twice(Twice(x))));
            && Low31(x) && Low31(Twice(x)) && Low31(Twice(Twice(x))) && Low31(Twice(Twice(Twice(x))))
            && Low31(x4) && Low31(Twice(x4)) && Low31(Twice(Twice(x4))) && Low31(Twice(Twice(Twice(x4))))
            && Twice(Twice(Twice(Twice(x4)))) == x << 8
  {}

  // ----- byte by byte -------------------------------------------------------------------------

  /** Row r of the table. */
  function TableRow(r: bv8): (row: seq<bv32>)
    ensures |row| == 16
  {
    if r == 0 then
      [0x00000000, 0x04c11db7, 0x09823b6e, 0x0d4326d9, 0x130476dc, 0x17c56b6b, 0x1a864db2, 0x1e475005,
       0x2608edb8, 0x22c9f00f, 0x2f8ad6d6, 0x2b4bcb61, 0x350c9b64, 0x31cd86d3, 0x3c8ea00a, 0x384fbdbd]
    else if r == 1 then
      [0x4c11db70, 0x48d0c6c7, 0x4593e01e, 0x4152fda9, 0x5f15adac, 0x5bd4b01b, 0x569796c2, 0x52568b75,
       0x6a1936c8, 0x6ed82b7f, 0x639b0da6, 0x675a1011, 0x791d4014, 0x7ddc5da3, 0x709f7b7a, 0x745e66cd]
    else if r == 2 then
      [0x9823b6e0, 0x9ce2ab57, 0x91a18d8e, 0x95609039, 0x8b27c03c, 0x8fe6dd8b, 0x82a5fb52, 0x8664e6e5,
       0xbe2b5b58, 0xbaea46ef, 0xb7a96036, 0xb3687d81, 0xad2f2d84, 0xa9ee3033, 0xa4ad16ea, 0xa06c0b5d]
    else if r == 3 then
      [0xd4326d90, 0xd0f37027, 0xddb056fe, 0xd9714b49, 0xc7361b4c, 0xc3f706fb, 0xceb42022, 0xca753d95,
       0xf23a8028, 0xf6fb9d9f, 0xfbb8bb46, 0xff79a6f1, 0xe13ef6f4, 0xe5ffeb43, 0xe8bccd9a, 0xec7dd02d]
    else if r == 4 then
      [0x34867077, 0x30476dc0, 0x3d044b19, 0x39c556ae, 0x278206ab, 0x23431b1c, 0x2e003dc5, 0x2ac12072,
       0x128e9dcf, 0x164f8078, 0x1b0ca6a1, 0x1fcdbb16, 0x018aeb13, 0x054bf6a4, 0x0808d07d, 0x0cc9cdca]
    else if r == 5 then
      [0x7897ab07, 0x7c56b6b0, 0x71159069, 0x75d48dde, 0x6b93dddb, 0x6f52c06c, 0x6211e6b5, 0x66d0fb02,
       0x5e9f46bf, 0x5a5e5b08, 0x571d7dd1, 0x53dc6066, 0x4d9b3063, 0x495a2dd4, 0x44190b0d, 0x40d816ba]
    else if r == 6 then
      [0xaca5c697, 0xa864db20, 0xa527fdf9, 0xa1e6e04e, 0xbfa1b04b, 0xbb60adfc, 0xb6238b25, 0xb2e29692,
       0x8aad2b2f, 0x8e6c3698, 0x832f1041, 0x87ee0df6, 0x99a95df3, 0x9d684044, 0x902b669d, 0x94ea7b2a]
    else if r == 7 then
      [0xe0b41de7, 0xe4750050, 0xe9362689, 0xedf73b3e, 0xf3b06b3b, 0xf771768c, 0xfa325055, 0xfef34de2,
       0xc6bcf05f, 0xc27dede8, 0xcf3ecb31, 0xcbffd686, 0xd5b88683, 0xd1799b34, 0xdc3abded, 0xd8fba05a]
    else if r == 8 then
      [0x690ce0ee, 0x6dcdfd59, 0x608edb80, 0x644fc637, 0x7a089632, 0x7ec98b85, 0x738aad5c, 0x774bb0eb,
       0x4f040d56, 0x4bc510e1, 0x46863638, 0x42472b8f, 0x5c007b8a, 0x58c1663d, 0x558240e4, 0x51435d53]
    else if r == 9 then
      [0x251d3b9e, 0x21dc2629, 0x2c9f00f0, 0x285e1d47, 0x36194d42, 0x32d850f5, 0x3f9b762c, 0x3b5a6b9b,
       0x0315d626, 0x07d4cb91, 0x0a97ed48, 0x0e56f0ff, 0x1011a0fa, 0x14d0bd4d, 0x19939b94, 0x1d528623]
    else if r == 10 then
      [0xf12f560e, 0xf5ee4bb9, 0xf8ad6d60, 0xfc6c70d7, 0xe22b20d2, 0xe6ea3d65, 0xeba91bbc, 0xef68060b,
       0xd727bbb6, 0xd3e6a601, 0xdea580d8, 0xda649d6f, 0xc423cd6a, 0xc0e2d0dd, 0xcda1f604, 0xc960ebb3]
    else if r == 11 then
      [0xbd3e8d7e, 0xb9ff90c9, 0xb4bcb610, 0xb07daba7, 0xae3afba2, 0xaafbe615, 0xa7b8c0cc, 0xa379dd7b,
       0x9b3660c6, 0x9ff77d71, 0x92b45ba8, 0x9675461f, 0x8832161a, 0x8cf30bad, 0x81b02d74, 0x857130c3]
    else if r == 12 then
      [0x5d8a9099, 0x594b8d2e, 0x5408abf7, 0x50c9b640, 0x4e8ee645, 0x4a4ffbf2, 0x470cdd2b, 0x43cdc09c,
       0x7b827d21, 0x7f436096, 0x7200464f, 0x76c15bf8, 0x68860bfd, 0x6c47164a, 0x61043093, 0x65c52d24]
    else if r == 13 then
      [0x119b4be9, 0x155a565e, 0x18197087, 0x1cd86d30, 0x029f3d35, 0x065e2082, 0x0b1d065b, 0x0fdc1bec,
       0x3793a651, 0x3352bbe6, 0x3e119d3f, 0x3ad08088, 0x2497d08d, 0x2056cd3a, 0x2d15ebe3, 0x29d4f654]
    else if r == 14 then
      [0xc5a92679, 0xc1683bce, 0xcc2b1d17, 0xc8ea00a0, 0xd6ad50a5, 0xd26c4d12, 0xdf2f6bcb, 0xdbee767c,
       0xe3a1cbc1, 0xe760d676, 0xea23f0af, 0xeee2ed18, 0xf0a5bd1d, 0xf464a0aa, 0xf9278673, 0xfde69bc4]
    else
      [0x89b8fd09, 0x8d79e0be, 0x803ac667, 0x84fbdbd0, 0x9abc8bd5, 0x9e7d9662, 0x933eb0bb, 0x97ffad0c,
       0xafb010b1, 0xab710d06, 0xa6322bdf, 0xa2f33668, 0xbcb4666d, 0xb8757bda, 0xb5365d03, 0xb1f740b4]
  }

  function Cell(row: seq<bv32>, c: bv8): (v: bv32)
    requires |row| == 16
  {
    if c < 4 then (if c == 0 then row[0] else if c == 1 then row[1] else if c == 2 then row[2] else row[3])
    else if c < 8 then (if c == 4 then row[4] else if c == 5 then row[5] else if c == 6 then row[6] else row[7])
    else if c < 12 then (if c == 8 then row[8] else if c == 9 then row[9] else if c == 10 then row[10] else row[11])
    else (if c == 12 then row[12] else if c == 13 then row[13] else if c == 14 then row[14] else row[15])
  }

  /** Entry i of the table. */
  function Entry(i: bv8): (v: bv32) { Cell(TableRow(i >> 4), i & 15) }

  /** Sixteen divisions, of bytes that differ in their low halves. */
  function StepRow(x: bv32): (row: seq<bv32>)
    ensures |row| == 16
  {
    [Step8(Plus(x, 0)), Step8(Plus(x, 0x100_0000)), Step8(Plus(x, 0x200_0000)), Step8(Plus(x, 0x300_0000)),
     Step8(Plus(x, 0x400_0000)), Step8(Plus(x, 0x500_0000)), Step8(Plus(x, 0x600_0000)), Step8(Plus(x, 0x700_0000)),
     Step8(Plus(x, 0x800_0000)), Step8(Plus(x, 0x900_0000)), Step8(Plus(x, 0xa00_0000)), Step8(Plus(x, 0xb00_0000)),
     Step8(Plus(x, 0xc00_0000)), Step8(Plus(x, 0xd00_0000)), Step8(Plus(x, 0xe00_0000)), Step8(Plus(x, 0xf00_0000))]
  }

  /** A byte above 24 zeros. */
  function Top(i: bv8): (x: bv32) { (i as bv32) << 24 }

  lemma {:induction false} LowRows(r: bv8)
    requires r < 8
    ensures TableRow(r) == StepRow((r as bv32) << 28)
  {
    if r == 0 {} else if r == 1 {} else if r == 2 {} else if r == 3 {} else if r == 4 {} else if r == 5 {} else if r == 6 {} else {}
  }

  lemma {:induction false} HighRows(r: bv8)
    requires 8 <= r < 16
    ensures TableRow(r) == StepRow((r as bv32) << 28)
  {
    if r == 8 {} else if r == 9 {} else if r == 10 {} else if r == 11 {} else if r == 12 {} else if r == 13 {} else if r == 14 {} else {}
  }

  lemma {:induction false} Cells(x: bv32, c: bv8)
    requires c < 16
    ensures Cell(StepRow(x), c) == Step8(Plus(x, Top(c)))
  {
    hide Cell, StepRow;
    if c < 8 { LowCells(x, c); } else { HighCells(x, c); }
  }

  lemma {:induction false} LowCells(x: bv32, c: bv8)
    requires c < 8
    ensures Cell(StepRow(x), c) == Step8(Plus(x, Top(c)))
  {
    hide Step8, Plus, Top;
    Tops();
    if c < 4 {} else {}
  }

  lemma {:induction false} HighCells(x: bv32, c: bv8)
    requires 8 <= c < 16
    ensures Cell(StepRow(x), c) == Step8(Plus(x, Top(c)))
  {
    hide Step8, Plus, Top;
    Tops();
    if c < 12 {} else {}
  }

  lemma {:induction false} Tops()
    ensures Top(0) == 0 && Top(1) == 0x100_0000 && Top(2) == 0x200_0000 && Top(3) == 0x300_0000 && Top(4) == 0x400_0000
    ensures Top(5) == 0x500_0000 && Top(6) == 0x600_0000 && Top(7) == 0x700_0000 && Top(8) == 0x800_0000 && Top(9) == 0x900_0000
    ensures Top(10) == 0xa00_0000 && Top(11) == 0xb00_0000 && Top(12) == 0xc00_0000 && Top(13) == 0xd00_0000
    ensures Top(14) == 0xe00_0000 && Top(15) == 0xf00_0000
  {}

  lemma {:induction false} Halves(i: bv8)
    ensures i >> 4 < 16 && i & 15 < 16 && Plus(((i >> 4) as bv32) << 28, Top(i & 15)) == Top(i)
  {}

  /** Each entry of the table is what eight steps of the division make of its index. */
  lemma {:induction false} EntryIs(i: bv8)
    ensures Entry(i) == Step8(Top(i))
  {
    hide Step8, Plus, Top, Cell, StepRow, TableRow;
    Halves(i);
    if i >> 4 < 8 { LowRows(i >> 4); } else { HighRows(i >> 4); }
    Cells(((i >> 4) as bv32) << 28, i & 15);
  }

  /** One byte more, by the table. */
  function UpdateWord(accu: bv32, b: bv8): (r: bv32)
  {
    TopByte(accu);
    Plus(accu << 8, Entry(((accu >> 24) as bv8) ^ b))
  }

  lemma {:induction false} TopByte(accu: bv32)
    ensures accu >> 24 < 256
  {}

  /** The table step is eight steps of the division, for every accumulator and every byte. */
  lemma {:induction false} UpdateIsDivision(accu: bv32, b: bv8)
    ensures UpdateWord(accu, b) == Step8(Plus(accu, Top(b)))
  {
    hide Step8, Entry, Plus, Top;
    TopByte(accu);
    var i, low := ((accu >> 24) as bv8) ^ b, accu & 0xff_ffff;
    Divided(accu, b);
    EntryIs(i);
    Step8Plus(low, Top(i));
    Step8Low(low);
  }

  lemma {:induction false} Divided(accu: bv32, b: bv8)
    requires accu >> 24 < 256
    ensures var i, low := ((accu >> 24) as bv8) ^ b, accu & 0xff_ffff;
            Plus(accu, Top(b)) == Plus(low, Top(i)) && low >> 24 == 0 && low << 8 == accu << 8
  {}

  function Word(x: u32): (w: bv32) { x as bv32 }

  function Number(w: bv32): (x: u32) { w as int }

  function Octet(b: byte): (o: bv8) { b as bv8 }

  lemma {:induction false} WordNumber(w: bv32)
    ensures Word(Number(w)) == w
  {}

  function Update(accu: u32, b: byte): (r: u32)
  {
    Number(UpdateWord(Word(accu), Octet(b)))
  }

  /** The CRC of `data` continued from `accu`. */
  function Crc(accu: u32, data: seq<byte>): (r: u32)
    decreases |data|
  {
    if data == [] then accu else Crc(Update(accu, data[0]), data[1..])
  }

  /** The division carried on over `data`, bit by bit, most significant bit first. */
  function Divide(accu: bv32, data: seq<byte>): (r: bv32)
    decreases |data|
  {
    if data == [] then accu else Divide(Step8(Plus(accu, Top(Octet(data[0])))), data[1..])
  }

  /** The table computes the remainder that the bitwise division leaves, for all data from every start. */
  lemma {:induction false} CrcIsDivision(accu: u32, data: seq<byte>)
    ensures Word(Crc(accu, data)) == Divide(Word(accu), data)
    decreases |data|
  {
    hide Step8, Plus, Top, UpdateWord, Word, Number, Octet;
    if data != [] {
      var x := UpdateWord(Word(accu), Octet(data[0]));
      UpdateIsDivision(Word(accu), Octet(data[0]));
      WordNumber(x);
      CrcIsDivision(Number(x), data[1..]);
    }
  }

  lemma {:induction false} CrcAppend(accu: u32, x: seq<byte>, y: seq<byte>)
    ensures Crc(accu, x + y) == Crc(Crc(accu, x), y)
    decreases |x|
  {
    hide Update;
    if x == [] {
      assert x + y == y;
    } else {
      assert (x + y)[1..] == x[1..] + y;
      CrcAppend(Update(accu, x[0]), x[1..], y);
    }
  }

  lemma {:induction false} CrcOne(accu: u32, data: seq<byte>, i: nat)
    requires i < |data|
    ensures Crc(accu, data[..i + 1]) == Update(Crc(accu, data[..i]), data[i])
  {
    hide Update;
    assert data[..i + 1] == data[..i] + [data[i]] && [data[i]][1..] == [];
    CrcAppend(accu, data[..i], [data[i]]);
    assert Crc(Update(Crc(accu, data[..i]), data[i]), []) == Update(Crc(accu, data[..i]), data[i]);
  }

  method Crc32Check(accu: u32, data: seq<byte>) returns (crc: u32)
    ensures crc == Crc(accu, data)
  {
    hide Update, Crc;
    CrcNone(accu);
    assert data[..0] == [];
    crc := accu;
    var x := 0;
    while x != |data|
      invariant 0 <= x <= |data| && crc == Crc(accu, data[..x])
    {
      CrcOne(accu, data, x);
      crc := Update(crc, data[x]);
      x := x + 1;
    }
    assert data[..x] == data;
  }

  lemma {:induction false} CrcNone(accu: u32)
    ensures Crc(accu, []) == accu
  {}
}
