/** A file with a length and a CRC in a region of flash. */
module Checked {
  import opened Bits
  import opened Bitwise
  import opened Flash
  import opened EraseBlocks
  import opened Crc32

  const HEADER: nat := 8

  /** Where a file lives: its region and the size of its erase blocks. */
  datatype Area = Area(base: nat, size: nat, erase: nat)

  predicate ValidArea(a: Area, memory: nat) {
    && 0 < a.erase && a.erase % SECTOR == 0 && a.base % a.erase == 0 && a.size % a.erase == 0
    && 0 < a.size < 0x1_0000_0000 && a.base + a.size <= memory
  }

  // ----- header -------------------------------------------------------------------------------

  function Bytes32(v: u32): (b: seq<byte>)
    ensures |b| == 4
  {
    [v % 256, v / 256 % 256, v / 256 / 256 % 256, v / 256 / 256 / 256]
  }

  function Read32(m: Memory, p: nat): (v: u32)
    requires p + 4 <= |m|
  {
    m[p] as int + 256 * (m[p + 1] as int + 256 * (m[p + 2] as int + 256 * m[p + 3] as int))
  }

  lemma {:induction false} Read32Bytes(m: Memory, p: nat, v: u32)
    requires p + 4 <= |m| && m[p..p + 4] == Bytes32(v)
    ensures Read32(m, p) == v
  {
    var b := m[p..p + 4];
    assert m[p] == b[0] && m[p + 1] == b[1] && m[p + 2] == b[2] && m[p + 3] == b[3];
  }

  function Header(size: u32, crc: u32): (b: seq<byte>)
    ensures |b| == HEADER
  {
    Bytes32(size) + Bytes32(crc)
  }

  // ----- meaning of the flash -----------------------------------------------------------------

  function SizeOf(m: Memory, a: Area): (n: u32)
    requires ValidArea(a, |m|)
  {
    AreaBounds(a, |m|);
    Read32(m, a.base)
  }

  function Body(m: Memory, a: Area, n: nat): (s: seq<byte>)
    requires ValidArea(a, |m|) && HEADER + n <= a.size
  {
    m[a.base + HEADER..a.base + HEADER + n]
  }

  /** The file is intact: its size fits the region and its CRC is right. */
  predicate Good(m: Memory, a: Area)
    requires ValidArea(a, |m|)
  {
    AreaBounds(a, |m|);
    SizeOf(m, a) <= a.size - HEADER && Crc(0, Body(m, a, SizeOf(m, a))) == Read32(m, a.base + 4)
  }

  function Contents(m: Memory, a: Area): (s: seq<byte>)
    requires ValidArea(a, |m|) && Good(m, a)
  {
    Body(m, a, SizeOf(m, a))
  }

  lemma {:induction false} AreaBounds(a: Area, memory: nat)
    requires ValidArea(a, memory)
    ensures SECTOR <= a.erase <= a.size && a.base % SECTOR == 0 && a.erase % SECTOR == 0 && a.base + a.size <= memory
  {
    Multiple(a.size, a.erase);
    Multiple(a.base, a.erase);
    ModMod(a.base, a.erase);
  }

  // ----- writing ------------------------------------------------------------------------------

  /** Operations for writing at `addr`: as much at a time as the mask leaves of a block, and an erase where
      the masked address is zero. */
  function WriteSteps(erase: nat, addr: nat, data: seq<byte>): (steps: seq<Step>)
    requires 0 < erase
    decreases |data|
  {
    if data == [] then []
    else
      var room := erase - Mask(addr, erase);
      var n := if |data| < room then |data| else room;
      (if Mask(addr, erase) == 0 then [Erase(addr, erase)] else []) + PageSteps(addr, data[..n])
      + WriteSteps(erase, addr + n, data[n..])
  }

  function EndOf(s: Step): (e: nat)
  {
    s.addr + match s case Erase(_, n) => n case Write(_, b) => |b|
  }

  /** All steps stay on the chip. */
  predicate OnChip(steps: seq<Step>, memory: nat) {
    forall s :: s in steps ==> EndOf(s) <= memory
  }

  function Flatten(chunks: seq<seq<byte>>): (s: seq<byte>)
    decreases |chunks|
  {
    if chunks == [] then [] else chunks[0] + Flatten(chunks[1..])
  }

  function ChunkSteps(erase: nat, addr: nat, chunks: seq<seq<byte>>): (steps: seq<Step>)
    requires 0 < erase
    decreases |chunks|
  {
    if chunks == [] then [] else WriteSteps(erase, addr, chunks[0]) + ChunkSteps(erase, addr + |chunks[0]|, chunks[1..])
  }

  /** Operations for writing a file: the block of the header is erased first, the header written last. */
  function FileSteps(a: Area, chunks: seq<seq<byte>>): (steps: seq<Step>)
    requires 0 < a.erase && |Flatten(chunks)| < 0x1_0000_0000
    ensures |steps| >= 2
  {
    [Erase(a.base, a.erase)] + ChunkSteps(a.erase, a.base + HEADER, chunks)
    + [Write(a.base, Header(|Flatten(chunks)|, Crc(0, Flatten(chunks))))]
  }

  /** Nothing outside the region has changed. */
  predicate Outside(m: Memory, m': Memory, a: Area) {
    |m| == |m'| && forall i :: 0 <= i < |m| && !(a.base <= i < a.base + a.size) ==> m'[i] == m[i]
  }

  predicate Blank(m: Memory, from: int, to: int) {
    forall i :: 0 <= i < |m| && from <= i < to ==> m[i] == 255
  }

  /** In the middle of a write: the header is erased, `data` is in place and the cells from its end up
      to `end` are erased. */
  predicate Writing(m0: Memory, m: Memory, a: Area, data: seq<byte>, end: int) {
    && Outside(m0, m, a) && HEADER + |data| <= a.size && a.base + a.size <= |m|
    && Blank(m, a.base, a.base + HEADER)
    && m[a.base + HEADER..a.base + HEADER + |data|] == data
    && Blank(m, a.base + HEADER + |data|, end)
  }

  lemma {:induction false} Opened(m: Memory, a: Area)
    requires ValidArea(a, |m|)
    ensures Writing(m, After(m, Erase(a.base, a.erase)), a, [], a.base + a.erase)
  {
    AreaBounds(a, |m|);
  }

  /** Writing to erased cells puts the bytes there. */
  lemma {:induction false} WriteMore(m0: Memory, m: Memory, a: Area, data: seq<byte>, end: int, bytes: seq<byte>)
    requires Writing(m0, m, a, data, end) && a.base + HEADER + |data| + |bytes| <= end && HEADER + |data| + |bytes| <= a.size
    ensures Writing(m0, After(m, Write(a.base + HEADER + |data|, bytes)), a, data + bytes, end)
  {
    hide After;
    var p := a.base + HEADER + |data|;
    var m' := After(m, Write(p, bytes));
    BytesWritten(m, p, bytes);
    PieceKept(m, m', a.base + HEADER, p);
    PieceMore(m', a.base + HEADER, p, |bytes|);
  }

  /** Bytes written to erased cells are there; all other cells are as before. */
  lemma {:induction false} BytesWritten(m: Memory, p: nat, bytes: seq<byte>)
    requires p + |bytes| <= |m| && Blank(m, p, p + |bytes|)
    ensures var m' := After(m, Write(p, bytes));
            m'[p..p + |bytes|] == bytes && forall i :: 0 <= i < |m| && !(p <= i < p + |bytes|) ==> m'[i] == m[i]
  {
    hide And;
    var m' := After(m, Write(p, bytes));
    forall i | p <= i < p + |bytes| ensures m'[i] == bytes[i - p] { AndByte(bytes[i - p]); }
  }

  lemma {:induction false} PieceKept(m: Memory, m': Memory, p: nat, q: nat)
    requires p <= q <= |m| == |m'| && forall i :: p <= i < q ==> m'[i] == m[i]
    ensures m'[p..q] == m[p..q]
  {}

  lemma {:induction false} PieceMore(m: Memory, p: nat, q: nat, n: nat)
    requires p <= q && q + n <= |m|
    ensures m[p..q] + m[q..q + n] == m[p..q + n]
  {}

  /** The next block, erased. */
  lemma {:induction false} EraseMore(m0: Memory, m: Memory, a: Area, data: seq<byte>, end: int)
    requires Writing(m0, m, a, data, end) && a.base + HEADER + |data| + a.erase <= a.base + a.size
    ensures Writing(m0, After(m, Erase(a.base + HEADER + |data|, a.erase)), a, data, a.base + HEADER + |data| + a.erase)
  {
    var p := a.base + HEADER + |data|;
    var m' := After(m, Erase(p, a.erase));
    var x, y := m[a.base + HEADER..p], m'[a.base + HEADER..p];
    forall k | 0 <= k < |data| ensures x[k] == y[k] {
      assert x[k] == m[a.base + HEADER + k] && y[k] == m'[a.base + HEADER + k];
    }
  }

  // ----- every cell is written once -----------------------------------------------------------

  /** Every write goes to erased cells. */
  predicate WriteOnce(m: Memory, steps: seq<Step>)
    decreases |steps|
  {
    steps == [] ||
      ((steps[0].Write? ==> Blank(m, steps[0].addr, steps[0].addr + |steps[0].bytes|)) && WriteOnce(After(m, steps[0]), steps[1..]))
  }

  lemma {:induction false} WriteOnceAppend(m: Memory, x: seq<Step>, y: seq<Step>)
    ensures WriteOnce(m, x + y) <==> WriteOnce(m, x) && WriteOnce(Run(m, x), y)
    decreases |x|
  {
    hide After, Blank;
    if x == [] {
      assert x + y == y;
    } else {
      assert (x + y)[1..] == x[1..] + y;
      WriteOnceAppend(After(m, x[0]), x[1..], y);
    }
  }

  lemma {:induction false} WriteOnceOne(m: Memory, s: Step)
    ensures WriteOnce(m, [s]) <==> (s.Write? ==> Blank(m, s.addr, s.addr + |s.bytes|))
    ensures Run(m, [s]) == After(m, s)
  {
    assert [s][1..] == [];
  }

  /** Pages into erased cells: all of the bytes arrive, each cell is written once. */
  lemma {:induction false} PagesWritten(m0: Memory, m: Memory, a: Area, data: seq<byte>, end: int, bytes: seq<byte>)
    requires Writing(m0, m, a, data, end) && a.base + HEADER + |data| + |bytes| <= end && HEADER + |data| + |bytes| <= a.size
    ensures var steps := PageSteps(a.base + HEADER + |data|, bytes);
            Writing(m0, Run(m, steps), a, data + bytes, end) && WriteOnce(m, steps)
    decreases |bytes|
  {
    hide After, Writing;
    var p := a.base + HEADER + |data|;
    if bytes == [] {
      assert data + bytes == data;
    } else {
      var n := if |bytes| < PAGE - p % PAGE then |bytes| else PAGE - p % PAGE;
      var x, y := bytes[..n], bytes[n..];
      PageStep(p, bytes, n);
      WritingBlank(m0, m, a, data, end);
      WriteMore(m0, m, a, data, end, x);
      PagesWritten(m0, After(m, Write(p, x)), a, data + x, end, y);
      assert data + x + y == data + bytes;
      var w, rest := Write(p, x), PageSteps(p + n, y);
      FirstStep(m, w, rest);
    }
  }

  lemma {:induction false} FirstStep(m: Memory, s: Step, rest: seq<Step>)
    ensures Run(m, [s] + rest) == Run(After(m, s), rest)
    ensures WriteOnce(m, [s] + rest) <==> WriteOnce(m, [s]) && WriteOnce(After(m, s), rest)
    ensures WriteOnce(m, [s]) <==> (s.Write? ==> Blank(m, s.addr, s.addr + |s.bytes|))
  {
    hide After, Blank;
    assert ([s] + rest)[1..] == rest;
    WriteOnceOne(m, s);
  }

  lemma {:induction false} WritingBlank(m0: Memory, m: Memory, a: Area, data: seq<byte>, end: int)
    requires Writing(m0, m, a, data, end)
    ensures Blank(m, a.base + HEADER + |data|, end) && Blank(m, a.base, a.base + HEADER)
  {}

  // ----- blocks -------------------------------------------------------------------------------

  /** The erased cells reach the end of the block that is being filled. */
  predicate BlockEnd(p: nat, erase: nat, end: int)
    requires 0 < erase
  {
    p % erase == 0 || end == p - p % erase + erase
  }

  /** A block that starts within the region ends within it. */
  lemma {:induction false} BlockFits(a: Area, memory: nat, p: nat)
    requires ValidArea(a, memory) && p % a.erase == 0 && p < a.base + a.size
    ensures p + a.erase <= a.base + a.size
  {
    Multiple(p, a.erase);
    Multiple(a.base, a.erase);
    Multiple(a.size, a.erase);
    Room(a.erase, p / a.erase, a.base / a.erase, a.size / a.erase);
  }

  /** Within the area the mask finds the starts of blocks: it is zero there and nowhere else. */
  ghost predicate MaskFits(a: Area)
    requires 0 < a.erase
  {
    forall x: nat :: a.base < x < a.base + a.size ==> (Mask(x, a.erase) == 0 <==> x % a.erase == 0)
  }

  /** Powers of two fit every area. */
  lemma {:induction false} Pow2Fits(a: Area)
    requires IsPow2(a.erase)
    ensures MaskFits(a)
  {
    forall x: nat ensures Mask(x, a.erase) == x % a.erase { MaskIsRemainder(x, a.erase); }
  }

  /** Other erase sizes fit at most areas of one block. */
  lemma {:induction false} OneBlock(a: Area, memory: nat)
    requires ValidArea(a, memory) && MaskFits(a) && !IsPow2(a.erase)
    ensures a.size == a.erase
  {
    hide IsPow2;
    var e, x := a.erase, a.base + a.erase;
    AreaBounds(a, memory);
    if e < a.size {
      SumOfMultiples(a.base, e, e);
      BlockFits(a, memory, x);
      var y := Neighbour(x, e);
      if y % e == 0 { SameBlock(x, y, e); }
    }
  }

  /** One turn of the write loop does not go beyond the block it started in. */
  lemma {:induction false} StaysInBlock(a: Area, memory: nat, p: nat, n: nat)
    requires ValidArea(a, memory) && MaskFits(a) && a.base < p && p + n <= a.base + a.size && n <= a.erase - Mask(p, a.erase)
    ensures n <= a.erase - p % a.erase
  {
    hide IsPow2, MaskFits, Mask;
    if IsPow2(a.erase) {
      MaskIsRemainder(p, a.erase);
    } else if p < a.base + a.size {
      OneBlock(a, memory);
      BlockStep(a.base, a.erase, p - a.base);
    } else {
      SumOfMultiples(a.base, a.size, a.erase);
    }
  }

  lemma {:induction false} MaskAt(a: Area, p: nat)
    requires 0 < a.erase && MaskFits(a) && a.base < p < a.base + a.size
    ensures Mask(p, a.erase) == 0 <==> p % a.erase == 0
  {}

  /** Writing past the end of an area erases the block behind it: no check stops it. */
  lemma {:induction false} OverrunErases(a: Area, memory: nat, addr: nat, data: seq<byte>)
    requires ValidArea(a, memory) && IsPow2(a.erase) && addr <= a.base + a.size < addr + |data|
    ensures Erase(a.base + a.size, a.erase) in WriteSteps(a.erase, addr, data)
    decreases |data|
  {
    hide PageSteps, Mask, IsPow2, WriteSteps;
    var end, e := a.base + a.size, a.erase;
    SumOfMultiples(a.base, a.size, e);
    MaskIsRemainder(addr, e);
    var room := e - addr % e;
    BlockSteps(e, addr, data, if |data| < room then |data| else room);
    if addr < end {
      NextBlock(addr, end, e);
      OverrunErases(a, memory, addr + room, data[room..]);
    }
  }

  /** One buffer, written: the bytes follow those before, and every cell is written once. */
  lemma {:induction false} BufferWritten(m0: Memory, m: Memory, a: Area, data: seq<byte>, end: int, bytes: seq<byte>) returns (end': int)
    requires ValidArea(a, |m|) && MaskFits(a) && Writing(m0, m, a, data, end) && HEADER + |data| + |bytes| <= a.size
    requires BlockEnd(a.base + HEADER + |data|, a.erase, end)
    ensures var steps := WriteSteps(a.erase, a.base + HEADER + |data|, bytes);
            Writing(m0, Run(m, steps), a, data + bytes, end') && WriteOnce(m, steps)
    ensures BlockEnd(a.base + HEADER + |data + bytes|, a.erase, end')
    decreases |bytes|
  {
    hide After, Writing, WriteOnce, PageSteps, WriteSteps, ValidArea, Run, Mask, MaskFits;
    AreaErases(a, |m|);
    var p, e := a.base + HEADER + |data|, a.erase;
    if bytes == [] {
      assert data + bytes == data;
      NoWriteSteps(e, p);
      NoSteps(m);
      return end;
    }
    var room := e - Mask(p, e);
    var n := if |bytes| < room then |bytes| else room;
    MaskAt(a, p);
    StaysInBlock(a, |m|, p, n);
    var x, y := bytes[..n], bytes[n..];
    var front := if p % e == 0 then [Erase(p, e)] else [];
    var m1, end1 := Run(m, front), if p % e == 0 then p + e else end;
    assert Writing(m0, m1, a, data, end1) && WriteOnce(m, front) by {
      if p % e == 0 {
        BlockFits(a, |m|, p);
        EraseMore(m0, m, a, data, end);
        WriteOnceOne(m, Erase(p, e));
      } else {
        NoSteps(m);
      }
    }
    PagesWritten(m0, m1, a, data, end1, x);
    var m2 := Run(m1, PageSteps(p, x));
    BlockStep(p, e, n);
    BlockSteps(e, p, bytes, n);
    end' := BufferWritten(m0, m2, a, data + x, end1, y);
    assert data + x + y == data + bytes;
    RunAppend(m, front, PageSteps(p, x));
    RunAppend(m, front + PageSteps(p, x), WriteSteps(e, p + n, y));
    WriteOnceAppend(m, front, PageSteps(p, x));
    WriteOnceAppend(m, front + PageSteps(p, x), WriteSteps(e, p + n, y));
  }

  lemma {:induction false} NoSteps(m: Memory)
    ensures Run(m, []) == m && WriteOnce(m, [])
  {}

  /** Any split into buffers, written. */
  lemma {:induction false} ChunksWritten(m0: Memory, m: Memory, a: Area, data: seq<byte>, end: int, chunks: seq<seq<byte>>) returns (end': int)
    requires ValidArea(a, |m|) && MaskFits(a) && Writing(m0, m, a, data, end) && HEADER + |data| + |Flatten(chunks)| <= a.size
    requires BlockEnd(a.base + HEADER + |data|, a.erase, end)
    ensures var steps := ChunkSteps(a.erase, a.base + HEADER + |data|, chunks);
            Writing(m0, Run(m, steps), a, data + Flatten(chunks), end') && WriteOnce(m, steps)
    decreases |chunks|
  {
    hide After, Writing, WriteOnce, WriteSteps, ValidArea, BlockEnd, Run, MaskFits;
    if chunks == [] {
      assert data + Flatten(chunks) == data;
      NoSteps(m);
      return end;
    }
    AreaErases(a, |m|);
    var p, e, x := a.base + HEADER + |data|, a.erase, chunks[0];
    var steps := WriteSteps(e, p, x);
    var end1 := BufferWritten(m0, m, a, data, end, x);
    end' := ChunksWritten(m0, Run(m, steps), a, data + x, end1, chunks[1..]);
    assert data + x + Flatten(chunks[1..]) == data + Flatten(chunks);
    RunAppend(m, steps, ChunkSteps(e, p + |x|, chunks[1..]));
    WriteOnceAppend(m, steps, ChunkSteps(e, p + |x|, chunks[1..]));
  }

  lemma {:induction false} AreaErases(a: Area, memory: nat)
    requires ValidArea(a, memory)
    ensures 0 < a.erase && 0 < a.size < 0x1_0000_0000
  {}

  /** Writing the header to erased cells leaves the body alone. */
  lemma {:induction false} HeaderStored(m: Memory, a: Area, data: seq<byte>, h: seq<byte>)
    requires |h| == HEADER && a.base + HEADER + |data| <= |m| && Blank(m, a.base, a.base + HEADER)
    requires m[a.base + HEADER..a.base + HEADER + |data|] == data
    ensures var m' := After(m, Write(a.base, h));
            m'[a.base..a.base + HEADER] == h && m'[a.base + HEADER..a.base + HEADER + |data|] == data
  {
    hide And;
    var m' := After(m, Write(a.base, h));
    forall i | a.base <= i < a.base + HEADER ensures m'[i] == h[i - a.base] { AndByte(h[i - a.base]); }
    var x := m'[a.base + HEADER..a.base + HEADER + |data|];
    forall k | 0 <= k < |data| ensures x[k] == data[k] {
      assert x[k] == m'[a.base + HEADER + k] == m[a.base + HEADER + k] == m[a.base + HEADER..a.base + HEADER + |data|][k];
    }
  }

  /** The header, written last, makes the file good. */
  lemma {:induction false} Closed(m0: Memory, m: Memory, a: Area, data: seq<byte>, end: int)
    requires ValidArea(a, |m|) && Writing(m0, m, a, data, end)
    ensures |data| < 0x1_0000_0000
    ensures var m' := After(m, Write(a.base, Header(|data|, Crc(0, data))));
            Outside(m0, m', a) && Good(m', a) && Contents(m', a) == data
  {
    hide ValidArea, Crc, And, Bytes32, Read32;
    AreaBounds(a, |m|);
    AreaErases(a, |m|);
    var h := Header(|data|, Crc(0, data));
    var m' := After(m, Write(a.base, h));
    assert m'[a.base..a.base + HEADER] == h && m'[a.base + HEADER..a.base + HEADER + |data|] == data by {
      HeaderStored(m, a, data, h);
    }
    assert m'[a.base..a.base + 4] == m'[a.base..a.base + HEADER][..4] == Bytes32(|data|);
    assert m'[a.base + 4..a.base + 8] == m'[a.base..a.base + HEADER][4..] == Bytes32(Crc(0, data));
    Read32Bytes(m', a.base, |data|);
    Read32Bytes(m', a.base + 4, Crc(0, data));
  }

  /** The file written in these pieces is good and holds the data, nothing outside the region has changed, and
      every cell was written once after it was erased. */
  predicate FileOk(m: Memory, a: Area, chunks: seq<seq<byte>>)
    requires ValidArea(a, |m|) && |Flatten(chunks)| < 0x1_0000_0000
  {
    var m' := Run(m, FileSteps(a, chunks));
    Outside(m, m', a) && Good(m', a) && Contents(m', a) == Flatten(chunks) && WriteOnce(m, FileSteps(a, chunks))
  }

  /** A file that fits, written in any pieces. */
  lemma {:induction false} FileWritten(m: Memory, a: Area, chunks: seq<seq<byte>>)
    requires ValidArea(a, |m|) && MaskFits(a) && HEADER + |Flatten(chunks)| <= a.size
    ensures |Flatten(chunks)| < 0x1_0000_0000 && FileOk(m, a, chunks)
  {
    hide After, Writing, WriteOnce, ChunkSteps, ValidArea, Crc, Header, Good, Contents, Run, Blank, MaskFits;
    AreaErases(a, |m|);
    var data := Flatten(chunks);
    var open, body := Erase(a.base, a.erase), ChunkSteps(a.erase, a.base + HEADER, chunks);
    var close := Write(a.base, Header(|data|, Crc(0, data)));
    var m1 := After(m, open);
    Opened(m, a);
    FirstBlockEnd(a, |m|);
    var end := ChunksWritten(m, m1, a, [], a.base + a.erase, chunks);
    assert [] + data == data;
    var m2 := Run(m1, body);
    Closed(m, m2, a, data, end);
    WritingBlank(m, m2, a, data, end);
    WriteOnceOne(m, open);
    WriteOnceOne(m2, close);
    RunAppend(m, [open], body);
    RunAppend(m, [open] + body, [close]);
    WriteOnceAppend(m, [open], body);
    WriteOnceAppend(m, [open] + body, [close]);
  }

  lemma {:induction false} FirstBlockEnd(a: Area, memory: nat)
    requires ValidArea(a, memory)
    ensures BlockEnd(a.base + HEADER, a.erase, a.base + a.erase)
  {
    AreaBounds(a, memory);
    BlockStep(a.base, a.erase, HEADER);
  }

  // ----- interrupted writes -------------------------------------------------------------------

  /** The header is erased; nothing outside the region has changed. */
  predicate Torn(m0: Memory, m: Memory, a: Area) {
    Outside(m0, m, a) && Blank(m, a.base, a.base + HEADER)
  }

  /** An erased header never makes a good file: the size it shows is larger than the region. */
  lemma {:induction false} TornIsBad(m0: Memory, m: Memory, a: Area)
    requires ValidArea(a, |m|) && Torn(m0, m, a)
    ensures !Good(m, a)
  {
    hide Crc;
    AreaBounds(a, |m|);
    assert Read32(m, a.base) == 0xFFFF_FFFF;
  }

  /** All steps stay within the region and off the header. */
  predicate Inside(a: Area, steps: seq<Step>) {
    forall s :: s in steps ==> a.base + HEADER <= s.addr && EndOf(s) <= a.base + a.size
  }

  lemma {:induction false} PagesInside(a: Area, addr: nat, data: seq<byte>)
    requires a.base + HEADER <= addr && addr + |data| <= a.base + a.size
    ensures Inside(a, PageSteps(addr, data))
    decreases |data|
  {
    if |data| > PAGE - addr % PAGE { PagesInside(a, addr + (PAGE - addr % PAGE), data[PAGE - addr % PAGE..]); }
  }

  lemma {:induction false} BufferInside(a: Area, memory: nat, addr: nat, data: seq<byte>)
    requires ValidArea(a, memory) && MaskFits(a) && a.base + HEADER <= addr && addr + |data| <= a.base + a.size
    ensures Inside(a, WriteSteps(a.erase, addr, data))
    decreases |data|
  {
    hide ValidArea, PageSteps, Mask, MaskFits;
    AreaErases(a, memory);
    if data != [] {
      var room := a.erase - Mask(addr, a.erase);
      var n := if |data| < room then |data| else room;
      MaskAt(a, addr);
      if addr % a.erase == 0 { BlockFits(a, memory, addr); }
      PagesInside(a, addr, data[..n]);
      BufferInside(a, memory, addr + n, data[n..]);
    }
  }

  lemma {:induction false} ChunksInside(a: Area, memory: nat, addr: nat, chunks: seq<seq<byte>>)
    requires ValidArea(a, memory) && MaskFits(a) && a.base + HEADER <= addr && addr + |Flatten(chunks)| <= a.base + a.size
    ensures Inside(a, ChunkSteps(a.erase, addr, chunks))
    decreases |chunks|
  {
    hide ValidArea, WriteSteps, MaskFits;
    AreaErases(a, memory);
    if chunks != [] {
      BufferInside(a, memory, addr, chunks[0]);
      ChunksInside(a, memory, addr + |chunks[0]|, chunks[1..]);
    }
  }

  lemma {:induction false} StepTorn(m0: Memory, m: Memory, a: Area, s: Step)
    requires Torn(m0, m, a) && a.base + HEADER <= s.addr && EndOf(s) <= a.base + a.size
    ensures Torn(m0, After(m, s), a)
  {
    hide And;
  }

  lemma {:induction false} StepsTorn(m0: Memory, m: Memory, a: Area, steps: seq<Step>)
    requires Torn(m0, m, a) && Inside(a, steps)
    ensures Torn(m0, Run(m, steps), a)
    decreases |steps|
  {
    hide Torn, After;
    if steps != [] {
      assert steps[0] in steps && forall s :: s in steps[1..] ==> s in steps;
      StepTorn(m0, m, a, steps[0]);
      StepsTorn(m0, After(m, steps[0]), a, steps[1..]);
    }
  }

  /** Power lost in the middle of a write, after the first operation and before the last: the file
      reads bad and nothing outside its region has changed. */
  lemma {:induction false} FileTorn(m: Memory, a: Area, chunks: seq<seq<byte>>, k: nat)
    requires ValidArea(a, |m|) && MaskFits(a) && HEADER + |Flatten(chunks)| <= a.size
    ensures |Flatten(chunks)| < 0x1_0000_0000 && 0 < a.erase
    ensures 0 < k < |FileSteps(a, chunks)| ==>
              var m' := Run(m, FileSteps(a, chunks)[..k]);
              Outside(m, m', a) && !Good(m', a)
  {
    hide After, Torn, ValidArea, Good, ChunkSteps, Header, Crc, Run, MaskFits;
    AreaErases(a, |m|);
    if 0 < k < |FileSteps(a, chunks)| {
      var open, body := Erase(a.base, a.erase), ChunkSteps(a.erase, a.base + HEADER, chunks);
      var part := body[..k - 1];
      assert FileSteps(a, chunks)[..k] == [open] + part;
      RunAppend(m, [open], part);
      WriteOnceOne(m, open);
      var m1 := After(m, open);
      assert Torn(m, m1, a) by { OpenTorn(m, a); }
      ChunksInside(a, |m|, a.base + HEADER, chunks);
      assert Inside(a, part) by { assert forall s :: s in part ==> s in body; }
      StepsTorn(m, m1, a, part);
      TornIsBad(m, Run(m1, part), a);
      TornOutside(m, Run(m1, part), a);
    }
  }

  lemma {:induction false} OpenTorn(m: Memory, a: Area)
    requires ValidArea(a, |m|)
    ensures Torn(m, After(m, Erase(a.base, a.erase)), a)
  {
    AreaBounds(a, |m|);
  }

  lemma {:induction false} TornOutside(m0: Memory, m: Memory, a: Area)
    requires Torn(m0, m, a)
    ensures Outside(m0, m, a)
  {}

  // ----- operations ---------------------------------------------------------------------------

  class CheckedFile {
    var area: Area
    var crc: u32
    var size: u32

    constructor ()
    {
      area, crc, size := Area(0, 0, 0), 0, 0;
    }

    /** Erases the first block. */
    method WriteOpen(chip: Chip, a: Area) returns (rtn: int)
      requires ValidArea(a, |chip.mem|)
      modifies this, chip
      ensures rtn == 0 && area == a && crc == 0 && size == 0
      ensures chip.Did(old(chip.mem), old(chip.history), [Erase(a.base, a.erase)])
    {
      area, crc, size := a, 0, 0;
      AreaBounds(a, |chip.mem|);
      rtn := chip.McuErase(a.base, a.erase);
    }

    /** One turn of the write loop: erases where the masked address is zero, and writes. */
    method WriteBlock(chip: Chip, address: nat, bytes: seq<byte>)
      requires 0 < area.erase && area.erase % SECTOR == 0 && |chip.mem| % PAGE == 0 && address + |bytes| <= |chip.mem|
      requires Mask(address, area.erase) == 0 ==> address + area.erase <= |chip.mem|
      modifies chip
      ensures |chip.mem| == old(|chip.mem|)
      ensures chip.Did(old(chip.mem), old(chip.history),
                       (if Mask(address, area.erase) == 0 then [Erase(address, area.erase)] else []) + PageSteps(address, bytes))
    {
      hide Made, Run, States, PageSteps, Mask;
      ghost var m, h := chip.mem, chip.history;
      ghost var front: seq<Step> := [];
      MadeNone(m, h);
      if Mask(address, area.erase) == 0 {
        MaskSector(address, area.erase);
        var _ := chip.McuErase(address, area.erase);
        front := [Erase(address, area.erase)];
      }
      MadeSize(m, h, front, chip.mem, chip.history);
      ghost var m1, h1 := chip.mem, chip.history;
      chip.McuWrite(address, bytes);
      MadeSize(m1, h1, PageSteps(address, bytes), chip.mem, chip.history);
      MadeMore(m, h, front, m1, h1, PageSteps(address, bytes), chip.mem, chip.history);
    }

    method Write(chip: Chip, buffer: seq<byte>) returns (rtn: int)
      requires 0 < area.erase && area.erase % SECTOR == 0 && |chip.mem| % PAGE == 0 && size + |buffer| < 0x1_0000_0000
      requires OnChip(WriteSteps(area.erase, area.base + HEADER + size, buffer), |chip.mem|)
      modifies this, chip
      ensures rtn == 0 && area == old(area) && crc == Crc(old(crc), buffer) && size == old(size) + |buffer|
      ensures |chip.mem| == old(|chip.mem|)
      ensures chip.Did(old(chip.mem), old(chip.history), WriteSteps(area.erase, area.base + HEADER + old(size), buffer))
    {
      hide Crc, Made, Run, States, PageSteps, WriteSteps, Mask, OnChip;
      crc := Crc32Check(crc, buffer);
      var address := area.base + HEADER + size;
      ghost var start := address;
      size := size + |buffer|;
      rtn := 0;
      var rest := buffer;
      ghost var done: seq<Step> := [];
      MadeNone(chip.mem, chip.history);
      while rest != []
        invariant address + |rest| == area.base + HEADER + size && start <= address && |chip.mem| == old(|chip.mem|)
        invariant area == old(area) && size == old(size) + |buffer| && crc == Crc(old(crc), buffer) && rtn == 0
        invariant chip.Did(old(chip.mem), old(chip.history), done)
        invariant WriteSteps(area.erase, start, buffer) == done + WriteSteps(area.erase, address, rest)
        invariant OnChip(WriteSteps(area.erase, address, rest), |chip.mem|)
        decreases |rest|
      {
        ghost var m, h := chip.mem, chip.history;
        var len := area.erase - Mask(address, area.erase);
        if |rest| < len { len := |rest|; }
        BlockOnChip(area.erase, address, rest, len, |chip.mem|);
        ghost var steps := (if Mask(address, area.erase) == 0 then [Erase(address, area.erase)] else []) + PageSteps(address, rest[..len]);
        WriteBlock(chip, address, rest[..len]);
        MadeMore(old(chip.mem), old(chip.history), done, m, h, steps, chip.mem, chip.history);
        BlockSteps(area.erase, address, rest, len);
        assert done + (steps + WriteSteps(area.erase, address + len, rest[len..])) == done + steps + WriteSteps(area.erase, address + len, rest[len..]);
        done := done + steps;
        address := address + len;
        rest := rest[len..];
      }
      NoWriteSteps(area.erase, address);
      assert done + [] == done;
    }

    /** Writes the header. */
    method WriteClose(chip: Chip) returns (rtn: int)
      requires ValidArea(area, |chip.mem|) && |chip.mem| % PAGE == 0
      modifies chip
      ensures rtn == 0 && chip.Did(old(chip.mem), old(chip.history), [Flash.Write(area.base, Header(size, crc))])
    {
      hide Made, Header;
      AreaBounds(area, |chip.mem|);
      OnePage(area.base, Header(size, crc));
      chip.McuWrite(area.base, Header(size, crc));
      rtn := 0;
    }

    /** Accepts exactly the good files, whatever the size of the buffer. */
    method ReadOpen(chip: Chip, a: Area, bufsize: nat) returns (rtn: int)
      requires ValidArea(a, |chip.mem|) && HEADER <= bufsize
      modifies this
      ensures area == a && size == SizeOf(chip.mem, a)
      ensures rtn == if Good(chip.mem, a) then 0 else -1
    {
      hide Crc, ValidArea, Read32;
      AreaBounds(a, |chip.mem|);
      area := a;
      var buffer := chip.Read(a.base, HEADER);
      HeaderRead(chip.mem, a.base);
      size := Read32(buffer, 0);
      crc := Read32(buffer, 4);
      if size > a.size - HEADER { return -1; }
      var left := size;
      var addr := HEADER + a.base;
      var sum: u32 := 0;
      CrcNone(0);
      assert chip.mem[a.base + HEADER..addr] == [];
      while left > 0
        invariant area == a && size == SizeOf(chip.mem, a) <= a.size - HEADER && crc == Read32(chip.mem, a.base + 4)
        invariant 0 <= left <= size && addr + left == a.base + HEADER + size
        invariant sum == Crc(0, chip.mem[a.base + HEADER..addr])
      {
        var len := if left > bufsize then bufsize else left;
        buffer := chip.Read(addr, len);
        CrcAppend(0, chip.mem[a.base + HEADER..addr], buffer);
        PieceMore(chip.mem, a.base + HEADER, addr, len);
        sum := Crc32Check(sum, buffer);
        left := left - len;
        addr := addr + len;
      }
      if sum != crc { return -1; }
      return 0;
    }

    /** Reads a block of the file, less at its end. */
    method Read(chip: Chip, offset: nat, bufsize: nat) returns (bytes: seq<byte>)
      requires offset <= size
      requires area.base + HEADER + size <= |chip.mem| || area.base + HEADER + offset + bufsize <= |chip.mem|
      ensures var n := if offset + bufsize > size then size - offset else bufsize;
              bytes == chip.mem[area.base + HEADER + offset..area.base + HEADER + offset + n]
    {
      var len := bufsize;
      if offset + len > size { len := size - offset; }
      bytes := [];
      if len > 0 { bytes := chip.Read(area.base + HEADER + offset, len); }
    }
  }

  lemma {:induction false} MadeSize(m: Memory, h: seq<Memory>, steps: seq<Step>, m': Memory, h': seq<Memory>)
    requires Made(m, h, steps, m', h')
    ensures |m'| == |m|
  {}

  lemma {:induction false} NoWriteSteps(erase: nat, addr: nat)
    requires 0 < erase
    ensures WriteSteps(erase, addr, []) == []
  {}

  lemma {:induction false} BlockSteps(erase: nat, addr: nat, data: seq<byte>, n: nat)
    requires 0 < erase && data != [] && n == if |data| < erase - Mask(addr, erase) then |data| else erase - Mask(addr, erase)
    ensures WriteSteps(erase, addr, data)
         == (if Mask(addr, erase) == 0 then [Erase(addr, erase)] else []) + PageSteps(addr, data[..n]) + WriteSteps(erase, addr + n, data[n..])
  {
    hide PageSteps, Mask;
  }

  lemma {:induction false} BlockOnChip(erase: nat, addr: nat, data: seq<byte>, n: nat, memory: nat)
    requires 0 < erase && data != [] && n == if |data| < erase - Mask(addr, erase) then |data| else erase - Mask(addr, erase)
    requires OnChip(WriteSteps(erase, addr, data), memory)
    ensures addr + n <= memory && (Mask(addr, erase) == 0 ==> addr + erase <= memory)
    ensures OnChip(WriteSteps(erase, addr + n, data[n..]), memory)
  {
    hide PageSteps, Mask, WriteSteps;
    BlockSteps(erase, addr, data, n);
    var steps, pages := WriteSteps(erase, addr, data), PageSteps(addr, data[..n]);
    assert forall s :: s in pages ==> s in steps;
    assert forall s :: s in WriteSteps(erase, addr + n, data[n..]) ==> s in steps;
    if Mask(addr, erase) == 0 { assert Erase(addr, erase) in steps; }
    PagesReach(addr, data[..n], memory);
  }

  lemma {:induction false} PagesReach(addr: nat, data: seq<byte>, memory: nat)
    requires OnChip(PageSteps(addr, data), memory) && data != []
    ensures addr + |data| <= memory
    decreases |data|
  {
    var room := PAGE - addr % PAGE;
    if |data| <= room {
      assert Write(addr, data) in PageSteps(addr, data);
    } else {
      assert forall s :: s in PageSteps(addr + room, data[room..]) ==> s in PageSteps(addr, data);
      PagesReach(addr + room, data[room..], memory);
    }
  }

  lemma {:induction false} OnePage(addr: nat, h: seq<byte>)
    requires addr % SECTOR == 0 && |h| == HEADER
    ensures PageSteps(addr, h) == [Write(addr, h)]
  {
    assert addr % PAGE == 0;
  }

  lemma {:induction false} HeaderRead(m: Memory, base: nat)
    requires base + HEADER <= |m|
    ensures Read32(m[base..base + HEADER], 0) == Read32(m, base) && Read32(m[base..base + HEADER], 4) == Read32(m, base + 4)
  {}
}
