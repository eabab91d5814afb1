/** Exactly which areas the mask of the write loop serves. */
module EraseMask {
  import opened Bits
  import opened Bitwise
  import opened Flash
  import opened EraseBlocks
  import opened Crc32
  import opened Checked

  // ----- cells --------------------------------------------------------------------------------

  predicate Clears(s: Step, q: nat) {
    s.Erase? && s.addr <= q < s.addr + s.count
  }

  predicate Programs(s: Step, q: nat) {
    s.Write? && s.addr <= q < s.addr + |s.bytes|
  }

  /** Some step erases the cell. */
  predicate Erased(steps: seq<Step>, q: nat) {
    exists s :: s in steps && Clears(s, q)
  }

  /** Some step writes the cell. */
  predicate Written(steps: seq<Step>, q: nat) {
    exists s :: s in steps && Programs(s, q)
  }

  lemma {:induction false} ErasedJoin(x: seq<Step>, y: seq<Step>, q: nat)
    ensures Erased(x + y, q) <==> Erased(x, q) || Erased(y, q)
    ensures Written(x + y, q) <==> Written(x, q) || Written(y, q)
  {
    hide Clears, Programs;
    assert forall s :: s in x + y <==> s in x || s in y;
  }

  lemma {:induction false} ErasedOne(s: Step, q: nat)
    ensures Erased([s], q) <==> Clears(s, q)
    ensures Written([s], q) <==> Programs(s, q)
  {
    hide Clears, Programs;
    assert s in [s];
  }

  lemma {:induction false} CellAfter(m: Memory, s: Step, q: nat)
    requires q < |m|
    ensures Clears(s, q) ==> After(m, s)[q] == 255
    ensures !Clears(s, q) && !Programs(s, q) ==> After(m, s)[q] == m[q]
    ensures !Clears(s, q) && m[q] == 0 ==> After(m, s)[q] == 0
  {}

  /** A cell that is zero and never erased stays zero, whatever is written. */
  lemma {:induction false} StaysZero(m: Memory, steps: seq<Step>, q: nat)
    requires q < |m| && m[q] == 0 && !Erased(steps, q)
    ensures Run(m, steps)[q] == 0
    decreases |steps|
  {
    hide After, Clears, Programs;
    if steps != [] {
      assert steps[0] in steps && forall s :: s in steps[1..] ==> s in steps;
      CellAfter(m, steps[0], q);
      StaysZero(After(m, steps[0]), steps[1..], q);
    }
  }

  /** A cell that is erased, or was, and never written is erased in the end. */
  lemma {:induction false} StaysErased(m: Memory, steps: seq<Step>, q: nat)
    requires q < |m| && (m[q] == 255 || Erased(steps, q)) && !Written(steps, q)
    ensures Run(m, steps)[q] == 255
    decreases |steps|
  {
    hide After, Clears, Programs;
    if steps != [] {
      assert steps[0] in steps && forall s :: s in steps[1..] ==> s in steps;
      CellAfter(m, steps[0], q);
      StaysErased(After(m, steps[0]), steps[1..], q);
    }
  }

  // ----- the steps of a write -----------------------------------------------------------------

  lemma {:induction false} PagesReachNo(addr: nat, data: seq<byte>, q: nat)
    ensures !Erased(PageSteps(addr, data), q)
    ensures q < addr || addr + |data| <= q ==> !Written(PageSteps(addr, data), q)
    decreases |data|
  {
    hide Erased, Written;
    if data == [] {
      NothingErased(q);
    } else {
      var room := PAGE - addr % PAGE;
      if |data| <= room {
        ErasedOne(Write(addr, data), q);
      } else {
        ErasedOne(Write(addr, data[..room]), q);
        ErasedJoin([Write(addr, data[..room])], PageSteps(addr + room, data[room..]), q);
        PagesReachNo(addr + room, data[room..], q);
      }
    }
  }

  /** Length of one turn of the write loop. */
  function Turn(erase: nat, addr: nat, data: seq<byte>): (n: nat)
    requires 0 < erase && data != []
    ensures 0 < n <= |data|
  {
    if |data| < erase - Mask(addr, erase) then |data| else erase - Mask(addr, erase)
  }

  /** What one turn of the loop and what the turns after it erase and write. */
  lemma {:induction false} TurnErases(e: nat, addr: nat, data: seq<byte>, q: nat)
    requires 0 < e && data != []
    ensures var rest := WriteSteps(e, addr + Turn(e, addr, data), data[Turn(e, addr, data)..]);
            && (Erased(WriteSteps(e, addr, data), q) <==> (Mask(addr, e) == 0 && addr <= q < addr + e) || Erased(rest, q))
            && (Written(WriteSteps(e, addr, data), q) ==> addr <= q < addr + |data| || Written(rest, q))
  {
    hide PageSteps, WriteSteps, Mask, Erased, Written;
    var n := Turn(e, addr, data);
    var front, pages, rest := if Mask(addr, e) == 0 then [Erase(addr, e)] else [], PageSteps(addr, data[..n]), WriteSteps(e, addr + n, data[n..]);
    BlockSteps(e, addr, data, n);
    ErasedJoin(front + pages, rest, q);
    ErasedJoin(front, pages, q);
    PagesReachNo(addr, data[..n], q);
    ErasedOne(Erase(addr, e), q);
    NothingErased(q);
  }

  lemma {:induction false} NothingErased(q: nat)
    ensures !Erased([], q) && !Written([], q)
  {}

  /** Erases start within the data, writes stay within it. */
  lemma {:induction false} WriteReach(e: nat, addr: nat, data: seq<byte>, q: nat)
    requires 0 < e
    ensures Erased(WriteSteps(e, addr, data), q) ==> addr <= q < addr + |data| + e - 1
    ensures Written(WriteSteps(e, addr, data), q) ==> addr <= q < addr + |data|
    decreases |data|
  {
    hide WriteSteps, Mask, Erased, Written;
    if data == [] {
      NoWriteSteps(e, addr);
      NothingErased(q);
    } else {
      var n := Turn(e, addr, data);
      TurnErases(e, addr, data, q);
      WriteReach(e, addr + n, data[n..], q);
    }
  }

  /** A start with an offset is not erased. */
  lemma {:induction false} StartKept(e: nat, addr: nat, data: seq<byte>)
    requires 0 < e && Mask(addr, e) != 0
    ensures !Erased(WriteSteps(e, addr, data), addr)
  {
    hide WriteSteps, Mask, Erased, Written;
    if data == [] {
      NoWriteSteps(e, addr);
      NothingErased(addr);
    } else {
      var n := Turn(e, addr, data);
      TurnErases(e, addr, data, addr);
      WriteReach(e, addr + n, data[n..], addr);
    }
  }

  // ----- two ways to fail ---------------------------------------------------------------------

  /** Starting where the mask is zero within a block, a write to the end of the area either erases the cell
      behind the area or leaves a cell of the area unerased. */
  lemma {:induction false} Astray(e: nat, x: nat, end: nat, data: seq<byte>) returns (q: nat)
    requires 0 < e && end % e == 0 && x % e != 0 && Mask(x, e) == 0 && x < end && |data| == end - x
    ensures (q == end && Erased(WriteSteps(e, x, data), q)) || (x + e <= q < end && !Erased(WriteSteps(e, x, data), q))
    decreases end - x
  {
    hide WriteSteps, Mask, Erased, Written;
    if end < x + e {
      q := end;
      TurnErases(e, x, data, q);
    } else {
      assert x + e != end by { if x + e == end { OneBack(x, e); } }
      assert Turn(e, x, data) == e;
      if Mask(x + e, e) != 0 {
        q := x + e;
        StartKept(e, x + e, data[e..]);
      } else {
        assert (x + e) % e != 0 by { if (x + e) % e == 0 { OneBack(x, e); } }
        q := Astray(e, x + e, end, data[e..]);
      }
      TurnErases(e, x, data, q);
    }
  }

  lemma {:induction false} OneBack(x: nat, e: nat)
    requires 0 < e && (x + e) % e == 0
    ensures x % e == 0
  {
    var k := (x + e) / e;
    Multiple(x + e, e);
    Further(e, 0, k);
    assert x == e * (k - 1);
    ModOf(e, k - 1, 0);
  }

  /** If the mask is zero nowhere within the blocks, the start of a block where it is not zero is not erased. */
  lemma {:induction false} Missed(e: nat, addr: nat, data: seq<byte>, x: nat)
    requires 0 < e && x % e == 0 && Mask(x, e) != 0
    requires forall y: nat :: addr <= y < addr + |data| && Mask(y, e) == 0 ==> y % e == 0
    ensures !Erased(WriteSteps(e, addr, data), x)
    decreases |data|
  {
    hide WriteSteps, Mask, Erased, Written;
    if data == [] {
      NoWriteSteps(e, addr);
      NothingErased(x);
    } else {
      var n := Turn(e, addr, data);
      TurnErases(e, addr, data, x);
      Missed(e, addr + n, data[n..], x);
      if Mask(addr, e) == 0 && addr <= x < addr + e { SameBlock(addr, x, e); }
    }
  }

  // ----- the exact condition ------------------------------------------------------------------

  /** Every file that fits the area, written in any pieces to any flash, comes out right. */
  ghost predicate Sound(a: Area) {
    forall m: Memory, chunks: seq<seq<byte>> ::
      ValidArea(a, |m|) && HEADER + |Flatten(chunks)| <= a.size ==> |Flatten(chunks)| < 0x1_0000_0000 && FileOk(m, a, chunks)
  }

  function Full(n: nat): (data: seq<byte>)
    ensures |data| == n && forall i :: 0 <= i < n ==> data[i] == 255
  {
    seq(n, _ => 255)
  }

  lemma {:induction false} TwoPieces(e: nat, addr: nat, x: seq<byte>, y: seq<byte>)
    requires 0 < e
    ensures Flatten([x, y]) == x + y && ChunkSteps(e, addr, [x, y]) == WriteSteps(e, addr, x) + WriteSteps(e, addr + |x|, y)
  {
    hide WriteSteps;
    assert [x, y][1..] == [y] && [y][1..] == [];
    assert ChunkSteps(e, addr + |x|, [y]) == WriteSteps(e, addr + |x|, y) + [];
    assert Flatten([y]) == y + [];
  }

  /** What a file in two pieces erases and writes. */
  lemma {:induction false} FileCells(a: Area, x: seq<byte>, y: seq<byte>, q: nat)
    requires 0 < a.erase && |x| + |y| < 0x1_0000_0000
    ensures Flatten([x, y]) == x + y
    ensures var p := a.base + HEADER; var steps := FileSteps(a, [x, y]);
            && (Erased(steps, q) <==> a.base <= q < a.base + a.erase || Erased(WriteSteps(a.erase, p, x), q) || Erased(WriteSteps(a.erase, p + |x|, y), q))
            && (Written(steps, q) ==> a.base <= q < p + |x| + |y|)
  {
    hide WriteSteps, ChunkSteps, Erased, Written, Crc, Header;
    var p, e := a.base + HEADER, a.erase;
    TwoPieces(e, p, x, y);
    var u, v := WriteSteps(e, p, x), WriteSteps(e, p + |x|, y);
    var open, close := Erase(a.base, e), Write(a.base, Header(|x + y|, Crc(0, x + y)));
    assert FileSteps(a, [x, y]) == [open] + (u + v) + [close];
    ErasedJoin([open] + (u + v), [close], q);
    ErasedJoin([open], u + v, q);
    ErasedJoin(u, v, q);
    ErasedOne(open, q);
    ErasedOne(close, q);
    WriteReach(e, p, x, q);
    WriteReach(e, p + |x|, y, q);
  }

  lemma {:induction false} ContentsAt(m: Memory, a: Area, i: nat)
    requires ValidArea(a, |m|) && Good(m, a) && i < |Contents(m, a)|
    ensures a.base + HEADER + i < |m| && Contents(m, a)[i] == m[a.base + HEADER + i]
  {
    hide Crc, Read32;
  }

  lemma {:induction false} AreaElsewhere(a: Area, memory: nat, memory': nat)
    requires ValidArea(a, memory) && memory <= memory'
    ensures ValidArea(a, memory') && 0 < a.erase && a.size < 0x1_0000_0000
  {}

  /** A full file of ones over zeros: it needs every cell of the area erased and none behind it. */
  lemma {:induction false} Fails(a: Area, n: nat, q: nat)
    requires ValidArea(a, a.base + a.size) && HEADER + n <= a.size
    requires var p := a.base + HEADER; var x, y := Full(n), Full(a.size - HEADER - n);
             var erased := a.base <= q < a.base + a.erase || Erased(WriteSteps(a.erase, p, x), q) || Erased(WriteSteps(a.erase, p + n, y), q);
             (q == a.base + a.size && erased) || (p <= q < a.base + a.size && !erased)
    ensures !Sound(a)
  {
    hide WriteSteps, Erased, Written, Run, FileSteps, Good, Contents, WriteOnce, ValidArea;
    AreaElsewhere(a, a.base + a.size, a.base + a.size + 1);
    var end := a.base + a.size;
    var x, y := Full(n), Full(a.size - HEADER - n);
    var m, chunks: seq<seq<byte>> := seq(end + 1, _ => 0), [x, y];
    FileCells(a, x, y, q);
    var steps := FileSteps(a, chunks);
    if FileOk(m, a, chunks) {
      if q == end {
        StaysErased(m, steps, q);
      } else {
        StaysZero(m, steps, q);
        ContentsAt(Run(m, steps), a, q - (a.base + HEADER));
      }
    }
  }

  /** Every file comes out right if and only if the mask finds the blocks of the area. */
  lemma {:induction false} MaskExact(a: Area)
    requires ValidArea(a, a.base + a.size)
    ensures Sound(a) <==> MaskFits(a)
  {
    hide Mask, FileOk, Erased, WriteSteps;
    if MaskFits(a) {
      hide MaskFits;
      forall m: Memory, chunks: seq<seq<byte>> | ValidArea(a, |m|) && HEADER + |Flatten(chunks)| <= a.size
        ensures |Flatten(chunks)| < 0x1_0000_0000 && FileOk(m, a, chunks)
      {
        FileWritten(m, a, chunks);
      }
    } else {
      NotSound(a);
    }
  }

  lemma {:induction false} NotSound(a: Area)
    requires ValidArea(a, a.base + a.size) && !MaskFits(a)
    ensures !Sound(a)
  {
    hide Mask, FileOk, Erased, WriteSteps, Sound;
    var e, end, p := a.erase, a.base + a.size, a.base + HEADER;
    AreaBounds(a, end);
    SumOfMultiples(a.base, a.size, e);
    if x: nat :| a.base < x < end && Mask(x, e) == 0 && x % e != 0 {
      MaskSector(x, e);
      SectorApart(a.base, x);
      var front, rest := Full(x - p), Full(end - x);
      var q := Astray(e, x, end, rest);
      WriteReach(e, p, front, q);
      Fails(a, x - p, q);
    } else {
      var x: nat :| a.base < x < end && Mask(x, e) != 0 && x % e == 0;
      ModMod(x, e);
      SectorApart(a.base, x);
      var none, all := Full(0), Full(a.size - HEADER);
      Missed(e, p, none, x);
      Missed(e, p, all, x);
      if x < a.base + e { SameBlock(a.base, x, e); }
      Fails(a, 0, x);
    }
  }

  lemma {:induction false} SectorApart(b: nat, x: nat)
    requires b % SECTOR == 0 && x % SECTOR == 0 && b < x
    ensures b + SECTOR <= x
  {}
}
