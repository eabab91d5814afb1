/** Two banks with erase blocks of three sectors: a save into one of them erases the other. */
module UnevenBanks {
  import opened Bits
  import opened Bitwise
  import opened Flash
  import opened EraseBlocks
  import opened Checked
  import opened EraseMask
  import opened Database

  const ERASE: nat := 0x3000

  const BANKS: Config := Config(Area(0, 0x9000, ERASE), Area(0x9000, 0x9000, ERASE), 256)

  lemma {:induction false} BanksValid(memory: nat)
    requires 0x12000 <= memory && memory % PAGE == 0
    ensures ValidConfig(BANKS, memory)
  {}

  lemma {:induction false} MaskTwice(x: nat, e: nat)
    requires 0 < e
    ensures Mask(2 * x, 2 * e) == 2 * Mask(x, e)
  {
    hide Mask;
    MaskHalf(2 * x, 2 * e);
    assert 2 * x / 2 == x && 2 * e / 2 == e && 2 * x % 2 == 0;
  }

  lemma {:induction false} MaskScaled(x: nat, e: nat)
    requires 0 < e
    ensures Mask(16 * x, 16 * e) == 16 * Mask(x, e)
  {
    hide Mask;
    MaskTwice(8 * x, 8 * e);
    MaskTwice(4 * x, 4 * e);
    MaskTwice(2 * x, 2 * e);
    MaskTwice(x, e);
  }

  lemma {:induction false} SectorMask(j: nat)
    ensures Mask(SECTOR * j, ERASE) == SECTOR * Mask(j, 3)
  {
    hide Mask;
    MaskScaled(j, 3);
    MaskScaled(16 * j, 48);
    MaskScaled(256 * j, 768);
  }

  /** The mask is not the remainder: it misses the start of the second block and finds starts in the middle of blocks. */
  lemma {:induction false} MaskParts()
    ensures Mask(0x3000, ERASE) == 0x2000 && 0x3000 % ERASE == 0
    ensures Mask(0x4000, ERASE) == 0 && 0x4000 % ERASE == 0x1000
    ensures Mask(0x7000, ERASE) == 0x2000 && Mask(0x8000, ERASE) == 0 && 0x8000 % ERASE == 0x2000
  {
    SectorMask(3);
    SectorMask(4);
    SectorMask(7);
    SectorMask(8);
    assert Mask(3, 3) == 2 && Mask(4, 3) == 0 && Mask(7, 3) == 2 && Mask(8, 3) == 0;
  }

  /** An area of one such block can do without: here the mask is zero nowhere behind its start. */
  lemma {:induction false} OneBlockFits()
    ensures MaskFits(Area(0x9000, ERASE, ERASE)) && !IsPow2(ERASE)
  {
    hide IsPow2, Mask;
    ScaledPow2(3);
    ScaledPow2(48);
    ScaledPow2(768);
    TwoMore();
    forall x: nat | 0x9000 < x < 0xc000 ensures Mask(x, ERASE) != 0 && x % ERASE != 0 {
      if Mask(x, ERASE) == 0 { MaskSector(x, ERASE); }
    }
  }

  lemma {:induction false} TwoMore()
    ensures Mask(0xa000, ERASE) == 0x2000 && Mask(0xb000, ERASE) == 0x2000 && !IsPow2(3)
  {
    SectorMask(10);
    SectorMask(11);
    assert Mask(10, 3) == 2 && Mask(11, 3) == 2;
  }

  lemma {:induction false} ScaledPow2(e: nat)
    requires 1 < e
    ensures IsPow2(16 * e) <==> IsPow2(e)
  {
    hide IsPow2;
    TwicePow2(8 * e);
    TwicePow2(4 * e);
    TwicePow2(2 * e);
    TwicePow2(e);
  }

  lemma {:induction false} TwicePow2(e: nat)
    requires 1 < e
    ensures IsPow2(2 * e) <==> IsPow2(e)
  {
    assert 2 * e / 2 == e && 2 * e % 2 == 0;
  }

  lemma {:induction false} MaskEight()
    ensures Mask(8, ERASE) == 8
  {
    hide Mask;
    MaskHalf(8, ERASE);
    MaskHalf(4, ERASE / 2);
    MaskHalf(2, ERASE / 4);
    MaskHalf(1, ERASE / 8);
    MaskZero(ERASE / 16);
  }

  lemma {:induction false} MaskZero(e: nat)
    requires 0 < e
    ensures Mask(0, e) == 0
  {}

  /** Written from the first byte on, more than 0x7ff8 bytes erase the three sectors from 0x8000 on. */
  lemma {:induction false} ErasesBehind(data: seq<byte>, q: nat)
    requires 0x7ff8 < |data| && 0x8000 <= q < 0xb000
    ensures Erased(WriteSteps(ERASE, HEADER, data), q)
  {
    hide Mask, WriteSteps, Erased;
    MaskEight();
    MaskParts();
    TurnErases(ERASE, 0x8, data, q);
    TurnErases(ERASE, 0x3000, data[0x2ff8..], q);
    assert data[0x2ff8..][0x1000..] == data[0x3ff8..];
    TurnErases(ERASE, 0x4000, data[0x3ff8..], q);
    assert data[0x3ff8..][0x3000..] == data[0x6ff8..];
    TurnErases(ERASE, 0x7000, data[0x6ff8..], q);
    assert data[0x6ff8..][0x1000..] == data[0x7ff8..];
    TurnErases(ERASE, 0x8000, data[0x7ff8..], q);
  }

  /** Whatever the flash holds, a save of that size into the first bank, cut off before its header, leaves nothing
      to load: the record in the second bank is gone too. */
  lemma {:induction false} BothLost(m: Memory, rev: byte, payload: seq<byte>)
    requires 0x12000 <= |m| && |m| % PAGE == 0 && rev % 2 == 1 && 0x7ff8 < 1 + |payload| && Fits(BANKS, payload)
    ensures ValidConfig(BANKS, |m|)
    ensures var steps := SaveSteps(BANKS, rev, payload, []);
            Chosen(Run(m, steps[..|steps| - 1]), BANKS) == Nothing
  {
    hide WriteSteps, Erased, Written, Run, Good;
    BanksValid(|m|);
    var data, a := Record(rev, payload), BANKS.bank0;
    assert Database.Split(data, []) == [data] && BankOf(BANKS, rev + 1) == a;
    var steps := SaveSteps(BANKS, rev, payload, []);
    FileStepsAre(a, [data]);
    var none: seq<seq<byte>> := [];
    assert [data][1..] == none;
    var open, body := [Erase(0, ERASE)], WriteSteps(ERASE, HEADER, data);
    assert ChunkSteps(ERASE, HEADER, [data]) == body + [];
    assert steps[..|steps| - 1] == open + body;
    var m' := Run(m, open + body);
    forall q: nat | q < 8 || 0x9000 <= q < 0x9008 ensures m'[q] == 255 {
      ErasedJoin(open, body, q);
      ErasedOne(Erase(0, ERASE), q);
      WriteReach(ERASE, HEADER, data, q);
      if 8 <= q { ErasesBehind(data, q); }
      StaysErased(m, open + body, q);
    }
    TornIsBad(m', m', BANKS.bank0);
    TornIsBad(m', m', BANKS.bank1);
  }
}
