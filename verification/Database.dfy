/** A database that survives power loss: two checked files written in turn. */
module Database {
  import opened Bits
  import opened Flash
  import opened Crc32
  import opened EraseBlocks
  import opened Checked
  import opened EraseMask

  datatype Config = Config(bank0: Area, bank1: Area, bufsize: nat)

  predicate ValidConfig(c: Config, memory: nat) {
    && ValidArea(c.bank0, memory) && ValidArea(c.bank1, memory) && memory % PAGE == 0
    && (c.bank0.base + c.bank0.size <= c.bank1.base || c.bank1.base + c.bank1.size <= c.bank0.base)
    && HEADER <= c.bufsize && HEADER + c.bufsize <= c.bank0.size && HEADER + c.bufsize <= c.bank1.size
  }

  /** The write loop finds the blocks of both banks. */
  ghost predicate Masked(c: Config)
    requires 0 < c.bank0.erase && 0 < c.bank1.erase
  {
    MaskFits(c.bank0) && MaskFits(c.bank1)
  }

  /** The bank that holds a revision. */
  function BankOf(c: Config, rev: nat): (a: Area)
    ensures a == c.bank0 || a == c.bank1
  {
    if rev % 2 == 1 then c.bank1 else c.bank0
  }

  function NextRev(rev: byte): (r: byte) { (rev + 1) % 256 }

  // ----- saving -------------------------------------------------------------------------------

  /** Data cut into buffers of the given lengths; the rest in one last buffer. */
  function Split(data: seq<byte>, lengths: seq<nat>): (chunks: seq<seq<byte>>)
    ensures Flatten(chunks) == data
    decreases |lengths|
  {
    if lengths == [] || |data| <= lengths[0] then
      FlattenOne(data);
      [data]
    else
      var rest := Split(data[lengths[0]..], lengths[1..]);
      FlattenMore(data[..lengths[0]], rest);
      [data[..lengths[0]]] + rest
  }

  lemma {:induction false} FlattenOne(x: seq<byte>)
    ensures Flatten([x]) == x
  {
    assert [x][1..] == [];
  }

  lemma {:induction false} FlattenMore(x: seq<byte>, rest: seq<seq<byte>>)
    ensures Flatten([x] + rest) == x + Flatten(rest)
  {
    assert ([x] + rest)[1..] == rest;
  }

  /** What a save writes: the new revision, then the serialized data. */
  function Record(rev: byte, payload: seq<byte>): (data: seq<byte>)
    ensures |data| == 1 + |payload|
  {
    [NextRev(rev)] + payload
  }

  predicate Fits(c: Config, payload: seq<byte>) {
    HEADER + 1 + |payload| <= c.bank0.size && HEADER + 1 + |payload| <= c.bank1.size
  }

  function SaveSteps(c: Config, rev: byte, payload: seq<byte>, lengths: seq<nat>): (steps: seq<Step>)
    requires 0 < c.bank0.erase && 0 < c.bank1.erase && |payload| + 1 < 0x1_0000_0000
    ensures |steps| >= 2
  {
    FileSteps(BankOf(c, rev + 1), Split(Record(rev, payload), lengths))
  }

  // ----- loading ------------------------------------------------------------------------------

  datatype Loaded = Nothing | Revision(rev: byte, payload: seq<byte>)

  /** The record of a file; an empty file reads as revision 255. */
  function Entry(data: seq<byte>): (r: Loaded)
    ensures r.Revision?
  {
    if data == [] then Revision(255, []) else Revision(data[0], data[1..])
  }

  /** (signed char)(x - y) >= 0 */
  predicate NotOlder(x: byte, y: byte) {
    (x - y) % 256 < 128
  }

  /** The record of a bank, if the bank is good. */
  function BankEntry(m: Memory, a: Area): (r: Loaded)
    requires ValidArea(a, |m|)
    ensures r.Revision? <==> Good(m, a)
  {
    if Good(m, a) then Entry(Contents(m, a)) else Nothing
  }

  function Newer(zero: Loaded, one: Loaded): (r: Loaded)
  {
    if zero.Revision? && one.Revision? then (if NotOlder(zero.rev, one.rev) then zero else one)
    else if one.Revision? then one
    else zero
  }

  /** What loading gives. */
  function Chosen(m: Memory, c: Config): (r: Loaded)
    requires ValidConfig(c, |m|)
  {
    Newer(BankEntry(m, c.bank0), BankEntry(m, c.bank1))
  }

  // ----- consistency --------------------------------------------------------------------------

  /** `last` is in its bank, the other bank is bad or holds the revision before it, and the revision
      in memory is that of `last`. */
  predicate Consistent(c: Config, m: Memory, rev: byte, last: Loaded)
    requires ValidConfig(c, |m|)
  {
    match last
    case Nothing => BankEntry(m, c.bank0).Nothing? && BankEntry(m, c.bank1).Nothing?
    case Revision(r, _) =>
      && rev == r && BankEntry(m, BankOf(c, r)) == last
      && var other := BankEntry(m, BankOf(c, r + 1));
         other.Revision? ==> NextRev(other.rev) == r
  }

  /** In a consistent memory loading gives `last`, also when the revision wraps around. */
  lemma {:induction false} ConsistentLoads(c: Config, m: Memory, rev: byte, last: Loaded)
    requires ValidConfig(c, |m|) && Consistent(c, m, rev, last)
    ensures Chosen(m, c) == last
  {
    hide BankEntry, ValidArea, NotOlder, NextRev, BankOf;
    if last.Revision? {
      var r: nat := last.rev;
      BankIs(c, r);
      BankIs(c, r + 1);
      var mine, other := BankEntry(m, BankOf(c, r)), BankEntry(m, BankOf(c, r + 1));
      if other.Revision? { Successor(r, other.rev); }
      assert r % 2 == 0 ==> mine == BankEntry(m, c.bank0) && other == BankEntry(m, c.bank1);
      assert r % 2 == 1 ==> mine == BankEntry(m, c.bank1) && other == BankEntry(m, c.bank0);
    }
  }

  /** A revision is newer than the one before it and not the other way round. */
  lemma {:induction false} Successor(x: byte, y: byte)
    requires NextRev(y) == x
    ensures NotOlder(x, y) && !NotOlder(y, x)
  {}

  /** A region that did not change has the same entry. */
  lemma {:induction false} SameEntry(m: Memory, m': Memory, a: Area)
    requires |m| == |m'| && ValidArea(a, |m|) && forall i :: a.base <= i < a.base + a.size ==> m'[i] == m[i]
    ensures BankEntry(m', a) == BankEntry(m, a)
  {
    hide Crc, ValidArea, Entry;
    AreaBounds(a, |m|);
    assert SizeOf(m', a) == SizeOf(m, a) && Read32(m', a.base + 4) == Read32(m, a.base + 4);
    if SizeOf(m, a) <= a.size - HEADER {
      assert Body(m', a, SizeOf(m, a)) == Body(m, a, SizeOf(m, a));
    }
  }

  /** Writing one bank does not touch the other. */
  lemma {:induction false} OtherBank(c: Config, m: Memory, m': Memory, r: nat)
    requires ValidConfig(c, |m|) && Outside(m, m', BankOf(c, r))
    ensures |m| == |m'| && BankEntry(m', BankOf(c, r + 1)) == BankEntry(m, BankOf(c, r + 1))
  {
    hide BankEntry, ValidArea;
    AreaBounds(BankOf(c, r + 1), |m|);
    SameEntry(m, m', BankOf(c, r + 1));
  }

  lemma {:induction false} ConfigBounds(c: Config, memory: nat, payload: seq<byte>)
    requires ValidConfig(c, memory) && Fits(c, payload)
    ensures 0 < c.bank0.erase && 0 < c.bank1.erase && |payload| + 1 < 0x1_0000_0000 && memory % PAGE == 0
    ensures forall r: nat :: ValidArea(BankOf(c, r), memory) && HEADER + 1 + |payload| <= BankOf(c, r).size
  {}

  lemma {:induction false} ConfigErases(c: Config, memory: nat)
    requires ValidConfig(c, memory)
    ensures 0 < c.bank0.erase && 0 < c.bank1.erase
  {}

  /** A save that was completed. */
  lemma {:induction false} SaveKeeps(c: Config, m: Memory, rev: byte, last: Loaded, payload: seq<byte>, lengths: seq<nat>)
    requires ValidConfig(c, |m|) && Masked(c) && Consistent(c, m, rev, last) && Fits(c, payload)
    ensures 0 < c.bank0.erase && 0 < c.bank1.erase && |payload| + 1 < 0x1_0000_0000
    ensures Consistent(c, Run(m, SaveSteps(c, rev, payload, lengths)), NextRev(rev), Revision(NextRev(rev), payload))
  {
    hide ValidConfig, ValidArea, FileSteps, Run, Good, Contents, Split, WriteOnce, Outside, MaskFits;
    ConfigBounds(c, |m|, payload);
    var data := Record(rev, payload);
    var a, chunks := BankOf(c, rev + 1), Split(data, lengths);
    FileWritten(m, a, chunks);
    var m' := Run(m, FileSteps(a, chunks));
    OtherBank(c, m, m', rev + 1);
    assert BankOf(c, rev + 1) == BankOf(c, NextRev(rev)) && BankOf(c, rev + 2) == BankOf(c, rev) == BankOf(c, NextRev(rev) + 1);
    assert Entry(data) == Revision(NextRev(rev), payload);
    assert BankEntry(m', a) == Entry(data);
  }

  /** A save cut off by a power loss after k operations on the flash. */
  lemma {:induction false} CutKeeps(c: Config, m: Memory, rev: byte, last: Loaded, payload: seq<byte>, lengths: seq<nat>, k: nat)
    requires ValidConfig(c, |m|) && Masked(c) && Consistent(c, m, rev, last) && Fits(c, payload)
    ensures 0 < c.bank0.erase && 0 < c.bank1.erase && |payload| + 1 < 0x1_0000_0000
    ensures var steps := SaveSteps(c, rev, payload, lengths);
            k < |steps| ==> Consistent(c, Run(m, steps[..k]), rev, last)
  {
    hide ValidConfig, ValidArea, FileSteps, Run, Good, Contents, Split, WriteOnce, Outside, MaskFits;
    ConfigBounds(c, |m|, payload);
    var a, chunks := BankOf(c, rev + 1), Split(Record(rev, payload), lengths);
    var steps := SaveSteps(c, rev, payload, lengths);
    if k == 0 {
      assert steps[..k] == [];
      NoSteps(m);
    } else if k < |steps| {
      FileTorn(m, a, chunks, k);
      var m' := Run(m, steps[..k]);
      OtherBank(c, m, m', rev + 1);
      assert BankOf(c, rev + 2) == BankOf(c, rev);
      assert BankEntry(m', a) == Nothing;
    }
  }

  // ----- runs ---------------------------------------------------------------------------------

  /** A save (in buffers of any lengths), a save during which power is lost after `ops` operations on
      the flash and the system restarts, or a load. */
  datatype Event =
    | Saves(payload: seq<byte>, lengths: seq<nat>)
    | Loses(payload: seq<byte>, lengths: seq<nat>, ops: nat)
    | Loads

  datatype State = State(mem: Memory, rev: byte)

  function RevAfterLoad(r: Loaded, rev: byte): (rev': byte) { if r.Revision? then r.rev else rev }

  predicate Allowed(c: Config, e: Event) {
    e.Loads? || Fits(c, e.payload)
  }

  function Next(c: Config, s: State, e: Event): (s': State)
    requires ValidConfig(c, |s.mem|) && Allowed(c, e)
    ensures |s'.mem| == |s.mem|
  {
    match e
    case Loads => State(s.mem, RevAfterLoad(Chosen(s.mem, c), s.rev))
    case Saves(p, l) =>
      ConfigBounds(c, |s.mem|, p);
      State(Run(s.mem, SaveSteps(c, s.rev, p, l)), NextRev(s.rev))
    case Loses(p, l, k) =>
      ConfigBounds(c, |s.mem|, p);
      var steps := SaveSteps(c, s.rev, p, l);
      var m := Run(s.mem, if k < |steps| then steps[..k] else steps);
      State(m, RevAfterLoad(Chosen(m, c), 0))
  }

  /** The last save whose header was written. */
  function LastWritten(c: Config, s: State, last: Loaded, e: Event): (last': Loaded)
    requires ValidConfig(c, |s.mem|) && Allowed(c, e)
  {
    match e
    case Loads => last
    case Saves(p, _) => Revision(NextRev(s.rev), p)
    case Loses(p, l, k) =>
      ConfigBounds(c, |s.mem|, p);
      if k < |SaveSteps(c, s.rev, p, l)| then last else Revision(NextRev(s.rev), p)
  }

  function NextAll(c: Config, s: State, events: seq<Event>): (s': State)
    requires ValidConfig(c, |s.mem|) && forall e :: e in events ==> Allowed(c, e)
    ensures |s'.mem| == |s.mem|
    decreases |events|
  {
    if events == [] then s else NextAll(c, Next(c, s, events[0]), events[1..])
  }

  function LastWrittenAll(c: Config, s: State, last: Loaded, events: seq<Event>): (last': Loaded)
    requires ValidConfig(c, |s.mem|) && forall e :: e in events ==> Allowed(c, e)
    decreases |events|
  {
    if events == [] then last
    else LastWrittenAll(c, Next(c, s, events[0]), LastWritten(c, s, last, events[0]), events[1..])
  }

  lemma {:induction false} EventKeeps(c: Config, s: State, last: Loaded, e: Event)
    requires ValidConfig(c, |s.mem|) && Masked(c) && Consistent(c, s.mem, s.rev, last) && Allowed(c, e)
    ensures var s' := Next(c, s, e);
            Consistent(c, s'.mem, s'.rev, LastWritten(c, s, last, e))
  {
    ConfigErases(c, |s.mem|);
    hide ValidConfig, Masked, Run, SaveSteps, Chosen, BankEntry, BankOf, NextRev;
    match e
    case Loads => ConsistentLoads(c, s.mem, s.rev, last);
    case Saves(p, l) => SaveKeeps(c, s.mem, s.rev, last, p, l);
    case Loses(p, l, k) =>
      CutKeeps(c, s.mem, s.rev, last, p, l, k);
      var steps := SaveSteps(c, s.rev, p, l);
      if k < |steps| {
        ConsistentLoads(c, Run(s.mem, steps[..k]), s.rev, last);
      } else {
        SaveKeeps(c, s.mem, s.rev, last, p, l);
        ConsistentLoads(c, Run(s.mem, steps), NextRev(s.rev), Revision(NextRev(s.rev), p));
      }
  }

  /** After any run of saves, loads and power losses between operations on the flash, loading gives the
      last save whose header was written. */
  lemma {:induction false} Durable(c: Config, s: State, last: Loaded, events: seq<Event>)
    requires ValidConfig(c, |s.mem|) && Masked(c) && Consistent(c, s.mem, s.rev, last) && forall e :: e in events ==> Allowed(c, e)
    ensures Chosen(NextAll(c, s, events).mem, c) == LastWrittenAll(c, s, last, events)
    decreases |events|
  {
    ConfigErases(c, |s.mem|);
    hide ValidConfig, Masked, Consistent, Chosen, Next, LastWritten;
    if events == [] {
      ConsistentLoads(c, s.mem, s.rev, last);
    } else {
      assert events[0] in events && forall e :: e in events[1..] ==> e in events;
      EventKeeps(c, s, last, events[0]);
      Durable(c, Next(c, s, events[0]), LastWritten(c, s, last, events[0]), events[1..]);
    }
  }

  /** The event is a save that was not cut off before its header. */
  predicate Completes(c: Config, s: State, e: Event)
    requires ValidConfig(c, |s.mem|) && Allowed(c, e)
  {
    match e
    case Loads => false
    case Saves(_, _) => true
    case Loses(p, l, k) =>
      ConfigBounds(c, |s.mem|, p);
      k >= |SaveSteps(c, s.rev, p, l)|
  }

  function Payload(c: Config, s: State, e: Event): (w: seq<seq<byte>>)
    requires ValidConfig(c, |s.mem|) && Allowed(c, e)
  {
    if Completes(c, s, e) then [e.payload] else []
  }

  /** What was written, in order. */
  function Payloads(c: Config, s: State, events: seq<Event>): (w: seq<seq<byte>>)
    requires ValidConfig(c, |s.mem|) && forall e :: e in events ==> Allowed(c, e)
    decreases |events|
  {
    if events == [] then []
    else
      Payload(c, s, events[0]) + Payloads(c, Next(c, s, events[0]), events[1..])
  }

  /** The revision that stands after writing w: the data written last, with a revision that counts modulo 256. */
  function After(last: Loaded, w: seq<seq<byte>>): (r: Loaded)
    requires last.Revision?
    ensures r.Revision?
  {
    if w == [] then last else Revision((last.rev + |w|) % 256, w[|w| - 1])
  }

  lemma {:induction false} AfterNone(last: Loaded)
    requires last.Revision?
    ensures After(last, []) == last
  {}

  lemma {:induction false} CurrentRev(c: Config, s: State, last: Loaded)
    requires ValidConfig(c, |s.mem|) && Consistent(c, s.mem, s.rev, last) && last.Revision?
    ensures last.rev == s.rev
  {
    hide ValidConfig, BankEntry;
  }

  lemma {:induction false} AfterEvent(c: Config, s: State, last: Loaded, e: Event, w: seq<seq<byte>>)
    requires ValidConfig(c, |s.mem|) && Allowed(c, e) && last.Revision? && last.rev == s.rev
    ensures LastWritten(c, s, last, e).Revision? && After(last, Payload(c, s, e) + w) == After(LastWritten(c, s, last, e), w)
  {
    hide ValidConfig, SaveSteps, Fits;
  }

  /** Loading gives the data written last, and its revision counts what was written since the start. */
  lemma {:induction false} LastIsWritten(c: Config, s: State, last: Loaded, events: seq<Event>)
    requires ValidConfig(c, |s.mem|) && Masked(c) && Consistent(c, s.mem, s.rev, last) && forall e :: e in events ==> Allowed(c, e)
    requires last.Revision?
    ensures Chosen(NextAll(c, s, events).mem, c) == After(last, Payloads(c, s, events))
    decreases |events|
  {
    ConfigErases(c, |s.mem|);
    hide ValidConfig, Masked, Chosen, Next, Payload, LastWritten, Consistent, Allowed, After;
    if events == [] {
      ConsistentLoads(c, s.mem, s.rev, last);
      AfterNone(last);
    } else {
      var e := events[0];
      assert e in events && forall e :: e in events[1..] ==> e in events;
      EventKeeps(c, s, last, e);
      var s', next := Next(c, s, e), LastWritten(c, s, last, e);
      CurrentRev(c, s, last);
      AfterEvent(c, s, last, e, Payloads(c, s', events[1..]));
      LastIsWritten(c, s', next, events[1..]);
    }
  }

  /** Erased flash is a fine start: there is nothing to load, whatever the revision. */
  lemma {:induction false} ErasedIsConsistent(c: Config, m: Memory, rev: byte)
    requires ValidConfig(c, |m|) && forall i :: 0 <= i < |m| ==> m[i] == 255
    ensures Consistent(c, m, rev, Nothing)
  {
    hide Good;
    TornIsBad(m, m, c.bank0);
    TornIsBad(m, m, c.bank1);
  }

  // ----- operations ---------------------------------------------------------------------------

  /** Saves to the bank that does not hold the current revision. Every content that a power loss can
      leave behind is what some first part of the operations makes. */
  method Save(chip: Chip, c: Config, rev: byte, payload: seq<byte>, lengths: seq<nat>) returns (rtn: int, rev': byte)
    requires ValidConfig(c, |chip.mem|) && |payload| + 1 < 0x1_0000_0000
    requires OnChip(SaveSteps(c, rev, payload, lengths), |chip.mem|)
    modifies chip
    ensures rtn == 0 && rev' == NextRev(rev)
    ensures chip.Did(old(chip.mem), old(chip.history), SaveSteps(c, rev, payload, lengths))
  {
    hide ValidArea, FileSteps, Split, Made, BankOf, Record, OnChip;
    var chunks := Split(Record(rev, payload), lengths);
    var a := if (rev + 1) % 2 == 1 then c.bank1 else c.bank0;
    assert a == BankOf(c, rev + 1) by { BankIs(c, rev + 1); }
    WriteFile(chip, a, chunks);
    rtn, rev' := 0, NextRev(rev);
  }

  lemma {:induction false} BankIs(c: Config, rev: nat)
    ensures BankOf(c, rev) == if rev % 2 == 1 then c.bank1 else c.bank0
  {}

  /** What the flash holds after an operation, and so after a power loss at that moment, is what the
      steps up to that operation make. */
  lemma {:induction false} HistoryIsCuts(m: Memory, h: seq<Memory>, steps: seq<Step>, m': Memory, h': seq<Memory>, j: nat)
    requires Made(m, h, steps, m', h') && |h| <= j < |h'|
    ensures j - |h| < |steps| && h'[j] == Run(m, steps[..j - |h| + 1])
  {
    hide Run, States;
    StateIs(m, steps, j - |h|);
  }

  /** Opens, writes buffer after buffer, and closes. */
  method WriteFile(chip: Chip, a: Area, chunks: seq<seq<byte>>)
    requires ValidArea(a, |chip.mem|) && |chip.mem| % PAGE == 0 && |Flatten(chunks)| < 0x1_0000_0000
    requires OnChip(FileSteps(a, chunks), |chip.mem|)
    modifies chip
    ensures chip.Did(old(chip.mem), old(chip.history), FileSteps(a, chunks))
  {
    hide ValidArea, Run, States, Crc, WriteSteps, ChunkSteps, Header, Made, OnChip, FileSteps;
    AreaErases(a, |chip.mem|);
    AreaBounds(a, |chip.mem|);
    var file := new CheckedFile();
    ghost var m0, h0 := chip.mem, chip.history;
    var rtn := file.WriteOpen(chip, a);
    ghost var done := [Erase(a.base, a.erase)];
    MadeSize(m0, h0, done, chip.mem, chip.history);
    var i := 0;
    NoChunkSteps(a.erase, a.base + HEADER);
    CrcNone(0);
    while i != |chunks|
      invariant 0 <= i <= |chunks| && |chip.mem| == |m0| && file.area == a
      invariant file.size == |Flatten(chunks[..i])| && file.crc == Crc(0, Flatten(chunks[..i]))
      invariant chip.Did(m0, h0, done) && done == [Erase(a.base, a.erase)] + ChunkSteps(a.erase, a.base + HEADER, chunks[..i])
    {
      FlattenSplit(chunks, i);
      ChunkAppend(a.erase, a.base + HEADER, chunks, i);
      CrcAppend(0, Flatten(chunks[..i]), chunks[i]);
      ghost var m, h := chip.mem, chip.history;
      ghost var steps := WriteSteps(a.erase, a.base + HEADER + file.size, chunks[i]);
      PieceOnChip(a, chunks, i, |chip.mem|);
      rtn := file.Write(chip, chunks[i]);
      MadeMore(m0, h0, done, m, h, steps, chip.mem, chip.history);
      done := done + steps;
      i := i + 1;
    }
    assert chunks[..i] == chunks;
    ghost var m, h := chip.mem, chip.history;
    rtn := file.WriteClose(chip);
    MadeMore(m0, h0, done, m, h, [Write(a.base, Header(file.size, file.crc))], chip.mem, chip.history);
    FileStepsAre(a, chunks);
  }

  lemma {:induction false} FileStepsAre(a: Area, chunks: seq<seq<byte>>)
    requires 0 < a.erase && |Flatten(chunks)| < 0x1_0000_0000
    ensures FileSteps(a, chunks) == [Erase(a.base, a.erase)] + ChunkSteps(a.erase, a.base + HEADER, chunks)
                                    + [Write(a.base, Header(|Flatten(chunks)|, Crc(0, Flatten(chunks))))]
  {
    hide ChunkSteps, Crc, Header;
  }

  /** One piece of a file that stays on the chip. */
  lemma {:induction false} PieceOnChip(a: Area, chunks: seq<seq<byte>>, i: nat, memory: nat)
    requires 0 < a.erase && |Flatten(chunks)| < 0x1_0000_0000 && i < |chunks| && OnChip(FileSteps(a, chunks), memory)
    ensures OnChip(WriteSteps(a.erase, a.base + HEADER + |Flatten(chunks[..i])|, chunks[i]), memory)
  {
    hide WriteSteps, Crc, Header, EndOf;
    PieceOf(a.erase, a.base + HEADER, chunks, i);
    var steps := ChunkSteps(a.erase, a.base + HEADER, chunks);
    assert forall s :: s in steps ==> s in FileSteps(a, chunks);
  }

  lemma {:induction false} PieceOf(erase: nat, addr: nat, chunks: seq<seq<byte>>, i: nat)
    requires 0 < erase && i < |chunks|
    ensures forall s :: s in WriteSteps(erase, addr + |Flatten(chunks[..i])|, chunks[i]) ==> s in ChunkSteps(erase, addr, chunks)
    decreases i
  {
    hide WriteSteps;
    if i == 0 {
      assert chunks[..0] == [];
    } else {
      PieceOf(erase, addr + |chunks[0]|, chunks[1..], i - 1);
      assert chunks[..i][1..] == chunks[1..][..i - 1];
    }
  }

  /** With banks whose blocks the write loop finds, a save that fits stays on the chip. */
  lemma {:induction false} SaveOnChip(c: Config, memory: nat, rev: byte, payload: seq<byte>, lengths: seq<nat>)
    requires ValidConfig(c, memory) && Masked(c) && Fits(c, payload)
    ensures |payload| + 1 < 0x1_0000_0000 && OnChip(SaveSteps(c, rev, payload, lengths), memory)
  {
    hide ValidArea, ChunkSteps, Split, MaskFits, Header, Crc;
    ConfigBounds(c, memory, payload);
    var a, chunks := BankOf(c, rev + 1), Split(Record(rev, payload), lengths);
    AreaBounds(a, memory);
    ChunksInside(a, memory, a.base + HEADER, chunks);
    FileStepsAre(a, chunks);
  }

  lemma {:induction false} NoChunkSteps(erase: nat, addr: nat)
    requires 0 < erase
    ensures ChunkSteps(erase, addr, []) == [] && Flatten([]) == []
  {}

  lemma {:induction false} FlattenSplit(chunks: seq<seq<byte>>, i: nat)
    requires i < |chunks|
    ensures Flatten(chunks[..i + 1]) == Flatten(chunks[..i]) + chunks[i]
    ensures |Flatten(chunks[..i + 1])| <= |Flatten(chunks)|
    decreases i
  {
    assert chunks[..i + 1][1..] == chunks[1..][..i];
    if i == 0 {
      assert chunks[..1] == [chunks[0]];
      FlattenOne(chunks[0]);
    } else {
      FlattenSplit(chunks[1..], i - 1);
      assert chunks[..i][1..] == chunks[1..][..i - 1];
    }
  }

  lemma {:induction false} ChunkAppend(erase: nat, addr: nat, chunks: seq<seq<byte>>, i: nat)
    requires 0 < erase && i < |chunks|
    ensures ChunkSteps(erase, addr, chunks[..i + 1])
         == ChunkSteps(erase, addr, chunks[..i]) + WriteSteps(erase, addr + |Flatten(chunks[..i])|, chunks[i])
    decreases i
  {
    hide WriteSteps;
    assert chunks[..i + 1][1..] == chunks[1..][..i];
    if i == 0 {
      assert chunks[..0] == [];
    } else {
      ChunkAppend(erase, addr + |chunks[0]|, chunks[1..], i - 1);
      assert chunks[..i][1..] == chunks[1..][..i - 1];
    }
  }

  /** Loads the newer good bank. */
  method Load(chip: Chip, c: Config, rev: byte) returns (rtn: int, rev': byte, payload: seq<byte>)
    requires ValidConfig(c, |chip.mem|)
    ensures match Chosen(chip.mem, c)
            case Nothing => rtn == -1 && rev' == rev
            case Revision(r, p) => rtn == 0 && rev' == r && payload == p
  {
    hide ValidArea, Good, Crc, SizeOf, Body, Contents;
    var zeroGood, zeroRev := Probe(chip, c.bank0, c.bufsize);
    var oneGood, oneRev := Probe(chip, c.bank1, c.bufsize);
    var useBank := -1;
    if oneGood && zeroGood {
      if NotOlder(zeroRev, oneRev) { useBank := 0; } else { useBank := 1; }
    } else if oneGood {
      useBank := 1;
    } else if zeroGood {
      useBank := 0;
    }
    payload := [];
    if useBank == 0 {
      rev' := zeroRev;
      payload := ReadPayload(chip, c.bank0, c.bufsize);
    } else if useBank == 1 {
      rev' := oneRev;
      payload := ReadPayload(chip, c.bank1, c.bufsize);
    } else {
      return -1, rev, payload;
    }
    rtn := 0;
  }

  /** Is a bank good, and if so, which revision does it hold? */
  method Probe(chip: Chip, a: Area, bufsize: nat) returns (good: bool, rev: byte)
    requires ValidArea(a, |chip.mem|) && HEADER <= bufsize && HEADER + bufsize <= a.size
    ensures good == Good(chip.mem, a)
    ensures good ==> rev == Entry(Contents(chip.mem, a)).rev
  {
    hide ValidArea, Crc, Read32;
    AreaBounds(a, |chip.mem|);
    var file := new CheckedFile();
    var rtn := file.ReadOpen(chip, a, bufsize);
    good := rtn == 0;
    var block := file.Read(chip, 0, bufsize);
    rev := if block == [] then 255 else block[0];
  }

  lemma {:induction false} SliceOfSlice(m: Memory, b: nat, n: nat, i: nat, j: nat)
    requires b + n <= |m| && i <= j <= n
    ensures m[b..b + n][i..j] == m[b + i..b + j]
  {
    var x, y := m[b..b + n][i..j], m[b + i..b + j];
    assert |x| == |y| && forall k :: 0 <= k < |x| ==> x[k] == m[b..b + n][i + k] == m[b + i + k] == y[k];
  }

  /** The data after the revision, read block by block. */
  method ReadPayload(chip: Chip, a: Area, bufsize: nat) returns (payload: seq<byte>)
    requires ValidArea(a, |chip.mem|) && HEADER <= bufsize && Good(chip.mem, a)
    ensures payload == Entry(Contents(chip.mem, a)).payload
  {
    hide ValidArea, Crc, Read32;
    AreaBounds(a, |chip.mem|);
    var file := new CheckedFile();
    var rtn := file.ReadOpen(chip, a, bufsize);
    ghost var base, all := a.base + HEADER, Contents(chip.mem, a);
    var data := [];
    while true
      invariant file.area == a && file.size == |all| && |data| <= |all| && data == all[..|data|]
      decreases |all| - |data|
    {
      var block := file.Read(chip, |data|, bufsize);
      if block == [] { break; }
      SliceOfSlice(chip.mem, base, |all|, |data|, |data| + |block|);
      assert all[..|data|] + all[|data|..|data| + |block|] == all[..|data| + |block|];
      data := data + block;
    }
    assert data == all;
    payload := if data == [] then [] else data[1..];
  }
}
