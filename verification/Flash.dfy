/** NOR flash and the Pico's writer for it.

    Programming can only clear bits, erasing sets them. Power may fail between any two operations on
    the flash, so the model keeps, beside the present contents, the contents after every operation. */
module Flash {
  import opened Bits
  import opened Bitwise

  const PAGE: nat := 256
  const SECTOR: nat := 4096

  type Memory = seq<byte>

  /** What one operation on the flash amounts to. */
  datatype Step = Erase(addr: nat, count: nat) | Write(addr: nat, bytes: seq<byte>)

  function After(m: Memory, s: Step): (r: Memory)
    ensures |r| == |m|
  {
    match s
    case Erase(a, n) => seq(|m|, i requires 0 <= i < |m| => if a <= i < a + n then 255 else m[i])
    case Write(a, b) => seq(|m|, i requires 0 <= i < |m| => if a <= i < a + |b| then And(m[i], b[i - a]) else m[i])
  }

  /** The contents after all the steps. */
  function Run(m: Memory, steps: seq<Step>): (r: Memory)
    ensures |r| == |m|
    decreases |steps|
  {
    if steps == [] then m else Run(After(m, steps[0]), steps[1..])
  }

  /** The contents after each of the steps. */
  function States(m: Memory, steps: seq<Step>): (r: seq<Memory>)
    ensures |r| == |steps|
    decreases |steps|
  {
    if steps == [] then [] else [After(m, steps[0])] + States(After(m, steps[0]), steps[1..])
  }

  lemma {:induction false} RunAppend(m: Memory, a: seq<Step>, b: seq<Step>)
    ensures Run(m, a + b) == Run(Run(m, a), b)
    ensures States(m, a + b) == States(m, a) + States(Run(m, a), b)
    decreases |a|
  {
    hide After;
    if a == [] {
      assert a + b == b;
    } else {
      assert (a + b)[1..] == a[1..] + b;
      RunAppend(After(m, a[0]), a[1..], b);
    }
  }

  /** Losing power after k steps leaves the state that the first k steps make. */
  lemma {:induction false} StateIs(m: Memory, steps: seq<Step>, k: nat)
    requires k < |steps|
    ensures States(m, steps)[k] == Run(m, steps[..k + 1])
    decreases |steps|
  {
    hide After;
    assert steps[..k + 1][0] == steps[0];
    if k > 0 {
      StateIs(After(m, steps[0]), steps[1..], k - 1);
      assert steps[..k + 1][1..] == steps[1..][..k];
    } else {
      assert steps[..1][1..] == [];
    }
  }

  /** A write, cut at page boundaries. */
  function PageSteps(addr: nat, data: seq<byte>): (steps: seq<Step>)
    ensures (|steps| == 0) == (|data| == 0)
    decreases |data|
  {
    if data == [] then []
    else
      var room := PAGE - addr % PAGE;
      if |data| <= room then [Write(addr, data)]
      else [Write(addr, data[..room])] + PageSteps(addr + room, data[room..])
  }

  /** The buffer with some of its bytes replaced. */
  function Overlay(xfer: seq<byte>, offset: nat, bytes: seq<byte>): (r: seq<byte>)
    requires offset + |bytes| <= |xfer|
    ensures |r| == |xfer|
  {
    xfer[..offset] + bytes + xfer[offset + |bytes|..]
  }

  /** Programming a page that was read back, with some of its bytes replaced, only writes those bytes. */
  lemma {:induction false} ReadModifyWrite(m: Memory, page: nat, offset: nat, bytes: seq<byte>, xfer: seq<byte>)
    requires page + |xfer| <= |m| && offset + |bytes| <= |xfer|
    requires |bytes| == |xfer| || xfer == m[page..page + |xfer|]
    ensures After(m, Write(page, Overlay(xfer, offset, bytes))) == After(m, Write(page + offset, bytes))
  {
    hide And;
    var x, y := After(m, Write(page, Overlay(xfer, offset, bytes))), After(m, Write(page + offset, bytes));
    forall i | 0 <= i < |m| ensures x[i] == y[i] { AndByte(m[i]); }
  }

  /** The steps lead from `before` to `now`, and their states were appended to the history. */
  ghost predicate Made(before: Memory, past: seq<Memory>, steps: seq<Step>, now: Memory, history: seq<Memory>) {
    now == Run(before, steps) && history == past + States(before, steps)
  }

  lemma {:induction false} MadeNone(m: Memory, h: seq<Memory>)
    ensures Made(m, h, [], m, h)
  {}

  lemma {:induction false} MadeOne(m: Memory, h: seq<Memory>, s: Step)
    ensures Made(m, h, [s], After(m, s), h + [After(m, s)])
  {
    assert [s][1..] == [];
  }

  lemma {:induction false} MadeMore(m: Memory, h: seq<Memory>, a: seq<Step>, m': Memory, h': seq<Memory>,
                                    b: seq<Step>, m'': Memory, h'': seq<Memory>)
    requires Made(m, h, a, m', h') && Made(m', h', b, m'', h'')
    ensures Made(m, h, a + b, m'', h'')
  {
    RunAppend(m, a, b);
    assert h + (States(m, a) + States(m', b)) == h + States(m, a) + States(m', b);
  }

  class Chip {
    var mem: Memory
    /** The contents after every operation so far. */
    ghost var history: seq<Memory>

    constructor (contents: Memory)
      ensures mem == contents && history == []
    {
      mem, history := contents, [];
    }

    /** Since the contents were `before` and the history `past`, exactly these steps were made. */
    ghost predicate Did(before: Memory, past: seq<Memory>, steps: seq<Step>)
      reads this
    {
      Made(before, past, steps, mem, history)
    }

    method RangeErase(addr: nat, count: nat)
      requires addr % SECTOR == 0 && count % SECTOR == 0 && addr + count <= |mem|
      modifies this
      ensures Did(old(mem), old(history), [Erase(addr, count)])
    {
      MadeOne(mem, history, Erase(addr, count));
      mem := After(mem, Erase(addr, count));
      history := history + [mem];
    }

    method RangeProgram(page: nat, xfer: seq<byte>)
      requires page % PAGE == 0 && |xfer| == PAGE && page + PAGE <= |mem|
      modifies this
      ensures mem == After(old(mem), Write(page, xfer)) && history == old(history) + [mem]
    {
      mem := After(mem, Write(page, xfer));
      history := history + [mem];
    }

    method Read(addr: nat, count: nat) returns (data: seq<byte>)
      requires addr + count <= |mem|
      ensures data == mem[addr..addr + count]
    {
      data := mem[addr..addr + count];
    }

    /** Erases whole sectors; anything else is refused. */
    method McuErase(addr: nat, count: nat) returns (rtn: int)
      requires addr + count <= |mem|
      modifies this
      ensures rtn == if addr % SECTOR == 0 && count % SECTOR == 0 then 0 else -1
      ensures Did(old(mem), old(history), if rtn == 0 then [Erase(addr, count)] else [])
    {
      MadeNone(mem, history);
      if addr % SECTOR != 0 { return -1; }
      if count % SECTOR != 0 { return -1; }
      RangeErase(addr, count);
      return 0;
    }

    /** Writes any number of bytes at any address: page by page, reading back what a page holds besides.
        In the end every byte has been written, and a power loss on the way leaves a first part written. */
    method McuWrite(addr: nat, data: seq<byte>)
      requires addr + |data| <= |mem| && |mem| % PAGE == 0
      modifies this
      ensures Did(old(mem), old(history), PageSteps(addr, data))
    {
      hide Run, States, After, PageSteps, Overlay, Made;
      var xfer: seq<byte> := seq(PAGE, _ => 0);
      var a, rest := addr, data;
      ghost var done: seq<Step> := [];
      MadeNone(mem, history);
      while rest != []
        invariant addr <= a && a + |rest| <= |mem| && |mem| == old(|mem|) && |xfer| == PAGE
        invariant Did(old(mem), old(history), done) && PageSteps(addr, data) == done + PageSteps(a, rest)
        decreases |rest|
      {
        ghost var m, h := mem, history;
        var offset := a % PAGE;
        var len := PAGE - offset;
        var page := a - offset;
        if |rest| < len { len := |rest|; }
        PageFits(a, |mem|);
        if len != PAGE { xfer := Read(page, PAGE); }
        ReadModifyWrite(mem, page, offset, rest[..len], xfer);
        xfer := Overlay(xfer, offset, rest[..len]);
        RangeProgram(page, xfer);
        MadeOne(m, h, Write(a, rest[..len]));
        MadeMore(old(mem), old(history), done, m, h, [Write(a, rest[..len])], mem, history);
        PageStep(a, rest, len);
        done := done + [Write(a, rest[..len])];
        a := a + len;
        rest := rest[len..];
      }
      assert done + PageSteps(a, rest) == done;
    }
  }

  lemma {:induction false} PageFits(a: nat, size: nat)
    requires a < size && size % PAGE == 0
    ensures a - a % PAGE + PAGE <= size && (a - a % PAGE) % PAGE == 0
  {}

  lemma {:induction false} PageStep(a: nat, rest: seq<byte>, len: nat)
    requires rest != [] && len == if |rest| < PAGE - a % PAGE then |rest| else PAGE - a % PAGE
    ensures PageSteps(a, rest) == [Write(a, rest[..len])] + PageSteps(a + len, rest[len..])
  {
    if |rest| == len { assert rest[..len] == rest && rest[len..] == []; }
  }

  lemma {:induction false} WriteWrite(m: Memory, addr: nat, x: seq<byte>, y: seq<byte>)
    ensures After(After(m, Write(addr, x)), Write(addr + |x|, y)) == After(m, Write(addr, x + y))
  {
    hide And;
    var m' := After(m, Write(addr, x));
    var r, r' := After(m', Write(addr + |x|, y)), After(m, Write(addr, x + y));
    forall i | 0 <= i < |m| ensures r[i] == r'[i] {
      if addr <= i < addr + |x| { assert (x + y)[i - addr] == x[i - addr]; }
    }
  }

  /** Wherever a write at any address is interrupted, a first part of the data has been written; when
      it is not, all of it. */
  lemma {:induction false} PagesPrefix(m: Memory, addr: nat, data: seq<byte>, k: nat) returns (n: nat)
    requires k <= |PageSteps(addr, data)|
    ensures n <= |data| && Run(m, PageSteps(addr, data)[..k]) == After(m, Write(addr, data[..n]))
    ensures k == |PageSteps(addr, data)| ==> n == |data|
    decreases |data|
  {
    hide And, After;
    var steps := PageSteps(addr, data);
    if k == 0 {
      n := 0;
      WriteNothing(m, addr);
      return;
    }
    var len := if |data| < PAGE - addr % PAGE then |data| else PAGE - addr % PAGE;
    PageStep(addr, data, len);
    var x, rest := data[..len], data[len..];
    assert steps[..k][1..] == PageSteps(addr + len, rest)[..k - 1];
    var n' := PagesPrefix(After(m, Write(addr, x)), addr + len, rest, k - 1);
    n := len + n';
    WriteWrite(m, addr, x, rest[..n']);
    assert x + rest[..n'] == data[..n];
  }

  lemma {:induction false} WriteNothing(m: Memory, addr: nat)
    ensures After(m, Write(addr, [])) == m
  {}
}
