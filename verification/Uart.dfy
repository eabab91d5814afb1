/** The console's receive ring and its one-shot wakeup, shared by an interrupt handler and the foreground. */
module Uart {
  import opened Bits

  const SIZE: nat := 2048
  const WORD: nat := 0x1_0000_0000

  type Task = nat

  datatype Option<T> = None | Some(value: T)

  // ----- what the console does ----------------------------------------------------------------

  /** The bytes waiting to be read, a task to be woken, and what happened so far: bytes accepted from
      the line, bytes read by the foreground, and tasks submitted to the scheduler. */
  datatype Console = Console(queue: seq<byte>, waiting: Option<Task>, accepted: seq<byte>, read: seq<byte>, submitted: seq<Task>)

  /** An interrupt that moves `chars` from the UART to the ring, or one of the foreground's calls. */
  datatype Event = Interrupt(chars: seq<byte>) | Getc | Kbhit | SetCallback(task: Task)

  /** The handler leaves its loop only when the UART has nothing left, so all that it found had room. */
  predicate Completes(c: Console, e: Event) {
    e.Interrupt? ==> |c.queue| + |e.chars| <= SIZE
  }

  function Submit(c: Console, t: Task): (c': Console) { c.(waiting := None, submitted := c.submitted + [t]) }

  function Received(c: Console, chars: seq<byte>): (c': Console)
  {
    c.(queue := c.queue + chars, accepted := c.accepted + chars)
  }

  function Step(c: Console, e: Event): (c': Console)
  {
    match e
    case Interrupt(chars) =>
      var d := Received(c, chars);
      if c.waiting.Some? then Submit(d, c.waiting.value) else d
    case Getc => if c.queue == [] then c else c.(queue := c.queue[1..], read := c.read + [c.queue[0]])
    case Kbhit => c
    case SetCallback(t) => if c.queue != [] then Submit(c, t) else c.(waiting := Some(t))
  }

  const START: Console := Console([], None, [], [], [])

  /** What holds between any two steps: bytes are read in the order of their arrival and none is lost,
      the ring never holds more than its size, and nobody waits while there is something to read. */
  predicate Sound(c: Console) {
    && c.accepted == c.read + c.queue && |c.queue| <= SIZE
    && (c.waiting.Some? ==> c.queue == [])
  }

  lemma {:induction false} StepSound(c: Console, e: Event)
    requires Sound(c) && Completes(c, e)
    ensures Sound(Step(c, e))
  {}

  predicate AllComplete(c: Console, events: seq<Event>)
    decreases |events|
  {
    events == [] || (Completes(c, events[0]) && AllComplete(Step(c, events[0]), events[1..]))
  }

  function Run(c: Console, events: seq<Event>): (c': Console)
    decreases |events|
  {
    if events == [] then c else Run(Step(c, events[0]), events[1..])
  }

  /** Every interleaving keeps it. */
  lemma {:induction false} RunSound(c: Console, events: seq<Event>)
    requires Sound(c) && AllComplete(c, events)
    ensures Sound(Run(c, events))
    decreases |events|
  {
    hide Step, Sound, Completes;
    if events != [] {
      StepSound(c, events[0]);
      RunSound(Step(c, events[0]), events[1..]);
    }
  }

  // ----- what comes in comes out ---------------------------------------------------------------

  /** All bytes that came in over the line, in order. */
  function Arrived(events: seq<Event>): (bytes: seq<byte>)
    decreases |events|
  {
    if events == [] then [] else (if events[0].Interrupt? then events[0].chars else []) + Arrived(events[1..])
  }

  /** What a call to getc answers: a byte, or -1. */
  function Answer(c: Console): (ch: int) { if c.queue == [] then -1 else c.queue[0] }

  /** The answers of all calls to getc in a run. */
  function Answers(c: Console, events: seq<Event>): (a: seq<int>)
    decreases |events|
  {
    if events == [] then [] else (if events[0].Getc? then [Answer(c)] else []) + Answers(Step(c, events[0]), events[1..])
  }

  /** The bytes among the answers. */
  function Returned(answers: seq<int>): (bytes: seq<byte>)
    decreases |answers|
  {
    if answers == [] then []
    else (if 0 <= answers[0] < 256 then [answers[0] as byte] else []) + Returned(answers[1..])
  }

  /** One event moves bytes from what arrived to what was returned, and loses none. */
  lemma {:induction false} StepConserves(c: Console, e: Event)
    ensures var d := Step(c, e);
            && c.queue + Arrived([e]) == Returned(Answers(c, [e])) + d.queue
            && d.accepted == c.accepted + Arrived([e]) && d.read == c.read + Returned(Answers(c, [e]))
  {
    assert [e][1..] == [];
    if e.Getc? && c.queue != [] {
      assert [Answer(c)][1..] == [];
      assert c.queue == [c.queue[0]] + c.queue[1..];
    }
  }

  lemma {:induction false} ReturnedAppend(a: seq<int>, b: seq<int>)
    ensures Returned(a + b) == Returned(a) + Returned(b)
    decreases |a|
  {
    if a == [] {
      assert a + b == b;
    } else {
      assert (a + b)[1..] == a[1..] + b;
      ReturnedAppend(a[1..], b);
    }
  }

  /** Over a whole run: what waited and what arrived is what was returned, in that order, and what waits now. */
  lemma {:induction false} RunConserves(c: Console, events: seq<Event>)
    ensures var d := Run(c, events);
            && c.queue + Arrived(events) == Returned(Answers(c, events)) + d.queue
            && d.accepted == c.accepted + Arrived(events) && d.read == c.read + Returned(Answers(c, events))
    decreases |events|
  {
    hide Step, Answer, Returned, Arrived, Answers, Run;
    if events == [] {
      NoEvents(c);
    } else {
      var e, rest := events[0], events[1..];
      var d := Step(c, e);
      StepConserves(c, e);
      RunConserves(d, rest);
      FirstEvent(c, events);
      ReturnedAppend(Answers(c, [e]), Answers(d, rest));
      Exchange(c.queue, Arrived([e]), Arrived(rest), Returned(Answers(c, [e])), d.queue, Returned(Answers(d, rest)), Run(d, rest).queue);
    }
  }

  lemma {:induction false} NoEvents(c: Console)
    ensures Run(c, []) == c && Arrived([]) == [] && Answers(c, []) == [] && Returned([]) == []
  {}

  lemma {:induction false} FirstEvent(c: Console, events: seq<Event>)
    requires events != []
    ensures var e, rest := events[0], events[1..];
            && Run(c, events) == Run(Step(c, e), rest) && Arrived(events) == Arrived([e]) + Arrived(rest)
            && Answers(c, events) == Answers(c, [e]) + Answers(Step(c, e), rest)
  {
    assert [events[0]][1..] == [];
  }

  lemma {:induction false} Exchange(q: seq<byte>, a: seq<byte>, b: seq<byte>, r: seq<byte>, d: seq<byte>, t: seq<byte>, f: seq<byte>)
    requires q + a == r + d && d + b == t + f
    ensures q + (a + b) == (r + t) + f
  {
    assert q + (a + b) == (q + a) + b;
    assert (r + d) + b == r + (d + b);
    assert r + (t + f) == (r + t) + f;
  }

  lemma {:induction false} Halves(a: seq<byte>, b: seq<byte>, whole: seq<byte>)
    requires whole == a + b
    ensures a <= whole && (b == [] <==> a == whole) && (b != [] ==> whole[|a|] == b[0]) && [] + whole == whole
  {}

  /** The console as seen from outside, whatever the interleaving: the bytes returned so far are the first
      ones that arrived, in order and each once; the next getc returns the one after them, and -1 exactly
      when all that arrived has been returned. */
  lemma {:induction false} Fifo(events: seq<Event>)
    ensures var returned, arrived := Returned(Answers(START, events)), Arrived(events);
            && returned <= arrived
            && Run(START, events).accepted == arrived && Run(START, events).read == returned
            && Answer(Run(START, events)) == (if returned == arrived then -1 else arrived[|returned|])
            && (Run(START, events).queue == [] <==> returned == arrived)
  {
    hide Run, Answers, Arrived, Returned;
    RunConserves(START, events);
    Halves(Returned(Answers(START, events)), Run(START, events).queue, Arrived(events));
  }

  /** How often a task was asked for. */
  function Requests(events: seq<Event>): (n: nat)
    decreases |events|
  {
    if events == [] then 0 else (if events[0].SetCallback? then 1 else 0) + Requests(events[1..])
  }

  function Pending(c: Console): (n: nat) { if c.waiting.Some? then 1 else 0 }

  /** The wakeup is one-shot: tasks are submitted at most as often as they were asked for. */
  lemma {:induction false} OneShot(c: Console, events: seq<Event>)
    ensures |Run(c, events).submitted| + Pending(Run(c, events)) <= |c.submitted| + Pending(c) + Requests(events)
    decreases |events|
  {
    hide Step;
    if events != [] {
      OneShotStep(c, events[0]);
      OneShot(Step(c, events[0]), events[1..]);
    }
  }

  lemma {:induction false} OneShotStep(c: Console, e: Event)
    ensures |Step(c, e).submitted| + Pending(Step(c, e)) <= |c.submitted| + Pending(c) + if e.SetCallback? then 1 else 0
  {}

  /** Nobody asks for another task. */
  predicate NoRequests(events: seq<Event>) { forall e :: e in events ==> !e.SetCallback? }

  predicate AnyInterrupt(events: seq<Event>) { exists e :: e in events && e.Interrupt? }

  /** Without a task nothing is submitted. */
  lemma {:induction false} Quiet(c: Console, later: seq<Event>)
    requires c.waiting.None? && NoRequests(later)
    ensures Run(c, later).submitted == c.submitted && Run(c, later).waiting.None?
    decreases |later|
  {
    if later != [] {
      assert later[0] in later && forall e :: e in later[1..] ==> e in later;
      Quiet(Step(c, later[0]), later[1..]);
    }
  }

  /** A waiting task stays until the first interrupt, which submits it. */
  lemma {:induction false} Waits(c: Console, t: Task, later: seq<Event>)
    requires c.waiting == Some(t) && NoRequests(later)
    ensures var d := Run(c, later);
            if AnyInterrupt(later) then d.submitted == c.submitted + [t] && d.waiting.None?
            else d.submitted == c.submitted && d.waiting == Some(t)
    decreases |later|
  {
    if later != [] {
      assert later[0] in later && forall e :: e in later[1..] ==> e in later;
      assert forall e :: e in later ==> e == later[0] || e in later[1..];
      if later[0].Interrupt? { Quiet(Step(c, later[0]), later[1..]); } else { Waits(Step(c, later[0]), t, later[1..]); }
    }
  }

  /** A task that is asked for is submitted exactly once: at once if there is something to read, and
      otherwise with the next interrupt, whatever the foreground does in between. */
  lemma {:induction false} ExactlyOnce(c: Console, t: Task, later: seq<Event>)
    requires NoRequests(later)
    ensures var d := Run(Step(c, SetCallback(t)), later);
            if c.queue != [] || AnyInterrupt(later) then d.submitted == c.submitted + [t] && d.waiting.None?
            else d.submitted == c.submitted && d.waiting == Some(t)
  {
    hide Run;
    var c' := Step(c, SetCallback(t));
    if c.queue != [] { Quiet(c', later); } else { Waits(c', t, later); }
  }

  // ----- the ring -----------------------------------------------------------------------------

  /** (x + n) in 32 bits */
  function Add(x: nat, n: nat): (r: nat) { (x + n) % WORD }

  /** wr - rd in 32 bits */
  function Distance(rd: nat, wr: nat): (n: nat)
    requires rd < WORD && wr < WORD
  {
    if rd <= wr then wr - rd else wr + WORD - rd
  }

  /** Free-running counters that wrap around still select neighbouring cells. */
  function Cell(counter: nat): (i: nat)
    ensures i < SIZE
  {
    counter % SIZE
  }

  lemma {:induction false} CellWraps(x: nat, n: nat)
    requires x < WORD && n < WORD
    ensures Cell(Add(x, n)) == (x + n) % SIZE
  {
    var k := (x + n) / WORD;
    assert k == 0 || k == 1;
    assert Add(x, n) == x + n - WORD * k && WORD == SIZE * 0x20_0000;
  }

  /** Different places within the ring are different cells. */
  lemma {:induction false} CellsDiffer(rd: nat, j: nat, k: nat)
    requires rd < WORD && j < k < SIZE
    ensures Cell(Add(rd, j)) != Cell(Add(rd, k))
  {
    CellWraps(rd, j);
    CellWraps(rd, k);
  }

  function Waiting(buf: seq<byte>, rd: nat, n: nat): (q: seq<byte>)
    requires |buf| == SIZE
    ensures |q| == n && forall k :: 0 <= k < n ==> q[k] == buf[Cell(Add(rd, k))]
  {
    seq(n, k requires 0 <= k < n => buf[Cell(Add(rd, k))])
  }

  lemma {:induction false} PutOne(buf: seq<byte>, rd: nat, n: nat, b: byte)
    requires |buf| == SIZE && rd < WORD && n < SIZE
    ensures Waiting(buf[Cell(Add(rd, n)) := b], rd, n + 1) == Waiting(buf, rd, n) + [b]
  {
    hide Cell, Add;
    var buf' := buf[Cell(Add(rd, n)) := b];
    var q, q' := Waiting(buf, rd, n), Waiting(buf', rd, n + 1);
    forall k | 0 <= k < n + 1 ensures q'[k] == (q + [b])[k] {
      if k < n { CellsDiffer(rd, k, n); }
    }
  }

  lemma {:induction false} TakeOne(buf: seq<byte>, rd: nat, n: nat)
    requires |buf| == SIZE && rd < WORD && 0 < n <= SIZE
    ensures Waiting(buf, rd, n) == [buf[Cell(rd)]] + Waiting(buf, Add(rd, 1), n - 1)
  {
    var q, q' := Waiting(buf, rd, n), Waiting(buf, Add(rd, 1), n - 1);
    forall k | 0 <= k < n ensures q[k] == ([buf[Cell(rd)]] + q')[k] {
      if k > 0 { assert Add(Add(rd, 1), k - 1) == Add(rd, k); } else { assert Add(rd, 0) == rd; }
    }
  }

  class Receiver {
    var buf: seq<byte>
    var rd: nat
    var wr: nat
    var waiting: Option<Task>
    /** What happened so far; see Console. */
    ghost var accepted: seq<byte>
    ghost var read: seq<byte>
    var submitted: seq<Task>

    ghost predicate Valid()
      reads this
    {
      |buf| == SIZE && rd < WORD && wr < WORD && Distance(rd, wr) <= SIZE && Sound(View())
    }

    ghost function View(): (c: Console)
      requires |buf| == SIZE && rd < WORD && wr < WORD
      reads this
    {
      Console(Waiting(buf, rd, Distance(rd, wr)), waiting, accepted, read, submitted)
    }

    constructor ()
      ensures Valid() && View() == START
    {
      buf, rd, wr, waiting := seq(SIZE, _ => 0), 0, 0, None;
      accepted, read, submitted := [], [], [];
    }

    /** One turn of the handler's loop while the UART has a byte: without room nothing happens. */
    method RxTurn(c: byte) returns (took: bool)
      requires |buf| == SIZE && rd < WORD && wr < WORD && Distance(rd, wr) <= SIZE
      modifies this`buf, this`wr, this`accepted
      ensures |buf| == SIZE && wr < WORD && Distance(rd, wr) <= SIZE
      ensures took == (old(|View().queue|) < SIZE)
      ensures View() == if took then Received(old(View()), [c]) else old(View())
    {
      hide Cell, Waiting;
      took := Distance(rd, wr) != SIZE;
      if took {
        ghost var n := Distance(rd, wr);
        Forward(rd, wr);
        PutOne(buf, rd, n, c);
        buf := buf[Cell(wr) := c];
        wr := Add(wr, 1);
        accepted := accepted + [c];
      }
    }

    /** The interrupt handler, when it completes. */
    method OnUartRx(chars: seq<byte>)
      requires Valid() && Completes(View(), Interrupt(chars))
      modifies this
      ensures Valid() && View() == Step(old(View()), Interrupt(chars))
    {
      hide Cell, Waiting;
      ghost var c := View();
      var i := 0;
      while i != |chars|
        invariant 0 <= i <= |chars| && |buf| == SIZE && rd < WORD && wr < WORD && Distance(rd, wr) <= SIZE
        invariant View() == Received(c, chars[..i])
      {
        var took := RxTurn(chars[i]);
        assert chars[..i] + [chars[i]] == chars[..i + 1];
        assert took;
        i := i + 1;
      }
      assert chars[..i] == chars;
      if waiting.Some? {
        submitted := submitted + [waiting.value];
        waiting := None;
      }
      StepSound(c, Interrupt(chars));
    }

    /** The next byte, or -1. */
    method GetChar() returns (ch: int)
      requires Valid()
      modifies this`rd, this`read
      ensures Valid() && View() == Step(old(View()), Getc)
      ensures ch == Answer(old(View()))
    {
      hide Cell, Waiting;
      ch := -1;
      ghost var c := View();
      if rd != wr {
        TakeOne(buf, rd, Distance(rd, wr));
        Shrink(rd, wr);
        ch := buf[Cell(rd)];
        rd := Add(rd, 1);
        read := read + [ch];
      }
      StepSound(c, Getc);
    }

    method KeyboardHit() returns (hit: bool)
      requires Valid()
      ensures hit == (View().queue != [])
    {
      hide Cell, Waiting;
      hit := rd != wr;
    }

    /** Asks for a task to be submitted when there is something to read: at once, or later. */
    method SetUartCallback(task: Task)
      requires Valid()
      modifies this`waiting, this`submitted
      ensures Valid() && View() == Step(old(View()), SetCallback(task))
    {
      hide Cell, Waiting;
      ghost var c := View();
      if rd != wr {
        submitted := submitted + [task];
        waiting := None;
      } else {
        waiting := Some(task);
      }
      StepSound(c, SetCallback(task));
    }
  }

  lemma {:induction false} Forward(rd: nat, wr: nat)
    requires rd < WORD && wr < WORD && Distance(rd, wr) < SIZE
    ensures Add(rd, Distance(rd, wr)) == wr && Add(wr, 1) < WORD && Distance(rd, Add(wr, 1)) == Distance(rd, wr) + 1
  {}

  lemma {:induction false} Shrink(rd: nat, wr: nat)
    requires rd < WORD && wr < WORD && rd != wr
    ensures Add(rd, 1) < WORD && Distance(Add(rd, 1), wr) == Distance(rd, wr) - 1
  {}
}
