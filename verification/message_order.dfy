/** The order of interrupt messages over whole runs: what was accepted, what handlers were given and
    what still waits. */
module MessageOrder {
  import opened Words
  import opened DcpuSpec
  import opened Wrappers
  import opened Interrupts

  /** The event empties the queue: a reset, or an IAS with operand zero. */
  predicate Clears(s: Cpu, e: Event) {
    var w := s.mem[s.pc];
    e.Restart? ||
    (e.Turn? && !s.extint && !s.skip && OpOf(w) == 0 && FieldB(w) == IAS && ValueA(Fetched(s), FieldA(w)) == 0)
  }

  /** The messages that arrive during an event: from the bus, from INT, or from the devices during HWQ
      and HWI. */
  function Offered(s: Cpu, e: Event): seq<Word>
    requires WellFormed(e)
  {
    match e
    case Message(msg) => if msg[0] == XINT then [Low(msg[1])] else []
    case Turn(hw) =>
      var w := s.mem[s.pc];
      if s.extint || s.skip || OpOf(w) != 0 then []
      else if FieldB(w) == INT then [ValueA(Fetched(s), FieldA(w))]
      else if FieldB(w) == HWQ || FieldB(w) == HWI then hw.raised
      else []
    case _ => []
  }

  /** Those for which there is a handler and room. */
  function Accepted(s: Cpu, offered: seq<Word>): seq<Word> {
    if s.ia == 0 then []
    else if |s.queue| + |offered| <= QUEUE_LIMIT then offered
    else offered[..QUEUE_LIMIT - |s.queue|]
  }

  lemma {:induction false} AllAccepted(s: Cpu, raised: seq<Word>)
    ensures InterruptAll(s, raised).queue == s.queue + Accepted(s, raised)
    decreases raised
  {
    if |raised| > 0 {
      AllAccepted(Interrupt(s, raised[0]), raised[1..]);
    }
  }

  /** The queue between the instruction and the look at the queue. */
  lemma ExecutedQueue(s: Cpu, hw: Reply)
    ensures Executed(s, hw).queue ==
      if Clears(s, Turn(hw)) then [] else s.queue + Accepted(s, Offered(s, Turn(hw)))
  {
    hide ExecBasic, ValueA, ExtraWords;
    var w := s.mem[s.pc];
    if !s.extint && !s.skip {
      if OpOf(w) == 0 {
        SpecialQueue(Fetched(s), FieldB(w), FieldA(w), hw);
      } else {
        BasicKeepsControl(Fetched(s), OpOf(w), FieldA(w), FieldB(w));
      }
    }
  }

  lemma SpecialQueue(s: Cpu, ob: int, oa: int, hw: Reply)
    requires 0 <= ob < 32 && 0 <= oa < 64
    ensures var arrived := if ob == INT then [ValueA(s, oa)] else if ob == HWQ || ob == HWI then hw.raised else [];
      ExecSpecial(s, ob, oa, hw).queue ==
        if ob == IAS && ValueA(s, oa) == 0 then [] else s.queue + Accepted(s, arrived)
  {
    hide StoreB, ValueA, StoreAll, InterruptAll;
    var s1 := AfterA(s, oa);
    StoreKeepsControl(s, oa % 32, s.ia);
    StoreKeepsControl(s, oa % 32, s.hwcount);
    AllAccepted(s1.(mem := StoreAll(s1.mem, hw.stores)), hw.raised);
  }

  /** The messages that wait when the step looks at the queue. */
  function Waiting(s: Cpu, e: Event): Queue
    requires e.Turn?
  {
    Executed(s, e.hw).queue
  }

  /** The queue after an event. */
  lemma QueueAfter(s: Cpu, e: Event)
    requires WellFormed(e)
    ensures Enters(s, e) ==>
      e.Turn? && !Clears(s, e) && Waiting(s, e) == s.queue + Accepted(s, Offered(s, e)) && |Waiting(s, e)| > 0 &&
      Next(s, e).queue == Remaining(Waiting(s, e))
    ensures !Enters(s, e) ==> Next(s, e).queue == if Clears(s, e) then [] else s.queue + Accepted(s, Offered(s, e))
  {
    hide Clears, Offered, Executed;
    if e.Turn? {
      ExecutedQueue(s, e.hw);
    } else {
      Cleared(s, e);
    }
  }

  lemma Cleared(s: Cpu, e: Event)
    requires WellFormed(e) && !e.Turn?
    ensures Next(s, e).queue == if Clears(s, e) then [] else s.queue + Accepted(s, Offered(s, e))
  {
    hide StoreAll;
  }

  // ----- runs -----

  /** The messages accepted and those given to handlers, since the queue was last emptied. */
  datatype Log = Log(accepted: seq<Word>, taken: seq<Word>)

  function LogAt(s: Cpu, es: Run, k: nat): Log
    requires k <= |es|
  {
    if k == 0 then Log(s.queue, [])
    else
      var t, e, log := StateAt(s, es, k - 1), es[k - 1], LogAt(s, es, k - 1);
      assert e in es;
      if Clears(t, e) then Log([], [])
      else Log(log.accepted + Accepted(t, Offered(t, e)), log.taken + Given(t, e))
  }

  /** What the event gives to a handler. */
  function Given(s: Cpu, e: Event): seq<Word> {
    if Enters(s, e) && |Waiting(s, e)| > 0 then [Waiting(s, e)[0]] else []
  }

  /** First in, first out: what was accepted is what was given to handlers and what waits, in order. */
  predicate InOrder(log: Log, queue: Queue) {
    log.accepted == log.taken + queue
  }

  /** If the event enters a handler, all messages behind the one taken carry the same word. */
  predicate Orderly(s: Cpu, e: Event) {
    Enters(s, e) ==>
      forall i | 1 <= i < |Waiting(s, e)| :: Waiting(s, e)[i] == Waiting(s, e)[|Waiting(s, e)| - 1]
  }

  lemma StepInOrder(s: Cpu, es: Run, k: nat)
    requires k < |es| && InOrder(LogAt(s, es, k), StateAt(s, es, k).queue)
    ensures InOrder(LogAt(s, es, k + 1), StateAt(s, es, k + 1).queue) <==> Orderly(StateAt(s, es, k), es[k])
  {
    hide Clears, Offered, Accepted, Next, Enters, Waiting, Remaining;
    var t, e, log := StateAt(s, es, k), es[k], LogAt(s, es, k);
    assert e in es;
    QueueAfter(t, e);
    assert log.taken + (t.queue + Accepted(t, Offered(t, e))) == log.taken + t.queue + Accepted(t, Offered(t, e));
    if Enters(t, e) {
      Split(log.taken, Waiting(t, e), Remaining(Waiting(t, e)));
      QueueOrder(Waiting(t, e));
    }
  }

  lemma Split(taken: seq<Word>, waiting: seq<Word>, rest: seq<Word>)
    requires |waiting| > 0
    ensures taken + waiting == taken + [waiting[0]] + rest <==> rest == waiting[1..]
  {
    if taken + waiting == taken + [waiting[0]] + rest {
      assert (taken + waiting)[|taken| + 1..] == waiting[1..];
      assert (taken + [waiting[0]] + rest)[|taken| + 1..] == rest;
    }
  }

  /** Messages are handled first in, first out, at every point of a run, if and only if at every entry
      into a handler in it all messages behind the first carry the same word. */
  lemma {:induction false} FirstInFirstOut(s: Cpu, es: Run, n: nat)
    requires n <= |es|
    ensures (forall k | 0 <= k <= n :: InOrder(LogAt(s, es, k), StateAt(s, es, k).queue)) <==>
      (forall k | 0 <= k < n :: Orderly(StateAt(s, es, k), es[k]))
  {
    hide InOrder, Orderly, LogAt, StateAt;
    if n == 0 {
      StartsInOrder(s, es);
    } else {
      FirstInFirstOut(s, es, n - 1);
      if InOrder(LogAt(s, es, n - 1), StateAt(s, es, n - 1).queue) {
        StepInOrder(s, es, n - 1);
      }
    }
  }

  lemma StartsInOrder(s: Cpu, es: Run)
    ensures InOrder(LogAt(s, es, 0), StateAt(s, es, 0).queue)
  {
  }

  /** Messages are handled first in, first out in every run in which no handler is entered with more
      than two messages waiting. */
  lemma TwoStayInOrder(s: Cpu, es: Run)
    requires forall k | 0 <= k < |es| && Enters(StateAt(s, es, k), es[k]) :: |Waiting(StateAt(s, es, k), es[k])| <= 2
    ensures InOrder(LogAt(s, es, |es|), StateAt(s, es, |es|).queue)
  {
    hide InOrder, LogAt, StateAt, Enters, Waiting;
    forall k | 0 <= k < |es|
      ensures Orderly(StateAt(s, es, k), es[k])
    {
      OrderlyTwo(StateAt(s, es, k), es[k]);
    }
    FirstInFirstOut(s, es, |es|);
  }

  lemma OrderlyTwo(s: Cpu, e: Event)
    requires Enters(s, e) ==> |Waiting(s, e)| <= 2
    ensures Orderly(s, e)
  {
  }

  // ----- three messages -----

  /** IAS 1 */
  const SET_HANDLER := 0x22 * 0x400 + 0x0a * 0x20

  /** A reset, a program of one IAS, and three messages before the next instruction. */
  function ThreeMessages(x: Word, y: Word, z: Word): Run {
    var none := Reply(0, NO_REGISTERS, [], []);
    [Restart(None), DeviceWrites([(0, SET_HANDLER)]), Turn(none),
     Message([XINT, x]), Message([XINT, y]), Message([XINT, z]), Turn(none)]
  }

  lemma HandlerSet(s: Cpu, hw: Reply)
    requires !s.skip && !s.extint && s.queue == [] && s.pc == 0 && s.mem[0] == SET_HANDLER
    ensures Step(s, hw) == s.(pc := 1, ia := 1)
  {
    hide Hardware, StoreB, ReturnFromInterrupt;
    assert OpOf(SET_HANDLER) == 0 && FieldB(SET_HANDLER) == IAS && FieldA(SET_HANDLER) == 0x22;
  }

  lemma FirstHandled(s: Cpu, hw: Reply)
    requires !s.skip && !s.extint && !s.intq && |s.queue| > 0 && s.mem[s.pc] == 0
    ensures var t := Step(s, hw);
      t.r[0] == s.queue[0] && t.queue == Remaining(s.queue) && t.pc == s.ia && t.intq
  {
    hide Hardware, ReturnFromInterrupt, StoreB;
  }

  /** The first of three messages is handled, and two copies of the last wait: the second is lost. */
  lemma MessageLost(s: Cpu, x: Word, y: Word, z: Word)
    ensures var t := StateAt(s, ThreeMessages(x, y, z), 7);
      t.r[0] == x && t.queue == [z, z] && t.pc == 1 && t.intq
  {
    hide StateAt, Step;
    var es := ThreeMessages(x, y, z);
    var s1 := AfterReset(s, None);
    var s2 := s1.(mem := s1.mem[0 := SET_HANDLER]);
    var s3 := s2.(pc := 1, ia := 1);
    Reached(s, es, s1, s2);
    HandlerSet(s2, es[2].hw);
    StateAfter(s, es, 2);
    StateAfter(s, es, 3);
    StateAfter(s, es, 4);
    StateAfter(s, es, 5);
    StateAfter(s, es, 6);
    assert StateAt(s, es, 4) == s3.(queue := [x]);
    assert StateAt(s, es, 5) == s3.(queue := [x, y]);
    assert StateAt(s, es, 6) == s3.(queue := [x, y, z]);
    FirstHandled(StateAt(s, es, 6), es[6].hw);
  }

  lemma Reached(s: Cpu, es: Run, s1: Cpu, s2: Cpu)
    requires |es| > 2 && es[0] == Restart(None) && es[1] == DeviceWrites([(0, SET_HANDLER)])
    requires s1 == AfterReset(s, None) && s2 == s1.(mem := s1.mem[0 := SET_HANDLER])
    ensures StateAt(s, es, 2) == s2
  {
    hide AfterReset;
    StateAfter(s, es, 0);
    StateAfter(s, es, 1);
    assert StoreAll(s1.mem, [(0, SET_HANDLER)]) == StoreAll(s1.mem[0 := SET_HANDLER], []);
  }
}
