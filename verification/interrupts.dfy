/** Interrupts over whole runs: what may sit in the queue, when a handler is entered and how the
    interrupted program is resumed. */
module Interrupts {
  import opened Words
  import opened Alu
  import opened DcpuSpec
  import opened Dcpu
  import opened Wrappers

  /** Everything that can happen to a processor. */
  datatype Event =
    | Turn(hw: Reply)
    | Message(msg: seq<Word32>)
    | Restart(devices: Option<Word>)
    | DeviceWrites(stores: seq<(Word, Word)>)

  /** Messages carry the words their kind calls for. */
  predicate WellFormed(e: Event) {
    e.Message? ==> |e.msg| > 0 && (e.msg[0] == XINT ==> |e.msg| > 1)
  }

  function Next(s: Cpu, e: Event): Cpu
    requires WellFormed(e)
  {
    match e
    case Turn(hw) => Step(s, hw)
    case Message(msg) => Delivered(s, msg)
    case Restart(devices) => AfterReset(s, devices)
    case DeviceWrites(stores) => s.(mem := StoreAll(s.mem, stores))
  }

  type Run = es: seq<Event> | forall e | e in es :: WellFormed(e)

  /** The state before event k. */
  function StateAt(s: Cpu, es: Run, k: nat): Cpu
    requires k <= |es|
  {
    if k == 0 then s else Next(StateAt(s, es, k - 1), es[k - 1])
  }

  /** The interpreter goes through the same states, so that what is proved of them is true of it. */
  method Play(core: Dcpu16, es: Run)
    requires core.Valid() && core.opCycles == 0
    modifies core, core.Repr()
    ensures core.Valid() && core.opCycles == 0 && core.State() == StateAt(old(core.State()), es, |es|)
  {
    hide Step, Delivered, AfterReset, Cost;
    for k := 0 to |es|
      invariant core.Valid() && core.opCycles == 0 && core.State() == StateAt(old(core.State()), es, k)
    {
      assert WellFormed(es[k]);
      match es[k]
      case Turn(hw) => var cycles := core.StepOnce(hw);
      case Message(msg) => var answer := core.MsgIn(msg);
      case Restart(devices) => core.Reset(devices);
      case DeviceWrites(stores) => core.RunHardware(Reply(0, NO_REGISTERS, stores, []));
    }
  }

  /** The event enters the interrupt handler. */
  predicate Enters(s: Cpu, e: Event) {
    e.Turn? && Dispatches(s, e.hw)
  }

  /** The event ends the masking of interrupts: an RFI, an IAQ with operand zero, or a reset. */
  predicate Releases(s: Cpu, e: Event) {
    var w := s.mem[s.pc];
    e.Restart? ||
    (e.Turn? && !s.extint && !s.skip && OpOf(w) == 0 &&
     (FieldB(w) == RFI || (FieldB(w) == IAQ && ValueA(Fetched(s), FieldA(w)) == 0)))
  }

  /** Messages wait only while there is a handler for them. */
  predicate QueueOk(s: Cpu) {
    |s.queue| > 0 ==> s.ia != 0
  }

  predicate SameControl(s: Cpu, t: Cpu) {
    t.ia == s.ia && t.queue == s.queue && t.intq == s.intq && t.extint == s.extint && t.hot == s.hot
  }

  lemma StoreKeepsControl(s: Cpu, p: int, v: Word)
    requires 0 <= p < 64
    ensures SameControl(s, StoreB(s, p, v))
  {
    hide PlaceOf;
  }

  lemma ResolvingKeepsControl(s: Cpu, p: int)
    ensures SameControl(s, AfterA(s, p))
  {
  }

  lemma ModifyKeepsControl(s: Cpu, op: int, oa: int, ob: int)
    requires ReadsAndWrites(op) && 0 <= oa < 64 && 0 <= ob < 32
    ensures SameControl(s, ExecModify(s, op, oa, ob))
  {
    hide StoreB, Basic, ValueB, ValueA, AfterA;
    var s1 := AfterA(s, oa);
    ResolvingKeepsControl(s, oa);
    StoreKeepsControl(s1, ob, Basic(op, ValueB(s1, ob), ValueA(s, oa), s1.ex).0);
  }

  lemma BasicKeepsControl(s: Cpu, op: int, oa: int, ob: int)
    requires 0 < op < 32 && 0 <= oa < 64 && 0 <= ob < 32
    ensures SameControl(s, ExecBasic(s, op, oa, ob))
  {
    hide StoreB, ExecModify, ValueA, Holds, AfterA;
    var s1 := AfterA(s, oa);
    ResolvingKeepsControl(s, oa);
    if WritesOnly(op) {
      StoreKeepsControl(s1, ob, ValueA(s, oa));
    } else if Tests(op) {
      ResolvingKeepsControl(s1, ob);
    } else if ReadsAndWrites(op) {
      ModifyKeepsControl(s, op, oa, ob);
    }
  }

  lemma {:induction false} InterruptsKeep(s: Cpu, raised: seq<Word>)
    ensures InterruptAll(s, raised).ia == s.ia
    ensures QueueOk(s) ==> QueueOk(InterruptAll(s, raised))
    ensures s.intq ==> InterruptAll(s, raised).intq
    decreases raised
  {
    if |raised| > 0 {
      InterruptsKeep(Interrupt(s, raised[0]), raised[1..]);
    }
  }

  lemma SpecialKeeps(s: Cpu, ob: int, oa: int, hw: Reply)
    requires 0 <= ob < 32 && 0 <= oa < 64
    ensures QueueOk(s) ==> QueueOk(ExecSpecial(s, ob, oa, hw))
    ensures s.intq && ob != RFI && !(ob == IAQ && ValueA(s, oa) == 0) ==> ExecSpecial(s, ob, oa, hw).intq
  {
    hide StoreB, ValueA, StoreAll, InterruptAll;
    var s1 := AfterA(s, oa);
    StoreKeepsControl(s, oa % 32, s.ia);
    StoreKeepsControl(s, oa % 32, s.hwcount);
    InterruptsKeep(s1.(mem := StoreAll(s1.mem, hw.stores)), hw.raised);
  }

  lemma ExecutedKeeps(s: Cpu, hw: Reply)
    ensures QueueOk(s) ==> QueueOk(Executed(s, hw))
    ensures s.intq && !Releases(s, Turn(hw)) ==> Executed(s, hw).intq
  {
    hide ExecBasic, ExecSpecial, ValueA, ExtraWords;
    var w := s.mem[s.pc];
    if !s.extint && !s.skip {
      if OpOf(w) == 0 {
        SpecialKeeps(Fetched(s), FieldB(w), FieldA(w), hw);
      } else {
        BasicKeepsControl(Fetched(s), OpOf(w), FieldA(w), FieldB(w));
      }
    }
  }

  /** One event keeps the queue invariant; entering a handler masks further interrupts, and only a
      release unmasks them. */
  lemma EventKeeps(s: Cpu, e: Event)
    requires WellFormed(e)
    ensures QueueOk(s) ==> QueueOk(Next(s, e))
    ensures Enters(s, e) ==> Next(s, e).intq
    ensures s.intq && !Releases(s, e) ==> Next(s, e).intq && !Enters(s, e)
  {
    hide Executed, Releases;
    if e.Turn? {
      ExecutedKeeps(s, e.hw);
    } else if e.Restart? {
      assert Releases(s, e) by { ReleaseByRestart(s, e); }
    }
  }

  lemma ReleaseByRestart(s: Cpu, e: Event)
    requires e.Restart?
    ensures Releases(s, e)
  {
  }

  /** In every state of every run: at most 256 messages wait, and none without a handler. */
  lemma {:induction false} QueueInvariant(s: Cpu, es: Run, k: nat)
    requires QueueOk(s) && k <= |es|
    ensures QueueOk(StateAt(s, es, k)) && |StateAt(s, es, k).queue| <= QUEUE_LIMIT
  {
    hide Next;
    if k > 0 {
      QueueInvariant(s, es, k - 1);
      EventKeeps(StateAt(s, es, k - 1), es[k - 1]);
    }
  }

  ghost predicate ReleasedWithin(s: Cpu, es: Run, i: nat, j: nat)
    requires j <= |es|
  {
    exists k: nat | i <= k < j :: Releases(StateAt(s, es, k), es[k])
  }

  /** As long as nothing releases the mask, it stays. */
  lemma {:induction false} Masked(s: Cpu, es: Run, i: nat, j: nat)
    requires i <= j <= |es| && StateAt(s, es, i).intq
    ensures StateAt(s, es, j).intq || ReleasedWithin(s, es, i, j)
  {
    hide Next, Releases;
    if i < j {
      Masked(s, es, i, j - 1);
      EventKeeps(StateAt(s, es, j - 1), es[j - 1]);
    }
  }

  /** Between two entries into the handler there is an RFI, an IAQ 0 or a reset. */
  lemma ReleaseBetweenEntries(s: Cpu, es: Run, i: nat, j: nat)
    requires i < j < |es|
    requires Enters(StateAt(s, es, i), es[i]) && Enters(StateAt(s, es, j), es[j])
    ensures ReleasedWithin(s, es, i + 1, j + 1)
  {
    hide Next, Releases, Enters, StateAt;
    EventKeeps(StateAt(s, es, i), es[i]);
    StateAfter(s, es, i);
    Masked(s, es, i + 1, j);
    EventKeeps(StateAt(s, es, j), es[j]);
  }

  lemma StateAfter(s: Cpu, es: Run, k: nat)
    requires k < |es|
    ensures StateAt(s, es, k + 1) == Next(StateAt(s, es, k), es[k])
  {
    hide Next;
  }

  // ----- return from the handler -----

  /** The handler has left the stack pointer and the two words under it as they were on entry. */
  predicate Balanced(entry: Cpu, t: Cpu) {
    t.sp == entry.sp && t.mem[t.sp] == entry.mem[entry.sp] &&
    t.mem[Wrap(t.sp + 1)] == entry.mem[Wrap(entry.sp + 1)]
  }

  predicate AtReturn(t: Cpu) {
    !t.extint && !t.skip && OpOf(t.mem[t.pc]) == 0 && FieldB(t.mem[t.pc]) == RFI
  }

  lemma EntryStacks(s: Cpu)
    requires |s.queue| > 0
    ensures var d := Dispatch(s);
      d.sp == Wrap(s.sp - 2) && d.mem[d.sp] == s.r[0] && d.mem[Wrap(d.sp + 1)] == s.pc &&
      d == s.(r := s.r[0 := s.queue[0]], pc := s.ia, sp := d.sp, mem := d.mem, intq := true,
              queue := Remaining(s.queue))
  {
    hide StoreB;
    assert Wrap(Wrap(s.sp - 1) - 1) == Wrap(s.sp - 2) && Wrap(Wrap(s.sp - 2) + 1) == Wrap(s.sp - 1);
  }

  lemma ReturnPops(t: Cpu, oa: int)
    requires 0 <= oa < 64
    ensures var u := ReturnFromInterrupt(AfterA(t, oa));
      var sp := AfterA(t, oa).sp;
      u == t.(r := t.r[0 := t.mem[sp]], pc := t.mem[Offset(sp, 1)], sp := Offset(sp, 2), intq := false)
  {
    var sp := AfterA(t, oa).sp;
    assert Wrap(Offset(sp, 1) + 1) == Offset(sp, 2);
  }

  /** A balanced handler that ends in RFI resumes the interrupted program: with its PC, A and SP,
      wherever the stack lies, and with everything else as the handler left it. The one exception
      is RFI POP, which pops a word too many: it never restores SP. */
  lemma HandlerReturns(s: Cpu, t: Cpu, hw: Reply)
    requires |s.queue| > 0 && Balanced(Dispatch(s), t) && AtReturn(t)
    ensures FieldA(t.mem[t.pc]) != 0x18 <==> Executed(t, hw).sp == s.sp
    ensures FieldA(t.mem[t.pc]) != 0x18 ==>
      Executed(t, hw) == t.(r := t.r[0 := s.r[0]], pc := s.pc, sp := s.sp, intq := false)
  {
    hide ReturnFromInterrupt, Dispatch, Wrap;
    var w := t.mem[t.pc];
    EntryStacks(s);
    ReturnPops(Fetched(t), FieldA(w));
    StackPointers(s.sp);
  }

  /** RFI POP takes A for its operand and the interrupted PC for A, and goes where the word under the
      interrupted stack points. */
  lemma PopReturns(s: Cpu, t: Cpu, hw: Reply)
    requires |s.queue| > 0 && Balanced(Dispatch(s), t) && AtReturn(t) && FieldA(t.mem[t.pc]) == 0x18
    ensures Executed(t, hw) == t.(r := t.r[0 := s.pc], pc := t.mem[s.sp], sp := Wrap(s.sp + 1), intq := false)
  {
    hide ReturnFromInterrupt, Dispatch, Wrap;
    EntryStacks(s);
    ReturnPops(Fetched(t), 0x18);
    PopPointers(s.sp);
  }

  lemma PopPointers(sp: Word)
    ensures Offset(Wrap(Wrap(sp - 2) + 1), 1) == sp && Offset(Wrap(Wrap(sp - 2) + 1), 2) == Wrap(sp + 1)
  {
  }

  lemma StackPointers(sp: Word)
    ensures Offset(Wrap(sp - 2), 2) == sp && Offset(Wrap(Wrap(sp - 2) + 1), 2) != sp
  {
  }

  /** If more messages wait, the next handler is entered at once and finds the same PC and A on the
      same stack. */
  lemma HandlersChain(s: Cpu, t: Cpu, hw: Reply)
    requires |s.queue| > 0 && Balanced(Dispatch(s), t) && AtReturn(t) && FieldA(t.mem[t.pc]) != 0x18
    ensures |t.queue| == 0 ==> Step(t, hw) == Executed(t, hw)
    ensures |t.queue| > 0 ==> Balanced(Dispatch(s), Step(t, hw)) && Step(t, hw).pc == t.ia
  {
    hide ReturnFromInterrupt, Dispatch, Executed, ExecSpecial;
    HandlerReturns(s, t, hw);
    EntryStacks(s);
    if |t.queue| > 0 {
      EntryStacks(Executed(t, hw));
    }
  }

  /** The messages left after one is taken are the ones behind it, in order, exactly when all of
      them carry the same word as the newest. With up to two messages this is always so. */
  lemma QueueOrder(queue: Queue)
    requires |queue| > 0
    ensures Remaining(queue) == queue[1..] <==>
      forall i | 1 <= i < |queue| :: queue[i] == queue[|queue| - 1]
    ensures |queue| <= 2 ==> Remaining(queue) == queue[1..]
  {
    if Remaining(queue) == queue[1..] {
      forall i | 1 <= i < |queue|
        ensures queue[i] == queue[|queue| - 1]
      {
        assert queue[1..][i - 1] == Remaining(queue)[i - 1];
      }
    }
  }
}
