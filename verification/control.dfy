/** The special opcodes as a program sees them: call and return, the interrupt registers, hardware
    queries, resets and messages, each stated by opcode number and register index. */
module Control {
  import opened Words
  import opened Wrappers
  import opened DcpuSpec
  import opened Operands

  /** The machine stands at the special instruction with opcode ob. */
  predicate AtSpecial(s: Cpu, ob: int) {
    !s.skip && !s.extint && OpOf(s.mem[s.pc]) == 0 && FieldB(s.mem[s.pc]) == ob
  }

  function Operand(s: Cpu): Word {
    ValueA(Fetched(s), FieldA(s.mem[s.pc]))
  }

  /** The machine after the operand has been fetched. */
  function Ahead(s: Cpu): Cpu {
    AfterA(Fetched(s), FieldA(s.mem[s.pc]))
  }

  // ----- call and return -----

  /** SET PC, POP */
  const RETURN := 0x01 + 0x1c * 0x20 + 0x18 * 0x400

  /** JSR goes to its operand with the address behind it on top of the stack. */
  lemma Call(s: Cpu, hw: Reply)
    requires AtSpecial(s, 0x01)
    ensures var e := Executed(s, hw);
      e.pc == Operand(s) && e.sp == Wrap(Ahead(s).sp - 1) &&
      e.mem[e.sp] == Wrap(s.pc + 1 + NextWords(FieldA(s.mem[s.pc]))) &&
      e == s.(pc := e.pc, sp := e.sp, mem := s.mem[e.sp := e.mem[e.sp]])
  {
  }

  /** SET PC, POP goes to the address on top of the stack and takes it off. */
  lemma Return(t: Cpu, hw: Reply)
    requires !t.skip && !t.extint && t.mem[t.pc] == RETURN
    ensures Executed(t, hw) == t.(pc := t.mem[t.sp], sp := Wrap(t.sp + 1))
  {
    hide ExecSpecial, ExecTest, ExecModify;
    assert OpOf(RETURN) == 0x01 && FieldB(RETURN) == 0x1c && FieldA(RETURN) == 0x18;
  }

  /** A subroutine that leaves SP and the word on top of the stack as they were when it was called, and
      ends in SET PC, POP, resumes its caller behind the JSR and its operand, with the caller's SP,
      wherever the stack lies. */
  lemma CallReturns(s: Cpu, t: Cpu, hw: Reply, hw': Reply)
    requires AtSpecial(s, 0x01)
    requires var e := Executed(s, hw); t.sp == e.sp && t.mem[t.sp] == e.mem[e.sp]
    requires !t.skip && !t.extint && t.mem[t.pc] == RETURN
    ensures Executed(t, hw') ==
      t.(pc := Wrap(s.pc + 1 + NextWords(FieldA(s.mem[s.pc]))), sp := Ahead(s).sp)
    ensures !Ready(t) ==> Step(t, hw') == Executed(t, hw')
    ensures Ready(t) ==> Step(t, hw') == Dispatch(Executed(t, hw'))
  {
    hide Executed, Dispatch, Ahead;
    Call(s, hw);
    Return(t, hw');
    WrapTwice(Ahead(s).sp - 1, 1);
    NotSpecial(t, hw');
  }

  lemma NotSpecial(t: Cpu, hw: Reply)
    requires !t.skip && !t.extint && t.mem[t.pc] == RETURN
    ensures Polls(t, hw)
  {
    assert OpOf(RETURN) == 0x01;
  }

  // ----- interrupt control -----

  /** IAS sets the handler, and IAQ masks interrupts if and only if its operand is not zero; neither
      changes anything else but what the operand takes, and IAS 0 empties the queue. */
  lemma InterruptRegisters(s: Cpu, hw: Reply)
    ensures AtSpecial(s, 0x0a) ==>
      Executed(s, hw) == Ahead(s).(ia := Operand(s), queue := if Operand(s) == 0 then [] else s.queue)
    ensures AtSpecial(s, 0x0c) ==> Executed(s, hw) == Ahead(s).(intq := Operand(s) != 0)
  {
    hide AfterA, ValueA;
    FetchKeeps(s);
  }

  lemma FetchKeeps(s: Cpu)
    ensures Ahead(s) == s.(pc := Ahead(s).pc, sp := Ahead(s).sp)
  {
  }

  /** INT queues its operand if there is a handler and room for it. */
  lemma SoftwareInterrupt(s: Cpu, hw: Reply)
    requires AtSpecial(s, 0x08)
    ensures Executed(s, hw) ==
      Ahead(s).(queue := if s.ia != 0 && |s.queue| < 256 then s.queue + [Operand(s)] else s.queue)
  {
    hide AfterA, ValueA;
    FetchKeeps(s);
  }

  /** IAG A and HWN A load A with the handler and with the number of devices. */
  lemma Reports(s: Cpu, hw: Reply)
    requires FieldA(s.mem[s.pc]) == 0
    ensures AtSpecial(s, 0x09) ==> Executed(s, hw) == Fetched(s).(r := s.r[0 := s.ia])
    ensures AtSpecial(s, 0x10) ==> Executed(s, hw) == Fetched(s).(r := s.r[0 := s.hwcount])
  {
    hide ReturnFromInterrupt, Hardware;
  }

  // ----- hardware -----

  /** HWQ loads A, B, C, X and Y from the answer, or zeros without one; HWI loads all eight. */
  lemma HardwareAnswers(s: Cpu, hw: Reply, i: nat)
    requires i < 8
    ensures AtSpecial(s, 0x11) ==>
      Executed(s, hw).r[i] == if i >= 5 then s.r[i] else if hw.status == 0 then hw.r[i] else 0
    ensures AtSpecial(s, 0x12) ==> Executed(s, hw).r[i] == hw.r[i]
  {
    hide AfterA, ValueA, StoreAll, InterruptAll;
    FetchKeeps(s);
    RegistersKept(Ahead(s).(mem := StoreAll(Ahead(s).mem, hw.stores)), hw.raised);
  }

  lemma {:induction false} RegistersKept(s: Cpu, raised: seq<Word>)
    ensures InterruptAll(s, raised).r == s.r && InterruptAll(s, raised).pc == s.pc
    decreases raised
  {
    if |raised| > 0 {
      RegistersKept(Interrupt(s, raised[0]), raised[1..]);
    }
  }

  /** A HWI answered with a positive status makes the machine wait one step, which executes nothing and
      costs one cycle, and only after which a waiting interrupt is entered. */
  lemma HardwareWait(s: Cpu, hw: Reply, hw': Reply)
    requires AtSpecial(s, 0x12) && hw.status > 0
    ensures var t := Step(s, hw);
      t.extint && Step(t, hw') == DispatchIfReady(t.(extint := false)) &&
      (!t.Burning() ==> Cost(t) == 1)
  {
    hide ExecBasic, Hardware, ValueA, AfterA, DispatchIfReady;
  }

  /** An interrupt that meets a full queue sets the machine on fire: it is dropped, and the next step
      executes nothing and costs three cycles. */
  lemma OnFire(s: Cpu, message: Word, hw: Reply)
    requires s.ia != 0 && |s.queue| == 256
    ensures var t := Delivered(s, [2, message]);
      t.queue == s.queue && t.Burning() && Cost(t) == 3 && Step(t, hw) == t.(extint := false)
  {
  }

  // ----- messages and reset -----

  /** A register message [3, w1, w2, ...] loads register i with word i + 1, as far as there are words,
      but never the last register. */
  lemma RegisterMessage(s: Cpu, msg: seq<Word32>, i: nat)
    requires |msg| > 0 && msg[0] == 3 && i < 8
    ensures Delivered(s, msg).r[i] == if i < 7 && i + 1 < |msg| then msg[i + 1] % 0x1_0000 else s.r[i]
    ensures Delivered(s, msg) == s.(r := Delivered(s, msg).r)
  {
  }

  /** A reset machine: everything is zero, and nothing waits. */
  lemma ResetState(s: Cpu, devices: Option<Word>, i: nat, x: Word)
    requires i < 8
    ensures var t := AfterReset(s, devices);
      t.r[i] == t.pc == t.sp == t.ex == t.ia == t.mem[x] == 0 && t.queue == [] &&
      !t.skip && !t.intq && !t.extint && !t.Burning() &&
      (devices.Some? ==> t.hwcount == devices.value) && (devices.None? ==> t.hwcount == s.hwcount)
  {
  }

  // ----- how far PC moves -----

  predicate Defined(ob: int) {
    0x01 <= ob <= 0x0c || 0x10 <= ob <= 0x12
  }

  /** A special instruction other than JSR and RFI moves PC as skipping it does if and only if it is
      defined or its operand has no word of its own; for IAG and HWN, that stores through five bits,
      the operand is not PC. */
  lemma SpecialPc(s: Cpu, hw: Reply)
    requires var w := s.mem[s.pc];
      !s.skip && !s.extint && OpOf(w) == 0 && FieldB(w) != 0x01 && FieldB(w) != 0x0b &&
      (FieldB(w) == 0x09 || FieldB(w) == 0x10 ==> FieldA(w) < 32 && FieldA(w) != 0x1c)
    ensures var w := s.mem[s.pc];
      Executed(s, hw).pc == SkipOver(s, w).pc <==> Defined(FieldB(w)) || NextWords(FieldA(w)) == 0
  {
    hide ExecSpecial, NextWords;
    var w := s.mem[s.pc];
    AdvanceOfSpecial(Fetched(s), FieldB(w), FieldA(w), hw);
    NoneOrOne(FieldA(w));
    NextAddress(s.pc);
  }

  lemma NoneOrOne(p: int)
    ensures NextWords(p) <= 1
  {
  }

  lemma AdvanceOfSpecial(s: Cpu, ob: int, oa: int, hw: Reply)
    requires 0 <= ob < 32 && 0 <= oa < 64 && ob != 0x01 && ob != 0x0b
    requires ob == 0x09 || ob == 0x10 ==> oa < 32 && oa != 0x1c
    ensures ExecSpecial(s, ob, oa, hw).pc == if Defined(ob) then Wrap(s.pc + NextWords(oa)) else s.pc
  {
    hide StoreB, ValueA, StoreAll, InterruptAll, NextWords, ReturnFromInterrupt;
    if ob == 0x09 || ob == 0x10 {
      StorePc(s, oa, s.ia);
      StorePc(s, oa, s.hwcount);
    } else if ob == 0x11 || ob == 0x12 {
      var s1 := AfterA(s, oa);
      RegistersKept(s1.(mem := StoreAll(s1.mem, hw.stores)), hw.raised);
    }
  }

  lemma NextAddress(pc: Word)
    ensures Wrap(pc + 1) != Wrap(pc + 2) && Wrap(Wrap(pc + 1) + 1) == Wrap(pc + 2)
  {
  }
}
