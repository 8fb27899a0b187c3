/** DCPU-16 version 1.7 as a one-step machine: every operand is resolved once, to a place, and an
    opcode reads and writes that place. `Dcpu` proves that the interpreter computes this. */
module DcpuSpec {
  import opened Words
  import opened Alu
  import opened Ram
  import opened Wrappers

  type Registers = s: seq<Word> | |s| == 8 witness [0, 0, 0, 0, 0, 0, 0, 0]

  const NO_REGISTERS: Registers := [0, 0, 0, 0, 0, 0, 0, 0]

  const QUEUE_LIMIT := 256

  type Queue = s: seq<Word> | |s| <= QUEUE_LIMIT

  /** The C++ field MODE is `skip | intq << 1 | extint << 3`, plus the constant 0xB19F144 once the
      machine has burned; `hot` records that constant. */
  datatype Cpu = Cpu(
    r: Registers, pc: Word, sp: Word, ex: Word, ia: Word,
    skip: bool, intq: bool, extint: bool, hot: bool,
    queue: Queue, hwcount: Word, mem: Memory)
  {
    /** MODE == BURNING */
    predicate Burning() {
      hot && !skip && intq && extint
    }
  }

  /** Where an operand lives. */
  datatype Place = Reg(i: int) | Cell(a: Word) | Sp | Pc | Ex | Literal(v: Word)

  predicate Proper(p: Place) {
    p.Reg? ==> 0 <= p.i < 8
  }

  function Get(s: Cpu, p: Place): Word
    requires Proper(p)
  {
    match p
    case Reg(i) => s.r[i]
    case Cell(a) => s.mem[a]
    case Sp => s.sp
    case Pc => s.pc
    case Ex => s.ex
    case Literal(v) => v
  }

  /** Storing to a literal is ignored. */
  function Put(s: Cpu, p: Place, v: Word): Cpu
    requires Proper(p)
  {
    match p
    case Reg(i) => s.(r := s.r[i := v])
    case Cell(a) => s.(mem := s.mem[a := v])
    case Sp => s.(sp := v)
    case Pc => s.(pc := v)
    case Ex => s.(ex := v)
    case Literal(_) => s
  }

  /** How many extra words an operand mode takes from the instruction stream. */
  function NextWords(p: int): nat {
    if 0x10 <= p < 0x18 || p == 0x1a || p == 0x1e || p == 0x1f then 1 else 0
  }

  /** The place an operand mode denotes when the stack pointer is already in position and the
      program counter stands at the operand's own word. */
  function PlaceOf(s: Cpu, p: int): (place: Place)
    requires 0 <= p < 64
    ensures Proper(place)
  {
    if p < 0x08 then Reg(p)
    else if p < 0x10 then Cell(s.r[p - 0x08])
    else if p < 0x18 then Cell(Offset(s.mem[s.pc], s.r[p - 0x10]))
    else if p == 0x18 || p == 0x19 then Cell(s.sp)
    else if p == 0x1a then Cell(Offset(s.sp, s.mem[s.pc]))
    else if p == 0x1b then Sp
    else if p == 0x1c then Pc
    else if p == 0x1d then Ex
    else if p == 0x1e then Cell(s.mem[s.pc])
    else if p == 0x1f then Literal(s.mem[s.pc])
    else Literal(Wrap(p - 0x21))
  }

  function Advance(s: Cpu, p: int): Cpu {
    s.(pc := Wrap(s.pc + NextWords(p)))
  }

  function PlaceA(s: Cpu, p: int): (place: Place)
    requires 0 <= p < 64
    ensures Proper(place)
  {
    PlaceOf(s, p)
  }

  /** Resolving an a operand: mode 0x18 pops. */
  function AfterA(s: Cpu, p: int): Cpu {
    var s1 := Advance(s, p);
    if p == 0x18 then s1.(sp := Wrap(s.sp + 1)) else s1
  }

  /** Mode 0x18 of a b operand pushes. */
  function Pushed(s: Cpu, p: int): Cpu {
    if p == 0x18 then s.(sp := Wrap(s.sp - 1)) else s
  }

  function PlaceB(s: Cpu, p: int): (place: Place)
    requires 0 <= p < 64
    ensures Proper(place)
  {
    PlaceOf(Pushed(s, p), p)
  }

  function AfterB(s: Cpu, p: int): Cpu {
    Advance(Pushed(s, p), p)
  }

  function ValueA(s: Cpu, p: int): Word
    requires 0 <= p < 64
  {
    Get(AfterA(s, p), PlaceA(s, p))
  }

  function ValueB(s: Cpu, p: int): Word
    requires 0 <= p < 64
  {
    Get(AfterB(s, p), PlaceB(s, p))
  }

  function StoreB(s: Cpu, p: int, v: Word): Cpu
    requires 0 <= p < 64
  {
    Put(AfterB(s, p), PlaceB(s, p), v)
  }

  // ----- basic opcodes -----

  function Stepped(s: Cpu, delta: int): Cpu {
    s.(r := s.r[6 := Wrap(s.r[6] + delta)][7 := Wrap(s.r[7] + delta)])
  }

  /** SET, and STI and STD, which afterwards move both index registers. */
  function ExecWrite(s: Cpu, op: int, oa: int, ob: int): Cpu
    requires 0 <= oa < 64 && 0 <= ob < 32
  {
    var s2 := StoreB(AfterA(s, oa), ob, ValueA(s, oa));
    if op == STI then Stepped(s2, 1) else if op == STD then Stepped(s2, -1) else s2
  }

  /** Conditional opcodes take b the way a is taken, so that mode 0x18 pops. */
  function ExecTest(s: Cpu, op: int, oa: int, ob: int): Cpu
    requires Tests(op) && 0 <= oa < 64 && 0 <= ob < 32
  {
    var s1 := AfterA(s, oa);
    if Holds(op, ValueA(s1, ob), ValueA(s, oa)) then AfterA(s1, ob) else AfterA(s1, ob).(skip := true)
  }

  /** b := f(b, a); EX := g(b, a). */
  function ExecModify(s: Cpu, op: int, oa: int, ob: int): Cpu
    requires ReadsAndWrites(op) && 0 <= oa < 64 && 0 <= ob < 32
  {
    var s1 := AfterA(s, oa);
    var (v, ex) := Basic(op, ValueB(s1, ob), ValueA(s, oa), s1.ex);
    if KeepsEx(op) then StoreB(s1, ob, v) else StoreB(s1, ob, v).(ex := ex)
  }

  /** A basic opcode, started with PC past the opcode word. */
  function ExecBasic(s: Cpu, op: int, oa: int, ob: int): Cpu
    requires 0 < op < 32 && 0 <= oa < 64 && 0 <= ob < 32
  {
    if WritesOnly(op) then ExecWrite(s, op, oa, ob)
    else if Tests(op) then ExecTest(s, op, oa, ob)
    else if ReadsAndWrites(op) then ExecModify(s, op, oa, ob)
    else AfterA(s, oa)
  }

  /** `DCPU_cycles1` and `DCPU_cycles2` */
  const BASIC_CYCLES: seq<nat> := [
    0, 1, 2, 2, 2, 2, 3, 3,
    3, 3, 1, 1, 1, 1, 1, 1,
    2, 2, 2, 2, 2, 2, 2, 2,
    3, 3, 3, 3, 2, 2, 2, 2
  ]

  const SPECIAL_CYCLES: seq<nat> := [
    0, 3, 0, 0, 0, 0, 0, 0,
    4, 1, 1, 3, 2, 0, 0, 0,
    2, 4, 4, 0, 0, 0, 0, 0,
    0, 0, 0, 0, 0, 0, 0, 0
  ]

  /** A b operand that is read and written back is charged for its extra word twice. */
  function BasicCost(s: Cpu, op: int, oa: int, ob: int): nat
    requires 0 < op < 32 && 0 <= oa < 64 && 0 <= ob < 32
  {
    BASIC_CYCLES[op] + NextWords(oa) +
    (if ReadsAndWrites(op) then 2 * NextWords(ob)
     else if WritesOnly(op) then NextWords(ob)
     else if Tests(op) then
       NextWords(ob) + (if Holds(op, ValueA(AfterA(s, oa), ob), ValueA(s, oa)) then 0 else 1)
     else 0)
  }

  // ----- interrupts -----

  /** An interrupt message arriving from outside. A full queue sets the machine on fire. */
  function Interrupt(s: Cpu, message: Word): Cpu {
    if s.ia == 0 then s
    else if |s.queue| < QUEUE_LIMIT then s.(queue := s.queue + [message])
    else s.(skip := false, intq := true, extint := true, hot := true)
  }

  /** The INT opcode drops its message when the queue is full. */
  function SoftInterrupt(s: Cpu, message: Word): Cpu {
    if s.ia != 0 && |s.queue| < QUEUE_LIMIT then s.(queue := s.queue + [message]) else s
  }

  function Push(s: Cpu, v: Word): (t: Cpu)
    ensures t == s.(sp := Wrap(s.sp - 1), mem := s.mem[Wrap(s.sp - 1) := v])
  {
    StoreB(s, 0x18, v)
  }

  predicate Ready(s: Cpu) {
    !s.skip && !s.intq && |s.queue| > 0
  }

  /** What is left of the queue after the oldest message is taken. The interpreter moves the
      messages down starting from the top, which spreads the newest one over all places. */
  function Remaining(queue: Queue): (rest: Queue)
    requires |queue| > 0
    ensures |rest| == |queue| - 1
  {
    seq(|queue| - 1, i => queue[|queue| - 1])
  }

  /** Entry into the interrupt handler. */
  function Dispatch(s: Cpu): Cpu
    requires |s.queue| > 0
  {
    var s1 := Push(Push(s, s.pc), s.r[0]);
    s1.(r := s1.r[0 := s1.queue[0]], pc := s1.ia, intq := true, queue := Remaining(s1.queue))
  }

  function DispatchIfReady(s: Cpu): Cpu {
    if Ready(s) then Dispatch(s) else s
  }

  // ----- messages and reset -----

  const XINT := 2
  const SREG := 3
  const HUGE_FIREBALL := -3141592

  function RegistersFrom(r: Registers, msg: seq<Word32>): Registers {
    seq(8, (i: nat) requires i < 8 => if i < 7 && i + 1 < |msg| then Low(msg[i + 1]) else r[i])
  }

  /** A message from the bus. */
  function Delivered(s: Cpu, msg: seq<Word32>): Cpu
    requires |msg| > 0 && (msg[0] == XINT ==> |msg| > 1)
  {
    if msg[0] == SREG then s.(r := RegistersFrom(s.r, msg))
    else if msg[0] == XINT then Interrupt(s, Low(msg[1]))
    else s
  }

  function AfterReset(s: Cpu, devices: Option<Word>): Cpu {
    Cpu(NO_REGISTERS, 0, 0, 0, 0, false, false, false, false, [],
        if devices.Some? then devices.value else s.hwcount, BlankMemory())
  }

  // ----- special opcodes -----

  const JSR := 0x01
  const INT := 0x08
  const IAG := 0x09
  const IAS := 0x0a
  const RFI := 0x0b
  const IAQ := 0x0c
  const HWN := 0x10
  const HWQ := 0x11
  const HWI := 0x12

  /** What the hardware does while HWQ or HWI is executed: the status and registers it answers
      with, the memory words it stores and the interrupts it raises. */
  datatype Reply = Reply(status: int, r: Registers, stores: seq<(Word, Word)>, raised: seq<Word>)

  function StoreAll(mem: Memory, stores: seq<(Word, Word)>): Memory
    decreases stores
  {
    if |stores| == 0 then mem else StoreAll(mem[stores[0].0 := stores[0].1], stores[1..])
  }

  function InterruptAll(s: Cpu, raised: seq<Word>): Cpu
    decreases raised
  {
    if |raised| == 0 then s else InterruptAll(Interrupt(s, raised[0]), raised[1..])
  }

  function Hardware(s: Cpu, hw: Reply): Cpu {
    InterruptAll(s.(mem := StoreAll(s.mem, hw.stores)), hw.raised)
  }

  function FirstFive(r: Registers, values: Registers): Registers {
    values[..5] + r[5..]
  }

  /** RFI: the handler returns with A and PC from the stack. */
  function ReturnFromInterrupt(s: Cpu): Cpu {
    var s1 := AfterA(s, 0x18).(r := s.r[0 := ValueA(s, 0x18)]);
    AfterA(s1, 0x18).(pc := ValueA(s1, 0x18), intq := false)
  }

  /** A special opcode. IAG and HWN store through the five low bits of their operand field. */
  function ExecSpecial(s: Cpu, ob: int, oa: int, hw: Reply): Cpu
    requires 0 <= oa < 64 && 0 <= ob < 32
  {
    var a, s1 := ValueA(s, oa), AfterA(s, oa);
    if ob == JSR then Push(s1, s1.pc).(pc := a)
    else if 0x02 <= ob <= 0x07 then s1
    else if ob == INT then SoftInterrupt(s1, a)
    else if ob == IAG then StoreB(s, oa % 32, s.ia)
    else if ob == IAS then s1.(ia := a, queue := if a == 0 then [] else s1.queue)
    else if ob == RFI then ReturnFromInterrupt(s1)
    else if ob == IAQ then s1.(intq := a != 0)
    else if ob == HWN then StoreB(s, oa % 32, s.hwcount)
    else if ob == HWQ then
      var s2 := Hardware(s1, hw);
      s2.(r := FirstFive(s2.r, if hw.status == 0 then hw.r else NO_REGISTERS))
    else if ob == HWI then
      var s2 := Hardware(s1, hw).(r := hw.r);
      if hw.status > 0 then s2.(extint := true) else s2
    else s
  }

  function SpecialCost(ob: int, oa: int): nat
    requires 0 <= oa < 64 && 0 <= ob < 32
  {
    SPECIAL_CYCLES[ob] +
    (if ob == IAG || ob == HWN then NextWords(oa % 32)
     else if JSR <= ob <= IAQ || ob == HWQ || ob == HWI then NextWords(oa)
     else 0)
  }

  // ----- one instruction -----

  function OpOf(w: Word): int { w % 32 }

  function FieldB(w: Word): int { w / 32 % 32 }

  function FieldA(w: Word): int { w / 1024 }

  function Fetched(s: Cpu): Cpu {
    s.(pc := Wrap(s.pc + 1))
  }

  /** The words an instruction occupies besides its opcode. */
  function ExtraWords(w: Word): nat {
    NextWords(FieldA(w)) + if OpOf(w) == 0 then 0 else NextWords(FieldB(w))
  }

  /** Passing over an instruction after a failed test. Another test keeps the skip going. */
  function SkipOver(s: Cpu, w: Word): Cpu {
    s.(pc := Wrap(s.pc + 1 + ExtraWords(w)), skip := Tests(OpOf(w)))
  }

  function Exec(s: Cpu, w: Word, hw: Reply): Cpu {
    if OpOf(w) == 0 then ExecSpecial(Fetched(s), FieldB(w), FieldA(w), hw)
    else ExecBasic(Fetched(s), OpOf(w), FieldA(w), FieldB(w))
  }

  function ExecCost(s: Cpu, w: Word): nat {
    if OpOf(w) == 0 then SpecialCost(FieldB(w), FieldA(w))
    else BasicCost(Fetched(s), OpOf(w), FieldA(w), FieldB(w))
  }

  /** An HWI answered with a positive status ends the step before interrupts are looked at. */
  predicate Waits(w: Word, hw: Reply) {
    OpOf(w) == 0 && FieldB(w) == HWI && hw.status > 0
  }

  /** The machine after one instruction and before interrupts are looked at. */
  function Executed(s: Cpu, hw: Reply): Cpu {
    if s.extint then s.(extint := false)
    else if s.skip then SkipOver(s, s.mem[s.pc])
    else Exec(s, s.mem[s.pc], hw)
  }

  /** Whether the step looks at the interrupt queue at all. */
  predicate Polls(s: Cpu, hw: Reply) {
    s.extint || (!s.skip && !Waits(s.mem[s.pc], hw))
  }

  predicate Dispatches(s: Cpu, hw: Reply) {
    Polls(s, hw) && Ready(Executed(s, hw))
  }

  function Step(s: Cpu, hw: Reply): Cpu {
    if Polls(s, hw) then DispatchIfReady(Executed(s, hw)) else Executed(s, hw)
  }

  function Cost(s: Cpu): nat {
    var c :=
      (if s.Burning() then 3 else 0) +
      (if s.extint then 0
       else if s.skip then 1 + ExtraWords(s.mem[s.pc])
       else ExecCost(s, s.mem[s.pc]));
    if c == 0 then 1 else c
  }

  /** No instruction takes more than six cycles: DIV or MOD with an extra word for both operands. */
  lemma CostBound(s: Cpu)
    ensures 1 <= Cost(s) <= 6
  {
    var w := s.mem[s.pc];
    if !s.extint && !s.skip {
      if OpOf(w) == 0 {
        SpecialCostBound(FieldB(w), FieldA(w));
      } else {
        BasicCostBound(Fetched(s), OpOf(w), FieldA(w), FieldB(w));
      }
    }
  }

  lemma BasicCostBound(s: Cpu, op: int, oa: int, ob: int)
    requires 0 < op < 32 && 0 <= oa < 64 && 0 <= ob < 32
    ensures BasicCost(s, op, oa, ob) <= 6
  {
    assert forall i | 0 <= i < 32 :: BASIC_CYCLES[i] <= 3;
    assert forall i | 0x10 <= i < 0x18 :: BASIC_CYCLES[i] == 2;
  }

  lemma SpecialCostBound(ob: int, oa: int)
    requires 0 <= ob < 32 && 0 <= oa < 64
    ensures SpecialCost(ob, oa) <= 5
  {
    assert forall i | 0 <= i < 32 :: SPECIAL_CYCLES[i] <= 4;
  }
}
