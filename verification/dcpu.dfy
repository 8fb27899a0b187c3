/** The interpreter of dcpu.cpp: operands are fetched in two phases and written back by resolving
    b a second time. Every method is proved against the one-step machine of `DcpuSpec`. */
module Dcpu {
  import opened Words
  import opened Alu
  import opened DcpuSpec
  import opened Ram
  import opened Wrappers

  class Dcpu16 {
    const R: array<Word>
    var PC: Word
    var SP: Word
    var EX: Word
    var IA: Word
    var skip: bool
    var intq: bool
    var extint: bool
    var hot: bool
    var opCycles: nat  // pr->cycl: operand words of the current instruction
    const IQU: array<Word>
    var IQC: nat
    var hwcount: Word
    const ram: Memory16

    constructor (memory: Memory16)
      requires memory.cells.Length == SIZE
      ensures ram == memory && fresh(R) && fresh(IQU) && Valid()
    {
      R, IQU, ram := new Word[8](i => 0), new Word[QUEUE_LIMIT](i => 0), memory;
      PC, SP, EX, IA, hwcount := 0, 0, 0, 0, 0;
      skip, intq, extint, hot := false, false, false, false;
      opCycles, IQC := 0, 0;
    }

    ghost predicate Valid()
      reads this
    {
      R.Length == 8 && IQU.Length == QUEUE_LIMIT && ram.cells.Length == SIZE &&
      R != IQU && R != ram.cells && IQU != ram.cells && IQC <= QUEUE_LIMIT
    }

    ghost function Repr(): set<object> {
      {this, R, IQU, ram.cells}
    }

    ghost function State(): Cpu
      requires Valid()
      reads this, R, IQU, ram.cells
    {
      Cpu(R[..], PC, SP, EX, IA, skip, intq, extint, hot, IQU[..IQC], hwcount, ram.cells[..])
    }

    // ----- operands -----

    /** x_rd and x_wr at an address that fits the memory. */
    method Load(a: Word) returns (v: Word)
      requires Valid()
      ensures v == ram.cells[a]
    {
      v := ram.Read(a);
    }

    method Store(a: Word, v: Word)
      requires Valid()
      modifies ram.cells
      ensures ram.cells[..] == old(ram.cells[..])[a := v]
    {
      ram.Write(a, v);
    }

    /** x_rd(PC++) */
    method NextWord() returns (v: Word)
      requires Valid()
      modifies this`PC
      ensures v == old(ram.cells[PC]) && PC == Wrap(old(PC) + 1)
    {
      v := Load(PC);
      PC := Wrap(PC + 1);
    }

    method SetReg(i: int, v: Word)
      requires Valid() && 0 <= i < 8
      modifies R
      ensures R[..] == old(R[..])[i := v]
    {
      R[i] := v;
    }

    /** The modes of DCPU_deref that take a word from the instruction stream. */
    method DerefNext(p: int) returns (v: Word)
      requires Valid() && NextWords(p) == 1
      modifies this`PC, this`opCycles
      ensures PC == Wrap(old(PC) + 1) && opCycles == old(opCycles) + 1
      ensures v == ValueA(old(State()), p)
    {
      hide Wrap, Offset;
      opCycles := opCycles + 1;
      v := NextWord();
      if p < 0x18 {
        v := Load(Offset(v, R[p - 0x10]));
      } else if p == 0x1a {
        v := Load(Offset(SP, v));
      } else if p == 0x1e {
        v := Load(v);
      }
    }

    /** The modes of DCPU_deref and DCPU_derefB that leave PC and SP alone. */
    method DerefPlain(p: int) returns (v: Word)
      requires Valid() && 0 <= p < 64 && NextWords(p) == 0 && p != 0x18
      ensures v == Get(State(), PlaceOf(State(), p))
    {
      if p < 0x08 {
        v := R[p];
      } else if p < 0x10 {
        v := Load(R[p - 0x08]);
      } else if p == 0x19 {
        v := Load(SP);
      } else if p == 0x1b {
        v := SP;
      } else if p == 0x1c {
        v := PC;
      } else if p == 0x1d {
        v := EX;
      } else {
        v := Wrap(p - 0x21);
      }
    }

    /** DCPU_deref */
    method Deref(p: int) returns (v: Word)
      requires Valid() && 0 <= p < 64
      modifies this`PC, this`SP, this`opCycles
      ensures State() == AfterA(old(State()), p) && v == ValueA(old(State()), p)
      ensures opCycles == old(opCycles) + NextWords(p)
    {
      if NextWords(p) == 1 {
        v := DerefNext(p);
      } else if p == 0x18 {
        v := Load(SP);
        SP := Wrap(SP + 1);
      } else {
        v := DerefPlain(p);
      }
    }

    /** The modes of DCPU_derefB that look at a word of the instruction stream. */
    method PeekNext(p: int) returns (v: Word)
      requires Valid() && NextWords(p) == 1
      modifies this`opCycles
      ensures v == ValueB(old(State()), p) && opCycles == old(opCycles) + 1
    {
      hide Wrap, Offset;
      opCycles := opCycles + 1;
      v := Load(PC);
      if p < 0x18 {
        v := Load(Offset(v, R[p - 0x10]));
      } else if p == 0x1a {
        v := Load(Offset(SP, v));
      } else if p == 0x1e {
        v := Load(v);
      }
    }

    /** DCPU_derefB: reads b, moving SP for a push but leaving PC at the operand word. */
    method DerefB(p: int) returns (v: Word)
      requires Valid() && 0 <= p < 32
      modifies this`SP, this`opCycles
      ensures State() == Pushed(old(State()), p) && v == ValueB(old(State()), p)
      ensures opCycles == old(opCycles) + NextWords(p)
    {
      if NextWords(p) == 1 {
        v := PeekNext(p);
      } else if p == 0x18 {
        SP := Wrap(SP - 1);
        v := Load(SP);
      } else {
        v := DerefPlain(p);
      }
    }

    /** The store through an extra word, common to DCPU_reref and DCPU_rerefB. */
    method StoreNext(p: int, v: Word)
      requires Valid() && NextWords(p) == 1
      modifies this`PC, this`opCycles, ram.cells
      ensures State() == Put(Advance(old(State()), p), PlaceOf(old(State()), p), v)
      ensures opCycles == old(opCycles) + 1
    {
      hide Wrap, Offset;
      opCycles := opCycles + 1;
      var next := NextWord();
      if p < 0x18 {
        Store(Offset(next, R[p - 0x10]), v);
      } else if p == 0x1a {
        Store(Offset(SP, next), v);
      } else if p == 0x1e {
        Store(next, v);
      }
    }

    /** The store without one. */
    method StorePlain(p: int, v: Word)
      requires Valid() && 0 <= p < 32 && NextWords(p) == 0
      modifies this`PC, this`SP, this`EX, R, ram.cells
      ensures State() == Put(old(State()), PlaceOf(old(State()), p), v)
    {
      if p < 0x08 {
        SetReg(p, v);
      } else if p < 0x10 {
        Store(R[p - 0x08], v);
      } else if p == 0x18 || p == 0x19 {
        Store(SP, v);
      } else if p == 0x1b {
        SP := v;
      } else if p == 0x1c {
        PC := v;
      } else {
        EX := v;
      }
    }

    /** DCPU_rerefB: resolves b again, with a push already made, and stores. */
    method RerefB(p: int, v: Word)
      requires Valid() && 0 <= p < 32
      modifies this`PC, this`SP, this`EX, this`opCycles, R, ram.cells
      ensures State() == Put(Advance(old(State()), p), PlaceOf(old(State()), p), v)
      ensures opCycles == old(opCycles) + NextWords(p)
    {
      if NextWords(p) == 1 {
        StoreNext(p, v);
      } else {
        StorePlain(p, v);
      }
    }

    /** DCPU_reref: stores to b in one phase; mode 0x18 pushes. */
    method Reref(field: int, v: Word)
      requires Valid() && 0 <= field < 64
      modifies this`PC, this`SP, this`EX, this`opCycles, R, ram.cells
      ensures State() == StoreB(old(State()), field % 32, v)
      ensures opCycles == old(opCycles) + NextWords(field % 32)
    {
      var p := field % 32;
      if NextWords(p) == 1 {
        StoreNext(p, v);
      } else {
        if p == 0x18 {
          SP := Wrap(SP - 1);
        }
        assert State() == Pushed(old(State()), p);
        StorePlain(p, v);
      }
    }

    /** DCPU_skipref */
    method SkipRef(p: int)
      requires Valid() && 0 <= p < 64
      modifies this`PC, this`opCycles
      ensures PC == Wrap(old(PC) + NextWords(p)) && opCycles == old(opCycles) + NextWords(p)
    {
      if (p >= 0x10 && p < 0x18) || p == 0x1a || p == 0x1e || p == 0x1f {
        PC := Wrap(PC + 1);
        opCycles := opCycles + 1;
      }
    }

    // ----- messages and reset -----

    /** DCPU16::MsgIn. ISE_SREG loads registers from the message (the last one, J, cannot be reached);
        ISE_XINT is an interrupt. */
    method MsgIn(msg: seq<Word32>) returns (r: int)
      requires Valid() && |msg| > 0 && (msg[0] == XINT ==> |msg| > 1)
      modifies this, R, IQU
      ensures Valid() && opCycles == old(opCycles)
      ensures State() == Delivered(old(State()), msg)
      ensures r == if msg[0] == XINT && old(IA) != 0 && old(IQC) == QUEUE_LIMIT then HUGE_FIREBALL else 0
    {
      r := 0;
      if msg[0] == SREG {
        ghost var s0 := State();
        var n := if |msg| < 8 then |msg| else 8;
        for i := 1 to n
          invariant Valid() && opCycles == old(opCycles)
          invariant State() == s0.(r := State().r)
          invariant forall k | 0 <= k < 8 :: R[k] == if k < i - 1 then Low(msg[k + 1]) else s0.r[k]
        {
          R[i - 1] := Low(msg[i]);
        }
        assert State().r == RegistersFrom(s0.r, msg);
      } else if msg[0] == XINT {
        if IA != 0 && IQC == 256 {
          r := HUGE_FIREBALL;
        }
        Receive(Low(msg[1]));
      }
    }

    method ClearControl()
      requires Valid()
      modifies this
      ensures Valid() && IQC == opCycles == 0 && hwcount == old(hwcount)
      ensures (PC, EX, SP, IA) == (0, 0, 0, 0) && !skip && !intq && !extint && !hot
    {
      PC, EX, SP, IA, opCycles, IQC := 0, 0, 0, 0, 0, 0;
      skip, intq, extint, hot := false, false, false, false;
    }

    /** DCPU16::Reset. `devices` is the answer of the bus to ISE_RESET, if there is one. */
    method Reset(devices: Option<Word>)
      requires Valid()
      modifies this, R, ram.cells
      ensures Valid() && State() == AfterReset(old(State()), devices) && opCycles == 0
    {
      hide BlankMemory;
      SetRegs(NO_REGISTERS, 8);
      ram.Clear();
      ClearControl();
      if devices.Some? {
        hwcount := devices.value;
      }
    }

    // ----- interrupts -----

    /** The ISE_XINT branch of MsgIn. */
    method Receive(message: Word)
      requires Valid()
      modifies this, IQU
      ensures Valid() && State() == Interrupt(old(State()), message) && opCycles == old(opCycles)
    {
      if IA != 0 {
        if IQC < 256 {
          IQU[IQC] := message;
          IQC := IQC + 1;
          assert IQU[..IQC] == old(IQU[..IQC]) + [message];
        } else {
          skip, intq, extint, hot := false, true, true, true;
        }
      }
    }

    /** Moves the queued messages down one place, from the top. */
    method ShiftQueue()
      requires Valid() && 0 < IQC
      modifies this`IQC, IQU
      ensures IQC == old(IQC) - 1 && IQU[..IQC] == Remaining(old(IQU[..IQC]))
    {
      IQC := IQC - 1;
      ghost var newest := IQU[IQC];
      var i := IQC;
      while i > 0
        invariant 0 <= i <= IQC
        invariant IQC == old(IQC) - 1 && IQU[i] == newest
        invariant forall k | i <= k < IQC :: IQU[k] == newest
      {
        IQU[i - 1] := IQU[i];
        i := i - 1;
      }
    }

    method EnterHandler()
      requires Valid() && IQC > 0
      modifies this, R, IQU, ram.cells
      ensures Valid() && State() == Dispatch(old(State())) && opCycles == old(opCycles)
    {
      hide StoreB;
      ghost var s0 := State();
      Reref(0x18, PC);
      assert State() == Push(s0, s0.pc);
      Reref(0x18, R[0]);
      assert State() == Push(Push(s0, s0.pc), s0.r[0]);
      SetReg(0, IQU[0]);
      PC := IA;
      intq := true;
      ShiftQueue();
    }

    /** The check at the end of every instruction. */
    method CheckQueue()
      requires Valid()
      modifies this, R, IQU, ram.cells
      ensures Valid() && State() == DispatchIfReady(old(State())) && opCycles == old(opCycles)
    {
      if !(skip || intq) && IQC > 0 {
        EnterHandler();
      }
    }

    // ----- one instruction -----

    /** A basic opcode: fetch a, fetch b without consuming it, compute, write b back. */
    method ExecuteBasic(op: int, oa: int, ob: int) returns (cycles: nat)
      requires Valid() && 0 < op < 32 && 0 <= oa < 64 && 0 <= ob < 32
      modifies this`PC, this`SP, this`EX, this`opCycles, this`skip, R, ram.cells
      ensures State() == ExecBasic(old(State()), op, oa, ob)
      ensures cycles + opCycles == BasicCost(old(State()), op, oa, ob) + old(opCycles)
    {
      TablesAgree(op);
      cycles := BASIC_CYCLES[op];
      if FETCH[op] == 1 {
        ReadModifyWrite(op, oa, ob);
      } else if FETCH[op] == 2 {
        var penalty := Test(op, oa, ob);
        cycles := cycles + penalty;
      } else if FETCH[op] == 3 {
        WriteOnly(op, oa, ob);
      } else {
        var alu1 := Deref(oa);
      }
    }

    method ReadModifyWrite(op: int, oa: int, ob: int)
      requires Valid() && ReadsAndWrites(op) && 0 <= oa < 64 && 0 <= ob < 32
      modifies this`PC, this`SP, this`EX, this`opCycles, R, ram.cells
      ensures State() == ExecModify(old(State()), op, oa, ob)
      ensures opCycles == old(opCycles) + NextWords(oa) + 2 * NextWords(ob)
    {
      var alu1 := Deref(oa);
      ghost var s1 := State();
      var b := DerefB(ob);
      var alu2: Word32 := EX * 0x1_0000 + b;
      assert Low(alu2) == b && High(alu2) == s1.ex;
      alu2 := Compute(op, alu1, alu2);
      TablesAgree(op);
      ghost var (v, ex) := Basic(op, b, alu1, s1.ex);
      WriteBack(op, ob, alu2, s1, v, ex);
    }

    /** The second operand phase (`switch(DCPU_dwtbl[op])`). */
    method WriteBack(op: int, ob: int, alu2: Word32, ghost s1: Cpu, ghost v: Word, ghost ex: Word)
      requires Valid() && ReadsAndWrites(op) && 0 <= ob < 32
      requires State() == Pushed(s1, ob) && Stored(op, alu2, s1.ex) == (v, ex)
      modifies this`PC, this`SP, this`EX, this`opCycles, R, ram.cells
      ensures State() == if KeepsEx(op) then StoreB(s1, ob, v) else StoreB(s1, ob, v).(ex := ex)
      ensures opCycles == old(opCycles) + NextWords(ob)
    {
      TablesAgree(op);
      if WRITE_BACK[op] == 1 {
        RerefB(ob, Low(alu2));
        EX := High(alu2);
      } else if WRITE_BACK[op] == 2 {
        RerefB(ob, High(alu2));
        EX := Low(alu2);
      } else {
        RerefB(ob, Low(alu2));
      }
    }

    /** The conditional opcodes. A failed test costs one cycle more. */
    method Test(op: int, oa: int, ob: int) returns (penalty: nat)
      requires Valid() && Tests(op) && 0 <= oa < 64 && 0 <= ob < 32
      modifies this`PC, this`SP, this`opCycles, this`skip
      ensures State() == ExecTest(old(State()), op, oa, ob)
      ensures penalty + opCycles == BasicCost(old(State()), op, oa, ob) - BASIC_CYCLES[op] + old(opCycles)
    {
      var alu1 := Deref(oa);
      var alu2 := Deref(ob);
      penalty := 0;
      if !Holds(op, alu2, alu1) {
        skip := true;
        penalty := 1;
      }
    }

    /** SET, STI and STD. */
    method WriteOnly(op: int, oa: int, ob: int)
      requires Valid() && WritesOnly(op) && 0 <= oa < 64 && 0 <= ob < 32
      modifies this`PC, this`SP, this`EX, this`opCycles, R, ram.cells
      ensures State() == ExecWrite(old(State()), op, oa, ob)
      ensures opCycles == old(opCycles) + NextWords(oa) + NextWords(ob)
    {
      hide StoreB, ValueA, AfterA, Stepped;
      var alu1 := Deref(oa);
      Reref(ob, alu1);
      if op == STI {
        StepIndices(1);
      } else if op == STD {
        StepIndices(-1);
      }
    }

    method StepIndices(delta: int)
      requires Valid()
      modifies R
      ensures State() == Stepped(old(State()), delta)
    {
      SetReg(6, Offset(R[6], delta));
      SetReg(7, Offset(R[7], delta));
    }

    /** The effects of the devices while a hardware message is delivered. */
    method RunHardware(hw: Reply)
      requires Valid()
      modifies this, IQU, ram.cells
      ensures Valid() && State() == Hardware(old(State()), hw) && opCycles == old(opCycles)
    {
      ghost var s0 := State();
      for i := 0 to |hw.stores|
        invariant Valid() && opCycles == old(opCycles)
        invariant State() == s0.(mem := State().mem)
        invariant StoreAll(State().mem, hw.stores[i..]) == StoreAll(s0.mem, hw.stores)
      {
        assert hw.stores[i..][1..] == hw.stores[i + 1..];
        Store(hw.stores[i].0, hw.stores[i].1);
      }
      ghost var s1 := State();
      for i := 0 to |hw.raised|
        invariant Valid() && opCycles == old(opCycles)
        invariant InterruptAll(State(), hw.raised[i..]) == InterruptAll(s1, hw.raised)
      {
        assert hw.raised[i..][1..] == hw.raised[i + 1..];
        Receive(hw.raised[i]);
      }
    }

    method SetRegs(values: Registers, n: nat)
      requires Valid() && n <= 8
      modifies R
      ensures R[..] == values[..n] + old(R[..])[n..]
      ensures n == 8 ==> R[..] == values
    {
      for i := 0 to n
        invariant R[..i] == values[..i] && R[i..] == old(R[..])[i..]
      {
        R[i] := values[i];
      }
    }

    method QueryHardware(oa: int, hw: Reply)
      requires Valid() && 0 <= oa < 64
      modifies this, R, IQU, ram.cells
      ensures Valid() && State() == ExecSpecial(old(State()), HWQ, oa, hw)
      ensures opCycles == old(opCycles) + NextWords(oa)
    {
      var alu1 := Deref(oa);
      RunHardware(hw);
      if hw.status == 0 {
        SetRegs(hw.r, 5);
      } else {
        SetRegs(NO_REGISTERS, 5);
      }
    }

    /** HWI; the result says whether the step ends without looking at the interrupt queue. */
    method InterruptHardware(oa: int, hw: Reply) returns (waits: bool)
      requires Valid() && 0 <= oa < 64
      modifies this, R, IQU, ram.cells
      ensures Valid() && State() == ExecSpecial(old(State()), HWI, oa, hw)
      ensures opCycles == old(opCycles) + NextWords(oa) && waits == (hw.status > 0)
    {
      var alu1 := Deref(oa);
      RunHardware(hw);
      waits := hw.status > 0;
      if waits {
        extint := true;
      }
      SetRegs(hw.r, 8);
    }

    /** JSR, and the opcodes that only take their operand. */
    method Jump(ob: int, oa: int)
      requires Valid() && 0 <= oa < 64 && JSR <= ob < INT
      modifies this`PC, this`SP, this`EX, this`opCycles, R, ram.cells
      ensures forall hw :: State() == ExecSpecial(old(State()), ob, oa, hw)
      ensures opCycles == old(opCycles) + NextWords(oa)
    {
      var alu1 := Deref(oa);
      if ob == JSR {
        Reref(0x18, PC);
        PC := alu1;
      }
    }

    /** INT, IAS and IAQ. */
    method InterruptControl(ob: int, oa: int)
      requires Valid() && 0 <= oa < 64 && (ob == INT || ob == IAS || ob == IAQ)
      modifies this, IQU
      ensures Valid() && forall hw :: State() == ExecSpecial(old(State()), ob, oa, hw)
      ensures opCycles == old(opCycles) + NextWords(oa)
    {
      var alu1 := Deref(oa);
      if ob == INT {
        if IA != 0 {
          if IQC < 256 {
            ghost var before := IQU[..IQC];
            IQU[IQC] := alu1;
            IQC := IQC + 1;
            assert IQU[..IQC] == before + [alu1];
          }
        }
      } else if ob == IAS {
        IA := alu1;
        if IA == 0 {
          IQC := 0;
        }
      } else {
        intq := alu1 != 0;
      }
    }

    method LeaveHandler(oa: int)
      requires Valid() && 0 <= oa < 64
      modifies this, R
      ensures Valid() && State() == ReturnFromInterrupt(AfterA(old(State()), oa))
      ensures opCycles == old(opCycles) + NextWords(oa)
    {
      var alu1 := Deref(oa);
      ghost var s1 := State();
      var a := Deref(0x18);
      SetReg(0, a);
      assert State() == AfterA(s1, 0x18).(r := s1.r[0 := ValueA(s1, 0x18)]);
      var returnTo := Deref(0x18);
      PC := returnTo;
      intq := false;
    }

    method ExecuteSpecial(ob: int, oa: int, hw: Reply) returns (cycles: nat, waits: bool)
      requires Valid() && 0 <= oa < 64 && 0 <= ob < 32
      modifies this, R, IQU, ram.cells
      ensures Valid() && State() == ExecSpecial(old(State()), ob, oa, hw)
      ensures cycles + opCycles == SpecialCost(ob, oa) + old(opCycles)
      ensures waits == (ob == HWI && hw.status > 0)
    {
      cycles, waits := SPECIAL_CYCLES[ob], false;
      if JSR <= ob < INT {
        Jump(ob, oa);
      } else if ob == INT || ob == IAS || ob == IAQ {
        InterruptControl(ob, oa);
      } else if ob == RFI {
        LeaveHandler(oa);
      } else if ob == IAG {
        Reref(oa, IA);
      } else if ob == HWN {
        Reref(oa, hwcount);
      } else if ob == HWQ {
        QueryHardware(oa, hw);
      } else if ob == HWI {
        waits := InterruptHardware(oa, hw);
      }
    }

    /** The skip path: the operands of the instruction are passed over. */
    method Skip(w: Word) returns (cycles: nat)
      requires Valid() && !extint && skip && w == State().mem[PC]
      modifies this`PC, this`opCycles, this`skip
      ensures State() == SkipOver(old(State()), w)
      ensures cycles + opCycles == 1 + ExtraWords(w) + old(opCycles)
    {
      hide Wrap;
      WrapTwice(PC + 1, NextWords(FieldA(w)));
      WrapTwice(PC + 1 + NextWords(FieldA(w)), NextWords(FieldB(w)));
      PC := Wrap(PC + 1);
      cycles := 1;
      SkipRef(FieldA(w));
      if OpOf(w) == 0 {
        skip := false;
      } else {
        SkipRef(FieldB(w));
        if OpOf(w) < IFB || OpOf(w) > IFU {
          skip := false;
        }
      }
    }

    method Execute(w: Word, hw: Reply) returns (cycles: nat, waits: bool)
      requires Valid() && w == State().mem[PC]
      modifies this, R, IQU, ram.cells
      ensures Valid() && State() == Exec(old(State()), w, hw) && waits == Waits(w, hw)
      ensures cycles + opCycles == ExecCost(old(State()), w) + old(opCycles)
    {
      hide ExecBasic, ExecSpecial, BasicCost, SpecialCost;
      PC := Wrap(PC + 1);
      waits := false;
      if OpOf(w) == 0 {
        cycles, waits := ExecuteSpecial(FieldB(w), FieldA(w), hw);
      } else {
        cycles := ExecuteBasic(OpOf(w), FieldA(w), FieldB(w));
      }
    }

    /** One turn of the loop in `DCPU16::Run`, without the debugger. */
    method StepOnce(hw: Reply) returns (cycles: nat)
      requires Valid() && opCycles == 0
      modifies this, R, IQU, ram.cells
      ensures Valid() && opCycles == 0
      ensures State() == Step(old(State()), hw) && cycles == Cost(old(State()))
      ensures 1 <= cycles <= 6
    {
      hide Exec, ExecCost, SkipOver, DispatchIfReady;
      CostBound(State());
      var burning := if hot && !skip && intq && extint then 3 else 0;
      var waits, c := false, 0;
      if extint {
        extint := false;
      } else if skip {
        var w := Load(PC);
        c := Skip(w);
        waits := true;
      } else {
        var w := Load(PC);
        c, waits := Execute(w, hw);
      }
      if !waits {
        CheckQueue();
      }
      cycles := burning + c + opCycles;
      opCycles := 0;
      if cycles == 0 {
        cycles := 1;
      }
    }
  }
}
