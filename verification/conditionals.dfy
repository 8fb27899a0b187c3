/** What the eight conditional opcodes decide, in terms of their operands and of other opcodes. */
module Conditionals {
  import opened Words
  import opened Alu
  import opened AluLaws
  import opened DcpuSpec
  import opened Skipping

  /** The machine stands at the conditional instruction with opcode op. */
  predicate AtTest(s: Cpu, op: int) {
    !s.skip && !s.extint && OpOf(s.mem[s.pc]) == op
  }

  /** The operands: a is fetched before b. */
  function OperandA(s: Cpu): Word {
    ValueA(Fetched(s), FieldA(s.mem[s.pc]))
  }

  function OperandB(s: Cpu): Word {
    ValueA(AfterA(Fetched(s), FieldA(s.mem[s.pc])), FieldB(s.mem[s.pc]))
  }

  lemma Decided(s: Cpu, hw: Reply)
    requires var op := OpOf(s.mem[s.pc]); Tests(op) && AtTest(s, op)
    ensures Executed(s, hw).skip == !Holds(OpOf(s.mem[s.pc]), OperandB(s), OperandA(s))
  {
    hide Executed, ValueA, AfterA, Holds;
    TestOutcome(s, hw);
  }

  /** IFE and IFN run the next instruction if b and a are equal, and if they differ. */
  lemma Equality(s: Cpu, hw: Reply)
    ensures AtTest(s, 0x12) ==> (!Executed(s, hw).skip <==> OperandB(s) == OperandA(s))
    ensures AtTest(s, 0x13) ==> (!Executed(s, hw).skip <==> OperandB(s) != OperandA(s))
  {
    if !s.skip && !s.extint && Tests(OpOf(s.mem[s.pc])) {
      Decided(s, hw);
    }
    hide Executed, OperandA, OperandB;
  }

  /** IFG and IFL compare unsigned: the next instruction runs exactly when a SUB of the operands, in the
      order a, b for IFG and b, a for IFL, would borrow. */
  lemma UnsignedOrder(s: Cpu, hw: Reply, ex: Word)
    ensures AtTest(s, 0x14) ==> (!Executed(s, hw).skip <==> OperandB(s) > OperandA(s))
    ensures AtTest(s, 0x14) ==> (!Executed(s, hw).skip <==> Basic(SUB, OperandA(s), OperandB(s), ex).1 == 0xffff)
    ensures AtTest(s, 0x16) ==> (!Executed(s, hw).skip <==> OperandB(s) < OperandA(s))
    ensures AtTest(s, 0x16) ==> (!Executed(s, hw).skip <==> Basic(SUB, OperandB(s), OperandA(s), ex).1 == 0xffff)
  {
    if !s.skip && !s.extint && Tests(OpOf(s.mem[s.pc])) {
      Decided(s, hw);
    }
    hide Executed, OperandA, OperandB, Basic;
    OrderBySub(OperandA(s), OperandB(s), ex);
    OrderBySub(OperandB(s), OperandA(s), ex);
  }

  /** IFA and IFU compare signed: as IFG and IFL compare the words with 0x8000 added. */
  lemma SignedOrder(s: Cpu, hw: Reply, ex: Word)
    ensures AtTest(s, 0x15) ==> (!Executed(s, hw).skip <==> Signed(OperandB(s)) > Signed(OperandA(s)))
    ensures AtTest(s, 0x15) ==> (!Executed(s, hw).skip <==>
      Basic(SUB, Wrap(OperandA(s) + 0x8000), Wrap(OperandB(s) + 0x8000), ex).1 == 0xffff)
    ensures AtTest(s, 0x17) ==> (!Executed(s, hw).skip <==> Signed(OperandB(s)) < Signed(OperandA(s)))
    ensures AtTest(s, 0x17) ==> (!Executed(s, hw).skip <==>
      Basic(SUB, Wrap(OperandB(s) + 0x8000), Wrap(OperandA(s) + 0x8000), ex).1 == 0xffff)
  {
    if !s.skip && !s.extint && Tests(OpOf(s.mem[s.pc])) {
      Decided(s, hw);
    }
    hide Executed, OperandA, OperandB, Basic;
    OrderBySub(OperandA(s), OperandB(s), ex);
    OrderBySub(OperandB(s), OperandA(s), ex);
  }

  /** IFB runs the next instruction if some bit is set in both operands, and IFC if none is. */
  lemma CommonBits(s: Cpu, hw: Reply)
    ensures AtTest(s, 0x10) ==>
      (!Executed(s, hw).skip <==> exists k | 0 <= k < 16 :: Bit(OperandB(s), k) && Bit(OperandA(s), k))
    ensures AtTest(s, 0x11) ==>
      (Executed(s, hw).skip <==> exists k | 0 <= k < 16 :: Bit(OperandB(s), k) && Bit(OperandA(s), k))
  {
    if !s.skip && !s.extint && Tests(OpOf(s.mem[s.pc])) {
      Decided(s, hw);
    }
    hide Executed, OperandA, OperandB, Bit, BitAnd;
    AndMeets(OperandB(s), OperandA(s));
  }
}
