/** The operand modes and the cycle counts of the instructions, by number. */
module Modes {
  import opened Words
  import opened Alu
  import opened DcpuSpec

  // ----- the places of the modes -----

  /** The modes that take a word of their own. */
  lemma OwnWord(p: int)
    requires 0 <= p < 64
    ensures NextWords(p) == 1 <==> p in {0x10, 0x11, 0x12, 0x13, 0x14, 0x15, 0x16, 0x17, 0x1a, 0x1e, 0x1f}
    ensures NextWords(p) == 0 || NextWords(p) == 1
  {
  }

  /** Register modes name the registers in order; an indirect mode is the absolute mode whose word is
      the register, and an indexed mode the one whose word is the sum, modulo 65536. */
  lemma RegisterModes(s: Cpu, t: Cpu, i: nat)
    requires i < 8
    ensures ValueA(s, i) == s.r[i] && PlaceB(s, i) == Reg(i)
    ensures t.mem[t.pc] == s.r[i] ==> PlaceA(s, 0x08 + i) == PlaceA(t, 0x1e) && PlaceB(s, 0x08 + i) == PlaceB(t, 0x1e)
    ensures t.mem[t.pc] == ((s.mem[s.pc] as int) + s.r[i]) % 0x1_0000 ==>
      PlaceA(s, 0x10 + i) == PlaceA(t, 0x1e) && PlaceB(s, 0x10 + i) == PlaceB(t, 0x1e)
  {
  }

  /** The absolute mode is the memory cell its word names, and the immediate mode the word itself; the
      short literals are the immediate modes of -1 to 30. */
  lemma WordModes(s: Cpu, t: Cpu, p: int)
    requires 0x20 <= p < 0x40
    ensures ValueA(s, 0x1e) == s.mem[s.mem[s.pc]] && PlaceA(s, 0x1e) == PlaceB(s, 0x1e) == Cell(s.mem[s.pc])
    ensures ValueA(s, 0x1f) == s.mem[s.pc]
    ensures t.mem[t.pc] == (p - 0x21) % 0x1_0000 ==> ValueA(s, p) == ValueA(t, 0x1f)
  {
  }

  /** The stack modes: peeking and picking are absolute modes at SP and above it; what is pushed as b is
      what is popped as a, and the two undo each other's move of SP. */
  lemma StackModes(s: Cpu, t: Cpu, v: Word)
    ensures t.mem[t.pc] == s.sp ==>
      PlaceA(s, 0x19) == PlaceB(s, 0x19) == PlaceA(t, 0x1e) && PlaceA(s, 0x18) == PlaceA(t, 0x1e)
    ensures t.mem[t.pc] == (s.sp + s.mem[s.pc]) % 0x1_0000 ==> PlaceA(s, 0x1a) == PlaceB(s, 0x1a) == PlaceA(t, 0x1e)
    ensures AfterA(s, 0x18).sp == (s.sp + 1) % 0x1_0000
    ensures var u := StoreB(s, 0x18, v); ValueA(u, 0x18) == v && AfterA(u, 0x18).sp == s.sp
  {
    PushThenPop(s, v);
    hide StoreB;
  }

  lemma PushThenPop(s: Cpu, v: Word)
    ensures var u := StoreB(s, 0x18, v); ValueA(u, 0x18) == v && AfterA(u, 0x18).sp == s.sp
  {
  }

  /** The special registers as operands. */
  lemma SpecialModes(s: Cpu, v: Word)
    ensures ValueA(s, 0x1b) == s.sp && ValueA(s, 0x1c) == s.pc && ValueA(s, 0x1d) == s.ex
    ensures StoreB(s, 0x1b, v) == s.(sp := v) && StoreB(s, 0x1c, v) == s.(pc := v) && StoreB(s, 0x1d, v) == s.(ex := v)
    ensures StoreB(s, 0x1f, v) == s.(pc := (s.pc + 1) % 0x1_0000)
  {
  }

  // ----- STI and STD -----

  /** STI and STD store what SET stores, and then move both I and J up or down by one. */
  lemma StoreAndStep(s: Cpu, oa: int, ob: int)
    requires 0 <= oa < 64 && 0 <= ob < 32
    ensures var t := ExecBasic(s, 0x01, oa, ob);
      ExecBasic(s, 0x1e, oa, ob) ==
        t.(r := t.r[6 := ((t.r[6] as int) + 1) % 0x1_0000][7 := ((t.r[7] as int) + 1) % 0x1_0000]) &&
      ExecBasic(s, 0x1f, oa, ob) ==
        t.(r := t.r[6 := ((t.r[6] as int) - 1) % 0x1_0000][7 := ((t.r[7] as int) - 1) % 0x1_0000])
  {
    hide StoreB, ValueA, AfterA;
  }

  // ----- opcode numbers -----

  /** The arithmetic opcodes by number. */
  lemma Numbers(b: Word, a: Word, ex: Word)
    ensures Basic(0x02, b, a, ex) == Basic(ADD, b, a, ex) && Basic(0x02, b, a, ex).0 == (b + a) % 0x1_0000
    ensures Basic(0x03, b, a, ex).0 == (b - a) % 0x1_0000
    ensures Basic(0x04, b, a, ex).0 == b * a % 0x1_0000
    ensures Basic(0x05, b, a, ex).0 == Signed(b) * Signed(a) % 0x1_0000
    ensures a != 0 ==> Basic(0x08, b, a, ex).0 == b % a
    ensures Basic(0x1a, b, a, ex).0 == (b + a + ex) % 0x1_0000
    ensures Basic(0x1b, b, a, ex).0 == (b - a + ex) % 0x1_0000
    ensures (DIV, DVI, MDI, AND, BOR, XOR, SHR, ASR, SHL) == (0x06, 0x07, 0x09, 0x0a, 0x0b, 0x0c, 0x0d, 0x0e, 0x0f)
  {
    hide DivResult, DviResult, RightShiftResult, Bitwise, TruncRem, Pow2;
  }

  // ----- cycles -----

  /** The cycles of an opcode without extra words: the table of the specification. */
  function Base(op: int): nat {
    if op == 0x01 || 0x0a <= op <= 0x0f then 1
    else if 0x06 <= op <= 0x09 || op == 0x1a || op == 0x1b then 3
    else 2
  }

  function SpecialBase(ob: int): nat {
    if ob == 0x08 || ob == 0x11 || ob == 0x12 then 4
    else if ob == 0x01 || ob == 0x0b then 3
    else if ob == 0x0c || ob == 0x10 then 2
    else 1
  }

  /** A defined basic opcode takes the cycles of the table, one more for every operand word, one more
      again for the word of a b that is read and written, and one more for a failed test. */
  lemma BasicCycles(s: Cpu, hw: Reply)
    requires var op := OpOf(s.mem[s.pc]); !s.skip && !s.extint && op != 0 && !Undefined(op)
    ensures var w := s.mem[s.pc];
      Cost(s) == Base(OpOf(w)) + NextWords(FieldA(w)) + NextWords(FieldB(w)) +
        (if ReadsAndWrites(OpOf(w)) then NextWords(FieldB(w)) else 0) +
        (if Executed(s, hw).skip then 1 else 0)
  {
    hide StoreB, ValueA, AfterA, Holds, NextWords, ExecModify;
    var op := OpOf(s.mem[s.pc]);
    BasicTable(op);
    ResolvingKeepsSkip(Fetched(s), FieldA(s.mem[s.pc]));
    ResolvingKeepsSkip(AfterA(Fetched(s), FieldA(s.mem[s.pc])), FieldB(s.mem[s.pc]));
    StoringKeepsSkip(Fetched(s), op, FieldA(s.mem[s.pc]), FieldB(s.mem[s.pc]));
  }

  lemma BasicTable(op: int)
    requires 0 < op < 32 && !Undefined(op)
    ensures BASIC_CYCLES[op] == Base(op)
  {
    if op < 16 {
      assert op in {1, 2, 3, 4, 5, 6, 7, 8, 9, 10, 11, 12, 13, 14, 15};
    } else {
      assert op in {16, 17, 18, 19, 20, 21, 22, 23, 26, 27, 30, 31};
    }
  }

  lemma ResolvingKeepsSkip(s: Cpu, p: int)
    ensures AfterA(s, p).skip == s.skip
  {
  }

  lemma StoringKeepsSkip(s: Cpu, op: int, oa: int, ob: int)
    requires 0 <= oa < 64 && 0 <= ob < 32
    ensures ReadsAndWrites(op) ==> ExecModify(s, op, oa, ob).skip == s.skip
    ensures ExecWrite(s, op, oa, ob).skip == s.skip
  {
    hide Basic, ValueA, ValueB, StoreB, AfterA;
    var s1 := AfterA(s, oa);
    ResolvingKeepsSkip(s, oa);
    StoreKeepsSkip(s1, ob, ValueA(s, oa));
    StoreKeepsSkip(s1, ob, Basic(if ReadsAndWrites(op) then op else ADD, ValueB(s1, ob), ValueA(s, oa), s1.ex).0);
  }

  lemma StoreKeepsSkip(s: Cpu, p: int, v: Word)
    requires 0 <= p < 64
    ensures StoreB(s, p, v).skip == s.skip
  {
  }

  /** A defined special opcode takes the cycles of the table and one more for an operand word. */
  lemma SpecialCycles(s: Cpu)
    requires var w := s.mem[s.pc];
      !s.skip && !s.extint && OpOf(w) == 0 &&
      (FieldB(w) == 0x01 || 0x08 <= FieldB(w) <= 0x0c || 0x10 <= FieldB(w) <= 0x12)
    ensures var w := s.mem[s.pc];
      Cost(s) == SpecialBase(FieldB(w)) +
        NextWords(if FieldB(w) == 0x09 || FieldB(w) == 0x10 then FieldA(w) % 32 else FieldA(w))
  {
    hide NextWords;
    var ob := FieldB(s.mem[s.pc]);
    assert ob in {0x01, 0x08, 0x09, 0x0a, 0x0b, 0x0c, 0x10, 0x11, 0x12};
  }
}
