/** What one basic opcode changes, field by field, and how far it moves the program counter. */
module Operands {
  import opened Words
  import opened Alu
  import opened DcpuSpec

  /** t is s with v stored at one place, after `words` operand words were taken and SP moved. */
  ghost predicate Stores(s: Cpu, t: Cpu, place: Place, v: Word, words: nat, spMove: int) {
    (forall i | 0 <= i < 8 :: t.r[i] == if place == Reg(i) then v else s.r[i]) &&
    (forall x: Word :: t.mem[x] == if place == Cell(x) then v else s.mem[x]) &&
    t.sp == (if place == Sp then v else Offset(s.sp, spMove)) &&
    t.pc == (if place == Pc then v else Offset(s.pc, words)) &&
    t == s.(r := t.r, mem := t.mem, sp := t.sp, pc := t.pc, ex := t.ex)
  }

  function SpMove(oa: int, ob: int): int {
    (if oa == 0x18 then 1 else 0) - (if ob == 0x18 then 1 else 0)
  }

  lemma PutFrame(s: Cpu, place: Place, v: Word)
    requires Proper(place)
    ensures Stores(s, Put(s, place, v), place, v, 0, 0)
    ensures Put(s, place, v).ex == if place == Ex then v else s.ex
  {
  }

  lemma Moved(x: Word, a: int, b: int)
    ensures Wrap(Wrap(x + a) + b) == Offset(x, a + b)
  {
  }

  /** Resolving both operands only moves PC and SP. */
  lemma OperandsMove(s: Cpu, oa: int, ob: int)
    requires 0 <= oa < 64 && 0 <= ob < 32
    ensures AfterB(AfterA(s, oa), ob) ==
      s.(pc := Offset(s.pc, NextWords(oa) + NextWords(ob)), sp := Offset(s.sp, SpMove(oa, ob)))
  {
    hide NextWords;
    Moved(s.pc, NextWords(oa), NextWords(ob));
    Moved(s.sp, if oa == 0x18 then 1 else 0, if ob == 0x18 then -1 else 0);
  }

  lemma StoreFrame(s: Cpu, oa: int, ob: int, v: Word)
    requires 0 <= oa < 64 && 0 <= ob < 32
    ensures var place := PlaceB(AfterA(s, oa), ob);
      var t := StoreB(AfterA(s, oa), ob, v);
      Stores(s, t, place, v, NextWords(oa) + NextWords(ob), SpMove(oa, ob)) &&
      t.ex == if place == Ex then v else s.ex
  {
    hide PlaceB, Put, AfterA, AfterB, NextWords, SpMove;
    OperandsMove(s, oa, ob);
    PutFrame(AfterB(AfterA(s, oa), ob), PlaceB(AfterA(s, oa), ob), v);
  }

  /** A read-modify-write opcode stores its result at the place b was read from, [next + register]
      and PUSH included, and EX; it takes the operand words, moves SP for POP and PUSH, and changes
      nothing else. */
  lemma ModifyFrame(s: Cpu, op: int, oa: int, ob: int)
    requires ReadsAndWrites(op) && 0 <= oa < 64 && 0 <= ob < 32
    ensures var s1 := AfterA(s, oa);
      var place := PlaceB(s1, ob);
      var t := ExecBasic(s, op, oa, ob);
      var (v, ex) := Basic(op, Get(AfterB(s1, ob), place), ValueA(s, oa), s1.ex);
      Stores(s, t, place, v, NextWords(oa) + NextWords(ob), SpMove(oa, ob)) &&
      t.ex == if !KeepsEx(op) then ex else if place == Ex then v else s.ex
  {
    hide Basic, PlaceOf, Stores, StoreB;
    var s1 := AfterA(s, oa);
    var (v, ex) := Basic(op, ValueB(s1, ob), ValueA(s, oa), s1.ex);
    StoreFrame(s, oa, ob, v);
    SameButEx(s, StoreB(s1, ob, v), PlaceB(s1, ob), v, NextWords(oa) + NextWords(ob), SpMove(oa, ob), ex);
  }

  lemma SameButEx(s: Cpu, t: Cpu, place: Place, v: Word, words: nat, spMove: int, ex: Word)
    requires Stores(s, t, place, v, words, spMove)
    ensures Stores(s, t.(ex := ex), place, v, words, spMove)
  {
  }

  /** SET PUSH, POP and the like: the value stored is a's, read before b is resolved. */
  lemma SetFrame(s: Cpu, oa: int, ob: int)
    requires 0 <= oa < 64 && 0 <= ob < 32
    ensures var place := PlaceB(AfterA(s, oa), ob);
      var t := ExecBasic(s, SET, oa, ob);
      Stores(s, t, place, ValueA(s, oa), NextWords(oa) + NextWords(ob), SpMove(oa, ob)) &&
      t.ex == if place == Ex then ValueA(s, oa) else s.ex
  {
    hide Stores, StoreB;
    StoreFrame(s, oa, ob, ValueA(s, oa));
  }

  /** Unless b is PC, executing a basic instruction moves PC exactly as skipping it does, if and
      only if the opcode is defined or takes no word for b: undefined opcodes leave it behind. */
  lemma PcAdvance(s: Cpu, w: Word, hw: Reply)
    requires OpOf(w) != 0 && (Undefined(OpOf(w)) || Tests(OpOf(w)) || FieldB(w) != 0x1c)
    ensures Exec(s, w, hw).pc == SkipOver(s, w).pc <==>
      !Undefined(OpOf(w)) || NextWords(FieldB(w)) == 0
  {
    hide ExecBasic;
    var op, oa, ob := OpOf(w), FieldA(w), FieldB(w);
    BasicPc(Fetched(s), op, oa, ob);
    PcsDiffer(s.pc, NextWords(oa), NextWords(ob));
  }

  lemma BasicPc(s: Cpu, op: int, oa: int, ob: int)
    requires 0 < op < 32 && 0 <= oa < 64 && 0 <= ob < 32
    requires Undefined(op) || Tests(op) || ob != 0x1c
    ensures ExecBasic(s, op, oa, ob).pc ==
      Offset(s.pc, NextWords(oa) + if Undefined(op) then 0 else NextWords(ob))
  {
    hide Basic, Holds, ValueA, ValueB, StoreB, NextWords, Put, Wrap;
    var s1 := AfterA(s, oa);
    Moved(s.pc, NextWords(oa), NextWords(ob));
    if WritesOnly(op) {
      StorePc(s1, ob, ValueA(s, oa));
    } else if ReadsAndWrites(op) {
      StorePc(s1, ob, Basic(op, ValueB(s1, ob), ValueA(s, oa), s1.ex).0);
    }
  }

  lemma PcsDiffer(pc: Word, na: nat, nb: nat)
    requires na <= 1 && nb <= 1
    ensures Offset(Wrap(pc + 1), na) == Wrap(pc + 1 + (na + nb)) <==> nb == 0
    ensures Offset(Wrap(pc + 1), na + nb) == Wrap(pc + 1 + (na + nb))
  {
  }

  lemma StorePc(s: Cpu, ob: int, v: Word)
    requires 0 <= ob < 32 && ob != 0x1c
    ensures StoreB(s, ob, v).pc == Offset(s.pc, NextWords(ob))
  {
  }

  /** An undefined opcode with an extra word for b: it is executed as one word and skipped as two. */
  lemma UndefinedOpcode(s: Cpu, hw: Reply)
    ensures var w := 0x18 + 0x1f * 32;
      Exec(s, w, hw).pc == Wrap(s.pc + 1) && SkipOver(s, w).pc == Wrap(s.pc + 2)
  {
    hide ExecBasic, ExecSpecial;
    assert OpOf(0x18 + 0x1f * 32) == 0x18 && FieldB(0x18 + 0x1f * 32) == 0x1f && FieldA(0x18 + 0x1f * 32) == 0;
    BasicPc(Fetched(s), 0x18, 0, 0x1f);
  }

  // ----- the places of b -----

  /** A conditional opcode resolves b as the opcodes that write b do, and so leaves the state that they
      would leave before their store, if and only if b is not mode 0x18. */
  lemma TestsPop(s: Cpu, op: int, oa: int, ob: int)
    requires Tests(op) && 0 <= oa < 64 && 0 <= ob < 32
    ensures ExecTest(s, op, oa, ob).(skip := s.skip) == AfterB(AfterA(s, oa), ob) <==> ob != 0x18
    ensures ob != 0x18 ==> PlaceA(AfterA(s, oa), ob) == PlaceB(AfterA(s, oa), ob)
  {
    hide Holds, Get;
    if ob == 0x18 {
      PushIsNotPop(AfterA(s, oa).sp);
    }
  }

  lemma PushIsNotPop(sp: Word)
    ensures Wrap(sp + 1) != Wrap(sp - 1)
  {
  }

  /** IFE PUSH, A compares the word on top of the stack and pops it. */
  lemma TestOfPush(s: Cpu)
    ensures var t := ExecTest(s, IFE, 0, 0x18);
      t.sp == Wrap(s.sp + 1) && (t.skip <==> s.skip || s.mem[s.sp] != s.r[0])
  {
  }

  /** IAG and HWN store through five bits of their operand field. The place is the one that the whole
      field denotes if and only if the field has no sixth bit and is not mode 0x18. */
  lemma ShortField(s: Cpu, oa: int)
    requires 0 <= oa < 64
    ensures PlaceB(s, oa % 32) == PlaceA(s, oa) && AfterB(s, oa % 32) == AfterA(s, oa) <==> oa < 32 && oa != 0x18
  {
    if oa == 0x18 {
      PushIsNotPop(s.sp);
    }
  }

  /** IAG 0 stores to register B. */
  lemma LiteralField(s: Cpu, hw: Reply)
    ensures ExecSpecial(s, IAG, 0x21, hw) == s.(r := s.r[1 := s.ia])
  {
    hide Hardware;
  }
}
