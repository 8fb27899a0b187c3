/** What a failed test skips: a whole chain of tests and the instruction after it. */
module Skipping {
  import opened Words
  import opened Alu
  import opened Ram
  import opened DcpuSpec
  import opened Runs

  /** The address after the instruction at `pc`. */
  function After(mem: Memory, pc: Word): Word {
    Wrap(pc + 1 + ExtraWords(mem[pc]))
  }

  /** k tests in a row starting at `pc`, and then something that is not a test. */
  predicate IsChain(mem: Memory, pc: Word, k: nat)
    decreases k
  {
    if k == 0 then !Tests(OpOf(mem[pc]))
    else Tests(OpOf(mem[pc])) && IsChain(mem, After(mem, pc), k - 1)
  }

  function ChainEnd(mem: Memory, pc: Word, k: nat): Word
    decreases k
  {
    if k == 0 then After(mem, pc) else ChainEnd(mem, After(mem, pc), k - 1)
  }

  function ChainOperands(mem: Memory, pc: Word, k: nat): nat
    decreases k
  {
    ExtraWords(mem[pc]) + if k == 0 then 0 else ChainOperands(mem, After(mem, pc), k - 1)
  }

  lemma SkipStep(s: Cpu, hw: Reply)
    requires s.skip && !s.extint
    ensures Step(s, hw) == s.(pc := After(s.mem, s.pc), skip := Tests(OpOf(s.mem[s.pc])))
    ensures Cost(s) == 1 + ExtraWords(s.mem[s.pc]) && !Dispatches(s, hw)
  {
  }

  /** A skip passes over k chained tests and one other instruction in k + 1 steps, at the price of
      one cycle for every instruction and one for every operand word, changing nothing but PC. */
  lemma {:induction false} SkipChain(s: Cpu, hw: nat -> Reply, k: nat)
    requires s.skip && !s.extint && IsChain(s.mem, s.pc, k)
    ensures Steps(s, hw, k + 1) == s.(pc := ChainEnd(s.mem, s.pc, k), skip := false)
    ensures Cycles(s, hw, k + 1) == k + 1 + ChainOperands(s.mem, s.pc, k)
    ensures Quiet(s, hw, k + 1)
    decreases k
  {
    hide Step, Cost, Dispatches, After, ExtraWords, Tests;
    SkipStep(s, hw(0));
    FirstStep(s, hw, k);
    var s1 := Step(s, hw(0));
    if k > 0 {
      SkipChain(s1, From(hw, 1), k - 1);
      QuietFirst(s, hw, k);
    }
  }

  /** A test that fails sets the skip and lets no interrupt in; one that holds leaves no skip. */
  lemma TestOutcome(s: Cpu, hw: Reply)
    requires !s.skip && !s.extint && Tests(OpOf(s.mem[s.pc]))
    ensures var t, w := Executed(s, hw), s.mem[s.pc];
      var s1 := Fetched(s);
      var s2 := AfterA(s1, FieldA(w));
      t.skip == !Holds(OpOf(w), ValueA(s2, FieldB(w)), ValueA(s1, FieldA(w))) &&
      t == s.(pc := After(s.mem, s.pc), sp := t.sp, skip := t.skip) &&
      (t.skip ==> Step(s, hw) == t && !Dispatches(s, hw))
  {
    hide Holds, ValueA, Cost, Get, Wrap, NextWords;
    var w := s.mem[s.pc];
    WrapTwice(s.pc + 1, NextWords(FieldA(w)));
    WrapTwice(s.pc + 1 + NextWords(FieldA(w)), NextWords(FieldB(w)));
  }

  /** The whole of a failed IF: the test itself, k chained tests and the instruction behind them.
      Apart from PC only SP can have moved, by the pops of the failed test's own operands. */
  lemma FailedTest(s: Cpu, hw: nat -> Reply, k: nat)
    requires !s.skip && !s.extint && Tests(OpOf(s.mem[s.pc])) && Executed(s, hw(0)).skip
    requires IsChain(s.mem, After(s.mem, s.pc), k)
    ensures Steps(s, hw, k + 2) ==
            s.(pc := ChainEnd(s.mem, After(s.mem, s.pc), k), sp := Executed(s, hw(0)).sp)
    ensures Cycles(s, hw, k + 2) == Cost(s) + k + 1 + ChainOperands(s.mem, After(s.mem, s.pc), k)
    ensures Quiet(s, hw, k + 2)
  {
    hide Step, Cost, Dispatches, Executed, After, ExtraWords, Tests, Holds, ValueA, AfterA;
    TestOutcome(s, hw(0));
    FailedTestFrom(s, hw, k, Executed(s, hw(0)).sp);
  }

  lemma FailedTestFrom(s: Cpu, hw: nat -> Reply, k: nat, sp: Word)
    requires !s.skip && !s.extint && IsChain(s.mem, After(s.mem, s.pc), k)
    requires Step(s, hw(0)) == s.(pc := After(s.mem, s.pc), sp := sp, skip := true) && !Dispatches(s, hw(0))
    ensures Steps(s, hw, k + 2) == s.(pc := ChainEnd(s.mem, After(s.mem, s.pc), k), sp := sp)
    ensures Cycles(s, hw, k + 2) == Cost(s) + k + 1 + ChainOperands(s.mem, After(s.mem, s.pc), k)
    ensures Quiet(s, hw, k + 2)
  {
    hide Step, Cost, Dispatches, After, ExtraWords, Tests;
    FirstStep(s, hw, k + 1);
    SkipChain(Step(s, hw(0)), From(hw, 1), k);
    QuietFirst(s, hw, k + 1);
  }
}
