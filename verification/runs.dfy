/** Runs of the processor: any number of steps in a row. */
module Runs {
  import opened DcpuSpec

  /** The state after `n` steps; `hw(i)` is what the hardware answers in step i. */
  function Steps(s: Cpu, hw: nat -> Reply, n: nat): Cpu {
    if n == 0 then s else Step(Steps(s, hw, n - 1), hw(n - 1))
  }

  function Cycles(s: Cpu, hw: nat -> Reply, n: nat): nat {
    if n == 0 then 0 else Cycles(s, hw, n - 1) + Cost(Steps(s, hw, n - 1))
  }

  /** The hardware's answers from step m on. */
  function From(hw: nat -> Reply, m: nat): nat -> Reply {
    (i: nat) => hw(m + i)
  }

  /** Every step costs at least one cycle and at most six. */
  lemma {:induction false} CyclesBound(s: Cpu, hw: nat -> Reply, n: nat)
    ensures n <= Cycles(s, hw, n) <= 6 * n
  {
    hide Step, Cost;
    if n > 0 {
      CyclesBound(s, hw, n - 1);
      CostBound(Steps(s, hw, n - 1));
    }
  }

  /** Two runs in a row are one run. */
  lemma {:induction false} StepsCompose(s: Cpu, hw: nat -> Reply, m: nat, n: nat)
    ensures Steps(Steps(s, hw, m), From(hw, m), n) == Steps(s, hw, m + n)
    ensures Cycles(s, hw, m) + Cycles(Steps(s, hw, m), From(hw, m), n) == Cycles(s, hw, m + n)
  {
    hide Step, Cost;
    if n > 0 {
      StepsCompose(s, hw, m, n - 1);
    }
  }

  /** A run seen from its first step. */
  lemma FirstStep(s: Cpu, hw: nat -> Reply, n: nat)
    ensures Steps(s, hw, n + 1) == Steps(Step(s, hw(0)), From(hw, 1), n)
    ensures Cycles(s, hw, n + 1) == Cost(s) + Cycles(Step(s, hw(0)), From(hw, 1), n)
  {
    hide Step, Cost;
    StepsCompose(s, hw, 1, n);
    assert Steps(s, hw, 1) == Step(Steps(s, hw, 0), hw(0));
    assert Cycles(s, hw, 1) == Cycles(s, hw, 0) + Cost(Steps(s, hw, 0));
  }

  /** No interrupt handler is entered during the first n steps. */
  predicate Quiet(s: Cpu, hw: nat -> Reply, n: nat) {
    n == 0 || (Quiet(s, hw, n - 1) && !Dispatches(Steps(s, hw, n - 1), hw(n - 1)))
  }

  lemma {:induction false} QuietFirst(s: Cpu, hw: nat -> Reply, n: nat)
    requires !Dispatches(s, hw(0)) && Quiet(Step(s, hw(0)), From(hw, 1), n)
    ensures Quiet(s, hw, n + 1)
  {
    hide Step, Dispatches;
    NoSteps(s, hw);
    if n > 0 {
      hide Steps;
      QuietFirst(s, hw, n - 1);
      FirstStep(s, hw, n - 1);
      assert From(hw, 1)(n - 1) == hw(n);
    }
  }

  lemma NoSteps(s: Cpu, hw: nat -> Reply)
    ensures Steps(s, hw, 0) == s
  {
  }
}
