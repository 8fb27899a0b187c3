/** The clock of a processor: `DCPU16::Run` with its cycle budget, `isi_setrate` and
    `isi_run_cpu`. Times are nanoseconds and, unlike `uint64_t`, do not wrap around. */
module Pacing {
  import opened DcpuSpec
  import opened Dcpu
  import opened Runs

  const QUANTUM := 100_000
  const SECOND := 1_000_000_000

  class CpuInfo {
    const state: Dcpu16
    var step: bool   // ISICTL_STEP
    var stepe: bool  // ISICTL_STEPE: one more instruction may be executed
    var rate: nat    // cycles per quantum
    var runrate: nat // nanoseconds per cycle
    var itvl: nat
    var cycl: nat
    var nrun: nat

    constructor (cpu: Dcpu16)
      ensures state == cpu && fresh(this) && !step && !stepe && nrun == 0 && cycl == 0
      ensures Paced(100_000)
    {
      state := cpu;
      step, stepe, cycl, nrun := false, false, 0, 0;
      runrate, rate, itvl := 10_000, 10, 1;
    }

    /** What `isi_setrate` establishes for a clock of `hertz` cycles per second. */
    ghost predicate Paced(hertz: nat)
      reads this
    {
      0 < hertz <= SECOND && runrate == SECOND / hertz &&
      if runrate <= QUANTUM then rate * runrate <= QUANTUM < (rate + 1) * runrate && itvl == 1
      else rate == 1 && itvl * QUANTUM <= runrate < (itvl + 1) * QUANTUM
    }

    /** isi_setrate. A rate of 0 or above 10^9 divides by zero in the original. */
    method SetRate(hertz: nat)
      requires 0 < hertz <= SECOND
      modifies this`rate, this`runrate, this`itvl
      ensures Paced(hertz)
      ensures 0 < rate && 0 < runrate
    {
      runrate := SECOND / hertz;
      RateIsPositive(SECOND, hertz);
      if runrate > QUANTUM {
        itvl := runrate / QUANTUM;
        rate := 1;
      } else {
        rate := QUANTUM / runrate;
        itvl := 1;
        RateIsPositive(QUANTUM, runrate);
      }
    }

    ghost predicate Valid()
      reads this, state
    {
      state.Valid() && state.opCycles == 0
    }

    /** The cycles one call of Run may start instructions in. */
    function Budget(): nat
      reads this
    {
      if !step then rate else if stepe then 1 else 0
    }

    predicate Halted()
      reads this
    {
      step && !stepe
    }

    /** The time and the cycles of one instruction. */
    method Charge(cycles: nat, ghost total: nat)
      requires cycles <= 6
      modifies this`nrun, this`cycl
      ensures cycl == old(cycl) + cycles && old(nrun) <= nrun <= old(nrun) + 6 * runrate
      ensures nrun - (total + cycles) * runrate == old(nrun) - total * runrate
    {
      cycl := cycl + cycles;
      nrun := nrun + cycles * runrate;
      assert cycles * runrate <= 6 * runrate;
      TimeAdds(total, cycles, runrate);
    }

    /** One turn of the loop: an instruction, and its cost taken from the budget and the clock. */
    method Turn(ccq: nat, ghost s0: Cpu, hw: nat -> Reply, n: nat) returns (left: nat)
      requires Valid() && state.State() == Steps(s0, hw, n)
      modifies this`nrun, this`cycl, state, state.Repr()
      ensures Valid() && state.State() == Steps(s0, hw, n + 1)
      ensures Cycles(s0, hw, n) < Cycles(s0, hw, n + 1) <= Cycles(s0, hw, n) + 6
      ensures cycl - old(cycl) == Cycles(s0, hw, n + 1) - Cycles(s0, hw, n)
      ensures old(nrun) <= nrun <= old(nrun) + 6 * runrate
      ensures nrun - Cycles(s0, hw, n + 1) * runrate == old(nrun) - Cycles(s0, hw, n) * runrate
      ensures left == if ccq < cycl - old(cycl) then 0 else ccq - (cycl - old(cycl))
    {
      hide Step, Cost;
      var cycles := state.StepOnce(hw(n));
      left := if ccq < cycles then 0 else ccq - cycles;
      Charge(cycles, Cycles(s0, hw, n));
    }

    /** The loop of `DCPU16::Run` with the debugger off, given a budget of cycles. It stops at the
        first instruction boundary past the budget or past the time. */
    method Spend(budget: nat, crun: nat, hw: nat -> Reply) returns (n: nat)
      requires Valid()
      modifies this`nrun, this`cycl, state, state.Repr()
      ensures Valid() && state.State() == Steps(old(state.State()), hw, n)
      ensures Cycles(old(state.State()), hw, n) >= budget || nrun >= crun
      ensures n > 0 ==> Cycles(old(state.State()), hw, n - 1) < budget
      ensures n > 0 ==> old(nrun) + Cycles(old(state.State()), hw, n - 1) * runrate < crun
      ensures n > 0 ==> Cycles(old(state.State()), hw, n) <= budget + 5 && nrun < crun + 6 * runrate
      ensures cycl == old(cycl) + Cycles(old(state.State()), hw, n)
      ensures nrun == old(nrun) + Cycles(old(state.State()), hw, n) * runrate
    {
      hide Step, Cost;
      ghost var s0 := state.State();
      ghost var used := 0;
      var ccq := budget;
      n := 0;
      while ccq > 0 && nrun < crun
        invariant Valid() && state.State() == Steps(s0, hw, n)
        invariant used == Cycles(s0, hw, n) && cycl == old(cycl) + used
        invariant ccq == if used < budget then budget - used else 0
        invariant nrun - used * runrate == old(nrun)
        invariant n > 0 ==> Cycles(s0, hw, n - 1) < budget && used <= budget + 5
        invariant n > 0 ==> old(nrun) + Cycles(s0, hw, n - 1) * runrate < crun
        invariant n > 0 ==> nrun < crun + 6 * runrate
        decreases ccq
      {
        ccq := Turn(ccq, s0, hw, n);
        n := n + 1;
        used := Cycles(s0, hw, n);
      }
    }

    /** DCPU16::Run with the debugger off. `hw(i)` is the answer of the hardware in step i and n the
        number of steps. A processor that is halted by the debugger only has its clock moved. */
    method Run(crun: nat, hw: nat -> Reply) returns (n: nat)
      requires Valid()
      modifies this`stepe, this`nrun, this`cycl, state, state.Repr()
      ensures Valid() && state.State() == Steps(old(state.State()), hw, n)
      ensures cycl == old(cycl) + Cycles(old(state.State()), hw, n)
      ensures Cycles(old(state.State()), hw, n) >= old(Budget()) || nrun >= crun
      ensures n > 0 ==> Cycles(old(state.State()), hw, n) <= old(Budget()) + 5 && nrun < crun + 6 * runrate
      ensures old(Halted()) ==> n == 0 && nrun == crun + runrate
      ensures !old(Halted()) ==> nrun == old(nrun) + Cycles(old(state.State()), hw, n) * runrate
      ensures stepe == (old(stepe) && !step)
      ensures !step ==> Cycles(old(state.State()), hw, n) >= rate || nrun >= crun
      ensures step && old(stepe) ==> n == if old(nrun) < crun then 1 else 0
      ensures step && !old(stepe) ==> n == 0 && nrun == crun + runrate
    {
      hide Step, Cost;
      var ccq := 0;
      if step {
        if stepe {
          ccq := 1;
          stepe := false;
        } else {
          nrun := crun;
          nrun := nrun + runrate;
        }
      } else {
        ccq := rate;
      }
      ghost var s0 := state.State();
      n := Spend(ccq, crun, hw);
      if n > 0 {
        CyclesBound(s0, hw, n - 1);
      }
    }

    /** One more quantum in a run that has gone n steps; the result is how far it has gone now. */
    method Quantum(crun: nat, ghost s0: Cpu, hw: nat -> Reply, n: nat) returns (n': nat)
      requires Valid() && state.State() == Steps(s0, hw, n)
      modifies this`stepe, this`nrun, this`cycl, state, state.Repr()
      ensures Valid() && state.State() == Steps(s0, hw, n') && n <= n'
      ensures Cycles(s0, hw, n) + cycl == old(cycl) + Cycles(s0, hw, n')
      ensures !step ==> nrun - Cycles(s0, hw, n') * runrate == old(nrun) - Cycles(s0, hw, n) * runrate
      ensures !step ==> Cycles(s0, hw, n') >= Cycles(s0, hw, n) + rate || nrun >= crun
      ensures !step && n' > n ==> nrun < crun + 6 * runrate
      ensures !step && n' == n ==> nrun == old(nrun)
    {
      hide Step, Cost, Steps, Cycles;
      var k := Run(crun, From(hw, n));
      StepsCompose(s0, hw, n, k);
      n' := n + k;
      TimeAdds(Cycles(s0, hw, n), Cycles(s0, hw, n') - Cycles(s0, hw, n), runrate);
    }

    /** isi_run_cpu: quanta are run until the processor has caught up with the time or has had its
        share of them. All the quanta of a call make one uninterrupted run of the machine. */
    method RunQuanta(crun: nat, cpus: nat, hw: nat -> Reply) returns (cycles: nat, ccq: nat, n: nat)
      requires Valid()
      modifies this`stepe, this`nrun, this`cycl, state, state.Repr()
      ensures Valid() && state.State() == Steps(old(state.State()), hw, n)
      ensures ccq > 0 ==> cycl == 0 && cycles == old(cycl) + Cycles(old(state.State()), hw, n)
      ensures !step ==> nrun == old(nrun) + Cycles(old(state.State()), hw, n) * runrate
      ensures var share := if cpus * 2 < 20 then 20 else cpus * 2;
        ccq <= share && (nrun >= crun || ccq == share) &&
        (!step && nrun < crun ==> Cycles(old(state.State()), hw, n) >= share * rate)
      ensures !step && n > 0 ==> nrun < crun + 6 * runrate
    {
      hide Step, Cost;
      ghost var s0 := state.State();
      var tcc := cpus * 2;
      if tcc < 20 {
        tcc := 20;
      }
      cycles, ccq, n := 0, 0, 0;
      while ccq < tcc && nrun < crun
        invariant Valid() && state.State() == Steps(s0, hw, n)
        invariant ccq <= tcc == (if cpus * 2 < 20 then 20 else cpus * 2)
        invariant cycles + cycl == old(cycl) + Cycles(s0, hw, n) && (ccq > 0 ==> cycl == 0)
        invariant !step ==> nrun - Cycles(s0, hw, n) * runrate == old(nrun)
        invariant !step && nrun < crun ==> Cycles(s0, hw, n) >= ccq * rate
        invariant !step && n > 0 ==> nrun < crun + 6 * runrate
        decreases tcc - ccq
      {
        n := Quantum(crun, s0, hw, n);
        TimeAdds(ccq, 1, rate);
        cycles := cycles + cycl;
        cycl := 0;
        ccq := ccq + 1;
      }
    }
  }

  lemma RateIsPositive(n: nat, d: nat)
    requires 0 < d <= n
    ensures n / d > 0 && n / d * d <= n < (n / d + 1) * d
  {
  }

  lemma TimeAdds(x: nat, y: nat, r: nat)
    ensures (x + y) * r == x * r + y * r
  {
  }
}
