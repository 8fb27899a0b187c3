/** Multi-word arithmetic as a DCPU-16 program: n instructions `op [b + i], [a + i]` in a row. */
module WordProgram {
  import opened Words
  import opened Alu
  import opened Ram
  import opened DcpuSpec
  import opened Runs
  import opened Multiword

  /** The opcode word of `op [next], [next]`. */
  function Encoded(op: int): int {
    op + 0x1e * 32 + 0x1e * 1024
  }

  predicate Calm(s: Cpu) {
    !s.skip && !s.extint && (s.intq || |s.queue| == 0)
  }

  lemma AbsoluteStep(s: Cpu, hw: Reply, op: int)
    requires Calm(s) && ReadsAndWrites(op) && !KeepsEx(op) && s.pc + 2 < SIZE
    requires s.mem[s.pc] == Encoded(op)
    ensures var a, b := s.mem[s.pc + 1], s.mem[s.pc + 2];
      var (v, e) := Basic(op, s.mem[b], s.mem[a], s.ex);
      Step(s, hw) == s.(pc := Wrap(s.pc + 3), mem := s.mem[b := v], ex := e)
  {
    hide Basic, ExecSpecial, ExecTest, ExecWrite, ExecModify;
    var w := s.mem[s.pc];
    assert OpOf(w) == op && FieldB(w) == 0x1e && FieldA(w) == 0x1e;
    AbsoluteOperands(Fetched(s), op);
  }

  lemma AbsoluteOperands(s: Cpu, op: int)
    requires ReadsAndWrites(op) && !KeepsEx(op) && s.pc + 1 < SIZE
    ensures var a, b := s.mem[s.pc], s.mem[s.pc + 1];
      var (v, e) := Basic(op, s.mem[b], s.mem[a], s.ex);
      ExecModify(s, op, 0x1e, 0x1e) == s.(pc := Wrap(s.pc + 2), mem := s.mem[b := v], ex := e)
  {
    hide Basic;
  }

  /** The program lies in memory at `code`, and neither it nor the numbers reach beyond the end. */
  predicate Loaded(mem: Memory, first: int, next: int, code: nat, a: nat, b: nat, n: nat) {
    code + 3 * n <= SIZE && a + n <= SIZE && b + n <= SIZE &&
    forall i | 0 <= i < n ::
      mem[code + 3 * i] == Encoded(if i == 0 then first else next) &&
      mem[code + 3 * i + 1] == a + i && mem[code + 3 * i + 2] == b + i
  }

  /** The result does not overwrite the program, and the other operand only where that has been used:
      it lies at the same place, above it or clear of it. */
  predicate Apart(code: nat, a: nat, b: nat, n: nat) {
    (b + n <= code || code + 3 * n <= b) && (b <= a || a + n <= b)
  }

  predicate Chained(op: int) {
    ReadsAndWrites(op) && !KeepsEx(op)
  }

  /** What the program has done after k of its instructions. */
  ghost predicate Progress(s: Cpu, t: Cpu, first: int, next: int, code: nat, a: nat, b: nat, k: nat)
    requires Chained(first) && Chained(next) && a + k <= SIZE && b + k <= SIZE
  {
    var (vs, e) := Chain(first, next, s.mem[b..b + k], s.mem[a..a + k], s.ex);
    t == s.(pc := Wrap(code + 3 * k), ex := e, mem := t.mem) && |vs| == k &&
    forall x: Word :: t.mem[x] == if b <= x < b + k then vs[x - b] else s.mem[x]
  }

  /** What the next instruction of the program finds in memory. */
  lemma Undisturbed(s: Cpu, t: Cpu, first: int, next: int, code: nat, a: nat, b: nat, n: nat, k: nat)
    requires Chained(first) && Chained(next) && k < n
    requires Loaded(s.mem, first, next, code, a, b, n) && Apart(code, a, b, n)
    requires Progress(s, t, first, next, code, a, b, k)
    ensures t.pc == code + 3 * k
    ensures t.mem[code + 3 * k] == Encoded(if k == 0 then first else next)
    ensures t.mem[code + 3 * k + 1] == a + k && t.mem[code + 3 * k + 2] == b + k
    ensures t.mem[a + k] == s.mem[a + k] && t.mem[b + k] == s.mem[b + k]
  {
    hide Chain, Encoded;
  }

  lemma Extended(s: Cpu, t: Cpu, u: Cpu, first: int, next: int, code: nat, a: nat, b: nat, k: nat)
    requires Chained(first) && Chained(next) && a + k < SIZE && b + k < SIZE
    requires Progress(s, t, first, next, code, a, b, k)
    requires var (v, e) := Basic(if k == 0 then first else next, s.mem[b + k], s.mem[a + k], t.ex);
      u == t.(pc := Wrap(code + 3 * (k + 1)), mem := t.mem[b + k := v], ex := e)
    ensures Progress(s, u, first, next, code, a, b, k + 1)
  {
    hide Basic, Chain;
    var bs, as_ := s.mem[b..b + k + 1], s.mem[a..a + k + 1];
    assert bs[..k] == s.mem[b..b + k] && as_[..k] == s.mem[a..a + k];
    ChainPrefix(first, next, bs, as_, s.ex);
  }

  lemma OneMore(s: Cpu, t: Cpu, hw: Reply, first: int, next: int, code: nat, a: nat, b: nat, n: nat, k: nat)
    requires Chained(first) && Chained(next) && k < n
    requires Calm(s) && Loaded(s.mem, first, next, code, a, b, n) && Apart(code, a, b, n)
    requires Progress(s, t, first, next, code, a, b, k)
    ensures Progress(s, Step(t, hw), first, next, code, a, b, k + 1)
  {
    hide Basic, Chain, Step, Encoded;
    Undisturbed(s, t, first, next, code, a, b, n, k);
    AbsoluteStep(t, hw, if k == 0 then first else next);
    Extended(s, t, Step(t, hw), first, next, code, a, b, k);
  }

  /** Running the n instructions leaves in memory the words, and in EX the EX, of the chained
      operations, and changes nothing else but PC. */
  lemma {:induction false} ProgramRuns(
      s: Cpu, hw: nat -> Reply, first: int, next: int, code: nat, a: nat, b: nat, n: nat, k: nat)
    requires Chained(first) && Chained(next) && k <= n
    requires Calm(s) && Loaded(s.mem, first, next, code, a, b, n) && Apart(code, a, b, n) && s.pc == Wrap(code)
    ensures Progress(s, Steps(s, hw, k), first, next, code, a, b, k)
  {
    hide Basic, Step;
    if k == 0 {
      assert s.mem[b..b] == [] && s.mem[a..a] == [];
    } else {
      ProgramRuns(s, hw, first, next, code, a, b, n, k - 1);
      OneMore(s, Steps(s, hw, k - 1), hw(k - 1), first, next, code, a, b, n, k - 1);
    }
  }

  /** ADD and ADX in a row add two n-word numbers in memory: the n words at b and the final EX hold
      the exact sum. */
  lemma AdditionProgram(s: Cpu, hw: nat -> Reply, code: nat, a: nat, b: nat, n: nat)
    requires 0 < n && Calm(s) && s.pc == Wrap(code)
    requires Loaded(s.mem, ADD, ADX, code, a, b, n) && Apart(code, a, b, n)
    ensures var t := Steps(s, hw, n);
      Value(t.mem[b..b + n]) + t.ex * Base(n) == Value(s.mem[b..b + n]) + Value(s.mem[a..a + n]) &&
      t.ex <= 1 && t == s.(pc := Wrap(code + 3 * n), ex := t.ex, mem := t.mem) &&
      forall x: Word | !(b <= x < b + n) :: t.mem[x] == s.mem[x]
  {
    hide Basic, Steps, Value, Base, Chain;
    ProgramRuns(s, hw, ADD, ADX, code, a, b, n, n);
    AdditionExact(s.mem[b..b + n], s.mem[a..a + n], s.ex);
    Result(s, Steps(s, hw, n), ADD, ADX, code, a, b, n);
  }

  /** SUB and SBX in a row subtract them if and only if no borrow goes into a middle word. */
  lemma SubtractionProgram(s: Cpu, hw: nat -> Reply, code: nat, a: nat, b: nat, n: nat)
    requires 0 < n && Calm(s) && s.pc == Wrap(code)
    requires Loaded(s.mem, SUB, SBX, code, a, b, n) && Apart(code, a, b, n)
    ensures Steps(s, hw, n).mem[b..b + n] == Difference(s.mem[b..b + n], s.mem[a..a + n]) <==>
      BorrowFree(s.mem[b..b + n], s.mem[a..a + n])
  {
    hide Basic, Steps, Value, Base, Chain, Difference, BorrowFree;
    ProgramRuns(s, hw, SUB, SBX, code, a, b, n, n);
    SubtractionExact(s.mem[b..b + n], s.mem[a..a + n], s.ex);
    Result(s, Steps(s, hw, n), SUB, SBX, code, a, b, n);
  }

  lemma Result(s: Cpu, t: Cpu, first: int, next: int, code: nat, a: nat, b: nat, n: nat)
    requires Chained(first) && Chained(next) && a + n <= SIZE && b + n <= SIZE
    requires Progress(s, t, first, next, code, a, b, n)
    ensures (t.mem[b..b + n], t.ex) == Chain(first, next, s.mem[b..b + n], s.mem[a..a + n], s.ex)
  {
    hide Basic, Chain;
    assert t.mem[b..b + n] == Chain(first, next, s.mem[b..b + n], s.mem[a..a + n], s.ex).0;
  }
}
