/** The arithmetic unit of the interpreter: the second `switch(op)` of `DCPU16::Run`. */
module Alu {
  import opened Words

  const SET := 0x01
  const ADD := 0x02
  const SUB := 0x03
  const MUL := 0x04
  const MLI := 0x05
  const DIV := 0x06
  const DVI := 0x07
  const MOD := 0x08
  const MDI := 0x09
  const AND := 0x0a
  const BOR := 0x0b
  const XOR := 0x0c
  const SHR := 0x0d
  const ASR := 0x0e
  const SHL := 0x0f
  const IFB := 0x10
  const IFC := 0x11
  const IFE := 0x12
  const IFN := 0x13
  const IFG := 0x14
  const IFA := 0x15
  const IFL := 0x16
  const IFU := 0x17
  const ADX := 0x1a
  const SBX := 0x1b
  const STI := 0x1e
  const STD := 0x1f

  /** How an opcode uses its b operand. */
  predicate ReadsAndWrites(op: int) {
    ADD <= op <= SHL || op == ADX || op == SBX
  }

  predicate Tests(op: int) {
    IFB <= op <= IFU
  }

  predicate WritesOnly(op: int) {
    op == SET || op == STI || op == STD
  }

  predicate Undefined(op: int) {
    op == 0x18 || op == 0x19 || op == 0x1c || op == 0x1d
  }

  /** MOD, MDI, AND, BOR and XOR leave EX alone. */
  predicate KeepsEx(op: int) {
    MOD <= op <= XOR
  }

  predicate IsSum(op: int) {
    op == ADD || op == SUB || op == ADX || op == SBX
  }

  predicate IsProduct(op: int) {
    op == MUL || op == MLI || op == SHL
  }

  predicate IsRightShift(op: int) {
    op == SHR || op == ASR
  }

  function SumResult(op: int, b: Word, a: Word, ex: Word): (Word, Word) {
    if op == ADD then (Wrap(b + a), if b + a > 0xffff then 1 else 0)
    else if op == SUB then (Wrap(b - a), if b < a then 0xffff else 0)
    else if op == ADX then (Wrap(b + a + ex), (b + a + ex) / 0x1_0000)
    else (Wrap(b - a + ex), Wrap((b - a + ex) / 0x1_0000))
  }

  /** Shift counts of 32 and more are undefined in C++; the count is taken modulo 32, as the
      shift instructions of x86 take it. */
  function Scale(count: Word): nat {
    Pow2(count % 32)
  }

  function Product(op: int, b: Word, a: Word): int {
    if op == MUL then b * a
    else if op == MLI then Signed(b) * Signed(a)
    else b * Scale(a)
  }

  /** DIV: the quotient and its first sixteen binary places. */
  function DivResult(b: Word, a: Word): (Word, Word) {
    if a == 0 then (0, 0) else (Wrap(b / a), Wrap(b * 0x1_0000 / a))
  }

  /** DVI: the truncated fixed-point quotient, cut into its upper and lower word. */
  function DviResult(b: Word, a: Word): (Word, Word) {
    if a == 0 then (0, 0)
    else
      var q := TruncDiv(Signed(b) * 0x1_0000, Signed(a));
      (Wrap(q / 0x1_0000), Wrap(q))
  }

  function RightShiftResult(op: int, b: Word, count: Word): (Word, Word) {
    var value := if op == SHR then b else Signed(b);
    (Wrap(value / Scale(count)), Wrap(value * 0x1_0000 / Scale(count)))
  }

  function LowResult(op: int, b: Word, a: Word): Word {
    if op == MOD then (if a == 0 then 0 else b % a)
    else if op == MDI then (if a == 0 then 0 else Wrap(TruncRem(Signed(b), Signed(a))))
    else if op == AND then BitAnd(b, a)
    else if op == BOR then BitOr(b, a)
    else BitXor(b, a)
  }

  /** The value of b and of EX after a read-modify-write opcode. */
  function Basic(op: int, b: Word, a: Word, ex: Word): (Word, Word)
    requires ReadsAndWrites(op)
  {
    if IsSum(op) then SumResult(op, b, a, ex)
    else if IsProduct(op) then (Wrap(Product(op, b, a)), Wrap(Product(op, b, a) / 0x1_0000))
    else if op == DIV then DivResult(b, a)
    else if op == DVI then DviResult(b, a)
    else if IsRightShift(op) then RightShiftResult(op, b, a)
    else (LowResult(op, b, a), ex)
  }

  /** Whether the opcode's condition holds, so that the next instruction is executed. */
  predicate Holds(op: int, b: Word, a: Word)
    requires Tests(op)
  {
    if op == IFB then BitAnd(b, a) != 0
    else if op == IFC then BitAnd(b, a) == 0
    else if op == IFE then b == a
    else if op == IFN then b != a
    else if op == IFG then b > a
    else if op == IFA then Signed(b) > Signed(a)
    else if op == IFL then b < a
    else Signed(b) < Signed(a)
  }

  /** `DCPU_dtbl`: how an opcode fetches its operand b. */
  const FETCH: seq<int> := [
    0, 3, 1, 1, 1, 1, 1, 1,
    1, 1, 1, 1, 1, 1, 1, 1,
    2, 2, 2, 2, 2, 2, 2, 2,
    0, 0, 1, 1, 0, 0, 3, 3
  ]

  /** `DCPU_dwtbl`: which half of the 32-bit result goes to b and which to EX. */
  const WRITE_BACK: seq<int> := [
    0, 0, 1, 1, 1, 1, 2, 2,
    3, 3, 3, 3, 3, 2, 2, 1,
    0, 0, 0, 0, 0, 0, 0, 0,
    0, 0, 1, 1, 0, 0, 0, 0
  ]

  /** The two tables describe the same partition of the opcodes. */
  lemma {:induction false} TablesAgree(op: int)
    requires 0 < op < 32
    ensures FETCH[op] == 1 <==> ReadsAndWrites(op)
    ensures FETCH[op] == 2 <==> Tests(op)
    ensures FETCH[op] == 3 <==> WritesOnly(op)
    ensures WRITE_BACK[op] != 0 <==> ReadsAndWrites(op)
    ensures WRITE_BACK[op] == 3 <==> KeepsEx(op)
    ensures WRITE_BACK[op] == 2 <==> op == DIV || op == DVI || IsRightShift(op)
    ensures 0 <= WRITE_BACK[op] <= 3
  {
    if op < 16 {
      assert op in {1, 2, 3, 4, 5, 6, 7, 8, 9, 10, 11, 12, 13, 14, 15};
    } else {
      assert op in {16, 17, 18, 19, 20, 21, 22, 23, 24, 25, 26, 27, 28, 29, 30, 31};
    }
  }

  /** The values of b and EX that the write-back phase stores. */
  function Stored(op: int, ui: Word32, ex: Word): (Word, Word)
    requires 0 <= op < 32
  {
    if WRITE_BACK[op] == 2 then (High(ui), Low(ui))
    else if WRITE_BACK[op] == 1 then (Low(ui), High(ui))
    else (Low(ui), ex)
  }

  lemma Halves(x: int)
    ensures Low(Wrap32(x)) == Wrap(x) && High(Wrap32(x)) == Wrap(x / 0x1_0000)
  {
  }

  /** ADD, SUB, ADX and SBX: 32-bit sums of zero-extended words. */
  method Sum(op: int, u: Word, alu1: Word, ex: Word) returns (ui: Word32)
    requires IsSum(op)
    ensures (Low(ui), High(ui)) == SumResult(op, u, alu1, ex)
  {
    if op == ADD {
      ui := u + alu1;
    } else if op == SUB {
      ui := Wrap32(u - alu1);
      Halves(u - alu1);
    } else if op == ADX {
      ui := u + alu1 + ex;
    } else {
      ui := Wrap32(u - alu1 + ex);
      Halves(u - alu1 + ex);
    }
  }

  /** MUL, MLI and SHL: the product is kept modulo 2^32. */
  method Multiply(op: int, u: Word, alu1: Word) returns (ui: Word32)
    requires IsProduct(op)
    ensures Low(ui) == Wrap(Product(op, u, alu1)) && High(ui) == Wrap(Product(op, u, alu1) / 0x1_0000)
  {
    var product :=
      if op == MUL then u * alu1
      else if op == MLI then Signed(u) * Signed(alu1)
      else u * Pow2(alu1 % 32);
    ui := Wrap32(product);
    Halves(product);
  }

  lemma QuotientHalves(x: Word, d: nat)
    requires d > 0
    ensures 0 <= x * 0x1_0000 / d < 0x1_0000_0000
    ensures x * 0x1_0000 / d / 0x1_0000 == x / d
  {
    QuotientShrinks(x * 0x1_0000, d);
    ScaledQuotient(x, 0x1_0000, d);
  }

  method DivideUnsigned(u: Word, alu1: Word) returns (ui: Word32)
    ensures (High(ui), Low(ui)) == DivResult(u, alu1)
  {
    ui := 0;
    if alu1 != 0 {
      QuotientHalves(u, alu1);
      ui := u * 0x1_0000 / alu1;
    }
  }

  lemma Magnitudes(u: Word, a: Word)
    ensures Abs(Signed(u) * 0x1_0000) <= 0x8000_0000
    ensures Abs(Signed(a)) <= 0x8000
    ensures Signed32(u * 0x1_0000) == Signed(u) * 0x1_0000
  {
  }

  /** Division of magnitudes, with the sign applied to the unsigned quotient. */
  method SignedQuotient(magnitude: Word32, divisor: Word, negate: bool) returns (ui: Word32)
    requires magnitude <= 0x8000_0000 && 0 < divisor
    ensures ui == Wrap32(if negate then -(magnitude / divisor) else magnitude / divisor)
  {
    QuotientShrinks(magnitude, divisor);
    ui := magnitude / divisor;
    if negate {
      ui := Wrap32(-Signed32(ui));
    }
  }

  /** DVI: the magnitudes are divided unsigned and the sign is put back afterwards. */
  method DivideSigned(u: Word, alu1: Word) returns (ui: Word32)
    ensures (High(ui), Low(ui)) == DviResult(u, alu1)
  {
    Magnitudes(u, alu1);
    ui := u * 0x1_0000;
    var divisor := alu1;
    var negate := (Signed32(ui) < 0) != (Signed(divisor) < 0);
    if Signed32(ui) < 0 {
      ui := Wrap32(-Signed32(ui));
    }
    if Signed(divisor) < 0 {
      divisor := Wrap(-Signed(divisor));
    }
    if divisor == 0 {
      ui := 0;
    } else {
      ui := SignedQuotient(ui, divisor, negate);
      ghost var q := TruncDiv(Signed(u) * 0x1_0000, Signed(alu1));
      assert ui == Wrap32(q);
      Halves(q);
    }
  }

  /** SHR and ASR: the operand is moved to the upper half and shifted right from there. */
  method ShiftRight(op: int, u: Word, count: Word) returns (ui: Word32)
    requires IsRightShift(op)
    ensures (High(ui), Low(ui)) == RightShiftResult(op, u, count)
  {
    var value := if op == SHR then u else Signed(u);
    ScaledQuotient(value, 0x1_0000, Scale(count));
    ui := Wrap32(value * 0x1_0000 / Scale(count));
    Halves(value * 0x1_0000 / Scale(count));
  }

  /** MOD, MDI and the bit operations store into the low half of the union only. */
  method LowHalf(op: int, alu1: Word, alu2: Word32) returns (ui: Word32)
    requires KeepsEx(op)
    ensures Low(ui) == LowResult(op, Low(alu2), alu1)
  {
    var u := Low(alu2);
    var v: Word;
    if op == MOD {
      v := if alu1 != 0 then u % alu1 else 0;
    } else if op == MDI {
      v := if Signed(alu1) != 0 then Wrap(TruncRem(Signed(u), Signed(alu1))) else 0;
    } else if op == AND {
      v := BitAnd(u, alu1);
    } else if op == BOR {
      v := BitOr(u, alu1);
    } else {
      v := BitXor(u, alu1);
    }
    ui := SetLow(alu2, v);
  }

  /** The ALU proper. On entry the low half of `alu2` is b and the high half EX. */
  method Compute(op: int, alu1: Word, alu2: Word32) returns (ui: Word32)
    requires ReadsAndWrites(op)
    ensures Stored(op, ui, High(alu2)) == Basic(op, Low(alu2), alu1, High(alu2))
  {
    TablesAgree(op);
    var u, ex := Low(alu2), High(alu2);
    if IsSum(op) {
      ui := Sum(op, u, alu1, ex);
    } else if IsProduct(op) {
      ui := Multiply(op, u, alu1);
    } else if op == DIV {
      ui := DivideUnsigned(u, alu1);
    } else if op == DVI {
      ui := DivideSigned(u, alu1);
    } else if IsRightShift(op) {
      ui := ShiftRight(op, u, alu1);
    } else {
      ui := LowHalf(op, alu1, alu2);
    }
  }
}
