/** What the ALU computes, stated on the pair of b and EX as one 32-bit number. */
module AluLaws {
  import opened Words
  import opened Alu

  /** `high:low` as a number. */
  function Pair(high: Word, low: Word): Word32 {
    high * 0x1_0000 + low
  }

  lemma PairOf(x: int)
    ensures Pair(Wrap(x / 0x1_0000), Wrap(x)) == Wrap32(x)
  {
  }

  /** EX:b is the exact sum and EX the carry. ADX carries 0, 1 or 2. */
  lemma AdditionsExact(b: Word, a: Word, ex: Word)
    ensures var (v, e) := Basic(ADD, b, a, ex); Pair(e, v) == b + a && e <= 1
    ensures var (v, e) := Basic(ADX, b, a, ex); Pair(e, v) == b + a + ex && e <= 2
  {
    hide Product, DivResult, DviResult, RightShiftResult, LowResult;
  }

  /** EX:b is the exact difference modulo 2^32. */
  lemma SubExact(b: Word, a: Word, ex: Word)
    ensures var (v, e) := Basic(SUB, b, a, ex);
      Pair(e, v) == Wrap32(b - a) && e == if b < a then 0xffff else 0
  {
    hide Product, DivResult, DviResult, RightShiftResult, LowResult;
  }

  /** SBX adds EX as an unsigned word. */
  lemma SbxExact(b: Word, a: Word, ex: Word)
    ensures var (v, e) := Basic(SBX, b, a, ex); Pair(e, v) == Wrap32(b - a + ex)
  {
    hide Wrap, Wrap32, Product, DivResult, DviResult, RightShiftResult, LowResult;
    PairOf(b - a + ex);
  }

  /** EX:b is the exact product modulo 2^32. */
  lemma ProductsExact(b: Word, a: Word, ex: Word)
    ensures var (v, e) := Basic(MUL, b, a, ex); Pair(e, v) == Wrap32(b * a)
    ensures var (v, e) := Basic(MLI, b, a, ex); Pair(e, v) == Wrap32(Signed(b) * Signed(a))
  {
    hide Wrap, Wrap32, SumResult, DivResult, DviResult, RightShiftResult, LowResult;
    PairOf(b * a);
    PairOf(Signed(b) * Signed(a));
  }

  /** b:EX is the unsigned quotient of b * 65536 by a. */
  lemma DivExact(b: Word, a: Word, ex: Word)
    ensures a != 0 ==> var (v, e) := Basic(DIV, b, a, ex); Pair(v, e) == b * 0x1_0000 / a
    ensures a == 0 ==> Basic(DIV, b, a, ex) == (0, 0)
  {
    hide SumResult, Product, DviResult, RightShiftResult, LowResult;
    if a != 0 {
      QuotientHalves(b, a);
      PairOf(b * 0x1_0000 / a);
    }
  }

  /** b:EX is the signed quotient of b * 65536 by a, truncated toward zero, modulo 2^32. */
  lemma DviExact(b: Word, a: Word, ex: Word)
    ensures a != 0 ==>
      var (v, e) := Basic(DVI, b, a, ex);
      Pair(v, e) == Wrap32(TruncDiv(Signed(b) * 0x1_0000, Signed(a)))
    ensures a == 0 ==> Basic(DVI, b, a, ex) == (0, 0)
  {
    hide Wrap, Wrap32, TruncDiv, SumResult, Product, DivResult, RightShiftResult, LowResult;
    if a != 0 {
      PairOf(TruncDiv(Signed(b) * 0x1_0000, Signed(a)));
    }
  }

  /** The upper word of a negated fixed-point quotient is the floor, not the truncation. */
  lemma NegatedFloor(n: nat, k: nat, d: nat)
    requires 0 < d <= k
    ensures (-(n * k / d)) / k == if n % d == 0 then -(n / d) else -(n / d) - 1
  {
    var q, r := n / d, n % d;
    assert n == q * d + r;
    if r == 0 {
      Regroup(q, d, k);
      DivBetween(n * k, d, q * k);
      DivBetween(-(n * k / d), k, -q);
    } else {
      FractionShows(n, k, d, q, r);
    }
  }

  lemma AtLeastOneUnit(n: nat, k: nat, d: nat, q: int)
    requires 0 < d <= k && q * d + 1 <= n
    ensures q * k < n * k / d
  {
    ScaleBounds(q * d + 1, n, n + 1, k);
    Regroup(q, d, k);
    TimesSuccessor(q * d, k);
    TimesSuccessor(q * k, d);
    Quotient(n * k, d);
    CancelFactor(q * k, n * k / d, d) by {
      AtLeast(q * k + 1, n * k, d);
    }
  }

  lemma AtLeast(x: int, n: nat, d: nat)
    requires d > 0 && x * d <= n
    ensures (x - 1) * d < n / d * d
  {
    Quotient(n, d);
    CancelFactor(x, n / d + 1, d);
    ScaleBounds(x - 1, x - 1, n / d, d);
  }

  lemma Quotient(n: nat, d: nat)
    requires d > 0
    ensures n / d * d <= n < (n / d + 1) * d
  {
  }

  lemma TimesSuccessor(x: int, k: int)
    ensures (x + 1) * k == x * k + k
  {
  }

  lemma FractionShows(n: nat, k: nat, d: nat, q: int, r: nat)
    requires 0 < d <= k && n == q * d + r && 0 < r < d
    ensures (-(n * k / d)) / k == -q - 1
  {
    var t := n * k / d;
    AtLeastOneUnit(n, k, d, q);
    TimesSuccessor(q, d);
    ScaleBounds(n, n, (q + 1) * d, k);
    Regroup(q + 1, d, k);
    Quotient(n * k, d);
    CancelFactor(t, (q + 1) * k, d);
    TimesSuccessor(q, k);
    DivBetween(-t, k, -q - 1);
  }

  /** The integer word of a DVI is the quotient of b by a truncated toward zero exactly when the
      operands have the same sign or the division leaves no remainder. */
  lemma DviIntegerWord(b: Word, a: Word, ex: Word)
    requires a != 0
    ensures Basic(DVI, b, a, ex).0 == Wrap(TruncDiv(Signed(b), Signed(a))) <==>
      (Signed(b) < 0) == (Signed(a) < 0) || Abs(Signed(b)) % Abs(Signed(a)) == 0
  {
    hide SumResult, Product, DivResult, RightShiftResult, LowResult;
    var n, d := Abs(Signed(b)), Abs(Signed(a));
    assert Abs(Signed(b) * 0x1_0000) == n * 0x1_0000 && d <= 0x8000;
    if (Signed(b) < 0) == (Signed(a) < 0) {
      ScaledQuotient(n, 0x1_0000, d);
    } else {
      NegatedFloor(n, 0x1_0000, d);
      QuotientShrinks(n, d);
    }
  }

  /** MOD gives the remainder that goes with the unsigned quotient, MDI the one that goes with the
      truncated quotient; by zero both give zero. EX is kept. */
  lemma RemaindersExact(b: Word, a: Word, ex: Word)
    ensures a != 0 ==> Basic(MOD, b, a, ex) == (b - b / a * a, ex)
    ensures a != 0 ==> Signed(Basic(MDI, b, a, ex).0) == Signed(b) - TruncDiv(Signed(b), Signed(a)) * Signed(a)
    ensures a == 0 ==> Basic(MOD, b, a, ex) == Basic(MDI, b, a, ex) == (0, ex)
    ensures Basic(MDI, b, a, ex).1 == ex
  {
    hide SumResult, Product, DivResult, DviResult, RightShiftResult, TruncDiv, TruncRem, Wrap;
    if a != 0 {
      Euclid(b, a);
      TruncIdentity(Signed(b), Signed(a));
      RemainderBound(Signed(b), Signed(a));
      SignedOfWrapped(TruncRem(Signed(b), Signed(a)));
    }
  }

  lemma Euclid(n: nat, d: nat)
    requires d > 0
    ensures n % d == n - n / d * d
  {
  }

  lemma SmallQuotient(x: int, d: int)
    requires d > 0
    ensures x / d == 0 <==> 0 <= x < d
    ensures x / d == -1 <==> -d <= x < 0
  {
    if 0 <= x < d {
      DivBetween(x, d, 0);
    } else if -d <= x < 0 {
      DivBetween(x, d, -1);
    }
  }

  /** b:EX of a right shift, with the count taken modulo 32. */
  lemma RightShiftPair(op: int, b: Word, a: Word, ex: Word)
    requires IsRightShift(op)
    ensures var (v, e) := Basic(op, b, a, ex);
      Pair(v, e) == Wrap32((if op == SHR then b else Signed(b)) * 0x1_0000 / Scale(a))
  {
    hide Wrap, Wrap32, Pow2, SumResult, Product, DivResult, DviResult, LowResult;
    var value := if op == SHR then b else Signed(b);
    ScaledQuotient(value, 0x1_0000, Scale(a));
    PairOf(value * 0x1_0000 / Scale(a));
  }

  lemma LargePower(a: nat)
    requires a >= 32
    ensures Pow2(a) >= 0x1_0000_0000
  {
    Pow2Values();
    Pow2Monotone(32, a);
  }

  /** b:EX of SHR is b * 65536 divided by 2^a, for every count below 32, and for a larger count
      exactly when the count modulo 32 already shifts everything out. */
  lemma ShrExact(b: Word, a: Word, ex: Word)
    ensures var (v, e) := Basic(SHR, b, a, ex);
      Pair(v, e) == b * 0x1_0000 / Pow2(a) <==> a < 32 || b * 0x1_0000 < Pow2(a % 32)
  {
    hide Basic, Pow2;
    RightShiftPair(SHR, b, a, ex);
    QuotientHalves(b, Scale(a));
    SmallQuotient(b * 0x1_0000, Scale(a));
    if a >= 32 {
      LargePower(a);
      SmallQuotient(b * 0x1_0000, Pow2(a));
    }
  }

  /** The same for ASR, with the sign of b kept. */
  lemma AsrExact(b: Word, a: Word, ex: Word)
    ensures var (v, e) := Basic(ASR, b, a, ex);
      Pair(v, e) == Wrap32(Signed(b) * 0x1_0000 / Pow2(a)) <==>
      a < 32 || 0 - Pow2(a % 32) <= Signed(b) * 0x1_0000 < Pow2(a % 32)
  {
    hide Basic, Pow2;
    var x := Signed(b) * 0x1_0000;
    RightShiftPair(ASR, b, a, ex);
    if a >= 32 {
      SmallQuotient(x, Scale(a));
      SignedQuotientRange(x, Scale(a));
      LargePower(a);
      SmallQuotient(x, Pow2(a));
    }
  }

  lemma SignedQuotientRange(x: int, d: nat)
    requires d > 0 && -0x8000_0000 <= x < 0x8000_0000
    ensures -0x8000_0000 <= x / d < 0x8000_0000
  {
    if x >= 0 {
      QuotientShrinks(x, d);
    } else {
      ScaleBounds(-0x8000_0000, -0x8000_0000, -0x7fff_ffff, d);
      ProductGrows(0x8000_0000, d);
      CancelFactor(-0x8000_0001, x / d, d) by {
        Floor(x, d);
        TimesSuccessor(-0x8000_0001, d);
      }
      CancelFactor(x / d, 1, d);
    }
  }

  lemma Floor(x: int, d: nat)
    requires d > 0
    ensures x / d * d <= x < (x / d + 1) * d && x - d < x / d * d
  {
  }

  lemma MultipleOfPower(b: nat, m: nat, p: nat)
    requires m > 0 && p > 0
    ensures b * p % (m * p) == b % m * p
  {
    var q, r := b / m, b % m;
    assert b == q * m + r;
    assert b * p == q * (m * p) + r * p;
    ScaleBounds(r, r, m, p);
    assert 0 <= r * p < m * p;
    RemainderOf(q, m * p, r * p);
  }

  lemma RemainderOf(q: nat, d: nat, r: nat)
    requires r < d
    ensures (q * d + r) % d == r
  {
    DivBetween(q * d + r, d, q);
  }

  lemma ShiftedOut(b: nat, a: nat)
    requires a >= 32
    ensures b * Pow2(a) % 0x1_0000_0000 == 0
  {
    hide Pow2;
    Pow2Values();
    Pow2Sum(32, a - 32);
    MultipleVanishes(b, Pow2(a - 32));
  }

  lemma LeftBehind(b: nat, k: nat)
    requires k < 32
    ensures b * Pow2(k) % 0x1_0000_0000 == 0 <==> b % Pow2(32 - k) == 0
  {
    hide Pow2;
    Pow2Values();
    Pow2Sum(32 - k, k);
    MultipleOfPower(b, Pow2(32 - k), Pow2(k));
    ProductVanishes(b % Pow2(32 - k), Pow2(k));
  }

  lemma ProductVanishes(x: nat, p: nat)
    requires p > 0
    ensures x * p == 0 <==> x == 0
  {
  }

  /** EX:b of SHL is b * 2^a modulo 2^32, for every count below 32, and for a larger count exactly
      when the bits of b that the count modulo 32 would leave behind are clear. */
  lemma ShlExact(b: Word, a: Word, ex: Word)
    ensures var (v, e) := Basic(SHL, b, a, ex);
      Pair(e, v) == Wrap32(b * Pow2(a)) <==> a < 32 || b % Pow2(32 - a % 32) == 0
  {
    hide Pow2, Wrap, SumResult, DivResult, DviResult, RightShiftResult, LowResult;
    PairOf(b * Scale(a));
    if a >= 32 {
      ShiftedOut(b, a);
      LeftBehind(b, a % 32);
    }
  }

  lemma MultipleVanishes(b: nat, p: nat)
    ensures b * (0x1_0000_0000 * p) % 0x1_0000_0000 == 0
  {
    assert b * (0x1_0000_0000 * p) == (b * p) * 0x1_0000_0000;
  }

  /** -1 divided by 2 has the integer word -1 and the fraction one half. */
  lemma MinusOneByTwo(ex: Word)
    ensures Basic(DVI, 0xffff, 2, ex) == (0xffff, 0x8000) && TruncDiv(Signed(0xffff), Signed(2)) == 0
  {
    hide SumResult, Product, DivResult, RightShiftResult, LowResult;
  }

  /** AND, BOR and XOR work on every bit by itself, and keep EX. */
  lemma BitsExact(b: Word, a: Word, ex: Word, k: nat)
    requires k < 16
    ensures Bit(Basic(AND, b, a, ex).0, k) == (Bit(b, k) && Bit(a, k))
    ensures Bit(Basic(BOR, b, a, ex).0, k) == (Bit(b, k) || Bit(a, k))
    ensures Bit(Basic(XOR, b, a, ex).0, k) == (Bit(b, k) != Bit(a, k))
    ensures Basic(AND, b, a, ex).1 == Basic(BOR, b, a, ex).1 == Basic(XOR, b, a, ex).1 == ex
  {
    BitResults(b, a, ex);
    hide Bit, Bitwise, Basic;
    BitwiseBit(Both, b, a, 16, k);
    BitwiseBit(Either, b, a, 16, k);
    BitwiseBit(Differ, b, a, 16, k);
  }

  lemma BitResults(b: Word, a: Word, ex: Word)
    ensures Basic(AND, b, a, ex) == (Bitwise(Both, b, a, 16), ex)
    ensures Basic(BOR, b, a, ex) == (Bitwise(Either, b, a, 16), ex)
    ensures Basic(XOR, b, a, ex) == (Bitwise(Differ, b, a, 16), ex)
  {
    hide Bitwise, Pow2, SumResult, Product, DivResult, DviResult, RightShiftResult;
  }

  /** Two words have a bit in common. */
  predicate Meet(b: Word, a: Word) {
    exists k | 0 <= k < 16 :: Bit(b, k) && Bit(a, k)
  }

  lemma AndMeets(b: Word, a: Word)
    ensures BitAnd(b, a) != 0 <==> Meet(b, a)
  {
    hide Bit, Bitwise, Pow2;
    Pow2Values();
    var z := Bitwise(Both, b, a, 16);
    assert BitAnd(b, a) == z;
    SomeBit(z, 16);
    forall k: nat | k < 16
      ensures Bit(z, k) == (Bit(b, k) && Bit(a, k))
    {
      BitwiseBit(Both, b, a, 16, k);
    }
  }

  /** The order of two words, as SUB shows it in EX. */
  lemma OrderBySub(b: Word, a: Word, ex: Word)
    ensures Basic(SUB, b, a, ex).1 == 0xffff <==> b < a
    ensures Basic(SUB, Wrap(b + 0x8000), Wrap(a + 0x8000), ex).1 == 0xffff <==> Signed(b) < Signed(a)
  {
    hide Product, DivResult, DviResult, RightShiftResult, LowResult;
  }
}
