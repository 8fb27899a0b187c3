/** Arithmetic on numbers of many words, little-endian, as programs chain it: ADD or SUB on the
    lowest words and ADX or SBX, which continue with the EX of the step before, on the others. */
module Multiword {
  import opened Words
  import opened Alu
  import opened AluLaws

  /** 65536^n */
  function Base(n: nat): nat {
    if n == 0 then 1 else 0x1_0000 * Base(n - 1)
  }

  function Value(ws: seq<Word>): nat {
    if |ws| == 0 then 0 else Value(ws[..|ws| - 1]) + ws[|ws| - 1] * Base(|ws| - 1)
  }

  lemma NextBase(n: nat)
    ensures Base(n + 1) == 0x1_0000 * Base(n)
  {
  }

  lemma {:induction false} ValueBound(ws: seq<Word>)
    ensures Value(ws) < Base(|ws|)
  {
    if |ws| > 0 {
      var n := |ws| - 1;
      ValueBound(ws[..n]);
      DigitBound(ws[n], Base(n));
    }
  }

  lemma DigitBound(w: Word, base: nat)
    ensures w * base + base <= 0x1_0000 * base
  {
    assert (w + 1) * base <= 0x1_0000 * base;
  }

  /** The words and the EX left by a chain: `first` on the lowest words, `next` on all others. */
  function Chain(first: int, next: int, bs: seq<Word>, as_: seq<Word>, ex: Word): (seq<Word>, Word)
    requires |bs| == |as_| && ReadsAndWrites(first) && ReadsAndWrites(next)
  {
    if |bs| == 0 then ([], ex)
    else
      var n := |bs| - 1;
      var (vs, e) := Chain(first, next, bs[..n], as_[..n], ex);
      var (v, e') := Basic(if n == 0 then first else next, bs[n], as_[n], e);
      (vs + [v], e')
  }

  lemma {:induction false} ChainLength(first: int, next: int, bs: seq<Word>, as_: seq<Word>, ex: Word)
    requires |bs| == |as_| && ReadsAndWrites(first) && ReadsAndWrites(next)
    ensures |Chain(first, next, bs, as_, ex).0| == |bs|
  {
    hide Basic;
    if |bs| > 0 {
      var n := |bs| - 1;
      ChainLength(first, next, bs[..n], as_[..n], ex);
    }
  }

  /** The words a chain has computed do not change when it goes on. */
  lemma ChainPrefix(first: int, next: int, bs: seq<Word>, as_: seq<Word>, ex: Word)
    requires 0 < |bs| == |as_| && ReadsAndWrites(first) && ReadsAndWrites(next)
    ensures var n := |bs| - 1;
      var (vs, e) := Chain(first, next, bs[..n], as_[..n], ex);
      var (v, e') := Basic(if n == 0 then first else next, bs[n], as_[n], e);
      |vs| == n && Chain(first, next, bs, as_, ex) == (vs + [v], e') &&
      Value(vs + [v]) == Value(vs) + v * Base(n)
  {
    hide Basic;
    var n := |bs| - 1;
    ChainLength(first, next, bs[..n], as_[..n], ex);
    var vs := Chain(first, next, bs[..n], as_[..n], ex).0;
    assert forall v: Word :: (vs + [v])[..n] == vs;
  }

  lemma Carry(b: nat, a: nat, low: nat, v: nat, e: nat, carry: nat, base: nat, sum: nat)
    requires low + carry * base == sum
    requires e * 0x1_0000 + v == b + a + carry
    ensures low + v * base + e * (0x1_0000 * base) == sum + b * base + a * base
  {
    assert v * base + e * (0x1_0000 * base) == (e * 0x1_0000 + v) * base;
    assert (b + a + carry) * base == b * base + a * base + carry * base;
  }

  /** A chain of one ADD and any number of ADX is exact addition; the last EX is the carry out of
      the whole number, 0 or 1. */
  lemma {:induction false} AdditionExact(bs: seq<Word>, as_: seq<Word>, ex: Word)
    requires 0 < |bs| == |as_|
    ensures var (vs, e) := Chain(ADD, ADX, bs, as_, ex);
      Value(vs) + e * Base(|bs|) == Value(bs) + Value(as_) && e <= 1 && |vs| == |bs|
  {
    hide Basic;
    var n := |bs| - 1;
    ChainPrefix(ADD, ADX, bs, as_, ex);
    var (vs, e) := Chain(ADD, ADX, bs[..n], as_[..n], ex);
    AdditionsExact(bs[n], as_[n], e);
    if n == 0 {
      var (v, e') := Basic(ADD, bs[0], as_[0], e);
      Carry(bs[0], as_[0], 0, v, e', 0, 1, 0);
    } else {
      AdditionExact(bs[..n], as_[..n], ex);
      var (v, e') := Basic(ADX, bs[n], as_[n], e);
      Carry(bs[n], as_[n], Value(vs), v, e', e, Base(n), Value(bs[..n]) + Value(as_[..n]));
      assert e' <= 1;
    }
  }

  // ----- subtraction -----

  /** The words below k of b are smaller than those of a. */
  predicate Borrows(bs: seq<Word>, as_: seq<Word>, k: nat)
    requires k <= |bs| == |as_|
  {
    Value(bs[..k]) < Value(as_[..k])
  }

  function Borrow(bs: seq<Word>, as_: seq<Word>, k: nat): int
    requires k <= |bs| == |as_|
  {
    if Borrows(bs, as_, k) then 1 else 0
  }

  function Digit(b: int, a: int, borrow: int): int {
    b - a - borrow
  }

  /** The schoolbook difference: every word minus the borrow into it. */
  function Difference(bs: seq<Word>, as_: seq<Word>): (vs: seq<Word>)
    requires |bs| == |as_|
    ensures |vs| == |bs|
  {
    if |bs| == 0 then []
    else
      var n := |bs| - 1;
      Difference(bs[..n], as_[..n]) + [Wrap(Digit(bs[n], as_[n], Borrow(bs, as_, n)))]
  }

  lemma ValueSplit(ws: seq<Word>, k: nat)
    requires k < |ws|
    ensures Value(ws[..k + 1]) == Value(ws[..k]) + ws[k] * Base(k)
  {
    assert ws[..k + 1][..k] == ws[..k];
  }

  /** What decides the borrow out of word k. */
  lemma BorrowStep(bs: seq<Word>, as_: seq<Word>, k: nat)
    requires k < |bs| == |as_|
    ensures Borrows(bs, as_, k + 1) <==> Digit(bs[k], as_[k], Borrow(bs, as_, k)) < 0
  {
    hide Value, Base;
    ValueSplit(bs, k);
    ValueSplit(as_, k);
    ValueBound(bs[..k]);
    ValueBound(as_[..k]);
    LeadingDigit(bs[k], as_[k], Value(bs[..k]), Value(as_[..k]), Base(k));
  }

  lemma LeadingDigit(b: int, a: int, x: nat, y: nat, base: nat)
    requires x < base && y < base
    ensures x + b * base < y + a * base <==> Digit(b, a, if x < y then 1 else 0) < 0
  {
    var d := b - a;
    assert d * base == b * base - a * base;
    if d >= 1 {
      ScaleBounds(1, d, d + 1, base);
    } else if d <= -1 {
      ScaleBounds(d, d, 0, base);
      assert d * base <= -1 * base;
    }
  }

  lemma Collect(low: int, x: int, y: int, v: int, b: int, a: int, c: int, c': int, base: int, next: int)
    requires next == 0x1_0000 * base
    requires low == x - y + c * base && v == Digit(b, a, c) + c' * 0x1_0000
    ensures low + v * base == (x + b * base) - (y + a * base) + c' * next
  {
    assert c' * (0x1_0000 * base) == (c' * 0x1_0000) * base;
    assert v * base == (b - a - c + c' * 0x1_0000) * base;
    assert (b - a - c + c' * 0x1_0000) * base == b * base - a * base - c * base + (c' * 0x1_0000) * base;
  }

  /** The schoolbook difference is the difference of the values modulo 65536^n. */
  lemma {:induction false} DifferenceIsExact(bs: seq<Word>, as_: seq<Word>)
    requires |bs| == |as_|
    ensures Value(Difference(bs, as_)) == Value(bs) - Value(as_) + Borrow(bs, as_, |bs|) * Base(|bs|)
  {
    assert bs[..|bs|] == bs && as_[..|bs|] == as_;
    if |bs| > 0 {
      var n := |bs| - 1;
      DifferenceIsExact(bs[..n], as_[..n]);
      assert bs[..n][..n] == bs[..n] && as_[..n][..n] == as_[..n];
      BorrowStep(bs, as_, n);
      LastWord(bs, as_, n, Difference(bs[..n], as_[..n]));
    }
  }

  lemma LastWord(bs: seq<Word>, as_: seq<Word>, n: nat, low: seq<Word>)
    requires n + 1 == |bs| == |as_| && |low| == n
    requires Value(low) == Value(bs[..n]) - Value(as_[..n]) + Borrow(bs, as_, n) * Base(n)
    requires Borrows(bs, as_, n + 1) <==> Digit(bs[n], as_[n], Borrow(bs, as_, n)) < 0
    ensures var v := Wrap(Digit(bs[n], as_[n], Borrow(bs, as_, n)));
      Value(low + [v]) == Value(bs) - Value(as_) + Borrow(bs, as_, n + 1) * Base(n + 1)
  {
    hide Borrows, Value;
    var c, c' := Borrow(bs, as_, n), Borrow(bs, as_, n + 1);
    var v := Wrap(Digit(bs[n], as_[n], c));
    WrappedDigit(bs[n], as_[n], c);
    Combine(low, bs, as_, n, v, c, c');
  }

  lemma WrappedDigit(b: Word, a: Word, c: int)
    requires 0 <= c <= 1
    ensures Wrap(Digit(b, a, c)) == Digit(b, a, c) + (if Digit(b, a, c) < 0 then 1 else 0) * 0x1_0000
  {
  }

  lemma Combine(low: seq<Word>, bs: seq<Word>, as_: seq<Word>, n: nat, v: Word, c: int, c': int)
    requires n + 1 == |bs| == |as_| && |low| == n
    requires Value(low) == Value(bs[..n]) - Value(as_[..n]) + c * Base(n)
    requires v == Digit(bs[n], as_[n], c) + c' * 0x1_0000
    ensures Value(low + [v]) == Value(bs) - Value(as_) + c' * Base(n + 1)
  {
    hide Value, Digit;
    NextBase(n);
    hide Base;
    Collect(Value(low), Value(bs[..n]), Value(as_[..n]), v, bs[n], as_[n], c, c', Base(n), Base(n + 1));
    Appended(low, v);
    Appended(bs[..n], bs[n]);
    Appended(as_[..n], as_[n]);
    assert bs[..n] + [bs[n]] == bs && as_[..n] + [as_[n]] == as_;
  }

  lemma Appended(ws: seq<Word>, w: Word)
    ensures Value(ws + [w]) == Value(ws) + w * Base(|ws|)
  {
    assert (ws + [w])[..|ws|] == ws;
  }

  /** No borrow goes into a word below the last. */
  predicate BorrowFree(bs: seq<Word>, as_: seq<Word>)
    requires |bs| == |as_|
  {
    forall i | 1 <= i < |bs| - 1 :: !Borrows(bs, as_, i)
  }

  /** A subtraction step that is told whether to borrow. After a borrow, the EX it hands on is
      never the right one: 0 in place of 0xffff, or 1 in place of 0. */
  lemma SubtractionStep(op: int, b: Word, a: Word, ex: Word)
    requires op == SUB || (op == SBX && (ex == 0 || ex == 0xffff))
    ensures var (v, e) := Basic(op, b, a, ex);
      var borrow := if op == SBX && ex == 0xffff then 1 else 0;
      v == Wrap(Digit(b, a, borrow)) &&
      (borrow == 0 ==> e == if Digit(b, a, 0) < 0 then 0xffff else 0) &&
      (borrow == 1 ==> e == if Digit(b, a, 1) < 0 then 0 else 1)
  {
    hide Product, DivResult, DviResult, RightShiftResult, LowResult;
  }

  /** As long as no borrow has gone into the words so far, EX is the borrow out of them. */
  lemma {:induction false} SubtractionGoesWell(bs: seq<Word>, as_: seq<Word>, ex: Word)
    requires 0 < |bs| == |as_| && BorrowFree(bs, as_)
    ensures var (vs, e) := Chain(SUB, SBX, bs, as_, ex);
      vs == Difference(bs, as_) &&
      (!Borrows(bs, as_, |bs| - 1) ==> e == if Borrows(bs, as_, |bs|) then 0xffff else 0)
  {
    hide Basic, Value, Base, Wrap, Borrows;
    var n := |bs| - 1;
    ChainPrefix(SUB, SBX, bs, as_, ex);
    BorrowStep(bs, as_, n);
    var (vs, e) := Chain(SUB, SBX, bs[..n], as_[..n], ex);
    PrefixBorrows(bs, as_, n);
    if n > 0 {
      NoBorrowAtStart(bs, as_);
      SubtractionGoesWell(bs[..n], as_[..n], ex);
      SubtractionStep(SBX, bs[n], as_[n], e);
    } else {
      NoBorrowAtStart(bs, as_);
      SubtractionStep(SUB, bs[n], as_[n], e);
    }
  }

  lemma NoBorrowAtStart(bs: seq<Word>, as_: seq<Word>)
    requires |bs| == |as_|
    ensures !Borrows(bs, as_, 0)
  {
  }

  lemma PrefixBorrows(bs: seq<Word>, as_: seq<Word>, n: nat)
    requires n <= |bs| == |as_|
    ensures forall i | 0 <= i <= n :: Borrows(bs[..n], as_[..n], i) == Borrows(bs, as_, i)
  {
    hide Value;
    forall i | 0 <= i <= n
      ensures Borrows(bs[..n], as_[..n], i) == Borrows(bs, as_, i)
    {
      assert bs[..n][..i] == bs[..i] && as_[..n][..i] == as_[..i];
    }
  }

  lemma {:induction false} ChainSplit(first: int, next: int, bs: seq<Word>, as_: seq<Word>, ex: Word, k: nat)
    requires k <= |bs| == |as_| && ReadsAndWrites(first) && ReadsAndWrites(next)
    ensures Chain(first, next, bs[..k], as_[..k], ex).0 <= Chain(first, next, bs, as_, ex).0
    decreases |bs|
  {
    hide Basic;
    assert bs[..|bs|] == bs && as_[..|bs|] == as_;
    if k < |bs| {
      var n := |bs| - 1;
      ChainSplit(first, next, bs[..n], as_[..n], ex, k);
      assert bs[..n][..k] == bs[..k] && as_[..n][..k] == as_[..k];
    }
  }

  lemma {:induction false} DifferenceSplit(bs: seq<Word>, as_: seq<Word>, k: nat)
    requires k <= |bs| == |as_|
    ensures Difference(bs[..k], as_[..k]) <= Difference(bs, as_)
    decreases |bs|
  {
    assert bs[..|bs|] == bs && as_[..|bs|] == as_;
    if k < |bs| {
      var n := |bs| - 1;
      DifferenceSplit(bs[..n], as_[..n], k);
      assert bs[..n][..k] == bs[..k] && as_[..n][..k] == as_[..k];
    }
  }

  /** The first borrow into a word that has a successor spoils that successor. */
  lemma SubtractionGoesWrong(bs: seq<Word>, as_: seq<Word>, ex: Word, i: nat)
    requires 1 <= i && i + 2 == |bs| == |as_| && Borrows(bs, as_, i)
    requires forall k | 1 <= k < i :: !Borrows(bs, as_, k)
    ensures Chain(SUB, SBX, bs, as_, ex).0 != Difference(bs, as_)
  {
    hide Basic, Value, Base, Borrows, Wrap, Chain;
    var n := i + 1;
    NoBorrowAtStart(bs, as_);
    PrefixBorrows(bs, as_, i);
    PrefixBorrows(bs, as_, n);
    SubtractionGoesWell(bs[..i], as_[..i], ex);
    var (low, e0) := Chain(SUB, SBX, bs[..i], as_[..i], ex);
    assert bs[..n][..i] == bs[..i] && as_[..n][..i] == as_[..i];
    ChainPrefix(SUB, SBX, bs[..n], as_[..n], ex);
    SubtractionStep(SBX, bs[i], as_[i], e0);
    BorrowStep(bs, as_, i);
    var (mid, e1) := Chain(SUB, SBX, bs[..n], as_[..n], ex);
    ChainPrefix(SUB, SBX, bs, as_, ex);
    WrongBorrow(bs[n], as_[n], e1, Borrows(bs, as_, n));
    assert Chain(SUB, SBX, bs, as_, ex).0[n] == Basic(SBX, bs[n], as_[n], e1).0;
    assert Difference(bs, as_)[n] == Wrap(Digit(bs[n], as_[n], Borrow(bs, as_, n)));
  }

  lemma WrongBorrow(b: Word, a: Word, ex: Word, borrows: bool)
    requires ex == if borrows then 0 else 1
    ensures Basic(SBX, b, a, ex).0 != Wrap(Digit(b, a, if borrows then 1 else 0))
  {
    hide Product, DivResult, DviResult, RightShiftResult, LowResult;
  }

  /** A chain of one SUB and any number of SBX is exact subtraction if and only if no borrow goes
      into a word between the first and the last: SBX adds EX unsigned, so a borrow reaches the
      next word but is not handed on. */
  lemma SubtractionExact(bs: seq<Word>, as_: seq<Word>, ex: Word)
    requires 0 < |bs| == |as_|
    ensures Chain(SUB, SBX, bs, as_, ex).0 == Difference(bs, as_) <==> BorrowFree(bs, as_)
  {
    hide Basic, Value, Base, Borrows;
    if BorrowFree(bs, as_) {
      SubtractionGoesWell(bs, as_, ex);
    } else {
      var i := FirstBorrow(bs, as_);
      var k := i + 2;
      PrefixBorrows(bs, as_, k);
      SubtractionGoesWrong(bs[..k], as_[..k], ex, i);
      ChainSplit(SUB, SBX, bs, as_, ex, k);
      DifferenceSplit(bs, as_, k);
      ChainLength(SUB, SBX, bs[..k], as_[..k], ex);
      ChainLength(SUB, SBX, bs, as_, ex);
    }
  }

  lemma FirstBorrow(bs: seq<Word>, as_: seq<Word>) returns (i: nat)
    requires |bs| == |as_| && !BorrowFree(bs, as_)
    ensures 1 <= i < |bs| - 1 && Borrows(bs, as_, i)
    ensures forall k | 1 <= k < i :: !Borrows(bs, as_, k)
  {
    hide Borrows;
    i := 1;
    while !Borrows(bs, as_, i)
      invariant 1 <= i < |bs| - 1
      invariant forall k | 1 <= k < i :: !Borrows(bs, as_, k)
      decreases |bs| - i
    {
      assert exists k | i < k < |bs| - 1 :: Borrows(bs, as_, k);
      i := i + 1;
    }
  }

  /** 2^32 - 1 by words: the borrow out of the lowest word reaches the middle one and is then lost. */
  lemma BorrowLost(ex: Word)
    ensures Chain(SUB, SBX, [0, 0, 1], [1, 0, 0], ex).0 == [0xffff, 0xffff, 1]
    ensures Difference([0, 0, 1], [1, 0, 0]) == [0xffff, 0xffff, 0]
  {
    var bs: seq<Word>, as_: seq<Word> := [0, 0, 1], [1, 0, 0];
    assert bs[..2] == [0, 0] && as_[..2] == [1, 0] && bs[..2][..1] == [0] && as_[..2][..1] == [1];
    BorrowsBelow();
    hide Chain, Product, DivResult, DviResult, RightShiftResult, LowResult;
    ChainOf(bs[..2][..1], as_[..2][..1], ex);
    ChainOf(bs[..2], as_[..2], ex);
    ChainOf(bs, as_, ex);
  }

  lemma ChainOf(bs: seq<Word>, as_: seq<Word>, ex: Word)
    requires 0 < |bs| == |as_|
    ensures var n := |bs| - 1;
      var (vs, e) := if n == 0 then ([], ex) else Chain(SUB, SBX, bs[..n], as_[..n], ex);
      var (v, e') := Basic(if n == 0 then SUB else SBX, bs[n], as_[n], e);
      Chain(SUB, SBX, bs, as_, ex) == (vs + [v], e')
  {
  }

  lemma BorrowsBelow()
    ensures !Borrows([0, 0, 1], [1, 0, 0], 0)
  {
  }
}
