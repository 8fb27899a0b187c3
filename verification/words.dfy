/** Fixed-width machine words: the 16- and 32-bit integers the emulator stores and the
    conversions C++ performs between them. */
module Words {

  type Byte = x: int | 0 <= x < 0x100
  type Word = x: int | 0 <= x < 0x1_0000
  type Word32 = x: int | 0 <= x < 0x1_0000_0000

  /** Conversion of an integer to `uint16_t`. */
  function Wrap(x: int): Word {
    x % 0x1_0000
  }

  /** An address computed from a base and an offset; memory masks it to 16 bits. */
  function Offset(base: int, delta: int): Word {
    Wrap(base + delta)
  }

  lemma WrapTwice(x: int, y: int)
    ensures Wrap(Wrap(x) + y) == Wrap(x + y)
  {
  }

  /** Conversion of an integer to `uint32_t`. */
  function Wrap32(x: int): Word32 {
    x % 0x1_0000_0000
  }

  /** The `int16_t` member of the ALU unions. */
  function Signed(w: Word): int {
    if w < 0x8000 then w else w - 0x1_0000
  }

  /** The `int32_t` member of the ALU union. */
  function Signed32(w: Word32): int {
    if w < 0x8000_0000 then w else w - 0x1_0000_0000
  }

  function Low(w: Word32): Word {
    w % 0x1_0000
  }

  function High(w: Word32): Word {
    w / 0x1_0000
  }

  /** Assigning the 16-bit member of the union leaves the upper half alone. */
  function SetLow(w: Word32, u: Word): (r: Word32)
    ensures Low(r) == u && High(r) == High(w)
  {
    High(w) * 0x1_0000 + u
  }

  function Abs(x: int): nat {
    if x < 0 then -x else x
  }

  /** Integer division as C++ defines it: the quotient is truncated toward zero. */
  function TruncDiv(n: int, d: int): int
    requires d != 0
  {
    if (n < 0) == (d < 0) then Abs(n) / Abs(d) else -(Abs(n) / Abs(d))
  }

  /** The C++ remainder: it takes the sign of the dividend. */
  function TruncRem(n: int, d: int): int
    requires d != 0
  {
    if n < 0 then -(Abs(n) % Abs(d)) else Abs(n) % Abs(d)
  }

  function Pow2(n: nat): (p: nat)
    ensures p > 0
  {
    if n == 0 then 1 else 2 * Pow2(n - 1)
  }

  /** Bit k of a word. */
  predicate Bit(x: nat, k: nat) {
    x / Pow2(k) % 2 == 1
  }

  /** The n low bits of two words, combined bit by bit. */
  function Bitwise(f: (bool, bool) -> bool, x: nat, y: nat, n: nat): (z: nat)
    ensures z < Pow2(n)
  {
    if n == 0 then 0 else 2 * Bitwise(f, x / 2, y / 2, n - 1) + if f(x % 2 == 1, y % 2 == 1) then 1 else 0
  }

  predicate Both(p: bool, q: bool) {
    p && q
  }

  predicate Either(p: bool, q: bool) {
    p || q
  }

  predicate Differ(p: bool, q: bool) {
    p != q
  }

  function BitAnd(x: Word, y: Word): Word {
    Pow2Values();
    Bitwise(Both, x, y, 16)
  }

  function BitOr(x: Word, y: Word): Word {
    Pow2Values();
    Bitwise(Either, x, y, 16)
  }

  function BitXor(x: Word, y: Word): Word {
    Pow2Values();
    Bitwise(Differ, x, y, 16)
  }

  /** Bit k + 1 of a number is bit k of its half. */
  lemma BitOfHalf(x: nat, k: nat)
    ensures Bit(x, k + 1) == Bit(x / 2, k)
  {
    hide Pow2;
    assert Pow2(k + 1) == 2 * Pow2(k) by {
      Doubled(k);
    }
    DivTwice(x, 2, Pow2(k));
  }

  lemma Doubled(k: nat)
    ensures Pow2(k + 1) == 2 * Pow2(k)
  {
  }

  lemma DivTwice(x: nat, a: nat, b: nat)
    requires a > 0 && b > 0
    ensures x / (a * b) == x / a / b
  {
    var q := x / a / b;
    Below(x, a);
    Below(x / a, b);
    ScaleBounds(q * b, x / a, (q + 1) * b, a);
    Regroup(q, b, a);
    Regroup(q + 1, b, a);
    Regroup3(q, a, b);
    Regroup3(q + 1, a, b);
    assert q * b <= x / a && x / a + 1 <= (q + 1) * b;
    Grows(x / a + 1, (q + 1) * b, a);
    DivBetween(x, a * b, q);
  }

  lemma Below(x: nat, d: nat)
    requires d > 0
    ensures x / d * d <= x < (x / d + 1) * d
  {
  }

  lemma Grows(x: nat, y: nat, k: nat)
    requires x <= y
    ensures x * k <= y * k
  {
  }

  lemma Regroup3(x: int, y: int, z: int)
    ensures x * (y * z) == x * y * z
  {
  }

  /** Combining works on every bit by itself. */
  lemma {:induction false} BitwiseBit(f: (bool, bool) -> bool, x: nat, y: nat, n: nat, k: nat)
    requires k < n
    ensures Bit(Bitwise(f, x, y, n), k) == f(Bit(x, k), Bit(y, k))
    decreases n
  {
    var z := Bitwise(f, x, y, n);
    if k == 0 {
      LowestBit(x);
      LowestBit(y);
      LowestBit(z);
    } else {
      BitwiseBit(f, x / 2, y / 2, n - 1, k - 1);
      BitOfHalf(x, k - 1);
      BitOfHalf(y, k - 1);
      BitOfHalf(z, k - 1);
    }
  }

  lemma LowestBit(x: nat)
    ensures Bit(x, 0) == (x % 2 == 1)
  {
  }

  /** A number is zero exactly when none of its bits is set. */
  lemma {:induction false} SomeBit(x: nat, n: nat)
    requires x < Pow2(n)
    ensures x != 0 <==> exists k | 0 <= k < n :: Bit(x, k)
    decreases n
  {
    if n > 0 {
      SomeBit(x / 2, n - 1);
      LowestBit(x);
      if x / 2 != 0 {
        var k :| 0 <= k < n - 1 && Bit(x / 2, k);
        BitOfHalf(x, k);
      } else if x == 0 {
        forall k | 0 <= k < n
          ensures !Bit(x, k)
        {
          NoBit(k);
        }
      }
    }
  }

  lemma NoBit(k: nat)
    ensures !Bit(0, k)
  {
    DivBetween(0, Pow2(k), 0);
  }

  lemma CancelFactor(x: int, y: int, d: int)
    requires d > 0 && x * d < y * d
    ensures x < y
  {
  }

  lemma DivBetween(n: int, d: int, q: int)
    requires d > 0 && q * d <= n < (q + 1) * d
    ensures n / d == q
  {
    CancelFactor(q, n / d + 1, d);
    CancelFactor(n / d, q + 1, d);
  }

  lemma Regroup(x: int, y: int, z: int)
    ensures x * y * z == x * z * y
  {
  }

  lemma ScaleBounds(lo: int, x: int, hi: int, k: int)
    requires k > 0 && lo <= x < hi
    ensures lo * k <= x * k < hi * k
  {
  }

  /** Scaling a dividend and then dropping the scale gives the plain quotient. */
  lemma ScaledQuotient(x: int, k: nat, d: nat)
    requires k > 0 && d > 0
    ensures x * k / d / k == x / d
  {
    var q, t := x / d, x * k / d;
    ScaleBounds(q * d, x, (q + 1) * d, k);
    Regroup(q, d, k);
    Regroup(q + 1, d, k);
    CancelFactor(q * k, t + 1, d);
    CancelFactor(t, (q + 1) * k, d);
    DivBetween(t, k, q);
  }

  lemma QuotientShrinks(x: nat, d: nat)
    requires d > 0
    ensures x / d <= x
  {
    ProductGrows(x / d, d);
  }

  lemma ProductGrows(x: nat, d: nat)
    requires d > 0
    ensures x <= x * d
  {
  }

  lemma TruncIdentity(n: int, d: int)
    requires d != 0
    ensures n == TruncDiv(n, d) * d + TruncRem(n, d)
  {
    var p, q := Abs(n), Abs(d);
    assert p == p / q * q + p % q;
  }

  lemma RemainderBound(n: int, d: int)
    requires d != 0
    ensures Abs(TruncRem(n, d)) < Abs(d)
  {
  }

  lemma SignedOfWrapped(x: int)
    requires -0x8000 <= x < 0x8000
    ensures Signed(Wrap(x)) == x
  {
  }

  lemma Pow2Sum(m: nat, n: nat)
    ensures Pow2(m + n) == Pow2(m) * Pow2(n)
  {
    if m > 0 {
      Pow2Sum(m - 1, n);
      assert Pow2(m + n) == 2 * Pow2(m - 1 + n);
    }
  }

  lemma Pow2Monotone(m: nat, n: nat)
    requires m <= n
    ensures Pow2(m) <= Pow2(n)
  {
    if m < n {
      Pow2Monotone(m, n - 1);
    }
  }

  lemma Pow2Values()
    ensures Pow2(8) == 0x100 && Pow2(16) == 0x1_0000 && Pow2(31) == 0x8000_0000 && Pow2(32) == 0x1_0000_0000
  {
    assert Pow2(8) == 0x100;
    Pow2Sum(8, 8);
    assert Pow2(15) * 2 == Pow2(16);
    Pow2Sum(15, 16);
    Pow2Sum(16, 16);
  }
}
