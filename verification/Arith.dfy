/** Division with remainder by a variable divisor, and powers of two. */
module Arith {
  lemma MulBetween(k: int, d: int)
    requires d > 0 && -d < k * d < d
    ensures k == 0
  {
    assert k >= 1 ==> k * d >= d;
    assert k <= -1 ==> k * d <= -d;
  }

  lemma MulLe(m: int, n: int, a: int)
    requires m <= n && 0 <= a
    ensures m * a <= n * a
  {
    assert (n - m) * a >= 0;
  }

  /** Quotient and remainder are the only ones that fit. */
  lemma DivModIs(x: int, d: int, q: int, r: int)
    requires d > 0 && x == q * d + r && 0 <= r < d
    ensures x / d == q && x % d == r
  {
    var k := x / d - q;
    assert x == (x / d) * d + x % d;
    assert k * d == r - x % d;
    MulBetween(k, d);
  }

  lemma MulMod(a: int, d: int)
    requires d > 0
    ensures (a * d) % d == 0 && (a * d) / d == a
  {
    DivModIs(a * d, d, a, 0);
  }

  function Pow2(e: nat): (r: int)
    ensures r > 0
  {
    if e == 0 then 1 else 2 * Pow2(e - 1)
  }

  lemma {:induction false} Pow2Splits(e: nat, f: nat)
    requires e <= f
    ensures Pow2(f) == Pow2(f - e) * Pow2(e)
  {
    if e < f {
      Pow2Splits(e, f - 1);
    }
  }

  /** The size of the range of a 64-bit machine word. */
  const WORD: int := 0x1_0000_0000_0000_0000

  lemma WordIsPow2()
    ensures Pow2(64) == WORD
  {
    assert Pow2(4) == 16;
    Pow2Splits(4, 8);
    Pow2Splits(8, 16);
    Pow2Splits(16, 32);
    Pow2Splits(32, 64);
  }

  /** A power of two below the word size, as page and alignment sizes must be. */
  ghost predicate IsPow2(k: int) {
    exists e: nat :: e < 64 && k == Pow2(e)
  }

  lemma WordMultiple(unit: int) returns (m: int)
    requires IsPow2(unit)
    ensures 0 < unit < WORD && m >= 2 && WORD == m * unit
  {
    var e: nat :| e < 64 && unit == Pow2(e);
    WordIsPow2();
    Pow2Splits(e, 64);
    m := Pow2(64 - e);
    assert m == 2 * Pow2(63 - e);
    MulLe(2, m, unit);
  }

  /** `n` rounded up to a multiple of the power of two `unit` in 64-bit arithmetic; the largest
      multiple when that overflows. */
  function RoundUp(n: int, unit: int): int
    requires unit > 0
  {
    var sum := (n + unit - 1) % WORD;
    var rounded := sum - sum % unit;
    if rounded < n then WORD - 1 - (WORD - 1) % unit else rounded
  }

  /** Rounding gives the least multiple that is not less, or, when there is none, the largest. */
  lemma RoundUpIsLeast(n: int, unit: int)
    requires IsPow2(unit) && 0 < n < WORD
    ensures 0 < unit < WORD && RoundUp(n, unit) % unit == 0 && 0 < RoundUp(n, unit) < WORD
    ensures n <= WORD - unit ==> n <= RoundUp(n, unit) < n + unit
    ensures n > WORD - unit ==> RoundUp(n, unit) == WORD - unit
  {
    var m := WordMultiple(unit);
    DivModIs(WORD - 1, unit, m - 1, unit - 1);
    MulMod(m - 1, unit);
    var sum := (n + unit - 1) % WORD;
    MulMod(sum / unit, unit);
    assert sum == (sum / unit) * unit + sum % unit;
    if n > WORD - unit {
      assert sum == n + unit - 1 - WORD;
    } else {
      assert sum == n + unit - 1;
    }
  }

  lemma HasMember(s: set<int>)
    requires s != {}
    ensures exists x :: x in s
  {
    assert (forall x :: x !in s) ==> s == {};
  }
}
