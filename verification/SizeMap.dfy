/** The table of size classes and the index from sizes to classes. */
module SizeMaps {
  import opened Arith

  const ALIGNMENT := 8
  const MIN_ALIGN := 16
  const MAX_SIZE := 0x4_0000
  const MAX_SMALL_SIZE := 1024
  const CLASS_ARRAY_SIZE := (MAX_SIZE + 127 + 120 * 128) / 128 + 1

  // ----- Alignment -----

  lemma Pow2Adds(a: nat, b: nat)
    ensures Pow2(a) * Pow2(b) == Pow2(a + b)
  {
    Pow2Splits(b, a + b);
  }

  lemma {:induction false} Pow2Grows(a: nat, b: nat)
    requires a <= b
    ensures Pow2(a) <= Pow2(b) && (a < b ==> 2 * Pow2(a) <= Pow2(b))
  {
    if a < b {
      Pow2Grows(a, b - 1);
    }
  }

  /** The exponent of the highest bit. */
  ghost predicate IsLog(n: int, log: nat) {
    Pow2(log) <= n < Pow2(log + 1)
  }

  lemma LogAtLeast(n: int, log: nat, e: nat)
    requires IsLog(n, log) && Pow2(e) <= n
    ensures log >= e
  {
    if log < e {
      Pow2Grows(log + 1, e);
    }
  }

  lemma LogBelow(n: int, log: nat, e: nat)
    requires IsLog(n, log) && n < Pow2(e)
    ensures log < e
  {
    if log >= e {
      Pow2Grows(e, log);
    }
  }

  lemma LogIsUnique(n: int, a: nat, b: nat)
    requires IsLog(n, a) && IsLog(n, b)
    ensures a == b
  {
    LogAtLeast(n, a, b);
    LogAtLeast(n, b, a);
  }

  lemma Regroup(q: int, c: int, r: int, b: int)
    ensures (q * c + r) * b == q * (b * c) + r * b
  {
    assert (q * c) * b == q * (b * c);
  }

  lemma RestFits(r: int, c: int, b: int)
    requires 0 <= r < c && b > 0
    ensures 0 <= r * b <= b * c - b
  {
    MulLe(0, r, b);
    MulLe(r, c - 1, b);
    assert (c - 1) * b == b * c - b;
  }

  lemma DivDiv(a: int, b: int, c: int)
    requires b > 0 && c > 0
    ensures b * c > 0 && a / b / c == a / (b * c)
  {
    var q, r := a / b, a % b;
    var q', r' := q / c, q % c;
    assert a == q * b + r && q == q' * c + r';
    Regroup(q', c, r', b);
    RestFits(r', c, b);
    DivModIs(a, b * c, q', r' * b + r);
  }

  /** Floor of the base-two logarithm of a positive 32-bit number, by halving the range of the exponent. */
  method LgFloor(all: int) returns (log: nat)
    requires 0 < all < 0x1_0000_0000
    ensures IsLog(all, log)
  {
    hide Pow2;
    var n := all;
    log := 0;
    var i := 4;
    ghost var room: nat := 32;
    LowPowers();
    while i >= 0
      invariant -1 <= i <= 4 && room == (if i == 4 then 32 else if i == 3 then 16 else if i == 2 then 8
                                         else if i == 1 then 4 else if i == 0 then 2 else 1)
      invariant 0 < n < Pow2(room) && n == all / Pow2(log)
    {
      var shift: nat := if i == 4 then 16 else if i == 3 then 8 else if i == 2 then 4 else if i == 1 then 2 else 1;
      var x := n / Pow2(shift);
      Pow2Adds(shift, shift);
      HalfRange(n, Pow2(shift));
      DivDiv(all, Pow2(log), Pow2(shift));
      Pow2Adds(log, shift);
      if x != 0 {
        n := x;
        log := log + shift;
      }
      room := shift;
      i := i - 1;
    }
    assert all == Pow2(log) + all % Pow2(log);
    Pow2Adds(log, 1);
  }

  lemma LowPowers()
    ensures Pow2(0) == 1 && Pow2(1) == 2 && Pow2(32) == 0x1_0000_0000
  {
    assert Pow2(4) == 16;
    Pow2Adds(4, 4);
    Pow2Adds(8, 8);
    Pow2Adds(16, 16);
  }

  lemma HalfRange(n: int, unit: int)
    requires 0 <= n < unit * unit && unit > 0
    ensures 0 <= n / unit < unit && (n / unit == 0 ==> n < unit)
  {
    var x := n / unit;
    assert n == x * unit + n % unit;
    assert x >= unit ==> x * unit >= unit * unit;
    assert x < 0 ==> x * unit <= -unit;
  }

  /** Pages hold a power of two of bytes: at least 128, so that the coarse part of the index fits. */
  ghost predicate PageSize(page: int, shift: nat) {
    7 <= shift <= 20 && page == Pow2(shift)
  }

  function Log(n: int): nat {
    if n < 2 then 0 else 1 + Log(n / 2)
  }

  lemma {:induction false} LogIs(n: int)
    requires n > 0
    ensures IsLog(n, Log(n))
  {
    if n >= 2 {
      LogIs(n / 2);
    }
  }

  function Least(a: int, b: int): int {
    if a < b then a else b
  }

  /** A power of two: at most an eighth of the size, at most a page, and at least 16 from 16 on. */
  function Align(size: int, page: int): int {
    Least(page, if size > MAX_SIZE then page
                else if size >= 128 then Pow2(Log(size)) / 8
                else if size >= MIN_ALIGN then MIN_ALIGN
                else ALIGNMENT)
  }

  ghost predicate Aligned(size: int, page: int) {
    Align(size, page) > 0 && size % Align(size, page) == 0
  }

  method AlignmentForSize(size: int, page: int) returns (alignment: int)
    requires 0 <= size
    ensures alignment == Align(size, page)
  {
    alignment := ALIGNMENT;
    if size > MAX_SIZE {
      alignment := page;
    } else if size >= 128 {
      var log := LgFloor(size);
      LogIs(size);
      LogIsUnique(size, log, Log(size));
      alignment := Pow2(log) / 8;
    } else if size >= MIN_ALIGN {
      alignment := MIN_ALIGN;
    }
    if alignment > page {
      alignment := page;
    }
  }

  /** From 128 on the alignment is two to the power of the lesser of two exponents. */
  lemma AlignIsPow2(size: int, page: int, shift: nat) returns (e: nat)
    requires 128 <= size <= MAX_SIZE && PageSize(page, shift)
    ensures Log(size) >= 7 && e == Least(shift, Log(size) - 3) && Align(size, page) == Pow2(e)
  {
    var log := Log(size);
    LogIs(size);
    assert Pow2(7) == 128;
    LogAtLeast(size, log, 7);
    assert Pow2(3) == 8;
    Pow2Adds(log - 3, 3);
    MulMod(Pow2(log - 3), 8);
    e := Least(shift, log - 3);
    if shift < log - 3 {
      Pow2Grows(shift, log - 3);
    } else {
      Pow2Grows(log - 3, shift);
    }
  }

  lemma Divides(e: nat, f: nat)
    requires e <= f
    ensures Pow2(f) % Pow2(e) == 0
  {
    Pow2Splits(e, f);
    MulMod(Pow2(f - e), Pow2(e));
  }

  /** Adding one alignment never jumps over the next power of two. */
  lemma NextStaysBelow(size: int, a: int, top: int)
    requires a > 0 && size % a == 0 && top % a == 0 && size < top
    ensures size + a <= top && (size + a) % a == 0
  {
    var m, n := size / a, top / a;
    assert size == m * a && top == n * a;
    if m >= n {
      MulLe(n, m, a);
    } else {
      MulLe(m + 1, n, a);
    }
    assert size + a == (m + 1) * a;
    MulMod(m + 1, a);
  }

  lemma LogOf(n: int, log: nat)
    requires IsLog(n, log)
    ensures Log(n) == log
  {
    Pow2Grows(0, log);
    LogIs(n);
    LogIsUnique(n, log, Log(n));
  }

  lemma MaxIsPow2()
    ensures Pow2(18) == MAX_SIZE && Pow2(7) == 128
  {
    assert Pow2(9) == 512;
    Pow2Adds(9, 9);
  }

  lemma NextSizeLarge(size: int, page: int, shift: nat)
    requires 128 <= size < MAX_SIZE && PageSize(page, shift) && Aligned(size, page)
    ensures var next := size + Align(size, page); size < next <= MAX_SIZE && Aligned(next, page)
  {
    hide Pow2, Log, Align;
    var log := Log(size);
    var e := AlignIsPow2(size, page, shift);
    var a, next := Pow2(e), size + Pow2(e);
    LogIs(size);
    MaxIsPow2();
    LogBelow(size, log, 18);
    Pow2Grows(log + 1, 18);
    Divides(e, log + 1);
    NextStaysBelow(size, a, Pow2(log + 1));
    var e' := AlignIsPow2(next, page, shift);
    if next < Pow2(log + 1) {
      LogOf(next, log);
    } else {
      Pow2Grows(log + 1, log + 2);
      LogOf(next, log + 1);
      Divides(e', log + 1);
    }
  }

  lemma SmallAlign(size: int, page: int, shift: nat)
    requires 8 <= size <= 128 && PageSize(page, shift)
    ensures Align(size, page) == if size < 16 then 8 else 16
  {
    assert Pow2(7) == 128;
    Pow2Grows(7, shift);
    if size == 128 {
      LogOf(128, 7);
    }
  }

  /** Sizes advance by their alignment, stay multiples of it, and meet the largest size exactly. */
  lemma NextSize(size: int, page: int, shift: nat)
    requires 8 <= size < MAX_SIZE && PageSize(page, shift) && Aligned(size, page)
    ensures var next := size + Align(size, page); size < next <= MAX_SIZE && Aligned(next, page)
  {
    if size >= 128 {
      NextSizeLarge(size, page, shift);
    } else {
      SmallAlign(size, page, shift);
      SmallAlign(size + Align(size, page), page, shift);
    }
  }

  lemma NoMultipleBetween(p: int, x: int, a: int)
    requires a > 0 && p % a == 0 && x % a == 0 && p < x
    ensures p + a <= x
  {
    NextStaysBelow(p, a, x);
  }

  /** There is no size between one and the next. */
  lemma NextIsLeast(p: int, x: int, page: int, shift: nat)
    requires 8 <= p < x <= MAX_SIZE && PageSize(page, shift) && Aligned(p, page) && Aligned(x, page)
    ensures p + Align(p, page) <= x
  {
    hide Pow2, Log, Align;
    if p < 128 {
      SmallAlign(p, page, shift);
      if x < 128 {
        SmallAlign(x, page, shift);
      }
    } else {
      var e := AlignIsPow2(p, page, shift);
      var log := Log(p);
      LogIs(p);
      MaxIsPow2();
      LogBelow(p, log, 18);
      Pow2Grows(log + 1, 18);
      Divides(e, log + 1);
      NextStaysBelow(p, Pow2(e), Pow2(log + 1));
      if x < Pow2(log + 1) {
        LogOf(x, log);
        var f := AlignIsPow2(x, page, shift);
        NoMultipleBetween(p, x, Pow2(e));
      }
    }
  }

  // ----- How many sizes there are -----

  /** How many sizes lie below this one when pages hold 8192 bytes; with longer pages there are fewer. */
  ghost function Rank(size: int): int {
    if size < 128 then size / 16
    else if size >= MAX_SIZE then 104
    else 8 + 8 * (Log(size) - 7) + Parts(size - Pow2(Log(size)), Log(size))
  }

  /** How many steps an offset within a range between two powers of two is made of. */
  ghost function Parts(offset: int, log: nat): int {
    offset / Pow2(Step(log))
  }

  function Step(log: nat): nat {
    if log < 3 then 0 else if log < 16 then log - 3 else 13
  }

  lemma PartsStep(offset: int, log: nat, a: int)
    requires 0 <= offset && Pow2(Step(log)) <= a
    ensures Parts(offset + a, log) >= Parts(offset, log) + 1
  {
    var unit := Pow2(Step(log));
    var q, r := offset / unit, offset % unit;
    DivModIs(offset + unit, unit, q + 1, r);
    DivLe(offset + unit, offset + a, unit);
  }

  lemma DivLe(x: int, y: int, unit: int)
    requires x <= y && unit > 0
    ensures x / unit <= y / unit
  {
    if x / unit > y / unit {
      MulLe(y / unit + 1, x / unit, unit);
    }
  }

  /** Between two powers of two there are eight steps, and sixteen in the last range. */
  lemma PartsOfRange(log: nat)
    requires 7 <= log <= 17
    ensures Parts(Pow2(log), log) == if log == 17 then 16 else 8
  {
    var e := Step(log);
    Pow2Splits(e, log);
    assert Pow2(3) == 8 && Pow2(4) == 16;
    MulMod(Pow2(log - e), Pow2(e));
  }

  lemma RankStepLarge(size: int, page: int, shift: nat)
    requires 128 <= size < MAX_SIZE && PageSize(page, shift) && shift >= 13 && Aligned(size, page)
    ensures Rank(size + Align(size, page)) >= Rank(size) + 1
  {
    hide Pow2, Log, Align, Parts;
    var log := Log(size);
    var e := AlignIsPow2(size, page, shift);
    var a, next := Pow2(e), size + Pow2(e);
    LogIs(size);
    MaxIsPow2();
    LogBelow(size, log, 18);
    Pow2Grows(Step(log), e);
    Pow2Grows(log + 1, 18);
    Divides(e, log + 1);
    NextStaysBelow(size, a, Pow2(log + 1));
    PartsStep(size - Pow2(log), log, a);
    PartsOfRange(log);
    Twice(log);
    if next < Pow2(log + 1) {
      LogOf(next, log);
    } else if log < 17 {
      Pow2Grows(log + 1, log + 2);
      LogOf(next, log + 1);
      Pow2Grows(log + 2, 18 + 1);
      NoParts(log + 1);
    }
  }

  lemma Twice(log: nat)
    ensures Pow2(log + 1) == 2 * Pow2(log)
  {
  }

  lemma NoParts(log: nat)
    ensures Parts(0, log) == 0
  {
  }

  /** Each step to the next size passes at least one size. */
  lemma RankStep(size: int, page: int, shift: nat)
    requires 8 <= size < MAX_SIZE && PageSize(page, shift) && shift >= 13 && Aligned(size, page)
    ensures Rank(size + Align(size, page)) >= Rank(size) + 1
  {
    if size >= 128 {
      RankStepLarge(size, page, shift);
    } else {
      SmallAlign(size, page, shift);
      LogOf(128, 7);
      NoParts(7);
    }
  }

  /** Sizes above 1024 are multiples of 128, and all sizes are multiples of 8. */
  lemma SizeIsCoarse(size: int, page: int, shift: nat)
    requires 8 <= size <= MAX_SIZE && PageSize(page, shift) && Aligned(size, page)
    ensures size % 8 == 0 && (size > 1024 ==> size % 128 == 0)
  {
    hide Pow2, Log, Align;
    if size < 128 {
      SmallAlign(size, page, shift);
    } else {
      var e := AlignIsPow2(size, page, shift);
      MaxIsPow2();
      LowAligns(size, e, shift);
      AlignedMeans(size, page, Pow2(e));
      MultipleOf(size, Pow2(e), 8);
      if size > 1024 {
        MultipleOf(size, Pow2(e), 128);
      }
    }
  }

  lemma AlignedMeans(size: int, page: int, a: int)
    requires Aligned(size, page) && Align(size, page) == a
    ensures a > 0 && size % a == 0
  {
  }

  lemma LowAligns(size: int, e: nat, shift: nat)
    requires size >= 128 && shift >= 7 && Log(size) >= 7 && e == Least(shift, Log(size) - 3)
    ensures Pow2(e) % 8 == 0 && (size > 1024 ==> Pow2(e) % 128 == 0)
  {
    assert Pow2(3) == 8 && Pow2(7) == 128 && Pow2(10) == 1024;
    Divides(3, e);
    if size > 1024 {
      LogIs(size);
      LogAtLeast(size, Log(size), 10);
      Divides(7, e);
    }
  }

  lemma MultipleOf(x: int, a: int, b: int)
    requires a > 0 && b > 0 && x % a == 0 && a % b == 0
    ensures x % b == 0
  {
    var m, n := x / a, a / b;
    assert x == m * a && a == n * b;
    assert m * (n * b) == (m * n) * b;
    MulMod(m * n, b);
  }
}
