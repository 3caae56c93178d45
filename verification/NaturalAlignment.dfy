/** The last check of SizeMap::Init: an allocation whose size is a multiple of a power of two gets an
    address that is one (common.cc). */
module NaturalAlignment {
  import opened Arith
  import opened SizeMaps
  import opened SizeClasses

  // ----- What merging two neighbouring sizes takes -----

  lemma CancelLe(a: int, b: int, u: int)
    requires u > 0 && a * u <= b * u
    ensures a <= b
  {
    if a > b {
      MulLe(b + 1, a, u);
    }
  }

  lemma CancelLess(a: int, b: int, u: int)
    requires u > 0 && a * u < b * u
    ensures a < b
  {
    if a >= b {
      MulLe(b, a, u);
    }
  }

  lemma Regrouped(n: int, k: int, u: int)
    ensures n * (k * u) == (n * k) * u
  {
  }

  lemma Distributed(a: int, b: int, u: int)
    ensures (a + b) * u == a * u + b * u
  {
  }

  /** `n` pieces of `k` units and `r` units over. */
  lemma UnitsDiv(u: int, k: int, n: int, r: int)
    requires u > 0 && 0 <= r < k
    ensures k * u > 0 && (n * k + r) * u / (k * u) == n && (n * k + r) * u % (k * u) == r * u
  {
    MulLe(1, k, u);
    Regrouped(n, k, u);
    Distributed(n * k, r, u);
    Distributed(k - r, r, u);
    MulLe(0, r, u);
    MulLe(1, k - r, u);
    DivModIs((n * k + r) * u, k * u, n, r * u);
  }

  lemma DivBounds(p: int, s: int, n: int)
    requires s > 0 && p / s == n
    ensures n * s <= p < n * s + s && p % s == p - n * s
  {
  }

  lemma PiecesFit(p: int, u: int, k: int, n: int, x: int)
    requires u > 0 && p == x * u && k * u > 0 && p / (k * u) == n
    ensures n * k <= x < n * k + k && p % (k * u) == (x - n * k) * u
  {
    DivBounds(p, k * u, n);
    Regrouped(n, k, u);
    CancelLe(n * k, x, u);
    assert (n * k) * u + k * u == (n * k + k) * u;
    CancelLess(x, n * k + k, u);
    assert (x - n * k) * u == x * u - (n * k) * u;
  }

  lemma EighthIs(r: int, x: int, u: int)
    requires u > 0
    ensures r * u <= x * u / 8 <==> 8 * r <= x
  {
    assert r * u <= x * u / 8 <==> (8 * r) * u <= x * u;
    if 8 * r <= x {
      MulLe(8 * r, x, u);
    } else {
      MulLe(x + 1, 8 * r, u);
    }
  }

  /** In units of `u`: a span of `x` holds `n` pieces of `k` and `n` pieces of `k + 1`, and wastes at
      most an eighth on the smaller ones. */
  lemma MergeBounds(p: int, u: int, k: int, n: int, x: int)
    requires u > 0 && p == x * u && k * u > 0 && (k + 1) * u > 0
    requires p / (k * u) == n && p / ((k + 1) * u) == n && p % (k * u) <= p / 8
    ensures n * (k + 1) <= x && 7 * x <= 8 * (n * k) && x < n * k + k
  {
    PiecesFit(p, u, k, n, x);
    PiecesFit(p, u, k + 1, n, x);
    EighthIs(x - n * k, x, u);
  }

  /** A span is a positive multiple of the minimum, roomy, and no shorter one is. */
  lemma SpanMeans(c: Config, size: int, psize: int) returns (j: int)
    requires size > 0 && SpanOf(c, size, psize)
    ensures j > 0 && psize == Times(j, c.minSpan) && c.minSpan > 0
    ensures psize % size <= psize / 8 && psize / size >= Blocks(size, c.transfer)
    ensures forall i :: 0 < i < j ==> !RoomyAt(i, c.minSpan, size, Blocks(size, c.transfer))
  {
    var blocks := Blocks(size, c.transfer);
    j :| 0 < j && psize == Times(j, c.minSpan) && RoomyAt(j, c.minSpan, size, blocks)
         && forall i :: 0 < i < j ==> !RoomyAt(i, c.minSpan, size, blocks);
  }

  lemma TimesMod(j: int, m: int, d: int)
    requires d > 0 && m % d == 0
    ensures Times(j, m) % d == 0
  {
    var q := m / d;
    assert m == q * d;
    Regrouped(j, q, d);
    MulMod(j * q, d);
  }

  lemma TimesPositive(j: int, m: int)
    requires j > 0 && m > 0
    ensures Times(j, m) > 0
  {
    MulLe(1, j, m);
  }

  lemma WholeUnits(p: int, u: int)
    requires u > 0 && p > 0 && p % u == 0
    ensures p == p / u * u && p / u > 0
  {
    CancelLess(0, p / u, u);
  }

  lemma PositiveCount(n: int, k: int, x: int)
    requires k > 0 && x > 0 && 7 * x <= 8 * (n * k)
    ensures n > 0
  {
    if n <= 0 {
      MulLe(n, 0, k);
    }
  }

  /** Neighbouring sizes `k * u` and `(k + 1) * u` that merge, with spans that are multiples of `u`. */
  lemma MergeMeans(c: Config, u: int, k: int, psize: int) returns (n: int, x: int)
    requires ValidConfig(c) && u > 0 && k > 0 && c.minSpan % u == 0 && k * u > 0 && (k + 1) * u > 0
    requires MergesIn(c, k * u, (k + 1) * u, psize)
    ensures x > 0 && n > 0 && psize == x * u && n == psize / (k * u) && n >= Blocks(k * u, c.transfer)
    ensures n * (k + 1) <= x && 7 * x <= 8 * (n * k) && x < n * k + k
  {
    hide IsSpan, Blocks, ValidConfig, Times;
    var j := SpanMeans(c, k * u, psize);
    TimesMod(j, c.minSpan, u);
    TimesPositive(j, c.minSpan);
    n, x := psize / (k * u), psize / u;
    WholeUnits(psize, u);
    MergeBounds(psize, u, k, n, x);
    PositiveCount(n, k, x);
  }

  /** Below 112 no multiple of 16 merges with the next one. */
  lemma SmallNeverMerges(c: Config, k: int)
    requires ValidConfig(c) && 1 <= k <= 6 && c.minSpan % 16 == 0
    ensures !Merges(c, 16 * k, 16 * k + 16)
  {
    hide MergesIn, ValidConfig;
    if Merges(c, 16 * k, 16 * k + 16) {
      var psize :| MergesIn(c, 16 * k, 16 * k + 16, psize);
      assert k * 16 == 16 * k && (k + 1) * 16 == 16 * k + 16;
      var n, x := MergeMeans(c, 16, k, psize);
      SmallBounds(k, n, x);
    }
  }

  lemma SmallBounds(k: int, n: int, x: int)
    requires 1 <= k <= 6 && n > 0 && n * (k + 1) <= x
    ensures 7 * x > 8 * (n * k)
  {
    assert n * (k + 1) == n * k + n;
    MulLe(k, 6, n);
  }

  /** An even number of eighths between two powers of two: only twelve of them can merge with the
      next size, in a span of eighty, and fourteen, in a span of sixteen for each. */
  lemma EvenMerges(c: Config, u: int, k: int, psize: int) returns (n: int)
    requires ValidConfig(c) && u > 0 && k in {8, 10, 12, 14} && c.minSpan % (16 * u) == 0
    requires MergesIn(c, k * u, (k + 1) * u, psize)
    ensures n >= Blocks(k * u, c.transfer) && psize / (k * u) == n
    ensures (k == 12 && psize == 80 * u && n == 6) || (k == 14 && psize == 16 * n * u && 1 <= n <= 6)
  {
    hide MergesIn, ValidConfig;
    MultipleOf(16 * u, 16 * u, u);
    MultipleOf(c.minSpan, 16 * u, u);
    var x;
    n, x := MergeMeans(c, u, k, psize);
    var y := SixteenthsOf(c, u, k, psize);
    assert x == 16 * y by {
      assert x * u == (16 * y) * u;
      CancelLe(x, 16 * y, u);
      CancelLe(16 * y, x, u);
    }
    EvenBounds(k, n, y);
    assert k == 14 ==> x * u == 16 * n * u;
  }

  lemma SixteenthsOf(c: Config, u: int, k: int, psize: int) returns (y: int)
    requires u > 0 && c.minSpan % (16 * u) == 0 && k * u > 0 && MergesIn(c, k * u, (k + 1) * u, psize)
    ensures psize == (16 * y) * u
  {
    var j := SpanMeans(c, k * u, psize);
    TimesMod(j, c.minSpan, 16 * u);
    TimesPositive(j, c.minSpan);
    WholeUnits(psize, 16 * u);
    y := psize / (16 * u);
    Regrouped(y, 16, u);
  }

  lemma EvenBounds(k: int, n: int, y: int)
    requires k in {8, 10, 12, 14} && n > 0
    ensures n * (k + 1) <= 16 * y && 7 * (16 * y) <= 8 * (n * k) && 16 * y < n * k + k ==>
      (k == 12 && n == 6 && y == 5) || (k == 14 && 1 <= n <= 6 && y == n)
  {
    assert n * (k + 1) == n * k + n;
    assert (k == 8 ==> n * k == 8 * n) && (k == 10 ==> n * k == 10 * n);
    assert (k == 12 ==> n * k == 12 * n) && (k == 14 ==> n * k == 14 * n);
  }

  // ----- Fourteen eighths -----

  /** As many objects are moved at a time, as far as that matters here. */
  lemma SameBlocks(u: int, transfer: int)
    requires u in {16, 32, 64, 128, 256, 512, 1024, 2048, 4096, 8192, 16384} && Blocks(14 * u, transfer) <= 6
    ensures Blocks(16 * u, transfer) == Blocks(14 * u, transfer)
  {
  }

  /** Fifteen eighths then merge with sixteen too. */
  lemma FourteenGoesOn(c: Config, u: int, psize: int)
    requires ValidConfig(c) && u in {16, 32, 64, 128, 256, 512, 1024, 2048, 4096, 8192, 16384}
    requires c.minSpan % (16 * u) == 0 && MergesIn(c, 14 * u, 15 * u, psize)
    ensures Merges(c, 15 * u, 16 * u)
  {
    hide ValidConfig, IsSpan, Blocks;
    var n := EvenMerges(c, u, 14, psize);
    SameBlocks(u, c.transfer);
    SixteenSpan(c, u, psize, n);
    WholeSixteens(u, n);
    assert MergesIn(c, 15 * u, 16 * u, psize);
  }

  lemma SixteenSpan(c: Config, u: int, psize: int, n: int)
    requires u > 0 && c.minSpan % (16 * u) == 0 && psize == 16 * n * u && 0 < n <= 6 && SpanOf(c, 14 * u, psize)
    requires n >= Blocks(14 * u, c.transfer) == Blocks(16 * u, c.transfer)
    ensures SpanOf(c, 16 * u, psize)
  {
    hide Blocks, RoomyAt, Times, IsSpan;
    var blocks := Blocks(16 * u, c.transfer);
    var j := SpanMeans(c, 14 * u, psize);
    forall i | 0 < i < j
      ensures !RoomyAt(i, c.minSpan, 16 * u, blocks)
    {
      var y := SixteensIn(i, c.minSpan, u);
      ShorterSpan(c, u, i, j, y, n);
      SixteenRoomy(c.minSpan, u, i, y, blocks);
    }
    SixteenRoomy(c.minSpan, u, j, n, blocks);
    IsShortest(psize, c.minSpan, 16 * u, blocks, j);
  }

  lemma IsShortest(psize: int, minSpan: int, size: int, blocks: int, j: int)
    requires size > 0 && minSpan > 0 && j > 0 && psize == Times(j, minSpan) && RoomyAt(j, minSpan, size, blocks)
    requires forall i :: 0 < i < j ==> !RoomyAt(i, minSpan, size, blocks)
    ensures IsSpan(psize, minSpan, size, blocks)
  {
    hide RoomyAt, Times;
  }

  lemma SixteensIn(i: int, minSpan: int, u: int) returns (y: int)
    requires u > 0 && minSpan % (16 * u) == 0
    ensures Times(i, minSpan) == 16 * y * u
  {
    TimesMod(i, minSpan, 16 * u);
    y := Times(i, minSpan) / (16 * u);
    assert Times(i, minSpan) == y * (16 * u);
    Regrouped(y, 16, u);
  }

  lemma WholeSixteens(u: int, n: int)
    requires u > 0 && 0 <= n <= 6
    ensures 16 * n * u / (16 * u) == n && 16 * n * u / (14 * u) == n && 16 * n * u / (15 * u) == n
    ensures 16 * n * u % (14 * u) == 2 * n * u
  {
    UnitsDiv(u, 16, n, 0);
    UnitsDiv(u, 15, n, n);
    UnitsDiv(u, 14, n, 2 * n);
  }

  lemma SixteenRoomy(minSpan: int, u: int, i: int, y: int, blocks: int)
    requires u > 0 && Times(i, minSpan) == 16 * y * u
    ensures y >= 0 ==> (RoomyAt(i, minSpan, 16 * u, blocks) <==> y >= blocks)
  {
    UnitsDiv(u, 16, y, 0);
    if y >= 0 {
      MulLe(0, 16 * y, u);
    }
  }

  /** A shorter span would have done for fourteen eighths as well. */
  lemma ShorterSpan(c: Config, u: int, i: int, j: int, y: int, n: int)
    requires u > 0 && c.minSpan > 0 && 0 < i < j && 0 < n <= 6
    requires Times(i, c.minSpan) == 16 * y * u && Times(j, c.minSpan) == 16 * n * u
    requires !RoomyAt(i, c.minSpan, 14 * u, Blocks(14 * u, c.transfer))
    ensures 0 <= y < n && y < Blocks(14 * u, c.transfer)
  {
    TimesGrows(i, j, c.minSpan);
    assert (16 * y) * u < (16 * n) * u;
    CancelLess(16 * y, 16 * n, u);
    CancelLess(0, 16 * y, u);
    WholeSixteens(u, y);
  }

  lemma TimesGrows(i: int, j: int, m: int)
    requires 0 < i < j && m > 0
    ensures 0 < Times(i, m) < Times(j, m)
  {
    MulLe(i + 1, j, m);
    MulLe(1, i, m);
  }

  // ----- Twelve eighths -----

  /** The configurations for which the check fails. */
  ghost predicate Skewed(c: Config) {
    var blocks := Blocks(c.page / 4 * 3, c.transfer);
    8 <= c.shift <= 18 && ((c.minSpan == 5 * c.page && blocks <= 6) || (c.minSpan == c.page && blocks == 6))
  }

  lemma Sixteenfold(u: int, m: int, q: int, j: int)
    ensures j * (q * (m * (16 * u))) == (16 * (j * (q * m))) * u
  {
    Regrouped(q, m, 16 * u);
    Regrouped(j, q * m, 16 * u);
    Regrouped(j * (q * m), 16, u);
  }

  /** Eighty eighths are five pages of sixteen. */
  lemma FiveSixteens(u: int, m: int, q: int, j: int)
    requires u > 0 && m > 0 && q > 0 && j > 0 && j * (q * (m * (16 * u))) == 80 * u && (m == 1 || m % 2 == 0)
    ensures m == 1 && ((q == 1 && j == 5) || (q == 5 && j == 1))
  {
    var all := j * (q * m);
    Sixteenfold(u, m, q, j);
    CancelLe(16 * all, 80, u);
    CancelLe(80, 16 * all, u);
    Factors(j, q * m);
    Factors(q, m);
  }

  lemma Factors(a: int, b: int)
    requires a > 0 && (a * b == 5 || a * b == 1)
    ensures (a == 1 && b == a * b) || (b == 1 && a == a * b)
  {
    CancelLess(0, b, a);
    MulLe(1, b, a);
    assert a <= 5;
    assert (a == 2 ==> a * b == 2 * b) && (a == 3 ==> a * b == 3 * b);
    assert (a == 4 ==> a * b == 4 * b) && (a == 5 ==> a * b == 5 * b);
  }

  lemma PiecesRoomy(minSpan: int, u: int, i: int, k: int, n: int, r: int, blocks: int)
    requires u > 0 && k > 0 && Times(i, minSpan) == (n * k + r) * u && 0 <= r < k && n >= 0
    ensures k * u > 0 && (RoomyAt(i, minSpan, k * u, blocks) <==> 8 * r <= n * k + r && n >= blocks)
  {
    UnitsDiv(u, k, n, r);
    EighthIs(r, n * k + r, u);
  }

  /** A span of eighty eighths is five pages: one minimum span, or five. */
  lemma FivePages(c: Config, u: int, m: int, j: int)
    requires ValidConfig(c) && u > 0 && m > 0 && (m == 1 || m % 2 == 0) && c.page == m * (16 * u)
    requires j > 0 && Times(j, c.minSpan) == 80 * u
    ensures c.page == 16 * u && ((c.minSpan == 5 * c.page && j == 1) || (c.minSpan == c.page && j == 5))
  {
    hide Pow2;
    PageIsPositive(c);
    WholeUnits(c.minSpan, c.page);
    FiveSixteens(u, m, c.minSpan / c.page, j);
  }

  lemma PageIsPositive(c: Config)
    requires ValidConfig(c)
    ensures c.page > 0 && c.minSpan > 0 && c.minSpan % c.page == 0
  {
    hide Pow2;
    EvenOrOne(c.shift);
  }

  /** Twelve eighths merge with thirteen only if the configuration is skewed. */
  lemma TwelveMerges(c: Config, u: int, m: int, psize: int)
    requires ValidConfig(c) && u > 0 && m > 0 && (m == 1 || m % 2 == 0) && c.page == m * (16 * u)
    requires MergesIn(c, 12 * u, 13 * u, psize)
    ensures c.page == 16 * u && (c.minSpan == 5 * c.page || c.minSpan == c.page) && Blocks(12 * u, c.transfer) <= 6
    ensures c.minSpan == c.page ==> Blocks(12 * u, c.transfer) == 6
  {
    hide IsSpan, Blocks, RoomyAt, ValidConfig, Times;
    PageIsPositive(c);
    MulMod(m, 16 * u);
    MultipleOf(c.minSpan, c.page, 16 * u);
    var n := EvenMerges(c, u, 12, psize);
    var j := SpanMeans(c, 12 * u, psize);
    FivePages(c, u, m, j);
    if c.minSpan == c.page {
      SixBlocks(c.minSpan, u, Blocks(12 * u, c.transfer));
    }
  }

  lemma SixBlocks(minSpan: int, u: int, blocks: int)
    requires u > 0 && minSpan == 16 * u
    ensures !RoomyAt(3, minSpan, 12 * u, blocks) && !RoomyAt(4, minSpan, 12 * u, blocks) ==> blocks > 5
  {
    hide RoomyAt;
    PiecesRoomy(minSpan, u, 3, 12, 4, 0, blocks);
    PiecesRoomy(minSpan, u, 4, 12, 5, 4, blocks);
  }

  /** In a skewed configuration they do, and thirteen does not merge with fourteen. */
  lemma TwelveMergesIfSkewed(c: Config, u: int)
    requires ValidConfig(c) && u > 0 && c.page == 16 * u && Skewed(c)
    ensures Merges(c, 12 * u, 13 * u) && !Merges(c, 13 * u, 14 * u)
  {
    hide IsSpan, Blocks, ValidConfig;
    ThreeQuarters(c.page, u);
    FewerBlocks(12 * u, 13 * u, c.transfer);
    if c.minSpan == 5 * c.page {
      FiveAtOnce(c, u, 12, 6, 8);
      FiveAtOnce(c, u, 13, 6, 2);
    } else {
      FiveInTurn(c, u);
    }
    EightyIn(u);
    assert MergesIn(c, 12 * u, 13 * u, 80 * u);
    if Merges(c, 13 * u, 14 * u) {
      var psize :| MergesIn(c, 13 * u, 14 * u, psize);
      SpanIsUnique(psize, 80 * u, c.minSpan, 13 * u, Blocks(13 * u, c.transfer));
    }
  }

  lemma EightyIn(u: int)
    requires u > 0
    ensures 80 * u / (12 * u) == 6 && 80 * u / (13 * u) == 6 && 80 * u / (14 * u) == 5
  {
    UnitsDiv(u, 12, 6, 8);
    UnitsDiv(u, 13, 6, 2);
    UnitsDiv(u, 14, 5, 10);
  }

  lemma FewerBlocks(s: int, t: int, transfer: int)
    requires 0 < s <= t
    ensures Blocks(t, transfer) <= Blocks(s, transfer)
  {
    var n, m := 0x1_0000 / t, 0x1_0000 / s;
    if n > m {
      DivBounds(0x1_0000, t, n);
      DivBounds(0x1_0000, s, m);
      MulLe(m + 1, n, s);
      MulLe(s, t, n);
    }
  }

  /** A minimum span of five pages is roomy at once. */
  lemma FiveAtOnce(c: Config, u: int, k: int, n: int, r: int)
    requires u > 0 && c.minSpan == 80 * u && n * k + r == 80 && 0 <= r < k && 8 * r <= 80 && n >= 0
    requires n >= Blocks(k * u, c.transfer)
    ensures k * u > 0 && SpanOf(c, k * u, 80 * u)
  {
    hide Blocks, RoomyAt, IsSpan;
    PiecesRoomy(c.minSpan, u, 1, k, n, r, Blocks(k * u, c.transfer));
    IsShortest(80 * u, c.minSpan, k * u, Blocks(k * u, c.transfer), 1);
  }

  /** With a minimum span of one page, five pages are the first that are roomy for both. */
  lemma FiveInTurn(c: Config, u: int)
    requires u > 0 && c.minSpan == 16 * u && Blocks(12 * u, c.transfer) == 6 && Blocks(13 * u, c.transfer) <= 6
    ensures SpanOf(c, 12 * u, 80 * u) && SpanOf(c, 13 * u, 80 * u)
  {
    hide Blocks, RoomyAt, IsSpan;
    var b12, b13 := Blocks(12 * u, c.transfer), Blocks(13 * u, c.transfer);
    PiecesRoomy(c.minSpan, u, 1, 12, 1, 4, b12);
    PiecesRoomy(c.minSpan, u, 2, 12, 2, 8, b12);
    PiecesRoomy(c.minSpan, u, 3, 12, 4, 0, b12);
    PiecesRoomy(c.minSpan, u, 4, 12, 5, 4, b12);
    PiecesRoomy(c.minSpan, u, 5, 12, 6, 8, b12);
    IsShortest(80 * u, c.minSpan, 12 * u, b12, 5);
    PiecesRoomy(c.minSpan, u, 1, 13, 1, 3, b13);
    PiecesRoomy(c.minSpan, u, 2, 13, 2, 6, b13);
    PiecesRoomy(c.minSpan, u, 3, 13, 3, 9, b13);
    PiecesRoomy(c.minSpan, u, 4, 13, 4, 12, b13);
    PiecesRoomy(c.minSpan, u, 5, 13, 6, 2, b13);
    IsShortest(80 * u, c.minSpan, 13 * u, b13, 5);
  }

  // ----- The check -----

  /** Every size below a page that is a multiple of a power of two from 16 on has a class whose size
      is a multiple of it. */
  ghost predicate NaturallyAligned(c: Config, classes: seq<SizeClass>) {
    forall a: nat, size, cl | 4 <= a <= c.shift && Asked(c, size, a) && FirstFit(classes, size, cl) ::
      Divided(classes[cl].size, a)
  }

  ghost predicate Divided(size: int, a: nat) {
    size % Pow2(a) == 0
  }

  ghost predicate Asked(c: Config, size: int, a: nat) {
    0 < size < c.page && size <= MAX_SIZE && Divided(size, a)
  }

  lemma {:induction false} PowersDivide(size: int, a: nat, b: nat)
    requires Divided(size, a) && b <= a
    ensures Divided(size, b)
  {
    hide Pow2;
    Divides(b, a);
    Pow2Grows(0, a);
    Pow2Grows(0, b);
    assert Pow2(0) == 1 by { LowPowers(); }
    MultipleOf(size, Pow2(a), Pow2(b));
  }

  /** Above a power of two all sizes are multiples of an eighth of it, or of a page. */
  lemma MultiplesAbove(c: Config, t: int, a: nat, k: nat)
    requires ValidConfig(c) && OnGrid(c, t) && 7 <= k && Pow2(k) <= t && a + 3 <= k && a <= c.shift
    ensures Divided(t, a)
  {
    hide Pow2, Log, Align;
    MaxIsPow2();
    Pow2Grows(7, k);
    LogIs(t);
    LogAtLeast(t, Log(t), k);
    var e := AlignIsPow2(t, c.page, c.shift);
    assert Divided(t, e);
    PowersDivide(t, e, a);
  }

  lemma SixteensAbove(c: Config, t: int)
    requires ValidConfig(c) && OnGrid(c, t) && t >= 16
    ensures t % 16 == 0
  {
    hide Log, Align;
    if t < 128 {
      SmallAlign(t, c.page, c.shift);
    } else {
      MaxIsPow2();
      MultiplesAbove(c, t, 4, 7);
      assert Pow2(4) == 16;
    }
  }

  /** The sizes between two powers of two. */
  lemma EighthSize(c: Config, log: nat, k: int)
    requires ValidConfig(c) && 7 <= log <= 17 && log < c.shift && 8 <= k <= 15
    ensures var u := Pow2(log - 3);
      u > 0 && Pow2(log) == 8 * u && Pow2(log + 1) == 16 * u && 128 <= k * u < MAX_SIZE && Log(k * u) == log
      && OnGrid(c, k * u) && Align(k * u, c.page) == u && k * u < c.page
  {
    hide Pow2, Log, Align;
    var u := Pow2(log - 3);
    assert Pow2(3) == 8 && Pow2(4) == 16 by { FirstPowers(); }
    Pow2Adds(log - 3, 3);
    Pow2Adds(log - 3, 4);
    MaxIsPow2();
    Pow2Grows(7, log);
    Pow2Grows(log + 1, 18);
    Pow2Grows(log + 1, c.shift);
    MulLe(8, k, u);
    MulLe(k, 15, u);
    LogOf(k * u, log);
    var e := AlignIsPow2(k * u, c.page, c.shift);
    MulMod(k, u);
  }

  lemma FirstPowers()
    ensures Pow2(3) == 8 && Pow2(4) == 16 && Pow2(1) == 2 && Pow2(2) == 4
  {
  }

  /** A size that has a class is its own first fit. */
  lemma FitIsSize(c: Config, classes: seq<SizeClass>, size: int, cl: int)
    requires ClassesOk(c, classes) && FirstFit(classes, size, cl) && HasSize(classes, size)
    ensures classes[cl].size == size
  {
    var i :| 0 < i < |classes| && classes[i].size == size;
    SizesGrow(c, classes, i, cl - 1);
    SizesGrow(c, classes, cl, i);
  }

  lemma SizesGrow(c: Config, classes: seq<SizeClass>, i: int, j: int)
    requires ClassesOk(c, classes) && 0 <= i < |classes| && 0 <= j < |classes|
    ensures i < j ==> classes[i].size < classes[j].size
  {
  }

  lemma FitIsOnGrid(c: Config, classes: seq<SizeClass>, cl: int)
    requires ClassesOk(c, classes) && 0 < cl < |classes|
    ensures OnGrid(c, classes[cl].size) && HasSize(classes, classes[cl].size)
  {
    assert ClassOk(c, classes[cl]);
  }

  lemma SmallIsAligned(c: Config, classes: seq<SizeClass>, size: int, cl: int, a: nat)
    requires ValidConfig(c) && ClassesOk(c, classes) && Settled(c, classes, MAX_SIZE)
    requires 4 <= a <= c.shift && Asked(c, size, a) && size < 128 && FirstFit(classes, size, cl)
    ensures Divided(classes[cl].size, a)
  {
    hide ValidConfig, ClassesOk, Settled, Merges, OnGrid, HasSize, Pow2;
    assert size % 16 == 0 by {
      PowersDivide(size, a, 4);
      FirstPowers();
    }
    var k := size / 16;
    FitIsOnGrid(c, classes, cl);
    if k <= 6 {
      SmallHasClass(c, classes, k);
      FitIsSize(c, classes, size, cl);
    } else {
      SixteensAbove(c, classes[cl].size);
      OnlySixteen(size, a);
      FirstPowers();
    }
  }

  lemma OnlySixteen(size: int, a: nat)
    requires size == 112 && 4 <= a && Divided(size, a)
    ensures a == 4
  {
    hide Pow2;
    if a >= 5 {
      PowersDivide(size, a, 5);
      assert Pow2(5) == 32 by { FifthPower(); }
    }
  }

  lemma FifthPower()
    ensures Pow2(5) == 32
  {
  }

  lemma SmallHasClass(c: Config, classes: seq<SizeClass>, k: int)
    requires ValidConfig(c) && Settled(c, classes, MAX_SIZE) && 1 <= k <= 6
    ensures HasSize(classes, 16 * k)
  {
    hide Merges, HasSize, Pow2;
    SmallAlign(16 * k, c.page, c.shift);
    SixteenDivides(c);
    SmallNeverMerges(c, k);
  }

  lemma SixteenDivides(c: Config)
    requires ValidConfig(c)
    ensures c.minSpan % 16 == 0
  {
    hide Pow2;
    Divides(4, c.shift);
    FirstPowers();
    MultipleOf(c.minSpan, c.page, 16);
  }

  lemma PowerDivides(c: Config, e: nat)
    requires ValidConfig(c) && e <= c.shift
    ensures Pow2(e) > 0 && c.minSpan % Pow2(e) == 0
  {
    hide Pow2;
    Divides(e, c.shift);
    Pow2Grows(0, e);
    LowPowers();
    MultipleOf(c.minSpan, c.page, Pow2(e));
  }

  /** A multiple of more than an eighth is an even number of eighths. */
  lemma EvenEighths(size: int, log: nat, a: nat) returns (k: int)
    requires 7 <= log && IsLog(size, log) && a + 3 > log && Divided(size, a)
    ensures k in {8, 10, 12, 14} && size == k * Pow2(log - 3)
    ensures k == 14 ==> a == log - 2
  {
    hide Pow2;
    var u := Pow2(log - 3);
    FirstPowers();
    Pow2Adds(log - 3, 1);
    Pow2Adds(log - 3, 2);
    Pow2Adds(log - 3, 3);
    Pow2Adds(log - 3, 4);
    PowersDivide(size, a, log - 2);
    var half := size / (2 * u);
    assert size == half * (2 * u);
    Regrouped(half, 2, u);
    k := half * 2;
    CancelLe(8, k, u);
    CancelLess(k, 16, u);
    if k == 14 && a != log - 2 {
      PowersDivide(size, a, log - 1);
      UnitsDiv(u, 4, 3, 2);
    }
  }

  lemma UnitIn(log: nat)
    requires 7 <= log <= 17
    ensures Pow2(log - 3) in {16, 32, 64, 128, 256, 512, 1024, 2048, 4096, 8192, 16384}
  {
    hide Pow2;
    FirstPowers();
    Twice(4);
    Twice(5);
    Twice(6);
    Twice(7);
    Twice(8);
    Twice(9);
    Twice(10);
    Twice(11);
    Twice(12);
    Twice(13);
  }

  /** Sizes from 128 on. */
  lemma LargeIsAligned(c: Config, classes: seq<SizeClass>, size: int, cl: int, a: nat)
    requires ValidConfig(c) && ClassesOk(c, classes) && Settled(c, classes, MAX_SIZE) && !Skewed(c)
    requires 4 <= a <= c.shift && Asked(c, size, a) && 128 <= size && FirstFit(classes, size, cl)
    ensures Divided(classes[cl].size, a)
  {
    hide ClassesOk, Settled, Merges, OnGrid, HasSize, Pow2, Log, Skewed;
    FitIsOnGrid(c, classes, cl);
    var t, log := classes[cl].size, Log(size);
    LogIs(size);
    MaxIsPow2();
    LogAtLeast(size, log, 7);
    LogBelow(size, log, c.shift);
    if t == size {
    } else if a + 3 <= log {
      MultiplesAbove(c, t, a, log);
    } else {
      OnGridBound(c, t);
      LogBelow(size, log, 18);
      var k := EvenEighths(size, log, a);
      EvenIsAligned(c, classes, log, k, cl, a);
    }
  }

  lemma OnGridBound(c: Config, t: int)
    requires OnGrid(c, t)
    ensures t <= MAX_SIZE
  {
  }

  lemma EvenIsAligned(c: Config, classes: seq<SizeClass>, log: nat, k: int, cl: int, a: nat)
    requires ValidConfig(c) && ClassesOk(c, classes) && Settled(c, classes, MAX_SIZE) && !Skewed(c)
    requires 7 <= log <= 17 && log < c.shift && k in {8, 10, 12, 14} && (k == 14 ==> a == log - 2)
    requires FirstFit(classes, k * Pow2(log - 3), cl) && Divided(k * Pow2(log - 3), a)
    ensures Divided(classes[cl].size, a)
  {
    hide ValidConfig, ClassesOk, OnGrid, HasSize, Pow2, Log, Skewed, MergesIn, Align, Divided;
    var u := Pow2(log - 3);
    EighthSize(c, log, k);
    if HasSize(classes, k * u) {
      FitIsSize(c, classes, k * u, cl);
    } else {
      assert Merges(c, k * u, k * u + u);
      assert k * u + u == (k + 1) * u;
      var psize :| MergesIn(c, k * u, (k + 1) * u, psize);
      PowerDivides(c, log + 1);
      var n := EvenMerges(c, u, k, psize);
      if k == 12 {
        NotSkewed(c, log, psize);
      } else {
        UnitIn(log);
        FourteenGoesOn(c, u, psize);
        PastFifteen(c, classes, log, cl);
        FitIsOnGrid(c, classes, cl);
        MultiplesAbove(c, classes[cl].size, a, log + 1);
      }
    }
  }

  /** The class that fourteen eighths fall into is that of the next power of two, or beyond. */
  lemma PastFifteen(c: Config, classes: seq<SizeClass>, log: nat, cl: int)
    requires ValidConfig(c) && ClassesOk(c, classes) && Settled(c, classes, MAX_SIZE) && 7 <= log <= 17 && log < c.shift
    requires var u := Pow2(log - 3);
      FirstFit(classes, 14 * u, cl) && !HasSize(classes, 14 * u) && Merges(c, 15 * u, 16 * u)
    ensures classes[cl].size >= Pow2(log + 1)
  {
    hide ClassesOk, HasSize, Pow2, Log, Merges, Align, Aligned, ValidConfig;
    var u, t := Pow2(log - 3), classes[cl].size;
    EighthSize(c, log, 14);
    EighthSize(c, log, 15);
    FitIsOnGrid(c, classes, cl);
    PageOf(c);
    assert !HasSize(classes, 15 * u);
    NextIsLeast(14 * u, t, c.page, c.shift);
    NextIsLeast(15 * u, t, c.page, c.shift);
  }

  lemma PageOf(c: Config)
    requires ValidConfig(c)
    ensures PageSize(c.page, c.shift)
  {
  }

  lemma NotSkewed(c: Config, log: nat, psize: int)
    requires ValidConfig(c) && 7 <= log <= 17 && log < c.shift
    requires MergesIn(c, 12 * Pow2(log - 3), 13 * Pow2(log - 3), psize)
    ensures Skewed(c)
  {
    hide MergesIn, Blocks, Pow2, OnGrid, Align, Log;
    var u, m := Pow2(log - 3), Pow2(c.shift - log - 1);
    EighthSize(c, log, 12);
    Pow2Adds(c.shift - log - 1, log + 1);
    EvenOrOne(c.shift - log - 1);
    TwelveMerges(c, u, m, psize);
    SamePower(c.shift, log + 1);
    ThreeQuarters(c.page, u);
  }

  lemma ThreeQuarters(page: int, u: int)
    requires page == 16 * u
    ensures page / 4 * 3 == 12 * u
  {
  }

  lemma EvenOrOne(e: nat)
    ensures Pow2(e) > 0 && (Pow2(e) == 1 || Pow2(e) % 2 == 0)
  {
  }

  lemma SamePower(e: nat, f: nat)
    requires Pow2(e) == Pow2(f)
    ensures e == f
  {
    EvenOrOne(e);
    if e < f {
      Pow2Grows(e, f);
    } else if f < e {
      Pow2Grows(f, e);
    }
  }

  lemma SettledAt(c: Config, classes: seq<SizeClass>, s: int)
    requires Settled(c, classes, MAX_SIZE) && OnGrid(c, s) && s < MAX_SIZE
    ensures HasSize(classes, s) <==> !Merges(c, s, s + Align(s, c.page))
  {
  }

  lemma SkewedClasses(c: Config, classes: seq<SizeClass>, u: int)
    requires ValidConfig(c) && Settled(c, classes, MAX_SIZE) && Skewed(c) && u == Pow2(c.shift - 4)
    ensures u > 0 && c.page == 16 * u && 12 * u < MAX_SIZE && OnGrid(c, 12 * u) && Align(12 * u, c.page) == u
    ensures !HasSize(classes, 12 * u) && HasSize(classes, 13 * u)
  {
    hide Pow2, Log, Merges, Align, OnGrid, Skewed, Settled, HasSize;
    SkewedShift(c);
    EighthSize(c, c.shift - 1, 12);
    EighthSize(c, c.shift - 1, 13);
    TwelveMergesIfSkewed(c, u);
    SettledAt(c, classes, 12 * u);
    SettledAt(c, classes, 13 * u);
    assert 12 * u + u == 13 * u && 13 * u + u == 14 * u;
  }

  /** In a skewed configuration three quarters of a page fall into a class of thirteen sixteenths. */
  lemma SkewedIsNotAligned(c: Config, classes: seq<SizeClass>)
    requires ValidConfig(c) && ClassesOk(c, classes) && Settled(c, classes, MAX_SIZE) && Skewed(c)
    ensures !NaturallyAligned(c, classes)
  {
    hide Pow2, OnGrid, Align, ValidConfig, Skewed, ClassesOk, Settled, FirstFit, Divided;
    SkewedShift(c);
    var u, a := Pow2(c.shift - 4), c.shift - 2;
    SkewedClasses(c, classes, u);
    PageOf(c);
    var cl :| 0 < cl < |classes| && classes[cl].size == 13 * u;
    BeforeThirteen(c, classes, u, cl);
    QuarterPage(c.shift);
    NotAligned(c, classes, a, 12 * u, cl);
  }

  lemma NotAligned(c: Config, classes: seq<SizeClass>, a: nat, size: int, cl: int)
    requires 4 <= a <= c.shift && Asked(c, size, a) && FirstFit(classes, size, cl) && !Divided(classes[cl].size, a)
    ensures !NaturallyAligned(c, classes)
  {
    hide Divided;
  }

  lemma SkewedShift(c: Config)
    requires Skewed(c)
    ensures 8 <= c.shift <= 18
  {
  }

  lemma QuarterPage(shift: nat)
    requires shift >= 4
    ensures var u := Pow2(shift - 4);
      Pow2(shift - 2) == 4 * u && Divided(12 * u, shift - 2) && !Divided(13 * u, shift - 2)
  {
    hide Pow2;
    var u := Pow2(shift - 4);
    FirstPowers();
    EvenOrOne(shift - 4);
    Pow2Adds(shift - 4, 2);
    UnitsDiv(u, 4, 3, 0);
    UnitsDiv(u, 4, 3, 1);
  }

  lemma BeforeThirteen(c: Config, classes: seq<SizeClass>, u: int, cl: int)
    requires PageSize(c.page, c.shift) && ClassesOk(c, classes) && u > 0 && 0 < cl < |classes| && classes[cl].size == 13 * u
    requires OnGrid(c, 12 * u) && Align(12 * u, c.page) == u && !HasSize(classes, 12 * u)
    ensures FirstFit(classes, 12 * u, cl)
  {
    hide HasSize, Align, Aligned, ClassesOk;
    if cl > 1 {
      var x := classes[cl - 1].size;
      SizesGrow(c, classes, cl - 1, cl);
      FitIsOnGrid(c, classes, cl - 1);
      if x > 12 * u {
        NextIsLeast(12 * u, x, c.page, c.shift);
      }
    }
  }

  /** The classes are naturally aligned exactly if the configuration is not skewed. */
  lemma NaturallyAlignedIff(c: Config, classes: seq<SizeClass>)
    requires ValidConfig(c) && ClassesOk(c, classes) && Settled(c, classes, MAX_SIZE)
    ensures NaturallyAligned(c, classes) <==> !Skewed(c)
  {
    hide ValidConfig, ClassesOk, Settled, Skewed, Divided, Pow2;
    if Skewed(c) {
      SkewedIsNotAligned(c, classes);
    } else {
      forall a: nat, size, cl | 4 <= a <= c.shift && Asked(c, size, a) && FirstFit(classes, size, cl)
        ensures Divided(classes[cl].size, a)
      {
        if size < 128 {
          SmallIsAligned(c, classes, size, cl, a);
        } else {
          LargeIsAligned(c, classes, size, cl, a);
        }
      }
    }
  }

  /** With pages of 8192 bytes, exactly a minimum span of 40960 bytes makes the check fail. */
  lemma EightKilobytePages(c: Config)
    requires ValidConfig(c) && c.shift == 13
    ensures Skewed(c) <==> c.minSpan == 40960
  {
    assert c.page == 8192 by {
      Twice(12);
      assert Pow2(6) == 64;
      Pow2Adds(6, 6);
    }
  }

  // ----- The loops of the check -----

  ghost predicate AlignedUpTo(c: Config, classes: seq<SizeClass>, a: nat, top: int) {
    forall size, cl | Asked(c, size, a) && size < top && FirstFit(classes, size, cl) :: Divided(classes[cl].size, a)
  }

  lemma OneFirstFit(c: Config, classes: seq<SizeClass>, size: int, cl: int, other: int)
    requires ClassesOk(c, classes) && FirstFit(classes, size, cl) && FirstFit(classes, size, other)
    ensures cl == other
  {
    SizesGrow(c, classes, cl, other - 1);
    SizesGrow(c, classes, other, cl - 1);
  }

  /** One more multiple has been looked at. */
  lemma AlignedFurther(c: Config, classes: seq<SizeClass>, a: nat, size: int, cl: int)
    requires ClassesOk(c, classes) && AlignedUpTo(c, classes, a, size) && Asked(c, size, a)
    requires FirstFit(classes, size, cl) && Divided(classes[cl].size, a)
    ensures AlignedUpTo(c, classes, a, size + Pow2(a)) && Divided(size + Pow2(a), a)
  {
    hide ClassesOk, Pow2;
    EvenOrOne(a);
    forall x, k | Asked(c, x, a) && x < size + Pow2(a) && FirstFit(classes, x, k)
      ensures Divided(classes[k].size, a)
    {
      if x > size {
        NoMultipleBetween(size, x, Pow2(a));
      } else if x == size {
        OneFirstFit(c, classes, size, cl, k);
      }
    }
    NextMultiple(size, Pow2(a));
  }

  lemma NextMultiple(size: int, u: int)
    requires u > 0 && size % u == 0
    ensures (size + u) % u == 0
  {
    DivModIs(size + u, u, size / u + 1, 0);
  }

  lemma NothingAsked(c: Config, classes: seq<SizeClass>, a: nat)
    ensures Pow2(a) > 0 && AlignedUpTo(c, classes, a, Pow2(a)) && Divided(Pow2(a), a)
  {
    hide FirstFit, Pow2;
    EvenOrOne(a);
    DivModIs(Pow2(a), Pow2(a), 1, 0);
    forall x | Asked(c, x, a) && x < Pow2(a)
      ensures false
    {
      DivModIs(x, Pow2(a), 0, x);
    }
  }

  /** The multiples of one power of two. */
  method CheckMultiples(m: SizeMap, align: int, ghost a: nat) returns (ok: bool)
    requires m.Valid() && m.config.shift <= 18 && 4 <= a <= m.config.shift && align == Pow2(a)
    ensures ok ==> AlignedUpTo(m.config, m.classes, a, m.config.page)
    ensures !ok ==> !NaturallyAligned(m.config, m.classes)
  {
    hide Pow2, ClassesOk, Settled, AlignedUpTo, Divided, IndexedUpTo;
    var size := align;
    NothingAsked(m.config, m.classes, a);
    PageBound(m.config);
    while size < m.config.page
      invariant 0 < size && Divided(size, a) && AlignedUpTo(m.config, m.classes, a, size)
      decreases m.config.page - size
    {
      var cl := m.GetSizeClass(size);
      assert FirstFit(m.classes, size, cl.value);
      DividedIs(m.classes[cl.value].size, a);
      if m.classes[cl.value].size % align != 0 {
        return false;
      }
      AlignedFurther(m.config, m.classes, a, size, cl.value);
      size := size + align;
    }
    AlignedLess(m.config, m.classes, a, size);
    ok := true;
  }

  lemma DividedIs(size: int, a: nat)
    ensures Pow2(a) > 0 && (Divided(size, a) <==> size % Pow2(a) == 0)
  {
    EvenOrOne(a);
  }

  lemma AlignedLess(c: Config, classes: seq<SizeClass>, a: nat, top: int)
    requires AlignedUpTo(c, classes, a, top) && top >= c.page
    ensures AlignedUpTo(c, classes, a, c.page)
  {
  }

  lemma PageBound(c: Config)
    requires ValidConfig(c) && c.shift <= 18
    ensures c.page <= MAX_SIZE && c.page == Pow2(c.shift)
  {
    hide Pow2;
    Pow2Grows(c.shift, 18);
    MaxIsPow2();
  }

  /** The check passes exactly if the configuration is not skewed. */
  method CheckAlignment(m: SizeMap) returns (ok: bool)
    requires m.Valid() && m.config.shift <= 18
    ensures ok <==> !Skewed(m.config)
  {
    hide Pow2, ClassesOk, Settled, AlignedUpTo, IndexedUpTo, Skewed, NaturallyAligned;
    var align := MIN_ALIGN;
    ghost var a: nat := 4;
    FirstPowers();
    PageBound(m.config);
    NaturallyAlignedIff(m.config, m.classes);
    while align <= m.config.page
      invariant 4 <= a && align == Pow2(a) && align > 0
      invariant forall b: nat | 4 <= b < a && b <= m.config.shift :: AlignedUpTo(m.config, m.classes, b, m.config.page)
      decreases m.config.page - align
    {
      PowerOrder(a, m.config.shift);
      ok := CheckMultiples(m, align, a);
      if !ok {
        return;
      }
      Twice(a);
      align, a := align * 2, a + 1;
    }
    PowerOrder(a, m.config.shift);
    AllPowersChecked(m.config, m.classes);
    ok := true;
  }

  lemma PowerOrder(a: nat, b: nat)
    ensures Pow2(a) <= Pow2(b) <==> a <= b
  {
    hide Pow2;
    EvenOrOne(a);
    EvenOrOne(b);
    if a <= b {
      Pow2Grows(a, b);
    } else {
      Pow2Grows(b, a);
    }
  }

  lemma AllPowersChecked(c: Config, classes: seq<SizeClass>)
    requires forall b: nat | 4 <= b <= c.shift :: AlignedUpTo(c, classes, b, c.page)
    ensures NaturallyAligned(c, classes)
  {
    hide Divided;
    forall a: nat, size, cl | 4 <= a <= c.shift && Asked(c, size, a) && FirstFit(classes, size, cl)
      ensures Divided(classes[cl].size, a)
    {
      assert AlignedUpTo(c, classes, a, c.page);
    }
  }
}
