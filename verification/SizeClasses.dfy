/** Choosing the size classes and filling the index that maps a size to its class. */
module SizeClasses {
  import opened Arith
  import opened Options
  import opened SizeMaps

  /** How many objects move between caches at a time: about 64K, at least two unless capped below. */
  function NumMoveSize(size: int, transfer: int): int {
    if size <= 0 then 0 else
    var num := 0x1_0000 / size;
    Least(if num < 2 then 2 else num, transfer)
  }

  // ----- The length of a span -----

  /** At most an eighth is left over, and the span holds enough objects. */
  ghost predicate Roomy(psize: int, size: int, blocks: int)
    requires size > 0
  {
    psize % size <= psize / 8 && psize / size >= blocks
  }

  function Times(k: int, unit: int): int {
    k * unit
  }

  lemma TimesStep(k: int, unit: int)
    ensures Times(0, unit) == 0 && Times(k + 1, unit) == Times(k, unit) + unit
    ensures k >= 0 && unit >= 0 ==> Times(k, unit) >= 0
  {
    assert k >= 0 && unit >= 0 ==> k * unit >= 0;
  }

  ghost predicate RoomyAt(k: int, minSpan: int, size: int, blocks: int)
    requires size > 0
  {
    Roomy(Times(k, minSpan), size, blocks)
  }

  /** The shortest positive multiple of the minimum span that is roomy. */
  ghost predicate IsSpan(psize: int, minSpan: int, size: int, blocks: int) {
    && size > 0 && minSpan > 0
    && exists k :: 0 < k && psize == Times(k, minSpan) && RoomyAt(k, minSpan, size, blocks)
                   && forall j :: 0 < j < k ==> !RoomyAt(j, minSpan, size, blocks)
  }

  /** What is left over is at most an eighth once eight objects fit. */
  predicate Wasteful(psize: int, size: int)
    requires size > 0
  {
    psize % size > psize / 8
  }

  predicate Enough(psize: int, size: int, blocks: int)
    requires size > 0
  {
    psize / size >= blocks
  }

  lemma RoomyMeans(k: int, minSpan: int, size: int, blocks: int, psize: int)
    requires size > 0 && psize == Times(k, minSpan)
    ensures RoomyAt(k, minSpan, size, blocks) <==> !Wasteful(psize, size) && Enough(psize, size, blocks)
  {
  }

  lemma EightFit(psize: int, size: int)
    requires size > 0 && Wasteful(psize, size)
    ensures psize < 8 * size
  {
  }

  lemma TooFew(psize: int, size: int, blocks: int)
    requires size > 0 && !Enough(psize, size, blocks)
    ensures psize < Times(blocks, size)
  {
    assert psize == (psize / size) * size + psize % size;
    MulLe(psize / size + 1, blocks, size);
  }

  /** The two nested loops that lengthen a span until it is roomy. */
  method SpanBytes(size: int, blocks: int, minSpan: int) returns (psize: int)
    requires size > 0 && blocks >= 0 && minSpan > 0
    ensures IsSpan(psize, minSpan, size, blocks)
  {
    hide Times, Wasteful, Enough, RoomyAt;
    psize := 0;
    ghost var k := 0;
    ghost var cap := 8 * size + Times(blocks, size);
    TimesStep(blocks, size);
    TimesStep(0, minSpan);
    while true
      invariant 0 <= k && psize == Times(k, minSpan) && psize <= cap
      invariant forall j :: 0 < j <= k ==> !RoomyAt(j, minSpan, size, blocks)
      decreases cap - psize
    {
      ghost var start := psize;
      TimesStep(k, minSpan);
      psize, k := psize + minSpan, k + 1;
      while Wasteful(psize, size)
        invariant 0 < k && psize == Times(k, minSpan) && psize > start
        invariant forall j :: 0 < j < k ==> !RoomyAt(j, minSpan, size, blocks)
        decreases cap - psize
      {
        EightFit(psize, size);
        RoomyMeans(k, minSpan, size, blocks, psize);
        TimesStep(k, minSpan);
        psize, k := psize + minSpan, k + 1;
      }
      RoomyMeans(k, minSpan, size, blocks, psize);
      if Enough(psize, size, blocks) {
        break;
      }
      TooFew(psize, size, blocks);
    }
  }

  // ----- The classes -----

  datatype SizeClass = SizeClass(size: int, pages: int)

  const CLASS_SIZES_MAX := 128

  datatype Config = Config(page: int, shift: nat, minSpan: int, transfer: int)

  ghost predicate ValidConfig(c: Config) {
    PageSize(c.page, c.shift) && c.minSpan > 0 && c.minSpan % c.page == 0 && c.transfer >= 1
  }

  function Blocks(size: int, transfer: int): int {
    NumMoveSize(size, transfer) / 4
  }

  /** A class: a size on the grid, with the shortest span that wastes little and holds a batch's quarter. */
  ghost predicate ClassOk(c: Config, k: SizeClass) {
    && 8 <= k.size <= MAX_SIZE && Aligned(k.size, c.page)
    && IsSpan(k.pages * c.page, c.minSpan, k.size, Blocks(k.size, c.transfer))
  }

  /** Classes are numbered from one; number zero stands for nothing. */
  ghost predicate ClassesOk(c: Config, classes: seq<SizeClass>) {
    && |classes| >= 1 && classes[0].size == 0
    && (forall i :: 0 < i < |classes| ==> ClassOk(c, classes[i]))
    && (forall i, j :: 0 <= i < j < |classes| ==> classes[i].size < classes[j].size)
  }

  lemma SpanIsMultiple(psize: int, minSpan: int, size: int, blocks: int)
    requires IsSpan(psize, minSpan, size, blocks)
    ensures minSpan > 0 && psize % minSpan == 0
  {
    hide RoomyAt;
    var k :| 0 < k && psize == Times(k, minSpan) && RoomyAt(k, minSpan, size, blocks);
    MulMod(k, minSpan);
  }

  lemma ExactPages(psize: int, page: int)
    requires page > 0 && psize % page == 0
    ensures psize / page * page == psize
  {
  }

  lemma SpanIsUnique(psize: int, other: int, minSpan: int, size: int, blocks: int)
    requires IsSpan(psize, minSpan, size, blocks) && IsSpan(other, minSpan, size, blocks)
    ensures psize == other
  {
    hide RoomyAt;
    var j :| 0 < j && psize == Times(j, minSpan) && RoomyAt(j, minSpan, size, blocks)
             && forall i :: 0 < i < j ==> !RoomyAt(i, minSpan, size, blocks);
    var k :| 0 < k && other == Times(k, minSpan) && RoomyAt(k, minSpan, size, blocks)
             && forall i :: 0 < i < k ==> !RoomyAt(i, minSpan, size, blocks);
    assert j == k;
  }

  ghost predicate SpanOf(c: Config, size: int, psize: int) {
    IsSpan(psize, c.minSpan, size, Blocks(size, c.transfer))
  }

  /** Two sizes have the same span and are cut out of it equally often. */
  ghost predicate MergesIn(c: Config, s: int, t: int, psize: int) {
    s > 0 && t > 0 && SpanOf(c, s, psize) && SpanOf(c, t, psize) && psize / s == psize / t
  }

  ghost predicate Merges(c: Config, s: int, t: int) {
    exists psize :: MergesIn(c, s, t, psize)
  }

  ghost predicate HasSize(classes: seq<SizeClass>, s: int) {
    exists i :: 0 < i < |classes| && classes[i].size == s
  }

  ghost predicate OnGrid(c: Config, s: int) {
    8 <= s <= MAX_SIZE && Aligned(s, c.page)
  }

  /** Below `top`, exactly the sizes that do not merge with the next one have a class. */
  ghost predicate Settled(c: Config, classes: seq<SizeClass>, top: int) {
    forall s | OnGrid(c, s) && s < top :: HasSize(classes, s) <==> !Merges(c, s, s + Align(s, c.page))
  }

  lemma MergesIff(c: Config, s: int, t: int, p: int, q: int)
    requires s > 0 && t > 0 && SpanOf(c, s, p) && SpanOf(c, t, q)
    ensures Merges(c, s, t) <==> p == q && p / s == q / t
  {
    hide IsSpan;
    if Merges(c, s, t) {
      var psize :| MergesIn(c, s, t, psize);
      SpanIsUnique(p, psize, c.minSpan, s, Blocks(s, c.transfer));
      SpanIsUnique(q, psize, c.minSpan, t, Blocks(t, c.transfer));
    }
    if p == q && p / s == q / t {
      assert MergesIn(c, s, t, p);
    }
  }

  lemma SpanIsPages(c: Config, psize: int, size: int, blocks: int)
    requires ValidConfig(c) && IsSpan(psize, c.minSpan, size, blocks)
    ensures psize / c.page * c.page == psize
  {
    hide IsSpan;
    SpanIsMultiple(psize, c.minSpan, size, blocks);
    MultipleOf(psize, c.minSpan, c.page);
    ExactPages(psize, c.page);
  }

  /** As many objects as fit into 64K, but at least two, and not more than the transfer count; a quarter of
      them must fit into a span. */
  lemma MoveIsAbout64K(size: int, transfer: int)
    requires 0 < size <= MAX_SIZE && transfer >= 1
    ensures var n := NumMoveSize(size, transfer);
      && 1 <= n <= transfer && (n < transfer ==> n >= 2 && (n + 1) * size > 0x1_0000)
      && (n > 2 ==> n * size <= 0x1_0000)
      && Blocks(size, transfer) >= 0 && 4 * Blocks(size, transfer) <= n < 4 * Blocks(size, transfer) + 4
  {
    var num, n := 0x1_0000 / size, NumMoveSize(size, transfer);
    assert num * size <= 0x1_0000 < num * size + size;
    assert (num + 1) * size == num * size + size;
    if n < transfer {
      MulLe(num + 1, n + 1, size);
    }
    if n > 2 {
      MulLe(n, num, size);
    }
  }

  lemma SamePages(a: int, b: int, page: int)
    requires page > 0
    ensures a == b <==> a * page == b * page
  {
    if a < b {
      MulLe(a + 1, b, page);
    } else if b < a {
      MulLe(b + 1, a, page);
    }
  }

  /** Adds a size to the classes: to the last one if that wastes no more, else as a new one. */
  method AddSize(c: Config, classes: seq<SizeClass>, size: int) returns (more: seq<SizeClass>)
    requires ValidConfig(c) && ClassesOk(c, classes)
    requires 8 <= size <= MAX_SIZE && Aligned(size, c.page) && classes[|classes| - 1].size < size
    ensures ClassesOk(c, more) && 2 <= |more| <= |classes| + 1 && more[|more| - 1].size == size
    ensures var merged := |classes| > 1 && Merges(c, classes[|classes| - 1].size, size);
      more[..|more| - 1] == if merged then classes[..|classes| - 1] else classes
  {
    hide IsSpan, Merges, Aligned;
    MoveIsAbout64K(size, c.transfer);
    var psize := SpanBytes(size, Blocks(size, c.transfer), c.minSpan);
    SpanIsPages(c, psize, size, Blocks(size, c.transfer));
    var pages := psize / c.page;
    var last := classes[|classes| - 1];
    assert ClassOk(c, SizeClass(size, pages));
    if |classes| > 1 {
      assert ClassOk(c, last);
      MergesIff(c, last.size, size, last.pages * c.page, psize);
      SamePages(pages, last.pages, c.page);
    }
    if |classes| > 1 && pages == last.pages && pages * c.page / size == last.pages * c.page / last.size {
      more := classes[..|classes| - 1] + [last.(size := size)];
    } else {
      more := classes + [SizeClass(size, pages)];
    }
  }

  lemma NothingSettled(c: Config, classes: seq<SizeClass>)
    ensures Settled(c, classes, 0)
  {
  }

  /** Adding the next size settles the one before it. */
  lemma SettledGrows(c: Config, classes: seq<SizeClass>, more: seq<SizeClass>, size: int)
    requires ValidConfig(c) && ClassesOk(c, classes) && ClassesOk(c, more) && |more| >= 2
    requires OnGrid(c, size) && more[|more| - 1].size == size
    requires var last := classes[|classes| - 1].size;
      && last < size && Settled(c, classes, last)
      && (|classes| == 1 ==> size == ALIGNMENT)
      && (|classes| > 1 ==> size == last + Align(last, c.page))
      && more[..|more| - 1] == if |classes| > 1 && Merges(c, last, size) then classes[..|classes| - 1] else classes
    ensures Settled(c, more, size)
  {
    hide Merges, IsSpan, Align;
    var last := classes[|classes| - 1].size;
    forall s | OnGrid(c, s) && s < size
      ensures HasSize(more, s) <==> !Merges(c, s, s + Align(s, c.page))
    {
      assert |classes| > 1;
      assert ClassOk(c, classes[|classes| - 1]);
      if s > last {
        NextIsLeast(last, s, c.page, c.shift);
      }
      var kept := more[..|more| - 1];
      KeptSizes(more, s);
      if s < last {
        KeptSizes(classes, s);
      } else {
        LastIsKept(classes, kept, last);
      }
    }
  }

  /** All classes but the last have the sizes that are not the last one's. */
  lemma KeptSizes(classes: seq<SizeClass>, s: int)
    requires |classes| >= 2 && s != classes[|classes| - 1].size
    ensures HasSize(classes, s) <==> HasSize(classes[..|classes| - 1], s)
  {
    var kept := classes[..|classes| - 1];
    if HasSize(classes, s) {
      var i :| 0 < i < |classes| && classes[i].size == s;
      assert kept[i].size == s;
    }
    if HasSize(kept, s) {
      var i :| 0 < i < |kept| && kept[i].size == s;
      assert classes[i].size == s;
    }
  }

  lemma LastIsKept(classes: seq<SizeClass>, kept: seq<SizeClass>, last: int)
    requires |classes| >= 2 && classes[|classes| - 1].size == last
    requires forall i, j :: 0 <= i < j < |classes| ==> classes[i].size < classes[j].size
    ensures kept == classes ==> HasSize(kept, last)
    ensures kept == classes[..|classes| - 1] ==> !HasSize(kept, last)
  {
    assert classes[|classes| - 1].size == last;
  }

  lemma FirstRank()
    ensures Rank(ALIGNMENT) == 0 && Rank(MAX_SIZE) == 104
  {
  }

  /** All classes, up to exactly the largest size.  With pages of at least 8192 bytes there are at most
      105 of them, so that the table of 128 entries is long enough. */
  method ComputeClasses(c: Config) returns (classes: seq<SizeClass>)
    requires ValidConfig(c)
    ensures ClassesOk(c, classes) && |classes| >= 2 && classes[|classes| - 1].size == MAX_SIZE
    ensures c.shift >= 13 ==> |classes| <= 106 < CLASS_SIZES_MAX
    ensures Settled(c, classes, MAX_SIZE)
  {
    hide Rank, Merges, Settled;
    classes := [SizeClass(0, 0)];
    FirstRank();
    NothingSettled(c, classes);
    var size := ALIGNMENT;
    SmallAlign(8, c.page, c.shift);
    while size <= MAX_SIZE
      invariant ClassesOk(c, classes) && 8 <= size
      invariant classes[|classes| - 1].size < size
      invariant size <= MAX_SIZE ==> Aligned(size, c.page)
      invariant size > MAX_SIZE ==> |classes| >= 2 && classes[|classes| - 1].size == MAX_SIZE
      invariant |classes| == 1 ==> size == ALIGNMENT
      invariant |classes| > 1 ==> size == classes[|classes| - 1].size + Align(classes[|classes| - 1].size, c.page)
      invariant Settled(c, classes, classes[|classes| - 1].size)
      invariant c.shift >= 13 ==> |classes| - 1 <= if size <= MAX_SIZE then Rank(size) else 105
      decreases MAX_SIZE - size
    {
      ghost var before := classes;
      classes := AddSize(c, classes, size);
      SettledGrows(c, before, classes, size);
      var alignment := AlignmentForSize(size, c.page);
      if size < MAX_SIZE {
        NextSize(size, c.page, c.shift);
        if c.shift >= 13 {
          RankStep(size, c.page, c.shift);
        }
      }
      size := size + alignment;
    }
  }

  /** What a class promises: little waste, and enough objects for a quarter of a batch. */
  lemma ClassWastesLittle(c: Config, k: SizeClass)
    requires ClassOk(c, k)
    ensures k.pages * c.page % k.size <= k.pages * c.page / 8
    ensures k.pages * c.page / k.size >= Blocks(k.size, c.transfer)
  {
  }

  // ----- The index -----

  /** Fine steps up to 1024, coarse ones above, flattened into one array. */
  function ClassIndex(s: int): int {
    if s <= MAX_SMALL_SIZE then (s + 7) / 8 else (s + 127 + 120 * 128) / 128
  }

  lemma IndexIsMonotone(s: int, t: int)
    requires 0 <= s <= t <= MAX_SIZE
    ensures 0 <= ClassIndex(s) <= ClassIndex(t) < CLASS_ARRAY_SIZE
  {
  }

  /** Between two sizes with a class boundary between them the index changes. */
  lemma BoundarySeparates(s: int, bound: int, t: int)
    requires 0 <= s <= bound < t <= MAX_SIZE && bound % 8 == 0 && (bound > 1024 ==> bound % 128 == 0)
    ensures ClassIndex(s) < ClassIndex(t)
  {
    hide ClassIndex;
    IndexIsMonotone(s, bound);
    if bound <= MAX_SMALL_SIZE {
      FineStep(bound, t);
    } else {
      CoarseStep(bound, t);
    }
  }

  lemma FineStep(bound: int, t: int)
    requires 0 <= bound < t <= MAX_SIZE && bound % 8 == 0 && bound <= MAX_SMALL_SIZE
    ensures ClassIndex(bound) < ClassIndex(t)
  {
    DivModIs(bound + 7, 8, bound / 8, 7);
  }

  lemma CoarseStep(bound: int, t: int)
    requires MAX_SMALL_SIZE < bound < t <= MAX_SIZE && bound % 128 == 0
    ensures ClassIndex(bound) < ClassIndex(t)
  {
    DivModIs(bound + 127 + 120 * 128, 128, bound / 128 + 120, 127);
  }

  /** `cl` is the first class that is large enough for `s`. */
  ghost predicate FirstFit(classes: seq<SizeClass>, s: int, cl: int) {
    0 < cl < |classes| && s <= classes[cl].size && (cl > 1 ==> classes[cl - 1].size < s)
  }

  /** The index is right for every size up to `top`. */
  ghost predicate IndexedUpTo(classes: seq<SizeClass>, index: seq<int>, top: int) {
    |index| == CLASS_ARRAY_SIZE &&
    forall s :: 0 <= s <= top && s <= MAX_SIZE ==> FirstFit(classes, s, IndexAt(index, s))
  }

  ghost function IndexAt(index: seq<int>, s: int): int
    requires |index| == CLASS_ARRAY_SIZE && 0 <= s <= MAX_SIZE
  {
    index[ClassIndex(s)]
  }

  ghost predicate Coarse(classes: seq<SizeClass>) {
    forall i :: 0 <= i < |classes| ==> classes[i].size % 8 == 0 && (classes[i].size > 1024 ==> classes[i].size % 128 == 0)
  }

  lemma ClassesAreCoarse(c: Config, classes: seq<SizeClass>)
    requires ValidConfig(c) && ClassesOk(c, classes)
    ensures Coarse(classes)
  {
    forall i | 0 < i < |classes|
      ensures classes[i].size % 8 == 0 && (classes[i].size > 1024 ==> classes[i].size % 128 == 0)
    {
      assert ClassOk(c, classes[i]);
      SizeIsCoarse(classes[i].size, c.page, c.shift);
    }
  }

  /** Writing class `cl` at size `s` is right for `s` and for every smaller size that shares its entry. */
  lemma WriteIsRight(c: Config, classes: seq<SizeClass>, index: seq<int>, s: int, cl: int)
    requires ClassesOk(c, classes) && Coarse(classes) && 0 < cl < |classes| && s % 8 == 0
    requires 0 <= s <= classes[cl].size <= MAX_SIZE && (cl > 1 ==> classes[cl - 1].size < s)
    requires IndexedUpTo(classes, index, s - 8)
    ensures 0 <= ClassIndex(s) < |index| && IndexedUpTo(classes, index[ClassIndex(s) := cl], s)
  {
    var index' := index[ClassIndex(s) := cl];
    forall t | 0 <= t <= s ensures FirstFit(classes, t, IndexAt(index', t)) {
      IndexIsMonotone(t, s);
      if ClassIndex(t) == ClassIndex(s) {
        if cl > 1 && t <= classes[cl - 1].size {
          BoundarySeparates(t, classes[cl - 1].size, s);
        }
      } else if t > s - 8 {
        SameFineStep(t, s);
      } else {
        assert FirstFit(classes, t, IndexAt(index, t));
      }
    }
  }

  lemma SameFineStep(t: int, s: int)
    requires 0 <= t <= s <= MAX_SIZE && s % 8 == 0 && t > s - 8
    ensures ClassIndex(t) == ClassIndex(s)
  {
    if s <= MAX_SMALL_SIZE {
      DivModIs(t + 7, 8, s / 8, t + 7 - s);
      DivModIs(s + 7, 8, s / 8, 7);
    } else {
      var q, r := (s - 1) / 128, (s - 1) % 128;
      assert r == 8 * (s / 8 - 16 * q) - 1;
      DivModIs(s + 127 + 120 * 128, 128, q + 121, r);
      DivModIs(t + 127 + 120 * 128, 128, q + 121, r - (s - t));
    }
  }

  lemma CoarseAt(classes: seq<SizeClass>, i: int)
    requires Coarse(classes) && 0 <= i < |classes|
    ensures classes[i].size % 8 == 0
  {
  }

  lemma NothingIndexed(classes: seq<SizeClass>, index: seq<int>)
    requires |index| == CLASS_ARRAY_SIZE
    ensures IndexedUpTo(classes, index, -8)
  {
  }

  /** The sizes of one class, in steps of eight. */
  method FillClass(c: Config, classes: seq<SizeClass>, index: array<int>, cl: int, next: int)
    requires ClassesOk(c, classes) && Coarse(classes) && 0 < cl < |classes|
    requires 0 <= next <= classes[cl].size <= MAX_SIZE
    requires next == (if cl == 1 then 0 else classes[cl - 1].size + 8)
    requires index.Length == CLASS_ARRAY_SIZE && IndexedUpTo(classes, index[..], next - 8)
    modifies index
    ensures IndexedUpTo(classes, index[..], classes[cl].size)
  {
    hide ClassIndex, IndexedUpTo, ClassesOk, Coarse, FirstFit, InEights;
    CoarseAt(classes, cl);
    CoarseAt(classes, cl - 1);
    NextEighth(classes[cl - 1].size);
    NextEighth(-8);
    var s := next;
    while s <= classes[cl].size
      invariant next <= s && InEights(s)
      invariant IndexedUpTo(classes, index[..], s - 8)
    {
      NextEighth(s);
      WriteIsRight(c, classes, index[..], s, cl);
      ghost var before := index[..];
      index[ClassIndex(s)] := cl;
      assert index[..] == before[ClassIndex(s) := cl];
      s := s + ALIGNMENT;
    }
    NextEighth(s);
    StepsOfEight(classes[cl].size, s);
    IndexedLess(classes, index[..], s - 8, classes[cl].size);
  }

  lemma IndexedLess(classes: seq<SizeClass>, index: seq<int>, top: int, less: int)
    requires IndexedUpTo(classes, index, top) && less <= top
    ensures IndexedUpTo(classes, index, less)
  {
    hide FirstFit;
  }

  ghost predicate InEights(s: int) {
    s % 8 == 0
  }

  lemma NextEighth(s: int)
    ensures InEights(s) <==> s % 8 == 0
    ensures InEights(s) ==> InEights(s + 8)
  {
  }

  lemma ClassFollows(c: Config, classes: seq<SizeClass>, cl: int)
    requires ClassesOk(c, classes) && Coarse(classes) && 0 < cl < |classes|
    ensures 8 <= classes[cl].size <= MAX_SIZE && classes[cl].size % 8 == 0
    ensures classes[cl - 1].size + 8 <= classes[cl].size
  {
    hide Coarse, IsSpan, Aligned;
    assert ClassOk(c, classes[cl]);
    CoarseAt(classes, cl);
    CoarseAt(classes, cl - 1);
    StepsOfEight(classes[cl - 1].size, classes[cl].size);
  }

  lemma StepsOfEight(a: int, b: int)
    requires a < b && a % 8 == 0 && b % 8 == 0
    ensures a + 8 <= b
  {
  }

  /** Every size up to the largest is mapped to the first class that is large enough. */
  method FillIndex(c: Config, classes: seq<SizeClass>) returns (index: array<int>)
    requires ValidConfig(c) && ClassesOk(c, classes) && |classes| >= 2 && classes[|classes| - 1].size == MAX_SIZE
    ensures fresh(index) && index.Length == CLASS_ARRAY_SIZE && IndexedUpTo(classes, index[..], MAX_SIZE)
  {
    hide IndexedUpTo, Coarse, ClassesOk, ValidConfig, ClassIndex, FirstFit;
    ClassesAreCoarse(c, classes);
    index := new int[CLASS_ARRAY_SIZE];
    NothingIndexed(classes, index[..]);
    var next, cl := 0, 1;
    while cl < |classes|
      invariant 1 <= cl <= |classes| && 0 <= next == (if cl == 1 then 0 else classes[cl - 1].size + 8)
      invariant IndexedUpTo(classes, index[..], next - 8)
    {
      ClassFollows(c, classes, cl);
      FillClass(c, classes, index, cl, next);
      next := classes[cl].size + ALIGNMENT;
      cl := cl + 1;
    }
  }

  class SizeMap {
    const config: Config
    var classes: seq<SizeClass>
    var index: array<int>

    ghost predicate Valid()
      reads this, index
    {
      && ValidConfig(config) && ClassesOk(config, classes)
      && |classes| >= 2 && classes[|classes| - 1].size == MAX_SIZE && Settled(config, classes, MAX_SIZE)
      && index.Length == CLASS_ARRAY_SIZE && IndexedUpTo(classes, index[..], MAX_SIZE)
    }

    constructor (c: Config)
      requires ValidConfig(c)
      ensures Valid() && config == c && (c.shift >= 13 ==> |classes| <= 106)
    {
      config := c;
      var all := ComputeClasses(c);
      classes := all;
      var filled := FillIndex(c, all);
      index := filled;
    }

    /** The first class that is large enough, for every size that has one. */
    method GetSizeClass(size: int) returns (r: Option<int>)
      requires Valid() && 0 <= size
      ensures r.None? <==> size > MAX_SIZE
      ensures r.Some? ==>
        && 0 < r.value < |classes| && size <= classes[r.value].size
        && forall i :: 0 < i < r.value ==> classes[i].size < size
    {
      if size > MAX_SIZE {
        return None;
      }
      IndexIsMonotone(size, size);
      assert FirstFit(classes, size, IndexAt(index[..], size));
      return Some(index[ClassIndex(size)]);
    }
  }
}
