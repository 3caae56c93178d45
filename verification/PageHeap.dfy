/** The page-level allocator (page_heap.h, page_heap.cc). */
module PageHeaps {
  import opened Options
  import opened Arith
  import opened Spans
  import opened FreeLists
  import opened Accounting
  import opened HeapState
  import opened Coalescing
  import opened Carving
  import opened Truncation
  import opened Fitting
  import opened Searches
  import opened SizeCache

  /** Pages to wait before scavenging again when there was nothing to release. */
  const DEFAULT_RELEASE_DELAY: int := 0x4_0000

  /** The longest time to wait before scavenging again. */
  const MAX_RELEASE_DELAY: int := 0x10_0000

  const PAGE_SIZE: int := 8192

  /** The longest run of pages that can be addressed. */
  const MAX_VALID_PAGES: int := 0x7_FFFF_FFFF_FFFF

  const MIN_SYSTEM_ALLOC: int := MAX_PAGES
  const FORCED_COALESCE_INTERVAL: int := 128 * 1024 * 1024

  /** Whether much is free but split into normal and returned parts, and growing by `n` pages would
      cross one of the marks at which all of it is released so that it coalesces. */
  predicate ForceCoalescing(stats: Stats, n: int) {
    && stats.free != 0 && stats.unmapped != 0 && 4 * (stats.free + stats.unmapped) >= stats.system
    && stats.system * PAGE_SIZE / FORCED_COALESCE_INTERVAL
         != ((stats.system * PAGE_SIZE + n * PAGE_SIZE) % WORD) / FORCED_COALESCE_INTERVAL
  }

  /** The marks are 128 megabytes apart. */
  ghost function MarkAt(k: int): int {
    k * 16384
  }

  /** A quarter of what was taken is free, part of it normal and part of it returned, and the heap is about
      to pass a mark. */
  lemma ForcedIff(stats: Stats, n: int)
    requires 0 <= stats.system && 0 < n && (stats.system + n) * PAGE_SIZE < WORD
    ensures ForceCoalescing(stats, n) <==>
      && stats.free != 0 && stats.unmapped != 0 && 4 * (stats.free + stats.unmapped) >= stats.system
      && exists k :: stats.system < MarkAt(k) <= stats.system + n
  {
    var a, b := stats.system, stats.system + n;
    assert a * PAGE_SIZE / FORCED_COALESCE_INTERVAL == a / 16384 && b * PAGE_SIZE / FORCED_COALESCE_INTERVAL == b / 16384;
    if a / 16384 != b / 16384 {
      assert a < MarkAt(b / 16384) <= b;
    }
    if k :| a < MarkAt(k) <= b {
      assert a / 16384 < k <= b / 16384;
    }
  }

  /** The list whose turn it is at step `k`. */
  function Place(k: int): (r: int)
    ensures 0 <= r <= MAX_PAGES
  {
    k % (MAX_PAGES + 1)
  }

  /** Since `before`, the lists have been looked at in turn, starting with `first`. */
  ghost predicate InTurn(before: seq<int>, after: seq<int>, first: int) {
    && |before| <= |after| && after[..|before|] == before
    && forall j | |before| <= j < |after| :: after[j] == Place(first + j - |before|)
  }

  lemma SameTurn(before: seq<int>, first: int)
    ensures InTurn(before, before, first)
  {}

  lemma NextTurn(before: seq<int>, after: seq<int>, first: int, v: int)
    requires InTurn(before, after, first) && v == Place(first + |after| - |before|)
    ensures InTurn(before, after + [v], first)
  {
    hide Place;
    var after' := after + [v];
    assert after'[..|before|] == after[..|before|];
    assert forall j | 0 <= j < |after| :: after'[j] == after[j];
  }

  /** One round after another goes on where the other stopped. */
  lemma TurnsJoin(a: seq<int>, b: seq<int>, c: seq<int>, first: int, index: int, index': int)
    requires InTurn(a, b, first) && InTurn(b, c, index) && Place(index) == Place(first + |b| - |a|)
    ensures InTurn(a, c, first)
    ensures Place(index') == Place(index + |c| - |b|) ==> Place(index') == Place(first + |c| - |a|)
  {
    hide Place;
    assert c[..|a|] == c[..|b|][..|a|];
    forall j | |a| <= j < |c|
      ensures c[j] == Place(first + j - |a|)
    {
      if j < |b| {
        assert c[..|b|][j] == b[j];
      } else {
        PlaceOn(index, first + |b| - |a|, j - |b|);
      }
    }
    PlaceOn(index, first + |b| - |a|, |c| - |b|);
  }

  lemma PlaceAgain(a: int)
    ensures Place(Place(a)) == Place(a)
  {}

  lemma PlaceOn(a: int, b: int, d: int)
    requires Place(a) == Place(b)
    ensures Place(a + d) == Place(b + d)
  {}

  /** No normal span has the length kept at index `k` of the lists; the last index stands for the
      set of long spans. */
  predicate NoneAt(lists: Lists, k: int) {
    if k == MAX_PAGES then lists.largeNormal == {} else Slot(lists.normal, k + 1) == []
  }

  /** The span to release first among those at index `k` of the lists: the last of a short list, the least
      of the long spans. */
  ghost predicate NextUp(h: Heap, k: int, p: Ptr) {
    && p in h.spans && h.spans[p].location == Normal
    && if k < MAX_PAGES
       then h.spans[p].length == k + 1 && Slot(h.lists.normal, k + 1) != []
            && p == Slot(h.lists.normal, k + 1)[|Slot(h.lists.normal, k + 1)| - 1]
       else h.spans[p].length > MAX_PAGES && Entry(p, h.spans[p].length) in h.lists.largeNormal
            && forall e | e in h.lists.largeNormal && e.span != p ::
                 e.span in h.spans && !BestFitLess(h.spans, e, Entry(p, h.spans[p].length))
  }

  ghost predicate NoneAtStep(lists: Lists, first: int, j: int) {
    NoneAt(lists, Place(first + j))
  }

  lemma StepIs(lists: Lists, first: int, i: int, index: int)
    requires index == Place(first + i)
    ensures NoneAt(lists, index) <==> NoneAtStep(lists, first, i)
    ensures Place(index + 1) == Place(first + (i + 1))
  {
    PlaceAgain(first + i);
    PlaceOn(index, first + i, 1);
  }

  /** A round over the lists reaches every one of them. */
  lemma RoundReachesAll(lists: Lists, first: int)
    requires forall j | 0 <= j <= MAX_PAGES :: NoneAtStep(lists, first, j)
    ensures forall k | 0 <= k <= MAX_PAGES :: NoneAt(lists, k)
  {
    hide NoneAt;
    forall k | 0 <= k <= MAX_PAGES
      ensures NoneAt(lists, k)
    {
      var j := Place(k - first);
      assert NoneAtStep(lists, first, j);
      assert Place(first + j) == k;
    }
  }

  lemma NoneAnywhere(h: Heap)
    requires Sound(h, {}, 0) && forall k | 0 <= k <= MAX_PAGES :: NoneAt(h.lists, k)
    ensures h.stats.free == 0
  {
    forall p | p in h.spans
      ensures h.spans[p].location != Normal
    {
      assert Listed(h.lists, p, h.spans[p]);
      assert NoneAt(h.lists, if h.spans[p].length > MAX_PAGES then MAX_PAGES else h.spans[p].length - 1);
    }
    assert h.Pages(Normal) == {};
  }

  /** What the lists hold are free spans of the right kind. */
  lemma ListedIsFree(h: Heap, p: Ptr, n: int)
    requires Sound(h, {}, 0)
    ensures p in Slot(h.lists.normal, n) ==> p in h.spans && h.spans[p].location == Normal && h.spans[p].length == n
    ensures p in Slot(h.lists.returned, n) ==> p in h.spans && h.spans[p].location == Returned && h.spans[p].length == n
    ensures Entry(p, n) in h.lists.largeNormal ==>
      p in h.spans && h.spans[p].location == Normal && h.spans[p].length == n > MAX_PAGES
    ensures Entry(p, n) in h.lists.largeReturned ==>
      p in h.spans && h.spans[p].location == Returned && h.spans[p].length == n > MAX_PAGES
  {}

  lemma EntriesAreSpans(h: Heap)
    requires Sound(h, {}, 0)
    ensures forall e | e in h.lists.largeNormal + h.lists.largeReturned ::
      e.length > MAX_PAGES && e.span in h.spans && h.spans[e.span].start > 0
  {}

  /** Pages outside all spans are not part of the heap. */
  lemma Unowned(h: Heap, g: Span)
    requires Sound(h, {}, 0)
    requires forall p | p in h.spans :: g.End() <= h.spans[p].start || h.spans[p].End() <= g.start
    ensures forall q | g.Contains(q) :: q !in h.owner
  {
    forall q | q in h.owner
      ensures !g.Contains(q)
    {
      var p := h.owner[q];
      assert p in h.spans && h.spans[p].Contains(q);
    }
  }

  lemma OwnedBySystem(h: Heap)
    requires Sound(h, {}, 0)
    ensures |h.owner| + h.leaked == h.stats.system && h.leaked >= 0
  {}

  lemma GrowFacts(h: Heap, h': Heap, b: Ptr, g: Span, coalesced: bool)
    requires Sound(h, {}, 0) && b !in h.spans && g == Span(g.start, g.length, InUse, 0) && g.start > 0 && g.length > 0
    requires forall q | g.Contains(q) :: q !in h.owner
    requires h' == Grew(h, b, g)
    requires coalesced ==> Coalesced(h.spans, {})
    ensures CanGrow(h, b, g) && Sound(h', {}, 0) && |h'.owner| == |h.owner| + g.length
    ensures coalesced ==> Coalesced(h'.spans, {})
    ensures Apart(h.spans, {}) ==> Apart(h'.spans, {})
    ensures h'.stats.system == h.stats.system + g.length && h'.stats.unmapped == h.stats.unmapped
  {
    hide Sound, Grown, Range;
    GrowKeepsSound(h, b, g);
    GrownSize(h.owner, b, g);
  }

  lemma AddedRegion(h: Heap, h': Heap, b: Ptr, g: Span)
    requires Sound(h, {}, 0) && CanGrow(h, b, g) && Freed(Grew(h, b, g), h', b) && Sound(h', {}, 0)
    ensures Extends(h, h') && h'.owner.Keys == h.owner.Keys + Range(g.start, g.length) && h'.leaked == h.leaked
    ensures |h'.owner| == |Grew(h, b, g).owner| && h'.stats.system == Grew(h, b, g).stats.system
    ensures !NoFit(h', g.length, 0)
  {
    hide Sound, Extends, CanGrow, Range, Grew, Tiled, At, Used, Spread;
    IsTiled(h, {}, 0);
    IsTiled(h', {}, 0);
    GrowExtends(h, b, g, h');
    assert |h'.owner.Keys| == |Grew(h, b, g).owner.Keys|;
    PositiveGrowth(h, b, g);
  }

  lemma PositiveGrowth(h: Heap, b: Ptr, g: Span)
    requires CanGrow(h, b, g)
    ensures g.length > 0
  {}

  lemma LeakKeepsSound(h: Heap, h': Heap, n: int)
    requires Sound(h, {}, 0) && n >= 0
    requires h' == h.(leaked := h.leaked + n, stats := h.stats.(system := h.stats.system + n, committed := h.stats.committed + n))
    ensures Sound(h', {}, 0) && Extends(h, h')
  {
    hide At, Used, Laid, Exact, Spread;
    SpreadSame(h.spans);
  }

  lemma FitsAtLeast(h: Heap, m: int, n: int)
    requires !NoFit(h, m, 0) && n <= m
    ensures !NoFit(h, n, 0)
  {}

  lemma SuppliedLength(h': Heap, h: Heap, p: Ptr, n: int)
    requires Sound(h', {}, 0) && Supplied(h, h', p, n)
    ensures n <= |h'.owner|
  {
    LengthBound(h', p);
  }

  lemma SameFit(h: Heap, h': Heap, n: int)
    requires h.spans == h'.spans
    ensures NoFit(h, n, 0) <==> NoFit(h', n, 0)
  {}

  lemma BestIsFit(h: Heap, p: Ptr, n: int)
    requires BestFit(h, p, n, 0)
    ensures !NoFit(h, n, 0)
  {}

  /** Growing around the spans in use, or granting one more, leaves the cache truthful. */
  lemma GrantTruthful(h: Heap, h': Heap, p: Ptr, n: int, sizeclass: int, cache: Cache, settled: set<Ptr>)
    requires Truthful(h.Live(), cache, settled) && Granted(h, h', p, n, sizeclass)
    ensures Truthful(h'.Live(), cache, settled) && p in h'.Live() && h'.Live()[p] == h'.spans[p]
  {
    hide At, Used, Range, Tells;
    StaysTruthful(h.Live(), h'.Live(), cache, settled);
  }

  lemma ExtendTruthful(h: Heap, h': Heap, cache: Cache, settled: set<Ptr>)
    requires Truthful(h.Live(), cache, settled) && Extends(h, h')
    ensures Truthful(h'.Live(), cache, settled)
  {
    hide At, Used, Tells, Spread;
  }

  lemma FreeTruthful(h: Heap, h': Heap, p: Ptr, cache: Cache, settled: set<Ptr>)
    requires Truthful(h.Live(), cache, settled) && Freed(h, h', p)
    ensures Truthful(h'.Live(), cache, settled - {p})
  {
    hide At, Used, Range, Tells, Spread;
  }

  lemma GrantFacts(h: Heap, h': Heap, p: Ptr, n: int, sizeclass: int)
    requires Granted(h, h', p, n, sizeclass)
    ensures p in h'.spans && h'.spans[p] == Span(h'.spans[p].start, n, InUse, sizeclass)
  {}

  lemma SupplyFacts(h: Heap, h': Heap, p: Ptr, n: int)
    requires Supplied(h, h', p, n)
    ensures n > 0 && p in h'.spans && h'.spans[p] == Span(h'.spans[p].start, n, InUse, 0)
  {}

  lemma CutFacts(h: Heap, p: Ptr, b: Ptr, n: int)
    requires CanCut(h, p, b, n)
    ensures var h' := Cutoff(h, p, b, n, InUse);
      p in h'.spans && b in h'.spans && h'.spans[p].location == InUse && h'.spans[b].location == InUse
  {}

  /** Room for alignment can be added unless it overflows, and then the request is far too long. */
  lemma RoundUpGrows(n0: int, unit: int, align: int)
    requires IsPow2(unit) && IsPow2(align) && 0 < n0 < WORD
    ensures 0 < unit < WORD && 0 < align < WORD
    ensures var alloc := (RoundUp(n0, unit) + align) % WORD;
      (alloc < RoundUp(n0, unit) || alloc < align) <==> RoundUp(n0, unit) + align >= WORD
    ensures RoundUp(WORD - 1, unit) >= INT_LIMIT
    ensures RoundUp(n0, unit) + align < WORD ==>
      RoundUp(RoundUp(n0, unit) + align, unit) >= INT_LIMIT || RoundUp(RoundUp(n0, unit) + align, unit) >= RoundUp(n0, unit) + align
  {
    hide RoundUp;
    var m := WordMultiple(unit);
    var k := WordMultiple(align);
    MulLe(2, m, unit);
    RoundUpIsLeast(n0, unit);
    RoundUpIsLeast(WORD - 1, unit);
    WrapsIff(RoundUp(n0, unit), align);
    if RoundUp(n0, unit) + align < WORD {
      RoundUpIsLeast(RoundUp(n0, unit) + align, unit);
    }
  }

  lemma WrapsIff(a: int, b: int)
    requires 0 < a < WORD && 0 < b < WORD
    ensures ((a + b) % WORD < a || (a + b) % WORD < b) <==> a + b >= WORD
  {}

  /** The pages to skip from `start` to the next multiple of `align`; fewer than `align`. */
  method SkipToAligned(start: int, align: int) returns (skip: int)
    requires align > 0
    ensures 0 <= skip < align && (start + skip) % align == 0
  {
    skip := 0;
    ghost var last := if start % align == 0 then 0 else align - start % align;
    DivModIs(start + last, align, start / align + if last == 0 then 0 else 1, 0);
    while (start + skip) % align != 0
      invariant 0 <= skip <= last
      decreases last - skip
    {
      skip := skip + 1;
    }
  }

  /** A page of a span in use is in no other. */
  lemma LiveApart(h: Heap, p: Ptr)
    requires Sound(h, {}, 0) && p in h.spans && h.spans[p].location == InUse
    ensures p in Used(h.spans) && Used(h.spans)[p] == h.spans[p]
    ensures forall q, r | h.spans[p].Contains(q) && r in Used(h.spans) && r != p :: !Used(h.spans)[r].Contains(q)
    ensures forall r | r in Used(h.spans) :: Used(h.spans)[r].length > 0
  {
    forall q, r | h.spans[p].Contains(q) && r in Used(h.spans) && r != p
      ensures !Used(h.spans)[r].Contains(q)
    {
      assert h.owner[q] == p;
    }
  }

  lemma UsedAreInUse(spans: SpanMap, p: Ptr)
    ensures p in Used(spans) ==> p in spans && spans[p].location == InUse
  {}

  lemma FoundByPage(h: Heap, p: Ptr, q: int)
    requires Sound(h, {}, 0) && p in h.spans && h.spans[p].Contains(q) && (h.spans[p].sizeclass == 0 ==> q == h.spans[p].start)
    ensures q in h.pagemap && h.pagemap[q] == p
  {
    assert Recorded(h.pagemap, h.spans[p], p);
  }

  lemma ClassTells(cache: Cache, s: Span)
    requires s.sizeclass != 0
    requires TellsOn(cache, s.start, s.start + s.length, s.sizeclass)
    ensures Tells(cache, s)
  {}

  /** `q` is the first page from `start` on with an entry in the page map. */
  ghost predicate FirstEntry(pagemap: PageMap, start: int, q: int) {
    q in pagemap && q >= start && forall x | x in pagemap && x >= start :: q <= x
  }

  datatype RangeType = INUSE | FREE | UNMAPPED

  /** What is reported of a span, in bytes, and the part of it that is in use. */
  datatype MallocRange = MallocRange(address: int, length: int, kind: RangeType, fraction: real)

  /** `live` is the size of the span's objects that are in use, if it is cut into objects. */
  function Report(s: Span, live: int): MallocRange
    requires s.length > 0
  {
    var kind := match s.location case InUse => INUSE case Normal => FREE case Returned => UNMAPPED;
    var fraction := if s.location != InUse then 0.0
                    else if s.sizeclass > 0 then live as real / (s.length * PAGE_SIZE) as real
                    else 1.0;
    MallocRange(s.start * PAGE_SIZE, s.length * PAGE_SIZE, kind, fraction)
  }

  /** The page after a range is the end of its span, and the fraction gives back the bytes in use. */
  lemma ReportMeans(s: Span, live: int)
    requires s.length > 0
    ensures var r := Report(s, live);
      && (r.address + r.length + PAGE_SIZE - 1) / PAGE_SIZE == s.End()
      && r.fraction * r.length as real ==
           if s.location != InUse then 0.0 else if s.sizeclass > 0 then live as real else r.length as real
  {
    var bytes := (s.length * PAGE_SIZE) as real;
    assert bytes > 0.0;
  }

  /** The bytes in the ranges of one kind. */
  function Total(reported: seq<MallocRange>, kind: RangeType): int {
    if reported == [] then 0 else
    var last := reported[|reported| - 1];
    Total(reported[..|reported| - 1], kind) + if last.kind == kind then last.length else 0
  }

  /** The pages of the listed spans at one location. */
  ghost function Covered(h: Heap, list: seq<Ptr>, location: Location): set<int> {
    set q | q in h.owner && h.owner[q] in list && h.owner[q] in h.spans && h.spans[h.owner[q]].location == location
  }

  function KindOf(location: Location): RangeType {
    match location case InUse => INUSE case Normal => FREE case Returned => UNMAPPED
  }

  lemma CoverMore(h: Heap, list: seq<Ptr>, p: Ptr, location: Location)
    requires Tiled(h.spans, h.owner) && InOrder(h.spans, list + [p])
    ensures p in h.spans && h.spans[p].length > 0
    ensures |Covered(h, list + [p], location)|
      == |Covered(h, list, location)| + if h.spans[p].location == location then h.spans[p].length else 0
  {
    assert (list + [p])[|list|] == p;
    assert forall i | 0 <= i < |list| :: (list + [p])[i] == list[i];
    forall i | 0 <= i < |list|
      ensures list[i] != p
    {
      assert h.spans[(list + [p])[i]].End() <= h.spans[(list + [p])[|list|]].start;
    }
    assert h.spans[p].length > 0;
    hide Tiled, InOrder;
    CoverOne(h, list, p, location);
  }

  lemma CoverOne(h: Heap, list: seq<Ptr>, p: Ptr, location: Location)
    requires Tiled(h.spans, h.owner) && p in h.spans && p !in list && h.spans[p].length > 0
    ensures |Covered(h, list + [p], location)|
      == |Covered(h, list, location)| + if h.spans[p].location == location then h.spans[p].length else 0
  {
    PagesOf(h.spans, h.owner, p);
    hide Tiled;
    var own := Range(h.spans[p].start, h.spans[p].length);
    if h.spans[p].location == location {
      assert Covered(h, list + [p], location) == Covered(h, list, location) + own;
      assert Covered(h, list, location) !! own;
    } else {
      assert Covered(h, list + [p], location) == Covered(h, list, location);
    }
  }

  lemma {:induction false} TotalIs(h: Heap, list: seq<Ptr>, reported: seq<MallocRange>, live: Ptr -> int, location: Location)
    requires Tiled(h.spans, h.owner) && InOrder(h.spans, list) && |reported| == |list|
    requires forall i | 0 <= i < |list| :: h.spans[list[i]].length > 0 && reported[i] == Report(h.spans[list[i]], live(list[i]))
    ensures Total(reported, KindOf(location)) == PAGE_SIZE * |Covered(h, list, location)|
  {
    hide Tiled, Covered;
    if list == [] {
      NoneCovered(h, location);
    } else {
      var n := |list| - 1;
      TotalIs(h, list[..n], reported[..n], live, location);
      assert list == list[..n] + [list[n]];
      CoverMore(h, list[..n], list[n], location);
    }
  }

  lemma NoneCovered(h: Heap, location: Location)
    ensures Covered(h, [], location) == {}
  {}

  /** What is reported free and unmapped adds up to the statistics. */
  lemma TotalsAgree(h: Heap, list: seq<Ptr>, reported: seq<MallocRange>, live: Ptr -> int)
    requires Sound(h, {}, 0) && InOrder(h.spans, list) && |reported| == |list| && forall p :: p in list <==> p in h.spans
    requires forall i | 0 <= i < |list| :: h.spans[list[i]].length > 0 && reported[i] == Report(h.spans[list[i]], live(list[i]))
    ensures Total(reported, FREE) == PAGE_SIZE * h.stats.free && Total(reported, UNMAPPED) == PAGE_SIZE * h.stats.unmapped
    ensures Total(reported, INUSE) == PAGE_SIZE * (|h.owner| - h.stats.free - h.stats.unmapped)
  {
    hide Sound, Tiled, Report;
    StatsAgree(h);
    LocationsSplit(h.spans, h.owner);
    AllCovered(h, list, InUse);
    AllCovered(h, list, Normal);
    AllCovered(h, list, Returned);
    TotalIs(h, list, reported, live, InUse);
    TotalIs(h, list, reported, live, Normal);
    TotalIs(h, list, reported, live, Returned);
  }

  lemma AllCovered(h: Heap, list: seq<Ptr>, location: Location)
    requires Tiled(h.spans, h.owner) && forall p :: p in list <==> p in h.spans
    ensures Covered(h, list, location) == h.Pages(location)
  {
    forall q | q in h.owner
      ensures q in Covered(h, list, location) <==> q in h.Pages(location)
    {
      var p := h.owner[q];
      assert p in h.spans;
      assert p in list;
    }
    OwnedPages(h, location);
    assert forall q | q in h.Pages(location) :: q in h.owner.Keys;
  }

  /** No span straddles the page. */
  ghost predicate Boundary(h: Heap, page: int) {
    forall p | p in h.spans :: h.spans[p].End() <= page || h.spans[p].start >= page
  }

  /** Spans in address order, none twice. */
  ghost predicate InOrder(spans: SpanMap, list: seq<Ptr>) {
    && (forall i | 0 <= i < |list| :: list[i] in spans)
    && (forall i, j | 0 <= i < j < |list| :: spans[list[i]].End() <= spans[list[j]].start)
  }

  lemma OrderedAppend(spans: SpanMap, list: seq<Ptr>, p: Ptr)
    requires InOrder(spans, list) && p in spans && forall x | x in list :: spans[x].End() <= spans[p].start
    ensures InOrder(spans, list + [p])
  {
    var list' := list + [p];
    forall i, j | 0 <= i < j < |list'|
      ensures spans[list'[i]].End() <= spans[list'[j]].start
    {
      assert list'[i] == list[i];
    }
  }

  lemma FirstPage(h: Heap)
    requires Sound(h, {}, 0)
    ensures Boundary(h, 1) && forall p | p in h.spans :: h.spans[p].End() > 1
  {}

  lemma NoMoreSpans(h: Heap, page: int)
    requires Sound(h, {}, 0) && Boundary(h, page) && forall q | q in h.pagemap :: q < page
    ensures forall p | p in h.spans :: h.spans[p].End() <= page
  {
    forall p | p in h.spans
      ensures h.spans[p].End() <= page
    {
      assert Recorded(h.pagemap, h.spans[p], p);
    }
  }

  /** From a boundary, the first entry is at the first page of a span, and names that span. */
  lemma FirstIsStart(h: Heap, page: int, q: int)
    requires Sound(h, {}, 0) && Boundary(h, page) && FirstEntry(h.pagemap, page, q)
    ensures h.pagemap[q] in h.spans && h.spans[h.pagemap[q]].start == q
  {
    var o := h.owner[q];
    assert h.spans[o].Contains(q) && Recorded(h.pagemap, h.spans[o], o);
  }

  /** Every other span lies before the boundary, or behind the span at the first entry. */
  lemma OthersAfter(h: Heap, page: int, q: int, p: Ptr, x: Ptr)
    requires Sound(h, {}, 0) && Boundary(h, page) && FirstEntry(h.pagemap, page, q)
    requires p in h.spans && h.spans[p].start == q && x in h.spans && x != p
    ensures h.spans[x].length > 0 && (h.spans[x].End() <= page || h.spans[p].End() <= h.spans[x].start)
  {
    assert Recorded(h.pagemap, h.spans[x], x);
    assert h.spans[p].Contains(h.spans[x].start) ==> h.owner[h.spans[x].start] == p;
    assert h.spans[x].Contains(h.spans[x].start);
  }

  /** From a boundary, the first entry leads to the next span. */
  lemma NextSpan(h: Heap, page: int, p: Ptr)
    requires Sound(h, {}, 0) && Boundary(h, page)
    requires exists q :: FirstEntry(h.pagemap, page, q) && h.pagemap[q] == p
    ensures p in h.spans && h.spans[p].start >= page && h.spans[p].End() > page && Boundary(h, h.spans[p].End())
    ensures forall x | x in h.spans && x != p :: h.spans[x].End() <= h.spans[p].End() <==> h.spans[x].End() <= page
  {
    hide Sound;
    var q :| FirstEntry(h.pagemap, page, q) && h.pagemap[q] == p;
    FirstIsStart(h, page, q);
    Shape(h, {}, 0, p);
    forall x | x in h.spans && x != p
      ensures h.spans[x].length > 0 && (h.spans[x].End() <= page || h.spans[p].End() <= h.spans[x].start)
    {
      OthersAfter(h, page, q, p, x);
    }
  }

  lemma CutSize(h: Heap, p: Ptr, b: Ptr, n: int)
    requires CanCut(h, p, b, n)
    ensures var h' := Cutoff(h, p, b, n, InUse);
      |h'.owner| == |h.owner| && h'.stats == h.stats
  {
    assert |Cutoff(h, p, b, n, InUse).owner.Keys| == |h.owner.Keys|;
  }

  lemma EdgesRecorded(h: Heap, p: Ptr)
    requires Sound(h, {}, 0) && p in h.spans
    ensures Recorded(h.pagemap, h.spans[p], p) && h.spans[p].length > 0
  {}

  lemma RegisterKeepsCoalesced(spans: SpanMap, p: Ptr, sizeclass: int)
    requires p in spans && Coalesced(spans, {})
    ensures Coalesced(spans[p := spans[p].(sizeclass := sizeclass)], {})
  {}

  lemma RegisterKeepsApart(spans: SpanMap, p: Ptr, sizeclass: int)
    requires p in spans && Apart(spans, {})
    ensures Apart(spans[p := spans[p].(sizeclass := sizeclass)], {})
  {}

  lemma FitFacts(h: Heap, p: Ptr, n: int)
    requires BestFit(h, p, n, MAX_PAGES)
    ensures p in h.spans && h.spans[p].Free() && h.spans[p].length >= n
  {}

  lemma NoFitNotOver(h: Heap, n: int, limit: int, taken: int)
    requires NoFit(h, n, MAX_PAGES)
    ensures !OverLimit(h, n, MAX_PAGES, limit, taken) && !NormalFit(h, n)
  {}

  lemma FitRemainsAfter(h: Heap, h1: Heap, p: Ptr, n: int)
    requires Evolves(h, h1) && BestFit(h, p, n, MAX_PAGES)
    ensures !NoFit(h1, n, MAX_PAGES)
  {
    FitRemains(h, h1, p, n);
  }

  lemma CarveFacts(h: Heap, h': Heap, p: Ptr, n: int, b: Ptr, coalesced: bool)
    requires Sound(h, {}, 0) && CanCarve(h, p, n, b) && h' == Carved(h, p, n, b)
    requires coalesced ==> Coalesced(h.spans, {})
    ensures Sound(h', {}, 0) && Allocated(h, h', p, n) && |h'.owner| == |h.owner| && h'.leaked == h.leaked
    ensures h'.stats.system == h.stats.system && p in h'.spans && h'.spans[p].start == h.spans[p].start
    ensures coalesced ==> Coalesced(h'.spans, {})
    ensures Apart(h.spans, {}) ==> Apart(h'.spans, {})
    ensures Range(h.spans[p].start, n) <= h.Pages(h.spans[p].location)
    ensures h'.stats.unmapped == h.stats.unmapped - if h.spans[p].location == Returned then n else 0
    ensures h'.stats.free == h.stats.free - if h.spans[p].location == Normal then n else 0
  {
    hide Sound, Carved, Allocated, Coalesced, Apart, Evolves, Tiled, At, Range;
    IsTiled(h, {}, 0);
    Stays(h);
    CarvedTiles(h, p, n, b);
    CarveKeepsSound(h, p, n, b);
    CarveFrame(h, p, n, b);
    CarveCounts(h, p, n, b);
    CarveAllocates(h, h, p, n, b);
    CarveMovesPages(h, p, n, b, InUse);
    if coalesced {
      CarveKeepsCoalesced(h, p, n, b);
    }
    if Apart(h.spans, {}) {
      CarveKeepsApart(h, p, n, b);
    }
  }

  /** The span `p` of `h'` consists of pages that were normal in `h`. */
  ghost predicate FromNormal(h: Heap, h': Heap, p: Ptr, n: int) {
    n > 0 && p in h'.spans && Range(h'.spans[p].start, n) <= h.Pages(Normal)
  }

  lemma NormalsCarved(h: Heap, h': Heap, p: Ptr, n: int)
    requires n > 0 && p in h'.spans && Range(h'.spans[p].start, n) <= h.Pages(Normal)
    ensures FromNormal(h, h', p, n)
  {}

  lemma NormalsSince(h: Heap, h1: Heap, h2: Heap, p: Ptr, n: int)
    requires Sound(h, {}, 0) && Sound(h1, {}, 0) && Evolves(h, h1) && FromNormal(h1, h2, p, n)
    ensures FromNormal(h, h2, p, n)
  {
    hide Sound, At, Tiled, Used, Spread, Range;
    IsTiled(h, {}, 0);
    IsTiled(h1, {}, 0);
    EvolveCounts(h, h1);
  }

  /** How many pages to wait for after releasing some: a thousand for each at rate one. */
  function Delay(released: int, rate: real): int
    requires rate > 0.0
  {
    var wait := 1000.0 / rate * released as real;
    if wait > MAX_RELEASE_DELAY as real then MAX_RELEASE_DELAY else wait.Floor
  }

  /** The wait is the whole number of pages at which the rate is kept, up to the longest wait. */
  lemma DelayMeans(released: int, rate: real)
    requires released > 0 && rate > 0.0
    ensures var d := Delay(released, rate);
      && 0 <= d <= MAX_RELEASE_DELAY
      && (d as real) * rate <= 1000.0 * released as real
      && (d < MAX_RELEASE_DELAY ==> 1000.0 * released as real < (d as real + 1.0) * rate)
  {
    var wait := 1000.0 / rate * released as real;
    assert wait * rate == 1000.0 * released as real;
    assert wait >= 0.0;
    var d := Delay(released, rate);
    assert d as real <= wait;
    RealMul(d as real, wait, rate);
    if d < MAX_RELEASE_DELAY {
      RealMulLess(wait, d as real + 1.0, rate);
    }
  }

  lemma RealMul(a: real, b: real, c: real)
    requires a <= b && c > 0.0
    ensures a * c <= b * c
  {}

  lemma RealMulLess(a: real, b: real, c: real)
    requires a < b && c > 0.0
    ensures a * c < b * c
  {}

  lemma SameMates(h: Heap, h1: Heap, h': Heap, p: Ptr)
    requires p in h.spans && h1 == Relocated(h, p, Normal) && GivenBack(h1, h', p)
    ensures GivenBack(h, h', p)
  {
    hide At;
    forall x, q: int | x in h.spans && (x == p || Mates(h, p, x, true)) && h.spans[x].Contains(q)
      ensures q in h'.Pages(Returned)
    {
      assert x in h1.spans && (x == p || Mates(h1, p, x, true)) && h1.spans[x].Contains(q);
    }
  }

  lemma AllGivenBack(h: Heap, h1: Heap, h2: Heap, h': Heap, p: Ptr)
    requires p in h.spans && h1 == Relocated(h, p, Normal) && Sound(h2, {}, 0)
    requires MergedExactly(h1, h2, p, true) && Evolves(h2, h')
    ensures GivenBack(h, h', p)
  {
    hide Sound, MergedExactly, GivenBack, Evolves;
    ExactlyGivesBack(h1, h2, p);
    StaysGivenBack(h1, h2, h', p);
    SameMates(h, h1, h', p);
  }

  lemma FreeAfterFreeing(h: Heap, h1: Heap, h2: Heap, p: Ptr)
    requires Sound(h, {}, 0) && Sound(h2, {}, 0) && p in h.spans && h.spans[p].length > 0 && Evolves(h1, h2)
    requires h1.Pages(Normal) == h.Pages(Normal) + Range(h.spans[p].start, h.spans[p].length)
    ensures h2.stats.free <= h.stats.free + h.spans[p].length
  {
    hide Sound, At, Tiled, Used;
    StatsAgree(h);
    StatsAgree(h2);
    var own := Range(h.spans[p].start, h.spans[p].length);
    assert |own| == h.spans[p].length;
    assert |h.Pages(Normal) + own| <= |h.Pages(Normal)| + |own|;
    SubsetSize(h2.Pages(Normal), h.Pages(Normal) + own);
  }

  lemma FreedIsNormal(h: Heap, h1: Heap, h': Heap, p: Ptr)
    requires p in h.spans && h.spans[p].length > 0 && SamePages(h1, h')
    requires h1.Pages(Normal) == h.Pages(Normal) + Range(h.spans[p].start, h.spans[p].length)
    requires h1.Pages(Returned) == h.Pages(Returned)
    ensures h'.Pages(Normal) == h.Pages(Normal) + Range(h.spans[p].start, h.spans[p].length)
    ensures h'.Pages(Returned) == h.Pages(Returned)
  {
    hide At, Range;
  }

  /** Even with every normal page released and nothing refused or denied, no `n` pages can be had. */
  ghost predicate Unobtainable(h: Heap, n: int, limit: int, taken: int) {
    || n > MAX_VALID_PAGES
    || (&& limit != 0 && h.stats.free < taken - h.stats.unmapped + n - limit
        && (NoFit(h, n, 0) || OverLimit(h, n, 0, limit, taken)))
  }

  lemma NotOver(h: Heap, n: int, limit: int, taken: int)
    requires limit == 0 || h.stats.free >= taken - h.stats.unmapped + n - limit
    ensures !OverLimit(h, n, 0, limit, taken)
  {}

  lemma FewerNormal(h: Heap, h': Heap, r: Option<Ptr>, n: int)
    requires if r.Some? then Allocated(h, h', r.value, n) else Evolves(h, h')
    ensures h'.Pages(Normal) <= h.Pages(Normal)
  {}

  /** If nothing was normal at some time, what had been normal before it is not normal after it. */
  lemma NoneLeft(h: Heap, h2: Heap, h': Heap)
    requires Sound(h2, {}, 0) && h2.stats.free == 0 && h.owner.Keys <= h2.owner.Keys && Thins(h2, h')
    ensures h.Pages(Normal) !! h'.Pages(Normal)
  {
    hide Sound, At;
    StatsAgree(h2);
    OwnedPages(h, Normal);
    forall q | q in h.Pages(Normal)
      ensures q !in h'.Pages(Normal)
    {
      assert q in h.owner.Keys && q in h2.owner.Keys;
    }
  }

  lemma UnobtainableIff(h: Heap, n: int, limit: int, taken: int)
    ensures Unobtainable(h, n, limit, taken) <==>
      || n > MAX_VALID_PAGES
      || (&& limit != 0 && h.stats.free + h.stats.unmapped < taken + n - limit
          && (NoFit(h, n, 0) || OverLimit(h, n, 0, limit, taken)))
    ensures OverLimit(h, n, 0, limit, taken) ==> limit != 0 && h.stats.free + h.stats.unmapped < taken + n - limit
  {}

  lemma OwnedPages(h: Heap, location: Location)
    ensures h.Pages(location) <= h.owner.Keys
  {}

  lemma ExtendsFacts(h: Heap, h': Heap)
    requires Extends(h, h')
    ensures h.owner.Keys <= h'.owner.Keys && Thins(h, h')
  {}

  lemma FreeIsFew(h: Heap)
    requires Sound(h, {}, 0)
    ensures 0 <= h.stats.free <= |h.owner|
  {
    hide Sound, At, Tiled;
    StatsAgree(h);
    LocationsSplit(h.spans, h.owner);
  }

  /** A new region, however it was merged, adds its length to the free pages. */
  lemma FreeAfterGrowth(h: Heap, h': Heap, g: int)
    requires Sound(h, {}, 0) && Sound(h', {}, 0) && Extends(h, h') && |h'.owner| == |h.owner| + g
    ensures h'.stats.free + h'.stats.unmapped == h.stats.free + h.stats.unmapped + g
  {
    hide Sound, At, Used, Spread, Tiled, Thins;
    StatsAgree(h);
    StatsAgree(h');
    LocationsSplit(h.spans, h.owner);
    LocationsSplit(h'.spans, h'.owner);
  }

  class PageHeap {
    /** Every span handed out has a multiple of this many pages; a power of two. */
    const smallest: int
    var spans: SpanMap
    var pagemap: PageMap
    var lists: Lists
    var stats: Stats
    var releaseIndex: int
    var aggressive: bool
    /** The heap limit in pages; zero for none. */
    var limit: int
    /** Pages taken from the system (TCMalloc_SystemTaken). */
    var taken: int
    var scavengeCounter: int
    /** How fast to release memory; next to nothing for not at all. */
    var releaseRate: real
    var cache: Cache
    ghost var owner: PageMap
    ghost var leaked: int
    /** The spans in use whose state in the size-class cache has been set up. */
    ghost var settled: set<Ptr>
    /** How often the system has refused to take memory back. */
    ghost var refusals: nat
    /** How often the system has not given memory, or the page map could not be extended over it. */
    ghost var denials: nat
    /** The lists that were looked at for something to release. */
    ghost var visits: seq<int>
    /** How many pages the system has been asked for, each time. */
    ghost var asked: seq<int>
    /** Whether aggressive decommit has been off ever since construction. */
    ghost var lazy: bool

    ghost function View(): Heap
      reads `spans, `pagemap, `lists, `stats, `owner, `leaked
    {
      Heap(spans, pagemap, lists, stats, owner, leaked)
    }

    ghost predicate Core()
      reads `spans, `pagemap, `lists, `stats, `owner, `leaked, `lazy, `aggressive, `limit, `taken
    {
      && Sound(View(), {}, 0)
      && Apart(spans, {})
      && (lazy ==> !aggressive && Coalesced(spans, {}))
      && stats.system <= taken
      && |owner| < INT_LIMIT
      && 0 <= limit
    }

    ghost predicate Valid()
      reads this
    {
      Core() && 0 <= releaseIndex <= MAX_PAGES + 1 && IsPow2(smallest)
    }

    lemma CoreFacts()
      requires Core()
      ensures Sound(View(), {}, 0)
      ensures stats.free >= 0 && stats.unmapped >= 0 && stats.free + stats.unmapped <= stats.system <= taken
    {
      StatsAgree(View());
    }

    /** Gives memory back to the system, which may not support that. */
    method DecommitSpan(p: Ptr) returns (released: bool)
      requires p in spans
      modifies `stats, `refusals
      ensures View() == if released then Committed(old(View()), -spans[p].length) else old(View())
      ensures refusals == old(refusals) + if released then 0 else 1
    {
      released := *;
      if released {
        stats := stats.(committed := stats.committed - spans[p].length);
      } else {
        refusals := refusals + 1;
      }
    }

    method CommitSpan(p: Ptr)
      requires p in spans
      modifies `stats
      ensures View() == Committed(old(View()), spans[p].length)
    {
      stats := stats.(committed := stats.committed + spans[p].length);
    }

    method RemoveFromFreeList(p: Ptr)
      requires p in spans
      modifies `lists, `stats
      ensures View() == Removed(old(View()), p)
    {
      var s := spans[p];
      if s.location == Normal {
        stats := stats.(free := stats.free - s.length);
      } else {
        stats := stats.(unmapped := stats.unmapped - s.length);
      }
      lists := Delist(lists, p, s);
    }

    method PrependToFreeList(p: Ptr)
      requires p in spans
      modifies `lists, `stats
      ensures View() == Prepended(old(View()), p)
    {
      var s := spans[p];
      if s.location == Normal {
        stats := stats.(free := stats.free + s.length);
      } else {
        stats := stats.(unmapped := stats.unmapped + s.length);
      }
      lists := Enlist(lists, p, s);
    }

    method CheckAndHandlePreMerge(s: Ptr, q: int) returns (other: Option<Ptr>, ghost released: bool)
      requires s in spans && (q in pagemap ==> pagemap[q] in spans)
      modifies `lists, `stats, `refusals
      ensures refusals == old(refusals) + if old(Drags(View(), s, q, aggressive)) && !released then 1 else 0
      ensures other.None? <==> q !in pagemap || !Joins(old(View()), s, pagemap[q], aggressive, released)
      ensures other.None? ==> View() == old(View())
      ensures other.Some? ==> q in pagemap && other.value == pagemap[q] && View() == Unlisted(old(View()), s, other.value)
    {
      released := false;
      if q !in pagemap {
        return None, released;
      }
      var x := pagemap[q];
      if aggressive && spans[x].location == Normal && spans[s].location == Returned {
        var worked := DecommitSpan(x);
        released := worked;
        if !worked {
          return None, released;
        }
      } else if spans[x].location != spans[s].location {
        return None, released;
      }
      RemoveFromFreeList(x);
      return Some(x), released;
    }

    /** The span grows over its neighbour, whose descriptor is deleted. */
    method Absorb(p: Ptr, x: Ptr, left: bool)
      requires p in spans && x in spans && p != x && spans[x].length > 0 && spans[p].length > 0
      requires if left then spans[x].End() == spans[p].start else spans[p].End() == spans[x].start
      modifies `spans, `pagemap, `owner
      ensures View() == Absorbed(old(View()), p, x)
    {
      hide Reowned;
      var len := spans[x].length;
      // DeleteSpan
      spans := spans - {x};
      if left {
        spans := spans[p := spans[p].(start := spans[p].start - len, length := spans[p].length + len)];
        pagemap := pagemap[spans[p].start := p];
      } else {
        spans := spans[p := spans[p].(length := spans[p].length + len)];
        pagemap := pagemap[spans[p].End() - 1 := p];
      }
      owner := Reowned(owner, x, p);
    }

    /** Merges the span with its neighbour on one side, if they can be merged. */
    method MergeOneSide(p: Ptr, q: int, left: bool) returns (ghost released: bool)
      requires Sound(View(), {p}, 0) && Beside(View(), p, q)
      requires q == if left then spans[p].start - 1 else spans[p].End()
      modifies `spans, `pagemap, `lists, `stats, `owner, `refusals
      ensures View() == Joined(old(View()), p, q, aggressive, released)
      ensures refusals == old(refusals) + if old(Drags(View(), p, q, aggressive)) && !released then 1 else 0
    {
      hide Sound, Delist, Absorbed;
      Neighbour(View(), p, q);
      var other;
      other, released := CheckAndHandlePreMerge(p, q);
      if other.Some? {
        Absorb(p, other.value, left);
      }
    }

    /** In aggressive mode decommits a normal span that is about to be merged. */
    method LoosenSpan(p: Ptr) returns (ghost own: bool)
      requires p in spans && spans[p].sizeclass == 0
      modifies `spans, `stats, `refusals
      ensures View() == Loosened(old(View()), p, aggressive, own)
      ensures refusals == old(refusals) + if aggressive && old(spans[p].location) == Normal && !own then 1 else 0
    {
      own := false;
      if aggressive && spans[p].location == Normal {
        var worked := DecommitSpan(p);
        own := worked;
        if worked {
          spans := spans[p := spans[p].(location := Returned)];
        }
      }
    }

    /** Merges a freed span with its neighbours and lists the result.  No span in use is touched
        and no page changes location, except that in aggressive mode normal pages may be returned:
        those of the span, or of a neighbour of a returned span. */
    method MergeIntoFreeList(p: Ptr)
      requires Sound(View(), {p}, 0) && p in spans && spans[p].Free() && spans[p].sizeclass == 0
      requires Apart(spans, {p})
      requires lazy ==> !aggressive && Coalesced(spans, {p})
      modifies `spans, `pagemap, `lists, `stats, `owner, `refusals
      ensures Sound(View(), {}, 0)
      ensures Apart(spans, {})
      ensures lazy ==> Coalesced(spans, {})
      ensures Evolves(old(View()), View())
      ensures refusals >= old(refusals)
      ensures old(Gentle(View(), p, aggressive)) ==> SamePages(old(View()), View()) && refusals == old(refusals)
      ensures refusals == old(refusals) ==> MergedExactly(old(View()), View(), p, aggressive)
    {
      hide Sound, Coalesced, Apart, Joined, Evolves, SamePages, Enlist, Drags, Loosened, MergedExactly;
      var start, end := spans[p].start, spans[p].End();
      ghost var own, left, right;
      own := LoosenSpan(p);
      ghost var h0 := View();
      LoosenKeepsSound(old(View()), p, aggressive, own);
      LoosenShape(old(View()), p, aggressive, own);
      if !aggressive {
        NoDrag(h0, p, start - 1, aggressive);
        NoDrag(h0, p, end, aggressive);
      }

      left := MergeOneSide(p, start - 1, true);
      ghost var h1 := View();
      JoinKeepsSound(h0, p, start - 1, aggressive, left);
      JoinShape(h0, p, start - 1, aggressive, left);
      JoinKeepsRight(h0, p, start - 1, end, aggressive, left);

      right := MergeOneSide(p, end, false);
      PrependToFreeList(p);

      assert View() == Merged(old(View()), p, aggressive, own, left, right);
      MergeKeepsSound(old(View()), p, aggressive, own, left, right);
      MergeKeepsApart(old(View()), p, aggressive, own, left, right);
      if refusals == old(refusals) {
        MergeIsExact(old(View()), p, aggressive, own, left, right);
      }
      if lazy {
        MergeCoalescesIff(old(View()), p, aggressive, own, left, right);
      }
    }

    /** Decommits a normal span and moves it to the returned lists; zero exactly if the system
        refuses.  No page but its own changes location. */
    method ReleaseSpan(p: Ptr) returns (n: int)
      requires Core() && p in spans && spans[p].location == Normal
      modifies `spans, `pagemap, `lists, `stats, `owner, `refusals
      ensures Core()
      ensures Evolves(old(View()), View())
      ensures n == 0 ==> View() == old(View()) && refusals == old(refusals) + 1
      ensures n != 0 ==> n == old(spans)[p].length > 0 && refusals == old(refusals)
      ensures n != 0 ==> stats.free == old(stats.free) - n
      ensures n != 0 ==> View().Pages(Returned) == old(View()).Pages(Returned) + Range(old(spans)[p].start, n)
    {
      hide Sound, Coalesced, Apart, Gentle, At, Used, Delist, Evolves, SamePages, Tiled, Range, Removed;
      Stays(View());
      FreeHasNoClass(View(), {}, 0, p);
      WithdrawKeepsSound(View(), p);
      var worked := DecommitSpan(p);
      if !worked {
        return 0;
      }
      RemoveFromFreeList(p);
      n := spans[p].length;
      spans := spans[p := spans[p].(location := Returned)];
      assert View() == Withdrawn(old(View()), p);
      WithdrawnIsGentle(old(View()), p, aggressive);
      SkipKeepsApart(old(spans), p, spans[p]);
      if lazy {
        SkipKeepsCoalesced(old(spans), p, spans[p]);
      }
      MergeIntoFreeList(p);
      ReleaseCounts(old(View()), View(), p);
      EvolveSize(old(View()), View());
    }

    /** The least element of a set of long spans that is above a span of `n` pages at page 0. */
    method UpperBound(entries: set<Entry>, n: int) returns (r: Option<Entry>)
      requires forall e | e in entries :: e.span in spans && spans[e.span].start > 0
      ensures LeastOf(spans, entries, n, r)
    {
      r := None;
      var todo := entries;
      while todo != {}
        invariant todo <= entries
        invariant LeastOf(spans, entries - todo, n, r)
        decreases todo
      {
        var e :| e in todo;
        todo := todo - {e};
        if (e.length > n || (e.length == n && spans[e.span].start > 0)) && (r.None? || BestFitLess(spans, e, r.value)) {
          r := Some(e);
        }
      }
    }

    /** The span to release first among those at index `k` of the lists: the last of a short list,
        the least of the long spans. */
    method NextToRelease(k: int) returns (p: Ptr)
      requires Sound(View(), {}, 0) && 0 <= k <= MAX_PAGES && !NoneAt(lists, k)
      ensures p in spans && spans[p].location == Normal
      ensures if k < MAX_PAGES then spans[p].length == k + 1 else spans[p].length > MAX_PAGES
      ensures NextUp(View(), k, p)
    {
      hide Sound;
      if k == MAX_PAGES {
        EntriesAreSpans(View());
        var least := UpperBound(lists.largeNormal, 0);
        p := least.value.span;
        ListedIsFree(View(), p, least.value.length);
      } else {
        var list := Slot(lists.normal, k + 1);
        p := list[|list| - 1];
        ListedIsFree(View(), p, k + 1);
      }
    }

    /** Releases one span from the list whose turn it is; zero pages if that list is empty or the
        system refuses. */
    method ReleaseNext() returns (len: int, stop: bool)
      requires Valid()
      modifies `spans, `pagemap, `lists, `stats, `owner, `releaseIndex, `visits, `refusals
      ensures Valid() && releaseIndex == Place(old(releaseIndex))
      ensures Evolves(old(View()), View())
      ensures refusals == old(refusals) + if stop then 1 else 0
      ensures stop ==> len == 0
      ensures len == 0 ==> View() == old(View()) && (stop || NoneAt(lists, releaseIndex))
      ensures len != 0 ==> len > 0 && stats.free == old(stats.free) - len
      ensures len != 0 ==> exists p ::
        && NextUp(old(View()), releaseIndex, p) && len == old(spans)[p].length
        && View().Pages(Returned) == old(View()).Pages(Returned) + Range(old(spans)[p].start, len)
      ensures visits == old(visits) + [releaseIndex]
    {
      hide Core, Sound, Evolves, NoneAt, At, Range, NextUp;
      Stays(View());
      CoreFacts();
      if releaseIndex > MAX_PAGES {
        releaseIndex := 0;
      }
      visits := visits + [releaseIndex];
      if NoneAt(lists, releaseIndex) {
        return 0, false;
      }
      var p := NextToRelease(releaseIndex);
      len := ReleaseSpan(p);
      stop := len == 0;
    }

    /** One round over the lists: releases a span from each until `num` pages have been released.
        The round makes progress unless the system refuses. */
    method ReleaseRound(num: int) returns (released: int, stop: bool)
      requires Valid() && stats.free > 0 && num > 0
      modifies `spans, `pagemap, `lists, `stats, `owner, `releaseIndex, `visits, `refusals
      ensures Valid()
      ensures Evolves(old(View()), View())
      ensures refusals == old(refusals) + if stop then 1 else 0
      ensures stop || stats.free < old(stats.free)
      ensures 0 <= released == old(stats.free) - stats.free
      ensures InTurn(old(visits), visits, old(releaseIndex))
      ensures !stop ==> Place(releaseIndex) == Place(old(releaseIndex) + |visits| - |old(visits)|)
    {
      hide Core, Sound, Evolves, NoneAt, NoneAtStep, InTurn, Place, NextUp, Range, At;
      released, stop := 0, false;
      var i := 0;
      ghost var h, first := View(), releaseIndex;
      Stays(h);
      CoreFacts();
      SameTurn(visits, first);
      while i < MAX_PAGES + 1 && released < num
        invariant Valid() && Evolves(h, View())
        invariant !stop && refusals == old(refusals)
        invariant 0 <= i <= MAX_PAGES + 1
        invariant 0 <= released == h.stats.free - stats.free
        invariant |visits| == |old(visits)| + i && InTurn(old(visits), visits, first)
        invariant Place(releaseIndex) == Place(first + i)
        invariant released == 0 ==> View() == h && forall j | 0 <= j < i :: NoneAtStep(h.lists, first, j)
      {
        ghost var before, seen := View(), visits;
        var len;
        len, stop := ReleaseNext();
        NextTurn(old(visits), seen, first, releaseIndex);
        EvolveOn(h, before, View());
        if stop {
          return;
        }
        released := released + len;
        StepIs(before.lists, first, i, releaseIndex);
        i, releaseIndex := i + 1, releaseIndex + 1;
      }
      if released == 0 {
        RoundReachesAll(h.lists, first);
        NoneAnywhere(h);
      }
    }

    /** Releases normal spans, list by list in turn, until at least `num` pages have been released,
        nothing normal is left, or the system refuses.  The count is exact. */
    method ReleaseAtLeastNPages(num: int) returns (released: int)
      requires Valid()
      modifies `spans, `pagemap, `lists, `stats, `owner, `releaseIndex, `visits, `refusals
      ensures Valid()
      ensures Evolves(old(View()), View())
      ensures released >= num || stats.free == 0 || refusals > old(refusals)
      ensures refusals >= old(refusals)
      ensures 0 <= released == old(stats.free) - stats.free
      ensures num <= 0 ==> View() == old(View()) && refusals == old(refusals)
      ensures InTurn(old(visits), visits, old(releaseIndex))
      ensures refusals == old(refusals) ==>
        Place(releaseIndex) == Place(old(releaseIndex) + |visits| - |old(visits)|)
    {
      hide Core, Sound, Evolves, InTurn, Place;
      released := 0;
      SameTurn(visits, releaseIndex);
      ghost var h := View();
      Stays(h);
      CoreFacts();
      while released < num && stats.free > 0
        invariant Valid() && stats.free >= 0 && Evolves(h, View())
        invariant refusals == old(refusals)
        invariant 0 <= released == h.stats.free - stats.free
        invariant num <= 0 ==> View() == h
        invariant InTurn(old(visits), visits, old(releaseIndex))
        invariant Place(releaseIndex) == Place(old(releaseIndex) + |visits| - |old(visits)|)
        decreases stats.free
      {
        ghost var before, index, seen := View(), releaseIndex, visits;
        var more, stop := ReleaseRound(num - released);
        TurnsJoin(old(visits), seen, visits, old(releaseIndex), index, releaseIndex);
        EvolveOn(h, before, View());
        CoreFacts();
        released := released + more;
        if stop {
          return;
        }
      }
    }

    /** Whether `n` more pages may be taken without exceeding the heap limit, after releasing normal
        spans to make room if that is allowed. */
    method EnsureLimit(n: int, withRelease: bool) returns (ok: bool)
      requires Valid() && n > 0
      modifies `spans, `pagemap, `lists, `stats, `owner, `releaseIndex, `visits, `refusals
      ensures Valid()
      ensures Evolves(old(View()), View()) && refusals >= old(refusals)
      ensures ok <==> limit == 0 || taken - stats.unmapped + n <= limit
      ensures limit == 0 || !withRelease || old(taken - stats.unmapped) + n <= limit ==>
        View() == old(View()) && refusals == old(refusals)
      ensures old(taken - stats.unmapped) + n > limit && ok ==> limit == 0 || stats.free < old(stats.free)
      ensures ok ==> limit == 0 || old(stats.free) >= old(taken - stats.unmapped) + n - limit
      ensures !ok && withRelease && refusals == old(refusals) ==>
        stats.free == 0 && old(stats.free) < old(taken - stats.unmapped) + n - limit
    {
      hide Core, Sound, Evolves;
      CoreFacts();
      Stays(View());
      if limit == 0 {
        return true;
      }
      var takenPages := taken - stats.unmapped;
      if takenPages + n > limit && withRelease {
        ghost var h := View();
        var released := ReleaseAtLeastNPages(takenPages + n - limit);
        CoreFacts();
        UnmappedGrows(h, View());
        takenPages := takenPages - released;
      }
      ok := takenPages + n <= limit;
    }

    /** A descriptor address that is not in use; it may well have been in use before. */
    method NewSpan(span: Span) returns (b: Ptr)
      modifies `spans
      ensures b !in old(spans)
      ensures spans == old(spans)[b := span]
    {
      b := *;
      if b in spans {
        ghost var rest := spans.Keys;
        while b in spans
          invariant forall x | x in spans && x >= b :: x in rest
          decreases rest
        {
          rest := rest - {b};
          b := b + 1;
        }
      }
      spans := spans[b := span];
    }

    method RecordSpan(p: Ptr)
      requires p in spans
      modifies `pagemap
      ensures pagemap == Recording(old(pagemap), spans[p], p)
    {
      pagemap := pagemap[spans[p].start := p];
      if spans[p].length > 1 {
        pagemap := pagemap[spans[p].start + spans[p].length - 1 := p];
      }
    }

    /** Shortens a span to `n` pages and makes the `extra` pages behind it a span of their own. */
    method CutSpan(p: Ptr, n: int, extra: int, location: Location) returns (b: Ptr)
      requires p in spans
      modifies `spans, `pagemap, `owner
      ensures b !in old(spans) && View() == CutAs(old(View()), p, b, n, location, extra)
      ensures b in spans && p in spans && spans[p].length == n
    {
      hide Cut, Recording;
      b := NewSpan(Span(spans[p].start + n, extra, location, 0));
      RecordSpan(b);
      pagemap := pagemap[spans[p].start + n - 1 := p];
      spans := spans[p := spans[p].(length := n)];
      owner := Cut(owner, b, spans[b]);
    }

    /** Takes the first `n` pages of a free span, leaving the rest on the list it now belongs to, if
        it has fewer than 2^31 pages; what happens otherwise depends on what a conversion to int
        makes of their number. */
    method Carve(p: Ptr, n: int) returns (ghost b: Ptr)
      requires Sound(View(), {}, 0) && p in spans && spans[p].Free() && 0 < n <= spans[p].length
      modifies `spans, `pagemap, `lists, `stats, `owner
      ensures ToInt32(old(spans[p].length) - n) > 0 ==> b !in old(spans)
      ensures View() == CarvedAs(old(View()), p, n, b, ToInt32(old(spans[p].length) - n))
      ensures p in spans
      ensures old(spans[p].length - n < INT_LIMIT || Core()) ==>
        && Sound(View(), {}, 0) && Allocated(old(View()), View(), p, n) && spans[p].start == old(spans)[p].start
        && stats.unmapped == old(stats.unmapped) - (if old(spans)[p].location == Returned then n else 0)
        && stats.free == old(stats.free) - (if old(spans)[p].location == Normal then n else 0)
        && Range(spans[p].start, n) <= old(View()).Pages(old(spans)[p].location)
      ensures old(Core()) ==> Core()
    {
      hide Sound, Coalesced, Apart, Removed, Prepended, CutAs, Carved, Evolves, Allocated, Tiled, At, Range, ToInt32;
      ghost var h := View();
      var location := spans[p].location;
      LengthBound(h, p);
      b := p;
      RemoveFromFreeList(p);
      FreeHasNoClass(h, {}, 0, p);
      spans := spans[p := spans[p].(location := InUse)];
      assert View() == Relocated(Removed(h, p), p, InUse);
      var extra := ToInt32(spans[p].length - n);
      if extra > 0 {
        var leftover := CutSpan(p, n, extra, location);
        b := leftover;
        PrependToFreeList(leftover);
      }
      if location == Returned {
        CommitSpan(p);
      }
      if h.spans[p].length - n < INT_LIMIT {
        CarvedAsCarved(h, p, n, b);
        CarveFacts(h, View(), p, n, b, lazy && Coalesced(h.spans, {}));
      }
    }

    /** Carves a normal span, in a heap that has evolved from `h`. */
    method TakeNormal(ghost h: Heap, p: Ptr, n: int)
      requires Valid() && Sound(h, {}, 0) && Evolves(h, View())
      requires p in spans && spans[p].location == Normal && 0 < n <= spans[p].length
      modifies `spans, `pagemap, `lists, `stats, `owner
      ensures Valid() && stats.unmapped == old(stats.unmapped)
      ensures Allocated(h, View(), p, n) && FromNormal(h, View(), p, n)
    {
      hide Core, Sound, Evolves, Allocated, FromNormal, At, Range;
      ghost var h1 := View();
      CoreFacts();
      ghost var b := Carve(p, n);
      AllocateAfter(h, h1, View(), p, n);
      NormalsCarved(h1, View(), p, n);
      NormalsSince(h, h1, View(), p, n);
    }

    /** Carves a returned span, in a heap that has evolved from `h`. */
    method TakeReturned(ghost h: Heap, p: Ptr, n: int)
      requires Valid() && Evolves(h, View())
      requires p in spans && spans[p].location == Returned && 0 < n <= spans[p].length
      modifies `spans, `pagemap, `lists, `stats, `owner
      ensures Valid() && stats.unmapped == old(stats.unmapped) - n
      ensures Allocated(h, View(), p, n)
    {
      hide Core, Sound, Evolves, Allocated, At, Range;
      ghost var h1 := View();
      CoreFacts();
      ghost var b := Carve(p, n);
      AllocateAfter(h, h1, View(), p, n);
    }

    /** The best fit among the long spans, whether it is normal, and whether a normal one fits at all. */
    method BestLarge(n: int) returns (best: Option<Ptr>, isNormal: bool, hasNormal: bool)
      requires Sound(View(), {}, 0)
      ensures best.None? ==> NoFit(View(), n, MAX_PAGES)
      ensures best.Some? ==> BestFit(View(), best.value, n, MAX_PAGES) && (isNormal <==> spans[best.value].location == Normal)
      ensures hasNormal <==> NormalFit(View(), n)
      ensures best.Some? && isNormal ==> hasNormal
    {
      EntriesAreSpans(View());
      var normal := UpperBound(lists.largeNormal, n);
      var returned := UpperBound(lists.largeReturned, n);
      LargeBestFit(View(), n, normal, returned);
      hasNormal := normal.Some?;
      if returned.Some? && (normal.None? || returned.value.length < normal.value.length) {
        best, isNormal := Some(returned.value.span), false;
      } else {
        best, isNormal := if normal.Some? then Some(normal.value.span) else None, true;
      }
      forall x | x in spans && spans[x].location == Normal && spans[x].length > MAX_PAGES
        ensures Entry(x, spans[x].length) in lists.largeNormal
      {
        assert Listed(lists, x, spans[x]);
      }
    }

    /** The best fit among the long spans.  A returned one is taken only within the heap limit, after
        releasing normal spans if need be; then the search is repeated, at most once.  Unless the
        system refuses to take memory back, it fails exactly if nothing fits, or the best fit is
        returned and the limit leaves no room. */
    method AllocLarge(n: int) returns (r: Option<Ptr>, ghost retries: int)
      requires Valid() && n > 0
      modifies `spans, `pagemap, `lists, `stats, `owner, `releaseIndex, `visits, `refusals
      ensures Valid() && refusals >= old(refusals)
      ensures r.None? ==> Evolves(old(View()), View())
      ensures r.Some? ==> Allocated(old(View()), View(), r.value, n)
      ensures limit == 0 && r.None? ==> View() == old(View())
      ensures limit == 0 && r.Some? ==> BestFit(old(View()), r.value, n, MAX_PAGES)
      ensures limit == 0 || old(taken - stats.unmapped) + n <= limit ==>
        retries == 0 && (r.None? <==> NoFit(old(View()), n, MAX_PAGES))
      ensures retries <= 1
      ensures r.Some? && limit != 0 ==>
        || taken - stats.unmapped <= limit
        || (taken - stats.unmapped <= old(taken - stats.unmapped) && FromNormal(old(View()), View(), r.value, n))
      ensures r.None? <== NoFit(old(View()), n, MAX_PAGES) || OverLimit(old(View()), n, MAX_PAGES, limit, old(taken))
      ensures r.None? && refusals == old(refusals) ==>
        NoFit(old(View()), n, MAX_PAGES) || OverLimit(old(View()), n, MAX_PAGES, limit, old(taken))
      ensures r.None? && NormalFit(old(View()), n) ==> refusals > old(refusals) || old(taken - stats.unmapped) > limit
      decreases stats.free
    {
      hide Core, Sound, Evolves, Allocated, BestFit, NoFit, NormalFit, OverLimit, FromNormal, At, Range;
      ghost var h := View();
      retries := 0;
      CoreFacts();
      Stays(h);
      var best, isNormal, hasNormal := BestLarge(n);
      if best.None? {
        NoFitNotOver(h, n, limit, taken);
        return None, retries;
      }
      FitFacts(h, best.value, n);
      OverLimitIff(h, best.value, n, MAX_PAGES, limit, taken);
      if isNormal {
        TakeNormal(h, best.value, n);
        return best, retries;
      }
      var ok := EnsureLimit(n, false);
      if ok {
        TakeReturned(h, best.value, n);
        return best, retries;
      }
      ok := EnsureLimit(n, true);
      ghost var h1 := View();
      CoreFacts();
      UnmappedGrows(h, h1);
      if ok {
        r, retries := AllocLarge(n);
        retries := retries + 1;
        FitRemainsAfter(h, h1, best.value, n);
        AllocateAfter(h, h1, View(), r.value, n);
        if FromNormal(h1, View(), r.value, n) {
          NormalsSince(h, h1, View(), r.value, n);
        }
        return;
      }
      if hasNormal && taken - h.stats.unmapped <= limit {
        NormalFitMakesRoom(h, n, limit, taken);
      }
      r := None;
    }

    /** Looks for a span of `s` pages, in a heap that has evolved from `h`. */
    method SearchLength(ghost h: Heap, n: int, s: int) returns (r: Option<Ptr>)
      requires Valid() && 0 < n <= s <= MAX_PAGES && Sound(h, {}, 0) && Evolves(h, View())
      modifies `spans, `pagemap, `lists, `stats, `owner, `releaseIndex, `visits, `refusals
      ensures Valid() && refusals >= old(refusals)
      ensures r.None? ==> Evolves(h, View()) && stats.unmapped >= old(stats.unmapped)
      ensures r.Some? ==> Allocated(h, View(), r.value, n)
      ensures limit == 0 ==> refusals == old(refusals) && (r.None? ==> View() == old(View()))
      ensures limit == 0 && r.Some? && old(Untouched(h, View(), n, s)) ==> BestFit(h, r.value, n, 0)
      ensures r.Some? && limit != 0 ==>
        || taken - stats.unmapped <= limit
        || (stats.unmapped >= old(stats.unmapped) && FromNormal(h, View(), r.value, n))
      ensures old(Searching(h, View(), n, s, limit, taken)) && r.Some? ==> Obtainable(h, n, limit, taken)
      ensures old(Searching(h, View(), n, s, limit, taken)) && r.None? ==>
        refusals > old(refusals) || Searching(h, View(), n, s + 1, limit, taken)
      ensures old(Searching(h, View(), n, s, limit, taken)) && refusals > old(refusals) ==> !NoFit(h, n, 0)
    {
      hide Core, Sound, Evolves, Allocated, BestFit, NoFit, FromNormal, Searching, Untouched, Obtainable, Slot, At, Range;
      hide OverLimit;
      ghost var h1 := View();
      ghost var searching := Searching(h, h1, n, s, limit, taken);
      CoreFacts();
      Stays(h1);
      var list := Slot(lists.normal, s);
      if list != [] {
        ListedIsFree(h1, list[0], s);
        NormalFound(h, h1, n, s, list[0], limit, taken);
        TakeNormal(h, list[0], n);
        return Some(list[0]);
      }
      list := Slot(lists.returned, s);
      if list == [] {
        if searching {
          NothingThere(h, h1, n, s, limit, taken);
        }
        return None;
      }
      ghost var p := list[0];
      ListedIsFree(h1, p, s);
      ReturnedFound(h, h1, n, s, p, limit, taken);
      var ok := EnsureLimit(n, true);
      ghost var v := View();
      EvolveOn(h, h1, v);
      CoreFacts();
      UnmappedGrows(h1, v);
      // the list may have become empty by coalescing
      list := Slot(lists.returned, s);
      if ok && list != [] {
        ListedIsFree(v, list[0], s);
        if searching {
          RoomForReturned(h, h1, n, s, p, limit, taken);
        }
        TakeReturned(h, list[0], n);
        return Some(list[0]);
      }
      if searching && refusals == old(refusals) {
        NotTaken(h, h1, v, n, s, p, ok, limit, taken);
      }
      r := None;
    }

    /** A span of exactly `n` pages out of the free spans: with no heap limit, from the best fit over
        all of them.  Unless the system refuses to take memory back, it fails exactly if nothing fits,
        or the best fit is returned and the limit leaves no room. */
    method SearchFreeAndLargeLists(n: int) returns (r: Option<Ptr>)
      requires Valid() && n > 0
      modifies `spans, `pagemap, `lists, `stats, `owner, `releaseIndex, `visits, `refusals
      ensures Valid() && refusals >= old(refusals)
      ensures r.None? ==> Evolves(old(View()), View())
      ensures r.Some? ==> Allocated(old(View()), View(), r.value, n)
      ensures limit == 0 && r.None? ==> View() == old(View())
      ensures limit == 0 && r.Some? ==> BestFit(old(View()), r.value, n, 0)
      ensures r.Some? && limit != 0 ==>
        || taken - stats.unmapped <= limit
        || (taken - stats.unmapped <= old(taken - stats.unmapped) && FromNormal(old(View()), View(), r.value, n))
      ensures r.None? ==> taken - stats.unmapped <= old(taken - stats.unmapped)
      ensures NoFit(old(View()), n, 0) ==> r.None?
      ensures limit == 0 || refusals == old(refusals) ==>
        (r.None? <==> NoFit(old(View()), n, 0) || OverLimit(old(View()), n, 0, limit, old(taken)))
    {
      hide Core, Sound, Evolves, Allocated, BestFit, NoFit, NormalFit, OverLimit, FromNormal, Searching, At, Range, Gap;
      ghost var h := View();
      Stays(h);
      CoreFacts();
      var s := n;
      SearchStart(h, n, limit, taken);
      while s <= MAX_PAGES
        invariant Valid() && Evolves(h, View()) && refusals >= old(refusals)
        invariant n <= s && stats.unmapped >= h.stats.unmapped
        invariant limit == 0 ==> View() == h && refusals == old(refusals)
        invariant refusals == old(refusals) ==> Searching(h, View(), n, s, limit, taken)
        invariant refusals > old(refusals) ==> !NoFit(h, n, 0)
      {
        if limit == 0 {
          OnlyUntouched(h, h, n, s, taken);
        }
        r := SearchLength(h, n, s);
        if r.Some? {
          return;
        }
        s := s + 1;
      }
      ghost var h1 := View();
      CoreFacts();
      if refusals == old(refusals) {
        LongSpansDecide(h, h1, n, s, limit, taken);
      }
      if limit == 0 {
        OnlyUntouched(h, h1, n, s, taken);
        OverGap(h, n, s, limit, taken);
      }
      var large, _ := AllocLarge(n);
      r := large;
      CoreFacts();
      if r.Some? {
        AllocateAfter(h, h1, View(), r.value, n);
        if FromNormal(h1, View(), r.value, n) {
          NormalsSince(h, h1, View(), r.value, n);
        }
      } else {
        UnmappedGrows(h1, View());
        EvolveOn(h, h1, View());
      }
    }

    /** Makes an allocated span free and merges it. */
    method PutBack(p: Ptr)
      requires Valid() && p in spans && spans[p].location == InUse
      modifies `spans, `pagemap, `lists, `stats, `owner, `refusals
      ensures Valid() && refusals >= old(refusals)
      ensures Evolves(old(Relocated(View(), p, Normal)), View())
      ensures !aggressive ==> SamePages(old(Relocated(View(), p, Normal)), View()) && refusals == old(refusals)
      ensures refusals == old(refusals) ==> MergedExactly(old(Relocated(View(), p, Normal)), View(), p, aggressive)
    {
      hide Sound, Coalesced, Apart, Evolves, SamePages, MergedExactly;
      ghost var h := View();
      UnuseKeepsSound(h, p, Normal);
      spans := spans[p := spans[p].(sizeclass := 0, location := Normal)];
      ghost var h1 := View();
      assert h1 == Relocated(h, p, Normal);
      SkipKeepsApart(h.spans, p, spans[p]);
      if lazy {
        SkipKeepsCoalesced(h.spans, p, spans[p]);
      }
      MergeIntoFreeList(p);
      EvolveSize(h1, View());
    }

    /** Frees a span.  Nothing else in use changes.  In aggressive mode its pages, and those of the free
        spans beside it, are returned unless the system refuses; otherwise they are normal until it is
        time to scavenge. */
    method DeleteLocked(p: Ptr)
      requires Valid() && p in spans && spans[p].location == InUse
      modifies `spans, `pagemap, `lists, `stats, `owner, `releaseIndex, `visits, `scavengeCounter, `refusals
      ensures Valid() && Freed(old(View()), View(), p) && refusals >= old(refusals)
      ensures stats.unmapped >= old(stats.unmapped)
      ensures aggressive && refusals == old(refusals) ==> GivenBack(old(View()), View(), p)
      ensures old(spans[p].length) > 0
      ensures !aggressive && old(scavengeCounter >= spans[p].length) ==>
        && View().Pages(Normal) == old(View()).Pages(Normal) + Range(old(spans)[p].start, old(spans)[p].length)
        && View().Pages(Returned) == old(View()).Pages(Returned)
      ensures old(scavengeCounter >= spans[p].length) ==> scavengeCounter == old(scavengeCounter - spans[p].length)
      ensures old(scavengeCounter < spans[p].length) ==> 0 <= scavengeCounter <= MAX_RELEASE_DELAY
      ensures old(scavengeCounter < spans[p].length) && releaseRate > 0.000001 && refusals == old(refusals) ==>
        stats.free == 0 || stats.free < old(stats.free + spans[p].length)
    {
      hide Core, Sound, Evolves, SamePages, Freed, Tiled, At, Range, MergedExactly, GivenBack, Relocated;
      ghost var h := View();
      CoreFacts();
      IsTiled(h, {}, 0);
      MoveMovesPages(h, p, Normal, Normal);
      MoveMovesPages(h, p, Normal, Returned);
      LocationsApart(h, InUse, Returned);
      var n := spans[p].length;
      ghost var h1 := Relocated(h, p, Normal);
      PutBack(p);
      ghost var h2 := View();
      CoreFacts();
      ghost var merged := refusals == old(refusals);
      FreeAfterFreeing(h, h1, h2, p);
      IncrementalScavenge(n);
      CoreFacts();
      EvolveOn(h1, h2, View());
      FreeThen(h, View(), p);
      FreeingUnmaps(h, View(), p);
      if aggressive && merged {
        AllGivenBack(h, h1, h2, View(), p);
      }
      if !aggressive && old(scavengeCounter) >= n {
        FreedIsNormal(h, h1, View(), p);
      }
    }

    /** Now and then releases some memory; how long to wait in between depends on the release rate. */
    method IncrementalScavenge(n: int)
      requires Valid()
      modifies `spans, `pagemap, `lists, `stats, `owner, `releaseIndex, `visits, `scavengeCounter, `refusals
      ensures Valid() && Evolves(old(View()), View()) && refusals >= old(refusals)
      ensures old(scavengeCounter) >= n || releaseRate <= 0.000001 ==> View() == old(View()) && refusals == old(refusals)
      ensures old(scavengeCounter) >= n ==> scavengeCounter == old(scavengeCounter) - n
      ensures old(scavengeCounter) < n ==> 0 <= scavengeCounter <= MAX_RELEASE_DELAY
      ensures old(scavengeCounter) < n && stats.free == old(stats.free) ==> scavengeCounter == DEFAULT_RELEASE_DELAY
      ensures old(scavengeCounter) < n && releaseRate > 0.000001 && refusals == old(refusals) ==>
        stats.free == 0 || stats.free < old(stats.free)
      ensures old(scavengeCounter) < n && stats.free < old(stats.free) ==>
        releaseRate > 0.000001 && scavengeCounter == Delay(old(stats.free) - stats.free, releaseRate)
    {
      hide Core, Evolves, Delay;
      Stays(View());
      scavengeCounter := scavengeCounter - n;
      if scavengeCounter >= 0 {
        return;
      }
      if releaseRate <= 0.000001 {
        scavengeCounter := DEFAULT_RELEASE_DELAY;
        return;
      }
      var released := ReleaseAtLeastNPages(1);
      if released == 0 {
        scavengeCounter := DEFAULT_RELEASE_DELAY;
      } else {
        scavengeCounter := Delay(released, releaseRate);
        DelayMeans(released, releaseRate);
      }
    }

    /** Memory from the system within the heap limit: none, or at least `ask` pages that are not part
        of the heap.  All memory obtained is taken to stay below 2^31 pages (16 TiB). */
    method SystemAlloc(ask: int) returns (region: Option<Span>)
      requires Valid() && ask > 0
      modifies `spans, `pagemap, `lists, `stats, `owner, `releaseIndex, `visits, `taken, `refusals, `denials, `asked
      ensures Valid() && Evolves(old(View()), View())
      ensures limit == 0 ==> View() == old(View())
      ensures region.None? ==> taken == old(taken)
      ensures region.Some? ==>
        && taken == old(taken) + region.value.length && region.value.length >= ask
        && region.value == Span(region.value.start, region.value.length, InUse, 0) && region.value.start > 0
        && (forall q | region.value.Contains(q) :: q !in owner)
        && stats.system + region.value.length < INT_LIMIT && stats.system + region.value.length <= taken
        && (limit != 0 ==> old(taken) - stats.unmapped + ask <= limit)
      ensures refusals >= old(refusals) && denials >= old(denials)
      ensures region.Some? ==> denials == old(denials) && (limit == 0 || old(stats.free) >= old(taken - stats.unmapped) + ask - limit)
      ensures region.None? && refusals == old(refusals) && denials == old(denials) ==>
        limit != 0 && old(stats.free) < old(taken - stats.unmapped) + ask - limit
      ensures region.Some? || limit == 0 ==> asked == old(asked) + [ask]
      ensures limit == 0 ==> refusals == old(refusals)
    {
      hide Sound, Coalesced, Apart, Evolves;
      region := None;
      var allowed := EnsureLimit(ask, true);
      if allowed {
        asked := asked + [ask];
      }
      var start: int, length: int := *, *;
      if allowed && length >= ask && start > 0 && stats.system + length < INT_LIMIT
         && forall p | p in spans :: start + length <= spans[p].start || spans[p].End() <= start {
        region := Some(Span(start, length, InUse, 0));
        CoreFacts();
        Unowned(View(), region.value);
        taken := taken + length;
      } else if allowed {
        denials := denials + 1;
      }
    }

    /** A region of at least `n` pages: the usual minimum first, then just what is needed.  The limit
        has room for `n` pages on top of what was taken before; the system may give more than that. */
    method AskSystem(n: int) returns (region: Option<Span>)
      requires Valid() && n > 0
      modifies `spans, `pagemap, `lists, `stats, `owner, `releaseIndex, `visits, `taken, `refusals, `denials, `asked
      ensures Valid() && Evolves(old(View()), View())
      ensures limit == 0 ==> View() == old(View())
      ensures region.None? ==> taken == old(taken) && taken - stats.unmapped <= old(taken - stats.unmapped)
      ensures region.Some? ==>
        && taken == old(taken) + region.value.length && region.value.length >= n
        && region.value == Span(region.value.start, region.value.length, InUse, 0) && region.value.start > 0
        && (forall q | region.value.Contains(q) :: q !in owner)
        && stats.system + region.value.length < INT_LIMIT && stats.system + region.value.length <= taken
        && (limit != 0 ==> old(taken) - stats.unmapped + n <= limit)
      ensures refusals >= old(refusals) && denials >= old(denials)
      ensures region.Some? ==> limit == 0 || old(stats.free) >= old(taken - stats.unmapped) + n - limit
      ensures limit == 0 ==> refusals == old(refusals)
      ensures region.None? && refusals == old(refusals) && denials == old(denials) ==>
        limit != 0 && old(stats.free) < old(taken - stats.unmapped) + n - limit
      ensures limit == 0 && n >= MIN_SYSTEM_ALLOC ==> asked == old(asked) + [n]
      ensures limit == 0 && n < MIN_SYSTEM_ALLOC ==>
        asked == if denials == old(denials) then old(asked) + [MIN_SYSTEM_ALLOC] else old(asked) + [MIN_SYSTEM_ALLOC] + [n]
    {
      hide Core, Sound, Evolves;
      ghost var h := View();
      CoreFacts();
      var ask := if n > MIN_SYSTEM_ALLOC then n else MIN_SYSTEM_ALLOC;
      region := SystemAlloc(ask);
      if region.None? && n < ask {
        ghost var h1 := View();
        ask := n;
        CoreFacts();
        UnmappedGrows(h, h1);
        region := SystemAlloc(ask);
        EvolveOn(h, h1, View());
      }
      CoreFacts();
      UnmappedGrows(h, View());
    }

    /** Adds at least `n` pages to the free spans, if the limit, the system and the page map allow. */
    method GrowHeap(n: int) returns (ok: bool)
      requires Valid() && n > 0
      modifies `spans, `pagemap, `lists, `stats, `owner, `releaseIndex, `visits, `scavengeCounter, `taken,
        `leaked, `refusals, `denials, `asked
      ensures Valid() && Extends(old(View()), View())
      ensures ok ==> !NoFit(View(), n, 0)
      ensures !ok && limit == 0 ==> spans == old(spans)
      ensures taken == old(taken) ==> taken - stats.unmapped <= old(taken - stats.unmapped)
      ensures taken != old(taken) ==> taken >= old(taken) + n && (limit != 0 ==> old(taken) - stats.unmapped + n <= limit)
      ensures refusals >= old(refusals) && denials >= old(denials)
      ensures ok || taken != old(taken) ==>
        n <= MAX_VALID_PAGES && (limit == 0 || old(stats.free) >= old(taken - stats.unmapped) + n - limit)
      ensures ok ==> taken != old(taken) && (limit == 0 || stats.free >= taken - stats.unmapped + n - limit)
      ensures !ok && (limit == 0 || refusals == old(refusals)) && denials == old(denials) ==>
        n > MAX_VALID_PAGES || (limit != 0 && old(stats.free) < old(taken - stats.unmapped) + n - limit)
    {
      hide Core, Sound, Evolves, Extends, NoFit;
      ghost var h := View();
      ExtendsSame(h);
      if n > MAX_VALID_PAGES {
        return false;
      }
      CoreFacts();
      var region := AskSystem(n);
      ghost var h1 := View();
      EvolvingExtends(h, h, h1);
      CoreFacts();
      UnmappedGrows(h, h1);
      if region.None? {
        return false;
      }
      ok := AddRegion(region.value);
      EvolvingExtends(h, h1, View());
      CoreFacts();
      if ok {
        FitsAtLeast(View(), region.value.length, n);
      }
    }

    /** Records a region as a span in use, to be deleted at once so that it is coalesced. */
    method RecordRegion(g: Span) returns (b: Ptr)
      requires g.length > 0
      modifies `spans, `pagemap, `stats, `owner
      ensures b !in old(spans) && b in spans && spans[b] == g && View() == Grew(old(View()), b, g)
    {
      hide Grown, Range;
      stats := stats.(system := stats.system + g.length, committed := stats.committed + g.length);
      b := NewSpan(g);
      RecordSpan(b);
      owner := Grown(owner, b, g);
    }

    /** Takes over a new region as a span in use. */
    method TakeRegion(g: Span) returns (b: Ptr)
      requires Valid() && g == Span(g.start, g.length, InUse, 0) && g.length > 0 && g.start > 0
      requires (forall q | g.Contains(q) :: q !in owner) && stats.system + g.length < INT_LIMIT && stats.system + g.length <= taken
      modifies `spans, `pagemap, `stats, `owner
      ensures Valid() && CanGrow(old(View()), b, g) && |owner| == old(|owner|) + g.length && stats.unmapped == old(stats.unmapped)
      ensures b in spans && spans[b] == g && View() == Grew(old(View()), b, g)
    {
      hide Sound, Coalesced, Apart, CanGrow, Grew;
      ghost var h := View();
      OwnedBySystem(h);
      b := RecordRegion(g);
      GrowFacts(h, View(), b, g, lazy);
    }

    /** Counts a region that cannot be used. */
    method LoseRegion(g: Span)
      requires Valid() && g.length > 0 && stats.system + g.length <= taken
      modifies `stats, `leaked, `denials
      ensures Valid() && Extends(old(View()), View())
      ensures leaked == old(leaked) + g.length && denials == old(denials) + 1 && stats.unmapped == old(stats.unmapped)
    {
      hide Sound, Coalesced, Apart, Extends;
      ghost var h := View();
      denials := denials + 1;
      stats := stats.(system := stats.system + g.length, committed := stats.committed + g.length);
      leaked := leaked + g.length;
      LeakKeepsSound(h, View(), g.length);
    }

    /** Extends the page map over a new region and frees the region; if the page map cannot be
        extended, the region is counted in the statistics but never used. */
    method AddRegion(g: Span) returns (ok: bool)
      requires Valid() && g == Span(g.start, g.length, InUse, 0) && g.length > 0 && g.start > 0
      requires (forall q | g.Contains(q) :: q !in owner) && stats.system + g.length < INT_LIMIT && stats.system + g.length <= taken
      modifies `spans, `pagemap, `lists, `stats, `owner, `releaseIndex, `visits, `scavengeCounter, `leaked,
        `refusals, `denials
      ensures Valid() && Extends(old(View()), View())
      ensures ok ==> owner.Keys == old(owner.Keys) + Range(g.start, g.length) && leaked == old(leaked) && !NoFit(View(), g.length, 0)
      ensures !ok ==> spans == old(spans) && owner == old(owner) && leaked == old(leaked) + g.length
      ensures stats.unmapped >= old(stats.unmapped)
      ensures refusals >= old(refusals) && denials == old(denials) + if ok then 0 else 1
      ensures ok ==> stats.free + stats.unmapped == old(stats.free + stats.unmapped) + g.length
    {
      hide Core, Sound, Extends, NoFit, Freed, CanGrow, Range, Grew, At, GivenBack;
      ghost var h := View();
      CoreFacts();
      ok := *;
      if ok {
        var b := TakeRegion(g);
        DeleteLocked(b);
        CoreFacts();
        AddedRegion(h, View(), b, g);
        FreeAfterGrowth(h, View(), g.length);
      } else {
        LoseRegion(g);
      }
    }

    /** Searches the free spans, having evolved from an earlier state `h`. */
    method SearchSince(ghost h: Heap, n: int) returns (r: Option<Ptr>)
      requires Valid() && n > 0 && Extends(h, View())
      modifies `spans, `pagemap, `lists, `stats, `owner, `releaseIndex, `visits, `refusals
      ensures Valid() && refusals >= old(refusals)
      ensures r.Some? ==> Supplied(h, View(), r.value, n) && n < INT_LIMIT
      ensures r.None? ==> Extends(h, View()) && Evolves(old(View()), View())
      ensures limit == 0 || refusals == old(refusals) ==>
        (r.None? <==> NoFit(old(View()), n, 0) || OverLimit(old(View()), n, 0, limit, taken))
      ensures limit == 0 ==> (r.None? <==> NoFit(old(View()), n, 0)) && (r.None? ==> View() == old(View()))
      ensures limit != 0 ==> taken - stats.unmapped <= limit || taken - stats.unmapped <= old(taken - stats.unmapped)
      ensures View().Pages(Normal) <= old(View()).Pages(Normal)
    {
      hide Sound, Coalesced, Apart, Evolves, Extends, NoFit, BestFit, Allocated, Supplied, FromNormal, OverLimit, At;
      ghost var h1 := View();
      if limit == 0 {
        NotOver(h1, n, limit, taken);
      }
      r := SearchFreeAndLargeLists(n);
      FewerNormal(h1, View(), r, n);
      if r.Some? {
        AllocatingSupplies(h, h1, View(), r.value, n);
        SuppliedLength(View(), h, r.value, n);
        if limit == 0 {
          BestIsFit(h1, r.value, n);
        }
      } else {
        EvolvingExtends(h, h1, View());
      }
    }

    /** Releases everything normal if much is free and the heap is about to cross a mark, so that it
        coalesces. */
    method CoalesceBeforeGrowth(n: int) returns (forced: bool)
      requires Valid()
      modifies `spans, `pagemap, `lists, `stats, `owner, `releaseIndex, `visits, `refusals
      ensures Valid() && Evolves(old(View()), View()) && refusals >= old(refusals)
      ensures forced == old(ForceCoalescing(stats, n))
      ensures !forced ==> View() == old(View()) && refusals == old(refusals)
      ensures forced && refusals == old(refusals) ==> stats.free == 0
    {
      hide Sound, Evolves, ForceCoalescing, Coalesced, Apart;
      Stays(View());
      CoreFacts();
      FreeIsFew(View());
      forced := ForceCoalescing(stats, n);
      if forced {
        var released := ReleaseAtLeastNPages(0x7fff_ffff);
        CoreFacts();
      }
    }

    /** Searches again if everything normal had to be released. */
    method SearchCoalesced(ghost h: Heap, n: int) returns (r: Option<Ptr>)
      requires Valid() && n > 0 && Extends(h, View())
      modifies `spans, `pagemap, `lists, `stats, `owner, `releaseIndex, `visits, `refusals
      ensures Valid() && refusals >= old(refusals)
      ensures r.Some? ==> Supplied(h, View(), r.value, n) && n < INT_LIMIT
      ensures r.None? ==> Extends(h, View()) && stats.free + stats.unmapped == old(stats.free + stats.unmapped)
      ensures limit == 0 && r.None? && old(NoFit(View(), n, 0)) ==> NoFit(View(), n, 0)
      ensures limit != 0 ==> taken - stats.unmapped <= limit || taken - stats.unmapped <= old(taken - stats.unmapped)
      ensures r.Some? && refusals == old(refusals) ==> limit == 0 || old(stats.free) >= old(taken - stats.unmapped) + n - limit
      ensures r.None? && refusals == old(refusals) && old(ForceCoalescing(stats, n)) ==> stats.free == 0
    {
      hide Core, Sound, Evolves, Extends, NoFit, Supplied, ForceCoalescing, OverLimit, At;
      ghost var h1 := View();
      CoreFacts();
      var forced := CoalesceBeforeGrowth(n);
      ghost var v := View();
      CoreFacts();
      UnmappedGrows(h1, v);
      EvolvingExtends(h, h1, v);
      r := None;
      if forced {
        if refusals == old(refusals) && limit != 0 && taken - stats.unmapped + n > limit {
          AllReturned(v, n, 0, limit, taken);
        }
        r := SearchSince(h, n);
        if r.None? {
          CoreFacts();
          UnmappedGrows(v, View());
        }
      }
    }

    /** Obtains more memory and searches it. */
    method SearchGrown(ghost h: Heap, n: int) returns (r: Option<Ptr>)
      requires Valid() && n > 0 && Extends(h, View())
      modifies `spans, `pagemap, `lists, `stats, `owner, `releaseIndex, `visits, `scavengeCounter, `taken,
        `leaked, `refusals, `denials, `asked
      ensures Valid() && refusals >= old(refusals) && denials >= old(denials)
      ensures r.Some? ==> Supplied(h, View(), r.value, n) && n < INT_LIMIT
      ensures r.None? ==> Extends(h, View())
      ensures Thins(old(View()), View())
      ensures limit == 0 && r.None? && old(NoFit(View(), n, 0)) ==> NoFit(View(), n, 0)
      ensures taken == old(taken) || taken >= old(taken) + n
      ensures limit != 0 ==>
        || taken - stats.unmapped <= limit
        || taken - stats.unmapped <= old(taken - stats.unmapped)
        || taken - stats.unmapped <= limit + (taken - old(taken) - n)
      ensures r.Some? || taken != old(taken) ==>
        n <= MAX_VALID_PAGES && (limit == 0 || old(stats.free) >= old(taken - stats.unmapped) + n - limit)
      ensures r.None? && (limit == 0 || refusals == old(refusals)) && denials == old(denials) ==>
        n > MAX_VALID_PAGES || (limit != 0 && old(stats.free) < old(taken - stats.unmapped) + n - limit)
    {
      hide Core, Sound, Evolves, Extends, NoFit, Supplied, OverLimit, At, Thins;
      ghost var h1 := View();
      var grown := GrowHeap(n);
      ghost var h2 := View();
      EvolvingExtends(h, h1, h2);
      ExtendsFacts(h1, h2);
      r := None;
      if grown {
        NotOver(h2, n, limit, taken);
        r := SearchSince(h, n);
        ThinsOn(h1, h2, View());
      } else if limit == 0 {
        SameFit(h1, h2, n);
      }
    }

    /** A span of `n` pages, rounded up: out of the free spans, after forced coalescing if much is
        free, or out of newly obtained memory.  If nothing is refused or denied it fails exactly if the
        request is too long, or nothing fits within the limit and there is no room for more. */
    method NewLocked(n0: int) returns (r: Option<Ptr>)
      requires Valid() && 0 < n0 < WORD
      modifies `spans, `pagemap, `lists, `stats, `owner, `releaseIndex, `visits, `scavengeCounter, `taken,
        `leaked, `refusals, `denials, `asked
      ensures Valid() && refusals >= old(refusals) && denials >= old(denials)
      ensures smallest > 0 && 0 < RoundUp(n0, smallest) < WORD
      ensures r.Some? ==> Supplied(old(View()), View(), r.value, RoundUp(n0, smallest))
      ensures r.None? ==> Extends(old(View()), View())
      ensures r.None? && limit == 0 ==> NoFit(View(), RoundUp(n0, smallest), 0)
      ensures r.Some? ==> RoundUp(n0, smallest) < INT_LIMIT
      ensures taken == old(taken) || taken >= old(taken) + RoundUp(n0, smallest)
      ensures limit != 0 ==>
        || taken - stats.unmapped <= limit
        || taken - stats.unmapped <= old(taken - stats.unmapped)
        || taken - stats.unmapped <= limit + (taken - old(taken) - RoundUp(n0, smallest))
      ensures (limit == 0 || refusals == old(refusals)) && denials == old(denials) ==>
        (r.None? <==> Unobtainable(old(View()), RoundUp(n0, smallest), limit, old(taken)))
      ensures limit == 0 && r.None? ==> denials > old(denials) || RoundUp(n0, smallest) > MAX_VALID_PAGES
      ensures refusals == old(refusals) && taken != old(taken) ==> NoFit(old(View()), RoundUp(n0, smallest), 0)
      ensures limit == 0 && refusals == old(refusals) && taken != old(taken) && old(ForceCoalescing(stats, RoundUp(n0, smallest))) ==>
        old(View()).Pages(Normal) !! View().Pages(Normal)
    {
      hide Core, Sound, Evolves, Extends, NoFit, Supplied, RoundUp, ForceCoalescing, Thins, At, OverLimit, Unobtainable;
      ghost var h := View();
      UnobtainableIff(h, RoundUp(n0, smallest), limit, taken);
      RoundUpIsLeast(n0, smallest);
      ExtendsSame(h);
      CoreFacts();
      var n := RoundUp(n0, smallest);
      r := SearchSince(h, n);
      if r.Some? {
        return;
      }
      CoreFacts();
      UnmappedGrows(h, View());
      r := SearchCoalesced(h, n);
      if r.Some? {
        return;
      }
      CoreFacts();
      ghost var h2 := View();
      ExtendsFacts(h, h2);
      r := SearchGrown(h, n);
      if h2.stats.free == 0 {
        NoneLeft(h, h2, View());
      }
    }

    /** The size-class cache is truthful about the spans that have been set up. */
    ghost predicate Coherent()
      reads `spans, `cache, `settled
    {
      Truthful(Used(spans), cache, settled)
    }

    /** An empty heap. */
    constructor (smallestSpan: int, heapLimit: int, alreadyTaken: int, rate: real)
      requires IsPow2(smallestSpan) && heapLimit >= 0 && alreadyTaken >= 0
      ensures Valid() && Coherent() && View().Live() == map[] && smallest == smallestSpan && limit == heapLimit && lazy
      ensures !aggressive && releaseRate == rate && scavengeCounter == 0 && taken == alreadyTaken
    {
      smallest := smallestSpan;
      spans, pagemap, owner, cache, settled := map[], map[], map[], map[], {};
      lists := Lists(seq(MAX_PAGES, _ => []), seq(MAX_PAGES, _ => []), {}, {});
      stats := Stats(0, 0, 0, 0);
      releaseIndex, aggressive, scavengeCounter, limit, taken := MAX_PAGES, false, 0, heapLimit, alreadyTaken;
      leaked, lazy, refusals, denials, asked, visits, releaseRate := 0, true, 0, 0, [], [], rate;
      new;
      assert At(spans, owner, Normal, {}) == {} && At(spans, owner, Returned, {}) == {};
    }

    method SetAggressiveDecommit(on: bool)
      requires Valid()
      modifies `aggressive, `lazy
      ensures Valid() && aggressive == on && lazy == (old(lazy) && !on)
    {
      aggressive := on;
      lazy := lazy && !on;
    }

    /** Makes the pages of an allocated span beyond its first `n` a span of their own, if there are
        fewer than 2^31 of them. */
    method Split(p: Ptr, n: int) returns (b: Ptr)
      requires Sound(View(), {}, 0)
      requires p in spans && spans[p].location == InUse && spans[p].sizeclass == 0 && 0 < n < spans[p].length
      modifies `spans, `pagemap, `owner
      ensures CanCut(old(View()), p, b, n)
      ensures View() == CutAs(old(View()), p, b, n, InUse, ToLength(ToInt32(old(spans[p].length) - n)))
      ensures old(spans[p].length - n < INT_LIMIT || Core()) ==>
        Sound(View(), {}, 0) && View() == Cutoff(old(View()), p, b, n, InUse)
      ensures old(Core()) ==> Core()
    {
      hide Sound, Coalesced, Apart, Cutoff, CutAs, ToInt32, ToLength;
      ghost var h := View();
      LengthBound(h, p);
      var extra := ToInt32(spans[p].length - n);
      b := CutSpan(p, n, ToLength(extra), InUse);
      if h.spans[p].length - n < INT_LIMIT {
        CutAsCutoff(h, p, b, n, InUse);
        SplitKeepsSound(h, p, b, n);
        CutSize(h, p, b, n);
        if Apart(h.spans, {}) {
          SplitKeepsApart(h, p, b, n);
        }
        if Coalesced(h.spans, {}) {
          SplitKeepsCoalesced(h, p, b, n);
        }
      }
    }

    /** Records the size class of a span, and the span itself at every one of its pages. */
    method RegisterSizeClass(p: Ptr, sizeclass: int)
      requires Valid() && p in spans && spans[p].location == InUse
      modifies `spans, `pagemap
      ensures Valid()
      ensures spans == old(spans)[p := old(spans)[p].(sizeclass := sizeclass)]
      ensures forall q | spans[p].Contains(q) :: q in pagemap && pagemap[q] == p
    {
      hide Sound, Coalesced, Apart;
      ghost var h := View();
      var s := spans[p];
      EdgesRecorded(h, p);
      spans := spans[p := s.(sizeclass := sizeclass)];
      var i := 1;
      while i < s.length - 1
        invariant 1 <= i && i <= if s.length > 1 then s.length - 1 else 1
        invariant spans == h.spans[p := s.(sizeclass := sizeclass)]
        invariant forall q :: q in pagemap <==> q in h.pagemap || s.start <= q < s.start + i
        invariant forall q | q in pagemap :: pagemap[q] == if s.start <= q < s.start + i then p else h.pagemap[q]
      {
        pagemap := pagemap[s.start + i := p];
        i := i + 1;
      }
      assert forall q :: s.Contains(q) <==> s.start <= q < s.start + i || q == s.End() - 1;
      RegisterKeepsSound(h, View(), p, sizeclass);
      RegisterKeepsApart(h.spans, p, sizeclass);
      if lazy {
        RegisterKeepsCoalesced(h.spans, p, sizeclass);
      }
    }

    /** Allocates a span of `n` pages, rounded up, with a size class if one is given: a span no page of
        which was in use before. */
    method NewWithSizeClass(n: int, sizeclass: int) returns (r: Option<Ptr>)
      requires Valid() && Coherent() && 0 < n < WORD
      modifies `spans, `pagemap, `lists, `stats, `owner, `releaseIndex, `visits, `scavengeCounter, `taken,
        `leaked, `cache, `settled, `refusals, `denials, `asked
      ensures Valid() && Coherent()
      ensures smallest > 0 && 0 < RoundUp(n, smallest) < WORD
      ensures r.Some? ==> Granted(old(View()), View(), r.value, RoundUp(n, smallest), sizeclass) && RoundUp(n, smallest) < INT_LIMIT
      ensures settled == old(settled) + if r.Some? && sizeclass == 0 then {r.value} else {}
      ensures r.None? ==> Extends(old(View()), View())
      ensures r.None? && limit == 0 ==> NoFit(View(), RoundUp(n, smallest), 0)
      ensures taken == old(taken) || taken >= old(taken) + RoundUp(n, smallest)
      ensures limit != 0 ==>
        || taken - stats.unmapped <= limit
        || taken - stats.unmapped <= old(taken - stats.unmapped)
        || taken - stats.unmapped <= limit + (taken - old(taken) - RoundUp(n, smallest))
      ensures refusals >= old(refusals) && denials >= old(denials)
      ensures (limit == 0 || refusals == old(refusals)) && denials == old(denials) ==>
        (r.None? <==> Unobtainable(old(View()), RoundUp(n, smallest), limit, old(taken)))
    {
      hide Core, Sound, Extends, NoFit, RoundUp, Used, Supplied, Granted, Truthful, Invalidate, Unobtainable, ForceCoalescing;
      ghost var h := View();
      r := NewLocked(n);
      if r.None? {
        ExtendTruthful(h, View(), cache, settled);
        return;
      }
      var p := r.value;
      ghost var h1 := View();
      SuppliedIsGranted(h, h1, p, RoundUp(n, smallest));
      GrantFacts(h, h1, p, RoundUp(n, smallest), 0);
      GrantTruthful(h, h1, p, RoundUp(n, smallest), 0, cache, settled);
      if sizeclass != 0 {
        ForgettingIsTruthful(h.Live(), cache, settled, spans[p].start);
        cache := Invalidate(cache, spans[p].start);
        RegisterSizeClass(p, sizeclass);
        RegisterGrants(h, h1, View(), p, RoundUp(n, smallest), sizeclass);
        GrantTruthful(h, View(), p, RoundUp(n, smallest), sizeclass, cache, settled);
      } else {
        SettlePlain(h1.Live(), cache, settled, p);
        cache := Invalidate(cache, spans[p].start);
        settled := settled + {p};
      }
    }

    /** Frees an allocated span: in aggressive mode its pages are given back with those of the free
        spans beside it, otherwise they stay normal until it is time to scavenge. */
    method Delete(p: Ptr)
      requires Valid() && Coherent() && p in spans && spans[p].location == InUse
      modifies `spans, `pagemap, `lists, `stats, `owner, `releaseIndex, `visits, `scavengeCounter, `settled, `refusals
      ensures Valid() && Coherent() && Freed(old(View()), View(), p) && settled == old(settled) - {p}
      ensures refusals >= old(refusals) && (aggressive && refusals == old(refusals) ==> GivenBack(old(View()), View(), p))
      ensures old(spans[p].length) > 0
      ensures !aggressive && old(scavengeCounter >= spans[p].length) ==>
        && View().Pages(Normal) == old(View()).Pages(Normal) + Range(old(spans)[p].start, old(spans)[p].length)
        && View().Pages(Returned) == old(View()).Pages(Returned)
      ensures old(scavengeCounter >= spans[p].length) ==> scavengeCounter == old(scavengeCounter - spans[p].length)
      ensures old(scavengeCounter < spans[p].length) ==> 0 <= scavengeCounter <= MAX_RELEASE_DELAY
      ensures old(scavengeCounter < spans[p].length) && releaseRate > 0.000001 && refusals == old(refusals) ==>
        stats.free == 0 || stats.free < old(stats.free + spans[p].length)
    {
      hide Core, Sound, Freed, Truthful, GivenBack, Range, At;
      ghost var h := View();
      DeleteLocked(p);
      FreeTruthful(h, View(), p, cache, settled);
      settled := settled - {p};
    }

    /** Gives back the first `skip` pages of a newly supplied span. */
    method TrimFront(ghost h: Heap, p: Ptr, m: int, skip: int) returns (q: Ptr)
      requires Valid() && Supplied(h, View(), p, m) && 0 <= skip < m
      modifies `spans, `pagemap, `lists, `stats, `owner, `releaseIndex, `visits, `scavengeCounter, `refusals
      ensures Valid() && Supplied(h, View(), q, m - skip) && spans[q].start == old(spans)[p].start + skip
      ensures refusals >= old(refusals) && stats.unmapped >= old(stats.unmapped)
    {
      hide Core, Sound, Freed, Supplied, Cutoff, Tiled, GivenBack, Range, At;
      SupplyFacts(h, View(), p, m);
      if skip == 0 {
        return p;
      }
      ghost var h1 := View();
      CoreFacts();
      IsTiled(h1, {}, 0);
      q := Split(p, skip);
      CutFacts(h1, p, q, skip);
      DeleteLocked(p);
      KeepSecond(h, h1, View(), p, q, m, skip);
    }

    /** Gives back the pages of a newly supplied span beyond the first `n`. */
    method TrimBack(ghost h: Heap, p: Ptr, m: int, n: int)
      requires Valid() && Supplied(h, View(), p, m) && 0 < n <= m
      modifies `spans, `pagemap, `lists, `stats, `owner, `releaseIndex, `visits, `scavengeCounter, `refusals
      ensures Valid() && Supplied(h, View(), p, n) && spans[p].start == old(spans)[p].start
      ensures refusals >= old(refusals) && stats.unmapped >= old(stats.unmapped)
    {
      hide Core, Sound, Freed, Supplied, Cutoff, Tiled, GivenBack, Range, At;
      SupplyFacts(h, View(), p, m);
      if m > n {
        ghost var h1 := View();
        CoreFacts();
        IsTiled(h1, {}, 0);
        var trailer := Split(p, n);
        CutFacts(h1, p, trailer, n);
        DeleteLocked(trailer);
        KeepFirst(h, h1, View(), p, trailer, m, n);
      }
    }

    /** Leaves of a newly supplied span `n` pages that start at a multiple of `align` pages. */
    method Trim(ghost h: Heap, p: Ptr, m: int, n: int, align: int) returns (q: Ptr)
      requires Valid() && Supplied(h, View(), p, m) && 0 < n && align > 0 && n + align <= m
      modifies `spans, `pagemap, `lists, `stats, `owner, `releaseIndex, `visits, `scavengeCounter, `refusals
      ensures Valid() && Supplied(h, View(), q, n) && q in spans && spans[q].start % align == 0
      ensures refusals >= old(refusals) && stats.unmapped >= old(stats.unmapped)
    {
      hide Core, Sound, Supplied;
      SupplyFacts(h, View(), p, m);
      var skip := SkipToAligned(spans[p].start, align);
      q := TrimFront(h, p, m, skip);
      TrimBack(h, q, m - skip, n);
      SupplyFacts(h, View(), q, n);
    }

    /** Allocates `n` pages, rounded up, that start at a multiple of `align` pages: allocates more and
        frees what lies before and behind. */
    method NewAligned(n0: int, align: int) returns (r: Option<Ptr>)
      requires Valid() && Coherent() && 0 < n0 < WORD && IsPow2(align)
      modifies `spans, `pagemap, `lists, `stats, `owner, `releaseIndex, `visits, `scavengeCounter, `taken,
        `leaked, `cache, `settled, `refusals, `denials, `asked
      ensures Valid() && Coherent() && align > 0
      ensures smallest > 0 && 0 < RoundUp(n0, smallest) < WORD
      ensures r.Some? ==> Granted(old(View()), View(), r.value, RoundUp(n0, smallest), 0) && spans[r.value].start % align == 0
      ensures settled == old(settled) + if r.Some? then {r.value} else {}
      ensures r.None? ==> Extends(old(View()), View())
      ensures refusals >= old(refusals) && denials >= old(denials)
      ensures (limit == 0 || refusals == old(refusals)) && denials == old(denials) && RoundUp(n0, smallest) + align < WORD ==>
        (r.None? <==> Unobtainable(old(View()), RoundUp(RoundUp(n0, smallest) + align, smallest), limit, old(taken)))
      ensures RoundUp(n0, smallest) + align >= WORD ==> r.None?
    {
      hide Core, Sound, Extends, NoFit, RoundUp, Used, Supplied, Granted, Truthful, Invalidate, IsPow2, Unobtainable;
      hide ForceCoalescing;
      ghost var h := View();
      RoundUpIsLeast(n0, smallest);
      RoundUpGrows(n0, smallest, align);
      var n := RoundUp(n0, smallest);
      var alloc := (n + align) % WORD;
      if alloc < n || alloc < align {
        // the sum has wrapped around, so ask for more than there can be
        var huge := NewWithSizeClass(WORD - 1, 0);
        assert huge.None?;
        return None;
      }
      var span := NewLocked(alloc);
      if span.None? {
        ExtendTruthful(h, View(), cache, settled);
        return None;
      }
      var p := Trim(h, span.value, RoundUp(alloc, smallest), n, align);
      SupplyFacts(h, View(), p, n);
      SuppliedIsGranted(h, View(), p, n);
      GrantTruthful(h, View(), p, n, 0, cache, settled);
      SettlePlain(View().Live(), cache, settled, p);
      cache := Invalidate(cache, spans[p].start);
      settled := settled + {p};
      r := Some(p);
    }

    /** Enters every page of a span with a size class into the cache, as filling a new span with
        objects does. */
    method CacheSizeClass(p: Ptr)
      requires Valid() && Coherent() && p in spans && spans[p].location == InUse && spans[p].sizeclass != 0
      modifies `cache, `settled
      ensures Coherent() && settled == old(settled) + {p}
    {
      hide Core, Sound, Put, Tells, Used;
      ghost var live := Used(spans);
      CoreFacts();
      LiveApart(View(), p);
      var s := spans[p];
      var i := 0;
      while i < s.length
        invariant 0 <= i <= s.length
        invariant Truthful(live, cache, settled) && settled == old(settled)
        invariant TellsOn(cache, s.start, s.start + i, s.sizeclass)
      {
        RememberingIsTruthful(live, cache, settled, p, s.start + i);
        PutTellsOn(cache, s.start, s.start + i, s.sizeclass);
        cache := Put(cache, s.start + i, s.sizeclass);
        i := i + 1;
      }
      ClassTells(cache, s);
      settled := settled + {p};
    }

    /** Finds out what a freed object belongs to from the page it starts on, first in the cache and
        then in the page map: the size class of its span, or the span itself if it has none. */
    method FindOwner(q: int, ghost p: Ptr) returns (sizeclass: int, span: Option<Ptr>)
      requires Valid() && Coherent() && p in settled
      requires p in spans && spans[p].Contains(q) && (spans[p].sizeclass == 0 ==> q == spans[p].start)
      modifies `cache
      ensures Coherent()
      ensures sizeclass == spans[p].sizeclass && (sizeclass == 0 ==> span == Some(p))
    {
      hide Core, Sound, Get, Put, Used;
      CoreFacts();
      UsedAreInUse(spans, p);
      LiveApart(View(), p);
      var known := Get(cache, q);
      if known.Some? {
        return known.value, None;
      }
      FoundByPage(View(), p, q);
      var x := pagemap[q];
      sizeclass := spans[x].sizeclass;
      span := Some(x);
      if sizeclass != 0 {
        RememberingIsTruthful(Used(spans), cache, settled, p, q);
        cache := Put(cache, q, sizeclass);
      }
    }

    /** Reports the span recorded at the first page from `start` on that has an entry in the page map.
        A stale entry may name a descriptor that is gone, of which anything may be read; from a page
        that no span straddles, the descriptor is that of the next span. */
    method GetNextRange(start: int, live: Ptr -> int) returns (r: Option<MallocRange>, ghost p: Ptr)
      requires Valid()
      ensures r.None? ==> forall q | q in pagemap :: q < start
      ensures r.Some? && p in spans ==> spans[p].length > 0 && r.value == Report(spans[p], live(p))
      ensures r.Some? && Boundary(View(), start) ==> p in spans
      ensures r.Some? ==> exists q :: FirstEntry(pagemap, start, q) && pagemap[q] == p
    {
      hide Core;
      var found: Option<Ptr>, best := None, 0;
      var todo := pagemap.Keys;
      while todo != {}
        invariant todo <= pagemap.Keys
        invariant found.None? ==> forall q | q in pagemap && q !in todo :: q < start
        invariant found.Some? ==> best in pagemap && best >= start && found.value == pagemap[best]
        invariant found.Some? ==> forall q | q in pagemap && q !in todo && q >= start :: best <= q
      {
        HasMember(todo);
        var q :| q in todo;
        todo := todo - {q};
        if q >= start && (found.None? || q < best) {
          found, best := Some(pagemap[q]), q;
        }
      }
      if found.None? {
        return None, 0;
      }
      assert FirstEntry(pagemap, start, best);
      p := found.value;
      CoreFacts();
      if p in spans {
        Shape(View(), {}, 0, p);
      }
      if Boundary(View(), start) {
        FirstIsStart(View(), start, best);
      }
      var range: MallocRange := *;
      if found.value in spans {
        range := Report(spans[found.value], live(found.value));
      }
      r := Some(range);
    }

    /** Reports every span of the heap, jumping from the end of each to the next entry of the page
        map: each span once, in address order, in spite of stale entries. */
    method IterateOverRanges(live: Ptr -> int) returns (reported: seq<MallocRange>, ghost list: seq<Ptr>)
      requires Valid()
      ensures |reported| == |list| && InOrder(spans, list)
      ensures forall p :: p in list <==> p in spans
      ensures forall i | 0 <= i < |list| :: spans[list[i]].length > 0 && reported[i] == Report(spans[list[i]], live(list[i]))
      ensures Total(reported, FREE) == PAGE_SIZE * stats.free && Total(reported, UNMAPPED) == PAGE_SIZE * stats.unmapped
      ensures Total(reported, INUSE) == PAGE_SIZE * (|owner| - stats.free - stats.unmapped)
    {
      hide Core, Sound, Report, Total;
      CoreFacts();
      ghost var h := View();
      reported, list := [], [];
      var page := 1;
      FirstPage(h);
      ghost var left := spans.Keys;
      while true
        invariant Boundary(h, page)
        invariant forall p :: p in list <==> p in spans && spans[p].End() <= page
        invariant InOrder(spans, list)
        invariant |reported| == |list|
        invariant forall i | 0 <= i < |list| :: spans[list[i]].length > 0 && reported[i] == Report(spans[list[i]], live(list[i]))
        invariant forall p | p in spans && p !in list :: p in left
        decreases left
      {
        var r, p := GetNextRange(page, live);
        if r.None? {
          NoMoreSpans(h, page);
          TotalsAgree(h, list, reported, live);
          return;
        }
        NextSpan(h, page, p);
        OrderedAppend(spans, list, p);
        ReportMeans(spans[p], live(p));
        reported, list := reported + [r.value], list + [p];
        left := left - {p};
        page := (r.value.address + r.value.length + PAGE_SIZE - 1) / PAGE_SIZE;
      }
    }
  }
}
