/** Taking pages out of a free span (page_heap.cc, Carve). */
module Carving {
  import opened Spans
  import opened Accounting
  import opened HeapState
  import opened Coalescing

  /** The effect of Carve: the first `n` pages of a free span become a span in use; what is left
      over becomes the span `b` on the list of its length, at the old location. */
  ghost function Carved(h: Heap, p: Ptr, n: int, b: Ptr): Heap
    requires p in h.spans
  {
    var s := h.spans[p];
    var h1 := Relocated(Removed(h, p), p, InUse);
    var h2 := if s.length > n then Prepended(Cutoff(h1, p, b, n, s.location), b) else h1;
    if s.location == Returned then Committed(h2, n) else h2
  }

  ghost predicate CanCarve(h: Heap, p: Ptr, n: int, b: Ptr) {
    p in h.spans && h.spans[p].Free() && 0 < n <= h.spans[p].length && (n < h.spans[p].length ==> b !in h.spans)
  }

  lemma CarveKeepsSound(h: Heap, p: Ptr, n: int, b: Ptr)
    requires Sound(h, {}, 0) && CanCarve(h, p, n, b)
    ensures Sound(Carved(h, p, n, b), {}, 0)
  {
    hide Sound, Removed, Prepended;
    var s := h.spans[p];
    var weight := if s.location == Returned then s.length else 0;
    var h0 := Removed(h, p);
    RemoveKeepsSound(h, {}, {p}, p, 0);
    RemovedSpans(h, p);
    var h1 := Relocated(h0, p, InUse);
    RelocateKeepsSound(h0, {p}, p, InUse, 0);
    SkipLive(h1, {}, {p}, weight, p);
    if s.length > n {
      CutKeepsSound(h1, p, b, n, s.location, weight);
      PrependKeepsSound(Cutoff(h1, p, b, n, s.location), {b}, {}, b, weight - if s.location == Returned then s.length - n else 0);
      CommitKeepsSound(Prepended(Cutoff(h1, p, b, n, s.location), b), {}, weight - if s.location == Returned then s.length - n else 0, n);
    } else {
      CommitKeepsSound(h1, {}, weight, n);
    }
  }

  lemma RemovedSpans(h: Heap, p: Ptr)
    requires p in h.spans
    ensures Removed(h, p).spans == h.spans && Removed(h, p).owner == h.owner
  {}

  /** The spans and page owners after carving. */
  lemma CarvedTiles(h: Heap, p: Ptr, n: int, b: Ptr)
    requires CanCarve(h, p, n, b)
    ensures var s, h' := h.spans[p], Carved(h, p, n, b);
      && h'.leaked == h.leaked && h'.stats.system == h.stats.system
      && if s.length > n
         then
           && h'.spans == h.spans[b := Span(s.start + n, s.length - n, s.location, 0)][p := Span(s.start, n, InUse, 0)]
           && h'.owner == Cut(h.owner, b, Span(s.start + n, s.length - n, s.location, 0))
         else
           h'.spans == h.spans[p := Span(s.start, n, InUse, 0)] && h'.owner == h.owner
  {}

  lemma CarvedStatus(h: Heap, p: Ptr, n: int, b: Ptr, q: int)
    requires Tiled(h.spans, h.owner) && CanCarve(h, p, n, b) && q in h.owner
    ensures var s, h' := h.spans[p], Carved(h, p, n, b);
      && q in h'.owner && h'.owner[q] in h'.spans
      && h'.spans[h'.owner[q]].location == if s.start <= q < s.start + n then InUse else h.spans[h.owner[q]].location
  {
    hide Carved;
    CarvedTiles(h, p, n, b);
    assert h.spans[p].Contains(q) <==> h.owner[q] == p;
  }

  lemma PageAfterCarve(h: Heap, p: Ptr, n: int, b: Ptr, location: Location, q: int)
    requires Tiled(h.spans, h.owner) && CanCarve(h, p, n, b)
    ensures q in Carved(h, p, n, b).Pages(location) <==>
      if q in Range(h.spans[p].start, n) then location == InUse else q in h.Pages(location)
    ensures q in Range(h.spans[p].start, n) ==> q in h.Pages(h.spans[p].location)
  {
    hide Carved;
    CarvedTiles(h, p, n, b);
    if q in h.owner {
      CarvedStatus(h, p, n, b, q);
    }
    assert q in Range(h.spans[p].start, n) ==> h.spans[p].Contains(q);
  }

  /** Carving puts exactly the first `n` pages of the span in use and moves no other page. */
  lemma CarveMovesPages(h: Heap, p: Ptr, n: int, b: Ptr, location: Location)
    requires Tiled(h.spans, h.owner) && CanCarve(h, p, n, b)
    ensures Range(h.spans[p].start, n) <= h.Pages(h.spans[p].location)
    ensures location == InUse ==> Carved(h, p, n, b).Pages(location) == h.Pages(location) + Range(h.spans[p].start, n)
    ensures location != InUse ==> Carved(h, p, n, b).Pages(location) == h.Pages(location) - Range(h.spans[p].start, n)
  {
    hide Carved, At, Tiled, Range;
    forall q
      ensures q in Carved(h, p, n, b).Pages(location) <==>
        if q in Range(h.spans[p].start, n) then location == InUse else q in h.Pages(location)
      ensures q in Range(h.spans[p].start, n) ==> q in h.Pages(h.spans[p].location)
    {
      PageAfterCarve(h, p, n, b, location, q);
    }
  }

  lemma CarveKeepsCoalesced(h: Heap, p: Ptr, n: int, b: Ptr)
    requires Tiled(h.spans, h.owner) && CanCarve(h, p, n, b) && Coalesced(h.spans, {})
    ensures Coalesced(Carved(h, p, n, b).spans, {})
  {
    hide Carved;
    CarvedTiles(h, p, n, b);
    var s, spans' := h.spans[p], Carved(h, p, n, b).spans;
    forall a | a in spans' && a != p && a != b
      ensures spans'[a].End() != s.start + n
    {
      assert s.Contains(s.start + n - 1);
      assert !h.spans[a].Contains(s.start + n - 1);
    }
  }

  lemma CarveKeepsApart(h: Heap, p: Ptr, n: int, b: Ptr)
    requires Tiled(h.spans, h.owner) && CanCarve(h, p, n, b) && Apart(h.spans, {})
    ensures Apart(Carved(h, p, n, b).spans, {})
  {
    hide Carved;
    CarvedTiles(h, p, n, b);
    var s, spans' := h.spans[p], Carved(h, p, n, b).spans;
    forall a | a in spans' && a != p && a != b
      ensures spans'[a].End() != s.start + n
    {
      assert s.Contains(s.start + n - 1);
      assert !h.spans[a].Contains(s.start + n - 1);
    }
  }

  /** A new span `p` of `n` pages is in use; its pages were not in use before, and nothing else in
      use has changed. */
  ghost predicate Allocated(h: Heap, h': Heap, p: Ptr, n: int) {
    && n > 0 && p in h'.spans && p !in h.Live()
    && h'.spans[p] == Span(h'.spans[p].start, n, InUse, 0)
    && h'.Live() == h.Live()[p := h'.spans[p]]
    && Range(h'.spans[p].start, n) !! h.Pages(InUse)
    && h'.Pages(InUse) == h.Pages(InUse) + Range(h'.spans[p].start, n)
    && h'.owner.Keys == h.owner.Keys && h'.leaked == h.leaked && h'.stats.system == h.stats.system
    && h'.Pages(Normal) <= h.Pages(Normal)
  }

  lemma CarveKeepsUsed(h: Heap, p: Ptr, n: int, b: Ptr)
    requires CanCarve(h, p, n, b)
    ensures Carved(h, p, n, b).Live() == h.Live()[p := Span(h.spans[p].start, n, InUse, 0)]
  {
    hide Carved;
    CarvedTiles(h, p, n, b);
  }

  lemma CarveAllocates(h: Heap, h1: Heap, p: Ptr, n: int, b: Ptr)
    requires Evolves(h, h1) && Tiled(h1.spans, h1.owner) && CanCarve(h1, p, n, b)
    ensures Allocated(h, Carved(h1, p, n, b), p, n)
  {
    hide Carved, At, Tiled, Range, Used;
    CarvedTiles(h1, p, n, b);
    CarveMovesPages(h1, p, n, b, InUse);
    CarveMovesPages(h1, p, n, b, Normal);
    CarveKeepsUsed(h1, p, n, b);
    LocationsApart(h1, h1.spans[p].location, InUse);
    FreeIsUnused(h1, p);
  }

  lemma FreeIsUnused(h: Heap, p: Ptr)
    requires p in h.spans && h.spans[p].Free()
    ensures p !in h.Live()
  {}

  lemma CarveFrame(h: Heap, p: Ptr, n: int, b: Ptr)
    requires CanCarve(h, p, n, b)
    ensures var h' := Carved(h, p, n, b);
      h'.leaked == h.leaked && h'.stats.system == h.stats.system && h'.owner.Keys == h.owner.Keys && |h'.owner| == |h.owner|
  {
    hide Carved;
    CarvedTiles(h, p, n, b);
    assert |Carved(h, p, n, b).owner.Keys| == |h.owner.Keys|;
  }

  /** No span is longer than all managed pages. */
  lemma LengthBound(h: Heap, p: Ptr)
    requires Sound(h, {}, 0) && p in h.spans
    ensures h.spans[p].length <= |h.owner|
  {
    PagesOf(h.spans, h.owner, p);
    assert Range(h.spans[p].start, h.spans[p].length) <= h.owner.Keys;
    SubsetSize(Range(h.spans[p].start, h.spans[p].length), h.owner.Keys);
  }

  lemma AllocateAfter(h: Heap, h1: Heap, h2: Heap, p: Ptr, n: int)
    requires Evolves(h, h1) && Allocated(h1, h2, p, n)
    ensures Allocated(h, h2, p, n)
  {
    hide At, Used, Range, Spread;
  }

  /** Only pages taken from a returned span become mapped again. */
  lemma CarveCounts(h: Heap, p: Ptr, n: int, b: Ptr)
    requires Sound(h, {}, 0) && CanCarve(h, p, n, b)
    ensures Carved(h, p, n, b).stats.unmapped == h.stats.unmapped - if h.spans[p].location == Returned then n else 0
    ensures Carved(h, p, n, b).stats.free == h.stats.free - if h.spans[p].location == Normal then n else 0
  {
    hide Sound, Carved, At, Tiled, Range;
    CarveKeepsSound(h, p, n, b);
    StatsAgree(h);
    StatsAgree(Carved(h, p, n, b));
    CarveMovesPages(h, p, n, b, Normal);
    CarveMovesPages(h, p, n, b, Returned);
    LocationsApart(h, Normal, Returned);
    if h.spans[p].location == Normal {
      assert h.Pages(Returned) - Range(h.spans[p].start, n) == h.Pages(Returned);
    } else {
      assert h.Pages(Normal) - Range(h.spans[p].start, n) == h.Pages(Normal);
    }
  }

  // ---- freeing and growing

  /** The span `p` is no longer in use: its pages are free, possibly returned at once, and nothing
      else in use has changed. */
  ghost predicate Freed(h: Heap, h': Heap, p: Ptr) {
    && p in h.Live() && h.spans[p].length >= 0
    && h'.Live() == h.Live() - {p}
    && h'.Pages(InUse) == h.Pages(InUse) - Range(h.spans[p].start, h.spans[p].length)
    && h'.owner.Keys == h.owner.Keys && h'.leaked == h.leaked && h'.stats.system == h.stats.system
    && h.Pages(Returned) <= h'.Pages(Returned)
    && Spread(h.spans, h'.spans)
    && exists y :: y in h'.spans && h'.spans[y].Free() && h'.spans[y].start <= h.spans[p].start && h.spans[p].End() <= h'.spans[y].End()
  }

  lemma UnuseKeepsUsed(spans: SpanMap, p: Ptr, s: Span)
    requires p in spans && spans[p].location == InUse && s.Free()
    ensures Used(spans[p := s]) == Used(spans) - {p} && p in Used(spans)
  {}

  lemma UnuseSpreads(spans: SpanMap, p: Ptr, s: Span)
    requires p in spans && spans[p].location == InUse
    ensures Spread(spans, spans[p := s])
  {
    var spans' := spans[p := s];
    forall a | a in spans && spans[a].Free()
      ensures exists y :: y in spans' && Covers(spans'[y], spans[a])
    {
      assert Covers(spans'[a], spans[a]);
    }
  }

  lemma FreeThen(h: Heap, h': Heap, p: Ptr)
    requires Tiled(h.spans, h.owner) && p in h.spans && h.spans[p].location == InUse
    requires Evolves(Relocated(h, p, Normal), h')
    ensures Freed(h, h', p)
  {
    hide At, Used, Tiled, Range, Spread;
    var h1 := Relocated(h, p, Normal);
    MoveMovesPages(h, p, Normal, InUse);
    MoveMovesPages(h, p, Normal, Returned);
    LocationsApart(h, InUse, Returned);
    UnuseKeepsUsed(h.spans, p, h1.spans[p]);
    UnuseSpreads(h.spans, p, h1.spans[p]);
    SpreadOn(h.spans, h1.spans, h'.spans);
    CoveredStill(h1.spans, h'.spans, p);
  }

  lemma CoveredStill(spans: SpanMap, spans': SpanMap, p: Ptr)
    requires Spread(spans, spans') && p in spans && spans[p].Free()
    ensures exists y :: y in spans' && spans'[y].Free() && spans'[y].start <= spans[p].start && spans[p].End() <= spans'[y].End()
  {
    var y :| y in spans' && Covers(spans'[y], spans[p]);
  }

  /** Marking a span in use as free takes it off no list. */
  lemma UnuseKeepsSound(h: Heap, p: Ptr, location: Location)
    requires Sound(h, {}, 0) && p in h.spans && h.spans[p].location == InUse && location == Normal
    ensures Sound(Relocated(h, p, location), {p}, 0)
  {
    hide Sound;
    SkipLive(h, {}, {p}, 0, p);
    RelocateKeepsSound(h, {p}, p, location, 0);
  }

  /** No page of `h` that was returned is normal. */
  ghost predicate Thins(h: Heap, h': Heap) {
    forall q | q in h.owner && q in h'.Pages(Normal) :: q in h.Pages(Normal)
  }

  lemma ThinsOn(h: Heap, h1: Heap, h2: Heap)
    requires h.owner.Keys <= h1.owner.Keys
    ensures Thins(h, h1) && Thins(h1, h2) ==> Thins(h, h2)
    ensures Thins(h, h1) && h2.Pages(Normal) <= h1.Pages(Normal) ==> Thins(h, h2)
    ensures h1.Pages(Normal) <= h.Pages(Normal) && Thins(h1, h2) ==> Thins(h, h2)
  {
    hide At;
    assert forall q | q in h.owner :: q in h1.owner.Keys;
  }

  /** The heap may have grown; what was in use is untouched, free spans have only grown, and nothing
      returned has become normal. */
  ghost predicate Extends(h: Heap, h': Heap) {
    && h.owner.Keys <= h'.owner.Keys && h.leaked <= h'.leaked && Thins(h, h')
    && h'.Live() == h.Live() && h'.Pages(InUse) == h.Pages(InUse)
    && Spread(h.spans, h'.spans)
  }

  /** The same, with a new span `p` of `n` pages in use that were not in use before. */
  ghost predicate Supplied(h: Heap, h': Heap, p: Ptr, n: int) {
    && n > 0 && p in h'.spans && p !in h.Live()
    && h'.spans[p] == Span(h'.spans[p].start, n, InUse, 0)
    && h'.Live() == h.Live()[p := h'.spans[p]]
    && Range(h'.spans[p].start, n) !! h.Pages(InUse)
    && h'.Pages(InUse) == h.Pages(InUse) + Range(h'.spans[p].start, n)
    && h.owner.Keys <= h'.owner.Keys && h.leaked <= h'.leaked
  }

  lemma EvolvingExtends(h: Heap, h1: Heap, h2: Heap)
    requires (Extends(h, h1) && Evolves(h1, h2)) || (Evolves(h, h1) && Extends(h1, h2)) || (Extends(h, h1) && Extends(h1, h2))
    ensures Extends(h, h2)
  {
    hide At, Used, Spread, Thins;
    ThinsOn(h, h1, h2);
    SpreadOn(h.spans, h1.spans, h2.spans);
  }

  lemma AllocatingSupplies(h: Heap, h1: Heap, h2: Heap, p: Ptr, n: int)
    requires Extends(h, h1) && Allocated(h1, h2, p, n)
    ensures Supplied(h, h2, p, n) && Thins(h, h2)
  {
    hide At, Used, Range, Spread, Thins;
    ThinsOn(h, h1, h2);
  }

  lemma ExtendsSame(h: Heap)
    ensures Extends(h, h)
  {
    SpreadSame(h.spans);
  }

  lemma GrowSpreads(spans: SpanMap, b: Ptr, g: Span)
    requires b !in spans
    ensures Spread(spans, spans[b := g])
  {
    var spans' := spans[b := g];
    forall a | a in spans && spans[a].Free()
      ensures exists y :: y in spans' && Covers(spans'[y], spans[a])
    {
      assert Covers(spans'[a], spans[a]);
    }
  }

  lemma GrowKeepsUsed(spans: SpanMap, b: Ptr, g: Span)
    requires b !in spans && g.location == InUse
    ensures Used(spans[b := g]) - {b} == Used(spans)
  {}

  lemma GrowAddsPages(h: Heap, b: Ptr, g: Span)
    requires Tiled(h.spans, h.owner) && CanGrow(h, b, g)
    ensures Grew(h, b, g).Pages(InUse) - Range(g.start, g.length) == h.Pages(InUse)
  {
    hide Grown;
    var h' := Grew(h, b, g);
    forall q
      ensures q in h'.Pages(InUse) && !g.Contains(q) <==> q in h.Pages(InUse)
    {
      GrownAt(h.owner, b, g, q);
    }
    assert forall q :: q in Range(g.start, g.length) <==> g.Contains(q);
  }

  /** Of the pages there were, freeing a new region makes none normal. */
  lemma GrowThins(h: Heap, b: Ptr, g: Span, h': Heap)
    requires Tiled(h.spans, h.owner) && CanGrow(h, b, g) && Tiled(h'.spans, h'.owner)
    requires Freed(Grew(h, b, g), h', b)
    ensures Thins(h, h')
  {
    hide Used, Spread, Grown, Tiled;
    var h1 := Grew(h, b, g);
    forall q | q in h.owner && q in h'.Pages(Normal)
      ensures q in h.Pages(Normal)
    {
      GrownAt(h.owner, b, g, q);
      OneLocation(h.spans, h.owner, q);
      assert q !in h'.Pages(InUse) && q !in h'.Pages(Returned);
      assert q in h.Pages(InUse) ==> q in h1.Pages(InUse);
      assert q in h.Pages(Returned) ==> q in h1.Pages(Returned);
      assert q !in Range(g.start, g.length);
    }
  }

  lemma OneLocation(spans: SpanMap, owner: PageMap, q: int)
    requires Tiled(spans, owner) && q in owner
    ensures q in At(spans, owner, InUse, {}) + At(spans, owner, Normal, {}) + At(spans, owner, Returned, {})
  {}

  /** Growing the heap and freeing the new pages leaves everything in use as it was. */
  lemma GrowExtends(h: Heap, b: Ptr, g: Span, h': Heap)
    requires Tiled(h.spans, h.owner) && CanGrow(h, b, g)
    requires Freed(Grew(h, b, g), h', b)
    requires Tiled(h'.spans, h'.owner)
    ensures Extends(h, h')
    ensures h'.owner.Keys == h.owner.Keys + Range(g.start, g.length) && h'.leaked == h.leaked
    ensures exists y :: y in h'.spans && h'.spans[y].Free() && h'.spans[y].length >= g.length
  {
    hide At, Used, Tiled, Range, Spread, Grown, Thins;
    GrowThins(h, b, g, h');
    GrownKeys(h.owner, b, g);
    GrowKeepsUsed(h.spans, b, g);
    GrowAddsPages(h, b, g);
    GrowSpreads(h.spans, b, g);
    SpreadOn(h.spans, Grew(h, b, g).spans, h'.spans);
  }

  lemma FreeingUnmaps(h: Heap, h': Heap, p: Ptr)
    requires Sound(h, {}, 0) && Sound(h', {}, 0) && Freed(h, h', p)
    ensures h'.stats.unmapped >= h.stats.unmapped && |h'.owner| == |h.owner|
  {
    hide Sound, At, Used, Tiled, Range, Spread;
    StatsAgree(h);
    StatsAgree(h');
    SubsetSize(h.Pages(Returned), h'.Pages(Returned));
    assert |h'.owner.Keys| == |h.owner.Keys|;
  }

  // ---- splitting a span in use

  lemma CutKeepsUsed(h: Heap, p: Ptr, b: Ptr, n: int)
    requires CanCut(h, p, b, n)
    ensures var h' := Cutoff(h, p, b, n, InUse);
      h'.Live() == h.Live()[p := h'.spans[p]][b := h'.spans[b]]
  {}

  lemma CutKeepsInUse(h: Heap, p: Ptr, b: Ptr, n: int)
    requires Tiled(h.spans, h.owner) && CanCut(h, p, b, n)
    ensures Cutoff(h, p, b, n, InUse).Pages(InUse) == h.Pages(InUse)
  {
    var h' := Cutoff(h, p, b, n, InUse);
    forall q | q in h.owner
      ensures h'.owner[q] in h'.spans && (h'.spans[h'.owner[q]].location == InUse <==> h.spans[h.owner[q]].location == InUse)
    {
      assert h'.spans[b].Contains(q) ==> h.spans[p].Contains(q);
    }
  }

  lemma SplitKeepsSound(h: Heap, p: Ptr, b: Ptr, n: int)
    requires Sound(h, {}, 0) && CanCut(h, p, b, n)
    ensures Sound(Cutoff(h, p, b, n, InUse), {}, 0)
  {
    hide Sound;
    CutKeepsSound(h, p, b, n, InUse, 0);
    SkipLive(Cutoff(h, p, b, n, InUse), {}, {b}, 0, b);
  }

  lemma SplitKeepsCoalesced(h: Heap, p: Ptr, b: Ptr, n: int)
    requires CanCut(h, p, b, n) && Coalesced(h.spans, {})
    ensures Coalesced(Cutoff(h, p, b, n, InUse).spans, {})
  {}

  lemma SplitKeepsApart(h: Heap, p: Ptr, b: Ptr, n: int)
    requires CanCut(h, p, b, n) && Apart(h.spans, {})
    ensures Apart(Cutoff(h, p, b, n, InUse).spans, {})
  {}

  lemma TrimSets(used: set<int>, r: set<int>, r1: set<int>, r2: set<int>)
    requires r == r1 + r2 && r1 !! r2 && r !! used
    ensures used + r - r1 == used + r2 && r2 !! used
    ensures used + r - r2 == used + r1 && r1 !! used
  {}

  lemma TrimPages(used: set<int>, start: int, n: nat, m: nat)
    requires n <= m && Range(start, m) !! used
    ensures used + Range(start, m) - Range(start, n) == used + Range(start + n, m - n) && Range(start + n, m - n) !! used
    ensures used + Range(start, m) - Range(start + n, m - n) == used + Range(start, n) && Range(start, n) !! used
  {
    hide Range;
    RangeConcat(start, n, m - n);
    TrimSets(used, Range(start, m), Range(start, n), Range(start + n, m - n));
  }

  lemma TrimLive(live: SpanMap, p: Ptr, s: Span, s1: Span, b: Ptr, s2: Span)
    requires p !in live && b !in live && p != b
    ensures live[p := s][p := s1][b := s2] - {p} == live[b := s2]
    ensures live[p := s][p := s1][b := s2] - {b} == live[p := s1]
  {}

  /** The two parts of a newly supplied span that is cut. */
  lemma CutSupplied(h: Heap, h1: Heap, p: Ptr, b: Ptr, m: int, n: int)
    requires Supplied(h, h1, p, m) && Tiled(h1.spans, h1.owner) && CanCut(h1, p, b, n)
    ensures var h2, start := Cutoff(h1, p, b, n, InUse), h1.spans[p].start;
      && 0 < n < m && p in h2.spans && b in h2.spans && h.owner.Keys <= h2.owner.Keys && h.leaked <= h2.leaked && p !in h.Live()
      && h2.spans[p] == Span(start, n, InUse, 0) && h2.spans[b] == Span(start + n, m - n, InUse, 0)
      && h2.Live() - {p} == h.Live()[b := h2.spans[b]] && h2.Live() - {b} == h.Live()[p := h2.spans[p]] && b !in h.Live()
      && h2.Pages(InUse) - Range(start, n) == h.Pages(InUse) + Range(start + n, m - n)
      && h2.Pages(InUse) - Range(start + n, m - n) == h.Pages(InUse) + Range(start, n)
      && Range(start, n) !! h.Pages(InUse) && Range(start + n, m - n) !! h.Pages(InUse)
  {
    hide At, Tiled, Used, Range, Cut;
    var h2 := Cutoff(h1, p, b, n, InUse);
    LiveIsThere(h1);
    CutKeepsUsed(h1, p, b, n);
    CutKeepsInUse(h1, p, b, n);
    TrimPages(h.Pages(InUse), h1.spans[p].start, n, m);
    TrimLive(h.Live(), p, h1.spans[p], h2.spans[p], b, h2.spans[b]);
  }

  /** A span is supplied when everything else in use is as before. */
  lemma Supplies(h: Heap, h2: Heap, h3: Heap, gone: Ptr, p: Ptr, s: Span)
    requires Freed(h2, h3, gone)
    requires h2.Live() - {gone} == h.Live()[p := s] && p !in h.Live() && s == Span(s.start, s.length, InUse, 0) && s.length > 0
    requires h2.Pages(InUse) - Range(h2.spans[gone].start, h2.spans[gone].length) == h.Pages(InUse) + Range(s.start, s.length)
    requires Range(s.start, s.length) !! h.Pages(InUse)
    requires h.owner.Keys <= h2.owner.Keys && h.leaked <= h2.leaked
    ensures Supplied(h, h3, p, s.length) && h3.spans[p] == s
  {
    hide At, Used, Range, Spread;
    LiveAt(h3, p);
  }

  /** The first part is freed and the second kept. */
  lemma KeepSecond(h: Heap, h1: Heap, h3: Heap, p: Ptr, b: Ptr, m: int, n: int)
    requires Supplied(h, h1, p, m) && Tiled(h1.spans, h1.owner) && CanCut(h1, p, b, n)
    requires Freed(Cutoff(h1, p, b, n, InUse), h3, p)
    ensures Supplied(h, h3, b, m - n) && h3.spans[b].start == h1.spans[p].start + n
  {
    hide At, Tiled, Used, Range, Spread, Cutoff, Freed, Supplied;
    CutSupplied(h, h1, p, b, m, n);
    var h2 := Cutoff(h1, p, b, n, InUse);
    Supplies(h, h2, h3, p, b, h2.spans[b]);
  }

  /** The second part is freed and the first kept. */
  lemma KeepFirst(h: Heap, h1: Heap, h3: Heap, p: Ptr, b: Ptr, m: int, n: int)
    requires Supplied(h, h1, p, m) && Tiled(h1.spans, h1.owner) && CanCut(h1, p, b, n)
    requires Freed(Cutoff(h1, p, b, n, InUse), h3, b)
    ensures Supplied(h, h3, p, n) && h3.spans[p].start == h1.spans[p].start
  {
    hide At, Tiled, Used, Range, Spread, Cutoff, Freed, Supplied;
    CutSupplied(h, h1, p, b, m, n);
    var h2 := Cutoff(h1, p, b, n, InUse);
    Supplies(h, h2, h3, b, p, h2.spans[p]);
  }

  lemma LiveAt(h: Heap, p: Ptr)
    requires p in h.Live()
    ensures p in h.spans && h.spans[p] == h.Live()[p]
  {}

  lemma LiveIsThere(h: Heap)
    ensures forall p | p in h.Live() :: p in h.spans && h.spans[p] == h.Live()[p]
  {}

  /** A new span `p` of `n` pages with the given size class is in use; its pages were not in use
      before, and nothing else in use has changed. */
  ghost predicate Granted(h: Heap, h': Heap, p: Ptr, n: int, sizeclass: int) {
    && n > 0 && p in h'.spans && p !in h.Live()
    && h'.spans[p] == Span(h'.spans[p].start, n, InUse, sizeclass)
    && h'.Live() == h.Live()[p := h'.spans[p]]
    && Range(h'.spans[p].start, n) !! h.Pages(InUse)
    && h'.Pages(InUse) == h.Pages(InUse) + Range(h'.spans[p].start, n)
    && h.owner.Keys <= h'.owner.Keys && h.leaked <= h'.leaked
  }

  lemma SuppliedIsGranted(h: Heap, h': Heap, p: Ptr, n: int)
    requires Supplied(h, h', p, n)
    ensures Granted(h, h', p, n, 0)
  {
    hide At, Used, Range;
  }

  lemma RegisterGrants(h: Heap, h1: Heap, h2: Heap, p: Ptr, n: int, sizeclass: int)
    requires Supplied(h, h1, p, n)
    requires h2 == h1.(spans := h1.spans[p := h1.spans[p].(sizeclass := sizeclass)], pagemap := h2.pagemap)
    ensures Granted(h, h2, p, n, sizeclass)
  {
    hide At, Used, Range;
    RegisterKeepsPages(h1.spans, h1.owner, p, sizeclass, InUse);
    RegisterKeepsUsed(h1.spans, p, sizeclass);
    RegisterTwice(h.Live(), p, h1.spans[p], h2.spans[p]);
  }

  lemma RegisterTwice(live: SpanMap, p: Ptr, s: Span, s': Span)
    ensures live[p := s][p := s'] == live[p := s']
  {}

  lemma RegisterKeepsUsed(spans: SpanMap, p: Ptr, sizeclass: int)
    requires p in spans && spans[p].location == InUse
    ensures Used(spans[p := spans[p].(sizeclass := sizeclass)]) == Used(spans)[p := spans[p].(sizeclass := sizeclass)]
  {}
}
