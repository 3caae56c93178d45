/** The number of pages left over, which Carve and Split hold in a 32-bit int (page_heap.cc). */
module Truncation {
  import opened Arith
  import opened Spans
  import opened FreeLists
  import opened HeapState
  import opened Coalescing
  import opened Carving
  import opened Aggressive

  /** One more than the largest value of a 32-bit int. */
  const INT_LIMIT: int := 0x8000_0000

  /** The conversion of a page count to a 32-bit int. */
  function ToInt32(n: int): (r: int)
    ensures 0 <= n < INT_LIMIT ==> r == n
    ensures n >= INT_LIMIT ==> r != n
    ensures -INT_LIMIT <= r < INT_LIMIT
  {
    var m := n % (2 * INT_LIMIT);
    if m < INT_LIMIT then m else m - 2 * INT_LIMIT
  }

  /** The conversion of an int back to an unsigned 64-bit length. */
  function ToLength(n: int): (r: int)
    ensures 0 <= n < WORD ==> r == n
    ensures -INT_LIMIT <= n < 0 ==> r == n + WORD
  {
    n % WORD
  }

  /** The entries RecordSpan makes: at the first page, and at the last one if there are several. */
  function Recording(pagemap: PageMap, s: Span, p: Ptr): PageMap {
    if s.length > 1 then pagemap[s.start := p][s.End() - 1 := p] else pagemap[s.start := p]
  }

  /** A span is shortened to `n` pages, and a new span `b` of `extra` pages follows it. */
  ghost function CutAs(h: Heap, s: Ptr, b: Ptr, n: int, location: Location, extra: int): Heap
    requires s in h.spans
  {
    var m, cut := h.spans[s].(length := n), Span(h.spans[s].start + n, extra, location, 0);
    h.(spans := h.spans[b := cut][s := m],
       pagemap := Recording(h.pagemap, cut, b)[m.End() - 1 := s],
       owner := Cut(h.owner, b, cut))
  }

  /** What Carve does when it takes the number of pages left over to be `extra`. */
  ghost function CarvedAs(h: Heap, p: Ptr, n: int, b: Ptr, extra: int): Heap
    requires p in h.spans
  {
    var s := h.spans[p];
    var h1 := Relocated(Removed(h, p), p, InUse);
    var h2 := if extra > 0 then Prepended(CutAs(h1, p, b, n, s.location, extra), b) else h1;
    if s.location == Returned then Committed(h2, h2.spans[p].length) else h2
  }

  lemma CutAsCutoff(h: Heap, s: Ptr, b: Ptr, n: int, location: Location)
    requires s in h.spans && n < h.spans[s].length
    ensures CutAs(h, s, b, n, location, h.spans[s].length - n) == Cutoff(h, s, b, n, location)
  {
    hide Cut;
    var cut := Span(h.spans[s].start + n, h.spans[s].length - n, location, 0);
    assert Recording(h.pagemap, cut, b) == h.pagemap[cut.start := b][cut.End() - 1 := b];
  }

  lemma CarvedAsCarved(h: Heap, p: Ptr, n: int, b: Ptr)
    requires CanCarve(h, p, n, b)
    ensures CarvedAs(h, p, n, b, h.spans[p].length - n) == Carved(h, p, n, b)
  {
    hide Removed, CutAs, Enlist, Cut;
    RemovedSpans(h, p);
    if h.spans[p].length > n {
      CutAsCutoff(Relocated(Removed(h, p), p, InUse), p, b, n, h.spans[p].location);
    }
  }

  lemma CarvedAsTiles(h: Heap, p: Ptr, n: int, b: Ptr, extra: int)
    requires CanCarve(h, p, n, b) && (extra > 0 ==> b != p)
    ensures var s, h' := h.spans[p], CarvedAs(h, p, n, b, extra);
      && p in h'.spans
      && (extra <= 0 ==> h'.spans[p].length == s.length)
      && (extra > 0 ==> h'.spans[p] == Span(s.start, n, InUse, 0))
      && (extra > 0 ==> h'.owner == Cut(h.owner, b, Span(s.start + n, extra, s.location, 0)))
  {
    hide Cut;
  }

  /** A page of a span that is cut too short is in no span. */
  lemma PageLost(h: Heap, h': Heap, p: Ptr, b: Ptr, cut: Span, q: int)
    requires Tiled(h.spans, h.owner) && p in h.spans && h.spans[p].Contains(q) && !cut.Contains(q)
    requires h'.owner == Cut(h.owner, b, cut) && p in h'.spans && !h'.spans[p].Contains(q)
    ensures !Sound(h', {}, 0)
  {
    assert q in h.owner && h.owner[q] == p;
    assert q in h'.owner && h'.owner[q] == p;
  }

  lemma ShortCarve(h: Heap, p: Ptr, n: int, b: Ptr, extra: int)
    requires Sound(h, {}, 0) && CanCarve(h, p, n, b) && 0 < extra < h.spans[p].length - n
    ensures !Sound(CarvedAs(h, p, n, b, extra), {}, 0)
  {
    hide Sound, CarvedAs, Tiled, Cut;
    var s := h.spans[p];
    IsTiled(h, {}, 0);
    CarvedAsTiles(h, p, n, b, extra);
    PageLost(h, CarvedAs(h, p, n, b, extra), p, b, Span(s.start + n, extra, s.location, 0), s.start + n + extra);
  }

  lemma AllocatedLength(h: Heap, h': Heap, p: Ptr, n: int)
    requires p in h'.spans && h'.spans[p].length != n
    ensures !Allocated(h, h', p, n)
  {}

  /** Carving gives the caller `n` pages and keeps the rest exactly if fewer than 2^31 pages are left
      over.  Otherwise either the whole span is handed out, or pages are lost. */
  lemma CarveIsRightIff(h: Heap, p: Ptr, n: int, b: Ptr)
    requires Sound(h, {}, 0) && CanCarve(h, p, n, b)
    ensures var h' := CarvedAs(h, p, n, b, ToInt32(h.spans[p].length - n));
      Sound(h', {}, 0) && Allocated(h, h', p, n) <==> h.spans[p].length - n < INT_LIMIT
  {
    hide Sound, CarvedAs, Carved, Tiled, Evolves, ToInt32, Cut, Allocated, Range;
    var s, extra := h.spans[p], ToInt32(h.spans[p].length - n);
    IsTiled(h, {}, 0);
    if s.length - n < INT_LIMIT {
      CarvedAsCarved(h, p, n, b);
      CarveKeepsSound(h, p, n, b);
      Stays(h);
      CarveAllocates(h, h, p, n, b);
    } else {
      if extra > 0 {
        ShortCarve(h, p, n, b, extra);
      } else {
        CarvedAsTiles(h, p, n, b, extra);
        AllocatedLength(h, CarvedAs(h, p, n, b, extra), p, n);
      }
    }
  }

  lemma CutAsTiles(h: Heap, p: Ptr, b: Ptr, n: int, extra: int)
    requires CanCut(h, p, b, n)
    ensures var s, h' := h.spans[p], CutAs(h, p, b, n, InUse, extra);
      && h'.spans == h.spans[b := Span(s.start + n, extra, InUse, 0)][p := s.(length := n)]
      && h'.owner == Cut(h.owner, b, Span(s.start + n, extra, InUse, 0))
  {
    hide Cut;
  }

  /** A span that reaches into pages of no span, or of another, breaks the tiling. */
  lemma PageClaimed(h: Heap, h': Heap, p: Ptr, b: Ptr, cut: Span, q: int)
    requires Tiled(h.spans, h.owner) && p in h.spans && b !in h.spans && !h.spans[p].Contains(q) && cut.Contains(q)
    requires h'.owner == Cut(h.owner, b, cut) && p in h'.spans && h'.spans == h.spans[b := cut][p := h'.spans[p]]
    ensures !Sound(h', {}, 0)
  {
    if q in h.owner {
      var x := h.owner[q];
      assert x != p && h'.spans[x].Contains(q) && h'.owner[q] == b;
    } else {
      assert h'.spans[b].Contains(q) && q !in h'.owner;
    }
  }

  lemma EmptySpan(h: Heap, b: Ptr)
    requires b in h.spans && h.spans[b].length <= 0
    ensures !Sound(h, {}, 0)
  {
    if Sound(h, {}, 0) {
      Shape(h, {}, 0, b);
    }
  }

  /** Splitting keeps the heap sound exactly if fewer than 2^31 pages are split off. */
  lemma SplitIsRightIff(h: Heap, p: Ptr, b: Ptr, n: int)
    requires Sound(h, {}, 0) && CanCut(h, p, b, n) && h.spans[p].length < WORD - INT_LIMIT
    ensures var h' := CutAs(h, p, b, n, InUse, ToLength(ToInt32(h.spans[p].length - n)));
      Sound(h', {}, 0) <==> h.spans[p].length - n < INT_LIMIT
  {
    hide Sound, CutAs, Cutoff, Tiled, ToInt32, ToLength, Cut;
    var s, extra := h.spans[p], ToInt32(h.spans[p].length - n);
    IsTiled(h, {}, 0);
    if s.length - n < INT_LIMIT {
      CutAsCutoff(h, p, b, n, InUse);
      SplitKeepsSound(h, p, b, n);
    } else {
      var cut := Span(s.start + n, ToLength(extra), InUse, 0);
      var h' := CutAs(h, p, b, n, InUse, ToLength(extra));
      CutAsTiles(h, p, b, n, ToLength(extra));
      if extra == 0 {
        EmptySpan(h', b);
      } else if extra > 0 {
        PageLost(h, h', p, b, cut, s.start + n + extra);
      } else {
        PageClaimed(h, h', p, b, cut, s.End());
      }
    }
  }

  /** A heap of one free span of 2^32 + 2 pages. */
  ghost function Vast(): Heap
    requires 1 in Grew(EmptyHeap(), 1, Span(1, 0x1_0000_0002, InUse, 0)).spans
  {
    Prepended(Relocated(Grew(EmptyHeap(), 1, Span(1, 0x1_0000_0002, InUse, 0)), 1, Normal), 1)
  }

  lemma VastIsSound()
    ensures 1 in Grew(EmptyHeap(), 1, Span(1, 0x1_0000_0002, InUse, 0)).spans
    ensures Sound(Vast(), {}, 0) && Vast().spans == map[1 := Span(1, 0x1_0000_0002, Normal, 0)]
  {
    hide Sound, Grown, Enlist;
    EmptyIsSound();
    var g := Span(1, 0x1_0000_0002, InUse, 0);
    var h := Grew(EmptyHeap(), 1, g);
    GrowKeepsSound(EmptyHeap(), 1, g);
    UnuseKeepsSound(h, 1, Normal);
    PrependKeepsSound(Relocated(h, 1, Normal), {1}, {}, 1, 0);
  }

  lemma VastLosesPages()
    ensures 1 in Grew(EmptyHeap(), 1, Span(1, 0x1_0000_0002, InUse, 0)).spans
    ensures CanCarve(Vast(), 1, 1, 2) && !Sound(CarvedAs(Vast(), 1, 1, 2, 1), {}, 0)
    ensures Vast().spans[1].length == 0x1_0000_0002
  {
    hide Sound, CarvedAs, Vast, Grew;
    VastIsSound();
    ShortCarve(Vast(), 1, 1, 2, 1);
  }

  /** Carving one page out of such a heap leaves a span of one page, and no span holds the rest. */
  lemma CarveCanLosePages()
    ensures exists h, p, n, b ::
      && Sound(h, {}, 0) && CanCarve(h, p, n, b)
      && !Sound(CarvedAs(h, p, n, b, ToInt32(h.spans[p].length - n)), {}, 0)
  {
    hide Sound, CarvedAs, Vast, CanCarve, Grew;
    VastIsSound();
    VastLosesPages();
    assert ToInt32(0x1_0000_0001) == 1;
  }
}
