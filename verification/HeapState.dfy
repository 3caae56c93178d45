/** The state of the page heap as a value, the primitive transitions its methods are made of, and
    the invariant every one of them keeps (page_heap.h, page_heap.cc). */
module HeapState {
  import opened Spans
  import opened FreeLists
  import opened Accounting

  /** Page-heap statistics.  Every byte count of the source is a multiple of the page size, so
      they are kept in pages. */
  datatype Stats = Stats(system: int, free: int, unmapped: int, committed: int)

  /** `owner` and `leaked` are bookkeeping of the model: the true tiling, and the pages obtained
      from the system for which the page map could not be extended. */
  datatype Heap = Heap(spans: SpanMap, pagemap: PageMap, lists: Lists, stats: Stats, owner: PageMap, leaked: int) {
    ghost function Pages(location: Location): set<int> {
      At(spans, owner, location, {})
    }

    /** The spans in use, with their contents. */
    ghost function Live(): SpanMap {
      Used(spans)
    }
  }

  /** `free` and `unmapped` count the listed spans.  `committed` excludes all returned spans, and
      `pending` pages of a span that is decommitted but about to be absorbed by a returned one. */
  ghost predicate Balanced(h: Heap, skip: set<Ptr>, pending: int) {
    && h.stats.free == |At(h.spans, h.owner, Normal, skip)|
    && h.stats.unmapped == |At(h.spans, h.owner, Returned, skip)|
    && h.stats.system == |h.owner| + h.leaked
    && h.stats.committed == h.stats.system - |h.Pages(Returned)| - pending
  }

  /** The invariant of the page heap while the spans in `skip` are off the lists. */
  ghost predicate Sound(h: Heap, skip: set<Ptr>, pending: int) {
    && Laid(h.spans, h.pagemap, h.owner)
    && Exact(h.spans, h.lists, skip)
    && Balanced(h, skip, pending)
    && h.leaked >= 0
  }

  // ---- the free lists

  ghost function Prepended(h: Heap, p: Ptr): Heap
    requires p in h.spans
  {
    var s := h.spans[p];
    h.(lists := Enlist(h.lists, p, s),
       stats := if s.location == Normal
                then h.stats.(free := h.stats.free + s.length)
                else h.stats.(unmapped := h.stats.unmapped + s.length))
  }

  ghost function Removed(h: Heap, p: Ptr): Heap
    requires p in h.spans
  {
    var s := h.spans[p];
    h.(lists := Delist(h.lists, p, s),
       stats := if s.location == Normal
                then h.stats.(free := h.stats.free - s.length)
                else h.stats.(unmapped := h.stats.unmapped - s.length))
  }

  lemma IsTiled(h: Heap, skip: set<Ptr>, pending: int)
    requires Sound(h, skip, pending)
    ensures Tiled(h.spans, h.owner)
  {}

  lemma Shape(h: Heap, skip: set<Ptr>, pending: int, p: Ptr)
    requires Sound(h, skip, pending) && p in h.spans
    ensures h.spans[p].length > 0 && h.spans[p].start > 0
    ensures Tiled(h.spans, h.owner) && forall p | p in h.spans :: h.spans[p].length > 0
  {}

  lemma PrependKeepsBalance(h: Heap, skip: set<Ptr>, skip': set<Ptr>, p: Ptr, pending: int)
    requires Tiled(h.spans, h.owner) && Balanced(h, skip, pending)
    requires p in h.spans && p in skip && skip' == skip - {p} && h.spans[p].Free()
    ensures Balanced(Prepended(h, p), skip', pending)
  {
    hide Enlist, At, Range, Tiled;
    SkipOne(h.spans, h.owner, Normal, skip', skip, p);
    SkipOne(h.spans, h.owner, Returned, skip', skip, p);
  }

  lemma PrependKeepsSound(h: Heap, skip: set<Ptr>, skip': set<Ptr>, p: Ptr, pending: int)
    requires Sound(h, skip, pending)
    requires p in h.spans && p in skip && skip' == skip - {p} && h.spans[p].Free()
    ensures Sound(Prepended(h, p), skip', pending)
  {
    hide Laid, Enlist, Exact, Balanced, Tiled;
    Shape(h, skip, pending, p);
    EnlistKeepsExact(h.spans, h.lists, skip, skip', p);
    PrependKeepsBalance(h, skip, skip', p, pending);
  }

  lemma RemoveKeepsBalance(h: Heap, skip: set<Ptr>, skip': set<Ptr>, p: Ptr, pending: int)
    requires Tiled(h.spans, h.owner) && Balanced(h, skip, pending)
    requires p in h.spans && p !in skip && skip' == skip + {p} && h.spans[p].Free()
    ensures Balanced(Removed(h, p), skip', pending)
  {
    hide Delist, At, Range, Tiled;
    SkipOne(h.spans, h.owner, Normal, skip, skip', p);
    SkipOne(h.spans, h.owner, Returned, skip, skip', p);
  }

  lemma RemoveKeepsSound(h: Heap, skip: set<Ptr>, skip': set<Ptr>, p: Ptr, pending: int)
    requires Sound(h, skip, pending)
    requires p in h.spans && p !in skip && skip' == skip + {p} && h.spans[p].Free()
    ensures Sound(Removed(h, p), skip', pending)
  {
    hide Laid, Delist, Exact, Balanced, Tiled;
    Shape(h, skip, pending, p);
    DelistKeepsExact(h.spans, h.lists, skip, skip', p);
    RemoveKeepsBalance(h, skip, skip', p, pending);
  }

  // ---- coalescing

  /** The span that `s` becomes when it absorbs its neighbour `x`. */
  ghost function Merger(h: Heap, s: Ptr, x: Ptr): Span
    requires s in h.spans && x in h.spans
  {
    h.spans[s].(start := if h.spans[x].End() == h.spans[s].start then h.spans[x].start else h.spans[s].start,
                length := h.spans[s].length + h.spans[x].length)
  }

  /** The descriptor of `x` is freed, `s` grows over its pages, and the one page-map entry at the
      far edge of `x` is redirected; all other entries of its pages go stale. */
  ghost function Absorbed(h: Heap, s: Ptr, x: Ptr): Heap
    requires s in h.spans && x in h.spans
  {
    var m := Merger(h, s, x);
    h.(spans := (h.spans - {x})[s := m],
       pagemap := h.pagemap[if h.spans[x].End() == h.spans[s].start then m.start else m.End() - 1 := s],
       owner := Reowned(h.owner, x, s))
  }

  /** Spans of equal location merge, and a normal span already decommitted merges into a returned one. */
  ghost predicate Absorbable(h: Heap, s: Ptr, x: Ptr, pending: int)
    requires s in h.spans && x in h.spans
  {
    && h.spans[s].sizeclass == 0 && h.spans[s].Free() && h.spans[x].Free()
    && (|| (pending == 0 && h.spans[x].location == h.spans[s].location)
        || (pending == h.spans[x].length && h.spans[x].location == Normal && h.spans[s].location == Returned))
  }

  ghost predicate Touch(h: Heap, s: Ptr, x: Ptr) {
    && s in h.spans && x in h.spans && s != x
    && (h.spans[x].End() == h.spans[s].start || h.spans[s].End() == h.spans[x].start)
  }

  lemma AbsorbKeepsBalance(h: Heap, s: Ptr, x: Ptr, pending: int)
    requires Tiled(h.spans, h.owner) && Balanced(h, {s, x}, pending) && Touch(h, s, x) && Absorbable(h, s, x, pending)
    ensures Balanced(Absorbed(h, s, x), {s}, 0)
  {
    hide At, Tiled, Reowned, Range;
    var m := Merger(h, s, x);
    AbsorbKeepsOthers(h.spans, h.owner, s, x, m, Normal);
    AbsorbKeepsOthers(h.spans, h.owner, s, x, m, Returned);
    AbsorbCount(h.spans, h.owner, s, x, m, Returned);
    assert |Reowned(h.owner, x, s).Keys| == |h.owner.Keys|;
  }

  lemma AbsorbKeepsExact(h: Heap, s: Ptr, x: Ptr)
    requires Tiled(h.spans, h.owner) && Exact(h.spans, h.lists, {s, x}) && Touch(h, s, x)
    ensures Exact(Absorbed(h, s, x).spans, h.lists, {s})
  {
    hide Exact;
    OthersStayExact(h.spans, {s, x}, Absorbed(h, s, x).spans, {s}, h.lists);
  }

  lemma AbsorbKeepsSound(h: Heap, s: Ptr, x: Ptr, pending: int)
    requires Sound(h, {s, x}, pending) && Touch(h, s, x) && Absorbable(h, s, x, pending)
    ensures Sound(Absorbed(h, s, x), {s}, 0)
  {
    hide Laid, Exact, Balanced, Tiled;
    var m := Merger(h, s, x);
    Shape(h, {s, x}, pending, s);
    AbsorbKeepsLayout(h.spans, h.pagemap, h.owner, s, x, m, if h.spans[x].End() == h.spans[s].start then m.start else m.End() - 1);
    AbsorbKeepsExact(h, s, x);
    AbsorbKeepsBalance(h, s, x, pending);
  }

  // ---- moving a span between locations, and cutting it

  ghost function Committed(h: Heap, n: int): Heap {
    h.(stats := h.stats.(committed := h.stats.committed + n))
  }

  /** The span moves to another location, losing any size class. */
  ghost function Relocated(h: Heap, p: Ptr, location: Location): Heap
    requires p in h.spans
  {
    h.(spans := h.spans[p := h.spans[p].(location := location, sizeclass := 0)])
  }

  /** The pages by which a span counts as returned. */
  ghost function Weight(s: Span): int {
    if s.location == Returned then s.length else 0
  }

  lemma CommitKeepsSound(h: Heap, skip: set<Ptr>, pending: int, n: int)
    requires Sound(h, skip, pending)
    ensures Sound(Committed(h, n), skip, pending - n)
  {
    hide Laid, Exact, At;
  }

  /** A span in use is on no list, so it makes no difference whether it is skipped. */
  lemma SkipLive(h: Heap, skip: set<Ptr>, skip': set<Ptr>, pending: int, p: Ptr)
    requires p in h.spans && h.spans[p].location == InUse && p !in skip && skip' == skip + {p}
    ensures Sound(h, skip, pending) <==> Sound(h, skip', pending)
  {
    hide At, Exact;
    if Laid(h.spans, h.pagemap, h.owner) {
      SkipOne(h.spans, h.owner, Normal, skip, skip', p);
      SkipOne(h.spans, h.owner, Returned, skip, skip', p);
      if Exact(h.spans, h.lists, skip) {
        OthersStayExact(h.spans, skip, h.spans, skip', h.lists);
      }
      if Exact(h.spans, h.lists, skip') {
        OthersStayExact(h.spans, skip', h.spans, skip, h.lists);
      }
    }
  }

  lemma RelocateKeepsBalance(h: Heap, skip: set<Ptr>, p: Ptr, location: Location, pending: int)
    requires Tiled(h.spans, h.owner) && Balanced(h, skip, pending) && p in h.spans && p in skip
    requires Tiled(Relocated(h, p, location).spans, h.owner)
    ensures Balanced(Relocated(h, p, location), skip, pending + Weight(h.spans[p]) - Weight(Relocated(h, p, location).spans[p]))
  {
    hide At, Tiled;
    var h' := Relocated(h, p, location);
    ChangeKeepsPages(h.spans, h.owner, p, h'.spans[p], Normal, skip);
    ChangeKeepsPages(h.spans, h.owner, p, h'.spans[p], Returned, skip);
    ChangeKeepsPages(h.spans, h.owner, p, h'.spans[p], Returned, {p});
    SkipOne(h.spans, h.owner, Returned, {}, {p}, p);
    SkipOne(h'.spans, h.owner, Returned, {}, {p}, p);
  }

  lemma RelocateKeepsExact(h: Heap, skip: set<Ptr>, p: Ptr, location: Location)
    requires Tiled(h.spans, h.owner) && Exact(h.spans, h.lists, skip) && p in h.spans && p in skip
    ensures Exact(Relocated(h, p, location).spans, h.lists, skip)
  {
    hide Exact;
    OthersStayExact(h.spans, skip, Relocated(h, p, location).spans, skip, h.lists);
  }

  lemma RelocateKeepsSound(h: Heap, skip: set<Ptr>, p: Ptr, location: Location, pending: int)
    requires Sound(h, skip, pending) && p in h.spans && p in skip
    ensures Sound(Relocated(h, p, location), skip, pending + Weight(h.spans[p]) - Weight(Relocated(h, p, location).spans[p]))
  {
    hide Exact, Balanced, Tiled, Mapped;
    var h' := Relocated(h, p, location);
    UpdateKeepsLayout(h.spans, h.pagemap, h.owner, p, location, 0);
    RelocateKeepsExact(h, skip, p, location);
    RelocateKeepsBalance(h, skip, p, location, pending);
  }

  /** A span in use is shortened to `n` pages; the rest becomes the new span `b`. */
  ghost function Cutoff(h: Heap, s: Ptr, b: Ptr, n: int, location: Location): Heap
    requires s in h.spans
  {
    var m, cut := h.spans[s].(length := n), Span(h.spans[s].start + n, h.spans[s].length - n, location, 0);
    h.(spans := h.spans[b := cut][s := m],
       pagemap := h.pagemap[cut.start := b][cut.End() - 1 := b][m.End() - 1 := s],
       owner := Cut(h.owner, b, cut))
  }

  ghost predicate CanCut(h: Heap, s: Ptr, b: Ptr, n: int) {
    && s in h.spans && b !in h.spans && h.spans[s].location == InUse && h.spans[s].sizeclass == 0
    && 0 < n < h.spans[s].length
  }

  lemma CutKeepsBalance(h: Heap, s: Ptr, b: Ptr, n: int, location: Location, pending: int)
    requires Tiled(h.spans, h.owner) && Balanced(h, {}, pending) && CanCut(h, s, b, n)
    ensures Balanced(Cutoff(h, s, b, n, location), {b}, pending - Weight(Cutoff(h, s, b, n, location).spans[b]))
  {
    hide At, Tiled, Cut, Range;
    var h' := Cutoff(h, s, b, n, location);
    CutKeepsTiles(h.spans, h.owner, s, b, h'.spans[s], h'.spans[b]);
    CutKeepsPages(h.spans, h.owner, s, b, h'.spans[s], h'.spans[b], Normal);
    CutKeepsPages(h.spans, h.owner, s, b, h'.spans[s], h'.spans[b], Returned);
    SkipOne(h'.spans, h'.owner, Returned, {}, {b}, b);
    assert |h'.owner.Keys| == |h.owner.Keys|;
  }

  lemma CutKeepsExact(h: Heap, s: Ptr, b: Ptr, n: int, location: Location)
    requires Tiled(h.spans, h.owner) && Exact(h.spans, h.lists, {}) && CanCut(h, s, b, n)
    ensures Exact(Cutoff(h, s, b, n, location).spans, Cutoff(h, s, b, n, location).lists, {b})
  {
    hide Exact;
    OthersStayExact(h.spans, {}, Cutoff(h, s, b, n, location).spans, {b}, h.lists);
  }

  lemma CutKeepsLaid(h: Heap, s: Ptr, b: Ptr, n: int, location: Location)
    requires Laid(h.spans, h.pagemap, h.owner) && CanCut(h, s, b, n)
    ensures var h' := Cutoff(h, s, b, n, location);
      Laid(h'.spans, h'.pagemap, h'.owner) && h'.leaked == h.leaked
  {
    hide Laid;
    var h' := Cutoff(h, s, b, n, location);
    CutKeepsLayout(h.spans, h.pagemap, h.owner, s, b, h'.spans[s], h'.spans[b]);
  }

  lemma CutKeepsSound(h: Heap, s: Ptr, b: Ptr, n: int, location: Location, pending: int)
    requires Sound(h, {}, pending) && CanCut(h, s, b, n)
    ensures Sound(Cutoff(h, s, b, n, location), {b}, pending - Weight(Cutoff(h, s, b, n, location).spans[b]))
  {
    hide Laid, Exact, Balanced, Tiled, Cutoff;
    Shape(h, {}, pending, s);
    CutKeepsLaid(h, s, b, n, location);
    CutKeepsExact(h, s, b, n, location);
    CutKeepsBalance(h, s, b, n, location, pending);
  }

  // ---- growing the heap, and size classes

  /** A span in use over pages new to the heap. */
  ghost function Grew(h: Heap, b: Ptr, g: Span): Heap
    requires g.length >= 0
  {
    h.(spans := h.spans[b := g],
       pagemap := h.pagemap[g.start := b][g.End() - 1 := b],
       owner := Grown(h.owner, b, g),
       stats := h.stats.(system := h.stats.system + g.length, committed := h.stats.committed + g.length))
  }

  ghost predicate CanGrow(h: Heap, b: Ptr, g: Span) {
    && b !in h.spans && g.start > 0 && g.length > 0 && g.sizeclass == 0 && g.location == InUse
    && forall q | g.Contains(q) :: q !in h.owner
  }

  lemma GrowKeepsPages(h: Heap, b: Ptr, g: Span, location: Location, skip: set<Ptr>)
    requires Tiled(h.spans, h.owner) && CanGrow(h, b, g) && location != InUse
    ensures At(Grew(h, b, g).spans, Grew(h, b, g).owner, location, skip) == At(h.spans, h.owner, location, skip)
  {
    hide Grown;
    var h' := Grew(h, b, g);
    forall q
      ensures q in At(h'.spans, h'.owner, location, skip) <==> q in At(h.spans, h.owner, location, skip)
    {
      GrownAt(h.owner, b, g, q);
    }
  }

  lemma GrowKeepsLaid(h: Heap, b: Ptr, g: Span)
    requires Laid(h.spans, h.pagemap, h.owner) && CanGrow(h, b, g)
    ensures var h' := Grew(h, b, g); Laid(h'.spans, h'.pagemap, h'.owner) && h'.leaked == h.leaked
  {
    hide Laid, Grown;
    forall q
      ensures q in Grown(h.owner, b, g) <==> q in h.owner || g.Contains(q)
      ensures q in Grown(h.owner, b, g) ==> Grown(h.owner, b, g)[q] == if g.Contains(q) then b else h.owner[q]
    {
      GrownAt(h.owner, b, g, q);
    }
    GrowKeepsLayout(h.spans, h.pagemap, h.owner, Grown(h.owner, b, g), b, g);
  }

  lemma GrowKeepsExact(h: Heap, b: Ptr, g: Span)
    requires Tiled(h.spans, h.owner) && Exact(h.spans, h.lists, {}) && CanGrow(h, b, g)
    ensures Exact(Grew(h, b, g).spans, Grew(h, b, g).lists, {})
  {
    hide Exact, Grown;
    OthersStayExact(h.spans, {}, Grew(h, b, g).spans, {}, h.lists);
  }

  lemma GrownSize(owner: PageMap, b: Ptr, g: Span)
    requires g.length >= 0 && forall q | g.Contains(q) :: q !in owner
    ensures |Grown(owner, b, g)| == |owner| + g.length
  {
    hide Grown;
    GrownKeys(owner, b, g);
    var added := Range(g.start, g.length);
    assert owner.Keys !! added;
    assert |Grown(owner, b, g).Keys| == |owner.Keys + added|;
  }

  lemma GrowKeepsBalance(h: Heap, b: Ptr, g: Span)
    requires Tiled(h.spans, h.owner) && Balanced(h, {}, 0) && CanGrow(h, b, g)
    ensures Balanced(Grew(h, b, g), {}, 0)
  {
    hide At, Tiled, Grown;
    GrownSize(h.owner, b, g);
    GrowKeepsPages(h, b, g, Normal, {});
    GrowKeepsPages(h, b, g, Returned, {});
  }

  lemma GrowKeepsSound(h: Heap, b: Ptr, g: Span)
    requires Sound(h, {}, 0) && CanGrow(h, b, g)
    ensures Sound(Grew(h, b, g), {}, 0)
  {
    hide Laid, Exact, Balanced, Tiled, Grew, CanGrow;
    IsTiled(h, {}, 0);
    GrowKeepsLaid(h, b, g);
    GrowKeepsExact(h, b, g);
    GrowKeepsBalance(h, b, g);
  }

  /** A span in use given a size class, all its pages being recorded. */
  lemma RegisterKeepsSound(h: Heap, h': Heap, p: Ptr, sizeclass: int)
    requires Sound(h, {}, 0) && p in h.spans && h.spans[p].location == InUse
    requires h' == h.(spans := h.spans[p := h.spans[p].(sizeclass := sizeclass)], pagemap := h'.pagemap)
    requires forall q :: q in h'.pagemap <==> q in h.pagemap || h.spans[p].Contains(q)
    requires forall q | q in h'.pagemap :: h'.pagemap[q] == if h.spans[p].Contains(q) then p else h.pagemap[q]
    ensures Sound(h', {}, 0)
  {
    hide At, Exact, Laid, Tiled;
    RegisterKeepsLaid(h, h', p, sizeclass);
    RegisterKeepsExact(h, p, sizeclass);
    RegisterKeepsPages(h.spans, h.owner, p, sizeclass, Normal);
    RegisterKeepsPages(h.spans, h.owner, p, sizeclass, Returned);
  }

  lemma RegisterKeepsLaid(h: Heap, h': Heap, p: Ptr, sizeclass: int)
    requires Laid(h.spans, h.pagemap, h.owner) && p in h.spans && h.spans[p].location == InUse
    requires h' == h.(spans := h.spans[p := h.spans[p].(sizeclass := sizeclass)], pagemap := h'.pagemap)
    requires forall q :: q in h'.pagemap <==> q in h.pagemap || h.spans[p].Contains(q)
    requires forall q | q in h'.pagemap :: h'.pagemap[q] == if h.spans[p].Contains(q) then p else h.pagemap[q]
    ensures Laid(h'.spans, h'.pagemap, h'.owner)
  {
    assert Recorded(h'.pagemap, h.spans[p], p);
    OthersStayMapped(h.spans, h.pagemap, h.owner, h.spans, h'.pagemap, {p});
    UpdateKeepsLayout(h.spans, h'.pagemap, h.owner, p, InUse, sizeclass);
  }

  lemma RegisterKeepsExact(h: Heap, p: Ptr, sizeclass: int)
    requires Sound(h, {}, 0) && p in h.spans && h.spans[p].location == InUse
    ensures Exact(h.spans[p := h.spans[p].(sizeclass := sizeclass)], h.lists, {})
  {
    hide Exact;
    OthersStayExact(h.spans, {}, h.spans[p := h.spans[p].(sizeclass := sizeclass)], {}, h.lists);
  }

  lemma RegisterKeepsPages(spans: SpanMap, owner: PageMap, p: Ptr, sizeclass: int, location: Location)
    requires p in spans
    ensures At(spans[p := spans[p].(sizeclass := sizeclass)], owner, location, {}) == At(spans, owner, location, {})
  {}
}
