/** Merging a freed span with its neighbours (page_heap.cc, MergeIntoFreeList and
    CheckAndHandlePreMerge). */
module Coalescing {
  import opened Spans
  import opened FreeLists
  import opened Accounting
  import opened HeapState

  /** No span in use is touched, pages move from normal to returned only, and free spans only grow. */
  ghost predicate Evolves(h: Heap, h': Heap) {
    && h'.owner.Keys == h.owner.Keys && h'.leaked == h.leaked && h'.stats.system == h.stats.system
    && h'.Live() == h.Live()
    && h'.Pages(InUse) == h.Pages(InUse)
    && h.Pages(Returned) <= h'.Pages(Returned) && h'.Pages(Normal) <= h.Pages(Normal)
    && Spread(h.spans, h'.spans)
  }

  /** Every page is at the location it was at before. */
  ghost predicate SamePages(h: Heap, h': Heap) {
    h'.Pages(InUse) == h.Pages(InUse) && h'.Pages(Normal) == h.Pages(Normal) && h'.Pages(Returned) == h.Pages(Returned)
  }

  lemma EvolveOn(h: Heap, h1: Heap, h2: Heap)
    requires Evolves(h, h1) && Evolves(h1, h2)
    ensures Evolves(h, h2)
    ensures SamePages(h, h1) && SamePages(h1, h2) ==> SamePages(h, h2)
  {
    hide At, Used, Spread;
    SpreadOn(h.spans, h1.spans, h2.spans);
  }

  lemma PrependEvolves(h: Heap, p: Ptr)
    requires p in h.spans
    ensures Evolves(h, Prepended(h, p)) && SamePages(h, Prepended(h, p))
  {
    hide At, Used, Spread;
    SpreadSame(h.spans);
  }

  lemma AbsorbEvolves(h: Heap, s: Ptr, x: Ptr, pending: int)
    requires Tiled(h.spans, h.owner) && Touch(h, s, x) && Absorbable(h, s, x, pending)
    ensures Evolves(h, Absorbed(h, s, x))
    ensures h.spans[x].location == h.spans[s].location ==> SamePages(h, Absorbed(h, s, x))
  {
    hide At, Tiled, Used, Spread;
    PositiveLength(h.spans, h.owner, s);
    PositiveLength(h.spans, h.owner, x);
    AbsorbKeepsUsed(h.spans, s, x, Merger(h, s, x));
    AbsorbSpreads(h.spans, s, x, Merger(h, s, x));
    AbsorbPages(h, s, x, InUse);
    AbsorbPages(h, s, x, Normal);
    AbsorbPages(h, s, x, Returned);
  }

  lemma AbsorbPages(h: Heap, s: Ptr, x: Ptr, location: Location)
    requires Tiled(h.spans, h.owner) && Touch(h, s, x)
    ensures h.spans[s].location != location ==> Absorbed(h, s, x).Pages(location) <= h.Pages(location)
    ensures h.spans[s].location == location ==> Absorbed(h, s, x).Pages(location) >= h.Pages(location)
    ensures h.spans[x].location == h.spans[s].location || (h.spans[x].location != location && h.spans[s].location != location) ==>
      Absorbed(h, s, x).Pages(location) == h.Pages(location)
  {
    hide At, Tiled;
    var m := Merger(h, s, x);
    SkipOne(h.spans, h.owner, location, {}, {x}, x);
    if m.location == location {
      AbsorbMovesPages(h.spans, h.owner, s, x, m, location);
    } else {
      AbsorbKeepsPages(h.spans, h.owner, s, x, m, location);
    }
  }

  /** Whether the neighbour `x` merges into `s`.  With aggressive decommit a normal neighbour of a
      returned span is decommitted first, which may fail. */
  ghost predicate Joins(h: Heap, s: Ptr, x: Ptr, aggressive: bool, released: bool)
    requires s in h.spans && x in h.spans
  {
    if aggressive && h.spans[x].location == Normal && h.spans[s].location == Returned
    then released
    else h.spans[x].location == h.spans[s].location
  }

  /** Merging `s` with the neighbour at page `q` takes decommitting that neighbour first. */
  ghost predicate Drags(h: Heap, s: Ptr, q: int, aggressive: bool)
    requires s in h.spans
  {
    && aggressive && h.spans[s].location == Returned
    && q in h.pagemap && h.pagemap[q] in h.spans && h.spans[h.pagemap[q]].location == Normal
  }

  /** The neighbour is taken off its list, having been decommitted if it must be. */
  ghost function Unlisted(h: Heap, s: Ptr, x: Ptr): Heap
    requires s in h.spans && x in h.spans
  {
    Removed(if h.spans[x].location == h.spans[s].location then h else Committed(h, -h.spans[x].length), x)
  }

  lemma UnlistKeepsSound(h: Heap, s: Ptr, x: Ptr, aggressive: bool, released: bool)
    requires Sound(h, {s}, 0) && Touch(h, s, x)
    requires h.spans[s].sizeclass == 0 && h.spans[s].Free() && Joins(h, s, x, aggressive, released)
    ensures var pending := if h.spans[x].location == h.spans[s].location then 0 else h.spans[x].length;
      Sound(Unlisted(h, s, x), {s, x}, pending) && Absorbable(Unlisted(h, s, x), s, x, pending)
  {
    hide Sound;
    Shape(h, {s}, 0, x);
    var pending := if h.spans[x].location == h.spans[s].location then 0 else h.spans[x].length;
    CommitKeepsSound(h, {s}, 0, -pending);
    RemoveKeepsSound(if pending == 0 then h else Committed(h, -pending), {s}, {s, x}, x, pending);
  }

  /** The whole effect of trying to merge `s` with the neighbour the page map names at page `q`. */
  ghost function Joined(h: Heap, s: Ptr, q: int, aggressive: bool, released: bool): (h': Heap)
    requires s in h.spans
    ensures s in h'.spans
  {
    if q !in h.pagemap || h.pagemap[q] !in h.spans || !Joins(h, s, h.pagemap[q], aggressive, released) then h
    else Absorbed(Unlisted(h, s, h.pagemap[q]), s, h.pagemap[q])
  }

  /** A free span off the lists, and one of the two pages next to it. */
  ghost predicate Beside(h: Heap, s: Ptr, q: int) {
    && s in h.spans && h.spans[s].Free() && h.spans[s].sizeclass == 0
    && (q == h.spans[s].start - 1 || q == h.spans[s].End())
  }

  lemma Neighbour(h: Heap, s: Ptr, q: int)
    requires Sound(h, {s}, 0) && Beside(h, s, q)
    ensures q in h.pagemap ==> h.pagemap[q] in h.spans && Touch(h, s, h.pagemap[q])
    ensures q in h.pagemap ==> h.pagemap[q] == h.owner[q] && h.spans[h.pagemap[q]].length > 0 && h.spans[s].length > 0
    ensures q in h.pagemap && q == h.spans[s].start - 1 ==> h.spans[h.pagemap[q]].End() == h.spans[s].start
    ensures q in h.pagemap && q == h.spans[s].End() ==> h.spans[h.pagemap[q]].start == q
  {
    Shape(h, {s}, 0, s);
    LookupBefore(h.spans, h.pagemap, h.owner, s);
    LookupAfter(h.spans, h.pagemap, h.owner, s);
  }

  lemma JoinKeepsSound(h: Heap, s: Ptr, q: int, aggressive: bool, released: bool)
    requires Sound(h, {s}, 0) && Beside(h, s, q)
    ensures Sound(Joined(h, s, q, aggressive, released), {s}, 0)
    ensures Evolves(h, Joined(h, s, q, aggressive, released))
    ensures !Drags(h, s, q, aggressive) ==> SamePages(h, Joined(h, s, q, aggressive, released))
  {
    hide Sound, Absorbed, Unlisted, Tiled, Evolves, SamePages, Touch;
    Neighbour(h, s, q);
    if q in h.pagemap && Joins(h, s, h.pagemap[q], aggressive, released) {
      var x := h.pagemap[q];
      var h1 := Unlisted(h, s, x);
      var pending := if h.spans[x].location == h.spans[s].location then 0 else h.spans[x].length;
      UnlistKeepsSound(h, s, x, aggressive, released);
      UnlistEvolves(h, s, x);
      IsTiled(h1, {s, x}, pending);
      AbsorbKeepsSound(h1, s, x, pending);
      AbsorbEvolves(h1, s, x, pending);
      EvolveOn(h, h1, Absorbed(h1, s, x));
    } else {
      Stays(h);
    }
  }

  lemma EvolveSize(h: Heap, h': Heap)
    requires Evolves(h, h')
    ensures |h'.owner| == |h.owner| && h'.stats.system == h.stats.system
  {
    assert |h'.owner.Keys| == |h.owner.Keys|;
  }

  lemma Stays(h: Heap)
    ensures Evolves(h, h) && SamePages(h, h)
  {
    SpreadSame(h.spans);
  }

  lemma UnlistEvolves(h: Heap, s: Ptr, x: Ptr)
    requires s in h.spans && x in h.spans
    ensures Evolves(h, Unlisted(h, s, x)) && SamePages(h, Unlisted(h, s, x))
    ensures Unlisted(h, s, x).spans == h.spans
    ensures Touch(h, s, x) ==> Touch(Unlisted(h, s, x), s, x)
  {
    hide At, Used, Spread;
    SpreadSame(h.spans);
  }

  lemma JoinShape(h: Heap, s: Ptr, q: int, aggressive: bool, released: bool)
    requires Sound(h, {s}, 0) && Beside(h, s, q)
    ensures var h' := Joined(h, s, q, aggressive, released);
      && s in h'.spans && h'.spans[s].location == h.spans[s].location && h'.spans[s].sizeclass == 0
      && (q == h.spans[s].start - 1 ==> h'.spans[s].End() == h.spans[s].End())
      && (q == h.spans[s].End() ==> h'.spans[s].start == h.spans[s].start)
      && h'.spans[s].start <= h.spans[s].start && h.spans[s].End() <= h'.spans[s].End()
  {
    hide Sound, Joined;
    Neighbour(h, s, q);
    JoinedSpans(h, s, q, aggressive, released);
  }

  /** In aggressive mode a freed span is decommitted before it is merged, if that works. */
  ghost function Loosened(h: Heap, p: Ptr, aggressive: bool, released: bool): (h': Heap)
    requires p in h.spans
    ensures p in h'.spans
  {
    if aggressive && h.spans[p].location == Normal && released
    then Relocated(Committed(h, -h.spans[p].length), p, Returned)
    else h
  }

  lemma LoosenShape(h: Heap, p: Ptr, aggressive: bool, released: bool)
    requires p in h.spans && h.spans[p].Free() && h.spans[p].sizeclass == 0
    ensures var s := Loosened(h, p, aggressive, released).spans;
      && s.Keys == h.spans.Keys && s[p].Free() && s[p].sizeclass == 0
      && s[p].start == h.spans[p].start && s[p].length == h.spans[p].length
    ensures !aggressive || h.spans[p].location == Returned ==> Loosened(h, p, aggressive, released) == h
  {}

  lemma LoosenKeepsSound(h: Heap, p: Ptr, aggressive: bool, released: bool)
    requires Sound(h, {p}, 0) && p in h.spans && h.spans[p].Free() && h.spans[p].sizeclass == 0
    ensures Sound(Loosened(h, p, aggressive, released), {p}, 0)
    ensures Evolves(h, Loosened(h, p, aggressive, released))
    ensures !aggressive || h.spans[p].location == Returned ==> SamePages(h, Loosened(h, p, aggressive, released))
  {
    hide Sound, Evolves, SamePages, Relocated, At, Range;
    Stays(h);
    if aggressive && h.spans[p].location == Normal && released {
      CommitKeepsSound(h, {p}, 0, -h.spans[p].length);
      RelocateKeepsSound(Committed(h, -h.spans[p].length), {p}, p, Returned, h.spans[p].length);
      IsTiled(h, {p}, 0);
      ReturnEvolves(h, Committed(h, -h.spans[p].length), p);
      RelocatedSpan(Committed(h, -h.spans[p].length), p, Returned);
    }
  }

  lemma RelocatedSpan(h: Heap, p: Ptr, location: Location)
    requires p in h.spans
    ensures p in Relocated(h, p, location).spans
    ensures Relocated(h, p, location).spans[p] == h.spans[p].(location := location, sizeclass := 0)
  {}

  /** Marking a normal span returned moves only its own pages. */
  lemma ReturnEvolves(h: Heap, h1: Heap, p: Ptr)
    requires Tiled(h.spans, h.owner) && p in h.spans && h.spans[p].location == Normal
    requires h1.spans == h.spans && h1.owner == h.owner && h1.leaked == h.leaked && h1.stats.system == h.stats.system
    ensures h.spans[p].length > 0
    ensures Evolves(h, Relocated(h1, p, Returned))
    ensures Relocated(h1, p, Returned).Pages(Normal) == h.Pages(Normal) - Range(h.spans[p].start, h.spans[p].length)
    ensures Relocated(h1, p, Returned).Pages(Returned) == h.Pages(Returned) + Range(h.spans[p].start, h.spans[p].length)
    ensures Range(h.spans[p].start, h.spans[p].length) <= h.Pages(Normal)
  {
    hide At, Used, Tiled, Range, Spread;
    MoveMovesPages(h1, p, Returned, InUse);
    MoveMovesPages(h1, p, Returned, Normal);
    MoveMovesPages(h1, p, Returned, Returned);
    ChangeKeepsUsed(h.spans, p, Relocated(h1, p, Returned).spans[p]);
    ChangeSpreads(h.spans, p, Relocated(h1, p, Returned).spans[p]);
    LocationsApart(h, InUse, Normal);
  }

  /** The effect of MergeIntoFreeList on a free span that is off the lists, given whether each of
      the three decommits it may attempt works. */
  ghost function Merged(h: Heap, p: Ptr, aggressive: bool, own: bool, left: bool, right: bool): (h': Heap)
    requires p in h.spans
  {
    var h0 := Loosened(h, p, aggressive, own);
    var h1 := Joined(h0, p, h.spans[p].start - 1, aggressive, left);
    var h2 := Joined(h1, p, h.spans[p].End(), aggressive, right);
    Prepended(h2, p)
  }

  /** Merging attempts no decommit, neither of the span nor of a neighbour. */
  ghost predicate Gentle(h: Heap, p: Ptr, aggressive: bool)
    requires p in h.spans
  {
    !aggressive ||
    (&& h.spans[p].location == Returned
     && !Drags(h, p, h.spans[p].start - 1, aggressive) && !Drags(h, p, h.spans[p].End(), aggressive))
  }

  lemma NoDrag(h: Heap, s: Ptr, q: int, aggressive: bool)
    requires s in h.spans && !aggressive
    ensures !Drags(h, s, q, aggressive)
  {}

  /** Merging on the left leaves the neighbour on the right as it was. */
  lemma JoinKeepsRight(h: Heap, s: Ptr, q: int, r: int, aggressive: bool, released: bool)
    requires Sound(h, {s}, 0) && Beside(h, s, q) && q == h.spans[s].start - 1 && r == h.spans[s].End()
    ensures Drags(Joined(h, s, q, aggressive, released), s, r, aggressive) <==> Drags(h, s, r, aggressive)
  {
    hide Sound, Delist;
    Neighbour(h, s, q);
    Neighbour(h, s, r);
  }

  /** Merging keeps the invariant and touches no span in use; unless it decommits it moves no page. */
  lemma MergeKeepsSound(h: Heap, p: Ptr, aggressive: bool, own: bool, left: bool, right: bool)
    requires Sound(h, {p}, 0) && p in h.spans && h.spans[p].Free() && h.spans[p].sizeclass == 0
    ensures Sound(Merged(h, p, aggressive, own, left, right), {}, 0)
    ensures Evolves(h, Merged(h, p, aggressive, own, left, right))
    ensures Gentle(h, p, aggressive) ==> SamePages(h, Merged(h, p, aggressive, own, left, right))
  {
    hide Sound, Joined, Loosened, Evolves, SamePages, Drags;
    var h0 := Loosened(h, p, aggressive, own);
    LoosenKeepsSound(h, p, aggressive, own);
    LoosenShape(h, p, aggressive, own);
    var q, r := h.spans[p].start - 1, h.spans[p].End();
    var h1 := Joined(h0, p, q, aggressive, left);
    JoinKeepsSound(h0, p, q, aggressive, left);
    JoinShape(h0, p, q, aggressive, left);
    JoinKeepsRight(h0, p, q, r, aggressive, left);
    if !aggressive {
      NoDrag(h0, p, q, aggressive);
      NoDrag(h1, p, r, aggressive);
    }
    var h2 := Joined(h1, p, r, aggressive, right);
    JoinKeepsSound(h1, p, r, aggressive, right);
    JoinShape(h1, p, r, aggressive, right);
    PrependKeepsSound(h2, {p}, {}, p, 0);
    PrependEvolves(h2, p);
    EvolveOn(h, h0, h1);
    EvolveOn(h, h1, h2);
    EvolveOn(h, h2, Prepended(h2, p));
  }

  // ---- maximal coalescing

  /** No span that touches `s` on the given side is at the location of `s`. */
  ghost predicate Clear(spans: SpanMap, s: Ptr, left: bool)
    requires s in spans
  {
    forall y | y in spans && y != s && TouchesOn(spans[y], spans[s], left) :: spans[y].location != spans[s].location
  }

  lemma CoalescedIffClear(spans: SpanMap, s: Ptr)
    requires s in spans && spans[s].Free() && Positive(spans)
    ensures Coalesced(spans, {}) <==> Coalesced(spans, {s}) && Clear(spans, s, true) && Clear(spans, s, false)
  {}

  /** The neighbour at page `q` is normal and is decommitted to be merged into the returned span
      `s`, while the span beyond that neighbour is already returned. */
  ghost predicate Exposed(h: Heap, s: Ptr, q: int, left: bool, aggressive: bool, released: bool)
    requires s in h.spans
  {
    && q in h.pagemap && h.pagemap[q] in h.spans
    && aggressive && released && h.spans[s].location == Returned && h.spans[h.pagemap[q]].location == Normal
    && exists y | y in h.spans && y != s :: TouchesOn(h.spans[y], h.spans[h.pagemap[q]], left) && h.spans[y].location == Returned
  }

  ghost predicate Positive(spans: SpanMap) {
    forall p | p in spans :: spans[p].length > 0
  }

  lemma Positively(h: Heap, skip: set<Ptr>, pending: int)
    requires Sound(h, skip, pending)
    ensures Positive(h.spans)
  {}

  ghost predicate TouchesOn(a: Span, b: Span, left: bool) {
    if left then a.End() == b.start else b.End() == a.start
  }

  /** At most one span touches another on a given side, and the page map names it. */
  lemma OnlyNeighbour(h: Heap, s: Ptr, q: int, left: bool)
    requires Sound(h, {s}, 0) && Beside(h, s, q) && q == (if left then h.spans[s].start - 1 else h.spans[s].End())
    ensures Positive(h.spans)
    ensures forall y | y in h.spans && TouchesOn(h.spans[y], h.spans[s], left) :: q in h.pagemap && h.pagemap[q] == y
    ensures q in h.pagemap ==> h.pagemap[q] in h.spans && TouchesOn(h.spans[h.pagemap[q]], h.spans[s], left)
  {
    LookupBefore(h.spans, h.pagemap, h.owner, s);
    LookupAfter(h.spans, h.pagemap, h.owner, s);
    forall y | y in h.spans && TouchesOn(h.spans[y], h.spans[s], left)
      ensures q in h.pagemap && h.pagemap[q] == y
    {
      assert h.spans[y].Contains(q);
    }
  }

  lemma AbsorbClears(spans: SpanMap, s: Ptr, x: Ptr, m: Span, left: bool)
    requires s in spans && x in spans && s != x && Positive(spans) && Coalesced(spans, {s}) && spans[s].Free()
    requires TouchesOn(spans[x], spans[s], left)
    requires m == spans[s].(start := if left then spans[x].start else spans[s].start, length := spans[s].length + spans[x].length)
    ensures Coalesced((spans - {x})[s := m], {s})
    ensures spans[x].location == spans[s].location ==> Clear((spans - {x})[s := m], s, left)
    ensures spans[x].location != spans[s].location ==>
      (Clear((spans - {x})[s := m], s, left) <==>
       !exists y | y in spans && y != s :: TouchesOn(spans[y], spans[x], left) && spans[y].location == spans[s].location)
    ensures Clear((spans - {x})[s := m], s, !left) <==> Clear(spans, s, !left)
  {
    var spans' := (spans - {x})[s := m];
    assert !TouchesOn(spans[x], spans[x], left) && !TouchesOn(spans[x], spans[s], !left);
    forall y | y in spans && y != s && y != x
      ensures TouchesOn(spans[y], spans[x], left) <==> TouchesOn(spans'[y], spans'[s], left)
      ensures TouchesOn(spans[y], spans[s], !left) <==> TouchesOn(spans'[y], spans'[s], !left)
    {}
    if Clear(spans', s, left) {
      forall y | y in spans && y != s && TouchesOn(spans[y], spans[x], left)
        ensures spans[y].location != spans[s].location
      {
        assert y in spans' && TouchesOn(spans'[y], spans'[s], left);
      }
    }
    if Clear(spans', s, !left) {
      forall y | y in spans && y != s && TouchesOn(spans[y], spans[s], !left)
        ensures spans[y].location != spans[s].location
      {
        assert y in spans' && TouchesOn(spans'[y], spans'[s], !left);
      }
    }
  }

  lemma JoinedSpans(h: Heap, s: Ptr, q: int, aggressive: bool, released: bool)
    requires s in h.spans
    ensures Joined(h, s, q, aggressive, released).spans ==
      if q in h.pagemap && h.pagemap[q] in h.spans && Joins(h, s, h.pagemap[q], aggressive, released)
      then (h.spans - {h.pagemap[q]})[s := Merger(h, s, h.pagemap[q])]
      else h.spans
  {}

  /** After the attempt to merge on one side, that side is free of a mergeable neighbour exactly
      unless the neighbour's own returned neighbour has been exposed; the other side is as before. */
  lemma JoinClears(h: Heap, s: Ptr, q: int, left: bool, aggressive: bool, released: bool)
    requires Sound(h, {s}, 0) && Beside(h, s, q) && q == (if left then h.spans[s].start - 1 else h.spans[s].End())
    requires Coalesced(h.spans, {s})
    ensures var h' := Joined(h, s, q, aggressive, released);
      && s in h'.spans
      && Coalesced(h'.spans, {s})
      && (Clear(h'.spans, s, left) <==> !Exposed(h, s, q, left, aggressive, released))
      && (Clear(h'.spans, s, !left) <==> Clear(h.spans, s, !left))
  {
    hide Sound, Coalesced, Joined;
    Neighbour(h, s, q);
    OnlyNeighbour(h, s, q, left);
    JoinedSpans(h, s, q, aggressive, released);
    if q in h.pagemap && Joins(h, s, h.pagemap[q], aggressive, released) {
      AbsorbClears(h.spans, s, h.pagemap[q], Merger(h, s, h.pagemap[q]), left);
    }
  }

  lemma AbsorbKeepsExposure(h: Heap, h': Heap, s: Ptr, x: Ptr, r: int, aggressive: bool, released: bool)
    requires s in h.spans && x in h.spans && s != x && Positive(h.spans)
    requires TouchesOn(h.spans[x], h.spans[s], true) && r == h.spans[s].End()
    requires h'.spans == (h.spans - {x})[s := Merger(h, s, x)] && h'.pagemap == h.pagemap[h.spans[x].start := s]
    requires r in h.pagemap ==> h.pagemap[r] in h.spans && TouchesOn(h.spans[h.pagemap[r]], h.spans[s], false)
    ensures Exposed(h', s, r, false, aggressive, released) <==> Exposed(h, s, r, false, aggressive, released)
  {
    if r in h.pagemap {
      var z := h.pagemap[r];
      assert z != x && z != s && h'.spans[z] == h.spans[z] && h'.pagemap[r] == z;
      assert !TouchesOn(h.spans[x], h.spans[z], false);
      forall y | y in h.spans && y != s && y != x
        ensures TouchesOn(h.spans[y], h.spans[z], false) <==> TouchesOn(h'.spans[y], h'.spans[z], false)
      {}
    }
  }

  lemma JoinKeepsExposure(h: Heap, s: Ptr, q: int, r: int, aggressive: bool, left: bool, right: bool)
    requires Sound(h, {s}, 0) && Beside(h, s, q) && q == h.spans[s].start - 1 && r == h.spans[s].End()
    ensures Exposed(Joined(h, s, q, aggressive, left), s, r, false, aggressive, right) <==> Exposed(h, s, r, false, aggressive, right)
  {
    hide Sound, Exposed, Delist;
    Neighbour(h, s, q);
    OnlyNeighbour(h, s, q, true);
    OnlyNeighbour(h, s, r, false);
    if q in h.pagemap && Joins(h, s, h.pagemap[q], aggressive, left) {
      AbsorbKeepsExposure(h, Joined(h, s, q, aggressive, left), s, h.pagemap[q], r, aggressive, right);
    }
  }

  /** Starting from a maximally coalesced heap, freeing a span leaves it maximally coalesced exactly
      unless, in aggressive mode, a normal neighbour is decommitted and merged while the span beyond
      it is already returned: that span is not looked at again. */
  lemma MergeCoalescesIff(h: Heap, p: Ptr, aggressive: bool, own: bool, left: bool, right: bool)
    requires Sound(h, {p}, 0) && p in h.spans && h.spans[p].Free() && h.spans[p].sizeclass == 0
    requires Coalesced(h.spans, {p})
    ensures
      var h0 := Loosened(h, p, aggressive, own);
      Coalesced(Merged(h, p, aggressive, own, left, right).spans, {}) <==>
      && !Exposed(h0, p, h.spans[p].start - 1, true, aggressive, left)
      && !Exposed(h0, p, h.spans[p].End(), false, aggressive, right)
  {
    hide Sound, Joined, Exposed, Clear, Coalesced, Loosened, Evolves, SamePages;
    var h0 := Loosened(h, p, aggressive, own);
    LoosenKeepsSound(h, p, aggressive, own);
    LoosenShape(h, p, aggressive, own);
    LoosenKeepsCoalesced(h, p, aggressive, own);
    var q, r := h.spans[p].start - 1, h.spans[p].End();
    var h1 := Joined(h0, p, q, aggressive, left);
    JoinKeepsSound(h0, p, q, aggressive, left);
    JoinShape(h0, p, q, aggressive, left);
    JoinClears(h0, p, q, true, aggressive, left);
    JoinKeepsExposure(h0, p, q, r, aggressive, left, right);
    var h2 := Joined(h1, p, r, aggressive, right);
    JoinKeepsSound(h1, p, r, aggressive, right);
    JoinShape(h1, p, r, aggressive, right);
    JoinClears(h1, p, r, false, aggressive, right);
    Positively(h2, {p}, 0);
    CoalescedIffClear(h2.spans, p);
  }

  lemma LoosenKeepsCoalesced(h: Heap, p: Ptr, aggressive: bool, own: bool)
    requires p in h.spans
    ensures Coalesced(h.spans, {p}) ==> Coalesced(Loosened(h, p, aggressive, own).spans, {p})
  {}

  // ---- normal spans never touch

  lemma AbsorbKeepsApart(spans: SpanMap, s: Ptr, x: Ptr, m: Span, left: bool)
    requires s in spans && x in spans && s != x && Positive(spans) && Apart(spans, {s})
    requires TouchesOn(spans[x], spans[s], left)
    requires m == spans[s].(start := if left then spans[x].start else spans[s].start, length := spans[s].length + spans[x].length)
    ensures Apart((spans - {x})[s := m], {s})
    ensures spans[s].location == Normal && spans[x].location == Normal ==> Clear((spans - {x})[s := m], s, left)
    ensures Clear(spans, s, !left) ==> Clear((spans - {x})[s := m], s, !left)
  {
    var spans' := (spans - {x})[s := m];
    assert !TouchesOn(spans[x], spans[x], left) && !TouchesOn(spans[x], spans[s], !left);
    forall y | y in spans && y != s && y != x
      ensures TouchesOn(spans[y], spans[x], left) <==> TouchesOn(spans'[y], spans'[s], left)
      ensures TouchesOn(spans[y], spans[s], !left) <==> TouchesOn(spans'[y], spans'[s], !left)
    {}
  }

  lemma JoinKeepsApart(h: Heap, s: Ptr, q: int, left: bool, aggressive: bool, released: bool)
    requires Sound(h, {s}, 0) && Beside(h, s, q) && q == (if left then h.spans[s].start - 1 else h.spans[s].End())
    requires Apart(h.spans, {s})
    ensures var h' := Joined(h, s, q, aggressive, released);
      && s in h'.spans
      && Apart(h'.spans, {s})
      && (h.spans[s].location == Normal ==> Clear(h'.spans, s, left))
      && (Clear(h.spans, s, !left) ==> Clear(h'.spans, s, !left))
  {
    hide Sound, Apart, Joined;
    Neighbour(h, s, q);
    OnlyNeighbour(h, s, q, left);
    JoinedSpans(h, s, q, aggressive, released);
    if q in h.pagemap && Joins(h, s, h.pagemap[q], aggressive, released) {
      AbsorbKeepsApart(h.spans, s, h.pagemap[q], Merger(h, s, h.pagemap[q]), left);
    }
  }

  lemma ClearIsApart(spans: SpanMap, s: Ptr)
    requires s in spans && Positive(spans) && Apart(spans, {s})
    requires spans[s].location == Normal ==> Clear(spans, s, true) && Clear(spans, s, false)
    ensures Apart(spans, {})
  {}

  /** In either mode, and whichever decommits fail, merging leaves no two normal spans touching. */
  lemma MergeKeepsApart(h: Heap, p: Ptr, aggressive: bool, own: bool, left: bool, right: bool)
    requires Sound(h, {p}, 0) && p in h.spans && h.spans[p].Free() && h.spans[p].sizeclass == 0
    requires Apart(h.spans, {p})
    ensures Apart(Merged(h, p, aggressive, own, left, right).spans, {})
  {
    hide Sound, Joined, Clear, Apart, Loosened, Evolves, SamePages;
    var h0 := Loosened(h, p, aggressive, own);
    LoosenKeepsSound(h, p, aggressive, own);
    LoosenShape(h, p, aggressive, own);
    LoosenKeepsApart(h, p, aggressive, own);
    var q, r := h.spans[p].start - 1, h.spans[p].End();
    var h1 := Joined(h0, p, q, aggressive, left);
    JoinKeepsSound(h0, p, q, aggressive, left);
    JoinShape(h0, p, q, aggressive, left);
    JoinKeepsApart(h0, p, q, true, aggressive, left);
    var h2 := Joined(h1, p, r, aggressive, right);
    JoinKeepsSound(h1, p, r, aggressive, right);
    JoinShape(h1, p, r, aggressive, right);
    JoinKeepsApart(h1, p, r, false, aggressive, right);
    Positively(h2, {p}, 0);
    ClearIsApart(h2.spans, p);
  }

  lemma LoosenKeepsApart(h: Heap, p: Ptr, aggressive: bool, own: bool)
    requires p in h.spans
    ensures Apart(h.spans, {p}) ==> Apart(Loosened(h, p, aggressive, own).spans, {p})
  {}

  lemma SkipKeepsApart(spans: SpanMap, p: Ptr, s: Span)
    requires Apart(spans, {})
    ensures Apart(spans[p := s], {p})
  {}

  // ---- what is merged

  /** `x` touches `p` and is merged into it: it is free and at the same location, or decommit is
      aggressive and everything free is decommitted. */
  ghost predicate Mates(h: Heap, p: Ptr, x: Ptr, aggressive: bool)
    requires p in h.spans && x in h.spans
  {
    && x != p && (TouchesOn(h.spans[x], h.spans[p], true) || TouchesOn(h.spans[x], h.spans[p], false))
    && h.spans[x].Free() && (aggressive || h.spans[x].location == h.spans[p].location)
  }

  /** `p` has become one span with its mates, returned if decommit is aggressive and else where it
      was; no other span has changed. */
  ghost predicate MergedExactly(h: Heap, h': Heap, p: Ptr, aggressive: bool)
    requires p in h.spans
  {
    && p in h'.spans && h'.spans.Keys <= h.spans.Keys
    && h'.spans[p].location == (if aggressive then Returned else h.spans[p].location) && h'.spans[p].sizeclass == 0
    && (forall x | x in h.spans && x != p ::
          if Mates(h, p, x, aggressive) then x !in h'.spans else x in h'.spans && h'.spans[x] == h.spans[x])
    && (forall q :: h'.spans[p].Contains(q) <==>
          h.spans[p].Contains(q) || exists x | x in h.spans && Mates(h, p, x, aggressive) :: h.spans[x].Contains(q))
  }

  /** The neighbour on one side is merged if it is to be and no decommit fails. */
  ghost predicate Takes(h: Heap, s: Ptr, q: int, aggressive: bool)
    requires s in h.spans
  {
    && q in h.pagemap && h.pagemap[q] in h.spans && h.spans[h.pagemap[q]].Free()
    && (aggressive || h.spans[h.pagemap[q]].location == h.spans[s].location)
  }

  lemma JoinIsExact(h: Heap, s: Ptr, q: int, aggressive: bool, released: bool)
    requires s in h.spans && h.spans[s].Free() && (aggressive ==> h.spans[s].location == Returned)
    requires Drags(h, s, q, aggressive) ==> released
    ensures Joined(h, s, q, aggressive, released).spans ==
      if Takes(h, s, q, aggressive) then (h.spans - {h.pagemap[q]})[s := Merger(h, s, h.pagemap[q])] else h.spans
  {
    JoinedSpans(h, s, q, aggressive, released);
  }

  /** The page map names the mates, one on each side at most. */
  lemma MatesAre(h: Heap, p: Ptr, aggressive: bool)
    requires Sound(h, {p}, 0) && p in h.spans && h.spans[p].Free() && h.spans[p].sizeclass == 0
    ensures var q, r := h.spans[p].start - 1, h.spans[p].End();
      forall x | x in h.spans ::
        Mates(h, p, x, aggressive) <==>
        (Takes(h, p, q, aggressive) && x == h.pagemap[q]) || (Takes(h, p, r, aggressive) && x == h.pagemap[r])
  {
    hide Sound;
    Shape(h, {p}, 0, p);
    OnlyNeighbour(h, p, h.spans[p].start - 1, true);
    OnlyNeighbour(h, p, h.spans[p].End(), false);
  }

  /** Merging on the left leaves the choice on the right as it was. */
  lemma JoinKeepsChoice(h: Heap, p: Ptr, q: int, r: int, aggressive: bool, released: bool)
    requires Sound(h, {p}, 0) && Beside(h, p, q) && q == h.spans[p].start - 1 && r == h.spans[p].End()
    ensures var h' := Joined(h, p, q, aggressive, released);
      && (Takes(h', p, r, aggressive) <==> Takes(h, p, r, aggressive))
      && (Takes(h, p, r, aggressive) ==>
            h'.pagemap[r] == h.pagemap[r] && h'.spans[h.pagemap[r]] == h.spans[h.pagemap[r]] && h.pagemap[r] != p)
  {
    hide Sound, Delist;
    Neighbour(h, p, q);
    Neighbour(h, p, r);
  }

  lemma TwoJoins(h: Heap, h': Heap, p: Ptr, aggressive: bool)
    requires Sound(h, {p}, 0) && p in h.spans && h.spans[p].Free() && h.spans[p].sizeclass == 0 && p in h'.spans
    requires aggressive ==> h.spans[p].location == Returned
    requires var q, r := h.spans[p].start - 1, h.spans[p].End();
      var lo := if Takes(h, p, q, aggressive) then {h.pagemap[q]} else {};
      var hi := if Takes(h, p, r, aggressive) then {h.pagemap[r]} else {};
      && h'.spans.Keys == h.spans.Keys - lo - hi
      && (forall x | x in h'.spans && x != p :: h'.spans[x] == h.spans[x])
      && h'.spans[p].location == h.spans[p].location && h'.spans[p].sizeclass == 0
      && h'.spans[p].start == (if Takes(h, p, q, aggressive) then h.spans[h.pagemap[q]].start else h.spans[p].start)
      && h'.spans[p].End() == (if Takes(h, p, r, aggressive) then h.spans[h.pagemap[r]].End() else h.spans[p].End())
    ensures MergedExactly(h, h', p, aggressive)
  {
    hide Sound;
    MatesAre(h, p, aggressive);
    Shape(h, {p}, 0, p);
    var q, r := h.spans[p].start - 1, h.spans[p].End();
    OnlyNeighbour(h, p, q, true);
    OnlyNeighbour(h, p, r, false);
    forall z
      ensures h'.spans[p].Contains(z) <==>
        h.spans[p].Contains(z) || exists x | x in h.spans && Mates(h, p, x, aggressive) :: h.spans[x].Contains(z)
    {
      if h'.spans[p].Contains(z) && z < h.spans[p].start {
        assert Mates(h, p, h.pagemap[q], aggressive) && h.spans[h.pagemap[q]].Contains(z);
      } else if h'.spans[p].Contains(z) && z >= h.spans[p].End() {
        assert Mates(h, p, h.pagemap[r], aggressive) && h.spans[h.pagemap[r]].Contains(z);
      }
    }
  }

  /** If no decommit fails, merging makes exactly one span of the freed one and its mates. */
  lemma MergeIsExact(h: Heap, p: Ptr, aggressive: bool, own: bool, left: bool, right: bool)
    requires Sound(h, {p}, 0) && p in h.spans && h.spans[p].Free() && h.spans[p].sizeclass == 0
    requires aggressive && h.spans[p].location == Normal ==> own
    requires var h0 := Loosened(h, p, aggressive, own);
      && (Drags(h0, p, h.spans[p].start - 1, aggressive) ==> left)
      && (Drags(h0, p, h.spans[p].End(), aggressive) ==> right)
    ensures MergedExactly(h, Merged(h, p, aggressive, own, left, right), p, aggressive)
  {
    hide Sound, Joined, Evolves, SamePages, MergedExactly, Takes, Drags;
    var h0 := Loosened(h, p, aggressive, own);
    LoosenKeepsSound(h, p, aggressive, own);
    LoosenShape(h, p, aggressive, own);
    var q, r := h.spans[p].start - 1, h.spans[p].End();
    var h1 := Joined(h0, p, q, aggressive, left);
    JoinIsExact(h0, p, q, aggressive, left);
    JoinKeepsSound(h0, p, q, aggressive, left);
    JoinShape(h0, p, q, aggressive, left);
    JoinKeepsRight(h0, p, q, r, aggressive, left);
    JoinKeepsChoice(h0, p, q, r, aggressive, left);
    JoinIsExact(h1, p, r, aggressive, right);
    BothJoined(h0, h1, Merged(h, p, aggressive, own, left, right), p, aggressive);
    TwoJoins(h0, Merged(h, p, aggressive, own, left, right), p, aggressive);
    LooseMates(h, h0, Merged(h, p, aggressive, own, left, right), p, aggressive);
  }

  lemma BothJoined(h0: Heap, h1: Heap, h2: Heap, p: Ptr, aggressive: bool)
    requires Sound(h0, {p}, 0) && p in h0.spans && h0.spans[p].Free() && h0.spans[p].sizeclass == 0 && p in h1.spans
    requires var q, r := h0.spans[p].start - 1, h0.spans[p].End();
      && h1.spans == (if Takes(h0, p, q, aggressive) then (h0.spans - {h0.pagemap[q]})[p := Merger(h0, p, h0.pagemap[q])] else h0.spans)
      && (Takes(h1, p, r, aggressive) <==> Takes(h0, p, r, aggressive))
      && (Takes(h0, p, r, aggressive) ==>
            h1.pagemap[r] == h0.pagemap[r] && h1.spans[h0.pagemap[r]] == h0.spans[h0.pagemap[r]] && h0.pagemap[r] != p)
      && h2.spans == (if Takes(h1, p, r, aggressive) then (h1.spans - {h1.pagemap[r]})[p := Merger(h1, p, h1.pagemap[r])] else h1.spans)
    ensures var q, r := h0.spans[p].start - 1, h0.spans[p].End();
      var lo := if Takes(h0, p, q, aggressive) then {h0.pagemap[q]} else {};
      var hi := if Takes(h0, p, r, aggressive) then {h0.pagemap[r]} else {};
      && p in h2.spans && h2.spans.Keys == h0.spans.Keys - lo - hi
      && (forall x | x in h2.spans && x != p :: h2.spans[x] == h0.spans[x])
      && h2.spans[p].location == h0.spans[p].location && h2.spans[p].sizeclass == 0
      && h2.spans[p].start == (if Takes(h0, p, q, aggressive) then h0.spans[h0.pagemap[q]].start else h0.spans[p].start)
      && h2.spans[p].End() == (if Takes(h0, p, r, aggressive) then h0.spans[h0.pagemap[r]].End() else h0.spans[p].End())
  {
    hide Sound;
    Shape(h0, {p}, 0, p);
    OnlyNeighbour(h0, p, h0.spans[p].start - 1, true);
    OnlyNeighbour(h0, p, h0.spans[p].End(), false);
  }

  /** Decommitting the span itself first changes nothing about what it is merged with. */
  lemma LooseMates(h: Heap, h0: Heap, h': Heap, p: Ptr, aggressive: bool)
    requires p in h.spans && p in h0.spans && h0.spans == h.spans[p := h.spans[p].(location := h0.spans[p].location)]
    requires MergedExactly(h0, h', p, aggressive)
    requires h0.spans[p].location == if aggressive then Returned else h.spans[p].location
    ensures MergedExactly(h, h', p, aggressive)
  {
    forall x | x in h.spans ensures Mates(h0, p, x, aggressive) <==> Mates(h, p, x, aggressive) {}
    forall q
      ensures h'.spans[p].Contains(q) <==>
        h.spans[p].Contains(q) || exists x | x in h.spans && Mates(h, p, x, aggressive) :: h.spans[x].Contains(q)
    {
      assert h0.spans[p].Contains(q) <==> h.spans[p].Contains(q);
      if x :| x in h0.spans && Mates(h0, p, x, aggressive) && h0.spans[x].Contains(q) {
        assert x in h.spans && Mates(h, p, x, aggressive) && h.spans[x].Contains(q);
      }
      if x :| x in h.spans && Mates(h, p, x, aggressive) && h.spans[x].Contains(q) {
        assert x in h0.spans && Mates(h0, p, x, aggressive) && h0.spans[x].Contains(q);
      }
    }
  }

  /** The pages of `p` and of every free span that touches it are returned. */
  ghost predicate GivenBack(h: Heap, h': Heap, p: Ptr)
    requires p in h.spans
  {
    forall x, q: int | x in h.spans && (x == p || Mates(h, p, x, true)) && h.spans[x].Contains(q) :: q in h'.Pages(Returned)
  }

  lemma ExactlyGivesBack(h: Heap, h': Heap, p: Ptr)
    requires Sound(h', {}, 0) && p in h.spans && MergedExactly(h, h', p, true)
    ensures GivenBack(h, h', p)
  {
    forall x, q: int | x in h.spans && (x == p || Mates(h, p, x, true)) && h.spans[x].Contains(q)
      ensures q in h'.Pages(Returned)
    {
      assert h'.spans[p].Contains(q);
    }
  }

  /** Having been given back, pages stay so. */
  lemma StaysGivenBack(h: Heap, h1: Heap, h2: Heap, p: Ptr)
    requires p in h.spans && GivenBack(h, h1, p) && Evolves(h1, h2)
    ensures GivenBack(h, h2, p)
  {
    hide At, Used, Spread, Mates;
  }

  /** The mate on the left, if there is one, and where the merged span then starts. */
  lemma LeftEdge(h: Heap, h': Heap, p: Ptr, aggressive: bool)
    requires Sound(h, {p}, 0) && p in h.spans && MergedExactly(h, h', p, aggressive) && h'.spans[p].length > 0
    ensures forall x | x in h.spans && Mates(h, p, x, aggressive) && TouchesOn(h.spans[x], h.spans[p], true) ::
      h'.spans[p].start == h.spans[x].start
    ensures h'.spans[p].start == h.spans[p].start ||
      exists x | x in h.spans && Mates(h, p, x, aggressive) ::
        TouchesOn(h.spans[x], h.spans[p], true) && h'.spans[p].start == h.spans[x].start
  {
    Shape(h, {p}, 0, p);
    var q := h'.spans[p].start;
    assert h'.spans[p].Contains(q) && h.spans[p].Contains(h.spans[p].start);
    assert !h'.spans[p].Contains(q - 1);
    if !h.spans[p].Contains(q) {
      var z :| z in h.spans && Mates(h, p, z, aggressive) && h.spans[z].Contains(q);
      assert h.spans[z].Contains(h.spans[z].start);
    }
    forall x | x in h.spans && Mates(h, p, x, aggressive) && TouchesOn(h.spans[x], h.spans[p], true)
      ensures q == h.spans[x].start
    {
      assert h.spans[x].Contains(h.spans[x].start) && h.spans[x].Contains(h.spans[p].start - 1);
      var z :| z in h.spans && Mates(h, p, z, aggressive) && h.spans[z].Contains(q);
      assert h.spans[z].Contains(h.spans[p].start - 1);
    }
  }

  lemma RightEdge(h: Heap, h': Heap, p: Ptr, aggressive: bool)
    requires Sound(h, {p}, 0) && p in h.spans && MergedExactly(h, h', p, aggressive) && h'.spans[p].length > 0
    ensures forall x | x in h.spans && Mates(h, p, x, aggressive) && TouchesOn(h.spans[x], h.spans[p], false) ::
      h'.spans[p].End() == h.spans[x].End()
    ensures h'.spans[p].End() == h.spans[p].End() ||
      exists x | x in h.spans && Mates(h, p, x, aggressive) ::
        TouchesOn(h.spans[x], h.spans[p], false) && h'.spans[p].End() == h.spans[x].End()
  {
    Shape(h, {p}, 0, p);
    var q := h'.spans[p].End() - 1;
    assert h'.spans[p].Contains(q) && h.spans[p].Contains(h.spans[p].End() - 1);
    assert !h'.spans[p].Contains(q + 1);
    if !h.spans[p].Contains(q) {
      var z :| z in h.spans && Mates(h, p, z, aggressive) && h.spans[z].Contains(q);
      assert h.spans[z].Contains(h.spans[z].End() - 1);
    }
    forall x | x in h.spans && Mates(h, p, x, aggressive) && TouchesOn(h.spans[x], h.spans[p], false)
      ensures q + 1 == h.spans[x].End()
    {
      assert h.spans[x].Contains(h.spans[x].End() - 1) && h.spans[x].Contains(h.spans[p].End());
      var z :| z in h.spans && Mates(h, p, z, aggressive) && h.spans[z].Contains(q);
      assert h.spans[z].Contains(h.spans[p].End());
    }
  }

  /** `y` touches, from the far side, a returned span that was merged. */
  ghost predicate Beyond(h: Heap, p: Ptr, y: Ptr, left: bool)
    requires p in h.spans && y in h.spans
  {
    exists x | x in h.spans && Mates(h, p, x, true) && h.spans[x].location == Returned ::
      TouchesOn(h.spans[x], h.spans[p], left) && TouchesOn(h.spans[y], h.spans[x], left)
  }

  /** In aggressive mode a normal span touches the merged one exactly if it touched, from the far
      side, a returned span that was merged: that one is not looked at again. */
  lemma NormalBesideIff(h: Heap, h': Heap, p: Ptr, y: Ptr, left: bool)
    requires Sound(h, {p}, 0) && p in h.spans && MergedExactly(h, h', p, true) && Apart(h.spans, {p})
    requires h'.spans[p].length > 0 && y in h'.spans && y != p && h'.spans[y].location == Normal
    ensures TouchesOn(h'.spans[y], h'.spans[p], left) <==> Beyond(h, p, y, left)
  {
    hide Sound;
    LeftEdge(h, h', p, true);
    RightEdge(h, h', p, true);
    if TouchesOn(h'.spans[y], h'.spans[p], left) {
      assert !Mates(h, p, y, true);
      if left {
        var x :| x in h.spans && Mates(h, p, x, true) && TouchesOn(h.spans[x], h.spans[p], true) && h'.spans[p].start == h.spans[x].start;
        assert h.spans[x].location == Returned;
      } else {
        var x :| x in h.spans && Mates(h, p, x, true) && TouchesOn(h.spans[x], h.spans[p], false) && h'.spans[p].End() == h.spans[x].End();
        assert h.spans[x].location == Returned;
      }
    }
  }

  // ---- freeing and releasing a span

  lemma PageAfterMove(h: Heap, p: Ptr, to: Location, location: Location, q: int)
    requires Tiled(h.spans, h.owner) && p in h.spans
    ensures h.spans[p].length > 0
    ensures q in Relocated(h, p, to).Pages(location) <==>
      if q in Range(h.spans[p].start, h.spans[p].length) then location == to else q in h.Pages(location)
    ensures q in Range(h.spans[p].start, h.spans[p].length) ==> q in h.Pages(h.spans[p].location)
  {
    PagesOf(h.spans, h.owner, p);
  }

  /** Moving a span moves exactly its own pages. */
  lemma MoveMovesPages(h: Heap, p: Ptr, to: Location, location: Location)
    requires Tiled(h.spans, h.owner) && p in h.spans
    ensures h.spans[p].length > 0 && Range(h.spans[p].start, h.spans[p].length) <= h.Pages(h.spans[p].location)
    ensures location == to ==> Relocated(h, p, to).Pages(location) == h.Pages(location) + Range(h.spans[p].start, h.spans[p].length)
    ensures location != to ==> Relocated(h, p, to).Pages(location) == h.Pages(location) - Range(h.spans[p].start, h.spans[p].length)
  {
    hide Relocated, At, Tiled, Range;
    PositiveLength(h.spans, h.owner, p);
    forall q
      ensures q in Relocated(h, p, to).Pages(location) <==>
        if q in Range(h.spans[p].start, h.spans[p].length) then location == to else q in h.Pages(location)
      ensures q in Range(h.spans[p].start, h.spans[p].length) ==> q in h.Pages(h.spans[p].location)
    {
      PageAfterMove(h, p, to, location, q);
    }
  }

  /** A normal span is decommitted, taken off its list and marked returned, ready to be merged. */
  ghost function Withdrawn(h: Heap, p: Ptr): Heap
    requires p in h.spans
  {
    Relocated(Removed(Committed(h, -h.spans[p].length), p), p, Returned)
  }

  lemma WithdrawKeepsSound(h: Heap, p: Ptr)
    requires Sound(h, {}, 0) && p in h.spans && h.spans[p].location == Normal
    ensures Sound(Withdrawn(h, p), {p}, 0)
  {
    hide Sound, Removed;
    var n := h.spans[p].length;
    CommitKeepsSound(h, {}, 0, -n);
    RemoveKeepsSound(Committed(h, -n), {}, {p}, p, n);
    RemovedFrame(Committed(h, -n), p);
    RelocateKeepsSound(Removed(Committed(h, -n), p), {p}, p, Returned, n);
  }

  /** A normal span has no normal neighbour, so merging it once it is withdrawn decommits nothing. */
  lemma WithdrawnIsGentle(h: Heap, p: Ptr, aggressive: bool)
    requires Sound(h, {}, 0) && Apart(h.spans, {}) && p in h.spans && h.spans[p].location == Normal
    ensures Gentle(Withdrawn(h, p), p, aggressive)
  {
    hide Removed;
    RemovedFrame(Committed(h, -h.spans[p].length), p);
    LookupBefore(h.spans, h.pagemap, h.owner, p);
    LookupAfter(h.spans, h.pagemap, h.owner, p);
  }

  lemma RemovedFrame(h: Heap, p: Ptr)
    requires p in h.spans
    ensures var h' := Removed(h, p);
      && h'.spans == h.spans && h'.pagemap == h.pagemap && h'.owner == h.owner
      && h'.leaked == h.leaked && h'.stats.system == h.stats.system
  {}

  lemma WithdrawEvolves(h: Heap, p: Ptr)
    requires Tiled(h.spans, h.owner) && p in h.spans && h.spans[p].location == Normal
    ensures h.spans[p].length > 0
    ensures Evolves(h, Withdrawn(h, p))
    ensures Withdrawn(h, p).Pages(Normal) == h.Pages(Normal) - Range(h.spans[p].start, h.spans[p].length)
    ensures Withdrawn(h, p).Pages(Returned) == h.Pages(Returned) + Range(h.spans[p].start, h.spans[p].length)
    ensures Range(h.spans[p].start, h.spans[p].length) <= h.Pages(Normal)
  {
    hide Removed, Evolves, At, Tiled, Range;
    RemovedFrame(Committed(h, -h.spans[p].length), p);
    ReturnEvolves(h, Removed(Committed(h, -h.spans[p].length), p), p);
  }

  lemma LocationsApart(h: Heap, a: Location, b: Location)
    requires a != b
    ensures h.Pages(a) !! h.Pages(b)
  {}

  /** When pages only move from normal to returned, so do the statistics. */
  lemma EvolveCounts(h: Heap, h': Heap)
    requires Tiled(h.spans, h.owner) && Tiled(h'.spans, h'.owner) && Evolves(h, h')
    ensures |h'.Pages(Normal)| + |h'.Pages(Returned)| == |h.Pages(Normal)| + |h.Pages(Returned)|
    ensures |h.Pages(Returned)| <= |h'.Pages(Returned)|
    ensures h'.Pages(Normal) <= h.Pages(Normal)
  {
    hide At, Tiled, Used;
    LocationsSplit(h.spans, h.owner);
    LocationsSplit(h'.spans, h'.owner);
    LocationsApart(h', Normal, Returned);
    LocationsApart(h', InUse, Normal);
    assert |h.owner.Keys| == |h'.owner.Keys|;
    SubsetSize(h.Pages(Returned), h'.Pages(Returned));
  }

  lemma SubsetSize(a: set<int>, b: set<int>)
    requires a <= b
    ensures |a| <= |b|
  {
    assert b == a + (b - a);
  }

  lemma FreeHasNoClass(h: Heap, skip: set<Ptr>, pending: int, p: Ptr)
    requires Sound(h, skip, pending) && p in h.spans && h.spans[p].Free()
    ensures h.spans[p].sizeclass == 0
  {
    assert Recorded(h.pagemap, h.spans[p], p);
  }

  lemma SkipKeepsCoalesced(spans: SpanMap, p: Ptr, s: Span)
    requires Coalesced(spans, {})
    ensures Coalesced(spans[p := s], {p})
  {}

  /** The statistics of a heap between operations. */
  lemma StatsAgree(h: Heap)
    requires Sound(h, {}, 0)
    ensures h.stats.free == |h.Pages(Normal)| && h.stats.unmapped == |h.Pages(Returned)|
    ensures h.stats.committed == |h.Pages(InUse)| + |h.Pages(Normal)| + h.leaked
    ensures h.stats.unmapped + h.stats.committed == h.stats.system
    ensures h.stats.free + h.stats.unmapped <= h.stats.system
    ensures Tiled(h.spans, h.owner)
  {
    hide At, Laid, Exact;
    IsTiled(h, {}, 0);
    LocationsSplit(h.spans, h.owner);
  }

  /** Withdrawing a span and merging it moves exactly its own pages. */
  lemma ReleaseCounts(h: Heap, h': Heap, p: Ptr)
    requires Sound(h, {}, 0) && Sound(h', {}, 0) && p in h.spans && h.spans[p].location == Normal
    requires Evolves(Withdrawn(h, p), h') && SamePages(Withdrawn(h, p), h')
    ensures Evolves(h, h')
    ensures h.spans[p].length > 0
    ensures h'.stats.free == h.stats.free - h.spans[p].length
    ensures h'.Pages(Returned) == h.Pages(Returned) + Range(h.spans[p].start, h.spans[p].length)
  {
    hide Sound, At, Tiled, Used, Removed, Range, Withdrawn;
    StatsAgree(h);
    StatsAgree(h');
    WithdrawEvolves(h, p);
    EvolveOn(h, Withdrawn(h, p), h');
    WithdrawKeepsSound(h, p);
    IsTiled(Withdrawn(h, p), {p}, 0);
    EvolveCounts(Withdrawn(h, p), h');
    SubsetSize(h'.Pages(Normal), Withdrawn(h, p).Pages(Normal));
  }

  lemma UnmappedGrows(h: Heap, h': Heap)
    requires Sound(h, {}, 0) && Sound(h', {}, 0) && Evolves(h, h')
    ensures h'.stats.free + h'.stats.unmapped == h.stats.free + h.stats.unmapped
    ensures h'.stats.unmapped >= h.stats.unmapped
  {
    hide Sound, At, Tiled, Used;
    StatsAgree(h);
    StatsAgree(h');
    EvolveCounts(h, h');
  }
}
