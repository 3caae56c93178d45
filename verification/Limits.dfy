/** A heap on which AllocLarge fails although a normal span is long enough: the assertion at the end
    of AllocLarge does not hold once the limit has been lowered below what is in use
    (page_heap.cc, AllocLarge). */
module Limits {
  import opened Spans
  import opened FreeLists
  import opened Accounting
  import opened HeapState
  import opened Carving
  import opened Fitting
  import opened Aggressive

  /** A region of 260 pages, cut into 129, 1 and 130 pages. */
  ghost function Region(): Heap {
    Grew(EmptyHeap(), 1, Span(1, 260, InUse, 0))
  }

  ghost function CutOnce(): Heap
    requires 1 in Region().spans
  {
    Cutoff(Region(), 1, 2, 129, InUse)
  }

  ghost function CutTwice(): Heap
    requires 1 in Region().spans && 2 in CutOnce().spans
  {
    Cutoff(CutOnce(), 2, 3, 1, InUse)
  }

  /** The first part returned, the last one normal. */
  ghost function Tight(): Heap
    requires 1 in Region().spans && 2 in CutOnce().spans
    requires 1 in CutTwice().spans && 3 in CutTwice().spans
  {
    var h := Prepended(Relocated(Committed(CutTwice(), -129), 1, Returned), 1);
    Prepended(Relocated(h, 3, Normal), 3)
  }

  lemma RegionIsSound()
    ensures Sound(Region(), {}, 0) && Region().spans == map[1 := Span(1, 260, InUse, 0)]
    ensures Region().stats == Stats(260, 0, 0, 260)
  {
    hide Sound, Grown;
    EmptyIsSound();
    GrowKeepsSound(EmptyHeap(), 1, Span(1, 260, InUse, 0));
  }

  lemma CutOnceIsSound()
    ensures Region().spans == map[1 := Span(1, 260, InUse, 0)]
    ensures Sound(CutOnce(), {}, 0) && CutOnce().stats == Stats(260, 0, 0, 260)
    ensures CutOnce().spans == map[1 := Span(1, 129, InUse, 0), 2 := Span(130, 131, InUse, 0)]
  {
    hide Sound, Region, Cut;
    RegionIsSound();
    SplitKeepsSound(Region(), 1, 2, 129);
  }

  lemma CutTwiceIsSound()
    ensures 1 in Region().spans && 2 in CutOnce().spans
    ensures Sound(CutTwice(), {}, 0) && CutTwice().stats == Stats(260, 0, 0, 260)
    ensures CutTwice().spans == map[1 := Span(1, 129, InUse, 0), 2 := Span(130, 1, InUse, 0), 3 := Span(131, 130, InUse, 0)]
  {
    hide Sound, Region, CutOnce, Cut;
    CutOnceIsSound();
    SplitKeepsSound(CutOnce(), 2, 3, 1);
  }

  lemma TightIsSound()
    ensures 1 in Region().spans && 2 in CutOnce().spans
    ensures 1 in CutTwice().spans && 3 in CutTwice().spans
    ensures Sound(Tight(), {}, 0) && Tight().stats == Stats(260, 130, 129, 131)
    ensures Tight().spans == map[1 := Span(1, 129, Returned, 0), 2 := Span(130, 1, InUse, 0), 3 := Span(131, 130, Normal, 0)]
  {
    hide Sound, Region, CutOnce, CutTwice, Enlist;
    CutTwiceIsSound();
    var h := CutTwice();
    SkipLive(h, {}, {1}, 0, 1);
    CommitKeepsSound(h, {1}, 0, -129);
    RelocateKeepsSound(Committed(h, -129), {1}, 1, Returned, 129);
    PrependKeepsSound(Relocated(Committed(h, -129), 1, Returned), {1}, {}, 1, 0);
    var h1 := Prepended(Relocated(Committed(h, -129), 1, Returned), 1);
    UnuseKeepsSound(h1, 3, Normal);
    PrependKeepsSound(Relocated(h1, 3, Normal), {3}, {}, 3, 0);
  }

  lemma TightFails(h: Heap)
    requires h.stats == Stats(260, 130, 129, 131)
    requires h.spans == map[1 := Span(1, 129, Returned, 0), 2 := Span(130, 1, InUse, 0), 3 := Span(131, 130, Normal, 0)]
    ensures Apart(h.spans, {}) && Coalesced(h.spans, {}) && NormalFit(h, 129) && OverLimit(h, 129, MAX_PAGES, 100, 260)
  {
    assert BestFit(h, 1, 129, MAX_PAGES);
    OverLimitIff(h, 1, 129, MAX_PAGES, 100, 260);
    assert h.spans[3].location == Normal && h.spans[3].length > MAX_PAGES;
  }

  /** In a coalesced heap with a normal span of 130 pages, a request for 129 pages fails under a limit
      of 100 pages: the returned span of 129 pages is the better fit, and releasing all 130 normal
      pages leaves one page in use and room for 99. */
  lemma NormalFitCanFail()
    ensures exists h, n, limit, taken ::
      && Sound(h, {}, 0) && Apart(h.spans, {}) && Coalesced(h.spans, {}) && h.stats.system <= taken
      && NormalFit(h, n) && OverLimit(h, n, MAX_PAGES, limit, taken)
  {
    hide Sound, Tight, CutTwice, Apart, Coalesced, NormalFit, OverLimit;
    TightIsSound();
    TightFails(Tight());
  }
}
