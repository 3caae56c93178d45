/** A heap on which aggressive decommit, switched on at run time, undoes maximal coalescing
    (page_heap.cc, CheckAndHandlePreMerge). */
module Aggressive {
  import opened Spans
  import opened FreeLists
  import opened Accounting
  import opened HeapState
  import opened Coalescing
  import opened Carving

  ghost function EmptyHeap(): Heap {
    Heap(map[], map[], Lists(seq(MAX_PAGES, _ => []), seq(MAX_PAGES, _ => []), {}, {}), Stats(0, 0, 0, 0), map[], 0)
  }

  lemma EmptyIsSound()
    ensures Sound(EmptyHeap(), {}, 0)
  {
    var h := EmptyHeap();
    assert At(h.spans, h.owner, Normal, {}) == {} && At(h.spans, h.owner, Returned, {}) == {};
  }

  /** One span of three pages in use, cut into a first page and the rest, and then into three pages. */
  ghost function One(): Heap {
    Grew(EmptyHeap(), 1, Span(1, 3, InUse, 0))
  }

  ghost function Two(): Heap
    requires 1 in One().spans
  {
    Cutoff(One(), 1, 2, 1, InUse)
  }

  ghost function ThreeInUse(): Heap
    requires 1 in One().spans && 2 in Two().spans
  {
    Cutoff(Two(), 2, 3, 1, InUse)
  }

  lemma OneIsSound()
    ensures Sound(One(), {}, 0) && One().spans == map[1 := Span(1, 3, InUse, 0)]
  {
    hide Sound, Grown;
    EmptyIsSound();
    GrowKeepsSound(EmptyHeap(), 1, Span(1, 3, InUse, 0));
  }

  lemma TwoIsSound()
    ensures One().spans == map[1 := Span(1, 3, InUse, 0)]
    ensures Sound(Two(), {}, 0) && Two().spans == map[1 := Span(1, 1, InUse, 0), 2 := Span(2, 2, InUse, 0)]
  {
    hide Sound, One, Cut;
    OneIsSound();
    SplitKeepsSound(One(), 1, 2, 1);
  }

  lemma ThreeIsSound()
    ensures 1 in One().spans && 2 in Two().spans
    ensures Sound(ThreeInUse(), {}, 0)
    ensures ThreeInUse().spans == map[1 := Span(1, 1, InUse, 0), 2 := Span(2, 1, InUse, 0), 3 := Span(3, 1, InUse, 0)]
    ensures 2 in ThreeInUse().pagemap && ThreeInUse().pagemap[2] == 2
  {
    hide Sound, One, Two, Cut;
    TwoIsSound();
    SplitKeepsSound(Two(), 2, 3, 1);
  }

  /** The first of them returned, the second normal, the third about to be freed. */
  ghost function Mixed(): Heap
    requires 1 in One().spans && 2 in Two().spans
    requires 1 in ThreeInUse().spans && 2 in ThreeInUse().spans && 3 in ThreeInUse().spans
  {
    var h1 := Prepended(Relocated(Committed(ThreeInUse(), -1), 1, Returned), 1);
    var h2 := Prepended(Relocated(h1, 2, Normal), 2);
    Relocated(h2, 3, Normal)
  }

  lemma MixedIsSound()
    ensures 1 in One().spans && 2 in Two().spans
    ensures 1 in ThreeInUse().spans && 2 in ThreeInUse().spans && 3 in ThreeInUse().spans
    ensures Sound(Mixed(), {3}, 0)
    ensures Mixed().spans == map[1 := Span(1, 1, Returned, 0), 2 := Span(2, 1, Normal, 0), 3 := Span(3, 1, Normal, 0)]
    ensures 2 in Mixed().pagemap && Mixed().pagemap[2] == 2
  {
    hide Sound, One, Two, ThreeInUse, Enlist;
    ThreeIsSound();
    var h := ThreeInUse();
    SkipLive(h, {}, {1}, 0, 1);
    CommitKeepsSound(h, {1}, 0, -1);
    RelocateKeepsSound(Committed(h, -1), {1}, 1, Returned, 1);
    var h0 := Relocated(Committed(h, -1), 1, Returned);
    PrependKeepsSound(h0, {1}, {}, 1, 0);
    var h1 := Prepended(h0, 1);
    UnuseKeepsSound(h1, 2, Normal);
    PrependKeepsSound(Relocated(h1, 2, Normal), {2}, {}, 2, 0);
    UnuseKeepsSound(Prepended(Relocated(h1, 2, Normal), 2), 3, Normal);
  }

  /** Freeing a span in a maximally coalesced heap can leave two returned spans side by side. */
  lemma CoalescingCanBreak()
    ensures exists h, p ::
      && Sound(h, {p}, 0) && p in h.spans && h.spans[p].Free() && h.spans[p].sizeclass == 0 && Coalesced(h.spans, {p})
      && !Coalesced(Merged(h, p, true, true, true, true).spans, {})
  {
    hide Sound, One, Two, ThreeInUse, Mixed, Merged;
    MixedIsSound();
    var h := Mixed();
    MergeCoalescesIff(h, 3, true, true, true, true);
    var h0 := Loosened(h, 3, true, true);
    assert h0.spans[1].location == Returned && TouchesOn(h0.spans[1], h0.spans[2], true);
    assert Exposed(h0, 3, 2, true, true, true);
  }

  /** The first of the three normal, the second returned, the third about to be freed. */
  ghost function Facing(): Heap
    requires 1 in One().spans && 2 in Two().spans
    requires 1 in ThreeInUse().spans && 2 in ThreeInUse().spans && 3 in ThreeInUse().spans
  {
    var h1 := Prepended(Relocated(ThreeInUse(), 1, Normal), 1);
    var h2 := Prepended(Relocated(Committed(h1, -1), 2, Returned), 2);
    Relocated(h2, 3, Normal)
  }

  lemma FacingIsSound()
    ensures 1 in One().spans && 2 in Two().spans
    ensures 1 in ThreeInUse().spans && 2 in ThreeInUse().spans && 3 in ThreeInUse().spans
    ensures Sound(Facing(), {3}, 0)
    ensures Facing().spans == map[1 := Span(1, 1, Normal, 0), 2 := Span(2, 1, Returned, 0), 3 := Span(3, 1, Normal, 0)]
  {
    hide Sound, One, Two, ThreeInUse, Enlist;
    ThreeIsSound();
    var h := ThreeInUse();
    UnuseKeepsSound(h, 1, Normal);
    PrependKeepsSound(Relocated(h, 1, Normal), {1}, {}, 1, 0);
    var h1 := Prepended(Relocated(h, 1, Normal), 1);
    SkipLive(h1, {}, {2}, 0, 2);
    CommitKeepsSound(h1, {2}, 0, -1);
    RelocateKeepsSound(Committed(h1, -1), {2}, 2, Returned, 1);
    var h2 := Relocated(Committed(h1, -1), 2, Returned);
    PrependKeepsSound(h2, {2}, {}, 2, 0);
    UnuseKeepsSound(Prepended(h2, 2), 3, Normal);
  }

  /** Freeing `p` in aggressive mode, with nothing refused, leaves `y` normal and beside the returned
      span that `p` becomes. */
  ghost predicate StaysBeside(h: Heap, p: Ptr, y: Ptr)
    requires p in h.spans
  {
    var h' := Merged(h, p, true, true, true, true);
    && p in h'.spans && h'.spans[p].location == Returned
    && y in h'.spans && h'.spans[y].location == Normal && TouchesOn(h'.spans[y], h'.spans[p], true)
  }

  lemma FacingMerges()
    ensures 1 in One().spans && 2 in Two().spans
    ensures 1 in ThreeInUse().spans && 2 in ThreeInUse().spans && 3 in ThreeInUse().spans
    ensures 3 in Facing().spans && 1 in Facing().spans && StaysBeside(Facing(), 3, 1)
  {
    hide Sound, One, Two, ThreeInUse, Facing, Merged, Drags, Loosened;
    FacingIsSound();
    var h := Facing();
    var h' := Merged(h, 3, true, true, true, true);
    MergeIsExact(h, 3, true, true, true, true);
    assert h.spans[3].Contains(3);
    assert Mates(h, 3, 2, true);
    NormalBesideIff(h, h', 3, 1, true);
    assert Beyond(h, 3, 1, true);
  }

  /** A normal span can stay beside the returned one: the neighbour of a neighbour is not looked at. */
  lemma NormalCanStay()
    ensures exists h, p, y ::
      && Sound(h, {p}, 0) && p in h.spans && h.spans[p].Free() && h.spans[p].sizeclass == 0 && Coalesced(h.spans, {p})
      && StaysBeside(h, p, y)
  {
    hide Sound, One, Two, ThreeInUse, Facing, Merged, StaysBeside;
    FacingIsSound();
    FacingMerges();
    assert Coalesced(Facing().spans, {3});
  }
}
