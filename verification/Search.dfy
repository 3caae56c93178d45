/** What the search for a fit knows as it goes from length to length, and why it fails
    (page_heap.cc, SearchFreeAndLargeLists). */
module Searches {
  import opened Spans
  import opened FreeLists
  import opened Accounting
  import opened HeapState
  import opened Coalescing
  import opened Fitting

  /** Something fits, and the limit does not stand in the way of the best fit. */
  ghost predicate Obtainable(h: Heap, n: int, limit: int, taken: int) {
    !NoFit(h, n, 0) && !OverLimit(h, n, 0, limit, taken)
  }

  /** Nothing has been released, and no free span from `n` up to `s` pages was found. */
  ghost predicate Untouched(h: Heap, v: Heap, n: int, s: int) {
    v == h && Gap(h, n, s)
  }

  ghost predicate ReturnedFit(v: Heap, s: int) {
    exists y :: y in v.spans && v.spans[y].location == Returned && v.spans[y].length >= s
  }

  /** Releasing has made room, and there is still something to find. */
  ghost predicate MadeRoom(h: Heap, v: Heap, n: int, s: int, limit: int, taken: int) {
    limit != 0 && Obtainable(h, n, limit, taken) && taken - v.stats.unmapped + n <= limit && ReturnedFit(v, s)
  }

  /** Everything normal has been released, and there is no room. */
  ghost predicate NoRoom(h: Heap, v: Heap, n: int, limit: int, taken: int) {
    OverLimit(h, n, 0, limit, taken) && v.stats.free == 0 && taken - v.stats.unmapped + n > limit
  }

  /** The search has come from `h` to `v` and has not found a span shorter than `s`. */
  ghost predicate Searching(h: Heap, v: Heap, n: int, s: int, limit: int, taken: int) {
    Untouched(h, v, n, s) || MadeRoom(h, v, n, s, limit, taken) || NoRoom(h, v, n, limit, taken)
  }

  lemma SearchStart(h: Heap, n: int, limit: int, taken: int)
    ensures Searching(h, h, n, n, limit, taken)
  {
    GapStart(h, n);
  }

  /** Without a limit nothing is ever released. */
  lemma OnlyUntouched(h: Heap, v: Heap, n: int, s: int, taken: int)
    requires Searching(h, v, n, s, 0, taken)
    ensures Untouched(h, v, n, s)
  {}

  lemma NormalCounts(v: Heap, p: Ptr)
    requires Sound(v, {}, 0) && p in v.spans && v.spans[p].location == Normal
    ensures v.stats.free > 0
  {
    SkipOne(v.spans, v.owner, Normal, {}, {p}, p);
  }

  /** A normal span at this length can always be taken. */
  lemma NormalFound(h: Heap, v: Heap, n: int, s: int, p: Ptr, limit: int, taken: int)
    requires Sound(v, {}, 0) && 0 < n <= s <= MAX_PAGES
    requires p in v.spans && v.spans[p].location == Normal && v.spans[p].length == s
    ensures Searching(h, v, n, s, limit, taken) ==> Obtainable(h, n, limit, taken)
    ensures Untouched(h, v, n, s) ==> BestFit(h, p, n, 0)
  {
    hide Sound, BestFit, NoFit, OverLimit, Gap;
    NormalCounts(v, p);
    if Untouched(h, v, n, s) {
      FirstIsBest(h, n, s, p);
      OverLimitIff(h, p, n, 0, limit, taken);
    }
  }

  /** A returned span is the best fit if nothing was found before. */
  lemma ReturnedFound(h: Heap, v: Heap, n: int, s: int, p: Ptr, limit: int, taken: int)
    requires Sound(v, {}, 0) && 0 < n <= s <= MAX_PAGES && Slot(v.lists.normal, s) == []
    requires p in v.spans && v.spans[p].location == Returned && v.spans[p].length == s
    ensures Untouched(h, v, n, s) ==> BestFit(h, p, n, 0)
    ensures Searching(h, v, n, s, limit, taken) ==> !NoFit(h, n, 0)
  {
    hide Sound, BestFit, NoFit, OverLimit, Gap, Slot;
    if Untouched(h, v, n, s) {
      FirstIsBest(h, n, s, p);
      OverLimitIff(h, p, n, 0, limit, taken);
    }
    if NoRoom(h, v, n, limit, taken) {
      LimitIsSet(h, n, limit, taken);
    }
  }

  /** With both lists empty, what there is to find is longer. */
  lemma NothingThere(h: Heap, v: Heap, n: int, s: int, limit: int, taken: int)
    requires Sound(v, {}, 0) && s <= MAX_PAGES && Searching(h, v, n, s, limit, taken)
    requires Slot(v.lists.normal, s) == [] && Slot(v.lists.returned, s) == []
    ensures Searching(h, v, n, s + 1, limit, taken)
  {
    hide Sound, Obtainable, OverLimit, Gap, Slot;
    if Untouched(h, v, n, s) {
      GapGrows(h, n, s);
    }
    if MadeRoom(h, v, n, s, limit, taken) {
      LongerReturned(v, s);
    }
  }

  lemma LongerReturned(v: Heap, s: int)
    requires Sound(v, {}, 0) && s <= MAX_PAGES && Slot(v.lists.returned, s) == [] && ReturnedFit(v, s)
    ensures ReturnedFit(v, s + 1)
  {
    hide Sound, Slot;
    EmptySlot(v, s);
  }

  /** A returned span may be merged, but it stays returned. */
  lemma ReturnedRemains(h: Heap, v: Heap, p: Ptr)
    requires Sound(h, {}, 0) && Sound(v, {}, 0) && Evolves(h, v)
    requires p in h.spans && h.spans[p].location == Returned
    ensures ReturnedFit(v, h.spans[p].length)
  {
    var y :| y in v.spans && Covers(v.spans[y], h.spans[p]);
    var q := h.spans[p].start;
    assert h.spans[p].Contains(q) && v.spans[y].Contains(q);
    assert q in h.Pages(Returned);
    assert q in v.Pages(Returned);
  }

  /** Why EnsureLimit(n, true) says what it says, having come from `h1` to `v` without a refusal. */
  ghost predicate Ensured(h1: Heap, v: Heap, n: int, limit: int, taken: int, ok: bool) {
    && (ok <==> limit == 0 || taken - v.stats.unmapped + n <= limit)
    && (ok ==> limit == 0 || h1.stats.free >= taken - h1.stats.unmapped + n - limit)
    && (!ok ==> v.stats.free == 0 && h1.stats.free < taken - h1.stats.unmapped + n - limit)
  }

  /** If the limit lets a returned span be taken, the best fit could be had. */
  lemma RoomForReturned(h: Heap, h1: Heap, n: int, s: int, p: Ptr, limit: int, taken: int)
    requires Searching(h, h1, n, s, limit, taken) && (limit == 0 || h1.stats.free >= taken - h1.stats.unmapped + n - limit)
    requires Untouched(h, h1, n, s) ==> BestFit(h, p, n, 0)
    ensures Obtainable(h, n, limit, taken)
  {
    hide BestFit, NoFit, OverLimit, Gap;
    if Untouched(h, h1, n, s) {
      OverLimitIff(h, p, n, 0, limit, taken);
    }
    if NoRoom(h, h1, n, limit, taken) {
      LimitIsSet(h, n, limit, taken);
    }
  }

  lemma LimitIsSet(h: Heap, n: int, limit: int, taken: int)
    requires OverLimit(h, n, 0, limit, taken)
    ensures limit != 0 && !NoFit(h, n, 0)
  {}

  /** The returned span of `s` pages was not taken: it has been merged into a longer one, or there is
      no room. */
  lemma NotTaken(h: Heap, h1: Heap, v: Heap, n: int, s: int, p: Ptr, ok: bool, limit: int, taken: int)
    requires Sound(h1, {}, 0) && Sound(v, {}, 0) && Evolves(h1, v) && 0 < n <= s <= MAX_PAGES && h1.stats.free >= 0
    requires Searching(h, h1, n, s, limit, taken) && Ensured(h1, v, n, limit, taken, ok)
    requires p in h1.spans && h1.spans[p].location == Returned && h1.spans[p].length == s
    requires Untouched(h, h1, n, s) ==> BestFit(h, p, n, 0)
    requires ok ==> limit != 0 && Slot(v.lists.returned, s) == []
    ensures Searching(h, v, n, s + 1, limit, taken)
  {
    hide Sound, Evolves, BestFit, NoFit, OverLimit, Gap, Slot, Obtainable, ReturnedFit;
    if ok {
      RoomForReturned(h, h1, n, s, p, limit, taken);
      ReturnedRemains(h1, v, p);
      LongerReturned(v, s);
    } else {
      NoRoomForBest(h, h1, n, s, p, limit, taken);
    }
  }

  lemma NoRoomForBest(h: Heap, h1: Heap, n: int, s: int, p: Ptr, limit: int, taken: int)
    requires Searching(h, h1, n, s, limit, taken) && limit != 0
    requires 0 <= h1.stats.free < taken - h1.stats.unmapped + n - limit
    requires p in h1.spans && h1.spans[p].location == Returned
    requires Untouched(h, h1, n, s) ==> BestFit(h, p, n, 0)
    ensures OverLimit(h, n, 0, limit, taken)
  {
    hide BestFit, NoFit, OverLimit, Gap;
    if Untouched(h, h1, n, s) {
      OverLimitIff(h, p, n, 0, limit, taken);
    }
  }

  /** A fit that nothing is preferred to exists if there is any fit. */
  lemma {:induction false} BestExists(h: Heap, p: Ptr, n: int, over: int)
    requires 0 < n && p in h.spans && h.spans[p].Free() && h.spans[p].length >= n && h.spans[p].length > over
    ensures exists x :: BestFit(h, x, n, over)
    decreases h.spans[p].length, if h.spans[p].location == Normal then 0 else 1
  {
    if !BestFit(h, p, n, over) {
      var x :| x in h.spans && h.spans[x].Free() && h.spans[x].length >= n && h.spans[x].length > over
               && !Preferred(h.spans[p], h.spans[x]);
      BestExists(h, x, n, over);
    }
  }

  /** With nothing normal and no room, the long spans cannot be had either. */
  lemma AllReturned(v: Heap, n: int, over: int, limit: int, taken: int)
    requires Sound(v, {}, 0) && n > 0 && limit != 0 && v.stats.free == 0 && taken - v.stats.unmapped + n > limit
    ensures NoFit(v, n, over) || OverLimit(v, n, over, limit, taken)
  {
    hide Sound, BestFit;
    if !NoFit(v, n, over) {
      var p :| p in v.spans && v.spans[p].Free() && v.spans[p].length > over && v.spans[p].length >= n;
      BestExists(v, p, n, over);
      var x :| BestFit(v, x, n, over);
      IsFit(v, x, n, over);
      if v.spans[x].location == Normal {
        NormalCounts(v, x);
      }
    }
  }

  lemma IsFit(v: Heap, x: Ptr, n: int, over: int)
    requires BestFit(v, x, n, over)
    ensures x in v.spans && v.spans[x].Free()
  {}

  lemma OverGap(h: Heap, n: int, s: int, limit: int, taken: int)
    requires Gap(h, n, s) && s > MAX_PAGES && n > 0
    ensures NoFit(h, n, MAX_PAGES) <==> NoFit(h, n, 0)
    ensures OverLimit(h, n, MAX_PAGES, limit, taken) <==> OverLimit(h, n, 0, limit, taken)
    ensures forall p :: BestFit(h, p, n, MAX_PAGES) <==> BestFit(h, p, n, 0)
  {
    BestOverGap(h, n, s);
    forall p ensures BestFit(h, p, n, MAX_PAGES) <==> BestFit(h, p, n, 0) {}
  }

  /** Once all short lists have been passed, the long spans decide as the heap did at the start. */
  lemma LongSpansDecide(h: Heap, v: Heap, n: int, s: int, limit: int, taken: int)
    requires Sound(v, {}, 0) && v.stats.free >= 0 && Searching(h, v, n, s, limit, taken) && s > MAX_PAGES && 0 < n <= s
    ensures NoFit(h, n, 0) ==> NoFit(v, n, MAX_PAGES)
    ensures NoFit(v, n, MAX_PAGES) || OverLimit(v, n, MAX_PAGES, limit, taken) <==>
      NoFit(h, n, 0) || OverLimit(h, n, 0, limit, taken)
  {
    hide Sound, BestFit, NoFit, OverLimit, Gap;
    if Untouched(h, v, n, s) {
      OverGap(h, n, s, limit, taken);
    } else if MadeRoom(h, v, n, s, limit, taken) {
      StillFits(v, n, s, limit, taken);
    } else {
      LimitIsSet(h, n, limit, taken);
      AllReturned(v, n, MAX_PAGES, limit, taken);
    }
  }

  lemma StillFits(v: Heap, n: int, s: int, limit: int, taken: int)
    requires ReturnedFit(v, s) && s > MAX_PAGES && n <= s && v.stats.free >= 0 && taken - v.stats.unmapped + n <= limit
    ensures !NoFit(v, n, MAX_PAGES) && !OverLimit(v, n, MAX_PAGES, limit, taken)
  {}
}
