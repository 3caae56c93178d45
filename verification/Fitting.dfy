/** Best fit over all free spans, as a linear scan would find it (page_heap.cc, the search
    functions; span.h, SpanBestFitLess). */
module Fitting {
  import opened Options
  import opened Spans
  import opened FreeLists
  import opened Accounting
  import opened HeapState

  /** The order of the sets of long spans: by length, then by address. */
  predicate BestFitLess(spans: SpanMap, a: Entry, b: Entry)
    requires a.span in spans && b.span in spans
  {
    a.length < b.length || (a.length == b.length && spans[a.span].start < spans[b.span].start)
  }

  /** Two spans are never equal in that order, so a set never drops a span as a duplicate. */
  lemma NeverEqual(h: Heap, a: Entry, b: Entry)
    requires Sound(h, {}, 0) && a.span in h.spans && b.span in h.spans && a.span != b.span
    ensures BestFitLess(h.spans, a, b) || BestFitLess(h.spans, b, a)
  {
    assert h.spans[a.span].Contains(h.spans[a.span].start) && h.spans[b.span].Contains(h.spans[b.span].start);
  }

  /** A shorter span is preferred, and among spans of one length a normal one. */
  ghost predicate Preferred(a: Span, b: Span) {
    a.length < b.length || (a.length == b.length && (b.location == Normal ==> a.location == Normal))
  }

  /** `p` is a free span of at least `n` pages, preferred to all others longer than `over`. */
  ghost predicate BestFit(h: Heap, p: Ptr, n: int, over: int) {
    && p in h.spans && h.spans[p].Free() && h.spans[p].length >= n && h.spans[p].length > over
    && forall x | x in h.spans && h.spans[x].Free() && h.spans[x].length >= n && h.spans[x].length > over ::
         Preferred(h.spans[p], h.spans[x])
  }

  /** No free span longer than `over` has `n` pages. */
  ghost predicate NoFit(h: Heap, n: int, over: int) {
    forall x | x in h.spans && h.spans[x].Free() && h.spans[x].length > over :: h.spans[x].length < n
  }

  /** The least entry of a set that is at least `n` long, if any. */
  ghost predicate LeastOf(spans: SpanMap, entries: set<Entry>, n: int, r: Option<Entry>)
    requires forall e | e in entries :: e.span in spans
  {
    match r
    case None => forall e | e in entries :: e.length < n
    case Some(f) => f in entries && f.length >= n && forall e | e in entries && e.length >= n && e != f :: !BestFitLess(spans, e, f)
  }

  /** The two sets together give the best fit among the long spans. */
  lemma LargeBestFit(h: Heap, n: int, normal: Option<Entry>, returned: Option<Entry>)
    requires Sound(h, {}, 0)
    requires forall e | e in h.lists.largeNormal + h.lists.largeReturned :: e.span in h.spans
    requires LeastOf(h.spans, h.lists.largeNormal, n, normal) && LeastOf(h.spans, h.lists.largeReturned, n, returned)
    ensures normal.None? && returned.None? ==> NoFit(h, n, MAX_PAGES)
    ensures normal.Some? && (returned.None? || normal.value.length <= returned.value.length) ==>
      BestFit(h, normal.value.span, n, MAX_PAGES)
    ensures returned.Some? && (normal.None? || returned.value.length < normal.value.length) ==>
      BestFit(h, returned.value.span, n, MAX_PAGES)
  {
    forall x | x in h.spans && h.spans[x].Free() && h.spans[x].length > MAX_PAGES
      ensures Entry(x, h.spans[x].length) in (if h.spans[x].location == Normal then h.lists.largeNormal else h.lists.largeReturned)
    {
      assert Listed(h.lists, x, h.spans[x]);
    }
  }

  /** An empty list means there is no span of its length and location. */
  lemma EmptySlot(h: Heap, n: int)
    requires Sound(h, {}, 0) && n <= MAX_PAGES
    ensures Slot(h.lists.normal, n) == [] ==> forall x | x in h.spans && h.spans[x].length == n :: h.spans[x].location != Normal
    ensures Slot(h.lists.returned, n) == [] ==> forall x | x in h.spans && h.spans[x].length == n :: h.spans[x].location != Returned
  {
    forall x | x in h.spans
      ensures Listed(h.lists, x, h.spans[x])
    {}
  }

  /** Some long normal span has `n` pages. */
  ghost predicate NormalFit(h: Heap, n: int) {
    exists x :: x in h.spans && h.spans[x].location == Normal && h.spans[x].length > MAX_PAGES && h.spans[x].length >= n
  }

  /** A normal span of `n` pages accounts for that many normal pages. */
  lemma NormalFitCounts(h: Heap, n: int)
    requires Sound(h, {}, 0) && NormalFit(h, n)
    ensures h.stats.free >= n
  {
    var x :| x in h.spans && h.spans[x].location == Normal && h.spans[x].length > MAX_PAGES && h.spans[x].length >= n;
    SkipOne(h.spans, h.owner, Normal, {}, {x}, x);
  }

  /** The best fit among the spans longer than `over` is returned, and even with every normal page
      released the limit leaves no room for `n` more. */
  ghost predicate OverLimit(h: Heap, n: int, over: int, limit: int, taken: int) {
    && limit != 0 && h.stats.free < taken - h.stats.unmapped + n - limit
    && exists p :: BestFit(h, p, n, over) && h.spans[p].location == Returned
  }

  /** All best fits are at one location. */
  lemma BestFitsAgree(h: Heap, p: Ptr, x: Ptr, n: int, over: int)
    requires BestFit(h, p, n, over) && BestFit(h, x, n, over)
    ensures h.spans[p].location == h.spans[x].location
  {
    assert Preferred(h.spans[p], h.spans[x]) && Preferred(h.spans[x], h.spans[p]);
  }

  lemma OverLimitIff(h: Heap, p: Ptr, n: int, over: int, limit: int, taken: int)
    requires BestFit(h, p, n, over)
    ensures OverLimit(h, n, over, limit, taken) <==>
      limit != 0 && h.stats.free < taken - h.stats.unmapped + n - limit && h.spans[p].location == Returned
    ensures !NoFit(h, n, over)
  {
    if OverLimit(h, n, over, limit, taken) {
      var x :| BestFit(h, x, n, over) && h.spans[x].location == Returned;
      BestFitsAgree(h, p, x, n, over);
    }
  }

  /** Within the limit, a normal fit is always enough to make room. */
  lemma NormalFitMakesRoom(h: Heap, n: int, limit: int, taken: int)
    requires Sound(h, {}, 0) && NormalFit(h, n) && taken - h.stats.unmapped <= limit
    ensures !OverLimit(h, n, MAX_PAGES, limit, taken)
    ensures !NoFit(h, n, MAX_PAGES)
  {
    hide Sound;
    NormalFitCounts(h, n);
  }

  /** Free spans only grow, so a fit never disappears. */
  lemma FitRemains(h: Heap, h': Heap, p: Ptr, n: int)
    requires Spread(h.spans, h'.spans) && BestFit(h, p, n, MAX_PAGES)
    ensures !NoFit(h', n, MAX_PAGES)
  {
    var y :| y in h'.spans && Covers(h'.spans[y], h.spans[p]);
  }

  /** No free span has a length from `n` up to but not including `s`. */
  ghost predicate Gap(h: Heap, n: int, s: int) {
    forall x | x in h.spans && h.spans[x].Free() :: h.spans[x].length < n || h.spans[x].length >= s
  }

  lemma GapStart(h: Heap, n: int)
    ensures Gap(h, n, n)
  {}

  lemma GapGrows(h: Heap, n: int, s: int)
    requires Sound(h, {}, 0) && Gap(h, n, s) && s <= MAX_PAGES
    requires Slot(h.lists.normal, s) == [] && Slot(h.lists.returned, s) == []
    ensures Gap(h, n, s + 1)
  {
    hide Sound, Slot;
    EmptySlot(h, s);
  }

  /** The first non-empty list above a gap holds a best fit. */
  lemma FirstIsBest(h: Heap, n: int, s: int, p: Ptr)
    requires Sound(h, {}, 0) && Gap(h, n, s) && 0 < n <= s <= MAX_PAGES
    requires p in h.spans && h.spans[p].Free() && h.spans[p].length == s
    requires h.spans[p].location == Normal || Slot(h.lists.normal, s) == []
    ensures BestFit(h, p, n, 0)
  {
    hide Sound, Slot;
    EmptySlot(h, s);
  }

  lemma BestOverGap(h: Heap, n: int, s: int)
    requires Gap(h, n, s) && s > MAX_PAGES && n > 0
    ensures forall p | BestFit(h, p, n, MAX_PAGES) :: BestFit(h, p, n, 0)
    ensures NoFit(h, n, MAX_PAGES) ==> NoFit(h, n, 0)
  {}
}
