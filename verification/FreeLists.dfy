/** The free lists of the page heap: one exact-length list per short length and two ordered
    sets for long spans, each kept once for committed ("normal") and once for decommitted
    ("returned") spans (page_heap.h, page_heap.cc, span.h). */
module FreeLists {
  import opened Sequences
  import opened Spans

  /** Spans of at most this many pages have an exact-length list. */
  const MAX_PAGES: int := 128

  /** An element of a set of long spans: a descriptor with a cached copy of its length. */
  datatype Entry = Entry(span: Ptr, length: int)

  /** Index `i` of the short lists holds spans of length `i + 1`; the first element is the head. */
  datatype Lists = Lists(normal: seq<seq<Ptr>>, returned: seq<seq<Ptr>>,
                         largeNormal: set<Entry>, largeReturned: set<Entry>)

  lemma DistinctCons(p: Ptr, list: seq<Ptr>)
    requires Distinct(list) && p !in list
    ensures Distinct([p] + list)
  {}

  /** The list without `p`, in the same order (the effect of unlinking `p`). */
  function Without(list: seq<Ptr>, p: Ptr): (r: seq<Ptr>)
    ensures forall x :: x in r <==> x in list && x != p
    ensures Distinct(list) ==> Distinct(r)
  {
    if list == [] then []
    else if list[0] == p then Without(list[1..], p)
    else
      var rest := Without(list[1..], p);
      assert Distinct(list) ==> Distinct([list[0]] + rest) by {
        if Distinct(list) { DistinctCons(list[0], rest); }
      }
      [list[0]] + rest
  }

  lemma {:induction false} WithoutAbsent(list: seq<Ptr>, p: Ptr)
    requires p !in list
    ensures Without(list, p) == list
  {
    if list != [] {
      WithoutAbsent(list[1..], p);
    }
  }

  /** Unlinking a descriptor leaves what was before it and what was behind it, in their order. */
  lemma {:induction false} UnlinkKeepsOrder(before: seq<Ptr>, p: Ptr, behind: seq<Ptr>)
    requires p !in before && p !in behind
    ensures Without(before + [p] + behind, p) == before + behind
  {
    if before == [] {
      assert ([p] + behind)[1..] == behind;
      WithoutAbsent(behind, p);
      assert before + [p] + behind == [p] + behind;
    } else {
      UnlinkKeepsOrder(before[1..], p, behind);
      assert (before + [p] + behind)[1..] == before[1..] + [p] + behind;
    }
  }

  /** The list of spans of the given length. */
  function Slot(table: seq<seq<Ptr>>, length: int): seq<Ptr> {
    if 0 < length <= |table| then table[length - 1] else []
  }

  function SetSlot(table: seq<seq<Ptr>>, length: int, list: seq<Ptr>): (r: seq<seq<Ptr>>)
    ensures |r| == |table|
    ensures forall n :: Slot(r, n) == if n == length && 0 < length <= |table| then list else Slot(table, n)
  {
    if 0 < length <= |table| then table[length - 1 := list] else table
  }

  function Enlist(lists: Lists, p: Ptr, s: Span): Lists {
    if s.length > MAX_PAGES then
      if s.location == Returned
      then lists.(largeReturned := lists.largeReturned + {Entry(p, s.length)})
      else lists.(largeNormal := lists.largeNormal + {Entry(p, s.length)})
    else if s.location == Normal
    then lists.(normal := SetSlot(lists.normal, s.length, [p] + Slot(lists.normal, s.length)))
    else lists.(returned := SetSlot(lists.returned, s.length, [p] + Slot(lists.returned, s.length)))
  }

  function Delist(lists: Lists, p: Ptr, s: Span): Lists {
    if s.length > MAX_PAGES then
      if s.location == Returned
      then lists.(largeReturned := lists.largeReturned - {Entry(p, s.length)})
      else lists.(largeNormal := lists.largeNormal - {Entry(p, s.length)})
    else if s.location == Normal
    then lists.(normal := SetSlot(lists.normal, s.length, Without(Slot(lists.normal, s.length), p)))
    else lists.(returned := SetSlot(lists.returned, s.length, Without(Slot(lists.returned, s.length), p)))
  }

  ghost predicate Belongs(spans: SpanMap, skip: set<Ptr>, p: Ptr, location: Location, length: int) {
    p in spans && p !in skip && spans[p].location == location && spans[p].length == length
  }

  ghost predicate Listed(lists: Lists, p: Ptr, s: Span) {
    s.length > 0 && match s.location
    case InUse => true
    case Normal => if s.length > MAX_PAGES then Entry(p, s.length) in lists.largeNormal else p in Slot(lists.normal, s.length)
    case Returned => if s.length > MAX_PAGES then Entry(p, s.length) in lists.largeReturned else p in Slot(lists.returned, s.length)
  }

  /** Each free span outside `skip` is in exactly the one list given by its length and location,
      once, and the lists hold nothing else. */
  ghost predicate Exact(spans: SpanMap, lists: Lists, skip: set<Ptr>) {
    && |lists.normal| == |lists.returned| == MAX_PAGES
    && (forall n :: Distinct(Slot(lists.normal, n)))
    && (forall n :: Distinct(Slot(lists.returned, n)))
    && (forall n, p | p in Slot(lists.normal, n) :: n <= MAX_PAGES && Belongs(spans, skip, p, Normal, n))
    && (forall n, p | p in Slot(lists.returned, n) :: n <= MAX_PAGES && Belongs(spans, skip, p, Returned, n))
    && (forall e | e in lists.largeNormal :: e.length > MAX_PAGES && Belongs(spans, skip, e.span, Normal, e.length))
    && (forall e | e in lists.largeReturned :: e.length > MAX_PAGES && Belongs(spans, skip, e.span, Returned, e.length))
    && (forall p {:trigger Listed(lists, p, spans[p])} | p in spans && p !in skip :: Listed(lists, p, spans[p]))
  }

  /** Putting a skipped free span on its list leaves the lists exact without skipping it. */
  lemma EnlistKeepsExact(spans: SpanMap, lists: Lists, skip: set<Ptr>, skip': set<Ptr>, p: Ptr)
    requires Exact(spans, lists, skip)
    requires p in spans && p in skip && skip' == skip - {p} && spans[p].Free() && spans[p].length > 0
    ensures Exact(spans, Enlist(lists, p, spans[p]), skip')
  {
    hide Slot, SetSlot, Distinct;
    var lists' := Enlist(lists, p, spans[p]);
    if spans[p].length <= MAX_PAGES {
      DistinctCons(p, Slot(if spans[p].location == Normal then lists.normal else lists.returned, spans[p].length));
    }
    forall x | x in spans && x !in skip'
      ensures Listed(lists', x, spans[x])
    {
      assert x != p ==> Listed(lists, x, spans[x]);
    }
  }

  /** Taking a free span off its list leaves the lists exact except for it. */
  lemma DelistKeepsExact(spans: SpanMap, lists: Lists, skip: set<Ptr>, skip': set<Ptr>, p: Ptr)
    requires Exact(spans, lists, skip)
    requires p in spans && p !in skip && skip' == skip + {p} && spans[p].Free() && spans[p].length > 0
    ensures Exact(spans, Delist(lists, p, spans[p]), skip')
  {
    hide Slot, SetSlot, Distinct;
    var lists' := Delist(lists, p, spans[p]);
    forall x | x in spans && x !in skip'
      ensures Listed(lists', x, spans[x])
    {
      assert Listed(lists, x, spans[x]);
    }
  }

  /** The lists depend only on the free spans outside `skip`. */
  lemma OthersStayExact(spans: SpanMap, skip: set<Ptr>, spans': SpanMap, skip': set<Ptr>, lists: Lists)
    requires Exact(spans, lists, skip)
    requires forall p | p in spans' :: spans'[p].length > 0
    requires forall p | p in spans && p !in skip && spans[p].Free() ::
      p in spans' && p !in skip' && spans'[p].(sizeclass := 0) == spans[p].(sizeclass := 0)
    requires forall p | p in spans' && p !in skip' && spans'[p].Free() ::
      p in spans && p !in skip && spans'[p].(sizeclass := 0) == spans[p].(sizeclass := 0)
    ensures Exact(spans', lists, skip')
  {
    forall p | p in spans' && p !in skip'
      ensures Listed(lists, p, spans'[p])
    {
      if spans'[p].Free() {
        assert Listed(lists, p, spans[p]);
      }
    }
  }
}
