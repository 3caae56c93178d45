/** Page counting and coalescing over a tiling. */
module Accounting {
  import opened Spans

  /** The managed pages whose span is at `location`, not counting spans in `skip`. */
  ghost function At(spans: SpanMap, owner: PageMap, location: Location, skip: set<Ptr>): set<int> {
    set q | q in owner && owner[q] in spans && owner[q] !in skip && spans[owner[q]].location == location
  }

  /** The spans in use. */
  ghost function Used(spans: SpanMap): SpanMap {
    map p | p in spans && spans[p].location == InUse :: spans[p]
  }

  /** Leaving out one more span lowers the count at its location by its length and no other count. */
  lemma SkipOne(spans: SpanMap, owner: PageMap, location: Location, skip: set<Ptr>, skip': set<Ptr>, p: Ptr)
    requires Tiled(spans, owner) && p in spans && p !in skip && skip' == skip + {p}
    ensures
      if spans[p].location == location
      then
        && At(spans, owner, location, skip') == At(spans, owner, location, skip) - Range(spans[p].start, spans[p].length)
        && At(spans, owner, location, skip) == At(spans, owner, location, skip') + Range(spans[p].start, spans[p].length)
        && |At(spans, owner, location, skip')| == |At(spans, owner, location, skip)| - spans[p].length
      else
        At(spans, owner, location, skip') == At(spans, owner, location, skip)
  {
    var all, rest := At(spans, owner, location, skip), At(spans, owner, location, skip');
    if spans[p].location == location {
      var mine := Range(spans[p].start, spans[p].length);
      forall q | q in mine
        ensures q in all && q !in rest
      {
        assert spans[p].Contains(q);
      }
      forall q | q in all && q !in rest
        ensures q in mine
      {
        assert spans[p].Contains(q);
      }
      assert all == rest + mine && rest !! mine;
      assert rest == all - mine;
    } else {
      assert all == rest;
    }
  }

  /** The three locations split the managed pages. */
  lemma LocationsSplit(spans: SpanMap, owner: PageMap)
    requires Tiled(spans, owner)
    ensures owner.Keys == At(spans, owner, InUse, {}) + At(spans, owner, Normal, {}) + At(spans, owner, Returned, {})
    ensures |owner| == |At(spans, owner, InUse, {})| + |At(spans, owner, Normal, {})| + |At(spans, owner, Returned, {})|
  {
    var u, n, r := At(spans, owner, InUse, {}), At(spans, owner, Normal, {}), At(spans, owner, Returned, {});
    forall q | q in owner
      ensures q in u + n + r
    {
      var location := spans[owner[q]].location;
    }
    assert owner.Keys == u + n + r;
    assert u !! n && (u + n) !! r;
  }

  lemma AbsorbKeepsOthers(spans: SpanMap, owner: PageMap, s: Ptr, x: Ptr, m: Span, location: Location)
    requires Tiled(spans, owner)
    requires s in spans && x in spans && s != x
    ensures At((spans - {x})[s := m], Reowned(owner, x, s), location, {s}) == At(spans, owner, location, {s, x})
  {}

  lemma PagesOf(spans: SpanMap, owner: PageMap, p: Ptr)
    requires Tiled(spans, owner) && p in spans
    ensures forall q :: q in Range(spans[p].start, spans[p].length) <==> q in owner && owner[q] == p
  {
    forall q | q in Range(spans[p].start, spans[p].length)
      ensures q in owner && owner[q] == p
    {
      assert spans[p].Contains(q);
    }
  }

  /** Absorbing a span leaves the pages at any location other than that of the absorbing span. */
  lemma AbsorbKeepsPages(spans: SpanMap, owner: PageMap, s: Ptr, x: Ptr, m: Span, location: Location)
    requires Tiled(spans, owner)
    requires s in spans && x in spans && s != x && m.location == spans[s].location != location
    ensures At((spans - {x})[s := m], Reowned(owner, x, s), location, {}) == At(spans, owner, location, {x})
  {}

  /** The pages of the absorbed span arrive at the location of the absorbing one. */
  lemma AbsorbMovesPages(spans: SpanMap, owner: PageMap, s: Ptr, x: Ptr, m: Span, location: Location)
    requires Tiled(spans, owner)
    requires s in spans && x in spans && s != x && m.location == spans[s].location == location
    ensures
      At((spans - {x})[s := m], Reowned(owner, x, s), location, {}) ==
      At(spans, owner, location, {x}) + Range(spans[x].start, spans[x].length)
    ensures At(spans, owner, location, {x}) !! Range(spans[x].start, spans[x].length)
  {
    PagesOf(spans, owner, x);
  }

  lemma AbsorbCount(spans: SpanMap, owner: PageMap, s: Ptr, x: Ptr, m: Span, location: Location)
    requires Tiled(spans, owner)
    requires s in spans && x in spans && s != x && m.location == spans[s].location
    ensures |At((spans - {x})[s := m], Reowned(owner, x, s), location, {})| ==
            |At(spans, owner, location, {})| + (if m.location == location then spans[x].length else 0)
                                             - (if spans[x].location == location then spans[x].length else 0)
  {
    hide At, Tiled, Reowned, Range;
    PositiveLength(spans, owner, x);
    SkipOne(spans, owner, location, {}, {x}, x);
    if m.location == location {
      AbsorbMovesPages(spans, owner, s, x, m, location);
    } else {
      AbsorbKeepsPages(spans, owner, s, x, m, location);
    }
  }

  lemma PositiveLength(spans: SpanMap, owner: PageMap, p: Ptr)
    requires Tiled(spans, owner) && p in spans
    ensures spans[p].length > 0
  {}

  /** Changing a skipped span changes no count. */
  lemma ChangeKeepsPages(spans: SpanMap, owner: PageMap, p: Ptr, s: Span, location: Location, skip: set<Ptr>)
    requires p in spans && p in skip
    ensures At(spans[p := s], owner, location, skip) == At(spans, owner, location, skip)
  {}

  lemma AbsorbKeepsUsed(spans: SpanMap, s: Ptr, x: Ptr, m: Span)
    requires s in spans && x in spans && s != x && spans[s].Free() && spans[x].Free() && m.Free()
    ensures Used((spans - {x})[s := m]) == Used(spans)
  {}

  lemma ChangeKeepsUsed(spans: SpanMap, p: Ptr, s: Span)
    requires p in spans && spans[p].Free() && s.Free()
    ensures Used(spans[p := s]) == Used(spans)
  {}

  /** Cutting a span in use changes the pages of no other span. */
  lemma CutKeepsPages(spans: SpanMap, owner: PageMap, s: Ptr, b: Ptr, m: Span, cut: Span, location: Location)
    requires Tiled(spans, owner)
    requires s in spans && b !in spans && spans[s].location == InUse && m.location == InUse
    requires spans[s].CutInto(m, cut)
    requires location != InUse
    ensures At(spans[b := cut][s := m], Cut(owner, b, cut), location, {b}) == At(spans, owner, location, {})
  {
    forall q | cut.Contains(q)
      ensures q in owner && owner[q] == s
    {
      assert spans[s].Contains(q);
    }
  }

  /** No two free spans outside `skip` that touch are at the same location. */
  ghost predicate Coalesced(spans: SpanMap, skip: set<Ptr>) {
    forall a, b | a in spans && b in spans && a !in skip && b !in skip && spans[a].End() == spans[b].start && spans[a].Free() ::
      spans[a].location != spans[b].location
  }

  /** No two normal spans outside `skip` touch. */
  ghost predicate Apart(spans: SpanMap, skip: set<Ptr>) {
    forall a, b | a in spans && b in spans && a !in skip && b !in skip && spans[a].End() == spans[b].start ::
      spans[a].location != Normal || spans[b].location != Normal
  }

  ghost predicate Covers(y: Span, s: Span) {
    y.Free() && y.start <= s.start && s.End() <= y.End()
  }

  /** Every free span is still free as part of a span that is at least as long. */
  ghost predicate Spread(spans: SpanMap, spans': SpanMap) {
    forall x | x in spans && spans[x].Free() :: exists y :: y in spans' && Covers(spans'[y], spans[x])
  }

  lemma SpreadOn(a: SpanMap, b: SpanMap, c: SpanMap)
    requires Spread(a, b) && Spread(b, c)
    ensures Spread(a, c)
  {
    forall x | x in a && a[x].Free()
      ensures exists y :: y in c && Covers(c[y], a[x])
    {
      var y :| y in b && Covers(b[y], a[x]);
      var z :| z in c && Covers(c[z], b[y]);
    }
  }

  lemma SpreadSame(a: SpanMap)
    ensures Spread(a, a)
  {
    forall x | x in a && a[x].Free()
      ensures exists y :: y in a && Covers(a[y], a[x])
    {
      assert Covers(a[x], a[x]);
    }
  }

  lemma AbsorbSpreads(spans: SpanMap, s: Ptr, x: Ptr, m: Span)
    requires s in spans && x in spans && s != x
    requires Covers(m, spans[s]) && Covers(m, spans[x])
    ensures Spread(spans, (spans - {x})[s := m])
  {
    var spans' := (spans - {x})[s := m];
    forall a | a in spans && spans[a].Free()
      ensures exists y :: y in spans' && Covers(spans'[y], spans[a])
    {
      assert Covers(spans'[if a == x then s else a], spans[a]);
    }
  }

  lemma ChangeSpreads(spans: SpanMap, p: Ptr, s: Span)
    requires p in spans && Covers(s, spans[p])
    ensures Spread(spans, spans[p := s])
  {
    var spans' := spans[p := s];
    forall a | a in spans && spans[a].Free()
      ensures exists y :: y in spans' && Covers(spans'[y], spans[a])
    {
      assert Covers(spans'[a], spans[a]);
    }
  }
}
