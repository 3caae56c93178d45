/** Span descriptors and the page tiling they form (span.h, span.cc, page_heap.cc).

    A span descriptor lives in memory of the span allocator and is named by its
    address.  `spans` maps the address of every live descriptor to its contents,
    so an address can be recycled: a stale page-map entry may name a descriptor
    that is dead, or one that meanwhile describes a different run of pages. */
module Spans {

  type Ptr = int

  datatype Location = InUse | Normal | Returned

  datatype Span = Span(start: int, length: int, location: Location, sizeclass: int) {
    predicate Contains(q: int) {
      start <= q < start + length
    }

    function End(): int {
      start + length
    }

    /** Cutting this span leaves `m`, and `cut` behind it. */
    predicate CutInto(m: Span, cut: Span) {
      m.start == start && 0 < m.length && m.End() == cut.start && 0 < cut.length && cut.End() == End()
    }

    predicate Free() {
      location != InUse
    }
  }

  type SpanMap = map<Ptr, Span>
  type PageMap = map<int, Ptr>

  /** The pages [a, a + n). */
  function Range(a: int, n: nat): (r: set<int>)
    ensures forall q :: q in r <==> a <= q < a + n
    ensures |r| == n
  {
    if n == 0 then {} else Range(a, n - 1) + {a + n - 1}
  }

  lemma RangeConcat(a: int, n: nat, m: nat)
    ensures Range(a, n + m) == Range(a, n) + Range(a + n, m)
    ensures Range(a, n + m) == Range(a + n, m) + Range(a, n)
  {}

  /** The live spans tile the managed pages: `owner` names, for each managed page, the one
      live span that contains it, and no span reaches outside the managed pages. */
  ghost predicate Tiled(spans: SpanMap, owner: PageMap) {
    && (forall p | p in spans :: spans[p].length > 0 && spans[p].start > 0)
    && (forall q | q in owner :: owner[q] in spans && spans[owner[q]].Contains(q))
    && (forall p, q: int {:trigger spans[p].Contains(q)} | p in spans && spans[p].Contains(q) :: q in owner && owner[q] == p)
  }

  /** What may be relied on in the page map: the two boundary pages of every span, every page of
      a span with a size class, and that pages never managed map to nothing.  The
      entries of all other managed pages are unconstrained. */
  ghost predicate Mapped(spans: SpanMap, pagemap: PageMap) {
    forall p {:trigger Recorded(pagemap, spans[p], p)} | p in spans :: Recorded(pagemap, spans[p], p)
  }

  ghost predicate Recorded(pagemap: PageMap, span: Span, p: Ptr) {
    && span.start in pagemap && pagemap[span.start] == p
    && span.start + span.length - 1 in pagemap && pagemap[span.start + span.length - 1] == p
    && (span.sizeclass != 0 ==> span.location == InUse && Everywhere(pagemap, span, p))
  }

  ghost predicate Everywhere(pagemap: PageMap, span: Span, p: Ptr) {
    forall q: int | span.Contains(q) :: q in pagemap && pagemap[q] == p
  }

  ghost predicate NoStrays(pagemap: PageMap, owner: PageMap) {
    forall q | q in pagemap :: q in owner
  }

  ghost predicate Laid(spans: SpanMap, pagemap: PageMap, owner: PageMap) {
    Tiled(spans, owner) && Mapped(spans, pagemap) && NoStrays(pagemap, owner)
  }

  /** Two spans never overlap, and together they cover exactly the managed pages. */
  ghost predicate Partition(spans: SpanMap, managed: set<int>) {
    && (forall p, r | p in spans && r in spans && p != r :: spans[p].End() <= spans[r].start || spans[r].End() <= spans[p].start)
    && (forall p, q: int | p in spans && spans[p].Contains(q) :: q in managed)
    && (forall q | q in managed :: exists p | p in spans :: spans[p].Contains(q))
  }

  lemma TilesPartition(spans: SpanMap, owner: PageMap)
    requires Tiled(spans, owner)
    ensures Partition(spans, owner.Keys)
  {
    forall p, r | p in spans && r in spans && p != r
      ensures spans[p].End() <= spans[r].start || spans[r].End() <= spans[p].start
    {
      assert spans[p].Contains(spans[p].start) && spans[r].Contains(spans[r].start);
      assert !spans[p].Contains(spans[r].start) && !spans[r].Contains(spans[p].start);
    }
    forall q | q in owner
      ensures exists p | p in spans :: spans[p].Contains(q)
    {
      assert spans[owner[q]].Contains(q);
    }
  }

  /** The lookup at the page before a span finds nothing, or the span that truly ends there. */
  lemma LookupBefore(spans: SpanMap, pagemap: PageMap, owner: PageMap, p: Ptr)
    requires Laid(spans, pagemap, owner)
    requires p in spans
    ensures var q := spans[p].start - 1;
      && (q in pagemap <==> q in owner)
      && (q in pagemap ==> pagemap[q] == owner[q] && pagemap[q] in spans && pagemap[q] != p && spans[pagemap[q]].End() == spans[p].start)
  {
    var q := spans[p].start - 1;
    assert spans[p].Contains(q + 1);
    if q in owner {
      var o := owner[q];
      assert spans[o].Contains(q);
      assert !spans[o].Contains(q + 1);
      assert q == spans[o].start + spans[o].length - 1;
      assert Recorded(pagemap, spans[o], o);
    }
  }

  /** The lookup at the page after a span finds nothing, or the span that truly starts there. */
  lemma LookupAfter(spans: SpanMap, pagemap: PageMap, owner: PageMap, p: Ptr)
    requires Laid(spans, pagemap, owner)
    requires p in spans
    ensures var q := spans[p].End();
      && (q in pagemap <==> q in owner)
      && (q in pagemap ==> pagemap[q] == owner[q] && pagemap[q] in spans && pagemap[q] != p && spans[pagemap[q]].start == q)
  {
    var q := spans[p].End();
    assert spans[p].Contains(q - 1);
    if q in owner {
      var o := owner[q];
      assert spans[o].Contains(q);
      assert !spans[o].Contains(q - 1);
      assert q == spans[o].start;
      assert Recorded(pagemap, spans[o], o);
    }
  }

  /** Page ownership after the span `x` has been absorbed by the span `s`. */
  ghost function Reowned(owner: PageMap, x: Ptr, s: Ptr): (r: PageMap)
    ensures r.Keys == owner.Keys
  {
    map q | q in owner :: if owner[q] == x then s else owner[q]
  }

  /** Rewriting page-map entries inside the `changed` spans only leaves all other spans recorded. */
  lemma OthersStayMapped(spans: SpanMap, pagemap: PageMap, owner: PageMap, spans': SpanMap, pagemap': PageMap, changed: set<Ptr>)
    requires Tiled(spans, owner) && Mapped(spans, pagemap)
    requires forall p | p in spans' && p !in changed :: p in spans && spans'[p] == spans[p]
    requires forall q | q in owner && owner[q] !in changed && q in pagemap :: q in pagemap' && pagemap'[q] == pagemap[q]
    requires forall p | p in changed && p in spans' :: Recorded(pagemap', spans'[p], p)
    ensures Mapped(spans', pagemap')
  {
    forall p | p in spans' && p !in changed
      ensures Recorded(pagemap', spans'[p], p)
    {
      assert Recorded(pagemap, spans[p], p);
      assert spans[p].Contains(spans[p].start) && spans[p].Contains(spans[p].start + spans[p].length - 1);
      forall q | spans[p].sizeclass != 0 && spans[p].Contains(q)
        ensures q in pagemap' && pagemap'[q] == p
      {}
    }
  }

  lemma AbsorbKeepsTiles(spans: SpanMap, owner: PageMap, s: Ptr, x: Ptr, m: Span)
    requires Tiled(spans, owner)
    requires s in spans && x in spans && s != x
    requires m.length == spans[s].length + spans[x].length
    requires
      || (spans[x].End() == spans[s].start && m.start == spans[x].start)
      || (spans[s].End() == spans[x].start && m.start == spans[s].start)
    ensures Tiled((spans - {x})[s := m], Reowned(owner, x, s))
  {
    var spans', owner' := (spans - {x})[s := m], Reowned(owner, x, s);
    forall p, q | p in spans' && spans'[p].Contains(q)
      ensures q in owner' && owner'[q] == p
    {
      assert spans[p].Contains(q) || spans[x].Contains(q);
    }
  }

  /** Absorbing an adjacent span keeps the layout, though only one page-map entry is rewritten. */
  lemma AbsorbKeepsLayout(spans: SpanMap, pagemap: PageMap, owner: PageMap, s: Ptr, x: Ptr, m: Span, edge: int)
    requires Laid(spans, pagemap, owner)
    requires s in spans && x in spans && s != x
    requires m.sizeclass == 0
    requires m.length == spans[s].length + spans[x].length
    requires
      || (spans[x].End() == spans[s].start && m.start == spans[x].start && edge == m.start)
      || (spans[s].End() == spans[x].start && m.start == spans[s].start && edge == m.End() - 1)
    ensures Laid((spans - {x})[s := m], pagemap[edge := s], Reowned(owner, x, s))
  {
    AbsorbKeepsTiles(spans, owner, s, x, m);
    assert spans[x].Contains(edge) && Recorded(pagemap, spans[s], s);
    OthersStayMapped(spans, pagemap, owner, (spans - {x})[s := m], pagemap[edge := s], {s, x});
  }

  /** Page ownership after `b` has been cut off a span as a new span of its own. */
  ghost function Cut(owner: PageMap, b: Ptr, cut: Span): (r: PageMap)
    ensures r.Keys == owner.Keys
  {
    map q | q in owner :: if cut.Contains(q) then b else owner[q]
  }

  lemma CutKeepsTiles(spans: SpanMap, owner: PageMap, s: Ptr, b: Ptr, m: Span, cut: Span)
    requires Tiled(spans, owner)
    requires s in spans && b !in spans
    requires spans[s].CutInto(m, cut)
    ensures Tiled(spans[b := cut][s := m], Cut(owner, b, cut))
  {
    var spans', owner' := spans[b := cut][s := m], Cut(owner, b, cut);
    forall q | q in owner'
      ensures owner'[q] in spans' && spans'[owner'[q]].Contains(q)
    {
      assert spans[s].Contains(q) ==> owner[q] == s;
    }
    forall p, q | p in spans' && spans'[p].Contains(q)
      ensures q in owner' && owner'[q] == p
    {
      assert spans[if p == b then s else p].Contains(q);
      assert spans[s].Contains(q) ==> p == s || p == b;
    }
  }

  /** Cutting a span in two keeps the layout, once the new boundary pages are recorded. */
  lemma CutKeepsLayout(spans: SpanMap, pagemap: PageMap, owner: PageMap, s: Ptr, b: Ptr, m: Span, cut: Span)
    requires Laid(spans, pagemap, owner)
    requires s in spans && b !in spans && m.sizeclass == 0 && cut.sizeclass == 0
    requires spans[s].CutInto(m, cut)
    ensures Laid(spans[b := cut][s := m], pagemap[cut.start := b][cut.End() - 1 := b][m.End() - 1 := s], Cut(owner, b, cut))
  {
    hide Recorded, Mapped, Cut;
    var pagemap' := pagemap[cut.start := b][cut.End() - 1 := b][m.End() - 1 := s];
    CutKeepsTiles(spans, owner, s, b, m, cut);
    assert spans[s].Contains(cut.start) && spans[s].Contains(m.End() - 1) && spans[s].Contains(cut.End() - 1);
    CutRecorded(spans, pagemap, s, b, m, cut);
    OthersStayMapped(spans, pagemap, owner, spans[b := cut][s := m], pagemap', {s, b});
  }

  lemma CutRecorded(spans: SpanMap, pagemap: PageMap, s: Ptr, b: Ptr, m: Span, cut: Span)
    requires Mapped(spans, pagemap) && s in spans && m.sizeclass == 0 && cut.sizeclass == 0 && spans[s].CutInto(m, cut)
    ensures var pagemap' := pagemap[cut.start := b][cut.End() - 1 := b][m.End() - 1 := s];
      Recorded(pagemap', m, s) && Recorded(pagemap', cut, b)
  {
    assert Recorded(pagemap, spans[s], s);
  }

  /** Page ownership after a new span has been added over fresh pages. */
  ghost function Grown(owner: PageMap, b: Ptr, g: Span): PageMap
    requires g.length >= 0
  {
    map q | q in owner.Keys + Range(g.start, g.length) :: if g.Contains(q) then b else owner[q]
  }

  lemma GrownKeys(owner: PageMap, b: Ptr, g: Span)
    requires g.length >= 0
    ensures Grown(owner, b, g).Keys == owner.Keys + Range(g.start, g.length)
  {}

  lemma GrownAt(owner: PageMap, b: Ptr, g: Span, q: int)
    requires g.length >= 0
    ensures q in Grown(owner, b, g) <==> q in owner || g.Contains(q)
    ensures q in owner || g.Contains(q) ==> Grown(owner, b, g)[q] == if g.Contains(q) then b else owner[q]
  {}

  lemma GrowKeepsTiles(spans: SpanMap, owner: PageMap, owner': PageMap, b: Ptr, g: Span)
    requires Tiled(spans, owner)
    requires b !in spans && g.start > 0 && g.length > 0
    requires forall q | g.Contains(q) :: q !in owner
    requires forall q :: q in owner' <==> q in owner || g.Contains(q)
    requires forall q | q in owner' :: owner'[q] == if g.Contains(q) then b else owner[q]
    ensures Tiled(spans[b := g], owner')
  {
    var spans' := spans[b := g];
    forall p, q | p in spans' && spans'[p].Contains(q)
      ensures q in owner' && owner'[q] == p
    {
      assert p != b ==> spans[p].Contains(q);
    }
  }

  /** Recording a span over pages not managed before keeps the layout. */
  lemma GrowKeepsLayout(spans: SpanMap, pagemap: PageMap, owner: PageMap, owner': PageMap, b: Ptr, g: Span)
    requires Laid(spans, pagemap, owner)
    requires b !in spans && g.start > 0 && g.length > 0 && g.sizeclass == 0
    requires forall q | g.Contains(q) :: q !in owner
    requires forall q :: q in owner' <==> q in owner || g.Contains(q)
    requires forall q | q in owner' :: owner'[q] == if g.Contains(q) then b else owner[q]
    ensures Laid(spans[b := g], pagemap[g.start := b][g.End() - 1 := b], owner')
  {
    GrowKeepsTiles(spans, owner, owner', b, g);
    assert g.Contains(g.start) && g.Contains(g.End() - 1);
    var pagemap' := pagemap[g.start := b][g.End() - 1 := b];
    assert Recorded(pagemap', g, b);
    OthersStayMapped(spans, pagemap, owner, spans[b := g], pagemap', {b});
  }

  /** Changing location and size class keeps the layout, provided a size class is given only to a
      span in use all of whose pages are recorded. */
  lemma UpdateKeepsLayout(spans: SpanMap, pagemap: PageMap, owner: PageMap, s: Ptr, location: Location, sizeclass: int)
    requires Laid(spans, pagemap, owner)
    requires s in spans
    requires sizeclass != 0 ==> location == InUse && Everywhere(pagemap, spans[s], s)
    ensures Laid(spans[s := spans[s].(location := location, sizeclass := sizeclass)], pagemap, owner)
  {
    var m := spans[s].(location := location, sizeclass := sizeclass);
    var spans' := spans[s := m];
    forall p, q | p in spans' && spans'[p].Contains(q)
      ensures q in owner && owner[q] == p
    {
      assert spans[p].Contains(q);
    }
    assert Recorded(pagemap, spans[s], s);
    forall q | sizeclass != 0 && m.Contains(q)
      ensures q in pagemap && pagemap[q] == s
    {
      assert spans[s].Contains(q);
    }
    OthersStayMapped(spans, pagemap, owner, spans', pagemap, {s});
  }
}
