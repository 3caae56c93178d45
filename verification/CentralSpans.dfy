/** The steps by which spans come and go: an object put back, a span retired, a span carved and joined. */
module CentralSpans {
  import opened Sequences
  import opened CentralState
  import opened CentralLocks
  import opened CentralPlaces
  import opened CentralMoves

  ghost predicate Releasing(s: State, t: int, o: Obj, x: int) {
    && Ready(s, t) && s.threads[t].pc.Release? && 0 <= s.threads[t].pc.held < |s.central|
    && s.threads[t].pc.todo != [] && s.threads[t].pc.todo[0] == o
    && o in s.home && s.home[o].span == x && x in s.spans
  }

  /** An object about to be released belongs to a listed span of the class whose lock is held. */
  lemma TodoIsTagged(s: State, t: int)
    requires Placed(s) && 0 <= t < |s.threads| && s.threads[t].pc.Release? && s.threads[t].pc.todo != []
    ensures var o := s.threads[t].pc.todo[0];
      o in s.home && Rooted(s, o) && s.home[o].cl == s.threads[t].pc.held && o !in s.spans[s.home[o].span].objects
  {
    var o := s.threads[t].pc.todo[0];
    assert In(s, Load(t), o);
    assert Tagged(s, Load(t), o);
    assert o in s.spans[s.home[o].span].objects ==> In(s, OnSpan(s.home[o].span), o);
  }

  lemma PutBackItems(s: State, t: int, o: Obj, x: int, p: Place)
    requires Releasing(s, t, o, x) && s.spans[x].refcount != 1
    ensures p != Load(t) && p != OnSpan(x) ==> Items(Released(s, t), p) == Items(s, p)
    ensures PlaceClass(Released(s, t), p) == PlaceClass(s, p)
  {
  }

  lemma PutBackPlaces(s: State, t: int, o: Obj, x: int)
    requires Releasing(s, t, o, x) && s.spans[x].refcount != 1 && s.spans[x].cl == s.threads[t].pc.held
    ensures OthersSame(s, Released(s, t), Load(t), OnSpan(x)) && ClassesSame(s, Released(s, t), OnSpan(x))
    ensures PlaceClass(Released(s, t), OnSpan(x)) == PlaceClass(s, Load(t))
  {
    assert PlaceClass(s, OnSpan(x)) == PlaceClass(s, Load(t));
    hide Items, PlaceClass, Releasing;
    forall p
      ensures p != Load(t) && p != OnSpan(x) ==> Items(Released(s, t), p) == Items(s, p)
      ensures PlaceClass(Released(s, t), p) == PlaceClass(s, p)
    {
      PutBackItems(s, t, o, x, p);
    }
  }

  lemma PutBackMoves(s: State, t: int, o: Obj, x: int)
    requires Placed(s) && Releasing(s, t, o, x) && s.spans[x].refcount != 1
    ensures Placed(Released(s, t)) && Shifted(s, Released(s, t), Load(t), OnSpan(x), 1)
  {
    hide Placed, OthersSame, ClassesSame, PlaceClass;
    TodoIsTagged(s, t);
    PutBackPlaces(s, t, o, x);
    var todo := s.threads[t].pc.todo;
    assert todo[..1] == [o];
    TransferFront(s, Released(s, t), t, Load(t), OnSpan(x), 1);
  }

  // ----- A span leaves -----

  /** All objects of span `x` but `o` are on its list. */
  ghost predicate LastOut(s: State, o: Obj, x: int) {
    x in s.spans && forall q :: q in s.home && s.home[q].span == x && q != o ==> q in s.spans[x].objects
  }

  /** Only the hands of the thread and the span itself lose anything. */
  lemma RetireItems(s: State, t: int, o: Obj, x: int, p: Place)
    requires Releasing(s, t, o, x) && s.spans[x].refcount == 1
    ensures p != Load(t) && p != OnSpan(x) ==> Items(Released(s, t), p) == Items(s, p)
    ensures Items(Released(s, t), Load(t)) == Items(s, Load(t))[1..] && Items(s, Load(t))[0] == o
    ensures Items(Released(s, t), OnSpan(x)) == []
  {
  }

  lemma StaysAfterRetiring(s: State, t: int, o: Obj, x: int, p: Place, q: Obj)
    requires Placed(s) && Releasing(s, t, o, x) && s.spans[x].refcount == 1
    requires q in s.home && s.home[q].span != x && In(s, p, q)
    ensures In(Released(s, t), p, q)
  {
    assert Tagged(s, p, q);
    assert o in s.home && s.home[o].span == x;
    hide Items, Placed, Releasing;
    RetireItems(s, t, o, x, p);
    if p == Load(t) {
      var load := Items(s, Load(t));
      assert load == [o] + load[1..];
    }
  }

  lemma WasBeforeRetiring(s: State, t: int, o: Obj, x: int, p: Place, q: Obj)
    requires Releasing(s, t, o, x) && s.spans[x].refcount == 1 && In(Released(s, t), p, q)
    ensures In(s, p, q) && p != OnSpan(x) && (p == Load(t) ==> q in s.threads[t].pc.todo[1..])
  {
    assert Items(s, Load(t)) == s.threads[t].pc.todo;
    hide Items;
    RetireItems(s, t, o, x, p);
  }

  lemma NotOfRetired(s: State, t: int, o: Obj, x: int, p: Place, q: Obj)
    requires Placed(s) && Releasing(s, t, o, x) && LastOut(s, o, x)
    requires In(s, p, q) && p != OnSpan(x) && (p == Load(t) ==> q in s.threads[t].pc.todo[1..])
    ensures q in s.home && s.home[q].span != x
  {
    var todo := s.threads[t].pc.todo;
    assert Tagged(s, p, q);
    assert In(s, Load(t), o) && Distinct(Items(s, Load(t)));
    assert s.home[q].span == x && q != o ==> In(s, OnSpan(x), q);
  }

  /** What remains anywhere is what was there and is not the span's. */
  lemma RetiredItems(s: State, t: int, o: Obj, x: int, p: Place, q: Obj)
    requires Placed(s) && Releasing(s, t, o, x) && s.spans[x].refcount == 1 && LastOut(s, o, x)
    ensures In(Released(s, t), p, q) <==> q in s.home && s.home[q].span != x && In(s, p, q)
  {
    hide In, LastOut, Placed, Items;
    if In(Released(s, t), p, q) {
      WasBeforeRetiring(s, t, o, x, p, q);
      NotOfRetired(s, t, o, x, p, q);
    } else if q in s.home && s.home[q].span != x && In(s, p, q) {
      StaysAfterRetiring(s, t, o, x, p, q);
    }
  }

  lemma RetiredTag(s: State, t: int, o: Obj, x: int, p: Place, q: Obj)
    requires Placed(s) && Releasing(s, t, o, x) && s.spans[x].refcount == 1 && LastOut(s, o, x)
    requires In(Released(s, t), p, q)
    ensures Tagged(Released(s, t), p, q)
  {
    RetiredItems(s, t, o, x, p, q);
    assert Tagged(s, p, q);
  }

  lemma RetiredDistinct(s: State, t: int, o: Obj, x: int, p: Place)
    requires Placed(s) && Releasing(s, t, o, x) && s.spans[x].refcount == 1
    ensures Distinct(Items(Released(s, t), p))
  {
    assert Distinct(Items(s, p));
  }

  lemma RetiredFresh(s: State, t: int, o: Obj, x: int)
    requires Placed(s) && Releasing(s, t, o, x) && s.spans[x].refcount == 1
    ensures FreshOk(Released(s, t))
  {
    var s' := Released(s, t);
    forall u | 0 <= u < |s'.threads| && s'.threads[u].pc.Carved? ensures CarvedOk(s', s'.threads[u].pc) {
      assert u != t;
      assert CarvedOk(s, s.threads[u].pc);
    }
  }

  /** The objects of the span are nowhere any more; all others are where they were. */
  lemma RetireMoves(s: State, t: int, o: Obj, x: int)
    requires Placed(s) && Releasing(s, t, o, x) && s.spans[x].refcount == 1 && LastOut(s, o, x)
    ensures Placed(Released(s, t))
    ensures forall p, q :: In(Released(s, t), p, q) <==> q in s.home && s.home[q].span != x && In(s, p, q)
  {
    hide In, Tagged, Distinct, FreshOk, Items, LastOut;
    var s' := Released(s, t);
    forall p, q ensures In(s', p, q) <==> q in s.home && s.home[q].span != x && In(s, p, q) {
      RetiredItems(s, t, o, x, p, q);
    }
    forall p, q | In(s', p, q) ensures Tagged(s', p, q) {
      RetiredTag(s, t, o, x, p, q);
    }
    forall p, q, r | In(s', p, r) && In(s', q, r) ensures p == q {
      RetiredItems(s, t, o, x, p, r);
      RetiredItems(s, t, o, x, q, r);
    }
    forall q | q in s'.home ensures exists p :: In(s', p, q) {
      var p :| In(s, p, q);
      RetiredItems(s, t, o, x, p, q);
    }
    forall p ensures Distinct(Items(s', p)) {
      RetiredDistinct(s, t, o, x, p);
    }
    RetiredFresh(s, t, o, x);
  }

  // ----- A span is carved -----

  lemma PopulateItems(c: Config, s: State, t: int, x: int, objects: seq<Obj>, p: Place)
    requires Enabled(c, s, t, StepPopulate(x, objects))
    ensures Items(Populated(s, t, x, objects), p) == if p == Fresh(t) then objects else Items(s, p)
  {
  }

  lemma PopulateTag(c: Config, s: State, t: int, x: int, objects: seq<Obj>, p: Place, o: Obj)
    requires Placed(s) && Enabled(c, s, t, StepPopulate(x, objects)) && In(Populated(s, t, x, objects), p, o)
    ensures Tagged(Populated(s, t, x, objects), p, o)
  {
    PopulateItems(c, s, t, x, objects, p);
    if p != Fresh(t) {
      assert In(s, p, o);
      assert Tagged(s, p, o);
    }
  }

  lemma PopulateFresh(c: Config, s: State, t: int, x: int, objects: seq<Obj>)
    requires Placed(s) && Shaped(c, s) && Enabled(c, s, t, StepPopulate(x, objects))
    ensures FreshOk(Populated(s, t, x, objects))
  {
    var s' := Populated(s, t, x, objects);
    forall u | 0 <= u < |s'.threads| && s'.threads[u].pc.Carved? ensures CarvedOk(s', s'.threads[u].pc) {
      if u != t {
        var pc := s.threads[u].pc;
        assert CarvedOk(s, pc) && PcOk(c, pc);
        var o := pc.objects[0];
        assert o in pc.objects && o in s.home;
      }
    }
  }

  lemma PopulateMoves(c: Config, s: State, t: int, x: int, objects: seq<Obj>)
    requires Placed(s) && Shaped(c, s) && Enabled(c, s, t, StepPopulate(x, objects))
    ensures Placed(Populated(s, t, x, objects))
    ensures forall p :: Items(Populated(s, t, x, objects), p) == if p == Fresh(t) then objects else Items(s, p)
  {
    hide Tagged, Distinct, FreshOk, Items, Shaped;
    var s' := Populated(s, t, x, objects);
    forall p, o | In(s', p, o) ensures Tagged(s', p, o) {
      PopulateTag(c, s, t, x, objects, p, o);
    }
    forall p, q, o | In(s', p, o) && In(s', q, o) ensures p == q {
      PopulateItems(c, s, t, x, objects, p);
      PopulateItems(c, s, t, x, objects, q);
      HomeOfItem(s, p, o);
      HomeOfItem(s, q, o);
      assert o in objects || (In(s, p, o) && In(s, q, o));
    }
    forall o | o in s'.home ensures exists p :: In(s', p, o) {
      if o in objects {
        PopulateItems(c, s, t, x, objects, Fresh(t));
        assert In(s', Fresh(t), o);
      } else {
        var p :| In(s, p, o);
        PopulateItems(c, s, t, x, objects, p);
        NoFresh(s, t);
        assert In(s', p, o);
      }
    }
    forall p ensures Distinct(Items(s', p)) && Items(s', p) == if p == Fresh(t) then objects else Items(s, p) {
      PopulateItems(c, s, t, x, objects, p);
    }
    PopulateFresh(c, s, t, x, objects);
  }

  lemma HomeOfItem(s: State, p: Place, o: Obj)
    requires Placed(s)
    ensures o in Items(s, p) ==> o in s.home
  {
    assert In(s, p, o) ==> Tagged(s, p, o);
  }

  lemma NoFresh(s: State, t: int)
    requires 0 <= t < |s.threads| && !s.threads[t].pc.Carved?
    ensures Items(s, Fresh(t)) == []
  {
  }

  // ----- The carved span joins -----

  ghost predicate Joining(c: Config, s: State, t: int) {
    && Shaped(c, s) && Ready(s, t) && s.threads[t].pc.Carved? && 0 <= s.threads[t].pc.cl < |s.central|
  }

  lemma JoinItems(c: Config, s: State, t: int, p: Place)
    requires Placed(s) && Joining(c, s, t)
    ensures Items(Joins(s, t), p) ==
            if p == Fresh(t) then [] else if p == OnSpan(s.threads[t].pc.span) then s.threads[t].pc.objects
            else Items(s, p)
  {
  }

  lemma JoinTag(c: Config, s: State, t: int, p: Place, o: Obj)
    requires Placed(s) && Joining(c, s, t) && In(Joins(s, t), p, o)
    ensures Tagged(Joins(s, t), p, o)
  {
    JoinItems(c, s, t, p);
    var pc := s.threads[t].pc;
    assert CarvedOk(s, pc);
    if p == OnSpan(pc.span) {
      assert In(s, Fresh(t), o);
      assert Tagged(s, Fresh(t), o);
    } else {
      assert In(s, p, o);
      assert Tagged(s, p, o);
    }
  }

  lemma JoinFresh(c: Config, s: State, t: int)
    requires Placed(s) && Joining(c, s, t)
    ensures FreshOk(Joins(s, t))
  {
    var s', mine := Joins(s, t), s.threads[t].pc;
    assert CarvedOk(s, mine);
    forall u | 0 <= u < |s'.threads| && s'.threads[u].pc.Carved? ensures CarvedOk(s', s'.threads[u].pc) {
      var pc := s.threads[u].pc;
      assert CarvedOk(s, pc) && PcOk(c, pc);
      var o := pc.objects[0];
      assert In(s, Fresh(u), o);
      assert pc.span == mine.span ==> In(s, Fresh(t), o);
    }
  }

  lemma JoinMoves(c: Config, s: State, t: int)
    requires Placed(s) && Joining(c, s, t)
    ensures Placed(Joins(s, t))
    ensures Shifted(s, Joins(s, t), Fresh(t), OnSpan(s.threads[t].pc.span), |s.threads[t].pc.objects|)
  {
    hide Tagged, Distinct, FreshOk, Items, Shaped;
    var s', x := Joins(s, t), s.threads[t].pc.span;
    NoSpan(s, t);
    forall p, o | In(s', p, o) ensures Tagged(s', p, o) {
      JoinTag(c, s, t, p, o);
    }
    forall p, q, o | In(s', p, o) && In(s', q, o) ensures p == q {
      JoinItems(c, s, t, p);
      JoinItems(c, s, t, q);
      var p0, q0 := if p == OnSpan(x) then Fresh(t) else p, if q == OnSpan(x) then Fresh(t) else q;
      assert In(s, p0, o) && In(s, q0, o);
    }
    forall o | o in s'.home ensures exists p :: In(s', p, o) {
      var p :| In(s, p, o);
      var p' := if p == Fresh(t) then OnSpan(x) else p;
      JoinItems(c, s, t, p');
      assert In(s', p', o);
    }
    forall p ensures Distinct(Items(s', p)) {
      JoinItems(c, s, t, p);
      assert Distinct(Items(s, p)) && Distinct(Items(s, Fresh(t)));
      NoneIsDistinct();
    }
    JoinFresh(c, s, t);
    JoinShifts(c, s, t);
  }

  lemma JoinShifts(c: Config, s: State, t: int)
    requires Placed(s) && Joining(c, s, t)
    ensures Shifted(s, Joins(s, t), Fresh(t), OnSpan(s.threads[t].pc.span), |s.threads[t].pc.objects|)
  {
    hide Items, Placed, Shaped;
    var objects := s.threads[t].pc.objects;
    NoSpan(s, t);
    assert objects[..|objects|] == objects && objects[|objects|..] == [];
    forall p
      ensures Items(Joins(s, t), p) ==
        if p == Fresh(t) then [] else if p == OnSpan(s.threads[t].pc.span) then objects else Items(s, p)
    {
      JoinItems(c, s, t, p);
    }
  }

  lemma NoneIsDistinct()
    ensures Distinct([])
  {
  }

  lemma NoSpan(s: State, t: int)
    requires Placed(s) && 0 <= t < |s.threads| && s.threads[t].pc.Carved?
    ensures Items(s, OnSpan(s.threads[t].pc.span)) == [] && Items(s, Fresh(t)) == s.threads[t].pc.objects
  {
    assert CarvedOk(s, s.threads[t].pc);
  }

  lemma CarvedMoves(c: Config, s: State, t: int)
    requires Placed(s) && Shaped(c, s) && Enabled(c, s, t, StepCarved)
    ensures Placed(CarvedJoins(s, t))
    ensures var pc := s.threads[t].pc;
      && Shifted(s, Joins(s, t), Fresh(t), OnSpan(pc.span), |pc.objects|)
      && var n := Yield(Joins(s, t).spans[pc.span], if pc.n <= 0 then 0 else pc.n);
      Shifted(Joins(s, t), CarvedJoins(s, t), OnSpan(pc.span), Load(t), n)
  {
    hide Placed;
    JoinMoves(c, s, t);
    var pc := s.threads[t].pc;
    GatherMoves(Joins(s, t), t, pc.cl, pc.n, pc.span, []);
  }
}
