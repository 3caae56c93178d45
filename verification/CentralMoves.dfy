/** Which objects each step moves, and where: every carved object stays in exactly one place. */
module CentralMoves {
  import opened Sequences
  import opened CentralState
  import opened CentralLocks
  import opened CentralPlaces

  /** The new place wants the class the objects have, and its own span if it is a span. */
  ghost predicate Welcome(s: State, s': State, from: Place, to: Place, moved: seq<Obj>) {
    && (to.App? || (if from.App? then forall o :: o in moved && o in s.home ==> s.home[o].cl == PlaceClass(s', to)
                    else moved == [] || PlaceClass(s', to) == PlaceClass(s, from)))
    && (to.OnSpan? ==> forall o :: o in moved && o in s.home ==> s.home[o].span == to.x)
  }

  lemma WelcomeFits(s: State, s': State, from: Place, to: Place, moved: seq<Obj>)
    requires Placed(s) && RootsSame(s, s') && !from.Fresh? && Welcome(s, s', from, to, moved)
    requires forall o :: o in moved ==> o in Items(s, from)
    ensures forall o :: o in moved ==> o in s'.home && Fits(s', to, o)
  {
    forall o | o in moved ensures o in s'.home && Fits(s', to, o) {
      assert In(s, from, o);
      assert Tagged(s, from, o);
    }
  }

  lemma Transfer(s: State, s': State, t: int, from: Place, to: Place, moved: seq<Obj>, rest: seq<Obj>)
    requires Placed(s) && from != to && !from.Fresh? && !to.Fresh?
    requires RootsSame(s, s') && OnlyThread(s, s', t) && !s'.threads[t].pc.Carved?
    requires OthersSame(s, s', from, to) && ClassesSame(s, s', to)
    requires Parts(Items(s, from), moved, rest)
    requires Items(s', from) == rest && Items(s', to) == moved + Items(s, to)
    requires Welcome(s, s', from, to, moved)
    ensures Placed(s')
  {
    hide Placed, Items, PlaceClass, OthersSame, ClassesSame, Welcome, RootsSame;
    WelcomeFits(s, s', from, to, moved);
    assert s'.home == s.home by { SameHome(s, s'); }
    MoveKeepsPlaces(s, s', t, from, to, moved, rest);
  }

  lemma SameHome(s: State, s': State)
    requires RootsSame(s, s')
    ensures s'.home == s.home
  {
  }

  /** The first `n` objects of a place go to the front of another. */
  lemma TransferFront(s: State, s': State, t: int, from: Place, to: Place, n: int)
    requires Placed(s) && from != to && !from.Fresh? && !to.Fresh? && 0 <= n <= |Items(s, from)|
    requires RootsSame(s, s') && OnlyThread(s, s', t) && !s'.threads[t].pc.Carved?
    requires OthersSame(s, s', from, to) && ClassesSame(s, s', to)
    requires Items(s', from) == Items(s, from)[n..] && Items(s', to) == Items(s, from)[..n] + Items(s, to)
    requires Welcome(s, s', from, to, Items(s, from)[..n])
    ensures Placed(s') && Shifted(s, s', from, to, n)
  {
    assert Distinct(Items(s, from));
    hide Placed, Items, PlaceClass, OthersSame, ClassesSame, Welcome, RootsSame;
    PrefixParts(Items(s, from), n);
    Transfer(s, s', t, from, to, Items(s, from)[..n], Items(s, from)[n..]);
  }

  lemma StartInsertPlaces(c: Config, s: State, t: int, cl: int, n: int)
    requires Enabled(c, s, t, StartInsert(cl, n))
    ensures OthersSame(s, StartInserting(s, t, cl, n), Cached(t, cl), Stash(t))
    ensures ClassesSame(s, StartInserting(s, t, cl, n), Stash(t))
  {
  }

  lemma StartInsertMoves(c: Config, s: State, t: int, cl: int, n: int)
    requires Placed(s) && Enabled(c, s, t, StartInsert(cl, n))
    ensures Placed(StartInserting(s, t, cl, n)) && Shifted(s, StartInserting(s, t, cl, n), Cached(t, cl), Stash(t), n)
  {
    hide Placed, OthersSame, ClassesSame;
    StartInsertPlaces(c, s, t, cl, n);
    TransferFront(s, StartInserting(s, t, cl, n), t, Cached(t, cl), Stash(t), n);
  }

  lemma AcquireMoves(c: Config, s: State, t: int)
    requires Placed(s) && Enabled(c, s, t, Acquire)
    ensures Placed(Acquired(s, t)) && Unmoved(s, Acquired(s, t))
  {
    var s' := Acquired(s, t);
    forall p ensures Items(s', p) == Items(s, p) && PlaceClass(s', p) == PlaceClass(s, p) {
    }
    forall p, o | In(s', p, o) ensures In(s, p, o) && Tagged(s', p, o) {
      assert In(s, p, o);
      assert Tagged(s, p, o);
    }
    forall o | o in s'.home ensures exists p :: In(s', p, o) {
      var p :| In(s, p, o);
      assert In(s', p, o);
    }
    forall u | 0 <= u < |s'.threads| && s'.threads[u].pc.Carved? ensures CarvedOk(s', s'.threads[u].pc) {
      assert CarvedOk(s, s.threads[u].pc);
    }
  }

  lemma StartRemoveMoves(c: Config, s: State, t: int, cl: int, n: int)
    requires Placed(s) && Enabled(c, s, t, StartRemove(cl, n))
    ensures Placed(Go(s, t, Remove(cl, n))) && Unmoved(s, Go(s, t, Remove(cl, n)))
  {
    hide Placed, Items, PlaceClass, Unmoved, Shifted, OthersSame;
    StayMoves(s, Go(s, t, Remove(cl, n)), t);
  }

  lemma PopulateFailsMoves(c: Config, s: State, t: int)
    requires Placed(s) && Enabled(c, s, t, StepPopulateFails)
    ensures Placed(PopulateFailed(s, t)) && Unmoved(s, PopulateFailed(s, t))
  {
    hide Placed, Items, PlaceClass, Unmoved, Shifted, OthersSame;
    StayMoves(s, PopulateFailed(s, t), t);
  }

  lemma StartFreePlaces(c: Config, s: State, t: int, i: int)
    requires Enabled(c, s, t, StartFree(i))
    ensures OthersSame(s, StartFreeing(s, t, i), App, Stash(t))
    ensures ClassesSame(s, StartFreeing(s, t, i), Stash(t))
  {
  }

  lemma StartFreeMoves(c: Config, s: State, t: int, i: int)
    requires Placed(s) && Enabled(c, s, t, StartFree(i))
    ensures Placed(StartFreeing(s, t, i)) && Plucked(s, StartFreeing(s, t, i), App, Stash(t), i)
  {
    assert Distinct(Items(s, App));
    hide Placed, OthersSame, ClassesSame;
    StartFreePlaces(c, s, t, i);
    OneParts(s.app, i);
    Transfer(s, StartFreeing(s, t, i), t, App, Stash(t), [s.app[i]], Without(s.app, i));
  }

  lemma AllocateMoves(c: Config, s: State, t: int, cl: int)
    requires Placed(s) && Enabled(c, s, t, Allocate(cl))
    ensures Placed(Allocated(s, t, cl)) && Shifted(s, Allocated(s, t, cl), Cached(t, cl), App, 1)
  {
    hide Placed;
    var list := s.lists[t][cl];
    assert list[..1] == [list[0]];
    TransferFront(s, Allocated(s, t, cl), t, Cached(t, cl), App, 1);
  }

  lemma DeallocatePlaces(c: Config, s: State, t: int, i: int)
    requires Enabled(c, s, t, Deallocate(i))
    ensures OthersSame(s, Deallocated(s, t, i), App, Cached(t, s.home[s.app[i]].cl))
    ensures ClassesSame(s, Deallocated(s, t, i), Cached(t, s.home[s.app[i]].cl))
  {
  }

  lemma DeallocateMoves(c: Config, s: State, t: int, i: int)
    requires Placed(s) && Enabled(c, s, t, Deallocate(i))
    ensures Placed(Deallocated(s, t, i)) && Plucked(s, Deallocated(s, t, i), App, Cached(t, s.home[s.app[i]].cl), i)
  {
    assert Distinct(Items(s, App));
    hide Placed, OthersSame, ClassesSame;
    DeallocatePlaces(c, s, t, i);
    OneParts(s.app, i);
    Transfer(s, Deallocated(s, t, i), t, App, Cached(t, s.home[s.app[i]].cl), [s.app[i]], Without(s.app, i));
  }

  /** A thread turns to releasing the chain it wanted to insert. */
  lemma GiveUpMoves(s: State, t: int, cl: int, chain: seq<Obj>)
    requires Placed(s) && 0 <= t < |s.threads| && StashOf(s.threads[t].pc) == chain
    requires StashClass(s.threads[t].pc) == cl && LoadOf(s.threads[t].pc) == []
    requires !s.threads[t].pc.Carved?
    ensures Placed(Keep(s, t, Release(cl, chain, Done)))
    ensures Shifted(s, Keep(s, t, Release(cl, chain, Done)), Stash(t), Load(t), |chain|)
  {
    hide Placed;
    assert chain[..|chain|] == chain && chain[|chain|..] == [];
    TransferFront(s, Keep(s, t, Release(cl, chain, Done)), t, Stash(t), Load(t), |chain|);
  }

  lemma PushPlaces(s: State, t: int, cl: int, chain: seq<Obj>, size: int)
    requires Ready(s, t) && 0 <= cl < |s.central| && StashOf(s.threads[t].pc) == chain
    requires LoadOf(s.threads[t].pc) == [] && !s.threads[t].pc.Carved?
    ensures var s' := Drop(SetCentral(s, cl, PushSlot(s.central[cl], chain).(cacheSize := size)), t, Idle);
      && OthersSame(s, s', Stash(t), Slot(cl, |s.central[cl].slots|)) && ClassesSame(s, s', Slot(cl, |s.central[cl].slots|))
  {
  }

  /** A batch goes into the next free transfer cache entry. */
  lemma PushMoves(s: State, t: int, cl: int, chain: seq<Obj>, size: int)
    requires Placed(s) && Ready(s, t) && 0 <= cl < |s.central| && StashOf(s.threads[t].pc) == chain
    requires StashClass(s.threads[t].pc) == cl && LoadOf(s.threads[t].pc) == [] && !s.threads[t].pc.Carved?
    ensures var s' := Drop(SetCentral(s, cl, PushSlot(s.central[cl], chain).(cacheSize := size)), t, Idle);
      Placed(s') && Shifted(s, s', Stash(t), Slot(cl, |s.central[cl].slots|), |chain|)
  {
    hide Placed, OthersSame, ClassesSame;
    PushPlaces(s, t, cl, chain, size);
    assert chain[..|chain|] == chain && chain[|chain|..] == [];
    var s' := Drop(SetCentral(s, cl, PushSlot(s.central[cl], chain).(cacheSize := size)), t, Idle);
    TransferFront(s, s', t, Stash(t), Slot(cl, |s.central[cl].slots|), |chain|);
  }

  lemma EvictingMoves(s: State, t: int, force: bool)
    requires Placed(s) && 0 <= t < |s.threads| && (s.threads[t].pc.Insert? || s.threads[t].pc.Decide?)
    ensures var s' := Keep(s, t, Evict(s.threads[t].pc.cl, s.threads[t].pc.chain, force));
      Placed(s') && Unmoved(s, s')
  {
    hide Placed, Items, PlaceClass, Unmoved, Shifted, OthersSame;
    StayMoves(s, Keep(s, t, Evict(s.threads[t].pc.cl, s.threads[t].pc.chain, force)), t);
  }

  lemma InsertMoves(c: Config, s: State, t: int)
    requires Placed(s) && Enabled(c, s, t, StepInsert)
    ensures Placed(Inserted(c, s, t))
    ensures var s', pc := Inserted(c, s, t), s.threads[t].pc; var q := s.central[pc.cl];
      if pc.cl >= |c.batch| || |pc.chain| != c.batch[pc.cl] then Shifted(s, s', Stash(t), Load(t), |pc.chain|)
      else if |q.slots| < q.cacheSize then Shifted(s, s', Stash(t), Slot(pc.cl, |q.slots|), |pc.chain|)
      else if pc.cl < |c.maxSize| && q.cacheSize == c.maxSize[pc.cl] then Shifted(s, s', Stash(t), Load(t), |pc.chain|)
      else Unmoved(s, s')
  {
    hide Placed, Items, PlaceClass, Unmoved, Shifted, OthersSame;
    var pc := s.threads[t].pc;
    var q := s.central[pc.cl];
    assert PushSlot(q, pc.chain) == PushSlot(q, pc.chain).(cacheSize := q.cacheSize);
    PushMoves(s, t, pc.cl, pc.chain, q.cacheSize);
    GiveUpMoves(s, t, pc.cl, pc.chain);
    EvictingMoves(s, t, false);
  }

  lemma EvictNoneMoves(c: Config, s: State, t: int)
    requires Placed(s) && Enabled(c, s, t, StepEvictNone)
    ensures Placed(NotEvicted(s, t))
    ensures var s', pc := NotEvicted(s, t), s.threads[t].pc;
      if pc.force then Shifted(s, s', Stash(t), Load(t), |pc.chain|) else Unmoved(s, s')
  {
    hide Placed, Items, PlaceClass, Unmoved, Shifted, OthersSame;
    var pc := s.threads[t].pc;
    if pc.force {
      GiveUpMoves(s, t, pc.cl, pc.chain);
    } else {
      StayMoves(s, NotEvicted(s, t), t);
    }
  }

  lemma EvictMoves(c: Config, s: State, t: int, victim: int)
    requires Placed(s) && Enabled(c, s, t, StepEvict(victim))
    ensures Placed(Evicted(s, t, victim)) && Unmoved(s, Evicted(s, t, victim))
  {
    hide Placed, Items, PlaceClass, Unmoved, Shifted, OthersSame;
    StayMoves(s, Evicted(s, t, victim), t);
  }

  ghost predicate Spilling(s: State, t: int) {
    && Ready(s, t) && s.threads[t].pc.Shrink? && 0 <= s.threads[t].pc.victim < |s.central|
    && s.threads[t].pc.force && s.central[s.threads[t].pc.victim].slots != []
    && |s.central[s.threads[t].pc.victim].slots| == s.central[s.threads[t].pc.victim].cacheSize
  }

  lemma SpillItems(s: State, t: int, p: Place)
    requires Spilling(s, t)
    ensures var victim := s.threads[t].pc.victim;
      p != Slot(victim, |s.central[victim].slots| - 1) && p != Load(t) ==>
        Items(Shrunk(s, t), p) == Items(s, p) && PlaceClass(Shrunk(s, t), p) == PlaceClass(s, p)
  {
  }

  lemma SpillPlaces(s: State, t: int)
    requires Spilling(s, t)
    ensures var victim := s.threads[t].pc.victim; var from := Slot(victim, |s.central[victim].slots| - 1);
      OthersSame(s, Shrunk(s, t), from, Load(t)) && ClassesSame(s, Shrunk(s, t), Load(t))
  {
    var victim := s.threads[t].pc.victim;
    var from := Slot(victim, |s.central[victim].slots| - 1);
    assert PlaceClass(Shrunk(s, t), from) == PlaceClass(s, from) && Items(s, Load(t)) == [];
    hide Items, PlaceClass, Shrunk;
    forall p | p != from && p != Load(t)
      ensures Items(Shrunk(s, t), p) == Items(s, p) && PlaceClass(Shrunk(s, t), p) == PlaceClass(s, p)
    {
      SpillItems(s, t, p);
    }
  }

  /** A forced eviction takes the last batch of the victim's cache in hand. */
  lemma SpillMoves(s: State, t: int)
    requires Placed(s) && Spilling(s, t)
    ensures Placed(Shrunk(s, t))
    ensures var q := s.central[s.threads[t].pc.victim];
      Shifted(s, Shrunk(s, t), Slot(s.threads[t].pc.victim, |q.slots| - 1), Load(t), |Last(q)|)
  {
    hide Placed, OthersSame, ClassesSame;
    SpillPlaces(s, t);
    var victim := s.threads[t].pc.victim;
    var q := s.central[victim];
    var chain := Last(q);
    assert chain[..|chain|] == chain && chain[|chain|..] == [];
    TransferFront(s, Shrunk(s, t), t, Slot(victim, |q.slots| - 1), Load(t), |chain|);
  }

  /** A cache with a free entry just loses the entry. */
  lemma ShrinkFreeMoves(s: State, t: int)
    requires Placed(s) && Ready(s, t) && s.threads[t].pc.Shrink? && 0 <= s.threads[t].pc.victim < |s.central|
    requires s.central[s.threads[t].pc.victim].cacheSize != 0
    requires |s.central[s.threads[t].pc.victim].slots| != s.central[s.threads[t].pc.victim].cacheSize
    ensures Placed(Shrunk(s, t)) && Unmoved(s, Shrunk(s, t))
  {
    hide Placed;
    StayKeepsPlaces(s, Shrunk(s, t), t);
  }

  lemma ShrinkMoves(c: Config, s: State, t: int)
    requires Placed(s) && Shaped(c, s) && CachesOk(c, s) && Enabled(c, s, t, StepShrink)
    ensures Placed(Shrunk(s, t))
    ensures var q := s.central[s.threads[t].pc.victim];
      if s.threads[t].pc.force && |q.slots| == q.cacheSize != 0
      then q.slots != [] && Shifted(s, Shrunk(s, t), Slot(s.threads[t].pc.victim, |q.slots| - 1), Load(t), |Last(q)|)
      else Unmoved(s, Shrunk(s, t))
  {
    hide Placed, Items, PlaceClass, Unmoved, Shifted, OthersSame;
    var pc := s.threads[t].pc;
    var q := s.central[pc.victim];
    assert CacheOk(c, q, pc.victim);
    if q.cacheSize != 0 && |q.slots| == q.cacheSize && pc.force {
      SpillMoves(s, t);
    } else if q.cacheSize != 0 && |q.slots| != q.cacheSize {
      ShrinkFreeMoves(s, t);
    } else {
      StayMoves(s, Shrunk(s, t), t);
    }
  }

  lemma DecideMoves(c: Config, s: State, t: int)
    requires Placed(s) && Enabled(c, s, t, StepDecide)
    ensures Placed(Decided(c, s, t))
    ensures var s', pc := Decided(c, s, t), s.threads[t].pc; var q := s.central[pc.cl];
      var below := pc.cl < |c.maxSize| && q.cacheSize < c.maxSize[pc.cl];
      if pc.won then Shifted(s, s', Stash(t), if below then Slot(pc.cl, |q.slots|) else Load(t), |pc.chain|)
      else if pc.force then Shifted(s, s', Stash(t), Load(t), |pc.chain|) else Unmoved(s, s')
  {
    hide Placed, Items, PlaceClass, Unmoved, Shifted, OthersSame;
    var pc := s.threads[t].pc;
    PushMoves(s, t, pc.cl, pc.chain, s.central[pc.cl].cacheSize + 1);
    GiveUpMoves(s, t, pc.cl, pc.chain);
    EvictingMoves(s, t, true);
  }

  lemma DeleteMoves(c: Config, s: State, t: int)
    requires Placed(s) && Enabled(c, s, t, StepDelete)
    ensures Placed(Deleted(s, t)) && Unmoved(s, Deleted(s, t))
  {
    hide Placed, Items, PlaceClass, Unmoved, Shifted, OthersSame;
    StayMoves(s, Deleted(s, t), t);
  }

  /** Objects from the front of a span join those in hand; nothing else is anywhere else. */
  lemma GatherPlaces(s: State, t: int, cl: int, n: int, x: int, got: seq<Obj>, m: int)
    requires 0 <= t < |s.threads| && CanFetch(s, cl, x)
    requires LoadOf(s.threads[t].pc) == got && StashOf(s.threads[t].pc) == [] && !s.threads[t].pc.Carved?
    requires m == Yield(s.spans[x], if n <= |got| then 0 else n - |got|)
    ensures OthersSame(s, Gathered(s, t, cl, n, x, got), OnSpan(x), Load(t))
    ensures Items(Gathered(s, t, cl, n, x, got), OnSpan(x)) == Items(s, OnSpan(x))[m..]
    ensures Items(Gathered(s, t, cl, n, x, got), Load(t)) == Items(s, OnSpan(x))[..m] + Items(s, Load(t))
  {
  }

  lemma GatherClasses(s: State, t: int, cl: int, n: int, x: int, got: seq<Obj>)
    requires 0 <= t < |s.threads| && CanFetch(s, cl, x) && s.spans[x].cl == cl
    requires LoadOf(s.threads[t].pc) == got && StashOf(s.threads[t].pc) == [] && !s.threads[t].pc.Carved?
    requires got != [] ==> LoadClass(s.threads[t].pc) == cl
    ensures ClassesSame(s, Gathered(s, t, cl, n, x, got), Load(t))
    ensures PlaceClass(Gathered(s, t, cl, n, x, got), Load(t)) == PlaceClass(s, OnSpan(x))
  {
  }

  lemma GatherMoves(s: State, t: int, cl: int, n: int, x: int, got: seq<Obj>)
    requires Placed(s) && Ready(s, t) && CanFetch(s, cl, x) && s.spans[x].cl == cl
    requires LoadOf(s.threads[t].pc) == got && StashOf(s.threads[t].pc) == [] && !s.threads[t].pc.Carved?
    requires got != [] ==> LoadClass(s.threads[t].pc) == cl
    ensures Placed(Gathered(s, t, cl, n, x, got))
    ensures Shifted(s, Gathered(s, t, cl, n, x, got), OnSpan(x), Load(t), Yield(s.spans[x], if n <= |got| then 0 else n - |got|))
  {
    hide Placed, OthersSame, ClassesSame, PlaceClass;
    var m := Yield(s.spans[x], if n <= |got| then 0 else n - |got|);
    GatherPlaces(s, t, cl, n, x, got, m);
    GatherClasses(s, t, cl, n, x, got);
    TransferFront(s, Gathered(s, t, cl, n, x, got), t, OnSpan(x), Load(t), m);
  }

  ghost function Popped(s: State, t: int, cl: int): State
    requires 0 <= t < |s.threads| && 0 <= cl < |s.central| && s.central[cl].slots != []
  {
    Drop(SetCentral(s, cl, PopSlot(s.central[cl])), t, Fetched(cl, Last(s.central[cl])))
  }

  lemma PopItems(s: State, t: int, cl: int, n: int, p: Place)
    requires Ready(s, t) && s.threads[t].pc == Remove(cl, n) && 0 <= cl < |s.central|
    requires s.central[cl].slots != []
    ensures p != Slot(cl, |s.central[cl].slots| - 1) && p != Load(t) ==>
      Items(Popped(s, t, cl), p) == Items(s, p) && PlaceClass(Popped(s, t, cl), p) == PlaceClass(s, p)
  {
  }

  lemma PopPlaces(s: State, t: int, cl: int, n: int)
    requires Ready(s, t) && s.threads[t].pc == Remove(cl, n) && 0 <= cl < |s.central|
    requires s.central[cl].slots != []
    ensures OthersSame(s, Popped(s, t, cl), Slot(cl, |s.central[cl].slots| - 1), Load(t))
    ensures ClassesSame(s, Popped(s, t, cl), Load(t))
  {
    var from := Slot(cl, |s.central[cl].slots| - 1);
    assert PlaceClass(Popped(s, t, cl), from) == PlaceClass(s, from) && Items(s, Load(t)) == [];
    hide Items, PlaceClass, Popped;
    forall p | p != from && p != Load(t)
      ensures Items(Popped(s, t, cl), p) == Items(s, p) && PlaceClass(Popped(s, t, cl), p) == PlaceClass(s, p)
    {
      PopItems(s, t, cl, n, p);
    }
  }

  /** A batch leaves the transfer cache whole. */
  lemma PopMoves(s: State, t: int, cl: int, n: int)
    requires Placed(s) && Ready(s, t) && s.threads[t].pc == Remove(cl, n) && 0 <= cl < |s.central|
    requires s.central[cl].slots != []
    ensures Placed(Popped(s, t, cl))
    ensures Shifted(s, Popped(s, t, cl), Slot(cl, |s.central[cl].slots| - 1), Load(t), |Last(s.central[cl])|)
  {
    hide Placed, OthersSame, ClassesSame;
    var q := s.central[cl];
    var chain := Last(q);
    assert chain[..|chain|] == chain && chain[|chain|..] == [];
    PopPlaces(s, t, cl, n);
    TransferFront(s, Popped(s, t, cl), t, Slot(cl, |q.slots| - 1), Load(t), |chain|);
  }

  lemma RemoveMoves(c: Config, s: State, t: int, x: int)
    requires Placed(s) && Enabled(c, s, t, StepRemove(x))
    requires CanFetch(s, s.threads[t].pc.cl, x) ==> s.spans[x].cl == s.threads[t].pc.cl
    ensures Placed(Removed(c, s, t, x))
    ensures var s', pc := Removed(c, s, t, x), s.threads[t].pc; var q := s.central[pc.cl];
      if pc.n == c.batch[pc.cl] && q.slots != [] then Shifted(s, s', Slot(pc.cl, |q.slots| - 1), Load(t), |Last(q)|)
      else if NothingToFetch(s, pc.cl) then Unmoved(s, s') && s'.threads[t] == Thread(Populate(pc.cl, pc.n), false)
      else Shifted(s, s', OnSpan(x), Load(t), Yield(s.spans[x], if pc.n <= 0 then 0 else pc.n))
  {
    hide Placed, Items, PlaceClass, Unmoved, Shifted, OthersSame;
    var pc := s.threads[t].pc;
    if pc.n == c.batch[pc.cl] && s.central[pc.cl].slots != [] {
      PopMoves(s, t, pc.cl, pc.n);
    } else if NothingToFetch(s, pc.cl) {
      StayMoves(s, Removed(c, s, t, x), t);
    } else {
      GatherMoves(s, t, pc.cl, pc.n, x, []);
    }
  }

  lemma GatherMoreMoves(c: Config, s: State, t: int, x: int)
    requires Placed(s) && Enabled(c, s, t, StepGather(x))
    requires CanFetch(s, s.threads[t].pc.cl, x) ==> s.spans[x].cl == s.threads[t].pc.cl
    ensures Placed(GatheredMore(s, t, x))
    ensures var s', pc := GatheredMore(s, t, x), s.threads[t].pc;
      if |pc.got| < pc.n && !NothingToFetch(s, pc.cl)
      then Shifted(s, s', OnSpan(x), Load(t), Yield(s.spans[x], pc.n - |pc.got|))
      else Unmoved(s, s') && s'.threads[t] == Thread(Fetched(pc.cl, pc.got), false)
  {
    hide Placed, Items, PlaceClass, Unmoved, Shifted, OthersSame;
    var pc := s.threads[t].pc;
    if |pc.got| < pc.n && !NothingToFetch(s, pc.cl) {
      GatherMoves(s, t, pc.cl, pc.n, x, pc.got);
    } else {
      StayMoves(s, GatheredMore(s, t, x), t);
    }
  }

  lemma StarvedMoves(c: Config, s: State, t: int, x: int)
    requires Placed(s) && Enabled(c, s, t, StepStarved(x))
    requires CanFetch(s, s.threads[t].pc.cl, x) ==> s.spans[x].cl == s.threads[t].pc.cl
    ensures Placed(StarvedTries(s, t, x))
    ensures var s', pc := StarvedTries(s, t, x), s.threads[t].pc;
      if NothingToFetch(s, pc.cl) then Unmoved(s, s') && s'.threads[t] == Thread(Fetched(pc.cl, []), false)
      else Shifted(s, s', OnSpan(x), Load(t), Yield(s.spans[x], if pc.n <= 0 then 0 else pc.n))
  {
    hide Placed, Items, PlaceClass, Unmoved, Shifted, OthersSame;
    var pc := s.threads[t].pc;
    if NothingToFetch(s, pc.cl) {
      StayMoves(s, StarvedTries(s, t, x), t);
    } else {
      GatherMoves(s, t, pc.cl, pc.n, x, []);
    }
  }

  lemma FirstMoves(s: State, t: int)
    requires Placed(s) && 0 <= t < |s.threads| && s.threads[t].pc.Fetched? && s.threads[t].pc.got != []
    ensures Placed(HandedOut(s, t)) && Shifted(s, HandedOut(s, t), Load(t), App, 1)
  {
    hide Placed;
    var got := s.threads[t].pc.got;
    assert got[..1] == [got[0]];
    TransferFront(s, HandedOut(s, t), t, Load(t), App, 1);
  }

  lemma HandOutMoves(c: Config, s: State, t: int)
    requires Placed(s) && Enabled(c, s, t, StepHandOut)
    ensures Placed(HandedOut(s, t))
    ensures if s.threads[t].pc.got == [] then Unmoved(s, HandedOut(s, t)) else Shifted(s, HandedOut(s, t), Load(t), App, 1)
  {
    hide Placed, Items, PlaceClass, Unmoved, Shifted, OthersSame;
    if s.threads[t].pc.got == [] {
      StayMoves(s, HandedOut(s, t), t);
    } else {
      FirstMoves(s, t);
    }
  }

  lemma StorePlaces(c: Config, s: State, t: int)
    requires Enabled(c, s, t, StepStore)
    ensures OthersSame(s, Stored(s, t), Load(t), Cached(t, s.threads[t].pc.cl))
    ensures ClassesSame(s, Stored(s, t), Cached(t, s.threads[t].pc.cl))
  {
  }

  lemma StoreMoves(c: Config, s: State, t: int)
    requires Placed(s) && Enabled(c, s, t, StepStore)
    ensures Placed(Stored(s, t)) && Shifted(s, Stored(s, t), Load(t), Cached(t, s.threads[t].pc.cl), |s.threads[t].pc.rest|)
  {
    hide Placed, OthersSame, ClassesSame;
    StorePlaces(c, s, t);
    var pc := s.threads[t].pc;
    assert pc.rest[..|pc.rest|] == pc.rest && pc.rest[|pc.rest|..] == [];
    TransferFront(s, Stored(s, t), t, Load(t), Cached(t, pc.cl), |pc.rest|);
  }
}
