/** What holds in every state of every run of the central free lists. */
module CentralRuns {
  import opened Options
  import opened Sequences
  import opened CentralState
  import opened CentralLocks
  import opened CentralPlaces
  import opened CentralMoves
  import Arith
  import opened CentralSpans
  import opened CentralAccounts

  ghost predicate Sound(c: Config, s: State) {
    && Shaped(c, s) && CachesOk(c, s) && LocksOk(s) && WithinBudget(c, s)
    && Placed(s) && Accounts(s.central, s.spans, s.home)
  }

  lemma SoundParts(c: Config, s: State)
    requires Sound(c, s)
    ensures Shaped(c, s) && LocksOk(s) && Placed(s) && Accounts(s.central, s.spans, s.home)
  {
    hide Shaped, CachesOk, LocksOk, WithinBudget, Placed, Accounts;
  }

  // ----- Accounts over every step -----

  /** Steps that leave spans, tags and list counts alone. */
  lemma SameAccounts(s: State, s': State)
    requires Accounts(s.central, s.spans, s.home) && s'.spans == s.spans && s'.home == s.home
    requires |s'.central| == |s.central|
    requires forall cl :: 0 <= cl < |s.central| ==>
      s'.central[cl] == s.central[cl].(slots := s'.central[cl].slots, cacheSize := s'.central[cl].cacheSize)
    ensures Accounts(s'.central, s'.spans, s'.home)
  {
    forall cl | 0 <= cl < |s'.central| ensures ListsOk(s'.central[cl], s'.spans, cl) {
      assert ListsOk(s.central[cl], s.spans, cl);
    }
  }

  lemma InsertAccounts(c: Config, s: State, t: int)
    requires Accounts(s.central, s.spans, s.home) && Enabled(c, s, t, StepInsert)
    ensures var s' := Inserted(c, s, t); Accounts(s'.central, s'.spans, s'.home)
  {
    hide Accounts;
    SameAccounts(s, Inserted(c, s, t));
  }

  lemma ShrinkAccounts(c: Config, s: State, t: int)
    requires Accounts(s.central, s.spans, s.home) && Enabled(c, s, t, StepShrink)
    ensures var s' := Shrunk(s, t); Accounts(s'.central, s'.spans, s'.home)
  {
    hide Accounts;
    SameAccounts(s, Shrunk(s, t));
  }

  lemma DecideAccounts(c: Config, s: State, t: int)
    requires Accounts(s.central, s.spans, s.home) && Enabled(c, s, t, StepDecide)
    ensures var s' := Decided(c, s, t); Accounts(s'.central, s'.spans, s'.home)
  {
    hide Accounts;
    SameAccounts(s, Decided(c, s, t));
  }

  lemma PlainStepAccounts(c: Config, s: State, t: int, a: Action)
    requires Accounts(s.central, s.spans, s.home) && Enabled(c, s, t, a)
    requires !a.StepRelease? && !a.StepRemove? && !a.StepGather? && !a.StepStarved? && !a.StepPopulate? && !a.StepCarved?
    requires !a.StepInsert? && !a.StepShrink? && !a.StepDecide?
    ensures Accounts(Do(c, s, t, a).central, Do(c, s, t, a).spans, Do(c, s, t, a).home)
  {
    hide Accounts;
  }

  /** The object in hand meets what putting it back needs. */
  lemma ReleasedObject(c: Config, s: State, t: int)
    requires Sound(c, s) && Ready(s, t) && s.threads[t].pc.Release? && s.threads[t].pc.todo != []
    ensures 0 <= s.threads[t].pc.held < |s.central|
    ensures s.threads[t].pc.todo[0] in s.home
    ensures CanPutBack(s.central, s.spans, s.home, s.threads[t].pc.held,
                       s.home[s.threads[t].pc.todo[0]].span, s.threads[t].pc.todo[0])
  {
    TodoIsTagged(s, t);
    assert PcOk(c, s.threads[t].pc);
  }

  lemma ReleaseKeeps(c: Config, s: State, t: int)
    requires Sound(c, s) && Enabled(c, s, t, StepRelease)
    ensures Placed(Released(s, t))
    ensures Accounts(Released(s, t).central, Released(s, t).spans, Released(s, t).home)
  {
    hide Placed, Accounts, Shaped, CachesOk, LocksOk, WithinBudget;
    var pc := s.threads[t].pc;
    if pc.todo == [] {
      StayKeepsPlaces(s, Released(s, t), t);
      SameAccounts(s, Released(s, t));
    } else {
      var o := pc.todo[0];
      var x := s.home[o].span;
      ReleasedObject(c, s, t);
      if s.spans[x].refcount == 1 {
        LastIsOut(s, x, o);
        RetireMoves(s, t, o, x);
        RetireKeepsAccounts(s.central, s.spans, s.home, pc.held, x, o);
      } else {
        PutBackMoves(s, t, o, x);
        PutBackKeepsAccounts(s.central, s.spans, s.home, pc.held, x, o);
      }
    }
  }

  lemma LastIsOut(s: State, x: int, o: Obj)
    requires Accounts(s.central, s.spans, s.home) && x in s.spans && o in s.home && s.home[o].span == x
    requires o !in s.spans[x].objects
    ensures s.spans[x].refcount == 1 <==> LastOut(s, o, x)
  {
    LastObjectOut(s.spans, s.home, x, o);
  }

  /** A span that can be fetched from is listed under its own class. */
  lemma FetchedClass(c: Config, s: State, cl: int, x: int)
    requires Accounts(s.central, s.spans, s.home)
    ensures CanFetch(s, cl, x) ==> s.spans[x].cl == cl
  {
    assert CanFetch(s, cl, x) ==> ListsOk(s.central[cl], s.spans, cl);
  }

  lemma GatherAccounts(s: State, t: int, cl: int, n: int, x: int, got: seq<Obj>)
    requires Accounts(s.central, s.spans, s.home) && 0 <= t < |s.threads| && CanFetch(s, cl, x)
    ensures var s' := Gathered(s, t, cl, n, x, got); Accounts(s'.central, s'.spans, s'.home)
  {
    hide Accounts;
    var m := Yield(s.spans[x], if n <= |got| then 0 else n - |got|);
    FetchKeepsAccounts(s.central, s.spans, s.home, cl, x, m);
  }

  lemma RemoveAccounts(c: Config, s: State, t: int, x: int)
    requires Accounts(s.central, s.spans, s.home) && Enabled(c, s, t, StepRemove(x))
    ensures var s' := Removed(c, s, t, x); Accounts(s'.central, s'.spans, s'.home)
  {
    hide Accounts;
    var pc := s.threads[t].pc;
    if !(pc.n == c.batch[pc.cl] && s.central[pc.cl].slots != []) && !NothingToFetch(s, pc.cl) {
      GatherAccounts(s, t, pc.cl, pc.n, x, []);
    } else {
      SameAccounts(s, Removed(c, s, t, x));
    }
  }

  lemma GatherMoreAccounts(c: Config, s: State, t: int, x: int)
    requires Accounts(s.central, s.spans, s.home) && Enabled(c, s, t, StepGather(x))
    ensures var s' := GatheredMore(s, t, x); Accounts(s'.central, s'.spans, s'.home)
  {
    hide Accounts;
    var pc := s.threads[t].pc;
    if |pc.got| < pc.n && !NothingToFetch(s, pc.cl) {
      GatherAccounts(s, t, pc.cl, pc.n, x, pc.got);
    } else {
      SameAccounts(s, GatheredMore(s, t, x));
    }
  }

  lemma StarvedAccounts(c: Config, s: State, t: int, x: int)
    requires Accounts(s.central, s.spans, s.home) && Enabled(c, s, t, StepStarved(x))
    ensures var s' := StarvedTries(s, t, x); Accounts(s'.central, s'.spans, s'.home)
  {
    hide Accounts;
    var pc := s.threads[t].pc;
    if NothingToFetch(s, pc.cl) {
      SameAccounts(s, StarvedTries(s, t, x));
    } else {
      GatherAccounts(s, t, pc.cl, pc.n, x, []);
    }
  }

  lemma CarvedReady(c: Config, s: State, t: int)
    requires Sound(c, s) && Enabled(c, s, t, StepCarved)
    ensures var pc := s.threads[t].pc;
      CanJoin(s.central, s.spans, s.home, pc.cl, pc.span, pc.objects) && 1 <= pc.n
  {
    var pc := s.threads[t].pc;
    assert PcOk(c, pc);
    assert CarvedOk(s, pc);
    assert Distinct(Items(s, Fresh(t)));
    forall o | o in pc.objects ensures o in s.home && s.home[o] == Tag(pc.span, pc.cl) {
      assert In(s, Fresh(t), o);
      assert Tagged(s, Fresh(t), o);
    }
  }

  lemma CarvedIs(s: State, t: int)
    requires Ready(s, t) && s.threads[t].pc.Carved? && 0 <= s.threads[t].pc.cl < |s.central|
    requires s.threads[t].pc.objects != [] && 1 <= s.threads[t].pc.n
    ensures var pc, s' := s.threads[t].pc, CarvedJoins(s, t);
      var m := if pc.n < |pc.objects| then pc.n else |pc.objects|;
      && s'.home == s.home && s'.spans == s.spans[pc.span := Span(pc.cl, pc.objects[m..], m, |pc.objects|)]
      && s'.central ==
           s.central[pc.cl := Lost(Joined(s.central[pc.cl], pc.span, |pc.objects|), pc.span, m, |pc.objects| - m)]
  {
  }

  lemma CarvedAccounts(c: Config, s: State, t: int)
    requires Sound(c, s) && Enabled(c, s, t, StepCarved)
    ensures var s' := CarvedJoins(s, t); Accounts(s'.central, s'.spans, s'.home)
  {
    hide Sound, Accounts, Placed, Shaped, LocksOk, CarvedJoins, Lost, Joined;
    SoundParts(c, s);
    CarvedReady(c, s, t);
    CarvedIs(s, t);
    var pc := s.threads[t].pc;
    var m := if pc.n < |pc.objects| then pc.n else |pc.objects|;
    JoinKeepsAccounts(s.central, s.spans, s.home, pc.cl, pc.span, pc.objects, m);
  }

  lemma StepKeepsAccounts(c: Config, s: State, t: int, a: Action)
    requires Sound(c, s) && Enabled(c, s, t, a)
    ensures Accounts(Do(c, s, t, a).central, Do(c, s, t, a).spans, Do(c, s, t, a).home)
  {
    hide Accounts, Shaped, CachesOk, LocksOk, WithinBudget, Placed;
    match a
    case StepRelease => ReleaseKeeps(c, s, t);
    case StepRemove(x) => RemoveAccounts(c, s, t, x);
    case StepGather(x) => GatherMoreAccounts(c, s, t, x);
    case StepStarved(x) => StarvedAccounts(c, s, t, x);
    case StepPopulate(x, objects) =>
      AdoptKeepsAccounts(s.central, s.spans, s.home, objects, Tag(x, s.threads[t].pc.cl));
    case StepCarved => CarvedAccounts(c, s, t);
    case StepInsert => InsertAccounts(c, s, t);
    case StepShrink => ShrinkAccounts(c, s, t);
    case StepDecide => DecideAccounts(c, s, t);
    case _ => PlainStepAccounts(c, s, t, a);
  }

  lemma FetchKeepsPlaces(c: Config, s: State, t: int, a: Action)
    requires Sound(c, s) && Enabled(c, s, t, a) && (a.StepRemove? || a.StepGather? || a.StepStarved?)
    ensures Placed(Do(c, s, t, a))
  {
    hide Accounts, Shaped, CachesOk, LocksOk, WithinBudget, Placed;
    hide Removed, GatheredMore, StarvedTries, Shifted, Plucked, Unmoved;
    FetchedClass(c, s, s.threads[t].pc.cl, a.x);
    match a
    case StepRemove(x) => RemoveMoves(c, s, t, x);
    case StepGather(x) => GatherMoreMoves(c, s, t, x);
    case StepStarved(x) => StarvedMoves(c, s, t, x);
  }

  lemma StepKeepsPlaces(c: Config, s: State, t: int, a: Action)
    requires Sound(c, s) && Enabled(c, s, t, a)
    ensures Placed(Do(c, s, t, a))
  {
    hide Accounts, Shaped, CachesOk, LocksOk, WithinBudget, Placed, Enabled, Shifted, Plucked, Unmoved;
    hide Acquired, StartInserting, StartFreeing, Allocated, Deallocated, Inserted, NotEvicted, Evicted, Shrunk;
    hide Decided, Released, Deleted, Removed, GatheredMore, StarvedTries, Populated, PopulateFailed, CarvedJoins;
    hide HandedOut, Stored;
    match a
    case Acquire => AcquireMoves(c, s, t);
    case StartInsert(cl, n) => StartInsertMoves(c, s, t, cl, n);
    case StartFree(i) => StartFreeMoves(c, s, t, i);
    case StartRemove(cl, n) => StartRemoveMoves(c, s, t, cl, n);
    case Allocate(cl) => AllocateMoves(c, s, t, cl);
    case Deallocate(i) => DeallocateMoves(c, s, t, i);
    case StepInsert => InsertMoves(c, s, t);
    case StepEvictNone => EvictNoneMoves(c, s, t);
    case StepEvict(victim) => EvictMoves(c, s, t, victim);
    case StepShrink => ShrinkMoves(c, s, t);
    case StepDecide => DecideMoves(c, s, t);
    case StepRelease => ReleaseKeeps(c, s, t);
    case StepDelete => DeleteMoves(c, s, t);
    case StepRemove(x) => FetchKeepsPlaces(c, s, t, a);
    case StepGather(x) => FetchKeepsPlaces(c, s, t, a);
    case StepStarved(x) => FetchKeepsPlaces(c, s, t, a);
    case StepPopulate(x, objects) => PopulateMoves(c, s, t, x, objects);
    case StepPopulateFails => PopulateFailsMoves(c, s, t);
    case StepCarved => CarvedMoves(c, s, t);
    case StepHandOut => HandOutMoves(c, s, t);
    case StepStore => StoreMoves(c, s, t);
  }

  lemma StepKeepsSound(c: Config, s: State, t: int, a: Action)
    requires ValidConfig(c) && Sound(c, s) && Enabled(c, s, t, a)
    ensures Sound(c, Do(c, s, t, a))
  {
    hide Accounts, Shaped, CachesOk, LocksOk, WithinBudget, Placed, Enabled, Do, Local, ValidConfig;
    var s' := Do(c, s, t, a);
    StepIsLocal(c, s, t, a);
    LocalKeepsShape(c, s, s', t);
    LocalKeepsLocks(c, s, s', t);
    LocalKeepsBudget(c, s, s', t);
    StepKeepsPlaces(c, s, t, a);
    StepKeepsAccounts(c, s, t, a);
  }

  // ----- Span records -----

  /** The record of span `x`, which is of class `cl`, appears, disappears or changes. */
  ghost predicate SpanChanged(s: State, s': State, x: int, cl: int) {
    || (x in s.spans && s.spans[x].cl == cl && (x !in s'.spans || s'.spans[x] != s.spans[x]))
    || (x in s'.spans && s'.spans[x].cl == cl && x !in s.spans)
  }

  /** Taking objects from span `y` changes the record of that span only. */
  lemma GatherWrites(s: State, t: int, cl: int, n: int, y: int, got: seq<Obj>)
    requires 0 <= t < |s.threads| && CanFetch(s, cl, y)
    ensures var spans' := Gathered(s, t, cl, n, y, got).spans;
      spans'.Keys == s.spans.Keys && forall x :: x in s.spans && x != y ==> spans'[x] == s.spans[x]
  {
  }

  lemma PlainSpans(c: Config, s: State, t: int, a: Action)
    requires Enabled(c, s, t, a)
    requires !(a.StepRelease? || a.StepCarved? || a.StepRemove? || a.StepGather? || a.StepStarved?)
    ensures Do(c, s, t, a).spans == s.spans
  {
    hide Room, Adopt, Needs;
  }

  lemma FetchSpans(c: Config, s: State, t: int, a: Action, x: int)
    requires Enabled(c, s, t, a) && (a.StepRemove? || a.StepGather? || a.StepStarved?)
    ensures var spans' := Do(c, s, t, a).spans;
      spans' == s.spans
      || (&& spans'.Keys == s.spans.Keys && CanFetch(s, s.threads[t].pc.cl, a.x)
          && (x in s.spans && x != a.x ==> spans'[x] == s.spans[x]))
  {
    hide Gathered;
    var pc := s.threads[t].pc;
    if CanFetch(s, pc.cl, a.x) {
      GatherWrites(s, t, pc.cl, pc.n, a.x, if a.StepGather? then pc.got else []);
    }
  }

  lemma ReleaseSpans(s: State, t: int, x: int)
    requires Placed(s) && Ready(s, t) && s.threads[t].pc.Release? && 0 <= s.threads[t].pc.held < |s.central|
    requires s.threads[t].pc.todo != [] ==>
      s.threads[t].pc.todo[0] in s.home && s.home[s.threads[t].pc.todo[0]].span in s.spans
    ensures var spans' := Released(s, t).spans;
      && spans'.Keys <= s.spans.Keys
      && (x in s.spans && (x !in spans' || spans'[x] != s.spans[x]) ==> s.spans[x].cl == s.threads[t].pc.held)
  {
    if s.threads[t].pc.todo != [] {
      TodoIsTagged(s, t);
    }
  }

  /** A step that changes the record of a span of class `cl` is one that holds the lock of `cl`. */
  lemma SpanWriter(c: Config, s: State, t: int, a: Action, x: int, cl: int)
    requires Placed(s) && Accounts(s.central, s.spans, s.home) && Enabled(c, s, t, a)
    requires SpanChanged(s, Do(c, s, t, a), x, cl)
    ensures s.threads[t].locked && Needs(s.threads[t].pc) == Some(List(cl))
  {
    hide Placed, Accounts, Gathered, Released, CarvedJoins, Removed, GatheredMore, StarvedTries;
    if a.StepRelease? {
      ReleaseSpans(s, t, x);
    } else if a.StepCarved? {
      CarvedWrites(s, t, x);
    } else if a.StepRemove? || a.StepGather? || a.StepStarved? {
      FetchSpans(c, s, t, a, x);
      if CanFetch(s, s.threads[t].pc.cl, a.x) {
        FetchClass(s, s.threads[t].pc.cl, a.x);
      }
    } else {
      PlainSpans(c, s, t, a);
    }
  }

  lemma FetchClass(s: State, cl: int, x: int)
    requires Accounts(s.central, s.spans, s.home) && CanFetch(s, cl, x)
    ensures s.spans[x].cl == cl
  {
    assert ListsOk(s.central[cl], s.spans, cl);
  }

  lemma CarvedWrites(s: State, t: int, x: int)
    requires Placed(s) && Ready(s, t) && s.threads[t].pc.Carved? && 0 <= s.threads[t].pc.cl < |s.central|
    requires s.threads[t].pc.objects != []
    ensures var pc := s.threads[t].pc; var s' := CarvedJoins(s, t);
      && pc.span !in s.spans && s'.spans.Keys == s.spans.Keys + {pc.span} && s'.spans[pc.span].cl == pc.cl
      && (x in s.spans ==> s'.spans[x] == s.spans[x])
  {
    assert CarvedOk(s, s.threads[t].pc);
  }

  /** The record of a span, its free objects and its refcount, is written only by the thread that
      holds the lock of the span's class. */
  lemma SpanWritesUnderLock(c: Config, s: State, t: int, a: Action, x: int, cl: int)
    requires Sound(c, s) && Enabled(c, s, t, a) && SpanChanged(s, Do(c, s, t, a), x, cl)
    ensures List(cl) in s.owner && s.owner[List(cl)] == t
  {
    hide Do, SpanChanged, Enabled, Shaped, CachesOk, WithinBudget, Placed, Accounts;
    SpanWriter(c, s, t, a, x, cl);
    StepIsLive(c, s, t, a);
    assert Holds(s, t, List(cl));
  }

  lemma StepIsLive(c: Config, s: State, t: int, a: Action)
    requires Enabled(c, s, t, a)
    ensures 0 <= t < |s.threads|
  {
  }

  // ----- Whole runs -----

  lemma {:induction false} NoTokens(threads: seq<Thread>)
    requires forall t :: 0 <= t < |threads| ==> threads[t] == Thread(Idle, false)
    ensures Tokens(threads) == 0
  {
    if threads != [] {
      NoTokens(threads[1..]);
    }
  }

  lemma InitIsSound(c: Config, s: State)
    requires ValidConfig(c) && Init(c, s)
    ensures Sound(c, s)
  {
    NoTokens(s.threads);
    forall p ensures Items(s, p) == [] {
    }
    forall l, t ensures !Holds(s, t, l) {
    }
    forall cl | 0 <= cl < |s.central| ensures Free(s.spans, s.home, cl) == {} {
    }
  }

  /** Every state of every run is sound. */
  lemma {:induction false} RunIsSound(c: Config, run: seq<State>, i: int)
    requires ValidConfig(c) && Run(c, run) && 0 <= i < |run|
    ensures Sound(c, run[i])
  {
    hide Sound, Enabled, Do, Init, ValidConfig;
    if i == 0 {
      InitIsSound(c, run[0]);
    } else {
      RunIsSound(c, run, i - 1);
      assert Next(c, run[i - 1], run[i]);
      var t, a :| Enabled(c, run[i - 1], t, a) && run[i] == Do(c, run[i - 1], t, a);
      StepKeepsSound(c, run[i - 1], t, a);
    }
  }

  /** Each object carved and not given back with its span is in exactly one place, once. */
  lemma ObjectConservation(c: Config, run: seq<State>, i: int, o: Obj)
    requires ValidConfig(c) && Run(c, run) && 0 <= i < |run|
    ensures o in run[i].home <==> exists p :: In(run[i], p, o)
    ensures forall p, q :: In(run[i], p, o) && In(run[i], q, o) ==> p == q
    ensures forall p :: Distinct(Items(run[i], p))
  {
    RunIsSound(c, run, i);
    var s := run[i];
    assert Placed(s);
    if exists p :: In(s, p, o) {
      var p :| In(s, p, o);
      assert Tagged(s, p, o);
    }
  }

  /** Refcounts, counters and the two span lists say what they are meant to say in every run. */
  lemma CountsAreExact(c: Config, run: seq<State>, i: int, cl: int, x: int)
    requires ValidConfig(c) && Run(c, run) && 0 <= i < |run| && 0 <= cl < |run[i].central|
    ensures var s := run[i]; var q := s.central[cl];
      && (x in q.nonempty <==> x in s.spans && s.spans[x].cl == cl && s.spans[x].objects != [])
      && (x in q.empty <==> x in s.spans && s.spans[x].cl == cl && s.spans[x].objects == [])
      && q.counter == |Free(s.spans, s.home, cl)|
      && q.numSpans == |q.nonempty| + |q.empty|
    ensures var s := run[i];
      x in s.spans ==>
        && s.spans[x].refcount > 0
        && s.spans[x].refcount == |set o | o in s.home && s.home[o].span == x && o !in s.spans[x].objects|
  {
    RunIsSound(c, run, i);
    var s := run[i];
    assert ListsOk(s.central[cl], s.spans, cl);
    if x in s.spans {
      RefcountCounts(s.spans, s.home, x);
      assert SpanOk(s.spans[x], s.home, x);
    }
  }

  /** Releasing an object sends its span back to the page heap exactly when it was the last one out. */
  lemma SpanReturnsWithLastObject(c: Config, s: State, t: int, o: Obj)
    requires ValidConfig(c) && Sound(c, s) && Enabled(c, s, t, StepRelease)
    requires s.threads[t].pc.todo != [] && s.threads[t].pc.todo[0] == o
    ensures s.home[o].span !in Released(s, t).spans <==>
            forall q :: q in s.home && s.home[q].span == s.home[o].span && q != o
                        ==> q in s.spans[s.home[o].span].objects
  {
    TodoIsTagged(s, t);
    LastObjectOut(s.spans, s.home, s.home[o].span, o);
  }

  /** No other step takes a span away. */
  lemma SpansStay(c: Config, s: State, t: int, a: Action, x: int)
    requires Enabled(c, s, t, a) && x in s.spans && x !in Do(c, s, t, a).spans
    ensures a.StepRelease? && s.threads[t].pc.todo != [] && s.home[s.threads[t].pc.todo[0]].span == x
  {
    hide Gathered, Removed, GatheredMore, StarvedTries;
    if a.StepCarved? {
      CarvedKeys(s, t);
    } else if a.StepRemove? || a.StepGather? || a.StepStarved? {
      FetchSpans(c, s, t, a, x);
    } else if !a.StepRelease? {
      PlainSpans(c, s, t, a);
    }
  }

  lemma CarvedKeys(s: State, t: int)
    requires Ready(s, t) && s.threads[t].pc.Carved? && 0 <= s.threads[t].pc.cl < |s.central|
    requires s.threads[t].pc.objects != []
    ensures CarvedJoins(s, t).spans.Keys == s.spans.Keys + {s.threads[t].pc.span}
  {
  }

  /** Used entries, cache sizes and caps; full batches; and the total that never rises above its start. */
  lemma TransferCaches(c: Config, run: seq<State>, i: int, cl: int)
    requires ValidConfig(c) && Run(c, run) && 0 <= i < |run| && 0 <= cl < |run[i].central|
    ensures cl < |c.batch| && cl < |c.maxSize|
    ensures |run[i].central[cl].slots| <= run[i].central[cl].cacheSize <= c.maxSize[cl]
    ensures forall k :: 0 <= k < |run[i].central[cl].slots| ==> |run[i].central[cl].slots[k]| == c.batch[cl]
    ensures Room(run[i].central) <= Room(run[0].central)
  {
    RunIsSound(c, run, i);
    assert CacheOk(c, run[i].central[cl], cl);
    TokensNonNegative(run[i].threads);
  }

  /** No thread holds two list locks, nor a list lock and the page-heap lock. */
  lemma OneLockAtATime(c: Config, run: seq<State>, i: int, l: Lock, m: Lock)
    requires ValidConfig(c) && Run(c, run) && 0 <= i < |run|
    requires l in run[i].owner && m in run[i].owner && run[i].owner[l] == run[i].owner[m]
    ensures l == m
  {
    RunIsSound(c, run, i);
    OneLockEach(run[i], run[i].owner[l], l, m);
  }

  // ----- Nobody waits for ever for a lock whose owner is stuck -----

  lemma CanFetchOrNot(s: State, cl: int) returns (x: int)
    requires Accounts(s.central, s.spans, s.home) && 0 <= cl < |s.central|
    ensures CanFetch(s, cl, x) || NothingToFetch(s, cl)
  {
    assert ListsOk(s.central[cl], s.spans, cl);
    if s.central[cl].nonempty == {} {
      x := 0;
    } else {
      Arith.HasMember(s.central[cl].nonempty);
      x :| x in s.central[cl].nonempty;
    }
  }

  lemma LockedAt(c: Config, s: State, t: int)
    requires Shaped(c, s) && LocksOk(s) && Ready(s, t)
    ensures PcOk(c, s.threads[t].pc) && Needs(s.threads[t].pc).Some? && |s.central| == |c.batch| && |s.lists| == |s.threads|
  {
  }

  /** A thread that holds its lock can always go on: no assertion on its way can fail. */
  lemma LockHolderGoesOn(c: Config, s: State, t: int) returns (a: Action)
    requires Sound(c, s) && Ready(s, t)
    ensures Enabled(c, s, t, a) && a != Acquire
  {
    hide Sound, Placed, Accounts, LocksOk, Shaped;
    SoundParts(c, s);
    LockedAt(c, s, t);
    var pc := s.threads[t].pc;
    match pc
    case Insert(_, _) => a := StepInsert;
    case Evict(_, _, _) => a := StepEvictNone;
    case Shrink(_, _, _, _) => a := StepShrink;
    case Decide(_, _, _, _) => a := StepDecide;
    case Release(_, todo, _) =>
      if todo != [] {
        TodoIsTagged(s, t);
      }
      a := StepRelease;
    case Delete(_, _, _) => a := StepDelete;
    case Remove(cl, _) =>
      var x := CanFetchOrNot(s, cl);
      a := StepRemove(x);
    case Gather(cl, _, _) =>
      var x := CanFetchOrNot(s, cl);
      a := StepGather(x);
    case Populate(_, _) => a := StepPopulateFails;
    case Carved(_, _, _, _) => a := StepCarved;
    case Starved(cl, _) =>
      var x := CanFetchOrNot(s, cl);
      a := StepStarved(x);
  }

  /** Freedom from deadlock: a thread inside a central operation can go on, or it waits for a lock
      whose owner can go on. */
  lemma NoDeadlock(c: Config, run: seq<State>, i: int, t: int) returns (u: int, a: Action)
    requires ValidConfig(c) && Run(c, run) && 0 <= i < |run|
    requires 0 <= t < |run[i].threads| && !run[i].threads[t].pc.Idle?
    ensures Enabled(c, run[i], u, a)
    ensures u == t || (Needs(run[i].threads[t].pc).Some? && Needs(run[i].threads[t].pc).value in run[i].owner
                       && u == run[i].owner[Needs(run[i].threads[t].pc).value])
  {
    RunIsSound(c, run, i);
    var s := run[i];
    var pc := s.threads[t].pc;
    assert PcOk(c, pc);
    u := t;
    if Ready(s, t) {
      a := LockHolderGoesOn(c, s, t);
    } else if pc.Fetched? {
      a := StepHandOut;
    } else if pc.Store? {
      a := StepStore;
    } else if Needs(pc).value in s.owner {
      u := s.owner[Needs(pc).value];
      assert Holds(s, u, Needs(pc).value);
      a := LockHolderGoesOn(c, s, u);
    } else {
      a := Acquire;
    }
  }
}
