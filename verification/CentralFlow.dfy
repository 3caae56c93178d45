/** In which order the central operations go.  A fetch comes back empty-handed only after the page heap
    has given nothing, and whoever finds the locks free gets an object; a batch goes back to its spans
    only after its class has tried, first gently and then by force, to win a cache entry
    (central_freelist.cc, RemoveRange and InsertRange). */
module CentralFlow {
  import opened CentralState
  import opened CentralLocks
  import opened CentralPlaces
  import opened CentralRuns

  // ----- What every step does to a fetch -----

  /** A thread that goes from `pc` to `pc'` in state `s` has fetched an entry of the transfer cache, or
      all it wanted from the spans, or all there was. */
  ghost predicate EndsFetch(c: Config, s: State, pc: Pc, pc': Pc)
    requires pc'.Fetched?
  {
    var cl := pc'.cl;
    0 <= cl < |s.central| && cl < |c.batch| &&
    match pc
    case Remove(cl', n) =>
      cl' == cl && n == c.batch[cl] && s.central[cl].slots != [] && pc'.got == Last(s.central[cl]) && pc'.got != []
    case Gather(cl', n, got) =>
      cl' == cl && pc'.got == got != [] && (|got| == n || s.central[cl].nonempty == {})
    case Starved(cl', _) => cl' == cl && pc'.got == [] && s.central[cl].nonempty == {}
    case _ => false
  }

  /** How a thread can come to fetch, to ask the page heap, and to have been refused. */
  ghost predicate FetchOrder(c: Config, s: State, pc: Pc, pc': Pc, a: Action) {
    && (pc'.Fetched? ==> EndsFetch(c, s, pc, pc'))
    && (pc'.Starved? ==> a == StepPopulateFails && pc == Populate(pc'.cl, pc'.n))
    && (pc'.Populate? ==> pc == Remove(pc'.cl, pc'.n) && NothingToFetch(s, pc'.cl))
    && (pc'.Gather? ==> |pc'.got| > if pc.Gather? then |pc.got| else 0)
    && (pc.Fetched? ==> if pc.got == [] then pc' == Idle else pc' == Store(pc.cl, pc.got[1..]))
  }

  /** No entry of the transfer cache is free, or every entry the class may have is in use. */
  ghost predicate Full(s: State, cl: int) {
    0 <= cl < |s.central| && |s.central[cl].slots| >= s.central[cl].cacheSize
  }

  ghost predicate AtCap(c: Config, s: State, cl: int) {
    0 <= cl < |s.central| && cl < |c.maxSize| && s.central[cl].cacheSize == c.maxSize[cl]
  }

  /** How a thread can come to look for an entry to evict, and to give its chain up. */
  ghost predicate InsertOrder(c: Config, s: State, pc: Pc, pc': Pc) {
    match pc'
    case Evict(cl, chain, force) =>
      if force then pc == Evict(cl, chain, false) || pc == Decide(cl, chain, false, false)
      else pc == Insert(cl, chain) && ClassIn(c, cl) && |chain| == c.batch[cl] && Full(s, cl) && !AtCap(c, s, cl)
    case Shrink(cl, chain, force, victim) => pc == Evict(cl, chain, force) && victim != cl
    case Decide(cl, chain, force, won) =>
      || (pc.Shrink? && pc == Shrink(cl, chain, force, pc.victim)
          && (won <==> 0 <= pc.victim < |s.central| && !Full(s, pc.victim)))
      || (won && pc.Release? && pc.todo == [] && pc.after == Resume(cl, chain, force))
    case Release(held, todo, after) =>
      || pc == Delete(held, todo, after)
      || (pc.Release? && pc.held == held && pc.after == after && pc.todo != [] && pc.todo[1..] == todo)
      || (after.Done? && pc == Insert(held, todo) && ClassIn(c, held)
          && (|todo| != c.batch[held] || (Full(s, held) && AtCap(c, s, held))))
      || (after.Done? && (pc == Evict(held, todo, true) || pc == Decide(held, todo, true, false)))
      || (after.Done? && pc.Decide? && pc == Decide(held, todo, pc.force, true) && AtCap(c, s, held))
      || (after.Resume? && pc == Shrink(after.cl, after.chain, true, held) && Full(s, held) && after.force)
    case Delete(held, todo, after) =>
      pc.Release? && pc.held == held && pc.after == after && pc.todo != [] && pc.todo[1..] == todo
    case _ => true
  }

  lemma RemoveInOrder(c: Config, s: State, t: int, x: int)
    requires ValidConfig(c) && Enabled(c, s, t, StepRemove(x)) && PcOk(c, s.threads[t].pc)
    requires CacheOk(c, s.central[s.threads[t].pc.cl], s.threads[t].pc.cl)
    ensures FetchOrder(c, s, s.threads[t].pc, Do(c, s, t, StepRemove(x)).threads[t].pc, StepRemove(x))
  {}

  lemma GatherInOrder(c: Config, s: State, t: int, x: int)
    requires Enabled(c, s, t, StepGather(x)) && PcOk(c, s.threads[t].pc)
    ensures FetchOrder(c, s, s.threads[t].pc, Do(c, s, t, StepGather(x)).threads[t].pc, StepGather(x))
  {}

  lemma StarvedInOrder(c: Config, s: State, t: int, x: int)
    requires Enabled(c, s, t, StepStarved(x)) && PcOk(c, s.threads[t].pc)
    ensures FetchOrder(c, s, s.threads[t].pc, Do(c, s, t, StepStarved(x)).threads[t].pc, StepStarved(x))
  {}

  lemma CarvedInOrder(c: Config, s: State, t: int)
    requires Enabled(c, s, t, StepCarved) && PcOk(c, s.threads[t].pc)
    ensures FetchOrder(c, s, s.threads[t].pc, Do(c, s, t, StepCarved).threads[t].pc, StepCarved)
  {}

  predicate OfInsert(a: Action) {
    a.StepInsert? || a.StepEvictNone? || a.StepEvict? || a.StepShrink? || a.StepDecide? || a.StepRelease? || a.StepDelete?
  }

  predicate OutsideFetch(pc: Pc) {
    !pc.Fetched? && !pc.Starved? && !pc.Populate? && !pc.Gather?
  }

  lemma InsertStays(c: Config, s: State, t: int)
    requires Ready(s, t) && s.threads[t].pc.Insert? && 0 <= s.threads[t].pc.cl < |s.central| == |c.batch| == |c.maxSize|
    requires CacheOk(c, s.central[s.threads[t].pc.cl], s.threads[t].pc.cl)
    ensures |Inserted(c, s, t).threads| == |s.threads| && OutsideFetch(Inserted(c, s, t).threads[t].pc)
    ensures InsertOrder(c, s, s.threads[t].pc, Inserted(c, s, t).threads[t].pc)
  {}

  lemma EvictStays(c: Config, s: State, t: int, victim: int)
    requires Ready(s, t) && s.threads[t].pc.Evict? && ClassIn(c, s.threads[t].pc.cl)
    ensures |NotEvicted(s, t).threads| == |Evicted(s, t, victim).threads| == |s.threads|
    ensures OutsideFetch(NotEvicted(s, t).threads[t].pc) && OutsideFetch(Evicted(s, t, victim).threads[t].pc)
    ensures InsertOrder(c, s, s.threads[t].pc, NotEvicted(s, t).threads[t].pc)
    ensures victim != s.threads[t].pc.cl ==> InsertOrder(c, s, s.threads[t].pc, Evicted(s, t, victim).threads[t].pc)
  {}

  lemma ShrinkStays(c: Config, s: State, t: int)
    requires Ready(s, t) && s.threads[t].pc.Shrink? && 0 <= s.threads[t].pc.victim < |s.central|
    requires CacheOk(c, s.central[s.threads[t].pc.victim], s.threads[t].pc.victim)
    ensures |Shrunk(s, t).threads| == |s.threads| && OutsideFetch(Shrunk(s, t).threads[t].pc)
    ensures InsertOrder(c, s, s.threads[t].pc, Shrunk(s, t).threads[t].pc)
  {
    ShrunkTo(s, t);
    hide Shrunk, CacheOk;
  }

  /** Where shrinking leads. */
  lemma ShrunkTo(s: State, t: int)
    requires Ready(s, t) && s.threads[t].pc.Shrink? && 0 <= s.threads[t].pc.victim < |s.central|
    ensures var pc, q := s.threads[t].pc, s.central[s.threads[t].pc.victim];
      && |Shrunk(s, t).threads| == |s.threads|
      && Shrunk(s, t).threads[t].pc ==
           if q.cacheSize != 0 && |q.slots| == q.cacheSize && pc.force
           then Release(pc.victim, Last(q), Resume(pc.cl, pc.chain, true))
           else Decide(pc.cl, pc.chain, pc.force, q.cacheSize != 0 && |q.slots| != q.cacheSize)
  {}

  lemma DecideStays(c: Config, s: State, t: int)
    requires Ready(s, t) && s.threads[t].pc.Decide? && 0 <= s.threads[t].pc.cl < |s.central| == |c.batch| == |c.maxSize|
    requires CacheOk(c, s.central[s.threads[t].pc.cl], s.threads[t].pc.cl)
    ensures |Decided(c, s, t).threads| == |s.threads| && OutsideFetch(Decided(c, s, t).threads[t].pc)
    ensures InsertOrder(c, s, s.threads[t].pc, Decided(c, s, t).threads[t].pc)
  {}

  lemma ReleaseStays(c: Config, s: State, t: int)
    requires Ready(s, t) && s.threads[t].pc.Release? && 0 <= s.threads[t].pc.held < |s.central|
    requires s.threads[t].pc.todo != [] ==>
      s.threads[t].pc.todo[0] in s.home && s.home[s.threads[t].pc.todo[0]].span in s.spans
    ensures |Released(s, t).threads| == |s.threads| && OutsideFetch(Released(s, t).threads[t].pc)
    ensures InsertOrder(c, s, s.threads[t].pc, Released(s, t).threads[t].pc)
  {}

  /** The steps of an insertion go in order and do not lead into a fetch. */
  lemma InsertInOrder(c: Config, s: State, t: int, a: Action)
    requires Enabled(c, s, t, a) && OfInsert(a) && |Do(c, s, t, a).threads| == |s.threads|
    requires ValidConfig(c) && CachesOk(c, s) && PcOk(c, s.threads[t].pc) && |s.central| == |c.batch|
    ensures !s.threads[t].pc.Fetched? && OutsideFetch(Do(c, s, t, a).threads[t].pc)
    ensures InsertOrder(c, s, s.threads[t].pc, Do(c, s, t, a).threads[t].pc)
  {
    hide Inserted, NotEvicted, Evicted, Shrunk, Decided, Released, CacheOk, InsertOrder;
    if a.StepInsert? {
      InsertStays(c, s, t);
    } else if a.StepEvictNone? {
      EvictStays(c, s, t, 0);
    } else if a.StepEvict? {
      EvictStays(c, s, t, a.victim);
    } else if a.StepShrink? {
      ShrinkStays(c, s, t);
    } else if a.StepDecide? {
      DecideStays(c, s, t);
    } else if a.StepRelease? {
      ReleaseStays(c, s, t);
    } else {
      DeleteStays(c, s, t);
    }
  }

  lemma DeleteStays(c: Config, s: State, t: int)
    requires Ready(s, t) && s.threads[t].pc.Delete?
    ensures |Deleted(s, t).threads| == |s.threads| && OutsideFetch(Deleted(s, t).threads[t].pc)
    ensures InsertOrder(c, s, s.threads[t].pc, Deleted(s, t).threads[t].pc)
  {}

  predicate OutsideInsert(pc: Pc) {
    !pc.Evict? && !pc.Shrink? && !pc.Decide? && !pc.Release? && !pc.Delete?
  }

  lemma GatheredStays(s: State, t: int, cl: int, n: int, x: int, got: seq<Obj>)
    requires 0 <= t < |s.threads| && CanFetch(s, cl, x)
    ensures var s' := Gathered(s, t, cl, n, x, got); |s'.threads| == |s.threads| && s'.threads[t].pc.Gather?
  {
  }

  lemma FetchingStays(c: Config, s: State, t: int, a: Action)
    requires Enabled(c, s, t, a) && (a.StepRemove? || a.StepGather? || a.StepStarved? || a.StepCarved?)
    requires |Do(c, s, t, a).threads| == |s.threads|
    ensures OutsideInsert(Do(c, s, t, a).threads[t].pc)
  {
    var pc := s.threads[t].pc;
    if a.StepCarved? {
      GatheredStays(Joins(s, t), t, pc.cl, pc.n, pc.span, []);
    } else if CanFetch(s, pc.cl, a.x) {
      GatheredStays(s, t, pc.cl, pc.n, a.x, if a.StepGather? then pc.got else []);
    }
    hide Gathered;
  }

  /** The steps of a fetch do not lead into an insertion. */
  lemma FetchStays(c: Config, s: State, t: int, a: Action)
    requires Enabled(c, s, t, a) && !OfInsert(a) && |Do(c, s, t, a).threads| == |s.threads|
    ensures s.threads[t].pc == Do(c, s, t, a).threads[t].pc || OutsideInsert(Do(c, s, t, a).threads[t].pc)
  {
    if a.StepRemove? || a.StepGather? || a.StepStarved? || a.StepCarved? {
      FetchingStays(c, s, t, a);
    } else {
      hide Adopt, Without, FreshSpan, CanFetch, NothingToFetch;
    }
  }

  lemma OtherInOrder(c: Config, s: State, t: int, a: Action)
    requires Enabled(c, s, t, a) && !OfInsert(a)
    requires !a.StepRemove? && !a.StepGather? && !a.StepStarved? && !a.StepCarved?
    ensures var pc, pc' := s.threads[t].pc, Do(c, s, t, a).threads[t].pc; pc == pc' || FetchOrder(c, s, pc, pc', a)
  {
    hide Adopt, Without;
  }

  /** Only the step of the thread itself moves it on, and it goes on in order. */
  lemma StepInOrder(c: Config, s: State, t: int, a: Action, u: int)
    requires ValidConfig(c) && Sound(c, s) && Enabled(c, s, t, a) && 0 <= u < |s.threads|
    ensures |Do(c, s, t, a).threads| == |s.threads|
    ensures var pc, pc' := s.threads[u].pc, Do(c, s, t, a).threads[u].pc;
      pc == pc' || (u == t && FetchOrder(c, s, pc, pc', a) && InsertOrder(c, s, pc, pc'))
  {
    assert PcOk(c, s.threads[t].pc) && |s.central| == |c.batch|;
    hide Do, EndsFetch, ValidConfig, InsertOrder;
    StepIsLocal(c, s, t, a);
    assert OnlyThread(s, Do(c, s, t, a), t);
    hide Local, Shaped, LocksOk, WithinBudget, Placed, PcOk;
    if u == t {
      OwnInOrder(c, s, t, a);
    }
  }

  lemma OwnInOrder(c: Config, s: State, t: int, a: Action)
    requires ValidConfig(c) && CachesOk(c, s) && Enabled(c, s, t, a) && PcOk(c, s.threads[t].pc)
    requires |Do(c, s, t, a).threads| == |s.threads| && |s.central| == |c.batch|
    ensures var pc, pc' := s.threads[t].pc, Do(c, s, t, a).threads[t].pc;
      pc == pc' || (FetchOrder(c, s, pc, pc', a) && InsertOrder(c, s, pc, pc'))
  {
    if !OfInsert(a) {
      FetchStays(c, s, t, a);
    }
    hide Do, ValidConfig, PcOk, CacheOk, CanFetch, NothingToFetch, FreshSpan, EndsFetch;
    if a.StepRemove? {
      RemoveInOrder(c, s, t, a.x);
    } else if a.StepGather? {
      GatherInOrder(c, s, t, a.x);
    } else if a.StepStarved? {
      StarvedInOrder(c, s, t, a.x);
    } else if a.StepCarved? {
      CarvedInOrder(c, s, t);
    } else if OfInsert(a) {
      InsertInOrder(c, s, t, a);
    } else {
      OtherInOrder(c, s, t, a);
    }
  }

  // ----- Whole runs -----

  /** Between states `j` and `i` of a run, the page heap has given thread `t` nothing for class `cl`, and
      after that there was nothing to fetch. */
  ghost predicate Failed(run: seq<State>, t: int, cl: int, j: int, i: int) {
    && 0 <= j < i < |run| && 0 <= t < |run[j].threads| && |run[j + 1].threads| == |run[j].threads|
    && run[j].threads[t].pc.Populate? && run[j].threads[t].pc.cl == cl
    && run[j + 1].threads[t].pc == Starved(cl, run[j].threads[t].pc.n)
    && exists k :: j < k < i && NothingToFetch(run[k], cl)
  }

  /** The step from state `i` to the next, as far as thread `u` is concerned. */
  lemma RunStep(c: Config, run: seq<State>, i: int, u: int) returns (a: Action)
    requires ValidConfig(c) && Run(c, run) && 0 <= i < |run| - 1 && 0 <= u < c.threads
    ensures |run[i].threads| == |run[i + 1].threads| == c.threads
    ensures var pc, pc' := run[i].threads[u].pc, run[i + 1].threads[u].pc;
      pc == pc' || (FetchOrder(c, run[i], pc, pc', a) && InsertOrder(c, run[i], pc, pc'))
  {
    hide Sound, Enabled, Do, Init, ValidConfig, FetchOrder, InsertOrder;
    RunIsSound(c, run, i);
    assert |run[i].threads| == c.threads by { SoundThreads(c, run[i]); }
    assert Next(c, run[i], run[i + 1]);
    var t, b :| Enabled(c, run[i], t, b) && run[i + 1] == Do(c, run[i], t, b);
    a := b;
    StepInOrder(c, run[i], t, a, u);
  }

  lemma SoundThreads(c: Config, s: State)
    requires Sound(c, s)
    ensures |s.threads| == c.threads
  {}

  lemma FirstIsIdle(c: Config, run: seq<State>, t: int)
    requires Run(c, run) && 0 <= t < c.threads
    ensures |run[0].threads| == c.threads && run[0].threads[t].pc == Idle
  {}

  /** Who is starved has been refused by the page heap before. */
  lemma {:induction false} StarvedAfterRefusal(c: Config, run: seq<State>, i: int, t: int) returns (j: int)
    requires ValidConfig(c) && Run(c, run) && 0 <= i < |run| && 0 <= t < c.threads && |run[i].threads| == c.threads
    requires run[i].threads[t].pc.Starved?
    ensures 0 <= j < i && |run[j].threads| == |run[j + 1].threads| == c.threads
    ensures var pc := run[i].threads[t].pc;
      run[j].threads[t].pc == Populate(pc.cl, pc.n) && run[j + 1].threads[t].pc == pc
  {
    hide Run, Init, ValidConfig, EndsFetch, InsertOrder;
    FirstIsIdle(c, run, t);
    var a := RunStep(c, run, i - 1, t);
    if run[i - 1].threads[t].pc == run[i].threads[t].pc {
      j := StarvedAfterRefusal(c, run, i - 1, t);
    } else {
      j := i - 1;
    }
  }

  /** Whoever comes back from a central list empty-handed has been refused by the page heap, and has
      found nothing after that. */
  lemma {:induction false} EmptyHandedAfterRefusal(c: Config, run: seq<State>, i: int, t: int)
    requires ValidConfig(c) && Run(c, run) && 0 <= i < |run| && 0 <= t < c.threads && |run[i].threads| == c.threads
    requires run[i].threads[t].pc.Fetched? && run[i].threads[t].pc.got == []
    ensures exists j :: Failed(run, t, run[i].threads[t].pc.cl, j, i)
  {
    hide Run, Init, ValidConfig, NothingToFetch, InsertOrder;
    FirstIsIdle(c, run, t);
    var a := RunStep(c, run, i - 1, t);
    var cl := run[i].threads[t].pc.cl;
    if run[i - 1].threads[t].pc == run[i].threads[t].pc {
      EmptyHandedAfterRefusal(c, run, i - 1, t);
      var j :| Failed(run, t, cl, j, i - 1);
      assert Failed(run, t, cl, j, i);
    } else {
      var j := StarvedAfterRefusal(c, run, i - 1, t);
      assert NothingToFetch(run[i - 1], cl) by { NothingMeans(run[i - 1], cl); }
      assert Failed(run, t, cl, j, i);
    }
  }

  lemma NothingMeans(s: State, cl: int)
    ensures 0 <= cl < |s.central| && s.central[cl].nonempty == {} ==> NothingToFetch(s, cl)
  {}

  /** Between states `j` and `i` of a run, thread `t` has failed to win an entry for its chain without
      force, and then looked for one by force. */
  ghost predicate Forced(run: seq<State>, t: int, cl: int, chain: seq<Obj>, j: int, i: int) {
    && 0 <= j < i < |run| && 0 <= t < |run[j].threads| && |run[j + 1].threads| == |run[j].threads|
    && (run[j].threads[t].pc == Evict(cl, chain, false) || run[j].threads[t].pc == Decide(cl, chain, false, false))
    && run[j + 1].threads[t].pc == Evict(cl, chain, true)
  }

  /** The thread is looking, by force, for an entry for this chain. */
  ghost predicate Forcing(pc: Pc, cl: int, chain: seq<Obj>) {
    || pc == Evict(cl, chain, true)
    || (pc.Shrink? && pc == Shrink(cl, chain, true, pc.victim))
    || (pc.Decide? && pc == Decide(cl, chain, true, pc.won))
    || (pc.Release? && pc.after == Resume(cl, chain, true))
    || (pc.Delete? && pc.after == Resume(cl, chain, true))
  }

  /** Who is forcing was forcing before, or has just failed without force. */
  lemma ForcingBefore(c: Config, s: State, pc: Pc, pc': Pc, cl: int, chain: seq<Obj>)
    requires InsertOrder(c, s, pc, pc') && Forcing(pc', cl, chain)
    ensures
      || Forcing(pc, cl, chain)
      || (pc' == Evict(cl, chain, true) && (pc == Evict(cl, chain, false) || pc == Decide(cl, chain, false, false)))
  {}

  lemma NotIdle(pc: Pc, cl: int, chain: seq<Obj>)
    requires Forcing(pc, cl, chain)
    ensures pc != Idle
  {}

  /** Force is used only after the same chain has failed without it. */
  lemma {:induction false} ForceComesSecond(c: Config, run: seq<State>, i: int, t: int, cl: int, chain: seq<Obj>)
    requires ValidConfig(c) && Run(c, run) && 0 <= i < |run| && 0 <= t < c.threads && |run[i].threads| == c.threads
    requires Forcing(run[i].threads[t].pc, cl, chain)
    ensures exists j :: Forced(run, t, cl, chain, j, i)
  {
    hide Run, Init, ValidConfig, InsertOrder, FetchOrder, Forcing;
    FirstIsIdle(c, run, t);
    NotIdle(run[i].threads[t].pc, cl, chain);
    var a := RunStep(c, run, i - 1, t);
    var pc, pc' := run[i - 1].threads[t].pc, run[i].threads[t].pc;
    if pc != pc' {
      ForcingBefore(c, run[i - 1], pc, pc', cl, chain);
    }
    if Forcing(pc, cl, chain) {
      ForceComesSecond(c, run, i - 1, t, cl, chain);
      var j :| Forced(run, t, cl, chain, j, i - 1);
      assert Forced(run, t, cl, chain, j, i);
    } else {
      assert Forced(run, t, cl, chain, i - 1, i);
    }
  }

  /** A batch that could be cached goes back to its spans only after it has failed to win an entry
      without force and then by force. */
  lemma GivenUpOnlyAfterForce(c: Config, run: seq<State>, i: int, t: int, cl: int, chain: seq<Obj>)
    requires ValidConfig(c) && Run(c, run) && 0 <= i < |run| - 1 && 0 <= t < c.threads
    requires |run[i].threads| == |run[i + 1].threads| == c.threads
    requires run[i].threads[t].pc.Evict? || run[i].threads[t].pc.Decide?
    requires run[i + 1].threads[t].pc == Release(cl, chain, Done)
    ensures AtCap(c, run[i], cl) || exists j :: Forced(run, t, cl, chain, j, i)
  {
    hide Run, Init, ValidConfig, FetchOrder, AtCap, Full, Forced;
    var a := RunStep(c, run, i, t);
    if Forcing(run[i].threads[t].pc, cl, chain) {
      ForceComesSecond(c, run, i, t, cl, chain);
    }
  }

  // ----- An allocation can always succeed -----

  /** Thread `t` alone gets from `s` to `s'` in `n` steps. */
  ghost predicate Reaches(c: Config, t: int, s: State, s': State, n: nat)
    decreases n
  {
    if n == 0 then s == s'
    else exists a :: Enabled(c, s, t, a) && Reaches(c, t, Do(c, s, t, a), s', n - 1)
  }

  /** One object of class `cl` has come to the application, and none has gone. */
  ghost predicate GotOne(s: State, s': State, cl: int) {
    && s'.app != [] && s'.app[1..] == s.app
    && s'.app[0] in s'.home && s'.home[s'.app[0]].cl == cl
  }

  /** Thread `t` at `pc` can bring the application an object in at most `n` steps. */
  ghost predicate CanGet(c: Config, t: int, s: State, cl: int, n: nat) {
    exists s', k: nat :: k <= n && Reaches(c, t, s, s', k) && GotOne(s, s', cl)
  }

  lemma StepGets(c: Config, t: int, s: State, a: Action, cl: int, n: nat)
    requires Enabled(c, s, t, a) && Do(c, s, t, a).app == s.app && CanGet(c, t, Do(c, s, t, a), cl, n)
    ensures CanGet(c, t, s, cl, n + 1)
  {
    hide Enabled, Do;
    var s1 := Do(c, s, t, a);
    var s', k: nat :| k <= n && Reaches(c, t, s1, s', k) && GotOne(s1, s', cl);
    assert Reaches(c, t, s, s', k + 1);
    assert GotOne(s, s', cl);
  }

  /** What a thread has in hand is of the class it fetched. */
  lemma InHand(c: Config, s: State, t: int)
    requires Sound(c, s) && 0 <= t < |s.threads| && s.threads[t].pc.Fetched? && s.threads[t].pc.got != []
    ensures var o := s.threads[t].pc.got[0]; o in s.home && s.home[o].cl == s.threads[t].pc.cl
  {
    var o := s.threads[t].pc.got[0];
    assert In(s, Load(t), o);
    assert Tagged(s, Load(t), o);
  }

  lemma FetchedGets(c: Config, s: State, t: int)
    requires Sound(c, s) && 0 <= t < |s.threads| && t < |s.lists| && s.threads[t].pc.Fetched? && s.threads[t].pc.got != []
    ensures CanGet(c, t, s, s.threads[t].pc.cl, 1)
  {
    hide Sound;
    InHand(c, s, t);
    var s' := Do(c, s, t, StepHandOut);
    assert Reaches(c, t, s', s', 0);
    assert Reaches(c, t, s, s', 1);
    assert GotOne(s, s', s.threads[t].pc.cl);
  }

  /** Whoever has gathered one object and wanted no more can bring it. */
  lemma GatheredGets(c: Config, s: State, t: int, cl: int)
    requires ValidConfig(c) && Sound(c, s) && Ready(s, t) && t < |s.lists|
    requires s.threads[t].pc.Gather? && s.threads[t].pc.cl == cl && |s.threads[t].pc.got| == s.threads[t].pc.n == 1
    requires 0 <= cl < |s.central|
    ensures CanGet(c, t, s, cl, 2)
  {
    hide Sound, CanGet, ValidConfig;
    SoundParts(c, s);
    var x := CanFetchOrNot(s, cl);
    StepKeepsSound(c, s, t, StepGather(x));
    FetchedGets(c, Do(c, s, t, StepGather(x)), t);
    StepGets(c, t, s, StepGather(x), cl, 1);
  }

  /** Something above all members of a set. */
  lemma {:induction false} AboveAll(members: set<int>) returns (x: int)
    ensures x !in members && forall y :: y in members ==> y < x
    decreases members
  {
    if members == {} {
      x := 0;
    } else {
      Arith.HasMember(members);
      var y :| y in members;
      x := AboveAll(members - {y});
      x := if x > y then x else y + 1;
      assert forall z :: z in members ==> z == y || z in members - {y};
    }
  }

  lemma FreshExists(s: State) returns (x: int, o: Obj)
    ensures FreshSpan(s, x, [o])
  {
    var used := set q | q in s.home :: s.home[q].span;
    x := AboveAll(s.spans.Keys + used);
    o := AboveAll(s.home.Keys);
    assert x !in s.spans.Keys + used && o !in s.home.Keys;
    forall q | q in s.home
      ensures s.home[q].span != x
    {
      assert s.home[q].span in used;
    }
  }

  lemma CarvedGathers(c: Config, s: State, t: int, cl: int)
    requires Ready(s, t) && t < |s.lists| && 0 <= cl < |s.central| && s.threads[t].pc.Carved? && s.threads[t].pc.cl == cl
    requires s.threads[t].pc.n == 1 && s.threads[t].pc.objects != []
    ensures Enabled(c, s, t, StepCarved)
    ensures var s' := Do(c, s, t, StepCarved);
      && s'.app == s.app && s'.lists == s.lists && |s'.central| == |s.central| && Ready(s', t)
      && s'.threads[t].pc.Gather? && s'.threads[t].pc.cl == cl && |s'.threads[t].pc.got| == s'.threads[t].pc.n == 1
  {}

  /** A span that has been carved lets its thread go on to an object. */
  lemma CarvedGets(c: Config, s: State, t: int, cl: int)
    requires ValidConfig(c) && Sound(c, s) && 0 <= t < |s.threads| && t < |s.lists| && !s.threads[t].locked
    requires s.threads[t].pc.Carved? && s.threads[t].pc.cl == cl && s.threads[t].pc.n == 1
    requires List(cl) !in s.owner
    ensures CanGet(c, t, s, cl, 4)
  {
    assert PcOk(c, s.threads[t].pc) && |s.central| == |c.batch|;
    StepKeepsSound(c, s, t, Acquire);
    var s1 := Do(c, s, t, Acquire);
    assert s1.threads[t].pc == s.threads[t].pc && Ready(s1, t) && s1.lists == s.lists && s1.central == s.central;
    assert Enabled(c, s, t, Acquire) && s1.app == s.app;
    hide Sound, CanGet, ValidConfig, Do, Enabled;
    CarvedGathers(c, s1, t, cl);
    StepKeepsSound(c, s1, t, StepCarved);
    GatheredGets(c, Do(c, s1, t, StepCarved), t, cl);
    StepGets(c, t, s1, StepCarved, cl, 2);
    StepGets(c, t, s, Acquire, cl, 3);
  }

  /** A thread that found nothing gets a new span from the page heap, if that has one. */
  lemma PopulateGets(c: Config, s: State, t: int, cl: int)
    requires ValidConfig(c) && Sound(c, s) && 0 <= t < |s.threads| && t < |s.lists| && !s.threads[t].locked
    requires s.threads[t].pc == Populate(cl, 1)
    requires List(cl) !in s.owner && PageHeapLock !in s.owner
    ensures CanGet(c, t, s, cl, 6)
  {
    hide Sound, CanGet, ValidConfig;
    StepKeepsSound(c, s, t, Acquire);
    var s1 := Do(c, s, t, Acquire);
    var x, o := FreshExists(s1);
    StepKeepsSound(c, s1, t, StepPopulate(x, [o]));
    CarvedGets(c, Do(c, s1, t, StepPopulate(x, [o])), t, cl);
    StepGets(c, t, s1, StepPopulate(x, [o]), cl, 4);
    StepGets(c, t, s, Acquire, cl, 5);
  }

  /** Where the first step of a fetch of one object leads. */
  lemma RemoveLeads(c: Config, s: State, t: int, x: int, cl: int)
    requires ValidConfig(c) && Ready(s, t) && t < |s.lists| && s.threads[t].pc == Remove(cl, 1)
    requires 0 <= cl < |s.central| && CacheOk(c, s.central[cl], cl) && (CanFetch(s, cl, x) || NothingToFetch(s, cl))
    ensures Enabled(c, s, t, StepRemove(x))
    ensures var s' := Do(c, s, t, StepRemove(x)); |s'.threads| == |s.threads| && var pc := s'.threads[t].pc;
      && s'.app == s.app && s'.lists == s.lists && |s'.central| == |s.central|
      && (|| (pc.Fetched? && pc.cl == cl && pc.got != [])
          || (pc == Populate(cl, 1) && !s'.threads[t].locked && s'.owner == s.owner - {List(cl)})
          || (pc.Gather? && pc.cl == cl && |pc.got| == pc.n == 1 && Ready(s', t)))
  {}

  lemma RemoveGets(c: Config, s: State, t: int, cl: int)
    requires ValidConfig(c) && Sound(c, s) && Ready(s, t) && t < |s.lists|
    requires s.threads[t].pc == Remove(cl, 1) && PageHeapLock !in s.owner
    ensures CanGet(c, t, s, cl, 7)
  {
    assert PcOk(c, s.threads[t].pc) && |s.central| == |c.batch|;
    assert CacheOk(c, s.central[cl], cl);
    hide Sound, CanGet, ValidConfig, Shaped, CachesOk, CacheOk, Do, Enabled, CanFetch, NothingToFetch;
    SoundParts(c, s);
    var x := CanFetchOrNot(s, cl);
    RemoveLeads(c, s, t, x, cl);
    StepKeepsSound(c, s, t, StepRemove(x));
    var s' := Do(c, s, t, StepRemove(x));
    if s'.threads[t].pc.Fetched? {
      FetchedGets(c, s', t);
      MoreSteps(c, t, s', cl, 1, 6);
    } else if s'.threads[t].pc.Populate? {
      PopulateGets(c, s', t, cl);
    } else {
      GatheredGets(c, s', t, cl);
      MoreSteps(c, t, s', cl, 2, 6);
    }
    StepGets(c, t, s, StepRemove(x), cl, 6);
  }

  lemma MoreSteps(c: Config, t: int, s: State, cl: int, n: nat, n': nat)
    requires CanGet(c, t, s, cl, n) && n <= n'
    ensures CanGet(c, t, s, cl, n')
  {}

  /** An idle thread that finds the locks free gets an object of any class, by steps of its own: from
      its own list, from the transfer cache, from a span, or from a new span. */
  lemma AllocationSucceeds(c: Config, s: State, t: int, cl: int)
    requires ValidConfig(c) && Sound(c, s) && 0 <= t < |s.threads| && s.threads[t] == Thread(Idle, false)
    requires ClassIn(c, cl) && List(cl) !in s.owner && PageHeapLock !in s.owner
    ensures CanGet(c, t, s, cl, 9)
  {
    assert |s.lists| == |s.threads| && |s.lists[t]| == |c.batch| && 1 <= c.batch[cl];
    hide Sound, CanGet, ValidConfig, Shaped;
    if s.lists[t][cl] == [] {
      var a := StartRemove(cl, 1);
      StepKeepsSound(c, s, t, a);
      var s1 := Do(c, s, t, a);
      StepKeepsSound(c, s1, t, Acquire);
      RemoveGets(c, Do(c, s1, t, Acquire), t, cl);
      StepGets(c, t, s1, Acquire, cl, 7);
      StepGets(c, t, s, a, cl, 8);
    } else {
      ListGets(c, s, t, cl);
      MoreSteps(c, t, s, cl, 1, 9);
    }
  }

  lemma ListGets(c: Config, s: State, t: int, cl: int)
    requires Sound(c, s) && 0 <= t < |s.threads| && t < |s.lists| && s.threads[t].pc.Idle?
    requires 0 <= cl < |s.lists[t]| && s.lists[t][cl] != []
    ensures CanGet(c, t, s, cl, 1)
  {
    hide Sound;
    OnList(c, s, t, cl);
    var s' := Do(c, s, t, Allocate(cl));
    assert Reaches(c, t, s', s', 0);
    assert Reaches(c, t, s, s', 1);
    assert GotOne(s, s', cl);
  }

  lemma OnList(c: Config, s: State, t: int, cl: int)
    requires Sound(c, s) && 0 <= t < |s.lists| && 0 <= cl < |s.lists[t]| && s.lists[t][cl] != []
    ensures var o := s.lists[t][cl][0]; o in s.home && s.home[o].cl == cl
  {
    var o := s.lists[t][cl][0];
    assert In(s, Cached(t, cl), o);
    assert Tagged(s, Cached(t, cl), o);
  }

  // ----- Runs that allocate -----

  /** What a thread can reach is the end of a longer run. */
  lemma {:induction false} ReachedByRun(c: Config, t: int, run: seq<State>, s': State, n: nat) returns (run': seq<State>)
    requires Run(c, run) && Reaches(c, t, run[|run| - 1], s', n)
    ensures Run(c, run') && run'[0] == run[0] && run'[|run'| - 1] == s'
    decreases n
  {
    hide Enabled, Do, Init;
    if n == 0 {
      run' := run;
    } else {
      var s := run[|run| - 1];
      var a :| Enabled(c, s, t, a) && Reaches(c, t, Do(c, s, t, a), s', n - 1);
      var longer := run + [Do(c, s, t, a)];
      assert Next(c, s, Do(c, s, t, a));
      assert forall i :: 0 < i < |longer| ==> Next(c, longer[i - 1], longer[i]);
      run' := ReachedByRun(c, t, longer, s', n - 1);
    }
  }

  /** From every initial state, every thread can bring the application an object of every class. */
  lemma SomeRunAllocates(c: Config, s: State, t: int, cl: int) returns (run: seq<State>)
    requires ValidConfig(c) && Init(c, s) && 0 <= t < c.threads && ClassIn(c, cl)
    ensures Run(c, run) && run[0] == s && GotOne(s, run[|run| - 1], cl)
  {
    InitIsSound(c, s);
    assert s.threads[t] == Thread(Idle, false) && s.owner == map[];
    AllocationSucceeds(c, s, t, cl);
    hide Enabled, Do, Init, ValidConfig, Sound;
    var s', k: nat :| k <= 9 && Reaches(c, t, s, s', k) && GotOne(s, s', cl);
    run := ReachedByRun(c, t, [s], s', k);
  }

  /** There is an initial state: one class of objects moved one at a time, and one thread. */
  lemma OneClassOneThread() returns (c: Config, s: State)
    ensures ValidConfig(c) && Init(c, s) && c.threads == 1 && |c.batch| == 1
  {
    c := Config([1], [1], 1, 1);
    s := State([Central({}, {}, 0, 0, [], 1)], map[], map[], [Thread(Idle, false)], [[[]]], [], map[]);
    assert Room(s.central[1..]) == 0;
  }

  /** Some run hands an object to the application. */
  lemma SomeObjectIsHandedOut() returns (c: Config, run: seq<State>)
    ensures ValidConfig(c) && Run(c, run) && run[|run| - 1].app != []
  {
    var s;
    c, s := OneClassOneThread();
    hide Run, Init;
    run := SomeRunAllocates(c, s, 0, 0);
  }
}
