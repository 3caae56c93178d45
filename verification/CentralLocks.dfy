/** Lock ownership, the transfer caches and the shared budget of cache entries, over every step. */
module CentralLocks {
  import opened Options
  import opened CentralState

  ghost predicate ClassIn(c: Config, cl: int) {
    0 <= cl < |c.batch|
  }

  ghost predicate WaitsWithBatch(c: Config, after: After) {
    after.Resume? ==> ClassIn(c, after.cl) && |after.chain| == c.batch[after.cl]
  }

  /** Classes are in range, and whoever competes for a transfer cache entry carries a full batch. */
  ghost predicate PcOk(c: Config, pc: Pc) {
    match pc
    case Idle => true
    case Insert(cl, chain) => ClassIn(c, cl)
    case Evict(cl, chain, _) => ClassIn(c, cl) && |chain| == c.batch[cl]
    case Shrink(cl, chain, _, victim) =>
      ClassIn(c, cl) && ClassIn(c, victim) && victim != cl && |chain| == c.batch[cl]
    case Decide(cl, chain, _, _) => ClassIn(c, cl) && |chain| == c.batch[cl]
    case Release(held, _, after) => ClassIn(c, held) && WaitsWithBatch(c, after)
    case Delete(held, _, after) => ClassIn(c, held) && WaitsWithBatch(c, after)
    case Remove(cl, n) => ClassIn(c, cl) && 1 <= n <= c.batch[cl]
    case Gather(cl, n, got) => ClassIn(c, cl) && 1 <= |got| <= n <= c.batch[cl]
    case Populate(cl, n) => ClassIn(c, cl) && 1 <= n <= c.batch[cl]
    case Carved(cl, n, _, objects) => ClassIn(c, cl) && 1 <= n <= c.batch[cl] && objects != []
    case Starved(cl, n) => ClassIn(c, cl) && 1 <= n <= c.batch[cl]
    case Fetched(cl, got) => ClassIn(c, cl) && |got| <= c.batch[cl]
    case Store(cl, rest) => ClassIn(c, cl) && |rest| < c.batch[cl]
  }

  ghost predicate Shaped(c: Config, s: State) {
    && |s.central| == |c.batch| && |s.threads| == c.threads && |s.lists| == c.threads
    && (forall t :: 0 <= t < |s.lists| ==> |s.lists[t]| == |c.batch|)
    && (forall t :: 0 <= t < |s.threads| ==> PcOk(c, s.threads[t].pc))
    && HomeOk(c, s.home)
  }

  ghost predicate HomeOk(c: Config, home: map<Obj, Tag>) {
    forall o :: o in home ==> ClassIn(c, home[o].cl)
  }

  /** Between no entries and its cap, and every used entry holds exactly one batch. */
  ghost predicate CacheOk(c: Config, q: Central, cl: int) {
    && 0 <= cl < |c.maxSize| && cl < |c.batch|
    && |q.slots| <= q.cacheSize <= c.maxSize[cl]
    && forall i :: 0 <= i < |q.slots| ==> |q.slots[i]| == c.batch[cl]
  }

  ghost predicate CachesOk(c: Config, s: State) {
    forall cl :: 0 <= cl < |s.central| ==> CacheOk(c, s.central[cl], cl)
  }

  // ----- Locks -----

  ghost predicate Holds(s: State, t: int, l: Lock) {
    0 <= t < |s.threads| && s.threads[t].locked && Needs(s.threads[t].pc) == Some(l)
  }

  /** The owner of a lock is the one thread that stands at a point holding it. */
  ghost predicate LocksOk(s: State) {
    && (forall l :: l in s.owner ==> Holds(s, s.owner[l], l))
    && (forall t, l :: Holds(s, t, l) ==> l in s.owner && s.owner[l] == t)
    && (forall t :: 0 <= t < |s.threads| && s.threads[t].locked ==> Needs(s.threads[t].pc).Some?)
  }

  ghost predicate OnlyThread(s: State, s': State, t: int) {
    && 0 <= t < |s.threads| == |s'.threads|
    && forall u :: 0 <= u < |s.threads| && u != t ==> s'.threads[u] == s.threads[u]
  }

  lemma LocksWhenKept(s: State, s': State, t: int)
    requires LocksOk(s) && OnlyThread(s, s', t) && s'.owner == s.owner
    requires s'.threads[t].locked == s.threads[t].locked
    requires s.threads[t].locked ==> Needs(s'.threads[t].pc) == Needs(s.threads[t].pc)
    ensures LocksOk(s')
  {
    forall u, l | Holds(s', u, l) ensures l in s'.owner && s'.owner[l] == u {
      assert Holds(s, u, l);
    }
    forall l | l in s'.owner ensures Holds(s', s'.owner[l], l) {
      assert Holds(s, s.owner[l], l);
    }
  }

  lemma LocksWhenDropped(s: State, s': State, t: int)
    requires LocksOk(s) && OnlyThread(s, s', t) && s.threads[t].locked && !s'.threads[t].locked
    requires s'.owner == s.owner - {Needs(s.threads[t].pc).value}
    ensures LocksOk(s')
  {
    var dropped := Needs(s.threads[t].pc).value;
    assert Holds(s, t, dropped);
    forall u, l | Holds(s', u, l) ensures l in s'.owner && s'.owner[l] == u {
      assert Holds(s, u, l);
    }
    forall l | l in s'.owner ensures Holds(s', s'.owner[l], l) {
      assert Holds(s, s.owner[l], l);
    }
  }

  lemma LocksWhenAcquired(s: State, s': State, t: int)
    requires LocksOk(s) && OnlyThread(s, s', t) && !s.threads[t].locked
    requires s'.threads[t] == Thread(s.threads[t].pc, true) && Needs(s.threads[t].pc).Some?
    requires Needs(s.threads[t].pc).value !in s.owner && s'.owner == s.owner[Needs(s.threads[t].pc).value := t]
    ensures LocksOk(s')
  {
    forall u, l | Holds(s', u, l) ensures l in s'.owner && s'.owner[l] == u {
      assert u != t ==> Holds(s, u, l);
    }
    forall l | l in s'.owner ensures Holds(s', s'.owner[l], l) {
      assert l in s.owner ==> Holds(s, s.owner[l], l);
    }
  }

  /** No thread ever holds two locks, be they two list locks or a list lock and the page heap's. */
  lemma OneLockEach(s: State, t: int, l: Lock, m: Lock)
    requires LocksOk(s) && l in s.owner && m in s.owner && s.owner[l] == t && s.owner[m] == t
    ensures l == m
  {
    assert Holds(s, t, l) && Holds(s, t, m);
  }

  // ----- The budget of transfer cache entries -----

  /** An entry taken from a victim and not yet given to the winner. */
  ghost function Token(pc: Pc): int {
    match pc
    case Decide(_, _, _, won) => if won then 1 else 0
    case Release(_, _, after) => if after.Resume? then 1 else 0
    case Delete(_, _, after) => if after.Resume? then 1 else 0
    case _ => 0
  }

  ghost function Tokens(threads: seq<Thread>): int {
    if threads == [] then 0 else Token(threads[0].pc) + Tokens(threads[1..])
  }

  lemma {:induction false} TokensUpdate(threads: seq<Thread>, t: int, th: Thread)
    requires 0 <= t < |threads|
    ensures Tokens(threads[t := th]) == Tokens(threads) - Token(threads[t].pc) + Token(th.pc)
  {
    if t == 0 {
      assert threads[t := th][1..] == threads[1..];
    } else {
      assert threads[t := th][1..] == threads[1..][t - 1 := th];
      TokensUpdate(threads[1..], t - 1, th);
    }
  }

  lemma {:induction false} RoomUpdate(central: seq<Central>, cl: int, q: Central)
    requires 0 <= cl < |central|
    ensures Room(central[cl := q]) == Room(central) - central[cl].cacheSize + q.cacheSize
  {
    if cl == 0 {
      assert central[cl := q][1..] == central[1..];
    } else {
      assert central[cl := q][1..] == central[1..][cl - 1 := q];
      RoomUpdate(central[1..], cl - 1, q);
    }
  }

  lemma {:induction false} TokensNonNegative(threads: seq<Thread>)
    ensures Tokens(threads) >= 0
  {
    if threads != [] {
      TokensNonNegative(threads[1..]);
    }
  }

  ghost predicate WithinBudget(c: Config, s: State) {
    Room(s.central) + Tokens(s.threads) <= c.budget
  }

  // ----- What any step does to its thread and to one size class -----

  /** The lock is kept, given back, or has just been taken. */
  ghost predicate LockMove(s: State, s': State, t: int) {
    && OnlyThread(s, s', t)
    && var th, th' := s.threads[t], s'.threads[t];
    || (s'.owner == s.owner && th.locked == th'.locked && (th.locked ==> Needs(th.pc) == Needs(th'.pc)))
    || (th.locked && !th'.locked && Needs(th.pc).Some? && s'.owner == s.owner - {Needs(th.pc).value})
    || (!th.locked && th' == Thread(th.pc, true) && Needs(th.pc).Some? && Needs(th.pc).value !in s.owner
        && s'.owner == s.owner[Needs(th.pc).value := t])
  }

  /** The class whose data a step at `pc` may write. */
  ghost function Written(pc: Pc): int {
    match pc
    case Insert(cl, _) => cl
    case Shrink(_, _, _, victim) => victim
    case Decide(cl, _, _, _) => cl
    case Release(held, _, _) => held
    case Remove(cl, _) => cl
    case Gather(cl, _, _) => cl
    case Carved(cl, _, _, _) => cl
    case Starved(cl, _) => cl
    case _ => 0
  }

  /** Only the class under the thread's lock is written; an entry gained has been taken elsewhere. */
  ghost predicate CentralMove(c: Config, s: State, s': State, t: int)
    requires 0 <= t < |s.threads| == |s'.threads|
  {
    var pc, pc' := s.threads[t].pc, s'.threads[t].pc;
    if s'.central == s.central then Token(pc') <= Token(pc)
    else
      var cl := Written(pc);
      && s.threads[t].locked && Needs(pc) == Some(List(cl))
      && 0 <= cl < |s.central| == |s'.central|
      && s'.central == s.central[cl := s'.central[cl]]
      && CacheOk(c, s'.central[cl], cl)
      && s'.central[cl].cacheSize + Token(pc') <= s.central[cl].cacheSize + Token(pc)
  }

  ghost predicate Local(c: Config, s: State, s': State, t: int) {
    && LockMove(s, s', t)
    && CentralMove(c, s, s', t)
    && PcOk(c, s'.threads[t].pc)
    && |s'.lists| == |s.lists|
    && (forall u :: 0 <= u < |s.lists| ==> |s'.lists[u]| == |s.lists[u]|)
    && HomeOk(c, s'.home)
  }

  lemma KeptIsLocal(c: Config, s: State, s': State, t: int, pc: Pc)
    requires Shaped(c, s) && Ready(s, t) && Needs(s.threads[t].pc).Some?
    requires s'.threads == s.threads[t := Thread(pc, true)] && s'.owner == s.owner && s'.lists == s.lists
    requires s'.central == s.central && Token(pc) <= Token(s.threads[t].pc)
    requires Needs(pc) == Needs(s.threads[t].pc) && PcOk(c, pc) && HomeOk(c, s'.home)
    ensures Local(c, s, s', t)
  {
  }

  lemma DroppedIsLocal(c: Config, s: State, s': State, t: int, pc: Pc)
    requires Shaped(c, s) && Ready(s, t) && Needs(s.threads[t].pc).Some?
    requires s'.threads == s.threads[t := Thread(pc, false)] && s'.lists == s.lists
    requires s'.owner == s.owner - {Needs(s.threads[t].pc).value}
    requires s'.central == s.central && Token(pc) <= Token(s.threads[t].pc)
    requires PcOk(c, pc) && HomeOk(c, s'.home)
    ensures Local(c, s, s', t)
  {
  }

  lemma KeptWriting(c: Config, s: State, s': State, t: int, pc: Pc, cl: int, q: Central)
    requires Shaped(c, s) && Ready(s, t) && cl == Written(s.threads[t].pc)
    requires Needs(s.threads[t].pc) == Some(List(cl)) && 0 <= cl < |s.central|
    requires s'.threads == s.threads[t := Thread(pc, true)] && s'.owner == s.owner && s'.lists == s.lists
    requires s'.central == s.central[cl := q] && CacheOk(c, q, cl)
    requires q.cacheSize + Token(pc) <= s.central[cl].cacheSize + Token(s.threads[t].pc)
    requires Needs(pc) == Some(List(cl)) && PcOk(c, pc) && HomeOk(c, s'.home)
    ensures Local(c, s, s', t)
  {
    assert s'.central[cl] == q;
    assert s'.central == s.central ==> q == s.central[cl];
  }

  lemma DroppedWriting(c: Config, s: State, s': State, t: int, pc: Pc, cl: int, q: Central)
    requires Shaped(c, s) && Ready(s, t) && cl == Written(s.threads[t].pc)
    requires Needs(s.threads[t].pc) == Some(List(cl)) && 0 <= cl < |s.central|
    requires s'.threads == s.threads[t := Thread(pc, false)] && s'.lists == s.lists
    requires s'.owner == s.owner - {List(cl)}
    requires s'.central == s.central[cl := q] && CacheOk(c, q, cl)
    requires q.cacheSize + Token(pc) <= s.central[cl].cacheSize + Token(s.threads[t].pc)
    requires PcOk(c, pc) && HomeOk(c, s'.home)
    ensures Local(c, s, s', t)
  {
    assert s'.central[cl] == q;
    assert s'.central == s.central ==> q == s.central[cl];
  }

  lemma AcquireIsLocal(c: Config, s: State, t: int)
    requires Shaped(c, s) && LocksOk(s) && Enabled(c, s, t, Acquire)
    ensures Local(c, s, Acquired(s, t), t)
  {
    assert PcOk(c, s.threads[t].pc);
  }

  lemma BeginIsLocal(c: Config, s: State, t: int, a: Action)
    requires ValidConfig(c) && Shaped(c, s) && LocksOk(s) && Enabled(c, s, t, a) && (a.StartInsert? || a.StartRemove?)
    ensures Local(c, s, Do(c, s, t, a), t)
  {
  }

  lemma OwnIsLocal(c: Config, s: State, t: int, a: Action)
    requires Shaped(c, s) && LocksOk(s) && Enabled(c, s, t, a)
    requires a.Allocate? || a.Deallocate? || a.StepHandOut? || a.StepStore?
    ensures Local(c, s, Do(c, s, t, a), t)
  {
    assert PcOk(c, s.threads[t].pc);
  }

  lemma StartIsLocal(c: Config, s: State, t: int, a: Action)
    requires ValidConfig(c) && Shaped(c, s) && CachesOk(c, s) && LocksOk(s) && Enabled(c, s, t, a)
    requires a.Acquire? || a.StartInsert? || a.StartRemove? || a.Allocate? || a.Deallocate?
          || a.StepHandOut? || a.StepStore?
    ensures Local(c, s, Do(c, s, t, a), t)
  {
    hide ValidConfig, Shaped, CachesOk, LocksOk, Enabled, Local, Acquired;
    if a.Acquire? {
      AcquireIsLocal(c, s, t);
    } else if a.StartInsert? || a.StartRemove? {
      BeginIsLocal(c, s, t, a);
    } else {
      OwnIsLocal(c, s, t, a);
    }
  }

  lemma FreeIsLocal(c: Config, s: State, t: int, i: int)
    requires ValidConfig(c) && Shaped(c, s) && LocksOk(s) && Enabled(c, s, t, StartFree(i))
    ensures Local(c, s, StartFreeing(s, t, i), t)
  {
    var o := s.app[i];
    assert HomeOk(c, s.home) && o in s.home && ClassIn(c, s.home[o].cl);
  }

  lemma InsertIsLocal(c: Config, s: State, t: int)
    requires ValidConfig(c) && Shaped(c, s) && CachesOk(c, s) && LocksOk(s) && Enabled(c, s, t, StepInsert)
    ensures Local(c, s, Inserted(c, s, t), t)
  {
    hide Local, LocksOk;
    var pc := s.threads[t].pc;
    assert PcOk(c, pc);
    var s', pc', q := Inserted(c, s, t), Inserted(c, s, t).threads[t].pc, s.central[pc.cl];
    assert CacheOk(c, q, pc.cl);
    if |pc.chain| == c.batch[pc.cl] && |q.slots| < q.cacheSize {
      DroppedWriting(c, s, s', t, pc', pc.cl, PushSlot(q, pc.chain));
    } else {
      KeptIsLocal(c, s, s', t, pc');
    }
  }

  lemma EvictNoneIsLocal(c: Config, s: State, t: int)
    requires ValidConfig(c) && Shaped(c, s) && CachesOk(c, s) && LocksOk(s) && Enabled(c, s, t, StepEvictNone)
    ensures Local(c, s, NotEvicted(s, t), t)
  {
    hide Local, LocksOk;
    var pc := s.threads[t].pc;
    assert PcOk(c, pc);
    KeptIsLocal(c, s, NotEvicted(s, t), t, NotEvicted(s, t).threads[t].pc);
  }

  /** A thread at a point that needs a lock owns no other. */
  lemma OnlyItsLock(s: State, t: int)
    requires LocksOk(s) && 0 <= t < |s.threads|
    ensures forall l :: l in s.owner && s.owner[l] == t ==> Needs(s.threads[t].pc) == Some(l)
  {
  }

  lemma EvictIsLocal(c: Config, s: State, t: int, victim: int)
    requires ValidConfig(c) && Shaped(c, s) && CachesOk(c, s) && LocksOk(s) && Enabled(c, s, t, StepEvict(victim))
    ensures Local(c, s, Evicted(s, t, victim), t)
    ensures var s' := Evicted(s, t, victim);
      && !s'.threads[t].locked && Needs(s'.threads[t].pc) == Some(List(victim))
      && forall l :: l in s'.owner ==> s'.owner[l] != t
  {
    hide Local, LocksOk;
    var pc := s.threads[t].pc;
    assert PcOk(c, pc);
    OnlyItsLock(s, t);
    DroppedIsLocal(c, s, Evicted(s, t, victim), t, Shrink(pc.cl, pc.chain, pc.force, victim));
  }

  lemma ShrinkIsLocal(c: Config, s: State, t: int)
    requires ValidConfig(c) && Shaped(c, s) && CachesOk(c, s) && LocksOk(s) && Enabled(c, s, t, StepShrink)
    ensures Local(c, s, Shrunk(s, t), t)
  {
    var pc := s.threads[t].pc;
    var s', pc', q := Shrunk(s, t), Shrunk(s, t).threads[t].pc, s.central[pc.victim];
    assert PcOk(c, pc) && CacheOk(c, q, pc.victim) && HomeOk(c, s.home);
    hide Local, LocksOk, Shaped, CachesOk, ValidConfig, HomeOk;
    if q.cacheSize == 0 || (|q.slots| == q.cacheSize && !pc.force) {
      DroppedIsLocal(c, s, s', t, pc');
    } else if |q.slots| == q.cacheSize {
      KeptWriting(c, s, s', t, pc', pc.victim, PopSlot(q).(cacheSize := q.cacheSize - 1));
    } else {
      DroppedWriting(c, s, s', t, pc', pc.victim, q.(cacheSize := q.cacheSize - 1));
    }
  }

  /** A victim with an entry to give up gives one up: a free one, or under force a full one whose batch
      goes back to its spans.  The thread that took the entry carries it. */
  lemma ShrinkTakesEntry(s: State, t: int)
    requires Ready(s, t) && s.threads[t].pc.Shrink? && 0 <= s.threads[t].pc.victim < |s.central|
    ensures var s', victim := Shrunk(s, t), s.threads[t].pc.victim;
      && s'.central[victim].cacheSize + Token(s'.threads[t].pc) == s.central[victim].cacheSize
      && (Token(s'.threads[t].pc) == 1 <==>
            s.central[victim].cacheSize != 0
            && (|s.central[victim].slots| != s.central[victim].cacheSize || s.threads[t].pc.force))
      && (s'.threads[t].pc.Release? <==>
            s.threads[t].pc.force && |s.central[victim].slots| == s.central[victim].cacheSize != 0)
      && forall cl :: 0 <= cl < |s.central| && cl != victim ==> s'.central[cl] == s.central[cl]
  {
    hide Room, Tokens;
  }

  lemma DecideIsLocal(c: Config, s: State, t: int)
    requires ValidConfig(c) && Shaped(c, s) && CachesOk(c, s) && LocksOk(s) && Enabled(c, s, t, StepDecide)
    ensures Local(c, s, Decided(c, s, t), t)
  {
    hide Local, LocksOk;
    var pc := s.threads[t].pc;
    assert PcOk(c, pc);
    var s', pc', q := Decided(c, s, t), Decided(c, s, t).threads[t].pc, s.central[pc.cl];
    assert CacheOk(c, q, pc.cl);
    if pc.won && q.cacheSize < c.maxSize[pc.cl] {
      DroppedWriting(c, s, s', t, pc', pc.cl, PushSlot(q, pc.chain).(cacheSize := q.cacheSize + 1));
    } else {
      KeptIsLocal(c, s, s', t, pc');
    }
  }

  /** The entry carried goes to the class that won it if that is below its cap; else it is lost. */
  lemma DecideGivesEntry(c: Config, s: State, t: int)
    requires Ready(s, t) && s.threads[t].pc.Decide? && 0 <= s.threads[t].pc.cl < |s.central|
    ensures var s', pc := Decided(c, s, t), s.threads[t].pc;
      && s'.central[pc.cl].cacheSize == s.central[pc.cl].cacheSize
           + (if pc.won && pc.cl < |c.maxSize| && s.central[pc.cl].cacheSize < c.maxSize[pc.cl] then 1 else 0)
      && Token(s'.threads[t].pc) == 0
  {
    hide Room, Tokens;
  }

  lemma ReleaseIsLocal(c: Config, s: State, t: int)
    requires ValidConfig(c) && Shaped(c, s) && CachesOk(c, s) && LocksOk(s) && Enabled(c, s, t, StepRelease)
    ensures Local(c, s, Released(s, t), t)
  {
    hide Local, LocksOk;
    var pc := s.threads[t].pc;
    assert PcOk(c, pc);
    var s', pc', q := Released(s, t), Released(s, t).threads[t].pc, s.central[pc.held];
    assert CacheOk(c, q, pc.held);
    if pc.todo == [] {
      DroppedIsLocal(c, s, s', t, pc');
    } else {
      var x := s.home[pc.todo[0]].span;
      if s.spans[x].refcount == 1 {
        DroppedWriting(c, s, s', t, pc', pc.held, Retired(q, x, s.spans[x].total));
      } else {
        KeptWriting(c, s, s', t, pc', pc.held, Gained(q, x));
      }
    }
  }

  lemma DeleteIsLocal(c: Config, s: State, t: int)
    requires ValidConfig(c) && Shaped(c, s) && CachesOk(c, s) && LocksOk(s) && Enabled(c, s, t, StepDelete)
    ensures Local(c, s, Deleted(s, t), t)
  {
    hide Local, LocksOk;
    var pc := s.threads[t].pc;
    assert PcOk(c, pc);
    DroppedIsLocal(c, s, Deleted(s, t), t, Release(pc.held, pc.todo, pc.after));
  }

  /** Taking objects from a span, as all three fetching steps do. */
  lemma GatherIsLocal(c: Config, s: State, t: int, cl: int, n: int, x: int, got: seq<Obj>)
    requires ValidConfig(c) && Shaped(c, s) && CachesOk(c, s) && Ready(s, t) && CanFetch(s, cl, x)
    requires Needs(s.threads[t].pc) == Some(List(cl)) && Written(s.threads[t].pc) == cl
    requires Token(s.threads[t].pc) == 0 && |got| < n <= c.batch[cl]
    ensures Local(c, s, Gathered(s, t, cl, n, x, got), t)
  {
    hide Local;
    var s' := Gathered(s, t, cl, n, x, got);
    assert CacheOk(c, s.central[cl], cl);
    KeptWriting(c, s, s', t, s'.threads[t].pc, cl, s'.central[cl]);
  }

  lemma RemoveIsLocal(c: Config, s: State, t: int, x: int)
    requires ValidConfig(c) && Shaped(c, s) && CachesOk(c, s) && LocksOk(s) && Enabled(c, s, t, StepRemove(x))
    ensures Local(c, s, Removed(c, s, t, x), t)
  {
    hide Local, LocksOk;
    var pc := s.threads[t].pc;
    assert PcOk(c, pc);
    var s', q := Removed(c, s, t, x), s.central[pc.cl];
    assert CacheOk(c, q, pc.cl);
    if pc.n == c.batch[pc.cl] && q.slots != [] {
      DroppedWriting(c, s, s', t, Fetched(pc.cl, Last(q)), pc.cl, PopSlot(q));
    } else if NothingToFetch(s, pc.cl) {
      DroppedIsLocal(c, s, s', t, Populate(pc.cl, pc.n));
    } else {
      GatherIsLocal(c, s, t, pc.cl, pc.n, x, []);
    }
  }

  lemma GatherMoreIsLocal(c: Config, s: State, t: int, x: int)
    requires ValidConfig(c) && Shaped(c, s) && CachesOk(c, s) && LocksOk(s) && Enabled(c, s, t, StepGather(x))
    ensures Local(c, s, GatheredMore(s, t, x), t)
  {
    hide Local, LocksOk;
    var pc := s.threads[t].pc;
    assert PcOk(c, pc);
    if |pc.got| < pc.n && !NothingToFetch(s, pc.cl) {
      GatherIsLocal(c, s, t, pc.cl, pc.n, x, pc.got);
    } else {
      DroppedIsLocal(c, s, GatheredMore(s, t, x), t, Fetched(pc.cl, pc.got));
    }
  }

  lemma StarvedIsLocal(c: Config, s: State, t: int, x: int)
    requires ValidConfig(c) && Shaped(c, s) && CachesOk(c, s) && LocksOk(s) && Enabled(c, s, t, StepStarved(x))
    ensures Local(c, s, StarvedTries(s, t, x), t)
  {
    hide Local, LocksOk;
    var pc := s.threads[t].pc;
    assert PcOk(c, pc);
    if NothingToFetch(s, pc.cl) {
      DroppedIsLocal(c, s, StarvedTries(s, t, x), t, Fetched(pc.cl, []));
    } else {
      GatherIsLocal(c, s, t, pc.cl, pc.n, x, []);
    }
  }

  lemma PopulateIsLocal(c: Config, s: State, t: int, x: int, objects: seq<Obj>)
    requires ValidConfig(c) && Shaped(c, s) && CachesOk(c, s) && LocksOk(s) && Enabled(c, s, t, StepPopulate(x, objects))
    ensures Local(c, s, Populated(s, t, x, objects), t)
  {
    hide Local, LocksOk;
    var pc := s.threads[t].pc;
    assert PcOk(c, pc);
    DroppedIsLocal(c, s, Populated(s, t, x, objects), t, Carved(pc.cl, pc.n, x, objects));
  }

  lemma PopulateFailsIsLocal(c: Config, s: State, t: int)
    requires ValidConfig(c) && Shaped(c, s) && CachesOk(c, s) && LocksOk(s) && Enabled(c, s, t, StepPopulateFails)
    ensures Local(c, s, PopulateFailed(s, t), t)
  {
    hide Local, LocksOk;
    var pc := s.threads[t].pc;
    assert PcOk(c, pc);
    DroppedIsLocal(c, s, PopulateFailed(s, t), t, Starved(pc.cl, pc.n));
  }

  lemma CarvedIsLocal(c: Config, s: State, t: int)
    requires ValidConfig(c) && Shaped(c, s) && CachesOk(c, s) && LocksOk(s) && Enabled(c, s, t, StepCarved)
    ensures Local(c, s, CarvedJoins(s, t), t)
  {
    hide Local, LocksOk;
    var pc := s.threads[t].pc;
    assert PcOk(c, pc);
    var s' := CarvedJoins(s, t);
    assert CacheOk(c, s.central[pc.cl], pc.cl);
    KeptWriting(c, s, s', t, s'.threads[t].pc, pc.cl, s'.central[pc.cl]);
  }

  lemma StepIsLocal(c: Config, s: State, t: int, a: Action)
    requires ValidConfig(c) && Shaped(c, s) && CachesOk(c, s) && LocksOk(s) && Enabled(c, s, t, a)
    ensures Local(c, s, Do(c, s, t, a), t)
  {
    hide Local, Shaped, CachesOk, LocksOk, ValidConfig, Enabled;
    match a
    case StepInsert => InsertIsLocal(c, s, t);
    case StepEvictNone => EvictNoneIsLocal(c, s, t);
    case StepEvict(victim) => EvictIsLocal(c, s, t, victim);
    case StepShrink => ShrinkIsLocal(c, s, t);
    case StepDecide => DecideIsLocal(c, s, t);
    case StepRelease => ReleaseIsLocal(c, s, t);
    case StepDelete => DeleteIsLocal(c, s, t);
    case StepRemove(x) => RemoveIsLocal(c, s, t, x);
    case StepGather(x) => GatherMoreIsLocal(c, s, t, x);
    case StepPopulate(x, objects) => PopulateIsLocal(c, s, t, x, objects);
    case StepPopulateFails => PopulateFailsIsLocal(c, s, t);
    case StepCarved => CarvedIsLocal(c, s, t);
    case StepStarved(x) => StarvedIsLocal(c, s, t, x);
    case StartFree(i) => FreeIsLocal(c, s, t, i);
    case _ => StartIsLocal(c, s, t, a);
  }

  // ----- What every local move keeps -----

  lemma LocalKeepsLocks(c: Config, s: State, s': State, t: int)
    requires LocksOk(s) && Local(c, s, s', t)
    ensures LocksOk(s')
  {
    if s.threads[t].locked == s'.threads[t].locked {
      LocksWhenKept(s, s', t);
    } else if s.threads[t].locked {
      LocksWhenDropped(s, s', t);
    } else {
      LocksWhenAcquired(s, s', t);
    }
  }

  lemma LocalKeepsShape(c: Config, s: State, s': State, t: int)
    requires Shaped(c, s) && CachesOk(c, s) && Local(c, s, s', t)
    ensures Shaped(c, s') && CachesOk(c, s')
  {
  }

  lemma LocalKeepsBudget(c: Config, s: State, s': State, t: int)
    requires WithinBudget(c, s) && Local(c, s, s', t)
    ensures WithinBudget(c, s')
  {
    assert s'.threads == s.threads[t := s'.threads[t]];
    TokensUpdate(s.threads, t, s'.threads[t]);
    if s'.central != s.central {
      var cl := Written(s.threads[t].pc);
      RoomUpdate(s.central, cl, s'.central[cl]);
    }
  }

  /** The data of a size class is written only by the thread that holds that class's lock. */
  lemma WritesUnderLock(c: Config, s: State, t: int, a: Action, cl: int)
    requires ValidConfig(c) && Shaped(c, s) && CachesOk(c, s) && LocksOk(s) && Enabled(c, s, t, a)
    requires 0 <= cl < |s.central| == |Do(c, s, t, a).central|
    requires Do(c, s, t, a).central[cl] != s.central[cl]
    ensures List(cl) in s.owner && s.owner[List(cl)] == t
  {
    hide Do, Enabled, Shaped, CachesOk, ValidConfig;
    StepIsLocal(c, s, t, a);
    assert Holds(s, t, List(cl));
  }
}
