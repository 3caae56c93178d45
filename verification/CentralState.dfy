/**
 * The central free lists, their transfer caches and the threads that use them,
 * as a state machine. A thread that is inside a central operation always needs
 * exactly one lock to go on: the lock of one size class or the page-heap lock.
 * Each step either acquires that lock or runs the code up to the next point
 * where the lock is dropped or the loop goes round.
 */
module CentralState {
  import opened Options
  import opened Sequences

  /** An object is named by its address, a span by its descriptor. */
  type Obj = int

  datatype Lock = List(cl: int) | PageHeapLock

  /** What the page map says about an object: its span and that span's size class. */
  datatype Tag = Tag(span: int, cl: int)

  /** `total` is the number of objects the span was carved into. */
  datatype Span = Span(cl: int, objects: seq<Obj>, refcount: int, total: int)

  datatype Central = Central(nonempty: set<int>, empty: set<int>, numSpans: int, counter: int,
                             slots: seq<seq<Obj>>, cacheSize: int)

  /** What to do once a chain has been released to its spans. */
  datatype After = Done | Resume(cl: int, chain: seq<Obj>, force: bool)

  /** Where a thread is inside the central operations. */
  datatype Pc =
    | Idle
    | Insert(cl: int, chain: seq<Obj>)
    | Evict(cl: int, chain: seq<Obj>, force: bool)
    | Shrink(cl: int, chain: seq<Obj>, force: bool, victim: int)
    | Decide(cl: int, chain: seq<Obj>, force: bool, won: bool)
    | Release(held: int, todo: seq<Obj>, after: After)
    | Delete(held: int, todo: seq<Obj>, after: After)
    | Remove(cl: int, n: int)
    | Gather(cl: int, n: int, got: seq<Obj>)
    | Populate(cl: int, n: int)
    | Carved(cl: int, n: int, span: int, objects: seq<Obj>)
    | Starved(cl: int, n: int)
    | Fetched(cl: int, got: seq<Obj>)
    | Store(cl: int, rest: seq<Obj>)

  datatype Thread = Thread(pc: Pc, locked: bool)

  datatype State = State(central: seq<Central>, spans: map<int, Span>, home: map<Obj, Tag>,
                         threads: seq<Thread>, lists: seq<seq<seq<Obj>>>, app: seq<Obj>,
                         owner: map<Lock, int>)

  /** Per size class: objects moved per batch, and the cap on its transfer cache. */
  datatype Config = Config(batch: seq<int>, maxSize: seq<int>, threads: int, budget: int)

  ghost predicate ValidConfig(c: Config) {
    && |c.batch| == |c.maxSize|
    && 0 <= c.threads
    && forall cl :: 0 <= cl < |c.batch| ==> 1 <= c.batch[cl] && 0 <= c.maxSize[cl]
  }

  /** The lock a thread must hold before it can go on. */
  function Needs(pc: Pc): Option<Lock> {
    match pc
    case Idle => None
    case Fetched(_, _) => None
    case Store(_, _) => None
    case Insert(cl, _) => Some(List(cl))
    case Evict(cl, _, _) => Some(List(cl))
    case Shrink(_, _, _, victim) => Some(List(victim))
    case Decide(cl, _, _, _) => Some(List(cl))
    case Release(held, _, _) => Some(List(held))
    case Delete(_, _, _) => Some(PageHeapLock)
    case Remove(cl, _) => Some(List(cl))
    case Gather(cl, _, _) => Some(List(cl))
    case Populate(_, _) => Some(PageHeapLock)
    case Carved(cl, _, _, _) => Some(List(cl))
    case Starved(cl, _) => Some(List(cl))
  }

  predicate Ready(s: State, t: int) {
    0 <= t < |s.threads| && s.threads[t].locked
  }

  /** Goes on at `pc` with the lock still held. */
  function Keep(s: State, t: int, pc: Pc): State
    requires 0 <= t < |s.threads|
  {
    s.(threads := s.threads[t := Thread(pc, true)])
  }

  /** Gives the lock back and goes on at `pc`, which may need another one. */
  function Drop(s: State, t: int, pc: Pc): State
    requires 0 <= t < |s.threads|
  {
    var need := Needs(s.threads[t].pc);
    s.(threads := s.threads[t := Thread(pc, false)],
       owner := if need.Some? then s.owner - {need.value} else s.owner)
  }

  /** Goes on at `pc` without having held a lock. */
  function Go(s: State, t: int, pc: Pc): State
    requires 0 <= t < |s.threads|
  {
    s.(threads := s.threads[t := Thread(pc, false)])
  }

  function SetCentral(s: State, cl: int, q: Central): State
    requires 0 <= cl < |s.central|
  {
    s.(central := s.central[cl := q])
  }

  function PushSlot(q: Central, chain: seq<Obj>): Central {
    q.(slots := q.slots + [chain])
  }

  function PopSlot(q: Central): Central
    requires q.slots != []
  {
    q.(slots := q.slots[..|q.slots| - 1])
  }

  function Last(q: Central): seq<Obj>
    requires q.slots != []
  {
    q.slots[|q.slots| - 1]
  }

  // ----- Objects going to and coming from spans -----

  function PutBack(sp: Span, o: Obj): Span {
    sp.(objects := [o] + sp.objects, refcount := sp.refcount - 1)
  }

  function TakeFrom(sp: Span, n: int): Span
    requires 0 <= n <= |sp.objects|
  {
    sp.(objects := sp.objects[n..], refcount := sp.refcount + n)
  }

  /** How many objects one span yields when `n` are wanted. */
  function Yield(sp: Span, n: int): int {
    if n < |sp.objects| then n else |sp.objects|
  }

  /** Span `x` has gained a free object: it is listed as nonempty. */
  function Gained(q: Central, x: int): Central {
    q.(nonempty := q.nonempty + {x}, empty := q.empty - {x}, counter := q.counter + 1)
  }

  /** Span `x` has lost `n` objects and has `left` of them. */
  function Lost(q: Central, x: int, n: int, left: int): Central {
    if left == 0
    then q.(nonempty := q.nonempty - {x}, empty := q.empty + {x}, counter := q.counter - n)
    else q.(counter := q.counter - n)
  }

  /** Span `x` of `total` objects has got its last object back and leaves. */
  function Retired(q: Central, x: int, total: int): Central {
    q.(nonempty := q.nonempty - {x}, empty := q.empty - {x},
       numSpans := q.numSpans - 1, counter := q.counter + 1 - total)
  }

  /** Span `x` with `num` fresh objects joins. */
  function Joined(q: Central, x: int, num: int): Central {
    q.(nonempty := q.nonempty + {x}, numSpans := q.numSpans + 1, counter := q.counter + num)
  }

  function Forget(home: map<Obj, Tag>, x: int): map<Obj, Tag> {
    map o | o in home && home[o].span != x :: home[o]
  }

  function Adopt(home: map<Obj, Tag>, objects: seq<Obj>, tag: Tag): map<Obj, Tag> {
    map o | o in home.Keys + (set q | q in objects) :: if o in objects then tag else home[o]
  }

  function Without(s: seq<Obj>, i: int): seq<Obj>
    requires 0 <= i < |s|
  {
    s[..i] + s[i + 1..]
  }

  // ----- The steps -----

  datatype Action =
    | Acquire
    | StartInsert(cl: int, n: int)
    | StartFree(i: int)
    | StartRemove(cl: int, n: int)
    | Allocate(cl: int)
    | Deallocate(i: int)
    | StepInsert
    | StepEvictNone
    | StepEvict(victim: int)
    | StepShrink
    | StepDecide
    | StepRelease
    | StepDelete
    | StepRemove(x: int)
    | StepGather(x: int)
    | StepPopulate(x: int, objects: seq<Obj>)
    | StepPopulateFails
    | StepCarved
    | StepStarved(x: int)
    | StepHandOut
    | StepStore

  /** The span list of `cl` has something to take; `x` is the span taken from. */
  predicate CanFetch(s: State, cl: int, x: int) {
    0 <= cl < |s.central| && x in s.central[cl].nonempty && x in s.spans && s.spans[x].objects != []
  }

  predicate NothingToFetch(s: State, cl: int) {
    0 <= cl < |s.central| && s.central[cl].nonempty == {}
  }

  /** The page heap hands out pages that hold no live object, under an unused descriptor. */
  predicate FreshSpan(s: State, x: int, objects: seq<Obj>) {
    && x !in s.spans
    && objects != []
    && Distinct(objects)
    && (forall o :: o in objects ==> o !in s.home)
    && (forall o :: o in s.home ==> s.home[o].span != x)
  }

  predicate Enabled(c: Config, s: State, t: int, a: Action) {
    && 0 <= t < |s.threads| && t < |s.lists|
    && var pc := s.threads[t].pc;
    match a
    case Acquire => !s.threads[t].locked && Needs(pc).Some? && Needs(pc).value !in s.owner
    case StartInsert(cl, n) => pc.Idle? && 0 <= cl < |s.lists[t]| && 0 <= n <= |s.lists[t][cl]|
    case StartFree(i) => pc.Idle? && 0 <= i < |s.app| && s.app[i] in s.home
    case StartRemove(cl, n) =>
      pc.Idle? && 0 <= cl < |s.lists[t]| && s.lists[t][cl] == [] && cl < |c.batch| && 1 <= n <= c.batch[cl]
    case Allocate(cl) => pc.Idle? && 0 <= cl < |s.lists[t]| && s.lists[t][cl] != []
    case Deallocate(i) =>
      pc.Idle? && 0 <= i < |s.app| && s.app[i] in s.home && 0 <= s.home[s.app[i]].cl < |s.lists[t]|
    case StepInsert => Ready(s, t) && pc.Insert? && 0 <= pc.cl < |s.central|
    case StepEvictNone => Ready(s, t) && pc.Evict?
    case StepEvict(victim) => Ready(s, t) && pc.Evict? && 0 <= victim < |s.central| && victim != pc.cl
    case StepShrink => Ready(s, t) && pc.Shrink? && 0 <= pc.victim < |s.central|
    case StepDecide => Ready(s, t) && pc.Decide? && 0 <= pc.cl < |s.central|
    case StepRelease =>
      Ready(s, t) && pc.Release? && 0 <= pc.held < |s.central|
      && (pc.todo != [] ==> pc.todo[0] in s.home && s.home[pc.todo[0]].span in s.spans)
    case StepDelete => Ready(s, t) && pc.Delete?
    case StepRemove(x) =>
      Ready(s, t) && pc.Remove? && 0 <= pc.cl < |s.central| && pc.cl < |c.batch|
      && (CanFetch(s, pc.cl, x) || NothingToFetch(s, pc.cl))
    case StepGather(x) =>
      Ready(s, t) && pc.Gather? && (CanFetch(s, pc.cl, x) || NothingToFetch(s, pc.cl))
    case StepPopulate(x, objects) => Ready(s, t) && pc.Populate? && FreshSpan(s, x, objects)
    case StepPopulateFails => Ready(s, t) && pc.Populate?
    case StepCarved => Ready(s, t) && pc.Carved? && 0 <= pc.cl < |s.central| && pc.objects != []
    case StepStarved(x) =>
      Ready(s, t) && pc.Starved? && (CanFetch(s, pc.cl, x) || NothingToFetch(s, pc.cl))
    case StepHandOut => pc.Fetched?
    case StepStore => pc.Store? && 0 <= pc.cl < |s.lists[t]|
  }

  /** The first `n` objects of span `x` move into the thread's hands. */
  function Fetch(s: State, cl: int, x: int, n: int): State
    requires 0 <= cl < |s.central| && x in s.spans && 0 <= n <= |s.spans[x].objects|
  {
    var left := |s.spans[x].objects| - n;
    SetCentral(s, cl, Lost(s.central[cl], x, n, left)).(spans := s.spans[x := TakeFrom(s.spans[x], n)])
  }

  function StartInserting(s: State, t: int, cl: int, n: int): State
    requires 0 <= t < |s.threads| && t < |s.lists| && 0 <= cl < |s.lists[t]| && 0 <= n <= |s.lists[t][cl]|
  {
    var list := s.lists[t][cl];
    Go(s.(lists := s.lists[t := s.lists[t][cl := list[n..]]]), t, Insert(cl, list[..n]))
  }

  function StartFreeing(s: State, t: int, i: int): State
    requires 0 <= t < |s.threads| && 0 <= i < |s.app| && s.app[i] in s.home
  {
    Go(s.(app := Without(s.app, i)), t, Insert(s.home[s.app[i]].cl, [s.app[i]]))
  }

  /** The fast path of an allocation: the head of the thread's own list. */
  function Allocated(s: State, t: int, cl: int): State
    requires 0 <= t < |s.lists| && 0 <= cl < |s.lists[t]| && s.lists[t][cl] != []
  {
    var list := s.lists[t][cl];
    s.(lists := s.lists[t := s.lists[t][cl := list[1..]]], app := [list[0]] + s.app)
  }

  function Deallocated(s: State, t: int, i: int): State
    requires 0 <= t < |s.lists| && 0 <= i < |s.app| && s.app[i] in s.home
    requires 0 <= s.home[s.app[i]].cl < |s.lists[t]|
  {
    var cl := s.home[s.app[i]].cl;
    s.(lists := s.lists[t := s.lists[t][cl := [s.app[i]] + s.lists[t][cl]]], app := Without(s.app, i))
  }

  function Inserted(c: Config, s: State, t: int): State
    requires Ready(s, t) && s.threads[t].pc.Insert? && 0 <= s.threads[t].pc.cl < |s.central|
  {
    var pc := s.threads[t].pc;
    var q := s.central[pc.cl];
    if pc.cl < |c.batch| && |pc.chain| == c.batch[pc.cl] then
      if |q.slots| < q.cacheSize then Drop(SetCentral(s, pc.cl, PushSlot(q, pc.chain)), t, Idle)
      else if pc.cl < |c.maxSize| && q.cacheSize == c.maxSize[pc.cl] then Keep(s, t, Release(pc.cl, pc.chain, Done))
      else Keep(s, t, Evict(pc.cl, pc.chain, false))
    else Keep(s, t, Release(pc.cl, pc.chain, Done))
  }

  /** No victim was found, or the unlocked look at the victim said that it cannot shrink. */
  function NotEvicted(s: State, t: int): State
    requires Ready(s, t) && s.threads[t].pc.Evict?
  {
    var pc := s.threads[t].pc;
    Keep(s, t, if pc.force then Release(pc.cl, pc.chain, Done) else Evict(pc.cl, pc.chain, true))
  }

  /** The lock inverter: the held lock goes before the victim's is taken. */
  function Evicted(s: State, t: int, victim: int): State
    requires Ready(s, t) && s.threads[t].pc.Evict?
  {
    var pc := s.threads[t].pc;
    Drop(s, t, Shrink(pc.cl, pc.chain, pc.force, victim))
  }

  function Shrunk(s: State, t: int): State
    requires Ready(s, t) && s.threads[t].pc.Shrink? && 0 <= s.threads[t].pc.victim < |s.central|
  {
    var pc := s.threads[t].pc;
    var q := s.central[pc.victim];
    if q.cacheSize == 0 then Drop(s, t, Decide(pc.cl, pc.chain, pc.force, false))
    else if |q.slots| == q.cacheSize then
      if pc.force then
        Keep(SetCentral(s, pc.victim, PopSlot(q).(cacheSize := q.cacheSize - 1)), t,
             Release(pc.victim, Last(q), Resume(pc.cl, pc.chain, pc.force)))
      else Drop(s, t, Decide(pc.cl, pc.chain, pc.force, false))
    else
      Drop(SetCentral(s, pc.victim, q.(cacheSize := q.cacheSize - 1)), t, Decide(pc.cl, pc.chain, pc.force, true))
  }

  function Decided(c: Config, s: State, t: int): State
    requires Ready(s, t) && s.threads[t].pc.Decide? && 0 <= s.threads[t].pc.cl < |s.central|
  {
    var pc := s.threads[t].pc;
    var q := s.central[pc.cl];
    if pc.won then
      if pc.cl < |c.maxSize| && q.cacheSize < c.maxSize[pc.cl] then
        Drop(SetCentral(s, pc.cl, PushSlot(q, pc.chain).(cacheSize := q.cacheSize + 1)), t, Idle)
      else Keep(s, t, Release(pc.cl, pc.chain, Done))
    else if pc.force then Keep(s, t, Release(pc.cl, pc.chain, Done))
    else Keep(s, t, Evict(pc.cl, pc.chain, true))
  }

  /** Where a thread goes once its chain has been released. */
  function Afterwards(after: After): Pc {
    match after
    case Done => Idle
    case Resume(cl, chain, force) => Decide(cl, chain, force, true)
  }

  /** One object goes back to its span; with the last one the span leaves the central list. */
  function Released(s: State, t: int): State
    requires Ready(s, t) && s.threads[t].pc.Release? && 0 <= s.threads[t].pc.held < |s.central|
    requires s.threads[t].pc.todo != [] ==>
      s.threads[t].pc.todo[0] in s.home && s.home[s.threads[t].pc.todo[0]].span in s.spans
  {
    var pc := s.threads[t].pc;
    if pc.todo == [] then Drop(s, t, Afterwards(pc.after)) else
    var o, rest, q := pc.todo[0], pc.todo[1..], s.central[pc.held];
    var x := s.home[o].span;
    if s.spans[x].refcount == 1 then
      Drop(SetCentral(s, pc.held, Retired(q, x, s.spans[x].total))
           .(spans := s.spans - {x}, home := Forget(s.home, x)),
           t, Delete(pc.held, rest, pc.after))
    else
      Keep(SetCentral(s, pc.held, Gained(q, x)).(spans := s.spans[x := PutBack(s.spans[x], o)]),
           t, Release(pc.held, rest, pc.after))
  }

  /** The page heap has taken the span; the list lock is wanted again. */
  function Deleted(s: State, t: int): State
    requires Ready(s, t) && s.threads[t].pc.Delete?
  {
    var pc := s.threads[t].pc;
    Drop(s, t, Release(pc.held, pc.todo, pc.after))
  }

  function Removed(c: Config, s: State, t: int, x: int): State
    requires Ready(s, t) && s.threads[t].pc.Remove?
    requires 0 <= s.threads[t].pc.cl < |s.central| && s.threads[t].pc.cl < |c.batch|
    requires CanFetch(s, s.threads[t].pc.cl, x) || NothingToFetch(s, s.threads[t].pc.cl)
  {
    var pc := s.threads[t].pc;
    var q := s.central[pc.cl];
    if pc.n == c.batch[pc.cl] && q.slots != [] then
      Drop(SetCentral(s, pc.cl, PopSlot(q)), t, Fetched(pc.cl, Last(q)))
    else if NothingToFetch(s, pc.cl) then Drop(s, t, Populate(pc.cl, pc.n))
    else Gathered(s, t, pc.cl, pc.n, x, [])
  }

  /** Up to `n - |got|` objects of span `x` join those already in hand. */
  function Gathered(s: State, t: int, cl: int, n: int, x: int, got: seq<Obj>): State
    requires 0 <= t < |s.threads| && CanFetch(s, cl, x)
  {
    var m := Yield(s.spans[x], if n <= |got| then 0 else n - |got|);
    Keep(Fetch(s, cl, x, m), t, Gather(cl, n, s.spans[x].objects[..m] + got))
  }

  function GatheredMore(s: State, t: int, x: int): State
    requires Ready(s, t) && s.threads[t].pc.Gather?
    requires CanFetch(s, s.threads[t].pc.cl, x) || NothingToFetch(s, s.threads[t].pc.cl)
  {
    var pc := s.threads[t].pc;
    if |pc.got| < pc.n && !NothingToFetch(s, pc.cl) then Gathered(s, t, pc.cl, pc.n, x, pc.got)
    else Drop(s, t, Fetched(pc.cl, pc.got))
  }

  function Populated(s: State, t: int, x: int, objects: seq<Obj>): State
    requires Ready(s, t) && s.threads[t].pc.Populate?
  {
    var pc := s.threads[t].pc;
    Drop(s.(home := Adopt(s.home, objects, Tag(x, pc.cl))), t, Carved(pc.cl, pc.n, x, objects))
  }

  function PopulateFailed(s: State, t: int): State
    requires Ready(s, t) && s.threads[t].pc.Populate?
  {
    Drop(s, t, Starved(s.threads[t].pc.cl, s.threads[t].pc.n))
  }

  /** The fresh span, all of its objects free, joins the lists of its class. */
  function Joins(s: State, t: int): State
    requires Ready(s, t) && s.threads[t].pc.Carved? && 0 <= s.threads[t].pc.cl < |s.central|
  {
    var pc := s.threads[t].pc;
    var num := |pc.objects|;
    Keep(SetCentral(s, pc.cl, Joined(s.central[pc.cl], pc.span, num))
         .(spans := s.spans[pc.span := Span(pc.cl, pc.objects, 0, num)]), t, Remove(pc.cl, pc.n))
  }

  /** The fresh span was put in front of the nonempty list, so the fetch takes from it. */
  function CarvedJoins(s: State, t: int): State
    requires Ready(s, t) && s.threads[t].pc.Carved? && 0 <= s.threads[t].pc.cl < |s.central|
    requires s.threads[t].pc.objects != []
  {
    var pc := s.threads[t].pc;
    Gathered(Joins(s, t), t, pc.cl, pc.n, pc.span, [])
  }

  function StarvedTries(s: State, t: int, x: int): State
    requires Ready(s, t) && s.threads[t].pc.Starved?
    requires CanFetch(s, s.threads[t].pc.cl, x) || NothingToFetch(s, s.threads[t].pc.cl)
  {
    var pc := s.threads[t].pc;
    if NothingToFetch(s, pc.cl) then Drop(s, t, Fetched(pc.cl, []))
    else Gathered(s, t, pc.cl, pc.n, x, [])
  }

  /** The first object fetched, if any, is handed to the application. */
  function HandedOut(s: State, t: int): State
    requires 0 <= t < |s.threads| && s.threads[t].pc.Fetched?
  {
    var pc := s.threads[t].pc;
    if pc.got == [] then Go(s, t, Idle)
    else Go(s.(app := [pc.got[0]] + s.app), t, Store(pc.cl, pc.got[1..]))
  }

  /** The other objects fetched go to the front of the thread's list. */
  function Stored(s: State, t: int): State
    requires 0 <= t < |s.threads| && t < |s.lists| && s.threads[t].pc.Store?
    requires 0 <= s.threads[t].pc.cl < |s.lists[t]|
  {
    var pc := s.threads[t].pc;
    Go(s.(lists := s.lists[t := s.lists[t][pc.cl := pc.rest + s.lists[t][pc.cl]]]), t, Idle)
  }

  function Acquired(s: State, t: int): State
    requires 0 <= t < |s.threads| && Needs(s.threads[t].pc).Some?
  {
    s.(threads := s.threads[t := s.threads[t].(locked := true)],
       owner := s.owner[Needs(s.threads[t].pc).value := t])
  }

  function Do(c: Config, s: State, t: int, a: Action): State
    requires Enabled(c, s, t, a)
  {
    match a
    case Acquire => Acquired(s, t)
    case StartInsert(cl, n) => StartInserting(s, t, cl, n)
    case StartFree(i) => StartFreeing(s, t, i)
    case StartRemove(cl, n) => Go(s, t, Remove(cl, n))
    case Allocate(cl) => Allocated(s, t, cl)
    case Deallocate(i) => Deallocated(s, t, i)
    case StepInsert => Inserted(c, s, t)
    case StepEvictNone => NotEvicted(s, t)
    case StepEvict(victim) => Evicted(s, t, victim)
    case StepShrink => Shrunk(s, t)
    case StepDecide => Decided(c, s, t)
    case StepRelease => Released(s, t)
    case StepDelete => Deleted(s, t)
    case StepRemove(x) => Removed(c, s, t, x)
    case StepGather(x) => GatheredMore(s, t, x)
    case StepPopulate(x, objects) => Populated(s, t, x, objects)
    case StepPopulateFails => PopulateFailed(s, t)
    case StepCarved => CarvedJoins(s, t)
    case StepStarved(x) => StarvedTries(s, t, x)
    case StepHandOut => HandedOut(s, t)
    case StepStore => Stored(s, t)
  }

  ghost predicate Next(c: Config, s: State, s': State) {
    exists t, a :: Enabled(c, s, t, a) && s' == Do(c, s, t, a)
  }

  /** Nothing carved, nothing cached, nobody inside, and cache sizes within their caps. */
  ghost predicate Init(c: Config, s: State) {
    && |s.central| == |c.batch| && |s.threads| == c.threads && |s.lists| == c.threads
    && (forall cl :: 0 <= cl < |s.central| ==>
          var q := s.central[cl];
          q == Central({}, {}, 0, 0, [], q.cacheSize) && cl < |c.maxSize| && 0 <= q.cacheSize <= c.maxSize[cl])
    && c.budget == Room(s.central)
    && s.spans == map[] && s.home == map[] && s.app == [] && s.owner == map[]
    && (forall t :: 0 <= t < |s.threads| ==> s.threads[t] == Thread(Idle, false))
    && (forall t :: 0 <= t < |s.lists| ==>
          |s.lists[t]| == |c.batch| && forall cl :: 0 <= cl < |s.lists[t]| ==> s.lists[t][cl] == [])
  }

  /** The transfer cache entries of all size classes together. */
  function Room(central: seq<Central>): int {
    if central == [] then 0 else central[0].cacheSize + Room(central[1..])
  }

  /** A finite run of the system. */
  ghost predicate Run(c: Config, run: seq<State>) {
    && run != [] && Init(c, run[0])
    && forall i :: 0 < i < |run| ==> Next(c, run[i - 1], run[i])
  }
}
