/** Every object carved from a span is in exactly one place, over every step. */
module CentralPlaces {
  import opened Sequences
  import opened CentralState
  import opened CentralLocks

  /** `Load` and `Stash` are the chains a thread has in its hands inside a central operation. */
  datatype Place =
    | OnSpan(x: int)
    | Slot(cl: int, i: int)
    | Cached(t: int, cl: int)
    | Load(t: int)
    | Stash(t: int)
    | App
    | Fresh(t: int)

  ghost function LoadOf(pc: Pc): seq<Obj> {
    match pc
    case Release(_, todo, _) => todo
    case Delete(_, todo, _) => todo
    case Gather(_, _, got) => got
    case Fetched(_, got) => got
    case Store(_, rest) => rest
    case _ => []
  }

  ghost function LoadClass(pc: Pc): int {
    match pc
    case Release(held, _, _) => held
    case Delete(held, _, _) => held
    case Gather(cl, _, _) => cl
    case Fetched(cl, _) => cl
    case Store(cl, _) => cl
    case _ => -1
  }

  ghost function StashOf(pc: Pc): seq<Obj> {
    match pc
    case Insert(_, chain) => chain
    case Evict(_, chain, _) => chain
    case Shrink(_, chain, _, _) => chain
    case Decide(_, chain, _, _) => chain
    case Release(_, _, after) => if after.Resume? then after.chain else []
    case Delete(_, _, after) => if after.Resume? then after.chain else []
    case _ => []
  }

  ghost function StashClass(pc: Pc): int {
    match pc
    case Insert(cl, _) => cl
    case Evict(cl, _, _) => cl
    case Shrink(cl, _, _, _) => cl
    case Decide(cl, _, _, _) => cl
    case Release(_, _, after) => if after.Resume? then after.cl else -1
    case Delete(_, _, after) => if after.Resume? then after.cl else -1
    case _ => -1
  }

  ghost function FreshOf(pc: Pc): seq<Obj> {
    if pc.Carved? then pc.objects else []
  }

  ghost function Items(s: State, p: Place): seq<Obj> {
    match p
    case OnSpan(x) => if x in s.spans then s.spans[x].objects else []
    case Slot(cl, i) =>
      if 0 <= cl < |s.central| && 0 <= i < |s.central[cl].slots| then s.central[cl].slots[i] else []
    case Cached(t, cl) => if 0 <= t < |s.lists| && 0 <= cl < |s.lists[t]| then s.lists[t][cl] else []
    case Load(t) => if 0 <= t < |s.threads| then LoadOf(s.threads[t].pc) else []
    case Stash(t) => if 0 <= t < |s.threads| then StashOf(s.threads[t].pc) else []
    case App => s.app
    case Fresh(t) => if 0 <= t < |s.threads| then FreshOf(s.threads[t].pc) else []
  }

  ghost predicate In(s: State, p: Place, o: Obj) {
    o in Items(s, p)
  }

  /** The size class that objects in a place must have. */
  ghost function PlaceClass(s: State, p: Place): int {
    match p
    case OnSpan(x) => if x in s.spans then s.spans[x].cl else -1
    case Slot(cl, _) => cl
    case Cached(_, cl) => cl
    case Load(t) => if 0 <= t < |s.threads| then LoadClass(s.threads[t].pc) else -1
    case Stash(t) => if 0 <= t < |s.threads| then StashClass(s.threads[t].pc) else -1
    case App => -1
    case Fresh(t) =>
      if 0 <= t < |s.threads| && s.threads[t].pc.Carved? then s.threads[t].pc.cl else -1
  }

  ghost predicate Rooted(s: State, o: Obj)
    requires o in s.home
  {
    s.home[o].span in s.spans && s.spans[s.home[o].span].cl == s.home[o].cl
  }

  ghost predicate Fits(s: State, p: Place, o: Obj)
    requires o in s.home
  {
    && (p.Fresh? || Rooted(s, o))
    && (p.App? || s.home[o].cl == PlaceClass(s, p))
    && (p.OnSpan? ==> s.home[o].span == p.x)
  }

  ghost predicate Tagged(s: State, p: Place, o: Obj) {
    o in s.home && Fits(s, p, o)
  }

  /** A span still being carved is in no list, and all objects tagged with it are in its chain. */
  ghost predicate FreshOk(s: State) {
    forall t :: 0 <= t < |s.threads| && s.threads[t].pc.Carved? ==> CarvedOk(s, s.threads[t].pc)
  }

  ghost predicate CarvedOk(s: State, pc: Pc)
    requires pc.Carved?
  {
    && pc.span !in s.spans
    && (forall o :: o in s.home && s.home[o].span == pc.span ==> o in pc.objects)
    && (forall o :: o in pc.objects ==> o in s.home && s.home[o].span == pc.span)
  }

  ghost predicate Placed(s: State) {
    && (forall p, o :: In(s, p, o) ==> Tagged(s, p, o))
    && (forall o :: o in s.home ==> exists p :: In(s, p, o))
    && (forall p, q, o :: In(s, p, o) && In(s, q, o) ==> p == q)
    && (forall p :: Distinct(Items(s, p)))
    && FreshOk(s)
  }

  /** `moved` and `rest` split `all`. */
  ghost predicate Parts(all: seq<Obj>, moved: seq<Obj>, rest: seq<Obj>) {
    && Distinct(moved) && Distinct(rest)
    && (forall o :: o in all <==> o in moved || o in rest)
    && (forall o :: o in moved ==> o !in rest)
  }

  lemma PrefixParts(all: seq<Obj>, n: int)
    requires Distinct(all) && 0 <= n <= |all|
    ensures Parts(all, all[..n], all[n..])
  {
    assert all == all[..n] + all[n..];
  }

  lemma OneParts(all: seq<Obj>, i: int)
    requires Distinct(all) && 0 <= i < |all|
    ensures Parts(all, [all[i]], Without(all, i))
  {
    var rest := Without(all, i);
    assert forall k :: 0 <= k < |rest| ==> rest[k] == if k < i then all[k] else all[k + 1];
    forall o | o in all ensures o in [all[i]] || o in rest {
      var k :| 0 <= k < |all| && all[k] == o;
      assert k < i ==> rest[k] == o;
      assert k > i ==> rest[k - 1] == o;
    }
  }

  /** Every place but two is as before. */
  ghost predicate OthersSame(s: State, s': State, from: Place, to: Place) {
    forall p :: p != from && p != to ==> Items(s', p) == Items(s, p)
  }

  /** The first `n` objects at a place go to the front of another; nothing else moves. */
  ghost predicate Shifted(s: State, s': State, from: Place, to: Place, n: int) {
    && from != to && 0 <= n <= |Items(s, from)|
    && Items(s', from) == Items(s, from)[n..] && Items(s', to) == Items(s, from)[..n] + Items(s, to)
    && OthersSame(s, s', from, to)
  }

  /** The object that is `i`th at a place goes to the front of another; nothing else moves. */
  ghost predicate Plucked(s: State, s': State, from: Place, to: Place, i: int) {
    && from != to && 0 <= i < |Items(s, from)|
    && Items(s', from) == Without(Items(s, from), i) && Items(s', to) == [Items(s, from)[i]] + Items(s, to)
    && OthersSame(s, s', from, to)
  }

  ghost predicate Unmoved(s: State, s': State) {
    forall p :: Items(s', p) == Items(s, p)
  }

  ghost predicate ClassesSame(s: State, s': State, to: Place) {
    && (forall p :: p != to && Items(s', p) != [] ==> PlaceClass(s', p) == PlaceClass(s, p))
    && (Items(s, to) != [] ==> PlaceClass(s', to) == PlaceClass(s, to))
  }

  ghost predicate RootsSame(s: State, s': State) {
    && s'.home == s.home
    && s'.spans.Keys == s.spans.Keys
    && forall x :: x in s.spans ==> s'.spans[x].cl == s.spans[x].cl
  }

  lemma FreshStays(s: State, s': State, t: int)
    requires FreshOk(s) && RootsSame(s, s') && OnlyThread(s, s', t) && !s'.threads[t].pc.Carved?
    ensures FreshOk(s')
  {
    forall u | 0 <= u < |s'.threads| && s'.threads[u].pc.Carved? ensures CarvedOk(s', s'.threads[u].pc) {
      assert u != t;
      assert CarvedOk(s, s.threads[u].pc);
    }
  }

  ghost predicate Moved(s: State, s': State, from: Place, to: Place, moved: seq<Obj>, rest: seq<Obj>) {
    && from != to && !from.Fresh? && !to.Fresh?
    && OthersSame(s, s', from, to) && ClassesSame(s, s', to)
    && Parts(Items(s, from), moved, rest)
    && Items(s', from) == rest && Items(s', to) == moved + Items(s, to)
    && (forall o :: o in moved ==> o in s'.home && Fits(s', to, o))
  }

  lemma MovedFrom(s: State, s': State, from: Place, to: Place, moved: seq<Obj>, rest: seq<Obj>, p: Place, o: Obj)
    requires Placed(s) && Moved(s, s', from, to, moved, rest)
    ensures In(s', p, o) <==> if o in moved then p == to else In(s, p, o)
  {
    hide Tagged, Fits, FreshOk, Distinct, ClassesSame, Items;
    if o in moved {
      assert In(s, from, o);
      assert In(s, p, o) ==> p == from;
    }
  }

  lemma MoveKeepsTag(s: State, s': State, from: Place, to: Place, moved: seq<Obj>, rest: seq<Obj>, p: Place, o: Obj)
    requires Placed(s) && Moved(s, s', from, to, moved, rest) && RootsSame(s, s') && In(s', p, o)
    ensures Tagged(s', p, o)
  {
    MovedFrom(s, s', from, to, moved, rest, p, o);
    if o !in moved {
      assert Tagged(s, p, o);
      assert Items(s, p) != [] && Items(s', p) != [];
    }
  }

  lemma MoveKeepsDistinct(s: State, s': State, from: Place, to: Place, moved: seq<Obj>, rest: seq<Obj>, p: Place)
    requires Placed(s) && Moved(s, s', from, to, moved, rest)
    ensures Distinct(Items(s', p))
  {
    assert Distinct(Items(s, p));
    if p == to {
      forall o | o in moved ensures o !in Items(s, to) {
        assert In(s, from, o);
        assert !In(s, to, o);
      }
      DistinctConcat(moved, Items(s, to));
    }
  }

  lemma MoveKeepsSome(s: State, s': State, from: Place, to: Place, moved: seq<Obj>, rest: seq<Obj>, o: Obj)
    requires Placed(s) && Moved(s, s', from, to, moved, rest) && o in s.home
    ensures exists p :: In(s', p, o)
  {
    var p :| In(s, p, o);
    var p' := if o in moved then to else p;
    MovedFrom(s, s', from, to, moved, rest, p', o);
    assert In(s', p', o);
  }

  /** Objects that move from one place to another stay in exactly one place. */
  lemma MoveKeepsPlaces(s: State, s': State, t: int, from: Place, to: Place, moved: seq<Obj>, rest: seq<Obj>)
    requires Placed(s) && Moved(s, s', from, to, moved, rest)
    requires RootsSame(s, s') && OnlyThread(s, s', t) && !s'.threads[t].pc.Carved?
    ensures Placed(s')
  {
    hide Moved, In, Tagged, Distinct;
    FreshStays(s, s', t);
    forall p, o | In(s', p, o) ensures Tagged(s', p, o) {
      MoveKeepsTag(s, s', from, to, moved, rest, p, o);
    }
    forall p, q, o | In(s', p, o) && In(s', q, o) ensures p == q {
      MovedFrom(s, s', from, to, moved, rest, p, o);
      MovedFrom(s, s', from, to, moved, rest, q, o);
    }
    forall o | o in s'.home ensures exists p :: In(s', p, o) {
      MoveKeepsSome(s, s', from, to, moved, rest, o);
    }
    forall p ensures Distinct(Items(s', p)) {
      MoveKeepsDistinct(s, s', from, to, moved, rest, p);
    }
  }

  /** A step that only changes what a thread does next. */
  lemma StayKeepsPlaces(s: State, s': State, t: int)
    requires Placed(s) && RootsSame(s, s') && OnlyThread(s, s', t) && !s'.threads[t].pc.Carved?
    requires forall p :: Items(s', p) == Items(s, p)
    requires forall p :: Items(s', p) != [] ==> PlaceClass(s', p) == PlaceClass(s, p)
    ensures Placed(s')
  {
    FreshStays(s, s', t);
    forall p, o | In(s', p, o) ensures In(s, p, o) && Tagged(s', p, o) {
      assert In(s, p, o);
      assert Tagged(s, p, o);
    }
    forall o | o in s'.home ensures exists p :: In(s', p, o) {
      var p :| In(s, p, o);
      assert In(s', p, o);
    }
    forall p ensures Distinct(Items(s', p)) {
      assert Distinct(Items(s, p));
    }
  }

  /** The thread goes on with the same chains in its hands, and nothing but locks changes. */
  ghost predicate SameHands(s: State, s': State, t: int) {
    && 0 <= t < |s.threads| == |s'.threads| && s' == s.(threads := s.threads[t := s'.threads[t]], owner := s'.owner)
    && var pc, pc' := s.threads[t].pc, s'.threads[t].pc;
    && !pc.Carved? && !pc'.Carved?
    && StashOf(pc') == StashOf(pc) && (StashOf(pc) != [] ==> StashClass(pc') == StashClass(pc))
    && LoadOf(pc') == LoadOf(pc) && (LoadOf(pc) != [] ==> LoadClass(pc') == LoadClass(pc))
  }

  lemma SameHandsItems(s: State, s': State, t: int, p: Place)
    requires SameHands(s, s', t)
    ensures Items(s', p) == Items(s, p) && (Items(s, p) != [] ==> PlaceClass(s', p) == PlaceClass(s, p))
  {
    hide StashOf, StashClass, LoadOf, LoadClass;
  }

  lemma StayMoves(s: State, s': State, t: int)
    requires Placed(s) && SameHands(s, s', t)
    ensures Placed(s') && Unmoved(s, s')
  {
    hide Placed, Items, PlaceClass, StashOf, StashClass, LoadOf, LoadClass;
    forall p ensures Items(s', p) == Items(s, p) && (Items(s, p) != [] ==> PlaceClass(s', p) == PlaceClass(s, p)) {
      SameHandsItems(s, s', t, p);
    }
    StayKeepsPlaces(s, s', t);
  }
}
