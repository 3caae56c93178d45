/**
 * The counts of the central lists: a span's refcount is the number of its objects that are
 * off its list, a class's counter the number of its objects that are on a list, and the
 * lists of a class split its spans by whether they have an object left.
 */
module CentralAccounts {
  import opened Sequences
  import opened CentralState

  /** All objects carved from span `x`. */
  ghost function Objects(home: map<Obj, Tag>, x: int): set<Obj> {
    set o | o in home && home[o].span == x
  }

  ghost predicate OnList(spans: map<int, Span>, home: map<Obj, Tag>, o: Obj)
    requires o in home
  {
    home[o].span in spans && o in spans[home[o].span].objects
  }

  /** The objects of class `cl` that are on their span's list. */
  ghost function Free(spans: map<int, Span>, home: map<Obj, Tag>, cl: int): set<Obj> {
    set o | o in home && home[o].cl == cl && OnList(spans, home, o)
  }

  ghost predicate SpanOk(sp: Span, home: map<Obj, Tag>, x: int) {
    && Distinct(sp.objects)
    && (forall o :: o in sp.objects ==> o in home && home[o] == Tag(x, sp.cl))
    && sp.refcount > 0
    && sp.refcount + |sp.objects| == sp.total == |Objects(home, x)|
  }

  ghost predicate SpansOk(spans: map<int, Span>, home: map<Obj, Tag>) {
    forall x :: x in spans ==> SpanOk(spans[x], home, x)
  }

  ghost predicate ListsOk(q: Central, spans: map<int, Span>, cl: int) {
    && (forall x :: x in q.nonempty <==> x in spans && spans[x].cl == cl && spans[x].objects != [])
    && (forall x :: x in q.empty <==> x in spans && spans[x].cl == cl && spans[x].objects == [])
    && q.numSpans == |q.nonempty| + |q.empty|
  }

  ghost predicate Accounts(central: seq<Central>, spans: map<int, Span>, home: map<Obj, Tag>) {
    && SpansOk(spans, home)
    && (forall cl :: 0 <= cl < |central| ==> ListsOk(central[cl], spans, cl))
    && (forall cl :: 0 <= cl < |central| ==> central[cl].counter == |Free(spans, home, cl)|)
  }

  lemma {:induction false} DistinctSize(s: seq<Obj>)
    requires Distinct(s)
    ensures |set o | o in s| == |s|
  {
    if s != [] {
      DistinctSize(s[1..]);
      assert (set o | o in s) == {s[0]} + (set o | o in s[1..]);
    }
  }

  lemma SubsetOfSize(a: set<Obj>, b: set<Obj>)
    requires a <= b && |a| == |b|
    ensures a == b
  {
    assert b == a + (b - a);
    assert |b - a| == 0;
  }

  /** The refcount is the number of the span's objects that are not on its list. */
  lemma RefcountCounts(spans: map<int, Span>, home: map<Obj, Tag>, x: int)
    requires SpansOk(spans, home) && x in spans
    ensures spans[x].refcount == |set o | o in home && home[o].span == x && o !in spans[x].objects|
  {
    var sp := spans[x];
    assert SpanOk(sp, home, x);
    var on := set o | o in sp.objects;
    DistinctSize(sp.objects);
    assert Objects(home, x) == on + (Objects(home, x) - on);
    assert (set o | o in home && home[o].span == x && o !in sp.objects) == Objects(home, x) - on;
  }

  /** With refcount one, one object is out and all the others are on the list. */
  lemma LastObjectOut(spans: map<int, Span>, home: map<Obj, Tag>, x: int, o: Obj)
    requires SpansOk(spans, home) && x in spans && o in home && home[o].span == x && o !in spans[x].objects
    ensures spans[x].refcount == 1 <==>
            forall q :: q in home && home[q].span == x && q != o ==> q in spans[x].objects
  {
    RefcountCounts(spans, home, x);
    var off := set q | q in home && home[q].span == x && q !in spans[x].objects;
    assert o in off;
    assert (forall q :: q in home && home[q].span == x && q != o ==> q in spans[x].objects) ==> off == {o};
    if spans[x].refcount == 1 {
      SubsetOfSize({o}, off);
      forall q | q in home && home[q].span == x && q != o ensures q in spans[x].objects {
        assert q !in {o} && q !in off;
      }
    }
  }

  // ----- Putting an object back -----

  ghost predicate CanPutBack(central: seq<Central>, spans: map<int, Span>, home: map<Obj, Tag>, cl: int, x: int, o: Obj) {
    && Accounts(central, spans, home) && 0 <= cl < |central| && x in spans
    && o in home && home[o] == Tag(x, cl) && spans[x].cl == cl && o !in spans[x].objects
  }

  lemma PutBackFree(spans: map<int, Span>, home: map<Obj, Tag>, x: int, o: Obj, cl: int)
    requires x in spans && o in home && home[o].span == x
    ensures Free(spans[x := PutBack(spans[x], o)], home, cl) ==
            Free(spans, home, cl) + (if home[o].cl == cl then {o} else {})
  {
  }

  lemma PutBackSpans(spans: map<int, Span>, home: map<Obj, Tag>, x: int, o: Obj)
    requires SpansOk(spans, home) && x in spans && spans[x].refcount != 1
    requires o in home && home[o] == Tag(x, spans[x].cl) && o !in spans[x].objects
    ensures SpansOk(spans[x := PutBack(spans[x], o)], home)
  {
    assert SpanOk(spans[x], home, x);
    var sp := PutBack(spans[x], o);
    assert forall i :: 0 < i < |sp.objects| ==> sp.objects[i] == spans[x].objects[i - 1];
    assert SpanOk(sp, home, x);
  }

  /** The lists are right for spans that differ in `x` only, if they are right about `x`. */
  lemma ListsChange(q: Central, q': Central, spans: map<int, Span>, spans': map<int, Span>, cl: int, x: int)
    requires ListsOk(q, spans, cl) && x in spans'
    requires forall y :: y != x ==> (y in spans' <==> y in spans) && (y in spans ==> spans'[y] == spans[y])
    requires forall y :: y != x ==> (y in q'.nonempty <==> y in q.nonempty) && (y in q'.empty <==> y in q.empty)
    requires x in q'.nonempty <==> spans'[x].cl == cl && spans'[x].objects != []
    requires x in q'.empty <==> spans'[x].cl == cl && spans'[x].objects == []
    requires q'.numSpans == |q'.nonempty| + |q'.empty|
    ensures ListsOk(q', spans', cl)
  {
  }

  lemma PutBackLists(q: Central, spans: map<int, Span>, cl: int, x: int, o: Obj)
    requires ListsOk(q, spans, cl) && x in spans && spans[x].cl == cl
    ensures ListsOk(Gained(q, x), spans[x := PutBack(spans[x], o)], cl)
  {
    if spans[x].objects == [] {
      assert x in q.empty && x !in q.nonempty;
    } else {
      assert x in q.nonempty && x !in q.empty;
      assert q.nonempty + {x} == q.nonempty && q.empty - {x} == q.empty;
    }
    ListsChange(q, Gained(q, x), spans, spans[x := PutBack(spans[x], o)], cl, x);
  }

  lemma PutBackKeepsAccounts(central: seq<Central>, spans: map<int, Span>, home: map<Obj, Tag>, cl: int, x: int, o: Obj)
    requires CanPutBack(central, spans, home, cl, x, o) && spans[x].refcount != 1
    ensures Accounts(central[cl := Gained(central[cl], x)], spans[x := PutBack(spans[x], o)], home)
  {
    PutBackSpans(spans, home, x, o);
    PutBackLists(central[cl], spans, cl, x, o);
    var spans' := spans[x := PutBack(spans[x], o)];
    assert o !in Free(spans, home, cl);
    forall k | 0 <= k < |central| ensures |Free(spans', home, k)| == |Free(spans, home, k)| + if k == cl then 1 else 0 {
      PutBackFree(spans, home, x, o, k);
    }
    forall k | 0 <= k < |central| && k != cl ensures ListsOk(central[k], spans', k) {
      OtherLists(central[k], spans, spans', k, x);
    }
  }

  /** A change to a span of another class does not show in a list. */
  lemma OtherLists(q: Central, spans: map<int, Span>, spans': map<int, Span>, k: int, x: int)
    requires ListsOk(q, spans, k)
    requires forall y :: y != x ==> (y in spans' <==> y in spans)
    requires forall y :: y != x && y in spans ==> spans'[y] == spans[y]
    requires (x in spans ==> spans[x].cl != k) && (x in spans' ==> spans'[x].cl != k)
    ensures ListsOk(q, spans', k)
  {
  }

  // ----- Fetching -----

  lemma FetchFreeIs(spans: map<int, Span>, home: map<Obj, Tag>, x: int, sp: Span, taken: seq<Obj>, k: int)
    requires x in spans && forall o :: o in spans[x].objects <==> o in taken || o in sp.objects
    requires forall o :: o in taken ==> o !in sp.objects && o in home && home[o] == Tag(x, spans[x].cl)
    ensures Free(spans[x := sp], home, k) == Free(spans, home, k) - if spans[x].cl == k then set o | o in taken else {}
    ensures spans[x].cl == k ==> (set o | o in taken) <= Free(spans, home, k)
  {
    forall o | o in home ensures OnList(spans[x := sp], home, o) <==> OnList(spans, home, o) && o !in taken {
    }
    if spans[x].cl == k {
      forall o | o in taken ensures o in Free(spans, home, k) {
        assert OnList(spans, home, o);
      }
    }
  }

  lemma FetchFree(spans: map<int, Span>, home: map<Obj, Tag>, x: int, n: int, k: int)
    requires SpansOk(spans, home) && x in spans && 0 <= n <= |spans[x].objects|
    ensures |Free(spans[x := TakeFrom(spans[x], n)], home, k)| ==
            |Free(spans, home, k)| - if spans[x].cl == k then n else 0
  {
    hide Free;
    var sp := spans[x];
    assert SpanOk(sp, home, x);
    var taken := sp.objects[..n];
    assert sp.objects == taken + sp.objects[n..];
    DistinctSize(taken);
    assert forall o :: o in taken ==> o !in sp.objects[n..];
    FetchFreeIs(spans, home, x, TakeFrom(sp, n), taken, k);
  }

  lemma FetchSpans(spans: map<int, Span>, home: map<Obj, Tag>, x: int, n: int)
    requires SpansOk(spans, home) && x in spans && 0 <= n <= |spans[x].objects|
    ensures SpansOk(spans[x := TakeFrom(spans[x], n)], home)
  {
    assert SpanOk(spans[x], home, x);
    assert SpanOk(TakeFrom(spans[x], n), home, x);
  }

  lemma FetchLists(q: Central, spans: map<int, Span>, cl: int, x: int, n: int)
    requires ListsOk(q, spans, cl) && x in q.nonempty && 0 <= n <= |spans[x].objects|
    ensures ListsOk(Lost(q, x, n, |spans[x].objects| - n), spans[x := TakeFrom(spans[x], n)], cl)
  {
    assert x !in q.empty;
  }

  lemma FetchKeepsAccounts(central: seq<Central>, spans: map<int, Span>, home: map<Obj, Tag>, cl: int, x: int, n: int)
    requires Accounts(central, spans, home) && 0 <= cl < |central| && x in central[cl].nonempty && x in spans
    requires 0 <= n <= |spans[x].objects|
    ensures Accounts(central[cl := Lost(central[cl], x, n, |spans[x].objects| - n)],
                     spans[x := TakeFrom(spans[x], n)], home)
  {
    FetchSpans(spans, home, x, n);
    FetchLists(central[cl], spans, cl, x, n);
    var spans' := spans[x := TakeFrom(spans[x], n)];
    forall k | 0 <= k < |central| ensures |Free(spans', home, k)| == |Free(spans, home, k)| - if k == cl then n else 0 {
      FetchFree(spans, home, x, n, k);
    }
    forall k | 0 <= k < |central| && k != cl ensures ListsOk(central[k], spans', k) {
      OtherLists(central[k], spans, spans', k, x);
    }
  }

  // ----- Retiring a span -----

  lemma RetireFree(spans: map<int, Span>, home: map<Obj, Tag>, x: int, o: Obj, k: int)
    requires SpansOk(spans, home) && x in spans && spans[x].refcount == 1
    requires o in home && home[o].span == x && o !in spans[x].objects
    ensures |Free(spans - {x}, Forget(home, x), k)| ==
            |Free(spans, home, k)| - if spans[x].cl == k then spans[x].total - 1 else 0
  {
    var sp := spans[x];
    assert SpanOk(sp, home, x);
    var on := set q | q in sp.objects;
    DistinctSize(sp.objects);
    if sp.cl == k {
      assert Free(spans - {x}, Forget(home, x), k) == Free(spans, home, k) - on;
      assert on <= Free(spans, home, k);
    } else {
      assert Free(spans - {x}, Forget(home, x), k) == Free(spans, home, k);
    }
  }

  lemma RetireSpans(spans: map<int, Span>, home: map<Obj, Tag>, x: int)
    requires SpansOk(spans, home)
    ensures SpansOk(spans - {x}, Forget(home, x))
  {
    forall y | y in spans - {x} ensures SpanOk(spans[y], Forget(home, x), y) {
      assert SpanOk(spans[y], home, y);
      assert Objects(Forget(home, x), y) == Objects(home, y);
    }
  }

  lemma RetireLists(q: Central, spans: map<int, Span>, cl: int, x: int, total: int)
    requires ListsOk(q, spans, cl) && x in spans && spans[x].cl == cl
    ensures ListsOk(Retired(q, x, total), spans - {x}, cl)
  {
    if spans[x].objects == [] {
      assert x in q.empty && x !in q.nonempty && q.nonempty - {x} == q.nonempty;
    } else {
      assert x in q.nonempty && x !in q.empty && q.empty - {x} == q.empty;
    }
  }

  lemma RetireKeepsAccounts(central: seq<Central>, spans: map<int, Span>, home: map<Obj, Tag>, cl: int, x: int, o: Obj)
    requires CanPutBack(central, spans, home, cl, x, o) && spans[x].refcount == 1
    ensures Accounts(central[cl := Retired(central[cl], x, spans[x].total)], spans - {x}, Forget(home, x))
  {
    hide Forget, Free, SpansOk, ListsOk;
    RetireSpans(spans, home, x);
    RetireLists(central[cl], spans, cl, x, spans[x].total);
    forall k | 0 <= k < |central|
      ensures |Free(spans - {x}, Forget(home, x), k)| == |Free(spans, home, k)| - if k == cl then spans[x].total - 1 else 0
    {
      RetireFree(spans, home, x, o, k);
    }
    forall k | 0 <= k < |central| && k != cl ensures ListsOk(central[k], spans - {x}, k) {
      OtherLists(central[k], spans, spans - {x}, k, x);
    }
  }

  // ----- Carving a span and letting it join -----

  lemma AdoptKeepsAccounts(central: seq<Central>, spans: map<int, Span>, home: map<Obj, Tag>, objects: seq<Obj>, tag: Tag)
    requires Accounts(central, spans, home) && tag.span !in spans
    requires forall o :: o in objects ==> o !in home
    ensures Accounts(central, spans, Adopt(home, objects, tag))
  {
    var home' := Adopt(home, objects, tag);
    forall x | x in spans ensures SpanOk(spans[x], home', x) {
      assert SpanOk(spans[x], home, x);
      forall o ensures o in Objects(home', x) <==> o in Objects(home, x) {
        assert o in home' <==> o in home || o in objects;
      }
      assert Objects(home', x) == Objects(home, x);
    }
    forall cl | 0 <= cl < |central| ensures Free(spans, home', cl) == Free(spans, home, cl) {
    }
  }

  ghost predicate CanJoin(central: seq<Central>, spans: map<int, Span>, home: map<Obj, Tag>, cl: int, x: int, objects: seq<Obj>) {
    && Accounts(central, spans, home) && 0 <= cl < |central| && x !in spans && Distinct(objects)
    && (forall o :: o in objects ==> o in home && home[o] == Tag(x, cl))
    && (forall o :: o in home && home[o].span == x ==> o in objects)
  }

  lemma JoinFreeIs(spans: map<int, Span>, home: map<Obj, Tag>, cl: int, x: int, sp: Span, k: int)
    requires x !in spans && forall o :: o in sp.objects ==> o in home && home[o] == Tag(x, cl)
    ensures Free(spans[x := sp], home, k) ==
            Free(spans, home, k) + if k == cl then set o | o in sp.objects else {}
  {
    forall o | o in home
      ensures OnList(spans[x := sp], home, o) <==> OnList(spans, home, o) || o in sp.objects
    {
    }
  }

  lemma JoinFree(spans: map<int, Span>, home: map<Obj, Tag>, cl: int, x: int, objects: seq<Obj>, n: int, k: int)
    requires x !in spans && Distinct(objects) && 0 <= n <= |objects|
    requires forall o :: o in objects ==> o in home && home[o] == Tag(x, cl)
    ensures |Free(spans[x := Span(cl, objects[n..], n, |objects|)], home, k)| ==
            |Free(spans, home, k)| + if k == cl then |objects| - n else 0
  {
    var left := objects[n..];
    DistinctSize(left);
    assert forall o :: o in left ==> o in objects;
    JoinFreeIs(spans, home, cl, x, Span(cl, left, n, |objects|), k);
    assert k == cl ==> Free(spans, home, k) !! set o | o in left;
  }

  lemma JoinSpans(spans: map<int, Span>, home: map<Obj, Tag>, cl: int, x: int, objects: seq<Obj>, n: int)
    requires SpansOk(spans, home) && x !in spans && Distinct(objects) && 0 < n <= |objects|
    requires forall o :: o in objects ==> o in home && home[o] == Tag(x, cl)
    requires forall o :: o in home && home[o].span == x ==> o in objects
    ensures SpansOk(spans[x := Span(cl, objects[n..], n, |objects|)], home)
  {
    DistinctSize(objects);
    assert Objects(home, x) == set o | o in objects;
    assert forall o :: o in objects[n..] ==> o in objects;
    assert SpanOk(Span(cl, objects[n..], n, |objects|), home, x);
  }

  lemma JoinLists(q: Central, spans: map<int, Span>, cl: int, x: int, objects: seq<Obj>, n: int)
    requires ListsOk(q, spans, cl) && x !in spans && 0 < n <= |objects|
    ensures ListsOk(Lost(Joined(q, x, |objects|), x, n, |objects| - n),
                    spans[x := Span(cl, objects[n..], n, |objects|)], cl)
  {
    assert x !in q.nonempty && x !in q.empty;
    assert q.nonempty + {x} - {x} == q.nonempty;
    assert |q.nonempty + {x}| == |q.nonempty| + 1 && |q.empty + {x}| == |q.empty| + 1;
    ListsChange(q, Lost(Joined(q, x, |objects|), x, n, |objects| - n), spans,
                spans[x := Span(cl, objects[n..], n, |objects|)], cl, x);
  }

  lemma JoinKeepsAccounts(central: seq<Central>, spans: map<int, Span>, home: map<Obj, Tag>, cl: int, x: int, objects: seq<Obj>, n: int)
    requires CanJoin(central, spans, home, cl, x, objects) && 0 < n <= |objects|
    ensures Accounts(central[cl := Lost(Joined(central[cl], x, |objects|), x, n, |objects| - n)],
                     spans[x := Span(cl, objects[n..], n, |objects|)], home)
  {
    JoinSpans(spans, home, cl, x, objects, n);
    JoinLists(central[cl], spans, cl, x, objects, n);
    var spans' := spans[x := Span(cl, objects[n..], n, |objects|)];
    forall k | 0 <= k < |central|
      ensures |Free(spans', home, k)| == |Free(spans, home, k)| + if k == cl then |objects| - n else 0
    {
      JoinFree(spans, home, cl, x, objects, n, k);
    }
    forall k | 0 <= k < |central| && k != cl ensures ListsOk(central[k], spans', k) {
      OtherLists(central[k], spans, spans', k, x);
    }
  }

  // ----- The counter as a sum over spans -----

  /** The objects not in use, summed over a list of spans. */
  ghost function Unused(spans: map<int, Span>, list: seq<int>): int
    requires forall x :: x in list ==> x in spans
  {
    if list == [] then 0 else
      var x := list[0];
      assert x in list;
      spans[x].total - spans[x].refcount + Unused(spans, list[1..])
  }

  ghost function FreeIn(spans: map<int, Span>, home: map<Obj, Tag>, list: seq<int>): set<Obj> {
    set o | o in home && home[o].span in list && OnList(spans, home, o)
  }

  lemma {:induction false} UnusedCounts(spans: map<int, Span>, home: map<Obj, Tag>, list: seq<int>)
    requires SpansOk(spans, home) && Distinct(list) && forall x :: x in list ==> x in spans
    ensures Unused(spans, list) == |FreeIn(spans, home, list)|
  {
    if list == [] {
      assert FreeIn(spans, home, list) == {};
    } else {
      var x, rest := list[0], list[1..];
      assert list == [x] + rest;
      UnusedCounts(spans, home, rest);
      assert SpanOk(spans[x], home, x);
      DistinctSize(spans[x].objects);
      FreeInCons(spans, home, x, rest);
    }
  }

  lemma FreeInCons(spans: map<int, Span>, home: map<Obj, Tag>, x: int, rest: seq<int>)
    requires x in spans && SpanOk(spans[x], home, x) && x !in rest
    ensures FreeIn(spans, home, [x] + rest) == FreeIn(spans, home, rest) + set o | o in spans[x].objects
    ensures FreeIn(spans, home, rest) !! set o | o in spans[x].objects
  {
  }

  /** A class's counter is the number of unused objects summed over the spans on its two lists. */
  lemma CounterIsSum(central: seq<Central>, spans: map<int, Span>, home: map<Obj, Tag>, cl: int, list: seq<int>)
    requires Accounts(central, spans, home) && 0 <= cl < |central| && Distinct(list)
    requires forall x :: x in list <==> x in central[cl].nonempty || x in central[cl].empty
    ensures forall x :: x in list ==> x in spans
    ensures central[cl].counter == Unused(spans, list)
  {
    assert ListsOk(central[cl], spans, cl);
    UnusedCounts(spans, home, list);
    forall o | o in home && OnList(spans, home, o) ensures home[o].cl == cl <==> home[o].span in list {
      assert SpanOk(spans[home[o].span], home, home[o].span);
    }
    assert Free(spans, home, cl) == FreeIn(spans, home, list);
  }
}
