/** The cache of size classes as the page heap relies on it: a direct-mapped cache that forgets,
    but never answers for a key it does not hold (packed-cache-inl.h, tcmalloc.cc). */
module SizeCache {
  import opened Options
  import opened Spans

  datatype Line = Line(key: int, value: int)

  /** Slots that hold a line; all others are invalid. */
  type Cache = map<int, Line>

  const SLOTS: int := 0x1_0000

  function Get(cache: Cache, key: int): Option<int> {
    var slot := key % SLOTS;
    if slot in cache && cache[slot].key == key then Some(cache[slot].value) else None
  }

  function Put(cache: Cache, key: int, value: int): Cache {
    cache[key % SLOTS := Line(key, value)]
  }

  function Invalidate(cache: Cache, key: int): Cache {
    cache - {key % SLOTS}
  }

  lemma PutGet(cache: Cache, key: int, value: int, other: int)
    ensures other == key ==> Get(Put(cache, key, value), other) == Some(value)
    ensures other != key ==> Get(Put(cache, key, value), other) in {None, Get(cache, other)}
    ensures Get(Invalidate(cache, key), other) in {None, Get(cache, other)}
    ensures Get(Invalidate(cache, key), key) == None
  {}

  /** What the cache may say about a span in use: of a span without a size class nothing at its first
      page, of any page of a span with one either nothing or that class. */
  ghost predicate Tells(cache: Cache, s: Span) {
    if s.sizeclass == 0
    then Get(cache, s.start) == None
    else forall q | s.Contains(q) :: Get(cache, q) == None || Get(cache, q) == Some(s.sizeclass)
  }

  /** The cache is truthful about every settled span. */
  ghost predicate Truthful(live: SpanMap, cache: Cache, settled: set<Ptr>) {
    forall p | p in settled :: p in live && Tells(cache, live[p])
  }

  /** Forgetting a line keeps the cache truthful. */
  lemma ForgettingIsTruthful(live: SpanMap, cache: Cache, settled: set<Ptr>, key: int)
    requires Truthful(live, cache, settled)
    ensures Truthful(live, Invalidate(cache, key), settled)
  {
    hide Get, Invalidate;
    forall p | p in settled
      ensures Tells(Invalidate(cache, key), live[p])
    {
      if live[p].sizeclass == 0 {
        PutGet(cache, key, 0, live[p].start);
      } else {
        forall q | live[p].Contains(q)
          ensures Get(Invalidate(cache, key), q) == None || Get(Invalidate(cache, key), q) == Some(live[p].sizeclass)
        {
          PutGet(cache, key, 0, q);
        }
      }
    }
  }

  /** Remembering the true class of a page keeps the cache truthful, even though the slot may have
      held a page of another span. */
  lemma RememberingIsTruthful(live: SpanMap, cache: Cache, settled: set<Ptr>, p: Ptr, key: int)
    requires Truthful(live, cache, settled)
    requires p in live && live[p].Contains(key) && live[p].sizeclass != 0
    requires forall r | r in live && r != p :: !live[r].Contains(key)
    requires forall r | r in live :: live[r].length > 0
    ensures Truthful(live, Put(cache, key, live[p].sizeclass), settled)
  {
    hide Get, Put;
    var cache' := Put(cache, key, live[p].sizeclass);
    forall r | r in settled
      ensures Tells(cache', live[r])
    {
      if live[r].sizeclass == 0 {
        assert live[r].Contains(live[r].start);
        PutGet(cache, key, live[p].sizeclass, live[r].start);
      } else {
        forall q | live[r].Contains(q)
          ensures Get(cache', q) == None || Get(cache', q) == Some(live[r].sizeclass)
        {
          PutGet(cache, key, live[p].sizeclass, q);
        }
      }
    }
  }

  /** What is said of settled spans stays true as long as they are not touched. */
  lemma StaysTruthful(live: SpanMap, live': SpanMap, cache: Cache, settled: set<Ptr>)
    requires Truthful(live, cache, settled)
    requires forall p | p in settled :: p in live' && live'[p] == live[p]
    ensures Truthful(live', cache, settled)
  {}

  /** A span without a size class is settled once its first page is forgotten. */
  lemma SettlePlain(live: SpanMap, cache: Cache, settled: set<Ptr>, p: Ptr)
    requires Truthful(live, cache, settled) && p in live && live[p].sizeclass == 0
    ensures Truthful(live, Invalidate(cache, live[p].start), settled + {p})
  {
    hide Get, Invalidate, Tells;
    ForgettingIsTruthful(live, cache, settled, live[p].start);
    ForgottenTells(cache, live[p]);
  }

  lemma ForgottenTells(cache: Cache, s: Span)
    requires s.sizeclass == 0
    ensures Tells(Invalidate(cache, s.start), s)
  {
    PutGet(cache, s.start, 0, s.start);
  }

  /** On the pages from `a` up to `b` the cache says nothing or the given class. */
  ghost predicate TellsOn(cache: Cache, a: int, b: int, sizeclass: int) {
    forall q | a <= q < b :: Get(cache, q) == None || Get(cache, q) == Some(sizeclass)
  }

  lemma PutTellsOn(cache: Cache, a: int, b: int, sizeclass: int)
    requires TellsOn(cache, a, b, sizeclass)
    ensures TellsOn(Put(cache, b, sizeclass), a, b + 1, sizeclass)
  {
    var cache' := Put(cache, b, sizeclass);
    forall q | a <= q < b + 1
      ensures Get(cache', q) == None || Get(cache', q) == Some(sizeclass)
    {
      PutGet(cache, b, sizeclass, q);
    }
  }
}
