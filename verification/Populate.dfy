/** Cutting a fresh span into objects, in 64-bit address arithmetic, and the sizes of the transfer caches. */
module Populating {
  import opened Arith
  import opened Sequences
  import opened CentralState

  /** `num` objects of `size` bytes, one after the other. */
  function Row(start: int, size: int, num: nat): seq<Obj> {
    seq(num, i => start + i * size)
  }

  /** Where in a row an object starts. */
  ghost function Offset(num: int, size: int): int {
    num * size
  }

  lemma RowStep(start: int, size: int, num: nat)
    ensures Row(start, size, num) + [start + num * size] == Row(start, size, num + 1)
  {
  }

  lemma RowApart(size: int, i: int, j: int)
    requires size > 0 && i < j
    ensures i * size + size <= j * size
  {
    MulLe(i + 1, j, size);
  }

  /** The objects of a row do not overlap and stay inside the span. */
  lemma RowIsDisjoint(start: int, size: int, num: nat, bytes: int)
    requires size > 0 && num * size <= bytes
    ensures forall i, j :: 0 <= i < j < num ==> Row(start, size, num)[i] + size <= Row(start, size, num)[j]
    ensures forall i :: 0 <= i < num ==> start <= Row(start, size, num)[i] <= start + bytes - size
    ensures Distinct(Row(start, size, num))
  {
    var row := Row(start, size, num);
    forall i, j | 0 <= i < j < num ensures row[i] + size <= row[j] {
      RowApart(size, i, j);
    }
    forall i | 0 <= i < num ensures start <= row[i] <= start + bytes - size {
      RowApart(size, i, num);
      RowApart(size, -1, i);
    }
  }

  /**
   * As many objects as fit, in address order; the sum that would pass the top of the address
   * space ends the loop too. Only a span that touches the very top yields nothing: its end
   * wraps round to address zero.
   */
  method CarveObjects(start: int, bytes: int, size: int) returns (objects: seq<Obj>)
    requires 0 <= start && 0 < size <= bytes < WORD && start + bytes <= WORD
    ensures start + bytes < WORD ==> objects == Row(start, size, bytes / size)
    ensures start + bytes == WORD ==> objects == []
    ensures objects != [] <==> start + bytes < WORD
  {
    hide Offset, Row;
    var ptr := start;
    var limit := (start + bytes) % WORD;
    objects := [];
    var num := 0;
    assert start + bytes < WORD ==> limit == start + bytes;
    RowStart(start, size);
    while true
      invariant 0 <= num && ptr == start + Offset(num, size) && objects == Row(start, size, num)
      invariant start + bytes < WORD ==> ptr <= limit
      invariant start + bytes == WORD ==> num == 0
      decreases start + bytes - ptr
    {
      var nextptr := (ptr + size) % WORD;
      assert ptr + size >= WORD ==> nextptr == ptr + size - WORD;
      if nextptr < ptr || nextptr > limit {
        break;
      }
      NextInRow(start, size, num);
      objects := objects + [ptr];
      num := num + 1;
      ptr := nextptr;
    }
    if start + bytes < WORD {
      RowFits(start, size, bytes, num);
    }
  }

  lemma RowStart(start: int, size: int)
    ensures Offset(0, size) == 0 && Row(start, size, 0) == []
  {
  }

  lemma NextInRow(start: int, size: int, num: nat)
    ensures Row(start, size, num) + [start + Offset(num, size)] == Row(start, size, num + 1)
    ensures Offset(num + 1, size) == Offset(num, size) + size && |Row(start, size, num + 1)| == num + 1
  {
    RowStep(start, size, num);
  }

  lemma RowFits(start: int, size: int, bytes: int, num: nat)
    requires 0 < size <= bytes && Offset(num, size) <= bytes < Offset(num, size) + size
    ensures bytes / size == num && |Row(start, size, num)| > 0
  {
    DivModIs(bytes, size, num, bytes - num * size);
    OneFits(bytes, size);
  }

  lemma OneFits(bytes: int, size: int)
    requires 0 < size <= bytes
    ensures bytes / size >= 1
  {
    var fit := bytes / size;
    assert bytes == fit * size + bytes % size;
    assert fit <= 0 ==> fit * size <= 0;
  }

  /** What a central list is carved into is what the run of the lists starts from. */
  lemma CarvedIsFresh(s: State, x: int, start: int, bytes: int, size: int)
    requires 0 <= start && 0 < size <= bytes && start + bytes < WORD
    requires x !in s.spans && forall o :: o in s.home ==> s.home[o].span != x
    requires forall o :: o in s.home ==> !(start <= o < start + bytes)
    ensures FreshSpan(s, x, Row(start, size, bytes / size))
  {
    OneFits(bytes, size);
    assert bytes == (bytes / size) * size + bytes % size;
    RowIsDisjoint(start, size, bytes / size, bytes);
  }

  const MAX_ENTRIES := 64

  function MaxCacheSize(bytes: int, batch: int): int
    requires bytes > 0 && batch > 0
  {
    assert bytes * batch > 0;
    var fit := (1024 * 1024) / (bytes * batch);
    var atLeastOne := if fit < 1 then 1 else fit;
    if MAX_ENTRIES < atLeastOne then MAX_ENTRIES else atLeastOne
  }

  function CacheSize(bytes: int, batch: int): int
    requires bytes > 0 && batch > 0
  {
    if 16 < MaxCacheSize(bytes, batch) then 16 else MaxCacheSize(bytes, batch)
  }

  /** A cache may hold one batch or a megabyte of objects, whichever is more, in at most 64 entries. */
  lemma CacheSizesFit(bytes: int, batch: int)
    requires bytes > 0 && batch > 0
    ensures 1 <= CacheSize(bytes, batch) <= MaxCacheSize(bytes, batch) <= MAX_ENTRIES
    ensures MaxCacheSize(bytes, batch) == 1 || MaxCacheSize(bytes, batch) * (bytes * batch) <= 1024 * 1024
    ensures MaxCacheSize(bytes, batch) == MAX_ENTRIES || (MaxCacheSize(bytes, batch) + 1) * (bytes * batch) > 1024 * 1024
    ensures CacheSize(bytes, batch) == 16 || (CacheSize(bytes, batch) < 16 && CacheSize(bytes, batch) == MaxCacheSize(bytes, batch))
  {
    var unit := bytes * batch;
    assert unit > 0;
    var fit := (1024 * 1024) / unit;
    assert 1024 * 1024 == fit * unit + (1024 * 1024) % unit;
    var m := MaxCacheSize(bytes, batch);
    assert m <= fit ==> (fit - m) * unit >= 0;
    assert (fit + 1) * unit == fit * unit + unit;
    assert m >= fit ==> (m - fit) * unit >= 0;
    assert (m + 1) * unit == (fit + 1) * unit + (m - fit) * unit;
  }
}
