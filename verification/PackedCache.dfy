/** The direct-mapped cache from page numbers to size classes, one machine word per slot
    (packed-cache-inl.h). */
module PackedCaches {
  import opened Arith
  import opened Options
  import SizeCache

  const SLOTS: int := SizeCache.SLOTS
  const LOW: bv64 := 0xFFFF
  const INVALID: bv64 := 0x80
  const VALUES: bv64 := 0x80
  /** What filling every byte with the invalid bit leaves in a word. */
  const CLEARED: bv64 := 0x8080_8080_8080_8080

  function Hash(key: bv64): bv64 {
    key & LOW
  }

  function KeyToUpper(key: bv64): bv64 {
    key ^ Hash(key)
  }

  /** What a slot with this word answers for a key that hashes to it. */
  function Decode(word: bv64, key: bv64): Option<bv64> {
    var rest := word ^ (key & !LOW);
    if rest >= VALUES then None else Some(rest)
  }

  /** A packed word answers exactly the key it was packed for, with the value packed. */
  lemma PackedAnswers(key: bv64, value: bv64, other: bv64)
    requires value < VALUES && Hash(key) == Hash(other)
    ensures Decode(KeyToUpper(key) | value, other) == if other == key then Some(value) else None
  {
    if other == key {
      SameKey(key, value);
    } else {
      OtherKey(key, value, other);
    }
  }

  lemma SameKey(key: bv64, value: bv64)
    requires value < VALUES
    ensures ((key ^ (key & LOW)) | value) ^ (key & !LOW) == value
  {}

  lemma OtherKey(key: bv64, value: bv64, other: bv64)
    requires value < VALUES && key & LOW == other & LOW && key != other
    ensures ((key ^ (key & LOW)) | value) ^ (other & !LOW) >= VALUES
  {}

  /** An invalidated word, and a cleared one, answer no key at all. */
  lemma InvalidAnswersNone(key: bv64, other: bv64)
    ensures Decode(KeyToUpper(key) | INVALID, other) == None && Decode(CLEARED, other) == None
  {}

  /** The low bits of a key, as a narrower word. */
  function Low16(key: bv64): bv16 {
    (key & LOW) as bv16
  }

  function ToInt(x: bv16): (i: int)
    ensures 0 <= i < SLOTS
  {
    x as int
  }

  function FromInt(i: int): bv16
    requires 0 <= i < SLOTS
  {
    i as bv16
  }

  /** The slot a key belongs to. */
  function Index(key: bv64): (i: int)
    ensures 0 <= i < SLOTS
  {
    ToInt(Low16(key))
  }

  lemma ThereAndBack(x: bv16)
    ensures FromInt(ToInt(x)) == x
  {}

  lemma SameInt(x: bv16, y: bv16)
    requires ToInt(x) == ToInt(y)
    ensures x == y
  {
    hide ToInt, FromInt;
    ThereAndBack(x);
    ThereAndBack(y);
  }

  lemma SameLow(a: bv64, b: bv64)
    requires Low16(a) == Low16(b)
    ensures Hash(a) == Hash(b)
  {}

  lemma SameIndex(a: bv64, b: bv64)
    requires Index(a) == Index(b)
    ensures Hash(a) == Hash(b)
  {
    hide ToInt, FromInt, Low16, Hash;
    SameInt(Low16(a), Low16(b));
    SameLow(a, b);
  }

  // ----- The cache of size classes it implements -----

  function High48(key: bv64): bv48 {
    (key >> 16) as bv48
  }

  function HighInt(x: bv48): (i: int)
    ensures 0 <= i
  {
    x as int
  }

  lemma HighThereAndBack(x: bv48)
    ensures HighInt(x) as bv48 == x
  {}

  /** The number a word stands for. */
  function Number(key: bv64): int {
    HighInt(High48(key)) * SLOTS + Index(key)
  }

  /** The number a value stands for. */
  function Value(value: bv64): int {
    (value & 0x7F) as bv7 as int
  }

  function Plain(answer: Option<bv64>): Option<int> {
    match answer
    case None => None
    case Some(value) => Some(Value(value))
  }

  lemma NumberSlot(key: bv64)
    ensures Number(key) % SLOTS == Index(key) && Number(key) / SLOTS == HighInt(High48(key))
  {
    hide Index, High48, HighInt;
    DivModIs(Number(key), SLOTS, HighInt(High48(key)), Index(key));
  }

  lemma SameParts(a: bv64, b: bv64)
    requires Low16(a) == Low16(b) && High48(a) == High48(b)
    ensures a == b
  {}

  lemma SameHigh(a: bv48, b: bv48)
    requires HighInt(a) == HighInt(b)
    ensures a == b
  {
    hide HighInt;
    HighThereAndBack(a);
    HighThereAndBack(b);
  }

  /** Different words stand for different numbers. */
  lemma SameNumber(a: bv64, b: bv64)
    requires Number(a) == Number(b)
    ensures a == b
  {
    hide HighInt, High48, Low16, ToInt, FromInt, Number;
    NumberSlot(a);
    NumberSlot(b);
    SameHigh(High48(a), High48(b));
    SameInt(Low16(a), Low16(b));
    SameParts(a, b);
  }

  /** The answer for every key is the one of the cache of size classes for its number. */
  ghost predicate Agrees(answer: Option<bv64>, cache: SizeCache.Cache, key: bv64) {
    Plain(answer) == SizeCache.Get(cache, Number(key))
  }

  lemma PutAgrees(answer: Option<bv64>, cache: SizeCache.Cache, key: bv64, value: bv64, other: bv64)
    requires Agrees(answer, cache, other)
    ensures Agrees(if other == key then Some(value) else if Index(other) == Index(key) then None else answer,
                   SizeCache.Put(cache, Number(key), Value(value)), other)
  {
    hide Number, Index, Value;
    NumberSlot(key);
    NumberSlot(other);
    if Number(other) == Number(key) {
      SameNumber(other, key);
    }
  }

  lemma InvalidateAgrees(answer: Option<bv64>, cache: SizeCache.Cache, key: bv64, other: bv64)
    requires Agrees(answer, cache, other)
    ensures Agrees(if Index(other) == Index(key) then None else answer, SizeCache.Invalidate(cache, Number(key)), other)
  {
    hide Number, Index, Value;
    NumberSlot(key);
    NumberSlot(other);
  }

  class PackedCache {
    const words: array<bv64>

    ghost predicate Valid() {
      words.Length == SLOTS
    }

    /** What the cache knows of a key. */
    ghost function Lookup(key: bv64): Option<bv64>
      requires Valid()
      reads words
    {
      Decode(words[Index(key)], key)
    }

    /** The words implement the given cache of size classes. */
    ghost predicate Shows(cache: SizeCache.Cache)
      requires Valid()
      reads words
    {
      forall key :: Agrees(Lookup(key), cache, key)
    }

    constructor ()
      ensures Valid() && fresh(words) && (forall key :: Lookup(key) == None) && Shows(map[])
    {
      words := new bv64[SLOTS](_ => CLEARED);
      new;
      forall key
        ensures Lookup(key) == None
      {
        InvalidAnswersNone(key, key);
      }
    }

    method TryGet(key: bv64) returns (r: Option<bv64>)
      requires Valid()
      ensures r == Lookup(key)
      ensures forall cache | Shows(cache) :: Plain(r) == SizeCache.Get(cache, Number(key))
    {
      hide Index, Decode, Number, Value;
      r := Decode(words[Index(key)], key);
    }

    /** Remembers a value; at most one other key is forgotten, and none answers differently. */
    method Put(key: bv64, value: bv64)
      requires Valid() && value < VALUES
      modifies words
      ensures Lookup(key) == Some(value)
      ensures forall other | other != key :: Lookup(other) == if Index(other) == Index(key) then None else old(Lookup(other))
      ensures forall cache | old(Shows(cache)) :: Shows(SizeCache.Put(cache, Number(key), Value(value)))
    {
      hide Index, Decode, Hash, KeyToUpper, Agrees;
      words[Index(key)] := KeyToUpper(key) | value;
      forall other
        ensures Lookup(other) ==
          if other == key then Some(value) else if Index(other) == Index(key) then None else old(Lookup(other))
      {
        if Index(other) == Index(key) {
          SameIndex(other, key);
          PackedAnswers(key, value, other);
        }
      }
      forall cache, other | old(Shows(cache))
        ensures Agrees(Lookup(other), SizeCache.Put(cache, Number(key), Value(value)), other)
      {
        PutAgrees(old(Lookup(other)), cache, key, value, other);
      }
    }

    /** Forgets a key, and with it any key that shares its slot. */
    method Invalidate(key: bv64)
      requires Valid()
      modifies words
      ensures forall other :: Lookup(other) == if Index(other) == Index(key) then None else old(Lookup(other))
      ensures forall cache | old(Shows(cache)) :: Shows(SizeCache.Invalidate(cache, Number(key)))
    {
      hide Index, Decode, Hash, KeyToUpper, Agrees;
      words[Index(key)] := KeyToUpper(key) | INVALID;
      forall other
        ensures Lookup(other) == if Index(other) == Index(key) then None else old(Lookup(other))
      {
        if Index(other) == Index(key) {
          SameIndex(other, key);
          InvalidAnswersNone(key, other);
        }
      }
      forall cache, other | old(Shows(cache))
        ensures Agrees(Lookup(other), SizeCache.Invalidate(cache, Number(key)), other)
      {
        InvalidateAgrees(old(Lookup(other)), cache, key, other);
      }
    }
  }
}
