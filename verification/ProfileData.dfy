/** The CPU profiler's sample table: a small associative cache in front of an output log. */
module Profiles {
  import opened Arith
  import opened Options

  const MAX_STACK_DEPTH := 254
  const ASSOCIATIVITY := 4
  const BUCKETS := 1024
  const BUFFER_LENGTH := 0x4_0000

  type Stack = seq<int>

  /** A stack and how often it was seen; a count of zero marks an unused entry. */
  datatype Entry = Entry(count: int, stack: Stack)

  const UNUSED := Entry(0, [])

  ghost predicate EntryOk(e: Entry) {
    e == UNUSED || (e.count > 0 && 1 <= |e.stack| <= MAX_STACK_DEPTH)
  }

  // ----- The log -----

  function Slots(e: Entry): seq<int> {
    [e.count, |e.stack|] + e.stack
  }

  function Header(period: int): seq<int> {
    [0, 3, 0, period, 0]
  }

  const END := [0, 1, 0]

  function Flatten(records: seq<Entry>): seq<int> {
    if records == [] then [] else Slots(records[0]) + Flatten(records[1..])
  }

  /** Records up to the end marker, which alone has a count of zero. */
  function DecodeRecords(log: seq<int>): Option<seq<Entry>> {
    if |log| < 2 || log[1] < 0 || |log| < 2 + log[1] then None
    else if log[0] == 0 then if log == END then Some([]) else None
    else
      match DecodeRecords(log[2 + log[1]..])
      case None => None
      case Some(more) => Some([Entry(log[0], log[2..2 + log[1]])] + more)
  }

  datatype Profile = Profile(period: int, records: seq<Entry>)

  function Decode(log: seq<int>): Option<Profile> {
    if |log| < 5 || log[0] != 0 || log[1] != 3 || log[2] != 0 || log[4] != 0 then None
    else
      match DecodeRecords(log[5..])
      case None => None
      case Some(records) => Some(Profile(log[3], records))
  }

  lemma {:induction false} FlattenAppend(records: seq<Entry>, e: Entry)
    ensures Flatten(records + [e]) == Flatten(records) + Slots(e)
  {
    if records == [] {
      assert records + [e] == [e];
      assert [e][1..] == [];
    } else {
      assert (records + [e])[1..] == records[1..] + [e];
      FlattenAppend(records[1..], e);
    }
  }

  ghost predicate RecordsOk(records: seq<Entry>) {
    forall i :: 0 <= i < |records| ==> records[i].count > 0 && 1 <= |records[i].stack| <= MAX_STACK_DEPTH
  }

  lemma SlotsRead(e: Entry, rest: seq<int>)
    ensures var log := Slots(e) + rest;
      && |log| >= 2 + |e.stack| && log[0] == e.count && log[1] == |e.stack|
      && log[2..2 + |e.stack|] == e.stack && log[2 + |e.stack|..] == rest
  {
  }

  lemma {:induction false} RecordsReadBack(records: seq<Entry>)
    requires RecordsOk(records)
    ensures DecodeRecords(Flatten(records) + END) == Some(records)
  {
    if records == [] {
      assert Flatten(records) + END == END;
    } else {
      var e, rest := records[0], Flatten(records[1..]) + END;
      assert Flatten(records) + END == Slots(e) + rest;
      RecordsReadBack(records[1..]);
      hide Flatten, Slots;
      SlotsRead(e, rest);
      assert [e] + records[1..] == records;
    }
  }

  /** A finished log is read back record by record. */
  lemma LogReadsBack(period: int, records: seq<Entry>)
    requires RecordsOk(records)
    ensures Decode(Header(period) + Flatten(records) + END) == Some(Profile(period, records))
  {
    var log := Header(period) + Flatten(records) + END;
    assert log[..5] == Header(period) && log[5..] == Flatten(records) + END;
    RecordsReadBack(records);
  }

  // ----- Totals -----

  ghost function Hits(e: Entry, stack: Stack): int {
    if e.stack == stack then e.count else 0
  }

  /** How often a stack was counted in a list of entries. */
  ghost function Total(entries: seq<Entry>, stack: Stack): int {
    if entries == [] then 0 else Hits(entries[0], stack) + Total(entries[1..], stack)
  }

  lemma {:induction false} TotalAppend(entries: seq<Entry>, e: Entry, stack: Stack)
    ensures Total(entries + [e], stack) == Total(entries, stack) + Hits(e, stack)
  {
    if entries == [] {
      assert entries + [e] == [e];
      assert [e][1..] == [];
    } else {
      assert (entries + [e])[1..] == entries[1..] + [e];
      TotalAppend(entries[1..], e, stack);
    }
  }

  lemma {:induction false} TotalUpdate(entries: seq<Entry>, i: nat, e: Entry, stack: Stack)
    requires i < |entries|
    ensures Total(entries[i := e], stack) == Total(entries, stack) - Hits(entries[i], stack) + Hits(e, stack)
  {
    if i == 0 {
      assert entries[i := e][1..] == entries[1..];
    } else {
      assert entries[i := e][1..] == entries[1..][i - 1 := e];
      TotalUpdate(entries[1..], i - 1, e, stack);
    }
  }

  lemma {:induction false} TotalUnused(entries: seq<Entry>, stack: Stack)
    requires forall i :: 0 <= i < |entries| ==> entries[i] == UNUSED
    ensures Total(entries, stack) == 0
  {
    if entries != [] {
      TotalUnused(entries[1..], stack);
    }
  }

  /** No sample is lost: what is logged and what is in the table add up to what was seen. */
  ghost predicate Accounted(records: seq<Entry>, table: seq<Entry>, samples: multiset<Stack>) {
    forall stack: Stack :: Total(records, stack) + Total(table, stack) == samples[stack]
  }

  /** The innermost frames, as many as fit. */
  function Cut(stack: Stack): (r: Stack)
    ensures r <= stack && (r == stack || |r| == MAX_STACK_DEPTH) && |r| <= MAX_STACK_DEPTH
  {
    if |stack| > MAX_STACK_DEPTH then stack[..MAX_STACK_DEPTH] else stack
  }

  /** Division that truncates toward zero, stored in an unsigned slot. */
  function Period(frequency: int): int
    requires frequency != 0
  {
    (if frequency > 0 then 1000000 / frequency else -(1000000 / -frequency)) % WORD
  }

  lemma QuotientIs(f: int)
    requires f > 0
    ensures var q := 1000000 / f; 0 <= q <= 1000000 && q * f <= 1000000 < (q + 1) * f
  {
    var q := 1000000 / f;
    assert 1000000 == q * f + 1000000 % f;
    assert (q + 1) * f == q * f + f;
    if q < 0 {
      MulLe(q, -1, f);
    }
    if q > 1000000 {
      MulLe(1, f, q);
    }
  }

  lemma NegatedWord(q: int)
    requires 0 <= q <= 1000000
    ensures q % WORD == q && (WORD - (-q) % WORD) % WORD == q
  {
    if q > 0 {
      DivModIs(-q, WORD, -1, WORD - q);
    }
  }

  /** The microseconds between samples, rounded toward zero. */
  lemma PeriodIs(frequency: int)
    requires frequency != 0
    ensures frequency > 0 ==>
      var p := Period(frequency); 0 <= p && p * frequency <= 1000000 < (p + 1) * frequency
    ensures frequency < 0 ==>
      var q := (WORD - Period(frequency)) % WORD; 0 <= q && q * -frequency <= 1000000 < (q + 1) * -frequency
  {
    var f := if frequency > 0 then frequency else -frequency;
    QuotientIs(f);
    NegatedWord(1000000 / f);
  }

  function Hash(stack: Stack): (h: int)
    ensures 0 <= h < WORD
  {
    if stack == [] then 0 else
    var h := Hash(stack[..|stack| - 1]);
    var pc := stack[|stack| - 1];
    ((h * 256) % WORD + h / 0x100_0000_0000_0000 + pc * 31 + pc * 7 + pc * 3) % WORD
  }

  /** Every entry in use is in the bucket of its stack, and no stack has two. */
  ghost predicate Placed(table: seq<Entry>) {
    && (forall i :: 0 <= i < |table| && table[i].count > 0 ==> i / ASSOCIATIVITY == Hash(table[i].stack) % BUCKETS)
    && (forall i, j :: 0 <= i < j < |table| && table[i].count > 0 && table[j].count > 0 ==> table[i].stack != table[j].stack)
  }

  lemma CountedIsPlaced(table: seq<Entry>, i: int, count: int)
    requires Placed(table) && 0 <= i < |table| && table[i].count > 0
    ensures Placed(table[i := Entry(count, table[i].stack)])
  {
    hide Hash;
  }

  lemma UnusedIsPlaced(table: seq<Entry>, i: int)
    requires Placed(table) && 0 <= i < |table|
    ensures Placed(table[i := UNUSED])
  {
    hide Hash;
  }

  lemma NewIsPlaced(table: seq<Entry>, i: int, stack: Stack)
    requires Placed(table) && 0 <= i < |table| && i / ASSOCIATIVITY == Hash(stack) % BUCKETS
    requires forall j :: 0 <= j < |table| && j / ASSOCIATIVITY == i / ASSOCIATIVITY ==> table[j].stack != stack
    ensures Placed(table[i := Entry(1, stack)])
  {
    hide Hash;
  }

  /** Entry `i` and no other has changed: it had the stack and counts one more, or none of its bucket had
      it, and the one counted least often is logged, if it was in use, and starts to count the stack. */
  ghost predicate Counted(table: seq<Entry>, table': seq<Entry>, records: seq<Entry>, records': seq<Entry>, i: int, stack: Stack)
    requires 0 <= i < |table| && |table| % ASSOCIATIVITY == 0
  {
    var first := i / ASSOCIATIVITY * ASSOCIATIVITY;
    if table[i].stack == stack then table' == table[i := Entry(table[i].count + 1, stack)] && records' == records
    else
      && (forall j :: first <= j < first + ASSOCIATIVITY ==> table[j].stack != stack && table[i].count <= table[j].count)
      && table' == table[i := Entry(1, stack)]
      && records' == records + if table[i].count > 0 then [table[i]] else []
  }

  lemma InBucket(i: int, bucket: int)
    requires bucket * ASSOCIATIVITY <= i < bucket * ASSOCIATIVITY + ASSOCIATIVITY
    ensures i / ASSOCIATIVITY == bucket
    ensures forall j :: j / ASSOCIATIVITY == bucket ==> bucket * ASSOCIATIVITY <= j < bucket * ASSOCIATIVITY + ASSOCIATIVITY
  {
  }

  lemma CountedIf(table: seq<Entry>, table': seq<Entry>, records: seq<Entry>, records': seq<Entry>, i: int, bucket: int, stack: Stack)
    requires 0 <= i < |table| && |table| % ASSOCIATIVITY == 0 && i / ASSOCIATIVITY == bucket
    requires table[i].stack == stack ==> table' == table[i := Entry(table[i].count + 1, stack)] && records' == records
    requires table[i].stack != stack ==>
      && (forall j :: bucket * ASSOCIATIVITY <= j < bucket * ASSOCIATIVITY + ASSOCIATIVITY && 0 <= j < |table| ==>
            table[j].stack != stack && table[i].count <= table[j].count)
      && table' == table[i := Entry(1, stack)] && records' == records + if table[i].count > 0 then [table[i]] else []
    ensures Counted(table, table', records, records', i, stack)
  {
  }

  class ProfileData {
    const hash: array<Entry>
    const evict: array<int>
    var numEvicted: int
    var enabled: bool
    var count: int
    /** What has been written to the file. */
    var out: seq<int>
    ghost var period: int
    ghost var records: seq<Entry>
    ghost var samples: multiset<Stack>

    ghost predicate Buffered()
      reads this, evict
    {
      && evict.Length == BUFFER_LENGTH && 0 <= numEvicted <= BUFFER_LENGTH
      && RecordsOk(records)
      && out + evict[..numEvicted] == Header(period) + Flatten(records)
    }

    ghost predicate Valid()
      reads this, hash, evict
    {
      && hash.Length == BUCKETS * ASSOCIATIVITY && evict.Length == BUFFER_LENGTH
      && 0 <= numEvicted <= BUFFER_LENGTH
      && (enabled ==>
            && Buffered()
            && (forall i :: 0 <= i < hash.Length ==> EntryOk(hash[i]))
            && Accounted(records, hash[..], samples) && Placed(hash[..])
            && count == |samples|)
    }

    constructor ()
      ensures Valid() && !enabled
    {
      hash := new Entry[BUCKETS * ASSOCIATIVITY](_ => UNUSED);
      evict := new int[BUFFER_LENGTH];
      numEvicted, enabled, count, out := 0, false, 0, [];
      period, records, samples := 0, [], multiset{};
    }

    method ClearHash()
      modifies hash
      ensures forall j :: 0 <= j < hash.Length ==> hash[j] == UNUSED
    {
      var i := 0;
      while i < hash.Length
        invariant 0 <= i <= hash.Length && forall j :: 0 <= j < i ==> hash[j] == UNUSED
      {
        hash[i] := UNUSED;
        i := i + 1;
      }
    }

    /** Starts a profile, unless one is running or the file cannot be opened. */
    method Start(fileOpen: bool, frequency: int) returns (ok: bool)
      requires Valid() && frequency != 0
      modifies this, hash, evict
      ensures Valid() && ok == (!old(enabled) && fileOpen)
      ensures ok ==> enabled && samples == multiset{} && period == Period(frequency)
      ensures !ok ==> enabled == old(enabled) && samples == old(samples)
    {
      if enabled || !fileOpen {
        return false;
      }
      out, numEvicted, count := [], 0, 0;
      ClearHash();
      evict[0], evict[1], evict[2], evict[3], evict[4] := 0, 3, 0, Period(frequency), 0;
      numEvicted := 5;
      enabled := true;
      period, records, samples := Period(frequency), [], multiset{};
      assert evict[..5] == Header(period);
      forall stack: Stack ensures Total(hash[..], stack) == 0 {
        TotalUnused(hash[..], stack);
      }
      return true;
    }

    method FlushEvicted()
      requires Buffered()
      modifies `out, `numEvicted
      ensures Buffered() && numEvicted == 0
    {
      out := out + evict[..numEvicted];
      numEvicted := 0;
    }

    /** Appends an entry to the buffer, which has room for it. */
    method WriteSlots(e: Entry)
      requires evict.Length == BUFFER_LENGTH && 0 <= numEvicted && numEvicted + |e.stack| + 2 <= BUFFER_LENGTH
      modifies `numEvicted, evict
      ensures numEvicted == old(numEvicted) + |e.stack| + 2 && evict[..numEvicted] == old(evict[..numEvicted]) + Slots(e)
    {
      var d := |e.stack|;
      ghost var before := evict[..numEvicted];
      evict[numEvicted], evict[numEvicted + 1] := e.count, d;
      var at := numEvicted + 2;
      forall i | 0 <= i < d {
        evict[at + i] := e.stack[i];
      }
      numEvicted := at + d;
      assert evict[..numEvicted] == before + Slots(e);
    }

    /** Moves an entry to the buffer, which is written out first when it has no room. */
    method Evict(e: Entry)
      requires Buffered() && e.count > 0 && 1 <= |e.stack| <= MAX_STACK_DEPTH
      modifies `out, `numEvicted, `records, evict
      ensures Buffered() && records == old(records) + [e]
    {
      hide Flatten, Slots, Header;
      if numEvicted + |e.stack| + 2 > BUFFER_LENGTH {
        FlushEvicted();
      }
      ghost var before := evict[..numEvicted];
      WriteSlots(e);
      LogGrows(out, before, period, records, e);
      records := records + [e];
    }

    /** The entry for a stack among those of the bucket that starts at `first`, if there is one. */
    method FindEntry(first: int, stack: Stack) returns (found: bool, i: int)
      requires Valid() && 0 <= first <= hash.Length - ASSOCIATIVITY
      ensures found ==> first <= i < first + ASSOCIATIVITY && hash[i].stack == stack
      ensures !found ==> forall j :: first <= j < first + ASSOCIATIVITY ==> hash[j].stack != stack
    {
      i := first;
      while i < first + ASSOCIATIVITY
        invariant first <= i <= first + ASSOCIATIVITY
        invariant forall j :: first <= j < i ==> hash[j].stack != stack
      {
        if hash[i].stack == stack {
          return true, i;
        }
        i := i + 1;
      }
      return false, i;
    }

    method LeastUsed(first: int) returns (least: int)
      requires Valid() && 0 <= first <= hash.Length - ASSOCIATIVITY
      ensures first <= least < first + ASSOCIATIVITY
      ensures forall i :: first <= i < first + ASSOCIATIVITY ==> hash[least].count <= hash[i].count
    {
      least := first;
      var i := first + 1;
      while i < first + ASSOCIATIVITY
        invariant first < i <= first + ASSOCIATIVITY && first <= least < i
        invariant forall j :: first <= j < i ==> hash[least].count <= hash[j].count
      {
        if hash[i].count < hash[least].count {
          least := i;
        }
        i := i + 1;
      }
    }

    /** One more hit for the entry that has the stack. */
    method CountHit(i: int, stack: Stack)
      requires Valid() && enabled && 0 <= i < hash.Length && hash[i].stack == stack && stack != []
      modifies `samples, `count, hash
      ensures Valid() && samples == old(samples) + multiset{stack}
      ensures hash[..] == old(hash[..])[i := Entry(old(hash[i].count) + 1, stack)]
    {
      ghost var table, was := hash[..], samples;
      hash[i] := hash[i].(count := hash[i].count + 1);
      assert hash[..] == table[i := Entry(table[i].count + 1, stack)];
      CountedIsPlaced(table, i, table[i].count + 1);
      samples := samples + multiset{stack};
      count := count + 1;
      TableChanges(records, records, table, i, hash[i], was, stack);
    }

    /** The entry is put to new use; what it counted has been logged. */
    method Reuse(i: int, stack: Stack)
      requires Valid() && enabled && 0 <= i < hash.Length && 1 <= |stack| <= MAX_STACK_DEPTH
      requires i / ASSOCIATIVITY == Hash(stack) % BUCKETS
      requires forall j :: 0 <= j < hash.Length && j / ASSOCIATIVITY == i / ASSOCIATIVITY ==> hash[j].stack != stack
      modifies `samples, `count, `out, `numEvicted, `records, hash, evict
      ensures Valid() && samples == old(samples) + multiset{stack}
      ensures hash[..] == old(hash[..])[i := Entry(1, stack)]
      ensures records == old(records) + if old(hash[i].count) > 0 then [old(hash[i])] else []
    {
      ghost var table, was, before := hash[..], samples, records;
      if hash[i].count > 0 {
        Evict(hash[i]);
      }
      hash[i] := Entry(1, stack);
      assert hash[..] == table[i := Entry(1, stack)];
      NewIsPlaced(table, i, stack);
      samples := samples + multiset{stack};
      count := count + 1;
      TableChanges(before, records, table, i, hash[i], was, stack);
    }

    /** Counts a sample; stacks are cut off at the greatest depth that is stored.  The entry `i` of its
        bucket that has the stack counts it; if none has, the least used is logged and put to new use. */
    method Add(stack: Stack) returns (ghost i: int)
      requires Valid() && stack != []
      modifies `samples, `count, `out, `numEvicted, `records, hash, evict
      ensures Valid() && (enabled ==> samples == old(samples) + multiset{Cut(stack)})
      ensures !enabled ==> samples == old(samples) && out == old(out)
      ensures enabled ==> 0 <= i < hash.Length && i / ASSOCIATIVITY == Hash(Cut(stack)) % BUCKETS
      ensures enabled ==> Counted(old(hash[..]), hash[..], old(records), records, i, Cut(stack))
    {
      hide Accounted, Placed, Hash, Buffered, EntryOk, Counted;
      if !enabled {
        return 0;
      }
      var cut := Cut(stack);
      ghost var table := hash[..];
      var h := HashOf(cut);
      var first := h % BUCKETS * ASSOCIATIVITY;
      var found, entry := FindEntry(first, cut);
      if found {
        CountHit(entry, cut);
      } else {
        entry := LeastUsed(first);
        InBucket(entry, h % BUCKETS);
        Reuse(entry, cut);
      }
      i := entry;
      InBucket(i, h % BUCKETS);
      CountedIf(table, hash[..], old(records), records, i, h % BUCKETS, cut);
    }

    /** Logs one entry of the table and leaves it unused. */
    method FlushEntry(i: int)
      requires Valid() && enabled && 0 <= i < hash.Length
      modifies `out, `numEvicted, `records, hash, evict
      ensures Valid() && hash[i] == UNUSED
      ensures forall j :: 0 <= j < hash.Length && j != i ==> hash[j] == old(hash[j])
    {
      if hash[i].count > 0 {
        ghost var table, before := hash[..], records;
        Evict(hash[i]);
        hash[i] := UNUSED;
        assert hash[..] == table[i := UNUSED];
        UnusedIsPlaced(table, i);
        EntryLogged(before, table, i, samples);
      }
    }

    /** Everything counted so far goes to the file; counting goes on. */
    method FlushTable()
      requires Valid()
      modifies `out, `numEvicted, `records, hash, evict
      ensures Valid()
      ensures enabled ==> out == Header(period) + Flatten(records)
      ensures enabled ==> forall stack: Stack :: Total(records, stack) == samples[stack]
    {
      if !enabled {
        return;
      }
      var i := 0;
      while i < hash.Length
        invariant 0 <= i <= hash.Length && Valid() && enabled
        invariant forall j :: 0 <= j < i ==> hash[j] == UNUSED
      {
        FlushEntry(i);
        i := i + 1;
      }
      FlushEvicted();
      assert out == out + evict[..0];
      forall stack: Stack ensures Total(hash[..], stack) == 0 {
        TotalUnused(hash[..], stack);
      }
    }

    /** The entries of the table from `i` on are still to be logged. */
    ghost predicate Draining(i: int)
      reads this, hash, evict
    {
      && hash.Length == BUCKETS * ASSOCIATIVITY && 0 <= i <= hash.Length && Buffered()
      && (forall j :: 0 <= j < hash.Length ==> EntryOk(hash[j]))
      && Accounted(records, hash[i..], samples)
    }

    method DrainEntry(i: int)
      requires Draining(i) && i < hash.Length
      modifies `out, `numEvicted, `records, evict
      ensures Draining(i + 1)
    {
      ghost var before := records;
      assert hash[i..][0] == hash[i] && hash[i..][1..] == hash[i + 1..];
      if hash[i].count > 0 {
        Evict(hash[i]);
      }
      forall stack: Stack ensures Total(records, stack) + Total(hash[i + 1..], stack) == samples[stack] {
        TotalAppend(before, hash[i], stack);
        assert Total(hash[i..], stack) == Hits(hash[i], stack) + Total(hash[i + 1..], stack);
      }
    }

    /** Ends the profile: the file then holds the header, every sample ever added, and the end marker. */
    method Stop()
      requires Valid()
      modifies this, evict
      ensures Valid() && !enabled
      ensures !old(enabled) ==> out == old(out)
      ensures old(enabled) ==> Decode(out) == Some(Profile(old(period), records))
      ensures old(enabled) ==> forall stack: Stack :: Total(records, stack) == old(samples)[stack]
    {
      if !enabled {
        return;
      }
      var i := 0;
      assert hash[0..] == hash[..];
      while i < hash.Length
        invariant Draining(i) && period == old(period) && samples == old(samples)
      {
        DrainEntry(i);
        i := i + 1;
      }
      assert hash[i..] == [];
      WriteEnd();
      LogReadsBack(period, records);
      numEvicted, enabled := 0, false;
    }

    method WriteEnd()
      requires Buffered()
      modifies `out, `numEvicted, evict
      ensures evict.Length == BUFFER_LENGTH && out == Header(period) + Flatten(records) + END && numEvicted == 0
    {
      if numEvicted + 3 > BUFFER_LENGTH {
        FlushEvicted();
      }
      ghost var before := evict[..numEvicted];
      evict[numEvicted], evict[numEvicted + 1], evict[numEvicted + 2] := 0, 1, 0;
      numEvicted := numEvicted + 3;
      assert evict[..numEvicted] == before + END;
      out := out + evict[..numEvicted];
      numEvicted := 0;
    }
  }

  lemma LogGrows(out: seq<int>, buffer: seq<int>, period: int, records: seq<Entry>, e: Entry)
    requires out + buffer == Header(period) + Flatten(records)
    ensures out + (buffer + Slots(e)) == Header(period) + Flatten(records + [e])
  {
    FlattenAppend(records, e);
    assert out + (buffer + Slots(e)) == (out + buffer) + Slots(e);
    assert Header(period) + (Flatten(records) + Slots(e)) == (Header(period) + Flatten(records)) + Slots(e);
  }

  /** One more sample of a stack, the entry's old count logged unless the entry already was the stack's. */
  lemma TableChanges(before: seq<Entry>, after: seq<Entry>, table: seq<Entry>, i: int, e: Entry,
                     samples: multiset<Stack>, stack: Stack)
    requires Accounted(before, table, samples) && 0 <= i < |table| && EntryOk(table[i])
    requires || (after == before && table[i].stack == stack && e == Entry(table[i].count + 1, stack))
             || (after == before && table[i].count == 0 && e == Entry(1, stack))
             || (after == before + [table[i]] && e == Entry(1, stack))
    ensures Accounted(after, table[i := e], samples + multiset{stack})
  {
    forall any: Stack ensures Total(after, any) + Total(table[i := e], any) == (samples + multiset{stack})[any] {
      TotalUpdate(table, i, e, any);
      TotalAppend(before, table[i], any);
    }
  }

  lemma EntryLogged(before: seq<Entry>, table: seq<Entry>, i: int, samples: multiset<Stack>)
    requires Accounted(before, table, samples) && 0 <= i < |table|
    ensures Accounted(before + [table[i]], table[i := UNUSED], samples)
  {
    forall stack: Stack ensures Total(before + [table[i]], stack) + Total(table[i := UNUSED], stack) == samples[stack] {
      TotalUpdate(table, i, UNUSED, stack);
      TotalAppend(before, table[i], stack);
    }
  }

  /** The rolling hash of a stack in 64-bit arithmetic. */
  method HashOf(stack: Stack) returns (h: int)
    ensures h == Hash(stack)
  {
    h := 0;
    var i := 0;
    assert stack[..0] == [];
    while i < |stack|
      invariant 0 <= i <= |stack| && h == Hash(stack[..i])
    {
      assert stack[..i + 1][..i] == stack[..i];
      h := (h * 256) % WORD + h / 0x100_0000_0000_0000;
      h := (h + stack[i] * 31 + stack[i] * 7 + stack[i] * 3) % WORD;
      i := i + 1;
    }
    assert stack[..i] == stack;
  }
}
