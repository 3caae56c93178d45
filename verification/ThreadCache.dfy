/** Thread caches: what each holds, and how they share the allowance for all of them. */
module ThreadCaches {
  import opened Arith
  import opened Options
  import opened Chains

  const STEAL_AMOUNT := 0x1_0000
  const MAX_DYNAMIC_LENGTH := 8192
  const MAX_OVERAGES := 3
  const MAX_THREAD_CACHE_SIZE := 0x40_0000

  /** Object size and batch size of each class; class zero is never used. */
  datatype Params = Params(sizes: seq<int>, batch: seq<int>)

  ghost predicate ValidParams(p: Params) {
    && |p.sizes| == |p.batch|
    && forall cl :: 1 <= cl < |p.sizes| ==> p.sizes[cl] > 0 && 1 <= p.batch[cl] <= MAX_DYNAMIC_LENGTH
  }

  /** The cap of a list: slow start up to one batch, whole batches from then on. */
  ghost predicate CapOk(maxLength: int, batch: int) {
    1 <= maxLength <= MAX_DYNAMIC_LENGTH && batch > 0 && (maxLength <= batch || maxLength % batch == 0)
  }

  /** The bytes in the lists. */
  ghost function Bytes(lists: seq<List>, sizes: seq<int>): int
    requires |lists| <= |sizes|
  {
    if lists == [] then 0 else |lists[0].chain| * sizes[0] + Bytes(lists[1..], sizes[1..])
  }

  lemma {:induction false} BytesUpdate(lists: seq<List>, sizes: seq<int>, cl: int, l: List)
    requires |lists| <= |sizes| && 0 <= cl < |lists|
    ensures Bytes(lists[cl := l], sizes) ==
            Bytes(lists, sizes) - |lists[cl].chain| * sizes[cl] + |l.chain| * sizes[cl]
  {
    if cl == 0 {
      assert lists[cl := l][1..] == lists[1..];
    } else {
      assert lists[cl := l][1..] == lists[1..][cl - 1 := l];
      BytesUpdate(lists[1..], sizes[1..], cl - 1, l);
    }
  }

  lemma BytesPopped(lists: seq<List>, sizes: seq<int>, cl: int, n: int)
    requires |lists| <= |sizes| && 0 <= cl < |lists| && 0 <= n <= |lists[cl].chain|
    ensures Bytes(lists[cl := Popped(lists[cl], n)], sizes) == Bytes(lists, sizes) - n * sizes[cl]
  {
    hide Bytes;
    BytesUpdate(lists, sizes, cl, Popped(lists[cl], n));
    MulSub(|lists[cl].chain|, n, sizes[cl]);
  }

  lemma MulSub(a: int, b: int, c: int)
    ensures (a - b) * c == a * c - b * c
  {
  }

  lemma {:induction false} BytesOfEmpty(lists: seq<List>, sizes: seq<int>)
    requires |lists| <= |sizes| && forall i :: 0 <= i < |lists| ==> lists[i].chain == []
    ensures Bytes(lists, sizes) == 0
  {
    if lists != [] {
      BytesOfEmpty(lists[1..], sizes[1..]);
    }
  }

  // ----- The objects in the lists -----

  ghost function Contents(lists: seq<List>): multiset<int> {
    if lists == [] then multiset{} else multiset(lists[0].chain) + Contents(lists[1..])
  }

  lemma MoveOut(a: multiset<int>, b: multiset<int>, gone: multiset<int>, come: multiset<int>)
    requires gone <= b
    ensures gone <= a + b && a + (b - gone + come) == a + b - gone + come
  {
  }

  lemma {:induction false} ContentsUpdate(lists: seq<List>, cl: int, l: List)
    requires 0 <= cl < |lists|
    ensures multiset(lists[cl].chain) <= Contents(lists)
    ensures Contents(lists[cl := l]) == Contents(lists) - multiset(lists[cl].chain) + multiset(l.chain)
  {
    var rest := Contents(lists[1..]);
    if cl == 0 {
      assert lists[cl := l][1..] == lists[1..];
    } else {
      assert lists[cl := l][1..] == lists[1..][cl - 1 := l];
      ContentsUpdate(lists[1..], cl - 1, l);
      MoveOut(multiset(lists[0].chain), rest, multiset(lists[cl].chain), multiset(l.chain));
    }
  }

  lemma CutContents(chain: seq<int>, n: int)
    requires 0 <= n <= |chain|
    ensures multiset(chain) == multiset(chain[..n]) + multiset(chain[n..])
  {
    assert chain == chain[..n] + chain[n..];
  }

  lemma SplitPrefix(chain: seq<int>, k: int, n: int)
    requires 0 <= k <= k + n <= |chain| && 0 <= n
    ensures multiset(chain[..k + n]) == multiset(chain[..k]) + multiset(chain[k..][..n])
  {
    assert chain[..k + n] == chain[..k] + chain[k..][..n];
  }

  lemma LessLeft(all: multiset<int>, sent: multiset<int>, part: multiset<int>, left: multiset<int>)
    requires left == all - sent && sent + part <= all
    ensures part <= left && left - part == all - (sent + part)
  {
  }

  lemma PrefixIsLess(chain: seq<int>, k: int, all: int)
    requires 0 <= k <= all <= |chain|
    ensures multiset(chain[..k]) <= multiset(chain[..all])
  {
    assert chain[..all] == chain[..k] + chain[k..all];
  }

  /** What is left of some objects when those of a chain have gone, and that they are among them. */
  ghost function Less(ledger: multiset<int>, chain: seq<int>): multiset<int> {
    ledger - multiset(chain)
  }

  ghost predicate Among(chain: seq<int>, ledger: multiset<int>) {
    multiset(chain) <= ledger
  }

  /** Sending `n` objects of a chain after the first `k`. */
  lemma PartSent(chain: seq<int>, k: int, n: int, all: int, whole: multiset<int>, left: multiset<int>)
    requires 0 <= k <= k + n <= all <= |chain| && 0 <= n
    requires left == Less(whole, chain[..k]) && Among(chain[..all], whole)
    ensures Among(chain[k..][..n], left) && Less(left, chain[k..][..n]) == Less(whole, chain[..k + n])
  {
    SplitPrefix(chain, k, n);
    PrefixIsLess(chain, k + n, all);
    LessLeft(whole, multiset(chain[..k]), multiset(chain[k..][..n]), left);
  }

  lemma NothingSent(ledger: multiset<int>, chain: seq<int>)
    ensures Less(ledger, chain[..0]) == ledger
  {
  }

  ghost function Minus(ledger: multiset<int>, x: int): multiset<int> {
    ledger - multiset{x}
  }

  ghost function Plus(ledger: multiset<int>, chain: seq<int>): multiset<int> {
    ledger + multiset(chain)
  }

  lemma PlusNothing(ledger: multiset<int>)
    ensures Plus(ledger, []) == ledger
  {
  }

  lemma ContentsHead(lists: seq<List>, cl: int)
    requires 0 <= cl < |lists| && lists[cl].chain != []
    ensures Contents(lists[cl := Popped(lists[cl], 1)]) == Minus(Contents(lists), lists[cl].chain[0])
  {
    hide Contents;
    ContentsPopped(lists, cl, 1);
    assert lists[cl].chain[..1] == [lists[cl].chain[0]];
  }

  lemma ContentsPopped(lists: seq<List>, cl: int, n: int)
    requires 0 <= cl < |lists| && 0 <= n <= |lists[cl].chain|
    ensures Among(lists[cl].chain[..n], Contents(lists))
    ensures Contents(lists[cl := Popped(lists[cl], n)]) == Less(Contents(lists), lists[cl].chain[..n])
  {
    hide Contents;
    ContentsUpdate(lists, cl, Popped(lists[cl], n));
    CutContents(lists[cl].chain, n);
  }

  lemma ContentsPushed(lists: seq<List>, cl: int, objects: seq<int>, l: List)
    requires 0 <= cl < |lists| && l.chain == objects + lists[cl].chain
    ensures Contents(lists[cl := l]) == Contents(lists) + multiset(objects)
  {
    hide Contents;
    ContentsUpdate(lists, cl, l);
  }

  lemma ContentsFetched(lists: seq<List>, cl: int, fetched: seq<int>, l: List)
    requires 0 <= cl < |lists| && fetched != [] && l.chain == fetched[1..] + lists[cl].chain
    ensures Contents(lists[cl := l]) == Minus(Plus(Contents(lists), fetched), fetched[0])
  {
    hide Contents;
    ContentsPushed(lists, cl, fetched[1..], l);
    assert fetched == [fetched[0]] + fetched[1..];
  }

  lemma {:induction false} ContentsOfEmpty(lists: seq<List>)
    requires forall i :: 0 <= i < |lists| ==> lists[i].chain == []
    ensures Contents(lists) == multiset{}
  {
    if lists != [] {
      ContentsOfEmpty(lists[1..]);
    }
  }

  // ----- The cap of a list -----

  /** After a fetch: one more below the batch size, else one batch more, in whole batches up to the limit. */
  function Raised(maxLength: int, batch: int): int
    requires batch > 0
  {
    if maxLength < batch then maxLength + 1 else
    var more := if maxLength + batch < MAX_DYNAMIC_LENGTH then maxLength + batch else MAX_DYNAMIC_LENGTH;
    more - more % batch
  }

  lemma RaisedIsCap(maxLength: int, batch: int)
    requires CapOk(maxLength, batch) && batch <= MAX_DYNAMIC_LENGTH
    ensures CapOk(Raised(maxLength, batch), batch)
  {
    if maxLength >= batch {
      var more := if maxLength + batch < MAX_DYNAMIC_LENGTH then maxLength + batch else MAX_DYNAMIC_LENGTH;
      var q := more / batch;
      assert more == q * batch + more % batch;
      MulMod(q, batch);
      assert q <= 0 ==> q * batch <= 0;
    }
  }

  /** A raised cap: slow start below a batch, and from then on the most whole batches that are at most one
      more than before and within the limit. */
  lemma RaisedIsMost(maxLength: int, batch: int)
    requires CapOk(maxLength, batch) && batch <= MAX_DYNAMIC_LENGTH
    ensures var r := Raised(maxLength, batch);
      if maxLength < batch then r == maxLength + 1
      else
        && r % batch == 0 && maxLength <= r <= maxLength + batch && r <= MAX_DYNAMIC_LENGTH
        && (r == maxLength + batch || r + batch > MAX_DYNAMIC_LENGTH)
  {
    if maxLength >= batch {
      hide Raised;
      RaisedBatches(maxLength, batch);
    }
  }

  lemma RaisedBatches(maxLength: int, batch: int)
    requires CapOk(maxLength, batch) && batch <= maxLength
    ensures var r := Raised(maxLength, batch);
      && r % batch == 0 && maxLength <= r <= maxLength + batch && r <= MAX_DYNAMIC_LENGTH
      && (r == maxLength + batch || r + batch > MAX_DYNAMIC_LENGTH)
  {
    var k := BatchesIn(maxLength, batch);
    if maxLength + batch < MAX_DYNAMIC_LENGTH {
      DivModIs(maxLength + batch, batch, k + 1, 0);
    } else {
      WholeBatches(maxLength, MAX_DYNAMIC_LENGTH, batch, k);
    }
  }

  lemma BatchesIn(maxLength: int, batch: int) returns (k: int)
    requires CapOk(maxLength, batch) && batch <= maxLength
    ensures k >= 1 && maxLength == k * batch && (k + 1) * batch == maxLength + batch && (k - 1) * batch == maxLength - batch
  {
    k := maxLength / batch;
    assert maxLength % batch == 0 by {
      if maxLength == batch {
        DivModIs(maxLength, batch, 1, 0);
      }
    }
    assert maxLength == k * batch;
    if k <= 0 {
      MulLe(k, 0, batch);
    }
  }

  /** The most whole batches within a limit that is between a number of them and one more. */
  lemma WholeBatches(maxLength: int, limit: int, batch: int, k: int)
    requires batch > 0 && maxLength == k * batch && maxLength <= limit <= maxLength + batch
    ensures var r := limit - limit % batch; r % batch == 0 && maxLength <= r <= limit < r + batch
  {
    if limit == maxLength + batch {
      assert limit == (k + 1) * batch;
      DivModIs(limit, batch, k + 1, 0);
    } else {
      DivModIs(limit, batch, k, limit - maxLength);
      DivModIs(maxLength, batch, k, 0);
    }
  }

  lemma LoweredIsCap(maxLength: int, batch: int)
    requires CapOk(maxLength, batch) && maxLength > batch
    ensures CapOk(maxLength - batch, batch) && maxLength - batch >= batch
  {
    var q := maxLength / batch;
    assert maxLength == q * batch;
    MulMod(q - 1, batch);
    assert (q - 1) * batch == maxLength - batch;
    assert q <= 1 ==> q * batch <= batch;
    assert q >= 2 ==> (q - 2) * batch >= 0;
  }

  // ----- Chains sent to the central cache -----

  ghost function Joined(chains: seq<seq<int>>): seq<int> {
    if chains == [] then [] else chains[0] + Joined(chains[1..])
  }

  lemma JoinedNone()
    ensures Joined([]) == []
  {
  }

  lemma {:induction false} JoinedAppend(chains: seq<seq<int>>, c: seq<int>)
    ensures Joined(chains + [c]) == Joined(chains) + c
  {
    if chains == [] {
      assert [c][1..] == [];
    } else {
      assert (chains + [c])[1..] == chains[1..] + [c];
      JoinedAppend(chains[1..], c);
    }
  }

  /** Whole batches, and a last chain of at most one. */
  ghost predicate Packaged(chains: seq<seq<int>>, batch: int) {
    && chains != [] && |chains[|chains| - 1]| <= batch
    && forall i :: 0 <= i < |chains| - 1 ==> |chains[i]| == batch
  }

  lemma LastPackage(chains: seq<seq<int>>, last: seq<int>, batch: int)
    requires |last| <= batch && forall i :: 0 <= i < |chains| ==> |chains[i]| == batch
    ensures Packaged(chains + [last], batch)
  {
  }

  lemma PoppedChain(l: List, n: int)
    requires 0 <= n <= |l.chain|
    ensures Popped(l, n).chain == l.chain[n..]
  {
  }

  // ----- What the slow paths do to the lists -----

  /** A list over its cap gives a batch back. Its cap starts slowly and shrinks after repeated overages. */
  function TooLong(l: List, batch: int): List {
    var p := Popped(l, if batch < 0 then 0 else if batch < |l.chain| then batch else |l.chain|);
    if p.maxLength < batch then p.(maxLength := p.maxLength + 1)
    else if p.maxLength == batch then p
    else if p.overages + 1 > MAX_OVERAGES then p.(maxLength := p.maxLength - batch, overages := 0)
    else p.(overages := p.overages + 1)
  }

  /** Half of what a list did not need goes back, and its cap shrinks, but not below a batch. */
  function Scavenged(l: List, batch: int): List
    requires ListOk(l)
  {
    if l.lowater <= 0 then l.(lowater := |l.chain|) else
    var p := Popped(l, if l.lowater > 1 then l.lowater / 2 else 1);
    var lowered := if p.maxLength - batch < batch then batch else p.maxLength - batch;
    p.(lowater := |p.chain|, maxLength := if p.maxLength > batch then lowered else p.maxLength)
  }

  /** What scavenging does to a list: of what it did not need, if anything, half goes, rounded but at
      least one, from the front; then a cap above a batch comes down by a batch, but not below it. */
  ghost predicate GaveIdle(l: List, l': List, batch: int) {
    var drop := |l.chain| - |l'.chain|;
    && TailOf(l'.chain, l.chain) && l'.lowater == |l'.chain| && l'.overages == l.overages
    && (l.lowater == 0 ==> drop == 0)
    && (l.lowater > 0 ==> 1 <= drop && 2 * drop <= l.lowater + 1 && l.lowater <= 2 * drop + 1)
    && (l.lowater == 0 || l.maxLength <= batch ==> l'.maxLength == l.maxLength)
    && (l.lowater > 0 && l.maxLength > batch ==>
          batch <= l'.maxLength && l.maxLength - batch <= l'.maxLength
          && (l'.maxLength == batch || l'.maxLength == l.maxLength - batch))
  }

  lemma ScavengedGivesIdle(l: List, batch: int)
    requires ListOk(l)
    ensures GaveIdle(l, Scavenged(l, batch), batch)
  {
    ScavengedIsTail(l, batch);
    hide TailOf, Popped;
    if l.lowater > 0 {
      var drop := if l.lowater > 1 then l.lowater / 2 else 1;
      PoppedLeaves(l, drop);
      HalfOf(l.lowater);
    }
  }

  lemma PoppedLeaves(l: List, n: int)
    requires 0 <= n <= |l.chain|
    ensures var p := Popped(l, n); |p.chain| == |l.chain| - n && p.maxLength == l.maxLength && p.overages == l.overages
  {
  }

  lemma HalfOf(low: int)
    requires low > 0
    ensures var drop := if low > 1 then low / 2 else 1; 1 <= drop <= low && 2 * drop <= low + 1 && low <= 2 * drop + 1
  {
  }

  lemma IdleBytes(l: List, l': List, batch: int, size: int)
    requires ListOk(l) && GaveIdle(l, l', batch) && (size > 0 || l.chain == [])
    ensures |l'.chain| * size <= |l.chain| * size
    ensures l.lowater > 0 ==> |l'.chain| * size < |l.chain| * size
  {
    hide TailOf;
    MulSub(|l.chain|, |l'.chain|, size);
    var drop := |l.chain| - |l'.chain|;
    if drop > 0 {
      MulLe(1, drop, size);
    }
  }

  /** What trimming does to a list: a batch goes from the front, or all of it if that is less; its cap
      comes one nearer to a batch from below, and a batch nearer from above after every fourth time. */
  ghost predicate GaveBatch(l: List, l': List, batch: int) {
    var drop := |l.chain| - |l'.chain|;
    && TailOf(l'.chain, l.chain) && drop <= batch && (drop == batch || l'.chain == [])
    && l'.lowater <= l.lowater && l'.lowater <= |l'.chain| && (l'.lowater == l.lowater || l'.lowater == |l'.chain|)
    && (l.maxLength < batch ==> l'.maxLength == l.maxLength + 1)
    && (l.maxLength == batch ==> l'.maxLength == batch)
    && (l.maxLength <= batch ==> l'.overages == l.overages)
    && (l.maxLength > batch ==>
          l'.maxLength * (MAX_OVERAGES + 1) - l'.overages * batch == l.maxLength * (MAX_OVERAGES + 1) - (l.overages + 1) * batch)
    && (l.maxLength > batch ==> l'.maxLength == l.maxLength || (l'.maxLength == l.maxLength - batch && l'.overages == 0))
  }

  lemma TooLongGivesBatch(l: List, batch: int)
    requires ListOk(l) && batch > 0 && 0 <= l.overages <= MAX_OVERAGES
    ensures GaveBatch(l, TooLong(l, batch), batch)
  {
    hide TailOf;
    TooLongIsTail(l, batch);
  }

  /** How many times a list has to be too long until its cap is a batch. */
  ghost function Distance(l: List, batch: int): int
    requires batch > 0
  {
    if l.maxLength <= batch then batch - l.maxLength
    else (l.maxLength - batch) / batch * (MAX_OVERAGES + 1) - l.overages
  }

  lemma DistanceIs(l: List, batch: int, k: int)
    requires batch > 0 && k >= 1 && l.maxLength == k * batch
    ensures l.maxLength == batch <==> k == 1
    ensures Distance(l, batch) == if k == 1 then 0 else (k - 1) * (MAX_OVERAGES + 1) - l.overages
  {
    if k > 1 {
      MulLe(2, k, batch);
      MulSub(k, 1, batch);
      DivModIs(l.maxLength - batch, batch, k - 1, 0);
    }
  }

  /** Every time a list is too long its cap converges on a batch, by exactly one step. */
  lemma CapConverges(l: List, batch: int)
    requires ListOk(l) && CapOk(l.maxLength, batch) && 0 <= l.overages <= MAX_OVERAGES
    ensures Distance(l, batch) >= 0 && (Distance(l, batch) == 0 <==> l.maxLength == batch)
    ensures Distance(TooLong(l, batch), batch) == if l.maxLength == batch then 0 else Distance(l, batch) - 1
  {
    hide Popped;
    if l.maxLength >= batch {
      var k := BatchesIn(l.maxLength, batch);
      hide Distance, CapOk;
      DistanceIs(l, batch, k);
      var l' := TooLong(l, batch);
      CapOnly(l, batch);
      if l'.maxLength == l.maxLength {
        DistanceIs(l', batch, k);
      } else {
        DistanceIs(l', batch, k - 1);
      }
    } else {
      CapOnly(l, batch);
    }
  }

  lemma CapOnly(l: List, batch: int)
    ensures var l' := TooLong(l, batch);
      && l'.maxLength == (if l.maxLength < batch then l.maxLength + 1
                          else if l.maxLength > batch && l.overages + 1 > MAX_OVERAGES then l.maxLength - batch
                          else l.maxLength)
      && (l.maxLength <= batch ==> l'.overages == l.overages)
      && (l.maxLength > batch ==> l'.overages == if l.overages + 1 > MAX_OVERAGES then 0 else l.overages + 1)
  {
  }

  ghost predicate AllOk(lists: seq<List>) {
    forall i :: 0 <= i < |lists| ==> ListOk(lists[i])
  }

  /** Some list has objects it did not need. */
  ghost predicate HasIdle(lists: seq<List>) {
    exists i :: 0 <= i < |lists| && lists[i].lowater > 0
  }

  ghost function AllScavenged(lists: seq<List>, batch: seq<int>): (r: seq<List>)
    requires |lists| == |batch| && AllOk(lists)
    ensures |r| == |lists| && forall i :: 0 <= i < |lists| ==> r[i] == Scavenged(lists[i], batch[i])
  {
    seq(|lists|, i requires 0 <= i < |lists| => Scavenged(lists[i], batch[i]))
  }

  /** The lists after a change, scavenged if they hold more than the cache may. */
  ghost function Settled(lists: seq<List>, p: Params, maxSize: int): seq<List>
    requires |lists| == |p.sizes| == |p.batch| && AllOk(lists)
  {
    if Bytes(lists, p.sizes) > maxSize then AllScavenged(lists, p.batch) else lists
  }

  /** Nothing is reordered, added or doubled. */
  ghost predicate TailOf(some: seq<int>, all: seq<int>) {
    |some| <= |all| && some == all[|all| - |some|..]
  }

  lemma PoppedIsTail(l: List, n: int)
    requires 0 <= n <= |l.chain|
    ensures TailOf(Popped(l, n).chain, l.chain)
  {
  }

  lemma TooLongIsTail(l: List, batch: int)
    ensures TailOf(TooLong(l, batch).chain, l.chain)
  {
    hide TailOf, Popped;
    PoppedIsTail(l, if batch < 0 then 0 else if batch < |l.chain| then batch else |l.chain|);
  }

  lemma ScavengedIsTail(l: List, batch: int)
    requires ListOk(l)
    ensures TailOf(Scavenged(l, batch).chain, l.chain)
  {
    if l.lowater > 0 {
      PoppedIsTail(l, if l.lowater > 1 then l.lowater / 2 else 1);
    }
  }

  lemma TailOfTail(a: seq<int>, b: seq<int>, c: seq<int>)
    requires TailOf(a, b) && TailOf(b, c)
    ensures TailOf(a, c)
  {
  }

  /** The lists after an object has been put in front of one of them, which is trimmed if it is then
      over its cap. */
  ghost function Returned(lists: seq<List>, p: Params, cl: int, x: int): seq<List>
    requires 0 <= cl < |lists| == |p.batch|
  {
    var pushed := Pushed(lists[cl], [x]);
    lists[cl := if |pushed.chain| > pushed.maxLength then TooLong(pushed, p.batch[cl]) else pushed]
  }

  /** Freeing an object loses none of the others out of order: trimming and scavenging leave every
      list a tail of what it held, the freed object in front of its own. */
  lemma SlowPathsOnlyRelease(lists: seq<List>, p: Params, maxSize: int, cl: int, x: int, i: int)
    requires |lists| == |p.sizes| == |p.batch| && 0 <= cl < |lists| && 0 <= i < |lists|
    requires AllOk(Returned(lists, p, cl, x))
    ensures var held := if i == cl then [x] + lists[i].chain else lists[i].chain;
      TailOf(Settled(Returned(lists, p, cl, x), p, maxSize)[i].chain, held)
  {
    hide Bytes, Scavenged, ListOk, TooLong;
    var pushed, middle := Pushed(lists[cl], [x]), Returned(lists, p, cl, x)[i];
    var held := if i == cl then [x] + lists[i].chain else lists[i].chain;
    TooLongIsTail(pushed, p.batch[cl]);
    ScavengedIsTail(middle, p.batch[i]);
    assert TailOf(middle.chain, held);
    TailOfTail(Scavenged(middle, p.batch[i]).chain, middle.chain, held);
  }

  /** Freeing an object: it goes to the front of its list; if that is then over its cap, a batch is given
      back; and if the cache then holds more than it may, every list gives back half of what it did
      not need. */
  ghost predicate FreedInto(lists: seq<List>, p: Params, maxSize: int, cl: int, x: int, middle: seq<List>, lists': seq<List>)
    requires 0 <= cl < |lists| == |p.sizes| == |p.batch| == |middle| == |lists'|
  {
    && (forall i :: 0 <= i < |lists| && i != cl ==> middle[i] == lists[i])
    && var pushed := lists[cl].(chain := [x] + lists[cl].chain);
    && (if |pushed.chain| > pushed.maxLength then GaveBatch(pushed, middle[cl], p.batch[cl]) else middle[cl] == pushed)
    && if Bytes(middle, p.sizes) > maxSize then forall i :: 0 <= i < |lists| ==> GaveIdle(middle[i], lists'[i], p.batch[i])
       else lists' == middle
  }

  lemma FreeingIs(lists: seq<List>, p: Params, maxSize: int, cl: int, x: int)
    requires |lists| == |p.sizes| == |p.batch| && 0 <= cl < |lists| && p.batch[cl] > 0
    requires AllOk(lists) && 0 <= lists[cl].overages <= MAX_OVERAGES && AllOk(Returned(lists, p, cl, x))
    ensures var middle := Returned(lists, p, cl, x); FreedInto(lists, p, maxSize, cl, x, middle, Settled(middle, p, maxSize))
  {
    hide Bytes, Scavenged, TooLong, GaveBatch, GaveIdle;
    var middle := Returned(lists, p, cl, x);
    TooLongGivesBatch(Pushed(lists[cl], [x]), p.batch[cl]);
    forall i | 0 <= i < |lists|
      ensures GaveIdle(middle[i], Scavenged(middle[i], p.batch[i]), p.batch[i])
    {
      ScavengedGivesIdle(middle[i], p.batch[i]);
    }
  }

  class ThreadCache {
    const params: Params
    var lists: seq<List>
    var size: int
    var maxSize: int
    /** The objects taken in and not given out: from and to the central cache, from and to the application. */
    ghost var ledger: multiset<int>
    /** How many objects the central cache was asked for, each time. */
    ghost var asked: seq<int>

    ghost predicate Listed()
      reads this
    {
      && ValidParams(params) && |lists| == |params.sizes|
      && (forall cl :: 0 <= cl < |lists| ==> ListOk(lists[cl]) && 0 <= lists[cl].overages <= MAX_OVERAGES)
      && (forall cl :: 1 <= cl < |lists| ==> CapOk(lists[cl].maxLength, params.batch[cl]))
      && (0 < |lists| ==> lists[0].chain == [])
    }

    /** The recorded size is the sum over all lists of length times object size, and no object is lost
        or doubled. */
    ghost predicate Valid()
      reads this
    {
      Listed() && size == Bytes(lists, params.sizes) && ledger == Contents(lists)
    }

    constructor (p: Params)
      requires ValidParams(p)
      ensures Valid() && params == p && maxSize == 0 && size == 0
      ensures |lists| == |p.sizes| && forall cl :: 0 <= cl < |lists| ==> lists[cl] == List([], 0, 1, 0)
    {
      params := p;
      lists := seq(|p.sizes|, _ => List([], 0, 1, 0));
      size, maxSize, ledger, asked := 0, 0, multiset{}, [];
      ContentsOfEmpty(seq(|p.sizes|, _ => List([], 0, 1, 0)));
      BytesOfEmpty(seq(|p.sizes|, _ => List([], 0, 1, 0)), p.sizes);
    }

    /** What the central cache hands out: up to `n` objects, none when memory is short. */
    method RemoveRange(n: int) returns (fetched: seq<int>)
      requires n >= 1
      modifies `ledger, `asked
      ensures |fetched| <= n && ledger == Plus(old(ledger), fetched) && asked == old(asked) + [n]
    {
      fetched := *;
      if !(|fetched| <= n) {
        fetched := [];
      }
      ledger, asked := ledger + multiset(fetched), asked + [n];
    }

    /** An object goes to the application. */
    ghost method HandOut(x: int)
      modifies `ledger
      ensures ledger == Minus(old(ledger), x)
    {
      ledger := ledger - multiset{x};
    }

    /** What the central cache is given back. */
    method InsertRange(chain: seq<int>)
      requires Among(chain, ledger)
      modifies `ledger
      ensures ledger == Less(old(ledger), chain)
    {
      ledger := ledger - multiset(chain);
    }

    /** Refills an empty list and returns the first object fetched. */
    method FetchFromCentralCache(cl: int) returns (r: Option<int>, ghost all: seq<int>)
      requires Valid() && 1 <= cl < |lists| && lists[cl].chain == []
      modifies `lists, `size, `ledger, `asked
      ensures Valid() && |all| <= params.batch[cl] && |all| <= old(lists)[cl].maxLength
      ensures asked == old(asked) + [if old(lists)[cl].maxLength < params.batch[cl] then old(lists)[cl].maxLength else params.batch[cl]]
      ensures all == [] ==> r == None && lists == old(lists)
      ensures all != [] ==> r == Some(all[0])
      ensures all != [] ==> lists == old(lists)[cl := Pushed(old(lists)[cl], all[1..])
                                                .(maxLength := Raised(old(lists)[cl].maxLength, params.batch[cl]))]
    {
      hide Contents, Bytes, Raised, Minus, Plus;
      var batch, l := params.batch[cl], lists[cl];
      var fetched := RemoveRange(if l.maxLength < batch then l.maxLength else batch);
      all := fetched;
      if fetched == [] {
        PlusNothing(old(ledger));
        return None, all;
      }
      var rest := fetched[1..];
      var l' := Pushed(l, rest).(maxLength := Raised(l.maxLength, batch));
      RaisedIsCap(l.maxLength, batch);
      BytesUpdate(lists, params.sizes, cl, l');
      ContentsFetched(lists, cl, fetched, l');
      HandOut(fetched[0]);
      size := size + params.sizes[cl] * |rest|;
      lists := lists[cl := l'];
      return Some(fetched[0]), all;
    }

    /** The head of the list; when that is empty, what the central cache hands out. */
    method Allocate(cl: int) returns (r: Option<int>, ghost all: seq<int>)
      requires Valid() && 1 <= cl < |lists|
      modifies `lists, `size, `ledger, `asked
      ensures Valid() && |lists| == old(|lists|)
      ensures old(lists)[cl].chain == [] ==> |all| <= params.batch[cl] && |all| <= old(lists)[cl].maxLength
      ensures old(lists)[cl].chain == [] && all == [] ==> r == None && lists == old(lists)
      ensures old(lists)[cl].chain == [] && all != [] ==>
        && r == Some(all[0])
        && lists == old(lists)[cl := Pushed(old(lists)[cl], all[1..])
                                       .(maxLength := Raised(old(lists)[cl].maxLength, params.batch[cl]))]
      ensures old(lists)[cl].chain == [] ==>
        asked == old(asked) + [if old(lists)[cl].maxLength < params.batch[cl] then old(lists)[cl].maxLength else params.batch[cl]]
      ensures old(lists)[cl].chain != [] ==>
        r == Some(old(lists)[cl].chain[0]) && lists == old(lists)[cl := Popped(old(lists)[cl], 1)]
    {
      hide Contents, Minus, Raised, Bytes;
      var l := lists[cl];
      if l.chain == [] {
        r, all := FetchFromCentralCache(cl);
        return;
      }
      BytesUpdate(lists, params.sizes, cl, Popped(l, 1));
      ContentsHead(lists, cl);
      HandOut(l.chain[0]);
      lists := lists[cl := Popped(l, 1)];
      size := size - params.sizes[cl];
      return Some(l.chain[0]), [];
    }

    /** Sends the first `n` objects back, packaged in whole batches and one last chain. */
    method ReleaseToCentralCache(cl: int, wanted: int) returns (ghost chains: seq<seq<int>>)
      requires Valid() && 1 <= cl < |lists| && 0 <= wanted
      modifies `lists, `size, `ledger
      ensures Valid()
      ensures var n := if wanted < |old(lists)[cl].chain| then wanted else |old(lists)[cl].chain|;
        && lists == old(lists)[cl := Popped(old(lists)[cl], n)]
        && Joined(chains) == old(lists)[cl].chain[..n]
      ensures Packaged(chains, params.batch[cl])
    {
      hide CapOk, Joined, Packaged, Contents, Less, Among;
      var batch, l := params.batch[cl], lists[cl];
      var n := if wanted < |l.chain| then wanted else |l.chain|;
      ContentsPopped(lists, cl, n);
      var left;
      left, chains := Package(l, n, batch);
      BytesPopped(lists, params.sizes, cl, n);
      lists := lists[cl := left];
      size := size - n * params.sizes[cl];
    }

    /** Changes what is recorded about a list, not what is in it. */
    method Annotate(cl: int, l: List)
      requires Valid() && 0 <= cl < |lists| && l.chain == lists[cl].chain
      requires ListOk(l) && 0 <= l.overages <= MAX_OVERAGES && (cl >= 1 ==> CapOk(l.maxLength, params.batch[cl]))
      modifies `lists
      ensures Valid() && lists == old(lists)[cl := l]
    {
      hide Contents;
      BytesUpdate(lists, params.sizes, cl, l);
      ContentsUpdate(lists, cl, l);
      lists := lists[cl := l];
    }

    /** Half of what a list did not need since the last time goes back, and its cap shrinks. */
    method ScavengeList(cl: int)
      requires Valid() && 0 <= cl < |lists|
      modifies `lists, `size, `ledger
      ensures Valid() && lists == old(lists)[cl := Scavenged(old(lists)[cl], params.batch[cl])]
      ensures GaveIdle(old(lists)[cl], lists[cl], params.batch[cl])
      ensures size <= old(size) && (old(lists)[cl].lowater > 0 ==> size < old(size))
    {
      hide Contents, Bytes, TailOf, GaveIdle;
      ScavengedGivesIdle(lists[cl], params.batch[cl]);
      BytesUpdate(lists, params.sizes, cl, Scavenged(lists[cl], params.batch[cl]));
      IdleBytes(lists[cl], Scavenged(lists[cl], params.batch[cl]), params.batch[cl], params.sizes[cl]);
      var low := lists[cl].lowater;
      if low > 0 {
        var batch := params.batch[cl];
        ghost var chains := ReleaseToCentralCache(cl, if low > 1 then low / 2 else 1);
        if lists[cl].maxLength > batch {
          LoweredIsCap(lists[cl].maxLength, batch);
          var lowered := lists[cl].maxLength - batch;
          Annotate(cl, lists[cl].(maxLength := if lowered < batch then batch else lowered));
        }
      }
      Annotate(cl, lists[cl].(lowater := |lists[cl].chain|));
    }

    lemma AllAreOk()
      requires Listed()
      ensures AllOk(lists) && |lists| == |params.sizes| == |params.batch|
    {
    }

    /** Releases idle objects of every class. */
    method ScavengeLists()
      requires Valid()
      modifies `lists, `size, `ledger
      ensures Valid() && AllOk(old(lists)) && |params.batch| == old(|lists|) == |lists|
      ensures lists == AllScavenged(old(lists), params.batch)
      ensures size <= old(size) && (HasIdle(old(lists)) ==> size < old(size))
    {
      hide Contents, Bytes, CapOk, Scavenged, ListOk, GaveIdle;
      AllAreOk();
      ghost var was := lists;
      var cl := 0;
      while cl < |lists|
        invariant Valid() && 0 <= cl <= |lists| == |was|
        invariant forall i :: 0 <= i < cl ==> lists[i] == Scavenged(was[i], params.batch[i])
        invariant forall i :: cl <= i < |lists| ==> lists[i] == was[i]
        invariant size <= old(size) && (HasIdle(was[..cl]) ==> size < old(size))
      {
        assert was[..cl + 1] == was[..cl] + [was[cl]];
        ScavengeList(cl);
        cl := cl + 1;
      }
      assert was[..cl] == was;
    }

    /** Releases idle objects of every class, then asks for a larger limit. */
    method Scavenge(reg: Registry)
      requires Valid() && reg.Valid() && this in reg.heaps
      modifies `lists, `size, `ledger, reg`unclaimed, reg`nextSteal, reg.heaps`maxSize
      ensures Valid() && reg.Valid() && AllOk(old(lists)) && |params.batch| == old(|lists|)
      ensures lists == AllScavenged(old(lists), params.batch)
      ensures size <= old(size) && (HasIdle(old(lists)) ==> size < old(size))
    {
      hide Contents, Bytes, CapOk, Claims, Unique, AllScavenged;
      ScavengeLists();
      reg.IncreaseCacheLimit(this);
    }

    /** A list over its cap gives a batch back; the cap starts slowly and shrinks after repeated overages. */
    method TrimList(cl: int)
      requires Valid() && 1 <= cl < |lists|
      modifies `lists, `size, `ledger
      ensures Valid() && lists == old(lists)[cl := TooLong(old(lists)[cl], params.batch[cl])]
      ensures GaveBatch(old(lists)[cl], lists[cl], params.batch[cl])
    {
      hide Contents, Bytes, GaveBatch;
      TooLongGivesBatch(lists[cl], params.batch[cl]);
      var batch := params.batch[cl];
      ghost var chains := ReleaseToCentralCache(cl, batch);
      var l := lists[cl];
      if l.maxLength < batch {
        Annotate(cl, l.(maxLength := l.maxLength + 1));
      } else if l.maxLength > batch {
        if l.overages + 1 > MAX_OVERAGES {
          LoweredIsCap(l.maxLength, batch);
          Annotate(cl, l.(maxLength := l.maxLength - batch, overages := 0));
        } else {
          Annotate(cl, l.(overages := l.overages + 1));
        }
      }
    }

    method ListTooLong(cl: int, reg: Registry)
      requires Listed() && 1 <= cl < |lists| && size + params.sizes[cl] == Bytes(lists, params.sizes)
      requires ledger == Contents(lists) && reg.Valid() && this in reg.heaps
      modifies `lists, `size, `ledger, reg`unclaimed, reg`nextSteal, reg.heaps`maxSize
      ensures Valid() && reg.Valid() && |params.sizes| == |params.batch| == old(|lists|)
      ensures var trimmed := old(lists)[cl := TooLong(old(lists)[cl], params.batch[cl])];
        AllOk(trimmed) && lists == Settled(trimmed, params, old(maxSize))
    {
      hide Contents, Bytes, CapOk, Claims, Unique, TooLong, AllScavenged, ListOk, AllOk;
      size := size + params.sizes[cl];
      TrimList(cl);
      AllAreOk();
      if size > maxSize {
        Scavenge(reg);
      }
    }

    /** The object goes to the front of its list; a list over its cap is trimmed, and a cache over its limit
        is scavenged. */
    method Deallocate(x: int, cl: int, reg: Registry)
      requires Valid() && 1 <= cl < |lists| && reg.Valid() && this in reg.heaps
      modifies `lists, `size, `ledger, reg`unclaimed, reg`nextSteal, reg.heaps`maxSize
      ensures Valid() && reg.Valid() && |params.sizes| == |params.batch| == old(|lists|)
      ensures var changed := Returned(old(lists), params, cl, x);
        AllOk(changed) && lists == Settled(changed, params, old(maxSize))
          && FreedInto(old(lists), params, old(maxSize), cl, x, changed, lists)
    {
      hide Contents, Bytes, CapOk, Claims, Unique, TooLong, AllScavenged, FreedInto;
      ghost var was := lists;
      AllAreOk();
      assert |was| == |params.sizes| == |params.batch|;
      assert AllOk(Returned(was, params, cl, x)) ==>
          FreedInto(was, params, maxSize, cl, x, Returned(was, params, cl, x), Settled(Returned(was, params, cl, x), params, maxSize)) by {
        if AllOk(Returned(was, params, cl, x)) {
          FreeingIs(was, params, maxSize, cl, x);
        }
      }
      var l := Pushed(lists[cl], [x]);
      BytesUpdate(lists, params.sizes, cl, l);
      ContentsPushed(lists, cl, [x], l);
      ledger := ledger + multiset{x};
      MulSub(|l.chain|, 1, params.sizes[cl]);
      lists := lists[cl := l];
      if |l.chain| > l.maxLength {
        assert lists[cl := TooLong(l, params.batch[cl])] == old(lists)[cl := TooLong(l, params.batch[cl])];
        ListTooLong(cl, reg);
        return;
      }
      size := size + params.sizes[cl];
      AllAreOk();
      if size > maxSize {
        Scavenge(reg);
      }
    }

    /** What the destructor does: every list goes back whole, in its order. */
    method Drain() returns (ghost sent: seq<seq<seq<int>>>)
      requires Valid()
      modifies `lists, `size, `ledger
      ensures Valid() && size == 0 && ledger == multiset{} && |sent| == |lists| == old(|lists|)
      ensures forall cl :: 0 <= cl < |lists| ==> lists[cl].chain == [] && Joined(sent[cl]) == old(lists)[cl].chain
    {
      hide Contents, Joined, Packaged, CapOk;
      ghost var was := lists;
      sent := [];
      JoinedNone();
      var cl := 0;
      while cl < |lists|
        invariant Valid() && 0 <= cl <= |lists| == |was|
        invariant forall i :: cl <= i < |lists| ==> lists[i] == was[i]
        invariant |sent| == cl && forall i :: 0 <= i < cl ==> lists[i].chain == [] && Joined(sent[i]) == was[i].chain
      {
        ghost var chains: seq<seq<int>> := [];
        if |lists[cl].chain| > 0 {
          ghost var all := lists[cl].chain;
          assert all[..|all|] == all;
          chains := ReleaseToCentralCache(cl, |lists[cl].chain|);
        }
        sent := sent + [chains];
        cl := cl + 1;
      }
      BytesOfEmpty(lists, params.sizes);
      ContentsOfEmpty(lists);
    }

    /** Cuts the first `all` objects off a list, a batch at a time, and gives each chain back. */
    method Package(l: List, all: int, batch: int) returns (left: List, ghost chains: seq<seq<int>>)
      requires ListOk(l) && 0 <= all <= |l.chain| && 0 < batch && Among(l.chain[..all], ledger)
      modifies `ledger
      ensures left == Popped(l, all) && Joined(chains) == l.chain[..all] && Packaged(chains, batch)
      ensures ledger == Less(old(ledger), l.chain[..all])
    {
      hide Joined, Popped, Packaged, Less, Among;
      var n := all;
      left, chains := l, [];
      PoppedNone(l);
      JoinedNone();
      NothingSent(ledger, l.chain);
      while n > batch
        invariant 0 <= n <= all && left == Popped(l, all - n)
        invariant Joined(chains) == l.chain[..all - n]
        invariant forall i :: 0 <= i < |chains| ==> |chains[i]| == batch
        invariant ledger == Less(old(ledger), l.chain[..all - n])
      {
        PoppedTwice(l, all - n, batch);
        PoppedChain(l, all - n);
        JoinedAppend(chains, left.chain[..batch]);
        PartSent(l.chain, all - n, batch, all, old(ledger), ledger);
        InsertRange(left.chain[..batch]);
        chains := chains + [left.chain[..batch]];
        left := Popped(left, batch);
        n := n - batch;
      }
      PoppedTwice(l, all - n, n);
      PoppedChain(l, all - n);
      JoinedAppend(chains, left.chain[..n]);
      PartSent(l.chain, all - n, n, all, old(ledger), ledger);
      LastPackage(chains, left.chain[..n], batch);
      InsertRange(left.chain[..n]);
      chains := chains + [left.chain[..n]];
      left := Popped(left, n);
    }
  }

  // ----- The caches of all threads -----

  ghost function Sum(s: seq<int>): int {
    if s == [] then 0 else s[0] + Sum(s[1..])
  }

  lemma {:induction false} SumUpdate(s: seq<int>, i: int, v: int)
    requires 0 <= i < |s|
    ensures Sum(s[i := v]) == Sum(s) - s[i] + v
  {
    if i == 0 {
      assert s[i := v][1..] == s[1..];
    } else {
      assert s[i := v][1..] == s[1..][i - 1 := v];
      SumUpdate(s[1..], i - 1, v);
    }
  }

  lemma {:induction false} SumRemove(s: seq<int>, i: int)
    requires 0 <= i < |s|
    ensures Sum(s[..i] + s[i + 1..]) == Sum(s) - s[i]
  {
    if i == 0 {
      assert s[..i] + s[i + 1..] == s[1..];
    } else {
      assert (s[..i] + s[i + 1..])[1..] == s[1..][..i - 1] + s[1..][i..];
      SumRemove(s[1..], i - 1);
    }
  }

  /** What each cache of a list may hold. */
  ghost function Limits(hs: seq<ThreadCache>): (s: seq<int>)
    reads hs`maxSize
    ensures |s| == |hs| && forall i :: 0 <= i < |hs| ==> s[i] == hs[i].maxSize
  {
    if hs == [] then [] else [hs[0].maxSize] + Limits(hs[1..])
  }

  /** What the caches of a list may hold together. */
  ghost function Claims(hs: seq<ThreadCache>): int
    reads hs`maxSize
  {
    Sum(Limits(hs))
  }

  ghost predicate Unique(hs: seq<ThreadCache>) {
    forall i, j :: 0 <= i < j < |hs| ==> hs[i] != hs[j]
  }

  lemma ClaimsNone()
    ensures Claims([]) == 0
  {
  }

  lemma ClaimsCons(t: ThreadCache, hs: seq<ThreadCache>)
    ensures Claims([t] + hs) == t.maxSize + Claims(hs)
  {
    assert ([t] + hs)[1..] == hs;
    assert Limits([t] + hs)[1..] == Limits(hs);
  }

  lemma UniqueCons(t: ThreadCache, hs: seq<ThreadCache>)
    requires Unique(hs) && t !in hs
    ensures Unique([t] + hs)
  {
  }

  function Without(hs: seq<ThreadCache>, i: int): seq<ThreadCache>
    requires 0 <= i < |hs|
  {
    hs[..i] + hs[i + 1..]
  }

  lemma ClaimsWithout(hs: seq<ThreadCache>, i: int)
    requires 0 <= i < |hs|
    ensures Claims(Without(hs, i)) == Claims(hs) - hs[i].maxSize
  {
    SumRemove(Limits(hs), i);
    assert Limits(Without(hs, i)) == Limits(hs)[..i] + Limits(hs)[i + 1..];
  }

  lemma WithoutIs(hs: seq<ThreadCache>, i: int)
    requires 0 <= i < |hs| && Unique(hs)
    ensures Unique(Without(hs, i)) && (i + 1 < |hs| ==> hs[i + 1] in Without(hs, i))
    ensures forall h :: h in Without(hs, i) <==> h in hs && h != hs[i]
  {
    var rest := Without(hs, i);
    assert forall k :: 0 <= k < |rest| ==> rest[k] == hs[if k < i then k else k + 1];
    forall h | h in hs && h != hs[i] ensures h in rest {
      var k :| 0 <= k < |hs| && hs[k] == h;
      assert h == rest[if k < i then k else k - 1];
    }
  }

  /** A position going once round a list of `n`. */
  ghost function Wrapped(k: int, n: int): int {
    if k < n then k else k - n
  }

  /** The pointer one holds before looking at position `p`: null before starting over. */
  ghost function PointerAt(hs: seq<ThreadCache>, p: int): ThreadCache? {
    if 0 < p < |hs| then hs[p] else null
  }

  lemma PointsAt(hs: seq<ThreadCache>, p: int, q: int)
    requires Unique(hs) && 0 <= p < |hs| && 0 <= q < |hs|
    requires if PointerAt(hs, q) == null then p == 0 else hs[p] == PointerAt(hs, q)
    ensures p == q
  {
  }

  class Registry {
    /** All thread caches, the newest first. */
    var heaps: seq<ThreadCache>
    /** The cache to steal from next, if any. */
    var nextSteal: ThreadCache?
    var unclaimed: int
    var overall: int
    var minSize: int
    var perThread: int

    /** Nothing is listed twice, and the cache to steal from is listed. */
    ghost predicate Linked()
      reads this
    {
      && Unique(heaps)
      && (nextSteal == null || nextSteal in heaps)
      && overall > 0 && minSize >= STEAL_AMOUNT
    }

    /** What is unclaimed and what the caches may hold add up to the overall allowance. */
    ghost predicate Valid()
      reads this, heaps`maxSize
    {
      && Linked() && unclaimed + Claims(heaps) == overall
      && forall h :: h in heaps ==> h.maxSize >= 0
    }

    constructor (overallSize: int, least: int)
      requires overallSize > 0 && least >= STEAL_AMOUNT
      ensures Valid() && heaps == [] && overall == overallSize && minSize == least
    {
      heaps, nextSteal, unclaimed, overall, minSize, perThread :=
        [], null, overallSize, overallSize, least, MAX_THREAD_CACHE_SIZE;
    }

    method IndexOf(h: ThreadCache) returns (i: int)
      requires h in heaps
      ensures 0 <= i < |heaps| && heaps[i] == h
    {
      i := 0;
      while heaps[i] != h
        invariant 0 <= i < |heaps| && h in heaps[i..]
        decreases |heaps| - i
      {
        i := i + 1;
      }
    }

    /** The cache after the one at `i`, or null. */
    method Next(h: ThreadCache, ghost i: int) returns (next: ThreadCache?)
      requires 0 <= i < |heaps| && heaps[i] == h && Unique(heaps)
      ensures next == PointerAt(heaps, i + 1) && (next == null || next in heaps)
    {
      var k := IndexOf(h);
      return if k + 1 < |heaps| then heaps[k + 1] else null;
    }

    /** The limit of a listed cache changes. */
    method SetLimit(h: ThreadCache, limit: int)
      requires Unique(heaps) && h in heaps
      modifies h`maxSize
      ensures h.maxSize == limit && Claims(heaps) == old(Claims(heaps)) + limit - old(h.maxSize)
    {
      ghost var before := Limits(heaps);
      ghost var i :| 0 <= i < |heaps| && heaps[i] == h;
      h.maxSize := limit;
      assert Limits(heaps) == before[i := limit];
      SumUpdate(before, i, limit);
    }

    /** A cache that the steal amount can be taken from. */
    predicate Suitable(h: ThreadCache, t: ThreadCache)
      reads `minSize, h`maxSize
    {
      h != t && h.maxSize > minSize
    }

    /** Where to look first: at the cache to steal from, or at the front of the list. */
    method Start() returns (p: int)
      requires Linked() && heaps != []
      modifies `nextSteal
      ensures Linked() && 0 <= p < |heaps| && nextSteal == heaps[p]
      ensures if old(nextSteal) == null then p == 0 else heaps[p] == old(nextSteal)
    {
      hide Unique;
      if nextSteal == null {
        nextSteal := heaps[0];
        return 0;
      }
      p := IndexOf(nextSteal);
    }

    /** Looks for a cache to steal from, over ten caches at most: with no more than ten caches it finds one
        if there is one. */
    method FindVictim(t: ThreadCache) returns (victim: ThreadCache?)
      requires Linked() && heaps != []
      modifies `nextSteal
      ensures Linked()
      ensures victim != null ==> victim in heaps && Suitable(victim, t)
      ensures victim == null && |heaps| <= 10 ==> forall k :: 0 <= k < |heaps| ==> !Suitable(heaps[k], t)
    {
      hide Unique, Suitable;
      var n := |heaps|;
      ghost var start := 0;
      var i := 0;
      while i < 10
        invariant Linked() && heaps == old(heaps) && 0 <= i <= 10 && 0 <= start < n
        invariant 0 < i <= n ==> nextSteal == PointerAt(heaps, Wrapped(start + i, n))
        invariant forall k :: 0 <= k < n && (start <= k < start + i || start <= k + n < start + i) ==> !Suitable(heaps[k], t)
      {
        var p := Start();
        if i == 0 {
          start := p;
        } else if i < n {
          PointsAt(heaps, p, Wrapped(start + i, n));
        }
        assert i < n ==> p == Wrapped(start + i, n);
        victim := heaps[p];
        nextSteal := Next(heaps[p], p);
        if victim != t && victim.maxSize > minSize {
          assert Suitable(victim, t) by { SuitableMeans(victim, t); }
          return;
        }
        assert !Suitable(heaps[p], t) by { SuitableMeans(heaps[p], t); }
        i := i + 1;
      }
      return null;
    }

    lemma SuitableMeans(h: ThreadCache, t: ThreadCache)
      ensures Suitable(h, t) <==> h != t && h.maxSize > minSize
    {
    }

    /** Takes the steal amount from what is unclaimed, or else from another cache. */
    method IncreaseCacheLimit(t: ThreadCache)
      requires Valid() && t in heaps
      modifies `unclaimed, `nextSteal, heaps`maxSize
      ensures Valid()
      ensures old(unclaimed) > 0 ==> unclaimed == old(unclaimed) - STEAL_AMOUNT && t.maxSize == old(t.maxSize) + STEAL_AMOUNT
      ensures old(unclaimed) <= 0 ==> unclaimed == old(unclaimed)
      ensures t.maxSize == old(t.maxSize) || t.maxSize == old(t.maxSize) + STEAL_AMOUNT
      ensures t.maxSize == old(t.maxSize) && |heaps| <= 10 ==> forall k :: 0 <= k < |heaps| ==> !old(Suitable(heaps[k], t))
    {
      hide Claims, Unique;
      if unclaimed > 0 {
        unclaimed := unclaimed - STEAL_AMOUNT;
        SetLimit(t, t.maxSize + STEAL_AMOUNT);
        return;
      }
      var victim := FindVictim(t);
      if victim != null {
        SetLimit(victim, victim.maxSize - STEAL_AMOUNT);
        SetLimit(t, t.maxSize + STEAL_AMOUNT);
      }
    }

    /** The first share of a cache that is not listed yet: the steal amount if it can be had, else the
        minimum, which drives what is unclaimed below zero. */
    method FirstShare(t: ThreadCache)
      requires Valid() && t !in heaps && t.maxSize == 0
      modifies `unclaimed, `nextSteal, heaps`maxSize, t`maxSize
      ensures Linked() && (forall h :: h in heaps ==> h.maxSize >= 0)
      ensures unclaimed + Claims(heaps) + t.maxSize == overall
      ensures old(unclaimed) > 0 ==> t.maxSize == STEAL_AMOUNT && unclaimed == old(unclaimed) - STEAL_AMOUNT
      ensures old(unclaimed) <= 0 ==>
        || (t.maxSize == STEAL_AMOUNT && unclaimed == old(unclaimed))
        || (t.maxSize == minSize && unclaimed == old(unclaimed) - minSize < 0)
    {
      hide Claims, Unique;
      if unclaimed > 0 {
        unclaimed := unclaimed - STEAL_AMOUNT;
        t.maxSize := STEAL_AMOUNT;
        return;
      }
      ClaimsNone();
      var victim := FindVictim(t);
      if victim != null {
        SetLimit(victim, victim.maxSize - STEAL_AMOUNT);
        t.maxSize := STEAL_AMOUNT;
      } else {
        unclaimed := unclaimed - minSize;
        assert unclaimed < 0;
        t.maxSize := minSize;
      }
    }

    /** A new cache goes in front of the list. */
    method NewHeap(p: Params) returns (t: ThreadCache)
      requires Valid() && ValidParams(p)
      modifies this, heaps`maxSize
      ensures Valid() && fresh(t) && t.Valid() && heaps == [t] + old(heaps)
      ensures t.maxSize == STEAL_AMOUNT || (t.maxSize == minSize && old(unclaimed) <= 0)
      ensures nextSteal != null || old(heaps) != []
    {
      hide Claims, Unique;
      t := new ThreadCache(p);
      FirstShare(t);
      if heaps == [] {
        assert nextSteal == null;
        nextSteal := t;
      }
      ClaimsCons(t, heaps);
      UniqueCons(t, heaps);
      heaps := [t] + heaps;
    }

    /** A cache leaves the list: nothing points at it any more, and its share is unclaimed again. */
    method DeleteCache(t: ThreadCache)
      requires Valid() && t in heaps
      modifies this
      ensures Valid() && t !in heaps && nextSteal != t
      ensures unclaimed == old(unclaimed) + t.maxSize && overall == old(overall)
      ensures forall h :: h in heaps <==> h in old(heaps) && h != t
      ensures heaps != [] ==> nextSteal != null
    {
      hide Claims, Unique, Without;
      var i := IndexOf(t);
      var next := Next(t, i);
      ClaimsWithout(heaps, i);
      WithoutIs(heaps, i);
      ghost var claims, rest := Claims(Without(heaps, i)), Without(heaps, i);
      if nextSteal != null {
        ghost var h: ThreadCache := nextSteal;
        assert h in rest || h == t;
      }
      if next != null {
        ghost var h: ThreadCache := next;
        assert h == heaps[i + 1] && h in rest;
      }
      heaps := Without(heaps, i);
      if nextSteal == t {
        nextSteal := next;
      }
      if nextSteal == null && heaps != [] {
        nextSteal := heaps[0];
      }
      unclaimed := unclaimed + t.maxSize;
      assert Claims(heaps) == claims;
    }

    /** Divides the allowance anew: limits shrink in proportion, and what is left over is unclaimed. */
    method RecomputePerThreadCacheSize()
      requires Linked() && forall h :: h in heaps ==> h.maxSize >= 0
      modifies `unclaimed, `perThread, heaps`maxSize
      ensures Valid() && perThread == Share(overall, |heaps|, minSize)
      ensures forall i :: 0 <= i < |heaps| ==>
                heaps[i].maxSize == Scaled(old(heaps[i].maxSize), Ratio(perThread, old(perThread)))
    {
      hide Unique, Claims, Scaled;
      var n := if |heaps| > 0 then |heaps| else 1;
      var space := overall / n;
      if space < minSize {
        space := minSize;
      }
      if space > MAX_THREAD_CACHE_SIZE {
        space := MAX_THREAD_CACHE_SIZE;
      }
      var ratio := Ratio(space, perThread);
      var claimed := ScaleAll(ratio);
      unclaimed := overall - claimed;
      perThread := space;
    }

    method ScaleOne(h: ThreadCache, ghost i: int, ratio: real)
      requires Unique(heaps) && 0 <= i < |heaps| && heaps[i] == h && h.maxSize >= 0 && 0.0 <= ratio
      modifies h`maxSize
      ensures h.maxSize == Scaled(old(h.maxSize), ratio)
      ensures Limits(heaps) == old(Limits(heaps))[i := h.maxSize]
    {
      if ratio < 1.0 {
        h.maxSize := (h.maxSize as real * ratio).Floor;
      }
    }

    /** Shrinks every limit by the ratio, if it is below one, and adds them up. */
    method ScaleAll(ratio: real) returns (claimed: int)
      requires Unique(heaps) && 0.0 <= ratio && forall h :: h in heaps ==> h.maxSize >= 0
      modifies heaps`maxSize
      ensures claimed == Claims(heaps)
      ensures forall i :: 0 <= i < |heaps| ==> heaps[i].maxSize == Scaled(old(heaps[i].maxSize), ratio)
      ensures forall h :: h in heaps ==> h.maxSize >= 0
    {
      hide Unique, Sum, Limits, Scaled;
      claimed := 0;
      ghost var was := Limits(heaps);
      ghost var now := was;
      SumNone();
      var i := 0;
      while i < |heaps|
        invariant 0 <= i <= |heaps| && now == Limits(heaps) && |now| == |was| && claimed == Sum(now[..i])
        invariant forall k :: 0 <= k < i ==> now[k] == Scaled(was[k], ratio) && now[k] >= 0
        invariant forall k :: i <= k < |now| ==> now[k] == was[k] >= 0
      {
        assert now[i] == heaps[i].maxSize;
        ScaledIsLess(was[i], ratio);
        ScaleOne(heaps[i], i, ratio);
        SumStep(now, i, heaps[i].maxSize);
        now := now[i := heaps[i].maxSize];
        claimed := claimed + heaps[i].maxSize;
        i := i + 1;
      }
      assert now[..i] == now;
    }

    /** Sets the overall allowance, clipped to a reasonable range. */
    method SetOverallThreadCacheSize(newSize: int)
      requires Valid()
      modifies this, heaps`maxSize
      ensures Valid() && heaps == old(heaps)
      ensures overall == if newSize < minSize && minSize <= 0x4000_0000 then minSize
                         else if newSize > 0x4000_0000 || minSize > 0x4000_0000 then 0x4000_0000 else newSize
    {
      var clipped := if newSize < minSize then minSize else newSize;
      if clipped > 0x4000_0000 {
        clipped := 0x4000_0000;
      }
      overall := clipped;
      RecomputePerThreadCacheSize();
    }

    method SetMinPerThreadCacheSize(newSize: int)
      requires Valid() && newSize >= STEAL_AMOUNT
      modifies `minSize
      ensures Valid() && minSize == newSize
    {
      minSize := newSize;
    }
  }

  lemma SumStep(s: seq<int>, i: int, v: int)
    requires 0 <= i < |s|
    ensures Sum(s[i := v][..i + 1]) == Sum(s[..i]) + v
  {
    SumAppend(s[..i], v);
    assert s[i := v][..i + 1] == s[..i] + [v];
  }

  lemma SumNone()
    ensures Sum([]) == 0
  {
  }

  lemma {:induction false} SumAppend(s: seq<int>, v: int)
    ensures Sum(s + [v]) == Sum(s) + v
  {
    if s == [] {
      assert [v][1..] == [];
    } else {
      assert (s + [v])[1..] == s[1..] + [v];
      SumAppend(s[1..], v);
    }
  }

  /** An even share of the allowance, within bounds. */
  function Share(overall: int, count: int, minSize: int): int
    requires count >= 0
  {
    var space := overall / (if count > 0 then count else 1);
    var atLeast := if space < minSize then minSize else space;
    if atLeast > MAX_THREAD_CACHE_SIZE then MAX_THREAD_CACHE_SIZE else atLeast
  }

  /** As much for each as there is for all, rounded down, unless that is below the minimum or above the
      maximum, which wins. */
  lemma ShareIs(overall: int, count: int, minSize: int)
    requires count >= 0
    ensures var n, s := if count > 0 then count else 1, Share(overall, count, minSize);
      && s <= MAX_THREAD_CACHE_SIZE && (s < MAX_THREAD_CACHE_SIZE ==> s >= minSize && (s + 1) * n > overall)
      && (s > minSize ==> s * n <= overall)
  {
    var n, s := if count > 0 then count else 1, Share(overall, count, minSize);
    var space := overall / n;
    assert overall == space * n + overall % n;
    assert (space + 1) * n == space * n + n;
    if s >= space {
      MulLe(space + 1, s + 1, n);
    }
    if s <= space {
      MulLe(s, space, n);
    }
  }

  function Ratio(space: int, perThread: int): real {
    space as real / (if perThread < 1 then 1.0 else perThread as real)
  }

  /** Limits shrink in proportion but never grow. */
  function Scaled(limit: int, ratio: real): int {
    if ratio < 1.0 then (limit as real * ratio).Floor else limit
  }

  lemma ScaledIsLess(limit: int, ratio: real)
    requires limit >= 0 && 0.0 <= ratio
    ensures 0 <= Scaled(limit, ratio) <= limit
    ensures ratio >= 1.0 ==> Scaled(limit, ratio) == limit
    ensures ratio < 1.0 ==> Scaled(limit, ratio) as real <= limit as real * ratio < Scaled(limit, ratio) as real + 1.0
  {
    if ratio < 1.0 {
      ShrinkIsLess(limit as real, ratio);
    }
  }

  lemma ShrinkIsLess(a: real, ratio: real)
    requires a >= 0.0 && 0.0 <= ratio < 1.0
    ensures 0.0 <= a * ratio <= a
  {
    assert a * (1.0 - ratio) >= 0.0;
    assert a * (1.0 - ratio) == a - a * ratio;
  }

  lemma PoppedNone(l: List)
    ensures l.lowater <= |l.chain| ==> Popped(l, 0) == l
  {
  }

  /** Popping twice is popping once: the parts and the low-water mark agree. */
  lemma PoppedTwice(l: List, a: int, b: int)
    requires 0 <= a && 0 <= b && a + b <= |l.chain|
    ensures Popped(Popped(l, a), b) == Popped(l, a + b)
    ensures l.chain[..a] + Popped(l, a).chain[..b] == l.chain[..a + b]
  {
  }
}
