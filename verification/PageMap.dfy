/** The maps from page numbers to descriptors: a flat array and radix trees of two and three levels. */
module PageMaps {
  import opened Arith
  import opened Options

  /** A descriptor; zero is the null pointer. */
  type Ptr = int

  type Leaf = seq<Ptr>

  // ----- One level -----

  /** The test for a range in unsigned arithmetic. */
  function PassesTest(length: int, x: int, n: int): bool {
    n <= (length - x) % WORD
  }

  /** The test says whether the range fits exactly for starts up to the end of the array, and beyond
      it only for counts that are enormous. */
  lemma TestIsRightIff(length: int, x: int, n: int)
    requires 0 < length < WORD && 0 <= x < WORD && 0 <= n < WORD
    ensures (PassesTest(length, x, n) <==> x + n <= length) <==> x <= length || n > WORD - (x - length)
  {
    assert (length - x) % WORD == if x <= length then length - x else length - x + WORD;
  }

  /** One key beyond an array of four passes. */
  lemma TestCanBeWrong()
    ensures PassesTest(4, 5, 1) && 5 + 1 > 4
  {
    assert (4 - 5) % WORD == WORD - 1;
  }

  class PageMap1 {
    const values: array<Ptr>

    ghost predicate Valid()
      reads this
    {
      0 < values.Length < WORD
    }

    function Get(k: int): Ptr
      reads this, values
    {
      if 0 <= k < values.Length then values[k] else 0
    }

    constructor (length: int)
      requires 0 < length < WORD
      ensures Valid() && values.Length == length && fresh(values) && forall k :: Get(k) == 0
    {
      values := new Ptr[length](_ => 0);
    }

    method Set(k: int, v: Ptr)
      requires Valid() && 0 <= k < values.Length
      modifies values
      ensures forall j :: Get(j) == if j == k then v else old(Get(j))
    {
      values[k] := v;
    }

    /** Right for every start inside the array; a start beyond its end makes the difference wrap and
        every count that is not enormous pass. */
    method Ensure(x: int, n: int) returns (ok: bool)
      requires Valid() && 0 <= x < WORD && 0 <= n < WORD
      ensures x <= values.Length ==> (ok <==> x + n <= values.Length)
      ensures x > values.Length ==> (ok <==> n <= WORD - (x - values.Length))
    {
      ok := PassesTest(values.Length, x, n);
    }

    /** The value at the first key from `k` on that has one; `j` is that key. */
    method Next(k: int) returns (r: Ptr, ghost j: int)
      requires Valid() && 0 <= k
      ensures k <= j && r == Get(j) && forall i :: k <= i < j ==> Get(i) == 0
      ensures r == 0 ==> forall i :: k <= i ==> Get(i) == 0
    {
      var i := k;
      while i < values.Length
        invariant k <= i && forall m :: k <= m < i ==> Get(m) == 0
      {
        if values[i] != 0 {
          return values[i], i;
        }
        i := i + 1;
      }
      return 0, i;
    }
  }

  // ----- Leaves of a radix tree -----

  /** The leaf of a key, and the place of the key in it. */
  function LeafOf(k: int, length: int): int
    requires length > 0
  {
    k / length
  }

  function SlotOf(k: int, length: int): (slot: int)
    requires length > 0
    ensures 0 <= slot < length
  {
    k % length
  }

  lemma KeyIs(k: int, length: int)
    requires length > 0
    ensures k == LeafOf(k, length) * length + SlotOf(k, length)
    ensures LeafOf(k, length) < 0 <==> k < 0
  {
    var g := k / length;
    assert g >= 0 ==> g * length >= 0;
    assert g < 0 ==> g * length <= -length;
  }

  lemma SameKey(j: int, k: int, length: int)
    requires length > 0 && LeafOf(j, length) == LeafOf(k, length) && SlotOf(j, length) == SlotOf(k, length)
    ensures j == k
  {
    KeyIs(j, length);
    KeyIs(k, length);
  }

  lemma LeavesAreOrdered(a: int, b: int, length: int)
    requires length > 0 && a <= b
    ensures LeafOf(a, length) <= LeafOf(b, length)
  {
    KeyIs(a, length);
    KeyIs(b, length);
    if LeafOf(a, length) > LeafOf(b, length) {
      MulLe(LeafOf(b, length) + 1, LeafOf(a, length), length);
    }
  }

  /** The first key of the leaf after the one of `k`. */
  function NextLeaf(k: int, length: int): int
    requires length > 0
  {
    (LeafOf(k, length) + 1) * length
  }

  lemma NextLeafIs(k: int, length: int)
    requires length > 0
    ensures k < NextLeaf(k, length)
    ensures forall j :: k <= j < NextLeaf(k, length) ==> LeafOf(j, length) == LeafOf(k, length)
    ensures LeafOf(NextLeaf(k, length), length) == LeafOf(k, length) + 1
  {
    var g := LeafOf(k, length);
    KeyIs(k, length);
    DivModIs((g + 1) * length, length, g + 1, 0);
    forall j | k <= j < NextLeaf(k, length) ensures LeafOf(j, length) == g {
      DivModIs(j, length, g, j - g * length);
    }
  }

  function NewLeaf(length: nat): Leaf {
    seq(length, _ => 0)
  }

  function ValueIn(leaf: Option<Leaf>, slot: int): Ptr {
    if leaf.Some? && 0 <= slot < |leaf.value| then leaf.value[slot] else 0
  }

  // ----- Two levels -----

  /** The last key of a range in unsigned arithmetic. */
  function LastKey(start: int, n: int): int {
    (start + n - 1) % WORD
  }

  /** A loop from the first key up to the last one is entered exactly for ranges that do not pass the
      word size, and for the empty range at zero, whose last key is the largest. */
  lemma LoopIsEnteredIff(start: int, n: int)
    requires 0 <= start < WORD && 0 <= n < WORD
    ensures start <= LastKey(start, n) <==> (n > 0 && start + n <= WORD) || (n == 0 && start == 0)
    ensures n > 0 && start + n <= WORD ==> LastKey(start, n) == start + n - 1
    ensures start + n == 0 ==> LastKey(start, n) == WORD - 1
  {
    assert LastKey(start, n) == if start + n > WORD then start + n - 1 - WORD
                                else if start + n == 0 then WORD - 1 else start + n - 1;
  }

  function At<T>(s: seq<Option<T>>, i: int): Option<T> {
    if 0 <= i < |s| then s[i] else None
  }

  class PageMap2 {
    const leafLength: int
    const rootLength: int
    var root: seq<Option<Leaf>>
    /** How often no memory could be had for a leaf. */
    ghost var failures: nat

    ghost predicate Valid()
      reads this
    {
      && 0 < leafLength && 0 < rootLength && leafLength * rootLength < WORD
      && |root| == rootLength
      && forall g :: 0 <= g < |root| && root[g].Some? ==> |root[g].value| == leafLength
    }

    /** Keys whose leaf exists. */
    ghost predicate Settable(k: int)
      requires Valid()
      reads this
    {
      At(root, LeafOf(k, leafLength)).Some?
    }

    function Get(k: int): Ptr
      requires Valid()
      reads this
    {
      ValueIn(At(root, LeafOf(k, leafLength)), SlotOf(k, leafLength))
    }

    constructor (leaf: int, top: int)
      requires 0 < leaf && 0 < top && leaf * top < WORD
      ensures Valid() && leafLength == leaf && rootLength == top && forall k :: Get(k) == 0
    {
      leafLength, rootLength := leaf, top;
      root, failures := seq(top, _ => None), 0;
    }

    method Set(k: int, v: Ptr)
      requires Valid() && Settable(k)
      modifies `root
      ensures Valid() && forall j :: Get(j) == if j == k then v else old(Get(j))
      ensures forall j :: Settable(j) == old(Settable(j))
    {
      hide LeafOf, SlotOf;
      var g, slot := LeafOf(k, leafLength), SlotOf(k, leafLength);
      root := root[g := Some(root[g].value[slot := v])];
      forall j | LeafOf(j, leafLength) == g && SlotOf(j, leafLength) == slot ensures j == k {
        SameKey(j, k, leafLength);
      }
    }

    ghost function Capacity(): int {
      leafLength * rootLength
    }

    /** Whether memory can be had. */
    method Allocate() returns (ok: bool)
      modifies `failures
      ensures failures == old(failures) + if ok then 0 else 1
    {
      ok := *;
      if !ok {
        failures := failures + 1;
      }
    }

    /** Makes sure that the leaf of a key exists, unless there is no room for it. */
    method EnsureLeaf(key: int) returns (ok: bool)
      requires Valid() && 0 <= key
      modifies `root, `failures
      ensures failures >= old(failures)
      ensures Valid() && Grew(old(root), root, leafLength)
      ensures ok ==> failures == old(failures) && Settable(key) && key < Capacity()
      ensures !ok && failures == old(failures) ==> key >= Capacity()
    {
      hide LeafOf;
      RootBound(key, leafLength, rootLength);
      var g := LeafOf(key, leafLength);
      if g >= rootLength {
        return false;
      }
      if root[g].None? {
        var given := Allocate();
        if !given {
          return false;
        }
        root := root[g := Some(NewLeaf(leafLength))];
      }
      return true;
    }

    /** Leaf by leaf from `start` up to the leaf of `limit`. */
    method EnsureTo(start: int, limit: int) returns (ok: bool)
      requires Valid() && 0 <= start && limit < WORD
      modifies `root, `failures
      ensures failures >= old(failures)
      ensures Valid() && Grew(old(root), root, leafLength)
      ensures start > limit ==> ok && root == old(root)
      ensures ok ==> Covered(root, leafLength, start, limit + 1)
      ensures ok ==> failures == old(failures) && (start > limit || limit < Capacity())
      ensures !ok && failures == old(failures) ==> limit >= Capacity()
    {
      hide LeafOf, NextLeaf, Grew, Covered, Capacity;
      var key := start;
      ok := true;
      GrewNothing(root, leafLength);
      NothingCovered(root, leafLength, start);
      while key <= limit
        invariant Valid() && start <= key && Grew(old(root), root, leafLength)
        invariant Covered(root, leafLength, start, key)
        invariant key == start ==> root == old(root)
        invariant start > limit ==> key == start
        invariant failures == old(failures)
        invariant key == start || key <= Capacity()
        decreases limit + 1 - key
      {
        ghost var before := root;
        ok := EnsureLeaf(key);
        GrewMore(old(root), before, root, leafLength);
        if !ok {
          return;
        }
        CoverGrows(before, root, leafLength, start, key);
        NextLeafIs(key, leafLength);
        CapacityIs();
        NextLeafFits(key, leafLength, rootLength);
        key := NextLeaf(key, leafLength) % WORD;
      }
      ok := true;
      CoverLess(root, leafLength, start, key, limit + 1);
    }

    lemma CapacityIs()
      requires Valid()
      ensures Capacity() == leafLength * rootLength && Capacity() < WORD
    {
    }

    /** Makes leaves for all keys of a range. Without allocation failures it succeeds exactly when the
        range fits. When the last key passes the word size the loop is never entered. */
    method Ensure(start: int, n: int) returns (ok: bool)
      requires Valid() && 0 <= start < WORD && 0 <= n < WORD
      modifies `root, `failures
      ensures failures >= old(failures)
      ensures Valid() && (forall j :: Get(j) == old(Get(j))) && forall j :: old(Settable(j)) ==> Settable(j)
      ensures n > 0 && start + n <= WORD && ok ==> forall k :: start <= k < start + n ==> Settable(k)
      ensures n > 0 && start + n <= WORD && failures == old(failures) ==> (ok <==> start + n <= Capacity())
      ensures start + n > WORD ==> ok && root == old(root)
      ensures n == 0 ==> (ok <==> start > 0)
      ensures ok ==> failures == old(failures)
    {
      hide Grew, Covered, LeafOf, Capacity;
      CapacityIs();
      var limit := LastKey(start, n);
      LoopIsEnteredIff(start, n);
      ok := EnsureTo(start, limit);
      if ok {
        CoverMeans(root, leafLength, start, limit + 1);
      }
      GrewKeepsValues(old(root), root, leafLength);
    }

    /** The value at the first key from `k` on that has one; `j` is that key. */
    method Next(k: int) returns (r: Ptr, ghost j: int)
      requires Valid() && 0 <= k
      ensures k <= j && r == Get(j) && forall i :: k <= i < j ==> Get(i) == 0
      ensures r == 0 ==> forall i :: k <= i ==> Get(i) == 0
    {
      hide LeafOf, SlotOf, NextLeaf;
      var key := k;
      while key < leafLength * rootLength
        invariant k <= key && forall i :: k <= i < key ==> Get(i) == 0
        decreases leafLength * rootLength - key
      {
        RootBound(key, leafLength, rootLength);
        NextLeafIs(key, leafLength);
        var g := LeafOf(key, leafLength);
        if root[g].Some? {
          var slot;
          slot := FirstValue(root[g].value, SlotOf(key, leafLength));
          SlotsFollow(key, leafLength, slot);
          if slot < leafLength {
            j := key + slot - SlotOf(key, leafLength);
            return root[g].value[slot], j;
          }
        }
        key := NextLeaf(key, leafLength);
      }
      forall i | key <= i ensures Get(i) == 0 {
        RootBound(i, leafLength, rootLength);
      }
      return 0, key;
    }
  }

  /** The first place from `slot` on that holds a value, or the length of the leaf. */
  method FirstValue(leaf: Leaf, slot: int) returns (i: int)
    requires 0 <= slot < |leaf|
    ensures slot <= i <= |leaf| && (forall m :: slot <= m < i ==> leaf[m] == 0) && (i < |leaf| ==> leaf[i] != 0)
  {
    i := slot;
    while i < |leaf| && leaf[i] == 0
      invariant slot <= i <= |leaf| && forall m :: slot <= m < i ==> leaf[m] == 0
    {
      i := i + 1;
    }
  }

  /** The keys that follow in the same leaf follow in its places. */
  lemma SlotsFollow(key: int, length: int, slot: int)
    requires length > 0 && SlotOf(key, length) <= slot <= length
    ensures forall i :: key <= i < NextLeaf(key, length) ==> SlotOf(i, length) == SlotOf(key, length) + i - key
    ensures key + slot - SlotOf(key, length) <= NextLeaf(key, length)
    ensures slot < length ==> key + slot - SlotOf(key, length) < NextLeaf(key, length)
  {
    KeyIs(key, length);
    forall i | key <= i < NextLeaf(key, length) ensures SlotOf(i, length) == SlotOf(key, length) + i - key {
      DivModIs(i, length, LeafOf(key, length), SlotOf(key, length) + i - key);
    }
  }

  lemma NextLeafFits(key: int, length: int, top: int)
    requires length > 0 && top > 0 && 0 <= key < length * top
    ensures 0 < NextLeaf(key, length) <= length * top
  {
    KeyIs(key, length);
    RootBound(key, length, top);
    MulLe(LeafOf(key, length) + 1, top, length);
    MulLe(1, LeafOf(key, length) + 1, length);
  }

  /** Some leaves of nulls have been added. */
  ghost predicate Grew(before: seq<Option<Leaf>>, after: seq<Option<Leaf>>, length: nat) {
    && |after| == |before|
    && forall g :: 0 <= g < |before| ==>
         after[g] == before[g] || (before[g].None? && after[g] == Some(NewLeaf(length)))
  }

  lemma GrewNothing(root: seq<Option<Leaf>>, length: nat)
    ensures Grew(root, root, length)
  {
  }

  lemma GrewMore(a: seq<Option<Leaf>>, b: seq<Option<Leaf>>, c: seq<Option<Leaf>>, length: nat)
    requires Grew(a, b, length) && Grew(b, c, length)
    ensures Grew(a, c, length)
  {
  }

  /** All keys from `start` up to `end` have a leaf. */
  ghost predicate Covered(root: seq<Option<Leaf>>, length: int, start: int, end: int) {
    length > 0 && forall k :: start <= k < end ==> At(root, LeafOf(k, length)).Some?
  }

  lemma CoverMeans(root: seq<Option<Leaf>>, length: int, start: int, end: int)
    requires Covered(root, length, start, end)
    ensures length > 0 && forall k :: start <= k < end ==> At(root, LeafOf(k, length)).Some?
  {
  }

  lemma CoverLess(root: seq<Option<Leaf>>, length: int, start: int, end: int, less: int)
    requires Covered(root, length, start, end) && less <= end
    ensures Covered(root, length, start, less)
  {
  }

  lemma NothingCovered(root: seq<Option<Leaf>>, length: int, start: int)
    requires length > 0
    ensures Covered(root, length, start, start)
  {
  }

  lemma CoverGrows(before: seq<Option<Leaf>>, after: seq<Option<Leaf>>, length: nat, start: int, key: int)
    requires Grew(before, after, length) && Covered(before, length, start, key)
    requires At(after, LeafOf(key, length)).Some?
    ensures Covered(after, length, start, NextLeaf(key, length))
  {
    hide NextLeaf, LeafOf;
    NextLeafIs(key, length);
    forall k | start <= k < NextLeaf(key, length) ensures At(after, LeafOf(k, length)).Some? {
      assert k < key ==> At(before, LeafOf(k, length)).Some?;
    }
  }

  /** Adding leaves of nulls changes no value. */
  lemma GrewKeepsValues(before: seq<Option<Leaf>>, after: seq<Option<Leaf>>, length: nat)
    requires Grew(before, after, length)
    ensures forall g, slot :: ValueIn(At(after, g), slot) == ValueIn(At(before, g), slot)
    ensures forall g :: At(before, g).Some? ==> At(after, g).Some?
  {
  }

  /** A leaf number is in range exactly when the key is. */
  lemma RootBound(k: int, length: int, top: int)
    requires length > 0 && 0 < top
    ensures LeafOf(k, length) < top <==> k < length * top
    ensures k >= 0 ==> LeafOf(k, length) >= 0
  {
    KeyIs(k, length);
    var g := LeafOf(k, length);
    if g < top {
      MulLe(g + 1, top, length);
    } else {
      MulLe(top, g, length);
    }
  }

  // ----- Three levels -----

  type Node = seq<Option<Leaf>>

  /** All leaves below the root in one row; a missing node stands for missing leaves. */
  ghost function Flat(root: seq<Option<Node>>, interior: nat): (row: seq<Option<Leaf>>)
    requires interior > 0
    ensures |row| == interior * interior
  {
    seq(interior * interior, g => LeafAt(root, interior, g))
  }

  function LeafAt(root: seq<Option<Node>>, interior: int, g: int): Option<Leaf>
    requires interior > 0
  {
    var node := At(root, LeafOf(g, interior));
    if node.Some? then At(node.value, SlotOf(g, interior)) else None
  }

  lemma FlatAt(root: seq<Option<Node>>, interior: nat, g: int)
    requires interior > 0 && |root| == interior
    ensures At(Flat(root, interior), g) == LeafAt(root, interior, g)
  {
    RootBound(g, interior, interior);
    KeyIs(g, interior);
  }

  ghost predicate NodesOk(root: seq<Option<Node>>, interior: int, leaf: int) {
    && |root| == interior
    && forall i :: 0 <= i < |root| && root[i].Some? ==> NodeOk(root[i].value, interior, leaf)
  }

  ghost predicate NodeOk(node: Node, interior: int, leaf: int) {
    |node| == interior && forall i :: 0 <= i < |node| && node[i].Some? ==> |node[i].value| == leaf
  }

  /** Replaces the leaf with number `g`, whose node exists. */
  function PutLeaf(root: seq<Option<Node>>, interior: int, g: int, leaf: Leaf): seq<Option<Node>>
    requires interior > 0 && 0 <= LeafOf(g, interior) < |root|
    requires root[LeafOf(g, interior)].Some? && |root[LeafOf(g, interior)].value| == interior
  {
    var i1, i2 := LeafOf(g, interior), SlotOf(g, interior);
    root[i1 := Some(root[i1].value[i2 := Some(leaf)])]
  }

  lemma PutLeafIs(root: seq<Option<Node>>, interior: int, g: int, leaf: Leaf, h: int)
    requires interior > 0 && 0 <= LeafOf(g, interior) < |root|
    requires root[LeafOf(g, interior)].Some? && |root[LeafOf(g, interior)].value| == interior
    ensures LeafAt(PutLeaf(root, interior, g, leaf), interior, h) == if h == g then Some(leaf) else LeafAt(root, interior, h)
  {
    hide LeafOf, SlotOf;
    if LeafOf(h, interior) == LeafOf(g, interior) && SlotOf(h, interior) == SlotOf(g, interior) {
      SameKey(h, g, interior);
    }
  }

  lemma NewNodeIs(root: seq<Option<Node>>, interior: nat, i1: int, h: int)
    requires interior > 0 && 0 <= i1 < |root| && root[i1].None?
    ensures LeafAt(root[i1 := Some(seq(interior, _ => None))], interior, h) == LeafAt(root, interior, h)
  {
  }

  class PageMap3 {
    const leafLength: int
    const interior: nat
    var root: seq<Option<Node>>
    /** How often no memory could be had for a node or a leaf. */
    ghost var failures: nat

    ghost predicate Valid()
      reads this
    {
      && 0 < leafLength && 0 < interior && Capacity() < WORD
      && NodesOk(root, interior, leafLength)
    }

    ghost function Capacity(): int {
      leafLength * (interior * interior)
    }

    ghost predicate Settable(k: int)
      requires Valid()
      reads this
    {
      LeafAt(root, interior, LeafOf(k, leafLength)).Some?
    }

    function Get(k: int): Ptr
      requires Valid()
      reads this
    {
      ValueIn(LeafAt(root, interior, LeafOf(k, leafLength)), SlotOf(k, leafLength))
    }

    constructor (leaf: int, inner: nat)
      requires 0 < leaf && 0 < inner && leaf * (inner * inner) < WORD
      ensures Valid() && leafLength == leaf && interior == inner && forall k :: Get(k) == 0
    {
      leafLength, interior := leaf, inner;
      root, failures := seq(inner, _ => None), 0;
    }

    method Set(k: int, v: Ptr)
      requires Valid() && Settable(k)
      modifies `root
      ensures Valid() && forall j :: Get(j) == if j == k then v else old(Get(j))
      ensures forall j :: Settable(j) == old(Settable(j))
    {
      hide LeafOf, SlotOf, Capacity;
      var g, slot := LeafOf(k, leafLength), SlotOf(k, leafLength);
      ghost var before := root;
      var leaf := LeafAt(root, interior, g).value[slot := v];
      root := PutLeaf(root, interior, g, leaf);
      forall h ensures LeafAt(root, interior, h) == if h == g then Some(leaf) else LeafAt(before, interior, h) {
        PutLeafIs(before, interior, g, leaf, h);
      }
      forall j | LeafOf(j, leafLength) == g && SlotOf(j, leafLength) == slot ensures j == k {
        SameKey(j, k, leafLength);
      }
    }

    /** Whether memory can be had. */
    method Allocate() returns (ok: bool)
      modifies `failures
      ensures failures == old(failures) + if ok then 0 else 1
    {
      ok := *;
      if !ok {
        failures := failures + 1;
      }
    }

    /** Makes sure that the node and the leaf of a key exist, unless there is no room for them. */
    method EnsureLeaf(key: int) returns (ok: bool)
      requires Valid() && 0 <= key
      modifies `root, `failures
      ensures failures >= old(failures)
      ensures Valid() && Grew(Flat(old(root), interior), Flat(root, interior), leafLength)
      ensures ok ==> failures == old(failures) && Settable(key) && key < Capacity()
      ensures !ok && failures == old(failures) ==> key >= Capacity()
    {
      hide LeafOf, SlotOf, Capacity;
      CapacityIs();
      var g := LeafOf(key, leafLength);
      RootBound(key, leafLength, interior * interior);
      RootBound(g, interior, interior);
      var i1, i2 := LeafOf(g, interior), SlotOf(g, interior);
      ghost var before := root;
      FlatSame(before, root, interior, leafLength);
      if i1 >= interior {
        return false;
      }
      if root[i1].None? {
        var given := Allocate();
        if !given {
          return false;
        }
        root := root[i1 := Some(seq(interior, _ => None))];
        forall h ensures LeafAt(root, interior, h) == LeafAt(before, interior, h) {
          NewNodeIs(before, interior, i1, h);
        }
        FlatSame(before, root, interior, leafLength);
      }
      if root[i1].value[i2].None? {
        var given := Allocate();
        if !given {
          return false;
        }
        ghost var middle := root;
        root := PutLeaf(root, interior, g, NewLeaf(leafLength));
        forall h ensures LeafAt(root, interior, h) == if h == g then Some(NewLeaf(leafLength)) else LeafAt(before, interior, h) {
          PutLeafIs(middle, interior, g, NewLeaf(leafLength), h);
        }
        FlatSame(before, root, interior, leafLength);
      }
      return true;
    }

    lemma CapacityIs()
      requires Valid()
      ensures Capacity() == leafLength * (interior * interior) && Capacity() < WORD && interior * interior > 0
    {
    }

    method EnsureTo(start: int, limit: int) returns (ok: bool)
      requires Valid() && 0 <= start && limit < WORD
      modifies `root, `failures
      ensures failures >= old(failures)
      ensures Valid() && Grew(Flat(old(root), interior), Flat(root, interior), leafLength)
      ensures start > limit ==> ok && root == old(root)
      ensures ok ==> Covered(Flat(root, interior), leafLength, start, limit + 1)
      ensures ok ==> failures == old(failures) && (start > limit || limit < Capacity())
      ensures !ok && failures == old(failures) ==> limit >= Capacity()
    {
      hide LeafOf, NextLeaf, Grew, Covered, Capacity, Flat;
      var key := start;
      ok := true;
      ghost var row := Flat(root, interior);
      GrewNothing(row, leafLength);
      NothingCovered(row, leafLength, start);
      while key <= limit
        invariant Valid() && start <= key && row == Flat(root, interior) && Grew(Flat(old(root), interior), row, leafLength)
        invariant Covered(row, leafLength, start, key)
        invariant key == start ==> root == old(root)
        invariant start > limit ==> key == start
        invariant failures == old(failures)
        invariant key == start || key <= Capacity()
        decreases limit + 1 - key
      {
        ghost var before := row;
        ok := EnsureLeaf(key);
        row := Flat(root, interior);
        GrewMore(Flat(old(root), interior), before, row, leafLength);
        if !ok {
          return;
        }
        FlatAt(root, interior, LeafOf(key, leafLength));
        CoverGrows(before, row, leafLength, start, key);
        NextLeafIs(key, leafLength);
        CapacityIs();
        NextLeafFits(key, leafLength, interior * interior);
        key := NextLeaf(key, leafLength) % WORD;
      }
      ok := true;
      CoverLess(row, leafLength, start, key, limit + 1);
    }

    /** As in the map of two levels. */
    method Ensure(start: int, n: int) returns (ok: bool)
      requires Valid() && 0 <= start < WORD && 0 <= n < WORD
      modifies `root, `failures
      ensures failures >= old(failures)
      ensures Valid() && (forall j :: Get(j) == old(Get(j))) && forall j :: old(Settable(j)) ==> Settable(j)
      ensures n > 0 && start + n <= WORD && ok ==> forall k :: start <= k < start + n ==> Settable(k)
      ensures n > 0 && start + n <= WORD && failures == old(failures) ==> (ok <==> start + n <= Capacity())
      ensures start + n > WORD ==> ok && root == old(root)
      ensures n == 0 ==> (ok <==> start > 0)
      ensures ok ==> failures == old(failures)
    {
      hide Grew, Covered, LeafOf, Capacity, Flat;
      CapacityIs();
      var limit := LastKey(start, n);
      LoopIsEnteredIff(start, n);
      ghost var before := root;
      ok := EnsureTo(start, limit);
      if ok {
        CoverMeans(Flat(root, interior), leafLength, start, limit + 1);
      }
      GrewKeepsValues(Flat(before, interior), Flat(root, interior), leafLength);
      forall g ensures At(Flat(root, interior), g) == LeafAt(root, interior, g)
                    && At(Flat(before, interior), g) == LeafAt(before, interior, g) {
        FlatAt(root, interior, g);
        FlatAt(before, interior, g);
      }
    }

    /** The value at the first key from `k` on that has one; `j` is that key. Nodes that are missing
        are skipped as a whole. */
    method Next(k: int) returns (r: Ptr, ghost j: int)
      requires Valid() && 0 <= k
      ensures k <= j && r == Get(j) && forall i :: k <= i < j ==> Get(i) == 0
      ensures r == 0 ==> forall i :: k <= i ==> Get(i) == 0
    {
      hide LeafOf, SlotOf, NextLeaf, Capacity;
      CapacityIs();
      var key := k;
      var top := leafLength * (interior * interior);
      while key < top
        invariant k <= key && forall i :: k <= i < key ==> Get(i) == 0
        decreases top - key
      {
        var g := LeafOf(key, leafLength);
        RootBound(key, leafLength, interior * interior);
        RootBound(g, interior, interior);
        NextLeafIs(key, leafLength);
        if root[LeafOf(g, interior)].None? {
          var next := NextLeaf(g, interior) * leafLength;
          NodeIsMissing(key, next);
          key := next;
        } else {
          var leaf := LeafAt(root, interior, g);
          if leaf.Some? {
            var slot := FirstValue(leaf.value, SlotOf(key, leafLength));
            SlotsFollow(key, leafLength, slot);
            if slot < leafLength {
              j := key + slot - SlotOf(key, leafLength);
              return leaf.value[slot], j;
            }
          }
          key := NextLeaf(key, leafLength);
        }
      }
      forall i | key <= i ensures Get(i) == 0 {
        RootBound(i, leafLength, interior * interior);
        RootBound(LeafOf(i, leafLength), interior, interior);
      }
      return 0, key;
    }

    /** No key up to the next node has a value when the node is missing. */
    lemma NodeIsMissing(key: int, next: int)
      requires Valid() && 0 <= key
      requires At(root, LeafOf(LeafOf(key, leafLength), interior)).None?
      requires next == NextLeaf(LeafOf(key, leafLength), interior) * leafLength
      ensures key < next && forall i :: key <= i < next ==> Get(i) == 0
    {
      hide LeafOf, SlotOf, NextLeaf, Capacity;
      var g := LeafOf(key, leafLength);
      NextLeafIs(g, interior);
      RootBound(key, leafLength, 1);
      RootBound(key, leafLength, NextLeaf(g, interior));
      forall i | key <= i < next ensures Get(i) == 0 {
        LeavesAreOrdered(key, i, leafLength);
        RootBound(i, leafLength, NextLeaf(g, interior));
      }
    }
  }

  /** One leaf of nulls more, or none: the row has grown. */
  lemma FlatSame(before: seq<Option<Node>>, after: seq<Option<Node>>, interior: nat, length: nat)
    requires interior > 0 && |before| == interior && |after| == interior
    requires forall h :: LeafAt(after, interior, h) == LeafAt(before, interior, h)
                         || (LeafAt(before, interior, h).None? && LeafAt(after, interior, h) == Some(NewLeaf(length)))
    ensures Grew(Flat(before, interior), Flat(after, interior), length)
  {
  }
}
