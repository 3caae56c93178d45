/** The heap profiler's map from addresses to values: clusters of blocks behind a hash table. */
module AddressMaps {
  import opened Arith
  import opened Options

  const BLOCK_SIZE := 128
  const CLUSTER_BLOCKS := 8192
  const CLUSTER_SIZE := BLOCK_SIZE * CLUSTER_BLOCKS
  const HASH_SIZE := 4096
  const ALLOC_COUNT := 64

  datatype Entry<V> = Entry(key: int, value: V)
  datatype Cluster<V> = Cluster(id: int, blocks: seq<seq<Entry<V>>>)
  type Table<V> = seq<seq<Cluster<V>>>

  /** The top 12 bits of the low 32 bits of a product. */
  function Hash(id: int): (h: int)
    ensures 0 <= h < HASH_SIZE
  {
    ((id % 0x1_0000_0000) * 2654435769) % 0x1_0000_0000 / 0x10_0000
  }

  /** The first cluster with the given id, or the length of the chain. */
  function Index<V>(chain: seq<Cluster<V>>, id: int): (i: nat)
    ensures i <= |chain| && (i < |chain| ==> chain[i].id == id)
  {
    if chain == [] || chain[0].id == id then 0 else 1 + Index(chain[1..], id)
  }

  lemma {:induction false} IndexIsFirst<V>(chain: seq<Cluster<V>>, id: int, i: nat)
    requires i <= |chain| && (forall j :: 0 <= j < i ==> chain[j].id != id) && (i < |chain| ==> chain[i].id == id)
    ensures Index(chain, id) == i
  {
    if i > 0 {
      IndexIsFirst(chain[1..], id, i - 1);
    }
  }

  lemma {:induction false} IndexUpdate<V>(chain: seq<Cluster<V>>, id: int, i: nat, c: Cluster<V>)
    requires i < |chain| && c.id == chain[i].id
    ensures Index(chain[i := c], id) == Index(chain, id)
  {
    if i > 0 {
      assert chain[i := c][1..] == chain[1..][i - 1 := c];
      IndexUpdate(chain[1..], id, i - 1, c);
    } else {
      assert chain[i := c][1..] == chain[1..];
    }
  }

  ghost predicate TableOk<V>(table: Table<V>) {
    && |table| == HASH_SIZE
    && forall h, i :: 0 <= h < |table| && 0 <= i < |table[h]| ==> |table[h][i].blocks| == CLUSTER_BLOCKS
  }

  /** The entries whose addresses lie in block `g` of the address space. */
  ghost function Bucket<V>(table: Table<V>, g: int): seq<Entry<V>>
    requires TableOk(table)
  {
    var id := g / CLUSTER_BLOCKS;
    var chain := table[Hash(id)];
    var i := Index(chain, id);
    if i < |chain| then chain[i].blocks[g % CLUSTER_BLOCKS] else []
  }

  /** A block's list holds the entries of the map that lie in the block, each key once. */
  ghost predicate Holds<V>(list: seq<Entry<V>>, contents: map<int, V>, g: int) {
    && (forall i, j :: 0 <= i < j < |list| ==> list[i].key != list[j].key)
    && (forall i :: 0 <= i < |list| ==>
          list[i].key / BLOCK_SIZE == g && list[i].key in contents && contents[list[i].key] == list[i].value)
    && (forall k :: k in contents && k / BLOCK_SIZE == g ==> exists i :: 0 <= i < |list| && list[i].key == k)
  }

  ghost predicate Represents<V>(table: Table<V>, contents: map<int, V>) {
    && TableOk(table)
    && (forall k :: k in contents ==> 0 <= k < WORD)
    && forall g :: 0 <= g ==> Holds(Bucket(table, g), contents, g)
  }

  // ----- Changing one block -----

  ghost predicate OneBucket<V>(table: Table<V>, table': Table<V>, g: int, list: seq<Entry<V>>) {
    && TableOk(table) && TableOk(table')
    && Bucket(table', g) == list
    && forall k :: 0 <= k && k != g ==> Bucket(table', k) == Bucket(table, k)
  }

  function SetBlock<V>(table: Table<V>, h: int, i: int, b: int, list: seq<Entry<V>>): Table<V>
    requires 0 <= h < |table| && 0 <= i < |table[h]| && 0 <= b < |table[h][i].blocks|
  {
    table[h := table[h][i := table[h][i].(blocks := table[h][i].blocks[b := list])]]
  }

  lemma SetBlockIsOneBucket<V>(table: Table<V>, g: int, list: seq<Entry<V>>)
    requires TableOk(table) && 0 <= g
    requires var id := g / CLUSTER_BLOCKS; Index(table[Hash(id)], id) < |table[Hash(id)]|
    ensures var id := g / CLUSTER_BLOCKS;
      OneBucket(table, SetBlock(table, Hash(id), Index(table[Hash(id)], id), g % CLUSTER_BLOCKS, list), g, list)
  {
    var id, b := g / CLUSTER_BLOCKS, g % CLUSTER_BLOCKS;
    var h := Hash(id);
    var i := Index(table[h], id);
    var table' := SetBlock(table, h, i, b, list);
    forall k | 0 <= k ensures Bucket(table', k) == if k == g then list else Bucket(table, k) {
      IndexUpdate(table[h], k / CLUSTER_BLOCKS, i, table'[h][i]);
    }
  }

  /** A cluster with nothing in it, in front of its chain. */
  function WithCluster<V>(table: Table<V>, id: int): Table<V>
    requires |table| == HASH_SIZE
  {
    table[Hash(id) := [Cluster(id, seq(CLUSTER_BLOCKS, _ => []))] + table[Hash(id)]]
  }

  lemma NewClusterChangesNothing<V>(table: Table<V>, id: int)
    requires TableOk(table) && Index(table[Hash(id)], id) == |table[Hash(id)]|
    ensures TableOk(WithCluster(table, id)) && Index(WithCluster(table, id)[Hash(id)], id) == 0
    ensures forall g :: 0 <= g ==> Bucket(WithCluster(table, id), g) == Bucket(table, g)
  {
    var h := Hash(id);
    var table': Table<V> := WithCluster(table, id);
    forall k, i | 0 <= k < |table'| && 0 <= i < |table'[k]| ensures |table'[k][i].blocks| == CLUSTER_BLOCKS {
      assert k == h && i > 0 ==> table'[k][i] == table[k][i - 1];
    }
    assert table'[h][1..] == table[h];
    assert table'[h][0].id == id;
  }

  /** A key that is first at `i` in its block's list, or nowhere. */
  ghost predicate FoundAt<V>(list: seq<Entry<V>>, key: int, i: int) {
    0 <= i <= |list| && (forall j :: 0 <= j < i ==> list[j].key != key) && (i < |list| ==> list[i].key == key)
  }

  lemma FoundMeans<V>(list: seq<Entry<V>>, contents: map<int, V>, key: int, i: int)
    requires Holds(list, contents, key / BLOCK_SIZE) && FoundAt(list, key, i)
    ensures key in contents <==> i < |list|
    ensures i < |list| ==> contents[key] == list[i].value
  {
  }

  lemma ReplaceHolds<V>(list: seq<Entry<V>>, contents: map<int, V>, key: int, i: int, value: V)
    requires Holds(list, contents, key / BLOCK_SIZE) && FoundAt(list, key, i) && i < |list|
    ensures Holds(list[i := Entry(key, value)], contents[key := value], key / BLOCK_SIZE)
  {
    var list', contents' := list[i := Entry(key, value)], contents[key := value];
    assert forall j :: 0 <= j < |list| ==> list'[j].key == list[j].key;
    forall k | k in contents' && k / BLOCK_SIZE == key / BLOCK_SIZE
      ensures exists j :: 0 <= j < |list'| && list'[j].key == k
    {
      assert k in contents;
      var j :| 0 <= j < |list| && list[j].key == k;
      assert list'[j].key == k;
    }
  }

  lemma AddHolds<V>(list: seq<Entry<V>>, contents: map<int, V>, key: int, value: V)
    requires Holds(list, contents, key / BLOCK_SIZE) && FoundAt(list, key, |list|)
    ensures Holds([Entry(key, value)] + list, contents[key := value], key / BLOCK_SIZE)
  {
    var list', contents' := [Entry(key, value)] + list, contents[key := value];
    assert list'[0].key == key && forall j :: 0 < j < |list'| ==> list'[j] == list[j - 1];
    forall k | k in contents' && k / BLOCK_SIZE == key / BLOCK_SIZE
      ensures exists j :: 0 <= j < |list'| && list'[j].key == k
    {
      if k != key {
        var j :| 0 <= j < |list| && list[j].key == k;
        assert list'[j + 1].key == k;
      }
    }
  }

  lemma InsertHolds<V>(list: seq<Entry<V>>, contents: map<int, V>, key: int, i: int, value: V)
    requires Holds(list, contents, key / BLOCK_SIZE) && FoundAt(list, key, i)
    ensures Holds(if i < |list| then list[i := Entry(key, value)] else [Entry(key, value)] + list,
                  contents[key := value], key / BLOCK_SIZE)
  {
    hide Holds;
    if i < |list| {
      ReplaceHolds(list, contents, key, i, value);
    } else {
      AddHolds(list, contents, key, value);
    }
  }

  lemma RemoveHolds<V>(list: seq<Entry<V>>, contents: map<int, V>, key: int, i: int)
    requires Holds(list, contents, key / BLOCK_SIZE) && FoundAt(list, key, i) && i < |list|
    ensures Holds(list[..i] + list[i + 1..], contents - {key}, key / BLOCK_SIZE)
  {
    var list', contents' := list[..i] + list[i + 1..], contents - {key};
    assert forall j :: 0 <= j < |list'| ==> list'[j] == list[if j < i then j else j + 1];
    forall k | k in contents' && k / BLOCK_SIZE == key / BLOCK_SIZE
      ensures exists j :: 0 <= j < |list'| && list'[j].key == k
    {
      var j :| 0 <= j < |list| && list[j].key == k;
      assert list'[if j < i then j else j - 1].key == k;
    }
  }

  /** Other blocks do not see a change to this one. */
  lemma OthersHold<V>(list: seq<Entry<V>>, contents: map<int, V>, contents': map<int, V>, key: int, g: int)
    requires Holds(list, contents, g) && g != key / BLOCK_SIZE
    requires forall k :: k != key ==> (k in contents' <==> k in contents)
    requires forall k :: k != key && k in contents ==> contents'[k] == contents[k]
    ensures Holds(list, contents', g)
  {
  }

  lemma ChangeRepresents<V>(table: Table<V>, table': Table<V>, contents: map<int, V>, contents': map<int, V>,
                            key: int, list: seq<Entry<V>>)
    requires Represents(table, contents) && OneBucket(table, table', key / BLOCK_SIZE, list) && 0 <= key < WORD
    requires Holds(list, contents', key / BLOCK_SIZE)
    requires forall k :: k != key ==> (k in contents' <==> k in contents)
    requires forall k :: k != key && k in contents ==> contents'[k] == contents[k]
    ensures Represents(table', contents')
  {
    forall g | 0 <= g ensures Holds(Bucket(table', g), contents', g) {
      if g != key / BLOCK_SIZE {
        OthersHold(Bucket(table, g), contents, contents', key, g);
      }
    }
  }

  // ----- Ranges -----

  /** No range is longer than `max`, and none passes the top. */
  ghost predicate Sized<V>(contents: map<int, V>, size: V -> int, max: int) {
    forall k :: k in contents ==> 0 <= k && 0 <= size(contents[k]) <= max && k + size(contents[k]) <= WORD
  }

  /** No two ranges have an address in common; an empty one may lie anywhere. */
  ghost predicate Disjoint<V>(contents: map<int, V>, size: V -> int) {
    forall k, l :: k in contents && l in contents && k < l ==> k + size(contents[k]) <= l || size(contents[l]) == 0
  }

  /** Each range ends before the next one starts, even if that is empty. */
  ghost predicate Ordered<V>(contents: map<int, V>, size: V -> int) {
    forall k, l :: k in contents && l in contents && k < l ==> k + size(contents[k]) <= l
  }

  /** `key` is the start of the range at `k`, or inside it; a range up to the very top has no inside. */
  ghost predicate Inside<V>(contents: map<int, V>, size: V -> int, k: int, key: int) {
    k in contents && (k == key || k < key < (k + size(contents[k])) % WORD)
  }

  /** No start at or below `key` lies in a later block than `k`. */
  ghost predicate Latest<V>(contents: map<int, V>, k: int, key: int) {
    forall l :: l in contents && l <= key ==> l / BLOCK_SIZE <= k / BLOCK_SIZE
  }

  /** The range at `k` contains `key` and is found by walking back from `key`. */
  ghost predicate Visible<V>(contents: map<int, V>, size: V -> int, k: int, key: int) {
    Inside(contents, size, k, key) && Latest(contents, k, key)
  }

  ghost predicate NoneVisible<V>(contents: map<int, V>, size: V -> int, key: int) {
    forall k :: k in contents ==> !Visible(contents, size, k, key)
  }

  /** Among disjoint ranges, an address in the range at `k` is found exactly if it is itself a start,
      or no start in a later block lies between `k` and the address. */
  lemma FoundIff<V>(contents: map<int, V>, size: V -> int, max: int, k: int, key: int)
    requires Sized(contents, size, max) && Disjoint(contents, size) && Inside(contents, size, k, key)
    ensures !NoneVisible(contents, size, key) <==>
      key in contents || forall l :: l in contents && k < l < key ==> l / BLOCK_SIZE == k / BLOCK_SIZE
  {
    hide Sized, Disjoint, Inside, Latest;
    if key in contents {
      StartIsVisible(contents, size, key);
    } else {
      forall x | Inside(contents, size, x, key)
        ensures x == k
      {
        OnlyInside(contents, size, max, k, x, key);
      }
      LatestIff(contents, size, k, key);
    }
  }

  lemma StartIsVisible<V>(contents: map<int, V>, size: V -> int, key: int)
    requires key in contents
    ensures Visible(contents, size, key, key)
  {
  }

  lemma OnlyInside<V>(contents: map<int, V>, size: V -> int, max: int, k: int, x: int, key: int)
    requires Sized(contents, size, max) && Disjoint(contents, size) && key !in contents
    requires Inside(contents, size, k, key) && Inside(contents, size, x, key)
    ensures x == k
  {
    assert x in contents && k in contents;
  }

  lemma LatestIff<V>(contents: map<int, V>, size: V -> int, k: int, key: int)
    requires Inside(contents, size, k, key) && key !in contents
    ensures k in contents
    ensures Latest(contents, k, key) <==> forall l :: l in contents && k < l < key ==> l / BLOCK_SIZE == k / BLOCK_SIZE
  {
  }

  /** A range that contains an address, and ends before the next one starts, is the last to start. */
  lemma OrderedIsLatest<V>(contents: map<int, V>, size: V -> int, max: int, k: int, l: int, key: int)
    requires Sized(contents, size, max) && Ordered(contents, size) && Inside(contents, size, k, key)
    requires l in contents && l <= key
    ensures l <= k
  {
    InsideMeans(contents, size, max, k, key);
  }

  lemma OrderedIsFound<V>(contents: map<int, V>, size: V -> int, max: int, k: int, key: int)
    requires Sized(contents, size, max) && Ordered(contents, size) && Inside(contents, size, k, key)
    ensures Visible(contents, size, k, key)
  {
    hide Sized, Ordered, Inside;
    forall l | l in contents && l <= key
      ensures l / BLOCK_SIZE <= k / BLOCK_SIZE
    {
      OrderedIsLatest(contents, size, max, k, l, key);
    }
  }

  /** If each range ends before the next one starts, whatever contains an address is found. */
  lemma OrderedIsVisible<V>(contents: map<int, V>, size: V -> int, max: int, key: int)
    requires Sized(contents, size, max) && Ordered(contents, size) && NoneVisible(contents, size, key)
    ensures NoneInside(contents, size, key)
  {
    hide Sized, Ordered, Inside, Visible;
    forall k | k in contents
      ensures !Inside(contents, size, k, key)
    {
      if Inside(contents, size, k, key) {
        OrderedIsFound(contents, size, max, k, key);
      }
    }
  }

  /** An empty range at 150 hides the range of 100 addresses at 100 from the address 160. */
  lemma EmptyRangeHides()
    ensures var contents, size := map[100 := 100, 150 := 0], (n: int) => n;
      && Sized(contents, size, 100) && Disjoint(contents, size)
      && Inside(contents, size, 100, 160) && NoneVisible(contents, size, 160)
  {
    var contents, size := map[100 := 100, 150 := 0], (n: int) => n;
    assert !Latest(contents, 100, 160) by {
      assert 150 in contents && 150 / BLOCK_SIZE == 1 && 100 / BLOCK_SIZE == 0;
    }
    assert !Inside(contents, size, 150, 160);
    hide Latest, Inside;
  }

  /** At most one range contains a key. */
  lemma InsideIsUnique<V>(contents: map<int, V>, size: V -> int, max: int, k: int, l: int, key: int)
    requires Sized(contents, size, max) && Ordered(contents, size) && Inside(contents, size, k, key) && Inside(contents, size, l, key)
    ensures k == l
  {
    assert k in contents && l in contents;
  }

  /** For ranges that end below the top of the address space this is containment. */
  lemma InsideMeans<V>(contents: map<int, V>, size: V -> int, max: int, k: int, key: int)
    requires Sized(contents, size, max) && k in contents
    ensures k + size(contents[k]) < WORD ==>
            (Inside(contents, size, k, key) <==> k == key || k <= key < k + size(contents[k]))
    ensures k + size(contents[k]) == WORD ==> (Inside(contents, size, k, key) <==> k == key)
  {
  }

  // ----- Walking back from an address -----

  /** Every start at or below `key` lies in the block of `num` or before it. */
  ghost predicate Searched<V>(contents: map<int, V>, key: int, num: int) {
    forall k :: k in contents && k <= key ==> k / BLOCK_SIZE <= num / BLOCK_SIZE
  }

  /** Every start at or below `key` lies before the cluster of `num`. */
  ghost predicate SearchedCluster<V>(contents: map<int, V>, key: int, num: int) {
    forall k :: k in contents && k <= key ==> k / BLOCK_SIZE < num / BLOCK_SIZE / CLUSTER_BLOCKS * CLUSTER_BLOCKS
  }

  ghost predicate NoneInside<V>(contents: map<int, V>, size: V -> int, key: int) {
    forall k :: k in contents ==> !Inside(contents, size, k, key)
  }

  /** The last address before the block, and before the cluster, of `num`. */
  function PreviousBlock(num: int): int {
    num - num % BLOCK_SIZE + (BLOCK_SIZE - 1) - BLOCK_SIZE
  }

  function PreviousCluster(num: int): int {
    num - num % CLUSTER_SIZE + (CLUSTER_SIZE - 1) - CLUSTER_SIZE
  }

  lemma PreviousBlockIs(num: int)
    ensures PreviousBlock(num) / BLOCK_SIZE == num / BLOCK_SIZE - 1 && PreviousBlock(num) < num
  {
  }

  lemma PreviousClusterIs(num: int)
    ensures PreviousCluster(num) / BLOCK_SIZE == num / BLOCK_SIZE / CLUSTER_BLOCKS * CLUSTER_BLOCKS - 1
    ensures PreviousCluster(num) < num
    ensures PreviousCluster(num) == (num / BLOCK_SIZE / CLUSTER_BLOCKS * CLUSTER_BLOCKS) * BLOCK_SIZE - 1
  {
    var g := num / BLOCK_SIZE;
    assert num % CLUSTER_SIZE == g % CLUSTER_BLOCKS * BLOCK_SIZE + num % BLOCK_SIZE by {
      DivModIs(num, CLUSTER_SIZE, g / CLUSTER_BLOCKS, g % CLUSTER_BLOCKS * BLOCK_SIZE + num % BLOCK_SIZE);
    }
  }

  /** A start at or below `key` hides every range that starts in an earlier block. */
  lemma SmallerHides<V>(contents: map<int, V>, size: V -> int, key: int, num: int, smaller: int)
    requires Searched(contents, key, num)
    requires smaller in contents && smaller < key && smaller / BLOCK_SIZE == num / BLOCK_SIZE
    requires forall k :: k in contents && k / BLOCK_SIZE == num / BLOCK_SIZE ==> !Inside(contents, size, k, key)
    ensures NoneVisible(contents, size, key)
  {
  }

  /** Beyond the longest range there is nothing to find. */
  lemma TooFarBack<V>(contents: map<int, V>, size: V -> int, max: int, key: int, num: int)
    requires Sized(contents, size, max) && Searched(contents, key, num) && num % BLOCK_SIZE == BLOCK_SIZE - 1
    requires key - num > max
    ensures NoneInside(contents, size, key) && NoneVisible(contents, size, key)
  {
    forall k | k in contents ensures !Inside(contents, size, k, key) {
      assert k <= key ==> k <= num;
    }
  }

  class AddressMap<V> {
    var table: Table<V>
    /** Entries made and not in use, and all entries ever made. */
    var free: int
    ghost var entries: int
    ghost var contents: map<int, V>

    ghost predicate Valid()
      reads this
    {
      && Represents(table, contents)
      && 0 <= free && entries == |contents| + free && entries % ALLOC_COUNT == 0
    }

    constructor ()
      ensures Valid() && contents == map[]
    {
      table := seq(HASH_SIZE, _ => []);
      free := 0;
      entries := 0;
      contents := map[];
    }

    method FindCluster(id: int) returns (h: int, i: int)
      requires TableOk(table)
      ensures h == Hash(id) && i == Index(table[h], id)
    {
      h := Hash(id);
      i := 0;
      while i < |table[h]| && table[h][i].id != id
        invariant 0 <= i <= |table[h]| && forall j :: 0 <= j < i ==> table[h][j].id != id
      {
        i := i + 1;
      }
      IndexIsFirst(table[h], id, i);
    }

    static method FindEntry(list: seq<Entry<V>>, key: int) returns (i: int)
      ensures FoundAt(list, key, i)
    {
      i := 0;
      while i < |list| && list[i].key != key
        invariant 0 <= i <= |list| && forall j :: 0 <= j < i ==> list[j].key != key
      {
        i := i + 1;
      }
    }

    method Find(key: int) returns (r: Option<V>)
      requires Valid() && 0 <= key < WORD
      ensures r == if key in contents then Some(contents[key]) else None
    {
      var g := key / BLOCK_SIZE;
      var h, i := FindCluster(g / CLUSTER_BLOCKS);
      assert Holds(Bucket(table, g), contents, g);
      if i == |table[h]| {
        return None;
      }
      var list := table[h][i].blocks[g % CLUSTER_BLOCKS];
      var j := FindEntry(list, key);
      FoundMeans(list, contents, key, j);
      return if j < |list| then Some(list[j].value) else None;
    }

    /** Makes sure that the cluster of an address exists; the map is as before. */
    method EnsureCluster(id: int) returns (h: int, i: int)
      requires Valid()
      modifies `table
      ensures Valid() && h == Hash(id) && i == Index(table[h], id) && i < |table[h]|
    {
      h, i := FindCluster(id);
      if i == |table[h]| {
        NewClusterChangesNothing(table, id);
        table := WithCluster(table, id);
        i := 0;
      }
    }

    /** A new entry comes from the free list, which is refilled in batches. */
    method TakeEntry()
      requires 0 <= free
      modifies `free, `entries
      ensures 0 <= free && entries - free == old(entries - free) + 1
      ensures old(entries) % ALLOC_COUNT == 0 ==> entries % ALLOC_COUNT == 0
    {
      if free == 0 {
        free := ALLOC_COUNT;
        entries := entries + ALLOC_COUNT;
      }
      free := free - 1;
    }

    method Insert(key: int, value: V)
      requires Valid() && 0 <= key < WORD
      modifies this
      ensures Valid() && contents == old(contents)[key := value]
    {
      var g := key / BLOCK_SIZE;
      var h, i := EnsureCluster(g / CLUSTER_BLOCKS);
      var b := g % CLUSTER_BLOCKS;
      var list := table[h][i].blocks[b];
      assert Holds(Bucket(table, g), contents, g);
      var j := FindEntry(list, key);
      FoundMeans(list, contents, key, j);
      InsertHolds(list, contents, key, j, value);
      if j == |list| {
        TakeEntry();
      }
      var list' := if j < |list| then list[j := Entry(key, value)] else [Entry(key, value)] + list;
      SetBlockIsOneBucket(table, g, list');
      ChangeRepresents(table, SetBlock(table, h, i, b, list'), contents, contents[key := value], key, list');
      table := SetBlock(table, h, i, b, list');
      contents := contents[key := value];
    }

    /** The removed entry is kept for later insertions. */
    method FindAndRemove(key: int) returns (r: Option<V>)
      requires Valid() && 0 <= key < WORD
      modifies this
      ensures Valid() && contents == old(contents) - {key}
      ensures r == if key in old(contents) then Some(old(contents)[key]) else None
      ensures entries == old(entries) && free == old(free) + if key in old(contents) then 1 else 0
    {
      var g := key / BLOCK_SIZE;
      var h, i := FindCluster(g / CLUSTER_BLOCKS);
      assert Holds(Bucket(table, g), contents, g);
      if i == |table[h]| {
        assert contents - {key} == contents;
        return None;
      }
      var b := g % CLUSTER_BLOCKS;
      var list := table[h][i].blocks[b];
      var j := FindEntry(list, key);
      FoundMeans(list, contents, key, j);
      if j == |list| {
        assert contents - {key} == contents;
        return None;
      }
      r := Some(list[j].value);
      var list' := list[..j] + list[j + 1..];
      RemoveHolds(list, contents, key, j);
      SetBlockIsOneBucket(table, g, list');
      ChangeRepresents(table, SetBlock(table, h, i, b, list'), contents, contents - {key}, key, list');
      table := SetBlock(table, h, i, b, list');
      assert |contents - {key}| == |contents| - 1;
      contents := contents - {key};
      free := free + 1;
    }

    /** All entries of one block: one whose range holds the key, or whether any starts below it. */
    static method ScanBlock(list: seq<Entry<V>>, ghost contents: map<int, V>, size: V -> int, key: int, ghost g: int)
      returns (found: Option<int>, smaller: Option<int>)
      requires Holds(list, contents, g)
      ensures found.Some? ==> Inside(contents, size, found.value, key) && found.value / BLOCK_SIZE == g
      ensures found.None? ==> forall k :: k in contents && k / BLOCK_SIZE == g ==> !Inside(contents, size, k, key)
      ensures found.None? && smaller.Some? ==>
              smaller.value in contents && smaller.value < key && smaller.value / BLOCK_SIZE == g
      ensures found.None? && smaller.None? ==> forall k :: k in contents && k / BLOCK_SIZE == g ==> key < k
    {
      found, smaller := None, None;
      var i := 0;
      while i < |list|
        invariant 0 <= i <= |list|
        invariant forall j :: 0 <= j < i ==> !Inside(contents, size, list[j].key, key)
        invariant smaller.Some? ==> smaller.value in contents && smaller.value < key && smaller.value / BLOCK_SIZE == g
        invariant smaller.None? ==> forall j :: 0 <= j < i ==> key < list[j].key
      {
        var e := list[i];
        if e.key <= key {
          if e.key == key || key < (e.key + size(e.value)) % WORD {
            return Some(e.key), smaller;
          }
          smaller := Some(e.key);
        }
        i := i + 1;
      }
      forall k | k in contents && k / BLOCK_SIZE == g
        ensures !Inside(contents, size, k, key) && (smaller.None? ==> key < k)
      {
        var j :| 0 <= j < |list| && list[j].key == k;
      }
    }

    /** An absent cluster holds nothing, and the search goes on before it. */
    lemma ClusterIsEmpty(key: int, num: int)
      requires Valid() && 0 <= num && Searched(contents, key, num)
      requires var id := num / BLOCK_SIZE / CLUSTER_BLOCKS; Index(table[Hash(id)], id) == |table[Hash(id)]|
      ensures SearchedCluster(contents, key, num)
    {
      var id := num / BLOCK_SIZE / CLUSTER_BLOCKS;
      forall k | k in contents && k <= key ensures k / BLOCK_SIZE < id * CLUSTER_BLOCKS {
        var g := k / BLOCK_SIZE;
        assert Holds(Bucket(table, g), contents, g);
        assert g / CLUSTER_BLOCKS != id;
      }
    }

    /** The blocks of one cluster, from the block of `start` back to the first. */
    method SearchCluster(c: Cluster<V>, size: V -> int, max: int, key: int, start: int)
      returns (num: int, r: Option<int>, done: bool)
      requires Valid() && Sized(contents, size, max) && 0 <= start <= key < WORD
      requires Searched(contents, key, start)
      requires var id := start / BLOCK_SIZE / CLUSTER_BLOCKS;
        var chain := table[Hash(id)]; Index(chain, id) < |chain| && c == chain[Index(chain, id)]
      ensures done && r.Some? ==> Visible(contents, size, r.value, key)
      ensures done && r.None? ==> NoneVisible(contents, size, key)
      ensures !done ==> 0 <= num <= start && SearchedCluster(contents, key, num)
    {
      num := start;
      ghost var id := start / BLOCK_SIZE / CLUSTER_BLOCKS;
      while true
        invariant 0 <= num <= start && Searched(contents, key, num) && num / BLOCK_SIZE / CLUSTER_BLOCKS == id
        decreases num
      {
        var block := num / BLOCK_SIZE % CLUSTER_BLOCKS;
        assert Holds(Bucket(table, num / BLOCK_SIZE), contents, num / BLOCK_SIZE);
        var found, smaller := ScanBlock(c.blocks[block], contents, size, key, num / BLOCK_SIZE);
        if found.Some? {
          return num, found, true;
        }
        if smaller.Some? {
          SmallerHides(contents, size, key, num, smaller.value);
          return num, None, true;
        }
        assert forall k :: k in contents && k <= key ==> k / BLOCK_SIZE < num / BLOCK_SIZE;
        if block == 0 {
          FirstBlock(num);
          return num, None, false;
        }
        PreviousBlockIs(num);
        num := PreviousBlock(num);
        if key - num > max {
          TooFarBack(contents, size, max, key, num);
          return num, None, true;
        }
      }
    }

    /** The start of a range that contains the key and does not lie in an earlier block than another
        start at or below the key; nothing exactly if there is no such range.  If each range ends
        before the next one starts, that is if no range contains the key. */
    method FindInside(size: V -> int, max: int, key: int) returns (r: Option<int>)
      requires Valid() && Sized(contents, size, max) && 0 <= key < WORD
      ensures r.Some? ==> Visible(contents, size, r.value, key)
      ensures r.None? <==> NoneVisible(contents, size, key)
      ensures Ordered(contents, size) ==> (r.None? <==> NoneInside(contents, size, key))
    {
      r := SearchBack(size, max, key);
      if Ordered(contents, size) && r.None? {
        OrderedIsVisible(contents, size, max, key);
      }
    }

    /** Walks back from the key, block by block and cluster by cluster. */
    method SearchBack(size: V -> int, max: int, key: int) returns (r: Option<int>)
      requires Valid() && Sized(contents, size, max) && 0 <= key < WORD
      ensures r.Some? ==> Visible(contents, size, r.value, key)
      ensures r.None? ==> NoneVisible(contents, size, key)
    {
      hide Searched, SearchedCluster, NoneVisible, Visible, Sized, PreviousCluster;
      var num := key;
      EverythingIsBelow(contents, key);
      while true
        invariant 0 <= num <= key && Searched(contents, key, num)
        decreases num
      {
        var h, i := FindCluster(num / BLOCK_SIZE / CLUSTER_BLOCKS);
        if i < |table[h]| {
          var done;
          num, r, done := SearchCluster(table[h][i], size, max, key, num);
          if done {
            return;
          }
        } else {
          ClusterIsEmpty(key, num);
        }
        if num < CLUSTER_SIZE {
          FirstCluster(contents, size, key, num);
          return None;
        }
        BeforeCluster(contents, key, num);
        num := PreviousCluster(num);
        if key - num > max {
          TooFarBack(contents, size, max, key, num);
          return None;
        }
      }
    }
  }

  lemma EverythingIsBelow<V>(contents: map<int, V>, key: int)
    ensures Searched(contents, key, key)
  {
  }

  lemma FirstBlock(num: int)
    requires num / BLOCK_SIZE % CLUSTER_BLOCKS == 0
    ensures num / BLOCK_SIZE == num / BLOCK_SIZE / CLUSTER_BLOCKS * CLUSTER_BLOCKS
  {
  }

  /** Before the first cluster there is nothing. */
  lemma FirstCluster<V>(contents: map<int, V>, size: V -> int, key: int, num: int)
    requires 0 <= num < CLUSTER_SIZE && SearchedCluster(contents, key, num)
    requires forall k :: k in contents ==> 0 <= k
    ensures NoneVisible(contents, size, key)
  {
    assert num / BLOCK_SIZE < CLUSTER_BLOCKS;
    assert num / BLOCK_SIZE / CLUSTER_BLOCKS == 0;
  }

  lemma BeforeCluster<V>(contents: map<int, V>, key: int, num: int)
    requires CLUSTER_SIZE <= num && SearchedCluster(contents, key, num)
    ensures Searched(contents, key, PreviousCluster(num)) && 0 <= PreviousCluster(num) < num
    ensures PreviousCluster(num) % BLOCK_SIZE == BLOCK_SIZE - 1
  {
    PreviousClusterIs(num);
    var g := num / BLOCK_SIZE;
    assert g / CLUSTER_BLOCKS >= 1;
    DivModIs(PreviousCluster(num), BLOCK_SIZE, g / CLUSTER_BLOCKS * CLUSTER_BLOCKS - 1, BLOCK_SIZE - 1);
  }
}
