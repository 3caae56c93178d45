/**
 * Free objects linked through their own first word, and a thread's free list on top of such
 * a chain: pointer code, proved against operations on sequences.
 */
module Chains {
  import opened Options
  import opened Sequences

  /** A free list as a value: the objects in order, and what is recorded about them. */
  datatype List = List(chain: seq<int>, lowater: int, maxLength: int, overages: int)

  ghost predicate ListOk(l: List) {
    0 <= l.lowater <= |l.chain|
  }

  function Lower(lowater: int, length: int): int {
    if length < lowater then length else lowater
  }

  /** Objects put in front; the low-water mark stays. */
  function Pushed(l: List, objects: seq<int>): List {
    l.(chain := objects + l.chain)
  }

  /** The first `n` objects taken; the low-water mark follows the length down. */
  function Popped(l: List, n: int): List
    requires 0 <= n <= |l.chain|
  {
    l.(chain := l.chain[n..], lowater := Lower(l.lowater, |l.chain| - n))
  }

  // ----- Chains in memory -----

  /** Following the links from `head` visits exactly these objects and ends at null. */
  ghost predicate ChainAt(next: map<int, int>, head: int, objects: seq<int>)
    decreases |objects|
  {
    if objects == [] then head == 0
    else head == objects[0] && head != 0 && head in next && ChainAt(next, next[head], objects[1..])
  }

  /** A chain does not see writes to other objects. */
  lemma {:induction false} ChainFrame(next: map<int, int>, next': map<int, int>, head: int, objects: seq<int>)
    requires ChainAt(next, head, objects)
    requires forall x :: x in objects && x in next ==> x in next' && next'[x] == next[x]
    ensures ChainAt(next', head, objects)
    decreases |objects|
  {
    if objects != [] {
      var rest := objects[1..];
      assert forall x :: x in rest ==> x in objects;
      ChainFrame(next, next', next[head], rest);
    }
  }

  /** Where the walk stands after `n` links. */
  lemma {:induction false} ChainFrom(next: map<int, int>, head: int, objects: seq<int>, n: nat)
    requires ChainAt(next, head, objects) && n < |objects|
    ensures objects[n] != 0 && objects[n] in next && ChainAt(next, objects[n], objects[n..])
    ensures ChainAt(next, next[objects[n]], objects[n + 1..])
    decreases |objects|
  {
    if n > 0 {
      ChainFrom(next, next[head], objects[1..], n - 1);
      assert objects[1..][n - 1..] == objects[n..] && objects[1..][n..] == objects[n + 1..];
    } else {
      assert objects[0..] == objects;
    }
  }

  /** Cutting the link of an object ends the chain there. */
  lemma {:induction false} ChainCut(next: map<int, int>, head: int, objects: seq<int>, n: nat)
    requires ChainAt(next, head, objects) && n < |objects| && Distinct(objects)
    ensures ChainAt(next[objects[n] := 0], head, objects[..n + 1])
    decreases |objects|
  {
    var cut := next[objects[n] := 0];
    if n == 0 {
      assert objects[..1][1..] == [];
    } else {
      assert objects[n] != objects[0];
      ChainCut(next, next[head], objects[1..], n - 1);
      assert objects[1..][..n] == objects[..n + 1][1..];
      assert cut[head] == next[head];
    }
  }

  /** Linking the last object of one chain to another joins them. */
  lemma {:induction false} ChainJoin(next: map<int, int>, a: int, front: seq<int>, b: int, back: seq<int>)
    requires ChainAt(next, a, front) && front != [] && ChainAt(next, b, back)
    requires Distinct(front) && forall x :: x in front ==> x !in back
    ensures ChainAt(next[front[|front| - 1] := b], a, front + back)
    decreases |front|
  {
    var last := front[|front| - 1];
    var joined := next[last := b];
    if |front| == 1 {
      assert (front + back)[1..] == back;
      assert last in front;
      ChainFrame(next, joined, b, back);
    } else {
      var rest := front[1..];
      assert forall x :: x in rest ==> x in front;
      ChainJoin(next, next[a], rest, b, back);
      assert (front + back)[1..] == rest + back;
      assert front[0] != last;
    }
  }

  class ObjectMemory {
    /** The first word of each free object. */
    var next: map<int, int>

    method Push(head: int, x: int, ghost objects: seq<int>) returns (head': int)
      requires ChainAt(next, head, objects) && x != 0 && x !in objects
      modifies this
      ensures ChainAt(next, head', [x] + objects)
      ensures forall y :: y != x ==> (y in next <==> y in old(next)) && (y in next ==> next[y] == old(next)[y])
    {
      ghost var before := next;
      next := next[x := head];
      ChainFrame(before, next, head, objects);
      assert ([x] + objects)[1..] == objects;
      return x;
    }

    method TryPop(head: int, ghost objects: seq<int>) returns (popped: Option<int>, head': int)
      requires ChainAt(next, head, objects)
      ensures popped.None? <==> objects == []
      ensures popped.Some? ==> popped.value == objects[0] && ChainAt(next, head', objects[1..])
      ensures popped.None? ==> head' == head
    {
      if head == 0 {
        return None, head;
      }
      return Some(head), next[head];
    }

    /** Cuts the first `n` objects off; both parts are chains of their own. */
    method PopRange(head: int, n: int, ghost objects: seq<int>) returns (head': int, start: int, end: int)
      requires ChainAt(next, head, objects) && Distinct(objects) && 0 <= n <= |objects|
      modifies this
      ensures ChainAt(next, start, objects[..n]) && ChainAt(next, head', objects[n..])
      ensures n > 0 ==> end == objects[n - 1]
      ensures forall y :: y !in objects ==> (y in next <==> y in old(next)) && (y in next ==> next[y] == old(next)[y])
    {
      if n == 0 {
        assert objects[0..] == objects;
        return head, 0, 0;
      }
      var tmp := head;
      var i := 1;
      while i < n
        invariant 1 <= i <= n && tmp == objects[i - 1] && next == old(next)
      {
        ChainFrom(next, head, objects, i - 1);
        tmp := next[tmp];
        i := i + 1;
      }
      ChainFrom(next, head, objects, n - 1);
      ChainCut(next, head, objects, n - 1);
      ghost var before, rest := next, objects[n..];
      start, end, head' := head, tmp, next[tmp];
      next := next[tmp := 0];
      assert forall x :: x in rest ==> x != tmp;
      ChainFrame(before, next, head', rest);
    }

    method PushRange(head: int, start: int, end: int, ghost objects: seq<int>, ghost more: seq<int>) returns (head': int)
      requires ChainAt(next, head, objects) && ChainAt(next, start, more) && Distinct(more)
      requires (forall x :: x in more ==> x !in objects) && (more != [] ==> end == more[|more| - 1])
      modifies this
      ensures ChainAt(next, head', more + objects)
      ensures forall y :: y !in more ==> (y in next <==> y in old(next)) && (y in next ==> next[y] == old(next)[y])
    {
      if start == 0 {
        assert more + objects == objects;
        return head;
      }
      ChainJoin(next, start, more, head, objects);
      assert end in more;
      next := next[end := head];
      return start;
    }
  }

  class FreeList {
    const memory: ObjectMemory
    var head: int
    var length: int
    var lowater: int
    var maxLength: int
    var overages: int
    ghost var chain: seq<int>

    ghost predicate Valid()
      reads this, memory
    {
      && ChainAt(memory.next, head, chain) && Distinct(chain)
      && length == |chain| && ListOk(View())
    }

    /** The list as a value. */
    ghost function View(): List
      reads this
    {
      List(chain, lowater, maxLength, overages)
    }

    constructor (m: ObjectMemory)
      ensures Valid() && memory == m && View() == List([], 0, 1, 0)
    {
      memory := m;
      head, length, lowater, maxLength, overages := 0, 0, 0, 1, 0;
      chain := [];
    }

    method Push(x: int) returns (newLength: int)
      requires Valid() && x != 0 && x !in chain
      modifies this, memory
      ensures Valid() && View() == Pushed(old(View()), [x]) && newLength == |chain|
    {
      head := memory.Push(head, x, chain);
      length := length + 1;
      chain := [x] + chain;
      return length;
    }

    method TryPop() returns (popped: Option<int>)
      requires Valid()
      modifies this
      ensures Valid() && (popped.None? <==> old(chain) == [])
      ensures popped.Some? ==> popped.value == old(chain)[0] && View() == Popped(old(View()), 1)
      ensures popped.None? ==> View() == old(View())
    {
      popped, head := memory.TryPop(head, chain);
      if popped.Some? {
        length := length - 1;
        if length < lowater {
          lowater := length;
        }
        chain := chain[1..];
      }
    }

    method PushRange(n: int, start: int, end: int, ghost more: seq<int>)
      requires Valid() && ChainAt(memory.next, start, more) && Distinct(more) && n == |more|
      requires (forall x :: x in more ==> x !in chain) && (more != [] ==> end == more[|more| - 1])
      modifies this, memory
      ensures Valid() && View() == Pushed(old(View()), more)
    {
      DistinctConcat(more, chain);
      head := memory.PushRange(head, start, end, chain, more);
      length := length + n;
      chain := more + chain;
    }

    /** The first `n` objects leave as a chain of their own. */
    method PopRange(n: int) returns (start: int, end: int)
      requires Valid() && 0 <= n <= |chain|
      modifies this, memory
      ensures Valid() && View() == Popped(old(View()), n)
      ensures ChainAt(memory.next, start, old(chain)[..n]) && (n > 0 ==> end == old(chain)[n - 1])
    {
      head, start, end := memory.PopRange(head, n, chain);
      length := length - n;
      if length < lowater {
        lowater := length;
      }
      chain := chain[n..];
    }

    method ClearLowWater()
      requires Valid()
      modifies `lowater
      ensures Valid() && View() == old(View()).(lowater := |chain|)
    {
      lowater := length;
    }
  }
}
