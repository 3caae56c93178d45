/** The doubly linked span lists: rings through a dummy header, proved against sequences. */
module Rings {
  import opened Sequences

  /** The header and then the members, in the order of the links. */
  ghost function Nodes(head: int, list: seq<int>): seq<int> {
    [head] + list
  }

  ghost function After(nodes: seq<int>, i: int): int
    requires 0 <= i < |nodes|
  {
    if i + 1 < |nodes| then nodes[i + 1] else nodes[0]
  }

  /** Forward links go once round the ring, and backward links are their inverses. */
  ghost predicate Ring(next: map<int, int>, prev: map<int, int>, nodes: seq<int>) {
    && nodes != [] && Distinct(nodes)
    && forall i :: 0 <= i < |nodes| ==> Link(next, prev, nodes[i], After(nodes, i))
  }

  ghost predicate Link(next: map<int, int>, prev: map<int, int>, a: int, b: int) {
    a in next && next[a] == b && b in prev && prev[b] == a
  }

  class SpanMemory {
    var next: map<int, int>
    var prev: map<int, int>

    ghost predicate Lists(head: int, list: seq<int>)
      reads this
    {
      Ring(next, prev, Nodes(head, list))
    }

    method Init(head: int)
      modifies this
      ensures Lists(head, [])
    {
      next := next[head := head];
      prev := prev[head := head];
    }

    method IsEmpty(head: int, ghost list: seq<int>) returns (empty: bool)
      requires Lists(head, list)
      ensures empty <==> list == []
    {
      var nodes := Nodes(head, list);
      assert Link(next, prev, nodes[0], After(nodes, 0));
      return next[head] == head;
    }

    method Length(head: int, ghost list: seq<int>) returns (n: int)
      requires Lists(head, list)
      ensures n == |list|
    {
      ghost var nodes := Nodes(head, list);
      n := 0;
      assert Link(next, prev, nodes[0], After(nodes, 0));
      var s := next[head];
      while s != head
        invariant 0 <= n <= |list| && s == After(nodes, n)
        decreases |list| - n
      {
        assert Link(next, prev, nodes[n + 1], After(nodes, n + 1));
        s := next[s];
        n := n + 1;
      }
    }

    /** The span comes first. */
    method Prepend(head: int, span: int, ghost list: seq<int>)
      requires Lists(head, list) && span != head && span !in list
      modifies this
      ensures Lists(head, [span] + list)
    {
      ghost var nodes := Nodes(head, list);
      assert Link(next, prev, nodes[0], After(nodes, 0));
      var first := next[head];
      next := next[span := first];
      prev := prev[span := head];
      prev := prev[first := span];
      next := next[head := span];
      PrependIs(old(next), old(prev), next, prev, head, span, list);
    }

    /** The span is unlinked and its own links are cleared. */
    method Remove(head: int, span: int, ghost list: seq<int>, ghost k: int)
      requires Lists(head, list) && 0 <= k < |list| && list[k] == span
      modifies this
      ensures Lists(head, list[..k] + list[k + 1..])
    {
      ghost var nodes := Nodes(head, list);
      assert Link(next, prev, nodes[k], After(nodes, k)) && Link(next, prev, nodes[k + 1], After(nodes, k + 1));
      var before, after := prev[span], next[span];
      next := next[before := after];
      prev := prev[after := before];
      next, prev := next[span := 0], prev[span := 0];
      RemoveIs(old(next), old(prev), next, prev, nodes, k + 1);
      assert Nodes(head, list[..k] + list[k + 1..]) == nodes[..k + 1] + nodes[k + 2..];
    }
  }

  lemma PrependIs(next: map<int, int>, prev: map<int, int>, next': map<int, int>, prev': map<int, int>,
                  head: int, span: int, list: seq<int>)
    requires Ring(next, prev, Nodes(head, list)) && span != head && span !in list
    requires head in next && next' == next[span := next[head]][head := span]
    requires prev' == prev[span := head][next[head] := span]
    ensures Ring(next', prev', Nodes(head, [span] + list))
  {
    var nodes, nodes' := Nodes(head, list), Nodes(head, [span] + list);
    assert forall i :: 0 < i < |nodes| ==> nodes[i] == list[i - 1];
    assert forall i :: 1 < i < |nodes'| ==> nodes'[i] == nodes[i - 1];
    assert Link(next, prev, nodes[0], After(nodes, 0));
    forall i | 0 <= i < |nodes'| ensures Link(next', prev', nodes'[i], After(nodes', i)) {
      if i > 1 {
        assert Link(next, prev, nodes[i - 1], After(nodes, i - 1));
        AfterIsOther(nodes, i - 1);
      }
    }
  }

  /** Different nodes have different successors. */
  lemma AfterIsOther(nodes: seq<int>, i: int)
    requires Distinct(nodes) && 0 < i < |nodes|
    ensures After(nodes, i) != After(nodes, 0)
  {
  }

  /** One link of the ring without node `k`. */
  lemma LinkStays(next: map<int, int>, prev: map<int, int>, next': map<int, int>, prev': map<int, int>,
                  nodes: seq<int>, k: int, i: int)
    requires Ring(next, prev, nodes) && 0 < k < |nodes| && 0 <= i < |nodes| - 1
    requires next' == next[nodes[k - 1] := After(nodes, k)][nodes[k] := 0]
    requires prev' == prev[After(nodes, k) := nodes[k - 1]][nodes[k] := 0]
    ensures var nodes' := nodes[..k] + nodes[k + 1..]; Link(next', prev', nodes'[i], After(nodes', i))
  {
    var nodes', j := nodes[..k] + nodes[k + 1..], if i < k then i else i + 1;
    assert forall h :: 0 <= h < |nodes'| ==> nodes'[h] == nodes[if h < k then h else h + 1];
    assert Link(next, prev, nodes[j], After(nodes, j));
  }

  lemma RemoveIs(next: map<int, int>, prev: map<int, int>, next': map<int, int>, prev': map<int, int>,
                 nodes: seq<int>, k: int)
    requires Ring(next, prev, nodes) && 0 < k < |nodes|
    requires next' == next[nodes[k - 1] := After(nodes, k)][nodes[k] := 0]
    requires prev' == prev[After(nodes, k) := nodes[k - 1]][nodes[k] := 0]
    ensures Ring(next', prev', nodes[..k] + nodes[k + 1..])
  {
    hide Link, After;
    var nodes' := nodes[..k] + nodes[k + 1..];
    assert forall i :: 0 <= i < |nodes'| ==> nodes'[i] == nodes[if i < k then i else i + 1];
    forall i | 0 <= i < |nodes'| ensures Link(next', prev', nodes'[i], After(nodes', i)) {
      LinkStays(next, prev, next', prev', nodes, k, i);
    }
  }
}
