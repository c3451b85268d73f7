/** The doubly linked circular list of bio.c: prev and next indices around a list head. */
module BufferList {
  import opened Basics

  const NBUF := 30
  const HEAD := NBUF

  /** The i-th node counting from the head, which stands at both ends. */
  function Node(order: seq<nat>, i: int): nat {
    if 0 <= i < |order| then order[i] else HEAD
  }

  ghost predicate Joined(next: seq<nat>, prev: seq<nat>, order: seq<nat>, i: nat)
    requires |next| == |prev| == NBUF + 1 && forall k :: 0 <= k < |order| ==> order[k] < NBUF
  {
    next[Node(order, i - 1)] == Node(order, i) && prev[Node(order, i)] == Node(order, i - 1)
  }

  /** next and prev chain the nodes of order, front to back and back to front. */
  ghost predicate Linked(next: seq<nat>, prev: seq<nat>, order: seq<nat>) {
    && |next| == |prev| == NBUF + 1
    && (forall k :: 0 <= k < |order| ==> order[k] < NBUF)
    && Distinct(order)
    && (forall i {:trigger Joined(next, prev, order, i)} :: 0 <= i <= |order| ==> Joined(next, prev, order, i))
  }

  function Without(order: seq<nat>, j: nat): seq<nat>
    requires j < |order|
  {
    order[..j] + order[j + 1..]
  }

  lemma UnlinkKeeps(next: seq<nat>, prev: seq<nat>, order: seq<nat>, j: nat)
    requires Linked(next, prev, order) && j < |order|
    ensures prev[order[j]] == Node(order, j - 1) && next[order[j]] == Node(order, j + 1)
    ensures Linked(next[Node(order, j - 1) := Node(order, j + 1)], prev[Node(order, j + 1) := Node(order, j - 1)],
                   Without(order, j))
  {
    var p, n, order' := Node(order, j - 1), Node(order, j + 1), Without(order, j);
    var next', prev' := next[p := n], prev[n := p];
    assert Joined(next, prev, order, j) && Joined(next, prev, order, j + 1);
    forall i | 0 <= i <= |order'| ensures Joined(next', prev', order', i) {
      assert Joined(next, prev, order, if i < j then i else i + 1);
      assert Node(order', i) == Node(order, if i < j then i else i + 1);
      assert Node(order', i - 1) == Node(order, if i - 1 < j then i - 1 else i);
    }
  }

  lemma PushFrontKeeps(next: seq<nat>, prev: seq<nat>, order: seq<nat>, b: nat)
    requires Linked(next, prev, order) && b < NBUF && b !in order
    ensures next[HEAD] == Node(order, 0)
    ensures Linked(next[b := next[HEAD]][HEAD := b], prev[b := HEAD][next[HEAD] := b], [b] + order)
  {
    var first, order' := Node(order, 0), [b] + order;
    assert Joined(next, prev, order, 0);
    var next', prev' := next[b := first][HEAD := b], prev[b := HEAD][first := b];
    forall i | 0 <= i <= |order'| ensures Joined(next', prev', order', i) {
      if i > 0 {
        assert Joined(next, prev, order, i - 1);
        assert Node(order', i) == Node(order, i - 1);
        if i > 1 { assert Node(order', i - 1) == Node(order, i - 2); }
      }
    }
  }

  /** Every buffer is on the list exactly once. */
  ghost predicate Complete(order: seq<nat>) {
    && |order| == NBUF && Distinct(order)
    && (forall k :: 0 <= k < |order| ==> order[k] < NBUF)
    && (forall b :: 0 <= b < NBUF ==> b in order)
  }
}
