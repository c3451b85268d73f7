/** The physical page allocator of kalloc.c: free pages chained through their first word. */
module FreeFrames {

  const NULL := 0

  /** head and the links lead through list and end in NULL. */
  ghost predicate Chain(next: map<nat, nat>, head: nat, list: seq<nat>) {
    && (forall i :: 0 <= i < |list| ==> list[i] != NULL && list[i] in next)
    && (forall i, j :: 0 <= i < j < |list| ==> list[i] != list[j])
    && head == First(list)
    && (forall i {:trigger Follows(next, list, i)} :: 0 <= i < |list| ==> Follows(next, list, i))
  }

  ghost function First(list: seq<nat>): nat { if list == [] then NULL else list[0] }

  ghost predicate Follows(next: map<nat, nat>, list: seq<nat>, i: nat)
    requires i < |list| && list[i] in next
  {
    next[list[i]] == First(list[i + 1..])
  }

  ghost function Members(list: seq<nat>): set<nat> { set f | f in list }

  lemma PushKeeps(next: map<nat, nat>, head: nat, list: seq<nat>, f: nat)
    requires Chain(next, head, list) && f != NULL && f !in list
    ensures Chain(next[f := head], f, [f] + list) && Members([f] + list) == Members(list) + {f}
  {
    var next', list' := next[f := head], [f] + list;
    forall i | 0 <= i < |list'| ensures Follows(next', list', i) {
      assert list'[1..] == list;
      if i > 0 {
        assert Follows(next, list, i - 1);
        assert list'[i + 1..] == list[i..];
      }
    }
  }

  lemma PopKeeps(next: map<nat, nat>, head: nat, list: seq<nat>)
    requires Chain(next, head, list) && list != []
    ensures head in next && Chain(next, next[head], list[1..]) && Members(list[1..]) == Members(list) - {head}
  {
    assert Follows(next, list, 0);
    forall i | 0 <= i < |list[1..]| ensures Follows(next, list[1..], i) {
      assert Follows(next, list, i + 1);
      assert list[1..][i + 1..] == list[i + 2..];
    }
  }
}
