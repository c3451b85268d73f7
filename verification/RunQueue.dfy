/**
 The priority run queues of proc.c: PRIO_MAX rings of QSIZE slots, each with a head and a
 tail index that C's % moves around. Items is the queue a ring stands for.
 */
module RunQueue {

  const PRIO_MAX := 20
  const QSIZE := 100

  /** C's remainder: the sign of the dividend. */
  function CRem(a: int, b: int): int
    requires b > 0
  {
    if a >= 0 then a % b else -((-a) % b)
  }

  datatype Ring = Ring(head: int, tail: int, slots: seq<int>)

  ghost predicate Formed(r: Ring) {
    0 <= r.head < QSIZE && 0 <= r.tail < QSIZE && |r.slots| == QSIZE
  }

  ghost function Length(r: Ring): int {
    if r.head <= r.tail then r.tail - r.head else r.tail - r.head + QSIZE
  }

  ghost function Slot(r: Ring, j: int): int {
    if r.head + j < QSIZE then r.head + j else r.head + j - QSIZE
  }

  /** Oldest first. */
  ghost function Items(r: Ring): (s: seq<int>)
    requires Formed(r)
    ensures |s| == Length(r)
  {
    seq(Length(r), j requires 0 <= j < Length(r) => r.slots[Slot(r, j)])
  }

  /** The test pq_enqueue makes for a full ring; at head 0 it compares with -1. */
  predicate LooksFull(r: Ring) {
    r.tail == CRem(r.head - 1, QSIZE)
  }

  function Pushed(r: Ring, p: int): Ring
    requires 0 <= r.tail < |r.slots|
  {
    Ring(r.head, CRem(r.tail + 1, QSIZE), r.slots[r.tail := p])
  }

  function Popped(r: Ring): Ring {
    r.(head := CRem(r.head + 1, QSIZE))
  }

  /** pq_enqueue appends exactly when the ring holds fewer than QSIZE - 1 entries. */
  lemma EnqueueExact(r: Ring, p: int)
    requires Formed(r)
    ensures Formed(Pushed(r, p))
    ensures !LooksFull(r) && Items(Pushed(r, p)) == Items(r) + [p] <==> Length(r) < QSIZE - 1
  {
    if Length(r) < QSIZE - 1 {
      var r' := Pushed(r, p);
      assert Length(r') == Length(r) + 1;
      forall j | 0 <= j < Length(r) ensures Items(r')[j] == Items(r)[j] {
        assert Slot(r', j) == Slot(r, j) != r.tail;
      }
      assert Slot(r', Length(r)) == r.tail;
    } else {
      assert !LooksFull(r) ==> |Items(Pushed(r, p))| == 0;
    }
  }

  /** With 99 entries and head 0 the full test does not fire, and the whole queue is lost. */
  lemma FullAtZeroLosesQueue(r: Ring, p: int)
    requires Formed(r) && r.head == 0 && r.tail == QSIZE - 1
    ensures Length(r) == QSIZE - 1 && !LooksFull(r) && Formed(Pushed(r, p)) && Items(Pushed(r, p)) == []
  {
  }

  lemma DequeueTakesFront(r: Ring)
    requires Formed(r) && r.head != r.tail
    ensures Items(r) != [] && r.slots[r.head] == Items(r)[0]
    ensures Formed(Popped(r)) && Items(Popped(r)) == Items(r)[1..]
  {
    var r' := Popped(r);
    forall j | 0 <= j < Length(r') ensures Items(r')[j] == Items(r)[1..][j] {
      assert Slot(r', j) == Slot(r, j + 1);
    }
  }

  // ---------------------------------------------------------------- all levels together

  ghost predicate AllFormed(rs: seq<Ring>) {
    |rs| == PRIO_MAX && forall k :: 0 <= k < PRIO_MAX ==> Formed(rs[k])
  }

  /** Everything queued on the first n levels. */
  ghost function Upto(rs: seq<Ring>, n: nat): multiset<int>
    requires AllFormed(rs) && n <= PRIO_MAX
  {
    if n == 0 then multiset{} else Upto(rs, n - 1) + multiset(Items(rs[n - 1]))
  }

  ghost function Queued(rs: seq<Ring>): multiset<int>
    requires AllFormed(rs)
  {
    Upto(rs, PRIO_MAX)
  }

  lemma {:induction false} UptoSame(rs: seq<Ring>, rs': seq<Ring>, n: nat)
    requires AllFormed(rs) && AllFormed(rs') && n <= PRIO_MAX
    requires forall k :: 0 <= k < n ==> rs[k] == rs'[k]
    ensures Upto(rs, n) == Upto(rs', n)
  {
    if n > 0 { UptoSame(rs, rs', n - 1); }
  }

  lemma {:induction false} UptoPush(rs: seq<Ring>, k: nat, r: Ring, extra: multiset<int>, n: nat)
    requires AllFormed(rs) && k < n <= PRIO_MAX && Formed(r)
    requires multiset(Items(r)) == multiset(Items(rs[k])) + extra
    ensures Upto(rs[k := r], n) == Upto(rs, n) + extra
  {
    hide Items;
    var rs' := rs[k := r];
    assert AllFormed(rs');
    if k == n - 1 {
      UptoSame(rs, rs', n - 1);
      assert rs'[n - 1] == r;
    } else {
      UptoPush(rs, k, r, extra, n - 1);
      assert rs'[n - 1] == rs[n - 1];
    }
  }

  lemma {:induction false} UptoContains(rs: seq<Ring>, k: nat, n: nat)
    requires AllFormed(rs) && k < n <= PRIO_MAX
    ensures multiset(Items(rs[k])) <= Upto(rs, n)
  {
    if k < n - 1 { UptoContains(rs, k, n - 1); }
  }

  lemma {:induction false} UptoEmpty(rs: seq<Ring>, n: nat)
    requires AllFormed(rs) && n <= PRIO_MAX
    requires forall k :: 0 <= k < n ==> rs[k].head == rs[k].tail
    ensures Upto(rs, n) == multiset{}
  {
    if n > 0 { UptoEmpty(rs, n - 1); }
  }
}
