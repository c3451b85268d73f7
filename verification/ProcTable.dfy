/**
 The process table of proc.c with its run queues: every steady-state operation that changes
 a process's state, one method per critical section under ptable.lock.
 */
module ProcTable {
  import opened Basics
  import opened RunQueue

  const NPROC := 64
  const NONE := -1                       // the null process pointer

  datatype ProcState = UNUSED | EMBRYO | SLEEPING | RUNNABLE | RUNNING | ZOMBIE

  datatype Proc = Proc(state: ProcState, pid: int, parent: int, chan: int, killed: bool, priority: nat)

  // ---------------------------------------------------------------- run-queue invariant

  /** Each process other than hole is queued exactly once if RUNNABLE and not at all otherwise. */
  ghost predicate QueuedOnce(proc: seq<Proc>, rs: seq<Ring>, hole: int) {
    && |proc| == NPROC && AllFormed(rs)
    && forall p: int :: Queued(rs)[p] == if 0 <= p < NPROC && p != hole && proc[p].state == RUNNABLE then 1 else 0
  }

  lemma CountsMakeDistinct(s: seq<int>)
    requires forall x :: multiset(s)[x] <= 1
    ensures Distinct(s)
  {
    forall i, j | 0 <= i < j < |s| ensures s[i] != s[j] {
      assert s == s[..j] + [s[j]] + s[j + 1..];
      assert s[i] in s[..j];
      assert multiset(s)[s[j]] >= multiset(s[..j])[s[j]] + 1;
    }
  }

  /** No level ever holds more than NPROC entries. */
  lemma LevelBound(proc: seq<Proc>, rs: seq<Ring>, hole: int, k: nat)
    requires QueuedOnce(proc, rs, hole) && k < PRIO_MAX
    ensures Length(rs[k]) <= NPROC
  {
    var s := Items(rs[k]);
    UptoContains(rs, k, PRIO_MAX);
    assert forall x :: multiset(s)[x] <= Queued(rs)[x];
    CountsMakeDistinct(s);
    forall i | 0 <= i < |s| ensures 0 <= s[i] < NPROC {
      assert s[i] in multiset(s);
      assert Queued(rs)[s[i]] >= 1;
    }
    PigeonHole(s, NPROC);
  }

  lemma PushKeeps(proc: seq<Proc>, rs: seq<Ring>, p: int, k: nat)
    requires 0 <= p < NPROC && QueuedOnce(proc, rs, p) && proc[p].state == RUNNABLE && k < PRIO_MAX
    ensures !LooksFull(rs[k]) && Formed(Pushed(rs[k], p)) && Items(Pushed(rs[k], p)) == Items(rs[k]) + [p]
    ensures QueuedOnce(proc, rs[k := Pushed(rs[k], p)], NONE)
  {
    LevelBound(proc, rs, p, k);
    EnqueueExact(rs[k], p);
    UptoPush(rs, k, Pushed(rs[k], p), multiset{p}, PRIO_MAX);
  }

  lemma PopKeeps(proc: seq<Proc>, rs: seq<Ring>, k: nat)
    requires QueuedOnce(proc, rs, NONE) && k < PRIO_MAX && rs[k].head != rs[k].tail
    ensures Formed(Popped(rs[k])) && Items(rs[k]) != [] && Items(Popped(rs[k])) == Items(rs[k])[1..]
    ensures var p := Items(rs[k])[0];
            && rs[k].slots[rs[k].head] == p && 0 <= p < NPROC && proc[p].state == RUNNABLE
            && QueuedOnce(proc, rs[k := Popped(rs[k])], p)
  {
    hide Upto, Items, Popped;
    var r, r' := rs[k], Popped(rs[k]);
    DequeueTakesFront(r);
    var p := Items(r)[0];
    assert Items(r) == [p] + Items(r');
    var rs' := rs[k := r'];
    assert AllFormed(rs');
    UptoPush(rs', k, r, multiset{p}, PRIO_MAX);
    assert rs'[k := r] == rs;
    assert Queued(rs)[p] >= 1;
  }

  // ---------------------------------------------------------------- family invariant

  ghost predicate Active(q: Proc) {
    q.state == SLEEPING || q.state == RUNNABLE || q.state == RUNNING
  }

  ghost predicate PidsUnique(proc: seq<Proc>) {
    forall p, q :: 0 <= p < q < |proc| && proc[p].pid == proc[q].pid ==> proc[p].pid == 0
  }

  /** A parent link leads to an active process with a smaller pid. */
  ghost predicate ParentOk(proc: seq<Proc>, p: int)
    requires 0 <= p < |proc|
  {
    var q := proc[p].parent;
    0 <= q < |proc| && Active(proc[q]) && proc[q].pid < proc[p].pid
  }

  ghost predicate SlotOk(proc: seq<Proc>, init: int, nextpid: int, p: int)
    requires 0 <= p < |proc|
  {
    var q := proc[p];
    && 0 <= q.pid < nextpid
    && (q.state != UNUSED ==> q.pid >= 1)
    && (q.state == UNUSED ==> q.parent == NONE)
    && (p != init && q.state != UNUSED && q.state != EMBRYO ==> q.parent != NONE)
    && (q.parent != NONE ==> ParentOk(proc, p))
  }

  /** Pids are handed out in increasing order and never shared, and every process alive
      descends from init along links with decreasing pids. */
  ghost predicate Family(proc: seq<Proc>, init: int, nextpid: int) {
    && |proc| == NPROC && 0 <= init < NPROC && 2 <= nextpid
    && Active(proc[init]) && proc[init].pid == 1 && proc[init].parent == NONE
    && PidsUnique(proc)
    && (forall p {:trigger SlotOk(proc, init, nextpid, p)} :: 0 <= p < NPROC ==> SlotOk(proc, init, nextpid, p))
  }

  /** Slots allocated by a fork that is still under way, and who is forking. */
  ghost predicate Making(proc: seq<Proc>, maker: map<int, int>) {
    forall p :: p in maker ==>
      && 0 <= p < |proc| && 0 <= maker[p] < |proc|
      && proc[p].state == EMBRYO && (proc[p].parent == NONE || proc[p].parent == maker[p])
      && Active(proc[maker[p]]) && proc[maker[p]].pid < proc[p].pid
  }

  /** A change of run state that keeps pids, links and active processes keeps the family. */
  ghost predicate SameKin(q: Proc, q': Proc) {
    && q'.pid == q.pid && q'.parent == q.parent
    && (Active(q) ==> Active(q')) && (q'.state == UNUSED <==> q.state == UNUSED)
    && (q.state == EMBRYO && q'.state != EMBRYO ==> q.parent != NONE)
  }

  lemma SameKinSameFamily(proc: seq<Proc>, proc': seq<Proc>, init: int, nextpid: int, maker: map<int, int>)
    requires Family(proc, init, nextpid) && Making(proc, maker) && |proc'| == NPROC
    requires forall p :: 0 <= p < NPROC ==> SameKin(proc[p], proc'[p])
    requires forall p :: p in maker ==> proc'[p].state == EMBRYO
    ensures Family(proc', init, nextpid) && Making(proc', maker)
  {
    forall p | 0 <= p < NPROC ensures SlotOk(proc', init, nextpid, p) {
      assert SameKin(proc[p], proc'[p]) && SlotOk(proc, init, nextpid, p);
      if proc[p].parent != NONE { assert SameKin(proc[proc[p].parent], proc'[proc[p].parent]); }
    }
    assert SameKin(proc[init], proc'[init]);
    assert forall p :: 0 <= p < NPROC ==> proc'[p].pid == proc[p].pid by {
      forall p | 0 <= p < NPROC ensures proc'[p].pid == proc[p].pid { assert SameKin(proc[p], proc'[p]); }
    }
    forall p | p in maker ensures Active(proc'[maker[p]]) && proc'[maker[p]].pid < proc'[p].pid {
      assert SameKin(proc[p], proc'[p]) && SameKin(proc[maker[p]], proc'[maker[p]]);
    }
  }

  lemma ReparentKeeps(proc: seq<Proc>, init: int, nextpid: int, maker: map<int, int>, p: int)
    requires Family(proc, init, nextpid) && Making(proc, maker) && 0 <= p < NPROC && proc[p].parent != NONE
    requires p !in maker
    ensures var proc' := proc[p := proc[p].(parent := init)];
            Family(proc', init, nextpid) && Making(proc', maker)
  {
    var proc' := proc[p := proc[p].(parent := init)];
    forall q | 0 <= q < NPROC ensures SlotOk(proc', init, nextpid, q) {
      assert SlotOk(proc, init, nextpid, q);
    }
  }

  lemma BuryKeeps(proc: seq<Proc>, init: int, nextpid: int, maker: map<int, int>, cur: int)
    requires Family(proc, init, nextpid) && Making(proc, maker) && 0 <= cur < NPROC && cur != init
    requires Active(proc[cur]) && cur !in maker.Values
    requires forall p :: 0 <= p < NPROC ==> proc[p].parent != cur
    ensures var proc' := proc[cur := proc[cur].(state := ZOMBIE)];
            Family(proc', init, nextpid) && Making(proc', maker)
  {
    var proc' := proc[cur := proc[cur].(state := ZOMBIE)];
    forall q | 0 <= q < NPROC ensures SlotOk(proc', init, nextpid, q) {
      assert SlotOk(proc, init, nextpid, q);
    }
    forall q | q in maker ensures maker[q] != cur { assert maker[q] in maker.Values; }
  }

  lemma ReapKeeps(proc: seq<Proc>, init: int, nextpid: int, maker: map<int, int>, z: int)
    requires Family(proc, init, nextpid) && Making(proc, maker) && 0 <= z < NPROC && proc[z].state == ZOMBIE
    ensures var proc' := proc[z := proc[z].(pid := 0, parent := NONE, killed := false, state := UNUSED)];
            Family(proc', init, nextpid) && Making(proc', maker)
  {
    var proc' := proc[z := proc[z].(pid := 0, parent := NONE, killed := false, state := UNUSED)];
    forall q | 0 <= q < NPROC ensures SlotOk(proc', init, nextpid, q) {
      assert SlotOk(proc, init, nextpid, q);
    }
  }

  lemma BirthKeeps(proc: seq<Proc>, init: int, nextpid: int, maker: map<int, int>, p: int, cur: int)
    requires Family(proc, init, nextpid) && Making(proc, maker)
    requires 0 <= p < NPROC && proc[p].state == UNUSED && 0 <= cur < NPROC && Active(proc[cur])
    ensures var proc' := proc[p := proc[p].(state := EMBRYO, pid := nextpid)];
            Family(proc', init, nextpid + 1) && Making(proc', maker[p := cur])
  {
    var proc' := proc[p := proc[p].(state := EMBRYO, pid := nextpid)];
    var next := nextpid + 1;
    assert SlotOk(proc, init, nextpid, cur) && SlotOk(proc, init, nextpid, p);
    forall q | 0 <= q < NPROC ensures SlotOk(proc', init, next, q) && (q != p ==> proc'[q].pid < nextpid) {
      assert SlotOk(proc, init, nextpid, q);
    }
  }

  lemma StillbornKeeps(proc: seq<Proc>, init: int, nextpid: int, maker: map<int, int>, p: int)
    requires Family(proc, init, nextpid) && Making(proc, maker) && p in maker && proc[p].parent == NONE
    ensures var proc' := proc[p := proc[p].(state := UNUSED)];
            Family(proc', init, nextpid) && Making(proc', maker - {p})
  {
    var proc' := proc[p := proc[p].(state := UNUSED)];
    forall q | 0 <= q < NPROC ensures SlotOk(proc', init, nextpid, q) {
      assert SlotOk(proc, init, nextpid, q);
    }
  }

  lemma AdoptKeeps(proc: seq<Proc>, init: int, nextpid: int, maker: map<int, int>, p: int)
    requires Family(proc, init, nextpid) && Making(proc, maker) && p in maker
    ensures var proc' := proc[p := proc[p].(parent := maker[p])];
            Family(proc', init, nextpid) && Making(proc', maker)
  {
    var proc' := proc[p := proc[p].(parent := maker[p])];
    forall q | 0 <= q < NPROC ensures SlotOk(proc', init, nextpid, q) {
      assert SlotOk(proc, init, nextpid, q);
    }
  }

  /** The channel a process sleeps on in wait: the address of its own table entry. */
  function ProcChan(p: int): int { p + 1 }

  /** Table entries have different addresses, none of them null. */
  lemma ChannelsDiffer(p: int, q: int)
    requires p >= 0 && q >= 0
    ensures ProcChan(p) != 0 && (ProcChan(p) == ProcChan(q) ==> p == q)
  {
  }

  /** Asleep in wait. */
  ghost predicate Waiting(proc: seq<Proc>, p: int) {
    0 <= p < |proc| && proc[p].state == SLEEPING && proc[p].chan == ProcChan(p)
  }

  /** No process sleeps in wait while it has a child to reap. */
  ghost predicate Heard(proc: seq<Proc>) {
    forall p, z :: ZombieChild(proc, p, z) ==> !Waiting(proc, p)
  }

  /** A slot may change as long as it neither goes to sleep in wait beside a zombie child nor
      becomes a zombie under the eyes of a parent asleep in wait. */
  lemma HeardWith(proc: seq<Proc>, p: int, q: Proc)
    requires Heard(proc) && 0 <= p < |proc|
    requires q.state == SLEEPING && q.chan == ProcChan(p) ==> Waiting(proc, p) || forall z :: !ZombieChild(proc, p, z)
    requires q.state == ZOMBIE ==>
      !Waiting(proc, q.parent) || (proc[p].state == ZOMBIE && proc[p].parent == q.parent)
    ensures Heard(proc[p := q])
  {
    var proc' := proc[p := q];
    forall r, z | ZombieChild(proc', r, z) ensures !Waiting(proc', r) {
      assert z != p ==> ZombieChild(proc, r, z);
      assert proc[p].state == ZOMBIE ==> ZombieChild(proc, proc[p].parent, p);
      assert r != p && Waiting(proc', r) ==> Waiting(proc, r);
    }
  }

  lemma HeardAsleep(proc: seq<Proc>, p: int, q: Proc)
    requires Heard(proc) && 0 <= p < |proc| && proc[p].state == RUNNING && q.state == SLEEPING
    ensures Heard(proc[p := q]) <==> q.chan != ProcChan(p) || forall z :: !ZombieChild(proc, p, z)
  {
    if q.chan != ProcChan(p) || forall z :: !ZombieChild(proc, p, z) {
      HeardWith(proc, p, q);
    } else {
      var z :| ZombieChild(proc, p, z);
      assert ZombieChild(proc[p := q], p, z) && Waiting(proc[p := q], p);
    }
  }

  /** A zombie passes to init, and init is woken. */
  lemma HeardPassed(proc: seq<Proc>, proc': seq<Proc>, init: int, p: int)
    requires Heard(proc) && |proc'| == |proc| && 0 <= p < |proc| && proc[p].state == ZOMBIE
    requires forall q :: 0 <= q < |proc| ==>
      proc'[q] == Table.Woken(if q == p then proc[p].(parent := init) else proc[q], ProcChan(init))
    ensures Heard(proc')
  {
    forall r, z | ZombieChild(proc', r, z) ensures !Waiting(proc', r) {
      assert z != p ==> ZombieChild(proc, r, z);
      assert Waiting(proc', r) ==> Waiting(proc, r);
    }
  }

  class Table {
    var proc: seq<Proc>
    var rings: seq<Ring>
    var nextpid: int
    const init: int
    ghost var maker: map<int, int>

    ghost predicate Valid()
      reads this
    {
      Ordered() && Heard(proc)
    }

    ghost predicate Ordered()
      reads this
    {
      |proc| == NPROC && QueueOk() && Family(proc, init, nextpid) && Making(proc, maker)
    }

    /** Any steady state. */
    constructor (proc: seq<Proc>, rings: seq<Ring>, nextpid: int, init: int)
      requires QueuedOnce(proc, rings, NONE) && Family(proc, init, nextpid) && Heard(proc)
      requires forall p :: 0 <= p < NPROC ==> proc[p].priority < PRIO_MAX
      ensures Valid() && this.proc == proc && this.rings == rings && this.nextpid == nextpid && this.init == init
    {
      this.proc, this.rings, this.nextpid, this.init, maker := proc, rings, nextpid, init, map[];
    }

    ghost predicate QueueOk()
      reads this
    {
      QueuedOnce(proc, rings, NONE) && forall p :: 0 <= p < NPROC ==> proc[p].priority < PRIO_MAX
    }

    // pq_enqueue
    method Enqueue(p: int) returns (r: int)
      requires |proc| == NPROC && AllFormed(rings) && 0 <= p < NPROC && proc[p].priority < PRIO_MAX
      modifies `rings
      ensures r == 1 || r == -1
      ensures var k := proc[p].priority;
        && (r == 1 <==> proc[p].state == RUNNABLE && !LooksFull(old(rings)[k]))
        && rings == if r == 1 then old(rings)[k := Pushed(old(rings)[k], p)] else old(rings)
    {
      if !(proc[p].state == RUNNABLE) { return -1; }
      var k := proc[p].priority;
      var head, tail := rings[k].head, rings[k].tail;
      if tail == CRem(head - 1, QSIZE) { return -1; }
      rings := rings[k := rings[k].(slots := rings[k].slots[tail := p])];
      rings := rings[k := rings[k].(tail := CRem(tail + 1, QSIZE))];
      return 1;
    }

    // pq_dequeue: the front of the highest priority level that is not empty.
    method Dequeue() returns (p: int)
      requires QueueOk()
      modifies `rings
      ensures p == NONE ==> rings == old(rings) && forall k :: 0 <= k < PRIO_MAX ==> Items(rings[k]) == []
      ensures p == NONE ==> forall q :: 0 <= q < NPROC ==> proc[q].state != RUNNABLE
      ensures p != NONE ==> 0 <= p < NPROC && proc[p].state == RUNNABLE && QueuedOnce(proc, rings, p)
      ensures p != NONE ==> exists k ::
        && 0 <= k < PRIO_MAX && (forall j :: 0 <= j < k ==> Items(old(rings)[j]) == [])
        && Items(old(rings)[k]) != [] && p == Items(old(rings)[k])[0]
        && rings == old(rings)[k := Popped(old(rings)[k])] && Items(rings[k]) == Items(old(rings)[k])[1..]
    {
      var k := 0;
      while k < PRIO_MAX && rings[k].head == rings[k].tail
        invariant 0 <= k <= PRIO_MAX
        invariant forall j :: 0 <= j < k ==> rings[j].head == rings[j].tail && Items(rings[j]) == []
      {
        assert Items(rings[k]) == [];
        k := k + 1;
      }
      if k >= PRIO_MAX {
        UptoEmpty(rings, PRIO_MAX);
        return NONE;
      }
      PopKeeps(proc, rings, k);
      var head := rings[k].head;
      p := rings[k].slots[head];
      rings := rings[k := rings[k].(head := CRem(head + 1, QSIZE))];
      assert rings == old(rings)[k := Popped(old(rings)[k])];
    }

    /** A process that may be made RUNNABLE: asleep, running, or a new child linked to its parent. */
    ghost predicate Startable(p: int)
      requires |proc| == NPROC
      reads this
    {
      && 0 <= p < NPROC && p !in maker
      && (proc[p].state == SLEEPING || proc[p].state == RUNNING || (proc[p].state == EMBRYO && proc[p].parent != NONE))
    }

    // A process becomes RUNNABLE and is queued; a failing enqueue is a panic.
    method MakeRunnable(p: int) returns (ok: bool)
      requires Ordered() && Startable(p)
      modifies `proc, `rings
      ensures ok && Ordered() && (old(Heard(proc)) ==> Heard(proc))
      ensures proc == old(proc)[p := old(proc[p]).(state := RUNNABLE)]
      ensures var k := proc[p].priority;
        rings == old(rings)[k := rings[k]] && Items(rings[k]) == Items(old(rings)[k]) + [p]
    {
      hide Upto, Items, Family, Heard, Waiting;
      ghost var before := proc;
      if Heard(proc) { HeardWith(proc, p, proc[p].(state := RUNNABLE)); }
      proc := proc[p := proc[p].(state := RUNNABLE)];
      SameKinSameFamily(before, proc, init, nextpid, maker);
      assert QueuedOnce(proc, rings, p);
      PushKeeps(proc, rings, p, proc[p].priority);
      var r := Enqueue(p);
      ok := r >= 0;
    }

    method Yield(cur: int) returns (ok: bool)
      requires Valid() && 0 <= cur < NPROC && proc[cur].state == RUNNING
      modifies `proc, `rings
      ensures ok && Valid() && proc == old(proc)[cur := old(proc[cur]).(state := RUNNABLE)]
      ensures var k := proc[cur].priority;
        rings == old(rings)[k := rings[k]] && Items(rings[k]) == Items(old(rings)[k]) + [cur]
    {
      ok := MakeRunnable(cur);
    }

    // sleep, from acquiring ptable.lock to entering the scheduler
    method SleepOn(cur: int, chan: int)
      requires Valid() && 0 <= cur < NPROC && proc[cur].state == RUNNING
      modifies `proc
      ensures Ordered() && proc == old(proc)[cur := old(proc[cur]).(chan := chan, state := SLEEPING)]
      ensures Valid() <==> chan != ProcChan(cur) || forall z :: !ZombieChild(old(proc), cur, z)
    {
      hide Upto, Family;
      ghost var before := proc;
      proc := proc[cur := proc[cur].(chan := chan)];
      proc := proc[cur := proc[cur].(state := SLEEPING)];
      SameKinSameFamily(before, proc, init, nextpid, maker);
      HeardAsleep(before, cur, proc[cur]);
    }

    // scheduler's dequeue branch
    method Schedule() returns (p: int)
      requires Valid()
      modifies `proc, `rings
      ensures Valid()
      ensures p == NONE ==> proc == old(proc) && rings == old(rings)
      ensures p == NONE ==> forall q :: 0 <= q < NPROC ==> proc[q].state != RUNNABLE
      ensures p != NONE ==> 0 <= p < NPROC && old(proc[p].state) == RUNNABLE
      ensures p != NONE ==> proc == old(proc)[p := old(proc[p]).(state := RUNNING)]
      ensures p != NONE ==> exists k ::
        && 0 <= k < PRIO_MAX && (forall j :: 0 <= j < k ==> Items(old(rings)[j]) == [])
        && Items(old(rings)[k]) != [] && p == Items(old(rings)[k])[0]
        && rings == old(rings)[k := rings[k]] && Items(rings[k]) == Items(old(rings)[k])[1..]
    {
      hide Upto, Items, Family, Heard, Waiting;
      p := Dequeue();
      if p != NONE {
        ghost var before := proc;
        HeardWith(proc, p, proc[p].(state := RUNNING));
        proc := proc[p := proc[p].(state := RUNNING)];
        SameKinSameFamily(before, proc, init, nextpid, maker);
      }
    }

    /** What wakeup1(chan) makes of one process. */
    static ghost function Woken(q: Proc, chan: int): Proc {
      if q.state == SLEEPING && q.chan == chan then q.(state := RUNNABLE) else q
    }

    /** The sleepers on chan among the first n slots that queue on level k, in table order. */
    static ghost function Sleepers(procs: seq<Proc>, chan: int, k: int, n: nat): seq<int>
      requires n <= |procs|
    {
      if n == 0 then []
      else
        var q := procs[n - 1];
        Sleepers(procs, chan, k, n - 1) +
        if q.state == SLEEPING && q.chan == chan && q.priority == k then [n - 1] else []
    }

    method Wakeup1(chan: int) returns (ok: bool)
      requires Ordered()
      modifies `proc, `rings
      ensures ok && Ordered() && (old(Heard(proc)) ==> Heard(proc))
      ensures forall p :: 0 <= p < NPROC ==> proc[p] == Woken(old(proc[p]), chan)
      ensures forall k :: 0 <= k < PRIO_MAX ==>
        Items(rings[k]) == Items(old(rings)[k]) + Sleepers(old(proc), chan, k, NPROC)
    {
      hide Upto, Items, Family, Making, Queued, Formed, Length, Heard;
      ok := true;
      var p := 0;
      while p < NPROC
        invariant 0 <= p <= NPROC && ok && Ordered() && (old(Heard(proc)) ==> Heard(proc))
        invariant forall q :: 0 <= q < p ==> proc[q] == Woken(old(proc[q]), chan)
        invariant forall q :: p <= q < NPROC ==> proc[q] == old(proc[q])
        invariant forall k :: 0 <= k < PRIO_MAX ==>
          Items(rings[k]) == Items(old(rings)[k]) + Sleepers(old(proc), chan, k, p)
      {
        if proc[p].state == SLEEPING && proc[p].chan == chan {
          ghost var before := rings;
          NotBeingMade(p);
          ok := MakeRunnable(p);
          assert forall k :: 0 <= k < PRIO_MAX && k != proc[p].priority ==> rings[k] == before[k];
        }
        p := p + 1;
      }
    }

    lemma NotBeingMade(p: int)
      requires Ordered() && 0 <= p < NPROC && proc[p].state != EMBRYO
      ensures p !in maker
    {
    }

    method Kill(pid: int) returns (r: int)
      requires Valid()
      modifies `proc, `rings
      ensures Valid() && (r == 0 || r == -1)
      ensures r == -1 ==> proc == old(proc) && rings == old(rings)
      ensures r == -1 <==> forall p :: 0 <= p < NPROC ==> old(proc[p]).pid != pid
      ensures r == 0 ==> exists p ::
        && 0 <= p < NPROC && old(proc[p]).pid == pid && (forall q :: 0 <= q < p ==> old(proc[q]).pid != pid)
        && proc == old(proc)[p := old(proc[p]).(killed := true, state :=
                     if old(proc[p]).state == SLEEPING then RUNNABLE else old(proc[p]).state)]
        && (var k := old(proc[p]).priority;
            if old(proc[p]).state != SLEEPING then rings == old(rings)
            else rings == old(rings)[k := rings[k]] && Items(rings[k]) == Items(old(rings)[k]) + [p])
    {
      hide Upto, Items, Family, Heard;
      var p := 0;
      while p < NPROC
        invariant 0 <= p <= NPROC && proc == old(proc) && rings == old(rings)
        invariant forall q :: 0 <= q < p ==> proc[q].pid != pid
      {
        if proc[p].pid == pid {
          HeardWith(proc, p, proc[p].(killed := true));
          proc := proc[p := proc[p].(killed := true)];
          SameKinSameFamily(old(proc), proc, init, nextpid, maker);
          if proc[p].state == SLEEPING {
            NotBeingMade(p);
            var ok := MakeRunnable(p);
          }
          return 0;
        }
        p := p + 1;
      }
      return -1;
    }

    // allocproc's scan, called by fork in process cur
    method AllocProc(cur: int) returns (p: int)
      requires Valid() && 0 <= cur < NPROC && proc[cur].state == RUNNING
      modifies `proc, `nextpid, `maker
      ensures Valid()
      ensures p == NONE <==> forall q :: 0 <= q < NPROC ==> old(proc[q]).state != UNUSED
      ensures p == NONE ==> proc == old(proc) && nextpid == old(nextpid) && maker == old(maker)
      ensures p != NONE ==>
        && 0 <= p < NPROC && old(proc[p]).state == UNUSED && (forall q :: 0 <= q < p ==> old(proc[q]).state != UNUSED)
        && proc == old(proc)[p := old(proc[p]).(state := EMBRYO, pid := old(nextpid))]
        && nextpid == old(nextpid) + 1 && maker == old(maker)[p := cur]
    {
      hide Upto, Family, Making;
      p := 0;
      while p < NPROC && proc[p].state != UNUSED
        invariant 0 <= p <= NPROC
        invariant forall q :: 0 <= q < p ==> proc[q].state != UNUSED
      {
        p := p + 1;
      }
      if p == NPROC { return NONE; }
      BirthKeeps(proc, init, nextpid, maker, p, cur);
      HeardWith(proc, p, proc[p].(state := EMBRYO, pid := nextpid));
      proc := proc[p := proc[p].(state := EMBRYO, pid := nextpid)];
      nextpid := nextpid + 1;
      maker := maker[p := cur];
    }

    // fork giving up: no kernel stack, or copyuvm failed
    method AbortFork(p: int)
      requires Valid() && p in maker && 0 <= p < NPROC && proc[p].parent == NONE
      modifies `proc, `maker
      ensures Valid() && proc == old(proc)[p := old(proc[p]).(state := UNUSED)] && maker == old(maker) - {p}
    {
      hide Upto, Family;
      StillbornKeeps(proc, init, nextpid, maker, p);
      HeardWith(proc, p, proc[p].(state := UNUSED));
      proc := proc[p := proc[p].(state := UNUSED)];
      maker := maker - {p};
    }

    // fork links the child to its parent
    method LinkChild(p: int, cur: int)
      requires Valid() && p in maker && maker[p] == cur && 0 <= p < NPROC
      modifies `proc
      ensures Valid() && proc == old(proc)[p := old(proc[p]).(parent := cur)]
    {
      hide Upto, Family;
      AdoptKeeps(proc, init, nextpid, maker, p);
      HeardWith(proc, p, proc[p].(parent := cur));
      proc := proc[p := proc[p].(parent := cur)];
    }

    // fork's critical section: the child becomes RUNNABLE at whatever priority its slot last had
    method StartChild(p: int) returns (ok: bool)
      requires Valid() && p in maker && 0 <= p < NPROC && proc[p].parent != NONE
      modifies `proc, `rings, `maker
      ensures ok && Valid() && proc == old(proc)[p := old(proc[p]).(state := RUNNABLE)]
      ensures var k := proc[p].priority;
        rings == old(rings)[k := rings[k]] && Items(rings[k]) == Items(old(rings)[k]) + [p]
    {
      hide Upto, Items, Family;
      maker := maker - {p};
      ok := MakeRunnable(p);
    }

    // fork sets the priority of the child, which may already be running
    method InheritPriority(p: int, cur: int)
      requires Valid() && 0 <= p < NPROC && 0 <= cur < NPROC
      modifies `proc
      ensures Valid() && proc == old(proc)[p := old(proc[p]).(priority := old(proc[cur]).priority)]
    {
      hide Upto, Family;
      HeardWith(proc, p, proc[p].(priority := proc[cur].priority));
      proc := proc[p := proc[p].(priority := proc[cur].priority)];
      SameKinSameFamily(old(proc), proc, init, nextpid, maker);
    }

    // One turn of exit's loop: a child of cur passes to init, which is woken if the child is a zombie.
    method PassOne(cur: int, p: int) returns (ok: bool)
      requires Valid() && 0 <= cur < NPROC && cur !in maker.Values && 0 <= p < NPROC
      modifies `proc, `rings
      ensures ok && Valid()
      ensures var child := old(proc[p]);
        forall q :: 0 <= q < NPROC ==>
          var r := if q == p && child.parent == cur then child.(parent := init) else old(proc[q]);
          proc[q] == if child.parent == cur && child.state == ZOMBIE then Woken(r, ProcChan(init)) else r
    {
      hide Upto, Items, Family, Making, Sleepers;
      ok := true;
      if proc[p].parent == cur {
        NotMadeBy(p, cur);
        ReparentKeeps(proc, init, nextpid, maker, p);
        proc := proc[p := proc[p].(parent := init)];
        if proc[p].state == ZOMBIE {
          ok := Wakeup1(ProcChan(init));
          HeardPassed(old(proc), proc, init, p);
        } else {
          HeardWith(old(proc), p, proc[p]);
        }
      }
    }

    method PassChildren(cur: int) returns (ok: bool)
      requires Valid() && 0 <= cur < NPROC && cur != init && proc[cur].state == RUNNING && cur !in maker.Values
      modifies `proc, `rings
      ensures ok && Valid() && proc[cur] == old(proc[cur])
      ensures forall p :: 0 <= p < NPROC ==> proc[p] == AfterPass(old(proc), cur, init, p, NPROC)
    {
      hide Upto, Items, Family, AfterPass, Woken;
      NotOwnParent(cur);
      ok := true;
      var p := 0;
      PassNone(proc, cur, init);
      while p < NPROC
        invariant 0 <= p <= NPROC && ok && Valid()
        invariant forall q :: 0 <= q < NPROC ==> proc[q] == AfterPass(old(proc), cur, init, q, p)
      {
        PassStep(old(proc), cur, init, p);
        ok := PassOne(cur, p);
        p := p + 1;
      }
      PassCurrent(old(proc), cur, init);
    }

    lemma NotOwnParent(p: int)
      requires Valid() && 0 <= p < NPROC
      ensures proc[p].parent != p
    {
      assert SlotOk(proc, init, nextpid, p);
    }

    lemma NotMadeBy(p: int, cur: int)
      requires Valid() && 0 <= p < NPROC && proc[p].parent == cur >= 0 && cur !in maker.Values
      ensures p !in maker
    {
      assert forall q :: q in maker ==> maker[q] in maker.Values;
    }

    // exit: the panic for init, then the critical section
    method Exit(cur: int) returns (ok: bool)
      requires Valid() && 0 <= cur < NPROC && proc[cur].state == RUNNING && cur !in maker.Values
      modifies `proc, `rings
      ensures Valid() && (ok <==> cur != init)
      ensures !ok ==> proc == old(proc) && rings == old(rings)
      ensures ok ==> proc[cur] == old(proc[cur]).(state := ZOMBIE)
      ensures ok ==> forall p :: 0 <= p < NPROC && p != cur ==> proc[p] == AfterExit(old(proc), cur, init, p)
      ensures ok ==> !Waiting(proc, old(proc[cur]).parent)
    {
      hide Upto, Items, Family, Making, Sleepers, AfterPass;
      if cur == init {
        return false;
      }
      ok := Wakeup1(ProcChan(proc[cur].parent));
      ghost var mid := proc;
      assert mid == WokenAll(old(proc), ProcChan(old(proc[cur].parent)));
      ok := PassChildren(cur);
      NoneLeft(mid, cur, init);
      BuryKeeps(proc, init, nextpid, maker, cur);
      ghost var parent := old(proc[cur]).parent;
      assert !Waiting(proc, parent) by {
        if 0 <= parent < NPROC { PassWakes(mid, cur, init, parent); }
      }
      HeardWith(proc, cur, proc[cur].(state := ZOMBIE));
      proc := proc[cur := proc[cur].(state := ZOMBIE)];
    }

    // wait's scan and what follows it, up to returning or going to sleep
    method WaitScan(cur: int) returns (r: WaitResult)
      requires Valid() && 0 <= cur < NPROC && proc[cur].state == RUNNING
      modifies `proc
      ensures Valid()
      ensures r.Reaped? <==> exists z :: ZombieChild(old(proc), cur, z)
      ensures r.Reaped? ==> exists z ::
        && ZombieChild(old(proc), cur, z) && (forall q :: 0 <= q < z ==> !ZombieChild(old(proc), cur, q))
        && r.pid == old(proc[z]).pid
        && proc == old(proc)[z := old(proc[z]).(pid := 0, parent := NONE, killed := false, state := UNUSED)]
      ensures r.Fails? ==> proc == old(proc)
      ensures r.Fails? <==>
        !r.Reaped? && (old(proc[cur]).killed || forall p :: 0 <= p < NPROC ==> old(proc[p]).parent != cur)
      ensures r.Sleeps? ==> proc == old(proc)[cur := old(proc[cur]).(chan := ProcChan(cur), state := SLEEPING)]
    {
      hide Upto, Family, Making;
      var havekids := false;
      var p := 0;
      while p < NPROC
        invariant 0 <= p <= NPROC && proc == old(proc)
        invariant havekids <==> exists q :: 0 <= q < p && proc[q].parent == cur
        invariant forall q :: 0 <= q < p ==> !ZombieChild(proc, cur, q)
      {
        if proc[p].parent == cur {
          havekids := true;
          if proc[p].state == ZOMBIE {
            var pid := proc[p].pid;
            ReapKeeps(proc, init, nextpid, maker, p);
            HeardWith(proc, p, proc[p].(pid := 0, parent := NONE, killed := false, state := UNUSED));
            assert ZombieChild(old(proc), cur, p);
            proc := proc[p := proc[p].(pid := 0, parent := NONE, killed := false, state := UNUSED)];
            return Reaped(pid);
          }
        }
        p := p + 1;
      }
      if !havekids || proc[cur].killed { return Fails; }
      SleepOn(cur, ProcChan(cur));
      return Sleeps;
    }

    // sys_prio_set's search: the first slot other than cur with that pid, NPROC if there is none
    method FindPid(cur: int, pid: int) returns (p: int)
      requires |proc| == NPROC
      ensures 0 <= p <= NPROC && (p < NPROC ==> p != cur && proc[p].pid == pid)
      ensures forall q :: 0 <= q < p && q != cur ==> proc[q].pid != pid
    {
      p := 0;
      while p < NPROC && !(p != cur && proc[p].pid == pid)
        invariant 0 <= p <= NPROC
        invariant forall q :: 0 <= q < p && q != cur ==> proc[q].pid != pid
      {
        p := p + 1;
      }
    }

    // sys_prio_set's walk along parent links; it ends because pids decrease
    method WalkUp(cur: int, p: int) returns (found: bool)
      requires Valid() && 0 <= cur < NPROC && 0 <= p < NPROC && proc[p].parent != NONE
      ensures found <==> cur != init && Ancestor(proc, init, nextpid, cur, p)
    {
      hide QueuedOnce;
      found := false;
      assert SlotOk(proc, init, nextpid, p);
      var i := proc[p].parent;
      while proc[i].pid > 1
        invariant 0 <= i < NPROC && Active(proc[i]) && !found
        invariant Ancestor(proc, init, nextpid, cur, p) <==> i == cur || Ancestor(proc, init, nextpid, cur, i)
        decreases proc[i].pid
      {
        if i == cur { found := true; break; }
        assert SlotOk(proc, init, nextpid, i);
        i := proc[i].parent;
      }
      assert SlotOk(proc, init, nextpid, i);
      assert !found ==> i == init;
    }

    // sys_prio_set; fault reports that the walk would start from a null parent pointer.
    method PrioSet(cur: int, pid: int, request: int) returns (r: int, fault: bool)
      requires Valid() && 0 <= cur < NPROC && proc[cur].state == RUNNING
      requires -0x8000_0000 <= request < 0x8000_0000
      modifies `proc
      ensures r == 1 || r == -1
      ensures Valid() <==> r == -1 || request >= 0
      ensures fault ==> r == -1
      ensures r == -1 ==> proc == old(proc)
      ensures fault <==> Permitted(old(proc), cur, request) && Dangling(old(proc), cur, pid)
      ensures r == 1 <==> Permitted(old(proc), cur, request) && old(InReach(proc, init, nextpid, cur, pid))
      ensures r == 1 ==> exists p ::
        && 0 <= p < NPROC && old(proc[p]).pid == pid
        && proc == old(proc)[p := old(proc[p]).(priority := Unsigned(request))]
      ensures r == 1 ==> old(proc[cur]).priority <= Unsigned(request)
      ensures r == 1 ==> (Unsigned(request) < PRIO_MAX <==> request >= 0)
    {
      hide QueuedOnce, Family, Making, Ancestor;
      fault := false;
      if request >= PRIO_MAX { return -1, false; }
      if Unsigned(request) < proc[cur].priority { return -1, false; }
      if proc[cur].pid == pid {
        if request >= 0 { PriorityKeeps(cur, Unsigned(request)); }
        proc := proc[cur := proc[cur].(priority := Unsigned(request))];
        assert request < 0 ==> proc[cur].priority >= PRIO_MAX;
        return 1, false;
      }
      var p := FindPid(cur, pid);
      OnlyAncestors(cur, pid, p);
      if p >= NPROC { return -1, false; }
      if proc[p].parent == NONE { return -1, true; }
      var found := WalkUp(cur, p);
      if !found { return -1, false; }
      if request >= 0 { PriorityKeeps(p, Unsigned(request)); }
      proc := proc[p := proc[p].(priority := Unsigned(request))];
      assert request < 0 ==> proc[p].priority >= PRIO_MAX;
      return 1, false;
    }

    /** A process that asks for priority -1 for itself gets it, as a number far out of range. */
    method AskForMinusOne(cur: int) returns (r: int)
      requires Valid() && 0 <= cur < NPROC && proc[cur].state == RUNNING
      modifies `proc
      ensures r == 1 && !Valid() && proc == old(proc)[cur := old(proc[cur]).(priority := 0xFFFF_FFFF)]
    {
      hide QueuedOnce, Family, Making, Ancestor;
      OnlySelf(cur);
      var fault;
      r, fault := PrioSet(cur, proc[cur].pid, -1);
    }

    lemma OnlySelf(cur: int)
      requires Valid() && 0 <= cur < NPROC && proc[cur].state == RUNNING
      ensures forall p :: 0 <= p < NPROC && proc[p].pid == proc[cur].pid ==> p == cur
    {
      assert SlotOk(proc, init, nextpid, cur);
      assert PidsUnique(proc);
    }

    lemma OnlyAncestors(cur: int, pid: int, p: int)
      requires Valid() && 0 <= cur < NPROC && proc[cur].pid != pid
      requires 0 <= p <= NPROC && (p < NPROC ==> proc[p].pid == pid)
      requires forall q :: 0 <= q < p && q != cur ==> proc[q].pid != pid
      ensures forall q :: 0 <= q < NPROC && proc[q].pid == pid && Ancestor(proc, init, nextpid, cur, q) ==>
        q == p && proc[p].parent != NONE
    {
      forall q | 0 <= q < NPROC && proc[q].pid == pid && Ancestor(proc, init, nextpid, cur, q)
        ensures q == p && proc[p].parent != NONE
      {
        assert SlotOk(proc, init, nextpid, q);
        assert PidsUnique(proc);
      }
    }

    lemma PriorityKeeps(p: int, priority: nat)
      requires Valid() && 0 <= p < NPROC && priority < PRIO_MAX
      ensures var proc' := proc[p := proc[p].(priority := priority)];
        && QueuedOnce(proc', rings, NONE) && Family(proc', init, nextpid) && Making(proc', maker)
        && (forall q :: 0 <= q < NPROC ==> proc'[q].priority < PRIO_MAX) && Heard(proc')
    {
      HeardWith(proc, p, proc[p].(priority := priority));
      SameKinSameFamily(proc, proc[p := proc[p].(priority := priority)], init, nextpid, maker);
    }
  }

  /** An int stored into, or compared with, the unsigned priority field. */
  function Unsigned(x: int): nat { x % 0x1_0000_0000 }

  /** The two early tests of sys_prio_set, the second one an unsigned comparison. */
  predicate Permitted(proc: seq<Proc>, cur: int, request: int)
    requires 0 <= cur < |proc|
  {
    request < PRIO_MAX && Unsigned(request) >= proc[cur].priority
  }

  /** As numbers: every negative request passes both tests, and of the others exactly those from the
      caller's priority up to the last level. */
  lemma PermittedExact(proc: seq<Proc>, cur: int, request: int)
    requires 0 <= cur < |proc| && proc[cur].priority < PRIO_MAX && -0x8000_0000 <= request < 0x8000_0000
    ensures Permitted(proc, cur, request) <==> request < 0 || proc[cur].priority <= request <= PRIO_MAX - 1
    ensures Unsigned(request) == if request < 0 then request + 0x1_0000_0000 else request
  {
  }

  /** After wakeup1 nobody sleeps on the channel, and only those who did have changed. */
  lemma WokenExact(q: Proc, chan: int)
    ensures var q' := Table.Woken(q, chan);
      && !(q'.state == SLEEPING && q'.chan == chan)
      && (q' != q ==> q.state == SLEEPING && q.chan == chan && q' == q.(state := RUNNABLE))
  {
  }

  /** The list of the woken: each sleeper on the channel at that level once, in table order. */
  lemma {:induction false} SleepersExact(procs: seq<Proc>, chan: int, k: int, n: nat)
    requires n <= |procs|
    ensures var s := Table.Sleepers(procs, chan, k, n);
      && (forall i, j :: 0 <= i < j < |s| ==> s[i] < s[j])
      && forall p :: p in s <==>
           0 <= p < n && procs[p].state == SLEEPING && procs[p].chan == chan && procs[p].priority == k
  {
    if n > 0 {
      SleepersExact(procs, chan, k, n - 1);
      var s := Table.Sleepers(procs, chan, k, n - 1);
      forall i | 0 <= i < |s| ensures s[i] < n - 1 {
        assert s[i] in s;
      }
    }
  }

  ghost predicate FirstWithPid(proc: seq<Proc>, cur: int, pid: int, p: int) {
    && 0 <= p < |proc| && p != cur && proc[p].pid == pid
    && forall q :: 0 <= q < p && q != cur ==> proc[q].pid != pid
  }

  /** a is a proper ancestor of p. */
  ghost predicate Ancestor(proc: seq<Proc>, init: int, nextpid: int, a: int, p: int)
    requires Family(proc, init, nextpid) && 0 <= p < NPROC
    decreases proc[p].pid
  {
    assert SlotOk(proc, init, nextpid, p);
    proc[p].parent != NONE && (proc[p].parent == a ||
      (assert SlotOk(proc, init, nextpid, proc[p].parent); Ancestor(proc, init, nextpid, a, proc[p].parent)))
  }

  /** The slot found for pid has no parent to start from: init, a slot never used or reaped (pid 0),
      a child not yet linked, or a slot left behind by a failed fork. */
  ghost predicate Dangling(proc: seq<Proc>, cur: int, pid: int) {
    && 0 <= cur < |proc| && pid != proc[cur].pid
    && exists p :: FirstWithPid(proc, cur, pid, p) && proc[p].parent == NONE
  }

  /** pid names the caller itself, or a descendant of a caller other than init. */
  ghost predicate InReach(proc: seq<Proc>, init: int, nextpid: int, cur: int, pid: int)
    requires Family(proc, init, nextpid) && 0 <= cur < NPROC
  {
    || pid == proc[cur].pid
    || (cur != init && exists p :: 0 <= p < NPROC && proc[p].pid == pid && Ancestor(proc, init, nextpid, cur, p))
  }

  datatype WaitResult = Reaped(pid: int) | Fails | Sleeps

  ghost predicate ZombieChild(proc: seq<Proc>, cur: int, z: int) {
    0 <= z < |proc| && proc[z].parent == cur && proc[z].state == ZOMBIE
  }

  /** Another process after exit of cur: handed to init if it was a child, and awake if it was
      the parent waiting, or init waiting while a zombie was handed to it. */
  ghost function AfterExit(procs: seq<Proc>, cur: int, init: int, p: int): Proc
    requires 0 <= p < |procs| && 0 <= cur < |procs|
  {
    AfterPass(WokenAll(procs, ProcChan(procs[cur].parent)), cur, init, p, |procs|)
  }

  ghost function WokenAll(procs: seq<Proc>, chan: int): (r: seq<Proc>)
    ensures |r| == |procs| && forall q :: 0 <= q < |procs| ==> r[q] == Table.Woken(procs[q], chan)
  {
    seq(|procs|, q requires 0 <= q < |procs| => Table.Woken(procs[q], chan))
  }

  lemma NoneLeft(procs: seq<Proc>, cur: int, init: int)
    requires cur != init
    ensures forall p :: 0 <= p < |procs| ==> AfterPass(procs, cur, init, p, |procs|).parent != cur
  {
  }

  /** Slot p once exit has looked at the first n slots for children of cur. */
  ghost function AfterPass(procs: seq<Proc>, cur: int, init: int, p: int, n: nat): Proc
    requires 0 <= p < |procs| && n <= |procs|
  {
    var q := if p < n && procs[p].parent == cur then procs[p].(parent := init) else procs[p];
    if exists z :: 0 <= z < n && procs[z].parent == cur && procs[z].state == ZOMBIE
    then Table.Woken(q, ProcChan(init)) else q
  }

  lemma PassNone(procs: seq<Proc>, cur: int, init: int)
    ensures forall q :: 0 <= q < |procs| ==> AfterPass(procs, cur, init, q, 0) == procs[q]
  {
  }

  lemma PassCurrent(procs: seq<Proc>, cur: int, init: int)
    requires 0 <= cur < |procs| && procs[cur].state == RUNNING && procs[cur].parent != cur
    ensures AfterPass(procs, cur, init, cur, |procs|) == procs[cur]
  {
  }

  /** Passing children on puts nobody to sleep. */
  lemma PassWakes(procs: seq<Proc>, cur: int, init: int, p: int)
    requires 0 <= p < |procs|
    ensures var q := AfterPass(procs, cur, init, p, |procs|);
      q.state == SLEEPING ==> procs[p].state == SLEEPING && q.chan == procs[p].chan
  {
  }

  /** Whom exit of cur wakes, and whose parent it changes; everything else stays. */
  lemma ExitExact(procs: seq<Proc>, cur: int, init: int, p: int)
    requires 0 <= p < |procs| && 0 <= cur < |procs| && procs[cur].state == RUNNING
    ensures var q, q' := procs[p], AfterExit(procs, cur, init, p);
      var called := q.chan == ProcChan(procs[cur].parent)
        || (q.chan == ProcChan(init) && exists z :: ZombieChild(procs, cur, z));
      && q'.parent == (if q.parent == cur then init else q.parent)
      && (q'.state == q.state || (q.state == SLEEPING && q'.state == RUNNABLE))
      && (q'.state != q.state <==> q.state == SLEEPING && called)
      && (q'.pid, q'.chan, q'.killed, q'.priority) == (q.pid, q.chan, q.killed, q.priority)
  {
    var mid := WokenAll(procs, ProcChan(procs[cur].parent));
    if z :| ZombieChild(procs, cur, z) {
      assert mid[z] == procs[z];
    }
    if z :| 0 <= z < |mid| && mid[z].parent == cur && mid[z].state == ZOMBIE {
      assert ZombieChild(procs, cur, z);
    }
  }

  lemma PassStep(procs: seq<Proc>, cur: int, init: int, p: int)
    requires 0 <= p < |procs| && cur != init
    ensures AfterPass(procs, cur, init, p, p).parent == procs[p].parent
    ensures AfterPass(procs, cur, init, p, p).state == ZOMBIE <==> procs[p].state == ZOMBIE
    ensures forall q :: 0 <= q < |procs| ==>
      var r := AfterPass(procs, cur, init, q, p);
      var r' := if q == p && procs[p].parent == cur then r.(parent := init) else r;
      AfterPass(procs, cur, init, q, p + 1)
        == if procs[p].parent == cur && procs[p].state == ZOMBIE then Table.Woken(r', ProcChan(init)) else r'
  {
  }

  /** For every process that is alive and past its fork, other than init, the walk is safe. */
  lemma LiveTargetsDoNotDangle(proc: seq<Proc>, init: int, nextpid: int, cur: int, p: int)
    requires Family(proc, init, nextpid) && 0 <= cur < NPROC && 0 <= p < NPROC && p != init
    requires proc[p].state != UNUSED && proc[p].state != EMBRYO
    ensures !Dangling(proc, cur, proc[p].pid)
  {
    assert SlotOk(proc, init, nextpid, p);
    assert PidsUnique(proc);
  }

  /** init as a target always dangles, whoever asks. */
  lemma InitDangles(proc: seq<Proc>, init: int, nextpid: int, cur: int)
    requires Family(proc, init, nextpid) && 0 <= cur < NPROC && cur != init
    ensures Dangling(proc, cur, 1)
  {
    assert SlotOk(proc, init, nextpid, cur) && PidsUnique(proc);
    assert FirstWithPid(proc, cur, 1, init);
  }

  /** So does pid 0, as long as some slot is free that no fork has given a pid. */
  lemma FreeSlotDangles(proc: seq<Proc>, init: int, nextpid: int, cur: int, p: int)
    requires Family(proc, init, nextpid) && 0 <= cur < NPROC && proc[cur].state == RUNNING
    requires 0 <= p < NPROC && proc[p].pid == 0
    ensures Dangling(proc, cur, 0)
  {
    assert SlotOk(proc, init, nextpid, cur);
    var q := FirstFrom(proc, cur, 0);
    assert SlotOk(proc, init, nextpid, q);
    assert FirstWithPid(proc, cur, 0, q) && proc[q].parent == NONE;
  }

  /** The first slot at or after i, other than cur, with pid 0. */
  lemma FirstFrom(proc: seq<Proc>, cur: int, i: nat) returns (q: int)
    requires i <= |proc| && exists p :: i <= p < |proc| && p != cur && proc[p].pid == 0
    ensures i <= q < |proc| && q != cur && proc[q].pid == 0
    ensures forall p :: i <= p < q && p != cur ==> proc[p].pid != 0
    decreases |proc| - i
  {
    if i != cur && proc[i].pid == 0 {
      q := i;
    } else {
      q := FirstFrom(proc, cur, i + 1);
    }
  }

  // ---------------------------------------------------------------- the boot pass

  /** z has one queue entry too many; otherwise each process is queued as it should be. */
  ghost predicate Stale(proc: seq<Proc>, rs: seq<Ring>, z: int) {
    && |proc| == NPROC && AllFormed(rs) && 0 <= z < NPROC
    && forall p: int :: Queued(rs)[p] ==
         (if 0 <= p < NPROC && proc[p].state == RUNNABLE then 1 else 0) + if p == z then 1 else 0
  }

  /** The boot pass of scheduler runs a process without taking it off its queue, so the
      run-queue invariant does not hold there: the entry stays behind. */
  lemma BootPassLeavesEntry(proc: seq<Proc>, rs: seq<Ring>, p: int)
    requires QueuedOnce(proc, rs, NONE) && 0 <= p < NPROC && proc[p].state == RUNNABLE
    ensures Queued(rs)[p] == 1 && !QueuedOnce(proc[p := proc[p].(state := RUNNING)], rs, NONE)
    ensures Stale(proc[p := proc[p].(state := RUNNING)], rs, p)
  {
    assert Queued(rs)[p] == 1;
  }

  /** The extra entry goes the first time it is dequeued while its process is not RUNNABLE, which
      then runs although nobody woke it; from there on the invariant holds. Until then one
      extra entry remains. */
  lemma StaleEntryGoes(proc: seq<Proc>, rs: seq<Ring>, z: int, k: nat)
    requires Stale(proc, rs, z) && k < PRIO_MAX && rs[k].head != rs[k].tail
    ensures Items(rs[k]) != [] && 0 <= Items(rs[k])[0] < NPROC
    ensures var p := Items(rs[k])[0];
      var proc', rs' := proc[p := proc[p].(state := RUNNING)], rs[k := Popped(rs[k])];
      && (p == z || proc[p].state == RUNNABLE)
      && if p == z && proc[z].state != RUNNABLE then QueuedOnce(proc', rs', NONE) else Stale(proc', rs', z)
  {
    hide Upto, Items, Popped;
    var r, r' := rs[k], Popped(rs[k]);
    DequeueTakesFront(r);
    var p := Items(r)[0];
    assert Items(r) == [p] + Items(r');
    var rs' := rs[k := r'];
    assert AllFormed(rs');
    UptoPush(rs', k, r, multiset{p}, PRIO_MAX);
    assert rs'[k := r] == rs;
    assert Queued(rs)[p] >= 1;
    var proc' := proc[p := proc[p].(state := RUNNING)];
    assert forall x: int :: Queued(rs')[x] == Queued(rs)[x] - if x == p then 1 else 0;
    assert forall x: int :: 0 <= x < NPROC ==>
      (proc'[x].state == RUNNABLE <==> x != p && proc[x].state == RUNNABLE);
  }

  /** What happens to the run queues: a process becomes RUNNABLE and is queued on level k (yield,
      wakeup, kill, fork), one that is not RUNNABLE takes another such state (sleep, exit, wait), or
      the scheduler takes the front of level k and runs it. */
  datatype Change = Wakes(p: int, k: nat) | Rests(p: int, state: ProcState) | Runs(k: nat)

  datatype Queues = Queues(proc: seq<Proc>, rs: seq<Ring>) {
    ghost predicate Formed() { |proc| == NPROC && AllFormed(rs) }
  }

  ghost predicate Possible(q: Queues, c: Change)
    requires q.Formed()
  {
    match c
    case Wakes(p, k) => 0 <= p < NPROC && q.proc[p].state != RUNNABLE && k < PRIO_MAX
    case Rests(p, state) => 0 <= p < NPROC && q.proc[p].state != RUNNABLE && state != RUNNABLE
    case Runs(k) => k < PRIO_MAX && Items(q.rs[k]) != [] && 0 <= Items(q.rs[k])[0] < NPROC
  }

  ghost function After(q: Queues, c: Change): Queues
    requires q.Formed() && Possible(q, c)
  {
    match c
    case Wakes(p, k) =>
      Queues(q.proc[p := q.proc[p].(state := RUNNABLE)], q.rs[k := Pushed(q.rs[k], p)])
    case Rests(p, state) => q.(proc := q.proc[p := q.proc[p].(state := state)])
    case Runs(k) =>
      var p := Items(q.rs[k])[0];
      Queues(q.proc[p := q.proc[p].(state := RUNNING)], q.rs[k := Popped(q.rs[k])])
  }

  /** The scheduler runs z off the extra entry: z is not RUNNABLE, and may be running elsewhere. */
  ghost predicate RunsUnasked(q: Queues, z: int, c: Change)
    requires q.Formed() && Possible(q, c) && 0 <= z < NPROC
  {
    c.Runs? && Items(q.rs[c.k])[0] == z && q.proc[z].state != RUNNABLE
  }

  lemma WithoutOne(s: seq<int>, z: int) returns (once: seq<int>)
    ensures |s| <= |once| + 1 && multiset(once) == multiset(s) - multiset{z}
  {
    once := s;
    if z in s {
      var i :| 0 <= i < |s| && s[i] == z;
      assert s == s[..i] + [s[i]] + s[i + 1..];
      once := s[..i] + s[i + 1..];
    }
  }

  /** Even with the extra entry no level can fill up. */
  lemma StaleLevelBound(proc: seq<Proc>, rs: seq<Ring>, z: int, k: nat)
    requires Stale(proc, rs, z) && k < PRIO_MAX
    ensures Length(rs[k]) <= NPROC + 1
  {
    hide Items, Upto, Length;
    UptoContains(rs, k, PRIO_MAX);
    var once := WithoutOne(Items(rs[k]), z);
    assert forall x :: multiset(once)[x] <= if x == z then Queued(rs)[z] - 1 else Queued(rs)[x];
    CountsMakeDistinct(once);
    forall i | 0 <= i < |once| ensures 0 <= once[i] < NPROC {
      assert once[i] in multiset(once);
      assert Queued(rs)[once[i]] >= 1;
    }
    PigeonHole(once, NPROC);
  }

  lemma StaleWakes(proc: seq<Proc>, rs: seq<Ring>, z: int, p: int, k: nat)
    requires Stale(proc, rs, z) && 0 <= p < NPROC && proc[p].state != RUNNABLE && k < PRIO_MAX
    ensures !LooksFull(rs[k]) && Formed(Pushed(rs[k], p))
    ensures Stale(proc[p := proc[p].(state := RUNNABLE)], rs[k := Pushed(rs[k], p)], z)
  {
    StaleLevelBound(proc, rs, z, k);
    EnqueueExact(rs[k], p);
    hide Items, Upto, Pushed;
    UptoPush(rs, k, Pushed(rs[k], p), multiset{p}, PRIO_MAX);
  }

  /** Every change but one keeps the extra entry; that one restores the invariant. */
  lemma StaleChange(q: Queues, z: int, c: Change)
    requires q.Formed() && Stale(q.proc, q.rs, z) && Possible(q, c)
    ensures c.Wakes? ==> !LooksFull(q.rs[c.k])
    ensures var q' := After(q, c);
      && q'.Formed()
      && if RunsUnasked(q, z, c) then QueuedOnce(q'.proc, q'.rs, NONE) else Stale(q'.proc, q'.rs, z)
  {
    hide Items, Upto, Pushed, Popped, LooksFull;
    match c {
      case Wakes(p, k) => StaleWakes(q.proc, q.rs, z, p, k);
      case Rests(p, state) =>
      case Runs(k) =>
        EmptyItems(q.rs[k]);
        StaleEntryGoes(q.proc, q.rs, z, k);
    }
  }

  lemma EmptyItems(r: Ring)
    requires Formed(r)
    ensures Items(r) == [] <==> r.head == r.tail
  {
  }

  /** Without an extra entry every change keeps the invariant. */
  lemma QueuedChange(q: Queues, c: Change)
    requires q.Formed() && QueuedOnce(q.proc, q.rs, NONE) && Possible(q, c)
    ensures c.Wakes? ==> !LooksFull(q.rs[c.k])
    ensures After(q, c).Formed() && QueuedOnce(After(q, c).proc, After(q, c).rs, NONE)
  {
    hide Items, Upto, Pushed, Popped, LooksFull;
    match c {
      case Wakes(p, k) => PushKeeps(After(q, c).proc, q.rs, p, k);
      case Rests(p, state) =>
      case Runs(k) =>
        EmptyItems(q.rs[k]);
        PopKeeps(q.proc, q.rs, k);
    }
  }

  ghost predicate AllPossible(q: Queues, cs: seq<Change>)
    requires q.Formed()
    decreases |cs|
  {
    cs == [] || (Possible(q, cs[0]) && After(q, cs[0]).Formed() && AllPossible(After(q, cs[0]), cs[1..]))
  }

  ghost function AfterAll(q: Queues, cs: seq<Change>): Queues
    requires q.Formed() && AllPossible(q, cs)
    decreases |cs|
  {
    if cs == [] then q else AfterAll(After(q, cs[0]), cs[1..])
  }

  /** Somewhere in the run z is run off its extra entry. */
  ghost predicate EntryTaken(q: Queues, z: int, cs: seq<Change>)
    requires q.Formed() && AllPossible(q, cs) && 0 <= z < NPROC
    decreases |cs|
  {
    cs != [] && (RunsUnasked(q, z, cs[0]) || EntryTaken(After(q, cs[0]), z, cs[1..]))
  }

  lemma {:induction false} QueuedOverRun(q: Queues, cs: seq<Change>)
    requires q.Formed() && QueuedOnce(q.proc, q.rs, NONE) && AllPossible(q, cs)
    ensures AfterAll(q, cs).Formed() && QueuedOnce(AfterAll(q, cs).proc, AfterAll(q, cs).rs, NONE)
    decreases |cs|
  {
    hide QueuedOnce, Possible, After;
    if cs != [] {
      QueuedChange(q, cs[0]);
      QueuedOverRun(After(q, cs[0]), cs[1..]);
    }
  }

  /** Over every run the extra entry stays exactly until the scheduler runs z off it. */
  lemma {:induction false} StaleOverRun(q: Queues, z: int, cs: seq<Change>)
    requires q.Formed() && Stale(q.proc, q.rs, z) && AllPossible(q, cs)
    ensures var q' := AfterAll(q, cs);
      && q'.Formed()
      && if EntryTaken(q, z, cs) then QueuedOnce(q'.proc, q'.rs, NONE) else Stale(q'.proc, q'.rs, z)
    decreases |cs|
  {
    hide QueuedOnce, Possible, After, RunsUnasked;
    if cs != [] {
      StaleChange(q, z, cs[0]);
      var next := After(q, cs[0]);
      if RunsUnasked(q, z, cs[0]) {
        QueuedOverRun(next, cs[1..]);
      } else {
        StaleOverRun(next, z, cs[1..]);
      }
    }
  }
}
