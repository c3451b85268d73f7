/**
 log.c as it is written: one object whose methods update the header in memory and store
 blocks to the disk one at a time. Each store also appends its step to a ghost trace, and
 Valid ties the object to the state that trace leads to in LogMachine. What LogSafety and
 LogOperations prove about all runs therefore holds at every point inside these methods.
 */
module RedoLog {
  import opened Basics
  import opened LogMachine
  import opened LogSafety
  import LogOperations
  import BufferList

  /** How end_op comes out: it returns, it panics, or it waits for a buffer it holds itself. */
  datatype Outcome = Done | Panicked | Hung

  /** How turn t of write_log comes out for the logged blocks bs, each of which pins a buffer. */
  function CopyOutcome(g: Geometry, bs: seq<nat>, t: nat): Outcome
    requires t < |bs|
  {
    if |bs| >= BufferList.NBUF || !OnDevice(g, t) then Panicked
    else if bs[t] == g.start + 1 + t then Hung
    else Done
  }

  /** Every turn completes. */
  ghost predicate CopiesAll(g: Geometry, bs: seq<nat>) {
    forall t :: 0 <= t < |bs| ==> CopyOutcome(g, bs, t).Done?
  }

  class Log {
    const g: Geometry
    var disk: Disk
    var cache: map<nat, Block>
    var n: nat
    var block: seq<nat>
    var outstanding: int
    var committing: bool

    ghost var first: Disk
    ghost var trace: seq<Step>
    ghost var ops: seq<Op>
    ghost var nextId: nat
    ghost var phase: Phase

    ghost function Abs(): State
      requires n <= |block|
      reads this
    {
      State(disk, cache, block[..n], ops, nextId, phase)
    }

    ghost predicate Valid()
      reads this
    {
      && |block| == LOGSIZE && n <= LOGSIZE
      && GoodDisk(g, first)
      && Run(g, first, trace) == Some(Abs())
      && outstanding == |ops|
      && committing == Committing(Abs())
    }

    /** Machine powered on with disk d: nothing is in memory yet. */
    constructor (g: Geometry, d: Disk)
      requires GoodDisk(g, d)
      ensures Valid() && phase == Booting && disk == d && trace == [] && first == d
    {
      this.g, disk, cache, n := g, d, map[], 0;
      block := seq(LOGSIZE, _ => 0);
      outstanding, committing := 0, false;
      first, trace, ops, nextId, phase := d, [], [], 0, Booting;
    }

    /** Record a step whose effect on memory and disk has just been carried out. */
    ghost method Record(s: State, step: Step)
      requires |block| == LOGSIZE && n <= LOGSIZE && GoodDisk(g, first)
      requires Run(g, first, trace) == Some(s) && Enabled(g, s, step) && Shaped(g, s)
      requires Abs() == Apply(g, s, step)
      modifies `trace
      ensures trace == old(trace) + [step]
      ensures Run(g, first, trace) == Some(Abs())
    {
      LogOperations.Extend(g, first, trace, step);
      trace := trace + [step];
    }

    /** The state is one the machine can reach, so its block numbers are in range. */
    lemma Reached()
      requires Valid()
      ensures Shaped(g, Abs()) && HeaderCount(disk[g.start]) <= LOGSIZE
      ensures phase.Installing? ==> g.start + n < g.ndisk
    {
      RunKeepsBooks(g, first, trace);
    }

    // One turn of install_trans: copy a log block to its home location.
    method InstallOne(tail: nat)
      requires Valid() && phase.Installing? && phase.tail == tail < n
      modifies `disk, `cache, `phase, `trace
      ensures Valid() && phase == Installing(tail + 1, old(phase.recovering))
      ensures trace == old(trace) + [InstallBlock]
    {
      hide Run;
      Reached();
      ghost var s := Abs();
      var lbuf := disk[g.start + tail + 1];
      assert s.blocks[tail] == block[tail] && lbuf == LogCopy(g, disk, tail);
      disk := disk[block[tail] := lbuf];
      cache := cache - {block[tail]};
      phase := Installing(tail + 1, phase.recovering);
      Record(s, InstallBlock);
    }

    method InstallTrans()
      requires Valid() && phase.Installing? && phase.tail == 0
      modifies `disk, `cache, `phase, `trace
      ensures Valid() && phase == Installing(n, old(phase.recovering))
      ensures trace == old(trace) + Times(InstallBlock, n)
    {
      hide Run;
      var tail := 0;
      while tail < n
        invariant 0 <= tail <= n && Valid()
        invariant phase == Installing(tail, old(phase.recovering))
        invariant trace == old(trace) + Times(InstallBlock, tail)
      {
        InstallOne(tail);
        tail := tail + 1;
      }
    }

    /** The block write_head stores. */
    method EncodedHead() returns (hb: Block)
      requires n <= |block| == LOGSIZE && g.start < |disk|
      ensures hb == EncodeHeader(disk[g.start], block[..n])
    {
      hb := disk[g.start];
      hb := hb[0 := n];
      var i := 0;
      while i < n
        invariant 0 <= i <= n
        invariant hb == [n] + block[..i] + disk[g.start][1 + i..]
      {
        hb := hb[1 + i := block[i]];
        i := i + 1;
      }
    }

    // write_head in commit: the group becomes durable here.
    method WriteHead()
      requires Valid() && phase == WritingLog(n) && n > 0
      modifies `disk, `phase, `trace
      ensures Valid() && phase == Installing(0, false)
      ensures trace == old(trace) + [WriteHeader]
    {
      hide Run;
      Reached();
      ghost var s := Abs();
      var hb := EncodedHead();
      disk := disk[g.start := hb];
      phase := Installing(0, false);
      Record(s, WriteHeader);
    }

    // The count goes to 0 and the header with it: nothing is left to install.
    method EraseHead()
      requires Valid() && phase.Installing? && phase.tail == n
      modifies `disk, `n, `phase, `trace
      ensures Valid() && n == 0 && phase == if old(phase.recovering) then Running else Erased
      ensures trace == old(trace) + [ClearHeader]
    {
      hide Run;
      Reached();
      ghost var s := Abs();
      n := 0;
      var hb := EncodedHead();
      disk := disk[g.start := hb];
      phase := if phase.recovering then Running else Erased;
      Record(s, ClearHeader);
    }

    // read_head: memory takes over the count and the block numbers found on disk.
    method ReadHead()
      requires Valid() && phase.Booting?
      modifies `n, `block, `phase, `trace
      ensures Valid() && phase == Installing(0, true)
      ensures trace == old(trace) + [ReadHeader]
    {
      hide Run;
      Reached();
      ghost var s := Abs();
      var lh := disk[g.start];
      n := lh[0];
      var i := 0;
      while i < n
        invariant 0 <= i <= n <= LOGSIZE && |block| == LOGSIZE
        invariant block[..i] == lh[1..1 + i]
        modifies `block
      {
        block := block[i := lh[1 + i]];
        i := i + 1;
      }
      phase := Installing(0, true);
      Record(s, ReadHeader);
    }

    method RecoverFromLog()
      requires Valid() && phase.Booting?
      modifies `disk, `cache, `n, `block, `phase, `trace
      ensures Valid() && phase == Running && n == 0
      ensures Fits(g, first, old(trace)) ==> Fits(g, first, trace)
      ensures Fits(g, first, old(trace)) ==>
        forall b: nat :: g.Home(b) ==> b < |disk| && disk[b] == Durable(g, first, old(trace))[b]
      ensures old(trace) <= trace
    {
      hide Run, Fits;
      ReadHead();
      InstallTrans();
      EraseHead();
      DurableKept(g, first, old(trace), trace);
      if Fits(g, first, old(trace)) {
        assert trace == old(trace) + trace[|old(trace)|..];
        RecoveryFits(g, first, old(trace), trace[|old(trace)|..]);
        forall b: nat | g.Home(b)
          ensures b < |disk| && disk[b] == Durable(g, first, old(trace))[b]
        {
          CrashSafety(g, first, trace, b);
        }
      }
    }

    // begin_op up to its first sleep or its return; false means it sleeps on &log.
    method BeginOperation() returns (admitted: bool)
      requires Valid() && (phase.Running? || Committing(Abs()))
      modifies `outstanding, `ops, `nextId, `trace
      ensures Valid() && (admitted <==> phase.Running? && LogOperations.RoomForAll(old(Abs())))
      ensures admitted ==> ops == old(ops) + [Op(old(nextId), 0, false)] && trace == old(trace) + [BeginOp]
      ensures !admitted ==> ops == old(ops) && trace == old(trace)
    {
      hide Run, LogOperations.RoomForAll;
      LogOperations.RoomExact(Abs());
      if committing {
        admitted := false;
      } else if n + (outstanding + 1) * MAXOPBLOCKS > LOGSIZE {
        admitted := false;
      } else {
        Reached();
        ghost var s := Abs();
        outstanding := outstanding + 1;
        ops := ops + [Op(nextId, 0, false)];
        nextId := nextId + 1;
        Record(s, BeginOp);
        admitted := true;
      }
    }

    /** The scan of log_write: the entry for b, or n when there is none. */
    method FindEntry(b: nat) returns (i: nat)
      requires n <= |block|
      ensures i <= n && (i < n ==> block[i] == b) && (i == n ==> b !in block[..n])
    {
      i := 0;
      while i < n && block[i] != b
        invariant 0 <= i <= n
        invariant b !in block[..i]
      {
        i := i + 1;
      }
    }

    /** The two tests at the head of log_write, made without the lock; false is a panic. */
    method CheckSpace(ghost id: nat) returns (ok: bool)
      requires Valid() && (outstanding >= 1 ==> IndexOf(ops, id) >= 0 && !ops[IndexOf(ops, id)].checked)
      modifies `ops, `trace
      ensures Valid() && (ok <==> !TooBig(g, old(Abs())) && outstanding >= 1)
      ensures ok ==> trace == old(trace) + [LogMachine.CheckSpace(id)]
      ensures ok ==> IndexOf(ops, id) == IndexOf(old(ops), id) >= 0
      ensures ok ==> ops == old(ops)[IndexOf(ops, id) := old(ops)[IndexOf(ops, id)].(checked := true)]
      ensures !ok ==> ops == old(ops) && trace == old(trace)
    {
      hide Run;
      if n >= LOGSIZE || n >= g.size - 1 { return false; }
      if outstanding < 1 { return false; }
      Reached();
      ghost var s := Abs();
      ghost var i := IndexOf(ops, id);
      ops := ops[i := ops[i].(checked := true)];
      SameIndex(s.ops, i, ops[i], id);
      Record(s, LogMachine.CheckSpace(id));
      ok := true;
    }

    /** The tail of log_write: enter b at position i and mark its buffer dirty. */
    method StoreEntry(ghost id: nat, b: nat, data: Block, i: nat)
      requires Valid() && Enabled(g, Abs(), Append(id, b, data))
      requires i <= n && (i < n ==> block[i] == b) && (i == n ==> b !in block[..n])
      modifies `cache, `n, `block, `ops, `trace
      ensures Valid() && trace == old(trace) + [Append(id, b, data)]
      ensures block[..n] == old(block[..n]) + if i < old(n) then [] else [b]
    {
      hide Run;
      Reached();
      AppendRoom(g, first, trace, id, b, data);
      ghost var s, s' := Abs(), Apply(g, Abs(), Append(id, b, data));
      assert i < n ==> s.blocks[i] == b;
      assert |s'.ops| == |ops| && s'.blocks == if i < n then s.blocks else s.blocks + [b];
      block := block[i := b];
      if i == n { n := n + 1; }
      cache := cache[b := data];
      ops := s'.ops;
      assert block[..n] == s'.blocks;
      assert Abs() == s';
      Record(s, Append(id, b, data));
    }

    // log_write under the lock, by operation id, of a buffer for block b now holding data.
    method AppendBlock(ghost id: nat, b: nat, data: Block)
      requires Valid() && Enabled(g, Abs(), Append(id, b, data))
      modifies `cache, `n, `block, `ops, `trace
      ensures Valid() && trace == old(trace) + [Append(id, b, data)]
      ensures block[..n] == old(block[..n]) + if b in old(block[..n]) then [] else [b]
    {
      hide Run;
      var i := FindEntry(b);
      assert i < n ==> block[..n][i] == b;
      StoreEntry(id, b, data, i);
    }

    // log_write with no other operation in between; false is a panic.
    method WriteBlock(ghost id: nat, b: nat, data: Block) returns (ok: bool)
      requires Valid()
      requires outstanding >= 1 ==> MayLog(g, Abs(), id, b) && !ops[IndexOf(ops, id)].checked
      modifies `cache, `n, `block, `ops, `trace
      ensures Valid() && (ok <==> !TooBig(g, old(Abs())) && outstanding >= 1)
      ensures ok ==> trace == old(trace) + [LogMachine.CheckSpace(id), Append(id, b, data)]
      ensures ok ==> block[..n] == old(block[..n]) + if b in old(block[..n]) then [] else [b]
      ensures !ok ==> Abs() == old(Abs()) && trace == old(trace)
    {
      hide Run;
      ok := CheckSpace(id);
      if ok {
        AppendBlock(id, b, data);
      }
    }

    // One turn of write_log: copy a modified block from the cache to the log.
    method LogOne(tail: nat) returns (r: Outcome)
      requires Valid() && phase == WritingLog(tail) && tail < n
      modifies `disk, `cache, `phase, `trace
      ensures Valid() && r == CopyOutcome(g, block[..n], tail)
      ensures r.Done? ==> phase == WritingLog(tail + 1) && trace == old(trace) + [WriteLogBlock]
      ensures !r.Done? ==> Abs() == old(Abs()) && trace == old(trace)
    {
      hide Run;
      Reached();
      ghost var s := Abs();
      var b, to := block[tail], g.start + tail + 1;
      assert s.blocks[tail] == b;
      if n >= BufferList.NBUF || to >= g.ndisk { return Panicked; }
      if b == to { return Hung; }
      var from := if b in cache then cache[b] else disk[b];
      disk := disk[to := from];
      cache := cache - {to};
      phase := WritingLog(tail + 1);
      Record(s, WriteLogBlock);
      r := Done;
    }

    /** write_log stops at the first turn that does not complete. */
    method WriteLog() returns (r: Outcome)
      requires Valid() && phase == WritingLog(0)
      modifies `disk, `cache, `phase, `trace
      ensures Valid() && phase.WritingLog? && phase.tail <= n
      ensures forall t :: 0 <= t < phase.tail ==> CopyOutcome(g, block[..n], t).Done?
      ensures if r.Done? then phase.tail == n else phase.tail < n && r == CopyOutcome(g, block[..n], phase.tail)
      ensures trace == old(trace) + Times(WriteLogBlock, phase.tail)
    {
      hide Run;
      var tail := 0;
      while tail < n
        invariant 0 <= tail <= n && Valid() && phase == WritingLog(tail)
        invariant forall t :: 0 <= t < tail ==> CopyOutcome(g, block[..n], t).Done?
        invariant trace == old(trace) + Times(WriteLogBlock, tail)
      {
        r := LogOne(tail);
        if !r.Done? { return; }
        tail := tail + 1;
      }
      r := Done;
    }

    /** The steps commit takes for n logged blocks. */
    static ghost function CommitSteps(n: nat): seq<Step> {
      if n == 0 then []
      else Times(WriteLogBlock, n) + [WriteHeader] + Times(InstallBlock, n) + [ClearHeader]
    }

    /** The outcome of a commit of the blocks bs that made k log copies and then stopped. */
    static ghost predicate StoppedAt(g: Geometry, bs: seq<nat>, k: nat, r: Outcome) {
      && k < |bs| && r == CopyOutcome(g, bs, k) && !r.Done?
      && forall t :: 0 <= t < k ==> CopyOutcome(g, bs, t).Done?
    }

    method Commit() returns (r: Outcome)
      requires Valid() && phase == WritingLog(0)
      modifies `disk, `cache, `n, `phase, `trace
      ensures Valid() && (r.Done? <==> CopiesAll(g, old(block[..n])))
      ensures r.Done? ==> n == 0 && (phase == Erased || phase == WritingLog(0))
      ensures r.Done? ==> trace == old(trace) + CommitSteps(old(n))
      ensures !r.Done? ==> phase.WritingLog? && StoppedAt(g, old(block[..n]), phase.tail, r)
      ensures !r.Done? ==> n == old(n) && trace == old(trace) + Times(WriteLogBlock, phase.tail)
    {
      hide Run, Times, GoodDisk, Committing, CopyOutcome;
      r := Done;
      if n > 0 {
        r := WriteLog();
        if !r.Done? { return; }
        WriteHead();
        InstallTrans();
        EraseHead();
      }
    }

    // end_op under log.lock: returns whether this call must commit, and whether it panicked.
    method CloseOperation(ghost id: nat) returns (doCommit: bool, panicked: bool)
      requires Valid() && IndexOf(ops, id) >= 0 && !ops[IndexOf(ops, id)].checked
      modifies `outstanding, `committing, `ops, `phase, `trace
      ensures Valid() && !panicked && trace == old(trace) + [EndOp(id)]
      ensures outstanding == old(outstanding) - 1 && (doCommit <==> outstanding == 0)
      ensures phase == if doCommit then WritingLog(0) else Running
    {
      hide Run;
      LogOperations.ReservationHolds(g, first, trace);
      Reached();
      ghost var s := Abs();
      outstanding := outstanding - 1;
      doCommit, panicked := false, false;
      if committing { return false, true; }
      ghost var k := IndexOf(ops, id);
      ops := ops[..k] + ops[k + 1..];
      if outstanding == 0 {
        doCommit, committing := true, true;
        phase := WritingLog(0);
      }
      Record(s, EndOp(id));
    }

    // end_op of operation id.
    method EndOperation(ghost id: nat) returns (r: Outcome)
      requires Valid() && IndexOf(ops, id) >= 0 && !ops[IndexOf(ops, id)].checked
      modifies `disk, `cache, `n, `outstanding, `committing, `ops, `phase, `trace
      ensures Valid() && (r.Done? <==> old(outstanding) > 1 || CopiesAll(g, old(block[..n])))
      ensures r.Done? ==> phase == Running
      ensures old(outstanding) > 1 ==> trace == old(trace) + [EndOp(id)]
      ensures r.Done? && old(outstanding) == 1 ==>
        n == 0 && trace == old(trace) + [EndOp(id)] + CommitSteps(old(n)) + [FinishCommit]
      ensures !r.Done? ==> phase.WritingLog? && StoppedAt(g, old(block[..n]), phase.tail, r)
      ensures !r.Done? ==> trace == old(trace) + [EndOp(id)] + Times(WriteLogBlock, phase.tail)
    {
      hide Run, CopyOutcome;
      var doCommit, panicked;
      doCommit, panicked := CloseOperation(id);
      if panicked { return Panicked; }
      r := Done;
      if doCommit {
        r := Commit();
        if !r.Done? { return; }
        Reached();
        ghost var s := Abs();
        committing := false;
        phase := Running;
        Record(s, FinishCommit);
      }
    }

    /** Power fails: only the disk is left. */
    method Fail()
      requires Valid()
      modifies `cache, `n, `outstanding, `committing, `ops, `phase, `trace
      ensures Valid() && phase == Booting && trace == old(trace) + [Crash]
    {
      hide Run;
      Reached();
      ghost var s := Abs();
      cache, n, outstanding, committing := map[], 0, 0, false;
      ops, phase := [], Booting;
      Record(s, Crash);
    }
  }

  /** write_log completes exactly when the logged blocks leave a buffer free, their copies lie on the
      device and none past the log area is to be copied onto itself. As many blocks as there are
      buffers stop it at its first turn. */
  lemma CommitOutcome(g: Geometry, s: State)
    requires Shaped(g, s) && s.blocks != []
    ensures CopiesAll(g, s.blocks) <==>
      && |s.blocks| < BufferList.NBUF && g.start + |s.blocks| < g.ndisk
      && forall t :: g.size - 1 <= t < |s.blocks| ==> s.blocks[t] != g.start + 1 + t
    ensures |s.blocks| < g.size && |s.blocks| < BufferList.NBUF ==> CopiesAll(g, s.blocks)
    ensures |s.blocks| == BufferList.NBUF ==> Log.StoppedAt(g, s.blocks, 0, Panicked)
  {
    if CopiesAll(g, s.blocks) {
      assert CopyOutcome(g, s.blocks, |s.blocks| - 1).Done?;
      forall t | g.size - 1 <= t < |s.blocks| ensures s.blocks[t] != g.start + 1 + t {
        assert CopyOutcome(g, s.blocks, t).Done?;
      }
    }
  }

  lemma {:induction false} SameIndex(ops: seq<Op>, i: nat, op: Op, id: nat)
    requires i < |ops| && op.id == ops[i].id
    ensures IndexOf(ops[i := op], id) == IndexOf(ops, id)
  {
    var n := |ops| - 1;
    assert ops[i := op][..n] == if i < n then ops[..n][i := op] else ops[..n];
    if ops[n].id != id && i < n {
      SameIndex(ops[..n], i, op, id);
    }
  }

  /** A new entry always has a place in the header, since the operation reserved it. */
  lemma AppendRoom(g: Geometry, d: Disk, t: seq<Step>, id: nat, b: nat, data: Block)
    requires GoodDisk(g, d) && Run(g, d, t).Some? && Enabled(g, Run(g, d, t).value, Append(id, b, data))
    ensures b !in Run(g, d, t).value.blocks ==> |Run(g, d, t).value.blocks| < LOGSIZE
  {
    LogOperations.ReservationHolds(g, d, t);
  }

  ghost function Times(step: Step, k: nat): (r: seq<Step>)
    ensures |r| == k && forall i :: 0 <= i < k ==> r[i] == step
  {
    if k == 0 then [] else Times(step, k - 1) + [step]
  }

  /** Steps other than header writes change nothing durable. */
  lemma {:induction false} DurableKept(g: Geometry, d: Disk, t: seq<Step>, t': seq<Step>)
    requires GoodDisk(g, d) && t <= t'
    requires forall i :: |t| <= i < |t'| ==> !t'[i].WriteHeader?
    ensures Durable(g, d, t') == Durable(g, d, t)
  {
    if |t'| > |t| {
      var n := |t'| - 1;
      DurableKept(g, d, t, t'[..n]);
      assert t' == t'[..n] + [t'[n]];
      CurrentAfter(g, d, t'[..n], t'[n]);
    } else {
      assert t == t';
    }
  }

  lemma TallySnoc(t: seq<Step>, step: Step)
    ensures Tally(t + [step]).durable == Tally(t).durable + if step.WriteHeader? then Tally(t).pending else []
    ensures !step.Append? ==>
      Tally(t + [step]).pending == if step.WriteHeader? || step.Crash? then [] else Tally(t).pending
  {
    assert (t + [step])[..|t|] == t;
  }

  lemma {:induction false} TallyIdle(t: seq<Step>, k: nat, step: Step)
    requires !step.Append? && !step.WriteHeader? && !step.Crash?
    ensures Tally(t + Times(step, k)) == Tally(t)
  {
    hide Tally;
    if k == 0 {
      assert t + Times(step, k) == t;
    } else {
      TallyIdle(t, k - 1, step);
      TallySnoc(t + Times(step, k - 1), step);
      assert t + Times(step, k) == t + Times(step, k - 1) + [step];
    }
  }

  lemma TallyCommit(t: seq<Step>, n: nat)
    requires n > 0
    ensures Tally(t + Log.CommitSteps(n)) == Account(Tally(t).durable + Tally(t).pending, [])
  {
    hide Tally;
    var t2 := t + Times(WriteLogBlock, n);
    TallyIdle(t, n, WriteLogBlock);
    TallySnoc(t2, WriteHeader);
    TallyIdle(t2 + [WriteHeader], n, InstallBlock);
    TallySnoc(t2 + [WriteHeader] + Times(InstallBlock, n), ClearHeader);
    assert t + Log.CommitSteps(n) == t2 + [WriteHeader] + Times(InstallBlock, n) + [ClearHeader];
  }

  /** When the last end_op of a group returns, everything logged so far is durable. */
  lemma {:induction false} CommittedAtReturn(t: seq<Step>, id: nat, n: nat)
    requires n > 0
    ensures Tally(t + [EndOp(id)] + Log.CommitSteps(n) + [FinishCommit])
         == Account(Tally(t).durable + Tally(t).pending, [])
  {
    TallySnoc(t, EndOp(id));
    TallyCommit(t + [EndOp(id)], n);
    TallySnoc(t + [EndOp(id)] + Log.CommitSteps(n), FinishCommit);
  }
}
