/**
 The log over the buffer cache. log_write pins a buffer for every logged block until the commit
 has installed it, and the commit needs further buffers for the blocks of the log itself. NBUF and
 LOGSIZE are the same number.
 */
module LogAndCache {
  import opened Basics
  import opened LogMachine
  import opened LogSafety
  import opened LogOperations
  import opened LogOverflow
  import opened BufferList
  import opened BufferCache

  /** bget's panic for block k. */
  ghost predicate Starved(bufs: seq<Buf>, k: Key) {
    forall i :: 0 <= i < |bufs| ==> bufs[i].key != k && !Reusable(bufs[i])
  }

  /** Buffers that are pinned or in somebody's hands. */
  ghost function Busy(bufs: seq<Buf>): set<nat> {
    set i: nat | i < |bufs| && !Reusable(bufs[i])
  }

  /** bget panics exactly when the block is not cached and pinned and held buffers fill the cache. */
  lemma StarvedExact(bufs: seq<Buf>, k: Key)
    requires |bufs| == NBUF
    ensures Starved(bufs, k) <==> |Busy(bufs)| == NBUF && forall i :: 0 <= i < NBUF ==> bufs[i].key != k
  {
    hide Interval;
    IntervalSize(0, NBUF);
    if |Busy(bufs)| == NBUF {
      if i :| 0 <= i < NBUF && Reusable(bufs[i]) {
        assert Busy(bufs) <= Interval(0, NBUF) - {i};
        SubsetSize(Busy(bufs), Interval(0, NBUF) - {i});
        assert false;
      }
    }
    if Starved(bufs, k) {
      assert Busy(bufs) == Interval(0, NBUF);
    }
  }

  /** Every block of the list has a dirty buffer: at[i] is the one of bs[i]. */
  ghost predicate Pinned(bufs: seq<Buf>, dev: nat, bs: seq<nat>, at: seq<int>) {
    && |at| == |bs|
    && forall i :: 0 <= i < |bs| ==>
         0 <= at[i] < |bufs| && bufs[at[i]].key == Key(dev, bs[i]) && bufs[at[i]].dirty
  }

  /** A transaction of NBUF blocks leaves no buffer for any other block of the device. */
  lemma FullTransactionStarves(bufs: seq<Buf>, dev: nat, bs: seq<nat>, at: seq<int>, k: Key)
    requires |bufs| == NBUF == |bs| && Distinct(bs) && Pinned(bufs, dev, bs, at)
    requires forall i :: 0 <= i < |bs| ==> k != Key(dev, bs[i])
    ensures Starved(bufs, k)
  {
    assert Distinct(at);
    forall c | 0 <= c < NBUF
      ensures bufs[c].key != k && !Reusable(bufs[c])
    {
      AllHit(at, NBUF, c);
    }
  }

  /** n distinct numbers below n are all of them. */
  lemma AllHit(at: seq<int>, n: nat, c: int)
    requires Distinct(at) && |at| == n && (forall i :: 0 <= i < n ==> 0 <= at[i] < n) && 0 <= c < n
    ensures c in at
  {
    if c !in at {
      PigeonHole(at + [c], n);
      assert false;
    }
  }

  // ---------------------------------------------------------------- the commit without a buffer

  /** A commit about to read its first log block, for which the pinned buffers leave no room
      wherever in the cache they are. */
  ghost predicate Stops(g: Geometry, s: State) {
    && s.phase == WritingLog(0) && s.blocks != []
    && forall bufs: seq<Buf>, dev: nat, at: seq<int> ::
         |bufs| == NBUF && Pinned(bufs, dev, s.blocks, at) ==> Starved(bufs, Key(dev, g.start + 1))
  }

  ghost predicate CommitStarves(g: Geometry) {
    exists d: Disk, t: seq<Step> :: GoodDisk(g, d) && Run(g, d, t).Some? && Stops(g, Run(g, d, t).value)
  }

  /** A cache with room: the logged blocks are dirty, every other buffer is free. */
  ghost function Roomful(bs: seq<nat>): seq<Buf> {
    seq(NBUF, i requires 0 <= i < NBUF =>
      if i < |bs| then Buf(Key(1, bs[i]), true, true, 0, false, []) else Buf(Key(0, 0), false, false, 0, false, []))
  }

  /** That is so exactly when as many blocks are logged as there are buffers. */
  lemma StopsExact(g: Geometry, s: State)
    requires Books(g, s) && s.phase == WritingLog(0) && s.blocks != []
    ensures Stops(g, s) <==> |s.blocks| == NBUF
  {
    if |s.blocks| == NBUF {
      assert g.size > 1;
      forall bufs: seq<Buf>, dev: nat, at: seq<int> | |bufs| == NBUF && Pinned(bufs, dev, s.blocks, at)
        ensures Starved(bufs, Key(dev, g.start + 1))
      {
        FullTransactionStarves(bufs, dev, s.blocks, at, Key(dev, g.start + 1));
      }
    } else {
      var bufs, at := Roomful(s.blocks), seq(|s.blocks|, i => i);
      assert Pinned(bufs, 1, s.blocks, at);
      assert Reusable(bufs[NBUF - 1]);
    }
  }

  // ---------------------------------------------------------------- how many blocks a run can log

  /** Operations that have passed the size test and not yet appended. */
  ghost function Checked(ops: seq<Op>): nat {
    if ops == [] then 0 else Checked(ops[..|ops| - 1]) + if ops[|ops| - 1].checked then 1 else 0
  }

  lemma {:induction false} CheckedAtMost(ops: seq<Op>)
    ensures Checked(ops) <= |ops|
  {
    if ops != [] { CheckedAtMost(ops[..|ops| - 1]); }
  }

  lemma {:induction false} CheckedChange(ops: seq<Op>, i: nat, op: Op)
    requires i < |ops|
    ensures Checked(ops[i := op]) + (if ops[i].checked then 1 else 0) == Checked(ops) + if op.checked then 1 else 0
  {
    var n := |ops| - 1;
    if i < n {
      assert ops[i := op][..n] == ops[..n][i := op];
      CheckedChange(ops[..n], i, op);
    } else {
      assert ops[i := op][..n] == ops[..n];
    }
  }

  lemma {:induction false} CheckedDrop(ops: seq<Op>, i: nat)
    requires i < |ops|
    ensures Checked(ops[..i] + ops[i + 1..]) <= Checked(ops)
  {
    var n := |ops| - 1;
    var rest := ops[..i] + ops[i + 1..];
    if i < n {
      CheckedDrop(ops[..n], i);
      assert rest[..n - 1] == ops[..n][..i] + ops[..n][i + 1..];
      assert rest[n - 1] == ops[n];
    } else {
      assert rest == ops[..n];
    }
  }

  /** Three operations at most, each with at most one append outstanding past the size test. */
  ghost predicate Tested(g: Geometry, s: State)
    requires g.start < |s.disk|
  {
    && |s.ops| <= 3
    && |s.blocks| + Checked(s.ops) <= g.size + 1
    && HeaderCount(s.disk[g.start]) <= g.size + 1
  }

  lemma TestedOps(g: Geometry, s: State, step: Step)
    requires Books(g, s) && Tested(g, s) && Enabled(g, s, step)
    requires step.BeginOp? || step.CheckSpace? || step.Append? || step.EndOp?
    ensures Tested(g, Apply(g, s, step))
  {
    var s' := Apply(g, s, step);
    CheckedAtMost(s'.ops);
    match step {
      case BeginOp => assert s'.ops[..|s.ops|] == s.ops;
      case CheckSpace(id) =>
      case Append(id, b, data) =>
        var i := IndexOf(s.ops, id);
        CheckedChange(s.ops, i, s'.ops[i]);
      case EndOp(id) => CheckedDrop(s.ops, IndexOf(s.ops, id));
    }
  }

  lemma TestedStep(g: Geometry, s: State, step: Step)
    requires Books(g, s) && Tested(g, s) && Enabled(g, s, step)
    ensures g.start < |Apply(g, s, step).disk| && Tested(g, Apply(g, s, step))
  {
    if step.BeginOp? || step.CheckSpace? || step.Append? || step.EndOp? {
      TestedOps(g, s, step);
    } else {
      HeaderRoundTrip(s.disk[g.start], s.blocks);
      HeaderRoundTrip(s.disk[g.start], []);
    }
  }

  /** The size test lets at most three blocks too many through, one for each operation. */
  lemma {:induction false} RunTested(g: Geometry, d: Disk, t: seq<Step>)
    requires GoodDisk(g, d) && Run(g, d, t).Some?
    ensures g.start < |Run(g, d, t).value.disk| && Tested(g, Run(g, d, t).value)
  {
    if t != [] {
      var t0 := t[..|t| - 1];
      RunTested(g, d, t0);
      RunKeepsBooks(g, d, t0);
      TestedStep(g, Run(g, d, t0).value, t[|t| - 1]);
    }
  }

  // ---------------------------------------------------------------- a run that fills the cache

  /** 27 entries and a more: of three operations, those before c have passed the size test, and
      those before a have then appended. */
  ghost predicate InTurn(g: Geometry, s: State, c: nat, a: nat) {
    && s.phase.Running? && |s.ops| == 3 && a <= c <= 3 && |s.blocks| == 27 + a
    && (forall k :: 0 <= k < 3 ==> s.ops[k] == Op(k, if k < a then 10 else 9, a <= k < c))
    && (forall k :: 0 <= k < 27 + a ==> s.blocks[k] == HomeBlock(g, k))
  }

  lemma PassOnce(g: Geometry, s: State, c: nat)
    requires Shaped(g, s) && g.size >= LOGSIZE - 1 && c < 3 && InTurn(g, s, c, 0)
    ensures Enabled(g, s, CheckSpace(c)) && InTurn(g, Apply(g, s, CheckSpace(c)), c + 1, 0)
  {
    IndexOfThree(s.ops);
  }

  lemma AppendOnce(g: Geometry, s: State, a: nat)
    requires Shaped(g, s) && g.ndisk >= g.size + LOGSIZE && a < 3 && InTurn(g, s, 3, a)
    ensures Enabled(g, s, Append(a, HomeBlock(g, 27 + a), Zero()))
    ensures InTurn(g, Apply(g, s, Append(a, HomeBlock(g, 27 + a), Zero())), 3, a + 1)
  {
    IndexOfThree(s.ops);
    Shares(g, s.blocks, 27 + a);
    hide HomeBlock;
    var s' := Apply(g, s, Append(a, HomeBlock(g, 27 + a), Zero()));
    assert s'.blocks == s.blocks + [HomeBlock(g, 27 + a)];
  }

  lemma {:induction false} TurnRun(g: Geometry, c: nat, a: nat) returns (t: seq<Step>)
    requires g.Valid() && g.ndisk >= g.size + LOGSIZE && g.size >= LOGSIZE - 1
    requires a <= c <= 3 && (a == 0 || c == 3)
    ensures GoodDisk(g, Blank(g)) && Run(g, Blank(g), t).Some? && InTurn(g, Run(g, Blank(g), t).value, c, a)
    decreases c + a
  {
    hide Run, GoodDisk, Books;
    var d := Blank(g);
    if a > 0 {
      t := TurnRun(g, c, a - 1);
      RunShaped(g, d, t);
      var step := Append(a - 1, HomeBlock(g, 26 + a), Zero());
      AppendOnce(g, Run(g, d, t).value, a - 1);
      Extend(g, d, t, step);
      t := t + [step];
    } else if c > 0 {
      t := TurnRun(g, c - 1, 0);
      RunShaped(g, d, t);
      PassOnce(g, Run(g, d, t).value, c - 1);
      Extend(g, d, t, CheckSpace(c - 1));
      t := t + [CheckSpace(c - 1)];
    } else {
      t := FillRun(g, 27);
    }
  }

  lemma RunShaped(g: Geometry, d: Disk, t: seq<Step>)
    requires GoodDisk(g, d) && Run(g, d, t).Some?
    ensures Shaped(g, Run(g, d, t).value)
  {
    RunKeepsBooks(g, d, t);
  }

  /** Three operations within their reservations bring the log to a commit that finds no buffer for
      its first log block: some run does if and only if the area has at least LOGSIZE - 1 blocks. */
  lemma CommitStarvesExact(g: Geometry)
    requires g.Valid() && g.ndisk >= g.size + LOGSIZE
    ensures CommitStarves(g) <==> g.size >= LOGSIZE - 1
  {
    hide Run, GoodDisk, Books, Stops, Tested;
    if g.size >= LOGSIZE - 1 {
      var t0 := TurnRun(g, 3, 3);
      var t := EndThree(g, Blank(g), t0);
      RunKeepsBooks(g, Blank(g), t);
      StopsExact(g, Run(g, Blank(g), t).value);
    } else if CommitStarves(g) {
      var d: Disk, t: seq<Step> :| GoodDisk(g, d) && Run(g, d, t).Some? && Stops(g, Run(g, d, t).value);
      RunKeepsBooks(g, d, t);
      RunTested(g, d, t);
      NeverFull(g, Run(g, d, t).value);
    }
  }

  lemma NeverFull(g: Geometry, s: State)
    requires Books(g, s) && Tested(g, s) && g.size < LOGSIZE - 1
    ensures !Stops(g, s)
  {
    if Stops(g, s) {
      StopsExact(g, s);
    }
  }
}
