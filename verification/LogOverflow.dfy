/**
 What the missing lock around log_write's size test costs. In a log area of at most LOGSIZE blocks
 two operations can pass the test one after the other and then both append, so that the log holds
 one block more than its area. If the area is smaller than the buffer cache, write_log then copies
 that block past the end of the area; otherwise the pinned buffers leave none to copy with, and the
 commit panics before it has stored anything. The log is crash safe exactly for the areas at least
 as large as the cache, for one without data blocks, and for one that ends with the device.
 */
module LogOverflow {
  import opened Basics
  import opened LogMachine
  import opened LogSafety
  import opened LogOperations
  import BufferList

  /** Over every run the logged blocks fit the log area. */
  ghost predicate StaysInside(g: Geometry) {
    forall d: Disk, t: seq<Step> ::
      GoodDisk(g, d) && Run(g, d, t).Some? ==> |Run(g, d, t).value.blocks| <= g.size - 1
  }

  /** Recovery after the run t gives home block b its durable contents. */
  ghost predicate Recovers(g: Geometry, d: Disk, t: seq<Step>, b: nat)
    requires GoodDisk(g, d) && Run(g, d, t).Some? && b < g.ndisk
  {
    var s := Run(g, d, t).value;
    GoodDisk(g, s.disk) && Recovered(g, s.disk, b) == Durable(g, d, t)[b]
  }

  ghost predicate CrashSafe(g: Geometry) {
    forall d: Disk, t: seq<Step>, b: nat ::
      GoodDisk(g, d) && Run(g, d, t).Some? && g.Home(b) ==> Recovers(g, d, t, b)
  }

  // ---------------------------------------------------------------- two tests, two appends

  /** The last block to be logged: in areas smaller than the cache not the one after the area, which
      write_log would then have to copy onto itself. */
  ghost function LastBlock(g: Geometry): nat
    requires g.size >= 1
  {
    HomeBlock(g, if g.size - 1 == g.start && g.size < BufferList.NBUF then g.size else g.size - 1)
  }

  /** One entry more than the area holds, the last of them dirty with ones; nothing on disk. */
  ghost predicate Overfull(g: Geometry, s: State) {
    && s.disk == Blank(g) && |s.blocks| == g.size >= 1
    && s.blocks[g.size - 1] == LastBlock(g)
    && LastBlock(g) in s.cache && s.cache[LastBlock(g)] == Ones()
  }

  ghost predicate ThreeOps(s: State) {
    && s.phase.Running? && |s.ops| == 3
    && forall k :: 0 <= k < 3 ==> s.ops[k].id == k && !s.ops[k].checked
  }

  /** With one entry left, operations m % 3 and (m + 1) % 3 both pass the test. */
  lemma BothPass(g: Geometry, s: State, m: nat)
    requires Shaped(g, s) && g.ndisk >= g.size + LOGSIZE && Filled(g, s, m) && m == g.size - 2 && g.size <= LOGSIZE
    ensures Enabled(g, s, CheckSpace(m % 3))
    ensures var s1 := Apply(g, s, CheckSpace(m % 3));
      && Shaped(g, s1) && Enabled(g, s1, CheckSpace((m + 1) % 3))
      && TwoChecked(g, Apply(g, s1, CheckSpace((m + 1) % 3)), m)
  {
    IndexOfThree(s.ops);
    var s1 := Apply(g, s, CheckSpace(m % 3));
    IndexOfThree(s1.ops);
  }

  ghost predicate TwoChecked(g: Geometry, s: State, m: nat) {
    && s.phase.Running? && s.disk == Blank(g) && |s.ops| == 3 && |s.blocks| == m
    && (forall k :: 0 <= k < 3 ==> s.ops[k] == Op(k, Share(m, k), k == m % 3 || k == (m + 1) % 3))
    && (forall k :: 0 <= k < m ==> s.blocks[k] == HomeBlock(g, k))
  }

  lemma FreshBlocks(g: Geometry, bs: seq<nat>, m: nat)
    requires g.Valid() && g.ndisk >= g.size + LOGSIZE && |bs| == m == g.size - 2 && g.size <= LOGSIZE
    requires forall k :: 0 <= k < m ==> bs[k] == HomeBlock(g, k)
    ensures HomeBlock(g, m) !in bs && LastBlock(g) !in bs && HomeBlock(g, m) != LastBlock(g)
    ensures g.Home(HomeBlock(g, m)) && g.Home(LastBlock(g))
  {
  }

  lemma BothAppend(g: Geometry, s: State, m: nat)
    requires Shaped(g, s) && g.ndisk >= g.size + LOGSIZE && TwoChecked(g, s, m) && m == g.size - 2 && g.size <= LOGSIZE
    ensures Enabled(g, s, FillAppend(g, m))
    ensures var last := Append((m + 1) % 3, LastBlock(g), Ones());
      var s1 := Apply(g, s, FillAppend(g, m));
      && Shaped(g, s1) && Enabled(g, s1, last)
      && Overfull(g, Apply(g, s1, last)) && ThreeOps(Apply(g, s1, last))
  {
    var i, j := m % 3, (m + 1) % 3;
    assert i != j && s.ops[i].checked && s.ops[j].checked;
    assert s.ops[i].used < MAXOPBLOCKS && s.ops[j].used < MAXOPBLOCKS;
    FreshBlocks(g, s.blocks, m);
    hide Share, HomeBlock, LastBlock;
    IndexOfThree(s.ops);
    var s1 := Apply(g, s, FillAppend(g, m));
    IndexOfThree(s1.ops);
    assert s1.blocks == s.blocks + [HomeBlock(g, m)] && s1.ops[j] == s.ops[j];
  }

  lemma OverfullRun(g: Geometry) returns (t: seq<Step>)
    requires g.Valid() && g.ndisk >= g.size + LOGSIZE && 2 <= g.size <= LOGSIZE
    ensures GoodDisk(g, Blank(g)) && Run(g, Blank(g), t).Some?
    ensures Overfull(g, Run(g, Blank(g), t).value) && ThreeOps(Run(g, Blank(g), t).value)
    ensures forall k :: 0 <= k < |t| ==> !t[k].WriteHeader?
  {
    hide Run, GoodDisk, Filled, TwoChecked, Overfull, ThreeOps, Enabled, Apply;
    var m := g.size - 2;
    var d := Blank(g);
    t := FillRun(g, m);
    RunKeepsBooks(g, d, t);
    BothPass(g, Run(g, d, t).value, m);
    Extend(g, d, t, CheckSpace(m % 3));
    t := t + [CheckSpace(m % 3)];
    Extend(g, d, t, CheckSpace((m + 1) % 3));
    t := t + [CheckSpace((m + 1) % 3)];
    RunKeepsBooks(g, d, t);
    BothAppend(g, Run(g, d, t).value, m);
    Extend(g, d, t, FillAppend(g, m));
    t := t + [FillAppend(g, m)];
    var last := Append((m + 1) % 3, LastBlock(g), Ones());
    Extend(g, d, t, last);
    t := t + [last];
  }

  /** Every run keeps the logged blocks inside the log area if and only if it is roomy. */
  lemma SpaceExact(g: Geometry)
    requires g.Valid() && g.ndisk >= g.size + LOGSIZE
    ensures StaysInside(g) <==> Roomy(g)
  {
    if Roomy(g) {
      forall d: Disk, t: seq<Step> | GoodDisk(g, d) && Run(g, d, t).Some?
        ensures |Run(g, d, t).value.blocks| <= g.size - 1
      {
        RoomyHolds(g, d, t);
      }
    } else {
      var t := OverfullRun(g);
      assert |Run(g, Blank(g), t).value.blocks| == g.size;
    }
  }

  // ---------------------------------------------------------------- a lock around the test

  /** At most one operation is between its test and its append. */
  ghost predicate OneChecked(s: State) {
    forall i, j :: 0 <= i < j < |s.ops| ==> !(s.ops[i].checked && s.ops[j].checked)
  }

  /** What the test found still holds for the one operation that passed it. */
  ghost predicate TestHolds(g: Geometry, s: State) {
    forall i :: 0 <= i < |s.ops| && s.ops[i].checked ==> |s.blocks| < g.size - 1
  }

  /** The run never lets two operations past the test at once, as if the lock covered it. */
  ghost predicate Locked(g: Geometry, d: Disk, t: seq<Step>) {
    Run(g, d, t).Some? && OneChecked(Run(g, d, t).value) && (t == [] || Locked(g, d, t[..|t| - 1]))
  }

  lemma LockedStep(g: Geometry, s: State, step: Step)
    requires Books(g, s) && |s.blocks| < g.size && GoodDisk(g, s.disk) && TestHolds(g, s) && OneChecked(s)
    requires Enabled(g, s, step) && OneChecked(Apply(g, s, step))
    ensures |Apply(g, s, step).blocks| < g.size && TestHolds(g, Apply(g, s, step))
  {
    var s' := Apply(g, s, step);
    match step {
      case BeginOp => assert forall i :: 0 <= i < |s.ops| ==> s'.ops[i] == s.ops[i];
      case CheckSpace(id) =>
      case Append(id, b, _) =>
        var i := IndexOf(s.ops, id);
        assert forall k :: 0 <= k < |s'.ops| && k != i ==> s'.ops[k] == s.ops[k];
      case EndOp(id) =>
        var i := IndexOf(s.ops, id);
        assert forall k :: 0 <= k < |s'.ops| ==> s'.ops[k] == s.ops[if k < i then k else k + 1];
      case _ =>
    }
  }

  /** With the test under the lock every run fits the log area, whatever its size. */
  lemma {:induction false} LockedFits(g: Geometry, d: Disk, t: seq<Step>)
    requires GoodDisk(g, d) && Locked(g, d, t)
    ensures |Run(g, d, t).value.blocks| < g.size && Fits(g, d, t) && TestHolds(g, Run(g, d, t).value)
  {
    if t != [] {
      var t0, step := t[..|t| - 1], t[|t| - 1];
      LockedFits(g, d, t0);
      RunKeepsBooks(g, d, t0);
      RunIsTracked(g, d, t0);
      LockedStep(g, Run(g, d, t0).value, step);
    }
  }

  // ---------------------------------------------------------------- the copy outside the area

  /** Ending the three operations starts the commit. */
  lemma EndThree(g: Geometry, d: Disk, t: seq<Step>) returns (t': seq<Step>)
    requires GoodDisk(g, d) && Run(g, d, t).Some? && ThreeOps(Run(g, d, t).value)
    ensures Run(g, d, t').Some? && t <= t' && |t'| == |t| + 3
    ensures forall k :: |t| <= k < |t'| ==> t'[k].EndOp?
    ensures Run(g, d, t').value == Run(g, d, t).value.(ops := [], phase := WritingLog(0))
  {
    hide Run, GoodDisk, Shaped;
    var s := Run(g, d, t).value;
    IndexOfThree(s.ops);
    Extend(g, d, t, EndOp(2));
    var s1 := Apply(g, s, EndOp(2));
    assert s1.ops == s.ops[..2];
    assert IndexOf(s1.ops, 1) == 1;
    var t1 := t + [EndOp(2)];
    Extend(g, d, t1, EndOp(1));
    var s2 := Apply(g, s1, EndOp(1));
    assert s2.ops == s.ops[..1];
    assert IndexOf(s2.ops, 0) == 0;
    var t2 := t1 + [EndOp(1)];
    Extend(g, d, t2, EndOp(0));
    t' := t2 + [EndOp(0)];
  }

  /** k turns of write_log change the disk past the header only. */
  lemma {:induction false} CopyRun(g: Geometry, d: Disk, t: seq<Step>, k: nat) returns (t': seq<Step>)
    requires GoodDisk(g, d) && Run(g, d, t).Some?
    requires var s := Run(g, d, t).value;
      && s.phase == WritingLog(0) && k <= |s.blocks| < BufferList.NBUF && k <= g.size
      && g.start + k < g.ndisk && g.start < |s.disk|
      && forall j :: 0 <= j < k ==> s.blocks[j] != g.start + 1 + j
    ensures Run(g, d, t').Some? && t <= t' && |t'| == |t| + k
    ensures forall j :: |t| <= j < |t'| ==> t'[j].WriteLogBlock?
    ensures var s, s' := Run(g, d, t).value, Run(g, d, t').value;
      && s' == s.(phase := WritingLog(k), disk := s'.disk, cache := s'.cache)
      && (forall b :: b in s.cache && g.Home(b) && k < g.size ==> b in s'.cache && s'.cache[b] == s.cache[b])
      && |s'.disk| == g.ndisk && s'.disk[g.start] == s.disk[g.start]
      && (k > 0 ==> s.blocks[k - 1] in s.cache ==> s'.disk[g.start + k] == s.cache[s.blocks[k - 1]])
  {
    hide Run, GoodDisk;
    RunKeepsBooks(g, d, t);
    if k == 0 {
      t' := t;
    } else {
      var t0 := CopyRun(g, d, t, k - 1);
      RunKeepsBooks(g, d, t0);
      Extend(g, d, t0, WriteLogBlock);
      t' := t0 + [WriteLogBlock];
    }
  }

  /** Without a header write nothing becomes durable. */
  lemma {:induction false} NothingDurable(t: seq<Step>)
    requires forall k :: 0 <= k < |t| ==> !t[k].WriteHeader?
    ensures Tally(t).durable == []
  {
    if t != [] {
      NothingDurable(t[..|t| - 1]);
    }
  }

  lemma BlankRecovers(g: Geometry, d: Disk, b: nat)
    requires g.Valid() && |d| == g.ndisk && d[g.start] == Zero() && b < g.ndisk
    ensures GoodDisk(g, d) && Recovered(g, d, b) == d[b] == RecoveredDisk(g, d)[b]
  {
    assert HeaderBlocks(Zero()) == [];
  }

  /** The run whose last log copy replaces the block after the log area. */
  lemma CopyOutside(g: Geometry) returns (t: seq<Step>)
    requires g.Valid() && g.ndisk >= g.size + LOGSIZE && !Guarded(g)
    ensures GoodDisk(g, Blank(g)) && Run(g, Blank(g), t).Some?
    ensures var s, b := Run(g, Blank(g), t).value, g.start + g.size;
      && g.Home(b) && GoodDisk(g, s.disk) && Recovered(g, s.disk, b) == Ones()
      && Durable(g, Blank(g), t)[b] == Zero()
  {
    hide Run, ThreeOps, Tally;
    var d := Blank(g);
    var t0 := OverfullRun(g);
    var t1 := EndThree(g, d, t0);
    RunKeepsBooks(g, d, t1);
    t := CopyRun(g, d, t1, g.size);
    NothingDurable(t);
    BlankRecovers(g, Run(g, d, t).value.disk, g.start + g.size);
    BlankRecovers(g, d, g.start + g.size);
  }

  /** The log is crash safe if and only if its area is guarded. */
  lemma CrashSafeExact(g: Geometry)
    requires g.Valid() && g.ndisk >= g.size + LOGSIZE
    ensures CrashSafe(g) <==> Guarded(g)
  {
    if Guarded(g) {
      forall d: Disk, t: seq<Step>, b: nat | GoodDisk(g, d) && Run(g, d, t).Some? && g.Home(b)
        ensures Recovers(g, d, t, b)
      {
        GuardedFits(g, d, t);
        CrashSafety(g, d, t, b);
      }
    } else {
      var t := CopyOutside(g);
      assert Zero()[0] != Ones()[0];
      assert !Recovers(g, Blank(g), t, g.start + g.size);
    }
  }
}
