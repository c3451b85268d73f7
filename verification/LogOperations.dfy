/** What the log promises to a single file system operation. */
module LogOperations {
  import opened Basics
  import opened LogMachine
  import opened LogSafety

  // ---------------------------------------------------------------- log space

  /** While an operation is outstanding no commit is in progress, so end_op's panic cannot
      happen; header entries are distinct; and entries plus unused reservations fit the log. */
  lemma ReservationHolds(g: Geometry, d: Disk, t: seq<Step>)
    requires GoodDisk(g, d) && Run(g, d, t).Some?
    ensures var s := Run(g, d, t).value;
            && (s.ops != [] ==> s.phase.Running? && !Committing(s))
            && Distinct(s.blocks)
            && |s.blocks| + Unused(s.ops) <= LOGSIZE
            && (forall i :: 0 <= i < |s.ops| && s.ops[i].used < MAXOPBLOCKS ==> |s.blocks| < LOGSIZE)
  {
    RunKeepsBooks(g, d, t);
    var s := Run(g, d, t).value;
    forall i | 0 <= i < |s.ops| && s.ops[i].used < MAXOPBLOCKS ensures |s.blocks| < LOGSIZE {
      UnusedCovers(s.ops, i);
    }
  }

  // ---------------------------------------------------------------- whom begin_op admits

  ghost function Sum(ws: seq<nat>): nat {
    if ws == [] then 0 else Sum(ws[..|ws| - 1]) + ws[|ws| - 1]
  }

  /** However many new blocks the new operation and every open one still log, each within the limit
      for one operation, the header holds them all. */
  ghost predicate RoomForAll(s: State) {
    forall wants: seq<nat> :: |wants| == |s.ops| + 1 && (forall i :: 0 <= i < |wants| ==> wants[i] <= MAXOPBLOCKS)
      ==> |s.blocks| + Sum(wants) <= LOGSIZE
  }

  lemma {:induction false} SumBound(ws: seq<nat>)
    requires forall i :: 0 <= i < |ws| ==> ws[i] <= MAXOPBLOCKS
    ensures Sum(ws) <= |ws| * MAXOPBLOCKS
    ensures (forall i :: 0 <= i < |ws| ==> ws[i] == MAXOPBLOCKS) ==> Sum(ws) == |ws| * MAXOPBLOCKS
  {
    if ws != [] { SumBound(ws[..|ws| - 1]); }
  }

  lemma RoomExact(s: State)
    ensures RoomForAll(s) <==> |s.blocks| + (|s.ops| + 1) * MAXOPBLOCKS <= LOGSIZE
  {
    var full: seq<nat> := seq(|s.ops| + 1, _ => MAXOPBLOCKS);
    SumBound(full);
    if !RoomForAll(s) {
      var wants: seq<nat> :| |wants| == |s.ops| + 1 && (forall i :: 0 <= i < |wants| ==> wants[i] <= MAXOPBLOCKS)
        && |s.blocks| + Sum(wants) > LOGSIZE;
      SumBound(wants);
    } else {
      assert |s.blocks| + Sum(full) <= LOGSIZE;
    }
  }

  /** While nothing commits an operation is admitted exactly when the header has room for all. */
  lemma BeginExact(g: Geometry, d: Disk, t: seq<Step>)
    requires GoodDisk(g, d) && Run(g, d, t).Some? && Run(g, d, t).value.phase.Running?
    ensures Run(g, d, t + [BeginOp]).Some? <==> RoomForAll(Run(g, d, t).value)
  {
    var s := Run(g, d, t).value;
    RunKeepsBooks(g, d, t);
    assert (t + [BeginOp])[..|t|] == t;
    hide RoomForAll, Books;
    RoomExact(s);
  }

  /** m entries, all of the first of k operations. */
  ghost predicate Joined(g: Geometry, s: State, m: nat, k: nat) {
    && s.phase.Running? && |s.blocks| == m && |s.ops| == k && s.disk == Blank(g)
    && (forall i :: 0 <= i < k ==> s.ops[i] == Op(i, if i == 0 then m else 0, false))
    && s.nextId == k
    && (forall i :: 0 <= i < m ==> s.blocks[i] == HomeBlock(g, i))
  }

  lemma JoinAppend(g: Geometry, s: State, m: nat)
    requires Shaped(g, s) && g.ndisk >= g.size + LOGSIZE && Joined(g, s, m, 1) && m < MAXOPBLOCKS && m < g.size - 1
    ensures Enabled(g, s, CheckSpace(0))
    ensures var mid, last := Apply(g, s, CheckSpace(0)), Append(0, HomeBlock(g, m), Zero());
      Shaped(g, mid) && Enabled(g, mid, last) && Joined(g, Apply(g, mid, last), m + 1, 1)
  {
    Shares(g, s.blocks, m);
    hide HomeBlock;
    var mid := Apply(g, s, CheckSpace(0));
    var s' := Apply(g, mid, Append(0, HomeBlock(g, m), Zero()));
    assert s'.blocks == s.blocks + [HomeBlock(g, m)];
  }

  /** Every combination that leaves room is reached by a run, and the run goes on with a new
      operation: one joins a group that others have already logged blocks for. */
  lemma {:induction false} JoinRun(g: Geometry, m: nat, k: nat) returns (t: seq<Step>)
    requires g.Valid() && g.ndisk >= g.size + LOGSIZE && m <= g.size - 1
    requires m + (k + 1) * MAXOPBLOCKS <= LOGSIZE && (k == 0 ==> m == 0)
    ensures GoodDisk(g, Blank(g)) && Run(g, Blank(g), t).Some? && Joined(g, Run(g, Blank(g), t).value, m, k)
    ensures Run(g, Blank(g), t + [BeginOp]).Some?
    ensures var s, s' := Run(g, Blank(g), t).value, Run(g, Blank(g), t + [BeginOp]).value;
      s'.ops == s.ops + [Op(s.nextId, 0, false)] && s'.blocks == s.blocks
    decreases m, k
  {
    hide Run, GoodDisk, Books, HomeBlock;
    var d := Blank(g);
    if k == 0 {
      BootRun(g);
      t := [ReadHeader, ClearHeader];
    } else if m == 0 {
      var t0 := JoinRun(g, 0, k - 1);
      t := t0 + [BeginOp];
      Extend(g, d, t0, BeginOp);
    } else {
      var t0 := JoinRun(g, m - 1, k);
      RunKeepsBooks(g, d, t0);
      BooksShaped(g, Run(g, d, t0).value);
      JoinAppend(g, Run(g, d, t0).value, m - 1);
      var last := Append(0, HomeBlock(g, m - 1), Zero());
      Extend(g, d, t0, CheckSpace(0));
      Extend(g, d, t0 + [CheckSpace(0)], last);
      t := t0 + [CheckSpace(0)] + [last];
    }
    Extend(g, d, t, BeginOp);
  }

  // ---------------------------------------------------------------- the size guard of log_write

  /** No run brings an operation that still has room in its allowance to "too big a transaction". */
  ghost predicate GuardUnreachable(g: Geometry) {
    forall d: Disk, t: seq<Step>, id: nat ::
      GoodDisk(g, d) && Run(g, d, t).Some? && Charged(Run(g, d, t).value, id)
      ==> !TooBig(g, Run(g, d, t).value)
  }

  ghost predicate Charged(s: State, id: nat) {
    IndexOf(s.ops, id) >= 0 && s.ops[IndexOf(s.ops, id)].used < MAXOPBLOCKS
  }

  function Zero(): Block { seq(WORDS, _ => 0) }

  function Ones(): Block { seq(WORDS, _ => 1) }

  ghost function Blank(g: Geometry): Disk { seq(g.ndisk, _ => Zero()) }

  /** The k-th block outside the log area. */
  ghost function HomeBlock(g: Geometry, k: nat): nat {
    if k < g.start then k else k + g.size
  }

  /** Of m entries appended by three operations in turn, how many are operation op's. */
  ghost function Share(m: nat, op: nat): nat
    requires op < 3
  {
    (m + 2 - op) / 3
  }

  /** m entries appended by three operations in turn; nothing on disk yet. */
  ghost predicate Filled(g: Geometry, s: State, m: nat) {
    && s.phase.Running? && s.disk == Blank(g)
    && s.ops == [Op(0, Share(m, 0), false), Op(1, Share(m, 1), false), Op(2, Share(m, 2), false)]
    && |s.blocks| == m
    && forall k :: 0 <= k < m ==> s.blocks[k] == HomeBlock(g, k)
  }

  lemma Extend(g: Geometry, d: Disk, t: seq<Step>, step: Step)
    requires GoodDisk(g, d) && Run(g, d, t).Some? && Enabled(g, Run(g, d, t).value, step)
    ensures Shaped(g, Run(g, d, t).value)
    ensures Run(g, d, t + [step]) == Some(Apply(g, Run(g, d, t).value, step))
  {
    RunKeepsBooks(g, d, t);
    assert (t + [step])[..|t|] == t;
  }

  ghost predicate Idle(g: Geometry, s: State, ops: seq<Op>) {
    s.phase.Running? && s.blocks == [] && s.ops == ops && s.nextId == |ops| && s.disk == Blank(g)
  }

  lemma BootRun(g: Geometry)
    requires g.Valid()
    ensures GoodDisk(g, Blank(g)) && Run(g, Blank(g), [ReadHeader, ClearHeader]).Some?
    ensures Idle(g, Run(g, Blank(g), [ReadHeader, ClearHeader]).value, [])
  {
    BlankIsGood(g);
    assert Run(g, Blank(g), []) == Some(Boot(Blank(g)));
    hide Run, GoodDisk, Books, EncodeHeader;
    Extend(g, Blank(g), [], ReadHeader);
    assert [] + [ReadHeader] == [ReadHeader];
    Extend(g, Blank(g), [ReadHeader], ClearHeader);
    assert [ReadHeader] + [ClearHeader] == [ReadHeader, ClearHeader];
    assert Blank(g)[g.start := Zero()] == Blank(g);
  }

  lemma BlankIsGood(g: Geometry)
    requires g.Valid()
    ensures GoodDisk(g, Blank(g)) && HeaderBlocks(Zero()) == [] && EncodeHeader(Zero(), []) == Zero()
  {
  }

  lemma BeginOnce(g: Geometry, d: Disk, t: seq<Step>, ops: seq<Op>)
    requires GoodDisk(g, d) && Run(g, d, t).Some? && Idle(g, Run(g, d, t).value, ops) && |ops| < 3
    ensures Run(g, d, t + [BeginOp]).Some?
    ensures Idle(g, Run(g, d, t + [BeginOp]).value, ops + [Op(|ops|, 0, false)])
  {
    Extend(g, d, t, BeginOp);
  }

  lemma StartRun(g: Geometry) returns (t: seq<Step>)
    requires g.Valid()
    ensures GoodDisk(g, Blank(g)) && Run(g, Blank(g), t).Some? && Filled(g, Run(g, Blank(g), t).value, 0)
    ensures forall k :: 0 <= k < |t| ==> !t[k].WriteHeader?
  {
    hide Run, GoodDisk;
    BootRun(g);
    t := [ReadHeader, ClearHeader];
    BeginOnce(g, Blank(g), t, []);
    t := t + [BeginOp];
    BeginOnce(g, Blank(g), t, [Op(0, 0, false)]);
    t := t + [BeginOp];
    BeginOnce(g, Blank(g), t, [Op(0, 0, false), Op(1, 0, false)]);
    t := t + [BeginOp];
  }

  lemma IndexOfThree(ops: seq<Op>)
    requires |ops| == 3 && ops[0].id == 0 && ops[1].id == 1 && ops[2].id == 2
    ensures IndexOf(ops, 0) == 0 && IndexOf(ops, 1) == 1 && IndexOf(ops, 2) == 2
  {
  }

  /** Entry m comes from operation m % 3, which passes the size test and then appends. */
  ghost function FillAppend(g: Geometry, m: nat): Step {
    Append(m % 3, HomeBlock(g, m), Zero())
  }

  lemma Shares(g: Geometry, bs: seq<nat>, m: nat)
    requires g.Valid() && g.ndisk >= g.size + LOGSIZE && |bs| == m < LOGSIZE
    requires forall k :: 0 <= k < m ==> bs[k] == HomeBlock(g, k)
    ensures HomeBlock(g, m) !in bs && g.Home(HomeBlock(g, m))
    ensures Share(m + 1, m % 3) == Share(m, m % 3) + 1 <= MAXOPBLOCKS
    ensures forall k :: 0 <= k < 3 && k != m % 3 ==> Share(m + 1, k) == Share(m, k)
  {
  }

  lemma FillOnce(g: Geometry, s: State, m: nat)
    requires Shaped(g, s) && g.ndisk >= g.size + LOGSIZE && Filled(g, s, m)
    requires m < LOGSIZE && m < g.size - 1
    ensures Enabled(g, s, CheckSpace(m % 3))
    ensures var mid := Apply(g, s, CheckSpace(m % 3));
      Shaped(g, mid) && Enabled(g, mid, FillAppend(g, m)) && Filled(g, Apply(g, mid, FillAppend(g, m)), m + 1)
  {
    hide Share, HomeBlock;
    Shares(g, s.blocks, m);
    IndexOfThree(s.ops);
    var i := m % 3;
    assert i == 0 || i == 1 || i == 2;
    var mid := Apply(g, s, CheckSpace(i));
    IndexOfThree(mid.ops);
    var s' := Apply(g, mid, FillAppend(g, m));
    assert s'.blocks == s.blocks + [HomeBlock(g, m)];
  }

  lemma {:induction false} FillRun(g: Geometry, m: nat) returns (t: seq<Step>)
    requires g.Valid() && g.ndisk >= g.size + LOGSIZE
    requires m <= LOGSIZE && m <= g.size - 1
    ensures GoodDisk(g, Blank(g)) && Run(g, Blank(g), t).Some? && Filled(g, Run(g, Blank(g), t).value, m)
    ensures forall k :: 0 <= k < |t| ==> !t[k].WriteHeader?
  {
    hide Run, Filled, GoodDisk, Enabled, Apply, Books, FillAppend;
    if m == 0 {
      t := StartRun(g);
    } else {
      t := FillRun(g, m - 1);
      RunKeepsBooks(g, Blank(g), t);
      BooksShaped(g, Run(g, Blank(g), t).value);
      FillOnce(g, Run(g, Blank(g), t).value, m - 1);
      Extend(g, Blank(g), t, CheckSpace((m - 1) % 3));
      t := t + [CheckSpace((m - 1) % 3)];
      Extend(g, Blank(g), t, FillAppend(g, m - 1));
      t := t + [FillAppend(g, m - 1)];
      assert !FillAppend(g, m - 1).WriteHeader? by { AppendIsAppend(g, m - 1); }
    }
  }

  lemma BooksShaped(g: Geometry, s: State)
    requires Books(g, s)
    ensures Shaped(g, s)
  {
  }

  lemma AppendIsAppend(g: Geometry, m: nat)
    ensures FillAppend(g, m).Append?
  {
  }

  lemma GuardReached(g: Geometry) returns (t: seq<Step>)
    requires g.Valid() && g.ndisk >= g.size + LOGSIZE && g.size <= LOGSIZE
    ensures GoodDisk(g, Blank(g)) && Run(g, Blank(g), t).Some?
    ensures var s := Run(g, Blank(g), t).value; Charged(s, (g.size - 1) % 3) && TooBig(g, s)
  {
    hide Run, GoodDisk;
    t := FillRun(g, g.size - 1);
    IndexOfThree(Run(g, Blank(g), t).value.ops);
  }

  /** The log area must hold LOGSIZE blocks besides its header; with mkfs's nlog = LOGSIZE it
      does not, and a run of three well-behaved operations panics. */
  lemma GuardExact(g: Geometry)
    requires g.Valid() && g.ndisk >= g.size + LOGSIZE
    ensures GuardUnreachable(g) <==> g.size > LOGSIZE
  {
    hide Run, GoodDisk;
    if g.size > LOGSIZE {
      forall d: Disk, t: seq<Step>, id: nat
        | GoodDisk(g, d) && Run(g, d, t).Some? && Charged(Run(g, d, t).value, id)
        ensures !TooBig(g, Run(g, d, t).value)
      {
        ReservationHolds(g, d, t);
        var s := Run(g, d, t).value;
        assert s.ops[IndexOf(s.ops, id)].used < MAXOPBLOCKS;
      }
    } else {
      var t := GuardReached(g);
    }
  }

  /** Even with room for the whole log, a write absorbed into an existing entry panics once
      the log is exactly full, although it needs no space. */
  lemma AbsorbedWriteCanPanic(g: Geometry) returns (t: seq<Step>, b: nat)
    requires g.Valid() && g.ndisk >= g.size + LOGSIZE && g.size > LOGSIZE
    ensures GoodDisk(g, Blank(g)) && Run(g, Blank(g), t).Some?
    ensures var s := Run(g, Blank(g), t).value;
            b in s.blocks && MayLog(g, s, 0, b) && TooBig(g, s)
  {
    t := FillRun(g, LOGSIZE);
    var s := Run(g, Blank(g), t).value;
    IndexOfThree(s.ops);
    b := s.blocks[0];
  }

  // ---------------------------------------------------------------- all or nothing

  ghost function WritesOf(ws: seq<Write>, id: nat): seq<Write> {
    if ws == [] then []
    else WritesOf(ws[..|ws| - 1], id) + if ws[|ws| - 1].id == id then [ws[|ws| - 1]] else []
  }

  /** Every write the operation ever logged, in order. */
  ghost function Issued(t: seq<Step>, id: nat): seq<Write> {
    if t == [] then []
    else
      Issued(t[..|t| - 1], id) +
      match t[|t| - 1]
      case Append(i, b, data) => if i == id then [Write(i, b, data)] else []
      case _ => []
  }

  lemma {:induction false} WritesOfConcat(ws: seq<Write>, vs: seq<Write>, id: nat)
    ensures WritesOf(ws + vs, id) == WritesOf(ws, id) + WritesOf(vs, id)
  {
    if vs == [] {
      assert ws + vs == ws;
    } else {
      var n := |vs| - 1;
      assert (ws + vs)[..|ws| + n] == ws + vs[..n];
      WritesOfConcat(ws, vs[..n], id);
    }
  }

  ghost predicate Outstanding(s: State, id: nat) {
    exists k :: 0 <= k < |s.ops| && s.ops[k].id == id
  }

  ghost predicate IdsUnique(s: State) {
    && (forall j, k :: 0 <= j < k < |s.ops| ==> s.ops[j].id != s.ops[k].id)
    && (forall k :: 0 <= k < |s.ops| ==> s.ops[k].id < s.nextId)
  }

  /** Where the writes of an operation can be: not yet durable, all durable, or all dropped. */
  ghost predicate Fate(t: seq<Step>, s: State, id: nat) {
    var durable, pending := WritesOf(Tally(t).durable, id), WritesOf(Tally(t).pending, id);
    var all := Issued(t, id);
    && (id >= s.nextId ==> all == [])
    && (Outstanding(s, id) ==> durable == [] && pending == all)
    && (!Outstanding(s, id) ==>
         || (durable == [] && pending == [])
         || (durable == [] && pending == all && EndOp(id) in t)
         || (durable == all && pending == [] && EndOp(id) in t))
  }

  lemma IdsStayUnique(g: Geometry, s: State, step: Step)
    requires Shaped(g, s) && Enabled(g, s, step) && IdsUnique(s)
    ensures IdsUnique(Apply(g, s, step))
  {
    var s' := Apply(g, s, step);
    if step.Append? || step.CheckSpace? {
      assert |s'.ops| == |s.ops| && forall k :: 0 <= k < |s.ops| ==> s'.ops[k].id == s.ops[k].id;
    }
  }

  lemma EndedIsGone(ops: seq<Op>, i: nat, id: nat)
    requires i < |ops| && forall j, k :: 0 <= j < k < |ops| ==> ops[j].id != ops[k].id
    ensures var rest := ops[..i] + ops[i + 1..];
            (exists k :: 0 <= k < |rest| && rest[k].id == id) <==>
            id != ops[i].id && exists k :: 0 <= k < |ops| && ops[k].id == id
  {
    var rest := ops[..i] + ops[i + 1..];
    if k :| 0 <= k < |rest| && rest[k].id == id {
      assert rest[k] == ops[if k < i then k else k + 1];
    }
    if k :| 0 <= k < |ops| && ops[k].id == id && k != i {
      assert rest[if k < i then k else k - 1] == ops[k];
    }
  }

  lemma OutstandingAfter(g: Geometry, s: State, step: Step, id: nat)
    requires Shaped(g, s) && Enabled(g, s, step) && IdsUnique(s)
    ensures Outstanding(Apply(g, s, step), id) <==>
              !step.Crash? && step != EndOp(id) &&
              (Outstanding(s, id) || (step.BeginOp? && id == s.nextId))
  {
    var s' := Apply(g, s, step);
    match step {
      case BeginOp =>
        assert s'.ops[|s.ops|].id == s.nextId;
        assert forall k :: 0 <= k < |s.ops| ==> s'.ops[k] == s.ops[k];
      case EndOp(e) => EndedIsGone(s.ops, IndexOf(s.ops, e), id);
      case CheckSpace(_) =>
        assert |s'.ops| == |s.ops| && forall k :: 0 <= k < |s.ops| ==> s'.ops[k].id == s.ops[k].id;
      case Append(_, _, _) =>
        assert |s'.ops| == |s.ops| && forall k :: 0 <= k < |s.ops| ==> s'.ops[k].id == s.ops[k].id;
      case _ =>
    }
  }

  lemma StepFacts(g: Geometry, s: State, step: Step)
    requires Books(g, s) && Enabled(g, s, step) && IdsUnique(s)
    ensures Apply(g, s, step).nextId == s.nextId + if step.BeginOp? then 1 else 0
    ensures step.WriteHeader? ==> forall id: nat :: !Outstanding(s, id)
    ensures step.Append? ==> Outstanding(s, step.id)
    ensures forall id: nat :: Outstanding(s, id) ==> id < s.nextId
  {
    hide Shaped, Listable, Reserved;
    if step.Append? {
      assert s.ops[IndexOf(s.ops, step.id)].id == step.id;
    }
    assert step.WriteHeader? ==> s.ops == [] by { IdleCommit(g, s); }
  }

  lemma IdleCommit(g: Geometry, s: State)
    requires Books(g, s)
    ensures !s.phase.Running? ==> s.ops == []
  {
  }

  /** What one step adds to the durable, the pending and all writes of operation id. */
  lemma LedgerAfter(t: seq<Step>, step: Step, id: nat)
    ensures var durable, pending := WritesOf(Tally(t).durable, id), WritesOf(Tally(t).pending, id);
      var durable', pending' := WritesOf(Tally(t + [step]).durable, id), WritesOf(Tally(t + [step]).pending, id);
      var own := if step.Append? && step.id == id then [Write(id, step.b, step.data)] else [];
      && Issued(t + [step], id) == Issued(t, id) + own
      && durable' == durable + (if step.WriteHeader? then pending else [])
      && pending' == (if step.WriteHeader? || step.Crash? then [] else pending) + own
  {
    var t' := t + [step];
    assert t'[..|t|] == t;
    var a := Tally(t);
    match step {
      case Append(i, b, data) =>
        assert (a.pending + [Write(i, b, data)])[..|a.pending|] == a.pending;
      case WriteHeader =>
        WritesOfConcat(a.durable, a.pending, id);
      case _ =>
    }
  }

  lemma FateAfter(g: Geometry, t: seq<Step>, s: State, step: Step, id: nat)
    requires Books(g, s) && Enabled(g, s, step) && IdsUnique(s) && Fate(t, s, id)
    ensures Fate(t + [step], Apply(g, s, step), id)
  {
    hide Books, Enabled, Apply, IdsUnique, Outstanding, Tally, WritesOf, Issued;
    BooksShaped(g, s);
    OutstandingAfter(g, s, step, id);
    StepFacts(g, s, step);
    LedgerAfter(t, step, id);
    assert EndOp(id) in t + [step] <==> EndOp(id) in t || step == EndOp(id);
  }

  lemma {:induction false} FateOverRun(g: Geometry, d: Disk, t: seq<Step>, id: nat)
    requires GoodDisk(g, d) && Run(g, d, t).Some?
    ensures IdsUnique(Run(g, d, t).value) && Fate(t, Run(g, d, t).value, id)
  {
    if t != [] {
      var t0, step := t[..|t| - 1], t[|t| - 1];
      assert t == t0 + [step];
      FateOverRun(g, d, t0, id);
      RunKeepsBooks(g, d, t0);
      IdsStayUnique(g, Run(g, d, t0).value, step);
      FateAfter(g, t0, Run(g, d, t0).value, step, id);
    }
  }

  /** An operation is durable as a whole or not at all, and only after its end_op. */
  lemma AllOrNothing(g: Geometry, d: Disk, t: seq<Step>, id: nat)
    requires GoodDisk(g, d) && Run(g, d, t).Some?
    ensures var durable := WritesOf(Tally(t).durable, id);
            durable == [] || (durable == Issued(t, id) && EndOp(id) in t)
  {
    FateOverRun(g, d, t, id);
  }
}
