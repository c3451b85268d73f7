/** Crash safety and group atomicity of the redo log, over all runs of LogMachine. */
module LogSafety {
  import opened Basics
  import opened LogMachine
  import BufferList

  // ---------------------------------------------------------------- reservations

  /** Header entries the outstanding operations may still append. */
  ghost function Unused(ops: seq<Op>): int {
    if ops == [] then 0
    else Unused(ops[..|ops| - 1]) + MAXOPBLOCKS - ops[|ops| - 1].used
  }

  ghost predicate WithinAllowance(ops: seq<Op>) {
    forall i :: 0 <= i < |ops| ==> ops[i].used <= MAXOPBLOCKS
  }

  lemma {:induction false} UnusedBounds(ops: seq<Op>)
    requires WithinAllowance(ops)
    ensures 0 <= Unused(ops) <= |ops| * MAXOPBLOCKS
  {
    if ops != [] { UnusedBounds(ops[..|ops| - 1]); }
  }

  lemma UnusedAdmit(ops: seq<Op>, op: Op)
    requires WithinAllowance(ops) && op.used == 0
    ensures WithinAllowance(ops + [op])
    ensures Unused(ops + [op]) == Unused(ops) + MAXOPBLOCKS <= (|ops| + 1) * MAXOPBLOCKS
  {
    assert (ops + [op])[..|ops|] == ops;
    UnusedBounds(ops);
  }

  lemma {:induction false} UnusedCharge(ops: seq<Op>, i: nat, op: Op)
    requires i < |ops|
    ensures Unused(ops[i := op]) == Unused(ops) + ops[i].used - op.used
  {
    var n := |ops| - 1;
    if i < n {
      assert ops[i := op][..n] == ops[..n][i := op];
      UnusedCharge(ops[..n], i, op);
    } else {
      assert ops[i := op][..n] == ops[..n];
    }
  }

  lemma {:induction false} UnusedDrop(ops: seq<Op>, i: nat)
    requires i < |ops|
    ensures Unused(ops[..i] + ops[i + 1..]) == Unused(ops) - MAXOPBLOCKS + ops[i].used
  {
    var n := |ops| - 1;
    var rest := ops[..i] + ops[i + 1..];
    if i < n {
      UnusedDrop(ops[..n], i);
      assert rest[..n - 1] == ops[..n][..i] + ops[..n][i + 1..];
      assert rest[n - 1] == ops[n];
    } else {
      assert rest == ops[..n];
    }
  }

  lemma {:induction false} UnusedCovers(ops: seq<Op>, i: nat)
    requires WithinAllowance(ops) && i < |ops|
    ensures MAXOPBLOCKS - ops[i].used <= Unused(ops)
  {
    var n := |ops| - 1;
    UnusedBounds(ops[..n]);
    if i < n { UnusedCovers(ops[..n], i); }
  }

  // ---------------------------------------------------------------- the books

  /** What holds over every run whatever the size of the log area: the header names distinct home
      blocks, in memory and on disk, reservations never exceed LOGSIZE, and only copied blocks
      are listed on disk. */
  ghost predicate Books(g: Geometry, s: State) {
    && Shaped(g, s)
    && HeaderCount(s.disk[g.start]) <= LOGSIZE
    && Listable(g, HeaderBlocks(s.disk[g.start]))
    && Reserved(s)
    && (g.size == 1 ==> Untouched(g, s))
    && (s.phase.Booting? ==> s.blocks == [])
    && CopiesOnDevice(g, s)
  }

  /** A log area without data blocks fails every size test, so nothing is ever logged. */
  ghost predicate Untouched(g: Geometry, s: State)
    requires g.start < |s.disk|
  {
    && s.blocks == [] && HeaderCount(s.disk[g.start]) == 0
    && forall i :: 0 <= i < |s.ops| ==> !s.ops[i].checked
  }

  /** Log copies made so far, and those a header lists, lie on the device. */
  ghost predicate CopiesOnDevice(g: Geometry, s: State)
    requires g.start < |s.disk|
  {
    && g.start + HeaderCount(s.disk[g.start]) < g.ndisk
    && (s.phase.WritingLog? ==> s.phase.tail <= |s.blocks| && g.start + s.phase.tail < g.ndisk)
    && (s.phase.Installing? ==> g.start + |s.blocks| < g.ndisk)
  }

  /** Bookkeeping: logged blocks are distinct, and reservations never exceed the log. */
  ghost predicate Reserved(s: State) {
    && Distinct(s.blocks)
    && WithinAllowance(s.ops)
    && |s.blocks| + Unused(s.ops) <= LOGSIZE
    && (s.ops != [] ==> s.phase.Running?)
  }

  lemma BeginBooks(g: Geometry, s: State)
    requires Books(g, s) && Enabled(g, s, BeginOp)
    ensures Books(g, Apply(g, s, BeginOp))
  {
    hide Listable, Unused, WithinAllowance, Distinct;
    UnusedAdmit(s.ops, Op(s.nextId, 0, false));
  }

  lemma CheckBooks(g: Geometry, s: State, id: nat)
    requires Books(g, s) && Enabled(g, s, CheckSpace(id))
    ensures Books(g, Apply(g, s, CheckSpace(id)))
  {
    var i := IndexOf(s.ops, id);
    UnusedCharge(s.ops, i, s.ops[i].(checked := true));
  }

  lemma AppendBooks(g: Geometry, s: State, id: nat, b: nat, data: Block)
    requires Books(g, s) && Enabled(g, s, Append(id, b, data))
    ensures Books(g, Apply(g, s, Append(id, b, data)))
  {
    var i := IndexOf(s.ops, id);
    UnusedCovers(s.ops, i);
    UnusedCharge(s.ops, i, Apply(g, s, Append(id, b, data)).ops[i]);
  }

  lemma EndBooks(g: Geometry, s: State, id: nat)
    requires Books(g, s) && Enabled(g, s, EndOp(id))
    ensures Books(g, Apply(g, s, EndOp(id)))
  {
    hide Listable, HeaderBlocks, Distinct;
    UnusedDrop(s.ops, IndexOf(s.ops, id));
  }

  lemma HeaderBooks(g: Geometry, s: State, step: Step)
    requires Books(g, s) && Enabled(g, s, step) && (step.WriteHeader? || step.ClearHeader?)
    ensures Books(g, Apply(g, s, step))
  {
    HeaderRoundTrip(s.disk[g.start], s.blocks);
    HeaderRoundTrip(s.disk[g.start], []);
  }

  lemma StepKeepsBooks(g: Geometry, s: State, step: Step)
    requires Books(g, s) && Enabled(g, s, step)
    ensures Books(g, Apply(g, s, step))
  {
    match step {
      case BeginOp => BeginBooks(g, s);
      case CheckSpace(id) => CheckBooks(g, s, id);
      case Append(id, b, data) => AppendBooks(g, s, id, b, data);
      case EndOp(id) => EndBooks(g, s, id);
      case WriteHeader => HeaderBooks(g, s, step);
      case ClearHeader => HeaderBooks(g, s, step);
      case _ =>
    }
  }

  lemma {:induction false} RunKeepsBooks(g: Geometry, d: Disk, t: seq<Step>)
    requires GoodDisk(g, d) && Run(g, d, t).Some?
    ensures Books(g, Run(g, d, t).value)
  {
    if t != [] {
      RunKeepsBooks(g, d, t[..|t| - 1]);
      StepKeepsBooks(g, Run(g, d, t[..|t| - 1]).value, t[|t| - 1]);
    }
  }

  /** Log areas that hold every list of blocks the reservations allow, or never hold one. */
  ghost predicate Roomy(g: Geometry) {
    g.size > LOGSIZE || g.size == 1
  }

  /** In such an area an append needs no test of its own. */
  lemma RoomToAppend(g: Geometry, s: State, id: nat, b: nat, data: Block)
    requires Roomy(g) && Books(g, s) && Enabled(g, s, Append(id, b, data))
    ensures b in s.blocks || |s.blocks| < g.size - 1
  {
    UnusedCovers(s.ops, IndexOf(s.ops, id));
  }

  // ---------------------------------------------------------------- the invariant

  /** Log copies, those made so far and those listed to be installed, lie in the log area. */
  ghost predicate Contained(g: Geometry, s: State) {
    if s.phase.WritingLog? then s.phase.tail < g.size else s.phase.Running? || |s.blocks| < g.size
  }

  /** The header on disk tells exactly whether a group is waiting to be installed. */
  ghost predicate HeaderAgrees(g: Geometry, s: State)
    requires GoodDisk(g, s.disk)
  {
    var h := s.disk[g.start];
    match s.phase
    case Booting => true
    case Installing(tail, _) => HeaderBlocks(h) == s.blocks && tail <= |s.blocks|
    case WritingLog(tail) => HeaderCount(h) == 0 && tail <= |s.blocks|
    case _ => HeaderCount(h) == 0
  }

  /** Memory: the dirty buffers are the logged blocks not yet installed, and log copies
      are copies of them. */
  ghost predicate MemoryAgrees(g: Geometry, s: State)
    requires Shaped(g, s) && Contained(g, s)
  {
    match s.phase
    case Booting => s.blocks == [] && s.cache == map[]
    case Erased => s.blocks == [] && s.cache == map[]
    case Running => forall b :: b in s.cache <==> b in s.blocks
    case WritingLog(tail) =>
      && (forall b :: b in s.cache <==> b in s.blocks)
      && (forall j :: 0 <= j < tail <= |s.blocks| ==>
            LogCopy(g, s.disk, j) == Bread(s, s.blocks[j]))
    case Installing(tail, recovering) =>
      && (forall b :: b in s.cache ==> b in s.blocks)
      && (forall j :: 0 <= j < |s.blocks| ==> Installable(g, s, j, tail, recovering))
  }

  /** The j-th logged block is dirty until it is installed, and then equals its log copy. */
  ghost predicate Installable(g: Geometry, s: State, j: nat, tail: nat, recovering: bool)
    requires Shaped(g, s) && j < |s.blocks| < g.size
  {
    && (s.blocks[j] in s.cache <==> !recovering && tail <= j)
    && (j < tail || !recovering ==> Bread(s, s.blocks[j]) == LogCopy(g, s.disk, j))
  }

  ghost predicate Sound(g: Geometry, s: State) {
    && Books(g, s) && Contained(g, s) && GoodDisk(g, s.disk)
    && HeaderAgrees(g, s) && MemoryAgrees(g, s)
  }

  /** The home blocks recovery would produce. */
  ghost predicate Holds(g: Geometry, s: State, base: Disk)
    requires GoodDisk(g, s.disk)
  {
    |base| == g.ndisk && forall b: nat :: g.Home(b) ==> Recovered(g, s.disk, b) == base[b]
  }

  /** The home blocks the running system sees. */
  ghost predicate Shows(g: Geometry, s: State, view: Disk)
    requires Shaped(g, s)
  {
    |view| == g.ndisk && (!s.phase.Booting? && !(s.phase.Installing? && s.phase.recovering) ==>
      forall b: nat :: g.Home(b) ==> Bread(s, b) == view[b])
  }

  // ---------------------------------------------------------------- steps keep it

  lemma AppendKeeps(g: Geometry, s: State, id: nat, b: nat, data: Block)
    requires Sound(g, s) && Enabled(g, s, Append(id, b, data)) && Books(g, Apply(g, s, Append(id, b, data)))
    ensures Sound(g, Apply(g, s, Append(id, b, data)))
  {
    var s' := Apply(g, s, Append(id, b, data));
    assert forall c :: c in s'.blocks <==> c in s.blocks || c == b;
  }

  lemma EndKeeps(g: Geometry, s: State, id: nat)
    requires Sound(g, s) && Enabled(g, s, EndOp(id)) && Books(g, Apply(g, s, EndOp(id)))
    ensures Sound(g, Apply(g, s, EndOp(id)))
  {
    assert s.phase.Running?;
  }

  lemma LogCopyKeeps(g: Geometry, s: State)
    requires Sound(g, s) && Enabled(g, s, WriteLogBlock) && Books(g, Apply(g, s, WriteLogBlock))
    requires Contained(g, Apply(g, s, WriteLogBlock))
    ensures Sound(g, Apply(g, s, WriteLogBlock))
  {
  }

  lemma CommitKeeps(g: Geometry, s: State)
    requires Sound(g, s) && Enabled(g, s, WriteHeader) && Books(g, Apply(g, s, WriteHeader))
    ensures Sound(g, Apply(g, s, WriteHeader))
  {
    hide Reserved, Unused, EncodeHeader;
    HeaderRoundTrip(s.disk[g.start], s.blocks);
  }

  lemma InstallKeeps(g: Geometry, s: State)
    requires Sound(g, s) && Enabled(g, s, InstallBlock) && Books(g, Apply(g, s, InstallBlock))
    ensures Sound(g, Apply(g, s, InstallBlock))
  {
    var t := s.phase.tail;
    var s' := Apply(g, s, InstallBlock);
    assert GoodDisk(g, s'.disk) && HeaderAgrees(g, s') by { assert s'.disk[g.start] == s.disk[g.start]; }
    forall j | 0 <= j < |s.blocks|
      ensures Installable(g, s', j, s'.phase.tail, s.phase.recovering)
    {
      assert Installable(g, s, j, t, s.phase.recovering);
      assert LogCopy(g, s'.disk, j) == LogCopy(g, s.disk, j);
      assert j != t ==> s.blocks[j] != s.blocks[t];
    }
  }

  lemma EraseKeeps(g: Geometry, s: State)
    requires Sound(g, s) && Enabled(g, s, ClearHeader) && Books(g, Apply(g, s, ClearHeader))
    ensures Sound(g, Apply(g, s, ClearHeader))
  {
    HeaderRoundTrip(s.disk[g.start], []);
    forall b | b in s.blocks ensures b !in s.cache {
      var i :| 0 <= i < |s.blocks| && s.blocks[i] == b;
      assert Installable(g, s, i, s.phase.tail, s.phase.recovering);
    }
    assert s.cache == map[];
  }

  lemma StepKeeps(g: Geometry, s: State, step: Step)
    requires Sound(g, s) && Enabled(g, s, step) && Contained(g, Apply(g, s, step))
    ensures Sound(g, Apply(g, s, step))
  {
    StepKeepsBooks(g, s, step);
    match step {
      case BeginOp =>
      case CheckSpace(_) =>
      case Append(id, b, data) => AppendKeeps(g, s, id, b, data);
      case EndOp(id) => EndKeeps(g, s, id);
      case WriteLogBlock => LogCopyKeeps(g, s);
      case WriteHeader => CommitKeeps(g, s);
      case InstallBlock => InstallKeeps(g, s);
      case ClearHeader => EraseKeeps(g, s);
      case FinishCommit =>
      case Crash =>
      case ReadHeader =>
    }
  }

  lemma RecoveredLogged(g: Geometry, d: Disk, i: nat)
    requires GoodDisk(g, d) && i < |HeaderBlocks(d[g.start])|
    ensures Recovered(g, d, HeaderBlocks(d[g.start])[i]) == LogCopy(g, d, i)
  {
  }

  /** A header write makes recovery yield exactly what the running system saw. */
  lemma HeaderWriteCommits(g: Geometry, s: State, view: Disk)
    requires Sound(g, s) && Enabled(g, s, WriteHeader) && Sound(g, Apply(g, s, WriteHeader))
    requires Shows(g, s, view)
    ensures Holds(g, Apply(g, s, WriteHeader), view)
  {
    var s' := Apply(g, s, WriteHeader);
    HeaderRoundTrip(s.disk[g.start], s.blocks);
    assert HeaderBlocks(s'.disk[g.start]) == s.blocks;
    forall b: nat | g.Home(b) ensures Recovered(g, s'.disk, b) == view[b] {
      assert Bread(s, b) == view[b];
      if b in s.blocks {
        var i :| 0 <= i < |s.blocks| && s.blocks[i] == b;
        RecoveredLogged(g, s'.disk, i);
        assert LogCopy(g, s'.disk, i) == LogCopy(g, s.disk, i) == Bread(s, s.blocks[i]);
      } else {
        assert s'.disk[b] == s.disk[b] == Bread(s, b);
      }
    }
  }

  /** Disks with the same header, log copies and unlogged blocks recover alike. */
  lemma SameRecovered(g: Geometry, d: Disk, d': Disk, b: nat)
    requires GoodDisk(g, d) && GoodDisk(g, d') && b < g.ndisk
    requires HeaderBlocks(d[g.start]) == HeaderBlocks(d'[g.start])
    requires forall i :: 0 <= i < |HeaderBlocks(d[g.start])| ==> LogCopy(g, d, i) == LogCopy(g, d', i)
    requires b !in HeaderBlocks(d[g.start]) ==> d[b] == d'[b]
    ensures Recovered(g, d, b) == Recovered(g, d', b)
  {
  }

  /** Every other store to the disk leaves the outcome of recovery as it was. */
  lemma InstallKeepsRecovered(g: Geometry, s: State, base: Disk)
    requires Sound(g, s) && Enabled(g, s, InstallBlock) && Sound(g, Apply(g, s, InstallBlock))
    requires Holds(g, s, base)
    ensures Holds(g, Apply(g, s, InstallBlock), base)
  {
    var s' := Apply(g, s, InstallBlock);
    assert s'.disk[g.start] == s.disk[g.start];
    forall b: nat | g.Home(b) ensures Recovered(g, s'.disk, b) == base[b] {
      SameRecovered(g, s.disk, s'.disk, b);
    }
  }

  lemma LogCopyKeepsRecovered(g: Geometry, s: State, base: Disk)
    requires Sound(g, s) && Enabled(g, s, WriteLogBlock) && Sound(g, Apply(g, s, WriteLogBlock))
    requires Holds(g, s, base)
    ensures Holds(g, Apply(g, s, WriteLogBlock), base)
  {
    var s' := Apply(g, s, WriteLogBlock);
    forall b: nat | g.Home(b) ensures Recovered(g, s'.disk, b) == base[b] {
      assert Recovered(g, s.disk, b) == base[b];
    }
  }

  lemma EraseKeepsRecovered(g: Geometry, s: State, base: Disk)
    requires Sound(g, s) && Enabled(g, s, ClearHeader) && Sound(g, Apply(g, s, ClearHeader))
    requires Holds(g, s, base)
    ensures Holds(g, Apply(g, s, ClearHeader), base)
    ensures forall b: nat :: g.Home(b) ==> Apply(g, s, ClearHeader).disk[b] == base[b]
  {
    var s' := Apply(g, s, ClearHeader);
    HeaderRoundTrip(s.disk[g.start], []);
    forall b: nat | g.Home(b) ensures Recovered(g, s'.disk, b) == base[b] == s'.disk[b] {
      assert Recovered(g, s.disk, b) == base[b];
      if b in s.blocks {
        var i :| 0 <= i < |s.blocks| && s.blocks[i] == b;
        assert Installable(g, s, i, s.phase.tail, s.phase.recovering);
        assert s.disk[b] == LogCopy(g, s.disk, i);
      }
    }
  }

  lemma StepKeepsRecovered(g: Geometry, s: State, step: Step, base: Disk, view: Disk)
    requires Sound(g, s) && Enabled(g, s, step) && Sound(g, Apply(g, s, step))
    requires Holds(g, s, base) && Shows(g, s, view)
    ensures Holds(g, Apply(g, s, step), if step.WriteHeader? then view else base)
  {
    match step {
      case WriteHeader => HeaderWriteCommits(g, s, view);
      case InstallBlock => InstallKeepsRecovered(g, s, base);
      case ClearHeader => EraseKeepsRecovered(g, s, base);
      case WriteLogBlock => LogCopyKeepsRecovered(g, s, base);
      case _ => assert Apply(g, s, step).disk == s.disk;
    }
  }

  // ---------------------------------------------------------------- what the system shows

  /** Before recovery has finished there is no view to speak of. */
  ghost predicate Quiet(s: State) {
    s.phase.Booting? || (s.phase.Installing? && s.phase.recovering)
  }

  lemma InstallKeepsShown(g: Geometry, s: State, view: Disk)
    requires Sound(g, s) && Enabled(g, s, InstallBlock) && Sound(g, Apply(g, s, InstallBlock))
    requires Shows(g, s, view) && !Quiet(s)
    ensures Shows(g, Apply(g, s, InstallBlock), view)
  {
    hide Reserved, Listable, HeaderAgrees, GoodDisk;
    var s' := Apply(g, s, InstallBlock);
    assert Installable(g, s, s.phase.tail, s.phase.tail, false);
    forall b: nat | g.Home(b) ensures Bread(s', b) == view[b] {
      assert Bread(s, b) == view[b];
    }
  }

  lemma StoreKeepsShown(g: Geometry, s: State, step: Step, view: Disk)
    requires Sound(g, s) && Enabled(g, s, step) && Sound(g, Apply(g, s, step))
    requires step.WriteLogBlock? || step.WriteHeader? || step.ClearHeader?
    requires Shows(g, s, view) && !Quiet(s)
    ensures Shows(g, Apply(g, s, step), view)
  {
    forall b: nat | g.Home(b) ensures Bread(Apply(g, s, step), b) == view[b] {
      assert Bread(Apply(g, s, step), b) == Bread(s, b);
    }
  }

  lemma AppendShows(g: Geometry, s: State, id: nat, b: nat, data: Block, view: Disk)
    requires Sound(g, s) && Enabled(g, s, Append(id, b, data))
    requires Shaped(g, Apply(g, s, Append(id, b, data)))
    requires Shows(g, s, view) && b < |view|
    ensures Shows(g, Apply(g, s, Append(id, b, data)), view[b := data])
  {
    var s' := Apply(g, s, Append(id, b, data));
    assert s.phase.Running?;
    forall c: nat | g.Home(c) ensures Bread(s', c) == view[b := data][c] {
      assert c != b ==> Bread(s', c) == Bread(s, c);
    }
  }

  ghost function ViewAfter(step: Step, base: Disk, view: Disk): Disk {
    match step
    case Append(_, b, data) => if b < |view| then view[b := data] else view
    case Crash => base
    case _ => view
  }

  lemma StepShows(g: Geometry, s: State, step: Step, base: Disk, view: Disk)
    requires Sound(g, s) && Enabled(g, s, step) && Sound(g, Apply(g, s, step))
    requires Holds(g, s, base) && Shows(g, s, view)
    requires Quiet(s) ==> view == base
    ensures Shows(g, Apply(g, s, step), ViewAfter(step, base, view))
  {
    if step.Append? {
      AppendShows(g, s, step.id, step.b, step.data, view);
    } else if step.WriteLogBlock? || step.WriteHeader? || (step.ClearHeader? && !Quiet(s)) {
      StoreKeepsShown(g, s, step, view);
    } else if step.ClearHeader? {
      EraseKeepsRecovered(g, s, base);
    } else if step.InstallBlock? && !Quiet(s) {
      InstallKeepsShown(g, s, view);
    }
  }

  // ---------------------------------------------------------------- whole runs

  ghost function Durable(g: Geometry, d: Disk, t: seq<Step>): Disk
    requires GoodDisk(g, d)
  {
    Replay(RecoveredDisk(g, d), Tally(t).durable)
  }

  ghost function Current(g: Geometry, d: Disk, t: seq<Step>): Disk
    requires GoodDisk(g, d)
  {
    Replay(Durable(g, d, t), Tally(t).pending)
  }

  lemma {:induction false} ReplayConcat(d: Disk, ws: seq<Write>, vs: seq<Write>)
    ensures Replay(d, ws + vs) == Replay(Replay(d, ws), vs)
  {
    if vs == [] {
      assert ws + vs == ws;
    } else {
      var n := |vs| - 1;
      assert (ws + vs)[..|ws| + n] == ws + vs[..n];
      ReplayConcat(d, ws, vs[..n]);
    }
  }

  ghost predicate Tracked(g: Geometry, d: Disk, t: seq<Step>, s: State)
    requires GoodDisk(g, d)
  {
    && Sound(g, s)
    && Holds(g, s, Durable(g, d, t))
    && Shows(g, s, Current(g, d, t))
    && (Tally(t).pending == [] || s.phase.Running? || s.phase.WritingLog?)
  }

  lemma CurrentAfter(g: Geometry, d: Disk, t: seq<Step>, step: Step)
    requires GoodDisk(g, d)
    ensures Durable(g, d, t + [step]) == if step.WriteHeader? then Current(g, d, t) else Durable(g, d, t)
    ensures Current(g, d, t + [step]) == ViewAfter(step, Durable(g, d, t), Current(g, d, t))
  {
    assert (t + [step])[..|t|] == t;
    var a := Tally(t);
    match step {
      case Append(id, b, data) =>
        assert (a.pending + [Write(id, b, data)])[..|a.pending|] == a.pending;
      case WriteHeader => ReplayConcat(RecoveredDisk(g, d), a.durable, a.pending);
      case _ =>
    }
  }

  /** One step, on the abstract disks alone. */
  lemma {:induction false} StepTracks(g: Geometry, s: State, step: Step, base: Disk, view: Disk)
    requires Sound(g, s) && Enabled(g, s, step) && Contained(g, Apply(g, s, step))
    requires Holds(g, s, base) && Shows(g, s, view) && (Quiet(s) ==> view == base)
    ensures Sound(g, Apply(g, s, step))
    ensures Holds(g, Apply(g, s, step), if step.WriteHeader? then view else base)
    ensures Shows(g, Apply(g, s, step), ViewAfter(step, base, view))
  {
    StepKeeps(g, s, step);
    StepKeepsRecovered(g, s, step, base, view);
    StepShows(g, s, step, base, view);
  }

  lemma TrackedAfter(g: Geometry, d: Disk, t: seq<Step>, s: State, step: Step)
    requires GoodDisk(g, d) && Tracked(g, d, t, s) && Enabled(g, s, step) && Contained(g, Apply(g, s, step))
    ensures Tracked(g, d, t + [step], Apply(g, s, step))
  {
    var base, view := Durable(g, d, t), Current(g, d, t);
    StepTracks(g, s, step, base, view);
    CurrentAfter(g, d, t, step);
    assert (t + [step])[..|t|] == t;
  }

  /** Throughout the run the log copies stay inside the log area. */
  ghost predicate Fits(g: Geometry, d: Disk, t: seq<Step>) {
    Run(g, d, t).Some? && Contained(g, Run(g, d, t).value) && (t == [] || Fits(g, d, t[..|t| - 1]))
  }

  lemma {:induction false} RunIsTracked(g: Geometry, d: Disk, t: seq<Step>)
    requires GoodDisk(g, d) && Fits(g, d, t)
    ensures Tracked(g, d, t, Run(g, d, t).value)
  {
    if t == [] {
      assert RecoveredDisk(g, d) == Durable(g, d, t) == Current(g, d, t);
    } else {
      var t0, step := t[..|t| - 1], t[|t| - 1];
      assert t == t0 + [step];
      RunIsTracked(g, d, t0);
      TrackedAfter(g, d, t0, Run(g, d, t0).value, step);
    }
  }

  /** Log areas past whose end write_log makes no copy: when the area is full no buffer is left to
      make one with, or nothing is ever logged, or the device ends there. */
  ghost predicate Guarded(g: Geometry) {
    g.size >= BufferList.NBUF || g.size == 1 || g.start + g.size == g.ndisk
  }

  lemma GuardedStep(g: Geometry, s: State, step: Step)
    requires Guarded(g) && Books(g, s) && GoodDisk(g, s.disk) && Contained(g, s) && Enabled(g, s, step)
    ensures Contained(g, Apply(g, s, step))
  {
    hide Listable, Unused, WithinAllowance, Distinct;
  }

  /** In such an area every run fits. */
  lemma {:induction false} GuardedFits(g: Geometry, d: Disk, t: seq<Step>)
    requires Guarded(g) && GoodDisk(g, d) && Run(g, d, t).Some?
    ensures Fits(g, d, t)
  {
    hide Guarded, Books, HeaderAgrees, MemoryAgrees, Holds, Shows, Shaped, Enabled, Contained;
    if t == [] {
      BootContained(g, d);
    } else {
      var t0 := t[..|t| - 1];
      GuardedFits(g, d, t0);
      RunIsTracked(g, d, t0);
      GuardedStep(g, Run(g, d, t0).value, t[|t| - 1]);
    }
  }

  lemma BootContained(g: Geometry, d: Disk)
    requires GoodDisk(g, d)
    ensures Contained(g, Boot(d))
  {
  }

  lemma RoomyStep(g: Geometry, s: State, step: Step)
    requires Roomy(g) && Books(g, s) && GoodDisk(g, s.disk) && |s.blocks| < g.size && Enabled(g, s, step)
    ensures |Apply(g, s, step).blocks| < g.size
  {
    if step.Append? {
      RoomToAppend(g, s, step.id, step.b, step.data);
    }
  }

  /** In a roomy area the logged blocks always fit. */
  lemma {:induction false} RoomyHolds(g: Geometry, d: Disk, t: seq<Step>)
    requires Roomy(g) && GoodDisk(g, d) && Run(g, d, t).Some?
    ensures |Run(g, d, t).value.blocks| < g.size
  {
    hide Books, HeaderAgrees, MemoryAgrees, Holds, Shows, Shaped, Enabled, Fits;
    if t != [] {
      var t0 := t[..|t| - 1];
      RoomyHolds(g, d, t0);
      GuardedFits(g, d, t0);
      RunIsTracked(g, d, t0);
      RoomyStep(g, Run(g, d, t0).value, t[|t| - 1]);
    }
  }

  /** Crash safety: after any run that keeps its log copies inside the log area, however it was cut
      short, recovery yields the effect of exactly the groups whose header write landed, and a running
      system has that on disk. */
  lemma {:induction false} CrashSafety(g: Geometry, d: Disk, t: seq<Step>, b: nat)
    requires GoodDisk(g, d) && Fits(g, d, t) && g.Home(b)
    ensures var s := Run(g, d, t).value;
            && |s.disk| == g.ndisk && GoodDisk(g, s.disk)
            && Recovered(g, s.disk, b) == Durable(g, d, t)[b]
            && (s.phase.Running? ==> s.disk[b] == Durable(g, d, t)[b])
            && (s.phase.Running? ==> Bread(s, b) == Current(g, d, t)[b])
  {
    RunIsTracked(g, d, t);
  }

  ghost predicate RecoveryStep(step: Step) {
    step.Crash? || step.ReadHeader? || step.InstallBlock? || step.ClearHeader?
  }

  lemma RecoveryStepFits(g: Geometry, s: State, step: Step)
    requires Shaped(g, s) && GoodDisk(g, s.disk) && Contained(g, s) && Enabled(g, s, step) && RecoveryStep(step)
    ensures Contained(g, Apply(g, s, step))
  {
  }

  /** Recovery itself logs nothing, so a run that fits still does after it. */
  lemma {:induction false} RecoveryFits(g: Geometry, d: Disk, t: seq<Step>, r: seq<Step>)
    requires GoodDisk(g, d) && Fits(g, d, t) && Run(g, d, t + r).Some?
    requires forall i :: 0 <= i < |r| ==> RecoveryStep(r[i])
    ensures Fits(g, d, t + r)
  {
    hide HeaderAgrees, MemoryAgrees, Holds, Shows, Books, Apply, RecoveryStep, Tally;
    if r == [] {
      assert t + r == t;
    } else {
      var n := |r| - 1;
      assert (t + r)[..|t| + n] == t + r[..n];
      RecoveryFits(g, d, t, r[..n]);
      RunIsTracked(g, d, t + r[..n]);
      RecoveryStepFits(g, Run(g, d, t + r[..n]).value, r[n]);
    }
  }

  lemma {:induction false} RecoveryDropsPending(t: seq<Step>, r: seq<Step>)
    requires r != [] && r[0].Crash?
    requires forall i :: 0 <= i < |r| ==> RecoveryStep(r[i])
    ensures Tally(t + r) == Account(Tally(t).durable, [])
  {
    var n := |r| - 1;
    assert (t + r)[..|t| + n] == t + r[..n];
    if n == 0 {
      assert t + r[..n] == t;
    } else {
      RecoveryDropsPending(t, r[..n]);
    }
  }

  /** Recovery may itself be cut short by any number of crashes: once it completes, the home
      blocks on disk are those durable at the first crash. */
  lemma {:induction false} RepeatedCrashes(g: Geometry, d: Disk, t: seq<Step>, r: seq<Step>, b: nat)
    requires GoodDisk(g, d) && g.Home(b)
    requires r != [] && r[0].Crash?
    requires forall i :: 0 <= i < |r| ==> RecoveryStep(r[i])
    requires Fits(g, d, t) && Run(g, d, t + r).Some? && Run(g, d, t + r).value.phase.Running?
    ensures b < |Run(g, d, t + r).value.disk|
    ensures Run(g, d, t + r).value.disk[b] == Durable(g, d, t)[b]
  {
    RecoveryFits(g, d, t, r);
    CrashSafety(g, d, t + r, b);
    RecoveryDropsPending(t, r);
  }
}
