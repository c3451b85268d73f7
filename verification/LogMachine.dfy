/**
 The write-ahead redo log of log.c as a state machine.

 Every store to the disk is one step, a crash may fall between any two steps,
 and recovery is itself made of steps, so that it can be cut short too. log_write is two
 steps: it tests for space before it takes the lock, so other operations may append between
 its test and its own append. (The test reads the count twice; the count never falls while an
 operation is outstanding, so a test that passes held as a whole at the first read.)
 A block is an array of 32-bit words; the header block keeps the number of
 logged blocks in word 0 and their home block numbers after it.
 */
module LogMachine {
  import opened Basics
  import BufferList

  const MAXOPBLOCKS := 10
  const LOGSIZE := 30
  const WORDS := 128

  type Block = b: seq<nat> | |b| == WORDS witness seq(WORDS, _ => 0)
  type Disk = seq<Block>

  /** log.start, log.size and the number of blocks on the device. */
  datatype Geometry = Geometry(start: nat, size: nat, ndisk: nat) {
    ghost predicate Valid() {
      1 <= size && start + size <= ndisk
    }

    /** Blocks outside the log area. */
    ghost predicate Home(b: nat) {
      b < ndisk && !(start <= b < start + size)
    }
  }

  /** A system call between begin_op and end_op: how many header entries it appended, and
      whether it has passed log_write's size test and not yet appended. */
  datatype Op = Op(id: nat, used: nat, checked: bool)

  datatype Phase =
    | Booting                                      // nothing read back yet
    | Running
    | WritingLog(tail: nat)                        // write_log, tail blocks copied
    | Installing(tail: nat, recovering: bool)      // install_trans, tail blocks copied
    | Erased                                       // header cleared, committing still set

  /** The disk survives a crash; everything after it is memory. */
  datatype State = State(disk: Disk, cache: map<nat, Block>, blocks: seq<nat>,
                         ops: seq<Op>, nextId: nat, phase: Phase)

  datatype Step =
    | BeginOp
    | CheckSpace(id: nat)                          // log_write's size test, made without the lock
    | Append(id: nat, b: nat, data: Block)         // the rest of log_write, under the lock
    | EndOp(id: nat)
    | WriteLogBlock
    | WriteHeader
    | InstallBlock
    | ClearHeader
    | FinishCommit
    | Crash
    | ReadHeader

  // ---------------------------------------------------------------- header block

  function HeaderCount(h: Block): nat { h[0] }

  /** The block numbers a header lists; a count over LOGSIZE is never written. */
  function HeaderBlocks(h: Block): seq<nat>
    requires HeaderCount(h) <= LOGSIZE
  {
    h[1..1 + h[0]]
  }

  /** write_head on top of the header block's old contents. */
  function EncodeHeader(before: Block, bs: seq<nat>): Block
    requires |bs| <= LOGSIZE
  {
    [|bs|] + bs + before[1 + |bs|..]
  }

  lemma HeaderRoundTrip(before: Block, bs: seq<nat>)
    requires |bs| <= LOGSIZE
    ensures HeaderCount(EncodeHeader(before, bs)) == |bs|
    ensures HeaderBlocks(EncodeHeader(before, bs)) == bs
  {
  }

  /** A list of blocks a header can name. */
  ghost predicate Listable(g: Geometry, bs: seq<nat>) {
    && |bs| <= LOGSIZE
    && Distinct(bs)
    && forall i :: 0 <= i < |bs| ==> g.Home(bs[i])
  }

  /** One that also fits the log area. */
  ghost predicate Loggable(g: Geometry, bs: seq<nat>) {
    Listable(g, bs) && |bs| <= g.size - 1
  }

  ghost predicate GoodDisk(g: Geometry, d: Disk) {
    && g.Valid()
    && |d| == g.ndisk
    && HeaderCount(d[g.start]) <= LOGSIZE
    && Loggable(g, HeaderBlocks(d[g.start]))
  }

  // ---------------------------------------------------------------- steps

  function IndexOf(ops: seq<Op>, id: nat): (i: int)
    ensures -1 <= i < |ops|
    ensures i >= 0 ==> ops[i].id == id
    ensures i == -1 ==> forall k :: 0 <= k < |ops| ==> ops[k].id != id
  {
    if ops == [] then -1
    else if ops[|ops| - 1].id == id then |ops| - 1
    else IndexOf(ops[..|ops| - 1], id)
  }

  /** The i-th data block of the log area. */
  function LogCopy(g: Geometry, d: Disk, i: nat): Block
    requires g.start + 1 + i < |d|
  {
    d[g.start + 1 + i]
  }

  function Bread(s: State, b: nat): Block
    requires b < |s.disk|
  {
    if b in s.cache then s.cache[b] else s.disk[b]
  }

  predicate Committing(s: State) {
    s.phase.WritingLog? || s.phase.Erased? || (s.phase.Installing? && !s.phase.recovering)
  }

  /** The guard of begin_op: sleep while committing or while the log may run out. */
  predicate MayBegin(s: State) {
    s.phase.Running? && |s.blocks| + (|s.ops| + 1) * MAXOPBLOCKS <= LOGSIZE
  }

  /** "too big a transaction" in log_write. */
  predicate TooBig(g: Geometry, s: State) {
    |s.blocks| >= LOGSIZE || |s.blocks| >= g.size - 1
  }

  /** What log_write's caller owes: a home block, and at most MAXOPBLOCKS entries per operation. */
  ghost predicate MayLog(g: Geometry, s: State, id: nat, b: nat) {
    && IndexOf(s.ops, id) >= 0
    && g.Home(b)
    && (b in s.blocks || s.ops[IndexOf(s.ops, id)].used < MAXOPBLOCKS)
  }

  /** The disk driver refuses block numbers past the end of the device. */
  predicate OnDevice(g: Geometry, tail: nat) {
    g.start + 1 + tail < g.ndisk
  }

  /** What a turn of write_log needs: a log block on the device; a buffer for it beside the pinned
      ones of the logged blocks; and two different blocks, since the turn holds both. */
  predicate CanCopy(g: Geometry, s: State)
    requires s.phase.WritingLog? && s.phase.tail < |s.blocks|
  {
    var t := s.phase.tail;
    OnDevice(g, t) && |s.blocks| < BufferList.NBUF && s.blocks[t] != g.start + 1 + t
  }

  ghost predicate Enabled(g: Geometry, s: State, step: Step) {
    match step
    case BeginOp => MayBegin(s)
    case CheckSpace(id) => IndexOf(s.ops, id) >= 0 && !s.ops[IndexOf(s.ops, id)].checked && !TooBig(g, s)
    case Append(id, b, _) => MayLog(g, s, id, b) && s.ops[IndexOf(s.ops, id)].checked
    case EndOp(id) => IndexOf(s.ops, id) >= 0 && !s.ops[IndexOf(s.ops, id)].checked
    case WriteLogBlock => s.phase.WritingLog? && s.phase.tail < |s.blocks| && CanCopy(g, s)
    case WriteHeader => s.phase.WritingLog? && s.phase.tail == |s.blocks| > 0
    case InstallBlock => s.phase.Installing? && s.phase.tail < |s.blocks| && OnDevice(g, s.phase.tail)
    case ClearHeader => s.phase.Installing? && s.phase.tail == |s.blocks|
    case FinishCommit => s.phase.Erased? || (s.phase.WritingLog? && s.blocks == [])
    case Crash => true
    case ReadHeader => s.phase.Booting?
  }

  /** Sizes that keep every block number in Apply within the disk. */
  ghost predicate Shaped(g: Geometry, s: State) {
    && g.Valid()
    && |s.disk| == g.ndisk
    && |s.blocks| <= LOGSIZE
    && (forall i :: 0 <= i < |s.blocks| ==> g.Home(s.blocks[i]))
    && (s.phase.Booting? ==> HeaderCount(s.disk[g.start]) <= LOGSIZE)
  }

  ghost function Apply(g: Geometry, s: State, step: Step): State
    requires Shaped(g, s) && Enabled(g, s, step)
  {
    match step
    case BeginOp => s.(ops := s.ops + [Op(s.nextId, 0, false)], nextId := s.nextId + 1)
    case CheckSpace(id) =>
      var i := IndexOf(s.ops, id);
      s.(ops := s.ops[i := s.ops[i].(checked := true)])
    case Append(id, b, data) =>
      var i := IndexOf(s.ops, id);
      var op := s.ops[i].(checked := false);
      var s' := s.(cache := s.cache[b := data]);
      if b in s.blocks then s'.(ops := s.ops[i := op])
      else s'.(blocks := s.blocks + [b], ops := s.ops[i := op.(used := op.used + 1)])
    case EndOp(id) =>
      var i := IndexOf(s.ops, id);
      var rest := s.ops[..i] + s.ops[i + 1..];
      s.(ops := rest, phase := if rest == [] then WritingLog(0) else s.phase)
    case WriteLogBlock =>
      var t := s.phase.tail;
      s.(disk := s.disk[g.start + 1 + t := Bread(s, s.blocks[t])], cache := s.cache - {g.start + 1 + t},
         phase := WritingLog(t + 1))
    case WriteHeader =>
      s.(disk := s.disk[g.start := EncodeHeader(s.disk[g.start], s.blocks)], phase := Installing(0, false))
    case InstallBlock =>
      var t := s.phase.tail;
      s.(disk := s.disk[s.blocks[t] := LogCopy(g, s.disk, t)],
         cache := s.cache - {s.blocks[t]},
         phase := Installing(t + 1, s.phase.recovering))
    case ClearHeader =>
      s.(disk := s.disk[g.start := EncodeHeader(s.disk[g.start], [])], blocks := [],
         phase := if s.phase.recovering then Running else Erased)
    case FinishCommit => s.(phase := Running)
    case Crash => State(s.disk, map[], [], [], s.nextId, Booting)
    case ReadHeader => s.(blocks := HeaderBlocks(s.disk[g.start]), phase := Installing(0, true))
  }

  // ---------------------------------------------------------------- runs

  ghost function Boot(d: Disk): State {
    State(d, map[], [], [], 0, Booting)
  }

  /** The state a list of steps leads to from power-on, None when some step is not enabled. */
  ghost function Run(g: Geometry, d: Disk, t: seq<Step>): Option<State> {
    if t == [] then Some(Boot(d))
    else
      var p := Run(g, d, t[..|t| - 1]);
      var last := t[|t| - 1];
      if p.Some? && Shaped(g, p.value) && Enabled(g, p.value, last)
      then Some(Apply(g, p.value, last)) else None
  }

  // ---------------------------------------------------------------- what a run promises

  datatype Write = Write(id: nat, b: nat, data: Block)

  /** Writes made durable, and writes of the group still being collected. */
  datatype Account = Account(durable: seq<Write>, pending: seq<Write>)

  /** Read off the step list alone: a group becomes durable when its header write lands,
      and a crash before that drops it. */
  ghost function Tally(t: seq<Step>): Account {
    if t == [] then Account([], [])
    else
      var a := Tally(t[..|t| - 1]);
      match t[|t| - 1]
      case Append(id, b, data) => a.(pending := a.pending + [Write(id, b, data)])
      case WriteHeader => Account(a.durable + a.pending, [])
      case Crash => a.(pending := [])
      case _ => a
  }

  ghost function Replay(d: Disk, ws: seq<Write>): (r: Disk)
    ensures |r| == |d|
  {
    if ws == [] then d
    else
      var r := Replay(d, ws[..|ws| - 1]);
      var w := ws[|ws| - 1];
      if w.b < |d| then r[w.b := w.data] else r
  }

  /** What home block b holds once recovery has run on disk d. */
  ghost function Recovered(g: Geometry, d: Disk, b: nat): Block
    requires GoodDisk(g, d) && b < |d|
  {
    var bs := HeaderBlocks(d[g.start]);
    if b in bs then
      var i :| 0 <= i < |bs| && bs[i] == b;
      LogCopy(g, d, i)
    else d[b]
  }

  ghost function RecoveredDisk(g: Geometry, d: Disk): Disk
    requires GoodDisk(g, d)
  {
    seq(|d|, b requires 0 <= b < |d| => Recovered(g, d, b))
  }
}
