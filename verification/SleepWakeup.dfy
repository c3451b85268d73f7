/**
 sleep and wakeup of proc.c as a protocol between processes that share a condition guarded
 by a lock lk, sleep on one channel, and are woken under ptable.lock.

 A sleeper holds lk while it tests the condition, takes ptable.lock before it lets lk go,
 and gives ptable.lock up by entering the scheduler as SLEEPING. A waker changes the
 condition under lk and calls wakeup before or after it releases lk. Every step of every
 process may interleave with every other.
 */
module SleepWakeup {
  import opened Basics

  datatype Pc =
    | Idle
    | Locked                             // holds lk
    | Tested                             // holds lk, saw the condition false, is entering sleep
    | Both                               // holds lk and ptable.lock
    | Committed                          // holds ptable.lock only
    | Asleep                             // SLEEPING on the channel
    | Runnable                           // woken, not yet scheduled
    | Resumed                            // scheduled again, holds ptable.lock
    | Relocking                          // past sched, about to reacquire lk
    | Changed                            // changed the condition, will call wakeup
    | Waking                             // inside wakeup, holds ptable.lock
    | Awakened                           // has gone through the table, still holds ptable.lock

  datatype Step =
    | TakeLk(p: nat) | DropLk(p: nat) | TakePt(p: nat) | DropPt(p: nat)
    | Test(p: nat) | Clear(p: nat) | Change(p: nat)
    | Sleep(p: nat) | WakeAll(p: nat) | Interrupt(p: nat) | Dispatch(p: nat)

  datatype State = State(pc: seq<Pc>, cond: bool, lk: Option<nat>, pt: Option<nat>)

  ghost predicate Enabled(s: State, step: Step) {
    var p := step.p;
    p < |s.pc| &&
    match step
    case TakeLk(_) => s.lk == None && (s.pc[p] == Idle || s.pc[p] == Relocking)
    case DropLk(_) => s.lk == Some(p) && (s.pc[p] == Locked || s.pc[p] == Both || s.pc[p] == Changed)
    case TakePt(_) => s.pt == None && (s.pc[p] == Tested || s.pc[p] == Changed)
    case DropPt(_) => s.pc[p] == Resumed || s.pc[p] == Awakened
    case Test(_) => s.pc[p] == Locked
    case Clear(_) => s.pc[p] == Locked
    case Change(_) => s.pc[p] == Locked
    case Sleep(_) => s.pc[p] == Committed
    case WakeAll(_) => s.pc[p] == Waking
    case Interrupt(_) => s.pc[p] == Asleep
    case Dispatch(_) => s.pt == None && s.pc[p] == Runnable
  }

  ghost function Apply(s: State, step: Step): State
    requires Enabled(s, step)
  {
    var p := step.p;
    match step
    case TakeLk(_) => s.(lk := Some(p), pc := s.pc[p := Locked])
    case DropLk(_) =>
      s.(lk := None, pc := s.pc[p := if s.pc[p] == Both then Committed
                                     else if s.pc[p] == Changed then Changed else Idle])
    case TakePt(_) => s.(pt := Some(p), pc := s.pc[p := if s.pc[p] == Tested then Both else Waking])
    case DropPt(_) =>
      s.(pt := None, pc := s.pc[p := if s.pc[p] == Resumed then Relocking
                                     else if s.lk == Some(p) then Locked else Idle])
    case Test(_) => if s.cond then s else s.(pc := s.pc[p := Tested])
    case Clear(_) => s.(cond := false)
    case Change(_) => s.(cond := true, pc := s.pc[p := Changed])
    case Sleep(_) => s.(pt := None, pc := s.pc[p := Asleep])
    case WakeAll(_) =>
      s.(pc := seq(|s.pc|, q requires 0 <= q < |s.pc| =>
                   if q == p then Awakened else if s.pc[q] == Asleep then Runnable else s.pc[q]))
    case Interrupt(_) => s.(pc := s.pc[p := Runnable])
    case Dispatch(_) => s.(pt := Some(p), pc := s.pc[p := Resumed])
  }

  ghost function Run(n: nat, t: seq<Step>): Option<State> {
    if t == [] then Some(State(seq(n, _ => Idle), false, None, None))
    else
      var s := Run(n, t[..|t| - 1]);
      var last := t[|t| - 1];
      if s.Some? && Enabled(s.value, last) then Some(Apply(s.value, last)) else None
  }

  /** Position just after p's latest test of the condition, 0 if there is none. */
  ghost function LastTest(t: seq<Step>, p: nat): nat {
    if t == [] then 0 else if t[|t| - 1] == Test(p) then |t| else LastTest(t[..|t| - 1], p)
  }

  ghost function LastChange(t: seq<Step>, p: nat): nat {
    if t == [] then 0 else if t[|t| - 1] == Change(p) then |t| else LastChange(t[..|t| - 1], p)
  }

  // ---------------------------------------------------------------- invariant

  ghost predicate HoldsLk(c: Pc) { c == Locked || c == Tested || c == Both }

  ghost predicate HoldsPt(c: Pc) {
    c == Both || c == Committed || c == Resumed || c == Waking || c == Awakened
  }

  /** Between a failed test and waking up. */
  ghost predicate Entering(c: Pc) { c == Tested || c == Both || c == Committed || c == Asleep }

  /** Mutual exclusion. */
  ghost predicate Exclusive(s: State) {
    && (forall p :: 0 <= p < |s.pc| && HoldsLk(s.pc[p]) ==> s.lk == Some(p))
    && (forall p :: 0 <= p < |s.pc| && HoldsPt(s.pc[p]) ==> s.pt == Some(p))
  }

  /** While a sleeper still holds lk nobody has changed the condition since its test. */
  ghost predicate NoChangeSince(t: seq<Step>, s: State, p: nat)
    requires p < |s.pc|
  {
    s.pc[p] == Tested || s.pc[p] == Both ==> forall w: nat :: LastChange(t, w) <= LastTest(t, p)
  }

  /** A wakeup already completed came from a change older than the sleeper's test. */
  ghost predicate NotMissed(t: seq<Step>, s: State, p: nat)
    requires p < |s.pc|
  {
    Entering(s.pc[p]) ==>
      forall k :: 0 <= k < |t| && t[k].WakeAll? ==> LastChange(t[..k], t[k].p) <= LastTest(t, p)
  }

  ghost predicate Sound(t: seq<Step>, s: State) {
    && Exclusive(s)
    && forall p :: 0 <= p < |s.pc| ==> NoChangeSince(t, s, p) && NotMissed(t, s, p)
  }

  lemma StepExclusive(s: State, step: Step)
    requires Exclusive(s) && Enabled(s, step)
    ensures Exclusive(Apply(s, step))
  {
  }

  lemma {:induction false} LastBounds(t: seq<Step>, p: nat)
    ensures LastTest(t, p) <= |t| && LastChange(t, p) <= |t|
  {
    if t != [] { LastBounds(t[..|t| - 1], p); }
  }

  /** How one more step moves the two marks. */
  lemma LastAfter(t: seq<Step>, step: Step, p: nat)
    ensures LastTest(t + [step], p) == if step == Test(p) then |t| + 1 else LastTest(t, p)
    ensures LastChange(t + [step], p) == if step == Change(p) then |t| + 1 else LastChange(t, p)
  {
    assert (t + [step])[..|t|] == t;
  }

  /** A process that is entering sleep was already entering it, or has just tested. */
  lemma EnteringBefore(s: State, step: Step, p: nat)
    requires Enabled(s, step) && p < |s.pc|
    ensures Entering(Apply(s, step).pc[p]) ==>
              step == Test(p) || (Entering(s.pc[p]) && !(step.WakeAll? && s.pc[p] == Asleep))
    ensures Apply(s, step).pc[p] == Tested || Apply(s, step).pc[p] == Both ==>
              step == Test(p) || s.pc[p] == Tested || s.pc[p] == Both
  {
  }

  lemma KeepsNoChange(t: seq<Step>, s: State, step: Step, p: nat)
    requires Sound(t, s) && Enabled(s, step) && p < |s.pc|
    ensures NoChangeSince(t + [step], Apply(s, step), p)
  {
    hide LastTest, LastChange;
    EnteringBefore(s, step, p);
    var s' := Apply(s, step);
    if s'.pc[p] == Tested || s'.pc[p] == Both {
      forall w: nat ensures LastChange(t + [step], w) <= LastTest(t + [step], p) {
        LastAfter(t, step, w);
        LastAfter(t, step, p);
        LastBounds(t, w);
        assert NoChangeSince(t, s, p);
      }
    }
  }

  lemma KeepsNotMissed(t: seq<Step>, s: State, step: Step, p: nat)
    requires Sound(t, s) && Enabled(s, step) && p < |s.pc|
    ensures NotMissed(t + [step], Apply(s, step), p)
  {
    hide LastTest, LastChange;
    EnteringBefore(s, step, p);
    var t' := t + [step];
    LastAfter(t, step, p);
    if Entering(Apply(s, step).pc[p]) {
      forall k | 0 <= k < |t'| && t'[k].WakeAll? ensures LastChange(t'[..k], t'[k].p) <= LastTest(t', p) {
        assert t'[..k] == t[..k];
        LastBounds(t[..k], t'[k].p);
        assert NotMissed(t, s, p) && NoChangeSince(t, s, p);
        if k == |t| { assert t[..k] == t; }
      }
    }
  }

  lemma {:induction false} RunIsSound(n: nat, t: seq<Step>)
    requires Run(n, t).Some?
    ensures Sound(t, Run(n, t).value)
  {
    if t != [] {
      var t0, step := t[..|t| - 1], t[|t| - 1];
      RunIsSound(n, t0);
      var s := Run(n, t0).value;
      assert t == t0 + [step];
      StepExclusive(s, step);
      forall p | 0 <= p < |s.pc| ensures NoChangeSince(t, Apply(s, step), p) && NotMissed(t, Apply(s, step), p) {
        KeepsNoChange(t0, s, step, p);
        KeepsNotMissed(t0, s, step, p);
      }
    }
  }

  /** No wakeup is lost: once a waker has changed the condition after p's test and has gone
      through the table, p is not asleep from that call, in any interleaving. */
  lemma NoLostWakeup(n: nat, t: seq<Step>, p: nat, k: nat)
    requires Run(n, t).Some? && p < |Run(n, t).value.pc|
    requires k < |t| && t[k].WakeAll? && LastTest(t, p) < LastChange(t[..k], t[k].p)
    ensures Run(n, t).value.pc[p] != Asleep
  {
    RunIsSound(n, t);
    assert NotMissed(t, Run(n, t).value, p);
  }

  // ---------------------------------------------------------------- nobody sleeps for nothing

  ghost predicate WakerOnItsWay(s: State) {
    exists w :: 0 <= w < |s.pc| && (s.pc[w] == Changed || s.pc[w] == Waking)
  }

  /** A true condition is never tested as false, and whoever sleeps on it will be woken. */
  ghost predicate Attended(s: State) {
    && (forall p :: 0 <= p < |s.pc| && (s.pc[p] == Tested || s.pc[p] == Both) ==> !s.cond)
    && (s.cond && (exists p :: 0 <= p < |s.pc| && (s.pc[p] == Committed || s.pc[p] == Asleep)) ==> WakerOnItsWay(s))
  }

  lemma StepAttended(s: State, step: Step)
    requires Exclusive(s) && Attended(s) && Enabled(s, step)
    ensures Attended(Apply(s, step))
  {
    var s' := Apply(s, step);
    if step.Change? {
      assert s'.pc[step.p] == Changed;
    } else if s'.cond && exists p :: 0 <= p < |s'.pc| && (s'.pc[p] == Committed || s'.pc[p] == Asleep) {
      var p :| 0 <= p < |s'.pc| && (s'.pc[p] == Committed || s'.pc[p] == Asleep);
      assert s.pc[p] == Committed || s.pc[p] == Asleep;
      var w :| 0 <= w < |s.pc| && (s.pc[w] == Changed || s.pc[w] == Waking);
      assert s'.pc[w] == Changed || s'.pc[w] == Waking;
    }
  }

  lemma {:induction false} RunIsAttended(n: nat, t: seq<Step>)
    requires Run(n, t).Some?
    ensures Attended(Run(n, t).value)
  {
    if t != [] {
      RunIsAttended(n, t[..|t| - 1]);
      RunIsSound(n, t[..|t| - 1]);
      StepAttended(Run(n, t[..|t| - 1]).value, t[|t| - 1]);
    }
  }

  /** In any interleaving, a process asleep while the condition holds has a waker on its way. */
  lemma NoStuckSleeper(n: nat, t: seq<Step>, p: nat)
    requires Run(n, t).Some? && p < |Run(n, t).value.pc|
    requires Run(n, t).value.cond && Run(n, t).value.pc[p] == Asleep
    ensures WakerOnItsWay(Run(n, t).value)
  {
    RunIsAttended(n, t);
  }

  // ---------------------------------------------------------------- progress

  /** A waker may keep lk through its wakeup. */
  ghost predicate MayHoldLk(c: Pc) { HoldsLk(c) || c == Changed || c == Waking || c == Awakened }

  /** A lock that is taken belongs to a process on its way to giving it up. */
  ghost predicate Owned(s: State) {
    && (s.lk.Some? ==> s.lk.value < |s.pc| && MayHoldLk(s.pc[s.lk.value]))
    && (s.pt.Some? ==> s.pt.value < |s.pc| && HoldsPt(s.pc[s.pt.value]))
  }

  lemma StepOwned(s: State, step: Step)
    requires Exclusive(s) && Owned(s) && Enabled(s, step)
    ensures Owned(Apply(s, step))
  {
  }

  lemma {:induction false} RunIsOwned(n: nat, t: seq<Step>)
    requires Run(n, t).Some?
    ensures Owned(Run(n, t).value) && |Run(n, t).value.pc| == n
  {
    if t != [] {
      var t0 := t[..|t| - 1];
      RunIsOwned(n, t0);
      RunIsSound(n, t0);
      StepOwned(Run(n, t0).value, t[|t| - 1]);
    }
  }

  /** The holder of ptable.lock can always go on. */
  lemma HolderMoves(s: State) returns (step: Step)
    requires Exclusive(s) && Owned(s) && s.pt.Some?
    ensures Enabled(s, step) && step.p == s.pt.value
  {
    var r := s.pt.value;
    match s.pc[r] {
      case Both => step := DropLk(r);
      case Committed => step := Sleep(r);
      case Waking => step := WakeAll(r);
      case _ => step := DropPt(r);
    }
  }

  /** A process that is neither asleep nor waiting for a lock can go on. */
  lemma Moves(s: State, p: nat) returns (step: Step)
    requires Exclusive(s) && Owned(s) && p < |s.pc| && s.pc[p] != Asleep
    requires s.pc[p] == Idle || s.pc[p] == Relocking ==> s.lk == None
    ensures Enabled(s, step) && !step.Interrupt?
  {
    if s.pt.Some? {
      step := HolderMoves(s);
    } else {
      match s.pc[p] {
        case Idle => step := TakeLk(p);
        case Relocking => step := TakeLk(p);
        case Locked => step := Test(p);
        case Runnable => step := Dispatch(p);
        case _ => step := TakePt(p);
      }
    }
  }

  /** No deadlock: in every reachable state in which not everybody is asleep, some process can take
      a step, and it needs nobody to be interrupted. */
  lemma NoDeadlock(n: nat, t: seq<Step>, p: nat) returns (step: Step)
    requires Run(n, t).Some? && p < n && p < |Run(n, t).value.pc| && Run(n, t).value.pc[p] != Asleep
    ensures Enabled(Run(n, t).value, step) && !step.Interrupt?
  {
    hide Run;
    RunIsOwned(n, t);
    RunIsSound(n, t);
    var s := Run(n, t).value;
    if (s.pc[p] == Idle || s.pc[p] == Relocking) && s.lk.Some? {
      step := Moves(s, s.lk.value);
    } else {
      step := Moves(s, p);
    }
  }
}
