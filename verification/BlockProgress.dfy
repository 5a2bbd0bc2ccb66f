/**
 How far the device side is from rest. Every step of a worker or of a drain
 lowers the work that is left, so between two notifications they take a bounded
 number of steps; and one notification with fewer than 2^16 requests waiting is
 enough to become quiet.
 */
module BlockProgress {
  import opened Words
  import opened Chains
  import opened PoolSpec
  import opened BlockModel
  import opened BlockInvariant
  import opened BlockControl
  import opened BlockHeap
  import opened BlockRuns
  import opened BlockTheorems

  function PcRank(pc: Pc): nat {
    match pc
    case Unlocked => 0
    case Locked(_) => 2
    case Draining(_, _, _) => 1
    case Scanning(_, _, _, _) => 16
    case HandingOver(_, _, _, _, _) => 15
    case Refusing(_, _, _, _) => 14
    case Publishing(_, _) => 3
  }

  function WorkerRank(slot: Option<Task>, phase: Phase): nat {
    match phase
    case Idle => if slot.Some? then 10 else 0
    case Did(_, _, _) => 9
    case Answered => 5
    case Ended => 4
    case Returned => 3
    case Clearing => 2
  }

  function WorkersRank(slot: seq<Option<Task>>, phase: seq<Phase>): nat
    requires |slot| == |phase|
  {
    if slot == [] then 0
    else WorkersRank(slot[..|slot| - 1], phase[..|slot| - 1]) + WorkerRank(slot[|slot| - 1], phase[|slot| - 1])
  }

  /** How many published requests nobody has in hand yet. */
  function Waiting(s: Sys): int {
    |s.reqs| - s.popped - if InHand(s.pc) then 1 else 0
  }

  /** The work that is left without a further notification. */
  function Work(s: Sys): int
    requires |s.pool.slot| == |s.phase|
  {
    20 * Waiting(s) + PcRank(s.pc) + WorkersRank(s.pool.slot, s.phase)
  }

  lemma {:induction false} RankUpdate(slot: seq<Option<Task>>, phase: seq<Phase>, i: nat, x: Option<Task>, p: Phase)
    requires i < |slot| == |phase|
    ensures WorkersRank(slot[i := x], phase[i := p]) + WorkerRank(slot[i], phase[i])
         == WorkersRank(slot, phase) + WorkerRank(x, p)
    decreases |slot|
  {
    hide WorkerRank;
    var n := |slot| - 1;
    var slot', phase' := slot[i := x], phase[i := p];
    if i < n {
      RankUpdate(slot[..n], phase[..n], i, x, p);
      assert slot'[..n] == slot[..n][i := x] && phase'[..n] == phase[..n][i := p];
    } else {
      assert slot'[..n] == slot[..n] && phase'[..n] == phase[..n];
    }
  }

  lemma PhaseUpdate(s: Sys, i: nat, p: Phase)
    requires i < |s.pool.slot| == |s.phase|
    ensures WorkersRank(s.pool.slot, s.phase[i := p]) + WorkerRank(s.pool.slot[i], s.phase[i])
         == WorkersRank(s.pool.slot, s.phase) + WorkerRank(s.pool.slot[i], p)
  {
    hide WorkersRank, WorkerRank;
    RankUpdate(s.pool.slot, s.phase, i, s.pool.slot[i], p);
    assert s.pool.slot[i := s.pool.slot[i]] == s.pool.slot;
  }

  lemma WorkIsNat(c: Conf, s: Sys)
    requires Inv(c, s)
    ensures |s.pool.slot| == |s.phase| && 0 <= Waiting(s) && 0 <= Work(s)
  {
    hide Storage, MemInv, PayloadInv, HeapInv, RingInv, WorkerInv, Conserved, LockInv, KindOf, TaskFor;
  }

  /** A step of the device side that is not the start of a notification. */
  predicate InnerStep(step: Step) {
    DeviceStep(step) && !step.DoLock?
  }

  lemma DrainWorkFalls(c: Conf, s: Sys, step: Step, s': Sys)
    requires Inv(c, s) && Next(c, s, step, s') && InnerStep(step) && DrainStep(step)
    ensures |s.pool.slot| == |s.phase| && |s'.pool.slot| == |s'.phase| && Work(s') < Work(s)
  {
    hide Storage, MemInv, PayloadInv, HeapInv, RingInv, Conserved, KindOf, MakeTask, Answer, EndMem, PerformAll,
        Perform;
    hide IsChain, Pops, WorkersRank, TaskFor;
    match step {
      case DoSnapshot =>
      case DoPopSkip(ds) => PopSkipFacts(c, s, ds, s');
      case DoPopRequest(ds) => PopRequestFacts(c, s, ds, s');
      case DoReserve(i) =>
      case DoHandOver =>
        var i := s.pc.to;
        assert WorkerOk(s.pool.working[i], s.pool.slot[i], s.phase[i], true, s.popped, s.reqs);
        RankUpdate(s.pool.slot, s.phase, i, Some(s.pc.task), s.phase[i]);
        assert s.phase[i := s.phase[i]] == s.phase;
      case DoRefuse(ds) =>
      case DoReject =>
      case DoEndDrain =>
        if s.pc.who.Worker? {
          PhaseUpdate(s, s.pc.who.id, Returned);
        }
    }
  }

  lemma WorkerWorkFalls(c: Conf, s: Sys, step: Step, s': Sys)
    requires Inv(c, s) && Next(c, s, step, s') && WorkerStep(step)
    ensures |s.pool.slot| == |s.phase| && |s'.pool.slot| == |s'.phase| && Work(s') < Work(s)
  {
    hide Storage, MemInv, PayloadInv, HeapInv, RingInv, Conserved, KindOf, MakeTask, Answer, EndMem, PerformAll,
        Perform;
    hide IsChain, WorkersRank, TaskFor, Pread, Apply, Count, WorkerInv;
    match step {
      case DoIo(i, n, err) => PhaseUpdate(s, i, s'.phase[i]);
      case DoAnswer(i, ds) => PhaseUpdate(s, i, Answered);
      case DoComplete => PhaseUpdate(s, s.pc.who.id, Ended);
      case DoDrop(i) => RankUpdate(s.pool.slot, s.phase, i, None, Clearing);
      case DoClear(i) =>
        ClearingIsEmpty(c, s, i);
        PhaseUpdate(s, i, Idle);
    }
  }

  lemma ClearingIsEmpty(c: Conf, s: Sys, i: nat)
    requires Inv(c, s) && i < |s.phase| && s.phase[i].Clearing?
    ensures |s.phase| == |s.pool.slot| && s.pool.slot[i].None?
  {
    hide Storage, MemInv, PayloadInv, HeapInv, Conserved, RingInv, TaskFor, KindOf;
    assert WorkerOk(s.pool.working[i], s.pool.slot[i], s.phase[i], Reserved(s.pc) == Some(i), s.popped, s.reqs);
  }

  /** Every inner step lowers the work that is left; the start of a notification adds two. */
  lemma WorkFalls(c: Conf, s: Sys, step: Step, s': Sys)
    requires Inv(c, s) && Next(c, s, step, s') && DeviceStep(step)
    ensures |s.pool.slot| == |s.phase| && |s'.pool.slot| == |s'.phase|
    ensures InnerStep(step) ==> Work(s') < Work(s)
    ensures step.DoLock? ==> Work(s') == Work(s) + 2
  {
    WorkIsNat(c, s);
    hide Inv, WorkersRank;
    if step.DoLock? {
    } else if DrainStep(step) {
      DrainWorkFalls(c, s, step, s');
    } else {
      WorkerWorkFalls(c, s, step, s');
    }
  }

  function Locks(steps: seq<Step>, a: nat, b: nat): nat
    requires a <= b <= |steps|
    decreases b
  {
    if a == b then 0 else Locks(steps, a, b - 1) + if steps[b - 1].DoLock? then 1 else 0
  }

  /** Without steps of the guest, the device takes at most the work that is left and two more steps per notification. */
  lemma {:induction false} BoundedWork(c: Conf, run: seq<Sys>, steps: seq<Step>, a: nat, b: nat)
    requires Run(c, run, steps) && a <= b <= |steps|
    requires forall k :: a <= k < b ==> DeviceStep(steps[k])
    ensures |run| == |steps| + 1
    ensures |run[a].pool.slot| == |run[a].phase| && |run[b].pool.slot| == |run[b].phase|
    ensures 0 <= Work(run[b]) && Work(run[b]) + (b - a - Locks(steps, a, b)) <= Work(run[a]) + 2 * Locks(steps, a, b)
    decreases b
  {
    hide Inv, Next, Init, Work;
    RunKeepsInv(c, run, steps, b);
    WorkIsNat(c, run[b]);
    if a < b {
      BoundedWork(c, run, steps, a, b - 1);
      RunKeepsInv(c, run, steps, b - 1);
      RunStep(c, run, steps, b - 1);
      WorkFalls(c, run[b - 1], steps[b - 1], run[b]);
    }
  }

  // Rest

  /** Nobody holds the device lock and every worker is idle. */
  ghost predicate AtRest(s: Sys) {
    && s.pc.Unlocked?
    && forall i :: 0 <= i < |s.phase| && i < |s.pool.slot| ==> s.pool.slot[i].None? && s.phase[i].Idle?
  }

  /** Away from rest the device side has an inner step to take. */
  lemma MovesUnlessAtRest(c: Conf, s: Sys) returns (step: Step, s': Sys)
    requires Inv(c, s) && !AtRest(s)
    ensures Next(c, s, step, s') && InnerStep(step)
  {
    hide Inv, Next;
    if !s.pc.Unlocked? {
      step, s' := HolderMoves(c, s);
    } else {
      var i :| 0 <= i < |s.phase| && i < |s.pool.slot| && !(s.pool.slot[i].None? && s.phase[i].Idle?);
      step, s' := WorkerMovesOn(c, s, i);
    }
  }

  /** At rest it has none. */
  lemma NoneAtRest(c: Conf, s: Sys, step: Step, s': Sys)
    requires Inv(c, s) && AtRest(s) && InnerStep(step)
    ensures !Next(c, s, step, s')
  {
    hide Storage, MemInv, PayloadInv, HeapInv, RingInv, WorkerInv, Conserved, KindOf, MakeTask, Answer, EndMem,
        PerformAll;
    hide Perform, IsChain, Pread, Apply, Count;
  }

  /** The notification under way will take everything, or everything is taken. */
  ghost predicate Covered(s: Sys) {
    || s.popped == |s.reqs|
    || (|s.reqs| - s.popped < U16 && (s.pc.Locked? || (HasGoal(s.pc) && s.pc.goal == |s.reqs|)))
  }

  lemma StaysCovered(c: Conf, s: Sys, step: Step, s': Sys)
    requires Inv(c, s) && Next(c, s, step, s') && Inv(c, s') && InnerStep(step) && Covered(s)
    ensures Covered(s') && s'.reqs == s.reqs
  {
    hide Storage, MemInv, PayloadInv, HeapInv, RingInv, WorkerInv, Conserved, LockInv, KindOf, MakeTask, Answer, EndMem;
    hide PerformAll, Perform, IsChain, Pread, Apply, Count;
    if HasGoal(s.pc) {
      DrainStops(c, s);
    }
  }

  lemma {:induction false} CoveredOnward(c: Conf, run: seq<Sys>, steps: seq<Step>, a: nat, b: nat)
    requires Run(c, run, steps) && a <= b <= |steps| && |run| == |steps| + 1 && Covered(run[a])
    requires forall k :: a <= k < b ==> InnerStep(steps[k])
    ensures Covered(run[b])
    decreases b
  {
    hide Inv, Next, Init, Covered;
    if a < b {
      CoveredOnward(c, run, steps, a, b - 1);
      RunKeepsInv(c, run, steps, b - 1);
      RunKeepsInv(c, run, steps, b);
      RunStep(c, run, steps, b - 1);
      StaysCovered(c, run[b - 1], steps[b - 1], run[b]);
    }
  }

  lemma {:induction false} NoLocks(steps: seq<Step>, a: nat, b: nat)
    requires a <= b <= |steps| && forall k :: a <= k < b ==> InnerStep(steps[k])
    ensures Locks(steps, a, b) == 0
    decreases b
  {
    if a < b {
      NoLocks(steps, a, b - 1);
    }
  }

  lemma Locking(c: Conf, run: seq<Sys>, steps: seq<Step>, a: nat)
    requires Run(c, run, steps) && a < |steps| && steps[a].DoLock?
    ensures |run| == |steps| + 1 && run[a + 1] == run[a].(pc := Locked(Outside))
  {
    hide Run;
    RunStep(c, run, steps, a);
  }

  lemma QuietAtRest(s: Sys)
    requires Covered(s) && AtRest(s)
    ensures Quiescent(s)
  {
  }

  /**
   One notification is enough: with fewer than 2^16 requests waiting, the inner
   steps that follow it come to rest after at most Work + 2 of them, and at rest
   the system is quiet.
   */
  lemma BecomesQuiet(c: Conf, run: seq<Sys>, steps: seq<Step>, a: nat, b: nat)
    requires Run(c, run, steps) && a < b <= |steps| && steps[a].DoLock?
    requires forall k :: a < k < b ==> InnerStep(steps[k])
    ensures |run| == |steps| + 1 && |run[a].pool.slot| == |run[a].phase|
    ensures b - a - 1 <= Work(run[a]) + 2
    ensures |run[a].reqs| - run[a].popped < U16 && AtRest(run[b]) ==> Quiescent(run[b])
  {
    hide Inv, Next, Run, Work, AtRest, Quiescent;
    Locking(c, run, steps, a);
    RunStep(c, run, steps, a);
    RunKeepsInv(c, run, steps, a);
    WorkFalls(c, run[a], steps[a], run[a + 1]);
    BoundedWork(c, run, steps, a + 1, b);
    NoLocks(steps, a + 1, b);
    if |run[a].reqs| - run[a].popped < U16 && AtRest(run[b]) {
      CoveredOnward(c, run, steps, a + 1, b);
      QuietAtRest(run[b]);
    }
  }
}
