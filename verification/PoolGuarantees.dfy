/**
 What the pool protocol guarantees in every run: each accepted task runs
 exactly once, the flags and slots move as the atomic pool's do, and no set of
 threads waits for each other before shutdown.
 */
module PoolGuarantees {
  import opened PoolSpec
  import opened PoolProtocol
  import opened PoolProof
  import opened PoolTheorems

  // Exactly once

  lemma {:induction false} PendingSits(slot: seq<Option<nat>>, pc: seq<Pc>, x: nat) returns (i: nat)
    requires |slot| <= |pc| && x in Pending(slot, pc)
    ensures i < |slot| && slot[i] == Some(x) && Parked(pc[i])
    decreases |slot|
  {
    var n := |slot| - 1;
    if x in Pending(slot[..n], pc) {
      i := PendingSits(slot[..n], pc, x);
    } else {
      assert x in Waits(slot[n], pc[n]);
      i := n;
    }
  }

  lemma {:induction false} OnceEach(a: seq<nat>, x: nat)
    requires forall k, l :: 0 <= k < l < |a| ==> a[k] != a[l]
    ensures multiset(a)[x] <= 1
    decreases |a|
  {
    if a != [] {
      var n := |a| - 1;
      assert a == a[..n] + [a[n]];
      OnceEach(a[..n], x);
      assert multiset(a) == multiset(a[..n]) + multiset{a[n]};
      assert a[n] !in a[..n];
    }
  }

  /**
   In every reachable state, whether or not shutdown has begun: no task runs
   twice, only accepted tasks run, and an accepted task that has not run yet is
   in the slot of a worker that has not exited.
   */
  lemma ExactlyOnce(run: seq<State>, k: nat, x: nat)
    requires Run(run) && k < |run|
    ensures multiset(run[k].ran)[x] <= 1
    ensures x in run[k].ran ==> x in run[k].accepted
    ensures x in run[k].accepted && x !in run[k].ran ==>
              exists i :: 0 <= i < |run[k].p.slot| && i < |run[k].pc|
                          && run[k].p.slot[i] == Some(x) && Parked(run[k].pc[i]) && !run[k].pc[i].Exited?
  {
    hide Run, Pending, LocksInv, WorkersInv, Parked;
    RunKeepsInv(run, k);
    var s := run[k];
    OnceEach(s.accepted, x);
    assert multiset(s.accepted)[x] == multiset(s.ran)[x] + Pending(s.p.slot, s.pc)[x];
    if x in s.accepted && x !in s.ran {
      assert x in multiset(s.accepted) && x !in multiset(s.ran);
      var i := PendingSits(s.p.slot, s.pc, x);
      WorkerIs(s.p, s.pc, s.n, i);
      NotExited(s.p.working[i], s.p.slot[i], s.pc[i]);
    }
  }

  lemma NotExited(working: bool, slot: Option<nat>, pc: Pc)
    requires WorkerOk(working, slot, pc) && slot.Some?
    ensures !pc.Exited?
  {
  }

  /** When no slot is occupied, exactly the accepted tasks have run. */
  lemma AllRan(run: seq<State>, k: nat)
    requires Run(run) && k < |run|
    requires forall i :: 0 <= i < |run[k].p.slot| ==> run[k].p.slot[i].None?
    ensures multiset(run[k].ran) == multiset(run[k].accepted)
  {
    hide Run, Pending, LocksInv, WorkersInv;
    RunKeepsInv(run, k);
    NothingPending(run[k].p.slot, run[k].pc);
  }

  /** How far a parked worker is from starting its task. */
  function Distance(pc: Pc): nat {
    match pc
    case Waiting => 3
    case Waking => 2
    case Top => 1
    case _ => 0
  }

  /**
   Nothing can stop an accepted task: its worker always has a step of its own
   that brings it closer to calling the task, also after quit was set.
   */
  lemma AcceptedTaskRuns(run: seq<State>, k: nat, i: nat) returns (s': State)
    requires Run(run) && k < |run| && i < run[k].n && i < |run[k].p.slot| && i < |run[k].pc|
    requires run[k].p.slot[i].Some? && Parked(run[k].pc[i])
    ensures Moves(run[k], i, s')
    ensures |s'.pc| == |run[k].pc| && s'.p.slot == run[k].p.slot
    ensures Distance(s'.pc[i]) < Distance(run[k].pc[i])
    ensures s'.pc[i].Running? ==> s'.ran == run[k].ran + [run[k].p.slot[i].value]
  {
    hide Run, TasksInv;
    RunKeepsInv(run, k);
    var s := run[k];
    WorkerIs(s.p, s.pc, s.n, i);
    match s.pc[i] {
      case Waiting => s' := At(s, i, Waking);
      case Waking =>
        OwnLockFree(s, i);
        s' := At(s, i, Top).(own := s.own[i := Some(i)]);
      case Top => s' := At(s, i, Running).(ran := s.ran + [s.p.slot[i].value]);
    }
  }

  /** Only a submitter that has reserved a worker holds its lock while it waits. */
  lemma OwnLockFree(s: State, i: nat)
    requires LocksInv(s) && WorkersInv(s.p, s.pc, s.n) && i < s.n && s.pc[i].Waking? && s.p.slot[i].Some?
    ensures s.own[i].None?
  {
    hide Parked, Busy;
    if s.own[i].Some? {
      var t := s.own[i].value;
      assert t < s.n + 2 by { assert Owned(s.own[i], s.pc, WorkerHolder(i)); }
      WorkerOwner(s, i, t);
      ThreadIs(s.p, s.pc, s.n, t);
      assert false;
    }
  }

  /** A hand-over finds the slot empty and the flag set; a cleared flag means an empty slot. */
  lemma NeverOverwrites(run: seq<State>, k: nat, t: nat)
    requires Run(run) && k < |run| && t < |run[k].pc|
    ensures var s := run[k];
            && Sized(s.p, s.n)
            && (s.pc[t].AtWorker? ==> s.pc[t].i < s.n && s.p.slot[s.pc[t].i].None? && s.p.working[s.pc[t].i])
            && (t < s.n && !s.p.working[t] ==> s.p.slot[t].None?)
  {
    hide Run, LocksInv, TasksInv;
    RunKeepsInv(run, k);
    var s := run[k];
    ThreadIs(s.p, s.pc, s.n, t);
    if t < s.n {
      WorkerIs(s.p, s.pc, s.n, t);
    }
  }

  // Refinement of the atomic pool

  lemma PoolRefines(run: seq<State>, k: nat)
    requires Run(run) && k + 1 < |run|
    ensures Move(run[k].p, run[k + 1].p)
  {
    hide Inv, Init, Move;
    RunKeepsInv(run, k);
    var s, s' := run[k], run[k + 1];
    assert Next(s, s');
    if t :| Moves(s, t, s') {
      StepRefines(s, t, s');
    } else {
      Stutters(s.p);
    }
  }

  lemma Stutters(p: Pool<nat>)
    ensures Move(p, p)
  {
  }

  lemma StepRefines(s: State, t: nat, s': State)
    requires Inv(s) && Moves(s, t, s')
    ensures Move(s.p, s'.p)
  {
    hide LocksInv, TasksInv, WorkersInv, Parked, Busy;
    if t < s.n {
      WorkerIs(s.p, s.pc, s.n, t);
    }
    ThreadIs(s.p, s.pc, s.n, t);
    if t < s.n && Work(s, t, s') {
      if s.pc[t].Finishing? {
        FinishingHasTask(s.p.working[t], s.p.slot[t]);
      } else if s.pc[t].Clearing? {
        ClearingIsFlagged(s.p.working[t], s.p.slot[t]);
      }
    }
  }

  lemma FinishingHasTask(working: bool, slot: Option<nat>)
    requires WorkerOk(working, slot, Finishing)
    ensures slot.Some?
  {
  }

  lemma ClearingIsFlagged(working: bool, slot: Option<nat>)
    requires WorkerOk(working, slot, Clearing)
    ensures working && slot.None?
  {
  }

  // Deadlock freedom

  datatype Lock = Device | PoolLock | WorkerLock(i: nat)

  /** The lock a thread is about to acquire. */
  function Wants(t: nat, pc: Pc): Option<Lock> {
    match pc
    case WantDevice => Some(Device)
    case WantPool(_) => Some(PoolLock)
    case WantClear => Some(PoolLock)
    case WantWorker(_, i) => Some(WorkerLock(i))
    case Waking => Some(WorkerLock(t))
    case _ => None
  }

  function Owner(s: State, l: Lock): Option<nat> {
    match l
    case Device => s.dev
    case PoolLock => s.lock
    case WorkerLock(i) => if i < |s.own| then s.own[i] else None
  }

  /** Thread t wants a lock that thread u holds. */
  predicate WaitsFor(s: State, t: nat, u: nat) {
    t < |s.pc| && u < |s.pc| && Wants(t, s.pc[t]).Some? && Owner(s, Wants(t, s.pc[t]).value) == Some(u)
  }

  /** Waiting for the device ranks above waiting for any other lock, and that above not waiting. */
  function Rank(t: nat, pc: Pc): nat {
    if Wants(t, pc).None? then 0 else if pc.WantDevice? then 2 else 1
  }

  lemma WaitsDownward(s: State, t: nat, u: nat)
    requires Inv(s) && !s.quit && WaitsFor(s, t, u)
    ensures Rank(u, s.pc[u]) < Rank(t, s.pc[t])
  {
    hide TasksInv, Owned, Parked, Busy;
    match s.pc[t] {
      case WantDevice => DeviceOwner(s, u);
      case WantPool(_) => PoolOwner(s, u);
      case WantClear => PoolOwner(s, u);
      case WantWorker(_, i) =>
        ThreadIs(s.p, s.pc, s.n, t);
        WorkerOwner(s, i, u);
        ReservedIsParked(s, t, i);
        HolderIsIdle(s, t, u, i);
      case Waking =>
        if t < s.n {
          WorkerOwner(s, t, u);
        }
    }
  }

  lemma ReservedIsParked(s: State, t: nat, i: nat)
    requires Inv(s) && t < s.n + 2 && HasTarget(s.pc[t]) && s.pc[t].i == i
    ensures i < s.n && i != t && Parked(s.pc[i])
  {
    hide LocksInv, TasksInv;
    ThreadIs(s.p, s.pc, s.n, t);
  }

  /** The lock of a reserved worker can only be held by that worker, about to wait again. */
  lemma HolderIsIdle(s: State, t: nat, u: nat, i: nat)
    requires Inv(s) && !s.quit && t < s.n + 2 && u < s.n + 2 && i < s.n
    requires s.pc[t].WantWorker? && s.pc[t].i == i && Parked(s.pc[i]) && s.own[i] == Some(u)
    ensures u == i && s.pc[u].Top?
  {
    hide TasksInv, WorkersInv, Owned;
    WorkerOwner(s, i, u);
    OnlyHolderTargets(s, t);
  }

  /** A path in the wait-for graph. */
  ghost predicate WaitPath(s: State, path: seq<nat>) {
    && (forall k :: 0 <= k < |path| ==> path[k] < |s.pc|)
    && forall k :: 0 <= k < |path| - 1 ==> WaitsFor(s, path[k], path[k + 1])
  }

  lemma {:induction false} RanksFall(s: State, path: seq<nat>)
    requires Inv(s) && !s.quit && WaitPath(s, path) && |path| >= 2
    ensures Rank(path[|path| - 1], s.pc[path[|path| - 1]]) < Rank(path[0], s.pc[path[0]])
    decreases |path|
  {
    hide Inv, Rank, WaitsFor;
    var n := |path| - 1;
    WaitsDownward(s, path[n - 1], path[n]);
    if n > 1 {
      RanksFall(s, path[..n]);
    }
  }

  /** Deadlock freedom: before shutdown, the wait-for graph of every reachable state is acyclic. */
  lemma NoDeadlock(run: seq<State>, k: nat, path: seq<nat>)
    requires Run(run) && k < |run| && !run[k].quit
    requires WaitPath(run[k], path) && |path| >= 2
    ensures path[0] != path[|path| - 1]
  {
    hide Run, Inv;
    RunKeepsInv(run, k);
    RanksFall(run[k], path);
  }

  /** A thread that does not wait for a lock somebody holds can take a step. */
  lemma FreeToMove(s: State, t: nat) returns (s': State)
    requires Inv(s) && t < s.n + 2 && !s.pc[t].Exited?
    requires Wants(t, s.pc[t]).Some? ==> Owner(s, Wants(t, s.pc[t]).value).None?
    ensures Moves(s, t, s')
  {
    hide TasksInv, LocksInv;
    ThreadIs(s.p, s.pc, s.n, t);
    if t < s.n {
      WorkerIs(s.p, s.pc, s.n, t);
    }
    match s.pc[t] {
      case Away => s' := At(s, t, WantDevice);
      case WantDevice => s' := At(s, t, InDevice).(dev := Some(t));
      case InDevice => s' := At(s, t, if t < s.n then Finishing else Away).(dev := None);
      case WantPool(task) => s' := At(s, t, Scanning(task)).(lock := Some(t));
      case Scanning(task) =>
        if AllBusy(s.p) {
          s' := At(s, t, InDevice).(lock := None, rejected := s.rejected + [task]);
        } else {
          var i := LeastIdle(s.p);
          s' := At(s, t, WantWorker(task, i)).(lock := None, p := Reserve(s.p, i));
        }
      case WantWorker(task, i) => s' := At(s, t, AtWorker(task, i)).(own := s.own[i := Some(t)]);
      case AtWorker(task, i) =>
        if s.quit {
          s' := At(s, t, InDevice).(own := s.own[i := None], rejected := s.rejected + [task]);
        } else {
          s' := At(s, t, InDevice).(own := s.own[i := None], p := HandOver(s.p, i, task), accepted := s.accepted
                                    + [task]);
        }
      case Waiting => s' := At(s, t, Waking);
      case Waking => s' := At(s, t, Top).(own := s.own[t := Some(t)]);
      case Top =>
        if s.p.slot[t].Some? {
          s' := At(s, t, Running).(ran := s.ran + [s.p.slot[t].value]);
        } else if s.quit {
          s' := At(s, t, Exited).(lock := None);
        } else {
          s' := At(s, t, Waiting).(own := s.own[t := None]);
        }
      case Running => s' := At(s, t, WantDevice);
      case Finishing => s' := At(s, t, WantClear).(p := Drop(s.p, t));
      case WantClear => s' := At(s, t, Clearing).(lock := Some(t));
      case Clearing => s' := At(s, t, Top).(lock := None, p := Clear(s.p, t));
    }
  }

  /**
   Before shutdown nobody is stuck: whoever waits, following the holders of the
   wanted locks leads in at most two hops to a thread that can take a step.
   */
  lemma NobodyStuck(run: seq<State>, k: nat, t: nat) returns (path: seq<nat>, s': State)
    requires Run(run) && k < |run| && !run[k].quit && t < |run[k].pc|
    ensures 1 <= |path| <= 3 && path[0] == t && WaitPath(run[k], path)
    ensures Moves(run[k], path[|path| - 1], s')
  {
    hide Run;
    RunKeepsInv(run, k);
    path, s' := Unblock(run[k], t);
  }

  lemma Unblock(s: State, t: nat) returns (path: seq<nat>, s': State)
    requires Inv(s) && !s.quit && t < |s.pc|
    ensures 1 <= |path| <= 1 + Rank(t, s.pc[t]) && path[0] == t && WaitPath(s, path)
    ensures Moves(s, path[|path| - 1], s')
    decreases Rank(t, s.pc[t])
  {
    hide TasksInv, WorkersInv, Owned, Moves;
    if Wants(t, s.pc[t]).Some? && Owner(s, Wants(t, s.pc[t]).value).Some? {
      var u := Owner(s, Wants(t, s.pc[t]).value).value;
      OwnersExist(s, t);
      WaitsDownward(s, t, u);
      var rest;
      rest, s' := Unblock(s, u);
      path := [t] + rest;
    } else {
      path := [t];
      s' := FreeToMove(s, t);
    }
  }

  lemma OwnersExist(s: State, t: nat)
    requires Inv(s) && !s.quit && t < |s.pc|
    requires Wants(t, s.pc[t]).Some? && Owner(s, Wants(t, s.pc[t]).value).Some?
    ensures Owner(s, Wants(t, s.pc[t]).value).value < |s.pc|
  {
    hide TasksInv, WorkersInv;
  }
}
