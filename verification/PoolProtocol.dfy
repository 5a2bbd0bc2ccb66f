/**
 The thread pool at the level of its locks: the vCPU thread, the ioeventfd poll
 thread and the workers, each between two lock operations, with the device
 lock, the pool lock and one lock per worker.

 Threads 0 .. n-1 are the workers, n and n+1 the two notifying threads. Tasks
 are numbered in the order in which they are submitted.
 */
module PoolProtocol {
  import opened PoolSpec

  datatype Pc =
    | Away                        // a notifying thread, outside the device
    | WantDevice                  // about to lock the device
    | InDevice                    // holds the device lock
    | WantPool(task: nat)         // submitting: about to lock the pool
    | Scanning(task: nat)         // holds the pool lock, scans the flags
    | WantWorker(task: nat, i: nat) // has reserved worker i, about to lock it
    | AtWorker(task: nat, i: nat) // holds the lock of worker i
    | Waiting                     // a worker in its timed wait, own lock released
    | Waking                      // wait over, about to lock its own lock again
    | Top                         // holds its own lock, tests its task slot
    | Running                     // executes its task, no device lock yet
    | Finishing                   // task function returned
    | WantClear                   // slot emptied, about to lock the pool
    | Clearing                    // holds the pool lock, clears its flag
    | Exited

  datatype State = State(
    n: nat,
    dev: Option<nat>,             // owner of the device lock
    lock: Option<nat>,            // owner of the pool lock
    own: seq<Option<nat>>,        // owner of each worker's lock
    p: Pool<nat>,
    quit: bool,
    pc: seq<Pc>,
    issued: nat,                   // how many tasks were submitted
    accepted: seq<nat>,           // thread_pool_run returned 0
    rejected: seq<nat>,           // it returned -1
    ran: seq<nat>)                // tasks whose function was called

  predicate Shape(s: State) {
    |s.own| == s.n && Sized(s.p, s.n) && |s.pc| == s.n + 2
  }

  function At(s: State, t: nat, pc: Pc): State
    requires t < |s.pc|
  {
    s.(pc := s.pc[t := pc])
  }

  // Steps of thread t

  ghost predicate EnterLeave(s: State, t: nat, s': State)
    requires t < |s.pc|
  {
    || (s.pc[t].Away? && s' == At(s, t, WantDevice))
    || (s.pc[t].WantDevice? && s.dev.None? && s' == At(s, t, InDevice).(dev := Some(t)))
    || (s.pc[t].InDevice? && s' == At(s, t, if t < s.n then Finishing else Away).(dev := None))
  }

  /** thread_pool_run, one lock operation at a time. */
  ghost predicate Submit(s: State, t: nat, s': State)
    requires Shape(s) && t < |s.pc|
  {
    match s.pc[t]
    case InDevice => s' == At(s, t, WantPool(s.issued)).(issued := s.issued + 1)
    case WantPool(task) => s.lock.None? && s' == At(s, t, Scanning(task)).(lock := Some(t))
    case Scanning(task) =>
      || (AllBusy(s.p) && s' == At(s, t, InDevice).(lock := None, rejected := s.rejected + [task]))
      || (exists i :: FirstIdle(s.p, i) && s' == At(s, t, WantWorker(task, i)).(lock := None, p := Reserve(s.p, i)))
    case WantWorker(task, i) => i < s.n && s.own[i].None?
        && s' == At(s, t, AtWorker(task, i)).(own := s.own[i := Some(t)])
    case AtWorker(task, i) =>
      i < s.n &&
      if s.quit then s' == At(s, t, InDevice).(own := s.own[i := None], rejected := s.rejected + [task])
      else s' == At(s, t, InDevice).(own := s.own[i := None], p := HandOver(s.p, i, task),
                                     accepted := s.accepted + [task])
    case _ => false
  }

  /** The loop of worker t. Leaving it unlocks the pool lock, whoever holds it, and keeps the worker's own. */
  ghost predicate Work(s: State, t: nat, s': State)
    requires Shape(s) && t < s.n
  {
    match s.pc[t]
    case Waiting => s' == At(s, t, Waking)
    case Waking => s.own[t].None? && s' == At(s, t, Top).(own := s.own[t := Some(t)])
    case Top =>
      if s.p.slot[t].Some? then s' == At(s, t, Running).(ran := s.ran + [s.p.slot[t].value])
      else if s.quit then s' == At(s, t, Exited).(lock := None)
      else s' == At(s, t, Waiting).(own := s.own[t := None])
    case Running => s' == At(s, t, WantDevice)
    case Finishing => s' == At(s, t, WantClear).(p := Drop(s.p, t))
    case WantClear => s.lock.None? && s' == At(s, t, Clearing).(lock := Some(t))
    case Clearing => s' == At(s, t, Top).(lock := None, p := Clear(s.p, t))
    case _ => false
  }

  ghost predicate Moves(s: State, t: nat, s': State) {
    && Shape(s) && t < s.n + 2
    && (EnterLeave(s, t, s') || Submit(s, t, s') || (t < s.n && Work(s, t, s')))
  }

  ghost predicate Next(s: State, s': State) {
    (exists t :: Moves(s, t, s')) || s' == s.(quit := true)
  }

  ghost predicate Init(s: State) {
    && Shape(s)
    && s.dev.None? && s.lock.None? && !s.quit
    && (forall i :: 0 <= i < s.n ==> s.own[i].None? && !s.p.working[i] && s.p.slot[i].None? && s.pc[i].Waking?)
    && s.pc[s.n].Away? && s.pc[s.n + 1].Away?
    && s.issued == 0 && s.accepted == [] && s.rejected == [] && s.ran == []
  }

  ghost predicate Run(run: seq<State>) {
    |run| > 0 && Init(run[0]) && forall k :: 0 <= k < |run| - 1 ==> Next(run[k], run[k + 1])
  }

  // Invariant

  predicate HoldsDevice(pc: Pc) {
    pc.InDevice? || pc.WantPool? || pc.Scanning? || pc.WantWorker? || pc.AtWorker?
  }

  /** A worker between picking up its task and emptying its slot. */
  predicate Busy(pc: Pc) {
    pc.Running? || pc.WantDevice? || HoldsDevice(pc) || pc.Finishing?
  }

  predicate Parked(pc: Pc) {
    pc.Waiting? || pc.Waking? || pc.Top? || pc.Exited?
  }

  predicate HoldsOwn(pc: Pc) {
    !pc.Waiting? && !pc.Waking?
  }

  predicate Carries(pc: Pc) {
    pc.WantPool? || pc.Scanning? || pc.WantWorker? || pc.AtWorker?
  }

  predicate HasTarget(pc: Pc) {
    pc.WantWorker? || pc.AtWorker?
  }

  /** The places of a thread that is not a worker. */
  predicate Notifies(pc: Pc) {
    pc.Away? || pc.WantDevice? || HoldsDevice(pc)
  }

  /** o is the owner of a lock that a thread holds exactly while it is at a place of the given kind. */
  ghost predicate Owned(o: Option<nat>, pc: seq<Pc>, holds: (nat, Pc) -> bool) {
    && (forall t :: 0 <= t < |pc| ==> (holds(t, pc[t]) <==> o == Some(t)))
    && (o.Some? ==> o.value < |pc|)
  }

  function DeviceHolder(): (nat, Pc) -> bool {
    (t: nat, pc: Pc) => HoldsDevice(pc)
  }

  function PoolHolder(): (nat, Pc) -> bool {
    (t: nat, pc: Pc) => pc.Scanning? || pc.Clearing?
  }

  /** Worker i's lock is held by itself, except while it waits, or by the submitter that fills its slot. */
  function WorkerHolder(i: nat): (nat, Pc) -> bool {
    (t: nat, pc: Pc) => (t == i && HoldsOwn(pc)) || (pc.AtWorker? && pc.i == i)
  }

  ghost predicate LocksInv(s: State) {
    && Shape(s)
    && Owned(s.dev, s.pc, DeviceHolder())
    && (forall i :: 0 <= i < s.n ==> Owned(s.own[i], s.pc, WorkerHolder(i)))
    && (!s.quit ==> Owned(s.lock, s.pc, PoolHolder()) && forall t :: 0 <= t < |s.pc| ==> !s.pc[t].Exited?)
  }

  /** A worker's flag and slot agree with where it is. */
  predicate WorkerOk(working: bool, slot: Option<nat>, pc: Pc) {
    && !pc.Away?
    && (slot.Some? ==> working && (Busy(pc) || (Parked(pc) && !pc.Exited?)))
    && (Busy(pc) ==> slot.Some?)
    && (!working ==> Parked(pc))
  }

  /** A reserved worker is parked with an empty slot. */
  ghost predicate TargetOk(p: Pool<nat>, pc: seq<Pc>, t: nat)
    requires t < |pc| && |p.slot| == |p.working| <= |pc|
  {
    HasTarget(pc[t]) ==>
      var i := pc[t].i;
      i < |p.slot| && i != t && p.working[i] && p.slot[i].None? && Parked(pc[i])
  }

  ghost predicate WorkersInv(p: Pool<nat>, pc: seq<Pc>, n: nat) {
    && Sized(p, n) && |pc| == n + 2
    && (forall i :: 0 <= i < n ==> WorkerOk(p.working[i], p.slot[i], pc[i]))
    && (forall t :: 0 <= t < |pc| ==> TargetOk(p, pc, t))
    && (forall t :: n <= t < |pc| ==> Notifies(pc[t]))
  }

  function Waits(slot: Option<nat>, pc: Pc): multiset<nat> {
    if slot.Some? && Parked(pc) then multiset{slot.value} else multiset{}
  }

  /** Accepted tasks whose function has not been called yet. */
  function Pending(slot: seq<Option<nat>>, pc: seq<Pc>): multiset<nat>
    requires |slot| <= |pc|
  {
    if slot == [] then multiset{}
    else Pending(slot[..|slot| - 1], pc) + Waits(slot[|slot| - 1], pc[|slot| - 1])
  }

  /** Every accepted task has run or is pending, each as often as it was accepted. */
  predicate Balanced(accepted: seq<nat>, ran: seq<nat>, pending: multiset<nat>) {
    multiset(accepted) == multiset(ran) + pending
  }

  ghost predicate Distinct(accepted: seq<nat>, issued: nat) {
    && (forall k :: 0 <= k < |accepted| ==> accepted[k] < issued)
    && (forall k, l :: 0 <= k < l < |accepted| ==> accepted[k] != accepted[l])
  }

  ghost predicate TasksInv(s: State) {
    && Shape(s)
    && Balanced(s.accepted, s.ran, Pending(s.p.slot, s.pc))
    && Distinct(s.accepted, s.issued)
    && (forall t :: 0 <= t < |s.pc| && Carries(s.pc[t]) ==> s.pc[t].task < s.issued && s.pc[t].task !in s.accepted)
  }

  ghost predicate Inv(s: State) {
    Shape(s) && LocksInv(s) && WorkersInv(s.p, s.pc, s.n) && TasksInv(s)
  }
}
