/**
 What every step of the pool protocol keeps.
 */
module PoolProof {
  import opened PoolSpec
  import opened PoolProtocol

  // Locks

  /** A thread moves and keeps, takes or gives back a lock. */
  lemma OwnedMove(o: Option<nat>, pc: seq<Pc>, holds: (nat, Pc) -> bool, t: nat, q: Pc, o': Option<nat>)
    requires Owned(o, pc, holds) && t < |pc|
    requires || (o' == o && (holds(t, q) <==> holds(t, pc[t])))
             || (o.None? && o' == Some(t) && holds(t, q))
             || (o == Some(t) && o' == None && !holds(t, q))
    ensures Owned(o', pc[t := q], holds)
  {
  }

  lemma WorkerLocksKept(own: seq<Option<nat>>, pc: seq<Pc>, t: nat, q: Pc)
    requires forall i :: 0 <= i < |own| ==> Owned(own[i], pc, WorkerHolder(i))
    requires t < |pc|
    requires forall i :: 0 <= i < |own| ==> (WorkerHolder(i)(t, q) <==> WorkerHolder(i)(t, pc[t]))
    ensures forall i :: 0 <= i < |own| ==> Owned(own[i], pc[t := q], WorkerHolder(i))
  {
    forall i | 0 <= i < |own|
      ensures Owned(own[i], pc[t := q], WorkerHolder(i))
    {
      OwnedMove(own[i], pc, WorkerHolder(i), t, q, own[i]);
    }
  }

  /** Thread t takes or gives back the lock of worker j. */
  lemma WorkerLockMoves(own: seq<Option<nat>>, pc: seq<Pc>, t: nat, q: Pc, j: nat, o: Option<nat>)
    requires forall i :: 0 <= i < |own| ==> Owned(own[i], pc, WorkerHolder(i))
    requires t < |pc| && j < |own|
    requires forall i :: 0 <= i < |own| && i != j ==> (WorkerHolder(i)(t, q) <==> WorkerHolder(i)(t, pc[t]))
    requires || (own[j].None? && o == Some(t) && WorkerHolder(j)(t, q))
             || (own[j] == Some(t) && o == None && !WorkerHolder(j)(t, q))
    ensures forall i :: 0 <= i < |own| ==> Owned(own[j := o][i], pc[t := q], WorkerHolder(i))
  {
    forall i | 0 <= i < |own|
      ensures Owned(own[j := o][i], pc[t := q], WorkerHolder(i))
    {
      OwnedMove(own[i], pc, WorkerHolder(i), t, q, own[j := o][i]);
    }
  }

  lemma LocksEnter(s: State, t: nat, s': State)
    requires LocksInv(s) && WorkersInv(s.p, s.pc, s.n) && t < s.n + 2 && EnterLeave(s, t, s')
    ensures LocksInv(s')
  {
    hide WorkersInv, Owned;
    var q := s'.pc[t];
    assert s'.pc == s.pc[t := q];
    assert s.pc[t].WantDevice? ==> s.dev.None?;
    DeviceOwner(s, t);
    OwnedMove(s.dev, s.pc, DeviceHolder(), t, q, s'.dev);
    AwayIsOutside(s, t);
    WorkerLocksKept(s.own, s.pc, t, q);
    if !s.quit {
      OwnedMove(s.lock, s.pc, PoolHolder(), t, q, s.lock);
    }
  }

  lemma DeviceOwner(s: State, t: nat)
    requires LocksInv(s) && t < s.n + 2
    ensures HoldsDevice(s.pc[t]) <==> s.dev == Some(t)
  {
    assert DeviceHolder()(t, s.pc[t]) <==> s.dev == Some(t);
  }

  lemma PoolOwner(s: State, t: nat)
    requires LocksInv(s) && !s.quit && t < s.n + 2
    ensures s.pc[t].Scanning? || s.pc[t].Clearing? <==> s.lock == Some(t)
  {
    assert PoolHolder()(t, s.pc[t]) <==> s.lock == Some(t);
  }

  lemma WorkerOwner(s: State, i: nat, t: nat)
    requires LocksInv(s) && i < s.n && t < s.n + 2
    ensures (t == i && HoldsOwn(s.pc[t])) || (s.pc[t].AtWorker? && s.pc[t].i == i) <==> s.own[i] == Some(t)
  {
    assert WorkerHolder(i)(t, s.pc[t]) <==> s.own[i] == Some(t);
  }

  lemma AwayIsOutside(s: State, t: nat)
    requires WorkersInv(s.p, s.pc, s.n) && t < s.n + 2
    ensures t < s.n ==> !s.pc[t].Away?
    ensures t >= s.n ==> Notifies(s.pc[t])
  {
  }

  lemma WorkerLocksSubmit(s: State, t: nat, s': State)
    requires LocksInv(s) && WorkersInv(s.p, s.pc, s.n) && t < s.n + 2 && Submit(s, t, s')
    ensures |s'.own| == s.n && forall i :: 0 <= i < |s'.own| ==> Owned(s'.own[i], s'.pc, WorkerHolder(i))
  {
    hide Owned, AllBusy, FirstIdle;
    var q := s'.pc[t];
    assert s'.pc == s.pc[t := q];
    assert TargetOk(s.p, s.pc, t);
    hide WorkersInv;
    if s.pc[t].WantWorker? {
      WorkerLockMoves(s.own, s.pc, t, q, s.pc[t].i, Some(t));
    } else if s.pc[t].AtWorker? {
      WorkerOwner(s, s.pc[t].i, t);
      WorkerLockMoves(s.own, s.pc, t, q, s.pc[t].i, None);
    } else {
      WorkerLocksKept(s.own, s.pc, t, q);
    }
  }

  lemma LocksSubmit(s: State, t: nat, s': State)
    requires LocksInv(s) && WorkersInv(s.p, s.pc, s.n) && t < s.n + 2 && Submit(s, t, s')
    ensures LocksInv(s')
  {
    hide Owned, AllBusy, WorkersInv, WorkerHolder;
    var q := s'.pc[t];
    assert s'.pc == s.pc[t := q];
    WorkerLocksSubmit(s, t, s');
    OwnedMove(s.dev, s.pc, DeviceHolder(), t, q, s.dev);
    if !s.quit {
      PoolOwner(s, t);
      OwnedMove(s.lock, s.pc, PoolHolder(), t, q, s'.lock);
    }
  }

  lemma WorkerLocksWork(s: State, t: nat, s': State)
    requires LocksInv(s) && t < s.n && Work(s, t, s')
    ensures forall i :: 0 <= i < |s'.own| ==> Owned(s'.own[i], s'.pc, WorkerHolder(i))
  {
    hide Owned;
    var q := s'.pc[t];
    assert s'.pc == s.pc[t := q];
    WorkerOwner(s, t, t);
    if s.pc[t].Waking? {
      WorkerLockMoves(s.own, s.pc, t, q, t, Some(t));
    } else if s.pc[t].Top? && q.Waiting? {
      WorkerLockMoves(s.own, s.pc, t, q, t, None);
    } else {
      WorkerLocksKept(s.own, s.pc, t, q);
    }
  }

  /** What a worker's step does to the other two locks. */
  lemma WorkEffect(s: State, t: nat, s': State)
    requires Shape(s) && t < s.n && Work(s, t, s')
    ensures Shape(s') && s'.n == s.n && s'.dev == s.dev && s'.quit == s.quit
    ensures s'.pc == s.pc[t := s'.pc[t]]
    ensures !HoldsDevice(s.pc[t]) && !HoldsDevice(s'.pc[t])
    ensures s'.pc[t].Exited? ==> s.quit
    ensures !s.quit ==>
              || (s'.lock == s.lock && !s.pc[t].Clearing? && !s'.pc[t].Clearing?)
              || (s.lock.None? && s'.lock == Some(t) && s'.pc[t].Clearing?)
              || (s.pc[t].Clearing? && s'.lock.None? && !s'.pc[t].Clearing?)
    ensures !s.pc[t].Scanning? && !s'.pc[t].Scanning?
  {
  }

  lemma LocksWork(s: State, t: nat, s': State)
    requires LocksInv(s) && t < s.n && Work(s, t, s')
    ensures LocksInv(s')
  {
    hide Owned, WorkerHolder, Work;
    WorkEffect(s, t, s');
    WorkerLocksWork(s, t, s');
    var q := s'.pc[t];
    OwnedMove(s.dev, s.pc, DeviceHolder(), t, q, s.dev);
    if !s.quit {
      PoolOwner(s, t);
      OwnedMove(s.lock, s.pc, PoolHolder(), t, q, s'.lock);
    }
  }

  // Workers

  /** A thread moves and the pool does not. */
  lemma PlaceMoves(p: Pool<nat>, pc: seq<Pc>, n: nat, t: nat, q: Pc)
    requires WorkersInv(p, pc, n) && t < |pc|
    requires t < n ==> WorkerOk(p.working[t], p.slot[t], q) && (Parked(pc[t]) && p.slot[t].None? ==> Parked(q))
    requires t >= n ==> Notifies(q)
    requires HasTarget(q) ==> HasTarget(pc[t]) && q.i == pc[t].i
    ensures WorkersInv(p, pc[t := q], n)
  {
    var pc' := pc[t := q];
    forall u | 0 <= u < |pc'|
      ensures TargetOk(p, pc', u)
    {
      assert TargetOk(p, pc, u) && TargetOk(p, pc, t);
    }
  }

  lemma WorkerIs(p: Pool<nat>, pc: seq<Pc>, n: nat, i: nat)
    requires WorkersInv(p, pc, n) && i < n
    ensures Sized(p, n) && |pc| == n + 2
    ensures WorkerOk(p.working[i], p.slot[i], pc[i])
  {
  }

  lemma ThreadIs(p: Pool<nat>, pc: seq<Pc>, n: nat, t: nat)
    requires WorkersInv(p, pc, n) && t < n + 2
    ensures Sized(p, n) && |pc| == n + 2
    ensures TargetOk(p, pc, t)
    ensures t >= n ==> Notifies(pc[t])
  {
  }

  lemma WorkersEnter(s: State, t: nat, s': State)
    requires WorkersInv(s.p, s.pc, s.n) && t < s.n + 2 && EnterLeave(s, t, s')
    ensures WorkersInv(s'.p, s'.pc, s'.n)
  {
    hide TargetOk;
    assert t < s.n ==> WorkerOk(s.p.working[t], s.p.slot[t], s.pc[t]);
    PlaceMoves(s.p, s.pc, s.n, t, s'.pc[t]);
  }

  /** The pool and thread t move together; nobody else has a worker reserved. */
  lemma PoolMoves(p: Pool<nat>, pc: seq<Pc>, n: nat, t: nat, q: Pc, p': Pool<nat>)
    requires WorkersInv(p, pc, n) && Sized(p', n) && t < |pc|
    requires forall i :: 0 <= i < n ==> WorkerOk(p'.working[i], p'.slot[i], pc[t := q][i])
    requires TargetOk(p', pc[t := q], t)
    requires forall u :: 0 <= u < |pc| && u != t ==> !HasTarget(pc[u])
    requires t >= n ==> Notifies(q)
    ensures WorkersInv(p', pc[t := q], n)
  {
    var pc' := pc[t := q];
    forall u | 0 <= u < |pc'|
      ensures TargetOk(p', pc', u)
    {
      if u != t {
        assert !HasTarget(pc'[u]);
      }
    }
  }

  lemma OnlyHolderTargets(s: State, t: nat)
    requires LocksInv(s) && t < s.n + 2 && HoldsDevice(s.pc[t])
    ensures forall u :: 0 <= u < |s.pc| && u != t ==> !HasTarget(s.pc[u])
  {
    DeviceOwner(s, t);
    forall u | 0 <= u < |s.pc| && u != t
      ensures !HasTarget(s.pc[u])
    {
      DeviceOwner(s, u);
    }
  }

  lemma WorkersReserve(p: Pool<nat>, pc: seq<Pc>, n: nat, t: nat, task: nat, i: nat)
    requires WorkersInv(p, pc, n) && t < |pc| && HoldsDevice(pc[t])
    requires FirstIdle(p, i)
    requires forall u :: 0 <= u < |pc| && u != t ==> !HasTarget(pc[u])
    ensures WorkersInv(Reserve(p, i), pc[t := WantWorker(task, i)], n)
  {
    var p', q := Reserve(p, i), WantWorker(task, i);
    assert WorkerOk(p.working[i], p.slot[i], pc[i]);
    forall k | 0 <= k < n
      ensures WorkerOk(p'.working[k], p'.slot[k], pc[t := q][k])
    {
      assert WorkerOk(p.working[k], p.slot[k], pc[k]);
    }
    PoolMoves(p, pc, n, t, q, p');
  }

  lemma WorkersHandOver(p: Pool<nat>, pc: seq<Pc>, n: nat, t: nat)
    requires WorkersInv(p, pc, n) && t < |pc| && pc[t].AtWorker?
    requires !(pc[t].i < |pc| && pc[pc[t].i].Exited?)
    requires forall u :: 0 <= u < |pc| && u != t ==> !HasTarget(pc[u])
    ensures pc[t].i < n && WorkersInv(HandOver(p, pc[t].i, pc[t].task), pc[t := InDevice], n)
  {
    assert TargetOk(p, pc, t);
    var i := pc[t].i;
    var p' := HandOver(p, i, pc[t].task);
    forall k | 0 <= k < n
      ensures WorkerOk(p'.working[k], p'.slot[k], pc[t := InDevice][k])
    {
      assert WorkerOk(p.working[k], p.slot[k], pc[k]);
    }
    PoolMoves(p, pc, n, t, InDevice, p');
  }

  lemma WorkersSubmit(s: State, t: nat, s': State)
    requires LocksInv(s) && WorkersInv(s.p, s.pc, s.n) && t < s.n + 2 && Submit(s, t, s')
    ensures WorkersInv(s'.p, s'.pc, s'.n)
  {
    hide Owned, WorkersInv, TargetOk;
    var q := s'.pc[t];
    assert s'.pc == s.pc[t := q];
    ThreadIs(s.p, s.pc, s.n, t);
    OnlyHolderTargets(s, t);
    if s.pc[t].Scanning? && q.WantWorker? {
      WorkersReserve(s.p, s.pc, s.n, t, q.task, q.i);
    } else if s.pc[t].AtWorker? && !s.quit {
      WorkersHandOver(s.p, s.pc, s.n, t);
    } else {
      if t < s.n {
        WorkerIs(s.p, s.pc, s.n, t);
      }
      PlaceMoves(s.p, s.pc, s.n, t, q);
    }
  }

  lemma WorkersWork(s: State, t: nat, s': State)
    requires Shape(s) && WorkersInv(s.p, s.pc, s.n) && t < s.n && Work(s, t, s')
    ensures WorkersInv(s'.p, s'.pc, s'.n)
  {
    hide WorkersInv;
    var q := s'.pc[t];
    assert s'.pc == s.pc[t := q];
    WorkerIs(s.p, s.pc, s.n, t);
    if s.pc[t].Finishing? || s.pc[t].Clearing? {
      WorkerLeaves(s.p, s.pc, s.n, t, q, s'.p);
    } else {
      PlaceMoves(s.p, s.pc, s.n, t, q);
    }
  }

  /** A worker that nobody can have reserved changes its own flag or slot. */
  lemma WorkerLeaves(p: Pool<nat>, pc: seq<Pc>, n: nat, t: nat, q: Pc, p': Pool<nat>)
    requires WorkersInv(p, pc, n) && t < n && !Parked(pc[t])
    requires p' == Drop(p, t) || p' == Clear(p, t)
    requires WorkerOk(p'.working[t], p'.slot[t], q) && !HasTarget(q)
    ensures WorkersInv(p', pc[t := q], n)
  {
    var pc' := pc[t := q];
    forall u | 0 <= u < |pc'|
      ensures TargetOk(p', pc', u)
    {
      assert TargetOk(p, pc, u);
    }
  }
}
