/**
 Every step of the pool protocol keeps the balance of tasks (accepted tasks are
 those that ran and those that wait in a slot), so every run keeps the whole
 invariant.
 */
module PoolTheorems {
  import opened Multisets
  import opened PoolSpec
  import opened PoolProtocol
  import opened PoolProof

  // Tasks

  lemma {:induction false} PendingBeyond(slot: seq<Option<nat>>, pc: seq<Pc>, t: nat, q: Pc)
    requires |slot| <= t < |pc|
    ensures Pending(slot, pc[t := q]) == Pending(slot, pc)
    decreases |slot|
  {
    if slot != [] {
      PendingBeyond(slot[..|slot| - 1], pc, t, q);
    }
  }

  lemma {:induction false} PendingMoves(slot: seq<Option<nat>>, pc: seq<Pc>, i: nat, x: Option<nat>, q: Pc)
    requires i < |slot| <= |pc|
    ensures Pending(slot[i := x], pc[i := q]) + Waits(slot[i], pc[i]) == Pending(slot, pc) + Waits(x, q)
    decreases |slot|
  {
    hide Waits;
    var n := |slot| - 1;
    var slot', pc' := slot[i := x], pc[i := q];
    assert Pending(slot, pc) == Pending(slot[..n], pc) + Waits(slot[n], pc[n]);
    assert Pending(slot', pc') == Pending(slot'[..n], pc') + Waits(slot'[n], pc'[n]);
    if i < n {
      PendingMoves(slot[..n], pc, i, x, q);
      assert slot'[..n] == slot[..n][i := x];
      Shuffle(Pending(slot'[..n], pc'), Waits(slot[i], pc[i]), Pending(slot[..n], pc), Waits(x, q),
              Waits(slot[n], pc[n]));
    } else {
      assert slot'[..n] == slot[..n];
      PendingBeyond(slot[..n], pc, i, q);
    }
  }

  /** A thread moves without starting or being handed a task. */
  lemma PendingKept(slot: seq<Option<nat>>, pc: seq<Pc>, t: nat, x: Option<nat>, q: Pc)
    requires |slot| <= |pc| && t < |pc|
    requires t < |slot| ==> Waits(slot[t], pc[t]) == Waits(x, q)
    ensures Pending(if t < |slot| then slot[t := x] else slot, pc[t := q]) == Pending(slot, pc)
  {
    hide Waits, Pending;
    if t < |slot| {
      PendingMoves(slot, pc, t, x, q);
      Cancel(Pending(slot[t := x], pc[t := q]), Pending(slot, pc), Waits(x, q));
    } else {
      PendingBeyond(slot, pc, t, q);
    }
  }

  lemma SameSlot(slot: seq<Option<nat>>, t: nat)
    ensures t < |slot| ==> slot[t := slot[t]] == slot
  {
  }

  /** Steps that leave the task histories alone. */
  lemma TasksKept(s: State, t: nat, s': State)
    requires Shape(s') && TasksInv(s) && t < s.n + 2 && s'.n == s.n
    requires s'.pc == s.pc[t := s'.pc[t]]
    requires s'.p.slot == s.p.slot || (t < s.n && s'.p.slot == s.p.slot[t := None] && !Parked(s.pc[t]))
    requires t < s.n ==> Waits(s.p.slot[t], s.pc[t]) == Waits(s'.p.slot[t], s'.pc[t])
    requires s'.accepted == s.accepted && s'.ran == s.ran && s'.issued == s.issued
    requires Carries(s'.pc[t]) ==> Carries(s.pc[t]) && s'.pc[t].task == s.pc[t].task
    ensures TasksInv(s')
  {
    hide Waits, Pending, Balanced, Distinct;
    SameSlot(s.p.slot, t);
    PendingKept(s.p.slot, s.pc, t, if t < s.n then s'.p.slot[t] else None, s'.pc[t]);
  }

  lemma TasksEnter(s: State, t: nat, s': State)
    requires Inv(s) && t < s.n + 2 && EnterLeave(s, t, s')
    ensures TasksInv(s')
  {
    hide LocksInv, TasksInv, WorkersInv;
    if t < s.n {
      WorkerIs(s.p, s.pc, s.n, t);
    }
    TasksKept(s, t, s');
  }

  lemma TasksIssue(s: State, t: nat, s': State)
    requires TasksInv(s) && t < s.n + 2 && s.pc[t].InDevice?
    requires s' == At(s, t, WantPool(s.issued)).(issued := s.issued + 1)
    ensures TasksInv(s')
  {
    hide Pending;
    SameSlot(s.p.slot, t);
    PendingKept(s.p.slot, s.pc, t, if t < s.n then s.p.slot[t] else None, s'.pc[t]);
  }

  lemma PendingHandOver(slot: seq<Option<nat>>, pc: seq<Pc>, t: nat, i: nat, task: nat)
    requires |slot| <= |pc| && t < |pc| && i < |slot| && i != t
    requires slot[i].None? && Parked(pc[i]) && !Parked(pc[t])
    ensures Pending(slot[i := Some(task)], pc[t := InDevice]) == Pending(slot, pc) + multiset{task}
  {
    var slot' := slot[i := Some(task)];
    assert Waits(slot[i], pc[i]) == multiset{} && Waits(Some(task), pc[i]) == multiset{task};
    assert t < |slot| ==> Waits(slot'[t], pc[t]) == Waits(slot'[t], InDevice);
    hide Waits, Pending;
    PendingMoves(slot, pc, i, Some(task), pc[i]);
    assert pc[i := pc[i]] == pc;
    SameSlot(slot', t);
    PendingKept(slot', pc, t, if t < |slot| then slot'[t] else None, InDevice);
  }

  lemma AddBoth(a: multiset<nat>, r: multiset<nat>, p: multiset<nat>, x: multiset<nat>)
    requires a == r + p
    ensures a + x == r + (p + x)
  {
  }

  lemma TasksAccept(s: State, t: nat, s': State)
    requires Inv(s) && t < s.n + 2 && s.pc[t].AtWorker? && !s.quit && Submit(s, t, s')
    ensures TasksInv(s')
  {
    hide LocksInv, WorkersInv, Pending, Balanced;
    ThreadIs(s.p, s.pc, s.n, t);
    DeviceAt(s, t);
    OnlyHolderCarries(s, t);
    var i, task := s.pc[t].i, s.pc[t].task;
    PendingHandOver(s.p.slot, s.pc, t, i, task);
    BalancedAccept(s.accepted, s.ran, Pending(s.p.slot, s.pc), task);
  }

  lemma DeviceAt(s: State, t: nat)
    requires Shape(s) && t < s.n + 2 && s.pc[t].AtWorker?
    ensures HoldsDevice(s.pc[t])
  {
  }

  lemma OnlyHolderCarries(s: State, t: nat)
    requires LocksInv(s) && t < s.n + 2 && HoldsDevice(s.pc[t])
    ensures forall u :: 0 <= u < |s.pc| && u != t ==> !Carries(s.pc[u])
  {
    DeviceOwner(s, t);
    forall u | 0 <= u < |s.pc| && u != t
      ensures !Carries(s.pc[u])
    {
      DeviceOwner(s, u);
    }
  }

  lemma TasksSubmit(s: State, t: nat, s': State)
    requires Inv(s) && t < s.n + 2 && Submit(s, t, s')
    ensures TasksInv(s')
  {
    hide LocksInv, TasksInv, Waits;
    if s.pc[t].InDevice? {
      TasksIssue(s, t, s');
    } else if s.pc[t].AtWorker? && !s.quit {
      TasksAccept(s, t, s');
    } else {
      NeitherWaits(s, t, s'.pc[t]);
      hide WorkersInv;
      TasksKept(s, t, s');
    }
  }

  lemma NeitherWaits(s: State, t: nat, q: Pc)
    requires Shape(s) && t < s.n + 2 && !Parked(s.pc[t]) && !Parked(q)
    ensures t < s.n ==> Waits(s.p.slot[t], s.pc[t]) == Waits(s.p.slot[t], q)
  {
  }

  lemma MoveOver(a: multiset<nat>, r: multiset<nat>, p: multiset<nat>, p': multiset<nat>, x: multiset<nat>)
    requires a == r + p && p' + x == p
    ensures a == r + x + p'
  {
  }

  lemma TasksStart(s: State, t: nat, s': State)
    requires TasksInv(s) && t < s.n && s.pc[t].Top? && s.p.slot[t].Some?
    requires s' == At(s, t, Running).(ran := s.ran + [s.p.slot[t].value])
    ensures TasksInv(s')
  {
    hide Pending, Balanced, Distinct;
    PendingStarts(s.p.slot, s.pc, t);
    BalancedStart(s.accepted, s.ran, Pending(s.p.slot, s.pc), Pending(s'.p.slot, s'.pc), s.p.slot[t].value);
  }

  lemma PendingStarts(slot: seq<Option<nat>>, pc: seq<Pc>, t: nat)
    requires t < |slot| <= |pc| && pc[t].Top? && slot[t].Some?
    ensures Pending(slot, pc[t := Running]) + multiset{slot[t].value} == Pending(slot, pc)
  {
    hide Pending;
    PendingMoves(slot, pc, t, slot[t], Running);
    SameSlot(slot, t);
  }

  lemma BalancedStart(accepted: seq<nat>, ran: seq<nat>, p: multiset<nat>, p': multiset<nat>, x: nat)
    requires Balanced(accepted, ran, p) && p' + multiset{x} == p
    ensures Balanced(accepted, ran + [x], p')
  {
    assert multiset(ran + [x]) == multiset(ran) + multiset{x};
    MoveOver(multiset(accepted), multiset(ran), p, p', multiset{x});
  }

  lemma BalancedAccept(accepted: seq<nat>, ran: seq<nat>, p: multiset<nat>, x: nat)
    requires Balanced(accepted, ran, p)
    ensures Balanced(accepted + [x], ran, p + multiset{x})
  {
    assert multiset(accepted + [x]) == multiset(accepted) + multiset{x};
    AddBoth(multiset(accepted), multiset(ran), p, multiset{x});
  }

  lemma TasksWork(s: State, t: nat, s': State)
    requires Inv(s) && t < s.n && Work(s, t, s')
    ensures TasksInv(s')
  {
    hide LocksInv, TasksInv, WorkersInv, Work, Waits, WorkerOk, Parked;
    WorkerIs(s.p, s.pc, s.n, t);
    if s.pc[t].Top? && s.p.slot[t].Some? {
      WorkStarts(s, t, s');
      TasksStart(s, t, s');
    } else {
      WorkEffect(s, t, s');
      WorkKeepsTasks(s, t, s');
      TasksKept(s, t, s');
    }
  }

  lemma WorkStarts(s: State, t: nat, s': State)
    requires Shape(s) && t < s.n && Work(s, t, s') && s.pc[t].Top? && s.p.slot[t].Some?
    ensures s' == At(s, t, Running).(ran := s.ran + [s.p.slot[t].value])
  {
  }

  lemma WorkKeepsTasks(s: State, t: nat, s': State)
    requires Shape(s) && t < s.n && Work(s, t, s') && !(s.pc[t].Top? && s.p.slot[t].Some?)
    requires WorkerOk(s.p.working[t], s.p.slot[t], s.pc[t])
    ensures Shape(s') && s'.n == s.n
    ensures s'.p.slot == s.p.slot || (s'.p.slot == s.p.slot[t := None] && !Parked(s.pc[t]))
    ensures Waits(s.p.slot[t], s.pc[t]) == Waits(s'.p.slot[t], s'.pc[t])
    ensures s'.accepted == s.accepted && s'.ran == s.ran && s'.issued == s.issued
    ensures !Carries(s'.pc[t])
  {
  }

  // Every run

  lemma MovesKeepInv(s: State, t: nat, s': State)
    requires Inv(s) && Moves(s, t, s')
    ensures Inv(s')
  {
    hide LocksInv, WorkersInv, TasksInv, EnterLeave, Submit, Work;
    if EnterLeave(s, t, s') {
      LocksEnter(s, t, s');
      WorkersEnter(s, t, s');
      TasksEnter(s, t, s');
      LocksShape(s');
    } else if Submit(s, t, s') {
      LocksSubmit(s, t, s');
      WorkersSubmit(s, t, s');
      TasksSubmit(s, t, s');
      LocksShape(s');
    } else {
      LocksWork(s, t, s');
      WorkersWork(s, t, s');
      TasksWork(s, t, s');
      LocksShape(s');
    }
  }

  lemma LocksShape(s: State)
    requires LocksInv(s)
    ensures Shape(s)
  {
  }

  lemma NextKeepsInv(s: State, s': State)
    requires Inv(s) && Next(s, s')
    ensures Inv(s')
  {
    hide Moves, WorkersInv, Pending;
    if t :| Moves(s, t, s') {
      hide Inv;
      MovesKeepInv(s, t, s');
    }
  }

  lemma {:induction false} NothingPending(slot: seq<Option<nat>>, pc: seq<Pc>)
    requires |slot| <= |pc| && forall i :: 0 <= i < |slot| ==> slot[i].None?
    ensures Pending(slot, pc) == multiset{}
    decreases |slot|
  {
    if slot != [] {
      NothingPending(slot[..|slot| - 1], pc);
    }
  }

  lemma InitInv(s: State)
    requires Init(s)
    ensures Inv(s)
  {
    hide Pending;
    NothingPending(s.p.slot, s.pc);
    assert forall t :: s.n <= t < |s.pc| ==> (t == s.n || t == s.n + 1) && Notifies(s.pc[t]);
  }

  lemma {:induction false} RunKeepsInv(run: seq<State>, k: nat)
    requires Run(run) && k < |run|
    ensures Inv(run[k])
  {
    hide Inv, Next, Init;
    if k == 0 {
      InitInv(run[0]);
    } else {
      RunKeepsInv(run, k - 1);
      NextKeepsInv(run[k - 1], run[k]);
    }
  }
}
