/**
 Indices, locks, workers and conservation under the block request machine.
 */
module BlockControl {
  import opened Words
  import opened Chains
  import opened Multisets
  import opened PoolSpec
  import opened BlockModel
  import opened BlockInvariant

  // Counting requests

  lemma {:induction false} InFlightUpdate(slot: seq<Option<Task>>, phase: seq<Phase>, i: nat, x: Option<Task>, p: Phase)
    requires i < |slot| == |phase|
    ensures InFlight(slot[i := x], phase[i := p]) + Carried(slot[i], phase[i]) == InFlight(slot, phase) + Carried(x, p)
    decreases |slot|
  {
    hide Carried;
    var n := |slot| - 1;
    var slot', phase' := slot[i := x], phase[i := p];
    var last, last' := Carried(slot[n], phase[n]), Carried(slot'[n], phase'[n]);
    assert InFlight(slot, phase) == InFlight(slot[..n], phase[..n]) + last;
    assert InFlight(slot', phase') == InFlight(slot'[..n], phase'[..n]) + last';
    if i < n {
      InFlightUpdate(slot[..n], phase[..n], i, x, p);
      assert slot'[..n] == slot[..n][i := x] && phase'[..n] == phase[..n][i := p];
      Shuffle(InFlight(slot'[..n], phase'[..n]), Carried(slot[i], phase[i]), InFlight(slot[..n], phase[..n]),
              Carried(x, p), last);
    } else {
      assert slot'[..n] == slot[..n] && phase'[..n] == phase[..n];
    }
  }

  lemma Part(a: multiset<nat>, b: multiset<nat>)
    ensures a <= a + b && b <= a + b
    ensures |a + b| == |a| + |b|
    ensures forall x :: x <= a ==> x <= a + b
  {
    forall x | x <= a
      ensures x <= a + b
    {
      assert forall y :: y in x ==> x[y] <= a[y];
    }
  }

  lemma {:induction false} InFlightHas(slot: seq<Option<Task>>, phase: seq<Phase>, i: nat)
    requires i < |slot| == |phase|
    ensures Carried(slot[i], phase[i]) <= InFlight(slot, phase)
    decreases |slot|
  {
    hide Carried;
    var n := |slot| - 1;
    Part(InFlight(slot[..n], phase[..n]), Carried(slot[n], phase[n]));
    if i < n {
      InFlightHas(slot[..n], phase[..n], i);
      assert slot[..n][i] == slot[i] && phase[..n][i] == phase[i];
    }
  }

  lemma {:induction false} InFlightBound(slot: seq<Option<Task>>, phase: seq<Phase>)
    requires |slot| == |phase|
    ensures |InFlight(slot, phase)| <= |slot|
    decreases |slot|
  {
    if slot != [] {
      var n := |slot| - 1;
      InFlightBound(slot[..n], phase[..n]);
      Part(InFlight(slot[..n], phase[..n]), Carried(slot[n], phase[n]));
    }
  }

  lemma UptoNext(n: nat)
    ensures Upto(n + 1) == Upto(n) + [n]
    ensures multiset(Upto(n + 1)) == multiset(Upto(n)) + multiset{n}
  {
    assert Upto(n + 1) == Upto(n) + [n];
  }

  lemma {:induction false} UptoOnce(n: nat, j: nat)
    ensures multiset(Upto(n))[j] == if j < n then 1 else 0
  {
    if n > 0 {
      UptoNext(n - 1);
      UptoOnce(n - 1, j);
    }
  }

  lemma TicketsAppend(used: seq<Entry>, e: Entry)
    ensures multiset(Tickets(used + [e])) == multiset(Tickets(used)) + multiset{e.ticket}
  {
    assert Tickets(used + [e]) == Tickets(used) + [e.ticket];
  }

  lemma TicketsHas(used: seq<Entry>, k: nat)
    requires k < |used|
    ensures used[k].ticket in multiset(Tickets(used))
  {
    assert Tickets(used)[k] == used[k].ticket;
  }

  lemma Counts(a: multiset<nat>, b: multiset<nat>, c: multiset<nat>, d: multiset<nat>, j: nat)
    ensures (a + b + c + d)[j] == a[j] + b[j] + c[j] + d[j]
    ensures (c + d)[j] == c[j] + d[j]
  {
  }

  /** A request in the pool or in hand has not been completed. */
  lemma NotCompleted(pc: Pc, pool: Pool<Task>, phase: seq<Phase>, popped: nat, used: seq<Entry>, skipped: seq<nat>,
                     j: nat)
    requires Conserved(pc, pool, phase, popped, used, skipped)
    requires j in InFlight(pool.slot, phase) + Hand(pc)
    ensures Outstanding(used, |used|, j)
  {
    hide InFlight, Upto, Hand;
    UptoOnce(popped + |Hand(pc)|, j);
    Counts(multiset(Tickets(used)), multiset(skipped), InFlight(pool.slot, phase), Hand(pc), j);
    forall k | 0 <= k < |used|
      ensures used[k].ticket != j
    {
      TicketsHas(used, k);
    }
  }

  lemma CompletedBound(pc: Pc, pool: Pool<Task>, phase: seq<Phase>, popped: nat, used: seq<Entry>, skipped: seq<nat>)
    requires Conserved(pc, pool, phase, popped, used, skipped)
    ensures |used| + |InFlight(pool.slot, phase)| <= popped
  {
    var all := multiset(Upto(popped + |Hand(pc)|));
    var rest := multiset(Tickets(used)) + multiset(skipped) + InFlight(pool.slot, phase);
    assert |all| == |rest| + |Hand(pc)|;
    assert |rest| == |used| + |skipped| + |InFlight(pool.slot, phase)|;
  }

  // 16-bit indices

  lemma BumpIndex(k: nat)
    ensures Bump(k % U16) == (k + 1) % U16
  {
  }

  /** The device finds the next request of the publication order, unchanged. */
  lemma PopsNext(c: Conf, s: Sys, ds: seq<Desc>)
    requires Basic(c, s) && RingInv(c.num, s.ring, s.reqs, s.popped) && PcInv(s.pc, s.popped, s.reqs)
    requires UsedInv(s.used, s.log, s.reqs, s.popped)
    requires MemInv(c, s.mem, s.reqs, s.used, s.reaped)
    requires Pops(c, s, ds)
    ensures s.popped < s.pc.goal
    ensures s.ring[BitAnd(s.last, c.num - 1)] == s.reqs[s.popped].head
    ensures ds == s.reqs[s.popped].ds && Gather(s.mem, Readable(ds)) == s.reqs[s.popped].rb
  {
    hide EntryOk, WellBuilt, Landed, Foot, IsChain;
    SlotOf(s.popped, c.num);
    var r := s.reqs[s.popped];
    assert Outstanding(s.used, |s.used|, s.popped) by {
      forall k | 0 <= k < |s.used|
        ensures s.used[k].ticket != s.popped
      {
        EntryTicket(s.used[k], s.log, s.reqs, s.popped);
      }
    }
    assert Holds(c, s.mem, r);
    ChainUnique(s.mem, c.table, r.head, ds, r.ds);
  }

  lemma EntryTicket(e: Entry, log: seq<Io>, reqs: seq<Request>, popped: nat)
    requires EntryOk(e, log, reqs, popped)
    ensures e.ticket < popped <= |reqs|
  {
  }

  /** The drain stops when everything in its snapshot was taken, or 2^16 requests are left of it. */
  lemma DrainStops(c: Conf, s: Sys)
    requires Basic(c, s) && PcInv(s.pc, s.popped, s.reqs)
    requires HasGoal(s.pc)
    ensures s.last == s.pc.snap <==> s.popped == s.pc.goal || s.popped + U16 == s.pc.goal
  {
    SameIndex(s.popped, s.pc.goal);
  }

  // Workers

  lemma WorkersGrow(pool: Pool<Task>, phase: seq<Phase>, to: Option<nat>, popped: nat, reqs: seq<Request>,
                    popped': nat, reqs': seq<Request>)
    requires WorkerInv(pool, phase, to, popped, reqs)
    requires popped <= popped' <= |reqs'| && reqs <= reqs'
    ensures WorkerInv(pool, phase, to, popped', reqs')
  {
    hide KindOf, MakeTask;
    forall i | 0 <= i < |phase|
      ensures WorkerOk(pool.working[i], pool.slot[i], phase[i], to == Some(i), popped', reqs')
    {
      assert WorkerOk(pool.working[i], pool.slot[i], phase[i], to == Some(i), popped, reqs);
    }
  }

  /** One worker moves; the others are as they were. */
  lemma WorkerMoves(pool: Pool<Task>, phase: seq<Phase>, to: Option<nat>, popped: nat, reqs: seq<Request>,
                    i: nat, w: bool, x: Option<Task>, p: Phase, to': Option<nat>)
    requires WorkerInv(pool, phase, to, popped, reqs)
    requires i < |phase| && WorkerOk(w, x, p, to' == Some(i), popped, reqs)
    requires to'.Some? ==> to'.value < |phase|
    requires forall k :: 0 <= k < |phase| && k != i ==> (to == Some(k) <==> to' == Some(k))
    requires forall k :: 0 <= k < |phase| && k != i ==> !SameTicket(pool.slot[k], x)
    ensures WorkerInv(Pool(pool.working[i := w], pool.slot[i := x]), phase[i := p], to', popped, reqs)
  {
    hide WorkerOk;
    var pool', phase' := Pool(pool.working[i := w], pool.slot[i := x]), phase[i := p];
    forall k | 0 <= k < |phase'|
      ensures WorkerOk(pool'.working[k], pool'.slot[k], phase'[k], to' == Some(k), popped, reqs)
    {
      if k != i {
        assert WorkerOk(pool.working[k], pool.slot[k], phase[k], to == Some(k), popped, reqs);
      }
    }
  }

  /** As WorkerMoves, for a worker that keeps its flag and its task. */
  lemma WorkerPhase(pool: Pool<Task>, phase: seq<Phase>, to: Option<nat>, popped: nat, reqs: seq<Request>, i: nat,
                    p: Phase)
    requires WorkerInv(pool, phase, to, popped, reqs)
    requires i < |phase| && pool.slot[i].Some? && !p.Clearing?
    ensures WorkerInv(pool, phase[i := p], to, popped, reqs)
  {
    assert WorkerOk(pool.working[i], pool.slot[i], phase[i], to == Some(i), popped, reqs);
    WorkerMoves(pool, phase, to, popped, reqs, i, pool.working[i], pool.slot[i], p, to);
    assert Pool(pool.working[i := pool.working[i]], pool.slot[i := pool.slot[i]]) == pool;
  }

  // Conservation, one move at a time

  /** One element moves from the third summand to the first. */
  lemma Finish(u: multiset<nat>, k: multiset<nat>, f: multiset<nat>, h: multiset<nat>, f': multiset<nat>,
               j: multiset<nat>)
    requires f' + j == f
    ensures u + k + f + h == u + j + k + f' + h
  {
    assert u + k + (f' + j) + h == u + j + k + f' + h;
  }

  /** One element moves from the fourth summand to the third. */
  lemma Enter(u: multiset<nat>, k: multiset<nat>, f: multiset<nat>, j: multiset<nat>, f': multiset<nat>)
    requires f' == f + j
    ensures u + k + f + j == u + k + f' + multiset{}
  {
    assert u + k + f + j == u + k + (f + j) + multiset{};
  }

  /** A worker moves without taking up or finishing a request. */
  lemma ConservedMove(pc: Pc, pool: Pool<Task>, phase: seq<Phase>, popped: nat, used: seq<Entry>, skipped: seq<nat>,
                      pc': Pc, i: nat, x: Option<Task>, p: Phase, working: seq<bool>)
    requires Conserved(pc, pool, phase, popped, used, skipped)
    requires Hand(pc') == Hand(pc)
    requires i < |phase| && Carried(pool.slot[i], phase[i]) == Carried(x, p)
    ensures Conserved(pc', Pool(working, pool.slot[i := x]), phase[i := p], popped, used, skipped)
  {
    hide InFlight, Carried, Upto, Tickets, Hand;
    InFlightUpdate(pool.slot, phase, i, x, p);
    Cancel(InFlight(pool.slot[i := x], phase[i := p]), InFlight(pool.slot, phase), Carried(x, p));
  }

  lemma SameConserved(pc: Pc, pool: Pool<Task>, phase: seq<Phase>, popped: nat, used: seq<Entry>, skipped: seq<nat>,
                      pc': Pc)
    requires Conserved(pc, pool, phase, popped, used, skipped)
    requires Hand(pc') == Hand(pc)
    ensures Conserved(pc', pool, phase, popped, used, skipped)
  {
    hide InFlight, Upto, Tickets, Hand;
  }

  lemma InFlightLoses(slot: seq<Option<Task>>, phase: seq<Phase>, i: nat, j: nat)
    requires i < |slot| == |phase|
    requires Carried(slot[i], phase[i]) == multiset{j}
    ensures InFlight(slot, phase[i := Ended]) + multiset{j} == InFlight(slot, phase)
  {
    hide InFlight;
    InFlightUpdate(slot, phase, i, slot[i], Ended);
    assert slot[i := slot[i]] == slot;
  }

  lemma InFlightGains(slot: seq<Option<Task>>, phase: seq<Phase>, i: nat, task: Task)
    requires i < |slot| == |phase|
    requires slot[i].None? && phase[i].Idle?
    ensures InFlight(slot[i := Some(task)], phase) == InFlight(slot, phase) + multiset{task.ticket}
  {
    hide InFlight;
    InFlightUpdate(slot, phase, i, Some(task), Idle);
    assert phase[i := Idle] == phase;
  }

  lemma ConservedComplete(pc: Pc, pool: Pool<Task>, phase: seq<Phase>, popped: nat, used: seq<Entry>, skipped: seq<nat>,
                          pc': Pc, i: nat, e: Entry)
    requires Conserved(pc, pool, phase, popped, used, skipped)
    requires Hand(pc') == Hand(pc)
    requires i < |phase| && Carried(pool.slot[i], phase[i]) == multiset{e.ticket}
    ensures Conserved(pc', pool, phase[i := Ended], popped, used + [e], skipped)
  {
    hide InFlight, Upto, Tickets, Hand, Carried;
    InFlightLoses(pool.slot, phase, i, e.ticket);
    TicketsAppend(used, e);
    Finish(multiset(Tickets(used)), multiset(skipped), InFlight(pool.slot, phase), Hand(pc),
           InFlight(pool.slot, phase[i := Ended]), multiset{e.ticket});
  }

  lemma RoomToComplete(pc: Pc, pool: Pool<Task>, phase: seq<Phase>, popped: nat, used: seq<Entry>, skipped: seq<nat>,
                       i: nat)
    requires Conserved(pc, pool, phase, popped, used, skipped)
    requires i < |phase| && Carried(pool.slot[i], phase[i]) != multiset{}
    ensures |used| < popped
  {
    CompletedBound(pc, pool, phase, popped, used, skipped);
    InFlightHas(pool.slot, phase, i);
  }

  lemma ConservedHandOver(pc: Pc, pool: Pool<Task>, phase: seq<Phase>, popped: nat, used: seq<Entry>, skipped: seq<nat>,
                          pc': Pc, i: nat, task: Task)
    requires Conserved(pc, pool, phase, popped, used, skipped)
    requires InHand(pc) && pc.task == task && !InHand(pc')
    requires i < |phase| && pool.slot[i].None? && phase[i].Idle?
    ensures Conserved(pc', HandOver(pool, i, task), phase, popped + 1, used, skipped)
  {
    hide InFlight, Upto, Tickets, Carried;
    InFlightGains(pool.slot, phase, i, task);
    Enter(multiset(Tickets(used)), multiset(skipped), InFlight(pool.slot, phase), multiset{task.ticket},
          InFlight(pool.slot[i := Some(task)], phase));
  }

  lemma ConservedReject(pc: Pc, pool: Pool<Task>, phase: seq<Phase>, popped: nat, used: seq<Entry>, skipped: seq<nat>,
                        pc': Pc, e: Entry)
    requires Conserved(pc, pool, phase, popped, used, skipped)
    requires InHand(pc) && pc.task.ticket == e.ticket && !InHand(pc')
    ensures Conserved(pc', pool, phase, popped + 1, used + [e], skipped)
  {
    hide InFlight, Upto, Tickets;
    TicketsAppend(used, e);
    var u, k, f, j := multiset(Tickets(used)), multiset(skipped), InFlight(pool.slot, phase), multiset{e.ticket};
    assert u + k + f + j == u + j + k + f + multiset{};
  }

  lemma ConservedSkip(pc: Pc, pool: Pool<Task>, phase: seq<Phase>, popped: nat, used: seq<Entry>, skipped: seq<nat>)
    requires Conserved(pc, pool, phase, popped, used, skipped)
    requires !InHand(pc)
    ensures Conserved(pc, pool, phase, popped + 1, used, skipped + [popped])
  {
    UptoNext(popped);
    assert multiset(skipped + [popped]) == multiset(skipped) + multiset{popped};
  }

  lemma ConservedPop(pc: Pc, pool: Pool<Task>, phase: seq<Phase>, popped: nat, used: seq<Entry>, skipped: seq<nat>,
                     pc': Pc)
    requires Conserved(pc, pool, phase, popped, used, skipped)
    requires !InHand(pc) && InHand(pc') && pc'.task.ticket == popped
    ensures Conserved(pc', pool, phase, popped, used, skipped)
  {
    UptoNext(popped);
  }

  // The steps of the drain

  lemma ControlLock(c: Conf, s: Sys, s': Sys)
    requires Control(c, s) && (Lock(s, s') || Snapshot(s, s'))
    ensures Control(c, s')
  {
    hide WorkerInv, Conserved, RingInv;
    SameConserved(s.pc, s.pool, s.phase, s.popped, s.used, s.skipped, s'.pc);
  }

  lemma ControlPopSkip(c: Conf, s: Sys, ds: seq<Desc>, s': Sys)
    requires Inv(c, s) && PopSkip(c, s, ds, s')
    ensures Control(c, s')
  {
    hide KindOf, WorkerInv, Conserved, LogInv, DoneInv, UsedInv, OrderInv, MemInv, HeapInv, IsChain, Perform, RingInv;
    PopsNext(c, s, ds);
    BumpIndex(s.popped);
    RingGrow(c.num, s.ring, s.reqs, s.popped);
    ConservedSkip(s.pc, s.pool, s.phase, s.popped, s.used, s.skipped);
    WorkersGrow(s.pool, s.phase, Reserved(s.pc), s.popped, s.reqs, s'.popped, s.reqs);
  }

  lemma ControlPopRequest(c: Conf, s: Sys, ds: seq<Desc>, s': Sys)
    requires Inv(c, s) && PopRequest(c, s, ds, s')
    ensures Control(c, s')
  {
    hide KindOf, MakeTask, WorkerInv, Conserved, LogInv, DoneInv, UsedInv, OrderInv, MemInv, HeapInv, IsChain;
    hide PerformAll, RingInv;
    PopsNext(c, s, ds);
    TaskTicket(s.popped, s.reqs[s.popped]);
    ConservedPop(s.pc, s.pool, s.phase, s.popped, s.used, s.skipped, s'.pc);
  }

  lemma TaskTicket(j: nat, r: Request)
    ensures TaskFor(j, r).ticket == j && TaskFor(j, r).kind == r.Kind() && TaskFor(j, r).head == r.head
  {
  }

  lemma ControlReserve(c: Conf, s: Sys, i: nat, s': Sys)
    requires Control(c, s) && ReserveWorker(s, i, s')
    ensures Control(c, s')
  {
    hide KindOf, MakeTask, InFlight, RingInv, Upto, Tickets;
    assert WorkerOk(s.pool.working[i], s.pool.slot[i], s.phase[i], false, s.popped, s.reqs);
    WorkerMoves(s.pool, s.phase, None, s.popped, s.reqs, i, true, None, Idle, Some(i));
    assert s.pool.slot[i := None] == s.pool.slot && s.phase[i := Idle] == s.phase;
  }

  lemma ControlHandOver(c: Conf, s: Sys, s': Sys)
    requires Control(c, s) && HandOverTask(s, s')
    ensures Control(c, s')
  {
    hide KindOf, MakeTask, Conserved, RingInv;
    var i, j := s.pc.to, s.popped;
    TaskTicket(j, s.reqs[j]);
    BumpIndex(j);
    assert WorkerOk(s.pool.working[i], s.pool.slot[i], s.phase[i], true, j, s.reqs);
    forall k | 0 <= k < |s.phase| && k != i
      ensures !SameTicket(s.pool.slot[k], Some(s.pc.task))
    {
      assert WorkerOk(s.pool.working[k], s.pool.slot[k], s.phase[k], Reserved(s.pc) == Some(k), j, s.reqs);
    }
    WorkersGrow(s.pool, s.phase, Reserved(s.pc), j, s.reqs, j + 1, s.reqs);
    WorkerMoves(s.pool, s.phase, Some(i), j + 1, s.reqs, i, true, Some(s.pc.task), Idle, None);
    assert s.pool.working[i := true] == s.pool.working && s.phase[i := Idle] == s.phase;
    ConservedHandOver(s.pc, s.pool, s.phase, j, s.used, s.skipped, s'.pc, i, s.pc.task);
    RingGrow(c.num, s.ring, s.reqs, j);
  }

  lemma RingGrow(num: nat, ring: seq<nat>, reqs: seq<Request>, popped: nat)
    requires RingInv(num, ring, reqs, popped)
    ensures RingInv(num, ring, reqs, popped + 1)
  {
  }

  lemma ControlRefuse(c: Conf, s: Sys, ds: seq<Desc>, s': Sys)
    requires Control(c, s) && RefuseTask(c, s, ds, s')
    ensures Control(c, s')
  {
    hide KindOf, MakeTask, EndMem, Answer, IsChain, WorkerInv, Conserved, RingInv, PerformAll, Writable;
    SameConserved(s.pc, s.pool, s.phase, s.popped, s.used, s.skipped, s'.pc);
  }

  lemma ControlReject(c: Conf, s: Sys, s': Sys)
    requires Control(c, s) && RejectTask(s, s')
    ensures Control(c, s')
  {
    hide KindOf, MakeTask, Answer, WorkerInv, Conserved, RingInv, Perform;
    BumpIndex(s.popped);
    ConservedReject(s.pc, s.pool, s.phase, s.popped, s.used, s.skipped, s'.pc, s'.used[|s.used|]);
    WorkersGrow(s.pool, s.phase, Reserved(s.pc), s.popped, s.reqs, s'.popped, s.reqs);
    RingGrow(c.num, s.ring, s.reqs, s.popped);
  }

  lemma ControlEndDrain(c: Conf, s: Sys, s': Sys)
    requires Control(c, s) && EndDrain(s, s')
    ensures Control(c, s')
  {
    hide KindOf, MakeTask, WorkerInv, Conserved, RingInv, Perform;
    if s.pc.who.Worker? {
      var i := s.pc.who.id;
      WorkerPhase(s.pool, s.phase, None, s.popped, s.reqs, i, Returned);
      ConservedMove(s.pc, s.pool, s.phase, s.popped, s.used, s.skipped, s'.pc, i, s.pool.slot[i], Returned,
                    s.pool.working);
      assert s.pool.slot[i := s.pool.slot[i]] == s.pool.slot;
    } else {
      SameConserved(s.pc, s.pool, s.phase, s.popped, s.used, s.skipped, s'.pc);
    }
  }

  // The steps of a worker

  lemma ControlWorkerIo(c: Conf, s: Sys, i: nat, n: nat, err: bool, s': Sys)
    requires Control(c, s) && WorkerIo(s, i, n, err, s')
    ensures Control(c, s')
  {
    hide KindOf, MakeTask, Count, WorkerInv, Conserved, RingInv, PerformAll, Apply, Pread, Offset;
    WorkerPhase(s.pool, s.phase, Reserved(s.pc), s.popped, s.reqs, i, s'.phase[i]);
    ConservedMove(s.pc, s.pool, s.phase, s.popped, s.used, s.skipped, s.pc, i, s.pool.slot[i], s'.phase[i],
                  s.pool.working);
    assert s.pool.slot[i := s.pool.slot[i]] == s.pool.slot;
  }

  lemma ControlAnswer(c: Conf, s: Sys, i: nat, ds: seq<Desc>, s': Sys)
    requires Control(c, s) && PutAnswer(c, s, i, ds, s')
    ensures Control(c, s')
  {
    hide KindOf, MakeTask, EndMem, Answer, IsChain, WorkerInv, Conserved, RingInv, PerformAll, Writable;
    WorkerPhase(s.pool, s.phase, None, s.popped, s.reqs, i, Answered);
    ConservedMove(s.pc, s.pool, s.phase, s.popped, s.used, s.skipped, s'.pc, i, s.pool.slot[i], Answered,
                  s.pool.working);
    assert s.pool.slot[i := s.pool.slot[i]] == s.pool.slot;
  }

  lemma ControlComplete(c: Conf, s: Sys, s': Sys)
    requires Control(c, s) && PendingInv(s.pc, s.pool, s.log, s.reqs, s.popped) && Complete(s, s')
    ensures Control(c, s')
  {
    hide KindOf, MakeTask, WorkerInv, Conserved, RingInv, EntryOk;
    var i := s.pc.who.id;
    WorkerPhase(s.pool, s.phase, None, s.popped, s.reqs, i, Ended);
    RoomToComplete(s.pc, s.pool, s.phase, s.popped, s.used, s.skipped, i);
    ConservedComplete(s.pc, s.pool, s.phase, s.popped, s.used, s.skipped, s'.pc, i, s.pc.entry);
  }

  lemma ControlDrop(c: Conf, s: Sys, i: nat, s': Sys)
    requires Control(c, s) && DropTask(s, i, s')
    ensures Control(c, s')
  {
    hide KindOf, MakeTask, Conserved, RingInv, Perform;
    assert WorkerOk(s.pool.working[i], s.pool.slot[i], s.phase[i], Reserved(s.pc) == Some(i), s.popped, s.reqs);
    WorkerMoves(s.pool, s.phase, Reserved(s.pc), s.popped, s.reqs, i, true, None, Clearing, Reserved(s.pc));
    assert s.pool.working[i := true] == s.pool.working;
    ConservedMove(s.pc, s.pool, s.phase, s.popped, s.used, s.skipped, s.pc, i, None, Clearing, s.pool.working);
  }

  lemma ControlClear(c: Conf, s: Sys, i: nat, s': Sys)
    requires Control(c, s) && ClearFlag(s, i, s')
    ensures Control(c, s')
  {
    hide KindOf, MakeTask, Conserved, RingInv, Perform;
    assert WorkerOk(s.pool.working[i], s.pool.slot[i], s.phase[i], Reserved(s.pc) == Some(i), s.popped, s.reqs);
    WorkerMoves(s.pool, s.phase, Reserved(s.pc), s.popped, s.reqs, i, false, None, Idle, Reserved(s.pc));
    assert s.pool.slot[i := None] == s.pool.slot;
    ConservedMove(s.pc, s.pool, s.phase, s.popped, s.used, s.skipped, s.pc, i, None, Idle, s'.pool.working);
  }

  // The steps of the guest

  lemma RingPublish(num: nat, ring: seq<nat>, reqs: seq<Request>, popped: nat, r: Request)
    requires RingInv(num, ring, reqs, popped)
    requires popped <= |reqs| < popped + num
    ensures RingInv(num, ring[|reqs| % num := r.head], reqs + [r], popped)
  {
    forall j | popped <= j < |reqs|
      ensures j % num != |reqs| % num
    {
      ModDistinct(j, |reqs|, num);
    }
  }

  lemma ControlPublish(c: Conf, s: Sys, r: Request, s': Sys)
    requires Control(c, s) && Publish(c, s, r, s')
    ensures Control(c, s')
  {
    hide KindOf, MakeTask, Foot, Holds, WellBuilt, WorkerInv, InFlight, RingInv;
    BumpIndex(|s.reqs|);
    RingPublish(c.num, s.ring, s.reqs, s.popped, r);
    WorkersGrow(s.pool, s.phase, Reserved(s.pc), s.popped, s.reqs, s.popped, s'.reqs);
  }

  lemma ControlGuest(c: Conf, s: Sys, s': Sys)
    requires Control(c, s) && (Reap(s, s') || exists m :: GuestWrite(c, s, m, s'))
    ensures Control(c, s')
  {
    hide WorkerInv, InFlight, RingInv, Foot;
  }
}
