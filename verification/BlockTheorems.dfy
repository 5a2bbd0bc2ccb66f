/**
 What holds in every state of every run of the block request machine:
 conservation, in-order draining, single release and progress.
 */
module BlockTheorems {
  import opened Words
  import opened Chains
  import opened PoolSpec
  import opened BlockModel
  import opened BlockInvariant
  import opened BlockMemory
  import opened BlockControl
  import opened BlockStorage
  import opened BlockHeap
  import opened BlockRuns

  /** Nothing in the ring, in the pool or under the lock. */
  ghost predicate Quiescent(s: Sys) {
    && s.pc.Unlocked? && s.popped == |s.reqs|
    && forall i :: 0 <= i < |s.phase| && i < |s.pool.slot| ==> s.pool.slot[i].None? && s.phase[i].Idle?
  }

  // Conservation

  /**
   In every reachable state the requests taken off the ring are, each exactly
   once, the completed ones, the skipped ones, those in flight and the one in
   hand; no more are in flight than there are workers; what was skipped was
   neither a read nor a write, and what was completed was.
   */
  lemma Conservation(c: Conf, run: seq<Sys>, steps: seq<Step>, k: nat)
    requires Run(c, run, steps) && k < |run|
    ensures var s := run[k];
            && |s.pool.slot| == |s.phase| == c.workers && s.popped <= |s.reqs|
            && multiset(Upto(s.popped + |Hand(s.pc)|))
               == multiset(Tickets(s.used)) + multiset(s.skipped) + InFlight(s.pool.slot, s.phase) + Hand(s.pc)
            && |InFlight(s.pool.slot, s.phase)| <= c.workers
            && (forall i :: 0 <= i < |s.skipped| ==> s.skipped[i] < s.popped && s.reqs[s.skipped[i]].Kind().Skip?)
            && (forall i :: 0 <= i < |s.used| ==>
                              && s.used[i].ticket < s.popped && !s.reqs[s.used[i].ticket].Kind().Skip?
                              && s.used[i].head == s.reqs[s.used[i].ticket].head)
  {
    hide Run, InFlight, Upto, Tickets, KindOf, LogInv, MemInv, HeapInv, RingInv, WorkerInv, DoneInv, OrderInv;
    RunKeepsInv(c, run, steps, k);
    var s := run[k];
    InFlightBound(s.pool.slot, s.phase);
    forall i | 0 <= i < |s.used|
      ensures s.used[i].ticket < s.popped && !s.reqs[s.used[i].ticket].Kind().Skip?
      ensures s.used[i].head == s.reqs[s.used[i].ticket].head
    {
      assert EntryOk(s.used[i], s.log, s.reqs, s.popped);
    }
  }

  /** A request is completed at most once. */
  lemma CompletedOnce(c: Conf, run: seq<Sys>, steps: seq<Step>, k: nat, i: nat, j: nat)
    requires Run(c, run, steps) && k < |run|
    requires i < |run[k].used| && j < |run[k].used| && run[k].used[i].ticket == run[k].used[j].ticket
    ensures i == j
  {
    hide Run, Control, Storage, HeapInv, WellBuilt, Holds, Landed, Foot;
    RunKeepsInv(c, run, steps, k);
  }

  /** Once the system is quiet, every read or write, accepted or rejected by the pool, was completed. */
  lemma QuietMeansCompleted(c: Conf, run: seq<Sys>, steps: seq<Step>, k: nat, j: nat) returns (i: nat)
    requires Run(c, run, steps) && k < |run|
    requires Quiescent(run[k]) && j < |run[k].reqs| && !run[k].reqs[j].Kind().Skip?
    ensures i < |run[k].used| && run[k].used[i].ticket == j
  {
    hide Run, Upto, KindOf, Storage, MemInv, HeapInv, RingInv, WorkerInv;
    RunKeepsInv(c, run, steps, k);
    var s := run[k];
    NoneInFlight(s.pool.slot, s.phase);
    UptoOnce(s.popped, j);
    var t, x := multiset(Tickets(s.used)), multiset(s.skipped);
    Counts(t, x, multiset{}, multiset{}, j);
    assert j !in s.skipped;
    assert j in t;
    i :| 0 <= i < |s.used| && Tickets(s.used)[i] == j;
  }

  // The available ring

  lemma IndexDistance(a: nat, b: nat)
    requires a <= b <= a + U16
    ensures (b % U16 + U16 - a % U16) % U16 == if b < a + U16 then b - a else 0
  {
    SameIndex(a, b);
  }

  lemma RunStep(c: Conf, run: seq<Sys>, steps: seq<Step>, k: nat)
    requires Run(c, run, steps) && k < |steps|
    ensures |run| == |steps| + 1
    ensures Next(c, run[k], steps[k], run[k + 1])
  {
  }

  /**
   A drain covers (avail_idx - last_avail_idx) mod 2^16 heads. That is all that
   is published and not taken if and only if these are fewer than 2^16.
   */
  lemma DrainCovers(c: Conf, run: seq<Sys>, steps: seq<Step>, k: nat)
    requires Run(c, run, steps) && k < |steps| && steps[k].DoSnapshot?
    ensures |run| == |steps| + 1
    ensures var s, s' := run[k], run[k + 1];
            && s'.pc.Draining? && s'.pc.goal == |s.reqs| && s'.pc.snap == s.availIdx && s.last < U16
            && (|s.reqs| - s.popped == (s'.pc.snap + U16 - s.last) % U16 <==> |s.reqs| - s.popped < U16)
            && (|s.reqs| - s.popped >= U16 ==> s'.last == s'.pc.snap)
  {
    hide Run, Storage, MemInv, PayloadInv, HeapInv, RingInv, WorkerInv, Conserved, LockInv, PcInv, SkippedInv;
    RunStep(c, run, steps, k);
    RunKeepsInv(c, run, steps, k);
    IndexDistance(run[k].popped, |run[k].reqs|);
    SameIndex(run[k].popped, |run[k].reqs|);
  }

  /** Each pop takes the next request in publication order, and finds it as it was published. */
  lemma PopsInOrder(c: Conf, run: seq<Sys>, steps: seq<Step>, k: nat, ds: seq<Desc>)
    requires Run(c, run, steps) && k < |run|
    requires Pops(c, run[k], ds)
    ensures var s := run[k];
            && s.popped < s.pc.goal <= |s.reqs|
            && s.ring[BitAnd(s.last, c.num - 1)] == s.reqs[s.popped].head
            && ds == s.reqs[s.popped].ds
            && Gather(s.mem, Readable(ds)) == s.reqs[s.popped].rb
  {
    hide Run, KindOf, LogInv, UsedInv, MemInv, HeapInv, RingInv, WorkerInv, DoneInv, OrderInv, Conserved;
    RunKeepsInv(c, run, steps, k);
    PopsNext(c, run[k], ds);
  }

  /** The steps from a snapshot to the end of that drain. */
  predicate IsDrain(steps: seq<Step>, a: nat, b: nat) {
    && a < b < |steps| && steps[a].DoSnapshot? && steps[b].DoEndDrain?
    && forall k :: a < k < b ==> !steps[k].DoEndDrain?
  }

  /** In the middle of a drain: its goal is what its snapshot showed; from a backlog of 2^16 nothing is taken. */
  ghost predicate MidDrain(s0: Sys, s: Sys) {
    && HasGoal(s.pc) && s.pc.goal == |s0.reqs| && s0.popped <= s.popped <= |s0.reqs|
    && (|s0.reqs| - s0.popped >= U16 ==> s.pc.Draining? && s.popped == s0.popped)
  }

  lemma DrainGoesOn(c: Conf, s0: Sys, s: Sys, step: Step, s': Sys)
    requires Inv(c, s) && Next(c, s, step, s') && Inv(c, s') && MidDrain(s0, s) && !step.DoEndDrain?
    ensures MidDrain(s0, s')
  {
    hide Storage, MemInv, PayloadInv, HeapInv, RingInv, WorkerInv, Conserved, LockInv, KindOf, MakeTask, Answer, EndMem;
    hide PerformAll, Perform, Foot, WellBuilt, Holds, IsChain, Pread, Apply, Count;
    DrainStops(c, s);
  }

  lemma {:induction false} DrainMiddle(c: Conf, run: seq<Sys>, steps: seq<Step>, a: nat, b: nat, k: nat)
    requires Run(c, run, steps) && IsDrain(steps, a, b) && a < k <= b
    ensures |run| == |steps| + 1 && MidDrain(run[a], run[k])
    decreases k
  {
    hide Inv, Next, Run;
    if k == a + 1 {
      DrainCovers(c, run, steps, a);
      Reached(c, run, steps, a);
    } else {
      DrainMiddle(c, run, steps, a, b, k - 1);
      RunStep(c, run, steps, k - 1);
      RunKeepsInv(c, run, steps, k - 1);
      RunKeepsInv(c, run, steps, k);
      DrainGoesOn(c, run[a], run[k - 1], steps[k - 1], run[k]);
    }
  }

  lemma Reached(c: Conf, run: seq<Sys>, steps: seq<Step>, a: nat)
    requires Run(c, run, steps) && a < |steps| && steps[a].DoSnapshot?
    ensures |run| == |steps| + 1 && run[a + 1].popped == run[a].popped <= |run[a].reqs|
  {
    hide Run, Storage, MemInv, PayloadInv, HeapInv, RingInv, WorkerInv, Conserved, LockInv, PcInv;
    RunStep(c, run, steps, a);
    RunKeepsInv(c, run, steps, a);
  }

  /**
   A drain takes everything that was published at its snapshot, and nothing
   else, if and only if fewer than 2^16 requests were waiting then; from a
   backlog of 2^16 it takes none.
   */
  lemma DrainEnds(c: Conf, run: seq<Sys>, steps: seq<Step>, a: nat, b: nat)
    requires Run(c, run, steps) && IsDrain(steps, a, b)
    ensures |run| == |steps| + 1
    ensures run[b].popped == |run[a].reqs| <==> |run[a].reqs| - run[a].popped < U16
    ensures run[b].popped != |run[a].reqs| ==> run[b].popped == run[a].popped
  {
    hide Run, Storage, MemInv, PayloadInv, HeapInv, RingInv, WorkerInv, Conserved, LockInv;
    DrainMiddle(c, run, steps, a, b, b);
    RunStep(c, run, steps, b);
    RunKeepsInv(c, run, steps, b);
    DrainStops(c, run[b]);
  }

  /** No step takes a request twice or skips one: the count moves by at most one, and only on a pop. */
  lemma NoneSkipped(c: Conf, run: seq<Sys>, steps: seq<Step>, k: nat)
    requires Run(c, run, steps) && k < |steps|
    ensures |run| == |steps| + 1
    ensures run[k].popped <= run[k + 1].popped <= run[k].popped + 1
    ensures run[k + 1].last == run[k + 1].popped % U16
    ensures run[k].reqs <= run[k + 1].reqs
  {
    hide Run, Storage, MemInv, HeapInv, RingInv, WorkerInv, Conserved, LockInv, PcInv;
    RunStep(c, run, steps, k);
    RunKeepsInv(c, run, steps, k + 1);
  }

  // Answers

  /**
   A completion that the guest can see and has not taken back has its answer in
   guest memory, whatever the guest and the other workers do in between; and a
   request that is not completed still has the chain and the bytes it was
   published with.
   */
  lemma VisibleMeansAnswered(c: Conf, run: seq<Sys>, steps: seq<Step>, k: nat, i: nat)
    requires Run(c, run, steps) && k < |run| && run[k].reaped <= i < |run[k].used|
    ensures var s := run[k];
            && s.used[i].ticket < |s.reqs|
            && Landed(s.mem, s.reqs[s.used[i].ticket], s.used[i].wrote)
    ensures forall j :: 0 <= j < |run[k].reqs| && Outstanding(run[k].used, |run[k].used|, j) ==>
                          Holds(c, run[k].mem, run[k].reqs[j])
  {
    hide Run, Control, Storage, PayloadInv, HeapInv, WellBuilt, Holds, Landed, Foot;
    RunKeepsInv(c, run, steps, k);
  }

  // The host heap

  /** No block of a request is used or released unless it is live. */
  lemma NeverMisused(c: Conf, run: seq<Sys>, steps: seq<Step>, k: nat)
    requires Run(c, run, steps) && k < |run|
    ensures run[k].heap.ok
    ensures run[k].heap.live !! run[k].heap.freed
  {
    hide Run, Control, Storage, MemInv, ShouldLive, KindOf;
    RunKeepsInv(c, run, steps, k);
  }

  /**
   Once the system is quiet, the three blocks of every read and write were
   released; what is still live is the callback argument of the requests of
   other types, and nothing else.
   */
  lemma ReleasedOnce(c: Conf, run: seq<Sys>, steps: seq<Step>, k: nat, j: nat, b: Block)
    requires Run(c, run, steps) && k < |run|
    requires Quiescent(run[k]) && j < |run[k].reqs|
    ensures Hnd(j, b) in run[k].heap.freed <==> !run[k].reqs[j].Kind().Skip?
    ensures Hnd(j, b) in run[k].heap.live <==> b == Arg && run[k].reqs[j].Kind() == Skip(true)
  {
    hide Run, Storage, MemInv, KindOf, RingInv, WorkerInv, Conserved;
    RunKeepsInv(c, run, steps, k);
    var s := run[k];
    assert !CarriedLive(s.pool, s.phase, Hnd(j, b));
  }

  // Progress

  /** A step of the device side, not of the guest. */
  predicate DeviceStep(step: Step) {
    !step.DoGuestWrite? && !step.DoPublish? && !step.DoReap?
  }

  lemma EndMoves(c: Conf, s: Sys) returns (step: Step, s': Sys)
    requires Inv(c, s) && s.pc.Draining? && s.last == s.pc.snap
    ensures Next(c, s, step, s') && DeviceStep(step) && !step.DoLock?
  {
    hide Storage, HeapInv, MemInv, RingInv, PcInv, WorkerInv, Conserved, Perform;
    step := DoEndDrain;
    match s.pc.who {
      case Outside => s' := s.(pc := Unlocked);
      case Worker(i) =>
        EndedCarries(c, s, i);
        var j := s.pool.slot[i].value.ticket;
        s' := s.(pc := Unlocked, phase := s.phase[i := Returned], heap := Perform(s.heap, Free(Hnd(j, Arg))));
    }
  }

  lemma SnapshotMoves(c: Conf, s: Sys) returns (step: Step, s': Sys)
    requires Inv(c, s) && s.pc.Locked?
    ensures Next(c, s, step, s') && DeviceStep(step) && step.DoSnapshot?
  {
    hide Storage, HeapInv, MemInv, PayloadInv, RingInv, PcInv, WorkerInv, Conserved, Perform;
    step := DoSnapshot;
    s' := s.(pc := Draining(s.pc.who, s.availIdx, |s.reqs|));
    if s.pc.who.Worker? {
      EndedCarries(c, s, s.pc.who.id);
      s' := s'.(heap := Perform(s.heap, Use(Hnd(s.pool.slot[s.pc.who.id].value.ticket, Arg))));
    }
  }

  lemma NextOnRing(c: Conf, s: Sys)
    requires Inv(c, s) && s.pc.Draining? && s.last != s.pc.snap
    ensures s.popped < |s.reqs| && Pops(c, s, s.reqs[s.popped].ds)
    ensures Gather(s.mem, Readable(s.reqs[s.popped].ds)) == s.reqs[s.popped].rb
  {
    hide Storage, HeapInv, WorkerInv, Conserved, Foot, WellBuilt, Landed, IsChain;
    SlotOf(s.popped, c.num);
    NotYetCompleted(c, s);
    assert Holds(c, s.mem, s.reqs[s.popped]);
  }

  lemma PopMoves(c: Conf, s: Sys) returns (step: Step, s': Sys)
    requires Inv(c, s) && s.pc.Draining? && s.last != s.pc.snap
    ensures Next(c, s, step, s') && DeviceStep(step) && !step.DoLock?
  {
    hide Inv, MakeTask, PerformAll, Perform, KindOf, Gather, Readable, IsChain, BitAnd;
    NextOnRing(c, s);
    var r := s.reqs[s.popped];
    var j, h := s.popped, s.ring[BitAnd(s.last, c.num - 1)];
    if r.Kind().Skip? {
      step := DoPopSkip(r.ds);
      s' := s.(last := Bump(s.last), popped := j + 1, skipped := s.skipped + [j],
               heap := if r.Kind().leak then Perform(s.heap, Malloc(Hnd(j, Arg))) else s.heap);
    } else {
      step := DoPopRequest(r.ds);
      s' := s.(pc := Scanning(s.pc.who, s.pc.snap, s.pc.goal, MakeTask(j, h, r.ds, r.rb)),
               heap := PerformAll(s.heap, [Malloc(Hnd(j, Arg)), Malloc(Hnd(j, Buf)), Malloc(Hnd(j, Rec))]));
    }
  }

  lemma NotYetCompleted(c: Conf, s: Sys)
    requires Inv(c, s)
    ensures Outstanding(s.used, |s.used|, s.popped)
  {
    hide Control, MemInv, HeapInv, LogInv, DoneInv, OrderInv, TaskFor, KindOf, Answer;
    forall k | 0 <= k < |s.used|
      ensures s.used[k].ticket != s.popped
    {
      assert EntryOk(s.used[k], s.log, s.reqs, s.popped);
    }
  }

  lemma EndedCarries(c: Conf, s: Sys, i: nat)
    requires Inv(c, s) && i < |s.phase| && (s.phase[i].Ended? || s.phase[i].Did? || s.phase[i].Returned?)
    ensures |s.phase| == |s.pool.slot| && s.pool.slot[i].Some?
  {
    hide Storage, MemInv, HeapInv, Conserved, RingInv, TaskFor, KindOf;
    assert WorkerOk(s.pool.working[i], s.pool.slot[i], s.phase[i], Reserved(s.pc) == Some(i), s.popped, s.reqs);
  }

  lemma SubmitMoves(c: Conf, s: Sys) returns (step: Step, s': Sys)
    requires Inv(c, s) && InHand(s.pc)
    ensures Next(c, s, step, s') && DeviceStep(step) && !step.DoLock?
  {
    hide Storage, HeapInv, Conserved, MakeTask, PerformAll, Foot, Landed, Answer, EndMem, RingInv, KindOf, WellBuilt;
    hide IsChain, WorkerOk;
    if s.pc.HandingOver? {
      step := DoHandOver;
      s' := s.(pc := Draining(s.pc.who, s.pc.snap, s.pc.goal), pool := HandOver(s.pool, s.pc.to, s.pc.task),
               last := Bump(s.last), popped := s.popped + 1);
    } else if s.pc.Refusing? {
      var task := s.pc.task;
      step := DoReject;
      s' := s.(pc := Draining(s.pc.who, s.pc.snap, s.pc.goal),
               used := s.used + [Entry(task.ticket, task.head, task.size, false, Answer(task, [], false), None)],
               last := Bump(s.last), popped := s.popped + 1, heap := Perform(s.heap, Free(Hnd(task.ticket, Arg))));
    } else if AllBusy(s.pool) {
      var j, task := s.popped, s.pc.task;
      var r := s.reqs[j];
      TaskTicket(j, r);
      NotYetCompleted(c, s);
      assert Holds(c, s.mem, r);
      WritableInMem(c, r);
      step := DoRefuse(r.ds);
      s' := s.(pc := Refusing(s.pc.who, s.pc.snap, s.pc.goal, task),
               mem := EndMem(s.mem, r.ds, Answer(task, [], false)),
               heap := PerformAll(s.heap, [Free(Hnd(j, Rec))]
                                          + (if task.kind.Out? then [Free(Hnd(j, Buf)), Use(Hnd(j, Arg))]
                                             else [Use(Hnd(j, Arg)), Use(Hnd(j, Buf)), Free(Hnd(j, Buf))])));
    } else {
      var i := LeastIdle(s.pool);
      step := DoReserve(i);
      s' := s.(pc := HandingOver(s.pc.who, s.pc.snap, s.pc.goal, s.pc.task, i), pool := Reserve(s.pool, i));
    }
  }

  lemma InvControl(c: Conf, s: Sys)
    requires Inv(c, s)
    ensures Control(c, s)
  {
  }

  lemma IoMoves(c: Conf, s: Sys, i: nat) returns (step: Step, s': Sys)
    requires Inv(c, s) && i < |s.phase| && s.phase[i].Idle? && s.pool.slot[i].Some?
    ensures Next(c, s, step, s') && DeviceStep(step) && !step.DoLock?
  {
    hide Inv, Control, PerformAll, Apply, Pread, Count, Offset, KindOf;
    InvControl(c, s);
    CarriedFacts(c, s, i);
    var task := s.pool.slot[i].value;
    var j := task.ticket;
    CountFits(task);
    step := DoIo(i, 0, false);
    var data: seq<byte> := if task.kind.Out? then task.buf[..0] else Pread(s.disk, Offset(task.kind.sector), 0);
    assert |data| == 0 by { NothingRead(s.disk, Offset(task.kind.sector)); }
    var io := Io(j, task.kind.Out?, Offset(task.kind.sector), data, 0 == Count(task));
    s' := s.(disk := Apply(s.disk, io), log := s.log + [io], phase := s.phase[i := Did(io.full, data, |s.log|)],
             heap := PerformAll(s.heap, [Use(Hnd(j, Rec)), Use(Hnd(j, Buf))]
                                + if task.kind.Out? then [Free(Hnd(j, Buf))] else []));
  }

  lemma AnswerMoves(c: Conf, s: Sys, i: nat) returns (step: Step, s': Sys)
    requires Inv(c, s) && i < |s.phase| && s.phase[i].Did? && s.pc.Unlocked?
    ensures Next(c, s, step, s') && DeviceStep(step) && !step.DoLock?
  {
    hide Storage, HeapInv, PerformAll, Foot, Landed, Answer, EndMem, KindOf, WellBuilt, IsChain, Control, MakeTask;
    EndedCarries(c, s, i);
    var task := s.pool.slot[i].value;
    var j := task.ticket;
    WorkerTask(c, s, i);
    InPool(c, s, i);
    var r, e := s.reqs[j], EntryOf(task, s.phase[i]);
    assert Holds(c, s.mem, r);
    WritableInMem(c, r);
    step := DoAnswer(i, r.ds);
    s' := s.(pc := Publishing(Worker(i), e), phase := s.phase[i := Answered], mem := EndMem(s.mem, r.ds, e.wrote),
             heap := PerformAll(s.heap, [Use(Hnd(j, Rec)), Use(Hnd(j, Arg))]
                                        + if task.kind.In? then [Use(Hnd(j, Buf)), Free(Hnd(j, Buf))] else []));
  }

  lemma WorkerMovesOn(c: Conf, s: Sys, i: nat) returns (step: Step, s': Sys)
    requires Inv(c, s) && i < |s.phase| && s.pc.Unlocked?
    requires s.pool.slot[i].Some? || !s.phase[i].Idle?
    ensures Next(c, s, step, s') && DeviceStep(step) && !step.DoLock?
  {
    hide Storage, HeapInv, MemInv, RingInv, WorkerInv, Conserved, Perform;
    match s.phase[i] {
      case Clearing =>
        step := DoClear(i);
        s' := s.(phase := s.phase[i := Idle], pool := Clear(s.pool, i));
      case Returned =>
        EndedCarries(c, s, i);
        step := DoDrop(i);
        s' := s.(phase := s.phase[i := Clearing], pool := Drop(s.pool, i),
                 heap := Perform(s.heap, Free(Hnd(s.pool.slot[i].value.ticket, Rec))));
      case Idle =>
        step, s' := IoMoves(c, s, i);
      case Did(_, _, _) =>
        step, s' := AnswerMoves(c, s, i);
    }
  }

  lemma NothingRead(d: seq<byte>, off: nat)
    ensures |Pread(d, off, 0)| == 0
  {
  }

  /** Whoever holds the device lock has a step to take. */
  lemma HolderMoves(c: Conf, s: Sys) returns (step: Step, s': Sys)
    requires Inv(c, s) && !s.pc.Unlocked?
    ensures Next(c, s, step, s') && DeviceStep(step) && !step.DoLock?
  {
    hide Storage, MemInv, PayloadInv, HeapInv, RingInv, WorkerInv, Conserved, PcInv;
    if s.pc.Locked? {
      step, s' := SnapshotMoves(c, s);
    } else if s.pc.Draining? {
      if s.last == s.pc.snap {
        step, s' := EndMoves(c, s);
      } else {
        step, s' := PopMoves(c, s);
      }
    } else if s.pc.Publishing? {
      step := DoComplete;
      s' := s.(pc := Locked(s.pc.who), phase := s.phase[s.pc.who.id := Ended], used := s.used + [s.pc.entry]);
    } else {
      step, s' := SubmitMoves(c, s);
    }
  }

  /** In every reachable state that is not quiet, the device or a worker has a step to take. */
  lemma Progress(c: Conf, run: seq<Sys>, steps: seq<Step>, k: nat) returns (step: Step, s': Sys)
    requires Run(c, run, steps) && k < |run|
    requires !Quiescent(run[k])
    ensures Next(c, run[k], step, s') && DeviceStep(step)
    ensures step.DoLock? ==> run[k].pc.Unlocked? && run[k].popped < |run[k].reqs|
  {
    hide Run, Inv;
    RunKeepsInv(c, run, steps, k);
    var s := run[k];
    if !s.pc.Unlocked? {
      step, s' := HolderMoves(c, s);
    } else if s.popped != |s.reqs| {
      assert s.popped < |s.reqs| by { PoppedBound(c, s); }
      step, s' := DoLock, s.(pc := Locked(Outside));
    } else {
      var i :| 0 <= i < |s.phase| && i < |s.pool.slot| && !(s.pool.slot[i].None? && s.phase[i].Idle?);
      step, s' := WorkerMovesOn(c, s, i);
    }
  }

  lemma PoppedBound(c: Conf, s: Sys)
    requires Inv(c, s)
    ensures s.popped <= |s.reqs|
  {
    hide Storage, MemInv, PayloadInv, HeapInv, RingInv, WorkerInv, Conserved, PcInv, LockInv;
  }

  // The pool

  /** The block device drives the pool only by the moves the pool protocol makes. */
  lemma PoolAsSpecified(c: Conf, run: seq<Sys>, steps: seq<Step>, k: nat)
    requires Run(c, run, steps) && k < |steps|
    ensures |run| == |steps| + 1 && Move(run[k].pool, run[k + 1].pool)
  {
    hide Run, Inv;
    RunStep(c, run, steps, k);
    RunKeepsInv(c, run, steps, k);
    MovesPool(c, run[k], steps[k], run[k + 1]);
  }

  lemma MovesPool(c: Conf, s: Sys, step: Step, s': Sys)
    requires Inv(c, s) && Next(c, s, step, s')
    ensures Move(s.pool, s'.pool)
  {
    hide Storage, MemInv, HeapInv, RingInv, Conserved, PcInv, LockInv, Pops, EndMem, Answer, IsChain, PerformAll;
    hide KindOf, MakeTask, Pread, Apply, Foot, WellBuilt;
    match step {
      case DoHandOver =>
        var i := s.pc.to;
        assert WorkerOk(s.pool.working[i], s.pool.slot[i], s.phase[i], true, s.popped, s.reqs);
      case DoClear(i) =>
        assert WorkerOk(s.pool.working[i], s.pool.slot[i], s.phase[i], Reserved(s.pc) == Some(i), s.popped, s.reqs);
      case _ =>
    }
  }
}
