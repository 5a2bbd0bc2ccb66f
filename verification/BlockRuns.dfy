/**
 Every step of the block request machine keeps the invariant, so every state of
 every run satisfies it.
 */
module BlockRuns {
  import opened Words
  import opened Chains
  import opened PoolSpec
  import opened BlockModel
  import opened BlockInvariant
  import opened BlockMemory
  import opened BlockControl
  import opened BlockStorage
  import opened BlockHeap

  lemma AnswerFits(c: Conf, j: nat, r: Request, data: seq<byte>, ok: bool)
    requires WellBuilt(c, r) && !r.Kind().Skip?
    ensures |Answer(TaskFor(j, r), data, ok)| <= |Writable(r.ds)|
  {
  }

  /** A request that is answered now was left alone since it was published. */
  lemma AnsweringKeepsMemory(c: Conf, s: Sys, ds: seq<Desc>, j: nat, bytes: seq<byte>)
    requires MemInv(c, s.mem, s.reqs, s.used, s.reaped)
    requires j < |s.reqs| && Outstanding(s.used, |s.used|, j)
    requires IsChain(s.mem, c.table, s.reqs[j].head, ds)
    requires InMem(|s.mem|, Writable(ds))
    requires |bytes| <= |Writable(s.reqs[j].ds)|
    ensures ds == s.reqs[j].ds
    ensures MemInv(c, EndMem(s.mem, ds, bytes), s.reqs, s.used, s.reaped)
    ensures Landed(EndMem(s.mem, ds, bytes), s.reqs[j], bytes)
  {
    hide Foot, WellBuilt, Landed, EndMem, IsChain, Writable;
    var r := s.reqs[j];
    assert Holds(c, s.mem, r);
    ChainUnique(s.mem, c.table, r.head, ds, r.ds);
    AnswerKeepsMemory(c, s.mem, s.reqs, s.used, s.reaped, j, bytes);
  }

  /** The request in hand has not been completed. */
  lemma InHandOutstanding(c: Conf, s: Sys)
    requires Control(c, s) && InHand(s.pc)
    ensures s.popped < |s.reqs| && s.pc.task == TaskFor(s.popped, s.reqs[s.popped])
    ensures s.pc.task.ticket == s.popped && s.pc.task.head == s.reqs[s.popped].head && !s.reqs[s.popped].Kind().Skip?
    ensures Outstanding(s.used, |s.used|, s.popped)
  {
    hide RingInv, WorkerInv, MakeTask, KindOf, InFlight, Conserved;
    TaskTicket(s.popped, s.reqs[s.popped]);
    assert s.popped in Hand(s.pc);
    NotCompleted(s.pc, s.pool, s.phase, s.popped, s.used, s.skipped, s.popped);
  }

  lemma MemoryRefuse(c: Conf, s: Sys, ds: seq<Desc>, s': Sys)
    requires Inv(c, s) && RefuseTask(c, s, ds, s')
    ensures MemInv(c, s'.mem, s'.reqs, s'.used, s'.reaped) && PayloadInv(s'.mem, s'.pc, s'.reqs, s'.popped)
  {
    hide Control, Storage, HeapInv, EndMem, Answer, IsChain, Writable, MakeTask, PerformAll, KindOf, WellBuilt, Holds;
    hide Foot;
    hide Landed;
    InHandOutstanding(c, s);
    AnswerFits(c, s.popped, s.reqs[s.popped], [], false);
    AnsweringKeepsMemory(c, s, ds, s.popped, Answer(s.pc.task, [], false));
  }

  lemma MemoryReject(c: Conf, s: Sys, s': Sys)
    requires Inv(c, s) && RejectTask(s, s')
    ensures MemInv(c, s'.mem, s'.reqs, s'.used, s'.reaped)
  {
    hide Control, Storage, MemInv, HeapInv, Answer, Perform, MakeTask, KindOf;
    InHandOutstanding(c, s);
    EntryKeepsMemory(c, s.mem, s.reqs, s.used, s.reaped, s'.used[|s.used|]);
  }

  /** The task of a worker is that of its request. */
  lemma WorkerTask(c: Conf, s: Sys, i: nat)
    requires Control(c, s) && i < |s.phase| && s.pool.slot[i].Some?
    ensures var task := s.pool.slot[i].value;
            && task.ticket < |s.reqs| && task == TaskFor(task.ticket, s.reqs[task.ticket])
            && task.head == s.reqs[task.ticket].head && !s.reqs[task.ticket].Kind().Skip?
  {
    hide RingInv, Conserved, MakeTask, KindOf;
    assert WorkerOk(s.pool.working[i], s.pool.slot[i], s.phase[i], Reserved(s.pc) == Some(i), s.popped, s.reqs);
    TaskTicket(s.pool.slot[i].value.ticket, s.reqs[s.pool.slot[i].value.ticket]);
  }

  lemma MemoryAnswer(c: Conf, s: Sys, i: nat, ds: seq<Desc>, s': Sys)
    requires Inv(c, s) && PutAnswer(c, s, i, ds, s')
    ensures MemInv(c, s'.mem, s'.reqs, s'.used, s'.reaped) && PayloadInv(s'.mem, s'.pc, s'.reqs, s'.popped)
  {
    hide Control, Storage, HeapInv, EndMem, Answer, IsChain, Writable, MakeTask, PerformAll, KindOf, WellBuilt, Holds;
    hide Foot;
    hide Landed, TaskFor;
    var task := s.pool.slot[i].value;
    var j := task.ticket;
    WorkerTask(c, s, i);
    InPool(c, s, i);
    AnswerFits(c, j, s.reqs[j], if task.kind.In? then s.phase[i].data else [], s.phase[i].full);
    AnsweringKeepsMemory(c, s, ds, j, s'.pc.entry.wrote);
  }

  lemma PublishingOutstanding(c: Conf, s: Sys)
    requires Control(c, s) && PendingInv(s.pc, s.pool, s.log, s.reqs, s.popped) && s.pc.Publishing?
    ensures Outstanding(s.used, |s.used|, s.pc.entry.ticket)
  {
    hide RingInv, WorkerInv, Conserved, EntryOk;
    InPool(c, s, s.pc.who.id);
  }

  lemma MemoryComplete(c: Conf, s: Sys, s': Sys)
    requires Inv(c, s) && Complete(s, s')
    ensures MemInv(c, s'.mem, s'.reqs, s'.used, s'.reaped)
  {
    hide Control, LogInv, UsedInv, DoneInv, OrderInv, PendingInv, MemInv, HeapInv;
    PublishingOutstanding(c, s);
    EntryKeepsMemory(c, s.mem, s.reqs, s.used, s.reaped, s.pc.entry);
  }

  lemma MemoryGuest(c: Conf, s: Sys, m: seq<byte>, s': Sys)
    requires Inv(c, s) && GuestWrite(c, s, m, s')
    ensures MemInv(c, s'.mem, s'.reqs, s'.used, s'.reaped) && PayloadInv(s'.mem, s'.pc, s'.reqs, s'.popped)
  {
    hide Control, LogInv, UsedInv, DoneInv, OrderInv, PendingInv, HeapInv, PayloadInv, LeavesAlone, WellBuilt, Holds;
    hide Foot;
    hide Landed;
    if s.pc.Publishing? {
      PublishingOutstanding(c, s);
    } else if s.pc.Refusing? {
      InHandOutstanding(c, s);
    }
    GuestKeepsMemory(c, s, m);
    GuestKeepsPayload(c, s, m);
  }

  lemma StorageSame(c: Conf, s: Sys, s': Sys)
    requires Storage(c, s)
    requires s'.disk == s.disk && s'.log == s.log && s'.reqs == s.reqs && s'.used == s.used
    requires s'.pool.slot == s.pool.slot && s'.phase == s.phase && s'.popped == s.popped
    requires s'.pc.Publishing? ==> s'.pc == s.pc
    ensures Storage(c, s')
  {
    hide LogInv, UsedInv, OrderInv, EntryOk;
  }

  // Step by step

  predicate DrainStep(step: Step) {
    || step.DoLock? || step.DoSnapshot? || step.DoPopSkip? || step.DoPopRequest? || step.DoReserve?
    || step.DoHandOver? || step.DoRefuse? || step.DoReject? || step.DoEndDrain?
  }

  lemma DrainStepKeepsInv(c: Conf, s: Sys, step: Step, s': Sys)
    requires Inv(c, s) && Next(c, s, step, s') && DrainStep(step)
    ensures Inv(c, s')
  {
    hide Control, Storage, MemInv, HeapInv, Pops, KindOf, EndMem, Answer, IsChain, Writable, PerformAll, Perform;
    hide MakeTask;
    hide Landed;
    match step {
      case DoLock =>
        ControlLock(c, s, s'); StorageSame(c, s, s'); HeapSame(s, s');
      case DoSnapshot =>
        ControlLock(c, s, s'); StorageSame(c, s, s'); HeapSnapshot(c, s, s');
      case DoPopSkip(ds) =>
        ControlPopSkip(c, s, ds, s'); StoragePopSkip(c, s, ds, s'); HeapPopSkip(c, s, ds, s');
        PopSkipFacts(c, s, ds, s');
      case DoPopRequest(ds) =>
        ControlPopRequest(c, s, ds, s'); StorageSame(c, s, s'); HeapPopRequest(c, s, ds, s');
      case DoReserve(i) =>
        ControlReserve(c, s, i, s'); StorageSame(c, s, s'); HeapSame(s, s');
      case DoHandOver =>
        ControlHandOver(c, s, s'); StorageHandOver(c, s, s'); HeapHandOver(c, s, s');
      case DoRefuse(ds) =>
        ControlRefuse(c, s, ds, s'); StorageSame(c, s, s'); HeapRefuse(c, s, ds, s'); MemoryRefuse(c, s, ds, s');
      case DoReject =>
        ControlReject(c, s, s'); StorageReject(c, s, s'); HeapReject(c, s, s'); MemoryReject(c, s, s');
      case DoEndDrain =>
        ControlEndDrain(c, s, s'); StorageEndDrain(c, s, s'); HeapEndDrain(c, s, s');
    }
  }

  predicate WorkerStep(step: Step) {
    step.DoIo? || step.DoAnswer? || step.DoComplete? || step.DoDrop? || step.DoClear?
  }

  lemma WorkerStepKeepsInv(c: Conf, s: Sys, step: Step, s': Sys)
    requires Inv(c, s) && Next(c, s, step, s') && WorkerStep(step)
    ensures Inv(c, s')
  {
    hide Control, LogInv, DoneInv, UsedInv, OrderInv, PendingInv, MemInv, HeapInv, KindOf, EndMem, Answer, IsChain;
    hide Writable;
    hide PerformAll, Perform, Pread, Apply, Count, Landed;
    match step {
      case DoIo(i, n, err) =>
        ControlWorkerIo(c, s, i, n, err, s'); StorageWorkerIo(c, s, i, n, err, s'); HeapWorkerIo(c, s, i, n, err, s');
      case DoAnswer(i, ds) =>
        ControlAnswer(c, s, i, ds, s'); StorageAnswer(c, s, i, ds, s'); HeapAnswer(c, s, i, ds, s');
        MemoryAnswer(c, s, i, ds, s');
      case DoComplete =>
        ControlComplete(c, s, s'); StorageComplete(c, s, s'); HeapComplete(c, s, s'); MemoryComplete(c, s, s');
      case DoDrop(i) =>
        ControlDrop(c, s, i, s'); StorageDrop(c, s, i, s'); HeapDrop(c, s, i, s');
      case DoClear(i) =>
        ControlClear(c, s, i, s'); StorageClear(c, s, i, s'); HeapClear(c, s, i, s');
    }
  }

  lemma GuestStepKeepsInv(c: Conf, s: Sys, step: Step, s': Sys)
    requires Inv(c, s) && Next(c, s, step, s') && !DrainStep(step) && !WorkerStep(step)
    ensures Inv(c, s')
  {
    hide Control, Storage, MemInv, HeapInv, Foot, WellBuilt, Holds, LeavesAlone, Landed;
    match step {
      case DoGuestWrite(m) =>
        ControlGuest(c, s, s'); StorageSame(c, s, s'); HeapSame(s, s'); MemoryGuest(c, s, m, s');
      case DoPublish(r) =>
        ControlPublish(c, s, r, s'); StoragePublish(c, s, r, s'); HeapSame(s, s'); PublishKeepsMemory(c, s, r, s');
      case DoReap =>
        ControlGuest(c, s, s'); StorageSame(c, s, s'); HeapSame(s, s');
        ReapKeepsMemory(c, s.mem, s.reqs, s.used, s.reaped);
    }
  }

  lemma StepKeepsInv(c: Conf, s: Sys, step: Step, s': Sys)
    requires Inv(c, s) && Next(c, s, step, s')
    ensures Inv(c, s')
  {
    hide Inv, Next;
    if DrainStep(step) {
      DrainStepKeepsInv(c, s, step, s');
    } else if WorkerStep(step) {
      WorkerStepKeepsInv(c, s, step, s');
    } else {
      GuestStepKeepsInv(c, s, step, s');
    }
  }

  /** Every state of every run satisfies the invariant. */
  lemma {:induction false} RunKeepsInv(c: Conf, run: seq<Sys>, steps: seq<Step>, k: nat)
    requires Run(c, run, steps) && k < |run|
    ensures Inv(c, run[k])
  {
    hide Inv, Next, Init;
    if k == 0 {
      InitInv(c, run[0]);
    } else {
      RunKeepsInv(c, run, steps, k - 1);
      StepKeepsInv(c, run[k - 1], steps[k - 1], run[k]);
    }
  }
}
