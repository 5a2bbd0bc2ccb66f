/**
 The disk log and the completions under the block request machine.
 */
module BlockStorage {
  import opened Words
  import opened Chains
  import opened PoolSpec
  import opened BlockModel
  import opened BlockInvariant
  import opened BlockControl

  lemma EntryGrow(e: Entry, log: seq<Io>, reqs: seq<Request>, popped: nat, reqs': seq<Request>, popped': nat)
    requires EntryOk(e, log, reqs, popped)
    requires reqs <= reqs' && popped <= popped' <= |reqs'|
    ensures EntryOk(e, log, reqs', popped')
  {
    hide TaskFor, KindOf, Answer;
    assert reqs'[e.ticket] == reqs[e.ticket];
  }

  lemma UsedGrow(used: seq<Entry>, log: seq<Io>, reqs: seq<Request>, popped: nat, reqs': seq<Request>, popped': nat)
    requires UsedInv(used, log, reqs, popped)
    requires reqs <= reqs' && popped <= popped' <= |reqs'|
    ensures UsedInv(used, log, reqs', popped')
  {
    hide EntryOk;
    forall k | 0 <= k < |used|
      ensures EntryOk(used[k], log, reqs', popped')
    {
      EntryGrow(used[k], log, reqs, popped, reqs', popped');
    }
  }

  lemma LogGrow(disk0: seq<byte>, disk: seq<byte>, log: seq<Io>, reqs: seq<Request>, reqs': seq<Request>)
    requires LogInv(disk0, disk, log, reqs)
    requires reqs <= reqs'
    ensures LogInv(disk0, disk, log, reqs')
  {
    hide TaskFor, KindOf, Replay, Pread, Count;
    forall k | 0 <= k < |log|
      ensures IoOk(disk0, log, reqs', k)
    {
      assert IoOk(disk0, log, reqs, k);
      assert reqs'[log[k].ticket] == reqs[log[k].ticket];
    }
  }

  lemma LogAppend(disk0: seq<byte>, disk: seq<byte>, log: seq<Io>, reqs: seq<Request>, io: Io)
    requires LogInv(disk0, disk, log, reqs)
    requires forall k :: 0 <= k < |log| ==> log[k].ticket != io.ticket
    requires IoOk(disk0, log + [io], reqs, |log|)
    ensures LogInv(disk0, Apply(disk, io), log + [io], reqs)
  {
    hide TaskFor, KindOf, Pread, Count, Apply;
    var log' := log + [io];
    assert log'[..|log|] == log;
    forall k | 0 <= k < |log'|
      ensures IoOk(disk0, log', reqs, k)
    {
      if k < |log| {
        assert IoOk(disk0, log, reqs, k);
        assert log'[..k] == log[..k];
      }
    }
  }

  lemma EntryUnderLog(e: Entry, log: seq<Io>, reqs: seq<Request>, popped: nat, io: Io)
    requires EntryOk(e, log, reqs, popped) && e.ticket != io.ticket
    ensures EntryOk(e, log + [io], reqs, popped)
  {
    hide TaskFor, KindOf, Answer;
  }

  lemma UsedUnderLog(used: seq<Entry>, log: seq<Io>, reqs: seq<Request>, popped: nat, io: Io)
    requires UsedInv(used, log, reqs, popped)
    requires Outstanding(used, |used|, io.ticket)
    ensures UsedInv(used, log + [io], reqs, popped)
  {
    hide EntryOk;
    forall k | 0 <= k < |used|
      ensures EntryOk(used[k], log + [io], reqs, popped)
    {
      EntryUnderLog(used[k], log, reqs, popped, io);
    }
  }

  lemma StoragePopSkip(c: Conf, s: Sys, ds: seq<Desc>, s': Sys)
    requires Inv(c, s) && PopSkip(c, s, ds, s')
    requires Control(c, s')
    ensures Storage(c, s')
  {
    hide Control, Pops, KindOf, LogInv, OrderInv, UsedInv, MemInv, HeapInv, Perform;
    assert Basic(c, s') by { ControlBasic(c, s'); }
    UsedGrow(s.used, s.log, s.reqs, s.popped, s.reqs, s'.popped);
  }

  lemma ControlBasic(c: Conf, s: Sys)
    requires Control(c, s)
    ensures Basic(c, s)
  {
  }

  lemma StorageHandOver(c: Conf, s: Sys, s': Sys)
    requires Inv(c, s) && HandOverTask(s, s')
    requires Control(c, s')
    ensures Storage(c, s')
  {
    hide Conserved, RingInv, LogInv, OrderInv, UsedInv, MemInv, HeapInv, MakeTask, KindOf;
    var i := s.pc.to;
    assert WorkerOk(s.pool.working[i], s.pool.slot[i], s.phase[i], true, s.popped, s.reqs);
    TaskTicket(s.popped, s.reqs[s.popped]);
    UsedGrow(s.used, s.log, s.reqs, s.popped, s.reqs, s'.popped);
  }

  lemma StorageReject(c: Conf, s: Sys, s': Sys)
    requires Inv(c, s) && RejectTask(s, s')
    requires Control(c, s')
    ensures Storage(c, s')
  {
    hide Conserved, RingInv, WorkerInv, LogInv, MemInv, PayloadInv, HeapInv, MakeTask, Answer, Perform;
    TaskTicket(s.popped, s.reqs[s.popped]);
    UsedGrow(s.used, s.log, s.reqs, s.popped, s.reqs, s'.popped);
    var e := s'.used[|s.used|];
    assert EntryOk(e, s.log, s.reqs, s'.popped);
  }

  lemma StorageEndDrain(c: Conf, s: Sys, s': Sys)
    requires Inv(c, s) && EndDrain(s, s')
    ensures Storage(c, s')
  {
    hide Control, LogInv, OrderInv, UsedInv, MemInv, HeapInv, Perform;
  }

  lemma CountFits(task: Task)
    ensures Count(task) <= |task.buf|
  {
  }

  lemma StorageWorkerIo(c: Conf, s: Sys, i: nat, n: nat, err: bool, s': Sys)
    requires Inv(c, s) && WorkerIo(s, i, n, err, s')
    ensures Storage(c, s')
  {
    hide RingInv, UsedInv, MemInv, HeapInv, MakeTask, PerformAll, KindOf, Pread, Count, Offset, Replay, Apply;
    hide InFlight, Conserved;
    var task := s.pool.slot[i].value;
    var io := s'.log[|s.log|];
    assert s'.log == s.log + [io];
    assert WorkerOk(s.pool.working[i], s.pool.slot[i], s.phase[i], Reserved(s.pc) == Some(i), s.popped, s.reqs);
    TaskTicket(task.ticket, s.reqs[task.ticket]);
    InPool(c, s, i);
    UsedUnderLog(s.used, s.log, s.reqs, s.popped, io);
    PendingUnderLog(c, s, i, io);
    assert s'.log[..|s.log|] == s.log;
    assert IoOk(c.disk0, s'.log, s.reqs, |s.log|);
    LogAppend(c.disk0, s.disk, s.log, s.reqs, io);
    IoDone(s, i, s', io);
  }

  /** The completion about to be published is not the one of a worker that starts its operation. */
  lemma PendingUnderLog(c: Conf, s: Sys, i: nat, io: Io)
    requires Control(c, s) && PendingInv(s.pc, s.pool, s.log, s.reqs, s.popped)
    requires i < |s.phase| && s.phase[i].Idle? && s.pool.slot[i].Some? && io.ticket == s.pool.slot[i].value.ticket
    ensures PendingInv(s.pc, s.pool, s.log + [io], s.reqs, s.popped)
  {
    hide RingInv, Conserved, EntryOk, WorkerOk;
    if s.pc.Publishing? {
      assert s.pc.who.id != i;
      assert !SameTicket(s.pool.slot[s.pc.who.id], s.pool.slot[i]);
      EntryUnderLog(s.pc.entry, s.log, s.reqs, s.popped, io);
    }
  }

  /** The worker's operation is in the log, and only it. */
  lemma IoDone(s: Sys, i: nat, s': Sys, io: Io)
    requires DoneInv(s.log, s.pool, s.phase, s.popped)
    requires i < |s.phase| && s.phase[i].Idle? && s.pool.slot[i].Some?
    requires io.ticket == s.pool.slot[i].value.ticket < s.popped
    requires s'.pool == s.pool && s'.popped == s.popped && s'.log == s.log + [io]
    requires s'.phase == s.phase[i := Did(io.full, io.data, |s.log|)]
    requires forall k :: 0 <= k < |s.phase| && k != i ==> !SameTicket(s.pool.slot[k], s.pool.slot[i])
    ensures DoneInv(s'.log, s'.pool, s'.phase, s'.popped)
  {
    forall j, k | 0 <= j < |s'.phase| && 0 <= k < |s'.log| && s'.pool.slot[j].Some? && s'.phase[j].Idle?
      ensures s'.log[k].ticket != s'.pool.slot[j].value.ticket
    {
      assert j != i;
      assert !SameTicket(s.pool.slot[j], s.pool.slot[i]);
    }
  }

  /** The request of a worker that has not finished it is not completed. */
  lemma InPool(c: Conf, s: Sys, i: nat)
    requires Control(c, s)
    requires i < |s.phase| && s.pool.slot[i].Some? && (s.phase[i].Idle? || s.phase[i].Did? || s.phase[i].Answered?)
    ensures Outstanding(s.used, |s.used|, s.pool.slot[i].value.ticket)
  {
    hide RingInv, WorkerInv, Conserved;
    InFlightHas(s.pool.slot, s.phase, i);
    NotCompleted(s.pc, s.pool, s.phase, s.popped, s.used, s.skipped, s.pool.slot[i].value.ticket);
  }

  lemma StorageAnswer(c: Conf, s: Sys, i: nat, ds: seq<Desc>, s': Sys)
    requires Inv(c, s) && PutAnswer(c, s, i, ds, s')
    ensures Storage(c, s')
  {
    hide Conserved, RingInv, LogInv, UsedInv, OrderInv, MemInv, HeapInv, MakeTask, IsChain, Writable, EndMem, Answer;
    hide PerformAll, KindOf, InFlight;
    var task := s.pool.slot[i].value;
    assert WorkerOk(s.pool.working[i], s.pool.slot[i], s.phase[i], false, s.popped, s.reqs);
    TaskTicket(task.ticket, s.reqs[task.ticket]);
    assert EntryOk(s'.pc.entry, s.log, s.reqs, s.popped);
  }

  lemma StorageComplete(c: Conf, s: Sys, s': Sys)
    requires Inv(c, s) && Complete(s, s')
    ensures Storage(c, s')
  {
    hide Control, LogInv, MemInv, PayloadInv, HeapInv, EntryOk;
  }

  lemma StorageDrop(c: Conf, s: Sys, i: nat, s': Sys)
    requires Inv(c, s) && DropTask(s, i, s')
    ensures Storage(c, s')
  {
    hide RingInv, WorkerInv, Conserved, LogInv, OrderInv, UsedInv, MemInv, HeapInv, Perform, EntryOk;
    assert s.pc.Publishing? ==> s.pc.who != Worker(i);
  }

  lemma StorageClear(c: Conf, s: Sys, i: nat, s': Sys)
    requires Inv(c, s) && ClearFlag(s, i, s')
    ensures Storage(c, s')
  {
    hide RingInv, Conserved, LogInv, OrderInv, UsedInv, MemInv, HeapInv, MakeTask, KindOf;
    assert WorkerOk(s.pool.working[i], s.pool.slot[i], s.phase[i], Reserved(s.pc) == Some(i), s.popped, s.reqs);
  }

  lemma StoragePublish(c: Conf, s: Sys, r: Request, s': Sys)
    requires Inv(c, s) && Publish(c, s, r, s')
    ensures Storage(c, s')
  {
    hide RingInv, Conserved, WorkerInv, LogInv, MemInv, HeapInv, TaskFor, KindOf, Foot, Holds, WellBuilt, Answer;
    LogGrow(c.disk0, s.disk, s.log, s.reqs, s'.reqs);
    UsedGrow(s.used, s.log, s.reqs, s.popped, s'.reqs, s.popped);
    assert forall k :: 0 <= k < |s.used| && s.used[k].at.Some? ==> s.used[k].at.value < |s.log| by {
      forall k | 0 <= k < |s.used| && s.used[k].at.Some?
        ensures s.used[k].at.value < |s.log|
      {
        assert EntryOk(s.used[k], s.log, s.reqs, s.popped);
      }
    }
  }
}
