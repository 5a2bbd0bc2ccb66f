/**
 The block device from the guest's point of view, over every run: which bytes of
 a request make the device write which bytes of the disk, what a read delivers,
 and what the status byte says. Everything here is in terms of request bytes,
 disk bytes and guest bytes.
 */
module BlockBytes {
  import opened Words
  import opened Chains
  import opened QueueCopy
  import opened BlockModel
  import opened BlockInvariant
  import opened BlockRuns
  import opened BlockTheorems
  import opened DiskConsistency

  /** Where on the disk a request begins: 512 bytes per sector, in 64 bits. */
  ghost predicate StartsAt(rb: seq<byte>, start: nat) {
    |rb| >= 16 && start < 0x1_0000_0000_0000_0000
    && exists wraps: nat :: 512 * SectorNumber(rb) == start + 0x1_0000_0000_0000_0000 * wraps
  }

  lemma StartIsOffset(r: Request, start: nat)
    requires !r.Kind().Skip? && StartsAt(r.rb, start)
    ensures Off(r) == start
  {
    hide KindOf;
    KindBytes(r.ds, r.rb);
    var wraps: nat :| 512 * SectorNumber(r.rb) == start + 0x1_0000_0000_0000_0000 * wraps;
    ModUnique(SectorNumber(r.rb) * SECTOR, U64, wraps, start);
  }

  /** A sector number that does not wrap. */
  lemma PlainStart(rb: seq<byte>)
    requires |rb| >= 16 && 512 * SectorNumber(rb) < 0x1_0000_0000_0000_0000
    ensures StartsAt(rb, 512 * SectorNumber(rb))
  {
    assert 512 * SectorNumber(rb) == 512 * SectorNumber(rb) + 0x1_0000_0000_0000_0000 * 0;
  }

  /**
   How many bytes of the disk a request is about: whole sectors of the data, or of
   the room before the status byte.
   */
  lemma LengthInBytes(r: Request)
    ensures WritesDisk(r.ds, r.rb) ==> Len(r) == (|r.rb| - 16) / 512 * 512
    ensures ReadsDisk(r.ds, r.rb) && |Writable(r.ds)| >= 1 ==> Len(r) == (|Writable(r.ds)| - 1) / 512 * 512
  {
    hide KindOf;
    KindBytes(r.ds, r.rb);
  }

  /** Requests for disjoint sectors do not overlap on the disk. */
  lemma SectorsApart(x: Request, r: Request)
    requires !x.Kind().Skip? && !r.Kind().Skip? && |x.rb| >= 16 && |r.rb| >= 16
    requires 512 * SectorNumber(x.rb) < 0x1_0000_0000_0000_0000 && 512 * SectorNumber(r.rb) < 0x1_0000_0000_0000_0000
    requires 512 * SectorNumber(x.rb) + Len(x) <= 512 * SectorNumber(r.rb)
    ensures !Overlaps(x, Off(r), Len(r)) && !Overlaps(r, Off(x), Len(x))
  {
    hide KindOf, Len, Off;
    PlainStart(x.rb);
    PlainStart(r.rb);
    StartIsOffset(x, 512 * SectorNumber(x.rb));
    StartIsOffset(r, 512 * SectorNumber(r.rb));
  }

  // The step at which a request reached the disk

  lemma LogStep(c: Conf, s: Sys, step: Step, s': Sys)
    requires Next(c, s, step, s')
    ensures step.DoIo? ==> |s'.log| == |s.log| + 1 && s'.log[..|s.log|] == s.log
    ensures !step.DoIo? ==> s'.log == s.log && s'.disk == s.disk
  {
    hide Pops, KindOf, MakeTask, Answer, EndMem, PerformAll, Perform, IsChain, Pread, Apply, Count, LeavesAlone;
  }

  /** The disk operation number p of a run happened at some step a - 1. */
  lemma {:induction false} IoStep(c: Conf, run: seq<Sys>, steps: seq<Step>, k: nat, p: nat) returns (a: nat)
    requires Run(c, run, steps) && k < |run| && p < |run[k].log|
    ensures 0 < a <= k && a <= |steps| && steps[a - 1].DoIo?
    ensures run[a - 1].log == run[k].log[..p] && run[a].log == run[k].log[..p + 1]
    decreases k
  {
    hide Run, Next, Init;
    if k == 0 {
      StartsEmpty(c, run, steps);
      assert false;
    } else {
      RunSize(c, run, steps);
      RunStep(c, run, steps, k - 1);
      LogStep(c, run[k - 1], steps[k - 1], run[k]);
      if p < |run[k - 1].log| {
        a := IoStep(c, run, steps, k - 1, p);
        assert run[k - 1].log[..p] == run[k].log[..p] && run[k - 1].log[..p + 1] == run[k].log[..p + 1];
      } else {
        a := k;
        assert run[k].log[..p + 1] == run[k].log;
      }
    }
  }

  lemma StartsEmpty(c: Conf, run: seq<Sys>, steps: seq<Step>)
    requires Run(c, run, steps)
    ensures run[0].log == []
  {
  }

  lemma RunSize(c: Conf, run: seq<Sys>, steps: seq<Step>)
    requires Run(c, run, steps)
    ensures |run| == |steps| + 1
  {
  }

  /** The disk of a state is what its log makes of the first disk. */
  lemma DiskOf(c: Conf, run: seq<Sys>, steps: seq<Step>, a: nat)
    requires Run(c, run, steps) && a < |run|
    ensures run[a].disk == Replay(c.disk0, run[a].log)
  {
    hide Run, Control, DoneInv, UsedInv, PendingInv, OrderInv, MemInv, PayloadInv, HeapInv, IoOk;
    RunKeepsInv(c, run, steps, a);
  }

  /** The completed request i of a state. */
  ghost predicate Completes(s: Sys, i: nat, r: Request) {
    i < |s.used| && s.used[i].ticket < |s.reqs| && r == s.reqs[s.used[i].ticket]
  }

  /** The n bytes of rb after its first 16 are on the disk from start on. */
  predicate Stored(disk: seq<byte>, start: nat, rb: seq<byte>, n: nat) {
    && 16 + n <= |rb| && (n > 0 ==> start + n <= |disk|)
    && forall p :: start <= p < start + n ==> disk[p] == rb[16 + p - start]
  }

  /** No byte outside [start, start + n) changed. */
  predicate KeptOutside(before: seq<byte>, after: seq<byte>, start: nat, n: nat) {
    forall p :: 0 <= p < |before| && !(start <= p < start + n) ==> KeptAt(before, after, p)
  }

  predicate KeptAt(before: seq<byte>, after: seq<byte>, p: nat) {
    p < |before| && p < |after| && after[p] == before[p]
  }

  // Every disk operation, complete or not

  /** How many bytes a request asks the disk for: whole sectors of its data, or of the room before its status. */
  function AskedFor(r: Request): nat {
    if WritesDisk(r.ds, r.rb) then (|r.rb| - 16) / 512 * 512
    else if |Writable(r.ds)| == 0 then 0
    else (|Writable(r.ds)| - 1) / 512 * 512
  }

  /** The file grew with zeros up to start. */
  predicate ZeroFilled(before: seq<byte>, after: seq<byte>, start: nat) {
    forall p :: |before| <= p < start && p < |after| ==> after[p] == 0
  }

  /** A write, byte by byte. */
  lemma PwriteAt(d: seq<byte>, start: nat, bs: seq<byte>, p: nat)
    ensures var d' := Pwrite(d, start, bs);
            && |d'| == (if bs == [] then |d| else Max(|d|, start + |bs|))
            && (start <= p < start + |bs| ==> p < |d'| && d'[p] == bs[p - start])
            && (p < |d| && !(start <= p < start + |bs|) ==> p < |d'| && d'[p] == d[p])
            && (|d| <= p < start && p < |d'| ==> d'[p] == 0)
  {
  }

  lemma PwriteBytes(d: seq<byte>, start: nat, rb: seq<byte>, n: nat)
    requires 16 + n <= |rb|
    ensures var d' := Pwrite(d, start, rb[16..16 + n]);
            Stored(d', start, rb, n) && KeptOutside(d, d', start, n) && ZeroFilled(d, d', start)
  {
    hide Pwrite;
    var bs := rb[16..16 + n];
    var d' := Pwrite(d, start, bs);
    PwriteAt(d, start, bs, start);
    forall p | start <= p < start + n
      ensures p < |d'| && d'[p] == rb[16 + p - start]
    {
      PwriteAt(d, start, bs, p);
    }
    forall p | 0 <= p < |d| && !(start <= p < start + n)
      ensures KeptAt(d, d', p)
    {
      PwriteAt(d, start, bs, p);
    }
    forall p | |d| <= p < start && p < |d'|
      ensures d'[p] == 0
    {
      PwriteAt(d, start, bs, p);
    }
  }

  /** What the worker carries out is what the bytes of its request ask for. */
  lemma WorkerAsks(c: Conf, s: Sys, i: nat)
    requires Inv(c, s) && i < |s.phase| && i < |s.pool.slot| && s.pool.slot[i].Some?
    ensures var task := s.pool.slot[i].value;
            && task.ticket < |s.reqs|
            && var r := s.reqs[task.ticket];
            && !r.Kind().Skip? && task.kind == r.Kind() && Count(task) == AskedFor(r) == Len(r)
            && (r.Kind().Out? ==> |r.rb| >= 16 && task.buf == r.rb[16..])
  {
    hide KindOf, Control, Storage, MemInv, PayloadInv, HeapInv, Writable, Count, ReadsDisk, WritesDisk;
    assert Control(c, s) && MemInv(c, s.mem, s.reqs, s.used, s.reaped);
    WorkerTask(c, s, i);
    var j := s.pool.slot[i].value.ticket;
    CountSame(j, s.reqs[j]);
    KindBytes(s.reqs[j].ds, s.reqs[j].rb);
    AskedIsLen(s.reqs[j]);
    MadeOf(j, s.reqs[j]);
  }

  lemma AskedIsLen(r: Request)
    requires !r.Kind().Skip?
    ensures AskedFor(r) == Len(r)
  {
    hide KindOf;
    KindBytes(r.ds, r.rb);
  }

  lemma MadeOf(j: nat, r: Request)
    ensures TaskFor(j, r).kind == r.Kind()
    ensures r.Kind().Out? ==> |r.rb| >= 16 && TaskFor(j, r).buf == r.rb[16..]
  {
  }

  /** The disk operation of request number j, of n bytes, between two states. */
  ghost predicate Operation(s: Sys, s': Sys, j: nat, r: Request, n: nat, err: bool) {
    && j < |s.reqs| && r == s.reqs[j] && |s'.log| == |s.log| + 1 && s'.log[|s.log|].ticket == j
    && |s'.log[|s.log|].data| == n <= AskedFor(r) && s'.log[|s.log|].full == (n == AskedFor(r) && !err)
    && (ReadsDisk(r.ds, r.rb) || WritesDisk(r.ds, r.rb))
    && (ReadsDisk(r.ds, r.rb) ==> s'.disk == s.disk)
    && (WritesDisk(r.ds, r.rb) ==> forall start :: StartsAt(r.rb, start) ==> WentTo(s.disk, s'.disk, start, r.rb, n))
  }

  /** n data bytes of the request are on the disk from start on, and nothing else changed. */
  predicate WentTo(before: seq<byte>, after: seq<byte>, start: nat, rb: seq<byte>, n: nat) {
    Stored(after, start, rb, n) && KeptOutside(before, after, start, n) && ZeroFilled(before, after, start)
  }

  /**
   Every disk operation of every run, short ones and failed ones included: a read
   leaves the disk alone; a write that moved n bytes put the first n data bytes of
   its request at 512 times its sector number and changed nothing else; it counts
   as complete exactly when n is what the request asked for and there was no error.
   */
  lemma DiskStep(c: Conf, run: seq<Sys>, steps: seq<Step>, a: nat) returns (j: nat, r: Request)
    requires Run(c, run, steps) && a < |steps| && steps[a].DoIo?
    ensures |run| == |steps| + 1 && Operation(run[a], run[a + 1], j, r, steps[a].n, steps[a].err)
  {
    hide Run, Next, Inv, Operation;
    RunSize(c, run, steps);
    RunStep(c, run, steps, a);
    RunKeepsInv(c, run, steps, a);
    j, r := OneOperation(c, run[a], steps[a], run[a + 1]);
  }

  lemma OneOperation(c: Conf, s: Sys, step: Step, s': Sys) returns (j: nat, r: Request)
    requires Inv(c, s) && step.DoIo? && Next(c, s, step, s')
    ensures Operation(s, s', j, r, step.n, step.err)
  {
    hide Inv, KindOf, AskedFor, ReadsDisk, WritesDisk, StartsAt, WentTo, Count, Len, Pread, Pwrite, PerformAll, Offset;
    j := s.pool.slot[step.i].value.ticket;
    WorkerAsks(c, s, step.i);
    r := s.reqs[j];
    KindBytes(r.ds, r.rb);
    forall start | WritesDisk(r.ds, r.rb) && StartsAt(r.rb, start)
      ensures WentTo(s.disk, s'.disk, start, r.rb, step.n)
    {
      StartIsOffset(r, start);
      Went(s.disk, start, r.rb, step.n);
      assert r.rb[16..][..step.n] == r.rb[16..16 + step.n];
    }
  }

  lemma Went(d: seq<byte>, start: nat, rb: seq<byte>, n: nat)
    requires 16 + n <= |rb|
    ensures WentTo(d, Pwrite(d, start, rb[16..16 + n]), start, rb, n)
  {
    PwriteBytes(d, start, rb, n);
  }

  lemma {:induction false} RequestsStay(c: Conf, run: seq<Sys>, steps: seq<Step>, a: nat, k: nat, j: nat)
    requires Run(c, run, steps) && a <= k < |run| && j < |run[a].reqs|
    ensures j < |run[k].reqs| && run[k].reqs[j] == run[a].reqs[j]
    decreases k
  {
    hide Run, Next;
    if a < k {
      RunSize(c, run, steps);
      RequestsStay(c, run, steps, a, k - 1, j);
      RunStep(c, run, steps, k - 1);
      RequestsStep(c, run[k - 1], steps[k - 1], run[k]);
    }
  }

  lemma RequestsStep(c: Conf, s: Sys, step: Step, s': Sys)
    requires Next(c, s, step, s')
    ensures s.reqs <= s'.reqs
  {
    hide Pops, KindOf, MakeTask, Answer, EndMem, PerformAll, Perform, IsChain, Pread, Apply, Count, LeavesAlone;
  }

  /**
   The status of a request is OK exactly when it reached the disk and its
   operation moved every byte it asked for without an error.
   */
  lemma OkIffComplete(c: Conf, run: seq<Sys>, steps: seq<Step>, k: nat, i: nat, r: Request) returns (a: nat)
    requires Run(c, run, steps) && k < |run| && Completes(run[k], i, r)
    ensures run[k].used[i].at.None? ==> a == 0 && !run[k].used[i].ok
    ensures run[k].used[i].at.Some? ==>
              && 0 < a <= k && a <= |steps| && steps[a - 1].DoIo?
              && Operation(run[a - 1], run[a], run[k].used[i].ticket, r, steps[a - 1].n, steps[a - 1].err)
              && run[k].used[i].at.value < |run[k].log| && run[a - 1].log == run[k].log[..run[k].used[i].at.value]
              && run[a].log == run[k].log[..run[k].used[i].at.value + 1]
              && (run[k].used[i].ok <==> steps[a - 1].n == AskedFor(r) && !steps[a - 1].err)
  {
    hide Run, Next, Inv, AskedFor, ReadsDisk, WritesDisk, WentTo, StartsAt;
    RunKeepsInv(c, run, steps, k);
    var s := run[k];
    EntryLogged(c, s, i);
    a := 0;
    if s.used[i].at.Some? {
      var p := s.used[i].at.value;
      a := IoStep(c, run, steps, k, p);
      var j, x := DiskStep(c, run, steps, a - 1);
      assert run[a].log[p] == s.log[p];
      RequestsStay(c, run, steps, a - 1, k, j);
    }
  }

  lemma EntryLogged(c: Conf, s: Sys, i: nat)
    requires Inv(c, s) && i < |s.used|
    ensures s.used[i].at.None? ==> !s.used[i].ok
    ensures s.used[i].at.Some? ==>
              && s.used[i].at.value < |s.log| && s.log[s.used[i].at.value].ticket == s.used[i].ticket
              && s.used[i].ok == s.log[s.used[i].at.value].full
  {
    hide Control, LogInv, DoneInv, PendingInv, OrderInv, MemInv, PayloadInv, HeapInv, KindOf, TaskFor, Answer;
    assert EntryOk(s.used[i], s.log, s.reqs, s.popped);
  }

  /**
   A write completed with OK: at its step the bytes of the request after its
   header, as far as they are whole sectors, went to the disk from 512 times its
   sector number on, and no other byte of the disk changed.
   */
  lemma WriteReachesDisk(c: Conf, run: seq<Sys>, steps: seq<Step>, k: nat, i: nat, w: Request, start: nat)
    returns (a: nat)
    requires Run(c, run, steps) && k < |run| && Completes(run[k], i, w) && run[k].used[i].ok
    requires WritesDisk(w.ds, w.rb) && StartsAt(w.rb, start)
    ensures 0 < a <= k && a <= |steps| && steps[a - 1].DoIo?
    ensures WentTo(run[a - 1].disk, run[a].disk, start, w.rb, (|w.rb| - 16) / 512 * 512)
  {
    hide Run, WentTo, StartsAt, KindOf, Next;
    a := OkIffComplete(c, run, steps, k, i, w);
  }

  /**
   Every completed read, short and refused ones included: n bytes of the disk from
   512 times its sector number on, as the disk was at its step, then zeros, then
   the status. A read that is OK got all the whole sectors that fit before the
   status byte; a refused one got none.
   */
  lemma ReadComesFromDisk(c: Conf, run: seq<Sys>, steps: seq<Step>, k: nat, i: nat, r: Request, start: nat)
    returns (a: nat, n: nat)
    requires Run(c, run, steps) && k < |run| && Completes(run[k], i, r)
    requires ReadsDisk(r.ds, r.rb) && StartsAt(r.rb, start)
    ensures |Writable(r.ds)| >= 1 && a < |run|
    ensures run[k].used[i].at.Some? ==> 0 < a <= k && a <= |steps| && steps[a - 1].DoIo? && n == steps[a - 1].n
    ensures run[k].used[i].at.None? ==> n == 0 && !run[k].used[i].ok
    ensures run[k].used[i].ok ==> n == (|Writable(r.ds)| - 1) / 512 * 512
    ensures DeliveredFrom(run[a].disk, start, n, |Writable(r.ds)|, if run[k].used[i].ok then 0 else 1,
                          run[k].used[i].wrote)
  {
    hide Run, Next, Inv, KindOf, StartsAt, ReadsDisk, WritesDisk, DeliveredFrom, Pread, Writable, Replay;
    RunKeepsInv(c, run, steps, k);
    var s := run[k];
    KindBytes(r.ds, r.rb);
    StartIsOffset(r, start);
    EntryAnswer(c, s, i);
    a := OkIffComplete(c, run, steps, k, i, r);
    var status: byte := if s.used[i].ok then 0 else 1;
    if s.used[i].at.Some? {
      n := steps[a - 1].n;
      DiskOf(c, run, steps, a - 1);
      assert run[a].log[s.used[i].at.value] == s.log[s.used[i].at.value];
      Delivered(run[a].disk, start, n, s.log[s.used[i].at.value].data, |Writable(r.ds)|, status, s.used[i].wrote);
    } else {
      n := 0;
      assert Pread(run[a].disk, start, 0) == [] by { ReadsNothing(run[a].disk, start); }
      Delivered(run[a].disk, start, 0, [], |Writable(r.ds)|, status, s.used[i].wrote);
    }
  }

  /** wrote has size bytes: n bytes of the disk from start on, zeros, and the status. */
  predicate DeliveredFrom(disk: seq<byte>, start: nat, n: nat, size: nat, status: byte, wrote: seq<byte>) {
    && |wrote| == size > n && wrote[size - 1] == status
    && (n > 0 ==> start + n <= |disk|)
    && (forall x :: 0 <= x < n ==> wrote[x] == disk[start + x])
    && (forall x :: n <= x < size - 1 ==> wrote[x] == 0)
  }

  lemma Delivered(disk: seq<byte>, start: nat, n: nat, data: seq<byte>, size: nat, status: byte, wrote: seq<byte>)
    requires data == Pread(disk, start, n) && |data| == n < size && wrote == data + Zeros(size - 1 - n) + [status]
    ensures DeliveredFrom(disk, start, n, size, status, wrote)
  {
  }

  /** The answer of a read, in terms of what its operation brought. */
  lemma EntryAnswer(c: Conf, s: Sys, i: nat)
    requires Inv(c, s) && i < |s.used| && s.used[i].ticket < |s.reqs| && s.reqs[s.used[i].ticket].Kind().In?
    ensures var r, e := s.reqs[s.used[i].ticket], s.used[i];
            && (e.at.Some? ==> e.at.value < |s.log|)
            && var data := if e.at.Some? then s.log[e.at.value].data else [];
            && |data| < |Writable(r.ds)|
            && (e.at.Some? ==> data == Pread(Replay(c.disk0, s.log[..e.at.value]), Off(r), |data|))
            && e.wrote == data + Zeros(|Writable(r.ds)| - 1 - |data|) + [if e.ok then 0 else 1]
  {
    hide Control, DoneInv, PendingInv, OrderInv, PayloadInv, HeapInv, KindOf, Writable, Holds, Landed, Foot, Replay,
        Pread;
    var r, e := s.reqs[s.used[i].ticket], s.used[i];
    assert EntryOk(e, s.log, s.reqs, s.popped);
    assert WellBuilt(c, r);
    if e.at.Some? {
      assert IoOk(c.disk0, s.log, s.reqs, e.at.value);
    }
  }

  // Status

  /**
   Every completion, whether the disk was reached or the pool refused it: as many
   bytes as its used length says, one for a write and all of the writable part
   for a read; the last is 0 if the operation was complete and 1 if it was not,
   and it is in guest memory until the driver takes the request back.
   */
  lemma StatusByte(c: Conf, run: seq<Sys>, steps: seq<Step>, k: nat, i: nat, r: Request)
    requires Run(c, run, steps) && k < |run| && Completes(run[k], i, r)
    ensures ReadsDisk(r.ds, r.rb) || WritesDisk(r.ds, r.rb)
    ensures var s := run[k];
            var e := s.used[i];
            && e.len == (if WritesDisk(r.ds, r.rb) then 1 else |Writable(r.ds)|) && e.head == r.head
            && |e.wrote| == e.len > 0 && e.wrote[e.len - 1] == (if e.ok then 0 else 1)
            && e.len <= |Writable(r.ds)|
            && (s.reaped <= i ==>
                  Writable(r.ds)[e.len - 1] < |s.mem| && s.mem[Writable(r.ds)[e.len - 1]] == if e.ok then 0 else 1)
  {
    hide Run, Inv, KindOf, Writable, ReadsDisk, WritesDisk;
    RunKeepsInv(c, run, steps, k);
    var s := run[k];
    KindBytes(r.ds, r.rb);
    EntryStatus(c, s, i);
    if s.reaped <= i {
      AnswerAt(c, s, i);
    }
  }

  lemma EntryStatus(c: Conf, s: Sys, i: nat)
    requires Inv(c, s) && i < |s.used| && s.used[i].ticket < |s.reqs|
    ensures var r, e := s.reqs[s.used[i].ticket], s.used[i];
            && !r.Kind().Skip? && e.head == r.head
            && e.len == (if r.Kind().Out? then 1 else |Writable(r.ds)|)
            && |e.wrote| == e.len > 0 && e.len <= |Writable(r.ds)| && e.wrote[e.len - 1] == (if e.ok then 0 else 1)
  {
    hide Control, DoneInv, PendingInv, OrderInv, PayloadInv, HeapInv, KindOf, Writable, Holds, Landed, Foot, Replay,
        Pread;
    var r, e := s.reqs[s.used[i].ticket], s.used[i];
    assert EntryOk(e, s.log, s.reqs, s.popped);
    assert WellBuilt(c, r);
    if e.at.Some? {
      assert IoOk(c.disk0, s.log, s.reqs, e.at.value);
    }
  }

  lemma AnswerAt(c: Conf, s: Sys, i: nat)
    requires Inv(c, s) && s.reaped <= i < |s.used| && s.used[i].ticket < |s.reqs|
    requires var r, e := s.reqs[s.used[i].ticket], s.used[i]; |e.wrote| == e.len > 0 && e.len <= |Writable(r.ds)|
    ensures var r, e := s.reqs[s.used[i].ticket], s.used[i];
            Writable(r.ds)[e.len - 1] < |s.mem| && s.mem[Writable(r.ds)[e.len - 1]] == e.wrote[e.len - 1]
  {
    hide Control, Storage, PayloadInv, HeapInv, WellBuilt, Holds, Foot, Writable;
    var r, e := s.reqs[s.used[i].ticket], s.used[i];
    assert Landed(s.mem, r, e.wrote);
    var xs := Window(Writable(r.ds), 0, |e.wrote|);
    assert xs[e.len - 1] == Writable(r.ds)[e.len - 1] && Gather(s.mem, xs)[e.len - 1] == s.mem[xs[e.len - 1]];
  }

  // Which requests are served

  /** At rest, the completed requests are exactly those whose bytes ask for a read or a write. */
  lemma ServedIff(c: Conf, run: seq<Sys>, steps: seq<Step>, k: nat, j: nat)
    requires Run(c, run, steps) && k < |run| && Quiescent(run[k]) && j < |run[k].reqs|
    ensures var s, r := run[k], run[k].reqs[j];
            (exists i :: 0 <= i < |s.used| && s.used[i].ticket == j)
                <==> ReadsDisk(r.ds, r.rb) || WritesDisk(r.ds, r.rb)
  {
    hide Run, KindOf, ReadsDisk, WritesDisk, Quiescent, InFlight, Upto, Tickets, Hand;
    var s, r := run[k], run[k].reqs[j];
    KindBytes(r.ds, r.rb);
    Conservation(c, run, steps, k);
    if !r.Kind().Skip? {
      var i := QuietMeansCompleted(c, run, steps, k, j);
    }
  }
}
