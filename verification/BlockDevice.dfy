/**
 The block device's own code for the two ends of a request, against the
 functions the step machine is built from: what is taken from guest memory when
 a request is popped (MakeTask), and what is put there when it is finished
 (EndMem of the Answer, and one used element).
 */
module BlockDevice {
  import opened Words
  import opened GuestMemory
  import opened Chains
  import opened QueueCopy
  import opened Rings
  import opened Registers
  import opened VirtioDevice
  import BM = BlockModel

  /** What becomes of a popped request: ignored (its argument block leaked or not), given to the disk, or abort. */
  datatype Taken =
    | Ignored(leak: bool)
    | Submitted(write: bool, sector: nat, buf: array<byte>, count: nat, size: nat)
    | Aborted

  /** The task that a submission stands for in the step machine. */
  ghost function TaskOf(ticket: nat, head: nat, write: bool, sector: nat, bytes: seq<byte>, size: nat): BM.Task {
    BM.Task(ticket, head, if write then BM.Out(sector) else BM.In(sector), bytes, size)
  }

  /** A chain of the right shape whose readable bytes are rb. */
  ghost predicate ChainIs(m: seq<byte>, t: nat, head: nat, ds: seq<Desc>, rb: seq<byte>) {
    && GoodWalk(m, t, head, ds, false) && WellShaped(ds)
    && InMem(|m|, Readable(ds)) && Gather(m, Readable(ds)) == rb
  }

  lemma CopiedPart(m: seq<byte>, xs: seq<nat>, o: nat, n: nat, b: seq<byte>)
    requires InMem(|m|, xs) && o + n <= |xs| && |b| == n
    ensures InMem(|m|, Window(xs, o, n)) && FlatWrite(b, 0, Gather(m, Window(xs, o, n))) == Gather(m, xs)[o..o + n]
  {
    var ys := Window(xs, o, n);
    assert |ys| == n;
    assert FlatWrite(b, 0, Gather(m, ys)) == Gather(m, ys);
  }

  /** A copy out of the chain: a part of its readable bytes, or a failure when it is too short. */
  method ReadPart(dev: Device, qi: nat, head: nat, buf: array<byte>, o: nat, ghost ds: seq<Desc>, ghost rb: seq<byte>)
    returns (ok: bool)
    requires dev.Valid() && qi < MAX_QUEUE && buf != dev.mem && 0 < buf.Length < U31
    requires ChainIs(dev.mem[..], dev.queue[qi].desc, head, ds, rb)
    modifies dev.mem, buf
    ensures dev.mem[..] == old(dev.mem[..])
    ensures ok <==> o + buf.Length <= |rb|
    ensures ok ==> buf[..] == rb[o..o + buf.Length]
  {
    hide GoodWalk, FlatWrite, Gather, Readable, WellShaped;
    ghost var b := buf[..];
    var ret, _ := MemcpyToFromQueue(dev.mem, dev.queue[qi].desc, head, buf, o, buf.Length, false, ds);
    ok := ret == 0;
    if ok {
      CopiedPart(dev.mem[..], Readable(ds), o, buf.Length, b);
    }
  }

  lemma HeaderFields(rb: seq<byte>)
    requires |rb| >= BM.HEADER
    ensures Get32(rb[0..BM.HEADER], 0) == Get32(rb, 0) && Get64(rb[0..BM.HEADER], 8) == Get64(rb, 8)
  {
  }

  /** virtio_block_recv_request, up to the call of read_async or write_async. */
  method RecvRequest(dev: Device, qi: nat, head: nat, readSize: nat, writeSize: nat,
                     ghost ticket: nat, ghost ds: seq<Desc>, ghost rb: seq<byte>)
    returns (r: Taken)
    requires dev.Valid() && qi < MAX_QUEUE
    requires ChainIs(dev.mem[..], dev.queue[qi].desc, head, ds, rb)
    requires readSize == |rb| < U31 && writeSize == |Writable(ds)| < U31
    modifies dev.mem
    ensures dev.mem[..] == old(dev.mem[..])
    ensures r.Ignored? <==> !BM.ReadsDisk(ds, rb) && !BM.WritesDisk(ds, rb)
    ensures r.Ignored? ==> (r.leak <==> |rb| >= 16)
    ensures r.Aborted? <==> BM.WritesDisk(ds, rb) && (writeSize < 1 || readSize <= 16)
    ensures r.Submitted? && !r.write ==>
              && BM.ReadsDisk(ds, rb) && r.sector == BM.SectorNumber(rb) && r.size == writeSize
              && r.buf.Length == writeSize && (forall i :: 0 <= i < writeSize ==> r.buf[i] == 0)
              && r.count == if writeSize == 0 then 0 else (writeSize - 1) / 512 * 512
    ensures r.Submitted? && r.write ==>
              && BM.WritesDisk(ds, rb) && r.sector == BM.SectorNumber(rb) && r.size == 1
              && r.buf[..] == rb[16..] && r.count == (|rb| - 16) / 512 * 512
    ensures r.Submitted? ==>
              && fresh(r.buf)
              && TaskOf(ticket, head, r.write, r.sector, r.buf[..], r.size) == BM.MakeTask(ticket, head, ds, rb)
              && r.count == BM.Count(BM.MakeTask(ticket, head, ds, rb))
  {
    hide GoodWalk, ChainIs, Readable, Writable, Get32, Get64, WellShaped;
    ShapeOf(dev.mem[..], dev.queue[qi].desc, head, ds, rb);
    BM.KindBytes(ds, rb);
    var h := new byte[BM.HEADER](_ => 0);
    var ok := ReadPart(dev, qi, head, h, 0, ds, rb);
    if !ok {
      return Ignored(false);
    }
    HeaderFields(rb);
    var sector := Get64(h[..], 8);
    if Get32(h[..], 0) == 0 {
      var buf := new byte[writeSize](_ => 0);
      assert buf[..] == BM.Zeros(writeSize);
      var n := if writeSize == 0 then 0 else (writeSize - 1) / BM.SECTOR;
      return Submitted(false, sector, buf, n * BM.SECTOR, writeSize);
    } else if Get32(h[..], 0) == 1 {
      if writeSize < 1 || readSize <= BM.HEADER {
        return Aborted;
      }
      var buf := new byte[readSize - BM.HEADER](_ => 0);
      var _ := ReadPart(dev, qi, head, buf, BM.HEADER, ds, rb);
      assert buf[..] == rb[BM.HEADER..];
      return Submitted(true, sector, buf, buf.Length / BM.SECTOR * BM.SECTOR, 1);
    } else {
      return Ignored(true);
    }
  }

  lemma ShapeOf(m: seq<byte>, t: nat, head: nat, ds: seq<Desc>, rb: seq<byte>)
    requires ChainIs(m, t, head, ds, rb)
    ensures WellShaped(ds)
  {
  }

  // The end of a request

  /**
   Where a request can be answered: its writable part lies in memory, clear of its
   table entries and of both rings.
   */
  ghost predicate CanAnswer(m: seq<byte>, q: QueueState, head: nat, ds: seq<Desc>) {
    && GoodWalk(m, q.desc, head, ds, true) && InMem(|m|, Writable(ds))
    && UsedLayout(|m|, q) && AvailLayout(|m|, q) && AvailBytes(q) !! UsedBytes(q)
    && AddrSet(Writable(ds)) !! UsedBytes(q) && AddrSet(Writable(ds)) !! AvailBytes(q)
  }

  /** The answer leaves both rings as they are. */
  lemma AnswerKeepsRings(m: seq<byte>, q: QueueState, head: nat, ds: seq<Desc>, bytes: seq<byte>, hist: seq<UsedElem>)
    requires CanAnswer(m, q, head, ds) && UsedRing(m, q, hist, q.num)
    ensures var m1 := BM.EndMem(m, ds, bytes);
            UsedRing(m1, q, hist, q.num) && AvailLayout(|m1|, q) && AvailFlags(m1, q) == AvailFlags(m, q)
  {
    hide GoodWalk, UsedRing, UsedBytes, AvailBytes, Writable, AvailFlags, AvailIdx, AvailHead;
    var xs := Window(Writable(ds), 0, |bytes|);
    var m1 := BM.EndMem(m, ds, bytes);
    assert AddrSet(xs) <= AddrSet(Writable(ds));
    ScatterOnlyIn(m, xs, bytes[..|xs|], AddrSet(Writable(ds)));
    OnlyInAgrees(m, m1, AddrSet(Writable(ds)), UsedBytes(q));
    OnlyInAgrees(m, m1, AddrSet(Writable(ds)), AvailBytes(q));
    UsedRingKept(m, m1, q, hist, q.num);
    AvailKept(m, m1, q, 0);
  }

  /** The answer into the chain. */
  method PutAnswer(dev: Device, qi: nat, head: nat, buf: array<byte>, ghost ds: seq<Desc>)
    requires dev.Valid() && qi < MAX_QUEUE && buf != dev.mem && buf.Length < U31
    requires CanAnswer(dev.mem[..], dev.queue[qi], head, ds)
    modifies dev`trace, dev.mem, buf
    ensures buf[..] == old(buf[..]) && dev.trace == old(dev.trace) + [dev.mem[..]]
    ensures InMem(dev.mem.Length, Writable(ds)) && dev.mem[..] == BM.EndMem(old(dev.mem[..]), ds, buf[..])
  {
    hide GoodWalk, UsedBytes, AvailBytes, Writable, Scatter;
    var _, _ := MemcpyToFromQueue(dev.mem, dev.queue[qi].desc, head, buf, 0, buf.Length, true, ds);
    dev.trace := dev.trace + [dev.mem[..]];
  }

  /** The answer goes where the writable part begins, before the index covers it. */
  ghost predicate AnsweredFirst(m: seq<byte>, q: QueueState, ds: seq<Desc>, bytes: seq<byte>, hist: seq<UsedElem>,
                                e: UsedElem)
  {
    var xs := Window(Writable(ds), 0, |bytes|);
    PayloadBeforeIndex(m, q, hist, e, xs, bytes[..|xs|])
  }

  lemma AnswerComesFirst(m: seq<byte>, q: QueueState, head: nat, ds: seq<Desc>, bytes: seq<byte>,
                         hist: seq<UsedElem>, e: UsedElem)
    requires CanAnswer(m, q, head, ds) && UsedRing(m, q, hist, q.num)
    ensures AnsweredFirst(m, q, ds, bytes, hist, e)
  {
    hide GoodWalk, UsedRing, UsedBytes, AvailBytes, Writable, PayloadBeforeIndex;
    var xs := Window(Writable(ds), 0, |bytes|);
    assert AddrSet(xs) <= AddrSet(Writable(ds));
    PayloadFirst(m, q, hist, e, xs, bytes[..|xs|]);
  }

  /** The guest finds the bytes in the writable part of the chain, if its segments do not overlap. */
  ghost predicate GuestFinds(m: seq<byte>, ds: seq<Desc>, bytes: seq<byte>) {
    Distinct(Writable(ds)) && |bytes| <= |Writable(ds)| ==>
      forall i :: 0 <= i < |bytes| ==> Writable(ds)[i] < |m| && m[Writable(ds)[i]] == bytes[i]
  }

  lemma AnswerFound(m: seq<byte>, q: QueueState, ds: seq<Desc>, bytes: seq<byte>, k: nat, e: UsedElem)
    requires InMem(|m|, Writable(ds)) && UsedLayout(|m|, q) && AddrSet(Writable(ds)) !! UsedBytes(q)
    ensures q.num > 0 && GuestFinds(Published(BM.EndMem(m, ds, bytes), q, k, e), ds, bytes)
  {
    hide UsedBytes, Writable, Published, Scatter;
    var xs := Window(Writable(ds), 0, |bytes|);
    var m1 := BM.EndMem(m, ds, bytes);
    assert AddrSet(xs) <= AddrSet(Writable(ds));
    PublishedKeepsPayload(m1, q, k, e, xs);
    if Distinct(Writable(ds)) && |bytes| <= |Writable(ds)| {
      assert bytes[..|xs|] == bytes && Distinct(xs);
      ScatterGather(m, xs, bytes);
      var m2 := Published(m1, q, k, e);
      forall i | 0 <= i < |bytes|
        ensures Writable(ds)[i] < |m2| && m2[Writable(ds)[i]] == bytes[i]
      {
        assert xs[i] == Writable(ds)[i] && Gather(m2, xs)[i] == m2[xs[i]];
      }
    }
  }

  /** The answer, byte by byte: the data, zeros, and the status last; of a write the status alone. */
  lemma AnswerBytes(task: BM.Task, data: seq<byte>, ok: bool)
    requires !task.kind.Skip? && (task.kind.Out? ==> task.size == 1) && (task.kind.In? ==> |data| < task.size)
    ensures var status: byte := if ok then 0 else 1;
            BM.Answer(task, data, ok)
            == if task.kind.Out? then [status] else (data + BM.Zeros(task.size - |data|))[..task.size - 1] + [status]
  {
  }

  /** What finishing a request with the given answer does to the device, seen from the state before. */
  ghost predicate Finished(m: seq<byte>, q: QueueState, head: nat, ds: seq<Desc>, bytes: seq<byte>, hist: seq<UsedElem>,
                           m': seq<byte>, trace: seq<seq<byte>>)
  {
    var e := UsedElem(head, |bytes|);
    && q.num > 0 && InMem(|m|, Writable(ds))
    && m' == Published(BM.EndMem(m, ds, bytes), q, |hist|, e)
    && trace == Stages(BM.EndMem(m, ds, bytes), q, |hist|, e)
    && AnsweredFirst(m, q, ds, bytes, hist, e)
    && UsedRing(m', q, hist + [e], q.num)
    && GuestFinds(m', ds, bytes)
  }

  /** The answer into the chain, then the used element. */
  method Finish(dev: Device, qi: nat, head: nat, buf: array<byte>, ghost ds: seq<Desc>, ghost hist: seq<UsedElem>)
    requires dev.Valid() && qi < MAX_QUEUE && buf != dev.mem && buf.Length < U31
    requires CanAnswer(dev.mem[..], dev.queue[qi], head, ds)
    requires UsedRing(dev.mem[..], dev.queue[qi], hist, dev.queue[qi].num)
    modifies dev`intStatus, dev`log, dev`trace, dev.mem, buf
    ensures dev.Valid() && buf[..] == old(buf[..]) && old(dev.trace) <= dev.trace
    ensures Finished(old(dev.mem[..]), dev.queue[qi], head, ds, buf[..], hist, dev.mem[..],
                     dev.trace[|old(dev.trace)|..])
    ensures dev.log == old(dev.log) + [Completed(old(dev.mem[dev.queue[qi].avail]) % 2 == 1)]
    ensures dev.intStatus == if old(dev.mem[dev.queue[qi].avail]) % 2 == 0 then 1 else old(dev.intStatus)
  {
    hide GoodWalk, UsedRing, UsedBytes, AvailBytes, Writable, AvailFlags, IsPow2, QueueHolds, WordsOnly, Pending;
    hide AnsweredFirst, GuestFinds, Published, StoreId, StoreLen, Selected, LastGlobal;
    ghost var m, q, e, trace := dev.mem[..], dev.queue[qi], UsedElem(head, buf.Length), dev.trace;
    AnswerKeepsRings(m, q, head, ds, buf[..], hist);
    AnswerComesFirst(m, q, head, ds, buf[..], hist, e);
    AnswerFound(m, q, ds, buf[..], |hist|, e);
    SuppressBit(m, q);
    PutAnswer(dev, qi, head, buf, ds);
    SuppressBit(dev.mem[..], q);
    ghost var m1 := dev.mem[..];
    dev.ConsumeDesc(qi, head, buf.Length, hist);
    assert dev.trace[|trace|..] == [m1] + Stages(m1, q, |hist|, e)[1..];
  }

  /**
   virtio_block_req_end. For a read the buffer holds what the disk gave, then
   zeros; ok is false when the disk operation failed or was never started. The
   guest finds the status in the last byte of the answer, 0 for ok and 1 for an
   error, and before it, for a read, the buffer; in every state on the way the
   index covers the completion only once the answer is there.
   */
  method ReqEnd(dev: Device, qi: nat, write: bool, head: nat, buf: array<byte>, ok: bool,
                ghost task: BM.Task, ghost data: seq<byte>, ghost ds: seq<Desc>, ghost hist: seq<UsedElem>)
    requires dev.Valid() && qi < MAX_QUEUE && buf != dev.mem
    requires CanAnswer(dev.mem[..], dev.queue[qi], head, ds)
    requires UsedRing(dev.mem[..], dev.queue[qi], hist, dev.queue[qi].num)
    requires !task.kind.Skip? && task.kind.Out? == write && task.head == head
    requires write ==> task.size == 1
    requires !write ==> |data| < task.size == buf.Length < U31 && buf[..] == data + BM.Zeros(task.size - |data|)
    modifies dev`intStatus, dev`log, dev`trace, dev.mem, buf
    ensures dev.Valid() && old(dev.trace) <= dev.trace
    ensures var status: byte := if ok then 0 else 1;
            var bytes := if write then [status] else old(buf[..])[..buf.Length - 1] + [status];
            && Finished(old(dev.mem[..]), dev.queue[qi], head, ds, bytes, hist, dev.mem[..],
                        dev.trace[|old(dev.trace)|..])
            && bytes == BM.Answer(task, data, ok)
    ensures dev.log == old(dev.log) + [Completed(old(dev.mem[dev.queue[qi].avail]) % 2 == 1)]
    ensures dev.intStatus == if old(dev.mem[dev.queue[qi].avail]) % 2 == 0 then 1 else old(dev.intStatus)
  {
    hide UsedRing, CanAnswer, Finished, IsPow2, QueueHolds, WordsOnly, Pending, Selected, LastGlobal;
    var status: byte := if ok then 0 else 1;
    AnswerBytes(task, data, ok);
    if write {
      var buf1 := new byte[1](_ => status);
      assert buf1[..] == [status];
      Finish(dev, qi, head, buf1, ds, hist);
    } else {
      ghost var was := buf[..];
      buf[buf.Length - 1] := status;
      assert buf[..] == was[..buf.Length - 1] + [status];
      Finish(dev, qi, head, buf, ds, hist);
    }
  }

  /** Spelled out: the last byte of the answer in guest memory, and the bytes before it. */
  lemma StatusInMemory(m: seq<byte>, q: QueueState, head: nat, ds: seq<Desc>, body: seq<byte>, status: byte,
                       hist: seq<UsedElem>, m': seq<byte>, trace: seq<seq<byte>>)
    requires Finished(m, q, head, ds, body + [status], hist, m', trace)
    requires Distinct(Writable(ds)) && |body| + 1 <= |Writable(ds)|
    ensures Writable(ds)[|body|] < |m'| && m'[Writable(ds)[|body|]] == status
    ensures forall i :: 0 <= i < |body| ==> Writable(ds)[i] < |m'| && m'[Writable(ds)[i]] == body[i]
  {
    hide Published, AnsweredFirst, UsedRing, Writable;
    var bytes := body + [status];
    assert bytes[|body|] == status;
    assert forall i :: 0 <= i < |body| ==> bytes[i] == body[i];
  }

  // The machine's requests are within what the code asks for

  lemma {:induction false} EntriesClear(t: nat, idx: nat, ds: seq<Desc>, xs: seq<nat>)
    requires Entries(t, idx, ds) !! AddrSet(xs)
    ensures ClearOf(t, idx, ds, xs)
    decreases |ds|
  {
    if ds != [] {
      EntriesClear(t, ds[0].next, ds[1..], xs);
      forall a | a in xs
        ensures a < EntryAddr(t, idx) || EntryAddr(t, idx) + DESC_SIZE <= a
      {
        assert a in AddrSet(xs);
        NotInSpan(EntryAddr(t, idx), DESC_SIZE, a);
      }
    }
  }

  /**
   Whatever the driver of the step machine publishes, the code can take and answer,
   at any chain length up to 1024.
   */
  lemma RequestFits(c: BM.Conf, m: seq<byte>, r: BM.Request)
    requires |m| == c.size && BM.WellBuilt(c, r) && BM.Holds(c, m, r)
    ensures WellShaped(r.ds) ==> ChainIs(m, c.table, r.head, r.ds, r.rb)
    ensures GoodWalk(m, c.table, r.head, r.ds, true) && InMem(|m|, Writable(r.ds))
  {
    hide IsChain, Gather;
    EntriesClear(c.table, r.head, r.ds, Writable(r.ds));
    GoodViewInMem(m, c.table, r.head, r.ds, true);
  }
}
