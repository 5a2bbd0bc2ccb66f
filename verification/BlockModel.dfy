/**
 The block request lifecycle as a step machine. The actors are the guest
 driver, the threads that notify the queue (vCPU and ioeventfd poll thread) and
 the pool workers; every step is what one of them does between two points at
 which the others may run.

 Fields that only record history (the publication order, the disk log, the
 completions) are read by no device step's guard.
 */
module BlockModel {
  import opened Words
  import opened GuestMemory
  import opened Chains
  import opened QueueCopy
  import opened PoolSpec

  const SECTOR: nat := 512
  const HEADER: nat := 16

  // Requests

  datatype Kind = In(sector: nat) | Out(sector: nat) | Skip(leak: bool)

  /** How the device reads a chain: its shape, then the header at its start. */
  function KindOf(ds: seq<Desc>, rb: seq<byte>): Kind {
    if !WellShaped(ds) || |rb| < HEADER then Skip(false)
    else if Get32(rb, 0) == 0 then In(Get64(rb, 8))
    else if Get32(rb, 0) == 1 then Out(Get64(rb, 8))
    else Skip(true)
  }

  /** Bytes 8 to 15 of a header, little endian. */
  function SectorNumber(rb: seq<byte>): nat
    requires |rb| >= 16
  {
    rb[8] as int + 0x100 * rb[9] as int + 0x1_0000 * rb[10] as int + 0x100_0000 * rb[11] as int
    + 0x1_0000_0000 * rb[12] as int + 0x100_0000_0000 * rb[13] as int + 0x1_0000_0000_0000 * rb[14] as int
    + 0x100_0000_0000_0000 * rb[15] as int
  }

  /** A request to read: the right shape, and a header whose first four bytes are 0, little endian. */
  predicate ReadsDisk(ds: seq<Desc>, rb: seq<byte>) {
    WellShaped(ds) && |rb| >= 16 && rb[0] == 0 && rb[1] == 0 && rb[2] == 0 && rb[3] == 0
  }

  /** A request to write: the first four bytes are 1, little endian. */
  predicate WritesDisk(ds: seq<Desc>, rb: seq<byte>) {
    WellShaped(ds) && |rb| >= 16 && rb[0] == 1 && rb[1] == 0 && rb[2] == 0 && rb[3] == 0
  }

  /** The kind of a request, from its bytes. */
  lemma KindBytes(ds: seq<Desc>, rb: seq<byte>)
    ensures KindOf(ds, rb).In? <==> ReadsDisk(ds, rb)
    ensures KindOf(ds, rb).Out? <==> WritesDisk(ds, rb)
    ensures ReadsDisk(ds, rb) || WritesDisk(ds, rb) ==> KindOf(ds, rb).sector == SectorNumber(rb)
    ensures KindOf(ds, rb).Skip? ==> (KindOf(ds, rb).leak <==> WellShaped(ds) && |rb| >= 16)
  {
    hide WellShaped, Get32, Get64;
    LittleEndian(rb, 0);
    LittleEndian(rb, 8);
  }

  /** The byte range of the disk a request is about. */
  function Offset(sector: nat): nat {
    sector * SECTOR % U64
  }

  function WholeSectors(n: nat): nat {
    n / SECTOR * SECTOR
  }

  /**
   A published request: its head, the chain, the readable bytes, and how many
   completions and disk operations had happened when it was published.
   */
  datatype Request = Request(head: nat, ds: seq<Desc>, rb: seq<byte>, usedAt: nat, logAt: nat) {
    function Kind(): Kind { KindOf(ds, rb) }
  }

  /** What the device took from memory when it popped the request. */
  datatype Task = Task(ticket: nat, head: nat, kind: Kind, buf: seq<byte>, size: nat)

  function Zeros(n: nat): (r: seq<byte>)
    ensures |r| == n
    ensures forall i :: 0 <= i < n ==> r[i] == 0
  {
    seq(n, _ => 0)
  }

  function MakeTask(ticket: nat, head: nat, ds: seq<Desc>, rb: seq<byte>): Task {
    var k := KindOf(ds, rb);
    var w := |Writable(ds)|;
    if k.Out? && |rb| >= HEADER then Task(ticket, head, k, rb[HEADER..], 1)
    else Task(ticket, head, k, Zeros(w), w)
  }

  /** How many bytes the disk operation of a task asks for. */
  function Count(task: Task): nat {
    if task.kind.Out? then WholeSectors(|task.buf|)
    else if |task.buf| == 0 then 0
    else WholeSectors(|task.buf| - 1)
  }

  /** The bytes a completion places in the writable part: data, then the status byte last. */
  function Answer(task: Task, data: seq<byte>, ok: bool): seq<byte> {
    var status: byte := if ok then 0 else 1;
    if task.kind.In? && |data| < task.size then data + Zeros(task.size - 1 - |data|) + [status]
    else [status]
  }

  // The disk

  datatype Io = Io(ticket: nat, write: bool, off: nat, data: seq<byte>, full: bool)

  function Pread(d: seq<byte>, off: nat, n: nat): seq<byte> {
    FlatRead(d, off, n)
  }

  function Pwrite(d: seq<byte>, off: nat, bs: seq<byte>): seq<byte> {
    if bs == [] then d
    else FlatWrite(d + Zeros(Max(0, off + |bs| - |d|)), off, bs)
  }

  function Apply(d: seq<byte>, io: Io): seq<byte> {
    if io.write then Pwrite(d, io.off, io.data) else d
  }

  /** The disk after the operations of the log, in log order. */
  function Replay(d: seq<byte>, log: seq<Io>): seq<byte> {
    if log == [] then d else Apply(Replay(d, log[..|log| - 1]), log[|log| - 1])
  }

  // Host heap blocks of a request

  datatype Block = Arg | Buf | Rec
  datatype Handle = Handle(ticket: nat, block: Block)
  datatype HeapOp = Malloc(h: Handle) | Use(h: Handle) | Free(h: Handle)

  /** ok records that no block was ever used or released while it was not live. */
  datatype Heap = Heap(live: set<Handle>, freed: set<Handle>, ok: bool)

  function Perform(h: Heap, op: HeapOp): Heap {
    match op
    case Malloc(x) => Heap(h.live + {x}, h.freed, h.ok && x !in h.live && x !in h.freed)
    case Use(x) => Heap(h.live, h.freed, h.ok && x in h.live)
    case Free(x) => Heap(h.live - {x}, h.freed + {x}, h.ok && x in h.live)
  }

  function PerformAll(h: Heap, ops: seq<HeapOp>): Heap
    decreases |ops|
  {
    if ops == [] then h else PerformAll(Perform(h, ops[0]), ops[1..])
  }

  // The system

  datatype Entry = Entry(ticket: nat, head: nat, len: nat, ok: bool, wrote: seq<byte>, at: Option<nat>)

  datatype Phase =
    | Idle                                              // waiting for a task, or about to start one
    | Did(full: bool, data: seq<byte>, at: nat)         // disk operation done, needs the device lock
    | Answered                                          // answer in guest memory, not published yet
    | Ended                                             // request finished, draining the queue under the lock
    | Returned                                          // callback returned, lock released
    | Clearing                                          // task slot emptied, flag still set

  datatype Actor = Outside | Worker(id: nat)

  datatype Pc =
    | Unlocked
    | Locked(who: Actor)
    | Draining(who: Actor, snap: nat, goal: nat)
    | Scanning(who: Actor, snap: nat, goal: nat, task: Task)
    | HandingOver(who: Actor, snap: nat, goal: nat, task: Task, to: nat)
    | Refusing(who: Actor, snap: nat, goal: nat, task: Task)  // all busy, answer in memory, not published yet
    | Publishing(who: Actor, entry: Entry)                    // a worker's answer in memory, not published yet

  datatype Conf = Conf(num: nat, table: nat, workers: nat, size: nat, disk0: seq<byte>)

  datatype Sys = Sys(
    mem: seq<byte>,           // guest memory
    ring: seq<nat>,           // available ring
    availIdx: nat,            // its 16-bit index
    last: nat,                // last_avail_idx, 16 bits
    pc: Pc,                   // the holder of the device lock
    pool: Pool<Task>,
    phase: seq<Phase>,
    disk: seq<byte>,
    heap: Heap,
    reqs: seq<Request>,       // everything published, in order
    popped: nat,              // how many of them were taken off the ring
    used: seq<Entry>,         // everything completed, in order
    reaped: nat,              // how many completions the driver has taken back
    skipped: seq<nat>,
    log: seq<Io>)

  /** The device lock is held by a drain that was started by this actor. */
  function Holder(pc: Pc): Option<Actor> {
    if pc.Unlocked? then None else Some(pc.who)
  }

  // Device steps

  function Hnd(j: nat, b: Block): Handle { Handle(j, b) }

  ghost predicate Lock(s: Sys, s': Sys) {
    s.pc.Unlocked? && s' == s.(pc := Locked(Outside))
  }

  /** queue_notify begins; a worker takes the queue number from its callback argument. */
  ghost predicate Snapshot(s: Sys, s': Sys) {
    && s.pc.Locked?
    && var pc' := Draining(s.pc.who, s.availIdx, |s.reqs|);
    && match s.pc.who
       case Outside => s' == s.(pc := pc')
       case Worker(i) =>
         && i < |s.pool.slot| && s.pool.slot[i].Some?
         && s' == s.(pc := pc', heap := Perform(s.heap, Use(Hnd(s.pool.slot[i].value.ticket, Arg))))
  }

  /** Read the next head off the ring and the chain and header it leads to. */
  ghost predicate Pops(c: Conf, s: Sys, ds: seq<Desc>) {
    && s.pc.Draining? && s.last != s.pc.snap
    && c.num > 0 && BitAnd(s.last, c.num - 1) < |s.ring|
    && IsChain(s.mem, c.table, s.ring[BitAnd(s.last, c.num - 1)], ds)
    && InMem(|s.mem|, Readable(ds))
  }

  function Bump(x: nat): nat { (x + 1) % U16 }

  ghost predicate PopSkip(c: Conf, s: Sys, ds: seq<Desc>, s': Sys) {
    && Pops(c, s, ds)
    && var k := KindOf(ds, Gather(s.mem, Readable(ds)));
    && k.Skip?
    && s' == s.(
              last := Bump(s.last), popped := s.popped + 1, skipped := s.skipped + [s.popped],
              heap := if k.leak then Perform(s.heap, Malloc(Hnd(s.popped, Arg))) else s.heap)
  }

  ghost predicate PopRequest(c: Conf, s: Sys, ds: seq<Desc>, s': Sys) {
    && Pops(c, s, ds)
    && var rb := Gather(s.mem, Readable(ds));
    && !KindOf(ds, rb).Skip?
    && var h := s.ring[BitAnd(s.last, c.num - 1)];
    && s' == s.(
              pc := Scanning(s.pc.who, s.pc.snap, s.pc.goal, MakeTask(s.popped, h, ds, rb)),
              heap := PerformAll(s.heap, [Malloc(Hnd(s.popped, Arg)), Malloc(Hnd(s.popped, Buf)),
                                          Malloc(Hnd(s.popped, Rec))]))
  }

  ghost predicate ReserveWorker(s: Sys, i: nat, s': Sys) {
    && s.pc.Scanning? && FirstIdle(s.pool, i)
    && s' == s.(pc := HandingOver(s.pc.who, s.pc.snap, s.pc.goal, s.pc.task, i), pool := Reserve(s.pool, i))
  }

  ghost predicate HandOverTask(s: Sys, s': Sys) {
    && s.pc.HandingOver? && s.pc.to < |s.pool.slot|
    && s' == s.(
              pc := Draining(s.pc.who, s.pc.snap, s.pc.goal),
              pool := HandOver(s.pool, s.pc.to, s.pc.task),
              last := Bump(s.last), popped := s.popped + 1)
  }

  /** The memory effect of finishing a request: the answer, scattered over the writable part. */
  function EndMem(m: seq<byte>, ds: seq<Desc>, bytes: seq<byte>): (r: seq<byte>)
    requires InMem(|m|, Writable(ds))
    ensures |r| == |m|
  {
    var xs := Window(Writable(ds), 0, |bytes|);
    Scatter(m, xs, bytes[..|xs|])
  }

  /** No worker is free: the answer goes into guest memory. */
  ghost predicate RefuseTask(c: Conf, s: Sys, ds: seq<Desc>, s': Sys) {
    && s.pc.Scanning? && AllBusy(s.pool)
    && var task := s.pc.task;
    && IsChain(s.mem, c.table, task.head, ds) && InMem(|s.mem|, Writable(ds))
    && var j := task.ticket;
    && s' == s.(
              pc := Refusing(s.pc.who, s.pc.snap, s.pc.goal, task),
              mem := EndMem(s.mem, ds, Answer(task, [], false)),
              heap := PerformAll(s.heap, [Free(Hnd(j, Rec))]
                                         + (if task.kind.Out? then [Free(Hnd(j, Buf)), Use(Hnd(j, Arg))]
                                            else [Use(Hnd(j, Arg)), Use(Hnd(j, Buf)), Free(Hnd(j, Buf))])))
  }

  /** Then the refused request is published as used. */
  ghost predicate RejectTask(s: Sys, s': Sys) {
    && s.pc.Refusing?
    && var task := s.pc.task;
    && s' == s.(
              pc := Draining(s.pc.who, s.pc.snap, s.pc.goal),
              used := s.used + [Entry(task.ticket, task.head, task.size, false, Answer(task, [], false), None)],
              last := Bump(s.last), popped := s.popped + 1,
              heap := Perform(s.heap, Free(Hnd(task.ticket, Arg))))
  }

  /** The drain is over: unlock; a worker also releases its callback argument. */
  ghost predicate EndDrain(s: Sys, s': Sys) {
    && s.pc.Draining? && s.last == s.pc.snap
    && match s.pc.who
       case Outside => s' == s.(pc := Unlocked)
       case Worker(i) =>
         && i < |s.phase| && i < |s.pool.slot| && s.pool.slot[i].Some?
         && var j := s.pool.slot[i].value.ticket;
         && s' == s.(pc := Unlocked, phase := s.phase[i := Returned],
                     heap := Perform(s.heap, Free(Hnd(j, Arg))))
  }

  /** pread or pwrite moved n bytes; n short of the request, or an error, which moves nothing, is a failure. */
  ghost predicate WorkerIo(s: Sys, i: nat, n: nat, err: bool, s': Sys) {
    && i < |s.phase| && i < |s.pool.slot|
    && s.phase[i].Idle? && s.pool.slot[i].Some?
    && var task := s.pool.slot[i].value;
    && !task.kind.Skip? && n <= Count(task) <= |task.buf| && (err ==> n == 0)
    && var off := Offset(task.kind.sector);
    && var data := if task.kind.Out? then task.buf[..n] else Pread(s.disk, off, n);
    && |data| == n
    && var io := Io(task.ticket, task.kind.Out?, off, data, n == Count(task) && !err);
    && var j := task.ticket;
    && s' == s.(
              disk := Apply(s.disk, io), log := s.log + [io],
              phase := s.phase[i := Did(io.full, data, |s.log|)],
              heap := PerformAll(s.heap, [Use(Hnd(j, Rec)), Use(Hnd(j, Buf))]
                                         + if task.kind.Out? then [Free(Hnd(j, Buf))] else []))
  }

  /** The used element that worker i is about to publish. */
  function EntryOf(task: Task, phase: Phase): Entry
    requires phase.Did?
  {
    Entry(task.ticket, task.head, task.size, phase.full,
          Answer(task, if task.kind.In? then phase.data else [], phase.full), Some(phase.at))
  }

  /** The completion callback takes the device lock and puts the answer into guest memory. */
  ghost predicate PutAnswer(c: Conf, s: Sys, i: nat, ds: seq<Desc>, s': Sys) {
    && s.pc.Unlocked?
    && i < |s.phase| && i < |s.pool.slot|
    && s.phase[i].Did? && s.pool.slot[i].Some?
    && var task := s.pool.slot[i].value;
    && IsChain(s.mem, c.table, task.head, ds) && InMem(|s.mem|, Writable(ds))
    && var j, e := task.ticket, EntryOf(task, s.phase[i]);
    && s' == s.(
              pc := Publishing(Worker(i), e),
              phase := s.phase[i := Answered],
              mem := EndMem(s.mem, ds, e.wrote),
              heap := PerformAll(s.heap, [Use(Hnd(j, Rec)), Use(Hnd(j, Arg))]
                                         + if task.kind.In? then [Use(Hnd(j, Buf)), Free(Hnd(j, Buf))] else []))
  }

  /** Then it publishes the request as used. */
  ghost predicate Complete(s: Sys, s': Sys) {
    && s.pc.Publishing? && s.pc.who.Worker? && s.pc.who.id < |s.phase|
    && s' == s.(
              pc := Locked(s.pc.who),
              phase := s.phase[s.pc.who.id := Ended],
              used := s.used + [s.pc.entry])
  }

  /** The worker releases the request record and empties its slot. */
  ghost predicate DropTask(s: Sys, i: nat, s': Sys) {
    && i < |s.phase| && i < |s.pool.slot|
    && s.phase[i].Returned? && s.pool.slot[i].Some?
    && s' == s.(phase := s.phase[i := Clearing], pool := Drop(s.pool, i),
                heap := Perform(s.heap, Free(Hnd(s.pool.slot[i].value.ticket, Rec))))
  }

  ghost predicate ClearFlag(s: Sys, i: nat, s': Sys) {
    && i < |s.phase| && i < |s.pool.working|
    && s.phase[i].Clearing?
    && s' == s.(phase := s.phase[i := Idle], pool := Clear(s.pool, i))
  }

  // Guest steps

  /** Every guest byte that belongs to a request: table entries and both parts. */
  function Foot(t: nat, head: nat, ds: seq<Desc>): set<nat> {
    Entries(t, head, ds) + AddrSet(Readable(ds)) + AddrSet(Writable(ds))
  }

  /** The driver has not taken request j back. */
  ghost predicate Outstanding(used: seq<Entry>, reaped: nat, j: nat) {
    forall k :: 0 <= k < reaped && k < |used| ==> used[k].ticket != j
  }

  /** The guest leaves the requests it has handed to the device alone. */
  ghost predicate LeavesAlone(c: Conf, s: Sys, m: seq<byte>) {
    && |m| == |s.mem|
    && forall j :: 0 <= j < |s.reqs| && Outstanding(s.used, s.reaped, j)
         ==> Agree(s.mem, m, Foot(c.table, s.reqs[j].head, s.reqs[j].ds))
  }

  /** What the driver keeps to when it builds a request. */
  ghost predicate WellBuilt(c: Conf, r: Request) {
    && r.head < U16 && 0 < |r.ds| <= 1024
    && RunInRange(c.size, r.ds, false)
    && RunInRange(c.size, SkipReadable(r.ds), true)
    && Distinct(Writable(r.ds))
    && Entries(c.table, r.head, r.ds) !! AddrSet(Writable(r.ds))
    && AddrSet(Readable(r.ds)) !! AddrSet(Writable(r.ds))
    && |r.rb| == |Readable(r.ds)| < U31 && |Writable(r.ds)| < U31
    && (r.Kind().In? ==> |Writable(r.ds)| >= 1)
    && (r.Kind().Out? ==> |Writable(r.ds)| >= 1 && |r.rb| > HEADER)
  }

  ghost predicate Holds(c: Conf, m: seq<byte>, r: Request) {
    && IsChain(m, c.table, r.head, r.ds)
    && InMem(|m|, Readable(r.ds))
    && Gather(m, Readable(r.ds)) == r.rb
  }

  ghost predicate GuestWrite(c: Conf, s: Sys, m: seq<byte>, s': Sys) {
    LeavesAlone(c, s, m) && s' == s.(mem := m)
  }

  ghost predicate Publish(c: Conf, s: Sys, r: Request, s': Sys) {
    && |s.reqs| - s.reaped < c.num == |s.ring| && c.num > 0
    && r.usedAt == |s.used| && r.logAt == |s.log|
    && WellBuilt(c, r) && Holds(c, s.mem, r)
    && (forall j :: 0 <= j < |s.reqs| && Outstanding(s.used, s.reaped, j)
          ==> Foot(c.table, s.reqs[j].head, s.reqs[j].ds) !! Foot(c.table, r.head, r.ds))
    && s' == s.(
              ring := s.ring[|s.reqs| % c.num := r.head],
              availIdx := Bump(s.availIdx),
              reqs := s.reqs + [r])
  }

  ghost predicate Reap(s: Sys, s': Sys) {
    s.reaped < |s.used| && s' == s.(reaped := s.reaped + 1)
  }

  // Runs

  datatype Step =
    | DoLock | DoSnapshot | DoPopSkip(ds: seq<Desc>) | DoPopRequest(ds: seq<Desc>)
    | DoReserve(i: nat) | DoHandOver | DoRefuse(ds: seq<Desc>) | DoReject | DoEndDrain
    | DoIo(i: nat, n: nat, err: bool) | DoAnswer(i: nat, ds: seq<Desc>) | DoComplete | DoDrop(i: nat) | DoClear(i: nat)
    | DoGuestWrite(m: seq<byte>) | DoPublish(r: Request) | DoReap

  ghost predicate Next(c: Conf, s: Sys, step: Step, s': Sys) {
    match step
    case DoLock => Lock(s, s')
    case DoSnapshot => Snapshot(s, s')
    case DoPopSkip(ds) => PopSkip(c, s, ds, s')
    case DoPopRequest(ds) => PopRequest(c, s, ds, s')
    case DoReserve(i) => ReserveWorker(s, i, s')
    case DoHandOver => HandOverTask(s, s')
    case DoRefuse(ds) => RefuseTask(c, s, ds, s')
    case DoReject => RejectTask(s, s')
    case DoEndDrain => EndDrain(s, s')
    case DoIo(i, n, err) => WorkerIo(s, i, n, err, s')
    case DoAnswer(i, ds) => PutAnswer(c, s, i, ds, s')
    case DoComplete => Complete(s, s')
    case DoDrop(i) => DropTask(s, i, s')
    case DoClear(i) => ClearFlag(s, i, s')
    case DoGuestWrite(m) => GuestWrite(c, s, m, s')
    case DoPublish(r) => Publish(c, s, r, s')
    case DoReap => Reap(s, s')
  }

  predicate ValidConf(c: Conf) {
    IsPow2(c.num) && c.num <= U16
  }

  ghost predicate Init(c: Conf, s: Sys) {
    && ValidConf(c)
    && |s.mem| == c.size && |s.ring| == c.num && (forall i :: 0 <= i < |s.ring| ==> s.ring[i] < U16)
    && s.availIdx == 0 && s.last == 0 && s.pc == Unlocked
    && s.pool == Pool(seq(c.workers, _ => false), seq(c.workers, _ => None))
    && s.phase == seq(c.workers, _ => Idle)
    && s.disk == c.disk0
    && s.heap == Heap({}, {}, true)
    && s.reqs == [] && s.popped == 0 && s.used == [] && s.reaped == 0 && s.skipped == [] && s.log == []
  }

  /** A run: states linked by steps. */
  ghost predicate Run(c: Conf, run: seq<Sys>, steps: seq<Step>) {
    && |run| == |steps| + 1
    && Init(c, run[0])
    && forall k :: 0 <= k < |steps| ==> Next(c, run[k], steps[k], run[k + 1])
  }
}
