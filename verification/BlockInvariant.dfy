/**
 What every step of the block request machine keeps.
 */
module BlockInvariant {
  import opened Words
  import opened Chains
  import opened QueueCopy
  import opened PoolSpec
  import opened BlockModel

  function TaskFor(j: nat, r: Request): Task {
    MakeTask(j, r.head, r.ds, r.rb)
  }

  // Indices and the ring

  ghost predicate Basic(c: Conf, s: Sys) {
    && ValidConf(c)
    && |s.mem| == c.size && |s.ring| == c.num
    && Sized(s.pool, c.workers) && |s.phase| == c.workers
    && s.reaped <= |s.used| <= s.popped <= |s.reqs|
    && |s.reqs| - s.reaped <= c.num
    && s.last == s.popped % U16 && s.availIdx == |s.reqs| % U16
  }

  /** Every request that is still on the ring is where the device will look for it. */
  ghost predicate RingInv(num: nat, ring: seq<nat>, reqs: seq<Request>, popped: nat) {
    && num == |ring| > 0
    && forall j :: popped <= j < |reqs| ==> ring[j % num] == reqs[j].head
  }

  predicate InHand(pc: Pc) {
    pc.Scanning? || pc.HandingOver? || pc.Refusing?
  }

  predicate HasGoal(pc: Pc) {
    pc.Draining? || pc.Scanning? || pc.HandingOver? || pc.Refusing?
  }

  ghost predicate PcInv(pc: Pc, popped: nat, reqs: seq<Request>) {
    && (HasGoal(pc) ==> pc.snap == pc.goal % U16 && popped <= pc.goal <= |reqs|)
    && (InHand(pc) ==> popped < pc.goal && pc.task == TaskFor(popped, reqs[popped]) && !reqs[popped].Kind().Skip?)
  }

  ghost predicate LockInv(pc: Pc, phase: seq<Phase>) {
    && (forall i :: 0 <= i < |phase| ==> (phase[i].Ended? <==> Holder(pc) == Some(Worker(i)) && !pc.Publishing?))
    && (forall i :: 0 <= i < |phase| ==> (phase[i].Answered? <==> Holder(pc) == Some(Worker(i)) && pc.Publishing?))
    && (Holder(pc).Some? && Holder(pc).value.Worker? ==> Holder(pc).value.id < |phase|)
    && (pc.Publishing? ==> pc.who.Worker?)
  }

  // Workers

  /** One worker: its flag, slot and phase; reserved says that a submitter is about to fill the slot. */
  ghost predicate WorkerOk(working: bool, slot: Option<Task>, phase: Phase, reserved: bool, popped: nat,
                           reqs: seq<Request>) {
    && popped <= |reqs|
    && (slot.None? ==> phase.Idle? || phase.Clearing?)
    && (slot.Some? ==> !phase.Clearing?)
    && (!working ==> slot.None? && phase.Idle?)
    && (working && slot.None? && phase.Idle? <==> reserved)
    && (slot.Some? ==>
          var task := slot.value;
          && task.ticket < popped
          && task == TaskFor(task.ticket, reqs[task.ticket])
          && !reqs[task.ticket].Kind().Skip?)
  }

  function Reserved(pc: Pc): Option<nat> {
    if pc.HandingOver? then Some(pc.to) else None
  }

  predicate SameTicket(x: Option<Task>, y: Option<Task>) {
    x.Some? && y.Some? && x.value.ticket == y.value.ticket
  }

  ghost predicate WorkerInv(pool: Pool<Task>, phase: seq<Phase>, to: Option<nat>, popped: nat, reqs: seq<Request>) {
    && |phase| == |pool.slot| == |pool.working|
    && (to.Some? ==> to.value < |phase|)
    && (forall i :: 0 <= i < |phase|
                    ==> WorkerOk(pool.working[i], pool.slot[i], phase[i], to == Some(i), popped, reqs))
    && (forall i, k :: 0 <= i < |phase| && 0 <= k < |phase| && i != k ==> !SameTicket(pool.slot[i], pool.slot[k]))
  }

  // Conservation

  function Upto(n: nat): (r: seq<nat>)
    ensures |r| == n
  {
    seq(n, i => i)
  }

  function Tickets(used: seq<Entry>): (r: seq<nat>)
    ensures |r| == |used|
  {
    seq(|used|, i requires 0 <= i < |used| => used[i].ticket)
  }

  function Carried(slot: Option<Task>, phase: Phase): multiset<nat> {
    if slot.Some? && (phase.Idle? || phase.Did? || phase.Answered?) then multiset{slot.value.ticket} else multiset{}
  }

  /** The requests in the pool that are not finished. */
  function InFlight(slot: seq<Option<Task>>, phase: seq<Phase>): multiset<nat>
    requires |slot| == |phase|
  {
    if slot == [] then multiset{}
    else InFlight(slot[..|slot| - 1], phase[..|slot| - 1]) + Carried(slot[|slot| - 1], phase[|slot| - 1])
  }

  function Hand(pc: Pc): multiset<nat> {
    if InHand(pc) then multiset{pc.task.ticket} else multiset{}
  }

  /**
   Conservation: the requests taken off the ring are, each exactly once, those
   completed, those skipped, those in flight in the pool and the one in hand.
   */
  ghost predicate Conserved(pc: Pc, pool: Pool<Task>, phase: seq<Phase>, popped: nat, used: seq<Entry>,
                            skipped: seq<nat>) {
    && |pool.slot| == |phase|
    && multiset(Upto(popped + |Hand(pc)|))
       == multiset(Tickets(used)) + multiset(skipped) + InFlight(pool.slot, phase) + Hand(pc)
  }

  ghost predicate SkippedInv(skipped: seq<nat>, popped: nat, reqs: seq<Request>) {
    forall i :: 0 <= i < |skipped| ==> skipped[i] < popped <= |reqs| && reqs[skipped[i]].Kind().Skip?
  }

  // Disk and completions

  ghost predicate IoOk(disk0: seq<byte>, log: seq<Io>, reqs: seq<Request>, k: nat)
    requires k < |log|
  {
    var io := log[k];
    && io.ticket < |reqs|
    && var r := reqs[io.ticket];
    && var task := TaskFor(io.ticket, r);
    && !r.Kind().Skip? && r.logAt <= k
    && io.write == r.Kind().Out?
    && io.off == Offset(r.Kind().sector)
    && |io.data| <= Count(task) <= |task.buf|
    && (io.full ==> |io.data| == Count(task)) && (!io.full ==> |io.data| < Count(task) || |io.data| == 0)
    && io.data == if io.write then task.buf[..|io.data|] else Pread(Replay(disk0, log[..k]), io.off, |io.data|)
  }

  ghost predicate LogInv(disk0: seq<byte>, disk: seq<byte>, log: seq<Io>, reqs: seq<Request>) {
    && disk == Replay(disk0, log)
    && (forall k :: 0 <= k < |log| ==> IoOk(disk0, log, reqs, k))
    && (forall k, l :: 0 <= k < l < |log| ==> log[k].ticket != log[l].ticket)
  }

  /** Which requests have reached the disk. */
  ghost predicate DoneInv(log: seq<Io>, pool: Pool<Task>, phase: seq<Phase>, popped: nat) {
    && |phase| == |pool.slot|
    && (forall k :: 0 <= k < |log| ==> log[k].ticket < popped)
    && (forall i, k :: 0 <= i < |phase| && 0 <= k < |log| && pool.slot[i].Some? && phase[i].Idle?
                       ==> log[k].ticket != pool.slot[i].value.ticket)
    && (forall i :: 0 <= i < |phase| && phase[i].Did? ==>
                      && pool.slot[i].Some?
                      && phase[i].at < |log|
                      && log[phase[i].at].ticket == pool.slot[i].value.ticket
                      && log[phase[i].at].data == phase[i].data
                      && log[phase[i].at].full == phase[i].full)
  }

  ghost predicate EntryOk(e: Entry, log: seq<Io>, reqs: seq<Request>, popped: nat) {
    && e.ticket < popped <= |reqs|
    && var r := reqs[e.ticket];
    && var task := TaskFor(e.ticket, r);
    && !r.Kind().Skip? && e.head == r.head && e.len == task.size
    && match e.at
       case Some(p) =>
         && p < |log| && log[p].ticket == e.ticket && e.ok == log[p].full
         && e.wrote == Answer(task, if r.Kind().In? then log[p].data else [], e.ok)
       case None =>
         && !e.ok && e.wrote == Answer(task, [], false)
         && forall p :: 0 <= p < |log| ==> log[p].ticket != e.ticket
  }

  ghost predicate UsedInv(used: seq<Entry>, log: seq<Io>, reqs: seq<Request>, popped: nat) {
    forall k :: 0 <= k < |used| ==> EntryOk(used[k], log, reqs, popped)
  }

  /** The completion that a worker is about to publish is that of its own request. */
  ghost predicate PendingInv(pc: Pc, pool: Pool<Task>, log: seq<Io>, reqs: seq<Request>, popped: nat) {
    pc.Publishing? && pc.who.Worker? ==>
      && pc.who.id < |pool.slot| && pool.slot[pc.who.id].Some?
      && pc.entry.ticket == pool.slot[pc.who.id].value.ticket
      && EntryOk(pc.entry, log, reqs, popped)
  }

  /** What was completed before a publication reached the disk before it. */
  ghost predicate OrderInv(reqs: seq<Request>, used: seq<Entry>, log: seq<Io>) {
    && (forall j :: 0 <= j < |reqs| ==> reqs[j].usedAt <= |used| && reqs[j].logAt <= |log|)
    && (forall j, k :: 0 <= j < |reqs| && 0 <= k < reqs[j].usedAt && k < |used| && used[k].at.Some?
                       ==> used[k].at.value < reqs[j].logAt)
  }

  // Guest memory

  /** The answer of a completion is in the writable part of its chain. */
  ghost predicate Landed(m: seq<byte>, r: Request, wrote: seq<byte>) {
    var xs := Window(Writable(r.ds), 0, |wrote|);
    |xs| == |wrote| && InMem(|m|, xs) && Gather(m, xs) == wrote
  }

  ghost predicate MemInv(c: Conf, mem: seq<byte>, reqs: seq<Request>, used: seq<Entry>, reaped: nat) {
    && |mem| == c.size && reaped <= |used|
    && (forall k :: 0 <= k < |used| ==> used[k].ticket < |reqs|)
    && (forall k, l :: 0 <= k < l < |used| ==> used[k].ticket != used[l].ticket)
    && (forall j :: 0 <= j < |reqs| ==> WellBuilt(c, reqs[j]))
    && (forall j :: 0 <= j < |reqs| && Outstanding(used, |used|, j) ==> Holds(c, mem, reqs[j]))
    && (forall k :: reaped <= k < |used| ==> Landed(mem, reqs[used[k].ticket], used[k].wrote))
    && (forall j, k :: 0 <= j < k < |reqs| && Outstanding(used, reaped, j) && Outstanding(used, reaped, k)
                       ==> Foot(c.table, reqs[j].head, reqs[j].ds) !! Foot(c.table, reqs[k].head, reqs[k].ds))
  }

  /** An answer that is about to be published is in guest memory. */
  ghost predicate PayloadInv(mem: seq<byte>, pc: Pc, reqs: seq<Request>, popped: nat) {
    && (pc.Publishing? ==> pc.entry.ticket < |reqs| && Landed(mem, reqs[pc.entry.ticket], pc.entry.wrote))
    && (pc.Refusing? ==> popped < |reqs| && Landed(mem, reqs[popped], Answer(pc.task, [], false)))
  }

  // Host heap

  predicate BlockLive(kind: Kind, phase: Phase, b: Block) {
    match phase
    case Idle => true
    case Did(_, _, _) => b != Buf || kind.In?
    case Answered => b != Buf
    case Ended => b != Buf
    case Returned => b == Rec
    case Clearing => false
  }

  /** A worker carries the request of h and its phase keeps the block. */
  ghost predicate CarriedLive(pool: Pool<Task>, phase: seq<Phase>, h: Handle)
    requires |phase| == |pool.slot|
  {
    exists i :: 0 <= i < |phase| && pool.slot[i].Some? && pool.slot[i].value.ticket == h.ticket
                && BlockLive(pool.slot[i].value.kind, phase[i], h.block)
  }

  ghost predicate ShouldLive(pc: Pc, pool: Pool<Task>, phase: seq<Phase>, reqs: seq<Request>, popped: nat, h: Handle)
    requires |phase| == |pool.slot| && popped <= |reqs|
  {
    || (InHand(pc) && pc.task.ticket == h.ticket && (pc.Refusing? ==> h.block.Arg?))
    || CarriedLive(pool, phase, h)
    || (h.block.Arg? && h.ticket < popped && reqs[h.ticket].Kind() == Skip(true))
  }

  /** Some block of request j may have been released: it is off the ring, or being refused. */
  predicate Touched(pc: Pc, reqs: seq<Request>, popped: nat, j: nat) {
    j < |reqs| && (j < popped || (pc.Refusing? && pc.task.ticket == j)) && !reqs[j].Kind().Skip?
  }

  /** Live blocks belong to a request in hand or in a slot; every other block of a served request was released. */
  ghost predicate HeapInv(heap: Heap, pc: Pc, pool: Pool<Task>, phase: seq<Phase>, reqs: seq<Request>, popped: nat) {
    && |phase| == |pool.slot| && popped <= |reqs|
    && heap.ok
    && (pc.Refusing? ==> pc.task.ticket < |reqs|)
    && (forall h :: h in heap.live <==> ShouldLive(pc, pool, phase, reqs, popped, h))
    && (forall h :: h in heap.freed <==> Touched(pc, reqs, popped, h.ticket)
                                         && !ShouldLive(pc, pool, phase, reqs, popped, h))
  }

  // The invariant

  ghost predicate Control(c: Conf, s: Sys) {
    && Basic(c, s)
    && RingInv(c.num, s.ring, s.reqs, s.popped)
    && PcInv(s.pc, s.popped, s.reqs)
    && LockInv(s.pc, s.phase)
    && WorkerInv(s.pool, s.phase, Reserved(s.pc), s.popped, s.reqs)
    && Conserved(s.pc, s.pool, s.phase, s.popped, s.used, s.skipped)
    && SkippedInv(s.skipped, s.popped, s.reqs)
  }

  ghost predicate Storage(c: Conf, s: Sys) {
    && LogInv(c.disk0, s.disk, s.log, s.reqs)
    && DoneInv(s.log, s.pool, s.phase, s.popped)
    && UsedInv(s.used, s.log, s.reqs, s.popped)
    && PendingInv(s.pc, s.pool, s.log, s.reqs, s.popped)
    && OrderInv(s.reqs, s.used, s.log)
  }

  ghost predicate Inv(c: Conf, s: Sys) {
    && Control(c, s)
    && Storage(c, s)
    && MemInv(c, s.mem, s.reqs, s.used, s.reaped)
    && PayloadInv(s.mem, s.pc, s.reqs, s.popped)
    && HeapInv(s.heap, s.pc, s.pool, s.phase, s.reqs, s.popped)
  }

  lemma {:induction false} NoneInFlight(slot: seq<Option<Task>>, phase: seq<Phase>)
    requires |slot| == |phase|
    requires forall i :: 0 <= i < |slot| ==> slot[i].None?
    ensures InFlight(slot, phase) == multiset{}
    decreases |slot|
  {
    if slot != [] {
      NoneInFlight(slot[..|slot| - 1], phase[..|slot| - 1]);
    }
  }

  lemma InitControl(c: Conf, s: Sys)
    requires Init(c, s)
    ensures Control(c, s)
  {
    hide InFlight, TaskFor;
    NoneInFlight(s.pool.slot, s.phase);
    assert Upto(0) == [] && Tickets([]) == [];
  }

  lemma InitInv(c: Conf, s: Sys)
    requires Init(c, s)
    ensures Inv(c, s)
  {
    hide Control;
    InitControl(c, s);
  }
}
