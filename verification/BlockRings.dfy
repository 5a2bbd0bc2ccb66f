/**
 The block request machine in one guest memory. Along every run there are
 memories that hold its typed rings in bytes and agree with the machine's memory
 everywhere else; the device changes them by the answers and by the three stores
 of a completion, the driver by the two stores of a publication and by its
 other writes.
 */
module BlockRings {
  import opened Words
  import opened GuestMemory
  import opened Chains
  import opened QueueCopy
  import opened Rings
  import opened BlockModel
  import opened BlockInvariant
  import opened BlockControl
  import opened BlockStorage
  import opened BlockMemory
  import opened BlockRuns
  import opened BlockTheorems

  /** The used elements of the completions. */
  function Elems(used: seq<Entry>): (r: seq<UsedElem>)
    ensures |r| == |used|
    ensures forall i :: 0 <= i < |used| ==> r[i] == UsedElem(used[i].head, used[i].len)
  {
    seq(|used|, i requires 0 <= i < |used| => UsedElem(used[i].head, used[i].len))
  }

  predicate RingLayout(size: nat, q: QueueState) {
    UsedLayout(size, q) && AvailLayout(size, q) && AvailBytes(q) !! UsedBytes(q)
  }

  ghost predicate AvailRing(m: seq<byte>, q: QueueState, ring: seq<nat>, idx: nat)
    requires AvailLayout(|m|, q)
  {
    && |ring| == q.num && AvailIdx(m, q) == idx
    && forall j :: 0 <= j < q.num ==> AvailHead(m, q, j) == ring[j]
  }

  /** The bytes m hold the rings of state s. */
  ghost predicate Represents(m: seq<byte>, q: QueueState, s: Sys) {
    && RingLayout(|m|, q)
    && UsedRing(m, q, Elems(s.used), q.num)
    && AvailRing(m, q, s.ring, s.availIdx)
  }

  /** The driver's stores for publication number k: the head into its slot, then the index. */
  function Offered(m: seq<byte>, q: QueueState, k: nat, head: nat): seq<byte>
    requires q.num > 0
  {
    FlatWrite(FlatWrite(m, q.avail + 4 + 2 * (k % q.num), Put16(head)), q.avail + 2, Put16(k + 1))
  }

  function RingBytes(q: QueueState): set<nat> {
    UsedBytes(q) + AvailBytes(q)
  }

  /** Guest memory g holds the rings of state s, and everything else as s has it. */
  ghost predicate Joint(g: seq<byte>, q: QueueState, s: Sys) {
    Represents(g, q, s) && OnlyIn(s.mem, g, RingBytes(q))
  }

  /** The driver keeps its requests clear of the rings. */
  predicate ClearOfRings(t: nat, q: QueueState, reqs: seq<Request>) {
    forall j :: 0 <= j < |reqs| ==> Foot(t, reqs[j].head, reqs[j].ds) !! RingBytes(q)
  }

  /** The driver's write m, without the bytes of the rings. */
  function Overlay(m: seq<byte>, g: seq<byte>, a: set<nat>): (r: seq<byte>)
    requires |m| == |g|
    ensures |r| == |m| && forall x :: 0 <= x < |m| ==> r[x] == if x in a then g[x] else m[x]
  {
    seq(|m|, x requires 0 <= x < |m| => if x in a then g[x] else m[x])
  }

  /** What a step does to guest memory. */
  ghost predicate JointStep(g: seq<byte>, q: QueueState, s: Sys, step: Step, s': Sys, g': seq<byte>) {
    match step
    case DoAnswer(i, ds) => s'.pc.Publishing? && InMem(|g|, Writable(ds)) && g' == EndMem(g, ds, s'.pc.entry.wrote)
    case DoRefuse(ds) =>
      s'.pc.Refusing? && InMem(|g|, Writable(ds)) && g' == EndMem(g, ds, Answer(s'.pc.task, [], false))
    case DoReject => q.num > 0 && |s.used| < |s'.used| && g' == Published(g, q, |s.used|, Elems(s'.used)[|s.used|])
    case DoComplete => q.num > 0 && |s.used| < |s'.used| && g' == Published(g, q, |s.used|, Elems(s'.used)[|s.used|])
    case DoPublish(r) => q.num > 0 && g' == Offered(g, q, |s.reqs|, r.head)
    case DoGuestWrite(m) => |m| == |g| && g' == Overlay(m, g, RingBytes(q))
    case _ => g' == g
  }

  // The device's stores

  lemma AvailRingKept(m: seq<byte>, m': seq<byte>, q: QueueState, ring: seq<nat>, idx: nat)
    requires AvailLayout(|m|, q) && AvailRing(m, q, ring, idx) && Agree(m, m', AvailBytes(q))
    ensures AvailLayout(|m'|, q) && AvailRing(m', q, ring, idx)
  {
    hide AvailIdx, AvailHead, AvailBytes;
    AvailKept(m, m', q, 0);
    forall j | 0 <= j < q.num
      ensures AvailHead(m', q, j) == ring[j]
    {
      AvailKept(m, m', q, j);
    }
  }

  lemma CompletionRepresented(m: seq<byte>, q: QueueState, used: seq<Entry>, e: Entry, ring: seq<nat>, idx: nat)
    requires RingLayout(|m|, q) && UsedRing(m, q, Elems(used), q.num) && AvailRing(m, q, ring, idx)
    ensures q.num > 0
    ensures var m' := Published(m, q, |used|, Elems(used + [e])[|used|]);
            && RingLayout(|m'|, q) && UsedRing(m', q, Elems(used + [e]), q.num) && AvailRing(m', q, ring, idx)
  {
    hide AvailRing, UsedRing, Published, AvailBytes, UsedBytes;
    var x := Elems(used + [e])[|used|];
    assert Elems(used + [e]) == Elems(used) + [x];
    StoresInOrder(m, q, Elems(used), x);
    StagesSize(m, q, |used|, x);
    PublishedFrame(m, q, |used|, x);
    OnlyInAgrees(m, Published(m, q, |used|, x), UsedBytes(q), AvailBytes(q));
    AvailRingKept(m, Published(m, q, |used|, x), q, ring, idx);
  }

  // The driver's stores

  lemma OfferedFrame(m: seq<byte>, q: QueueState, k: nat, head: nat)
    requires AvailLayout(|m|, q)
    ensures q.num > 0 && OnlyIn(m, Offered(m, q, k, head), AvailBytes(q))
  {
    forall x | 0 <= x < |m| && x !in AvailBytes(q)
      ensures Offered(m, q, k, head)[x] == m[x]
    {
      NotInSpan(q.avail, 4 + 2 * q.num, x);
    }
  }

  lemma HeadAt(m: seq<byte>, q: QueueState, j: nat)
    requires AvailLayout(|m|, q) && j < q.num
    ensures AvailHead(m, q, j) == Get16(m, q.avail + 4 + 2 * j)
  {
    ModUnique(j, q.num, 0, j);
  }

  lemma OfferedSlot(m: seq<byte>, a: nat, slot: nat, head: nat, v: nat, j: nat)
    requires a + 4 + 2 * slot + 2 <= |m| && a + 4 + 2 * j + 2 <= |m| && head < U16
    ensures var m1 := FlatWrite(m, a + 4 + 2 * slot, Put16(head));
            var m2 := FlatWrite(m1, a + 2, Put16(v));
            && Get16(m2, a + 4 + 2 * j) == (if j == slot then head else Get16(m, a + 4 + 2 * j))
            && Get16(m2, a + 2) == v % U16
  {
    hide FlatWrite, Get16, Put16;
    var m1 := FlatWrite(m, a + 4 + 2 * slot, Put16(head));
    Get16After(m, a + 4 + 2 * slot, head);
    Get16After(m1, a + 2, v);
    GetsElsewhere(m, a + 4 + 2 * slot, Put16(head), a + 4 + 2 * j);
    GetsElsewhere(m1, a + 2, Put16(v), a + 4 + 2 * j);
  }

  lemma OfferedRing(m: seq<byte>, q: QueueState, ring: seq<nat>, idx: nat, k: nat, head: nat)
    requires AvailLayout(|m|, q) && AvailRing(m, q, ring, idx) && head < U16
    ensures q.num > 0 && AvailLayout(|Offered(m, q, k, head)|, q)
    ensures AvailRing(Offered(m, q, k, head), q, ring[k % q.num := head], (k + 1) % U16)
  {
    hide FlatWrite, Get16, Put16, AvailHead;
    var slot, m2 := k % q.num, Offered(m, q, k, head);
    OfferedSlot(m, q.avail, slot, head, k + 1, slot);
    forall j | 0 <= j < q.num
      ensures AvailHead(m2, q, j) == ring[slot := head][j]
    {
      assert AvailHead(m, q, j) == ring[j];
      HeadAt(m, q, j);
      HeadAt(m2, q, j);
      OfferedSlot(m, q.avail, slot, head, k + 1, j);
    }
  }

  lemma OfferRepresented(m: seq<byte>, q: QueueState, hist: seq<UsedElem>, ring: seq<nat>, idx: nat, k: nat, head: nat)
    requires RingLayout(|m|, q) && UsedRing(m, q, hist, q.num) && AvailRing(m, q, ring, idx) && head < U16
    ensures q.num > 0
    ensures var m' := Offered(m, q, k, head);
            && RingLayout(|m'|, q) && UsedRing(m', q, hist, q.num)
            && AvailRing(m', q, ring[k % q.num := head], (k + 1) % U16)
  {
    hide AvailRing, UsedRing, Offered, AvailBytes, UsedBytes;
    OfferedFrame(m, q, k, head);
    OfferedRing(m, q, ring, idx, k, head);
    OnlyInAgrees(m, Offered(m, q, k, head), AvailBytes(q), UsedBytes(q));
    UsedRingKept(m, Offered(m, q, k, head), q, hist, q.num);
  }

  // Runs

  /** The steps that concern neither the rings nor guest memory. */
  lemma Untouched(c: Conf, s: Sys, step: Step, s': Sys)
    requires Next(c, s, step, s') && !step.DoReject? && !step.DoComplete? && !step.DoPublish?
    ensures s'.ring == s.ring && s'.availIdx == s.availIdx && s'.used == s.used && s'.reqs == s.reqs
    ensures !step.DoAnswer? && !step.DoRefuse? && !step.DoGuestWrite? ==> s'.mem == s.mem
  {
    hide Pops, KindOf, MakeTask, Answer, EndMem, PerformAll, Perform, IsChain, Pread, Apply, Count, LeavesAlone;
  }

  lemma PublishFacts(c: Conf, s: Sys, r: Request, s': Sys)
    requires Inv(c, s) && Publish(c, s, r, s')
    ensures |s.reqs| % U16 == s.availIdx && r.head < U16 && c.num > 0
    ensures s'.reqs == s.reqs + [r] && s'.used == s.used
    ensures s'.ring == s.ring[|s.reqs| % c.num := r.head] && s'.availIdx == (|s.reqs| + 1) % U16
  {
    hide Control, Storage, MemInv, PayloadInv, HeapInv, Foot, Holds, WellBuilt, Bump;
    assert Basic(c, s) by { ControlBasic(c, s); }
    BumpIndex(|s.reqs|);
    HeadFits(c, r);
  }

  lemma HeadFits(c: Conf, r: Request)
    requires WellBuilt(c, r)
    ensures r.head < U16
  {
  }

  lemma NumPositive(m: seq<byte>, q: QueueState, s: Sys)
    requires Represents(m, q, s)
    ensures q.num > 0
  {
  }

  lemma OnlyInThen(m: seq<byte>, g: seq<byte>, g': seq<byte>, a: set<nat>, b: set<nat>)
    requires OnlyIn(m, g, a) && OnlyIn(g, g', b) && b <= a
    ensures OnlyIn(m, g', a)
  {
  }

  /** The same scatter on two memories leaves their differences where they were. */
  lemma {:induction false} ScatterBoth(m: seq<byte>, g: seq<byte>, xs: seq<nat>, bs: seq<byte>, a: set<nat>)
    requires |xs| == |bs| && InMem(|m|, xs) && OnlyIn(m, g, a)
    ensures InMem(|g|, xs) && OnlyIn(Scatter(m, xs, bs), Scatter(g, xs, bs), a)
    decreases |xs|
  {
    if xs != [] {
      ScatterBoth(m[xs[0] := bs[0]], g[xs[0] := bs[0]], xs[1..], bs[1..], a);
    }
  }

  /** An answer clear of the rings keeps what they say. */
  lemma AnswerJoint(g: seq<byte>, q: QueueState, s: Sys, ds: seq<Desc>, bytes: seq<byte>)
    requires Joint(g, q, s) && InMem(|s.mem|, Writable(ds)) && AddrSet(Writable(ds)) !! RingBytes(q)
    ensures InMem(|g|, Writable(ds)) && Represents(EndMem(g, ds, bytes), q, s)
    ensures OnlyIn(EndMem(s.mem, ds, bytes), EndMem(g, ds, bytes), RingBytes(q))
  {
    hide UsedRing, AvailRing, UsedBytes, AvailBytes, Scatter, Writable;
    var xs := Window(Writable(ds), 0, |bytes|);
    ScatterBoth(s.mem, g, xs, bytes[..|xs|], RingBytes(q));
    var g' := EndMem(g, ds, bytes);
    assert AddrSet(xs) <= AddrSet(Writable(ds));
    ScatterOnlyIn(g, xs, bytes[..|xs|], AddrSet(Writable(ds)));
    OnlyInAgrees(g, g', AddrSet(Writable(ds)), UsedBytes(q));
    OnlyInAgrees(g, g', AddrSet(Writable(ds)), AvailBytes(q));
    UsedRingKept(g, g', q, Elems(s.used), q.num);
    AvailRingKept(g, g', q, s.ring, s.availIdx);
  }

  /** The chain that is answered is that of a published request. */
  lemma AnsweredChain(c: Conf, s: Sys, i: nat, ds: seq<Desc>, s': Sys) returns (j: nat)
    requires Inv(c, s) && PutAnswer(c, s, i, ds, s')
    ensures j < |s.reqs| && ds == s.reqs[j].ds && InMem(|s.mem|, Writable(ds))
    ensures s'.pc.Publishing? && s'.mem == EndMem(s.mem, ds, s'.pc.entry.wrote)
  {
    hide Control, Storage, PayloadInv, HeapInv, EndMem, Answer, IsChain, Writable, PerformAll, WellBuilt, Foot,
        Landed, TaskFor;
    j := s.pool.slot[i].value.ticket;
    WorkerTask(c, s, i);
    InPool(c, s, i);
    assert Holds(c, s.mem, s.reqs[j]);
    ChainUnique(s.mem, c.table, s.reqs[j].head, ds, s.reqs[j].ds);
  }

  lemma RefusedChain(c: Conf, s: Sys, ds: seq<Desc>, s': Sys)
    requires Inv(c, s) && RefuseTask(c, s, ds, s')
    ensures s.popped < |s.reqs| && ds == s.reqs[s.popped].ds && InMem(|s.mem|, Writable(ds))
    ensures s'.pc.Refusing? && s'.mem == EndMem(s.mem, ds, Answer(s'.pc.task, [], false))
  {
    hide Control, Storage, PayloadInv, HeapInv, EndMem, Answer, IsChain, Writable, PerformAll, WellBuilt, Foot,
        Landed, TaskFor;
    InHandOutstanding(c, s);
    assert Holds(c, s.mem, s.reqs[s.popped]);
    ChainUnique(s.mem, c.table, s.reqs[s.popped].head, ds, s.reqs[s.popped].ds);
  }

  lemma WritableClear(t: nat, q: QueueState, reqs: seq<Request>, j: nat)
    requires ClearOfRings(t, q, reqs) && j < |reqs|
    ensures AddrSet(Writable(reqs[j].ds)) !! RingBytes(q)
  {
    hide RingBytes;
    assert AddrSet(Writable(reqs[j].ds)) <= Foot(t, reqs[j].head, reqs[j].ds);
  }

  lemma GuestJoint(g: seq<byte>, q: QueueState, s: Sys, m: seq<byte>)
    requires Joint(g, q, s) && |m| == |s.mem|
    ensures |m| == |g| && Represents(Overlay(m, g, RingBytes(q)), q, s)
        && OnlyIn(m, Overlay(m, g, RingBytes(q)), RingBytes(q))
  {
    hide UsedRing, AvailRing, UsedBytes, AvailBytes;
    var g' := Overlay(m, g, RingBytes(q));
    assert Agree(g, g', UsedBytes(q)) && Agree(g, g', AvailBytes(q));
    UsedRingKept(g, g', q, Elems(s.used), q.num);
    AvailRingKept(g, g', q, s.ring, s.availIdx);
  }

  lemma StoredJoint(g: seq<byte>, g': seq<byte>, q: QueueState, s: Sys, a: set<nat>)
    requires Joint(g, q, s) && OnlyIn(g, g', a) && a <= RingBytes(q)
    ensures OnlyIn(s.mem, g', RingBytes(q))
  {
    hide Represents, RingBytes;
    OnlyInThen(s.mem, g, g', RingBytes(q), a);
  }

  lemma CompletionJoint(g: seq<byte>, q: QueueState, s: Sys, e: Entry, s': Sys)
    requires Joint(g, q, s) && s'.used == s.used + [e]
    requires s'.ring == s.ring && s'.availIdx == s.availIdx && s'.mem == s.mem
    ensures q.num > 0 && Joint(Published(g, q, |s.used|, Elems(s'.used)[|s.used|]), q, s')
  {
    hide AvailRing, UsedRing, Published, AvailBytes, UsedBytes, Elems;
    NumPositive(g, q, s);
    CompletionRepresented(g, q, s.used, e, s.ring, s.availIdx);
    PublishedFrame(g, q, |s.used|, Elems(s'.used)[|s.used|]);
    StoredJoint(g, Published(g, q, |s.used|, Elems(s'.used)[|s.used|]), q, s, UsedBytes(q));
  }

  lemma PublishJoint(c: Conf, g: seq<byte>, q: QueueState, s: Sys, r: Request, s': Sys)
    requires Inv(c, s) && Publish(c, s, r, s') && Joint(g, q, s) && q.num == c.num
    ensures q.num > 0 && Joint(Offered(g, q, |s.reqs|, r.head), q, s')
  {
    hide Inv, AvailRing, UsedRing, Offered, AvailBytes, UsedBytes, WellBuilt, Holds, Foot, Elems;
    NumPositive(g, q, s);
    PublishFacts(c, s, r, s');
    OfferRepresented(g, q, Elems(s.used), s.ring, s.availIdx, |s.reqs|, r.head);
    OfferedFrame(g, q, |s.reqs|, r.head);
    StoredJoint(g, Offered(g, q, |s.reqs|, r.head), q, s, AvailBytes(q));
  }

  /** Every step has its counterpart in guest memory. */
  lemma StepJoint(c: Conf, g: seq<byte>, q: QueueState, s: Sys, step: Step, s': Sys) returns (g': seq<byte>)
    requires Inv(c, s) && Next(c, s, step, s') && Joint(g, q, s) && q.num == c.num && ClearOfRings(c.table, q, s.reqs)
    ensures JointStep(g, q, s, step, s', g') && Joint(g', q, s')
  {
    hide Inv, PutAnswer, RefuseTask, Publish, Answer, Perform, EndMem, Published, Offered, Elems, RingBytes, Foot,
        Writable;
    hide UsedRing, AvailRing, RingLayout, OnlyIn, ClearOfRings, Gather, LeavesAlone, Overlay;
    NumPositive(g, q, s);
    match step {
      case DoAnswer(i, ds) =>
        var j := AnsweredChain(c, s, i, ds, s');
        WritableClear(c.table, q, s.reqs, j);
        Untouched(c, s, step, s');
        AnswerJoint(g, q, s, ds, s'.pc.entry.wrote);
        g' := EndMem(g, ds, s'.pc.entry.wrote);
      case DoRefuse(ds) =>
        RefusedChain(c, s, ds, s');
        WritableClear(c.table, q, s.reqs, s.popped);
        Untouched(c, s, step, s');
        AnswerJoint(g, q, s, ds, Answer(s'.pc.task, [], false));
        g' := EndMem(g, ds, Answer(s'.pc.task, [], false));
      case DoReject =>
        CompletionJoint(g, q, s, s'.used[|s.used|], s');
        g' := Published(g, q, |s.used|, Elems(s'.used)[|s.used|]);
      case DoComplete =>
        CompletionJoint(g, q, s, s.pc.entry, s');
        g' := Published(g, q, |s.used|, Elems(s'.used)[|s.used|]);
      case DoPublish(r) =>
        PublishJoint(c, g, q, s, r, s');
        g' := Offered(g, q, |s.reqs|, r.head);
      case DoGuestWrite(m) =>
        SameSize(c, s, m, s');
        GuestJoint(g, q, s, m);
        g' := Overlay(m, g, RingBytes(q));
      case _ =>
        Untouched(c, s, step, s');
        g' := g;
    }
  }

  lemma SameSize(c: Conf, s: Sys, m: seq<byte>, s': Sys)
    requires GuestWrite(c, s, m, s')
    ensures |m| == |s.mem| && s'.mem == m
  {
  }

  lemma {:induction false} ReqsGrow(c: Conf, run: seq<Sys>, steps: seq<Step>, k: nat, n: nat)
    requires Run(c, run, steps) && k <= n < |run|
    ensures run[k].reqs <= run[n].reqs
    decreases n
  {
    hide Run, Inv, Next;
    if k < n {
      RunLength(c, run, steps);
      ReqsGrow(c, run, steps, k, n - 1);
      NoneSkipped(c, run, steps, n - 1);
    }
  }

  lemma RunLength(c: Conf, run: seq<Sys>, steps: seq<Step>)
    requires Run(c, run, steps)
    ensures |run| == |steps| + 1
  {
  }

  lemma ClearBefore(t: nat, q: QueueState, reqs: seq<Request>, reqs': seq<Request>)
    requires ClearOfRings(t, q, reqs') && reqs <= reqs'
    ensures ClearOfRings(t, q, reqs)
  {
    hide Foot, RingBytes;
  }

  /**
   Every run has its guest memories: each holds its state, rings and all, and each
   comes from the one before by its step.
   */
  lemma {:induction false} RunInOneMemory(c: Conf, run: seq<Sys>, steps: seq<Step>, q: QueueState, g0: seq<byte>,
                                          n: nat)
    returns (gs: seq<seq<byte>>)
    requires Run(c, run, steps) && q.num == c.num && Joint(g0, q, run[0]) && n < |run|
    requires ClearOfRings(c.table, q, run[n].reqs)
    ensures |gs| == n + 1 && gs[0] == g0
    ensures forall k :: 0 <= k <= n ==> Joint(gs[k], q, run[k])
    ensures forall k :: 0 <= k < n ==> JointStep(gs[k], q, run[k], steps[k], run[k + 1], gs[k + 1])
    decreases n
  {
    hide Inv, Next, Init, Joint, JointStep, ClearOfRings;
    if n == 0 {
      gs := [g0];
    } else {
      ReqsGrow(c, run, steps, n - 1, n);
      ClearBefore(c.table, q, run[n - 1].reqs, run[n].reqs);
      var front := RunInOneMemory(c, run, steps, q, g0, n - 1);
      RunKeepsInv(c, run, steps, n - 1);
      var g' := StepJoint(c, front[n - 1], q, run[n - 1], steps[n - 1], run[n]);
      gs := front + [g'];
      forall k | 0 <= k < n
        ensures JointStep(gs[k], q, run[k], steps[k], run[k + 1], gs[k + 1])
      {
        if k < n - 1 {
          assert JointStep(front[k], q, run[k], steps[k], run[k + 1], front[k + 1]);
        }
      }
    }
  }

  // What the guest reads

  /**
   What the bytes say in every reachable state: the used index is the number of
   completions modulo 2^16, the last num of them are in their slots, and every
   request not taken yet is in the slot of its publication number.
   */
  lemma BytesTell(c: Conf, run: seq<Sys>, steps: seq<Step>, k: nat, q: QueueState, m: seq<byte>, j: nat)
    requires Run(c, run, steps) && k < |run| && q.num == c.num && Represents(m, q, run[k])
    ensures Get16(m, q.used + 2) == |run[k].used| % U16 && AvailIdx(m, q) == |run[k].reqs| % U16
    ensures run[k].popped <= j < |run[k].reqs| ==> AvailHead(m, q, j) == run[k].reqs[j].head
    ensures j < |run[k].used| <= j + q.num ==>
              q.num > 0 && SlotHolds(m, SlotAddr(q, j), UsedElem(run[k].used[j].head, run[k].used[j].len))
  {
    hide Run, Storage, MemInv, PayloadInv, HeapInv, WorkerInv, Conserved, PcInv, LockInv, SlotHolds, SlotAddr,
        AvailBytes;
    hide UsedBytes;
    RunKeepsInv(c, run, steps, k);
    NumPositive(m, q, run[k]);
    HeadByCount(m, q, j);
  }

  lemma HeadByCount(m: seq<byte>, q: QueueState, j: nat)
    requires AvailLayout(|m|, q) && q.num > 0
    ensures 0 <= j % q.num < q.num && AvailHead(m, q, j) == AvailHead(m, q, j % q.num)
  {
    ModUnique(j % q.num, q.num, 0, j % q.num);
  }

  /** An answer clear of the rings reads the same in guest memory. */
  lemma LandedJoint(t: nat, m: seq<byte>, g: seq<byte>, q: QueueState, reqs: seq<Request>, j: nat, wrote: seq<byte>,
                    a: set<nat>)
    requires ClearOfRings(t, q, reqs) && j < |reqs| && OnlyIn(m, g, a) && a <= RingBytes(q) && Landed(m, reqs[j], wrote)
    ensures Landed(g, reqs[j], wrote)
  {
    hide Foot, RingBytes, Landed;
    OnlyInAgrees(m, g, a, Foot(t, reqs[j].head, reqs[j].ds));
    AgreeKeepsAnswer(Conf(0, t, 0, 0, []), m, g, reqs[j], wrote);
  }

  /** In one memory: every completion the used index shows, and the driver has not taken back, has its answer there. */
  lemma AnswersInMemory(c: Conf, run: seq<Sys>, steps: seq<Step>, k: nat, q: QueueState, g: seq<byte>, i: nat)
    requires Run(c, run, steps) && k < |run| && Joint(g, q, run[k]) && ClearOfRings(c.table, q, run[k].reqs)
    requires run[k].reaped <= i < |run[k].used|
    ensures run[k].used[i].ticket < |run[k].reqs| && Landed(g, run[k].reqs[run[k].used[i].ticket], run[k].used[i].wrote)
  {
    hide Run, Inv, Represents, ClearOfRings, RingBytes, Landed, OnlyIn;
    VisibleMeansAnswered(c, run, steps, k, i);
    var s := run[k];
    LandedJoint(c.table, s.mem, g, q, s.reqs, s.used[i].ticket, s.used[i].wrote, RingBytes(q));
  }

  /**
   At every store of a publication, in every run and in one memory: the index
   covers the new element only once the element is written, and all along the
   answer it stands for is there.
   */
  lemma StoresShowAnswer(c: Conf, run: seq<Sys>, steps: seq<Step>, k: nat, q: QueueState, g: seq<byte>, i: nat)
    requires Run(c, run, steps) && k < |steps| && (steps[k].DoReject? || steps[k].DoComplete?) && |run| == |steps| + 1
    requires Joint(g, q, run[k]) && ClearOfRings(c.table, q, run[k].reqs) && i < 4
    ensures |run[k + 1].used| == |run[k].used| + 1 && q.num > 0
    ensures var s, e := run[k], run[k + 1].used[|run[k].used|];
            var stage := Stages(g, q, |s.used|, Elems(run[k + 1].used)[|s.used|])[i];
            && (UsedRing(stage, q, Elems(s.used), q.num - 1) || UsedRing(stage, q, Elems(run[k + 1].used), q.num))
            && e.ticket < |s.reqs| && Landed(stage, s.reqs[e.ticket], e.wrote)
  {
    hide Inv, UsedRing, AvailRing, Landed, Published, StoreId, StoreLen, Perform, Answer, Elems, RingBytes, OnlyIn;
    hide ClearOfRings, UsedBytes, AvailBytes;
    assert Next(c, run[k], steps[k], run[k + 1]);
    RunKeepsInv(c, run, steps, k);
    var s, s' := run[k], run[k + 1];
    var x, e := Elems(s'.used)[|s.used|], s'.used[|s.used|];
    NumPositive(g, q, s);
    ElemsAppend(s.used, e);
    KeepFewer(g, q, Elems(s.used));
    StoresInOrder(g, q, Elems(s.used), x);
    AnswerIsThere(c, s);
    LandedJoint(c.table, s.mem, g, q, s.reqs, e.ticket, e.wrote, RingBytes(q));
    StageFrame(g, q, |s.used|, x, i);
    UsedInRings(q);
    LandedJoint(c.table, g, Stages(g, q, |s.used|, x)[i], q, s.reqs, e.ticket, e.wrote, UsedBytes(q));
  }

  lemma UsedInRings(q: QueueState)
    ensures UsedBytes(q) <= RingBytes(q)
  {
  }

  lemma ElemsAppend(used: seq<Entry>, e: Entry)
    ensures Elems(used + [e]) == Elems(used) + [Elems(used + [e])[|used|]]
  {
  }

  lemma AnswerIsThere(c: Conf, s: Sys)
    requires Inv(c, s)
    ensures s.pc.Publishing? ==>
              && s.pc.entry.ticket < |s.reqs|
              && Landed(s.mem, s.reqs[s.pc.entry.ticket], s.pc.entry.wrote)
    ensures s.pc.Refusing? ==>
              && s.pc.task.ticket < |s.reqs|
              && Landed(s.mem, s.reqs[s.pc.task.ticket], Answer(s.pc.task, [], false))
  {
    hide Storage, MemInv, HeapInv, Landed, Answer, WorkerInv, Conserved, RingInv, MakeTask, KindOf;
    if s.pc.Refusing? {
      InHandOutstanding(c, s);
    }
  }
}
