/**
 The host heap under the block request machine: every block is used and
 released only while it is live, and released once.
 */
module BlockHeap {
  import opened Chains
  import opened PoolSpec
  import opened BlockModel
  import opened BlockInvariant
  import opened BlockControl

  /** Only worker i carries its request, so that request's live blocks are those of its phase. */
  lemma CarriedBy(pool: Pool<Task>, phase: seq<Phase>, i: nat, h: Handle)
    requires |phase| == |pool.slot| && i < |phase|
    requires pool.slot[i].Some? && pool.slot[i].value.ticket == h.ticket
    requires forall k :: 0 <= k < |phase| && k != i ==> !SameTicket(pool.slot[k], pool.slot[i])
    ensures CarriedLive(pool, phase, h) <==> BlockLive(pool.slot[i].value.kind, phase[i], h.block)
  {
    if CarriedLive(pool, phase, h) {
      var k :| 0 <= k < |phase| && pool.slot[k].Some? && pool.slot[k].value.ticket == h.ticket
               && BlockLive(pool.slot[k].value.kind, phase[k], h.block);
      assert SameTicket(pool.slot[k], pool.slot[i]);
    }
  }

  /** A move of worker i concerns the blocks of its own request only. */
  lemma OtherCarried(pool: Pool<Task>, phase: seq<Phase>, pool': Pool<Task>, phase': seq<Phase>, i: nat, j: nat,
                     h: Handle)
    requires |phase| == |pool.slot| == |pool'.slot| == |phase'| && i < |phase|
    requires forall k :: 0 <= k < |phase| && k != i ==> pool'.slot[k] == pool.slot[k] && phase'[k] == phase[k]
    requires pool.slot[i].Some? ==> pool.slot[i].value.ticket == j
    requires pool'.slot[i].Some? ==> pool'.slot[i].value.ticket == j
    requires h.ticket != j
    ensures CarriedLive(pool, phase, h) <==> CarriedLive(pool', phase', h)
  {
    if CarriedLive(pool, phase, h) {
      var k :| 0 <= k < |phase| && pool.slot[k].Some? && pool.slot[k].value.ticket == h.ticket
               && BlockLive(pool.slot[k].value.kind, phase[k], h.block);
      assert k != i;
      assert pool'.slot[k].Some? && pool'.slot[k].value.ticket == h.ticket
             && BlockLive(pool'.slot[k].value.kind, phase'[k], h.block);
    }
    if CarriedLive(pool', phase', h) {
      var k :| 0 <= k < |phase| && pool'.slot[k].Some? && pool'.slot[k].value.ticket == h.ticket
               && BlockLive(pool'.slot[k].value.kind, phase'[k], h.block);
      assert k != i;
      assert pool.slot[k].Some? && pool.slot[k].value.ticket == h.ticket
             && BlockLive(pool.slot[k].value.kind, phase[k], h.block);
    }
  }

  /** A request that no worker carries has no carried blocks. */
  lemma NotCarried(pool: Pool<Task>, phase: seq<Phase>, to: Option<nat>, popped: nat, reqs: seq<Request>, h: Handle)
    requires WorkerInv(pool, phase, to, popped, reqs)
    requires h.ticket >= popped
    ensures !CarriedLive(pool, phase, h)
  {
    hide TaskFor, KindOf;
    forall i | 0 <= i < |phase| && pool.slot[i].Some?
      ensures pool.slot[i].value.ticket != h.ticket
    {
      assert WorkerOk(pool.working[i], pool.slot[i], phase[i], to == Some(i), popped, reqs);
    }
  }

  /**
   How a step that concerns request j only changes what should be live: nothing
   for other requests, and for j what the caller says.
   */
  lemma HeapMoves(s: Sys, s': Sys, j: nat)
    requires HeapInv(s.heap, s.pc, s.pool, s.phase, s.reqs, s.popped)
    requires |s'.phase| == |s'.pool.slot| && s'.popped <= |s'.reqs|
    requires s'.heap.ok
    requires s'.pc.Refusing? ==> s'.pc.task.ticket < |s'.reqs|
    requires forall h: Handle :: h.ticket != j ==>
               && (h in s'.heap.live <==> h in s.heap.live)
               && (h in s'.heap.freed <==> h in s.heap.freed)
               && (ShouldLive(s'.pc, s'.pool, s'.phase, s'.reqs, s'.popped, h)
                   <==> ShouldLive(s.pc, s.pool, s.phase, s.reqs, s.popped, h))
               && (Touched(s'.pc, s'.reqs, s'.popped, h.ticket) <==> Touched(s.pc, s.reqs, s.popped, h.ticket))
    requires forall b: Block ::
               var h := Hnd(j, b);
               && (h in s'.heap.live <==> ShouldLive(s'.pc, s'.pool, s'.phase, s'.reqs, s'.popped, h))
               && (h in s'.heap.freed <==> Touched(s'.pc, s'.reqs, s'.popped, j)
                                           && !ShouldLive(s'.pc, s'.pool, s'.phase, s'.reqs, s'.popped, h))
    ensures HeapInv(s'.heap, s'.pc, s'.pool, s'.phase, s'.reqs, s'.popped)
  {
    hide ShouldLive, Touched, KindOf;
    forall h: Handle
      ensures h in s'.heap.live <==> ShouldLive(s'.pc, s'.pool, s'.phase, s'.reqs, s'.popped, h)
      ensures h in s'.heap.freed <==> Touched(s'.pc, s'.reqs, s'.popped, h.ticket)
                                      && !ShouldLive(s'.pc, s'.pool, s'.phase, s'.reqs, s'.popped, h)
    {
      if h.ticket == j {
        assert h == Hnd(j, h.block);
      }
    }
  }

  // Steps of a worker

  /** The blocks that request j gives up when its worker moves from phase p to phase q. */
  function GivenUp(j: nat, kind: Kind, p: Phase, q: Phase): set<Handle> {
    set b | b in {Arg, Buf, Rec} && BlockLive(kind, p, b) && !BlockLive(kind, q, b) :: Hnd(j, b)
  }

  /** Worker i, carrying request j, moves on and releases exactly what its new phase no longer keeps. */
  ghost predicate WorkerReleases(s: Sys, s': Sys, i: nat, q: Phase) {
    && |s.phase| == |s.pool.slot| && i < |s.phase| && s.pool.slot[i].Some?
    && var task := s.pool.slot[i].value;
    && s'.phase == s.phase[i := q]
    && s'.pool.slot == (if q.Clearing? then s.pool.slot[i := None] else s.pool.slot)
    && Hand(s'.pc) == Hand(s.pc) && s'.pc.Refusing? == s.pc.Refusing? && s'.reqs == s.reqs && s'.popped == s.popped
    && (forall b :: BlockLive(task.kind, q, b) ==> BlockLive(task.kind, s.phase[i], b))
    && var gone := GivenUp(task.ticket, task.kind, s.phase[i], q);
    && s'.heap == Heap(s.heap.live - gone, s.heap.freed + gone, true)
  }

  lemma CarriedFacts(c: Conf, s: Sys, i: nat)
    requires Control(c, s) && i < |s.phase| && s.pool.slot[i].Some?
    ensures |s.phase| == |s.pool.slot|
    ensures var task := s.pool.slot[i].value;
            && task.ticket < s.popped <= |s.reqs|
            && task.kind == s.reqs[task.ticket].Kind() && !task.kind.Skip?
            && (InHand(s.pc) ==> s.pc.task.ticket == s.popped)
            && forall k :: 0 <= k < |s.phase| && k != i ==> !SameTicket(s.pool.slot[k], s.pool.slot[i])
  {
    hide KindOf, MakeTask, Conserved, RingInv;
    assert WorkerOk(s.pool.working[i], s.pool.slot[i], s.phase[i], Reserved(s.pc) == Some(i), s.popped, s.reqs);
    TaskTicket(s.pool.slot[i].value.ticket, s.reqs[s.pool.slot[i].value.ticket]);
    if InHand(s.pc) {
      TaskTicket(s.popped, s.reqs[s.popped]);
    }
  }

  lemma HeapWorker(c: Conf, s: Sys, s': Sys, i: nat, q: Phase)
    requires Control(c, s) && HeapInv(s.heap, s.pc, s.pool, s.phase, s.reqs, s.popped)
    requires WorkerReleases(s, s', i, q)
    ensures HeapInv(s'.heap, s'.pc, s'.pool, s'.phase, s'.reqs, s'.popped)
  {
    hide Control, KindOf, CarriedLive, BlockLive;
    CarriedFacts(c, s, i);
    var task := s.pool.slot[i].value;
    var j := task.ticket;
    SameHand(s.pc, s'.pc);
    forall h: Handle | h.ticket != j
      ensures CarriedLive(s.pool, s.phase, h) <==> CarriedLive(s'.pool, s'.phase, h)
    {
      OtherCarried(s.pool, s.phase, s'.pool, s'.phase, i, j, h);
    }
    forall b: Block
      ensures CarriedLive(s.pool, s.phase, Hnd(j, b)) <==> BlockLive(task.kind, s.phase[i], b)
      ensures CarriedLive(s'.pool, s'.phase, Hnd(j, b)) <==> BlockLive(task.kind, q, b)
      ensures Hnd(j, b) in GivenUp(j, task.kind, s.phase[i], q)
              <==> BlockLive(task.kind, s.phase[i], b) && !BlockLive(task.kind, q, b)
    {
      CarriedBy(s.pool, s.phase, i, Hnd(j, b));
      if q.Clearing? {
        GoneFromSlot(s.pool, s.phase, s'.pool, s'.phase, i, Hnd(j, b));
      } else {
        CarriedBy(s'.pool, s'.phase, i, Hnd(j, b));
      }
      assert b in {Arg, Buf, Rec};
    }
    HeapMoves(s, s', j);
  }

  lemma SameHand(pc: Pc, pc': Pc)
    requires Hand(pc) == Hand(pc')
    ensures InHand(pc) == InHand(pc')
    ensures InHand(pc) ==> pc.task.ticket == pc'.task.ticket
  {
    assert |Hand(pc)| == (if InHand(pc) then 1 else 0);
    assert |Hand(pc')| == (if InHand(pc') then 1 else 0);
    if InHand(pc) {
      assert pc.task.ticket in Hand(pc');
    }
  }

  lemma GoneFromSlot(pool: Pool<Task>, phase: seq<Phase>, pool': Pool<Task>, phase': seq<Phase>, i: nat, h: Handle)
    requires |phase| == |pool.slot| && i < |phase|
    requires pool.slot[i].Some? && pool.slot[i].value.ticket == h.ticket
    requires forall k :: 0 <= k < |phase| && k != i ==> !SameTicket(pool.slot[k], pool.slot[i])
    requires pool'.slot == pool.slot[i := None] && phase' == phase[i := Clearing]
    ensures !CarriedLive(pool', phase', h)
    ensures !BlockLive(pool.slot[i].value.kind, Clearing, h.block)
  {
    forall k | 0 <= k < |phase'| && pool'.slot[k].Some?
      ensures pool'.slot[k].value.ticket != h.ticket
    {
      assert !SameTicket(pool.slot[k], pool.slot[i]);
    }
  }

  lemma LiveOfCarried(c: Conf, s: Sys, i: nat, b: Block)
    requires Control(c, s) && HeapInv(s.heap, s.pc, s.pool, s.phase, s.reqs, s.popped)
    requires i < |s.phase| && s.pool.slot[i].Some?
    requires BlockLive(s.pool.slot[i].value.kind, s.phase[i], b)
    ensures Hnd(s.pool.slot[i].value.ticket, b) in s.heap.live
  {
    hide Control, KindOf, BlockLive;
    var h := Hnd(s.pool.slot[i].value.ticket, b);
    assert CarriedLive(s.pool, s.phase, h);
    assert ShouldLive(s.pc, s.pool, s.phase, s.reqs, s.popped, h);
  }

  lemma HeapWorkerIo(c: Conf, s: Sys, i: nat, n: nat, err: bool, s': Sys)
    requires Inv(c, s) && WorkerIo(s, i, n, err, s')
    ensures HeapInv(s'.heap, s'.pc, s'.pool, s'.phase, s'.reqs, s'.popped)
  {
    hide Control, Storage, MemInv, HeapInv, KindOf, Pread, Apply, Count;
    CarriedFacts(c, s, i);
    var task, q := s.pool.slot[i].value, s'.phase[i];
    var j := task.ticket;
    LiveOfCarried(c, s, i, Rec);
    LiveOfCarried(c, s, i, Buf);
    assert s.heap.ok by { HeapOk(s); }
    if task.kind.Out? {
      var ops := [Use(Hnd(j, Rec)), Use(Hnd(j, Buf)), Free(Hnd(j, Buf))];
      assert [Use(Hnd(j, Rec)), Use(Hnd(j, Buf))] + [Free(Hnd(j, Buf))] == ops;
      assert GivenUp(j, task.kind, Idle, q) == {Hnd(j, Buf)};
      PerformThree(s.heap, ops);
    } else {
      var ops := [Use(Hnd(j, Rec)), Use(Hnd(j, Buf))];
      assert ops + [] == ops;
      assert GivenUp(j, task.kind, Idle, q) == {};
      PerformTwo(s.heap, ops);
    }
    HeapWorker(c, s, s', i, q);
  }

  lemma HeapOk(s: Sys)
    requires HeapInv(s.heap, s.pc, s.pool, s.phase, s.reqs, s.popped)
    ensures s.heap.ok
  {
  }

  lemma PerformTwo(h: Heap, ops: seq<HeapOp>)
    requires |ops| == 2
    ensures PerformAll(h, ops) == Perform(Perform(h, ops[0]), ops[1])
  {
    hide Perform;
    assert ops[1..][0] == ops[1] && ops[1..][1..] == [];
    assert PerformAll(h, ops) == PerformAll(Perform(h, ops[0]), ops[1..]);
  }

  lemma PerformThree(h: Heap, ops: seq<HeapOp>)
    requires |ops| == 3
    ensures PerformAll(h, ops) == Perform(Perform(Perform(h, ops[0]), ops[1]), ops[2])
  {
    hide Perform;
    PerformTwo(Perform(h, ops[0]), ops[1..]);
    assert PerformAll(h, ops) == PerformAll(Perform(h, ops[0]), ops[1..]);
  }

  lemma PerformFour(h: Heap, ops: seq<HeapOp>)
    requires |ops| == 4
    ensures PerformAll(h, ops) == Perform(Perform(Perform(Perform(h, ops[0]), ops[1]), ops[2]), ops[3])
  {
    hide Perform;
    PerformThree(Perform(h, ops[0]), ops[1..]);
    assert PerformAll(h, ops) == PerformAll(Perform(h, ops[0]), ops[1..]);
  }

  lemma HeapAnswer(c: Conf, s: Sys, i: nat, ds: seq<Desc>, s': Sys)
    requires Inv(c, s) && PutAnswer(c, s, i, ds, s')
    ensures HeapInv(s'.heap, s'.pc, s'.pool, s'.phase, s'.reqs, s'.popped)
  {
    hide Control, Storage, MemInv, HeapInv, KindOf, EndMem, Answer, IsChain, Writable;
    CarriedFacts(c, s, i);
    var task := s.pool.slot[i].value;
    var j := task.ticket;
    LiveOfCarried(c, s, i, Rec);
    LiveOfCarried(c, s, i, Arg);
    assert s.heap.ok by { HeapOk(s); }
    if task.kind.In? {
      LiveOfCarried(c, s, i, Buf);
      var ops := [Use(Hnd(j, Rec)), Use(Hnd(j, Arg)), Use(Hnd(j, Buf)), Free(Hnd(j, Buf))];
      assert [Use(Hnd(j, Rec)), Use(Hnd(j, Arg))] + [Use(Hnd(j, Buf)), Free(Hnd(j, Buf))] == ops;
      assert GivenUp(j, task.kind, s.phase[i], Answered) == {Hnd(j, Buf)};
      PerformFour(s.heap, ops);
    } else {
      var ops := [Use(Hnd(j, Rec)), Use(Hnd(j, Arg))];
      assert ops + [] == ops;
      assert GivenUp(j, task.kind, s.phase[i], Answered) == {};
      PerformTwo(s.heap, ops);
    }
    HeapWorker(c, s, s', i, Answered);
  }

  lemma HeapComplete(c: Conf, s: Sys, s': Sys)
    requires Inv(c, s) && Complete(s, s')
    ensures HeapInv(s'.heap, s'.pc, s'.pool, s'.phase, s'.reqs, s'.popped)
  {
    hide RingInv, WorkerInv, Conserved, LogInv, DoneInv, UsedInv, OrderInv, MemInv, PayloadInv, HeapInv, KindOf;
    hide EntryOk;
    var i := s.pc.who.id;
    var task := s.pool.slot[i].value;
    assert s.phase[i].Answered?;
    assert s.heap.ok by { HeapOk(s); }
    assert GivenUp(task.ticket, task.kind, Answered, Ended) == {};
    assert s.heap == Heap(s.heap.live - {}, s.heap.freed + {}, true);
    HeapWorker(c, s, s', i, Ended);
  }

  lemma HeapSnapshot(c: Conf, s: Sys, s': Sys)
    requires Inv(c, s) && Snapshot(s, s')
    ensures HeapInv(s'.heap, s'.pc, s'.pool, s'.phase, s'.reqs, s'.popped)
  {
    hide Storage, MemInv, PayloadInv, HeapInv, KindOf, RingInv, Conserved, WorkerInv;
    if s.pc.who.Worker? {
      assert s.phase[s.pc.who.id].Ended?;
      LiveOfCarried(c, s, s.pc.who.id, Arg);
      assert s'.heap == s.heap by { HeapOk(s); }
    }
    HeapSame(s, s');
  }

  lemma HeapEndDrain(c: Conf, s: Sys, s': Sys)
    requires Inv(c, s) && EndDrain(s, s')
    ensures HeapInv(s'.heap, s'.pc, s'.pool, s'.phase, s'.reqs, s'.popped)
  {
    hide Storage, MemInv, HeapInv, KindOf, RingInv, Conserved, WorkerInv;
    if s.pc.who.Worker? {
      var i := s.pc.who.id;
      assert s.phase[i].Ended?;
      var task := s.pool.slot[i].value;
      CarriedFacts(c, s, i);
      LiveOfCarried(c, s, i, Arg);
      assert s.heap.ok by { HeapOk(s); }
      assert GivenUp(task.ticket, task.kind, Ended, Returned) == {Hnd(task.ticket, Arg)};
      HeapWorker(c, s, s', i, Returned);
    } else {
      HeapSame(s, s');
    }
  }

  /** Steps that change neither the pool nor what is in hand. */
  lemma HeapSame(s: Sys, s': Sys)
    requires HeapInv(s.heap, s.pc, s.pool, s.phase, s.reqs, s.popped)
    requires Hand(s'.pc) == Hand(s.pc) && s'.pc.Refusing? == s.pc.Refusing?
    requires s'.heap == s.heap && s'.pool.slot == s.pool.slot && s'.phase == s.phase
    requires s.reqs <= s'.reqs && s'.popped == s.popped
    ensures HeapInv(s'.heap, s'.pc, s'.pool, s'.phase, s'.reqs, s'.popped)
  {
    hide KindOf, BlockLive;
    SameHand(s.pc, s'.pc);
    forall h: Handle
      ensures ShouldLive(s'.pc, s'.pool, s'.phase, s'.reqs, s'.popped, h)
          <==> ShouldLive(s.pc, s.pool, s.phase, s.reqs, s.popped, h)
    {
      assert CarriedLive(s'.pool, s'.phase, h) <==> CarriedLive(s.pool, s.phase, h);
    }
  }

  lemma HeapDrop(c: Conf, s: Sys, i: nat, s': Sys)
    requires Inv(c, s) && DropTask(s, i, s')
    ensures HeapInv(s'.heap, s'.pc, s'.pool, s'.phase, s'.reqs, s'.popped)
  {
    hide Control, Storage, MemInv, HeapInv, KindOf;
    var task := s.pool.slot[i].value;
    CarriedFacts(c, s, i);
    LiveOfCarried(c, s, i, Rec);
    assert s.heap.ok by { HeapOk(s); }
    assert GivenUp(task.ticket, task.kind, Returned, Clearing) == {Hnd(task.ticket, Rec)};
    HeapWorker(c, s, s', i, Clearing);
  }

  lemma HeapClear(c: Conf, s: Sys, i: nat, s': Sys)
    requires Inv(c, s) && ClearFlag(s, i, s')
    ensures HeapInv(s'.heap, s'.pc, s'.pool, s'.phase, s'.reqs, s'.popped)
  {
    hide Storage, MemInv, KindOf, BlockLive, Conserved, RingInv, MakeTask;
    assert WorkerOk(s.pool.working[i], s.pool.slot[i], s.phase[i], Reserved(s.pc) == Some(i), s.popped, s.reqs);
    forall h: Handle
      ensures CarriedLive(s'.pool, s'.phase, h) <==> CarriedLive(s.pool, s.phase, h)
    {
      OtherCarried(s.pool, s.phase, s'.pool, s'.phase, i, h.ticket + 1, h);
    }
  }

  // Steps of the drain

  lemma PopSkipFacts(c: Conf, s: Sys, ds: seq<Desc>, s': Sys)
    requires Inv(c, s) && PopSkip(c, s, ds, s')
    ensures s.popped < |s.reqs| && !InHand(s.pc) && s'.pc == s.pc && Reserved(s.pc) == None
    ensures s'.pool == s.pool && s'.phase == s.phase && s'.reqs == s.reqs && s'.popped == s.popped + 1
    ensures s.reqs[s.popped].Kind().Skip?
    ensures s'.heap == if s.reqs[s.popped].Kind().leak then Perform(s.heap, Malloc(Hnd(s.popped, Arg))) else s.heap
    ensures WorkerInv(s.pool, s.phase, None, s.popped, s.reqs)
    ensures HeapInv(s.heap, s.pc, s.pool, s.phase, s.reqs, s.popped)
  {
    hide Storage, MemInv, KindOf, Conserved, RingInv, WorkerInv, IsChain, Readable, HeapInv, Perform;
    assert Storage(c, s) && MemInv(c, s.mem, s.reqs, s.used, s.reaped);
    assert UsedInv(s.used, s.log, s.reqs, s.popped) by { StorageUsed(c, s); }
    PopsNext(c, s, ds);
  }

  lemma HeapPopSkip(c: Conf, s: Sys, ds: seq<Desc>, s': Sys)
    requires Inv(c, s) && PopSkip(c, s, ds, s')
    ensures HeapInv(s'.heap, s'.pc, s'.pool, s'.phase, s'.reqs, s'.popped)
  {
    hide Inv, PopSkip, KindOf, WorkerInv, CarriedLive;
    PopSkipFacts(c, s, ds, s');
    var j := s.popped;
    forall b: Block
      ensures !CarriedLive(s.pool, s.phase, Hnd(j, b))
    {
      NotCarried(s.pool, s.phase, None, s.popped, s.reqs, Hnd(j, b));
    }
    HeapMoves(s, s', j);
  }

  lemma PopRequestFacts(c: Conf, s: Sys, ds: seq<Desc>, s': Sys)
    requires Inv(c, s) && PopRequest(c, s, ds, s')
    ensures s.popped < |s.reqs| && !InHand(s.pc) && s'.pc.Scanning? && s'.pc.task.ticket == s.popped
    ensures s'.pool == s.pool && s'.phase == s.phase && s'.reqs == s.reqs && s'.popped == s.popped
    ensures s'.heap == PerformAll(s.heap,
        [Malloc(Hnd(s.popped, Arg)), Malloc(Hnd(s.popped, Buf)), Malloc(Hnd(s.popped, Rec))])
    ensures WorkerInv(s.pool, s.phase, None, s.popped, s.reqs)
    ensures HeapInv(s.heap, s.pc, s.pool, s.phase, s.reqs, s.popped)
  {
    hide Storage, MemInv, KindOf, Conserved, RingInv, WorkerInv, IsChain, Readable, HeapInv, MakeTask, PerformAll;
    assert Storage(c, s) && MemInv(c, s.mem, s.reqs, s.used, s.reaped);
    assert UsedInv(s.used, s.log, s.reqs, s.popped) by { StorageUsed(c, s); }
    PopsNext(c, s, ds);
    TaskTicket(s.popped, s.reqs[s.popped]);
  }

  lemma StorageUsed(c: Conf, s: Sys)
    requires Storage(c, s)
    ensures UsedInv(s.used, s.log, s.reqs, s.popped)
  {
  }

  lemma HeapPopRequest(c: Conf, s: Sys, ds: seq<Desc>, s': Sys)
    requires Inv(c, s) && PopRequest(c, s, ds, s')
    ensures HeapInv(s'.heap, s'.pc, s'.pool, s'.phase, s'.reqs, s'.popped)
  {
    hide Inv, PopRequest, KindOf, WorkerInv, CarriedLive, PerformAll;
    PopRequestFacts(c, s, ds, s');
    var j := s.popped;
    forall b: Block
      ensures !CarriedLive(s.pool, s.phase, Hnd(j, b))
      ensures Hnd(j, b) !in s.heap.live && Hnd(j, b) !in s.heap.freed
    {
      NotCarried(s.pool, s.phase, None, s.popped, s.reqs, Hnd(j, b));
      assert !ShouldLive(s.pc, s.pool, s.phase, s.reqs, s.popped, Hnd(j, b));
    }
    PopHeap(s.heap, j);
    forall b: Block
      ensures Hnd(j, b) in s'.heap.live && Hnd(j, b) !in s'.heap.freed
    {
      assert b == Arg || b == Buf || b == Rec;
    }
    HeapMoves(s, s', j);
  }

  lemma PopHeap(h: Heap, j: nat)
    requires h.ok && forall b :: Hnd(j, b) !in h.live && Hnd(j, b) !in h.freed
    ensures PerformAll(h, [Malloc(Hnd(j, Arg)), Malloc(Hnd(j, Buf)), Malloc(Hnd(j, Rec))])
         == Heap(h.live + {Hnd(j, Arg), Hnd(j, Buf), Hnd(j, Rec)}, h.freed, true)
  {
    PerformThree(h, [Malloc(Hnd(j, Arg)), Malloc(Hnd(j, Buf)), Malloc(Hnd(j, Rec))]);
    assert h.live + {Hnd(j, Arg)} + {Hnd(j, Buf)} + {Hnd(j, Rec)} == h.live + {Hnd(j, Arg), Hnd(j, Buf), Hnd(j, Rec)};
  }

  lemma HeapHandOver(c: Conf, s: Sys, s': Sys)
    requires Inv(c, s) && HandOverTask(s, s')
    ensures HeapInv(s'.heap, s'.pc, s'.pool, s'.phase, s'.reqs, s'.popped)
  {
    hide Storage, MemInv, KindOf, Conserved, RingInv, MakeTask, CarriedLive;
    var i, j := s.pc.to, s.popped;
    TaskTicket(j, s.reqs[j]);
    assert WorkerOk(s.pool.working[i], s.pool.slot[i], s.phase[i], true, s.popped, s.reqs);
    forall k | 0 <= k < |s.phase| && k != i
      ensures !SameTicket(s'.pool.slot[k], s'.pool.slot[i])
    {
      assert WorkerOk(s.pool.working[k], s.pool.slot[k], s.phase[k], Reserved(s.pc) == Some(k), s.popped, s.reqs);
    }
    forall h: Handle | h.ticket != j
      ensures CarriedLive(s.pool, s.phase, h) <==> CarriedLive(s'.pool, s'.phase, h)
    {
      OtherCarried(s.pool, s.phase, s'.pool, s'.phase, i, j, h);
    }
    forall b: Block
      ensures CarriedLive(s'.pool, s'.phase, Hnd(j, b))
    {
      CarriedBy(s'.pool, s'.phase, i, Hnd(j, b));
    }
    HeapMoves(s, s', j);
  }

  lemma HeapRefuse(c: Conf, s: Sys, ds: seq<Desc>, s': Sys)
    requires Inv(c, s) && RefuseTask(c, s, ds, s')
    ensures HeapInv(s'.heap, s'.pc, s'.pool, s'.phase, s'.reqs, s'.popped)
  {
    hide Storage, MemInv, KindOf, Conserved, RingInv, WorkerInv, MakeTask, CarriedLive, IsChain, Writable, EndMem;
    hide Answer;
    hide PayloadInv, PerformAll;
    var j := s.popped;
    TaskTicket(j, s.reqs[j]);
    forall b: Block
      ensures Hnd(j, b) in s.heap.live && !CarriedLive(s.pool, s.phase, Hnd(j, b))
    {
      assert ShouldLive(s.pc, s.pool, s.phase, s.reqs, s.popped, Hnd(j, b));
      NotCarried(s.pool, s.phase, Reserved(s.pc), s.popped, s.reqs, Hnd(j, b));
    }
    RefuseHeap(s.heap, j, s.pc.task.kind.Out?);
    HeapMoves(s, s', j);
  }

  lemma RefuseHeap(h: Heap, j: nat, out: bool)
    requires h.ok && forall b :: Hnd(j, b) in h.live
    ensures var gone := {Hnd(j, Buf), Hnd(j, Rec)};
            PerformAll(h, [Free(Hnd(j, Rec))]
                          + (if out then [Free(Hnd(j, Buf)), Use(Hnd(j, Arg))]
                             else [Use(Hnd(j, Arg)), Use(Hnd(j, Buf)), Free(Hnd(j, Buf))]))
            == Heap(h.live - gone, h.freed + gone, true)
  {
    var gone := {Hnd(j, Buf), Hnd(j, Rec)};
    if out {
      var ops := [Free(Hnd(j, Rec)), Free(Hnd(j, Buf)), Use(Hnd(j, Arg))];
      assert ops == [Free(Hnd(j, Rec))] + [Free(Hnd(j, Buf)), Use(Hnd(j, Arg))];
      PerformThree(h, ops);
    } else {
      var ops := [Free(Hnd(j, Rec)), Use(Hnd(j, Arg)), Use(Hnd(j, Buf)), Free(Hnd(j, Buf))];
      assert ops == [Free(Hnd(j, Rec))] + [Use(Hnd(j, Arg)), Use(Hnd(j, Buf)), Free(Hnd(j, Buf))];
      PerformFour(h, ops);
    }
    assert h.live - {Hnd(j, Rec)} - {Hnd(j, Buf)} == h.live - gone;
    assert h.freed + {Hnd(j, Rec)} + {Hnd(j, Buf)} == h.freed + gone;
  }

  lemma HeapReject(c: Conf, s: Sys, s': Sys)
    requires Inv(c, s) && RejectTask(s, s')
    ensures HeapInv(s'.heap, s'.pc, s'.pool, s'.phase, s'.reqs, s'.popped)
  {
    hide Storage, MemInv, KindOf, Conserved, RingInv, WorkerInv, MakeTask, CarriedLive, Answer, PayloadInv;
    var j := s.popped;
    TaskTicket(j, s.reqs[j]);
    forall b: Block
      ensures !CarriedLive(s.pool, s.phase, Hnd(j, b))
      ensures Hnd(j, b) in s.heap.live <==> b == Arg
    {
      NotCarried(s.pool, s.phase, Reserved(s.pc), s.popped, s.reqs, Hnd(j, b));
      assert ShouldLive(s.pc, s.pool, s.phase, s.reqs, s.popped, Hnd(j, b)) <==> b == Arg;
    }
    HeapMoves(s, s', j);
  }
}
