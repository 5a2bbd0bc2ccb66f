/**
 Guest memory under the block request machine: a completion writes only the
 writable part of its own request, so every other request the driver has handed
 over, and every answer it has not taken back yet, stays as it is.
 */
module BlockMemory {
  import opened Words
  import opened Chains
  import opened QueueCopy
  import opened BlockModel
  import opened BlockInvariant

  /** A request that is not written to is still there. */
  lemma AgreeKeepsRequest(c: Conf, m: seq<byte>, m': seq<byte>, r: Request)
    requires Holds(c, m, r)
    requires Agree(m, m', Foot(c.table, r.head, r.ds))
    ensures Holds(c, m', r)
  {
    hide IsChain;
    AgreeKeepsChain(m, m', c.table, r.head, r.ds);
    AgreeKeepsGather(m, m', Readable(r.ds));
  }

  lemma AgreeKeepsAnswer(c: Conf, m: seq<byte>, m': seq<byte>, r: Request, wrote: seq<byte>)
    requires Landed(m, r, wrote)
    requires Agree(m, m', Foot(c.table, r.head, r.ds))
    ensures Landed(m', r, wrote)
  {
    var xs := Window(Writable(r.ds), 0, |wrote|);
    assert AddrSet(xs) <= AddrSet(Writable(r.ds));
    AgreeKeepsGather(m, m', xs);
  }

  lemma WritableInMem(c: Conf, r: Request)
    requires WellBuilt(c, r)
    ensures InMem(c.size, Writable(r.ds))
  {
    RunInMem(c.size, SkipReadable(r.ds), true);
  }

  lemma FootHasWritable(c: Conf, r: Request)
    ensures AddrSet(Writable(r.ds)) <= Foot(c.table, r.head, r.ds)
  {
  }

  /** An answer is written inside the writable part of its own request. */
  lemma AnswerAgrees(m: seq<byte>, ds: seq<Desc>, bytes: seq<byte>, a: set<nat>)
    requires InMem(|m|, Writable(ds))
    requires a !! AddrSet(Writable(ds))
    ensures Agree(m, EndMem(m, ds, bytes), a)
  {
    var xs := Window(Writable(ds), 0, |bytes|);
    forall x | x in a && x < |m|
      ensures EndMem(m, ds, bytes)[x] == m[x]
    {
      assert x !in AddrSet(Writable(ds));
      assert forall i :: 0 <= i < |xs| ==> xs[i] in Writable(ds);
      ScatterFrame(m, xs, bytes[..|xs|], x);
    }
  }

  lemma AnswerLands(c: Conf, m: seq<byte>, r: Request, bytes: seq<byte>)
    requires |m| == c.size && WellBuilt(c, r) && |bytes| <= |Writable(r.ds)|
    ensures InMem(|m|, Writable(r.ds))
    ensures Landed(EndMem(m, r.ds, bytes), r, bytes)
  {
    WritableInMem(c, r);
    var xs := Window(Writable(r.ds), 0, |bytes|);
    assert Distinct(xs);
    assert bytes[..|xs|] == bytes;
    ScatterGather(m, xs, bytes);
  }

  /** A request's own answer leaves its chain and its readable bytes as they are. */
  lemma OwnAnswerKeeps(c: Conf, m: seq<byte>, r: Request, bytes: seq<byte>)
    requires |m| == c.size && WellBuilt(c, r) && Holds(c, m, r) && InMem(|m|, Writable(r.ds))
    ensures Holds(c, EndMem(m, r.ds, bytes), r)
  {
    hide IsChain, EndMem;
    var m' := EndMem(m, r.ds, bytes);
    AnswerAgrees(m, r.ds, bytes, Entries(c.table, r.head, r.ds));
    AnswerAgrees(m, r.ds, bytes, AddrSet(Readable(r.ds)));
    AgreeKeepsChain(m, m', c.table, r.head, r.ds);
    AgreeKeepsGather(m, m', Readable(r.ds));
  }

  /** Putting the answer of request j into memory, not published yet. */
  lemma AnswerKeepsMemory(c: Conf, mem: seq<byte>, reqs: seq<Request>, used: seq<Entry>, reaped: nat, j: nat,
                          bytes: seq<byte>)
    requires MemInv(c, mem, reqs, used, reaped)
    requires j < |reqs| && Outstanding(used, |used|, j)
    requires |bytes| <= |Writable(reqs[j].ds)|
    ensures InMem(|mem|, Writable(reqs[j].ds))
    ensures MemInv(c, EndMem(mem, reqs[j].ds, bytes), reqs, used, reaped)
    ensures Landed(EndMem(mem, reqs[j].ds, bytes), reqs[j], bytes)
  {
    hide Foot, WellBuilt, Holds, Landed, EndMem;
    var r := reqs[j];
    WritableInMem(c, r);
    var mem' := EndMem(mem, r.ds, bytes);
    AnswerLands(c, mem, r, bytes);
    assert Outstanding(used, reaped, j);
    forall k | 0 <= k < |reqs| && k != j && Outstanding(used, reaped, k)
      ensures Agree(mem, mem', Foot(c.table, reqs[k].head, reqs[k].ds))
    {
      assert Foot(c.table, reqs[k].head, reqs[k].ds) !! Foot(c.table, r.head, r.ds) by {
        assert j < k || k < j;
      }
      FootHasWritable(c, r);
      AnswerAgrees(mem, r.ds, bytes, Foot(c.table, reqs[k].head, reqs[k].ds));
    }
    forall k | 0 <= k < |reqs| && Outstanding(used, |used|, k)
      ensures Holds(c, mem', reqs[k])
    {
      if k == j {
        OwnAnswerKeeps(c, mem, r, bytes);
      } else {
        assert Outstanding(used, reaped, k);
        AgreeKeepsRequest(c, mem, mem', reqs[k]);
      }
    }
    forall k | reaped <= k < |used|
      ensures Landed(mem', reqs[used[k].ticket], used[k].wrote)
    {
      assert Outstanding(used, reaped, used[k].ticket);
      AgreeKeepsAnswer(c, mem, mem', reqs[used[k].ticket], used[k].wrote);
    }
  }

  /** Publishing a completion whose answer is in memory. */
  lemma EntryKeepsMemory(c: Conf, mem: seq<byte>, reqs: seq<Request>, used: seq<Entry>, reaped: nat, e: Entry)
    requires MemInv(c, mem, reqs, used, reaped)
    requires e.ticket < |reqs| && Outstanding(used, |used|, e.ticket)
    requires Landed(mem, reqs[e.ticket], e.wrote)
    ensures MemInv(c, mem, reqs, used + [e], reaped)
  {
    hide Foot, WellBuilt, Holds, Landed;
    var used' := used + [e];
    forall k, n | 0 <= k < |reqs| && 0 <= n <= |used| && Outstanding(used', n, k)
      ensures Outstanding(used, n, k)
    {
      forall l | 0 <= l < n && l < |used|
        ensures used[l].ticket != k
      {
        assert used'[l] == used[l];
      }
    }
    assert forall k :: Outstanding(used', |used'|, k) ==> Outstanding(used', |used|, k);
  }

  /** The guest writes elsewhere. */
  lemma GuestKeepsMemory(c: Conf, s: Sys, m: seq<byte>)
    requires MemInv(c, s.mem, s.reqs, s.used, s.reaped)
    requires LeavesAlone(c, s, m)
    ensures MemInv(c, m, s.reqs, s.used, s.reaped)
  {
    hide Foot, WellBuilt, Holds, Landed;
    forall k | 0 <= k < |s.reqs| && Outstanding(s.used, |s.used|, k)
      ensures Holds(c, m, s.reqs[k])
    {
      assert Outstanding(s.used, s.reaped, k);
      AgreeKeepsRequest(c, s.mem, m, s.reqs[k]);
    }
    forall k | s.reaped <= k < |s.used|
      ensures Landed(m, s.reqs[s.used[k].ticket], s.used[k].wrote)
    {
      assert Outstanding(s.used, s.reaped, s.used[k].ticket);
      AgreeKeepsAnswer(c, s.mem, m, s.reqs[s.used[k].ticket], s.used[k].wrote);
    }
  }

  lemma PublishKeepsMemory(c: Conf, s: Sys, r: Request, s': Sys)
    requires MemInv(c, s.mem, s.reqs, s.used, s.reaped)
    requires Publish(c, s, r, s')
    ensures MemInv(c, s'.mem, s'.reqs, s'.used, s'.reaped)
  {
    hide Foot, WellBuilt, Holds, Landed;
  }

  lemma ReapKeepsMemory(c: Conf, mem: seq<byte>, reqs: seq<Request>, used: seq<Entry>, reaped: nat)
    requires MemInv(c, mem, reqs, used, reaped) && reaped < |used|
    ensures MemInv(c, mem, reqs, used, reaped + 1)
  {
    hide Foot, WellBuilt, Holds, Landed;
    assert forall k :: Outstanding(used, reaped + 1, k) ==> Outstanding(used, reaped, k);
  }

  /** The guest leaves an answer alone that is about to be published. */
  lemma GuestKeepsPayload(c: Conf, s: Sys, m: seq<byte>)
    requires PayloadInv(s.mem, s.pc, s.reqs, s.popped) && s.reaped <= |s.used|
    requires LeavesAlone(c, s, m)
    requires s.pc.Publishing? ==> Outstanding(s.used, |s.used|, s.pc.entry.ticket)
    requires s.pc.Refusing? ==> Outstanding(s.used, |s.used|, s.popped)
    ensures PayloadInv(m, s.pc, s.reqs, s.popped)
  {
    hide Foot, Landed, Answer;
    if s.pc.Publishing? {
      assert Outstanding(s.used, s.reaped, s.pc.entry.ticket);
      AgreeKeepsAnswer(c, s.mem, m, s.reqs[s.pc.entry.ticket], s.pc.entry.wrote);
    } else if s.pc.Refusing? {
      assert Outstanding(s.used, s.reaped, s.popped);
      AgreeKeepsAnswer(c, s.mem, m, s.reqs[s.popped], Answer(s.pc.task, [], false));
    }
  }
}
