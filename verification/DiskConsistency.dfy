/**
 A read returns what the last write stored, end to end: from the readable part
 of one chain, over the disk, to the writable part of another.
 */
module DiskConsistency {
  import opened Words
  import opened Chains
  import opened QueueCopy
  import opened BlockModel
  import opened BlockInvariant
  import opened BlockRuns

  /** The disk operation does not touch [off, off + n). */
  predicate Misses(io: Io, off: nat, n: nat) {
    io.write ==> io.off + |io.data| <= off || off + n <= io.off
  }

  lemma ApplyMisses(d: seq<byte>, io: Io, off: nat, n: nat)
    requires off + n <= |d| && Misses(io, off, n)
    ensures off + n <= |Apply(d, io)|
    ensures Pread(Apply(d, io), off, n) == Pread(d, off, n)
  {
    assert Pread(Apply(d, io), off, n) == Pread(d, off, n);
  }

  lemma WriteReadsBack(d: seq<byte>, at: nat, bs: seq<byte>, off: nat, n: nat)
    requires 0 < n && at <= off && off + n <= at + |bs|
    ensures off + n <= |Pwrite(d, at, bs)|
    ensures Pread(Pwrite(d, at, bs), off, n) == bs[off - at..off - at + n]
  {
    assert Pread(Pwrite(d, at, bs), off, n) == bs[off - at..off - at + n];
  }

  /** Operations that miss a range leave it alone. */
  lemma {:induction false} ReplayMisses(d: seq<byte>, log: seq<Io>, a: nat, b: nat, off: nat, n: nat)
    requires a <= b <= |log|
    requires off + n <= |Replay(d, log[..a])|
    requires forall p :: a <= p < b ==> Misses(log[p], off, n)
    ensures off + n <= |Replay(d, log[..b])|
    ensures Pread(Replay(d, log[..b]), off, n) == Pread(Replay(d, log[..a]), off, n)
    decreases b
  {
    hide Pread, Apply, Misses;
    if a < b {
      ReplayMisses(d, log, a, b - 1, off, n);
      assert log[..b][..b - 1] == log[..b - 1];
      ApplyMisses(Replay(d, log[..b - 1]), log[b - 1], off, n);
    }
  }

  // Requests

  function Off(r: Request): nat {
    if r.Kind().Skip? then 0 else Offset(r.Kind().sector)
  }

  /** How many bytes of the disk the request is about. */
  function Len(r: Request): nat {
    Count(MakeTask(0, r.head, r.ds, r.rb))
  }

  /** The range [off, off + n) of the disk lies in the range of the request. */
  predicate Covers(w: Request, off: nat, n: nat) {
    Off(w) <= off && off + n <= Off(w) + Len(w)
  }

  predicate Overlaps(x: Request, off: nat, n: nat) {
    Off(x) < off + n && off < Off(x) + Len(x)
  }

  ghost predicate CompletedBy(used: seq<Entry>, x: nat, n: nat) {
    exists k :: 0 <= k < n && k < |used| && used[k].ticket == x
  }

  /**
   Nothing but w writes to [off, off + n) up to completion ir: every other write
   that overlaps it was completed before w was published, or published after
   that completion.
   */
  ghost predicate OnlyWriter(s: Sys, w: nat, off: nat, n: nat, ir: nat)
    requires w < |s.reqs|
  {
    forall x :: 0 <= x < |s.reqs| && x != w && s.reqs[x].Kind().Out? && Overlaps(s.reqs[x], off, n)
                ==> CompletedBy(s.used, x, s.reqs[w].usedAt) || ir < s.reqs[x].usedAt
  }

  /** The bytes that the write w puts at [off, off + n). */
  function Written(w: Request, off: nat, n: nat): seq<byte>
    requires w.Kind().Out? && Covers(w, off, n) && |w.rb| >= HEADER + Len(w)
  {
    var from := HEADER + off - Off(w);
    w.rb[from..from + n]
  }

  /** The bytes a successful read of r after a write of all of it has to deliver. */
  function Expected(w: Request, r: Request): seq<byte>
    requires w.Kind().Out? && Covers(w, Off(r), Len(r)) && |w.rb| >= HEADER + Len(w)
  {
    var pad := |Writable(r.ds)| - 1 - Len(r);
    Written(w, Off(r), Len(r)) + Zeros(if pad < 0 then 0 else pad) + [0]
  }

  lemma LenFits(r: Request)
    requires r.Kind().Out? || (r.Kind().In? && |Writable(r.ds)| >= 1)
    ensures r.Kind().Out? ==> HEADER + Len(r) <= |r.rb|
    ensures r.Kind().In? ==> Len(r) < |Writable(r.ds)|
  {
  }

  /** A disk operation of another request between the two, in log order, misses the range. */
  lemma OthersMiss(c: Conf, s: Sys, iw: nat, ir: nat, off: nat, n: nat, p: nat)
    requires Inv(c, s)
    requires iw < |s.used| && ir < |s.used| && s.used[iw].at.Some? && s.used[ir].at.Some?
    requires s.used[iw].ticket < |s.reqs|
    requires OnlyWriter(s, s.used[iw].ticket, off, n, ir)
    requires s.used[iw].at.value < p < s.used[ir].at.value < |s.log|
    ensures Misses(s.log[p], off, n)
  {
    hide Control, MemInv, PayloadInv, HeapInv, PendingInv, DoneInv, Replay, Pread, KindOf, MakeTask, Answer, Count;
    var w := s.used[iw].ticket;
    var kw, kr, x := s.used[iw].at.value, s.used[ir].at.value, s.log[p].ticket;
    assert EntryOk(s.used[iw], s.log, s.reqs, s.popped) && EntryOk(s.used[ir], s.log, s.reqs, s.popped);
    assert IoOk(c.disk0, s.log, s.reqs, p) && IoOk(c.disk0, s.log, s.reqs, kw);
    assert x != w;
    assert SameCount(x, s.reqs[x]) by { CountSame(x, s.reqs[x]); }
    assert s.reqs[x].logAt <= p < kr;
    assert s.reqs[x].usedAt <= ir;
    assert !CompletedBy(s.used, x, s.reqs[w].usedAt) by {
      forall k | 0 <= k < s.reqs[w].usedAt && k < |s.used|
        ensures s.used[k].ticket != x
      {
        ReachedBefore(c, s, k, p, w);
      }
    }
  }

  /** A request completed before w was published reached the disk before w was published. */
  lemma ReachedBefore(c: Conf, s: Sys, k: nat, p: nat, w: nat)
    requires Inv(c, s)
    requires w < |s.reqs| && k < s.reqs[w].usedAt && k < |s.used| && p < |s.log|
    ensures s.used[k].ticket == s.log[p].ticket ==> p < s.reqs[w].logAt
  {
    hide Control, MemInv, PayloadInv, HeapInv, PendingInv, DoneInv, IoOk, KindOf, MakeTask, Answer;
    assert EntryOk(s.used[k], s.log, s.reqs, s.popped);
    if s.used[k].at.Some? {
      var q := s.used[k].at.value;
      assert p < q ==> s.log[p].ticket != s.log[q].ticket;
      assert q < p ==> s.log[q].ticket != s.log[p].ticket;
    }
  }

  ghost predicate SameCount(x: nat, r: Request) {
    Count(TaskFor(x, r)) == Len(r)
  }

  lemma CountSame(x: nat, r: Request)
    ensures SameCount(x, r)
  {
  }

  lemma SliceOfSlice(b: seq<byte>, h: nat, len: nat, x: nat, n: nat)
    requires h + len <= |b| && x + n <= len
    ensures b[h..h + len][x..x + n] == b[h + x..h + x + n]
  {
    var part := b[h..h + len];
    var inner, outer := part[x..x + n], b[h + x..h + x + n];
    forall i | 0 <= i < n
      ensures inner[i] == outer[i]
    {
      assert part[x + i] == b[h + (x + i)];
    }
  }

  /** The operation of the write puts its bytes where the read will look. */
  lemma WriteStored(c: Conf, s: Sys, iw: nat, off: nat, n: nat)
    requires Inv(c, s) && iw < |s.used| && s.used[iw].ok
    requires s.used[iw].ticket < |s.reqs| && s.reqs[s.used[iw].ticket].Kind().Out?
    requires var w := s.reqs[s.used[iw].ticket]; 0 < n && Off(w) <= off && off + n <= Off(w) + Len(w)
    ensures s.used[iw].at.Some? && s.used[iw].at.value < |s.log|
    ensures var w, kw := s.reqs[s.used[iw].ticket], s.used[iw].at.value;
            && off + n <= |Replay(c.disk0, s.log[..kw + 1])|
            && HEADER + Len(w) <= |w.rb|
            && Pread(Replay(c.disk0, s.log[..kw + 1]), off, n) == w.rb[HEADER + off - Off(w)..HEADER + off - Off(w) + n]
  {
    hide Control, MemInv, PayloadInv, HeapInv, PendingInv, DoneInv, Pread, KindOf, Answer, Count, OrderInv, Pwrite;
    var j := s.used[iw].ticket;
    var w := s.reqs[j];
    assert EntryOk(s.used[iw], s.log, s.reqs, s.popped);
    var kw := s.used[iw].at.value;
    assert IoOk(c.disk0, s.log, s.reqs, kw);
    CountSame(j, w);
    LenFits(w);
    var io := s.log[kw];
    assert io.data == w.rb[HEADER..HEADER + Len(w)] by {
      assert TaskFor(j, w).buf == w.rb[HEADER..];
    }
    assert s.log[..kw + 1][..kw] == s.log[..kw];
    WriteReadsBack(Replay(c.disk0, s.log[..kw]), io.off, io.data, off, n);
    SliceOfSlice(w.rb, HEADER, Len(w), off - Off(w), n);
  }

  /** What a successful read delivers, in terms of the disk at its place in the log. */
  lemma ReadDelivers(c: Conf, s: Sys, ir: nat)
    requires Inv(c, s) && ir < |s.used| && s.used[ir].ok
    requires s.used[ir].ticket < |s.reqs| && s.reqs[s.used[ir].ticket].Kind().In?
    ensures s.used[ir].at.Some? && s.used[ir].at.value < |s.log|
    ensures var r, kr := s.reqs[s.used[ir].ticket], s.used[ir].at.value;
            var data := Pread(Replay(c.disk0, s.log[..kr]), Off(r), Len(r));
            && |data| == Len(r) < |Writable(r.ds)|
            && s.used[ir].wrote == data + Zeros(|Writable(r.ds)| - 1 - |data|) + [0]
            && (s.reaped <= ir ==> InMem(|s.mem|, Writable(r.ds)) && Gather(s.mem, Writable(r.ds)) == s.used[ir].wrote)
  {
    hide Control, HeapInv, DoneInv, Pread, Replay, KindOf, Count, OrderInv, Foot, Holds;
    var j := s.used[ir].ticket;
    var r := s.reqs[j];
    assert EntryOk(s.used[ir], s.log, s.reqs, s.popped);
    var kr := s.used[ir].at.value;
    assert IoOk(c.disk0, s.log, s.reqs, kr);
    CountSame(j, r);
    assert WellBuilt(c, r);
    LenFits(r);
    if s.reaped <= ir {
      assert Landed(s.mem, r, s.used[ir].wrote);
      assert Window(Writable(r.ds), 0, |s.used[ir].wrote|) == Writable(r.ds);
    }
  }

  lemma WriteFirst(c: Conf, s: Sys, iw: nat, ir: nat)
    requires Inv(c, s) && iw < |s.used| && ir < |s.used|
    requires s.used[iw].at.Some? && s.used[ir].at.Some? && s.used[ir].at.value < |s.log|
    requires s.used[ir].ticket < |s.reqs| && iw < s.reqs[s.used[ir].ticket].usedAt
    ensures s.used[iw].at.value < s.used[ir].at.value
  {
    hide Control, HeapInv, MemInv, DoneInv, Pread, Replay, KindOf, Count, MakeTask, Answer;
    assert EntryOk(s.used[ir], s.log, s.reqs, s.popped);
    assert IoOk(c.disk0, s.log, s.reqs, s.used[ir].at.value);
  }

  /** The disk that the read sees holds the bytes of the write. */
  lemma SeesWrite(c: Conf, s: Sys, iw: nat, ir: nat, off: nat, n: nat)
    requires Inv(c, s)
    requires AfterWrite(s, iw, ir, off, n)
    ensures s.used[ir].at.Some? && s.used[ir].at.value < |s.log|
    ensures var w := s.reqs[s.used[iw].ticket];
            && |w.rb| >= HEADER + Len(w)
            && Pread(Replay(c.disk0, s.log[..s.used[ir].at.value]), off, n) == Written(w, off, n)
  {
    hide Inv, KindOf, Len, Pread, Replay;
    var w := s.reqs[s.used[iw].ticket];
    LenFits(w);
    ReadDelivers(c, s, ir);
    var kr := s.used[ir].at.value;
    if n > 0 {
      WriteStored(c, s, iw, off, n);
      var kw := s.used[iw].at.value;
      WriteFirst(c, s, iw, ir);
      forall p | kw + 1 <= p < kr
        ensures Misses(s.log[p], off, n)
      {
        OthersMiss(c, s, iw, ir, off, n, p);
      }
      ReplayMisses(c.disk0, s.log, kw + 1, kr, off, n);
    } else {
      ReadsNothing(Replay(c.disk0, s.log[..kr]), off);
    }
  }

  lemma ReadsNothing(d: seq<byte>, off: nat)
    ensures Pread(d, off, 0) == []
  {
  }

  /**
   Completion iw is a successful write and completion ir a successful read, both
   of [off, off + n); the read was published after the write was completed; and
   no other write to that range was in flight in between.
   */
  ghost predicate AfterWrite(s: Sys, iw: nat, ir: nat, off: nat, n: nat) {
    && iw < |s.used| && ir < |s.used| && s.used[iw].ok && s.used[ir].ok
    && var w, r := s.used[iw].ticket, s.used[ir].ticket;
    && w < |s.reqs| && r < |s.reqs|
    && s.reqs[w].Kind().Out? && s.reqs[r].Kind().In?
    && Covers(s.reqs[w], off, n) && Covers(s.reqs[r], off, n)
    && iw < s.reqs[r].usedAt
    && OnlyWriter(s, w, off, n, ir)
  }

  /**
   Read after write: the read delivered the write's bytes, padding and the
   status byte last; and until the driver takes the request back, the writable
   part of its chain holds exactly that.
   */
  lemma ReadAfterWrite(c: Conf, run: seq<Sys>, steps: seq<Step>, k: nat, iw: nat, ir: nat)
    requires Run(c, run, steps) && k < |run|
    requires ir < |run[k].used| && run[k].used[ir].ticket < |run[k].reqs|
    requires var r := run[k].reqs[run[k].used[ir].ticket]; AfterWrite(run[k], iw, ir, Off(r), Len(r))
    ensures var s := run[k];
            var w, r := s.reqs[s.used[iw].ticket], s.reqs[s.used[ir].ticket];
            && |w.rb| >= HEADER + Len(w)
            && s.used[ir].wrote == Expected(w, r)
            && (s.reaped <= ir ==> InMem(|s.mem|, Writable(r.ds)) && Gather(s.mem, Writable(r.ds)) == Expected(w, r))
  {
    hide Run, Inv, KindOf, Len, Writable, Pread, Replay, Gather, OnlyWriter;
    RunKeepsInv(c, run, steps, k);
    var r := run[k].reqs[run[k].used[ir].ticket];
    ReadDelivers(c, run[k], ir);
    SeesWrite(c, run[k], iw, ir, Off(r), Len(r));
  }

  // Byte by byte

  lemma OneByteOf(d: seq<byte>, off: nat, n: nat, p: nat)
    requires off <= p < off + n && |Pread(d, off, n)| == n
    ensures Pread(d, p, 1) == [Pread(d, off, n)[p - off]]
  {
  }

  /** Byte p of the disk as the read ir delivered it: in the answer, and in the chain while the answer is there. */
  ghost predicate Delivers(s: Sys, ir: nat, p: nat, v: byte) {
    && ir < |s.used| && s.used[ir].ticket < |s.reqs|
    && var r := s.reqs[s.used[ir].ticket];
    && Off(r) <= p < Off(r) + Len(r) && p - Off(r) < |s.used[ir].wrote| && p - Off(r) < |Writable(r.ds)|
    && s.used[ir].wrote[p - Off(r)] == v
    && (s.reaped <= ir ==> Writable(r.ds)[p - Off(r)] < |s.mem| && s.mem[Writable(r.ds)[p - Off(r)]] == v)
  }

  /** What a read delivers of byte p is what the disk holds there at its place in the log. */
  lemma DeliversDisk(c: Conf, s: Sys, ir: nat, p: nat)
    requires Inv(c, s) && ir < |s.used| && s.used[ir].ok && s.used[ir].ticket < |s.reqs|
    requires var r := s.reqs[s.used[ir].ticket]; r.Kind().In? && Off(r) <= p < Off(r) + Len(r)
    ensures s.used[ir].at.Some? && s.used[ir].at.value < |s.log|
    ensures var d := Pread(Replay(c.disk0, s.log[..s.used[ir].at.value]), p, 1); |d| == 1 && Delivers(s, ir, p, d[0])
  {
    hide Inv, KindOf, Len, Replay, Pread, Gather;
    var r := s.reqs[s.used[ir].ticket];
    ReadDelivers(c, s, ir);
    var disk := Replay(c.disk0, s.log[..s.used[ir].at.value]);
    OneByteOf(disk, Off(r), Len(r), p);
    if s.reaped <= ir {
      assert Gather(s.mem, Writable(r.ds))[p - Off(r)] == s.used[ir].wrote[p - Off(r)];
    }
  }

  /**
   Each byte is that of the last write to it: however a read is made up of
   several writes, a byte that a completed write stored, with no other write to
   that byte in flight, is delivered as that write left it.
   */
  lemma ByteAfterWrite(c: Conf, run: seq<Sys>, steps: seq<Step>, k: nat, iw: nat, ir: nat, p: nat)
    requires Run(c, run, steps) && k < |run| && AfterWrite(run[k], iw, ir, p, 1)
    ensures var s := run[k];
            var w := s.reqs[s.used[iw].ticket];
            && |w.rb| >= HEADER + Len(w)
            && Delivers(s, ir, p, w.rb[HEADER + p - Off(w)])
  {
    hide Run, Inv, KindOf, Len, Replay, Pread, OnlyWriter, Delivers;
    RunKeepsInv(c, run, steps, k);
    SeesWrite(c, run[k], iw, ir, p, 1);
    DeliversDisk(c, run[k], ir, p);
  }

  /** A byte that no write has touched is delivered as the disk was at the start. */
  lemma ByteUntouched(c: Conf, run: seq<Sys>, steps: seq<Step>, k: nat, ir: nat, p: nat)
    requires Run(c, run, steps) && k < |run|
    requires var s := run[k]; ir < |s.used| && s.used[ir].ok && s.used[ir].ticket < |s.reqs|
    requires var r := run[k].reqs[run[k].used[ir].ticket]; r.Kind().In? && Off(r) <= p < Off(r) + Len(r)
    requires forall x :: 0 <= x < |run[k].reqs| && run[k].reqs[x].Kind().Out? && Overlaps(run[k].reqs[x], p, 1)
                         ==> ir < run[k].reqs[x].usedAt
    requires p < |c.disk0|
    ensures Delivers(run[k], ir, p, c.disk0[p])
  {
    hide Run, Inv, KindOf, Len, Replay, Delivers, Misses;
    RunKeepsInv(c, run, steps, k);
    var s := run[k];
    DeliversDisk(c, s, ir, p);
    var kr := s.used[ir].at.value;
    forall q | 0 <= q < kr
      ensures Misses(s.log[q], p, 1)
    {
      LaterMiss(c, s, ir, p, q);
    }
    ReplayNothing(c.disk0, s.log);
    ReplayMisses(c.disk0, s.log, 0, kr, p, 1);
  }

  lemma ReplayNothing(d: seq<byte>, log: seq<Io>)
    ensures Replay(d, log[..0]) == d
  {
  }

  /** A write published after completion ir is later in the log. */
  lemma LaterMiss(c: Conf, s: Sys, ir: nat, off: nat, q: nat)
    requires Inv(c, s) && ir < |s.used| && s.used[ir].at.Some? && q < s.used[ir].at.value < |s.log|
    requires forall x :: 0 <= x < |s.reqs| && s.reqs[x].Kind().Out? && Overlaps(s.reqs[x], off, 1) ==>
                           ir < s.reqs[x].usedAt
    ensures Misses(s.log[q], off, 1)
  {
    hide Control, MemInv, PayloadInv, HeapInv, PendingInv, DoneInv, Replay, Pread, KindOf, MakeTask, Answer, Count;
    var x := s.log[q].ticket;
    assert EntryOk(s.used[ir], s.log, s.reqs, s.popped);
    assert IoOk(c.disk0, s.log, s.reqs, q);
    assert SameCount(x, s.reqs[x]) by { CountSame(x, s.reqs[x]); }
    assert s.reqs[x].usedAt <= ir;
  }
}
