/**
 The two rings of a virtqueue in guest memory (sections 2.6.6 and 2.6.8 of
 VIRTIO 1.1): where the device reads the next available head, and how the used
 ring represents the unbounded history of completions.
 */
module Rings {
  import opened Words
  import opened GuestMemory
  import opened Chains

  /** One queue as the device holds it (struct queue_state). */
  datatype QueueState = QueueState(ready: nat, num: nat, last: nat, desc: nat, avail: nat, used: nat, manual: bool)

  /** One element of the used ring. */
  datatype UsedElem = UsedElem(id: nat, len: nat)

  predicate GoodNum(num: nat) {
    IsPow2(num) && num <= U16
  }

  /** The used ring is aligned and inside guest memory. */
  predicate UsedLayout(size: nat, q: QueueState) {
    GoodNum(q.num) && q.used % 4 == 0 && q.used + 4 + 8 * q.num <= size
  }

  predicate AvailLayout(size: nat, q: QueueState) {
    GoodNum(q.num) && q.avail % 2 == 0 && q.avail + 4 + 2 * q.num <= size
  }

  function UsedBytes(q: QueueState): set<nat> {
    AddrSet(Span(q.used, 4 + 8 * q.num))
  }

  function AvailBytes(q: QueueState): set<nat> {
    AddrSet(Span(q.avail, 4 + 2 * q.num))
  }

  /** Where completion number j is recorded. */
  function SlotAddr(q: QueueState, j: nat): nat
    requires q.num > 0
  {
    q.used + 4 + 8 * (j % q.num)
  }

  predicate SlotHolds(m: seq<byte>, a: nat, e: UsedElem) {
    a + 8 <= |m| && Get32(m, a) == e.id % U32 && Get32(m, a + 4) == e.len % U32
  }

  /** The index of the used ring and its last `keep` entries are those of the history. */
  ghost predicate UsedRing(m: seq<byte>, q: QueueState, hist: seq<UsedElem>, keep: nat) {
    && UsedLayout(|m|, q)
    && Get16(m, q.used + 2) == |hist| % U16
    && forall j :: 0 <= j < |hist| && |hist| - keep <= j ==> SlotHolds(m, SlotAddr(q, j), hist[j])
  }

  lemma BytesOfSpan(a: nat, n: nat)
    ensures forall x :: x in AddrSet(Span(a, n)) <==> a <= x < a + n
  {
    forall x: nat
      ensures x in AddrSet(Span(a, n)) <==> a <= x < a + n
    {
      NotInSpan(a, n, x);
    }
  }

  /** The used ring, byte by byte: the index at 2, then eight bytes per element, id before length. */
  lemma UsedBytesAre(m: seq<byte>, q: QueueState, hist: seq<UsedElem>, j: nat)
    requires UsedRing(m, q, hist, q.num)
    ensures q.num > 0 && q.used + 4 + 8 * q.num <= |m|
    ensures m[q.used + 2] as int + 0x100 * m[q.used + 3] as int == |hist| % 0x1_0000
    ensures j < |hist| <= j + q.num ==>
              var a := q.used + 4 + 8 * (j % q.num);
              && a + 8 <= |m|
              && m[a] as int + 0x100 * m[a + 1] as int + 0x1_0000 * m[a + 2] as int + 0x100_0000 * m[a + 3] as int
                 == hist[j].id % 0x1_0000_0000
              && m[a + 4] as int + 0x100 * m[a + 5] as int + 0x1_0000 * m[a + 6] as int + 0x100_0000 * m[a + 7] as int
                 == hist[j].len % 0x1_0000_0000
    ensures forall x :: x in UsedBytes(q) <==> q.used <= x < q.used + 4 + 8 * q.num
  {
    hide IsPow2, Get16, Get32;
    SlotInRing(|m|, q, j);
    LittleEndian(m, q.used + 2);
    if j < |hist| <= j + q.num {
      assert SlotHolds(m, SlotAddr(q, j), hist[j]);
      LittleEndian(m, SlotAddr(q, j));
      LittleEndian(m, SlotAddr(q, j) + 4);
    }
    BytesOfSpan(q.used, 4 + 8 * q.num);
  }

  // The three stores of a completion

  function StoreId(m: seq<byte>, q: QueueState, k: nat, e: UsedElem): seq<byte>
    requires q.num > 0
  {
    FlatWrite(m, SlotAddr(q, k), Put32(e.id))
  }

  function StoreLen(m: seq<byte>, q: QueueState, k: nat, e: UsedElem): seq<byte>
    requires q.num > 0
  {
    FlatWrite(StoreId(m, q, k, e), SlotAddr(q, k) + 4, Put32(e.len))
  }

  /** The guest memory after completion number k. */
  function Published(m: seq<byte>, q: QueueState, k: nat, e: UsedElem): seq<byte>
    requires q.num > 0
  {
    FlatWrite(StoreLen(m, q, k, e), q.used + 2, Put16(k + 1))
  }

  lemma SlotInRing(size: nat, q: QueueState, j: nat)
    requires UsedLayout(size, q)
    ensures q.num > 0
    ensures q.used + 4 <= SlotAddr(q, j) && SlotAddr(q, j) + 8 <= q.used + 4 + 8 * q.num <= size
    ensures SlotAddr(q, j) % 4 == 0
  {
  }

  lemma SlotsApart(q: QueueState, j: nat, k: nat)
    requires q.num > 0 && j < k < j + q.num
    ensures SlotAddr(q, j) + 8 <= SlotAddr(q, k) || SlotAddr(q, k) + 8 <= SlotAddr(q, j)
  {
    ModDistinct(j, k, q.num);
  }

  lemma Get32After(m: seq<byte>, a: nat, v: nat)
    requires a + 4 <= |m|
    ensures Get32(FlatWrite(m, a, Put32(v)), a) == v % U32
  {
    var b, m' := Put32(v), FlatWrite(m, a, Put32(v));
    assert m'[a] == b[0] && m'[a + 1] == b[1] && m'[a + 2] == b[2] && m'[a + 3] == b[3];
  }

  lemma Get16After(m: seq<byte>, a: nat, v: nat)
    requires a + 2 <= |m|
    ensures Get16(FlatWrite(m, a, Put16(v)), a) == v % U16
  {
    var b, m' := Put16(v), FlatWrite(m, a, Put16(v));
    assert m'[a] == b[0] && m'[a + 1] == b[1];
  }

  lemma GetsElsewhere(m: seq<byte>, a: nat, bs: seq<byte>, x: nat)
    ensures x + 4 <= |m| && (x + 4 <= a || a + |bs| <= x) ==> Get32(FlatWrite(m, a, bs), x) == Get32(m, x)
    ensures x + 2 <= |m| && (x + 2 <= a || a + |bs| <= x) ==> Get16(FlatWrite(m, a, bs), x) == Get16(m, x)
  {
  }

  /** A store outside a slot and outside the index leaves both as they are. */
  lemma SlotKept(m: seq<byte>, a: nat, bs: seq<byte>, x: nat, e: UsedElem)
    requires SlotHolds(m, x, e) && (x + 8 <= a || a + |bs| <= x)
    ensures SlotHolds(FlatWrite(m, a, bs), x, e)
  {
    hide Get32;
    GetsElsewhere(m, a, bs, x);
    GetsElsewhere(m, a, bs, x + 4);
  }

  /** A store into slot k keeps the entries of the last num - 1 completions, and the index. */
  lemma StoreInSlot(m: seq<byte>, q: QueueState, hist: seq<UsedElem>, keep: nat, a: nat, bs: seq<byte>)
    requires UsedRing(m, q, hist, keep) && keep < q.num
    requires SlotAddr(q, |hist|) <= a && a + |bs| <= SlotAddr(q, |hist|) + 8
    ensures UsedRing(FlatWrite(m, a, bs), q, hist, keep)
  {
    hide SlotHolds, FlatWrite, Get16, SlotAddr;
    SlotInRing(|m|, q, |hist|);
    GetsElsewhere(m, a, bs, q.used + 2);
    forall j | 0 <= j < |hist| && |hist| - keep <= j
      ensures SlotHolds(FlatWrite(m, a, bs), SlotAddr(q, j), hist[j])
    {
      SlotsApart(q, j, |hist|);
      SlotKept(m, a, bs, SlotAddr(q, j), hist[j]);
    }
  }

  /**
   No intermediate state of a completion exposes an unwritten slot: after the
   first and after the second store the index still covers only the old
   history, whose last num - 1 entries are intact; the third store makes the
   new entry visible, complete.
   */
  lemma StoresInOrder(m: seq<byte>, q: QueueState, hist: seq<UsedElem>, e: UsedElem)
    requires UsedRing(m, q, hist, q.num)
    ensures UsedRing(StoreId(m, q, |hist|, e), q, hist, q.num - 1)
    ensures UsedRing(StoreLen(m, q, |hist|, e), q, hist, q.num - 1)
    ensures UsedRing(Published(m, q, |hist|, e), q, hist + [e], q.num)
  {
    hide SlotHolds, FlatWrite, Get16, SlotAddr;
    var k := |hist|;
    var x := SlotAddr(q, k);
    SlotInRing(|m|, q, k);
    var m1, m2 := StoreId(m, q, k, e), StoreLen(m, q, k, e);
    assert UsedRing(m, q, hist, q.num - 1);
    StoreInSlot(m, q, hist, q.num - 1, x, Put32(e.id));
    StoreInSlot(m1, q, hist, q.num - 1, x + 4, Put32(e.len));
    NewSlot(m, q, k, e);
    var m3 := FlatWrite(m2, q.used + 2, Put16(k + 1));
    Get16After(m2, q.used + 2, k + 1);
    forall j | 0 <= j < k + 1 && k + 1 - q.num <= j
      ensures SlotHolds(m3, SlotAddr(q, j), (hist + [e])[j])
    {
      SlotInRing(|m|, q, j);
      assert SlotHolds(m2, SlotAddr(q, j), (hist + [e])[j]);
      SlotKept(m2, q.used + 2, Put16(k + 1), SlotAddr(q, j), (hist + [e])[j]);
    }
  }

  lemma NewSlot(m: seq<byte>, q: QueueState, k: nat, e: UsedElem)
    requires UsedLayout(|m|, q)
    ensures SlotHolds(StoreLen(m, q, k, e), SlotAddr(q, k), e)
  {
    hide FlatWrite, Get32, SlotAddr;
    SlotInRing(|m|, q, k);
    var x := SlotAddr(q, k);
    Get32After(m, x, e.id);
    Get32After(StoreId(m, q, k, e), x + 4, e.len);
    GetsElsewhere(StoreId(m, q, k, e), x + 4, Put32(e.len), x);
  }

  /** A completion writes to its used ring only. */
  lemma PublishedFrame(m: seq<byte>, q: QueueState, k: nat, e: UsedElem)
    requires UsedLayout(|m|, q)
    ensures OnlyIn(m, Published(m, q, k, e), UsedBytes(q))
  {
    SlotInRing(|m|, q, k);
    hide SlotAddr;
    forall x | 0 <= x < |m| && x !in UsedBytes(q)
      ensures Published(m, q, k, e)[x] == m[x]
    {
      NotInSpan(q.used, 4 + 8 * q.num, x);
    }
  }

  /** Of that it changes one element and the index, not the flags. */
  lemma PublishedExactly(m: seq<byte>, q: QueueState, k: nat, e: UsedElem, x: nat)
    requires UsedLayout(|m|, q) && x < |m|
    requires var a := q.used + 4 + 8 * (k % q.num); !(a <= x < a + 8) && x != q.used + 2 && x != q.used + 3
    ensures Published(m, q, k, e)[x] == m[x]
  {
  }

  /** So does each of its stores. */
  lemma StageFrame(m: seq<byte>, q: QueueState, k: nat, e: UsedElem, i: nat)
    requires UsedLayout(|m|, q) && i < 4
    ensures q.num > 0 && OnlyIn(m, Stages(m, q, k, e)[i], UsedBytes(q))
  {
    SlotInRing(|m|, q, k);
    hide SlotAddr;
    var stage := Stages(m, q, k, e)[i];
    forall x | 0 <= x < |m| && x !in UsedBytes(q)
      ensures stage[x] == m[x]
    {
      NotInSpan(q.used, 4 + 8 * q.num, x);
    }
  }

  lemma NotInSpan(a: nat, n: nat, x: nat)
    ensures x !in AddrSet(Span(a, n)) <==> x < a || a + n <= x
  {
    if a <= x < a + n {
      assert Span(a, n)[x - a] == x;
    }
  }

  /** The used ring survives whatever does not write to it. */
  lemma UsedRingKept(m: seq<byte>, m': seq<byte>, q: QueueState, hist: seq<UsedElem>, keep: nat)
    requires UsedRing(m, q, hist, keep) && Agree(m, m', UsedBytes(q))
    ensures UsedRing(m', q, hist, keep)
  {
    SpanAgrees(m, m', q.used, 4 + 8 * q.num);
    hide SlotAddr;
    forall j | 0 <= j < |hist| && |hist| - keep <= j
      ensures SlotHolds(m', SlotAddr(q, j), hist[j])
    {
      SlotInRing(|m|, q, j);
      assert SlotHolds(m, SlotAddr(q, j), hist[j]);
    }
  }

  lemma SpanAgrees(m: seq<byte>, m': seq<byte>, a: nat, n: nat)
    requires Agree(m, m', AddrSet(Span(a, n))) && a + n <= |m|
    ensures |m'| == |m| && forall x :: a <= x < a + n ==> m'[x] == m[x]
  {
    forall x | a <= x < a + n
      ensures m'[x] == m[x]
    {
      NotInSpan(a, n, x);
    }
  }

  // Payload and index

  /**
   What a driver may find at any moment while completion e, whose payload p
   belongs at the addresses xs, is on its way: the index still covers only the
   old history, or it covers e as well and then the payload is there.
   */
  ghost predicate Shows(m: seq<byte>, q: QueueState, hist: seq<UsedElem>, e: UsedElem, xs: seq<nat>, p: seq<byte>) {
    && UsedLayout(|m|, q) && InMem(|m|, xs)
    && (UsedRing(m, q, hist, q.num - 1) || (UsedRing(m, q, hist + [e], q.num) && Gather(m, xs) == p))
  }

  /** Whoever reads the new index finds the new element and the payload. */
  lemma SeenMeansThere(m: seq<byte>, q: QueueState, hist: seq<UsedElem>, e: UsedElem, xs: seq<nat>, p: seq<byte>)
    requires Shows(m, q, hist, e, xs, p) && Get16(m, q.used + 2) != |hist| % U16
    ensures Get16(m, q.used + 2) == (|hist| + 1) % U16
    ensures SlotHolds(m, SlotAddr(q, |hist|), e) && Gather(m, xs) == p
  {
    assert (hist + [e])[|hist|] == e;
  }

  /** Guest memory after the payload and after each of the three stores. */
  function Stages(m: seq<byte>, q: QueueState, k: nat, e: UsedElem): seq<seq<byte>>
    requires q.num > 0
  {
    [m, StoreId(m, q, k, e), StoreLen(m, q, k, e), Published(m, q, k, e)]
  }

  /** Every state on the way shows the payload before the index: each prefix of the payload, and each stage after it. */
  ghost predicate PayloadBeforeIndex(m: seq<byte>, q: QueueState, hist: seq<UsedElem>, e: UsedElem, xs: seq<nat>,
                                     bs: seq<byte>)
  {
    && q.num > 0 && |xs| == |bs| && InMem(|m|, xs)
    && var m1 := Scatter(m, xs, bs);
    && (forall n :: 0 <= n <= |xs| ==> Shows(Scatter(m, xs[..n], bs[..n]), q, hist, e, xs, Gather(m1, xs)))
    && (forall i :: 0 <= i < 4 ==> Shows(Stages(m1, q, |hist|, e)[i], q, hist, e, xs, Gather(m1, xs)))
    && (Distinct(xs) ==> Gather(m1, xs) == bs)
  }

  lemma PayloadKeepsRing(m: seq<byte>, q: QueueState, hist: seq<UsedElem>, xs: seq<nat>, bs: seq<byte>, n: nat)
    requires UsedRing(m, q, hist, q.num) && |xs| == |bs| && InMem(|m|, xs) && AddrSet(xs) !! UsedBytes(q) && n <= |xs|
    ensures UsedRing(Scatter(m, xs[..n], bs[..n]), q, hist, q.num)
  {
    hide UsedRing, UsedBytes, Scatter;
    ScatterOnlyIn(m, xs[..n], bs[..n], AddrSet(xs));
    OnlyInAgrees(m, Scatter(m, xs[..n], bs[..n]), AddrSet(xs), UsedBytes(q));
    UsedRingKept(m, Scatter(m, xs[..n], bs[..n]), q, hist, q.num);
  }

  lemma KeepFewer(m: seq<byte>, q: QueueState, hist: seq<UsedElem>)
    requires UsedRing(m, q, hist, q.num)
    ensures q.num > 0 && UsedRing(m, q, hist, q.num - 1)
  {
    hide SlotHolds, SlotAddr;
  }

  /** A completion touches none of its payload. */
  lemma PublishedKeepsPayload(m: seq<byte>, q: QueueState, k: nat, e: UsedElem, xs: seq<nat>)
    requires UsedLayout(|m|, q) && InMem(|m|, xs) && AddrSet(xs) !! UsedBytes(q)
    ensures q.num > 0 && |Published(m, q, k, e)| == |m| && Gather(Published(m, q, k, e), xs) == Gather(m, xs)
  {
    hide UsedBytes, Published;
    PublishedFrame(m, q, k, e);
    OnlyInAgrees(m, Published(m, q, k, e), UsedBytes(q), AddrSet(xs));
    AgreeKeepsGather(m, Published(m, q, k, e), xs);
  }

  /** Writing a payload clear of the used ring and publishing after it never exposes an unwritten payload. */
  lemma PayloadFirst(m: seq<byte>, q: QueueState, hist: seq<UsedElem>, e: UsedElem, xs: seq<nat>, bs: seq<byte>)
    requires UsedRing(m, q, hist, q.num) && |xs| == |bs| && InMem(|m|, xs) && AddrSet(xs) !! UsedBytes(q)
    ensures PayloadBeforeIndex(m, q, hist, e, xs, bs)
  {
    hide UsedRing, UsedBytes, Scatter, StoreId, StoreLen, Published;
    var m1 := Scatter(m, xs, bs);
    assert UsedLayout(|m|, q) by { LayoutOf(m, q, hist); }
    forall n | 0 <= n <= |xs|
      ensures Shows(Scatter(m, xs[..n], bs[..n]), q, hist, e, xs, Gather(m1, xs))
    {
      PayloadKeepsRing(m, q, hist, xs, bs, n);
      KeepFewer(Scatter(m, xs[..n], bs[..n]), q, hist);
    }
    assert xs[..|xs|] == xs && bs[..|bs|] == bs;
    PayloadKeepsRing(m, q, hist, xs, bs, |xs|);
    KeepFewer(m1, q, hist);
    StoresInOrder(m1, q, hist, e);
    StagesSize(m1, q, |hist|, e);
    PublishedKeepsPayload(m1, q, |hist|, e, xs);
    if Distinct(xs) {
      ScatterGather(m, xs, bs);
    }
  }

  lemma LayoutOf(m: seq<byte>, q: QueueState, hist: seq<UsedElem>)
    requires UsedRing(m, q, hist, q.num)
    ensures UsedLayout(|m|, q)
  {
  }

  lemma StagesSize(m: seq<byte>, q: QueueState, k: nat, e: UsedElem)
    requires q.num > 0
    ensures |StoreId(m, q, k, e)| == |StoreLen(m, q, k, e)| == |Published(m, q, k, e)| == |m|
  {
  }

  // The available ring

  function AvailFlags(m: seq<byte>, q: QueueState): nat
    requires AvailLayout(|m|, q)
  {
    Get16(m, q.avail)
  }

  function AvailIdx(m: seq<byte>, q: QueueState): nat
    requires AvailLayout(|m|, q)
  {
    Get16(m, q.avail + 2)
  }

  /** The head published as number k. */
  function AvailHead(m: seq<byte>, q: QueueState, k: nat): nat
    requires AvailLayout(|m|, q)
  {
    Get16(m, q.avail + 4 + 2 * (k % q.num))
  }

  lemma AvailKept(m: seq<byte>, m': seq<byte>, q: QueueState, k: nat)
    requires AvailLayout(|m|, q) && Agree(m, m', AvailBytes(q))
    ensures AvailLayout(|m'|, q)
    ensures AvailFlags(m', q) == AvailFlags(m, q) && AvailIdx(m', q) == AvailIdx(m, q)
        && AvailHead(m', q, k) == AvailHead(m, q, k)
  {
    SpanAgrees(m, m', q.avail, 4 + 2 * q.num);
  }

  /** The available ring, byte by byte: flags, index, and one half word per slot. */
  lemma AvailBytesAre(m: seq<byte>, q: QueueState, k: nat)
    requires AvailLayout(|m|, q)
    ensures q.num > 0 && q.avail + 4 + 2 * (k % q.num) + 2 <= |m|
    ensures AvailFlags(m, q) == m[q.avail] as int + 0x100 * m[q.avail + 1] as int
    ensures AvailIdx(m, q) == m[q.avail + 2] as int + 0x100 * m[q.avail + 3] as int
    ensures var a := q.avail + 4 + 2 * (k % q.num); AvailHead(m, q, k) == m[a] as int + 0x100 * m[a + 1] as int
    ensures forall x :: x in AvailBytes(q) <==> q.avail <= x < q.avail + 4 + 2 * q.num
  {
    BytesOfSpan(q.avail, 4 + 2 * q.num);
  }

  /** Bit 0 of the first byte suppresses interrupts. */
  lemma SuppressBit(m: seq<byte>, q: QueueState)
    requires AvailLayout(|m|, q)
    ensures q.avail < |m| && AvailFlags(m, q) % 2 == m[q.avail] as int % 2
  {
  }

  method ReadAvailIdx(mem: array<byte>, q: QueueState) returns (v: nat)
    requires AvailLayout(mem.Length, q)
    ensures v == AvailIdx(mem[..], q)
  {
    v := Read16(mem, q.avail + 2);
  }

  /** The head in the slot that the 16-bit last_avail_idx selects is the one published as number k. */
  method ReadAvailHead(mem: array<byte>, q: QueueState, ghost k: nat) returns (head: nat)
    requires AvailLayout(mem.Length, q) && q.last == k % U16
    ensures head == AvailHead(mem[..], q, k)
  {
    hide BitAnd, Get16;
    SlotOf(k, q.num);
    head := Read16(mem, q.avail + 4 + BitAnd(q.last, q.num - 1) * 2);
  }

  /** The used ring does not depend on last_avail_idx. */
  lemma UsedRingMoves(m: seq<byte>, q: QueueState, hist: seq<UsedElem>, last: nat)
    requires UsedRing(m, q, hist, q.num)
    ensures UsedRing(m, q.(last := last), hist, q.num)
  {
    hide SlotHolds;
    forall j | 0 <= j < |hist| && |hist| - q.num <= j
      ensures SlotHolds(m, SlotAddr(q.(last := last), j), hist[j])
    {
      assert SlotHolds(m, SlotAddr(q, j), hist[j]);
    }
  }
}
