/**
 The network device: packets from the host into the receive queue, one call at
 a time, and the drain of the transmit queue.

 Valid carries what holds between calls, over any run: the receive queue's used
 index is its last_avail_idx; the packets handed to the tap and the entries of
 the transmit used ring are those of the chains taken, in publication order.
 */
module NetDevice {
  import opened Words
  import opened GuestMemory
  import opened Chains
  import opened QueueCopy
  import opened Rings
  import opened Registers
  import opened VirtioDevice

  const HDR: nat := 12

  /** The header of a received packet. */
  const ZEROS: seq<byte> := [0, 0, 0, 0, 0, 0, 0, 0, 0, 0, 0, 0]

  /** A published transmit chain and the bytes of its readable part. */
  datatype TxChain = TxChain(head: nat, ds: seq<Desc>, bytes: seq<byte>)

  /** The device sends a chain that has the right shape and room for the header. */
  predicate Sendable(c: TxChain) {
    WellShaped(c.ds) && |c.bytes| >= HDR
  }

  /** The packets of the chains: their readable bytes without the header. */
  function Packets(cs: seq<TxChain>): seq<seq<byte>> {
    if cs == [] then []
    else
      var c := cs[|cs| - 1];
      Packets(cs[..|cs| - 1]) + if Sendable(c) then [c.bytes[HDR..]] else []
  }

  function Completions(cs: seq<TxChain>): seq<UsedElem> {
    if cs == [] then []
    else
      var c := cs[|cs| - 1];
      Completions(cs[..|cs| - 1]) + if Sendable(c) then [UsedElem(c.head, 0)] else []
  }

  lemma TakeOne(cs: seq<TxChain>, c: TxChain)
    ensures Packets(cs + [c]) == Packets(cs) + if Sendable(c) then [c.bytes[HDR..]] else []
    ensures Completions(cs + [c]) == Completions(cs) + if Sendable(c) then [UsedElem(c.head, 0)] else []
  {
    assert (cs + [c])[..|cs|] == cs;
  }

  /** When every chain is well formed, packets and completions match the chains one to one, in order. */
  lemma {:induction false} InOrder(cs: seq<TxChain>)
    requires forall i :: 0 <= i < |cs| ==> WellShaped(cs[i].ds) && |cs[i].bytes| >= 12
    ensures |Packets(cs)| == |Completions(cs)| == |cs|
    ensures forall i :: 0 <= i < |cs| ==> |cs[i].bytes| >= 12 && Packets(cs)[i] == cs[i].bytes[12..]
    ensures forall i :: 0 <= i < |cs| ==> Completions(cs)[i] == UsedElem(cs[i].head, 0)
    decreases |cs|
  {
    if cs != [] {
      InOrder(cs[..|cs| - 1]);
    }
  }

  /**
   Exactly then: as soon as one chain is malformed or shorter than 12 bytes, a
   packet and a completion are missing.
   */
  lemma {:induction false} AllReturnedIff(cs: seq<TxChain>)
    ensures |Packets(cs)| == |Completions(cs)| <= |cs|
    ensures |Completions(cs)| == |cs| <==> forall i :: 0 <= i < |cs| ==> WellShaped(cs[i].ds) && |cs[i].bytes| >= 12
    decreases |cs|
  {
    if cs != [] {
      var n := |cs| - 1;
      var front := cs[..n];
      AllReturnedIff(front);
      if forall i :: 0 <= i < |cs| ==> Sendable(cs[i]) {
        assert forall i :: 0 <= i < |front| ==> front[i] == cs[i];
      } else if Sendable(cs[n]) {
        var i :| 0 <= i < |cs| && !Sendable(cs[i]);
        assert front[i] == cs[i];
      }
    }
  }

  /** Guest memory after the chains cs were returned, the first as completion number k. */
  function Returned(m: seq<byte>, q: QueueState, k: nat, cs: seq<TxChain>): (r: seq<byte>)
    requires q.num > 0
    ensures |r| == |m|
    decreases |cs|
  {
    if cs == [] then m
    else
      var front, c := cs[..|cs| - 1], cs[|cs| - 1];
      var m1 := Returned(m, q, k, front);
      if Sendable(c) then Published(m1, q, k + |Completions(front)|, UsedElem(c.head, 0)) else m1
  }

  lemma ReturnedOne(m: seq<byte>, q: QueueState, k: nat, cs: seq<TxChain>, c: TxChain)
    requires q.num > 0
    ensures Returned(m, q, k, cs + [c])
         == if Sendable(c) then Published(Returned(m, q, k, cs), q, k + |Completions(cs)|, UsedElem(c.head, 0))
            else Returned(m, q, k, cs)
  {
    assert (cs + [c])[..|cs|] == cs;
  }

  /** One interrupt event per completion, all with the driver's one setting. */
  function Interrupts(suppressed: bool, n: nat): (r: seq<Event>)
    ensures |r| == n && forall i :: 0 <= i < n ==> r[i] == Completed(suppressed)
  {
    seq(n, _ => Completed(suppressed))
  }

  lemma OneMoreInterrupt(f: bool, n: nat)
    ensures Interrupts(f, n + 1) == Interrupts(f, n) + [Completed(f)] && Interrupts(f, 0) == []
  {
  }

  /** A chain of one byte is taken, and neither sent nor returned. */
  lemma ShortChainLost()
    ensures var c := TxChain(0, [Desc(0, 1, 0, 0)], [0]);
            WellShaped(c.ds) && |Readable(c.ds)| == |c.bytes| == 1 && Packets([c]) == [] && Completions([c]) == []
  {
    var ds := [Desc(0, 1, 0, 0)];
    assert ds[1..] == [] && RunAddrs(ds[1..], false) == [];
    assert [TxChain(0, ds, [0])][..0] == [];
  }

  /** A transmit chain is in guest memory as the driver built it, clear of the used ring. */
  ghost predicate TxHolds(m: seq<byte>, q: QueueState, c: TxChain) {
    && GoodWalk(m, q.desc, c.head, c.ds, false)
    && InMem(|m|, Readable(c.ds)) && Gather(m, Readable(c.ds)) == c.bytes
    && |c.bytes| < U31 && |Writable(c.ds)| < U31
    && Entries(q.desc, c.head, c.ds) + AddrSet(Readable(c.ds)) !! UsedBytes(q)
  }

  lemma TxHoldsKept(m: seq<byte>, m': seq<byte>, q: QueueState, c: TxChain)
    requires TxHolds(m, q, c) && OnlyIn(m, m', UsedBytes(q))
    ensures TxHolds(m', q, c)
  {
    hide IsChain, UsedBytes, Gather;
    OnlyInAgrees(m, m', UsedBytes(q), Entries(q.desc, c.head, c.ds));
    OnlyInAgrees(m, m', UsedBytes(q), AddrSet(Readable(c.ds)));
    AgreeKeepsChain(m, m', q.desc, c.head, c.ds);
    AgreeKeepsGather(m, m', Readable(c.ds));
  }

  /** What is on the transmit ring beyond the first k chains. */
  ghost predicate TxQueue(m: seq<byte>, q: QueueState, k: nat, pub: seq<TxChain>) {
    && AvailLayout(|m|, q)
    && |pub| <= q.num && AvailIdx(m, q) == (k + |pub|) % U16
    && forall j :: 0 <= j < |pub| ==> AvailHead(m, q, k + j) == pub[j].head && TxHolds(m, q, pub[j])
  }

  lemma TxQueueKept(m: seq<byte>, m': seq<byte>, q: QueueState, k: nat, pub: seq<TxChain>)
    requires TxQueue(m, q, k, pub) && OnlyIn(m, m', UsedBytes(q)) && AvailBytes(q) !! UsedBytes(q)
    ensures TxQueue(m', q, k, pub)
  {
    hide TxHolds, UsedBytes, AvailBytes, AvailHead, AvailIdx;
    OnlyInAgrees(m, m', UsedBytes(q), AvailBytes(q));
    AvailKept(m, m', q, 0);
    forall j | 0 <= j < |pub|
      ensures AvailHead(m', q, k + j) == pub[j].head && TxHolds(m', q, pub[j])
    {
      AvailKept(m, m', q, k + j);
      TxHoldsKept(m, m', q, pub[j]);
    }
  }

  /** The rings of both queues are laid out apart from each other. */
  predicate RingsApart(size: nat, rx: QueueState, tx: QueueState) {
    && UsedLayout(size, rx) && AvailLayout(size, rx) && UsedLayout(size, tx) && AvailLayout(size, tx)
    && UsedBytes(rx) !! UsedBytes(tx)
    && AvailBytes(rx) !! UsedBytes(rx) && AvailBytes(tx) !! UsedBytes(tx)
    && AvailBytes(rx) !! UsedBytes(tx) && AvailBytes(tx) !! UsedBytes(rx)
  }

  /** Nothing of this depends on the two last_avail_idx. */
  lemma LayoutMoves(size: nat, rx: QueueState, tx: QueueState, r: nat, t: nat)
    requires RingsApart(size, rx, tx)
    ensures RingsApart(size, rx.(last := r), tx.(last := t))
    ensures UsedBytes(rx.(last := r)) == UsedBytes(rx) && UsedBytes(tx.(last := t)) == UsedBytes(tx)
  {
  }

  // The receive side

  /** What the driver provides for the next packet: a chain with its buffers clear of both used rings. */
  ghost predicate RxHolds(m: seq<byte>, rx: QueueState, tx: QueueState, head: nat, ds: seq<Desc>) {
    && GoodWalk(m, rx.desc, head, ds, true)
    && |Readable(ds)| < U31 && |Writable(ds)| < U31
    && AddrSet(Writable(ds)) !! UsedBytes(rx) && AddrSet(Writable(ds)) !! UsedBytes(tx)
    && AddrSet(Writable(ds)) !! AvailBytes(rx)
  }

  /**
   Guest memory after the packet p went into the chain ds and its completion
   followed the history hist; trace is what the driver could see on the way.
   From buffers that do not overlap, the guest reads the header and the packet,
   back to back, as soon as the index covers them.
   */
  ghost predicate Received(m: seq<byte>, rx: QueueState, hist: seq<UsedElem>, head: nat, ds: seq<Desc>, p: seq<byte>,
                           m': seq<byte>, trace: seq<seq<byte>>) {
    && |m'| == |m| && rx.num > 0
    && InMem(|m|, Writable(ds)) && HDR + |p| <= |Writable(ds)|
    && var xs, e := Writable(ds)[..HDR + |p|], UsedElem(head, HDR + |p|);
    && m' == Published(Scatter(m, xs, ZEROS + p), rx, |hist|, e)
    && trace == Stages(Scatter(m, xs, ZEROS + p), rx, |hist|, e)
    && PayloadBeforeIndex(m, rx, hist, e, xs, ZEROS + p)
    && (Distinct(Writable(ds)) ==> Gather(m', xs) == [0, 0, 0, 0, 0, 0, 0, 0, 0, 0, 0, 0] + p)
  }

  /** The two successive copies are one write of header and packet. */
  lemma HeaderThenPacket(m: seq<byte>, xs: seq<nat>, h: seq<byte>, p: seq<byte>)
    requires InMem(|m|, xs) && |h| + |p| <= |xs|
    ensures Window(xs, 0, |h|) == xs[..|h|] && Window(xs, |h|, |p|) == xs[|h|..|h| + |p|]
    ensures InMem(|m|, xs[..|h| + |p|])
    ensures Scatter(Scatter(m, xs[..|h|], h), xs[|h|..|h| + |p|], p) == Scatter(m, xs[..|h| + |p|], h + p)
  {
    assert xs[..|h| + |p|] == xs[..|h|] + xs[|h|..|h| + |p|];
    ScatterAppend(m, xs[..|h|], h, xs[|h|..|h| + |p|], p);
  }

  /** virtio_net_write_packet, the two copies: the header of zeros and the packet, over the writable part. */
  method PutPacket(mem: array<byte>, t: nat, head: nat, pkt: array<byte>, ghost ds: seq<Desc>)
    requires mem.Length < U64 && pkt != mem && pkt.Length + HDR < U31
    requires GoodWalk(mem[..], t, head, ds, true) && HDR + pkt.Length <= |Writable(ds)|
    modifies mem
    ensures InMem(mem.Length, Writable(ds))
    ensures mem[..] == Scatter(old(mem[..]), Writable(ds)[..HDR + pkt.Length], ZEROS + pkt[..])
  {
    hide IsChain, Scatter, RunInRange, Writable;
    ghost var m, xs, p := mem[..], Writable(ds), pkt[..];
    GoodViewInMem(m, t, head, ds, true);
    HeaderThenPacket(m, xs, ZEROS, p);
    var hdr := new byte[HDR](_ => 0);
    assert hdr[..] == ZEROS;
    var _, _ := MemcpyToFromQueue(mem, t, head, hdr, 0, HDR, true, ds);
    assert hdr[..][..HDR] == ZEROS;
    assert mem[..] == Scatter(m, xs[..HDR], ZEROS);
    assert GoodWalk(mem[..], t, head, ds, true);
    var copy := new byte[pkt.Length](i requires 0 <= i < pkt.Length reads pkt => pkt[i]);
    assert copy[..] == p;
    var _, _ := MemcpyToFromQueue(mem, t, head, copy, HDR, pkt.Length, true, ds);
    assert copy[..][..pkt.Length] == p;
  }

  /** Both used rings as guest memory holds them. */
  ghost predicate BothRings(m: seq<byte>, rx: QueueState, tx: QueueState, rxHist: seq<UsedElem>,
                            txHist: seq<UsedElem>) {
    UsedRing(m, rx, rxHist, rx.num) && UsedRing(m, tx, txHist, tx.num)
  }

  lemma BothRingsKept(m: seq<byte>, m': seq<byte>, a: set<nat>, rx: QueueState, tx: QueueState,
                      rxHist: seq<UsedElem>, txHist: seq<UsedElem>)
    requires BothRings(m, rx, tx, rxHist, txHist)
    requires OnlyIn(m, m', a) && a !! UsedBytes(rx) && a !! UsedBytes(tx)
    ensures BothRings(m', rx, tx, rxHist, txHist)
  {
    hide UsedRing, UsedBytes;
    OnlyInAgrees(m, m', a, UsedBytes(rx));
    OnlyInAgrees(m, m', a, UsedBytes(tx));
    UsedRingKept(m, m', rx, rxHist, rx.num);
    UsedRingKept(m, m', tx, txHist, tx.num);
  }

  lemma PacketIsThere(m: seq<byte>, m': seq<byte>, xs: seq<nat>, bs: seq<byte>)
    requires InMem(|m|, xs) && |bs| <= |xs| && InMem(|m|, xs[..|bs|]) && m' == Scatter(m, xs[..|bs|], bs)
    ensures OnlyIn(m, m', AddrSet(xs))
    ensures Distinct(xs) ==> Gather(m', xs[..|bs|]) == bs
  {
    ScatterOnlyIn(m, xs[..|bs|], bs, AddrSet(xs));
    if Distinct(xs) {
      ScatterGather(m, xs[..|bs|], bs);
    }
  }

  lemma PacketComesFirst(m: seq<byte>, q: QueueState, hist: seq<UsedElem>, e: UsedElem, xs: seq<nat>, bs: seq<byte>)
    requires UsedRing(m, q, hist, q.num) && InMem(|m|, xs) && |bs| <= |xs| && AddrSet(xs) !! UsedBytes(q)
    ensures PayloadBeforeIndex(m, q, hist, e, xs[..|bs|], bs)
  {
    hide UsedRing, UsedBytes, PayloadBeforeIndex;
    assert AddrSet(xs[..|bs|]) <= AddrSet(xs);
    PayloadFirst(m, q, hist, e, xs[..|bs|], bs);
  }

  /** A completion in one used ring leaves the packet where it is. */
  lemma PacketStays(m: seq<byte>, m1: seq<byte>, m2: seq<byte>, q: QueueState, xs: seq<nat>, n: nat)
    requires InMem(|m|, xs) && n <= |xs| && AddrSet(xs) !! UsedBytes(q)
    requires OnlyIn(m, m1, AddrSet(xs)) && OnlyIn(m1, m2, UsedBytes(q))
    ensures OnlyIn(m, m2, AddrSet(xs) + UsedBytes(q))
    ensures InMem(|m|, xs[..n]) && Gather(m2, xs[..n]) == Gather(m1, xs[..n])
  {
    hide UsedBytes;
    assert AddrSet(xs[..n]) <= AddrSet(xs);
    OnlyInAgrees(m1, m2, UsedBytes(q), AddrSet(xs[..n]));
    AgreeKeepsGather(m1, m2, xs[..n]);
  }

  /** The packet leaves both used rings as they are. */
  lemma PacketKeepsRings(m: seq<byte>, m1: seq<byte>, rx: QueueState, tx: QueueState,
                         rxHist: seq<UsedElem>, txHist: seq<UsedElem>, ds: seq<Desc>, p: seq<byte>)
    requires BothRings(m, rx, tx, rxHist, txHist)
    requires InMem(|m|, Writable(ds)) && HDR + |p| <= |Writable(ds)|
    requires InMem(|m|, Writable(ds)[..HDR + |p|]) && m1 == Scatter(m, Writable(ds)[..HDR + |p|], ZEROS + p)
    requires AddrSet(Writable(ds)) !! UsedBytes(rx) && AddrSet(Writable(ds)) !! UsedBytes(tx)
    ensures BothRings(m1, rx, tx, rxHist, txHist)
  {
    hide BothRings, UsedBytes, Writable, AddrSet, Scatter;
    PacketIsThere(m, m1, Writable(ds), ZEROS + p);
    BothRingsKept(m, m1, AddrSet(Writable(ds)), rx, tx, rxHist, txHist);
  }

  lemma AvailHasFlags(q: QueueState)
    ensures q.avail in AvailBytes(q) && q.avail + 1 in AvailBytes(q)
  {
    NotInSpan(q.avail, 4 + 2 * q.num, q.avail);
    NotInSpan(q.avail, 4 + 2 * q.num, q.avail + 1);
  }

  /** What is outside the available ring leaves its flags alone. */
  lemma FlagsStay(m: seq<byte>, m': seq<byte>, q: QueueState, a: set<nat>)
    requires AvailLayout(|m|, q) && OnlyIn(m, m', a) && a !! AvailBytes(q)
    ensures q.avail < |m| == |m'| && m'[q.avail] == m[q.avail]
  {
    hide AvailBytes;
    AvailHasFlags(q);
  }

  lemma PacketKeepsFlags(m: seq<byte>, m1: seq<byte>, rx: QueueState, ds: seq<Desc>, p: seq<byte>)
    requires AvailLayout(|m|, rx) && InMem(|m|, Writable(ds)) && HDR + |p| <= |Writable(ds)|
    requires InMem(|m|, Writable(ds)[..HDR + |p|]) && m1 == Scatter(m, Writable(ds)[..HDR + |p|], ZEROS + p)
    requires AddrSet(Writable(ds)) !! AvailBytes(rx)
    ensures rx.avail < |m| == |m1| && m1[rx.avail] == m[rx.avail]
  {
    hide AvailBytes, Writable, AddrSet, Scatter;
    PacketIsThere(m, m1, Writable(ds), ZEROS + p);
    FlagsStay(m, m1, rx, AddrSet(Writable(ds)));
  }

  /** The packet and its completion, put together. */
  lemma Assembled(m: seq<byte>, rx: QueueState, tx: QueueState, rxHist: seq<UsedElem>, txHist: seq<UsedElem>,
                  head: nat, ds: seq<Desc>, p: seq<byte>)
    requires BothRings(m, rx, tx, rxHist, txHist) && RingsApart(|m|, rx, tx)
    requires InMem(|m|, Writable(ds)) && HDR + |p| <= |Writable(ds)|
    requires AddrSet(Writable(ds)) !! UsedBytes(rx) && AddrSet(Writable(ds)) !! UsedBytes(tx)
    ensures rx.num > 0 && InMem(|m|, Writable(ds)[..HDR + |p|])
    ensures var m1, e := Scatter(m, Writable(ds)[..HDR + |p|], ZEROS + p), UsedElem(head, HDR + |p|);
            var m2 := Published(m1, rx, |rxHist|, e);
            && Received(m, rx, rxHist, head, ds, p, m2, Stages(m1, rx, |rxHist|, e))
            && OnlyIn(m, m2, AddrSet(Writable(ds)) + UsedBytes(rx))
            && UsedRing(m2, tx, txHist, tx.num)
  {
    hide UsedRing, UsedBytes, AvailBytes, Writable, AddrSet, Scatter, Gather, Published, Stages, PayloadBeforeIndex,
        OnlyIn;
    var xs, bs := Writable(ds), ZEROS + p;
    var m1, e := Scatter(m, xs[..|bs|], bs), UsedElem(head, HDR + |p|);
    PacketComesFirst(m, rx, rxHist, e, xs, bs);
    PacketKeepsRings(m, m1, rx, tx, rxHist, txHist, ds, p);
    PacketIsThere(m, m1, xs, bs);
    StagesSize(m1, rx, |rxHist|, e);
    PublishedFrame(m1, rx, |rxHist|, e);
    OtherRing(m1, Published(m1, rx, |rxHist|, e), rx, tx, txHist);
    PacketStays(m, m1, Published(m1, rx, |rxHist|, e), rx, xs, |bs|);
  }

  lemma StagesTail(trace: seq<seq<byte>>, m1: seq<byte>, q: QueueState, k: nat, e: UsedElem)
    requires q.num > 0
    ensures var t := trace + [m1] + Stages(m1, q, k, e)[1..]; trace <= t && t[|trace|..] == Stages(m1, q, k, e)
  {
    hide StoreId, StoreLen, Published;
  }

  lemma OtherRing(m: seq<byte>, m': seq<byte>, q: QueueState, other: QueueState, hist: seq<UsedElem>)
    requires UsedRing(m, other, hist, other.num) && OnlyIn(m, m', UsedBytes(q)) && UsedBytes(q) !! UsedBytes(other)
    ensures UsedRing(m', other, hist, other.num)
  {
    hide UsedRing, UsedBytes;
    OnlyInAgrees(m, m', UsedBytes(q), UsedBytes(other));
    UsedRingKept(m, m', other, hist, other.num);
  }

  lemma WalkIsChain(m: seq<byte>, t: nat, head: nat, ds: seq<Desc>, toQueue: bool)
    requires GoodWalk(m, t, head, ds, toQueue)
    ensures IsChain(m, t, head, ds)
  {
  }

  lemma SmallSize(xs: seq<nat>)
    requires |xs| < U31
    ensures SizeOf(xs) == |xs|
  {
  }

  lemma ReturnedFirst(m: seq<byte>, q: QueueState, hist: seq<UsedElem>, c: TxChain)
    requires UsedRing(m, q, hist, q.num)
    ensures q.num > 0
    ensures Returned(m, q, |hist|, [c]) == if Sendable(c) then Published(m, q, |hist|, UsedElem(c.head, 0)) else m
  {
    ReturnedOnly(m, q, |hist|, c);
  }

  lemma GatheredTail(m: seq<byte>, xs: seq<nat>, n: nat, b: seq<byte>)
    requires InMem(|m|, xs) && n <= |xs| && |b| == |xs| - n
    ensures Window(xs, n, |xs| - n) == xs[n..]
    ensures FlatWrite(b, 0, Gather(m, xs[n..])) == Gather(m, xs)[n..]
  {
    assert FlatWrite(b, 0, Gather(m, xs[n..])) == Gather(m, xs[n..]);
    assert Gather(m, xs[n..]) == Gather(m, xs)[n..];
  }

  lemma SameMemory(m: seq<byte>, a: set<nat>)
    ensures OnlyIn(m, m, a)
  {
  }

  lemma OnlyInTwice(m: seq<byte>, m1: seq<byte>, m2: seq<byte>, a: set<nat>)
    requires OnlyIn(m, m1, a) && OnlyIn(m1, m2, a)
    ensures OnlyIn(m, m2, a)
  {
  }

  lemma SameRing(q: QueueState, last: nat)
    ensures UsedBytes(q.(last := last)) == UsedBytes(q) && AvailBytes(q.(last := last)) == AvailBytes(q)
  {
  }

  /** Memory and interrupts after the chains cs were returned. */
  ghost predicate Drained(m: seq<byte>, q: QueueState, k: nat, cs: seq<TxChain>, m': seq<byte>,
                          log: seq<Event>, log': seq<Event>) {
    && q.num > 0 && q.avail < |m| == |m'|
    && m' == Returned(m, q, k, cs) && m'[q.avail] == m[q.avail]
    && log' == log + Interrupts(m[q.avail] % 2 == 1, |Completions(cs)|)
  }

  lemma DrainedNone(m: seq<byte>, q: QueueState, k: nat, log: seq<Event>)
    requires AvailLayout(|m|, q)
    ensures Drained(m, q, k, [], m, log, log) && Completions([]) == []
  {
    OneMoreInterrupt(m[q.avail] % 2 == 1, 0);
  }

  lemma DrainedOne(m: seq<byte>, q: QueueState, k: nat, cs: seq<TxChain>, m1: seq<byte>, log: seq<Event>,
                   log1: seq<Event>, c: TxChain, m2: seq<byte>, log2: seq<Event>)
    requires Drained(m, q, k, cs, m1, log, log1) && UsedLayout(|m|, q) && AvailLayout(|m|, q)
    requires AvailBytes(q) !! UsedBytes(q)
    requires m2 == Returned(m1, q, k + |Completions(cs)|, [c])
    requires log2 == log1 + Interrupts(m1[q.avail] % 2 == 1, if Sendable(c) then 1 else 0)
    ensures Drained(m, q, k, cs + [c], m2, log, log2)
  {
    hide Published, UsedBytes, AvailBytes;
    TakeOne(cs, c);
    ReturnedOne(m, q, k, cs, c);
    ReturnedOnly(m1, q, k + |Completions(cs)|, c);
    PublishedFrame(m1, q, k + |Completions(cs)|, UsedElem(c.head, 0));
    if Sendable(c) {
      FlagsStay(m1, m2, q, UsedBytes(q));
    }
    OneMoreInterrupt(m[q.avail] % 2 == 1, |Completions(cs)|);
    OneMoreInterrupt(m[q.avail] % 2 == 1, 0);
    assert log + Interrupts(m[q.avail] % 2 == 1, |Completions(cs)|) + [] == log
        + Interrupts(m[q.avail] % 2 == 1, |Completions(cs)|);
  }

  lemma TakenOne(before: seq<TxChain>, cs: seq<TxChain>, c: TxChain)
    ensures before + (cs + [c]) == before + cs + [c]
    ensures |Completions(cs + [c])| == |Completions(cs)| + if Sendable(c) then 1 else 0
    ensures |Completions(before + cs + [c])| == |Completions(before + cs)| + if Sendable(c) then 1 else 0
  {
    hide Completions, Packets, Sendable;
    TakeOne(cs, c);
    TakeOne(before + cs, c);
    assert before + (cs + [c]) == before + cs + [c];
  }

  lemma SameReturned(m: seq<byte>, q: QueueState, last: nat, k: nat, c: TxChain)
    requires q.num > 0
    ensures Returned(m, q.(last := last), k, [c]) == Returned(m, q, k, [c])
  {
    hide StoreLen, FlatWrite, Returned;
    ReturnedOnly(m, q, k, c);
    ReturnedOnly(m, q.(last := last), k, c);
    SamePublished(m, q, last, k, UsedElem(c.head, 0));
  }

  lemma ReturnedOnly(m: seq<byte>, q: QueueState, k: nat, c: TxChain)
    requires q.num > 0
    ensures Returned(m, q, k, [c]) == if Sendable(c) then Published(m, q, k, UsedElem(c.head, 0)) else m
  {
    hide Published;
    ReturnedOne(m, q, k, [], c);
    assert [] + [c] == [c];
  }

  lemma SamePublished(m: seq<byte>, q: QueueState, last: nat, k: nat, e: UsedElem)
    requires q.num > 0
    ensures Published(m, q.(last := last), k, e) == Published(m, q, k, e)
  {
    hide FlatWrite;
  }

  lemma SameQueue(m: seq<byte>, q: QueueState, last: nat, k: nat, c: TxChain)
    requires AvailLayout(|m|, q) && TxHolds(m, q, c)
    ensures TxHolds(m, q.(last := last), c) && UsedBytes(q.(last := last)) == UsedBytes(q)
    ensures AvailHead(m, q.(last := last), k) == AvailHead(m, q, k)
  {
  }

  /** The write notifies the transmit queue. */
  predicate Drains(off: nat, val: nat, size: nat) {
    off == 0x050 && val == 1 && size == 4
  }

  class Net {
    const dev: Device
    var tap: seq<seq<byte>>
    ghost var rxHist: seq<UsedElem>
    ghost var txHist: seq<UsedElem>
    ghost var taken: seq<TxChain>

    ghost predicate Valid()
      reads this, dev, dev.mem
    {
      && dev.Valid() && dev.manualRx
      && RingsApart(dev.mem.Length, dev.queue[0], dev.queue[1])
      && BothRings(dev.mem[..], dev.queue[0], dev.queue[1], rxHist, txHist)
      && dev.queue[0].last == |rxHist| % U16
      && dev.queue[1].last == |taken| % U16
      && tap == Packets(taken) && txHist == Completions(taken)
    }

    /** The queues are set up and the driver has zeroed the rings. */
    constructor (dev: Device)
      requires dev.Valid() && dev.manualRx && RingsApart(dev.mem.Length, dev.queue[0], dev.queue[1])
      requires dev.queue[0].last == 0 && dev.queue[1].last == 0
      requires BothRings(dev.mem[..], dev.queue[0], dev.queue[1], [], [])
      ensures Valid() && this.dev == dev && tap == [] && taken == [] && rxHist == []
    {
      this.dev := dev;
      tap, rxHist, txHist, taken := [], [], [], [];
    }

    /** In every state between calls the receive queue is in lockstep: the used index is last_avail_idx. */
    lemma Lockstep()
      requires Valid()
      ensures dev.queue[0].used + 4 <= dev.mem.Length && Get16(dev.mem[..], dev.queue[0].used + 2) == dev.queue[0].last
    {
    }

    /** The guest writes anywhere but in the used rings. */
    method GuestWrite(addr: nat, b: byte)
      requires Valid()
      requires addr < dev.mem.Length && addr !in UsedBytes(dev.queue[0]) && addr !in UsedBytes(dev.queue[1])
      modifies dev.mem
      ensures Valid()
      ensures dev.mem[..] == old(dev.mem[..])[addr := b]
    {
      hide UsedBytes, AvailBytes, BothRings, Packets, Completions;
      ghost var m := dev.mem[..];
      dev.mem[addr] := b;
      assert OnlyIn(m, dev.mem[..], {addr});
      BothRingsKept(m, dev.mem[..], {addr}, dev.queue[0], dev.queue[1], rxHist, txHist);
    }

    /** The packet into the chain, the completion, the next head. */
    method Deliver(head: nat, pkt: array<byte>, ghost ds: seq<Desc>)
      requires Valid() && pkt != dev.mem && pkt.Length + HDR < U31
      requires RxHolds(dev.mem[..], dev.queue[0], dev.queue[1], head, ds) && HDR + pkt.Length <= |Writable(ds)|
      modifies this`rxHist, dev`queue, dev`intStatus, dev`log, dev`trace, dev.mem
      ensures Valid()
      ensures rxHist == old(rxHist) + [UsedElem(head, 12 + pkt.Length)]
      ensures dev.log == old(dev.log) + [Completed(old(dev.mem[dev.queue[0].avail]) % 2 == 1)]
      ensures dev.intStatus == if old(dev.mem[dev.queue[0].avail]) % 2 == 0 then 1 else old(dev.intStatus)
      ensures OnlyIn(old(dev.mem[..]), dev.mem[..], AddrSet(Writable(ds)) + UsedBytes(dev.queue[0]))
      ensures old(dev.trace) <= dev.trace
      ensures Received(old(dev.mem[..]), old(dev.queue)[0], old(rxHist), head, ds, pkt[..], dev.mem[..],
                       dev.trace[|old(dev.trace)|..])
    {
      hide UsedBytes, AvailBytes, UsedRing, Packets, Completions, Writable, Readable, GoodWalk, Published, Stages;
      hide AddrSet, Scatter, OnlyIn, Received, QueueHolds, Pending, WordsOnly, IsPow2, Selected, LastGlobal;
      ghost var m, rx, tx, e := dev.mem[..], dev.queue[0], dev.queue[1], UsedElem(head, HDR + pkt.Length);
      PutPacket(dev.mem, dev.queue[0].desc, head, pkt, ds);
      ghost var m1 := dev.mem[..];
      dev.trace := dev.trace + [m1];
      PacketKeepsRings(m, m1, rx, tx, rxHist, txHist, ds, pkt[..]);
      PacketKeepsFlags(m, m1, rx, ds, pkt[..]);
      dev.ConsumeDesc(0, head, HDR + pkt.Length, rxHist);
      Assembled(m, rx, tx, rxHist, txHist, head, ds, pkt[..]);
      dev.AdvanceAvail(0);
      UsedRingMoves(dev.mem[..], rx, rxHist + [e], dev.queue[0].last);
      LayoutMoves(|m|, rx, tx, dev.queue[0].last, tx.last);
      StagesTail(old(dev.trace), m1, rx, |rxHist|, e);
      rxHist := rxHist + [e];
    }

    /** virtio_net_write_packet: one packet from the host. */
    method WritePacket(pkt: array<byte>, ghost ds: seq<Desc>) returns (delivered: bool)
      requires Valid() && pkt != dev.mem && pkt.Length + HDR < U31
      requires var rx := dev.queue[0];
               rx.ready != 0 && rx.last != AvailIdx(dev.mem[..], rx) ==>
                 RxHolds(dev.mem[..], rx, dev.queue[1], AvailHead(dev.mem[..], rx, |rxHist|), ds)
      modifies this`rxHist, dev`queue, dev`intStatus, dev`log, dev`trace, dev.mem
      ensures Valid()
      ensures delivered <==> old(dev.queue[0].ready != 0 && dev.queue[0].last != AvailIdx(dev.mem[..], dev.queue[0]))
                             && WellShaped(ds) && 12 + pkt.Length <= |Writable(ds)|
      ensures !delivered ==> dev.mem[..] == old(dev.mem[..]) && dev.queue == old(dev.queue) && rxHist == old(rxHist)
      ensures !delivered ==> dev.log == old(dev.log) && dev.trace == old(dev.trace)
      ensures old(dev.trace) <= dev.trace
      ensures delivered ==>
                && rxHist == old(rxHist) + [UsedElem(old(AvailHead(dev.mem[..], dev.queue[0], |rxHist|)),
                                                     12 + pkt.Length)]
                && dev.log == old(dev.log) + [Completed(old(dev.mem[dev.queue[0].avail]) % 2 == 1)]
                && OnlyIn(old(dev.mem[..]), dev.mem[..], AddrSet(Writable(ds)) + UsedBytes(dev.queue[0]))
                && Received(old(dev.mem[..]), old(dev.queue)[0], old(rxHist), rxHist[|rxHist| - 1].id, ds, pkt[..],
                            dev.mem[..],
                            dev.trace[|old(dev.trace)|..])
    {
      hide UsedBytes, AvailBytes, BothRings, Packets, Completions, AvailIdx, AvailHead, Writable, Readable, GoodWalk;
      hide QueueHolds, Pending, WordsOnly, IsPow2;
      delivered := false;
      var rx := dev.queue[0];
      if rx.ready == 0 {
        return;
      }
      var availIdx := ReadAvailIdx(dev.mem, rx);
      if rx.last == availIdx {
        return;
      }
      var head := ReadAvailHead(dev.mem, rx, |rxHist|);
      WalkIsChain(dev.mem[..], rx.desc, head, ds, true);
      var ret, readSize, writeSize := GetDescRwSize(dev.mem, rx.desc, head, ds);
      SmallSize(Writable(ds));
      if ret != 0 {
        return;
      }
      if HDR + pkt.Length > writeSize {
        return;
      }
      Deliver(head, pkt, ds);
      delivered := true;
    }

    /**
     virtio_net_recv_request: one transmit chain of the right shape. A chain
     too short for the header is neither sent nor completed.
     */
    method RecvRequest(head: nat, readSize: nat, ghost c: TxChain)
      requires dev.Valid() && RingsApart(dev.mem.Length, dev.queue[0], dev.queue[1])
      requires BothRings(dev.mem[..], dev.queue[0], dev.queue[1], rxHist, txHist)
      requires TxHolds(dev.mem[..], dev.queue[1], c) && WellShaped(c.ds) && head == c.head && readSize == |c.bytes|
      modifies this`tap, this`txHist, dev`intStatus, dev`log, dev`trace, dev.mem
      ensures dev.Valid()
      ensures BothRings(dev.mem[..], dev.queue[0], dev.queue[1], rxHist, txHist)
      ensures OnlyIn(old(dev.mem[..]), dev.mem[..], UsedBytes(dev.queue[1]))
      ensures tap == old(tap) + if Sendable(c) then [c.bytes[HDR..]] else []
      ensures txHist == old(txHist) + if Sendable(c) then [UsedElem(head, 0)] else []
      ensures dev.queue[1].num > 0 && dev.mem[..] == Returned(old(dev.mem[..]), dev.queue[1], |old(txHist)|, [c])
      ensures dev.log == old(dev.log) + Interrupts(old(dev.mem[dev.queue[1].avail]) % 2 == 1, |txHist| - |old(txHist)|)
    {
      hide UsedBytes, AvailBytes, UsedRing, GoodWalk, Published, AddrSet, Readable, Writable, WellShaped, QueueHolds;
      hide Pending, WordsOnly, IsPow2, Returned, Interrupts, Selected, LastGlobal;
      var tx := dev.queue[1];
      ReturnedFirst(dev.mem[..], tx, txHist, c);
      OneMoreInterrupt(dev.mem[tx.avail] % 2 == 1, 0);
      SameMemory(dev.mem[..], UsedBytes(tx));
      var ok, buf := TakePacket(head, readSize, c);
      if !ok {
        return;
      }
      tap := tap + [buf[..]];
      ghost var m := dev.mem[..];
      dev.ConsumeDesc(1, head, 0, txHist);
      PublishedFrame(m, tx, |txHist|, UsedElem(head, 0));
      OtherRing(m, dev.mem[..], tx, dev.queue[0], rxHist);
      txHist := txHist + [UsedElem(head, 0)];
    }

    /** The header and the packet out of the chain. */
    method TakePacket(head: nat, readSize: nat, ghost c: TxChain) returns (ok: bool, buf: array<byte>)
      requires dev.Valid() && TxHolds(dev.mem[..], dev.queue[1], c) && head == c.head && readSize == |c.bytes|
      modifies dev.mem
      ensures dev.mem[..] == old(dev.mem[..]) && fresh(buf)
      ensures ok <==> |c.bytes| >= HDR
      ensures ok ==> buf[..] == c.bytes[HDR..]
    {
      hide UsedBytes, GoodWalk, AddrSet, Readable, Writable, QueueHolds, Pending, WordsOnly, IsPow2, Selected,
          LastGlobal;
      var tx := dev.queue[1];
      var h := new byte[HDR](_ => 0);
      buf := h;
      var ret, _ := MemcpyToFromQueue(dev.mem, tx.desc, head, h, 0, HDR, false, c.ds);
      ok := ret >= 0;
      if ok {
        buf := new byte[readSize - HDR](_ => 0);
        GatheredTail(dev.mem[..], Readable(c.ds), HDR, buf[..]);
        var _, _ := MemcpyToFromQueue(dev.mem, tx.desc, head, buf, HDR, readSize - HDR, false, c.ds);
      }
    }

    /** The head, its sizes, and the request if it has the right shape. */
    method ServeNext(ghost c: TxChain)
      requires Valid()
      requires TxHolds(dev.mem[..], dev.queue[1], c) && AvailHead(dev.mem[..], dev.queue[1], |taken|) == c.head
      modifies this`tap, this`txHist, dev`intStatus, dev`log, dev`trace, dev.mem
      ensures dev.Valid()
      ensures BothRings(dev.mem[..], dev.queue[0], dev.queue[1], rxHist, txHist)
      ensures OnlyIn(old(dev.mem[..]), dev.mem[..], UsedBytes(dev.queue[1]))
      ensures tap == Packets(taken + [c]) && txHist == Completions(taken + [c])
      ensures dev.queue[1].num > 0 && dev.mem[..] == Returned(old(dev.mem[..]), dev.queue[1], |old(txHist)|, [c])
      ensures |txHist| >= |old(txHist)|
      ensures dev.log == old(dev.log) + Interrupts(old(dev.mem[dev.queue[1].avail]) % 2 == 1, |txHist| - |old(txHist)|)
    {
      hide UsedBytes, AvailBytes, UsedRing, GoodWalk, AddrSet, Readable, Writable, WellShaped, AvailHead, AvailIdx;
      hide Packets, Completions, QueueHolds, Pending, WordsOnly, IsPow2, Gather, SizeOf;
      var tx := dev.queue[1];
      var head := ReadAvailHead(dev.mem, tx, |taken|);
      WalkIsChain(dev.mem[..], tx.desc, head, c.ds, false);
      var ret, readSize, writeSize := GetDescRwSize(dev.mem, tx.desc, head, c.ds);
      SmallSize(Readable(c.ds));
      TakeOne(taken, c);
      ReturnedFirst(dev.mem[..], tx, txHist, c);
      OneMoreInterrupt(dev.mem[tx.avail] % 2 == 1, 0);
      if ret == 0 {
        RecvRequest(head, readSize, c);
      }
    }

    /** One turn of queue_notify on the transmit queue. */
    method TakeNext(ghost c: TxChain)
      requires Valid()
      requires TxHolds(dev.mem[..], dev.queue[1], c) && AvailHead(dev.mem[..], dev.queue[1], |taken|) == c.head
      modifies this`tap, this`txHist, this`taken, dev`queue, dev`intStatus, dev`log, dev`trace, dev.mem
      ensures Valid()
      ensures taken == old(taken) + [c]
      ensures dev.queue == old(dev.queue)[1 := old(dev.queue)[1].(last := (old(dev.queue)[1].last + 1) % U16)]
      ensures OnlyIn(old(dev.mem[..]), dev.mem[..], UsedBytes(old(dev.queue)[1]))
      ensures old(dev.queue)[1].num > 0 && |txHist| >= |old(txHist)|
      ensures dev.mem[..] == Returned(old(dev.mem[..]), old(dev.queue)[1], |old(txHist)|, [c])
      ensures dev.log == old(dev.log) + Interrupts(old(dev.mem[dev.queue[1].avail]) % 2 == 1, |txHist| - |old(txHist)|)
    {
      hide UsedBytes, AvailBytes, UsedRing, TxHolds, AvailHead, AvailIdx, Packets, Completions, QueueHolds, Pending;
      hide WordsOnly, IsPow2, OnlyIn, Returned, Interrupts;
      ghost var rx, tx := dev.queue[0], dev.queue[1];
      ServeNext(c);
      dev.AdvanceAvail(1);
      UsedRingMoves(dev.mem[..], tx, txHist, dev.queue[1].last);
      LayoutMoves(dev.mem.Length, rx, tx, rx.last, dev.queue[1].last);
      taken := taken + [c];
    }

    /**
     The drain of the transmit queue: every published chain, in order, if and
     only if fewer than 2^16 are waiting; of 2^16 none.
     */
    method DrainTx(ghost pub: seq<TxChain>)
      requires Valid() && TxQueue(dev.mem[..], dev.queue[1], |taken|, pub)
      modifies this`tap, this`txHist, this`taken, dev`queue, dev`intStatus, dev`log, dev`trace, dev.mem
      ensures Valid()
      ensures taken == old(taken) + if |pub| < U16 then pub else []
      ensures dev.queue[0] == old(dev.queue)[0]
      ensures dev.queue[1] == old(dev.queue)[1].(last := AvailIdx(old(dev.mem[..]), old(dev.queue)[1]))
      ensures OnlyIn(old(dev.mem[..]), dev.mem[..], UsedBytes(dev.queue[1]))
      ensures Drained(old(dev.mem[..]), old(dev.queue)[1], |old(txHist)|, if |pub| < U16 then pub else [], dev.mem[..],
                      old(dev.log), dev.log)
    {
      hide UsedBytes, AvailBytes, BothRings, AvailHead, AvailIdx, Packets, Completions, QueueHolds, Pending, WordsOnly;
      hide IsPow2, TxHolds, Selected, LastGlobal, OnlyIn, Returned, Interrupts, Drained;
      ghost var q, m, before, k := dev.queue[1], dev.mem[..], taken, |taken|;
      ghost var h, log := |txHist|, dev.log;
      DrainedNone(m, q, h, log);
      SameMemory(m, UsedBytes(q));
      var availIdx := ReadAvailIdx(dev.mem, dev.queue[1]);
      ghost var j := 0;
      while dev.queue[1].last != availIdx
        invariant Valid()
        invariant 0 <= j <= |pub| && taken == before + pub[..j] && dev.queue[0] == old(dev.queue)[0]
        invariant dev.queue[1] == q.(last := (k + j) % U16)
        invariant TxQueue(dev.mem[..], q, k, pub)
        invariant OnlyIn(m, dev.mem[..], UsedBytes(q))
        invariant |pub| == U16 ==> j == 0
        invariant Drained(m, q, h, pub[..j], dev.mem[..], log, dev.log) && |txHist| == h + |Completions(pub[..j])|
        decreases |pub| - j
      {
        ghost var m1, h1, log1 := dev.mem[..], |txHist|, dev.log;
        SameIndex(k + j, k + |pub|);
        SameQueue(m1, q, (k + j) % U16, k + j, pub[j]);
        TakeNext(pub[j]);
        TxQueueKept(m1, dev.mem[..], q, k, pub);
        OnlyInTwice(m, m1, dev.mem[..], UsedBytes(q));
        assert pub[..j + 1] == pub[..j] + [pub[j]];
        TakenOne(before, pub[..j], pub[j]);
        SameReturned(m1, q, (k + j) % U16, h1, pub[j]);
        DrainedOne(m, q, h, pub[..j], m1, log, log1, pub[j], dev.mem[..], dev.log);
        j := j + 1;
      }
      SameIndex(k + j, k + |pub|);
      assert j == |pub| ==> pub[..j] == pub;
      assert j == 0 ==> pub[..j] == [];
      SameRing(q, dev.queue[1].last);
    }

    /** queue_notify. The receive queue is left to the host side, the transmit queue is drained. */
    method QueueNotify(qi: nat, ghost pub: seq<TxChain>)
      requires Valid() && qi < MAX_QUEUE
      requires qi == 1 ==> TxQueue(dev.mem[..], dev.queue[1], |taken|, pub)
      modifies this`tap, this`txHist, this`taken, dev`queue, dev`intStatus, dev`log, dev`trace, dev.mem
      ensures Valid()
      ensures qi == 0 ==> taken == old(taken) && dev.mem[..] == old(dev.mem[..]) && dev.queue == old(dev.queue)
      ensures qi == 0 ==> dev.log == old(dev.log) && dev.intStatus == old(dev.intStatus) && tap == old(tap)
      ensures qi == 1 ==>
                && taken == old(taken) + (if |pub| < U16 then pub else [])
                && Drained(old(dev.mem[..]), old(dev.queue)[1], |old(txHist)|, if |pub| < U16 then pub else [],
                           dev.mem[..], old(dev.log), dev.log)
                && dev.queue[0] == old(dev.queue)[0]
                && dev.queue[1] == old(dev.queue)[1].(last := AvailIdx(old(dev.mem[..]), old(dev.queue)[1]))
      ensures OnlyIn(old(dev.mem[..]), dev.mem[..], UsedBytes(dev.queue[1]))
    {
      hide UsedBytes, AvailBytes, BothRings, Packets, Completions, QueueHolds, Pending, WordsOnly, Drained;
      if dev.queue[qi].manual {
        return;
      }
      DrainTx(pub);
    }

    /**
     virtio_mmio_write on a running device. Lockstep and order survive every
     write that is not about the queues themselves: interrupt acknowledgement,
     selection, status, configuration, and a notification with its drain.
     */
    method MmioWrite(off: nat, val: nat, size: nat, ghost pub: seq<TxChain>)
      requires Valid() && val < U32 && !ConcernsQueues(off, val, size)
      requires Drains(off, val, size) ==> TxQueue(dev.mem[..], dev.queue[1], |taken|, pub)
      modifies this`tap, this`txHist, this`taken, dev, dev.config, dev.mem
      ensures Valid() && rxHist == old(rxHist) && dev.queue[0] == old(dev.queue)[0]
      ensures dev.config[..] == if off >= 0x100 then ConfigWrite(old(dev.config[..]), dev.configSize, off - 0x100,
                                                                 val, size)
                                else old(dev.config[..])
      ensures Drains(off, val, size) ==>
                && taken == old(taken) + (if |pub| < U16 then pub else [])
                && Drained(old(dev.mem[..]), old(dev.queue)[1], |old(txHist)|, if |pub| < U16 then pub else [],
                           dev.mem[..], old(dev.log) + [Wrote(off, val)], dev.log)
      ensures !Drains(off, val, size) ==>
                && taken == old(taken) && dev.mem[..] == old(dev.mem[..]) && dev.queue == old(dev.queue)
                && dev.log == old(dev.log) + if off < 0x100 && size == 4 then [Wrote(off, val)] else []
    {
      hide UsedBytes, AvailBytes, UsedRing, Packets, Completions, QueueHolds, Pending, WordsOnly, IsPow2;
      hide Selected, LastGlobal, ConfigWrite, Drained;
      var notify := dev.MmioWrite(off, val, size);
      if notify.Some? {
        QueueNotify(notify.value, pub);
      }
    }
  }
}
