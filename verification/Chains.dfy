/**
 Descriptor chains in guest memory, their flattened views, and scatter/gather
 over a sequence of addresses (sections 2.6.5 and 2.6.8 of VIRTIO 1.1).
 */
module Chains {
  import opened Words
  import opened GuestMemory

  datatype Desc = Desc(addr: nat, len: nat, flags: nat, next: nat) {
    predicate HasNext() { flags % 2 == 1 }
    predicate IsWrite() { flags / 2 % 2 == 1 }
  }

  /** VRING_DESC_F_NEXT is 1 and VRING_DESC_F_WRITE is 2. */
  lemma FlagBits(d: Desc)
    ensures d.HasNext() <==> BitAnd(d.flags, 1) != 0
    ensures d.IsWrite() <==> BitAnd(d.flags, 2) != 0
  {
    LowBits(d.flags);
  }

  const DESC_SIZE: nat := 16

  function ParseDesc(b: seq<byte>): Desc
    requires |b| == DESC_SIZE
  {
    Desc(Get64(b, 0), Get32(b, 8), Get16(b, 12), Get16(b, 14))
  }

  /** The 64-bit guest address of a table entry. */
  function EntryAddr(t: nat, idx: nat): nat {
    (t + DESC_SIZE * idx) % U64
  }

  /** The whole entry is in guest memory. */
  predicate InTable(m: seq<byte>, t: nat, idx: nat) {
    EntryAddr(t, idx) + DESC_SIZE <= |m|
  }

  function DescAt(m: seq<byte>, t: nat, idx: nat): Desc
    requires InTable(m, t, idx)
  {
    ParseDesc(FlatRead(m, EntryAddr(t, idx), DESC_SIZE))
  }

  /** A descriptor in guest memory, byte by byte: entry idx of the table at t. */
  lemma DescBytes(m: seq<byte>, t: nat, idx: nat)
    requires InTable(m, t, idx)
    ensures var a := (t + 16 * idx) % 0x1_0000_0000_0000_0000;
            && a + 16 <= |m|
            && DescAt(m, t, idx) == Desc(Get64(m, a), Get32(m, a + 8), Get16(m, a + 12), Get16(m, a + 14))
  {
    var a := EntryAddr(t, idx);
    var b := FlatRead(m, a, DESC_SIZE);
    assert b == m[a..a + 16];
    forall k | 0 <= k < 16
      ensures b[k] == m[a + k]
    {
    }
  }

  /** The table entry of a descriptor whose fields fit a byte. */
  function SmallEntry(addr: byte, len: byte, flags: byte, next: byte): (b: seq<byte>)
    ensures |b| == DESC_SIZE
  {
    [addr, 0, 0, 0, 0, 0, 0, 0, len, 0, 0, 0, flags, 0, next, 0]
  }

  lemma SmallEntryParses(addr: byte, len: byte, flags: byte, next: byte)
    ensures ParseDesc(SmallEntry(addr, len, flags, next)) == Desc(addr, len, flags, next)
  {
    var b := SmallEntry(addr, len, flags, next);
    assert Get64(b, 0) == addr;
    assert Get32(b, 8) == len;
    assert Get16(b, 12) == flags && Get16(b, 14) == next;
  }

  /** A memory that begins with the entry. */
  lemma EntryAtStart(m: seq<byte>, b: seq<byte>)
    requires |b| == DESC_SIZE && b <= m
    ensures InTable(m, 0, 0) && EntryAddr(0, 0) == 0 && FlatRead(m, 0, DESC_SIZE) == b
        && DescAt(m, 0, 0) == ParseDesc(b)
  {
    hide ParseDesc;
  }

  /** ds is the finite chain that starts at descriptor idx of the table at t. */
  ghost predicate IsChain(m: seq<byte>, t: nat, idx: nat, ds: seq<Desc>)
    decreases |ds|
  {
    && |ds| > 0
    && InTable(m, t, idx)
    && ds[0] == DescAt(m, t, idx)
    && if ds[0].HasNext() then IsChain(m, t, ds[0].next, ds[1..]) else |ds| == 1
  }

  /** A memory and a head determine the chain. */
  lemma {:induction false} ChainUnique(m: seq<byte>, t: nat, idx: nat, ds: seq<Desc>, es: seq<Desc>)
    requires IsChain(m, t, idx, ds) && IsChain(m, t, idx, es)
    ensures ds == es
    decreases |ds|
  {
    assert ds[0] == es[0];
    if ds[0].HasNext() {
      ChainUnique(m, t, ds[0].next, ds[1..], es[1..]);
      assert ds == [ds[0]] + ds[1..] && es == [es[0]] + es[1..];
    }
  }

  /** The table index of the i-th descriptor of the chain that starts at idx. */
  function IndexAt(idx: nat, ds: seq<Desc>, i: nat): nat
    requires i < |ds|
  {
    if i == 0 then idx else ds[i - 1].next
  }

  lemma {:induction false} ChainSuffix(m: seq<byte>, t: nat, idx: nat, ds: seq<Desc>, i: nat)
    requires IsChain(m, t, idx, ds) && i < |ds|
    ensures IsChain(m, t, IndexAt(idx, ds, i), ds[i..])
    decreases i
  {
    if i > 0 {
      ChainSuffix(m, t, ds[0].next, ds[1..], i - 1);
      assert ds[1..][i - 1..] == ds[i..];
      assert IndexAt(ds[0].next, ds[1..], i - 1) == IndexAt(idx, ds, i);
    }
  }

  /** A chain that comes back to a descriptor has no end: a finite chain visits every descriptor at most once. */
  lemma NoRevisit(m: seq<byte>, t: nat, idx: nat, ds: seq<Desc>, i: nat, j: nat)
    requires IsChain(m, t, idx, ds) && i < j < |ds|
    ensures IndexAt(idx, ds, i) != IndexAt(idx, ds, j)
  {
    ChainSuffix(m, t, idx, ds, i);
    ChainSuffix(m, t, idx, ds, j);
    if IndexAt(idx, ds, i) == IndexAt(idx, ds, j) {
      ChainUnique(m, t, IndexAt(idx, ds, i), ds[i..], ds[j..]);
      assert false;
    }
  }

  // Flattened views

  function Span(a: nat, n: nat): (r: seq<nat>)
    ensures |r| == n
    ensures forall i :: 0 <= i < n ==> r[i] == a + i
  {
    seq(n, i requires 0 <= i < n => a + i)
  }

  /** The addresses of the leading descriptors whose direction is w. */
  function RunAddrs(ds: seq<Desc>, w: bool): seq<nat> {
    if ds == [] || ds[0].IsWrite() != w then []
    else Span(ds[0].addr, ds[0].len) + RunAddrs(ds[1..], w)
  }

  function SkipReadable(ds: seq<Desc>): seq<Desc> {
    if ds == [] || ds[0].IsWrite() then ds else SkipReadable(ds[1..])
  }

  /** The device-readable part of a chain as one sequence of guest addresses. */
  function Readable(ds: seq<Desc>): seq<nat> {
    RunAddrs(ds, false)
  }

  /** The device-writable part of a chain as one sequence of guest addresses. */
  function Writable(ds: seq<Desc>): seq<nat> {
    RunAddrs(SkipReadable(ds), true)
  }

  function View(ds: seq<Desc>, toQueue: bool): seq<nat> {
    if toQueue then Writable(ds) else Readable(ds)
  }

  /** Readable descriptors first, then only writable ones. */
  predicate WellShaped(ds: seq<Desc>) {
    forall i, j :: 0 <= i < j < |ds| && ds[i].IsWrite() ==> ds[j].IsWrite()
  }

  /** Two table entries, the first readable and linked to the second, which is writable: both views. */
  lemma TwoEntries(x: byte, n: byte, y: byte, k: byte)
    ensures var m := SmallEntry(x, n, 1, 1) + SmallEntry(y, k, 2, 0);
            var ds := [Desc(x, n, 1, 1), Desc(y, k, 2, 0)];
            IsChain(m, 0, 0, ds) && Readable(ds) == Span(x, n) && Writable(ds) == Span(y, k) && WellShaped(ds)
  {
    hide SmallEntry, ParseDesc;
    var b, e := SmallEntry(x, n, 1, 1), SmallEntry(y, k, 2, 0);
    var m := b + e;
    var ds := [Desc(x, n, 1, 1), Desc(y, k, 2, 0)];
    SmallEntryParses(x, n, 1, 1);
    SmallEntryParses(y, k, 2, 0);
    EntryAtStart(m, b);
    assert EntryAddr(0, 1) == 16 && FlatRead(m, 16, DESC_SIZE) == e;
    assert ds[1..] == [ds[1]] && ds[1..][1..] == [];
    assert RunAddrs(ds[1..], false) == [] && RunAddrs(ds[1..][1..], true) == [];
    assert SkipReadable(ds) == SkipReadable(ds[1..]) == ds[1..];
  }

  // Scatter and gather

  predicate InMem(n: nat, xs: seq<nat>) {
    forall i :: 0 <= i < |xs| ==> xs[i] < n
  }

  function Gather(m: seq<byte>, xs: seq<nat>): (r: seq<byte>)
    requires InMem(|m|, xs)
    ensures |r| == |xs|
    ensures forall i :: 0 <= i < |xs| ==> r[i] == m[xs[i]]
  {
    seq(|xs|, i requires 0 <= i < |xs| => m[xs[i]])
  }

  function Scatter(m: seq<byte>, xs: seq<nat>, bs: seq<byte>): (r: seq<byte>)
    requires |xs| == |bs|
    requires InMem(|m|, xs)
    ensures |r| == |m|
    decreases |xs|
  {
    if xs == [] then m else Scatter(m[xs[0] := bs[0]], xs[1..], bs[1..])
  }

  lemma {:induction false} ScatterAppend(m: seq<byte>, xs: seq<nat>, bs: seq<byte>, xs': seq<nat>, bs': seq<byte>)
    requires |xs| == |bs| && |xs'| == |bs'|
    requires InMem(|m|, xs) && InMem(|m|, xs')
    ensures InMem(|m|, xs + xs')
    ensures Scatter(m, xs + xs', bs + bs') == Scatter(Scatter(m, xs, bs), xs', bs')
    decreases |xs|
  {
    if xs == [] {
      assert xs + xs' == xs' && bs + bs' == bs';
    } else {
      assert (xs + xs')[1..] == xs[1..] + xs' && (bs + bs')[1..] == bs[1..] + bs';
      ScatterAppend(m[xs[0] := bs[0]], xs[1..], bs[1..], xs', bs');
    }
  }

  lemma {:induction false} ScatterFrame(m: seq<byte>, xs: seq<nat>, bs: seq<byte>, i: nat)
    requires |xs| == |bs| && InMem(|m|, xs)
    requires i < |m| && i !in xs
    ensures Scatter(m, xs, bs)[i] == m[i]
    decreases |xs|
  {
    if xs != [] {
      ScatterFrame(m[xs[0] := bs[0]], xs[1..], bs[1..], i);
    }
  }

  ghost predicate Distinct(xs: seq<nat>) {
    forall i, j :: 0 <= i < j < |xs| ==> xs[i] != xs[j]
  }

  /** What is scattered over distinct addresses is what is gathered from them. */
  lemma {:induction false} ScatterGather(m: seq<byte>, xs: seq<nat>, bs: seq<byte>)
    requires |xs| == |bs| && InMem(|m|, xs) && Distinct(xs)
    ensures Gather(Scatter(m, xs, bs), xs) == bs
    decreases |xs|
  {
    if xs != [] {
      var m1 := m[xs[0] := bs[0]];
      ScatterGather(m1, xs[1..], bs[1..]);
      assert xs[0] !in xs[1..];
      ScatterFrame(m1, xs[1..], bs[1..], xs[0]);
      var r := Scatter(m, xs, bs);
      forall i | 0 <= i < |xs|
        ensures Gather(r, xs)[i] == bs[i]
      {
        if i > 0 {
          assert Gather(r, xs[1..])[i - 1] == bs[1..][i - 1];
        }
      }
    }
  }

  /** Scattering over consecutive addresses is the flat write. */
  lemma {:induction false} ScatterSpan(m: seq<byte>, a: nat, bs: seq<byte>)
    requires a + |bs| <= |m|
    ensures InMem(|m|, Span(a, |bs|))
    ensures Scatter(m, Span(a, |bs|), bs) == FlatWrite(m, a, bs)
    decreases |bs|
  {
    if bs == [] {
      assert FlatWrite(m, a, bs) == m;
    } else {
      var m1 := m[a := bs[0]];
      assert Span(a, |bs|)[1..] == Span(a + 1, |bs[1..]|);
      ScatterSpan(m1, a + 1, bs[1..]);
      assert FlatWrite(m1, a + 1, bs[1..]) == FlatWrite(m, a, bs);
    }
  }

  lemma GatherSpan(m: seq<byte>, a: nat, n: nat)
    requires a + n <= |m|
    ensures InMem(|m|, Span(a, n))
    ensures Gather(m, Span(a, n)) == FlatRead(m, a, n)
  {
    assert Gather(m, Span(a, n)) == FlatRead(m, a, n);
  }

  // Memory that holds a chain

  /** No address of xs lies in a descriptor-table entry of the chain ds that starts at idx. */
  ghost predicate ClearOf(t: nat, idx: nat, ds: seq<Desc>, xs: seq<nat>)
    decreases |ds|
  {
    ds != [] ==>
      && (forall a :: a in xs ==> a < EntryAddr(t, idx) || EntryAddr(t, idx) + DESC_SIZE <= a)
      && ClearOf(t, ds[0].next, ds[1..], xs)
  }

  /** Two memories agree on every entry of the chain. */
  ghost predicate SameEntries(m: seq<byte>, m': seq<byte>, t: nat, idx: nat, ds: seq<Desc>)
    decreases |ds|
  {
    ds != [] ==>
      && FlatRead(m, EntryAddr(t, idx), DESC_SIZE) == FlatRead(m', EntryAddr(t, idx), DESC_SIZE)
      && SameEntries(m, m', t, ds[0].next, ds[1..])
  }

  lemma {:induction false} ChainKept(m: seq<byte>, m': seq<byte>, t: nat, idx: nat, ds: seq<Desc>)
    requires |m| == |m'|
    requires SameEntries(m, m', t, idx, ds)
    requires IsChain(m, t, idx, ds)
    ensures IsChain(m', t, idx, ds)
    decreases |ds|
  {
    if ds[0].HasNext() {
      ChainKept(m, m', t, ds[0].next, ds[1..]);
    }
  }

  /** Scattering clear of a chain keeps its table entries. */
  lemma {:induction false} ScatterKeepsEntries(m: seq<byte>, xs: seq<nat>, bs: seq<byte>, t: nat, idx: nat,
                                               ds: seq<Desc>)
    requires |xs| == |bs| && InMem(|m|, xs)
    requires IsChain(m, t, idx, ds)
    requires ClearOf(t, idx, ds, xs)
    ensures SameEntries(m, Scatter(m, xs, bs), t, idx, ds)
    ensures IsChain(Scatter(m, xs, bs), t, idx, ds)
    decreases |ds|
  {
    var m', e := Scatter(m, xs, bs), EntryAddr(t, idx);
    forall i | e <= i < e + DESC_SIZE
      ensures m'[i] == m[i]
    {
      ScatterFrame(m, xs, bs, i);
    }
    assert FlatRead(m, e, DESC_SIZE) == FlatRead(m', e, DESC_SIZE);
    if ds[0].HasNext() {
      ScatterKeepsEntries(m, xs, bs, t, ds[0].next, ds[1..]);
    } else {
      assert ds[1..] == [];
    }
  }

  // Memories that agree on a set of addresses

  /** The guest addresses of the chain's descriptor-table entries. */
  function Entries(t: nat, idx: nat, ds: seq<Desc>): set<nat>
    decreases |ds|
  {
    if ds == [] then {}
    else AddrSet(Span(EntryAddr(t, idx), DESC_SIZE)) + Entries(t, ds[0].next, ds[1..])
  }

  function AddrSet(xs: seq<nat>): set<nat> {
    set a | a in xs
  }

  /** Two memories agree on the bytes of a set. */
  ghost predicate Agree(m: seq<byte>, m': seq<byte>, a: set<nat>) {
    |m| == |m'| && forall x :: x in a && x < |m| ==> m[x] == m'[x]
  }

  lemma {:induction false} AgreeKeepsChain(m: seq<byte>, m': seq<byte>, t: nat, idx: nat, ds: seq<Desc>)
    requires IsChain(m, t, idx, ds)
    requires Agree(m, m', Entries(t, idx, ds))
    ensures IsChain(m', t, idx, ds)
    decreases |ds|
  {
    hide ParseDesc;
    var e := EntryAddr(t, idx);
    forall i | e <= i < e + DESC_SIZE
      ensures m[i] == m'[i]
    {
      assert Span(e, DESC_SIZE)[i - e] == i;
      assert i in AddrSet(Span(e, DESC_SIZE));
    }
    assert FlatRead(m, e, DESC_SIZE) == FlatRead(m', e, DESC_SIZE);
    if ds[0].HasNext() {
      AgreeKeepsChain(m, m', t, ds[0].next, ds[1..]);
    }
  }

  lemma AgreeKeepsGather(m: seq<byte>, m': seq<byte>, xs: seq<nat>)
    requires InMem(|m|, xs) && Agree(m, m', AddrSet(xs))
    ensures InMem(|m'|, xs) && Gather(m', xs) == Gather(m, xs)
  {
    forall i | 0 <= i < |xs|
      ensures m'[xs[i]] == m[xs[i]]
    {
      assert xs[i] in AddrSet(xs);
    }
    assert Gather(m', xs) == Gather(m, xs);
  }

  /** Only bytes of the set a differ. */
  ghost predicate OnlyIn(m: seq<byte>, m': seq<byte>, a: set<nat>) {
    |m| == |m'| && forall x :: 0 <= x < |m| && x !in a ==> m[x] == m'[x]
  }

  lemma OnlyInAgrees(m: seq<byte>, m': seq<byte>, a: set<nat>, b: set<nat>)
    requires OnlyIn(m, m', a) && a !! b
    ensures Agree(m, m', b)
  {
  }

  lemma ScatterOnlyIn(m: seq<byte>, xs: seq<nat>, bs: seq<byte>, a: set<nat>)
    requires |xs| == |bs| && InMem(|m|, xs) && AddrSet(xs) <= a
    ensures OnlyIn(m, Scatter(m, xs, bs), a)
  {
    forall x | 0 <= x < |m| && x !in a
      ensures Scatter(m, xs, bs)[x] == m[x]
    {
      assert x !in AddrSet(xs);
      ScatterFrame(m, xs, bs, x);
    }
  }
}
