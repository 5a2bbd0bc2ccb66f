/**
 Walking a descriptor chain: the scatter/gather copy between a host buffer and
 a chain, and the sizes of a chain's two parts.

 The copy is total: it is defined on every guest memory, cyclic chains
 included. The ghost argument ds names the chain when there is one.
 */
module QueueCopy {
  import opened Words
  import opened GuestMemory
  import opened Chains

  const WALK_LIMIT: nat := 1025

  /** A descriptor before its first fetch. */
  const NO_BYTES: seq<byte> := [0, 0, 0, 0, 0, 0, 0, 0, 0, 0, 0, 0, 0, 0, 0, 0]

  /** The segments of the leading run of direction w are inside guest memory and shorter than 2^31. */
  ghost predicate RunInRange(size: nat, ds: seq<Desc>, w: bool) {
    ds != [] && ds[0].IsWrite() == w ==>
      && ds[0].len < U31
      && ds[0].addr + ds[0].len <= size
      && RunInRange(size, ds[1..], w)
  }

  lemma {:induction false} RunInMem(size: nat, ds: seq<Desc>, w: bool)
    requires RunInRange(size, ds, w)
    ensures InMem(size, RunAddrs(ds, w))
  {
    if ds != [] && ds[0].IsWrite() == w {
      RunInMem(size, ds[1..], w);
    }
  }

  /** What the copy relies on: a finite chain of bounded length, in range, clear of its own table entries. */
  ghost predicate GoodWalk(m: seq<byte>, t: nat, idx: nat, ds: seq<Desc>, toQueue: bool) {
    && IsChain(m, t, idx, ds)
    && |ds| <= WALK_LIMIT
    && RunInRange(|m|, if toQueue then SkipReadable(ds) else ds, toQueue)
    && (toQueue ==> ClearOf(t, idx, ds, Writable(ds)))
  }

  lemma GoodViewInMem(m: seq<byte>, t: nat, idx: nat, ds: seq<Desc>, toQueue: bool)
    requires GoodWalk(m, t, idx, ds, toQueue)
    ensures InMem(|m|, View(ds, toQueue))
  {
    RunInMem(|m|, if toQueue then SkipReadable(ds) else ds, toQueue);
  }

  /** The part of the view that a copy of count bytes at offset reaches. */
  function Window(xs: seq<nat>, offset: nat, count: nat): (r: seq<nat>)
    ensures |r| <= count
    ensures |r| == count <==> count == 0 || offset + count <= |xs|
    ensures forall i :: 0 <= i < |r| ==> offset + i < |xs| && r[i] == xs[offset + i]
  {
    if offset <= |xs| then xs[offset..Min(offset + count, |xs|)] else []
  }

  /** A fetch overwrites the descriptor with what memory holds of the entry. */
  function Fetched(m: seq<byte>, t: nat, idx: nat, b: seq<byte>): (r: seq<byte>)
    requires |b| == DESC_SIZE
    ensures |r| == DESC_SIZE
  {
    FlatWrite(b, 0, FlatRead(m, EntryAddr(t, idx), DESC_SIZE))
  }

  lemma FetchedDesc(m: seq<byte>, t: nat, idx: nat, b: seq<byte>)
    requires |b| == DESC_SIZE
    ensures InTable(m, t, idx) ==>
              && Translates(|m|, EntryAddr(t, idx), DESC_SIZE)
              && Fetched(m, t, idx, b) == FlatRead(m, EntryAddr(t, idx), DESC_SIZE)
              && ParseDesc(Fetched(m, t, idx, b)) == DescAt(m, t, idx)
    ensures EntryAddr(t, idx) >= |m| ==> Fetched(m, t, idx, b) == b
    ensures ParseDesc(Fetched(m, t, idx, b)).len < U32 && ParseDesc(Fetched(m, t, idx, b)).next < U16
  {
    var a := EntryAddr(t, idx);
    if InTable(m, t, idx) {
      assert FlatWrite(b, 0, FlatRead(m, a, DESC_SIZE)) == FlatRead(m, a, DESC_SIZE);
    }
    if a >= |m| {
      assert FlatWrite(b, 0, []) == b;
    }
  }

  method GetDesc(mem: array<byte>, t: nat, idx: nat) returns (ret: int, desc: Desc)
    requires mem.Length < U64
    ensures ret == 0 || ret == -1
    ensures InTable(mem[..], t, idx) ==> ret == 0 && desc == DescAt(mem[..], t, idx)
    ensures desc == ParseDesc(Fetched(mem[..], t, idx, NO_BYTES))
    ensures desc.len < U32 && desc.next < U16
  {
    hide FlatWrite, FlatRead, ParseDesc, Translates, EntryAddr;
    var d := new byte[DESC_SIZE](_ => 0);
    assert d[..] == NO_BYTES;
    FetchedDesc(mem[..], t, idx, d[..]);
    ret := MemcpyFromGuest(mem, d, 0, EntryAddr(t, idx), DESC_SIZE);
    desc := ParseDesc(d[..]);
  }

  /** Find the first device-writable descriptor, looking at no more than 1025 of them. */
  method FirstWritable(mem: array<byte>, t: nat, start: Desc, ghost idx: nat, ghost ds: seq<Desc>, ghost xs: seq<nat>)
    returns (ret: int, desc: Desc, ghost at: nat, ghost rest: seq<Desc>, ghost fetches: nat)
    requires mem.Length < U64
    requires start.len < U32
    ensures ret == 0 || ret == -1
    ensures desc.len < U32
    ensures fetches <= WALK_LIMIT
    ensures IsChain(mem[..], t, idx, ds) && |ds| <= WALK_LIMIT && start == ds[0] ==>
              && (ret == 0 <==> SkipReadable(ds) != [])
              && (ret == 0 ==>
                    && rest == SkipReadable(ds) && desc == rest[0] && |rest| <= |ds|
                    && IsChain(mem[..], t, at, rest)
                    && (ClearOf(t, idx, ds, xs) ==> ClearOf(t, at, rest, xs)))
  {
    hide ParseDesc, FlatRead, FlatWrite;
    ghost var good := IsChain(mem[..], t, idx, ds) && |ds| <= WALK_LIMIT && start == ds[0];
    desc, at, rest, fetches := start, idx, ds, 0;
    var i := 0;
    while true
      invariant 0 <= i == fetches <= WALK_LIMIT
      invariant desc.len < U32
      invariant good ==>
          && IsChain(mem[..], t, at, rest) && desc == rest[0]
          && SkipReadable(rest) == SkipReadable(ds)
          && |rest| + i <= |ds|
          && (ClearOf(t, idx, ds, xs) ==> ClearOf(t, at, rest, xs))
      decreases WALK_LIMIT - i
    {
      if i > 1024 {
        return -1, desc, at, rest, fetches;
      }
      if desc.IsWrite() {
        return 0, desc, at, rest, fetches;
      }
      if !desc.HasNext() {
        assert good ==> rest[1..] == [];
        return -1, desc, at, rest, fetches;
      }
      ghost var next := desc.next;
      ret, desc := GetDesc(mem, t, desc.next);
      fetches := fetches + 1;
      if ret < 0 {
        return -1, desc, at, rest, fetches;
      }
      if good {
        at, rest := next, rest[1..];
      }
      i := i + 1;
    }
  }

  /** Find the descriptor that holds the byte at offset of the run of direction w. */
  method SeekOffset(mem: array<byte>, t: nat, start: Desc, offset: nat, w: bool,
                    ghost idx: nat, ghost ds: seq<Desc>, ghost xs: seq<nat>)
    returns (ret: int, desc: Desc, o: nat, ghost at: nat, ghost rest: seq<Desc>, ghost fetches: nat)
    requires mem.Length < U64
    requires start.len < U32
    ensures ret == 0 || ret == -1
    ensures fetches <= WALK_LIMIT
    ensures ret == 0 ==> o < desc.len < U32
    ensures IsChain(mem[..], t, idx, ds) && |ds| <= WALK_LIMIT && start == ds[0] ==>
              && (ret == 0 <==> offset < |RunAddrs(ds, w)|)
              && (ret == 0 ==>
                    && IsChain(mem[..], t, at, rest) && desc == rest[0] && desc.IsWrite() == w && |rest| <= |ds|
                    && o <= offset && RunAddrs(rest, w) == RunAddrs(ds, w)[offset - o..]
                    && (RunInRange(mem.Length, ds, w) ==> RunInRange(mem.Length, rest, w))
                    && (ClearOf(t, idx, ds, xs) ==> ClearOf(t, at, rest, xs)))
  {
    hide ParseDesc, FlatRead, FlatWrite;
    ghost var good := IsChain(mem[..], t, idx, ds) && |ds| <= WALK_LIMIT && start == ds[0];
    desc, o, at, rest, fetches := start, offset, idx, ds, 0;
    var i := 0;
    while true
      invariant 0 <= i == fetches <= WALK_LIMIT
      invariant desc.len < U32
      invariant good ==>
          && IsChain(mem[..], t, at, rest) && desc == rest[0]
          && 0 <= offset - o <= |RunAddrs(ds, w)|
          && RunAddrs(rest, w) == RunAddrs(ds, w)[offset - o..]
          && |rest| + i <= |ds|
          && (RunInRange(mem.Length, ds, w) ==> RunInRange(mem.Length, rest, w))
          && (ClearOf(t, idx, ds, xs) ==> ClearOf(t, at, rest, xs))
      decreases WALK_LIMIT - i
    {
      if i > 1024 {
        return -1, desc, o, at, rest, fetches;
      }
      if desc.IsWrite() != w {
        return -1, desc, o, at, rest, fetches;
      }
      if o < desc.len {
        return 0, desc, o, at, rest, fetches;
      }
      if !desc.HasNext() {
        assert good ==> RunAddrs(rest[1..], w) == [];
        return -1, desc, o, at, rest, fetches;
      }
      ghost var next := desc.next;
      o := o - desc.len;
      if good {
        assert RunAddrs(rest[1..], w) == RunAddrs(rest, w)[desc.len..];
        at, rest := next, rest[1..];
      }
      ret, desc := GetDesc(mem, t, desc.next);
      fetches := fetches + 1;
      if ret < 0 {
        return -1, desc, o, at, rest, fetches;
      }
      i := i + 1;
    }
  }

  /** One descriptor's share of the remaining window. */
  lemma WindowStep(d: Desc, tail: seq<nat>, o: nat, count: nat, l: nat)
    requires o <= d.len && l == Min(count, d.len - o)
    ensures Window(Span(d.addr, d.len) + tail, o, count) == Span(d.addr + o, l) + Window(tail, 0, count - l)
  {
    var xs := Span(d.addr, d.len) + tail;
    assert Window(xs, o, count) == Span(d.addr + o, l) + Window(tail, 0, count - l);
  }

  lemma ScatterStep(m: seq<byte>, a: nat, l: nat, tail: seq<nat>, b: seq<byte>, pos: nat)
    requires a + l <= |m| && InMem(|m|, tail) && pos + l + |tail| <= |b|
    ensures InMem(|m|, Span(a, l) + tail)
    ensures Scatter(m, Span(a, l) + tail, b[pos..pos + l + |tail|])
         == Scatter(FlatWrite(m, a, b[pos..pos + l]), tail, b[pos + l..pos + l + |tail|])
  {
    ScatterSpan(m, a, b[pos..pos + l]);
    assert b[pos..pos + l + |tail|] == b[pos..pos + l] + b[pos + l..pos + l + |tail|];
    ScatterAppend(m, Span(a, l), b[pos..pos + l], tail, b[pos + l..pos + l + |tail|]);
  }

  lemma GatherStep(m: seq<byte>, a: nat, l: nat, tail: seq<nat>, b: seq<byte>, pos: nat)
    requires a + l <= |m| && InMem(|m|, tail)
    ensures InMem(|m|, Span(a, l) + tail)
    ensures FlatWrite(b, pos, Gather(m, Span(a, l) + tail))
         == FlatWrite(FlatWrite(b, pos, FlatRead(m, a, l)), pos + l, Gather(m, tail))
  {
    GatherSpan(m, a, l);
    assert Gather(m, Span(a, l) + tail) == Gather(m, Span(a, l)) + Gather(m, tail);
    FlatWriteJoin(b, pos, FlatRead(m, a, l), Gather(m, tail));
  }

  /** What remains to be copied, seen from a position in the run. */
  ghost predicate AtWork(m: seq<byte>, t: nat, at: nat, rest: seq<Desc>, w: bool, xs: seq<nat>) {
    && IsChain(m, t, at, rest)
    && rest[0].IsWrite() == w
    && RunInRange(|m|, rest, w)
    && (w ==> ClearOf(t, at, rest, xs) && forall a :: a in RunAddrs(rest, w) ==> a in xs)
  }

  lemma AtWorkFacts(m: seq<byte>, t: nat, at: nat, rest: seq<Desc>, w: bool, xs: seq<nat>)
    requires AtWork(m, t, at, rest, w, xs)
    ensures |rest| > 0
    ensures rest[0].len < U31 && rest[0].addr + rest[0].len <= |m|
    ensures RunAddrs(rest, w) == Span(rest[0].addr, rest[0].len) + RunAddrs(rest[1..], w)
    ensures InMem(|m|, RunAddrs(rest[1..], w))
  {
    RunInMem(|m|, rest[1..], w);
  }

  lemma AtWorkInMem(m: seq<byte>, t: nat, at: nat, rest: seq<Desc>, w: bool, xs: seq<nat>, o: nat, n: nat)
    requires AtWork(m, t, at, rest, w, xs)
    ensures InMem(|m|, Window(RunAddrs(rest, w), o, n))
  {
    RunInMem(|m|, rest, w);
  }

  lemma {:induction false} ClearOfSubset(t: nat, at: nat, ds: seq<Desc>, xs: seq<nat>, ys: seq<nat>)
    requires ClearOf(t, at, ds, xs)
    requires forall a :: a in ys ==> a in xs
    ensures ClearOf(t, at, ds, ys)
    decreases |ds|
  {
    if ds != [] {
      ClearOfSubset(t, ds[0].next, ds[1..], xs, ys);
    }
  }

  /** A chunk written into the current descriptor leaves the walk intact. */
  lemma ChunkKeepsWalk(m: seq<byte>, t: nat, at: nat, rest: seq<Desc>, xs: seq<nat>, o: nat, bs: seq<byte>)
    requires AtWork(m, t, at, rest, true, xs)
    requires o + |bs| <= rest[0].len
    ensures AtWork(FlatWrite(m, rest[0].addr + o, bs), t, at, rest, true, xs)
  {
    hide ParseDesc, FlatRead;
    var a := rest[0].addr + o;
    var ys := Span(a, |bs|);
    assert RunAddrs(rest, true) == Span(rest[0].addr, rest[0].len) + RunAddrs(rest[1..], true);
    forall y | y in ys
      ensures y in xs
    {
      var i :| 0 <= i < |ys| && y == ys[i];
      assert RunAddrs(rest, true)[o + i] == y;
    }
    ClearOfSubset(t, at, rest, xs, ys);
    ScatterSpan(m, a, bs);
    ScatterKeepsEntries(m, ys, bs, t, at, rest);
  }

  /** Following a NEXT flag from a position in the run. */
  lemma NextAtWork(m: seq<byte>, t: nat, at: nat, rest: seq<Desc>, w: bool, xs: seq<nat>)
    requires AtWork(m, t, at, rest, w, xs) && rest[0].HasNext()
    ensures IsChain(m, t, rest[0].next, rest[1..])
    ensures rest[1].IsWrite() == w ==> AtWork(m, t, rest[0].next, rest[1..], w, xs)
    ensures rest[1].IsWrite() != w ==> RunAddrs(rest[1..], w) == []
  {
    assert RunAddrs(rest, w) == Span(rest[0].addr, rest[0].len) + RunAddrs(rest[1..], w);
  }

  /** The state of a copy: what is left, applied to the current bytes, gives what was asked for. */
  ghost predicate Progress(w: bool, m0: seq<byte>, b0: seq<byte>, todo: seq<nat>,
                           m: seq<byte>, b: seq<byte>, left: seq<nat>, pos: nat) {
    && |m| == |m0| && |b| == |b0|
    && |todo| == pos + |left| <= |b0|
    && InMem(|m0|, todo) && InMem(|m0|, left)
    && if w then b == b0 && Scatter(m, left, b0[pos..pos + |left|]) == Scatter(m0, todo, b0[..|todo|])
       else m == m0 && FlatWrite(b, pos, Gather(m0, left)) == FlatWrite(b0, 0, Gather(m0, todo))
  }

  /** One chunk of the copy. */
  ghost predicate Chunk(w: bool, m: seq<byte>, b: seq<byte>, m': seq<byte>, b': seq<byte>, a: nat, pos: nat, l: nat) {
    && pos + l <= |b|
    && if w then m' == FlatWrite(m, a, b[pos..pos + l]) && b' == b
       else b' == FlatWrite(b, pos, FlatRead(m, a, l)) && m' == m
  }

  lemma SentProgress(m0: seq<byte>, b0: seq<byte>, todo: seq<nat>, m: seq<byte>, pos: nat, a: nat, l: nat,
                     left: seq<nat>)
    requires a + l <= |m| && InMem(|m|, left) && Progress(true, m0, b0, todo, m, b0, Span(a, l) + left, pos)
    ensures Progress(true, m0, b0, todo, FlatWrite(m, a, b0[pos..pos + l]), b0, left, pos + l)
  {
    hide FlatWrite, Scatter;
    ScatterStep(m, a, l, left, b0, pos);
  }

  lemma ReceivedProgress(m0: seq<byte>, b0: seq<byte>, todo: seq<nat>, b: seq<byte>, pos: nat, a: nat, l: nat,
                         left: seq<nat>)
    requires a + l <= |m0| && InMem(|m0|, left) && Progress(false, m0, b0, todo, m0, b, Span(a, l) + left, pos)
    ensures Progress(false, m0, b0, todo, m0, FlatWrite(b, pos, FlatRead(m0, a, l)), left, pos + l)
  {
    hide FlatWrite, FlatRead, Gather;
    GatherStep(m0, a, l, left, b, pos);
  }

  lemma ChunkProgress(w: bool, m0: seq<byte>, b0: seq<byte>, todo: seq<nat>,
                      m: seq<byte>, b: seq<byte>, pos: nat, m': seq<byte>, b': seq<byte>,
                      t: nat, at: nat, rest: seq<Desc>, xs: seq<nat>, o: nat, c: nat, l: nat)
    returns (left: seq<nat>)
    requires |rest| > 0 && AtWork(m, t, at, rest, w, xs)
    requires o <= rest[0].len && l == Min(c, rest[0].len - o)
    requires Progress(w, m0, b0, todo, m, b, Window(RunAddrs(rest, w), o, c), pos)
    requires Chunk(w, m, b, m', b', rest[0].addr + o, pos, l)
    ensures left == Window(RunAddrs(rest[1..], w), 0, c - l)
    ensures |Window(RunAddrs(rest, w), o, c)| == l + |left|
    ensures Progress(w, m0, b0, todo, m', b', left, pos + l)
    ensures AtWork(m', t, at, rest, w, xs)
  {
    hide FlatRead, FlatWrite, AtWork, Progress, Window, RunAddrs;
    AtWorkFacts(m, t, at, rest, w, xs);
    ProgressSame(w, m0, b0, todo, m, b, Window(RunAddrs(rest, w), o, c), pos);
    var a, tail := rest[0].addr + o, RunAddrs(rest[1..], w);
    left := Window(tail, 0, c - l);
    WindowStep(rest[0], tail, o, c, l);
    if w {
      SentProgress(m0, b0, todo, m, pos, a, l, left);
      ChunkKeepsWalk(m, t, at, rest, xs, o, b0[pos..pos + l]);
    } else {
      ReceivedProgress(m0, b0, todo, b, pos, a, l, left);
    }
  }

  /** A copy changes only its target. */
  lemma ProgressSame(w: bool, m0: seq<byte>, b0: seq<byte>, todo: seq<nat>, m: seq<byte>, b: seq<byte>, left: seq<nat>,
                     pos: nat)
    requires Progress(w, m0, b0, todo, m, b, left, pos)
    ensures if w then b == b0 else m == m0
  {
  }

  lemma Finished(w: bool, m0: seq<byte>, b0: seq<byte>, todo: seq<nat>, m: seq<byte>, b: seq<byte>, pos: nat)
    requires Progress(w, m0, b0, todo, m, b, [], pos)
    ensures w ==> m == Scatter(m0, todo, b[..|todo|])
    ensures !w ==> b == FlatWrite(b0, 0, Gather(m, todo))
  {
    if !w {
      assert FlatWrite(b, pos, []) == b;
    }
  }

  lemma Started(w: bool, m: seq<byte>, b: seq<byte>, t: nat, at: nat, ds: seq<Desc>, xs: seq<nat>, o: nat, c: nat)
    requires AtWork(m, t, at, ds, w, xs) && c <= |b|
    ensures var todo := Window(RunAddrs(ds, w), o, c); Progress(w, m, b, todo, m, b, todo, 0)
  {
    AtWorkInMem(m, t, at, ds, w, xs, o, c);
  }

  /** The transfer of one chunk, to or from the guest. */
  method MoveChunk(mem: array<byte>, addr: nat, buf: array<byte>, pos: nat, l: nat, toQueue: bool)
    requires mem.Length < U64
    requires buf != mem && pos + l <= buf.Length
    modifies mem, buf
    ensures Chunk(toQueue, old(mem[..]), old(buf[..]), mem[..], buf[..], addr % U64, pos, l)
  {
    if toQueue {
      var _ := MemcpyToGuest(mem, addr % U64, buf, pos, l);
    } else {
      var _ := MemcpyFromGuest(mem, buf, pos, addr % U64, l);
    }
  }

  /** Move on to the next descriptor of the run, if there is one. */
  method Advance(mem: array<byte>, t: nat, desc: Desc, w: bool, ghost at: nat, ghost rest: seq<Desc>,
                 ghost xs: seq<nat>)
    returns (ret: int, next: Desc, ghost fetches: nat)
    requires mem.Length < U64
    ensures ret == 0 || ret == -1
    ensures ret == 0 ==> next.len < U32
    ensures fetches <= 1
    ensures AtWork(mem[..], t, at, rest, w, xs) && desc == rest[0] ==>
              && (ret == 0 ==> |rest| > 1 && next == rest[1] && AtWork(mem[..], t, desc.next, rest[1..], w, xs))
              && (ret != 0 ==> RunAddrs(rest[1..], w) == [])
  {
    fetches := 0;
    if !desc.HasNext() {
      return -1, desc, 0;
    }
    if AtWork(mem[..], t, at, rest, w, xs) && desc == rest[0] {
      NextAtWork(mem[..], t, at, rest, w, xs);
    }
    ret, next := GetDesc(mem, t, desc.next);
    fetches := 1;
    if ret == 0 && next.IsWrite() != w {
      ret := -1;
    }
  }

  /** The walk and the copy together, at the top of the copying loop. */
  ghost predicate Working(w: bool, m0: seq<byte>, b0: seq<byte>, todo: seq<nat>, m: seq<byte>, b: seq<byte>,
                          t: nat, at: nat, rest: seq<Desc>, xs: seq<nat>, o: nat, c: nat, pos: nat) {
    && |rest| > 0
    && AtWork(m, t, at, rest, w, xs)
    && Progress(w, m0, b0, todo, m, b, Window(RunAddrs(rest, w), o, c), pos)
  }

  /** The outcome of a copy of the addresses todo. */
  ghost predicate Copied(w: bool, m0: seq<byte>, b0: seq<byte>, todo: seq<nat>, m: seq<byte>, b: seq<byte>) {
    && |b| == |b0| && |todo| <= |b|
    && InMem(|m0|, todo)
    && if w then b == b0 && m == Scatter(m0, todo, b[..|todo|]) else m == m0 && b == FlatWrite(b0, 0, Gather(m, todo))
  }

  lemma CopiedNothing(w: bool, m: seq<byte>, b: seq<byte>)
    ensures Copied(w, m, b, [], m, b)
  {
    assert FlatWrite(b, 0, []) == b;
  }

  /** What one turn of the copying loop came to. */
  datatype Turn = More(desc: Desc, o: nat, pos: nat, c: nat) | Done | Short | Undefined

  /** One turn of the copying loop. */
  method CopyTurn(mem: array<byte>, t: nat, desc: Desc, o: nat, buf: array<byte>, pos: nat, c: nat, toQueue: bool,
                  ghost m0: seq<byte>, ghost b0: seq<byte>, ghost todo: seq<nat>,
                  ghost at: nat, ghost rest: seq<Desc>, ghost xs: seq<nat>)
    returns (turn: Turn, ghost fetches: nat)
    requires mem.Length < U64
    requires buf != mem
    requires o <= desc.len < U32
    requires 0 < c && pos + c <= buf.Length
    modifies mem, buf
    ensures fetches <= 1
    ensures if toQueue then buf[..] == old(buf[..]) else mem[..] == old(mem[..])
    ensures turn.More? ==> turn.o <= turn.desc.len < U32 && 0 < turn.c && turn.pos + turn.c == pos + c
    ensures old(Working(toQueue, m0, b0, todo, mem[..], buf[..], t, at, rest, xs, o, c, pos)) && desc == rest[0] ==>
              match turn
              case More(d, o', pos', c') =>
                && |rest| > 1 && d == rest[1]
                && Working(toQueue, m0, b0, todo, mem[..], buf[..], t, desc.next, rest[1..], xs, o', c', pos')
              case Done => |todo| == pos + c && Copied(toQueue, m0, b0, todo, mem[..], buf[..])
              case Short => |todo| < pos + c && Copied(toQueue, m0, b0, todo, mem[..], buf[..])
              case Undefined => false
  {
    hide ParseDesc, FlatRead, FlatWrite, IsChain, Gather, Scatter, AtWork, Chunk, RunAddrs;
    ghost var good := Working(toQueue, m0, b0, todo, mem[..], buf[..], t, at, rest, xs, o, c, pos) && desc == rest[0];
    if good {
      AtWorkFacts(mem[..], t, at, rest, toQueue, xs);
      assert (desc.addr + o) % U64 == desc.addr + o;
    }
    var l := Min(c, ToInt32(desc.len - o));
    if l < 0 {
      // A segment of 2^31 bytes or more moves the C pointers backwards.
      return Undefined, 0;
    }
    ghost var m, b := mem[..], buf[..];
    MoveChunk(mem, desc.addr + o, buf, pos, l, toQueue);
    ghost var left: seq<nat> := [];
    if good {
      left := ChunkProgress(toQueue, m0, b0, todo, m, b, pos, mem[..], buf[..], t, at, rest, xs, o, c, l);
    }
    if c - l == 0 {
      if good {
        Finished(toQueue, m0, b0, todo, mem[..], buf[..], pos + l);
      }
      return Done, 0;
    }
    // Bytes are left, so the chunk went to the end of the descriptor.
    var ret, next;
    ret, next, fetches := Advance(mem, t, desc, toQueue, at, rest, xs);
    if ret < 0 {
      if good {
        Finished(toQueue, m0, b0, todo, mem[..], buf[..], pos + l);
      }
      return Short, fetches;
    }
    return More(next, 0, pos + l, c - l), fetches;
  }

  /** Copy count bytes from position offset of the current descriptor on. */
  method Transfer(mem: array<byte>, t: nat, start: Desc, offset: nat, buf: array<byte>, count: nat, toQueue: bool,
                  ghost idx: nat, ghost ds: seq<Desc>, ghost xs: seq<nat>)
    returns (ret: int, ghost fetches: nat)
    requires mem.Length < U64
    requires buf != mem
    requires offset < start.len < U32
    requires 0 < count <= buf.Length && count < U31
    modifies mem, buf
    ensures ret == 0 || ret == -1 || ret == -2
    ensures fetches <= WALK_LIMIT
    ensures if toQueue then buf[..] == old(buf[..]) else mem[..] == old(mem[..])
    ensures old(AtWork(mem[..], t, idx, ds, toQueue, xs)) && 0 < |ds| <= WALK_LIMIT && start == ds[0] ==>
              var todo := Window(RunAddrs(ds, toQueue), offset, count);
              && ret == (if |todo| == count then 0 else -1)
              && Copied(toQueue, old(mem[..]), old(buf[..]), todo, mem[..], buf[..])
  {
    hide ParseDesc, FlatRead, FlatWrite, IsChain, Gather, Scatter, Progress, Copied;
    ghost var good := AtWork(mem[..], t, idx, ds, toQueue, xs) && 0 < |ds| <= WALK_LIMIT && start == ds[0];
    ghost var m0, b0 := mem[..], buf[..];
    ghost var at, rest := idx, ds;
    ghost var todo := Window(RunAddrs(ds, toQueue), offset, count);
    if good {
      Started(toQueue, m0, b0, t, idx, ds, xs, offset, count);
    }
    var desc, o, c, pos := start, offset, count, 0;
    fetches := 0;
    var i := 0;
    while true
      invariant 0 <= fetches <= i <= WALK_LIMIT
      invariant 0 <= o <= desc.len < U32
      invariant 0 < c && pos + c == count
      invariant if toQueue then buf[..] == b0 else mem[..] == m0
      invariant good ==>
          && 0 < |rest| <= |ds| - i && desc == rest[0]
          && Working(toQueue, m0, b0, todo, mem[..], buf[..], t, at, rest, xs, o, c, pos)
      decreases WALK_LIMIT - i
    {
      if i > 1024 {
        return -1, fetches;
      }
      var turn;
      ghost var f;
      turn, f := CopyTurn(mem, t, desc, o, buf, pos, c, toQueue, m0, b0, todo, at, rest, xs);
      fetches := fetches + f;
      match turn {
        case Done => return 0, fetches;
        case Short => return -1, fetches;
        case Undefined => return -2, fetches;
        case More(d, o', pos', c') =>
          if good {
            at, rest := desc.next, rest[1..];
          }
          desc, o, pos, c := d, o', pos', c';
      }
      i := i + 1;
    }
  }

  /**
   The scatter/gather copy. On a chain it moves exactly the window
   [offset, offset + count) of the flattened readable or writable part, as far
   as that part reaches, and answers 0 exactly when the window is complete.
   On any memory at all it stops after at most 1 + 3 * 1025 descriptor fetches.
   */
  method MemcpyToFromQueue(mem: array<byte>, t: nat, head: nat, buf: array<byte>, offset: nat, count: nat,
                           toQueue: bool,
                           ghost ds: seq<Desc>)
    returns (ret: int, ghost fetches: nat)
    requires mem.Length < U64
    requires buf != mem && count <= buf.Length && count < U31
    modifies mem, buf
    ensures fetches <= 1 + 3 * WALK_LIMIT
    ensures if toQueue then buf[..] == old(buf[..]) else mem[..] == old(mem[..])
    ensures old(GoodWalk(mem[..], t, head, ds, toQueue)) ==>
              var todo := Window(View(ds, toQueue), offset, count);
              && ret == (if count == 0 || offset + count <= |View(ds, toQueue)| then 0 else -1)
              && Copied(toQueue, old(mem[..]), old(buf[..]), todo, mem[..], buf[..])
              && IsChain(mem[..], t, head, ds)
  {
    hide ParseDesc, FlatRead, FlatWrite, Gather, Scatter;
    ghost var good := GoodWalk(mem[..], t, head, ds, toQueue);
    ghost var m0, xs := mem[..], View(ds, toQueue);
    fetches := 0;
    if count == 0 {
      CopiedNothing(toQueue, mem[..], buf[..]);
      return 0, fetches;
    }
    var desc;
    ret, desc := GetDesc(mem, t, head);
    fetches := 1;
    if ret < 0 {
      return -1, fetches;
    }
    if good {
      GoodViewInMem(m0, t, head, ds, toQueue);
      CopiedNothing(toQueue, mem[..], buf[..]);
    }
    ghost var at, rest, f := head, ds, 0;
    if toQueue {
      ret, desc, at, rest, f := FirstWritable(mem, t, desc, head, ds, xs);
      fetches := fetches + f;
      if ret < 0 {
        return -1, fetches;
      }
    }
    var o;
    ghost var at2, rest2;
    ret, desc, o, at2, rest2, f := SeekOffset(mem, t, desc, offset, toQueue, at, rest, xs);
    fetches := fetches + f;
    if ret < 0 {
      return -1, fetches;
    }
    assert good ==> AtWork(m0, t, at2, rest2, toQueue, xs);
    assert good ==> Window(RunAddrs(rest2, toQueue), o, count) == Window(xs, offset, count);
    ret, f := Transfer(mem, t, desc, o, buf, count, toQueue, at2, rest2, xs);
    fetches := fetches + f;
    if good && toQueue {
      ghost var todo := Window(xs, offset, count);
      ClearOfSubset(t, head, ds, xs, todo);
      ScatterKeepsEntries(m0, todo, buf[..|todo|], t, head, ds);
    }
  }

  /** Total length of a run, as the C int that accumulates it holds it. */
  function SizeOf(xs: seq<nat>): int {
    ToInt32(|xs| % U32)
  }

  predicate AllWritable(ds: seq<Desc>) {
    forall i :: 0 <= i < |ds| ==> ds[i].IsWrite()
  }

  lemma {:induction false} SkipsToWritable(ds: seq<Desc>)
    ensures WellShaped(ds) <==> AllWritable(SkipReadable(ds))
  {
    if ds != [] {
      if ds[0].IsWrite() {
        assert SkipReadable(ds) == ds;
        assert AllWritable(ds) ==> WellShaped(ds);
        assert WellShaped(ds) ==> AllWritable(ds);
      } else {
        SkipsToWritable(ds[1..]);
        assert forall i :: 0 <= i < |ds[1..]| ==> ds[1..][i] == ds[i + 1];
        assert forall i :: 0 < i < |ds| ==> ds[i] == ds[1..][i - 1];
        assert WellShaped(ds[1..]) <==> WellShaped(ds);
      }
    }
  }

  lemma AddWrap(x: nat, y: nat)
    ensures (x % U32 + y) % U32 == (x + y) % U32
  {
  }

  /**
   The size walk, holding descriptor d, reads exactly the descriptors ds and
   ends: at the end of the chain, or at the first readable descriptor after a
   writable one (w says that a writable one was read before).
   */
  ghost predicate WalkFrom(m: seq<byte>, t: nat, d: Desc, ds: seq<Desc>, w: bool)
    decreases |ds|
  {
    && |ds| > 0 && ds[0] == d
    && if d.HasNext() && !(w && !d.IsWrite()) then
         InTable(m, t, d.next) && WalkFrom(m, t, DescAt(m, t, d.next), ds[1..], w || d.IsWrite())
       else |ds| == 1
  }

  /** The descriptor that the walk starts with: the head's entry, or zeros when that is out of reach. */
  function First(m: seq<byte>, t: nat, head: nat): Desc {
    ParseDesc(Fetched(m, t, head, NO_BYTES))
  }

  lemma FirstInTable(m: seq<byte>, t: nat, head: nat)
    ensures InTable(m, t, head) ==> First(m, t, head) == DescAt(m, t, head)
    ensures EntryAddr(t, head) >= |m| ==> First(m, t, head) == Desc(0, 0, 0, 0)
  {
    hide EntryAddr;
    FetchedDesc(m, t, head, NO_BYTES);
  }

  /** On a chain the walk ends, after all of it or at the descriptor that is out of place. */
  lemma {:induction false} ChainWalkEnds(m: seq<byte>, t: nat, idx: nat, ds: seq<Desc>, w: bool) returns (n: nat)
    requires IsChain(m, t, idx, ds)
    ensures 0 < n <= |ds| && WalkFrom(m, t, DescAt(m, t, idx), ds[..n], w)
    ensures n < |ds| ==> !ds[n - 1].IsWrite() && (w || exists i :: 0 <= i < n - 1 && ds[i].IsWrite())
    decreases |ds|
  {
    hide DescAt;
    if ds[0].HasNext() && !(w && !ds[0].IsWrite()) {
      var rest := ds[1..];
      var k := ChainWalkEnds(m, t, ds[0].next, rest, w || ds[0].IsWrite());
      n := k + 1;
      assert ds[..n][1..] == rest[..k];
      if n < |ds| && !w && !ds[0].IsWrite() {
        var i :| 0 <= i < k - 1 && rest[i].IsWrite();
        assert ds[i + 1].IsWrite();
      }
    } else {
      n := 1;
    }
  }

  /** A walk over a well-shaped sequence is a whole chain. */
  lemma {:induction false} WholeChain(m: seq<byte>, t: nat, idx: nat, ds: seq<Desc>, w: bool)
    requires InTable(m, t, idx) && WalkFrom(m, t, DescAt(m, t, idx), ds, w) && WellShaped(ds) && (w ==> AllWritable(ds))
    ensures IsChain(m, t, idx, ds)
    decreases |ds|
  {
    hide DescAt;
    if ds[0].HasNext() {
      WholeChain(m, t, ds[0].next, ds[1..], w || ds[0].IsWrite());
    }
  }

  /** The readable run of a chain; stops at the first writable descriptor. */
  method ReadableSize(mem: array<byte>, t: nat, start: Desc, ghost ds: seq<Desc>)
    returns (ended: bool, r: nat, desc: Desc)
    requires mem.Length < U64
    requires WalkFrom(mem[..], t, start, ds, false)
    ensures r == |Readable(ds)| % U32
    ensures ended <==> SkipReadable(ds) == []
    ensures !ended ==> WalkFrom(mem[..], t, desc, SkipReadable(ds), false) && desc.IsWrite()
  {
    hide DescAt;
    ghost var rest, sum: nat := ds, 0;
    desc, r := start, 0;
    while !desc.IsWrite()
      invariant WalkFrom(mem[..], t, desc, rest, false)
      invariant SkipReadable(rest) == SkipReadable(ds)
      invariant r == sum % U32 && sum + |Readable(rest)| == |Readable(ds)|
      decreases |rest|
    {
      AddWrap(sum, desc.len);
      r, sum := (r + desc.len) % U32, sum + desc.len;
      if !desc.HasNext() {
        assert Readable(rest[1..]) == [] && SkipReadable(rest[1..]) == [];
        return true, r, desc;
      }
      rest := rest[1..];
      var _, next := GetDesc(mem, t, desc.next);
      desc := next;
    }
    ended := false;
  }

  /** The rest of a chain, which has to be writable throughout. */
  method WritableSize(mem: array<byte>, t: nat, start: Desc, ghost ws: seq<Desc>)
    returns (ret: int, w: nat)
    requires mem.Length < U64
    requires WalkFrom(mem[..], t, start, ws, false) && start.IsWrite()
    ensures ret == 0 || ret == -1
    ensures ret == 0 <==> AllWritable(ws)
    ensures w < U32
    ensures ret == 0 ==> w == |RunAddrs(ws, true)| % U32
  {
    hide DescAt;
    ghost var rest, sum: nat, k: nat := ws, 0, 0;
    var desc := start;
    w := 0;
    while true
      invariant WalkFrom(mem[..], t, desc, rest, k > 0)
      invariant k < |ws| && rest == ws[k..]
      invariant forall i :: 0 <= i < k ==> ws[i].IsWrite()
      invariant w == sum % U32 && sum + |RunAddrs(rest, true)| == |RunAddrs(ws, true)|
      decreases |rest|
    {
      assert rest[0] == ws[k];
      if !desc.IsWrite() {
        return -1, 0;
      }
      AddWrap(sum, desc.len);
      w, sum := (w + desc.len) % U32, sum + desc.len;
      if !desc.HasNext() {
        assert RunAddrs(rest[1..], true) == [];
        return 0, w;
      }
      rest, k := rest[1..], k + 1;
      var _, next := GetDesc(mem, t, desc.next);
      desc := next;
    }
  }

  /** The sizes of the two parts, wherever the walk ends; module SizeLoop says exactly where that is. */
  method SizeWalk(mem: array<byte>, t: nat, head: nat, ghost ds: seq<Desc>)
    returns (ret: int, readSize: int, writeSize: int)
    requires mem.Length < U64
    requires WalkFrom(mem[..], t, First(mem[..], t, head), ds, false)
    ensures ret == 0 || ret == -1
    ensures ret == 0 <==> WellShaped(ds)
    ensures ret == 0 && InTable(mem[..], t, head) ==> IsChain(mem[..], t, head, ds)
    ensures ret == 0 ==> readSize == SizeOf(Readable(ds)) && writeSize == SizeOf(Writable(ds))
  {
    hide DescAt, WellShaped, WalkFrom, IsChain, First, InTable;
    SkipsToWritable(ds);
    FirstInTable(mem[..], t, head);
    if WellShaped(ds) && InTable(mem[..], t, head) {
      WholeChain(mem[..], t, head, ds, false);
    }
    var desc := FetchFirst(mem, t, head);
    var ended, r, first := ReadableSize(mem, t, desc, ds);
    if ended {
      return 0, ToInt32(r), 0;
    }
    var w;
    ret, w := WritableSize(mem, t, first, SkipReadable(ds));
    return ret, ToInt32(r), ToInt32(w);
  }

  method FetchFirst(mem: array<byte>, t: nat, head: nat) returns (desc: Desc)
    requires mem.Length < U64
    ensures desc == First(mem[..], t, head)
  {
    var _, d := GetDesc(mem, t, head);
    desc := d;
  }

  lemma ShapeOfPrefix(ds: seq<Desc>, n: nat)
    requires 0 < n <= |ds|
    requires n < |ds| ==> !ds[n - 1].IsWrite() && exists i :: 0 <= i < n - 1 && ds[i].IsWrite()
    ensures WellShaped(ds[..n]) <==> WellShaped(ds)
    ensures WellShaped(ds) ==> n == |ds|
  {
    if n < |ds| {
      var i :| 0 <= i < n - 1 && ds[i].IsWrite();
      assert ds[..n][i].IsWrite() && !ds[..n][n - 1].IsWrite();
    } else {
      assert ds[..n] == ds;
    }
  }

  /** get_desc_rw_size on a chain: 0 exactly for the right shape, with the lengths of both views as C ints. */
  method GetDescRwSize(mem: array<byte>, t: nat, head: nat, ghost ds: seq<Desc>)
    returns (ret: int, readSize: int, writeSize: int)
    requires mem.Length < U64
    requires IsChain(mem[..], t, head, ds)
    ensures ret == 0 || ret == -1
    ensures ret == 0 <==> WellShaped(ds)
    ensures ret == 0 ==> readSize == SizeOf(Readable(ds)) && writeSize == SizeOf(Writable(ds))
  {
    FirstInTable(mem[..], t, head);
    ghost var n := ChainWalkEnds(mem[..], t, head, ds, false);
    ShapeOfPrefix(ds, n);
    assert ds[..|ds|] == ds;
    ret, readSize, writeSize := SizeWalk(mem, t, head, ds[..n]);
  }
}
