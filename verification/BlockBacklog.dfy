/**
 A queue of size 2^16, which the size register accepts, filled by the driver:
 the device sees equal 16-bit indices and takes nothing. The run is the
 counterexample that the condition of DrainEnds shuts out.
 */
module BlockBacklog {
  import opened Words
  import opened GuestMemory
  import opened Chains
  import opened QueueCopy
  import opened PoolSpec
  import opened BlockModel

  /** The request whose table entry is all zeros: no bytes, no next descriptor. */
  function Empty(head: nat): Request {
    Request(head, [Desc(0, 0, 0, 0)], [], 0, 0)
  }

  function FullConf(): Conf {
    Conf(U16, 0, 0, DESC_SIZE * U16, [])
  }

  /** After the driver has published n requests. */
  function Filled(n: nat): Sys {
    Sys(Zeros(DESC_SIZE * U16), seq(U16, i => if 0 <= i < n then i % U16 else 0), n % U16, 0, Unlocked,
        Pool([], []), [], [],
        Heap({}, {}, true), seq(n, i requires 0 <= i => Empty(i)), 0, [], 0, [], [])
  }

  lemma EmptyHolds(j: nat)
    requires j < U16
    ensures WellBuilt(FullConf(), Empty(j)) && Holds(FullConf(), Zeros(DESC_SIZE * U16), Empty(j))
    ensures Foot(0, j, Empty(j).ds) == AddrSet(Span(DESC_SIZE * j, DESC_SIZE))
  {
    hide DescAt, EntryAddr, Span, Zeros, KindOf;
    var m, ds := Zeros(DESC_SIZE * U16), Empty(j).ds;
    ZeroEntry(j);
    ZeroViews(ds);
    assert ds[1..] == [];
    assert Gather(m, Readable(ds)) == [];
    assert KindOf(ds, []).Skip? by { NoHeader(ds); }
  }

  lemma NoHeader(ds: seq<Desc>)
    ensures KindOf(ds, []).Skip?
  {
  }

  lemma ZeroEntry(j: nat)
    requires j < U16
    ensures var m := Zeros(DESC_SIZE * U16);
            EntryAddr(0, j) == DESC_SIZE * j && InTable(m, 0, j) && DescAt(m, 0, j) == Desc(0, 0, 0, 0)
  {
    hide ParseDesc, Zeros, SmallEntry;
    var m := Zeros(DESC_SIZE * U16);
    SmallEntryParses(0, 0, 0, 0);
    ZeroRead(m, DESC_SIZE * j);
  }

  lemma ZeroRead(m: seq<byte>, a: nat)
    requires a + DESC_SIZE <= |m| && forall i :: 0 <= i < |m| ==> m[i] == 0
    ensures FlatRead(m, a, DESC_SIZE) == SmallEntry(0, 0, 0, 0)
  {
  }

  lemma ZeroViews(ds: seq<Desc>)
    requires ds == [Desc(0, 0, 0, 0)]
    ensures Readable(ds) == [] && Writable(ds) == [] && SkipReadable(ds) == [] && RunInRange(DESC_SIZE * U16, ds, false)
  {
    assert ds[1..] == [];
    assert RunAddrs(ds[1..], false) == [] && SkipReadable(ds[1..]) == [];
  }

  lemma EntriesApart(i: nat, j: nat)
    requires i < j
    ensures AddrSet(Span(DESC_SIZE * i, DESC_SIZE)) !! AddrSet(Span(DESC_SIZE * j, DESC_SIZE))
  {
  }

  lemma PublishNext(n: nat)
    requires n < U16
    ensures Next(FullConf(), Filled(n), DoPublish(Empty(n)), Filled(n + 1))
  {
    hide WellBuilt, Holds, Foot, AddrSet;
    var s, s' := Filled(n), Filled(n + 1);
    EmptyHolds(n);
    forall j | 0 <= j < |s.reqs|
      ensures Foot(0, s.reqs[j].head, s.reqs[j].ds) !! Foot(0, n, Empty(n).ds)
    {
      EmptyHolds(j);
      EntriesApart(j, n);
    }
    assert s'.ring == s.ring[n % U16 := n];
    assert s'.reqs == s.reqs + [Empty(n)];
  }

  /** A notification that finds equal indices. */
  lemma NotifiedInVain(full: Sys)
    requires full.pc.Unlocked? && full.availIdx == 0 && full.last == 0 && |full.reqs| == U16
    ensures var locked, draining := full.(pc := Locked(Outside)), full.(pc := Draining(Outside, 0, U16));
            && Next(FullConf(), full, DoLock, locked)
            && Next(FullConf(), locked, DoSnapshot, draining)
            && Next(FullConf(), draining, DoEndDrain, full)
  {
  }

  /** The whole run: 2^16 publications, then a notification up to its end. */
  lemma FullBacklog() returns (run: seq<Sys>, steps: seq<Step>)
    ensures Run(FullConf(), run, steps) && |run| > 3
    ensures steps[|steps| - 2] == DoSnapshot && steps[|steps| - 1] == DoEndDrain
    ensures var s := run[|run| - 2];
            s.pc.Draining? && s.last == s.pc.snap && s.popped == 0 && s.pc.goal == |s.reqs| == U16
    ensures run[|run| - 1].pc.Unlocked? && run[|run| - 1].popped == 0
  {
    hide Next, Init, Filled, FullConf;
    var full := Filled(U16);
    run := seq(U16 + 1, n requires 0 <= n => Filled(n))
        + [full.(pc := Locked(Outside)), full.(pc := Draining(Outside, 0, U16)), full];
    steps := seq(U16, n requires 0 <= n => DoPublish(Empty(n))) + [DoLock, DoSnapshot, DoEndDrain];
    StartsAndEnds();
    NotifiedInVain(full);
    forall k | 0 <= k < |steps|
      ensures Next(FullConf(), run[k], steps[k], run[k + 1])
    {
      if k < U16 {
        assert run[k] == Filled(k) && run[k + 1] == Filled(k + 1);
        PublishNext(k);
      } else {
        assert k == U16 || k == U16 + 1 || k == U16 + 2;
      }
    }
  }

  lemma StartsAndEnds()
    ensures Init(FullConf(), Filled(0))
    ensures var s := Filled(U16); s.pc.Unlocked? && s.availIdx == 0 && s.last == 0 && s.popped == 0 && |s.reqs| == U16
  {
    SixteenBitsIsPow2();
  }
}
