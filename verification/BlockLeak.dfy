/**
 A request that is neither a read nor a write: the device answers nothing and
 never releases its callback argument. The run is the counterexample that the
 condition of ReleasedOnce shuts out.
 */
module BlockLeak {
  import opened Words
  import opened GuestMemory
  import opened Chains
  import opened QueueCopy
  import opened PoolSpec
  import opened BlockModel
  import opened BlockTheorems

  /** A header of type 4, and the table entry for its 16 readable bytes. */
  const FLUSH: seq<byte> := [4, 0, 0, 0, 0, 0, 0, 0, 0, 0, 0, 0, 0, 0, 0, 0]

  function Memory(): seq<byte> {
    SmallEntry(16, 16, 0, 0) + FLUSH
  }

  function FlushRequest(): Request {
    Request(0, [Desc(16, 16, 0, 0)], FLUSH, 0, 0)
  }

  function SmallConf(): Conf {
    Conf(1, 0, 0, 32, [])
  }

  function Start(): Sys {
    Sys(Memory(), [0], 0, 0, Unlocked, Pool([], []), [], [], Heap({}, {}, true), [], 0, [], 0, [], [])
  }

  /** The views of a chain of one readable descriptor. */
  lemma OneReadable(d: Desc)
    requires !d.IsWrite()
    ensures Readable([d]) == Span(d.addr, d.len) && SkipReadable([d]) == [] && Writable([d]) == [] && WellShaped([d])
  {
    var ds := [d];
    assert ds[1..] == [];
    assert RunAddrs(ds[1..], false) == [] && SkipReadable(ds[1..]) == [];
    assert Span(d.addr, d.len) + [] == Span(d.addr, d.len);
  }

  lemma GatherTail(a: seq<byte>, b: seq<byte>)
    ensures InMem(|a + b|, Span(|a|, |b|)) && Gather(a + b, Span(|a|, |b|)) == b
  {
  }

  lemma FlushChain()
    ensures var ds := FlushRequest().ds;
            && |Memory()| == 32 && IsChain(Memory(), 0, 0, ds)
            && InMem(32, Readable(ds)) && Gather(Memory(), Readable(ds)) == FLUSH
  {
    hide SmallEntry, ParseDesc, DescAt, EntryAddr, FlatRead, Readable, Gather;
    SmallEntryParses(16, 16, 0, 0);
    EntryAtStart(Memory(), SmallEntry(16, 16, 0, 0));
    OneReadable(Desc(16, 16, 0, 0));
    GatherTail(SmallEntry(16, 16, 0, 0), FLUSH);
  }

  lemma FlushHeader()
    ensures Get32(FLUSH, 0) == 4
  {
  }

  lemma FlushKind()
    ensures FlushRequest().Kind() == Skip(true)
    ensures WellBuilt(SmallConf(), FlushRequest()) && Holds(SmallConf(), Memory(), FlushRequest())
  {
    hide Memory, IsChain, Gather, Get32, Get64, Readable, Writable, SkipReadable, WellShaped, Span;
    FlushChain();
    FlushHeader();
    OneReadable(Desc(16, 16, 0, 0));
    InRange(Desc(16, 16, 0, 0));
  }

  lemma InRange(d: Desc)
    requires !d.IsWrite() && d.len < U31 && d.addr + d.len <= 32
    ensures RunInRange(32, [d], false) && RunInRange(32, [], true)
  {
    assert [d][1..] == [];
  }

  lemma TakesIt(s: Sys, s': Sys)
    requires s.mem == Memory() && s.ring == [0] && s.pc == Draining(Outside, 1, 1) && s.last == 0
    requires s' == s.(last := 1, popped := s.popped + 1, skipped := s.skipped + [s.popped],
                      heap := Perform(s.heap, Malloc(Hnd(s.popped, Arg))))
    ensures PopSkip(SmallConf(), s, FlushRequest().ds, s')
  {
    hide IsChain, Readable, Gather, KindOf, Memory;
    FlushChain();
    FlushKind();
    assert BitAnd(0, 0) == 0;
  }

  lemma Publishes()
    ensures Next(SmallConf(), Start(), DoPublish(FlushRequest()), Start().(availIdx := 1, reqs := [FlushRequest()]))
  {
    hide WellBuilt, Holds, Foot, Memory;
    FlushKind();
    assert [0][0 := 0] == [0];
  }

  /** The notification and its end, around what it takes. */
  lemma Notifies(s: Sys, s': Sys)
    requires s.pc.Unlocked? && s.availIdx == 1 && |s.reqs| == 1
    requires s'.pc == Draining(Outside, 1, 1) && s'.last == 1
    ensures Next(SmallConf(), s, DoLock, s.(pc := Locked(Outside)))
    ensures Next(SmallConf(), s.(pc := Locked(Outside)), DoSnapshot, s.(pc := Draining(Outside, 1, 1)))
    ensures Next(SmallConf(), s', DoEndDrain, s'.(pc := Unlocked))
  {
  }

  lemma Starts()
    ensures Init(SmallConf(), Start())
  {
    hide Memory;
    FlushChain();
    assert seq<bool>(0, _ => false) == [] && seq<Option<Task>>(0, _ => None) == [] && seq<Phase>(0, _ => Idle) == [];
  }

  /** Published, notified, taken: quiet, and the argument block is still live. */
  lemma LeakRun() returns (run: seq<Sys>, steps: seq<Step>)
    ensures Run(SmallConf(), run, steps) && |run| == 6
    ensures Quiescent(run[5]) && Hnd(0, Arg) in run[5].heap.live && run[5].used == []
  {
    hide Next, Init, PopSkip, Memory, SmallConf, FlushRequest;
    Starts();
    Publishes();
    var s1 := Start().(availIdx := 1, reqs := [FlushRequest()]);
    var s3 := s1.(pc := Draining(Outside, 1, 1));
    var s4 := s3.(last := 1, popped := 1, skipped := [0], heap := Perform(s3.heap, Malloc(Hnd(0, Arg))));
    run := [Start(), s1, s1.(pc := Locked(Outside)), s3, s4, s4.(pc := Unlocked)];
    steps := [DoPublish(FlushRequest()), DoLock, DoSnapshot, DoPopSkip(FlushRequest().ds), DoEndDrain];
    Notifies(s1, s4);
    TakesIt(s3, s4);
    assert Next(SmallConf(), s3, DoPopSkip(FlushRequest().ds), s4) by { Taken(s3, s4); }
    forall k | 0 <= k < 5
      ensures Next(SmallConf(), run[k], steps[k], run[k + 1])
    {
      assert k == 0 || k == 1 || k == 2 || k == 3 || k == 4;
    }
  }

  lemma Taken(s: Sys, s': Sys)
    requires PopSkip(SmallConf(), s, FlushRequest().ds, s')
    ensures Next(SmallConf(), s, DoPopSkip(FlushRequest().ds), s')
  {
    hide PopSkip;
  }
}
