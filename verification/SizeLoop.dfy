/**
 Where the size walk of get_desc_rw_size ends. The loop has no bound and ignores
 a failed fetch, which leaves the old descriptor in place. It ends exactly when
 the head is out of reach, or the chain is finite, or a walk along the chain
 meets a readable descriptor after a writable one; the last lemmas are tables on
 which it runs for ever.
 */
module SizeLoop {
  import opened Words
  import opened GuestMemory
  import opened Chains
  import opened QueueCopy
  import opened Acyclic

  /** The two loops end their walk at descriptor d; w says that a writable one was read before. */
  predicate Stops(d: Desc, w: bool) {
    !d.HasNext() || (w && !d.IsWrite())
  }

  /** The loop, holding the descriptor bytes b, stops within n more fetches. */
  ghost predicate StopsWithin(m: seq<byte>, t: nat, b: seq<byte>, w: bool, n: nat)
    requires |b| == DESC_SIZE
    decreases n
  {
    var d := ParseDesc(b);
    Stops(d, w) || (n > 0 && StopsWithin(m, t, Fetched(m, t, d.next, b), w || d.IsWrite(), n - 1))
  }

  ghost predicate LoopEnds(m: seq<byte>, t: nat, head: nat) {
    exists n :: StopsWithin(m, t, Fetched(m, t, head, NO_BYTES), false, n)
  }

  /** The fetch of the entry succeeds and runs past the end of memory: undefined in C. */
  predicate Overruns(m: seq<byte>, t: nat, idx: nat) {
    EntryAddr(t, idx) <= |m| < EntryAddr(t, idx) + DESC_SIZE
  }

  predicate LeadsOver(m: seq<byte>, t: nat, a: nat) {
    InTable(m, t, a) && DescAt(m, t, a).HasNext() && Overruns(m, t, DescAt(m, t, a).next)
  }

  /** No fetch on the way runs past the end of memory. */
  ghost predicate Defined(m: seq<byte>, t: nat, head: nat) {
    !Overruns(m, t, head) && forall walk :: IsWalk(m, t, head, walk) ==> !LeadsOver(m, t, Last(walk))
  }

  // The loop and the walk

  /** A fetch that changes nothing is repeated for ever. */
  lemma {:induction false} Stuck(m: seq<byte>, t: nat, b: seq<byte>, w: bool, n: nat)
    requires |b| == DESC_SIZE && !Stops(ParseDesc(b), w) && Fetched(m, t, ParseDesc(b).next, b) == b
    ensures !StopsWithin(m, t, b, w, n)
    decreases n
  {
    hide ParseDesc, Fetched;
    if n > 0 {
      Stuck(m, t, b, w || ParseDesc(b).IsWrite(), n - 1);
    }
  }

  lemma FirstStep(m: seq<byte>, t: nat, a: nat, walk: seq<nat>)
    requires InTable(m, t, a) && DescAt(m, t, a).HasNext() && IsWalk(m, t, DescAt(m, t, a).next, walk)
    ensures IsWalk(m, t, a, [a] + walk) && Last([a] + walk) == Last(walk)
  {
    hide DescAt;
    var longer := [a] + walk;
    forall i | 0 <= i < |longer| - 1
      ensures Leads(m, t, longer[i], longer[i + 1])
    {
      if i > 0 {
        assert Leads(m, t, walk[i - 1], walk[i - 1 + 1]);
      }
    }
  }

  lemma DefinedOnward(m: seq<byte>, t: nat, a: nat)
    requires Defined(m, t, a) && InTable(m, t, a) && DescAt(m, t, a).HasNext()
    ensures Defined(m, t, DescAt(m, t, a).next)
  {
    hide DescAt, LeadsOver, Overruns;
    var next := DescAt(m, t, a).next;
    assert IsWalk(m, t, a, [a]);
    assert !LeadsOver(m, t, Last([a]));
    NotOver(m, t, a);
    forall walk | IsWalk(m, t, next, walk)
      ensures !LeadsOver(m, t, Last(walk))
    {
      FirstStep(m, t, a, walk);
    }
  }

  lemma NotOver(m: seq<byte>, t: nat, a: nat)
    requires !LeadsOver(m, t, a) && InTable(m, t, a) && DescAt(m, t, a).HasNext()
    ensures !Overruns(m, t, DescAt(m, t, a).next)
  {
  }

  /** A loop that stops has read a walk that ends. */
  lemma {:induction false} StopMeansWalk(m: seq<byte>, t: nat, idx: nat, b: seq<byte>, w: bool, n: nat)
    returns (ds: seq<Desc>)
    requires InTable(m, t, idx) && Defined(m, t, idx)
    requires |b| == DESC_SIZE && ParseDesc(b) == DescAt(m, t, idx) && StopsWithin(m, t, b, w, n)
    ensures WalkFrom(m, t, DescAt(m, t, idx), ds, w)
    decreases n
  {
    hide DescAt, ParseDesc, Fetched, Defined, EntryAddr;
    var d := DescAt(m, t, idx);
    ds := [d];
    if !Stops(d, w) {
      FetchedDesc(m, t, d.next, b);
      DefinedOnward(m, t, idx);
      Reach(m, t, d.next);
      if InTable(m, t, d.next) {
        var rest := StopMeansWalk(m, t, d.next, Fetched(m, t, d.next, b), w || d.IsWrite(), n - 1);
        ds := [d] + rest;
        assert ds[1..] == rest;
      } else {
        Stuck(m, t, b, w, n);
        assert false;
      }
    }
  }

  lemma Reach(m: seq<byte>, t: nat, idx: nat)
    requires Defined(m, t, idx)
    ensures InTable(m, t, idx) || EntryAddr(t, idx) > |m|
  {
  }

  lemma {:induction false} WalkMeansStop(m: seq<byte>, t: nat, b: seq<byte>, ds: seq<Desc>, w: bool)
    requires |b| == DESC_SIZE && WalkFrom(m, t, ParseDesc(b), ds, w)
    ensures StopsWithin(m, t, b, w, |ds|)
    decreases |ds|
  {
    hide DescAt, ParseDesc, Fetched, EntryAddr;
    var d := ParseDesc(b);
    if !Stops(d, w) {
      FetchedDesc(m, t, d.next, b);
      WalkMeansStop(m, t, Fetched(m, t, d.next, b), ds[1..], w || d.IsWrite());
    }
  }

  /** The loop ends if and only if there is a walk that ends. */
  lemma LoopIsWalk(m: seq<byte>, t: nat, head: nat)
    requires Defined(m, t, head)
    ensures LoopEnds(m, t, head) <==> exists ds :: WalkFrom(m, t, First(m, t, head), ds, false)
  {
    hide DescAt, ParseDesc, Fetched, Defined, EntryAddr;
    var b := Fetched(m, t, head, NO_BYTES);
    FirstInTable(m, t, head);
    Reach(m, t, head);
    if n :| StopsWithin(m, t, b, false, n) {
      if InTable(m, t, head) {
        var ds := StopMeansWalk(m, t, head, b, false, n);
      } else {
        assert WalkFrom(m, t, First(m, t, head), [First(m, t, head)], false);
      }
    }
    if ds :| WalkFrom(m, t, First(m, t, head), ds, false) {
      WalkMeansStop(m, t, b, ds, false);
    }
  }

  // The walk and the table

  predicate WritableAt(m: seq<byte>, t: nat, a: nat) {
    InTable(m, t, a) && DescAt(m, t, a).IsWrite()
  }

  predicate ReadableAt(m: seq<byte>, t: nat, a: nat) {
    InTable(m, t, a) && !DescAt(m, t, a).IsWrite()
  }

  /** A walk from the head passes a writable descriptor and comes to a readable one. */
  ghost predicate OutOfPlace(m: seq<byte>, t: nat, walk: seq<nat>, i: nat) {
    |walk| > 0 && i < |walk| && WritableAt(m, t, walk[i]) && ReadableAt(m, t, Last(walk))
  }

  ghost predicate Misplaced(m: seq<byte>, t: nat, head: nat) {
    exists walk, i :: IsWalk(m, t, head, walk) && OutOfPlace(m, t, walk, i)
  }

  /** The indices of the descriptors that the size walk reads. */
  lemma {:induction false} IndicesOf(m: seq<byte>, t: nat, idx: nat, ds: seq<Desc>, w: bool) returns (walk: seq<nat>)
    requires InTable(m, t, idx) && WalkFrom(m, t, DescAt(m, t, idx), ds, w)
    ensures |walk| == |ds| && IsWalk(m, t, idx, walk)
    ensures forall i :: 0 <= i < |ds| ==> InTable(m, t, walk[i]) && DescAt(m, t, walk[i]) == ds[i]
    decreases |ds|
  {
    hide DescAt, EntryAddr;
    var d := DescAt(m, t, idx);
    if Stops(d, w) {
      walk := [idx];
    } else {
      var rest := IndicesOf(m, t, d.next, ds[1..], w || d.IsWrite());
      FirstStep(m, t, idx, rest);
      walk := [idx] + rest;
      forall i | 0 <= i < |ds|
        ensures InTable(m, t, walk[i]) && DescAt(m, t, walk[i]) == ds[i]
      {
        if i > 0 {
          assert walk[i] == rest[i - 1] && ds[i] == ds[1..][i - 1];
        }
      }
    }
  }

  /** A walk that ends is a chain, or ends at a readable descriptor after a writable one. */
  lemma {:induction false} ChainOrOutOfPlace(m: seq<byte>, t: nat, idx: nat, ds: seq<Desc>, w: bool)
    requires InTable(m, t, idx) && WalkFrom(m, t, DescAt(m, t, idx), ds, w)
    ensures IsChain(m, t, idx, ds)
         || (!ds[|ds| - 1].IsWrite() && (w || exists i :: 0 <= i < |ds| && ds[i].IsWrite()))
    decreases |ds|
  {
    hide DescAt, EntryAddr;
    var d := DescAt(m, t, idx);
    if !Stops(d, w) {
      var rest := ds[1..];
      ChainOrOutOfPlace(m, t, d.next, rest, w || d.IsWrite());
      assert ds[|ds| - 1] == rest[|rest| - 1];
      assert forall i :: 0 <= i < |rest| ==> rest[i] == ds[i + 1];
      if d.IsWrite() {
        assert ds[0].IsWrite();
      }
    }
  }

  /** Along a walk that has a descriptor out of place the size walk ends. */
  lemma {:induction false} EndsAlong(m: seq<byte>, t: nat, walk: seq<nat>, k: nat, w: bool) returns (ds: seq<Desc>)
    requires k < |walk| && ReadableAt(m, t, Last(walk)) && InTable(m, t, walk[k])
    requires forall i :: 0 <= i < |walk| - 1 ==> Leads(m, t, walk[i], walk[i + 1])
    requires w || exists i :: k <= i < |walk| && WritableAt(m, t, walk[i])
    ensures WalkFrom(m, t, DescAt(m, t, walk[k]), ds, w)
    decreases |walk| - k
  {
    hide DescAt, EntryAddr;
    var d := DescAt(m, t, walk[k]);
    if Stops(d, w) {
      ds := [d];
    } else {
      assert Leads(m, t, walk[k], walk[k + 1]);
      var rest := EndsAlong(m, t, walk, k + 1, w || d.IsWrite());
      ds := [d] + rest;
      assert ds[1..] == rest;
    }
  }

  /** From a head in the table the walk ends if and only if the chain is finite or has a descriptor out of place. */
  lemma WalkEndsIff(m: seq<byte>, t: nat, head: nat)
    requires InTable(m, t, head)
    ensures (exists ds :: WalkFrom(m, t, DescAt(m, t, head), ds, false))
        <==> IsAcyclic(m, t, head) || Misplaced(m, t, head)
  {
    hide DescAt, EntryAddr, IsAcyclic, WalkFrom, IsWalk;
    FiniteIff(m, t, head);
    if ds :| WalkFrom(m, t, DescAt(m, t, head), ds, false) {
      FoundWalk(m, t, head, ds);
    }
    if ds :| IsChain(m, t, head, ds) {
      var n := ChainWalkEnds(m, t, head, ds, false);
    }
    if walk, i :| IsWalk(m, t, head, walk) && OutOfPlace(m, t, walk, i) {
      var ds := FromMisplaced(m, t, head, walk, i);
    }
  }

  lemma FromMisplaced(m: seq<byte>, t: nat, head: nat, walk: seq<nat>, i: nat) returns (ds: seq<Desc>)
    requires IsWalk(m, t, head, walk) && OutOfPlace(m, t, walk, i)
    ensures WalkFrom(m, t, DescAt(m, t, head), ds, false)
  {
    hide DescAt, EntryAddr;
    ds := EndsAlong(m, t, walk, 0, false);
  }

  lemma FoundWalk(m: seq<byte>, t: nat, head: nat, ds: seq<Desc>)
    requires InTable(m, t, head) && WalkFrom(m, t, DescAt(m, t, head), ds, false)
    ensures IsChain(m, t, head, ds) || Misplaced(m, t, head)
  {
    hide DescAt, EntryAddr;
    ChainOrOutOfPlace(m, t, head, ds, false);
    var walk := IndicesOf(m, t, head, ds, false);
    if !IsChain(m, t, head, ds) {
      var i :| 0 <= i < |ds| && ds[i].IsWrite();
      assert OutOfPlace(m, t, walk, i);
    }
  }

  /**
   The loop of get_desc_rw_size ends if and only if the head is out of reach,
   or no walk from it revisits a descriptor or is led out of the table, or some
   walk from it comes to a readable descriptor after a writable one.
   */
  lemma LoopEndsIff(m: seq<byte>, t: nat, head: nat)
    requires Defined(m, t, head)
    ensures LoopEnds(m, t, head) <==> !InTable(m, t, head) || IsAcyclic(m, t, head) || Misplaced(m, t, head)
  {
    hide DescAt, EntryAddr, IsAcyclic, Misplaced, Defined, LoopEnds, WalkFrom, First, InTable;
    LoopIsWalk(m, t, head);
    FirstInTable(m, t, head);
    Reach(m, t, head);
    if InTable(m, t, head) {
      WalkEndsIff(m, t, head);
    } else {
      OutOfReach(m, t, head);
    }
  }

  lemma OutOfReach(m: seq<byte>, t: nat, head: nat)
    requires First(m, t, head) == Desc(0, 0, 0, 0)
    ensures exists ds :: WalkFrom(m, t, First(m, t, head), ds, false)
  {
    hide First;
    assert WalkFrom(m, t, First(m, t, head), [Desc(0, 0, 0, 0)], false);
  }

  // Tables on which it does not end

  /** One table entry, readable, empty, with a NEXT link. */
  function LinkTo(next: byte): seq<byte> {
    SmallEntry(0, 0, 1, next)
  }

  lemma ParseLink(next: byte)
    ensures |LinkTo(next)| == DESC_SIZE && ParseDesc(LinkTo(next)) == Desc(0, 0, 1, next)
    ensures InTable(LinkTo(next), 0, 0) && DescAt(LinkTo(next), 0, 0) == Desc(0, 0, 1, next)
    ensures Fetched(LinkTo(next), 0, 0, NO_BYTES) == LinkTo(next) == Fetched(LinkTo(next), 0, 0, LinkTo(next))
  {
    hide SmallEntry, ParseDesc, DescAt, FlatRead, FlatWrite, EntryAddr;
    var m := LinkTo(next);
    SmallEntryParses(0, 0, 1, next);
    EntryAtStart(m, m);
    FetchedDesc(m, 0, 0, NO_BYTES);
    FetchedDesc(m, 0, 0, m);
  }

  /** If the fetch of the linked entry changes nothing, the loop runs for ever. */
  lemma RunsOn(next: byte)
    requires |LinkTo(next)| == DESC_SIZE && Fetched(LinkTo(next), 0, next, LinkTo(next)) == LinkTo(next)
    ensures !LoopEnds(LinkTo(next), 0, 0)
  {
    hide Fetched, ParseDesc, StopsWithin, LinkTo;
    var m := LinkTo(next);
    ParseLink(next);
    forall n: nat
      ensures !StopsWithin(m, 0, Fetched(m, 0, 0, NO_BYTES), false, n)
    {
      Stuck(m, 0, m, false, n);
    }
  }

  lemma LinkDefined(next: byte)
    requires !Overruns(LinkTo(next), 0, next)
    ensures Defined(LinkTo(next), 0, 0)
  {
    hide DescAt, ParseDesc, LinkTo;
    var m := LinkTo(next);
    ParseLink(next);
    forall walk | IsWalk(m, 0, 0, walk)
      ensures !LeadsOver(m, 0, Last(walk))
    {
      EndInTable(m, 0, 0, walk);
      OneEntry(m, Last(walk), next);
    }
  }

  /** Of every index that reaches the single entry, the entry is the same. */
  lemma OneEntry(m: seq<byte>, a: nat, next: byte)
    requires |m| == DESC_SIZE && InTable(m, 0, a) && InTable(m, 0, 0) && DescAt(m, 0, 0) == Desc(0, 0, 1, next)
    ensures DescAt(m, 0, a) == Desc(0, 0, 1, next)
  {
    hide ParseDesc;
    assert EntryAddr(0, a) == 0 == EntryAddr(0, 0);
  }

  /** A descriptor linked to itself. */
  lemma SpinsOnItself()
    ensures Defined(LinkTo(0), 0, 0) && !LoopEnds(LinkTo(0), 0, 0)
  {
    hide ParseDesc, Defined, LoopEnds, LinkTo, Fetched, DescAt;
    ParseLink(0);
    LinkDefined(0);
    RunsOn(0);
  }

  /** A descriptor linked to an entry out of reach: the failed fetch leaves it in place. */
  lemma SpinsOutside()
    ensures Defined(LinkTo(2), 0, 0) && !LoopEnds(LinkTo(2), 0, 0)
  {
    hide ParseDesc, Defined, LoopEnds, LinkTo, Fetched, DescAt, FlatRead, FlatWrite;
    ParseLink(2);
    FetchedDesc(LinkTo(2), 0, 2, LinkTo(2));
    LinkDefined(2);
    RunsOn(2);
  }
}
