/**
 Which chains end. The size walk follows NEXT links without a bound; it reaches
 an end exactly on the tables in which no walk from the head comes back to a
 descriptor or leaves the table.
 */
module Acyclic {
  import opened Words
  import opened Chains

  /** Descriptor a of the table leads to descriptor b of the table. */
  predicate Leads(m: seq<byte>, t: nat, a: nat, b: nat) {
    InTable(m, t, a) && InTable(m, t, b) && DescAt(m, t, a).HasNext() && b == DescAt(m, t, a).next
  }

  /** Descriptor a leads to an entry past the end of memory. */
  predicate LeadsOut(m: seq<byte>, t: nat, a: nat) {
    InTable(m, t, a) && DescAt(m, t, a).HasNext() && !InTable(m, t, DescAt(m, t, a).next)
  }

  /** A walk along NEXT links, inside the table. */
  ghost predicate IsWalk(m: seq<byte>, t: nat, idx: nat, walk: seq<nat>) {
    && |walk| > 0 && walk[0] == idx && InTable(m, t, idx)
    && forall i :: 0 <= i < |walk| - 1 ==> Leads(m, t, walk[i], walk[i + 1])
  }

  function Last(walk: seq<nat>): nat
    requires |walk| > 0
  {
    walk[|walk| - 1]
  }

  /** No walk from idx visits a descriptor twice, and none is led out of the table. */
  ghost predicate IsAcyclic(m: seq<byte>, t: nat, idx: nat) {
    && InTable(m, t, idx)
    && forall walk :: IsWalk(m, t, idx, walk) ==> Distinct(walk) && !LeadsOut(m, t, Last(walk))
  }

  /** Distinct numbers below n are at most n. */
  lemma {:induction false} Pigeonhole(s: seq<nat>, n: nat)
    requires Distinct(s) && forall i :: 0 <= i < |s| ==> s[i] < n
    ensures |s| <= n
    decreases n
  {
    if s != [] {
      if i :| 0 <= i < |s| && s[i] == n - 1 {
        var rest := s[..i] + s[i + 1..];
        assert forall k :: 0 <= k < |rest| ==> rest[k] == if k < i then s[k] else s[k + 1];
        Pigeonhole(rest, n - 1);
      } else {
        assert s[0] < n;
        Pigeonhole(s, n - 1);
      }
    }
  }

  lemma LeadsBelow(m: seq<byte>, t: nat, a: nat, b: nat)
    requires Leads(m, t, a, b)
    ensures b < U16
  {
  }

  /** A walk without repetition has at most 2^16 links. */
  lemma WalkBound(m: seq<byte>, t: nat, idx: nat, walk: seq<nat>)
    requires IsWalk(m, t, idx, walk) && Distinct(walk)
    ensures |walk| <= U16 + 1
  {
    hide Leads;
    var links := walk[1..];
    forall i | 0 <= i < |links|
      ensures links[i] < U16
    {
      LeadsBelow(m, t, walk[i], walk[i + 1]);
    }
    assert forall i, j :: 0 <= i < j < |links| ==> links[i] == walk[i + 1] && links[j] == walk[j + 1];
    Pigeonhole(links, U16);
  }

  lemma LongerWalk(m: seq<byte>, t: nat, idx: nat, walk: seq<nat>, b: nat)
    requires IsWalk(m, t, idx, walk) && Leads(m, t, Last(walk), b)
    ensures IsWalk(m, t, idx, walk + [b])
  {
    hide Leads;
    var longer := walk + [b];
    forall i | 0 <= i < |longer| - 1
      ensures Leads(m, t, longer[i], longer[i + 1])
    {
      if i < |walk| - 1 {
        assert Leads(m, t, walk[i], walk[i + 1]);
      }
    }
  }

  lemma EndInTable(m: seq<byte>, t: nat, idx: nat, walk: seq<nat>)
    requires IsWalk(m, t, idx, walk)
    ensures |walk| > 0 && InTable(m, t, Last(walk))
  {
    hide DescAt;
    if |walk| > 1 {
      assert Leads(m, t, walk[|walk| - 2], walk[|walk| - 2 + 1]);
    }
  }

  /** From the end of a walk the chain goes on, and ends. */
  lemma {:induction false} GoesOn(m: seq<byte>, t: nat, idx: nat, walk: seq<nat>) returns (ds: seq<Desc>)
    requires IsAcyclic(m, t, idx) && IsWalk(m, t, idx, walk)
    ensures IsChain(m, t, Last(walk), ds)
    decreases U16 + 1 - |walk|
  {
    hide IsWalk, DescAt, Distinct;
    EndInTable(m, t, idx, walk);
    var d := DescAt(m, t, Last(walk));
    if d.HasNext() {
      LongerWalk(m, t, idx, walk, d.next);
      WalkBound(m, t, idx, walk + [d.next]);
      var rest := GoesOn(m, t, idx, walk + [d.next]);
      ds := [d] + rest;
      assert ds[1..] == rest;
    } else {
      ds := [d];
    }
  }

  /** A walk follows the chain. */
  lemma {:induction false} FollowsChain(m: seq<byte>, t: nat, idx: nat, ds: seq<Desc>, walk: seq<nat>, i: nat)
    requires IsChain(m, t, idx, ds) && IsWalk(m, t, idx, walk) && i < |walk|
    ensures i < |ds| && walk[i] == IndexAt(idx, ds, i)
    ensures IsChain(m, t, walk[i], ds[i..])
    decreases i
  {
    hide DescAt;
    if i > 0 {
      FollowsChain(m, t, idx, ds, walk, i - 1);
      assert Leads(m, t, walk[i - 1], walk[i - 1 + 1]);
      assert ds[i - 1..][1..] == ds[i..] && ds[i - 1..][0] == ds[i - 1];
    } else {
      assert ds[0..] == ds;
    }
  }

  lemma WalksChain(m: seq<byte>, t: nat, idx: nat, ds: seq<Desc>, walk: seq<nat>)
    requires IsChain(m, t, idx, ds) && IsWalk(m, t, idx, walk)
    ensures Distinct(walk) && !LeadsOut(m, t, Last(walk))
  {
    hide DescAt, IsWalk;
    EndInTable(m, t, idx, walk);
    forall i, j | 0 <= i < j < |walk|
      ensures walk[i] != walk[j]
    {
      FollowsChain(m, t, idx, ds, walk, i);
      FollowsChain(m, t, idx, ds, walk, j);
      NoRevisit(m, t, idx, ds, i, j);
    }
    FollowsChain(m, t, idx, ds, walk, |walk| - 1);
  }

  /** The chain from a head is finite if and only if it is acyclic and stays in the table. */
  lemma FiniteIff(m: seq<byte>, t: nat, idx: nat)
    ensures IsAcyclic(m, t, idx) <==> exists ds :: IsChain(m, t, idx, ds)
  {
    hide DescAt, Distinct, LeadsOut;
    if IsAcyclic(m, t, idx) {
      var ds := GoesOn(m, t, idx, [idx]);
      assert IsChain(m, t, idx, ds);
    }
    if ds :| IsChain(m, t, idx, ds) {
      forall walk | IsWalk(m, t, idx, walk)
        ensures Distinct(walk) && !LeadsOut(m, t, Last(walk))
      {
        WalksChain(m, t, idx, ds, walk);
      }
    }
  }
}
