/**
 The thread pool as its clients see it: one busy flag and one task slot per
 worker, and the four atomic moves on them. The block request machine is built
 on these moves; the lock-level pool protocol refines them.
 */
module PoolSpec {

  datatype Option<+T> = None | Some(value: T)

  datatype Pool<T> = Pool(working: seq<bool>, slot: seq<Option<T>>)

  predicate Sized<T>(p: Pool<T>, n: nat) {
    |p.working| == |p.slot| == n
  }

  /** The scan of the flags stops at worker i. */
  predicate FirstIdle<T>(p: Pool<T>, i: nat) {
    i < |p.working| && !p.working[i] && forall k :: 0 <= k < i ==> p.working[k]
  }

  predicate AllBusy<T>(p: Pool<T>) {
    forall k :: 0 <= k < |p.working| ==> p.working[k]
  }

  lemma LeastIdle<T>(p: Pool<T>) returns (i: nat)
    requires !AllBusy(p)
    ensures FirstIdle(p, i)
  {
    i := 0;
    while p.working[i]
      invariant i < |p.working| && forall k :: 0 <= k < i ==> p.working[k]
      decreases |p.working| - i
    {
      if i + 1 == |p.working| {
        assert AllBusy(p);
      }
      i := i + 1;
    }
  }

  function Reserve<T>(p: Pool<T>, i: nat): Pool<T>
    requires i < |p.working|
  {
    p.(working := p.working[i := true])
  }

  function HandOver<T>(p: Pool<T>, i: nat, task: T): Pool<T>
    requires i < |p.slot|
  {
    p.(slot := p.slot[i := Some(task)])
  }

  function Drop<T>(p: Pool<T>, i: nat): Pool<T>
    requires i < |p.slot|
  {
    p.(slot := p.slot[i := None])
  }

  function Clear<T>(p: Pool<T>, i: nat): Pool<T>
    requires i < |p.working|
  {
    p.(working := p.working[i := false])
  }

  /** A legal move of the pool: a reservation, a hand-over into an empty slot, a task dropped, a flag cleared. */
  ghost predicate Move<T(!new)>(p: Pool<T>, p': Pool<T>) {
    || p' == p
    || (exists i :: FirstIdle(p, i) && p' == Reserve(p, i))
    || (exists i, task :: 0 <= i < |p.slot| == |p.working|
                          && p.working[i] && p.slot[i].None? && p' == HandOver(p, i, task))
    || (exists i :: 0 <= i < |p.slot| && p.slot[i].Some? && p' == Drop(p, i))
    || (exists i :: 0 <= i < |p.slot| == |p.working| && p.working[i] && p.slot[i].None? && p' == Clear(p, i))
  }
}
