/**
 thread_pool_run as code: the scan of the flags, seen while no worker clears
 one. The step machine of the pool takes it apart into its lock operations.
 */
module ThreadPool {
  import opened PoolSpec

  class WorkerPool<T(0)> {
    const working: array<bool>
    const slot: array<Option<T>>
    var quit: bool

    ghost predicate Valid()
      reads this
    {
      working.Length == slot.Length
    }

    ghost function Contents(): Pool<T>
      reads working, slot
    {
      Pool(working[..], slot[..])
    }

    constructor (n: nat)
      ensures Valid() && !quit && Contents() == Pool(seq(n, _ => false), seq(n, _ => None))
    {
      working := new bool[n](_ => false);
      slot := new Option<T>[n](_ => None);
      quit := false;
      new;
      assert working[..] == seq(n, _ => false) && slot[..] == seq(n, _ => None);
    }

    /**
     The first idle worker is reserved and given the task; -1 and nothing else
     when all are busy. While the pool quits the reservation stays and the task
     is refused.
     */
    method Run(task: T) returns (ret: int, ghost to: nat)
      requires Valid()
      modifies working, slot
      ensures ret == 0 <==> !old(AllBusy(Contents())) && !quit
      ensures old(AllBusy(Contents())) ==> ret == -1 && Contents() == old(Contents())
      ensures !old(AllBusy(Contents())) ==> FirstIdle(old(Contents()), to) && to < |old(Contents()).slot|
      ensures !old(AllBusy(Contents())) ==>
                Contents() == if quit then Reserve(old(Contents()), to)
                    else HandOver(Reserve(old(Contents()), to), to, task)
    {
      var i := 0;
      to := 0;
      while i < working.Length
        invariant 0 <= i <= working.Length
        invariant Contents() == old(Contents())
        invariant forall k :: 0 <= k < i ==> working[k]
      {
        if !working[i] {
          to := i;
          assert !old(AllBusy(Contents())) by { assert !old(Contents()).working[i]; }
          working[i] := true;
          if quit {
            return -1, to;
          }
          slot[i] := Some(task);
          return 0, to;
        }
        i := i + 1;
      }
      return -1, to;
    }
  }
}
