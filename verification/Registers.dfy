/**
 The meaning of the MMIO register file as a function of what was written to it:
 a log of register writes and completions, and for every register the value
 that the last relevant entry of the log gives it.
 */
module Registers {
  import opened Words
  import opened GuestMemory
  import opened Rings

  const MAX_QUEUE: nat := 2

  const FEATURES_SEL: nat := 0x014
  const QUEUE_SEL: nat := 0x030
  const QUEUE_NUM: nat := 0x038
  const QUEUE_READY: nat := 0x044
  const QUEUE_NOTIFY: nat := 0x050
  const INTERRUPT_STATUS: nat := 0x060
  const INTERRUPT_ACK: nat := 0x064
  const STATUS: nat := 0x070
  const DESC_LOW: nat := 0x080
  const DESC_HIGH: nat := 0x084
  const AVAIL_LOW: nat := 0x090
  const AVAIL_HIGH: nat := 0x094
  const USED_LOW: nat := 0x0a0
  const USED_HIGH: nat := 0x0a4
  const CONFIG: nat := 0x100

  /** A 32-bit register write, or a completion and whether the driver suppressed its interrupt. */
  datatype Event = Wrote(off: nat, val: nat) | Completed(suppressed: bool)

  predicate IsReset(e: Event) {
    e == Wrote(STATUS, 0)
  }

  /** The queue that is selected after the log. */
  function Selected(log: seq<Event>): (q: nat)
    ensures q < MAX_QUEUE
  {
    if log == [] then 0
    else
      var e := log[|log| - 1];
      if IsReset(e) then 0
      else if e.Wrote? && e.off == QUEUE_SEL && e.val < MAX_QUEUE then e.val
      else Selected(log[..|log| - 1])
  }

  /** The last value written to register off while queue q was selected, since the last reset. */
  function LastWrite(log: seq<Event>, off: nat, q: nat): nat {
    if log == [] then 0
    else
      var e, before := log[|log| - 1], log[..|log| - 1];
      if IsReset(e) then 0
      else if e.Wrote? && e.off == off && Selected(before) == q then e.val
      else LastWrite(before, off, q)
  }

  /** The last value written to a register that belongs to no queue, since the last reset. */
  function LastGlobal(log: seq<Event>, off: nat): nat {
    if log == [] then 0
    else
      var e := log[|log| - 1];
      if IsReset(e) then 0
      else if e.Wrote? && e.off == off then e.val
      else LastGlobal(log[..|log| - 1], off)
  }

  /** The last power of two written as the size of queue q since the last reset, or the maximum. */
  function LastNum(log: seq<Event>, q: nat, max: nat): nat {
    if log == [] then max
    else
      var e, before := log[|log| - 1], log[..|log| - 1];
      if IsReset(e) then max
      else if e.Wrote? && e.off == QUEUE_NUM && IsPow2(e.val) && Selected(before) == q then e.val
      else LastNum(before, q, max)
  }

  /** The event takes the interrupt back. */
  predicate Acknowledges(e: Event) {
    IsReset(e) || (e.Wrote? && e.off == INTERRUPT_ACK && e.val % 2 == 1)
  }

  function Pending(log: seq<Event>): bool {
    if log == [] then false
    else
      var e := log[|log| - 1];
      if e == Completed(false) then true
      else if Acknowledges(e) then false
      else Pending(log[..|log| - 1])
  }

  /**
   An interrupt is pending exactly when some completion that was not suppressed
   has occurred since the last acknowledgement and the last reset.
   */
  lemma {:induction false} PendingMeans(log: seq<Event>)
    ensures Pending(log) <==>
              exists i :: 0 <= i < |log| && log[i] == Completed(false)
                          && forall j :: i < j < |log| ==> !Acknowledges(log[j])
    decreases |log|
  {
    if log != [] {
      var n := |log| - 1;
      var before, e := log[..n], log[n];
      PendingMeans(before);
      if e == Completed(false) {
        assert log[n] == Completed(false);
      } else if Acknowledges(e) {
        assert forall i :: 0 <= i < |log| && log[i] == Completed(false) ==> i < n && Acknowledges(log[n]);
      } else {
        if Pending(before) {
          var i :| 0 <= i < n && before[i] == Completed(false) && forall j :: i < j < n ==> !Acknowledges(before[j]);
          assert log[i] == Completed(false);
          forall j | i < j < |log|
            ensures !Acknowledges(log[j])
          {
            assert j < n ==> log[j] == before[j];
          }
        }
        if i :| 0 <= i < |log| && log[i] == Completed(false) && forall j :: i < j < |log| ==> !Acknowledges(log[j]) {
          assert before[i] == Completed(false);
          forall j | i < j < n
            ensures !Acknowledges(before[j])
          {
            assert before[j] == log[j];
          }
        }
      }
    }
  }

  /** LastWrite is decided by one entry: the last write to the register while q was selected, if no reset follows. */
  lemma {:induction false} LastWriteWins(log: seq<Event>, off: nat, q: nat, i: nat)
    requires i < |log| && log[i].Wrote? && log[i].off == off && !IsReset(log[i]) && Selected(log[..i]) == q
    requires forall j :: i < j < |log| ==>
                           !IsReset(log[j]) && !(log[j].Wrote? && log[j].off == off && Selected(log[..j]) == q)
    ensures LastWrite(log, off, q) == log[i].val
    decreases |log|
  {
    var n := |log| - 1;
    if i < n {
      var before := log[..n];
      assert before[..i] == log[..i];
      forall j | i < j < n
        ensures !IsReset(before[j]) && !(before[j].Wrote? && before[j].off == off && Selected(before[..j]) == q)
      {
        assert before[..j] == log[..j] && before[j] == log[j];
      }
      LastWriteWins(before, off, q, i);
    }
  }

  /** A stretch of the log that starts with the device or a reset and in which no event resets it. */
  predicate SinceReset(log: seq<Event>, a: nat) {
    && a <= |log| && (a == 0 || IsReset(log[a - 1]))
    && forall j :: a <= j < |log| ==> !IsReset(log[j])
  }

  /** A register that was not written under its selection since the last reset reads 0. */
  lemma {:induction false} UnwrittenIsZero(log: seq<Event>, off: nat, q: nat, a: nat)
    requires SinceReset(log, a)
    requires forall j :: a <= j < |log| ==> !(log[j].Wrote? && log[j].off == off && Selected(log[..j]) == q)
    ensures LastWrite(log, off, q) == 0
    decreases |log|
  {
    if a < |log| {
      var before := log[..|log| - 1];
      forall j | a <= j < |before|
        ensures !(before[j].Wrote? && before[j].off == off && Selected(before[..j]) == q)
      {
        assert before[..j] == log[..j];
      }
      UnwrittenIsZero(before, off, q, a);
    }
  }

  /** The event sets the size of queue q. */
  ghost predicate Sizes(log: seq<Event>, j: nat, q: nat)
    requires j < |log|
  {
    log[j].Wrote? && log[j].off == QUEUE_NUM && IsPow2(log[j].val) && Selected(log[..j]) == q
  }

  /** A queue that was given no power of two since the last reset has the maximal size. */
  lemma {:induction false} UnsizedIsMax(log: seq<Event>, q: nat, max: nat, a: nat)
    requires SinceReset(log, a) && forall j :: a <= j < |log| ==> !Sizes(log, j, q)
    ensures LastNum(log, q, max) == max
    decreases |log|
  {
    hide IsPow2;
    if a < |log| {
      var before := log[..|log| - 1];
      assert !Sizes(log, |log| - 1, q);
      forall j | a <= j < |before|
        ensures !Sizes(before, j, q)
      {
        assert before[..j] == log[..j] && !Sizes(log, j, q);
      }
      UnsizedIsMax(before, q, max, a);
    }
  }

  /** The size of a queue is the last power of two written for it, if no reset follows. */
  lemma {:induction false} LastSizeWins(log: seq<Event>, q: nat, max: nat, i: nat)
    requires i < |log| && Sizes(log, i, q)
    requires forall j :: i < j < |log| ==> !IsReset(log[j]) && !Sizes(log, j, q)
    ensures LastNum(log, q, max) == log[i].val
    decreases |log|
  {
    hide IsPow2;
    var n := |log| - 1;
    if i < n {
      var before := log[..n];
      assert before[..i] == log[..i] && !Sizes(log, n, q);
      forall j | i < j < n
        ensures !IsReset(before[j]) && !Sizes(before, j, q)
      {
        assert before[..j] == log[..j] && !Sizes(log, j, q);
      }
      LastSizeWins(before, q, max, i);
    }
  }

  /** Every queue size the log can give is a power of two. */
  lemma {:induction false} NumIsPow2(log: seq<Event>, q: nat, max: nat)
    requires IsPow2(max)
    ensures IsPow2(LastNum(log, q, max))
    decreases |log|
  {
    if log != [] {
      NumIsPow2(log[..|log| - 1], q, max);
    }
  }

  predicate WordsOnly(log: seq<Event>) {
    forall i :: 0 <= i < |log| ==> log[i].Wrote? ==> log[i].val < U32
  }

  lemma {:induction false} LastWriteIsWord(log: seq<Event>, off: nat, q: nat)
    requires WordsOnly(log)
    ensures LastWrite(log, off, q) < U32
    decreases |log|
  {
    if log != [] {
      LastWriteIsWord(log[..|log| - 1], off, q);
    }
  }

  // Queue registers

  function SetLow(a: nat, v: nat): nat {
    a / U32 * U32 + v
  }

  function SetHigh(a: nat, v: nat): nat {
    a % U32 + v * U32
  }

  /** The two halves of an address register of queue i, as last written. */
  function Address(log: seq<Event>, low: nat, high: nat, i: nat): nat {
    LastWrite(log, low, i) + U32 * LastWrite(log, high, i)
  }

  /** Queue i holds what the log says was written to its registers. */
  predicate QueueHolds(q: QueueState, log: seq<Event>, i: nat, max: nat) {
    && q.num == LastNum(log, i, max)
    && q.ready == LastWrite(log, QUEUE_READY, i) % 2
    && q.desc == Address(log, DESC_LOW, DESC_HIGH, i)
    && q.avail == Address(log, AVAIL_LOW, AVAIL_HIGH, i)
    && q.used == Address(log, USED_LOW, USED_HIGH, i)
  }

  predicate IsQueueRegister(off: nat) {
    off in {QUEUE_NUM, QUEUE_READY, DESC_LOW, DESC_HIGH, AVAIL_LOW, AVAIL_HIGH, USED_LOW, USED_HIGH}
  }

  /** The write concerns the queues themselves: one of their registers, or a reset. */
  predicate ConcernsQueues(off: nat, val: nat, size: nat) {
    size == 4 && (IsQueueRegister(off) || (off == STATUS && val == 0))
  }

  lemma Appended(log: seq<Event>, e: Event)
    ensures (log + [e])[|log|] == e && (log + [e])[..|log|] == log
  {
  }

  /** An event that is not about queue i leaves it alone. */
  lemma NotAbout(q: QueueState, log: seq<Event>, i: nat, max: nat, e: Event)
    requires QueueHolds(q, log, i, max) && !IsReset(e)
    requires e.Wrote? && IsQueueRegister(e.off) ==> Selected(log) != i || (e.off == QUEUE_NUM && !IsPow2(e.val))
    ensures QueueHolds(q, log + [e], i, max)
  {
    hide IsPow2;
    Appended(log, e);
  }

  lemma AfterReset(log: seq<Event>, i: nat, max: nat, manual: bool, e: Event)
    requires IsReset(e)
    ensures QueueHolds(QueueState(0, max, 0, 0, 0, 0, manual), log + [e], i, max)
    ensures Selected(log + [e]) == 0 && !Pending(log + [e])
    ensures LastGlobal(log + [e], STATUS) == 0 && LastGlobal(log + [e], FEATURES_SEL) == 0
  {
    Appended(log, e);
  }

  lemma LastWriteAfter(log: seq<Event>, r: nat, i: nat, off: nat, val: nat)
    requires Selected(log) == i && off != STATUS
    ensures LastWrite(log + [Wrote(off, val)], r, i) == if off == r then val else LastWrite(log, r, i)
  {
    Appended(log, Wrote(off, val));
  }

  /** Replacing one half of an address leaves the other. */
  lemma SetHalves(lo: nat, hi: nat, v: nat)
    requires lo < U32
    ensures SetLow(lo + U32 * hi, v) == v + U32 * hi
    ensures SetHigh(lo + U32 * hi, v) == lo + U32 * v
  {
    ModUnique(lo + U32 * hi, U32, hi, lo);
  }

  /** A write to the low or the high half replaces that half; a write to any other register keeps the address. */
  lemma HalfWritten(log: seq<Event>, low: nat, high: nat, i: nat, off: nat, val: nat)
    requires WordsOnly(log) && val < U32 && Selected(log) == i
    requires low != high && low != STATUS && high != STATUS && off != STATUS
    ensures Address(log + [Wrote(off, val)], low, high, i)
         == if off == low then SetLow(Address(log, low, high, i), val)
            else if off == high then SetHigh(Address(log, low, high, i), val)
            else Address(log, low, high, i)
  {
    hide LastWrite, Selected, WordsOnly, SetLow, SetHigh;
    LastWriteAfter(log, low, i, off, val);
    LastWriteAfter(log, high, i, off, val);
    LastWriteIsWord(log, low, i);
    SetHalves(LastWrite(log, low, i), LastWrite(log, high, i), val);
  }

  lemma NumReadyWritten(log: seq<Event>, i: nat, max: nat, off: nat, val: nat)
    requires Selected(log) == i && off != STATUS
    ensures LastNum(log + [Wrote(off, val)], i, max) == if off == QUEUE_NUM && IsPow2(val) then val
        else LastNum(log, i, max)
    ensures LastWrite(log + [Wrote(off, val)], QUEUE_READY, i) == if off == QUEUE_READY then val
        else LastWrite(log, QUEUE_READY, i)
  {
    hide IsPow2;
    Appended(log, Wrote(off, val));
  }

  /** The effect of a write on the registers of the selected queue. */
  function WrittenTo(q: QueueState, off: nat, val: nat): QueueState {
    q.(num := if off == QUEUE_NUM && IsPow2(val) then val else q.num,
       ready := if off == QUEUE_READY then val % 2 else q.ready,
       desc := if off == DESC_LOW then SetLow(q.desc, val) else if off == DESC_HIGH then SetHigh(q.desc, val)
           else q.desc,
       avail := if off == AVAIL_LOW then SetLow(q.avail, val) else if off == AVAIL_HIGH then SetHigh(q.avail, val)
           else q.avail,
       used := if off == USED_LOW then SetLow(q.used, val) else if off == USED_HIGH then SetHigh(q.used, val)
           else q.used)
  }

  lemma WrittenQueue(q: QueueState, log: seq<Event>, i: nat, max: nat, off: nat, val: nat)
    requires QueueHolds(q, log, i, max) && WordsOnly(log) && val < U32 && Selected(log) == i && off != STATUS
    ensures QueueHolds(WrittenTo(q, off, val), log + [Wrote(off, val)], i, max)
  {
    hide IsPow2, Address, SetLow, SetHigh;
    NumReadyWritten(log, i, max, off, val);
    HalfWritten(log, DESC_LOW, DESC_HIGH, i, off, val);
    HalfWritten(log, AVAIL_LOW, AVAIL_HIGH, i, off, val);
    HalfWritten(log, USED_LOW, USED_HIGH, i, off, val);
  }

  /** Selection and interrupt state after an event that is not a reset. */
  lemma SelectedAfter(log: seq<Event>, e: Event)
    requires !IsReset(e)
    ensures Selected(log + [e]) == if e.Wrote? && e.off == QUEUE_SEL && e.val < MAX_QUEUE then e.val else Selected(log)
    ensures Pending(log + [e]) == (e == Completed(false) || (Pending(log) && !Acknowledges(e)))
    ensures LastGlobal(log + [e], STATUS) == if e.Wrote? && e.off == STATUS then e.val else LastGlobal(log, STATUS)
    ensures LastGlobal(log + [e], FEATURES_SEL) == if e.Wrote? && e.off == FEATURES_SEL then e.val
        else LastGlobal(log, FEATURES_SEL)
  {
    Appended(log, e);
  }

  /** The register map: the offset and the effect of every write, for a queue q that is selected. */
  lemma RegisterMap(q: QueueState, log: seq<Event>, v: nat)
    requires v < 0x1_0000_0000
    ensures WrittenTo(q, 0x038, v) == if IsPow2(v) then q.(num := v) else q
    ensures WrittenTo(q, 0x044, v) == q.(ready := v % 2)
    ensures WrittenTo(q, 0x080, v) == q.(desc := q.desc - q.desc % 0x1_0000_0000 + v)
    ensures WrittenTo(q, 0x084, v) == q.(desc := q.desc % 0x1_0000_0000 + 0x1_0000_0000 * v)
    ensures WrittenTo(q, 0x090, v) == q.(avail := q.avail - q.avail % 0x1_0000_0000 + v)
    ensures WrittenTo(q, 0x094, v) == q.(avail := q.avail % 0x1_0000_0000 + 0x1_0000_0000 * v)
    ensures WrittenTo(q, 0x0a0, v) == q.(used := q.used - q.used % 0x1_0000_0000 + v)
    ensures WrittenTo(q, 0x0a4, v) == q.(used := q.used % 0x1_0000_0000 + 0x1_0000_0000 * v)
    ensures Selected(log + [Wrote(0x030, v)]) == if v < 2 then v else Selected(log)
    ensures LastGlobal(log + [Wrote(0x014, v)], FEATURES_SEL) == v && LastGlobal(log + [Wrote(0x070, v)], STATUS) == v
    ensures Pending(log + [Wrote(0x064, v)]) == (Pending(log) && v % 2 == 0)
    ensures IsReset(Wrote(0x070, v)) <==> v == 0
  {
    hide IsPow2;
    Appended(log, Wrote(0x030, v));
    Appended(log, Wrote(0x014, v));
    Appended(log, Wrote(0x070, v));
    Appended(log, Wrote(0x064, v));
  }

  // Configuration space

  /** A read of size bytes, little endian; reads that do not fit answer 0. */
  function ConfigRead(c: seq<byte>, n: nat, off: nat, size: nat): nat
    requires 4 <= n <= |c|
  {
    if size == 1 && off < n then c[off]
    else if size == 2 && off < n - 1 then Get16(c, off)
    else if size == 4 && off < n - 3 then Get32(c, off)
    else 0
  }

  /** A write of size bytes; writes that do not fit are dropped. */
  function ConfigWrite(c: seq<byte>, n: nat, off: nat, val: nat, size: nat): seq<byte>
    requires 4 <= n <= |c|
  {
    if size == 1 && off < n then FlatWrite(c, off, [val % 0x100])
    else if size == 2 && off < n - 1 then FlatWrite(c, off, Put16(val))
    else if size == 4 && off < n - 3 then FlatWrite(c, off, Put32(val))
    else c
  }

  /** A byte access is the byte, and wide accesses agree with byte accesses. */
  lemma ConfigBytewise(c: seq<byte>, n: nat, off: nat)
    requires 4 <= n <= |c|
    ensures off < n ==> ConfigRead(c, n, off, 1) == c[off]
    ensures off + 2 <= n ==> ConfigRead(c, n, off, 2) == ConfigRead(c, n, off, 1) + 0x100 * ConfigRead(c, n, off + 1, 1)
    ensures off + 4 <= n ==> ConfigRead(c, n, off, 4) == ConfigRead(c, n, off, 2) + U16 * ConfigRead(c, n, off + 2, 2)
  {
  }

  /** Accesses that do not fit, and accesses of other widths, read 0 and write nothing. */
  lemma ConfigOutside(c: seq<byte>, n: nat, off: nat, val: nat, size: nat)
    requires 4 <= n <= |c| && !((size == 1 || size == 2 || size == 4) && off + size <= n)
    ensures ConfigWrite(c, n, off, val, size) == c
    ensures size == 1 || size == 2 || size == 4 ==> ConfigRead(c, n, off, size) == 0
  {
  }

  /** What is written is read back, whatever widths the reader uses, and other bytes stay. */
  lemma ConfigReadsBack(c: seq<byte>, n: nat, off: nat, val: nat, size: nat, at: nat)
    requires 4 <= n <= |c| && (size == 1 || size == 2 || size == 4) && off + size <= n
    ensures var c' := ConfigWrite(c, n, off, val, size);
            && |c'| == |c|
            && ConfigRead(c', n, off, size) == val % (if size == 1 then 0x100 else if size == 2 then U16 else U32)
            && (at < off || off + size <= at ==> ConfigRead(c', n, at, 1) == ConfigRead(c, n, at, 1))
  {
    var c' := ConfigWrite(c, n, off, val, size);
    if size == 2 {
      var b := Put16(val);
      assert c'[off] == b[0] && c'[off + 1] == b[1];
    } else if size == 4 {
      var b := Put32(val);
      assert c'[off] == b[0] && c'[off + 1] == b[1] && c'[off + 2] == b[2] && c'[off + 3] == b[3];
    }
  }
}
