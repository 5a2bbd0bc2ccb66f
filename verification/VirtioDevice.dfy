/**
 The part every virtio device shares: its registers, its configuration space
 and the publication of completions. The ghost log records every register write
 and completion; Valid says that each register holds what the log gives it.
 */
module VirtioDevice {
  import opened Words
  import opened GuestMemory
  import opened Chains
  import opened Rings
  import opened Registers
  import opened PoolSpec

  lemma {:induction false} AndSmall(x: nat, v: nat)
    requires x <= 1 && v < U32
    ensures BitAnd(x, U32 - 1 - v) == if x == 1 && v % 2 == 0 then 1 else 0
  {
    var y := U32 - 1 - v;
    assert BitAnd(x / 2, y / 2) == 0;
  }

  class Device {
    const mem: array<byte>
    const maxNum: nat            // max_queue_num
    const manualRx: bool         // queue 0 is served by the host side (network receive)
    const config: array<byte>
    const configSize: nat
    const deviceId: nat
    const features: nat

    var status: nat
    var featuresSel: nat
    var queueSel: nat
    var intStatus: nat
    var queue: seq<QueueState>

    ghost var log: seq<Event>
    ghost var trace: seq<seq<byte>>   // guest memory after each payload and each store of a completion

    ghost predicate Valid()
      reads this
    {
      && IsPow2(maxNum)
      && config != mem && 4 <= configSize <= config.Length
      && mem.Length < U64
      && |queue| == MAX_QUEUE
      && WordsOnly(log)
      && queueSel == Selected(log)
      && status == LastGlobal(log, STATUS) && featuresSel == LastGlobal(log, FEATURES_SEL)
      && (forall i :: 0 <= i < MAX_QUEUE ==> QueueHolds(queue[i], log, i, maxNum))
      && (forall i :: 0 <= i < MAX_QUEUE ==> queue[i].last < U16 && queue[i].manual == (manualRx && i == 0))
      && intStatus == (if Pending(log) then 1 else 0)
    }

    constructor (mem: array<byte>, config: array<byte>, configSize: nat, maxNum: nat, manualRx: bool, deviceId: nat,
                 features: nat)
      requires IsPow2(maxNum) && config != mem && 4 <= configSize <= config.Length && mem.Length < U64
      ensures Valid() && log == []
      ensures this.mem == mem && this.config == config && this.configSize == configSize
      ensures this.maxNum == maxNum && this.manualRx == manualRx && this.deviceId == deviceId
          && this.features == features
      ensures queue[0].last == 0 && queue[1].last == 0
    {
      this.mem, this.config, this.configSize, this.maxNum, this.manualRx := mem, config, configSize, maxNum, manualRx;
      this.deviceId, this.features := deviceId, features;
      status, featuresSel, queueSel, intStatus := 0, 0, 0, 0;
      queue := [QueueState(0, maxNum, 0, 0, 0, 0, manualRx), QueueState(0, maxNum, 0, 0, 0, 0, false)];
      log := [];
    }

    /** virtio_reset: everything but the receive mode of the queues. */
    method Reset()
      requires |queue| == MAX_QUEUE
      modifies this`status, this`queueSel, this`featuresSel, this`intStatus, this`queue
      ensures status == 0 && queueSel == 0 && featuresSel == 0 && intStatus == 0
      ensures |queue| == MAX_QUEUE
      ensures forall i :: 0 <= i < MAX_QUEUE ==> queue[i] == QueueState(0, maxNum, 0, 0, 0, 0, old(queue)[i].manual)
    {
      status, queueSel, featuresSel, intStatus := 0, 0, 0, 0;
      var i := 0;
      while i < MAX_QUEUE
        invariant 0 <= i <= MAX_QUEUE && |queue| == MAX_QUEUE
        invariant status == 0 && queueSel == 0 && featuresSel == 0 && intStatus == 0
        invariant forall k :: 0 <= k < i ==> queue[k] == QueueState(0, maxNum, 0, 0, 0, 0, old(queue)[k].manual)
        invariant forall k :: i <= k < MAX_QUEUE ==> queue[k] == old(queue)[k]
      {
        queue := queue[i := queue[i].(avail := 0, desc := 0, used := 0, last := 0, ready := 0, num := maxNum)];
        i := i + 1;
      }
    }

    /**
     virtio_mmio_write. A notification is reported to the caller, which holds
     the device lock and drains the queue.
     */
    method MmioWrite(off: nat, val: nat, size: nat) returns (notify: Option<nat>)
      requires Valid() && val < U32
      modifies this, config
      ensures Valid()
      ensures log == old(log) + if off < 0x100 && size == 4 then [Wrote(off, val)] else []
      ensures config[..] == if off >= 0x100 then ConfigWrite(old(config[..]), configSize, off - 0x100, val, size)
          else old(config[..])
      ensures notify == if off == 0x050 && size == 4 && val < 2 then Some(val) else None
      ensures forall i :: 0 <= i < MAX_QUEUE ==>
                queue[i].last == if off == STATUS && val == 0 && size == 4 then 0 else old(queue)[i].last
      ensures !ConcernsQueues(off, val, size) ==> queue == old(queue)
    {
      notify := None;
      if off >= CONFIG {
        WriteConfig(off - CONFIG, val, size);
        return;
      }
      if size != 4 {
        return;
      }
      WriteRegister(off, val);
      if off == QUEUE_NOTIFY && val < MAX_QUEUE {
        notify := Some(val);
      }
    }

    method WriteConfig(off: nat, val: nat, size: nat)
      requires 4 <= configSize <= config.Length
      modifies config
      ensures config[..] == ConfigWrite(old(config[..]), configSize, off, val, size)
    {
      if size == 1 {
        if off < configSize {
          config[off] := val % 0x100;
        }
      } else if size == 2 {
        if off < configSize - 1 {
          config[off], config[off + 1] := Put16(val)[0], Put16(val)[1];
        }
      } else if size == 4 {
        if off < configSize - 3 {
          var b := Put32(val);
          config[off], config[off + 1], config[off + 2], config[off + 3] := b[0], b[1], b[2], b[3];
        }
      }
    }

    /** The registers of the selected queue. */
    method WriteQueueRegister(off: nat, val: nat)
      requires |queue| == MAX_QUEUE && queueSel < MAX_QUEUE
      modifies this`queue
      ensures queue == old(queue)[queueSel := WrittenTo(old(queue)[queueSel], off, val)]
    {
      hide IsPow2, SetLow, SetHigh, BitAnd;
      var q := queue[queueSel];
      if off == QUEUE_NUM {
        NotAPowerOfTwo(val);
        if val > 0 && BitAnd(val, val - 1) == 0 {
          queue := queue[queueSel := q.(num := val)];
        }
      } else if off == DESC_LOW {
        queue := queue[queueSel := q.(desc := SetLow(q.desc, val))];
      } else if off == AVAIL_LOW {
        queue := queue[queueSel := q.(avail := SetLow(q.avail, val))];
      } else if off == USED_LOW {
        queue := queue[queueSel := q.(used := SetLow(q.used, val))];
      } else if off == DESC_HIGH {
        queue := queue[queueSel := q.(desc := SetHigh(q.desc, val))];
      } else if off == AVAIL_HIGH {
        queue := queue[queueSel := q.(avail := SetHigh(q.avail, val))];
      } else if off == USED_HIGH {
        queue := queue[queueSel := q.(used := SetHigh(q.used, val))];
      } else if off == QUEUE_READY {
        queue := queue[queueSel := q.(ready := val % 2)];
      }
    }

    method WriteStatus(val: nat)
      requires Valid() && val < U32
      modifies this
      ensures Valid()
      ensures log == old(log) + [Wrote(STATUS, val)]
      ensures forall i :: 0 <= i < MAX_QUEUE ==> queue[i].last == if val == 0 then 0 else old(queue)[i].last
      ensures val != 0 ==> queue == old(queue)
    {
      hide IsPow2, QueueHolds, Selected, Pending, LastGlobal;
      ghost var e, l := Wrote(STATUS, val), log;
      log := log + [e];
      status := val;
      if val == 0 {
        intStatus := 0;
        Reset();
        AfterReset(l, 0, maxNum, manualRx, e);
        AfterReset(l, 1, maxNum, false, e);
        assert forall i :: 0 <= i < MAX_QUEUE ==>
                             (i == 0 || i == 1) && queue[i] == QueueState(0, maxNum, 0, 0, 0, 0, manualRx && i == 0);
      } else {
        SelectedAfter(l, e);
        forall i | 0 <= i < MAX_QUEUE
          ensures QueueHolds(queue[i], log, i, maxNum)
        {
          NotAbout(queue[i], l, i, maxNum, e);
        }
      }
    }

    /** The switch over the registers. */
    method WriteRegister(off: nat, val: nat)
      requires Valid() && val < U32
      modifies this
      ensures Valid()
      ensures log == old(log) + [Wrote(off, val)]
      ensures forall i :: 0 <= i < MAX_QUEUE ==>
                queue[i].last == if off == STATUS && val == 0 then 0 else old(queue)[i].last
      ensures !ConcernsQueues(off, val, 4) ==> queue == old(queue)
    {
      hide IsPow2, QueueHolds, Selected, Pending, LastGlobal, BitAnd, SetLow, SetHigh;
      if off == STATUS {
        WriteStatus(val);
        return;
      }
      ghost var e, l, sel, qs := Wrote(off, val), log, queueSel, queue;
      SelectedAfter(l, e);
      log := log + [e];
      WriteQueueRegister(off, val);
      if off == FEATURES_SEL {
        featuresSel := val;
      } else if off == QUEUE_SEL {
        if val < MAX_QUEUE {
          queueSel := val;
        }
      } else if off == INTERRUPT_ACK {
        AndSmall(intStatus, val);
        intStatus := BitAnd(intStatus, U32 - 1 - val);
      }
      forall i | 0 <= i < MAX_QUEUE
        ensures QueueHolds(queue[i], log, i, maxNum)
      {
        if i == sel {
          WrittenQueue(qs[i], l, i, maxNum, off, val);
        } else {
          NotAbout(qs[i], l, i, maxNum, e);
        }
      }
    }

    /** virtio_mmio_read: every queue register reads back what was last written to it. */
    method MmioRead(off: nat, size: nat) returns (val: nat)
      requires Valid()
      requires off >= CONFIG ==> size == 1 || size == 2 || size == 4
      ensures off >= 0x100 ==> val == ConfigRead(config[..], configSize, off - 0x100, size)
      ensures off < 0x100 && size != 4 ==> val == 0
      ensures size == 4 ==>
                && (off in {DESC_LOW, DESC_HIGH, AVAIL_LOW, AVAIL_HIGH, USED_LOW, USED_HIGH}
                    ==> val == LastWrite(log, off, Selected(log)))
                && (off == QUEUE_READY ==> val == LastWrite(log, off, Selected(log)) % 2)
                && (off == QUEUE_NUM ==> val == LastNum(log, Selected(log), maxNum))
                && (off == QUEUE_SEL ==> val == Selected(log))
                && (off == 0x060 ==> val == if Pending(log) then 1 else 0)
                && (off in {STATUS, FEATURES_SEL} ==> val == LastGlobal(log, off))
                && (off == 0x000 ==> val == 0x74726976) && (off == 0x004 ==> val == 2)
                    && (off == 0x008 ==> val == deviceId)
                && (off == 0x00c ==> val == 0xffff) && (off == 0x034 ==> val == maxNum)
                && (off == 0x010 ==> val == match LastGlobal(log,
                                                             FEATURES_SEL) case 0 => features case 1 => 1 case _ => 0)
    {
      if off >= CONFIG {
        val := ReadConfig(off - CONFIG, size);
        return;
      }
      val := 0;
      if size != 4 {
        return;
      }
      hide IsPow2, Selected, Pending, LastWrite, LastNum, LastGlobal;
      var q := queue[queueSel];
      Halves(q.desc, DESC_LOW, DESC_HIGH);
      Halves(q.avail, AVAIL_LOW, AVAIL_HIGH);
      Halves(q.used, USED_LOW, USED_HIGH);
      if off == 0x000 {
        val := 0x74726976;
      } else if off == 0x004 {
        val := 2;
      } else if off == 0x008 {
        val := deviceId;
      } else if off == 0x00c {
        val := 0xffff;
      } else if off == 0x010 {
        val := if featuresSel == 0 then features else if featuresSel == 1 then 1 else 0;
      } else if off == FEATURES_SEL {
        val := featuresSel;
      } else if off == QUEUE_SEL {
        val := queueSel;
      } else if off == 0x034 {
        val := maxNum;
      } else if off == QUEUE_NUM {
        val := q.num;
      } else if off == DESC_LOW {
        val := q.desc % U32;
      } else if off == AVAIL_LOW {
        val := q.avail % U32;
      } else if off == USED_LOW {
        val := q.used % U32;
      } else if off == DESC_HIGH {
        val := q.desc / U32;
      } else if off == AVAIL_HIGH {
        val := q.avail / U32;
      } else if off == USED_HIGH {
        val := q.used / U32;
      } else if off == QUEUE_READY {
        val := q.ready;
      } else if off == INTERRUPT_STATUS {
        val := intStatus;
      } else if off == STATUS {
        val := status;
      }
    }

    method ReadConfig(off: nat, size: nat) returns (val: nat)
      requires 4 <= configSize <= config.Length
      requires size == 1 || size == 2 || size == 4
      ensures val == ConfigRead(config[..], configSize, off, size)
    {
      val := 0;
      if size == 1 {
        if off < configSize {
          val := config[off];
        }
      } else if size == 2 {
        if off < configSize - 1 {
          val := Get16(config[..], off);
        }
      } else {
        if off < configSize - 3 {
          val := Get32(config[..], off);
        }
      }
    }

    /** An address splits into the halves that were written. */
    lemma Halves(a: nat, low: nat, high: nat)
      requires WordsOnly(log) && a == Address(log, low, high, Selected(log))
      ensures a % U32 == LastWrite(log, low, Selected(log)) && a / U32 == LastWrite(log, high, Selected(log))
    {
      LastWriteIsWord(log, low, Selected(log));
      LastWriteIsWord(log, high, Selected(log));
    }

    /**
     virtio_consume_desc: completion number |hist| of queue qi. The used ring
     represents the longer history, nothing outside it changes, and an
     interrupt becomes pending unless the driver suppressed it. The trace shows
     the three stores in their order.
     */
    method ConsumeDesc(qi: nat, id: nat, len: nat, ghost hist: seq<UsedElem>)
      requires Valid() && qi < MAX_QUEUE
      requires UsedRing(mem[..], queue[qi], hist, queue[qi].num)
      requires AvailLayout(mem.Length, queue[qi]) && AvailBytes(queue[qi]) !! UsedBytes(queue[qi])
      modifies this`intStatus, this`log, this`trace, mem
      ensures Valid()
      ensures queue[qi].num > 0 && trace == old(trace) + Stages(old(mem[..]), queue[qi], |hist|, UsedElem(id, len))[1..]
      ensures mem[..] == Published(old(mem[..]), queue[qi], |hist|, UsedElem(id, len))
      ensures UsedRing(mem[..], queue[qi], hist + [UsedElem(id, len)], queue[qi].num)
      ensures log == old(log) + [Completed(old(mem[queue[qi].avail]) % 2 == 1)]
      ensures intStatus == if old(mem[queue[qi].avail]) % 2 == 0 then 1 else old(intStatus)
    {
      hide IsPow2, Selected, Pending, LastGlobal, QueueHolds, UsedRing, Published, AvailBytes, UsedBytes;
      var q := queue[qi];
      ghost var m := mem[..];
      FlagsKept(m, q, hist, UsedElem(id, len));
      SuppressBit(m, q);
      PublishUsed(q, id, len, hist);
      var flags := Read16(mem, q.avail);
      ghost var ev := Completed(flags % 2 == 1);
      SelectedAfter(log, ev);
      forall i | 0 <= i < MAX_QUEUE
        ensures QueueHolds(queue[i], log + [ev], i, maxNum)
      {
        NotAbout(queue[i], log, i, maxNum, ev);
      }
      log := log + [ev];
      if flags % 2 == 1 {
        return;
      }
      intStatus := if intStatus % 2 == 1 then intStatus else intStatus + 1;
    }

    /** last_avail_idx moves on, modulo 2^16. */
    method AdvanceAvail(qi: nat)
      requires Valid() && qi < MAX_QUEUE
      modifies this`queue
      ensures Valid()
      ensures queue == old(queue)[qi := old(queue)[qi].(last := (old(queue)[qi].last + 1) % U16)]
    {
      hide LastNum, LastWrite, Address, LastGlobal;
      queue := queue[qi := queue[qi].(last := (queue[qi].last + 1) % U16)];
    }

    lemma FlagsKept(m: seq<byte>, q: QueueState, hist: seq<UsedElem>, e: UsedElem)
      requires UsedRing(m, q, hist, q.num)
      requires AvailLayout(|m|, q) && AvailBytes(q) !! UsedBytes(q)
      ensures q.num > 0 && UsedRing(Published(m, q, |hist|, e), q, hist + [e], q.num)
      ensures |Published(m, q, |hist|, e)| == |m|
      ensures AvailFlags(Published(m, q, |hist|, e), q) == AvailFlags(m, q)
    {
      hide Published, AvailBytes, UsedBytes, Get16, SlotHolds;
      StoresInOrder(m, q, hist, e);
      PublishedFrame(m, q, |hist|, e);
      OnlyInAgrees(m, Published(m, q, |hist|, e), UsedBytes(q), AvailBytes(q));
      AvailKept(m, Published(m, q, |hist|, e), q, 0);
    }

    /** The three stores into the used ring. */
    method PublishUsed(q: QueueState, id: nat, len: nat, ghost hist: seq<UsedElem>)
      requires UsedRing(mem[..], q, hist, q.num)
      modifies this`trace, mem
      ensures q.num > 0 && mem[..] == Published(old(mem[..]), q, |hist|, UsedElem(id, len))
      ensures trace == old(trace) + Stages(old(mem[..]), q, |hist|, UsedElem(id, len))[1..]
    {
      hide UsedRing, Get16, FlatWrite, SlotAddr, BitAnd, Put16, Put32;
      ghost var k := |hist|;
      RingFacts(mem[..], q, hist);
      var index := Read16(mem, q.used + 2);
      var ring := q.used + 4 + BitAnd(index, q.num - 1) * 8;
      RingAddress(q, k, ring);
      Store(mem, ring, Put32(id));
      trace := trace + [mem[..]];
      Store(mem, ring + 4, Put32(len));
      trace := trace + [mem[..]];
      Store(mem, q.used + 2, Put16(index + 1));
      trace := trace + [mem[..]];
      Put16Next(k);
    }

    lemma RingFacts(m: seq<byte>, q: QueueState, hist: seq<UsedElem>)
      requires UsedRing(m, q, hist, q.num)
      ensures q.num > 0 && (q.used + 2) % 2 == 0 && q.used + 4 <= |m| && Get16(m, q.used + 2) == |hist| % U16
      ensures SlotAddr(q, |hist|) % 4 == 0 && (SlotAddr(q, |hist|) + 4) % 4 == 0
      ensures BitAnd(|hist| % U16, q.num - 1) == |hist| % q.num
    {
      hide SlotHolds, BitAnd, SlotAddr, Get16, IsPow2;
      SlotInRing(|m|, q, |hist|);
      SlotOf(|hist|, q.num);
      Aligned(q.used);
      Aligned(SlotAddr(q, |hist|));
    }

    lemma RingAddress(q: QueueState, k: nat, ring: nat)
      requires q.num > 0 && ring == q.used + 4 + (k % q.num) * 8
      ensures ring == SlotAddr(q, k)
    {
    }

    lemma NotAPowerOfTwo(val: nat)
      ensures val > 0 && BitAnd(val, val - 1) == 0 <==> IsPow2(val)
    {
      if val > 0 {
        PowerOfTwoTest(val);
      }
    }
  }
}
