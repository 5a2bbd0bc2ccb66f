/**
 The serial port as a one-byte mailbox between the keyboard thread and the
 guest. Every access takes rx_lock, and waiting for the mailbox releases it, so
 a run is a sequence of whole accesses and stores; write_to_serial is given what
 the guest does during each of its waits.

 Valid says that the port is what its trace makes of the initial port, and that
 no store ever met a full mailbox. The theorems about traces are then theorems
 about every interleaving: the stream equation (bytes accepted from the keyboard
 are those the guest has read and the pending one) and the agreement of the
 interrupt line with the interrupt register, each up to the accesses that break
 it.
 */
module Serial {
  import opened Words

  datatype Access = In(offset: nat) | Out(offset: nat, data: byte)

  /** What happens while write_to_serial waits once: accesses of the guest, then a wakeup or the timeout. */
  datatype Wait = Wait(accesses: seq<Access>, timedOut: bool)

  datatype Outcome = Accepted | Dropped | Waiting

  /** Ports 0x3f8 to 0x3ff. */
  predicate OnPort(a: Access) {
    a.offset < 8
  }

  predicate AccessesOnPort(accesses: seq<Access>) {
    forall i :: 0 <= i < |accesses| ==> OnPort(accesses[i])
  }

  predicate AllOnPort(waits: seq<Wait>) {
    forall i :: 0 <= i < |waits| ==> AccessesOnPort(waits[i].accesses)
  }

  // The port as a value

  type Regs = r: seq<byte> | |r| == 8 witness [0, 0, 0, 0, 0, 0, 0, 0]
  type Latches = r: seq<byte> | |r| == 2 witness [0, 0]

  /** line is the level of interrupt line 4, printed what went to standard output. */
  datatype Port = Port(regs: Regs, dl: Latches, line: bool, printed: seq<byte>)

  const NO_INTR: byte := 1
  const TX_INTR: byte := 2
  const RX_INTR: byte := 4

  function Initial(): Port {
    Port([0, 0, NO_INTR, 0, 0, 0x60, 0, 0], [0, 0], false, [])
  }

  predicate Ready(regs: Regs) {
    regs[5] % 2 == 1
  }

  predicate Dlab(regs: Regs) {
    regs[3] >= 0x80
  }

  predicate RxEnabled(regs: Regs) {
    regs[1] % 2 == 1
  }

  predicate TxEnabled(regs: Regs) {
    regs[1] / 2 % 2 == 1
  }

  /** The port after one access of the guest. */
  function Step(p: Port, a: Access): Port
    requires OnPort(a)
  {
    match a
    case In(o) =>
      if o == 0 then p.(regs := p.regs[5 := p.regs[5] - p.regs[5] % 2])
      else if o != 2 then p
      else if p.regs[2] == RX_INTR && TxEnabled(p.regs) then p.(regs := p.regs[2 := TX_INTR])
      else p.(regs := p.regs[2 := NO_INTR], line := false)
    case Out(o, d) =>
      if o == 0 && !Dlab(p.regs) then
        var q := p.(printed := p.printed + [d]);
        if TxEnabled(p.regs) && p.regs[2] != RX_INTR then q.(regs := p.regs[2 := TX_INTR], line := true) else q
      else p.(regs := p.regs[o := d], dl := if o < 2 && Dlab(p.regs) then p.dl[o := d] else p.dl)
  }

  /** The port after a byte was stored. */
  function Store(p: Port, c: byte): Port {
    var regs := p.regs[0 := c][5 := p.regs[5] - p.regs[5] % 2 + 1];
    if RxEnabled(p.regs) then p.(regs := regs[2 := RX_INTR], line := true) else p.(regs := regs)
  }

  // Bit masks

  lemma AndHalves(x: nat, y: nat)
    ensures BitAnd(x, 2 * y) == 2 * BitAnd(x / 2, y)
  {
    assert 2 * y / 2 == y && 2 * y % 2 == 0;
    assert BitAnd(0, y) == 0;
  }

  lemma TopBit(x: byte)
    ensures BitAnd(x, 0x80) != 0 <==> x >= 0x80
  {
    AndHalves(x, 0x40);
    AndHalves(x / 2, 0x20);
    AndHalves(x / 4, 0x10);
    AndHalves(x / 8, 8);
    AndHalves(x / 16, 4);
    AndHalves(x / 32, 2);
    LowBits(x / 64);
    assert x / 2 / 2 == x / 4 && x / 4 / 2 == x / 8 && x / 8 / 2 == x / 16 && x / 16 / 2 == x / 32
        && x / 32 / 2 == x / 64;
  }

  /** The four conditions, as the masks of the registers they are. */
  lemma Masks(regs: Regs)
    ensures Ready(regs) <==> BitAnd(regs[5], 0x01) != 0
    ensures Dlab(regs) <==> BitAnd(regs[3], 0x80) != 0
    ensures RxEnabled(regs) <==> BitAnd(regs[1], 0x01) != 0
    ensures TxEnabled(regs) <==> BitAnd(regs[1], 0x02) != 0
  {
    LowBits(regs[5]);
    LowBits(regs[1]);
    TopBit(regs[3]);
  }

  /** Registers other than those in the set keep their values. */
  predicate Keeps(was: Regs, now: Regs, changed: set<nat>) {
    forall i :: 0 <= i < 8 && i !in changed ==> now[i] == was[i]
  }

  /**
   What a read does: offset 0 clears data-ready; offset 2 turns a receive
   interrupt into a transmit interrupt where that is enabled, and otherwise takes
   the interrupt back and lowers the line; the other offsets do nothing.
   */
  lemma ReadEffect(p: Port, o: nat)
    requires o < 8
    ensures var q := Step(p, In(o));
            && q.dl == p.dl && q.printed == p.printed
            && (o == 0 ==> Keeps(p.regs, q.regs, {5}) && q.line == p.line && q.regs[5] == p.regs[5] / 2 * 2)
            && (o == 2 ==> Keeps(p.regs, q.regs, {2}))
            && (o == 2 && p.regs[2] == 4 && BitAnd(p.regs[1], 2) != 0 ==> q.regs[2] == 2 && q.line == p.line)
            && (o == 2 && !(p.regs[2] == 4 && BitAnd(p.regs[1], 2) != 0) ==> q.regs[2] == 1 && !q.line)
            && (o != 0 && o != 2 ==> q == p)
  {
    Masks(p.regs);
  }

  /**
   What a write does: to offset 0 without DLAB it prints the byte and raises a
   transmit interrupt where enabled, unless a receive interrupt is there;
   otherwise it sets the register, and with DLAB the divisor latch as well.
   */
  lemma WriteEffect(p: Port, o: nat, d: byte)
    requires o < 8
    ensures var q := Step(p, Out(o, d));
            var dlab, tx := BitAnd(p.regs[3], 0x80) != 0, BitAnd(p.regs[1], 2) != 0;
            && (o == 0 && !dlab ==> q.printed == p.printed + [d] && q.dl == p.dl && Keeps(p.regs, q.regs, {2}))
            && (o == 0 && !dlab && tx && p.regs[2] != 4 ==> q.regs[2] == 2 && q.line)
            && (o == 0 && !dlab && !(tx && p.regs[2] != 4) ==> q.regs[2] == p.regs[2] && q.line == p.line)
            && (o != 0 || dlab ==> q.printed == p.printed && q.line == p.line && q.regs == p.regs[o := d])
            && ((o != 0 || dlab) && !(o < 2 && dlab) ==> q.dl == p.dl)
            && (o < 2 && dlab ==> q.dl == p.dl[o := d])
  {
    Masks(p.regs);
  }

  /** What a store does: the byte, data-ready, and the receive interrupt where enabled; nothing else. */
  lemma StoreEffect(p: Port, c: byte)
    ensures var q := Store(p, c);
            && q.regs[0] == c && q.regs[5] == p.regs[5] / 2 * 2 + 1 && q.dl == p.dl && q.printed == p.printed
            && Keeps(p.regs, q.regs, {0, 2, 5})
            && (BitAnd(p.regs[1], 1) != 0 ==> q.regs[2] == 4 && q.line)
            && (BitAnd(p.regs[1], 1) == 0 ==> q.regs[2] == p.regs[2] && q.line == p.line)
  {
    Masks(p.regs);
  }

  // Traces

  datatype Event = Guest(access: Access) | Stored(c: byte)

  function Guests(accesses: seq<Access>): (r: seq<Event>)
    ensures |r| == |accesses|
    ensures forall i :: 0 <= i < |r| ==> r[i] == Guest(accesses[i])
  {
    seq(|accesses|, i requires 0 <= i < |accesses| => Guest(accesses[i]))
  }

  /** Accesses are on the port, and no store meets a full mailbox. */
  predicate Possible(p: Port, e: Event) {
    match e
    case Guest(a) => OnPort(a)
    case Stored(_) => !Ready(p.regs)
  }

  function Apply(p: Port, e: Event): Port
    requires Possible(p, e)
  {
    match e
    case Guest(a) => Step(p, a)
    case Stored(c) => Store(p, c)
  }

  predicate TraceOk(es: seq<Event>)
    decreases |es|, 0
  {
    es == [] || (TraceOk(es[..|es| - 1]) && Possible(Replay(es[..|es| - 1]), es[|es| - 1]))
  }

  /** The port after a trace. */
  function Replay(es: seq<Event>): Port
    requires TraceOk(es)
    decreases |es|, 1
  {
    if es == [] then Initial() else Apply(Replay(es[..|es| - 1]), es[|es| - 1])
  }

  lemma TraceGrows(es: seq<Event>, e: Event)
    requires TraceOk(es) && Possible(Replay(es), e)
    ensures TraceOk(es + [e]) && Replay(es + [e]) == Apply(Replay(es), e)
  {
    assert (es + [e])[..|es|] == es;
  }

  /** Accesses of the guest are possible in any state. */
  lemma {:induction false} GuestsGrow(es: seq<Event>, accesses: seq<Access>)
    requires TraceOk(es) && AccessesOnPort(accesses)
    ensures TraceOk(es + Guests(accesses))
    decreases |accesses|
  {
    hide Replay, Apply;
    var n := |accesses|;
    if n == 0 {
      assert es + Guests(accesses) == es;
    } else {
      GuestsGrow(es, accesses[..n - 1]);
      TraceGrows(es + Guests(accesses[..n - 1]), Guest(accesses[n - 1]));
      assert es + Guests(accesses) == es + Guests(accesses[..n - 1]) + [Guest(accesses[n - 1])];
    }
  }

  // The stream

  /** The byte in the mailbox. */
  function Mailbox(regs: Regs): seq<byte> {
    if Ready(regs) then [regs[0]] else []
  }

  /** What an access reads from the stream. */
  function Takes(regs: Regs, a: Access): seq<byte> {
    if a == In(0) && !Dlab(regs) then Mailbox(regs) else []
  }

  /** The bytes the mailbox accepted. */
  function AcceptedBytes(es: seq<Event>): seq<byte> {
    if es == [] then []
    else AcceptedBytes(es[..|es| - 1]) + if es[|es| - 1].Stored? then [es[|es| - 1].c] else []
  }

  /** The bytes the guest read from the stream. */
  function ReadBytes(es: seq<Event>): seq<byte>
    requires TraceOk(es)
  {
    if es == [] then []
    else
      var before := es[..|es| - 1];
      ReadBytes(before) + if es[|es| - 1].Guest? then Takes(Replay(before).regs, es[|es| - 1].access) else []
  }

  /**
   The accesses that break the stream: reading offset 0 as the divisor latch
   takes a pending byte away, writing it as the divisor latch replaces a
   pending byte by another one, and a write to the line status register sets or
   clears data-ready.
   */
  predicate Spoils(regs: Regs, a: Access) {
    match a
    case In(o) => o == 0 && Dlab(regs) && Ready(regs)
    case Out(o, d) => (o == 0 && Dlab(regs) && Ready(regs) && d != regs[0]) || (o == 5 && d % 2 != regs[5] % 2)
  }

  predicate Spoiled(es: seq<Event>)
    requires TraceOk(es)
  {
    es != [] &&
    var before, e := es[..|es| - 1], es[|es| - 1];
    Spoiled(before) || (e.Guest? && Spoils(Replay(before).regs, e.access))
  }

  /** An access breaks the stream equation exactly when it Spoils. */
  lemma StreamStep(p: Port, a: Access, accepted: seq<byte>, read: seq<byte>)
    requires OnPort(a) && accepted == read + Mailbox(p.regs)
    ensures accepted == read + Takes(p.regs, a) + Mailbox(Step(p, a).regs) <==> !Spoils(p.regs, a)
  {
    var now := Step(p, a).regs;
    var x, y := Mailbox(p.regs), Takes(p.regs, a) + Mailbox(now);
    assert (read + x)[|read|..] == x && (read + y)[|read|..] == y;
    assert read + Takes(p.regs, a) + Mailbox(now) == read + y;
    assert x == y <==> !Spoils(p.regs, a);
  }

  /** In every interleaving, until an access spoils it: accepted bytes are those read and the pending one. */
  lemma {:induction false} StreamOfTrace(es: seq<Event>)
    requires TraceOk(es) && !Spoiled(es)
    ensures AcceptedBytes(es) == ReadBytes(es) + Mailbox(Replay(es).regs)
    decreases |es|
  {
    hide Step, Store, Spoils, Takes;
    if es != [] {
      var before, e := es[..|es| - 1], es[|es| - 1];
      StreamOfTrace(before);
      var p := Replay(before);
      if e.Guest? {
        StreamStep(p, e.access, AcceptedBytes(before), ReadBytes(before));
      } else {
        StoreEffect(p, e.c);
      }
    }
  }

  // The interrupt line

  /** The accesses that make the interrupt register disagree with the line. */
  predicate Confuses(regs: Regs, a: Access) {
    a.Out? && a.offset == 2 && (a.data == NO_INTR) != (regs[2] == NO_INTR)
  }

  predicate Confused(es: seq<Event>)
    requires TraceOk(es)
  {
    es != [] &&
    var before, e := es[..|es| - 1], es[|es| - 1];
    Confused(before) || (e.Guest? && Confuses(Replay(before).regs, e.access))
  }

  predicate LineTells(p: Port) {
    p.line <==> p.regs[2] != 1
  }

  /** An access breaks the agreement exactly when it Confuses. */
  lemma LineStep(p: Port, a: Access)
    requires OnPort(a) && LineTells(p)
    ensures LineTells(Step(p, a)) <==> !Confuses(p.regs, a)
  {
  }

  /** In every interleaving, until the guest writes over the interrupt register, the line is high iff it shows one. */
  lemma {:induction false} LineOfTrace(es: seq<Event>)
    requires TraceOk(es) && !Confused(es)
    ensures LineTells(Replay(es))
    decreases |es|
  {
    hide Step, Store, Confuses, LineTells;
    if es == [] {
      assert LineTells(Initial()) by { StartsLow(); }
    } else {
      var before, e := es[..|es| - 1], es[|es| - 1];
      LineOfTrace(before);
      if e.Guest? {
        LineStep(Replay(before), e.access);
      } else {
        StoreTells(Replay(before), e.c);
      }
    }
  }

  lemma StartsLow()
    ensures LineTells(Initial())
  {
  }

  lemma StoreTells(p: Port, c: byte)
    requires LineTells(p)
    ensures LineTells(Store(p, c))
  {
  }

  // One write

  /** The trace after write_to_serial. */
  function AfterWrite(es: seq<Event>, c: byte, waits: seq<Wait>): seq<Event>
    requires TraceOk(es) && AllOnPort(waits)
    decreases |waits|
  {
    if !Ready(Replay(es).regs) then es + [Stored(c)]
    else if waits == [] then es
    else
      GuestsGrow(es, waits[0].accesses);
      var es1 := es + Guests(waits[0].accesses);
      if waits[0].timedOut then es1 else AfterWrite(es1, c, waits[1..])
  }

  function OutcomeOf(es: seq<Event>, waits: seq<Wait>): Outcome
    requires TraceOk(es) && AllOnPort(waits)
    decreases |waits|
  {
    if !Ready(Replay(es).regs) then Accepted
    else if waits == [] then Waiting
    else
      GuestsGrow(es, waits[0].accesses);
      if waits[0].timedOut then Dropped else OutcomeOf(es + Guests(waits[0].accesses), waits[1..])
  }

  /** The accesses of the first n waits. */
  function Performed(waits: seq<Wait>, n: nat): seq<Access>
    requires n <= |waits|
  {
    if n == 0 then [] else Performed(waits, n - 1) + waits[n - 1].accesses
  }

  lemma {:induction false} PerformedTail(waits: seq<Wait>, n: nat)
    requires 0 < n <= |waits|
    ensures Performed(waits, n) == waits[0].accesses + Performed(waits[1..], n - 1)
  {
    if n > 1 {
      PerformedTail(waits, n - 1);
      assert Performed(waits[1..], n - 1) == Performed(waits[1..], n - 2) + waits[1..][n - 2].accesses;
    }
  }

  lemma GuestsAppend(x: seq<Access>, y: seq<Access>)
    ensures Guests(x + y) == Guests(x) + Guests(y)
  {
  }

  /**
   After `used` waits, none of which timed out before the last, the byte is
   stored, if the mailbox is empty by then, or dropped, if the last of them
   timed out; it never replaces a pending byte.
   */
  ghost predicate WroteAfter(es: seq<Event>, c: byte, waits: seq<Wait>, used: nat)
    requires TraceOk(es) && AllOnPort(waits)
  {
    && used <= |waits| && (forall i :: 0 <= i < used - 1 ==> !waits[i].timedOut)
    && var es1, end := es + Guests(Performed(waits, used)), AfterWrite(es, c, waits);
    && TraceOk(es1) && TraceOk(end)
    && (used == 0 <==> !Ready(Replay(es).regs) || waits == [])
    && match OutcomeOf(es, waits)
       case Accepted => end == es1 + [Stored(c)] && !Ready(Replay(es1).regs) && (used > 0 ==> !waits[used - 1].timedOut)
       case Dropped => end == es1 && used > 0 && waits[used - 1].timedOut
       case Waiting =>
         end == es1 && used == |waits| && Ready(Replay(es1).regs) && (used > 0 ==> !waits[used - 1].timedOut)
  }

  lemma WroteAtOnce(es: seq<Event>, c: byte, waits: seq<Wait>)
    requires TraceOk(es) && AllOnPort(waits) && (!Ready(Replay(es).regs) || waits == [])
    ensures WroteAfter(es, c, waits, 0)
  {
    hide Step, Store, Apply, Replay;
    assert Guests([]) == [] && es + [] == es;
    if !Ready(Replay(es).regs) {
      TraceGrows(es, Stored(c));
    }
  }

  lemma WroteTimedOut(es: seq<Event>, c: byte, waits: seq<Wait>)
    requires TraceOk(es) && AllOnPort(waits) && Ready(Replay(es).regs) && waits != [] && waits[0].timedOut
    ensures WroteAfter(es, c, waits, 1)
  {
    hide Step, Store, Apply, Replay, TraceOk;
    GuestsGrow(es, waits[0].accesses);
    assert Performed(waits, 0) == [];
    assert Performed(waits, 1) == [] + waits[0].accesses;
    assert [] + waits[0].accesses == waits[0].accesses;
  }

  lemma WroteLater(es: seq<Event>, c: byte, waits: seq<Wait>, n: nat)
    requires TraceOk(es) && AllOnPort(waits) && Ready(Replay(es).regs) && waits != [] && !waits[0].timedOut
    requires TraceOk(es + Guests(waits[0].accesses)) && WroteAfter(es + Guests(waits[0].accesses), c, waits[1..], n)
    ensures WroteAfter(es, c, waits, n + 1)
  {
    hide Step, Store, Apply, Replay, TraceOk, Performed;
    var first, rest := waits[0].accesses, waits[1..];
    PerformedTail(waits, n + 1);
    GuestsAppend(first, Performed(rest, n));
    assert es + (Guests(first) + Guests(Performed(rest, n))) == es + Guests(first) + Guests(Performed(rest, n));
    assert forall i :: 0 <= i < |rest| ==> rest[i] == waits[i + 1];
    assert forall i :: 0 < i < |waits| ==> waits[i] == rest[i - 1];
  }

  /** Every write is of that kind. */
  lemma {:induction false} WriteMeans(es: seq<Event>, c: byte, waits: seq<Wait>) returns (used: nat)
    requires TraceOk(es) && AllOnPort(waits)
    ensures WroteAfter(es, c, waits, used)
    decreases |waits|
  {
    hide Replay, TraceOk, WroteAfter;
    if !Ready(Replay(es).regs) || waits == [] {
      used := 0;
      WroteAtOnce(es, c, waits);
    } else if waits[0].timedOut {
      used := 1;
      WroteTimedOut(es, c, waits);
    } else {
      GuestsGrow(es, waits[0].accesses);
      var n := WriteMeans(es + Guests(waits[0].accesses), c, waits[1..]);
      used := n + 1;
      WroteLater(es, c, waits, n);
    }
  }

  class SerialPort {
    const regs: array<byte>
    const dl: array<byte>
    var line: bool
    var printed: seq<byte>

    ghost var trace: seq<Event>

    ghost predicate Shaped()
    {
      regs.Length == 8 && dl.Length == 2 && regs != dl
    }

    ghost function State(): Port
      requires Shaped()
      reads this, regs, dl
    {
      Port(regs[..], dl[..], line, printed)
    }

    ghost predicate Valid()
      reads this, regs, dl
    {
      Shaped() && TraceOk(trace) && State() == Replay(trace)
    }

    /** serial_init. */
    constructor ()
      ensures Valid() && fresh(regs) && fresh(dl) && trace == []
      ensures regs[..] == [0, 0, 1, 0, 0, 0x60, 0, 0] && dl[..] == [0, 0] && !line && printed == []
    {
      regs := new byte[8](i => if i == 5 then 0x60 else if i == 2 then NO_INTR else 0);
      dl := new byte[2](_ => 0);
      line, printed, trace := false, [], [];
      new;
      assert regs[..] == [0, 0, 1, 0, 0, 0x60, 0, 0] && dl[..] == [0, 0];
    }

    /** read_reg. */
    method ReadReg(offset: nat) returns (v: byte)
      requires Shaped() && offset < 8
      modifies this`line, regs
      ensures v == if offset == 7 then 0 else old(regs[offset])
      ensures State() == Step(old(State()), In(offset))
    {
      if offset == 7 {
        return 0;
      }
      v := regs[offset];
      if offset == 2 {
        if regs[2] == RX_INTR && TxEnabled(regs[..]) {
          regs[2] := TX_INTR;
        } else {
          regs[2] := NO_INTR;
          line := false;
        }
      } else if offset == 0 {
        regs[5] := regs[5] - regs[5] % 2;
      }
    }

    /** handle_serial: one access of the guest. Every read answers the register, the divisor latches included. */
    method HandleSerial(a: Access) returns (v: byte)
      requires Valid() && OnPort(a)
      modifies this, regs, dl
      ensures Valid() && trace == old(trace) + [Guest(a)]
      ensures State() == Step(old(State()), a)
      ensures a.In? ==> v == if a.offset == 7 then 0 else old(regs[a.offset])
      ensures Takes(old(State()).regs, a) != [] ==> Takes(old(State()).regs, a) == [v]
    {
      v := Perform(a);
      TraceGrows(trace, Guest(a));
      trace := trace + [Guest(a)];
    }

    method Perform(a: Access) returns (v: byte)
      requires Shaped() && OnPort(a)
      modifies this`line, this`printed, regs, dl
      ensures State() == Step(old(State()), a)
      ensures a.In? ==> v == if a.offset == 7 then 0 else old(regs[a.offset])
    {
      v := 0;
      if Dlab(regs[..]) && a.offset < 2 {
        if a.Out? {
          dl[a.offset] := a.data;
        } else {
          v := dl[a.offset];
        }
      }
      if a.Out? {
        if a.offset == 0 && !Dlab(regs[..]) {
          printed := printed + [a.data];
          if TxEnabled(regs[..]) && regs[2] != RX_INTR {
            regs[2] := TX_INTR;
            line := true;
          }
        } else {
          regs[a.offset] := a.data;
        }
      } else {
        v := ReadReg(a.offset);
      }
    }

    /** Accesses of the guest while the keyboard thread does not hold the lock. */
    method DuringWait(accesses: seq<Access>)
      requires Valid() && AccessesOnPort(accesses)
      modifies this, regs, dl
      ensures Valid() && trace == old(trace) + Guests(accesses)
    {
      hide Step, Replay, Apply;
      var i := 0;
      while i < |accesses|
        invariant 0 <= i <= |accesses|
        invariant Valid() && trace == old(trace) + Guests(accesses[..i])
      {
        var _ := HandleSerial(accesses[i]);
        i := i + 1;
        assert Guests(accesses[..i]) == Guests(accesses[..i - 1]) + [Guest(accesses[i - 1])];
      }
      assert accesses[..i] == accesses;
    }

    /** Store a byte into the empty mailbox. */
    method StoreByte(c: byte)
      requires Valid() && !Ready(regs[..])
      modifies this`line, this`trace, regs
      ensures Valid() && trace == old(trace) + [Stored(c)]
      ensures State() == Store(old(State()), c)
    {
      hide Store, Replay, TraceOk;
      TraceGrows(trace, Stored(c));
      PutByte(c);
      trace := trace + [Stored(c)];
    }

    /** The byte, the interrupt and data-ready. */
    method PutByte(c: byte)
      requires Shaped()
      modifies this`line, regs
      ensures State() == Store(old(State()), c)
    {
      regs[0] := c;
      if RxEnabled(regs[..]) {
        regs[2] := RX_INTR;
        line := true;
      }
      regs[5] := regs[5] - regs[5] % 2 + 1;
      assert regs[..] == Store(old(State()), c).regs;
    }

    /**
     write_to_serial. The trace tells which waits it took and what came of it
     (WriteMeans); a stored byte raises the receive interrupt if the guest has
     enabled it, and the store touches nothing else.
     */
    method WriteToSerial(c: byte, waits: seq<Wait>) returns (out: Outcome)
      requires Valid() && AllOnPort(waits)
      modifies this, regs, dl
      ensures Valid() && trace == AfterWrite(old(trace), c, waits) && out == OutcomeOf(old(trace), waits)
      ensures AcceptedBytes(trace) == AcceptedBytes(old(trace)) + if out == Accepted then [c] else []
      ensures out == Accepted ==>
                && |trace| > 0 && TraceOk(trace[..|trace| - 1])
                && StoredInto(Replay(trace[..|trace| - 1]), c, State())
      ensures !old(Ready(regs[..])) ==> out == Accepted && StoredInto(old(State()), c, State())
    {
      hide Step, Store, Apply, StoredInto;
      var i := 0;
      assert waits[0..] == waits;
      ghost var es := trace;
      while Ready(regs[..])
        invariant 0 <= i <= |waits| && Valid()
        invariant AfterWrite(es, c, waits) == AfterWrite(trace, c, waits[i..])
        invariant OutcomeOf(es, waits) == OutcomeOf(trace, waits[i..])
        invariant AcceptedBytes(trace) == AcceptedBytes(es)
        invariant !old(Ready(regs[..])) ==> i == 0 && State() == old(State()) && trace == es
        decreases |waits| - i
      {
        if i == |waits| {
          return Waiting;
        }
        assert waits[i..][0] == waits[i] && waits[i..][1..] == waits[i + 1..];
        GuestsStoreNothing(trace, waits[i].accesses);
        DuringWait(waits[i].accesses);
        i := i + 1;
        if waits[i - 1].timedOut {
          return Dropped;
        }
      }
      StoreMeans(State(), c);
      AcceptedAppend(trace, c);
      ghost var before := trace;
      StoreByte(c);
      assert trace[..|trace| - 1] == before;
      out := Accepted;
    }
  }

  /** The byte went into port p and gave port q. */
  predicate StoredInto(p: Port, c: byte, q: Port) {
    && q.regs[0] == c && q.regs[5] == p.regs[5] / 2 * 2 + 1 && q.dl == p.dl && q.printed == p.printed
    && Keeps(p.regs, q.regs, {0, 2, 5})
    && (p.regs[1] % 2 == 1 ==> q.regs[2] == 4 && q.line)
    && (p.regs[1] % 2 == 0 ==> q.regs[2] == p.regs[2] && q.line == p.line)
  }

  lemma StoreMeans(p: Port, c: byte)
    ensures StoredInto(p, c, Store(p, c))
  {
    StoreEffect(p, c);
    LowBits(p.regs[1]);
  }

  lemma AcceptedAppend(es: seq<Event>, c: byte)
    ensures AcceptedBytes(es + [Stored(c)]) == AcceptedBytes(es) + [c]
  {
    assert (es + [Stored(c)])[..|es|] == es;
  }

  lemma {:induction false} GuestsStoreNothing(es: seq<Event>, accesses: seq<Access>)
    ensures AcceptedBytes(es + Guests(accesses)) == AcceptedBytes(es)
    decreases |accesses|
  {
    var n := |accesses|;
    if n == 0 {
      assert es + Guests(accesses) == es;
    } else {
      GuestsStoreNothing(es, accesses[..n - 1]);
      var front := es + Guests(accesses[..n - 1]);
      assert es + Guests(accesses) == front + [Guest(accesses[n - 1])];
      assert (front + [Guest(accesses[n - 1])])[..|front|] == front;
    }
  }
}
