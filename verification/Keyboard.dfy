/**
 The Ctrl-A escape of the keyboard thread. Decode and Killed describe what a
 typed byte string means; the thread's loop, with its escaped flag and its
 polls that time out, is proved against them and feeds the serial port.
 */
module Keyboard {
  import opened Words
  import opened Serial

  const CTRL_A: byte := 1
  const CTRL_C: byte := 3

  /** The bytes sent to the guest for a typed string, up to Ctrl-A Ctrl-C. */
  function Decode(s: seq<byte>): seq<byte> {
    if s == [] then []
    else if s[0] != CTRL_A then [s[0]] + Decode(s[1..])
    else if |s| == 1 || s[1] == CTRL_C then []
    else if s[1] == CTRL_A then [CTRL_A] + Decode(s[2..])
    else [CTRL_A, s[1]] + Decode(s[2..])
  }

  /** The string contains the exit sequence. */
  predicate Killed(s: seq<byte>) {
    if s == [] then false
    else if s[0] != CTRL_A then Killed(s[1..])
    else if |s| == 1 then false
    else s[1] == CTRL_C || Killed(s[2..])
  }

  /** Every Ctrl-A typed twice. */
  function Doubled(s: seq<byte>): seq<byte> {
    if s == [] then []
    else (if s[0] == CTRL_A then [CTRL_A, CTRL_A] else [s[0]]) + Doubled(s[1..])
  }

  /** Any byte string can be sent: type every Ctrl-A twice. */
  lemma {:induction false} DoubledDecodes(s: seq<byte>)
    ensures Decode(Doubled(s)) == s && !Killed(Doubled(s))
  {
    if s != [] {
      var d, t := Doubled(s), Doubled(s[1..]);
      DoubledDecodes(s[1..]);
      if s[0] == CTRL_A {
        assert d[2..] == t;
      } else {
        assert d[1..] == t;
      }
      assert s == [s[0]] + s[1..];
    }
  }

  /** A doubled string is decoded on its own, whatever follows. */
  lemma {:induction false} DoubledThen(s: seq<byte>, t: seq<byte>)
    ensures Decode(Doubled(s) + t) == s + Decode(t) && Killed(Doubled(s) + t) == Killed(t)
  {
    hide Decode, Killed;
    if s == [] {
      assert [] + t == t && [] + Decode(t) == Decode(t);
    } else {
      var d := Doubled(s[1..]);
      DoubledThen(s[1..], t);
      DoubledFront(s[0], d + t);
      assert Doubled(s) + t == (if s[0] == CTRL_A then [CTRL_A, CTRL_A] else [s[0]]) + (d + t);
      assert [s[0]] + (s[1..] + Decode(t)) == s + Decode(t);
    }
  }

  /** Up to the exit sequence everything is sent, after it nothing; a last single Ctrl-A is kept back. */
  lemma CutAtExit(s: seq<byte>, rest: seq<byte>)
    ensures Decode(Doubled(s) + ([1, 3] + rest)) == s && Killed(Doubled(s) + ([1, 3] + rest))
    ensures Decode(Doubled(s) + [1]) == s && !Killed(Doubled(s) + [1])
  {
    hide Decode, Killed;
    ExitEnds(rest);
    DoubledThen(s, [1, 3] + rest);
    DoubledThen(s, [1]);
  }

  lemma ExitEnds(rest: seq<byte>)
    ensures Decode([1, 3] + rest) == [] && Killed([1, 3] + rest) && Decode([1]) == [] && !Killed([1])
  {
  }

  lemma DoubledFront(c: byte, t: seq<byte>)
    ensures var s := (if c == CTRL_A then [CTRL_A, CTRL_A] else [c]) + t;
            Decode(s) == [c] + Decode(t) && Killed(s) == Killed(t)
  {
    var s := (if c == CTRL_A then [CTRL_A, CTRL_A] else [c]) + t;
    assert s[if c == CTRL_A then 2 else 1..] == t;
  }

  /** The three things that can follow a Ctrl-A, in bytes. */
  lemma Escapes(c: byte)
    ensures Decode([1, 1]) == [1] && Decode([1, 3]) == [] && Killed([1, 3])
    ensures c != 1 && c != 3 ==> Decode([1, c]) == [1, c] && Decode([c]) == [c]
  {
    assert [1, 1][2..] == [] && [1, c][2..] == [] && [c][1..] == [];
  }

  // Strings sent as they are

  predicate Verbatim(s: seq<byte>) {
    forall i :: 0 <= i < |s| && s[i] == CTRL_A ==> i + 1 < |s| && s[i + 1] != CTRL_A && s[i + 1] != CTRL_C
  }

  lemma VerbatimTail(s: seq<byte>, n: nat)
    requires n <= |s| && Verbatim(s)
    ensures Verbatim(s[n..])
  {
    forall i | 0 <= i < |s[n..]| && s[n..][i] == CTRL_A
      ensures i + 1 < |s[n..]| && s[n..][i + 1] != CTRL_A && s[n..][i + 1] != CTRL_C
    {
      assert s[n + i] == CTRL_A;
    }
  }

  lemma VerbatimCons(s: seq<byte>, n: nat)
    requires 1 <= n <= |s| && Verbatim(s[n..])
    requires n == 1 ==> s[0] != CTRL_A
    requires n == 2 ==> s[0] == CTRL_A && s[1] != CTRL_A && s[1] != CTRL_C
    requires n <= 2
    ensures Verbatim(s)
  {
    forall i | 0 <= i < |s| && s[i] == CTRL_A
      ensures i + 1 < |s| && s[i + 1] != CTRL_A && s[i + 1] != CTRL_C
    {
      if i >= n {
        assert s[n..][i - n] == CTRL_A;
        assert s[n..][i - n + 1] == s[i + 1];
      }
    }
  }

  lemma {:induction false} NeverLonger(s: seq<byte>)
    ensures |Decode(s)| <= |s|
  {
    if s != [] {
      if s[0] != CTRL_A {
        NeverLonger(s[1..]);
      } else if |s| > 1 && s[1] != CTRL_C {
        NeverLonger(s[2..]);
      }
    }
  }

  /**
   The decoder is transparent exactly on the strings in which every Ctrl-A is
   followed by neither Ctrl-A nor Ctrl-C.
   */
  lemma {:induction false} TransparentIff(s: seq<byte>)
    ensures Decode(s) == s <==> Verbatim(s)
  {
    if s != [] {
      if s[0] != CTRL_A {
        TransparentIff(s[1..]);
        assert s == [s[0]] + s[1..];
        if Verbatim(s) {
          VerbatimTail(s, 1);
        } else if Verbatim(s[1..]) {
          VerbatimCons(s, 1);
        }
        assert ([s[0]] + Decode(s[1..]))[1..] == Decode(s[1..]);
      } else if |s| > 1 && s[1] != CTRL_C {
        NeverLonger(s[2..]);
        if s[1] != CTRL_A {
          TransparentIff(s[2..]);
          assert s == [s[0], s[1]] + s[2..];
          if Verbatim(s) {
            VerbatimTail(s, 2);
          } else if Verbatim(s[2..]) {
            VerbatimCons(s, 2);
          }
          assert ([CTRL_A, s[1]] + Decode(s[2..]))[2..] == Decode(s[2..]);
        }
      }
    }
  }

  // The exit sequence

  /** How many Ctrl-A come directly before position i. */
  function OnesBefore(s: seq<byte>, i: nat): nat
    requires i <= |s|
  {
    if i == 0 || s[i - 1] != CTRL_A then 0 else 1 + OnesBefore(s, i - 1)
  }

  ghost predicate ExitAt(s: seq<byte>, i: nat) {
    i < |s| && s[i] == CTRL_C && OnesBefore(s, i) % 2 == 1
  }

  /** Dropping a parsed front of n bytes changes the count by an even number, or not at all. */
  lemma {:induction false} OnesAfterFront(s: seq<byte>, n: nat, i: nat)
    requires n <= i <= |s|
    requires OnesBefore(s, n) % 2 == 0
    ensures OnesBefore(s, i) % 2 == OnesBefore(s[n..], i - n) % 2
    decreases i
  {
    if i > n {
      assert s[n..][i - n - 1] == s[i - 1];
      OnesAfterFront(s, n, i - 1);
    }
  }

  lemma ExitMoves(s: seq<byte>, n: nat)
    requires n <= |s| && OnesBefore(s, n) % 2 == 0
    ensures (exists i :: i >= n && ExitAt(s, i)) <==> exists j :: ExitAt(s[n..], j)
  {
    forall i | n <= i < |s|
      ensures ExitAt(s, i) <==> ExitAt(s[n..], i - n)
    {
      OnesAfterFront(s, n, i);
    }
    if j :| ExitAt(s[n..], j) {
      assert ExitAt(s, n + j);
    }
  }

  /** The thread exits exactly on a Ctrl-C directly after an odd number of Ctrl-A. */
  lemma {:induction false} KilledIff(s: seq<byte>)
    ensures Killed(s) <==> exists i :: ExitAt(s, i)
  {
    if s != [] {
      if s[0] != CTRL_A {
        KilledIff(s[1..]);
        ExitMoves(s, 1);
        assert !ExitAt(s, 0);
      } else if |s| > 1 && s[1] == CTRL_C {
        assert OnesBefore(s, 0) == 0;
        assert ExitAt(s, 1);
      } else if |s| > 1 {
        KilledIff(s[2..]);
        assert OnesBefore(s, 0) == 0 && OnesBefore(s, 1) == 1;
        ExitMoves(s, 2);
        assert !ExitAt(s, 0) && !ExitAt(s, 1);
      }
    }
  }

  // The thread

  /**
   One turn of the loop: the byte, if the poll found one, and what the guest
   does meanwhile: during the poll, while the first byte is written, between
   the two writes and while the second is written.
   */
  datatype Turn =
    | Timeout(polled: seq<Access>)
    | Typed(ch: byte, polled: seq<Access>, first: seq<Wait>, between: seq<Access>, second: seq<Wait>)

  function TypedBytes(turns: seq<Turn>): seq<byte> {
    if turns == [] then []
    else (if turns[0].Typed? then [turns[0].ch] else []) + TypedBytes(turns[1..])
  }

  predicate TurnsOnPort(turns: seq<Turn>) {
    forall i :: 0 <= i < |turns| ==>
      && AccessesOnPort(turns[i].polled)
      && (turns[i].Typed? ==> AllOnPort(turns[i].first) && AllOnPort(turns[i].second))
      && (turns[i].Typed? ==> AccessesOnPort(turns[i].between))
  }

  /** What is still to come when the escaped flag is set or clear. */
  function Rest(escaped: bool, s: seq<byte>): seq<byte> {
    if escaped then [CTRL_A] + s else s
  }

  /** One byte, as the loop treats it. */
  lemma OneByte(escaped: bool, c: byte, s: seq<byte>)
    ensures var t := Rest(escaped, [c] + s);
            && Decode(t) == (if !escaped then (if c == CTRL_A then Decode(Rest(true, s)) else [c] + Decode(s))
                             else if c == CTRL_C then []
                             else if c == CTRL_A then [CTRL_A] + Decode(s)
                             else [CTRL_A, c] + Decode(s))
            && Killed(t) == (if !escaped then (if c == CTRL_A then Killed(Rest(true, s)) else Killed(s))
                             else c == CTRL_C || Killed(s))
  {
    var t := Rest(escaped, [c] + s);
    if escaped {
      assert t[2..] == s;
    } else {
      assert t[1..] == s;
    }
  }

  /** What the loop has sent so far and what it would still send. */
  ghost predicate Accounted(typed: seq<byte>, sent: seq<byte>, escaped: bool, left: seq<byte>) {
    && Decode(typed) == sent + Decode(Rest(escaped, left))
    && Killed(typed) == Killed(Rest(escaped, left))
  }

  lemma Started(typed: seq<byte>)
    ensures Accounted(typed, [], false, typed)
  {
  }

  lemma Finished(typed: seq<byte>, sent: seq<byte>, escaped: bool)
    requires Accounted(typed, sent, escaped, TypedBytes([]))
    ensures Decode(typed) == sent && !Killed(typed)
  {
  }

  /** The four ways on from a typed byte. */
  lemma AccountedStep(typed: seq<byte>, sent: seq<byte>, escaped: bool, c: byte, left: seq<byte>)
    requires Accounted(typed, sent, escaped, [c] + left)
    ensures !escaped && c == CTRL_A ==> Accounted(typed, sent, true, left)
    ensures !escaped && c != CTRL_A ==> Accounted(typed, sent + [c], false, left)
    ensures escaped && c == CTRL_C ==> Decode(typed) == sent && Killed(typed)
    ensures escaped && c == CTRL_A ==> Accounted(typed, sent + [CTRL_A], false, left)
    ensures escaped && c != CTRL_A && c != CTRL_C ==> Accounted(typed, sent + [CTRL_A] + [c], false, left)
  {
    hide Decode, Killed;
    OneByte(escaped, c, left);
    var d := Decode(left);
    assert sent + ([c] + d) == sent + [c] + d;
    assert sent + ([CTRL_A] + d) == sent + [CTRL_A] + d;
    assert sent + ([CTRL_A, c] + d) == sent + [CTRL_A] + [c] + d;
  }

  lemma NextTurn(turns: seq<Turn>, i: nat)
    requires i < |turns|
    ensures turns[i].Typed? ==> TypedBytes(turns[i..]) == [turns[i].ch] + TypedBytes(turns[i + 1..])
    ensures turns[i].Timeout? ==> TypedBytes(turns[i..]) == TypedBytes(turns[i + 1..])
  {
    assert turns[i..][1..] == turns[i + 1..];
  }

  // What reaches the port

  /** a is what is left of b when some of its elements are dropped. */
  predicate IsSubsequence(a: seq<byte>, b: seq<byte>) {
    || a == []
    || (b != [] && a[|a| - 1] == b[|b| - 1] && IsSubsequence(a[..|a| - 1], b[..|b| - 1]))
    || (b != [] && IsSubsequence(a, b[..|b| - 1]))
  }

  lemma OneMore(a: seq<byte>, b: seq<byte>, c: byte)
    requires IsSubsequence(a, b)
    ensures IsSubsequence(a, b + [c]) && IsSubsequence(a + [c], b + [c])
  {
    assert (b + [c])[..|b|] == b && (a + [c])[..|a|] == a;
  }

  /** With nothing dropped they are equal. */
  lemma {:induction false} NothingDropped(a: seq<byte>, b: seq<byte>)
    requires IsSubsequence(a, b)
    ensures |a| <= |b| && (|a| == |b| ==> a == b)
    decreases |b|
  {
    if a != [] {
      var n := |b| - 1;
      if a[|a| - 1] == b[n] && IsSubsequence(a[..|a| - 1], b[..n]) {
        NothingDropped(a[..|a| - 1], b[..n]);
        assert a == a[..|a| - 1] + [a[|a| - 1]] && b == b[..n] + [b[n]];
      } else {
        NothingDropped(a, b[..n]);
      }
    }
  }

  /** One write, after what the guest did before it. */
  function AfterSend(es: seq<Event>, before: seq<Access>, c: byte, waits: seq<Wait>): seq<Event>
    requires TraceOk(es) && AccessesOnPort(before) && AllOnPort(waits)
  {
    GuestsGrow(es, before);
    AfterWrite(es + Guests(before), c, waits)
  }

  method Send(serial: SerialPort, before: seq<Access>, c: byte, waits: seq<Wait>) returns (lost: nat)
    requires serial.Valid() && AccessesOnPort(before) && AllOnPort(waits)
    modifies serial, serial.regs, serial.dl
    ensures serial.Valid() && lost <= 1
    ensures serial.trace == AfterSend(old(serial.trace), before, c, waits)
    ensures AcceptedBytes(serial.trace) == AcceptedBytes(old(serial.trace)) + if lost == 0 then [c] else []
  {
    hide AfterWrite, AcceptedBytes, Replay, TraceOk;
    GuestsGrow(serial.trace, before);
    GuestsStoreNothing(serial.trace, before);
    serial.DuringWait(before);
    var out := serial.WriteToSerial(c, waits);
    lost := if out == Accepted then 0 else 1;
  }

  /** The trace after one turn of the loop. */
  function AfterTurn(es: seq<Event>, escaped: bool, turn: Turn): seq<Event>
    requires TraceOk(es) && TurnsOnPort([turn])
  {
    assert [turn][0] == turn;
    if turn.Timeout? || (!escaped && turn.ch == CTRL_A) || (escaped && turn.ch == CTRL_C) then es + Guests(turn.polled)
    else if !escaped then AfterSend(es, turn.polled, turn.ch, turn.first)
    else
      var es1 := AfterSend(es, turn.polled, CTRL_A, turn.first);
      if turn.ch == CTRL_A then es1 else SendOk(es, turn.polled, CTRL_A, turn.first); AfterSend(es1, turn.between,
                                                                                                turn.ch, turn.second)
  }

  lemma SendOk(es: seq<Event>, before: seq<Access>, c: byte, waits: seq<Wait>)
    requires TraceOk(es) && AccessesOnPort(before) && AllOnPort(waits)
    ensures TraceOk(AfterSend(es, before, c, waits))
  {
    hide TraceOk, AfterWrite;
    GuestsGrow(es, before);
    var used := WriteMeans(es + Guests(before), c, waits);
  }

  lemma TurnOk(es: seq<Event>, escaped: bool, turn: Turn)
    requires TraceOk(es) && TurnsOnPort([turn])
    ensures TraceOk(AfterTurn(es, escaped, turn))
  {
    hide TraceOk, AfterWrite, AfterSend;
    assert [turn][0] == turn;
    GuestsGrow(es, turn.polled);
    if turn.Typed? {
      SendOk(es, turn.polled, turn.ch, turn.first);
      SendOk(es, turn.polled, CTRL_A, turn.first);
      if escaped && turn.ch != CTRL_A && turn.ch != CTRL_C {
        SendOk(AfterSend(es, turn.polled, CTRL_A, turn.first), turn.between, turn.ch, turn.second);
      }
    }
  }

  predicate EscapedAfter(escaped: bool, turn: Turn) {
    if turn.Timeout? then escaped else !escaped && turn.ch == CTRL_A
  }

  /** The trace after the loop; nothing happens after the exit sequence. */
  function AfterTurns(es: seq<Event>, escaped: bool, turns: seq<Turn>): seq<Event>
    requires TraceOk(es) && TurnsOnPort(turns)
    decreases |turns|
  {
    if turns == [] then es
    else
      var turn := turns[0];
      TurnOk(es, escaped, turn);
      if turn.Typed? && escaped && turn.ch == CTRL_C then AfterTurn(es, escaped, turn)
      else AfterTurns(AfterTurn(es, escaped, turn), EscapedAfter(escaped, turn), turns[1..])
  }

  /** What the mailbox got of some writes: the bytes sent, those of them accepted, and how many were lost. */
  ghost predicate Got(es: seq<Event>, es': seq<Event>, sent: seq<byte>, got: seq<byte>, lost: nat) {
    && AcceptedBytes(es') == AcceptedBytes(es) + got
    && IsSubsequence(got, sent) && |got| + lost == |sent|
  }

  lemma GotNothing(es: seq<Event>, accesses: seq<Access>)
    ensures Got(es, es + Guests(accesses), [], [], 0)
  {
    GuestsStoreNothing(es, accesses);
  }

  lemma GotOne(es: seq<Event>, es': seq<Event>, c: byte, lost: nat)
    requires lost <= 1 && AcceptedBytes(es') == AcceptedBytes(es) + if lost == 0 then [c] else []
    ensures Got(es, es', [c], if lost == 0 then [c] else [], lost)
  {
    OneMore([], [], c);
    assert [] + [c] == [c];
  }

  lemma GotMore(es: seq<Event>, es1: seq<Event>, es2: seq<Event>, sent: seq<byte>, got: seq<byte>, lost: nat,
                sent': seq<byte>, got': seq<byte>, lost': nat)
    requires Got(es, es1, sent, got, lost) && Got(es1, es2, sent', got', lost')
    ensures Got(es, es2, sent + sent', got + got', lost + lost')
  {
    hide AcceptedBytes, IsSubsequence;
    SubsequenceAppend(got, sent, got', sent');
  }

  /** What a turn sends. */
  function Sends(escaped: bool, turn: Turn): seq<byte> {
    if turn.Timeout? || (!escaped && turn.ch == CTRL_A) then []
    else if !escaped then [turn.ch]
    else if turn.ch == CTRL_A then [CTRL_A]
    else [CTRL_A] + [turn.ch]
  }

  /** One turn of the loop that is not the exit sequence. */
  method TakeTurn(serial: SerialPort, escaped: bool, turn: Turn) returns (ghost got: seq<byte>, lost: nat)
    requires serial.Valid() && TurnsOnPort([turn]) && !(turn.Typed? && escaped && turn.ch == CTRL_C)
    modifies serial, serial.regs, serial.dl
    ensures serial.Valid() && serial.trace == AfterTurn(old(serial.trace), escaped, turn)
    ensures Got(old(serial.trace), serial.trace, Sends(escaped, turn), got, lost)
  {
    hide TraceOk, AfterSend, AcceptedBytes, Got, Replay, Guests;
    assert [turn][0] == turn;
    ghost var es := serial.trace;
    if turn.Timeout? || (!escaped && turn.ch == CTRL_A) {
      GotNothing(es, turn.polled);
      serial.DuringWait(turn.polled);
      return [], 0;
    }
    var c := if escaped then CTRL_A else turn.ch;
    lost := Send(serial, turn.polled, c, turn.first);
    GotOne(es, serial.trace, c, lost);
    got := if lost == 0 then [c] else [];
    if escaped && turn.ch != CTRL_A {
      ghost var es1 := serial.trace;
      var missed := Send(serial, turn.between, turn.ch, turn.second);
      GotOne(es1, serial.trace, turn.ch, missed);
      ghost var second := if missed == 0 then [turn.ch] else [];
      GotMore(es, es1, serial.trace, [c], got, lost, [turn.ch], second, missed);
      got, lost := got + second, lost + missed;
    }
  }

  lemma {:induction false} SubsequenceAppend(a: seq<byte>, b: seq<byte>, x: seq<byte>, y: seq<byte>)
    requires IsSubsequence(a, b) && IsSubsequence(x, y)
    ensures IsSubsequence(a + x, b + y)
    decreases |y|
  {
    if y == [] {
      assert a + x == a && b + y == b;
    } else {
      var n := |y| - 1;
      assert (b + y)[..|b + y| - 1] == b + y[..n];
      if x != [] && x[|x| - 1] == y[n] && IsSubsequence(x[..|x| - 1], y[..n]) {
        SubsequenceAppend(a, b, x[..|x| - 1], y[..n]);
        assert (a + x)[..|a + x| - 1] == a + x[..|x| - 1];
      } else {
        SubsequenceAppend(a, b, x, y[..n]);
      }
    }
  }

  /**
   keyboard_thread_func, until the machine quits. It sends the decoded string
   and nothing else, and does nothing else to the port; the mailbox accepts a
   subsequence of what was sent, all of it unless a write timed out or was still
   waiting.
   */
  method KeyboardThread(serial: SerialPort, turns: seq<Turn>)
    returns (ghost sent: seq<byte>, ghost got: seq<byte>, killed: bool, lost: nat)
    requires serial.Valid() && TurnsOnPort(turns)
    modifies serial, serial.regs, serial.dl
    ensures serial.Valid() && serial.trace == AfterTurns(old(serial.trace), false, turns)
    ensures sent == Decode(TypedBytes(turns)) && killed == Killed(TypedBytes(turns))
    ensures Got(old(serial.trace), serial.trace, sent, got, lost)
    ensures lost == 0 ==> got == sent
  {
    hide Decode, Killed, Accounted, TypedBytes, AllOnPort, AccessesOnPort, TraceOk, AfterTurn, AcceptedBytes, Replay;
    hide Got, Sends;
    Started(TypedBytes(turns));
    assert turns[0..] == turns;
    var escaped, i := false, 0;
    sent, got, killed, lost := [], [], false, 0;
    ghost var typed, es := TypedBytes(turns), serial.trace;
    GotNothing(es, []);
    assert Guests([]) == [] && es + [] == es;
    while i < |turns|
      invariant 0 <= i <= |turns|
      invariant serial.Valid() && !killed
      invariant AfterTurns(es, false, turns) == AfterTurns(serial.trace, escaped, turns[i..])
      invariant Accounted(typed, sent, escaped, TypedBytes(turns[i..]))
      invariant Got(es, serial.trace, sent, got, lost)
    {
      var turn := turns[i];
      assert turns[i..][0] == turn && turns[i..][1..] == turns[i + 1..] && [turn][0] == turn;
      NextTurn(turns, i);
      i := i + 1;
      if turn.Typed? {
        AccountedStep(typed, sent, escaped, turn.ch, TypedBytes(turns[i..]));
        if escaped && turn.ch == CTRL_C {
          killed := true;
          ExitTurn(es, serial.trace, sent, got, lost, turn);
          serial.DuringWait(turn.polled);
          AllOrLess(es, serial.trace, sent, got, lost);
          return;
        }
      }
      ghost var es1, accepted := serial.trace, [];
      var missed;
      accepted, missed := TakeTurn(serial, escaped, turn);
      GotMore(es, es1, serial.trace, sent, got, lost, Sends(escaped, turn), accepted, missed);
      Joined(sent, escaped, turn);
      sent, got, lost := sent + Sends(escaped, turn), got + accepted, lost + missed;
      escaped := if turn.Timeout? then escaped else !escaped && turn.ch == CTRL_A;
    }
    assert turns[i..] == [];
    Finished(typed, sent, escaped);
    AllOrLess(es, serial.trace, sent, got, lost);
  }

  /** The turn that exits sends nothing. */
  lemma ExitTurn(es: seq<Event>, es': seq<Event>, sent: seq<byte>, got: seq<byte>, lost: nat, turn: Turn)
    requires Got(es, es', sent, got, lost) && TraceOk(es') && TurnsOnPort([turn]) && turn.Typed? && turn.ch == CTRL_C
    ensures Got(es, es' + Guests(turn.polled), sent, got, lost)
    ensures AfterTurn(es', true, turn) == es' + Guests(turn.polled)
  {
    hide TraceOk, AfterSend;
    GuestsStoreNothing(es', turn.polled);
  }

  lemma AllOrLess(es: seq<Event>, es': seq<Event>, sent: seq<byte>, got: seq<byte>, lost: nat)
    requires Got(es, es', sent, got, lost)
    ensures lost == 0 ==> got == sent
  {
    NothingDropped(got, sent);
  }

  lemma Joined(sent: seq<byte>, escaped: bool, turn: Turn)
    ensures Sends(escaped, turn) == [] ==> sent + Sends(escaped, turn) == sent
    ensures turn.Timeout? ==> Sends(escaped, turn) == []
    ensures turn.Typed? && !escaped ==> Sends(escaped, turn) == if turn.ch == CTRL_A then [] else [turn.ch]
    ensures turn.Typed? && escaped && turn.ch == CTRL_A ==> Sends(escaped, turn) == [CTRL_A]
    ensures turn.Typed? && escaped && turn.ch != CTRL_A ==> sent + Sends(escaped, turn) == sent + [CTRL_A] + [turn.ch]
  {
  }

  /**
   From the keyboard to the guest: a string typed with every Ctrl-A doubled, none of
   it lost to a timeout, is what the guest has read and the byte it has still to read.
   */
  method TypeToGuest(serial: SerialPort, turns: seq<Turn>, ghost s: seq<byte>) returns (killed: bool, lost: nat)
    requires serial.Valid() && AcceptedBytes(serial.trace) == [] && TurnsOnPort(turns)
        && TypedBytes(turns) == Doubled(s)
    modifies serial, serial.regs, serial.dl
    ensures serial.Valid() && !killed
    ensures lost == 0 && !Spoiled(serial.trace) ==> ReadBytes(serial.trace) + Mailbox(serial.regs[..]) == s
  {
    hide Replay, TraceOk, AfterTurns, Spoiled, ReadBytes;
    ghost var sent, got;
    sent, got, killed, lost := KeyboardThread(serial, turns);
    DoubledDecodes(s);
    if !Spoiled(serial.trace) {
      StreamOfTrace(serial.trace);
    }
  }
}
