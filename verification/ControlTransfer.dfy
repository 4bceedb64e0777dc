/** Control transfers on endpoint 0: setup, data stage in either direction, and status. */
module ControlTransfer {
  import opened Words
  import opened Packets

  const SETUP_SIZE := 8

  datatype Direction = HostToDevice | DeviceToHost

  datatype Setup = Setup(
    direction: Direction, kind: byte, recipient: byte,
    request: byte, value: uint16, index: uint16, length: uint16)

  function DecodeSetup(data: seq<byte>): Setup
    requires |data| == SETUP_SIZE
  {
    Setup(if data[0] / 0x80 % 2 == 1 then DeviceToHost else HostToDevice,
          data[0] / 0x20 % 4, data[0] % 0x20,
          data[1], Le16(data[2..4]), Le16(data[4..6]), Le16(data[6..8]))
  }

  /** The bytes a host sends for a setup (section 9.3 of USB 2.0). */
  function EncodeSetup(s: Setup): (data: seq<byte>)
    requires s.kind < 4 && s.recipient < 0x20
    ensures |data| == SETUP_SIZE
  {
    [(if s.direction.DeviceToHost? then 0x80 else 0) + 0x20 * (s.kind as int) + s.recipient, s.request]
    + ToLe16(s.value) + ToLe16(s.index) + ToLe16(s.length)
  }

  lemma DecodeEncoded(s: Setup)
    requires s.kind < 4 && s.recipient < 0x20
    ensures DecodeSetup(EncodeSetup(s)) == s
  {
    var d := EncodeSetup(s);
    assert d[2..4] == ToLe16(s.value) && d[4..6] == ToLe16(s.index) && d[6..8] == ToLe16(s.length);
  }

  /** Which byte is which: a class request to an interface, from the device. */
  lemma SetupBytes()
    ensures EncodeSetup(Setup(DeviceToHost, 1, 1, 2, 0x0304, 0x0506, 0x0708))
         == [0xA1, 2, 0x04, 0x03, 0x06, 0x05, 0x08, 0x07]
  {
  }

  /**
   What a request handler makes of a setup: it refuses it, or names the data to send or the
   amount to receive, and whether it wants to be told of the end.
   */
  datatype Answer =
    | Refused
    | Answered(data: seq<byte>, remaining: uint32, direction: Direction, notify: bool)
  {
    predicate Valid() { Answered? && direction == DeviceToHost ==> remaining <= |data| }
  }

  datatype Event = Wrote(packet: seq<byte>) | AwaitsRead | Completed | Stalled

  datatype Transfer = Transfer(
    setup: Setup, data: seq<byte>, ptr: nat, remaining: uint32,
    direction: Direction, zlp: bool, notify: bool, log: seq<Event>)
  {
    predicate Valid() { direction == DeviceToHost ==> ptr + remaining <= |data| }
  }

  function Log(t: Transfer, e: Event): Transfer {
    t.(log := t.log + [e])
  }

  /** Tells the class layer, once. */
  function Notify(t: Transfer): Transfer {
    if t.notify then Log(t, Completed).(notify := false) else t
  }

  function ControlIn(t: Transfer): (r: (Transfer, bool))
    requires t.Valid()
    ensures r.0.Valid()
  {
    if t.remaining == 0 then
      var t1 := if t.zlp then Log(t, Wrote([])).(zlp := false) else t;
      (Log(Notify(t1), AwaitsRead), true)
    else if t.direction != DeviceToHost then (t, false)
    else
      var n := if t.remaining > MAX_PACKET then MAX_PACKET else t.remaining;
      (Log(t, Wrote(t.data[t.ptr..t.ptr + n])).(ptr := t.ptr + n, remaining := t.remaining - n), true)
  }

  function ControlOut(t: Transfer, packet: seq<byte>): (r: (Transfer, bool))
    requires t.Valid()
    ensures r.0.Valid()
  {
    if t.direction != HostToDevice then (t, false)
    else if |packet| > t.remaining then (t, false)
    else
      var t1 := t.(ptr := t.ptr + |packet|, remaining := t.remaining - |packet|);
      (if t1.remaining == 0 then Log(Notify(t1), Wrote([])) else Log(t1, AwaitsRead), true)
  }

  /** The transfer as a setup and its handler leave it, before any data moves. */
  function Prepared(t: Transfer, packet: seq<byte>, answer: Answer): Transfer
    requires |packet| == SETUP_SIZE
  {
    var t1 := t.(setup := DecodeSetup(packet), data := [], ptr := 0, remaining := 0,
                 direction := HostToDevice, zlp := false, notify := false);
    match answer
    case Refused => t1
    case Answered(data, remaining, direction, notify) =>
      t1.(data := data, remaining := remaining, direction := direction, notify := notify)
  }

  /** Whether what the handler offers is what the host asked for. */
  predicate Agreed(t: Transfer) {
    if t.setup.length == 0 then t.remaining == 0
    else t.direction == t.setup.direction
         && (t.direction == HostToDevice ==> t.remaining == t.setup.length)
  }

  /** An IN data stage: cut to what the host asked for, with a zero-length packet if needed. */
  function Limited(t: Transfer): Transfer {
    var n := if t.remaining > t.setup.length then t.setup.length else t.remaining;
    t.(remaining := n, zlp := t.setup.length > n && n % MAX_PACKET == 0)
  }

  function ControlSetup(t: Transfer, packet: seq<byte>, answer: Answer): (r: (Transfer, bool))
    requires |packet| == SETUP_SIZE && answer.Valid()
    ensures r.0.Valid()
  {
    var t1 := Prepared(t, packet, answer);
    if answer.Refused? || !Agreed(t1) then (t1, false)
    else if t1.setup.length == 0 then (Log(t1, Wrote([])), true)
    else if t1.setup.direction == DeviceToHost then (ControlIn(Limited(t1)).0, true)
    else (Log(t1, AwaitsRead), true)
  }

  function StallUnless(r: (Transfer, bool)): Transfer {
    if r.1 then r.0 else Log(r.0, Stalled)
  }

  datatype Interrupt = In | Out(packet: seq<byte>)

  function Step(t: Transfer, i: Interrupt): (r: Transfer)
    requires t.Valid()
    ensures r.Valid()
  {
    match i
    case In => StallUnless(ControlIn(t))
    case Out(packet) => StallUnless(ControlOut(t, packet))
  }

  function Run(t: Transfer, events: seq<Interrupt>): (r: Transfer)
    requires t.Valid()
    ensures r.Valid()
    decreases |events|
  {
    if events == [] then t else Run(Step(t, events[0]), events[1..])
  }

  // IN data stage

  function Min(m: nat, n: nat): nat {
    if m < n then m else n
  }

  /** The packets handed to the endpoint. */
  function Writes(log: seq<Event>): seq<seq<byte>> {
    if log == [] then []
    else
      var e := log[|log| - 1];
      Writes(log[..|log| - 1]) + if e.Wrote? then [e.packet] else []
  }

  lemma WritesLast(log: seq<Event>, e: Event)
    ensures Writes(log + [e]) == Writes(log) + if e.Wrote? then [e.packet] else []
  {
    assert (log + [e])[..|log|] == log;
  }

  /** The packets that have still to be sent. */
  function Pending(t: Transfer): seq<seq<byte>>
    requires t.Valid() && t.direction == DeviceToHost
  {
    Chunks(t.data[t.ptr..t.ptr + t.remaining]) + if t.zlp then [[]] else []
  }

  /**
   The packets of an IN transfer: the answer as far as the host wants it, cut into full
   packets, and a zero-length packet if nothing else would tell the host that it ends here.
   */
  function Expected(data: seq<byte>, length: uint16): seq<seq<byte>> {
    if |data| >= length then Chunks(data[..length])
    else if |data| % MAX_PACKET == 0 then Chunks(data) + [[]]
    else Chunks(data)
  }

  lemma LastInSends(t: Transfer)
    requires t.Valid() && t.remaining == 0
    ensures var r := ControlIn(t).0;
            Writes(r.log) == Writes(t.log) + (if t.zlp then [[]] else []) && !r.zlp
            && r == t.(zlp := false, notify := false, log := r.log)
  {
    hide Writes;
    var t1 := if t.zlp then Log(t, Wrote([])).(zlp := false) else t;
    WritesLast(t.log, Wrote([]));
    WritesLast(t1.log, Completed);
    WritesLast(Notify(t1).log, AwaitsRead);
  }

  lemma PendingFirst(data: seq<byte>, ptr: nat, remaining: nat, n: nat)
    requires 0 < remaining && ptr + remaining <= |data| && n == Min(remaining, MAX_PACKET)
    ensures Chunks(data[ptr..ptr + remaining])
         == [data[ptr..ptr + n]] + Chunks(data[ptr + n..ptr + remaining])
  {
    var s := data[ptr..ptr + remaining];
    assert s[..n] == data[ptr..ptr + n] && s[n..] == data[ptr + n..ptr + remaining];
    assert s[..|s|] == s;
  }

  /** One IN token moves the first pending packet to the endpoint. */
  lemma InSendsNext(t: Transfer)
    requires t.Valid() && t.direction == DeviceToHost
    ensures var (r, ok), p := ControlIn(t), Pending(t);
            && ok && r.direction == DeviceToHost
            && Writes(r.log) == Writes(t.log) + p[..Min(1, |p|)] && Pending(r) == p[Min(1, |p|)..]
  {
    hide Writes, Notify;
    if t.remaining == 0 {
      assert t.data[t.ptr..t.ptr] == [];
      LastInSends(t);
    } else {
      hide Chunks;
      var n := Min(t.remaining, MAX_PACKET);
      WritesLast(t.log, Wrote(t.data[t.ptr..t.ptr + n]));
      PendingFirst(t.data, t.ptr, t.remaining, n);
    }
  }

  function Ins(n: nat): seq<Interrupt> {
    seq(n, i => In)
  }

  lemma {:induction false} InsSend(t: Transfer, n: nat)
    requires t.Valid() && t.direction == DeviceToHost
    ensures var r, p := Run(t, Ins(n)), Pending(t);
            && r.direction == DeviceToHost
            && Writes(r.log) == Writes(t.log) + p[..Min(n, |p|)] && Pending(r) == p[Min(n, |p|)..]
    decreases n
  {
    hide Writes, Pending, ControlIn;
    if n > 0 {
      InSendsNext(t);
      assert Ins(n)[1..] == Ins(n - 1);
      InsSend(Step(t, In), n - 1);
    }
  }

  /**
   An IN transfer with any number of IN tokens has sent exactly the first packets of the
   expected sequence (sections 5.5.3 and 8.5.3.2 of USB 2.0).
   */
  lemma InTransferSendsExpected(t: Transfer, packet: seq<byte>, answer: Answer, n: nat)
    requires |packet| == SETUP_SIZE && answer.Valid()
    requires DecodeSetup(packet).direction == DeviceToHost && DecodeSetup(packet).length > 0
    requires answer.Answered? && answer.direction == DeviceToHost
    ensures var (r, ok) := ControlSetup(t, packet, answer);
            var all := Expected(answer.data[..answer.remaining], DecodeSetup(packet).length);
            ok && Writes(Run(r, Ins(n)).log) == Writes(t.log) + all[..Min(n + 1, |all|)]
  {
    hide Writes, Pending, ControlIn, Expected, Run, DecodeSetup;
    var t1 := PreparedIn(t, packet, answer);
    InSendsNext(t1);
    InsSend(ControlSetup(t, packet, answer).0, n);
  }

  lemma PreparedIn(t: Transfer, packet: seq<byte>, answer: Answer) returns (r: Transfer)
    requires |packet| == SETUP_SIZE && answer.Valid()
    requires DecodeSetup(packet).direction == DeviceToHost && DecodeSetup(packet).length > 0
    requires answer.Answered? && answer.direction == DeviceToHost
    ensures r.Valid() && r.direction == DeviceToHost && r.log == t.log
    ensures ControlSetup(t, packet, answer) == (ControlIn(r).0, true)
    ensures Pending(r) == Expected(answer.data[..answer.remaining], DecodeSetup(packet).length)
  {
    hide DecodeSetup, Chunks, ControlIn;
    r := Limited(Prepared(t, packet, answer));
    var d, w := answer.data[..answer.remaining], DecodeSetup(packet).length;
    assert r.data[0..r.remaining] == if |d| >= w then d[..w] else d;
  }

  /** What is sent adds up to the answer, cut to the length the host asked for. */
  lemma ExpectedIsAnswer(data: seq<byte>, length: uint16)
    ensures Concat(Expected(data, length)) == data[..Min(|data|, length)]
    ensures forall i :: 0 <= i < |Expected(data, length)| - 1 ==> |Expected(data, length)[i]| == MAX_PACKET
    ensures forall i :: 0 <= i < |Expected(data, length)| ==> |Expected(data, length)[i]| <= MAX_PACKET
    ensures length > 0 ==>
      ((|data| < length && |data| % MAX_PACKET == 0)
       <==> (Expected(data, length) != [] && Expected(data, length)[|Expected(data, length)| - 1] == []))
  {
    var s := data[..Min(|data|, length)];
    ConcatChunks(s);
    ChunkSizes(s);
    assert data[..|data|] == data;
    if |data| < length && |data| % MAX_PACKET == 0 {
      ConcatAppend(Chunks(data), [[]]);
      FullChunks(data);
    }
  }

  lemma {:induction false} FullChunks(s: seq<byte>)
    requires |s| % MAX_PACKET == 0
    ensures forall i :: 0 <= i < |Chunks(s)| ==> |Chunks(s)[i]| == MAX_PACKET
  {
    if s != [] {
      FullChunks(s[MAX_PACKET..]);
    }
  }

  // OUT data stage, and completion

  /** A setup is accepted exactly when the handler offers what the host asked for. */
  lemma AcceptedIffAgreed(t: Transfer, packet: seq<byte>, answer: Answer)
    requires |packet| == SETUP_SIZE && answer.Valid()
    ensures var s := DecodeSetup(packet);
            ControlSetup(t, packet, answer).1 <==>
              && answer.Answered?
              && if s.length == 0 then answer.remaining == 0
                 else answer.direction == s.direction
                      && (s.direction == HostToDevice ==> answer.remaining == s.length)
  {
    hide DecodeSetup, ControlIn, Limited;
  }

  /** The bytes of the OUT packets that were accepted. */
  function Received(t: Transfer, events: seq<Interrupt>): nat
    requires t.Valid()
    decreases |events|
  {
    if events == [] then 0
    else
      (match events[0]
       case In => 0
       case Out(packet) => if ControlOut(t, packet).1 then |packet| else 0)
      + Received(Step(t, events[0]), events[1..])
  }

  /** A packet that is too big, or comes in the wrong direction, is refused with a protocol stall. */
  lemma OutRefused(t: Transfer, packet: seq<byte>)
    requires t.Valid()
    ensures (t.direction == DeviceToHost || |packet| > t.remaining)
         <==> Step(t, Out(packet)) == t.(log := t.log + [Stalled])
  {
    var r := ControlOut(t, packet).0;
    assert (t.log + [Stalled])[|t.log|] == Stalled;
    if ControlOut(t, packet).1 && t.notify && r.remaining == 0 {
      assert r.log[|t.log|] == Completed;
    } else if ControlOut(t, packet).1 {
      assert r.log[|t.log|] != Stalled;
    }
  }

  /** A token in the middle of an OUT data stage is refused the same way. */
  lemma InRefused(t: Transfer)
    requires t.Valid()
    ensures (t.direction == HostToDevice && t.remaining > 0)
         <==> Step(t, In) == t.(log := t.log + [Stalled])
  {
    var r := ControlIn(t).0;
    assert (t.log + [Stalled])[|t.log|] == Stalled;
    if ControlIn(t).1 {
      assert r.log[|t.log|] != Stalled;
    }
  }

  function Completions(log: seq<Event>): nat {
    if log == [] then 0
    else Completions(log[..|log| - 1]) + if log[|log| - 1].Completed? then 1 else 0
  }

  lemma CompletionsLast(log: seq<Event>, e: Event)
    ensures Completions(log + [e]) == Completions(log) + if e.Completed? then 1 else 0
  {
    assert (log + [e])[..|log|] == log;
  }

  /** Notifications sent and notifications still owed. */
  function Notices(t: Transfer): nat {
    Completions(t.log) + if t.notify then 1 else 0
  }

  lemma LogKeepsNotices(t: Transfer, e: Event)
    requires !e.Completed?
    ensures Notices(Log(t, e)) == Notices(t)
  {
    CompletionsLast(t.log, e);
  }

  lemma NotifyKeepsNotices(t: Transfer)
    ensures Notices(Notify(t)) == Notices(t) && !Notify(t).notify
  {
    CompletionsLast(t.log, Completed);
  }

  lemma StepKeepsNotices(t: Transfer, i: Interrupt)
    requires t.Valid()
    ensures Notices(Step(t, i)) == Notices(t)
    ensures Step(t, i).remaining <= t.remaining
    ensures Step(t, i).remaining > 0 ==> Step(t, i).notify == t.notify
    ensures Step(t, i).notify ==> t.notify
  {
    hide Completions, Notices;
    LogKeepsNotices(t, Stalled);
    LogKeepsNotices(t, Wrote([]));
    var t1 := if t.zlp then Log(t, Wrote([])).(zlp := false) else t;
    SameNotices(if t.zlp then Log(t, Wrote([])) else t, t1);
    NotifyKeepsNotices(t1);
    LogKeepsNotices(Notify(t1), AwaitsRead);
    if i == In && t.remaining > 0 {
      var n := if t.remaining > MAX_PACKET then MAX_PACKET else t.remaining;
      if t.direction == DeviceToHost {
        var t2 := Log(t, Wrote(t.data[t.ptr..t.ptr + n]));
        LogKeepsNotices(t, Wrote(t.data[t.ptr..t.ptr + n]));
        SameNotices(t2, t2.(ptr := t.ptr + n, remaining := t.remaining - n));
      }
    } else if i.Out? && |i.packet| <= t.remaining {
      var t2 := t.(ptr := t.ptr + |i.packet|, remaining := t.remaining - |i.packet|);
      SameNotices(t, t2);
      NotifyKeepsNotices(t2);
      LogKeepsNotices(Notify(t2), Wrote([]));
      LogKeepsNotices(t2, AwaitsRead);
    }
  }

  lemma SameNotices(t: Transfer, r: Transfer)
    requires t.log == r.log && t.notify == r.notify
    ensures Notices(t) == Notices(r)
  {
  }

  /** Over any interrupts, notifications are neither lost nor repeated. */
  lemma {:induction false} RunKeepsNotices(t: Transfer, events: seq<Interrupt>)
    requires t.Valid()
    ensures Notices(Run(t, events)) == Notices(t)
    ensures Run(t, events).remaining <= t.remaining
    ensures Run(t, events).remaining > 0 ==> Run(t, events).notify == t.notify
    ensures Run(t, events).notify ==> t.notify
    decreases |events|
  {
    hide Step, Notices;
    if events != [] {
      StepKeepsNotices(t, events[0]);
      RunKeepsNotices(Step(t, events[0]), events[1..]);
    }
  }

  /** Between two setups the class layer is told of the end at most once, and only of the end. */
  lemma CompletesAtMostOnce(t: Transfer, packet: seq<byte>, answer: Answer, events: seq<Interrupt>)
    requires |packet| == SETUP_SIZE && answer.Valid()
    ensures var r := Run(ControlSetup(t, packet, answer).0, events);
            && Completions(t.log) <= Completions(r.log) <= Completions(t.log) + 1
            && (Completions(r.log) > Completions(t.log) ==> r.remaining == 0 && !r.notify)
  {
    hide Run, Completions, DecodeSetup;
    var t1 := Prepared(t, packet, answer);
    var t2 := Limited(t1);
    var r := ControlSetup(t, packet, answer).0;
    LogKeepsNotices(t1, Wrote([]));
    LogKeepsNotices(t1, AwaitsRead);
    StepKeepsNotices(t1, In);
    StepKeepsNotices(t2, In);
    RunKeepsNotices(r, events);
  }

  /** One interrupt of an OUT data stage. */
  lemma OutStep(t: Transfer, i: Interrupt)
    requires t.Valid() && t.direction == HostToDevice && !t.zlp
    ensures var r := Step(t, i);
            && r.direction == HostToDevice && !r.zlp && r.setup == t.setup
            && Received(t, [i]) + r.remaining == t.remaining
            && (t.remaining > 0 ==> Writes(r.log) == Writes(t.log) + if r.remaining == 0 then [[]] else [])
            && Writes(t.log) <= Writes(r.log)
            && (t.remaining > 0 == r.remaining ==> !r.notify)
  {
    hide Writes;
    var t1 := if i.Out? && |i.packet| <= t.remaining
              then t.(ptr := t.ptr + |i.packet|, remaining := t.remaining - |i.packet|) else t;
    WritesLast(t.log, Stalled);
    WritesLast(t.log, AwaitsRead);
    WritesLast(t.log, Completed);
    WritesLast(Notify(t1).log, AwaitsRead);
    WritesLast(Notify(t1).log, Wrote([]));
  }

  lemma {:induction false} OutRun(t: Transfer, events: seq<Interrupt>)
    requires t.Valid() && t.direction == HostToDevice && !t.zlp
    ensures var r := Run(t, events);
            && Received(t, events) + r.remaining == t.remaining
            && Writes(t.log) <= Writes(r.log)
            && (t.remaining > 0 ==> (Writes(r.log) != Writes(t.log) <==> r.remaining == 0))
            && (t.remaining > 0 == r.remaining ==> !r.notify)
    decreases |events|
  {
    hide Step, Writes, ControlOut;
    if events != [] {
      OutStep(t, events[0]);
      StepKeepsNotices(t, events[0]);
      RunKeepsNotices(Step(t, events[0]), events[1..]);
      OutRun(Step(t, events[0]), events[1..]);
    }
  }

  /**
   An OUT transfer, over any sequence of interrupts: the accepted packets and what remains add
   up to the length of the setup; the status packet is sent exactly from the moment all of it
   has been received; and the class layer has been told then, once, if it asked for it.
   */
  lemma OutTransferAccounts(t: Transfer, packet: seq<byte>, answer: Answer, events: seq<Interrupt>)
    requires |packet| == SETUP_SIZE && answer.Valid()
    requires var s := DecodeSetup(packet);
             && s.direction == HostToDevice && s.length > 0
             && ControlSetup(t, packet, answer).1
    ensures var r0, length := ControlSetup(t, packet, answer).0, DecodeSetup(packet).length;
            var r, got := Run(r0, events), Received(r0, events);
            && got + r.remaining == length
            && (Writes(r.log) != Writes(t.log) <==> got == length)
            && Completions(r.log) == Completions(t.log) + if answer.notify && got == length then 1 else 0
  {
    hide Run, Writes, Completions, Received, DecodeSetup;
    var r0 := ControlSetup(t, packet, answer).0;
    WritesLast(t.log, AwaitsRead);
    OutRun(r0, events);
    LogKeepsNotices(Prepared(t, packet, answer), AwaitsRead);
    RunKeepsNotices(r0, events);
  }
}
