/**
 The three kinds of control transfer from setup to status, event by event: what goes to the
 endpoint, when it is armed for reading, and when the class layer is told.
 */
module ControlEvents {
  import opened Words
  import opened Packets
  import opened ControlTransfer

  /** The class layer is told, if it asked for it. */
  function Told(notify: bool): seq<Event> {
    if notify then [Completed] else []
  }

  /** The endpoint armed for reading, so many times. */
  function Reads(n: nat): seq<Event> {
    seq(n, _ => AwaitsRead)
  }

  lemma ReadsFirst(n: nat)
    ensures [AwaitsRead] + Reads(n) == Reads(n + 1)
  {
  }

  /** Nothing is left to send or to tell. */
  predicate Over(t: Transfer) {
    t.remaining == 0 && !t.zlp && !t.notify
  }

  lemma RunIn(t: Transfer, n: nat)
    requires t.Valid() && (t.direction == DeviceToHost || t.remaining == 0)
    ensures ControlIn(t).1 && Run(t, Ins(n + 1)) == Run(ControlIn(t).0, Ins(n))
  {
    assert Ins(n + 1)[0] == In && Ins(n + 1)[1..] == Ins(n);
  }

  lemma {:induction false} OverOnlyArms(t: Transfer, n: nat)
    requires t.Valid() && Over(t)
    ensures Run(t, Ins(n)).log == t.log + Reads(n)
    decreases n
  {
    if n > 0 {
      RunIn(t, n - 1);
      OverOnlyArms(ControlIn(t).0, n - 1);
      ReadsFirst(n - 1);
      AppendAssociates(t.log, [AwaitsRead], Reads(n - 1));
    }
  }

  // Refused

  /**
   A setup the handler refuses puts an end to the transfer before it: none of its data is sent any
   more, however many tokens the host sends, and no data is taken.
   */
  lemma RefusedMovesNothing(t: Transfer, packet: seq<byte>, n: nat, p: seq<byte>)
    requires t.Valid() && |packet| == SETUP_SIZE
    ensures var (r, ok) := ControlSetup(t, packet, Refused);
            && !ok && r.log == t.log && Run(r, Ins(n)).log == t.log + Reads(n)
            && Step(r, Out(p)).log == t.log + [if p == [] then Wrote([]) else Stalled]
  {
    hide DecodeSetup, Run;
    OverOnlyArms(ControlSetup(t, packet, Refused).0, n);
  }

  // No data

  /**
   An accepted setup without data answers with the empty status packet and nothing else; when the
   host has collected it, the class is told, once, and the endpoint is armed.
   */
  lemma NoDataTransfer(t: Transfer, packet: seq<byte>, answer: Answer, m: nat)
    requires t.Valid() && |packet| == SETUP_SIZE && answer.Valid()
    requires DecodeSetup(packet).length == 0 && ControlSetup(t, packet, answer).1
    ensures var r := ControlSetup(t, packet, answer).0;
            && r.log == t.log + [Wrote([])] && Writes(r.log) == Writes(t.log) + [[]]
            && Run(r, Ins(m + 1)).log == t.log + [Wrote([])] + Told(answer.notify) + [AwaitsRead] + Reads(m)
  {
    hide DecodeSetup, Writes, Run, Reads;
    var r := ControlSetup(t, packet, answer).0;
    RunIn(r, m);
    OverOnlyArms(ControlIn(r).0, m);
    WritesLast(t.log, Wrote([]));
  }

  /** The setup a host sends to give the device address 5, and a handler that takes it. */
  lemma SetAddressIsAnswered(t: Transfer)
    requires t.Valid()
    ensures var packet: seq<byte> := [0x00, 0x05, 0x05, 0x00, 0x00, 0x00, 0x00, 0x00];
            var s := DecodeSetup(packet);
            var (r, ok) := ControlSetup(t, packet, Answered([], 0, HostToDevice, false));
            && s == Setup(HostToDevice, 0, 0, 5, 5, 0, 0)
            && ok && r.log == t.log + [Wrote([])]
  {
    var packet: seq<byte> := [0x00, 0x05, 0x05, 0x00, 0x00, 0x00, 0x00, 0x00];
    assert packet[2..4] == [5, 0] && packet[4..6] == [0, 0] && packet[6..8] == [0, 0];
  }

  // Data to the host

  function Wrotes(packets: seq<seq<byte>>): seq<Event> {
    if packets == [] then [] else [Wrote(packets[0])] + Wrotes(packets[1..])
  }

  /** What is still to be handed over from here on, and the end. */
  function InRest(t: Transfer): seq<Event>
    requires t.Valid() && t.direction == DeviceToHost
  {
    Wrotes(Chunks(t.data[t.ptr..t.ptr + t.remaining]))
    + ((if t.zlp then [Wrote([])] else []) + Told(t.notify) + [AwaitsRead])
  }

  lemma InEnds(t: Transfer)
    requires t.Valid() && t.direction == DeviceToHost && t.remaining == 0
    ensures ControlIn(t).0.log == t.log + InRest(t) && Over(ControlIn(t).0)
  {
    assert t.data[t.ptr..t.ptr] == [];
    AppendAssociates(t.log, if t.zlp then [Wrote([])] else [], Told(t.notify));
  }

  lemma InGoesOn(t: Transfer)
    requires t.Valid() && t.direction == DeviceToHost && t.remaining > 0
    ensures var r := ControlIn(t).0;
            && r.direction == DeviceToHost && t.log + InRest(t) == r.log + InRest(r)
            && |Chunks(t.data[t.ptr..t.ptr + t.remaining])|
               == 1 + |Chunks(r.data[r.ptr..r.ptr + r.remaining])|
  {
    hide Chunks, Told;
    var n, r := Min(t.remaining, MAX_PACKET), ControlIn(t).0;
    var p, rest := t.data[t.ptr..t.ptr + n], Chunks(r.data[r.ptr..r.ptr + r.remaining]);
    PendingFirst(t.data, t.ptr, t.remaining, n);
    assert ([p] + rest)[0] == p && ([p] + rest)[1..] == rest;
    var end := (if t.zlp then [Wrote([])] else []) + Told(t.notify) + [AwaitsRead];
    AppendAssociates([Wrote(p)], Wrotes(rest), end);
    AppendAssociates(t.log, [Wrote(p)], Wrotes(rest) + end);
  }

  lemma {:induction false} InsFinish(t: Transfer, n: nat, m: nat)
    requires t.Valid() && t.direction == DeviceToHost
    requires n == |Chunks(t.data[t.ptr..t.ptr + t.remaining])| + 1 + m
    ensures Run(t, Ins(n)).log == t.log + InRest(t) + Reads(m)
    decreases n
  {
    hide ControlIn, InRest, Chunks, Run, Reads;
    RunIn(t, n - 1);
    if t.remaining == 0 {
      NoChunks(t);
      InEnds(t);
      OverOnlyArms(ControlIn(t).0, m);
    } else {
      InGoesOn(t);
      InsFinish(ControlIn(t).0, n - 1, m);
    }
  }

  lemma NoChunks(t: Transfer)
    requires t.Valid() && t.direction == DeviceToHost && t.remaining == 0
    ensures |Chunks(t.data[t.ptr..t.ptr + t.remaining])| == 0
  {
  }

  /**
   An IN transfer in full: the answer, cut to what the host asked for, in packets; an empty packet
   if it is short and its packets are full; then the class is told, and the endpoint is armed for
   the status stage. It takes one token more than there are packets of data, the first of which is
   handed over by the setup itself; tokens that follow find the endpoint armed and nothing else.
   */
  lemma InTransferEvents(t: Transfer, packet: seq<byte>, answer: Answer, m: nat)
    requires t.Valid() && |packet| == SETUP_SIZE && answer.Valid()
    requires DecodeSetup(packet).direction == DeviceToHost && DecodeSetup(packet).length > 0
    requires answer.Answered? && answer.direction == DeviceToHost
    ensures var (r, ok), length := ControlSetup(t, packet, answer), DecodeSetup(packet).length;
            var n := Min(answer.remaining, length);
            var packets, short := Chunks(answer.data[..n]), n < length && n % MAX_PACKET == 0;
            ok && Run(r, Ins(|packets| + m)).log
                  == t.log + (Wrotes(packets)
                              + ((if short then [Wrote([])] else []) + Told(answer.notify) + [AwaitsRead]))
                     + Reads(m)
  {
    hide Chunks, Run, DecodeSetup, ControlIn, Wrotes, Told, Reads;
    var s := Limited(Prepared(t, packet, answer));
    var n := Min(answer.remaining, DecodeSetup(packet).length);
    assert s.data[s.ptr..s.ptr + s.remaining] == answer.data[..n];
    var c := |Chunks(answer.data[..n])|;
    InsFinish(s, c + 1 + m, m);
    RunIn(s, c + m);
  }

  // Data from the host

  function Outs(packets: seq<seq<byte>>): seq<Interrupt> {
    seq(|packets|, i requires 0 <= i < |packets| => Out(packets[i]))
  }

  /** What these packets lead to when `remaining` bytes are awaited. */
  function OutRest(remaining: nat, notify: bool, packets: seq<seq<byte>>): seq<Event> {
    if |Concat(packets)| < remaining || packets == [] then Reads(|packets|)
    else Reads(|packets| - 1) + (Told(notify) + [Wrote([])])
  }

  lemma OutArms(t: Transfer, p: seq<byte>)
    requires t.Valid() && t.direction == HostToDevice && |p| < t.remaining
    ensures var r := Step(t, Out(p));
            && r.log == t.log + [AwaitsRead] && r.remaining == t.remaining - |p|
            && r.direction == HostToDevice && r.notify == t.notify
  {
  }

  lemma OutEnds(t: Transfer, p: seq<byte>)
    requires t.Valid() && t.direction == HostToDevice && |p| == t.remaining
    ensures var r := Step(t, Out(p));
            r.log == t.log + (Told(t.notify) + [Wrote([])]) && r.remaining == 0
  {
    AppendAssociates(t.log, Told(t.notify), [Wrote([])]);
  }

  lemma OutsFirst(t: Transfer, packets: seq<seq<byte>>)
    requires t.Valid() && packets != []
    ensures Run(t, Outs(packets)) == Run(Step(t, Out(packets[0])), Outs(packets[1..]))
  {
    hide Step;
    assert Outs(packets)[0] == Out(packets[0]) && Outs(packets)[1..] == Outs(packets[1..]);
  }

  lemma {:induction false} OutsFollow(t: Transfer, packets: seq<seq<byte>>)
    requires t.Valid() && t.direction == HostToDevice && 0 < t.remaining
    requires |Concat(packets)| <= t.remaining && Ends(packets)
    ensures Run(t, Outs(packets)).log == t.log + OutRest(t.remaining, t.notify, packets)
    decreases |packets|
  {
    hide Step, Told;
    if packets == [] {
      assert t.log + [] == t.log && Outs([]) == [];
    } else {
      var p, rest := packets[0], packets[1..];
      OutsFirst(t, packets);
      if rest != [] {
        LastMoves(rest);
        OutArms(t, p);
        OutsFollow(Step(t, Out(p)), rest);
        ReadsFirst(|rest|);
        ReadsFirst(|rest| - 1);
        AppendAssociates(t.log, [AwaitsRead], OutRest(t.remaining - |p|, t.notify, rest));
        AppendAssociates([AwaitsRead], Reads(|rest| - 1), Told(t.notify) + [Wrote([])]);
      } else {
        assert Outs([]) == [];
        if |p| < t.remaining {
          OutArms(t, p);
        } else {
          OutEnds(t, p);
          assert Reads(0) == [];
        }
      }
    }
  }

  /**
   An OUT transfer in full: the setup arms the endpoint, so does every packet that leaves bytes to
   come, and the one that brings the last byte has the class told and the status packet sent.
   */
  lemma OutTransferEvents(t: Transfer, packet: seq<byte>, answer: Answer, packets: seq<seq<byte>>)
    requires t.Valid() && |packet| == SETUP_SIZE && answer.Valid()
    requires var s := DecodeSetup(packet);
             s.direction == HostToDevice && s.length > 0 && |Concat(packets)| <= s.length && Ends(packets)
    requires ControlSetup(t, packet, answer).1
    ensures var r, length := ControlSetup(t, packet, answer).0, DecodeSetup(packet).length;
            Run(r, Outs(packets)).log
            == t.log + [AwaitsRead] + OutRest(length, answer.notify, packets)
  {
    hide DecodeSetup, Run, OutRest;
    OutsFollow(ControlSetup(t, packet, answer).0, packets);
  }
}
