/** The control pipe over many setups: what the class layer is told, and for which of them. */
module ControlRuns {
  import opened Words
  import opened Packets
  import opened ControlTransfer

  datatype PipeEvent = SetupPacket(packet: seq<byte>, answer: Answer) | Token(i: Interrupt)
  {
    predicate Valid() { SetupPacket? ==> |packet| == SETUP_SIZE && answer.Valid() }

    /** The handler of a setup asks to be told of the end. */
    predicate Asks() { SetupPacket? && answer.Answered? && answer.notify }
  }

  predicate AllValid(es: seq<PipeEvent>) {
    forall e :: e in es ==> e.Valid()
  }

  /** The transfer after an event, and whether the event was served; otherwise the pipe stalls. */
  function Serve(t: Transfer, e: PipeEvent): (r: (Transfer, bool))
    requires t.Valid() && e.Valid()
    ensures r.0.Valid()
  {
    match e
    case SetupPacket(packet, answer) => ControlSetup(t, packet, answer)
    case Token(In) => ControlIn(t)
    case Token(Out(packet)) => ControlOut(t, packet)
  }

  function PipeStep(t: Transfer, e: PipeEvent): (r: Transfer)
    requires t.Valid() && e.Valid()
    ensures r.Valid()
  {
    StallUnless(Serve(t, e))
  }

  function PipeRun(t: Transfer, es: seq<PipeEvent>): (r: Transfer)
    requires t.Valid() && AllValid(es)
    ensures r.Valid()
    decreases |es|
  {
    if es == [] then t else PipeRun(PipeStep(t, es[0]), es[1..])
  }

  /** Setups whose handler asks to be told. */
  function Asked(es: seq<PipeEvent>): nat {
    if es == [] then 0 else (if es[0].Asks() then 1 else 0) + Asked(es[1..])
  }

  /** Those of them that are accepted. */
  function AcceptedAsked(t: Transfer, es: seq<PipeEvent>): nat
    requires t.Valid() && AllValid(es)
    decreases |es|
  {
    if es == [] then 0
    else (if es[0].Asks() && Serve(t, es[0]).1 then 1 else 0) + AcceptedAsked(PipeStep(t, es[0]), es[1..])
  }

  /** While the pipe is stalled the next thing to come is a setup (section 8.5.3.4 of USB 2.0). */
  predicate HeedsStalls(t: Transfer, es: seq<PipeEvent>, stalled: bool)
    requires t.Valid() && AllValid(es)
    decreases |es|
  {
    es != [] ==>
      && (stalled ==> es[0].SetupPacket?)
      && HeedsStalls(PipeStep(t, es[0]), es[1..], !Serve(t, es[0]).1)
  }

  lemma TokenIsStep(t: Transfer, i: Interrupt)
    requires t.Valid()
    ensures PipeStep(t, Token(i)) == Step(t, i)
  {
    hide ControlIn, ControlOut, StallUnless;
  }

  /** A setup cancels what is pending; of its own notice there is at most one. */
  lemma SetupNotices(t: Transfer, packet: seq<byte>, answer: Answer)
    requires t.Valid() && |packet| == SETUP_SIZE && answer.Valid()
    ensures var r, e := ControlSetup(t, packet, answer), SetupPacket(packet, answer);
            && Notices(r.0) == Completions(t.log) + (if e.Asks() then 1 else 0)
            && (!r.1 ==> Completions(r.0.log) == Completions(t.log))
  {
    hide Completions, DecodeSetup;
    var t1 := Prepared(t, packet, answer);
    LogKeepsNotices(t1, Wrote([]));
    LogKeepsNotices(t1, AwaitsRead);
    InKeepsNotices(Limited(t1));
  }

  lemma InKeepsNotices(t: Transfer)
    ensures t.Valid() && ControlIn(t).1 ==> Notices(ControlIn(t).0) == Notices(t)
  {
    hide Completions, Notices;
    if t.Valid() && ControlIn(t).1 {
      StepKeepsNotices(t, In);
    }
  }

  lemma StallKeepsNotices(r: (Transfer, bool))
    ensures Notices(StallUnless(r)) == Notices(r.0) && StallUnless(r).notify == r.0.notify
  {
    hide Completions;
    LogKeepsNotices(r.0, Stalled);
  }

  lemma PipeStepNotices(t: Transfer, e: PipeEvent)
    requires t.Valid() && e.Valid()
    ensures var r := PipeStep(t, e);
            if e.Token? then Notices(r) == Notices(t)
            else
              && Notices(r) == Completions(t.log) + (if e.Asks() then 1 else 0)
              && (!Serve(t, e).1 ==> Completions(r.log) == Completions(t.log))
  {
    hide Completions, ControlSetup, ControlIn, ControlOut;
    match e
    case Token(i) =>
      TokenIsStep(t, i);
      StepKeepsNotices(t, i);
    case SetupPacket(packet, answer) =>
      SetupNotices(t, packet, answer);
      StallKeepsNotices(ControlSetup(t, packet, answer));
  }

  /** In every run the class is told no more often than its handlers have asked. */
  lemma {:induction false} ToldNoMoreThanAsked(t: Transfer, es: seq<PipeEvent>)
    requires t.Valid() && AllValid(es)
    ensures Completions(PipeRun(t, es).log) <= Notices(t) + Asked(es)
    decreases |es|
  {
    hide Completions, PipeStep, PipeEvent.Asks;
    if es != [] {
      PipeStepNotices(t, es[0]);
      ToldNoMoreThanAsked(PipeStep(t, es[0]), es[1..]);
    }
  }

  /** What can still be told: nothing for a setup that was refused. */
  function Due(t: Transfer, stalled: bool): nat {
    Completions(t.log) + if t.notify && !stalled then 1 else 0
  }

  lemma {:induction false} ToldFrom(t: Transfer, es: seq<PipeEvent>, stalled: bool)
    requires t.Valid() && AllValid(es) && HeedsStalls(t, es, stalled)
    ensures Completions(PipeRun(t, es).log) <= Due(t, stalled) + AcceptedAsked(t, es)
    decreases |es|
  {
    hide Completions, PipeStep, Serve, PipeEvent.Asks;
    if es != [] {
      PipeStepNotices(t, es[0]);
      ToldFrom(PipeStep(t, es[0]), es[1..], !Serve(t, es[0]).1);
    }
  }

  /**
   Over any number of setups, of a host that answers a stall by a new setup: the class is told no
   more often than setups were accepted whose handler asked for it.
   */
  lemma ToldForAccepted(t: Transfer, es: seq<PipeEvent>)
    requires t.Valid() && AllValid(es) && HeedsStalls(t, es, false)
    ensures Completions(PipeRun(t, es).log) <= Notices(t) + AcceptedAsked(t, es)
  {
    ToldFrom(t, es, false);
  }

  /**
   Tokens behind a refused setup break it: the handler's wish outlives the refusal, and the next
   IN token is taken for the end of a transfer.
   */
  lemma ToldForRefused(t: Transfer)
    requires t.Valid()
    ensures var packet: seq<byte> := [0x80, 0, 0, 0, 0, 0, 1, 0];
            var es := [SetupPacket(packet, Answered([], 0, HostToDevice, true)), Token(In)];
            && AllValid(es) && AcceptedAsked(t, es) == 0
            && Completions(PipeRun(t, es).log) == Completions(t.log) + 1
  {
    hide Completions;
    var packet: seq<byte> := [0x80, 0, 0, 0, 0, 0, 1, 0];
    var answer := Answered([], 0, HostToDevice, true);
    var es := [SetupPacket(packet, answer), Token(In)];
    assert packet[6..8] == [1, 0];
    var r := ControlSetup(t, packet, answer);
    assert !r.1;
    var t1 := StallUnless(r);
    SetupNotices(t, packet, answer);
    StallKeepsNotices(r);
    StepKeepsNotices(t1, In);
    assert es[1..] == [Token(In)] && es[1..][1..] == [];
  }
}
