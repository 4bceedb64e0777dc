/**
 Safety of the stage machine over all runs: every accepted command is answered by a CSW with
 its own tag before the next one is accepted, and by exactly one if the host keeps to the protocol.
 */
module BulkOnlySafety {
  import opened Words
  import opened Packets
  import opened BulkOnly

  /** Whether a CSW is owed to the host, and for which command. */
  datatype Debt = Broken | Clear | Owes(tag: uint32)

  /**
   One event of the log. `strict` also forbids a CSW nobody asked for;
   otherwise a superfluous one changes nothing.
   */
  function Next(debt: Debt, e: Event, strict: bool): Debt {
    match (debt, e)
    case (Broken, _) => Broken
    case (Clear, Accepted(t)) => Owes(t)
    case (Owes(_), Accepted(_)) => Broken
    case (Clear, Reported(_)) => if strict then Broken else Clear
    case (Owes(t), Reported(csw)) => if csw.tag == t then Clear else Broken
    case _ => debt
  }

  function Scan(log: seq<Event>, strict: bool): Debt {
    if log == [] then Clear
    else Next(Scan(log[..|log| - 1], strict), log[|log| - 1], strict)
  }

  predicate Answers(log: seq<Event>, i: int, k: int)
    requires 0 <= i < |log| && log[i].Accepted?
  {
    i < k < |log| && log[k].Reported? && log[k].csw.tag == log[i].tag
  }

  /** No CSW is logged strictly between two positions, except at `k`. */
  ghost predicate OnlyReport(log: seq<Event>, i: int, k: int, j: int) {
    forall x :: 0 <= i < x < j <= |log| && log[x].Reported? ==> x == k
  }

  predicate NoneAccepted(log: seq<Event>, i: int, j: int) {
    forall x :: 0 <= i < x < j <= |log| ==> !log[x].Accepted?
  }

  // What an unbroken scan says about the log

  lemma {:induction false} BrokenStaysBroken(log: seq<Event>, n: nat, strict: bool)
    requires n <= |log| && Scan(log, strict) != Broken
    ensures Scan(log[..n], strict) != Broken
  {
    if n == |log| {
      assert log[..n] == log;
    } else {
      var init := log[..|log| - 1];
      BrokenStaysBroken(init, n, strict);
      assert init[..n] == log[..n];
    }
  }

  lemma {:induction false} AnsweredOrOwed(log: seq<Event>, i: nat, strict: bool)
    requires i < |log| && log[i].Accepted? && Scan(log, strict) != Broken
    ensures Scan(log, strict) == Owes(log[i].tag) || exists k :: Answers(log, i, k)
  {
    var init, last := log[..|log| - 1], |log| - 1;
    if i < last {
      AnsweredOrOwed(init, i, strict);
      if k :| Answers(init, i, k) {
        assert Answers(log, i, k);
      } else if log[last].Reported? {
        assert Answers(log, i, last);
      }
    }
  }

  lemma {:induction false} AnsweredOnceOrOwed(log: seq<Event>, i: nat)
    requires i < |log| && log[i].Accepted? && NoneAccepted(log, i, |log|)
    requires Scan(log, true) != Broken
    ensures match Scan(log, true)
            case Owes(t) => t == log[i].tag && OnlyReport(log, i, i, |log|)
            case _ => exists k :: Answers(log, i, k) && OnlyReport(log, i, k, |log|)
  {
    var init, last := log[..|log| - 1], |log| - 1;
    if i < last {
      AnsweredOnceOrOwed(init, i);
      if Scan(init, true).Clear? {
        var k :| Answers(init, i, k) && OnlyReport(init, i, k, last);
        assert Answers(log, i, k) && OnlyReport(log, i, k, |log|);
      } else if log[last].Reported? {
        assert Answers(log, i, last) && OnlyReport(log, i, last, |log|);
      }
    }
  }

  /** Two accepted commands have a CSW with the first one's tag between them. */
  ghost predicate EveryCommandAnswered(log: seq<Event>) {
    forall i, j :: 0 <= i < j < |log| && log[i].Accepted? && log[j].Accepted? ==>
      exists k :: Answers(log, i, k) && k < j
  }

  /** Successive accepted commands have exactly one CSW between them, with the first one's tag. */
  ghost predicate EveryCommandAnsweredOnce(log: seq<Event>) {
    forall i, j :: 0 <= i < j < |log| && log[i].Accepted? && log[j].Accepted? && NoneAccepted(log, i, j) ==>
      exists k :: Answers(log, i, k) && k < j && OnlyReport(log, i, k, j)
  }

  lemma ScanMeansAnswered(log: seq<Event>)
    requires Scan(log, false) != Broken
    ensures EveryCommandAnswered(log)
  {
    forall i, j | 0 <= i < j < |log| && log[i].Accepted? && log[j].Accepted?
      ensures exists k :: Answers(log, i, k) && k < j
    {
      var before := log[..j];
      BrokenStaysBroken(log, j + 1, false);
      assert log[..j + 1][..j] == before;
      AnsweredOrOwed(before, i, false);
      var k :| Answers(before, i, k);
      assert Answers(log, i, k) && k < j;
    }
  }

  lemma ScanMeansAnsweredOnce(log: seq<Event>)
    requires Scan(log, true) != Broken
    ensures EveryCommandAnsweredOnce(log)
  {
    forall i, j | 0 <= i < j < |log| && log[i].Accepted? && log[j].Accepted? && NoneAccepted(log, i, j)
      ensures exists k :: Answers(log, i, k) && k < j && OnlyReport(log, i, k, j)
    {
      var before := log[..j];
      BrokenStaysBroken(log, j + 1, true);
      assert log[..j + 1][..j] == before;
      assert NoneAccepted(before, i, |before|);
      AnsweredOnceOrOwed(before, i);
      var k :| Answers(before, i, k) && OnlyReport(before, i, k, j);
      assert Answers(log, i, k) && k < j && OnlyReport(log, i, k, j);
    }
  }

  // The stage says what is owed

  function Debts(d: Device): Debt {
    if d.stage in {ReadCbw, WaitCsw} then Clear else Owes(d.csw.tag)
  }

  /** IN packets the host has still to collect, for a host that keeps to the protocol. */
  predicate Expected(d: Device) {
    match d.stage
    case ReadCbw => d.inFlight == 0
    case ProcessCbw => d.inFlight == if d.cbw.IsRead() then 1 else 0
    case Error => d.inFlight <= 1
    case _ => d.inFlight == 1
  }

  lemma ScanLast(log: seq<Event>, e: Event, strict: bool)
    ensures Scan(log + [e], strict) == Next(Scan(log, strict), e, strict)
  {
    assert (log + [e])[..|log|] == log;
  }

  /** Sending a CSW settles the debt; a second CSW is harmless, but only to the lax reading. */
  lemma StatusSettles(d: Device, strict: bool)
    requires Scan(d.log, strict) == Owes(d.csw.tag) || (!strict && Scan(d.log, strict) == Clear)
    ensures Scan(SendStatus(d).log, strict) == Clear
    ensures SendStatus(d).stage == WaitCsw && SendStatus(d).inFlight == d.inFlight + 1
  {
    ScanLast(d.log, Reported(d.csw), strict);
  }

  lemma StallIsSilent(d: Device, inward: bool, strict: bool)
    ensures Scan(Stall(d, inward).log, strict) == Scan(d.log, strict)
  {
    ScanLast(d.log, Stalled(inward), strict);
  }

  lemma DataIsSilent(d: Device, bytes: seq<byte>, strict: bool)
    ensures Scan(Queue(d, bytes).log, strict) == Scan(d.log, strict)
  {
    ScanLast(d.log, Data(bytes), strict);
  }

  /** A command being worked on: what the phases below start from and either keep or settle. */
  predicate Working(d: Device, strict: bool) {
    d.Valid() && Scan(d.log, strict) == Owes(d.csw.tag)
  }

  /**
   Holds between any two callbacks: the debt agrees with the stage; for a protocol-abiding host,
   so do the packets in flight.
   */
  predicate Settled(d: Device, strict: bool) {
    d.Valid() && Scan(d.log, strict) == Debts(d) && (strict ==> Expected(d))
  }

  lemma FinishSettles(d: Device, status: Status, strict: bool)
    requires Working(d, strict) && (strict ==> d.inFlight == 0)
    ensures Settled(Finish(d, status), strict)
  {
    StatusSettles(d.(csw := d.csw.(status := status)), strict);
  }

  lemma WriteSettles(d: Device, buf: seq<byte>, strict: bool)
    requires Working(d, strict) && d.stage == ProcessCbw && !d.cbw.IsRead()
    requires strict ==> d.inFlight == 0
    ensures Settled(MemoryWrite(d, buf), strict)
  {
    StallIsSilent(d.(stage := Error), false, strict);
    var size := Usable(d, buf);
    var page := FilledPage(d, buf);
    var d2 := Advance(CheckEnd(d, buf).(page := page, disk := FlushedDisk(d, page, size)), size);
    FinishSettles(d2, if d2.stage == Error then Failed else Passed, strict);
  }

  lemma VerifySettles(d: Device, buf: seq<byte>, strict: bool)
    requires Working(d, strict) && d.stage == ProcessCbw && !d.cbw.IsRead()
    requires strict ==> d.inFlight == 0
    ensures Settled(MemoryVerify(d, buf), strict)
  {
    hide Usable, Overruns, Loaded, Matches;
    StallIsSilent(d.(stage := Error), false, strict);
    var size, page := Usable(d, buf), Loaded(d);
    var d1 := CheckEnd(d, buf).(page := page, memOk := d.memOk && Matches(d, page, buf));
    var d2 := Advance(d1, size);
    FinishSettles(d2, if d2.memOk && d2.stage == ProcessCbw then Passed else Failed, strict);
  }

  lemma ReadSettles(d: Device, strict: bool)
    requires Working(d, strict) && d.stage == ProcessCbw && d.cbw.IsRead()
    requires strict ==> d.inFlight == 0
    ensures Settled(MemoryRead(d), strict)
  {
    hide Wrap32, Loaded, ReadPacket, Overruns, Wanted, Disk.Valid, Scan;
    ScanLast(d.log, Data(ReadPacket(d)), strict);
  }

  lemma InfoTransferSettles(d: Device, strict: bool)
    requires Working(d, strict) && (strict ==> d.inFlight == 0)
    ensures var (r, ok) := InfoTransfer(d);
            if ok then r == d.(addr := r.addr, length := r.length) else Settled(r, strict)
  {
    var (r, ok) := InfoTransfer(d);
    if !ok {
      var d1 := d.(addr := r.addr, length := r.length);
      StallIsSilent(d1, d.cbw.In(), strict);
      FinishSettles(d1, Failed, strict);
      FinishSettles(Stall(d1, d.cbw.In()), Failed, strict);
    }
  }

  lemma WrongWaySettles(d: Device, inward: bool, strict: bool)
    requires Working(d, strict) && (strict ==> d.inFlight == 0)
    ensures Settled(WrongWay(d, inward), strict)
  {
    StallIsSilent(d, inward, strict);
    FinishSettles(Stall(d, inward), PhaseError, strict);
  }

  lemma TransferSettles(d: Device, strict: bool)
    requires Working(d, strict) && (strict ==> d.inFlight == 0)
    requires d.stage == ReadCbw
    ensures Settled(StartTransfer(d), strict)
  {
    hide InfoTransfer, MemoryRead, WrongWay, Scan;
    InfoTransferSettles(d, strict);
    var (r, ok) := InfoTransfer(d);
    if ok {
      WrongWaySettles(r, false, strict);
      WrongWaySettles(r, true, strict);
      if d.cbw.IsRead() {
        ReadSettles(r.(stage := ProcessCbw), strict);
      }
    }
  }

  lemma ReplySettles(d: Device, bytes: seq<byte>, done: bool, strict: bool)
    requires Working(d, strict) && (strict ==> d.inFlight == 0) && |bytes| <= MAX_PACKET
    ensures Settled(Reply(d, bytes, done), strict)
  {
    var size := if |bytes| >= d.cbw.dataLength then d.cbw.dataLength else |bytes|;
    DataIsSilent(d.(stage := SendCsw), bytes[..size], strict);
  }

  lemma DispatchSettles(d: Device, done: bool, strict: bool)
    requires Working(d, strict) && (strict ==> d.inFlight == 0)
    requires d.stage == ReadCbw
    ensures Settled(Dispatch(d, done), strict)
  {
    hide Settled, Answer, Finish, Reply, StartTransfer;
    if d.cbw.IsRead() || d.cbw.IsWrite() || d.cbw.IsByteCheck() {
      TransferSettles(d, strict);
    } else if d.cbw.Op() == TEST_UNIT_READY {
      StallIsSilent(d, d.cbw.In(), strict);
      FinishSettles(Stall(d, d.cbw.In()), Passed, strict);
      FinishSettles(d, Passed, strict);
    } else if Dispatch(d, done) == Reply(d, Answer(d), done) {
      AnswerSize(d);
      ReplySettles(d, Answer(d), done, strict);
    } else {
      FinishSettles(d, Passed, strict);
      FinishSettles(d, Failed, strict);
    }
  }

  lemma AnswerSize(d: Device)
    requires d.Valid()
    ensures |Answer(d)| <= MAX_PACKET
  {
  }

  lemma DecodeSettles(d: Device, buf: seq<byte>, done: bool, strict: bool)
    requires Settled(d, strict) && d.stage == ReadCbw
    ensures Settled(CbwDecode(d, buf, done), strict)
  {
    hide ParseCbw, Dispatch;
    if |buf| == CBW_SIZE && ParseCbw(buf).signature == CBW_SIGNATURE {
      var d1 := Accept(d, ParseCbw(buf));
      ScanLast(d.log, Accepted(d1.cbw.tag), strict);
      FinishSettles(d1, Failed, strict);
      DispatchSettles(d1, done, strict);
    }
  }

  /**
   The callbacks a host that keeps to the protocol can cause: it sends packets only when the
   device reads them, and collects only what the device has queued.
   */
  predicate Disciplined(d: Device, c: Callback) {
    match c
    case Out(_, _) => d.stage in {ReadCbw, ProcessCbw}
    case In => d.inFlight > 0
  }

  /** A packet in a stage that expects none. */
  lemma UnexpectedSettles(d: Device, buf: seq<byte>, done: bool)
    requires Settled(d, false) && d.stage !in {ReadCbw, ProcessCbw}
    ensures Settled(Step(d, Out(buf, done)), false)
  {
    hide CbwDecode, MemoryWrite, MemoryVerify, Disk.Valid, Scan;
    StallIsSilent(d, false, false);
    StatusSettles(Stall(d, false).(csw := d.csw.(status := PhaseError)), false);
  }

  /** A collection outside a data phase: of the last data, of the CSW, or of what is no longer due. */
  lemma CollectionSettles(d: Device, strict: bool)
    requires Settled(d, strict) && d.stage != ProcessCbw
    requires strict ==> d.inFlight > 0
    ensures Settled(InCallback(d), strict)
  {
    hide MemoryRead, Disk.Valid, Scan;
    var d1 := d.(inFlight := if d.inFlight == 0 then 0 else d.inFlight - 1);
    if d.stage == SendCsw {
      StatusSettles(d1, strict);
    } else if d.stage != WaitCsw {
      StallIsSilent(d1, true, strict);
      StatusSettles(Stall(d1, true), strict);
    }
  }

  lemma DataPhaseSettles(d: Device, c: Callback, strict: bool)
    requires Settled(d, strict) && d.stage == ProcessCbw
    requires strict ==> Disciplined(d, c)
    ensures Settled(Step(d, c), strict)
  {
    hide CbwDecode, MemoryWrite, MemoryVerify, MemoryRead, Disk.Valid;
    if d.cbw.IsRead() {
      if c.In? {
        ReadSettles(d.(inFlight := if d.inFlight == 0 then 0 else d.inFlight - 1), strict);
      }
    } else if c.Out? {
      WriteSettles(d, c.buf, strict);
      VerifySettles(d, c.buf, strict);
    }
  }

  lemma StepSettles(d: Device, c: Callback, strict: bool)
    requires Settled(d, strict) && (strict ==> Disciplined(d, c))
    ensures Settled(Step(d, c), strict)
  {
    hide CbwDecode, Settled, InCallback, MemoryWrite, MemoryVerify;
    if d.stage == ProcessCbw {
      DataPhaseSettles(d, c, strict);
    } else if c.In? {
      CollectionSettles(d, strict);
    } else if d.stage == ReadCbw {
      DecodeSettles(d, c.buf, c.done, strict);
    } else {
      UnexpectedSettles(d, c.buf, c.done);
    }
  }

  /** A device that has just been connected. */
  predicate Fresh(d: Device) {
    d.Valid() && d.stage == ReadCbw && d.inFlight == 0 && d.log == []
  }

  lemma {:induction false} RunSettles(d: Device, cs: seq<Callback>)
    requires d.Valid() && Settled(d, false)
    ensures Settled(Run(d, cs), false)
    decreases |cs|
  {
    hide Step, Settled;
    if cs != [] {
      StepKeepsValid(d, cs[0]);
      StepSettles(d, cs[0], false);
      RunSettles(Step(d, cs[0]), cs[1..]);
    }
  }

  /** In every run from a fresh device, in whatever order the callbacks come. */
  lemma AcceptedCommandsAreAnswered(d: Device, cs: seq<Callback>)
    requires Fresh(d) && Along(Guarded, d, cs)
    ensures EveryCommandAnswered(Run(d, cs).log)
  {
    RunSettles(d, cs);
    ScanMeansAnswered(Run(d, cs).log);
  }

  lemma {:induction false} PoliteRunSettles(d: Device, cs: seq<Callback>)
    requires d.Valid() && Settled(d, true) && Along(Disciplined, d, cs)
    ensures Settled(Run(d, cs), true)
    decreases |cs|
  {
    hide Step, Settled;
    if cs != [] {
      StepKeepsValid(d, cs[0]);
      StepSettles(d, cs[0], true);
      PoliteRunSettles(Step(d, cs[0]), cs[1..]);
    }
  }

  /** In every run a protocol-abiding host can cause (section 5.2 of Bulk-Only Transport 1.0). */
  lemma AcceptedCommandsAreAnsweredOnce(d: Device, cs: seq<Callback>)
    requires Fresh(d) && Along(Disciplined, d, cs) && Along(Guarded, d, cs)
    ensures EveryCommandAnsweredOnce(Run(d, cs).log)
  {
    PoliteRunSettles(d, cs);
    ScanMeansAnsweredOnce(Run(d, cs).log);
  }

  // What can happen to the disk

  /** Only a packet of data for a WRITE changes the disk, and only if that is not protected. */
  lemma OnlyWritesChangeDisk(d: Device, c: Callback)
    requires Guarded(d, c)
    ensures Step(d, c).disk != d.disk ==>
      c.Out? && d.stage == ProcessCbw && d.cbw.IsWrite() && !d.disk.writeProtected
  {
    hide MemoryWrite, MemoryVerify, MemoryRead, CbwDecode, Disk.Valid, InBounds;
    if d.stage == ReadCbw && c.Out? {
      DecodeKeepsDisk(d, c.buf, c.done);
    } else if c.Out? {
      PacketKeepsDisk(d, c.buf);
    } else {
      ReadKeepsDisk(d.(inFlight := if d.inFlight == 0 then 0 else d.inFlight - 1));
    }
  }

  lemma PacketKeepsDisk(d: Device, buf: seq<byte>)
    requires d.Valid()
    ensures MemoryVerify(d, buf).disk == d.disk
    ensures d.disk.writeProtected ==> MemoryWrite(d, buf).disk == d.disk
  {
    hide Wrap32, Loaded, Matches, FilledPage, Disk.WriteBlock, Usable, Overruns;
  }

  lemma ReadKeepsDisk(d: Device)
    requires d.Valid()
    ensures MemoryRead(d).disk == d.disk
  {
    hide Wrap32, Loaded, Disk.Valid;
  }

  lemma DecodeKeepsDisk(d: Device, buf: seq<byte>, done: bool)
    requires d.Valid()
    ensures CbwDecode(d, buf, done).disk == d.disk
  {
    hide ParseCbw, Answer, MemoryRead, Wrap32, Disk.Valid;
    if |buf| == CBW_SIZE {
      var d1 := InfoTransfer(Accept(d, ParseCbw(buf))).0.(stage := ProcessCbw);
      ReadKeepsDisk(d1);
    }
  }

  /** In every run, in whatever order the callbacks come. */
  lemma {:induction false} ProtectedDiskNeverChanges(d: Device, cs: seq<Callback>)
    requires d.Valid() && d.disk.writeProtected && Along(Guarded, d, cs)
    ensures Run(d, cs).disk == d.disk
    decreases |cs|
  {
    hide Step;
    if cs != [] {
      StepKeepsValid(d, cs[0]);
      OnlyWritesChangeDisk(d, cs[0]);
      ProtectedDiskNeverChanges(Step(d, cs[0]), cs[1..]);
    }
  }
}
