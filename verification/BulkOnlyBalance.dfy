/** Conservation: what address, length and residue have to do with the bytes moved, in every run. */
module BulkOnlyBalance {
  import opened Words
  import opened Packets
  import opened Blocks
  import opened BulkOnly
  import opened BulkOnlyCommands

  /** The bytes in the data packets of a log. */
  function DataIn(log: seq<Event>): nat {
    if log == [] then 0
    else
      var last := log[|log| - 1];
      DataIn(log[..|log| - 1]) + if last.Data? then |last.bytes| else 0
  }

  lemma DataLast(log: seq<Event>, e: Event)
    ensures DataIn(log + [e]) == DataIn(log) + if e.Data? then |e.bytes| else 0
  {
    assert (log + [e])[..|log|] == log;
  }

  /**
   The bytes that have crossed the bulk pipes since the last command: `before` counts them up to
   a callback, and a callback adds the packet it takes and the packets it sends.
   */
  function MovedBy(d: Device, c: Callback, before: int): int
    requires d.Valid()
  {
    var taken := if c.Out? && d.stage == ProcessCbw && !d.cbw.IsRead() then |c.buf| else 0;
    var sent := DataIn(Step(d, c).log) - DataIn(d.log);
    (if d.stage == ReadCbw then 0 else before) + taken + sent
  }

  function MovedIn(d: Device, cs: seq<Callback>, before: int): int
    requires d.Valid()
    decreases |cs|
  {
    if cs == [] then before
    else
      StepKeepsValid(d, cs[0]);
      MovedIn(Step(d, cs[0]), cs[1..], MovedBy(d, cs[0], before))
  }

  /**
   In a data phase of which `moved` bytes are through, in 32-bit arithmetic: the address is that
   much beyond the start, and length and residue are what is left.
   */
  predicate Balanced(d: Device, moved: int) {
    d.stage == ProcessCbw ==>
      && (d.cbw.IsRead() || d.cbw.IsWrite() || d.cbw.Op() == VERIFY10)
      && d.addr == Wrap32(Target(d.disk, d.cbw) + moved)
      && d.csw.residue == d.length == Wrap32(d.cbw.dataLength - moved)
      && (d.cbw.IsRead() ==> d.addr % MAX_PACKET == 0)
  }

  lemma AdvanceBalances(d: Device, n: nat, moved: int)
    requires d.addr == Wrap32(Target(d.disk, d.cbw) + moved)
    requires d.csw.residue == d.length == Wrap32(d.cbw.dataLength - moved)
    ensures var r := Advance(d, n);
            && r.addr == Wrap32(Target(d.disk, d.cbw) + (moved + n))
            && r.csw.residue == r.length == Wrap32(d.cbw.dataLength - (moved + n))
  {
    hide Wrap32, Target;
    WrapAgain(Target(d.disk, d.cbw) + moved, n);
    WrapAgain(d.cbw.dataLength - moved, 0 - n as int);
  }

  lemma WriteBalances(d: Device, buf: seq<byte>, moved: int)
    requires d.Valid() && Balanced(d, moved) && d.stage == ProcessCbw && !d.cbw.IsRead()
    ensures Balanced(MemoryWrite(d, buf), moved + |buf|)
    ensures DataIn(MemoryWrite(d, buf).log) == DataIn(d.log)
  {
    hide Wrap32, Target, FilledPage, FlushedDisk, Overruns, DataIn;
    var page := FilledPage(d, buf);
    var d1 := d.(page := page, disk := FlushedDisk(d, page, Usable(d, buf)));
    TargetDependsOn(d.disk, d1.disk, d.cbw);
    AdvanceBalances(d1, |buf|, moved);
    QuietEvents(d);
  }

  lemma TargetDependsOn(disk: Disk, r: Disk, c: Cbw)
    requires r.blockSize == disk.blockSize
    ensures Target(disk, c) == Target(r, c)
  {
  }

  /** Stalling and reporting move no data. */
  lemma QuietEvents(d: Device)
    ensures forall inward :: DataIn(d.log + [Stalled(inward)]) == DataIn(d.log)
    ensures forall csw :: DataIn(d.log + [Reported(csw)]) == DataIn(d.log)
    ensures forall inward, csw :: DataIn(d.log + [Stalled(inward)] + [Reported(csw)]) == DataIn(d.log)
  {
    forall inward, csw
      ensures DataIn(d.log + [Stalled(inward)]) == DataIn(d.log)
      ensures DataIn(d.log + [Reported(csw)]) == DataIn(d.log)
      ensures DataIn(d.log + [Stalled(inward)] + [Reported(csw)]) == DataIn(d.log)
    {
      DataLast(d.log, Stalled(inward));
      DataLast(d.log, Reported(csw));
      DataLast(d.log + [Stalled(inward)], Reported(csw));
    }
  }

  lemma VerifyBalances(d: Device, buf: seq<byte>, moved: int)
    requires d.Valid() && Balanced(d, moved) && d.stage == ProcessCbw && !d.cbw.IsRead()
    ensures Balanced(MemoryVerify(d, buf), moved + |buf|)
    ensures DataIn(MemoryVerify(d, buf).log) == DataIn(d.log)
  {
    hide Wrap32, Target, Loaded, Matches, Overruns, DataIn;
    var page := Loaded(d);
    AdvanceBalances(d.(page := page, memOk := d.memOk && Matches(d, page, buf)), |buf|, moved);
    QuietEvents(d);
  }

  /** What a READ sends is what it counts. */
  lemma ReadSendsWhole(d: Device)
    requires d.Valid() && d.addr % MAX_PACKET == 0 && !Overruns(d, Wanted(d))
    ensures |ReadPacket(d)| == ReadSize(d) == Wanted(d)
  {
    hide Loaded;
    RoomForPacket(d);
  }

  lemma ReadBalances(d: Device, moved: int)
    requires d.Valid() && Balanced(d, moved) && d.stage == ProcessCbw && d.cbw.IsRead()
    ensures var r := MemoryRead(d);
            Balanced(r, moved + DataIn(r.log) - DataIn(d.log))
  {
    hide Wrap32, Target, Loaded, Overruns, DataIn, ReadPacket, Disk.Valid;
    var r := MemoryRead(d);
    if r.stage == ProcessCbw {
      ReadSendsWhole(d);
      DataLast(d.log, Data(ReadPacket(d)));
      AdvanceBalances(Queue(d.(page := Loaded(d)), ReadPacket(d)), Wanted(d), moved);
      NextAligned(d.addr);
      WholePacketUnlessLast(d);
    }
  }

  lemma TransferBalances(d: Device)
    requires d.Valid() && d.stage == ReadCbw && IsTransfer(d.cbw) && d.csw.residue == d.cbw.dataLength
    ensures var r := StartTransfer(d); Balanced(r, DataIn(r.log) - DataIn(d.log))
  {
    hide MemoryRead, StartTransfer, Target, Wrap32, DataIn, LengthsAgree, Disk.Valid;
    TransferStarts(d);
    if Agreed(d.disk, d.cbw) {
      var c := d.cbw;
      var ready := d.(stage := ProcessCbw, addr := Target(d.disk, c), length := c.dataLength,
                      memOk := if c.IsByteCheck() then true else d.memOk);
      InsideWord(Target(d.disk, c));
      InsideWord(c.dataLength);
      TargetOnPacket(d.disk, c);
      assert Balanced(ready, 0);
      if c.IsRead() {
        ReadBalances(ready, 0);
      }
    }
  }

  lemma DecodeBalances(d: Device, buf: seq<byte>, done: bool)
    requires d.Valid() && d.stage == ReadCbw
    ensures var r := CbwDecode(d, buf, done); Balanced(r, DataIn(r.log) - DataIn(d.log))
  {
    hide ParseCbw, Dispatch, StartTransfer, DataIn, Balanced;
    NoDataPhase(CbwDecode(d, buf, done));
    if |buf| == CBW_SIZE && ParseCbw(buf).signature == CBW_SIGNATURE && Meaningful(ParseCbw(buf)) {
      var d1 := Accept(d, ParseCbw(buf));
      DataLast(d.log, Accepted(d1.cbw.tag));
      if IsTransfer(d1.cbw) {
        DispatchesTransfer(d1, done);
        TransferBalances(d1);
      } else {
        DispatchLeaves(d1, done);
      }
    }
  }

  lemma NoDataPhase(d: Device)
    ensures d.stage != ProcessCbw ==> forall moved :: Balanced(d, moved)
  {
  }

  lemma PhaseBalances(d: Device, c: Callback, moved: int)
    requires d.Valid() && Balanced(d, moved) && d.stage == ProcessCbw
    ensures Balanced(Step(d, c), MovedBy(d, c, moved))
  {
    hide MemoryWrite, MemoryVerify, MemoryRead, DataIn, Disk.Valid, Wrap32, Target;
    if d.cbw.IsRead() {
      ReadBalances(d.(inFlight := if d.inFlight == 0 then 0 else d.inFlight - 1), moved);
    } else if c.Out? {
      WriteBalances(d, c.buf, moved);
      VerifyBalances(d, c.buf, moved);
    }
  }

  lemma StepBalances(d: Device, c: Callback, moved: int)
    requires d.Valid() && Balanced(d, moved)
    ensures Balanced(Step(d, c), MovedBy(d, c, moved))
  {
    hide Balanced, MemoryWrite, MemoryVerify, MemoryRead, CbwDecode, DataIn, Disk.Valid;
    if d.stage == ProcessCbw {
      PhaseBalances(d, c, moved);
    } else if d.stage == ReadCbw && c.Out? {
      DecodeBalances(d, c.buf, c.done);
    } else {
      NoDataPhase(Step(d, c));
    }
  }

  /** In every run, at every step of every data phase, for any sizes of packets. */
  lemma {:induction false} RunKeepsBalance(d: Device, cs: seq<Callback>, moved: int)
    requires d.Valid() && Balanced(d, moved) && Along(Guarded, d, cs)
    ensures Balanced(Run(d, cs), MovedIn(d, cs, moved))
    decreases |cs|
  {
    hide Step, Balanced, MovedBy, Guarded;
    if cs != [] {
      StepKeepsValid(d, cs[0]);
      StepBalances(d, cs[0], moved);
      RunKeepsBalance(Step(d, cs[0]), cs[1..], MovedBy(d, cs[0], moved));
    }
  }
}
