/** Progress: which commands a host gets the CSW of by collecting what the device queues. */
module BulkOnlyProgress {
  import opened Words
  import opened Packets
  import opened Blocks
  import opened BulkOnly
  import opened BulkOnlyCommands
  import opened BulkOnlySafety
  import opened BulkOnlyRead

  /** The last thing sent is the CSW of a command. */
  predicate Reports(d: Device, tag: uint32) {
    d.stage == WaitCsw && d.log != [] && d.log[|d.log| - 1].Reported? && d.log[|d.log| - 1].csw.tag == tag
  }

  /** `n` collections, each of a packet that has been queued, bring the CSW. */
  ghost predicate Answered(d: Device, n: nat, tag: uint32)
    requires d.Valid()
  {
    Along(Disciplined, d, Ins(n)) && Reports(Run(d, Ins(n)), tag)
  }

  ghost predicate GetsAnswer(d: Device, tag: uint32)
    requires d.Valid()
  {
    exists n: nat :: Answered(d, n, tag)
  }

  lemma AnsweredNow(d: Device, tag: uint32)
    requires d.Valid() && Reports(d, tag)
    ensures GetsAnswer(d, tag)
  {
    assert Answered(d, 0, tag);
  }

  lemma CollectFirst(d: Device, n: nat)
    requires d.Valid() && 0 < n
    ensures InCallback(d).Valid()
    ensures Along(Disciplined, d, Ins(n)) <==> d.inFlight > 0 && Along(Disciplined, InCallback(d), Ins(n - 1))
    ensures Run(d, Ins(n)) == Run(InCallback(d), Ins(n - 1))
  {
    hide InCallback, Run, Step;
    CollectOne(d, n);
    StepIn(d);
    assert Ins(n)[0] == In && Ins(n)[1..] == Ins(n - 1);
  }

  lemma StepIn(d: Device)
    requires d.Valid()
    ensures Step(d, In) == InCallback(d)
  {
    hide InCallback;
  }

  lemma AnsweredLater(d: Device, tag: uint32)
    requires d.Valid() && d.inFlight > 0 && InCallback(d).Valid() && GetsAnswer(InCallback(d), tag)
    ensures GetsAnswer(d, tag)
  {
    hide InCallback, Run, Reports;
    var n: nat :| Answered(InCallback(d), n, tag);
    CollectFirst(d, n + 1);
    assert Answered(d, n + 1, tag);
  }

  /** With nothing queued there is nothing to collect. */
  lemma NothingToCollect(d: Device, tag: uint32)
    requires d.Valid() && d.inFlight == 0 && d.stage != WaitCsw
    ensures !GetsAnswer(d, tag)
  {
    hide InCallback;
    forall n: nat | Answered(d, n, tag)
      ensures false
    {
      if n > 0 {
        CollectFirst(d, n);
      }
    }
  }

  lemma StatusIsNext(d: Device)
    requires d.Valid() && d.stage in {SendCsw, Error} && d.inFlight > 0
    ensures GetsAnswer(d, d.csw.tag)
  {
    StepKeepsValid(d, In);
    AnsweredNow(InCallback(d), d.csw.tag);
    hide Run;
    AnsweredLater(d, d.csw.tag);
  }

  // Reading

  /** An address behind the end of the disk that does not wrap around to it. */
  predicate Behind(disk: Disk, addr: uint32) {
    |disk.bytes| < addr < 0x1_0000_0000 - MAX_PACKET
  }

  /** What a READ has left to do, packet by packet. */
  predicate Whole(addr: uint32, length: uint32) {
    addr % MAX_PACKET == 0 && 0 < length && length % MAX_PACKET == 0
  }

  /** A READ waiting for a packet to be collected. */
  predicate Underway(d: Device) {
    && d.Valid() && d.stage == ProcessCbw && d.cbw.IsRead()
    && d.inFlight == 1 && d.addr <= |d.disk.bytes| && Whole(d.addr, d.length)
  }

  /** Where a full packet does not fit any more, an empty one or none at all is what is left. */
  lemma ReadSizes(d: Device)
    requires d.Valid() && Wanted(d) == MAX_PACKET
    ensures Behind(d.disk, d.addr) ==> Overruns(d, MAX_PACKET) && ReadSize(d) > MAX_PACKET
    ensures !Behind(d.disk, d.addr) && Overruns(d, MAX_PACKET) ==> ReadSize(d) <= MAX_PACKET
    ensures !Overruns(d, MAX_PACKET) ==>
      ReadSize(d) == MAX_PACKET && Wrap32(d.addr + MAX_PACKET) <= |d.disk.bytes|
  {
    hide Wanted, Overruns, Disk.Valid;
    Bounds(d);
    OverrunsIff(d, MAX_PACKET);
  }

  lemma WholeNext(addr: uint32, length: uint32)
    requires Whole(addr, length)
    ensures length >= MAX_PACKET
    ensures Wrap32(length - MAX_PACKET) == length - MAX_PACKET
    ensures length > MAX_PACKET ==> Whole(Wrap32(addr + MAX_PACKET), length - MAX_PACKET)
  {
  }

  /** A READ from an address that is not behind the end queues a packet, and stays in step. */
  lemma ReadQueues(d: Device)
    requires d.Valid() && d.stage == ProcessCbw && d.cbw.IsRead() && d.inFlight == 0 && Whole(d.addr, d.length)
    requires !Behind(d.disk, d.addr)
    ensures var r := MemoryRead(d);
            && r.Valid() && r.inFlight == 1 && r.csw.tag == d.csw.tag
            && (r.stage in {SendCsw, Error} || (Underway(r) && r.length < d.length))
  {
    hide Wrap32, Loaded, ReadPacket, ReadSize, Overruns, Behind, Whole, Disk.Valid;
    WholeNext(d.addr, d.length);
    ReadSizes(d);
  }

  /** A READ from behind the end queues nothing and reports nothing. */
  lemma ReadSticks(d: Device)
    requires d.Valid() && d.stage == ProcessCbw && Whole(d.addr, d.length) && Behind(d.disk, d.addr)
    ensures var r := MemoryRead(d);
            r.Valid() && r.stage == Error && r.inFlight == d.inFlight && r.log == d.log
  {
    hide Wrap32, Loaded, ReadPacket, ReadSize, Overruns, Disk.Valid;
    WholeNext(d.addr, d.length);
    ReadSizes(d);
  }

  lemma {:induction false} ReadIsAnswered(d: Device)
    requires Underway(d)
    ensures GetsAnswer(d, d.csw.tag)
    decreases d.length
  {
    hide MemoryRead, GetsAnswer, InCallback, Whole, Disk.Valid;
    CollectReads(d);
    ReadQueues(d.(inFlight := 0));
    var r := InCallback(d);
    if r.stage in {SendCsw, Error} {
      StatusIsNext(r);
    } else {
      ReadIsAnswered(r);
    }
    AnsweredLater(d, d.csw.tag);
  }

  // Commands

  /** The command is a READ that starts behind the end of the disk. */
  predicate ReadsBehind(disk: Disk, c: Cbw) {
    Agreed(disk, c) && c.IsRead() && Behind(disk, Target(disk, c))
  }

  /** The command is waiting for its data. */
  predicate AwaitsData(disk: Disk, c: Cbw) {
    Agreed(disk, c) && !c.IsRead()
  }

  lemma OpensWhole(d: Device, packet: seq<byte>)
    requires Receives(d, packet) && Agreed(d.disk, ParseCbw(packet))
    ensures Whole(Opened(d, packet).addr, Opened(d, packet).length)
  {
    hide ParseCbw, Cbw.FirstBlock, Cbw.BlockCount;
    var c := ParseCbw(packet);
    TargetOnPacket(d.disk, c);
    TargetAligned(c.BlockCount(), d.disk.blockSize);
  }

  lemma TransferProgress(d: Device, packet: seq<byte>, done: bool)
    requires Receives(d, packet) && d.inFlight == 0 && IsTransfer(ParseCbw(packet))
    ensures var c, r := ParseCbw(packet), Step(d, Out(packet, done));
            r.Valid() && (GetsAnswer(r, c.tag) <==> !ReadsBehind(d.disk, c) && !AwaitsData(d.disk, c))
  {
    hide Step, ParseCbw, MemoryRead, GetsAnswer, LengthsAgree, Target, Behind, Whole, Disk.Valid;
    var c, r := ParseCbw(packet), Step(d, Out(packet, done));
    StepKeepsValid(d, Out(packet, done));
    TransferOpensIff(d, packet, done);
    if !Agreed(d.disk, c) {
      AnsweredNow(r, c.tag);
    } else if !c.IsRead() {
      NothingToCollect(r, c.tag);
    } else {
      OpensWhole(d, packet);
      var d1 := Opened(d, packet);
      if Behind(d.disk, d1.addr) {
        ReadSticks(d1);
        NothingToCollect(r, c.tag);
      } else {
        ReadQueues(d1);
        if r.stage in {SendCsw, Error} {
          StatusIsNext(r);
        } else {
          ReadIsAnswered(r);
        }
      }
    }
  }

  lemma OtherProgress(d: Device, packet: seq<byte>, done: bool)
    requires Receives(d, packet) && d.inFlight == 0 && !IsTransfer(ParseCbw(packet))
    ensures var c, r := ParseCbw(packet), Step(d, Out(packet, done));
            r.Valid() && GetsAnswer(r, c.tag)
  {
    hide ParseCbw, GetsAnswer, StartTransfer, Answer;
    var c, r := ParseCbw(packet), Step(d, Out(packet, done));
    StepKeepsValid(d, Out(packet, done));
    if IsReply(c) {
      AnswerSize(Accept(d, c));
      StatusIsNext(r);
    } else {
      AnsweredNow(r, c.tag);
    }
  }

  /**
   A command accepted by a device with nothing in flight: the host gets its CSW by collecting
   what is queued, however little that is, if and only if the command does not wait for data
   from the host and is no READ from behind the end of the disk. That one queues nothing and
   leaves the host waiting.
   */
  lemma CommandIsAnsweredIff(d: Device, packet: seq<byte>, done: bool)
    requires Receives(d, packet) && d.inFlight == 0
    ensures var c, r := ParseCbw(packet), Step(d, Out(packet, done));
            r.Valid() && (GetsAnswer(r, c.tag) <==> !ReadsBehind(d.disk, c) && !AwaitsData(d.disk, c))
  {
    hide Step, ParseCbw, GetsAnswer, IsTransfer, Disk.Valid;
    if IsTransfer(ParseCbw(packet)) {
      TransferProgress(d, packet, done);
    } else {
      OtherProgress(d, packet, done);
    }
  }

  /**
   A READ(10) a host can send to a disk of one block of 64 bytes: it is accepted, nothing is sent
   or reported, and no collecting of what is queued leads to a CSW.
   */
  lemma ReadBehindTheEnd(d: Device, tag: uint32, done: bool)
    requires d.Valid() && d.stage == ReadCbw && d.inFlight == 0
    requires d.disk.blockSize == |d.disk.bytes| == MAX_PACKET
    ensures var r := Step(d, Out(EncodeCbw(SecondBlock(READ10, tag)), done));
            && r.Valid() && r.stage == Error && r.inFlight == 0 && r.log == d.log + [Accepted(tag)]
            && !GetsAnswer(r, tag)
  {
    hide EncodeCbw, ParseCbw, SecondBlock, Step, MemoryRead, GetsAnswer, Agreed, Target, Meaningful, Disk.Valid;
    var packet := EncodeCbw(SecondBlock(READ10, tag));
    SecondBlockMeans(d.disk, READ10, tag);
    TransferOpensIff(d, packet, done);
    OpensWhole(d, packet);
    ReadSticks(Opened(d, packet));
    CommandIsAnsweredIff(d, packet, done);
  }

  // Runs

  /** A READ in progress has whole packets to send, and a read that failed has sent something. */
  predicate InStep(d: Device) {
    && (d.stage == ProcessCbw && d.cbw.IsRead() ==> d.addr <= |d.disk.bytes| && Whole(d.addr, d.length))
    && (d.stage == Error ==> d.inFlight == 1)
  }

  /** A host that does not read from behind the end of the disk. */
  predicate ReadsAimed(d: Device, c: Callback) {
    d.Valid() && (c.Out? && Receives(d, c.buf) ==> !ReadsBehind(d.disk, ParseCbw(c.buf)))
  }

  lemma CommandStaysInStep(d: Device, packet: seq<byte>, done: bool)
    requires Receives(d, packet) && d.inFlight == 0 && !ReadsBehind(d.disk, ParseCbw(packet))
    ensures InStep(Step(d, Out(packet, done)))
  {
    hide Step, Dispatch, ParseCbw, MemoryRead, LengthsAgree, Target, Behind, Whole, Disk.Valid;
    var c := ParseCbw(packet);
    if IsTransfer(c) {
      TransferOpensIff(d, packet, done);
      if Agreed(d.disk, c) && c.IsRead() {
        OpensWhole(d, packet);
        ReadQueues(Opened(d, packet));
      }
    } else {
      Decodes(d, packet, done);
      DispatchLeaves(Accept(d, c), done);
    }
  }

  lemma PacketStaysInStep(d: Device, buf: seq<byte>)
    requires d.Valid() && d.stage == ProcessCbw && !d.cbw.IsRead()
    ensures InStep(MemoryWrite(d, buf)) && InStep(MemoryVerify(d, buf))
  {
    hide FilledPage, FlushedDisk, Loaded, Matches, Usable, Overruns, Wrap32, Disk.Valid;
  }

  lemma NoCommandStaysInStep(d: Device, packet: seq<byte>, done: bool)
    requires d.Valid() && d.stage == ReadCbw && !Receives(d, packet)
    ensures InStep(Step(d, Out(packet, done)))
  {
    hide ParseCbw, Dispatch, Disk.Valid;
  }

  lemma StaysInStep(d: Device, c: Callback)
    requires Settled(d, true) && InStep(d) && Disciplined(d, c) && ReadsAimed(d, c)
    ensures InStep(Step(d, c))
  {
    hide CbwDecode, MemoryWrite, MemoryVerify, MemoryRead, ParseCbw, ReadsBehind, Behind, Scan, Whole, Disk.Valid;
    if d.stage == ReadCbw {
      if Receives(d, c.buf) {
        CommandStaysInStep(d, c.buf, c.done);
      } else {
        NoCommandStaysInStep(d, c.buf, c.done);
      }
    } else if d.stage == ProcessCbw {
      if !d.cbw.IsRead() {
        PacketStaysInStep(d, c.buf);
      } else if c.In? {
        NotBehind(d.disk, d.addr);
        ReadQueues(d.(inFlight := 0));
      }
    }
  }

  lemma NotBehind(disk: Disk, addr: uint32)
    ensures addr <= |disk.bytes| ==> !Behind(disk, addr)
  {
  }

  lemma {:induction false} RunStaysInStep(d: Device, cs: seq<Callback>)
    requires d.Valid() && Settled(d, true) && InStep(d)
    requires Along(Disciplined, d, cs) && Along(ReadsAimed, d, cs)
    ensures Settled(Run(d, cs), true) && InStep(Run(d, cs))
    decreases |cs|
  {
    hide Step, Settled, InStep, Disciplined, ReadsAimed;
    if cs != [] {
      StepKeepsValid(d, cs[0]);
      StepSettles(d, cs[0], true);
      StaysInStep(d, cs[0]);
      RunStaysInStep(Step(d, cs[0]), cs[1..]);
    }
  }

  /**
   In every run of a host that keeps to the protocol and does not read from behind the end:
   whenever the device has something to send, collecting it leads to the CSW that is owed.
   */
  lemma OwedIsAnswered(d: Device, cs: seq<Callback>)
    requires Fresh(d) && Along(Disciplined, d, cs) && Along(ReadsAimed, d, cs) && Along(Guarded, d, cs)
    ensures var r := Run(d, cs);
            r.stage in {SendCsw, Error} || (r.stage == ProcessCbw && r.cbw.IsRead()) ==>
              GetsAnswer(r, r.csw.tag)
  {
    hide Run, GetsAnswer, Whole;
    RunStaysInStep(d, cs);
    var r := Run(d, cs);
    if r.stage == ProcessCbw && r.cbw.IsRead() {
      ReadIsAnswered(r);
    } else if r.stage in {SendCsw, Error} {
      StatusIsNext(r);
    }
  }
}
