/**
 Memory safety of the data phases: which packets the copying and comparing loops can take, and
 which commands lead to others.
 */
module BulkOnlyBounds {
  import opened Words
  import opened Packets
  import opened Blocks
  import opened BulkOnly
  import opened BulkOnlyCommands

  /** The guard says exactly that no byte of the copy is cut off. */
  lemma CopiesWhole(d: Device, buf: seq<byte>)
    requires d.Valid()
    ensures InBounds(d, buf) <==> Landing(d.page, d.Offset(), buf, Usable(d, buf)) == Usable(d, buf)
  {
    hide Usable, Device.Offset;
    OffsetInside(d);
  }

  lemma {:induction false} ComparesFrom(page: seq<byte>, o: nat, buf: seq<byte>, n: nat, size: nat)
    requires o <= |page| && n <= Landing(page, o, buf, size)
    requires page[o..o + n] == buf[..n]
    ensures var k := Landing(page, o, buf, size);
            ComparesInside(page, o, buf, n, size) <==> k == size || page[o..o + k] != buf[..k]
    decreases size - n
  {
    var k := Landing(page, o, buf, size);
    if n < k {
      assert page[o..o + k][n] == page[o + n] && buf[..k][n] == buf[n];
      if page[o + n] == buf[n] {
        assert page[o..o + n + 1] == page[o..o + n] + [page[o + n]];
        assert buf[..n + 1] == buf[..n] + [buf[n]];
        ComparesFrom(page, o, buf, n + 1, size);
      }
    }
  }

  /** The comparing loop stays inside its buffers exactly if nothing is cut off, or it stops before. */
  lemma ComparesInsideIff(d: Device, buf: seq<byte>)
    requires d.Valid()
    ensures ComparesInside(Loaded(d), d.Offset(), buf, 0, Usable(d, buf)) <==> CompareInBounds(d, buf)
  {
    hide Usable, Loaded, InBounds, Device.Offset;
    OffsetInside(d);
    CopiesWhole(d.(page := Loaded(d)), buf);
    LandingDependsOn(d, buf);
    ComparesFrom(Loaded(d), d.Offset(), buf, 0, Usable(d, buf));
  }

  lemma LandingDependsOn(d: Device, buf: seq<byte>)
    requires d.Valid()
    ensures var r := d.(page := Loaded(d));
            && r.Offset() == d.Offset() && Usable(r, buf) == Usable(d, buf)
            && (InBounds(r, buf) <==> InBounds(d, buf))
  {
    hide Loaded;
  }

  lemma OffsetInside(d: Device)
    requires d.Valid()
    ensures d.Offset() < d.disk.blockSize == |d.page|
  {
  }

  /** What the end of the disk leaves of a packet, by where the packet starts. */
  lemma UsableCases(d: Device, buf: seq<byte>)
    requires d.Valid() && |buf| <= MAX_PACKET
    ensures Overruns(d, |buf|) <==> |d.disk.bytes| < d.addr + |buf| < 0x1_0000_0000
    ensures Usable(d, buf) ==
            if !Overruns(d, |buf|) then |buf|
            else if d.addr <= |d.disk.bytes| then |d.disk.bytes| - d.addr
            else Wrap16(|d.disk.bytes| - d.addr)
  {
    hide Overruns, Disk.Valid;
    AtLeastOnePacket(d);
    OverrunsIff(d, |buf|);
  }

  /**
   A packet that ends on the disk, or wraps around to it, is safe if and only if it does not
   straddle its block; one that runs over the end from the disk always is; one that starts behind
   the end is if and only if the 16-bit difference happens to be small enough.
   */
  lemma InBoundsIff(d: Device, buf: seq<byte>)
    requires d.Valid() && |buf| <= MAX_PACKET
    ensures InBounds(d, buf) <==>
            var end, o, size := |d.disk.bytes|, d.Offset(), d.disk.blockSize;
            if d.addr + |buf| <= end || 0x1_0000_0000 <= d.addr + |buf| then o + |buf| <= size
            else d.addr <= end || (Wrap16(end - d.addr) <= |buf| && o + Wrap16(end - d.addr) <= size)
  {
    hide Usable, Overruns, Wrap16;
    UsableCases(d, buf);
    AtLeastOnePacket(d);
    if |d.disk.bytes| < d.addr + |buf| < 0x1_0000_0000 {
      if d.addr < |d.disk.bytes| {
        InLastBlock(d.addr, d.disk.blockSize, |d.disk.bytes|);
      }
    }
  }

  // Runs of a careful host

  /**
   What a host can see to: a WRITE or VERIFY starts on the disk or right behind it, and a packet
   of its data does not straddle a block.
   */
  predicate Aimed(d: Device, c: Callback) {
    d.Valid() &&
    match c
    case In => true
    case Out(buf, _) =>
      if d.stage == ReadCbw then
        |buf| == CBW_SIZE && (ParseCbw(buf).IsWrite() || ParseCbw(buf).IsByteCheck()) ==>
          Target(d.disk, ParseCbw(buf)) <= |d.disk.bytes|
      else d.stage == ProcessCbw && !d.cbw.IsRead() ==>
        |buf| <= MAX_PACKET && d.Offset() + |buf| <= d.disk.blockSize
  }

  /** Data never goes to or comes from behind the end of the disk. */
  predicate Placed(d: Device) {
    d.stage == ProcessCbw && !d.cbw.IsRead() ==> d.addr <= |d.disk.bytes|
  }

  lemma AimedIsGuarded(d: Device, c: Callback)
    requires d.Valid() && Placed(d) && Aimed(d, c)
    ensures Guarded(d, c)
  {
    hide InBounds, Target, ParseCbw, Wrap16;
    if c.Out? && d.stage == ProcessCbw && !d.cbw.IsRead() {
      InBoundsIff(d, c.buf);
    }
  }

  lemma PacketKeepsPlaced(d: Device, buf: seq<byte>)
    requires d.Valid()
    ensures Placed(MemoryWrite(d, buf)) && Placed(MemoryVerify(d, buf))
  {
    hide FilledPage, FlushedDisk, Loaded, Matches, Wrap16;
  }

  lemma DecodeKeepsPlaced(d: Device, buf: seq<byte>, done: bool)
    requires d.Valid() && d.stage == ReadCbw && Aimed(d, Out(buf, done))
    ensures Placed(CbwDecode(d, buf, done))
  {
    hide ParseCbw, Dispatch, StartTransfer, MemoryRead, Target, LengthsAgree, Disk.Valid;
    if |buf| == CBW_SIZE && ParseCbw(buf).signature == CBW_SIGNATURE && Meaningful(ParseCbw(buf)) {
      var d1 := Accept(d, ParseCbw(buf));
      if IsTransfer(d1.cbw) {
        DispatchesTransfer(d1, done);
        TransferStarts(d1);
        if Agreed(d1.disk, d1.cbw) && d1.cbw.IsRead() {
          ReadKeepsCommand(Opened(d, buf));
        }
      } else {
        DispatchLeaves(d1, done);
      }
    }
  }

  lemma AimedStepKeepsPlaced(d: Device, c: Callback)
    requires d.Valid() && Placed(d) && Aimed(d, c)
    ensures Placed(Step(d, c))
  {
    hide MemoryWrite, MemoryVerify, MemoryRead, CbwDecode;
    if c.Out? {
      PacketKeepsPlaced(d, c.buf);
      if d.stage == ReadCbw {
        DecodeKeepsPlaced(d, c.buf, c.done);
      }
    } else {
      ReadKeepsCommand(d.(inFlight := if d.inFlight == 0 then 0 else d.inFlight - 1));
    }
  }

  lemma ReadKeepsCommand(d: Device)
    requires d.Valid()
    ensures MemoryRead(d).cbw == d.cbw
  {
  }

  /** In every run of a host that starts its transfers on the disk, no loop leaves its buffers. */
  lemma {:induction false} AimedRunsAreGuarded(d: Device, cs: seq<Callback>)
    requires d.Valid() && Placed(d) && Along(Aimed, d, cs)
    ensures Along(Guarded, d, cs)
    decreases |cs|
  {
    hide Step, Placed, Aimed, Guarded;
    if cs != [] {
      StepKeepsValid(d, cs[0]);
      AimedIsGuarded(d, cs[0]);
      AimedStepKeepsPlaced(d, cs[0]);
      AimedRunsAreGuarded(Step(d, cs[0]), cs[1..]);
    }
  }

  // The condition on a command

  /**
   Where a transfer of full packets can start without a loop leaving its buffers: on the disk,
   a packet before the end of the address space, or where the 16-bit difference to the end of the
   disk is a packet at most.
   */
  predicate InReach(disk: Disk, start: uint32) {
    start <= |disk.bytes| || start + MAX_PACKET == 0x1_0000_0000 || Wrap16(|disk.bytes| - start) <= MAX_PACKET
  }

  /** A full packet from a packet boundary on. */
  lemma FullPacketInBoundsIff(d: Device, buf: seq<byte>)
    requires d.Valid() && d.addr % MAX_PACKET == 0 && |buf| == MAX_PACKET
    ensures InBounds(d, buf) <==> InReach(d.disk, d.addr)
  {
    hide InBounds, Wrap16;
    InBoundsIff(d, buf);
    RoomForPacket(d);
    WholePackets(d);
    if d.addr < |d.disk.bytes| {
      FullPacketLeft(d.addr, |d.disk.bytes|);
    }
  }

  lemma WholePackets(d: Device)
    requires d.Valid()
    ensures |d.disk.bytes| % MAX_PACKET == 0 && |d.disk.bytes| < 0x1_0000_0000 - MAX_PACKET
  {
    BlocksAreWholePackets(|d.disk.bytes|, d.disk.blockSize);
  }

  /** What holds between full packets: the data stays within reach, or the transfer is over. */
  predicate KeptInReach(d: Device) {
    && d.stage in {ProcessCbw, WaitCsw} && !d.cbw.IsRead()
    && (d.stage == ProcessCbw ==> d.addr % MAX_PACKET == 0 && InReach(d.disk, d.addr))
  }

  lemma PacketKeepsInReach(d: Device, buf: seq<byte>)
    requires d.Valid() && d.stage == ProcessCbw && !d.cbw.IsRead() && d.addr % MAX_PACKET == 0
    requires |buf| == MAX_PACKET
    ensures KeptInReach(MemoryWrite(d, buf)) && KeptInReach(MemoryVerify(d, buf))
  {
    hide FilledPage, FlushedDisk, Loaded, Matches, Wrap16, Disk.Valid;
    NextAligned(d.addr);
  }

  lemma StepKeepsInReach(d: Device, p: seq<byte>, done: bool)
    requires d.Valid() && KeptInReach(d) && |p| == MAX_PACKET
    ensures KeptInReach(Step(d, Out(p, done)))
  {
    hide MemoryWrite, MemoryVerify, InReach, Disk.Valid;
    if d.stage == ProcessCbw {
      PacketKeepsInReach(d, p);
    }
  }

  predicate AllFull(packets: seq<seq<byte>>) {
    packets != [] ==> |packets[0]| == MAX_PACKET && AllFull(packets[1..])
  }

  lemma {:induction false} InReachIsGuarded(d: Device, packets: seq<seq<byte>>, done: bool)
    requires d.Valid() && KeptInReach(d) && AllFull(packets)
    ensures Along(Guarded, d, Outs(packets, done))
    decreases |packets|
  {
    hide Step, InBounds, Outs, InReach, Matches, Loaded, MemoryWrite, MemoryVerify;
    NoOuts(done);
    if packets != [] {
      var p := packets[0];
      RunFirst(d, packets, done);
      OutsFirst(packets, done);
      if d.stage == ProcessCbw {
        FullPacketInBoundsIff(d, p);
      }
      StepKeepsInReach(d, p, done);
      InReachIsGuarded(Step(d, Out(p, done)), packets[1..], done);
    }
  }

  lemma OutsFirst(packets: seq<seq<byte>>, done: bool)
    requires packets != []
    ensures Outs(packets, done) == [Out(packets[0], done)] + Outs(packets[1..], done)
  {
  }

  /** Behind the end the page is what it was, and a full packet is compared to it from its offset on. */
  lemma ComparesStalePage(d: Device, buf: seq<byte>)
    requires d.Valid() && d.addr % MAX_PACKET == 0 && |buf| == MAX_PACKET && !InReach(d.disk, d.addr)
    ensures d.Offset() + MAX_PACKET <= |d.page|
    ensures Matches(d, Loaded(d), buf) <==> d.page[d.Offset()..d.Offset() + MAX_PACKET] == buf
  {
    hide Usable, Overruns, Wrap16, Disk.Valid;
    RoomForPacket(d);
    Bounds(d);
    AtLeastOnePacket(d);
    UsableCases(d, buf);
    BlockStart(d.addr, d.disk.blockSize);
    assert Loaded(d) == d.page;
    assert buf[..MAX_PACKET] == buf;
  }

  /** The guard of a full packet from a packet boundary on, for the copying and for the comparing loop. */
  lemma FullPacketGuardedIff(d: Device, buf: seq<byte>, done: bool)
    requires d.Valid() && d.stage == ProcessCbw && (d.cbw.IsWrite() || d.cbw.IsByteCheck())
    requires d.addr % MAX_PACKET == 0 && |buf| == MAX_PACKET
    ensures d.Offset() + MAX_PACKET <= |d.page|
    ensures d.cbw.IsWrite() ==> (Guarded(d, Out(buf, done)) <==> InReach(d.disk, d.addr))
    ensures d.cbw.IsByteCheck() ==>
      (Guarded(d, Out(buf, done)) <==>
         InReach(d.disk, d.addr) || d.page[d.Offset()..d.Offset() + MAX_PACKET] != buf)
  {
    hide InBounds, InReach, Matches, Loaded, Disk.Valid;
    RoomForPacket(d);
    OffsetInside(d);
    FullPacketInBoundsIff(d, buf);
    if !InReach(d.disk, d.addr) {
      ComparesStalePage(d, buf);
    }
  }

  /** The first packet decides: behind it the data is within reach, or the transfer is over. */
  lemma GuardedIffFirstIs(d: Device, packets: seq<seq<byte>>, done: bool)
    requires d.Valid() && d.stage == ProcessCbw && !d.cbw.IsRead() && d.addr % MAX_PACKET == 0
    requires d.cbw.IsWrite() || d.cbw.Op() == VERIFY10
    requires AllFull(packets) && packets != []
    ensures Along(Guarded, d, Outs(packets, done)) <==> Guarded(d, Out(packets[0], done))
  {
    hide Step, Guarded, Outs, InReach;
    var p := packets[0];
    OutsFirst(packets, done);
    FirstKeepsInReach(d, p, done);
    InReachIsGuarded(Step(d, Out(p, done)), packets[1..], done);
    assert Outs(packets, done)[0] == Out(p, done) && Outs(packets, done)[1..] == Outs(packets[1..], done);
  }

  lemma FirstKeepsInReach(d: Device, p: seq<byte>, done: bool)
    requires d.Valid() && d.stage == ProcessCbw && !d.cbw.IsRead() && d.addr % MAX_PACKET == 0
    requires (d.cbw.IsWrite() || d.cbw.Op() == VERIFY10) && |p| == MAX_PACKET
    ensures Step(d, Out(p, done)).Valid() && KeptInReach(Step(d, Out(p, done)))
  {
    StepKeepsValid(d, Out(p, done));
    hide MemoryWrite, MemoryVerify, InReach, Disk.Valid;
    PacketKeepsInReach(d, p);
  }

  /**
   A WRITE or VERIFY that gets its data phase, and any full packets after it: the loops stay inside
   their buffers all the way if and only if the transfer starts within reach or, for VERIFY, the
   first packet differs from what the page holds at the offset of the start.
   */
  lemma TransferInBoundsIff(d: Device, packet: seq<byte>, packets: seq<seq<byte>>, done: bool)
    requires Receives(d, packet) && AllFull(packets) && packets != []
    requires var c := ParseCbw(packet); Agreed(d.disk, c) && !c.IsRead()
    ensures var c, cs := ParseCbw(packet), [Out(packet, done)] + Outs(packets, done);
            var start, o := Target(d.disk, c), Opened(d, packet).Offset();
            && o + MAX_PACKET <= |d.page|
            && (c.IsWrite() ==> (Along(Guarded, d, cs) <==> InReach(d.disk, start)))
            && (c.IsByteCheck() ==>
                  (Along(Guarded, d, cs) <==>
                     InReach(d.disk, start) || d.page[o..o + MAX_PACKET] != packets[0]))
  {
    hide Step, ParseCbw, Target, InReach, Guarded, LengthsAgree, Disk.Valid, Outs;
    var c, r, cs := ParseCbw(packet), Opened(d, packet), [Out(packet, done)] + Outs(packets, done);
    TransferOpensIff(d, packet, done);
    TargetOnPacket(d.disk, c);
    WaitsAreGuarded(d, packet, done);
    assert cs[0] == Out(packet, done) && cs[1..] == Outs(packets, done);
    GuardedIffFirstIs(r, packets, done);
    FullPacketGuardedIff(r, packets[0], done);
  }

  lemma WaitsAreGuarded(d: Device, packet: seq<byte>, done: bool)
    requires d.Valid() && d.stage != ProcessCbw
    ensures Guarded(d, Out(packet, done))
  {
  }

  lemma UsesTooMuch(d: Device, buf: seq<byte>)
    requires d.Valid() && d.addr == 128
    requires d.disk.blockSize == |d.disk.bytes| == MAX_PACKET == |buf|
    ensures Usable(d, buf) == 65472 && !InReach(d.disk, 128) && d.Offset() == 0
  {
    hide Usable, Overruns, Disk.Valid;
    UsableCases(d, buf);
  }

  /**
   Commands a host can send to a disk of one block of 64 bytes: the device accepts them and expects
   data, and then uses 65472 bytes of a packet of 64. The copying loop of WRITE leaves its buffers
   on any packet, the comparing loop of VERIFY on the one that is what the page holds.
   */
  lemma TransferBehindTheEnd(d: Device, op: byte, tag: uint32, buf: seq<byte>, done: bool)
    requires d.Valid() && d.stage == ReadCbw && op in {WRITE10, VERIFY10}
    requires d.disk.blockSize == |d.disk.bytes| == MAX_PACKET == |buf|
    ensures var r := Step(d, Out(EncodeCbw(SecondBlock(op, tag)), done));
            && r.Valid() && r.stage == ProcessCbw && r.log == d.log + [Accepted(tag)]
            && Usable(r, buf) == 65472
            && (Guarded(r, Out(buf, done)) <==> op == VERIFY10 && buf != d.page)
  {
    hide EncodeCbw, ParseCbw, SecondBlock, Step, Usable, Guarded, InReach, Agreed, Target, Meaningful, Disk.Valid;
    SecondBlockMeans(d.disk, op, tag);
    TransferOpensIff(d, EncodeCbw(SecondBlock(op, tag)), done);
    var r := Opened(d, EncodeCbw(SecondBlock(op, tag)));
    UsesTooMuch(r, buf);
    FullPacketGuardedIff(r, buf, done);
    assert r.page[0..MAX_PACKET] == d.page;
  }
}
