/**
 Commands with a data phase: how one opens, and what every packet of it keeps, whichever way
 the data goes.
 */
module BulkOnlyCommands {
  import opened Words
  import opened Packets
  import opened Blocks
  import opened BulkOnly

  lemma WriteBlockAt(disk: Disk, addr: nat, page: seq<byte>)
    requires 0 < disk.blockSize == |page|
    requires addr - addr % disk.blockSize + |page| <= |disk.bytes|
    ensures disk.WriteBlock(addr / disk.blockSize, page)
         == disk.(bytes := Replace(disk.bytes, addr - addr % disk.blockSize, page))
  {
    BlockStart(addr, disk.blockSize);
  }

  lemma ReadBlockAt(disk: Disk, addr: nat, page: seq<byte>)
    requires 0 < disk.blockSize && addr - addr % disk.blockSize + disk.blockSize <= |disk.bytes|
    ensures var start := addr - addr % disk.blockSize;
            disk.ReadBlock(addr / disk.blockSize, page) == disk.bytes[start..start + disk.blockSize]
  {
    BlockStart(addr, disk.blockSize);
  }

  /** A block is not empty, and every address a data phase uses fits a word. */
  lemma Bounds(d: Device)
    requires d.Valid()
    ensures 0 < d.disk.blockSize && |d.disk.bytes| + MAX_PACKET < 0x1_0000_0000
  {
  }

  /** A packet runs over the end of the disk unless its end wraps around to the beginning. */
  lemma OverrunsIff(d: Device, n: nat)
    requires d.Valid() && n <= MAX_PACKET
    ensures Overruns(d, n) <==> |d.disk.bytes| < d.addr + n < 0x1_0000_0000
    ensures !Overruns(d, n) ==> Wrap32(d.addr + n) <= |d.disk.bytes|
  {
    AtLeastOnePacket(d);
  }

  lemma AtLeastOnePacket(d: Device)
    requires d.Valid()
    ensures MAX_PACKET <= d.disk.blockSize <= |d.disk.bytes| < 0x1_0000_0000 - MAX_PACKET
  {
    BlockInside(0, d.disk.blockSize, |d.disk.bytes|);
  }

  /** A packet that is not full is the last one. */
  lemma WholePacketUnlessLast(d: Device)
    ensures Wrap32(d.length - Wanted(d)) != 0 ==> Wanted(d) == MAX_PACKET
  {
  }

  /** Packets, empty ones among them or not, that stay inside a block, from `addr` on. */
  predicate Fit(addr: nat, size: nat, packets: seq<seq<byte>>)
    requires 0 < size
    decreases |packets|
  {
    packets != [] ==>
      && |packets[0]| <= MAX_PACKET
      && addr % size + |packets[0]| <= size
      && Fit(addr + |packets[0]|, size, packets[1..])
  }

  predicate NoneEmpty(packets: seq<seq<byte>>) {
    packets != [] ==> packets[0] != [] && NoneEmpty(packets[1..])
  }

  lemma EndsRest(packets: seq<seq<byte>>)
    requires packets != [] && Ends(packets)
    ensures Ends(packets[1..])
  {
  }

  lemma {:induction false} ChunksEnd(s: seq<byte>)
    ensures Ends(Chunks(s))
  {
    ChunkSizes(s);
  }

  /** Packets that end with data, of which only the first moves any, are one packet. */
  lemma NothingLeft(packets: seq<seq<byte>>)
    requires packets != [] && Ends(packets) && Concat(packets[1..]) == []
    ensures packets == [packets[0]] && Concat(packets) == packets[0]
  {
    if |packets| > 1 {
      EndsRest(packets);
      LastMoves(packets[1..]);
    }
  }

  /** Cutting the data into full packets is one way to make them fit. */
  lemma {:induction false} ChunksFit(addr: nat, size: nat, data: seq<byte>)
    requires 0 < size && size % MAX_PACKET == 0 && addr % MAX_PACKET == 0
    ensures Fit(addr, size, Chunks(data))
    decreases |data|
  {
    PacketAligned(addr, size);
    if |data| > MAX_PACKET {
      ChunksFit(addr + MAX_PACKET, size, data[MAX_PACKET..]);
      assert Chunks(data)[1..] == Chunks(data[MAX_PACKET..]);
    }
  }

  /** The packets arriving one after the other. */
  function Outs(packets: seq<seq<byte>>, done: bool): seq<Callback> {
    seq(|packets|, i requires 0 <= i < |packets| => Out(packets[i], done))
  }

  lemma NoOuts(done: bool)
    ensures Outs([], done) == []
  {
  }

  lemma RunFirst(d: Device, packets: seq<seq<byte>>, done: bool)
    requires d.Valid() && packets != []
    ensures Step(d, Out(packets[0], done)).Valid()
    ensures Run(d, Outs(packets, done)) == Run(Step(d, Out(packets[0], done)), Outs(packets[1..], done))
  {
    StepKeepsValid(d, Out(packets[0], done));
    hide Step;
    assert Outs(packets, done)[1..] == Outs(packets[1..], done);
  }

  /** Where a data phase stands after `moved` bytes of a transfer of `total` bytes from `start`. */
  predicate Moving(d: Device, start: nat, total: nat, moved: nat) {
    && d.Valid() && d.stage == ProcessCbw
    && start % d.disk.blockSize == 0
    && moved <= total && start + moved <= |d.disk.bytes|
    && d.addr == start + moved
    && d.length == d.csw.residue == total - moved
  }

  /** Inside the disk no 32-bit counter wraps. */
  lemma AdvanceMoves(d: Device, start: nat, total: nat, moved: nat, n: nat)
    requires Moving(d, start, total, moved)
    requires moved + n <= total && start + moved + n <= |d.disk.bytes|
    ensures Moving(Advance(d, n), start, total, moved + n)
  {
  }

  /** Everything about a device that a packet in the middle of a data phase leaves alone. */
  predicate Undisturbed(d: Device, r: Device) {
    r.log == d.log && r.cbw == d.cbw && r.csw.tag == d.csw.tag && r.inFlight == d.inFlight
  }

  /** The data phase is over: the CSW is the one thing sent since `d`. */
  predicate Concluded(d: Device, r: Device, residue: uint32, status: Status) {
    r.stage == WaitCsw && r.log == d.log + [Reported(Csw(d.csw.tag, residue, status))]
  }

  lemma UsedWhole(d: Device, p: seq<byte>)
    requires d.Valid() && |p| <= MAX_PACKET && d.addr + |p| <= |d.disk.bytes|
    ensures Usable(d, p) == |p| && !Overruns(d, |p|)
  {
  }

  lemma UsedNothing(d: Device, p: seq<byte>)
    requires d.Valid() && 0 < |p| <= MAX_PACKET && d.addr == |d.disk.bytes|
    ensures Overruns(d, |p|) && Usable(d, p) == 0
  {
  }

  /** A device waiting for a command, and a packet that holds a meaningful one. */
  predicate Receives(d: Device, packet: seq<byte>) {
    d.Valid() && d.stage == ReadCbw && |packet| == CBW_SIZE && Meaningful(ParseCbw(packet))
  }

  /** Which packets those are: 31 bytes that begin with the signature, and a command block of legal length. */
  lemma ReceivesIff(d: Device, packet: seq<byte>)
    ensures Receives(d, packet) <==>
              && d.Valid() && d.stage == ReadCbw && |packet| == 31
              && packet[..4] == [0x55, 0x53, 0x42, 0x43] && 1 <= packet[14] <= 16
  {
    hide Disk.Valid;
    if |packet| == CBW_SIZE {
      SignatureBytes(packet[..4]);
    }
  }

  lemma SignatureBytes(s: seq<byte>)
    requires |s| == 4
    ensures Le32(s) == CBW_SIGNATURE <==> s == [0x55, 0x53, 0x42, 0x43]
  {
  }

  /**
   What its bytes say (section 5.1 of Bulk-Only Transport 1.0, and the command blocks of the disk
   commands): from byte 15 on the operation, its flags, the first block and the number of blocks.
   */
  lemma CommandFields(packet: seq<byte>)
    requires |packet| == 31
    ensures var c, op := ParseCbw(packet), packet[15];
            && c.Op() == op && (c.In() <==> packet[12] >= 0x80)
            && (c.IsRead() <==> op == 0x28 || op == 0xA8)
            && (c.IsWrite() <==> op == 0x2A || op == 0xAA)
            && (c.IsByteCheck() <==> op == 0x2F && packet[16] % 4 >= 2)
            && c.tag == Le32(packet[4..8]) && c.dataLength == Le32(packet[8..12])
            && c.FirstBlock() == Be32(packet[17..21])
            && c.BlockCount() == if op == 0xA8 || op == 0xAA then Be32(packet[21..25]) else Be16(packet[22..24])
  {
    assert packet[15..][2..6] == packet[17..21] && packet[15..][6..10] == packet[21..25];
    assert packet[15..][7..9] == packet[22..24];
  }

  function Start(disk: Disk, c: Cbw): nat
    requires disk.Valid()
  {
    MultipleAligned(c.FirstBlock(), disk.blockSize, c.FirstBlock() * disk.blockSize);
    c.FirstBlock() * disk.blockSize
  }

  /** The command starts on the disk, or right behind it, and announces the length it needs. */
  predicate Starts(disk: Disk, c: Cbw)
    requires disk.Valid()
  {
    && Start(disk, c) <= |disk.bytes|
    && 0 < c.dataLength == c.BlockCount() * disk.blockSize
  }

  predicate InRange(disk: Disk, c: Cbw)
    requires disk.Valid()
  {
    Starts(disk, c) && Start(disk, c) + c.dataLength <= |disk.bytes|
  }

  lemma StartsAligned(disk: Disk, c: Cbw)
    requires disk.Valid() && Starts(disk, c)
    ensures Start(disk, c) % disk.blockSize == 0
    ensures (Start(disk, c) + c.dataLength) % disk.blockSize == 0
  {
    hide Cbw.FirstBlock, Cbw.BlockCount;
    var size, p, q := disk.blockSize, c.FirstBlock(), c.BlockCount();
    MultipleAligned(p, size, Start(disk, c));
    SumOfMultiples(p, q, size, Start(disk, c), c.dataLength);
  }

  lemma StartsOnPackets(disk: Disk, c: Cbw)
    requires disk.Valid() && Starts(disk, c)
    ensures Start(disk, c) % MAX_PACKET == 0 && c.dataLength % MAX_PACKET == 0
    ensures (|disk.bytes| - Start(disk, c)) % MAX_PACKET == 0
  {
    hide Start, Starts;
    StartsAligned(disk, c);
    BlocksAreWholePackets(Start(disk, c), disk.blockSize);
    BlocksAreWholePackets(Start(disk, c) + c.dataLength, disk.blockSize);
    BlocksAreWholePackets(|disk.bytes|, disk.blockSize);
    DifferenceOfPackets(Start(disk, c) + c.dataLength, Start(disk, c));
    DifferenceOfPackets(|disk.bytes|, Start(disk, c));
  }

  /** The length a command asks for is the length of its blocks, in 32-bit arithmetic. */
  predicate LengthsAgree(disk: Disk, c: Cbw) {
    0 < c.dataLength == Wrap32(c.BlockCount() * disk.blockSize)
  }

  predicate IsTransfer(c: Cbw) {
    c.IsRead() || c.IsWrite() || c.IsByteCheck()
  }

  /** The command gets its data phase: lengths agree, and the direction is that of the command. */
  predicate Agreed(disk: Disk, c: Cbw) {
    IsTransfer(c) && LengthsAgree(disk, c) && (c.In() <==> c.IsRead())
  }

  /** The state a command with a data phase leads to before any data has moved. */
  function Opened(d: Device, packet: seq<byte>): Device
    requires Receives(d, packet)
  {
    var c := ParseCbw(packet);
    Accept(d, c).(stage := ProcessCbw, addr := Target(d.disk, c), length := c.dataLength,
                  memOk := if c.IsByteCheck() then true else d.memOk)
  }

  lemma TargetOnPacket(disk: Disk, c: Cbw)
    requires disk.Valid()
    ensures Target(disk, c) % MAX_PACKET == 0
  {
    TargetAligned(c.FirstBlock(), disk.blockSize);
  }

  lemma Decodes(d: Device, packet: seq<byte>, done: bool)
    requires Receives(d, packet)
    ensures Accept(d, ParseCbw(packet)).Valid()
    ensures Step(d, Out(packet, done)) == Dispatch(Accept(d, ParseCbw(packet)), done)
  {
    hide Dispatch, ParseCbw, Disk.Valid;
  }

  lemma DispatchesTransfer(d: Device, done: bool)
    requires d.Valid() && IsTransfer(d.cbw)
    ensures Dispatch(d, done) == StartTransfer(d)
  {
    hide StartTransfer, Disk.Valid;
  }

  /** Only the transfer commands open a data phase. */
  lemma DispatchLeaves(d: Device, done: bool)
    requires d.Valid() && !IsTransfer(d.cbw)
    ensures Dispatch(d, done).stage in {SendCsw, WaitCsw}
  {
    hide Answer, StartTransfer;
  }

  /** What is logged is data at the most. */
  ghost predicate OnlyData(before: seq<Event>, after: seq<Event>) {
    before <= after && forall i :: |before| <= i < |after| ==> after[i].Data?
  }

  lemma ReadOnlySends(d: Device)
    requires d.Valid() && d.stage == ProcessCbw
    ensures var r := MemoryRead(d);
            r.disk == d.disk && r.stage in {ProcessCbw, SendCsw, Error} && OnlyData(d.log, r.log)
  {
    hide Loaded, Wrap32, Disk.Valid;
  }

  /** What a host that expects data gets instead: a stall of the pipe its flag names. */
  function PipeStall(c: Cbw): seq<Event> {
    if c.dataLength == 0 then [] else [Stalled(c.In())]
  }

  /** A command has been answered and nothing else: at most a stall, and one CSW. */
  predicate AnswersWith(d: Device, r: Device, before: seq<Event>, csw: Csw) {
    && r.stage == WaitCsw && r.disk == d.disk && r.inFlight == d.inFlight + 1
    && r.log == d.log + before + [Reported(csw)]
  }

  lemma TransferStarts(d: Device)
    requires d.Valid() && d.stage == ReadCbw && IsTransfer(d.cbw) && d.csw.residue == d.cbw.dataLength
    ensures var c := d.cbw;
            var ready := d.(stage := ProcessCbw, addr := Target(d.disk, c), length := c.dataLength,
                            memOk := if c.IsByteCheck() then true else d.memOk);
            var r := StartTransfer(d);
            if Agreed(d.disk, c) then ready.Valid() && r == if c.IsRead() then MemoryRead(ready) else ready
            else
              var status := if LengthsAgree(d.disk, c) then PhaseError else Failed;
              AnswersWith(d, r, PipeStall(c), Csw(d.csw.tag, c.dataLength, status))
  {
    hide MemoryRead, Disk.Valid, Cbw.FirstBlock, Cbw.BlockCount;
  }

  /**
   A transfer command opens its data phase exactly if the lengths agree and the direction is
   that of the command: nothing is reported, and WRITE and VERIFY wait for their data, while READ
   goes on to its first packet. Otherwise it is answered at once with everything left over, after
   a stall of the pipe the host expects data on: as failed for a wrong length, as a phase error for
   a wrong direction.
   */
  lemma TransferOpensIff(d: Device, packet: seq<byte>, done: bool)
    requires Receives(d, packet) && IsTransfer(ParseCbw(packet))
    ensures var c, r := ParseCbw(packet), Step(d, Out(packet, done));
            r.disk == d.disk &&
            if Agreed(d.disk, c) then
              && Opened(d, packet).Valid()
              && OnlyData(d.log + [Accepted(c.tag)], r.log)
              && if c.IsRead() then r == MemoryRead(Opened(d, packet)) && r.stage in {ProcessCbw, SendCsw, Error}
                 else r == Opened(d, packet) && r.stage == ProcessCbw && r.log == d.log + [Accepted(c.tag)]
            else
              var status := if LengthsAgree(d.disk, c) then PhaseError else Failed;
              AnswersWith(d, r, [Accepted(c.tag)] + PipeStall(c), Csw(c.tag, c.dataLength, status))
  {
    hide Step, Dispatch, StartTransfer, MemoryRead, ParseCbw, LengthsAgree, Meaningful, Target, Disk.Valid;
    Decodes(d, packet, done);
    var d1 := Accept(d, ParseCbw(packet));
    DispatchesTransfer(d1, done);
    TransferStarts(d1);
    if Agreed(d.disk, d1.cbw) && d1.cbw.IsRead() {
      ReadOnlySends(Opened(d, packet));
    }
    AppendAssociates(d.log, [Accepted(d1.cbw.tag)], PipeStall(d1.cbw));
  }

  lemma StartIsTarget(disk: Disk, c: Cbw)
    requires disk.Valid() && Starts(disk, c)
    ensures Target(disk, c) == Start(disk, c) && LengthsAgree(disk, c)
  {
    hide Cbw.FirstBlock, Cbw.BlockCount;
  }

  lemma Opens(d: Device, packet: seq<byte>, done: bool)
    requires Receives(d, packet) && Starts(d.disk, ParseCbw(packet))
    requires var c := ParseCbw(packet); IsTransfer(c) && (c.In() <==> c.IsRead())
    ensures var c, r := ParseCbw(packet), Opened(d, packet);
            && Moving(r, Start(d.disk, c), c.dataLength, 0)
            && Step(d, Out(packet, done)) == if c.IsRead() then MemoryRead(r) else r
  {
    hide Step, MemoryRead, ParseCbw, Start, Starts, LengthsAgree, Target, Disk.Valid;
    var c := ParseCbw(packet);
    StartIsTarget(d.disk, c);
    StartsAligned(d.disk, c);
    StartsBounds(d.disk, c);
    TransferOpensIff(d, packet, done);
  }

  lemma StartsBounds(disk: Disk, c: Cbw)
    requires disk.Valid() && Starts(disk, c)
    ensures Start(disk, c) <= |disk.bytes| && 0 < c.dataLength
  {
  }

  lemma CommandThenData(d: Device, packet: seq<byte>, cs: seq<Callback>, done: bool)
    requires d.Valid()
    ensures Step(d, Out(packet, done)).Valid()
    ensures Run(d, [Out(packet, done)] + cs) == Run(Step(d, Out(packet, done)), cs)
  {
    StepKeepsValid(d, Out(packet, done));
    assert ([Out(packet, done)] + cs)[1..] == cs;
    hide Step;
  }

  /** Where the block of the current address begins. */
  function BlockAt(d: Device): (at: nat)
    requires d.Valid()
    ensures at <= d.addr
  {
    OffsetBelow(d.addr, d.disk.blockSize);
    d.addr - d.Offset()
  }

  /** A page is the block at a position of the disk. */
  predicate IsBlock(page: seq<byte>, bytes: seq<byte>, at: nat, size: nat) {
    at + size <= |bytes| && page == bytes[at..at + size]
  }

  /** The page holds the block of an address in the middle of it. */
  predicate Cached(d: Device)
    requires d.Valid()
  {
    d.Offset() != 0 ==> IsBlock(d.page, d.disk.bytes, BlockAt(d), d.disk.blockSize)
  }

  lemma LoadsBlock(d: Device)
    requires d.Valid() && Cached(d) && d.addr < |d.disk.bytes|
    ensures IsBlock(Loaded(d), d.disk.bytes, BlockAt(d), d.disk.blockSize)
  {
    BlockInside(d.addr, d.disk.blockSize, |d.disk.bytes|);
    ReadBlockAt(d.disk, d.addr, d.page);
  }

  lemma LoadsAgain(d: Device)
    requires d.Valid() && Cached(d)
    ensures Cached(d.(page := Loaded(d)))
  {
    hide Disk.ReadBlock, IsBlock;
  }

  /** After moving on inside the block, or to the start of the next one, the page is still right. */
  lemma StaysCached(d: Device, n: nat)
    requires d.Valid() && Cached(d) && d.addr + n <= |d.disk.bytes|
    requires d.Offset() + n <= d.disk.blockSize
    ensures Cached(d.(page := Loaded(d), addr := d.addr + n))
  {
    hide Loaded, IsBlock;
    LoadsAgain(d);
    if 0 < n {
      LoadsBlock(d);
      OffsetStep(d.addr, n, d.disk.blockSize);
    }
  }

  lemma CachedDependsOn(d: Device, r: Device)
    requires d.Valid() && Cached(d) && r.page == d.page && r.disk == d.disk && r.addr == d.addr
    ensures Cached(r)
  {
  }

  lemma NotInsideBlock(d: Device, start: nat, total: nat)
    requires Moving(d, start, total, 0)
    ensures Cached(d)
  {
  }

  lemma RoomForPacket(d: Device)
    requires d.Valid() && d.addr % MAX_PACKET == 0
    ensures d.Offset() + MAX_PACKET <= d.disk.blockSize
    ensures d.Offset() <= d.addr
  {
    PacketAligned(d.addr, d.disk.blockSize);
  }

  // Commands that are answered without a data phase

  /** The commands that are answered by a packet. */
  predicate IsReply(c: Cbw) {
    c.Op() in {REQUEST_SENSE, INQUIRY, MODE_SENSE6, READ_FORMAT_CAPACITIES, READ_CAPACITY}
  }

  lemma ReplyCodes(packet: seq<byte>)
    requires |packet| == 31
    ensures IsReply(ParseCbw(packet)) <==> packet[15] in {0x03, 0x12, 0x1A, 0x23, 0x25}
  {
  }

  /**
   Of the commands that need neither the disk nor a reply, TEST UNIT READY, PREVENT/ALLOW MEDIUM
   REMOVAL and a VERIFY without data pass, and unknown ones fail, all of them at once.
   */
  lemma AnsweredAtOnce(d: Device, packet: seq<byte>, done: bool)
    requires Receives(d, packet) && !IsTransfer(ParseCbw(packet)) && !IsReply(ParseCbw(packet))
    ensures var c, op, r := ParseCbw(packet), packet[15], Step(d, Out(packet, done));
            var stall := if op == 0 then PipeStall(c) else [];
            AnswersWith(d, r, [Accepted(c.tag)] + stall,
                        Csw(c.tag, c.dataLength, if op in {0, 0x1E, 0x2F} then Passed else Failed))
  {
    hide ParseCbw, StartTransfer, Answer;
    CommandFields(packet);
    AppendAssociates(d.log, [Accepted(ParseCbw(packet).tag)], PipeStall(ParseCbw(packet)));
  }

  /** A packet where none is expected: the OUT pipe stalls, and the host is told it is out of phase. */
  lemma UnexpectedPacket(d: Device, buf: seq<byte>, done: bool)
    requires d.Valid() && d.stage !in {ReadCbw, ProcessCbw}
    ensures AnswersWith(d, Step(d, Out(buf, done)), [Stalled(false)], Csw(d.csw.tag, d.csw.residue, PhaseError))
  {
    hide CbwDecode, MemoryWrite, MemoryVerify, Disk.Valid;
  }

  /**
   A collected packet outside a data phase: the CSW follows the data, or, behind a stall of the IN
   pipe, what went wrong; when it is the CSW itself the device waits for the next command.
   */
  lemma Collected(d: Device)
    requires d.Valid() && d.stage != ProcessCbw && d.inFlight > 0
    ensures var r, d1 := Step(d, In), d.(inFlight := d.inFlight - 1);
            match d.stage
            case SendCsw => AnswersWith(d1, r, [], d.csw)
            case WaitCsw => r == d1.(stage := ReadCbw)
            case _ => AnswersWith(d1, r, [Stalled(true)], d.csw)
  {
    hide MemoryRead, Disk.Valid;
    assert d.log + [] == d.log;
  }

  /** A packet that is no meaningful command leaves the device waiting, or is answered as failed. */
  lemma NotACommand(d: Device, packet: seq<byte>, done: bool)
    requires d.Valid() && d.stage == ReadCbw && !Receives(d, packet)
    ensures var r := Step(d, Out(packet, done));
            if |packet| == CBW_SIZE && ParseCbw(packet).signature == CBW_SIGNATURE then
              var c := ParseCbw(packet);
              AnswersWith(d, r, [Accepted(c.tag)], Csw(c.tag, c.dataLength, Failed))
            else r.stage == ReadCbw && r.log == d.log && r.csw == d.csw
  {
    hide ParseCbw, Dispatch;
  }

  // A command that starts behind the end of a small disk

  /** READ(10), WRITE(10), or VERIFY(10) with byte check, of one block of 64 bytes, block 2. */
  function SecondBlock(op: byte, tag: uint32): Cbw {
    var flags: byte := if op == READ10 then FLAG_IN else 0;
    Cbw(CBW_SIGNATURE, tag, 64, flags, 0, 10, Transfer10(op, if op == VERIFY10 then 2 else 0, 2, 1))
  }

  lemma SecondBlockMeans(disk: Disk, op: byte, tag: uint32)
    requires disk.blockSize == MAX_PACKET && op in {READ10, WRITE10, VERIFY10}
    ensures var c := SecondBlock(op, tag);
            && ParseCbw(EncodeCbw(c)) == c && Meaningful(c) && c.tag == tag && c.Op() == op
            && (c.IsRead() <==> op == READ10) && (c.IsWrite() <==> op == WRITE10)
            && (c.IsByteCheck() <==> op == VERIFY10)
            && Agreed(disk, c) && Target(disk, c) == 128
  {
    hide EncodeCbw, ParseCbw, Cbw.FirstBlock, Cbw.BlockCount;
    var c := SecondBlock(op, tag);
    ParseEncoded(c);
    TransferFields(c, 2, 1);
  }
}
