/**
 The commands as a host sends them: a block range goes in as bytes, and what comes of it is
 said in terms of that range and the disk alone.
 */
module BulkOnlyHost {
  import opened Words
  import opened Packets
  import opened Blocks
  import opened BulkOnly
  import opened BulkOnlyCommands
  import opened BulkOnlyWrite
  import opened BulkOnlyVerify
  import opened BulkOnlyRead

  /** A range of blocks, its first block and its length, that lies on the disk. */
  predicate OnDisk(disk: Disk, first: uint32, count: uint16, start: nat, total: uint32) {
    && disk.Valid() && 0 < count
    && start == first * disk.blockSize && total == count * disk.blockSize
    && start + total <= |disk.bytes|
  }

  function Command(op: byte, tag: uint32, first: uint32, count: uint16, total: uint32): (s: seq<byte>)
    ensures |s| == CBW_SIZE
  {
    var flags: byte := if op == READ10 then FLAG_IN else 0;
    var check: byte := if op == VERIFY10 then 2 else 0;
    EncodeCbw(Cbw(CBW_SIGNATURE, tag, total, flags, 0, 10, Transfer10(op, check, first, count)))
  }

  /** What the commands are on the wire (section 5.1 of Bulk-Only Transport 1.0). */
  lemma CommandBytes(op: byte, tag: uint32, first: uint32, count: uint16, total: uint32)
    requires op in {READ10, WRITE10, VERIFY10}
    ensures Command(op, tag, first, count, total)
         == [0x55, 0x53, 0x42, 0x43] + ToLe32(tag) + ToLe32(total)
            + [if op == 0x28 then 0x80 else 0, 0, 10]
            + [op, if op == 0x2F then 2 else 0] + ToBe32(first) + [0] + ToBe16(count) + [0, 0, 0, 0, 0, 0, 0]
    ensures READ10 == 0x28 && WRITE10 == 0x2A && VERIFY10 == 0x2F
  {
    hide ToBe32, ToBe16;
    assert ToLe32(CBW_SIGNATURE) == [0x55, 0x53, 0x42, 0x43];
    assert seq<byte>(7, _ => 0) == [0, 0, 0, 0, 0, 0, 0];
  }

  /** A host's reading of a CSW; `None` for what is none (section 5.2 of the same). */
  datatype Answer = None | Some(csw: Csw)

  function ParseCsw(s: seq<byte>): Answer {
    if |s| != 13 || s[..4] != [0x55, 0x53, 0x42, 0x53] || s[12] > 2 then None
    else Some(Csw(Le32(s[4..8]), Le32(s[8..12]),
                  if s[12] == 0 then Passed else if s[12] == 1 then Failed else PhaseError))
  }

  /** Every CSW reaches the host as it was meant, in one packet. */
  lemma ParseEncodedCsw(c: Csw)
    ensures ParseCsw(EncodeCsw(c)) == Some(c) && |EncodeCsw(c)| <= MAX_PACKET
  {
    var s := EncodeCsw(c);
    assert s[..4] == ToLe32(CSW_SIGNATURE) && s[4..8] == ToLe32(c.tag) && s[8..12] == ToLe32(c.residue);
    assert ToLe32(CSW_SIGNATURE) == [0x55, 0x53, 0x42, 0x53];
  }

  /** What the device makes of the bytes. */
  lemma CommandMeans(disk: Disk, op: byte, tag: uint32, first: uint32, count: uint16, start: nat, total: uint32)
    requires op in {READ10, WRITE10, VERIFY10} && OnDisk(disk, first, count, start, total)
    ensures var c := ParseCbw(Command(op, tag, first, count, total));
            && Meaningful(c) && c.tag == tag && c.dataLength == total && c.Op() == op
            && (c.In() <==> op == READ10) && (c.IsByteCheck() <==> op == VERIFY10)
            && c.FirstBlock() == first && c.BlockCount() == count
            && InRange(disk, c) && Start(disk, c) == start
  {
    hide Disk.Valid, ParseCbw, EncodeCbw, Cbw.FirstBlock, Cbw.BlockCount;
    var flags: byte := if op == READ10 then FLAG_IN else 0;
    var check: byte := if op == VERIFY10 then 2 else 0;
    var c := Cbw(CBW_SIGNATURE, tag, total, flags, 0, 10, Transfer10(op, check, first, count));
    ParseEncoded(c);
    TransferFields(c, first, count);
    CountIsPositive(count, disk.blockSize, total) by { BlockIsNotEmpty(disk); }
  }

  lemma BlockIsNotEmpty(disk: Disk)
    requires disk.Valid()
    ensures 0 < disk.blockSize
  {
  }

  lemma CountIsPositive(count: nat, size: nat, total: int)
    requires 0 < count && 0 < size && total == count * size
    ensures 0 < total
  {
  }

  /** A device waiting for a command. */
  predicate Waiting(d: Device) {
    d.Valid() && d.stage == ReadCbw
  }

  /** The data of a transfer, cut into full packets, after the command. */
  function Sending(command: seq<byte>, data: seq<byte>): seq<Callback> {
    [Out(command, false)] + Outs(Chunks(data), false)
  }

  /** The command, and the host collecting what it gets until the CSW is there to be collected. */
  function Collecting(command: seq<byte>, total: nat): seq<Callback> {
    [Out(command, false)] + Ins(total / MAX_PACKET)
  }

  lemma ChunksOfRange(disk: Disk, first: uint32, count: uint16, start: nat, total: uint32, data: seq<byte>)
    requires OnDisk(disk, first, count, start, total)
    ensures 0 < disk.blockSize && Fit(start, disk.blockSize, Chunks(data))
    ensures Concat(Chunks(data)) == data && Ends(Chunks(data))
  {
    ConcatChunks(data);
    ChunksEnd(data);
    TimesPackets(first, disk.blockSize);
    ChunksFit(start, disk.blockSize, data);
  }

  /** Writing a range replaces it by the data; the command passes, and takes everything. */
  lemma HostWrites(
    d: Device, tag: uint32, first: uint32, count: uint16, start: nat, total: uint32, data: seq<byte>)
    requires Waiting(d) && OnDisk(d.disk, first, count, start, total) && |data| == total
    ensures var r := Run(d, Sending(Command(WRITE10, tag, first, count, total), data));
            && r.disk == Written(d.disk, start, data) && r.stage == WaitCsw
            && r.log == d.log + [Accepted(tag), Reported(Csw(tag, 0, Passed))]
  {
    hide Run, Step, ParseCbw, Command, Disk.Valid, Fit, Ends, InRange, Start, Written;
    CommandMeans(d.disk, WRITE10, tag, first, count, start, total);
    ChunksOfRange(d.disk, first, count, start, total, data);
    WriteReplacesBlocks(d, Command(WRITE10, tag, first, count, total), Chunks(data), false);
  }

  /** Verifying a range passes if and only if the data is what the disk holds there. */
  lemma HostVerifies(
    d: Device, tag: uint32, first: uint32, count: uint16, start: nat, total: uint32, data: seq<byte>)
    requires Waiting(d) && OnDisk(d.disk, first, count, start, total) && |data| == total
    ensures var r := Run(d, Sending(Command(VERIFY10, tag, first, count, total), data));
            var same := data == d.disk.bytes[start..start + total];
            && r.disk == d.disk && r.stage == WaitCsw
            && r.log == d.log + [Accepted(tag), Reported(Csw(tag, 0, if same then Passed else Failed))]
  {
    hide Run, Step, ParseCbw, Command, Disk.Valid, Fit, Ends, InRange, Start;
    CommandMeans(d.disk, VERIFY10, tag, first, count, start, total);
    ChunksOfRange(d.disk, first, count, start, total, data);
    VerifyComparesBlocks(d, Command(VERIFY10, tag, first, count, total), Chunks(data), false);
  }

  /** Reading a range sends what the disk holds there. */
  lemma HostReads(d: Device, tag: uint32, first: uint32, count: uint16, start: nat, total: uint32)
    requires Waiting(d) && OnDisk(d.disk, first, count, start, total)
    ensures var r := Run(d, Collecting(Command(READ10, tag, first, count, total), total));
            && r.disk == d.disk && r.stage == WaitCsw
            && r.log == d.log + [Accepted(tag)] + Sent(d.disk.bytes[start..start + total])
                        + [Reported(Csw(tag, 0, Passed))]
  {
    hide Run, Step, ParseCbw, Command, Disk.Valid, Start, Sent;
    CommandMeans(d.disk, READ10, tag, first, count, start, total);
    ReadDeliversBlocks(d, Command(READ10, tag, first, count, total), false);
  }

  /** The host collects the CSW and goes on. */
  lemma CollectThen(d: Device, cs: seq<Callback>)
    requires d.Valid() && d.stage == WaitCsw
    ensures Waiting(InCallback(d)) && InCallback(d).disk == d.disk && InCallback(d).log == d.log
    ensures Run(d, [In] + cs) == Run(InCallback(d), cs)
  {
    hide CbwDecode, MemoryRead;
    StepKeepsValid(d, In);
    assert ([In] + cs)[1..] == cs;
  }

  /** What was written to a range is what is read from it, and what it is verified against. */
  lemma HostReadsWhatItWrote(
    d: Device, first: uint32, count: uint16, start: nat, total: uint32, data: seq<byte>,
    write: uint32, read: uint32)
    requires Waiting(d) && OnDisk(d.disk, first, count, start, total) && |data| == total
    requires !d.disk.writeProtected
    ensures var r1 := Run(d, Sending(Command(WRITE10, write, first, count, total), data));
            var r2 := Run(r1, [In] + Collecting(Command(READ10, read, first, count, total), total));
            var r3 := Run(r1, [In] + Sending(Command(VERIFY10, read, first, count, total), data));
            && r2.disk == r3.disk == r1.disk
            && r2.log == r1.log + [Accepted(read)] + Sent(data) + [Reported(Csw(read, 0, Passed))]
            && r3.log == r1.log + [Accepted(read), Reported(Csw(read, 0, Passed))]
  {
    hide Run, Step, InCallback, Command, Disk.Valid, Sent, Sending, Collecting, Written;
    HostWrites(d, write, first, count, start, total, data);
    var r1 := Run(d, Sending(Command(WRITE10, write, first, count, total), data));
    var d2 := InCallback(r1);
    CollectThen(r1, Collecting(Command(READ10, read, first, count, total), total));
    CollectThen(r1, Sending(Command(VERIFY10, read, first, count, total), data));
    WrittenIsThere(d.disk, start, data);
    HostReads(d2, read, first, count, start, total);
    HostVerifies(d2, read, first, count, start, total, data);
  }

  lemma WrittenIsThere(disk: Disk, start: nat, data: seq<byte>)
    requires start + |data| <= |disk.bytes| && !disk.writeProtected
    ensures Written(disk, start, data).bytes[start..start + |data|] == data
    ensures Written(disk, start, data).blockSize == disk.blockSize
    ensures disk.Valid() ==> Written(disk, start, data).Valid()
  {
  }
}
