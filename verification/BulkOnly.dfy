/**
 The bulk-only transport state machine of the mass-storage device, on values:
 what each callback does to the state of the device, the disk and the bulk endpoints.
 */
module BulkOnly {
  import opened Words
  import opened Packets

  const CBW_SIZE := 31
  const CBW_SIGNATURE: uint32 := 0x4342_5355
  const FLAG_IN: byte := 0x80
  const CSW_SIZE := 13
  const CSW_SIGNATURE: uint32 := 0x5342_5355

  const TEST_UNIT_READY: byte := 0x00
  const REQUEST_SENSE: byte := 0x03
  const INQUIRY: byte := 0x12
  const MODE_SENSE6: byte := 0x1A
  const MEDIA_REMOVAL: byte := 0x1E
  const READ_FORMAT_CAPACITIES: byte := 0x23
  const READ_CAPACITY: byte := 0x25
  const READ10: byte := 0x28
  const WRITE10: byte := 0x2A
  const VERIFY10: byte := 0x2F
  const READ12: byte := 0xA8
  const WRITE12: byte := 0xAA

  datatype Stage = ReadCbw | Error | ProcessCbw | SendCsw | WaitCsw

  /** The status byte of a CSW; the source's CSW_ERROR is the standard's phase error. */
  datatype Status = Passed | Failed | PhaseError

  datatype Csw = Csw(tag: uint32, residue: uint32, status: Status)

  /** The bytes of a CSW on the wire. */
  function EncodeCsw(c: Csw): (s: seq<byte>)
    ensures |s| == CSW_SIZE
  {
    var status: byte := match c.status case Passed => 0 case Failed => 1 case PhaseError => 2;
    ToLe32(CSW_SIGNATURE) + ToLe32(c.tag) + ToLe32(c.residue) + [status]
  }

  type CommandBlock = s: seq<byte> | |s| == 16 witness seq(16, _ => 0)

  datatype Cbw = Cbw(
    signature: uint32, tag: uint32, dataLength: uint32,
    flags: byte, lun: byte, cbLength: byte, cb: CommandBlock)
  {
    function Op(): byte { cb[0] }
    predicate In() { flags >= FLAG_IN }
    predicate IsRead() { Op() == READ10 || Op() == READ12 }
    predicate IsWrite() { Op() == WRITE10 || Op() == WRITE12 }

    /** A VERIFY with the BYTCHK bit: one that comes with data to compare. */
    predicate IsByteCheck() { Op() == VERIFY10 && cb[1] / 2 % 2 == 1 }

    /** Logical address of the first block. */
    function FirstBlock(): uint32 { Be32(cb[2..6]) }

    /** Number of blocks to transfer: 16 bits, or 32 bits in the 12-byte commands. */
    function BlockCount(): uint32 {
      if Op() == READ12 || Op() == WRITE12 then Be32(cb[6..10]) else Be16(cb[7..9])
    }
  }

  /** A command the device decodes: signed, and with a command block of legal length. */
  predicate Meaningful(c: Cbw) {
    c.signature == CBW_SIGNATURE && 1 <= c.cbLength <= 16
  }

  function ParseCbw(s: seq<byte>): Cbw
    requires |s| == CBW_SIZE
  {
    Cbw(Le32(s[..4]), Le32(s[4..8]), Le32(s[8..12]), s[12], s[13], s[14], s[15..])
  }

  /** The host's side: the 31 bytes of a CBW, and the command block of a transfer command. */
  function EncodeCbw(c: Cbw): (s: seq<byte>)
    ensures |s| == CBW_SIZE
  {
    ToLe32(c.signature) + ToLe32(c.tag) + ToLe32(c.dataLength) + [c.flags, c.lun, c.cbLength] + c.cb
  }

  function Transfer10(op: byte, flags: byte, first: uint32, count: uint16): CommandBlock {
    [op, flags] + ToBe32(first) + [0] + ToBe16(count) + seq(7, _ => 0)
  }

  function Transfer12(op: byte, flags: byte, first: uint32, count: uint32): CommandBlock {
    [op, flags] + ToBe32(first) + ToBe32(count) + seq(6, _ => 0)
  }

  lemma ParseEncoded(c: Cbw)
    ensures ParseCbw(EncodeCbw(c)) == c
  {
    var s := EncodeCbw(c);
    assert s[..4] == ToLe32(c.signature) && s[4..8] == ToLe32(c.tag) && s[8..12] == ToLe32(c.dataLength);
    assert s[15..] == c.cb;
  }

  /** Address and count come back out of the big-endian fields the host put them into. */
  lemma TransferFields(c: Cbw, first: uint32, count: uint32)
    requires
      || (c.Op() in {READ10, WRITE10, VERIFY10} && count < 0x1_0000
          && c.cb == Transfer10(c.Op(), c.cb[1], first, count))
      || (c.Op() in {READ12, WRITE12} && c.cb == Transfer12(c.Op(), c.cb[1], first, count))
    ensures c.FirstBlock() == first && c.BlockCount() == count
  {
    assert c.cb[2..6] == ToBe32(first);
    if c.Op() in {READ12, WRITE12} {
      assert c.cb[6..10] == ToBe32(count);
    } else {
      assert c.cb[7..9] == ToBe16(count);
    }
  }

  /** What the bulk endpoints have been asked to do, oldest first, and which CBWs were accepted. */
  datatype Event =
    | Accepted(tag: uint32)
    | Data(bytes: seq<byte>)
    | Reported(csw: Csw)
    | Stalled(inward: bool)

  /**
   The storage chip behind the device. A block number past the end is answered:
   reading leaves the page as it was, writing is ignored.
   */
  datatype Disk = Disk(bytes: seq<byte>, blockSize: nat, writeProtected: bool) {
    /**
     Blocks are whole packets, the chip is whole blocks, and one packet beyond
     the end is still a 32-bit address.
     */
    predicate Valid() {
      && 0 < blockSize && blockSize % MAX_PACKET == 0
      && |bytes| % blockSize == 0
      && 0 < |bytes| < 0x1_0000_0000 - MAX_PACKET
    }

    function ReadBlock(block: nat, page: seq<byte>): seq<byte> {
      var start := block * blockSize;
      if 0 <= start <= start + blockSize <= |bytes| then bytes[start..start + blockSize] else page
    }

    function WriteBlock(block: nat, page: seq<byte>): (r: Disk)
      ensures r.blockSize == blockSize && r.writeProtected == writeProtected
      ensures |r.bytes| == |bytes|
    {
      var start := block * blockSize;
      if 0 <= start && start + |page| <= |bytes| then this.(bytes := Replace(bytes, start, page)) else this
    }

    /** What happens when the page is filled up to `addr + size`: it is written if that ends its block. */
    function Flush(addr: uint32, page: seq<byte>, size: nat): (r: Disk)
      requires 0 < blockSize
      ensures r.blockSize == blockSize && r.writeProtected == writeProtected
      ensures |r.bytes| == |bytes|
    {
      if Wrap32(addr + size) % blockSize == 0 && !writeProtected
      then WriteBlock(addr / blockSize, page)
      else this
    }
  }

  /** `s` with the bytes from `start` on replaced by `t`. */
  function Replace(s: seq<byte>, start: nat, t: seq<byte>): (r: seq<byte>)
    requires start + |t| <= |s|
    ensures |r| == |s|
  {
    s[..start] + t + s[start + |t|..]
  }

  /**
   The part of `buf[..size]` that lands in a page when it is copied to `offset`. It is all of it
   within `InBounds`; for other packets the copying loop goes on beyond its buffers, and what
   follows says nothing about it.
   */
  function Landing(page: seq<byte>, offset: nat, buf: seq<byte>, size: nat): (n: nat)
    requires offset <= |page|
    ensures n <= |buf| && n <= size && offset + n <= |page|
  {
    var n := if size < |buf| then size else |buf|;
    if n <= |page| - offset then n else |page| - offset
  }

  datatype Device = Device(
    stage: Stage, cbw: Cbw, csw: Csw,
    addr: uint32, length: uint32, memOk: bool,
    page: seq<byte>, disk: Disk,
    inFlight: nat,      // IN packets queued and not yet collected by the host
    log: seq<Event>)
  {
    predicate Valid() { disk.Valid() && |page| == disk.blockSize }

    function Offset(): nat
      requires Valid()
    {
      addr % disk.blockSize
    }
  }

  /** The parts of the state no callback changes: the geometry of page and disk. */
  predicate SameShape(d: Device, r: Device) {
    && |r.page| == |d.page| && |r.disk.bytes| == |d.disk.bytes|
    && r.disk.blockSize == d.disk.blockSize && r.disk.writeProtected == d.disk.writeProtected
  }

  // Outputs

  function Queue(d: Device, bytes: seq<byte>): Device {
    if |bytes| > MAX_PACKET then d
    else d.(inFlight := d.inFlight + 1, log := d.log + [Data(bytes)])
  }

  function Stall(d: Device, inward: bool): Device {
    d.(log := d.log + [Stalled(inward)])
  }

  function SendStatus(d: Device): Device {
    d.(stage := WaitCsw, inFlight := d.inFlight + 1, log := d.log + [Reported(d.csw)])
  }

  function Finish(d: Device, status: Status): Device {
    SendStatus(d.(csw := d.csw.(status := status)))
  }

  // Data phase

  /** The bookkeeping that follows every packet of data. */
  function Advance(d: Device, size: int): Device {
    d.(addr := Wrap32(d.addr + size), length := Wrap32(d.length - size),
       csw := d.csw.(residue := Wrap32(d.csw.residue - size)))
  }

  predicate Overruns(d: Device, size: nat) {
    Wrap32(d.addr + size) > |d.disk.bytes|
  }

  /** How much of an OUT packet is used: at the end of the disk, only what still fits. */
  function Usable(d: Device, buf: seq<byte>): nat {
    if Overruns(d, |buf|) then Wrap16(|d.disk.bytes| - d.addr) else |buf|
  }

  /**
   The guard of the copying loop, which the source does not check: what is used of a packet lies
   inside the page and is no more than what has arrived.
   */
  predicate InBounds(d: Device, buf: seq<byte>)
    requires d.Valid()
  {
    d.Offset() + Usable(d, buf) <= d.disk.blockSize && Usable(d, buf) <= |buf|
  }

  /** A packet that does not fit stops the transfer. */
  function CheckEnd(d: Device, buf: seq<byte>): Device {
    if Overruns(d, |buf|) then Stall(d.(stage := Error), false) else d
  }

  function Overlay(page: seq<byte>, offset: nat, buf: seq<byte>, size: nat): (r: seq<byte>)
    requires offset <= |page|
    ensures |r| == |page|
  {
    Replace(page, offset, buf[..Landing(page, offset, buf, size)])
  }

  function FilledPage(d: Device, buf: seq<byte>): (page: seq<byte>)
    requires d.Valid()
    ensures |page| == |d.page|
  {
    Overlay(d.page, d.Offset(), buf, Usable(d, buf))
  }

  /** The disk after a page has been filled up to `addr + size`: written if that ends a block. */
  function FlushedDisk(d: Device, page: seq<byte>, size: nat): (disk: Disk)
    requires d.Valid() && |page| == |d.page|
    ensures SameShape(d, d.(page := page, disk := disk))
  {
    d.disk.Flush(d.addr, page, size)
  }

  function MemoryWrite(d: Device, buf: seq<byte>): (r: Device)
    requires d.Valid()
    ensures SameShape(d, r)
  {
    var size := Usable(d, buf);
    var page := FilledPage(d, buf);
    var d1 := CheckEnd(d, buf).(page := page, disk := FlushedDisk(d, page, size));
    var d2 := Advance(d1, size);
    if d2.length == 0 || d2.stage != ProcessCbw
    then Finish(d2, if d2.stage == Error then Failed else Passed)
    else d2
  }

  /** The page as a data phase that reads the disk finds it: reloaded at the start of a block. */
  function Loaded(d: Device): (page: seq<byte>)
    requires d.Valid()
    ensures |page| == |d.page|
  {
    if d.Offset() == 0 then d.disk.ReadBlock(d.addr / d.disk.blockSize, d.page) else d.page
  }

  /** Whether the bytes of an OUT packet are those of the page at the current address. */
  predicate Matches(d: Device, page: seq<byte>, buf: seq<byte>)
    requires d.Valid() && |page| == |d.page|
  {
    var o := d.Offset();
    var n := Landing(page, o, buf, Usable(d, buf));
    page[o..o + n] == buf[..n]
  }

  /**
   The comparing loop from byte `n` on: it leaves page or packet only if it gets there, and it
   stops at the first difference.
   */
  predicate ComparesInside(page: seq<byte>, o: nat, buf: seq<byte>, n: nat, size: nat)
    decreases size - n
  {
    n < size ==>
      && o + n < |page| && n < |buf|
      && (page[o + n] == buf[n] ==> ComparesInside(page, o, buf, n + 1, size))
  }

  /** Its guard: there is nothing to look at beyond the buffers, or a difference comes before that. */
  predicate CompareInBounds(d: Device, buf: seq<byte>)
    requires d.Valid()
  {
    InBounds(d, buf) || !Matches(d, Loaded(d), buf)
  }

  function MemoryVerify(d: Device, buf: seq<byte>): (r: Device)
    requires d.Valid()
    ensures SameShape(d, r)
  {
    var size := Usable(d, buf);
    var page := Loaded(d);
    var d1 := CheckEnd(d, buf).(page := page, memOk := d.memOk && Matches(d, page, buf));
    var d2 := Advance(d1, size);
    if d2.length == 0 || d2.stage != ProcessCbw
    then Finish(d2, if d2.memOk && d2.stage == ProcessCbw then Passed else Failed)
    else d2
  }

  function Wanted(d: Device): (n: nat)
    ensures n <= MAX_PACKET
  {
    if d.length > MAX_PACKET then MAX_PACKET else d.length
  }

  /** The size of the next packet of a READ: at the end of the disk, what is left of it. */
  function ReadSize(d: Device): uint32 {
    if Overruns(d, Wanted(d)) then Wrap32(|d.disk.bytes| - d.addr) else Wanted(d)
  }

  /** The bytes sent, as far as the page has them. */
  function ReadPacket(d: Device): (bytes: seq<byte>)
    requires d.Valid()
    ensures |bytes| <= ReadSize(d)
  {
    var o, n, page := d.Offset(), ReadSize(d), Loaded(d);
    page[o..if o + n <= |page| then o + n else |page|]
  }

  /** A packet the endpoint cannot take is not sent, and nothing else notices. */
  function MemoryRead(d: Device): (r: Device)
    requires d.Valid()
    ensures SameShape(d, r)
  {
    var n := ReadSize(d);
    var d1 := d.(page := Loaded(d), stage := if Overruns(d, Wanted(d)) then Error else d.stage);
    var d2 := if n <= MAX_PACKET then Queue(d1, ReadPacket(d)) else d1;
    var d3 := Advance(d2, n);
    if d3.length == 0 || d3.stage != ProcessCbw
    then d3.(csw := d3.csw.(status := if d3.stage == ProcessCbw then Passed else Failed),
             stage := if d3.stage == ProcessCbw then SendCsw else d3.stage)
    else d3
  }

  // Command phase

  /** The 32-bit address a transfer starts at. */
  function Target(disk: Disk, c: Cbw): uint32 {
    Wrap32(c.FirstBlock() * disk.blockSize)
  }

  /** Address and length of a transfer, and whether the host asked for the same length. */
  function InfoTransfer(d: Device): (Device, bool) {
    var d1 := d.(addr := Target(d.disk, d.cbw),
                 length := Wrap32(d.cbw.BlockCount() * d.disk.blockSize));
    if d.cbw.dataLength == 0 then (Finish(d1, Failed), false)
    else if d.cbw.dataLength != d1.length then (Finish(Stall(d1, d.cbw.In()), Failed), false)
    else (d1, true)
  }

  /** The two capacities as the host reads them, and the constant answers. */
  function Answer(d: Device): seq<byte>
    requires d.Valid()
  {
    var blocks := Wrap32(|d.disk.bytes| / d.disk.blockSize);
    var size := Wrap32(d.disk.blockSize);
    var op := d.cbw.Op();
    if op == REQUEST_SENSE then
      [0x70, 0, 5, 0, 0, 0, 0, 0x0A, 0, 0, 0, 0, 0x30, 1, 0, 0, 0, 0]
    else if op == INQUIRY then
      [0, 0x80, 0, 1, 32, 0x80, 0, 0] + Ascii("MBED.ORG") + Ascii("MBED USB DISK   ") + Ascii("1.0 ")
    else if op == MODE_SENSE6 then [3, 0, 0, 0]
    else if op == READ_FORMAT_CAPACITIES then
      [0, 0, 0, 8] + ToBe32(blocks) + [2] + ToBe32(size)[1..]
    else ToBe32(Wrap32(blocks - 1)) + ToBe32(size)
  }

  function Ascii(s: string): seq<byte>
    ensures |Ascii(s)| == |s|
  {
    seq(|s|, i requires 0 <= i < |s| => (s[i] as int) % 0x100)
  }

  /**
   A reply of one packet. Status and residue are only brought up to date when the endpoint
   reports completion at once (`done`); the source leaves them as they were otherwise.
   */
  function Reply(d: Device, bytes: seq<byte>, done: bool): Device {
    var size := if |bytes| >= d.cbw.dataLength then d.cbw.dataLength else |bytes|;
    var d1 := Queue(d.(stage := SendCsw), bytes[..size]);
    if done && size <= MAX_PACKET
    then d1.(csw := d1.csw.(residue := Wrap32(d1.csw.residue - size), status := Passed))
    else d1
  }

  function TestUnitReady(d: Device): Device {
    Finish(if d.cbw.dataLength != 0 then Stall(d, d.cbw.In()) else d, Passed)
  }

  /** A data command whose direction flag is wrong. */
  function WrongWay(d: Device, inward: bool): Device {
    Finish(Stall(d, inward), PhaseError)
  }

  /** A command with a data phase on the disk, and the direction its flag has to give. */
  function StartTransfer(d: Device): (r: Device)
    requires d.Valid()
    ensures SameShape(d, r)
  {
    var (d1, ok) := InfoTransfer(d);
    if !ok then d1
    else if d.cbw.IsRead() then
      if d.cbw.In() then MemoryRead(d1.(stage := ProcessCbw)) else WrongWay(d1, false)
    else if d.cbw.In() then WrongWay(d1, true)
    else d1.(stage := ProcessCbw, memOk := if d.cbw.IsWrite() then d1.memOk else true)
  }

  function Dispatch(d: Device, done: bool): (r: Device)
    requires d.Valid()
    ensures SameShape(d, r)
  {
    var op := d.cbw.Op();
    if op == TEST_UNIT_READY then TestUnitReady(d)
    else if op in {REQUEST_SENSE, INQUIRY, MODE_SENSE6, READ_FORMAT_CAPACITIES, READ_CAPACITY} then
      Reply(d, Answer(d), done)
    else if d.cbw.IsRead() || d.cbw.IsWrite() || d.cbw.IsByteCheck() then StartTransfer(d)
    else if op == VERIFY10 || op == MEDIA_REMOVAL then Finish(d, Passed)
    else Finish(d, Failed)
  }

  /** A signed command is noted, and its tag and length go into the CSW to come. */
  function Accept(d: Device, c: Cbw): Device {
    d.(cbw := c, csw := d.csw.(tag := c.tag, residue := c.dataLength), log := d.log + [Accepted(c.tag)])
  }

  /** A packet of the wrong size is ignored; an unsigned one is stored and then ignored. */
  function CbwDecode(d: Device, buf: seq<byte>, done: bool): (r: Device)
    requires d.Valid()
    ensures SameShape(d, r)
  {
    if |buf| != CBW_SIZE then d
    else
      var cbw := ParseCbw(buf);
      if cbw.signature != CBW_SIGNATURE then d.(cbw := cbw)
      else if !Meaningful(cbw) then Finish(Accept(d, cbw), Failed)
      else Dispatch(Accept(d, cbw), done)
  }

  // Callbacks

  /** A packet has arrived on the OUT endpoint. */
  function OutCallback(d: Device, buf: seq<byte>, done: bool): Device
    requires d.Valid()
  {
    match d.stage
    case ReadCbw => CbwDecode(d, buf, done)
    case ProcessCbw =>
      if d.cbw.IsWrite() then MemoryWrite(d, buf)
      else if d.cbw.Op() == VERIFY10 then MemoryVerify(d, buf)
      else d
    case _ => Finish(Stall(d, false), PhaseError)
  }

  /** The host has collected a packet from the IN endpoint. */
  function InCallback(d: Device): Device
    requires d.Valid()
  {
    var d1 := d.(inFlight := if d.inFlight == 0 then 0 else d.inFlight - 1);
    match d.stage
    case ProcessCbw => if d.cbw.IsRead() then MemoryRead(d1) else d1
    case SendCsw => SendStatus(d1)
    case WaitCsw => d1.(stage := ReadCbw)
    case _ => SendStatus(Stall(d1, true))
  }

  datatype Callback = Out(buf: seq<byte>, done: bool) | In

  function Step(d: Device, c: Callback): Device
    requires d.Valid()
  {
    match c
    case Out(buf, done) => OutCallback(d, buf, done)
    case In => InCallback(d)
  }

  /** The steps the model speaks for: the loops over a packet of data stay inside their buffers. */
  predicate Guarded(d: Device, c: Callback) {
    d.Valid() &&
    (c.Out? && d.stage == ProcessCbw ==>
       && (d.cbw.IsWrite() ==> InBounds(d, c.buf))
       && (d.cbw.Op() == VERIFY10 ==> CompareInBounds(d, c.buf)))
  }

  /** Every callback keeps the page one block long and the disk the size it was. */
  lemma StepKeepsValid(d: Device, c: Callback)
    requires d.Valid()
    ensures SameShape(d, Step(d, c)) && Step(d, c).Valid()
  {
  }

  function Run(d: Device, cs: seq<Callback>): (r: Device)
    requires d.Valid()
    ensures SameShape(d, r) && r.Valid()
    decreases |cs|
  {
    if cs == [] then d
    else
      StepKeepsValid(d, cs[0]);
      Run(Step(d, cs[0]), cs[1..])
  }

  /** A condition on the state and the callback that holds at every step of a run. */
  ghost predicate Along(ok: (Device, Callback) -> bool, d: Device, cs: seq<Callback>)
    requires d.Valid()
    decreases |cs|
  {
    cs != [] ==> ok(d, cs[0]) && (StepKeepsValid(d, cs[0]); Along(ok, Step(d, cs[0]), cs[1..]))
  }

  lemma RunOne(d: Device, c: Callback)
    requires d.Valid()
    ensures Run(d, [c]) == Step(d, c)
  {
    StepKeepsValid(d, c);
    hide Step;
    assert [c][1..] == [];
  }

  lemma {:induction false} RunAppend(d: Device, xs: seq<Callback>, ys: seq<Callback>)
    requires d.Valid()
    ensures Run(d, xs + ys) == Run(Run(d, xs), ys)
    decreases |xs|
  {
    if xs == [] {
      assert xs + ys == ys;
    } else {
      hide Step;
      assert (xs + ys)[1..] == xs[1..] + ys;
      StepKeepsValid(d, xs[0]);
      RunAppend(Step(d, xs[0]), xs[1..], ys);
    }
  }
}
