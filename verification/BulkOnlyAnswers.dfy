/** The commands that are answered by one packet: what it says, and what becomes of it. */
module BulkOnlyAnswers {
  import opened Words
  import opened Packets
  import opened Blocks
  import opened BulkOnly
  import opened BulkOnlyCommands
  import BulkOnlySafety

  /** The answer to a command, in full. */
  function AnswerTo(d: Device, packet: seq<byte>): seq<byte>
    requires Receives(d, packet)
  {
    Answer(Accept(d, ParseCbw(packet)))
  }

  lemma RepliesAtOnce(d: Device, packet: seq<byte>, done: bool)
    requires Receives(d, packet) && IsReply(ParseCbw(packet))
    ensures Accept(d, ParseCbw(packet)).Valid()
    ensures Step(d, Out(packet, done)) == Reply(Accept(d, ParseCbw(packet)), AnswerTo(d, packet), done)
  {
    hide Reply, Answer, ParseCbw, Step, StartTransfer, Disk.Valid;
    Decodes(d, packet, done);
  }

  /**
   One packet goes out, the answer or as much of it as was asked for; the CSW follows when it has
   been collected. Where the endpoint reports completion at once the CSW has the rest as residue and
   passes; otherwise nothing has moved as far as the CSW is concerned, and its status is the last
   command's.
   */
  lemma AnswerIsSent(d: Device, packet: seq<byte>, done: bool)
    requires Receives(d, packet) && IsReply(ParseCbw(packet))
    ensures var c, r, a := ParseCbw(packet), Step(d, Out(packet, done)), AnswerTo(d, packet);
            var n := if c.dataLength < |a| then c.dataLength else |a|;
            var csw := if done then Csw(c.tag, c.dataLength - n, Passed)
                       else Csw(c.tag, c.dataLength, d.csw.status);
            && r.Valid() && r.disk == d.disk && r.stage == SendCsw && r.inFlight == d.inFlight + 1
            && r.log == d.log + [Accepted(c.tag), Data(a[..n])]
            && InCallback(r).log == r.log + [Reported(csw)] && InCallback(r).stage == WaitCsw
  {
    hide Answer, ParseCbw, Step, Wrap32, Disk.Valid;
    var c, a := ParseCbw(packet), AnswerTo(d, packet);
    var n := if c.dataLength < |a| then c.dataLength else |a|;
    StepKeepsValid(d, Out(packet, done));
    RepliesAtOnce(d, packet, done);
    BulkOnlySafety.AnswerSize(Accept(d, c));
    InsideWord(c.dataLength - n);
    assert d.log + [Accepted(c.tag)] + [Data(a[..n])] == d.log + [Accepted(c.tag), Data(a[..n])];
  }

  // The capacity

  /** Blocks there are, and that their number and size fit a word. */
  lemma BlocksOnDisk(disk: Disk)
    requires disk.Valid()
    ensures var n := |disk.bytes| / disk.blockSize;
            && n * disk.blockSize == |disk.bytes| && 1 <= n <= |disk.bytes| < 0x1_0000_0000
            && disk.blockSize <= |disk.bytes|
  {
    var n := |disk.bytes| / disk.blockSize;
    BlockStart(|disk.bytes|, disk.blockSize);
    Grows(n, disk.blockSize);
  }

  lemma Grows(n: nat, size: nat)
    requires 0 < size
    ensures n <= n * size
  {
    assert n * size == n + n * (size - 1);
  }

  /** READ CAPACITY names the last block and its size: the next block would start where the disk ends. */
  lemma CapacityIsTheDisk(d: Device, packet: seq<byte>)
    requires Receives(d, packet) && packet[15] == 0x25
    ensures var a := AnswerTo(d, packet);
            && |a| == 8 && (Be32(a[..4]) + 1) * Be32(a[4..]) == |d.disk.bytes|
            && Be32(a[4..]) == d.disk.blockSize
  {
    hide ParseCbw, Wrap32, Disk.Valid;
    CommandFields(packet);
    var d1 := Accept(d, ParseCbw(packet));
    BlocksOnDisk(d.disk);
    var n := |d.disk.bytes| / d.disk.blockSize;
    InsideWord(n);
    InsideWord(n - 1);
    InsideWord(d.disk.blockSize);
    var a := Answer(d1);
    assert a == ToBe32(n - 1) + ToBe32(d.disk.blockSize);
    assert a[..4] == ToBe32(n - 1) && a[4..] == ToBe32(d.disk.blockSize);
  }

  /** What a host that asks for all of it finds in the packet it collects. */
  lemma CapacityIsSent(d: Device, packet: seq<byte>, done: bool)
    requires Receives(d, packet) && packet[15] == 0x25
    requires ParseCbw(packet).dataLength >= 8
    ensures var r := Step(d, Out(packet, done));
            var sent := r.log[|r.log| - 1];
            && r.log == d.log + [Accepted(ParseCbw(packet).tag), sent] && sent.Data? && |sent.bytes| == 8
            && (Be32(sent.bytes[..4]) + 1) * Be32(sent.bytes[4..]) == |d.disk.bytes|
            && Be32(sent.bytes[4..]) == d.disk.blockSize
  {
    hide ParseCbw, Step, Answer, Disk.Valid;
    CommandFields(packet);
    AnswerIsSent(d, packet, done);
    CapacityIsTheDisk(d, packet);
    var a := AnswerTo(d, packet);
    assert a[..8] == a;
  }

  function Be24(s: seq<byte>): nat
    requires |s| == 3
  {
    Be32([0] + s)
  }

  /** The size in READ FORMAT CAPACITIES has three bytes. */
  lemma LowThreeBytes(x: uint32)
    ensures Be24(ToBe32(x)[1..]) == x % 0x100_0000
  {
    hide Be32, ToBe32;
    var s := ToBe32(x);
    assert [0] + s[1..] == [0, s[1], s[2], s[3]];
    assert s == [s[0], s[1], s[2], s[3]];
    Be32Sum(s[0], s[1], s[2], s[3]);
    Be32Sum(0, s[1], s[2], s[3]);
  }

  lemma Be32Sum(a: byte, b: byte, c: byte, d: byte)
    ensures Be32([a, b, c, d]) == 0x100_0000 * a + 0x1_0000 * b + 0x100 * c + d
  {
    assert [d, c, b, a][..2] == [d, c] && [d, c, b, a][2..] == [b, a];
  }

  /**
   READ FORMAT CAPACITIES lists one capacity: number and size of the blocks make up the disk, if
   and only if the size fits its three bytes.
   */
  lemma FormatCapacityIsTheDiskIff(d: Device, packet: seq<byte>)
    requires Receives(d, packet) && packet[15] == 0x23
    ensures var a := AnswerTo(d, packet);
            && |a| == 12 == 4 + a[3] && a[8] == 2
            && (Be32(a[4..8]) * Be24(a[9..]) == |d.disk.bytes| <==> d.disk.blockSize < 0x100_0000)
  {
    hide ParseCbw, Wrap32, Disk.Valid, Be24;
    CommandFields(packet);
    var d1, size := Accept(d, ParseCbw(packet)), d.disk.blockSize;
    BlocksOnDisk(d.disk);
    var n := |d.disk.bytes| / size;
    InsideWord(n);
    InsideWord(size);
    LowThreeBytes(size);
    var a := Answer(d1);
    assert a == [0, 0, 0, 8] + ToBe32(n) + [2] + ToBe32(size)[1..];
    assert a[4..8] == ToBe32(n) && a[9..] == ToBe32(size)[1..];
    SmallerProduct(n, size, 0x100_0000);
  }

  lemma SmallerProduct(n: nat, size: nat, m: nat)
    requires 0 < n && 0 < m
    ensures n * (size % m) == n * size <==> size < m
  {
    if size >= m {
      assert n * size == n * (size % m) + n * (size - size % m);
      Grows(n, size - size % m);
    }
  }

  // The fixed answers

  /** REQUEST SENSE: fixed format, an illegal request, with as many bytes as it announces. */
  lemma SenseSaysIllegal(d: Device, packet: seq<byte>)
    requires Receives(d, packet) && packet[15] == 0x03
    ensures var a := AnswerTo(d, packet);
            && |a| == 18 == 8 + a[7] && a[0] == 0x70 && a[2] == 5 && a[12..14] == [0x30, 0x01]
            && forall i :: 0 <= i < |a| && i !in {0, 2, 7, 12, 13} ==> a[i] == 0
  {
    hide ParseCbw;
    CommandFields(packet);
  }

  /** INQUIRY: a removable disk, named in three fields; it announces one byte more than it has. */
  lemma InquiryNamesTheDisk(d: Device, packet: seq<byte>)
    requires Receives(d, packet) && packet[15] == 0x12
    ensures var a := AnswerTo(d, packet);
            && |a| == 36 && 5 + a[4] == |a| + 1 && a[..8] == [0, 0x80, 0, 1, a[4], 0x80, 0, 0]
            && a[8..16] == Ascii("MBED.ORG") && a[16..32] == Ascii("MBED USB DISK   ") && a[32..] == Ascii("1.0 ")
  {
    hide ParseCbw, Ascii;
    CommandFields(packet);
    var a := AnswerTo(d, packet);
    assert a == [0, 0x80, 0, 1, 32, 0x80, 0, 0]
             + Ascii("MBED.ORG") + Ascii("MBED USB DISK   ") + Ascii("1.0 ");
  }

  /** Text is sent a byte a character. */
  lemma AsciiIsText(s: string, i: nat)
    requires i < |s| && s[i] < 128 as char
    ensures Ascii(s)[i] as char == s[i]
  {
  }

  /** MODE SENSE: no pages, and not write-protected, whether the disk is or not. */
  lemma ModeSenseHidesProtection(d: Device, packet: seq<byte>)
    requires Receives(d, packet) && packet[15] == 0x1A
    ensures AnswerTo(d, packet) == [3, 0, 0, 0]
    ensures AnswerTo(d, packet)[0] as int + 1 == |AnswerTo(d, packet)| && AnswerTo(d, packet)[2] / 0x80 == 0
  {
    hide ParseCbw;
    CommandFields(packet);
  }
}
