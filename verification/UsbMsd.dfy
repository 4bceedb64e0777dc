/** The mass-storage device as the object the USB interrupt drives, callback by callback. */
module UsbMsd {
  import opened Words
  import opened Packets
  import opened Blocks
  import B = BulkOnly
  import C = BulkOnlyCommands
  import Bounds = BulkOnlyBounds

  /** Reads of the page stay inside it: a READ in progress stands at the start of a packet. */
  predicate Aligned(d: B.Device) {
    d.stage == B.ProcessCbw && d.cbw.IsRead() ==> d.addr % MAX_PACKET == 0
  }

  lemma ReadKeepsAlignment(d: B.Device)
    requires d.Valid() && d.addr % MAX_PACKET == 0
    ensures Aligned(B.MemoryRead(d))
  {
    hide B.Loaded, B.ReadPacket, B.Overruns, B.Disk.Valid;
    C.WholePacketUnlessLast(d);
    NextAligned(d.addr);
  }

  /** From a packet boundary on, a packet comes out of the page whole. */
  lemma ReadPacketInside(d: B.Device)
    requires d.Valid() && d.addr % MAX_PACKET == 0
    ensures var o, n := d.Offset(), B.ReadSize(d);
            n <= MAX_PACKET ==> o + n <= d.disk.blockSize && B.ReadPacket(d) == B.Loaded(d)[o..o + n]
  {
    hide B.Loaded, B.ReadSize;
    C.RoomForPacket(d);
  }

  lemma LoadedDependsOn(d: B.Device, r: B.Device)
    requires d.Valid() && r.page == d.page && r.disk == d.disk && r.addr == d.addr
    ensures B.Loaded(r) == B.Loaded(d)
  {
  }

  lemma ReplaceNothing(s: seq<byte>, o: nat, t: seq<byte>)
    requires o <= |s|
    ensures B.Replace(s, o, t[..0]) == s
  {
  }

  lemma ReplaceOneMore(s: seq<byte>, o: nat, t: seq<byte>, i: nat)
    requires i < |t| && o + i < |s|
    ensures B.Replace(s, o, t[..i + 1]) == B.Replace(s, o, t[..i])[o + i := t[i]]
  {
    var r, q := B.Replace(s, o, t[..i + 1]), B.Replace(s, o, t[..i])[o + i := t[i]];
    assert forall k :: 0 <= k < |s| ==> r[k] == q[k];
  }

  class MassStorage {
    const blockSize: nat
    const writeProtected: bool
    const page: array<byte>
    var stage: B.Stage
    var cbw: B.Cbw
    var csw: B.Csw
    var addr: uint32
    var length: uint32
    var memOk: bool
    var disk: seq<byte>
    var inFlight: nat
    var log: seq<B.Event>

    /** The state of the device as a value. */
    ghost function Abstract(): B.Device
      reads this, page
    {
      B.Device(stage, cbw, csw, addr, length, memOk,
               page[..], B.Disk(disk, blockSize, writeProtected), inFlight, log)
    }

    ghost predicate Valid()
      reads this, page
    {
      Abstract().Valid() && Aligned(Abstract())
    }

    constructor (disk: seq<byte>, blockSize: nat, writeProtected: bool, cbw: B.Cbw, csw: B.Csw)
      requires B.Disk(disk, blockSize, writeProtected).Valid()
      ensures Valid() && fresh(page)
      ensures Abstract().disk == B.Disk(disk, blockSize, writeProtected)
      ensures stage == B.ReadCbw && inFlight == 0 && log == []
    {
      this.disk, this.blockSize, this.writeProtected := disk, blockSize, writeProtected;
      this.cbw, this.csw := cbw, csw;
      stage, addr, length, memOk, inFlight, log := B.ReadCbw, 0, 0, false, 0, [];
      page := new byte[blockSize];
    }

    // The endpoints and the storage chip

    method WriteEndpoint(bytes: seq<byte>)
      modifies this`inFlight, this`log
      ensures Abstract() == B.Queue(old(Abstract()), bytes)
    {
      if |bytes| <= MAX_PACKET {
        inFlight, log := inFlight + 1, log + [B.Data(bytes)];
      }
    }

    method StallEndpoint(inward: bool)
      modifies this`log
      ensures Abstract() == B.Stall(old(Abstract()), inward)
    {
      log := log + [B.Stalled(inward)];
    }

    method DiskRead(block: nat)
      requires page.Length == blockSize
      modifies page
      ensures page[..] == B.Disk(disk, blockSize, writeProtected).ReadBlock(block, old(page[..]))
    {
      var start := block * blockSize;
      if 0 <= start <= start + blockSize <= |disk| {
        forall i | 0 <= i < page.Length {
          page[i] := disk[start + i];
        }
      }
    }

    method DiskWrite(block: nat)
      requires page.Length == blockSize
      modifies this`disk
      ensures Abstract().disk == B.Disk(old(disk), blockSize, writeProtected).WriteBlock(block, page[..])
    {
      var start := block * blockSize;
      if 0 <= start && start + page.Length <= |disk| {
        disk := disk[..start] + page[..] + disk[start + page.Length..];
      }
    }

    method SendCsw()
      modifies this`stage, this`inFlight, this`log
      ensures Abstract() == B.SendStatus(old(Abstract()))
    {
      log := log + [B.Reported(csw)];
      inFlight := inFlight + 1;
      stage := B.WaitCsw;
    }

    method Conclude(status: B.Status)
      modifies this`csw, this`stage, this`inFlight, this`log
      ensures Abstract() == B.Finish(old(Abstract()), status)
    {
      csw := csw.(status := status);
      SendCsw();
    }

    // Data phase

    /** Limits a packet to what is left of the disk, and stops the transfer if that is less. */
    method CheckEnd(buf: seq<byte>) returns (size: uint16)
      requires Valid() && |buf| <= MAX_PACKET
      modifies this`stage, this`log
      ensures Abstract() == B.CheckEnd(old(Abstract()), buf)
      ensures size == B.Usable(old(Abstract()), buf)
    {
      size := |buf|;
      if Wrap32(addr + size) > |disk| {
        size := Wrap16(|disk| - addr);
        stage := B.Error;
        StallEndpoint(false);
      }
    }

    method FillPage(o: nat, buf: seq<byte>, size: uint16)
      requires size <= |buf| && o + size <= page.Length
      modifies page
      ensures page[..] == B.Overlay(old(page[..]), o, buf, size)
    {
      hide B.Replace;
      ghost var before := page[..];
      ReplaceNothing(before, o, buf);
      for i := 0 to size
        invariant page[..] == B.Replace(before, o, buf[..i])
      {
        ReplaceOneMore(before, o, buf, i);
        ghost var p := page[..];
        page[o + i] := buf[i];
        assert page[..] == p[o + i := buf[i]];
      }
    }

    method ComparePage(o: nat, buf: seq<byte>, size: uint16)
      requires o <= page.Length && B.ComparesInside(page[..], o, buf, 0, size)
      modifies this`memOk
      ensures var k := B.Landing(page[..], o, buf, size);
              memOk == (old(memOk) && page[o..o + k] == buf[..k])
    {
      var n := 0;
      while n < size
        invariant n <= size && n <= |buf| && o + n <= page.Length
        invariant B.ComparesInside(page[..], o, buf, n, size)
        invariant page[o..o + n] == buf[..n] && memOk == old(memOk)
      {
        if page[o + n] != buf[n] {
          ghost var k := B.Landing(page[..], o, buf, size);
          assert page[o..o + k][n] != buf[..k][n];
          memOk := false;
          break;
        }
        assert page[o..o + n + 1] == page[o..o + n] + [page[o + n]];
        n := n + 1;
      }
    }

    method Advance(size: uint32)
      modifies this`addr, this`length, this`csw
      ensures Abstract() == B.Advance(old(Abstract()), size)
    {
      addr := Wrap32(addr + size);
      length := Wrap32(length - size);
      csw := csw.(residue := Wrap32(csw.residue - size));
    }

    method MemoryWrite(buf: seq<byte>)
      requires Valid() && stage == B.ProcessCbw && !cbw.IsRead()
      requires |buf| <= MAX_PACKET && B.InBounds(Abstract(), buf)
      modifies this, page
      ensures Valid() && Abstract() == B.MemoryWrite(old(Abstract()), buf)
    {
      hide B.Usable, B.Overruns, B.Overlay, B.Disk.WriteBlock, B.Disk.Flush, Wrap32;
      ghost var d := Abstract();
      var size := CheckEnd(buf);
      FillPage(addr % blockSize, buf, size);
      FlushPage(size);
      Advance(size);
      if length == 0 || stage != B.ProcessCbw {
        Conclude(if stage == B.Error then B.Failed else B.Passed);
      }
    }

    method FlushPage(size: uint16)
      requires Valid()
      modifies this`disk
      ensures Abstract().disk == B.Disk(old(disk), blockSize, writeProtected).Flush(addr, page[..], size)
    {
      hide B.Disk.WriteBlock, Wrap32;
      if Wrap32(addr + size) % blockSize == 0 {
        if !writeProtected {
          DiskWrite(addr / blockSize);
        }
      }
    }

    /** At the beginning of a block the whole block is loaded. */
    method LoadPage()
      requires Abstract().Valid()
      modifies page
      ensures page[..] == B.Loaded(old(Abstract()))
    {
      if addr % blockSize == 0 {
        DiskRead(addr / blockSize);
      }
    }

    method MemoryVerify(buf: seq<byte>)
      requires Valid() && stage == B.ProcessCbw && !cbw.IsRead()
      requires |buf| <= MAX_PACKET && B.CompareInBounds(Abstract(), buf)
      modifies this, page
      ensures Valid() && Abstract() == B.MemoryVerify(old(Abstract()), buf)
    {
      hide B.Usable, B.Overruns, B.Loaded, B.Landing, B.InBounds, B.ComparesInside, Wrap32, B.Disk.Valid;
      ghost var d := Abstract();
      C.Bounds(d);
      LoadedDependsOn(d, B.CheckEnd(d, buf));
      Bounds.ComparesInsideIff(d, buf);
      var size := CheckEnd(buf);
      LoadPage();
      ComparePage(addr % blockSize, buf, size);
      Advance(size);
      if length == 0 || stage != B.ProcessCbw {
        Conclude(if memOk && stage == B.ProcessCbw then B.Passed else B.Failed);
      }
    }

    /** The size of the next packet of a READ; at the end of the disk the transfer stops. */
    method CheckReadEnd() returns (n: uint32)
      requires Abstract().Valid()
      modifies this`stage
      ensures n == B.ReadSize(old(Abstract()))
      ensures stage == if B.Overruns(old(Abstract()), B.Wanted(old(Abstract()))) then B.Error else old(stage)
    {
      hide Wrap32, B.Disk.Valid;
      n := if length > MAX_PACKET then MAX_PACKET else length;
      if Wrap32(addr + n) > |disk| {
        n := Wrap32(|disk| - addr);
        stage := B.Error;
      }
    }

    /** Sends what is in RAM, which the endpoint refuses if it is more than a packet. */
    method SendFromPage(n: uint32)
      requires Abstract().Valid() && (n <= MAX_PACKET ==> addr % blockSize + n <= page.Length)
      modifies this`inFlight, this`log
      ensures Abstract() == if n <= MAX_PACKET
                            then B.Queue(old(Abstract()), page[addr % blockSize..addr % blockSize + n])
                            else old(Abstract())
    {
      if n <= MAX_PACKET {
        WriteEndpoint(page[addr % blockSize..addr % blockSize + n]);
      }
    }

    method MemoryRead()
      requires Valid() && stage == B.ProcessCbw && addr % MAX_PACKET == 0
      modifies this, page
      ensures Valid() && Abstract() == B.MemoryRead(old(Abstract()))
    {
      hide B.Loaded, B.ReadPacket, B.ReadSize, B.Overruns, B.Wanted, Wrap32, B.Disk.Valid;
      ghost var d := Abstract();
      C.Bounds(d);
      ReadPacketInside(d);
      ReadKeepsAlignment(d);
      LoadedDependsOn(d, d.(stage := B.Error));
      var n := CheckReadEnd();
      LoadPage();
      SendFromPage(n);
      Advance(n);
      if length == 0 || stage != B.ProcessCbw {
        csw := csw.(status := if stage == B.ProcessCbw then B.Passed else B.Failed);
        stage := if stage == B.ProcessCbw then B.SendCsw else stage;
      }
    }

    // Command phase

    method InfoTransfer() returns (ok: bool)
      requires Valid() && stage == B.ReadCbw
      modifies this
      ensures (Abstract(), ok) == B.InfoTransfer(old(Abstract()))
      ensures Valid() && cbw == old(cbw) && (ok ==> addr % MAX_PACKET == 0)
    {
      hide B.Cbw.FirstBlock, B.Cbw.BlockCount;
      TargetAligned(cbw.FirstBlock(), blockSize);
      addr := Wrap32(cbw.FirstBlock() * blockSize);
      length := Wrap32(cbw.BlockCount() * blockSize);
      ok := true;
      if cbw.dataLength == 0 {
        Conclude(B.Failed);
        ok := false;
      } else if cbw.dataLength != length {
        StallEndpoint(cbw.In());
        Conclude(B.Failed);
        ok := false;
      }
    }

    method Reply(bytes: seq<byte>, done: bool)
      requires Valid() && |bytes| <= MAX_PACKET
      modifies this
      ensures Valid() && Abstract() == B.Reply(old(Abstract()), bytes, done)
    {
      var size: uint32 := |bytes|;
      if size >= cbw.dataLength {
        size := cbw.dataLength;
      }
      stage := B.SendCsw;
      WriteEndpoint(bytes[..size]);
      if done && size <= MAX_PACKET {
        csw := csw.(residue := Wrap32(csw.residue - size), status := B.Passed);
      }
    }

    method TestUnitReady()
      requires Valid()
      modifies this
      ensures Valid() && Abstract() == B.TestUnitReady(old(Abstract()))
    {
      if cbw.dataLength != 0 {
        StallEndpoint(cbw.In());
      }
      Conclude(B.Passed);
    }

    method StartTransfer()
      requires Valid() && stage == B.ReadCbw
      modifies this, page
      ensures Valid() && Abstract() == B.StartTransfer(old(Abstract()))
    {
      hide B.InfoTransfer, B.MemoryRead;
      var ok := InfoTransfer();
      if ok {
        if cbw.IsRead() {
          if cbw.In() {
            stage := B.ProcessCbw;
            MemoryRead();
          } else {
            StallEndpoint(false);
            Conclude(B.PhaseError);
          }
        } else if !cbw.In() {
          stage := B.ProcessCbw;
          if !cbw.IsWrite() {
            memOk := true;
          }
        } else {
          StallEndpoint(true);
          Conclude(B.PhaseError);
        }
      }
    }

    method CbwDecode(buf: seq<byte>, done: bool)
      requires Valid() && stage == B.ReadCbw
      modifies this, page
      ensures Valid() && Abstract() == B.CbwDecode(old(Abstract()), buf, done)
    {
      hide B.StartTransfer, B.ParseCbw, B.Answer, B.Reply;
      if |buf| == B.CBW_SIZE {
        cbw := B.ParseCbw(buf);
        if cbw.signature == B.CBW_SIGNATURE {
          csw := csw.(tag := cbw.tag, residue := cbw.dataLength);
          log := log + [B.Accepted(cbw.tag)];
          if cbw.cbLength < 1 || cbw.cbLength > 16 {
            Conclude(B.Failed);
          } else {
            Dispatch(done);
          }
        }
      }
    }

    method Dispatch(done: bool)
      requires Valid() && stage == B.ReadCbw
      modifies this, page
      ensures Valid() && Abstract() == B.Dispatch(old(Abstract()), done)
    {
      hide B.StartTransfer, B.Answer, B.Reply;
      var op := cbw.Op();
      if op == B.TEST_UNIT_READY {
        TestUnitReady();
      } else if op == B.REQUEST_SENSE || op == B.INQUIRY || op == B.MODE_SENSE6
                || op == B.READ_FORMAT_CAPACITIES || op == B.READ_CAPACITY {
        var bytes := Answer();
        Reply(bytes, done);
      } else if cbw.IsRead() || cbw.IsWrite() {
        StartTransfer();
      } else if op == B.VERIFY10 {
        if cbw.cb[1] / 2 % 2 == 0 {
          Conclude(B.Passed);
        } else {
          StartTransfer();
        }
      } else if op == B.MEDIA_REMOVAL {
        Conclude(B.Passed);
      } else {
        Conclude(B.Failed);
      }
    }

    method Answer() returns (bytes: seq<byte>)
      requires Valid()
      ensures bytes == B.Answer(Abstract())
      ensures |bytes| <= MAX_PACKET
    {
      bytes := B.Answer(B.Device(stage, cbw, csw, addr, length, memOk, page[..],
                                 B.Disk(disk, blockSize, writeProtected), inFlight, log));
    }

    // Callbacks

    /** A packet has arrived on the OUT endpoint. */
    method OutCallback(buf: seq<byte>, done: bool)
      requires Valid() && |buf| <= MAX_PACKET && B.Guarded(Abstract(), B.Out(buf, done))
      modifies this, page
      ensures Valid() && Abstract() == B.OutCallback(old(Abstract()), buf, done)
    {
      hide B.CbwDecode, B.MemoryWrite, B.MemoryVerify;
      match stage
      case ReadCbw => CbwDecode(buf, done);
      case ProcessCbw =>
        if cbw.IsWrite() {
          MemoryWrite(buf);
        } else if cbw.Op() == B.VERIFY10 {
          MemoryVerify(buf);
        }
      case _ =>
        StallEndpoint(false);
        Conclude(B.PhaseError);
    }

    /** The host has collected a packet from the IN endpoint. */
    method InCallback()
      requires Valid()
      modifies this, page
      ensures Valid() && Abstract() == B.InCallback(old(Abstract()))
    {
      hide B.MemoryRead;
      if inFlight > 0 {
        inFlight := inFlight - 1;
      }
      match stage
      case ProcessCbw =>
        if cbw.IsRead() {
          MemoryRead();
        }
      case SendCsw => SendCsw();
      case WaitCsw => stage := B.ReadCbw;
      case _ =>
        StallEndpoint(true);
        SendCsw();
    }
  }
}
