/** VERIFY with byte check refines "compare these blocks of the disk". */
module BulkOnlyVerify {
  import opened Words
  import opened Packets
  import opened Blocks
  import opened BulkOnly
  import opened BulkOnlyCommands

  predicate Verifying(d: Device, disk: Disk, start: nat, total: nat, got: seq<byte>) {
    && Moving(d, start, total, |got|) && d.cbw.IsByteCheck()
    && d.disk == disk && Cached(d)
    && d.memOk == (got == disk.bytes[start..start + |got|])
  }

  lemma MatchesWhole(d: Device, page: seq<byte>, p: seq<byte>)
    requires d.Valid() && |page| == |d.page| && Usable(d, p) == |p| && d.Offset() + |p| <= d.disk.blockSize
    ensures |page| == d.disk.blockSize
    ensures Matches(d, page, p) <==> page[d.Offset()..d.Offset() + |p|] == p
  {
    hide Usable, Overruns, Device.Offset;
    assert p[..|p|] == p;
  }

  /** The part of the loaded page at the current address is the disk there. */
  lemma LoadedIsDisk(d: Device, n: nat)
    requires d.Valid() && Cached(d)
    requires d.Offset() + n <= d.disk.blockSize && d.addr + n <= |d.disk.bytes|
    ensures |Loaded(d)| == d.disk.blockSize
    ensures Loaded(d)[d.Offset()..d.Offset() + n] == d.disk.bytes[d.addr..d.addr + n]
  {
    hide Loaded, Cached, Device.Offset;
    if n > 0 {
      LoadsBlock(d);
      SliceOfSlice(d.disk.bytes, BlockAt(d), d.disk.blockSize, d.Offset(), n);
    }
  }

  lemma MatchesDisk(d: Device, p: seq<byte>)
    requires d.Valid() && Cached(d) && Usable(d, p) == |p|
    requires d.Offset() + |p| <= d.disk.blockSize && d.addr + |p| <= |d.disk.bytes|
    ensures Matches(d, Loaded(d), p) == (p == d.disk.bytes[d.addr..d.addr + |p|])
  {
    hide Loaded, Usable, Matches, Disk.Valid, Cached, Device.Offset;
    LoadedIsDisk(d, |p|);
    MatchesWhole(d, Loaded(d), p);
  }

  lemma VerifyShape(d: Device, p: seq<byte>)
    requires d.Valid() && d.stage == ProcessCbw && Usable(d, p) == |p| && !Overruns(d, |p|)
    ensures var page := Loaded(d);
            var r := Advance(d.(page := page, memOk := d.memOk && Matches(d, page, p)), |p|);
            MemoryVerify(d, p) == if r.length == 0 then Finish(r, if r.memOk then Passed else Failed) else r
  {
    hide Loaded, Matches, Usable, Overruns, Wrap32, Disk.Valid;
  }

  lemma VerifyStep(d: Device, disk: Disk, start: nat, total: nat, got: seq<byte>, p: seq<byte>)
    requires Verifying(d, disk, start, total, got) && |got| < total
    requires |p| <= MAX_PACKET && d.Offset() + |p| <= d.disk.blockSize
    requires |got| + |p| <= total && start + |got| + |p| <= |disk.bytes|
    ensures var r, all := MemoryVerify(d, p), got + p;
            if |all| < total then Verifying(r, disk, start, total, all) && Undisturbed(d, r)
            else
              && r.disk == disk
              && Concluded(d, r, 0, if all == disk.bytes[start..start + |all|] then Passed else Failed)
  {
    hide Loaded, Matches, Usable, Overruns, Wrap32, Disk.Valid, MemoryVerify, Cached;
    UsedWhole(d, p);
    VerifyShape(d, p);
    MatchesDisk(d, p);
    EqualPieces(disk.bytes, got, p, start);
    StaysCached(d, |p|);
    var page := Loaded(d);
    var d1 := d.(page := page, memOk := d.memOk && Matches(d, page, p));
    AdvanceMoves(d1, start, total, |got|, |p|);
    CachedDependsOn(d.(page := page, addr := d.addr + |p|), Advance(d1, |p|));
  }

  lemma PacketVerifies(d: Device, p: seq<byte>, done: bool)
    requires d.Valid() && d.stage == ProcessCbw && d.cbw.IsByteCheck()
    ensures Run(d, [Out(p, done)]) == Step(d, Out(p, done)) == MemoryVerify(d, p)
  {
    hide MemoryVerify;
    RunOne(d, Out(p, done));
  }

  /**
   Any number of packets: until all have arrived the flag says whether what has come so far is
   what the disk holds; then the CSW does.
   */
  lemma {:induction false} VerifyMany(
    d: Device, disk: Disk, start: nat, total: nat, got: seq<byte>, packets: seq<seq<byte>>, done: bool)
    requires Verifying(d, disk, start, total, got) && |got| < total
    requires Fit(d.addr, d.disk.blockSize, packets)
    requires |got| + |Concat(packets)| <= total && start + |got| + |Concat(packets)| <= |disk.bytes|
    requires |got| + |Concat(packets)| == total ==> Ends(packets)
    ensures var r, all := Run(d, Outs(packets, done)), got + Concat(packets);
            if |all| < total then Verifying(r, disk, start, total, all) && Undisturbed(d, r)
            else
              && r.disk == disk
              && Concluded(d, r, 0, if all == disk.bytes[start..start + total] then Passed else Failed)
    decreases |packets|
  {
    hide Step, MemoryVerify, Disk.Valid, Cached, Ends, Outs;
    NoOuts(done);
    if packets == [] {
      assert got + [] == got;
    } else {
      var p, rest := packets[0], packets[1..];
      VerifyStep(d, disk, start, total, got, p);
      PacketVerifies(d, p, done);
      RunFirst(d, packets, done);
      AppendAssociates(got, p, Concat(rest));
      if |got + p| == total {
        assert Concat(rest) == [];
        NothingLeft(packets);
      } else {
        if |got| + |Concat(packets)| == total {
          EndsRest(packets);
        }
        VerifyMany(Step(d, Out(p, done)), disk, start, total, got + p, rest, done);
      }
    }
  }

  /** A packet beyond the end of the disk compares nothing and ends the command. */
  lemma VerifyBeyondEnd(d: Device, p: seq<byte>)
    requires d.Valid() && d.stage == ProcessCbw && Usable(d, p) == 0 && Overruns(d, |p|)
    ensures var r := MemoryVerify(d, p);
            && r.disk == d.disk && r.stage == WaitCsw
            && r.log == d.log + [Stalled(false), Reported(Csw(d.csw.tag, d.csw.residue, Failed))]
  {
    hide Loaded, Matches, Overruns, Usable, Wrap32, Disk.Valid;
    InsideWord(d.csw.residue);
    assert d.log + [Stalled(false)] + [Reported(Csw(d.csw.tag, d.csw.residue, Failed))]
        == d.log + [Stalled(false), Reported(Csw(d.csw.tag, d.csw.residue, Failed))];
  }

  lemma PacketBehindEnd(d: Device, disk: Disk, start: nat, total: nat, got: seq<byte>, extra: seq<byte>, done: bool)
    requires Verifying(d, disk, start, total, got) && start + |got| == |disk.bytes| && |got| < total
    requires 0 < |extra| <= MAX_PACKET
    ensures var r := Run(d, [Out(extra, done)]);
            && r.disk == disk && r.stage == WaitCsw
            && r.log == d.log + [Stalled(false), Reported(Csw(d.csw.tag, total - |got|, Failed))]
  {
    hide Run, Step, MemoryVerify, Overruns, Usable, Cached, Disk.Valid;
    PacketVerifies(d, extra, done);
    UsedNothing(d, extra);
    VerifyBeyondEnd(d, extra);
  }

  lemma OpensVerifying(d: Device, packet: seq<byte>, done: bool)
    requires Receives(d, packet)
    requires var c := ParseCbw(packet); c.IsByteCheck() && !c.In() && Starts(d.disk, c)
    ensures var c, r := ParseCbw(packet), Step(d, Out(packet, done));
            && Verifying(r, d.disk, Start(d.disk, c), c.dataLength, [])
            && r.Valid() && r.addr == Start(d.disk, c) && r.disk.blockSize == d.disk.blockSize
            && r.log == d.log + [Accepted(c.tag)] && r.csw.tag == c.tag
  {
    hide Step, Start, ParseCbw, Disk.Valid;
    Opens(d, packet, done);
    assert Opened(d, packet).Offset() == 0;
  }

  /**
   VERIFY with byte check passes if and only if the packets put together are the bytes of the
   blocks asked for; it changes nothing.
   */
  lemma VerifyComparesBlocks(d: Device, packet: seq<byte>, packets: seq<seq<byte>>, done: bool)
    requires Receives(d, packet)
    requires var c := ParseCbw(packet);
             && c.IsByteCheck() && !c.In() && InRange(d.disk, c)
             && Fit(Start(d.disk, c), d.disk.blockSize, packets)
             && |Concat(packets)| == c.dataLength && Ends(packets)
    ensures var c, r := ParseCbw(packet), Run(d, [Out(packet, done)] + Outs(packets, done));
            var start := Start(d.disk, c);
            var same := Concat(packets) == d.disk.bytes[start..start + c.dataLength];
            && r.disk == d.disk && r.stage == WaitCsw
            && r.log == d.log + [Accepted(c.tag), Reported(Csw(c.tag, 0, if same then Passed else Failed))]
  {
    hide Step, Run, Verifying, Fit, Disk.Valid, ParseCbw, Meaningful, Start;
    var c := ParseCbw(packet);
    OpensVerifying(d, packet, done);
    var d1 := Step(d, Out(packet, done));
    assert [] + Concat(packets) == Concat(packets);
    VerifyMany(d1, d.disk, Start(d.disk, c), c.dataLength, [], packets, done);
    CommandThenData(d, packet, Outs(packets, done), done);
  }

  /**
   A VERIFY that runs past the end of the disk fails at the first packet beyond it, whatever was
   compared before, with what was not compared as the residue; it changes nothing.
   */
  lemma VerifyStopsAtEnd(
    d: Device, packet: seq<byte>, packets: seq<seq<byte>>, extra: seq<byte>, done: bool)
    requires Receives(d, packet)
    requires var c := ParseCbw(packet);
             && c.IsByteCheck() && !c.In() && Starts(d.disk, c)
             && Fit(Start(d.disk, c), d.disk.blockSize, packets)
             && |Concat(packets)| == |d.disk.bytes| - Start(d.disk, c) < c.dataLength
             && 0 < |extra| <= MAX_PACKET
    ensures var c := ParseCbw(packet);
            var r := Run(d, [Out(packet, done)] + (Outs(packets, done) + [Out(extra, done)]));
            && r.disk == d.disk && r.stage == WaitCsw
            && r.log == d.log + [Accepted(c.tag), Stalled(false),
                                 Reported(Csw(c.tag, c.dataLength - |Concat(packets)|, Failed))]
  {
    hide Step, Run, Verifying, Fit, Disk.Valid, ParseCbw, Meaningful, Start;
    var c := ParseCbw(packet);
    var start, total, all := Start(d.disk, c), c.dataLength, Concat(packets);
    OpensVerifying(d, packet, done);
    var d1 := Step(d, Out(packet, done));
    assert [] + all == all;
    VerifyMany(d1, d.disk, start, total, [], packets, done);
    var d2 := Run(d1, Outs(packets, done));
    PacketBehindEnd(d2, d.disk, start, total, all, extra, done);
    RunAppend(d1, Outs(packets, done), [Out(extra, done)]);
    CommandThenData(d, packet, Outs(packets, done) + [Out(extra, done)], done);
  }
}
