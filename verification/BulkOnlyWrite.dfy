/** WRITE refines "replace these blocks of the disk", packet by packet through the page. */
module BulkOnlyWrite {
  import opened Words
  import opened Packets
  import opened Blocks
  import opened BulkOnly
  import opened BulkOnlyCommands

  /** The image of the disk once `data` has been written from `start` on. */
  function Written(disk: Disk, start: nat, data: seq<byte>): (r: Disk)
    requires start + |data| <= |disk.bytes|
    ensures |r.bytes| == |disk.bytes|
  {
    if disk.writeProtected then disk else disk.(bytes := Replace(disk.bytes, start, data))
  }

  /** Equal but for `n` bytes from `at` on. */
  predicate EqualOutside(s: seq<byte>, t: seq<byte>, at: nat, n: nat) {
    && |s| == |t| && at <= |s|
    && s[..at] == t[..at] && (at + n <= |s| ==> s[at + n..] == t[at + n..])
  }

  /**
   The disk as it should be, but for the block at `at`: an empty packet at its start makes the
   source write the page there with whatever it holds.
   */
  predicate Stands(actual: Disk, ideal: Disk, at: nat, clean: bool) {
    && actual.blockSize == ideal.blockSize && actual.writeProtected == ideal.writeProtected
    && if clean || ideal.writeProtected then actual == ideal
       else EqualOutside(actual.bytes, ideal.bytes, at, ideal.blockSize)
  }

  /**
   Whole blocks are on the disk; the rest of what was received waits in the page. `clean` if no
   packet was empty.
   */
  predicate Writing(d: Device, disk: Disk, start: nat, total: nat, got: seq<byte>, clean: bool) {
    && Moving(d, start, total, |got|) && d.cbw.IsWrite()
    && SameShape(d, d.(disk := disk))
    && d.Offset() <= |got|
    && d.page[..d.Offset()] == got[|got| - d.Offset()..]
    && Stands(d.disk, Written(disk, start, got[..|got| - d.Offset()]), BlockAt(d), clean)
  }

  lemma ReplaceTwice(s: seq<byte>, start: nat, t: seq<byte>, u: seq<byte>)
    requires start + |t| + |u| <= |s|
    ensures Replace(Replace(s, start, t), start + |t|, u) == Replace(s, start, t + u)
  {
  }

  lemma FillPage(d: Device, got: seq<byte>, p: seq<byte>)
    requires d.Valid() && Usable(d, p) == |p|
    requires d.Offset() <= |got| && d.page[..d.Offset()] == got[|got| - d.Offset()..]
    requires d.Offset() + |p| <= d.disk.blockSize
    ensures FilledPage(d, p)[..d.Offset() + |p|] == (got + p)[|got| - d.Offset()..]
  {
    hide Usable, Overruns;
    var o := d.Offset();
    assert p[..|p|] == p;
    assert FilledPage(d, p)[..o + |p|] == d.page[..o] + p;
  }

  lemma ReplaceOutside(s: seq<byte>, t: seq<byte>, at: nat, u: seq<byte>)
    requires EqualOutside(s, t, at, |u|) && at + |u| <= |s|
    ensures Replace(s, at, u) == Replace(t, at, u)
  {
  }

  /** Filling the page up to the end of its block puts the block on the disk. */
  lemma FlushBlock(
    d: Device, disk: Disk, start: nat, total: nat, got: seq<byte>, clean: bool, page: seq<byte>, n: nat)
    requires Writing(d, disk, start, total, got, clean)
    requires 0 < n && d.Offset() + n == d.disk.blockSize == |page|
    requires start + |got| + n <= |disk.bytes|
    ensures FlushedDisk(d, page, n) == Written(disk, start, got[..|got| - d.Offset()] + page)
  {
    hide Disk.WriteBlock, Disk.Valid, Wrap32, Replace, EqualOutside;
    var o, size := d.Offset(), d.disk.blockSize;
    Bounds(d);
    OffsetStep(d.addr, n, size);
    InsideWord(d.addr + n);
    WriteBlockAt(d.disk, d.addr, page);
    if !disk.writeProtected {
      var done := got[..|got| - o];
      assert EqualOutside(d.disk.bytes, Replace(disk.bytes, start, done), d.addr - o, size) by {
        EqualIsOutside(d.disk.bytes, d.addr - o, size);
      }
      ReplaceOutside(d.disk.bytes, Replace(disk.bytes, start, done), d.addr - o, page);
      ReplaceTwice(disk.bytes, start, done, page);
    }
  }

  lemma EqualIsOutside(s: seq<byte>, at: nat, n: nat)
    requires at <= |s|
    ensures EqualOutside(s, s, at, n)
  {
  }

  /** A packet that stays inside its block, and does not stand at the start of it, leaves the disk alone. */
  lemma NoFlush(d: Device, page: seq<byte>, n: nat)
    requires d.Valid() && |page| == |d.page|
    requires 0 < d.Offset() + n < d.disk.blockSize && d.addr + n < 0x1_0000_0000
    ensures FlushedDisk(d, page, n) == d.disk
  {
    hide Disk.WriteBlock, Disk.Valid, Wrap32;
    Bounds(d);
    OffsetStep(d.addr, n, d.disk.blockSize);
    InsideWord(d.addr + n);
  }

  /** An empty packet at the start of a block writes the page as it is to that block. */
  lemma FlushStale(d: Device, ideal: Disk, clean: bool, page: seq<byte>)
    requires d.Valid() && |page| == |d.page| && d.Offset() == 0 && d.addr <= |d.disk.bytes|
    requires Stands(d.disk, ideal, d.addr, clean)
    ensures Stands(FlushedDisk(d, page, 0), ideal, d.addr, false)
  {
    hide Disk.Valid;
    Bounds(d);
    if d.addr < |d.disk.bytes| {
      BlockInside(d.addr, d.disk.blockSize, |d.disk.bytes|) by { WholeBlocks(d); }
      WriteBlockAt(d.disk, d.addr, page);
    } else {
      NoFlushAtEnd(d, page);
    }
  }

  lemma WholeBlocks(d: Device)
    requires d.Valid()
    ensures |d.disk.bytes| % d.disk.blockSize == 0
  {
  }

  lemma StandsWeakly(actual: Disk, ideal: Disk, at: nat, clean: bool)
    requires Stands(actual, ideal, at, clean) && at <= |ideal.bytes|
    ensures Stands(actual, ideal, at, false)
  {
  }

  /** What a packet that fits into the block does to the page, and what is left to wait in it. */
  lemma PageAfter(d: Device, got: seq<byte>, p: seq<byte>, o: nat)
    requires d.Valid() && Usable(d, p) == |p|
    requires d.Offset() <= |got| && d.page[..d.Offset()] == got[|got| - d.Offset()..]
    requires d.Offset() + |p| <= d.disk.blockSize
    requires o == if d.Offset() + |p| == d.disk.blockSize then 0 else d.Offset() + |p|
    ensures FilledPage(d, p)[..o] == (got + p)[|got + p| - o..]
  {
    hide FilledPage, Usable, Overruns, Device.Valid;
    FillPage(d, got, p);
  }

  /** A packet that ends its block: the disk is as it should be. */
  lemma BlockDone(
    d: Device, disk: Disk, start: nat, total: nat, got: seq<byte>, clean: bool, p: seq<byte>, page: seq<byte>)
    requires Writing(d, disk, start, total, got, clean) && start + |got| + |p| <= |disk.bytes|
    requires p != [] && d.Offset() + |p| == d.disk.blockSize == |page|
    requires page == (got + p)[|got| - d.Offset()..]
    ensures FlushedDisk(d, page, |p|) == Written(disk, start, got + p)
  {
    hide Written, FlushedDisk, Stands, Disk.Valid;
    var o, all := d.Offset(), got + p;
    assert all == got[..|got| - o] + all[|got| - o..];
    FlushBlock(d, disk, start, total, got, clean, page, |p|);
  }

  /** A packet that stays inside its block: nothing changes but what may be stale. */
  lemma BlockWaits(
    d: Device, disk: Disk, start: nat, total: nat, got: seq<byte>, clean: bool, p: seq<byte>, page: seq<byte>)
    requires Writing(d, disk, start, total, got, clean) && start + |got| + |p| <= |disk.bytes|
    requires d.Offset() + |p| < d.disk.blockSize == |page|
    ensures var all := got + p;
            Stands(FlushedDisk(d, page, |p|), Written(disk, start, all[..|got| - d.Offset()]),
                   BlockAt(d), clean && p != [])
  {
    hide Written, FlushedDisk, Stands, Disk.Valid;
    var o := d.Offset();
    assert (got + p)[..|got| - o] == got[..|got| - o];
    var ideal := Written(disk, start, got[..|got| - o]);
    StandsWeakly(d.disk, ideal, d.addr - o, clean);
    if p == [] && o == 0 {
      FlushStale(d, ideal, clean, page);
    } else {
      Bounds(d);
      NoFlush(d, page, |p|);
    }
  }

  lemma StandsExactly(disk: Disk, at: nat, clean: bool)
    requires at <= |disk.bytes|
    ensures Stands(disk, disk, at, clean)
  {
  }

  /** What a packet that fits into the block does to page and disk. */
  lemma FillAndFlush(
    d: Device, disk: Disk, start: nat, total: nat, got: seq<byte>, clean: bool, p: seq<byte>)
    requires Writing(d, disk, start, total, got, clean)
    requires |p| <= MAX_PACKET && d.Offset() + |p| <= d.disk.blockSize
    requires start + |got| + |p| <= |disk.bytes|
    ensures Usable(d, p) == |p| && !Overruns(d, |p|)
    ensures var page, all := FilledPage(d, p), got + p;
            var o := (d.addr + |p|) % d.disk.blockSize;
            && o <= |all| && o <= d.addr + |p| && page[..o] == all[|all| - o..]
            && Stands(FlushedDisk(d, page, |p|), Written(disk, start, all[..|all| - o]),
                      d.addr + |p| - o, clean && p != [])
            && (o == 0 && p != [] ==> FlushedDisk(d, page, |p|) == Written(disk, start, all))
  {
    hide FilledPage, Written, Usable, Overruns, FlushedDisk, Stands, Disk.Valid;
    Bounds(d);
    UsedWhole(d, p);
    OffsetStep(d.addr, |p|, d.disk.blockSize);
    var o := (d.addr + |p|) % d.disk.blockSize;
    PageAfter(d, got, p, o);
    FillPage(d, got, p);
    var page, all := FilledPage(d, p), got + p;
    if d.Offset() + |p| == d.disk.blockSize {
      assert page[..d.Offset() + |p|] == page;
      BlockDone(d, disk, start, total, got, clean, p, page);
      assert all[..|all|] == all;
      StandsExactly(FlushedDisk(d, page, |p|), d.addr + |p|, clean);
    } else {
      BlockWaits(d, disk, start, total, got, clean, p, page);
    }
  }

  lemma SameShapeStaysValid(d: Device, r: Device)
    requires d.Valid() && SameShape(d, r)
    ensures r.Valid()
  {
  }

  lemma WriteShape(d: Device, p: seq<byte>)
    requires d.Valid() && d.stage == ProcessCbw && Usable(d, p) == |p| && !Overruns(d, |p|)
    ensures var page := FilledPage(d, p);
            var r := Advance(d.(page := page, disk := FlushedDisk(d, page, |p|)), |p|);
            MemoryWrite(d, p) == if r.length == 0 then Finish(r, Passed) else r
  {
    hide FilledPage, FlushedDisk, Usable, Overruns, Wrap32, Disk.Valid;
  }

  /** What there is to a data phase beside its contents. */
  lemma WritingMoves(d: Device, disk: Disk, start: nat, total: nat, got: seq<byte>, clean: bool)
    requires Writing(d, disk, start, total, got, clean)
    ensures d.Valid() && d.stage == ProcessCbw && Moving(d, start, total, |got|) && d.cbw.IsWrite()
    ensures SameShape(d, d.(disk := disk))
  {
    hide Stands, Written;
  }

  /** The contents of page and disk make a data phase that stands where it should. */
  lemma WritingAgain(d: Device, disk: Disk, start: nat, total: nat, all: seq<byte>, clean: bool, o: nat)
    requires Moving(d, start, total, |all|) && d.cbw.IsWrite() && SameShape(d, d.(disk := disk))
    requires o == d.Offset() <= |all| && o <= d.addr && d.page[..o] == all[|all| - o..]
    requires Stands(d.disk, Written(disk, start, all[..|all| - o]), d.addr - o, clean)
    ensures Writing(d, disk, start, total, all, clean)
  {
    hide Stands, Written, Moving;
  }

  /** Page and disk after a packet, before address and length follow. */
  lemma Filled(d: Device, disk: Disk, start: nat, total: nat, got: seq<byte>, clean: bool, p: seq<byte>)
    requires Writing(d, disk, start, total, got, clean)
    requires |p| <= MAX_PACKET && d.Offset() + |p| <= d.disk.blockSize
    requires |got| + |p| <= total && start + |got| + |p| <= |disk.bytes|
    ensures Usable(d, p) == |p| && !Overruns(d, |p|)
    ensures var page := FilledPage(d, p);
            var r := d.(page := page, disk := FlushedDisk(d, page, |p|));
            && r.Valid() && Moving(r, start, total, |got|) && SameShape(r, r.(disk := disk))
            && Moving(Advance(r, |p|), start, total, |got| + |p|)
            && Advance(r, |p|).addr == d.addr + |p| && Advance(r, |p|).length == total - |got| - |p|
            && 0 < r.disk.blockSize == d.disk.blockSize
  {
    hide FilledPage, FlushedDisk, Usable, Overruns, Stands, Written, Disk.Valid, Wrap32;
    FillAndFlush(d, disk, start, total, got, clean, p);
    var page := FilledPage(d, p);
    var r := d.(page := page, disk := FlushedDisk(d, page, |p|));
    Bounds(d);
    SameShapeStaysValid(d, r);
    AdvanceMoves(r, start, total, |got|, |p|);
  }

  lemma WriteGoesOn(d: Device, disk: Disk, start: nat, total: nat, got: seq<byte>, clean: bool, p: seq<byte>)
    requires Writing(d, disk, start, total, got, clean)
    requires |p| <= MAX_PACKET && d.Offset() + |p| <= d.disk.blockSize
    requires |got| + |p| < total && start + |got| + |p| <= |disk.bytes|
    ensures var r := MemoryWrite(d, p);
            Writing(r, disk, start, total, got + p, clean && p != []) && Undisturbed(d, r)
  {
    hide Writing, Moving, FilledPage, FlushedDisk, Usable, Overruns, Written, Wrap32, Stands, MemoryWrite, Disk.Valid;
    WritingMoves(d, disk, start, total, got, clean);
    FillAndFlush(d, disk, start, total, got, clean, p);
    Filled(d, disk, start, total, got, clean, p);
    WriteShape(d, p);
    var page := FilledPage(d, p);
    var r := Advance(d.(page := page, disk := FlushedDisk(d, page, |p|)), |p|);
    WritingAgain(r, disk, start, total, got + p, clean && p != [], r.Offset());
  }

  lemma WriteEnds(d: Device, disk: Disk, start: nat, total: nat, got: seq<byte>, clean: bool, p: seq<byte>)
    requires Writing(d, disk, start, total, got, clean)
    requires 0 < |p| <= MAX_PACKET && d.Offset() + |p| <= d.disk.blockSize
    requires |got| + |p| == total && start + total <= |disk.bytes| && (start + total) % d.disk.blockSize == 0
    ensures var r := MemoryWrite(d, p);
            r.disk == Written(disk, start, got + p) && Concluded(d, r, 0, Passed)
  {
    hide Writing, FilledPage, FlushedDisk, Usable, Overruns, Written, Wrap32, Stands, MemoryWrite, Disk.Valid;
    WritingMoves(d, disk, start, total, got, clean);
    FillAndFlush(d, disk, start, total, got, clean, p);
    Filled(d, disk, start, total, got, clean, p);
    WriteShape(d, p);
  }

  lemma PacketWrites(d: Device, p: seq<byte>, done: bool)
    requires d.Valid() && d.stage == ProcessCbw && d.cbw.IsWrite()
    ensures Run(d, [Out(p, done)]) == Step(d, Out(p, done)) == MemoryWrite(d, p)
  {
    RunOne(d, Out(p, done));
    hide MemoryWrite;
  }

  /** Any number of packets: the data phase goes on, or it has moved everything and is over. */
  lemma {:induction false} WriteMany(
    d: Device, disk: Disk, start: nat, total: nat, got: seq<byte>, clean: bool,
    packets: seq<seq<byte>>, done: bool)
    requires Writing(d, disk, start, total, got, clean) && |got| < total
    requires Fit(d.addr, d.disk.blockSize, packets)
    requires |got| + |Concat(packets)| <= total && start + |got| + |Concat(packets)| <= |disk.bytes|
    requires |got| + |Concat(packets)| == total ==> Ends(packets)
    requires (start + total) % d.disk.blockSize == 0
    ensures var r, all := Run(d, Outs(packets, done)), got + Concat(packets);
            if |all| < total
            then Writing(r, disk, start, total, all, clean && NoneEmpty(packets)) && Undisturbed(d, r)
            else r.disk == Written(disk, start, all) && Concluded(d, r, 0, Passed)
    decreases |packets|
  {
    hide Step, MemoryWrite, Written, Disk.Valid, Stands, Ends, Outs;
    NoOuts(done);
    if packets == [] {
      assert got + [] == got;
    } else {
      var p, rest := packets[0], packets[1..];
      PacketWrites(d, p, done);
      RunFirst(d, packets, done);
      AppendAssociates(got, p, Concat(rest));
      if |got + p| == total {
        assert Concat(rest) == [];
        NothingLeft(packets);
        WriteEnds(d, disk, start, total, got, clean, p);
      } else {
        if |got| + |Concat(packets)| == total {
          EndsRest(packets);
        }
        WriteGoesOn(d, disk, start, total, got, clean, p);
        WriteMany(Step(d, Out(p, done)), disk, start, total, got + p, clean && p != [], rest, done);
      }
    }
  }

  /** Behind the last block there is nothing to write to. */
  lemma NoFlushAtEnd(d: Device, page: seq<byte>)
    requires d.Valid() && |page| == |d.page| && d.addr == |d.disk.bytes|
    ensures FlushedDisk(d, page, 0) == d.disk
  {
    BlockStart(d.addr, d.disk.blockSize);
  }

  lemma StandsAtEnd(actual: Disk, ideal: Disk, clean: bool)
    requires Stands(actual, ideal, |ideal.bytes|, clean)
    ensures actual == ideal
  {
    var n := |ideal.bytes|;
    assert |actual.bytes| == n ==> actual.bytes[..n] == actual.bytes && ideal.bytes[..n] == ideal.bytes;
  }

  /** A packet beyond the end of the disk moves nothing and ends the command. */
  lemma WriteBeyondEnd(
    d: Device, disk: Disk, start: nat, total: nat, got: seq<byte>, clean: bool, extra: seq<byte>)
    requires Writing(d, disk, start, total, got, clean) && start + |got| == |disk.bytes| && |got| < total
    requires 0 < |extra| <= MAX_PACKET
    ensures var r := MemoryWrite(d, extra);
            && r.disk == Written(disk, start, got) && r.stage == WaitCsw
            && r.log == d.log + [Stalled(false), Reported(Csw(d.csw.tag, total - |got|, Failed))]
  {
    hide FlushedDisk, FilledPage, Written, Overruns, Usable;
    assert got[..|got| - 0] == got;
    StandsAtEnd(d.disk, Written(disk, start, got), clean);
    UsedNothing(d, extra);
    NoFlushAtEnd(d, FilledPage(d, extra));
  }

  lemma PacketBeyondEnd(
    d: Device, disk: Disk, start: nat, total: nat, got: seq<byte>, clean: bool, extra: seq<byte>, done: bool)
    requires Writing(d, disk, start, total, got, clean) && start + |got| == |disk.bytes| && |got| < total
    requires 0 < |extra| <= MAX_PACKET
    ensures var r := Run(d, [Out(extra, done)]);
            && r.disk == Written(disk, start, got) && r.stage == WaitCsw
            && r.log == d.log + [Stalled(false), Reported(Csw(d.csw.tag, total - |got|, Failed))]
  {
    hide MemoryWrite, Written, Step, Run;
    WriteBeyondEnd(d, disk, start, total, got, clean, extra);
    PacketWrites(d, extra, done);
  }

  lemma OpensWriting(d: Device, packet: seq<byte>, done: bool)
    requires Receives(d, packet)
    requires var c := ParseCbw(packet); c.IsWrite() && !c.In() && Starts(d.disk, c)
    ensures var c, r := ParseCbw(packet), Step(d, Out(packet, done));
            && Writing(r, d.disk, Start(d.disk, c), c.dataLength, [], true)
            && r.Valid() && r.addr == Start(d.disk, c) && r.disk.blockSize == d.disk.blockSize
            && r.log == d.log + [Accepted(c.tag)] && r.csw.tag == c.tag
  {
    var c := ParseCbw(packet);
    Opens(d, packet, done);
    assert Written(d.disk, Start(d.disk, c), []) == d.disk;
    assert Opened(d, packet).page[..0] == [];
    hide Step, Start, ParseCbw, Written, Disk.Valid;
  }

  /**
   WRITE: the blocks asked for are replaced by the packets put together, nothing else changes,
   and the command passes with nothing left over, empty packets on the way or not. A
   write-protected disk is left as it was, and the command passes all the same.
   */
  lemma WriteReplacesBlocks(d: Device, packet: seq<byte>, packets: seq<seq<byte>>, done: bool)
    requires Receives(d, packet)
    requires var c := ParseCbw(packet);
             && c.IsWrite() && !c.In() && InRange(d.disk, c)
             && Fit(Start(d.disk, c), d.disk.blockSize, packets)
             && |Concat(packets)| == c.dataLength && Ends(packets)
    ensures var c, r := ParseCbw(packet), Run(d, [Out(packet, done)] + Outs(packets, done));
            && r.disk == Written(d.disk, Start(d.disk, c), Concat(packets))
            && r.stage == WaitCsw
            && r.log == d.log + [Accepted(c.tag), Reported(Csw(c.tag, 0, Passed))]
  {
    hide Step, Run, Written, Writing, Fit, Disk.Valid, ParseCbw, Meaningful, Start;
    var c := ParseCbw(packet);
    var start, total := Start(d.disk, c), c.dataLength;
    OpensWriting(d, packet, done);
    StartsAligned(d.disk, c);
    var d1 := Step(d, Out(packet, done));
    assert [] + Concat(packets) == Concat(packets);
    WriteMany(d1, d.disk, start, total, [], true, packets, done);
    CommandThenData(d, packet, Outs(packets, done), done);
  }

  /**
   A WRITE that runs past the end of the disk: the blocks that exist are replaced, and the
   first packet beyond them ends the command, with what did not fit as the residue.
   */
  lemma WriteStopsAtEnd(
    d: Device, packet: seq<byte>, packets: seq<seq<byte>>, extra: seq<byte>, done: bool)
    requires Receives(d, packet)
    requires var c := ParseCbw(packet);
             && c.IsWrite() && !c.In() && Starts(d.disk, c)
             && Fit(Start(d.disk, c), d.disk.blockSize, packets)
             && |Concat(packets)| == |d.disk.bytes| - Start(d.disk, c) < c.dataLength
             && 0 < |extra| <= MAX_PACKET
    ensures var c := ParseCbw(packet);
            var r := Run(d, [Out(packet, done)] + (Outs(packets, done) + [Out(extra, done)]));
            && r.disk == Written(d.disk, Start(d.disk, c), Concat(packets))
            && r.stage == WaitCsw
            && r.log == d.log + [Accepted(c.tag), Stalled(false),
                                 Reported(Csw(c.tag, c.dataLength - |Concat(packets)|, Failed))]
  {
    hide Step, Run, Written, Writing, Fit, Disk.Valid, ParseCbw, Meaningful, Start;
    var c := ParseCbw(packet);
    var start, total, all := Start(d.disk, c), c.dataLength, Concat(packets);
    OpensWriting(d, packet, done);
    StartsAligned(d.disk, c);
    var d1 := Step(d, Out(packet, done));
    assert [] + all == all;
    WriteMany(d1, d.disk, start, total, [], true, packets, done);
    var d2 := Run(d1, Outs(packets, done));
    PacketBeyondEnd(d2, d.disk, start, total, all, NoneEmpty(packets), extra, done);
    RunAppend(d1, Outs(packets, done), [Out(extra, done)]);
    CommandThenData(d, packet, Outs(packets, done) + [Out(extra, done)], done);
  }
}
