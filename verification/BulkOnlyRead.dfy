/** READ refines "send these blocks of the disk", packet by packet out of the page. */
module BulkOnlyRead {
  import opened Words
  import opened Packets
  import opened Blocks
  import opened BulkOnly
  import opened BulkOnlyCommands

  /** The IN packets a string of bytes is sent as. */
  function Sent(bytes: seq<byte>): seq<Event> {
    var packets := Chunks(bytes);
    seq(|packets|, i requires 0 <= i < |packets| => Data(packets[i]))
  }

  lemma SentNothing()
    ensures Sent([]) == []
  {
  }

  lemma SentFirst(bytes: seq<byte>)
    requires MAX_PACKET <= |bytes|
    ensures Sent(bytes) == [Data(bytes[..MAX_PACKET])] + Sent(bytes[MAX_PACKET..])
  {
    if |bytes| == MAX_PACKET {
      assert bytes[..MAX_PACKET] == bytes;
    }
  }

  function Ins(n: nat): seq<Callback> {
    seq(n, i => In)
  }

  predicate Reading(d: Device, disk: Disk, start: nat, total: nat, moved: nat) {
    && Moving(d, start, total, moved) && d.cbw.IsRead()
    && d.disk == disk && Cached(d)
    && moved % MAX_PACKET == 0 && total % MAX_PACKET == 0 && d.addr % MAX_PACKET == 0
  }

  lemma PacketFromPage(d: Device)
    requires d.Valid() && Cached(d) && d.addr < |d.disk.bytes| && d.addr % MAX_PACKET == 0
    ensures d.Offset() + MAX_PACKET <= d.disk.blockSize && d.addr + MAX_PACKET <= |d.disk.bytes|
    ensures Loaded(d)[d.Offset()..d.Offset() + MAX_PACKET] == d.disk.bytes[d.addr..d.addr + MAX_PACKET]
  {
    hide Loaded, Cached, Device.Offset, Disk.Valid;
    var o := d.Offset();
    RoomForPacket(d);
    LoadsBlock(d);
    SliceOfSlice(d.disk.bytes, BlockAt(d), d.disk.blockSize, o, MAX_PACKET);
  }

  /** The shape of a read that has a full packet to send. */
  lemma ReadsFullPacket(d: Device)
    requires d.Valid() && d.stage == ProcessCbw && d.length >= MAX_PACKET
    requires d.Offset() + MAX_PACKET <= d.disk.blockSize && d.addr + MAX_PACKET <= |d.disk.bytes|
    ensures var page := Loaded(d);
            var r := Advance(Queue(d.(page := page), page[d.Offset()..d.Offset() + MAX_PACKET]), MAX_PACKET);
            MemoryRead(d) == if r.length == 0
                             then r.(csw := r.csw.(status := Passed), stage := SendCsw) else r
  {
    hide Loaded, Wrap32;
    InsideWord(d.addr + MAX_PACKET);
  }

  /** A read in the middle of a transfer sends the next 64 bytes of the disk. */
  lemma ReadStep(d: Device, disk: Disk, start: nat, total: nat, moved: nat)
    requires Reading(d, disk, start, total, moved)
    requires moved < total && start + moved < |disk.bytes|
    ensures d.addr + MAX_PACKET <= |disk.bytes|
    ensures var r := MemoryRead(d);
            && r.log == d.log + [Data(disk.bytes[d.addr..d.addr + MAX_PACKET])]
            && r.disk == disk && r.Valid()
            && r.csw.tag == d.csw.tag && r.csw.residue == total - moved - MAX_PACKET
            && if moved + MAX_PACKET < total then Reading(r, disk, start, total, moved + MAX_PACKET)
               else r.stage == SendCsw && r.csw.status == Passed
  {
    hide Loaded, MemoryRead, Cached, Wrap32, Disk.Valid, Device.Offset;
    var o := d.Offset();
    FullPacketLeft(moved, total);
    FullPacketLeft(d.addr, d.addr + MAX_PACKET);
    PacketFromPage(d);
    ReadsFullPacket(d);
    StaysCached(d, MAX_PACKET);
    var d1 := Queue(d.(page := Loaded(d)), Loaded(d)[o..o + MAX_PACKET]);
    AdvanceMoves(d1, start, total, moved, MAX_PACKET);
    assert Cached(Advance(d1, MAX_PACKET)) by {
      CachedDependsOn(d.(page := Loaded(d), addr := d.addr + MAX_PACKET), Advance(d1, MAX_PACKET));
    }
  }

  /** At the end of the disk a read sends an empty packet and gives up. */
  lemma ReadBeyondEnd(d: Device, disk: Disk, start: nat, total: nat, moved: nat)
    requires Reading(d, disk, start, total, moved)
    requires moved < total && start + moved == |disk.bytes|
    ensures var r := MemoryRead(d);
            && r.log == d.log + [Data([])] && r.disk == disk && r.Valid() && r.stage == Error
            && r.csw == Csw(d.csw.tag, total - moved, Failed)
  {
    hide Loaded, Cached, Wrap32;
    FullPacketLeft(moved, total);
    InsideWord(d.addr + MAX_PACKET);
    InsideWord(d.length);
    InsideWord(d.addr);
    InsideWord(0);
  }

  lemma CollectReads(d: Device)
    requires d.Valid() && d.stage == ProcessCbw && d.cbw.IsRead()
    ensures InCallback(d) == MemoryRead(d.(inFlight := if d.inFlight == 0 then 0 else d.inFlight - 1))
  {
    hide MemoryRead;
  }

  lemma CollectOne(d: Device, n: nat)
    requires d.Valid() && 0 < n
    ensures InCallback(d).Valid() && Run(d, Ins(n)) == Run(InCallback(d), Ins(n - 1))
  {
    StepKeepsValid(d, In);
    assert Step(d, In) == InCallback(d);
    hide Step, InCallback;
    assert Ins(n)[1..] == Ins(n - 1);
  }

  /** One more collection after the last packet of data brings the CSW. */
  lemma LastCollection(d: Device)
    requires d.Valid() && d.stage in {SendCsw, Error}
    ensures var r := Run(d, Ins(1));
            && r.stage == WaitCsw && r.disk == d.disk
            && r.log == d.log + (if d.stage == Error then [Stalled(true)] else []) + [Reported(d.csw)]
  {
    CollectOne(d, 1);
  }

  /** `moved` bytes of a transfer have gone out since `log`; the last of them ends the data phase. */
  ghost predicate SentSoFar(
    d: Device, log: seq<Event>, bytes: seq<byte>, disk: Disk, start: nat, total: uint32, moved: nat)
    requires moved <= total
  {
    && d.Valid() && d.disk == disk && d.csw.residue == total - moved
    && d.log == log + Sent(bytes)
    && if moved < total then Reading(d, disk, start, total, moved)
       else d.stage == SendCsw && d.csw.status == Passed
  }

  lemma SentMore(log: seq<Event>, s: seq<byte>, from: nat, next: nat, to: nat)
    requires from + MAX_PACKET == next <= to <= |s|
    ensures log + Sent(s[from..to]) == (log + [Data(s[from..next])]) + Sent(s[next..to])
  {
    hide Sent;
    var t := s[from..to];
    SentFirst(t);
    assert t[..MAX_PACKET] == s[from..next] && t[MAX_PACKET..] == s[next..to];
    AppendAssociates(log, [Data(s[from..next])], Sent(s[next..to]));
  }

  /** Each collection sends one more packet, and only that. */
  lemma {:induction false} ReadMany(
    d: Device, r: Device, disk: Disk, start: nat, total: uint32, moved: nat, n: nat)
    requires r.Valid() && d.Valid() && r == MemoryRead(d)
    requires Reading(d, disk, start, total, moved)
    requires moved + MAX_PACKET * (n + 1) <= total && start + moved + MAX_PACKET * (n + 1) <= |disk.bytes|
    ensures var to := moved + MAX_PACKET * (n + 1);
            && SentSoFar(Run(r, Ins(n)), d.log, disk.bytes[start + moved..start + to], disk, start, total, to)
            && Run(r, Ins(n)).csw.tag == d.csw.tag
    decreases n
  {
    hide MemoryRead, InCallback, Run, Cached, Disk.Valid, Sent;
    var bytes, at, next := disk.bytes, start + moved, start + moved + MAX_PACKET;
    ReadStep(d, disk, start, total, moved);
    if n == 0 {
      SentMore(d.log, bytes, at, next, next);
      SentNothing();
      assert bytes[next..next] == [];
      RunNothing(r);
    } else {
      var r' := r.(inFlight := if r.inFlight == 0 then 0 else r.inFlight - 1);
      CollectOne(r, n);
      CollectReads(r);
      CachedDependsOn(r, r');
      ReadMany(r', InCallback(r), disk, start, total, moved + MAX_PACKET, n - 1);
      SentMore(d.log, bytes, at, next, start + moved + MAX_PACKET * (n + 1));
    }
  }

  lemma RunNothing(d: Device)
    requires d.Valid()
    ensures Run(d, Ins(0)) == d
  {
  }

  /** Collecting `n` packets leaves the disk alone and the CSW behind all of `log`. */
  ghost predicate Delivers(d: Device, n: nat, disk: Disk, log: seq<Event>)
    requires d.Valid()
  {
    var r := Run(d, Ins(n));
    r.disk == disk && r.stage == WaitCsw && r.log == log
  }

  /** All has been sent: the last collection brings the CSW. */
  lemma ReadConcludes(d: Device, log: seq<Event>, bytes: seq<byte>, disk: Disk, start: nat, total: uint32)
    requires SentSoFar(d, log, bytes, disk, start, total, total)
    ensures Delivers(d, 1, disk, log + Sent(bytes) + [Reported(Csw(d.csw.tag, 0, Passed))])
  {
    hide Run, Sent, Disk.Valid;
    LastCollection(d);
  }

  /** The end of the disk: one collection finds nothing to send, the next brings the CSW. */
  lemma ReadGivesUp(
    d: Device, log: seq<Event>, bytes: seq<byte>, disk: Disk, start: nat, total: uint32, moved: nat)
    requires moved < total && start + moved == |disk.bytes|
    requires SentSoFar(d, log, bytes, disk, start, total, moved)
    ensures Delivers(d, 2, disk, log + Sent(bytes)
                     + [Data([]), Stalled(true), Reported(Csw(d.csw.tag, total - moved, Failed))])
  {
    hide Run, Sent, Disk.Valid, MemoryRead, InCallback, Cached;
    var d' := d.(inFlight := if d.inFlight == 0 then 0 else d.inFlight - 1);
    CachedDependsOn(d, d');
    CollectReads(d);
    ReadBeyondEnd(d', disk, start, total, moved);
    CollectOne(d, 2);
    LastCollection(InCallback(d));
  }

  lemma DeliversLater(d: Device, n: nat, m: nat, disk: Disk, log: seq<Event>)
    requires d.Valid() && Delivers(Run(d, Ins(n)), m, disk, log)
    ensures Delivers(d, n + m, disk, log)
  {
    hide Run, Ins;
    RunAppend(d, Ins(n), Ins(m));
    InsAdd(n, m);
  }

  lemma InsAdd(n: nat, m: nat)
    ensures Ins(n) + Ins(m) == Ins(n + m)
  {
  }

  lemma OpensReading(d: Device, packet: seq<byte>, done: bool)
    requires Receives(d, packet)
    requires var c := ParseCbw(packet); c.IsRead() && c.In() && Starts(d.disk, c)
    ensures var c, r := ParseCbw(packet), Opened(d, packet);
            && r.Valid() && Step(d, Out(packet, done)) == MemoryRead(r)
            && Reading(r, d.disk, Start(d.disk, c), c.dataLength, 0)
            && (|d.disk.bytes| - Start(d.disk, c)) % MAX_PACKET == 0
            && r.log == d.log + [Accepted(c.tag)] && r.csw.tag == c.tag
  {
    hide Step, Start, Starts, ParseCbw, MemoryRead, Disk.Valid;
    var c := ParseCbw(packet);
    Opens(d, packet, done);
    StartsOnPackets(d.disk, c);
    NotInsideBlock(Opened(d, packet), Start(d.disk, c), c.dataLength);
  }

  /**
   In the middle of a READ: after any number of collections exactly one packet more than that has
   been sent, and the residue is what is still to come.
   */
  lemma ReadGoesOn(d: Device, packet: seq<byte>, done: bool, n: nat)
    requires Receives(d, packet)
    requires var c := ParseCbw(packet);
             && c.IsRead() && c.In() && Starts(d.disk, c)
             && MAX_PACKET * (n + 1) <= c.dataLength
             && Start(d.disk, c) + MAX_PACKET * (n + 1) <= |d.disk.bytes|
    ensures var c, moved := ParseCbw(packet), MAX_PACKET * (n + 1);
            var start := Start(d.disk, c);
            SentSoFar(Run(d, [Out(packet, done)] + Ins(n)), d.log + [Accepted(c.tag)],
                      d.disk.bytes[start..start + moved], d.disk, start, c.dataLength, moved)
  {
    hide Step, Run, Opened, Start, ParseCbw, Disk.Valid, MemoryRead, Sent, Reading;
    var c := ParseCbw(packet);
    OpensReading(d, packet, done);
    StepKeepsValid(d, Out(packet, done));
    ReadMany(Opened(d, packet), Step(d, Out(packet, done)), d.disk, Start(d.disk, c), c.dataLength, 0, n);
    CommandThenData(d, packet, Ins(n), done);
  }

  lemma DeliversMeans(d: Device, n: nat)
    requires d.Valid()
    ensures forall disk, log :: Delivers(d, n, disk, log) ==>
              var r := Run(d, Ins(n)); r.disk == disk && r.stage == WaitCsw && r.log == log
  {
    hide Run;
  }

  /** A whole transfer, from its first read on. */
  lemma ReadsAll(d: Device, r: Device, disk: Disk, start: nat, total: uint32)
    requires r.Valid() && d.Valid() && r == MemoryRead(d)
    requires Reading(d, disk, start, total, 0) && 0 < total
    requires (|disk.bytes| - start) % MAX_PACKET == 0
    ensures var end, tag := |disk.bytes| - start, d.csw.tag;
            if total <= end then
              Delivers(r, total / MAX_PACKET, disk,
                       d.log + Sent(disk.bytes[start..start + total]) + [Reported(Csw(tag, 0, Passed))])
            else
              Delivers(r, end / MAX_PACKET + 1, disk,
                       d.log + Sent(disk.bytes[start..])
                       + [Data([]), Stalled(true), Reported(Csw(tag, total - end, Failed))])
  {
    hide MemoryRead, Run, Sent, Delivers, SentSoFar, Cached, Disk.Valid;
    var end := |disk.bytes| - start;
    var moved := if total <= end then total else end;
    if moved == 0 {
      ReadsNothing(d, r, disk, start, total);
    } else {
      var n, bytes := moved / MAX_PACKET - 1, disk.bytes[start..start + moved];
      ReadMany(d, r, disk, start, total, 0, n);
      var q := Run(r, Ins(n));
      if total <= end {
        ReadConcludes(q, d.log, bytes, disk, start, total);
        DeliversLater(r, n, 1, disk, d.log + Sent(bytes) + [Reported(Csw(d.csw.tag, 0, Passed))]);
      } else {
        ReadGivesUp(q, d.log, bytes, disk, start, total, moved);
        DeliversLater(r, n, 2, disk, d.log + Sent(bytes)
                      + [Data([]), Stalled(true), Reported(Csw(d.csw.tag, total - moved, Failed))]);
        assert bytes == disk.bytes[start..];
      }
    }
  }

  /** A READ right behind the last block. */
  lemma ReadsNothing(d: Device, r: Device, disk: Disk, start: nat, total: uint32)
    requires r.Valid() && d.Valid() && r == MemoryRead(d)
    requires Reading(d, disk, start, total, 0) && 0 < total && start == |disk.bytes|
    ensures Delivers(r, 1, disk, d.log + Sent(disk.bytes[start..])
                     + [Data([]), Stalled(true), Reported(Csw(d.csw.tag, total, Failed))])
  {
    hide MemoryRead, Run, Sent, Cached, Disk.Valid;
    ReadBeyondEnd(d, disk, start, total, 0);
    LastCollection(r);
    SentNothing();
    assert disk.bytes[start..] == [];
  }

  /**
   READ: the packets sent are the blocks asked for, as far as the disk goes, cut into full
   packets. A request that runs past the end is cut short, marked by an empty packet, and
   reported as failed with the rest as residue. The disk is unchanged.
   */
  lemma ReadDeliversBlocks(d: Device, packet: seq<byte>, done: bool)
    requires Receives(d, packet)
    requires var c := ParseCbw(packet); c.IsRead() && c.In() && Starts(d.disk, c)
    ensures var c := ParseCbw(packet);
            var start, total, tag := Start(d.disk, c), c.dataLength, c.tag;
            var end, bytes := |d.disk.bytes| - start, d.disk.bytes;
            if total <= end then
              var r := Run(d, [Out(packet, done)] + Ins(total / MAX_PACKET));
              && r.disk == d.disk && r.stage == WaitCsw
              && r.log == d.log + [Accepted(tag)] + Sent(bytes[start..start + total])
                          + [Reported(Csw(tag, 0, Passed))]
            else
              var r := Run(d, [Out(packet, done)] + Ins(end / MAX_PACKET + 1));
              && r.disk == d.disk && r.stage == WaitCsw
              && r.log == d.log + [Accepted(tag)] + Sent(bytes[start..])
                          + [Data([]), Stalled(true), Reported(Csw(tag, total - end, Failed))]
  {
    hide Step, Run, Opened, Start, ParseCbw, Disk.Valid, MemoryRead, Sent, Reading, SentSoFar, Delivers;
    var c := ParseCbw(packet);
    var start, total, d1 := Start(d.disk, c), c.dataLength, Step(d, Out(packet, done));
    var end := |d.disk.bytes| - start;
    OpensReading(d, packet, done);
    StepKeepsValid(d, Out(packet, done));
    ReadsAll(Opened(d, packet), d1, d.disk, start, total);
    var n := if total <= end then total / MAX_PACKET else end / MAX_PACKET + 1;
    CommandThenData(d, packet, Ins(n), done);
    DeliversMeans(d1, n);
  }
}
