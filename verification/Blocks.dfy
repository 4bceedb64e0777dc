/** Blocks, packets and offsets: the arithmetic of addresses on a disk of whole blocks. */
module Blocks {
  import opened Words
  import opened Packets

  lemma NextMultiple(p: int, q: int, size: nat)
    requires p < q
    ensures p * size + size <= q * size
  {
    var k := q - p - 1;
    assert q * size == p * size + size + k * size;
  }

  lemma DivisionUnique(p: int, r: nat, q: int, t: nat, size: nat)
    requires r < size && t < size
    requires p * size + r == q * size + t
    ensures p == q && r == t
  {
    if p < q {
      NextMultiple(p, q, size);
    } else if q < p {
      NextMultiple(q, p, size);
    }
  }

  lemma MultipleAligned(p: nat, size: nat, n: int)
    requires 0 < size && n == p * size
    ensures 0 <= n && n % size == 0
  {
    DivisionUnique(p, 0, n / size, n % size, size);
  }

  lemma SumOfMultiples(p: nat, q: nat, size: nat, m: nat, n: nat)
    requires 0 < size && m == p * size && n == q * size
    ensures (m + n) % size == 0
  {
    MultipleAligned(p + q, size, m + n);
  }

  lemma BlockStart(addr: nat, size: nat)
    requires 0 < size
    ensures addr / size * size == addr - addr % size
  {
  }

  lemma OffsetBelow(addr: nat, size: nat)
    requires 0 < size
    ensures addr % size <= addr
  {
    BlockStart(addr, size);
  }

  lemma OffsetStep(addr: nat, n: nat, size: nat)
    requires 0 < size && addr % size + n <= size
    ensures (addr + n) % size == if addr % size + n == size then 0 else addr % size + n
  {
    var q, o := addr / size, addr % size;
    var q', o' := (addr + n) / size, (addr + n) % size;
    if o + n == size {
      assert addr + n == (q + 1) * size;
      DivisionUnique(q + 1, 0, q', o', size);
    } else {
      DivisionUnique(q, o + n, q', o', size);
    }
  }

  /** An address below the end of a disk of whole blocks lies in a block that is all there. */
  lemma BlockInside(addr: nat, size: nat, end: nat)
    requires 0 < size && end % size == 0 && addr < end
    ensures addr - addr % size + size <= end
  {
    var q, r := addr / size, end / size;
    BlockStart(addr, size);
    BlockStart(end, size);
    if q < r {
      NextMultiple(q, r, size);
    } else if r < q {
      NextMultiple(r, q, size);
    }
  }

  /** The last bytes before the end, at most a block of them, lie in the last block. */
  lemma InLastBlock(addr: nat, size: nat, end: nat)
    requires 0 < size && end % size == 0 && addr < end <= addr + size
    ensures addr % size + (end - addr) <= size
  {
    var q, r, o := addr / size, end / size, addr % size;
    BlockStart(addr, size);
    BlockStart(end, size);
    assert (q + 1) * size == addr - o + size;
    if q + 1 < r {
      NextMultiple(q + 1, r, size);
    } else if r < q + 1 {
      NextMultiple(r, q + 1, size);
    }
  }

  lemma PacketMultiple(k: int)
    ensures MAX_PACKET * k % MAX_PACKET == 0
  {
  }

  lemma WholeNumber(n: int)
    requires n % MAX_PACKET == 0
    ensures n == MAX_PACKET * (n / MAX_PACKET)
  {
  }

  lemma DifferenceOfPackets(m: nat, n: nat)
    requires m % MAX_PACKET == 0 && n % MAX_PACKET == 0
    ensures (m - n) % MAX_PACKET == 0
  {
    WholeNumber(m);
    WholeNumber(n);
    PacketMultiple(m / MAX_PACKET - n / MAX_PACKET);
  }

  lemma FullPacketLeft(moved: nat, total: nat)
    requires moved % MAX_PACKET == 0 && total % MAX_PACKET == 0 && moved < total
    ensures moved + MAX_PACKET <= total && (moved + MAX_PACKET) % MAX_PACKET == 0
  {
    WholeNumber(moved);
    WholeNumber(total);
    PacketMultiple(moved / MAX_PACKET + 1);
  }

  lemma TimesPackets(n: nat, size: nat)
    requires size % MAX_PACKET == 0
    ensures n * size % MAX_PACKET == 0
  {
    var m := size / MAX_PACKET;
    assert n * size == MAX_PACKET * (n * m);
    PacketMultiple(n * m);
  }

  lemma WrapBy(x: int)
    ensures Wrap32(x) == x - 0x1_0000_0000 * (x / 0x1_0000_0000)
  {
  }

  /** Wrapping leaves a packet boundary one. */
  lemma WrapAligned(x: int)
    requires x % MAX_PACKET == 0
    ensures Wrap32(x) % MAX_PACKET == 0
  {
    hide Wrap32;
    WrapBy(x);
    WholeNumber(x);
    PacketMultiple(x / MAX_PACKET - 0x400_0000 * (x / 0x1_0000_0000));
  }

  /** A transfer starts on a packet boundary even if its address wraps. */
  lemma TargetAligned(n: nat, size: nat)
    requires size % MAX_PACKET == 0
    ensures Wrap32(n * size) % MAX_PACKET == 0
  {
    hide Wrap32;
    TimesPackets(n, size);
    WrapAligned(n * size);
  }

  lemma NextAligned(a: uint32)
    requires a % MAX_PACKET == 0
    ensures Wrap32(a + MAX_PACKET) % MAX_PACKET == 0
  {
    hide Wrap32;
    WholeNumber(a);
    PacketMultiple(a / MAX_PACKET + 1);
    WrapAligned(a + MAX_PACKET);
  }

  lemma BlocksAreWholePackets(n: nat, size: nat)
    requires 0 < size && size % MAX_PACKET == 0 && n % size == 0
    ensures n % MAX_PACKET == 0
  {
    BlockStart(n, size);
    TimesPackets(n / size, size);
  }

  lemma PacketAligned(addr: nat, size: nat)
    requires 0 < size && size % MAX_PACKET == 0 && addr % MAX_PACKET == 0
    ensures addr % size + MAX_PACKET <= size && addr % size <= addr
  {
    var q := addr / size;
    BlockStart(addr, size);
    TimesPackets(q, size);
    DifferenceOfPackets(addr, q * size);
    FullPacketLeft(addr % size, size);
  }

  lemma SliceOfSlice(s: seq<byte>, start: nat, n: nat, o: nat, k: nat)
    requires start + n <= |s| && o + k <= n
    ensures s[start..start + n][o..o + k] == s[start + o..start + o + k]
  {
    var t, u := s[start..start + n][o..o + k], s[start + o..start + o + k];
    assert forall i :: 0 <= i < k ==> t[i] == u[i];
  }

  lemma EqualPieces(s: seq<byte>, t: seq<byte>, u: seq<byte>, start: nat)
    requires start + |t| + |u| <= |s|
    ensures (t + u == s[start..start + |t + u|])
         <==> (t == s[start..start + |t|] && u == s[start + |t|..start + |t| + |u|])
  {
    var v := s[start..start + |t + u|];
    assert v == s[start..start + |t|] + s[start + |t|..start + |t| + |u|];
    assert (t + u)[..|t|] == t && (t + u)[|t|..] == u;
  }
}
