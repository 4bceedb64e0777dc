/** The circular buffer of the serial port, readable and poppable from both ends. */
module Xifo {
  import opened Words
  import opened BoundedQueue

  const MAX_INDEX: uint32 := 0xFFFF_FFFF

  /** A pool position that may have run off the start of the pool by less than its size. */
  function Wrap(k: int, size: nat): (r: nat)
    requires -(size as int) <= k < size
    ensures r < size
  {
    if k < 0 then k + size else k
  }

  /** The elements behind `read`, oldest first: the newest one is at `read`. */
  function Window(pool: seq<byte>, read: nat, count: nat): (r: seq<byte>)
    requires read < |pool| && count <= |pool|
    ensures |r| == count
    ensures forall j :: 0 <= j < count ==> r[j] == pool[Wrap(read + 1 - count + j, |pool|)]
  {
    seq(count, j requires 0 <= j < count => pool[Wrap(read + 1 - count + j, |pool|)])
  }

  /** Read and write position agree: the next element goes behind the newest one. */
  predicate Adjacent(read: nat, write: nat, size: nat) {
    write == if read + 1 == size then 0 else read + 1
  }

  /** An older element stays where it is when the position moves on and a slot elsewhere is written. */
  lemma KeepsOlder(pool: seq<byte>, read: nat, write: nat, count: nat, x: byte, back: nat)
    requires read < |pool| && write < |pool| && Adjacent(read, write, |pool|)
    requires 0 < back < |pool| && back <= count <= |pool|
    ensures pool[write := x][Wrap(write - back, |pool|)] == Window(pool, read, count)[count - back]
  {
  }

  lemma WriteAppends(pool: seq<byte>, read: nat, write: nat, count: nat, x: byte)
    requires read < |pool| && write < |pool| && count <= |pool|
    requires count > 0 ==> Adjacent(read, write, |pool|)
    ensures var count' := if count + 1 >= |pool| then |pool| else count + 1;
            Window(pool[write := x], write, count') == Push(Window(pool, read, count), x, |pool|)
  {
    hide Window, Push, Wrap, Adjacent;
    var n := |pool|;
    var count' := if count + 1 >= n then n else count + 1;
    var old', new' := Push(Window(pool, read, count), x, n), Window(pool[write := x], write, count');
    PushIs(Window(pool, read, count), x, n);
    forall j | 0 <= j < count'
      ensures new'[j] == old'[j]
    {
      assert new'[j] == pool[write := x][Wrap(write + 1 - count' + j, n)];
      if j == count' - 1 {
        WrapInside(write, n);
      } else {
        KeepsOlder(pool, read, write, count, x, count' - 1 - j);
      }
    }
  }

  lemma WrapInside(k: nat, size: nat)
    requires k < size
    ensures Wrap(k, size) == k
  {
  }

  lemma PopOldest(pool: seq<byte>, read: nat, count: nat)
    requires read < |pool| && 0 < count <= |pool|
    ensures var k := Wrap(read + 1 - count, |pool|);
            && Window(pool, read, count)[0] == pool[k]
            && Window(pool[k := 0], read, count - 1) == Window(pool, read, count)[1..]
  {
    var k := Wrap(read + 1 - count, |pool|);
    var rest := Window(pool[k := 0], read, count - 1);
    forall j | 0 <= j < count - 1
      ensures rest[j] == Window(pool, read, count)[j + 1]
    {
      assert rest[j] == pool[k := 0][Wrap(read + 1 - (count - 1) + j, |pool|)];
    }
  }

  lemma PopNewest(pool: seq<byte>, read: nat, count: nat)
    requires read < |pool| && 0 < count <= |pool|
    ensures Window(pool, read, count)[count - 1] == pool[read]
    ensures Window(pool[read := 0], Wrap(read - 1, |pool|), count - 1) == Window(pool, read, count)[..count - 1]
  {
    var back := Wrap(read - 1, |pool|);
    var rest := Window(pool[read := 0], back, count - 1);
    forall j | 0 <= j < count - 1
      ensures rest[j] == Window(pool, read, count)[j]
    {
      assert rest[j] == pool[read := 0][Wrap(back + 1 - (count - 1) + j, |pool|)];
    }
  }

  class Buffer {
    const pool: array<byte>
    const size: uint32
    var read: nat
    var write: nat
    var full: byte
    var elementCount: uint32

    ghost predicate Valid()
      reads this
    {
      && 1 <= size < MAX_INDEX && pool.Length == size
      && read < size && write < size && elementCount <= size
      && full <= 1 && (full == 1 <==> elementCount == size)
      && (elementCount > 0 ==> Adjacent(read, write, size))
    }

    ghost function Contents(): (s: seq<byte>)
      requires Valid()
      reads this, pool
      ensures |s| == elementCount
    {
      Window(pool[..], read, elementCount)
    }

    constructor (pool: array<byte>, size: uint32)
      requires 1 <= size < MAX_INDEX && pool.Length == size
      ensures Valid() && this.pool == pool && this.size == size && Contents() == []
    {
      this.pool, this.size := pool, size;
      read, write, full, elementCount := 0, 0, 0, 0;
    }

    /** Initialising again empties the buffer and leaves the pool as it is. */
    method Reset()
      requires Valid()
      modifies this
      ensures Valid() && Contents() == []
    {
      full, elementCount, read, write := 0, 0, 0, 0;
    }

    /** Zeroes the pool, and so every element; it does not change how many there are. */
    method Clear()
      requires Valid()
      modifies pool
      ensures Valid() && |Contents()| == old(|Contents()|)
      ensures forall i :: 0 <= i < pool.Length ==> pool[i] == 0
      ensures forall i :: 0 <= i < |Contents()| ==> Contents()[i] == 0
    {
      var ptemp := 0;
      while ptemp <= pool.Length - 1
        invariant 0 <= ptemp <= pool.Length
        invariant forall i :: 0 <= i < ptemp ==> pool[i] == 0
      {
        pool[ptemp] := 0;
        ptemp := ptemp + 1;
      }
    }

    method Write(data: byte) returns (room: uint32)
      requires Valid()
      modifies this, pool
      ensures Valid() && Contents() == Push(old(Contents()), data, size)
      ensures room == size - elementCount
    {
      WriteAppends(pool[..], read, write, elementCount, data);
      ghost var p := pool[..];
      pool[write] := data;
      assert pool[..] == p[write := data];
      read := write;
      write := write + 1;
      if write > size - 1 {
        write := 0;
      }
      elementCount := elementCount + 1;
      if elementCount >= size {
        full := 1;
        elementCount := size;
      }
      room := size - elementCount;
    }

    /** Index 0 is the least recent element; 0 where there is none. */
    method ReadLr(index: uint32) returns (r: byte)
      requires Valid()
      ensures index < elementCount ==> r == Contents()[index]
      ensures elementCount <= index < MAX_INDEX ==> r == 0
      ensures index == MAX_INDEX ==> r == pool[Wrap(read - elementCount, size)]
    {
      if Wrap32(index + 1) > elementCount {
        return 0;
      }
      var back := Wrap32(elementCount - 1 - index);
      var ptemp := read - back;
      if ptemp < 0 {
        ptemp := size - (0 - ptemp);
      }
      r := pool[ptemp];
    }

    /**
     Index 0 is the most recent element; 0 where there is none. The last index passes the guard
     and reads the slot after the newest element; `behind` is what memory holds after the pool.
     */
    method ReadMr(index: uint32, behind: byte) returns (r: byte)
      requires Valid()
      ensures index < elementCount ==> r == Contents()[elementCount - 1 - index]
      ensures elementCount <= index < MAX_INDEX ==> r == 0
      ensures index == MAX_INDEX ==> r == if read + 1 < size then pool[read + 1] else behind
    {
      if Wrap32(index + 1) > elementCount {
        return 0;
      }
      // a 32-bit pointer difference: subtracting the last index adds 1
      var ptemp := if index == MAX_INDEX then read + 1 else read - index;
      if ptemp < 0 {
        ptemp := size - (0 - ptemp);
      }
      r := if ptemp == size then behind else pool[ptemp];
    }

    method PopMr() returns (r: byte)
      requires Valid()
      modifies this, pool
      ensures Valid()
      ensures old(Contents()) == [] ==> r == 0 && Contents() == []
      ensures old(Contents()) != [] ==>
        old(Contents()) == Contents() + [r]
    {
      hide Window;
      if elementCount == 0 {
        return 0;
      }
      PopNewest(pool[..], read, elementCount);
      ghost var p, s := pool[..], Contents();
      r := pool[read];
      pool[read] := 0;
      assert pool[..] == p[read := 0];
      write := read;
      var ptr: int := read - 1;
      if ptr < 0 {
        ptr := size - 1;
      }
      read := ptr;
      elementCount := elementCount - 1;
      if elementCount < size {
        full := 0;
      }
      assert s == s[..|s| - 1] + [s[|s| - 1]];
    }

    method PopLr() returns (r: byte)
      requires Valid()
      modifies this, pool
      ensures Valid()
      ensures old(Contents()) == [] ==> r == 0 && Contents() == []
      ensures old(Contents()) != [] ==> old(Contents()) == [r] + Contents()
    {
      hide Window;
      if elementCount == 0 {
        return 0;
      }
      PopOldest(pool[..], read, elementCount);
      ghost var p, s := pool[..], Contents();
      var ptemp: int := read + 1 - elementCount;
      if ptemp < 0 {
        ptemp := size - (0 - ptemp);
      }
      r := pool[ptemp];
      pool[ptemp] := 0;
      assert pool[..] == p[ptemp := 0];
      elementCount := elementCount - 1;
      if elementCount < size {
        full := 0;
      }
      assert s == [s[0]] + s[1..];
    }

    method GetUsed() returns (n: uint32)
      requires Valid()
      ensures n == |Contents()|
    {
      n := elementCount;
    }

    method GetFree() returns (n: uint32)
      requires Valid()
      ensures n + |Contents()| == size
    {
      n := size - elementCount;
    }

    method GetFull() returns (f: byte)
      requires Valid()
      ensures f == if |Contents()| == size then 1 else 0
    {
      f := full;
    }

    /** The serial interrupt: every byte that has arrived goes into the buffer. */
    method Receive(bytes: seq<byte>)
      requires Valid()
      modifies this, pool
      ensures Valid() && Contents() == Last(old(Contents()) + bytes, size)
    {
      ghost var before := Contents();
      PushAllKeepsLast(before, bytes, size);
      for i := 0 to |bytes|
        invariant Valid()
        invariant PushAll(Contents(), bytes[i..], size) == PushAll(before, bytes, size)
      {
        assert bytes[i..][1..] == bytes[i + 1..];
        var _ := Write(bytes[i]);
      }
    }

    /** The main loop: takes everything out in order of arrival and starts afresh. */
    method Drain() returns (out: seq<byte>)
      requires Valid()
      modifies this, pool
      ensures Valid() && Contents() == [] && out == old(Contents())
    {
      ghost var before := Contents();
      out := [];
      var used := GetUsed();
      while used != 0
        invariant Valid() && used == |Contents()|
        invariant out + Contents() == before
        decreases |Contents()|
      {
        var x := PopLr();
        out := out + [x];
        used := GetUsed();
      }
      Reset();
      Clear();
    }

    /** What the main loop gets to see of a burst of bytes. */
    method ReceiveAndDrain(bytes: seq<byte>) returns (out: seq<byte>)
      requires Valid() && Contents() == []
      modifies this, pool
      ensures Valid() && Contents() == []
      ensures out == if |bytes| <= size then bytes else bytes[|bytes| - size..]
    {
      Receive(bytes);
      out := Drain();
      assert [] + bytes == bytes;
    }
  }
}
