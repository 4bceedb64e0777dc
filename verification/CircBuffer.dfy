/** The circular buffer of the USB serial port, which keeps one slot of its array empty. */
module CircBuffer {
  import opened Words
  import opened BoundedQueue

  lemma ModNext(x: nat, size: nat)
    requires 0 < size && x <= size
    ensures x % size == if x == size then 0 else x
  {
    if x == size {
      assert x == 1 * size;
    }
  }

  function Next(x: nat, size: nat): nat {
    if x + 1 == size then 0 else x + 1
  }

  function Count(read: nat, write: nat, size: nat): nat
    requires read < size && write < size
  {
    if write >= read then write - read else size - read + write
  }

  /** The elements from `read` up to, but without, `write`. */
  function Window<T>(buf: seq<T>, read: nat, write: nat): (r: seq<T>)
    requires read < |buf| && write < |buf|
    ensures |r| == Count(read, write, |buf|)
  {
    if write >= read then buf[read..write] else buf[read..] + buf[..write]
  }

  /** A position that may have run off the end of the array by less than its size. */
  function Slot(k: nat, size: nat): nat {
    if k < size then k else k - size
  }

  lemma WindowAt<T>(buf: seq<T>, read: nat, write: nat, j: nat)
    requires read < |buf| && write < |buf| && j < Count(read, write, |buf|)
    ensures Slot(read + j, |buf|) < |buf|
    ensures Window(buf, read, write)[j] == buf[Slot(read + j, |buf|)]
  {
  }

  /** The slot written is the one behind the newest element. */
  lemma Queued<T>(buf: seq<T>, read: nat, write: nat, x: T)
    requires read < |buf| && write < |buf| && Next(write, |buf|) != read
    ensures Window(buf[write := x], read, Next(write, |buf|)) == Window(buf, read, write) + [x]
  {
    hide Window;
    var n, next := Count(read, write, |buf|), Window(buf[write := x], read, Next(write, |buf|));
    forall j | 0 <= j < |next|
      ensures next[j] == (Window(buf, read, write) + [x])[j]
    {
      WindowAt(buf[write := x], read, Next(write, |buf|), j);
      if j < n {
        WindowAt(buf, read, write, j);
      }
    }
  }

  lemma DequeueTakes<T>(buf: seq<T>, read: nat, write: nat)
    requires read < |buf| && write < |buf| && read != write
    ensures Window(buf, read, write) == [buf[read]] + Window(buf, Next(read, |buf|), write)
  {
    hide Window;
    var s, rest := Window(buf, read, write), Window(buf, Next(read, |buf|), write);
    forall j | 0 <= j < |s|
      ensures s[j] == ([buf[read]] + rest)[j]
    {
      WindowAt(buf, read, write, j);
      if j > 0 {
        WindowAt(buf, Next(read, |buf|), write, j - 1);
      }
    }
  }

  lemma QueueAppends<T>(buf: seq<T>, read: nat, write: nat, x: T)
    requires read < |buf| && write < |buf|
    ensures var write' := Next(write, |buf|);
            var read' := if write' == read then Next(read, |buf|) else read;
            Window(buf[write := x], read', write') == Push(Window(buf, read, write), x, |buf| - 1)
  {
    hide Window;
    if Next(write, |buf|) != read {
      Queued(buf, read, write, x);
    } else if |buf| > 1 {
      var rest := Window(buf, Next(read, |buf|), write);
      DequeueTakes(buf, read, write);
      Queued(buf, Next(read, |buf|), write, x);
      assert ([buf[read]] + rest) + [x] == [buf[read]] + (rest + [x]);
    }
  }

  class Buffer<T(0)> {
    var write: uint16
    var read: uint16
    const size: uint16
    const buf: array<T>

    ghost predicate Valid()
      reads this
    {
      1 <= size && buf.Length == size && read < size && write < size
    }

    ghost function Contents(): (s: seq<T>)
      requires Valid()
      reads this, buf
      ensures |s| <= size - 1
    {
      Window(buf[..], read, write)
    }

    /** The size is kept in 16 bits; one that is 0 makes every later call divide by it. */
    constructor (length: int)
      requires -0x8000_0000 <= length < 0x7FFF_FFFF
      ensures size == buf.Length == Wrap16(length + 1) && fresh(buf) && read == write == 0
      ensures Valid() <==> (length + 1) % 0x1_0000 != 0
      ensures Valid() ==> Contents() == [] && (size - 1 == length <==> 0 <= length < 0xFFFF)
    {
      write, read, size := 0, 0, Wrap16(length + 1);
      buf := new T[Wrap16(length + 1)];
    }

    method IsFull() returns (r: bool)
      requires Valid()
      ensures r <==> |Contents()| == size - 1
      ensures r <==> Next(write, size) == read
    {
      ModNext(write + 1, size);
      r := (write + 1) % size == read;
    }

    method IsEmpty() returns (r: bool)
      requires Valid()
      ensures r <==> Contents() == []
      ensures r <==> read == write
    {
      r := read == write;
    }

    method Queue(k: T)
      requires Valid()
      modifies this, buf
      ensures Valid() && Contents() == Push(old(Contents()), k, size - 1)
    {
      QueueAppends(buf[..], read, write, k);
      ghost var b := buf[..];
      var full := IsFull();
      if full {
        ModNext(read + 1, size);
        read := (read + 1) % size;
      }
      buf[write] := k;
      assert buf[..] == b[write := k];
      ModNext(write + 1, size);
      write := (write + 1) % size;
    }

    method Available() returns (n: uint16)
      requires Valid()
      ensures n == |Contents()| <= size - 1
    {
      n := if write >= read then write - read else size - read + write;
    }

    /** Takes the oldest element into a variable, which keeps its value if there is none. */
    method Dequeue(was: T) returns (ok: bool, c: T)
      requires Valid()
      modifies this
      ensures Valid() && (ok <==> old(Contents()) != [])
      ensures if ok then old(Contents()) == [c] + Contents() else c == was && Contents() == []
    {
      var empty := IsEmpty();
      if !empty {
        DequeueTakes(buf[..], read, write);
        c := buf[read];
        ModNext(read + 1, size);
        read := (read + 1) % size;
      } else {
        c := was;
      }
      ok := !empty;
    }
  }
}
