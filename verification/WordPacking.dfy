/** Bytes to and from the 32-bit data register of the USB engine, four to a word. */
module WordPacking {
  import Packets

  type Byte = bv8
  type Word = bv32

  const MAX_PACKET_LENGTH := 1023

  /** Up to four bytes as a word, the first one lowest. */
  function WordOf(s: seq<Byte>): Word
    requires |s| <= 4
  {
    (if |s| > 0 then s[0] as Word else 0)
    | (if |s| > 1 then (s[1] as Word) << 8 else 0)
    | (if |s| > 2 then (s[2] as Word) << 16 else 0)
    | (if |s| > 3 then (s[3] as Word) << 24 else 0)
  }

  /** The words of a packet; an empty packet takes one word, too. */
  function Pack(s: seq<Byte>): (words: seq<Word>)
    ensures |words| == if s == [] then 1 else (|s| + 3) / 4
  {
    if |s| <= 4 then [WordOf(s)] else [WordOf(s[..4])] + Pack(s[4..])
  }

  /** The byte of a word at a bit offset. */
  function Take(data: Word, offset: Byte): Byte
    requires offset < 32
  {
    ((data >> offset) & 0xff) as Byte
  }

  /** The byte of a word by its number. */
  function ByteAt(w: Word, k: nat): Byte
    requires k < 4
  {
    match k
    case 0 => (w & 0xff) as Byte
    case 1 => ((w >> 8) & 0xff) as Byte
    case 2 => ((w >> 16) & 0xff) as Byte
    case 3 => ((w >> 24) & 0xff) as Byte
  }

  /** The first `n` bytes of a string of words. */
  function Unpack(words: seq<Word>, n: nat): (s: seq<Byte>)
    requires n <= 4 * |words|
    ensures |s| == n
  {
    seq(n, i requires 0 <= i < n => ByteAt(words[i / 4], i % 4))
  }

  lemma ByteOfWord(s: seq<Byte>, k: nat)
    requires k < |s| <= 4
    ensures ByteAt(WordOf(s), k) == s[k]
  {
  }

  lemma {:induction false} PackedByte(s: seq<Byte>, i: nat)
    requires i < |s|
    ensures i / 4 < |Pack(s)| && ByteAt(Pack(s)[i / 4], i % 4) == s[i]
    decreases |s|
  {
    hide ByteAt, WordOf;
    if |s| <= 4 {
      ByteOfWord(s, i);
    } else if i < 4 {
      ByteOfWord(s[..4], i);
    } else {
      PackedByte(s[4..], i - 4);
    }
  }

  /** Unpacking what was packed gives the bytes back, out of exactly as many words. */
  lemma UnpackPacked(s: seq<Byte>)
    ensures |Pack(s)| == (if |s| == 0 then 1 else (|s| + 3) / 4)
    ensures Unpack(Pack(s), |s|) == s
  {
    var r := Unpack(Pack(s), |s|);
    forall i | 0 <= i < |s|
      ensures r[i] == s[i]
    {
      PackedByte(s, i);
    }
  }

  /** The bit offset of the next byte, counted in a byte of its own. */
  function Offset(k: nat): Byte
    requires k < 4
  {
    match k
    case 0 => 0
    case 1 => 8
    case 2 => 16
    case 3 => 24
  }

  /** The bit offset after a byte. */
  function Further(offset: Byte): Byte {
    (offset + 8) % 32
  }

  /** A byte put into a word at a bit offset. */
  function Put(data: Word, b: Byte, offset: Byte): Word
    requires offset < 32
  {
    data | ((b as Word) << offset)
  }

  lemma NextOffset(k: nat)
    requires k < 4
    ensures Offset(k) < 32 && (Offset(k) == 0 <==> k == 0)
    ensures Further(Offset(k)) == if k == 3 then 0 else Offset(k + 1)
  {
  }

  lemma AppendFirst(s: seq<Byte>, b: Byte)
    requires |s| == 0
    ensures WordOf(s + [b]) == Put(WordOf(s), b, Offset(0))
  {
    assert s + [b] == [b];
  }

  lemma AppendSecond(s: seq<Byte>, b: Byte)
    requires |s| == 1
    ensures WordOf(s + [b]) == Put(WordOf(s), b, Offset(1))
  {
    assert s + [b] == [s[0], b];
  }

  lemma AppendThird(s: seq<Byte>, b: Byte)
    requires |s| == 2
    ensures WordOf(s + [b]) == Put(WordOf(s), b, Offset(2))
  {
    assert s + [b] == [s[0], s[1], b];
  }

  lemma AppendFourth(s: seq<Byte>, b: Byte)
    requires |s| == 3
    ensures WordOf(s + [b]) == Put(WordOf(s), b, Offset(3))
  {
    assert s + [b] == [s[0], s[1], s[2], b];
  }

  lemma AppendByte(s: seq<Byte>, b: Byte)
    requires |s| < 4
    ensures Offset(|s|) < 32
    ensures WordOf(s + [b]) == Put(WordOf(s), b, Offset(|s|))
  {
    hide WordOf, Put;
    NextOffset(|s|);
    match |s|
    case 0 => AppendFirst(s, b);
    case 1 => AppendSecond(s, b);
    case 2 => AppendThird(s, b);
    case 3 => AppendFourth(s, b);
  }

  /** The first byte is the lowest of its word. */
  lemma LittleEndian()
    ensures Pack([1, 2, 3, 4, 5]) == [0x0403_0201, 5]
  {
    var s: seq<Byte> := [1, 2, 3, 4, 5];
    assert s[..4] == [1, 2, 3, 4] && s[4..] == [5];
  }

  /** Writes a packet to the data register, word by word. */
  method EndpointWriteCore(buffer: seq<Byte>) returns (words: seq<Word>)
    requires |buffer| <= MAX_PACKET_LENGTH
    ensures words == Pack(buffer)
  {
    hide WordOf, Pack, Offset, Put, Further;
    words := [];
    var size := |buffer|;
    if size > 0 {
      var i, offset: Byte, data: Word := 0, 0, 0;
      ghost var q := 0;
      assert buffer[q..] == buffer;
      EmptyWord(buffer, 0);
      NextOffset(0);
      while size > 0
        invariant i + size == |buffer| && 0 <= q <= i < q + 4
        invariant size == 0 ==> q == i
        invariant size > 0 ==> offset == Offset(i - q)
        invariant data == WordOf(buffer[q..i])
        invariant size > 0 ==> words + Pack(buffer[q..]) == Pack(buffer)
        invariant size == 0 ==> words == Pack(buffer)
      {
        NextByte(buffer, q, i);
        NextOffset(i - q);
        NextOffset(if i - q < 3 then i - q + 1 else 0);
        data := Put(data, buffer[i], offset);
        offset := Further(offset);
        i := i + 1;
        size := size - 1;
        if offset == 0 || size == 0 {
          WordDone(words, buffer, q, i);
          words := words + [data];
          data := 0;
          q := i;
          EmptyWord(buffer, i);
        }
      }
    } else {
      words := words + [0];
      EmptyPacket();
    }
  }

  lemma EmptyPacket()
    ensures Pack([]) == [0]
  {
  }

  lemma EmptyWord(buffer: seq<Byte>, i: nat)
    requires i <= |buffer|
    ensures WordOf(buffer[i..i]) == 0
  {
  }

  /** The next byte of the packet goes into the word being put together. */
  lemma NextByte(buffer: seq<Byte>, q: nat, i: nat)
    requires q <= i < |buffer| && i < q + 4
    ensures Offset(i - q) < 32
    ensures WordOf(buffer[q..i + 1]) == Put(WordOf(buffer[q..i]), buffer[i], Offset(i - q))
  {
    hide WordOf, Offset, Put;
    AppendByte(buffer[q..i], buffer[i]);
    NextOffset(i - q);
    assert buffer[q..i] + [buffer[i]] == buffer[q..i + 1];
  }

  /** A word that is full, or the last one, is the next word of the packed packet. */
  lemma WordDone(words: seq<Word>, buffer: seq<Byte>, q: nat, i: nat)
    requires q < i <= |buffer| && (i == q + 4 || i == |buffer| < q + 4)
    requires words + Pack(buffer[q..]) == Pack(buffer)
    ensures var more := words + [WordOf(buffer[q..i])];
            if i < |buffer| then more + Pack(buffer[i..]) == Pack(buffer) else more == Pack(buffer)
  {
    hide WordOf, Pack;
    PackFirst(buffer[q..], i - q);
    assert buffer[q..][..i - q] == buffer[q..i] && buffer[q..][i - q..] == buffer[i..];
    if i < |buffer| {
      Packets.AppendAssociates(words, [WordOf(buffer[q..i])], Pack(buffer[i..]));
    }
  }

  lemma PackFirst(s: seq<Byte>, n: nat)
    requires 0 < |s| && (n == |s| <= 4 || (n == 4 < |s|))
    ensures Pack(s) == [WordOf(s[..n])] + if n < |s| then Pack(s[n..]) else []
  {
    hide WordOf;
    assert s[..|s|] == s;
  }

  /** Reads a packet out of the data register, taking a word for every four bytes. */
  method EndpointReadCore(fifo: seq<Word>, size: nat) returns (buffer: seq<Byte>, taken: nat)
    requires size <= MAX_PACKET_LENGTH && 0 < |fifo| && size <= 4 * |fifo|
    ensures buffer == Unpack(fifo, size)
    ensures taken == if size == 0 then 1 else (size + 3) / 4
  {
    hide ByteAt, Offset, Unpack, Take, Further;
    buffer, taken := [], 0;
    NextOffset(0);
    var offset: Byte, data: Word := 0, 0;
    if size > 0 {
      for i := 0 to size
        invariant offset == Offset(i % 4) && taken == (i + 3) / 4 <= |fifo|
        invariant i % 4 != 0 ==> data == fifo[i / 4]
        invariant buffer == Unpack(fifo, i)
      {
        NextOffset(i % 4);
        NextOffset((i + 1) % 4);
        UnpackNext(fifo, i);
        if offset == 0 {
          data := fifo[taken];
          taken := taken + 1;
        }
        ShiftIsByteAt(data, i % 4);
        buffer := buffer + [Take(data, offset)];
        offset := Further(offset);
      }
    } else {
      taken := 1;
    }
  }

  lemma UnpackNext(fifo: seq<Word>, i: nat)
    requires i < 4 * |fifo|
    ensures Unpack(fifo, i + 1) == Unpack(fifo, i) + [ByteAt(fifo[i / 4], i % 4)]
  {
    hide ByteAt;
  }

  lemma TakeFirst(w: Word)
    ensures Take(w, 0) == ByteAt(w, 0)
  {
  }

  lemma TakeSecond(w: Word)
    ensures Take(w, 8) == ByteAt(w, 1)
  {
  }

  lemma TakeThird(w: Word)
    ensures Take(w, 16) == ByteAt(w, 2)
  {
  }

  lemma TakeFourth(w: Word)
    ensures Take(w, 24) == ByteAt(w, 3)
  {
  }

  lemma ShiftIsByteAt(w: Word, k: nat)
    requires k < 4
    ensures Offset(k) < 32 && Take(w, Offset(k)) == ByteAt(w, k)
  {
    hide Take, ByteAt;
    TakeFirst(w);
    TakeSecond(w);
    TakeThird(w);
    TakeFourth(w);
  }

  /** A packet written to the register and read from it again, with its length. */
  method WriteThenRead(packet: seq<Byte>) returns (back: seq<Byte>)
    requires |packet| <= MAX_PACKET_LENGTH
    ensures back == packet
  {
    var words := EndpointWriteCore(packet);
    var taken;
    back, taken := EndpointReadCore(words, |packet|);
    assert taken == |words|;
    UnpackPacked(packet);
  }
}
