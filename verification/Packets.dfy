/** Cutting a byte string into 64-byte packets, and putting it together again. */
module Packets {
  import opened Words

  const MAX_PACKET := 64

  function Concat(packets: seq<seq<byte>>): seq<byte> {
    if packets == [] then [] else packets[0] + Concat(packets[1..])
  }

  /** The packets of a transfer: full ones followed by what is left. */
  function Chunks(s: seq<byte>): seq<seq<byte>> {
    if s == [] then []
    else if |s| <= MAX_PACKET then [s]
    else [s[..MAX_PACKET]] + Chunks(s[MAX_PACKET..])
  }

  lemma {:induction false} ConcatChunks(s: seq<byte>)
    ensures Concat(Chunks(s)) == s
  {
    if |s| > MAX_PACKET {
      ConcatChunks(s[MAX_PACKET..]);
      assert Chunks(s)[1..] == Chunks(s[MAX_PACKET..]);
    } else if s != [] {
      assert Chunks(s)[1..] == [];
    }
  }

  /** No chunk is empty or too long, and only the last one can be short. */
  lemma {:induction false} ChunkSizes(s: seq<byte>)
    ensures forall i :: 0 <= i < |Chunks(s)| ==> 0 < |Chunks(s)[i]| <= MAX_PACKET
    ensures forall i :: 0 <= i < |Chunks(s)| - 1 ==> |Chunks(s)[i]| == MAX_PACKET
    ensures |Chunks(s)| == (|s| + MAX_PACKET - 1) / MAX_PACKET
  {
    if |s| > MAX_PACKET {
      ChunkSizes(s[MAX_PACKET..]);
    }
  }

  lemma {:induction false} ChunksAppend(s: seq<byte>, t: seq<byte>)
    requires |s| % MAX_PACKET == 0
    requires 0 < |t| <= MAX_PACKET
    ensures Chunks(s + t) == Chunks(s) + [t]
  {
    if s == [] {
      assert s + t == t;
    } else {
      var u := s[MAX_PACKET..];
      ChunksAppend(u, t);
      assert (s + t)[..MAX_PACKET] == s[..MAX_PACKET];
      assert (s + t)[MAX_PACKET..] == u + t;
      if u == [] {
        assert s[..MAX_PACKET] == s;
      }
    }
  }

  lemma AppendAssociates<T>(a: seq<T>, b: seq<T>, c: seq<T>)
    ensures a + (b + c) == (a + b) + c
  {
  }

  lemma {:induction false} ConcatAppend(ps: seq<seq<byte>>, qs: seq<seq<byte>>)
    ensures Concat(ps + qs) == Concat(ps) + Concat(qs)
  {
    if ps == [] {
      assert ps + qs == qs;
    } else {
      var rest := ps[1..];
      ConcatAppend(rest, qs);
      assert (ps + qs)[0] == ps[0];
      assert (ps + qs)[1..] == rest + qs;
      AppendAssociates(ps[0], Concat(rest), Concat(qs));
    }
  }

  /** The last packet is not empty: after it nothing more is expected. */
  predicate Ends(packets: seq<seq<byte>>) {
    packets != [] ==> packets[|packets| - 1] != []
  }

  lemma {:induction false} LastMoves(packets: seq<seq<byte>>)
    requires packets != [] && Ends(packets)
    ensures Concat(packets) != []
  {
    if |packets| > 1 {
      LastMoves(packets[1..]);
    }
  }
}
