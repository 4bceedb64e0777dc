/** The two ring buffers, for all their different bookkeeping, cannot be told apart from outside. */
module QueueEquivalence {
  import opened Words
  import opened BoundedQueue
  import X = Xifo
  import C = CircBuffer

  datatype Op = Put(x: byte) | Take

  /** The answers of a bounded queue to a list of operations; taking from an empty one gives 0. */
  function Answers(s: seq<byte>, ops: seq<Op>, cap: nat): seq<byte>
    decreases |ops|
  {
    if ops == [] then []
    else
      match ops[0]
      case Put(x) => Answers(Push(s, x, cap), ops[1..], cap)
      case Take =>
        if s == [] then [0] + Answers(s, ops[1..], cap)
        else [s[0]] + Answers(s[1..], ops[1..], cap)
  }

  /** The first of the remaining operations, the answer it gives, and the others. */
  lemma AnswersFirst(s: seq<byte>, ops: seq<Op>, i: nat, cap: nat)
    requires i < |ops|
    ensures Answers(s, ops[i..], cap)
         == match ops[i]
            case Put(x) => Answers(Push(s, x, cap), ops[i + 1..], cap)
            case Take =>
              if s == [] then [0] + Answers(s, ops[i + 1..], cap)
              else [s[0]] + Answers(s[1..], ops[i + 1..], cap)
  {
    assert ops[i..][1..] == ops[i + 1..];
  }

  lemma NoAnswers(cap: nat)
    ensures forall s: seq<byte> :: Answers(s, [], cap) == []
  {
  }

  method RunXifo(b: X.Buffer, ops: seq<Op>) returns (out: seq<byte>)
    requires b.Valid()
    modifies b, b.pool
    ensures b.Valid() && out == Answers(old(b.Contents()), ops, b.size)
  {
    hide Answers, Push, X.Window;
    ghost var all := Answers(b.Contents(), ops, b.size);
    NoAnswers(b.size);
    assert ops[0..] == ops;
    out := [];
    for i := 0 to |ops|
      invariant b.Valid()
      invariant out + Answers(b.Contents(), ops[i..], b.size) == all
    {
      AnswersFirst(b.Contents(), ops, i, b.size);
      match ops[i]
      case Put(x) =>
        var _ := b.Write(x);
      case Take =>
        ghost var s := b.Contents();
        var x := b.PopLr();
        assert s != [] ==> s[0] == x && s[1..] == b.Contents();
        out := out + [x];
    }
    assert ops[|ops|..] == [];
  }

  method RunCircBuffer(b: C.Buffer<byte>, ops: seq<Op>) returns (out: seq<byte>)
    requires b.Valid()
    modifies b, b.buf
    ensures b.Valid() && out == Answers(old(b.Contents()), ops, b.size - 1)
  {
    hide Answers, Push, C.Window;
    ghost var all := Answers(b.Contents(), ops, b.size - 1);
    NoAnswers(b.size - 1);
    assert ops[0..] == ops;
    out := [];
    for i := 0 to |ops|
      invariant b.Valid()
      invariant out + Answers(b.Contents(), ops[i..], b.size - 1) == all
    {
      AnswersFirst(b.Contents(), ops, i, b.size - 1);
      match ops[i]
      case Put(x) =>
        b.Queue(x);
      case Take =>
        ghost var s := b.Contents();
        var ok, x := b.Dequeue(0);
        assert s != [] ==> s[0] == x && s[1..] == b.Contents();
        out := out + [x];
    }
    assert ops[|ops|..] == [];
  }

  /** Of the same capacity and both new, they answer alike to every list of operations. */
  method SameAnswers(pool: array<byte>, ops: seq<Op>) returns (a: seq<byte>, b: seq<byte>)
    requires 1 <= pool.Length < 0xFFFF
    modifies pool
    ensures a == b == Answers([], ops, pool.Length)
  {
    var x := new X.Buffer(pool, pool.Length);
    var c := new C.Buffer<byte>(pool.Length);
    a := RunXifo(x, ops);
    b := RunCircBuffer(c, ops);
  }
}
