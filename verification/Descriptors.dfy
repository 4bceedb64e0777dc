/** The walk over the descriptors that follow a configuration descriptor (section 9.5 of USB 2.0). */
module Descriptors {
  import opened Words

  const CONFIGURATION_LENGTH := 9
  const CONFIGURATION_TYPE := 2

  datatype Option<T> = None | Some(value: T)

  /** A descriptor: its type and the bytes after bLength and bDescriptorType. */
  datatype Descriptor = Descriptor(kind: byte, body: seq<byte>)
  {
    function Size(): nat { 2 + |body| }
    predicate Valid() { Size() < 0x100 }
  }

  function Encode(d: Descriptor): (s: seq<byte>)
    requires d.Valid()
    ensures |s| == d.Size()
  {
    [d.Size(), d.kind] + d.body
  }

  predicate AllValid(ds: seq<Descriptor>) {
    forall d :: d in ds ==> d.Valid()
  }

  function EncodeAll(ds: seq<Descriptor>): seq<byte>
    requires AllValid(ds)
  {
    if ds == [] then [] else Encode(ds[0]) + EncodeAll(ds[1..])
  }

  /** A list of descriptors between two positions of a byte string. */
  predicate Chain(s: seq<byte>, at: nat, end: nat)
    requires end <= |s|
    decreases end - at
  {
    at == end || (at + 2 <= end && 2 <= s[at] && at + s[at] <= end && Chain(s, at + s[at], end))
  }

  /**
   What a search from `at` on relies on: up to a descriptor of the type, each one it looks at has
   its first two bytes in memory, and a bLength that leads on.
   */
  predicate Walkable(s: seq<byte>, at: nat, end: nat, kind: byte)
    decreases end - at
  {
    at < end ==>
      && at + 2 <= |s|
      && (s[at + 1] != kind ==> 1 <= s[at] && Walkable(s, at + s[at], end, kind))
  }

  /** The position of the first descriptor of a type. */
  function FirstOf(s: seq<byte>, at: nat, end: nat, kind: byte): (r: Option<nat>)
    requires Walkable(s, at, end, kind)
    decreases end - at
  {
    if at >= end then None
    else if s[at + 1] == kind then Some(at)
    else FirstOf(s, at + s[at], end, kind)
  }

  function TotalLength(s: seq<byte>): uint16
    requires 4 <= |s|
  {
    Le16(s[2..4])
  }

  /**
   What the source relies on in the bytes it is given: that what it looks at is there, and that
   the walk gets on. A total length of no more than two bytes beyond the header asks for nothing.
   */
  predicate Searchable(s: seq<byte>, kind: byte) {
    && 1 <= |s|
    && (s[0] == CONFIGURATION_LENGTH ==> 2 <= |s|)
    && (s[0] == CONFIGURATION_LENGTH && s[1] == CONFIGURATION_TYPE ==>
          && 4 <= |s|
          && (TotalLength(s) > CONFIGURATION_LENGTH + 2 ==>
                Walkable(s, CONFIGURATION_LENGTH, TotalLength(s), kind)))
  }

  /**
   The search gives up at once when no more than two bytes follow: room for bLength and
   bDescriptorType, but the source takes it for too little.
   */
  function Found(s: seq<byte>, kind: byte): Option<nat>
    requires Searchable(s, kind)
  {
    if s[0] != CONFIGURATION_LENGTH || s[1] != CONFIGURATION_TYPE then None
    else if TotalLength(s) <= CONFIGURATION_LENGTH + 2 then None
    else FirstOf(s, CONFIGURATION_LENGTH, TotalLength(s), kind)
  }

  /** The search of the source; `None` stands for its null pointer. */
  method FindDescriptor(config: Option<seq<byte>>, kind: byte) returns (r: Option<nat>)
    requires config.Some? ==> Searchable(config.value, kind)
    ensures r == if config.None? then None else Found(config.value, kind)
  {
    if config.None? {
      return None;
    }
    var s := config.value;
    if s[0] != CONFIGURATION_LENGTH || s[1] != CONFIGURATION_TYPE {
      return None;
    }
    var total := TotalLength(s);
    if total <= CONFIGURATION_LENGTH + 2 {
      return None;
    }
    var ptr := CONFIGURATION_LENGTH;
    while true
      invariant CONFIGURATION_LENGTH <= ptr < total && Walkable(s, ptr, total, kind)
      invariant FirstOf(s, CONFIGURATION_LENGTH, total, kind) == FirstOf(s, ptr, total, kind)
      decreases total - ptr
    {
      if s[ptr + 1] == kind {
        return Some(ptr);
      }
      ptr := ptr + s[ptr];
      if !(ptr < total) {
        break;
      }
    }
    return None;
  }

  // What is found, in terms of the list of descriptors

  /** Where a descriptor of the list starts. */
  function Position(ds: seq<Descriptor>, k: nat): nat
    requires AllValid(ds) && k <= |ds|
  {
    |EncodeAll(ds[..k])|
  }

  /** The first descriptor of a type in the list. */
  predicate IsFirst(ds: seq<Descriptor>, k: int, kind: byte) {
    0 <= k < |ds| && ds[k].kind == kind && forall j :: 0 <= j < k ==> ds[j].kind != kind
  }

  lemma NextPosition(ds: seq<Descriptor>, k: nat)
    requires AllValid(ds) && k < |ds|
    ensures Position(ds, k + 1) == ds[0].Size() + Position(ds[1..], k)
  {
    assert ds[..k + 1][0] == ds[0] && ds[..k + 1][1..] == ds[1..][..k];
  }

  lemma {:induction false} EncodedIsChain(prefix: seq<byte>, ds: seq<Descriptor>, suffix: seq<byte>, kind: byte)
    requires AllValid(ds)
    ensures var s, end := prefix + EncodeAll(ds) + suffix, |prefix| + |EncodeAll(ds)|;
            && Chain(s, |prefix|, end) && Walkable(s, |prefix|, end, kind)
            && match FirstOf(s, |prefix|, end, kind)
               case None => forall k :: 0 <= k < |ds| ==> ds[k].kind != kind
               case Some(at) => exists k :: IsFirst(ds, k, kind) && at == |prefix| + Position(ds, k)
    decreases |ds|
  {
    hide Position;
    var s, end := prefix + EncodeAll(ds) + suffix, |prefix| + |EncodeAll(ds)|;
    if ds != [] {
      var d, rest := ds[0], ds[1..];
      var next := prefix + Encode(d);
      assert s == next + EncodeAll(rest) + suffix;
      EncodedIsChain(next, rest, suffix, kind);
      if d.kind == kind {
        assert IsFirst(ds, 0, kind);
        FirstPosition(ds);
      } else {
        var found := FirstOf(s, |next|, end, kind);
        if found.Some? {
          var k :| IsFirst(rest, k, kind) && found.value == |next| + Position(rest, k);
          NextPosition(ds, k);
          assert IsFirst(ds, k + 1, kind);
        }
      }
    }
  }

  lemma FirstPosition(ds: seq<Descriptor>)
    requires AllValid(ds)
    ensures Position(ds, 0) == 0
  {
  }

  /** A configuration descriptor followed by a list of descriptors. */
  predicate Describes(s: seq<byte>, header: seq<byte>, ds: seq<Descriptor>) {
    && AllValid(ds) && s == header + EncodeAll(ds) && |header| == CONFIGURATION_LENGTH
    && header[0] == CONFIGURATION_LENGTH && header[1] == CONFIGURATION_TYPE
    && TotalLength(header) == |s|
  }

  /** What a search should return: the start of the first descriptor of the type, if there is one. */
  ghost predicate Right(ds: seq<Descriptor>, kind: byte, r: Option<nat>) {
    match r
    case None => forall k :: 0 <= k < |ds| ==> ds[k].kind != kind
    case Some(at) =>
      AllValid(ds) && exists k :: IsFirst(ds, k, kind) && at == CONFIGURATION_LENGTH + Position(ds, k)
  }

  lemma {:induction false} TwoBytesEach(ds: seq<Descriptor>)
    requires AllValid(ds)
    ensures |EncodeAll(ds)| >= 2 * |ds|
  {
    if ds != [] {
      TwoBytesEach(ds[1..]);
    }
  }

  /** A list of two bytes is one descriptor of bLength and bDescriptorType alone. */
  lemma TwoBytesAreBare(ds: seq<Descriptor>)
    requires AllValid(ds)
    ensures |EncodeAll(ds)| == 2 ==> ds == [Descriptor(EncodeAll(ds)[1], [])]
  {
    TwoBytesEach(ds);
    if |EncodeAll(ds)| == 2 {
      assert |ds| == 1 && ds == [ds[0]];
      assert EncodeAll(ds) == Encode(ds[0]) + [];
      assert ds[0] == Descriptor(ds[0].kind, []);
    }
  }

  /**
   The search is right for every list of descriptors, unless wTotalLength is 11 and the byte at
   offset 10 is the type looked for: then it misses the one descriptor there is.
   */
  lemma FindsFirstUnlessBare(s: seq<byte>, header: seq<byte>, ds: seq<Descriptor>, kind: byte)
    requires Describes(s, header, ds)
    ensures Searchable(s, kind)
    ensures Right(ds, kind, Found(s, kind)) <==> !(TotalLength(s) == 11 && s[10] == kind)
  {
    EncodedIsChain(header, ds, [], kind);
    assert header + EncodeAll(ds) + [] == s;
    assert s[2..4] == header[2..4];
    TwoBytesEach(ds);
    TwoBytesAreBare(ds);
    if TotalLength(s) == 11 {
      assert s[10] == EncodeAll(ds)[1];
      assert s[10] == kind ==> ds[0].kind == kind;
    } else if TotalLength(s) < 11 {
      assert ds == [];
    }
  }
}
