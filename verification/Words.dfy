/** Fixed-width unsigned values and the byte orders the firmware uses on the wire. */
module Words {
  type byte = x: int | 0 <= x < 0x100
  type uint16 = x: int | 0 <= x < 0x1_0000
  type uint32 = x: int | 0 <= x < 0x1_0000_0000

  /** Conversion of an arithmetic result to a C `uint32_t`. */
  function Wrap32(x: int): uint32 {
    x % 0x1_0000_0000
  }

  /** Conversion of an arithmetic result to a C `uint16_t`. */
  function Wrap16(x: int): uint16 {
    x % 0x1_0000
  }

  lemma InsideWord(x: nat)
    requires x < 0x1_0000_0000
    ensures Wrap32(x) == x
  {
  }

  lemma WrapMultiple(x: int, k: int)
    ensures Wrap32(x + k * 0x1_0000_0000) == Wrap32(x)
  {
  }

  /** Wrapping on the way makes no difference in the end. */
  lemma WrapAgain(x: int, s: int)
    ensures Wrap32(Wrap32(x) + s) == Wrap32(x + s)
  {
    var q := x / 0x1_0000_0000;
    WrapMultiple(x + s, -q);
  }

  function Le16(s: seq<byte>): uint16
    requires |s| == 2
  {
    var low: int, high: int := s[0], s[1];
    low + 0x100 * high
  }

  function Le32(s: seq<byte>): uint32
    requires |s| == 4
  {
    var low: int, high: int := Le16(s[..2]), Le16(s[2..]);
    low + 0x1_0000 * high
  }

  function Be16(s: seq<byte>): uint16
    requires |s| == 2
  {
    Le16([s[1], s[0]])
  }

  function Be32(s: seq<byte>): uint32
    requires |s| == 4
  {
    Le32([s[3], s[2], s[1], s[0]])
  }

  function ToLe16(x: uint16): (s: seq<byte>)
    ensures |s| == 2 && Le16(s) == x
  {
    [x % 0x100, x / 0x100]
  }

  function ToLe32(x: uint32): (s: seq<byte>)
    ensures |s| == 4 && Le32(s) == x
  {
    var s := ToLe16(x % 0x1_0000) + ToLe16(x / 0x1_0000);
    assert s[..2] == ToLe16(x % 0x1_0000) && s[2..] == ToLe16(x / 0x1_0000);
    s
  }

  function ToBe16(x: uint16): (s: seq<byte>)
    ensures |s| == 2 && Be16(s) == x
  {
    var s := ToLe16(x);
    assert [s[0], s[1]] == s;
    [s[1], s[0]]
  }

  function ToBe32(x: uint32): (s: seq<byte>)
    ensures |s| == 4 && Be32(s) == x
  {
    var s := ToLe32(x);
    assert [s[0], s[1], s[2], s[3]] == s;
    [s[3], s[2], s[1], s[0]]
  }
}
