/** The 32 microsteps of one electrical cycle: which high-side FET is on, and the low-side duty. */
module StepTables {
  const STEPS := 32
  const CHANNELS := 4

  datatype Variant = Sine | Triangle

  const H1: seq<nat> := [
    0, 0, 0, 0, 0, 0, 0, 0, 0, 0, 0, 0, 0, 0, 0, 0,
    0, 1, 1, 1, 1, 1, 1, 1, 1, 1, 1, 1, 1, 1, 1, 1]
  const H2: seq<nat> := [
    0, 1, 1, 1, 1, 1, 1, 1, 1, 1, 1, 1, 1, 1, 1, 1,
    0, 0, 0, 0, 0, 0, 0, 0, 0, 0, 0, 0, 0, 0, 0, 0]
  const H3: seq<nat> := [
    1, 1, 1, 1, 1, 1, 1, 1, 0, 0, 0, 0, 0, 0, 0, 0,
    0, 0, 0, 0, 0, 0, 0, 0, 0, 1, 1, 1, 1, 1, 1, 1]
  const H4: seq<nat> := [
    0, 0, 0, 0, 0, 0, 0, 0, 0, 1, 1, 1, 1, 1, 1, 1,
    1, 1, 1, 1, 1, 1, 1, 1, 0, 0, 0, 0, 0, 0, 0, 0]

  const SINE_L1: seq<nat> := [
    0, 102, 194, 286, 363, 424, 471, 501, 512, 501, 471, 424, 363, 286, 194, 102,
    0, 0, 0, 0, 0, 0, 0, 0, 0, 0, 0, 0, 0, 0, 0, 0]
  const SINE_L2: seq<nat> := [
    0, 0, 0, 0, 0, 0, 0, 0, 0, 0, 0, 0, 0, 0, 0, 0,
    0, 102, 194, 286, 363, 424, 471, 501, 512, 501, 471, 424, 363, 286, 194, 102]
  const SINE_L3: seq<nat> := [
    0, 0, 0, 0, 0, 0, 0, 0, 0, 102, 194, 286, 363, 424, 471, 501,
    512, 501, 471, 424, 363, 286, 194, 102, 0, 0, 0, 0, 0, 0, 0, 0]
  const SINE_L4: seq<nat> := [
    512, 501, 471, 424, 363, 286, 194, 102, 0, 0, 0, 0, 0, 0, 0, 0,
    0, 0, 0, 0, 0, 0, 0, 0, 0, 102, 194, 286, 363, 424, 471, 501]

  const TRIANGLE_L1: seq<nat> := [
    0, 64, 128, 192, 256, 320, 384, 448, 512, 448, 384, 320, 256, 192, 128, 64,
    0, 0, 0, 0, 0, 0, 0, 0, 0, 0, 0, 0, 0, 0, 0, 0]
  const TRIANGLE_L2: seq<nat> := [
    0, 0, 0, 0, 0, 0, 0, 0, 0, 0, 0, 0, 0, 0, 0, 0,
    0, 64, 128, 192, 256, 320, 384, 448, 512, 448, 384, 320, 256, 192, 128, 64]
  const TRIANGLE_L3: seq<nat> := [
    0, 0, 0, 0, 0, 0, 0, 0, 0, 64, 128, 192, 256, 320, 384, 448,
    512, 448, 384, 320, 256, 192, 128, 64, 0, 0, 0, 0, 0, 0, 0, 0]
  const TRIANGLE_L4: seq<nat> := [
    512, 448, 384, 320, 256, 192, 128, 64, 0, 0, 0, 0, 0, 0, 0, 0,
    0, 0, 0, 0, 0, 0, 0, 0, 0, 64, 128, 192, 256, 320, 384, 448]

  type Row = i: nat | i < STEPS
  type Channel = k: nat | k < CHANNELS

  /** Entry `i` of LUT_H(k+1). */
  function High(k: Channel, i: Row): nat {
    match k
    case 0 => H1[i]
    case 1 => H2[i]
    case 2 => H3[i]
    case 3 => H4[i]
  }

  /** Entry `i` of LUT_L(k+1). */
  function Low(v: Variant, k: Channel, i: Row): nat {
    match (v, k)
    case (Sine, 0) => SINE_L1[i]
    case (Sine, 1) => SINE_L2[i]
    case (Sine, 2) => SINE_L3[i]
    case (Sine, 3) => SINE_L4[i]
    case (Triangle, 0) => TRIANGLE_L1[i]
    case (Triangle, 1) => TRIANGLE_L2[i]
    case (Triangle, 2) => TRIANGLE_L3[i]
    case (Triangle, 3) => TRIANGLE_L4[i]
  }

  /** Where a high side is on. */
  predicate Raised(k: Channel, i: Row) {
    match k case 0 => 17 <= i case 1 => 1 <= i <= 15 case 2 => i <= 7 || 25 <= i case 3 => 9 <= i <= 23
  }

  lemma High1(i: Row)
    ensures H1[i] == if Raised(0, i) then 1 else 0
  {
  }

  lemma High2(i: Row)
    ensures H2[i] == if Raised(1, i) then 1 else 0
  {
  }

  lemma High3(i: Row)
    ensures H3[i] == if Raised(2, i) then 1 else 0
  {
  }

  lemma High4(i: Row)
    ensures H4[i] == if Raised(3, i) then 1 else 0
  {
  }

  lemma HighRows(k: Channel, i: Row)
    ensures High(k, i) == if Raised(k, i) then 1 else 0
  {
    hide Raised;
    match k
    case 0 => High1(i);
    case 1 => High2(i);
    case 2 => High3(i);
    case 3 => High4(i);
  }

  /** Where a low side has a duty at all. */
  predicate Driven(k: Channel, i: Row) {
    match k case 0 => 1 <= i <= 15 case 1 => 17 <= i case 2 => 9 <= i <= 23 case 3 => i <= 7 || 25 <= i
  }

  lemma Sine1(i: Row)
    ensures SINE_L1[i] <= 512 && (SINE_L1[i] != 0 <==> Driven(0, i))
  {
  }

  lemma Sine2(i: Row)
    ensures SINE_L2[i] <= 512 && (SINE_L2[i] != 0 <==> Driven(1, i))
  {
  }

  lemma Sine3(i: Row)
    ensures SINE_L3[i] <= 512 && (SINE_L3[i] != 0 <==> Driven(2, i))
  {
  }

  lemma Sine4(i: Row)
    ensures SINE_L4[i] <= 512 && (SINE_L4[i] != 0 <==> Driven(3, i))
  {
  }

  lemma Triangle1(i: Row)
    ensures TRIANGLE_L1[i] <= 512 && (TRIANGLE_L1[i] != 0 <==> Driven(0, i))
  {
  }

  lemma Triangle2(i: Row)
    ensures TRIANGLE_L2[i] <= 512 && (TRIANGLE_L2[i] != 0 <==> Driven(1, i))
  {
  }

  lemma Triangle3(i: Row)
    ensures TRIANGLE_L3[i] <= 512 && (TRIANGLE_L3[i] != 0 <==> Driven(2, i))
  {
  }

  lemma Triangle4(i: Row)
    ensures TRIANGLE_L4[i] <= 512 && (TRIANGLE_L4[i] != 0 <==> Driven(3, i))
  {
  }

  lemma LowRows(v: Variant, k: Channel, i: Row)
    ensures Low(v, k, i) <= 512 && (Low(v, k, i) != 0 <==> Driven(k, i))
  {
    hide Driven;
    match (v, k)
    case (Sine, 0) => Sine1(i);
    case (Sine, 1) => Sine2(i);
    case (Sine, 2) => Sine3(i);
    case (Sine, 3) => Sine4(i);
    case (Triangle, 0) => Triangle1(i);
    case (Triangle, 1) => Triangle2(i);
    case (Triangle, 2) => Triangle3(i);
    case (Triangle, 3) => Triangle4(i);
  }

  /** No row switches on a high-side FET and gives the low side below it a duty. */
  lemma RowsDoNotOverlap(v: Variant, k: Channel, i: Row)
    ensures High(k, i) <= 1 && (High(k, i) == 1 ==> Low(v, k, i) == 0)
  {
    hide High, Low;
    HighRows(k, i);
    LowRows(v, k, i);
  }

  // The shape of the tables

  /** The quarter of a wave from no current to all of it. */
  function Quarter(v: Variant, x: nat): nat
    requires x <= 8
  {
    if v.Triangle? then 64 * x
    else match x
      case 0 => 0
      case 1 => 102
      case 2 => 194
      case 3 => 286
      case 4 => 363
      case 5 => 424
      case 6 => 471
      case 7 => 501
      case 8 => 512
  }

  /** Half a wave, up and down the same way, and half a cycle of nothing. */
  function Wave(v: Variant, x: Row): nat {
    if x <= 8 then Quarter(v, x) else if x <= 16 then Quarter(v, 16 - x) else 0
  }

  /** So many rows on, round the cycle. */
  function Around(i: Row, n: nat): Row
    requires n < STEPS
  {
    if i + n < STEPS then i + n else i + n - STEPS
  }

  /** How many rows a channel is ahead of the first: half a cycle in a pair, a quarter between pairs. */
  function Ahead(k: Channel): nat {
    match k case 0 => 0 case 1 => 16 case 2 => 24 case 3 => 8
  }

  lemma SineWave1(i: Row)
    ensures SINE_L1[i] == Wave(Sine, Around(i, 0))
  {
  }

  lemma SineWave2(i: Row)
    ensures SINE_L2[i] == Wave(Sine, Around(i, 16))
  {
  }

  lemma SineWave3(i: Row)
    ensures SINE_L3[i] == Wave(Sine, Around(i, 24))
  {
  }

  lemma SineWave4(i: Row)
    ensures SINE_L4[i] == Wave(Sine, Around(i, 8))
  {
  }

  lemma TriangleWave1(i: Row)
    ensures TRIANGLE_L1[i] == Wave(Triangle, Around(i, 0))
  {
  }

  lemma TriangleWave2(i: Row)
    ensures TRIANGLE_L2[i] == Wave(Triangle, Around(i, 16))
  {
  }

  lemma TriangleWave3(i: Row)
    ensures TRIANGLE_L3[i] == Wave(Triangle, Around(i, 24))
  {
  }

  lemma TriangleWave4(i: Row)
    ensures TRIANGLE_L4[i] == Wave(Triangle, Around(i, 8))
  {
  }

  lemma LowIsWave(v: Variant, k: Channel, i: Row)
    ensures Low(v, k, i) == Wave(v, Around(i, Ahead(k)))
  {
    hide Wave;
    match (v, k)
    case (Sine, 0) => SineWave1(i);
    case (Sine, 1) => SineWave2(i);
    case (Sine, 2) => SineWave3(i);
    case (Sine, 3) => SineWave4(i);
    case (Triangle, 0) => TriangleWave1(i);
    case (Triangle, 1) => TriangleWave2(i);
    case (Triangle, 2) => TriangleWave3(i);
    case (Triangle, 3) => TriangleWave4(i);
  }

  lemma QuarterRises(v: Variant, x: nat)
    requires x < 8
    ensures Quarter(v, x) < Quarter(v, x + 1)
    ensures Quarter(v, 0) == 0 && Quarter(v, 8) == 512
  {
  }

  /** The duty of the first channel grows with every row from nothing in row 0 to all in row 8. */
  lemma DutyRises(v: Variant, i: Row)
    requires i < 8
    ensures Low(v, 0, i) < Low(v, 0, i + 1)
    ensures Low(v, 0, 0) == 0 && Low(v, 0, 8) == 512
  {
    hide Low, Quarter;
    LowIsWave(v, 0, i);
    LowIsWave(v, 0, i + 1);
    LowIsWave(v, 0, 0);
    LowIsWave(v, 0, 8);
    QuarterRises(v, i);
  }

  /** All four duties and all four high sides are the first one's, so many rows ahead. */
  lemma ChannelsAreShifted(v: Variant, k: Channel, i: Row)
    ensures Low(v, k, i) == Low(v, 0, Around(i, Ahead(k)))
    ensures High(k, i) == High(0, Around(i, Ahead(k)))
  {
    hide Low, High, Wave;
    LowIsWave(v, k, i);
    LowIsWave(v, 0, Around(i, Ahead(k)));
    HighRows(k, i);
    HighRows(0, Around(i, Ahead(k)));
  }

  /** The row as far behind row 0 as a row is ahead of it. */
  function Mirror(i: Row): Row {
    if i == 0 then 0 else STEPS - i
  }

  /** The other channel of the first pair; the second pair is not exchanged. */
  function Swapped(k: Channel): Channel {
    match k case 0 => 1 case 1 => 0 case 2 => 2 case 3 => 3
  }

  lemma WaveMirrors(v: Variant, x: Row)
    ensures Wave(v, x) == Wave(v, if x <= 16 then 16 - x else 48 - x)
  {
    hide Quarter;
  }

  /** Exchanging the first pair runs the cycle backwards. */
  lemma TablesMirror(v: Variant, k: Channel, i: Row)
    ensures Low(v, Swapped(k), i) == Low(v, k, Mirror(i))
    ensures High(Swapped(k), i) == High(k, Mirror(i))
  {
    hide Low, High, Wave;
    LowIsWave(v, Swapped(k), i);
    LowIsWave(v, k, Mirror(i));
    WaveMirrors(v, Around(i, Ahead(Swapped(k))));
    HighRows(Swapped(k), i);
    HighRows(k, Mirror(i));
  }

  /** The channel the current through a high side comes back by. */
  function Opposite(k: Channel): Channel {
    match k case 0 => 1 case 1 => 0 case 2 => 3 case 3 => 2
  }

  /** Current goes through a winding in one direction or not at all: a high side and the other low side. */
  lemma CurrentPath(v: Variant, k: Channel, i: Row)
    ensures High(k, i) == 1 <==> Low(v, Opposite(k), i) != 0
  {
    hide Low, High;
    HighRows(k, i);
    LowRows(v, Opposite(k), i);
  }
}
