/**
 A tick of the controller as the writes it consists of, one register or pin at a time, and the
 states between them: current must not find a way through a whole bridge there either.
 */
module StepperWrites {
  import opened Words
  import opened Packets
  import opened StepTables
  import opened Stepper
  import T = PwmTimer

  datatype Outputs = Outputs(high: Switches, pwm: T.Pwm)

  datatype Write =
    | Hifet(k: Channel, on: nat)
    | Mat(k: Channel, value: uint32)      // the driver's own table of channel values
    | Reload(k: Channel)                  // a match register gets its channel's value
    | Period(k: Channel)                  // or the period
    | StageVariable(stage: byte)
    | PwmControl(off: Channel)            // PWM for all channels but one
    | ResetOn(k: Channel)
    | Port(k: Channel, level: bool)
    | Pin(k: Channel, timer: bool)        // pin function: timer or port
    | Stop
    | PortAll(level: bool)

  function Apply(o: Outputs, w: Write): Outputs {
    var p := o.pwm;
    match w
    case Hifet(k, on) => o.(high := o.high[k := on])
    case Mat(k, value) => o.(pwm := p.(mat := p.mat[k := value]))
    case Reload(k) => o.(pwm := p.(mr := p.mr[k := p.mat[k]]))
    case Period(k) => o.(pwm := p.(mr := p.mr[k := p.period]))
    case StageVariable(stage) => o.(pwm := p.(stage := stage))
    case PwmControl(off) => o.(pwm := p.(enabled := [off != 0, off != 1, off != 2, off != 3]))
    case ResetOn(k) => o.(pwm := p.(resetOn := k))
    case Port(k, level) => o.(pwm := p.(level := p.level[k := level]))
    case Pin(k, timer) => o.(pwm := p.(timerPin := p.timerPin[k := timer]))
    case Stop => o.(pwm := p.(running := false))
    case PortAll(level) => o.(pwm := p.(level := [level, level, level, level]))
  }

  function ApplyAll(o: Outputs, ws: seq<Write>): Outputs
    decreases |ws|
  {
    if ws == [] then o else ApplyAll(Apply(o, ws[0]), ws[1..])
  }

  /** No bridge conducts from supply to ground. */
  predicate Quiet(o: Outputs) {
    forall k: Channel :: o.high[k] == 1 ==> !Conducts(o.pwm, k)
  }

  /** Neither before nor between nor after the writes. */
  predicate AllQuiet(o: Outputs, ws: seq<Write>)
    decreases |ws|
  {
    Quiet(o) && (ws != [] ==> AllQuiet(Apply(o, ws[0]), ws[1..]))
  }

  lemma {:induction false} Append(o: Outputs, xs: seq<Write>, ys: seq<Write>)
    ensures ApplyAll(o, xs + ys) == ApplyAll(ApplyAll(o, xs), ys)
    ensures AllQuiet(o, xs + ys) <==> AllQuiet(o, xs) && AllQuiet(ApplyAll(o, xs), ys)
    decreases |xs|
  {
    hide Apply, Quiet;
    if xs == [] {
      assert xs + ys == ys;
    } else {
      assert (xs + ys)[0] == xs[0] && (xs + ys)[1..] == xs[1..] + ys;
      Append(Apply(o, xs[0]), xs[1..], ys);
    }
  }

  lemma First(o: Outputs, w: Write, ws: seq<Write>)
    ensures ApplyAll(o, [w] + ws) == ApplyAll(Apply(o, w), ws)
    ensures AllQuiet(o, [w] + ws) <==> Quiet(o) && AllQuiet(Apply(o, w), ws)
  {
    hide Apply, Quiet;
    assert ([w] + ws)[0] == w && ([w] + ws)[1..] == ws;
  }

  lemma Nothing(o: Outputs)
    ensures ApplyAll(o, []) == o && (AllQuiet(o, []) <==> Quiet(o))
  {
  }

  lemma Two(o: Outputs, a: Write, b: Write)
    ensures var x := Apply(o, a);
            var y := Apply(x, b);
            && ApplyAll(o, [a, b]) == y
            && (AllQuiet(o, [a, b]) <==> Quiet(o) && Quiet(x) && Quiet(y))
  {
    hide Apply, Quiet;
    var x := Apply(o, a);
    Nothing(Apply(x, b));
    First(x, b, []);
    First(o, a, [b]);
    assert [b] == [b] + [] && [a, b] == [a] + [b];
  }

  lemma Four(o: Outputs, a: Write, b: Write, c: Write, d: Write)
    ensures var x := Apply(Apply(o, a), b);
            var y := Apply(Apply(x, c), d);
            && ApplyAll(o, [a, b, c, d]) == y
            && (AllQuiet(o, [a, b, c, d]) <==>
                  Quiet(o) && Quiet(Apply(o, a)) && Quiet(x) && Quiet(Apply(x, c)) && Quiet(y))
  {
    hide Apply, Quiet;
    Two(o, a, b);
    Two(Apply(Apply(o, a), b), c, d);
    Append(o, [a, b], [c, d]);
    assert [a, b, c, d] == [a, b] + [c, d];
  }

  // The calls of the timer driver

  function ReloadWrites(stage: byte): seq<Write> {
    [Reload(0), Reload(1), Reload(if stage == 0 then 3 else 2)]
  }

  function SetWrites(stage: byte, k: Channel, value: uint32): seq<Write> {
    [Mat(k, value)] + ReloadWrites(stage)
  }

  function StageWrites(stage: byte): seq<Write> {
    [StageVariable(stage)] +
    if stage == 0 then
      [PwmControl(2), ResetOn(2), Period(2), Reload(3), Port(2, false), Port(3, true), Pin(2, false), Pin(3, true)]
    else
      [PwmControl(3), ResetOn(3), Reload(2), Period(3), Port(3, false), Port(2, true), Pin(2, true), Pin(3, false)]
  }

  function DeinitWrites(level: bool): seq<Write> {
    [Stop, Pin(0, false), Pin(1, false), Pin(2, false), Pin(3, false), PortAll(level)]
  }

  /** The timer as the controller leaves it between calls. */
  predicate Sound(p: T.Pwm) {
    T.Coherent(p) && T.Connected(p) && p.period == PWM_PERIOD
  }

  /** Then a low side conducts exactly if its channel is not off and its value is ever reached. */
  lemma ConductsIff(p: T.Pwm, k: Channel)
    requires Sound(p)
    ensures Conducts(p, k) <==> k != p.Off() && p.mat[k] <= PWM_PERIOD
  {
  }

  // Setting a channel

  /** Reloading a register that is up to date changes nothing. */
  lemma ReloadIsIdle(o: Outputs, k: Channel)
    requires o.pwm.mr[k] == o.pwm.mat[k]
    ensures Apply(o, Reload(k)) == o
  {
    assert o.pwm.mr[k := o.pwm.mat[k]] == o.pwm.mr;
  }

  /** Of three registers at most one is out of date, so reloading all three is one change. */
  lemma ReloadIsOneChange(o: Outputs, k: Channel, other: Channel)
    requires forall j: Channel :: j in {0, 1, other} && j != k ==> o.pwm.mr[j] == o.pwm.mat[j]
    requires other == 2 || other == 3
    ensures var r := if k in {0, 1, other} then Apply(o, Reload(k)) else o;
            var x := Apply(o, Reload(0));
            var y := Apply(x, Reload(1));
            && Apply(y, Reload(other)) == r
            && x in {o, r} && y in {o, r}
  {
    var r := Apply(o, Reload(k));
    if k == 0 {
      ReloadIsIdle(r, 1);
      ReloadIsIdle(r, other);
    } else {
      ReloadIsIdle(o, 0);
      if k == 1 {
        ReloadIsIdle(r, other);
      } else {
        ReloadIsIdle(o, 1);
        if k != other {
          ReloadIsIdle(o, other);
        }
      }
    }
  }

  lemma SetIsMatAndReload(o: Outputs, k: Channel, value: uint32)
    requires Sound(o.pwm)
    ensures var o1, r := Apply(o, Mat(k, value)), T.Set(o.pwm, k, value);
            && (if k == o.pwm.Off() then o1 else Apply(o1, Reload(k))) == o.(pwm := r)
            && r.mat == o.pwm.mat[k := value] && r.stage == o.pwm.stage
            && forall j: Channel :: j != o.pwm.Off() && j != k ==> o1.pwm.mr[j] == o1.pwm.mat[j]
  {
    var p := o.pwm.(mat := o.pwm.mat[k := value]);
    var r := T.Set(o.pwm, k, value);
    forall j: Channel
      ensures r.mr[j] == if j == k && k != o.pwm.Off() then value else o.pwm.mr[j]
    {
    }
    assert r.mr == if k == o.pwm.Off() then p.mr else p.mr[k := value];
  }

  /** The calls that set a channel go through two states only, as far as the outputs are concerned. */
  lemma SetIsQuietIff(o: Outputs, k: Channel, value: uint32)
    requires Sound(o.pwm)
    ensures var ws, r := SetWrites(o.pwm.stage, k, value), o.(pwm := T.Set(o.pwm, k, value));
            && ApplyAll(o, ws) == r && Sound(r.pwm) && r.pwm.stage == o.pwm.stage
            && r.pwm.mat == o.pwm.mat[k := value]
            && (AllQuiet(o, ws) <==> Quiet(o) && Quiet(r))
  {
    hide Quiet, AllQuiet, ApplyAll, Apply, T.Set, T.Coherent, T.Connected;
    var other := if o.pwm.stage == 0 then 3 else 2;
    T.OpKeepsCoherent(o.pwm, T.SetOp(k, value));
    MatIsSilent(o, k, value);
    SetIsMatAndReload(o, k, value);
    ReloadIsOneChange(Apply(o, Mat(k, value)), k, other);
    Four(o, Mat(k, value), Reload(0), Reload(1), Reload(other));
    assert SetWrites(o.pwm.stage, k, value) == [Mat(k, value), Reload(0), Reload(1), Reload(other)];
  }

  lemma MatIsSilent(o: Outputs, k: Channel, value: uint32)
    ensures Quiet(Apply(o, Mat(k, value))) <==> Quiet(o)
  {
  }

  // Half a bridge pair: high sides first, low sides after

  function PairWrites(stage: byte, i: Channel, j: Channel, hi: nat, hj: nat, vi: uint32, vj: uint32): seq<Write> {
    [Hifet(i, hi), Hifet(j, hj)] + (SetWrites(stage, i, vi) + SetWrites(stage, j, vj))
  }

  /** What the outputs are in terms of the settings, where the timer agrees with them. */
  predicate Apart(high: Switches, mat: T.Registers, off: Channel) {
    forall k: Channel :: high[k] == 1 ==> k == off || mat[k] > PWM_PERIOD
  }

  lemma QuietIffApart(o: Outputs)
    requires Sound(o.pwm)
    ensures Quiet(o) <==> Apart(o.high, o.pwm.mat, o.pwm.Off())
  {
    forall k: Channel
      ensures Conducts(o.pwm, k) <==> k != o.pwm.Off() && o.pwm.mat[k] <= PWM_PERIOD
    {
      ConductsIff(o.pwm, k);
    }
    hide Conducts, Sound;
  }

  lemma PairEffect(o: Outputs, i: Channel, j: Channel, hi: nat, hj: nat, vi: uint32, vj: uint32)
    requires Sound(o.pwm)
    ensures var r := Outputs(o.high[i := hi][j := hj], T.Set(T.Set(o.pwm, i, vi), j, vj));
            && ApplyAll(o, PairWrites(o.pwm.stage, i, j, hi, hj, vi, vj)) == r
            && Sound(r.pwm) && r.pwm.stage == o.pwm.stage && r.pwm.mat == o.pwm.mat[i := vi][j := vj]
  {
    hide Sound, Quiet, AllQuiet, ApplyAll, SetWrites, T.Set;
    var stage := o.pwm.stage;
    var o2 := o.(high := o.high[i := hi][j := hj]);
    Two(o, Hifet(i, hi), Hifet(j, hj));
    SetIsQuietIff(o2, i, vi);
    SetIsQuietIff(o2.(pwm := T.Set(o.pwm, i, vi)), j, vj);
    Append(o2, SetWrites(stage, i, vi), SetWrites(stage, j, vj));
    Append(o, [Hifet(i, hi), Hifet(j, hj)], SetWrites(stage, i, vi) + SetWrites(stage, j, vj));
  }

  /**
   Two high sides and the low sides below them, switched as a row asks: nothing conducts on the
   way if and only if no high side goes on over a low side that still conducts.
   */
  lemma PairIsQuietIff(o: Outputs, i: Channel, j: Channel, hi: nat, hj: nat, vi: uint32, vj: uint32)
    requires Sound(o.pwm) && Quiet(o) && i != j
    requires (hi == 1 ==> vi > PWM_PERIOD) && (hj == 1 ==> vj > PWM_PERIOD)
    ensures var ws := PairWrites(o.pwm.stage, i, j, hi, hj, vi, vj);
            && (AllQuiet(o, ws) <==>
                  (hi == 1 ==> !Conducts(o.pwm, i)) && (hj == 1 ==> !Conducts(o.pwm, j)))
            && (AllQuiet(o, ws) ==> Quiet(ApplyAll(o, ws)))
  {
    hide Sound, Conducts, Quiet, AllQuiet, ApplyAll, SetWrites, T.Set, T.Coherent, T.Connected;
    PairEffect(o, i, j, hi, hj, vi, vj);
    var stage := o.pwm.stage;
    var o1 := o.(high := o.high[i := hi]);
    var o2 := o.(high := o.high[i := hi][j := hj]);
    var o3 := o2.(pwm := T.Set(o.pwm, i, vi));
    var o4 := o2.(pwm := T.Set(o3.pwm, j, vj));
    Two(o, Hifet(i, hi), Hifet(j, hj));
    SetIsQuietIff(o2, i, vi);
    SetIsQuietIff(o3, j, vj);
    Append(o2, SetWrites(stage, i, vi), SetWrites(stage, j, vj));
    Append(o, [Hifet(i, hi), Hifet(j, hj)], SetWrites(stage, i, vi) + SetWrites(stage, j, vj));
    OffDependsOn(o.pwm, o3.pwm);
    OffDependsOn(o.pwm, o4.pwm);
    QuietIffApart(o);
    QuietIffApart(o1);
    QuietIffApart(o2);
    QuietIffApart(o3);
    QuietIffApart(o4);
    ConductsIff(o.pwm, i);
    ConductsIff(o.pwm, j);
  }

  lemma OffDependsOn(p: T.Pwm, q: T.Pwm)
    requires p.stage == q.stage
    ensures p.Off() == q.Off()
  {
  }

  // Changing the stage

  /** The upper bridge is quiet with its third high side off, and the lower one with PWM on. */
  predicate Calm(o: Outputs) {
    Quiet(o) && o.pwm.enabled[0] && o.pwm.enabled[1] && o.high[2] != 1
  }

  /** A write to the channels that share a register, which does not make the fourth low side conduct. */
  predicate Harmless(o: Outputs, w: Write) {
    var open := o.high[3] != 1;
    match w
    case StageVariable(_) => true
    case ResetOn(_) => true
    case PwmControl(off) => off == 3 || (off == 2 && open)
    case Reload(k) => k == 2 || (k == 3 && open)
    case Period(k) => k == 2 || (k == 3 && (open || !o.pwm.enabled[3]))
    case Port(k, level) => k == 2 || (k == 3 && (open || !level))
    case Pin(k, timer) => k == 2 || (k == 3 && (open || (!timer && !o.pwm.level[3])))
    case _ => false
  }

  lemma HarmlessStaysCalm(o: Outputs, w: Write)
    requires Calm(o) && Harmless(o, w)
    ensures Calm(Apply(o, w)) && Apply(o, w).high == o.high
  {
    var r := Apply(o, w);
    forall k: Channel | r.high[k] == 1
      ensures !Conducts(r.pwm, k)
    {
      assert !Conducts(o.pwm, k);
    }
  }

  lemma FourHarmless(o: Outputs, a: Write, b: Write, c: Write, d: Write)
    requires Calm(o) && Harmless(o, a) && Harmless(Apply(o, a), b)
    requires var x := Apply(Apply(o, a), b); Harmless(x, c) && Harmless(Apply(x, c), d)
    ensures var r := Apply(Apply(Apply(Apply(o, a), b), c), d);
            Calm(r) && r.high == o.high && ApplyAll(o, [a, b, c, d]) == r && AllQuiet(o, [a, b, c, d])
  {
    hide Apply, Harmless, Quiet;
    var x := Apply(Apply(o, a), b);
    HarmlessStaysCalm(o, a);
    HarmlessStaysCalm(Apply(o, a), b);
    HarmlessStaysCalm(x, c);
    HarmlessStaysCalm(Apply(x, c), d);
    Four(o, a, b, c, d);
  }

  /** The writes of a stage: the variable, four to the timer, four to port and pins. */
  lemma StageInParts(o: Outputs, stage: byte, timer: seq<Write>, pins: seq<Write>)
    ensures var ws, x := [StageVariable(stage)] + (timer + pins), Apply(o, StageVariable(stage));
            && ApplyAll(o, ws) == ApplyAll(ApplyAll(x, timer), pins)
            && (Calm(o) && AllQuiet(x, timer) && AllQuiet(ApplyAll(x, timer), pins) ==> AllQuiet(o, ws))
  {
    hide Apply, Quiet, AllQuiet, ApplyAll;
    Append(Apply(o, StageVariable(stage)), timer, pins);
    First(o, StageVariable(stage), timer + pins);
  }

  lemma VariableIsCalm(o: Outputs, stage: byte)
    requires Calm(o)
    ensures Calm(Apply(o, StageVariable(stage)))
  {
    HarmlessStaysCalm(o, StageVariable(stage));
  }

  const TIMER_ONE: seq<Write> := [PwmControl(3), ResetOn(3), Reload(2), Period(3)]
  const TIMER_ZERO: seq<Write> := [PwmControl(2), ResetOn(2), Period(2), Reload(3)]
  const PINS_ONE: seq<Write> := [Port(3, false), Port(2, true), Pin(2, true), Pin(3, false)]
  const PINS_ZERO: seq<Write> := [Port(2, false), Port(3, true), Pin(2, false), Pin(3, true)]

  lemma TimerOne(o: Outputs)
    ensures var p := o.pwm;
            var r := o.(pwm := p.(enabled := [true, true, true, false], resetOn := 3,
                                  mr := p.mr[2 := p.mat[2]][3 := p.period]));
            ApplyAll(o, TIMER_ONE) == r && (Calm(o) ==> AllQuiet(o, TIMER_ONE) && Calm(r))
  {
    hide Quiet, ApplyAll, AllQuiet;
    Four(o, PwmControl(3), ResetOn(3), Reload(2), Period(3));
    if Calm(o) {
      FourHarmless(o, PwmControl(3), ResetOn(3), Reload(2), Period(3));
    }
  }

  lemma TimerZero(o: Outputs)
    ensures var p := o.pwm;
            var r := o.(pwm := p.(enabled := [true, true, false, true], resetOn := 2,
                                  mr := p.mr[2 := p.period][3 := p.mat[3]]));
            ApplyAll(o, TIMER_ZERO) == r && (Calm(o) && o.high[3] != 1 ==> AllQuiet(o, TIMER_ZERO) && Calm(r))
  {
    hide Quiet, ApplyAll, AllQuiet;
    Four(o, PwmControl(2), ResetOn(2), Period(2), Reload(3));
    if Calm(o) && o.high[3] != 1 {
      FourHarmless(o, PwmControl(2), ResetOn(2), Period(2), Reload(3));
    }
  }

  lemma PinsOne(o: Outputs)
    ensures var p := o.pwm;
            var r := o.(pwm := p.(level := p.level[2 := true][3 := false],
                                  timerPin := p.timerPin[2 := true][3 := false]));
            ApplyAll(o, PINS_ONE) == r && (Calm(o) ==> AllQuiet(o, PINS_ONE))
  {
    hide Quiet, ApplyAll, AllQuiet;
    Four(o, Port(3, false), Port(2, true), Pin(2, true), Pin(3, false));
    if Calm(o) {
      FourHarmless(o, Port(3, false), Port(2, true), Pin(2, true), Pin(3, false));
    }
    assert o.pwm.level[3 := false][2 := true] == o.pwm.level[2 := true][3 := false];
  }

  lemma PinsZero(o: Outputs)
    ensures var p := o.pwm;
            var r := o.(pwm := p.(level := p.level[2 := false][3 := true],
                                  timerPin := p.timerPin[2 := false][3 := true]));
            ApplyAll(o, PINS_ZERO) == r && (Calm(o) && o.high[3] != 1 ==> AllQuiet(o, PINS_ZERO))
  {
    hide Quiet, ApplyAll, AllQuiet;
    Four(o, Port(2, false), Port(3, true), Pin(2, false), Pin(3, true));
    if Calm(o) && o.high[3] != 1 {
      FourHarmless(o, Port(2, false), Port(3, true), Pin(2, false), Pin(3, true));
    }
  }

  lemma SoundIsCalm(o: Outputs)
    requires Sound(o.pwm) && Quiet(o) && o.high[2] != 1
    ensures Calm(o)
  {
  }

  /** Into stage 1: nothing is on above channel 2, and channel 3 is switched off before its register changes. */
  lemma StageOneIsQuiet(o: Outputs)
    requires Sound(o.pwm)
    ensures ApplyAll(o, StageWrites(1)) == o.(pwm := T.SetStage(o.pwm, 1))
    ensures Quiet(o) && o.high[2] != 1 ==> AllQuiet(o, StageWrites(1))
  {
    hide Quiet, ApplyAll, AllQuiet, Calm, Sound;
    var x := Apply(o, StageVariable(1));
    if Quiet(o) && o.high[2] != 1 {
      SoundIsCalm(o);
      VariableIsCalm(o, 1);
    }
    TimerOne(x);
    PinsOne(ApplyAll(x, TIMER_ONE));
    StageInParts(o, 1, TIMER_ONE, PINS_ONE);
    assert StageWrites(1) == [StageVariable(1)] + (TIMER_ONE + PINS_ONE);
  }

  /** Into stage 0: nothing is on above either channel. */
  lemma StageZeroIsQuiet(o: Outputs)
    requires Sound(o.pwm)
    ensures ApplyAll(o, StageWrites(0)) == o.(pwm := T.SetStage(o.pwm, 0))
    ensures Quiet(o) && o.high[2] != 1 && o.high[3] != 1 ==> AllQuiet(o, StageWrites(0))
  {
    hide Quiet, ApplyAll, AllQuiet, Calm, Sound;
    var x := Apply(o, StageVariable(0));
    if Quiet(o) && o.high[2] != 1 && o.high[3] != 1 {
      SoundIsCalm(o);
      VariableIsCalm(o, 0);
    }
    TimerZero(x);
    PinsZero(ApplyAll(x, TIMER_ZERO));
    StageInParts(o, 0, TIMER_ZERO, PINS_ZERO);
    assert StageWrites(0) == [StageVariable(0)] + (TIMER_ZERO + PINS_ZERO);
  }

  // A tick

  function Of(m: Motor): Outputs {
    Outputs(m.high, m.pwm)
  }

  function DutiesSet(m: Motor, v: Variant): T.Pwm {
    SetDuty(m, v, SetDuty(m, v, SetDuty(m, v, SetDuty(m, v, m.pwm, 0), 1), 2), 3)
  }

  function Switched(p: T.Pwm, row: Row): T.Pwm {
    if row == 9 then T.SetStage(p, 1) else if row == 24 then T.SetStage(p, 0) else p
  }

  function LowValue(m: Motor, v: Variant, k: Channel): uint32 {
    Match(Duty(m, v, k))
  }

  function HighValue(m: Motor, k: Channel): nat {
    High(Source(m.forward, k), m.walker)
  }

  function PairOf(m: Motor, v: Variant, i: Channel, j: Channel): seq<Write> {
    PairWrites(m.pwm.stage, i, j, HighValue(m, i), HighValue(m, j), LowValue(m, v, i), LowValue(m, v, j))
  }

  function SwitchWrites(row: Row): seq<Write> {
    if row == 9 then StageWrites(1) else if row == 24 then StageWrites(0) else []
  }

  function NextStage(m: Motor): byte {
    if m.walker == 9 then 1 else if m.walker == 24 then 0 else m.pwm.stage
  }

  function EnergiseWrites(m: Motor, v: Variant): seq<Write> {
    PairOf(m, v, 0, 1) + (PairOf(m, v, 2, 3) + (SwitchWrites(m.walker) + ReloadWrites(NextStage(m))))
  }

  /** The last tick of a command that frees the motor takes everything off: the high sides first. */
  function FreeWrites(m: Motor): seq<Write> {
    if (m.steps == 0 && m.free) || (m.steps != -1 && m.abort)
    then [Hifet(0, 0), Hifet(1, 0), Hifet(2, 0), Hifet(3, 0)] + DeinitWrites(false) else []
  }

  /** All the writes of a tick to pins and timer. */
  function TickWrites(m: Motor, v: Variant): seq<Write> {
    EnergiseWrites(m, v) + FreeWrites(m)
  }

  /** No high side goes on over a low side that still conducts. */
  predicate BreaksBeforeMake(m: Motor) {
    forall k: Channel :: HighValue(m, k) == 1 ==> !Conducts(m.pwm, k)
  }

  lemma ValuesApart(m: Motor, v: Variant, k: Channel)
    ensures HighValue(m, k) == 1 ==> LowValue(m, v, k) > PWM_PERIOD
  {
    DutyOffUnderHigh(m, v, k);
  }

  lemma PairsEffect(m: Motor, v: Variant)
    requires Sound(m.pwm)
    ensures var x := ApplyAll(Of(m), PairOf(m, v, 0, 1));
            var r := ApplyAll(x, PairOf(m, v, 2, 3));
            && Sound(x.pwm) && x.pwm.stage == m.pwm.stage
            && x.pwm.mat[2] == m.pwm.mat[2] && x.pwm.mat[3] == m.pwm.mat[3]
            && r.high == [HighValue(m, 0), HighValue(m, 1), HighValue(m, 2), HighValue(m, 3)]
            && r.pwm == DutiesSet(m, v) && Sound(r.pwm) && r.pwm.stage == m.pwm.stage
  {
    hide Sound, ApplyAll, PairWrites, T.Set, HighValue, Duty, Match;
    PairEffect(Of(m), 0, 1, HighValue(m, 0), HighValue(m, 1), LowValue(m, v, 0), LowValue(m, v, 1));
    var x := ApplyAll(Of(m), PairOf(m, v, 0, 1));
    PairEffect(x, 2, 3, HighValue(m, 2), HighValue(m, 3), LowValue(m, v, 2), LowValue(m, v, 3));
  }

  lemma SameConducts(p: T.Pwm, q: T.Pwm, k: Channel)
    requires Sound(p) && Sound(q) && p.stage == q.stage && p.mat[k] == q.mat[k]
    ensures Conducts(p, k) <==> Conducts(q, k)
  {
    hide Sound, Conducts;
    ConductsIff(p, k);
    ConductsIff(q, k);
  }

  /** The two pairs, one after the other. */
  lemma PairsAreQuietIff(m: Motor, v: Variant)
    requires Sound(m.pwm) && Quiet(Of(m))
    ensures var ws := PairOf(m, v, 0, 1) + PairOf(m, v, 2, 3);
            && (AllQuiet(Of(m), ws) <==> BreaksBeforeMake(m))
            && (AllQuiet(Of(m), ws) ==> Quiet(ApplyAll(Of(m), ws)))
  {
    hide Sound, Conducts, Quiet, AllQuiet, ApplyAll, PairWrites, T.Set, HighValue, LowValue;
    var o := Of(m);
    ValuesApart(m, v, 0);
    ValuesApart(m, v, 1);
    ValuesApart(m, v, 2);
    ValuesApart(m, v, 3);
    PairsEffect(m, v);
    PairIsQuietIff(o, 0, 1, HighValue(m, 0), HighValue(m, 1), LowValue(m, v, 0), LowValue(m, v, 1));
    var x := ApplyAll(o, PairOf(m, v, 0, 1));
    SameConducts(m.pwm, x.pwm, 2);
    SameConducts(m.pwm, x.pwm, 3);
    if AllQuiet(o, PairOf(m, v, 0, 1)) {
      PairIsQuietIff(x, 2, 3, HighValue(m, 2), HighValue(m, 3), LowValue(m, v, 2), LowValue(m, v, 3));
    }
    Append(o, PairOf(m, v, 0, 1), PairOf(m, v, 2, 3));
    FourChannels(m);
  }

  lemma FourChannels(m: Motor)
    ensures BreaksBeforeMake(m) <==>
            && (HighValue(m, 0) == 1 ==> !Conducts(m.pwm, 0)) && (HighValue(m, 1) == 1 ==> !Conducts(m.pwm, 1))
            && (HighValue(m, 2) == 1 ==> !Conducts(m.pwm, 2)) && (HighValue(m, 3) == 1 ==> !Conducts(m.pwm, 3))
  {
    hide HighValue, Conducts;
  }

  lemma ReloadIsNothing(o: Outputs)
    requires Sound(o.pwm)
    ensures ApplyAll(o, ReloadWrites(o.pwm.stage)) == o && T.ReloadMat(o.pwm) == o.pwm
    ensures AllQuiet(o, ReloadWrites(o.pwm.stage)) <==> Quiet(o)
  {
    hide Quiet, ApplyAll, AllQuiet;
    var other := if o.pwm.stage == 0 then 3 else 2;
    ReloadIsIdle(o, 0);
    ReloadIsIdle(o, 1);
    ReloadIsIdle(o, other);
    First(o, Reload(0), [Reload(1), Reload(other)]);
    Two(o, Reload(1), Reload(other));
    assert ReloadWrites(o.pwm.stage) == [Reload(0)] + [Reload(1), Reload(other)];
    assert T.ReloadMat(o.pwm).mr == o.pwm.mr;
  }

  /** The rows at which the stage changes leave the bridges quiet that it concerns. */
  lemma SwitchIsQuiet(o: Outputs, m: Motor)
    requires Sound(o.pwm) && o.pwm.stage == m.pwm.stage
    requires o.high[2] == HighValue(m, 2) && o.high[3] == HighValue(m, 3)
    ensures var ws := SwitchWrites(m.walker) + ReloadWrites(NextStage(m));
            var p := Switched(o.pwm, m.walker);
            && ApplyAll(o, ws) == o.(pwm := T.ReloadMat(p)) && Sound(T.ReloadMat(p))
            && (Quiet(o) ==> AllQuiet(o, ws))
  {
    hide Quiet, ApplyAll, AllQuiet, StageWrites, ReloadWrites, T.Coherent, T.Connected, T.ReloadMat, T.SetStage, High;
    HighRows(2, m.walker);
    HighRows(3, m.walker);
    var p := Switched(o.pwm, m.walker);
    T.OpKeepsCoherent(o.pwm, T.StageOp(1));
    T.OpKeepsCoherent(o.pwm, T.StageOp(0));
    StageKeepsSettings(o.pwm, 1);
    StageKeepsSettings(o.pwm, 0);
    ReloadIsNothing(o.(pwm := p));
    if m.walker == 9 {
      StageOneIsQuiet(o);
    } else if m.walker == 24 {
      StageZeroIsQuiet(o);
    } else {
      Nothing(o);
    }
    Append(o, SwitchWrites(m.walker), ReloadWrites(NextStage(m)));
    if Quiet(o) {
      LastIsQuiet(o, SwitchWrites(m.walker));
    }
  }

  lemma {:induction false} LastIsQuiet(o: Outputs, ws: seq<Write>)
    requires AllQuiet(o, ws)
    ensures Quiet(ApplyAll(o, ws))
    decreases |ws|
  {
    hide Apply, Quiet;
    if ws != [] {
      LastIsQuiet(Apply(o, ws[0]), ws[1..]);
    }
  }

  lemma EnergiseIs(m: Motor, v: Variant)
    ensures Of(Energise(m, v))
         == Outputs([HighValue(m, 0), HighValue(m, 1), HighValue(m, 2), HighValue(m, 3)],
                    T.ReloadMat(Switched(DutiesSet(m, v), m.walker)))
  {
    hide High, SetDuty, T.SetStage, T.ReloadMat;
  }

  /** A microstep write by write: it comes to the microstep, and is quiet if the breaks come first. */
  lemma EnergiseIsQuietIff(m: Motor, v: Variant)
    requires Sound(m.pwm) && Quiet(Of(m))
    ensures ApplyAll(Of(m), EnergiseWrites(m, v)) == Of(Energise(m, v))
    ensures AllQuiet(Of(m), EnergiseWrites(m, v)) <==> BreaksBeforeMake(m)
  {
    hide Sound, Quiet, ApplyAll, AllQuiet, PairOf, SwitchWrites, ReloadWrites, BreaksBeforeMake, SetDuty,
         HighValue, Energise, NextStage, T.ReloadMat, T.SetStage;
    var o, pairs, rest := Of(m), PairOf(m, v, 0, 1) + PairOf(m, v, 2, 3),
                          SwitchWrites(m.walker) + ReloadWrites(NextStage(m));
    EnergiseIs(m, v);
    PairsEffect(m, v);
    PairsAreQuietIff(m, v);
    Append(o, PairOf(m, v, 0, 1), PairOf(m, v, 2, 3));
    SwitchIsQuiet(ApplyAll(o, pairs), m);
    Append(o, pairs, rest);
    AppendAssociates(PairOf(m, v, 0, 1), PairOf(m, v, 2, 3), rest);
  }

  lemma OffIsQuiet(o: Outputs)
    requires o.high == OFF
    ensures Quiet(o)
  {
  }

  lemma HighSidesOff(o: Outputs)
    ensures var ws := [Hifet(0, 0), Hifet(1, 0), Hifet(2, 0), Hifet(3, 0)];
            ApplyAll(o, ws) == o.(high := OFF) && (AllQuiet(o, ws) <==> Quiet(o))
  {
    hide ApplyAll, AllQuiet;
    Four(o, Hifet(0, 0), Hifet(1, 0), Hifet(2, 0), Hifet(3, 0));
    assert o.high[0 := 0][1 := 0][2 := 0][3 := 0] == OFF;
  }

  predicate NoHifet(ws: seq<Write>) {
    ws != [] ==> !ws[0].Hifet? && NoHifet(ws[1..])
  }

  lemma {:induction false} OffStaysQuiet(o: Outputs, ws: seq<Write>)
    requires o.high == OFF && NoHifet(ws)
    ensures AllQuiet(o, ws)
    decreases |ws|
  {
    hide Quiet;
    OffIsQuiet(o);
    if ws != [] {
      OffStaysQuiet(Apply(o, ws[0]), ws[1..]);
    }
  }

  lemma PinsToPort(o: Outputs)
    ensures ApplyAll(o, [Pin(0, false), Pin(1, false), Pin(2, false), Pin(3, false)])
         == o.(pwm := o.pwm.(timerPin := [false, false, false, false]))
  {
    hide ApplyAll, AllQuiet, Quiet;
    Four(o, Pin(0, false), Pin(1, false), Pin(2, false), Pin(3, false));
    assert o.pwm.timerPin[0 := false][1 := false][2 := false][3 := false] == [false, false, false, false];
  }

  lemma DeinitIsQuiet(o: Outputs, level: bool)
    requires o.high == OFF
    ensures ApplyAll(o, DeinitWrites(level)) == o.(pwm := T.Deinit(o.pwm, level))
    ensures AllQuiet(o, DeinitWrites(level))
  {
    hide ApplyAll, AllQuiet, Quiet, NoHifet;
    DeinitIsLow(level);
    OffStaysQuiet(o, DeinitWrites(level));
    var pins := [Pin(0, false), Pin(1, false), Pin(2, false), Pin(3, false)];
    var x := Apply(o, Stop);
    PinsToPort(x);
    First(o, Stop, pins + [PortAll(level)]);
    Append(x, pins, [PortAll(level)]);
    var y := ApplyAll(x, pins);
    First(y, PortAll(level), []);
    Nothing(Apply(y, PortAll(level)));
    assert [PortAll(level)] == [PortAll(level)] + [];
    assert DeinitWrites(level) == [Stop] + (pins + [PortAll(level)]);
  }

  lemma DeinitIsLow(level: bool)
    ensures NoHifet(DeinitWrites(level))
  {
    var ws := DeinitWrites(level);
    assert ws[1..][1..] == ws[2..] && ws[2..][1..] == ws[3..] && ws[3..][1..] == ws[4..];
    assert ws[4..][1..] == ws[5..] && ws[5..][1..] == [];
    assert NoHifet(ws[5..]);
    assert NoHifet(ws[4..]);
    assert NoHifet(ws[3..]);
    assert NoHifet(ws[2..]);
  }

  lemma FreeIsQuietIff(o: Outputs, m: Motor)
    ensures var ws := FreeWrites(m);
            && ApplyAll(o, ws) == (if ws == [] then o else Outputs(OFF, T.Deinit(o.pwm, false)))
            && (AllQuiet(o, ws) <==> Quiet(o))
  {
    hide ApplyAll, AllQuiet, Quiet, DeinitWrites;
    Nothing(o);
    HighSidesOff(o);
    DeinitIsQuiet(o.(high := OFF), false);
    Append(o, [Hifet(0, 0), Hifet(1, 0), Hifet(2, 0), Hifet(3, 0)], DeinitWrites(false));
  }

  lemma RoutineIs(m: Motor, v: Variant)
    ensures var e := Energise(m, v);
            Of(Routine(m, v)) == if FreeWrites(m) == [] then Of(e) else Outputs(OFF, T.Deinit(e.pwm, false))
  {
    hide Energise, T.Deinit, DeinitWrites;
    KeepsCommand(m, v);
    assert FreeWrites(m) == [] || |FreeWrites(m)| >= 4;
  }

  /** A tick write by write. */
  lemma TickIsQuietIff(m: Motor, v: Variant)
    requires Sound(m.pwm) && Quiet(Of(m))
    ensures ApplyAll(Of(m), TickWrites(m, v)) == Of(Routine(m, v))
    ensures AllQuiet(Of(m), TickWrites(m, v)) <==> BreaksBeforeMake(m)
  {
    hide Sound, Quiet, ApplyAll, AllQuiet, EnergiseWrites, FreeWrites, BreaksBeforeMake, Energise, Routine, T.Deinit;
    EnergiseIsQuietIff(m, v);
    RoutineIs(m, v);
    FreeIsQuietIff(Of(Energise(m, v)), m);
    if AllQuiet(Of(m), EnergiseWrites(m, v)) {
      LastIsQuiet(Of(m), EnergiseWrites(m, v));
    }
    Append(Of(m), EnergiseWrites(m, v), FreeWrites(m));
  }

  lemma KeepsCommand(m: Motor, v: Variant)
    ensures var e := Energise(m, v);
            e.steps == m.steps && e.free == m.free && e.abort == m.abort && e.walker == m.walker
  {
    hide SetDuty, High, T.SetStage, T.ReloadMat;
  }

  // Runs

  /** Whether no tick has come since the outputs were initialised. */
  function StillFirst(m: Motor, e: Event, first: bool): bool
    requires e.Valid()
  {
    match e
    case Tick => !m.attached && first
    case StepCommand(steps, _, timeMs, _) => Accepts(m, steps, timeMs) || first
    case InitCall => true
    case _ => first
  }

  function IsFirst(m: Motor, v: Variant, es: seq<Event>, first: bool): bool
    requires AllValid(es)
    decreases |es|
  {
    if es == [] then first else IsFirst(Step(m, v, es[0]), v, es[1..], StillFirst(m, es[0], first))
  }

  function Before(row: Row): Row {
    if row == 0 then STEPS - 1 else row - 1
  }

  /** What the low sides are set to while a command is on its way. */
  predicate Settled(m: Motor, v: Variant, first: bool) {
    m.attached || m.paused ==>
      if first then m.high == OFF && m.pwm.mat == [0, 0, 0, 0]
      else forall k: Channel :: m.pwm.mat[k] == LowValue(m.(walker := Before(m.walker)), v, k)
  }

  lemma StepSettles(m: Motor, v: Variant, e: Event, first: bool)
    requires Safe(m) && Settled(m, v, first) && e.Valid()
    ensures Settled(Step(m, v, e), v, StillFirst(m, e, first))
  {
    hide Energise, Duty, Match, T.Coherent, T.Connected;
    if e == Tick && m.attached {
      EnergiseSets(m, v);
      KeepsCommand(m, v);
      KeepsDirection(m, v);
      forall k: Channel
        ensures LowValue(Routine(m, v).(walker := m.walker), v, k) == LowValue(m, v, k)
      {
        DutyDependsOn(Routine(m, v).(walker := m.walker), m, v, k);
      }
    } else {
      forall r: Motor, k: Channel | r.forward == m.forward && r.walker == m.walker
        ensures LowValue(r.(walker := Before(r.walker)), v, k) == LowValue(m.(walker := Before(m.walker)), v, k)
      {
        DutyDependsOn(r.(walker := Before(r.walker)), m.(walker := Before(m.walker)), v, k);
      }
    }
  }

  lemma DutyDependsOn(m: Motor, n: Motor, v: Variant, k: Channel)
    requires m.walker == n.walker && m.forward == n.forward
    ensures Duty(m, v, k) == Duty(n, v, k)
  {
  }

  lemma {:induction false} RunSettles(m: Motor, v: Variant, es: seq<Event>, first: bool)
    requires Safe(m) && Settled(m, v, first) && AllValid(es)
    ensures Safe(Run(m, v, es)) && Settled(Run(m, v, es), v, IsFirst(m, v, es, first))
    decreases |es|
  {
    hide Step, Safe, Settled, StillFirst;
    if es != [] {
      StepKeepsSafe(m, v, es[0]);
      StepSettles(m, v, es[0], first);
      RunSettles(Step(m, v, es[0]), v, es[1..], StillFirst(m, es[0], first));
    }
  }

  /** Rows are break-before-make: a low side has no duty in the row before its high side goes on. */
  lemma RowsBreakBeforeMake(v: Variant, k: Channel, i: Row)
    ensures High(k, i) == 1 ==> Low(v, k, Before(i)) == 0
  {
    hide High, Low;
    HighRows(k, i);
    LowRows(v, k, Before(i));
  }

  lemma LaterTicksBreak(m: Motor, v: Variant)
    requires Sound(m.pwm) && m.attached && Settled(m, v, false)
    ensures BreaksBeforeMake(m)
  {
    hide High, Low, Sound, Conducts;
    forall k: Channel
      ensures HighValue(m, k) == 1 ==> !Conducts(m.pwm, k)
    {
      RowsBreakBeforeMake(v, Source(m.forward, k), m.walker);
      LowRows(v, Source(m.forward, k), Before(m.walker));
      ConductsIff(m.pwm, k);
    }
  }

  /** The rows in which no high side is on but the one above the low side that is switched off. */
  predicate StartsQuiet(m: Motor) {
    (m.walker == 0 && m.pwm.stage == 0) || (m.walker == 16 && m.pwm.stage != 0)
  }

  lemma FirstTickBreaksIff(m: Motor)
    requires Sound(m.pwm) && m.pwm.mat == [0, 0, 0, 0]
    ensures BreaksBeforeMake(m) <==> StartsQuiet(m)
  {
    hide High, Sound, Conducts;
    ConductsIff(m.pwm, 0);
    ConductsIff(m.pwm, 1);
    ConductsIff(m.pwm, 2);
    ConductsIff(m.pwm, 3);
    HighRows(Source(m.forward, 0), m.walker);
    HighRows(Source(m.forward, 1), m.walker);
    HighRows(2, m.walker);
    HighRows(3, m.walker);
    hide BreaksBeforeMake;
    FourChannels(m);
  }

  lemma AttachedIsSound(m: Motor)
    requires Safe(m) && m.attached
    ensures Sound(m.pwm) && Quiet(Of(m))
  {
    hide T.Coherent, T.Connected;
    SafeMeansNoShootThrough(m);
  }

  lemma StartsSettled(m: Motor, v: Variant)
    requires PowerOn(m)
    ensures Safe(m) && Settled(m, v, true)
  {
  }

  /**
   In every run, for both tables and both directions: a tick comes to the state the controller
   specifies, and on the way to it no bridge conducts from supply to ground at any write, but for
   one case. The initialisation puts all low sides on, and the first tick after it switches high
   sides on before it sets the low sides: that is quiet exactly from row 0 in stage 0 and from
   row 16 in stage 1.
   */
  lemma TicksAreQuietIff(m: Motor, v: Variant, es: seq<Event>)
    requires PowerOn(m) && AllValid(es)
    ensures var r := Run(m, v, es);
            r.attached ==>
              && ApplyAll(Of(r), TickWrites(r, v)) == Of(Routine(r, v))
              && (AllQuiet(Of(r), TickWrites(r, v)) <==> !IsFirst(m, v, es, true) || StartsQuiet(r))
  {
    hide Run, IsFirst, Safe, AllQuiet, ApplyAll, TickWrites, Routine, StartsQuiet, BreaksBeforeMake, Sound, Quiet;
    StartsSettled(m, v);
    RunSettles(m, v, es, true);
    var r := Run(m, v, es);
    if r.attached {
      AttachedIsSound(r);
      TickIsQuietIff(r, v);
      if IsFirst(m, v, es, true) {
        FirstTickBreaksIff(r);
      } else {
        LaterTicksBreak(r, v);
      }
    }
  }

  /** Unless the controller is reset, the rows alone decide. */
  lemma QuietRows(m: Motor, v: Variant, es: seq<Event>)
    requires PowerOn(m) && AllValid(es) && DeinitCall !in es
    ensures StartsQuiet(Run(m, v, es)) <==> Run(m, v, es).walker in {0, 16}
  {
    hide Run, TicksTaken;
    StageStabilises(m, v, es);
  }

  /** Where a command of N steps from power-on leaves row and stage. */
  lemma FirstCommandEnds(m: Motor, v: Variant, e: Event, es: seq<Event>)
    requires PowerOn(m) && e.StepCommand? && e.Valid() && Accepts(m, e.steps, e.timeMs)
    requires AllPlain(es) && AllValid(es) && TicksTaken(Step(m, v, e), v, es) == e.steps + 1
    ensures var r := Run(Step(m, v, e), v, es);
            Safe(r) && InPhase(r) && r.walker == (e.steps + 1) % STEPS
  {
    hide Run, TicksTaken, Safe, Init, InPhase;
    StartsSettled(m, v);
    CommandTakesItsSteps(m, v, e.steps, e.dir, e.timeMs, e.free, es);
    StepKeepsSafe(m, v, e);
    RunKeepsSafe(Step(m, v, e), v, es);
    CommandStarts(m, v, e);
    PlainIsNoReset(es);
    StageStabilises(Step(m, v, e), v, es);
  }

  lemma FirstTickIsQuietIff(m: Motor, v: Variant)
    requires Safe(m) && m.attached && m.pwm.mat == [0, 0, 0, 0]
    ensures AllQuiet(Of(m), TickWrites(m, v)) <==> StartsQuiet(m)
  {
    hide Safe, AllQuiet, ApplyAll, TickWrites, Sound, Quiet, BreaksBeforeMake, StartsQuiet;
    AttachedIsSound(m);
    TickIsQuietIff(m, v);
    FirstTickBreaksIff(m);
  }

  /**
   A command of N steps from power-on, under any pauses, and a second one after it: its first tick
   is quiet if and only if N + 1 is a multiple of 16.
   */
  lemma SecondCommandIsQuietIff(
    m: Motor, v: Variant, first: Event, es: seq<Event>, second: Event)
    requires PowerOn(m) && first.StepCommand? && second.StepCommand? && first.Valid() && second.Valid()
    requires Accepts(m, first.steps, first.timeMs) && AllPlain(es) && AllValid(es)
    requires var m1 := Step(m, v, first);
             var r := Run(m1, v, es);
             TicksTaken(m1, v, es) == first.steps + 1 && Accepts(r, second.steps, second.timeMs)
    ensures var s := Step(Run(Step(m, v, first), v, es), v, second);
            s.attached && (AllQuiet(Of(s), TickWrites(s, v)) <==> (first.steps + 1) % 16 == 0)
  {
    hide Run, TicksTaken, Safe, AllQuiet, TickWrites, Step, Accepts;
    var r := Run(Step(m, v, first), v, es);
    FirstCommandEnds(m, v, first, es);
    CommandStarts(r, v, second);
    StepKeepsSafe(r, v, second);
    FirstTickIsQuietIff(Step(r, v, second), v);
    SixteenRows(first.steps + 1);
  }

  lemma SixteenRows(n: int)
    ensures n % 16 == 0 <==> n % STEPS in {0, 16}
  {
  }

  lemma CommandStarts(m: Motor, v: Variant, e: Event)
    requires e.StepCommand? && e.Valid() && Accepts(m, e.steps, e.timeMs)
    ensures var s := Step(m, v, e);
            && s.attached && s.walker == m.walker && s.pwm.stage == m.pwm.stage
            && s.pwm.mat == [0, 0, 0, 0]
  {
  }

  lemma PlainIsNoReset(es: seq<Event>)
    requires AllPlain(es)
    ensures DeinitCall !in es
  {
    assert !Plain(DeinitCall);
  }
}
