/**
 Four PWM channels on a timer with three: one of channels 2 and 3 is switched off, by the
 stage, and its match register holds the period instead.
 */
module PwmTimer {
  import opened Words
  import opened StepTables

  type Registers = s: seq<uint32> | |s| == CHANNELS witness [0, 0, 0, 0]
  type Pins = s: seq<bool> | |s| == CHANNELS witness [false, false, false, false]

  datatype Pwm = Pwm(
    stage: byte, period: uint32,
    mat: Registers,       // what each channel has been set to
    mr: Registers,        // match registers of the timer
    resetOn: nat,         // the match register that restarts the timer
    enabled: Pins,        // channels with PWM enabled
    timerPin: Pins,       // pins connected to the timer, not to the port
    level: Pins,          // what the port puts on a pin connected to it
    running: bool)
  {
    /** The channel that is off. */
    function Off(): Channel { if stage == 0 then 2 else 3 }
  }

  function Select(p: Pwm): Pwm {
    var off := p.Off();
    p.(enabled := [true, true, off != 2, off != 3],
       resetOn := off,
       timerPin := p.timerPin[2 := off != 2][3 := off != 3])
  }

  function InitPwm(p: Pwm, period: uint32, default: uint32): Pwm {
    var mr := [default, default, default, default][p.Off() := period];
    var q := Select(p);
    q.(period := period, mat := [default, default, default, default], mr := mr,
       timerPin := q.timerPin[0 := true][1 := true],
       level := q.level[q.Off() := false], running := false)
  }

  function Start(p: Pwm): Pwm {
    p.(running := true)
  }

  /** All pins back to the port, at one level. */
  function Deinit(p: Pwm, state: bool): Pwm {
    p.(running := false, timerPin := [false, false, false, false], level := [state, state, state, state])
  }

  function SetStage(p: Pwm, stage: byte): Pwm {
    var q := Select(p.(stage := stage));
    var mr := q.mr[2 := if q.Off() == 2 then q.period else q.mat[2]]
                  [3 := if q.Off() == 3 then q.period else q.mat[3]];
    q.(mr := mr, level := q.level[2 := q.Off() != 2][3 := q.Off() != 3])
  }

  function ReloadMat(p: Pwm): Pwm {
    var other := 5 - p.Off();
    p.(mr := p.mr[0 := p.mat[0]][1 := p.mat[1]][other := p.mat[other]])
  }

  function Set(p: Pwm, k: Channel, value: uint32): Pwm {
    ReloadMat(p.(mat := p.mat[k := value]))
  }

  /**
   The registers agree with what the channels have been set to: the channel that is off is not
   driven and its register is the period the timer restarts on; every other register is its
   channel's value.
   */
  predicate Coherent(p: Pwm) {
    && p.resetOn == p.Off() && p.mr[p.Off()] == p.period
    && (forall k: Channel :: p.enabled[k] <==> k != p.Off())
    && (forall k: Channel :: k != p.Off() ==> p.mr[k] == p.mat[k])
  }

  /** The pins go with the registers, and the pin of the channel that is off is held low. */
  predicate Connected(p: Pwm) {
    (forall k: Channel :: p.timerPin[k] <==> k != p.Off()) && !p.level[p.Off()]
  }

  datatype Op = SetOp(k: Channel, value: uint32) | StageOp(stage: byte) | ReloadOp

  function Apply(p: Pwm, op: Op): Pwm {
    match op
    case SetOp(k, value) => Set(p, k, value)
    case StageOp(stage) => SetStage(p, stage)
    case ReloadOp => ReloadMat(p)
  }

  function ApplyAll(p: Pwm, ops: seq<Op>): Pwm
    decreases |ops|
  {
    if ops == [] then p else ApplyAll(Apply(p, ops[0]), ops[1..])
  }

  lemma InitIsCoherent(p: Pwm, period: uint32, default: uint32)
    ensures var q := InitPwm(p, period, default);
            Coherent(q) && Connected(q) && q.period == period && q.stage == p.stage
  {
  }

  lemma OpKeepsCoherent(p: Pwm, op: Op)
    requires Coherent(p)
    ensures Coherent(Apply(p, op)) && Apply(p, op).period == p.period && Apply(p, op).running == p.running
    ensures Connected(p) ==> Connected(Apply(p, op))
  {
  }

  /** What the driver has been told, as opposed to what it made of it. */
  function Told(mat: seq<uint32>, ops: seq<Op>): (r: seq<uint32>)
    requires |mat| == CHANNELS
    ensures |r| == CHANNELS
    decreases |ops|
  {
    if ops == [] then mat
    else Told(if ops[0].SetOp? then mat[ops[0].k := ops[0].value] else mat, ops[1..])
  }

  function StageTold(stage: byte, ops: seq<Op>): byte
    decreases |ops|
  {
    if ops == [] then stage
    else StageTold(if ops[0].StageOp? then ops[0].stage else stage, ops[1..])
  }

  lemma {:induction false} ApplyAllKeepsCoherent(p: Pwm, ops: seq<Op>)
    requires Coherent(p) && Connected(p)
    ensures var q := ApplyAll(p, ops);
            Coherent(q) && Connected(q) && q.period == p.period && q.running == p.running
            && q.mat == Told(p.mat, ops) && q.stage == StageTold(p.stage, ops)
    decreases |ops|
  {
    if ops != [] {
      OpKeepsCoherent(p, ops[0]);
      assert Apply(p, ops[0]).mat == if ops[0].SetOp? then p.mat[ops[0].k := ops[0].value] else p.mat;
      hide Apply, Coherent, Connected;
      ApplyAllKeepsCoherent(Apply(p, ops[0]), ops[1..]);
    }
  }

  /**
   After initialising, and any calls of set, stage and reload: the timer, once started, restarts on the period,
   which is in the register of channel 2 in stage 0 and of channel 3 in any other; that channel's
   pin is low, and the other three are on the timer, with the value last set in their registers.
   */
  lemma RegistersFollowSettings(p: Pwm, period: uint32, default: uint32, ops: seq<Op>)
    ensures var q := ApplyAll(InitPwm(p, period, default), ops);
            var off := if q.stage == 0 then 2 else 3;
            && q.stage == StageTold(p.stage, ops) && !q.running
            && q.resetOn == off && q.mr[off] == period && !q.level[off]
            && (forall k: Channel :: q.enabled[k] == q.timerPin[k] == (k != off))
            && (forall k: Channel :: k != off ==> q.mr[k] == Told([default, default, default, default], ops)[k])
  {
    InitIsCoherent(p, period, default);
    ApplyAllKeepsCoherent(InitPwm(p, period, default), ops);
  }
}
