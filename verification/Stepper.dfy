/** The stepper-motor controller: what the ticker interrupt and the calls do, on values. */
module Stepper {
  import opened Words
  import opened StepTables
  import T = PwmTimer

  const PWM_PERIOD: uint32 := 513
  const MIN_STEPTIME_US := 100

  type Switches = s: seq<nat> | |s| == CHANNELS witness [0, 0, 0, 0]
  type int32 = x: int | -0x8000_0000 <= x < 0x8000_0000

  const OFF: Switches := [0, 0, 0, 0]

  datatype Motor = Motor(
    walker: Row, forward: bool, steps: int, free: bool, abort: bool,
    stepTime: uint32, paused: bool,
    attached: bool, interval: uint32,     // the ticker, and what it has been attached with
    high: Switches, pwm: T.Pwm)

  // The interrupt

  /** The table channel that drives an output: running backwards swaps the first two. */
  function Source(forward: bool, k: Channel): Channel {
    if !forward && k == 0 then 1 else if !forward && k == 1 then 0 else k
  }

  /** The match value of a duty; no duty is a value the timer never reaches. */
  function Match(duty: nat): uint32
    requires duty <= 512
  {
    if duty == 0 then PWM_PERIOD + 1 else PWM_PERIOD - duty
  }

  function Duty(m: Motor, v: Variant, k: Channel): (d: nat)
    ensures d <= 512
  {
    LowRows(v, Source(m.forward, k), m.walker);
    Low(v, Source(m.forward, k), m.walker)
  }

  function SetDuty(m: Motor, v: Variant, p: T.Pwm, k: Channel): T.Pwm {
    T.Set(p, k, Match(Duty(m, v, k)))
  }

  /** The outputs of one microstep. */
  function Energise(m: Motor, v: Variant): Motor {
    var high := seq(CHANNELS, k requires 0 <= k < CHANNELS => High(Source(m.forward, k), m.walker));
    var p := SetDuty(m, v, SetDuty(m, v, SetDuty(m, v, SetDuty(m, v, m.pwm, 0), 1), 2), 3);
    var q := if m.walker == 9 then T.SetStage(p, 1) else if m.walker == 24 then T.SetStage(p, 0) else p;
    m.(high := high, pwm := T.ReloadMat(q))
  }

  function Walk(m: Motor): Motor {
    m.(walker := if m.walker + 1 > 31 then 0 else m.walker + 1)
  }

  function CountDown(m: Motor): Motor {
    if m.steps == -1 then m
    else if m.steps == 0 || m.abort then
      var m1 := if m.free || m.abort then m.(high := OFF, pwm := T.Deinit(m.pwm, false)) else m;
      m1.(attached := false, abort := false, paused := false, steps := m.steps - 1)
    else m.(steps := m.steps - 1)
  }

  function Routine(m: Motor, v: Variant): Motor {
    CountDown(Walk(Energise(m, v)))
  }

  // Calls

  function Init(m: Motor): Motor {
    m.(high := OFF, pwm := T.Start(T.InitPwm(m.pwm, PWM_PERIOD, 0)))
  }

  /** Resets everything but the stage of the timer. */
  function Deinit(m: Motor): Motor {
    m.(attached := false, pwm := T.Deinit(m.pwm, false), high := OFF,
       walker := 0, forward := true, steps := -1, free := true, abort := false, paused := false)
  }

  /** Time per step in unsigned arithmetic, as the source computes it before any check. */
  function StepTime(steps: int32, timeMs: uint32): uint32
    requires steps != 0
  {
    Wrap32(timeMs * 1000) / Wrap32(steps)
  }

  predicate Accepts(m: Motor, steps: int32, timeMs: uint32)
    requires steps != 0
  {
    m.steps == -1 && steps >= 1 && StepTime(steps, timeMs) >= MIN_STEPTIME_US
  }

  function Command(m: Motor, steps: int32, dir: byte, timeMs: uint32, free: byte): (Motor, int)
    requires steps != 0
  {
    if !Accepts(m, steps, timeMs) then (m, -1)
    else
      var m1 := Init(m.(forward := dir != 0, steps := steps, free := free != 0,
                        stepTime := StepTime(steps, timeMs), paused := false));
      (m1.(attached := true, interval := m1.stepTime), 0)
  }

  function Pause(m: Motor): Motor {
    if m.steps != -1 then m.(attached := false, paused := true) else m
  }

  function Continue(m: Motor): Motor {
    if m.steps != -1 && m.paused then m.(attached := true, interval := m.stepTime, paused := false) else m
  }

  function Release(m: Motor, lowSideOn: bool): Motor {
    if m.walker > 0 then m
    else
      var m1 := Deinit(m);
      m1.(pwm := T.Deinit(m1.pwm, lowSideOn))
  }

  function Brake(m: Motor): Motor { Release(m, true) }
  function Free(m: Motor): Motor { Release(m, false) }

  /** Remaining steps, negative while paused. */
  function GetState(m: Motor): int {
    if m.steps < 0 then 0 else if m.paused then -m.steps else m.steps
  }

  datatype Event =
    | Tick
    | StepCommand(steps: int32, dir: byte, timeMs: uint32, free: byte)
    | PauseCall | ContinueCall | BrakeCall | FreeCall | InitCall | DeinitCall
  {
    predicate Valid() { StepCommand? ==> steps != 0 }
  }

  /** The interrupt comes only while the ticker is attached. */
  function Step(m: Motor, v: Variant, e: Event): Motor
    requires e.Valid()
  {
    match e
    case Tick => if m.attached then Routine(m, v) else m
    case StepCommand(steps, dir, timeMs, free) => Command(m, steps, dir, timeMs, free).0
    case PauseCall => Pause(m)
    case ContinueCall => Continue(m)
    case BrakeCall => Brake(m)
    case FreeCall => Free(m)
    case InitCall => Init(m)
    case DeinitCall => Deinit(m)
  }

  predicate AllValid(es: seq<Event>) {
    forall e :: e in es ==> e.Valid()
  }

  function Run(m: Motor, v: Variant, es: seq<Event>): Motor
    requires AllValid(es)
    decreases |es|
  {
    if es == [] then m else Run(Step(m, v, es[0]), v, es[1..])
  }

  /** The static initial values; what the timer's registers hold is not known. */
  predicate PowerOn(m: Motor) {
    && m.walker == 0 && m.forward && m.steps == -1 && m.free && !m.abort && !m.paused
    && !m.attached && m.high == OFF && m.pwm.stage == 0
  }

  // No shoot-through

  /**
   Current can flow through the low-side FET at some time in the period. A pin on the timer whose
   PWM is off is low.
   */
  predicate Conducts(p: T.Pwm, k: Channel) {
    if p.timerPin[k] then p.enabled[k] && p.mr[k] <= p.period else p.level[k]
  }

  predicate NoShootThrough(m: Motor) {
    forall k: Channel :: m.high[k] == 1 ==> m.pwm.mat[k] == PWM_PERIOD + 1 && !Conducts(m.pwm, k)
  }

  predicate AnyHigh(m: Motor) {
    exists k: Channel :: m.high[k] != 0
  }

  /** Holds between any two events. */
  predicate Safe(m: Motor) {
    && (forall k: Channel :: m.high[k] <= 1 && (m.high[k] == 1 ==> m.pwm.mat[k] == PWM_PERIOD + 1))
    && (m.attached || m.paused || AnyHigh(m) ==>
          T.Coherent(m.pwm) && T.Connected(m.pwm) && m.pwm.period == PWM_PERIOD && m.pwm.running)
    && (m.attached || m.paused ==> m.interval == m.stepTime >= MIN_STEPTIME_US)
    && m.steps >= -1 && !m.abort
    && (m.attached <==> m.steps >= 0 && !m.paused)
    && (m.paused ==> m.steps >= 0)
  }

  lemma SafeMeansNoShootThrough(m: Motor)
    requires Safe(m)
    ensures NoShootThrough(m)
  {
    forall k: Channel | m.high[k] == 1
      ensures !Conducts(m.pwm, k)
    {
      assert AnyHigh(m);
    }
  }

  lemma SetKeepsActive(m: Motor, v: Variant, p: T.Pwm, k: Channel)
    requires T.Coherent(p) && T.Connected(p)
    ensures var q := SetDuty(m, v, p, k);
            && T.Coherent(q) && T.Connected(q)
            && q.period == p.period && q.stage == p.stage && q.running == p.running
            && q.mat == p.mat[k := Match(Duty(m, v, k))]
  {
    T.OpKeepsCoherent(p, T.SetOp(k, Match(Duty(m, v, k))));
    hide T.Coherent, T.Connected, Duty;
  }

  /** What a microstep leaves on the outputs: every channel set to its duty, in every register. */
  lemma EnergiseSets(m: Motor, v: Variant)
    requires T.Coherent(m.pwm) && T.Connected(m.pwm)
    ensures var r := Energise(m, v);
            && T.Coherent(r.pwm) && T.Connected(r.pwm)
            && r.pwm.period == m.pwm.period && r.pwm.running == m.pwm.running
            && (forall k: Channel :: r.pwm.mat[k] == Match(Duty(m, v, k)))
            && (r.pwm.stage == if m.walker == 9 then 1 else if m.walker == 24 then 0 else m.pwm.stage)
  {
    hide T.Coherent, T.Connected, Duty, Match, T.Set, T.SetStage, T.ReloadMat;
    var p0 := SetDuty(m, v, m.pwm, 0);
    var p1 := SetDuty(m, v, p0, 1);
    var p2 := SetDuty(m, v, p1, 2);
    var p3 := SetDuty(m, v, p2, 3);
    SetKeepsActive(m, v, m.pwm, 0);
    SetKeepsActive(m, v, p0, 1);
    SetKeepsActive(m, v, p1, 2);
    SetKeepsActive(m, v, p2, 3);
    StageKeepsSettings(p3, 1);
    StageKeepsSettings(p3, 0);
    T.OpKeepsCoherent(p3, T.StageOp(1));
    T.OpKeepsCoherent(p3, T.StageOp(0));
    T.OpKeepsCoherent(p3, T.ReloadOp);
    T.OpKeepsCoherent(T.SetStage(p3, 1), T.ReloadOp);
    T.OpKeepsCoherent(T.SetStage(p3, 0), T.ReloadOp);
    ReloadKeepsSettings(p3);
    ReloadKeepsSettings(T.SetStage(p3, 1));
    ReloadKeepsSettings(T.SetStage(p3, 0));
  }

  lemma StageKeepsSettings(p: T.Pwm, stage: byte)
    ensures T.SetStage(p, stage).mat == p.mat && T.SetStage(p, stage).stage == stage
  {
  }

  lemma ReloadKeepsSettings(p: T.Pwm)
    ensures T.ReloadMat(p).mat == p.mat && T.ReloadMat(p).stage == p.stage
  {
  }

  lemma RoutineKeepsSafe(m: Motor, v: Variant)
    requires Safe(m) && m.attached
    ensures Safe(Routine(m, v))
  {
    hide T.Coherent, T.Connected, Duty, High, SetDuty, T.SetStage, T.ReloadMat;
    EnergiseSets(m, v);
    forall k: Channel
      ensures Energise(m, v).high[k] <= 1
      ensures Energise(m, v).high[k] == 1 ==> Match(Duty(m, v, k)) == PWM_PERIOD + 1
    {
      DutyOffUnderHigh(m, v, k);
    }
  }

  lemma DutyOffUnderHigh(m: Motor, v: Variant, k: Channel)
    ensures var h := High(Source(m.forward, k), m.walker);
            h <= 1 && (h == 1 ==> Duty(m, v, k) == 0)
  {
    hide High, Low;
    RowsDoNotOverlap(v, Source(m.forward, k), m.walker);
  }

  lemma StepKeepsSafe(m: Motor, v: Variant, e: Event)
    requires Safe(m) && e.Valid()
    ensures Safe(Step(m, v, e))
  {
    hide Routine, T.InitPwm, T.Coherent, T.Connected;
    if m.attached {
      RoutineKeepsSafe(m, v);
    }
    InitIsSafe(m);
    InitIsSafe(if e.StepCommand? then m.(forward := e.dir != 0, steps := e.steps, free := e.free != 0,
                 stepTime := StepTime(e.steps, e.timeMs), paused := false) else m);
  }

  lemma InitIsSafe(m: Motor)
    ensures var r := Init(m);
            && r.high == OFF && T.Coherent(r.pwm) && T.Connected(r.pwm)
            && r.pwm.period == PWM_PERIOD && r.pwm.running
  {
    T.InitIsCoherent(m.pwm, PWM_PERIOD, 0);
  }

  lemma {:induction false} RunKeepsSafe(m: Motor, v: Variant, es: seq<Event>)
    requires Safe(m) && AllValid(es)
    ensures Safe(Run(m, v, es))
    decreases |es|
  {
    hide Step, Safe;
    if es != [] {
      StepKeepsSafe(m, v, es[0]);
      RunKeepsSafe(Step(m, v, es[0]), v, es[1..]);
    }
  }

  /**
   In every state of every run, for both tables and both directions: below a high-side FET that
   is on, the low-side channel is set to a value the timer never reaches, and cannot conduct.
   */
  lemma NoShootThroughEver(m: Motor, v: Variant, es: seq<Event>)
    requires PowerOn(m) && AllValid(es)
    ensures NoShootThrough(Run(m, v, es))
  {
    RunKeepsSafe(m, v, es);
    SafeMeansNoShootThrough(Run(m, v, es));
  }

  // Step accounting

  /** Ticks, and pauses between them: the events that do not cut a command short. */
  predicate Plain(e: Event) {
    e == Tick || e == PauseCall || e == ContinueCall
  }

  predicate AllPlain(es: seq<Event>) {
    forall e :: e in es ==> Plain(e)
  }

  /** How many of the ticks found the ticker attached. */
  function TicksTaken(m: Motor, v: Variant, es: seq<Event>): nat
    requires AllValid(es)
    decreases |es|
  {
    if es == [] then 0
    else (if es[0] == Tick && m.attached then 1 else 0) + TicksTaken(Step(m, v, es[0]), v, es[1..])
  }

  /** A command of which `k` ticks have been taken. */
  predicate Counting(m: Motor, steps: nat, start: Row, k: nat) {
    && k <= steps + 1 && m.steps == steps - k && !m.abort
    && m.walker == (start + k) % STEPS
    && (m.attached <==> m.steps >= 0 && !m.paused) && (m.paused ==> m.steps >= 0)
  }

  lemma PlainStepCounts(m: Motor, v: Variant, e: Event, steps: nat, start: Row, k: nat)
    requires Counting(m, steps, start, k) && Plain(e)
    ensures Counting(Step(m, v, e), steps, start, if e == Tick && m.attached then k + 1 else k)
  {
    hide Duty, High, SetDuty, T.SetStage, T.ReloadMat, T.Deinit;
  }

  lemma {:induction false} PlainRunCounts(
    m: Motor, v: Variant, es: seq<Event>, steps: nat, start: Row, k: nat)
    requires Counting(m, steps, start, k) && AllPlain(es) && AllValid(es)
    ensures Counting(Run(m, v, es), steps, start, k + TicksTaken(m, v, es))
    decreases |es|
  {
    hide Step, Counting;
    if es != [] {
      PlainStepCounts(m, v, es[0], steps, start, k);
      PlainRunCounts(Step(m, v, es[0]), v, es[1..], steps, start,
                     if es[0] == Tick && m.attached then k + 1 else k);
    }
  }

  /**
   An accepted command for N steps: after k ticks, under any pauses, N-k steps remain and the
   walker has moved k rows; it is over after N+1 ticks, and then no tick comes any more.
   */
  lemma CommandTakesItsSteps(
    m: Motor, v: Variant, steps: int32, dir: byte, timeMs: uint32, free: byte, es: seq<Event>)
    requires Safe(m) && steps != 0 && Accepts(m, steps, timeMs)
    requires AllPlain(es) && AllValid(es)
    ensures var m1 := Command(m, steps, dir, timeMs, free).0;
            var r, k := Run(m1, v, es), TicksTaken(m1, v, es);
            && k <= steps + 1 && r.steps == steps - k && r.walker == (m.walker + k) % STEPS
            && (r.attached <==> r.steps >= 0 && !r.paused)
            && (k == steps + 1 <==> r.steps == -1)
            && GetState(r) == (if k == steps + 1 then 0 else if r.paused then k - steps else steps - k)
  {
    hide T.InitPwm, Run, TicksTaken;
    var m1 := Command(m, steps, dir, timeMs, free).0;
    PlainRunCounts(m1, v, es, steps, m.walker, 0);
  }

  /**
   The last tick of a command: the motor is freed, all FETs off, or stays locked in the
   position of the last row, as the command asked for; in between the outputs follow the rows.
   */
  lemma LastTickFreesOrLocks(m: Motor, v: Variant)
    requires Safe(m) && m.attached
    ensures var r, e := Routine(m, v), Energise(m, v);
            if m.steps == 0 && m.free
            then r.high == OFF && forall k: Channel :: !Conducts(r.pwm, k)
            else r.high == e.high && r.pwm == e.pwm
  {
    hide Duty, High, SetDuty, T.SetStage, T.ReloadMat;
  }

  lemma KeepsDirection(m: Motor, v: Variant)
    ensures Energise(m, v).forward == m.forward == Routine(m, v).forward
    ensures Energise(m, v).free == m.free == Routine(m, v).free
  {
    hide SetDuty, High, T.SetStage, T.ReloadMat, T.Deinit;
  }

  /**
   At row 0, whether a command is running or not, a brake call shorts the windings through the
   low side and a free call opens them, and both end the command; at any other row they do nothing.
   */
  lemma BrakeShortsFreeOpens(m: Motor)
    ensures m.walker > 0 ==> Brake(m) == Free(m) == m
    ensures m.walker == 0 ==>
      && Brake(m).high == Free(m).high == OFF
      && Brake(m).steps == Free(m).steps == -1 && !Brake(m).attached && !Free(m).attached
      && forall k: Channel :: Conducts(Brake(m).pwm, k) && !Conducts(Free(m).pwm, k)
  {
  }

  /**
   After `k` ticks of a command, under any pauses: brake and free act if and only if the rows since
   row 0 are a multiple of 32, whether the command is over (k is then one more than its steps) or
   has steps left, which are then lost.
   */
  lemma BrakeActsIff(
    m: Motor, v: Variant, steps: int32, dir: byte, timeMs: uint32, free: byte, es: seq<Event>)
    requires Safe(m) && steps != 0 && Accepts(m, steps, timeMs)
    requires AllPlain(es) && AllValid(es)
    ensures var m1 := Command(m, steps, dir, timeMs, free).0;
            var r, k := Run(m1, v, es), TicksTaken(m1, v, es);
            && r.steps == steps - k
            && if (m.walker + k) % STEPS != 0 then Brake(r) == Free(r) == r
               else
                 && Brake(r).high == Free(r).high == OFF
                 && Brake(r).steps == Free(r).steps == -1 && !Brake(r).attached && !Free(r).attached
                 && forall c: Channel :: Conducts(Brake(r).pwm, c) && !Conducts(Free(r).pwm, c)
  {
    hide Run, TicksTaken, Safe, Command, Accepts, Brake, Free, Conducts;
    CommandTakesItsSteps(m, v, steps, dir, timeMs, free, es);
    BrakeShortsFreeOpens(Run(Command(m, steps, dir, timeMs, free).0, v, es));
  }

  /** Continuing undoes a pause completely. */
  lemma PauseThenContinue(m: Motor)
    requires Safe(m)
    ensures m.attached ==> Continue(Pause(m)) == m && Pause(m).pwm == m.pwm && Pause(m).high == m.high
    ensures m.steps == -1 ==> Pause(m) == Continue(m) == m
  {
  }

  /** The states that differ only in whether they are paused. */
  predicate SameButPause(m: Motor, n: Motor) {
    && m == n.(attached := m.attached, paused := m.paused) && m.interval == m.stepTime
    && m.steps >= -1 && (m.attached <==> m.steps >= 0 && !m.paused) && (m.paused ==> m.steps >= 0)
    && !n.paused && (n.attached <==> n.steps >= 0)
  }

  function Ticks(n: nat): seq<Event> {
    seq(n, _ => Tick)
  }

  lemma TicksFirst(m: Motor, v: Variant, n: nat)
    requires 0 < n
    ensures AllValid(Ticks(n)) && AllValid(Ticks(n - 1))
    ensures Run(m, v, Ticks(n)) == Run(Step(m, v, Tick), v, Ticks(n - 1))
  {
    hide Step;
    assert Ticks(n)[0] == Tick && Ticks(n)[1..] == Ticks(n - 1);
  }

  lemma PlainStepsAlike(m: Motor, n: Motor, v: Variant, e: Event)
    requires SameButPause(m, n) && Plain(e) && !m.abort
    ensures !Step(m, v, e).abort
    ensures SameButPause(Step(m, v, e), if e == Tick && m.attached then Step(n, v, Tick) else n)
  {
    hide Duty, High, SetDuty, T.SetStage, T.ReloadMat, T.Deinit;
    if m.attached {
      assert m == n;
    }
  }

  /**
   However a command is paused and continued, where it stands is where as many ticks without a
   pause would have taken it: outputs, timer, position and steps left.
   */
  lemma {:induction false} PausesDoNotMatter(m: Motor, n: Motor, v: Variant, es: seq<Event>)
    requires SameButPause(m, n) && !m.abort && AllPlain(es) && AllValid(es)
    ensures AllValid(Ticks(TicksTaken(m, v, es)))
    ensures SameButPause(Run(m, v, es), Run(n, v, Ticks(TicksTaken(m, v, es))))
    decreases |es|
  {
    hide Step, SameButPause;
    if es == [] {
    } else {
      var m1 := Step(m, v, es[0]);
      PlainStepsAlike(m, n, v, es[0]);
      if es[0] == Tick && m.attached {
        PausesDoNotMatter(m1, Step(n, v, Tick), v, es[1..]);
        TicksFirst(n, v, TicksTaken(m, v, es));
      } else {
        PausesDoNotMatter(m1, n, v, es[1..]);
      }
    }
  }

  // The stage of the timer

  /** The channel the timer does not drive is the one the next rows do not need. */
  predicate InPhase(m: Motor) {
    m.pwm.stage != 0 <==> 10 <= m.walker <= 24
  }

  lemma RoutineStage(m: Motor, v: Variant)
    ensures var r := Routine(m, v);
            && r.walker == (m.walker + 1) % STEPS
            && (r.pwm.stage == if m.walker == 9 then 1 else if m.walker == 24 then 0 else m.pwm.stage)
  {
    hide SetDuty, High, T.SetStage, T.ReloadMat;
    var p0 := SetDuty(m, v, m.pwm, 0);
    var p1 := SetDuty(m, v, p0, 1);
    var p2 := SetDuty(m, v, p1, 2);
    var p3 := SetDuty(m, v, p2, 3);
    SetKeepsStage(m, v, m.pwm, 0);
    SetKeepsStage(m, v, p0, 1);
    SetKeepsStage(m, v, p1, 2);
    SetKeepsStage(m, v, p2, 3);
    StageKeepsSettings(p3, 1);
    StageKeepsSettings(p3, 0);
    ReloadKeepsSettings(p3);
    ReloadKeepsSettings(T.SetStage(p3, 1));
    ReloadKeepsSettings(T.SetStage(p3, 0));
  }

  lemma SetKeepsStage(m: Motor, v: Variant, p: T.Pwm, k: Channel)
    ensures SetDuty(m, v, p, k).stage == p.stage
  {
    hide Duty, Match;
  }

  /** Everything but a reset of the controller keeps the stage in phase. */
  lemma StepKeepsPhase(m: Motor, v: Variant, e: Event)
    requires InPhase(m) && e.Valid() && e != DeinitCall
    ensures InPhase(Step(m, v, e))
  {
    hide Routine;
    RoutineStage(m, v);
  }

  /** A reset keeps it exactly when it happens outside the rows of stage 1. */
  lemma DeinitKeepsPhaseIff(m: Motor)
    requires InPhase(m)
    ensures InPhase(Deinit(m)) <==> !(10 <= m.walker <= 24)
  {
  }

  /** `k` ticks after row 0: the stage is what it was, until row 9 puts it in phase. */
  predicate Stabilising(m: Motor, stage: byte, k: nat) {
    if k < 10 then m.walker == k && m.pwm.stage == stage else InPhase(m)
  }

  lemma InitKeepsStage(m: Motor)
    ensures Init(m).pwm.stage == m.pwm.stage && Init(m).walker == m.walker
  {
  }

  lemma StepStabilises(m: Motor, v: Variant, e: Event, stage: byte, k: nat)
    requires Stabilising(m, stage, k) && e.Valid() && e != DeinitCall
    ensures Stabilising(Step(m, v, e), stage, if e == Tick && m.attached then k + 1 else k)
  {
    hide Routine, T.InitPwm, T.Start, Init;
    RoutineStage(m, v);
    InitKeepsStage(m);
    if e.StepCommand? {
      InitKeepsStage(m.(forward := e.dir != 0, steps := e.steps, free := e.free != 0,
                        stepTime := StepTime(e.steps, e.timeMs), paused := false));
    }
  }

  lemma {:induction false} RunStabilises(m: Motor, v: Variant, es: seq<Event>, stage: byte, k: nat)
    requires Stabilising(m, stage, k) && AllValid(es) && DeinitCall !in es
    ensures Stabilising(Run(m, v, es), stage, k + TicksTaken(m, v, es))
    decreases |es|
  {
    hide Step, Stabilising;
    if es != [] {
      StepStabilises(m, v, es[0], stage, k);
      RunStabilises(Step(m, v, es[0]), v, es[1..], stage, if es[0] == Tick && m.attached then k + 1 else k);
    }
  }

  /**
   From row 0, where a reset leaves the controller, with the timer in whatever stage: under any
   commands, pauses, brake and free calls the stage is in phase after ten ticks, and before that
   only if it was from the start.
   */
  lemma StageStabilises(m: Motor, v: Variant, es: seq<Event>)
    requires m.walker == 0 && AllValid(es) && DeinitCall !in es
    ensures InPhase(Run(m, v, es)) <==> TicksTaken(m, v, es) >= 10 || m.pwm.stage == 0
  {
    RunStabilises(m, v, es, m.pwm.stage, 0);
  }

  /** The row of the electrical cycle a microstep is at: the walker's, or its mirror image backwards. */
  function CycleRow(forward: bool, walker: Row): Row {
    if forward then walker else (STEPS - walker) % STEPS
  }

  lemma DirectionIsRow(m: Motor, v: Variant, k: Channel)
    ensures var row := CycleRow(m.forward, m.walker);
            High(Source(m.forward, k), m.walker) == High(k, row) && Duty(m, v, k) == Low(v, k, row)
  {
    hide High, Low;
    TablesMirror(v, k, m.walker);
  }

  /** An output does what the row of the cycle asks for. */
  predicate Driven(m: Motor, r: Motor, v: Variant, k: Channel) {
    var row := CycleRow(m.forward, m.walker);
    && r.high[k] == High(k, row)
    && if Low(v, k, row) == 0 then !Conducts(r.pwm, k)
       else r.pwm.timerPin[k] && r.pwm.enabled[k] && r.pwm.mr[k] == PWM_PERIOD - Low(v, k, row)
  }

  /** In phase, every microstep drives all four bridges as its row says. */
  lemma MicrostepDrivesAll(m: Motor, v: Variant, k: Channel)
    requires Safe(m) && m.attached && InPhase(m)
    ensures Driven(m, Energise(m, v), v, k)
    ensures Low(v, 2, CycleRow(m.forward, m.walker)) != 0 ==> Energise(m, v).pwm.stage != 0
    ensures Low(v, 3, CycleRow(m.forward, m.walker)) != 0 ==> Energise(m, v).pwm.stage == 0
  {
    hide SetDuty, T.SetStage, T.ReloadMat, High, Low;
    EnergiseSets(m, v);
    DirectionIsRow(m, v, k);
    DirectionIsRow(m, v, 2);
    DirectionIsRow(m, v, 3);
    LowRows(v, 2, m.walker);
    LowRows(v, 3, m.walker);
  }

  lemma {:induction false} RunAppend(m: Motor, v: Variant, xs: seq<Event>, ys: seq<Event>)
    requires AllValid(xs) && AllValid(ys)
    ensures AllValid(xs + ys) && Run(m, v, xs + ys) == Run(Run(m, v, xs), v, ys)
    decreases |xs|
  {
    hide Step;
    if xs == [] {
      assert xs + ys == ys;
    } else {
      RunAppend(Step(m, v, xs[0]), v, xs[1..], ys);
      assert (xs + ys)[1..] == xs[1..] + ys;
    }
  }

  /**
   Whatever happened up to the last reset, and whatever is called after it: from the eleventh tick
   on every tick drives all four bridges as its row says.
   */
  lemma EveryLaterTickDrivesAll(m: Motor, v: Variant, before: seq<Event>, after: seq<Event>, k: Channel)
    requires PowerOn(m) && AllValid(before) && AllValid(after) && DeinitCall !in after
    requires TicksTaken(Deinit(Run(m, v, before)), v, after) >= 10
    ensures AllValid(before + [DeinitCall] + after)
    ensures var r := Run(m, v, before + [DeinitCall] + after);
            r.attached ==>
              && Driven(r, Energise(r, v), v, k)
              && (Low(v, 2, CycleRow(r.forward, r.walker)) != 0 ==> Energise(r, v).pwm.stage != 0)
              && (Low(v, 3, CycleRow(r.forward, r.walker)) != 0 ==> Energise(r, v).pwm.stage == 0)
  {
    hide Step, Run, TicksTaken, Duty, Driven, Energise, Safe, InPhase;
    var m1 := Run(m, v, before);
    RunAppend(m, v, before, [DeinitCall]);
    RunAppend(m, v, before + [DeinitCall], after);
    ResetRun(m1, v);
    StageStabilises(Deinit(m1), v, after);
    var r := Run(m, v, before + [DeinitCall] + after);
    PowerOnIsSafe(m);
    RunKeepsSafe(m, v, before + [DeinitCall] + after);
    if r.attached {
      MicrostepDrivesAll(r, v, k);
    }
  }

  lemma ResetRun(m: Motor, v: Variant)
    ensures Run(m, v, [DeinitCall]) == Deinit(m)
  {
    assert [DeinitCall][1..] == [];
  }

  lemma PowerOnIsSafe(m: Motor)
    requires PowerOn(m)
    ensures Safe(m)
  {
  }
}
