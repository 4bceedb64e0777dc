/** What a command comes to: its outputs row by row, its direction, its pace and its end. */
module StepperCommands {
  import opened Words
  import opened StepTables
  import opened Stepper
  import T = PwmTimer

  // Rows and direction

  /** The match value of a channel in a row of the cycle. */
  function RowMatch(v: Variant, k: Channel, row: Row): uint32 {
    LowRows(v, k, row);
    Match(Low(v, k, row))
  }

  /** The outputs of a row of the cycle: high sides as the table says, low sides set to their duties. */
  predicate Holds(m: Motor, v: Variant, row: Row) {
    forall k: Channel :: m.high[k] == High(k, row) && m.pwm.mat[k] == RowMatch(v, k, row)
  }

  lemma EnergiseHolds(m: Motor, v: Variant)
    requires T.Coherent(m.pwm) && T.Connected(m.pwm)
    ensures Holds(Energise(m, v), v, CycleRow(m.forward, m.walker))
  {
    hide High, Low, SetDuty, T.SetStage, T.ReloadMat, Match, T.Coherent, T.Connected, CycleRow;
    EnergiseSets(m, v);
    forall k: Channel
      ensures Duty(m, v, k) == Low(v, k, CycleRow(m.forward, m.walker))
      ensures High(Source(m.forward, k), m.walker) == High(k, CycleRow(m.forward, m.walker))
    {
      DirectionIsRow(m, v, k);
    }
  }

  /** The row of the last tick. */
  function LastRow(start: Row, k: nat, forward: bool): Row
    requires 0 < k
  {
    CycleRow(forward, (start + k - 1) % STEPS)
  }

  /** What a command says, beside its steps. */
  datatype Order = Order(steps: nat, forward: bool, stepTime: uint32, free: bool)

  /** A command of which `k` ticks have been taken: its settings, its outputs, and how it has ended. */
  predicate Heading(m: Motor, v: Variant, o: Order, start: Row, k: nat) {
    && Safe(m) && Counting(m, o.steps, start, k)
    && m.forward == o.forward && m.stepTime == o.stepTime && m.free == o.free
    && if k > o.steps && o.free then m.high == OFF && forall c: Channel :: !Conducts(m.pwm, c)
       else k > 0 ==> Holds(m, v, LastRow(start, k, o.forward))
  }

  lemma RoutineKeepsOrder(m: Motor, v: Variant)
    ensures var e, r := Energise(m, v), Routine(m, v);
            && r.forward == e.forward == m.forward && r.free == e.free == m.free
            && r.stepTime == e.stepTime == m.stepTime
  {
    hide SetDuty, High, T.SetStage, T.ReloadMat, T.Deinit;
  }

  lemma TickHeads(m: Motor, v: Variant, o: Order, start: Row, k: nat)
    requires Heading(m, v, o, start, k) && m.attached
    ensures Heading(Routine(m, v), v, o, start, k + 1)
  {
    hide Energise, Holds, T.Coherent, T.Connected, Conducts, T.Deinit, CycleRow;
    StepKeepsSafe(m, v, Tick);
    PlainStepCounts(m, v, Tick, o.steps, start, k);
    LastTickFreesOrLocks(m, v);
    EnergiseHolds(m, v);
    RoutineKeepsOrder(m, v);
    if m.steps > 0 || !m.free {
      HoldsDependsOn(Energise(m, v), Routine(m, v), v, CycleRow(m.forward, m.walker));
    }
  }

  lemma HoldsDependsOn(m: Motor, r: Motor, v: Variant, row: Row)
    requires Holds(m, v, row) && r.high == m.high && r.pwm == m.pwm
    ensures Holds(r, v, row)
  {
  }

  lemma PlainStepHeads(m: Motor, v: Variant, e: Event, o: Order, start: Row, k: nat)
    requires Heading(m, v, o, start, k) && Plain(e) && e.Valid()
    ensures Heading(Step(m, v, e), v, o, start, if e == Tick && m.attached then k + 1 else k)
  {
    hide Routine, T.Coherent, T.Connected, Conducts;
    if m.attached && e == Tick {
      TickHeads(m, v, o, start, k);
    } else {
      StepKeepsSafe(m, v, e);
      PlainStepCounts(m, v, e, o.steps, start, k);
    }
  }

  lemma {:induction false} PlainRunHeads(m: Motor, v: Variant, es: seq<Event>, o: Order, start: Row, k: nat)
    requires Heading(m, v, o, start, k) && AllPlain(es) && AllValid(es)
    ensures Heading(Run(m, v, es), v, o, start, k + TicksTaken(m, v, es))
    decreases |es|
  {
    hide Step, Heading;
    if es != [] {
      PlainStepHeads(m, v, es[0], o, start, k);
      PlainRunHeads(Step(m, v, es[0]), v, es[1..], o, start, if es[0] == Tick && m.attached then k + 1 else k);
    }
  }

  /** A command and what comes of it, under any ticks and pauses. */
  lemma CommandHeads(
    m: Motor, v: Variant, steps: int32, dir: byte, timeMs: uint32, free: byte, es: seq<Event>)
    requires Safe(m) && steps != 0 && Accepts(m, steps, timeMs)
    requires AllPlain(es) && AllValid(es)
    ensures var m1 := Command(m, steps, dir, timeMs, free).0;
            Heading(Run(m1, v, es), v, Order(steps, dir != 0, StepTime(steps, timeMs), free != 0),
                    m.walker, TicksTaken(m1, v, es))
  {
    hide Run, TicksTaken, T.InitPwm;
    var m1 := Command(m, steps, dir, timeMs, free).0;
    StepKeepsSafe(m, v, StepCommand(steps, dir, timeMs, free));
    PlainRunHeads(m1, v, es, Order(steps, dir != 0, StepTime(steps, timeMs), free != 0), m.walker, 0);
  }

  /**
   The direction: after `k` ticks of a command from row r, under any pauses, the outputs are those
   of a row of the electrical cycle. With `dir` set the cycle is walked upwards from r, otherwise
   downwards from its mirror image, on the same channels.
   */
  lemma CommandTurns(
    m: Motor, v: Variant, steps: int32, dir: byte, timeMs: uint32, free: byte, es: seq<Event>)
    requires Safe(m) && steps != 0 && Accepts(m, steps, timeMs)
    requires AllPlain(es) && AllValid(es)
    requires var k := TicksTaken(Command(m, steps, dir, timeMs, free).0, v, es);
             1 <= k && (free == 0 || k <= steps)
    ensures var m1 := Command(m, steps, dir, timeMs, free).0;
            var r, i := Run(m1, v, es), (m.walker + TicksTaken(m1, v, es) - 1) % 32;
            var row := if dir != 0 then i else (32 - i) % 32;
            forall c: Channel ::
              && r.high[c] == High(c, row)
              && r.pwm.mat[c] == if Low(v, c, row) == 0 then 514 else 513 - Low(v, c, row)
  {
    hide Run, TicksTaken, Safe, Counting, Command, Accepts, High, Low;
    CommandHeads(m, v, steps, dir, timeMs, free, es);
    var m1 := Command(m, steps, dir, timeMs, free).0;
    TicksAreCounted(m, v, steps, dir, timeMs, free, es);
    HoldsMeans(Run(m1, v, es), v, LastRow(m.walker, TicksTaken(m1, v, es), dir != 0));
  }

  lemma HoldsMeans(m: Motor, v: Variant, row: Row)
    requires Holds(m, v, row)
    ensures forall c: Channel ::
              && m.high[c] == High(c, row)
              && m.pwm.mat[c] == if Low(v, c, row) == 0 then 514 else 513 - Low(v, c, row)
  {
    hide High, Low;
  }

  lemma TicksAreCounted(
    m: Motor, v: Variant, steps: int32, dir: byte, timeMs: uint32, free: byte, es: seq<Event>)
    requires Safe(m) && steps != 0 && Accepts(m, steps, timeMs)
    requires AllPlain(es) && AllValid(es)
    ensures TicksTaken(Command(m, steps, dir, timeMs, free).0, v, es) <= steps + 1
  {
    hide Run, TicksTaken, Command, GetState;
    CommandTakesItsSteps(m, v, steps, dir, timeMs, free, es);
  }

  /**
   How a command ends, under any pauses: with all FETs off if it said so, and otherwise locked in
   the row of its last step.
   */
  lemma CommandEndsFreeOrLocked(
    m: Motor, v: Variant, steps: int32, dir: byte, timeMs: uint32, free: byte, es: seq<Event>)
    requires Safe(m) && steps != 0 && Accepts(m, steps, timeMs)
    requires AllPlain(es) && AllValid(es)
    requires TicksTaken(Command(m, steps, dir, timeMs, free).0, v, es) == steps + 1
    ensures var r := Run(Command(m, steps, dir, timeMs, free).0, v, es);
            if free != 0 then r.high == OFF && forall k: Channel :: !Conducts(r.pwm, k)
            else Holds(r, v, CycleRow(dir != 0, (m.walker + steps) % STEPS))
  {
    hide Run, TicksTaken, Holds, Command, Safe, Conducts, CycleRow, Heading;
    CommandHeads(m, v, steps, dir, timeMs, free, es);
    HeadingEnds(Run(Command(m, steps, dir, timeMs, free).0, v, es), v,
                Order(steps, dir != 0, StepTime(steps, timeMs), free != 0), m.walker);
  }

  lemma HeadingEnds(m: Motor, v: Variant, o: Order, start: Row)
    requires Heading(m, v, o, start, o.steps + 1)
    ensures if o.free then m.high == OFF && forall k: Channel :: !Conducts(m.pwm, k)
            else Holds(m, v, CycleRow(o.forward, (start + o.steps) % STEPS))
  {
    hide Holds, Safe, Counting, Conducts, CycleRow;
  }

  // Pace

  /** The time asked for in microseconds, as 32 bits hold it. */
  function Micros(timeMs: uint32): uint32 {
    timeMs * 1000 % 0x1_0000_0000
  }

  /** The step time of unsigned arithmetic, short of less than one unit each. */
  lemma StepTimeKeepsTime(steps: int32, timeMs: uint32)
    requires 0 < steps
    ensures var t := StepTime(steps, timeMs);
            Micros(timeMs) - steps < steps * t <= Micros(timeMs)
  {
    hide Wrap32;
    InsideWord(steps);
    WrapIsMicros(timeMs);
    var total := Micros(timeMs);
    assert total == steps * (total / steps) + total % steps;
  }

  lemma WrapIsMicros(timeMs: uint32)
    ensures Wrap32(timeMs * 1000) == Micros(timeMs)
  {
  }

  /**
   The pace of a command, in every state of its run: the step time is at least 100 us, N of them
   take the time asked for, short of less than N us, and while the ticker is attached, at first or
   again after a pause, it is attached with that time.
   */
  lemma CommandKeepsTime(
    m: Motor, v: Variant, steps: int32, dir: byte, timeMs: uint32, free: byte, es: seq<Event>)
    requires Safe(m) && steps != 0 && Accepts(m, steps, timeMs)
    requires AllPlain(es) && AllValid(es)
    ensures var r := Run(Command(m, steps, dir, timeMs, free).0, v, es);
            && r.stepTime >= 100
            && Micros(timeMs) - steps < steps * r.stepTime <= Micros(timeMs)
            && (r.attached ==> r.interval == r.stepTime)
            && (r.paused ==> Continue(r).attached && Continue(r).interval == r.stepTime)
  {
    hide Run, TicksTaken, Command, Micros;
    CommandHeads(m, v, steps, dir, timeMs, free, es);
    StepTimeKeepsTime(steps, timeMs);
  }

  // Acceptance

  /**
   Of a controller that is idle exactly those commands are accepted that leave every step 100 us;
   all others are answered -1 and change nothing.
   */
  lemma CommandAcceptedIff(m: Motor, steps: int32, dir: byte, timeMs: uint32, free: byte)
    requires steps != 0
    ensures var (r, answer) := Command(m, steps, dir, timeMs, free);
            if m.steps == -1 && 1 <= steps && 100 * steps <= Micros(timeMs)
            then answer == 0 && r.steps == steps && r.attached
            else answer == -1 && r == m
  {
    hide T.InitPwm, T.Start, Wrap32, Micros;
    WrapIsMicros(timeMs);
    if 1 <= steps {
      InsideWord(steps);
      FloorAtLeast(Micros(timeMs), steps, 100);
    }
  }

  lemma FloorAtLeast(x: nat, n: nat, t: nat)
    requires 0 < n
    ensures x / n >= t <==> t * n <= x
  {
    assert x == n * (x / n) + x % n;
    if x / n >= t {
      Times(n, t, x / n);
    } else {
      Times(n, x / n + 1, t);
    }
  }

  lemma Times(n: nat, a: nat, b: nat)
    requires a <= b
    ensures n * a <= n * b
  {
    assert n * b == n * a + n * (b - a);
  }

  // Pauses

  /** Ticks and repeated pauses: what does not end a pause. */
  predicate AllWaiting(es: seq<Event>) {
    forall e :: e in es ==> e == Tick || e == PauseCall
  }

  /** A pause stops a running command where it is, however many ticks go by, and shows it in the state. */
  lemma {:induction false} PauseStops(m: Motor, v: Variant, es: seq<Event>)
    requires Safe(m) && m.steps >= 0 && AllWaiting(es)
    ensures AllValid(es) && Run(Pause(m), v, es) == Pause(m)
    ensures TicksTaken(Pause(m), v, es) == 0 && !Pause(m).attached
    ensures GetState(Pause(m)) == -m.steps
    ensures Continue(Pause(m)).attached && Continue(Pause(m)).steps == m.steps
    decreases |es|
  {
    hide Safe;
    if es != [] {
      assert es[0] in es;
      assert forall e :: e in es[1..] ==> e in es;
      PauseStops(m, v, es[1..]);
    }
  }

  // Initialisation and reset

  /** Initialisation opens the high sides and closes every low side that is not off for the whole period. */
  lemma InitCloses(m: Motor)
    ensures var r := Init(m);
            && r == m.(high := OFF, pwm := r.pwm) && r.pwm.stage == m.pwm.stage
            && r.pwm.running && r.pwm.period == 513
            && forall k: Channel :: r.pwm.mat[k] == 0
                 && (Conducts(r.pwm, k) <==> k != if m.pwm.stage == 0 then 2 else 3)
                 && (Conducts(r.pwm, k) ==> r.pwm.mr[k] == 0)
  {
  }

  /**
   A reset opens every bridge, detaches the ticker and forgets the command: but for the stage of
   the timer, which stays, it is power-on again.
   */
  lemma DeinitOpens(m: Motor)
    ensures var r := Deinit(m);
            && r.high == OFF && (forall k: Channel :: !Conducts(r.pwm, k)) && !r.pwm.running
            && r.pwm.stage == m.pwm.stage && (PowerOn(r) <==> m.pwm.stage == 0)
            && r.steps == -1 && GetState(r) == 0 && !r.attached && !r.paused && r.walker == 0
  {
  }
}
