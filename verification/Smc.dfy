/** The stepper-motor controller and its timer driver as the objects they are in the firmware. */
module Smc {
  import opened Words
  import opened StepTables
  import T = PwmTimer
  import S = Stepper

  class PwmDriver {
    var stage: byte
    var period: uint32
    const mat: array<uint32>
    var mr0: uint32
    var mr1: uint32
    var mr2: uint32
    var mr3: uint32
    var resetOn: nat
    var enabled: T.Pins
    var timerPin: T.Pins
    var level: T.Pins
    var running: bool

    ghost function Abstract(): T.Pwm
      requires Valid()
      reads this, mat
    {
      T.Pwm(stage, period, mat[..], MatchRegisters(), resetOn, enabled, timerPin, level, running)
    }

    ghost function MatchRegisters(): T.Registers
      reads this
    {
      var mr := [mr0, mr1, mr2, mr3];
      assert |mr| == 4;
      mr
    }

    ghost predicate Valid()
      reads this
    {
      mat.Length == CHANNELS
    }

    constructor ()
      ensures Valid() && fresh(mat) && stage == 0
    {
      stage, period, resetOn, running := 0, 0, 0, false;
      mr0, mr1, mr2, mr3 := 0, 0, 0, 0;
      enabled := [false, false, false, false];
      timerPin := [false, false, false, false];
      level := [false, false, false, false];
      mat := new uint32[4];
    }

    /** PWM control, reset source and pin functions of the stage. */
    method Select()
      requires Valid()
      modifies this`enabled, this`resetOn, this`timerPin
      ensures Abstract() == T.Select(old(Abstract()))
    {
      if stage == 0 {
        enabled := [true, true, false, true];
        resetOn := 2;
        timerPin := timerPin[2 := false][3 := true];
      } else {
        enabled := [true, true, true, false];
        resetOn := 3;
        timerPin := timerPin[2 := true][3 := false];
      }
    }

    method InitPwm(periodUs: uint32, default: uint32)
      requires Valid()
      modifies this, mat
      ensures Valid() && Abstract() == T.InitPwm(old(Abstract()), periodUs, default)
    {
      hide T.Select;
      Store(periodUs, default);
      SelectIgnores(old(Abstract()), Abstract());
      Select();
      LoadMatch(default);
      timerPin := timerPin[0 := true][1 := true];
    }

    method Store(periodUs: uint32, default: uint32)
      requires Valid()
      modifies this`period, this`running, mat
      ensures Abstract() == old(Abstract()).(period := periodUs, running := false,
                                             mat := [default, default, default, default])
    {
      period, running := periodUs, false;
      mat[0], mat[1], mat[2], mat[3] := default, default, default, default;
      assert mat[..] == [default, default, default, default];
    }

    /** The period into the register of the channel that is off, whose pin is held low. */
    method LoadMatch(default: uint32)
      requires Valid()
      modifies this`mr0, this`mr1, this`mr2, this`mr3, this`level
      ensures var p := old(Abstract());
              Abstract() == p.(mr := [default, default, default, default][p.Off() := period],
                               level := p.level[p.Off() := false])
    {
      if stage == 0 {
        mr2, mr3 := period, default;
        level := level[2 := false];
      } else {
        mr2, mr3 := default, period;
        level := level[3 := false];
      }
      mr0, mr1 := default, default;
    }

    static lemma SelectIgnores(p: T.Pwm, q: T.Pwm)
      requires q == p.(period := q.period, mat := q.mat, running := q.running)
      ensures T.Select(q) == T.Select(p).(period := q.period, mat := q.mat, running := q.running)
    {
    }

    method Start()
      requires Valid()
      modifies this`running
      ensures Valid() && Abstract() == T.Start(old(Abstract()))
    {
      running := true;
    }

    method Deinit(state: bool)
      requires Valid()
      modifies this`running, this`timerPin, this`level
      ensures Valid() && Abstract() == T.Deinit(old(Abstract()), state)
    {
      running := false;
      timerPin := [false, false, false, false];
      level := [state, state, state, state];
    }

    method SetStage(stagearg: byte)
      requires Valid()
      modifies this
      ensures Valid() && Abstract() == T.SetStage(old(Abstract()), stagearg)
    {
      stage := stagearg;
      Select();
      if stage == 0 {
        mr2 := period;
        mr3 := mat[3];
        level := level[2 := false][3 := true];
      } else {
        mr2 := mat[2];
        mr3 := period;
        level := level[3 := false][2 := true];
      }
    }

    method ReloadMat()
      requires Valid()
      modifies this`mr0, this`mr1, this`mr2, this`mr3
      ensures Valid() && Abstract() == T.ReloadMat(old(Abstract()))
    {
      mr0 := mat[0];
      mr1 := mat[1];
      if stage == 0 {
        mr3 := mat[3];
      } else {
        mr2 := mat[2];
      }
    }

    method Set(matnr: Channel, value: uint32)
      requires Valid()
      modifies this`mr0, this`mr1, this`mr2, this`mr3, mat
      ensures Valid() && Abstract() == T.Set(old(Abstract()), matnr, value)
    {
      mat[matnr] := value;
      ReloadMat();
    }
  }

  class StepperControl {
    const variant: Variant
    const timer: PwmDriver
    var walker: Row
    var forward: bool
    var steps: int
    var free: bool
    var abort: bool
    var stepTime: uint32
    var paused: bool
    var attached: bool
    var interval: uint32
    var high: S.Switches

    ghost function Abstract(): S.Motor
      requires Valid()
      reads this, timer, timer.mat
    {
      S.Motor(walker, forward, steps, free, abort, stepTime, paused,
              attached, interval, high, timer.Abstract())
    }

    ghost predicate Valid()
      reads this, timer
    {
      timer.Valid()
    }

    constructor (variant: Variant)
      ensures Valid() && fresh(timer) && fresh(timer.mat) && S.PowerOn(Abstract())
    {
      this.variant := variant;
      walker, forward, steps, free, abort := 0, true, -1, true, false;
      stepTime, paused, attached, interval, high := 0, false, false, 0, S.OFF;
      timer := new PwmDriver();
    }

    method Init()
      requires Valid()
      modifies this, timer, timer.mat
      ensures Valid() && Abstract() == S.Init(old(Abstract()))
    {
      hide T.InitPwm;
      high := S.OFF;
      timer.InitPwm(S.PWM_PERIOD, 0);
      timer.Start();
    }

    method Deinit()
      requires Valid()
      modifies this, timer
      ensures Valid() && Abstract() == S.Deinit(old(Abstract()))
    {
      attached := false;
      timer.Deinit(false);
      high := S.OFF;
      walker, forward, steps, free, abort, paused := 0, true, -1, true, false, false;
    }

    method SetLow(k: Channel, duty: nat)
      requires Valid() && duty <= 512
      modifies timer, timer.mat
      ensures Valid() && timer.Abstract() == T.Set(old(timer.Abstract()), k, S.Match(duty))
    {
      if duty == 0 {
        timer.Set(k, S.PWM_PERIOD + 1);
      } else {
        timer.Set(k, S.PWM_PERIOD - duty);
      }
    }

    /** The first two bridges, which change places with the direction. */
    method FirstBridges()
      requires Valid()
      modifies this`high, timer, timer.mat
      ensures Valid()
      ensures high == old(high)[0 := High(S.Source(forward, 0), walker)][1 := High(S.Source(forward, 1), walker)]
      ensures timer.Abstract() ==
              S.SetDuty(old(Abstract()), variant, S.SetDuty(old(Abstract()), variant, old(timer.Abstract()), 0), 1)
    {
      hide High, T.Set, S.Match;
      var i := walker;
      LowRows(variant, 0, i);
      LowRows(variant, 1, i);
      if forward {
        high := high[0 := High(0, i)][1 := High(1, i)];
        SetLow(0, Low(variant, 0, i));
        SetLow(1, Low(variant, 1, i));
      } else {
        high := high[0 := High(1, i)][1 := High(0, i)];
        SetLow(0, Low(variant, 1, i));
        SetLow(1, Low(variant, 0, i));
      }
    }

    /** The last two bridges. */
    method LastBridges()
      requires Valid()
      modifies this`high, timer, timer.mat
      ensures Valid()
      ensures high == old(high)[2 := High(2, walker)][3 := High(3, walker)]
      ensures timer.Abstract() ==
              S.SetDuty(old(Abstract()), variant, S.SetDuty(old(Abstract()), variant, old(timer.Abstract()), 2), 3)
    {
      hide High, T.Set, S.Match;
      var i := walker;
      LowRows(variant, 2, i);
      LowRows(variant, 3, i);
      high := high[2 := High(2, i)][3 := High(3, i)];
      SetLow(2, Low(variant, 2, i));
      SetLow(3, Low(variant, 3, i));
    }

    /** The outputs of one microstep. */
    method Energise()
      requires Valid()
      modifies this`high, timer, timer.mat
      ensures Valid() && Abstract() == S.Energise(old(Abstract()), variant)
    {
      hide High, Low, T.SetStage, T.ReloadMat, S.SetDuty;
      ghost var m := Abstract();
      FirstBridges();
      DutyDependsOn(m, Abstract(), variant);
      LastBridges();
      if walker == 9 {
        timer.SetStage(1);
      }
      if walker == 24 {
        timer.SetStage(0);
      }
      timer.ReloadMat();
    }

    static lemma DutyDependsOn(m: S.Motor, r: S.Motor, v: Variant)
      requires r.walker == m.walker && r.forward == m.forward
      ensures forall p, k: Channel :: S.SetDuty(r, v, p, k) == S.SetDuty(m, v, p, k)
    {
      hide T.Set, S.Match;
    }

    method CountDown()
      requires Valid()
      modifies this, timer
      ensures Valid() && Abstract() == S.CountDown(old(Abstract()))
    {
      hide T.Deinit;
      if steps != -1 {
        if steps == 0 || abort {
          if free || abort {
            high := S.OFF;
            timer.Deinit(false);
          }
          attached := false;
          abort := false;
          paused := false;
        }
        steps := steps - 1;
      }
    }

    /** The ticker interrupt. */
    method Routine()
      requires Valid()
      modifies this, timer, timer.mat
      ensures Valid() && Abstract() == S.Routine(old(Abstract()), variant)
    {
      hide S.Energise, S.CountDown;
      Energise();
      walker := if walker + 1 > 31 then 0 else walker + 1;
      CountDown();
    }

    method Step(steps: S.int32, dir: byte, timeMs: uint32, free: byte) returns (r: int)
      requires Valid() && steps != 0
      modifies this, timer, timer.mat
      ensures Valid() && (Abstract(), r) == S.Command(old(Abstract()), steps, dir, timeMs, free)
    {
      hide T.InitPwm;
      var t := S.StepTime(steps, timeMs);
      if this.steps != -1 {
        return -1;
      }
      if steps < 1 {
        return -1;
      }
      if t < S.MIN_STEPTIME_US {
        return -1;
      }
      forward := dir != 0;
      this.steps := steps;
      this.free := free != 0;
      stepTime := t;
      paused := false;
      Init();
      attached := true;
      interval := stepTime;
      r := 0;
    }

    method Pause()
      requires Valid()
      modifies this
      ensures Valid() && Abstract() == S.Pause(old(Abstract()))
    {
      if steps != -1 {
        attached := false;
        paused := true;
      }
    }

    method Continue()
      requires Valid()
      modifies this
      ensures Valid() && Abstract() == S.Continue(old(Abstract()))
    {
      if steps != -1 && paused {
        attached := true;
        interval := stepTime;
        paused := false;
      }
    }

    method Brake()
      requires Valid()
      modifies this, timer
      ensures Valid() && Abstract() == S.Brake(old(Abstract()))
    {
      if walker > 0 {
        return;
      }
      Deinit();
      timer.Deinit(true);
    }

    method Free()
      requires Valid()
      modifies this, timer
      ensures Valid() && Abstract() == S.Free(old(Abstract()))
    {
      if walker > 0 {
        return;
      }
      Deinit();
      timer.Deinit(false);
    }

    method GetState() returns (state: int)
      requires Valid()
      ensures state == S.GetState(Abstract())
    {
      if steps < 0 {
        state := 0;
      } else if paused {
        state := -1 * steps;
      } else {
        state := steps;
      }
    }
  }
}
