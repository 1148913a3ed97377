/** The objects around the main light: HalPwm, BspLedWrgb and the suspend gate BspPeripheralSleep. */
module MainLightObjects {
  import opened Machine
  import opened Sm15135eFrame
  import opened MainLightModel
  import opened HalSpiObject

  class HalPwm {
    var running: bool
    var level: uint16

    function Model(): Pwm
      reads this
    {
      Pwm(running, level)
    }

    constructor ()
      ensures Model() == Pwm(false, 0)
    {
      running, level := false, 0;
    }

    method PwmSetDuty(duty: uint16)
      modifies this
      ensures Model() == PwmDuty(old(Model()), duty)
    {
      if duty == 0 {
        running := false;
      } else {
        level := duty;
        if duty >= 1023 {
          level := 1023;
        }
        running := true;
      }
    }
  }

  class BspLedWrgb {
    const whitePwm: HalPwm
    const rgb: HalSpiSm15135e

    ghost predicate Valid() {
      rgb.Valid()
    }

    constructor ()
      ensures Valid() && fresh(whitePwm) && fresh(rgb) && fresh(rgb.frameBuf) && fresh(rgb.resetBuf)
      ensures whitePwm.Model() == Pwm(false, 0) && rgb.Model() == NewDriver()
    {
      whitePwm := new HalPwm();
      rgb := new HalSpiSm15135e();
    }

    method Init()
      requires Valid()
      modifies rgb, rgb.resetBuf
      ensures rgb.Model() == Restarted(old(rgb.Model()))
    {
      rgb.Init();
      rgb.SetAllGain(GAIN_101_1MA);
    }

    /** Writes the white PWM and one RGB frame; the board has blue and red swapped. */
    method ApplyDutyRaw(w: uint16, r: uint16, g: uint16, b: uint16)
      requires Valid()
      modifies whitePwm, rgb, rgb.frameBuf
      ensures whitePwm.Model() == PwmDuty(old(whitePwm.Model()), w)
      ensures var p := WithDuty(WithGain(old(rgb.Stored()), GAIN_70_8MA), Scale(b), Scale(g), Scale(r), 0, 0);
              rgb.Model() == AfterFrame(old(rgb.Model()).(pixel := p))
    {
      var smR := Word16(r * 64);
      var smG := Word16(g * 64);
      var smB := Word16(b * 64);
      if r >= 1023 {
        smR := 0xFFFF;
      }
      if g >= 1023 {
        smG := 0xFFFF;
      }
      if b >= 1023 {
        smB := 0xFFFF;
      }
      whitePwm.PwmSetDuty(w);
      rgb.SetAllGain(GAIN_70_8MA);
      rgb.SetRgbwyDuty(smB, smG, smR, 0, 0);
      rgb.SendFrame();
    }

    method SuspendBusForIdle()
      requires Valid()
      modifies whitePwm, rgb, rgb.frameBuf
      ensures whitePwm.Model() == PwmDuty(old(whitePwm.Model()), 0)
      ensures var p := WithDuty(WithGain(old(rgb.Stored()), GAIN_70_8MA), Scale(0), Scale(0), Scale(0), 0, 0);
              rgb.Model() == AfterFrame(old(rgb.Model()).(pixel := p))
    {
      ApplyDutyRaw(0, 0, 0, 0);
    }

    method ResumeBusForActive()
      requires Valid()
      modifies rgb, rgb.resetBuf
      ensures rgb.Model() == Restarted(old(rgb.Model()))
    {
      rgb.SendReset();
      rgb.SetAllGain(GAIN_101_1MA);
    }

    /** The only way a colour reaches the light: it resumes a suspended bus first. */
    method LedWrgbSetDuty(gate: BspPeripheralSleep, w: uint16, r: uint16, g: uint16, b: uint16)
      requires gate.Valid() && gate.led == this
      modifies gate, whitePwm, rgb, rgb.frameBuf, rgb.resetBuf
      ensures gate.Model() == Next(old(gate.Model()), SetDuty(w, r, g, b))
    {
      gate.EnsureReadyBeforeOutput();
      ApplyDutyRaw(w, r, g, b);
    }
  }

  class BspPeripheralSleep {
    const led: BspLedWrgb
    const indicatorWhite: HalPwm
    var isSuspended: bool
    var bootMarked: bool
    var red: bool
    var adcClock: bool

    ghost predicate Valid() {
      led.Valid() && indicatorWhite != led.whitePwm
    }

    function Model(): Light
      reads this, led.rgb, led.whitePwm, indicatorWhite
    {
      Light(led.rgb.Model(), led.whitePwm.Model(), isSuspended, indicatorWhite.Model(), red, adcClock)
    }

    /** The board after power-on, with BspLedWrgb initialised. */
    constructor ()
      ensures Valid() && Model() == Boot()
      ensures fresh(led) && fresh(led.rgb) && fresh(led.whitePwm) && fresh(indicatorWhite)
      ensures fresh(led.rgb.frameBuf) && fresh(led.rgb.resetBuf)
    {
      led := new BspLedWrgb();
      indicatorWhite := new HalPwm();
      isSuspended, bootMarked, red, adcClock := false, false, false, true;
      new;
      led.Init();
    }

    method MarkReadyAfterBoot()
      modifies `isSuspended, `bootMarked
      ensures Model() == Next(old(Model()), MarkReady)
    {
      isSuspended := false;
      bootMarked := true;
    }

    method SuspendIndicatorPwmRaw()
      modifies indicatorWhite, `red
      ensures !red && indicatorWhite.Model() == PwmDuty(old(indicatorWhite.Model()), 0)
    {
      indicatorWhite.PwmSetDuty(0);
      red := false;
    }

    method SuspendForSleep()
      requires Valid()
      modifies this, led.whitePwm, led.rgb, led.rgb.frameBuf, indicatorWhite
      ensures Model() == Next(old(Model()), Suspend)
    {
      if isSuspended {
        return;
      }
      led.SuspendBusForIdle();
      SuspendIndicatorPwmRaw();
      adcClock := false;
      isSuspended := true;
    }

    method ResumeFromSleep()
      requires Valid()
      modifies `isSuspended, `adcClock, led.rgb, led.rgb.resetBuf
      ensures Model() == Next(old(Model()), Resume)
    {
      if !isSuspended {
        return;
      }
      adcClock := true;
      led.ResumeBusForActive();
      isSuspended := false;
    }

    method EnsureReadyBeforeOutput()
      requires Valid()
      modifies `isSuspended, `adcClock, led.rgb, led.rgb.resetBuf
      ensures Model() == Next(old(Model()), EnsureReady)
    {
      if isSuspended {
        ResumeFromSleep();
      }
    }

    /** Any sequence of calls. */
    method Perform(ops: seq<Op>)
      requires Valid()
      modifies this, led.whitePwm, led.rgb, led.rgb.frameBuf, led.rgb.resetBuf, indicatorWhite
      ensures Model() == Run(old(Model()), ops)
      decreases |ops|
    {
      if ops != [] {
        match ops[0] {
          case SetDuty(w, r, g, b) => led.LedWrgbSetDuty(this, w, r, g, b);
          case Suspend => SuspendForSleep();
          case Resume => ResumeFromSleep();
          case EnsureReady => EnsureReadyBeforeOutput();
          case MarkReady => MarkReadyAfterBoot();
        }
        Perform(ops[1..]);
      }
    }
  }
}
