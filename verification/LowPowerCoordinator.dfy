/** LowPowerCoordinator: the object above the suspend gate. */
module LowPowerObject {
  import opened Machine
  import opened LowPower
  import Gate = MainLightModel
  import opened MainLightObjects

  class LowPowerCoordinator {
    const sleep: BspPeripheralSleep
    var mRunState: RunState
    var mHolds: set<Hold>
    var mIdleElapsedMs: uint16
    var mUserWakeHoldMs: uint16
    var mUsbFallbackMs: uint16

    ghost predicate Valid() {
      sleep.Valid()
    }

    ghost function Owned(): set<object> {
      {this, sleep, sleep.led.whitePwm, sleep.led.rgb, sleep.led.rgb.frameBuf, sleep.led.rgb.resetBuf,
       sleep.indicatorWhite}
    }

    function Model(): Coordinator
      reads this, sleep, sleep.led.rgb, sleep.led.whitePwm, sleep.indicatorWhite
    {
      Coordinator(mRunState, mHolds, mIdleElapsedMs, mUserWakeHoldMs, mUsbFallbackMs, sleep.Model())
    }

    constructor Init(sleep: BspPeripheralSleep)
      requires sleep.Valid()
      modifies sleep
      ensures this.sleep == sleep && Valid() && Model() == Boot(old(sleep.Model()))
      ensures mRunState == Active && mHolds == {} && mIdleElapsedMs == mUserWakeHoldMs == mUsbFallbackMs == 0
      ensures sleep.Model() == old(sleep.Model()).(suspended := false)
    {
      this.sleep := sleep;
      mRunState, mHolds, mIdleElapsedMs, mUserWakeHoldMs, mUsbFallbackMs := Active, {}, 0, 0, 0;
      new;
      sleep.MarkReadyAfterBoot();
    }

    method SetHoldRaw(reason: Hold, enable: bool)
      modifies `mHolds
      ensures Model() == WithHold(old(Model()), reason, enable)
    {
      if enable {
        mHolds := mHolds + {reason};
      } else {
        mHolds := mHolds - {reason};
      }
    }

    method EnterActiveRaw()
      requires Valid()
      modifies Owned()
      ensures Model() == Activated(old(Model()))
    {
      if sleep.isSuspended {
        sleep.ResumeFromSleep();
      }
      mIdleElapsedMs := 0;
      mRunState := Active;
    }

    method EnterSleepPreparedRaw()
      requires Valid()
      modifies Owned()
      ensures Model() == old(Model()).(light := Gate.Suspended(old(sleep.Model())), run := SleepPrepared)
    {
      sleep.SuspendForSleep();
      mRunState := SleepPrepared;
    }

    method EvaluateSleepRaw()
      requires Valid()
      modifies Owned()
      ensures Model() == Evaluated(old(Model()))
    {
      if mHolds != {} {
        EnterActiveRaw();
        return;
      }
      if mRunState == SleepPrepared {
        return;
      }
      if mRunState != IdleSettle {
        mIdleElapsedMs := 0;
        mRunState := IdleSettle;
        return;
      }
      if mIdleElapsedMs < IDLE_SETTLE_MS {
        return;
      }
      EnterSleepPreparedRaw();
    }

    method SetActivityRaw(reason: Hold, enable: bool)
      requires Valid()
      modifies Owned()
      ensures Model() == Held(old(Model()), reason, enable)
    {
      SetHoldRaw(reason, enable);
      if enable {
        EnterActiveRaw();
      }
      EvaluateSleepRaw();
    }

    method OnMainLightActivity(isActive: bool)
      requires Valid()
      modifies Owned()
      ensures Model() == Next(old(Model()), Activity(MainLight, isActive))
    {
      SetActivityRaw(MainLight, isActive);
    }

    method OnIndicatorActivity(isActive: bool)
      requires Valid()
      modifies Owned()
      ensures Model() == Next(old(Model()), Activity(Indicator, isActive))
    {
      SetActivityRaw(Indicator, isActive);
    }

    method SetCommissioningHold(enable: bool)
      requires Valid()
      modifies Owned()
      ensures Model() == Next(old(Model()), Activity(Commissioning, enable))
    {
      SetActivityRaw(Commissioning, enable);
    }

    method OnUsbPowerActivity(usbPresent: bool, allowPeripheralIo: bool)
      requires Valid()
      modifies Owned()
      ensures Model() == Next(old(Model()),
                              if allowPeripheralIo then Activity(UsbPower, usbPresent) else UsbNotice(usbPresent))
    {
      SetHoldRaw(UsbPower, usbPresent);
      if !allowPeripheralIo {
        if usbPresent {
          mIdleElapsedMs := 0;
          mRunState := Active;
        } else if mHolds == {} && mRunState == Active {
          mIdleElapsedMs := 0;
          mRunState := IdleSettle;
        }
        return;
      }
      if usbPresent {
        EnterActiveRaw();
      }
      EvaluateSleepRaw();
    }

    method RequestUserWake()
      requires Valid()
      modifies Owned()
      ensures Model() == Next(old(Model()), UserWake)
    {
      SetHoldRaw(Button, true);
      SetHoldRaw(UserMatter, true);
      mUserWakeHoldMs := USER_WAKE_MS;
      EnterActiveRaw();
      EvaluateSleepRaw();
    }

    method EnsurePeripheralsReady()
      requires Valid()
      modifies Owned()
      ensures Model() == Next(old(Model()), EnsureReady)
    {
      sleep.EnsureReadyBeforeOutput();
    }

    method RequestMatterControlWake()
      requires Valid()
      modifies Owned()
      ensures Model() == Next(old(Model()), MatterWake)
    {
      EnsurePeripheralsReady();
      SetHoldRaw(UserMatter, true);
      if mUserWakeHoldMs < MATTER_WAKE_MS {
        mUserWakeHoldMs := MATTER_WAKE_MS;
      }
      EnterActiveRaw();
      EvaluateSleepRaw();
    }

    method TickUserWakeHoldRaw(elapsedMs: uint16)
      requires Valid()
      modifies Owned()
      ensures Model() == WakeTicked(old(Model()), elapsedMs)
    {
      if mUserWakeHoldMs == 0 {
        return;
      }
      if elapsedMs >= mUserWakeHoldMs {
        mUserWakeHoldMs := 0;
        SetHoldRaw(Button, false);
        SetHoldRaw(UserMatter, false);
        EvaluateSleepRaw();
        return;
      }
      mUserWakeHoldMs := mUserWakeHoldMs - elapsedMs;
    }

    /** `usbPresent` is the status after the confirmation, `changed` whether it was news. */
    method TickUsbFallback(elapsedMs: uint16, usbPresent: bool, changed: bool)
      requires Valid()
      modifies Owned()
      ensures Model() == UsbTicked(old(Model()), elapsedMs, usbPresent, changed)
    {
      mUsbFallbackMs := Word16(mUsbFallbackMs + elapsedMs);
      if mUsbFallbackMs >= 1000 {
        mUsbFallbackMs := 0;
        if changed {
          OnUsbPowerActivity(usbPresent, false);
        }
        OnUsbPowerActivity(usbPresent, true);
      }
    }

    method Poll(elapsedMs: uint16, usbPresent: bool, changed: bool)
      requires Valid()
      modifies Owned()
      ensures Model() == Polled(old(Model()), elapsedMs, usbPresent, changed)
    {
      TickUserWakeHoldRaw(elapsedMs);
      TickUsbFallback(elapsedMs, usbPresent, changed);
      if mRunState == IdleSettle {
        mIdleElapsedMs := Word16(mIdleElapsedMs + elapsedMs);
        if mIdleElapsedMs >= IDLE_SETTLE_MS {
          EvaluateSleepRaw();
        }
      }
    }

    method PerformActivity(hold: Hold, on: bool)
      requires Valid()
      modifies Owned()
      ensures Model() == Next(old(Model()), Activity(hold, on))
    {
      match hold {
        case MainLight => OnMainLightActivity(on);
        case Indicator => OnIndicatorActivity(on);
        case UsbPower => OnUsbPowerActivity(on, true);
        case Commissioning => SetCommissioningHold(on);
        case _ =>
      }
    }

    /** Any sequence of calls, with colour writes that reach the gate directly. */
    method Perform(ops: seq<Op>)
      requires Valid()
      modifies Owned()
      ensures Model() == Run(old(Model()), ops)
      decreases |ops|
    {
      if ops == [] {
        return;
      }
      match ops[0] {
        case Activity(hold, on) => PerformActivity(hold, on);
        case UsbNotice(present) => OnUsbPowerActivity(present, false);
        case UserWake => RequestUserWake();
        case MatterWake => RequestMatterControlWake();
        case Poll(ms, present, changed) => Poll(ms, present, changed);
        case EnsureReady => EnsurePeripheralsReady();
        case Write(w, r, g, b) => sleep.led.LedWrgbSetDuty(sleep, w, r, g, b);
      }
      Perform(ops[1..]);
    }
  }
}
