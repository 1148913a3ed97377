/** The LightingManager object. Each method updates the fields in the order the source does and
    is proved to take the step of LightingModel that bears its name. */
module LightingObject {
  import opened Machine
  import opened LightingModel

  class LightingManager {
    var mState: LightState
    var mAutoTurnOff: bool
    var mAutoTurnOffDuration: uint32
    var mAutoTurnOffTimerArmed: bool
    var mOffEffectArmed: bool

    // the platform: the one-shot timer, the application queue and the application's callbacks
    var timerRunning: bool
    var timerDelayMs: uint32
    var appQueue: seq<Handler>
    var notices: seq<Notice>
    var fault: bool

    ghost function Model(): Light
      reads this
    {
      Light(mState, mAutoTurnOff, mAutoTurnOffDuration, mAutoTurnOffTimerArmed, mOffEffectArmed,
            timerRunning, timerDelayMs, appQueue, notices, fault)
    }

    constructor Init(currentLedState: bool)
      ensures Model() == Boot(currentLedState)
    {
      timerRunning, timerDelayMs, appQueue, notices, fault := false, 0, [], [], false;
      mState := if currentLedState then OnCompleted else OffCompleted;
      mAutoTurnOffTimerArmed := false;
      mAutoTurnOff := false;
      mAutoTurnOffDuration := 0;
      mOffEffectArmed := false;
    }

    method IsActionInProgress() returns (busy: bool)
      ensures busy <==> Moving(mState)
    {
      busy := mState == OffInitiated || mState == OnInitiated;
    }

    method IsLightOn() returns (on: bool)
      ensures on <==> mState == Completion(true)
    {
      on := mState == OnCompleted;
    }

    method CancelTimer()
      modifies this`timerRunning
      ensures !timerRunning
    {
      timerRunning := false;
    }

    method SyncCompletedState(on: bool)
      modifies this
      ensures Model() == Synced(old(Model()), on)
    {
      if mState == OnInitiated || mState == OffInitiated || mOffEffectArmed || mAutoTurnOffTimerArmed {
        CancelTimer();
        mOffEffectArmed := false;
        mAutoTurnOffTimerArmed := false;
      }
      mState := if on then OnCompleted else OffCompleted;
    }

    method EnableAutoTurnOff(on: bool)
      modifies this
      ensures Model() == Next(old(Model()), Do(EnableAuto(on)))
    {
      mAutoTurnOff := on;
    }

    method SetAutoTurnOffDuration(durationInSecs: uint32)
      modifies this
      ensures Model() == Next(old(Model()), Do(SetAutoSecs(durationInSecs)))
    {
      mAutoTurnOffDuration := durationInSecs;
    }

    method StartTimer(timeoutMs: uint32)
      modifies this`timerRunning, this`timerDelayMs, this`fault
      ensures Model() == Started(old(Model()), timeoutMs)
    {
      if timeoutMs == 0 {
        fault := true;
      } else {
        timerRunning := true;
        timerDelayMs := timeoutMs;
      }
    }

    method InitiateAction(actor: Actor, action: Action) returns (initiated: bool)
      modifies this
      ensures Model() == Initiate(old(Model()), actor, action)
      ensures initiated <==> (action.On? || action.Level? || (action.Off? && !old(mOffEffectArmed)))
    {
      initiated := false;
      var newState := mState;
      var startActuatorTimer := false;

      if action == On {
        if mState == OffCompleted || mOffEffectArmed {
          initiated := true;
          startActuatorTimer := true;
          newState := OnInitiated;
          if mOffEffectArmed {
            CancelTimer();
            mOffEffectArmed := false;
          }
        } else if mState == OnCompleted || mState == OnInitiated || mState == OffInitiated {
          initiated := true;
          newState := OnCompleted;
          if mState == OnInitiated || mState == OffInitiated {
            CancelTimer();
          }
        }
      } else if action == Off && !mOffEffectArmed {
        if mState == OnCompleted {
          initiated := true;
          startActuatorTimer := true;
          newState := OffInitiated;
          if mAutoTurnOffTimerArmed {
            mAutoTurnOffTimerArmed := false;
            CancelTimer();
          }
        } else if mState == OffCompleted || mState == OffInitiated || mState == OnInitiated {
          initiated := true;
          newState := OffCompleted;
          if mState == OnInitiated || mState == OffInitiated {
            CancelTimer();
          }
          if mAutoTurnOffTimerArmed {
            mAutoTurnOffTimerArmed := false;
            CancelTimer();
          }
        }
      } else if action == Level {
        initiated := true;
      }

      if initiated && startActuatorTimer && (action == On || action == Off) {
        StartTimer(ACTUATOR_MOVEMENT_PERIOD_MS);
        mState := newState;
      } else if initiated && (action == On || action == Off) {
        mState := newState;
      }

      if initiated {
        notices := notices + [Initiated(action, actor)];
      }
    }

    /** The timer has expired; it does not restart. */
    method TimerEventHandler()
      requires timerRunning
      modifies this
      ensures Model() == Next(old(Model()), Expire)
    {
      timerRunning := false;
      var handler: Handler;
      if mAutoTurnOffTimerArmed {
        handler := AutoTurnOff;
      } else if mOffEffectArmed {
        handler := OffEffect;
      } else {
        handler := ActuatorMovement;
      }
      appQueue := appQueue + [handler];
    }

    method AutoTurnOffTimerEventHandler()
      modifies this
      ensures Model() == Handled(old(Model()), AutoTurnOff)
    {
      if !mAutoTurnOffTimerArmed {
        return;
      }
      mAutoTurnOffTimerArmed := false;
      var _ := InitiateAction(TimerActor, Off);
    }

    method OffEffectTimerEventHandler()
      modifies this
      ensures Model() == Handled(old(Model()), OffEffect)
    {
      if !mOffEffectArmed {
        return;
      }
      mOffEffectArmed := false;
      var _ := InitiateAction(TimerActor, Off);
    }

    method ActuatorMovementTimerEventHandler()
      modifies this
      ensures Model() == Handled(old(Model()), ActuatorMovement)
    {
      var completed: Option<Action> := None;
      if mState == OffInitiated {
        mState := OffCompleted;
        completed := Some(Off);
      } else if mState == OnInitiated {
        mState := OnCompleted;
        completed := Some(On);
      }
      if completed.Some? {
        notices := notices + [Completed(completed.value)];
        if mAutoTurnOff && completed.value == On {
          StartTimer(Word32(mAutoTurnOffDuration * 1000));
          mAutoTurnOffTimerArmed := true;
        }
      }
    }

    /** The application task takes the oldest posted handler and runs it. */
    method DispatchEvent()
      requires appQueue != []
      modifies this
      ensures Model() == Next(old(Model()), Dispatch)
    {
      var handler := appQueue[0];
      appQueue := appQueue[1..];
      match handler {
        case AutoTurnOff => AutoTurnOffTimerEventHandler();
        case OffEffect => OffEffectTimerEventHandler();
        case ActuatorMovement => ActuatorMovementTimerEventHandler();
      }
    }

    method OnTriggerOffWithEffect(effect: Effect)
      modifies this
      ensures Model() == Next(old(Model()), Do(OffWithEffect(effect)))
    {
      var offEffectDuration: uint32 := 0;
      if effect.DelayedAllOff? {
        if effect.delayed == DelayedOffFastFade {
          offEffectDuration := 800;
        } else if effect.delayed == NoFade {
          offEffectDuration := 800;
        } else if effect.delayed == DelayedOffSlowFade {
          offEffectDuration := 12800;
        }
      } else if effect.DyingLight? {
        if effect.dying == DyingLightFadeOff {
          offEffectDuration := 1500;
        }
      }
      mOffEffectArmed := true;
      StartTimer(offEffectDuration);
    }

    /** Any history of steps: the object is always in the state the model predicts. */
    method Perform(steps: seq<Step>)
      modifies this
      ensures Model() == Run(old(Model()), steps)
      decreases |steps|
    {
      if steps == [] {
        return;
      }
      match steps[0] {
        case Do(Act(actor, action)) => var _ := InitiateAction(actor, action);
        case Do(Sync(on)) => SyncCompletedState(on);
        case Do(EnableAuto(enable)) => EnableAutoTurnOff(enable);
        case Do(SetAutoSecs(secs)) => SetAutoTurnOffDuration(secs);
        case Do(OffWithEffect(effect)) => OnTriggerOffWithEffect(effect);
        case Expire => if timerRunning { TimerEventHandler(); }
        case Dispatch => if appQueue != [] { DispatchEvent(); }
      }
      Perform(steps[1..]);
    }
  }
}
