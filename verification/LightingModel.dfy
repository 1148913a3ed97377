/** The light state machine of LightingManager.cpp as a transition system.

    One one-shot timer is shared by the actuator delay, the off effect and auto turn-off.
    When it expires, the handler is chosen from the flags at that moment and posted to the
    application queue, so a handler may run long after the flags it was chosen from changed. */
module LightingModel {
  import opened Machine

  datatype LightState = OffInitiated | OffCompleted | OnInitiated | OnCompleted

  datatype Action = On | Off | Level | OtherAction

  /** The timer event handlers that can wait in the application queue. */
  datatype Handler = AutoTurnOff | OffEffect | ActuatorMovement

  datatype DelayedAllOffVariant = DelayedOffFastFade | NoFade | DelayedOffSlowFade | OtherDelayedVariant
  datatype DyingLightVariant = DyingLightFadeOff | OtherDyingVariant
  datatype Effect =
    | DelayedAllOff(delayed: DelayedAllOffVariant)
    | DyingLight(dying: DyingLightVariant)
    | OtherEffect

  /** Who asked: the timer handlers themselves, or a caller. */
  datatype Actor = TimerActor | Caller(id: int)

  /** What the application sees through the two registered callbacks. */
  datatype Notice = Initiated(action: Action, actor: Actor) | Completed(done: Action)

  /** `delayMs` is the delay of the latest timer start; `fault` records that a start was refused
      (`appError`). */
  datatype Light = Light(
    st: LightState,
    autoOn: bool,
    autoSecs: uint32,
    autoArmed: bool,
    effectArmed: bool,
    timerRunning: bool,
    delayMs: uint32,
    queue: seq<Handler>,
    notices: seq<Notice>,
    fault: bool)

  datatype Command =
    | Act(actor: Actor, action: Action)
    | Sync(on: bool)
    | EnableAuto(enable: bool)
    | SetAutoSecs(secs: uint32)
    | OffWithEffect(effect: Effect)

  /** A step is a command from outside, the expiry of the timer, or the application task
      taking the oldest posted handler. The last two do nothing when they are not due. */
  datatype Step = Do(command: Command) | Expire | Dispatch

  const ACTUATOR_MOVEMENT_PERIOD_MS: uint32 := 10

  predicate Moving(st: LightState) {
    st.OnInitiated? || st.OffInitiated?
  }

  function Completion(on: bool): LightState {
    if on then OnCompleted else OffCompleted
  }

  function Boot(on: bool): Light {
    Light(Completion(on), false, 0, false, false, false, 0, [], [], false)
  }

  /** The delay of auto turn-off in milliseconds, after the 32-bit multiplication. */
  function AutoDelayMs(secs: uint32): uint32 {
    Word32(secs * 1000)
  }

  function EffectDelayMs(effect: Effect): uint32 {
    match effect
    case DelayedAllOff(DelayedOffFastFade) => 800
    case DelayedAllOff(NoFade) => 800
    case DelayedAllOff(DelayedOffSlowFade) => 12800
    case DyingLight(DyingLightFadeOff) => 1500
    case _ => 0
  }

  /** A timer start with a zero delay is refused and leaves the timer as it was. */
  function Started(m: Light, ms: uint32): Light {
    if ms == 0 then m.(fault := true) else m.(timerRunning := true, delayMs := ms)
  }

  function TurnedOn(m: Light, actor: Actor): Light {
    var moved :=
      if m.effectArmed || m.st.OffCompleted? then
        m.(st := OnInitiated, effectArmed := false, timerRunning := true, delayMs := ACTUATOR_MOVEMENT_PERIOD_MS)
      else
        m.(st := OnCompleted, timerRunning := m.timerRunning && m.st.OnCompleted?);
    moved.(notices := m.notices + [Initiated(On, actor)])
  }

  function TurnedOff(m: Light, actor: Actor): Light {
    if m.effectArmed then
      m
    else
      var moved :=
        if m.st.OnCompleted? then
          m.(st := OffInitiated, autoArmed := false, timerRunning := true, delayMs := ACTUATOR_MOVEMENT_PERIOD_MS)
        else
          m.(st := OffCompleted, autoArmed := false,
             timerRunning := m.timerRunning && m.st.OffCompleted? && !m.autoArmed);
      moved.(notices := m.notices + [Initiated(Off, actor)])
  }

  function Initiate(m: Light, actor: Actor, action: Action): Light {
    match action
    case On => TurnedOn(m, actor)
    case Off => TurnedOff(m, actor)
    case Level => m.(notices := m.notices + [Initiated(Level, actor)])
    case OtherAction => m
  }

  function Synced(m: Light, on: bool): Light {
    var stopped :=
      if Moving(m.st) || m.effectArmed || m.autoArmed then
        m.(timerRunning := false, effectArmed := false, autoArmed := false)
      else m;
    stopped.(st := Completion(on))
  }

  function Done(m: Light, c: Command): Light {
    match c
    case Act(actor, action) => Initiate(m, actor, action)
    case Sync(on) => Synced(m, on)
    case EnableAuto(enable) => m.(autoOn := enable)
    case SetAutoSecs(secs) => m.(autoSecs := secs)
    case OffWithEffect(effect) => Started(m.(effectArmed := true), EffectDelayMs(effect))
  }

  function DueHandler(m: Light): Handler {
    if m.autoArmed then AutoTurnOff else if m.effectArmed then OffEffect else ActuatorMovement
  }

  function Expired(m: Light): Light {
    m.(timerRunning := false, queue := m.queue + [DueHandler(m)])
  }

  function Arrived(m: Light): Light {
    match m.st
    case OffInitiated =>
      m.(st := OffCompleted, notices := m.notices + [Completed(Off)])
    case OnInitiated =>
      var arrived := m.(st := OnCompleted, notices := m.notices + [Completed(On)]);
      if m.autoOn then Started(arrived, AutoDelayMs(m.autoSecs)).(autoArmed := true) else arrived
    case _ => m
  }

  function Handled(m: Light, h: Handler): Light {
    match h
    case AutoTurnOff =>
      if m.autoArmed then TurnedOff(m.(autoArmed := false), TimerActor) else m
    case OffEffect =>
      if m.effectArmed then TurnedOff(m.(effectArmed := false), TimerActor) else m
    case ActuatorMovement => Arrived(m)
  }

  predicate Due(m: Light, s: Step) {
    match s
    case Do(_) => true
    case Expire => m.timerRunning
    case Dispatch => m.queue != []
  }

  function Next(m: Light, s: Step): Light {
    if !Due(m, s) then m else
    match s
    case Do(c) => Done(m, c)
    case Expire => Expired(m)
    case Dispatch => Handled(m.(queue := m.queue[1..]), m.queue[0])
  }

  function Run(m: Light, steps: seq<Step>): Light
    decreases |steps|
  {
    if steps == [] then m else Run(Next(m, steps[0]), steps[1..])
  }

  predicate Internal(steps: seq<Step>) {
    forall i :: 0 <= i < |steps| ==> !steps[i].Do?
  }

  /** Nothing is left to happen until the next command. */
  predicate Settled(m: Light) {
    !m.timerRunning && m.queue == []
  }
}
