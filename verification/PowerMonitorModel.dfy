/** The whole power monitor of BspPowerMonitor.cpp as one state machine: charge detector, battery
    channels and USB debounce share one object, one clock and one notification callback. The
    callback runs in the middle of a USB confirmation and may call back into the monitor. */
module PowerMonitorModel {
  import opened Machine
  import ChargeStat
  import BatteryAdc

  /** What can be observed of the USB side, oldest first. A status change carries the battery
      channels as they are when it is announced, a confirmation the sample it took. */
  datatype UsbEvent =
    | EdgeDelivered(at: nat)
    | Confirmed(at: nat, byTimer: bool, mv: BatteryAdc.Millivolts)
    | Changed(connected: bool, notified: bool, found: BatteryAdc.Adc)

  /** `timer` is the sleeptimer's deadline; `started` records Init without a later DeInit; the
      histories record everything that has reached the charge detector and the battery channels. */
  datatype Monitor = Monitor(
    now: nat,
    charge: ChargeStat.Charge,
    adc: BatteryAdc.Adc,
    connected: bool,
    debounceArmed: bool,
    timer: Option<nat>,
    confirmBusy: bool,
    extiArmed: bool,
    callback: bool,
    started: bool,
    events: seq<UsbEvent>,
    chargeHistory: seq<ChargeStat.Timed>,
    adcHistory: seq<BatteryAdc.AdcOp>)

  /** `during` is what the notification callback does if this operation invokes it. */
  datatype Op =
    | Tick(ms: nat)
    | ChargeLine(charge: ChargeStat.ChargeOp)
    | Battery(adc: BatteryAdc.AdcOp)
    | Register(on: bool)
    | UsbEdge(startOk: bool)
    | TimerFires(mv: BatteryAdc.Millivolts, during: seq<Op>)
    | UsbPoll(mv: BatteryAdc.Millivolts, during: seq<Op>)
    | Init(mv: BatteryAdc.Millivolts, during: seq<Op>)
    | DeInit

  const USB_DETECT_LIMIT_MV := 3000
  const USB_DEBOUNCE_MS := 50

  const Off := Monitor(0, ChargeStat.PowerOn, BatteryAdc.PowerOn, false, false, None, false, false,
                       false, false, [], [], [])

  function ClockMs(now: nat): uint32 {
    Word32(now)
  }

  function ChargeDone(m: Monitor, op: ChargeStat.ChargeOp): Monitor {
    var e := ChargeStat.At(ClockMs(m.now), op);
    m.(charge := ChargeStat.Next(m.charge, e), chargeHistory := m.chargeHistory + [e])
  }

  function AdcDone(m: Monitor, op: BatteryAdc.AdcOp): Monitor {
    m.(adc := BatteryAdc.Next(m.adc, op), adcHistory := m.adcHistory + [op])
  }

  /** An edge restarts the debounce; without an armed interrupt it is not delivered. */
  function EdgeSeen(m: Monitor, startOk: bool): Monitor {
    if !m.extiArmed then m else
    m.(timer := if startOk then Some(m.now + USB_DEBOUNCE_MS) else if m.debounceArmed then None else m.timer,
       debounceArmed := startOk,
       events := m.events + [EdgeDelivered(m.now)])
  }

  /** A new status resets the battery channels, is stored, and is announced. */
  function StatusChanged(m: Monitor, connected: bool): Monitor {
    var clean := BatteryAdc.Reset(m.adc);
    m.(adc := clean, adcHistory := m.adcHistory + [BatteryAdc.UsbReset], connected := connected,
       events := m.events + [Changed(connected, m.callback, clean)])
  }

  /** The verdict on one sample of the divided USB voltage. */
  predicate Plugged(mv: BatteryAdc.Millivolts) {
    2 * mv >= USB_DETECT_LIMIT_MV
  }

  /** A confirmation has begun: the pin belongs to the ADC. */
  function Sampling(m: Monitor, mv: BatteryAdc.Millivolts, byTimer: bool): Monitor {
    m.(confirmBusy := true, extiArmed := false, events := m.events + [Confirmed(m.now, byTimer, mv)])
  }

  /** The status is stored; if that changes it, the callback runs. */
  function Applied(m: Monitor, connected: bool, during: seq<Op>): Monitor
    decreases during, 1
  {
    if connected == m.connected then m
    else if m.callback then Run(StatusChanged(m, connected), during)
    else StatusChanged(m, connected)
  }

  function Confirm(m: Monitor, mv: BatteryAdc.Millivolts, byTimer: bool, during: seq<Op>): Monitor
    decreases during, 2
  {
    if m.confirmBusy then m else
    Applied(Sampling(m, mv, byTimer), Plugged(mv), during).(extiArmed := true, confirmBusy := false)
  }

  /** The operations on the platform and the callback registration. */
  function Plain(m: Monitor, op: Op): Monitor {
    match op
    case Tick(ms) => m.(now := m.now + ms)
    case Register(on) => m.(callback := on)
    case UsbEdge(startOk) => EdgeSeen(m, startOk)
    case DeInit =>
      m.(timer := if m.debounceArmed then None else m.timer, debounceArmed := false,
         extiArmed := false, started := false)
    case _ => m
  }

  function Next(m: Monitor, op: Op): Monitor
    decreases op, 3
  {
    match op
    case TimerFires(mv, during) =>
      if m.timer.Some? && m.timer.value <= m.now
      then Confirm(m.(timer := None, debounceArmed := false), mv, true, during) else m
    case UsbPoll(mv, during) => Confirm(m, mv, false, during)
    case Init(mv, during) => Confirm(m.(extiArmed := true, started := true), mv, false, during)
    case ChargeLine(charge) => ChargeDone(m, charge)
    case Battery(adc) => if adc.UsbReset? then m else AdcDone(m, adc)
    case _ => Plain(m, op)
  }

  function Run(m: Monitor, ops: seq<Op>): Monitor
    decreases ops, 0
  {
    if ops == [] then m else Run(Next(m, ops[0]), ops[1..])
  }
}
