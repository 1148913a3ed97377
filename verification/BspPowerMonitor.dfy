/** The BspPowerMonitor object: the fields and methods of BspPowerMonitor.cpp, proved to follow
    ChargeStat, BatteryAdc and PowerMonitorModel. */
module PowerMonitorObject {
  import opened Machine
  import opened PowerMonitorModel
  import ChargeStat
  import BatteryAdc
  import Filter = FirstOrderFilter
  import Count = CheckConsecutive

  /** A `bool` passed by address. */
  class BoolCell {
    var v: bool

    constructor (initial: bool)
      ensures v == initial
    {
      v := initial;
    }
  }

  method FilterAdcSampleRaw(sampleMv: uint32, alpha: uint8, pFiltered: Filter.U32Cell?, pSeeded: BoolCell?)
    returns (mv: uint32)
    modifies pFiltered, pSeeded
    ensures pFiltered == null || pSeeded == null ==>
              && mv == sampleMv
              && (pFiltered != null ==> pFiltered.v == old(pFiltered.v))
              && (pSeeded != null ==> pSeeded.v == old(pSeeded.v))
    ensures pFiltered != null && pSeeded != null ==>
              && pSeeded.v
              && mv == pFiltered.v == BatteryAdc.Sampled(sampleMv, alpha, old(pFiltered.v), old(pSeeded.v))
  {
    if pFiltered == null || pSeeded == null {
      return sampleMv;
    }
    if !pSeeded.v {
      pFiltered.v := sampleMv;
      pSeeded.v := true;
      return sampleMv;
    }
    Filter.Apply(sampleMv, alpha, pFiltered);
    return pFiltered.v;
  }

  class BspPowerMonitor {
    const filteredBatMv: Filter.U32Cell
    const batFilterSeeded: BoolCell
    const filteredNtcMv: Filter.U32Cell
    const ntcFilterSeeded: BoolCell
    const ntcRemovedHighCount: Count.U8Cell
    const ntcPresentLowCount: Count.U8Cell

    var batteryTempStatus: BatteryAdc.TempStatus
    var chargeState: bool
    var chargeStatus: ChargeStat.ChargeStatus
    var lastInterruptMs: uint32
    var pulseCounter: uint32
    var isPulsing: bool
    var usbConnected: bool
    var usbDebounceArmed: bool
    var usbConfirmBusy: bool
    var appCallback: bool

    // the platform: the clock, the sleeptimer's deadline and the edge interrupt of the USB pin
    var now: nat
    var timer: Option<nat>
    var extiArmed: bool

    // what has happened so far
    ghost var started: bool
    ghost var events: seq<UsbEvent>
    ghost var chargeHistory: seq<ChargeStat.Timed>
    ghost var adcHistory: seq<BatteryAdc.AdcOp>

    ghost function Cells(): set<object> {
      {filteredBatMv, batFilterSeeded, filteredNtcMv, ntcFilterSeeded, ntcRemovedHighCount, ntcPresentLowCount}
    }

    ghost function Adc(): BatteryAdc.Adc
      reads this`batteryTempStatus, Cells()
    {
      BatteryAdc.Adc(filteredBatMv.v, batFilterSeeded.v, filteredNtcMv.v, ntcFilterSeeded.v,
                     ntcRemovedHighCount.v, ntcPresentLowCount.v, batteryTempStatus)
    }

    ghost function Charge(): ChargeStat.Charge
      reads this`lastInterruptMs, this`pulseCounter, this`isPulsing, this`chargeStatus, this`chargeState
    {
      ChargeStat.Charge(lastInterruptMs, pulseCounter, isPulsing, chargeStatus, chargeState)
    }

    ghost function Model(): Monitor
      reads this, Cells()
    {
      Monitor(now, Charge(), Adc(), usbConnected, usbDebounceArmed, timer, usbConfirmBusy, extiArmed,
              appCallback, started, events, chargeHistory, adcHistory)
    }

    /** The addresses are distinct and the filters hold what the ADC can deliver. */
    ghost predicate Valid()
      reads this`batteryTempStatus, Cells()
    {
      && filteredBatMv != filteredNtcMv && batFilterSeeded != ntcFilterSeeded
      && ntcRemovedHighCount != ntcPresentLowCount
      && BatteryAdc.InRange(Adc())
    }

    constructor ()
      ensures Valid() && Model() == Off && fresh(Cells())
    {
      filteredBatMv := new Filter.U32Cell(0);
      batFilterSeeded := new BoolCell(false);
      filteredNtcMv := new Filter.U32Cell(0);
      ntcFilterSeeded := new BoolCell(false);
      ntcRemovedHighCount := new Count.U8Cell(0);
      ntcPresentLowCount := new Count.U8Cell(0);
      chargeState := false;
      usbConnected := false;
      chargeStatus := ChargeStat.ChargeInit;
      batteryTempStatus := BatteryAdc.TempNormal;
      lastInterruptMs, pulseCounter, isPulsing := 0, 0, false;
      appCallback, usbDebounceArmed, usbConfirmBusy := false, false, false;
      now, timer, extiArmed := 0, None, false;
      started, events, chargeHistory, adcHistory := false, [], [], [];
    }

    // -------------------------------------------------------------- charge status line

    method ChargeStatIsr(pinState: bool)
      modifies this`lastInterruptMs, this`pulseCounter, this`isPulsing, this`chargeStatus
      ensures Charge() == ChargeStat.EdgeSeen(old(Charge()), ClockMs(now), pinState)
    {
      var currentMs: uint32 := Word32(now);
      var deltaMs: uint32 := Word32(currentMs - lastInterruptMs);
      lastInterruptMs := currentMs;
      if ChargeStat.PULSE_HALF_MIN_MS <= deltaMs && deltaMs <= ChargeStat.PULSE_HALF_MAX_MS {
        pulseCounter := Word32(pulseCounter + 1);
        if pulseCounter >= 3 {
          isPulsing := true;
          chargeStatus := ChargeStat.ChargeFault;
        }
      } else {
        pulseCounter := 0;
        isPulsing := false;
        if !pinState {
          chargeStatus := ChargeStat.Charging;
        } else {
          chargeStatus := ChargeStat.ChargeDone;
        }
      }
    }

    method ApplyChargeStatLevelFromGpioRaw(levelHigh: bool)
      modifies this`chargeStatus
      ensures chargeStatus == ChargeStat.Level(levelHigh)
    {
      chargeStatus := if levelHigh then ChargeStat.ChargeDone else ChargeStat.Charging;
    }

    method GetChargeStatus(levelHigh: bool) returns (status: ChargeStat.ChargeStatus)
      modifies this`pulseCounter, this`isPulsing, this`chargeStatus
      ensures Charge() == ChargeStat.Polled(old(Charge()), ClockMs(now), levelHigh)
      ensures status == Charge().status
    {
      var currentMs: uint32 := Word32(now);
      var elapsedMs: uint32 := Word32(currentMs - lastInterruptMs);
      if isPulsing {
        if elapsedMs > ChargeStat.PULSE_HALF_MAX_MS {
          isPulsing := false;
          pulseCounter := 0;
          ApplyChargeStatLevelFromGpioRaw(levelHigh);
        }
        return chargeStatus;
      }
      var noEdgeYet := lastInterruptMs == 0;
      if chargeState && (noEdgeYet || elapsedMs > ChargeStat.PULSE_HALF_MAX_MS) {
        ApplyChargeStatLevelFromGpioRaw(levelHigh);
      }
      return chargeStatus;
    }

    method SetBatteryChargeEnable(enable: bool)
      modifies this`chargeState
      ensures Charge() == old(Charge()).(enabled := enable)
    {
      chargeState := enable;
    }

    // -------------------------------------------------------------- battery channels

    method FetchNtcFromHardwareRaw(raw: BatteryAdc.Millivolts) returns (ok: bool, rawMv: uint16, filteredMv: uint16)
      requires Valid()
      modifies filteredNtcMv, ntcFilterSeeded
      ensures Valid() && Adc() == BatteryAdc.NtcSampled(old(Adc()), raw)
      ensures ok <==> raw != 0
      ensures ok ==> rawMv == raw && filteredMv == BatteryAdc.NtcReported(old(Adc()), raw)
    {
      BatteryAdc.NtcInRange(Adc(), raw);
      if raw == 0 {
        return false, 0, 0;
      }
      var filtered: uint32 := 0;
      if batteryTempStatus != BatteryAdc.BatteryRemoved {
        filtered := BatteryAdc.Offset(raw, BatteryAdc.NTC_ADC_OFFSET_MV);
        filtered := FilterAdcSampleRaw(filtered, BatteryAdc.NTC_VOLT_FILTER_ALPHA, filteredNtcMv, ntcFilterSeeded);
      } else if ntcFilterSeeded.v {
        filtered := filteredNtcMv.v;
      } else {
        filtered := BatteryAdc.Offset(raw, BatteryAdc.NTC_ADC_OFFSET_MV);
      }
      return true, Word16(raw), Word16(filtered);
    }

    method GetBatteryNtcVoltage(raw: BatteryAdc.Millivolts) returns (ok: bool, ntcMv: uint16)
      requires Valid()
      modifies filteredNtcMv, ntcFilterSeeded
      ensures Valid() && Adc() == BatteryAdc.NtcSampled(old(Adc()), raw)
      ensures ok <==> raw != 0
      ensures ok ==> ntcMv == BatteryAdc.NtcReported(old(Adc()), raw)
    {
      var rawMv;
      ok, rawMv, ntcMv := FetchNtcFromHardwareRaw(raw);
    }

    /** Undoes the divider and the fixed offset. */
    method RestoreBatteryVoltage(raw: BatteryAdc.Millivolts) returns (batVoltageMv: uint32)
      ensures batVoltageMv == BatteryAdc.BatterySample(raw) <= BatteryAdc.BATTERY_MAX_MV
    {
      batVoltageMv := raw;
      batVoltageMv := batVoltageMv * BatteryAdc.BATTERY_ADC_DIVIDER_RESTORE;
      batVoltageMv := BatteryAdc.Offset(batVoltageMv, BatteryAdc.BATTERY_ADC_OFFSET_MV);
    }

    method GetBatteryVoltage(raw: BatteryAdc.Millivolts) returns (ok: bool, batMv: uint16)
      requires Valid()
      modifies filteredBatMv, batFilterSeeded
      ensures Valid() && Adc() == BatteryAdc.BatSampled(old(Adc()), raw)
      ensures ok <==> raw != 0
      ensures ok ==> batMv == if batteryTempStatus.BatteryRemoved? then BatteryAdc.BatterySample(raw) else Adc().batMv
    {
      BatteryAdc.BatInRange(Adc(), raw);
      ok, batMv := false, 0;
      if raw != 0 {
        var batVoltageMv := RestoreBatteryVoltage(raw);
        if batteryTempStatus != BatteryAdc.BatteryRemoved {
          batVoltageMv := FilterAdcSampleRaw(batVoltageMv, BatteryAdc.BATTERY_VOLT_FILTER_ALPHA,
                                             filteredBatMv, batFilterSeeded);
        }
        SmallHalfWord(batVoltageMv);
        batMv := Word16(batVoltageMv);
        ok := true;
      }
    }

    method GetBatteryVoltStatus(raw: BatteryAdc.Millivolts) returns (status: BatteryAdc.VoltStatus)
      requires Valid()
      modifies filteredBatMv, batFilterSeeded
      ensures Valid() && Adc() == BatteryAdc.BatSampled(old(Adc()), raw)
      ensures status == if batteryTempStatus.BatteryRemoved? || raw == 0 then BatteryAdc.VoltNormal
                        else BatteryAdc.VoltLevel(Adc().batMv)
      ensures status.VoltCriticalEmpty? <==> !batteryTempStatus.BatteryRemoved? && raw != 0 && Adc().batMv < 6200
      ensures status.VoltLowWarning? <==> !batteryTempStatus.BatteryRemoved? && raw != 0 && 6200 <= Adc().batMv < 7000
    {
      if batteryTempStatus == BatteryAdc.BatteryRemoved {
        return BatteryAdc.VoltNormal;
      }
      var ok, batMv := GetBatteryVoltage(raw);
      if !ok {
        return BatteryAdc.VoltNormal;
      }
      if batMv < BatteryAdc.BAT_DISCHARGE_CRITICAL_MV {
        return BatteryAdc.VoltCriticalEmpty;
      }
      if batMv < BatteryAdc.BAT_DISCHARGE_LOW_WARN_MV {
        return BatteryAdc.VoltLowWarning;
      }
      return BatteryAdc.VoltNormal;
    }

    /** Three present samples in a row: start afresh from the latest. */
    method SeedFromPresent(ntcRawMv: uint16) returns (ntcFilteredMv: uint16)
      requires Valid() && ntcRawMv < 3300
      modifies this`batteryTempStatus, Cells()
      ensures Valid()
      ensures Adc() == BatteryAdc.Adc(0, false, ntcFilteredMv, true, 0, old(ntcPresentLowCount.v),
                         if old(batteryTempStatus).BatteryRemoved? then BatteryAdc.TempNormal
                         else old(batteryTempStatus))
      ensures ntcFilteredMv == BatteryAdc.Offset(ntcRawMv, BatteryAdc.NTC_ADC_OFFSET_MV)
    {
      ntcRemovedHighCount.v := 0;
      filteredNtcMv.v := BatteryAdc.Offset(ntcRawMv, BatteryAdc.NTC_ADC_OFFSET_MV);
      ntcFilterSeeded.v := true;
      ntcFilteredMv := Word16(filteredNtcMv.v);
      batFilterSeeded.v := false;
      filteredBatMv.v := 0;
      if batteryTempStatus == BatteryAdc.BatteryRemoved {
        batteryTempStatus := BatteryAdc.TempNormal;
      }
    }

    method ClassifyTemperature(ntcFilteredMv: uint16)
      modifies this`batteryTempStatus
      ensures batteryTempStatus == BatteryAdc.NextTemp(old(batteryTempStatus), ntcFilteredMv)
    {
      if ntcFilteredMv >= BatteryAdc.NTC_LOW_VAL_TEMP {
        batteryTempStatus := BatteryAdc.TempTooLow;
        return;
      }
      if batteryTempStatus == BatteryAdc.TempTooHigh {
        if ntcFilteredMv <= BatteryAdc.NTC_RECOVER_VAL_TEMP {
          batteryTempStatus := BatteryAdc.TempNormal;
          return;
        }
      }
      if ntcFilteredMv <= BatteryAdc.NTC_OVER_VAL_TEMP {
        batteryTempStatus := BatteryAdc.TempTooHigh;
        return;
      }
      batteryTempStatus := BatteryAdc.TempNormal;
    }

    method GetBatteryTempStatus(raw: BatteryAdc.Millivolts) returns (status: BatteryAdc.TempStatus)
      requires Valid()
      modifies this`batteryTempStatus, Cells()
      ensures Valid() && Adc() == BatteryAdc.TempPolled(old(Adc()), raw)
      ensures status == batteryTempStatus
    {
      ghost var before := Adc();
      BatteryAdc.StepInRange(before, BatteryAdc.TempPoll(raw));
      BatteryAdc.NtcInRange(before, raw);
      var ok, ntcRawMv, ntcFilteredMv := FetchNtcFromHardwareRaw(raw);
      if !ok {
        return batteryTempStatus;
      }

      var batteryRemoved := Count.Apply(ntcRawMv, BatteryAdc.NTC_BATTERY_REMOVED_MV,
                                        ntcRemovedHighCount, BatteryAdc.NTC_CONSECUTIVE_MAX);
      var presentStable := Count.ApplyBelow(ntcRawMv, BatteryAdc.NTC_BATTERY_REMOVED_MV,
                                            ntcPresentLowCount, BatteryAdc.NTC_CONSECUTIVE_MAX);

      if presentStable {
        ntcFilteredMv := SeedFromPresent(ntcRawMv);
      }

      if batteryRemoved {
        batteryTempStatus := BatteryAdc.BatteryRemoved;
        ntcFilterSeeded.v := false;
        batFilterSeeded.v := false;
        return batteryTempStatus;
      }

      if batteryTempStatus == BatteryAdc.BatteryRemoved {
        return batteryTempStatus;
      }

      ClassifyTemperature(ntcFilteredMv);
      return batteryTempStatus;
    }

    method ResetAdcAccumulatorsRaw()
      requires Valid()
      modifies Cells()
      ensures Valid() && Adc() == BatteryAdc.Reset(old(Adc()))
    {
      filteredBatMv.v := 0;
      batFilterSeeded.v := false;
      filteredNtcMv.v := 0;
      ntcFilterSeeded.v := false;
      ntcRemovedHighCount.v := 0;
      ntcPresentLowCount.v := 0;
    }

    // -------------------------------------------------------------- USB status

    /** A new status: the channels are reset before it is stored and announced. */
    method StoreUsbStatus(connected: bool)
      requires Valid()
      modifies this`usbConnected, this`events, this`adcHistory, Cells()
      ensures Valid() && Model() == StatusChanged(old(Model()), connected)
    {
      ResetAdcAccumulatorsRaw();
      adcHistory := adcHistory + [BatteryAdc.UsbReset];
      usbConnected := connected;
      events := events + [Changed(connected, appCallback, Adc())];
    }

    method ApplyUsbConnectedRaw(connected: bool, during: seq<Op>)
      requires Valid()
      modifies this, Cells()
      ensures Valid()
      ensures Model() == Applied(old(Model()), connected, during)
      decreases during, 1
    {
      if connected == usbConnected {
        return;
      }
      StoreUsbStatus(connected);
      if appCallback {
        Perform(during);
      }
    }

    method ArmUsbExtiRaw()
      modifies this`extiArmed
      ensures extiArmed
    {
      extiArmed := true;
    }

    method DisarmUsbExtiRaw()
      modifies this`extiArmed
      ensures !extiArmed
    {
      extiArmed := false;
    }

    method ScheduleUsbAdcConfirmRaw(startOk: bool)
      modifies this`timer, this`usbDebounceArmed
      ensures usbDebounceArmed == startOk
      ensures timer == if startOk then Some(now + USB_DEBOUNCE_MS)
                       else if old(usbDebounceArmed) then None else old(timer)
    {
      if usbDebounceArmed {
        timer := None;
        usbDebounceArmed := false;
      }
      if startOk {
        timer := Some(now + USB_DEBOUNCE_MS);
        usbDebounceArmed := true;
      }
    }

    /** The interrupt controller delivers an edge only while the interrupt is armed. */
    method UsbDetectIsr(startOk: bool)
      modifies this`timer, this`usbDebounceArmed, this`events
      ensures Model() == EdgeSeen(old(Model()), startOk)
    {
      if extiArmed {
        events := events + [EdgeDelivered(now)];
        ScheduleUsbAdcConfirmRaw(startOk);
      }
    }

    method UsbDebounceTimerExpires(mv: BatteryAdc.Millivolts, during: seq<Op>)
      requires Valid() && timer.Some? && timer.value <= now
      modifies this, Cells()
      ensures Valid() && Model() == Next(old(Model()), TimerFires(mv, during))
      decreases during, 3
    {
      timer := None;
      usbDebounceArmed := false;
      ConfirmUsbByAdcRaw(mv, true, during);
    }

    method BeginConfirm(ghost mv: BatteryAdc.Millivolts, ghost byTimer: bool)
      modifies this`usbConfirmBusy, this`extiArmed, this`events
      ensures Model() == Sampling(old(Model()), mv, byTimer)
    {
      usbConfirmBusy := true;
      events := events + [Confirmed(now, byTimer, mv)];
      DisarmUsbExtiRaw();
    }

    method FinishConfirm()
      modifies this`usbConfirmBusy, this`extiArmed
      ensures Model() == old(Model()).(extiArmed := true, confirmBusy := false)
    {
      ArmUsbExtiRaw();
      usbConfirmBusy := false;
    }

    method ConfirmUsbByAdcRaw(mv: BatteryAdc.Millivolts, ghost byTimer: bool, during: seq<Op>)
      requires Valid()
      modifies this, Cells()
      ensures Valid() && Model() == Confirm(old(Model()), mv, byTimer, during)
      decreases during, 2
    {
      if usbConfirmBusy {
        return;
      }
      BeginConfirm(mv, byTimer);
      var usbVoltageMv: uint32 := mv;
      if usbVoltageMv != 0 {
        usbVoltageMv := usbVoltageMv * 2;
      }
      var connected := usbVoltageMv >= USB_DETECT_LIMIT_MV;
      ApplyUsbConnectedRaw(connected, during);
      FinishConfirm();
    }

    method PollUsbStatusRaw(mv: BatteryAdc.Millivolts, during: seq<Op>)
      requires Valid()
      modifies this, Cells()
      ensures Valid() && Model() == Next(old(Model()), UsbPoll(mv, during))
      decreases during, 3
    {
      ConfirmUsbByAdcRaw(mv, false, during);
    }

    method StartMonitor()
      modifies this`started, this`extiArmed
      ensures Model() == old(Model()).(extiArmed := true, started := true)
    {
      started := true;
      ArmUsbExtiRaw();
    }

    method InitMonitor(mv: BatteryAdc.Millivolts, during: seq<Op>)
      requires Valid()
      modifies this, Cells()
      ensures Valid() && Model() == Next(old(Model()), Init(mv, during))
      decreases during, 4
    {
      StartMonitor();
      PollUsbStatusRaw(mv, during);
    }

    method DeInitMonitor()
      modifies this`timer, this`usbDebounceArmed, this`extiArmed, this`started
      ensures Model() == Next(old(Model()), DeInit)
    {
      if usbDebounceArmed {
        timer := None;
        usbDebounceArmed := false;
      }
      DisarmUsbExtiRaw();
      started := false;
    }

    method RegisterUsbNotifyCallback(present: bool)
      modifies this`appCallback
      ensures Model() == Next(old(Model()), Register(present))
    {
      appCallback := present;
    }

    // -------------------------------------------------------------- histories

    method OnChargeLine(op: ChargeStat.ChargeOp)
      modifies this`lastInterruptMs, this`pulseCounter, this`isPulsing, this`chargeStatus, this`chargeState
      ensures Charge() == ChargeStat.Next(old(Charge()), ChargeStat.At(ClockMs(now), op))
    {
      match op {
        case Edge(pinHigh) => ChargeStatIsr(pinHigh);
        case Poll(levelHigh) => var _ := GetChargeStatus(levelHigh);
        case Enable(on) => SetBatteryChargeEnable(on);
      }
    }

    method PerformCharge(op: ChargeStat.ChargeOp)
      modifies this`lastInterruptMs, this`pulseCounter, this`isPulsing, this`chargeStatus, this`chargeState,
               this`chargeHistory
      ensures Model() == ChargeDone(old(Model()), op)
    {
      OnChargeLine(op);
      chargeHistory := chargeHistory + [ChargeStat.At(ClockMs(now), op)];
    }

    method PerformAdc(op: BatteryAdc.AdcOp)
      requires Valid() && !op.UsbReset?
      modifies this, Cells()
      ensures Valid() && Model() == AdcDone(old(Model()), op)
    {
      match op {
        case TempPoll(raw) => var _ := GetBatteryTempStatus(raw);
        case NtcRead(raw) => var _, _ := GetBatteryNtcVoltage(raw);
        case BatRead(raw) => var _, _ := GetBatteryVoltage(raw);
        case VoltPoll(raw) => var _ := GetBatteryVoltStatus(raw);
      }
      adcHistory := adcHistory + [op];
    }

    method PerformOne(op: Op)
      requires Valid()
      modifies this, Cells()
      ensures Valid() && Model() == Next(old(Model()), op)
      decreases op, 5
    {
      match op {
        case Tick(ms) => now := now + ms;
        case ChargeLine(charge) => PerformCharge(charge);
        case Battery(adc) => if adc != BatteryAdc.UsbReset { PerformAdc(adc); }
        case Register(on) => RegisterUsbNotifyCallback(on);
        case UsbEdge(startOk) => UsbDetectIsr(startOk);
        case TimerFires(mv, during) =>
          if timer.Some? && timer.value <= now {
            UsbDebounceTimerExpires(mv, during);
          }
        case UsbPoll(mv, during) => PollUsbStatusRaw(mv, during);
        case Init(mv, during) => InitMonitor(mv, during);
        case DeInit => DeInitMonitor();
      }
    }

    /** Any sequence of operations, also as the body of the notification callback: the object is
        always in the state the model predicts. */
    method Perform(ops: seq<Op>)
      requires Valid()
      modifies this, Cells()
      ensures Valid() && Model() == Run(old(Model()), ops)
      decreases ops, 0
    {
      if ops != [] {
        PerformOne(ops[0]);
        Perform(ops[1..]);
      }
    }
  }
}
