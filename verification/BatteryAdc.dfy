/** The battery side of BspPowerMonitor.cpp: the two filtered ADC channels, the battery-removed
    latch and the temperature status. */
module BatteryAdc {
  import opened Machine
  import Filter = FirstOrderFilter
  import Count = CheckConsecutive

  datatype TempStatus = TempNormal | TempTooHigh | TempTooLow | BatteryRemoved
  datatype VoltStatus = VoltNormal | VoltLowWarning | VoltCriticalEmpty

  datatype Adc = Adc(batMv: uint32, batSeeded: bool, ntcMv: uint32, ntcSeeded: bool,
                     highCount: uint8, lowCount: uint8, temp: TempStatus)

  /** What `ReadVoltageMilliVolts` can return; 0 also stands for a failed conversion. */
  type Millivolts = x: int | 0 <= x < 3300

  datatype AdcOp =
    | TempPoll(raw: Millivolts)
    | NtcRead(raw: Millivolts)
    | BatRead(raw: Millivolts)
    | VoltPoll(raw: Millivolts)
    | UsbReset

  const BATTERY_ADC_DIVIDER_RESTORE: uint32 := 3
  const BATTERY_ADC_OFFSET_MV := 200
  const NTC_ADC_OFFSET_MV := 12
  const BATTERY_VOLT_FILTER_ALPHA: uint8 := 10
  const NTC_VOLT_FILTER_ALPHA: uint8 := 5
  const BAT_DISCHARGE_LOW_WARN_MV := 7000
  const BAT_DISCHARGE_CRITICAL_MV := 6200
  const NTC_BATTERY_REMOVED_MV := 3150
  const NTC_CONSECUTIVE_MAX: uint8 := 3
  const NTC_LOW_VAL_TEMP := 2026
  const NTC_OVER_VAL_TEMP := 591
  const NTC_RECOVER_VAL_TEMP := 660

  const PowerOn := Adc(0, false, 0, false, 0, 0, TempNormal)

  /** A reading with its fixed offset, never below zero. */
  function Offset(rawMv: uint16, offset: int): (mv: uint32)
    requires -0x8000 <= offset < 0x8000
    ensures mv == 0 || mv == rawMv + offset
    ensures rawMv + offset <= mv
  {
    if rawMv + offset <= 0 then 0 else rawMv + offset
  }

  /** The first sample seeds the filter; later ones go through it. */
  function Sampled(sampleMv: uint32, alpha: uint8, filtered: uint32, seeded: bool): uint32 {
    if seeded then Filter.Filtered32(sampleMv, alpha, filtered) else sampleMv
  }

  function NtcSampled(a: Adc, raw: Millivolts): Adc {
    if raw == 0 || a.temp.BatteryRemoved? then a
    else a.(ntcMv := Sampled(Offset(raw, NTC_ADC_OFFSET_MV), NTC_VOLT_FILTER_ALPHA, a.ntcMv, a.ntcSeeded),
            ntcSeeded := true)
  }

  /** The filtered NTC value a successful read reports. */
  function NtcReported(a: Adc, raw: Millivolts): uint32 {
    if a.temp.BatteryRemoved? && !a.ntcSeeded then Offset(raw, NTC_ADC_OFFSET_MV)
    else NtcSampled(a, raw).ntcMv
  }

  function BatterySample(raw: Millivolts): uint32 {
    Offset(raw * BATTERY_ADC_DIVIDER_RESTORE, BATTERY_ADC_OFFSET_MV)
  }

  function BatSampled(a: Adc, raw: Millivolts): Adc {
    if raw == 0 || a.temp.BatteryRemoved? then a
    else a.(batMv := Sampled(BatterySample(raw), BATTERY_VOLT_FILTER_ALPHA, a.batMv, a.batSeeded),
            batSeeded := true)
  }

  function VoltLevel(mv: int): VoltStatus {
    if mv < BAT_DISCHARGE_CRITICAL_MV then VoltCriticalEmpty
    else if mv < BAT_DISCHARGE_LOW_WARN_MV then VoltLowWarning
    else VoltNormal
  }

  /** The status for a temperature reading while a battery is present. */
  function NextTemp(temp: TempStatus, ntcMv: int): TempStatus {
    if ntcMv >= NTC_LOW_VAL_TEMP then TempTooLow
    else if temp.TempTooHigh? && ntcMv <= NTC_RECOVER_VAL_TEMP then TempNormal
    else if ntcMv <= NTC_OVER_VAL_TEMP then TempTooHigh
    else TempNormal
  }

  function TempPolled(a: Adc, raw: Millivolts): Adc {
    if raw == 0 then a else
    var open := raw >= NTC_BATTERY_REMOVED_MV;
    var high := Count.Counted(open, a.highCount, NTC_CONSECUTIVE_MAX);
    var low := Count.Counted(!open, a.lowCount, NTC_CONSECUTIVE_MAX);
    if low == NTC_CONSECUTIVE_MAX then
      // three present samples: start afresh from this one
      var ntcMv := Offset(raw, NTC_ADC_OFFSET_MV);
      Adc(0, false, ntcMv, true, 0, low,
          NextTemp(if a.temp.BatteryRemoved? then TempNormal else a.temp, ntcMv))
    else
      var seen := NtcSampled(a, raw).(highCount := high, lowCount := low);
      if high == NTC_CONSECUTIVE_MAX then
        seen.(temp := BatteryRemoved, ntcSeeded := false, batSeeded := false)
      else if a.temp.BatteryRemoved? then seen
      else seen.(temp := NextTemp(a.temp, seen.ntcMv))
  }

  function Reset(a: Adc): Adc {
    Adc(0, false, 0, false, 0, 0, a.temp)
  }

  function Next(a: Adc, op: AdcOp): Adc {
    match op
    case TempPoll(raw) => TempPolled(a, raw)
    case NtcRead(raw) => NtcSampled(a, raw)
    case BatRead(raw) => BatSampled(a, raw)
    case VoltPoll(raw) => BatSampled(a, raw)
    case UsbReset => Reset(a)
  }

  function Run(a: Adc, ops: seq<AdcOp>): Adc
    decreases |ops|
  {
    if ops == [] then a else Next(Run(a, ops[..|ops| - 1]), ops[|ops| - 1])
  }

  // ---------------------------------------------------------------- ranges

  const NTC_MAX_MV := 3299 + 12
  const BATTERY_MAX_MV := 3299 * 3 + 200

  /** The filters hold what the ADC can deliver, so the 16-bit results are exact. */
  predicate InRange(a: Adc) {
    && a.ntcMv <= NTC_MAX_MV && a.batMv <= BATTERY_MAX_MV
    && a.highCount <= NTC_CONSECUTIVE_MAX && a.lowCount <= NTC_CONSECUTIVE_MAX
  }

  lemma SampledInRange(sampleMv: uint32, alpha: uint8, filtered: uint32, seeded: bool, hi: uint32)
    requires alpha != 0 && hi < WORD16 && sampleMv <= hi && filtered <= hi
    ensures Sampled(sampleMv, alpha, filtered, seeded) <= hi
    ensures seeded ==> Sampled(sampleMv, alpha, filtered, seeded) == Filter.Filtered(sampleMv, alpha, filtered)
  {
    Filter.ProductBound(Filter.Gap(sampleMv, filtered), alpha);
    Filter.FilteredExactlyWithoutWrap(sampleMv, alpha, filtered);
    Filter.FilteredBetween(sampleMv, alpha, filtered, 0, hi);
  }

  lemma NtcInRange(a: Adc, raw: Millivolts)
    requires InRange(a)
    ensures InRange(NtcSampled(a, raw)) && NtcReported(a, raw) <= NTC_MAX_MV
  {
    SampledInRange(Offset(raw, NTC_ADC_OFFSET_MV), NTC_VOLT_FILTER_ALPHA, a.ntcMv, a.ntcSeeded, NTC_MAX_MV);
  }

  lemma BatInRange(a: Adc, raw: Millivolts)
    requires InRange(a)
    ensures InRange(BatSampled(a, raw)) && BatterySample(raw) <= BATTERY_MAX_MV
  {
    SampledInRange(BatterySample(raw), BATTERY_VOLT_FILTER_ALPHA, a.batMv, a.batSeeded, BATTERY_MAX_MV);
  }

  lemma StepInRange(a: Adc, op: AdcOp)
    requires InRange(a)
    ensures InRange(Next(a, op))
  {
    match op
    case TempPoll(raw) => NtcInRange(a, raw);
    case NtcRead(raw) => NtcInRange(a, raw);
    case BatRead(raw) => BatInRange(a, raw);
    case VoltPoll(raw) => BatInRange(a, raw);
    case UsbReset =>
  }

  lemma {:induction false} RunInRange(a: Adc, ops: seq<AdcOp>)
    requires InRange(a)
    ensures InRange(Run(a, ops))
    decreases |ops|
  {
    if ops != [] {
      RunInRange(a, ops[..|ops| - 1]);
      StepInRange(Run(a, ops[..|ops| - 1]), ops[|ops| - 1]);
    }
  }

  // ---------------------------------------------------------------- the battery-removed latch

  /** What the latch can see of a history: the side of each successful temperature sample, and
      the resets. Failed reads leave no mark. */
  datatype Mark = High | Low | Unplug

  function Marks(ops: seq<AdcOp>): seq<Mark>
    decreases |ops|
  {
    if ops == [] then [] else
    var before := Marks(ops[..|ops| - 1]);
    match ops[|ops| - 1]
    case TempPoll(raw) =>
      if raw == 0 then before
      else before + [if raw >= 3150 then High else Low]
    case UsbReset => before + [Unplug]
    case _ => before
  }

  predicate EndsWith(marks: seq<Mark>, side: Mark, n: nat) {
    n <= |marks| && forall i :: |marks| - n <= i < |marks| ==> marks[i] == side
  }

  /** The side of the latest three equal samples in a row. */
  predicate Removed(marks: seq<Mark>)
    decreases |marks|
  {
    if EndsWith(marks, High, 3) then true
    else if EndsWith(marks, Low, 3) then false
    else marks != [] && Removed(marks[..|marks| - 1])
  }

  predicate CountsRun(count: uint8, marks: seq<Mark>, side: Mark) {
    && (count >= 1 <==> EndsWith(marks, side, 1))
    && (count >= 2 <==> EndsWith(marks, side, 2))
    && (count >= 3 <==> EndsWith(marks, side, 3))
  }

  lemma MarkCounted(count: uint8, marks: seq<Mark>, side: Mark, mark: Mark)
    requires count <= NTC_CONSECUTIVE_MAX && CountsRun(count, marks, side)
    ensures CountsRun(Count.Counted(mark == side, count, NTC_CONSECUTIVE_MAX), marks + [mark], side)
  {
    var longer := marks + [mark];
    assert longer[|marks|] == mark;
    forall n: nat | 1 <= n <= 3
      ensures EndsWith(longer, side, n) <==> mark == side && EndsWith(marks, side, n - 1)
    {
      if mark == side && EndsWith(marks, side, n - 1) {
        forall i | |longer| - n <= i < |longer| ensures longer[i] == side {
          assert i < |marks| ==> marks[i] == side;
        }
      }
      if EndsWith(longer, side, n) {
        forall i | |marks| - (n - 1) <= i < |marks| ensures marks[i] == side {
          assert longer[i] == side;
        }
      }
    }
  }

  predicate Latched(a: Adc, marks: seq<Mark>) {
    && CountsRun(a.highCount, marks, High) && CountsRun(a.lowCount, marks, Low)
    && (a.temp.BatteryRemoved? <==> Removed(marks))
  }

  lemma SampleLatched(a: Adc, marks: seq<Mark>, raw: Millivolts)
    requires InRange(a) && Latched(a, marks) && raw != 0
    ensures Latched(TempPolled(a, raw), marks + [if raw >= 3150 then High else Low])
  {
    var mark := if raw >= 3150 then High else Low;
    MarkCounted(a.highCount, marks, High, mark);
    MarkCounted(a.lowCount, marks, Low, mark);
    assert (marks + [mark])[..|marks|] == marks;
    assert (marks + [mark])[|marks|] == mark;
  }

  lemma ResetLatched(a: Adc, marks: seq<Mark>)
    requires Latched(a, marks)
    ensures Latched(Reset(a), marks + [Unplug])
  {
    assert (marks + [Unplug])[..|marks|] == marks;
    assert (marks + [Unplug])[|marks|] == Unplug;
  }

  lemma {:induction false} RunLatched(ops: seq<AdcOp>)
    ensures InRange(Run(PowerOn, ops)) && Latched(Run(PowerOn, ops), Marks(ops))
    decreases |ops|
  {
    RunInRange(PowerOn, ops);
    if ops != [] {
      var before, last := ops[..|ops| - 1], ops[|ops| - 1];
      RunLatched(before);
      match last {
        case TempPoll(raw) => if raw != 0 { SampleLatched(Run(PowerOn, before), Marks(before), raw); }
        case UsbReset => ResetLatched(Run(PowerOn, before), Marks(before));
        case _ =>
      }
    }
  }

  /** After any history the battery counts as removed exactly when the latest three samples in a
      row on one side, unbroken by a reset, were on the open-circuit side. */
  lemma RemovedExactlyAfterThree(ops: seq<AdcOp>)
    ensures Run(PowerOn, ops).temp.BatteryRemoved? <==> Removed(Marks(ops))
  {
    RunLatched(ops);
  }

  lemma MarksGrow(ops: seq<AdcOp>)
    requires ops != []
    ensures var before, marks := Marks(ops[..|ops| - 1]), Marks(ops);
            marks == before || (marks != [] && marks[..|marks| - 1] == before)
  {
  }

  /** Samples never add up across a glitch: however the history goes on, as long as at no point
      three samples in a row are on the other side, the verdict stands. */
  lemma {:induction false} GlitchesIgnored(ops: seq<AdcOp>, more: seq<AdcOp>)
    requires var other := if Run(PowerOn, ops).temp.BatteryRemoved? then Low else High;
             forall i :: |ops| < i <= |ops + more| ==> !EndsWith(Marks((ops + more)[..i]), other, 3)
    ensures Run(PowerOn, ops + more).temp.BatteryRemoved? == Run(PowerOn, ops).temp.BatteryRemoved?
    decreases |more|
  {
    if more == [] {
      assert ops + more == ops;
    } else {
      var shorter, all := more[..|more| - 1], ops + more;
      assert all[..|all| - 1] == ops + shorter && all[..|all|] == all;
      forall i | |ops| < i <= |ops + shorter| ensures (ops + shorter)[..i] == all[..i] {
      }
      GlitchesIgnored(ops, shorter);
      RemovedExactlyAfterThree(all);
      RemovedExactlyAfterThree(ops + shorter);
      MarksGrow(all);
    }
  }

  // ---------------------------------------------------------------- recovery

  /** The poll that leaves BatteryRemoved forgets everything but its own sample. */
  lemma RecoveryForgets(a: Adc, raw: Millivolts)
    requires a.temp.BatteryRemoved? && !TempPolled(a, raw).temp.BatteryRemoved?
    ensures TempPolled(a, raw) ==
            Adc(0, false, raw + NTC_ADC_OFFSET_MV, true, 0, NTC_CONSECUTIVE_MAX,
                NextTemp(TempNormal, raw + NTC_ADC_OFFSET_MV))
  {
  }

  lemma {:induction false} RunSplits(a: Adc, ops: seq<AdcOp>, later: seq<AdcOp>)
    ensures Run(a, ops + later) == Run(Run(a, ops), later)
    decreases |later|
  {
    if later == [] {
      assert ops + later == ops;
    } else {
      assert (ops + later)[..|ops + later| - 1] == ops + later[..|later| - 1];
      RunSplits(a, ops, later[..|later| - 1]);
    }
  }

  /** Two monitors with different pasts that recover on the same sample agree from then on. */
  lemma RecoveredRunsAgree(a: Adc, a': Adc, past: seq<AdcOp>, past': seq<AdcOp>, raw: Millivolts, later: seq<AdcOp>)
    requires Run(a, past).temp.BatteryRemoved? && Run(a', past').temp.BatteryRemoved?
    requires !Run(a, past + [TempPoll(raw)]).temp.BatteryRemoved?
    requires !Run(a', past' + [TempPoll(raw)]).temp.BatteryRemoved?
    ensures Run(a, past + [TempPoll(raw)] + later) == Run(a', past' + [TempPoll(raw)] + later)
  {
    assert (past + [TempPoll(raw)])[..|past|] == past;
    assert (past' + [TempPoll(raw)])[..|past'|] == past';
    RecoveryForgets(Run(a, past), raw);
    RecoveryForgets(Run(a', past'), raw);
    RunSplits(a, past + [TempPoll(raw)], later);
    RunSplits(a', past' + [TempPoll(raw)], later);
  }

  /** Below 6200 mV critical, from there below 7000 mV low, and normal from 7000 mV on. */
  lemma VoltageLevels(mv: int)
    ensures VoltLevel(mv).VoltCriticalEmpty? <==> mv < 6200
    ensures VoltLevel(mv).VoltLowWarning? <==> 6200 <= mv < 7000
    ensures VoltLevel(mv).VoltNormal? <==> mv >= 7000
  {
  }

  // ---------------------------------------------------------------- what the comments promise

  /** The status with the recovery band the thresholds describe: once too hot, too hot until
      the reading rises above the recovery value. */
  function BandedTemp(temp: TempStatus, ntcMv: int): TempStatus {
    if ntcMv >= 2026 then TempTooLow
    else if ntcMv <= 591 then TempTooHigh
    else if temp.TempTooHigh? && ntcMv <= 660 then TempTooHigh
    else TempNormal
  }

  /** A successful poll that finds a battery keeps that band exactly when the battery was not
      already too hot or the reading is above the recovery value. */
  lemma BandKeptExactly(a: Adc, raw: Millivolts)
    requires raw != 0 && !TempPolled(a, raw).temp.BatteryRemoved?
    ensures var after := TempPolled(a, raw);
            var base := if a.temp.BatteryRemoved? then TempNormal else a.temp;
            after.temp == BandedTemp(base, after.ntcMv) <==> !a.temp.TempTooHigh? || after.ntcMv > 660
  {
  }

  predicate NoSuccessfulPoll(ops: seq<AdcOp>) {
    forall i :: 0 <= i < |ops| && ops[i].TempPoll? ==> ops[i].raw == 0
  }

  lemma {:induction false} OthersKeepTemp(a: Adc, ops: seq<AdcOp>)
    requires NoSuccessfulPoll(ops)
    ensures Run(a, ops).temp == a.temp
    decreases |ops|
  {
    if ops != [] {
      OthersKeepTemp(a, ops[..|ops| - 1]);
    }
  }

  /** Until a poll first succeeds, the status is normal. */
  lemma NormalUntilPolled(ops: seq<AdcOp>)
    requires NoSuccessfulPoll(ops)
    ensures Run(PowerOn, ops).temp == TempNormal
  {
    OthersKeepTemp(PowerOn, ops);
  }

  /** In any history, two successive successful polls never both report too hot, whatever else
      is read or reset and however many polls fail in between. */
  lemma NeverTooHotTwice(ops: seq<AdcOp>, between: seq<AdcOp>, raw: Millivolts)
    requires raw != 0 && NoSuccessfulPoll(between)
    ensures Run(PowerOn, ops).temp.TempTooHigh? ==> !Run(PowerOn, ops + between + [TempPoll(raw)]).temp.TempTooHigh?
  {
    RunSplits(PowerOn, ops, between);
    OthersKeepTemp(Run(PowerOn, ops), between);
    assert (ops + between + [TempPoll(raw)])[..|ops + between|] == ops + between;
  }

  predicate ThreeLast(ops: seq<AdcOp>, side: Mark) {
    EndsWith(Marks(ops), side, 3)
  }

  /** After a history and a successful sample: what the sample and the latch did. */
  lemma PolledLatch(ops: seq<AdcOp>, raw: Millivolts)
    requires raw != 0
    ensures var before, all := Run(PowerOn, ops), ops + [TempPoll(raw)];
            var after := Run(PowerOn, all);
            && InRange(before) && after == TempPolled(before, raw)
            && (before.temp.BatteryRemoved? <==> Removed(Marks(ops)))
            && (after.temp.BatteryRemoved? <==> Removed(Marks(all)))
            && (ThreeLast(all, Low) <==> after.lowCount == NTC_CONSECUTIVE_MAX)
            && (ThreeLast(all, High) <==> after.highCount == NTC_CONSECUTIVE_MAX)
  {
    assert (ops + [TempPoll(raw)])[..|ops|] == ops;
    RunLatched(ops);
    RunLatched(ops + [TempPoll(raw)]);
  }

  /** The latest event that counts for the NTC filter was a sample taken in, not a clearing. */
  predicate NtcSeeded(ops: seq<AdcOp>)
    decreases |ops|
  {
    if ops == [] then false
    else
      var front := ops[..|ops| - 1];
      match ops[|ops| - 1]
      case TempPoll(raw) =>
        if raw == 0 then NtcSeeded(front)
        else !ThreeLast(ops, High) && (ThreeLast(ops, Low) || !Removed(Marks(front)) || NtcSeeded(front))
      case NtcRead(raw) => (raw != 0 && !Removed(Marks(front))) || NtcSeeded(front)
      case BatRead(_) => NtcSeeded(front)
      case VoltPoll(_) => NtcSeeded(front)
      case UsbReset => false
  }

  /** The latest event that counts for the battery filter was a successful read with the battery
      present, and not a reset or a poll that completed three samples on either side. */
  predicate BatterySeeded(ops: seq<AdcOp>)
    decreases |ops|
  {
    if ops == [] then false
    else
      var front := ops[..|ops| - 1];
      match ops[|ops| - 1]
      case TempPoll(raw) => BatterySeeded(front) && (raw == 0 || !(ThreeLast(ops, High) || ThreeLast(ops, Low)))
      case NtcRead(_) => BatterySeeded(front)
      case BatRead(raw) => (raw != 0 && !Removed(Marks(front))) || BatterySeeded(front)
      case VoltPoll(raw) => (raw != 0 && !Removed(Marks(front))) || BatterySeeded(front)
      case UsbReset => false
  }

  lemma PollSeeds(ops: seq<AdcOp>, raw: Millivolts)
    requires var a := Run(PowerOn, ops);
             a.ntcSeeded == NtcSeeded(ops) && a.batSeeded == BatterySeeded(ops)
    ensures var all := ops + [TempPoll(raw)];
            var a := Run(PowerOn, all);
            a.ntcSeeded == NtcSeeded(all) && a.batSeeded == BatterySeeded(all)
  {
    assert (ops + [TempPoll(raw)])[..|ops|] == ops;
    if raw != 0 {
      PolledLatch(ops, raw);
    }
  }

  /** In every history the seed flags say exactly that. */
  lemma {:induction false} SeededExactly(ops: seq<AdcOp>)
    ensures Run(PowerOn, ops).ntcSeeded == NtcSeeded(ops)
    ensures Run(PowerOn, ops).batSeeded == BatterySeeded(ops)
    decreases |ops|
  {
    if ops != [] {
      var front, last := ops[..|ops| - 1], ops[|ops| - 1];
      SeededExactly(front);
      RemovedExactlyAfterThree(front);
      if last.TempPoll? {
        assert ops == front + [last];
        PollSeeds(front, last.raw);
      }
    }
  }

  lemma SampledIs(sample: uint32, alpha: uint8, filtered: uint32, seeded: bool)
    ensures Sampled(sample, alpha, filtered, seeded)
         == if seeded then Filter.Filtered32(sample, alpha, filtered) else sample
  {
  }

  /** The reading a successful poll judges, when it does not find the battery removed. */
  lemma PolledReading(a: Adc, raw: Millivolts)
    requires InRange(a) && raw != 0
    ensures var p := TempPolled(a, raw);
            && (p.lowCount == NTC_CONSECUTIVE_MAX ==> !p.temp.BatteryRemoved? && p.ntcMv == raw + 12)
            && (p.lowCount != NTC_CONSECUTIVE_MAX && !p.temp.BatteryRemoved? ==>
                  p.ntcMv == Sampled(raw + 12, 5, a.ntcMv, a.ntcSeeded))
            && (!p.temp.BatteryRemoved? ==>
                  p.temp == NextTemp(if a.temp.BatteryRemoved? then TempNormal else a.temp, p.ntcMv))
  {
  }

  /** For every history and successful poll that does not find the battery removed: the temperature
      is judged on the raw sample exactly when it completes three present samples in a row, and
      otherwise on the filter's output, which is the sample only if the filter is not seeded. */
  lemma SteadyTemperatureUnfiltered(ops: seq<AdcOp>, raw: Millivolts)
    requires raw != 0
    ensures var before, all := Run(PowerOn, ops), ops + [TempPoll(raw)];
            var after := Run(PowerOn, all);
            var base := if before.temp.BatteryRemoved? then TempNormal else before.temp;
            && (ThreeLast(all, Low) ==> !after.temp.BatteryRemoved?)
            && (!after.temp.BatteryRemoved? ==>
                  && after.ntcMv == (if ThreeLast(all, Low) || !NtcSeeded(ops) then raw + 12
                                     else Filter.Filtered32(raw + 12, 5, before.ntcMv))
                  && after.temp == NextTemp(base, after.ntcMv))
  {
    PolledLatch(ops, raw);
    SeededExactly(ops);
    PolledReading(Run(PowerOn, ops), raw);
    SampledIs(raw + 12, 5, Run(PowerOn, ops).ntcMv, NtcSeeded(ops));
  }

  /** For every history and successful poll that finds a battery: too cold from 2026 mV up, too hot
      up to 591 mV unless it was too hot already, and normal in every other case. */
  lemma TemperatureStatusExactly(ops: seq<AdcOp>, raw: Millivolts)
    requires raw != 0 && !Run(PowerOn, ops + [TempPoll(raw)]).temp.BatteryRemoved?
    ensures var before, after := Run(PowerOn, ops), Run(PowerOn, ops + [TempPoll(raw)]);
            && (after.temp.TempTooLow? <==> after.ntcMv >= 2026)
            && (after.temp.TempTooHigh? <==> after.ntcMv <= 591 && !before.temp.TempTooHigh?)
            && (after.temp.TempNormal? <==>
                591 < after.ntcMv < 2026 || (after.ntcMv <= 591 && before.temp.TempTooHigh?))
  {
    SteadyTemperatureUnfiltered(ops, raw);
  }

  /** For every history and successful NTC read: frozen while the battery is removed, the sample
      itself while nothing is seeded, filtered otherwise. */
  lemma NtcReportExactly(ops: seq<AdcOp>, raw: Millivolts)
    requires raw != 0
    ensures var before := Run(PowerOn, ops);
            NtcReported(before, raw) ==
              if !NtcSeeded(ops) then raw + 12
              else if Removed(Marks(ops)) then before.ntcMv
              else Filter.Filtered32(raw + 12, 5, before.ntcMv)
    ensures Run(PowerOn, ops + [NtcRead(raw)]).ntcMv ==
              if Removed(Marks(ops)) then Run(PowerOn, ops).ntcMv else NtcReported(Run(PowerOn, ops), raw)
  {
    assert (ops + [NtcRead(raw)])[..|ops|] == ops;
    SeededExactly(ops);
    RemovedExactlyAfterThree(ops);
    SampledIs(raw + 12, 5, Run(PowerOn, ops).ntcMv, NtcSeeded(ops));
  }

  lemma PresentReading(a: Adc, volt: Millivolts)
    requires volt != 0 && !a.temp.BatteryRemoved?
    ensures Next(a, BatRead(volt)).batMv ==
              if a.batSeeded then Filter.Filtered32(3 * volt + 200, 10, a.batMv) else 3 * volt + 200
  {
    assert BatterySample(volt) == 3 * volt + 200;
  }

  lemma ReadOrPolled(ops: seq<AdcOp>, volt: Millivolts)
    requires volt != 0
    ensures Run(PowerOn, ops + [BatRead(volt)]) == Next(Run(PowerOn, ops), BatRead(volt))
    ensures Run(PowerOn, ops + [VoltPoll(volt)]) == Run(PowerOn, ops + [BatRead(volt)])
  {
    assert (ops + [BatRead(volt)])[..|ops|] == ops && (ops + [VoltPoll(volt)])[..|ops|] == ops;
  }

  /** For every history and successful voltage read with the battery present: three times the
      sample plus 200 mV, filtered exactly when a read has come since the last clearing. */
  lemma VoltageFilteredExactly(ops: seq<AdcOp>, volt: Millivolts)
    requires volt != 0 && !Removed(Marks(ops))
    ensures Run(PowerOn, ops + [BatRead(volt)]).batMv ==
              if BatterySeeded(ops) then Filter.Filtered32(3 * volt + 200, 10, Run(PowerOn, ops).batMv)
              else 3 * volt + 200
    ensures Run(PowerOn, ops + [VoltPoll(volt)]) == Run(PowerOn, ops + [BatRead(volt)])
  {
    ReadOrPolled(ops, volt);
    SeededExactly(ops);
    RemovedExactlyAfterThree(ops);
    PresentReading(Run(PowerOn, ops), volt);
  }

  /** So after a poll that completes three present samples, which in a steady history is every
      poll, a voltage read reports its own sample. */
  lemma SteadyVoltageUnfiltered(ops: seq<AdcOp>, raw: Millivolts, volt: Millivolts)
    requires raw != 0 && volt != 0 && ThreeLast(ops + [TempPoll(raw)], Low)
    ensures Run(PowerOn, ops + [TempPoll(raw)] + [BatRead(volt)]).batMv == 3 * volt + 200
  {
    var polled := ops + [TempPoll(raw)];
    assert polled[..|ops|] == ops;
    PolledLatch(ops, raw);
    VoltageFilteredExactly(polled, volt);
  }
}
