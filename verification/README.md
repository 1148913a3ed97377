# Verified model of the lamp firmware

A Dafny project about the parts of the lamp firmware that keep state: how the Matter light
switches, how the battery, the charger and the USB plug are watched, how colours reach the
SM15135E driver chip, how the shared analog bus is handed out, and how colour attributes are
paired. `dafny verify dfyconfig.toml` checks all of it.

Each part is built the same way. A *model* gives the behaviour as functions on values, with runs
over arbitrary sequences of operations. An *object* is a class with the source's fields, whose
methods update them in the source's order and are proved to take exactly the model's step; its
`Perform` method is proved to take any sequence of calls to the state of the model's run. The
*proofs* are about all runs of the model, and so about the object.

| part | model and proofs | object |
|---|---|---|
| timed on/off machine with one shared timer and an event queue | `LightingModel`, `LightingProofs` | `LightingManager.dfy` |
| low-pass filter, run counters | `FirstOrderFilter`, `CheckConsecutive` | the same files |
| charge-fault detector, battery channels, USB debounce | `ChargeStat`, `BatteryAdc`, `PowerMonitorModel`, `PowerMonitorProofs` | `BspPowerMonitor.dfy` |
| SM15135E frames | `BitStrings`, `Sm15135eFrame` | `HalSpiSm15135e.dfy` |
| main light and its suspend gate | `MainLightModel`, `MainLightProofs` | `BspLedWrgb.dfy` |
| low-power coordinator above the gate | `LowPower` | `LowPowerCoordinator.dfy` |
| analog-bus allocation, conversions | `AnalogBus` | `HalIadc.dfy` |
| attribute callback: on/off, level, X/Y pairing, hue, saturation, colour temperature | `ColorCallbacks` | `DataModelCallbacks.dfy` |

Integers have the source's width (`Machine`): wherever the source can wrap or truncate, `Word16`
or `Word32` stands at that place. Hardware appears as logged effects (transmissions, posted
events, notices), and what hardware decides (samples, pin levels, timer expiry, whether a timer
start succeeds, what a callback does) is a parameter over which the results quantify. Every
function of the source is one atomic step.

## Where the code and its description part

The model follows the code. These results show where that differs from what the comments, the
names or the data sheet lead one to expect; each gives the exact condition.

- Using auto turn-off and an off effect together can strand the lamp: lit, effect armed, nothing
  pending, every OFF ignored (`MixedFeaturesStrand`, `StrandedIgnoresOff`). `StepLive` and
  `RunLive` say exactly which four branches can lose a pending transition or flag; one of them is
  an unknown off effect, whose zero delay does not start the timer.
- Auto turn-off, once on, need not turn the lamp off. It is armed only when the actuator completes
  an ON: an ON that finds the lamp in mid-transition, or a synchronisation, gets past that, a lamp
  already lit is not armed at all, and a zero delay arms it without starting a timer.
  `LitDespiteAutoExactly` says that these are all the cases; `RepeatedOnSkipsAuto` and
  `ZeroDelayStaysLit` are runs from power-on.
- With auto turn-off armed, an ON during an off effect turns the lamp off (`LateOnEndsDark`);
  `OutcomeByHistory` gives the outcome of every run with both features that drops nothing.
- A handler posted for one transition and handled during the next completes that one early and
  leaves its timer running (`RunJustified`).
- There is no recovery band on the hot side: the recovery test is `<= 660`, so a battery that
  stays hot is reported hot at most every other successful poll (`BandKeptExactly`,
  `NeverTooHotTwice`).
- The comment at `User/bsp/src/BspPowerMonitor.cpp:515` says temperature is judged on the filtered
  value. It is, except at a poll that completes three present samples in a row, and in a steady
  history that is every poll (`SteadyTemperatureUnfiltered`). Such a poll also clears the battery
  voltage filter, so that a voltage is filtered only if another read came since
  (`VoltageFilteredExactly`, `SteadyVoltageUnfiltered`).
- The first USB notice is not always "connected": the callback is registered after the monitor has
  already sampled the plug, so it is the opposite of the status at that moment
  (`NotificationsAlternate`).
- A colour pair completed by its Y half is handed on through a pointer to its X half, and the
  stored X and Y are never updated; the colour posted to the application task is then the pair
  only in the cases `PostedPairExactly` lists. The bridge gets the right pair in every case
  (`PairsForwarded`).
- The stored colour temperature is never updated either, so a write equal to the power-on value is
  swallowed whatever the lamp shows (`CtFollowsExactly`).
- `ReadChipAvddMilliVolts` selects the supply, but the conversion it calls selects the channel's
  own pin again.
- `SleepPrepared` is described as "peripherals suspended". A colour write in that state, even a dark
  one, or `EnsurePeripheralsReady` resumes them without telling the coordinator, which then does
  not suspend them again on idle time alone, only after another hold has come and gone; a USB
  notice from the interrupt does the opposite for up to a second (`StepAligned`, `LeakStays`,
  `HoldCuresLeak`, `NoticeHeals`).
- A user wake sets the wake hold to two seconds, so it cuts a running Matter hold of up to eight
  short (`WakeHoldFollows`, `UserWakeCutsMatterHold`).
- `MarkReadyAfterBoot` on a suspended bus opens the gate without a reset; the next colour is still
  sent twice (`FirstLightAfterSuspend`). The sampling clock stays off with it (`ClockExactly`).
- Releasing one analog channel also releases slots taken by another channel of the same group, or
  by another peripheral (`DisturbedExactlyIfShared`, `InitAndDeInitExactly`). The board's three
  channels lie in three groups and are safe (`BoardChannelsIndependent`).
- A frame is doubled only after a Sleep frame. The first colour after power-on is sent once, which
  is enough exactly if the power-on reset leaves the chip awake (`FirstColourNeedsAwakeChip`).

## Model

| member | source | states |
|---|---|---|
| `LightingProofs.StepLive` | `MatterLightOverThread/src/LightingManager.cpp:158-402` | For every state and queue: a step leaves something on its way that finishes every unfinished transition and every armed flag, if and only if it is not one of the four branches that drop it (unknown effect, repeated ON while auto turn-off waits, expiry with both flags armed, auto turn-off with a zero delay) |
| `LightingProofs.RunLive` | `MatterLightOverThread/src/LightingManager.cpp:158-402` | The same over whole histories with every mix of features: the machine is live throughout exactly when no step takes one of those branches |
| `LightingProofs.ProgressWithoutAuto` | `MatterLightOverThread/src/LightingManager.cpp:158-402` | With auto turn-off never enabled (as Init leaves it) and known effects, the machine is never stuck in mid-transition, however stale the posted handlers are |
| `LightingProofs.ProgressWithoutEffect` | `MatterLightOverThread/src/LightingManager.cpp:158-361` | With no off effect and a startable auto turn-off delay it is never stuck either, and auto turn-off is never armed on a settled lamp |
| `LightingProofs.MixedFeaturesStrand` | `MatterLightOverThread/src/LightingManager.cpp:263-325` | Eight steps from power-on that use auto turn-off and an off effect together end with the effect armed, the lamp lit and nothing pending |
| `LightingProofs.StrandedIgnoresOff` | `MatterLightOverThread/src/LightingManager.cpp:136-402` | A lamp in that state stays in it over every later history exactly as long as no ON, no synchronisation and no off effect with a delay comes; every OFF, level change, setting and unknown effect is ignored |
| `LightingProofs.StepHeading` | `MatterLightOverThread/src/LightingManager.cpp:136-402` | One step with auto turn-off idle moves where the lamp is heading exactly to what the step asked for |
| `LightingProofs.OutcomeIsLatestIntent` | `MatterLightOverThread/src/LightingManager.cpp:158-402` | Whenever nothing is pending, the lamp is in the completed state of the latest ON, OFF, off-with-effect or synchronisation, with no effect armed, whatever interleaved |
| `LightingProofs.EveryRunFromBoot` | `MatterLightOverThread/src/LightingManager.cpp:111-402` | The two results above for every history from power-on |
| `LightingProofs.SettlesLitExactly` | `MatterLightOverThread/src/LightingManager.cpp:136-402` | With both features in any use: after any history, every way of settling that drops nothing ends lit exactly if the state reached is lit or on its way with nothing armed that turns it off |
| `LightingProofs.StepStaysLit` | `MatterLightOverThread/src/LightingManager.cpp:136-402` | In every state, exactly which steps gain that and which lose it; expiries and handlers do neither |
| `LightingProofs.OutcomeByHistory` | `MatterLightOverThread/src/LightingManager.cpp:136-402` | With both features in any use: a run that never drops anything settles with no flag armed, lit exactly if some step gained it and none lost it since, or it held from the start and was never lost |
| `LightingProofs.SettlesLitWithoutEffect` | `MatterLightOverThread/src/LightingManager.cpp:136-361` | Without off effects and with a startable delay nothing is dropped, so every way of settling ends as the state reached says |
| `LightingProofs.LateOnEndsDark` | `MatterLightOverThread/src/LightingManager.cpp:167-179` | Nine steps from power-on: an ON during an off effect with auto turn-off armed settles dark |
| `LightingProofs.LitDespiteAutoExactly` | `MatterLightOverThread/src/LightingManager.cpp:158-361` | With auto turn-off on throughout and no off effect, for every delay: a settled lamp is lit exactly if it was synchronised to ON, or given an ON in mid-transition, and not turned off since; or was lit with nothing armed at the start and never turned off; or was armed with a zero delay and not disarmed since, which a startable delay rules out |
| `LightingProofs.RepeatedOnSkipsAuto` | `MatterLightOverThread/src/LightingManager.cpp:180-189` | Two ONs in a row from power-on with a five-second auto turn-off settle lit with nothing armed |
| `LightingProofs.ZeroDelayStaysLit` | `MatterLightOverThread/src/LightingManager.cpp:351-359` | With the duration 0 that Init leaves, one ON settles lit with auto turn-off armed and never started |
| `LightingProofs.InternalStepConsumes` | `MatterLightOverThread/src/LightingManager.cpp:263-361` | Every expiry and every handler that is due lowers the potential, for all flags and settings |
| `LightingProofs.InternalRunsEnd` | `MatterLightOverThread/src/LightingManager.cpp:263-361` | Without commands at most queue length plus six steps do anything: no internal run goes on for ever |
| `LightingProofs.Schedule` | `MatterLightOverThread/src/LightingManager.cpp:263-361` | From every state there is an internal schedule, no longer than the potential, after which nothing is pending |
| `LightingProofs.EverySettlingAgrees` | `MatterLightOverThread/src/LightingManager.cpp:263-361` | Every way of settling after the same history ends in the same completed state |
| `LightingProofs.SyncBeatsStaleHandlers` | `MatterLightOverThread/src/LightingManager.cpp:136-146` | After a synchronisation from any state and queue, no pending expiry or handler changes the completed state or arms a flag |
| `LightingProofs.EveryRunReported` | `MatterLightOverThread/src/LightingManager.cpp:236-239` | In every history each completion notice follows, as latest switching notice, the start of that same action |
| `LightingProofs.StepDelay` | `MatterLightOverThread/src/LightingManager.cpp:158-402` | Every step starts the timer with exactly the milliseconds its kind asks for (10 for a movement; 800, 12800 or 1500 for an off effect; the seconds times 1000 in 32 bits for auto turn-off) or leaves the delay alone |
| `LightingProofs.StepTimer` | `MatterLightOverThread/src/LightingManager.cpp:136-402` | In every state the timer runs after a step exactly if the step started it, or it ran and the step is not one of those listed as stopping it |
| `LightingProofs.FaultExactly` | `MatterLightOverThread/src/LightingManager.cpp:244-252` | A run ends with the fault raised exactly if it was before, or some start asked for no delay: an unknown effect, or auto turn-off with a duration whose product is zero in 32 bits |
| `LightingProofs.OldestFirst` | `MatterLightOverThread/src/LightingManager.cpp:263-287` | In every run the queue is what waited before followed by what the expiries posted, each chosen by the flags at that moment, less as many of the oldest as were handled |
| `LightingProofs.RunJustified` | `MatterLightOverThread/src/LightingManager.cpp:158-361` | Without off effects the timer runs only for a transition or for auto turn-off, throughout a run, exactly as long as no handler left over from an earlier transition completes a later one before its timer |
| `LightingObject.LightingManager.Init` | `MatterLightOverThread/src/LightingManager.cpp:111-115` | The object starts in the power-on state of the model |
| `LightingObject.LightingManager.IsActionInProgress` | `MatterLightOverThread/src/LightingManager.cpp:126-129` | True exactly in the two intermediate states |
| `LightingObject.LightingManager.IsLightOn` | `MatterLightOverThread/src/LightingManager.cpp:131-134` | True exactly in the completed ON state |
| `LightingObject.LightingManager.SyncCompletedState` | `MatterLightOverThread/src/LightingManager.cpp:136-146` | The fields take the synchronisation step of the model |
| `LightingObject.LightingManager.EnableAutoTurnOff` | `MatterLightOverThread/src/LightingManager.cpp:148-151` | Only the setting changes |
| `LightingObject.LightingManager.SetAutoTurnOffDuration` | `MatterLightOverThread/src/LightingManager.cpp:153-156` | Only the duration changes |
| `LightingObject.LightingManager.InitiateAction` | `MatterLightOverThread/src/LightingManager.cpp:158-242` | All fields, the timer and the notices follow the model's action; the result is false only for an unknown action or an OFF while an effect is armed |
| `LightingObject.LightingManager.StartTimer` | `MatterLightOverThread/src/LightingManager.cpp:244-252` | The shared timer runs, or a zero delay raises the fault and leaves it as it was |
| `LightingObject.LightingManager.CancelTimer` | `MatterLightOverThread/src/LightingManager.cpp:254-261` | The timer does not run; nothing else changes |
| `LightingObject.LightingManager.TimerEventHandler` | `MatterLightOverThread/src/LightingManager.cpp:263-287` | Posts exactly the handler the flags select at that moment, last in the queue |
| `LightingObject.LightingManager.DispatchEvent` | `MatterLightOverThread/src/LightingManager.cpp:289-361` | The oldest posted handler is removed and acts on the present state |
| `LightingObject.LightingManager.AutoTurnOffTimerEventHandler` | `MatterLightOverThread/src/LightingManager.cpp:289-306` | Acts only if still armed, and then as an OFF by the timer |
| `LightingObject.LightingManager.OffEffectTimerEventHandler` | `MatterLightOverThread/src/LightingManager.cpp:308-325` | Acts only if still armed, and then as an OFF by the timer |
| `LightingObject.LightingManager.ActuatorMovementTimerEventHandler` | `MatterLightOverThread/src/LightingManager.cpp:327-361` | Completes whichever transition is under way and starts auto turn-off after an ON, with the 32-bit product as delay |
| `LightingObject.LightingManager.OnTriggerOffWithEffect` | `MatterLightOverThread/src/LightingManager.cpp:363-402` | Arms the effect and starts the timer with the delay of the effect and variant |
| `LightingObject.LightingManager.Perform` | `MatterLightOverThread/src/LightingManager.cpp:136-402` | After any sequence of calls the object is in the state of the model's run, so every result above is about the object |
| `FirstOrderFilter.Apply` | `User/bsp/inc/FirstOrderFilter.h:23-47` | The output in place is the 32-bit filter of sample and old output; a null pointer is ignored |
| `FirstOrderFilter.FilteredExactlyWithoutWrap` | `User/bsp/inc/FirstOrderFilter.h:33-46` | The 32-bit code computes the filter of unbounded arithmetic if and only if gap * alpha + 128 stays below 2^32 |
| `FirstOrderFilter.FollowsByAlpha` | `User/bsp/inc/FirstOrderFilter.h:23-47` | For every sample, output and nonzero alpha, 256 times the movement is alpha times the gap, sign included, to within 128; with alpha 0 the sample is copied |
| `FirstOrderFilter.CodeFollowsByAlpha` | `User/bsp/inc/FirstOrderFilter.h:23-47` | The same of the 32-bit code whenever gap * alpha + 128 stays below 2^32 |
| `FirstOrderFilter.RunWithoutWrap` | `User/bsp/inc/FirstOrderFilter.h:23-47` | With samples and seed below a bound that fits, the code is the ideal filter over runs of any length |
| `FirstOrderFilter.RunBetween` | `User/bsp/inc/FirstOrderFilter.h:23-47` | The output never leaves the range of seed and samples |
| `FirstOrderFilter.RunMonotone` | `User/bsp/inc/FirstOrderFilter.h:23-47` | Pointwise ordered seeds and samples give ordered outputs for every length |
| `FirstOrderFilter.GapAfter` | `User/bsp/inc/FirstOrderFilter.h:33-46` | One step closes the gap by exactly the correction and stays on its side |
| `FirstOrderFilter.RestsExactlyInDeadBand` | `User/bsp/inc/FirstOrderFilter.h:33-46` | The output is a fixed point exactly when gap * alpha is below 128 |
| `FirstOrderFilter.HoldConverges` | `User/bsp/inc/FirstOrderFilter.h:33-46` | A constant input is reached up to the dead band within as many samples as the first gap is wide, and stays there |
| `CheckConsecutive.Apply` | `User/bsp/inc/CheckConsecutive.h:25-43` | Counter in place and verdict for samples at or above the threshold, with the null pointer and zero maximum |
| `CheckConsecutive.ApplyBelow` | `User/bsp/inc/CheckConsecutive.h:48-66` | The same for samples below the threshold |
| `CheckConsecutive.CountIsRunLength` | `User/bsp/inc/CheckConsecutive.h:25-66` | For every history the counter reaches n exactly when the last n samples were hits, and saturates at the maximum |
| `ChargeStat.FaultExactlyWhenBlinking` | `User/bsp/src/BspPowerMonitor.cpp:289-358` | A poll reports a fault exactly when the latest run of gaps of 300 to 600 ms has length three or more and the last edge is at most 600 ms ago; with charging enabled and the line quiet it reports done for a high line and charging for a low one |
| `ChargeStat.PollsDoNotDisturb` | `User/bsp/src/BspPowerMonitor.cpp:338-358` | Two histories with the same edges and different polls give the same fault verdict at every time |
| `ChargeStat.StatusExactly` | `User/bsp/src/BspPowerMonitor.cpp:289-358` | After every ordered history of edges, polls and enabling: the status is fault exactly while the line pulses and no poll has timed it out, otherwise done if the level read last was high, charging if it was low, and initial if none was read; edges that end a half-period, and polls of a line not yet quiet, read none |
| `PowerMonitorObject.BspPowerMonitor.ChargeStatIsr` | `User/bsp/src/BspPowerMonitor.cpp:289-323` | The edge interrupt updates time stamp, pulse count, flag and status as the detector prescribes |
| `PowerMonitorObject.BspPowerMonitor.GetChargeStatus` | `User/bsp/src/BspPowerMonitor.cpp:338-358` | The poll leaves the detector as prescribed and returns the status it leaves |
| `BatteryAdc.RunInRange` | `User/bsp/src/BspPowerMonitor.cpp:160-247` | In every history the filters hold no more than the ADC can deliver and the counters no more than three, which is why the 16-bit results are never cut |
| `BatteryAdc.RemovedExactlyAfterThree` | `User/bsp/src/BspPowerMonitor.cpp:517-556` | After any history of samples, failed reads and USB resets the battery is removed exactly when the latest three successful samples in a row on one side, unbroken by a reset, were at or above 3150 mV |
| `BatteryAdc.GlitchesIgnored` | `User/bsp/src/BspPowerMonitor.cpp:524-556` | From any history on, the verdict of the monitor stands as long as at no later point three samples in a row are on the other side |
| `BatteryAdc.RecoveryForgets` | `User/bsp/src/BspPowerMonitor.cpp:529-582` | The poll that leaves the removed status determines the whole ADC state from its own sample |
| `BatteryAdc.RecoveredRunsAgree` | `User/bsp/src/BspPowerMonitor.cpp:524-582` | Two monitors with different pasts that recover on the same sample agree after every common future |
| `BatteryAdc.BandKeptExactly` | `User/bsp/src/BspPowerMonitor.cpp:565-578` | A successful poll that finds a battery follows the recovery band of the thresholds exactly when the battery was not already too hot or its reading is above 660 |
| `BatteryAdc.NeverTooHotTwice` | `User/bsp/src/BspPowerMonitor.cpp:565-578` | In any history no two successive successful polls both report too hot, whatever is read, reset or fails in between |
| `BatteryAdc.TemperatureStatusExactly` | `User/bsp/src/BspPowerMonitor.cpp:559-582` | For every history and successful poll that finds a battery: too low exactly from 2026 on; too high exactly up to 591 when it was not too high before; otherwise normal |
| `BatteryAdc.NormalUntilPolled` | `User/bsp/src/BspPowerMonitor.cpp:105-118` | Until a poll first succeeds the status is normal, whatever else is read or reset |
| `BatteryAdc.SteadyTemperatureUnfiltered` | `User/bsp/src/BspPowerMonitor.cpp:517-582` | For every history and successful poll that does not find the battery removed: the temperature is judged on the raw sample if that completes three present samples in a row, otherwise on the filter's output, which is the raw sample only for an unseeded filter |
| `BatteryAdc.SeededExactly` | `User/bsp/src/BspPowerMonitor.cpp:160-247` | In every history each filter is seeded exactly when a sample it takes in has come since it was last cleared, by a reset or by three samples in a row |
| `BatteryAdc.VoltageFilteredExactly` | `User/bsp/src/BspPowerMonitor.cpp:160-185` | For every history a successful voltage read with the battery present is three times the sample plus 200 mV, filtered with alpha 10 exactly when a read has come since the last clearing |
| `BatteryAdc.SteadyVoltageUnfiltered` | `User/bsp/src/BspPowerMonitor.cpp:536-538` | So after a poll that completes three present samples, the next battery voltage read reports its own sample |
| `BatteryAdc.NtcReportExactly` | `User/bsp/src/BspPowerMonitor.cpp:191-247` | For every history and successful NTC read: 12 mV above the sample while the filter is unseeded, the frozen value while the battery is removed, and filtered with alpha 5 otherwise |
| `BatteryAdc.VoltageLevels` | `User/bsp/src/BspPowerMonitor.cpp:360-381` | Critical exactly below 6200 mV, low exactly from there to below 7000, normal from 7000 on |
| `PowerMonitorObject.FilterAdcSampleRaw` | `User/bsp/src/BspPowerMonitor.cpp:65-78` | Seeds or filters in place; with a null pointer returns the sample and changes nothing |
| `PowerMonitorObject.BspPowerMonitor.FetchNtcFromHardwareRaw` | `User/bsp/src/BspPowerMonitor.cpp:191-233` | Fails exactly on a zero reading; otherwise raw and reported value, and the channel state, are as specified, frozen while the battery is removed |
| `PowerMonitorObject.BspPowerMonitor.GetBatteryNtcVoltage` | `User/bsp/src/BspPowerMonitor.cpp:238-247` | Reports the same filtered value |
| `PowerMonitorObject.BspPowerMonitor.GetBatteryVoltage` | `User/bsp/src/BspPowerMonitor.cpp:160-185` | Restored, offset and filtered voltage; unfiltered and without trace while the battery is removed |
| `PowerMonitorObject.BspPowerMonitor.GetBatteryVoltStatus` | `User/bsp/src/BspPowerMonitor.cpp:360-381` | Normal without battery or reading, otherwise the level of the filtered voltage |
| `PowerMonitorObject.BspPowerMonitor.GetBatteryTempStatus` | `User/bsp/src/BspPowerMonitor.cpp:517-582` | The whole ADC state follows the latch and classification; the status returned is the one stored |
| `PowerMonitorObject.BspPowerMonitor.ResetAdcAccumulatorsRaw` | `User/bsp/src/BspPowerMonitor.cpp:386-393` | Everything but the status is as at power-on |
| `PowerMonitorProofs.EveryRunSound` | `User/bsp/src/BspPowerMonitor.cpp:386-508` | After every run, callbacks re-entering to any depth: status changes alternate starting with a connection, each is announced with cleared accumulators, a timer confirmation is at least 50 ms after every earlier edge, and the edge interrupt is armed whenever the started monitor is not confirming |
| `PowerMonitorProofs.ReentrantPollsIgnored` | `User/bsp/src/BspPowerMonitor.cpp:464-508` | A callback that polls the USB status again, any number of times, changes nothing |
| `PowerMonitorProofs.StatusFollowsSample` | `User/bsp/src/BspPowerMonitor.cpp:398-487` | After every run with nested callbacks the status is connected exactly if some sample was not ignored and the latest such is at least 1500 mV |
| `PowerMonitorProofs.NotificationsAlternate` | `User/bsp/src/BspPowerMonitor.cpp:282-284` | From registration on, what the application is told alternates and ends with the current status; the first notice is the opposite of the status at registration |
| `PowerMonitorProofs.NobodyTold` | `User/bsp/src/BspPowerMonitor.cpp:282-284` | While no callback is registered, before the first or after the last, the application is told nothing |
| `PowerMonitorProofs.DebounceLasts` | `User/bsp/src/BspPowerMonitor.cpp:433-459` | After an edge whose timer started, the timer does nothing for 50 ms whatever happens to charger and battery; from then on its sample decides the status |
| `PowerMonitorProofs.SilentAfterDeInit` | `User/bsp/src/BspPowerMonitor.cpp:145-154` | After any run and a shutdown, no edge, timer, reading or registration leads to a USB event until a poll or an initialisation, nor does any between power-on and the first |
| `PowerMonitorProofs.NoEdgeLost` | `User/bsp/src/BspPowerMonitor.cpp:433-501` | When timers start and nothing is shut down, after the latest edge either a confirmation has come or the timer runs, due within 50 ms, and no confirmation blocks it |
| `PowerMonitorProofs.MonitorRemoved` | `User/bsp/src/BspPowerMonitor.cpp:517-556` | The removed verdict holds on the whole object with all operations interleaved and nested |
| `PowerMonitorProofs.MonitorFault` | `User/bsp/src/BspPowerMonitor.cpp:289-358` | So does the fault verdict, while the millisecond clock has not wrapped |
| `PowerMonitorProofs.MonitorShows` | `User/bsp/src/BspPowerMonitor.cpp:289-358` | And the charge status shown is that of the line's history |
| `PowerMonitorProofs.OneResetPerChange` | `User/bsp/src/BspPowerMonitor.cpp:398-412` | The battery channels are reset once per USB status change and at no other time |
| `PowerMonitorObject.BspPowerMonitor.ApplyUsbConnectedRaw` | `User/bsp/src/BspPowerMonitor.cpp:398-412` | Only a new status resets the channels, is stored, and runs the callback, which may do anything |
| `PowerMonitorObject.BspPowerMonitor.ScheduleUsbAdcConfirmRaw` | `User/bsp/src/BspPowerMonitor.cpp:433-445` | The deadline is 50 ms from now if the timer starts; otherwise no timer of ours is left running |
| `PowerMonitorObject.BspPowerMonitor.UsbDetectIsr` | `User/bsp/src/BspPowerMonitor.cpp:492-501` | An edge schedules a confirmation and samples nothing |
| `PowerMonitorObject.BspPowerMonitor.UsbDebounceTimerExpires` | `User/bsp/src/BspPowerMonitor.cpp:450-459` | Disarms, then confirms with whatever the callback does nested inside |
| `PowerMonitorObject.BspPowerMonitor.ConfirmUsbByAdcRaw` | `User/bsp/src/BspPowerMonitor.cpp:464-487` | Ignored while busy; otherwise the interrupt is off during the sample and the callback and on afterwards |
| `PowerMonitorObject.BspPowerMonitor.InitMonitor` | `User/bsp/src/BspPowerMonitor.cpp:123-140` | Arms the interrupt and confirms once |
| `PowerMonitorObject.BspPowerMonitor.DeInitMonitor` | `User/bsp/src/BspPowerMonitor.cpp:145-154` | Stops a pending debounce and disarms the interrupt |
| `PowerMonitorObject.BspPowerMonitor.Perform` | `User/bsp/src/BspPowerMonitor.cpp:93-582` | After any sequence of calls, with nested callbacks, the object is in the state of the model's run |
| `Sm15135eFrame.FrameRoundTrip` | `User/hal/src/HalSpiSm15135e.cpp:169-248` | For every pixel, a receiver that accepts only legal symbols recovers all twelve fields of the 56 bytes, as far as the fields are wide |
| `Sm15135eFrame.PackedBitsAreSymbols` | `User/hal/src/HalSpiSm15135e.cpp:244-248` | The table's bytes are, bit for bit, the symbols 1000 and 1110 of the frame's bits, most significant first |
| `Sm15135eFrame.SymbolsReadBack` | `User/hal/src/HalSpiSm15135e.cpp:244-248` | The line code is uniquely decodable |
| `BitStrings.UnpackInvertsPack` | `User/hal/src/HalSpiSm15135e.cpp:193-200` | Any list of fields that fit their widths is read back from their concatenation |
| `BitStrings.OrOfDisjoint` | `User/hal/src/HalSpiSm15135e.cpp:193-200` | ORing a shifted field with a smaller one loses nothing of either |
| `Sm15135eFrame.FramesNeverLookLikeReset` | `User/hal/src/HalSpiSm15135e.cpp:117-122` | No sequence of frames has four zero bits in a row, a reset is 1024 of them, and no receiver takes it for a frame |
| `HalSpiObject.SixteenBitsEncoded` | `User/hal/src/HalSpiSm15135e.cpp:182-189` | Bit-field reads from the top, looked up in pairs, give the bytes of that part of the word's bit string |
| `HalSpiObject.HalSpiSm15135e.SetRgbwyDuty` | `User/hal/src/HalSpiSm15135e.cpp:134-147` | Channels stored, Sleep exactly for all zeros, reserve all ones |
| `HalSpiObject.HalSpiSm15135e.SetAllGain` | `User/hal/src/HalSpiSm15135e.cpp:155-162` | All five gains are the low five bits of the argument |
| `HalSpiObject.HalSpiSm15135e.SendReset` | `User/hal/src/HalSpiSm15135e.cpp:117-122` | One transmission of 128 zero bytes, nothing else changes |
| `HalSpiObject.HalSpiSm15135e.PackMode` | `User/hal/src/HalSpiSm15135e.cpp:193-202` | The 32-bit word's bits are the 5+5+5+5+5+2+5 fields one after the other |
| `HalSpiObject.HalSpiSm15135e.EncodeFrame` | `User/hal/src/HalSpiSm15135e.cpp:172-219` | The frame buffer, all 56 bytes, is the encoding of the stored pixel |
| `HalSpiObject.HalSpiSm15135e.SendFrame` | `User/hal/src/HalSpiSm15135e.cpp:169-235` | The encoding goes out once, or twice when the previous frame was Sleep and this one is not; the mode sent is remembered |
| `HalSpiObject.HalSpiSm15135e.DeInit` | `User/hal/src/HalSpiSm15135e.cpp:107-110` | A dark frame goes out |
| `MainLightProofs.DutyReadsBack` | `User/hal/src/HalSpiSm15135e.cpp:134-147` | At the driver, from any state and for all five channels: the next frame decodes to the channels as given, the gains in store, Sleep exactly if all five are zero, and reserve 31 |
| `MainLightProofs.ColourReadsBack` | `User/bsp/src/BspLedWrgb.cpp:40-90` | From any state, for all four 16-bit duties: the last transmission decodes to R=scale(b), G=scale(g), B=scale(r), W=Y=0, gain code 6, Sleep exactly for r=g=b=0, and white runs exactly for w > 0 at min(w, 1023) |
| `MainLightProofs.ScaleShape` | `User/bsp/src/BspLedWrgb.cpp:71-83` | Scaling is 64 times the value below 1023 and full scale exactly from there on, monotone, zero only at zero |
| `MainLightProofs.SuspendedExactlyAfterSuspend` | `User/bsp/src/BspPeripheralSleep.cpp:24-68` | In every run, boot marks included, the gate is closed exactly after a Suspend |
| `MainLightProofs.SuspendedIsDark` | `User/bsp/src/BspPeripheralSleep.cpp:34-105` | And then the last transmission decodes to the all-zero Sleep frame, no PWM runs, the red indicator and the sampling clock are off |
| `MainLightProofs.WhiteExactly` | `User/bsp/src/BspLedWrgb.cpp:67-90` | In every run the white output runs exactly if the latest duty is not zero and no suspend has come since, at the latest nonzero duty, full from 1023 on |
| `MainLightProofs.ClockExactly` | `User/bsp/src/BspPeripheralSleep.cpp:24-59` | In every run the sampling clock is off exactly from a suspend to the next call that resumes the bus; a boot mark does not switch it on |
| `MainLightProofs.GainExactly` | `User/bsp/src/BspLedWrgb.cpp:20-90` | In every run all five stored gains are 9 after a reset and 6 after a frame |
| `MainLightProofs.FirstLightAfterSuspend` | `User/bsp/src/BspPeripheralSleep.cpp:24-68` | The first colour after a suspend, with any dark calls in between, goes out as two equal frames; a reset has gone out since the suspend exactly if some call resumed the bus, which is so unless a boot mark opened it |
| `MainLightProofs.TransmissionsAccounted` | `User/hal/src/HalSpiSm15135e.cpp:221-234` | In every run the number of transmissions is the resets, plus the frames, plus the adjacent frames of which the first is Sleep and the second is not |
| `MainLightProofs.EveryColourShown` | `User/hal/src/HalSpiSm15135e.cpp:168-234` | A chip that loses the frame that wakes it still drives the written colour after every write of every run, whatever resets do to it, given it left the power-on reset awake |
| `MainLightProofs.FirstColourNeedsAwakeChip` | `User/hal/src/HalSpiSm15135e.cpp:84-100` | That provision is needed: the first colour is sent once, and a chip left asleep by the power-on reset keeps driving what it held |
| `MainLightObjects.HalPwm.PwmSetDuty` | `User/hal/src/HalPwm.cpp:36-51` | Zero stops the output, anything else runs it at most at 1023 |
| `MainLightObjects.BspLedWrgb.Init` | `User/bsp/src/BspLedWrgb.cpp:24-28` | One reset, default gain |
| `MainLightObjects.BspLedWrgb.ApplyDutyRaw` | `User/bsp/src/BspLedWrgb.cpp:67-90` | White output and exactly one frame of the scaled colour with red and blue exchanged |
| `MainLightObjects.BspLedWrgb.LedWrgbSetDuty` | `User/bsp/src/BspLedWrgb.cpp:40-45` | A suspended bus is resumed first, then the colour is written |
| `MainLightObjects.BspLedWrgb.SuspendBusForIdle` | `User/bsp/src/BspLedWrgb.cpp:50-53` | The dark frame, white stopped |
| `MainLightObjects.BspLedWrgb.ResumeBusForActive` | `User/bsp/src/BspLedWrgb.cpp:59-62` | One reset and the default gain, no frame |
| `MainLightObjects.BspPeripheralSleep.SuspendForSleep` | `User/bsp/src/BspPeripheralSleep.cpp:34-44` | Nothing when suspended; otherwise dark frame, PWM outputs and clock off, gate closed |
| `MainLightObjects.BspPeripheralSleep.ResumeFromSleep` | `User/bsp/src/BspPeripheralSleep.cpp:49-59` | Nothing when not suspended; otherwise clock on, reset sent, gate open |
| `MainLightObjects.BspPeripheralSleep.EnsureReadyBeforeOutput` | `User/bsp/src/BspPeripheralSleep.cpp:64-68` | Resumes if suspended |
| `MainLightObjects.BspPeripheralSleep.MarkReadyAfterBoot` | `User/bsp/src/BspPeripheralSleep.cpp:24-28` | Opens the gate and touches nothing else |
| `MainLightObjects.BspPeripheralSleep.Perform` | `User/bsp/src/BspPeripheralSleep.cpp:24-111` | After any sequence of calls the four objects are in the state of the model's run |
| `LowPower.RunSound` | `User/service/src/LowPowerCoordinator.cpp:48-289` | In every run a hold means Active, a wake hold lasts exactly as long as its countdown, and the counters stay below their limits |
| `LowPower.StepAligned` | `User/service/src/LowPowerCoordinator.cpp:48-289` | A call keeps 'suspended exactly in SleepPrepared' if and only if it is not a colour write, EnsurePeripheralsReady or an interrupt's USB notice in SleepPrepared |
| `LowPower.RunAligned` | `User/service/src/LowPowerCoordinator.cpp:48-289` | The same over whole runs, exactly; and then no hold ever finds the peripherals suspended |
| `LowPower.LeakStays` | `User/service/src/LowPowerCoordinator.cpp:243-268` | After a colour write or EnsurePeripheralsReady in SleepPrepared the peripherals are up with the state unchanged, and stay so over every later run exactly until a call brings a hold |
| `LowPower.HoldCuresLeak` | `User/service/src/LowPowerCoordinator.cpp:74-152` | A hold that comes and goes, followed by 3000 ms of idle polling, suspends the peripherals again and the light is dark |
| `LowPower.NoticeHeals` | `User/service/src/LowPowerCoordinator.cpp:97-163` | A USB notice that left the peripherals suspended is made good within one second of polling that still sees the plug |
| `LowPower.NeverTooEarly` | `User/service/src/LowPowerCoordinator.cpp:243-268` | In every run, SleepPrepared is reached only after 3000 ms of polled time since the coordinator was last Active |
| `LowPower.SettlingPoll` | `User/service/src/LowPowerCoordinator.cpp:155-171` | A poll in IdleSettle that finds the plug out suspends exactly if the idle time, with the poll added in 16 bits, is 3000 ms or more |
| `LowPower.UnplugCountsDown` | `User/service/src/LowPowerCoordinator.cpp:97-110` | With nothing else held, an interrupt's notice that the plug is out starts the way down: polling then suspends the peripherals exactly when 3000 ms have been polled |
| `LowPower.RunUncounted` | `User/service/src/LowPowerCoordinator.cpp:215-221` | In every run no idle time is counted while Active |
| `LowPower.HoldsAsSaid` | `User/service/src/LowPowerCoordinator.cpp:74-163` | In every run main light, indicator, USB and commissioning are held exactly as the latest call or due confirmation for each said |
| `LowPower.ButtonFollows` | `User/service/src/LowPowerCoordinator.cpp:120-126` | In every run the button is held exactly from a user wake until the wake hold runs out |
| `LowPower.WakeHoldFollows` | `User/service/src/LowPowerCoordinator.cpp:120-139` | In every run the remaining wake hold is a function of the calls alone (user wake sets 2000 ms, a Matter command at least 8000, polls count down); exactly while it lasts UserMatter is held, the state is Active and the peripherals are up |
| `LowPower.SleepsInTime` | `User/service/src/LowPowerCoordinator.cpp:155-289` | With only wake holds left and the plug out, polling takes the peripherals down within the stated bound, at most 11 s, and the last frame is then the dark one |
| `LowPower.MatterWakeHolds` | `User/service/src/LowPowerCoordinator.cpp:131-139` | A Matter command keeps the coordinator Active and the peripherals up for 8000 ms of polled time whatever else happens short of a user wake |
| `LowPower.UserWakeCutsMatterHold` | `User/service/src/LowPowerCoordinator.cpp:120-126` | After a user wake, whatever hold was running, the hold lasts exactly for the next 2000 ms of polling |
| `LowPowerObject.LowPowerCoordinator.Init` | `User/service/src/LowPowerCoordinator.cpp:48-69` | Active, no holds, gate open |
| `LowPowerObject.LowPowerCoordinator.SetHoldRaw` | `User/service/src/LowPowerCoordinator.cpp:183-190` | One hold set or cleared, nothing else |
| `LowPowerObject.LowPowerCoordinator.EnterActiveRaw` | `User/service/src/LowPowerCoordinator.cpp:215-221` | Peripherals resumed if suspended, idle time cleared |
| `LowPowerObject.LowPowerCoordinator.EvaluateSleepRaw` | `User/service/src/LowPowerCoordinator.cpp:243-268` | The only decision to go down: no hold, and the settle time served in IdleSettle |
| `LowPowerObject.LowPowerCoordinator.OnMainLightActivity` | `User/service/src/LowPowerCoordinator.cpp:74-80` | Hold, wake and evaluation as the model prescribes |
| `LowPowerObject.LowPowerCoordinator.OnIndicatorActivity` | `User/service/src/LowPowerCoordinator.cpp:85-91` | The same for the indicators |
| `LowPowerObject.LowPowerCoordinator.SetCommissioningHold` | `User/service/src/LowPowerCoordinator.cpp:144-150` | The same for commissioning |
| `LowPowerObject.LowPowerCoordinator.OnUsbPowerActivity` | `User/service/src/LowPowerCoordinator.cpp:97-117` | The same for USB; the interrupt-safe form changes hold and state only |
| `LowPowerObject.LowPowerCoordinator.RequestUserWake` | `User/service/src/LowPowerCoordinator.cpp:120-126` | Both wake holds for 2000 ms |
| `LowPowerObject.LowPowerCoordinator.RequestMatterControlWake` | `User/service/src/LowPowerCoordinator.cpp:131-139` | The Matter hold for at least 8000 ms, peripherals resumed |
| `LowPowerObject.LowPowerCoordinator.Poll` | `User/service/src/LowPowerCoordinator.cpp:155-171` | Wake countdown, USB confirmation every second and idle time, in that order |
| `LowPowerObject.LowPowerCoordinator.EnsurePeripheralsReady` | `User/service/src/LowPowerCoordinator.cpp:176-178` | The gate resumes; the coordinator is not told |
| `LowPowerObject.LowPowerCoordinator.Perform` | `User/service/src/LowPowerCoordinator.cpp:48-289` | After any sequence of calls and colour writes, coordinator and gate are in the state of the model's run |
| `AnalogBus.SlotsOfGroup` | `User/hal/src/HalIadc.cpp:165-260` | From free registers a group's two slots depend only on the operations on that group: the first two Inits since its last DeInit hold them |
| `AnalogBus.SlotFields` | `User/hal/src/HalIadc.cpp:165-260` | The same register field by register field: A, B, and C with D, even and odd |
| `AnalogBus.ConnectedExactlyIfInitLast` | `User/hal/src/HalIadc.cpp:165-260` | A channel is connected exactly when the last operation on its group was an Init; one DeInit undoes any number of Inits |
| `AnalogBus.DisturbedExactlyIfShared` | `User/hal/src/HalIadc.cpp:165-260` | Initialising and releasing another channel disconnects a connected one exactly when they share a group |
| `AnalogBus.InitAndDeInitExactly` | `User/hal/src/HalIadc.cpp:165-260` | From any registers: Init connects unless both slots are foreign, and DeInit restores what Init changed exactly when the group was free |
| `AnalogBus.BoardChannelsIndependent` | `User/bsp/inc/BspIoConfig.h:25-32` | For battery, NTC and USB under any interleaving, each is connected exactly when its own last operation was an Init |
| `AnalogBus.BoardSlots` | `User/bsp/inc/BspIoConfig.h:25-32` | After one Init of each of the board's channels the battery holds the first even slot of C and D, the NTC the first odd one, USB the first even slot of A, and nothing else is taken |
| `AnalogBus.MillivoltsWithinOne` | `User/hal/src/HalIadc.cpp:127-133` | For 12-bit samples the shift is at most 1 mV below the division by 4095 it replaces, keeps order and stays below 3300 |
| `AnalogBus.SupplyIsFourTimes` | `User/hal/src/HalIadc.cpp:140-158` | For every result the supply scaling is 3300 / 1024 of the sample, which is four times the millivolts to two bits more, and 0 after a failure |
| `HalIadcObject.HalIadc.AllocateAnalogBus` | `User/hal/src/HalIadc.cpp:165-209` | The register fields take the allocation of the model, for all ports and pins |
| `HalIadcObject.HalIadc.FreeAnalogBus` | `User/hal/src/HalIadc.cpp:233-260` | Both slots of the channel's group are released |
| `HalIadcObject.HalIadc.Init` | `User/hal/src/HalIadc.cpp:38-71` | Bus allocated, pin set to analog, own pin selected, converter reset by the very first Init only |
| `HalIadcObject.HalIadc.DeInit` | `User/hal/src/HalIadc.cpp:80-89` | Bus released, pin set to the mode asked for |
| `HalIadcObject.HalIadc.ReadRawResult` | `User/hal/src/HalIadc.cpp:96-120` | Samples its own pin whatever was selected; -1 exactly when none of 100000 polls shows a result, otherwise exactly the first result shown, negative ones as 0 |
| `HalIadcObject.HalIadc.ReadVoltageMilliVolts` | `User/hal/src/HalIadc.cpp:127-133` | 0 when no result comes, otherwise exactly the millivolts of the first result, below the reference |
| `HalIadcObject.HalIadc.ReadChipAvddMilliVolts` | `User/hal/src/HalIadc.cpp:140-158` | What is sampled is the channel's own pin, not the supply; the result is exactly the supply scaling of that sample |
| `HalIadcObject.Perform` | `User/hal/src/HalIadc.cpp:38-89` | Any sequence over any channels leaves the registers of the model's run and resets the converter at most once |
| `ColorCallbacks.PairsForwarded` | `MatterLightOverThread/src/DataModelCallbacks.cpp:124-172` | Over any sequence of writes the pairs forwarded are, window by window, the latest X and latest Y of the window; the two ready flags are never both set between calls |
| `ColorCallbacks.WindowsApart` | `MatterLightOverThread/src/DataModelCallbacks.cpp:146-149` | The windows follow one another and each holds an X and a Y write, so no write is used twice |
| `ColorCallbacks.EveryColourSentArrives` | `MatterLightOverThread/src/DataModelCallbacks.cpp:129-172` | A writer that sends X then Y for every colour has every colour forwarded, once and in order |
| `ColorCallbacks.BypassedWritesInvisible` | `MatterLightOverThread/src/DataModelCallbacks.cpp:58-100` | A run equals the run without the writes made under the bypass, in colour and in what is asked of the on/off machine |
| `ColorCallbacks.AskedAsWritten` | `MatterLightOverThread/src/DataModelCallbacks.cpp:50-92` | Over any run the latest request to the on/off machine is the on/off attribute's latest heard value, there is one brightness request for each heard level, all by the light event, and auto turn-off is never touched |
| `ColorCallbacks.LampFollowsAttribute` | `MatterLightOverThread/src/DataModelCallbacks.cpp:50-92` | So the lamp is heading where the on/off attribute was last heard to be set |
| `ColorCallbacks.RunBridgeShows` | `MatterLightOverThread/src/DataModelCallbacks.cpp:151-172` | In every run the bridge shows the latest pair forwarded, once there is one |
| `ColorCallbacks.PostedPairExactly` | `MatterLightOverThread/src/DataModelCallbacks.cpp:174-176` | After any run, the write that completes a pair has the bridge get the latest X and Y, but the application task gets that pair exactly when X came last, is not the power-on X and Y is the power-on Y, or Y came last, is not the power-on Y and both halves equal the power-on X |
| `ColorCallbacks.HsvStream` | `MatterLightOverThread/src/LightingManager.cpp:429-446` | The hue and saturation posted over any run are the stored pair's successive values without repetitions, and the stored pair is the latest written |
| `ColorCallbacks.CtStream` | `MatterLightOverThread/src/LightingManager.cpp:448-453` | Over any run exactly the colour temperatures that differ from the power-on value are posted |
| `ColorCallbacks.CtFollowsExactly` | `MatterLightOverThread/src/LightingManager.cpp:448-453` | The light follows a colour-temperature write exactly when it is not the power-on value |
| `DataModelCallbacksObject.ManagerColor.InitiateLightCtrlAction` | `MatterLightOverThread/src/LightingManager.cpp:405-460` | For every action and attribute the stored colour and the posted colour follow the model; the result is true exactly when a named attribute led to a post |
| `DataModelCallbacksObject.HsvPostsStored` | `MatterLightOverThread/src/LightingManager.cpp:429-446` | An HSV action for any attribute posts the pair as stored afterwards, unless it names a half that already has the value, and keeps the other half |
| `DataModelCallbacksObject.XyPostsGiven` | `MatterLightOverThread/src/LightingManager.cpp:411-427` | An XY action for any attribute posts the stored pair with the named half replaced, unless that half already has the value, and stores nothing |
| `DataModelCallbacksObject.DataModelCallbacks.ForwardPair` | `MatterLightOverThread/src/DataModelCallbacks.cpp:146-177` | Both flags cleared, the pair bridged, its first half handed to the manager |
| `DataModelCallbacksObject.DataModelCallbacks.MatterPostAttributeChangeCallback` | `MatterLightOverThread/src/DataModelCallbacks.cpp:50-214` | On/off and level writes become that action of the on/off machine, colour writes take the model's step on statics, manager and everything sent; nothing at all under the bypass |
| `DataModelCallbacksObject.DataModelCallbacks.Perform` | `MatterLightOverThread/src/DataModelCallbacks.cpp:50-214` | After any sequence of callbacks the colour objects are in the state of the model's run and the on/off machine has taken exactly the on/off and level writes heard, in order |

## Left out

- Hardware and operating-system calls: register settings other than the bus allocation, modes of pins other than the analog channels', delays, SPI and timer drivers. They are effects, parameters, or absent.
- Races between the Matter task, the application task and interrupts: each function is one step.
- The application's two light callbacks are taken as registered, as AppTask does at start-up; `appError` is not part of this model, so a refused timer start only raises a flag.
- `LightingObject.LightingManager.StartTimer`: the conversion from milliseconds to timer ticks is taken as exact, so only a zero delay is refused, and posting to the queue always succeeds.
- `LightingObject.LightingManager.Init`: does not model the creation of the timer, which can fail; the stored on/off state is a parameter, and the stored colour attributes are those of `ManagerColor`.
- `ChargeStat.FaultExactlyWhenBlinking`: stated for a clock that neither goes back nor wraps; after a wrap the 32-bit difference is still right but "no edge yet" is not.
- `PowerMonitorObject.BspPowerMonitor.FetchNtcFromHardwareRaw`: does not model the charge-enable pin it raises for the sample.
- `PowerMonitorObject.BspPowerMonitor.InitMonitor`: does not model the output pins and interrupt registrations it sets up.
- `MainLightProofs.EveryColourShown`: about a chip that behaves as the driver's comments say (asleep after Sleep, one frame to wake); what a reset does to it is left open.
- `MainLightProofs.SuspendedIsDark`: about the calls of the suspend gate and the main light; writing the indicators or sampling while suspended is not among them.
- `HalIadcObject.HalIadc.AllocateAnalogBus`: the slots are named values; that TRISTATE is the zero pattern, which makes the source's OR an assignment, comes from the vendor header, which is not part of this model.
- `MainLightObjects.HalPwm.PwmSetDuty`: the compare value is kept as the level of 1023, not in timer ticks.
- `SpiInitOnceRaw` and the boot delays of the SM15135E driver.
- `DataModelCallbacksObject.DataModelCallbacks.MatterPostAttributeChangeCallback`: does not model a null value pointer in an on/off, hue, saturation or colour-temperature callback, which the source dereferences. In X, Y and level callbacks the model follows the source's null tests, but the source's log calls before them (lines 78 and 103) read the value first, so those cases stand for a build without that logging. AWS messages are left out too.
- `LowPower.SleepsInTime`: for polls of at most a minute; the coordinator's 16-bit counters wrap on longer ones (`SettlingPoll`), and its timer polls every 200 ms. The same bound is in `NoticeHeals` and `HoldCuresLeak`.
- `LowPowerObject.LowPowerCoordinator.Init`: with peripheral gating on and deep sleep off, as `LowPowerConfig.h` fixes them; the hold reasons are a set instead of a bit mask, and the debug hold, used only with gating off, is absent, as is the start of the poll timer.
- The power service's reaction to a USB change appears in the coordinator only as its notice; charging policy, light decisions, scenes, colour conversion and the Matter bridge are other services.
- `User/entry.cpp`, which only wires the parts together.
- Button, indicator and light-effect engines, dimming curves, kelvin clamping and generated Matter code.
