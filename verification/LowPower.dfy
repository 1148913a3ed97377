/** LowPowerCoordinator.cpp on values: hold reasons keep the peripherals up, idle time takes them
    down through the suspend gate of MainLightModel. Runs mix the coordinator's calls with colour
    writes, which reach the gate behind its back. */
module LowPower {
  import opened Machine
  import Gate = MainLightModel
  import GateProofs = MainLightProofs

  datatype Hold = MainLight | Indicator | Button | UsbPower | UserMatter | Commissioning

  datatype RunState = Active | IdleSettle | SleepPrepared

  datatype Coordinator = Coordinator(
    run: RunState, holds: set<Hold>, idleMs: uint16, wakeMs: uint16, usbMs: uint16, light: Gate.Light)

  const USER_WAKE_MS: uint16 := 2000
  const MATTER_WAKE_MS: uint16 := 8000
  const USB_FALLBACK_MS: uint16 := 1000
  const IDLE_SETTLE_MS: uint16 := 3000

  function Boot(light: Gate.Light): Coordinator {
    Coordinator(Active, {}, 0, 0, 0, light.(suspended := false))
  }

  function WithHold(c: Coordinator, hold: Hold, on: bool): Coordinator {
    c.(holds := if on then c.holds + {hold} else c.holds - {hold})
  }

  function Activated(c: Coordinator): Coordinator {
    c.(light := Gate.Resumed(c.light), idleMs := 0, run := Active)
  }

  function Evaluated(c: Coordinator): Coordinator {
    if c.holds != {} then Activated(c)
    else
      match c.run
      case SleepPrepared => c
      case Active => c.(idleMs := 0, run := IdleSettle)
      case IdleSettle =>
        if c.idleMs < IDLE_SETTLE_MS then c
        else c.(light := Gate.Suspended(c.light), run := SleepPrepared)
  }

  function Held(c: Coordinator, hold: Hold, on: bool): Coordinator {
    var h := WithHold(c, hold, on);
    Evaluated(if on then Activated(h) else h)
  }

  /** The call that is safe in an interrupt leaves the peripherals alone. */
  function UsbNoticed(c: Coordinator, present: bool): Coordinator {
    var h := WithHold(c, UsbPower, present);
    if present then h.(idleMs := 0, run := Active)
    else if h.holds == {} && h.run == Active then h.(idleMs := 0, run := IdleSettle)
    else h
  }

  function UserWoken(c: Coordinator): Coordinator {
    var h := WithHold(WithHold(c, Button, true), UserMatter, true);
    Evaluated(Activated(h.(wakeMs := USER_WAKE_MS)))
  }

  function MatterWoken(c: Coordinator): Coordinator {
    var h := WithHold(c.(light := Gate.Resumed(c.light)), UserMatter, true);
    Evaluated(Activated(h.(wakeMs := if h.wakeMs < MATTER_WAKE_MS then MATTER_WAKE_MS else h.wakeMs)))
  }

  function WakeTicked(c: Coordinator, ms: uint16): Coordinator {
    if c.wakeMs == 0 then c
    else if ms >= c.wakeMs then
      Evaluated(WithHold(WithHold(c.(wakeMs := 0), Button, false), UserMatter, false))
    else c.(wakeMs := c.wakeMs - ms)
  }

  /** `changed`: confirming the USB status runs the power service's notification first. */
  function UsbTicked(c: Coordinator, ms: uint16, present: bool, changed: bool): Coordinator {
    var t := c.(usbMs := Word16(c.usbMs + ms));
    if t.usbMs < USB_FALLBACK_MS then t
    else
      var reset := t.(usbMs := 0);
      Held(if changed then UsbNoticed(reset, present) else reset, UsbPower, present)
  }

  function IdleTicked(c: Coordinator, ms: uint16): Coordinator {
    if c.run != IdleSettle then c
    else
      var t := c.(idleMs := Word16(c.idleMs + ms));
      if t.idleMs >= IDLE_SETTLE_MS then Evaluated(t) else t
  }

  function Polled(c: Coordinator, ms: uint16, present: bool, changed: bool): Coordinator {
    IdleTicked(UsbTicked(WakeTicked(c, ms), ms, present, changed), ms)
  }

  datatype Op =
    | Activity(hold: Hold, on: bool)
    | UsbNotice(present: bool)
    | UserWake
    | MatterWake
    | Poll(ms: uint16, present: bool, changed: bool)
    | EnsureReady
    | Write(w: uint16, r: uint16, g: uint16, b: uint16)

  /** The holds that have a call of their own; the two wake holds come from the wake calls. */
  predicate Direct(hold: Hold) {
    hold != Button && hold != UserMatter
  }

  function Next(c: Coordinator, op: Op): Coordinator {
    match op
    case Activity(hold, on) => if Direct(hold) then Held(c, hold, on) else c
    case UsbNotice(present) => UsbNoticed(c, present)
    case UserWake => UserWoken(c)
    case MatterWake => MatterWoken(c)
    case Poll(ms, present, changed) => Polled(c, ms, present, changed)
    case EnsureReady => c.(light := Gate.Resumed(c.light))
    case Write(w, r, g, b) => c.(light := Gate.Next(c.light, Gate.SetDuty(w, r, g, b)))
  }

  function Run(c: Coordinator, ops: seq<Op>): Coordinator
    decreases |ops|
  {
    if ops == [] then c else Run(Next(c, ops[0]), ops[1..])
  }

  // ---------------------------------------------------------------- what every run keeps

  /** A hold means Active; the wake holds last exactly as long as their countdown; the counters
      are below their limits. */
  predicate Sound(c: Coordinator) {
    && (c.holds != {} ==> c.run == Active)
    && (c.wakeMs > 0 <==> UserMatter in c.holds)
    && (Button in c.holds ==> UserMatter in c.holds)
    && c.wakeMs <= MATTER_WAKE_MS && c.usbMs < USB_FALLBACK_MS
    && (c.run == IdleSettle ==> c.idleMs < IDLE_SETTLE_MS)
  }

  lemma WakeTickSound(c: Coordinator, ms: uint16)
    requires Sound(c)
    ensures Sound(WakeTicked(c, ms))
  {
  }

  lemma UsbTickSound(c: Coordinator, ms: uint16, present: bool, changed: bool)
    requires Sound(c)
    ensures Sound(UsbTicked(c, ms, present, changed))
  {
  }

  lemma IdleTickSound(c: Coordinator, ms: uint16)
    requires Sound(c)
    ensures Sound(IdleTicked(c, ms))
  {
  }

  lemma StepSound(c: Coordinator, op: Op)
    requires Sound(c)
    ensures Sound(Next(c, op))
  {
    match op
    case Poll(ms, present, changed) =>
      WakeTickSound(c, ms);
      UsbTickSound(WakeTicked(c, ms), ms, present, changed);
      IdleTickSound(UsbTicked(WakeTicked(c, ms), ms, present, changed), ms);
    case _ =>
  }

  lemma {:induction false} RunSound(c: Coordinator, ops: seq<Op>)
    requires Sound(c)
    ensures Sound(Run(c, ops))
    decreases |ops|
  {
    if ops != [] {
      StepSound(c, ops[0]);
      RunSound(Next(c, ops[0]), ops[1..]);
    }
  }

  // ---------------------------------------------------------------- coordinator and gate agree

  predicate Aligned(c: Coordinator) {
    c.light.suspended <==> c.run == SleepPrepared
  }

  /** What opens the gate without a word to the coordinator. */
  predicate OpensGate(op: Op) {
    op.Write? || op == EnsureReady
  }

  /** What separates the two: opening the gate, or a USB notice that may not touch peripherals,
      while everything sleeps. */
  predicate Slips(c: Coordinator, op: Op) {
    c.run == SleepPrepared && (OpensGate(op) || op == UsbNotice(true))
  }

  lemma WakeTickAligned(c: Coordinator, ms: uint16)
    requires Sound(c) && Aligned(c)
    ensures Aligned(WakeTicked(c, ms))
  {
  }

  lemma UsbTickAligned(c: Coordinator, ms: uint16, present: bool, changed: bool)
    requires Sound(c) && Aligned(c)
    ensures Aligned(UsbTicked(c, ms, present, changed))
  {
  }

  lemma IdleTickAligned(c: Coordinator, ms: uint16)
    requires Sound(c) && Aligned(c)
    ensures Aligned(IdleTicked(c, ms))
  {
  }

  lemma PollAligned(c: Coordinator, ms: uint16, present: bool, changed: bool)
    requires Sound(c) && Aligned(c)
    ensures Aligned(Polled(c, ms, present, changed))
  {
    WakeTickSound(c, ms);
    WakeTickAligned(c, ms);
    UsbTickSound(WakeTicked(c, ms), ms, present, changed);
    UsbTickAligned(WakeTicked(c, ms), ms, present, changed);
    IdleTickAligned(UsbTicked(WakeTicked(c, ms), ms, present, changed), ms);
  }

  /** Exactly which calls let the coordinator's state and the gate fall apart. */
  lemma StepAligned(c: Coordinator, op: Op)
    requires Sound(c) && Aligned(c)
    ensures Aligned(Next(c, op)) <==> !Slips(c, op)
  {
    if op.Poll? {
      PollAligned(c, op.ms, op.present, op.changed);
    }
  }

  predicate AlignedThroughout(c: Coordinator, ops: seq<Op>)
    decreases |ops|
  {
    Aligned(c) && (ops != [] ==> AlignedThroughout(Next(c, ops[0]), ops[1..]))
  }

  predicate NeverSlips(c: Coordinator, ops: seq<Op>)
    decreases |ops|
  {
    ops != [] ==> !Slips(c, ops[0]) && NeverSlips(Next(c, ops[0]), ops[1..])
  }

  /** Over whole runs: the peripherals are suspended exactly in SleepPrepared, throughout,
      exactly when nothing slips; and then no hold ever finds them suspended. */
  lemma {:induction false} RunAligned(c: Coordinator, ops: seq<Op>)
    requires Sound(c) && Aligned(c)
    ensures AlignedThroughout(c, ops) <==> NeverSlips(c, ops)
    ensures NeverSlips(c, ops) ==> Aligned(Run(c, ops)) && (Run(c, ops).holds != {} ==> !Run(c, ops).light.suspended)
    decreases |ops|
  {
    if ops == [] {
      assert Run(c, ops) == c;
    } else {
      StepAligned(c, ops[0]);
      StepSound(c, ops[0]);
      if !Slips(c, ops[0]) {
        RunAligned(Next(c, ops[0]), ops[1..]);
      }
    }
  }

  // ---------------------------------------------------------------- what a slip costs

  predicate Leaked(c: Coordinator) {
    c.run == SleepPrepared && !c.light.suspended && c.holds == {}
  }

  /** What brings a hold, and with it Active: a poll does when its USB confirmation is due and
      finds the plug in. */
  predicate Rouses(c: Coordinator, op: Op) {
    match op
    case Activity(hold, on) => Direct(hold) && on
    case UsbNotice(present) => present
    case UserWake => true
    case MatterWake => true
    case Poll(ms, present, _) => present && (c.usbMs + ms) % 0x1_0000 >= 1000
    case EnsureReady => false
    case Write(_, _, _, _) => false
  }

  lemma PollLeaked(c: Coordinator, ms: uint16, present: bool, changed: bool)
    requires Sound(c) && Leaked(c)
    ensures Leaked(Polled(c, ms, present, changed)) <==> !Rouses(c, Poll(ms, present, changed))
  {
    assert WakeTicked(c, ms) == c;
    assert c.holds - {UsbPower} == {};
  }

  lemma StepLeaked(c: Coordinator, op: Op)
    requires Sound(c) && Leaked(c)
    ensures Leaked(Next(c, op)) <==> !Rouses(c, op)
  {
    match op
    case Poll(ms, present, changed) => PollLeaked(c, ms, present, changed);
    case Activity(hold, on) => assert !on ==> c.holds - {hold} == {};
    case UsbNotice(present) => assert !present ==> c.holds - {UsbPower} == {};
    case _ =>
  }

  predicate LeakedThroughout(c: Coordinator, ops: seq<Op>)
    decreases |ops|
  {
    Leaked(c) && (ops != [] ==> LeakedThroughout(Next(c, ops[0]), ops[1..]))
  }

  predicate NeverRoused(c: Coordinator, ops: seq<Op>)
    decreases |ops|
  {
    ops != [] ==> !Rouses(c, ops[0]) && NeverRoused(Next(c, ops[0]), ops[1..])
  }

  lemma {:induction false} LeakLasts(c: Coordinator, ops: seq<Op>)
    requires Sound(c) && Leaked(c)
    ensures LeakedThroughout(c, ops) <==> NeverRoused(c, ops)
    decreases |ops|
  {
    if ops != [] {
      StepLeaked(c, ops[0]);
      StepSound(c, ops[0]);
      if !Rouses(c, ops[0]) {
        LeakLasts(Next(c, ops[0]), ops[1..]);
      }
    }
  }

  /** A colour write, or an ensured readiness, in SleepPrepared opens the gate behind the
      coordinator's back; the peripherals then stay up and the state stays SleepPrepared, through
      any amount of idle time, exactly until a call brings a hold. */
  lemma LeakStays(c: Coordinator, op: Op, ops: seq<Op>)
    requires Sound(c) && c.run == SleepPrepared && OpensGate(op)
    ensures Leaked(Next(c, op))
    ensures LeakedThroughout(Next(c, op), ops) <==> NeverRoused(Next(c, op), ops)
  {
    StepSound(c, op);
    LeakLasts(Next(c, op), ops);
  }

  function Elapsed(ops: seq<Op>): nat
    decreases |ops|
  {
    if ops == [] then 0 else (if ops[0].Poll? then ops[0].ms else 0) + Elapsed(ops[1..])
  }

  /** Polls short enough for the 16-bit counters. */
  predicate PollsOnly(ops: seq<Op>, present: bool) {
    forall i :: 0 <= i < |ops| ==> ops[i].Poll? && ops[i].present == present && ops[i].ms <= 60000
  }

  lemma PollWhilePresent(c: Coordinator, ms: uint16, changed: bool)
    requires Sound(c) && UsbPower in c.holds && ms <= 60000
    ensures var p := Polled(c, ms, true, changed);
            && UsbPower in p.holds && p.run == Active
            && (c.usbMs + ms >= USB_FALLBACK_MS || !c.light.suspended ==> !p.light.suspended)
            && (p.light.suspended ==> p.usbMs == c.usbMs + ms)
  {
    var woken := WakeTicked(c, ms);
    WakeTickSound(c, ms);
    assert UsbPower in woken.holds && woken.usbMs == c.usbMs;
    assert woken.light.suspended ==> c.light.suspended;
  }

  /** The other slip heals: a second of polling that still sees the plug resumes the peripherals. */
  lemma {:induction false} NoticeHeals(c: Coordinator, polls: seq<Op>)
    requires Sound(c) && UsbPower in c.holds && PollsOnly(polls, true)
    requires Elapsed(polls) >= 1000 - c.usbMs || !c.light.suspended
    ensures !Run(c, polls).light.suspended && Aligned(Run(c, polls))
    decreases |polls|
  {
    if polls != [] {
      var op := polls[0];
      PollWhilePresent(c, op.ms, op.changed);
      StepSound(c, op);
      NoticeHeals(Next(c, op), polls[1..]);
    } else {
      assert Elapsed(polls) == 0;
    }
  }

  /** No idle time is counted while Active: every wait starts from zero. */
  predicate Uncounted(c: Coordinator) {
    c.run == Active ==> c.idleMs == 0
  }

  lemma PollUncounted(c: Coordinator, ms: uint16, present: bool, changed: bool)
    requires Uncounted(c)
    ensures Uncounted(Polled(c, ms, present, changed))
  {
    assert Uncounted(WakeTicked(c, ms));
    assert Uncounted(UsbTicked(WakeTicked(c, ms), ms, present, changed));
  }

  lemma {:induction false} RunUncounted(c: Coordinator, ops: seq<Op>)
    requires Uncounted(c)
    ensures Uncounted(Run(c, ops))
    decreases |ops|
  {
    if ops != [] {
      var op := ops[0];
      if op.Poll? {
        PollUncounted(c, op.ms, op.present, op.changed);
      }
      RunUncounted(Next(c, op), ops[1..]);
    }
  }

  // ---------------------------------------------------------------- not too early, not too late

  /** Polled time that must still pass before the peripherals can go down. */
  function Wait(c: Coordinator): nat
    requires Sound(c)
  {
    match c.run
    case Active => 3000
    case IdleSettle => 3000 - c.idleMs
    case SleepPrepared => 0
  }

  lemma WakeTickWait(c: Coordinator, ms: uint16)
    requires Sound(c)
    ensures Sound(WakeTicked(c, ms)) && Wait(WakeTicked(c, ms)) >= Wait(c)
  {
    WakeTickSound(c, ms);
  }

  lemma UsbTickWait(c: Coordinator, ms: uint16, present: bool, changed: bool)
    requires Sound(c)
    ensures Sound(UsbTicked(c, ms, present, changed)) && Wait(UsbTicked(c, ms, present, changed)) >= Wait(c)
  {
    UsbTickSound(c, ms, present, changed);
  }

  lemma IdleTickWait(c: Coordinator, ms: uint16)
    requires Sound(c)
    ensures Sound(IdleTicked(c, ms)) && Wait(IdleTicked(c, ms)) + ms >= Wait(c)
  {
    IdleTickSound(c, ms);
  }

  lemma PollWait(c: Coordinator, ms: uint16, present: bool, changed: bool)
    requires Sound(c)
    ensures Sound(Polled(c, ms, present, changed)) && Wait(Polled(c, ms, present, changed)) + ms >= Wait(c)
  {
    WakeTickWait(c, ms);
    UsbTickWait(WakeTicked(c, ms), ms, present, changed);
    IdleTickWait(UsbTicked(WakeTicked(c, ms), ms, present, changed), ms);
  }

  lemma StepWait(c: Coordinator, op: Op)
    requires Sound(c)
    ensures Sound(Next(c, op))
    ensures Wait(Next(c, op)) + (if op.Poll? then op.ms else 0) >= Wait(c)
  {
    StepSound(c, op);
    if op.Poll? {
      PollWait(c, op.ms, op.present, op.changed);
    }
  }

  /** Whatever the calls, nothing goes to sleep before three seconds of polled idle time since the
      coordinator was last Active. */
  lemma {:induction false} NeverTooEarly(c: Coordinator, ops: seq<Op>)
    requires Sound(c)
    requires Run(c, ops).run == SleepPrepared
    ensures Elapsed(ops) >= Wait(c)
    decreases |ops|
  {
    if ops != [] {
      StepWait(c, ops[0]);
      NeverTooEarly(Next(c, ops[0]), ops[1..]);
    }
  }

  /** The longest the way down can still take once nothing but wake holds is left. */
  function Left(c: Coordinator): nat
    requires Sound(c)
  {
    if c.holds != {} then c.wakeMs + IDLE_SETTLE_MS
    else
      match c.run
      case Active => USB_FALLBACK_MS - c.usbMs + IDLE_SETTLE_MS
      case IdleSettle => IDLE_SETTLE_MS - c.idleMs
      case SleepPrepared => 0
  }

  predicate OnlyWakeHolds(c: Coordinator) {
    c.holds <= {Button, UserMatter}
  }

  lemma HeldIsCounted(c: Coordinator)
    requires Sound(c) && OnlyWakeHolds(c) && c.holds != {}
    ensures UserMatter in c.holds && c.wakeMs > 0
  {
    assert exists h :: h in c.holds;
  }

  lemma WakeTickLeft(c: Coordinator, ms: uint16)
    requires Sound(c) && OnlyWakeHolds(c)
    ensures var t := WakeTicked(c, ms);
            && Sound(t) && OnlyWakeHolds(t) && t.usbMs == c.usbMs
            && (c.holds == {} ==> t == c)
            && (c.holds != {} && ms < c.wakeMs ==> t == c.(wakeMs := c.wakeMs - ms))
            && (c.holds != {} && ms >= c.wakeMs ==> t.holds == {} && t.run == IdleSettle && t.idleMs == 0)
  {
    WakeTickSound(c, ms);
    if c.holds != {} {
      HeldIsCounted(c);
      assert c.holds - {Button} - {UserMatter} == {};
    }
  }

  lemma UsbTickLeft(c: Coordinator, ms: uint16, changed: bool)
    requires Sound(c) && OnlyWakeHolds(c) && ms <= 60000
    ensures var t := UsbTicked(c, ms, false, changed);
            && Sound(t) && OnlyWakeHolds(t) && t.holds == c.holds && t.wakeMs == c.wakeMs
            && (c.holds != {} ==> t.run == Active)
            && (c.holds == {} && c.run != Active ==> t.run == c.run && t.idleMs == c.idleMs)
            && (c.holds == {} && c.run == Active ==>
                  if c.usbMs + ms >= USB_FALLBACK_MS then t.run == IdleSettle && t.idleMs == 0
                  else t.run == Active && t.usbMs == c.usbMs + ms)
  {
    UsbTickSound(c, ms, false, changed);
    assert c.holds - {UsbPower} == c.holds;
  }

  /** `Left` after the USB part of a poll; the idle part has yet to count a settling wait down. */
  function LeftToCount(c: Coordinator, ms: uint16): int
    requires Sound(c)
  {
    if c.run == IdleSettle then Left(c) - ms else Left(c)
  }

  lemma IdleTickLeft(c: Coordinator, ms: uint16)
    requires Sound(c) && OnlyWakeHolds(c) && ms <= 60000
    ensures var t := IdleTicked(c, ms);
            Sound(t) && OnlyWakeHolds(t) && (Left(t) == 0 || Left(t) <= LeftToCount(c, ms))
  {
    IdleTickSound(c, ms);
  }

  lemma WakeAndUsbLeft(c: Coordinator, ms: uint16, changed: bool)
    requires Sound(c) && OnlyWakeHolds(c) && ms <= 60000
    ensures var u := UsbTicked(WakeTicked(c, ms), ms, false, changed);
            Sound(u) && OnlyWakeHolds(u) && (u.run == SleepPrepared || LeftToCount(u, ms) <= Left(c) - ms)
  {
    WakeTickLeft(c, ms);
    UsbTickLeft(WakeTicked(c, ms), ms, changed);
    if c.holds != {} {
      HeldIsCounted(c);
    }
  }

  lemma PollLeft(c: Coordinator, ms: uint16, changed: bool)
    requires Sound(c) && OnlyWakeHolds(c) && ms <= 60000
    ensures var p := Polled(c, ms, false, changed);
            Sound(p) && OnlyWakeHolds(p) && Left(p) <= if Left(c) < ms then 0 else Left(c) - ms
  {
    WakeAndUsbLeft(c, ms, changed);
    IdleTickLeft(UsbTicked(WakeTicked(c, ms), ms, false, changed), ms);
  }

  lemma EvaluatedDark(c: Coordinator)
    requires GateProofs.DarkWhileSuspended(c.light)
    ensures GateProofs.DarkWhileSuspended(Evaluated(c).light)
  {
    GateProofs.StepDark(c.light, Gate.Suspend);
  }

  lemma WakeTickDark(c: Coordinator, ms: uint16)
    requires GateProofs.DarkWhileSuspended(c.light)
    ensures GateProofs.DarkWhileSuspended(WakeTicked(c, ms).light)
  {
    EvaluatedDark(WithHold(WithHold(c.(wakeMs := 0), Button, false), UserMatter, false));
  }

  lemma HeldDark(c: Coordinator, hold: Hold, on: bool)
    requires GateProofs.DarkWhileSuspended(c.light)
    ensures GateProofs.DarkWhileSuspended(Held(c, hold, on).light)
  {
    var h := WithHold(c, hold, on);
    EvaluatedDark(if on then Activated(h) else h);
  }

  lemma UsbTickDark(c: Coordinator, ms: uint16, present: bool, changed: bool)
    requires GateProofs.DarkWhileSuspended(c.light)
    ensures GateProofs.DarkWhileSuspended(UsbTicked(c, ms, present, changed).light)
  {
    var reset := c.(usbMs := 0);
    HeldDark(if changed then UsbNoticed(reset, present) else reset, UsbPower, present);
  }

  lemma PollDark(c: Coordinator, ms: uint16, present: bool, changed: bool)
    requires GateProofs.DarkWhileSuspended(c.light)
    ensures GateProofs.DarkWhileSuspended(Polled(c, ms, present, changed).light)
  {
    WakeTickDark(c, ms);
    UsbTickDark(WakeTicked(c, ms), ms, present, changed);
    var usb := UsbTicked(WakeTicked(c, ms), ms, present, changed);
    EvaluatedDark(usb.(idleMs := Word16(usb.idleMs + ms)));
  }

  /** Every call of the coordinator moves the light by calls of the gate only. */
  lemma StepDark(c: Coordinator, op: Op)
    requires GateProofs.DarkWhileSuspended(c.light)
    ensures GateProofs.DarkWhileSuspended(Next(c, op).light)
  {
    match op
    case Poll(ms, present, changed) => PollDark(c, ms, present, changed);
    case Activity(hold, on) => HeldDark(c, hold, on);
    case Write(w, r, g, b) => GateProofs.StepDark(c.light, Gate.SetDuty(w, r, g, b));
    case _ =>
  }

  /** Once only wake holds are left and the plug is out, polling alone takes the peripherals down
      within what `Left` says, eleven seconds at most, and the light is then dark. */
  lemma {:induction false} SleepsInTime(c: Coordinator, polls: seq<Op>)
    requires Sound(c) && Aligned(c) && OnlyWakeHolds(c) && PollsOnly(polls, false)
    requires GateProofs.DarkWhileSuspended(c.light)
    requires Elapsed(polls) >= Left(c)
    ensures Left(c) <= 11000
    ensures var down := Run(c, polls);
            down.run == SleepPrepared && down.light.suspended && GateProofs.DarkDriver(down.light.driver)
    decreases |polls|
  {
    if polls == [] {
      assert Left(c) == 0;
    } else {
      var op := polls[0];
      PollLeft(c, op.ms, op.changed);
      PollAligned(c, op.ms, false, op.changed);
      StepDark(c, op);
      SleepsInTime(Next(c, op), polls[1..]);
    }
  }

  /** One poll that finds the plug out, exactly: the idle counter is 16 bits wide, so a poll of more
      than a minute can be taken for a short one. */
  lemma SettlingPoll(c: Coordinator, ms: uint16, changed: bool)
    requires Sound(c) && c.run == IdleSettle
    ensures Polled(c, ms, false, changed).run == SleepPrepared <==> (c.idleMs + ms) % 0x1_0000 >= 3000
  {
    assert c.holds == {} && WakeTicked(c, ms) == c;
    var usb := UsbTicked(c, ms, false, changed);
    assert usb.holds == {} && usb.run == IdleSettle && usb.idleMs == c.idleMs;
  }

  /** A plug pulled out when nothing else holds starts the way down at once: three seconds of polled
      time later, and not before, the peripherals go down. */
  lemma UnplugCountsDown(c: Coordinator, polls: seq<Op>)
    requires Sound(c) && Aligned(c) && c.run == Active && c.holds <= {UsbPower} && PollsOnly(polls, false)
    requires GateProofs.DarkWhileSuspended(c.light)
    ensures Run(UsbNoticed(c, false), polls).run == SleepPrepared <==> Elapsed(polls) >= 3000
  {
    var out := UsbNoticed(c, false);
    assert out.holds == {};
    StepSound(c, UsbNotice(false));
    if Elapsed(polls) >= 3000 {
      SleepsInTime(out, polls);
    }
    if Run(out, polls).run == SleepPrepared {
      NeverTooEarly(out, polls);
    }
  }

  /** A hold that comes and goes cures a leak: three seconds of idle polling later the peripherals
      are down, and coordinator and gate agree again. */
  lemma HoldCuresLeak(c: Coordinator, hold: Hold, polls: seq<Op>)
    requires Sound(c) && Leaked(c) && Direct(hold) && PollsOnly(polls, false)
    requires GateProofs.DarkWhileSuspended(c.light)
    requires Elapsed(polls) >= 3000
    ensures var down := Run(Held(Held(c, hold, true), hold, false), polls);
            down.run == SleepPrepared && down.light.suspended && GateProofs.DarkDriver(down.light.driver)
  {
    var held := Held(c, hold, true);
    StepSound(c, Activity(hold, true));
    StepDark(c, Activity(hold, true));
    StepSound(held, Activity(hold, false));
    StepDark(held, Activity(hold, false));
    assert held.holds == {hold} && held.holds - {hold} == {};
    SleepsInTime(Held(held, hold, false), polls);
  }

  // ---------------------------------------------------------------- every hold stands until its own release

  /** What a call says about a hold, if anything: activity of its own kind sets or releases it; for
      USB also a notice, and a poll whose confirmation is due. */
  function Says(c: Coordinator, op: Op, hold: Hold): Option<bool> {
    match op
    case Activity(named, on) => if named == hold then Some(on) else None
    case UsbNotice(present) => if hold == UsbPower then Some(present) else None
    case Poll(ms, present, _) =>
      if hold == UsbPower && (c.usbMs + ms) % 0x1_0000 >= 1000 then Some(present) else None
    case _ => None
  }

  /** The latest thing said. */
  function LatestSaid(c: Coordinator, ops: seq<Op>, hold: Hold, before: bool): bool
    decreases |ops|
  {
    if ops == [] then before
    else
      var said := Says(c, ops[0], hold);
      LatestSaid(Next(c, ops[0]), ops[1..], hold, if said.Some? then said.value else before)
  }

  lemma PollSays(c: Coordinator, ms: uint16, present: bool, changed: bool, hold: Hold)
    requires Direct(hold)
    ensures var said := Says(c, Poll(ms, present, changed), hold);
            hold in Polled(c, ms, present, changed).holds <==> if said.Some? then said.value else hold in c.holds
  {
    var woken := WakeTicked(c, ms);
    assert woken.usbMs == c.usbMs && (hold in woken.holds <==> hold in c.holds);
    var usb := UsbTicked(woken, ms, present, changed);
    assert hold in usb.holds <==>
           if hold == UsbPower && (c.usbMs + ms) % 0x1_0000 >= 1000 then present else hold in c.holds;
  }

  lemma StepSays(c: Coordinator, op: Op, hold: Hold)
    requires Direct(hold)
    ensures var said := Says(c, op, hold);
            hold in Next(c, op).holds <==> if said.Some? then said.value else hold in c.holds
  {
    if op.Poll? {
      PollSays(c, op.ms, op.present, op.changed, hold);
    }
  }

  /** In every run, main light, indicator, USB and commissioning are held exactly as last said of
      each; no other call touches them. */
  lemma {:induction false} HoldsAsSaid(c: Coordinator, ops: seq<Op>, hold: Hold)
    requires Direct(hold)
    ensures hold in Run(c, ops).holds <==> LatestSaid(c, ops, hold, hold in c.holds)
    decreases |ops|
  {
    if ops != [] {
      StepSays(c, ops[0], hold);
      HoldsAsSaid(Next(c, ops[0]), ops[1..], hold);
    }
  }

  // ---------------------------------------------------------------- the wake hold

  /** Milliseconds the wake hold still has to run after one call, and after a run of calls: a user
      wake sets it to two seconds, up or down, a Matter command to eight at least, polls count. */
  function HoldAfter(ms: nat, op: Op): nat {
    match op
    case UserWake => 2000
    case MatterWake => if ms < 8000 then 8000 else ms
    case Poll(polled, _, _) => if ms <= polled then 0 else ms - polled
    case _ => ms
  }

  function HoldAfterAll(ms: nat, ops: seq<Op>): nat
    decreases |ops|
  {
    if ops == [] then ms else HoldAfterAll(HoldAfter(ms, ops[0]), ops[1..])
  }

  /** While a wake hold runs, the peripherals are up. */
  predicate UpWhileHeld(c: Coordinator) {
    c.wakeMs > 0 ==> !c.light.suspended
  }

  lemma UsbTickHold(c: Coordinator, ms: uint16, present: bool, changed: bool)
    requires Sound(c) && UpWhileHeld(c)
    ensures var t := UsbTicked(c, ms, present, changed);
            Sound(t) && t.wakeMs == c.wakeMs && UpWhileHeld(t)
  {
    UsbTickSound(c, ms, present, changed);
  }

  lemma IdleTickHold(c: Coordinator, ms: uint16)
    requires Sound(c) && UpWhileHeld(c)
    ensures IdleTicked(c, ms).wakeMs == c.wakeMs && UpWhileHeld(IdleTicked(c, ms))
  {
  }

  lemma PollHold(c: Coordinator, ms: uint16, present: bool, changed: bool)
    requires Sound(c) && UpWhileHeld(c)
    ensures var p := Polled(c, ms, present, changed);
            p.wakeMs == HoldAfter(c.wakeMs, Poll(ms, present, changed)) && UpWhileHeld(p)
  {
    var woken := WakeTicked(c, ms);
    WakeTickSound(c, ms);
    assert UpWhileHeld(woken);
    UsbTickHold(woken, ms, present, changed);
    IdleTickHold(UsbTicked(woken, ms, present, changed), ms);
  }

  lemma StepHold(c: Coordinator, op: Op)
    requires Sound(c) && UpWhileHeld(c)
    ensures Next(c, op).wakeMs == HoldAfter(c.wakeMs, op) && UpWhileHeld(Next(c, op))
  {
    if op.Poll? {
      PollHold(c, op.ms, op.present, op.changed);
    }
  }

  /** In every run the remaining hold is what the calls say, and exactly while it lasts UserMatter
      is held; the coordinator is then Active and the peripherals are up. */
  lemma {:induction false} WakeHoldFollows(c: Coordinator, ops: seq<Op>)
    requires Sound(c) && UpWhileHeld(c)
    ensures var later, left := Run(c, ops), HoldAfterAll(c.wakeMs, ops);
            && later.wakeMs == left
            && (UserMatter in later.holds <==> left > 0)
            && (left > 0 ==> later.run == Active && !later.light.suspended)
    decreases |ops|
  {
    if ops != [] {
      StepSound(c, ops[0]);
      StepHold(c, ops[0]);
      WakeHoldFollows(Next(c, ops[0]), ops[1..]);
    }
  }

  /** The button hold comes with a user wake and goes when the wake hold runs out. */
  predicate ButtonAfter(button: bool, ms: nat, ops: seq<Op>)
    decreases |ops|
  {
    if ops == [] then button
    else
      var left := HoldAfter(ms, ops[0]);
      ButtonAfter(ops[0] == UserWake || (button && left > 0), left, ops[1..])
  }

  lemma WakeTickButton(c: Coordinator, ms: uint16)
    requires Sound(c)
    ensures Button in WakeTicked(c, ms).holds <==> Button in c.holds && c.wakeMs > ms
  {
  }

  lemma UsbTickButton(c: Coordinator, ms: uint16, present: bool, changed: bool)
    ensures Button in UsbTicked(c, ms, present, changed).holds <==> Button in c.holds
  {
  }

  lemma StepButton(c: Coordinator, op: Op)
    requires Sound(c)
    ensures Button in Next(c, op).holds <==> op == UserWake || (Button in c.holds && HoldAfter(c.wakeMs, op) > 0)
  {
    if op.Poll? {
      WakeTickButton(c, op.ms);
      UsbTickButton(WakeTicked(c, op.ms), op.ms, op.present, op.changed);
    }
  }

  lemma {:induction false} ButtonFollows(c: Coordinator, ops: seq<Op>)
    requires Sound(c) && UpWhileHeld(c)
    ensures Button in Run(c, ops).holds <==> ButtonAfter(Button in c.holds, c.wakeMs, ops)
    decreases |ops|
  {
    if ops != [] {
      StepSound(c, ops[0]);
      StepHold(c, ops[0]);
      StepButton(c, ops[0]);
      ButtonFollows(Next(c, ops[0]), ops[1..]);
    }
  }

  lemma {:induction false} HoldOutlasts(ms: nat, ops: seq<Op>)
    requires forall i :: 0 <= i < |ops| ==> ops[i] != UserWake
    ensures HoldAfterAll(ms, ops) + Elapsed(ops) >= ms
    decreases |ops|
  {
    if ops != [] {
      HoldOutlasts(HoldAfter(ms, ops[0]), ops[1..]);
    }
  }

  /** So a Matter command keeps the peripherals up for eight seconds of polled time, whatever else
      happens, short of a user wake. */
  lemma MatterWakeHolds(c: Coordinator, ops: seq<Op>)
    requires Sound(c) && (forall i :: 0 <= i < |ops| ==> ops[i] != UserWake) && Elapsed(ops) < 8000
    ensures var later := Run(MatterWoken(c), ops);
            UserMatter in later.holds && later.run == Active && !later.light.suspended
  {
    StepSound(c, MatterWake);
    WakeHoldFollows(MatterWoken(c), ops);
    HoldOutlasts(MatterWoken(c).wakeMs, ops);
  }

  lemma {:induction false} PolledHold(ms: nat, polls: seq<Op>)
    requires forall i :: 0 <= i < |polls| ==> polls[i].Poll?
    ensures HoldAfterAll(ms, polls) == if ms <= Elapsed(polls) then 0 else ms - Elapsed(polls)
    decreases |polls|
  {
    if polls != [] {
      PolledHold(HoldAfter(ms, polls[0]), polls[1..]);
    }
  }

  /** A user wake makes the remaining hold two seconds, cutting a longer one short and prolonging
      a shorter one. */
  lemma UserWakeCutsMatterHold(c: Coordinator, polls: seq<Op>)
    requires Sound(c)
    requires forall i :: 0 <= i < |polls| ==> polls[i].Poll?
    ensures UserMatter in Run(UserWoken(c), polls).holds <==> Elapsed(polls) < 2000
  {
    StepSound(c, UserWake);
    WakeHoldFollows(UserWoken(c), polls);
    PolledHold(UserWoken(c).wakeMs, polls);
  }
}
