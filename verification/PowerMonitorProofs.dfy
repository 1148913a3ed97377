/** Properties of every run of the power monitor, nested callbacks included. */
module PowerMonitorProofs {
  import opened Machine
  import ChargeStat
  import BatteryAdc
  import opened PowerMonitorModel

  /** The status after each change, oldest first. */
  function Changes(events: seq<UsbEvent>): seq<bool>
    decreases |events|
  {
    if events == [] then [] else
    var before := Changes(events[..|events| - 1]);
    match events[|events| - 1]
    case Changed(connected, _, _) => before + [connected]
    case _ => before
  }

  /** The status each call of the notification callback was given, oldest first. */
  function Notifications(events: seq<UsbEvent>): seq<bool>
    decreases |events|
  {
    if events == [] then [] else
    var before := Notifications(events[..|events| - 1]);
    match events[|events| - 1]
    case Changed(connected, true, _) => before + [connected]
    case _ => before
  }

  /** No confirmation by the timer comes within the debounce time of an earlier edge. */
  predicate Debounced(events: seq<UsbEvent>) {
    forall i, j :: 0 <= i < j < |events| && events[i].EdgeDelivered? && events[j].Confirmed? && events[j].byTimer
      ==> events[i].at + 50 <= events[j].at
  }

  /** The timer runs at least the debounce time past every edge. */
  predicate TimerSound(events: seq<UsbEvent>, timer: Option<nat>, now: nat) {
    forall e :: e in events && e.EdgeDelivered? ==>
      e.at <= now && (timer.Some? ==> e.at + 50 <= timer.value)
  }

  /** Changes alternate, starting with a connection, and lead to the current status. */
  predicate Alternating(changes: seq<bool>, connected: bool) {
    && (forall i :: 0 <= i < |changes| ==> changes[i] == (i % 2 == 0))
    && connected == (|changes| % 2 == 1)
  }

  /** Filters, seeds and counters are as at power-on. */
  predicate Cleared(a: BatteryAdc.Adc) {
    a == BatteryAdc.PowerOn.(temp := a.temp)
  }

  /** Each change is announced with the battery channels already cleared. */
  predicate AnnouncedCleared(events: seq<UsbEvent>) {
    forall e :: e in events && e.Changed? ==> Cleared(e.found)
  }

  predicate UsbSound(m: Monitor) {
    && (m.timer.Some? <==> m.debounceArmed)
    && (m.timer.Some? ==> m.timer.value <= m.now + 50)
    && TimerSound(m.events, m.timer, m.now)
    && Debounced(m.events)
    && Alternating(Changes(m.events), m.connected)
    && AnnouncedCleared(m.events)
    // the edge interrupt is armed whenever no confirmation is going on
    && (m.started && !m.confirmBusy ==> m.extiArmed)
  }

  lemma EventAdded(events: seq<UsbEvent>, e: UsbEvent)
    ensures Changes(events + [e]) == if e.Changed? then Changes(events) + [e.connected] else Changes(events)
    ensures Notifications(events + [e]) ==
            if e.Changed? && e.notified then Notifications(events) + [e.connected] else Notifications(events)
    ensures forall x :: x in events + [e] <==> x in events || x == e
  {
    assert (events + [e])[..|events|] == events;
  }

  lemma DebounceAdded(events: seq<UsbEvent>, e: UsbEvent)
    requires Debounced(events)
    requires e.Confirmed? && e.byTimer ==>
               forall x :: x in events && x.EdgeDelivered? ==> x.at + 50 <= e.at
    ensures Debounced(events + [e])
  {
    var longer := events + [e];
    forall i, j | 0 <= i < j < |longer| && longer[i].EdgeDelivered? && longer[j].Confirmed? && longer[j].byTimer
      ensures longer[i].at + 50 <= longer[j].at
    {
      assert longer[i] in events;
    }
  }

  lemma TimerAdded(events: seq<UsbEvent>, timer: Option<nat>, now: nat, e: UsbEvent)
    requires TimerSound(events, timer, now) && !e.EdgeDelivered?
    ensures TimerSound(events + [e], timer, now)
  {
  }

  lemma TimerLater(events: seq<UsbEvent>, timer: Option<nat>, now: nat, ms: nat)
    requires TimerSound(events, timer, now)
    ensures TimerSound(events, timer, now + ms) && TimerSound(events, None, now)
  {
  }

  lemma AnnouncedAdded(events: seq<UsbEvent>, e: UsbEvent)
    requires AnnouncedCleared(events)
    requires e.Changed? ==> Cleared(e.found)
    ensures AnnouncedCleared(events + [e])
  {
  }

  lemma AlternatingAdded(changes: seq<bool>, connected: bool)
    requires Alternating(changes, connected)
    ensures Alternating(changes + [!connected], !connected)
  {
  }

  lemma ConfirmedSound(m: Monitor, mv: BatteryAdc.Millivolts, byTimer: bool)
    requires UsbSound(m)
    requires byTimer ==> forall e :: e in m.events && e.EdgeDelivered? ==> e.at + 50 <= m.now
    ensures UsbSound(Sampling(m, mv, byTimer))
  {
    var e := Confirmed(m.now, byTimer, mv);
    EventAdded(m.events, e);
    DebounceAdded(m.events, e);
    TimerAdded(m.events, m.timer, m.now, e);
    AnnouncedAdded(m.events, e);
  }

  lemma ChangedSound(m: Monitor, connected: bool)
    requires UsbSound(m) && connected != m.connected
    ensures UsbSound(StatusChanged(m, connected))
  {
    var e := Changed(connected, m.callback, BatteryAdc.Reset(m.adc));
    EventAdded(m.events, e);
    DebounceAdded(m.events, e);
    TimerAdded(m.events, m.timer, m.now, e);
    AnnouncedAdded(m.events, e);
    AlternatingAdded(Changes(m.events), m.connected);
  }

  lemma EdgeSound(m: Monitor, startOk: bool)
    requires UsbSound(m)
    ensures UsbSound(EdgeSeen(m, startOk))
  {
    var e := EdgeDelivered(m.now);
    EventAdded(m.events, e);
    DebounceAdded(m.events, e);
    AnnouncedAdded(m.events, e);
  }

  lemma PlainSound(m: Monitor, op: Op)
    requires UsbSound(m)
    ensures UsbSound(Plain(m, op))
  {
    match op
    case UsbEdge(startOk) => EdgeSound(m, startOk);
    case Tick(ms) => TimerLater(m.events, m.timer, m.now, ms);
    case DeInit => TimerLater(m.events, m.timer, m.now, 0);
    case _ =>
  }

  /** The battery channels and the charge detector have no say in the USB side. */
  lemma OthersSound(m: Monitor, charge: ChargeStat.ChargeOp, adc: BatteryAdc.AdcOp)
    requires UsbSound(m)
    ensures UsbSound(ChargeDone(m, charge)) && UsbSound(AdcDone(m, adc))
  {
  }

  lemma {:induction false} ConfirmSound(m: Monitor, mv: BatteryAdc.Millivolts, byTimer: bool, during: seq<Op>)
    requires UsbSound(m)
    requires byTimer ==> forall e :: e in m.events && e.EdgeDelivered? ==> e.at + 50 <= m.now
    ensures UsbSound(Confirm(m, mv, byTimer, during))
    decreases during, 1
  {
    if !m.confirmBusy {
      var sampled := Sampling(m, mv, byTimer);
      ConfirmedSound(m, mv, byTimer);
      var connected := Plugged(mv);
      if connected != m.connected {
        ChangedSound(sampled, connected);
        if m.callback {
          RunSound(StatusChanged(sampled, connected), during);
        }
      }
    }
  }

  lemma ReadySound(m: Monitor)
    requires UsbSound(m)
    ensures UsbSound(m.(extiArmed := true, started := true))
    ensures m.timer.Some? && m.timer.value <= m.now ==> UsbSound(m.(timer := None, debounceArmed := false))
  {
  }

  lemma {:induction false} StepSound(m: Monitor, op: Op)
    requires UsbSound(m)
    ensures UsbSound(Next(m, op))
    decreases op, 1
  {
    ReadySound(m);
    match op
    case TimerFires(mv, during) =>
      if m.timer.Some? && m.timer.value <= m.now {
        ConfirmSound(m.(timer := None, debounceArmed := false), mv, true, during);
      }
    case UsbPoll(mv, during) => ConfirmSound(m, mv, false, during);
    case Init(mv, during) => ConfirmSound(m.(extiArmed := true, started := true), mv, false, during);
    case ChargeLine(charge) => OthersSound(m, charge, BatteryAdc.UsbReset);
    case Battery(adc) => OthersSound(m, ChargeStat.Poll(false), adc);
    case _ => PlainSound(m, op);
  }

  lemma {:induction false} RunSound(m: Monitor, ops: seq<Op>)
    requires UsbSound(m)
    ensures UsbSound(Run(m, ops))
    decreases ops, 0
  {
    if ops != [] {
      StepSound(m, ops[0]);
      RunSound(Next(m, ops[0]), ops[1..]);
    }
  }

  /** Everything the USB side promises, after any run from power-on: the callback may re-enter
      the monitor in any way, to any depth. */
  lemma EveryRunSound(ops: seq<Op>)
    ensures UsbSound(Run(Off, ops))
  {
    RunSound(Off, ops);
  }

  // ---------------------------------------------------------------- re-entrant polls

  predicate OnlyPolls(ops: seq<Op>) {
    forall i :: 0 <= i < |ops| ==> ops[i].UsbPoll?
  }

  lemma {:induction false} BusyPollsDoNothing(m: Monitor, ops: seq<Op>)
    requires m.confirmBusy && OnlyPolls(ops)
    ensures Run(m, ops) == m
    decreases |ops|
  {
    if ops != [] {
      assert Next(m, ops[0]) == m;
      BusyPollsDoNothing(m, ops[1..]);
    }
  }

  /** A callback that polls the USB status again, however often, changes nothing. */
  lemma ReentrantPollsIgnored(m: Monitor, mv: BatteryAdc.Millivolts, byTimer: bool, polls: seq<Op>)
    requires OnlyPolls(polls)
    ensures Confirm(m, mv, byTimer, polls) == Confirm(m, mv, byTimer, [])
  {
    if !m.confirmBusy {
      var sampled := Sampling(m, mv, byTimer);
      BusyPollsDoNothing(StatusChanged(sampled, Plugged(mv)), polls);
    }
  }

  // ---------------------------------------------------------------- notifications

  /** The callback is never taken away, at any depth. */
  predicate KeepsCallback(ops: seq<Op>)
    decreases ops, 0
  {
    ops != [] ==> StepKeepsCallback(ops[0]) && KeepsCallback(ops[1..])
  }

  predicate StepKeepsCallback(op: Op)
    decreases op, 1
  {
    match op
    case Register(on) => on
    case TimerFires(_, during) => KeepsCallback(during)
    case UsbPoll(_, during) => KeepsCallback(during)
    case Init(_, during) => KeepsCallback(during)
    case _ => true
  }

  /** What the application has been told, starting from the status `known`, alternates and ends
      with the current status. */
  predicate Told(told: seq<bool>, connected: bool, known: bool) {
    && (told == [] ==> connected == known)
    && (told != [] ==> told[0] == !known && told[|told| - 1] == connected)
    && (forall i :: 0 <= i < |told| - 1 ==> told[i] != told[i + 1])
  }

  predicate Informed(m: Monitor, known: bool) {
    m.callback && Told(Notifications(m.events), m.connected, known)
  }

  lemma ToldAdded(told: seq<bool>, connected: bool, known: bool)
    requires Told(told, connected, known)
    ensures Told(told + [!connected], !connected, known)
  {
  }

  lemma SamplingInformed(m: Monitor, mv: BatteryAdc.Millivolts, byTimer: bool, known: bool)
    requires Informed(m, known)
    ensures Informed(Sampling(m, mv, byTimer), known)
  {
    EventAdded(m.events, Confirmed(m.now, byTimer, mv));
  }

  lemma ChangeInformed(m: Monitor, connected: bool, known: bool)
    requires Informed(m, known) && connected != m.connected
    ensures Informed(StatusChanged(m, connected), known)
  {
    EventAdded(m.events, Changed(connected, m.callback, BatteryAdc.Reset(m.adc)));
    ToldAdded(Notifications(m.events), m.connected, known);
  }

  lemma {:induction false} ConfirmInformed(m: Monitor, mv: BatteryAdc.Millivolts, byTimer: bool, during: seq<Op>,
                                           known: bool)
    requires Informed(m, known) && KeepsCallback(during)
    ensures Informed(Confirm(m, mv, byTimer, during), known)
    decreases during, 1
  {
    if !m.confirmBusy {
      var sampled := Sampling(m, mv, byTimer);
      SamplingInformed(m, mv, byTimer, known);
      var connected := Plugged(mv);
      if connected != m.connected {
        ChangeInformed(sampled, connected, known);
        RunInformed(StatusChanged(sampled, connected), during, known);
      }
    }
  }

  lemma PlainInformed(m: Monitor, op: Op, known: bool)
    requires Informed(m, known) && op != Register(false)
    ensures Informed(Plain(m, op), known)
  {
    EventAdded(m.events, EdgeDelivered(m.now));
  }

  lemma {:induction false} StepInformed(m: Monitor, op: Op, known: bool)
    requires Informed(m, known) && StepKeepsCallback(op)
    ensures Informed(Next(m, op), known)
    decreases op, 1
  {
    match op
    case TimerFires(mv, during) =>
      if m.timer.Some? && m.timer.value <= m.now {
        ConfirmInformed(m.(timer := None, debounceArmed := false), mv, true, during, known);
      }
    case UsbPoll(mv, during) => ConfirmInformed(m, mv, false, during, known);
    case Init(mv, during) => ConfirmInformed(m.(extiArmed := true, started := true), mv, false, during, known);
    case ChargeLine(_) =>
    case Battery(_) =>
    case _ => PlainInformed(m, op, known);
  }

  lemma {:induction false} RunInformed(m: Monitor, ops: seq<Op>, known: bool)
    requires Informed(m, known) && KeepsCallback(ops)
    ensures Informed(Run(m, ops), known)
    decreases ops, 0
  {
    if ops != [] {
      StepInformed(m, ops[0], known);
      RunInformed(Next(m, ops[0]), ops[1..], known);
    }
  }

  /** From the moment the callback is registered, notifications strictly alternate; the first
      one says "connected" exactly when the status at registration was "not connected", and the
      last one is the current status. */
  lemma NotificationsAlternate(m: Monitor, ops: seq<Op>)
    requires Notifications(m.events) == [] && KeepsCallback(ops)
    ensures Informed(Run(Next(m, Register(true)), ops), m.connected)
  {
    RunInformed(Next(m, Register(true)), ops, m.connected);
  }

  // ---------------------------------------------------------------- the status is the latest sample's

  /** The latest sample that was not ignored. */
  function LatestSample(events: seq<UsbEvent>): Option<BatteryAdc.Millivolts>
    decreases |events|
  {
    if events == [] then None
    else
      match events[|events| - 1]
      case Confirmed(_, _, mv) => Some(mv)
      case EdgeDelivered(_) => LatestSample(events[..|events| - 1])
      case Changed(_, _, _) => LatestSample(events[..|events| - 1])
  }

  predicate Follows(connected: bool, sample: Option<BatteryAdc.Millivolts>) {
    connected == (sample.Some? && sample.value >= 1500)
  }

  predicate FollowsSample(m: Monitor) {
    Follows(m.connected, LatestSample(m.events))
  }

  lemma SampleAfter(events: seq<UsbEvent>, e: UsbEvent)
    ensures LatestSample(events + [e]) == if e.Confirmed? then Some(e.mv) else LatestSample(events)
  {
    assert (events + [e])[..|events|] == events;
  }

  lemma ChangeFollows(m: Monitor, mv: BatteryAdc.Millivolts, byTimer: bool)
    ensures FollowsSample(StatusChanged(Sampling(m, mv, byTimer), Plugged(mv)))
    ensures m.connected == Plugged(mv) ==> FollowsSample(Sampling(m, mv, byTimer))
  {
    var sampled := Sampling(m, mv, byTimer);
    SampleAfter(m.events, Confirmed(m.now, byTimer, mv));
    SampleAfter(sampled.events, Changed(Plugged(mv), m.callback, BatteryAdc.Reset(m.adc)));
  }

  lemma {:induction false} ConfirmFollows(m: Monitor, mv: BatteryAdc.Millivolts, byTimer: bool, during: seq<Op>)
    requires FollowsSample(m)
    ensures FollowsSample(Confirm(m, mv, byTimer, during))
    decreases during, 1
  {
    if !m.confirmBusy {
      ChangeFollows(m, mv, byTimer);
      if m.connected != Plugged(mv) && m.callback {
        RunFollows(StatusChanged(Sampling(m, mv, byTimer), Plugged(mv)), during);
      }
    }
  }

  lemma PlainFollows(m: Monitor, op: Op)
    requires FollowsSample(m)
    ensures FollowsSample(Plain(m, op))
  {
    SampleAfter(m.events, EdgeDelivered(m.now));
  }

  lemma OthersFollow(m: Monitor, charge: ChargeStat.ChargeOp, adc: BatteryAdc.AdcOp)
    requires FollowsSample(m)
    ensures FollowsSample(ChargeDone(m, charge)) && FollowsSample(AdcDone(m, adc))
  {
  }

  lemma {:induction false} StepFollows(m: Monitor, op: Op)
    requires FollowsSample(m)
    ensures FollowsSample(Next(m, op))
    decreases op, 1
  {
    match op
    case TimerFires(mv, during) =>
      if m.timer.Some? && m.timer.value <= m.now {
        ConfirmFollows(m.(timer := None, debounceArmed := false), mv, true, during);
      }
    case UsbPoll(mv, during) => ConfirmFollows(m, mv, false, during);
    case Init(mv, during) => ConfirmFollows(m.(extiArmed := true, started := true), mv, false, during);
    case ChargeLine(charge) => OthersFollow(m, charge, BatteryAdc.UsbReset);
    case Battery(adc) => OthersFollow(m, ChargeStat.Poll(false), adc);
    case _ => PlainFollows(m, op);
  }

  lemma {:induction false} RunFollows(m: Monitor, ops: seq<Op>)
    requires FollowsSample(m)
    ensures FollowsSample(Run(m, ops))
    decreases ops, 0
  {
    if ops != [] {
      StepFollows(m, ops[0]);
      RunFollows(Next(m, ops[0]), ops[1..]);
    }
  }

  /** After every run, with callbacks nested in any way, the status is "connected" exactly if some
      sample was not ignored and the latest such is at least 1500 mV, half of 3 V. */
  lemma StatusFollowsSample(ops: seq<Op>)
    ensures var m := Run(Off, ops);
            m.connected <==> LatestSample(m.events).Some? && LatestSample(m.events).value >= 1500
  {
    RunFollows(Off, ops);
  }

  // ---------------------------------------------------------------- nobody registered

  lemma ConfirmSilent(m: Monitor, mv: BatteryAdc.Millivolts, byTimer: bool, during: seq<Op>)
    requires !m.callback
    ensures var after := Confirm(m, mv, byTimer, during);
            !after.callback && Notifications(after.events) == Notifications(m.events)
  {
    var sampled := Sampling(m, mv, byTimer);
    EventAdded(m.events, Confirmed(m.now, byTimer, mv));
    EventAdded(sampled.events, Changed(Plugged(mv), false, BatteryAdc.Reset(m.adc)));
  }

  lemma PlainSilent(m: Monitor, op: Op)
    requires !m.callback && op != Register(true)
    ensures !Plain(m, op).callback && Notifications(Plain(m, op).events) == Notifications(m.events)
  {
    EventAdded(m.events, EdgeDelivered(m.now));
  }

  lemma StepSilent(m: Monitor, op: Op)
    requires !m.callback && op != Register(true)
    ensures !Next(m, op).callback && Notifications(Next(m, op).events) == Notifications(m.events)
  {
    match op
    case TimerFires(mv, during) =>
      if m.timer.Some? && m.timer.value <= m.now {
        ConfirmSilent(m.(timer := None, debounceArmed := false), mv, true, during);
      }
    case UsbPoll(mv, during) => ConfirmSilent(m, mv, false, during);
    case Init(mv, during) => ConfirmSilent(m.(extiArmed := true, started := true), mv, false, during);
    case ChargeLine(_) =>
    case Battery(_) =>
    case _ => PlainSilent(m, op);
  }

  lemma {:induction false} RunSilent(m: Monitor, ops: seq<Op>)
    requires !m.callback && forall i :: 0 <= i < |ops| ==> ops[i] != Register(true)
    ensures Notifications(Run(m, ops).events) == Notifications(m.events)
    decreases |ops|
  {
    if ops != [] {
      StepSilent(m, ops[0]);
      RunSilent(Next(m, ops[0]), ops[1..]);
    }
  }

  /** While no callback is registered, before the first registration or after the last, nobody is
      told anything. */
  lemma NobodyTold(before: seq<Op>, ops: seq<Op>)
    requires forall i :: 0 <= i < |ops| ==> ops[i] != Register(true)
    ensures Notifications(Run(Off, ops).events) == []
    ensures var gone := Next(Run(Off, before), Register(false));
            Notifications(Run(gone, ops).events) == Notifications(Run(Off, before).events)
  {
    RunSilent(Off, ops);
    RunSilent(Next(Run(Off, before), Register(false)), ops);
  }

  // ---------------------------------------------------------------- how long a debounce lasts

  /** What comes without touching the USB side. */
  predicate Elsewhere(op: Op) {
    op.Tick? || op.ChargeLine? || op.Battery? || op.Register?
  }

  function Ticks(ops: seq<Op>): nat
    decreases |ops|
  {
    if ops == [] then 0 else (if ops[0].Tick? then ops[0].ms else 0) + Ticks(ops[1..])
  }

  lemma StepElsewhere(m: Monitor, op: Op)
    requires Elsewhere(op)
    ensures var after := Next(m, op);
            && after.now == m.now + Ticks([op]) && after.timer == m.timer && after.confirmBusy == m.confirmBusy
            && after.connected == m.connected && after.events == m.events
  {
    assert [op][1..] == [];
  }

  lemma {:induction false} RunElsewhere(m: Monitor, ops: seq<Op>)
    requires forall i :: 0 <= i < |ops| ==> Elsewhere(ops[i])
    ensures var after := Run(m, ops);
            && after.now == m.now + Ticks(ops) && after.timer == m.timer && after.confirmBusy == m.confirmBusy
            && after.connected == m.connected && after.events == m.events
    decreases |ops|
  {
    if ops != [] {
      StepElsewhere(m, ops[0]);
      RunElsewhere(Next(m, ops[0]), ops[1..]);
    }
  }

  /** After an edge whose timer started, the timer has nothing to do for 50 ms; from then on, unless
      a confirmation is under way, its sample decides. */
  lemma DebounceLasts(m: Monitor, ops: seq<Op>, mv: BatteryAdc.Millivolts, during: seq<Op>)
    requires m.extiArmed && forall i :: 0 <= i < |ops| ==> Elsewhere(ops[i])
    ensures var waiting := Run(Next(m, UsbEdge(true)), ops);
            && (Ticks(ops) < 50 ==> Next(waiting, TimerFires(mv, during)) == waiting)
            && (Ticks(ops) >= 50 && !m.confirmBusy ==>
                  Next(waiting, TimerFires(mv, [])).connected == (mv >= 1500))
  {
    RunElsewhere(Next(m, UsbEdge(true)), ops);
  }

  /** An initialisation leaves the edge interrupt armed, even in the middle of a confirmation. */
  lemma InitListens(m: Monitor, mv: BatteryAdc.Millivolts, during: seq<Op>)
    ensures Next(m, Init(mv, during)).extiArmed
  {
  }

  // ---------------------------------------------------------------- after shutting down

  /** What can come without anybody asking the monitor about the plug again. */
  predicate Passive(op: Op) {
    match op
    case Tick(_) => true
    case ChargeLine(_) => true
    case Battery(_) => true
    case Register(_) => true
    case UsbEdge(_) => true
    case TimerFires(_, _) => true
    case DeInit => true
    case UsbPoll(_, _) => false
    case Init(_, _) => false
  }

  predicate ShutDown(m: Monitor) {
    !m.extiArmed && m.timer == None
  }

  lemma StepShutDown(m: Monitor, op: Op)
    requires ShutDown(m) && Passive(op)
    ensures ShutDown(Next(m, op)) && Next(m, op).events == m.events
  {
  }

  lemma {:induction false} RunShutDown(m: Monitor, ops: seq<Op>)
    requires ShutDown(m) && forall i :: 0 <= i < |ops| ==> Passive(ops[i])
    ensures ShutDown(Run(m, ops)) && Run(m, ops).events == m.events
    decreases |ops|
  {
    if ops != [] {
      StepShutDown(m, ops[0]);
      RunShutDown(Next(m, ops[0]), ops[1..]);
    }
  }

  /** After any run, a shutdown stops a pending debounce and disarms the edge interrupt: until a
      poll or an initialisation nothing happens to the USB status any more, as nothing does from
      power-on to the first. */
  lemma SilentAfterDeInit(before: seq<Op>, ops: seq<Op>)
    requires forall i :: 0 <= i < |ops| ==> Passive(ops[i])
    ensures var down := Next(Run(Off, before), DeInit);
            Run(down, ops).events == Run(Off, before).events
    ensures Run(Off, ops).events == []
  {
    EveryRunSound(before);
    RunShutDown(Off, ops);
    RunShutDown(Next(Run(Off, before), DeInit), ops);
  }

  // ---------------------------------------------------------------- no edge is lost

  /** An edge has been delivered and nothing has been confirmed since. */
  predicate Unconfirmed(events: seq<UsbEvent>)
    decreases |events|
  {
    events != [] &&
    match events[|events| - 1]
    case EdgeDelivered(_) => true
    case Confirmed(_, _, _) => false
    case Changed(_, _, _) => Unconfirmed(events[..|events| - 1])
  }

  /** Timers start, nothing is shut down, and a callback does not initialise the monitor. */
  predicate Steady(ops: seq<Op>, nested: bool)
    decreases ops, 0
  {
    ops != [] ==> StepSteady(ops[0], nested) && Steady(ops[1..], nested)
  }

  predicate StepSteady(op: Op, nested: bool)
    decreases op, 1
  {
    match op
    case UsbEdge(startOk) => startOk
    case TimerFires(_, during) => Steady(during, true)
    case UsbPoll(_, during) => Steady(during, true)
    case Init(_, during) => !nested && Steady(during, true)
    case DeInit => false
    case _ => true
  }

  predicate EdgesServed(m: Monitor) {
    && (Unconfirmed(m.events) ==> m.timer.Some? && !m.confirmBusy)
    && (m.confirmBusy ==> !m.extiArmed)
  }

  lemma UnconfirmedAfter(events: seq<UsbEvent>, e: UsbEvent)
    ensures Unconfirmed(events + [e]) <==> e.EdgeDelivered? || (e.Changed? && Unconfirmed(events))
  {
    assert (events + [e])[..|events|] == events;
  }

  lemma {:induction false} ConfirmServes(m: Monitor, mv: BatteryAdc.Millivolts, byTimer: bool, during: seq<Op>)
    requires m.confirmBusy ==> EdgesServed(m)
    requires Steady(during, true)
    ensures EdgesServed(Confirm(m, mv, byTimer, during))
    ensures Confirm(m, mv, byTimer, during).confirmBusy == m.confirmBusy
    decreases during, 1
  {
    if !m.confirmBusy {
      var sampled := Sampling(m, mv, byTimer);
      UnconfirmedAfter(m.events, Confirmed(m.now, byTimer, mv));
      var connected := Plugged(mv);
      if connected != m.connected {
        var changed := StatusChanged(sampled, connected);
        UnconfirmedAfter(sampled.events, changed.events[|sampled.events|]);
        RunServes(changed, during);
      }
    }
  }

  lemma {:induction false} StepServes(m: Monitor, op: Op)
    requires EdgesServed(m) && StepSteady(op, m.confirmBusy)
    ensures EdgesServed(Next(m, op)) && Next(m, op).confirmBusy == m.confirmBusy
    decreases op, 1
  {
    match op
    case TimerFires(mv, during) =>
      if m.timer.Some? && m.timer.value <= m.now {
        ConfirmServes(m.(timer := None, debounceArmed := false), mv, true, during);
      }
    case UsbPoll(mv, during) => ConfirmServes(m, mv, false, during);
    case Init(mv, during) => ConfirmServes(m.(extiArmed := true, started := true), mv, false, during);
    case UsbEdge(_) => UnconfirmedAfter(m.events, EdgeDelivered(m.now));
    case _ =>
  }

  /** Every delivered edge is followed by a confirmation or its debounce timer is still running,
      even when timers expire in the middle of another confirmation. */
  lemma {:induction false} RunServes(m: Monitor, ops: seq<Op>)
    requires EdgesServed(m) && Steady(ops, m.confirmBusy)
    ensures EdgesServed(Run(m, ops)) && Run(m, ops).confirmBusy == m.confirmBusy
    decreases ops, 0
  {
    if ops != [] {
      StepServes(m, ops[0]);
      RunServes(Next(m, ops[0]), ops[1..]);
    }
  }

  /** So from power-on no edge is lost: after the last one either a confirmation has come or the
      timer that will bring it is running and no confirmation blocks it. */
  lemma NoEdgeLost(ops: seq<Op>)
    requires Steady(ops, false)
    ensures var m := Run(Off, ops);
            !m.confirmBusy && (Unconfirmed(m.events) ==> m.timer.Some? && m.timer.value <= m.now + 50)
  {
    RunServes(Off, ops);
    EveryRunSound(ops);
  }

  // ---------------------------------------------------------------- one object, three debouncers

  function Resets(ops: seq<BatteryAdc.AdcOp>): nat
    decreases |ops|
  {
    if ops == [] then 0
    else Resets(ops[..|ops| - 1]) + (if ops[|ops| - 1].UsbReset? then 1 else 0)
  }

  predicate AdcFaithful(a: BatteryAdc.Adc, history: seq<BatteryAdc.AdcOp>) {
    a == BatteryAdc.Run(BatteryAdc.PowerOn, history)
  }

  predicate ChargeFaithful(c: ChargeStat.Charge, history: seq<ChargeStat.Timed>, now: nat) {
    && c == ChargeStat.Run(ChargeStat.PowerOn, history)
    && (now < WORD32 ==> ChargeStat.InOrder(history, now))
  }

  /** The charge detector and the battery channels are what their own histories make them; the
      charge history is in clock order, and the battery history holds one reset for every USB
      status change. */
  predicate Faithful(m: Monitor) {
    && AdcFaithful(m.adc, m.adcHistory)
    && ChargeFaithful(m.charge, m.chargeHistory, m.now)
    && Resets(m.adcHistory) == |Changes(m.events)|
  }

  lemma AdcAdded(a: BatteryAdc.Adc, history: seq<BatteryAdc.AdcOp>, op: BatteryAdc.AdcOp)
    requires AdcFaithful(a, history)
    ensures AdcFaithful(BatteryAdc.Next(a, op), history + [op])
    ensures Resets(history + [op]) == Resets(history) + if op.UsbReset? then 1 else 0
  {
    assert (history + [op])[..|history|] == history;
  }

  lemma ResetAdded(a: BatteryAdc.Adc, history: seq<BatteryAdc.AdcOp>)
    requires AdcFaithful(a, history)
    ensures AdcFaithful(BatteryAdc.Reset(a), history + [BatteryAdc.UsbReset])
    ensures Resets(history + [BatteryAdc.UsbReset]) == Resets(history) + 1
  {
    AdcAdded(a, history, BatteryAdc.UsbReset);
  }

  lemma ChargeRun(history: seq<ChargeStat.Timed>, e: ChargeStat.Timed)
    ensures ChargeStat.Run(ChargeStat.PowerOn, history + [e])
         == ChargeStat.Next(ChargeStat.Run(ChargeStat.PowerOn, history), e)
  {
    assert (history + [e])[..|history|] == history;
  }

  lemma ChargeAdded(c: ChargeStat.Charge, history: seq<ChargeStat.Timed>, now: nat, op: ChargeStat.ChargeOp)
    requires ChargeFaithful(c, history, now)
    ensures var e := ChargeStat.At(ClockMs(now), op);
            ChargeFaithful(ChargeStat.Next(c, e), history + [e], now)
  {
    var e := ChargeStat.At(ClockMs(now), op);
    ChargeRun(history, e);
    if now < WORD32 {
      SmallWord(now);
    }
  }

  lemma ChargeLater(c: ChargeStat.Charge, history: seq<ChargeStat.Timed>, now: nat, ms: nat)
    requires ChargeFaithful(c, history, now)
    ensures ChargeFaithful(c, history, now + ms)
  {
  }

  lemma ChangeFaithful(m: Monitor, connected: bool)
    requires Faithful(m)
    ensures Faithful(StatusChanged(m, connected))
  {
    ResetAdded(m.adc, m.adcHistory);
    EventAdded(m.events, Changed(connected, m.callback, BatteryAdc.Reset(m.adc)));
  }

  lemma {:induction false} ConfirmFaithful(m: Monitor, mv: BatteryAdc.Millivolts, byTimer: bool, during: seq<Op>)
    requires Faithful(m)
    ensures Faithful(Confirm(m, mv, byTimer, during))
    decreases during, 1
  {
    if !m.confirmBusy {
      var sampled := Sampling(m, mv, byTimer);
      EventAdded(m.events, Confirmed(m.now, byTimer, mv));
      var connected := Plugged(mv);
      if connected != m.connected {
        ChangeFaithful(sampled, connected);
        if m.callback {
          RunFaithful(StatusChanged(sampled, connected), during);
        }
      }
    }
  }

  lemma OthersFaithful(m: Monitor, charge: ChargeStat.ChargeOp, adc: BatteryAdc.AdcOp)
    requires Faithful(m) && !adc.UsbReset?
    ensures Faithful(ChargeDone(m, charge)) && Faithful(AdcDone(m, adc))
  {
    AdcAdded(m.adc, m.adcHistory, adc);
    ChargeAdded(m.charge, m.chargeHistory, m.now, charge);
  }

  lemma PlainFaithful(m: Monitor, op: Op)
    requires Faithful(m)
    ensures Faithful(Plain(m, op))
  {
    match op
    case Tick(ms) => ChargeLater(m.charge, m.chargeHistory, m.now, ms);
    case UsbEdge(_) => EventAdded(m.events, EdgeDelivered(m.now));
    case _ =>
  }

  lemma {:induction false} StepFaithful(m: Monitor, op: Op)
    requires Faithful(m)
    ensures Faithful(Next(m, op))
    decreases op, 1
  {
    match op
    case ChargeLine(charge) => OthersFaithful(m, charge, BatteryAdc.TempPoll(0));
    case Battery(adc) => if !adc.UsbReset? { OthersFaithful(m, ChargeStat.Poll(false), adc); }
    case TimerFires(mv, during) =>
      if m.timer.Some? && m.timer.value <= m.now {
        ConfirmFaithful(m.(timer := None, debounceArmed := false), mv, true, during);
      }
    case UsbPoll(mv, during) => ConfirmFaithful(m, mv, false, during);
    case Init(mv, during) => ConfirmFaithful(m.(extiArmed := true, started := true), mv, false, during);
    case _ => PlainFaithful(m, op);
  }

  lemma {:induction false} RunFaithful(m: Monitor, ops: seq<Op>)
    requires Faithful(m)
    ensures Faithful(Run(m, ops))
    decreases ops, 0
  {
    if ops != [] {
      StepFaithful(m, ops[0]);
      RunFaithful(Next(m, ops[0]), ops[1..]);
    }
  }

  lemma EveryRunFaithful(ops: seq<Op>)
    ensures Faithful(Run(Off, ops))
  {
    assert AdcFaithful(BatteryAdc.PowerOn, []);
    RunFaithful(Off, ops);
  }

  /** On the whole monitor, with every kind of operation interleaved and nested, the battery
      counts as removed exactly when its history says so. */
  lemma MonitorRemoved(ops: seq<Op>)
    ensures Run(Off, ops).adc.temp.BatteryRemoved? <==>
            BatteryAdc.Removed(BatteryAdc.Marks(Run(Off, ops).adcHistory))
  {
    EveryRunFaithful(ops);
    BatteryAdc.RemovedExactlyAfterThree(Run(Off, ops).adcHistory);
  }

  /** And a charge poll reports a fault exactly when the status line is blinking. */
  lemma MonitorFault(ops: seq<Op>, levelHigh: bool)
    requires Run(Off, ops).now < WORD32
    ensures ChargeStat.Polled(Run(Off, ops).charge, Run(Off, ops).now, levelHigh).status.ChargeFault? <==>
            ChargeStat.Blinking(ChargeStat.Edges(Run(Off, ops).chargeHistory), Run(Off, ops).now)
  {
    EveryRunFaithful(ops);
    ChargeStat.FaultExactlyWhenBlinking(Run(Off, ops).chargeHistory, Run(Off, ops).now, levelHigh);
  }

  /** And the charge status shown is that of the line's history. */
  lemma MonitorShows(ops: seq<Op>)
    requires Run(Off, ops).now < WORD32
    ensures ChargeStat.ShowsHistory(Run(Off, ops).charge, Run(Off, ops).chargeHistory)
  {
    EveryRunFaithful(ops);
    ChargeStat.StatusExactly(Run(Off, ops).chargeHistory, Run(Off, ops).now);
  }

  /** The battery channels are reset once per status change, and at no other time. */
  lemma OneResetPerChange(ops: seq<Op>)
    ensures Resets(Run(Off, ops).adcHistory) == |Changes(Run(Off, ops).events)|
  {
    EveryRunFaithful(ops);
  }
}
