/** Run-level properties of the light state machine. */
module LightingProofs {
  import opened Machine
  import opened LightingModel

  /** Whatever is unfinished has something on its way that will finish it: a transition waits
      for the timer or for a posted handler that will still act, and an armed flag waits for
      the timer or for its own handler. */
  predicate Live(m: Light) {
    && (Moving(m.st) ==>
          || m.timerRunning
          || ActuatorMovement in m.queue
          || (m.effectArmed && OffEffect in m.queue)
          || (m.autoArmed && AutoTurnOff in m.queue))
    && (m.effectArmed ==> m.timerRunning || OffEffect in m.queue)
    && (m.autoArmed ==> m.timerRunning || AutoTurnOff in m.queue)
  }

  /** The four branches that leave an armed flag with nothing on its way. */
  predicate Drops(m: Light, s: Step) {
    match s
    case Do(OffWithEffect(effect)) =>
      // an unknown effect arms the flag, but its zero delay does not start the timer
      EffectDelayMs(effect) == 0 && !m.timerRunning && OffEffect !in m.queue
    case Do(Act(_, On)) =>
      // a repeated ON stops the timer auto turn-off was waiting for
      !m.effectArmed && Moving(m.st) && m.autoArmed && AutoTurnOff !in m.queue
    case Do(_) => false
    case Expire =>
      // the expiry meant for the off effect is posted as auto turn-off
      m.timerRunning && m.autoArmed && m.effectArmed && OffEffect !in m.queue
    case Dispatch =>
      // the actuator arms auto turn-off with a zero delay
      && m.queue != [] && m.queue[0] == ActuatorMovement && m.st.OnInitiated?
      && m.autoOn && AutoDelayMs(m.autoSecs) == 0
      && !m.timerRunning && AutoTurnOff !in m.queue
  }

  lemma TurnedOnLive(m: Light, actor: Actor)
    requires Live(m)
    ensures Live(TurnedOn(m, actor)) <==> !Drops(m, Do(Act(actor, On)))
  {
    assert TurnedOn(m, actor).queue == m.queue;
  }

  lemma TurnedOffLive(m: Light, actor: Actor)
    requires Live(m)
    ensures Live(TurnedOff(m, actor))
  {
    assert TurnedOff(m, actor).queue == m.queue;
  }

  lemma CommandLive(m: Light, c: Command)
    requires Live(m)
    ensures Live(Done(m, c)) <==> !Drops(m, Do(c))
  {
    match c
    case Act(actor, On) => TurnedOnLive(m, actor);
    case Act(actor, Off) => TurnedOffLive(m, actor);
    case _ => assert Done(m, c).queue == m.queue;
  }

  lemma ExpireLive(m: Light)
    requires Live(m) && m.timerRunning
    ensures Live(Expired(m)) <==> !Drops(m, Expire)
  {
    var after := Expired(m);
    assert forall h: Handler :: h in after.queue <==> h in m.queue || h == DueHandler(m);
  }

  /** `Live` for a light whose next handler `h` has just been taken from the queue. */
  predicate LiveBefore(m: Light, h: Handler) {
    && (Moving(m.st) ==>
          || m.timerRunning
          || h == ActuatorMovement || ActuatorMovement in m.queue
          || (m.effectArmed && (h == OffEffect || OffEffect in m.queue))
          || (m.autoArmed && (h == AutoTurnOff || AutoTurnOff in m.queue)))
    && (m.effectArmed ==> m.timerRunning || h == OffEffect || OffEffect in m.queue)
    && (m.autoArmed ==> m.timerRunning || h == AutoTurnOff || AutoTurnOff in m.queue)
  }

  lemma FlagHandledLive(m: Light, h: Handler)
    requires LiveBefore(m, h) && h != ActuatorMovement
    ensures Live(Handled(m, h))
  {
    assert Handled(m, h).queue == m.queue;
  }

  lemma ArrivedLive(m: Light)
    requires LiveBefore(m, ActuatorMovement)
    ensures Live(Arrived(m)) <==>
            !(m.st.OnInitiated? && m.autoOn && AutoDelayMs(m.autoSecs) == 0
              && !m.timerRunning && AutoTurnOff !in m.queue)
  {
    assert Arrived(m).queue == m.queue;
  }

  lemma HandledLive(m: Light, h: Handler)
    requires LiveBefore(m, h)
    ensures Live(Handled(m, h)) <==>
            !(h == ActuatorMovement && m.st.OnInitiated? && m.autoOn && AutoDelayMs(m.autoSecs) == 0
              && !m.timerRunning && AutoTurnOff !in m.queue)
  {
    match h
    case AutoTurnOff => FlagHandledLive(m, h);
    case OffEffect => FlagHandledLive(m, h);
    case ActuatorMovement => ArrivedLive(m);
  }

  lemma DispatchLive(m: Light)
    requires Live(m) && m.queue != []
    ensures Live(Next(m, Dispatch)) <==> !Drops(m, Dispatch)
  {
    var h, rest := m.queue[0], m.queue[1..];
    assert forall k: Handler :: k in m.queue <==> k == h || k in rest;
    HandledLive(m.(queue := rest), h);
  }

  /** Exactly which steps break the promise, whatever the flags and the queue. */
  lemma StepLive(m: Light, s: Step)
    requires Live(m)
    ensures Live(Next(m, s)) <==> !Drops(m, s)
  {
    match s
    case Do(c) => CommandLive(m, c);
    case Expire => if m.timerRunning { ExpireLive(m); }
    case Dispatch => if m.queue != [] { DispatchLive(m); }
  }

  // ---------------------------------------------------------------- progress over runs

  predicate LiveThroughout(m: Light, steps: seq<Step>)
    decreases |steps|
  {
    Live(m) && (steps != [] ==> LiveThroughout(Next(m, steps[0]), steps[1..]))
  }

  predicate NeverDrops(m: Light, steps: seq<Step>)
    decreases |steps|
  {
    steps != [] ==> !Drops(m, steps[0]) && NeverDrops(Next(m, steps[0]), steps[1..])
  }

  /** The exact condition for progress, for every mix of features and every interleaving. */
  lemma {:induction false} RunLive(m: Light, steps: seq<Step>)
    requires Live(m)
    ensures LiveThroughout(m, steps) <==> NeverDrops(m, steps)
    ensures NeverDrops(m, steps) ==> Live(Run(m, steps))
    decreases |steps|
  {
    if steps != [] {
      StepLive(m, steps[0]);
      if !Drops(m, steps[0]) {
        RunLive(Next(m, steps[0]), steps[1..]);
      }
    }
  }

  /** Auto turn-off is off and unarmed, as `Init` leaves it. */
  predicate AutoIdle(m: Light) {
    !m.autoOn && !m.autoArmed
  }

  predicate AutoUnused(steps: seq<Step>) {
    forall i :: 0 <= i < |steps| ==> steps[i] != Do(EnableAuto(true))
  }

  predicate EffectsKnown(steps: seq<Step>) {
    forall i :: 0 <= i < |steps| && steps[i].Do? && steps[i].command.OffWithEffect?
      ==> EffectDelayMs(steps[i].command.effect) != 0
  }

  lemma StepAutoIdle(m: Light, s: Step)
    requires AutoIdle(m) && s != Do(EnableAuto(true))
    ensures AutoIdle(Next(m, s))
  {
  }

  /** With auto turn-off unused and known effects only, the machine is never stuck. */
  lemma {:induction false} ProgressWithoutAuto(m: Light, steps: seq<Step>)
    requires Live(m) && AutoIdle(m)
    requires AutoUnused(steps) && EffectsKnown(steps)
    ensures LiveThroughout(m, steps)
    ensures Live(Run(m, steps)) && AutoIdle(Run(m, steps))
    decreases |steps|
  {
    if steps != [] {
      StepAutoIdle(m, steps[0]);
      StepLive(m, steps[0]);
      ProgressWithoutAuto(Next(m, steps[0]), steps[1..]);
    }
  }

  predicate EffectsUnused(steps: seq<Step>) {
    forall i :: 0 <= i < |steps| && steps[i].Do? ==> !steps[i].command.OffWithEffect?
  }

  /** Auto turn-off is never on with a delay that cannot be started. */
  predicate AutoConfigured(m: Light, steps: seq<Step>)
    decreases |steps|
  {
    && (m.autoOn ==> AutoDelayMs(m.autoSecs) != 0)
    && (steps != [] ==> AutoConfigured(Next(m, steps[0]), steps[1..]))
  }

  predicate EffectIdle(m: Light) {
    !m.effectArmed && (m.autoArmed ==> m.st.OnCompleted?)
  }

  lemma CommandEffectIdle(m: Light, c: Command)
    requires EffectIdle(m) && !c.OffWithEffect?
    ensures EffectIdle(Done(m, c))
  {
  }

  lemma HandlerEffectIdle(m: Light, h: Handler)
    requires EffectIdle(m)
    ensures EffectIdle(Handled(m, h))
  {
  }

  lemma StepEffectIdle(m: Light, s: Step)
    requires EffectIdle(m) && (s.Do? ==> !s.command.OffWithEffect?)
    ensures EffectIdle(Next(m, s))
  {
    match s
    case Do(c) => CommandEffectIdle(m, c);
    case Expire =>
    case Dispatch => if m.queue != [] { HandlerEffectIdle(m.(queue := m.queue[1..]), m.queue[0]); }
  }

  /** With auto turn-off in use but no off effect, the machine is never stuck either. */
  lemma {:induction false} ProgressWithoutEffect(m: Light, steps: seq<Step>)
    requires Live(m) && EffectIdle(m)
    requires EffectsUnused(steps) && AutoConfigured(m, steps)
    ensures LiveThroughout(m, steps)
    ensures Live(Run(m, steps)) && EffectIdle(Run(m, steps))
    ensures Settled(Run(m, steps)) ==> !Moving(Run(m, steps).st) && !Run(m, steps).autoArmed
    decreases |steps|
  {
    if steps != [] {
      StepEffectIdle(m, steps[0]);
      StepLive(m, steps[0]);
      ProgressWithoutEffect(Next(m, steps[0]), steps[1..]);
    }
  }

  // ---------------------------------------------------------------- both features together

  /** The off effect armed on a lit lamp with nothing on its way. */
  predicate Stranded(m: Light) {
    m.effectArmed && m.st.OnCompleted? && !m.autoArmed && Settled(m)
  }

  /** The only steps that can free a stranded lamp. */
  predicate Frees(s: Step) {
    match s
    case Do(Act(_, On)) => true
    case Do(Sync(_)) => true
    case Do(OffWithEffect(effect)) => EffectDelayMs(effect) != 0
    case _ => false
  }

  lemma StepStranded(m: Light, s: Step)
    requires Stranded(m)
    ensures Stranded(Next(m, s)) <==> !Frees(s)
  {
  }

  predicate StrandedThroughout(m: Light, steps: seq<Step>)
    decreases |steps|
  {
    Stranded(m) && (steps != [] ==> StrandedThroughout(Next(m, steps[0]), steps[1..]))
  }

  /** A stranded lamp ignores every OFF, and everything else, of every later history: it stays
      stranded exactly until an ON, a synchronisation or an off effect with a delay. */
  lemma {:induction false} StrandedIgnoresOff(m: Light, steps: seq<Step>)
    requires Stranded(m)
    ensures StrandedThroughout(m, steps) <==> forall i :: 0 <= i < |steps| ==> !Frees(steps[i])
    ensures StrandedThroughout(m, steps) ==> Stranded(Run(m, steps))
    decreases |steps|
  {
    if steps != [] {
      StepStranded(m, steps[0]);
      if !Frees(steps[0]) {
        StrandedIgnoresOff(Next(m, steps[0]), steps[1..]);
        assert steps == [steps[0]] + steps[1..];
      }
    }
  }

  lemma RunTwo(m: Light, s: Step, t: Step, steps: seq<Step>)
    ensures Run(m, [s, t] + steps) == Run(Next(Next(m, s), t), steps)
  {
    assert ([s, t] + steps)[1..] == [t] + steps;
    assert ([t] + steps)[1..] == steps;
  }

  /** A lamp switched on with auto turn-off, and then given an off effect. */
  function ArmingSteps(user: Actor): seq<Step> {
    [Do(EnableAuto(true)), Do(SetAutoSecs(5)), Do(Act(user, On)), Expire, Dispatch,
     Do(OffWithEffect(DyingLight(DyingLightFadeOff)))]
  }

  /** What that leads to: lit, with both flags armed and the timer running. */
  function BothArmed(user: Actor): Light {
    Boot(false).(st := OnCompleted, autoOn := true, autoSecs := 5, autoArmed := true, effectArmed := true,
                 timerRunning := true, delayMs := 1500, notices := [Initiated(On, user), Completed(On)])
  }

  lemma LitWithBothArmed(m: Light, both: Light)
    requires m.st.OnInitiated? && m.queue == [ActuatorMovement] && m.autoOn && m.autoSecs == 5
    requires both == m.(st := OnCompleted, queue := [], timerRunning := true, autoArmed := true,
                        effectArmed := true, delayMs := 1500, notices := m.notices + [Completed(On)])
    ensures both == Next(Next(m, Dispatch), Do(OffWithEffect(DyingLight(DyingLightFadeOff))))
  {
    assert m.queue[1..] == [];
  }

  lemma ArmingRuns(user: Actor, tail: seq<Step>)
    ensures Run(Boot(false), ArmingSteps(user) + tail) == Run(BothArmed(user), tail)
  {
    var off := Do(OffWithEffect(DyingLight(DyingLightFadeOff)));
    var m2 := Boot(false).(autoOn := true, autoSecs := 5);
    var m4 := m2.(st := OnInitiated, delayMs := 10, queue := [ActuatorMovement], notices := [Initiated(On, user)]);
    assert m2 == Next(Next(Boot(false), Do(EnableAuto(true))), Do(SetAutoSecs(5)));
    assert m4 == Next(Next(m2, Do(Act(user, On))), Expire);
    LitWithBothArmed(m4, BothArmed(user));
    var rest := [Do(Act(user, On)), Expire] + ([Dispatch, off] + tail);
    assert ArmingSteps(user) + tail == [Do(EnableAuto(true)), Do(SetAutoSecs(5))] + rest;
    RunTwo(Boot(false), Do(EnableAuto(true)), Do(SetAutoSecs(5)), rest);
    RunTwo(m2, Do(Act(user, On)), Expire, [Dispatch, off] + tail);
    RunTwo(m4, Dispatch, off, tail);
  }

  /** Mixing the two features strands the lamp, starting from a dark one. */
  lemma MixedFeaturesStrand(user: Actor)
    ensures Stranded(Run(Boot(false), ArmingSteps(user) + [Expire, Dispatch]))
  {
    var m := BothArmed(user);
    ArmingRuns(user, [Expire, Dispatch]);
    assert Expired(m).queue == [AutoTurnOff];
    assert m.(timerRunning := false, autoArmed := false) == Next(Next(m, Expire), Dispatch);
    assert [Expire, Dispatch] == [Expire, Dispatch] + [];
    RunTwo(m, Expire, Dispatch, []);
  }

  // ---------------------------------------------------------------- outcome

  /** Where the machine is heading once everything on its way has happened. */
  predicate HeadingOn(m: Light) {
    !m.effectArmed && (m.st.OnInitiated? || m.st.OnCompleted?)
  }

  /** What a step asks of the lamp, if anything. */
  function Intent(s: Step): Option<bool> {
    match s
    case Do(Act(_, On)) => Some(true)
    case Do(Act(_, Off)) => Some(false)
    case Do(OffWithEffect(_)) => Some(false)
    case Do(Sync(on)) => Some(on)
    case _ => None
  }

  /** The latest request in a history, or `before` when there is none. */
  function LatestIntent(before: bool, steps: seq<Step>): bool
    decreases |steps|
  {
    if steps == [] then before else
    match Intent(steps[|steps| - 1])
    case Some(on) => on
    case None => LatestIntent(before, steps[..|steps| - 1])
  }

  lemma StepHeading(m: Light, s: Step)
    requires AutoIdle(m)
    ensures HeadingOn(Next(m, s)) == (match Intent(s) case Some(on) => on case None => HeadingOn(m))
  {
  }

  lemma {:induction false} RunLast(m: Light, steps: seq<Step>, s: Step)
    ensures Run(m, steps + [s]) == Next(Run(m, steps), s)
    decreases |steps|
  {
    if steps == [] {
      assert steps + [s] == [s];
      assert Run(Next(m, s), [s][1..]) == Next(m, s);
    } else {
      assert (steps + [s])[1..] == steps[1..] + [s];
      RunLast(Next(m, steps[0]), steps[1..], s);
    }
  }

  lemma {:induction false} RunHeading(m: Light, steps: seq<Step>)
    requires AutoIdle(m) && AutoUnused(steps)
    ensures AutoIdle(Run(m, steps))
    ensures HeadingOn(Run(m, steps)) == LatestIntent(HeadingOn(m), steps)
    decreases |steps|
  {
    if steps != [] {
      var last, before := steps[|steps| - 1], steps[..|steps| - 1];
      assert steps == before + [last];
      RunHeading(m, before);
      RunLast(m, before, last);
      StepAutoIdle(Run(m, before), last);
      StepHeading(Run(m, before), last);
    }
  }

  /** However expiries and posted handlers interleave with the commands, once nothing is
      pending the lamp is in the completed state the latest request asked for. */
  lemma OutcomeIsLatestIntent(m: Light, steps: seq<Step>)
    requires Live(m) && AutoIdle(m)
    requires AutoUnused(steps) && EffectsKnown(steps)
    ensures HeadingOn(Run(m, steps)) == LatestIntent(HeadingOn(m), steps)
    ensures Settled(Run(m, steps)) ==>
              && Run(m, steps).st == Completion(LatestIntent(HeadingOn(m), steps))
              && !Run(m, steps).effectArmed
  {
    ProgressWithoutAuto(m, steps);
    RunHeading(m, steps);
  }

  /** From power-on: every history without auto turn-off and unknown effects keeps the machine
      live, and settles as the latest request, or the power-on state, says. */
  lemma EveryRunFromBoot(on: bool, steps: seq<Step>)
    requires AutoUnused(steps) && EffectsKnown(steps)
    ensures LiveThroughout(Boot(on), steps)
    ensures Settled(Run(Boot(on), steps)) ==> Run(Boot(on), steps).st == Completion(LatestIntent(on, steps))
  {
    ProgressWithoutAuto(Boot(on), steps);
    OutcomeIsLatestIntent(Boot(on), steps);
  }

  // ---------------------------------------------------------------- since when

  /** No step from the `k`-th on is an end. */
  ghost predicate NoneAfter(m: Light, steps: seq<Step>, ends: (Light, Step) -> bool, k: nat) {
    forall j: nat :: k <= j < |steps| ==> !ends(Run(m, steps[..j]), steps[j])
  }

  ghost predicate SinceAt(m: Light, steps: seq<Step>, starts: (Light, Step) -> bool, ends: (Light, Step) -> bool,
                          k: nat)
    requires k < |steps|
  {
    starts(Run(m, steps[..k]), steps[k]) && NoneAfter(m, steps, ends, k + 1)
  }

  /** Some step of the run was a start, and no step since has been an end. */
  ghost predicate Since(m: Light, steps: seq<Step>, starts: (Light, Step) -> bool, ends: (Light, Step) -> bool) {
    exists k: nat :: k < |steps| && SinceAt(m, steps, starts, ends, k)
  }

  lemma NoneAfterLast(m: Light, steps: seq<Step>, ends: (Light, Step) -> bool, k: nat)
    requires k < |steps|
    ensures var n := |steps| - 1;
            NoneAfter(m, steps, ends, k) <==>
              NoneAfter(m, steps[..n], ends, k) && !ends(Run(m, steps[..n]), steps[n])
  {
    var n := |steps| - 1;
    var before := steps[..n];
    assert forall j: nat :: j < n ==> steps[..j] == before[..j] && steps[j] == before[j];
  }

  lemma SinceLast(m: Light, steps: seq<Step>, starts: (Light, Step) -> bool, ends: (Light, Step) -> bool)
    requires steps != []
    ensures var n := |steps| - 1;
            var before, now := steps[..n], Run(m, steps[..n]);
            Since(m, steps, starts, ends) <==>
              starts(now, steps[n]) || (Since(m, before, starts, ends) && !ends(now, steps[n]))
  {
    var n := |steps| - 1;
    var before := steps[..n];
    if starts(Run(m, before), steps[n]) {
      assert SinceAt(m, steps, starts, ends, n);
    }
    if Since(m, before, starts, ends) && !ends(Run(m, before), steps[n]) {
      var k: nat :| k < |before| && SinceAt(m, before, starts, ends, k);
      assert steps[..k] == before[..k];
      NoneAfterLast(m, steps, ends, k + 1);
      assert SinceAt(m, steps, starts, ends, k);
    }
    if Since(m, steps, starts, ends) {
      var k: nat :| k < |steps| && SinceAt(m, steps, starts, ends, k);
      if k < n {
        assert steps[..k] == before[..k];
        NoneAfterLast(m, steps, ends, k + 1);
        assert SinceAt(m, before, starts, ends, k);
      }
    }
  }

  // ---------------------------------------------------------------- outcome with both features

  /** Lit now or soon, with nothing armed that would turn the lamp off, or about to be. */
  predicate StaysLit(m: Light) {
    !m.effectArmed && !m.autoArmed && (m.st.OnCompleted? || (m.st.OnInitiated? && !m.autoOn))
  }

  /** The steps after which it holds whatever was before. An ON does not make it hold while auto
      turn-off is armed, and from a dark lamp or under an effect not while it is enabled. */
  predicate Gains(m: Light, s: Step) {
    match s
    case Do(Sync(on)) => on
    case Do(Act(_, On)) => !m.autoArmed && (m.effectArmed || m.st.OffCompleted? ==> !m.autoOn)
    case Do(EnableAuto(enable)) => !enable && m.st.OnInitiated? && !m.effectArmed && !m.autoArmed
    case _ => false
  }

  /** The steps after which it does not hold. */
  predicate Loses(m: Light, s: Step) {
    match s
    case Do(Sync(on)) => !on
    case Do(Act(_, Off)) => true
    case Do(EnableAuto(enable)) => enable && m.st.OnInitiated?
    case Do(OffWithEffect(_)) => true
    case _ => false
  }

  lemma CommandStaysLit(m: Light, c: Command)
    ensures StaysLit(Done(m, c)) <==> Gains(m, Do(c)) || (StaysLit(m) && !Loses(m, Do(c)))
  {
  }

  lemma HandlerStaysLit(m: Light, h: Handler)
    ensures StaysLit(Handled(m, h)) <==> StaysLit(m)
  {
  }

  /** Exactly what every step does to it, in every state; expiries and handlers do nothing. */
  lemma StepStaysLit(m: Light, s: Step)
    ensures StaysLit(Next(m, s)) <==> Gains(m, s) || (StaysLit(m) && !Loses(m, s))
  {
    match s
    case Do(c) => CommandStaysLit(m, c);
    case Expire =>
    case Dispatch => if m.queue != [] { HandlerStaysLit(m.(queue := m.queue[1..]), m.queue[0]); }
  }

  /** Read off the history: gained and not lost since, or held from the start and never lost. */
  ghost predicate LitByHistory(m: Light, steps: seq<Step>) {
    Since(m, steps, Gains, Loses) || (StaysLit(m) && NoneAfter(m, steps, Loses, 0))
  }

  lemma {:induction false} RunStaysLit(m: Light, steps: seq<Step>)
    ensures StaysLit(Run(m, steps)) <==> LitByHistory(m, steps)
    decreases |steps|
  {
    if steps != [] {
      var n := |steps| - 1;
      assert steps == steps[..n] + [steps[n]];
      RunStaysLit(m, steps[..n]);
      RunLast(m, steps[..n], steps[n]);
      StepStaysLit(Run(m, steps[..n]), steps[n]);
      SinceLast(m, steps, Gains, Loses);
      NoneAfterLast(m, steps, Loses, 0);
    }
  }

  /** Whatever features are used and however everything interleaves: a run that never drops
      anything settles with no flag armed, lit exactly if its history says so. */
  lemma OutcomeByHistory(m: Light, steps: seq<Step>)
    requires Live(m) && NeverDrops(m, steps) && Settled(Run(m, steps))
    ensures var end := Run(m, steps);
            && end.st == Completion(LitByHistory(m, steps))
            && !end.effectArmed && !end.autoArmed
  {
    RunLive(m, steps);
    RunStaysLit(m, steps);
  }

  lemma {:induction false} InternalKeepsLit(m: Light, steps: seq<Step>)
    requires Internal(steps)
    ensures StaysLit(Run(m, steps)) == StaysLit(m)
    decreases |steps|
  {
    if steps != [] {
      StepStaysLit(m, steps[0]);
      InternalKeepsLit(Next(m, steps[0]), steps[1..]);
    }
  }

  /** After any history, every way of settling that drops nothing ends lit exactly if the state
      reached stays lit, and dark otherwise. */
  lemma SettlesLitExactly(m: Light, steps: seq<Step>, internal: seq<Step>)
    requires Live(m) && NeverDrops(m, steps) && NeverDrops(Run(m, steps), internal) && Internal(internal)
    requires Settled(Run(Run(m, steps), internal))
    ensures Run(Run(m, steps), internal).st == Completion(StaysLit(Run(m, steps)))
  {
    RunLive(m, steps);
    RunLive(Run(m, steps), internal);
    InternalKeepsLit(Run(m, steps), internal);
  }

  /** Without off effects and with a startable delay, nothing is ever dropped. */
  lemma NeverDropsWithoutEffect(m: Light, steps: seq<Step>)
    requires Live(m) && EffectIdle(m)
    requires EffectsUnused(steps) && AutoConfigured(m, steps)
    ensures NeverDrops(m, steps)
  {
    ProgressWithoutEffect(m, steps);
    RunLive(m, steps);
  }

  lemma HandlerKeepsAutoOn(m: Light, h: Handler)
    ensures Handled(m, h).autoOn == m.autoOn && Handled(m, h).autoSecs == m.autoSecs
  {
  }

  lemma InternalKeepsSettings(m: Light, s: Step)
    requires !s.Do?
    ensures Next(m, s).autoOn == m.autoOn && Next(m, s).autoSecs == m.autoSecs
  {
    if s == Dispatch && m.queue != [] {
      HandlerKeepsAutoOn(m.(queue := m.queue[1..]), m.queue[0]);
    }
  }

  lemma {:induction false} ConfiguredAfter(m: Light, steps: seq<Step>, internal: seq<Step>)
    requires AutoConfigured(m, steps) && Internal(internal)
    ensures AutoConfigured(Run(m, steps), internal)
    decreases |steps|, |internal|
  {
    if steps != [] {
      ConfiguredAfter(Next(m, steps[0]), steps[1..], internal);
    } else if internal != [] {
      InternalKeepsSettings(m, internal[0]);
      ConfiguredAfter(Next(m, internal[0]), [], internal[1..]);
    }
  }

  /** So without off effects, and with a startable delay, every way of settling agrees. */
  lemma SettlesLitWithoutEffect(m: Light, steps: seq<Step>, internal: seq<Step>)
    requires Live(m) && EffectIdle(m)
    requires EffectsUnused(steps) && AutoConfigured(m, steps) && Internal(internal)
    requires Settled(Run(Run(m, steps), internal))
    ensures Run(Run(m, steps), internal).st == Completion(StaysLit(Run(m, steps)))
  {
    NeverDropsWithoutEffect(m, steps);
    ProgressWithoutEffect(m, steps);
    ConfiguredAfter(m, steps, internal);
    NeverDropsWithoutEffect(Run(m, steps), internal);
    SettlesLitExactly(m, steps, internal);
  }

  lemma DispatchAutoTurnOff(m: Light)
    requires m.queue == [AutoTurnOff] && m.autoArmed && !m.effectArmed && m.st.OnInitiated?
    ensures var end := Next(m, Dispatch);
            Settled(end) && end.st == OffCompleted
  {
    assert m.queue[1..] == [];
  }

  /** An ON during an off effect, while auto turn-off is armed: the expiry that should complete it
      is taken for auto turn-off, and the lamp settles dark. */
  lemma LateOnEndsDark(user: Actor)
    ensures var end := Run(Boot(false), ArmingSteps(user) + [Do(Act(user, On)), Expire, Dispatch]);
            Settled(end) && end.st == OffCompleted
  {
    var on, m := Do(Act(user, On)), BothArmed(user);
    var m2 := m.(st := OnInitiated, effectArmed := false, timerRunning := false, delayMs := 10, queue := [AutoTurnOff],
                 notices := m.notices + [Initiated(On, user)]);
    ArmingRuns(user, [on, Expire, Dispatch]);
    assert m2 == Next(Next(m, on), Expire);
    assert [on, Expire, Dispatch] == [on, Expire] + [Dispatch];
    RunTwo(m, on, Expire, [Dispatch]);
    DispatchAutoTurnOff(m2);
    assert [Dispatch][1..] == [];
  }

  // ---------------------------------------------------------------- lit although auto turn-off is on

  /** Armed with nothing on its way: only a zero delay does this without an off effect. */
  predicate ArmedForNothing(m: Light) {
    m.autoArmed && !m.timerRunning && AutoTurnOff !in m.queue
  }

  predicate Disarms(m: Light, s: Step) {
    s.Do? && (s.command.Sync? || (s.command.Act? && s.command.action == Off))
  }

  lemma HandlerArmedForNothing(m: Light, h: Handler, rest: seq<Handler>)
    requires EffectIdle(m) && m.queue == [h] + rest
    ensures ArmedForNothing(Handled(m.(queue := rest), h)) <==>
              || ArmedForNothing(m)
              || (h == ActuatorMovement && m.st.OnInitiated? && m.autoOn && AutoDelayMs(m.autoSecs) == 0
                  && !m.timerRunning && AutoTurnOff !in m.queue)
  {
    assert AutoTurnOff in m.queue <==> h == AutoTurnOff || AutoTurnOff in rest;
    assert Handled(m.(queue := rest), h).queue == rest;
  }

  lemma CommandArmedForNothing(m: Light, c: Command)
    requires EffectIdle(m) && !c.OffWithEffect?
    ensures ArmedForNothing(Done(m, c)) <==> ArmedForNothing(m) && !Disarms(m, Do(c))
  {
    assert Done(m, c).queue == m.queue;
  }

  /** Exactly what every step does to it. */
  lemma StepArmedForNothing(m: Light, s: Step)
    requires EffectIdle(m) && (s.Do? ==> !s.command.OffWithEffect?)
    ensures ArmedForNothing(Next(m, s)) <==> Drops(m, s) || (ArmedForNothing(m) && !Disarms(m, s))
  {
    match s
    case Do(c) => CommandArmedForNothing(m, c);
    case Expire =>
      if m.timerRunning {
        assert AutoTurnOff in Expired(m).queue <==> m.autoArmed || AutoTurnOff in m.queue;
      }
    case Dispatch =>
      if m.queue != [] {
        assert m.queue == [m.queue[0]] + m.queue[1..];
        HandlerArmedForNothing(m, m.queue[0], m.queue[1..]);
      }
  }

  /** A transition has its timer or its handler on the way. */
  predicate MovesOn(m: Light) {
    Moving(m.st) ==> m.timerRunning || ActuatorMovement in m.queue
  }

  lemma CommandMovesOn(m: Light, c: Command)
    requires EffectIdle(m) && MovesOn(m) && !c.OffWithEffect?
    ensures MovesOn(Done(m, c))
  {
    assert Done(m, c).queue == m.queue;
  }

  lemma HandlerMovesOn(m: Light, h: Handler, rest: seq<Handler>)
    requires EffectIdle(m) && MovesOn(m) && m.queue == [h] + rest
    ensures MovesOn(Handled(m.(queue := rest), h))
  {
    assert ActuatorMovement in m.queue <==> h == ActuatorMovement || ActuatorMovement in rest;
    assert Handled(m.(queue := rest), h).queue == rest;
  }

  lemma StepMovesOn(m: Light, s: Step)
    requires EffectIdle(m) && MovesOn(m) && (s.Do? ==> !s.command.OffWithEffect?)
    ensures MovesOn(Next(m, s))
  {
    match s
    case Do(c) => CommandMovesOn(m, c);
    case Expire =>
      if m.timerRunning {
        assert DueHandler(m) in Expired(m).queue;
      }
    case Dispatch =>
      if m.queue != [] {
        assert m.queue == [m.queue[0]] + m.queue[1..];
        HandlerMovesOn(m, m.queue[0], m.queue[1..]);
      }
  }

  /** The steps that leave the lamp lit for good although auto turn-off is on, and those that turn
      it off again. */
  predicate Rescues(m: Light, s: Step) {
    match s
    case Do(Sync(on)) => on
    case Do(Act(_, On)) => Moving(m.st)
    case _ => false
  }

  predicate TurnsOff(m: Light, s: Step) {
    match s
    case Do(Sync(on)) => !on
    case Do(Act(_, Off)) => true
    case _ => false
  }

  lemma StepLitDespiteAuto(m: Light, s: Step)
    requires EffectIdle(m) && m.autoOn && s != Do(EnableAuto(false)) && (s.Do? ==> !s.command.OffWithEffect?)
    ensures StaysLit(Next(m, s)) <==> Rescues(m, s) || (StaysLit(m) && !TurnsOff(m, s))
  {
    StepStaysLit(m, s);
  }

  predicate AutoKeptOn(steps: seq<Step>) {
    forall i :: 0 <= i < |steps| ==> steps[i] != Do(EnableAuto(false))
  }

  lemma CommandKeepsAutoOn(m: Light, c: Command)
    requires c != EnableAuto(false) && m.autoOn
    ensures Done(m, c).autoOn
  {
  }

  lemma StepKeepsAutoOn(m: Light, s: Step)
    requires m.autoOn && s != Do(EnableAuto(false))
    ensures Next(m, s).autoOn
  {
    if s.Do? {
      CommandKeepsAutoOn(m, s.command);
    } else {
      InternalKeepsSettings(m, s);
    }
  }

  /** Rescued and not turned off since, or lit from the start and never turned off. */
  ghost predicate LitDespiteAuto(m: Light, steps: seq<Step>) {
    Since(m, steps, Rescues, TurnsOff) || (StaysLit(m) && NoneAfter(m, steps, TurnsOff, 0))
  }

  lemma {:induction false} RunLitDespiteAuto(m: Light, steps: seq<Step>)
    requires EffectIdle(m) && MovesOn(m) && m.autoOn && EffectsUnused(steps) && AutoKeptOn(steps)
    ensures var end := Run(m, steps);
            && EffectIdle(end) && MovesOn(end) && end.autoOn
            && (StaysLit(end) <==> LitDespiteAuto(m, steps))
    decreases |steps|
  {
    if steps != [] {
      var n := |steps| - 1;
      var now := Run(m, steps[..n]);
      assert steps == steps[..n] + [steps[n]];
      RunLitDespiteAuto(m, steps[..n]);
      RunLast(m, steps[..n], steps[n]);
      StepEffectIdle(now, steps[n]);
      StepMovesOn(now, steps[n]);
      StepKeepsAutoOn(now, steps[n]);
      StepLitDespiteAuto(now, steps[n]);
      SinceLast(m, steps, Rescues, TurnsOff);
      NoneAfterLast(m, steps, TurnsOff, 0);
    }
  }

  lemma {:induction false} RunArmedForNothing(m: Light, steps: seq<Step>)
    requires EffectIdle(m) && !ArmedForNothing(m) && EffectsUnused(steps)
    ensures EffectIdle(Run(m, steps))
    ensures ArmedForNothing(Run(m, steps)) <==> Since(m, steps, Drops, Disarms)
    decreases |steps|
  {
    if steps != [] {
      var n := |steps| - 1;
      var now := Run(m, steps[..n]);
      assert steps == steps[..n] + [steps[n]];
      RunArmedForNothing(m, steps[..n]);
      RunLast(m, steps[..n], steps[n]);
      StepEffectIdle(now, steps[n]);
      StepArmedForNothing(now, steps[n]);
      SinceLast(m, steps, Drops, Disarms);
    }
  }

  /** With auto turn-off on all the time and no off effect, the lamp settles lit exactly in three
      cases: it was rescued, by a synchronisation to ON or by an ON that found it in mid-transition,
      and not turned off since; it was lit with nothing armed at the start and never turned off; or
      auto turn-off was armed with a zero delay, which starts no timer, and not disarmed since. A
      startable delay rules the third case out. */
  lemma LitDespiteAutoExactly(m: Light, steps: seq<Step>)
    requires Live(m) && EffectIdle(m) && m.autoOn && EffectsUnused(steps) && AutoKeptOn(steps)
    requires Settled(Run(m, steps))
    ensures Run(m, steps).st == Completion(LitDespiteAuto(m, steps) || Since(m, steps, Drops, Disarms))
    ensures AutoConfigured(m, steps) ==> !Since(m, steps, Drops, Disarms)
  {
    RunLitDespiteAuto(m, steps);
    RunArmedForNothing(m, steps);
    if AutoConfigured(m, steps) {
      ProgressWithoutEffect(m, steps);
    }
  }

  /** A second ON before the first has completed: the lamp settles lit with auto turn-off on and
      never armed. */
  lemma RepeatedOnSkipsAuto(user: Actor)
    ensures var on := Do(Act(user, On));
            var end := Run(Boot(false), [Do(EnableAuto(true)), Do(SetAutoSecs(5)), on, on]);
            Settled(end) && end.st == OnCompleted && end.autoOn && !end.autoArmed
  {
    var on := Do(Act(user, On));
    var m2 := Boot(false).(autoOn := true, autoSecs := 5);
    assert m2 == Next(Next(Boot(false), Do(EnableAuto(true))), Do(SetAutoSecs(5)));
    RunTwo(Boot(false), Do(EnableAuto(true)), Do(SetAutoSecs(5)), [on, on] + []);
    RunTwo(m2, on, on, []);
    assert [Do(EnableAuto(true)), Do(SetAutoSecs(5)), on, on]
        == [Do(EnableAuto(true)), Do(SetAutoSecs(5))] + ([on, on] + []);
  }

  lemma MovementArmsForNothing(m: Light)
    requires m.st == OnInitiated && m.timerRunning && m.queue == [] && !m.effectArmed && !m.autoArmed
    requires m.autoOn && AutoDelayMs(m.autoSecs) == 0
    ensures var end := Next(Next(m, Expire), Dispatch);
            Settled(end) && end.st == OnCompleted && end.autoArmed
  {
    var expired := Next(m, Expire);
    assert expired.queue == [ActuatorMovement] && expired.queue[1..] == [];
  }

  /** Auto turn-off enabled with the duration 0 that Init leaves: armed, but never started. */
  lemma ZeroDelayStaysLit(user: Actor)
    ensures var end := Run(Boot(false), [Do(EnableAuto(true)), Do(Act(user, On)), Expire, Dispatch]);
            Settled(end) && end.st == OnCompleted && end.autoArmed
  {
    var enable, on, rest := Do(EnableAuto(true)), Do(Act(user, On)), [Expire, Dispatch];
    var lit := Boot(false).(autoOn := true, st := OnInitiated, timerRunning := true, delayMs := 10,
                            notices := [Initiated(On, user)]);
    assert lit == Next(Next(Boot(false), enable), on);
    MovementArmsForNothing(lit);
    RunTwo(Boot(false), enable, on, rest);
    RunTwo(lit, Expire, Dispatch, []);
    assert rest == rest + [] && [enable, on, Expire, Dispatch] == [enable, on] + rest;
  }

  // ---------------------------------------------------------------- termination

  /** An upper bound on the internal steps still to come. */
  function Potential(m: Light): nat {
    |m.queue| + (if m.timerRunning then 2 else 0)
    + (match m.st case OnInitiated => 4 case OnCompleted => 2 case _ => 0)
  }

  lemma TurnOffConsumes(m: Light)
    ensures Potential(TurnedOff(m, TimerActor)) <= Potential(m)
  {
  }

  lemma ArrivalConsumes(m: Light)
    ensures Potential(Arrived(m)) <= Potential(m)
  {
  }

  lemma HandlerConsumes(m: Light, h: Handler)
    ensures Potential(Handled(m, h)) <= Potential(m)
  {
    match h
    case AutoTurnOff => TurnOffConsumes(m.(autoArmed := false));
    case OffEffect => TurnOffConsumes(m.(effectArmed := false));
    case ActuatorMovement => ArrivalConsumes(m);
  }

  lemma InternalStepConsumes(m: Light, s: Step)
    requires !s.Do? && Due(m, s)
    ensures Potential(Next(m, s)) < Potential(m)
  {
    if s == Dispatch {
      HandlerConsumes(m.(queue := m.queue[1..]), m.queue[0]);
    }
  }

  /** How many steps of a run were due when their turn came. */
  function DueSteps(m: Light, steps: seq<Step>): nat
    decreases |steps|
  {
    if steps == [] then 0 else
    (if Due(m, steps[0]) then 1 else 0) + DueSteps(Next(m, steps[0]), steps[1..])
  }

  /** No internal run goes on for ever: at most queue length + 6 of its steps do anything,
      whatever the flags, the auto turn-off setting and the queue. */
  lemma {:induction false} InternalRunsEnd(m: Light, steps: seq<Step>)
    requires Internal(steps)
    ensures DueSteps(m, steps) + Potential(Run(m, steps)) <= Potential(m) <= |m.queue| + 6
    decreases |steps|
  {
    if steps != [] {
      if Due(m, steps[0]) {
        InternalStepConsumes(m, steps[0]);
      }
      InternalRunsEnd(Next(m, steps[0]), steps[1..]);
    }
  }

  /** One internal schedule that runs until nothing is pending. */
  function Schedule(m: Light): (steps: seq<Step>)
    ensures Internal(steps) && |steps| <= Potential(m)
    ensures Settled(Run(m, steps))
    decreases Potential(m)
  {
    if Settled(m) then [] else
    var s := if m.timerRunning then Expire else Dispatch;
    InternalStepConsumes(m, s);
    var rest := Schedule(Next(m, s));
    assert ([s] + rest)[1..] == rest;
    [s] + rest
  }

  lemma {:induction false} InternalHasNoIntent(before: bool, steps: seq<Step>)
    requires Internal(steps)
    ensures LatestIntent(before, steps) == before
    decreases |steps|
  {
    if steps != [] {
      InternalHasNoIntent(before, steps[..|steps| - 1]);
    }
  }

  /** After any history the lamp can settle, and every way of settling ends alike. */
  lemma EverySettlingAgrees(m: Light, steps: seq<Step>, internal: seq<Step>)
    requires Live(m) && AutoIdle(m)
    requires AutoUnused(steps) && EffectsKnown(steps) && Internal(internal)
    requires Settled(Run(Run(m, steps), internal))
    ensures Run(Run(m, steps), internal).st == Completion(LatestIntent(HeadingOn(m), steps))
    ensures Run(Run(m, steps), Schedule(Run(m, steps))).st == Run(Run(m, steps), internal).st
  {
    ProgressWithoutAuto(m, steps);
    RunHeading(m, steps);
    var now := Run(m, steps);
    OutcomeIsLatestIntent(now, internal);
    OutcomeIsLatestIntent(now, Schedule(now));
    InternalHasNoIntent(HeadingOn(now), internal);
    InternalHasNoIntent(HeadingOn(now), Schedule(now));
  }

  // ---------------------------------------------------------------- synchronisation

  /** A synchronised state cannot be undone by anything that was already pending, from any
      state and queue and with auto turn-off on or off; brightness changes do not undo it
      either. */
  lemma {:induction false} SyncWins(m: Light, on: bool, steps: seq<Step>)
    requires m.st == Completion(on) && !m.effectArmed && !m.autoArmed
    requires forall i :: 0 <= i < |steps| && steps[i].Do? ==> Intent(steps[i]).None?
    ensures Run(m, steps).st == Completion(on)
    ensures !Run(m, steps).effectArmed && !Run(m, steps).autoArmed
    decreases |steps|
  {
    if steps != [] {
      SyncWins(Next(m, steps[0]), on, steps[1..]);
    }
  }

  lemma SyncBeatsStaleHandlers(m: Light, on: bool, steps: seq<Step>)
    requires forall i :: 0 <= i < |steps| && steps[i].Do? ==> Intent(steps[i]).None?
    ensures Run(Synced(m, on), steps).st == Completion(on)
    ensures !Run(Synced(m, on), steps).effectArmed && !Run(Synced(m, on), steps).autoArmed
  {
    SyncWins(Synced(m, on), on, steps);
  }

  // ---------------------------------------------------------------- notices

  /** The latest notice about the lamp being switched; brightness notices do not count. */
  function LatestSwitch(notices: seq<Notice>): Option<Notice>
    decreases |notices|
  {
    if notices == [] then None else
    var last := notices[|notices| - 1];
    if last.Initiated? && last.action == Level then LatestSwitch(notices[..|notices| - 1])
    else Some(last)
  }

  /** Every completion is reported once, for the action whose start was reported last. */
  predicate WellReported(notices: seq<Notice>) {
    forall i :: 0 <= i < |notices| && notices[i].Completed? ==>
      var start := LatestSwitch(notices[..i]);
      start.Some? && start.value.Initiated? && start.value.action == notices[i].done
  }

  predicate Reported(m: Light) {
    && WellReported(m.notices)
    && (Moving(m.st) ==>
          var start := LatestSwitch(m.notices);
          start.Some? && start.value.Initiated?
          && start.value.action == (if m.st.OnInitiated? then On else Off))
  }

  lemma ReportOne(notices: seq<Notice>, n: Notice)
    requires WellReported(notices)
    requires n.Completed? ==>
               var start := LatestSwitch(notices);
               start.Some? && start.value.Initiated? && start.value.action == n.done
    ensures WellReported(notices + [n])
    ensures LatestSwitch(notices + [n]) ==
            if n.Initiated? && n.action == Level then LatestSwitch(notices) else Some(n)
  {
    var longer := notices + [n];
    assert longer[..|notices|] == notices;
    forall i | 0 <= i < |longer| && longer[i].Completed?
      ensures var start := LatestSwitch(longer[..i]);
              start.Some? && start.value.Initiated? && start.value.action == longer[i].done
    {
      assert i < |notices| ==> longer[..i] == notices[..i];
    }
  }

  /** The notices a step adds. */
  function NewNotices(m: Light, s: Step): (added: seq<Notice>)
    ensures |added| <= 1
  {
    match s
    case Do(Act(actor, Off)) => if m.effectArmed then [] else [Initiated(Off, actor)]
    case Do(Act(actor, OtherAction)) => []
    case Do(Act(actor, action)) => [Initiated(action, actor)]
    case Do(_) => []
    case Expire => []
    case Dispatch =>
      if m.queue == [] then [] else
      match m.queue[0]
      case AutoTurnOff => if m.autoArmed && !m.effectArmed then [Initiated(Off, TimerActor)] else []
      case OffEffect => if m.effectArmed then [Initiated(Off, TimerActor)] else []
      case ActuatorMovement =>
        if !Moving(m.st) then [] else [Completed(if m.st.OnInitiated? then On else Off)]
  }

  lemma StepAddsNotices(m: Light, s: Step)
    ensures Next(m, s).notices == m.notices + NewNotices(m, s)
  {
    assert m.notices + [] == m.notices;
  }

  lemma QuietStepMoving(m: Light, s: Step)
    requires NewNotices(m, s) == []
    ensures Moving(Next(m, s).st) ==> Next(m, s).st == m.st
  {
  }

  lemma LoudCommandMoving(m: Light, c: Command)
    ensures Moving(Done(m, c).st) && Done(m, c).st != m.st ==>
              c.Act? && c.action == (if Done(m, c).st.OnInitiated? then On else Off)
    ensures Moving(Done(m, c).st) && c.Act? && c.action == On ==> Done(m, c).st.OnInitiated?
    ensures Moving(Done(m, c).st) && c.Act? && c.action == Off && !m.effectArmed ==> Done(m, c).st.OffInitiated?
  {
  }

  lemma LoudHandlerMoving(m: Light, h: Handler)
    ensures h == ActuatorMovement ==> !Moving(Handled(m, h).st)
    ensures Moving(Handled(m, h).st) && Handled(m, h).st != m.st ==> Handled(m, h).st.OffInitiated?
    ensures Moving(Handled(m, h).st) && !m.effectArmed && m.autoArmed && h == AutoTurnOff ==>
              Handled(m, h).st.OffInitiated?
    ensures Moving(Handled(m, h).st) && m.effectArmed && h == OffEffect ==> Handled(m, h).st.OffInitiated?
  {
  }

  lemma LoudStepMoving(m: Light, s: Step)
    requires NewNotices(m, s) != []
    ensures var n := NewNotices(m, s)[0];
            Moving(Next(m, s).st) ==>
              if n.Initiated? && n.action == Level then Next(m, s).st == m.st
              else n.Initiated? && n.action == (if Next(m, s).st.OnInitiated? then On else Off)
  {
    match s
    case Do(c) => LoudCommandMoving(m, c);
    case Dispatch => LoudHandlerMoving(m.(queue := m.queue[1..]), m.queue[0]);
    case Expire =>
  }

  lemma StepReported(m: Light, s: Step)
    requires Reported(m)
    ensures Reported(Next(m, s))
  {
    StepAddsNotices(m, s);
    var added := NewNotices(m, s);
    if added == [] {
      assert m.notices + [] == m.notices;
      QuietStepMoving(m, s);
    } else {
      assert added == [added[0]];
      ReportOne(m.notices, added[0]);
      LoudStepMoving(m, s);
    }
  }

  lemma {:induction false} RunReported(m: Light, steps: seq<Step>)
    requires Reported(m)
    ensures Reported(Run(m, steps))
    decreases |steps|
  {
    if steps != [] {
      StepReported(m, steps[0]);
      RunReported(Next(m, steps[0]), steps[1..]);
    }
  }

  lemma EveryRunReported(on: bool, steps: seq<Step>)
    ensures WellReported(Run(Boot(on), steps).notices)
  {
    RunReported(Boot(on), steps);
  }

  // ---------------------------------------------------------------- delays

  /** 0.8 s for a fast or no fade, 12.8 s for a slow one, 1.5 s for a dying light. */
  function FadeMs(effect: Effect): Option<nat> {
    match effect
    case DelayedAllOff(variant) =>
      if variant == DelayedOffSlowFade then Some(12800)
      else if variant == OtherDelayedVariant then None
      else Some(800)
    case DyingLight(variant) => if variant == DyingLightFadeOff then Some(1500) else None
    case OtherEffect => None
  }

  /** The delay, in milliseconds, with which a step starts the timer, if it starts it: the actuator
      takes 10, an off effect what its kind says, auto turn-off its seconds. */
  function DelayAsked(m: Light, s: Step): Option<nat> {
    match s
    case Do(Act(_, On)) => if m.effectArmed || m.st.OffCompleted? then Some(10) else None
    case Do(Act(_, Off)) => if !m.effectArmed && m.st.OnCompleted? then Some(10) else None
    case Do(OffWithEffect(effect)) => FadeMs(effect)
    case Do(_) => None
    case Expire => None
    case Dispatch =>
      if m.queue == [] then None else
      match m.queue[0]
      case AutoTurnOff => if m.autoArmed && !m.effectArmed && m.st.OnCompleted? then Some(10) else None
      case OffEffect => if m.effectArmed && m.st.OnCompleted? then Some(10) else None
      case ActuatorMovement =>
        var ms := m.autoSecs * 1000 % 0x1_0000_0000;
        if m.st.OnInitiated? && m.autoOn && ms != 0 then Some(ms) else None
  }

  lemma CommandDelay(m: Light, c: Command)
    ensures var asked, after := DelayAsked(m, Do(c)), Done(m, c);
            after.delayMs == (if asked.Some? then asked.value else m.delayMs) && (asked.Some? ==> after.timerRunning)
  {
  }

  lemma HandlerDelay(m: Light, h: Handler, rest: seq<Handler>)
    requires m.queue == [h] + rest
    ensures var asked, after := DelayAsked(m, Dispatch), Handled(m.(queue := rest), h);
            after.delayMs == (if asked.Some? then asked.value else m.delayMs) && (asked.Some? ==> after.timerRunning)
  {
  }

  /** Every step starts the timer with exactly that delay, or leaves the delay alone. */
  lemma StepDelay(m: Light, s: Step)
    ensures var asked, after := DelayAsked(m, s), Next(m, s);
            after.delayMs == (if asked.Some? then asked.value else m.delayMs) && (asked.Some? ==> after.timerRunning)
  {
    match s
    case Do(c) => CommandDelay(m, c);
    case Expire =>
    case Dispatch =>
      if m.queue != [] {
        assert m.queue == [m.queue[0]] + m.queue[1..];
        HandlerDelay(m, m.queue[0], m.queue[1..]);
      }
  }

  /** The step stops the timer: an expiry, a request that ends a transition, a synchronisation of
      anything unfinished, an OFF that finds a dark lamp still armed. */
  predicate Stops(m: Light, s: Step) {
    match s
    case Do(Act(_, On)) => Moving(m.st) && !m.effectArmed
    case Do(Act(_, Off)) => !m.effectArmed && (Moving(m.st) || (m.st.OffCompleted? && m.autoArmed))
    case Do(Sync(_)) => Moving(m.st) || m.effectArmed || m.autoArmed
    case Do(_) => false
    case Expire => true
    case Dispatch =>
      m.queue != [] &&
      match m.queue[0]
      case AutoTurnOff => m.autoArmed && !m.effectArmed && Moving(m.st)
      case OffEffect => m.effectArmed && (Moving(m.st) || (m.st.OffCompleted? && m.autoArmed))
      case ActuatorMovement => false
  }

  lemma HandlerTimer(m: Light, h: Handler, rest: seq<Handler>)
    requires m.queue == [h] + rest
    ensures Handled(m.(queue := rest), h).timerRunning <==>
            DelayAsked(m, Dispatch).Some? || (m.timerRunning && !Stops(m, Dispatch))
  {
  }

  lemma CommandTimer(m: Light, c: Command)
    ensures Done(m, c).timerRunning <==>
            DelayAsked(m, Do(c)).Some? || (m.timerRunning && !Stops(m, Do(c)))
  {
  }

  /** Every step: the timer runs afterwards exactly when the step started it, or when it ran and
      the step did not stop it. */
  lemma StepTimer(m: Light, s: Step)
    ensures Next(m, s).timerRunning <==> DelayAsked(m, s).Some? || (m.timerRunning && !Stops(m, s))
  {
    match s
    case Do(c) => CommandTimer(m, c);
    case Expire =>
    case Dispatch =>
      if m.queue != [] {
        assert m.queue == [m.queue[0]] + m.queue[1..];
        HandlerTimer(m, m.queue[0], m.queue[1..]);
      }
  }

  /** The step starts the timer with a delay of zero, which the platform refuses. */
  predicate Refused(m: Light, s: Step) {
    match s
    case Do(OffWithEffect(effect)) => FadeMs(effect) == None
    case Do(_) => false
    case Expire => false
    case Dispatch =>
      && m.queue != [] && m.queue[0] == ActuatorMovement
      && m.st.OnInitiated? && m.autoOn && m.autoSecs * 1000 % 0x1_0000_0000 == 0
  }

  predicate RefusedIn(m: Light, steps: seq<Step>)
    decreases |steps|
  {
    steps != [] && (Refused(m, steps[0]) || RefusedIn(Next(m, steps[0]), steps[1..]))
  }

  lemma HandlerFault(m: Light, h: Handler, rest: seq<Handler>)
    requires m.queue == [h] + rest
    ensures Handled(m.(queue := rest), h).fault <==> m.fault || Refused(m, Dispatch)
  {
  }

  lemma CommandFault(m: Light, c: Command)
    ensures Done(m, c).fault <==> m.fault || Refused(m, Do(c))
  {
  }

  lemma StepFault(m: Light, s: Step)
    ensures Next(m, s).fault <==> m.fault || Refused(m, s)
  {
    match s
    case Do(c) => CommandFault(m, c);
    case Expire =>
    case Dispatch =>
      if m.queue != [] {
        assert m.queue == [m.queue[0]] + m.queue[1..];
        HandlerFault(m, m.queue[0], m.queue[1..]);
      }
  }

  /** A run raises the fault exactly when one of its starts is refused, and nothing clears it. */
  lemma {:induction false} FaultExactly(m: Light, steps: seq<Step>)
    ensures Run(m, steps).fault <==> m.fault || RefusedIn(m, steps)
    decreases |steps|
  {
    if steps != [] {
      StepFault(m, steps[0]);
      FaultExactly(Next(m, steps[0]), steps[1..]);
    }
  }

  // ---------------------------------------------------------------- handlers in order

  /** The handlers a run posts, each chosen by the flags when the timer expired. */
  function Posted(m: Light, steps: seq<Step>): seq<Handler>
    decreases |steps|
  {
    if steps == [] then []
    else
      (if steps[0] == Expire && m.timerRunning
       then [if m.autoArmed then AutoTurnOff else if m.effectArmed then OffEffect else ActuatorMovement]
       else [])
      + Posted(Next(m, steps[0]), steps[1..])
  }

  /** How many handlers a run takes from the queue. */
  function Taken(m: Light, steps: seq<Step>): nat
    decreases |steps|
  {
    if steps == [] then 0
    else
      (if steps[0] == Dispatch && m.queue != [] then 1 else 0) + Taken(Next(m, steps[0]), steps[1..])
  }

  lemma CommandQueue(m: Light, c: Command)
    ensures Done(m, c).queue == m.queue
  {
  }

  lemma HandlerQueue(m: Light, h: Handler)
    ensures Handled(m, h).queue == m.queue
  {
  }

  lemma StepQueue(m: Light, s: Step)
    ensures var taken := if s == Dispatch && m.queue != [] then 1 else 0;
            var posted := if s == Expire && m.timerRunning then [DueHandler(m)] else [];
            Next(m, s).queue == m.queue[taken..] + posted
  {
    match s
    case Do(c) => CommandQueue(m, c);
    case Expire =>
    case Dispatch => if m.queue != [] { HandlerQueue(m.(queue := m.queue[1..]), m.queue[0]); }
  }

  lemma QueueJoins(queue: seq<Handler>, posted: seq<Handler>, later: seq<Handler>, taken: nat, more: nat)
    requires taken <= |queue| && more <= |queue[taken..] + posted + later|
    ensures taken + more <= |queue + (posted + later)|
    ensures (queue[taken..] + posted + later)[more..] == (queue + (posted + later))[taken + more..]
  {
    assert queue[taken..] + posted + later == (queue + (posted + later))[taken..];
  }

  /** Nothing overtakes: what waits after a run is what waited before and was posted since, less as
      many of the oldest as were taken. */
  lemma {:induction false} OldestFirst(m: Light, steps: seq<Step>)
    ensures var all := m.queue + Posted(m, steps);
            Taken(m, steps) <= |all| && Run(m, steps).queue == all[Taken(m, steps)..]
    decreases |steps|
  {
    if steps != [] {
      var n := Next(m, steps[0]);
      StepQueue(m, steps[0]);
      OldestFirst(n, steps[1..]);
      QueueJoins(m.queue, if steps[0] == Expire && m.timerRunning then [DueHandler(m)] else [],
                 Posted(n, steps[1..]), if steps[0] == Dispatch && m.queue != [] then 1 else 0, Taken(n, steps[1..]));
    }
  }

  // ---------------------------------------------------------------- no idle timer

  /** The timer runs for a transition or for auto turn-off. */
  predicate TimerJustified(m: Light) {
    m.timerRunning ==> Moving(m.st) || m.autoArmed
  }

  /** A handler posted for an earlier transition completes a later one before its own timer. */
  predicate ArrivesEarly(m: Light, s: Step) {
    && s == Dispatch && m.queue != [] && m.queue[0] == ActuatorMovement
    && Moving(m.st) && m.timerRunning && !(m.st.OnInitiated? && m.autoOn)
  }

  lemma CommandJustified(m: Light, c: Command)
    requires EffectIdle(m) && TimerJustified(m) && !c.OffWithEffect?
    ensures TimerJustified(Done(m, c))
  {
  }

  lemma HandlerJustified(m: Light, h: Handler)
    requires EffectIdle(m) && TimerJustified(m)
    ensures TimerJustified(Handled(m, h)) <==>
            !(h == ActuatorMovement && Moving(m.st) && m.timerRunning && !(m.st.OnInitiated? && m.autoOn))
  {
  }

  lemma StepJustified(m: Light, s: Step)
    requires EffectIdle(m) && TimerJustified(m) && (s.Do? ==> !s.command.OffWithEffect?)
    ensures TimerJustified(Next(m, s)) <==> !ArrivesEarly(m, s)
  {
    match s
    case Do(c) => CommandJustified(m, c);
    case Expire =>
    case Dispatch => if m.queue != [] { HandlerJustified(m.(queue := m.queue[1..]), m.queue[0]); }
  }

  predicate JustifiedThroughout(m: Light, steps: seq<Step>)
    decreases |steps|
  {
    TimerJustified(m) && (steps != [] ==> JustifiedThroughout(Next(m, steps[0]), steps[1..]))
  }

  predicate NeverEarly(m: Light, steps: seq<Step>)
    decreases |steps|
  {
    steps != [] ==> !ArrivesEarly(m, steps[0]) && NeverEarly(Next(m, steps[0]), steps[1..])
  }

  /** Without off effects the timer never runs on for nothing, for every command that ends a
      transition stops it, exactly as long as no stale handler ends one. */
  lemma {:induction false} RunJustified(m: Light, steps: seq<Step>)
    requires EffectIdle(m) && TimerJustified(m) && EffectsUnused(steps)
    ensures JustifiedThroughout(m, steps) <==> NeverEarly(m, steps)
    decreases |steps|
  {
    if steps != [] {
      StepJustified(m, steps[0]);
      if !ArrivesEarly(m, steps[0]) {
        StepEffectIdle(m, steps[0]);
        RunJustified(Next(m, steps[0]), steps[1..]);
      }
    }
  }
}
