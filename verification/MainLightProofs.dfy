/** What the main light guarantees: every colour written can be read back off the wire, a suspended
    light is dark, the chip is woken in time, and every transmission is accounted for. */
module MainLightProofs {
  import opened Machine
  import opened Sm15135eFrame
  import opened MainLightModel

  // ---------------------------------------------------------------- one colour, end to end

  lemma ShiftFits(v: uint16)
    ensures v < LED_MAX_VALUE ==> Scale(v) == 64 * v
  {
  }

  /** Scaling keeps order, reaches zero only from zero and full scale exactly from 1023 on. */
  lemma ScaleShape(a: uint16, b: uint16)
    requires a <= b
    ensures Scale(a) <= Scale(b)
    ensures a < b <= LED_MAX_VALUE ==> Scale(a) < Scale(b)
    ensures a < 1023 ==> Scale(a) == 64 * a
    ensures Scale(a) == 0 <==> a == 0
    ensures Scale(a) == 0xFFFF <==> a >= LED_MAX_VALUE
  {
    ShiftFits(a);
    ShiftFits(b);
  }

  /** What a receiver should read off a colour write. */
  function Written(r: uint16, g: uint16, b: uint16): Pixel {
    Pixel(Scale(b), Scale(g), Scale(r), 0, 0, 6, 6, 6, 6, 6, if r == 0 && g == 0 && b == 0 then 2 else 0, 31)
  }

  lemma WrittenPixel(p: Pixel, r: uint16, g: uint16, b: uint16)
    ensures WithDuty(WithGain(p, GAIN_70_8MA), Scale(b), Scale(g), Scale(r), 0, 0) == Written(r, g, b)
    ensures Masked(Written(r, g, b)) == Written(r, g, b)
  {
    ScaleShape(r, r);
    ScaleShape(g, g);
    ScaleShape(b, b);
  }

  function Last<T>(s: seq<T>): T
    requires s != []
  {
    s[|s| - 1]
  }

  /** From any state at all, the last transmission of a colour write decodes to the colour, with
      red and blue exchanged, and the white output follows its own duty. */
  lemma ColourReadsBack(l: Light, w: uint16, r: uint16, g: uint16, b: uint16)
    ensures var n := Next(l, SetDuty(w, r, g, b));
            n.driver.wire != [] && Receive(Last(n.driver.wire)) == Some(Written(r, g, b))
    ensures var n := Next(l, SetDuty(w, r, g, b));
            n.white.running == (w > 0) && (w > 0 ==> n.white.level == if w > 1023 then 1023 else w)
  {
    var l1 := Resumed(l);
    var n := Next(l, SetDuty(w, r, g, b));
    WrittenPixel(l1.driver.pixel, r, g, b);
    FrameRoundTrip(Written(r, g, b));
    assert n.driver.pixel == Written(r, g, b);
    assert Last(n.driver.wire) == Encode(n.driver.pixel);
  }

  /** At the driver itself, with all five channels: the frame after a duty carries them as given and
      asks for sleep, mode 2, exactly when all are zero. */
  lemma DutyReadsBack(d: Driver, r: uint16, g: uint16, b: uint16, w: uint16, y: uint16)
    ensures var sent := AfterFrame(d.(pixel := WithDuty(d.pixel, r, g, b, w, y)));
            var mode: uint8 := if r + g + b + w + y == 0 then 2 else 0;
            sent.wire != [] && Receive(Last(sent.wire)) ==
              Some(Masked(d.pixel.(r := r, g := g, b := b, w := w, y := y, standby := mode, reserve := 31)))
  {
    FrameRoundTrip(WithDuty(d.pixel, r, g, b, w, y));
  }

  // ---------------------------------------------------------------- suspended means dark

  predicate DarkDriver(d: Driver) {
    && d.oldStandby == SLEEP
    && d.pixel == Written(0, 0, 0)
    && d.wire != [] && Last(d.wire) == Encode(d.pixel)
  }

  predicate DarkWhileSuspended(l: Light) {
    l.suspended ==> DarkDriver(l.driver) && !l.white.running && !l.indicator.running && !l.red && !l.adcClock
  }

  lemma StepDark(l: Light, op: Op)
    requires DarkWhileSuspended(l)
    ensures DarkWhileSuspended(Next(l, op))
  {
    if op == Suspend && !l.suspended {
      WrittenPixel(l.driver.pixel, 0, 0, 0);
    }
  }

  lemma {:induction false} RunDark(l: Light, ops: seq<Op>)
    requires DarkWhileSuspended(l)
    ensures DarkWhileSuspended(Run(l, ops))
    decreases |ops|
  {
    if ops != [] {
      StepDark(l, ops[0]);
      RunDark(Next(l, ops[0]), ops[1..]);
    }
  }

  lemma {:induction false} RunJoin(l: Light, a: seq<Op>, b: seq<Op>)
    ensures Run(l, a + b) == Run(Run(l, a), b)
    decreases |a|
  {
    if a == [] {
      assert a + b == b;
    } else {
      assert (a + b)[1..] == a[1..] + b;
      RunJoin(Next(l, a[0]), a[1..], b);
    }
  }

  lemma RunSnoc(l: Light, ops: seq<Op>)
    requires ops != []
    ensures Run(l, ops) == Next(Run(l, ops[..|ops| - 1]), Last(ops))
  {
    var front := ops[..|ops| - 1];
    assert ops == front + [Last(ops)];
    RunJoin(l, front, [Last(ops)]);
    assert [Last(ops)][1..] == [];
  }

  /** The gate is closed exactly after a Suspend, whatever came before it. */
  lemma SuspendedExactlyAfterSuspend(ops: seq<Op>)
    ensures Run(Boot(), ops).suspended <==> ops != [] && Last(ops) == Suspend
  {
    if ops != [] {
      RunSnoc(Boot(), ops);
    }
  }

  /** Whenever the bus is suspended, the last thing sent was an all-zero Sleep frame, no PWM runs
      and the sampling clock is off. */
  lemma SuspendedIsDark(ops: seq<Op>)
    requires ops != [] && Last(ops) == Suspend
    ensures var l := Run(Boot(), ops);
            && l.driver.wire != []
            && Receive(Last(l.driver.wire)) == Some(Written(0, 0, 0))
            && Written(0, 0, 0).standby == 2
            && !l.white.running && !l.indicator.running && !l.red && !l.adcClock
  {
    SuspendedExactlyAfterSuspend(ops);
    RunDark(Boot(), ops);
    WrittenPixel(ClearPixel(), 0, 0, 0);
    FrameRoundTrip(Written(0, 0, 0));
  }

  // ---------------------------------------------------------------- sampling clock and stored gain

  predicate EndsSuspended(ops: seq<Op>) {
    ops != [] && Last(ops) == Suspend
  }

  /** The sampling clock goes off with a suspend and on with the resume that answers it; a boot mark
      opens the gate and leaves the clock off. */
  predicate ClockOn(ops: seq<Op>)
    decreases |ops|
  {
    ops == [] ||
    var front, op := ops[..|ops| - 1], Last(ops);
    match op
    case Suspend => false
    case MarkReady => ClockOn(front)
    case SetDuty(_, _, _, _) => ClockOn(front) || EndsSuspended(front)
    case Resume => ClockOn(front) || EndsSuspended(front)
    case EnsureReady => ClockOn(front) || EndsSuspended(front)
  }

  lemma StepClock(l: Light, op: Op)
    ensures Next(l, op).adcClock ==
              if op == Suspend then l.suspended && l.adcClock
              else l.adcClock || (l.suspended && op != MarkReady)
  {
  }

  /** In every run, exactly. */
  lemma {:induction false} ClockExactly(ops: seq<Op>)
    ensures Run(Boot(), ops).adcClock == ClockOn(ops)
    decreases |ops|
  {
    if ops != [] {
      var front := ops[..|ops| - 1];
      ClockExactly(front);
      RunSnoc(Boot(), ops);
      SuspendedExactlyAfterSuspend(front);
      StepClock(Run(Boot(), front), Last(ops));
    }
  }

  /** The gain code in store: 9 from a reset, 6 from a frame, and no other code is ever stored. */
  function GainStored(ops: seq<Op>): nat
    decreases |ops|
  {
    if ops == [] then 9
    else
      var front, op := ops[..|ops| - 1], Last(ops);
      if op.SetDuty? || (op == Suspend && !EndsSuspended(front)) then 6
      else if EndsSuspended(front) && (op == Resume || op == EnsureReady) then 9
      else GainStored(front)
  }

  predicate AllGains(p: Pixel, code: nat) {
    p.gainR == code && p.gainG == code && p.gainB == code && p.gainW == code && p.gainY == code
  }

  lemma {:induction false} GainExactly(ops: seq<Op>)
    ensures AllGains(Run(Boot(), ops).driver.pixel, GainStored(ops))
    decreases |ops|
  {
    if ops != [] {
      var front, op := ops[..|ops| - 1], Last(ops);
      GainExactly(front);
      RunSnoc(Boot(), ops);
      SuspendedExactlyAfterSuspend(front);
      var l := Run(Boot(), front);
      if op.SetDuty? {
        WrittenPixel(Resumed(l).driver.pixel, op.r, op.g, op.b);
      } else if op == Suspend {
        WrittenPixel(l.driver.pixel, 0, 0, 0);
      }
    }
  }

  // ---------------------------------------------------------------- the white output

  /** The latest duty asked for is not zero, and no suspend has come since. */
  predicate WhiteLit(ops: seq<Op>)
    decreases |ops|
  {
    ops != [] &&
    match Last(ops)
    case SetDuty(w, _, _, _) => w > 0
    case Suspend => false
    case _ => WhiteLit(ops[..|ops| - 1])
  }

  /** The latest duty that was not zero, full from 1023 on. */
  function WhiteLevel(ops: seq<Op>): uint16
    decreases |ops|
  {
    if ops == [] then 0
    else
      var front, op := ops[..|ops| - 1], Last(ops);
      if op.SetDuty? && op.w > 0 then if op.w > 1023 then 1023 else op.w else WhiteLevel(front)
  }

  lemma StepWhite(l: Light, op: Op)
    requires DarkWhileSuspended(l)
    ensures Next(l, op).white ==
              if op.SetDuty? && op.w > 0 then Pwm(true, if op.w > 1023 then 1023 else op.w)
              else Pwm(!op.SetDuty? && op != Suspend && l.white.running, l.white.level)
  {
  }

  lemma StepOthers(l: Light, op: Op)
    ensures !l.indicator.running ==> Next(l, op).indicator == l.indicator
    ensures Next(l, op).red ==> l.red
  {
  }

  /** In every run. The other two outputs the gate can stop are never started by these calls. */
  lemma {:induction false} WhiteExactly(ops: seq<Op>)
    ensures var l := Run(Boot(), ops);
            l.white == Pwm(WhiteLit(ops), WhiteLevel(ops)) && l.indicator == Pwm(false, 0) && !l.red
    decreases |ops|
  {
    if ops != [] {
      var front := ops[..|ops| - 1];
      WhiteExactly(front);
      RunSnoc(Boot(), ops);
      RunDark(Boot(), front);
      StepWhite(Run(Boot(), front), Last(ops));
      StepOthers(Run(Boot(), front), Last(ops));
    }
  }

  // ---------------------------------------------------------------- waking up

  predicate Lit(op: Op) {
    op.SetDuty? && !(op.r == 0 && op.g == 0 && op.b == 0)
  }

  predicate AllDark(ops: seq<Op>) {
    forall i :: 0 <= i < |ops| ==> !Lit(ops[i])
  }

  /** The call resumes a suspended bus. */
  predicate Resumes(op: Op) {
    op != Suspend && op != MarkReady
  }

  /** Some call of the run finds the bus suspended and resumes it. */
  predicate ResumedIn(suspended: bool, ops: seq<Op>)
    decreases |ops|
  {
    ops != [] && ((suspended && Resumes(ops[0])) || ResumedIn(ops[0] == Suspend, ops[1..]))
  }

  predicate NeverMarked(ops: seq<Op>) {
    forall i :: 0 <= i < |ops| ==> ops[i] != MarkReady
  }

  /** Nothing but a mark opens a suspended bus without resuming it. */
  lemma {:induction false} ResumedUnlessMarked(ops: seq<Op>)
    requires NeverMarked(ops) && ops != [] && ops[|ops| - 1] != Suspend
    ensures ResumedIn(true, ops)
    decreases |ops|
  {
    if ops[0] == Suspend {
      ResumedUnlessMarked(ops[1..]);
    }
  }

  lemma EncodeIsNoReset(p: Pixel)
    ensures Encode(p) != ResetBytes()
  {
    assert |Encode(p)| == FRAME_BYTES && |ResetBytes()| == RESET_BYTES;
  }

  /** `later` extends `earlier` by transmissions among which is a reset exactly if `reset`. */
  predicate Extends(earlier: seq<seq<uint8>>, later: seq<seq<uint8>>, reset: bool) {
    earlier <= later && (ResetBytes() in later[|earlier|..] <==> reset)
  }

  lemma ExtendsJoin(a: seq<seq<uint8>>, b: seq<seq<uint8>>, c: seq<seq<uint8>>, first: bool, second: bool)
    requires Extends(a, b, first) && Extends(b, c, second)
    ensures Extends(a, c, first || second)
  {
    assert c[|a|..] == b[|a|..] + c[|b|..];
  }

  lemma ResetExtends(d: Driver)
    ensures Extends(d.wire, Restarted(d).wire, true)
  {
    assert Restarted(d).wire[|d.wire|..] == [ResetBytes()];
  }

  lemma FrameExtends(d: Driver, wire: seq<seq<uint8>>)
    requires d.wire == wire
    ensures Extends(wire, AfterFrame(d).wire, false)
  {
    EncodeIsNoReset(d.pixel);
    assert AfterFrame(d).wire[|wire|..] == FrameOf(d);
  }

  lemma ResumedExtends(l: Light)
    ensures Extends(l.driver.wire, Resumed(l).driver.wire, l.suspended)
  {
    if l.suspended {
      ResetExtends(l.driver);
    }
  }

  lemma AppliedExtends(l: Light, w: uint16, r: uint16, g: uint16, b: uint16)
    ensures Extends(l.driver.wire, Applied(l, w, r, g, b).driver.wire, false)
  {
    WrittenPixel(l.driver.pixel, r, g, b);
    FrameExtends(l.driver.(pixel := Written(r, g, b)), l.driver.wire);
  }

  lemma StepExtends(l: Light, op: Op)
    ensures Extends(l.driver.wire, Next(l, op).driver.wire, l.suspended && Resumes(op))
    ensures Next(l, op).suspended <==> op == Suspend
  {
    match op
    case SetDuty(w, r, g, b) =>
      ResumedExtends(l);
      AppliedExtends(Resumed(l), w, r, g, b);
      ExtendsJoin(l.driver.wire, Resumed(l).driver.wire, Next(l, op).driver.wire, l.suspended, false);
    case Suspend => AppliedExtends(l, 0, 0, 0, 0);
    case _ => ResumedExtends(l);
  }

  lemma {:induction false} RunExtends(l: Light, ops: seq<Op>)
    ensures Extends(l.driver.wire, Run(l, ops).driver.wire, ResumedIn(l.suspended, ops))
    decreases |ops|
  {
    if ops != [] {
      var m := Next(l, ops[0]);
      StepExtends(l, ops[0]);
      RunExtends(m, ops[1..]);
      ExtendsJoin(l.driver.wire, m.driver.wire, Run(l, ops).driver.wire, l.suspended && Resumes(ops[0]),
                  ResumedIn(m.suspended, ops[1..]));
    }
  }

  lemma StepStaysAsleep(l: Light, op: Op)
    requires l.driver.oldStandby == SLEEP && !Lit(op)
    ensures Next(l, op).driver.oldStandby == SLEEP
  {
    if op.SetDuty? {
      WrittenPixel(Resumed(l).driver.pixel, op.r, op.g, op.b);
    } else if op == Suspend {
      WrittenPixel(l.driver.pixel, 0, 0, 0);
    }
  }

  lemma {:induction false} RunStaysAsleep(l: Light, ops: seq<Op>)
    requires l.driver.oldStandby == SLEEP && AllDark(ops)
    ensures Run(l, ops).driver.oldStandby == SLEEP
    decreases |ops|
  {
    if ops != [] {
      StepStaysAsleep(l, ops[0]);
      RunStaysAsleep(Next(l, ops[0]), ops[1..]);
    }
  }

  lemma LitFromSleep(l: Light, w: uint16, r: uint16, g: uint16, b: uint16)
    requires l.driver.oldStandby == SLEEP && !(r == 0 && g == 0 && b == 0)
    ensures var frame := Encode(Written(r, g, b));
            Next(l, SetDuty(w, r, g, b)).driver.wire
              == l.driver.wire + (if l.suspended then [ResetBytes()] else []) + [frame, frame]
  {
    WrittenPixel(Resumed(l).driver.pixel, r, g, b);
    assert l.driver.wire + [] == l.driver.wire;
  }

  lemma AsleepAfterSuspend(before: seq<Op>)
    ensures var l := Run(Boot(), before + [Suspend]);
            l.suspended && l.driver.oldStandby == SLEEP
  {
    SuspendedExactlyAfterSuspend(before + [Suspend]);
    RunDark(Boot(), before + [Suspend]);
  }

  /** What goes out between a suspended state and a colour written later. */
  lemma SentUntilLight(l: Light, between: seq<Op>, write: Op)
    requires l.suspended
    ensures Extends(l.driver.wire, Next(Run(l, between), write).driver.wire, ResumedIn(true, between + [write]))
  {
    RunExtends(l, between + [write]);
    RunJoin(l, between, [write]);
    assert [write][1..] == [];
  }

  /** The first colour after a suspend, with anything dark in between: the frame goes out twice,
      and a reset has gone out since the suspend exactly if some call resumed the bus, which is so
      unless a boot mark opened it. */
  lemma FirstLightAfterSuspend(before: seq<Op>, between: seq<Op>, w: uint16, r: uint16, g: uint16, b: uint16)
    requires AllDark(between) && !(r == 0 && g == 0 && b == 0)
    ensures var asleep := Run(Boot(), before + [Suspend]);
            var woken := Run(asleep, between);
            var lit := Next(woken, SetDuty(w, r, g, b));
            var frame := Encode(Written(r, g, b));
            && Extends(asleep.driver.wire, lit.driver.wire, ResumedIn(true, between + [SetDuty(w, r, g, b)]))
            && lit.driver.wire == woken.driver.wire + (if woken.suspended then [ResetBytes()] else []) + [frame, frame]
    ensures NeverMarked(between) ==> ResumedIn(true, between + [SetDuty(w, r, g, b)])
  {
    var asleep := Run(Boot(), before + [Suspend]);
    AsleepAfterSuspend(before);
    RunStaysAsleep(asleep, between);
    LitFromSleep(Run(asleep, between), w, r, g, b);
    SentUntilLight(asleep, between, SetDuty(w, r, g, b));
    if NeverMarked(between) {
      ResumedUnlessMarked(between + [SetDuty(w, r, g, b)]);
    }
  }

  // ---------------------------------------------------------------- every transmission accounted for

  /** The mode of the frame one call sends, if it sends one. */
  function ModeSent(suspended: bool, op: Op): seq<uint8> {
    match op
    case SetDuty(_, r, g, b) => [if r == 0 && g == 0 && b == 0 then SLEEP else NORMAL]
    case Suspend => if suspended then [] else [SLEEP]
    case _ => []
  }

  /** The modes of the frames sent by a run, in order, read off the calls alone. */
  function Modes(ops: seq<Op>): seq<uint8>
    decreases |ops|
  {
    if ops == [] then []
    else
      var front := ops[..|ops| - 1];
      Modes(front) + ModeSent(EndsSuspended(front), Last(ops))
  }

  /** How often a call found the bus suspended and resumed it. */
  function Resets(ops: seq<Op>): nat
    decreases |ops|
  {
    if ops == [] then 0
    else
      var front := ops[..|ops| - 1];
      Resets(front) + if EndsSuspended(front) && Resumes(Last(ops)) then 1 else 0
  }

  /** Adjacent frames of which the first puts the chip to sleep and the second does not. */
  function Wakes(modes: seq<uint8>): nat
    decreases |modes|
  {
    if |modes| < 2 then 0
    else
      Wakes(modes[..|modes| - 1]) + if modes[|modes| - 2] == SLEEP && Last(modes) != SLEEP then 1 else 0
  }

  lemma WakesSnoc(modes: seq<uint8>, m: uint8)
    ensures Wakes(modes + [m]) == Wakes(modes) + if modes != [] && Last(modes) == SLEEP && m != SLEEP then 1 else 0
  {
    assert (modes + [m])[..|modes|] == modes;
  }

  predicate Accounted(d: Driver, modes: seq<uint8>, resets: nat) {
    && d.oldStandby == (if modes == [] then 0xFF else Last(modes))
    && |d.wire| == resets + |modes| + Wakes(modes)
  }

  lemma FrameAccounted(d: Driver, modes: seq<uint8>, resets: nat)
    requires Accounted(d, modes, resets)
    ensures Accounted(AfterFrame(d), modes + [d.pixel.standby], resets)
  {
    WakesSnoc(modes, d.pixel.standby);
  }

  lemma AppliedAccounted(l: Light, w: uint16, r: uint16, g: uint16, b: uint16, modes: seq<uint8>, resets: nat)
    requires Accounted(l.driver, modes, resets)
    ensures Accounted(Applied(l, w, r, g, b).driver,
                      modes + [if r == 0 && g == 0 && b == 0 then SLEEP else NORMAL], resets)
  {
    WrittenPixel(l.driver.pixel, r, g, b);
    FrameAccounted(l.driver.(pixel := Written(r, g, b)), modes, resets);
  }

  lemma StepAccounted(l: Light, op: Op, modes: seq<uint8>, resets: nat)
    requires Accounted(l.driver, modes, resets)
    ensures Accounted(Next(l, op).driver, modes + ModeSent(l.suspended, op),
                      resets + if l.suspended && Resumes(op) then 1 else 0)
  {
    match op
    case SetDuty(w, r, g, b) =>
      AppliedAccounted(Resumed(l), w, r, g, b, modes, resets + if l.suspended then 1 else 0);
    case Suspend =>
      assert modes + [] == modes;
      AppliedAccounted(l, 0, 0, 0, 0, modes, resets);
    case _ => assert modes + [] == modes;
  }

  /** In every run, the transmissions are the resets, one frame per write or suspend, and one
      more for each wake-up. */
  lemma {:induction false} TransmissionsAccounted(ops: seq<Op>)
    ensures Accounted(Run(Boot(), ops).driver, Modes(ops), 1 + Resets(ops))
    decreases |ops|
  {
    if ops != [] {
      var front := ops[..|ops| - 1];
      TransmissionsAccounted(front);
      RunSnoc(Boot(), ops);
      SuspendedExactlyAfterSuspend(front);
      StepAccounted(Run(Boot(), front), Last(ops), Modes(front), 1 + Resets(front));
    }
  }

  // ---------------------------------------------------------------- the chip hears it

  /** A chip as the driver's comments describe it: asleep after a Sleep frame, and woken, but no
      more than woken, by the next frame that is not one. */
  datatype Chip = Chip(awake: bool, shown: Pixel)

  /** `resetWakes` is what a reset does to this chip, which nothing in the driver depends on. */
  function Hears(c: Chip, bytes: seq<uint8>, resetWakes: bool): Chip {
    match Receive(bytes)
    case None => c.(awake := resetWakes)
    case Some(p) =>
      if c.awake then Chip(p.standby != SLEEP, p) else c.(awake := p.standby != SLEEP)
  }

  function HearsAll(c: Chip, wire: seq<seq<uint8>>, resetWakes: int -> bool): Chip
    decreases |wire|
  {
    if wire == [] then c
    else
      var n := |wire| - 1;
      Hears(HearsAll(c, wire[..n], resetWakes), wire[n], resetWakes(n))
  }

  /** Red, green and blue the chip drives. */
  function Emits(c: Chip): (uint16, uint16, uint16) {
    if c.awake then (c.shown.r, c.shown.g, c.shown.b) else (0, 0, 0)
  }

  function Colour(p: Pixel): (uint16, uint16, uint16) {
    (p.r, p.g, p.b)
  }

  lemma HearsSnoc(c: Chip, wire: seq<seq<uint8>>, bytes: seq<uint8>, resetWakes: int -> bool)
    ensures HearsAll(c, wire + [bytes], resetWakes) == Hears(HearsAll(c, wire, resetWakes), bytes, resetWakes(|wire|))
  {
    assert (wire + [bytes])[..|wire|] == wire;
  }

  /** A driver that believes the chip awake is right. */
  predicate AwakeWhenExpected(d: Driver, c: Chip) {
    d.oldStandby != SLEEP ==> c.awake
  }

  lemma FrameShown(c0: Chip, d: Driver, r: uint16, g: uint16, b: uint16, resetWakes: int -> bool)
    requires d.pixel == Written(r, g, b)
    requires AwakeWhenExpected(d, HearsAll(c0, d.wire, resetWakes))
    ensures var after := AfterFrame(d);
            var c := HearsAll(c0, after.wire, resetWakes);
            AwakeWhenExpected(after, c) && Emits(c) == Colour(d.pixel)
  {
    WrittenPixel(d.pixel, r, g, b);
    FrameRoundTrip(d.pixel);
    var frame := Encode(d.pixel);
    HearsSnoc(c0, d.wire, frame, resetWakes);
    HearsSnoc(c0, d.wire + [frame], frame, resetWakes);
    assert d.wire + [frame] + [frame] == d.wire + [frame, frame];
    assert Scale(0) == 0;
  }

  lemma ResetHeard(c0: Chip, d: Driver, resetWakes: int -> bool)
    requires d.oldStandby == SLEEP
    ensures AwakeWhenExpected(Restarted(d), HearsAll(c0, Restarted(d).wire, resetWakes))
  {
  }

  predicate InStep(l: Light, c: Chip) {
    DarkWhileSuspended(l) && AwakeWhenExpected(l.driver, c)
  }

  lemma StepShown(c0: Chip, l: Light, op: Op, resetWakes: int -> bool)
    requires InStep(l, HearsAll(c0, l.driver.wire, resetWakes))
    ensures var n := Next(l, op);
            var c := HearsAll(c0, n.driver.wire, resetWakes);
            && InStep(n, c)
            && (op.SetDuty? ==> Emits(c) == Colour(Written(op.r, op.g, op.b)))
            && (op == Suspend && !l.suspended ==> Emits(c) == (0, 0, 0))
  {
    StepDark(l, op);
    if l.suspended && Resumes(op) {
      ResetHeard(c0, l.driver, resetWakes);
    }
    var l1 := Resumed(l);
    if op.SetDuty? {
      WrittenPixel(l1.driver.pixel, op.r, op.g, op.b);
      FrameShown(c0, l1.driver.(pixel := Written(op.r, op.g, op.b)), op.r, op.g, op.b, resetWakes);
    } else if op == Suspend && !l.suspended {
      WrittenPixel(l.driver.pixel, 0, 0, 0);
      FrameShown(c0, l.driver.(pixel := Written(0, 0, 0)), 0, 0, 0, resetWakes);
    }
  }

  lemma BootInStep(c0: Chip, resetWakes: int -> bool)
    requires resetWakes(0)
    ensures AwakeWhenExpected(Boot().driver, HearsAll(c0, Boot().driver.wire, resetWakes))
  {
    HearsSnoc(c0, [], ResetBytes(), resetWakes);
    assert [] + [ResetBytes()] == [ResetBytes()];
    FramesNeverLookLikeReset([]);
  }

  lemma {:induction false} RunInStep(c0: Chip, ops: seq<Op>, resetWakes: int -> bool)
    requires resetWakes(0)
    ensures var l := Run(Boot(), ops);
            InStep(l, HearsAll(c0, l.driver.wire, resetWakes))
    decreases |ops|
  {
    if ops == [] {
      BootInStep(c0, resetWakes);
    } else {
      RunSnoc(Boot(), ops);
      RunInStep(c0, ops[..|ops| - 1], resetWakes);
      StepShown(c0, Run(Boot(), ops[..|ops| - 1]), Last(ops), resetWakes);
    }
  }

  /** Provided the reset at power-on leaves the chip awake, the chip drives the right colour after
      every write of every run, whatever later resets do to it. */
  lemma EveryColourShown(c0: Chip, ops: seq<Op>, w: uint16, r: uint16, g: uint16, b: uint16, resetWakes: int -> bool)
    requires resetWakes(0)
    ensures var l := Run(Boot(), ops + [SetDuty(w, r, g, b)]);
            Emits(HearsAll(c0, l.driver.wire, resetWakes)) == (Scale(b), Scale(g), Scale(r))
  {
    var all := ops + [SetDuty(w, r, g, b)];
    assert all[..|all| - 1] == ops;
    RunSnoc(Boot(), all);
    RunInStep(c0, ops, resetWakes);
    StepShown(c0, Run(Boot(), ops), SetDuty(w, r, g, b), resetWakes);
  }

  /** The provision is needed: the first colour after power-on is sent once, so a chip that came
      out of the power-on reset asleep still drives whatever it held before. */
  lemma FirstColourNeedsAwakeChip(c0: Chip, w: uint16, r: uint16, g: uint16, b: uint16, resetWakes: int -> bool)
    requires !(r == 0 && g == 0 && b == 0)
    ensures var l := Next(Boot(), SetDuty(w, r, g, b));
            Emits(HearsAll(c0, l.driver.wire, resetWakes))
              == if resetWakes(0) then (Scale(b), Scale(g), Scale(r)) else Colour(c0.shown)
  {
    var l := Next(Boot(), SetDuty(w, r, g, b));
    var frame := Encode(Written(r, g, b));
    WrittenPixel(Boot().driver.pixel, r, g, b);
    FrameRoundTrip(Written(r, g, b));
    FramesNeverLookLikeReset([]);
    HearsSnoc(c0, [], ResetBytes(), resetWakes);
    HearsSnoc(c0, [ResetBytes()], frame, resetWakes);
    assert l.driver.wire == [ResetBytes()] + [frame];
    assert [] + [ResetBytes()] == [ResetBytes()];
  }
}
