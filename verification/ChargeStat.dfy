/** The 1.6 Hz charge-fault detector of BspPowerMonitor.cpp: an edge interrupt that counts
    half-periods and a poll that times the blinking out. */
module ChargeStat {
  import opened Machine

  datatype ChargeStatus = ChargeInit | Charging | ChargeDone | ChargeFault

  datatype Charge = Charge(lastMs: uint32, pulses: uint32, pulsing: bool, status: ChargeStatus, enabled: bool)

  datatype ChargeOp = Edge(pinHigh: bool) | Poll(levelHigh: bool) | Enable(on: bool)

  /** An operation and the millisecond clock when it happened. */
  datatype Timed = At(ms: uint32, op: ChargeOp)

  const PULSE_HALF_MIN_MS: uint32 := 300
  const PULSE_HALF_MAX_MS: uint32 := 600

  const PowerOn := Charge(0, 0, false, ChargeInit, false)

  function Level(high: bool): ChargeStatus {
    if high then ChargeDone else Charging
  }

  function Elapsed(now: uint32, since: uint32): uint32 {
    Word32(now - since)
  }

  predicate HalfPeriod(ms: int) {
    PULSE_HALF_MIN_MS <= ms <= PULSE_HALF_MAX_MS
  }

  function EdgeSeen(c: Charge, now: uint32, pinHigh: bool): Charge {
    if HalfPeriod(Elapsed(now, c.lastMs)) then
      var pulses: uint32 := Word32(c.pulses + 1);
      if pulses >= 3 then Charge(now, pulses, true, ChargeFault, c.enabled)
      else c.(lastMs := now, pulses := pulses)
    else
      Charge(now, 0, false, Level(pinHigh), c.enabled)
  }

  /** The status a poll returns is the status it leaves behind. */
  function Polled(c: Charge, now: uint32, levelHigh: bool): Charge {
    var quiet := Elapsed(now, c.lastMs) > PULSE_HALF_MAX_MS;
    if c.pulsing then
      if quiet then c.(pulsing := false, pulses := 0, status := Level(levelHigh)) else c
    else if c.enabled && (c.lastMs == 0 || quiet) then
      c.(status := Level(levelHigh))
    else c
  }

  function Next(c: Charge, e: Timed): Charge {
    match e.op
    case Edge(pinHigh) => EdgeSeen(c, e.ms, pinHigh)
    case Poll(levelHigh) => Polled(c, e.ms, levelHigh)
    case Enable(on) => c.(enabled := on)
  }

  function Run(c: Charge, history: seq<Timed>): Charge
    decreases |history|
  {
    if history == [] then c else Next(Run(c, history[..|history| - 1]), history[|history| - 1])
  }

  // ---------------------------------------------------------------- the specification

  /** The times of the edges in a history. */
  function Edges(history: seq<Timed>): seq<uint32>
    decreases |history|
  {
    if history == [] then [] else
    var before := Edges(history[..|history| - 1]);
    var last := history[|history| - 1];
    if last.op.Edge? then before + [last.ms] else before
  }

  /** The latest edge; before the first one, a virtual edge at time 0. */
  function LastEdge(edges: seq<uint32>): uint32 {
    if edges == [] then 0 else edges[|edges| - 1]
  }

  /** How many of the latest gaps between edges, without a break, were half-periods. */
  function PulseRun(edges: seq<uint32>): nat
    decreases |edges|
  {
    if edges == [] then 0 else
    var before := edges[..|edges| - 1];
    if 300 <= edges[|edges| - 1] - LastEdge(before) <= 600 then 1 + PulseRun(before) else 0
  }

  /** Blinking: three half-periods in a row, the last edge still recent. Polls play no part. */
  predicate Blinking(edges: seq<uint32>, now: uint32) {
    PulseRun(edges) >= 3 && now - LastEdge(edges) <= 600
  }

  predicate InOrder(history: seq<Timed>, now: uint32) {
    && (forall i, j :: 0 <= i < j < |history| ==> history[i].ms <= history[j].ms)
    && (forall i :: 0 <= i < |history| ==> history[i].ms <= now)
  }

  // ---------------------------------------------------------------- the detector meets it

  predicate Tracks(c: Charge, edges: seq<uint32>, now: uint32) {
    && c.lastMs == LastEdge(edges) <= now
    && (c.status.ChargeFault? <==> c.pulsing)
    && (c.pulsing ==> c.pulses == PulseRun(edges) >= 3)
    && (!c.pulsing ==>
          || c.pulses == PulseRun(edges) < 3
          || (c.pulses == 0 && now - c.lastMs > PULSE_HALF_MAX_MS))
    && c.pulses * PULSE_HALF_MIN_MS <= c.lastMs
  }

  lemma EdgeTracks(c: Charge, edges: seq<uint32>, now: uint32, ms: uint32, pinHigh: bool)
    requires Tracks(c, edges, now) && now <= ms
    ensures Tracks(EdgeSeen(c, ms, pinHigh), edges + [ms], ms)
  {
    assert (edges + [ms])[..|edges|] == edges;
    assert Elapsed(ms, c.lastMs) == ms - c.lastMs;
  }

  lemma PollTracks(c: Charge, edges: seq<uint32>, now: uint32, ms: uint32, levelHigh: bool)
    requires Tracks(c, edges, now) && now <= ms
    ensures Tracks(Polled(c, ms, levelHigh), edges, ms)
    ensures Polled(c, ms, levelHigh).status.ChargeFault? <==> Blinking(edges, ms)
  {
    assert Elapsed(ms, c.lastMs) == ms - c.lastMs;
  }

  lemma {:induction false} RunTracks(history: seq<Timed>, now: uint32)
    requires InOrder(history, now)
    ensures Tracks(Run(PowerOn, history), Edges(history), now)
    decreases |history|
  {
    if history != [] {
      var before, last := history[..|history| - 1], history[|history| - 1];
      RunTracks(before, last.ms);
      var c := Run(PowerOn, before);
      match last.op {
        case Edge(pinHigh) => EdgeTracks(c, Edges(before), last.ms, last.ms, pinHigh);
        case Poll(levelHigh) => PollTracks(c, Edges(before), last.ms, last.ms, levelHigh);
        case Enable(_) =>
      }
    }
  }

  /** On a clock that does not go back or wrap, a poll reports a fault exactly when the
      status line is blinking; while charging is enabled and the line is quiet it reports the
      line's level. */
  lemma FaultExactlyWhenBlinking(history: seq<Timed>, now: uint32, levelHigh: bool)
    requires InOrder(history, now)
    ensures Polled(Run(PowerOn, history), now, levelHigh).status.ChargeFault? <==> Blinking(Edges(history), now)
    ensures Run(PowerOn, history).enabled && now - LastEdge(Edges(history)) > 600 ==>
              Polled(Run(PowerOn, history), now, levelHigh).status == if levelHigh then ChargeDone else Charging
  {
    RunTracks(history, now);
    PollTracks(Run(PowerOn, history), Edges(history), now, now, levelHigh);
  }

  /** Polling, at whatever times and however often, never changes a later fault verdict. */
  lemma PollsDoNotDisturb(history: seq<Timed>, polled: seq<Timed>, now: uint32, levelHigh: bool, levelHigh': bool)
    requires InOrder(history, now) && InOrder(polled, now) && Edges(history) == Edges(polled)
    ensures Polled(Run(PowerOn, history), now, levelHigh).status.ChargeFault? <==>
            Polled(Run(PowerOn, polled), now, levelHigh').status.ChargeFault?
  {
    FaultExactlyWhenBlinking(history, now, levelHigh);
    FaultExactlyWhenBlinking(polled, now, levelHigh');
  }

  // ---------------------------------------------------------------- the level shown

  /** Charging was enabled last. */
  predicate Enabled(history: seq<Timed>)
    decreases |history|
  {
    history != [] &&
    match history[|history| - 1].op
    case Enable(on) => on
    case Edge(_) => Enabled(history[..|history| - 1])
    case Poll(_) => Enabled(history[..|history| - 1])
  }

  /** A poll since the last edge found the line quiet. */
  predicate TimedOut(history: seq<Timed>)
    decreases |history|
  {
    history != [] &&
    var front, last := history[..|history| - 1], history[|history| - 1];
    match last.op
    case Edge(_) => false
    case Poll(_) => last.ms - LastEdge(Edges(front)) > 600 || TimedOut(front)
    case Enable(_) => TimedOut(front)
  }

  /** Three half-periods in a row, and no poll has timed them out. */
  predicate Pulsing(history: seq<Timed>) {
    PulseRun(Edges(history)) >= 3 && !TimedOut(history)
  }

  /** The line level read last. An edge reads it unless a half-period ends there; a poll reads it
      when it times a blinking out, and otherwise when charging is enabled and the line has been
      quiet or has had no edge yet. */
  function LevelRead(history: seq<Timed>): Option<bool>
    decreases |history|
  {
    if history == [] then None
    else
      var front, last := history[..|history| - 1], history[|history| - 1];
      var gap := last.ms - LastEdge(Edges(front));
      match last.op
      case Edge(pinHigh) => if 300 <= gap <= 600 then LevelRead(front) else Some(pinHigh)
      case Poll(levelHigh) =>
        if (if Pulsing(front) then gap > 600 else Enabled(front) && (LastEdge(Edges(front)) == 0 || gap > 600))
        then Some(levelHigh) else LevelRead(front)
      case Enable(_) => LevelRead(front)
  }

  /** High means charged, low means charging; a fault while it pulses. */
  predicate Shows(status: ChargeStatus, pulsing: bool, level: Option<bool>) {
    match status
    case ChargeFault => pulsing
    case ChargeInit => !pulsing && level == None
    case ChargeDone => !pulsing && level == Some(true)
    case Charging => !pulsing && level == Some(false)
  }

  predicate ShowsHistory(c: Charge, history: seq<Timed>) {
    && c.enabled == Enabled(history) && c.pulsing == Pulsing(history)
    && Shows(c.status, Pulsing(history), LevelRead(history))
  }

  lemma EdgeReads(history: seq<Timed>, ms: uint32, pinHigh: bool)
    ensures var all, gap := history + [At(ms, Edge(pinHigh))], ms - LastEdge(Edges(history));
            && Edges(all) == Edges(history) + [ms]
            && Enabled(all) == Enabled(history)
            && (Pulsing(all) <==> 300 <= gap <= 600 && PulseRun(Edges(history)) >= 2)
            && LevelRead(all) == if 300 <= gap <= 600 then LevelRead(history) else Some(pinHigh)
  {
    assert (history + [At(ms, Edge(pinHigh))])[..|history|] == history;
    assert (Edges(history) + [ms])[..|Edges(history)|] == Edges(history);
  }

  lemma EdgeSets(c: Charge, edges: seq<uint32>, now: uint32, ms: uint32, pinHigh: bool)
    requires Tracks(c, edges, now) && now <= ms
    ensures var after, gap := EdgeSeen(c, ms, pinHigh), ms - LastEdge(edges);
            && (after.pulsing <==> 300 <= gap <= 600 && PulseRun(edges) >= 2)
            && after.status ==
               if after.pulsing then ChargeFault
               else if 300 <= gap <= 600 then c.status
               else if pinHigh then ChargeDone else Charging
  {
    assert Elapsed(ms, c.lastMs) == ms - LastEdge(edges);
    if HalfPeriod(ms - LastEdge(edges)) {
      assert Word32(c.pulses + 1) == PulseRun(edges) + 1;
    }
  }

  lemma EdgeShows(c: Charge, history: seq<Timed>, now: uint32, ms: uint32, pinHigh: bool)
    requires Tracks(c, Edges(history), now) && ShowsHistory(c, history) && now <= ms
    ensures ShowsHistory(EdgeSeen(c, ms, pinHigh), history + [At(ms, Edge(pinHigh))])
  {
    EdgeReads(history, ms, pinHigh);
    EdgeSets(c, Edges(history), now, ms, pinHigh);
  }

  lemma PollShows(c: Charge, history: seq<Timed>, now: uint32, ms: uint32, levelHigh: bool)
    requires Tracks(c, Edges(history), now) && ShowsHistory(c, history) && now <= ms
    ensures ShowsHistory(Polled(c, ms, levelHigh), history + [At(ms, Poll(levelHigh))])
  {
    var all := history + [At(ms, Poll(levelHigh))];
    assert all[..|history|] == history;
    assert Elapsed(ms, c.lastMs) == ms - c.lastMs;
  }

  lemma StatusStep(front: seq<Timed>, last: Timed)
    requires InOrder(front, last.ms) && ShowsHistory(Run(PowerOn, front), front)
    ensures ShowsHistory(Run(PowerOn, front + [last]), front + [last])
  {
    RunTracks(front, last.ms);
    assert (front + [last])[..|front|] == front;
    match last.op {
      case Edge(pinHigh) => EdgeShows(Run(PowerOn, front), front, last.ms, last.ms, pinHigh);
      case Poll(levelHigh) => PollShows(Run(PowerOn, front), front, last.ms, last.ms, levelHigh);
      case Enable(_) =>
    }
  }

  /** After every ordered history: the status is a fault exactly while the line pulses, and
      otherwise says whether the level read last was high. */
  lemma {:induction false} StatusExactly(history: seq<Timed>, now: uint32)
    requires InOrder(history, now)
    ensures ShowsHistory(Run(PowerOn, history), history)
    decreases |history|
  {
    if history != [] {
      var front, last := history[..|history| - 1], history[|history| - 1];
      StatusExactly(front, last.ms);
      StatusStep(front, last);
      assert history == front + [last];
    }
  }
}
