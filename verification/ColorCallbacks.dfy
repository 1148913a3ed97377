/** Attribute writes on their way from the data model to the light: the clusters and the X/Y
    pairing of DataModelCallbacks.cpp and LightingManager::InitiateLightCtrlAction, on values. */
module ColorCallbacks {
  import opened Machine
  import Lighting = LightingModel
  import LightingProofs

  type Xy = (uint16, uint16)

  /** One attribute being written: on/off, level, or one of the colour cluster. `None` is a null
      value pointer. */
  datatype Write =
    | OnOff(on: bool)
    | Level(level: Option<uint8>)
    | X(x: Option<uint16>)
    | Y(y: Option<uint16>)
    | Hue(hue: uint8)
    | Saturation(saturation: uint8)
    | Mireds(mireds: uint16, size: nat)
    | OtherAttribute

  /** A callback, and whether the report bypass was on when it came. */
  datatype Event = Event(bypass: bool, write: Write)

  /** What is posted to the application task. */
  datatype Post = PostXy(x: uint16, y: uint16) | PostHsv(hue: uint8, saturation: uint8) | PostCt(mireds: uint16)

  /** The callback's statics, the manager's stored colour, and everything sent out so far. */
  datatype Color = Color(
    rawX: uint16, rawY: uint16, xReady: bool, yReady: bool, gXyReady: bool, gXy: Xy,
    currentX: uint16, currentY: uint16, hue: uint8, saturation: uint8, currentMireds: uint16,
    bridged: seq<Xy>, posts: seq<Post>)

  /** The manager as Init leaves it, from the stored attributes. */
  function Boot(x: uint16, y: uint16, h: uint8, s: uint8, ct: uint16): Color {
    Color(0, 0, false, false, false, (0, 0), x, y, h, s, ct, [], [])
  }

  /** The attribute a callback names, as the XY branch sees it. */
  datatype Axis = AxisX | AxisY | NoAxis

  function XyPost(c: Color, axis: Axis, value: uint16): Post {
    match axis
    case AxisX => PostXy(value, c.currentY)
    case AxisY => PostXy(c.currentX, value)
    case NoAxis => PostXy(c.currentX, c.currentY)
  }

  /** The XY branch of InitiateLightCtrlAction: `value` points at one 16-bit number. */
  function XyAction(c: Color, axis: Axis, value: uint16): Color {
    if (axis == AxisX && c.currentX == value) || (axis == AxisY && c.currentY == value) then c
    else c.(posts := c.posts + [XyPost(c, axis, value)])
  }

  function HueAction(c: Color, h: uint8): Color {
    if c.hue == h then c else c.(hue := h, posts := c.posts + [PostHsv(h, c.saturation)])
  }

  function SaturationAction(c: Color, s: uint8): Color {
    if c.saturation == s then c else c.(saturation := s, posts := c.posts + [PostHsv(c.hue, s)])
  }

  function CtAction(c: Color, ct: uint16): Color {
    if c.currentMireds == ct then c else c.(posts := c.posts + [PostCt(ct)])
  }

  /** Forwards a complete pair; the callback hands the manager the pair's first half whichever
      axis completed it. */
  function Forwarded(c: Color, axis: Axis): Color {
    if c.xReady && c.yReady then
      XyAction(c.(xReady := false, yReady := false, gXyReady := true, gXy := (c.rawX, c.rawY),
                  bridged := c.bridged + [(c.rawX, c.rawY)]), axis, c.rawX)
    else c
  }

  function AxisOf(write: Write): Axis {
    if write.X? then AxisX else if write.Y? then AxisY else NoAxis
  }

  function Noted(c: Color, write: Write): Color {
    match write
    case X(x) => if x.Some? then c.(rawX := x.value, xReady := true) else c
    case Y(y) => if y.Some? then c.(rawY := y.value, yReady := true) else c
    case _ => c
  }

  function OtherAction(c: Color, write: Write): Color {
    match write
    case Hue(h) => HueAction(c, h)
    case Saturation(s) => SaturationAction(c, s)
    case Mireds(ct, size) => if size == 2 then CtAction(c, ct) else c
    case _ => c
  }

  /** A write to the colour cluster. */
  function Written(c: Color, write: Write): Color {
    OtherAction(Forwarded(Noted(c, write), AxisOf(write)), write)
  }

  predicate OfColor(write: Write) {
    !write.OnOff? && !write.Level?
  }

  function Next(c: Color, e: Event): Color {
    if !e.bypass && OfColor(e.write) then Written(c, e.write) else c
  }

  /** The actor of every request from the data model (`kEventType_Light`). */
  const LIGHT_EVENT := Lighting.Caller(1)

  /** What a callback asks of the on/off machine. */
  function Asked(e: Event): seq<Lighting.Step> {
    if e.bypass then [] else
    match e.write
    case OnOff(on) => [Lighting.Do(Lighting.Act(LIGHT_EVENT, if on then Lighting.On else Lighting.Off))]
    case Level(level) => if level.Some? then [Lighting.Do(Lighting.Act(LIGHT_EVENT, Lighting.Level))] else []
    case _ => []
  }

  /** And over a run: the on/off and level writes heard, in order. */
  function AllAsked(events: seq<Event>): seq<Lighting.Step>
    decreases |events|
  {
    if events == [] then [] else AllAsked(events[..|events| - 1]) + Asked(events[|events| - 1])
  }

  function Run(c: Color, events: seq<Event>): Color
    decreases |events|
  {
    if events == [] then c else Next(Run(c, events[..|events| - 1]), events[|events| - 1])
  }

  // ---------------------------------------------------------------- pairs, read off the writes alone

  predicate IsX(e: Event) {
    !e.bypass && e.write.X? && e.write.x.Some?
  }

  predicate IsY(e: Event) {
    !e.bypass && e.write.Y? && e.write.y.Some?
  }

  predicate HasX(events: seq<Event>) {
    exists i :: 0 <= i < |events| && IsX(events[i])
  }

  predicate HasY(events: seq<Event>) {
    exists i :: 0 <= i < |events| && IsY(events[i])
  }

  function LatestX(events: seq<Event>): uint16
    decreases |events|
  {
    if events == [] then 0
    else
      var n := |events| - 1;
      if IsX(events[n]) then events[n].write.x.value else LatestX(events[..n])
  }

  function LatestY(events: seq<Event>): uint16
    decreases |events|
  {
    if events == [] then 0
    else
      var n := |events| - 1;
      if IsY(events[n]) then events[n].write.y.value else LatestY(events[..n])
  }

  predicate Complete(window: seq<Event>) {
    HasX(window) && HasY(window)
  }

  /** Where the last forwarded pair ends: a pair ends at the first event by which both an X and a
      Y have been written since the pair before it. */
  function Cut(events: seq<Event>): (n: nat)
    ensures n <= |events|
    decreases |events|
  {
    if events == [] then 0
    else
      var front := events[..|events| - 1];
      if Complete(events[Cut(front)..]) then |events| else Cut(front)
  }

  /** The stretches of the run that end in a forwarded pair, in order. */
  datatype Window = Window(from: nat, to: nat)

  function Windows(events: seq<Event>): seq<Window>
    decreases |events|
  {
    if events == [] then []
    else
      var front := events[..|events| - 1];
      if Complete(events[Cut(front)..]) then Windows(front) + [Window(Cut(front), |events|)] else Windows(front)
  }

  function PairOf(events: seq<Event>, w: Window): Xy
    requires w.from <= w.to <= |events|
  {
    (LatestX(events[w.from..w.to]), LatestY(events[w.from..w.to]))
  }

  // ---------------------------------------------------------------- the statics follow the writes

  lemma HasSnoc(events: seq<Event>, e: Event)
    ensures HasX(events + [e]) <==> HasX(events) || IsX(e)
    ensures HasY(events + [e]) <==> HasY(events) || IsY(e)
  {
    var all := events + [e];
    assert all[|events|] == e;
    assert forall i :: 0 <= i < |events| ==> all[i] == events[i];
  }

  lemma LatestSnoc(events: seq<Event>, e: Event)
    ensures LatestX(events + [e]) == if IsX(e) then e.write.x.value else LatestX(events)
    ensures LatestY(events + [e]) == if IsY(e) then e.write.y.value else LatestY(events)
  {
    assert (events + [e])[..|events|] == events;
  }

  lemma {:induction false} LatestInSuffix(events: seq<Event>, from: nat)
    requires from <= |events|
    ensures HasX(events[from..]) ==> LatestX(events[from..]) == LatestX(events)
    ensures HasY(events[from..]) ==> LatestY(events[from..]) == LatestY(events)
    decreases |events|
  {
    if from < |events| {
      var n := |events| - 1;
      LatestInSuffix(events[..n], from);
      assert events[from..] == events[..n][from..] + [events[n]];
      HasSnoc(events[..n][from..], events[n]);
      LatestSnoc(events[..n][from..], events[n]);
    }
  }

  /** The statics say what has been written since the last forward, and both are never set. */
  predicate Tracks(c: Color, events: seq<Event>) {
    var open := events[Cut(events)..];
    && c.rawX == LatestX(events) && c.rawY == LatestY(events)
    && c.xReady == HasX(open) && c.yReady == HasY(open)
    && !(c.xReady && c.yReady)
  }

  lemma OpenWindow(events: seq<Event>)
    requires events != []
    ensures var n := |events| - 1;
            var cut := Cut(events[..n]);
            && events[cut..] == events[..n][cut..] + [events[n]]
            && HasX(events[cut..]) == (HasX(events[..n][cut..]) || IsX(events[n]))
            && HasY(events[cut..]) == (HasY(events[..n][cut..]) || IsY(events[n]))
  {
    var n := |events| - 1;
    var cut := Cut(events[..n]);
    assert events[cut..] == events[..n][cut..] + [events[n]];
    HasSnoc(events[..n][cut..], events[n]);
  }

  lemma {:induction false} RunTracks(c: Color, events: seq<Event>)
    requires !c.xReady && !c.yReady && c.rawX == 0 && c.rawY == 0
    ensures Tracks(Run(c, events), events)
    decreases |events|
  {
    if events != [] {
      RunTracks(c, events[..|events| - 1]);
      OpenWindow(events);
    }
  }

  /** One more event forwards exactly when it completes the open window, and then the latest of
      both in that window. */
  lemma StepBridged(c: Color, events: seq<Event>)
    requires events != [] && Tracks(c, events[..|events| - 1])
    ensures var n := |events| - 1;
            var open := events[Cut(events[..n])..];
            Next(c, events[n]).bridged
              == if Complete(open) then c.bridged + [(LatestX(open), LatestY(open))] else c.bridged
  {
    var n := |events| - 1;
    OpenWindow(events);
    LatestInSuffix(events, Cut(events[..n]));
    assert LatestX(events) == if IsX(events[n]) then events[n].write.x.value else LatestX(events[..n]);
    assert LatestY(events) == if IsY(events[n]) then events[n].write.y.value else LatestY(events[..n]);
  }

  /** The bridge shows the latest pair forwarded to it, once there is one. */
  predicate BridgeShows(c: Color) {
    c.gXyReady == (c.bridged != []) && (c.bridged != [] ==> c.gXy == c.bridged[|c.bridged| - 1])
  }

  lemma {:induction false} RunBridgeShows(c: Color, events: seq<Event>)
    requires BridgeShows(c)
    ensures BridgeShows(Run(c, events))
    decreases |events|
  {
    if events != [] {
      RunBridgeShows(c, events[..|events| - 1]);
    }
  }

  predicate WithinRun(ws: seq<Window>, n: nat) {
    forall i :: 0 <= i < |ws| ==> ws[i].from < ws[i].to <= n
  }

  /** The pair of each window: the latest X and the latest Y written in it. */
  function PairsOf(events: seq<Event>, ws: seq<Window>): seq<Xy>
    requires WithinRun(ws, |events|)
  {
    seq(|ws|, i requires 0 <= i < |ws| => PairOf(events, ws[i]))
  }

  lemma SliceOfFront(events: seq<Event>, w: Window)
    requires events != [] && w.from <= w.to <= |events| - 1
    ensures events[w.from..w.to] == events[..|events| - 1][w.from..w.to]
  {
  }

  /** Windows follow one another: no write belongs to two pairs, and each window holds both an X
      and a Y write. */
  lemma {:induction false} WindowsApart(events: seq<Event>)
    ensures var ws := Windows(events);
            && WithinRun(ws, |events|)
            && (forall i, j :: 0 <= i < j < |ws| ==> ws[i].to <= ws[j].from)
            && (forall i :: 0 <= i < |ws| ==> ws[i].to <= Cut(events) && Complete(events[ws[i].from..ws[i].to]))
    decreases |events|
  {
    if events != [] {
      var n := |events| - 1;
      var front := events[..n];
      WindowsApart(front);
      forall i | 0 <= i < |Windows(front)|
        ensures Complete(events[Windows(front)[i].from..Windows(front)[i].to]) {
        SliceOfFront(events, Windows(front)[i]);
      }
      assert events[Cut(front)..n + 1] == events[Cut(front)..];
    }
  }

  lemma PairsOfFront(events: seq<Event>)
    requires events != []
    ensures var n := |events| - 1;
            var ws := Windows(events[..n]);
            WithinRun(ws, n) && PairsOf(events, ws) == PairsOf(events[..n], ws)
  {
    var n := |events| - 1;
    var ws := Windows(events[..n]);
    WindowsApart(events[..n]);
    forall i | 0 <= i < |ws| ensures PairOf(events, ws[i]) == PairOf(events[..n], ws[i]) {
      SliceOfFront(events, ws[i]);
    }
  }

  lemma PairsOfSnoc(events: seq<Event>, ws: seq<Window>, w: Window)
    requires WithinRun(ws, |events|) && w.from < w.to <= |events|
    ensures WithinRun(ws + [w], |events|)
    ensures PairsOf(events, ws + [w]) == PairsOf(events, ws) + [PairOf(events, w)]
  {
  }

  lemma WindowAdded(events: seq<Event>)
    requires events != []
    ensures var front := events[..|events| - 1];
            var open := events[Cut(front)..];
            && WithinRun(Windows(events), |events|) && WithinRun(Windows(front), |front|)
            && PairsOf(events, Windows(events))
                 == PairsOf(front, Windows(front)) + if Complete(open) then [(LatestX(open), LatestY(open))] else []
  {
    var n := |events| - 1;
    var cut := Cut(events[..n]);
    PairsOfFront(events);
    if Complete(events[cut..]) {
      assert events[cut..n + 1] == events[cut..];
      PairsOfSnoc(events, Windows(events[..n]), Window(cut, n + 1));
    }
  }

  /** Whatever is written in whatever order: the pairs forwarded are, window by window, the latest
      X and the latest Y of that window, and between calls never both halves are waiting. */
  lemma {:induction false} PairsForwarded(c: Color, events: seq<Event>)
    requires !c.xReady && !c.yReady && c.rawX == 0 && c.rawY == 0
    ensures WithinRun(Windows(events), |events|)
    ensures Run(c, events).bridged == c.bridged + PairsOf(events, Windows(events))
    ensures !(Run(c, events).xReady && Run(c, events).yReady)
    decreases |events|
  {
    RunTracks(c, events);
    if events != [] {
      var front := events[..|events| - 1];
      PairsForwarded(c, front);
      RunTracks(c, front);
      StepBridged(Run(c, front), events);
      WindowAdded(events);
    }
  }

  // ---------------------------------------------------------------- no write is lost to pairing

  /** A writer that always sends both halves, X first. */
  function Sends(colours: seq<Xy>): seq<Event>
    decreases |colours|
  {
    if colours == [] then []
    else
      var n := |colours| - 1;
      Sends(colours[..n]) + [Event(false, X(Some(colours[n].0))), Event(false, Y(Some(colours[n].1)))]
  }

  lemma RunTwo(c: Color, events: seq<Event>, e1: Event, e2: Event)
    ensures Run(c, events + [e1, e2]) == Next(Next(Run(c, events), e1), e2)
  {
    var one := events + [e1];
    assert one[..|events|] == events;
    assert (events + [e1, e2])[..|one|] == one;
  }

  lemma PairArrives(c: Color, x: uint16, y: uint16)
    requires !c.xReady && !c.yReady
    ensures var n := Next(Next(c, Event(false, X(Some(x)))), Event(false, Y(Some(y))));
            n.bridged == c.bridged + [(x, y)] && !n.xReady && !n.yReady
  {
  }

  /** Sent in that order, every colour arrives, once and in order. */
  lemma {:induction false} EveryColourSentArrives(c: Color, colours: seq<Xy>)
    requires !c.xReady && !c.yReady
    ensures var after := Run(c, Sends(colours));
            after.bridged == c.bridged + colours && !after.xReady && !after.yReady
    decreases |colours|
  {
    if colours != [] {
      var n := |colours| - 1;
      var front, last := colours[..n], colours[n];
      EveryColourSentArrives(c, front);
      RunTwo(c, Sends(front), Event(false, X(Some(last.0))), Event(false, Y(Some(last.1))));
      PairArrives(Run(c, Sends(front)), last.0, last.1);
      assert colours == front + [last];
      assert c.bridged + front + [last] == c.bridged + colours;
    }
  }

  // ---------------------------------------------------------------- the bypass

  function Heard(events: seq<Event>): seq<Event>
    decreases |events|
  {
    if events == [] then []
    else
      var n := |events| - 1;
      if events[n].bypass then Heard(events[..n]) else Heard(events[..n]) + [events[n]]
  }

  /** Writes made while the bypass is on might as well not have happened. */
  lemma {:induction false} BypassedWritesInvisible(c: Color, events: seq<Event>)
    ensures Run(c, events) == Run(c, Heard(events)) && AllAsked(events) == AllAsked(Heard(events))
    decreases |events|
  {
    if events != [] {
      var n := |events| - 1;
      BypassedWritesInvisible(c, events[..n]);
      assert AllAsked(events[..n]) + [] == AllAsked(events[..n]);
      if !events[n].bypass {
        assert (Heard(events[..n]) + [events[n]])[..|Heard(events[..n])|] == Heard(events[..n]);
      }
    }
  }

  // ---------------------------------------------------------------- what the on/off machine is asked

  /** The on/off attribute as last written and heard. */
  function LatestOnOff(before: bool, events: seq<Event>): bool
    decreases |events|
  {
    if events == [] then before
    else
      var last := events[|events| - 1];
      if !last.bypass && last.write.OnOff? then last.write.on else LatestOnOff(before, events[..|events| - 1])
  }

  /** How many levels were written and heard. */
  function LevelsWritten(events: seq<Event>): nat
    decreases |events|
  {
    if events == [] then 0
    else
      var last := events[|events| - 1];
      LevelsWritten(events[..|events| - 1])
        + if !last.bypass && last.write.Level? && last.write.level.Some? then 1 else 0
  }

  function LevelSteps(steps: seq<Lighting.Step>): nat
    decreases |steps|
  {
    if steps == [] then 0
    else
      LevelSteps(steps[..|steps| - 1])
        + if steps[|steps| - 1] == Lighting.Do(Lighting.Act(Lighting.Caller(1), Lighting.Level)) then 1 else 0
  }

  /** Every request names the light event, number 1, as its actor. */
  predicate ByLightEvent(steps: seq<Lighting.Step>) {
    forall i :: 0 <= i < |steps| ==>
      steps[i].Do? && steps[i].command.Act? && steps[i].command.actor == Lighting.Caller(1)
  }

  lemma AskedOne(before: bool, steps: seq<Lighting.Step>, e: Event)
    requires LightingProofs.AutoUnused(steps) && ByLightEvent(steps)
    ensures LightingProofs.AutoUnused(steps + Asked(e)) && ByLightEvent(steps + Asked(e))
    ensures LightingProofs.LatestIntent(before, steps + Asked(e)) ==
              if !e.bypass && e.write.OnOff? then e.write.on else LightingProofs.LatestIntent(before, steps)
    ensures LevelSteps(steps + Asked(e)) ==
              LevelSteps(steps) + if !e.bypass && e.write.Level? && e.write.level.Some? then 1 else 0
  {
    var asked := Asked(e);
    if asked == [] {
      assert steps + asked == steps;
    } else {
      assert asked == [asked[0]];
      assert (steps + [asked[0]])[..|steps|] == steps;
    }
  }

  /** What is asked of the on/off machine is what was written: the latest request is the attribute's
      latest value, and there is one brightness request for each level. */
  lemma {:induction false} AskedAsWritten(before: bool, events: seq<Event>)
    ensures LightingProofs.LatestIntent(before, AllAsked(events)) == LatestOnOff(before, events)
    ensures LevelSteps(AllAsked(events)) == LevelsWritten(events)
    ensures LightingProofs.AutoUnused(AllAsked(events)) && ByLightEvent(AllAsked(events))
    decreases |events|
  {
    if events != [] {
      var n := |events| - 1;
      AskedAsWritten(before, events[..n]);
      AskedOne(before, AllAsked(events[..n]), events[n]);
    }
  }

  /** So the lamp is heading where the on/off attribute was last set, and stays put when every
      write was bypassed. */
  lemma LampFollowsAttribute(m: Lighting.Light, events: seq<Event>)
    requires LightingProofs.AutoIdle(m)
    ensures LightingProofs.HeadingOn(Lighting.Run(m, AllAsked(events)))
         == LatestOnOff(LightingProofs.HeadingOn(m), events)
  {
    AskedAsWritten(LightingProofs.HeadingOn(m), events);
    LightingProofs.RunHeading(m, AllAsked(events));
  }

  // ---------------------------------------------------------------- what the application task gets

  lemma ForwardedPost(c: Color, axis: Axis)
    requires c.xReady && c.yReady && axis != NoAxis
    ensures var n := Forwarded(c, axis);
            n.posts == c.posts + (
              if axis == AxisX then if c.rawX == c.currentX then [] else [PostXy(c.rawX, c.currentY)]
              else if c.rawX == c.currentY then [] else [PostXy(c.currentX, c.rawX)])
    ensures var n := Forwarded(c, axis);
            n.posts == c.posts + [PostXy(c.rawX, c.rawY)] <==>
              if axis == AxisX then c.rawX != c.currentX && c.rawY == c.currentY
              else c.rawX == c.currentX && c.rawX == c.rawY && c.rawX != c.currentY
  {
    var n := Forwarded(c, axis);
    if n.posts != c.posts {
      assert n.posts[|c.posts|] == XyPost(c, axis, c.rawX);
      assert (c.posts + [PostXy(c.rawX, c.rawY)])[|c.posts|] == PostXy(c.rawX, c.rawY);
    }
  }

  lemma {:induction false} StoredXyKept(c: Color, events: seq<Event>)
    ensures Run(c, events).currentX == c.currentX && Run(c, events).currentY == c.currentY
    decreases |events|
  {
    if events != [] {
      StoredXyKept(c, events[..|events| - 1]);
    }
  }

  predicate Completes(events: seq<Event>, e: Event) {
    Complete((events + [e])[Cut(events)..])
  }

  /** After any run, when a write completes a pair, the bridge gets that pair, but the colour
      posted to the application task is the pair exactly in these cases: X came last, is not the
      power-on X, and Y is the power-on Y; or Y came last, is not the power-on Y, and both halves
      are equal to the power-on X. */
  lemma PostedPairExactly(c: Color, events: seq<Event>, e: Event)
    requires !c.xReady && !c.yReady && c.rawX == 0 && c.rawY == 0
    requires Completes(events, e)
    ensures var before, after := Run(c, events), Run(c, events + [e]);
            var x, y := LatestX(events + [e]), LatestY(events + [e]);
            && after.bridged == before.bridged + [(x, y)]
            && (IsX(e) || IsY(e))
            && after.posts == before.posts + (
                 if IsX(e) then if x == c.currentX then [] else [PostXy(x, c.currentY)]
                 else if x == c.currentY then [] else [PostXy(c.currentX, x)])
            && (after.posts == before.posts + [PostXy(x, y)] <==>
                  if IsX(e) then x != c.currentX && y == c.currentY
                  else y != c.currentY && x == y == c.currentX)
  {
    var all, before := events + [e], Run(c, events);
    assert all[..|events|] == events;
    RunTracks(c, events);
    StoredXyKept(c, events);
    OpenWindow(all);
    LatestSnoc(events, e);
    ForwardedPost(Noted(before, e.write), AxisOf(e.write));
  }

  type Hs = (uint8, uint8)

  function HsvPosts(posts: seq<Post>): seq<Hs>
    decreases |posts|
  {
    if posts == [] then []
    else
      var n := |posts| - 1;
      HsvPosts(posts[..n]) + match posts[n] case PostHsv(h, s) => [(h, s)] case PostXy(_, _) => [] case PostCt(_) => []
  }

  function HsWritten(before: Hs, write: Write): Hs {
    if write.Hue? then (write.hue, before.1)
    else if write.Saturation? then (before.0, write.saturation)
    else before
  }

  function HsAfter(before: Hs, e: Event): Hs {
    if e.bypass then before else HsWritten(before, e.write)
  }

  function HsOf(c: Color): Hs {
    (c.hue, c.saturation)
  }

  function Change(before: Hs, after: Hs): seq<Hs> {
    if after == before then [] else [after]
  }

  /** Hue and saturation after every write, starting from what is stored. */
  function HsTrace(start: Hs, events: seq<Event>): (trace: seq<Hs>)
    ensures |trace| == |events| + 1
    decreases |events|
  {
    if events == [] then [start]
    else
      var n := |events| - 1;
      var trace := HsTrace(start, events[..n]);
      trace + [HsAfter(trace[n], events[n])]
  }

  /** A trace without its first element and without repetitions. */
  function Changes(trace: seq<Hs>): seq<Hs>
    decreases |trace|
  {
    if |trace| < 2 then []
    else
      var n := |trace| - 1;
      if trace[n] == trace[n - 1] then Changes(trace[..n]) else Changes(trace[..n]) + [trace[n]]
  }

  lemma HsvPostsSnoc(posts: seq<Post>, p: Post)
    ensures HsvPosts(posts + [p]) == HsvPosts(posts) + if p.PostHsv? then [(p.hue, p.saturation)] else []
  {
    assert (posts + [p])[..|posts|] == posts;
  }

  function CtPosts(posts: seq<Post>): seq<uint16>
    decreases |posts|
  {
    if posts == [] then []
    else
      var n := |posts| - 1;
      CtPosts(posts[..n]) + if posts[n].PostCt? then [posts[n].mireds] else []
  }

  lemma CtPostsSnoc(posts: seq<Post>, p: Post)
    ensures CtPosts(posts + [p]) == CtPosts(posts) + if p.PostCt? then [p.mireds] else []
  {
    assert (posts + [p])[..|posts|] == posts;
  }

  /** Forwarding a pair posts nothing but XY colours and leaves hue, saturation and temperature. */
  lemma ForwardKeepsOthers(c: Color, axis: Axis)
    ensures var n := Forwarded(c, axis);
            && HsvPosts(n.posts) == HsvPosts(c.posts) && CtPosts(n.posts) == CtPosts(c.posts)
            && n.hue == c.hue && n.saturation == c.saturation && n.currentMireds == c.currentMireds
  {
    var p := XyPost(c, axis, c.rawX);
    HsvPostsSnoc(c.posts, p);
    CtPostsSnoc(c.posts, p);
  }

  function NewCt(stored: uint16, write: Write): seq<uint16> {
    if write.Mireds? && write.size == 2 && write.mireds != stored then [write.mireds] else []
  }

  /** From `c` to `n`, exactly the write's news has been posted. */
  predicate PostsFollow(c: Color, n: Color, write: Write) {
    && HsOf(n) == HsWritten(HsOf(c), write) && n.currentMireds == c.currentMireds
    && HsvPosts(n.posts) == HsvPosts(c.posts) + Change(HsOf(c), HsWritten(HsOf(c), write))
    && CtPosts(n.posts) == CtPosts(c.posts) + NewCt(c.currentMireds, write)
  }

  lemma NothingFollows(c: Color, write: Write)
    requires HsWritten(HsOf(c), write) == HsOf(c) && NewCt(c.currentMireds, write) == []
    ensures PostsFollow(c, c, write)
  {
    assert HsvPosts(c.posts) + [] == HsvPosts(c.posts);
    assert CtPosts(c.posts) + [] == CtPosts(c.posts);
  }

  lemma HsPosted(c: Color, hs: Hs)
    requires hs != HsOf(c)
    ensures var posts := c.posts + [PostHsv(hs.0, hs.1)];
            HsvPosts(posts) == HsvPosts(c.posts) + Change(HsOf(c), hs) && CtPosts(posts) == CtPosts(c.posts) + []
  {
    HsvPostsSnoc(c.posts, PostHsv(hs.0, hs.1));
    CtPostsSnoc(c.posts, PostHsv(hs.0, hs.1));
  }

  lemma HueFollows(c: Color, h: uint8)
    ensures PostsFollow(c, HueAction(c, h), Hue(h))
  {
    if h == c.hue {
      NothingFollows(c, Hue(h));
    } else {
      HsPosted(c, (h, c.saturation));
    }
  }

  lemma SaturationFollows(c: Color, s: uint8)
    ensures PostsFollow(c, SaturationAction(c, s), Saturation(s))
  {
    if s == c.saturation {
      NothingFollows(c, Saturation(s));
    } else {
      HsPosted(c, (c.hue, s));
    }
  }

  lemma MiredsFollows(c: Color, ct: uint16, size: nat)
    ensures PostsFollow(c, if size == 2 then CtAction(c, ct) else c, Mireds(ct, size))
  {
    if size != 2 || ct == c.currentMireds {
      NothingFollows(c, Mireds(ct, size));
    } else {
      HsvPostsSnoc(c.posts, PostCt(ct));
      CtPostsSnoc(c.posts, PostCt(ct));
    }
  }

  lemma OtherFollows(c: Color, write: Write)
    ensures PostsFollow(c, OtherAction(c, write), write)
  {
    match write
    case Hue(h) => HueFollows(c, h);
    case Saturation(s) => SaturationFollows(c, s);
    case Mireds(ct, size) => MiredsFollows(c, ct, size);
    case _ => NothingFollows(c, write);
  }

  /** Two states that have posted the same hues, saturations and temperatures. */
  predicate SamePosts(c: Color, d: Color) {
    && HsOf(c) == HsOf(d) && c.currentMireds == d.currentMireds
    && HsvPosts(c.posts) == HsvPosts(d.posts) && CtPosts(c.posts) == CtPosts(d.posts)
  }

  lemma NotedSame(c: Color, write: Write)
    ensures SamePosts(Noted(c, write), c)
  {
  }

  lemma ForwardedSame(c: Color, axis: Axis)
    ensures SamePosts(Forwarded(c, axis), c)
  {
    ForwardKeepsOthers(c, axis);
  }

  lemma SameChained(c: Color, d: Color, e: Color)
    requires SamePosts(e, d) && SamePosts(d, c)
    ensures SamePosts(e, c)
  {
  }

  lemma PairingKeepsOthers(c: Color, write: Write)
    ensures SamePosts(Forwarded(Noted(c, write), AxisOf(write)), c)
  {
    NotedSame(c, write);
    ForwardedSame(Noted(c, write), AxisOf(write));
    SameChained(c, Noted(c, write), Forwarded(Noted(c, write), AxisOf(write)));
  }

  lemma FollowsFromSame(c: Color, d: Color, n: Color, write: Write)
    requires SamePosts(d, c) && PostsFollow(d, n, write)
    ensures PostsFollow(c, n, write)
  {
  }

  lemma StepPosts(c: Color, e: Event)
    ensures if e.bypass then Next(c, e) == c else PostsFollow(c, Next(c, e), e.write)
  {
    if !e.bypass && OfColor(e.write) {
      var forwarded := Forwarded(Noted(c, e.write), AxisOf(e.write));
      PairingKeepsOthers(c, e.write);
      OtherFollows(forwarded, e.write);
      FollowsFromSame(c, forwarded, Next(c, e), e.write);
    } else if !e.bypass {
      NothingFollows(c, e.write);
    }
  }

  /** The hue and saturation posted over a run are the stored pair's successive values with every
      repetition left out, and the stored pair is always the latest written. */
  lemma {:induction false} HsvStream(c: Color, events: seq<Event>)
    ensures var trace := HsTrace(HsOf(c), events);
            var after := Run(c, events);
            HsOf(after) == trace[|events|] && HsvPosts(after.posts) == HsvPosts(c.posts) + Changes(trace)
    decreases |events|
  {
    if events != [] {
      var n := |events| - 1;
      HsvStream(c, events[..n]);
      var before := HsTrace(HsOf(c), events[..n]);
      var trace := HsTrace(HsOf(c), events);
      assert trace[..n + 1] == before;
      StepPosts(Run(c, events[..n]), events[n]);
      assert Changes(trace) == Changes(before) + Change(before[n], trace[n + 1]);
    }
  }

  // ---------------------------------------------------------------- colour temperature

  /** The colour temperatures written, without those equal to the stored one. */
  function CtOtherThan(stored: uint16, events: seq<Event>): seq<uint16>
    decreases |events|
  {
    if events == [] then []
    else
      var n := |events| - 1;
      CtOtherThan(stored, events[..n]) + if events[n].bypass then [] else NewCt(stored, events[n].write)
  }

  /** The stored colour temperature never changes, so over a whole run exactly the writes that
      differ from the power-on value are posted. */
  lemma {:induction false} CtStream(c: Color, events: seq<Event>)
    ensures var after := Run(c, events);
            && after.currentMireds == c.currentMireds
            && CtPosts(after.posts) == CtPosts(c.posts) + CtOtherThan(c.currentMireds, events)
    decreases |events|
  {
    if events != [] {
      var n := |events| - 1;
      CtStream(c, events[..n]);
      StepPosts(Run(c, events[..n]), events[n]);
    }
  }

  /** So the light follows a colour-temperature write exactly when it is not the power-on value. */
  lemma CtFollowsExactly(c: Color, events: seq<Event>, ct: uint16)
    ensures var before, after := Run(c, events), Run(c, events + [Event(false, Mireds(ct, 2))]);
            (CtPosts(after.posts) == CtPosts(before.posts) + [ct] <==> ct != c.currentMireds)
            && (CtPosts(after.posts) == CtPosts(before.posts) <==> ct == c.currentMireds)
  {
    var e := Event(false, Mireds(ct, 2));
    assert (events + [e])[..|events|] == events;
    CtStream(c, events);
    StepPosts(Run(c, events), e);
  }
}
