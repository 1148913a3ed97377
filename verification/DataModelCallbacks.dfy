/** MatterPostAttributeChangeCallback with its statics, the colour half of LightingManager, and
    the on/off machine it asks. */
module DataModelCallbacksObject {
  import opened Machine
  import opened ColorCallbacks
  import Lighting = LightingModel
  import LightingProofs
  import LightingObject

  datatype ColorAction = ColorXy | ColorHsv | ColorCt | NoColor

  datatype Attribute = CurrentX | CurrentY | CurrentHue | CurrentSaturation | ColorTemperatureMireds | OtherId

  function AttributeOf(write: Write): Attribute {
    match write
    case X(_) => CurrentX
    case Y(_) => CurrentY
    case Hue(_) => CurrentHue
    case Saturation(_) => CurrentSaturation
    case Mireds(_, _) => ColorTemperatureMireds
    case _ => OtherId
  }

  function AxisNamed(attribute: Attribute): Axis {
    if attribute == CurrentX then AxisX else if attribute == CurrentY then AxisY else NoAxis
  }

  /** The attribute is one the action's branch looks at; colour temperature looks at none. */
  predicate Named(action: ColorAction, attribute: Attribute) {
    match action
    case ColorXy => attribute == CurrentX || attribute == CurrentY
    case ColorHsv => attribute == CurrentHue || attribute == CurrentSaturation
    case ColorCt => true
    case NoColor => false
  }

  /** The colour fields of LightingManager, and what it has posted to the application task. */
  class ManagerColor {
    var mCurrentX: uint16
    var mCurrentY: uint16
    var mCurrentHue: uint8
    var mCurrentSaturation: uint8
    var mCurrentCTMireds: uint16
    var posts: seq<Post>

    constructor (x: uint16, y: uint16, hue: uint8, saturation: uint8, ct: uint16)
      ensures mCurrentX == x && mCurrentY == y && mCurrentHue == hue && mCurrentSaturation == saturation
      ensures mCurrentCTMireds == ct && posts == []
    {
      mCurrentX, mCurrentY, mCurrentHue, mCurrentSaturation := x, y, hue, saturation;
      mCurrentCTMireds, posts := ct, [];
    }

    /** The state of the model with the callback's part taken from `c`. */
    function Within(c: Color): Color
      reads this
    {
      c.(currentX := mCurrentX, currentY := mCurrentY, hue := mCurrentHue, saturation := mCurrentSaturation,
         currentMireds := mCurrentCTMireds, posts := posts)
    }

    /** The HSV branch for any attribute: the stored pair, updated in the half that is named. */
    static function HsvAction(c: Color, attribute: Attribute, value: uint8): Color {
      if attribute == CurrentHue then HueAction(c, value)
      else if attribute == CurrentSaturation then SaturationAction(c, value)
      else c.(posts := c.posts + [PostHsv(c.hue, c.saturation)])
    }

    /** `value` is the 16-bit number at the value pointer; a one-byte read sees its low byte. */
    method InitiateLightCtrlAction(action: ColorAction, attribute: Attribute, value: uint16, ghost c: Color)
      returns (actionInitiated: bool)
      modifies this`mCurrentHue, this`mCurrentSaturation, this`posts
      ensures Within(c) ==
              var was := old(Within(c));
              match action
              case ColorXy => XyAction(was, AxisNamed(attribute), value)
              case ColorHsv => HsvAction(was, attribute, value % 0x100)
              case ColorCt => CtAction(was, value)
              case NoColor => was
      ensures actionInitiated <==> posts != old(posts) && Named(action, attribute)
    {
      actionInitiated := false;
      var colorData: Post;
      match action {
        case ColorXy =>
          var x, y := mCurrentX, mCurrentY;
          if attribute == CurrentX {
            if x == value {
              return;
            }
            x := value;
            actionInitiated := true;
          } else if attribute == CurrentY {
            if y == value {
              return;
            }
            y := value;
            actionInitiated := true;
          }
          colorData := PostXy(x, y);
        case ColorHsv =>
          var byte: uint8 := value % 0x100;
          var h, s := mCurrentHue, mCurrentSaturation;
          if attribute == CurrentHue {
            if h == byte {
              return;
            }
            h := byte;
            mCurrentHue := byte;
            actionInitiated := true;
          } else if attribute == CurrentSaturation {
            if s == byte {
              return;
            }
            s := byte;
            mCurrentSaturation := byte;
            actionInitiated := true;
          }
          colorData := PostHsv(h, s);
        case ColorCt =>
          if mCurrentCTMireds == value {
            return;
          }
          colorData := PostCt(value);
          actionInitiated := true;
        case NoColor =>
          return;
      }
      posts := posts + [colorData];
    }
  }

  /** An HSV action posts the pair as stored afterwards, unless it names a half that already has
      the value; the other half is kept. */
  lemma HsvPostsStored(c: Color, attribute: Attribute, value: uint8)
    ensures var n := ManagerColor.HsvAction(c, attribute, value);
            && n.hue == (if attribute == CurrentHue then value else c.hue)
            && n.saturation == (if attribute == CurrentSaturation then value else c.saturation)
            && n.posts == c.posts +
               if attribute in {CurrentHue, CurrentSaturation} && n.hue == c.hue && n.saturation == c.saturation
               then [] else [PostHsv(n.hue, n.saturation)]
  {
    assert c.posts + [] == c.posts;
  }

  /** An XY action posts the stored pair with the named half replaced, unless that half already has
      the value, and stores nothing. */
  lemma XyPostsGiven(c: Color, attribute: Attribute, value: uint16)
    ensures var n := XyAction(c, AxisNamed(attribute), value);
            && n.currentX == c.currentX && n.currentY == c.currentY
            && n.posts == c.posts +
               match attribute
               case CurrentX => if value == c.currentX then [] else [PostXy(value, c.currentY)]
               case CurrentY => if value == c.currentY then [] else [PostXy(c.currentX, value)]
               case _ => [PostXy(c.currentX, c.currentY)]
  {
    assert c.posts + [] == c.posts;
  }

  lemma AskedLast(m: Lighting.Light, asked: seq<Lighting.Step>, e: Event)
    ensures Lighting.Run(Lighting.Run(m, asked), Asked(e)) == Lighting.Run(m, asked + Asked(e))
  {
    if Asked(e) == [] {
      assert asked + Asked(e) == asked;
    } else {
      var step := Asked(e)[0];
      assert Asked(e) == [step] && [step][1..] == [];
      LightingProofs.RunLast(m, asked, step);
    }
  }

  class DataModelCallbacks {
    const lightMgr: LightingObject.LightingManager
    const manager: ManagerColor
    var sRawX: uint16
    var sRawY: uint16
    var sXReady: bool
    var sYReady: bool
    var gXyReady: bool
    var gXy: Xy
    /** Colours handed to MatterColorBridge. */
    var bridged: seq<Xy>

    function Model(): Color
      reads this, manager
    {
      manager.Within(Color(sRawX, sRawY, sXReady, sYReady, gXyReady, gXy, 0, 0, 0, 0, 0, bridged, []))
    }

    constructor (on: bool, x: uint16, y: uint16, hue: uint8, saturation: uint8, ct: uint16)
      ensures Model() == Boot(x, y, hue, saturation, ct) && lightMgr.Model() == Lighting.Boot(on)
      ensures manager.mCurrentX == x && manager.mCurrentY == y && manager.mCurrentHue == hue
      ensures manager.mCurrentSaturation == saturation && manager.mCurrentCTMireds == ct && manager.posts == []
      ensures !sXReady && !sYReady && !gXyReady && sRawX == sRawY == 0 && bridged == []
      ensures fresh(manager) && fresh(lightMgr)
    {
      lightMgr := new LightingObject.LightingManager.Init(on);
      manager := new ManagerColor(x, y, hue, saturation, ct);
      sRawX, sRawY, sXReady, sYReady := 0, 0, false, false;
      gXyReady, gXy, bridged := false, (0, 0), [];
    }

    method AskLight(action: Lighting.Action)
      modifies lightMgr
      ensures lightMgr.Model() == Lighting.Run(old(lightMgr.Model()), [Lighting.Do(Lighting.Act(LIGHT_EVENT, action))])
    {
      var _ := lightMgr.InitiateAction(LIGHT_EVENT, action);
      ghost var step := Lighting.Do(Lighting.Act(LIGHT_EVENT, action));
      assert [step][1..] == [];
    }

    /** Both halves are there: bridge the pair and hand its first half to the manager. */
    method ForwardPair(attribute: Attribute)
      requires sXReady && sYReady
      modifies `sXReady, `sYReady, `gXyReady, `gXy, `bridged, manager
      ensures Model() == Forwarded(old(Model()), AxisNamed(attribute))
    {
      sXReady := false;
      sYReady := false;
      gXyReady := true;
      gXy := (sRawX, sRawY);
      var combinedXy := [sRawX, sRawY];
      bridged := bridged + [(combinedXy[0], combinedXy[1])];
      var _ := manager.InitiateLightCtrlAction(ColorXy, attribute, combinedXy[0], Model());
    }

    /** Hue, saturation and colour temperature. */
    method InitiateOther(write: Write)
      modifies manager
      ensures Model() == OtherAction(old(Model()), write)
    {
      match write {
        case Hue(h) =>
          var _ := manager.InitiateLightCtrlAction(ColorHsv, CurrentHue, h, Model());
        case Saturation(s) =>
          var _ := manager.InitiateLightCtrlAction(ColorHsv, CurrentSaturation, s, Model());
        case Mireds(ct, size) =>
          if size != 2 {
            return;
          }
          var _ := manager.InitiateLightCtrlAction(ColorCt, ColorTemperatureMireds, ct, Model());
        case _ =>
      }
    }

    /** The colour cluster. */
    method WriteColor(write: Write)
      requires OfColor(write)
      modifies this, manager
      ensures Model() == Written(old(Model()), write)
    {
      if write.X? {
        if write.x.Some? {
          sRawX := write.x.value;
          sXReady := true;
        }
      } else if write.Y? {
        if write.y.Some? {
          sRawY := write.y.value;
          sYReady := true;
        }
      }
      if sXReady && sYReady {
        ForwardPair(AttributeOf(write));
      }
      InitiateOther(write);
    }

    method MatterPostAttributeChangeCallback(bypass: bool, write: Write)
      modifies this, manager, lightMgr
      ensures Model() == Next(old(Model()), Event(bypass, write))
      ensures lightMgr.Model() == Lighting.Run(old(lightMgr.Model()), Asked(Event(bypass, write)))
    {
      if write.OnOff? {
        if bypass {
          return;
        }
        AskLight(if write.on then Lighting.On else Lighting.Off);
      } else if write.Level? {
        if write.level.Some? {
          if bypass {
            return;
          }
          AskLight(Lighting.Level);
        }
      } else {
        if bypass {
          return;
        }
        WriteColor(write);
      }
    }

    /** Any sequence of callbacks. */
    method Perform(events: seq<Event>)
      modifies this, manager, lightMgr
      ensures Model() == Run(old(Model()), events)
      ensures lightMgr.Model() == Lighting.Run(old(lightMgr.Model()), AllAsked(events))
    {
      for k := 0 to |events|
        invariant Model() == Run(old(Model()), events[..k])
        invariant lightMgr.Model() == Lighting.Run(old(lightMgr.Model()), AllAsked(events[..k]))
      {
        MatterPostAttributeChangeCallback(events[k].bypass, events[k].write);
        assert events[..k + 1][..k] == events[..k];
        AskedLast(old(lightMgr.Model()), AllAsked(events[..k]), events[k]);
      }
      assert events[..|events|] == events;
    }
  }
}
