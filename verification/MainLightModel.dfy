/** The main light as a state machine on values: the SM15135E driver of HalSpiSm15135e.cpp, the
    channels of BspLedWrgb.cpp and the suspend gate of BspPeripheralSleep.cpp. */
module MainLightModel {
  import opened Machine
  import opened Sm15135eFrame

  const NORMAL: uint8 := 0
  const SLEEP: uint8 := 2
  const RESERVE: uint8 := 0x1F
  const GAIN_70_8MA: uint8 := 0x06
  const GAIN_101_1MA: uint8 := 0x09
  const LED_MAX_VALUE := 1023

  // ---------------------------------------------------------------- driver

  /** What the driver keeps between calls, and every transmission so far. */
  datatype Driver = Driver(pixel: Pixel, oldStandby: uint8, wire: seq<seq<uint8>>)

  function ClearPixel(): Pixel {
    Pixel(0, 0, 0, 0, 0, 0, 0, 0, 0, 0, 0, 0)
  }

  function NewDriver(): Driver {
    Driver(ClearPixel(), 0xFF, [])
  }

  function WithDuty(p: Pixel, r: uint16, g: uint16, b: uint16, w: uint16, y: uint16): Pixel {
    p.(r := r, g := g, b := b, w := w, y := y,
       standby := if r == 0 && g == 0 && b == 0 && w == 0 && y == 0 then SLEEP else NORMAL,
       reserve := RESERVE)
  }

  function WithGain(p: Pixel, gain: uint8): Pixel {
    var code: uint8 := gain % 32;
    p.(gainR := code, gainG := code, gainB := code, gainW := code, gainY := code)
  }

  function AfterReset(d: Driver): Driver {
    d.(wire := d.wire + [ResetBytes()])
  }

  /** A frame goes out twice when the one before it put the chip to sleep and this one does not. */
  function FrameOf(d: Driver): seq<seq<uint8>> {
    if d.oldStandby == SLEEP && d.pixel.standby != SLEEP
    then [Encode(d.pixel), Encode(d.pixel)]
    else [Encode(d.pixel)]
  }

  function AfterFrame(d: Driver): Driver {
    d.(oldStandby := d.pixel.standby, wire := d.wire + FrameOf(d))
  }

  // ---------------------------------------------------------------- light

  /** A PWM output: stopped, or running at a level of 1023. */
  datatype Pwm = Pwm(running: bool, level: uint16)

  function PwmDuty(p: Pwm, duty: uint16): Pwm {
    if duty == 0 then p.(running := false)
    else Pwm(true, if duty >= LED_MAX_VALUE then LED_MAX_VALUE else duty)
  }

  datatype Light = Light(driver: Driver, white: Pwm, suspended: bool, indicator: Pwm, red: bool, adcClock: bool)

  /** 10 bits to the chip's 16: shifted left by 6, and full scale from 1023 on. */
  function Scale(v: uint16): uint16 {
    if v >= LED_MAX_VALUE then 0xFFFF else Word16(v * 64)
  }

  function Applied(l: Light, w: uint16, r: uint16, g: uint16, b: uint16): Light {
    var p := WithDuty(WithGain(l.driver.pixel, GAIN_70_8MA), Scale(b), Scale(g), Scale(r), 0, 0);
    l.(white := PwmDuty(l.white, w), driver := AfterFrame(l.driver.(pixel := p)))
  }

  function Restarted(d: Driver): Driver {
    var reset := AfterReset(d);
    reset.(pixel := WithGain(reset.pixel, GAIN_101_1MA))
  }

  function Resumed(l: Light): Light {
    if l.suspended then l.(driver := Restarted(l.driver), suspended := false, adcClock := true) else l
  }

  function Suspended(l: Light): Light {
    if l.suspended then l
    else
      var dark := Applied(l, 0, 0, 0, 0);
      dark.(suspended := true, indicator := PwmDuty(l.indicator, 0), red := false, adcClock := false)
  }

  datatype Op =
    | SetDuty(w: uint16, r: uint16, g: uint16, b: uint16)
    | Suspend
    | Resume
    | EnsureReady
    | MarkReady

  function Next(l: Light, op: Op): Light {
    match op
    case SetDuty(w, r, g, b) => Applied(Resumed(l), w, r, g, b)
    case Suspend => Suspended(l)
    case Resume => Resumed(l)
    case EnsureReady => Resumed(l)
    case MarkReady => l.(suspended := false)
  }

  function Run(l: Light, ops: seq<Op>): Light
    decreases |ops|
  {
    if ops == [] then l else Run(Next(l, ops[0]), ops[1..])
  }

  /** The light once BspLedWrgb has been initialised: outputs stopped, one reset sent. */
  function Boot(): Light {
    Light(Restarted(NewDriver()), Pwm(false, 0), false, Pwm(false, 0), false, true)
  }
}
