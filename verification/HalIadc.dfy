/** HalIadc: converter channels sharing one converter and one set of analog-bus registers. */
module HalIadcObject {
  import opened Machine
  import opened AnalogBus

  /** How a pin is set up: cut off for analog use, or a digital mode with its output level. */
  datatype PinMode = Analog | Digital(mode: nat, high: bool)

  /** The GPIO block: the bus-allocation registers, one field per slot, and the pins' modes. */
  class Gpio {
    var modes: map<Channel, PinMode>
    var aEven0: Slot
    var aEven1: Slot
    var aOdd0: Slot
    var aOdd1: Slot
    var bEven0: Slot
    var bEven1: Slot
    var bOdd0: Slot
    var bOdd1: Slot
    var cdEven0: Slot
    var cdEven1: Slot
    var cdOdd0: Slot
    var cdOdd1: Slot

    function Model(): Bus
      reads this
    {
      Bus(Pair(aEven0, aEven1), Pair(aOdd0, aOdd1), Pair(bEven0, bEven1), Pair(bOdd0, bOdd1),
          Pair(cdEven0, cdEven1), Pair(cdOdd0, cdOdd1))
    }

    constructor ()
      ensures Model() == AllFree() && modes == map[]
    {
      modes := map[];
      aEven0, aEven1, aOdd0, aOdd1 := Tristate, Tristate, Tristate, Tristate;
      bEven0, bEven1, bOdd0, bOdd1 := Tristate, Tristate, Tristate, Tristate;
      cdEven0, cdEven1, cdOdd0, cdOdd1 := Tristate, Tristate, Tristate, Tristate;
    }
  }

  datatype Input = PinInput(channel: Channel) | Avdd

  /** IADC0 and the file's `s_iadc_global_initialized`. */
  class Converter {
    var clock: bool
    var initialized: bool
    var resets: nat
    /** What the next conversion samples, and what each conversion so far has sampled. */
    var selected: Input
    var sampled: seq<Input>

    constructor ()
      ensures !initialized && resets == 0 && sampled == []
    {
      clock, initialized, resets := false, false, 0;
      selected, sampled := Avdd, [];
    }
  }

  /** The poll at which a conversion of at most 100000 polls first shows a result. */
  ghost predicate FirstReady(fifoReady: nat -> bool, i: nat) {
    i < 100000 && fifoReady(i) && forall j: nat :: j < i ==> !fifoReady(j)
  }

  class HalIadc {
    const port: Port
    const pin: uint8
    const gpio: Gpio
    const adc: Converter

    function Own(): Channel {
      Channel(port, pin)
    }

    constructor (port: Port, pin: uint8, gpio: Gpio, adc: Converter)
      ensures Own() == Channel(port, pin) && this.gpio == gpio && this.adc == adc
    {
      this.port, this.pin, this.gpio, this.adc := port, pin, gpio, adc;
    }

    method AllocateAnalogBus()
      modifies gpio
      ensures gpio.modes == old(gpio.modes)
      ensures gpio.Model() == Allocated(old(gpio.Model()), Own())
    {
      if port == PortA {
        if pin % 2 == 0 {
          if gpio.aEven0 == Tristate {
            gpio.aEven0 := Adc0;
          } else if gpio.aEven1 == Tristate {
            gpio.aEven1 := Adc0;
          }
        } else {
          if gpio.aOdd0 == Tristate {
            gpio.aOdd0 := Adc0;
          } else if gpio.aOdd1 == Tristate {
            gpio.aOdd1 := Adc0;
          }
        }
      } else if port == PortB {
        if pin % 2 == 0 {
          if gpio.bEven0 == Tristate {
            gpio.bEven0 := Adc0;
          } else if gpio.bEven1 == Tristate {
            gpio.bEven1 := Adc0;
          }
        } else {
          if gpio.bOdd0 == Tristate {
            gpio.bOdd0 := Adc0;
          } else if gpio.bOdd1 == Tristate {
            gpio.bOdd1 := Adc0;
          }
        }
      } else if port == PortC || port == PortD {
        if pin % 2 == 0 {
          if gpio.cdEven0 == Tristate {
            gpio.cdEven0 := Adc0;
          } else if gpio.cdEven1 == Tristate {
            gpio.cdEven1 := Adc0;
          }
        } else {
          if gpio.cdOdd0 == Tristate {
            gpio.cdOdd0 := Adc0;
          } else if gpio.cdOdd1 == Tristate {
            gpio.cdOdd1 := Adc0;
          }
        }
      }
    }

    method FreeAnalogBus()
      modifies gpio
      ensures gpio.modes == old(gpio.modes)
      ensures gpio.Model() == Released(old(gpio.Model()), Own())
    {
      if port == PortA {
        if pin % 2 == 0 {
          gpio.aEven0 := Tristate;
          gpio.aEven1 := Tristate;
        } else {
          gpio.aOdd0 := Tristate;
          gpio.aOdd1 := Tristate;
        }
      } else if port == PortB {
        if pin % 2 == 0 {
          gpio.bEven0 := Tristate;
          gpio.bEven1 := Tristate;
        } else {
          gpio.bOdd0 := Tristate;
          gpio.bOdd1 := Tristate;
        }
      } else if port == PortC || port == PortD {
        if pin % 2 == 0 {
          gpio.cdEven0 := Tristate;
          gpio.cdEven1 := Tristate;
        } else {
          gpio.cdOdd0 := Tristate;
          gpio.cdOdd1 := Tristate;
        }
      }
    }

    /** The converter is reset by the first Init of any channel and by no later one. */
    method Init()
      modifies gpio, adc
      ensures gpio.Model() == AnalogBus.Next(old(gpio.Model()), AnalogBus.Init(Own()))
      ensures adc.clock && adc.initialized && adc.selected == PinInput(Own())
      ensures adc.resets == old(adc.resets) + if old(adc.initialized) then 0 else 1
      ensures adc.sampled == old(adc.sampled)
      ensures gpio.modes == old(gpio.modes)[Own() := Analog]
    {
      adc.clock := true;
      gpio.modes := gpio.modes[Own() := Analog];
      AllocateAnalogBus();
      if !adc.initialized {
        adc.resets := adc.resets + 1;
        adc.initialized := true;
      }
      adc.selected := PinInput(Own());
    }

    method DeInit(newMode: PinMode)
      modifies gpio
      ensures gpio.Model() == AnalogBus.Next(old(gpio.Model()), AnalogBus.DeInit(Own()))
      ensures gpio.modes == old(gpio.modes)[Own() := newMode]
    {
      FreeAnalogBus();
      gpio.modes := gpio.modes[Own() := newMode];
    }

    /** One conversion, given what the status register and the result register would show at each
        poll. It samples this channel's pin whatever was selected before, and gives up after
        100000 polls. */
    method ReadRawResult(fifoReady: nat -> bool, sample: nat -> int) returns (raw: int)
      modifies adc
      ensures adc.clock && adc.selected == PinInput(Own()) && adc.sampled == old(adc.sampled) + [PinInput(Own())]
      ensures adc.initialized == old(adc.initialized) && adc.resets == old(adc.resets)
      ensures raw == -1 <==> forall i: nat :: i < 100000 ==> !fifoReady(i)
      ensures raw != -1 ==> exists i: nat :: FirstReady(fifoReady, i)
      ensures forall i: nat :: FirstReady(fifoReady, i) ==> raw == if sample(i) < 0 then 0 else sample(i)
    {
      adc.clock := true;
      adc.selected := PinInput(Own());
      adc.sampled := adc.sampled + [adc.selected];
      var timeout: uint32 := 100000;
      var poll: nat := 0;
      while !fifoReady(poll)
        invariant poll + timeout == 100000 && timeout > 0
        invariant forall i: nat :: i < poll ==> !fifoReady(i)
        decreases timeout
      {
        timeout := timeout - 1;
        if timeout == 0 {
          return -1;
        }
        poll := poll + 1;
      }
      assert FirstReady(fifoReady, poll);
      var rawData := sample(poll);
      raw := if rawData < 0 then 0 else rawData;
    }

    method ReadVoltageMilliVolts(fifoReady: nat -> bool, sample: nat -> int) returns (mv: uint32)
      requires forall i: nat :: sample(i) <= 4095
      modifies adc
      ensures adc.sampled == old(adc.sampled) + [PinInput(Own())]
      ensures mv < VREF_MV
      ensures (forall i: nat :: i < 100000 ==> !fifoReady(i)) ==> mv == 0
      ensures forall i: nat :: FirstReady(fifoReady, i) ==> mv == Millivolts(sample(i))
    {
      var rawData := ReadRawResult(fifoReady, sample);
      mv := Millivolts(rawData);
      if rawData >= 0 {
        MillivoltsWithinOne(rawData, rawData);
      }
    }

    /** Meant to measure the supply. The supply is selected, but the conversion it calls selects
        this channel's own pin again, so that is what gets sampled. */
    method ReadChipAvddMilliVolts(fifoReady: nat -> bool, sample: nat -> int) returns (mv: uint32)
      modifies adc
      ensures adc.sampled == old(adc.sampled) + [PinInput(Own())]
      ensures adc.selected == PinInput(Own())
      ensures (forall i: nat :: i < 100000 ==> !fifoReady(i)) ==> mv == 0
      ensures forall i: nat :: FirstReady(fifoReady, i) ==> mv == SupplyMillivolts(sample(i))
    {
      adc.selected := Avdd;
      var rawData := ReadRawResult(fifoReady, sample);
      adc.selected := PinInput(Own());
      mv := SupplyMillivolts(rawData);
    }
  }

  /** Any sequence of Inits and DeInits on channels that share the registers. */
  method Perform(channels: seq<HalIadc>, gpio: Gpio, adc: Converter, ops: seq<Op>, newModes: seq<PinMode>)
    requires |newModes| == |ops|
    requires forall i :: 0 <= i < |channels| ==> channels[i].gpio == gpio && channels[i].adc == adc
    requires forall k :: 0 <= k < |ops| ==> exists i :: 0 <= i < |channels| && channels[i].Own() == ops[k].channel
    modifies gpio, adc
    ensures gpio.Model() == Run(old(gpio.Model()), ops)
    ensures adc.resets <= old(adc.resets) + 1
    ensures old(adc.initialized) ==> adc.resets == old(adc.resets)
  {
    for k := 0 to |ops|
      invariant gpio.Model() == Run(old(gpio.Model()), ops[..k])
      invariant adc.resets == old(adc.resets) + if adc.initialized && !old(adc.initialized) then 1 else 0
      invariant old(adc.initialized) ==> adc.initialized
    {
      var i :| 0 <= i < |channels| && channels[i].Own() == ops[k].channel;
      match ops[k] {
        case Init(_) => channels[i].Init();
        case DeInit(_) => channels[i].DeInit(newModes[k]);
      }
      assert ops[..k + 1][..k] == ops[..k];
    }
    assert ops[..|ops|] == ops;
  }
}
