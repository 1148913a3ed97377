/** The analog-bus allocation of HalIadc.cpp on values. The even and the odd pins of port A, of
    port B and of ports C and D together share two bus slots each; a converter channel takes the
    first slot that is free and gives both back. */
module AnalogBus {
  import opened Machine

  datatype Port = PortA | PortB | PortC | PortD | OtherPort

  datatype Group = AEven | AOdd | BEven | BOdd | CdEven | CdOdd

  /** A slot is free, routed to the converter, or held by another peripheral. */
  datatype Slot = Tristate | Adc0 | Foreign

  datatype Pair = Pair(s0: Slot, s1: Slot)

  datatype Bus = Bus(aEven: Pair, aOdd: Pair, bEven: Pair, bOdd: Pair, cdEven: Pair, cdOdd: Pair)

  const Free := Pair(Tristate, Tristate)

  function AllFree(): Bus {
    Bus(Free, Free, Free, Free, Free, Free)
  }

  datatype Channel = Channel(port: Port, pin: uint8)

  function GroupOf(c: Channel): Option<Group> {
    match c.port
    case PortA => Some(if c.pin % 2 == 0 then AEven else AOdd)
    case PortB => Some(if c.pin % 2 == 0 then BEven else BOdd)
    case PortC => Some(if c.pin % 2 == 0 then CdEven else CdOdd)
    case PortD => Some(if c.pin % 2 == 0 then CdEven else CdOdd)
    case OtherPort => None
  }

  function At(bus: Bus, g: Group): Pair {
    match g
    case AEven => bus.aEven
    case AOdd => bus.aOdd
    case BEven => bus.bEven
    case BOdd => bus.bOdd
    case CdEven => bus.cdEven
    case CdOdd => bus.cdOdd
  }

  function With(bus: Bus, g: Group, p: Pair): Bus {
    match g
    case AEven => bus.(aEven := p)
    case AOdd => bus.(aOdd := p)
    case BEven => bus.(bEven := p)
    case BOdd => bus.(bOdd := p)
    case CdEven => bus.(cdEven := p)
    case CdOdd => bus.(cdOdd := p)
  }

  function Taken(p: Pair): Pair {
    if p.s0 == Tristate then p.(s0 := Adc0)
    else if p.s1 == Tristate then p.(s1 := Adc0)
    else p
  }

  function Allocated(bus: Bus, c: Channel): Bus {
    match GroupOf(c)
    case None => bus
    case Some(g) => With(bus, g, Taken(At(bus, g)))
  }

  function Released(bus: Bus, c: Channel): Bus {
    match GroupOf(c)
    case None => bus
    case Some(g) => With(bus, g, Free)
  }

  datatype Op = Init(channel: Channel) | DeInit(channel: Channel)

  function Next(bus: Bus, op: Op): Bus {
    match op
    case Init(c) => Allocated(bus, c)
    case DeInit(c) => Released(bus, c)
  }

  function Run(bus: Bus, ops: seq<Op>): Bus
    decreases |ops|
  {
    if ops == [] then bus else Next(Run(bus, ops[..|ops| - 1]), ops[|ops| - 1])
  }

  predicate Connected(bus: Bus, c: Channel) {
    match GroupOf(c)
    case None => false
    case Some(g) => At(bus, g).s0 == Adc0 || At(bus, g).s1 == Adc0
  }

  // ---------------------------------------------------------------- what a run leaves in a group

  /** The even or odd pins of one port, or of C and D together, share the group. */
  predicate OnGroup(c: Channel, g: Group) {
    match g
    case AEven => c.port == PortA && c.pin % 2 == 0
    case AOdd => c.port == PortA && c.pin % 2 == 1
    case BEven => c.port == PortB && c.pin % 2 == 0
    case BOdd => c.port == PortB && c.pin % 2 == 1
    case CdEven => (c.port == PortC || c.port == PortD) && c.pin % 2 == 0
    case CdOdd => (c.port == PortC || c.port == PortD) && c.pin % 2 == 1
  }

  predicate Concerns(op: Op, g: Group) {
    OnGroup(op.channel, g)
  }

  /** How often the group was taken since it was last given back, and whether it ever was. */
  function TakenSinceFreed(ops: seq<Op>, g: Group): nat
    decreases |ops|
  {
    if ops == [] then 0
    else
      var n := |ops| - 1;
      if !Concerns(ops[n], g) then TakenSinceFreed(ops[..n], g)
      else if ops[n].DeInit? then 0
      else TakenSinceFreed(ops[..n], g) + 1
  }

  /** The last operation on the group, if there was one. */
  function LastOn(ops: seq<Op>, g: Group): Option<Op>
    decreases |ops|
  {
    if ops == [] then None
    else
      var n := |ops| - 1;
      if Concerns(ops[n], g) then Some(ops[n]) else LastOn(ops[..n], g)
  }

  function Held(k: nat): Pair {
    Pair(if k >= 1 then Adc0 else Tristate, if k >= 2 then Adc0 else Tristate)
  }

  /** From a free bus, a group's slots depend on nothing but the operations on that group: the
      first slot goes with the first Init since the last DeInit, the second with the next. */
  lemma {:induction false} SlotsOfGroup(ops: seq<Op>, g: Group)
    ensures At(Run(AllFree(), ops), g) == Held(TakenSinceFreed(ops, g))
    decreases |ops|
  {
    if ops != [] {
      SlotsOfGroup(ops[..|ops| - 1], g);
    }
  }

  /** The same, register field by register field. */
  lemma SlotFields(ops: seq<Op>)
    ensures var bus := Run(AllFree(), ops);
            && bus.aEven == Held(TakenSinceFreed(ops, AEven)) && bus.aOdd == Held(TakenSinceFreed(ops, AOdd))
            && bus.bEven == Held(TakenSinceFreed(ops, BEven)) && bus.bOdd == Held(TakenSinceFreed(ops, BOdd))
            && bus.cdEven == Held(TakenSinceFreed(ops, CdEven)) && bus.cdOdd == Held(TakenSinceFreed(ops, CdOdd))
  {
    SlotsOfGroup(ops, AEven);
    SlotsOfGroup(ops, AOdd);
    SlotsOfGroup(ops, BEven);
    SlotsOfGroup(ops, BOdd);
    SlotsOfGroup(ops, CdEven);
    SlotsOfGroup(ops, CdOdd);
  }

  lemma {:induction false} TakenExactlyIfInitLast(ops: seq<Op>, g: Group)
    ensures TakenSinceFreed(ops, g) > 0 <==> LastOn(ops, g).Some? && LastOn(ops, g).value.Init?
    decreases |ops|
  {
    if ops != [] {
      TakenExactlyIfInitLast(ops[..|ops| - 1], g);
    }
  }

  /** A channel is connected exactly when the last operation on its group was an Init; a DeInit
      undoes any number of Inits before it. */
  lemma ConnectedExactlyIfInitLast(ops: seq<Op>, c: Channel, g: Group)
    requires GroupOf(c) == Some(g)
    ensures Connected(Run(AllFree(), ops), c) <==> LastOn(ops, g).Some? && LastOn(ops, g).value.Init?
  {
    SlotsOfGroup(ops, g);
    TakenExactlyIfInitLast(ops, g);
  }

  // ---------------------------------------------------------------- who disturbs whom

  /** Initialising and releasing another channel leaves this one alone exactly when the two do
      not share a bus group. */
  lemma DisturbedExactlyIfShared(bus: Bus, mine: Channel, other: Channel)
    requires Connected(bus, mine)
    ensures Connected(Run(bus, [Init(other), DeInit(other)]), mine) <==> GroupOf(other) != GroupOf(mine)
  {
    var ops := [Init(other), DeInit(other)];
    assert ops[..1] == [Init(other)] && [Init(other)][..0] == [];
    assert Run(bus, [Init(other)]) == Next(Run(bus, []), Init(other));
    assert Run(bus, ops) == Next(Run(bus, ops[..1]), ops[1]);
  }

  /** From any registers, an Init finds a slot exactly unless other peripherals hold both, and a
      DeInit restores what an Init changed exactly when the group was free before it. */
  lemma InitAndDeInitExactly(bus: Bus, c: Channel, g: Group)
    requires GroupOf(c) == Some(g)
    ensures Connected(Allocated(bus, c), c) <==> At(bus, g) != Pair(Foreign, Foreign)
    ensures Released(Allocated(bus, c), c) == bus <==> At(bus, g) == Free
  {
  }

  // ---------------------------------------------------------------- the board

  const Battery := Channel(PortC, 4)
  const Ntc := Channel(PortC, 5)
  const Usb := Channel(PortA, 8)

  predicate OnBoard(c: Channel) {
    c == Battery || c == Ntc || c == Usb
  }

  /** The last operation of this very channel. */
  function LastOf(ops: seq<Op>, c: Channel): Option<Op>
    decreases |ops|
  {
    if ops == [] then None
    else
      var n := |ops| - 1;
      if ops[n].channel == c then Some(ops[n]) else LastOf(ops[..n], c)
  }

  lemma {:induction false} OwnOperationsDecide(ops: seq<Op>, c: Channel, g: Group)
    requires OnBoard(c) && GroupOf(c) == Some(g)
    requires forall i :: 0 <= i < |ops| ==> OnBoard(ops[i].channel)
    ensures LastOn(ops, g) == LastOf(ops, c)
    decreases |ops|
  {
    if ops != [] {
      OwnOperationsDecide(ops[..|ops| - 1], c, g);
    }
  }

  /** However the board's three channels are initialised and released, each is connected exactly
      when its own last operation was an Init. */
  lemma BoardChannelsIndependent(ops: seq<Op>, c: Channel)
    requires OnBoard(c) && forall i :: 0 <= i < |ops| ==> OnBoard(ops[i].channel)
    ensures Connected(Run(AllFree(), ops), c) <==> LastOf(ops, c).Some? && LastOf(ops, c).value.Init?
  {
    var g := GroupOf(c).value;
    OwnOperationsDecide(ops, c, g);
    ConnectedExactlyIfInitLast(ops, c, g);
  }

  // ---------------------------------------------------------------- millivolts

  const VREF_MV := 3300

  /** `(uint32_t)raw * m_vRefMv >> 12`, or 0 after a failed conversion. */
  function Millivolts(raw: int): (mv: uint32) {
    if raw < 0 then 0 else Word32(Word32(raw) * VREF_MV) / 4096
  }

  /** `(uint32_t)raw * m_vRefMv >> 10`: four times as much, for the divided supply. */
  function SupplyMillivolts(raw: int): (mv: uint32) {
    if raw < 0 then 0 else Word32(Word32(raw) * VREF_MV) / 1024
  }

  lemma NoWrap(raw: int)
    requires 0 <= raw <= 4095
    ensures Millivolts(raw) == raw * 3300 / 4096
  {
    SmallWord(raw);
    SmallWord(raw * 3300);
  }

  /** For a 12-bit sample the shift is at most 1 mV below the division by 4095 it replaces, stays
      under the reference and keeps order. */
  lemma MillivoltsWithinOne(raw: int, higher: int)
    requires 0 <= raw <= higher <= 4095
    ensures Millivolts(raw) <= raw * 3300 / 4095 <= Millivolts(raw) + 1
    ensures Millivolts(raw) <= Millivolts(higher) < 3300
  {
    NoWrap(raw);
    NoWrap(higher);
  }

  lemma QuarterTwice(x: nat)
    ensures x / 1024 / 4 == x / 4096
  {
  }

  /** The supply scaling is the same to two bits more. */
  lemma SupplyIsFourTimes(raw: int)
    requires raw <= 4095
    ensures SupplyMillivolts(raw) / 4 == Millivolts(raw) && (raw < 0 ==> SupplyMillivolts(raw) == 0)
    ensures raw >= 0 ==> SupplyMillivolts(raw) == raw * 3300 / 1024
  {
    if raw >= 0 {
      SmallWord(raw);
      SmallWord(raw * 3300);
      QuarterTwice(raw * 3300);
    }
  }

  /** After the board's three Inits the battery holds the first slot of the even C and D pins, the
      NTC that of the odd ones, and USB that of the even A pins, and nothing else is taken. */
  lemma BoardSlots()
    ensures Run(AllFree(), [Init(Battery), Init(Ntc), Init(Usb)])
         == AllFree().(cdEven := Pair(Adc0, Tristate), cdOdd := Pair(Adc0, Tristate), aEven := Pair(Adc0, Tristate))
  {
    var three := [Init(Battery), Init(Ntc), Init(Usb)];
    assert three[..2] == [Init(Battery), Init(Ntc)] && three[..2][..1] == [Init(Battery)];
    assert three[..2][..1][..0] == [];
    assert Run(AllFree(), three) == Next(Run(AllFree(), three[..2]), three[2]);
    assert Run(AllFree(), three[..2]) == Next(Run(AllFree(), three[..2][..1]), three[1]);
    assert Run(AllFree(), three[..2][..1]) == Next(Run(AllFree(), []), three[0]);
  }
}
