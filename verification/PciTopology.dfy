/** A tree of PCI buses, and the memory cycle that searches it: who is asked, in which order, and what it decodes. */
module PciTopology {
  const TWO_32 := 0x1_0000_0000
  const TWO_64 := 0x1_0000_0000_0000_0000
  const ATT_BAR_SIZE := 0x1000

  /** A base address register as configured and the size the device decodes. */
  datatype Bar = Bar(raw: nat, size: nat)

  type U32 = n: nat | n < TWO_32

  /** An address window of the translation unit: 32-bit inside, 64-bit outside. */
  datatype Window = Window(enabled: bool, intBase: U32, intSize: U32, ext: nat)

  /** A window onto the sideband: sbAddress packs the endpoint, the two opcodes and the BAR of what it leads to. */
  datatype SidebandWindow = SidebandWindow(enabled: bool, base: U32, size: U32, sbAddress: nat)

  /** What finally answers a cycle: a device behind one of its BARs, a configuration cycle, a sideband endpoint. */
  datatype Target =
    | Register(id: nat, bar: nat, off: nat)
    | Config(id: nat, addr: nat)
    | Sideband(sbAddress: nat, off: nat)

  datatype Device =
    | Simple(id: nat, bars: seq<Bar>, memoryEnabled: bool, handler: bool)
    | Att(id: nat, own: seq<Bar>, memoryEnabled: bool, windows: seq<Window>, sideband: seq<SidebandWindow>,
          prim: seq<Device>)
    | Bridge(id: nat, gasket: seq<Device>)

  // ----- decoding -----

  /** The low four bits of a BAR are not address bits. */
  function BarBase(b: Bar): nat { b.raw - b.raw % 16 }

  /** The first BAR the search stops at: a simple function's search takes the byte just past the end for a hit. */
  function FindBar(bars: seq<Bar>, addr: nat, i: nat): (bar: nat)
    requires i <= |bars|
    ensures i <= bar <= |bars| && (bar < |bars| ==> BarBase(bars[bar]) <= addr)
    decreases |bars| - i
  {
    if i == |bars| || (BarBase(bars[i]) <= addr && addr - BarBase(bars[i]) <= bars[i].size) then i
      else FindBar(bars, addr, i + 1)
  }

  /** The translation unit's own two BARs: the end is not taken for a hit. */
  function FindOwnBar(own: seq<Bar>, addr: nat, i: nat): (bar: nat)
    requires i <= |own|
    ensures i <= bar <= |own| && (bar < |own| ==> BarBase(own[bar]) <= addr)
    decreases |own| - i
  {
    if i == |own| || (BarBase(own[i]) <= addr && addr - BarBase(own[i]) < ATT_BAR_SIZE) then i
      else FindOwnBar(own, addr, i + 1)
  }

  /** Enabled, and the address is between the base and the base plus the size, both included, in 32 bits. */
  predicate Covers(w: Window, address: nat) {
    w.enabled && w.intBase <= address <= (w.intBase + w.intSize) % TWO_32
  }

  function FindWindow(ws: seq<Window>, address: nat, i: nat): (win: nat)
    requires i <= |ws|
    ensures i <= win <= |ws| && (win < |ws| ==> Covers(ws[win], address))
    decreases |ws| - i
  {
    if i == |ws| || Covers(ws[i], address) then i else FindWindow(ws, address, i + 1)
  }

  function Translated(w: Window, address: nat): nat
    requires w.intBase <= address
  {
    (w.ext + (address - w.intBase)) % TWO_64
  }

  predicate SidebandCovers(w: SidebandWindow, address: nat) {
    w.enabled && w.base <= address <= (w.base + w.size) % TWO_32
  }

  function FindSideband(ws: seq<SidebandWindow>, address: nat, i: nat): (win: nat)
    requires i <= |ws|
    ensures i <= win <= |ws| && (win < |ws| ==> SidebandCovers(ws[win], address))
    decreases |ws| - i
  {
    if i == |ws| || SidebandCovers(ws[i], address) then i else FindSideband(ws, address, i + 1)
  }

  /** The bridge turns these 16 MB into configuration cycles, whatever the upper half of the address. */
  predicate InConfigWindow(addr: nat) { addr / 0x100_0000 % 0x100 == 0xF1 }

  // ----- one cycle -----

  /** The status the search returns, and the targets whose handlers were called on the way. */
  datatype Outcome = Outcome(status: int, called: seq<Target>)

  const DECLINED := Outcome(-1, [])

  /** Handlers answer with a security attribute, or below zero; -1 means that the cycle was not theirs. */
  type Answer = Target -> int

  function Call(t: Target, answer: Answer): Outcome { Outcome(answer(t), [t]) }

  predicate Claimed(status: int) { status >= 0 || status < -1 }

  /** What was called before, then this. */
  function After(called: seq<Target>, o: Outcome): Outcome { Outcome(o.status, called + o.called) }

  function SimpleCycle(d: Device, addr: nat, count: nat, answer: Answer): Outcome
    requires d.Simple?
  {
    var bar := FindBar(d.bars, addr, 0);
    if bar == |d.bars| then DECLINED
    else
      var off := addr - BarBase(d.bars[bar]);
      if off + count > d.bars[bar].size || !d.memoryEnabled || !d.handler then DECLINED
      else Call(Register(d.id, bar, off), answer)
  }

  /** Behind a window of the translation unit. */
  function PrimCycle(d: Device, address: nat, count: nat, answer: Answer): Outcome
    requires d.Att?
    decreases d, 0
  {
    var win := FindWindow(d.windows, address, 0);
    if win == |d.windows| then DECLINED
    else Cycles(d.prim, Translated(d.windows[win], address), count, 0, 14, answer)
  }

  function SidebandCycle(d: Device, address: nat, answer: Answer): Outcome
    requires d.Att?
  {
    var win := FindSideband(d.sideband, address, 0);
    if win == |d.sideband| then DECLINED
    else Call(Sideband(d.sideband[win].sbAddress, address - d.sideband[win].base), answer)
  }

  /** Its own registers, else a window, else the sideband: a refusal from behind a window does not end the cycle. */
  function AttCycle(d: Device, addr: nat, count: nat, answer: Answer): Outcome
    requires d.Att?
    decreases d, 1
  {
    var bar := FindOwnBar(d.own, addr, 0);
    if bar == |d.own| then
      var prim := PrimCycle(d, addr % TWO_32, count, answer);
      if prim.status >= 0 then prim else After(prim.called, SidebandCycle(d, addr % TWO_32, answer))
    else
      var off := addr - BarBase(d.own[bar]);
      if off + count > ATT_BAR_SIZE || !d.memoryEnabled then DECLINED
      else Call(Register(d.id, bar, off), answer)
  }

  function Cycle(d: Device, addr: nat, count: nat, lat: nat, answer: Answer): Outcome
    decreases d, 2
  {
    match d
    case Simple(_, _, _, _) => SimpleCycle(d, addr, count, answer)
    case Att(_, _, _, _, _, _) => AttCycle(d, addr, count, answer)
    case Bridge(id, gasket) =>
      if InConfigWindow(addr) then Call(Config(id, addr % 0x100_0000), answer)
      else Cycles(gasket, addr, count, 0, 16 - lat, answer)
  }

  /** One round: the devices of a bus in order, up to the first that claims the cycle. */
  function Round(ds: seq<Device>, addr: nat, count: nat, lat: nat, answer: Answer): Outcome
    decreases ds, 0
  {
    if ds == [] then DECLINED
    else
      var o := Cycle(ds[0], addr, count, lat, answer);
      if Claimed(o.status) then o else After(o.called, Round(ds[1..], addr, count, lat, answer))
  }

  /** Rounds of growing latency, until one claims the cycle or the latency limit is reached. */
  function Cycles(ds: seq<Device>, addr: nat, count: nat, lat: nat, maxLat: int, answer: Answer): Outcome
    decreases ds, 1, maxLat - lat
  {
    if lat >= maxLat then DECLINED
    else
      var o := Round(ds, addr, count, lat, answer);
      if Claimed(o.status) then o else After(o.called, Cycles(ds, addr, count, lat + 1, maxLat, answer))
  }
}
