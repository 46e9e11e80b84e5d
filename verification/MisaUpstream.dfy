/** The host bridge's upstream accesses: the two ways to a configuration cycle, and everything else. */
module MisaUpstream {
  import opened Bytes

  const ECBASE_MASK: bv32 := 0xF000_0000
  const ECEN: bv32 := 1
  const CF8EN: bv32 := 0x8000_0000

  /** What goes out on the primary bus. */
  datatype Cycle =
    | ConfigWrite(addr: bv32, data: seq<byte>) | ConfigRead(addr: bv32, count: nat)
    | IoWrite(addr: bv32, data: seq<byte>) | IoRead(addr: bv32, count: nat)
    | MemoryWrite(addr: bv32, data: seq<byte>) | MemoryRead(addr: bv32, count: nat)

  function PackAddr(bus: bv32, dev: bv32, fn: bv32, reg: bv32): bv32 { (((bus << 8) | (dev << 3) | fn) << 12) | reg }

  function LatchBus(v: bv32): bv32 { (v >> 16) & 0xFF }
  function LatchDev(v: bv32): bv32 { (v >> 11) & 0x1F }
  function LatchFunc(v: bv32): bv32 { (v >> 8) & 0x7 }
  function LatchReg(v: bv32): bv32 { v & 0xFC }

  /** The configuration address in the latch. */
  function LatchedAddr(v: bv32): bv32 { PackAddr(LatchBus(v), LatchDev(v), LatchFunc(v), LatchReg(v)) }

  /** The enhanced configuration window is on and the address is in it. */
  predicate InEcam(hec: bv32, addr: bv32) { hec & ECEN != 0 && addr & ECBASE_MASK == hec & ECBASE_MASK }

  function Front(data: seq<byte>, n: nat): (r: seq<byte>)
    ensures |r| <= n && (|data| <= n ==> r == data)
  {
    if |data| <= n then data else data[..n]
  }

  function WriteCycles(hec: bv32, latch: seq<byte>, addr: bv32, data: seq<byte>): seq<Cycle>
    requires |latch| == 4
  {
    if InEcam(hec, addr) then [ConfigWrite(addr & !ECBASE_MASK, data)]
    else if addr == 0xCF8 then []
    else if addr == 0xCFC then
      if LoadWord(latch) & CF8EN == 0 then [] else [ConfigWrite(LatchedAddr(LoadWord(latch)), Front(data, 8))]
    else if addr <= 0xFFFF then [IoWrite(addr, data)]
    else [MemoryWrite(addr, data)]
  }

  function LatchAfter(hec: bv32, latch: seq<byte>, addr: bv32, data: seq<byte>): (r: seq<byte>)
    requires |latch| == 4
    ensures |r| == 4
  {
    if !InEcam(hec, addr) && addr == 0xCF8 then Overwrite(latch, 0, Front(data, 4)) else latch
  }

  function ReadCycles(hec: bv32, latch: seq<byte>, addr: bv32, count: nat): seq<Cycle>
    requires |latch| == 4
  {
    if InEcam(hec, addr) then [ConfigRead(addr & !ECBASE_MASK, count)]
    else if addr == 0xCF8 then []
    else if addr == 0xCFC then
      if LoadWord(latch) & CF8EN == 0 then []
      else [ConfigRead(LatchedAddr(LoadWord(latch)), if count > 8 then 8 else count)]
    else if addr <= 0xFFFF then [IoRead(addr, count)]
    else [MemoryRead(addr, count)]
  }

  class Aunit {
    var hec: bv32
    const acf8: array<byte>
    /** The cycles issued on the primary bus so far. */
    var issued: seq<Cycle>

    constructor (hec: bv32)
      ensures this.hec == hec && issued == [] && acf8.Length == 4 && fresh(acf8) && acf8[..] == [0, 0, 0, 0]
    {
      this.hec, issued := hec, [];
      acf8 := new byte[4](_ => 0);
    }

    method UpstreamWrite(addr: bv32, buffer: seq<byte>)
      requires acf8.Length == 4
      modifies this, acf8
      ensures hec == old(hec)
      ensures issued == old(issued) + WriteCycles(hec, old(acf8[..]), addr, buffer)
      ensures acf8[..] == LatchAfter(hec, old(acf8[..]), addr, buffer)
    {
      hide LoadWord, LatchedAddr, InEcam;
      if InEcam(hec, addr) {
        issued := issued + [ConfigWrite(addr & !ECBASE_MASK, buffer)];
      } else if addr == 0xCF8 {
        var size := |buffer|;
        if size > 4 {
          size := 4;
        }
        assert buffer[..size] == Front(buffer, 4);
        Memcpy(acf8, 0, buffer[..size]);
      } else if addr == 0xCFC {
        if LoadWord(acf8[..]) & CF8EN == 0 {
          return;
        }
        var size := |buffer|;
        if size > 8 {
          size := 8;
        }
        assert buffer[..size] == Front(buffer, 8);
        issued := issued + [ConfigWrite(LatchedAddr(LoadWord(acf8[..])), buffer[..size])];
      } else if addr <= 0xFFFF {
        issued := issued + [IoWrite(addr, buffer)];
      } else {
        issued := issued + [MemoryWrite(addr, buffer)];
      }
    }

    /** Reading the latch gives its bytes; anything else is answered by the bus. */
    method UpstreamRead(addr: bv32, size: nat) returns (latch: seq<byte>)
      requires acf8.Length == 4
      modifies `issued
      ensures issued == old(issued) + ReadCycles(hec, acf8[..], addr, size)
      ensures latch == if !InEcam(hec, addr) && addr == 0xCF8 then Front(acf8[..], size) else []
    {
      hide LoadWord, LatchedAddr, InEcam;
      latch := [];
      if InEcam(hec, addr) {
        issued := issued + [ConfigRead(addr & !ECBASE_MASK, size)];
      } else if addr == 0xCF8 {
        latch := if size > 4 then acf8[..4] else acf8[..size];
      } else if addr == 0xCFC {
        if LoadWord(acf8[..]) & CF8EN == 0 {
          return;
        }
        issued := issued + [ConfigRead(LatchedAddr(LoadWord(acf8[..])), if size > 8 then 8 else size)];
      } else if addr <= 0xFFFF {
        issued := issued + [IoRead(addr, size)];
      } else {
        issued := issued + [MemoryRead(addr, size)];
      }
    }
  }

  // ----- the two ways are one -----

  /** The latch value for a bus, device, function and register, with the enable bit. */
  function LatchValue(bus: bv32, dev: bv32, fn: bv32, reg: bv32): bv32 {
    CF8EN | (bus << 16) | (dev << 11) | (fn << 8) | reg
  }

  /** The address in the enhanced window. */
  function EcamAddr(hec: bv32, bus: bv32, dev: bv32, fn: bv32, reg: bv32): bv32 {
    (hec & ECBASE_MASK) | PackAddr(bus, dev, fn, reg)
  }

  predicate Fields(bus: bv32, dev: bv32, fn: bv32, reg: bv32) {
    bus <= 0xFF && dev <= 0x1F && fn <= 0x7 && reg & !0xFC == 0
  }

  lemma LatchRoundTrip(bus: bv32, dev: bv32, fn: bv32, reg: bv32)
    requires Fields(bus, dev, fn, reg)
    ensures var v := LatchValue(bus, dev, fn, reg);
      LatchBus(v) == bus && LatchDev(v) == dev && LatchFunc(v) == fn && LatchReg(v) == reg && v & CF8EN != 0
  {
  }

  /** The window is on at address 0, where it takes the ports away. */
  predicate PortsShadowed(hec: bv32) { hec & ECEN != 0 && hec & ECBASE_MASK == 0 }

  /** A 32-bit write to port CF8, then data to port CFC. */
  function PortWrite(hec: bv32, latch: seq<byte>, v: bv32, data: seq<byte>): seq<Cycle>
    requires |latch| == 4
  {
    WriteCycles(hec, latch, 0xCF8, StoreWord(v))
      + WriteCycles(hec, LatchAfter(hec, latch, 0xCF8, StoreWord(v)), 0xCFC, data)
  }

  function PortRead(hec: bv32, latch: seq<byte>, v: bv32, count: nat): seq<Cycle>
    requires |latch| == 4
  {
    WriteCycles(hec, latch, 0xCF8, StoreWord(v))
      + ReadCycles(hec, LatchAfter(hec, latch, 0xCF8, StoreWord(v)), 0xCFC, count)
  }

  lemma PortsInWindow(hec: bv32)
    ensures InEcam(hec, 0xCF8) <==> PortsShadowed(hec)
    ensures InEcam(hec, 0xCFC) <==> PortsShadowed(hec)
  {
    assert 0xCF8 & ECBASE_MASK == 0 && 0xCFC & ECBASE_MASK == 0;
  }

  /** Port CF8 sets the latch and port CFC uses it, unless the window has taken them; then each issues a cycle. */
  lemma PortsStepByStep(hec: bv32, latch: seq<byte>, v: bv32, data: seq<byte>, count: nat)
    requires |latch| == 4 && v & CF8EN != 0
    ensures !PortsShadowed(hec) ==>
      && WriteCycles(hec, latch, 0xCF8, StoreWord(v)) == []
      && LatchAfter(hec, latch, 0xCF8, StoreWord(v)) == StoreWord(v)
      && WriteCycles(hec, StoreWord(v), 0xCFC, data) == [ConfigWrite(LatchedAddr(v), Front(data, 8))]
      && ReadCycles(hec, StoreWord(v), 0xCFC, count) == [ConfigRead(LatchedAddr(v), if count > 8 then 8 else count)]
    ensures PortsShadowed(hec) ==>
      && |WriteCycles(hec, latch, 0xCF8, StoreWord(v))| == 1 && LatchAfter(hec, latch, 0xCF8, StoreWord(v)) == latch
      && |WriteCycles(hec, latch, 0xCFC, data)| == 1 && |ReadCycles(hec, latch, 0xCFC, count)| == 1
  {
    PortsInWindow(hec);
    LoadStoreWord(v);
    hide LoadWord, StoreWord, InEcam, LatchedAddr, PortsShadowed;
    assert Overwrite(latch, 0, StoreWord(v)) == StoreWord(v);
  }

  lemma LatchedFields(bus: bv32, dev: bv32, fn: bv32, reg: bv32)
    requires Fields(bus, dev, fn, reg)
    ensures var v := LatchValue(bus, dev, fn, reg); v & CF8EN != 0 && LatchedAddr(v) == PackAddr(bus, dev, fn, reg)
  {
    hide LatchBus, LatchDev, LatchFunc, LatchReg, LatchValue, PackAddr, Fields;
    LatchRoundTrip(bus, dev, fn, reg);
  }

  /** The ports issue the configuration cycle for the latched fields, exactly when the window leaves them alone. */
  lemma PortsIssueConfig(hec: bv32, latch: seq<byte>, bus: bv32, dev: bv32, fn: bv32, reg: bv32, data: seq<byte>,
                         count: nat)
    requires |latch| == 4 && Fields(bus, dev, fn, reg)
    ensures var v, addr := LatchValue(bus, dev, fn, reg), PackAddr(bus, dev, fn, reg);
      && (PortWrite(hec, latch, v, data) == [ConfigWrite(addr, Front(data, 8))] <==> !PortsShadowed(hec))
      && (PortRead(hec, latch, v, count) == [ConfigRead(addr, if count > 8 then 8 else count)] <==> !PortsShadowed(hec))
  {
    hide LatchValue, PackAddr, Fields, PortsShadowed, WriteCycles, ReadCycles, LatchAfter, Front, StoreWord,
         LatchedAddr;
    LatchedFields(bus, dev, fn, reg);
    PortsStepByStep(hec, latch, LatchValue(bus, dev, fn, reg), data, count);
  }

  /**
   A CF8 write followed by a CFC access issues the same cycle as the access through the enhanced window, for every
   bus, device, function and register and up to 8 bytes, exactly when the window is not at address 0.
   */
  lemma PortsEqualEcam(hec: bv32, latch: seq<byte>, bus: bv32, dev: bv32, fn: bv32, reg: bv32, data: seq<byte>,
                       count: nat)
    requires |latch| == 4 && Fields(bus, dev, fn, reg) && hec & ECEN != 0 && |data| <= 8 && count <= 8
    ensures var v, addr := LatchValue(bus, dev, fn, reg), EcamAddr(hec, bus, dev, fn, reg);
      && (PortWrite(hec, latch, v, data) == WriteCycles(hec, latch, addr, data) <==> hec & ECBASE_MASK != 0)
      && (PortRead(hec, latch, v, count) == ReadCycles(hec, latch, addr, count) <==> hec & ECBASE_MASK != 0)
  {
    PortsIssueConfig(hec, latch, bus, dev, fn, reg, data, count);
    hide PortWrite, PortRead, LatchValue, EcamAddr, PackAddr, Fields;
  }

  /** An address of the enhanced window is within reach of the ports iff its register is below 256 and aligned. */
  lemma PortsReach(addr: bv32)
    ensures (exists v :: v & CF8EN != 0 && LatchedAddr(v) == addr & !ECBASE_MASK) <==> addr & 0xF03 == 0
  {
    if addr & 0xF03 == 0 {
      PortWitness(addr);
    } else {
      forall v | LatchedAddr(v) == addr & !ECBASE_MASK
        ensures false
      {
        LatchedBits(v, addr);
      }
    }
  }

  lemma PortWitness(addr: bv32)
    requires addr & 0xF03 == 0
    ensures var v := CF8EN | ((addr & 0x0FFF_F000) >> 4) | (addr & 0xFC);
            v & CF8EN != 0 && LatchedAddr(v) == addr & !ECBASE_MASK
  {
  }

  lemma LatchedBits(v: bv32, addr: bv32)
    requires LatchedAddr(v) == addr & !ECBASE_MASK
    ensures addr & 0xF03 == 0
  {
  }

  /** The window switched on at address 0: a port access to any register issues other cycles than the window's. */
  lemma PortsTakenAway(latch: seq<byte>, bus: bv32, dev: bv32, fn: bv32, reg: bv32, data: seq<byte>)
    requires |latch| == 4 && Fields(bus, dev, fn, reg) && |data| <= 8
    ensures PortWrite(ECEN, latch, LatchValue(bus, dev, fn, reg), data)
      != WriteCycles(ECEN, latch, EcamAddr(ECEN, bus, dev, fn, reg), data)
  {
    hide PortWrite, WriteCycles, LatchValue, EcamAddr, Fields;
    PortsEqualEcam(ECEN, latch, bus, dev, fn, reg, data, 0);
  }

  // ----- every other address -----

  /** The window is on and the address has its top four bits. */
  predicate InWindow(hec: bv32, addr: bv32) { hec & 1 == 1 && addr >> 28 == hec >> 28 }

  lemma WindowByTopBits(hec: bv32, addr: bv32)
    ensures InEcam(hec, addr) <==> InWindow(hec, addr)
  {
  }

  /** In the window a configuration cycle for the low twenty-eight bits; elsewhere I/O below 64 KB and memory above. */
  lemma CyclesByAddress(hec: bv32, latch: seq<byte>, addr: bv32, data: seq<byte>, count: nat)
    requires |latch| == 4
    ensures InWindow(hec, addr) ==>
      && WriteCycles(hec, latch, addr, data) == [ConfigWrite(addr & 0x0FFF_FFFF, data)]
      && ReadCycles(hec, latch, addr, count) == [ConfigRead(addr & 0x0FFF_FFFF, count)]
    ensures !InWindow(hec, addr) && addr >> 16 == 0 && addr != 0xCF8 && addr != 0xCFC ==>
      && WriteCycles(hec, latch, addr, data) == [IoWrite(addr, data)]
      && ReadCycles(hec, latch, addr, count) == [IoRead(addr, count)]
    ensures !InWindow(hec, addr) && addr >> 16 != 0 ==>
      && WriteCycles(hec, latch, addr, data) == [MemoryWrite(addr, data)]
      && ReadCycles(hec, latch, addr, count) == [MemoryRead(addr, count)]
  {
    WindowByTopBits(hec, addr);
    LowSixteen(addr);
    hide InEcam, InWindow, LoadWord, LatchedAddr;
  }

  lemma LowSixteen(addr: bv32)
    ensures addr >> 16 == 0 <==> addr <= 0xFFFF
    ensures addr & !ECBASE_MASK == addr & 0x0FFF_FFFF
    ensures addr >> 16 != 0 ==> addr != 0xCF8 && addr != 0xCFC
  {
  }

  /** Writes of any size to port CF8 replace as many bytes of the latch as there are, at most four. */
  lemma LatchBytes(hec: bv32, latch: seq<byte>, data: seq<byte>, i: nat)
    requires |latch| == 4 && !InWindow(hec, 0xCF8) && i < 4
    ensures LatchAfter(hec, latch, 0xCF8, data)[i] == if i < |data| then data[i] else latch[i]
    ensures WriteCycles(hec, latch, 0xCF8, data) == []
  {
    WindowByTopBits(hec, 0xCF8);
    hide InEcam, InWindow, LoadWord, LatchedAddr;
  }

  /** The latch changes on no other write. */
  lemma LatchKept(hec: bv32, latch: seq<byte>, addr: bv32, data: seq<byte>)
    requires |latch| == 4 && (addr != 0xCF8 || InWindow(hec, addr))
    ensures LatchAfter(hec, latch, addr, data) == latch
  {
    WindowByTopBits(hec, addr);
    hide InEcam, InWindow;
  }

  /** While the latch's top bit is clear port CFC issues nothing. */
  lemma LatchDisabled(hec: bv32, latch: seq<byte>, data: seq<byte>, count: nat)
    requires |latch| == 4 && LoadWord(latch) & 0x8000_0000 == 0 && !InWindow(hec, 0xCFC)
    ensures WriteCycles(hec, latch, 0xCFC, data) == [] && ReadCycles(hec, latch, 0xCFC, count) == []
  {
    WindowByTopBits(hec, 0xCFC);
    hide InEcam, InWindow, LoadWord, LatchedAddr;
  }

  /** Where the fields stand in a configuration address. */
  lemma PackedFields(bus: bv32, dev: bv32, fn: bv32, reg: bv32)
    requires Fields(bus, dev, fn, reg)
    ensures var a := PackAddr(bus, dev, fn, reg);
      (a >> 20) & 0xFF == bus && (a >> 15) & 0x1F == dev && (a >> 12) & 0x7 == fn && a & 0xFFF == reg && a >> 28 == 0
  {
  }

  /** Where they stand in the latch, below its enable bit. */
  lemma LatchFields(v: bv32)
    ensures LatchBus(v) == (v >> 16) & 0xFF && LatchReg(v) == v & 0xFC
    ensures (LatchDev(v) << 3) | LatchFunc(v) == (v >> 8) & 0xFF
  {
  }
}
