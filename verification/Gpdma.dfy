/** The DMA engine in front of the hash engine. */
module Gpdma {
  import opened Bytes
  import opened HashRegs
  import opened HashEngine
  import opened GpdmaRegs

  /** The bus as the DMA engine sees it: a byte-addressed memory. */
  class Bus {
    var mem: Memory

    constructor (mem: Memory)
      ensures this.mem == mem
    {
      this.mem := mem;
    }

    method Read(addr: nat, n: nat) returns (data: seq<byte>)
      ensures data == BusRead(mem, addr, n)
    {
      data := BusRead(mem, addr, n);
    }

    method Write(addr: nat, data: seq<byte>)
      modifies this
      ensures mem == BusWrite(old(mem), addr, data)
    {
      mem := BusWrite(mem, addr, data);
    }
  }

  class Gpdma {
    var regs: Dma
    const bounce: array<byte>
    const bus: Bus
    const impl: HashEngine

    ghost predicate Valid()
      reads this, impl
    {
      && bounce.Length == 64 && impl.Valid()
      && bounce != impl.key && bounce != impl.buffer && bounce != impl.state && bounce != impl.temp
    }

    ghost function View(): Machine
      requires Valid()
      reads this, bounce, bus, impl, impl.key, impl.buffer, impl.state, impl.temp
    {
      Machine(regs, bounce[..], bus.mem, impl.View())
    }

    constructor (bus: Bus, impl: HashEngine)
      requires impl.Valid()
      ensures Valid() && this.bus == bus && this.impl == impl && fresh(bounce)
      ensures regs == Dma(0, 0, 0, 0, 0, 0)
    {
      regs := Dma(0, 0, 0, 0, 0, 0);
      bounce := new byte[64](_ => 0);
      this.bus := bus;
      this.impl := impl;
    }

    method Turn(pos: nat, n: nat)
      requires Valid() && n <= TURN
      modifies bounce, bus, impl`count, impl`stateptr, impl.buffer, impl.state
      ensures Valid() && View() == Deliver(Fetch(old(View()), pos, n), pos, n)
    {
      hide FeedRegs, BusRead, BusWrite;
      if regs.srcAddr != 0 {
        var data := bus.Read(regs.srcAddr + pos, n);
        Memcpy(bounce, 0, data);
      }
      if regs.dstAddr != 0 {
        bus.Write(regs.dstAddr + pos, bounce[..n]);
      } else {
        impl.DmaWrite(bounce[..n]);
      }
    }

    /** A transaction ends with GO clear, having moved the larger of the two sizes. */
    method RunTransaction()
      requires Valid()
      modifies this`regs, bounce, bus, impl`count, impl`stateptr, impl.buffer, impl.state
      ensures Valid() && View() == GpdmaRegs.RunTransaction(old(View()))
    {
      if regs.control & GO == 0 {
        return;
      }
      regs := regs.(control := regs.control & !GO);
      var count := Size(regs);
      var pos := 0;
      ghost var goal := Transfer(View(), 0, count);
      while count > 0
        invariant Valid() && Transfer(View(), pos, count) == goal
      {
        var turnsize := TurnSize(count);
        Turn(pos, turnsize);
        pos := pos + turnsize;
        count := count - turnsize;
      }
    }
  }
}
