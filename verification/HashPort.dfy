/** The register window of the hash unit: the engine's own registers and those of its DMA engine. */
module HashPort {
  import opened Options
  import opened Bytes
  import opened HashRegs
  import opened GpdmaRegs
  import opened HashEngine
  import opened Gpdma

  const WINDOW := 0x1000
  const REG_MODE := 0x000
  const REG_HASH := 0x004
  const REG_CMD := 0x008
  const REG_STS1 := 0x050
  const REG_STS2 := 0x058
  const REG_COUNTL := 0x060
  const REG_COUNTH := 0x064
  const REG_DATA := 0x600
  const REG_SRC_ADDR := 0x400
  const REG_DST_ADDR := 0x404
  const REG_SRC_SIZE := 0x408
  const REG_DST_SIZE := 0x40C
  const REG_CONTROL := 0x410
  const REG_STATUS := 0x428

  // ----- register writes -----

  function WriteMode(r: Regs, mode: Word): Regs {
    var moded := r.(mode := mode, stream := r.stream.(stateptr := 0));
    Init(moded)
  }

  /** Four bytes of the state at the host's index; refused once the index has passed the last word. */
  function WriteState(r: Regs, data: seq<byte>): Regs
    requires |data| == 4
  {
    var p := r.stream.stateptr;
    if p + 4 > 32 then r
    else r.(stream := r.stream.(state := Overwrite(r.stream.state, p, data), stateptr := p + 4))
  }

  /** Status bits are cleared by writing ones. */
  function ClearBits(status: Word, bits: Word): Word {
    status & !bits
  }

  /** The counter with its low or its high half replaced. */
  function WithLow(count: Count, low: nat): Count
    requires low < TWO_32
  {
    count / TWO_32 * TWO_32 + low
  }

  function WithHigh(count: Count, high: nat): Count
    requires high < TWO_32
  {
    high * TWO_32 + count % TWO_32
  }

  function SetCount(r: Regs, count: Count): Regs {
    r.(count := count, stream := r.stream.(pos := count % 64))
  }

  /** The engine's own registers; None for an address that is not one of them. */
  ghost function WriteEngine(r: Regs, addr: int, data: seq<byte>): Option<Regs>
    requires |data| == 4
  {
    if addr == REG_MODE then Some(WriteMode(r, LoadWord(data)))
    else if addr == REG_CMD then Some(Command(r, LoadWord(data)))
    else if addr == REG_HASH then Some(WriteState(r, data))
    else if addr == REG_COUNTL then Some(SetCount(r, WithLow(r.count, LoadNat(data))))
    else if addr == REG_COUNTH then Some(SetCount(r, WithHigh(r.count, LoadNat(data))))
    else if addr == REG_STS1 then Some(r.(status1 := ClearBits(r.status1, LoadWord(data))))
    else if addr == REG_STS2 then Some(r.(status2 := ClearBits(r.status2, LoadWord(data))))
    else None
  }

  function WriteDma(dma: Dma, addr: int, data: seq<byte>): Dma
    requires |data| == 4
  {
    if addr == REG_SRC_ADDR then dma.(srcAddr := LoadNat(data))
    else if addr == REG_DST_ADDR then dma.(dstAddr := LoadNat(data))
    else if addr == REG_SRC_SIZE then dma.(srcSize := LoadNat(data))
    else if addr == REG_DST_SIZE then dma.(dstSize := LoadNat(data))
    else if addr == REG_CONTROL then dma.(control := LoadWord(data))
    else if addr == REG_STATUS then dma.(status := LoadWord(data))
    else dma
  }

  /** A write into the window. Every write to the DMA range may start a transaction. */
  ghost function WriteReg(m: Machine, addr: int, data: seq<byte>): Machine {
    if addr < 0 || addr >= WINDOW then m
    else if addr == REG_DATA then m.(hash := FeedRegs(m.hash, data))
    else if |data| != 4 || addr % 4 != 0 then m
    else match WriteEngine(m.hash, addr, data)
      case Some(r) => m.(hash := r)
      case None =>
        if addr < 0x400 || addr >= 0x500 then m
        else GpdmaRegs.RunTransaction(m.(dma := WriteDma(m.dma, addr, data)))
  }

  // ----- register reads -----

  function ReadDma(dma: Dma, addr: int): Option<seq<byte>>
  {
    if addr == REG_SRC_ADDR then Some(StoreNat(dma.srcAddr))
    else if addr == REG_DST_ADDR then Some(StoreNat(dma.dstAddr))
    else if addr == REG_SRC_SIZE then Some(StoreNat(dma.srcSize))
    else if addr == REG_DST_SIZE then Some(StoreNat(dma.dstSize))
    else if addr == REG_CONTROL then Some(StoreWord(dma.control))
    else if addr == REG_STATUS then Some(StoreWord(dma.status))
    else None
  }

  /** What a read delivers; None when the caller's buffer is left as it was. */
  function ReadReg(m: Machine, addr: int, count: int): Option<seq<byte>>
  {
    var s := m.hash.stream;
    if addr < 0 || addr >= WINDOW || count != 4 || addr % 4 != 0 then None
    else if addr == REG_STS1 then Some(StoreWord(m.hash.status1))
    else if addr == REG_STS2 then Some(StoreWord(m.hash.status2))
    else if addr == REG_COUNTL then Some(StoreNat(m.hash.count % TWO_32))
    else if addr == REG_COUNTH then Some(StoreNat(m.hash.count / TWO_32))
    else if addr == REG_HASH then (if s.stateptr + 4 > 32 then None else Some(s.state[s.stateptr..s.stateptr + 4]))
    else ReadDma(m.dma, addr)
  }

  /** A read of the state word advances the host's index; no other read changes anything. */
  function AfterRead(m: Machine, addr: int, count: int): Machine {
    var s := m.hash.stream;
    if addr == REG_HASH && count == 4 && s.stateptr + 4 <= 32
    then m.(hash := m.hash.(stream := s.(stateptr := s.stateptr + 4)))
    else m
  }

  class HashUnit {
    const engine: HashEngine
    const dma: Gpdma

    ghost predicate Valid()
      reads this, dma, engine
    {
      dma.impl == engine && dma.Valid()
    }

    ghost function View(): Machine
      requires Valid()
      reads this, dma, dma.bounce, dma.bus, engine, engine.key, engine.buffer, engine.state, engine.temp
    {
      dma.View()
    }

    constructor (engine: HashEngine, dma: Gpdma)
      requires dma.impl == engine && dma.Valid()
      ensures Valid() && this.engine == engine && this.dma == dma
    {
      this.engine, this.dma := engine, dma;
    }

    method ReadEngine(addr: int) returns (data: Option<seq<byte>>)
      requires Valid() && 0 <= addr < WINDOW && addr % 4 == 0
      modifies engine`stateptr
      ensures Valid() && data == ReadReg(old(View()), addr, 4) && View() == AfterRead(old(View()), addr, 4)
    {
      if addr == REG_STS1 {
        data := Some(StoreWord(engine.status1));
      } else if addr == REG_STS2 {
        data := Some(StoreWord(engine.status2));
      } else if addr == REG_COUNTL {
        data := Some(StoreNat(engine.count % TWO_32));
      } else if addr == REG_COUNTH {
        data := Some(StoreNat(engine.count / TWO_32));
      } else if addr == REG_HASH {
        if engine.stateptr + 4 > 32 {
          return None;
        }
        data := Some(engine.state[engine.stateptr..engine.stateptr + 4]);
        engine.stateptr := engine.stateptr + 4;
      } else {
        data := ReadDma(dma.regs, addr);
      }
    }

    /** The result is false when the address is outside the window. */
    method Read(addr: int, count: int) returns (handled: bool, data: Option<seq<byte>>)
      requires Valid()
      modifies engine`stateptr
      ensures Valid() && handled == (0 <= addr < WINDOW)
      ensures data == ReadReg(old(View()), addr, count) && View() == AfterRead(old(View()), addr, count)
    {
      if addr < 0 || addr >= WINDOW {
        return false, None;
      }
      if count != 4 || addr % 4 != 0 {
        return true, None;
      }
      handled := true;
      data := ReadEngine(addr);
    }

    method SetState(data: seq<byte>)
      requires Valid() && |data| == 4
      modifies engine`stateptr, engine.state
      ensures Valid() && engine.View() == WriteState(old(engine.View()), data)
    {
      if engine.stateptr + 4 > 32 {
        return;
      }
      Memcpy(engine.state, engine.stateptr, data);
      engine.stateptr := engine.stateptr + 4;
    }

    method SetMode(mode: Word)
      requires Valid()
      modifies engine, engine.state
      ensures Valid() && engine.View() == WriteMode(old(engine.View()), mode)
    {
      engine.mode := mode;
      engine.stateptr := 0;
      engine.RoundInit();
    }

    method SetCountTo(count: Count)
      requires Valid()
      modifies engine`count
      ensures Valid() && engine.View() == SetCount(old(engine.View()), count)
    {
      engine.count := count;
    }

    /** A write to one of the engine's own registers; the result is false for any other address. */
    method WriteOwn(addr: int, data: seq<byte>) returns (known: bool)
      requires Valid() && |data| == 4
      modifies engine, engine.buffer, engine.state, engine.temp
      ensures Valid() && known == WriteEngine(old(engine.View()), addr, data).Some?
      ensures engine.View() == if known then WriteEngine(old(engine.View()), addr, data).value else old(engine.View())
    {
      hide Command, WriteMode, WriteState, SetCount, ClearBits, LoadWord, LoadNat, WithLow, WithHigh;
      known := true;
      if addr == REG_MODE {
        SetMode(LoadWord(data));
      } else if addr == REG_CMD {
        engine.DoCommand(LoadWord(data));
      } else if addr == REG_HASH {
        SetState(data);
      } else if addr == REG_COUNTL {
        SetCountTo(WithLow(engine.count, LoadNat(data)));
      } else if addr == REG_COUNTH {
        SetCountTo(WithHigh(engine.count, LoadNat(data)));
      } else if addr == REG_STS1 {
        engine.status1 := ClearBits(engine.status1, LoadWord(data));
      } else if addr == REG_STS2 {
        engine.status2 := ClearBits(engine.status2, LoadWord(data));
      } else {
        known := false;
      }
    }

    /** The result is false when the address is outside the window. */
    method Write(addr: int, data: seq<byte>) returns (handled: bool)
      requires Valid()
      modifies dma`regs, dma.bounce, dma.bus, engine, engine.buffer, engine.state, engine.temp
      ensures Valid() && handled == (0 <= addr < WINDOW)
      ensures View() == WriteReg(old(View()), addr, data)
    {
      hide FeedRegs, WriteEngine, GpdmaRegs.RunTransaction;
      handled := 0 <= addr < WINDOW;
      if !handled {
        return;
      }
      if addr == REG_DATA {
        engine.DmaWrite(data);
      } else if |data| == 4 && addr % 4 == 0 {
        var known := WriteOwn(addr, data);
        if !known && 0x400 <= addr < 0x500 {
          dma.regs := WriteDma(dma.regs, addr, data);
          dma.RunTransaction();
        }
      }
    }
  }
}
