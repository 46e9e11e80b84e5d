/** Hashing a region of bus memory by DMA, register access by register access. */
module DmaSessions {
  import opened Bytes
  import opened HashRegs
  import opened GpdmaRegs
  import opened HashPort
  import opened StreamTheorems
  import opened SessionTheorems
  import DmaTheorems

  lemma DmaWrite(m: Machine, addr: int, data: seq<byte>)
    requires addr in {REG_SRC_ADDR, REG_DST_ADDR, REG_SRC_SIZE, REG_DST_SIZE, REG_CONTROL} && |data| == 4
    ensures WriteReg(m, addr, data) == GpdmaRegs.RunTransaction(m.(dma := WriteDma(m.dma, addr, data)))
  {
    hide GpdmaRegs.RunTransaction, WriteDma, Command, LoadWord, LoadNat, WriteMode;
  }

  /** While GO is clear, programming a transfer register only latches it. */
  lemma Latched(m: Machine, addr: int, n: U32)
    requires addr in {REG_SRC_ADDR, REG_DST_ADDR, REG_SRC_SIZE, REG_DST_SIZE} && m.dma.control & GO == 0
    ensures WriteReg(m, addr, StoreNat(n)) == m.(dma :=
              if addr == REG_SRC_ADDR then m.dma.(srcAddr := n)
              else if addr == REG_DST_ADDR then m.dma.(dstAddr := n)
              else if addr == REG_SRC_SIZE then m.dma.(srcSize := n)
              else m.dma.(dstSize := n))
  {
    hide StoreNat, LoadNat, LoadWord, Transfer, WriteReg;
    DmaWrite(m, addr, StoreNat(n));
    LoadStoreNat(n);
  }

  /** Source, sizes and internal destination are programmed, then GO is written. */
  ghost function DmaIn(m: Machine, addr: U32, n: U32): Machine {
    var a := WriteReg(m, REG_SRC_ADDR, StoreNat(addr));
    var b := WriteReg(a, REG_DST_ADDR, StoreNat(0));
    var c := WriteReg(b, REG_SRC_SIZE, StoreNat(n));
    var d := WriteReg(c, REG_DST_SIZE, StoreNat(0));
    WriteReg(d, REG_CONTROL, StoreWord(GO))
  }

  /** A DMA transfer to the hash engine has the effect of one data write of the whole region. */
  lemma DmaInIsDataWrite(m: Machine, addr: U32, n: U32)
    requires m.dma.control & GO == 0 && addr != 0
    ensures var t := DmaIn(m, addr, n);
            && t.hash == WriteReg(m, REG_DATA, BusRead(m.mem, addr, n)).hash
            && t.mem == m.mem && t.dma.control & GO == 0
  {
    hide WriteReg, RunTransaction, StoreNat, StoreWord, LoadWord, FeedRegs, BusRead;
    Latched(m, REG_SRC_ADDR, addr);
    var a := m.(dma := m.dma.(srcAddr := addr));
    Latched(a, REG_DST_ADDR, 0);
    var b := a.(dma := a.dma.(dstAddr := 0));
    Latched(b, REG_SRC_SIZE, n);
    var c := b.(dma := b.dma.(srcSize := n));
    Latched(c, REG_DST_SIZE, 0);
    var d := c.(dma := c.dma.(dstSize := 0));
    DmaWrite(d, REG_CONTROL, StoreWord(GO));
    LoadStoreWord(GO);
    DmaTheorems.DmaIsOneWrite(d.(dma := d.dma.(control := GO)));
    DataWrite(m, BusRead(m.mem, addr, n));
  }

  /** MODE, START, one DMA transfer of a memory region of any size and FLUSH digest the region's bytes. */
  lemma DmaSessionDigests(m: Machine, mode: Word, addr: U32, n: U32)
    requires IsSha256(mode) && m.dma.control & GO == 0 && addr != 0
    ensures Flush(DmaIn(Begin(m, mode), addr, n)).hash.stream.state == Digest(mode, m.hash.key, BusRead(m.mem, addr, n))
  {
    hide Holds, Digest, Finish, Begin, DmaIn, WriteReg, FeedRegs, BusRead, BlockFunction;
    var b, data := Begin(m, mode), BusRead(m.mem, addr, n);
    BeginHolds(m, mode);
    DmaInIsDataWrite(b, addr, n);
    DataWrite(b, data);
    FeedHolds(b.hash, Prefix(mode, m.hash.key), data);
    FeedKeepsKey(b.hash, data);
    CommandWrite(DmaIn(b, addr, n), CMD_FLUSH_DATA);
    FinishDigests(FeedRegs(b.hash, data), data);
  }

  lemma FeedKeepsKey(r: Regs, data: seq<byte>)
    ensures FeedRegs(r, data).key == r.key && FeedRegs(r, data).mode == r.mode
  {
  }
}
