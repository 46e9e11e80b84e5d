/** What the host reads back through the hash unit's register window. */
module PortTheorems {
  import opened Options
  import opened Bytes
  import BlockStream
  import opened HashRegs
  import opened GpdmaRegs
  import opened HashPort
  import opened StreamTheorems
  import opened SessionTheorems
  import opened Supply
  import DmaSessions
  import DmaTheorems

  // ----- the status registers -----

  /** The word a four-byte read delivers, if it delivers any. */
  ghost predicate ReadsWord(m: Machine, addr: int, w: Word) {
    ReadReg(m, addr, 4).Some? && |ReadReg(m, addr, 4).value| == 4 && LoadWord(ReadReg(m, addr, 4).value) == w
  }

  lemma StatusRead(m: Machine)
    ensures ReadsWord(m, REG_STS1, m.hash.status1) && ReadsWord(m, REG_STS2, m.hash.status2)
  {
    hide LoadWord, StoreWord;
    LoadStoreWord(m.hash.status1);
    LoadStoreWord(m.hash.status2);
  }

  /** Feeding does not touch the status. */
  lemma FeedStatus(r: Regs, data: seq<byte>)
    ensures FeedRegs(r, data).status1 == r.status1 && FeedRegs(r, data).status2 == r.status2
  {
  }

  lemma BeginStatus(m: Machine, mode: Word)
    ensures Begin(m, mode).hash.status1 == 0 && Begin(m, mode).hash.status2 == 0
  {
    hide BlockStream.Feed, Xor, StoreWord;
    ModeWrite(m, mode);
    CommandWrite(m.(hash := WriteMode(m.hash, mode)), CMD_START_DATA);
  }

  /** Until FLUSH both status registers read as zero, however much data has come; after it the done bit reads as one. */
  lemma DoneReadsAfterFlush(m: Machine, mode: Word, pieces: seq<Piece>)
    requires IsSha256(mode) && Idle(m) && Legal(pieces) && |Supplied(m.mem, pieces)| < MAX_MESSAGE
    ensures var fed := SupplyAll(Begin(m, mode), pieces);
            && ReadsWord(fed, REG_STS1, 0) && ReadsWord(fed, REG_STS2, 0)
            && exists w :: ReadsWord(Flush(fed), REG_STS1, w) && w & 4 == 4
  {
    hide SupplyAll, Begin, Flush, FeedRegs, Digest, Supplied, Idle, Legal, ReadsWord;
    var b := Begin(m, mode);
    var fed := SupplyAll(b, pieces);
    BeginStatus(m, mode);
    BeginHolds(m, mode);
    IdleMeans(m);
    IdleMeans(b);
    SupplyFeeds(b, pieces);
    FeedStatus(b.hash, Supplied(m.mem, pieces));
    StatusRead(fed);
    MixedSessionDigests(m, mode, pieces);
    StatusRead(Flush(fed));
  }

  lemma StatusWrites(m: Machine, bits: Word)
    ensures WriteReg(m, REG_STS1, StoreWord(bits)) == m.(hash := m.hash.(status1 := ClearBits(m.hash.status1, bits)))
    ensures WriteReg(m, REG_STS2, StoreWord(bits)) == m.(hash := m.hash.(status2 := ClearBits(m.hash.status2, bits)))
  {
    hide StoreWord, LoadWord, LoadNat, Command, WriteMode, WriteState, SetCount, WithLow, WithHigh, RunTransaction,
         ClearBits;
    LoadStoreWord(bits);
  }

  /** w is the old word with the given bits zero and all others kept. */
  predicate Cleared(w: Word, old_: Word, bits: Word) { w & bits == 0 && w & !bits == old_ & !bits }

  lemma BitsCleared(status: Word, bits: Word)
    ensures Cleared(ClearBits(status, bits), status, bits)
  {
  }

  /** Writing ones clears those bits of the one status register, and nothing else of either. */
  lemma StatusCleared(m: Machine, bits: Word)
    ensures var a := WriteReg(m, REG_STS1, StoreWord(bits));
            && (exists w :: ReadsWord(a, REG_STS1, w) && Cleared(w, m.hash.status1, bits))
            && ReadsWord(a, REG_STS2, m.hash.status2)
    ensures var b := WriteReg(m, REG_STS2, StoreWord(bits));
            && (exists w :: ReadsWord(b, REG_STS2, w) && Cleared(w, m.hash.status2, bits))
            && ReadsWord(b, REG_STS1, m.hash.status1)
  {
    hide StoreWord, ReadsWord, WriteReg, ClearBits, Cleared;
    BitsCleared(m.hash.status1, bits);
    BitsCleared(m.hash.status2, bits);
    StatusWrites(m, bits);
    StatusRead(WriteReg(m, REG_STS1, StoreWord(bits)));
    StatusRead(WriteReg(m, REG_STS2, StoreWord(bits)));
  }

  // ----- the transfer registers -----

  predicate IsSizeOrAddress(addr: int) { addr in {REG_SRC_ADDR, REG_DST_ADDR, REG_SRC_SIZE, REG_DST_SIZE} }

  predicate IsTransferReg(addr: int) { IsSizeOrAddress(addr) || addr == REG_CONTROL || addr == REG_STATUS }

  lemma TransferRegWritten(m: Machine, addr: int, data: seq<byte>)
    requires IsTransferReg(addr) && |data| == 4
    ensures WriteReg(m, addr, data) == RunTransaction(m.(dma := WriteDma(m.dma, addr, data)))
  {
    hide RunTransaction, WriteDma, Command, LoadWord, LoadNat, WriteMode;
  }

  lemma NoTransaction(m: Machine)
    requires m.dma.control & GO == 0
    ensures RunTransaction(m) == m
  {
    hide Transfer;
  }

  /** Addresses and sizes are read back as written, and the other transfer registers read as before. */
  lemma AddressReadsBack(m: Machine, addr: int, n: U32, other: int)
    requires Idle(m) && IsSizeOrAddress(addr) && IsTransferReg(other)
    ensures var w := WriteReg(m, addr, StoreNat(n));
            ReadReg(w, other, 4) == if other == addr then Some(StoreNat(n)) else ReadReg(m, other, 4)
  {
    hide RunTransaction, StoreNat, WriteReg, WriteDma, ReadDma;
    TransferRegWritten(m, addr, StoreNat(n));
    AddressLatched(m.dma, addr, n, other);
    NoTransaction(m.(dma := WriteDma(m.dma, addr, StoreNat(n))));
  }

  lemma AddressLatched(dma: Dma, addr: int, n: U32, other: int)
    requires IsSizeOrAddress(addr) && IsTransferReg(other)
    ensures var d := WriteDma(dma, addr, StoreNat(n));
            && d.control == dma.control
            && ReadDma(d, other) == if other == addr then Some(StoreNat(n)) else ReadDma(dma, other)
  {
    hide LoadNat, StoreNat, LoadWord, StoreWord;
    LoadStoreNat(n);
  }

  /** So are control, as long as it does not start a transfer, and status. */
  lemma ControlReadsBack(m: Machine, addr: int, w: Word, other: int)
    requires Idle(m) && (addr == REG_STATUS || (addr == REG_CONTROL && w & 0x8000_0000 == 0)) && IsTransferReg(other)
    ensures var a := WriteReg(m, addr, StoreWord(w));
            ReadReg(a, other, 4) == if other == addr then Some(StoreWord(w)) else ReadReg(m, other, 4)
  {
    hide RunTransaction, LoadWord, StoreWord, LoadNat, StoreNat, WriteReg;
    TransferRegWritten(m, addr, StoreWord(w));
    LoadStoreWord(w);
    NoTransaction(m.(dma := WriteDma(m.dma, addr, StoreWord(w))));
  }
}
