/** Whole register-access sequences: one message in any number of writes, and streams sharing the engine. */
module SessionTheorems {
  import opened Bytes
  import opened BlockStream
  import opened HashRegs
  import opened GpdmaRegs
  import opened HashPort
  import opened StreamTheorems
  import Fips = Fips180

  /** The longest message SHA-256 admits, less the key block that HMAC puts in front. */
  const MAX_MESSAGE := 0x2000_0000_0000_0000 - 64

  function Concat(chunks: seq<seq<byte>>): seq<byte> {
    if chunks == [] then [] else Concat(chunks[..|chunks| - 1]) + chunks[|chunks| - 1]
  }

  ghost function WriteData(m: Machine, chunks: seq<seq<byte>>): Machine {
    if chunks == [] then m else WriteReg(WriteData(m, chunks[..|chunks| - 1]), REG_DATA, chunks[|chunks| - 1])
  }

  ghost function Begin(m: Machine, mode: Word): Machine {
    WriteReg(WriteReg(m, REG_MODE, StoreWord(mode)), REG_CMD, StoreWord(CMD_START_DATA))
  }

  ghost function Flush(m: Machine): Machine {
    WriteReg(m, REG_CMD, StoreWord(CMD_FLUSH_DATA))
  }

  // ----- single register writes -----

  lemma ModeWrite(m: Machine, mode: Word)
    ensures WriteReg(m, REG_MODE, StoreWord(mode)) == m.(hash := WriteMode(m.hash, mode))
  {
    hide WriteMode, StoreWord;
    LoadStoreWord(mode);
  }

  lemma CommandWrite(m: Machine, cmd: Word)
    ensures WriteReg(m, REG_CMD, StoreWord(cmd)) == m.(hash := Command(m.hash, cmd))
  {
    hide Command, StoreWord;
    LoadStoreWord(cmd);
  }

  lemma DataWrite(m: Machine, data: seq<byte>)
    ensures WriteReg(m, REG_DATA, data) == m.(hash := FeedRegs(m.hash, data))
  {
    hide FeedRegs;
  }

  // ----- one message -----

  /** MODE and START leave an engine that has taken in the HMAC key block, or nothing. */
  lemma BeginHolds(m: Machine, mode: Word)
    requires IsSha256(mode)
    ensures var b := Begin(m, mode);
            && Holds(b.hash, Prefix(mode, m.hash.key)) && b.hash.mode == mode && b.hash.key == m.hash.key
            && b.hash.stream.stateptr == 0 && b == m.(hash := b.hash)
  {
    hide Holds, BlockFunction, Fips.IV;
    var r := WriteMode(m.hash, mode);
    ModeWrite(m, mode);
    CommandWrite(m.(hash := r), CMD_START_DATA);
    StartHolds(r);
  }

  lemma StartHolds(r: Regs)
    requires IsSha256(r.mode) && r.stream.state == Encode(Fips.IV) && r.count == 0 && r.stream.pos == 0
    requires r.stream.stateptr == 0
    ensures Holds(Start(r), Prefix(r.mode, r.key)) && Start(r).stream.stateptr == 0
    ensures Start(r).mode == r.mode && Start(r).key == r.key
  {
    hide Holds, BlockFunction, Feed, Xor, Fips.IV;
    HoldsNothing(r);
    assert r.(stream := r.stream.(pos := 0), count := 0) == r;
    if IsHmac(r.mode) {
      var block := Xor(r.key, 0x36);
      FeedHolds(r, [], block);
      assert [] + block == block;
      FeedRewinds(BlockFunction(r.mode), r.stream, block);
    }
  }

  lemma {:induction false} WriteDataHolds(m: Machine, p: seq<byte>, chunks: seq<seq<byte>>)
    requires Holds(m.hash, p) && |p| + |Concat(chunks)| < TWO_64
    ensures var w := WriteData(m, chunks);
            && Holds(w.hash, p + Concat(chunks)) && w == m.(hash := w.hash)
            && w.hash.key == m.hash.key && w.hash.mode == m.hash.mode
  {
    hide Holds;
    if chunks == [] {
      assert p + [] == p;
    } else {
      var front, last := chunks[..|chunks| - 1], chunks[|chunks| - 1];
      WriteDataHolds(m, p, front);
      DataWrite(WriteData(m, front), last);
      FeedHolds(WriteData(m, front).hash, p + Concat(front), last);
      assert (p + Concat(front)) + last == p + Concat(chunks);
    }
  }

  /**
   Whatever state the engine is in, MODE, START, any data writes and FLUSH leave the SHA-256 digest
   of the concatenated data, or its HMAC under the key register, in the state register.
   */
  lemma SessionDigests(m: Machine, mode: Word, chunks: seq<seq<byte>>)
    requires IsSha256(mode) && |Concat(chunks)| < MAX_MESSAGE
    ensures var e := Flush(WriteData(Begin(m, mode), chunks));
            && e.hash.stream.state == Digest(mode, m.hash.key, Concat(chunks)) && e.hash.stream.stateptr == 0
            && e.hash.status1 & DONE == DONE && e.hash.key == m.hash.key && e == m.(hash := e.hash)
  {
    hide Holds, Digest, Finish, Begin;
    var b := Begin(m, mode);
    BeginHolds(m, mode);
    WriteDataHolds(b, Prefix(mode, m.hash.key), chunks);
    var w := WriteData(b, chunks);
    CommandWrite(w, CMD_FLUSH_DATA);
    FinishDigests(w.hash, Concat(chunks));
  }
}
