/**
 The subsystem as a host programs it: accesses by register address and bit number, as the register
 descriptions give them, and no name of the model in between.
 */
module HostProgram {
  import opened Options
  import opened Bytes
  import BlockStream
  import opened HashRegs
  import opened GpdmaRegs
  import opened HashPort
  import opened SksRegs
  import opened StreamTheorems
  import opened SessionTheorems
  import opened KeyTheorems
  import opened Supply
  import opened SaveRestore
  import opened PortTheorems
  import DmaSessions
  import opened OcsTheorems
  import Fips = Fips180

  ghost function Poke(m: Machine, addr: int, w: Word): Machine { HashPort.WriteReg(m, addr, StoreWord(w)) }

  /** Every piece of the message, in order: data at 0x600, or a transfer programmed at 0x400 to 0x410. */
  ghost function Offer(m: Machine, p: Piece): Machine {
    match p
    case Written(data) => HashPort.WriteReg(m, 0x600, data)
    case Fetched(addr, n) =>
      var source := HashPort.WriteReg(m, 0x400, StoreNat(addr));
      var target := HashPort.WriteReg(source, 0x404, StoreNat(0));
      var size := HashPort.WriteReg(target, 0x408, StoreNat(n));
      var sized := HashPort.WriteReg(size, 0x40C, StoreNat(0));
      Poke(sized, 0x410, 0x8000_0000)
  }

  ghost function OfferAll(m: Machine, pieces: seq<Piece>): Machine {
    if pieces == [] then m else Offer(OfferAll(m, pieces[..|pieces| - 1]), pieces[|pieces| - 1])
  }

  lemma OfferIsSupply(m: Machine, p: Piece)
    ensures Offer(m, p) == SupplyOne(m, p)
  {
    hide HashPort.WriteReg, StoreNat, StoreWord;
  }

  lemma {:induction false} OfferAllIsSupply(m: Machine, pieces: seq<Piece>)
    ensures OfferAll(m, pieces) == SupplyAll(m, pieces)
  {
    hide Offer, SupplyOne;
    if pieces != [] {
      OfferAllIsSupply(m, pieces[..|pieces| - 1]);
      OfferIsSupply(OfferAll(m, pieces[..|pieces| - 1]), pieces[|pieces| - 1]);
    }
  }

  /** Mode at 0x000, 1 to the command register at 0x008, the message, and 2 to the command register. */
  ghost function Opened(m: Machine, mode: Word): Machine { Poke(Poke(m, 0x000, mode), 0x008, 1) }

  ghost function Hashed(m: Machine, mode: Word, pieces: seq<Piece>): Machine {
    Poke(OfferAll(Opened(m, mode), pieces), 0x008, 2)
  }

  /** What n four-byte reads at 0x004 deliver. */
  ghost function Words(m: Machine, n: nat): seq<byte> {
    if n == 0 then [] else Words(m, n - 1) + Delivered(HashPort.ReadReg(AfterWords(m, n - 1), 0x004, 4))
  }

  ghost function AfterWords(m: Machine, n: nat): Machine {
    if n == 0 then m else AfterRead(AfterWords(m, n - 1), 0x004, 4)
  }

  lemma {:induction false} WordsAreState(m: Machine, n: nat)
    ensures ReadState(m, n) == (Words(m, n), AfterWords(m, n))
  {
    hide HashPort.ReadReg, AfterRead, Delivered;
    if n > 0 {
      WordsAreState(m, n - 1);
    }
  }

  lemma HashedIsSession(m: Machine, mode: Word, pieces: seq<Piece>)
    ensures Hashed(m, mode, pieces) == Flush(SupplyAll(Begin(m, mode), pieces))
  {
    hide HashPort.WriteReg, StoreWord, SupplyAll, OfferAll;
    OfferAllIsSupply(Opened(m, mode), pieces);
  }

  /** Bits 17 and 16 of the mode select the algorithm, 10 for SHA-256; bit 22 asks for an HMAC. */
  predicate ModeOf(mode: Word, hmac: bool) {
    mode & 0x0003_0000 == 0x0002_0000 && mode & 0x0040_0000 == (if hmac then 0x0040_0000 else 0)
  }

  lemma ModeBits(mode: Word, hmac: bool)
    requires ModeOf(mode, hmac)
    ensures IsSha256(mode) && (IsHmac(mode) <==> hmac)
  {
  }

  lemma DoneMeans(status: Word)
    ensures status & DONE == DONE <==> status & 4 == 4
  {
  }

  /** The eight reads deliver what the register holds, in order. */
  lemma WordsDeliver(m: Machine)
    requires m.hash.stream.stateptr == 0
    ensures Words(m, 8) == m.hash.stream.state
  {
    hide ReadState, Words, AfterWords;
    ReadStateWords(m, 8);
    WordsAreState(m, 8);
    assert m.hash.stream.state[..32] == m.hash.stream.state;
  }

  /**
   From any state with no transfer pending, the accesses above make bit 2 of the word at 0x050 read as one
   and the eight words at 0x004 read as the digest of the message, or its HMAC under the key register.
   */
  lemma DigestByAddress(m: Machine, mode: Word, hmac: bool, pieces: seq<Piece>)
    requires ModeOf(mode, hmac) && Idle(m) && Legal(pieces) && |Supplied(m.mem, pieces)| < MAX_MESSAGE
    ensures var e, message := Hashed(m, mode, pieces), Supplied(m.mem, pieces);
            && Words(e, 8) == (if hmac then Fips.Hmac(m.hash.key, message) else Fips.Sha256(message))
            && exists w :: ReadsWord(e, 0x050, w) && w & 4 == 4
  {
    hide Hashed, SupplyAll, Begin, Flush, Supplied, Words, Fips.Hmac, Fips.Sha256, Idle, Legal, ReadsWord, IsSha256,
         IsHmac, ModeOf;
    ModeBits(mode, hmac);
    HashedIsSession(m, mode, pieces);
    MixedSessionDigests(m, mode, pieces);
    var e := Hashed(m, mode, pieces);
    WordsDeliver(e);
    StatusRead(e);
    DoneMeans(e.hash.status1);
  }

  /** While data comes, and until the command register is written with 2, both status words read as zero. */
  lemma NotDoneByAddress(m: Machine, mode: Word, pieces: seq<Piece>)
    requires ModeOf(mode, false) || ModeOf(mode, true)
    requires Idle(m) && Legal(pieces) && |Supplied(m.mem, pieces)| < MAX_MESSAGE
    ensures var fed := OfferAll(Opened(m, mode), pieces); ReadsWord(fed, 0x050, 0) && ReadsWord(fed, 0x058, 0)
  {
    hide SupplyAll, OfferAll, Supplied, Idle, Legal, ReadsWord, IsSha256, IsHmac, ModeOf, HashPort.WriteReg, StoreWord;
    ModeBits(mode, if ModeOf(mode, true) then true else false);
    DoneReadsAfterFlush(m, mode, pieces);
    OfferAllIsSupply(Opened(m, mode), pieces);
  }

  // ----- the count and the buffer position -----

  /**
   A count written at 0x060 and 0x064 reads back in its two halves, and data short of a block boundary lands
   in the block buffer from the count's low six bits on.
   */
  lemma CountByAddress(m: Machine, n: Count, data: seq<byte>)
    requires n % 64 + |data| < 64
    ensures var low := HashPort.WriteReg(m, 0x060, StoreNat(n % TWO_32));
            var counted := HashPort.WriteReg(low, 0x064, StoreNat(n / TWO_32));
            && HashPort.ReadReg(counted, 0x060, 4) == Some(StoreNat(n % TWO_32))
            && HashPort.ReadReg(counted, 0x064, 4) == Some(StoreNat(n / TWO_32))
            && var s := HashPort.WriteReg(counted, 0x600, data).hash.stream;
               && s.buffer == Overwrite(m.hash.stream.buffer, n % 64, data)
               && s.state == m.hash.stream.state && s.pos == n % 64 + |data|
  {
    hide StoreNat, LoadNat, HashPort.WriteReg, BlockFunction;
    CountWrites(m, n);
    var counted := m.(hash := SetCount(m.hash, n));
    DataWrite(counted, data);
    BlockStream.FeedChunk(BlockFunction(m.hash.mode), counted.hash.stream, data);
  }

  // ----- keys -----

  /** The key at 0x40C, the slot at 0x400, then the produce command and the load command at 0x404. */
  function KeyAccesses(key: seq<byte>, slot: U32): seq<Access> {
    [ToKeys(0x40C, key),
     ToKeys(0x400, StoreNat(slot)), ToKeys(0x404, StoreWord(0x8005_0000)),
     ToKeys(0x400, StoreNat(slot)), ToKeys(0x404, StoreWord(0x8020_0000))]
  }

  lemma SlotCommandSteps(o: Ocs, slot: U32, command: Word)
    requires Quiet(o.sks) && slot < SLOTS
    ensures Admissible(o, ToKeys(0x400, StoreNat(slot)))
    ensures var selected := Step(o, ToKeys(0x400, StoreNat(slot)));
            && Admissible(selected, ToKeys(0x404, StoreWord(command)))
            && Step(selected, ToKeys(0x404, StoreWord(command))) == SlotCommand(o, slot, command)
  {
    SlotWrite(o.sks, slot);
    CommandAdmissible(o.sks.(slot := slot), command);
    hide SksRegs.WriteReg, Latch, StoreNat, StoreWord, Started;
  }

  /** Two register accesses that select a slot and run a command on it, in front of others. */
  lemma RunCommand(o: Ocs, slot: U32, command: Word, rest: seq<Access>, o': Ocs)
    requires Quiet(o.sks) && slot < SLOTS && Run(SlotCommand(o, slot, command), rest, o')
    ensures Run(o, [ToKeys(0x400, StoreNat(slot)), ToKeys(0x404, StoreWord(command))] + rest, o')
  {
    hide StoreNat, StoreWord, SlotCommand, Step, Admissible;
    SlotCommandSteps(o, slot, command);
    var a, b := ToKeys(0x400, StoreNat(slot)), ToKeys(0x404, StoreWord(command));
    assert ([a, b] + rest)[1..] == [b] + rest && ([b] + rest)[1..] == rest;
  }

  /** The five accesses put the key, as far as the slot holds it, at the front of the hash unit's key register. */
  lemma KeyByAddress(o: Ocs, key: seq<byte>, slot: U32)
    requires Settled(o) && |key| == 32 && slot < 22
    ensures var size := if slot < 11 then 16 else 32;
            exists o' :: && Run(o, KeyAccesses(key, slot), o') && Settled(o')
                         && o'.machine == o.machine.(hash := o.machine.hash.(
                              key := key[..size] + o.machine.hash.key[size..]))
  {
    hide SlotCommand, Key, Quiet, Idle, KeyData, StoreNat, StoreWord, Run, HashPort.AfterRead, HashPort.WriteReg;
    KeyFromHost(o, key, slot);
    var written := KeyData(o, 0, key);
    KeyDataWritten(o, 0, key);
    var produced := SlotCommand(written, slot, PRODUCE_CPU);
    ProduceFromBuffer(written, slot);
    LoadIntoHash(produced, slot);
    var loaded := SlotCommand(produced, slot, LOAD_HASH);
    RunNothing(loaded);
    RunCommand(produced, slot, LOAD_HASH, [], loaded);
    var load := [ToKeys(0x400, StoreNat(slot)), ToKeys(0x404, StoreWord(0x8020_0000))];
    assert load + [] == load;
    RunCommand(written, slot, PRODUCE_CPU, load, loaded);
    var produce := [ToKeys(0x400, StoreNat(slot)), ToKeys(0x404, StoreWord(0x8005_0000))];
    RunKeyData(o, key, produce + load, loaded);
    assert [ToKeys(0x40C, key)] + (produce + load) == KeyAccesses(key, slot);
  }

  lemma RunNothing(o: Ocs)
    ensures Run(o, [], o)
  {
  }

  lemma RunKeyData(o: Ocs, key: seq<byte>, rest: seq<Access>, o': Ocs)
    requires Settled(o) && |key| == 32 && Run(KeyData(o, 0, key), rest, o')
    ensures Run(o, [ToKeys(0x40C, key)] + rest, o')
  {
    KeyDataAdmissible(o.sks, 0, key);
    hide Latch, Step, Quiet, Idle;
    assert ([ToKeys(0x40C, key)] + rest)[1..] == rest;
  }

  /** From a 32-byte key to the words of a message's HMAC under it, by addresses alone. */
  lemma MacByAddress(o: Ocs, key: seq<byte>, slot: U32, mode: Word, pieces: seq<Piece>)
    requires Settled(o) && |key| == 32 && 11 <= slot < 22
    requires ModeOf(mode, true) && Legal(pieces) && |Supplied(o.machine.mem, pieces)| < MAX_MESSAGE
    ensures exists o' :: && Run(o, KeyAccesses(key, slot), o')
                         && Words(Hashed(o'.machine, mode, pieces), 8)
                            == Fips.Hmac(key + Zeros(32), Supplied(o.machine.mem, pieces))
  {
    hide KeyAccesses, Run, Words, Hashed, Supplied, Legal, Idle, Fips.Hmac, ModeOf, Quiet, Fips.Sha256;
    KeyByAddress(o, key, slot);
    var o' :| && Run(o, KeyAccesses(key, slot), o') && Settled(o')
              && o'.machine == o.machine.(hash := o.machine.hash.(key := key[..32] + o.machine.hash.key[32..]));
    assert key[..32] == key;
    DigestByAddress(o'.machine, mode, true, pieces);
  }
}
