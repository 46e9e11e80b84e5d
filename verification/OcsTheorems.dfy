/** Runs of the whole subsystem: register writes to the hash unit and to the key store in any order. */
module OcsTheorems {
  import opened Options
  import opened Bytes
  import opened BlockStream
  import opened HashRegs
  import opened GpdmaRegs
  import opened SksRegs
  import opened StreamTheorems
  import opened SessionTheorems
  import opened KeyTheorems
  import opened Supply
  import DmaTheorems
  import HashPort
  import Fips = Fips180

  datatype Ocs = Ocs(machine: Machine, sks: Sks)

  /** Register writes to the two units, and register reads, of which those of the key store change nothing. */
  datatype Access =
    | ToHash(addr: int, data: seq<byte>)
    | ToKeys(keyAddr: nat, data: seq<byte>)
    | FromHash(addr: int, count: int)
    | FromKeys(keyAddr: nat, count: int)

  predicate Admissible(o: Ocs, a: Access) {
    match a
    case ToKeys(addr, data) => InRange(o.sks, addr, data)
    case _ => true
  }

  ghost function Step(o: Ocs, a: Access): Ocs
    requires Admissible(o, a)
  {
    match a
    case ToHash(addr, data) => o.(machine := HashPort.WriteReg(o.machine, addr, data))
    case ToKeys(addr, data) =>
      var (k, h) := SksRegs.WriteReg(o.sks, o.machine.hash, addr, data);
      Ocs(o.machine.(hash := h), k)
    case FromHash(addr, count) => o.(machine := HashPort.AfterRead(o.machine, addr, count))
    case FromKeys(_, _) => o
  }

  /** The states after the accesses, in order, none of which starts a command on slot 22. */
  ghost predicate Run(o: Ocs, accesses: seq<Access>, o': Ocs)
    decreases accesses
  {
    if accesses == [] then o' == o
    else Admissible(o, accesses[0]) && Run(Step(o, accesses[0]), accesses[1..], o')
  }

  /** No command or transfer pending, and a key register that never held more than 32 bytes. */
  ghost predicate Settled(o: Ocs) {
    Quiet(o.sks) && Idle(o.machine) && o.machine.hash.key[32..] == Zeros(32)
  }

  /** Both units as they are set up, with any bus memory. */
  ghost function PowerOn(mem: Memory): Ocs {
    Ocs(Machine(Dma(0, 0, 0, 0, 0, 0), Zeros(64), mem, RESET),
        Sks(Zeros(STORE_SIZE), seq(SLOTS, i => if i == 21 then KEY_VALID else 0), 0, 0, 0, Zeros(32)))
  }

  lemma PowerOnIsSettled(mem: Memory)
    ensures Settled(PowerOn(mem))
  {
    assert RESET.key[32..] == Zeros(32);
  }

  // ----- the key register -----

  lemma CommandKeepsKey(r: Regs, cmd: Word)
    ensures Command(r, cmd).key == r.key
  {
    hide BlockFunction, Fips.Padding, Feed, Xor, IsSha256, IsHmac;
  }

  lemma EngineWriteKeepsKey(r: Regs, addr: int, data: seq<byte>)
    requires |data| == 4
    ensures match HashPort.WriteEngine(r, addr, data) case Some(r') => r'.key == r.key case None => true
  {
    hide Command, LoadWord, LoadNat, HashPort.WithLow, HashPort.WithHigh, HashPort.ClearBits, IsSha256;
    CommandKeepsKey(r, LoadWord(data));
  }

  /** No access to the hash unit changes the key register or leaves a transfer pending. */
  lemma HashWriteKeepsKey(m: Machine, addr: int, data: seq<byte>)
    ensures HashPort.WriteReg(m, addr, data).hash.key == m.hash.key
    ensures Idle(m) ==> Idle(HashPort.WriteReg(m, addr, data))
  {
    hide RunTransaction, HashPort.WriteEngine, HashPort.WriteDma, Feed, BlockFunction;
    if |data| == 4 {
      EngineWriteKeepsKey(m.hash, addr, data);
      DmaTheorems.TransactionEnds(m.(dma := HashPort.WriteDma(m.dma, addr, data)));
    }
  }

  lemma LoadKeepsTail(r: Regs, data: seq<byte>)
    requires |data| <= 32
    ensures LoadKey(r, data).key[32..] == r.key[32..]
  {
  }

  /** A key store write only touches the first 32 bytes of the key register, and nothing else of the engine. */
  lemma KeyWriteOnEngine(k: Sks, h: Regs, addr: nat, data: seq<byte>)
    requires InRange(k, addr, data)
    ensures var (_, h') := SksRegs.WriteReg(k, h, addr, data);
            h'.key[32..] == h.key[32..] && h' == h.(key := h'.key)
  {
    match Latch(k, addr, data)
    case None =>
    case Some(k1) =>
      if k1.slot < SLOTS {
        LoadKeepsTail(h, Key(k1.store, k1.slot));
      }
      hide Mask, Set, Clear, SetKey, Key;
  }

  lemma StepKeepsSettled(o: Ocs, a: Access)
    requires Settled(o) && Admissible(o, a)
    ensures Settled(Step(o, a))
  {
    hide Quiet;
    match a
    case ToHash(addr, data) => HashWriteKeepsKey(o.machine, addr, data);
    case ToKeys(addr, data) =>
      WriteIsLocal(o.sks, o.machine.hash, addr, data, 0);
      KeyWriteOnEngine(o.sks, o.machine.hash, addr, data);
    case FromHash(_, _) =>
    case FromKeys(_, _) =>
  }

  /** In every run the key store and the transfer engine are idle between accesses and key bytes 32..63 stay zero. */
  lemma {:induction false} RunKeepsSettled(o: Ocs, accesses: seq<Access>, o': Ocs)
    requires Settled(o) && Run(o, accesses, o')
    ensures Settled(o')
    decreases accesses
  {
    hide Settled;
    if accesses != [] {
      StepKeepsSettled(o, accesses[0]);
      RunKeepsSettled(Step(o, accesses[0]), accesses[1..], o');
    }
  }

  // ----- loading a key -----

  const PRODUCE_HASH: Word := 0x8007_0000
  const PRODUCE_CPU: Word := 0x8005_0000
  const LOAD_HASH: Word := 0x8020_0000

  /** SLOT, then a command, written to the key store. */
  ghost function SlotCommand(o: Ocs, slot: U32, command: Word): Ocs
    requires Quiet(o.sks) && slot < SLOTS
  {
    SlotWrite(o.sks, slot);
    var selected := Step(o, ToKeys(REG_SLOT, StoreNat(slot)));
    CommandAdmissible(selected.sks, command);
    Step(selected, ToKeys(REG_COMMAND, StoreWord(command)))
  }

  lemma SlotWrite(k: Sks, slot: U32)
    requires Quiet(k) && slot < SLOTS
    ensures Latch(k, REG_SLOT, StoreNat(slot)) == Some(k.(slot := slot)) && InRange(k, REG_SLOT, StoreNat(slot))
    ensures forall h :: SksRegs.WriteReg(k, h, REG_SLOT, StoreNat(slot)) == (k.(slot := slot), h)
  {
    hide StoreNat, LoadNat, Mask;
    LoadStoreNat(slot);
  }

  lemma CommandAdmissible(k: Sks, command: Word)
    requires k.slot < SLOTS
    ensures Latch(k, REG_COMMAND, StoreWord(command)) == Some(k.(command := command))
    ensures InRange(k, REG_COMMAND, StoreWord(command))
  {
    hide StoreWord, LoadWord, Mask;
    LoadStoreWord(command);
  }

  /** Selecting a slot and producing from the hash engine stores the state, cut to the slot's size. */
  lemma ProduceFromHash(o: Ocs, slot: U32)
    requires Settled(o) && slot < SLOTS
    ensures var o' := SlotCommand(o, slot, PRODUCE_HASH);
            && Settled(o') && o'.machine == o.machine
            && Key(o'.sks.store, slot) == o.machine.hash.stream.state[..KeySize(slot)]
            && forall s :: 0 <= s < SLOTS && s != slot ==> Key(o'.sks.store, s) == Key(o.sks.store, s)
  {
    var k := o.sks.(slot := slot, command := PRODUCE_HASH);
    SlotWrite(o.sks, slot);
    CommandAdmissible(o.sks.(slot := slot), PRODUCE_HASH);
    hide Mask, Clear, Set, Key, SetKey, StoreWord, LoadWord, StoreNat, LoadNat, PRODUCE_HASH;
    OperateEndsQuiet(k, o.machine.hash);
    forall s | 0 <= s < SLOTS
      ensures Key(SetKey(o.sks.store, slot, o.machine.hash.stream.state[..KeySize(slot)]), s)
           == if s == slot then o.machine.hash.stream.state[..KeySize(slot)] else Key(o.sks.store, s)
    {
      SlotsDisjoint(o.sks.store, slot, o.machine.hash.stream.state[..KeySize(slot)], s);
    }
  }

  /** Key data written by the host at an offset into the data buffer. */
  ghost function KeyData(o: Ocs, off: nat, data: seq<byte>): Ocs
    requires Quiet(o.sks) && off + |data| <= 32
  {
    KeyDataAdmissible(o.sks, off, data);
    Step(o, ToKeys(REG_KEY_DATA + off, data))
  }

  lemma KeyDataAdmissible(k: Sks, off: nat, data: seq<byte>)
    requires Quiet(k) && off + |data| <= 32
    ensures off < 32 ==> Latch(k, REG_KEY_DATA + off, data) == Some(k.(databuf := Overwrite(k.databuf, off, data)))
    ensures InRange(k, REG_KEY_DATA + off, data)
  {
    hide Mask, LoadNat, LoadWord;
  }

  /** The bytes land in the data buffer; nothing else changes. */
  lemma KeyDataWritten(o: Ocs, off: nat, data: seq<byte>)
    requires Settled(o) && off < 32 && off + |data| <= 32
    ensures KeyData(o, off, data) == o.(sks := o.sks.(databuf := Overwrite(o.sks.databuf, off, data)))
    ensures Settled(KeyData(o, off, data))
  {
    hide Mask, LoadNat, LoadWord;
    KeyDataAdmissible(o.sks, off, data);
  }

  /** Producing from the data buffer stores it, cut to the slot's size, marks the slot valid and wipes the buffer. */
  lemma ProduceFromBuffer(o: Ocs, slot: U32)
    requires Settled(o) && slot < SLOTS
    ensures var o' := SlotCommand(o, slot, PRODUCE_CPU);
            && Settled(o') && o'.machine == o.machine
            && Key(o'.sks.store, slot) == o.sks.databuf[..KeySize(slot)] && o'.sks.databuf == Zeros(32)
            && o'.sks.atr1[slot] & 1 == 1 && o'.sks.status & 2 == o.sks.status & 2
            && forall s :: 0 <= s < SLOTS && s != slot ==>
                 Key(o'.sks.store, s) == Key(o.sks.store, s) && o'.sks.atr1[s] == o.sks.atr1[s]
  {
    var k, key := o.sks.(slot := slot, command := PRODUCE_CPU), o.sks.databuf[..KeySize(slot)];
    SlotWrite(o.sks, slot);
    CommandAdmissible(o.sks.(slot := slot), PRODUCE_CPU);
    ErrorBitKept(o.sks.status);
    ValidBitSet(o.sks.atr1[slot]);
    hide Mask, Clear, Set, Key, SetKey, StoreWord, LoadWord, StoreNat, LoadNat, PRODUCE_CPU;
    OperateEndsQuiet(k, o.machine.hash);
    forall s | 0 <= s < SLOTS
      ensures Key(SetKey(o.sks.store, slot, key), s) == if s == slot then key else Key(o.sks.store, s)
    {
      SlotsDisjoint(o.sks.store, slot, key, s);
    }
  }

  lemma ErrorBitKept(status: Word)
    ensures Clear(Set(status, STS_BUSY), STS_BUSY) & 2 == status & 2
  {
  }

  lemma ValidBitSet(atr1: Word)
    ensures Set(atr1, KEY_VALID) & 1 == 1
  {
  }

  /** A 32-byte key written by the host, then SLOT and COMMAND: the slot holds the key, cut to its size. */
  lemma KeyFromHost(o: Ocs, key: seq<byte>, slot: U32)
    requires Settled(o) && |key| == 32 && slot < SLOTS
    ensures var written := KeyData(o, 0, key);
            && Settled(written)
            && var o' := SlotCommand(written, slot, PRODUCE_CPU);
               && Settled(o') && Key(o'.sks.store, slot) == key[..KeySize(slot)] && o'.sks.databuf == Zeros(32)
               && o'.sks.atr1[slot] & 1 == 1
               && forall s :: 0 <= s < SLOTS && s != slot ==> Key(o'.sks.store, s) == Key(o.sks.store, s)
  {
    hide SlotCommand, Key, Quiet, Idle, KeyData;
    KeyDataWritten(o, 0, key);
    assert Overwrite(o.sks.databuf, 0, key) == key;
    ProduceFromBuffer(KeyData(o, 0, key), slot);
  }

  /** Producing from an engine that delivers nothing fails: no key changes and the error bit is set. */
  lemma RefusedProduce(o: Ocs, slot: U32, command: Word)
    requires Settled(o) && slot < SLOTS && command & 0x8004_0000 == 0x8004_0000
    requires command & 0x0003_0000 == 0 || command & 0x0003_0000 == 0x0002_0000
    ensures var o' := SlotCommand(o, slot, command);
            && Settled(o') && o'.machine == o.machine && o'.sks.store == o.sks.store && o'.sks.atr1 == o.sks.atr1
            && o'.sks.databuf == o.sks.databuf && o'.sks.status & 3 == 2
  {
    SlotWrite(o.sks, slot);
    CommandAdmissible(o.sks.(slot := slot), command);
    RefusedBits(command);
    FailedBits(o.sks.status);
    hide Mask, Clear, Set, Key, SetKey, StoreWord, LoadWord, StoreNat, LoadNat;
    OperateEndsQuiet(o.sks.(slot := slot, command := command), o.machine.hash);
  }

  /** A slot number past the key slots fails every command, whatever it is. */
  lemma RefusedSlot(k: Sks, h: Regs)
    requires Started(k.command) && k.slot > 22
    ensures var (k', h') := Operate(k, h);
            && h' == h && k' == k.(command := k'.command, status := k'.status)
            && !Started(k'.command) && k'.status & 3 == 2
  {
    GoCleared(k.command);
    FailedBits(k.status);
    hide Mask, Clear, Set;
  }

  /** Loading into anything but the hash engine changes no key and raises no error. */
  lemma OtherTarget(o: Ocs, slot: U32, command: Word)
    requires Settled(o) && slot < SLOTS && command & 0x8000_0000 != 0 && command & 0x0004_0000 == 0
    requires command & 0x0030_0000 != 0x0020_0000
    ensures var o' := SlotCommand(o, slot, command);
            && Settled(o') && o'.machine == o.machine && o'.sks.store == o.sks.store && o'.sks.atr1 == o.sks.atr1
            && o'.sks.status & 2 == o.sks.status & 2
  {
    SlotWrite(o.sks, slot);
    CommandAdmissible(o.sks.(slot := slot), command);
    OtherBits(command);
    ErrorBitKept(o.sks.status);
    hide Mask, Clear, Set, Key, SetKey, StoreWord, LoadWord, StoreNat, LoadNat;
    OperateEndsQuiet(o.sks.(slot := slot, command := command), o.machine.hash);
  }

  lemma OtherBits(command: Word)
    requires command & 0x8000_0000 != 0 && command & 0x0004_0000 == 0 && command & 0x0030_0000 != 0x0020_0000
    ensures Started(command) && Mask(Clear(command, CMD_GO), CMD_PRODUCE) == 0
    ensures Mask(Clear(command, CMD_GO), CMD_TARGET_MASK) != CMD_TARGET_HASH
  {
  }

  lemma RefusedBits(command: Word)
    requires command & 0x8004_0000 == 0x8004_0000
    requires command & 0x0003_0000 == 0 || command & 0x0003_0000 == 0x0002_0000
    ensures Started(command) && Mask(Clear(command, CMD_GO), CMD_PRODUCE) != 0
    ensures Mask(Clear(command, CMD_GO), CMD_SOURCE_MASK) != CMD_SOURCE_CPU
    ensures Mask(Clear(command, CMD_GO), CMD_SOURCE_MASK) != CMD_SOURCE_HASH
  {
  }

  lemma FailedBits(status: Word)
    ensures Set(Clear(Set(status, STS_BUSY), STS_BUSY), STS_ERROR) & 3 == 2
  {
  }

  /** Loading replaces as many bytes of the key register as the slot holds. */
  lemma LoadIntoHash(o: Ocs, slot: U32)
    requires Settled(o) && slot < SLOTS
    ensures var o' := SlotCommand(o, slot, LOAD_HASH);
            && Settled(o') && o'.sks.store == o.sks.store
            && o'.machine.hash == o.machine.hash.(key := Key(o.sks.store, slot) + o.machine.hash.key[KeySize(slot)..])
            && o'.machine == o.machine.(hash := o'.machine.hash)
  {
    var k, key := o.sks.(slot := slot, command := LOAD_HASH), Key(o.sks.store, slot);
    SlotWrite(o.sks, slot);
    CommandAdmissible(o.sks.(slot := slot), LOAD_HASH);
    assert Overwrite(o.machine.hash.key, 0, key) == key + o.machine.hash.key[KeySize(slot)..];
    hide Mask, Clear, Set, Key, SetKey, StoreWord, LoadWord, StoreNat, LoadNat, LOAD_HASH;
    OperateEndsQuiet(k, o.machine.hash);
    LoadKeepsTail(o.machine.hash, key);
  }

  /** The key as RFC 2104 pads it: zeros up to the block size. */
  function PaddedKey(key: seq<byte>): Block
    requires |key| <= 64
  {
    key + Zeros(64 - |key|)
  }

  /**
   Loading a slot leaves the key register equal to the slot's key zero-padded exactly when the slot
   holds 32 bytes or the register's bytes 16..31 were zero already: a short load does not clear them.
   */
  lemma LoadedKeyIsPadded(o: Ocs, slot: U32)
    requires Settled(o) && slot < SLOTS
    ensures SlotCommand(o, slot, LOAD_HASH).machine.hash.key == PaddedKey(Key(o.sks.store, slot))
       <==> slot >= 11 || o.machine.hash.key[16..32] == Zeros(16)
  {
    hide SlotCommand, Key;
    LoadIntoHash(o, slot);
    var old_, key := o.machine.hash.key, Key(o.sks.store, slot);
    assert old_[16..] == old_[16..32] + old_[32..];
    var loaded := key + old_[KeySize(slot)..];
    if slot < 11 {
      assert loaded[16..32] == old_[16..32] && PaddedKey(key)[16..32] == Zeros(16);
      if old_[16..32] == Zeros(16) {
        assert old_[16..] == Zeros(48);
      }
    }
  }

  /** A 16-byte key loaded after a 32-byte one keeps the second half of the longer key. */
  lemma ShortKeyAfterLongKey(o: Ocs, long: U32, short: U32)
    requires Settled(o) && short < 11 <= long < SLOTS && Key(o.sks.store, long)[16..] != Zeros(16)
    ensures var loaded := SlotCommand(o, long, LOAD_HASH);
            && Settled(loaded)
            && SlotCommand(loaded, short, LOAD_HASH).machine.hash.key != PaddedKey(Key(loaded.sks.store, short))
  {
    LoadIntoHash(o, long);
    var loaded := SlotCommand(o, long, LOAD_HASH);
    LoadedKeyIsPadded(loaded, short);
    hide SlotCommand, Key, Settled;
    assert loaded.machine.hash.key[16..32] == Key(o.sks.store, long)[16..];
  }

  /** Hash a message on the unit, written or fetched in any pieces, whatever came before. */
  ghost function Session(o: Ocs, mode: Word, pieces: seq<Piece>): Ocs {
    o.(machine := Flush(SupplyAll(Begin(o.machine, mode), pieces)))
  }

  /** A digest captured in a 32-byte slot and loaded back keys the next HMAC with the padded digest. */
  lemma ChainIsNestedHmac(o: Ocs, slot: U32, mode1: Word, first: seq<Piece>, mode2: Word, second: seq<Piece>)
    requires Settled(o) && 11 <= slot < SLOTS && Legal(first) && Legal(second)
    requires IsSha256(mode1) && IsSha256(mode2) && IsHmac(mode2)
    requires |Supplied(o.machine.mem, first)| < MAX_MESSAGE && |Supplied(o.machine.mem, second)| < MAX_MESSAGE
    ensures var hashed := Session(o, mode1, first);
            && Settled(hashed)
            && var produced := SlotCommand(hashed, slot, PRODUCE_HASH);
            && Settled(produced)
            && var keyed := SlotCommand(produced, slot, LOAD_HASH);
            && Session(keyed, mode2, second).machine.hash.stream.state
               == Fips.Hmac(PaddedKey(Digest(mode1, o.machine.hash.key, Supplied(o.machine.mem, first))),
                            Supplied(o.machine.mem, second))
  {
    hide Flush, SupplyAll, Begin, SlotCommand, Key, Supplied, Fips.Hmac, Fips.Sha256, Quiet, IsSha256, IsHmac, Idle,
         Legal;
    MixedSessionDigests(o.machine, mode1, first);
    var hashed := Session(o, mode1, first);
    ProduceFromHash(hashed, slot);
    var produced := SlotCommand(hashed, slot, PRODUCE_HASH);
    LoadIntoHash(produced, slot);
    LoadedKeyIsPadded(produced, slot);
    var keyed := SlotCommand(produced, slot, LOAD_HASH);
    MixedSessionDigests(keyed.machine, mode2, second);
    var d := hashed.machine.hash.stream.state;
    assert d[..32] == d;
  }
}
