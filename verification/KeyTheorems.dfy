/** Runs of the key store beside the hash unit, and chains from digest to key slot to HMAC. */
module KeyTheorems {
  import opened Options
  import opened Bytes
  import opened HashRegs
  import opened SksRegs

  // ----- one register write -----

  /** Slots share no byte of the store. */
  lemma SlotsDisjoint(store: Store, slot: nat, key: seq<byte>, other: nat)
    requires slot < SLOTS && other < SLOTS && |key| == KeySize(slot)
    ensures Key(SetKey(store, slot, key), other) == if other == slot then key else Key(store, other)
  {
    var at, from := KeyOffset(slot), KeyOffset(other);
    if other != slot {
      assert from + KeySize(other) <= at || at + KeySize(slot) <= from;
    }
    hide KeyOffset;
    var after := SetKey(store, slot, key);
    forall i | 0 <= i < KeySize(other)
      ensures Key(after, other)[i] == after[from + i] == if other == slot then key[i] else Key(store, other)[i]
    {
    }
  }

  /** The key a started command produces into the selected slot, if it produces one. */
  function NewKey(k: Sks, h: Regs): Option<seq<byte>> {
    var command := Clear(k.command, CMD_GO);
    var source := Mask(command, CMD_SOURCE_MASK);
    if !Started(k.command) || k.slot >= SLOTS || Mask(command, CMD_PRODUCE) == 0 then None
    else if source == CMD_SOURCE_CPU then Some(k.databuf[..KeySize(k.slot)])
    else if source == CMD_SOURCE_HASH then Some(h.stream.state[..KeySize(k.slot)])
    else None
  }

  lemma GoCleared(command: Word)
    ensures !Started(Clear(command, CMD_GO))
  {
    assert (command & !0x8000_0000) & 0x8000_0000 == 0;
  }

  lemma BusyCleared(status: Word)
    ensures Mask(Clear(status, STS_BUSY), STS_BUSY) == 0
    ensures Mask(Set(Clear(status, STS_BUSY), STS_ERROR), STS_BUSY) == 0
  {
    assert (status & !1) & 1 == 0;
    assert ((status & !1) | 2) & 1 == 0;
  }

  lemma BusyStaysClear(status: Word, bits: Word)
    requires Mask(status, STS_BUSY) == 0
    ensures Mask(Clear(status, bits), STS_BUSY) == 0
  {
    assert status & 1 == 0;
    assert (status & !bits) & 1 == (status & 1) & !bits;
  }

  /** No command is pending. */
  predicate Quiet(k: Sks) {
    !Started(k.command) && Mask(k.status, STS_BUSY) == 0
  }

  lemma OperateEndsQuiet(k: Sks, h: Regs)
    requires Started(k.command) && k.slot != SLOTS
    ensures Quiet(Operate(k, h).0)
  {
    var begun := k.(command := Clear(k.command, CMD_GO), status := Set(k.status, STS_BUSY));
    GoCleared(k.command);
    BusyCleared(begun.status);
    hide Mask, Set, Clear, SetKey, Key, Started;
  }

  lemma LatchKeeps(k: Sks, addr: nat, data: seq<byte>)
    requires Quiet(k)
    ensures match Latch(k, addr, data)
            case Some(k1) =>
              k1.store == k.store && Mask(k1.status, STS_BUSY) == 0
              && (addr != REG_COMMAND ==> !Started(k1.command))
            case None => true
  {
    hide Mask, Set, Clear, LoadWord, LoadNat;
    if |data| == 4 {
      BusyStaysClear(k.status, LoadWord(data));
    }
  }

  /**
   Every write ends with GO and BUSY clear. Only a COMMAND write can change a key, and then only the
   selected slot's, which becomes the data buffer or the hash state cut to the slot's size.
   */
  lemma WriteIsLocal(k: Sks, h: Regs, addr: nat, data: seq<byte>, slot: nat)
    requires InRange(k, addr, data) && Quiet(k) && slot < SLOTS
    ensures var (k', h') := WriteReg(k, h, addr, data);
            && Quiet(k')
            && (Key(k'.store, slot) != Key(k.store, slot) ==>
                  && addr == REG_COMMAND && slot == k'.slot == k.slot
                  && Key(k'.store, slot) in {k.databuf[..KeySize(slot)], h.stream.state[..KeySize(slot)]})
  {
    LatchKeeps(k, addr, data);
    match Latch(k, addr, data)
    case None =>
    case Some(k1) =>
      hide Operate, Mask, Clear, LoadWord, LoadNat, SetKey, Key;
      if Started(k1.command) {
        OperateEndsQuiet(k1, h);
        match NewKey(k1, h)
        case Some(key) => SlotsDisjoint(k.store, k.slot, key, slot);
        case None =>
      }
  }
}
