/** The secure key store, updating its keys and registers in place. */
module Sks {
  import opened Options
  import opened Bytes
  import opened HashEngine
  import opened SksRegs

  class KeyStore {
    const keystore: array<byte>
    const atr1: array<Word>
    const databuf: array<byte>
    const hash: HashEngine
    var slot: U32
    var command: Word
    var status: Word

    ghost predicate Valid()
      reads this, hash
    {
      && keystore.Length == STORE_SIZE && atr1.Length == SLOTS && databuf.Length == 32 && keystore != databuf
      && hash.Valid()
      && keystore != hash.key && keystore != hash.buffer && keystore != hash.state && keystore != hash.temp
      && databuf != hash.key && databuf != hash.buffer && databuf != hash.state && databuf != hash.temp
    }

    ghost function View(): SksRegs.Sks
      requires Valid()
      reads this, hash, keystore, atr1, databuf
    {
      SksRegs.Sks(keystore[..], atr1[..], slot, command, status, databuf[..])
    }

    constructor (hash: HashEngine)
      requires hash.Valid()
      ensures Valid() && this.hash == hash
      ensures View() == SksRegs.Sks(Zeros(STORE_SIZE), seq(SLOTS, i => if i == 21 then KEY_VALID else 0),
                                   0, 0, 0, Zeros(32))
    {
      keystore := new byte[STORE_SIZE](_ => 0);
      atr1 := new Word[SLOTS](i => if i == 21 then KEY_VALID else 0);
      databuf := new byte[32](_ => 0);
      this.hash := hash;
      slot, command, status := 0, 0, 0;
    }

    method ProduceKey() returns (ok: bool)
      requires Valid() && slot < SLOTS
      modifies keystore, atr1, databuf
      ensures Valid() && Produce(old(View()), old(hash.View())) == if ok then Done(View(), hash.View()) else Failed
      ensures !ok ==> View() == old(View())
    {
      hide Mask, Set, KeyOffset;
      var source, size := Mask(command, CMD_SOURCE_MASK), KeySize(slot);
      KeyInStore(slot);
      if source == CMD_SOURCE_CPU {
        Memcpy(keystore, KeyOffset(slot), databuf[..size]);
        forall i | 0 <= i < 32 {
          databuf[i] := 0;
        }
        assert databuf[..] == Zeros(32);
      } else if source == CMD_SOURCE_HASH {
        var data := hash.GetResult(size);
        Memcpy(keystore, KeyOffset(slot), data);
      } else {
        return false;
      }
      atr1[slot] := Set(atr1[slot], KEY_VALID);
      ok := true;
    }

    method ConsumeKey()
      requires Valid() && slot < SLOTS
      modifies hash.key
      ensures Valid() && View() == old(View())
      ensures Done(View(), hash.View()) == Consume(old(View()), old(hash.View()))
    {
      hide Mask, KeyOffset;
      KeyInStore(slot);
      if Mask(command, CMD_TARGET_MASK) == CMD_TARGET_HASH {
        hash.LoadKey(keystore[KeyOffset(slot)..KeyOffset(slot) + KeySize(slot)]);
      }
    }

    /** The command proper; a failed one leaves everything as it was. */
    method ExecuteCommand() returns (ok: bool)
      requires Valid() && slot != SLOTS
      modifies keystore, atr1, databuf, hash.key
      ensures Valid() && Execute(old(View()), old(hash.View())) == if ok then Done(View(), hash.View()) else Failed
      ensures !ok ==> View() == old(View()) && hash.View() == old(hash.View())
    {
      hide Mask, Set, Clear, Produce, Consume, Key;
      if slot > SLOTS {
        return false;
      }
      if Mask(command, CMD_PRODUCE) != 0 {
        ok := ProduceKey();
      } else {
        ConsumeKey();
        ok := true;
      }
    }

    method DoOperation()
      requires Valid() && (Started(command) ==> slot != SLOTS)
      modifies this`command, this`status, keystore, atr1, databuf, hash.key
      ensures Valid() && (View(), hash.View()) == Operate(old(View()), old(hash.View()))
    {
      hide Mask, Set, Clear, Started, Execute, Key;
      if !Started(command) {
        return;
      }
      command := Clear(command, CMD_GO);
      status := Set(status, STS_BUSY);
      var ok := ExecuteCommand();
      status := Clear(status, STS_BUSY);
      if !ok {
        status := Set(status, STS_ERROR);
      }
    }

    /** The plain part of a write; false for one that is refused. */
    method LatchRegister(addr: nat, data: seq<byte>) returns (ok: bool)
      requires Valid()
      modifies this`slot, this`command, this`status, atr1, databuf
      ensures Valid() && hash.View() == old(hash.View())
      ensures Latch(old(View()), addr, data) == if ok then Some(View()) else None
      ensures !ok ==> View() == old(View())
    {
      hide LoadNat, LoadWord, Clear;
      if REG_KEY_DATA <= addr < REG_KEY_DATA + 32 {
        var i := addr - REG_KEY_DATA;
        if i + |data| > 32 {
          return false;
        }
        Memcpy(databuf, i, data);
      } else if |data| != 4 || addr % 4 != 0 {
        return false;
      }
      if addr == REG_SLOT {
        slot := LoadNat(data);
      } else if addr == REG_COMMAND {
        command := LoadWord(data);
      } else if addr == REG_STATUS {
        status := Clear(status, LoadWord(data));
      } else if REG_ATR1 <= addr < REG_ATR1 + 4 * SLOTS {
        atr1[(addr - REG_ATR1) / 4] := LoadWord(data);
      }
      return true;
    }

    /** A register write, after which a started command has run to completion. */
    method Write(addr: nat, data: seq<byte>)
      requires Valid() && InRange(View(), addr, data)
      modifies this, keystore, atr1, databuf, hash.key
      ensures Valid() && (View(), hash.View()) == WriteReg(old(View()), old(hash.View()), addr, data)
    {
      hide Operate, Started, Latch;
      var ok := LatchRegister(addr, data);
      if ok {
        DoOperation();
      }
    }

    /** A register read; None when the caller's buffer is left as it was. */
    method Read(addr: nat, count: int) returns (data: Option<seq<byte>>)
      requires Valid()
      ensures data == ReadReg(View(), addr, count)
    {
      if count != 4 || addr % 4 != 0 {
        return None;
      }
      if addr == REG_SLOT {
        data := Some(StoreNat(slot));
      } else if addr == REG_COMMAND {
        data := Some(StoreWord(command));
      } else if addr == REG_STATUS {
        data := Some(StoreWord(status));
      } else if REG_KEY_DATA <= addr < REG_KEY_DATA + 32 {
        data := Some(StoreWord(0));
      } else if REG_ATR1 <= addr < REG_ATR1 + 4 * SLOTS {
        data := Some(StoreWord(atr1[(addr - REG_ATR1) / 4]));
      } else {
        data := None;
      }
    }
  }

  lemma KeyInStore(slot: nat)
    requires slot < SLOTS
    ensures KeyOffset(slot) + KeySize(slot) <= STORE_SIZE
  {
  }
}
