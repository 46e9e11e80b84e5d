/** The secure key store's registers and keys as values, and what a register write makes of them. */
module SksRegs {
  import opened Options
  import opened Bytes
  import opened BlockStream
  import opened HashRegs

  const REG_SLOT := 0x400
  const REG_COMMAND := 0x404
  const REG_STATUS := 0x408
  const REG_KEY_DATA := 0x40C
  const REG_ATR1 := 0x42C

  const STS_BUSY: Word := 1
  const STS_ERROR: Word := 2
  const CMD_GO: Word := 0x8000_0000
  const CMD_PRODUCE: Word := 0x0004_0000
  const CMD_SOURCE_MASK: Word := 0x0003_0000
  const CMD_SOURCE_CPU: Word := 0x0001_0000
  const CMD_SOURCE_HASH: Word := 0x0003_0000
  const CMD_TARGET_MASK: Word := 0x0030_0000
  const CMD_TARGET_HASH: Word := 0x0020_0000
  const KEY_VALID: Word := 1

  const SLOTS := 22
  const STORE_SIZE := 16 * 11 + 32 * 11

  type Store = s: seq<byte> | |s| == STORE_SIZE witness Zeros(STORE_SIZE)
  type Attributes = a: seq<Word> | |a| == SLOTS witness seq(SLOTS, _ => 0)

  datatype Sks = Sks(store: Store, atr1: Attributes, slot: U32, command: Word, status: Word, databuf: State)

  /** Eleven 16-byte keys, then eleven 32-byte keys, back to back. */
  function KeyOffset(slot: nat): nat
    requires slot < SLOTS
  {
    if slot < 11 then 16 * slot else 16 * 11 + 32 * (slot - 11)
  }

  function KeySize(slot: nat): nat {
    if slot >= 11 then 32 else 16
  }

  function Key(store: Store, slot: nat): (key: seq<byte>)
    requires slot < SLOTS
    ensures |key| == KeySize(slot)
  {
    store[KeyOffset(slot)..KeyOffset(slot) + KeySize(slot)]
  }

  function SetKey(store: Store, slot: nat, key: seq<byte>): Store
    requires slot < SLOTS && |key| == KeySize(slot)
  {
    Overwrite(store, KeyOffset(slot), key)
  }

  function Mask(w: Word, mask: Word): Word { w & mask }

  function Set(w: Word, bits: Word): Word { w | bits }

  function Clear(w: Word, bits: Word): Word { w & !bits }

  function Started(command: Word): bool { Mask(command, CMD_GO) != 0 }

  /** The store, the attribute of the slot and the hash engine, as the started command leaves them; None is failure. */
  datatype Outcome = Failed | Done(sks: Sks, hash: Regs)

  function Produce(k: Sks, h: Regs): Outcome
    requires k.slot < SLOTS
  {
    var source, size := Mask(k.command, CMD_SOURCE_MASK), KeySize(k.slot);
    if source == CMD_SOURCE_CPU then
      Done(Valid(k.(store := SetKey(k.store, k.slot, k.databuf[..size]), databuf := Zeros(32))), h)
    else if source == CMD_SOURCE_HASH then
      Done(Valid(k.(store := SetKey(k.store, k.slot, h.stream.state[..size]))), h)
    else Failed
  }

  function Valid(k: Sks): Sks
    requires k.slot < SLOTS
  {
    k.(atr1 := k.atr1[k.slot := Set(k.atr1[k.slot], KEY_VALID)])
  }

  /** Loading into AES does nothing; an unknown target is logged and ignored. */
  function Consume(k: Sks, h: Regs): Outcome
    requires k.slot < SLOTS
  {
    if Mask(k.command, CMD_TARGET_MASK) == CMD_TARGET_HASH then Done(k, LoadKey(h, Key(k.store, k.slot)))
    else Done(k, h)
  }

  function Execute(k: Sks, h: Regs): Outcome
    requires k.slot != SLOTS
  {
    if k.slot > SLOTS then Failed
    else if Mask(k.command, CMD_PRODUCE) != 0 then Produce(k, h)
    else Consume(k, h)
  }

  /** A started command runs to completion: GO and BUSY end up clear, a failure raises the error bit. */
  function Operate(k: Sks, h: Regs): (Sks, Regs)
    requires Started(k.command) ==> k.slot != SLOTS
  {
    if !Started(k.command) then (k, h)
    else
      var begun := k.(command := Clear(k.command, CMD_GO), status := Set(k.status, STS_BUSY));
      match Execute(begun, h)
      case Done(k', h') => (k'.(status := Clear(k'.status, STS_BUSY)), h')
      case Failed => (begun.(status := Set(Clear(begun.status, STS_BUSY), STS_ERROR)), h)
  }

  /** The registers after the plain part of a write; None for a write that is refused. */
  function Latch(k: Sks, addr: nat, data: seq<byte>): Option<Sks> {
    if REG_KEY_DATA <= addr < REG_KEY_DATA + 32 then
      var i := addr - REG_KEY_DATA;
      if i + |data| > 32 then None else Some(k.(databuf := Overwrite(k.databuf, i, data)))
    else if |data| != 4 || addr % 4 != 0 then None
    else if addr == REG_SLOT then Some(k.(slot := LoadNat(data)))
    else if addr == REG_COMMAND then Some(k.(command := LoadWord(data)))
    else if addr == REG_STATUS then Some(k.(status := Clear(k.status, LoadWord(data))))
    else if REG_ATR1 <= addr < REG_ATR1 + 4 * SLOTS then
      Some(k.(atr1 := k.atr1[(addr - REG_ATR1) / 4 := LoadWord(data)]))
    else Some(k)
  }

  /** Slot 22 passes the range check although the last key is in slot 21; no write may start a command on it. */
  predicate InRange(k: Sks, addr: nat, data: seq<byte>) {
    match Latch(k, addr, data)
    case Some(k') => Started(k'.command) ==> k'.slot != SLOTS
    case None => true
  }

  function WriteReg(k: Sks, h: Regs, addr: nat, data: seq<byte>): (Sks, Regs)
    requires InRange(k, addr, data)
  {
    match Latch(k, addr, data)
    case Some(k') => Operate(k', h)
    case None => (k, h)
  }

  /** What a read delivers; None when the caller's buffer is left as it was. Key data reads as zero. */
  function ReadReg(k: Sks, addr: nat, count: int): Option<seq<byte>> {
    if count != 4 || addr % 4 != 0 then None
    else if addr == REG_SLOT then Some(StoreNat(k.slot))
    else if addr == REG_COMMAND then Some(StoreWord(k.command))
    else if addr == REG_STATUS then Some(StoreWord(k.status))
    else if REG_KEY_DATA <= addr < REG_KEY_DATA + 32 then Some(StoreWord(0))
    else if REG_ATR1 <= addr < REG_ATR1 + 4 * SLOTS then Some(StoreWord(k.atr1[(addr - REG_ATR1) / 4]))
    else None
  }
}
