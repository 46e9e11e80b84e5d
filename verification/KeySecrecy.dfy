/** Register reads of the key store never tell keys apart: what they deliver does not depend on any key material. */
module KeySecrecy {
  import opened Options
  import opened Bytes
  import opened HashRegs
  import opened SksRegs
  import opened OcsTheorems
  import HashPort

  /** The same registers in front of what may be other keys, other key data and another hash engine. */
  predicate LookAlike(k: Sks, l: Sks) {
    k.slot == l.slot && k.command == l.command && k.status == l.status && k.atr1 == l.atr1
  }

  predicate IsKeyData(addr: nat) { 0x40C <= addr < 0x42C }

  /** The same access, but for key data written to the same place and for anything done to the hash unit. */
  predicate SameButSecrets(a: Access, b: Access) {
    match a
    case ToKeys(addr, data) =>
      b.ToKeys? && b.keyAddr == addr && |b.data| == |data| && (IsKeyData(addr) || b.data == data)
    case FromKeys(_, _) => b == a
    case ToHash(_, _) => b.ToHash? || b.FromHash?
    case FromHash(_, _) => b.ToHash? || b.FromHash?
  }

  ghost predicate AllSame(xs: seq<Access>, ys: seq<Access>) {
    |xs| == |ys| && forall i :: 0 <= i < |xs| ==> SameButSecrets(xs[i], ys[i])
  }

  /** What the key store's reads deliver in a run, in order. */
  ghost predicate Answers(o: Ocs, accesses: seq<Access>, answers: seq<Option<seq<byte>>>)
    decreases accesses
  {
    if accesses == [] then answers == []
    else
      && Admissible(o, accesses[0])
      && if accesses[0].FromKeys? then
           && answers != [] && answers[0] == ReadReg(o.sks, accesses[0].keyAddr, accesses[0].count)
           && Answers(o, accesses[1..], answers[1..])
         else Answers(Step(o, accesses[0]), accesses[1..], answers)
  }

  lemma AlikeRead(k: Sks, l: Sks, addr: nat, count: int)
    requires LookAlike(k, l)
    ensures ReadReg(k, addr, count) == ReadReg(l, addr, count)
  {
  }

  lemma AlikeLatch(k: Sks, l: Sks, a: Access, b: Access)
    requires LookAlike(k, l) && SameButSecrets(a, b) && a.ToKeys?
    ensures match (Latch(k, a.keyAddr, a.data), Latch(l, b.keyAddr, b.data))
            case (Some(k'), Some(l')) => LookAlike(k', l')
            case (None, None) => true
            case _ => false
  {
    hide LoadWord, LoadNat, Clear;
  }

  /** Both fail, or both are done and still look alike. */
  predicate SameOutcome(a: Outcome, b: Outcome) { a.Done? == b.Done? && (a.Done? ==> LookAlike(a.sks, b.sks)) }

  lemma AlikeProduce(k: Sks, l: Sks, g: Regs, h: Regs)
    requires LookAlike(k, l) && k.slot < SLOTS
    ensures SameOutcome(Produce(k, g), Produce(l, h))
  {
    hide Mask, Set, SetKey, KeySize;
  }

  lemma AlikeExecute(k: Sks, l: Sks, g: Regs, h: Regs)
    requires LookAlike(k, l) && k.slot != SLOTS
    ensures SameOutcome(Execute(k, g), Execute(l, h))
  {
    hide Mask, Produce, Key, LoadKey;
    if k.slot < SLOTS {
      AlikeProduce(k, l, g, h);
    }
  }

  lemma AlikeOperate(k: Sks, l: Sks, g: Regs, h: Regs)
    requires LookAlike(k, l) && (Started(k.command) ==> k.slot != SLOTS)
    ensures LookAlike(Operate(k, g).0, Operate(l, h).0)
  {
    hide Started, Set, Clear, Execute;
    if Started(k.command) {
      var command, status := Clear(k.command, CMD_GO), Set(k.status, STS_BUSY);
      AlikeExecute(k.(command := command, status := status), l.(command := command, status := status), g, h);
    }
  }

  lemma AlikeStep(o: Ocs, p: Ocs, a: Access, b: Access)
    requires LookAlike(o.sks, p.sks) && SameButSecrets(a, b)
    ensures Admissible(o, a) <==> Admissible(p, b)
    ensures Admissible(o, a) ==> LookAlike(Step(o, a).sks, Step(p, b).sks)
  {
    hide Operate, Latch, HashPort.WriteReg, HashPort.AfterRead, Started;
    if a.ToKeys? {
      AlikeLatch(o.sks, p.sks, a, b);
      match Latch(o.sks, a.keyAddr, a.data)
      case None =>
      case Some(k) =>
        var l := Latch(p.sks, b.keyAddr, b.data).value;
        if Started(k.command) ==> k.slot != SLOTS {
          AlikeOperate(k, l, o.machine.hash, p.machine.hash);
        }
    }
  }

  /**
   Two runs from states that differ in keys, key data and the hash unit only, with the same accesses but for the key
   data written and whatever is done to the hash unit: every read of the key store delivers the same in both.
   */
  lemma {:induction false} ReadsRevealNothing(o: Ocs, p: Ocs, xs: seq<Access>, ys: seq<Access>,
                                              answers: seq<Option<seq<byte>>>)
    requires LookAlike(o.sks, p.sks) && AllSame(xs, ys)
    ensures Answers(o, xs, answers) <==> Answers(p, ys, answers)
    decreases |xs|
  {
    hide LookAlike, SameButSecrets, Admissible, Step, ReadReg;
    if xs != [] {
      var a, b := xs[0], ys[0];
      assert SameButSecrets(a, b);
      AlikeStep(o, p, a, b);
      BothReads(a, b);
      if a.FromKeys? {
        AlikeRead(o.sks, p.sks, a.keyAddr, a.count);
        if answers != [] {
          ReadsRevealNothing(o, p, xs[1..], ys[1..], answers[1..]);
        }
      } else if Admissible(o, a) {
        ReadsRevealNothing(Step(o, a), Step(p, b), xs[1..], ys[1..], answers);
      }
    }
  }

  lemma BothReads(a: Access, b: Access)
    requires SameButSecrets(a, b)
    ensures a.FromKeys? ==> b == a
    ensures b.FromKeys? ==> a == b
  {
  }

  /** By register address: slot, command, status and attributes read as they are, and key data as zero. */
  lemma ReadsByAddress(k: Sks, slot: nat)
    requires slot < 22
    ensures ReadReg(k, 0x400, 4) == Some(StoreNat(k.slot)) && ReadReg(k, 0x404, 4) == Some(StoreWord(k.command))
    ensures ReadReg(k, 0x408, 4) == Some(StoreWord(k.status))
    ensures ReadReg(k, 0x42C + 4 * slot, 4) == Some(StoreWord(k.atr1[slot]))
    ensures forall addr: nat :: IsKeyData(addr) && addr % 4 == 0 ==> ReadReg(k, addr, 4) == Some(StoreWord(0))
  {
    hide StoreNat, StoreWord;
  }
}
