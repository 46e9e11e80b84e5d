/** What DMA transactions amount to: one long write to the hash engine, or a copy within bus memory. */
module DmaTheorems {
  import opened Bytes
  import opened BlockStream
  import opened HashRegs
  import opened GpdmaRegs

  lemma FeedRegsConcat(r: Regs, a: seq<byte>, b: seq<byte>)
    ensures FeedRegs(r, a + b) == FeedRegs(FeedRegs(r, a), b)
  {
    hide BlockFunction;
    FeedConcat(BlockFunction(r.mode), r.stream, a, b);
    CountSum(r.count, |a|, |b|);
  }

  lemma FeedRegsEmpty(r: Regs)
    ensures FeedRegs(r, []) == r
  {
  }

  lemma BusReadSplit(mem: Memory, addr: nat, n: nat, k: nat)
    requires k <= n
    ensures BusRead(mem, addr, n) == BusRead(mem, addr, k) + BusRead(mem, addr + k, n - k)
  {
  }

  // ----- any transfer -----

  lemma {:induction false} TransferKeeps(m: Machine, pos: nat, count: nat)
    ensures var t := Transfer(m, pos, count); t.dma == m.dma && t.hash.key == m.hash.key
    decreases count
  {
    hide BlockFunction, BusRead, BusWrite;
    if count > 0 {
      var n := TurnSize(count);
      TransferKeeps(Deliver(Fetch(m, pos, n), pos, n), pos + n, count - n);
    }
  }

  lemma TransactionKeeps(m: Machine)
    ensures RunTransaction(m).hash.key == m.hash.key
    ensures m.dma.control & GO != 0 ==> RunTransaction(m).dma.control == m.dma.control & !GO
    ensures m.dma.control & GO == 0 ==> RunTransaction(m) == m
  {
    hide Transfer, Size;
    var s := m.(dma := m.dma.(control := m.dma.control & !GO));
    TransferKeeps(s, 0, Size(m.dma));
    if m.dma.control & GO != 0 {
      assert RunTransaction(m) == Transfer(s, 0, Size(m.dma));
    }
  }

  lemma GoCleared(control: Word)
    ensures control & !GO & GO == 0
  {
  }

  /** Wherever it comes from and goes to, a transaction ends with GO clear and leaves the key register alone. */
  lemma TransactionEnds(m: Machine)
    ensures var t := RunTransaction(m); t.dma.control & GO == 0 && t.hash.key == m.hash.key
  {
    hide RunTransaction;
    TransactionKeeps(m);
    GoCleared(m.dma.control);
  }

  // ----- bus memory to hash engine -----

  lemma TurnToHash(m: Machine, pos: nat, n: nat)
    requires m.dma.srcAddr != 0 && m.dma.dstAddr == 0 && n <= TURN
    ensures var t := Deliver(Fetch(m, pos, n), pos, n);
            t.hash == FeedRegs(m.hash, BusRead(m.mem, m.dma.srcAddr + pos, n)) && t.mem == m.mem && t.dma == m.dma
  {
    hide FeedRegs;
    var data := BusRead(m.mem, m.dma.srcAddr + pos, n);
    assert Overwrite(m.bounce, 0, data)[..n] == data;
  }

  lemma {:induction false} TransferToHash(m: Machine, pos: nat, count: nat)
    requires m.dma.srcAddr != 0 && m.dma.dstAddr == 0
    ensures var t := Transfer(m, pos, count);
            && t.hash == FeedRegs(m.hash, BusRead(m.mem, m.dma.srcAddr + pos, count))
            && t.mem == m.mem && t.dma == m.dma
    decreases count
  {
    hide FeedRegs, Fetch, Deliver;
    if count == 0 {
      assert BusRead(m.mem, m.dma.srcAddr + pos, 0) == [];
      assert FeedRegs(m.hash, []) == m.hash by { FeedRegsEmpty(m.hash); }
    } else {
      var n, at := TurnSize(count), m.dma.srcAddr + pos;
      TurnToHash(m, pos, n);
      TransferToHash(Deliver(Fetch(m, pos, n), pos, n), pos + n, count - n);
      BusReadSplit(m.mem, at, count, n);
      FeedRegsConcat(m.hash, BusRead(m.mem, at, n), BusRead(m.mem, at + n, count - n));
    }
  }

  /** However long the region, a transaction to the internal port equals one write of the whole region. */
  lemma DmaIsOneWrite(m: Machine)
    requires m.dma.control & GO != 0 && m.dma.srcAddr != 0 && m.dma.dstAddr == 0
    ensures var t := RunTransaction(m);
            && t.hash == FeedRegs(m.hash, BusRead(m.mem, m.dma.srcAddr, Size(m.dma)))
            && t.mem == m.mem && t.dma == m.dma.(control := m.dma.control & !GO) && t.dma.control & GO == 0
  {
    TransferToHash(m.(dma := m.dma.(control := m.dma.control & !GO)), 0, Size(m.dma));
  }

  // ----- bus memory to bus memory -----

  /** The copy alone: turns of at most 64 bytes, each read whole before it is written. */
  function Copy(mem: Memory, src: nat, dst: nat, pos: nat, count: nat): Memory
    decreases count
  {
    if count == 0 then mem
    else
      var n := TurnSize(count);
      Copy(BusWrite(mem, dst + pos, BusRead(mem, src + pos, n)), src, dst, pos + n, count - n)
  }

  lemma {:induction false} TransferCopies(m: Machine, pos: nat, count: nat)
    requires m.dma.srcAddr != 0 && m.dma.dstAddr != 0
    ensures var t := Transfer(m, pos, count);
            && t.mem == Copy(m.mem, m.dma.srcAddr, m.dma.dstAddr, pos, count) && t.hash == m.hash && t.dma == m.dma
    decreases count
  {
    hide FeedRegs, BusRead, BusWrite;
    if count > 0 {
      var n := TurnSize(count);
      var data, f := BusRead(m.mem, m.dma.srcAddr + pos, n), Fetch(m, pos, n);
      assert f.bounce[..n] == data;
      TransferCopies(Deliver(f, pos, n), pos + n, count - n);
    }
  }

  /**
   The offset whose original byte ends up at offset i of the destination, when the destination lies
   `ahead` bytes after the source: earlier turns may already have overwritten what a turn reads.
   */
  function Origin(ahead: int, i: nat): (origin: nat)
    ensures origin <= i
    decreases i
  {
    if ahead > 0 && 0 <= i - ahead < i / TURN * TURN then Origin(ahead, i - ahead) else i
  }

  /** The byte at address a after the first `pos` bytes of the copy have been moved. */
  function MovedByte(before: Memory, src: nat, dst: nat, pos: nat, a: nat): byte
    requires a < TWO_32 && src + pos <= TWO_32
  {
    if dst <= a < dst + pos then before[src + Origin(dst - src, a - dst)] else before[a]
  }

  ghost predicate Moved(before: Memory, after: Memory, src: nat, dst: nat, pos: nat)
    requires src + pos <= TWO_32
  {
    forall a :: 0 <= a < TWO_32 ==> after[a] == MovedByte(before, src, dst, pos, a)
  }

  lemma TurnByte(mem: Memory, src: nat, dst: nat, n: nat, a: nat)
    requires src + n <= TWO_32 && dst + n <= TWO_32 && a < TWO_32
    ensures BusWrite(mem, dst, BusRead(mem, src, n))[a] == if dst <= a < dst + n then mem[src + (a - dst)] else mem[a]
  {
    if a < dst {
      assert (a - dst) % TWO_32 == a - dst + TWO_32;
    }
  }

  lemma TurnStart(i: nat, pos: nat)
    requires pos % TURN == 0 && pos <= i < pos + TURN
    ensures i / TURN * TURN == pos
  {
  }

  /** A turn keeps the picture: what it reads is either original or already moved by an earlier turn. */
  lemma TurnMoves(before: Memory, mem: Memory, src: nat, dst: nat, pos: nat, n: nat)
    requires n <= TURN && pos % TURN == 0 && src + pos + n <= TWO_32 && dst + pos + n <= TWO_32
    requires Moved(before, mem, src, dst, pos)
    ensures Moved(before, BusWrite(mem, dst + pos, BusRead(mem, src + pos, n)), src, dst, pos + n)
  {
    hide BusRead, BusWrite;
    var next := BusWrite(mem, dst + pos, BusRead(mem, src + pos, n));
    forall a | 0 <= a < TWO_32 ensures next[a] == MovedByte(before, src, dst, pos + n, a) {
      TurnByte(mem, src + pos, dst + pos, n, a);
      if dst + pos <= a < dst + pos + n {
        TurnStart(a - dst, pos);
        assert mem[src + (a - dst)] == MovedByte(before, src, dst, pos, src + (a - dst));
      } else {
        assert mem[a] == MovedByte(before, src, dst, pos, a);
      }
    }
  }

  lemma {:induction false} CopyMoves(before: Memory, mem: Memory, src: nat, dst: nat, pos: nat, count: nat)
    requires pos % TURN == 0 && src + pos + count <= TWO_32 && dst + pos + count <= TWO_32
    requires Moved(before, mem, src, dst, pos)
    ensures Moved(before, Copy(mem, src, dst, pos, count), src, dst, pos + count)
    decreases count
  {
    hide Moved, BusRead, BusWrite;
    if count > 0 {
      var n := TurnSize(count);
      var next := BusWrite(mem, dst + pos, BusRead(mem, src + pos, n));
      TurnMoves(before, mem, src, dst, pos, n);
      if count > TURN {
        CopyMoves(before, next, src, dst, pos + n, count - n);
      } else {
        assert Copy(mem, src, dst, pos, count) == Copy(next, src, dst, pos + n, 0);
      }
    }
  }

  /** Every byte of memory after a bus-to-bus transaction, overlapping or not. */
  lemma DmaMoves(m: Machine)
    requires m.dma.control & GO != 0 && m.dma.srcAddr != 0 && m.dma.dstAddr != 0
    requires m.dma.srcAddr + Size(m.dma) <= TWO_32 && m.dma.dstAddr + Size(m.dma) <= TWO_32
    ensures var t := RunTransaction(m);
            && Moved(m.mem, t.mem, m.dma.srcAddr, m.dma.dstAddr, Size(m.dma))
            && t.hash == m.hash && t.dma == m.dma.(control := m.dma.control & !GO) && t.dma.control & GO == 0
  {
    hide Transfer, Copy;
    TransferCopies(m.(dma := m.dma.(control := m.dma.control & !GO)), 0, Size(m.dma));
    CopyMoves(m.mem, m.mem, m.dma.srcAddr, m.dma.dstAddr, 0, Size(m.dma));
  }

  // ----- when that is memmove -----

  /** The destination holds the original source bytes and all other memory is unchanged. */
  ghost predicate IsMemmove(before: Memory, after: Memory, src: nat, dst: nat, n: nat)
    requires src + n <= TWO_32
  {
    forall a :: 0 <= a < TWO_32 ==> after[a] == if dst <= a < dst + n then before[src + (a - dst)] else before[a]
  }

  /** One turn of 64 bytes, a destination at or below the source, or regions that do not overlap. */
  predicate SafeCopy(src: nat, dst: nat, n: nat) {
    n <= 64 || dst <= src || src + n <= dst
  }

  lemma SafeOrigin(ahead: int, i: nat, n: nat)
    requires i < n && (n <= TURN || ahead <= 0 || n <= ahead)
    ensures Origin(ahead, i) == i
  {
  }

  /** In an overlapping upward copy of more than one turn, some offset gets another offset's byte. */
  lemma ClobberedOffset(ahead: int, n: nat) returns (i: nat)
    requires n > TURN && 0 < ahead < n
    ensures i < n && Origin(ahead, i) != i
  {
    i := if ahead <= TURN then TURN else ahead;
    assert i / TURN * TURN >= TURN && i / TURN * TURN > i - ahead;
  }

  lemma MovedAt(before: Memory, after: Memory, src: nat, dst: nat, n: nat, a: nat)
    requires src + n <= TWO_32 && Moved(before, after, src, dst, n) && a < TWO_32
    ensures after[a] == MovedByte(before, src, dst, n, a)
  {
  }

  lemma NotMemmove(before: Memory, after: Memory, src: nat, dst: nat, n: nat, i: nat)
    requires src + n <= TWO_32 && dst + n <= TWO_32 && i < n && after[dst + i] != before[src + i]
    ensures !IsMemmove(before, after, src, dst, n)
  {
    var a := dst + i;
    assert after[a] != before[src + (a - dst)];
  }

  /** The engine's copy is memmove for every memory content exactly when the regions are safe. */
  lemma MemmoveExactlyWhenSafe(m: Machine)
    requires m.dma.control & GO != 0 && m.dma.srcAddr != 0 && m.dma.dstAddr != 0
    requires m.dma.srcAddr + Size(m.dma) <= TWO_32 && m.dma.dstAddr + Size(m.dma) <= TWO_32
    ensures (forall mem: Memory ::
               IsMemmove(mem, RunTransaction(m.(mem := mem)).mem, m.dma.srcAddr, m.dma.dstAddr, Size(m.dma)))
       <==> SafeCopy(m.dma.srcAddr, m.dma.dstAddr, Size(m.dma))
  {
    hide RunTransaction, IsMemmove, Moved;
    var src, dst, n := m.dma.srcAddr, m.dma.dstAddr, Size(m.dma);
    if SafeCopy(src, dst, n) {
      forall mem: Memory ensures IsMemmove(mem, RunTransaction(m.(mem := mem)).mem, src, dst, n) {
        DmaMoves(m.(mem := mem));
        SafeMoveIsMemmove(mem, RunTransaction(m.(mem := mem)).mem, src, dst, n);
      }
    } else {
      var i := ClobberedOffset(dst - src, n);
      var mem: Memory := Zeros(TWO_32)[src + i := 1];
      DmaMoves(m.(mem := mem));
      var after := RunTransaction(m.(mem := mem)).mem;
      MovedAt(mem, after, src, dst, n, dst + i);
      NotMemmove(mem, after, src, dst, n, i);
    }
  }

  lemma SafeMoveIsMemmove(before: Memory, after: Memory, src: nat, dst: nat, n: nat)
    requires src + n <= TWO_32 && SafeCopy(src, dst, n) && Moved(before, after, src, dst, n)
    ensures IsMemmove(before, after, src, dst, n)
  {
    forall a | 0 <= a < TWO_32 ensures after[a] == if dst <= a < dst + n then before[src + (a - dst)] else before[a] {
      assert after[a] == MovedByte(before, src, dst, n, a);
      if dst <= a < dst + n {
        SafeOrigin(dst - src, a - dst, n);
      }
    }
  }

  /** 65 bytes moved up by one: the last byte is read after it has been overwritten. */
  lemma MovedUpByOne(m: Machine)
    requires m.dma.control & GO != 0 && m.dma.srcAddr == 0x1000 && m.dma.dstAddr == 0x1001 && Size(m.dma) == 65
    requires m.mem == Zeros(TWO_32)[0x1040 := 1]
    ensures !IsMemmove(m.mem, RunTransaction(m).mem, 0x1000, 0x1001, 65)
  {
    hide RunTransaction, IsMemmove, Moved;
    DmaMoves(m);
    MovedAt(m.mem, RunTransaction(m).mem, 0x1000, 0x1001, 65, 0x1041);
    NotMemmove(m.mem, RunTransaction(m).mem, 0x1000, 0x1001, 65, 64);
  }
}
