/** Data for the hash engine in any number of pieces, each one written to the data register or fetched by DMA. */
module Supply {
  import opened Bytes
  import opened HashRegs
  import opened GpdmaRegs
  import opened HashPort
  import opened StreamTheorems
  import opened SessionTheorems
  import DmaSessions
  import DmaTheorems

  datatype Piece = Written(data: seq<byte>) | Fetched(addr: U32, n: U32)

  function PieceData(mem: Memory, p: Piece): seq<byte> {
    match p
    case Written(data) => data
    case Fetched(addr, n) => BusRead(mem, addr, n)
  }

  /** Address zero would stand for the internal port. */
  predicate Legal(pieces: seq<Piece>) { forall p :: p in pieces && p.Fetched? ==> p.addr != 0 }

  /** All the bytes, in order. */
  function Supplied(mem: Memory, pieces: seq<Piece>): seq<byte> {
    if pieces == [] then []
    else Supplied(mem, pieces[..|pieces| - 1]) + PieceData(mem, pieces[|pieces| - 1])
  }

  ghost function SupplyOne(m: Machine, p: Piece): Machine {
    match p
    case Written(data) => WriteReg(m, REG_DATA, data)
    case Fetched(addr, n) => DmaSessions.DmaIn(m, addr, n)
  }

  ghost function SupplyAll(m: Machine, pieces: seq<Piece>): Machine {
    if pieces == [] then m else SupplyOne(SupplyAll(m, pieces[..|pieces| - 1]), pieces[|pieces| - 1])
  }

  /** No transfer is pending, so the transfer registers can be programmed. */
  predicate Idle(m: Machine) { m.dma.control & GO == 0 }

  /** The engine has changed as given; nothing else has but the transfer registers and the bounce buffer. */
  ghost predicate Leaves(m: Machine, t: Machine, hash: Regs) { t.hash == hash && t.mem == m.mem && Idle(t) }

  lemma OneFeeds(m: Machine, p: Piece)
    requires Idle(m) && Legal([p])
    ensures Leaves(m, SupplyOne(m, p), FeedRegs(m.hash, PieceData(m.mem, p)))
  {
    assert p in [p];
    hide WriteReg, FeedRegs, BusRead, DmaSessions.DmaIn, Idle;
    match p
    case Written(data) => DataWrite(m, data);
    case Fetched(addr, n) =>
      IdleMeans(m);
      DmaSessions.DmaInIsDataWrite(m, addr, n);
      DataWrite(m, BusRead(m.mem, addr, n));
      IdleMeans(DmaSessions.DmaIn(m, addr, n));
  }

  lemma IdleMeans(m: Machine)
    ensures Idle(m) <==> m.dma.control & GO == 0
  {
  }

  /** However the data is cut and whichever way each piece comes, the engine takes in the same bytes as in one write. */
  lemma {:induction false} SupplyFeeds(m: Machine, pieces: seq<Piece>)
    requires Idle(m) && Legal(pieces)
    ensures Leaves(m, SupplyAll(m, pieces), FeedRegs(m.hash, Supplied(m.mem, pieces)))
    decreases |pieces|
  {
    hide FeedRegs, PieceData, SupplyOne, Idle;
    if pieces == [] {
      DmaTheorems.FeedRegsEmpty(m.hash);
    } else {
      var front, last := pieces[..|pieces| - 1], pieces[|pieces| - 1];
      SupplyFeeds(m, front);
      OneFeeds(SupplyAll(m, front), last);
      DmaTheorems.FeedRegsConcat(m.hash, Supplied(m.mem, front), PieceData(m.mem, last));
    }
  }

  lemma FeedKeeps(r: Regs, data: seq<byte>)
    ensures FeedRegs(r, data).key == r.key && FeedRegs(r, data).mode == r.mode
  {
  }

  /** MODE, START, any mix of writes and transfers and FLUSH digest all the bytes, or their HMAC under the key. */
  lemma MixedSessionDigests(m: Machine, mode: Word, pieces: seq<Piece>)
    requires IsSha256(mode) && Idle(m) && Legal(pieces) && |Supplied(m.mem, pieces)| < MAX_MESSAGE
    ensures var e := Flush(SupplyAll(Begin(m, mode), pieces));
            && e.hash.stream.state == Digest(mode, m.hash.key, Supplied(m.mem, pieces)) && e.hash.stream.stateptr == 0
            && e.hash.status1 & DONE == DONE && e.hash.key == m.hash.key && e.mem == m.mem && Idle(e)
  {
    hide Holds, Digest, Finish, Begin, WriteReg, FeedRegs, Supplied, SupplyAll, Idle, Legal;
    var b, data := Begin(m, mode), Supplied(m.mem, pieces);
    BeginHolds(m, mode);
    IdleMeans(m);
    IdleMeans(b);
    SupplyFeeds(b, pieces);
    FeedHolds(b.hash, Prefix(mode, m.hash.key), data);
    FeedKeeps(b.hash, data);
    CommandWrite(SupplyAll(b, pieces), CMD_FLUSH_DATA);
    IdleMeans(SupplyAll(b, pieces));
    IdleMeans(Flush(SupplyAll(b, pieces)));
    FinishDigests(FeedRegs(b.hash, data), data);
  }
}
