/**
 Software multiplexing of one hash engine: a host saves the running state and byte count of a stream
 at a block boundary and later restores them by register writes, with other streams in between.
 */
module SaveRestore {
  import opened Options
  import opened Bytes
  import opened BlockStream
  import opened HashRegs
  import opened GpdmaRegs
  import opened HashPort
  import opened StreamTheorems
  import opened SessionTheorems
  import opened Supply
  import Fips = Fips180

  /** What the host keeps of a stream: mode, the state bytes and both halves of the count. */
  datatype Context = Context(mode: Word, state: seq<byte>, countL: seq<byte>, countH: seq<byte>)

  // ----- reading the state words -----

  ghost function Delivered(read: Option<seq<byte>>): seq<byte> {
    match read
    case Some(data) => data
    case None => []
  }

  /** The bytes n consecutive reads of the state register deliver, and the machine after them. */
  ghost function ReadState(m: Machine, n: nat): (seq<byte>, Machine) {
    if n == 0 then ([], m)
    else
      var (out, m') := ReadState(m, n - 1);
      (out + Delivered(ReadReg(m', REG_HASH, 4)), AfterRead(m', REG_HASH, 4))
  }

  ghost function AtIndex(m: Machine, stateptr: nat): Machine {
    m.(hash := m.hash.(stream := m.hash.stream.(stateptr := stateptr)))
  }

  lemma {:induction false} ReadStateWords(m: Machine, n: nat)
    requires m.hash.stream.stateptr == 0 && n <= 8
    ensures ReadState(m, n) == (m.hash.stream.state[..4 * n], AtIndex(m, 4 * n))
  {
    if n > 0 {
      ReadStateWords(m, n - 1);
      var s := m.hash.stream.state;
      assert s[..4 * (n - 1)] + s[4 * (n - 1)..4 * n] == s[..4 * n];
    }
  }

  /** Past the last word, reads deliver nothing. */
  lemma {:induction false} ReadsNothingPastEnd(m: Machine, n: nat)
    requires m.hash.stream.stateptr > 28
    ensures ReadState(m, n) == ([], m)
  {
    if n > 0 {
      ReadsNothingPastEnd(m, n - 1);
      assert [] + Delivered(ReadReg(m, REG_HASH, 4)) == [];
    }
  }

  // ----- writing the state words -----

  ghost function WriteStateWords(m: Machine, state: seq<byte>, n: nat): Machine
    requires |state| == 32 && n <= 8
  {
    if n == 0 then m else WriteReg(WriteStateWords(m, state, n - 1), REG_HASH, state[4 * (n - 1)..4 * n])
  }

  lemma StateWrite(m: Machine, data: seq<byte>)
    requires |data| == 4
    ensures WriteReg(m, REG_HASH, data) == m.(hash := WriteState(m.hash, data))
  {
    hide WriteState;
  }

  lemma {:induction false} StateWordsWritten(m: Machine, state: seq<byte>, n: nat)
    requires |state| == 32 && n <= 8 && m.hash.stream.stateptr == 0
    ensures WriteStateWords(m, state, n)
         == m.(hash := m.hash.(stream := m.hash.stream.(state := state[..4 * n] + m.hash.stream.state[4 * n..],
                                                          stateptr := 4 * n)))
  {
    hide WriteReg;
    var old_ := m.hash.stream.state;
    if n == 0 {
      assert state[..0] + old_[0..] == old_;
    } else {
      StateWordsWritten(m, state, n - 1);
      StateWrite(WriteStateWords(m, state, n - 1), state[4 * (n - 1)..4 * n]);
      assert Overwrite(state[..4 * (n - 1)] + old_[4 * (n - 1)..], 4 * (n - 1), state[4 * (n - 1)..4 * n])
          == state[..4 * n] + old_[4 * n..];
    }
  }

  // ----- saving and restoring -----

  ghost function Save(m: Machine): (Context, Machine) {
    var (state, m') := ReadState(m, 8);
    (Context(m.hash.mode, state, Delivered(ReadReg(m', REG_COUNTL, 4)), Delivered(ReadReg(m', REG_COUNTH, 4))), m')
  }

  /** MODE, eight HASH writes, COUNTL and COUNTH; no START. */
  ghost function Restore(m: Machine, c: Context): Machine
    requires |c.state| == 32
  {
    var moded := WriteStateWords(WriteReg(m, REG_MODE, StoreWord(c.mode)), c.state, 8);
    WriteReg(WriteReg(moded, REG_COUNTL, c.countL), REG_COUNTH, c.countH)
  }

  /** The context stands for a stream that has taken in m, a whole number of blocks. */
  ghost predicate Represents(c: Context, m: seq<byte>) {
    && IsSha256(c.mode) && |m| % 64 == 0 && |m| < TWO_64
    && |c.state| == 32 && c.state == Chain(BlockFunction(c.mode), Encode(Fips.IV), m)
    && c.countL == StoreNat(|m| % TWO_32) && c.countH == StoreNat(|m| / TWO_32)
  }

  lemma ContextShape(c: Context, p: seq<byte>)
    requires Represents(c, p)
    ensures |c.state| == 32 && |p| % 64 == 0 && |p| < TWO_64
  {
  }

  lemma HalvesRestored(count: Count, n: Count)
    ensures WithHigh(WithLow(count, n % TWO_32), n / TWO_32) == n
  {
  }

  lemma CountWrites(m: Machine, n: Count)
    ensures WriteReg(WriteReg(m, REG_COUNTL, StoreNat(n % TWO_32)), REG_COUNTH, StoreNat(n / TWO_32))
      == m.(hash := SetCount(m.hash, n))
  {
    hide StoreNat, LoadNat, WithLow, WithHigh;
    LoadStoreNat(n % TWO_32);
    LoadStoreNat(n / TWO_32);
    HalvesRestored(m.hash.count, n);
  }

  /** Restoring gives the engine the saved stream, whatever was left in it by others. */
  lemma RestoreHolds(m: Machine, c: Context, p: seq<byte>)
    requires Represents(c, p)
    ensures var r := Restore(m, c);
            && Holds(r.hash, p) && r.hash.stream.stateptr == 32 && r.hash.mode == c.mode
            && r.hash.key == m.hash.key && r == m.(hash := r.hash)
  {
    hide WriteReg, BlockFunction, Fips.IV, StoreNat;
    ModeWrite(m, c.mode);
    var moded := m.(hash := WriteMode(m.hash, c.mode));
    StateWordsWritten(moded, c.state, 8);
    var stated := WriteStateWords(moded, c.state, 8);
    assert c.state[..32] == c.state && moded.hash.stream.state[32..] == [];
    assert stated.hash.stream.state == c.state;
    CountWrites(stated, |p|);
    assert p[..Whole(p)] == p && p[Whole(p)..] == [];
  }

  /** At a block boundary, with the index rewound, the host reads back exactly the running stream. */
  lemma SaveRepresents(m: Machine, p: seq<byte>)
    requires Holds(m.hash, p) && |p| % 64 == 0 && m.hash.stream.stateptr == 0
    ensures var (c, m') := Save(m);
            Represents(c, p) && c.mode == m.hash.mode && m'.hash.key == m.hash.key && m' == m.(hash := m'.hash)
  {
    hide BlockFunction, Fips.IV, StoreNat;
    ReadStateWords(m, 8);
    assert p[..Whole(p)] == p;
    assert m.hash.stream.state[..32] == m.hash.stream.state;
  }

  /** Feeding leaves key and mode, and rewinds the index when a block was completed. */
  lemma FeedRewindsIndex(r: Regs, data: seq<byte>)
    ensures var f := FeedRegs(r, data);
            && f.key == r.key && f.mode == r.mode
            && f.stream.stateptr == if r.stream.pos + |data| >= 64 then 0 else r.stream.stateptr
  {
    FeedRewinds(BlockFunction(r.mode), r.stream, data);
  }

  // ----- one turn of a stream on the shared engine -----

  /** Restore, supply some data in any pieces, save. */
  ghost function Turn(m: Machine, c: Context, pieces: seq<Piece>): (Context, Machine)
    requires |c.state| == 32
  {
    Save(SupplyAll(Restore(m, c), pieces))
  }

  /** Ready for the next turn: same memory, same key, no transfer pending. */
  ghost predicate Ready(m: Machine, t: Machine) { t.mem == m.mem && t.hash.key == m.hash.key && Idle(t) }

  lemma RestoreReady(m: Machine, c: Context, p: seq<byte>)
    requires Represents(c, p) && Idle(m)
    ensures |c.state| == 32 && Ready(m, Restore(m, c))
  {
    hide Represents, Restore, Holds;
    ContextShape(c, p);
    RestoreHolds(m, c, p);
  }

  /** A turn of at least one whole block, in any pieces, extends the stream by exactly its data. */
  lemma TurnExtends(m: Machine, c: Context, p: seq<byte>, pieces: seq<Piece>)
    requires Represents(c, p) && Idle(m) && Legal(pieces)
    requires var data := Supplied(m.mem, pieces); data != [] && |data| % 64 == 0 && |p| + |data| < TWO_64
    ensures |c.state| == 32
    ensures var (c', m') := Turn(m, c, pieces);
            Represents(c', p + Supplied(m.mem, pieces)) && c'.mode == c.mode && Ready(m, m')
  {
    hide Holds, Represents, Restore, Save, BlockFunction, Supplied, SupplyAll, FeedRegs, Idle;
    var data := Supplied(m.mem, pieces);
    ContextShape(c, p);
    RestoreReady(m, c, p);
    RestoreHolds(m, c, p);
    var r := Restore(m, c);
    SupplyFeeds(r, pieces);
    FeedHolds(r.hash, p, data);
    FeedRewindsIndex(r.hash, data);
    var t := SupplyAll(r, pieces);
    SaveRepresents(t, p + data);
    SaveKeepsIdle(t);
  }

  lemma SaveKeepsIdle(m: Machine)
    requires m.hash.stream.stateptr == 0 && Idle(m)
    ensures Idle(Save(m).1) && Save(m).1.mem == m.mem
  {
    ReadStateWords(m, 8);
  }

  /** Without a whole block in between, the index still points past the state and the host reads nothing. */
  lemma ShortTurnLosesState(m: Machine, c: Context, p: seq<byte>, pieces: seq<Piece>)
    requires Represents(c, p) && Idle(m) && Legal(pieces) && |Supplied(m.mem, pieces)| < 64
    ensures |c.state| == 32 && Turn(m, c, pieces).0.state == []
  {
    hide Holds, Represents, Restore, Supplied, SupplyAll, FeedRegs, ReadState, Idle;
    ContextShape(c, p);
    RestoreReady(m, c, p);
    RestoreHolds(m, c, p);
    var r := Restore(m, c);
    AtBoundary(r.hash, p);
    SupplyFeeds(r, pieces);
    FeedRewindsIndex(r.hash, Supplied(m.mem, pieces));
    ReadsNothingPastEnd(SupplyAll(r, pieces), 8);
  }

  lemma AtBoundary(r: Regs, p: seq<byte>)
    requires Holds(r, p) && |p| % 64 == 0
    ensures r.stream.pos == 0
  {
  }

  /** A turn leaves a context that stands for all the data exactly when it supplies whole blocks, at least one. */
  lemma TurnSavesExactlyWholeBlocks(m: Machine, c: Context, p: seq<byte>, pieces: seq<Piece>)
    requires Represents(c, p) && Idle(m) && Legal(pieces) && |p| + |Supplied(m.mem, pieces)| < TWO_64
    ensures |c.state| == 32
    ensures var data := Supplied(m.mem, pieces);
            Represents(Turn(m, c, pieces).0, p + data) <==> data != [] && |data| % 64 == 0
  {
    hide Represents, Turn, Supplied, Idle, Legal;
    var data := Supplied(m.mem, pieces);
    ContextShape(c, p);
    if |data| < 64 {
      ShortTurnLosesState(m, c, p, pieces);
    } else if |data| % 64 == 0 {
      TurnExtends(m, c, p, pieces);
    }
    if Represents(Turn(m, c, pieces).0, p + data) {
      ContextShape(Turn(m, c, pieces).0, p + data);
    }
  }

  // ----- the first and the last turn of a stream -----

  /** A freshly begun stream can be saved at once. */
  lemma FreshContext(m: Machine, mode: Word)
    requires IsSha256(mode) && Idle(m)
    ensures var (c, m') := Save(Begin(m, mode));
            Represents(c, Prefix(mode, m.hash.key)) && c.mode == mode && Ready(m, m')
  {
    hide Holds, Begin, Save, Represents;
    BeginHolds(m, mode);
    SaveRepresents(Begin(m, mode), Prefix(mode, m.hash.key));
    SaveKeepsIdle(Begin(m, mode));
  }

  /** Restoring a stream, supplying the rest of its message and flushing gives the digest of the whole message. */
  lemma ResumeDigests(m: Machine, c: Context, p: seq<byte>, rest: seq<Piece>)
    requires Represents(c, Prefix(c.mode, m.hash.key) + p) && Idle(m) && Legal(rest)
    requires |p| + |Supplied(m.mem, rest)| < MAX_MESSAGE
    ensures |c.state| == 32
    ensures var e := Flush(SupplyAll(Restore(m, c), rest));
            && e.hash.stream.state == Digest(c.mode, m.hash.key, p + Supplied(m.mem, rest))
            && e.hash.stream.stateptr == 0 && Ready(m, e)
  {
    hide Represents, Holds, Finish, Start, Restore, FeedRegs, Digest, WriteReg, Supplied, SupplyAll, Idle;
    var whole, data := Prefix(c.mode, m.hash.key) + p, Supplied(m.mem, rest);
    RestoreReady(m, c, whole);
    RestoreHolds(m, c, whole);
    var r := Restore(m, c);
    SupplyFeeds(r, rest);
    FeedHolds(r.hash, whole, data);
    FeedRewindsIndex(r.hash, data);
    CommandWrite(SupplyAll(r, rest), CMD_FLUSH_DATA);
    IdleMeans(SupplyAll(r, rest));
    IdleMeans(Flush(SupplyAll(r, rest)));
    assert whole + data == Prefix(c.mode, m.hash.key) + (p + data);
    FinishDigests(FeedRegs(r.hash, data), p + data);
  }
}
