/** The hash engine's registers as a value, and what each of its operations makes of them. */
module HashRegs {
  import opened Bytes
  import opened BlockStream
  import Fips = Fips180

  const ALGO_MASK: Word := 0x00030000
  const ALGO_SHA256: Word := 0x00020000
  const MODE_HMAC: Word := 0x00400000
  const DONE: Word := 4
  const CMD_START_DATA: Word := 1
  const CMD_FLUSH_DATA: Word := 2

  type Count = c: nat | c < TWO_64

  /** The byte counter is 64 bits wide; its low six bits are the buffer position. */
  datatype Regs = Regs(stream: Stream, count: Count, key: Block, temp: Block, mode: Word, status1: Word, status2: Word)

  const RESET := Regs(Stream(Zeros(32), Zeros(64), 0, 0), 0, Zeros(64), Zeros(64), 0, 0, 0)

  predicate IsSha256(mode: Word) { mode & ALGO_MASK == ALGO_SHA256 }

  predicate IsHmac(mode: Word) { mode & MODE_HMAC != 0 }

  /** Names the block function's value at one argument; it is defined through this name only. */
  predicate At(st: State, b: Block) { true }

  ghost predicate IsBlockFunction(mode: Word, f: BlockFn) {
    forall st: State, b: Block {:trigger At(st, b)} ::
      At(st, b) ==> f(st, b) == (if IsSha256(mode) then Fips.CompressBytes(st, b) else st)
  }

  /** The block function the mode register selects; unimplemented algorithms leave the state alone. */
  ghost function BlockFunction(mode: Word): (f: BlockFn)
    ensures IsBlockFunction(mode, f)
  {
    assert IsBlockFunction(mode, (st: State, b: Block) => if IsSha256(mode) then Fips.CompressBytes(st, b) else st);
    var f: BlockFn :| IsBlockFunction(mode, f);
    f
  }

  ghost function FeedRegs(r: Regs, data: seq<byte>): Regs {
    r.(stream := Feed(BlockFunction(r.mode), r.stream, data), count := (r.count + |data|) % TWO_64)
  }

  /** A new stream: zero count, clear status and, for SHA-256, the initial hash value. */
  function Init(r: Regs): Regs {
    r.(stream := r.stream.(pos := 0, state := if IsSha256(r.mode) then Encode(Fips.IV) else r.stream.state),
       count := 0, status1 := 0, status2 := 0)
  }

  /** Feeding the standard's padding, except that counter and position do not advance. */
  ghost function Pad(r: Regs): Regs {
    if IsSha256(r.mode)
    then r.(stream := Feed(BlockFunction(r.mode), r.stream, Fips.Padding(r.count)).(pos := r.stream.pos))
    else r
  }

  /** The second HMAC pass: a new stream holding the outer key block and the inner digest. */
  ghost function OuterMessage(r: Regs): Regs {
    FeedRegs(Init(r.(temp := Overwrite(r.temp, 0, r.stream.state))), Xor(r.key, 0x5C) + r.stream.state)
  }

  function SetDone(r: Regs): Regs {
    r.(status1 := r.status1 | DONE)
  }

  ghost function Finish(r: Regs): Regs {
    SetDone(if IsHmac(r.mode) then Pad(OuterMessage(Pad(r))) else Pad(r))
  }

  lemma SetDoneTwice(r: Regs)
    ensures SetDone(SetDone(r)) == SetDone(r)
  {
    DoneIsSet(r.status1);
  }

  lemma DoneIsSet(status: Word)
    ensures (status | DONE) | DONE == status | DONE
  {
  }

  /** START rounds the counter down to a block boundary or, for HMAC, consumes the inner key block. */
  ghost function Start(r: Regs): Regs {
    if IsHmac(r.mode) then FeedRegs(r.(stream := r.stream.(pos := 0), count := 0), Xor(r.key, 0x36))
    else r.(stream := r.stream.(pos := 0), count := r.count - r.count % 64)
  }

  ghost function Command(r: Regs, cmd: Word): Regs {
    if cmd == CMD_START_DATA then Start(r) else if cmd == CMD_FLUSH_DATA then Finish(r) else r
  }

  /** Only the first |data| bytes of the key register change. */
  function LoadKey(r: Regs, data: seq<byte>): Regs
    requires |data| <= 64
  {
    r.(key := Overwrite(r.key, 0, data))
  }

  // ----- how the operations decompose -----

  lemma CountSum(c: nat, a: nat, b: nat)
    ensures ((c + a) % TWO_64 + b) % TWO_64 == (c + (a + b)) % TWO_64
  {
  }

  /** One pass of a write loop: the chunk lands in the buffer and the counter advances by its length. */
  ghost function ChunkRegs(r: Regs, chunk: seq<byte>): Regs
    requires r.stream.pos + |chunk| <= 64
  {
    r.(stream := PutChunk(BlockFunction(r.mode), r.stream, chunk), count := (r.count + |chunk|) % TWO_64)
  }

  lemma FeedRegsNext(r: Regs, data: seq<byte>, done: nat, n: nat)
    requires done + n <= |data| && FeedRegs(r, data[..done]).stream.pos + n <= 64
    ensures FeedRegs(r, data[..done + n]) == ChunkRegs(FeedRegs(r, data[..done]), data[done..done + n])
  {
    FeedNextChunk(BlockFunction(r.mode), r.stream, data, done, n);
    CountSum(r.count, done, n);
  }

  lemma OuterSteps(r: Regs)
    ensures var s := Init(r.(temp := Overwrite(r.temp, 0, r.stream.state)));
            var t := Process(BlockFunction(r.mode), s.stream.(buffer := Xor(r.key, 0x5C)));
            OuterMessage(r) == s.(stream := t.(buffer := Overwrite(t.buffer, 0, r.stream.state), pos := 32),
                                  count := 96)
  {
    var s := Init(r.(temp := Overwrite(r.temp, 0, r.stream.state)));
    FeedBlockAndHalf(BlockFunction(r.mode), s.stream, Xor(r.key, 0x5C), r.stream.state);
  }
}
