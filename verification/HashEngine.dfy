/** The hash engine of the offload and crypto subsystem, updating its buffers in place. */
module HashEngine {
  import opened Bytes
  import opened BlockStream
  import opened HashRegs
  import Fips = Fips180
  import Sha256

  class HashEngine {
    const key: array<byte>
    const buffer: array<byte>
    const state: array<byte>
    const temp: array<byte>
    var count: nat
    var stateptr: nat
    var mode: Word
    var status1: Word
    var status2: Word

    ghost predicate Valid()
      reads this
    {
      && key.Length == 64 && buffer.Length == 64 && state.Length == 32 && temp.Length == 64
      && key != buffer && key != temp && buffer != temp && key != state && buffer != state && temp != state
      && count < TWO_64
    }

    ghost function StreamOf(): Stream
      requires Valid()
      reads this, buffer, state
    {
      Stream(state[..], buffer[..], count % 64, stateptr)
    }

    ghost function View(): Regs
      requires Valid()
      reads this, key, buffer, state, temp
    {
      Regs(StreamOf(), count, key[..], temp[..], mode, status1, status2)
    }

    constructor ()
      ensures Valid() && View() == RESET
      ensures fresh(key) && fresh(buffer) && fresh(state) && fresh(temp)
    {
      key := new byte[64](_ => 0);
      buffer := new byte[64](_ => 0);
      state := new byte[32](_ => 0);
      temp := new byte[64](_ => 0);
      count, stateptr, mode, status1, status2 := 0, 0, 0, 0, 0;
    }

    method RoundInit()
      requires Valid()
      modifies this, state
      ensures Valid() && View() == Init(old(View()))
    {
      count, status1, status2 := 0, 0, 0;
      if IsSha256(mode) {
        Sha256.InitBytes(state);
      }
    }

    method RoundProcess()
      requires Valid()
      modifies this`stateptr, state
      ensures Valid() && StreamOf() == Process(BlockFunction(mode), old(StreamOf()))
    {
      assert At(state[..], buffer[..]);
      stateptr := 0;
      if IsSha256(mode) {
        Sha256.TransformBytes(state, buffer[..]);
      }
    }

    /** One pass of the write loop: memcpy up to a block boundary, and consume the block if it is full. */
    method WriteChunk(chunk: seq<byte>)
      requires Valid() && chunk != [] && count % 64 + |chunk| <= 64
      modifies this`count, this`stateptr, buffer, state
      ensures Valid() && View() == ChunkRegs(old(View()), chunk)
    {
      hide BlockFunction;
      CountInBlock(count, |chunk|);
      Memcpy(buffer, count % 64, chunk);
      count := (count + |chunk|) % TWO_64;
      if count % 64 == 0 {
        RoundProcess();
      }
    }

    /** However the data is cut at block boundaries, the result is that of feeding it byte by byte. */
    method DmaWrite(data: seq<byte>)
      requires Valid()
      modifies this`count, this`stateptr, buffer, state
      ensures Valid() && View() == FeedRegs(old(View()), data)
    {
      var done := 0;
      while done < |data|
        invariant done <= |data| && Valid() && View() == FeedRegs(old(View()), data[..done])
      {
        var rc, bp := |data| - done, count % 64;
        if rc + bp > 64 {
          rc := 64 - bp;
        }
        FeedRegsNext(old(View()), data, done, rc);
        WriteChunk(data[done..done + rc]);
        done := done + rc;
      }
      assert data[..done] == data;
    }

    /** The next padding byte goes to index `pos`; a full buffer is consumed first. */
    method PadByte(pos: nat, b: byte, ghost start: Stream, ghost pad: seq<byte>, ghost steps: seq<Stream>, ghost n: nat)
      returns (pos': nat)
      requires Valid() && pos <= 64 && n < |pad| && b == pad[n]
      requires PadPlan(BlockFunction(mode), start, pad, steps)
      requires Deferred(BlockFunction(mode), StreamOf(), pos) == steps[n]
      modifies this`stateptr, buffer, state
      ensures Valid() && pos' == pos % 64 + 1
      ensures Deferred(BlockFunction(mode), StreamOf(), pos') == steps[n + 1]
    {
      pos' := pos % 64;
      if pos == 64 {
        RoundProcess();
      }
      buffer[pos'] := b;
      pos' := pos' + 1;
    }

    /** Zero bytes up to position 56, wrapping into the next block when the length field does not fit. */
    method PadZeros(pos: nat, ghost start: Stream, ghost pad: seq<byte>, ghost zeros: nat, ghost steps: seq<Stream>)
      requires Valid() && pos == start.pos + 1
      requires PadShape(start.pos, pad, zeros) && PadPlan(BlockFunction(mode), start, pad, steps)
      requires Deferred(BlockFunction(mode), StreamOf(), pos) == steps[1]
      modifies this`stateptr, buffer, state
      ensures Valid() && Deferred(BlockFunction(mode), StreamOf(), 56) == steps[1 + zeros]
    {
      ghost var n := 1;
      var at := pos;
      while at != 56
        invariant Valid() && 1 <= n <= 1 + zeros && at == WrappedIndex(start.pos + n)
        invariant Deferred(BlockFunction(mode), StreamOf(), at) == steps[n]
        decreases 1 + zeros - n
      {
        at := PadByte(at, 0, start, pad, steps, n);
        n := n + 1;
      }
    }

    /** The eight length bytes, shifted out of a 64-bit register from the top; then the last block is consumed. */
    method PadLength(lenInBits: nat, ghost start: Stream, ghost pad: seq<byte>, ghost zeros: nat,
                     ghost steps: seq<Stream>,
                     ghost lefts: seq<nat>)
      requires Valid() && PadShape(start.pos, pad, zeros) && PadPlan(BlockFunction(mode), start, pad, steps)
      requires Deferred(BlockFunction(mode), StreamOf(), 56) == steps[1 + zeros]
      requires |lefts| == 9 && lefts[0] == lenInBits && ShiftsOut(lefts, pad[1 + zeros..])
      modifies this`stateptr, buffer, state
      ensures Valid() && StreamOf() == steps[9 + zeros].(pos := count % 64)
    {
      var left, pos := lenInBits, 56;
      ghost var field := pad[1 + zeros..];
      for i := 0 to 8
        invariant Valid() && pos == 56 + i
        invariant left == lefts[i]
        invariant Deferred(BlockFunction(mode), StreamOf(), pos) == steps[1 + zeros + i]
      {
        assert left / 0x100_0000_0000_0000 == field[i] == pad[1 + zeros + i];
        pos := PadByte(pos, left / 0x100_0000_0000_0000, start, pad, steps, 1 + zeros + i);
        left := 256 * left % TWO_64;
      }
      RoundProcess();
    }

    /** Pads the message in the buffer and consumes what is left of it. */
    method PadMessage()
      requires Valid()
      modifies this`stateptr, buffer, state
      ensures Valid() && View() == Pad(old(View()))
    {
      var pos := count % 64;
      if IsSha256(mode) {
        ghost var start := StreamOf();
        ghost var pad, zeros, lefts, steps := PlanPad(View());
        pos := PadByte(pos, 0x80, start, pad, steps, 0);
        PadZeros(pos, start, pad, zeros, steps);
        PadLength(8 * count % TWO_64, start, pad, zeros, steps, lefts);
      }
    }

    /** Fills the buffer with the key register masked byte by byte. */
    method LoadKeyBlock(mask: bv8)
      requires Valid()
      modifies buffer
      ensures Valid() && buffer[..] == Xor(key[..], mask)
    {
      for i := 0 to 64
        invariant forall n :: 0 <= n < i ==> buffer[n] == XorByte(key[n], mask)
      {
        buffer[i] := XorByte(key[i], mask);
      }
    }

    /** Sets up the outer HMAC message: a fresh stream, the outer key block, the inner digest. */
    method BeginOuter()
      requires Valid()
      modifies this, buffer, state, temp
      ensures Valid() && View() == OuterMessage(old(View()))
    {
      hide OuterMessage, BlockFunction;
      OuterSteps(View());
      ghost var digest: State := state[..];
      Memcpy(temp, 0, state[..]);
      assert temp[..32] == digest;
      RoundInit();
      LoadKeyBlock(0x5C);
      count := count + 64;
      RoundProcess();
      Memcpy(buffer, 0, temp[..32]);
      count := count + 32;
    }

    method MarkDone()
      requires Valid()
      modifies this`status1
      ensures Valid() && View() == SetDone(old(View()))
    {
      status1 := status1 | DONE;
    }

    /** Ends a message; in HMAC mode it runs the outer pass by calling itself once. */
    method RoundFinish(outer: bool)
      requires Valid()
      modifies this, buffer, state, temp
      ensures Valid() && View() == (if outer then SetDone(Pad(old(View()))) else Finish(old(View())))
      decreases !outer
    {
      ghost var r := View();
      assert r.mode == mode;
      hide Pad, OuterMessage, SetDone, IsHmac, HashEngine.View, HashEngine.StreamOf;
      PadMessage();
      if IsHmac(mode) && !outer {
        BeginOuter();
        RoundFinish(true);
        SetDoneTwice(Pad(OuterMessage(Pad(r))));
      }
      MarkDone();
    }

    method HmacRound1Init()
      requires Valid() && IsHmac(mode)
      modifies this`count, this`stateptr, buffer, state
      ensures Valid() && View() == Start(old(View()))
    {
      FeedFirstBlock(BlockFunction(mode), StreamOf().(pos := 0), Xor(key[..], 0x36));
      LoadKeyBlock(0x36);
      count := 64;
      RoundProcess();
    }

    method DoCommand(cmd: Word)
      requires Valid()
      modifies this, buffer, state, temp
      ensures Valid() && View() == Command(old(View()), cmd)
    {
      hide Finish, FeedRegs;
      if cmd == CMD_START_DATA {
        count := count - count % 64;
        if IsHmac(mode) {
          HmacRound1Init();
        }
      } else if cmd == CMD_FLUSH_DATA {
        RoundFinish(false);
      }
    }

    /** Only the first |data| bytes of the key register change. */
    method LoadKey(data: seq<byte>)
      requires Valid() && |data| <= 64
      modifies key
      ensures Valid() && View() == HashRegs.LoadKey(old(View()), data)
    {
      for i := 0 to |data|
        invariant key[i..] == old(key[..])[i..]
      {
        key[i] := 0;
      }
      Memcpy(key, 0, data);
    }

    method GetResult(size: nat) returns (data: seq<byte>)
      requires Valid() && size <= 32
      ensures data == View().stream.state[..size]
    {
      data := state[..size];
    }
  }

  /** The wrap-around of the 64-bit counter does not disturb its low six bits. */
  lemma CountInBlock(c: nat, n: nat)
    requires c % 64 + n <= 64
    ensures (c + n) % TWO_64 % 64 == if c % 64 + n == 64 then 0 else c % 64 + n
  {
    var q, r := (c + n) / TWO_64, (c + n) % TWO_64;
    assert c + n == 64 * (0x0400_0000_0000_0000 * q) + r;
  }

  /** A one bit, zeros up to the length field, and eight more bytes. */
  ghost predicate PadShape(pos: nat, pad: seq<byte>, zeros: nat) {
    && |pad| == 9 + zeros && (pos + 1 + zeros == 56 || pos + 1 + zeros == 120) && zeros < 64
    && pad[0] == 0x80 && forall i {:trigger pad[i]} :: 1 <= i <= zeros ==> pad[i] == 0
  }

  /** The write index after storing up to stream position p: 64 still waits to wrap. */
  function WrappedIndex(p: nat): int {
    if p <= 64 then p else p - 64
  }

  /** The padding the standard asks for, as the loop will write it. */
  lemma PlanPad(r: Regs) returns (pad: seq<byte>, zeros: nat, lefts: seq<nat>, steps: seq<Stream>)
    requires IsSha256(r.mode) && r.stream.pos == r.count % 64
    ensures PadShape(r.stream.pos, pad, zeros) && PadPlan(BlockFunction(r.mode), r.stream, pad, steps)
    ensures |lefts| == 9 && lefts[0] == 8 * r.count % TWO_64 && ShiftsOut(lefts, pad[1 + zeros..])
    ensures Pad(r) == r.(stream := steps[9 + zeros].(pos := r.stream.pos))
  {
    pad, zeros := Fips.Padding(r.count), Fips.ZeroCount(r.count);
    steps := PlanPadding(BlockFunction(r.mode), r.stream, pad);
    var field;
    lefts, field := ShiftTable(8 * r.count);
  }
}
