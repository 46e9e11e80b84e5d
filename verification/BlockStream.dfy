/**
 A 64-byte block buffer in front of a block function: the part of a hash engine that does not
 depend on the algorithm. Data is fed one byte at a time here; the engine copies whole chunks and
 defers work, and must agree. All statements hold for every block function.
 */
module BlockStream {
  import opened Bytes

  type State = s: seq<byte> | |s| == 32 witness Zeros(32)
  type Block = b: seq<byte> | |b| == 64 witness Zeros(64)
  type Pos = p: nat | p < 64
  type BlockFn = (State, Block) -> State

  /** Chaining state, buffer, next buffer position and the host's read/write index into the state. */
  datatype Stream = Stream(state: State, buffer: Block, pos: Pos, stateptr: nat)

  /** Consumes the full buffer and rewinds the state index. */
  function Process(f: BlockFn, s: Stream): Stream {
    s.(state := f(s.state, s.buffer), stateptr := 0)
  }

  /** The position moves on; at the end of the buffer the block is consumed. */
  function Advance(f: BlockFn, s: Stream, next: nat): Stream
    requires next <= 64
  {
    if next == 64 then Process(f, s.(pos := 0)) else s.(pos := next)
  }

  function Put(f: BlockFn, s: Stream, b: byte): Stream {
    Advance(f, s.(buffer := s.buffer[s.pos := b]), s.pos + 1)
  }

  function Feed(f: BlockFn, s: Stream, data: seq<byte>): Stream {
    if data == [] then s else Put(f, Feed(f, s, data[..|data| - 1]), data[|data| - 1])
  }

  lemma FeedNext(f: BlockFn, s: Stream, data: seq<byte>, n: nat)
    requires n < |data|
    ensures Feed(f, s, data[..n + 1]) == Put(f, Feed(f, s, data[..n]), data[n])
  {
    assert data[..n + 1][..n] == data[..n];
  }

  lemma {:induction false} FeedConcat(f: BlockFn, s: Stream, a: seq<byte>, b: seq<byte>)
    ensures Feed(f, s, a + b) == Feed(f, Feed(f, s, a), b)
  {
    if b == [] {
      assert a + b == a;
    } else {
      assert (a + b)[..|a + b| - 1] == a + b[..|b| - 1];
      FeedConcat(f, s, a, b[..|b| - 1]);
    }
  }

  lemma {:induction false} FeedPos(f: BlockFn, s: Stream, data: seq<byte>)
    ensures Feed(f, s, data).pos == (s.pos + |data|) % 64
  {
    if data != [] {
      FeedPos(f, s, data[..|data| - 1]);
    }
  }

  /** The memcpy form: a chunk that does not cross a block boundary lands in the buffer in one piece. */
  function PutChunk(f: BlockFn, s: Stream, chunk: seq<byte>): Stream
    requires s.pos + |chunk| <= 64
  {
    Advance(f, s.(buffer := Overwrite(s.buffer, s.pos, chunk)), s.pos + |chunk|)
  }

  lemma {:induction false} FeedChunk(f: BlockFn, s: Stream, chunk: seq<byte>)
    requires s.pos + |chunk| <= 64
    ensures Feed(f, s, chunk) == PutChunk(f, s, chunk)
  {
    if chunk == [] {
      assert Overwrite(s.buffer, s.pos, chunk) == s.buffer;
    } else {
      var n, front := |chunk|, chunk[..|chunk| - 1];
      FeedChunk(f, s, front);
      assert Overwrite(s.buffer, s.pos, front)[s.pos + n - 1 := chunk[n - 1]] == Overwrite(s.buffer, s.pos, chunk);
    }
  }

  /** One pass of a write loop that has already fed the first `done` bytes. */
  lemma FeedNextChunk(f: BlockFn, s: Stream, data: seq<byte>, done: nat, n: nat)
    requires done + n <= |data| && Feed(f, s, data[..done]).pos + n <= 64
    ensures Feed(f, s, data[..done + n]) == PutChunk(f, Feed(f, s, data[..done]), data[done..done + n])
  {
    var chunk := data[done..done + n];
    assert data[..done] + chunk == data[..done + n];
    FeedConcat(f, s, data[..done], chunk);
    FeedChunk(f, Feed(f, s, data[..done]), chunk);
  }

  /** At position zero, a full block replaces the buffer and is consumed at once. */
  lemma FeedFirstBlock(f: BlockFn, s: Stream, block: Block)
    requires s.pos == 0
    ensures Feed(f, s, block) == Process(f, s.(buffer := block))
  {
    hide Feed;
    FeedChunk(f, s, block);
    assert Overwrite(s.buffer, 0, block) == block;
  }

  /** A full block and half a block more: the block is consumed, the rest stays in the buffer. */
  lemma FeedBlockAndHalf(f: BlockFn, s: Stream, block: Block, half: State)
    requires s.pos == 0
    ensures var t := Process(f, s.(buffer := block));
            Feed(f, s, block + half) == t.(buffer := Overwrite(t.buffer, 0, half), pos := 32)
  {
    FeedFirstBlock(f, s, block);
    FeedConcat(f, s, block, half);
    FeedChunk(f, Feed(f, s, block), half);
  }

  /** As soon as one block has been consumed the state index is back at zero. */
  lemma {:induction false} FeedRewinds(f: BlockFn, s: Stream, data: seq<byte>)
    ensures Feed(f, s, data).stateptr == if s.pos + |data| >= 64 then 0 else s.stateptr
  {
    if data != [] {
      FeedPos(f, s, data[..|data| - 1]);
      FeedRewinds(f, s, data[..|data| - 1]);
    }
  }

  // ----- what the state means: every whole block of the message so far, in order -----

  function Chain(f: BlockFn, start: State, m: seq<byte>): State
    requires |m| % 64 == 0
    decreases |m|
  {
    if m == [] then start else f(Chain(f, start, m[..|m| - 64]), m[|m| - 64..])
  }

  /** Length of the whole blocks of m. */
  function Whole(m: seq<byte>): (n: nat)
    ensures n <= |m| && n % 64 == 0 && n + |m| % 64 == |m|
  {
    |m| - |m| % 64
  }

  /** The stream that started from `start` has taken in exactly m. */
  ghost predicate Absorbed(f: BlockFn, start: State, s: Stream, m: seq<byte>) {
    && s.pos == |m| % 64
    && s.state == Chain(f, start, m[..Whole(m)])
    && s.buffer[..s.pos] == m[Whole(m)..]
  }

  lemma PutAbsorbs(f: BlockFn, start: State, s: Stream, m: seq<byte>, b: byte)
    requires Absorbed(f, start, s, m)
    ensures Absorbed(f, start, Put(f, s, b), m + [b])
  {
    var w, n := Whole(m), m + [b];
    assert n[..w] == m[..w];
    if s.pos == 63 {
      assert Whole(n) == w + 64 && n[..w + 64] == n;
      assert n[w..] == s.buffer[63 := b];
    } else {
      assert Whole(n) == w;
      assert n[w..] == s.buffer[s.pos := b][..s.pos + 1];
    }
  }

  /** Feeding extends the message taken in, whatever the lengths. */
  lemma {:induction false} FeedAbsorbs(f: BlockFn, start: State, s: Stream, m: seq<byte>, data: seq<byte>)
    requires Absorbed(f, start, s, m)
    ensures Absorbed(f, start, Feed(f, s, data), m + data)
  {
    if data == [] {
      assert m + data == m;
    } else {
      var front := data[..|data| - 1];
      FeedAbsorbs(f, start, s, m, front);
      PutAbsorbs(f, start, Feed(f, s, front), m + front, data[|data| - 1]);
      assert (m + front) + [data[|data| - 1]] == m + data;
    }
  }

  // ----- padding in place: a full buffer is consumed only when the next byte is stored -----

  /** What the buffer stands for when a write index of 64 is still waiting to wrap. */
  function Deferred(f: BlockFn, s: Stream, index: nat): Stream
    requires index <= 64
  {
    Advance(f, s, index)
  }

  /** The streams after 0, 1, .., |pad| bytes of `pad`. */
  ghost predicate PadPlan(f: BlockFn, start: Stream, pad: seq<byte>, steps: seq<Stream>) {
    && |steps| == |pad| + 1 && steps[0] == start
    && (forall n {:trigger pad[n]} :: 0 <= n < |pad| ==> steps[n + 1] == Put(f, steps[n], pad[n]))
  }

  lemma PlanPadding(f: BlockFn, start: Stream, pad: seq<byte>) returns (steps: seq<Stream>)
    ensures PadPlan(f, start, pad, steps) && steps[|pad|] == Feed(f, start, pad)
  {
    steps := seq(|pad| + 1, n requires 0 <= n <= |pad| => Feed(f, start, pad[..n]));
    assert pad[..0] == [] && pad[..|pad|] == pad;
    forall n {:trigger pad[n]} | 0 <= n < |pad| ensures steps[n + 1] == Put(f, steps[n], pad[n]) {
      FeedNext(f, start, pad, n);
    }
  }
}
