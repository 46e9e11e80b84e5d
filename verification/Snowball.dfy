/** The boot hand-off buffer: blocks are added at one end and read as a byte stream at the other. */
module Snowball {
  import opened Bytes

  const SNOWBALL_SIZE := 0x1F_E000
  const HEADER := 18

  /** A block as its adder gives it. */
  datatype Block = Block(name: seq<byte>, unk0: byte, flags: byte, unk1: nat, data: seq<byte>)

  // ----- the encoding of a block -----

  /** strncpy into 12 bytes: cut if too long, padded with zeros if not. */
  function NameField(name: seq<byte>): (f: seq<byte>)
    ensures |f| == 12
  {
    if |name| >= 12 then name[..12] else name + Zeros(12 - |name|)
  }

  function WithBit0(x: byte): byte { if x % 2 == 0 then x + 1 else x }

  function Low16(n: nat): (f: seq<byte>)
    ensures |f| == 2
  {
    [n % 0x100, n / 0x100 % 0x100]
  }

  function Value16(low: byte, high: byte): nat {
    var l: int, h: int := low, high;
    l + 0x100 * h
  }

  lemma Low16Value(n: nat)
    ensures Value16(Low16(n)[0], Low16(n)[1]) == n % 0x1_0000
  {
    var a, l := n / 0x100, n % 0x100;
    var b, h := a / 0x100, a % 0x100;
    assert n == 0x1_0000 * b + (0x100 * h + l);
    Remainder(n, b, 0x100 * h + l);
  }

  lemma Remainder(n: nat, q: nat, r: nat)
    requires n == 0x1_0000 * q + r && r < 0x1_0000
    ensures n % 0x1_0000 == r
  {
  }

  function Header(b: Block): (h: seq<byte>)
    ensures |h| == HEADER
  {
    NameField(b.name) + [b.unk0] + [WithBit0(b.flags)] + Low16(HEADER + |b.data|) + Low16(b.unk1)
  }

  function Encoded(b: Block): (e: seq<byte>)
    ensures |e| == HEADER + |b.data|
  {
    Header(b) + b.data
  }

  function EncodedAll(bs: seq<Block>): seq<byte> { if bs == [] then [] else Encoded(bs[0]) + EncodedAll(bs[1..]) }

  // ----- walking the stream -----

  /** A block as a reader of the stream sees it. */
  datatype Seen = Seen(name: seq<byte>, unk0: byte, flags: byte, unk1: nat, data: seq<byte>)

  function View(b: Block): Seen { Seen(NameField(b.name), b.unk0, WithBit0(b.flags), b.unk1 % 0x1_0000, b.data) }

  function Views(bs: seq<Block>): seq<Seen> { if bs == [] then [] else [View(bs[0])] + Views(bs[1..]) }

  function SizeField(s: seq<byte>): nat
    requires |s| >= HEADER
  {
    Value16(s[14], s[15])
  }

  function SeenIn(s: seq<byte>): Seen
    requires |s| >= HEADER
  {
    Seen(s[..12], s[12], s[13], Value16(s[16], s[17]), s[HEADER..])
  }

  /** From block to block by the size fields, as long as they make sense. */
  function Walk(s: seq<byte>): seq<Seen>
    decreases |s|
  {
    if |s| < HEADER || SizeField(s) < HEADER || SizeField(s) > |s| then []
    else [SeenIn(s[..SizeField(s)])] + Walk(s[SizeField(s)..])
  }

  lemma HeaderFields(b: Block, rest: seq<byte>)
    ensures var s := Header(b) + rest;
      && s[..12] == NameField(b.name) && s[12] == b.unk0 && s[13] == WithBit0(b.flags)
      && Value16(s[14], s[15]) == (HEADER + |b.data|) % 0x1_0000 && Value16(s[16], s[17]) == b.unk1 % 0x1_0000
      && s[HEADER..] == rest
  {
    hide Low16, Value16, NameField, WithBit0;
    Low16Value(HEADER + |b.data|);
    Low16Value(b.unk1);
  }

  lemma EncodedFront(b: Block, rest: seq<byte>)
    ensures var s := Encoded(b) + rest;
      && SizeField(s) == (HEADER + |b.data|) % 0x1_0000
      && s[..|Encoded(b)|] == Encoded(b) && s[|Encoded(b)|..] == rest && SeenIn(Encoded(b)) == View(b)
  {
    HeaderFields(b, b.data + rest);
    HeaderFields(b, b.data);
    hide Header, NameField, WithBit0, Value16;
    assert Encoded(b) + rest == Header(b) + (b.data + rest);
  }

  predicate Small(b: Block) { HEADER + |b.data| < 0x1_0000 }

  /** Walking the stream gives back the added blocks, exactly when every size fits its 16-bit field. */
  lemma {:induction false} WalkEncoded(bs: seq<Block>)
    ensures Walk(EncodedAll(bs)) == Views(bs) <==> forall b :: b in bs ==> Small(b)
    decreases |bs|
  {
    if bs != [] {
      var b, more := bs[0], bs[1..];
      WalkEncoded(more);
      hide Encoded, View, EncodedAll, Views, Walk;
      assert forall c :: c in bs <==> c == b || c in more;
      if Small(b) {
        SmallBlockSeen(b, EncodedAll(more));
        Tails(View(b), Walk(EncodedAll(more)), Views(more));
      } else {
        BigBlockLost(b, EncodedAll(more), Views(more));
      }
    }
  }

  lemma Tails(v: Seen, a: seq<Seen>, b: seq<Seen>)
    ensures [v] + a == [v] + b <==> a == b
  {
    assert ([v] + a)[1..] == a && ([v] + b)[1..] == b;
  }

  lemma SmallBlockSeen(b: Block, rest: seq<byte>)
    requires Small(b)
    ensures Walk(Encoded(b) + rest) == [View(b)] + Walk(rest)
  {
    EncodedFront(b, rest);
    hide Encoded, SizeField, SeenIn, View;
  }

  lemma BigBlockLost(b: Block, rest: seq<byte>, others: seq<Seen>)
    requires !Small(b)
    ensures Walk(Encoded(b) + rest) != [View(b)] + others
  {
    EncodedFront(b, rest);
    var s := Encoded(b) + rest;
    var w := Walk(s);
    hide Encoded, SizeField, Walk;
    if SizeField(s) >= HEADER {
      WalkFirst(s);
      if w != [] {
        assert |w[0].data| != |b.data|;
      }
    } else {
      WalkShort(s);
    }
  }

  lemma WalkFirst(s: seq<byte>)
    requires |s| >= HEADER && SizeField(s) >= HEADER
    ensures Walk(s) != [] ==> |Walk(s)[0].data| == SizeField(s) - HEADER
  {
  }

  lemma WalkShort(s: seq<byte>)
    requires |s| >= HEADER && SizeField(s) < HEADER
    ensures Walk(s) == []
  {
  }

  /** 65518 bytes of data, which a 16-bit size admits, make a block of 65536: its size field is 0. */
  lemma LargeBlockLost()
    ensures var b := Block([], 0, 0, 0, Zeros(65518)); Walk(EncodedAll([b])) != Views([b])
  {
    hide Walk, EncodedAll, Views;
    var b := Block([], 0, 0, 0, Zeros(65518));
    WalkEncoded([b]);
    assert b in [b] && !Small(b);
  }

  // ----- adds and reads, in any order -----

  datatype State = State(stream: seq<byte>, rd: nat)

  datatype Op = Add(block: Block) | Read(size: nat, size2: nat)

  /** An add that would fill the buffer is ignored. */
  predicate Accepted(s: State, b: Block) { HEADER + |b.data| + |s.stream| < SNOWBALL_SIZE }

  function ReadCount(s: State, size: nat, size2: nat): (n: nat)
    requires s.rd <= |s.stream|
    ensures s.rd + n <= |s.stream|
  {
    var avail := |s.stream| - s.rd;
    if size != size2 then 0 else if avail < size then avail else size
  }

  function Step(s: State, op: Op): (t: State)
    requires s.rd <= |s.stream|
    ensures t.rd <= |t.stream|
  {
    match op
    case Add(b) => if Accepted(s, b) then s.(stream := s.stream + Encoded(b)) else s
    case Read(size, size2) => s.(rd := s.rd + ReadCount(s, size, size2))
  }

  function Run(s: State, ops: seq<Op>): (t: State)
    requires s.rd <= |s.stream|
    ensures t.rd <= |t.stream|
    decreases |ops|
  {
    if ops == [] then s else Run(Step(s, ops[0]), ops[1..])
  }

  /** The bytes that the reads of a run give, one after the other. */
  function Got(s: State, ops: seq<Op>): seq<byte>
    requires s.rd <= |s.stream|
    decreases |ops|
  {
    if ops == [] then []
    else
      (match ops[0]
       case Add(_) => []
       case Read(size, size2) => s.stream[s.rd..s.rd + ReadCount(s, size, size2)])
      + Got(Step(s, ops[0]), ops[1..])
  }

  /** The blocks that a run's adds put in the buffer. */
  function Kept(s: State, ops: seq<Op>): seq<Block>
    requires s.rd <= |s.stream|
    decreases |ops|
  {
    if ops == [] then []
    else
      (match ops[0]
       case Add(b) => if Accepted(s, b) then [b] else []
       case Read(_, _) => [])
      + Kept(Step(s, ops[0]), ops[1..])
  }

  /** One operation: the stream grows by the accepted block, and what is read lies between the read positions. */
  lemma StepReads(s: State, op: Op, rest: seq<byte>)
    requires s.rd <= |s.stream|
    ensures var t := Step(s, op);
      && t.stream + rest == s.stream + ((if op.Add? && Accepted(s, op.block) then Encoded(op.block) else []) + rest)
      && s.rd <= t.rd && (op.Read? ==> s.stream[s.rd..s.rd + ReadCount(s, op.size, op.size2)] == s.stream[s.rd..t.rd])
  {
    hide Encoded;
  }

  lemma KeptStep(s: State, ops: seq<Op>)
    requires s.rd <= |s.stream| && ops != []
    ensures EncodedAll(Kept(s, ops)) == (if ops[0].Add? && Accepted(s, ops[0].block) then Encoded(ops[0].block) else [])
      + EncodedAll(Kept(Step(s, ops[0]), ops[1..]))
  {
    hide Encoded, Accepted, Step;
    var more := Kept(Step(s, ops[0]), ops[1..]);
    assert [] + more == more && [] + EncodedAll(more) == EncodedAll(more);
    if ops[0].Add? {
      assert ([ops[0].block] + more)[1..] == more;
    }
  }

  lemma Slices(old': seq<byte>, t: seq<byte>, a: nat, b: nat, c: nat)
    requires a <= b <= c <= |t| && b <= |old'| && old' <= t
    ensures old'[a..b] + t[b..c] == t[a..c]
  {
  }

  /**
   However adds and reads are interleaved: the stream is what was there and the accepted blocks, and what was read
   is that stream from the old read position to the new one.
   */
  lemma {:induction false} RunReadsTheStream(s: State, ops: seq<Op>)
    requires s.rd <= |s.stream|
    ensures var t := Run(s, ops);
      && t.stream == s.stream + EncodedAll(Kept(s, ops))
      && s.rd <= t.rd && Got(s, ops) == t.stream[s.rd..t.rd]
    decreases |ops|
  {
    hide Encoded, EncodedAll, Kept, Accepted;
    if ops != [] {
      var u := Step(s, ops[0]);
      RunReadsTheStream(u, ops[1..]);
      var t, more := Run(u, ops[1..]), EncodedAll(Kept(u, ops[1..]));
      StepReads(s, ops[0], more);
      KeptStep(s, ops);
      hide Run, Step, ReadCount;
      if ops[0].Read? {
        Slices(s.stream, t.stream, s.rd, u.rd, t.rd);
      } else {
        assert [] + Got(u, ops[1..]) == Got(u, ops[1..]);
      }
    } else {
      NothingKept(s);
      assert s.stream + [] == s.stream;
    }
  }

  lemma NothingKept(s: State)
    requires s.rd <= |s.stream|
    ensures EncodedAll(Kept(s, [])) == []
  {
  }

  /** From an empty buffer, what has been read is a prefix of the accepted blocks, and a walk gives them all back. */
  lemma HandOff(ops: seq<Op>)
    ensures var s := State([], 0);
      && Got(s, ops) <= EncodedAll(Kept(s, ops))
      && (Walk(Run(s, ops).stream) == Views(Kept(s, ops)) <==> forall b :: b in Kept(s, ops) ==> Small(b))
  {
    hide Got, Kept, Run, Walk, Views;
    var s := State([], 0);
    RunReadsTheStream(s, ops);
    WalkEncoded(Kept(s, ops));
    assert [] + EncodedAll(Kept(s, ops)) == EncodedAll(Kept(s, ops));
  }

  // ----- what is dropped and what is handed over, by number -----

  /** The name is cut or padded to 12 bytes, and the low bit of the flags is set. */
  lemma FieldBytes(b: Block, i: nat)
    requires i < 12
    ensures View(b).name[i] == if i < |b.name| then b.name[i] else 0
    ensures View(b).flags % 2 == 1 && View(b).flags / 2 == b.flags / 2
  {
  }

  /** A block is taken exactly when the buffer of 0x1FE000 bytes is not full with it. */
  lemma TakenExactlyWhenItFits(s: State, b: Block)
    requires s.rd <= |s.stream|
    ensures Step(s, Add(b)) == State(s.stream + Encoded(b), s.rd) <==> |s.stream| + 18 + |b.data| < 0x1F_E000
    ensures Step(s, Add(b)) != State(s.stream + Encoded(b), s.rd) ==> Step(s, Add(b)) == s
  {
    hide Encoded;
    assert |s.stream + Encoded(b)| > |s.stream|;
  }

  function Adds(bs: seq<Block>): seq<Op> { if bs == [] then [] else [Add(bs[0])] + Adds(bs[1..]) }

  /** Blocks that fit together are all taken, in order. */
  lemma {:induction false} AllTaken(s: State, bs: seq<Block>)
    requires s.rd <= |s.stream| && |s.stream| + |EncodedAll(bs)| < 0x1F_E000
    ensures Kept(s, Adds(bs)) == bs
    ensures Run(s, Adds(bs)) == State(s.stream + EncodedAll(bs), s.rd)
    decreases |bs|
  {
    hide Encoded, Run, Step, Accepted;
    if bs == [] {
      assert s.stream + [] == s.stream;
      NothingRun(s);
    } else {
      var b, more := bs[0], bs[1..];
      var t := State(s.stream + Encoded(b), s.rd);
      hide Kept, EncodedAll, Adds;
      FirstEncoded(bs);
      TakeFirst(s, bs);
      AllTaken(t, more);
      assert (s.stream + Encoded(b)) + EncodedAll(more) == s.stream + EncodedAll(bs);
      assert [b] + more == bs;
    }
  }

  lemma NothingRun(s: State)
    requires s.rd <= |s.stream|
    ensures Run(s, []) == s
  {
  }

  lemma FirstEncoded(bs: seq<Block>)
    requires bs != []
    ensures EncodedAll(bs) == Encoded(bs[0]) + EncodedAll(bs[1..])
  {
  }

  lemma TakeFirst(s: State, bs: seq<Block>)
    requires s.rd <= |s.stream| && bs != [] && |s.stream| + 18 + |bs[0].data| < 0x1F_E000
    ensures var t := State(s.stream + Encoded(bs[0]), s.rd);
      Run(s, Adds(bs)) == Run(t, Adds(bs[1..])) && Kept(s, Adds(bs)) == [bs[0]] + Kept(t, Adds(bs[1..]))
  {
    hide Encoded, EncodedAll, Header;
    AddsNext(bs);
    assert Accepted(s, bs[0]);
  }

  lemma AddsNext(bs: seq<Block>)
    requires bs != []
    ensures Adds(bs) != [] && Adds(bs)[0] == Add(bs[0]) && Adds(bs)[1..] == Adds(bs[1..])
  {
  }

  predicate AllReads(ops: seq<Op>) { forall op :: op in ops ==> op.Read? }

  /** The bytes asked for by reads whose two sizes agree. */
  function Asked(ops: seq<Op>): nat
    requires AllReads(ops)
  {
    if ops == [] then 0
    else (if ops[0].size == ops[0].size2 then ops[0].size else 0) + Asked(ops[1..])
  }

  function Upto(s: State, n: nat): (end: nat)
    requires s.rd <= |s.stream|
    ensures s.rd <= end <= |s.stream|
  {
    if s.rd + n <= |s.stream| then s.rd + n else |s.stream|
  }

  /** However the reads are cut, they hand over the next bytes, as many as asked for or as there are. */
  lemma {:induction false} ReadsHandOver(s: State, ops: seq<Op>)
    requires s.rd <= |s.stream| && AllReads(ops)
    ensures Run(s, ops) == State(s.stream, Upto(s, Asked(ops)))
    ensures Got(s, ops) == s.stream[s.rd..Upto(s, Asked(ops))]
    decreases |ops|
  {
    if ops != [] {
      var t := Step(s, ops[0]);
      assert ops[0] in ops && ops[0].Read?;
      ReadsHandOver(t, ops[1..]);
      Slices(s.stream, s.stream, s.rd, t.rd, Upto(s, Asked(ops)));
    }
  }

  /** Blocks that fit are added, and read in any pieces up to the end: a walk over what was read gives them back. */
  lemma HandedOver(bs: seq<Block>, ops: seq<Op>)
    requires |EncodedAll(bs)| < 0x1F_E000 && AllReads(ops) && Asked(ops) >= |EncodedAll(bs)|
    ensures var full := Run(State([], 0), Adds(bs));
      && Got(full, ops) == EncodedAll(bs)
      && (Walk(Got(full, ops)) == Views(bs) <==> forall b :: b in bs ==> Small(b))
  {
    hide Walk, Views, EncodedAll, Run, Got, Asked, Adds;
    AllTaken(State([], 0), bs);
    assert [] + EncodedAll(bs) == EncodedAll(bs);
    var full := Run(State([], 0), Adds(bs));
    ReadsHandOver(full, ops);
    assert EncodedAll(bs)[0..|EncodedAll(bs)|] == EncodedAll(bs);
    WalkEncoded(bs);
  }

  // ----- the buffer -----

  class Buffer {
    const bytes: array<byte>
    var wrptr: nat
    var rdptr: nat

    ghost predicate Valid()
      reads this
    {
      bytes.Length == SNOWBALL_SIZE && rdptr <= wrptr < SNOWBALL_SIZE
    }

    ghost function Contents(): (s: State)
      requires Valid()
      reads this, bytes
      ensures s.rd <= |s.stream|
    {
      State(bytes[..wrptr], rdptr)
    }

    constructor ()
      ensures Valid() && Contents() == State([], 0) && fresh(bytes)
    {
      bytes := new byte[SNOWBALL_SIZE](_ => 0);
      wrptr, rdptr := 0, 0;
    }

    method AddBlock(b: Block)
      requires Valid()
      modifies this, bytes
      ensures Valid() && Contents() == Step(old(Contents()), Add(b))
    {
      hide Header;
      var total := |b.data| + HEADER;
      if total + wrptr >= SNOWBALL_SIZE {
        return;
      }
      ghost var stream := bytes[..wrptr];
      Memcpy(bytes, wrptr, Header(b));
      Memcpy(bytes, wrptr + HEADER, b.data);
      assert bytes[..wrptr + total] == stream + (Header(b) + b.data);
      wrptr := wrptr + total;
    }

    /** The number of bytes handed over and the bytes; the two size parameters have to agree. */
    method ReadBlock(size: nat, size2: nat) returns (actual: nat, data: seq<byte>)
      requires Valid()
      modifies `rdptr
      ensures Valid() && Contents() == Step(old(Contents()), Read(size, size2))
      ensures actual == |data| && data == bytes[old(rdptr)..rdptr]
    {
      var turnsize, avail := size, wrptr - rdptr;
      if size != size2 || avail == 0 {
        return 0, [];
      }
      if avail < turnsize {
        turnsize := avail;
      }
      data := bytes[rdptr..rdptr + turnsize];
      rdptr := rdptr + turnsize;
      actual := turnsize;
    }
  }
}
