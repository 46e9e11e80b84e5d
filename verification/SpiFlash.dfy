/** The flash controller's hardware sequencer over a flash image: what register writes do to the image. */
module SpiFlash {
  import opened Bytes

  const F_GO: bv32 := 0x1_0000
  const BUFFER_SIZE := 0x40

  datatype Spi = Spi(image: seq<byte>, buffer: seq<byte>, scratch: seq<byte>, jedec: seq<byte>, hsflctl: bv32,
    faddr: bv32)

  predicate Sized(s: Spi) { |s.buffer| == BUFFER_SIZE && |s.scratch| == BUFFER_SIZE && |s.jedec| == 0x100 }

  predicate Valid(s: Spi) { Sized(s) && s.hsflctl & F_GO == 0 }

  function Octet8(x: byte): bv8 { x as bv8 }

  function AndByte(x: byte, y: byte): byte { (Octet8(x) & Octet8(y)) as int }

  function AndBytes(a: seq<byte>, b: seq<byte>): (r: seq<byte>)
    requires |a| == |b|
    ensures |r| == |a| && forall i :: 0 <= i < |a| ==> r[i] == AndByte(a[i], b[i])
  {
    seq(|a|, i requires 0 <= i < |a| => AndByte(a[i], b[i]))
  }

  // ----- the control register -----

  function CountBits(h: bv32): bv32 { (h >> 24) & 0x3F }

  /** The byte count field plus one. */
  function Count(h: bv32): (n: nat)
    ensures 1 <= n <= BUFFER_SIZE
  {
    CountBits(h) as int + 1
  }

  function CycleType(h: bv32): bv32 { (h >> 17) & 0xF }

  /** A write to the control register while no cycle is running: ones clear the error flags. */
  function Controlled(h: bv32, value: bv32): bv32 { (h & !(value & 7) & 0x0000_E1FF) | (value & 0xFFFF_0000) }

  function GoCleared(h: bv32): bv32 { h & !F_GO }

  /** The flags a cycle leaves behind. */
  function Done(h: bv32): bv32 { h | 1 }
  function Failed(h: bv32): bv32 { h | 2 }

  /** As much of the image as a read gets: to the end of the file at most. */
  function Readable(image: seq<byte>, at: nat, n: nat): (r: seq<byte>)
    ensures |r| <= n
  {
    if at >= |image| then [] else if at + n <= |image| then image[at..at + n] else image[at..]
  }

  /** The error flag when the read came up short. */
  function ReadCycle(s: Spi, n: nat, at: nat): Spi
    requires Sized(s) && 0 < n <= BUFFER_SIZE
  {
    var got := Readable(s.image, at, n);
    s.(buffer := Overwrite(s.buffer, 0, got), hsflctl := if |got| == n then Done(s.hsflctl) else Failed(s.hsflctl))
  }

  /** A write cycle reads the range first, and programs the buffer ANDed with it. */
  function WriteCycle(s: Spi, n: nat, at: nat): Spi
    requires Sized(s) && 0 < n <= BUFFER_SIZE
  {
    var got := Readable(s.image, at, n);
    if |got| != n then s.(scratch := Overwrite(s.scratch, 0, got), hsflctl := Failed(s.hsflctl))
    else
      var anded := AndBytes(s.buffer[..n], got);
      s.(scratch := Overwrite(s.scratch, 0, got), buffer := Overwrite(s.buffer, 0, anded),
         image := Overwrite(s.image, at, anded), hsflctl := Done(s.hsflctl))
  }

  function IdCycle(s: Spi, n: nat): Spi
    requires Sized(s) && 0 < n <= BUFFER_SIZE
  {
    s.(buffer := Overwrite(s.buffer, 0, s.jedec[..n]), hsflctl := Done(s.hsflctl))
  }

  /** The go bit is cleared, then the cycle runs; cycles of other types do nothing but finish. */
  function Sequenced(s: Spi): (r: Spi)
    requires Sized(s)
  {
    if s.hsflctl & F_GO == 0 then s
    else
      var c := s.(hsflctl := GoCleared(s.hsflctl));
      var n, cycle := Count(c.hsflctl), CycleType(c.hsflctl);
      if cycle == 0 then ReadCycle(c, n, c.faddr as int)
      else if cycle == 2 then WriteCycle(c, n, c.faddr as int)
      else if cycle == 6 then IdCycle(c, n)
      else c.(hsflctl := Done(c.hsflctl))
  }

  /** A register write: data for the buffer, or a word for a register. */
  datatype Access = Data(off: nat, bytes: seq<byte>) | Control(value: bv32) | FlashAddress(value: bv32) | Other

  function Write(s: Spi, a: Access): Spi
    requires Sized(s)
  {
    match a
    case Data(off, bytes) => if |bytes| + off > BUFFER_SIZE then s else s.(buffer := Overwrite(s.buffer, off, bytes))
    case Control(value) => Sequenced(if s.hsflctl & F_GO != 0 then s else s.(hsflctl := Controlled(s.hsflctl, value)))
    case FlashAddress(value) => Sequenced(s.(faddr := value))
    case Other => Sequenced(s)
  }

  // ----- what a write programs -----

  /** Bytes programmed at an address of the image. */
  datatype Program = Program(at: nat, bytes: seq<byte>)
  datatype Effect = Nothing | Programmed(program: Program)

  /** A control write that sets the go bit for a write cycle, when the whole range is inside the image. */
  function EffectOf(s: Spi, a: Access): Effect
    requires Sized(s)
  {
    if a.Control? && a.value & F_GO != 0 && CycleType(a.value) == 2 && s.faddr as int + Count(a.value) <= |s.image| then
      Programmed(Program(s.faddr as int, s.buffer[..Count(a.value)]))
    else Nothing
  }

  function Anded(image: seq<byte>, e: Effect): seq<byte> {
    match e
    case Nothing => image
    case Programmed(p) =>
      if p.at + |p.bytes| > |image| then image
      else Overwrite(image, p.at, AndBytes(p.bytes, image[p.at..p.at + |p.bytes|]))
  }

  /** A cycle keeps the sizes and leaves one of the two flags. */
  predicate Finishes(s: Spi, r: Spi) {
    Sized(r) && |r.image| == |s.image| && (r.hsflctl == Done(s.hsflctl) || r.hsflctl == Failed(s.hsflctl))
  }

  lemma CycleDone(s: Spi, n: nat, at: nat)
    requires Sized(s) && 0 < n <= BUFFER_SIZE
    ensures Finishes(s, ReadCycle(s, n, at)) && Finishes(s, WriteCycle(s, n, at)) && Finishes(s, IdCycle(s, n))
  {
    hide AndBytes, Readable, Done, Failed, Overwrite;
    ReadableAll(s.image, at, n);
  }

  lemma SequencedDone(s: Spi)
    requires Sized(s)
    ensures var r := Sequenced(s); Valid(r) && |r.image| == |s.image|
  {
    var c := s.(hsflctl := GoCleared(s.hsflctl));
    CycleDone(c, Count(c.hsflctl), c.faddr as int);
    hide GoCleared, CycleType, Count, Readable, ReadCycle, WriteCycle, IdCycle, Done, Failed;
  }

  /** After every write the go bit is clear again, and the image has its length. */
  lemma WriteKeepsValid(s: Spi, a: Access)
    requires Valid(s)
    ensures Valid(Write(s, a)) && |Write(s, a).image| == |s.image|
  {
    hide Sequenced, Controlled;
    match a
    case Data(off, bytes) =>
    case Control(value) => SequencedDone(s.(hsflctl := Controlled(s.hsflctl, value)));
    case FlashAddress(value) => SequencedDone(s.(faddr := value));
    case Other => SequencedDone(s);
  }

  lemma CycleImage(s: Spi, n: nat, at: nat)
    requires Sized(s) && 0 < n <= BUFFER_SIZE
    ensures WriteCycle(s, n, at).image
      == Anded(s.image, if at + n <= |s.image| then Programmed(Program(at, s.buffer[..n])) else Nothing)
    ensures ReadCycle(s, n, at).image == s.image && IdCycle(s, n).image == s.image
  {
    hide AndBytes, Overwrite, Readable, Done, Failed;
    ReadableAll(s.image, at, n);
  }

  lemma SequencedImage(s: Spi)
    requires Sized(s)
    ensures var h, at := GoCleared(s.hsflctl), s.faddr as int;
            Sequenced(s).image
            == Anded(s.image,
                     if s.hsflctl & F_GO != 0 && CycleType(h) == 2 && at + Count(h) <= |s.image| then
                       Programmed(Program(at, s.buffer[..Count(h)]))
                     else
                       Nothing)
  {
    hide GoCleared, CycleType, AndBytes, Overwrite, Count, ReadCycle, WriteCycle, IdCycle, Done, Anded;
    var c := s.(hsflctl := GoCleared(s.hsflctl));
    CycleImage(c, Count(c.hsflctl), c.faddr as int);
    NothingAnded(s.image);
  }

  lemma NothingAnded(image: seq<byte>)
    ensures Anded(image, Nothing) == image
  {
  }

  lemma ReadableAll(image: seq<byte>, at: nat, n: nat)
    requires n > 0
    ensures |Readable(image, at, n)| == n <==> at + n <= |image|
    ensures at + n <= |image| ==> Readable(image, at, n) == image[at..at + n]
  {
  }

  lemma CountAlike(h: bv32, k: bv32)
    requires CountBits(h) == CountBits(k)
    ensures Count(h) == Count(k)
  {
  }

  /** The image changes by exactly the effect; a range that does not fit leaves it untouched. */
  lemma WriteEffect(s: Spi, a: Access)
    requires Valid(s)
    ensures Write(s, a).image == Anded(s.image, EffectOf(s, a))
  {
    match a
    case Data(_, _) =>
    case Control(value) =>
      var t := s.(hsflctl := Controlled(s.hsflctl, value));
      hide Controlled, GoCleared, CycleType, CountBits, Count, Sequenced, Anded;
      CountAlike(GoCleared(t.hsflctl), value);
      SequencedImage(t);
    case FlashAddress(_) =>
    case Other =>
  }

  // ----- runs -----

  function Run(s: Spi, accesses: seq<Access>): Spi
    requires Valid(s)
    decreases |accesses|
  {
    if accesses == [] then s
    else
      WriteKeepsValid(s, accesses[0]);
      Run(Write(s, accesses[0]), accesses[1..])
  }

  /** Every byte value programmed at one address in a run, in order. */
  function ProgrammedAt(s: Spi, accesses: seq<Access>, at: nat): seq<byte>
    requires Valid(s)
    decreases |accesses|
  {
    if accesses == [] then []
    else
      WriteKeepsValid(s, accesses[0]);
      ByteOf(EffectOf(s, accesses[0]), at) + ProgrammedAt(Write(s, accesses[0]), accesses[1..], at)
  }

  function ByteOf(e: Effect, at: nat): seq<byte> {
    if e.Programmed? && e.program.at <= at < e.program.at + |e.program.bytes| then [e.program.bytes[at - e.program.at]]
      else []
  }

  /** All the bits of the mask are set. */
  predicate Bits(x: byte, mask: bv8) { Octet8(x) & mask == mask }

  lemma AndBits(x: byte, y: byte, mask: bv8)
    ensures Bits(AndByte(x, y), mask) <==> Bits(x, mask) && Bits(y, mask)
  {
    AndByteOctet(x, y);
    hide AndByte, Octet8;
  }

  lemma AndByteOctet(x: byte, y: byte)
    ensures Octet8(AndByte(x, y)) == Octet8(x) & Octet8(y)
  {
    Octet(Octet8(x) & Octet8(y));
  }

  lemma EffectBits(image: seq<byte>, e: Effect, at: nat, mask: bv8)
    requires at < |image| && (e.Programmed? ==> e.program.at + |e.program.bytes| <= |image|)
    ensures |Anded(image, e)| == |image|
    ensures Bits(Anded(image, e)[at], mask) <==>
            Bits(image[at], mask) && forall v :: v in ByteOf(e, at) ==> Bits(v, mask)
  {
    hide Bits, AndByte;
    if e.Programmed? && e.program.at <= at < e.program.at + |e.program.bytes| {
      var v := e.program.bytes[at - e.program.at];
      AndBits(v, image[at], mask);
      assert ByteOf(e, at) == [v];
    }
  }

  /**
   Over any run of writes any bits of a flash byte are set in the end exactly when they were set in the beginning and in
   every byte that was programmed there; the image keeps its length, and no cycle is left running.
   */
  lemma {:induction false} RunAndsEverything(s: Spi, accesses: seq<Access>, at: nat, mask: bv8)
    requires Valid(s) && at < |s.image|
    ensures var r := Run(s, accesses);
      && Valid(r) && |r.image| == |s.image|
      && (Bits(r.image[at], mask) <==>
          Bits(s.image[at], mask) && forall v :: v in ProgrammedAt(s, accesses, at) ==> Bits(v, mask))
    decreases |accesses|
  {
    hide Bits, Write, EffectOf, Anded, ByteOf;
    if accesses != [] {
      var a := accesses[0];
      var t, e := Write(s, a), EffectOf(s, a);
      WriteKeepsValid(s, a);
      WriteEffect(s, a);
      EffectFits(s, a);
      EffectBits(s.image, e, at, mask);
      RunAndsEverything(t, accesses[1..], at, mask);
      var more := ProgrammedAt(t, accesses[1..], at);
      assert ProgrammedAt(s, accesses, at) == ByteOf(e, at) + more;
    }
  }

  lemma EffectFits(s: Spi, a: Access)
    requires Valid(s)
    ensures var e := EffectOf(s, a); e.Programmed? ==> e.program.at + |e.program.bytes| <= |s.image|
  {
    hide CycleType;
  }

  /** Where nothing was programmed the flash is as it was. */
  lemma {:induction false} UnprogrammedStays(s: Spi, accesses: seq<Access>, at: nat)
    requires Valid(s) && at < |s.image| && ProgrammedAt(s, accesses, at) == []
    ensures Valid(Run(s, accesses)) && |Run(s, accesses).image| == |s.image|
      && Run(s, accesses).image[at] == s.image[at]
    decreases |accesses|
  {
    hide Write, EffectOf;
    if accesses != [] {
      WriteKeepsValid(s, accesses[0]);
      WriteEffect(s, accesses[0]);
      UnprogrammedStays(Write(s, accesses[0]), accesses[1..], at);
    }
  }

  // ----- whole cycles: address, control, and what is in the data buffer and the flags afterwards -----

  /** The control word that starts a cycle of a type, with its byte count less one. */
  function Start(cycle: bv4, less: bv6): bv32 { ((less as bv32) << 24) | ((cycle as bv32) << 17) | 0x1_0000 }

  lemma StartFields(cycle: bv4, less: bv6)
    ensures Start(cycle, less) & F_GO != 0 && CycleType(Start(cycle, less)) == cycle as bv32
    ensures CountBits(Start(cycle, less)) == less as bv32 && Start(cycle, less) & 7 == 0
  {
  }

  lemma FieldsKept(h: bv32, cycle: bv4, less: bv6)
    ensures var g := GoCleared(Controlled(h, Start(cycle, less)));
      && CycleType(g) == cycle as bv32 && CountBits(g) == less as bv32
      && Controlled(h, Start(cycle, less)) & F_GO != 0
  {
  }

  /** The done flag is set, the go bit clear, and the error flag as it was. */
  predicate DoneFlags(before: bv32, after: bv32) { after & 3 == (before & 2) | 1 && after & 0x1_0000 == 0 }

  /** The error flag is set, the go bit clear, and the done flag as it was. */
  predicate ErrorFlags(before: bv32, after: bv32) { after & 3 == (before & 1) | 2 && after & 0x1_0000 == 0 }

  lemma FlagsAfter(h: bv32, cycle: bv4, less: bv6)
    ensures var g := GoCleared(Controlled(h, Start(cycle, less))); DoneFlags(h, Done(g)) && ErrorFlags(h, Failed(g))
  {
  }

  /** The number of bytes asked for. */
  function Asked(less: bv6): (n: nat)
    ensures 1 <= n <= 64
  {
    (less as bv32) as int + 1
  }

  /** Writing a flash address only sets it. */
  lemma AddressSet(s: Spi, at: bv32)
    requires Valid(s)
    ensures Write(s, FlashAddress(at)) == s.(faddr := at)
  {
  }

  /** A flash address and a control word that starts a cycle. */
  function Cycle(s: Spi, at: bv32, cycle: bv4, less: bv6): Spi
    requires Valid(s)
  {
    AddressSet(s, at);
    Write(Write(s, FlashAddress(at)), Control(Start(cycle, less)))
  }

  function Begun(s: Spi, at: bv32, cycle: bv4, less: bv6): Spi {
    s.(faddr := at, hsflctl := GoCleared(Controlled(s.hsflctl, Start(cycle, less))))
  }

  lemma CountIsAsked(h: bv32, less: bv6)
    requires CountBits(h) == less as bv32
    ensures Count(h) == Asked(less) <= 64
  {
  }

  lemma CycleRuns(s: Spi, at: bv32, cycle: bv4, less: bv6)
    requires Valid(s)
    ensures var c, n := Begun(s, at, cycle, less), Asked(less);
            && n <= 64
            && (cycle == 0 ==> Cycle(s, at, cycle, less) == ReadCycle(c, n, at as int))
            && (cycle == 2 ==> Cycle(s, at, cycle, less) == WriteCycle(c, n, at as int))
            && (cycle == 6 ==> Cycle(s, at, cycle, less) == IdCycle(c, n))
            && (cycle != 0 && cycle != 2 && cycle != 6 ==> Cycle(s, at, cycle, less) == c.(hsflctl := Done(c.hsflctl)))
  {
    hide GoCleared, Controlled, Done, Start, CycleType, CountBits, Count, Asked, ReadCycle, WriteCycle, IdCycle;
    AddressSet(s, at);
    FieldsKept(s.hsflctl, cycle, less);
    CountIsAsked(Begun(s, at, cycle, less).hsflctl, less);
  }

  lemma ReadBytes(c: Spi, n: nat, at: nat, i: nat)
    requires Sized(c) && 0 < n <= 64 && i < 64
    ensures var r := ReadCycle(c, n, at);
            && r.image == c.image && |r.buffer| == 64
            && r.buffer[i] == (if i < n && at + i < |c.image| then c.image[at + i] else c.buffer[i])
            && r.hsflctl == if at + n <= |c.image| then Done(c.hsflctl) else Failed(c.hsflctl)
  {
    hide Done, Failed;
  }

  /**
   A read cycle puts the image bytes at the flash address into the data buffer, as many as there are, and is done, or
   in error when the image ends before the last one. The image stays as it was.
   */
  lemma ReadReads(s: Spi, at: bv32, less: bv6, i: nat)
    requires Valid(s) && i < 64
    ensures var r, a, n := Cycle(s, at, 0, less), at as int, Asked(less);
            && r.image == s.image && |r.buffer| == 64
            && r.buffer[i] == (if i < n && a + i < |s.image| then s.image[a + i] else s.buffer[i])
            && (if a + n <= |s.image| then DoneFlags(s.hsflctl, r.hsflctl) else ErrorFlags(s.hsflctl, r.hsflctl))
  {
    hide GoCleared, Controlled, Done, Failed, Start, Cycle, Asked, ReadCycle, DoneFlags, ErrorFlags;
    CycleRuns(s, at, 0, less);
    FlagsAfter(s.hsflctl, 0, less);
    ReadBytes(Begun(s, at, 0, less), Asked(less), at as int, i);
  }

  lemma WriteBytes(c: Spi, n: nat, at: nat, i: nat)
    requires Sized(c) && 0 < n <= 64 && i < n
    ensures var r := WriteCycle(c, n, at);
            if at + n <= |c.image| then
              && |r.image| == |c.image| && r.hsflctl == Done(c.hsflctl) && |r.buffer| == 64
              && r.image[at + i] == r.buffer[i] == AndByte(c.buffer[i], c.image[at + i])
            else r.image == c.image && r.buffer == c.buffer && r.hsflctl == Failed(c.hsflctl)
  {
    hide Done, Failed, AndByte;
  }

  /** A write cycle inside the image leaves the ANDed bytes in image and buffer and is done; else it only fails. */
  lemma WriteAnds(s: Spi, at: bv32, less: bv6, i: nat)
    requires Valid(s) && i < Asked(less)
    ensures var r, a, n := Cycle(s, at, 2, less), at as int, Asked(less);
            if a + n <= |s.image| then
              && |r.image| == |s.image| && DoneFlags(s.hsflctl, r.hsflctl) && |r.buffer| == 64
              && r.image[a + i] == r.buffer[i] && IsAnd(r.buffer[i], s.buffer[i], s.image[a + i])
            else r.image == s.image && r.buffer == s.buffer && ErrorFlags(s.hsflctl, r.hsflctl)
  {
    hide GoCleared, Controlled, Done, Failed, Start, Cycle, Asked, WriteCycle, AndByte, IsAnd, DoneFlags, ErrorFlags;
    CycleRuns(s, at, 2, less);
    FlagsAfter(s.hsflctl, 2, less);
    WriteBytes(Begun(s, at, 2, less), Asked(less), at as int, i);
    if at as int + Asked(less) <= |s.image| {
      AndedOctets(s.buffer[i], s.image[at as int + i]);
    }
  }

  predicate IsAnd(r: byte, x: byte, y: byte) { r as bv8 == (x as bv8) & (y as bv8) }

  lemma AndedOctets(x: byte, y: byte)
    ensures IsAnd(AndByte(x, y), x, y)
  {
  }

  lemma IdBytes(c: Spi, n: nat, i: nat)
    requires Sized(c) && 0 < n <= 64 && i < 64
    ensures var r := IdCycle(c, n);
            && r.image == c.image && |r.buffer| == 64 && r.hsflctl == Done(c.hsflctl)
            && r.buffer[i] == if i < n then c.jedec[i] else c.buffer[i]
  {
    hide Done;
  }

  /** An identification cycle reads the identification bytes, as many as asked for, and is always done. */
  lemma IdReads(s: Spi, at: bv32, less: bv6, i: nat)
    requires Valid(s) && i < 64
    ensures var r := Cycle(s, at, 6, less);
            && r.image == s.image && |r.buffer| == 64 && DoneFlags(s.hsflctl, r.hsflctl)
            && r.buffer[i] == if i < Asked(less) then s.jedec[i] else s.buffer[i]
  {
    hide GoCleared, Controlled, Done, Failed, Start, Cycle, Asked, IdCycle, DoneFlags, ErrorFlags;
    CycleRuns(s, at, 6, less);
    FlagsAfter(s.hsflctl, 6, less);
    IdBytes(Begun(s, at, 6, less), Asked(less), i);
  }

  /** Without the go bit a control word starts nothing: ones in the low bits clear flags. */
  lemma FlagsCleared(s: Spi, value: bv32)
    requires Valid(s) && value & 0x1_0000 == 0
    ensures var r := Write(s, Control(value));
            && r == s.(hsflctl := r.hsflctl) && r.hsflctl & 7 == s.hsflctl & 7 & !value && r.hsflctl & 0x1_0000 == 0
  {
    ClearedFlags(s.hsflctl, value);
    hide Controlled;
  }

  lemma ClearedFlags(h: bv32, value: bv32)
    requires value & 0x1_0000 == 0
    ensures Controlled(h, value) & F_GO == 0 && Controlled(h, value) & 7 == h & 7 & !value
    ensures Controlled(h, value) & 0x1_0000 == 0
  {
  }
}
