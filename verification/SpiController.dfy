/** The flash controller: register writes change its registers, its data buffer and the image file in place. */
module SpiController {
  import opened Options
  import opened Bytes
  import opened SpiFlash

  /** What a write to a register address means; a register takes the first four bytes. */
  function AccessOf(addr: int, data: seq<byte>): Access
    requires 0x10 <= addr < 0x50 || |data| >= 4
  {
    if 0x10 <= addr < 0x50 then Data(addr - 0x10, data)
    else if addr == 0x4 then Control(LoadWord(data[..4]))
    else if addr == 0x8 then FlashAddress(LoadWord(data[..4]))
    else Other
  }

  /** What a read of the data buffer or the control register delivers; None when the caller's buffer is left alone. */
  function ReadOf(s: Spi, addr: int, count: nat): Option<seq<byte>>
    requires Sized(s) && (0x10 <= addr < 0x50 || addr == 0x4)
  {
    if addr == 0x4 then Some(StoreWord(s.hsflctl))
    else if addr - 0x10 + count > BUFFER_SIZE then None
    else Some(s.buffer[addr - 0x10..addr - 0x10 + count])
  }

  class Controller {
    const image: array<byte>
    const buffer: array<byte>
    const scratch: array<byte>
    const jedec: seq<byte>
    var hsflctl: bv32
    var faddr: bv32

    ghost predicate Alive() {
      && buffer.Length == BUFFER_SIZE && scratch.Length == BUFFER_SIZE && |jedec| == 0x100
      && image != buffer && image != scratch && buffer != scratch
    }

    ghost function View(): (s: Spi)
      requires Alive()
      reads this, image, buffer, scratch
      ensures Sized(s)
    {
      Spi(image[..], buffer[..], scratch[..], jedec, hsflctl, faddr)
    }

    constructor (content: seq<byte>, jedec: seq<byte>)
      requires |jedec| == 0x100
      ensures Alive() && Valid(View()) && image[..] == content && this.jedec == jedec
      ensures fresh(image) && fresh(buffer) && fresh(scratch)
    {
      image := new byte[|content|](i requires 0 <= i < |content| => content[i]);
      buffer := new byte[BUFFER_SIZE](_ => 0);
      scratch := new byte[BUFFER_SIZE](_ => 0);
      this.jedec, hsflctl, faddr := jedec, 0, 0;
    }

    /** lseek and read: as many bytes as the file has there. */
    method ReadImage(at: nat, n: nat, into: array<byte>) returns (rc: nat)
      requires n <= into.Length && into != image
      modifies into
      ensures var got := Readable(image[..], at, n); rc == |got| && into[..] == Overwrite(old(into[..]), 0, got)
    {
      var got := Readable(image[..], at, n);
      rc := |got|;
      Memcpy(into, 0, got);
    }

    method AndLoop(n: nat)
      requires Alive() && n <= BUFFER_SIZE
      modifies buffer
      ensures buffer[..] == Overwrite(old(buffer[..]), 0, AndBytes(old(buffer[..n]), scratch[..n]))
    {
      hide AndByte;
      for i := 0 to n
        invariant forall k :: 0 <= k < i ==> buffer[k] == AndByte(old(buffer[k]), scratch[k])
        invariant forall k :: i <= k < BUFFER_SIZE ==> buffer[k] == old(buffer[k])
      {
        buffer[i] := AndByte(buffer[i], scratch[i]);
      }
    }

    method DoWriteCycle(n: nat, at: nat)
      requires Alive() && 0 < n <= BUFFER_SIZE
      modifies this, image, buffer, scratch
      ensures View() == WriteCycle(old(View()), n, at)
    {
      hide AndBytes, Overwrite, Readable, Done, Failed;
      ghost var s := View();
      ReadableAll(image[..], at, n);
      var rc := ReadImage(at, n, scratch);
      if rc != n {
        hsflctl := Failed(hsflctl);
        return;
      }
      ghost var got := Readable(s.image, at, n);
      OverwriteFront(s.scratch, got);
      AndLoop(n);
      OverwriteFront(s.buffer, AndBytes(s.buffer[..n], got));
      assert buffer[..n] == AndBytes(s.buffer[..n], Readable(s.image, at, n));
      Memcpy(image, at, buffer[..n]);
      hsflctl := Done(hsflctl);
    }

    method DoReadCycle(n: nat, at: nat)
      requires Alive() && 0 < n <= BUFFER_SIZE
      modifies this, buffer
      ensures View() == ReadCycle(old(View()), n, at)
    {
      hide Readable, Overwrite, Done, Failed;
      var rc := ReadImage(at, n, buffer);
      hsflctl := if rc == n then Done(hsflctl) else Failed(hsflctl);
    }

    /** Runs the cycle that the go bit asks for. */
    method DoHwseq()
      requires Alive()
      modifies this, image, buffer, scratch
      ensures View() == Sequenced(old(View()))
    {
      hide GoCleared, CycleType, Count, ReadCycle, WriteCycle, Overwrite, Done;
      if hsflctl & F_GO == 0 {
        return;
      }
      hsflctl := GoCleared(hsflctl);
      var n, cycle := Count(hsflctl), CycleType(hsflctl);
      if cycle == 0 {
        DoReadCycle(n, faddr as int);
      } else if cycle == 2 {
        DoWriteCycle(n, faddr as int);
      } else if cycle == 6 {
        Memcpy(buffer, 0, jedec[..n]);
        hsflctl := Done(hsflctl);
      } else {
        hsflctl := Done(hsflctl);
      }
    }

    method SpiWrite(addr: int, data: seq<byte>)
      requires Alive() && (0x10 <= addr < 0x50 || |data| >= 4)
      modifies this, image, buffer, scratch
      ensures View() == Write(old(View()), AccessOf(addr, data))
    {
      hide Sequenced, Controlled, LoadWord;
      if 0x10 <= addr < 0x50 {
        if |data| + (addr - 0x10) > BUFFER_SIZE {
          return;
        }
        Memcpy(buffer, addr - 0x10, data);
        return;
      }
      var value := LoadWord(data[..4]);
      if addr == 0x4 {
        if hsflctl & F_GO == 0 {
          hsflctl := Controlled(hsflctl, value);
        }
      } else if addr == 0x8 {
        faddr := value;
      }
      DoHwseq();
    }

    /** A read of the data buffer or of the control register. */
    method SpiRead(addr: int, count: nat) returns (data: Option<seq<byte>>)
      requires Alive() && (0x10 <= addr < 0x50 || addr == 0x4)
      ensures data == ReadOf(View(), addr, count)
    {
      if 0x10 <= addr < 0x50 {
        if count + (addr - 0x10) > BUFFER_SIZE {
          return None;
        }
        return Some(buffer[addr - 0x10..addr - 0x10 + count]);
      }
      data := Some(StoreWord(hsflctl));
    }
  }

  // ----- whole cycles by register address -----

  /** Data written off bytes past 0x10 lands off bytes into the data buffer, and changes nothing else. */
  lemma BufferByOffset(s: Spi, off: nat, data: seq<byte>)
    requires Sized(s) && off < 64
    ensures var w := Write(s, AccessOf(0x10 + off, data));
            if off + |data| <= 64 then
              && w == s.(buffer := w.buffer) && |w.buffer| == 64 && w.buffer[off..off + |data|] == data
              && w.buffer[..off] == s.buffer[..off] && w.buffer[off + |data|..] == s.buffer[off + |data|..]
            else w == s
  {
  }

  /** No other address than these, 0x4 and 0x8 changes the flash, the buffer or the sequencer's registers. */
  lemma OtherAddresses(s: Spi, addr: int, data: seq<byte>)
    requires SpiFlash.Valid(s) && (addr < 0x10 || addr >= 0x50) && addr != 0x4 && addr != 0x8 && |data| >= 4
    ensures Write(s, AccessOf(addr, data)) == s
  {
  }

  /** A word written to a register. */
  function Poke(s: Spi, addr: int, w: Word): Spi
    requires Sized(s) && !(0x10 <= addr < 0x50)
  {
    Write(s, AccessOf(addr, StoreWord(w)))
  }

  lemma PokeMeans(s: Spi, w: Word)
    requires Sized(s)
    ensures Poke(s, 0x8, w) == Write(s, FlashAddress(w)) && Poke(s, 0x4, w) == Write(s, Control(w))
  {
    hide StoreWord, LoadWord, Write;
    LoadStoreWord(w);
    assert StoreWord(w)[..4] == StoreWord(w);
  }

  /** The flash address at 0x8, then a control word at 0x4. */
  function Issue(s: Spi, at: Word, control: Word): Spi
    requires SpiFlash.Valid(s)
  {
    WriteKeepsValid(s, FlashAddress(at));
    PokeMeans(s, at);
    Poke(Poke(s, 0x8, at), 0x4, control)
  }

  lemma IssueIsCycle(s: Spi, at: Word, cycle: bv4, less: bv6)
    requires SpiFlash.Valid(s)
    ensures Issue(s, at, Start(cycle, less)) == Cycle(s, at, cycle, less) && SpiFlash.Valid(Cycle(s, at, cycle, less))
  {
    ValidIsSized(s);
    ValidIsSized(Write(s, FlashAddress(at)));
    hide Write, Poke, Start, SpiFlash.Valid;
    PokeMeans(s, at);
    WriteKeepsValid(s, FlashAddress(at));
    PokeMeans(Write(s, FlashAddress(at)), Start(cycle, less));
    WriteKeepsValid(Write(s, FlashAddress(at)), Control(Start(cycle, less)));
  }

  /** Bit 0 of the control register is set and bit 16 is clear. */
  predicate ReadsDone(s: Spi)
    requires Sized(s)
  {
    match ReadOf(s, 0x4, 4)
    case Some(word) => |word| == 4 && LoadWord(word) & 1 == 1 && LoadWord(word) & 0x1_0000 == 0
    case None => false
  }

  lemma DoneIsRead(s: Spi, before: Word)
    requires Sized(s) && DoneFlags(before, s.hsflctl)
    ensures ReadsDone(s)
  {
    DoneBits(before, s.hsflctl);
    hide StoreWord, LoadWord, DoneFlags;
    LoadStoreWord(s.hsflctl);
  }

  lemma DoneBits(before: Word, after: Word)
    requires DoneFlags(before, after)
    ensures after & 1 == 1 && after & 0x1_0000 == 0
  {
  }

  /**
   Up to 64 bytes of flash read by register address: the address at 0x8, type 0 with the byte count less one and
   the go bit at 0x4, and then, done, the bytes from 0x10 on.
   */
  lemma FlashIsRead(s: Spi, at: Word, less: bv6)
    requires SpiFlash.Valid(s) && at as int + Asked(less) <= |s.image|
    ensures var r, n := Issue(s, at, Start(0, less)), Asked(less);
            && Sized(r) && n <= 64 && ReadsDone(r)
            && ReadOf(r, 0x10, n) == Some(s.image[at as int..at as int + n])
  {
    hide Issue, Cycle, Start, Asked, DoneFlags, ReadsDone, SpiFlash.Valid, ReadOf, Sized, StoreWord;
    var r := Cycle(s, at, 0, less);
    IssueIsCycle(s, at, 0, less);
    CycleReads(s, at, less);
    ValidIsSized(r);
    DoneIsRead(r, s.hsflctl);
    DataIsRead(r, r.buffer[..Asked(less)]);
  }

  lemma CycleReads(s: Spi, at: Word, less: bv6)
    requires SpiFlash.Valid(s) && at as int + Asked(less) <= |s.image|
    ensures var r, n := Cycle(s, at, 0, less), Asked(less);
            && n <= 64 && |r.buffer| == 64 && DoneFlags(s.hsflctl, r.hsflctl)
            && r.buffer[..n] == s.image[at as int..at as int + n]
  {
    hide Cycle, Asked, DoneFlags, SpiFlash.Valid, Sized;
    AskedFits(less);
    var r, n, a := Cycle(s, at, 0, less), Asked(less), at as int;
    ReadsAt(s, at, less, 0);
    forall i | 0 <= i < n ensures r.buffer[i] == s.image[a + i] {
      ReadsAt(s, at, less, i);
    }
    SliceIs(r.buffer, s.image, a, n);
  }

  lemma ReadsAt(s: Spi, at: Word, less: bv6, i: nat)
    requires SpiFlash.Valid(s) && at as int + Asked(less) <= |s.image| && i < Asked(less) <= 64
    ensures var r := Cycle(s, at, 0, less);
            && |r.buffer| == 64 && DoneFlags(s.hsflctl, r.hsflctl) && r.buffer[i] == s.image[at as int + i]
  {
    hide Cycle, Asked, DoneFlags, ErrorFlags, SpiFlash.Valid;
    ReadReads(s, at, less, i);
  }

  lemma SliceIs(r: seq<byte>, y: seq<byte>, at: nat, n: nat)
    requires n <= |r| && at + n <= |y| && forall i :: 0 <= i < n ==> r[i] == y[at + i]
    ensures r[..n] == y[at..at + n]
  {
  }

  lemma DataIsRead(r: Spi, data: seq<byte>)
    requires Sized(r) && |data| <= 64 && forall i :: 0 <= i < |data| ==> r.buffer[i] == data[i]
    ensures ReadOf(r, 0x10, |data|) == Some(data)
  {
    assert r.buffer[0x10 - 0x10..0x10 - 0x10 + |data|] == data;
  }

  /** The bytes at 0x10 on, then type 2. */
  function Programmed(s: Spi, at: Word, data: seq<byte>, less: bv6): (r: Spi)
    requires SpiFlash.Valid(s) && |data| <= 64
    ensures SpiFlash.Valid(r)
  {
    WriteKeepsValid(s, AccessOf(0x10, data));
    IssueIsCycle(Write(s, AccessOf(0x10, data)), at, 2, less);
    Issue(Write(s, AccessOf(0x10, data)), at, Start(2, less))
  }

  /** Each byte is the AND of two others. */
  predicate AllAnds(r: seq<byte>, x: seq<byte>, y: seq<byte>) {
    |r| == |x| == |y| && forall i :: 0 <= i < |r| ==> IsAnd(r[i], x[i], y[i])
  }

  lemma DataInBuffer(s: Spi, data: seq<byte>)
    requires SpiFlash.Valid(s) && |data| <= 64
    ensures var w := Write(s, AccessOf(0x10, data));
            SpiFlash.Valid(w) && w.image == s.image && w.hsflctl == s.hsflctl && w.buffer[..|data|] == data
  {
  }

  /**
   Bytes programmed by register address and read back the same way are what was written ANDed with what the flash
   held, so on erased flash they are what was written.
   */
  lemma ProgramThenRead(s: Spi, at: Word, data: seq<byte>, less: bv6)
    requires SpiFlash.Valid(s) && |data| == Asked(less) <= 64 && at as int + |data| <= |s.image|
    ensures var p := Programmed(s, at, data, less);
            var held, n := s.image[at as int..at as int + |data|], |data|;
            && ReadsDone(p) && |p.image| == |s.image|
            && var out := ReadOf(Issue(p, at, Start(0, less)), 0x10, n);
            && out == Some(p.image[at as int..at as int + n])
            && AllAnds(out.value, data, held)
            && (IsErased(held) ==> out.value == data)
  {
    hide Issue, Cycle, Start, Asked, DoneFlags, ReadsDone, SpiFlash.Valid, ReadOf, AllAnds, Programmed, IsErased;
    var p, held := Programmed(s, at, data, less), s.image[at as int..at as int + |data|];
    CyclePrograms(s, at, data, less);
    ValidIsSized(p);
    DoneIsRead(p, s.hsflctl);
    FlashIsRead(p, at, less);
    ErasedKeeps(p.image[at as int..at as int + |data|], data, held);
  }

  lemma CyclePrograms(s: Spi, at: Word, data: seq<byte>, less: bv6)
    requires SpiFlash.Valid(s) && |data| == Asked(less) <= 64 && at as int + |data| <= |s.image|
    ensures var p := Programmed(s, at, data, less);
            && |p.image| == |s.image| && DoneFlags(s.hsflctl, p.hsflctl)
            && AllAnds(p.image[at as int..at as int + |data|], data, s.image[at as int..at as int + |data|])
  {
    hide Issue, Cycle, Start, Asked, DoneFlags, Write, AccessOf, AllAnds, SpiFlash.Valid;
    ValidIsSized(s);
    DataInBuffer(s, data);
    var w := Write(s, AccessOf(0x10, data));
    IssueIsCycle(w, at, 2, less);
    CycleAnds(w, at, less);
  }

  lemma CycleAnds(w: Spi, at: Word, less: bv6)
    requires SpiFlash.Valid(w) && at as int + Asked(less) <= |w.image|
    ensures var p, n := Cycle(w, at, 2, less), Asked(less);
            && n <= 64 == |w.buffer| && |p.image| == |w.image| && DoneFlags(w.hsflctl, p.hsflctl)
            && AllAnds(p.image[at as int..at as int + n], w.buffer[..n], w.image[at as int..at as int + n])
  {
    hide Cycle, Asked, DoneFlags, AllAnds, IsAnd, SpiFlash.Valid, Sized;
    AskedFits(less);
    BufferLength(w);
    var p, n, a := Cycle(w, at, 2, less), Asked(less), at as int;
    AndsAt(w, at, less, 0);
    forall i | 0 <= i < n
      ensures IsAnd(p.image[a + i], w.buffer[i], w.image[a + i])
    {
      AndsAt(w, at, less, i);
    }
    SliceAnds(p.image, w.buffer, w.image, a, n);
  }

  lemma SliceAnds(r: seq<byte>, x: seq<byte>, y: seq<byte>, at: nat, n: nat)
    requires at + n <= |r| == |y| && n <= |x| && forall i :: 0 <= i < n ==> IsAnd(r[at + i], x[i], y[at + i])
    ensures AllAnds(r[at..at + n], x[..n], y[at..at + n])
  {
    hide IsAnd;
  }

  lemma AndsAt(w: Spi, at: Word, less: bv6, i: nat)
    requires SpiFlash.Valid(w) && at as int + Asked(less) <= |w.image| && i < Asked(less) <= 64 == |w.buffer|
    ensures var p := Cycle(w, at, 2, less);
            && |p.image| == |w.image| && DoneFlags(w.hsflctl, p.hsflctl)
            && IsAnd(p.image[at as int + i], w.buffer[i], w.image[at as int + i])
  {
    hide Cycle, Asked, DoneFlags, ErrorFlags, IsAnd, SpiFlash.Valid;
    WriteAnds(w, at, less, i);
  }

  /** Every bit of erased flash is set. */
  predicate IsErased(held: seq<byte>) { forall b :: b in held ==> b == 0xFF }

  lemma ErasedKeeps(r: seq<byte>, x: seq<byte>, held: seq<byte>)
    requires AllAnds(r, x, held)
    ensures IsErased(held) ==> r == x
  {
    hide IsAnd;
    if IsErased(held) {
      forall i | 0 <= i < |r| ensures r[i] == x[i] {
        assert held[i] in held;
        OnesKeep(r[i], x[i]);
      }
    }
  }

  lemma OnesKeep(r: byte, x: byte)
    requires IsAnd(r, x, 0xFF)
    ensures r == x
  {
    OctetBack(r);
    OctetBack(x);
    AndOnes(r as bv8, x as bv8, 0xFF as bv8);
  }

  lemma AndOnes(r: bv8, x: bv8, y: bv8)
    requires r == x & y && y == 0xFF
    ensures r == x
  {
  }

  lemma BufferLength(s: Spi)
    ensures SpiFlash.Valid(s) ==> |s.buffer| == 64
  {
  }

  lemma ValidIsSized(s: Spi)
    ensures SpiFlash.Valid(s) ==> Sized(s)
  {
  }

  lemma AskedFits(less: bv6)
    ensures Asked(less) <= 64
  {
  }

  lemma OverwriteFront(dst: seq<byte>, src: seq<byte>)
    requires |src| <= |dst|
    ensures Overwrite(dst, 0, src)[..|src|] == src
  {
  }
}
