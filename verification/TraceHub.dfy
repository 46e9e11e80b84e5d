/** The trace hub's receiver: the firmware trace region feeds messages to a buffer that is decoded in place. */
module TraceHub {
  import B = Bytes
  import opened TraceSpec

  const FTMR_SIZE := 0x40_0000

  /** The message type of a register; other offsets have none, and the value used is whatever was there. */
  function MsgType(off: nat, undefined: int): int {
    if off == 0x00 then 0 else if off == 0x08 then 1 else if off == 0x10 then 2 else if off == 0x18 then 3
    else if off == 0x20 then 4 else if off == 0x28 then 5 else if off == 0x30 then 6 else if off == 0x34 then 7
    else if off == 0x38 then 8 else if off == 0x3C then 9 else undefined
  }

  predicate Supported(count: nat) { count == 1 || count == 2 || count == 4 || count == 8 }

  /** The message for a write of the buffer at an address of the region; stale are the union's former bytes. */
  function EventOf(addr: nat, buffer: seq<B.byte>, stale: Raw, undefined: int): Event
    requires Supported(|buffer|)
  {
    Event(addr / 0x40 / 1024, addr / 0x40 % 1024,
      Msg(MsgType(addr % 0x40, undefined), |buffer|, buffer + stale[|buffer|..]))
  }

  /** The address of a register of a master's channel. */
  function Address(master: nat, channel: nat, off: nat): nat { (master * 1024 + channel) * 0x40 + off }

  /** Every master, channel and register has its own address, and a write there sends its bytes as that message. */
  lemma AddressNames(master: nat, channel: nat, off: nat, buffer: seq<B.byte>, stale: Raw, undefined: int)
    requires master < 64 && channel < 1024 && off < 0x40 && Supported(|buffer|)
    ensures Address(master, channel, off) < FTMR_SIZE
    ensures var e := EventOf(Address(master, channel, off), buffer, stale, undefined);
      From(e, master, channel) && e.msg.kind == MsgType(off, undefined) && e.msg.size == |buffer|
        && e.msg.raw[..|buffer|] == buffer
  {
  }

  /** The region is the registers of 64 masters and nothing else. */
  lemma RegionEnds(addr: nat)
    ensures addr < FTMR_SIZE <==> addr / 0x40 / 1024 < 64
  {
    var unit := addr / 0x40;
    assert addr < 0x40 * 65536 <==> unit < 65536;
    assert unit < 1024 * 64 <==> unit / 1024 < 64;
  }

  class TraceUnit {
    const msgs: array<Msg>
    const data: array<B.byte>
    var master: int
    var channel: int
    var pos: nat
    /** The packets handed to the decoder behind. */
    var delivered: seq<Packet>

    ghost predicate Alive()
      reads `pos
    {
      msgs.Length == TRACEBUF_SIZE && data.Length == TRACEBUF_SIZE * 4 && pos <= TRACEBUF_SIZE
    }

    ghost function View(): (t: Trace)
      requires Alive()
      reads this, msgs
      ensures Valid(t)
    {
      Trace(master, channel, pos, msgs[..], delivered)
    }

    constructor ()
      ensures Alive() && pos == 0 && master == -1 && channel == -1 && delivered == [] && fresh(msgs) && fresh(data)
    {
      master, channel, pos, delivered := -1, -1, 0, [];
      msgs := new Msg[TRACEBUF_SIZE](_ => Msg(0, 0, [0, 0, 0, 0, 0, 0, 0, 0]));
      data := new B.byte[TRACEBUF_SIZE * 4](_ => 0);
    }

    method Copy(dpos: nat, src: seq<B.byte>)
      requires dpos + |src| <= data.Length
      modifies data
      ensures data[..dpos + |src|] == old(data[..dpos]) + src
    {
      B.Memcpy(data, dpos, src);
    }

    /** dpos bytes are in the data buffer, and message ipos has the next ones. */
    ghost predicate Collecting(ipos: nat, dpos: nat, size: nat)
      requires 2 + Pieces(size) <= TRACEBUF_SIZE == msgs.Length
      reads msgs, data
    {
      && dpos <= size <= data.Length && ipos + Pieces(size - dpos) <= TRACEBUF_SIZE
      && Gather(msgs[..], 2, size) == data[..dpos] + Gather(msgs[..], ipos, size - dpos)
    }

    method TakePiece(ipos: nat, dpos: nat, size: nat, n: nat)
      requires Alive() && 2 + Pieces(size) <= TRACEBUF_SIZE && Collecting(ipos, dpos, size)
      requires dpos < size && n == PieceSize(size - dpos)
      modifies data
      ensures dpos + n <= size && Collecting(ipos + 1, dpos + n, size)
    {
      assert Pieces(size - dpos) == 1 + Pieces(size - dpos - n);
      hide Pieces, PieceSize;
      Copy(dpos, msgs[ipos].raw[..n]);
    }

    /** The payload goes to the data buffer in three loops: words, halves, bytes. */
    method Collect(size: nat)
      requires Alive() && 2 + Pieces(size) <= TRACEBUF_SIZE
      modifies data
      ensures size <= data.Length && data[..size] == Gather(msgs[..], 2, size)
    {
      hide Pieces, TraceUnit.Collecting, Gather;
      CollectingStart(size);
      var ipos, dpos := 2, 0;
      while dpos + 4 <= size
        invariant dpos <= size && Collecting(ipos, dpos, size)
      {
        TakePiece(ipos, dpos, size, 4);
        dpos := dpos + 4;
        ipos := ipos + 1;
      }
      while dpos + 2 <= size
        invariant dpos <= size < dpos + 4 && Collecting(ipos, dpos, size)
      {
        TakePiece(ipos, dpos, size, 2);
        dpos := dpos + 2;
        ipos := ipos + 1;
      }
      while dpos < size
        invariant dpos <= size < dpos + 2 && Collecting(ipos, dpos, size)
      {
        TakePiece(ipos, dpos, size, 1);
        dpos := dpos + 1;
        ipos := ipos + 1;
      }
      CollectingEnd(ipos, size);
    }

    lemma CollectingStart(size: nat)
      requires Alive() && 2 + Pieces(size) <= TRACEBUF_SIZE
      ensures Collecting(2, 0, size)
    {
      PiecesBound(size);
    }

    lemma CollectingEnd(ipos: nat, size: nat)
      requires Alive() && 2 + Pieces(size) <= TRACEBUF_SIZE && Collecting(ipos, size, size)
      ensures size <= data.Length && data[..size] == Gather(msgs[..], 2, size)
    {
      assert data[..size] + [] == data[..size];
    }

    method TraceDecode()
      requires Alive() && pos > 0 && InArray(msgs[..], pos)
      modifies this, data
      ensures Alive() && View() == Decode(old(View()))
    {
      hide Gather, Pieces;
      if msgs[pos - 1].kind != MT_FLAG {
        return;
      }
      if msgs[0].kind != MT_DnTS || msgs[0].size != 4 || msgs[1].size != 2 || msgs[pos - 1].raw[..4] != ZERO32 {
        pos := 0;
        return;
      }
      var header, size := msgs[0].raw[..4], D16(msgs[1]);
      Collect(size);
      pos := 0;
      master := -1;
      delivered := delivered + [Packet(header, data[..size])];
    }

    method TraceMsg(from: int, chan: int, msg: Msg)
      requires Alive() && Accepts(View(), Event(from, chan, msg))
      modifies this, data, msgs
      ensures Alive() && View() == Receive(old(View()), Event(from, chan, msg))
    {
      hide InArray, Decode;
      if pos > TRACEBUF_SIZE {
        assert false;
      }
      if master != from || channel != chan {
        pos := 0;
        master := from;
        channel := chan;
      }
      msgs[pos] := msg;
      pos := pos + 1;
      assert View() == Stored(old(View()), Event(from, chan, msg));
      TraceDecode();
    }

    /** 0 for an address outside the region. */
    method FtmrWrite(addr: nat, buffer: seq<B.byte>, stale: Raw, undefined: int) returns (r: int)
      requires Alive()
      requires addr < FTMR_SIZE && Supported(|buffer|) ==> Accepts(View(), EventOf(addr, buffer, stale, undefined))
      modifies this, data, msgs
      ensures Alive() && r == (if addr < FTMR_SIZE then 1 else 0)
      ensures View() == if addr < FTMR_SIZE && Supported(|buffer|) then
                          Receive(old(View()), EventOf(addr, buffer, stale, undefined)) else old(View())
    {
      hide Accepts, Receive;
      if addr >= FTMR_SIZE {
        return 0;
      }
      var masterChan := addr / 0x40;
      var from, chan := masterChan / 1024, masterChan % 1024;
      var kind := MsgType(addr % 0x40, undefined);
      if !Supported(|buffer|) {
        return 1;
      }
      TraceMsg(from, chan, Msg(kind, |buffer|, buffer + stale[|buffer|..]));
      return 1;
    }
  }

  lemma {:induction false} PiecesBound(size: nat)
    ensures size <= 4 * Pieces(size)
  {
    if size > 0 {
      PiecesBound(size - PieceSize(size));
    }
  }
}
