/** Trace packets as firmware sends them: writes to the registers of its channel, delivered as packets. */
module TraceWrites {
  import B = Bytes
  import opened TraceSpec
  import opened TraceHub
  import opened TraceTheorems

  datatype RegWrite = RegWrite(off: nat, data: seq<B.byte>)

  /** The registers of a channel, by message type. */
  const OFFSETS: seq<nat> := [0x00, 0x08, 0x10, 0x18, 0x20, 0x28, 0x30, 0x34, 0x38, 0x3C]

  lemma TypesInOrder(kind: nat, undefined: int)
    requires kind < 10
    ensures MsgType(OFFSETS[kind], undefined) == kind
  {
  }

  /** A register that is not the flag's. */
  predicate DataRegister(off: nat) { off in OFFSETS && off != 0x30 }

  /** The header to register 0x10, length and pieces to any data registers, and a zero word to register 0x30. */
  ghost predicate WritesPacket(ws: seq<RegWrite>, p: Packet) {
    && |p.header| == 4 && |p.data| < 0x1_0000 && |ws| == 3 + Pieces(|p.data|)
    && ws[0] == RegWrite(0x10, p.header)
    && DataRegister(ws[1].off) && ws[1].data == [|p.data| % 0x100, |p.data| / 0x100]
    && (forall i :: 2 <= i < 2 + Pieces(|p.data|) ==>
          DataRegister(ws[i].off) && ws[i].data == Split(p.data)[i - 2])
    && ws[|ws| - 1] == RegWrite(0x30, [0, 0, 0, 0])
  }

  /** What the region makes of the writes: stale are the union's former bytes at each of them. */
  ghost predicate SentAs(ws: seq<RegWrite>, master: nat, channel: nat, stale: seq<Raw>, es: seq<Event>) {
    && |es| == |ws| == |stale|
    && forall i :: 0 <= i < |ws| ==>
         && ws[i].off < 0x40 && Supported(|ws[i].data|)
         && es[i] == EventOf(Address(master, channel, ws[i].off), ws[i].data, stale[i], 0)
  }

  lemma {:induction false} PieceIsSupported(data: seq<B.byte>, i: nat)
    requires i < Pieces(|data|)
    ensures Supported(|Split(data)[i]|) && 0 < |Split(data)[i]| <= 4
    decreases |data|
  {
    var n := PieceSize(|data|);
    assert Pieces(|data|) == 1 + Pieces(|data| - n);
    assert Split(data) == [data[..n]] + Split(data[n..]);
    if i > 0 {
      PieceIsSupported(data[n..], i - 1);
    }
  }

  lemma RegisterSends(master: nat, channel: nat, w: RegWrite, stale: Raw)
    requires master < 64 && channel < 1024 && w.off in OFFSETS && Supported(|w.data|)
    ensures w.off < 0x40
    ensures var e := EventOf(Address(master, channel, w.off), w.data, stale, 0);
            && From(e, master, channel) && e.msg.size == |w.data| && e.msg.raw[..|w.data|] == w.data
            && (w.off == 0x30 <==> e.msg.kind == MT_FLAG) && (w.off == 0x10 <==> e.msg.kind == MT_DnTS)
  {
    AddressNames(master, channel, w.off, w.data, stale, 0);
  }

  lemma WritesArePacket(ws: seq<RegWrite>, master: nat, channel: nat, stale: seq<Raw>, es: seq<Event>, p: Packet)
    requires master < 64 && channel < 1024 && WritesPacket(ws, p) && SentAs(ws, master, channel, stale, es)
    ensures IsPacket(es, master, channel, p)
  {
    hide EventOf, Address, Split, Pieces, MT_FLAG, MT_DnTS;
    forall i | 0 <= i < |ws|
      ensures From(es[i], master, channel) && es[i].msg.size == |ws[i].data|
      ensures es[i].msg.raw[..|ws[i].data|] == ws[i].data
      ensures (ws[i].off == 0x30 <==> es[i].msg.kind == MT_FLAG) && (ws[i].off == 0x10 <==> es[i].msg.kind == MT_DnTS)
    {
      RegisterSends(master, channel, ws[i], stale[i]);
    }
    forall i | 2 <= i < 2 + Pieces(|p.data|)
      ensures Carries(es[i], Split(p.data)[i - 2])
    {
      PieceIsSupported(p.data, i - 2);
    }
  }

  /** Written register by register, a packet of at most 64 messages is delivered as it is. */
  lemma WritesDeliver(t: Trace, ws: seq<RegWrite>, master: nat, channel: nat, stale: seq<Raw>, es: seq<Event>,
                      p: Packet)
    requires Valid(t) && Fresh(t, master, channel) && master < 64 && channel < 1024
    requires WritesPacket(ws, p) && SentAs(ws, master, channel, stale, es) && |ws| <= TRACEBUF_SIZE
    ensures Runs(t, es)
    ensures var s := Run(t, es); s.pos == 0 && s.delivered == t.delivered + [p]
  {
    hide WritesPacket, SentAs, IsPacket, Run, Runs;
    WritesArePacket(ws, master, channel, stale, es, p);
    assert |es| == |ws| by { SameLength(ws, master, channel, stale, es); }
    PacketDelivered(t, es, master, channel, p);
  }

  lemma SameLength(ws: seq<RegWrite>, master: nat, channel: nat, stale: seq<Raw>, es: seq<Event>)
    requires SentAs(ws, master, channel, stale, es)
    ensures |es| == |ws|
  {
  }
}
