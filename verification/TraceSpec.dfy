/** Trace packets: how a sender splits one into messages, and the state in which the receiver puts them together. */
module TraceSpec {
  import opened Bytes

  const TRACEBUF_SIZE := 64
  const MT_DnTS := 2
  const MT_FLAG := 6

  type Raw = s: seq<byte> | |s| == 8 witness [0, 0, 0, 0, 0, 0, 0, 0]

  /** A message and the eight bytes of its data union: those past its size are whatever they were. */
  datatype Msg = Msg(kind: int, size: nat, raw: Raw)

  datatype Event = Event(master: int, channel: int, msg: Msg)

  /** What the decoder hands on: the header word and the payload. */
  datatype Packet = Packet(header: seq<byte>, data: seq<byte>)

  /** The receiver: who the current messages are from, how many there are, and the packets handed on. */
  datatype Trace = Trace(master: int, channel: int, pos: nat, msgs: seq<Msg>, delivered: seq<Packet>)

  predicate Valid(t: Trace) {
    t.pos <= TRACEBUF_SIZE && |t.msgs| == TRACEBUF_SIZE
  }

  function D16(m: Msg): (n: nat)
    ensures n < 0x1_0000
  {
    var low: int, high: int := m.raw[0], m.raw[1];
    low + 0x100 * high
  }

  const ZERO32: seq<byte> := [0, 0, 0, 0]

  function PieceSize(size: nat): nat { if size >= 4 then 4 else if size >= 2 then 2 else 1 }

  /** The number of messages that carry a payload. */
  function Pieces(size: nat): nat { if size == 0 then 0 else 1 + Pieces(size - PieceSize(size)) }

  /** The payload, taken out of the messages from ipos on in words, then halves, then bytes. */
  function Gather(msgs: seq<Msg>, ipos: nat, size: nat): (data: seq<byte>)
    requires ipos + Pieces(size) <= |msgs|
    ensures |data| == size
    decreases size
  {
    if size == 0 then []
    else
      var n := PieceSize(size);
      msgs[ipos].raw[..n] + Gather(msgs, ipos + 1, size - n)
  }

  // ----- one message -----

  /** A full packet is in the buffer and starts, is sized and ends as it should. */
  predicate WellFormed(msgs: seq<Msg>, pos: nat)
    requires 0 < pos <= TRACEBUF_SIZE == |msgs|
  {
    msgs[0].kind == MT_DnTS && msgs[0].size == 4 && msgs[1].size == 2 && msgs[pos - 1].raw[..4] == ZERO32
  }

  /** The messages that a decoded packet's size calls for are in the array. */
  predicate InArray(msgs: seq<Msg>, pos: nat)
    requires 0 < pos <= TRACEBUF_SIZE == |msgs|
  {
    msgs[pos - 1].kind == MT_FLAG && WellFormed(msgs, pos) ==> 2 + Pieces(D16(msgs[1])) <= TRACEBUF_SIZE
  }

  function Decode(t: Trace): Trace
    requires Valid(t) && t.pos > 0 && InArray(t.msgs, t.pos)
  {
    if t.msgs[t.pos - 1].kind != MT_FLAG then t
    else if !WellFormed(t.msgs, t.pos) then t.(pos := 0)
    else
      var packet := Packet(t.msgs[0].raw[..4], Gather(t.msgs, 2, D16(t.msgs[1])));
      t.(pos := 0, master := -1, delivered := t.delivered + [packet])
  }

  /** A message from another master or channel starts over. */
  function Switched(t: Trace, master: int, channel: int): Trace {
    if t.master != master || t.channel != channel then t.(pos := 0, master := master, channel := channel) else t
  }

  function Stored(t: Trace, e: Event): (s: Trace)
    requires Valid(t) && Switched(t, e.master, e.channel).pos < TRACEBUF_SIZE
    ensures Valid(s) && s.pos > 0
  {
    var s := Switched(t, e.master, e.channel);
    s.(pos := s.pos + 1, msgs := s.msgs[s.pos := e.msg])
  }

  /** The message and the packet it may complete stay within the 64-message buffer. */
  predicate Accepts(t: Trace, e: Event)
    requires Valid(t)
  {
    Switched(t, e.master, e.channel).pos < TRACEBUF_SIZE && InArray(Stored(t, e).msgs, Stored(t, e).pos)
  }

  function Receive(t: Trace, e: Event): (s: Trace)
    requires Valid(t) && Accepts(t, e)
    ensures Valid(s)
  {
    Decode(Stored(t, e))
  }

  predicate Runs(t: Trace, es: seq<Event>)
    requires Valid(t)
    decreases |es|
  {
    es != [] ==> Accepts(t, es[0]) && Runs(Receive(t, es[0]), es[1..])
  }

  function Run(t: Trace, es: seq<Event>): (s: Trace)
    requires Valid(t) && Runs(t, es)
    ensures Valid(s)
    decreases |es|
  {
    if es == [] then t else Run(Receive(t, es[0]), es[1..])
  }

  // ----- the sender -----

  /** A payload split greedily: words, then a half, then a byte. */
  function Split(data: seq<byte>): (pieces: seq<seq<byte>>)
    ensures |pieces| == Pieces(|data|)
    decreases |data|
  {
    if data == [] then []
    else
      var n := PieceSize(|data|);
      [data[..n]] + Split(data[n..])
  }

  predicate From(e: Event, master: int, channel: int) { e.master == master && e.channel == channel }

  /** A message that carries these bytes, and is not the end of a packet. */
  predicate Carries(e: Event, piece: seq<byte>) {
    e.msg.kind != MT_FLAG && e.msg.size == |piece| <= 8 && e.msg.raw[..|piece|] == piece
  }

  function Size16(n: nat): seq<byte>
    requires n < 0x1_0000
  {
    [n % 0x100, n / 0x100]
  }

  /** Header word, 16-bit length, payload pieces and a zero flag, all from one master and channel. */
  ghost predicate IsPacket(es: seq<Event>, master: int, channel: int, p: Packet) {
    && |p.header| == 4 && |p.data| < 0x1_0000 && |es| == 3 + Pieces(|p.data|)
    && (forall i :: 0 <= i < |es| ==> From(es[i], master, channel))
    && es[0].msg.kind == MT_DnTS && Carries(es[0], p.header) && Carries(es[1], Size16(|p.data|))
    && (forall i :: 2 <= i < 2 + Pieces(|p.data|) ==> Carries(es[i], Split(p.data)[i - 2]))
    && es[|es| - 1].msg.kind == MT_FLAG && es[|es| - 1].msg.raw[..4] == ZERO32
  }
}
