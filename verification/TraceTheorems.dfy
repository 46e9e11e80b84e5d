/** Reassembly inverts splitting, packet after packet, and an interleaved sender only loses its partial packet. */
module TraceTheorems {
  import B = Bytes
  import opened TraceSpec

  /** The first n messages of the buffer are those of es, from one sender, and behind them it is as it was. */
  ghost predicate Holding(t: Trace, es: seq<Event>, n: nat, before: seq<Msg>, master: int, channel: int) {
    && Valid(t) && n <= |es| && n <= TRACEBUF_SIZE == |before| && t.pos == n
    && (n > 0 ==> t.master == master && t.channel == channel)
    && (forall i :: 0 <= i < n ==> t.msgs[i] == es[i].msg)
    && forall i :: n <= i < TRACEBUF_SIZE ==> t.msgs[i] == before[i]
  }

  /** A sender may start: nothing is pending, or it is someone else's. */
  predicate Fresh(t: Trace, master: int, channel: int) {
    t.pos == 0 || t.master != master || t.channel != channel
  }

  /** At message n of a burst that came upon the buffer as it was before. */
  ghost predicate Ready(t: Trace, es: seq<Event>, n: nat, before: seq<Msg>, master: int, channel: int) {
    Holding(t, es, n, before, master, channel) || (n == 0 && Valid(t) && Fresh(t, master, channel) && t.msgs == before)
  }

  ghost predicate NoFlags(es: seq<Event>, n: nat) { n <= |es| && forall i :: 0 <= i < n ==> es[i].msg.kind != MT_FLAG }

  predicate AllFrom(es: seq<Event>, master: int, channel: int) {
    forall i :: 0 <= i < |es| ==> From(es[i], master, channel)
  }

  /** Messages before the flag pile up. */
  lemma {:induction false} PileUp(t: Trace, es: seq<Event>, n: nat, m: nat, before: seq<Msg>, master: int, channel: int)
    requires Ready(t, es, n, before, master, channel)
    requires n <= m <= |es| && m <= TRACEBUF_SIZE && NoFlags(es, m) && AllFrom(es, master, channel)
    ensures Runs(t, es[n..m])
    ensures var s := Run(t, es[n..m]);
      s.delivered == t.delivered && (if n == m then s == t else Holding(s, es, m, before, master, channel))
    decreases m - n
  {
    if n < m {
      var s := Stored(t, es[n]);
      assert s.msgs[s.pos - 1] == es[n].msg;
      assert es[n..m][1..] == es[n + 1..m];
      assert Receive(t, es[n]) == s;
      PileUp(s, es, n + 1, m, before, master, channel);
    }
  }

  lemma {:induction false} RunConcat(t: Trace, a: seq<Event>, b: seq<Event>)
    requires Valid(t) && Runs(t, a) && Runs(Run(t, a), b)
    ensures Runs(t, a + b) && Run(t, a + b) == Run(Run(t, a), b)
    decreases |a|
  {
    if a == [] {
      assert a + b == b;
    } else {
      hide Accepts, Receive, Valid;
      assert (a + b)[1..] == a[1..] + b;
      RunConcat(Receive(t, a[0]), a[1..], b);
    }
  }

  /** Messages ipos and following are in the buffer and carry the pieces of data. */
  ghost predicate InPlace(msgs: seq<Msg>, es: seq<Event>, ipos: nat, data: seq<B.byte>) {
    && ipos + Pieces(|data|) <= |msgs| && ipos + Pieces(|data|) <= |es|
    && forall i :: ipos <= i < ipos + Pieces(|data|) ==> msgs[i] == es[i].msg && Carries(es[i], Split(data)[i - ipos])
  }

  lemma InPlaceNext(msgs: seq<Msg>, es: seq<Event>, ipos: nat, data: seq<B.byte>)
    requires data != [] && InPlace(msgs, es, ipos, data)
    ensures var n := PieceSize(|data|);
      ipos < |msgs| && msgs[ipos].raw[..n] == data[..n] && InPlace(msgs, es, ipos + 1, data[n..])
  {
    var n := PieceSize(|data|);
    assert Pieces(|data|) == 1 + Pieces(|data| - n);
    hide Pieces, PieceSize;
    assert Split(data) == [data[..n]] + Split(data[n..]);
    assert Carries(es[ipos], Split(data)[0]);
  }

  /** Taking the payload out of messages that carry its pieces. */
  lemma {:induction false} GatherSplit(msgs: seq<Msg>, es: seq<Event>, ipos: nat, data: seq<B.byte>)
    requires InPlace(msgs, es, ipos, data)
    ensures Gather(msgs, ipos, |data|) == data
    decreases |data|
  {
    if data != [] {
      InPlaceNext(msgs, es, ipos, data);
      var n := PieceSize(|data|);
      hide InPlace, Pieces;
      GatherSplit(msgs, es, ipos + 1, data[n..]);
    }
  }

  // ----- one burst -----

  function Msgs(es: seq<Event>): (ms: seq<Msg>)
    ensures |ms| == |es| && forall i :: 0 <= i < |es| ==> ms[i] == es[i].msg
  {
    seq(|es|, i requires 0 <= i < |es| => es[i].msg)
  }

  /** The buffer with the messages of a burst in front. */
  function Buffered(before: seq<Msg>, es: seq<Event>): (ms: seq<Msg>)
    requires |es| <= |before|
    ensures |ms| == |before|
  {
    Msgs(es) + before[|es|..]
  }

  /** Messages without a flag but perhaps the last, which is decoded with the others in the buffer. */
  lemma LastDecodes(t: Trace, es: seq<Event>, master: int, channel: int) returns (whole: Trace)
    requires Valid(t) && Fresh(t, master, channel) && 0 < |es| <= TRACEBUF_SIZE && NoFlags(es, |es| - 1)
    requires AllFrom(es, master, channel)
    ensures Valid(whole) && whole.pos == |es| && whole.msgs == Buffered(t.msgs, es) && whole.delivered == t.delivered
    ensures whole.master == master && whole.channel == channel
    ensures InArray(whole.msgs, whole.pos) ==> Runs(t, es) && Run(t, es) == Decode(whole)
  {
    hide Decode, Holding, InArray, NoFlags, Buffered;
    var n := |es| - 1;
    PileUp(t, es, 0, n, t.msgs, master, channel);
    assert es[0..n] == es[..n];
    var s := Run(t, es[..n]);
    whole := Stored(s, es[n]);
    AllHeld(whole, es, t.msgs, master, channel);
    if InArray(whole.msgs, whole.pos) {
      assert es[n..] == [es[n]] && [es[n]][1..] == [];
      assert Accepts(s, es[n]) && Receive(s, es[n]) == Decode(whole);
      assert Runs(s, es[n..]) && Run(s, es[n..]) == Decode(whole);
      RunConcat(t, es[..n], es[n..]);
      assert es[..n] + es[n..] == es;
    }
  }

  lemma AllHeld(t: Trace, es: seq<Event>, before: seq<Msg>, master: int, channel: int)
    requires Holding(t, es, |es|, before, master, channel)
    ensures t.msgs == Buffered(before, es)
  {
  }

  /** The wrong first message, a length that is not 16 bits, or a flag that is not zero. */
  predicate Malformed(es: seq<Event>) {
    || |es| < 2 || es[0].msg.kind != MT_DnTS || es[0].msg.size != 4 || es[1].msg.size != 2
    || es[|es| - 1].msg.raw[..4] != ZERO32
  }

  /** A burst that ends in a flag and does not declare more messages than the buffer has. */
  ghost predicate IsFlagged(es: seq<Event>, master: int, channel: int) {
    && 0 < |es| <= TRACEBUF_SIZE && NoFlags(es, |es| - 1) && es[|es| - 1].msg.kind == MT_FLAG
    && AllFrom(es, master, channel)
    && (Malformed(es) || 2 + Pieces(D16(es[1].msg)) <= TRACEBUF_SIZE)
  }

  /** What a flagged burst hands on: nothing if malformed, else the header and as many bytes as declared. */
  function HandedOn(before: seq<Msg>, es: seq<Event>): seq<Packet>
    requires |es| <= |before| == TRACEBUF_SIZE
  {
    if Malformed(es) || 2 + Pieces(D16(es[1].msg)) > TRACEBUF_SIZE then []
    else [Packet(es[0].msg.raw[..4], Gather(Buffered(before, es), 2, D16(es[1].msg)))]
  }

  /** A flagged burst is handed on exactly when it is not malformed, and nothing of it stays pending. */
  lemma FlaggedHandedOn(t: Trace, es: seq<Event>, master: int, channel: int)
    requires Valid(t) && Fresh(t, master, channel) && IsFlagged(es, master, channel)
    ensures Runs(t, es)
    ensures var s := Run(t, es);
      s.pos == 0 && s.msgs == Buffered(t.msgs, es) && s.delivered == t.delivered + HandedOn(t.msgs, es)
  {
    var whole := LastDecodes(t, es, master, channel);
    assert whole.msgs[0] == es[0].msg && whole.msgs[|es| - 1] == es[|es| - 1].msg;
    assert |es| > 1 ==> whole.msgs[1] == es[1].msg;
    hide Run, Runs, NoFlags, Buffered, Gather, D16, Pieces, AllFrom;
    assert |es| > 1 ==> (WellFormed(whole.msgs, whole.pos) <==> !Malformed(es));
    assert t.delivered + [] == t.delivered;
  }

  // ----- when the payload is what was sent -----

  /** The bytes written by the messages between the length and the flag. */
  function Sent(msgs: seq<Msg>, ipos: nat, sizes: seq<nat>): seq<B.byte>
    requires ipos + |sizes| <= |msgs| && forall k :: 0 <= k < |sizes| ==> sizes[k] <= 8
    decreases |sizes|
  {
    if sizes == [] then [] else msgs[ipos].raw[..sizes[0]] + Sent(msgs, ipos + 1, sizes[1..])
  }

  /** The sizes of the pieces that greedy splitting cuts a payload into. */
  function GreedySizes(n: nat): (sizes: seq<nat>)
    ensures |sizes| == Pieces(n) && forall k :: 0 <= k < |sizes| ==> 0 < sizes[k] <= 4
  {
    if n == 0 then [] else [PieceSize(n)] + GreedySizes(n - PieceSize(n))
  }

  lemma {:induction false} GatherGreedy(msgs: seq<Msg>, ipos: nat, n: nat)
    requires ipos + Pieces(n) <= |msgs|
    ensures Gather(msgs, ipos, n) == Sent(msgs, ipos, GreedySizes(n))
    decreases n
  {
    if n > 0 {
      GatherGreedy(msgs, ipos + 1, n - PieceSize(n));
      assert GreedySizes(n)[1..] == GreedySizes(n - PieceSize(n));
    }
  }

  const BLANK: Msg := Msg(0, 0, [0, 0, 0, 0, 0, 0, 0, 0])

  /** A buffer of zeros, with a one at offset o of message i. */
  function Marked(i: nat, o: nat): (ms: seq<Msg>)
    requires i < TRACEBUF_SIZE && o < 8
    ensures |ms| == TRACEBUF_SIZE
    ensures forall k, b :: 0 <= k < TRACEBUF_SIZE && 0 <= b < 8 ==> ms[k].raw[b] == if k == i && b == o then 1 else 0
  {
    seq(TRACEBUF_SIZE, k => if k == i then BLANK.(raw := BLANK.raw[o := 1]) else BLANK)
  }

  lemma {:induction false} SentLength(ms: seq<Msg>, ns: seq<Msg>, ipos: nat, sizes: seq<nat>)
    requires ipos + |sizes| <= |ms| == |ns| && forall k :: 0 <= k < |sizes| ==> sizes[k] <= 8
    ensures |Sent(ms, ipos, sizes)| == |Sent(ns, ipos, sizes)|
    decreases |sizes|
  {
    if sizes != [] {
      SentLength(ms, ns, ipos + 1, sizes[1..]);
    }
  }

  /** One piece of what is gathered, of what was sent and of the greedy sizes. */
  lemma OnePiece(ms: seq<Msg>, ipos: nat, sizes: seq<nat>, n: nat)
    requires ipos + |sizes| <= |ms| && ipos + Pieces(n) <= |ms| && forall k :: 0 <= k < |sizes| ==> 0 < sizes[k] <= 8
    ensures n > 0 ==>
      var p := PieceSize(n);
      && 0 < p <= n && Pieces(n) == 1 + Pieces(n - p) && GreedySizes(n) == [p] + GreedySizes(n - p)
      && Gather(ms, ipos, n) == ms[ipos].raw[..p] + Gather(ms, ipos + 1, n - p)
    ensures sizes != [] ==> Sent(ms, ipos, sizes) == ms[ipos].raw[..sizes[0]] + Sent(ms, ipos + 1, sizes[1..])
    ensures (sizes == [] <==> Sent(ms, ipos, sizes) == []) && (n == 0 <==> GreedySizes(n) == [])
  {
  }

  /** With sizes other than the greedy ones some contents are not gathered as they were sent. */
  lemma {:induction false} OtherSizes(ipos: nat, sizes: seq<nat>, n: nat) returns (ms: seq<Msg>)
    requires ipos + |sizes| < TRACEBUF_SIZE && ipos + Pieces(n) <= TRACEBUF_SIZE && sizes != GreedySizes(n)
    requires forall k :: 0 <= k < |sizes| ==> 0 < sizes[k] <= 8
    ensures |ms| == TRACEBUF_SIZE && ms[ipos + |sizes|].raw[..4] == ZERO32
    ensures Gather(ms, ipos, n) != Sent(ms, ipos, sizes)
    decreases |sizes|
  {
    hide Gather, Sent, GreedySizes, Pieces, PieceSize;
    ms := Marked(0, 0)[0 := BLANK];
    OnePiece(ms, ipos, sizes, n);
    if |Sent(ms, ipos, sizes)| == n && n > 0 {
      var a, p := sizes[0], PieceSize(n);
      if a == p {
        assert sizes == [a] + sizes[1..];
        ms := OtherSizes(ipos + 1, sizes[1..], n - p);
        OnePiece(ms, ipos, sizes, n);
        SameFront(ms[ipos].raw[..p], Gather(ms, ipos + 1, n - p), Sent(ms, ipos + 1, sizes[1..]));
      } else {
        ms := FirstPieceOff(ipos, sizes, n);
      }
    }
  }

  lemma SameFront(a: seq<B.byte>, b: seq<B.byte>, c: seq<B.byte>)
    ensures a + b == a + c <==> b == c
  {
    assert (a + b)[|a|..] == b && (a + c)[|a|..] == c;
  }

  /** The first piece is shorter or longer than the word, half or byte that is taken out for it. */
  lemma FirstPieceOff(ipos: nat, sizes: seq<nat>, n: nat) returns (ms: seq<Msg>)
    requires ipos + |sizes| < TRACEBUF_SIZE && ipos + Pieces(n) <= TRACEBUF_SIZE && n > 0
    requires sizes != [] && sizes[0] != PieceSize(n) && forall k :: 0 <= k < |sizes| ==> 0 < sizes[k] <= 8
    requires |Sent(Marked(0, 0)[0 := BLANK], ipos, sizes)| == n
    ensures |ms| == TRACEBUF_SIZE && ms[ipos + |sizes|].raw[..4] == ZERO32
    ensures Gather(ms, ipos, n) != Sent(ms, ipos, sizes)
  {
    var a, p := sizes[0], PieceSize(n);
    ms := if a < p then Marked(ipos + 1, 0) else Marked(ipos, p);
    SentLength(ms, Marked(0, 0)[0 := BLANK], ipos, sizes);
    FirstGathered(ms, ipos, n);
    FirstSent(ms, ipos, sizes);
    assert ms[ipos + |sizes|].raw[..4] == ZERO32;
    assert a < p ==> ms[ipos].raw[a] != ms[ipos + 1].raw[0];
    assert a > p ==> ms[ipos].raw[p] != ms[ipos + 1].raw[0];
    hide Gather, Sent, PieceSize, Pieces, Marked;
    var g, s := Gather(ms, ipos, n), Sent(ms, ipos, sizes);
    if a < p {
      assert g[a] == g[..p][a] && s[a] == ms[ipos + 1].raw[0];
    } else {
      assert s[p] == s[..a][p] && g[p] == ms[ipos + 1].raw[0];
    }
  }

  lemma FirstSent(ms: seq<Msg>, ipos: nat, sizes: seq<nat>)
    requires sizes != [] && ipos + |sizes| <= |ms| && forall k :: 0 <= k < |sizes| ==> 0 < sizes[k] <= 8
    ensures var s, a := Sent(ms, ipos, sizes), sizes[0];
      && a <= |s| && s[..a] == ms[ipos].raw[..a]
      && (|s| > a ==> ipos + 1 < |ms| && s[a] == ms[ipos + 1].raw[0])
  {
  }

  lemma FirstGathered(ms: seq<Msg>, ipos: nat, n: nat)
    requires n > 0 && ipos + Pieces(n) <= |ms|
    ensures var g, p := Gather(ms, ipos, n), PieceSize(n);
      && 0 < p <= n && g[..p] == ms[ipos].raw[..p]
      && (n > p ==> ipos + 1 < |ms| && g[p] == ms[ipos + 1].raw[0])
  {
  }

  /**
   The payload handed on is the bytes that were sent, whatever they are and whatever the buffer held before, exactly
   when the messages between the length and the zero flag have the sizes of the greedy split of the declared length.
   */
  lemma PayloadExactlyWhenGreedy(sizes: seq<nat>, n: nat)
    requires 2 + |sizes| < TRACEBUF_SIZE && 2 + Pieces(n) <= TRACEBUF_SIZE
    requires forall k :: 0 <= k < |sizes| ==> 0 < sizes[k] <= 8
    ensures (forall ms: seq<Msg> :: |ms| == TRACEBUF_SIZE && ms[2 + |sizes|].raw[..4] == ZERO32 ==>
               Gather(ms, 2, n) == Sent(ms, 2, sizes))
      <==> sizes == GreedySizes(n)
  {
    if sizes == GreedySizes(n) {
      forall ms: seq<Msg> | |ms| == TRACEBUF_SIZE && ms[2 + |sizes|].raw[..4] == ZERO32
        ensures Gather(ms, 2, n) == Sent(ms, 2, sizes)
      {
        GatherGreedy(ms, 2, n);
      }
    } else {
      var ms := OtherSizes(2, sizes, n);
    }
  }

  /** Header, length, the greedy pieces of the payload and a zero flag: the packet is handed on as it is. */
  lemma PacketHandedOn(before: seq<Msg>, es: seq<Event>, master: int, channel: int, p: Packet)
    requires |before| == TRACEBUF_SIZE && IsPacket(es, master, channel, p) && |es| <= TRACEBUF_SIZE
    ensures IsFlagged(es, master, channel) && !Malformed(es) && HandedOn(before, es) == [p]
  {
    var ms := Buffered(before, es);
    assert InPlace(ms, es, 2, p.data);
    GatherSplit(ms, es, 2, p.data);
    hide Gather, Split, D16, InPlace, Buffered;
    assert Packet(p.header, p.data) == p;
  }

  /** A packet of at most 64 messages, after anything but a partial packet of the same sender, is handed on. */
  lemma PacketDelivered(t: Trace, es: seq<Event>, master: int, channel: int, p: Packet)
    requires Valid(t) && Fresh(t, master, channel) && IsPacket(es, master, channel, p) && |es| <= TRACEBUF_SIZE
    ensures Runs(t, es)
    ensures var s := Run(t, es); s.pos == 0 && s.delivered == t.delivered + [p]
  {
    PacketHandedOn(t.msgs, es, master, channel, p);
    FlaggedHandedOn(t, es, master, channel);
  }

  /** A header, a length of 4 and the flag, with no payload. */
  const NO_PAYLOAD: seq<Event> := [
    Event(0, 0, Msg(MT_DnTS, 4, [1, 0, 0, 0, 0, 0, 0, 0])),
    Event(0, 0, Msg(0, 2, [4, 0, 0, 0, 0, 0, 0, 0])),
    Event(0, 0, Msg(MT_FLAG, 4, BLANK.raw))]

  /** The flag's own zeros are handed on as four bytes nobody sent. */
  lemma FlagHandedOnAsPayload(before: seq<Msg>)
    requires |before| == TRACEBUF_SIZE
    ensures IsFlagged(NO_PAYLOAD, 0, 0) && HandedOn(before, NO_PAYLOAD) == [Packet([1, 0, 0, 0], ZERO32)]
  {
    var es := NO_PAYLOAD;
    var ms := Buffered(before, es);
    assert D16(es[1].msg) == 4;
    assert ms[2] == es[2].msg;
    FourGathered(ms, 2);
    hide Gather, Buffered, Pieces;
    assert es[0].msg.raw[..4] == [1, 0, 0, 0];
  }

  lemma FourGathered(ms: seq<Msg>, ipos: nat)
    requires ipos < |ms|
    ensures Pieces(4) == 1 && Gather(ms, ipos, 4) == ms[ipos].raw[..4]
  {
    assert Pieces(4) == 1 + Pieces(0);
    assert Gather(ms, ipos, 4) == ms[ipos].raw[..4] + Gather(ms, ipos + 1, 0);
  }

  // ----- streams -----

  /** What one sender sends at a time: messages up to a flag, or some before someone else breaks in. */
  datatype Burst = Flagged(master: int, channel: int, es: seq<Event>) | Part(master: int, channel: int, es: seq<Event>)

  ghost predicate IsBurst(b: Burst) {
    match b
    case Flagged(master, channel, es) => IsFlagged(es, master, channel)
    case Part(master, channel, es) => 0 < |es| <= TRACEBUF_SIZE && NoFlags(es, |es|) && AllFrom(es, master, channel)
  }

  /** The next burst is not from the sender whose packet was left unfinished. */
  predicate Follows(b: Burst, next: Burst) { b.Part? ==> b.master != next.master || b.channel != next.channel }

  ghost predicate IsStream(bs: seq<Burst>) {
    bs != [] ==> IsBurst(bs[0]) && (|bs| > 1 ==> Follows(bs[0], bs[1])) && IsStream(bs[1..])
  }

  function Events(bs: seq<Burst>): seq<Event> { if bs == [] then [] else bs[0].es + Events(bs[1..]) }

  function HandedOnBy(before: seq<Msg>, b: Burst): seq<Packet>
    requires |b.es| <= |before| == TRACEBUF_SIZE
  {
    if b.Flagged? then HandedOn(before, b.es) else []
  }

  /** The packets of a stream that comes upon the given buffer. */
  function AllHandedOn(before: seq<Msg>, bs: seq<Burst>): seq<Packet>
    requires |before| == TRACEBUF_SIZE && forall i :: 0 <= i < |bs| ==> |bs[i].es| <= TRACEBUF_SIZE
    decreases |bs|
  {
    if bs == [] then [] else HandedOnBy(before, bs[0]) + AllHandedOn(Buffered(before, bs[0].es), bs[1..])
  }

  lemma BurstReceived(t: Trace, b: Burst)
    requires Valid(t) && Fresh(t, b.master, b.channel) && IsBurst(b)
    ensures Runs(t, b.es) && |b.es| <= TRACEBUF_SIZE
    ensures var s := Run(t, b.es);
      && s.delivered == t.delivered + HandedOnBy(t.msgs, b) && s.msgs == Buffered(t.msgs, b.es)
      && forall next :: Follows(b, next) ==> Fresh(s, next.master, next.channel)
  {
    hide Runs, Run, HandedOn, Buffered;
    match b
    case Flagged(master, channel, es) => FlaggedHandedOn(t, es, master, channel);
    case Part(master, channel, es) =>
      PileUp(t, es, 0, |es|, t.msgs, master, channel);
      assert es[0..|es|] == es;
      AllHeld(Run(t, es), es, t.msgs, master, channel);
      assert t.delivered + [] == t.delivered;
  }

  lemma {:induction false} StreamSizes(bs: seq<Burst>)
    requires IsStream(bs)
    ensures forall i :: 0 <= i < |bs| ==> |bs[i].es| <= TRACEBUF_SIZE
    decreases |bs|
  {
    if bs != [] {
      StreamSizes(bs[1..]);
      assert forall i :: 0 < i < |bs| ==> bs[i] == bs[1..][i - 1];
    }
  }

  /**
   Any interleaving of senders: each burst that ends in a flag is handed on or dropped by itself, and a message from
   another sender loses the messages it breaks into and nothing else.
   */
  lemma {:induction false} StreamDelivered(t: Trace, bs: seq<Burst>)
    requires Valid(t) && IsStream(bs) && (bs != [] ==> Fresh(t, bs[0].master, bs[0].channel))
    ensures Runs(t, Events(bs)) && forall i :: 0 <= i < |bs| ==> |bs[i].es| <= TRACEBUF_SIZE
    ensures Run(t, Events(bs)).delivered == t.delivered + AllHandedOn(t.msgs, bs)
    decreases |bs|
  {
    StreamSizes(bs);
    if bs == [] {
      assert t.delivered + [] == t.delivered;
    } else {
      BurstReceived(t, bs[0]);
      hide IsBurst, Follows, Fresh, Valid, Runs, Run, Buffered, HandedOnBy;
      var s := Run(t, bs[0].es);
      StreamDelivered(s, bs[1..]);
      RunConcat(t, bs[0].es, Events(bs[1..]));
    }
  }

  // ----- streams of packets -----

  /** The packets a burst was sent for: one if it is a whole packet, none if it is malformed or broken off. */
  ghost predicate SentFor(b: Burst, ps: seq<Packet>) {
    || (ps == [] && (b.Part? || Malformed(b.es)))
    || (|ps| == 1 && b.Flagged? && IsPacket(b.es, b.master, b.channel, ps[0]))
  }

  function Flat(pss: seq<seq<Packet>>): seq<Packet> { if pss == [] then [] else pss[0] + Flat(pss[1..]) }

  /** Packet after packet, whoever sends them: exactly the packets that were sent whole arrive, in order. */
  lemma {:induction false} PacketsArrive(before: seq<Msg>, bs: seq<Burst>, pss: seq<seq<Packet>>)
    requires |before| == TRACEBUF_SIZE && |pss| == |bs|
    requires forall i :: 0 <= i < |bs| ==> |bs[i].es| <= TRACEBUF_SIZE && SentFor(bs[i], pss[i])
    ensures AllHandedOn(before, bs) == Flat(pss)
    decreases |bs|
  {
    hide IsPacket, Malformed, Buffered, HandedOn;
    if bs != [] {
      var b, ps := bs[0], pss[0];
      assert SentFor(b, ps);
      HandedOnIsSent(before, b, ps);
      hide SentFor, HandedOnBy;
      PacketsArrive(Buffered(before, b.es), bs[1..], pss[1..]);
    }
  }

  lemma HandedOnIsSent(before: seq<Msg>, b: Burst, ps: seq<Packet>)
    requires |before| == TRACEBUF_SIZE && |b.es| <= TRACEBUF_SIZE && SentFor(b, ps)
    ensures HandedOnBy(before, b) == ps
  {
    if ps != [] {
      PacketHandedOn(before, b.es, b.master, b.channel, ps[0]);
      hide IsPacket, HandedOn;
      assert ps == [ps[0]];
    }
  }

  /** One piece for every full word, half word and byte. */
  function Greedy(n: nat): nat { n / 4 + n % 4 / 2 + n % 2 }

  lemma GreedyNext(n: nat)
    requires n > 0
    ensures 0 < PieceSize(n) <= n && Greedy(n) == 1 + Greedy(n - PieceSize(n))
  {
    if n >= 4 {
      FourLess(n);
    } else if n == 3 {
      assert Greedy(3) == 2 && Greedy(1) == 1;
    } else {
      assert Greedy(n) == 1 && Greedy(0) == 0;
    }
  }

  lemma FourLess(n: nat)
    requires n >= 4
    ensures (n - 4) / 4 == n / 4 - 1 && (n - 4) % 4 == n % 4 && (n - 4) % 2 == n % 2
  {
  }

  lemma {:induction false} PieceCount(n: nat)
    ensures Pieces(n) == Greedy(n)
  {
    hide PieceSize;
    if n > 0 {
      GreedyNext(n);
      PieceCount(n - PieceSize(n));
    } else {
      assert Greedy(0) == 0;
    }
  }

  /** Where the k-th piece of n bytes starts and how long it is: full words, then a half word, then a byte. */
  function PieceStart(n: nat, k: nat): nat { if k <= n / 4 then 4 * k else 4 * (n / 4) + 2 }

  function PieceLength(n: nat, k: nat): nat { if k < n / 4 then 4 else if k == n / 4 && n % 4 >= 2 then 2 else 1 }

  lemma {:induction false} PieceAt(data: seq<B.byte>, k: nat)
    requires k < |Split(data)|
    ensures var start, length := PieceStart(|data|, k), PieceLength(|data|, k);
      start + length <= |data| && Split(data)[k] == data[start..start + length]
    decreases |data|
  {
    PieceCount(|data|);
    NextPieces(data);
    NextPlace(|data|, k);
    hide Split, Pieces, PieceStart, PieceLength, PieceSize, Greedy;
    var n := PieceSize(|data|);
    if k > 0 {
      var start, length := PieceStart(|data| - n, k - 1), PieceLength(|data| - n, k - 1);
      PieceAt(data[n..], k - 1);
      SliceBehind(data, n, start, start + length);
    }
  }

  lemma SliceBehind(data: seq<B.byte>, n: nat, a: nat, b: nat)
    requires n <= |data| && a <= b <= |data| - n
    ensures data[n..][a..b] == data[n + a..n + b]
  {
  }

  lemma NextPieces(data: seq<B.byte>)
    requires data != []
    ensures var n := PieceSize(|data|); n <= |data| && Split(data) == [data[..n]] + Split(data[n..])
  {
  }

  lemma NextPlace(n: nat, k: nat)
    requires k < Greedy(n)
    ensures k == 0 ==> PieceStart(n, k) == 0 && PieceLength(n, k) == PieceSize(n)
    ensures var first := PieceSize(n);
      && first <= n
      && (k > 0 ==> PieceStart(n, k) == first + PieceStart(n - first, k - 1))
      && (k > 0 ==> PieceLength(n, k) == PieceLength(n - first, k - 1))
  {
  }
}
