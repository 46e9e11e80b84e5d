/** Sequences of register accesses on the hash unit compute SHA-256 and HMAC-SHA-256 of what was written. */
module StreamTheorems {
  import opened Bytes
  import opened BlockStream
  import opened HashRegs
  import Fips = Fips180

  // ----- the state register holds the standard's intermediate hash value -----

  lemma {:induction false} ChainIsBlocks(mode: Word, hv: seq<Word>, m: seq<byte>)
    requires IsSha256(mode) && |hv| == 8 && |m| % 64 == 0
    ensures Chain(BlockFunction(mode), Encode(hv), m) == Encode(Fips.Blocks(hv, m))
    decreases |m|
  {
    hide Fips.CompressBytes;
    if m != [] {
      var front, last := m[..|m| - 64], m[|m| - 64..];
      ChainIsBlocks(mode, hv, front);
      var f, h := BlockFunction(mode), Fips.Blocks(hv, front);
      assert At(Encode(h), last);
      assert f(Encode(h), last) == Fips.CompressBytes(Encode(h), last);
      CompressEncoded(h, last);
    }
  }

  lemma CompressEncoded(h: seq<Word>, block: Block)
    requires |h| == 8
    ensures Fips.CompressBytes(Encode(h), block) == Encode(Fips.Compress(h, Decode(block)))
  {
    DecodeEncode(h);
  }

  /** The engine has taken in exactly m since the initial hash value. */
  ghost predicate Holds(r: Regs, m: seq<byte>) {
    IsSha256(r.mode) && Absorbed(BlockFunction(r.mode), Encode(Fips.IV), r.stream, m) && r.count == |m|
  }

  lemma HoldsNothing(r: Regs)
    requires IsSha256(r.mode) && r.stream.state == Encode(Fips.IV) && r.count == 0 && r.stream.pos == 0
    ensures Holds(r, [])
  {
  }

  lemma FeedHolds(r: Regs, m: seq<byte>, data: seq<byte>)
    requires Holds(r, m) && |m| + |data| < TWO_64
    ensures Holds(FeedRegs(r, data), m + data)
  {
    hide Absorbed;
    FeedAbsorbs(BlockFunction(r.mode), Encode(Fips.IV), r.stream, m, data);
  }

  /** Padding and consuming a message leaves its SHA-256 digest in the state register. */
  lemma PadDigests(r: Regs, m: seq<byte>)
    requires Holds(r, m)
    ensures Pad(r).stream.state == Fips.Sha256(m)
    ensures Pad(r).count == r.count && Pad(r).stream.pos == r.stream.pos
  {
    var f, p := BlockFunction(r.mode), Fips.Padding(|m|);
    FeedAbsorbs(f, Encode(Fips.IV), r.stream, m, p);
    assert Whole(m + p) == |m + p| && (m + p)[..|m + p|] == m + p;
    ChainIsBlocks(r.mode, Fips.IV, m + p);
  }

  // ----- ending a message -----

  /** What an HMAC stream has taken in before the first byte of its message. */
  function Prefix(mode: Word, key: Block): seq<byte> {
    if IsHmac(mode) then Xor(key, 0x36) else []
  }

  ghost function Digest(mode: Word, key: Block, m: seq<byte>): State {
    if IsHmac(mode) then Fips.Hmac(key, m) else Fips.Sha256(m)
  }

  lemma OuterHolds(r: Regs)
    requires IsSha256(r.mode)
    ensures Holds(OuterMessage(r), Xor(r.key, 0x5C) + r.stream.state)
  {
    var s := Init(r.(temp := Overwrite(r.temp, 0, r.stream.state)));
    HoldsNothing(s);
    FeedHolds(s, [], Xor(r.key, 0x5C) + r.stream.state);
    assert [] + (Xor(r.key, 0x5C) + r.stream.state) == Xor(r.key, 0x5C) + r.stream.state;
  }

  lemma PadRewinds(r: Regs)
    requires IsSha256(r.mode) && r.stream.pos == r.count % 64
    ensures Pad(r).stream.stateptr == 0
  {
    FeedRewinds(BlockFunction(r.mode), r.stream, Fips.Padding(r.count));
  }

  /** FLUSH turns the message taken in so far into its digest, readable from the start and marked done. */
  lemma FinishDigests(r: Regs, m: seq<byte>)
    requires Holds(r, Prefix(r.mode, r.key) + m)
    ensures var e := Finish(r);
            && e.stream.state == Digest(r.mode, r.key, m) && e.stream.stateptr == 0
            && e.status1 & DONE == DONE && e.key == r.key && e.mode == r.mode
  {
    var p := Pad(r);
    PadDigests(r, Prefix(r.mode, r.key) + m);
    PadRewinds(r);
    if IsHmac(r.mode) {
      var o := OuterMessage(p);
      OuterHolds(p);
      PadDigests(o, Xor(r.key, 0x5C) + p.stream.state);
      PadRewinds(o);
    } else {
      assert Prefix(r.mode, r.key) + m == m;
    }
  }
}
