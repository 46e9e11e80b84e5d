/**
 SHA-256 as sections 4.1.2, 4.2.2, 5.1.1, 5.3.3 and 6.2 of FIPS 180-4 define it, and HMAC as
 section 2 of RFC 2104 does. These are reference definitions: nothing here follows the
 structure of the emulator.
 */
module Fips180 {
  import opened Bytes

  // Section 4.1.2. ROTR^n(x) is (x >> n) | (x << (32 - n)).
  function Ch(x: Word, y: Word, z: Word): Word { (x & y) ^ (!x & z) }

  function Maj(x: Word, y: Word, z: Word): Word { (x & y) ^ (x & z) ^ (y & z) }

  function BigSigma0(x: Word): Word { ((x >> 2) | (x << 30)) ^ ((x >> 13) | (x << 19)) ^ ((x >> 22) | (x << 10)) }

  function BigSigma1(x: Word): Word { ((x >> 6) | (x << 26)) ^ ((x >> 11) | (x << 21)) ^ ((x >> 25) | (x << 7)) }

  function SmallSigma0(x: Word): Word { ((x >> 7) | (x << 25)) ^ ((x >> 18) | (x << 14)) ^ (x >> 3) }

  function SmallSigma1(x: Word): Word { ((x >> 17) | (x << 15)) ^ ((x >> 19) | (x << 13)) ^ (x >> 10) }

  /** Word t of the constants of section 4.2.2. */
  function KWord(t: nat): Word
    requires t < 64
  {
    if t < 8 then [0x428a2f98, 0x71374491, 0xb5c0fbcf, 0xe9b5dba5, 0x3956c25b, 0x59f111f1, 0x923f82a4, 0xab1c5ed5][t]
    else if t < 16 then
      [0xd807aa98, 0x12835b01, 0x243185be, 0x550c7dc3,
       0x72be5d74, 0x80deb1fe, 0x9bdc06a7, 0xc19bf174][t - 8]
    else if t < 24 then
      [0xe49b69c1, 0xefbe4786, 0x0fc19dc6, 0x240ca1cc,
       0x2de92c6f, 0x4a7484aa, 0x5cb0a9dc, 0x76f988da][t - 16]
    else if t < 32 then
      [0x983e5152, 0xa831c66d, 0xb00327c8, 0xbf597fc7,
       0xc6e00bf3, 0xd5a79147, 0x06ca6351, 0x14292967][t - 24]
    else if t < 40 then
      [0x27b70a85, 0x2e1b2138, 0x4d2c6dfc, 0x53380d13,
       0x650a7354, 0x766a0abb, 0x81c2c92e, 0x92722c85][t - 32]
    else if t < 48 then
      [0xa2bfe8a1, 0xa81a664b, 0xc24b8b70, 0xc76c51a3,
       0xd192e819, 0xd6990624, 0xf40e3585, 0x106aa070][t - 40]
    else if t < 56 then
      [0x19a4c116, 0x1e376c08, 0x2748774c, 0x34b0bcb5,
       0x391c0cb3, 0x4ed8aa4a, 0x5b9cca4f, 0x682e6ff3][t - 48]
    else [0x748f82ee, 0x78a5636f, 0x84c87814, 0x8cc70208, 0x90befffa, 0xa4506ceb, 0xbef9a3f7, 0xc67178f2][t - 56]
  }

  function K(): (k: seq<Word>)
    ensures |k| == 64
  {
    seq(64, t requires 0 <= t < 64 => KWord(t))
  }

  const IV: seq<Word> := [
    0x6a09e667, 0xbb67ae85, 0x3c6ef372, 0xa54ff53a, 0x510e527f, 0x9b05688c, 0x1f83d9ab, 0x5be0cd19
  ]

  /** The eight working variables. */
  datatype Vars<W> = Vars(a: W, b: W, c: W, d: W, e: W, f: W, g: W, h: W)

  /**
   The word operations of the computation: the six functions of section 4.1.2, addition, the sum
   of four words that extends the message schedule and the sum of five that makes T1. The rest of
   the computation only moves words around, so it is stated for any such operations.
   */
  datatype WordOps<!W> = WordOps(
    bigSigma0: W -> W, bigSigma1: W -> W, smallSigma0: W -> W, smallSigma1: W -> W,
    ch: (W, W, W) -> W, maj: (W, W, W) -> W,
    add: (W, W) -> W, sum4: (W, W, W, W) -> W, sum5: (W, W, W, W, W) -> W)

  function Add(x: Word, y: Word): Word { x + y }

  function Sum4(a: Word, b: Word, c: Word, d: Word): Word { a + b + c + d }

  function Sum5(a: Word, b: Word, c: Word, d: Word, e: Word): Word { a + b + c + d + e }

  const STANDARD: WordOps<Word> := WordOps(
    BigSigma0, BigSigma1, SmallSigma0, SmallSigma1, Ch, Maj, Add, Sum4, Sum5)

  /** Word t of the message schedule of a 16-word block. */
  function Schedule<W>(o: WordOps<W>, m: seq<W>, t: nat): W
    requires |m| == 16
  {
    if t < 16 then m[t]
    else o.sum4(o.smallSigma1(Schedule(o, m, t - 2)), Schedule(o, m, t - 7),
                o.smallSigma0(Schedule(o, m, t - 15)), Schedule(o, m, t - 16))
  }

  function Round<W>(o: WordOps<W>, v: Vars<W>, k: W, w: W): Vars<W> {
    var t1 := o.sum5(v.h, o.bigSigma1(v.e), o.ch(v.e, v.f, v.g), k, w);
    var t2 := o.add(o.bigSigma0(v.a), o.maj(v.a, v.b, v.c));
    Vars(o.add(t1, t2), v.a, v.b, v.c, o.add(v.d, t1), v.e, v.f, v.g)
  }

  /** The working variables after the first t rounds on block m. */
  function Rounds<W>(o: WordOps<W>, k: seq<W>, m: seq<W>, v: Vars<W>, t: nat): Vars<W>
    requires |k| == 64 && |m| == 16 && t <= 64
  {
    if t == 0 then v else Round(o, Rounds(o, k, m, v, t - 1), k[t - 1], Schedule(o, m, t - 1))
  }

  function Load<W>(hv: seq<W>): Vars<W>
    requires |hv| == 8
  {
    Vars(hv[0], hv[1], hv[2], hv[3], hv[4], hv[5], hv[6], hv[7])
  }

  function AddVars<W>(o: WordOps<W>, hv: seq<W>, v: Vars<W>): (r: seq<W>)
    requires |hv| == 8
    ensures |r| == 8
  {
    [o.add(hv[0], v.a), o.add(hv[1], v.b), o.add(hv[2], v.c), o.add(hv[3], v.d),
     o.add(hv[4], v.e), o.add(hv[5], v.f), o.add(hv[6], v.g), o.add(hv[7], v.h)]
  }

  /** One iteration of the hash computation: the next intermediate hash value. */
  function CompressWith<W>(o: WordOps<W>, k: seq<W>, hv: seq<W>, m: seq<W>): (r: seq<W>)
    requires |k| == 64 && |hv| == 8 && |m| == 16
    ensures |r| == 8
  {
    AddVars(o, hv, Rounds(o, k, m, Load(hv), 64))
  }

  function Compress(hv: seq<Word>, m: seq<Word>): (r: seq<Word>)
    requires |hv| == 8 && |m| == 16
    ensures |r| == 8
  {
    CompressWith(STANDARD, K(), hv, m)
  }

  /** The same on the big-endian byte form of hash values and blocks. */
  function CompressBytes(state: seq<byte>, block: seq<byte>): (r: seq<byte>)
    requires |state| == 32 && |block| == 64
    ensures |r| == 32
  {
    Encode(Compress(Decode(state), Decode(block)))
  }

  // Operations that agree word by word give the same intermediate hash values.

  ghost predicate Agree<W(!new)>(o: WordOps<W>, p: WordOps<W>) {
    && (forall x :: o.bigSigma0(x) == p.bigSigma0(x))
    && (forall x :: o.bigSigma1(x) == p.bigSigma1(x))
    && (forall x :: o.smallSigma0(x) == p.smallSigma0(x))
    && (forall x :: o.smallSigma1(x) == p.smallSigma1(x))
    && (forall x, y, z :: o.ch(x, y, z) == p.ch(x, y, z))
    && (forall x, y, z :: o.maj(x, y, z) == p.maj(x, y, z))
    && (forall x, y :: o.add(x, y) == p.add(x, y))
    && (forall x, y, z, u :: o.sum4(x, y, z, u) == p.sum4(x, y, z, u))
    && (forall x, y, z, u, v :: o.sum5(x, y, z, u, v) == p.sum5(x, y, z, u, v))
  }

  lemma {:induction false} ScheduleAgrees<W(!new)>(o: WordOps<W>, p: WordOps<W>, m: seq<W>, t: nat)
    requires |m| == 16 && Agree(o, p)
    ensures Schedule(o, m, t) == Schedule(p, m, t)
  {
    if t >= 16 {
      ScheduleAgrees(o, p, m, t - 2);
      ScheduleAgrees(o, p, m, t - 7);
      ScheduleAgrees(o, p, m, t - 15);
      ScheduleAgrees(o, p, m, t - 16);
    }
  }

  lemma {:induction false} RoundsAgree<W(!new)>(o: WordOps<W>, p: WordOps<W>, k: seq<W>, m: seq<W>, v: Vars<W>, t: nat)
    requires |k| == 64 && |m| == 16 && t <= 64 && Agree(o, p)
    ensures Rounds(o, k, m, v, t) == Rounds(p, k, m, v, t)
  {
    if t > 0 {
      RoundsAgree(o, p, k, m, v, t - 1);
      ScheduleAgrees(o, p, m, t - 1);
    }
  }

  lemma CompressAgrees<W(!new)>(o: WordOps<W>, p: WordOps<W>, k: seq<W>, hv: seq<W>, m: seq<W>)
    requires |k| == 64 && |hv| == 8 && |m| == 16 && Agree(o, p)
    ensures CompressWith(o, k, hv, m) == CompressWith(p, k, hv, m)
  {
    RoundsAgree(o, p, k, m, Load(hv), 64);
  }

  /** The intermediate hash value after all whole blocks of m, in order. */
  function Blocks(hv: seq<Word>, m: seq<byte>): (r: seq<Word>)
    requires |hv| == 8 && |m| % 64 == 0
    ensures |r| == 8
    decreases |m|
  {
    if m == [] then hv else Compress(Blocks(hv, m[..|m| - 64]), Decode(m[|m| - 64..]))
  }

  /** The fewest zero bytes that leave room for exactly the length field in the last block. */
  function ZeroCount(n: nat): (z: nat)
    ensures (n + 9 + z) % 64 == 0
  {
    var m := n % 64;
    assert n == 64 * (n / 64) + m;
    if m < 56 then 55 - m else 119 - m
  }

  /** The bytes appended to a message of n bytes: a one bit, zero bits, and the length in bits. */
  ghost function Padding(n: nat): (p: seq<byte>)
    ensures |p| == 9 + ZeroCount(n) && (n + |p|) % 64 == 0
  {
    var z := ZeroCount(n);
    assert n + (9 + z) == n + 9 + z;
    [0x80] + Zeros(z) + LengthField(8 * n)
  }

  ghost function Sha256(m: seq<byte>): (digest: seq<byte>)
    ensures |digest| == 32
  {
    Encode(Blocks(IV, m + Padding(|m|)))
  }

  /** HMAC-SHA-256 of m under a key already padded to the 64-byte block. */
  ghost function Hmac(key: seq<byte>, m: seq<byte>): (mac: seq<byte>)
    requires |key| == 64
    ensures |mac| == 32
  {
    Sha256(Xor(key, 0x5C) + Sha256(Xor(key, 0x36) + m))
  }

  /** No shorter padding ends at a block boundary: section 5.1.1 asks for the smallest number of zero bits. */
  lemma FewestZeros(n: nat, z: nat)
    requires (n + 9 + z) % 64 == 0
    ensures ZeroCount(n) <= z
  {
    var a := ZeroCount(n);
    var p, q := (n + 9 + a) / 64, (n + 9 + z) / 64;
    assert n + 9 + a == 64 * p && n + 9 + z == 64 * q;
  }

  /** p is the key with every byte XORed with the given bits. */
  ghost predicate IsPad(p: seq<byte>, key: seq<byte>, bits: bv8) {
    |p| == |key| && forall i :: 0 <= i < |key| ==> p[i] as bv8 == (key[i] as bv8) ^ bits
  }

  lemma XorIsPad(key: seq<byte>, bits: bv8)
    ensures IsPad(Xor(key, bits), key, bits)
  {
    forall i | 0 <= i < |key| ensures Xor(key, bits)[i] as bv8 == (key[i] as bv8) ^ bits {
      Octet((key[i] as bv8) ^ bits);
    }
  }

  /** As RFC 2104, section 2, has it: inner pad 36 in front of the message, outer pad 5C in front of its digest. */
  lemma HmacPads(key: seq<byte>, m: seq<byte>, inner: seq<byte>, outer: seq<byte>)
    requires |key| == 64 && IsPad(inner, key, 0x36) && IsPad(outer, key, 0x5C)
    ensures Hmac(key, m) == Sha256(outer + Sha256(inner + m))
  {
    hide Sha256, Xor, IsPad;
    XorIsPad(key, 0x36);
    XorIsPad(key, 0x5C);
    SamePad(inner, Xor(key, 0x36), key, 0x36);
    SamePad(outer, Xor(key, 0x5C), key, 0x5C);
  }

  lemma SamePad(p: seq<byte>, q: seq<byte>, key: seq<byte>, bits: bv8)
    requires IsPad(p, key, bits) && IsPad(q, key, bits)
    ensures p == q
  {
    forall i | 0 <= i < |key| ensures p[i] == q[i] {
      OctetBack(p[i]);
      OctetBack(q[i]);
    }
  }
}
