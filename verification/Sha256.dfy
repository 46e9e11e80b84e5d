/**
 The emulator's SHA-256 block function: eight registers whose roles rotate from line to line
 instead of moving, and a sixteen-word ring instead of the whole message schedule.
 */
module Sha256 {
  import opened Bytes
  import Fips = Fips180

  // The bit functions as the source spells them; ROTR32(x, n) is (x << (32 - n)) | (x >> n).
  function S0(x: Word): Word { ((x << 30) | (x >> 2)) ^ ((x << 19) | (x >> 13)) ^ ((x << 10) | (x >> 22)) }

  function S1(x: Word): Word { ((x << 26) | (x >> 6)) ^ ((x << 21) | (x >> 11)) ^ ((x << 7) | (x >> 25)) }

  function s0(x: Word): Word { ((x << 25) | (x >> 7)) ^ ((x << 14) | (x >> 18)) ^ (x >> 3) }

  function s1(x: Word): Word { ((x << 15) | (x >> 17)) ^ ((x << 13) | (x >> 19)) ^ (x >> 10) }

  function Ch(x: Word, y: Word, z: Word): Word { z ^ (x & (y ^ z)) }

  function Maj(x: Word, y: Word, z: Word): Word { (x & y) | (z & (x | y)) }

  function Add(x: Word, y: Word): Word { x + y }

  function Blk2Sum(s1: Word, w7: Word, s0: Word, w16: Word): Word { w16 + (s1 + w7 + s0) }

  function RSum(h: Word, s1: Word, ch: Word, k: Word, w: Word): Word { h + (s1 + ch + k + w) }

  /** The operations as macros R and blk2 spell and parenthesise them. */
  const MACROS: Fips.WordOps<Word> := Fips.WordOps(
    S0, S1, s0, s1, Ch, Maj, Add, Blk2Sum, RSum)

  lemma ChEquals(x: Word, y: Word, z: Word)
    ensures Ch(x, y, z) == Fips.Ch(x, y, z)
  {
    assert z ^ (x & (y ^ z)) == (x & y) ^ (!x & z);
  }

  lemma MajEquals(x: Word, y: Word, z: Word)
    ensures Maj(x, y, z) == Fips.Maj(x, y, z)
  {
    assert (x & y) | (z & (x | y)) == (x & y) ^ (x & z) ^ (y & z);
  }

  lemma SigmasEqual(x: Word)
    ensures S0(x) == Fips.BigSigma0(x) && S1(x) == Fips.BigSigma1(x)
    ensures s0(x) == Fips.SmallSigma0(x) && s1(x) == Fips.SmallSigma1(x)
  {
  }

  lemma SumsEqual(a: Word, b: Word, c: Word, d: Word, e: Word)
    ensures Add(a, b) == Fips.Add(a, b) && Blk2Sum(a, b, c, d) == Fips.Sum4(a, b, c, d)
    ensures RSum(a, b, c, d, e) == Fips.Sum5(a, b, c, d, e)
  {
  }

  /** The macros compute the functions of the standard, on all words. */
  lemma MacrosMeetTheStandard()
    ensures Fips.Agree(MACROS, Fips.STANDARD)
  {
    hide S0, S1, s0, s1, Ch, Maj, Add, Blk2Sum, RSum, Fips.BigSigma0, Fips.BigSigma1, Fips.SmallSigma0,
         Fips.SmallSigma1, Fips.Ch, Fips.Maj, Fips.Add, Fips.Sum4, Fips.Sum5;
    forall a: Word, b: Word ensures Add(a, b) == Fips.Add(a, b) {
      SumsEqual(a, b, 0, 0, 0);
    }
    forall a: Word, b: Word, c: Word, d: Word ensures Blk2Sum(a, b, c, d) == Fips.Sum4(a, b, c, d) {
      SumsEqual(a, b, c, d, 0);
    }
    forall a: Word, b: Word, c: Word, d: Word, e: Word ensures RSum(a, b, c, d, e) == Fips.Sum5(a, b, c, d, e) {
      SumsEqual(a, b, c, d, e);
    }
    forall x: Word
      ensures S0(x) == Fips.BigSigma0(x) && S1(x) == Fips.BigSigma1(x)
      ensures s0(x) == Fips.SmallSigma0(x) && s1(x) == Fips.SmallSigma1(x)
    {
      SigmasEqual(x);
    }
    forall x: Word, y: Word, z: Word ensures Ch(x, y, z) == Fips.Ch(x, y, z) && Maj(x, y, z) == Fips.Maj(x, y, z) {
      ChEquals(x, y, z);
      MajEquals(x, y, z);
    }
  }

  // ----- the compression loop, for any word operations -----

  /** All schedule words and all intermediate working variables of one block, as the standard has them. */
  ghost predicate Plan<W>(o: Fips.WordOps<W>, k: seq<W>, m: seq<W>, words: seq<W>, vars: seq<Fips.Vars<W>>)
    requires |k| == 64 && |m| == 16
  {
    && |words| == 64 && |vars| == 65
    && (forall t :: 0 <= t < 16 ==> words[t] == m[t])
    && (forall t {:trigger k[t]} :: 16 <= t < 64 ==>
          words[t] == o.sum4(o.smallSigma1(words[t - 2]), words[t - 7], o.smallSigma0(words[t - 15]), words[t - 16]))
    && (forall t {:trigger k[t]} :: 0 <= t < 64 ==> vars[t + 1] == Fips.Round(o, vars[t], k[t], words[t]))
  }

  lemma PlanOf<W>(o: Fips.WordOps<W>, k: seq<W>, m: seq<W>, start: Fips.Vars<W>)
    returns (words: seq<W>, vars: seq<Fips.Vars<W>>)
    requires |k| == 64 && |m| == 16
    ensures Plan(o, k, m, words, vars)
    ensures vars[0] == start && vars[64] == Fips.Rounds(o, k, m, start, 64)
  {
    words := seq(64, t requires 0 <= t < 64 => Fips.Schedule(o, m, t));
    vars := seq(65, t requires 0 <= t < 65 => Fips.Rounds(o, k, m, start, t));
  }

  /** The passes start at these rounds. */
  predicate IsPass(j: nat) { j == 0 || j == 16 || j == 32 || j == 48 }

  /** Before line i of pass j the ring holds this pass's words below i and the last pass's from i on. */
  ghost predicate Ring<W>(ring: seq<W>, words: seq<W>, i: nat, j: nat)
    requires |words| == 64 && i <= 16 && j <= 48
  {
    && |ring| == 16
    && (forall n :: 0 <= n < i ==> ring[n] == words[j + n])
    && (j >= 16 ==> forall n :: i <= n < 16 ==> ring[n] == words[j - 16 + n])
  }

  /** A pass starts with the ring the last one left, the first one with any. */
  lemma NewPass<W>(ring: seq<W>, words: seq<W>, j: nat)
    requires |ring| == 16 && |words| == 64 && (IsPass(j) || j == 64)
    requires j > 0 ==> Ring(ring, words, 16, j - 16)
    ensures j < 64 ==> Ring(ring, words, 0, j)
  {
  }

  /** blk0 and blk2: the next schedule word, computed in place in the ring. */
  method Blk<W>(o: Fips.WordOps<W>, i: nat, j: nat, ring: array<W>, data: seq<W>, ghost words: seq<W>) returns (w: W)
    requires ring.Length == 16 && |data| == 16 && |words| == 64
    requires i < 16 && IsPass(j)
    requires forall t :: 0 <= t < 16 ==> words[t] == data[t]
    requires i + j >= 16 ==> words[i + j] == o.sum4(o.smallSigma1(words[i + j - 2]), words[i + j - 7],
                                                    o.smallSigma0(words[i + j - 15]), words[i + j - 16])
    requires Ring(ring[..], words, i, j)
    modifies ring
    ensures w == words[i + j]
    ensures Ring(ring[..], words, i + 1, j)
  {
    if j != 0 {
      var i2, i7, i15 := (i + 14) % 16, (i + 9) % 16, (i + 1) % 16;
      assert ring[i2] == words[i + j - 2] && ring[i7] == words[i + j - 7];
      assert ring[i15] == words[i + j - 15] && ring[i] == words[i + j - 16];
      w := o.sum4(o.smallSigma1(ring[i2]), ring[i7], o.smallSigma0(ring[i15]), ring[i]);
    } else {
      w := data[i];
    }
    ring[i] := w;
  }

  /** One line of the unrolled loop: register d gains T1 and register h becomes T1 + T2. */
  method R<W>(o: Fips.WordOps<W>, k: seq<W>, a: W, b: W, c: W, d: W, e: W, f: W, g: W, h: W, i: nat, j: nat,
              ring: array<W>, data: seq<W>, ghost words: seq<W>, ghost vars: seq<Fips.Vars<W>>)
    returns (d': W, h': W)
    requires |k| == 64 && ring.Length == 16 && |data| == 16 && Plan(o, k, data, words, vars)
    requires i < 16 && IsPass(j)
    requires Ring(ring[..], words, i, j)
    requires Fips.Vars(a, b, c, d, e, f, g, h) == vars[i + j]
    modifies ring
    ensures Ring(ring[..], words, i + 1, j)
    ensures Fips.Vars(h', a, b, c, d', e, f, g) == vars[i + 1 + j]
  {
    var kt := k[i + j];
    var w := Blk(o, i, j, ring, data, words);
    h' := o.sum5(h, o.bigSigma1(e), o.ch(e, f, g), kt, w);
    d' := o.add(d, h');
    h' := o.add(h', o.add(o.bigSigma0(a), o.maj(a, b, c)));
    assert vars[i + j + 1] == Fips.Round(o, vars[i + j], kt, words[i + j]);
  }

  /** RX_8: eight lines, after which every register has its own role again. */
  method RX8<W>(o: Fips.WordOps<W>, k: seq<W>, v: Fips.Vars<W>, i: nat, j: nat, ring: array<W>, data: seq<W>,
                ghost words: seq<W>, ghost vars: seq<Fips.Vars<W>>)
    returns (v': Fips.Vars<W>)
    requires |k| == 64 && ring.Length == 16 && |data| == 16 && Plan(o, k, data, words, vars)
    requires (i == 0 || i == 8) && IsPass(j)
    requires Ring(ring[..], words, i, j) && v == vars[i + j]
    modifies ring
    ensures Ring(ring[..], words, i + 8, j) && v' == vars[i + 8 + j]
  {
    var a, b, c, d, e, f, g, h := v.a, v.b, v.c, v.d, v.e, v.f, v.g, v.h;
    d, h := R(o, k, a, b, c, d, e, f, g, h, i, j, ring, data, words, vars);
    c, g := R(o, k, h, a, b, c, d, e, f, g, i + 1, j, ring, data, words, vars);
    b, f := R(o, k, g, h, a, b, c, d, e, f, i + 2, j, ring, data, words, vars);
    a, e := R(o, k, f, g, h, a, b, c, d, e, i + 3, j, ring, data, words, vars);
    h, d := R(o, k, e, f, g, h, a, b, c, d, i + 4, j, ring, data, words, vars);
    g, c := R(o, k, d, e, f, g, h, a, b, c, i + 5, j, ring, data, words, vars);
    f, b := R(o, k, c, d, e, f, g, h, a, b, i + 6, j, ring, data, words, vars);
    e, a := R(o, k, b, c, d, e, f, g, h, a, i + 7, j, ring, data, words, vars);
    v' := Fips.Vars(a, b, c, d, e, f, g, h);
  }

  /** One turn of the loop. */
  method SixteenLines<W>(o: Fips.WordOps<W>, k: seq<W>, v: Fips.Vars<W>, j: nat, ring: array<W>, data: seq<W>,
                         ghost words: seq<W>, ghost vars: seq<Fips.Vars<W>>)
    returns (v': Fips.Vars<W>)
    requires |k| == 64 && ring.Length == 16 && |data| == 16 && Plan(o, k, data, words, vars)
    requires IsPass(j) && Ring(ring[..], words, 0, j) && v == vars[j]
    modifies ring
    ensures Ring(ring[..], words, 16, j) && v' == vars[j + 16]
  {
    v' := RX8(o, k, v, 0, j, ring, data, words, vars);
    v' := RX8(o, k, v', 8, j, ring, data, words, vars);
  }

  /** The whole loop: four passes of sixteen lines. */
  method RunRounds<W(0)>(o: Fips.WordOps<W>, k: seq<W>, start: Fips.Vars<W>, data: seq<W>) returns (v: Fips.Vars<W>)
    requires |k| == 64 && |data| == 16
    ensures v == Fips.Rounds(o, k, data, start, 64)
  {
    hide Plan, Fips.Rounds, Ring;
    var ring := new W[16];
    v := start;
    ghost var words, vars := PlanOf(o, k, data, v);
    NewPass(ring[..], words, 0);
    var j := 0;
    while j < 64
      invariant IsPass(j) || j == 64
      invariant j < 64 ==> Ring(ring[..], words, 0, j)
      invariant v == vars[j]
    {
      v := SixteenLines(o, k, v, j, ring, data, words, vars);
      j := j + 16;
      NewPass(ring[..], words, j);
    }
  }

  /** The block function updates the state words in place by one iteration of the standard. */
  method Transform<W(0)>(o: Fips.WordOps<W>, k: seq<W>, state: array<W>, data: seq<W>)
    requires |k| == 64 && state.Length == 8 && |data| == 16
    modifies state
    ensures state[..] == Fips.CompressWith(o, k, old(state[..]), data)
  {
    var v := RunRounds(o, k, Fips.Load(state[..]), data);
    state[0] := o.add(state[0], v.a);
    state[1] := o.add(state[1], v.b);
    state[2] := o.add(state[2], v.c);
    state[3] := o.add(state[3], v.d);
    state[4] := o.add(state[4], v.e);
    state[5] := o.add(state[5], v.f);
    state[6] := o.add(state[6], v.g);
    state[7] := o.add(state[7], v.h);
    assert state[..] == Fips.AddVars(o, old(state[..]), v);
  }

  // ----- byte interface -----

  /** Decodes as many big-endian words as `data32` holds. */
  method BeIntFromBytes(buffer: seq<byte>, data32: array<Word>)
    requires |buffer| == 4 * data32.Length
    modifies data32
    ensures data32[..] == Decode(buffer)
  {
    hide BytesToWord;
    for i := 0 to data32.Length
      invariant data32[..i] == Decode(buffer)[..i]
    {
      data32[i] := BytesToWord([buffer[4 * i], buffer[4 * i + 1], buffer[4 * i + 2], buffer[4 * i + 3]]);
      assert [buffer[4 * i], buffer[4 * i + 1], buffer[4 * i + 2], buffer[4 * i + 3]] == buffer[4 * i..4 * i + 4];
    }
  }

  method BeIntToBytes(digest: array<byte>, data32: seq<Word>)
    requires digest.Length == 4 * |data32|
    modifies digest
    ensures digest[..] == Encode(data32)
  {
    hide WordToBytes, Encode;
    for i := 0 to |data32|
      invariant digest[..4 * i] == Encode(data32)[..4 * i]
    {
      var b := WordToBytes(data32[i]);
      EncodedWord(data32, i);
      digest[4 * i], digest[4 * i + 1], digest[4 * i + 2], digest[4 * i + 3] := b[0], b[1], b[2], b[3];
      assert Encode(data32)[..4 * i + 4] == Encode(data32)[..4 * i] + b;
      assert digest[..4 * i + 4] == digest[..4 * i] + b;
    }
  }

  method InitBytes(state: array<byte>)
    requires state.Length == 32
    modifies state
    ensures state[..] == Encode(Fips.IV)
  {
    var state32 := new Word[8];
    state32[0], state32[1], state32[2], state32[3] := 0x6a09e667, 0xbb67ae85, 0x3c6ef372, 0xa54ff53a;
    state32[4], state32[5], state32[6], state32[7] := 0x510e527f, 0x9b05688c, 0x1f83d9ab, 0x5be0cd19;
    assert state32[..] == Fips.IV;
    BeIntToBytes(state, state32[..]);
  }

  /** The macros run through the rotating loop give the standard's next hash value. */
  lemma MacrosCompress(hv: seq<Word>, m: seq<Word>)
    requires |hv| == 8 && |m| == 16
    ensures Fips.CompressWith(MACROS, Fips.K(), hv, m) == Fips.Compress(hv, m)
  {
    MacrosMeetTheStandard();
    Fips.CompressAgrees(MACROS, Fips.STANDARD, Fips.K(), hv, m);
  }

  /** The 32 state bytes become the big-endian form of the next intermediate hash value. */
  method TransformBytes(state: array<byte>, buffer: seq<byte>)
    requires state.Length == 32 && |buffer| == 64
    modifies state
    ensures state[..] == Fips.CompressBytes(old(state[..]), buffer)
  {
    var data32, state32 := new Word[16], new Word[8];
    BeIntFromBytes(state[..], state32);
    BeIntFromBytes(buffer, data32);
    MacrosCompress(state32[..], data32[..]);
    Transform(MACROS, Fips.K(), state32, data32[..]);
    BeIntToBytes(state, state32[..]);
  }
}
