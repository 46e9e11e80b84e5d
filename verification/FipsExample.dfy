/** The one-block example of FIPS 180-2, appendix B.1: the digest of the three bytes "abc", round by round. */
module FipsExample {
  import opened Bytes
  import opened Fips180

  const ABC: seq<byte> := [0x61, 0x62, 0x63]

  /** The padded message. */
  const BLOCK: seq<Word> := [0x61626380, 0, 0, 0, 0, 0, 0, 0, 0, 0, 0, 0, 0, 0, 0, 0x18]

  function Next(v: Vars<Word>, k: Word, w: Word): Vars<Word> {
    var t1 := Sum5(v.h, BigSigma1(v.e), Ch(v.e, v.f, v.g), k, w);
    Vars(Add(t1, Add(BigSigma0(v.a), Maj(v.a, v.b, v.c))), v.a, v.b, v.c, Add(v.d, t1), v.e, v.f, v.g)
  }

  ghost predicate IsWord(t: nat, w: Word) { Schedule(STANDARD, BLOCK, t) == w }

  ghost predicate IsRound(t: nat, v: Vars<Word>) { t <= 64 && Rounds(STANDARD, K(), BLOCK, Load(IV), t) == v }

  lemma StandardOps(a: Word, b: Word, c: Word, d: Word, e: Word)
    ensures STANDARD.bigSigma0(a) == BigSigma0(a) && STANDARD.bigSigma1(a) == BigSigma1(a)
    ensures STANDARD.smallSigma0(a) == SmallSigma0(a) && STANDARD.smallSigma1(a) == SmallSigma1(a)
    ensures STANDARD.ch(a, b, c) == Ch(a, b, c) && STANDARD.maj(a, b, c) == Maj(a, b, c)
    ensures STANDARD.add(a, b) == Add(a, b) && STANDARD.sum4(a, b, c, d) == Sum4(a, b, c, d)
    ensures STANDARD.sum5(a, b, c, d, e) == Sum5(a, b, c, d, e)
  {
    hide BigSigma0, BigSigma1, SmallSigma0, SmallSigma1, Ch, Maj, Add, Sum4, Sum5;
  }

  lemma ScheduleStep<W>(o: WordOps<W>, m: seq<W>, t: nat)
    requires |m| == 16 && t >= 16
    ensures Schedule(o, m, t) == o.sum4(o.smallSigma1(Schedule(o, m, t - 2)), Schedule(o, m, t - 7),
                                        o.smallSigma0(Schedule(o, m, t - 15)), Schedule(o, m, t - 16))
  {
  }

  lemma NextWord(t: nat, w2: Word, w7: Word, w15: Word, w16: Word, w: Word)
    requires t >= 16 && IsWord(t - 2, w2) && IsWord(t - 7, w7) && IsWord(t - 15, w15) && IsWord(t - 16, w16)
    requires w == Sum4(SmallSigma1(w2), w7, SmallSigma0(w15), w16)
    ensures IsWord(t, w)
  {
    hide SmallSigma0, SmallSigma1, Sum4, Schedule, STANDARD;
    ScheduleStep(STANDARD, BLOCK, t);
    StandardOps(w2, 0, 0, 0, 0);
    StandardOps(w15, 0, 0, 0, 0);
    StandardOps(SmallSigma1(w2), w7, SmallSigma0(w15), w16, 0);
  }

  lemma StandardRound(v: Vars<Word>, k: Word, w: Word)
    ensures Round(STANDARD, v, k, w) == Next(v, k, w)
  {
    hide BigSigma0, BigSigma1, Ch, Maj, Add, Sum5, STANDARD;
    var s1, ch := BigSigma1(v.e), Ch(v.e, v.f, v.g);
    var s0, maj := BigSigma0(v.a), Maj(v.a, v.b, v.c);
    StandardOps(v.a, v.b, v.c, 0, 0);
    StandardOps(v.e, v.f, v.g, 0, 0);
    StandardOps(s0, maj, 0, 0, 0);
    StandardOps(v.h, s1, ch, k, w);
    StandardOps(v.d, Sum5(v.h, s1, ch, k, w), 0, 0, 0);
    StandardOps(Sum5(v.h, s1, ch, k, w), Add(s0, maj), 0, 0, 0);
  }

  lemma RoundsStep<W>(o: WordOps<W>, k: seq<W>, m: seq<W>, v: Vars<W>, t: nat)
    requires |k| == 64 && |m| == 16 && t < 64
    ensures Rounds(o, k, m, v, t + 1) == Round(o, Rounds(o, k, m, v, t), k[t], Schedule(o, m, t))
  {
    hide Round, Schedule;
  }

  lemma NextRound(t: nat, v: Vars<Word>, k: Word, w: Word)
    requires t < 64 && IsRound(t, v) && IsWord(t, w) && k == KWord(t)
    ensures IsRound(t + 1, Next(v, k, w))
  {
    hide KWord, Next, Schedule, Load, Round, Rounds, STANDARD;
    RoundsStep(STANDARD, K(), BLOCK, Load(IV), t);
    StandardRound(v, k, w);
  }

  lemma WordsFrom16()
    requires IsWord(0, 0x61626380)
    requires IsWord(1, 0x00000000)
    requires IsWord(2, 0x00000000)
    requires IsWord(3, 0x00000000)
    requires IsWord(4, 0x00000000)
    requires IsWord(5, 0x00000000)
    requires IsWord(6, 0x00000000)
    requires IsWord(7, 0x00000000)
    requires IsWord(8, 0x00000000)
    requires IsWord(9, 0x00000000)
    requires IsWord(10, 0x00000000)
    requires IsWord(11, 0x00000000)
    requires IsWord(12, 0x00000000)
    requires IsWord(13, 0x00000000)
    requires IsWord(14, 0x00000000)
    requires IsWord(15, 0x00000018)
    ensures IsWord(16, 0x61626380)
    ensures IsWord(17, 0x000f0000)
    ensures IsWord(18, 0x7da86405)
    ensures IsWord(19, 0x600003c6)
    ensures IsWord(20, 0x3e9d7b78)
    ensures IsWord(21, 0x0183fc00)
    ensures IsWord(22, 0x12dcbfdb)
    ensures IsWord(23, 0xe2e2c38e)
    ensures IsWord(24, 0xc8215c1a)
    ensures IsWord(25, 0xb73679a2)
    ensures IsWord(26, 0xe5bc3909)
    ensures IsWord(27, 0x32663c5b)
    ensures IsWord(28, 0x9d209d67)
    ensures IsWord(29, 0xec8726cb)
    ensures IsWord(30, 0x702138a4)
    ensures IsWord(31, 0xd3b7973b)
  {
    hide IsWord;
    NextWord(16, 0x00000000, 0x00000000, 0x00000000, 0x61626380, 0x61626380);
    NextWord(17, 0x00000018, 0x00000000, 0x00000000, 0x00000000, 0x000f0000);
    NextWord(18, 0x61626380, 0x00000000, 0x00000000, 0x00000000, 0x7da86405);
    NextWord(19, 0x000f0000, 0x00000000, 0x00000000, 0x00000000, 0x600003c6);
    NextWord(20, 0x7da86405, 0x00000000, 0x00000000, 0x00000000, 0x3e9d7b78);
    NextWord(21, 0x600003c6, 0x00000000, 0x00000000, 0x00000000, 0x0183fc00);
    NextWord(22, 0x3e9d7b78, 0x00000018, 0x00000000, 0x00000000, 0x12dcbfdb);
    NextWord(23, 0x0183fc00, 0x61626380, 0x00000000, 0x00000000, 0xe2e2c38e);
    NextWord(24, 0x12dcbfdb, 0x000f0000, 0x00000000, 0x00000000, 0xc8215c1a);
    NextWord(25, 0xe2e2c38e, 0x7da86405, 0x00000000, 0x00000000, 0xb73679a2);
    NextWord(26, 0xc8215c1a, 0x600003c6, 0x00000000, 0x00000000, 0xe5bc3909);
    NextWord(27, 0xb73679a2, 0x3e9d7b78, 0x00000000, 0x00000000, 0x32663c5b);
    NextWord(28, 0xe5bc3909, 0x0183fc00, 0x00000000, 0x00000000, 0x9d209d67);
    NextWord(29, 0x32663c5b, 0x12dcbfdb, 0x00000000, 0x00000000, 0xec8726cb);
    NextWord(30, 0x9d209d67, 0xe2e2c38e, 0x00000018, 0x00000000, 0x702138a4);
    NextWord(31, 0xec8726cb, 0xc8215c1a, 0x61626380, 0x00000018, 0xd3b7973b);
  }

  lemma WordsFrom32()
    requires IsWord(16, 0x61626380)
    requires IsWord(17, 0x000f0000)
    requires IsWord(18, 0x7da86405)
    requires IsWord(19, 0x600003c6)
    requires IsWord(20, 0x3e9d7b78)
    requires IsWord(21, 0x0183fc00)
    requires IsWord(22, 0x12dcbfdb)
    requires IsWord(23, 0xe2e2c38e)
    requires IsWord(24, 0xc8215c1a)
    requires IsWord(25, 0xb73679a2)
    requires IsWord(26, 0xe5bc3909)
    requires IsWord(27, 0x32663c5b)
    requires IsWord(28, 0x9d209d67)
    requires IsWord(29, 0xec8726cb)
    requires IsWord(30, 0x702138a4)
    requires IsWord(31, 0xd3b7973b)
    ensures IsWord(32, 0x93f5997f)
    ensures IsWord(33, 0x3b68ba73)
    ensures IsWord(34, 0xaff4ffc1)
    ensures IsWord(35, 0xf10a5c62)
    ensures IsWord(36, 0x0a8b3996)
    ensures IsWord(37, 0x72af830a)
    ensures IsWord(38, 0x9409e33e)
    ensures IsWord(39, 0x24641522)
    ensures IsWord(40, 0x9f47bf94)
    ensures IsWord(41, 0xf0a64f5a)
    ensures IsWord(42, 0x3e246a79)
    ensures IsWord(43, 0x27333ba3)
    ensures IsWord(44, 0x0c4763f2)
    ensures IsWord(45, 0x840abf27)
    ensures IsWord(46, 0x7a290d5d)
    ensures IsWord(47, 0x065c43da)
  {
    hide IsWord;
    NextWord(32, 0x702138a4, 0xb73679a2, 0x000f0000, 0x61626380, 0x93f5997f);
    NextWord(33, 0xd3b7973b, 0xe5bc3909, 0x7da86405, 0x000f0000, 0x3b68ba73);
    NextWord(34, 0x93f5997f, 0x32663c5b, 0x600003c6, 0x7da86405, 0xaff4ffc1);
    NextWord(35, 0x3b68ba73, 0x9d209d67, 0x3e9d7b78, 0x600003c6, 0xf10a5c62);
    NextWord(36, 0xaff4ffc1, 0xec8726cb, 0x0183fc00, 0x3e9d7b78, 0x0a8b3996);
    NextWord(37, 0xf10a5c62, 0x702138a4, 0x12dcbfdb, 0x0183fc00, 0x72af830a);
    NextWord(38, 0x0a8b3996, 0xd3b7973b, 0xe2e2c38e, 0x12dcbfdb, 0x9409e33e);
    NextWord(39, 0x72af830a, 0x93f5997f, 0xc8215c1a, 0xe2e2c38e, 0x24641522);
    NextWord(40, 0x9409e33e, 0x3b68ba73, 0xb73679a2, 0xc8215c1a, 0x9f47bf94);
    NextWord(41, 0x24641522, 0xaff4ffc1, 0xe5bc3909, 0xb73679a2, 0xf0a64f5a);
    NextWord(42, 0x9f47bf94, 0xf10a5c62, 0x32663c5b, 0xe5bc3909, 0x3e246a79);
    NextWord(43, 0xf0a64f5a, 0x0a8b3996, 0x9d209d67, 0x32663c5b, 0x27333ba3);
    NextWord(44, 0x3e246a79, 0x72af830a, 0xec8726cb, 0x9d209d67, 0x0c4763f2);
    NextWord(45, 0x27333ba3, 0x9409e33e, 0x702138a4, 0xec8726cb, 0x840abf27);
    NextWord(46, 0x0c4763f2, 0x24641522, 0xd3b7973b, 0x702138a4, 0x7a290d5d);
    NextWord(47, 0x840abf27, 0x9f47bf94, 0x93f5997f, 0xd3b7973b, 0x065c43da);
  }

  lemma WordsFrom48()
    requires IsWord(32, 0x93f5997f)
    requires IsWord(33, 0x3b68ba73)
    requires IsWord(34, 0xaff4ffc1)
    requires IsWord(35, 0xf10a5c62)
    requires IsWord(36, 0x0a8b3996)
    requires IsWord(37, 0x72af830a)
    requires IsWord(38, 0x9409e33e)
    requires IsWord(39, 0x24641522)
    requires IsWord(40, 0x9f47bf94)
    requires IsWord(41, 0xf0a64f5a)
    requires IsWord(42, 0x3e246a79)
    requires IsWord(43, 0x27333ba3)
    requires IsWord(44, 0x0c4763f2)
    requires IsWord(45, 0x840abf27)
    requires IsWord(46, 0x7a290d5d)
    requires IsWord(47, 0x065c43da)
    ensures IsWord(48, 0xfb3e89cb)
    ensures IsWord(49, 0xcc7617db)
    ensures IsWord(50, 0xb9e66c34)
    ensures IsWord(51, 0xa9993667)
    ensures IsWord(52, 0x84badedd)
    ensures IsWord(53, 0xc21462bc)
    ensures IsWord(54, 0x1487472c)
    ensures IsWord(55, 0xb20f7a99)
    ensures IsWord(56, 0xef57b9cd)
    ensures IsWord(57, 0xebe6b238)
    ensures IsWord(58, 0x9fe3095e)
    ensures IsWord(59, 0x78bc8d4b)
    ensures IsWord(60, 0xa43fcf15)
    ensures IsWord(61, 0x668b2ff8)
    ensures IsWord(62, 0xeeaba2cc)
    ensures IsWord(63, 0x12b1edeb)
  {
    hide IsWord;
    NextWord(48, 0x7a290d5d, 0xf0a64f5a, 0x3b68ba73, 0x93f5997f, 0xfb3e89cb);
    NextWord(49, 0x065c43da, 0x3e246a79, 0xaff4ffc1, 0x3b68ba73, 0xcc7617db);
    NextWord(50, 0xfb3e89cb, 0x27333ba3, 0xf10a5c62, 0xaff4ffc1, 0xb9e66c34);
    NextWord(51, 0xcc7617db, 0x0c4763f2, 0x0a8b3996, 0xf10a5c62, 0xa9993667);
    NextWord(52, 0xb9e66c34, 0x840abf27, 0x72af830a, 0x0a8b3996, 0x84badedd);
    NextWord(53, 0xa9993667, 0x7a290d5d, 0x9409e33e, 0x72af830a, 0xc21462bc);
    NextWord(54, 0x84badedd, 0x065c43da, 0x24641522, 0x9409e33e, 0x1487472c);
    NextWord(55, 0xc21462bc, 0xfb3e89cb, 0x9f47bf94, 0x24641522, 0xb20f7a99);
    NextWord(56, 0x1487472c, 0xcc7617db, 0xf0a64f5a, 0x9f47bf94, 0xef57b9cd);
    NextWord(57, 0xb20f7a99, 0xb9e66c34, 0x3e246a79, 0xf0a64f5a, 0xebe6b238);
    NextWord(58, 0xef57b9cd, 0xa9993667, 0x27333ba3, 0x3e246a79, 0x9fe3095e);
    NextWord(59, 0xebe6b238, 0x84badedd, 0x0c4763f2, 0x27333ba3, 0x78bc8d4b);
    NextWord(60, 0x9fe3095e, 0xc21462bc, 0x840abf27, 0x0c4763f2, 0xa43fcf15);
    NextWord(61, 0x78bc8d4b, 0x1487472c, 0x7a290d5d, 0x840abf27, 0x668b2ff8);
    NextWord(62, 0xa43fcf15, 0xb20f7a99, 0x065c43da, 0x7a290d5d, 0xeeaba2cc);
    NextWord(63, 0x668b2ff8, 0xef57b9cd, 0xfb3e89cb, 0x065c43da, 0x12b1edeb);
  }

  lemma RoundsFrom0()
    requires IsRound(0,
                 Vars(0x6a09e667, 0xbb67ae85, 0x3c6ef372, 0xa54ff53a, 0x510e527f, 0x9b05688c, 0x1f83d9ab, 0x5be0cd19))
    requires IsWord(0, 0x61626380)
    requires IsWord(1, 0x00000000)
    requires IsWord(2, 0x00000000)
    requires IsWord(3, 0x00000000)
    requires IsWord(4, 0x00000000)
    requires IsWord(5, 0x00000000)
    requires IsWord(6, 0x00000000)
    requires IsWord(7, 0x00000000)
    ensures IsRound(8,
                Vars(0x85a07b5f, 0xe5030380, 0x2b4209f5, 0x04409a6a, 0x0c657a79, 0x9b27a401, 0x714260ad, 0x43ada245))
  {
    hide IsWord, IsRound;
    NextRound(0, Vars(0x6a09e667, 0xbb67ae85, 0x3c6ef372, 0xa54ff53a, 0x510e527f, 0x9b05688c, 0x1f83d9ab, 0x5be0cd19),
              0x428a2f98, 0x61626380);
    NextRound(1, Vars(0x5d6aebcd, 0x6a09e667, 0xbb67ae85, 0x3c6ef372, 0xfa2a4622, 0x510e527f, 0x9b05688c, 0x1f83d9ab),
              0x71374491, 0x00000000);
    NextRound(2, Vars(0x5a6ad9ad, 0x5d6aebcd, 0x6a09e667, 0xbb67ae85, 0x78ce7989, 0xfa2a4622, 0x510e527f, 0x9b05688c),
              0xb5c0fbcf, 0x00000000);
    NextRound(3, Vars(0xc8c347a7, 0x5a6ad9ad, 0x5d6aebcd, 0x6a09e667, 0xf92939eb, 0x78ce7989, 0xfa2a4622, 0x510e527f),
              0xe9b5dba5, 0x00000000);
    NextRound(4, Vars(0xd550f666, 0xc8c347a7, 0x5a6ad9ad, 0x5d6aebcd, 0x24e00850, 0xf92939eb, 0x78ce7989, 0xfa2a4622),
              0x3956c25b, 0x00000000);
    NextRound(5, Vars(0x04409a6a, 0xd550f666, 0xc8c347a7, 0x5a6ad9ad, 0x43ada245, 0x24e00850, 0xf92939eb, 0x78ce7989),
              0x59f111f1, 0x00000000);
    NextRound(6, Vars(0x2b4209f5, 0x04409a6a, 0xd550f666, 0xc8c347a7, 0x714260ad, 0x43ada245, 0x24e00850, 0xf92939eb),
              0x923f82a4, 0x00000000);
    NextRound(7, Vars(0xe5030380, 0x2b4209f5, 0x04409a6a, 0xd550f666, 0x9b27a401, 0x714260ad, 0x43ada245, 0x24e00850),
              0xab1c5ed5, 0x00000000);
  }

  lemma RoundsFrom8()
    requires IsRound(8,
                 Vars(0x85a07b5f, 0xe5030380, 0x2b4209f5, 0x04409a6a, 0x0c657a79, 0x9b27a401, 0x714260ad, 0x43ada245))
    requires IsWord(8, 0x00000000)
    requires IsWord(9, 0x00000000)
    requires IsWord(10, 0x00000000)
    requires IsWord(11, 0x00000000)
    requires IsWord(12, 0x00000000)
    requires IsWord(13, 0x00000000)
    requires IsWord(14, 0x00000000)
    requires IsWord(15, 0x00000018)
    ensures IsRound(16,
                Vars(0xb0fa238e, 0xc0645fde, 0xd932eb16, 0x87912990, 0x07590dcd, 0x0b92f20c, 0x745a48de, 0x1e578218))
  {
    hide IsWord, IsRound;
    NextRound(8, Vars(0x85a07b5f, 0xe5030380, 0x2b4209f5, 0x04409a6a, 0x0c657a79, 0x9b27a401, 0x714260ad, 0x43ada245),
              0xd807aa98, 0x00000000);
    NextRound(9, Vars(0x8e04ecb9, 0x85a07b5f, 0xe5030380, 0x2b4209f5, 0x32ca2d8c, 0x0c657a79, 0x9b27a401, 0x714260ad),
              0x12835b01, 0x00000000);
    NextRound(10, Vars(0x8c87346b, 0x8e04ecb9, 0x85a07b5f, 0xe5030380, 0x1cc92596, 0x32ca2d8c, 0x0c657a79, 0x9b27a401),
              0x243185be, 0x00000000);
    NextRound(11, Vars(0x4798a3f4, 0x8c87346b, 0x8e04ecb9, 0x85a07b5f, 0x436b23e8, 0x1cc92596, 0x32ca2d8c, 0x0c657a79),
              0x550c7dc3, 0x00000000);
    NextRound(12, Vars(0xf71fc5a9, 0x4798a3f4, 0x8c87346b, 0x8e04ecb9, 0x816fd6e9, 0x436b23e8, 0x1cc92596, 0x32ca2d8c),
              0x72be5d74, 0x00000000);
    NextRound(13, Vars(0x87912990, 0xf71fc5a9, 0x4798a3f4, 0x8c87346b, 0x1e578218, 0x816fd6e9, 0x436b23e8, 0x1cc92596),
              0x80deb1fe, 0x00000000);
    NextRound(14, Vars(0xd932eb16, 0x87912990, 0xf71fc5a9, 0x4798a3f4, 0x745a48de, 0x1e578218, 0x816fd6e9, 0x436b23e8),
              0x9bdc06a7, 0x00000000);
    NextRound(15, Vars(0xc0645fde, 0xd932eb16, 0x87912990, 0xf71fc5a9, 0x0b92f20c, 0x745a48de, 0x1e578218, 0x816fd6e9),
              0xc19bf174, 0x00000018);
  }

  lemma RoundsFrom16()
    requires IsRound(16,
                 Vars(0xb0fa238e, 0xc0645fde, 0xd932eb16, 0x87912990, 0x07590dcd, 0x0b92f20c, 0x745a48de, 0x1e578218))
    requires IsWord(16, 0x61626380)
    requires IsWord(17, 0x000f0000)
    requires IsWord(18, 0x7da86405)
    requires IsWord(19, 0x600003c6)
    requires IsWord(20, 0x3e9d7b78)
    requires IsWord(21, 0x0183fc00)
    requires IsWord(22, 0x12dcbfdb)
    requires IsWord(23, 0xe2e2c38e)
    ensures IsRound(24,
                Vars(0xc5d53d8d, 0xa7a3623f, 0xc2606d6d, 0x9dc68b63, 0xaa47c347, 0x49f5114a, 0xe1257970, 0x8ada8930))
  {
    hide IsWord, IsRound;
    NextRound(16, Vars(0xb0fa238e, 0xc0645fde, 0xd932eb16, 0x87912990, 0x07590dcd, 0x0b92f20c, 0x745a48de, 0x1e578218),
              0xe49b69c1, 0x61626380);
    NextRound(17, Vars(0x21da9a9b, 0xb0fa238e, 0xc0645fde, 0xd932eb16, 0x8034229c, 0x07590dcd, 0x0b92f20c, 0x745a48de),
              0xefbe4786, 0x000f0000);
    NextRound(18, Vars(0xc2fbd9d1, 0x21da9a9b, 0xb0fa238e, 0xc0645fde, 0x846ee454, 0x8034229c, 0x07590dcd, 0x0b92f20c),
              0x0fc19dc6, 0x7da86405);
    NextRound(19, Vars(0xfe777bbf, 0xc2fbd9d1, 0x21da9a9b, 0xb0fa238e, 0xcc899961, 0x846ee454, 0x8034229c, 0x07590dcd),
              0x240ca1cc, 0x600003c6);
    NextRound(20, Vars(0xe1f20c33, 0xfe777bbf, 0xc2fbd9d1, 0x21da9a9b, 0xb0638179, 0xcc899961, 0x846ee454, 0x8034229c),
              0x2de92c6f, 0x3e9d7b78);
    NextRound(21, Vars(0x9dc68b63, 0xe1f20c33, 0xfe777bbf, 0xc2fbd9d1, 0x8ada8930, 0xb0638179, 0xcc899961, 0x846ee454),
              0x4a7484aa, 0x0183fc00);
    NextRound(22, Vars(0xc2606d6d, 0x9dc68b63, 0xe1f20c33, 0xfe777bbf, 0xe1257970, 0x8ada8930, 0xb0638179, 0xcc899961),
              0x5cb0a9dc, 0x12dcbfdb);
    NextRound(23, Vars(0xa7a3623f, 0xc2606d6d, 0x9dc68b63, 0xe1f20c33, 0x49f5114a, 0xe1257970, 0x8ada8930, 0xb0638179),
              0x76f988da, 0xe2e2c38e);
  }

  lemma RoundsFrom24()
    requires IsRound(24,
                 Vars(0xc5d53d8d, 0xa7a3623f, 0xc2606d6d, 0x9dc68b63, 0xaa47c347, 0x49f5114a, 0xe1257970, 0x8ada8930))
    requires IsWord(24, 0xc8215c1a)
    requires IsWord(25, 0xb73679a2)
    requires IsWord(26, 0xe5bc3909)
    requires IsWord(27, 0x32663c5b)
    requires IsWord(28, 0x9d209d67)
    requires IsWord(29, 0xec8726cb)
    requires IsWord(30, 0x702138a4)
    requires IsWord(31, 0xd3b7973b)
    ensures IsRound(32,
                Vars(0x73b33bf5, 0xea992a22, 0xa0060b30, 0x363482c9, 0xba591112, 0x0109ab3a, 0xade79437, 0x6112a3b7))
  {
    hide IsWord, IsRound;
    NextRound(24, Vars(0xc5d53d8d, 0xa7a3623f, 0xc2606d6d, 0x9dc68b63, 0xaa47c347, 0x49f5114a, 0xe1257970, 0x8ada8930),
              0x983e5152, 0xc8215c1a);
    NextRound(25, Vars(0x1c2c2838, 0xc5d53d8d, 0xa7a3623f, 0xc2606d6d, 0x2823ef91, 0xaa47c347, 0x49f5114a, 0xe1257970),
              0xa831c66d, 0xb73679a2);
    NextRound(26, Vars(0xcde8037d, 0x1c2c2838, 0xc5d53d8d, 0xa7a3623f, 0x14383d8e, 0x2823ef91, 0xaa47c347, 0x49f5114a),
              0xb00327c8, 0xe5bc3909);
    NextRound(27, Vars(0xb62ec4bc, 0xcde8037d, 0x1c2c2838, 0xc5d53d8d, 0xc74c6516, 0x14383d8e, 0x2823ef91, 0xaa47c347),
              0xbf597fc7, 0x32663c5b);
    NextRound(28, Vars(0x77d37528, 0xb62ec4bc, 0xcde8037d, 0x1c2c2838, 0xedffbff8, 0xc74c6516, 0x14383d8e, 0x2823ef91),
              0xc6e00bf3, 0x9d209d67);
    NextRound(29, Vars(0x363482c9, 0x77d37528, 0xb62ec4bc, 0xcde8037d, 0x6112a3b7, 0xedffbff8, 0xc74c6516, 0x14383d8e),
              0xd5a79147, 0xec8726cb);
    NextRound(30, Vars(0xa0060b30, 0x363482c9, 0x77d37528, 0xb62ec4bc, 0xade79437, 0x6112a3b7, 0xedffbff8, 0xc74c6516),
              0x06ca6351, 0x702138a4);
    NextRound(31, Vars(0xea992a22, 0xa0060b30, 0x363482c9, 0x77d37528, 0x0109ab3a, 0xade79437, 0x6112a3b7, 0xedffbff8),
              0x14292967, 0xd3b7973b);
  }

  lemma RoundsFrom32()
    requires IsRound(32,
                 Vars(0x73b33bf5, 0xea992a22, 0xa0060b30, 0x363482c9, 0xba591112, 0x0109ab3a, 0xade79437, 0x6112a3b7))
    requires IsWord(32, 0x93f5997f)
    requires IsWord(33, 0x3b68ba73)
    requires IsWord(34, 0xaff4ffc1)
    requires IsWord(35, 0xf10a5c62)
    requires IsWord(36, 0x0a8b3996)
    requires IsWord(37, 0x72af830a)
    requires IsWord(38, 0x9409e33e)
    requires IsWord(39, 0x24641522)
    ensures IsRound(40,
                Vars(0x79ea687a, 0x6dc57a8a, 0x34df1604, 0x41a65cb1, 0x1efbc0a0, 0xf0781bc8, 0xa507a53d, 0x0772a26b))
  {
    hide IsWord, IsRound;
    NextRound(32, Vars(0x73b33bf5, 0xea992a22, 0xa0060b30, 0x363482c9, 0xba591112, 0x0109ab3a, 0xade79437, 0x6112a3b7),
              0x27b70a85, 0x93f5997f);
    NextRound(33, Vars(0x98e12507, 0x73b33bf5, 0xea992a22, 0xa0060b30, 0x9cd9f5f6, 0xba591112, 0x0109ab3a, 0xade79437),
              0x2e1b2138, 0x3b68ba73);
    NextRound(34, Vars(0xfe604df5, 0x98e12507, 0x73b33bf5, 0xea992a22, 0x59249dd3, 0x9cd9f5f6, 0xba591112, 0x0109ab3a),
              0x4d2c6dfc, 0xaff4ffc1);
    NextRound(35, Vars(0xa9a7738c, 0xfe604df5, 0x98e12507, 0x73b33bf5, 0x085f3833, 0x59249dd3, 0x9cd9f5f6, 0xba591112),
              0x53380d13, 0xf10a5c62);
    NextRound(36, Vars(0x65a0cfe4, 0xa9a7738c, 0xfe604df5, 0x98e12507, 0xf4b002d6, 0x085f3833, 0x59249dd3, 0x9cd9f5f6),
              0x650a7354, 0x0a8b3996);
    NextRound(37, Vars(0x41a65cb1, 0x65a0cfe4, 0xa9a7738c, 0xfe604df5, 0x0772a26b, 0xf4b002d6, 0x085f3833, 0x59249dd3),
              0x766a0abb, 0x72af830a);
    NextRound(38, Vars(0x34df1604, 0x41a65cb1, 0x65a0cfe4, 0xa9a7738c, 0xa507a53d, 0x0772a26b, 0xf4b002d6, 0x085f3833),
              0x81c2c92e, 0x9409e33e);
    NextRound(39, Vars(0x6dc57a8a, 0x34df1604, 0x41a65cb1, 0x65a0cfe4, 0xf0781bc8, 0xa507a53d, 0x0772a26b, 0xf4b002d6),
              0x92722c85, 0x24641522);
  }

  lemma RoundsFrom40()
    requires IsRound(40,
                 Vars(0x79ea687a, 0x6dc57a8a, 0x34df1604, 0x41a65cb1, 0x1efbc0a0, 0xf0781bc8, 0xa507a53d, 0x0772a26b))
    requires IsWord(40, 0x9f47bf94)
    requires IsWord(41, 0xf0a64f5a)
    requires IsWord(42, 0x3e246a79)
    requires IsWord(43, 0x27333ba3)
    requires IsWord(44, 0x0c4763f2)
    requires IsWord(45, 0x840abf27)
    requires IsWord(46, 0x7a290d5d)
    requires IsWord(47, 0x065c43da)
    ensures IsRound(48,
                Vars(0x4172328d, 0xa14c14b0, 0x72ab4b91, 0x26628815, 0xfecf0bc6, 0xd57b94a9, 0xb7755da1, 0xa80f11f0))
  {
    hide IsWord, IsRound;
    NextRound(40, Vars(0x79ea687a, 0x6dc57a8a, 0x34df1604, 0x41a65cb1, 0x1efbc0a0, 0xf0781bc8, 0xa507a53d, 0x0772a26b),
              0xa2bfe8a1, 0x9f47bf94);
    NextRound(41, Vars(0xd6670766, 0x79ea687a, 0x6dc57a8a, 0x34df1604, 0x26352d63, 0x1efbc0a0, 0xf0781bc8, 0xa507a53d),
              0xa81a664b, 0xf0a64f5a);
    NextRound(42, Vars(0xdf46652f, 0xd6670766, 0x79ea687a, 0x6dc57a8a, 0x838b2711, 0x26352d63, 0x1efbc0a0, 0xf0781bc8),
              0xc24b8b70, 0x3e246a79);
    NextRound(43, Vars(0x17aa0dfe, 0xdf46652f, 0xd6670766, 0x79ea687a, 0xdecd4715, 0x838b2711, 0x26352d63, 0x1efbc0a0),
              0xc76c51a3, 0x27333ba3);
    NextRound(44, Vars(0x9d4baf93, 0x17aa0dfe, 0xdf46652f, 0xd6670766, 0xfda24c2e, 0xdecd4715, 0x838b2711, 0x26352d63),
              0xd192e819, 0x0c4763f2);
    NextRound(45, Vars(0x26628815, 0x9d4baf93, 0x17aa0dfe, 0xdf46652f, 0xa80f11f0, 0xfda24c2e, 0xdecd4715, 0x838b2711),
              0xd6990624, 0x840abf27);
    NextRound(46, Vars(0x72ab4b91, 0x26628815, 0x9d4baf93, 0x17aa0dfe, 0xb7755da1, 0xa80f11f0, 0xfda24c2e, 0xdecd4715),
              0xf40e3585, 0x7a290d5d);
    NextRound(47, Vars(0xa14c14b0, 0x72ab4b91, 0x26628815, 0x9d4baf93, 0xd57b94a9, 0xb7755da1, 0xa80f11f0, 0xfda24c2e),
              0x106aa070, 0x065c43da);
  }

  lemma RoundsFrom48()
    requires IsRound(48,
                 Vars(0x4172328d, 0xa14c14b0, 0x72ab4b91, 0x26628815, 0xfecf0bc6, 0xd57b94a9, 0xb7755da1, 0xa80f11f0))
    requires IsWord(48, 0xfb3e89cb)
    requires IsWord(49, 0xcc7617db)
    requires IsWord(50, 0xb9e66c34)
    requires IsWord(51, 0xa9993667)
    requires IsWord(52, 0x84badedd)
    requires IsWord(53, 0xc21462bc)
    requires IsWord(54, 0x1487472c)
    requires IsWord(55, 0xb20f7a99)
    ensures IsRound(56,
                Vars(0x38cc9913, 0x3ec45cdb, 0xf5702fdb, 0x101fd28f, 0x54cb266b, 0xe50e1b4f, 0x9f4787c3, 0x529e7d00))
  {
    hide IsWord, IsRound;
    NextRound(48, Vars(0x4172328d, 0xa14c14b0, 0x72ab4b91, 0x26628815, 0xfecf0bc6, 0xd57b94a9, 0xb7755da1, 0xa80f11f0),
              0x19a4c116, 0xfb3e89cb);
    NextRound(49, Vars(0x05757ceb, 0x4172328d, 0xa14c14b0, 0x72ab4b91, 0xbd714038, 0xfecf0bc6, 0xd57b94a9, 0xb7755da1),
              0x1e376c08, 0xcc7617db);
    NextRound(50, Vars(0xf11bfaa8, 0x05757ceb, 0x4172328d, 0xa14c14b0, 0x6e5c390c, 0xbd714038, 0xfecf0bc6, 0xd57b94a9),
              0x2748774c, 0xb9e66c34);
    NextRound(51, Vars(0x7a0508a1, 0xf11bfaa8, 0x05757ceb, 0x4172328d, 0x52f1ccf7, 0x6e5c390c, 0xbd714038, 0xfecf0bc6),
              0x34b0bcb5, 0xa9993667);
    NextRound(52, Vars(0x886e7a22, 0x7a0508a1, 0xf11bfaa8, 0x05757ceb, 0x49231c1e, 0x52f1ccf7, 0x6e5c390c, 0xbd714038),
              0x391c0cb3, 0x84badedd);
    NextRound(53, Vars(0x101fd28f, 0x886e7a22, 0x7a0508a1, 0xf11bfaa8, 0x529e7d00, 0x49231c1e, 0x52f1ccf7, 0x6e5c390c),
              0x4ed8aa4a, 0xc21462bc);
    NextRound(54, Vars(0xf5702fdb, 0x101fd28f, 0x886e7a22, 0x7a0508a1, 0x9f4787c3, 0x529e7d00, 0x49231c1e, 0x52f1ccf7),
              0x5b9cca4f, 0x1487472c);
    NextRound(55, Vars(0x3ec45cdb, 0xf5702fdb, 0x101fd28f, 0x886e7a22, 0xe50e1b4f, 0x9f4787c3, 0x529e7d00, 0x49231c1e),
              0x682e6ff3, 0xb20f7a99);
  }

  lemma RoundsFrom56()
    requires IsRound(56,
                 Vars(0x38cc9913, 0x3ec45cdb, 0xf5702fdb, 0x101fd28f, 0x54cb266b, 0xe50e1b4f, 0x9f4787c3, 0x529e7d00))
    requires IsWord(56, 0xef57b9cd)
    requires IsWord(57, 0xebe6b238)
    requires IsWord(58, 0x9fe3095e)
    requires IsWord(59, 0x78bc8d4b)
    requires IsWord(60, 0xa43fcf15)
    requires IsWord(61, 0x668b2ff8)
    requires IsWord(62, 0xeeaba2cc)
    requires IsWord(63, 0x12b1edeb)
    ensures IsRound(64,
                Vars(0x506e3058, 0xd39a2165, 0x04d24d6c, 0xb85e2ce9, 0x5ef50f24, 0xfb121210, 0x948d25b6, 0x961f4894))
  {
    hide IsWord, IsRound;
    NextRound(56, Vars(0x38cc9913, 0x3ec45cdb, 0xf5702fdb, 0x101fd28f, 0x54cb266b, 0xe50e1b4f, 0x9f4787c3, 0x529e7d00),
              0x748f82ee, 0xef57b9cd);
    NextRound(57, Vars(0xfcd1887b, 0x38cc9913, 0x3ec45cdb, 0xf5702fdb, 0x9b5e906c, 0x54cb266b, 0xe50e1b4f, 0x9f4787c3),
              0x78a5636f, 0xebe6b238);
    NextRound(58, Vars(0xc062d46f, 0xfcd1887b, 0x38cc9913, 0x3ec45cdb, 0x7e44008e, 0x9b5e906c, 0x54cb266b, 0xe50e1b4f),
              0x84c87814, 0x9fe3095e);
    NextRound(59, Vars(0xffb70472, 0xc062d46f, 0xfcd1887b, 0x38cc9913, 0x6d83bfc6, 0x7e44008e, 0x9b5e906c, 0x54cb266b),
              0x8cc70208, 0x78bc8d4b);
    NextRound(60, Vars(0xb6ae8fff, 0xffb70472, 0xc062d46f, 0xfcd1887b, 0xb21bad3d, 0x6d83bfc6, 0x7e44008e, 0x9b5e906c),
              0x90befffa, 0xa43fcf15);
    NextRound(61, Vars(0xb85e2ce9, 0xb6ae8fff, 0xffb70472, 0xc062d46f, 0x961f4894, 0xb21bad3d, 0x6d83bfc6, 0x7e44008e),
              0xa4506ceb, 0x668b2ff8);
    NextRound(62, Vars(0x04d24d6c, 0xb85e2ce9, 0xb6ae8fff, 0xffb70472, 0x948d25b6, 0x961f4894, 0xb21bad3d, 0x6d83bfc6),
              0xbef9a3f7, 0xeeaba2cc);
    NextRound(63, Vars(0xd39a2165, 0x04d24d6c, 0xb85e2ce9, 0xb6ae8fff, 0xfb121210, 0x948d25b6, 0x961f4894, 0xb21bad3d),
              0xc67178f2, 0x12b1edeb);
  }

  // ----- the whole block -----

  lemma FirstWords()
    ensures IsWord(0, 0x61626380)
    ensures IsWord(1, 0x00000000)
    ensures IsWord(2, 0x00000000)
    ensures IsWord(3, 0x00000000)
    ensures IsWord(4, 0x00000000)
    ensures IsWord(5, 0x00000000)
    ensures IsWord(6, 0x00000000)
    ensures IsWord(7, 0x00000000)
    ensures IsWord(8, 0x00000000)
    ensures IsWord(9, 0x00000000)
    ensures IsWord(10, 0x00000000)
    ensures IsWord(11, 0x00000000)
    ensures IsWord(12, 0x00000000)
    ensures IsWord(13, 0x00000000)
    ensures IsWord(14, 0x00000000)
    ensures IsWord(15, 0x00000018)
  {
  }

  lemma FirstRound()
    ensures IsRound(0,
                Vars(0x6a09e667, 0xbb67ae85, 0x3c6ef372, 0xa54ff53a, 0x510e527f, 0x9b05688c, 0x1f83d9ab, 0x5be0cd19))
  {
  }

  /** The working variables after all sixty-four rounds. */
  lemma AllRounds()
    ensures IsRound(64,
                Vars(0x506e3058, 0xd39a2165, 0x04d24d6c, 0xb85e2ce9, 0x5ef50f24, 0xfb121210, 0x948d25b6, 0x961f4894))
  {
    hide IsWord, IsRound;
    FirstRound();
    FirstWords();
    WordsFrom16();
    WordsFrom32();
    WordsFrom48();
    RoundsFrom0();
    RoundsFrom8();
    RoundsFrom16();
    RoundsFrom24();
    RoundsFrom32();
    RoundsFrom40();
    RoundsFrom48();
    RoundsFrom56();
  }

  /** Three bytes, a one bit, zeros and the length 24 are one block. */
  lemma PaddedAbc()
    ensures ABC + Padding(3) == [0x61, 0x62, 0x63, 0x80] + Zeros(56) + [0, 0, 0, 24]
  {
    var f := LengthField(24);
    Value8OfSmall(f);
    assert Padding(3) == [0x80] + Zeros(52) + f;
    assert ABC + ([0x80] + Zeros(52) + f) == [0x61, 0x62, 0x63, 0x80] + Zeros(52) + f;
    assert Zeros(52) + [0, 0, 0, 0, 0, 0, 0, 24] == Zeros(56) + [0, 0, 0, 24];
  }

  lemma Value8OfSmall(b: seq<byte>)
    requires |b| == 8 && Value8(b) == 24
    ensures b == [0, 0, 0, 0, 0, 0, 0, 24]
  {
  }

  lemma WordsOfBlock()
    ensures Decode([0x61, 0x62, 0x63, 0x80] + Zeros(56) + [0, 0, 0, 24]) == BLOCK
  {
    var b: seq<byte> := [0x61, 0x62, 0x63, 0x80] + Zeros(56) + [0, 0, 0, 24];
    assert BytesToWord([0x61, 0x62, 0x63, 0x80]) == 0x61626380 && BytesToWord([0, 0, 0, 24]) == 0x18;
    assert BytesToWord([0, 0, 0, 0]) == 0;
    hide BytesToWord;
    forall i | 0 <= i < 16
      ensures BytesToWord(b[4 * i..4 * i + 4]) == BLOCK[i]
    {
      assert b[4 * i..4 * i + 4]
        == if i == 0 then [0x61, 0x62, 0x63, 0x80] else if i == 15 then [0, 0, 0, 24] else [0, 0, 0, 0];
    }
  }

  lemma OneBlock(hv: seq<Word>, p: seq<byte>)
    requires |hv| == 8 && |p| == 64
    ensures Blocks(hv, p) == Compress(hv, Decode(p))
  {
    hide Compress, Decode;
    assert p[..0] == [] && p[0..] == p;
    assert Blocks(hv, []) == hv;
  }

  const DIGEST: seq<Word> := [
    0xba7816bf, 0x8f01cfea, 0x414140de, 0x5dae2223, 0xb00361a3, 0x96177a9c, 0xb410ff61, 0xf20015ad
  ]

  lemma CompressedAbc()
    ensures Compress(IV, BLOCK) == DIGEST
  {
    AllRounds();
  }

  /** The digest of "abc". */
  lemma AbcDigest()
    ensures Sha256(ABC) == Encode(DIGEST)
  {
    hide Compress, Padding, Encode, Decode;
    PaddedAbc();
    WordsOfBlock();
    CompressedAbc();
    OneBlock(IV, ABC + Padding(3));
  }
}
