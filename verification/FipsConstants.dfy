/** The constants of the standard are what sections 4.2.2 and 5.3.3 say: bits of the roots of the first primes. */
module FipsConstants {
  import opened Fips180

  const TWO_32 := 0x1_0000_0000
  const TWO_64 := 0x1_0000_0000_0000_0000
  const TWO_96 := 0x1_0000_0000_0000_0000_0000_0000

  predicate IsPrime(n: nat) { n >= 2 && forall d :: 2 <= d < n ==> n % d != 0 }

  /** p is the first prime after the given number. */
  ghost predicate NextPrime(after: nat, p: nat) {
    after < p && IsPrime(p) && forall n :: after < n < p ==> !IsPrime(n)
  }

  /** The first sixty-four primes. */
  function Prime(t: nat): nat
    requires t < 64
  {
    if t < 8 then [2, 3, 5, 7, 11, 13, 17, 19][t]
    else if t < 16 then [23, 29, 31, 37, 41, 43, 47, 53][t - 8]
    else if t < 24 then [59, 61, 67, 71, 73, 79, 83, 89][t - 16]
    else if t < 32 then [97, 101, 103, 107, 109, 113, 127, 131][t - 24]
    else if t < 40 then [137, 139, 149, 151, 157, 163, 167, 173][t - 32]
    else if t < 48 then [179, 181, 191, 193, 197, 199, 211, 223][t - 40]
    else if t < 56 then [227, 229, 233, 239, 241, 251, 257, 263][t - 48]
    else [269, 271, 277, 281, 283, 293, 307, 311][t - 56]
  }

  function Before(t: nat): nat
    requires t < 64
  {
    if t == 0 then 1 else Prime(t - 1)
  }

  // ----- a sieve -----

  /** A smaller prime below 19 divides n. */
  predicate Sieved(n: nat) {
    || (n > 2 && n % 2 == 0) || (n > 3 && n % 3 == 0) || (n > 5 && n % 5 == 0) || (n > 7 && n % 7 == 0)
    || (n > 11 && n % 11 == 0) || (n > 13 && n % 13 == 0) || (n > 17 && n % 17 == 0)
  }

  /** Below 361 the sieve finds every composite. */
  lemma SieveIsExact(n: nat)
    requires 2 <= n < 361
    ensures IsPrime(n) <==> !Sieved(n)
  {
    if !Sieved(n) {
      forall d | 2 <= d < n
        ensures n % d != 0
      {
        if n % d == 0 {
          var e := n / d;
          assert n == d * e;
          Cofactor(n, d, e);
          SmallDivisor(n, if d <= 18 then d else e);
        }
      }
    }
  }

  lemma Cofactor(n: nat, d: nat, e: nat)
    requires n < 361 && n == d * e && 2 <= d < n
    ensures 2 <= e < n && n % e == 0 && (d <= 18 || e <= 18)
  {
    assert e > 0 && e != 1;
    Multiple(n, e, d);
    assert d >= 19 && e >= 19 ==> d * e >= 19 * 19;
    assert d * e >= 2 * e;
  }

  lemma Multiple(n: nat, k: nat, q: nat)
    requires k > 0 && n == k * q
    ensures n % k == 0
  {
    var j := q - n / k;
    assert k * j == n % k;
    assert j >= 1 ==> k * j >= k * 1;
    assert j <= -1 ==> k * j <= k * -1;
  }

  lemma SmallDivisor(n: nat, d: nat)
    requires 2 <= d <= 18 && d < n && n % d == 0
    ensures Sieved(n)
  {
    if d % 2 == 0 {
      Transitive(n, d, 2);
    } else if d % 3 == 0 {
      Transitive(n, d, 3);
    } else {
      assert d == 5 || d == 7 || d == 11 || d == 13 || d == 17;
    }
  }

  lemma Transitive(n: nat, d: nat, k: nat)
    requires d > 0 && k > 0 && n % d == 0 && d % k == 0
    ensures n % k == 0
  {
    var q := d / k * (n / d);
    assert n == k * (d / k) * (n / d);
    assert n == k * q;
    Multiple(n, k, q);
  }

  /** The next numbers from n on, at most thirteen of them, are all sieved. */
  predicate SievedRun(n: nat, count: nat) {
    && count <= 13 && (count > 0 ==> Sieved(n)) && (count > 1 ==> Sieved(n + 1))
    && (count > 2 ==> Sieved(n + 2)) && (count > 3 ==> Sieved(n + 3)) && (count > 4 ==> Sieved(n + 4))
    && (count > 5 ==> Sieved(n + 5)) && (count > 6 ==> Sieved(n + 6)) && (count > 7 ==> Sieved(n + 7))
    && (count > 8 ==> Sieved(n + 8)) && (count > 9 ==> Sieved(n + 9)) && (count > 10 ==> Sieved(n + 10))
    && (count > 11 ==> Sieved(n + 11)) && (count > 12 ==> Sieved(n + 12))
  }

  lemma SievedNext(after: nat, p: nat)
    requires 0 < after < p < 361 && !Sieved(p) && SievedRun(after + 1, p - after - 1)
    ensures NextPrime(after, p)
  {
    hide IsPrime, Sieved;
    SieveIsExact(p);
    forall n | after < n < p
      ensures !IsPrime(n)
    {
      SieveIsExact(n);
    }
  }

  // ----- section 4.2.2 -----

  /** The first thirty-two bits of the fractional part of the cube root of p. */
  ghost predicate CubeRootBits(p: nat, bits: nat) {
    exists r: nat :: r * r * r <= p * TWO_96 < (r + 1) * (r + 1) * (r + 1) && r % TWO_32 == bits
  }

  /** Constant t has the bits of the cube root of prime t, which is the next prime after prime t - 1. */
  ghost predicate FromPrime(t: nat)
    requires t < 64
  {
    NextPrime(Before(t), Prime(t)) && CubeRootBits(Prime(t), K()[t] as int)
  }

  lemma CubeRoot(p: nat, r: nat)
    requires r * r * r <= p * TWO_96 < (r + 1) * (r + 1) * (r + 1)
    ensures CubeRootBits(p, r % TWO_32)
  {
  }

  lemma PrimesFrom0()
    ensures NextPrime(1, 2)
    ensures NextPrime(2, 3)
    ensures NextPrime(3, 5)
    ensures NextPrime(5, 7)
  {
    hide NextPrime;
    SievedNext(1, 2);
    SievedNext(2, 3);
    SievedNext(3, 5);
    SievedNext(5, 7);
  }

  lemma PrimesFrom4()
    ensures NextPrime(7, 11)
    ensures NextPrime(11, 13)
    ensures NextPrime(13, 17)
    ensures NextPrime(17, 19)
  {
    hide NextPrime;
    SievedNext(7, 11);
    SievedNext(11, 13);
    SievedNext(13, 17);
    SievedNext(17, 19);
  }

  lemma RootsFrom0()
    ensures CubeRootBits(2, 0x428a2f98)
    ensures CubeRootBits(3, 0x71374491)
    ensures CubeRootBits(5, 0xb5c0fbcf)
    ensures CubeRootBits(7, 0xe9b5dba5)
    ensures CubeRootBits(11, 0x3956c25b)
    ensures CubeRootBits(13, 0x59f111f1)
    ensures CubeRootBits(17, 0x923f82a4)
    ensures CubeRootBits(19, 0xab1c5ed5)
  {
    hide CubeRootBits;
    CubeRoot(2, 0x1_428a_2f98);
    CubeRoot(3, 0x1_7137_4491);
    CubeRoot(5, 0x1_b5c0_fbcf);
    CubeRoot(7, 0x1_e9b5_dba5);
    CubeRoot(11, 0x2_3956_c25b);
    CubeRoot(13, 0x2_59f1_11f1);
    CubeRoot(17, 0x2_923f_82a4);
    CubeRoot(19, 0x2_ab1c_5ed5);
  }

  lemma ConstantsFrom0(t: nat)
    requires 0 <= t < 8
    ensures FromPrime(t)
  {
    hide NextPrime, CubeRootBits;
    PrimesFrom0();
    PrimesFrom4();
    RootsFrom0();
  }

  lemma PrimesFrom8()
    ensures NextPrime(19, 23)
    ensures NextPrime(23, 29)
    ensures NextPrime(29, 31)
    ensures NextPrime(31, 37)
  {
    hide NextPrime;
    SievedNext(19, 23);
    SievedNext(23, 29);
    SievedNext(29, 31);
    SievedNext(31, 37);
  }

  lemma PrimesFrom12()
    ensures NextPrime(37, 41)
    ensures NextPrime(41, 43)
    ensures NextPrime(43, 47)
    ensures NextPrime(47, 53)
  {
    hide NextPrime;
    SievedNext(37, 41);
    SievedNext(41, 43);
    SievedNext(43, 47);
    SievedNext(47, 53);
  }

  lemma RootsFrom8()
    ensures CubeRootBits(23, 0xd807aa98)
    ensures CubeRootBits(29, 0x12835b01)
    ensures CubeRootBits(31, 0x243185be)
    ensures CubeRootBits(37, 0x550c7dc3)
    ensures CubeRootBits(41, 0x72be5d74)
    ensures CubeRootBits(43, 0x80deb1fe)
    ensures CubeRootBits(47, 0x9bdc06a7)
    ensures CubeRootBits(53, 0xc19bf174)
  {
    hide CubeRootBits;
    CubeRoot(23, 0x2_d807_aa98);
    CubeRoot(29, 0x3_1283_5b01);
    CubeRoot(31, 0x3_2431_85be);
    CubeRoot(37, 0x3_550c_7dc3);
    CubeRoot(41, 0x3_72be_5d74);
    CubeRoot(43, 0x3_80de_b1fe);
    CubeRoot(47, 0x3_9bdc_06a7);
    CubeRoot(53, 0x3_c19b_f174);
  }

  lemma ConstantsFrom8(t: nat)
    requires 8 <= t < 16
    ensures FromPrime(t)
  {
    hide NextPrime, CubeRootBits;
    PrimesFrom8();
    PrimesFrom12();
    RootsFrom8();
  }

  lemma PrimesFrom16()
    ensures NextPrime(53, 59)
    ensures NextPrime(59, 61)
    ensures NextPrime(61, 67)
    ensures NextPrime(67, 71)
  {
    hide NextPrime;
    SievedNext(53, 59);
    SievedNext(59, 61);
    SievedNext(61, 67);
    SievedNext(67, 71);
  }

  lemma PrimesFrom20()
    ensures NextPrime(71, 73)
    ensures NextPrime(73, 79)
    ensures NextPrime(79, 83)
    ensures NextPrime(83, 89)
  {
    hide NextPrime;
    SievedNext(71, 73);
    SievedNext(73, 79);
    SievedNext(79, 83);
    SievedNext(83, 89);
  }

  lemma RootsFrom16()
    ensures CubeRootBits(59, 0xe49b69c1)
    ensures CubeRootBits(61, 0xefbe4786)
    ensures CubeRootBits(67, 0x0fc19dc6)
    ensures CubeRootBits(71, 0x240ca1cc)
    ensures CubeRootBits(73, 0x2de92c6f)
    ensures CubeRootBits(79, 0x4a7484aa)
    ensures CubeRootBits(83, 0x5cb0a9dc)
    ensures CubeRootBits(89, 0x76f988da)
  {
    hide CubeRootBits;
    CubeRoot(59, 0x3_e49b_69c1);
    CubeRoot(61, 0x3_efbe_4786);
    CubeRoot(67, 0x4_0fc1_9dc6);
    CubeRoot(71, 0x4_240c_a1cc);
    CubeRoot(73, 0x4_2de9_2c6f);
    CubeRoot(79, 0x4_4a74_84aa);
    CubeRoot(83, 0x4_5cb0_a9dc);
    CubeRoot(89, 0x4_76f9_88da);
  }

  lemma ConstantsFrom16(t: nat)
    requires 16 <= t < 24
    ensures FromPrime(t)
  {
    hide NextPrime, CubeRootBits;
    PrimesFrom16();
    PrimesFrom20();
    RootsFrom16();
  }

  lemma PrimesFrom24()
    ensures NextPrime(89, 97)
    ensures NextPrime(97, 101)
    ensures NextPrime(101, 103)
    ensures NextPrime(103, 107)
  {
    hide NextPrime;
    SievedNext(89, 97);
    SievedNext(97, 101);
    SievedNext(101, 103);
    SievedNext(103, 107);
  }

  lemma PrimesFrom28()
    ensures NextPrime(107, 109)
    ensures NextPrime(109, 113)
    ensures NextPrime(113, 127)
    ensures NextPrime(127, 131)
  {
    hide NextPrime;
    SievedNext(107, 109);
    SievedNext(109, 113);
    SievedNext(113, 127);
    SievedNext(127, 131);
  }

  lemma RootsFrom24()
    ensures CubeRootBits(97, 0x983e5152)
    ensures CubeRootBits(101, 0xa831c66d)
    ensures CubeRootBits(103, 0xb00327c8)
    ensures CubeRootBits(107, 0xbf597fc7)
    ensures CubeRootBits(109, 0xc6e00bf3)
    ensures CubeRootBits(113, 0xd5a79147)
    ensures CubeRootBits(127, 0x06ca6351)
    ensures CubeRootBits(131, 0x14292967)
  {
    hide CubeRootBits;
    CubeRoot(97, 0x4_983e_5152);
    CubeRoot(101, 0x4_a831_c66d);
    CubeRoot(103, 0x4_b003_27c8);
    CubeRoot(107, 0x4_bf59_7fc7);
    CubeRoot(109, 0x4_c6e0_0bf3);
    CubeRoot(113, 0x4_d5a7_9147);
    CubeRoot(127, 0x5_06ca_6351);
    CubeRoot(131, 0x5_1429_2967);
  }

  lemma ConstantsFrom24(t: nat)
    requires 24 <= t < 32
    ensures FromPrime(t)
  {
    hide NextPrime, CubeRootBits;
    PrimesFrom24();
    PrimesFrom28();
    RootsFrom24();
  }

  lemma PrimesFrom32()
    ensures NextPrime(131, 137)
    ensures NextPrime(137, 139)
    ensures NextPrime(139, 149)
    ensures NextPrime(149, 151)
  {
    hide NextPrime;
    SievedNext(131, 137);
    SievedNext(137, 139);
    SievedNext(139, 149);
    SievedNext(149, 151);
  }

  lemma PrimesFrom36()
    ensures NextPrime(151, 157)
    ensures NextPrime(157, 163)
    ensures NextPrime(163, 167)
    ensures NextPrime(167, 173)
  {
    hide NextPrime;
    SievedNext(151, 157);
    SievedNext(157, 163);
    SievedNext(163, 167);
    SievedNext(167, 173);
  }

  lemma RootsFrom32()
    ensures CubeRootBits(137, 0x27b70a85)
    ensures CubeRootBits(139, 0x2e1b2138)
    ensures CubeRootBits(149, 0x4d2c6dfc)
    ensures CubeRootBits(151, 0x53380d13)
    ensures CubeRootBits(157, 0x650a7354)
    ensures CubeRootBits(163, 0x766a0abb)
    ensures CubeRootBits(167, 0x81c2c92e)
    ensures CubeRootBits(173, 0x92722c85)
  {
    hide CubeRootBits;
    CubeRoot(137, 0x5_27b7_0a85);
    CubeRoot(139, 0x5_2e1b_2138);
    CubeRoot(149, 0x5_4d2c_6dfc);
    CubeRoot(151, 0x5_5338_0d13);
    CubeRoot(157, 0x5_650a_7354);
    CubeRoot(163, 0x5_766a_0abb);
    CubeRoot(167, 0x5_81c2_c92e);
    CubeRoot(173, 0x5_9272_2c85);
  }

  lemma ConstantsFrom32(t: nat)
    requires 32 <= t < 40
    ensures FromPrime(t)
  {
    hide NextPrime, CubeRootBits;
    PrimesFrom32();
    PrimesFrom36();
    RootsFrom32();
  }

  lemma PrimesFrom40()
    ensures NextPrime(173, 179)
    ensures NextPrime(179, 181)
    ensures NextPrime(181, 191)
    ensures NextPrime(191, 193)
  {
    hide NextPrime;
    SievedNext(173, 179);
    SievedNext(179, 181);
    SievedNext(181, 191);
    SievedNext(191, 193);
  }

  lemma PrimesFrom44()
    ensures NextPrime(193, 197)
    ensures NextPrime(197, 199)
    ensures NextPrime(199, 211)
    ensures NextPrime(211, 223)
  {
    hide NextPrime;
    SievedNext(193, 197);
    SievedNext(197, 199);
    SievedNext(199, 211);
    SievedNext(211, 223);
  }

  lemma RootsFrom40()
    ensures CubeRootBits(179, 0xa2bfe8a1)
    ensures CubeRootBits(181, 0xa81a664b)
    ensures CubeRootBits(191, 0xc24b8b70)
    ensures CubeRootBits(193, 0xc76c51a3)
    ensures CubeRootBits(197, 0xd192e819)
    ensures CubeRootBits(199, 0xd6990624)
    ensures CubeRootBits(211, 0xf40e3585)
    ensures CubeRootBits(223, 0x106aa070)
  {
    hide CubeRootBits;
    CubeRoot(179, 0x5_a2bf_e8a1);
    CubeRoot(181, 0x5_a81a_664b);
    CubeRoot(191, 0x5_c24b_8b70);
    CubeRoot(193, 0x5_c76c_51a3);
    CubeRoot(197, 0x5_d192_e819);
    CubeRoot(199, 0x5_d699_0624);
    CubeRoot(211, 0x5_f40e_3585);
    CubeRoot(223, 0x6_106a_a070);
  }

  lemma ConstantsFrom40(t: nat)
    requires 40 <= t < 48
    ensures FromPrime(t)
  {
    hide NextPrime, CubeRootBits;
    PrimesFrom40();
    PrimesFrom44();
    RootsFrom40();
  }

  lemma PrimesFrom48()
    ensures NextPrime(223, 227)
    ensures NextPrime(227, 229)
    ensures NextPrime(229, 233)
    ensures NextPrime(233, 239)
  {
    hide NextPrime;
    SievedNext(223, 227);
    SievedNext(227, 229);
    SievedNext(229, 233);
    SievedNext(233, 239);
  }

  lemma PrimesFrom52()
    ensures NextPrime(239, 241)
    ensures NextPrime(241, 251)
    ensures NextPrime(251, 257)
    ensures NextPrime(257, 263)
  {
    hide NextPrime;
    SievedNext(239, 241);
    SievedNext(241, 251);
    SievedNext(251, 257);
    SievedNext(257, 263);
  }

  lemma RootsFrom48()
    ensures CubeRootBits(227, 0x19a4c116)
    ensures CubeRootBits(229, 0x1e376c08)
    ensures CubeRootBits(233, 0x2748774c)
    ensures CubeRootBits(239, 0x34b0bcb5)
    ensures CubeRootBits(241, 0x391c0cb3)
    ensures CubeRootBits(251, 0x4ed8aa4a)
    ensures CubeRootBits(257, 0x5b9cca4f)
    ensures CubeRootBits(263, 0x682e6ff3)
  {
    hide CubeRootBits;
    CubeRoot(227, 0x6_19a4_c116);
    CubeRoot(229, 0x6_1e37_6c08);
    CubeRoot(233, 0x6_2748_774c);
    CubeRoot(239, 0x6_34b0_bcb5);
    CubeRoot(241, 0x6_391c_0cb3);
    CubeRoot(251, 0x6_4ed8_aa4a);
    CubeRoot(257, 0x6_5b9c_ca4f);
    CubeRoot(263, 0x6_682e_6ff3);
  }

  lemma ConstantsFrom48(t: nat)
    requires 48 <= t < 56
    ensures FromPrime(t)
  {
    hide NextPrime, CubeRootBits;
    PrimesFrom48();
    PrimesFrom52();
    RootsFrom48();
  }

  lemma PrimesFrom56()
    ensures NextPrime(263, 269)
    ensures NextPrime(269, 271)
    ensures NextPrime(271, 277)
    ensures NextPrime(277, 281)
  {
    hide NextPrime;
    SievedNext(263, 269);
    SievedNext(269, 271);
    SievedNext(271, 277);
    SievedNext(277, 281);
  }

  lemma PrimesFrom60()
    ensures NextPrime(281, 283)
    ensures NextPrime(283, 293)
    ensures NextPrime(293, 307)
    ensures NextPrime(307, 311)
  {
    hide NextPrime;
    SievedNext(281, 283);
    SievedNext(283, 293);
    SievedNext(293, 307);
    SievedNext(307, 311);
  }

  lemma RootsFrom56()
    ensures CubeRootBits(269, 0x748f82ee)
    ensures CubeRootBits(271, 0x78a5636f)
    ensures CubeRootBits(277, 0x84c87814)
    ensures CubeRootBits(281, 0x8cc70208)
    ensures CubeRootBits(283, 0x90befffa)
    ensures CubeRootBits(293, 0xa4506ceb)
    ensures CubeRootBits(307, 0xbef9a3f7)
    ensures CubeRootBits(311, 0xc67178f2)
  {
    hide CubeRootBits;
    CubeRoot(269, 0x6_748f_82ee);
    CubeRoot(271, 0x6_78a5_636f);
    CubeRoot(277, 0x6_84c8_7814);
    CubeRoot(281, 0x6_8cc7_0208);
    CubeRoot(283, 0x6_90be_fffa);
    CubeRoot(293, 0x6_a450_6ceb);
    CubeRoot(307, 0x6_bef9_a3f7);
    CubeRoot(311, 0x6_c671_78f2);
  }

  lemma ConstantsFrom56(t: nat)
    requires 56 <= t < 64
    ensures FromPrime(t)
  {
    hide NextPrime, CubeRootBits;
    PrimesFrom56();
    PrimesFrom60();
    RootsFrom56();
  }

  /** All sixty-four, and the first prime is 2. */
  lemma RoundConstants(t: nat)
    requires t < 64
    ensures FromPrime(t) && Prime(0) == 2
  {
    hide FromPrime;
    if t < 8 {
      ConstantsFrom0(t);
    } else if t < 16 {
      ConstantsFrom8(t);
    } else if t < 24 {
      ConstantsFrom16(t);
    } else if t < 32 {
      ConstantsFrom24(t);
    } else if t < 40 {
      ConstantsFrom32(t);
    } else if t < 48 {
      ConstantsFrom40(t);
    } else if t < 56 {
      ConstantsFrom48(t);
    } else {
      ConstantsFrom56(t);
    }
  }

  // ----- section 5.3.3 -----

  /** The first thirty-two bits of the fractional part of the square root of p. */
  ghost predicate SquareRootBits(p: nat, bits: nat) {
    exists r: nat :: r * r <= p * TWO_64 < (r + 1) * (r + 1) && r % TWO_32 == bits
  }

  lemma SquareRoot(p: nat, r: nat)
    requires r * r <= p * TWO_64 < (r + 1) * (r + 1)
    ensures SquareRootBits(p, r % TWO_32)
  {
  }

  /** Word i of the initial hash value is the same of the square root of prime i. */
  lemma InitialWords(i: nat)
    requires i < 8
    ensures NextPrime(Before(i), Prime(i)) && SquareRootBits(Prime(i), IV[i] as int)
  {
    hide NextPrime, SquareRootBits;
    PrimesFrom0();
    PrimesFrom4();
    SquareRoot(2, 0x1_6a09_e667);
    SquareRoot(3, 0x1_bb67_ae85);
    SquareRoot(5, 0x2_3c6e_f372);
    SquareRoot(7, 0x2_a54f_f53a);
    SquareRoot(11, 0x3_510e_527f);
    SquareRoot(13, 0x3_9b05_688c);
    SquareRoot(17, 0x4_1f83_d9ab);
    SquareRoot(19, 0x4_5be0_cd19);
  }
}
