/** Bytes, 32-bit words and the fixed-width encodings the emulated devices use. */
module Bytes {
  type byte = x: int | 0 <= x < 256
  type Word = bv32

  const TWO_32 := 0x1_0000_0000
  const TWO_64 := 0x1_0000_0000_0000_0000

  type U32 = n: nat | n < TWO_32

  function Zeros(n: nat): (z: seq<byte>)
    ensures |z| == n && forall i :: 0 <= i < n ==> z[i] == 0
  {
    seq(n, _ => 0)
  }

  function XorByte(x: byte, y: bv8): byte {
    ((x as bv8) ^ y) as int
  }

  function Xor(s: seq<byte>, y: bv8): (r: seq<byte>)
    ensures |r| == |s| && forall i :: 0 <= i < |s| ==> r[i] == XorByte(s[i], y)
  {
    seq(|s|, i requires 0 <= i < |s| => XorByte(s[i], y))
  }

  /** `dst` with the bytes from `at` on overwritten by `src`, as memcpy leaves it. */
  function Overwrite(dst: seq<byte>, at: nat, src: seq<byte>): (r: seq<byte>)
    requires at + |src| <= |dst|
    ensures |r| == |dst|
  {
    dst[..at] + src + dst[at + |src|..]
  }

  method Memcpy(dst: array<byte>, at: nat, src: seq<byte>)
    requires at + |src| <= dst.Length
    modifies dst
    ensures dst[..] == Overwrite(old(dst[..]), at, src)
  {
    forall n | 0 <= n < |src| {
      dst[at + n] := src[n];
    }
  }

  // ----- big-endian words (hash states and blocks) -----

  function WordToBytes(w: Word): (b: seq<byte>)
    ensures |b| == 4
  {
    [((w >> 24) as bv8) as int, (((w >> 16) & 0xFF) as bv8) as int,
     (((w >> 8) & 0xFF) as bv8) as int, ((w & 0xFF) as bv8) as int]
  }

  function BytesToWord(b: seq<byte>): Word
    requires |b| == 4
  {
    (((b[0] as bv8) as Word) << 24) + (((b[1] as bv8) as Word) << 16)
    + (((b[2] as bv8) as Word) << 8) + ((b[3] as bv8) as Word)
  }

  /** Big-endian decoding of a byte string whose length is a multiple of four. */
  function Decode(b: seq<byte>): (w: seq<Word>)
    requires |b| % 4 == 0
    ensures |w| == |b| / 4
  {
    seq(|b| / 4, i requires 0 <= i < |b| / 4 => BytesToWord(b[4 * i..4 * i + 4]))
  }

  function Encode(w: seq<Word>): (b: seq<byte>)
    ensures |b| == 4 * |w|
  {
    seq(4 * |w|, i requires 0 <= i < 4 * |w| => WordToBytes(w[i / 4])[i % 4])
  }

  lemma Octet(x: bv8)
    ensures (x as int) as bv8 == x
  {
  }

  lemma NextOctet(b: bv8)
    requires b != 255
    ensures (b + 1) as int == b as int + 1
  {
  }

  lemma {:induction false} OctetOf(x: byte) returns (b: bv8)
    ensures b as int == x
  {
    if x == 0 {
      b := 0;
    } else {
      var c := OctetOf(x - 1);
      NextOctet(c);
      b := c + 1;
    }
  }

  lemma OctetBack(x: byte)
    ensures (x as bv8) as int == x
  {
    var b := OctetOf(x);
    Octet(b);
  }

  lemma Octets(w: Word)
    ensures (((w >> 24) as bv8 as Word) << 24) + ((((w >> 16) & 0xFF) as bv8 as Word) << 16)
            + ((((w >> 8) & 0xFF) as bv8 as Word) << 8) + ((w & 0xFF) as bv8 as Word) == w
  {
  }

  lemma WordRoundTrip(w: Word)
    ensures BytesToWord(WordToBytes(w)) == w
  {
    Octets(w);
    Octet((w >> 24) as bv8);
    Octet(((w >> 16) & 0xFF) as bv8);
    Octet(((w >> 8) & 0xFF) as bv8);
    Octet((w & 0xFF) as bv8);
  }

  lemma EncodedWord(w: seq<Word>, i: nat)
    requires i < |w|
    ensures Encode(w)[4 * i..4 * i + 4] == WordToBytes(w[i])
  {
  }

  /** Encoding a word sequence and decoding it gives the sequence back. */
  lemma DecodeEncode(w: seq<Word>)
    ensures Decode(Encode(w)) == w
  {
    forall i | 0 <= i < |w| ensures Decode(Encode(w))[i] == w[i] {
      EncodedWord(w, i);
      WordRoundTrip(w[i]);
    }
  }

  // ----- little-endian registers (the host is i386) -----

  /** The value of a 32-bit register as a program on the host reads it from four bytes. */
  function LoadWord(b: seq<byte>): Word
    requires |b| == 4
  {
    BytesToWord([b[3], b[2], b[1], b[0]])
  }

  function StoreWord(w: Word): (b: seq<byte>)
    ensures |b| == 4
  {
    var be := WordToBytes(w);
    [be[3], be[2], be[1], be[0]]
  }

  lemma LoadStoreWord(w: Word)
    ensures LoadWord(StoreWord(w)) == w
  {
    WordRoundTrip(w);
    var b := StoreWord(w);
    assert [b[3], b[2], b[1], b[0]] == WordToBytes(w);
  }

  /** The first byte of a hash word is its high one. */
  lemma BigEndian(b: seq<byte>)
    requires |b| == 4
    ensures BytesToWord(b) == Joined(b[0] as bv8, b[1] as bv8, b[2] as bv8, b[3] as bv8)
  {
    hide Joined;
    SumOfOctets(b[0] as bv8, b[1] as bv8, b[2] as bv8, b[3] as bv8);
  }

  /** The first byte of a register is its low one. */
  lemma LittleEndian(b: seq<byte>)
    requires |b| == 4
    ensures LoadWord(b) == Joined(b[3] as bv8, b[2] as bv8, b[1] as bv8, b[0] as bv8)
  {
    hide Joined, BytesToWord;
    BigEndian([b[3], b[2], b[1], b[0]]);
  }

  /** Four octets side by side, the first one on top. */
  function Joined(a: bv8, b: bv8, c: bv8, d: bv8): Word {
    (a as Word << 24) | (b as Word << 16) | (c as Word << 8) | d as Word
  }

  lemma SumOfOctets(a: bv8, b: bv8, c: bv8, d: bv8)
    ensures ((a as Word) << 24) + ((b as Word) << 16) + ((c as Word) << 8) + (d as Word) == Joined(a, b, c, d)
  {
  }

  /** A number below 2^32 as four little-endian bytes, and back. */
  function StoreNat(n: nat): (b: seq<byte>)
    requires n < TWO_32
    ensures |b| == 4
  {
    [n % 256, n / 0x100 % 256, n / 0x1_0000 % 256, n / 0x100_0000]
  }

  function LoadNat(b: seq<byte>): (n: nat)
    requires |b| == 4
    ensures n < TWO_32
  {
    b[0] as int + 0x100 * (b[1] as int) + 0x1_0000 * (b[2] as int) + 0x100_0000 * (b[3] as int)
  }

  /** A number is its four base-256 digits. */
  lemma Digits4(n: nat)
    requires n < TWO_32
    ensures n == n % 256 + 0x100 * (n / 0x100 % 256) + 0x1_0000 * (n / 0x1_0000 % 256) + 0x100_0000 * (n / 0x100_0000)
    ensures n / 0x100_0000 < 256
  {
    var a, b, c := n / 0x100, n / 0x1_0000, n / 0x100_0000;
    assert n == 0x100 * a + n % 256;
    assert a == 0x100 * b + a % 256 by {
      assert b == a / 0x100;
    }
    assert b == 0x100 * c + b % 256 by {
      assert c == b / 0x100;
    }
  }

  lemma LoadStoreNat(n: nat)
    requires n < TWO_32
    ensures LoadNat(StoreNat(n)) == n
  {
    Digits4(n);
    var d0, d1, d2, d3 := n % 256, n / 0x100 % 256, n / 0x1_0000 % 256, n / 0x100_0000;
    assert StoreNat(n) == [d0, d1, d2, d3];
    Loaded(d0, d1, d2, d3);
  }

  lemma Loaded(d0: byte, d1: byte, d2: byte, d3: byte)
    ensures LoadNat([d0, d1, d2, d3])
      == d0 as int + 0x100 * (d1 as int) + 0x1_0000 * (d2 as int) + 0x100_0000 * (d3 as int)
  {
  }

  // ----- the 64-bit length field that ends a padded message -----

  /** The value of eight bytes, most significant first. */
  function Value8(b: seq<byte>): nat
    requires |b| == 8
  {
    0x100_0000_0000_0000 * (b[0] as int) + 0x1_0000_0000_0000 * (b[1] as int) + 0x100_0000_0000 * (b[2] as int)
    + 0x1_0000_0000 * (b[3] as int) + 0x100_0000 * (b[4] as int) + 0x1_0000 * (b[5] as int)
    + 0x100 * (b[6] as int) + b[7] as int
  }

  function Low4(n: nat): seq<byte>
  {
    [n / 0x100_0000 % 256, n / 0x1_0000 % 256, n / 0x100 % 256, n % 256]
  }

  lemma Low4Value(n: nat)
    requires n < TWO_32
    ensures var b := Low4(n); 0x100_0000 * b[0] as int + 0x1_0000 * b[1] as int + 0x100 * b[2] as int + b[3] as int == n
  {
    Digits4(n);
    TopDigit(n);
  }

  lemma TopDigit(n: nat)
    requires n < TWO_32
    ensures n / 0x100_0000 % 256 == n / 0x100_0000
  {
  }

  lemma EightBytes(n: nat)
    ensures exists b: seq<byte> :: |b| == 8 && Value8(b) == n % TWO_64
  {
    var m := n % TWO_64;
    var hi, lo := m / TWO_32, m % TWO_32;
    Low4Value(hi);
    Low4Value(lo);
    var b := Low4(hi) + Low4(lo);
    assert Value8(b) == TWO_32 * hi + lo;
  }

  /** A number modulo 2^64 as eight big-endian bytes. */
  ghost function LengthField(n: nat): (b: seq<byte>)
    ensures |b| == 8 && Value8(b) == n % TWO_64
  {
    EightBytes(n);
    var b: seq<byte> :| |b| == 8 && Value8(b) == n % TWO_64;
    b
  }

  /** Taking the top byte of a 64-bit register and shifting left by eight walks its bytes in order. */
  lemma ShiftOut(b: seq<byte>)
    requires |b| == 8
    ensures Value8(b) / 0x100_0000_0000_0000 == b[0]
    ensures 256 * Value8(b) % TWO_64 == Value8(b[1..] + [0])
  {
    var rest := Value8(b[1..] + [0]);
    assert 256 * Value8(b) == TWO_64 * b[0] + rest;
  }

  lemma ShiftOutNext(field: seq<byte>, i: nat)
    requires |field| == 8 && i < 8
    ensures var left := Value8(field[i..] + Zeros(i));
            left / 0x100_0000_0000_0000 == field[i] && 256 * left % TWO_64 == Value8(field[i + 1..] + Zeros(i + 1))
  {
    ShiftOut(field[i..] + Zeros(i));
    assert (field[i..] + Zeros(i))[1..] + [0] == field[i + 1..] + Zeros(i + 1);
  }

  /** The successive values of a 64-bit register while the bytes of a field are shifted out of it. */
  ghost predicate ShiftsOut(lefts: seq<nat>, field: seq<byte>) {
    && |lefts| == 9 && |field| == 8
    && forall i {:trigger field[i]} :: 0 <= i < 8 ==>
         lefts[i] / 0x100_0000_0000_0000 == field[i] && lefts[i + 1] == 256 * lefts[i] % TWO_64
  }

  lemma ShiftTable(n: nat) returns (lefts: seq<nat>, field: seq<byte>)
    ensures field == LengthField(n) && ShiftsOut(lefts, field) && lefts[0] == n % TWO_64
  {
    field := LengthField(n);
    lefts := seq(9, i requires 0 <= i < 9 => Value8(field[i..] + Zeros(i)));
    assert field[0..] + Zeros(0) == field;
    forall i | 0 <= i < 8
      ensures lefts[i] / 0x100_0000_0000_0000 == field[i] && lefts[i + 1] == 256 * lefts[i] % TWO_64
    {
      ShiftOutNext(field, i);
    }
  }
}
