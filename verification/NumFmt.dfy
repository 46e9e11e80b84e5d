/** Number formatting: digits are laid down backwards from the end of a buffer, then signed, padded and copied out. */
module NumFmt {
  const TWO_63 := 0x8000_0000_0000_0000
  const TWO_64 := 0x1_0000_0000_0000_0000
  const NF_ZEROPAD: bv32 := 1
  const NF_SGNPLUS: bv32 := 2
  /** CHAR_BIT * sizeof(intmax_t) + 1 and CHAR_BIT * sizeof(int) + 1. */
  const SIGNED_BUF := 65
  const UNSIGNED_BUF := 33

  function DigitChar(d: nat): char
    requires d < 16
  {
    "0123456789ABCDEF"[d]
  }

  /** The digits of n, most significant first. */
  function Digits(n: nat, base: nat): (s: string)
    requires 2 <= base <= 16
    ensures s != ""
    decreases n
  {
    (if n < base then "" else Digits(n / base, base)) + [DigitChar(n % base)]
  }

  function Sign(negative: bool, flags: bv32): string {
    if negative then "-" else if flags & NF_SGNPLUS != 0 then "+" else ""
  }

  function Repeat(c: char, n: nat): (s: string)
    ensures |s| == n && forall i :: 0 <= i < n ==> s[i] == c
  {
    if n == 0 then "" else Repeat(c, n - 1) + [c]
  }

  /** The text right-aligned in a field of the given width, and never cut by it. */
  function Padded(text: string, width: int, flags: bv32): string {
    Repeat(if flags & NF_ZEROPAD != 0 then '0' else ' ', if width > |text| then width - |text| else 0) + text
  }

  /** A number in full: padding, then the sign, then the digits. Padding goes in front of the sign, zeros too. */
  function Formatted(num: int, flags: bv32, width: int, base: nat): string
    requires 2 <= base <= 16
  {
    Padded(Sign(num < 0, flags) + Digits(if num < 0 then -num else num, base), width, flags)
  }

  /** What reaches the caller's buffer: all of it if two bytes are left over, else the end of it. */
  function Shown(text: string, strLen: nat): (s: string)
    requires strLen >= 2
    ensures |s| + 2 <= strLen
  {
    if |text| + 2 <= strLen then text else text[|text| - (strLen - 2)..]
  }

  /** The last n characters of the buffer. */
  ghost function Tail(buf: array<char>, n: nat): (s: string)
    requires n <= buf.Length
    reads buf
    ensures |s| == n
  {
    buf[buf.Length - n..]
  }

  lemma DigitsStep(n: nat, base: nat)
    requires 2 <= base <= 16
    ensures Digits(n, base) == (if n / base == 0 then "" else Digits(n / base, base)) + [DigitChar(n % base)]
  {
    assert n < base <==> n / base == 0 by {
      assert n == base * (n / base) + n % base;
    }
    hide DigitChar;
  }

  method PutBefore(buf: array<char>, pos: nat, c: char)
    requires pos < buf.Length
    modifies buf
    ensures Tail(buf, pos + 1) == [c] + old(Tail(buf, pos))
  {
    buf[buf.Length - (pos + 1)] := c;
  }

  /** pos counts the characters laid down; the source's is one ahead. */
  method FillDigits(buf: array<char>, num: nat, base: nat) returns (pos: nat)
    requires 2 <= base <= 16 && |Digits(num, base)| <= buf.Length
    modifies buf
    ensures pos == |Digits(num, base)| && Tail(buf, pos) == Digits(num, base)
  {
    hide Digits, DigitChar, Tail;
    var n: nat := num;
    pos := 0;
    assert Digits(num, base) == Digits(n, base) + Tail(buf, pos);
    while true
      invariant pos < buf.Length && Digits(num, base) == Digits(n, base) + Tail(buf, pos)
      decreases n
    {
      DigitsStep(n, base);
      ghost var more := if n / base == 0 then "" else Digits(n / base, base);
      ghost var c, tail := DigitChar(n % base), Tail(buf, pos);
      assert more + [c] + tail == more + ([c] + tail);
      PutBefore(buf, pos, DigitChar(n % base));
      Shrinks(n, base);
      n := n / base;
      pos := pos + 1;
      if n == 0 {
        break;
      }
    }
  }

  lemma Shrinks(n: nat, base: nat)
    requires base >= 2
    ensures n / base == 0 || n / base < n
  {
  }

  method Pad(buf: array<char>, pos: nat, width: int, flags: bv32) returns (w: nat)
    requires pos <= buf.Length && width < buf.Length
    modifies buf
    ensures w == |Padded(old(Tail(buf, pos)), width, flags)| <= buf.Length
    ensures Tail(buf, w) == Padded(old(Tail(buf, pos)), width, flags)
  {
    var room := width - pos;
    if room > 0 {
      var pad := if flags & NF_ZEROPAD != 0 then '0' else ' ';
      for i := 0 to room
        invariant Tail(buf, pos) == old(Tail(buf, pos))
        invariant forall k :: buf.Length - width <= k < buf.Length - width + i ==> buf[k] == pad
      {
        buf[buf.Length - width + i] := pad;
      }
      w := width;
    } else {
      w := pos;
    }
  }

  /** Padding, then as much of the end as the caller has room for: the same in both functions. */
  method Emit(buf: array<char>, pos: nat, width: int, flags: bv32, str: array<char>, strLen: nat)
    requires buf != str && pos <= buf.Length && width < buf.Length && 2 <= strLen <= str.Length
    modifies buf, str
    ensures Holds(str, Shown(Padded(old(Tail(buf, pos)), width, flags), strLen))
    ensures str[strLen - 1..] == old(str[strLen - 1..])
  {
    var w := Pad(buf, pos, width, flags);
    ghost var text := Tail(buf, w);
    if w >= strLen - 1 {
      w := strLen - 2;
    }
    ghost var s := Tail(buf, w);
    assert s == Shown(text, strLen);
    hide Padded, Shown;
    for i := 0 to w
      invariant str[..i] == s[..i] && str[strLen - 1..] == old(str[strLen - 1..]) && s == Tail(buf, w)
    {
      str[i] := buf[buf.Length - w + i];
    }
    str[w] := 0 as char;
  }

  /** A C string. */
  ghost predicate Holds(str: array<char>, s: string)
    reads str
  {
    |s| < str.Length && str[..|s|] == s && str[|s|] == 0 as char
  }

  method NumfmtUnsigned(num: nat, flags: bv32, width: int, base: nat, str: array<char>, strLen: nat)
    requires num < TWO_64 && 2 <= base <= 16 && 0 <= width < UNSIGNED_BUF && 2 <= strLen <= str.Length
    requires |Sign(false, flags) + Digits(num, base)| <= UNSIGNED_BUF
    modifies str
    ensures Holds(str, Shown(Formatted(num, flags, width, base), strLen))
    ensures str[strLen - 1..] == old(str[strLen - 1..])
  {
    hide Digits, Tail, Shown, Padded;
    var buf := new char[UNSIGNED_BUF];
    var pos := FillDigits(buf, num, base);
    assert "" + Digits(num, base) == Digits(num, base);
    if flags & NF_SGNPLUS != 0 {
      PutBefore(buf, pos, '+');
      pos := pos + 1;
    }
    Emit(buf, pos, width, flags, str, strLen);
  }

  method NumfmtSigned(num: int, flags: bv32, width: int, base: nat, str: array<char>, strLen: nat)
    requires -TWO_63 < num < TWO_63 && 2 <= base <= 16 && 0 <= width < SIGNED_BUF && 2 <= strLen <= str.Length
    modifies str
    ensures Holds(str, Shown(Formatted(num, flags, width, base), strLen))
    ensures str[strLen - 1..] == old(str[strLen - 1..])
  {
    hide Digits, Tail, Shown, Padded;
    var buf := new char[SIGNED_BUF];
    var n, sgn := num, num < 0;
    if sgn {
      n := -n;
    }
    Fits(n, base);
    var pos := FillDigits(buf, n, base);
    assert "" + Digits(n, base) == Digits(n, base);
    if sgn {
      PutBefore(buf, pos, '-');
      pos := pos + 1;
    } else if flags & NF_SGNPLUS != 0 {
      PutBefore(buf, pos, '+');
      pos := pos + 1;
    }
    Emit(buf, pos, width, flags, str, strLen);
  }

  function Pow(base: nat, k: nat): nat { if k == 0 then 1 else base * Pow(base, k - 1) }

  lemma {:induction false} DigitCount(n: nat, base: nat, k: nat)
    requires 2 <= base <= 16 && k > 0 && n < Pow(base, k)
    ensures |Digits(n, base)| <= k
    decreases k
  {
    if n >= base {
      assert k > 1 by {
        assert Pow(base, 1) == base * Pow(base, 0) == base;
      }
      assert n / base < Pow(base, k - 1) by {
        Quotient(n, base, Pow(base, k - 1));
      }
      DigitCount(n / base, base, k - 1);
    }
  }

  lemma Product(a: nat, b: nat, c: nat, d: nat)
    requires a <= b && c <= d
    ensures a * c <= b * d
  {
    assert b * d == a * c + (b - a) * c + b * (d - c);
  }

  lemma Quotient(n: nat, base: nat, q: nat)
    requires base > 0 && n < base * q
    ensures n / base < q
  {
    assert n == base * (n / base) + n % base;
    if n / base >= q {
      Product(base, base, q, n / base);
      assert false;
    }
  }

  lemma {:induction false} PowMonotone(a: nat, b: nat, k: nat)
    requires a <= b
    ensures Pow(a, k) <= Pow(b, k)
  {
    if k > 0 {
      PowMonotone(a, b, k - 1);
      Product(a, b, Pow(a, k - 1), Pow(b, k - 1));
    }
  }

  lemma {:induction false} PowAdd(base: nat, m: nat, n: nat)
    ensures Pow(base, m + n) == Pow(base, m) * Pow(base, n)
  {
    hide Pow;
    PowStep(base, if m > 0 then m - 1 else 0);
    if m > 0 {
      PowAdd(base, m - 1, n);
      PowStep(base, m - 1 + n);
      Regrouped(base, Pow(base, m - 1), Pow(base, n));
    }
  }

  lemma Regrouped(a: nat, b: nat, c: nat)
    ensures a * (b * c) == a * b * c
  {
  }

  lemma Powers()
    ensures Pow(2, 32) == 0x1_0000_0000 && Pow(2, 63) == TWO_63 && Pow(4, 32) == TWO_64
  {
    assert Pow(2, 7) == 128 && Pow(2, 8) == 256 && Pow(4, 8) == 0x1_0000;
    PowAdd(2, 8, 8);
    PowAdd(2, 16, 16);
    PowAdd(2, 7, 8);
    PowAdd(2, 15, 16);
    PowAdd(2, 31, 32);
    PowAdd(4, 8, 8);
    PowAdd(4, 16, 16);
  }

  /** A signed number of any base fits the 65-byte buffer with its sign. */
  lemma Fits(n: nat, base: nat)
    requires 2 <= base <= 16 && n < TWO_63
    ensures |Digits(n, base)| + 1 <= SIGNED_BUF
  {
    Powers();
    PowMonotone(2, base, 63);
    DigitCount(n, base, 63);
  }

  lemma {:induction false} DigitsBelow(n: nat, base: nat)
    requires 2 <= base <= 16
    ensures n < Pow(base, |Digits(n, base)|)
    decreases n
  {
    hide Digits, DigitChar, Pow;
    DigitsStep(n, base);
    Shrinks(n, base);
    var q := n / base;
    var k := if q == 0 then 0 else |Digits(q, base)|;
    PowStep(base, k);
    if q > 0 {
      DigitsBelow(q, base);
    }
    Below(n, base, Pow(base, k));
  }

  lemma PowStep(base: nat, k: nat)
    ensures Pow(base, k + 1) == base * Pow(base, k) && Pow(base, 0) == 1
  {
  }

  lemma Below(n: nat, base: nat, p: nat)
    requires base > 0 && n / base < p
    ensures n < base * p
  {
    assert n == base * (n / base) + n % base;
    Product(base, base, n / base + 1, p);
    assert base * (n / base + 1) == base * (n / base) + base;
  }

  /** The digits of an unsigned number fit the 33-byte buffer with the sign exactly below this power of the base. */
  lemma FitsUnsigned(n: nat, base: nat, flags: bv32)
    requires 2 <= base <= 16
    ensures |Sign(false, flags) + Digits(n, base)| <= UNSIGNED_BUF <==>
            n < Pow(base, 33 - |Sign(false, flags)|)
  {
    var k := 33 - |Sign(false, flags)|;
    hide Pow, Digits;
    if n < Pow(base, k) {
      DigitCount(n, base, k);
    }
    if |Digits(n, base)| <= k {
      DigitsBelow(n, base);
      PowGrows(base, |Digits(n, base)|, k);
    }
  }

  lemma {:induction false} PowGrows(base: nat, i: nat, j: nat)
    requires base > 0 && i <= j
    ensures Pow(base, i) <= Pow(base, j)
    decreases j
  {
    if i < j {
      PowGrows(base, i, j - 1);
      Product(1, base, Pow(base, j - 1), Pow(base, j - 1));
    }
  }

  /** So every 64-bit number fits in base 4 and up. */
  lemma FitsFromBaseFour(n: nat, base: nat, flags: bv32)
    requires 4 <= base <= 16 && n < TWO_64
    ensures |Sign(false, flags) + Digits(n, base)| <= UNSIGNED_BUF
  {
    hide Pow, Digits;
    Powers();
    PowMonotone(4, base, 32);
    DigitCount(n, base, 32);
  }

  /** In base 2 the largest number does not fit. */
  lemma LargestInBaseTwo()
    ensures |Sign(false, 0) + Digits(TWO_64 - 1, 2)| > UNSIGNED_BUF
  {
    Powers();
    assert Pow(2, 33) == 2 * Pow(2, 32);
    hide Pow, Digits;
    FitsUnsigned(TWO_64 - 1, 2, 0);
  }
}
