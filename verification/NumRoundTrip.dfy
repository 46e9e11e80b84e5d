/** Which printed numbers the configuration parser reads back as themselves. */
module NumRoundTrip {
  import opened CfgGrammar
  import opened CfgRendering
  import opened CfgRoundTrip
  import F = NumFmt

  lemma DigitChars(d: nat)
    requires d < 16
    ensures MapDigit(F.DigitChar(d)) == d && (F.DigitChar(d) == '0' <==> d == 0)
  {
  }

  lemma AppendDigit(front: string, c: char, radix: nat)
    requires AllDigits(front, radix) && IsRadixDigit(c, radix)
    ensures AllDigits(front + [c], radix) && Number(front + [c], radix) == Number(front, radix) * radix + MapDigit(c)
  {
    hide MapDigit;
    assert (front + [c])[..|front|] == front;
  }

  lemma DigitsLast(n: nat, base: nat)
    requires 2 <= base <= 16
    ensures F.Digits(n, base) == (if n < base then "" else F.Digits(n / base, base)) + [F.DigitChar(n % base)]
    ensures n < base ==> n % base == n
  {
  }

  /** A digit string for n that starts with a zero only for zero. */
  ghost predicate Denotes(ds: string, base: nat, n: nat) {
    ds != "" && AllDigits(ds, base) && Number(ds, base) == n && (ds[0] == '0' <==> n == 0)
  }

  lemma OneDigit(n: nat, base: nat)
    requires n < base <= 16
    ensures Denotes([F.DigitChar(n)], base, n)
  {
    DigitChars(n);
    hide MapDigit, F.DigitChar, Number;
    AppendDigit("", F.DigitChar(n), base);
    assert "" + [F.DigitChar(n)] == [F.DigitChar(n)];
  }

  lemma MoreDigits(front: string, q: nat, d: nat, base: nat)
    requires d < base <= 16 && q > 0 && Denotes(front, base, q)
    ensures Denotes(front + [F.DigitChar(d)], base, q * base + d)
  {
    hide MapDigit, F.DigitChar, Number;
    DigitChars(d);
    var c, high := F.DigitChar(d), q * base;
    F.Product(1, q, 1, base);
    assert high > 0;
    AppendDigit(front, c, base);
    assert (front + [c])[0] == front[0];
  }

  lemma Divide(n: nat, base: nat) returns (q: nat, d: nat)
    requires base >= 2
    ensures q == n / base && d == n % base && d < base && n == q * base + d && (q > 0 ==> q < n)
  {
    q, d := n / base, n % base;
    F.Shrinks(n, base);
  }

  /** The last digit of n and the number the others denote. */
  lemma DigitsUnfold(n: nat, base: nat) returns (q: nat, d: nat)
    requires 2 <= base <= 16
    ensures d < base && n == q * base + d && (q > 0 ==> q < n)
    ensures F.Digits(n, base) == if q == 0 then [F.DigitChar(d)] else F.Digits(q, base) + [F.DigitChar(d)]
  {
    hide F.Digits, F.DigitChar;
    F.DigitsStep(n, base);
    q, d := Divide(n, base);
    assert "" + [F.DigitChar(d)] == [F.DigitChar(d)];
  }

  lemma {:induction false} DigitsDenote(n: nat, base: nat)
    requires 2 <= base <= 16
    ensures Denotes(F.Digits(n, base), base, n)
    decreases n
  {
    hide F.DigitChar, F.Digits, Denotes;
    var q, d := DigitsUnfold(n, base);
    if q == 0 {
      OneDigit(d, base);
    } else {
      DigitsDenote(q, base);
      MoreDigits(F.Digits(q, base), q, d, base);
    }
  }

  // ----- zeros in front -----

  lemma {:induction false} OnlyZeros(k: nat, radix: nat)
    requires radix > 0
    ensures AllDigits(F.Repeat('0', k), radix) && Number(F.Repeat('0', k), radix) == 0
    decreases k
  {
    hide MapDigit, Number;
    ZeroDigit(radix);
    if k > 0 {
      OnlyZeros(k - 1, radix);
      AppendDigit(F.Repeat('0', k - 1), '0', radix);
    }
  }

  lemma ZeroDigit(radix: nat)
    requires radix > 0
    ensures IsRadixDigit('0', radix) && MapDigit('0') == 0 && Number("", radix) == 0
  {
  }

  lemma {:induction false} LeadingZeros(k: nat, ds: string, radix: nat)
    requires radix > 0 && AllDigits(ds, radix)
    ensures AllDigits(F.Repeat('0', k) + ds, radix) && Number(F.Repeat('0', k) + ds, radix) == Number(ds, radix)
    decreases |ds|
  {
    hide MapDigit, Number, F.Repeat, IsRadixDigit;
    var z := F.Repeat('0', k);
    OnlyZeros(k, radix);
    if ds != "" {
      var front, c := ds[..|ds| - 1], ds[|ds| - 1];
      LeadingZeros(k, front, radix);
      assert z + ds == z + front + [c] && ds == front + [c];
      AppendDigit(z + front, c, radix);
      AppendDigit(front, c, radix);
    } else {
      assert z + ds == z;
      ZeroDigit(radix);
    }
  }

  // ----- the same digits, read as octal -----

  lemma {:induction false} OctalIsSmaller(n: nat)
    requires AllDigits(F.Digits(n, 10), 8)
    ensures Number(F.Digits(n, 10), 8) <= n && (n >= 8 ==> Number(F.Digits(n, 10), 8) < n)
    decreases n
  {
    hide MapDigit, F.DigitChar, F.Digits;
    DigitsLast(n, 10);
    DigitChars(n % 10);
    var ds := F.Digits(n, 10);
    var front, c := (if n < 10 then "" else F.Digits(n / 10, 10)), F.DigitChar(n % 10);
    assert ds[|front|] == c && IsRadixDigit(c, 8);
    assert AllDigits(front, 8) by {
      forall i | 0 <= i < |front|
        ensures IsRadixDigit(front[i], 8)
      {
        assert ds[i] == front[i];
      }
    }
    if n >= 10 {
      OctalIsSmaller(n / 10);
    }
    AppendDigit(front, c, 8);
  }

  lemma SmallIsOctal(n: nat)
    requires n < 8
    ensures F.Digits(n, 10) == [F.DigitChar(n)] && AllDigits(F.Digits(n, 10), 8) && Number(F.Digits(n, 10), 8) == n
  {
    hide F.Digits, F.DigitChar, MapDigit;
    DigitsLast(n, 10);
    DigitChars(n);
    assert IsRadixDigit(F.DigitChar(n), 8);
    AppendDigit("", F.DigitChar(n), 8);
    assert "" + [F.DigitChar(n)] == [F.DigitChar(n)];
  }

  // ----- what the parser makes of each form -----

  /** The parser reads exactly the number, in 64 bits, and leaves exactly the rest. */
  ghost predicate ReadsBackAs(s: string, num: int, rest: string) {
    ParseInt(s + rest) == Match(num % TWO_64, rest)
  }

  lemma PlainDecimal(num: int, rest: string)
    requires EndsNumber(rest)
    ensures ReadsBackAs((if num < 0 then "-" else "") + F.Digits(if num < 0 then -num else num, 10), num, rest)
  {
    var negative, n := num < 0, if num < 0 then -num else num;
    var ds := F.Digits(n, 10);
    if n == 0 {
      hide F.Digits, AllDigits, EndsNumber, ParseInt;
      ParseIntOver(Octal(false, ""), rest);
      assert "" + ds == ds;
    } else {
      DigitsDenote(n, 10);
      hide F.Digits, AllDigits, EndsNumber, ParseInt, Number;
      ParseIntOver(Decimal(negative, ds), rest);
    }
  }

  lemma ZeroThenSign(k: nat, c: char, more: string, num: int, rest: string)
    requires c == '-' || c == '+'
    ensures !ReadsBackAs(F.Repeat('0', k + 1) + ([c] + more), num, rest)
  {
    var l, left := Octal(false, F.Repeat('0', k)), [c] + more + rest;
    LeadingZeros(k, "", 8);
    assert F.Repeat('0', k) + "" == F.Repeat('0', k);
    ZerosRendered(k);
    assert EndsNumber(left);
    hide F.Repeat, AllDigits, ParseInt, LiteralValue, RenderLiteral, EndsNumber;
    ParseIntOver(l, left);
    assert RenderLiteral(l) + ([c] + more) + rest == RenderLiteral(l) + left;
  }

  lemma ZerosRendered(k: nat)
    ensures RenderLiteral(Octal(false, F.Repeat('0', k))) == F.Repeat('0', k + 1)
  {
  }

  lemma ReadAsOctal(octal: string, n: nat, rest: string)
    requires EndsNumber(rest) && n < TWO_64 && AllDigits(octal, 8) && Number(octal, 8) < TWO_64
    ensures ReadsBackAs("0" + octal, n, rest) <==> Number(octal, 8) == n
  {
    hide AllDigits, EndsNumber, Number, ParseInt;
    var l := Octal(false, octal);
    ParseIntOver(l, rest);
    assert RenderLiteral(l) == "0" + octal;
  }

  /** With zeros in front, a decimal number is read as octal. */
  lemma ZeroPaddedDecimal(k: nat, n: nat, rest: string)
    requires EndsNumber(rest) && n < TWO_64
    ensures ReadsBackAs(F.Repeat('0', k + 1) + F.Digits(n, 10), n, rest) <==> n < 8
  {
    hide F.Digits, AllDigits, F.Repeat, EndsNumber, Number, ParseInt;
    var ds := F.Digits(n, 10);
    var octal := F.Repeat('0', k) + ds;
    assert F.Repeat('0', k + 1) + ds == "0" + octal;
    if n < 8 {
      SmallIsOctal(n);
    }
    DigitsDenote(n, 10);
    if AllDigits(ds, 8) {
      LeadingZeros(k, ds, 8);
      OctalIsSmaller(n);
      ReadAsOctal(octal, n, rest);
    } else {
      OctalStops(octal, rest, k, ds);
    }
  }

  lemma OctalStops(octal: string, rest: string, k: nat, ds: string)
    requires octal == F.Repeat('0', k) + ds && AllDigits(ds, 10) && !AllDigits(ds, 8)
    ensures ParseInt("0" + octal + rest).Match? ==> |ParseInt("0" + octal + rest).rest| > |rest|
  {
    LeadingZeros(k, ds, 10);
    var s := octal + rest;
    assert "0" + octal + rest == "0" + s;
    assert ("0" + s)[1..] == s;
    RadixDigitIsNoX(octal[0], 10);
    assert exists i :: 0 <= i < |octal| && !IsRadixDigit(s[i], 8) by {
      var j :| 0 <= j < |ds| && !IsRadixDigit(ds[j], 8);
      assert s[k + j] == ds[j];
    }
    RunIsShorter(s, |octal|);
  }

  lemma RunIsShorter(s: string, n: nat)
    requires n <= |s| && exists i :: 0 <= i < n && !IsRadixDigit(s[i], 8)
    ensures DigitRun(s, 8) < n
  {
    var i :| 0 <= i < n && !IsRadixDigit(s[i], 8);
    assert DigitRun(s, 8) <= i;
  }

  // ----- which printed numbers read back -----

  /** Signs and spaces in front are not read; zeros in front make the number octal. */
  ghost predicate DecimalReadsBack(num: int, flags: bv32, padded: bool) {
    && (num < 0 || flags & F.NF_SGNPLUS == 0)
    && (padded ==> flags & F.NF_ZEROPAD != 0 && 0 <= num < 8)
  }

  ghost predicate HexReadsBack(num: int, flags: bv32, padded: bool) {
    num >= 0 && flags & F.NF_SGNPLUS == 0 && (padded ==> flags & F.NF_ZEROPAD != 0)
  }

  function Bare(num: int, flags: bv32, base: nat): string
    requires 2 <= base <= 16
  {
    F.Sign(num < 0, flags) + F.Digits(if num < 0 then -num else num, base)
  }

  lemma FormattedIs(num: int, flags: bv32, width: int, base: nat)
    requires 2 <= base <= 16
    ensures var text := Bare(num, flags, base);
            F.Formatted(num, flags, width, base)
            == if width <= |text| then text
               else F.Repeat(if flags & F.NF_ZEROPAD != 0 then '0' else ' ', width - |text|) + text
  {
    hide F.Digits, F.Sign;
    assert F.Repeat(if flags & F.NF_ZEROPAD != 0 then '0' else ' ', 0) + Bare(num, flags, base)
      == Bare(num, flags, base);
  }

  lemma PaddedDecimal(num: int, flags: bv32, k: nat, rest: string)
    requires num < TWO_64 && EndsNumber(rest)
    ensures ReadsBackAs(F.Repeat(if flags & F.NF_ZEROPAD != 0 then '0' else ' ', k + 1) + Bare(num, flags, 10),
                        num, rest)
      <==> DecimalReadsBack(num, flags, true)
  {
    var ds := F.Digits(if num < 0 then -num else num, 10);
    var text := Bare(num, flags, 10);
    hide F.Digits, ReadsBackAs, EndsNumber, F.Repeat;
    if flags & F.NF_ZEROPAD == 0 {
      assert F.Repeat(' ', k + 1) + text == [' '] + (F.Repeat(' ', k) + text);
    } else if num < 0 || flags & F.NF_SGNPLUS != 0 {
      var c := if num < 0 then '-' else '+';
      assert text == [c] + ds;
      ZeroThenSign(k, c, ds, num, rest);
    } else {
      assert text == ds;
      ZeroPaddedDecimal(k, num, rest);
    }
  }

  lemma UnpaddedDecimal(num: int, flags: bv32, rest: string)
    requires EndsNumber(rest)
    ensures ReadsBackAs(Bare(num, flags, 10), num, rest) <==> DecimalReadsBack(num, flags, false)
  {
    var ds := F.Digits(if num < 0 then -num else num, 10);
    hide F.Digits, ReadsBackAs, EndsNumber;
    if num >= 0 && flags & F.NF_SGNPLUS != 0 {
      assert Bare(num, flags, 10) == ['+'] + ds;
    } else {
      PlainDecimal(num, rest);
    }
  }

  /** A printed decimal number followed by something that ends a number: read back exactly in these cases. */
  lemma DecimalRoundTrip(num: int, flags: bv32, width: int, rest: string)
    requires -F.TWO_63 < num < TWO_64 && EndsNumber(rest)
    ensures ReadsBackAs(F.Formatted(num, flags, width, 10), num, rest)
      <==> DecimalReadsBack(num, flags, width > |Bare(num, flags, 10)|)
  {
    hide F.Formatted, ReadsBackAs, EndsNumber, F.Repeat, Bare, DecimalReadsBack;
    FormattedIs(num, flags, width, 10);
    var n := |Bare(num, flags, 10)|;
    if width <= n {
      UnpaddedDecimal(num, flags, rest);
    } else {
      PaddedDecimal(num, flags, width - n - 1, rest);
    }
  }

  // ----- hexadecimal, behind a 0x prefix -----

  lemma PlainHex(num: nat, zeros: nat, rest: string)
    requires num < TWO_64 && EndsNumber(rest)
    ensures ReadsBackAs("0x" + (F.Repeat('0', zeros) + F.Digits(num, 16)), num, rest)
  {
    hide F.Digits, AllDigits, EndsNumber, ParseInt, Number, F.Repeat, RenderLiteral;
    DigitsDenote(num, 16);
    var ds := F.Repeat('0', zeros) + F.Digits(num, 16);
    LeadingZeros(zeros, F.Digits(num, 16), 16);
    var l := Hex(false, 'x', ds);
    RenderHex(ds);
    ParseIntOver(l, rest);
  }

  lemma RenderHex(ds: string)
    ensures RenderLiteral(Hex(false, 'x', ds)) == "0x" + ds
  {
  }

  lemma NoHexDigit(c: char, more: string, num: int, rest: string)
    requires c == ' ' || c == '+' || c == '-'
    ensures !ReadsBackAs("0x" + ([c] + more), num, rest)
  {
    var s := "0x" + ([c] + more) + rest;
    assert s[0] == '0' && s[1] == 'x' && s[2] == c;
  }

  lemma HexZerosThenSign(k: nat, c: char, more: string, num: int, rest: string)
    requires c == '-' || c == '+'
    ensures !ReadsBackAs("0x" + (F.Repeat('0', k + 1) + ([c] + more)), num, rest)
  {
    var z, left := F.Repeat('0', k + 1), [c] + more + rest;
    LeadingZeros(k + 1, "", 16);
    assert z + "" == z;
    var l := Hex(false, 'x', z);
    var s := "0x" + (z + ([c] + more)) + rest;
    hide F.Repeat, AllDigits;
    assert RenderLiteral(l) == "0x" + z;
    assert s == RenderLiteral(l) + left;
    ParseIntOver(l, left);
  }

  /** Blanks end the number at once. */
  lemma BlanksBeforeHex(k: nat, text: string, num: int, rest: string)
    ensures !ReadsBackAs("0x" + (F.Repeat(' ', k + 1) + text), num, rest)
  {
    hide ReadsBackAs, F.Repeat;
    assert F.Repeat(' ', k + 1) + text == [' '] + (F.Repeat(' ', k) + text);
    NoHexDigit(' ', F.Repeat(' ', k) + text, num, rest);
  }

  lemma ZerosBeforeHex(num: int, flags: bv32, k: nat, rest: string)
    requires num < TWO_64 && EndsNumber(rest)
    ensures ReadsBackAs("0x" + (F.Repeat('0', k + 1) + Bare(num, flags, 16)), num, rest)
      <==> num >= 0 && flags & F.NF_SGNPLUS == 0
  {
    hide F.Digits, ReadsBackAs, EndsNumber, F.Repeat;
    var ds := F.Digits(if num < 0 then -num else num, 16);
    if num < 0 || flags & F.NF_SGNPLUS != 0 {
      var c := if num < 0 then '-' else '+';
      assert Bare(num, flags, 16) == [c] + ds;
      HexZerosThenSign(k, c, ds, num, rest);
    } else {
      assert Bare(num, flags, 16) == ds;
      PlainHex(num, k + 1, rest);
    }
  }

  lemma PaddedHex(num: int, flags: bv32, k: nat, rest: string)
    requires num < TWO_64 && EndsNumber(rest)
    ensures ReadsBackAs("0x" + (F.Repeat(if flags & F.NF_ZEROPAD != 0 then '0' else ' ', k + 1) + Bare(num, flags, 16)),
                        num, rest)
      <==> HexReadsBack(num, flags, true)
  {
    hide ReadsBackAs, EndsNumber, F.Repeat, Bare;
    if flags & F.NF_ZEROPAD == 0 {
      BlanksBeforeHex(k, Bare(num, flags, 16), num, rest);
    } else {
      ZerosBeforeHex(num, flags, k, rest);
    }
  }

  lemma UnpaddedHex(num: int, flags: bv32, rest: string)
    requires num < TWO_64 && EndsNumber(rest)
    ensures ReadsBackAs("0x" + Bare(num, flags, 16), num, rest) <==> HexReadsBack(num, flags, false)
  {
    hide F.Digits, ReadsBackAs, EndsNumber;
    var ds := F.Digits(if num < 0 then -num else num, 16);
    var text := Bare(num, flags, 16);
    if num < 0 || flags & F.NF_SGNPLUS != 0 {
      var c := if num < 0 then '-' else '+';
      assert text == [c] + ds;
      NoHexDigit(c, ds, num, rest);
    } else {
      assert text == F.Repeat('0', 0) + ds;
      PlainHex(num, 0, rest);
    }
  }

  /** A printed hexadecimal number behind 0x: read back exactly in these cases, whatever zeros are in front of it. */
  lemma HexRoundTrip(num: int, flags: bv32, width: int, rest: string)
    requires -F.TWO_63 < num < TWO_64 && EndsNumber(rest)
    ensures ReadsBackAs("0x" + F.Formatted(num, flags, width, 16), num, rest)
      <==> HexReadsBack(num, flags, width > |Bare(num, flags, 16)|)
  {
    hide F.Formatted, ReadsBackAs, EndsNumber, F.Repeat, Bare, HexReadsBack;
    FormattedIs(num, flags, width, 16);
    var n := |Bare(num, flags, 16)|;
    if width <= n {
      UnpaddedHex(num, flags, rest);
    } else {
      PaddedHex(num, flags, width - n - 1, rest);
    }
  }

  /** Eight, printed with a leading zero, is not read back. */
  lemma EightWithAZero(rest: string)
    requires EndsNumber(rest)
    ensures F.Formatted(8, F.NF_ZEROPAD, 2, 10) == "08" && !ReadsBackAs("08", 8, rest)
  {
    hide ReadsBackAs, F.Digits, F.Formatted;
    DigitsLast(8, 10);
    assert F.Digits(8, 10) == "8";
    assert Bare(8, F.NF_ZEROPAD, 10) == "8";
    DecimalRoundTrip(8, F.NF_ZEROPAD, 2, rest);
    FormattedIs(8, F.NF_ZEROPAD, 2, 10);
    assert F.Repeat('0', 1) == "" + "0";
  }
}
