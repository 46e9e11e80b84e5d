/** Strings, names, characters and integers, accepted from a scanner. */
module CfgTokens {
  import opened Options
  import opened CfgGrammar
  import opened CfgScanner

  /** A method did what the grammar says: same outcome, same text left. */
  ghost predicate Meets<T>(r: Outcome<T>, spec: Result<T>, left: string) {
    match spec
    case Fatal => r.Exit?
    case NoMatch(rest) => r.Absent? && left == rest
    case Match(value, rest) => r == Got(value) && left == rest
  }

  // ----- growing buffers -----

  /** Room for the character and for a terminator after it: the buffer doubles when it fills. */
  method Append(buffer: array<char>, ptr: nat, c: char) returns (grown: array<char>)
    requires ptr < buffer.Length
    modifies buffer
    ensures ptr + 1 < grown.Length && grown[..ptr + 1] == old(buffer[..ptr]) + [c]
    ensures grown == buffer || fresh(grown)
  {
    buffer[ptr] := c;
    grown := buffer;
    if ptr + 1 == buffer.Length {
      grown := new char[2 * buffer.Length];
      for i := 0 to buffer.Length
        invariant grown[..i] == buffer[..i]
        invariant buffer[..ptr] == old(buffer[..ptr]) && buffer[ptr] == c
      {
        grown[i] := buffer[i];
      }
    }
  }

  /** The characters of a string after its opening quote. */
  method ReadString(s: Scanner) returns (r: Outcome<string>)
    requires s.Valid()
    modifies s
    ensures s.Valid() && Meets(r, StringBody(old(s.Rest()), ""), s.Rest())
  {
    hide Scanner.Valid, Scanner.Rest, Scanner.JustRead, StringBody, MapEsc;
    ghost var here := s.Rest();
    var buffer, ptr := new char[40], 0;
    assert buffer[..ptr] == "";
    var c := s.AcceptRawChar();
    while c.Some? && c.value != '\"'
      invariant s.Valid() && fresh(buffer) && ptr < buffer.Length
      invariant if here == "" then c.None? else c == Some(here[0]) && s.JustRead(here) && s.Rest() == here[1..]
      invariant StringBody(old(s.Rest()), "") == StringBody(here, buffer[..ptr])
      decreases |here|
    {
      StringBodySteps(here, buffer[..ptr]);
      var in_ := c.value;
      if in_ == '\\' {
        here := here[1..];
        c := s.AcceptRawChar();
        if c.None? || MapEsc(c.value).None? {
          return Exit;
        }
        in_ := MapEsc(c.value).value;
      }
      buffer := Append(buffer, ptr, in_);
      ptr := ptr + 1;
      here := here[1..];
      c := s.AcceptRawChar();
    }
    StringBodySteps(here, buffer[..ptr]);
    if c.None? {
      return Exit;
    }
    s.ReturnRawChar(c.value, here);
    var ok := s.ExpectChar('\"');
    assert ok;
    return Got(buffer[..ptr]);
  }

  method AcceptString(s: Scanner) returns (r: Outcome<string>)
    requires s.Valid()
    modifies s
    ensures s.Valid() && Meets(r, ParseString(old(s.Rest())), s.Rest())
  {
    hide Scanner.Valid, Scanner.Rest, Scanner.JustRead, StringBody;
    ghost var here := s.Rest();
    var c := s.AcceptRawCharOrEof();
    if c.None? {
      return Absent;
    }
    if c.value != '\"' {
      s.ReturnRawChar(c.value, here);
      return Absent;
    }
    r := ReadString(s);
  }

  lemma StringBodySteps(here: string, acc: string)
    ensures StringBody(here, acc) ==
      if here == "" then Fatal
      else if here[0] == '\"' then Match(acc, here[1..])
      else if here[0] != '\\' then StringBody(here[1..], acc + [here[0]])
      else if |here| == 1 || MapEsc(here[1]).None? then Fatal
      else StringBody(here[1..][1..], acc + [MapEsc(here[1]).value])
  {
    assert |here| > 1 ==> here[1..][1..] == here[2..];
  }

  lemma {:induction false} NameRunIs(s: string, n: nat)
    requires n <= |s| && forall i :: 0 <= i < n ==> IsNameChar(s[i])
    requires n < |s| ==> !IsNameChar(s[n])
    ensures NameRun(s) == n
  {
    if n > 0 {
      NameRunIs(s[1..], n - 1);
    }
  }

  lemma NoName(s: string)
    ensures s == "" || !IsAlpha(s[0]) ==> ParseName(s) == NoMatch(s)
    ensures s != "" && IsAlpha(s[0]) ==> IsNameChar(s[0])
  {
  }

  lemma NameIs(s: string, n: nat)
    requires 0 < n <= |s| && IsAlpha(s[0]) && (forall i :: 0 <= i < n ==> IsNameChar(s[i]))
    requires n < |s| ==> !IsNameChar(s[n])
    ensures ParseName(s) == if n == |s| then Fatal else Match(s[..n], s[n..])
  {
    NameRunIs(s, n);
  }

  lemma NameChars(c: char)
    ensures IsNameChar(c) ==> c != '\\'
  {
  }

  /** The test for a backslash is never true in a name: the loop goes on for letters, digits and underscores only. */
  method AcceptName(s: Scanner) returns (r: Outcome<string>)
    requires s.Valid()
    modifies s
    ensures s.Valid() && Meets(r, ParseName(old(s.Rest())), s.Rest())
  {
    hide Scanner.Valid, Scanner.Rest, Scanner.JustRead, ParseName, IsAlpha, IsNameChar;
    ghost var s0 := s.Rest();
    NoName(s0);
    var c := s.AcceptRawCharOrEof();
    if c.None? {
      return Absent;
    }
    if !IsAlpha(c.value) {
      s.ReturnRawChar(c.value, s0);
      return Absent;
    }
    var buffer, ptr := new char[40], 0;
    while true
      invariant s.Valid() && fresh(buffer) && ptr < buffer.Length && ptr < |s0|
      invariant buffer[..ptr] == s0[..ptr] && forall i :: 0 <= i <= ptr ==> IsNameChar(s0[i])
      invariant c == Some(s0[ptr]) && s.JustRead(s0[ptr..]) && s.Rest() == s0[ptr + 1..]
      decreases |s0| - ptr
    {
      NameChars(s0[ptr]);
      if c.value == '\\' {
        assert false;
      }
      buffer := Append(buffer, ptr, c.value);
      ptr := ptr + 1;
      assert s0[..ptr] == s0[..ptr - 1] + [s0[ptr - 1]];
      c := s.AcceptRawChar();
      if c.None? {
        NameIs(s0, ptr);
        return Exit;
      }
      if !IsNameChar(c.value) {
        break;
      }
    }
    NameIs(s0, ptr);
    s.ReturnRawChar(c.value, s0[ptr..]);
    return Got(buffer[..ptr]);
  }

  method AcceptWhitespace(s: Scanner)
    requires s.Valid()
    modifies s
    ensures s.Valid() && s.Rest() == SkipSpace(old(s.Rest()))
  {
    hide Scanner.Valid, Scanner.Rest, Scanner.JustRead;
    ghost var here := s.Rest();
    var c := s.AcceptRawCharOrEof();
    while c.Some? && IsSpace(c.value)
      invariant s.Valid() && SkipSpace(old(s.Rest())) == SkipSpace(here)
      invariant if here == "" then c.None? && s.Rest() == here
                else c == Some(here[0]) && s.JustRead(here) && s.Rest() == here[1..]
      decreases |here|
    {
      here := here[1..];
      c := s.AcceptRawCharOrEof();
    }
    if c.None? {
      return;
    }
    s.ReturnRawChar(c.value, here);
  }

  method AcceptCharLiteral(s: Scanner) returns (r: Outcome<char>)
    requires s.Valid()
    modifies s
    ensures s.Valid() && Meets(r, ParseCharLiteral(old(s.Rest())), s.Rest())
  {
    hide Scanner.Valid, Scanner.Rest, Scanner.JustRead, MapEsc;
    ghost var s0 := s.Rest();
    var c := s.AcceptRawCharOrEof();
    if c.None? {
      return Absent;
    }
    if c.value != '\'' {
      s.ReturnRawChar(c.value, s0);
      return Absent;
    }
    c := s.AcceptRawChar();
    if c.None? {
      return Exit;
    }
    var val := c.value;
    if c.value == '\\' {
      c := s.AcceptRawChar();
      if c.None? || MapEsc(c.value).None? {
        return Exit;
      }
      val := MapEsc(c.value).value;
    }
    var ok := s.ExpectChar('\'');
    return if ok then Got(val) else Exit;
  }

  // ----- integers, in 64-bit arithmetic -----

  lemma {:induction false} DigitRunIs(s: string, n: nat, radix: nat)
    requires n <= |s| && forall i :: 0 <= i < n ==> IsRadixDigit(s[i], radix)
    requires n < |s| ==> !IsRadixDigit(s[n], radix)
    ensures DigitRun(s, radix) == n
  {
    if n > 0 {
      DigitRunIs(s[1..], n - 1, radix);
    }
  }

  lemma ModShift(k: int, x: int)
    ensures (k * TWO_64 + x) % TWO_64 == x % TWO_64
  {
  }

  lemma Accumulate(n: nat, radix: nat, val: nat)
    ensures (n % TWO_64 * radix + val) % TWO_64 == (n * radix + val) % TWO_64
  {
    var q, r := n / TWO_64, n % TWO_64;
    assert n == q * TWO_64 + r;
    assert n * radix + val == (q * radix) * TWO_64 + (r * radix + val) by {
      assert (q * TWO_64 + r) * radix == q * TWO_64 * radix + r * radix;
    }
    ModShift(q * radix, r * radix + val);
  }

  lemma WrapOfRemainder(negative: bool, n: nat)
    ensures Wrap(negative, n % TWO_64) == Wrap(negative, n)
  {
    var q, r := n / TWO_64, n % TWO_64;
    assert -(n as int) == (-q) * TWO_64 + -r;
    ModShift(-q, -r);
  }

  function Accumulated(acc: nat, radix: nat, val: nat): nat { (acc * radix + val) % TWO_64 }

  /** The first k characters are digits, and acc is their number in 64 bits. */
  ghost predicate Read(here: string, k: nat, radix: nat, acc: nat) {
    && k <= |here| && (forall i :: 0 <= i < k ==> IsRadixDigit(here[i], radix))
    && acc == Number(here[..k], radix) % TWO_64
  }

  lemma ReadMore(here: string, k: nat, radix: nat, acc: nat)
    requires Read(here, k, radix, acc) && k < |here| && IsRadixDigit(here[k], radix)
    ensures Read(here, k + 1, radix, Accumulated(acc, radix, MapDigit(here[k])))
  {
    hide MapDigit;
    assert here[..k + 1][..k] == here[..k];
    Accumulate(Number(here[..k], radix), radix, MapDigit(here[k]));
  }

  lemma ReadAll(here: string, k: nat, radix: nat, acc: nat)
    requires Read(here, k, radix, acc) && (k < |here| ==> !IsRadixDigit(here[k], radix))
    ensures if k == |here| then ParseDigits(here, radix).Fatal?
            else var d := ParseDigits(here, radix); d.Match? && d.rest == here[k..] && acc == d.value % TWO_64
  {
    DigitRunIs(here, k, radix);
  }

  /** The loop over the digits from c on, and the return of the character that ends them. */
  method AcceptDigits(s: Scanner, first: char, radix: nat, ghost here: string) returns (out: Option<nat>)
    requires s.JustRead(here) && s.Rest() == here[1..] && first == here[0]
    modifies s
    ensures s.Valid()
    ensures match ParseDigits(here, radix)
            case Fatal => out.None?
            case NoMatch(_) => false
            case Match(n, rest) => out == Some(n % TWO_64) && s.Rest() == rest
  {
    assert here != "" && here[0..] == here && s.Valid();
    hide Scanner.Valid, Scanner.Rest, Scanner.JustRead, MapDigit, ParseDigits, Accumulated, Read;
    var in_, acc := first, 0;
    ghost var k := 0;
    while true
      invariant Read(here, k, radix, acc)
      invariant k < |here| && s.JustRead(here[k..]) && s.Valid() && s.Rest() == here[k + 1..] && in_ == here[k]
      decreases |here| - k
    {
      var val := MapDigit(in_);
      if val < 0 || val >= radix {
        break;
      }
      ReadMore(here, k, radix, acc);
      acc := Accumulated(acc, radix, val);
      k := k + 1;
      var c := s.AcceptRawChar();
      if c.None? {
        ReadAll(here, k, radix, acc);
        return None;
      }
      in_ := c.value;
    }
    ReadAll(here, k, radix, acc);
    s.ReturnRawChar(in_, here[k..]);
    return Some(acc);
  }

  method AcceptInt(s: Scanner) returns (r: Outcome<nat>)
    requires s.Valid()
    modifies s
    ensures s.Valid() && Meets(r, ParseInt(old(s.Rest())), s.Rest())
  {
    hide Scanner.Valid, Scanner.Rest, Scanner.JustRead, ParseDigits, Wrap;
    ghost var here := s.Rest();
    var c := s.AcceptRawCharOrEof();
    if c.None? {
      return Absent;
    }
    if c.value != '-' && !IsDigit(c.value) {
      s.ReturnRawChar(c.value, here);
      return Absent;
    }
    var neg := c.value == '-';
    if neg {
      here := here[1..];
      c := s.AcceptRawChar();
      if c.None? || !IsDigit(c.value) {
        return Exit;
      }
    }
    var n := AcceptMagnitude(s, c.value, here);
    if n.None? {
      return Exit;
    }
    WrapOfRemainder(neg, ParseMagnitude(here).value);
    WrapSmall(n.value);
    return Got(if neg then (TWO_64 - n.value) % TWO_64 else n.value);
  }

  lemma WrapSmall(n: nat)
    requires n < TWO_64
    ensures Wrap(false, n) == n && Wrap(true, n) == (TWO_64 - n) % TWO_64
  {
    ModShift(1, -(n as int));
  }

  /** The radix, then the digits. */
  method AcceptMagnitude(s: Scanner, first: char, ghost here: string) returns (out: Option<nat>)
    requires s.JustRead(here) && s.Rest() == here[1..] && first == here[0] && IsDigit(first)
    modifies s
    ensures s.Valid()
    ensures match ParseMagnitude(here)
            case Fatal => out.None?
            case NoMatch(_) => false
            case Match(n, rest) => out == Some(n % TWO_64) && s.Rest() == rest
  {
    assert here != "" && s.Valid();
    hide Scanner.Valid, Scanner.Rest, Scanner.JustRead, ParseDigits;
    var in_, radix := first, 10;
    ghost var digits := here;
    if in_ == '0' {
      digits := here[1..];
      var c := s.AcceptRawChar();
      if c.None? {
        return None;
      }
      in_ := c.value;
      if in_ == 'x' || in_ == 'X' {
        radix := 16;
        digits := here[2..];
        c := s.AcceptRawChar();
        if c.None? || MapDigit(c.value) < 0 {
          return None;
        }
        in_ := c.value;
      } else if !IsDigit(in_) {
        s.ReturnRawChar(in_, digits);
        return Some(0);
      } else {
        radix := 8;
      }
    }
    out := AcceptDigits(s, in_, radix, digits);
  }

  method AcceptNumber(s: Scanner) returns (r: Outcome<nat>)
    requires s.Valid()
    modifies s
    ensures s.Valid() && Meets(r, ParseNumber(old(s.Rest())), s.Rest())
  {
    hide Scanner.Valid, Scanner.Rest, Scanner.JustRead, ParseCharLiteral, ParseInt;
    var ch := AcceptCharLiteral(s);
    if ch.Exit? {
      return Exit;
    }
    if ch.Got? && 0 < ch.value as int < 256 {
      return Got(ch.value as int);
    }
    r := AcceptInt(s);
  }
}
