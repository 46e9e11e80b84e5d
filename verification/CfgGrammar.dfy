/** Configuration files: their contents, and which text the parser takes for them, as functions on the input. */
module CfgGrammar {
  import opened Options

  const TWO_64 := 0x1_0000_0000_0000_0000

  datatype Value = Text(text: string) | Int64(number: nat)
  datatype Entry = Entry(name: string, value: Value)
  datatype Section = Section(kind: string, name: string, entries: seq<Entry>)
  datatype File = File(name: string, sections: seq<Section>)

  /** Exit of the program, a refusal that leaves the input for someone else, or a value; with the input not consumed. */
  datatype Result<+T> = Fatal | NoMatch(rest: string) | Match(value: T, rest: string)

  // ----- characters -----

  predicate IsDigit(c: char) { '0' <= c <= '9' }

  predicate IsAlpha(c: char) { 'a' <= c <= 'z' || 'A' <= c <= 'Z' }

  predicate IsNameChar(c: char) { IsAlpha(c) || IsDigit(c) || c == '_' }

  /** isspace: blank, tab, newline, vertical tab, form feed, carriage return. */
  predicate IsSpace(c: char) { c == ' ' || 9 as char <= c <= 13 as char }

  function MapEsc(c: char): Option<char> {
    if c == '\"' || c == '\\' || c == '\'' then Some(c)
    else if c == 'n' then Some('\n')
    else if c == 'r' then Some('\r')
    else if c == 't' then Some('\t')
    else if c == 'b' then Some(8 as char)
    else None
  }

  /** -1 for a character that is no digit in any radix. */
  function MapDigit(c: char): int {
    if '0' <= c <= '9' then c as int - '0' as int
    else if 'a' <= c <= 'f' then c as int - 'a' as int + 10
    else if 'A' <= c <= 'F' then c as int - 'A' as int + 10
    else -1
  }

  predicate IsRadixDigit(c: char, radix: nat) { 0 <= MapDigit(c) < radix }

  // ----- runs of characters -----

  function SkipSpace(s: string): (rest: string)
    ensures |rest| <= |s|
  {
    if s != "" && IsSpace(s[0]) then SkipSpace(s[1..]) else s
  }

  function NameRun(s: string): (n: nat)
    ensures n <= |s|
  {
    if s != "" && IsNameChar(s[0]) then 1 + NameRun(s[1..]) else 0
  }

  function DigitRun(s: string, radix: nat): (n: nat)
    ensures n <= |s| && forall i :: 0 <= i < n ==> IsRadixDigit(s[i], radix)
  {
    if s != "" && IsRadixDigit(s[0], radix) then 1 + DigitRun(s[1..], radix) else 0
  }

  /** The number a digit string denotes. */
  function Number(digits: string, radix: nat): nat
    requires forall i :: 0 <= i < |digits| ==> IsRadixDigit(digits[i], radix)
  {
    if digits == "" then 0
    else
      var last := digits[|digits| - 1];
      assert IsRadixDigit(last, radix);
      ProductIsNat(Number(digits[..|digits| - 1], radix), radix);
      Number(digits[..|digits| - 1], radix) * radix + MapDigit(last)
  }

  lemma ProductIsNat(a: nat, b: nat)
    ensures a * b >= 0
  {
  }

  // ----- tokens -----

  function StringBody(s: string, acc: string): (r: Result<string>)
    ensures r.Match? ==> |r.rest| < |s|
    ensures !r.NoMatch?
    decreases |s|
  {
    if s == "" then Fatal
    else if s[0] == '\"' then Match(acc, s[1..])
    else if s[0] != '\\' then StringBody(s[1..], acc + [s[0]])
    else if |s| == 1 || MapEsc(s[1]).None? then Fatal
    else StringBody(s[2..], acc + [MapEsc(s[1]).value])
  }

  function ParseString(s: string): (r: Result<string>)
    ensures r.Match? ==> |r.rest| < |s|
    ensures r.NoMatch? ==> r.rest == s
  {
    if s == "" || s[0] != '\"' then NoMatch(s) else StringBody(s[1..], "")
  }

  /** A name must be followed by some character: the parser reads one past it. */
  function ParseName(s: string): (r: Result<string>)
    ensures r.Match? ==> |r.rest| < |s|
    ensures r.NoMatch? ==> r.rest == s
  {
    if s == "" || !IsAlpha(s[0]) then NoMatch(s)
    else if NameRun(s) == |s| then Fatal
    else Match(s[..NameRun(s)], s[NameRun(s)..])
  }

  function Closing(value: char, s: string): Result<char> {
    if s == "" || s[0] != '\'' then Fatal else Match(value, s[1..])
  }

  function ParseCharLiteral(s: string): (r: Result<char>)
    ensures r.Match? ==> |r.rest| < |s|
    ensures r.NoMatch? ==> r.rest == s
  {
    if s == "" || s[0] != '\'' then NoMatch(s)
    else if |s| == 1 then Fatal
    else if s[1] != '\\' then Closing(s[1], s[2..])
    else if |s| == 2 || MapEsc(s[2]).None? then Fatal
    else Closing(MapEsc(s[2]).value, s[3..])
  }

  /** Digits up to the first other character, which must exist. */
  function ParseDigits(s: string, radix: nat): (r: Result<nat>)
    ensures r.Match? ==> |r.rest| <= |s|
    ensures !r.NoMatch?
  {
    var n := DigitRun(s, radix);
    if n == |s| then Fatal else Match(Number(s[..n], radix), s[n..])
  }

  /** The digits of a literal whose sign has been read: 0x and hex digits, 0 and octal digits, or decimal digits. */
  function ParseMagnitude(s: string): (r: Result<nat>)
    requires s != "" && IsDigit(s[0])
    ensures r.Match? ==> |r.rest| < |s|
    ensures !r.NoMatch?
  {
    if s[0] != '0' then
      assert IsRadixDigit(s[0], 10) && DigitRun(s, 10) > 0;
      ParseDigits(s, 10)
    else if |s| == 1 then Fatal
    else if s[1] == 'x' || s[1] == 'X' then
      if |s| == 2 || MapDigit(s[2]) < 0 then Fatal else ParseDigits(s[2..], 16)
    else if !IsDigit(s[1]) then Match(0, s[1..])
    else ParseDigits(s[1..], 8)
  }

  /** 64-bit two's complement. */
  function Wrap(negative: bool, n: nat): (w: nat)
    ensures w < TWO_64
  {
    if negative then (-(n as int)) % TWO_64 else n % TWO_64
  }

  function ParseInt(s: string): (r: Result<nat>)
    ensures r.Match? ==> |r.rest| < |s|
    ensures r.NoMatch? ==> r.rest == s
  {
    if s == "" || (s[0] != '-' && !IsDigit(s[0])) then NoMatch(s)
    else
      var negative := s[0] == '-';
      var t := if negative then s[1..] else s;
      if t == "" || !IsDigit(t[0]) then Fatal
      else
        match ParseMagnitude(t)
        case Fatal => Fatal
        case NoMatch(_) => Fatal
        case Match(n, rest) => Match(Wrap(negative, n), rest)
  }

  /** A character literal of value 1 to 255 or an integer literal. */
  function ParseNumber(s: string): (r: Result<nat>)
    ensures r.Match? ==> |r.rest| < |s|
    ensures r.NoMatch? ==> |r.rest| <= |s|
  {
    match ParseCharLiteral(s)
    case Fatal => Fatal
    case Match(c, rest) => if 0 < c as int < 256 then Match(c as int, rest) else ParseInt(rest)
    case NoMatch(rest) => ParseInt(rest)
  }

  // ----- structure -----

  function ParseValue(s: string): (r: Result<Value>)
    ensures r.Match? ==> |r.rest| < |s|
    ensures !r.NoMatch?
  {
    match ParseString(s)
    case Fatal => Fatal
    case Match(text, rest) => Match(Text(text), rest)
    case NoMatch(_) =>
      match ParseNumber(s)
      case Fatal => Fatal
      case Match(n, rest) => Match(Int64(n), rest)
      case NoMatch(rest) =>
        match ParseName(rest)
        case Match(name, rest) => Match(Text(name), rest)
        case _ => Fatal
  }

  function ParseEntry(s: string): (r: Result<Entry>)
    ensures r.Match? ==> |r.rest| < |s|
    ensures r.NoMatch? ==> r.rest == SkipSpace(s)
  {
    match ParseName(SkipSpace(s))
    case Fatal => Fatal
    case NoMatch(rest) => NoMatch(rest)
    case Match(name, rest) =>
      var t := SkipSpace(rest);
      if t == "" || t[0] != '=' then Fatal
      else
        match ParseValue(SkipSpace(t[1..]))
        case Match(v, rest') => Match(Entry(name, v), rest')
        case _ => Fatal
  }

  /** Entries, each followed by a semicolon, up to the closing brace; at least one. */
  function ParseEntries(s: string, acc: seq<Entry>): (r: Result<seq<Entry>>)
    ensures r.Match? ==> |r.rest| < |s|
    ensures !r.NoMatch?
    decreases |s|
  {
    match ParseEntry(s)
    case Match(e, rest) =>
      var t := SkipSpace(rest);
      if t == "" || t[0] != ';' then Fatal
      else
        var u := SkipSpace(t[1..]);
        if u == "" then Fatal
        else if u[0] == '}' then Match(acc + [e], u[1..])
        else ParseEntries(u, acc + [e])
    case _ => Fatal
  }

  /** A section's name is a bare name or a string. */
  function ParseTitle(s: string): (r: Result<string>)
    ensures r.Match? ==> |r.rest| < |s|
  {
    match ParseName(s)
    case Fatal => Fatal
    case Match(name, rest) => Match(name, rest)
    case NoMatch(_) => ParseString(s)
  }

  function ParseSection(s: string): (r: Result<Section>)
    ensures r.Match? ==> |r.rest| < |s|
  {
    match ParseName(SkipSpace(s))
    case Fatal => Fatal
    case NoMatch(rest) => NoMatch(rest)
    case Match(kind, rest) =>
      match ParseTitle(SkipSpace(rest))
      case Match(name, rest') =>
        var t := SkipSpace(rest');
        if t == "" || t[0] != '{' then Fatal
        else
          (match ParseEntries(t[1..], [])
           case Match(entries, rest'') => Match(Section(kind, name, entries), rest'')
           case _ => Fatal)
      case _ => Fatal
  }

  /** Sections separated by commas, up to the closing brace; at least one. */
  function ParseSections(s: string, acc: seq<Section>): (r: Result<seq<Section>>)
    ensures r.Match? ==> |r.rest| < |s|
    ensures !r.NoMatch?
    decreases |s|
  {
    match ParseSection(s)
    case Match(section, rest) =>
      var t := SkipSpace(rest);
      if t == "" then Fatal
      else if t[0] == '}' then Match(acc + [section], t[1..])
      else if t[0] == ',' then ParseSections(t[1..], acc + [section])
      else Fatal
    case _ => Fatal
  }

  function ParseFile(s: string): (r: Result<File>) {
    match ParseName(SkipSpace(s))
    case Fatal => Fatal
    case NoMatch(rest) => NoMatch(rest)
    case Match(name, rest) =>
      var t := SkipSpace(rest);
      if t == "" || t[0] != '{' then Fatal
      else
        match ParseSections(t[1..], [])
        case Match(sections, rest') => Match(File(name, sections), rest')
        case _ => Fatal
  }
}
