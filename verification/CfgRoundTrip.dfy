/** Parsing any rendering of a configuration gives the configuration back. */
module CfgRoundTrip {
  import opened CfgGrammar
  import opened CfgRendering

  // ----- runs -----

  lemma {:induction false} SkipSpaceOver(ws: string, rest: string)
    requires AllSpace(ws) && (rest == "" || !IsSpace(rest[0]))
    ensures SkipSpace(ws + rest) == rest
  {
    if ws == "" {
      assert ws + rest == rest;
    } else {
      assert (ws + rest)[1..] == ws[1..] + rest;
      SkipSpaceOver(ws[1..], rest);
    }
  }

  /** The text that may follow a name: it ends the name, and it is there. */
  predicate EndsName(rest: string) { rest != "" && !IsNameChar(rest[0]) }

  lemma {:induction false} NameRunOver(name: string, rest: string)
    requires (forall i :: 0 <= i < |name| ==> IsNameChar(name[i])) && EndsName(rest)
    ensures NameRun(name + rest) == |name|
  {
    if name == "" {
      assert name + rest == rest;
    } else {
      assert (name + rest)[1..] == name[1..] + rest;
      NameRunOver(name[1..], rest);
    }
  }

  lemma ParseNameOver(name: string, rest: string)
    requires IsName(name) && EndsName(rest)
    ensures ParseName(name + rest) == Match(name, rest)
  {
    NameRunOver(name, rest);
  }

  lemma {:induction false} DigitRunOver(digits: string, radix: nat, rest: string)
    requires AllDigits(digits, radix) && (rest == "" || !IsRadixDigit(rest[0], radix))
    ensures DigitRun(digits + rest, radix) == |digits|
  {
    if digits == "" {
      assert digits + rest == rest;
    } else {
      assert (digits + rest)[1..] == digits[1..] + rest;
      DigitRunOver(digits[1..], radix, rest);
    }
  }

  lemma ParseDigitsOver(digits: string, radix: nat, rest: string)
    requires AllDigits(digits, radix) && rest != "" && !IsRadixDigit(rest[0], radix)
    ensures ParseDigits(digits + rest, radix) == Match(Number(digits, radix), rest)
  {
    DigitRunOver(digits, radix, rest);
    assert (digits + rest)[..|digits|] == digits;
  }

  // ----- literals -----

  lemma StringItemOver(item: Item, acc: string, tail: string)
    requires LegalItem(item)
    ensures StringBody(RenderItem(item) + tail, acc) == StringBody(tail, acc + [ItemValue(item)])
  {
    assert (RenderItem(item) + tail)[|RenderItem(item)|..] == tail;
  }

  lemma StringEndOver(acc: string, rest: string)
    ensures StringBody("\"" + rest, acc) == Match(acc, rest)
  {
    assert ("\"" + rest)[1..] == rest;
  }

  lemma {:induction false} StringBodyOver(items: seq<Item>, acc: string, rest: string)
    requires LegalItems(items)
    ensures StringBody(RenderItems(items) + "\"" + rest, acc) == Match(acc + ItemsValue(items), rest)
    decreases |items|
  {
    hide StringBody, RenderItem, ItemValue, LegalItem;
    if items == [] {
      assert RenderItems(items) + "\"" + rest == "\"" + rest;
      StringEndOver(acc, rest);
      assert acc + ItemsValue(items) == acc;
    } else {
      var v, more := ItemValue(items[0]), items[1..];
      var tail := RenderItems(more) + "\"" + rest;
      assert RenderItems(items) + "\"" + rest == RenderItem(items[0]) + tail;
      StringItemOver(items[0], acc, tail);
      StringBodyOver(more, acc + [v], rest);
      assert acc + [v] + ItemsValue(more) == acc + ItemsValue(items);
    }
  }

  lemma ParseStringOver(items: seq<Item>, rest: string)
    requires LegalItems(items)
    ensures ParseString("\"" + RenderItems(items) + "\"" + rest) == Match(ItemsValue(items), rest)
  {
    hide StringBody, RenderItems, ItemsValue, LegalItems;
    var s := "\"" + RenderItems(items) + "\"" + rest;
    assert s[1..] == RenderItems(items) + "\"" + rest;
    StringBodyOver(items, "", rest);
    assert "" + ItemsValue(items) == ItemsValue(items);
  }

  /** The text that may follow a number: no digit of any radix, and no x. */
  predicate EndsNumber(rest: string) { rest != "" && MapDigit(rest[0]) < 0 && rest[0] != 'x' && rest[0] != 'X' }

  function Magnitude(l: Literal): string
    requires !l.Character?
  {
    match l
    case Decimal(_, digits) => digits
    case Octal(_, digits) => "0" + digits
    case Hex(_, x, digits) => "0" + [x] + digits
  }

  function MagnitudeValue(l: Literal): nat
    requires !l.Character? && LegalLiteral(l)
  {
    match l
    case Decimal(_, digits) => Number(digits, 10)
    case Octal(_, digits) => Number(digits, 8)
    case Hex(_, _, digits) => Number(digits, 16)
  }

  lemma RadixDigitIsNoX(c: char, radix: nat)
    requires IsRadixDigit(c, radix) && radix <= 16
    ensures c != 'x' && c != 'X' && c != '-' && c != '\''
    ensures radix <= 10 ==> IsDigit(c)
  {
  }

  lemma DecimalOver(digits: string, rest: string)
    requires digits != "" && AllDigits(digits, 10) && digits[0] != '0' && EndsNumber(rest)
    ensures var s := digits + rest;
            s != "" && IsDigit(s[0]) && ParseMagnitude(s) == Match(Number(digits, 10), rest)
  {
    RadixDigitIsNoX(digits[0], 10);
    hide ParseDigits, Number, EndsNumber, IsRadixDigit, IsDigit;
    ParseDigitsOver(digits, 10, rest);
  }

  lemma OctalOver(digits: string, rest: string)
    requires AllDigits(digits, 8) && EndsNumber(rest)
    ensures ParseMagnitude("0" + digits + rest) == Match(Number(digits, 8), rest)
  {
    var s := "0" + digits + rest;
    assert s[1..] == digits + rest;
    if digits == "" {
      assert s[1..] == rest;
    } else {
      RadixDigitIsNoX(digits[0], 8);
      hide ParseDigits, Number, IsRadixDigit, MapDigit;
      ParseDigitsOver(digits, 8, rest);
    }
  }

  lemma HexOver(x: char, digits: string, rest: string)
    requires (x == 'x' || x == 'X') && digits != "" && AllDigits(digits, 16) && EndsNumber(rest)
    ensures ParseMagnitude("0" + [x] + digits + rest) == Match(Number(digits, 16), rest)
  {
    var s := "0" + [x] + digits + rest;
    assert s[2..] == digits + rest;
    assert IsRadixDigit(digits[0], 16);
    hide ParseDigits, Number, AllDigits, IsDigit;
    ParseDigitsOver(digits, 16, rest);
  }

  lemma ParseMagnitudeOver(l: Literal, rest: string)
    requires !l.Character? && LegalLiteral(l) && EndsNumber(rest)
    ensures var s := Magnitude(l) + rest;
            s != "" && IsDigit(s[0]) && ParseMagnitude(s) == Match(MagnitudeValue(l), rest)
  {
    hide ParseMagnitude, Number, AllDigits, EndsNumber;
    match l
    case Decimal(_, digits) => DecimalOver(digits, rest);
    case Octal(_, digits) => OctalOver(digits, rest);
    case Hex(_, x, digits) => HexOver(x, digits, rest);
  }

  function Negative(l: Literal): bool
    requires !l.Character?
  {
    match l
    case Decimal(negative, _) => negative
    case Octal(negative, _) => negative
    case Hex(negative, _, _) => negative
  }

  lemma RenderedInt(l: Literal, rest: string)
    requires !l.Character? && LegalLiteral(l)
    ensures RenderLiteral(l) + rest == Sign(Negative(l)) + (Magnitude(l) + rest)
    ensures LiteralValue(l) == Wrap(Negative(l), MagnitudeValue(l))
  {
  }

  lemma SignOver(negative: bool, t: string, n: nat, rest: string)
    requires t != "" && IsDigit(t[0]) && ParseMagnitude(t) == Match(n, rest)
    ensures var s := Sign(negative) + t;
            && ParseInt(s) == Match(Wrap(negative, n), rest) && ParseCharLiteral(s) == NoMatch(s)
              && (s[0] == '-' || IsDigit(s[0]))
  {
    hide ParseMagnitude, Wrap;
    if negative {
      assert (Sign(true) + t)[1..] == t;
    } else {
      assert Sign(false) + t == t;
    }
  }

  lemma ParseIntOver(l: Literal, rest: string)
    requires !l.Character? && LegalLiteral(l) && EndsNumber(rest)
    ensures ParseInt(RenderLiteral(l) + rest) == Match(LiteralValue(l), rest)
    ensures ParseCharLiteral(RenderLiteral(l) + rest) == NoMatch(RenderLiteral(l) + rest)
    ensures (RenderLiteral(l) + rest)[0] == '-' || IsDigit((RenderLiteral(l) + rest)[0])
  {
    hide ParseMagnitude, RenderLiteral, Magnitude, MagnitudeValue, LegalLiteral, LiteralValue, Wrap, EndsNumber,
         Negative;
    ParseMagnitudeOver(l, rest);
    RenderedInt(l, rest);
    SignOver(Negative(l), Magnitude(l) + rest, MagnitudeValue(l), rest);
  }

  lemma CharacterValue(item: Item)
    requires LegalLiteral(Character(item))
    ensures 0 < ItemValue(item) as int < 256
  {
  }

  lemma ParseNumberOver(l: Literal, rest: string)
    requires LegalLiteral(l) && EndsNumber(rest)
    ensures ParseNumber(RenderLiteral(l) + rest) == Match(LiteralValue(l), rest)
  {
    if l.Character? {
      CharacterValue(l.item);
      hide ParseInt, ParseCharLiteral, LegalLiteral, EndsNumber, RenderItem, ItemValue;
    } else {
      ParseIntOver(l, rest);
      hide ParseInt, ParseCharLiteral, RenderLiteral, LiteralValue, LegalLiteral, EndsNumber;
    }
  }

  // ----- structure -----

  /** White space, then a delimiter: skipped up to the delimiter, and it ends whatever came before. */
  lemma Delimited(ws: string, c: char, rest: string)
    requires AllSpace(ws) && !IsSpace(c)
    ensures SkipSpace(ws + [c] + rest) == [c] + rest
    ensures !IsNameChar(c) ==> EndsName(ws + [c] + rest)
    ensures c == ';' ==> EndsNumber(ws + [c] + rest)
  {
    SkipSpaceOver(ws, [c] + rest);
    assert ws + ([c] + rest) == ws + [c] + rest;
    assert ws != "" ==> IsSpace(ws[0]);
  }

  lemma NameSkipped(ws: string, name: string, rest: string)
    requires AllSpace(ws) && IsName(name)
    ensures SkipSpace(ws + name + rest) == name + rest
  {
    SkipSpaceOver(ws, name + rest);
    assert ws + (name + rest) == ws + name + rest;
  }

  lemma ValueStarts(v: ValueText, rest: string)
    requires LegalValue(v) && EndsNumber(rest)
    ensures var s := RenderValue(v) + rest; s != "" && !IsSpace(s[0])
  {
    if v.Numeric? && !v.literal.Character? {
      ParseIntOver(v.literal, rest);
      hide LegalLiteral, RenderLiteral;
    }
  }

  lemma ParseValueOver(v: ValueText, rest: string)
    requires LegalValue(v) && EndsName(rest) && EndsNumber(rest)
    ensures ParseValue(RenderValue(v) + rest) == Match(ValueMeaning(v), rest)
  {
    hide LegalLiteral, LegalItems, RenderItems, LiteralValue, ItemsValue, EndsName, EndsNumber, ParseCharLiteral,
         ParseMagnitude, NameRun;
    match v
    case Quoted(items) =>
      ParseStringOver(items, rest);
    case Numeric(l) =>
      ParseNumberOver(l, rest);
      NumberIsNoString(l, rest);
    case Bare(name) =>
      ParseNameOver(name, rest);
      NameIsNoNumber(name, rest);
  }

  lemma NumberIsNoString(l: Literal, rest: string)
    requires LegalLiteral(l) && EndsNumber(rest)
    ensures ParseString(RenderLiteral(l) + rest) == NoMatch(RenderLiteral(l) + rest)
  {
    if !l.Character? {
      ParseIntOver(l, rest);
    }
  }

  lemma NameIsNoNumber(name: string, rest: string)
    requires IsName(name)
    ensures ParseString(name + rest) == NoMatch(name + rest) && ParseNumber(name + rest) == NoMatch(name + rest)
  {
    var s := name + rest;
    assert s[0] == name[0] && IsAlpha(name[0]);
  }

  lemma ParseEntryOver(e: EntryText, rest: string)
    requires LegalEntry(e)
    ensures ParseEntry(RenderEntry(e) + rest) == Match(EntryMeaning(e), e.beforeEnd + ";" + rest)
  {
    hide IsName, AllSpace, LegalValue, RenderValue, ValueMeaning, SkipSpace, ParseName, ParseValue, EndsName,
         EndsNumber;
    var end := e.beforeEnd + ";" + rest;
    var afterEq := e.afterEq + (RenderValue(e.value) + end);
    var afterName := e.beforeEq + "=" + afterEq;
    assert RenderEntry(e) + rest == e.lead + e.name + afterName;
    NameSkipped(e.lead, e.name, afterName);
    Delimited(e.beforeEq, '=', afterEq);
    ParseNameOver(e.name, afterName);
    assert ("=" + afterEq)[1..] == afterEq;
    Delimited(e.beforeEnd, ';', rest);
    ValueStarts(e.value, end);
    SkipSpaceOver(e.afterEq, RenderValue(e.value) + end);
    ParseValueOver(e.value, end);
  }

  lemma {:induction false} SkipSpaceTwice(s: string)
    ensures SkipSpace(SkipSpace(s)) == SkipSpace(s)
  {
    if s != "" && IsSpace(s[0]) {
      SkipSpaceTwice(s[1..]);
    }
  }

  lemma LeadingSpaceIrrelevant(s: string, acc: seq<Entry>)
    ensures ParseEntries(SkipSpace(s), acc) == ParseEntries(s, acc)
  {
    SkipSpaceTwice(s);
    hide SkipSpace;
  }

  /** After its lead, an entry starts with a letter. */
  lemma EntryStarts(e: EntryText, rest: string)
    requires LegalEntry(e)
    ensures var s := SkipSpace(RenderEntry(e) + rest); s != "" && IsAlpha(s[0])
  {
    hide SkipSpace, LegalValue, RenderValue;
    var afterName := e.beforeEq + "=" + (e.afterEq + (RenderValue(e.value) + (e.beforeEnd + ";" + rest)));
    assert RenderEntry(e) + rest == e.lead + e.name + afterName;
    NameSkipped(e.lead, e.name, afterName);
  }

  lemma EntriesStep(e: EntryText, acc: seq<Entry>, tail: string)
    requires LegalEntry(e)
    ensures var u, acc' := SkipSpace(tail), acc + [EntryMeaning(e)];
            ParseEntries(RenderEntry(e) + tail, acc)
            == (if u == "" then Fatal else if u[0] == '}' then Match(acc', u[1..]) else ParseEntries(u, acc'))
  {
    assert AllSpace(e.beforeEnd);
    ParseEntryOver(e, tail);
    Delimited(e.beforeEnd, ';', tail);
    assert e.beforeEnd + [';'] + tail == e.beforeEnd + ";" + tail;
    assert ([';'] + tail)[1..] == tail;
    hide ParseEntry, SkipSpace, LegalEntry, EntryMeaning, RenderEntry;
  }

  lemma EntriesFront(es: seq<EntryText>, acc: seq<Entry>, end: string)
    requires es != [] && forall i :: 0 <= i < |es| ==> LegalEntry(es[i])
    ensures RenderEntries(es) + end == RenderEntry(es[0]) + (RenderEntries(es[1..]) + end)
    ensures acc + EntriesMeaning(es) == acc + [EntryMeaning(es[0])] + EntriesMeaning(es[1..])
  {
    hide LegalEntry, EntryMeaning, RenderEntry;
    Regroup(RenderEntry(es[0]), RenderEntries(es[1..]), end);
    Regroup(acc, [EntryMeaning(es[0])], EntriesMeaning(es[1..]));
  }

  lemma Regroup<T>(a: seq<T>, b: seq<T>, c: seq<T>)
    ensures a + b + c == a + (b + c)
  {
  }

  lemma NoEntries(acc: seq<Entry>, end: string)
    ensures RenderEntries([]) + end == end && acc + EntriesMeaning([]) == acc
  {
  }

  lemma {:induction false} ParseEntriesOver(es: seq<EntryText>, acc: seq<Entry>, close: string, rest: string)
    requires es != [] && (forall i :: 0 <= i < |es| ==> LegalEntry(es[i])) && AllSpace(close)
    ensures ParseEntries(RenderEntries(es) + (close + "}" + rest), acc) == Match(acc + EntriesMeaning(es), rest)
    decreases |es|
  {
    hide ParseEntries, SkipSpace, LegalEntry, EntryMeaning, RenderEntry, RenderEntries, EntriesMeaning, AllSpace;
    var e, more, end := es[0], es[1..], close + "}" + rest;
    var acc', tail := acc + [EntryMeaning(e)], RenderEntries(more) + end;
    EntriesFront(es, acc, end);
    NoEntries(acc', end);
    Delimited(close, '}', rest);
    EntriesStep(e, acc, tail);
    if more == [] {
      assert tail == close + ['}'] + rest;
      assert (['}'] + rest)[1..] == rest;
    } else {
      ParseEntriesOver(more, acc', close, rest);
      LeadingSpaceIrrelevant(tail, acc');
      EntriesFront(more, acc', end);
      EntryStarts(more[0], RenderEntries(more[1..]) + end);
    }
  }

  lemma ParseTitleOver(t: TitleText, gap: string, rest: string)
    requires LegalTitle(t, gap) && EndsName(rest)
    ensures ParseTitle(RenderTitle(t) + rest) == Match(TitleMeaning(t, gap), rest)
  {
    hide LegalItems, RenderItems, ItemsValue, EndsName, IsName, NameRun;
    match t
    case BareTitle(name) => ParseNameOver(name, rest);
    case QuotedTitle(items) => ParseStringOver(items, rest);
  }

  lemma TitleStarts(t: TitleText, gap: string, rest: string)
    requires LegalTitle(t, gap) && AllSpace(gap)
    ensures SkipSpace(gap + (RenderTitle(t) + rest)) == RenderTitle(t) + rest
    ensures EndsName(gap + (RenderTitle(t) + rest))
  {
    SkipSpaceOver(gap, RenderTitle(t) + rest);
    assert gap != "" ==> IsSpace(gap[0]);
  }

  lemma ParseSectionOver(s: SectionText, rest: string)
    requires LegalSection(s)
    ensures ParseSection(RenderSection(s) + rest) == Match(SectionMeaning(s), s.after + rest)
  {
    hide IsName, AllSpace, LegalEntry, LegalTitle, RenderTitle, RenderEntries, EntriesMeaning, TitleMeaning, SkipSpace,
         ParseName, ParseTitle, ParseEntries, EndsName;
    var end := s.after + rest;
    var body := RenderEntries(s.entries) + (s.beforeClose + "}" + end);
    var afterTitle := s.beforeOpen + "{" + body;
    var afterKind := s.gap + (RenderTitle(s.title) + afterTitle);
    assert RenderBody(s) + rest == body;
    assert RenderHead(s) + body == s.lead + s.kind + afterKind;
    assert RenderSection(s) + rest == RenderHead(s) + (RenderBody(s) + rest);
    NameSkipped(s.lead, s.kind, afterKind);
    Delimited(s.beforeOpen, '{', body);
    TitleStarts(s.title, s.gap, afterTitle);
    ParseNameOver(s.kind, afterKind);
    ParseTitleOver(s.title, s.gap, afterTitle);
    assert (['{'] + body)[1..] == body;
    ParseEntriesOver(s.entries, [], s.beforeClose, end);
    assert [] + EntriesMeaning(s.entries) == EntriesMeaning(s.entries);
  }

  lemma SectionsStep(s: SectionText, c: char, acc: seq<Section>, tail: string)
    requires LegalSection(s) && (c == '}' || c == ',')
    ensures var acc' := acc + [SectionMeaning(s)];
            ParseSections(RenderSection(s) + ([c] + tail), acc)
            == (if c == '}' then Match(acc', tail) else ParseSections(tail, acc'))
  {
    hide ParseSection, SkipSpace, LegalSection, SectionMeaning, RenderSection, AllSpace, EndsName, EndsNumber;
    ParseSectionOver(s, [c] + tail);
    AfterIsSpace(s);
    SectionEnd(s.after, c, tail);
    assert ([c] + tail)[1..] == tail;
  }

  lemma SectionEnd(after: string, c: char, tail: string)
    requires AllSpace(after) && (c == '}' || c == ',')
    ensures SkipSpace(after + ([c] + tail)) == [c] + tail
  {
    hide SkipSpace;
    Delimited(after, c, tail);
    assert after + ([c] + tail) == after + [c] + tail;
  }

  lemma AfterIsSpace(s: SectionText)
    requires LegalSection(s)
    ensures AllSpace(s.after)
  {
  }

  lemma {:induction false} ParseSectionsOver(ss: seq<SectionText>, acc: seq<Section>, rest: string)
    requires ss != [] && forall i :: 0 <= i < |ss| ==> LegalSection(ss[i])
    ensures ParseSections(RenderSections(ss) + "}" + rest, acc) == Match(acc + SectionsMeaning(ss), rest)
    decreases |ss|
  {
    hide ParseSections, SkipSpace, LegalSection, SectionMeaning, RenderSection;
    var s, more := ss[0], ss[1..];
    var acc' := acc + [SectionMeaning(s)];
    assert acc' + SectionsMeaning(more) == acc + SectionsMeaning(ss);
    if more == [] {
      assert RenderSections(ss) + "}" + rest == RenderSection(s) + (['}'] + rest);
      SectionsStep(s, '}', acc, rest);
      assert acc' + SectionsMeaning(more) == acc';
    } else {
      var tail := RenderSections(more) + "}" + rest;
      assert RenderSections(ss) + "}" + rest == RenderSection(s) + ([','] + tail);
      SectionsStep(s, ',', acc, tail);
      ParseSectionsOver(more, acc', rest);
    }
  }

  /** Whatever follows it, any legal rendering of a file parses to exactly the file it denotes. */
  lemma ParseFileOver(f: FileText, rest: string)
    requires LegalFile(f)
    ensures ParseFile(RenderFile(f) + rest) == Match(FileMeaning(f), rest)
  {
    hide IsName, AllSpace, LegalSection, RenderSections, SectionsMeaning, SkipSpace, ParseName, ParseSections, EndsName;
    var body := RenderSections(f.sections) + "}" + rest;
    var afterName := f.beforeOpen + ['{'] + body;
    assert RenderFile(f) + rest == f.lead + f.name + afterName;
    NameSkipped(f.lead, f.name, afterName);
    Delimited(f.beforeOpen, '{', body);
    ParseNameOver(f.name, afterName);
    assert (['{'] + body)[1..] == body;
    ParseSectionsOver(f.sections, [], rest);
    assert [] + SectionsMeaning(f.sections) == SectionsMeaning(f.sections);
  }
}
