/** The parser accepts nothing but renderings: every accepted text is a legal rendering of what was parsed. */
module CfgCompleteness {
  import opened CfgGrammar
  import opened CfgRendering
  import opened CfgRoundTrip

  /** Configuration files are ASCII text without NUL characters. */
  predicate IsText(s: string) { forall i :: 0 <= i < |s| ==> 0 < s[i] as int < 128 }

  lemma {:induction false} SpaceSplit(s: string) returns (ws: string)
    ensures AllSpace(ws) && s == ws + SkipSpace(s)
    ensures SkipSpace(s) == "" || !IsSpace(SkipSpace(s)[0])
  {
    if s != "" && IsSpace(s[0]) {
      var more := SpaceSplit(s[1..]);
      ws := [s[0]] + more;
      assert s == [s[0]] + (more + SkipSpace(s[1..]));
      assert AllSpace(ws) by { hide SkipSpace, IsSpace; }
    } else {
      ws := "";
    }
  }

  lemma {:induction false} NameRunSplit(s: string)
    ensures forall i :: 0 <= i < NameRun(s) ==> IsNameChar(s[i])
    ensures NameRun(s) < |s| ==> !IsNameChar(s[NameRun(s)])
  {
    if s != "" && IsNameChar(s[0]) {
      NameRunSplit(s[1..]);
    }
  }

  lemma NameSplit(s: string)
    requires ParseName(s).Match?
    ensures var Match(name, rest) := ParseName(s); s == name + rest && IsName(name) && EndsName(rest)
  {
    NameRunSplit(s);
  }

  /** The first item of a string body and what is left after it. */
  lemma StringBodyStep(s: string, acc: string) returns (item: Item, rest: string)
    requires StringBody(s, acc).Match? && s[0] != '\"'
    ensures LegalItem(item) && s == RenderItem(item) + rest
      && StringBody(s, acc) == StringBody(rest, acc + [ItemValue(item)])
    ensures |rest| < |s|
  {
    if s[0] != '\\' {
      item, rest := Plain(s[0]), s[1..];
    } else {
      item, rest := Escaped(s[1]), s[2..];
    }
  }

  lemma {:induction false} StringBodySplit(s: string, acc: string) returns (items: seq<Item>)
    requires StringBody(s, acc).Match?
    ensures var Match(text, rest) := StringBody(s, acc);
            LegalItems(items) && s == RenderItems(items) + "\"" + rest && text == acc + ItemsValue(items)
    decreases |s|
  {
    if s[0] == '\"' {
      items := [];
      assert s == "\"" + s[1..];
    } else {
      var item, tail := StringBodyStep(s, acc);
      var more := StringBodySplit(tail, acc + [ItemValue(item)]);
      items := [item] + more;
      ItemsCons(item, more);
      hide StringBody, LegalItem, ItemValue, RenderItem, LegalItems, RenderItems, ItemsValue;
    }
  }

  lemma ItemsCons(item: Item, more: seq<Item>)
    requires LegalItem(item) && LegalItems(more)
    ensures LegalItems([item] + more)
    ensures RenderItems([item] + more) == RenderItem(item) + RenderItems(more)
    ensures ItemsValue([item] + more) == [ItemValue(item)] + ItemsValue(more)
  {
    hide RenderItem, ItemValue, LegalItem;
    assert ([item] + more)[1..] == more;
  }

  lemma StringSplit(s: string) returns (items: seq<Item>)
    requires ParseString(s).Match?
    ensures var Match(text, rest) := ParseString(s);
            LegalItems(items) && s == "\"" + RenderItems(items) + "\"" + rest && text == ItemsValue(items)
  {
    hide StringBody, RenderItems, ItemsValue, LegalItems;
    items := StringBodySplit(s[1..], "");
    assert s == "\"" + s[1..];
    assert "" + ItemsValue(items) == ItemsValue(items);
  }

  lemma CharacterSplit(s: string) returns (item: Item)
    requires ParseCharLiteral(s).Match? && IsText(s)
    ensures var Match(c, rest) := ParseCharLiteral(s);
            LegalLiteral(Character(item)) && s == RenderLiteral(Character(item)) + rest && c == ItemValue(item)
  {
    item := if s[1] != '\\' then Plain(s[1]) else Escaped(s[2]);
    var rest := ParseCharLiteral(s).rest;
    assert s == "'" + RenderItem(item) + "'" + rest;
  }

  lemma DigitsSplit(s: string, radix: nat) returns (digits: string)
    requires ParseDigits(s, radix).Match?
    ensures var Match(n, rest) := ParseDigits(s, radix);
            AllDigits(digits, radix) && s == digits + rest && n == Number(digits, radix)
            && (s != "" && IsRadixDigit(s[0], radix) ==> digits != "" && digits[0] == s[0])
  {
    digits := s[..DigitRun(s, radix)];
  }

  lemma DecimalSplit(s: string, negative: bool) returns (l: Literal)
    requires s != "" && IsDigit(s[0]) && s[0] != '0' && ParseMagnitude(s).Match?
    ensures ReadsAs(l, negative, s)
  {
    assert IsRadixDigit(s[0], 10);
    hide ParseDigits, Number, IsRadixDigit;
    var digits := DigitsSplit(s, 10);
    l := Decimal(negative, digits);
  }

  lemma HexSplit(s: string, negative: bool) returns (l: Literal)
    requires |s| > 2 && s[0] == '0' && (s[1] == 'x' || s[1] == 'X') && ParseMagnitude(s).Match?
    ensures ReadsAs(l, negative, s)
  {
    assert IsRadixDigit(s[2], 16);
    hide ParseDigits, Number, IsRadixDigit;
    var digits := DigitsSplit(s[2..], 16);
    l := Hex(negative, s[1], digits);
    assert s == "0" + [s[1]] + s[2..];
    assert s == "0" + [s[1]] + digits + ParseMagnitude(s).rest;
  }

  lemma OctalSplit(s: string, negative: bool) returns (l: Literal)
    requires |s| > 1 && s[0] == '0' && s[1] != 'x' && s[1] != 'X' && ParseMagnitude(s).Match?
    ensures ReadsAs(l, negative, s)
  {
    hide ParseDigits, IsRadixDigit;
    assert s == "0" + s[1..];
    if IsDigit(s[1]) {
      var digits := DigitsSplit(s[1..], 8);
      l := Octal(negative, digits);
      assert s == "0" + digits + ParseMagnitude(s).rest;
    } else {
      l := Octal(negative, "");
      assert s == "0" + "" + s[1..];
    }
  }

  /** A literal that spells the start of s, from its sign on, and has the value the parser gave it. */
  ghost predicate ReadsAs(l: Literal, negative: bool, s: string)
    requires s != "" && IsDigit(s[0]) && ParseMagnitude(s).Match?
  {
    var Match(n, rest) := ParseMagnitude(s);
    !l.Character? && LegalLiteral(l) && s == Magnitude(l) + rest && n == MagnitudeValue(l) && Negative(l) == negative
  }

  lemma MagnitudeSplit(s: string, negative: bool) returns (l: Literal)
    requires s != "" && IsDigit(s[0]) && ParseMagnitude(s).Match?
    ensures ReadsAs(l, negative, s)
  {
    hide ReadsAs, ParseDigits;
    if s[0] != '0' {
      l := DecimalSplit(s, negative);
    } else if s[1] == 'x' || s[1] == 'X' {
      l := HexSplit(s, negative);
    } else {
      l := OctalSplit(s, negative);
    }
  }

  lemma IntSplit(s: string) returns (l: Literal)
    requires ParseInt(s).Match?
    ensures var Match(n, rest) := ParseInt(s);
            LegalLiteral(l) && s == RenderLiteral(l) + rest && n == LiteralValue(l)
  {
    hide ParseMagnitude, Wrap;
    var negative := s[0] == '-';
    var t := if negative then s[1..] else s;
    l := MagnitudeSplit(t, negative);
    var rest := ParseMagnitude(t).rest;
    RenderedInt(l, rest);
    assert s == Sign(negative) + t;
  }

  lemma NumberSplit(s: string) returns (l: Literal)
    requires ParseNumber(s).Match? && IsText(s)
    ensures var Match(n, rest) := ParseNumber(s);
            LegalLiteral(l) && s == RenderLiteral(l) + rest && n == LiteralValue(l)
  {
    if ParseCharLiteral(s).Match? {
      var item := CharacterSplit(s);
      CharacterValue(item);
      l := Character(item);
      hide ParseInt, ParseCharLiteral;
    } else {
      l := IntSplit(s);
    }
  }

  // ----- structure -----

  lemma TextTail(s: string, front: string, rest: string)
    requires IsText(s) && s == front + rest
    ensures IsText(rest)
  {
    forall i | 0 <= i < |rest| ensures 0 < rest[i] as int < 128 {
      assert rest[i] == s[|front| + i];
    }
  }

  lemma NoCharacterNul(s: string)
    requires IsText(s) && ParseNumber(s).NoMatch?
    ensures ParseNumber(s) == NoMatch(s)
  {
    if ParseCharLiteral(s).Match? {
      var item := CharacterSplit(s);
      CharacterValue(item);
    }
  }

  lemma ValueSplit(s: string) returns (v: ValueText)
    requires ParseValue(s).Match? && IsText(s)
    ensures var Match(value, rest) := ParseValue(s);
            LegalValue(v) && s == RenderValue(v) + rest && value == ValueMeaning(v)
  {
    hide ParseString, ParseNumber, ParseName, RenderItems, RenderLiteral, ItemsValue, LiteralValue, LegalItems,
         LegalLiteral, IsName;
    if ParseString(s).Match? {
      var items := StringSplit(s);
      v := Quoted(items);
    } else if ParseNumber(s).Match? {
      var l := NumberSplit(s);
      v := Numeric(l);
    } else {
      NoCharacterNul(s);
      NameSplit(s);
      v := Bare(ParseName(s).value);
    }
  }

  /** White space and a delimiter, taken off the front. */
  lemma DelimiterSplit(s: string) returns (ws: string)
    requires SkipSpace(s) != ""
    ensures AllSpace(ws) && s == ws + SkipSpace(s) && s == ws + [SkipSpace(s)[0]] + SkipSpace(s)[1..]
  {
    ws := SpaceSplit(s);
  }

  /** An entry and its semicolon, taken off the front of a list of entries. */
  lemma EntrySplit(s: string) returns (e: EntryText, tail: string)
    requires ParseEntry(s).Match? && IsText(s)
    requires var t := SkipSpace(ParseEntry(s).rest); t != "" && t[0] == ';'
    ensures LegalEntry(e) && s == RenderEntry(e) + tail && ParseEntry(s).value == EntryMeaning(e)
    ensures tail == SkipSpace(ParseEntry(s).rest)[1..]
  {
    hide SkipSpace, ParseName, ParseValue, IsName, AllSpace, LegalValue, RenderValue, ValueMeaning, EndsName, IsText;
    var lead := SpaceSplit(s);
    var t := SkipSpace(s);
    NameSplit(t);
    var Match(name, afterName) := ParseName(t);
    var beforeEq := DelimiterSplit(afterName);
    var u := SkipSpace(afterName)[1..];
    var afterEq := SpaceSplit(u);
    var w := SkipSpace(u);
    assert s == (lead + name + beforeEq + "=" + afterEq) + w;
    TextTail(s, lead + name + beforeEq + "=" + afterEq, w);
    var v := ValueSplit(w);
    var afterValue := ParseValue(w).rest;
    var beforeEnd := DelimiterSplit(afterValue);
    tail := SkipSpace(afterValue)[1..];
    e := EntryText(lead, name, beforeEq, afterEq, v, beforeEnd);
    assert s == RenderEntry(e) + tail;
  }

  /** White space put before the first entry. */
  function Indent(ws: string, e: EntryText): EntryText { e.(lead := ws + e.lead) }

  lemma IndentEntry(ws: string, e: EntryText)
    requires AllSpace(ws) && LegalEntry(e)
    ensures var n := Indent(ws, e);
            LegalEntry(n) && RenderEntry(n) == ws + RenderEntry(e) && EntryMeaning(n) == EntryMeaning(e)
  {
    assert e.(lead := e.lead) == e;
    hide RenderEntry, IsName, LegalValue, ValueMeaning;
  }

  lemma IndentEntries(ws: string, e: EntryText, more: seq<EntryText>)
    requires AllSpace(ws) && LegalEntry(e) && forall i :: 0 <= i < |more| ==> LegalEntry(more[i])
    ensures LegalEntry(Indent(ws, e))
    ensures RenderEntries([Indent(ws, e)] + more) == ws + RenderEntries([e] + more)
    ensures EntriesMeaning([Indent(ws, e)] + more) == EntriesMeaning([e] + more)
  {
    hide LegalEntry, RenderEntry, EntryMeaning, AllSpace, RenderEntries, EntriesMeaning, Indent;
    IndentEntry(ws, e);
    RenderEntriesCons(e, more);
    RenderEntriesCons(Indent(ws, e), more);
  }

  lemma RenderEntriesCons(e: EntryText, more: seq<EntryText>)
    requires LegalEntry(e) && forall i :: 0 <= i < |more| ==> LegalEntry(more[i])
    ensures RenderEntries([e] + more) == RenderEntry(e) + RenderEntries(more)
    ensures EntriesMeaning([e] + more) == [EntryMeaning(e)] + EntriesMeaning(more)
  {
    hide LegalEntry, RenderEntry, EntryMeaning;
    assert ([e] + more)[1..] == more;
  }

  /** What an accepted list of entries does after its first entry. */
  lemma EntriesTail(s: string, acc: seq<Entry>, e: EntryText, tail: string)
    requires ParseEntries(s, acc).Match? && LegalEntry(e)
    requires ParseEntry(s).Match? && ParseEntry(s).value == EntryMeaning(e)
      && SkipSpace(ParseEntry(s).rest) == ";" + tail
    ensures var u, acc' := SkipSpace(tail), acc + [EntryMeaning(e)];
            u != "" && ParseEntries(s, acc) == (if u[0] == '}' then Match(acc', u[1..]) else ParseEntries(u, acc'))
  {
    hide ParseEntry, SkipSpace, LegalEntry, EntryMeaning;
    assert (";" + tail)[1..] == tail;
  }

  lemma EntryFirst(s: string, acc: seq<Entry>)
    requires ParseEntries(s, acc).Match?
    ensures ParseEntry(s).Match?
    ensures var t := SkipSpace(ParseEntry(s).rest); t != "" && t[0] == ';' && t == ";" + t[1..]
  {
    hide ParseEntry, SkipSpace;
  }

  /** An entry put before a list of entries, with the white space that was between them. */
  lemma PrependEntry(e: EntryText, ws: string, more: seq<EntryText>, end: string) returns (es: seq<EntryText>)
    requires more != [] && (forall i :: 0 <= i < |more| ==> LegalEntry(more[i])) && LegalEntry(e) && AllSpace(ws)
    ensures es != [] && (forall i :: 0 <= i < |es| ==> LegalEntry(es[i]))
    ensures RenderEntry(e) + (ws + (RenderEntries(more) + end)) == RenderEntries(es) + end
    ensures EntriesMeaning(es) == [EntryMeaning(e)] + EntriesMeaning(more)
  {
    hide LegalEntry, RenderEntry, EntryMeaning, AllSpace, RenderEntries, EntriesMeaning, Indent;
    var first, others := more[0], more[1..];
    IndentEntries(ws, first, others);
    assert more == [first] + others;
    var indented := [Indent(ws, first)] + others;
    es := [e] + indented;
    RenderEntriesCons(e, indented);
  }

  lemma {:induction false} EntriesSplit(s: string, acc: seq<Entry>) returns (es: seq<EntryText>, close: string)
    requires ParseEntries(s, acc).Match? && IsText(s)
    ensures var Match(entries, rest) := ParseEntries(s, acc);
            && es != [] && (forall i :: 0 <= i < |es| ==> LegalEntry(es[i])) && AllSpace(close)
            && s == RenderEntries(es) + (close + "}" + rest) && entries == acc + EntriesMeaning(es)
    decreases |s|
  {
    hide ParseEntries, SkipSpace, ParseEntry, LegalEntry, RenderEntry, EntryMeaning, AllSpace, IsText, RenderEntries,
         EntriesMeaning;
    EntryFirst(s, acc);
    var e, tail := EntrySplit(s);
    EntriesTail(s, acc, e, tail);
    TextTail(s, RenderEntry(e), tail);
    var ws := SpaceSplit(tail);
    var u := SkipSpace(tail);
    if u[0] == '}' {
      es, close := [e], ws;
      RenderEntriesCons(e, []);
      RenderNoEntries();
      assert [e] + [] == es;
      assert tail == ws + "}" + u[1..];
    } else {
      TextTail(tail, ws, u);
      var more;
      more, close := EntriesSplit(u, acc + [EntryMeaning(e)]);
      es := PrependEntry(e, ws, more, close + "}" + ParseEntries(s, acc).rest);
      assert acc + [EntryMeaning(e)] + EntriesMeaning(more) == acc + EntriesMeaning(es);
    }
  }

  lemma RenderNoEntries()
    ensures RenderEntries([]) == "" && EntriesMeaning([]) == []
  {
  }

  lemma TitleSplit(gap: string, s: string) returns (t: TitleText)
    requires ParseTitle(s).Match? && EndsName(gap + s)
    ensures var Match(name, rest) := ParseTitle(s);
            LegalTitle(t, gap) && s == RenderTitle(t) + rest && name == TitleMeaning(t, gap)
  {
    hide LegalItems, RenderItems, ItemsValue, ParseString, NameRun, IsName;
    if ParseName(s).Match? {
      NameSplit(s);
      t := BareTitle(ParseName(s).value);
      assert gap == "" ==> gap + s == s;
    } else {
      var items := StringSplit(s);
      t := QuotedTitle(items);
    }
  }

  /** What an accepted section is made of, read from the front. */
  lemma SectionParts(s: string)
    requires ParseSection(s).Match?
    ensures ParseName(SkipSpace(s)).Match?
    ensures var Match(kind, afterKind) := ParseName(SkipSpace(s));
            && ParseTitle(SkipSpace(afterKind)).Match?
            && var Match(name, afterName) := ParseTitle(SkipSpace(afterKind));
               && SkipSpace(afterName) != "" && SkipSpace(afterName)[0] == '{'
               && var entries := ParseEntries(SkipSpace(afterName)[1..], []);
                  entries.Match? && ParseSection(s) == Match(Section(kind, name, entries.value), entries.rest)
  {
    hide SkipSpace, ParseName, ParseTitle, ParseEntries;
  }

  /** A section up to and including its opening brace. */
  lemma HeadSplit(s: string) returns (t: SectionText, body: string)
    requires ParseSection(s).Match?
    ensures AllSpace(t.lead) && IsName(t.kind) && AllSpace(t.gap) && LegalTitle(t.title, t.gap)
      && AllSpace(t.beforeOpen)
    ensures s == RenderHead(t) + body && ParseEntries(body, []).Match?
    ensures ParseSection(s) == Match(Section(t.kind, TitleMeaning(t.title, t.gap), ParseEntries(body, []).value),
      ParseEntries(body, []).rest)
  {
    hide SkipSpace, ParseName, ParseTitle, ParseSection, ParseEntries, AllSpace, IsName, LegalTitle, TitleMeaning,
         RenderTitle, EndsName;
    SectionParts(s);
    var lead := SpaceSplit(s);
    NameSplit(SkipSpace(s));
    var Match(kind, afterKind) := ParseName(SkipSpace(s));
    var gap := SpaceSplit(afterKind);
    var title := TitleSplit(gap, SkipSpace(afterKind));
    var afterTitle := ParseTitle(SkipSpace(afterKind)).rest;
    var beforeOpen := DelimiterSplit(afterTitle);
    body := SkipSpace(afterTitle)[1..];
    t := SectionText(lead, kind, gap, title, beforeOpen, [], "", "");
    assert afterTitle == beforeOpen + ("{" + body);
    assert lead + kind + gap + RenderTitle(title) + beforeOpen + ("{" + body) == RenderHead(t) + body;
  }

  /** A section with the white space around it, taken off the front. */
  lemma SectionSplit(s: string) returns (t: SectionText)
    requires ParseSection(s).Match? && IsText(s)
    ensures var Match(section, rest) := ParseSection(s);
            LegalSection(t) && s == RenderSection(t) + SkipSpace(rest) && section == SectionMeaning(t)
  {
    hide SkipSpace, ParseSection, ParseEntries, AllSpace, IsName, LegalTitle, TitleMeaning, RenderHead, RenderEntries,
         LegalEntry, IsText, EntriesMeaning;
    var head, body := HeadSplit(s);
    TextTail(s, RenderHead(head), body);
    var es, close := EntriesSplit(body, []);
    var Match(entries, rest) := ParseEntries(body, []);
    assert [] + EntriesMeaning(es) == EntriesMeaning(es);
    var after := SpaceSplit(rest);
    t := head.(entries := es, beforeClose := close, after := after);
    HeadKept(head, t);
  }

  lemma HeadKept(t: SectionText, u: SectionText)
    requires u == t.(entries := u.entries, beforeClose := u.beforeClose, after := u.after)
    ensures RenderHead(u) == RenderHead(t)
  {
  }

  lemma SectionsFirst(s: string, acc: seq<Section>)
    requires ParseSections(s, acc).Match?
    ensures ParseSection(s).Match?
    ensures var Match(section, rest) := ParseSection(s);
            var t, acc' := SkipSpace(rest), acc + [section];
            && t != "" && (t[0] == '}' || t[0] == ',') && t == [t[0]] + t[1..]
            && ParseSections(s, acc) == (if t[0] == '}' then Match(acc', t[1..]) else ParseSections(t[1..], acc'))
  {
    hide ParseSection, SkipSpace;
  }

  lemma RenderSectionsCons(t: SectionText, more: seq<SectionText>)
    requires LegalSection(t) && forall i :: 0 <= i < |more| ==> LegalSection(more[i])
    ensures RenderSections([t] + more) ==
      if more == [] then RenderSection(t) else RenderSection(t) + "," + RenderSections(more)
    ensures SectionsMeaning([t] + more) == [SectionMeaning(t)] + SectionsMeaning(more)
  {
    hide LegalSection, RenderSection, SectionMeaning;
    assert ([t] + more)[1..] == more;
  }

  lemma {:induction false} SectionsSplit(s: string, acc: seq<Section>) returns (ts: seq<SectionText>)
    requires ParseSections(s, acc).Match? && IsText(s)
    ensures ts != [] && forall i :: 0 <= i < |ts| ==> LegalSection(ts[i])
    ensures var Match(sections, rest) := ParseSections(s, acc);
            s == RenderSections(ts) + "}" + rest && sections == acc + SectionsMeaning(ts)
    decreases |s|
  {
    hide ParseSections, ParseSection, SkipSpace, LegalSection, RenderSection, SectionMeaning, IsText, RenderSections,
         SectionsMeaning;
    SectionsFirst(s, acc);
    var t := SectionSplit(s);
    var tail := SkipSpace(ParseSection(s).rest);
    if tail[0] == '}' {
      ts := [t];
      RenderSectionsCons(t, []);
      SectionsMeaningNone();
      assert [t] + [] == ts;
    } else {
      TextTail(s, RenderSection(t) + [tail[0]], tail[1..]);
      var more := SectionsSplit(tail[1..], acc + [SectionMeaning(t)]);
      ts := [t] + more;
      RenderSectionsCons(t, more);
      var rest := ParseSections(s, acc).rest;
      assert RenderSection(t) + ("," + (RenderSections(more) + "}" + rest)) == RenderSections(ts) + "}" + rest;
      assert acc + [SectionMeaning(t)] + SectionsMeaning(more) == acc + SectionsMeaning(ts);
    }
  }

  lemma SectionsMeaningNone()
    ensures SectionsMeaning([]) == []
  {
  }

  lemma FileParts(s: string)
    requires ParseFile(s).Match?
    ensures ParseName(SkipSpace(s)).Match?
    ensures var Match(name, rest) := ParseName(SkipSpace(s));
            && SkipSpace(rest) != "" && SkipSpace(rest)[0] == '{'
            && ParseSections(SkipSpace(rest)[1..], []).Match?
            && var Match(sections, rest') := ParseSections(SkipSpace(rest)[1..], []);
               ParseFile(s) == Match(File(name, sections), rest')
  {
    hide SkipSpace, ParseName, ParseSections;
  }

  /** Accepted text is a legal rendering of the file that was read, followed by the unread rest. */
  lemma FileSplit(s: string) returns (f: FileText)
    requires ParseFile(s).Match? && IsText(s)
    ensures LegalFile(f) && s == RenderFile(f) + ParseFile(s).rest && ParseFile(s).value == FileMeaning(f)
  {
    hide SkipSpace, ParseName, ParseFile, ParseSections, AllSpace, IsName, LegalSection, RenderSections,
         SectionsMeaning, IsText, EndsName;
    FileParts(s);
    var lead := SpaceSplit(s);
    NameSplit(SkipSpace(s));
    var Match(name, rest) := ParseName(SkipSpace(s));
    var beforeOpen := DelimiterSplit(rest);
    var body := SkipSpace(rest)[1..];
    assert s == (lead + name + beforeOpen + "{") + body;
    TextTail(s, lead + name + beforeOpen + "{", body);
    var ts := SectionsSplit(body, []);
    assert [] + SectionsMeaning(ts) == SectionsMeaning(ts);
    f := FileText(lead, name, beforeOpen, ts);
  }

  ghost predicate Denotes(s: string, f: File, rest: string) {
    exists c: FileText :: LegalFile(c) && s == RenderFile(c) + rest && FileMeaning(c) == f
  }

  /** The parser accepts exactly the legal renderings, and each only for what it denotes. */
  lemma ParsesExactlyRenderings(s: string, f: File, rest: string)
    requires IsText(s)
    ensures ParseFile(s) == Match(f, rest) <==> Denotes(s, f, rest)
  {
    hide LegalFile, RenderFile, FileMeaning, ParseFile, IsText;
    if ParseFile(s) == Match(f, rest) {
      var c := FileSplit(s);
    }
    if Denotes(s, f, rest) {
      var c: FileText :| LegalFile(c) && s == RenderFile(c) + rest && FileMeaning(c) == f;
      ParseFileOver(c, rest);
    }
  }
}
