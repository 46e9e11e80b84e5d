/**
 Every way of writing a configuration down: where white space goes, which characters of a string are
 escaped, which literal form and radix a number takes, whether a name is quoted.
 */
module CfgRendering {
  import opened CfgGrammar

  /** One character of a string or character literal: itself, or a backslash and its escape letter. */
  datatype Item = Plain(c: char) | Escaped(letter: char)

  datatype Literal =
    | Character(item: Item)
    | Decimal(negative: bool, digits: string)
    | Octal(negative: bool, digits: string)
    | Hex(negative: bool, x: char, digits: string)

  datatype ValueText = Quoted(items: seq<Item>) | Numeric(literal: Literal) | Bare(name: string)

  datatype EntryText = EntryText(lead: string, name: string, beforeEq: string, afterEq: string, value: ValueText,
    beforeEnd: string)

  datatype TitleText = BareTitle(name: string) | QuotedTitle(items: seq<Item>)

  datatype SectionText = SectionText(lead: string, kind: string, gap: string, title: TitleText, beforeOpen: string,
                                     entries: seq<EntryText>, beforeClose: string, after: string)

  datatype FileText = FileText(lead: string, name: string, beforeOpen: string, sections: seq<SectionText>)

  // ----- which renderings are legal -----

  predicate AllSpace(s: string) { forall i :: 0 <= i < |s| ==> IsSpace(s[i]) }

  predicate IsName(s: string) { s != "" && IsAlpha(s[0]) && forall i :: 0 <= i < |s| ==> IsNameChar(s[i]) }

  predicate AllDigits(s: string, radix: nat) { forall i :: 0 <= i < |s| ==> IsRadixDigit(s[i], radix) }

  /** In a string, a quote or a backslash must be escaped. */
  predicate LegalItem(item: Item) {
    match item
    case Plain(c) => c != '\"' && c != '\\'
    case Escaped(letter) => MapEsc(letter).Some?
  }

  predicate LegalItems(items: seq<Item>) { forall i :: 0 <= i < |items| ==> LegalItem(items[i]) }

  predicate LegalLiteral(l: Literal) {
    match l
    case Character(Plain(c)) => c != '\\' && 0 < c as int < 256
    case Character(Escaped(letter)) => MapEsc(letter).Some?
    case Decimal(_, digits) => digits != "" && AllDigits(digits, 10) && digits[0] != '0'
    case Octal(_, digits) => AllDigits(digits, 8)
    case Hex(_, x, digits) => (x == 'x' || x == 'X') && digits != "" && AllDigits(digits, 16)
  }

  predicate LegalValue(v: ValueText) {
    match v
    case Quoted(items) => LegalItems(items)
    case Numeric(l) => LegalLiteral(l)
    case Bare(name) => IsName(name)
  }

  predicate LegalEntry(e: EntryText) {
    AllSpace(e.lead) && IsName(e.name) && AllSpace(e.beforeEq) && AllSpace(e.afterEq) && LegalValue(e.value)
      && AllSpace(e.beforeEnd)
  }

  predicate LegalTitle(t: TitleText, gap: string) {
    match t
    case BareTitle(name) => IsName(name) && gap != ""
    case QuotedTitle(items) => LegalItems(items)
  }

  predicate LegalSection(s: SectionText) {
    && AllSpace(s.lead) && IsName(s.kind) && AllSpace(s.gap) && LegalTitle(s.title, s.gap) && AllSpace(s.beforeOpen)
    && s.entries != [] && (forall i :: 0 <= i < |s.entries| ==> LegalEntry(s.entries[i]))
    && AllSpace(s.beforeClose) && AllSpace(s.after)
  }

  predicate LegalFile(f: FileText) {
    && AllSpace(f.lead) && IsName(f.name) && AllSpace(f.beforeOpen)
    && f.sections != [] && forall i :: 0 <= i < |f.sections| ==> LegalSection(f.sections[i])
  }

  // ----- the text of a rendering -----

  function RenderItem(item: Item): string {
    match item
    case Plain(c) => [c]
    case Escaped(letter) => ['\\', letter]
  }

  function RenderItems(items: seq<Item>): string {
    if items == [] then "" else RenderItem(items[0]) + RenderItems(items[1..])
  }

  function Sign(negative: bool): string { if negative then "-" else "" }

  function RenderLiteral(l: Literal): string {
    match l
    case Character(item) => "'" + RenderItem(item) + "'"
    case Decimal(negative, digits) => Sign(negative) + digits
    case Octal(negative, digits) => Sign(negative) + "0" + digits
    case Hex(negative, x, digits) => Sign(negative) + "0" + [x] + digits
  }

  function RenderValue(v: ValueText): string {
    match v
    case Quoted(items) => "\"" + RenderItems(items) + "\""
    case Numeric(l) => RenderLiteral(l)
    case Bare(name) => name
  }

  /** One entry with the white space around it, up to its semicolon. */
  function RenderEntry(e: EntryText): string {
    e.lead + e.name + e.beforeEq + "=" + e.afterEq + RenderValue(e.value) + e.beforeEnd + ";"
  }

  function RenderEntries(es: seq<EntryText>): string {
    if es == [] then "" else RenderEntry(es[0]) + RenderEntries(es[1..])
  }

  function RenderTitle(t: TitleText): string {
    match t
    case BareTitle(name) => name
    case QuotedTitle(items) => "\"" + RenderItems(items) + "\""
  }

  function RenderHead(s: SectionText): string {
    s.lead + s.kind + s.gap + RenderTitle(s.title) + s.beforeOpen + "{"
  }

  function RenderBody(s: SectionText): string {
    RenderEntries(s.entries) + s.beforeClose + "}" + s.after
  }

  function RenderSection(s: SectionText): string {
    RenderHead(s) + RenderBody(s)
  }

  function RenderSections(ss: seq<SectionText>): string
    requires ss != []
  {
    if |ss| == 1 then RenderSection(ss[0]) else RenderSection(ss[0]) + "," + RenderSections(ss[1..])
  }

  function RenderFile(f: FileText): string
    requires LegalFile(f)
  {
    f.lead + f.name + f.beforeOpen + "{" + RenderSections(f.sections) + "}"
  }

  // ----- what a rendering denotes -----

  function ItemValue(item: Item): char
    requires LegalItem(item) || item.Plain?
  {
    match item
    case Plain(c) => c
    case Escaped(letter) => MapEsc(letter).value
  }

  function ItemsValue(items: seq<Item>): string
    requires LegalItems(items)
  {
    if items == [] then "" else [ItemValue(items[0])] + ItemsValue(items[1..])
  }

  function LiteralValue(l: Literal): nat
    requires LegalLiteral(l)
  {
    match l
    case Character(item) => ItemValue(item) as int
    case Decimal(negative, digits) => Wrap(negative, Number(digits, 10))
    case Octal(negative, digits) => Wrap(negative, Number(digits, 8))
    case Hex(negative, _, digits) => Wrap(negative, Number(digits, 16))
  }

  function ValueMeaning(v: ValueText): Value
    requires LegalValue(v)
  {
    match v
    case Quoted(items) => Text(ItemsValue(items))
    case Numeric(l) => Int64(LiteralValue(l))
    case Bare(name) => Text(name)
  }

  function EntryMeaning(e: EntryText): Entry
    requires LegalEntry(e)
  {
    Entry(e.name, ValueMeaning(e.value))
  }

  function TitleMeaning(t: TitleText, gap: string): string
    requires LegalTitle(t, gap)
  {
    match t
    case BareTitle(name) => name
    case QuotedTitle(items) => ItemsValue(items)
  }

  function EntriesMeaning(es: seq<EntryText>): seq<Entry>
    requires forall i :: 0 <= i < |es| ==> LegalEntry(es[i])
  {
    if es == [] then [] else [EntryMeaning(es[0])] + EntriesMeaning(es[1..])
  }

  function SectionMeaning(s: SectionText): Section
    requires LegalSection(s)
  {
    Section(s.kind, TitleMeaning(s.title, s.gap), EntriesMeaning(s.entries))
  }

  function SectionsMeaning(ss: seq<SectionText>): seq<Section>
    requires forall i :: 0 <= i < |ss| ==> LegalSection(ss[i])
  {
    if ss == [] then [] else [SectionMeaning(ss[0])] + SectionsMeaning(ss[1..])
  }

  function FileMeaning(f: FileText): File
    requires LegalFile(f)
  {
    File(f.name, SectionsMeaning(f.sections))
  }
}
