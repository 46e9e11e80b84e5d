/** Entries, sections and files, accepted from a scanner; a file's sections go on a linked list as they are read. */
module CfgParser {
  import opened Options
  import opened CfgGrammar
  import opened CfgScanner
  import opened CfgTokens
  import opened CfgLists

  /** A string, else a number, else a name; anything else ends the program. */
  method AcceptValue(s: Scanner) returns (r: Outcome<Value>)
    requires s.Valid()
    modifies s
    ensures s.Valid() && Meets(r, ParseValue(old(s.Rest())), s.Rest())
  {
    hide Scanner.Valid, Scanner.Rest, ParseString, ParseNumber, ParseName;
    var text := AcceptString(s);
    if text.Exit? {
      return Exit;
    } else if text.Got? {
      return Got(Text(text.value));
    }
    var n := AcceptNumber(s);
    if n.Exit? {
      return Exit;
    } else if n.Got? {
      return Got(Int64(n.value));
    }
    var name := AcceptName(s);
    return if name.Got? then Got(Text(name.value)) else Exit;
  }

  method AcceptEntry(s: Scanner) returns (r: Outcome<Entry>)
    requires s.Valid()
    modifies s
    ensures s.Valid() && Meets(r, ParseEntry(old(s.Rest())), s.Rest())
  {
    hide Scanner.Valid, Scanner.Rest, SkipSpace, ParseName, ParseValue;
    AcceptWhitespace(s);
    var name := AcceptName(s);
    if !name.Got? {
      return if name.Exit? then Exit else Absent;
    }
    AcceptWhitespace(s);
    var ok := s.ExpectChar('=');
    if !ok {
      return Exit;
    }
    AcceptWhitespace(s);
    var v := AcceptValue(s);
    return if v.Got? then Got(Entry(name.value, v.value)) else Exit;
  }

  /** A section's name is tried as a name first and as a string second. */
  method AcceptTitle(s: Scanner) returns (r: Outcome<string>)
    requires s.Valid()
    modifies s
    ensures s.Valid() && Meets(r, ParseTitle(old(s.Rest())), s.Rest())
  {
    hide Scanner.Valid, Scanner.Rest, ParseString, ParseName;
    r := AcceptName(s);
    if r.Absent? {
      r := AcceptString(s);
    }
  }

  method AcceptEntries(s: Scanner) returns (r: Outcome<seq<Entry>>)
    requires s.Valid()
    modifies s
    ensures s.Valid() && Meets(r, ParseEntries(old(s.Rest()), []), s.Rest())
  {
    hide Scanner.Valid, Scanner.Rest, SkipSpace, ParseEntry;
    var entries: seq<Entry> := [];
    while true
      invariant s.Valid() && ParseEntries(old(s.Rest()), []) == ParseEntries(s.Rest(), entries)
      decreases |s.Rest()|
    {
      var entry := AcceptEntry(s);
      if !entry.Got? {
        return Exit;
      }
      entries := entries + [entry.value];
      AcceptWhitespace(s);
      var semicolon := s.AcceptChar(';');
      if semicolon != Some(true) {
        return Exit;
      }
      AcceptWhitespace(s);
      var close := s.AcceptChar('}');
      if close.None? {
        return Exit;
      }
      if close.value {
        break;
      }
    }
    return Got(entries);
  }

  method AcceptSection(s: Scanner) returns (r: Outcome<Section>)
    requires s.Valid()
    modifies s
    ensures s.Valid() && Meets(r, ParseSection(old(s.Rest())), s.Rest())
  {
    hide Scanner.Valid, Scanner.Rest, SkipSpace, ParseName, ParseTitle, ParseEntries;
    AcceptWhitespace(s);
    var kind := AcceptName(s);
    if !kind.Got? {
      return if kind.Exit? then Exit else Absent;
    }
    AcceptWhitespace(s);
    var name := AcceptTitle(s);
    if !name.Got? {
      return Exit;
    }
    AcceptWhitespace(s);
    var ok := s.ExpectChar('{');
    if !ok {
      return Exit;
    }
    var entries := AcceptEntries(s);
    return if entries.Got? then Got(Section(kind.value, name.value, entries.value)) else Exit;
  }

  /** The file's list, from its first section to its last. */
  ghost predicate Holds(file: FileNode, nodes: seq<SectionNode>)
    reads file, nodes
  {
    && Linked(nodes, null)
    && file.first == Head(nodes, null)
    && file.last == if nodes == [] then null else nodes[|nodes| - 1]
  }

  method AppendSection(file: FileNode, ghost nodes: seq<SectionNode>, section: Section)
    returns (ghost longer: seq<SectionNode>)
    requires Holds(file, nodes)
    modifies file, nodes
    ensures Holds(file, longer) && |longer| == |nodes| + 1 && longer[..|nodes|] == nodes && fresh(longer[|nodes|])
    ensures Contents(longer) == Contents(nodes) + [section]
  {
    var node := new SectionNode(section);
    if file.last == null {
      file.first := node;
    } else {
      file.last.next := node;
    }
    file.last := node;
    longer := nodes + [node];
    ContentsConcat(nodes, [node]);
    hide Contents;
  }

  method AcceptSections(s: Scanner, file: FileNode) returns (ok: bool, ghost nodes: seq<SectionNode>)
    requires s.Valid() && Holds(file, [])
    modifies s, file
    ensures s.Valid() && Holds(file, nodes) && fresh(nodes)
    ensures match ParseSections(old(s.Rest()), [])
            case Match(sections, rest) => ok && Contents(nodes) == sections && s.Rest() == rest
            case _ => !ok
  {
    hide Scanner.Valid, Scanner.Rest, SkipSpace, ParseSection, Holds, Contents;
    nodes := [];
    while true
      invariant s.Valid() && Holds(file, nodes) && fresh(nodes)
      invariant ParseSections(old(s.Rest()), []) == ParseSections(s.Rest(), Contents(nodes))
      decreases |s.Rest()|
    {
      var section := AcceptSection(s);
      if !section.Got? {
        return false, nodes;
      }
      nodes := AppendSection(file, nodes, section.value);
      AcceptWhitespace(s);
      var close := s.AcceptChar('}');
      if close.None? {
        return false, nodes;
      }
      if close.value {
        break;
      }
      var comma := s.AcceptChar(',');
      if comma != Some(true) {
        return false, nodes;
      }
    }
    ok := true;
  }

  method AcceptFile(s: Scanner) returns (r: Outcome<FileNode>, ghost nodes: seq<SectionNode>)
    requires s.Valid()
    modifies s
    ensures s.Valid()
    ensures match ParseFile(old(s.Rest()))
            case Fatal => r.Exit?
            case NoMatch(_) => r.Absent?
            case Match(f, rest) => r.Got? && s.Rest() == rest && r.value.name == f.name && Contents(nodes) == f.sections
    ensures r.Got? ==> fresh(r.value) && fresh(nodes) && Holds(r.value, nodes)
  {
    hide Scanner.Valid, Scanner.Rest, SkipSpace, ParseName, ParseSections, Contents;
    nodes := [];
    AcceptWhitespace(s);
    var name := AcceptName(s);
    if !name.Got? {
      return if name.Exit? then Exit else Absent, [];
    }
    AcceptWhitespace(s);
    var ok := s.ExpectChar('{');
    if !ok {
      return Exit, [];
    }
    var file := new FileNode(name.value);
    ok, nodes := AcceptSections(s, file);
    return if ok then Got(file) else Exit, nodes;
  }
}
