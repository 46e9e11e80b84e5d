/** Loading a configuration: parse the file, then splice the sections of every included file into the list. */
module CfgLoader {
  import opened Options
  import opened CfgGrammar
  import opened CfgScanner
  import opened CfgLists
  import opened CfgInclude
  import CfgParser

  /** Where the list of an included file is cut: after the node its last pointer names. */
  ghost predicate CutAt(file: FileNode, nodes: seq<SectionNode>, kept: seq<SectionNode>)
    reads file, nodes
  {
    && kept != [] && kept <= nodes && Linked(nodes, null)
    && file.first == nodes[0] && file.last == kept[|kept| - 1]
  }

  lemma SplicedDistinct(before: seq<SectionNode>, kept: seq<SectionNode>, after: seq<SectionNode>)
    requires Distinct(before + after) && Distinct(kept)
    requires forall i, j :: 0 <= i < |before + after| && 0 <= j < |kept| ==> (before + after)[i] != kept[j]
    ensures Distinct(before + kept + after)
  {
    var all, spliced := before + after, before + kept + after;
    forall i, j | 0 <= i < j < |spliced|
      ensures spliced[i] != spliced[j]
    {
      assert i < |before| ==> spliced[i] == all[i];
      assert i >= |before| + |kept| ==> spliced[i] == all[i - |kept|];
      assert j < |before| ==> spliced[j] == all[j];
      assert j >= |before| + |kept| ==> spliced[j] == all[j - |kept|];
    }
  }

  /** Splice the kept part of an included list in after the insert point. */
  method Splice(insertPoint: SectionNode, included: FileNode, ghost before: seq<SectionNode>,
                ghost after: seq<SectionNode>, ghost nodes: seq<SectionNode>,
                ghost kept: seq<SectionNode>)
    requires Linked(before + after, null) && before != [] && before[|before| - 1] == insertPoint
    requires CutAt(included, nodes, kept)
    requires forall i, j :: 0 <= i < |before + after| && 0 <= j < |nodes| ==> (before + after)[i] != nodes[j]
    modifies insertPoint, kept
    ensures Linked(before + kept + after, null)
  {
    ghost var all, last, cut := before + after, |before| - 1, |kept| - 1;
    assert all[last] == insertPoint && nodes[cut] == kept[cut] && nodes[0] == kept[0];
    assert all[last] != nodes[cut];
    included.last.next := insertPoint.next;
    insertPoint.next := included.first;
    SplicedDistinct(before, kept, after);
    ghost var spliced := before + kept + after;
    forall i | 0 <= i < |spliced|
      ensures spliced[i].next == Follower(spliced, i, null)
    {
      if i < last {
        assert spliced[i] == all[i] && all[i] != nodes[cut] && spliced[i + 1] == all[i + 1];
      } else if i == last {
        assert spliced[i] == insertPoint && spliced[i + 1] == kept[0];
      } else if i < last + |kept| {
        var j := i - |before|;
        assert spliced[i] == nodes[j] && all[last] != nodes[j] && spliced[i + 1] == nodes[j + 1];
      } else if i == last + |kept| {
        assert spliced[i] == nodes[cut];
        assert i + 1 < |spliced| ==> spliced[i + 1] == all[last + 1];
      } else {
        var j := i - |kept|;
        assert spliced[i] == all[j] && all[j] != nodes[cut];
        assert i + 1 < |spliced| ==> spliced[i + 1] == all[j + 1];
      }
    }
  }

  lemma CutFacts(file: FileNode, nodes: seq<SectionNode>, kept: seq<SectionNode>)
    requires CutAt(file, nodes, kept)
    ensures kept != [] && kept <= nodes && file.last == kept[|kept| - 1]
  {
  }

  lemma NoContents(all: Option<seq<Section>>)
    ensures Join(Some(Contents([])), all) == all
  {
    JoinUnit(all);
  }

  ghost predicate AllAcyclic(fs: Files, names: seq<string>, depth: nat) {
    forall q :: q in names ==> depth > 0 && Acyclic(fs, q, depth - 1)
  }

  lemma AcyclicNext(fs: Files, q: string, more: seq<string>, depth: nat)
    requires AllAcyclic(fs, [q] + more, depth)
    ensures depth > 0 && Acyclic(fs, q, depth - 1) && AllAcyclic(fs, more, depth)
  {
    hide Acyclic;
    assert q in [q] + more;
    assert forall r :: r in more ==> r in [q] + more;
  }

  lemma NamedNext(entries: seq<Entry>, j: nat)
    requires j < |entries|
    ensures Named(entries[j..])
      == (if entries[j].value.Text? then [entries[j].value.text] else []) + Named(entries[j + 1..])
    ensures !entries[j].value.Text? ==> Named(entries[j..]) == Named(entries[j + 1..])
  {
    assert entries[j..][1..] == entries[j + 1..];
  }

  lemma NextIncluded(fs: Files, depth: nat, q: string, more: seq<string>, sofar: seq<Section>)
    requires depth > 0
    ensures var inc, k := Included(fs, depth), Kept(fs, q, depth - 1);
      if k.None? then Join(Some(sofar), All([q] + more, inc)) == None
      else Join(Some(sofar), All([q] + more, inc)) == Join(Some(sofar + k.value), All(more, inc))
  {
    hide Kept;
    assert ([q] + more)[1..] == more;
    JoinAssociative(Some(sofar), Kept(fs, q, depth - 1), All(more, Included(fs, depth)));
  }

  lemma AllLoaded(inc: string -> Option<seq<Section>>, sofar: seq<Section>)
    ensures Join(Some(sofar), All(Named([]), inc)) == Some(sofar)
  {
    JoinUnit(Some(sofar));
  }

  /** The list around an include section while its files are spliced in one by one. */
  ghost predicate Around(before: seq<SectionNode>, mid: seq<SectionNode>, after: seq<SectionNode>,
                         insertPoint: SectionNode)
    reads before, mid, after
  {
    && before != [] && Linked(before + mid + after, null)
    && insertPoint == if mid == [] then before[|before| - 1] else mid[|mid| - 1]
  }

  /**
   The loader has come to section i of the file's own sections: nodes is the list before it, expanded; kept is
   the part of that list up to the section before.
   */
  ghost predicate Progress(own: seq<SectionNode>, i: nat, nodes: seq<SectionNode>, kept: seq<SectionNode>,
                           inc: string -> Option<seq<Section>>)
    requires i <= |own|
    reads nodes, own
  {
    && Linked(nodes + own[i..], null)
    && Expand(Contents(own)[..i], inc) == Some(Contents(nodes))
    && if i == 0 then nodes == [] else KeptSoFar(own, i - 1, nodes, kept, inc)
  }

  ghost predicate KeptSoFar(own: seq<SectionNode>, i: nat, nodes: seq<SectionNode>, kept: seq<SectionNode>,
                            inc: string -> Option<seq<Section>>)
    requires i < |own|
  {
    && kept != [] && kept <= nodes && kept[|kept| - 1] == own[i] && nodes[0] == own[0]
    && All(Names(own[i].section), inc).Some?
    && Join(Expand(Contents(own)[..i], inc), Some([own[i].section])) == Some(Contents(kept))
  }

  lemma ProgressStart(own: seq<SectionNode>, inc: string -> Option<seq<Section>>)
    requires Linked(own, null)
    ensures Progress(own, 0, [], [], inc)
  {
    hide Linked;
    assert [] + own[0..] == own;
  }

  /** The list around section i. */
  lemma ProgressNext(own: seq<SectionNode>, i: nat, nodes: seq<SectionNode>, kept: seq<SectionNode>,
                     inc: string -> Option<seq<Section>>)
    requires i < |own| && Progress(own, i, nodes, kept, inc)
    ensures Around(nodes + [own[i]], [], own[i + 1..], own[i]) && Linked(nodes + [own[i]] + [] + own[i + 1..], null)
    ensures Expand(Contents(own)[..i], inc) == Some(Contents(nodes))
    ensures if i == 0 then nodes == [] else nodes != [] && nodes[0] == own[0]
    ensures own[i].next == if i + 1 < |own| then own[i + 1] else null
  {
    hide Expand, Contents, All, Names;
    var all := nodes + own[i..];
    assert nodes + [own[i]] + [] + own[i + 1..] == all;
    assert all[|nodes|] == own[i] && (i + 1 < |own| ==> all[|nodes| + 1] == own[i + 1]);
  }

  lemma ExpandStep(ss: seq<Section>, i: nat, sofar: seq<Section>, mid: seq<Section>,
                   inc: string -> Option<seq<Section>>)
    requires i < |ss| && Expand(ss[..i], inc) == Some(sofar) && All(Names(ss[i]), inc) == Some(mid)
    ensures Expand(ss[..i + 1], inc) == Some(sofar + [ss[i]] + mid)
    ensures Join(Expand(ss[..i], inc), Some([ss[i]])) == Some(sofar + [ss[i]])
  {
    hide Expand, All, Names;
    ExpandLast(ss[..i], ss[i], inc);
    assert ss[..i + 1] == ss[..i] + [ss[i]];
    assert sofar + [ss[i]] + mid == sofar + ([ss[i]] + mid);
  }

  lemma ContentsStep(nodes: seq<SectionNode>, node: SectionNode, mid: seq<SectionNode>)
    ensures Contents(nodes + [node]) == Contents(nodes) + [node.section]
    ensures Contents(nodes + [node] + mid) == Contents(nodes) + [node.section] + Contents(mid)
  {
    ContentsConcat(nodes + [node], mid);
    ContentsConcat(nodes, [node]);
  }

  lemma ProgressStep(own: seq<SectionNode>, i: nat, nodes: seq<SectionNode>, mid: seq<SectionNode>,
                     inc: string -> Option<seq<Section>>)
    requires i < |own| && Expand(Contents(own)[..i], inc) == Some(Contents(nodes))
    requires if i == 0 then nodes == [] else nodes != [] && nodes[0] == own[0]
    requires Linked(nodes + [own[i]] + mid + own[i + 1..], null)
    requires All(Names(own[i].section), inc) == Some(Contents(mid))
    ensures Progress(own, i + 1, nodes + [own[i]] + mid, nodes + [own[i]], inc)
  {
    hide Linked, Contents, Expand, All, Names, Join;
    ContentsAt(own, i);
    ExpandStep(Contents(own), i, Contents(nodes), Contents(mid), inc);
    ContentsStep(nodes, own[i], mid);
  }

  lemma SectionAcyclic(fs: Files, path: string, depth: nat, own: seq<SectionNode>, i: nat)
    requires i < |own| && SectionsOf(fs, path) == Some(Contents(own)) && Acyclic(fs, path, depth)
    ensures AllAcyclic(fs, Names(own[i].section), depth)
  {
    hide SectionsOf, Mentions, Names, Contents;
    ContentsAt(own, i);
    forall q | q in Names(own[i].section)
      ensures depth > 0 && Acyclic(fs, q, depth - 1)
    {
      MentionsAt(Contents(own), i, q);
      assert Includes(fs, path, q);
    }
  }

  lemma NoIncludes(s: Section, inc: string -> Option<seq<Section>>)
    ensures s.kind == "include" ==> Names(s) == Named(s.entries)
    ensures s.kind != "include" ==> All(Names(s), inc) == Some(Contents([]))
  {
  }

  lemma SectionFails(own: seq<SectionNode>, i: nat, inc: string -> Option<seq<Section>>)
    requires i < |own| && All(Names(own[i].section), inc).None?
    ensures Expand(Contents(own), inc).None?
  {
    ContentsAt(own, i);
    if Expand(Contents(own), inc).Some? {
      ExpandNeedsSection(Contents(own), i, inc);
    }
  }

  lemma ProgressExpands(own: seq<SectionNode>, nodes: seq<SectionNode>, kept: seq<SectionNode>,
                        inc: string -> Option<seq<Section>>)
    requires Progress(own, |own|, nodes, kept, inc)
    ensures Expand(Contents(own), inc) == Some(Contents(nodes))
  {
    hide Linked, Expand, Contents, KeptSoFar;
    assert Contents(own)[..|own|] == Contents(own);
  }

  lemma Finished(fs: Files, path: string, depth: nat, file: FileNode, own: seq<SectionNode>,
                 nodes: seq<SectionNode>, kept: seq<SectionNode>)
    requires own != [] && SectionsOf(fs, path) == Some(Contents(own))
      && Progress(own, |own|, nodes, kept, Included(fs, depth))
    requires file.first == own[0] && file.last == own[|own| - 1]
    ensures Loaded(fs, path, depth) == Some(Contents(nodes)) && Kept(fs, path, depth) == Some(Contents(kept))
    ensures CutAt(file, nodes, kept)
  {
    hide SectionsOf, Expand, All, Names, Included, Linked, Contents, Join;
    ProgressExpands(own, nodes, kept, Included(fs, depth));
    ContentsAt(own, |own| - 1);
    assert nodes + own[|own|..] == nodes;
  }

  lemma OwnList(file: FileNode, own: seq<SectionNode>)
    requires CfgParser.Holds(file, own) && Contents(own) != []
    ensures Linked(own, null) && own != [] && file.first == own[0] && file.last == own[|own| - 1]
  {
    hide Linked;
  }

  lemma LoadedExpands(fs: Files, path: string, depth: nat, own: seq<SectionNode>)
    requires SectionsOf(fs, path) == Some(Contents(own))
    ensures Loaded(fs, path, depth) == Expand(Contents(own), Included(fs, depth))
  {
    hide SectionsOf, Expand, Contents;
  }

  /** The position after a file is the one before it moved over everything that was read of it. */
  ghost predicate CountsOn(before: Position, after: Position, text: string) {
    var r := ParseFile(text);
    r.Match? && |r.rest| <= |text| && after == Counted(before, text[..|text| - |r.rest|])
  }

  class Loader {
    const files: Files
    /** The parser's line and column; they are not reset between files. */
    var line: int
    var col: int
    var lastCol: int

    constructor (files: Files)
      ensures this.files == files && line == 1 && col == 0
    {
      this.files, line, col, lastCol := files, 1, 0, 0;
    }

    /** Open and parse one file. The position afterwards counts on from before, over all that was read. */
    method ParseConfig(path: string) returns (file: FileNode?, ghost own: seq<SectionNode>)
      modifies this
      ensures file == null <==> SectionsOf(files, path).None?
      ensures file != null ==> fresh(file) && fresh(own)
      ensures file != null ==> CfgParser.Holds(file, own) && Contents(own) == SectionsOf(files, path).value
      ensures file != null ==>
                path in files && CountsOn(Position(old(line), old(col)), Position(line, col), files[path])
    {
      hide CfgParser.Holds, Contents, ParseFile, Scanner.Valid, Scanner.Rest;
      own := [];
      if path !in files {
        return null, [];
      }
      var input := new Scanner(files[path], line, col, lastCol);
      var r;
      r, own := CfgParser.AcceptFile(input);
      input.PositionByRest();
      line, col, lastCol := input.line, input.col, input.lastCol;
      file := if r.Got? then r.value else null;
    }

    /** Load one file and splice it in at the insert point, which moves to the last section of that file. */
    method IncludeFile(insertPoint: SectionNode, path: string, ghost depth: nat,
                       ghost before: seq<SectionNode>, ghost mid: seq<SectionNode>, ghost after: seq<SectionNode>)
      returns (last: SectionNode?, ghost kept: seq<SectionNode>)
      requires Acyclic(files, path, depth) && Around(before, mid, after, insertPoint)
      modifies this, insertPoint
      ensures last == null <==> Kept(files, path, depth).None?
      ensures last != null ==> fresh(kept) && last in kept && Around(before, mid + kept, after, last)
      ensures last != null ==> Contents(mid + kept) == Contents(mid) + Kept(files, path, depth).value
      decreases depth, 4
    {
      hide Linked, Distinct, Contents, Acyclic, Kept, CutAt, Loaded;
      var included;
      ghost var nodes;
      included, nodes, kept := LoadConfig(path, depth);
      LoadedIffKept(files, path, depth);
      if included == null {
        return null, [];
      }
      ContentsConcat(mid, kept);
      CutFacts(included, nodes, kept);
      Splice(insertPoint, included, before + mid, after, nodes, kept);
      assert before + mid + kept + after == before + (mid + kept) + after;
      last := included.last;
    }

    /** Load the files an include section names, in entry order, and splice their sections in after it. */
    method LoadIncludes(section: SectionNode, ghost depth: nat, ghost before: seq<SectionNode>,
                        ghost after: seq<SectionNode>)
      returns (ok: bool, ghost mid: seq<SectionNode>)
      requires Around(before, [], after, section)
      requires AllAcyclic(files, Named(section.section.entries), depth)
      modifies this, section
      ensures ok <==> All(Named(section.section.entries), Included(files, depth)).Some?
      ensures ok ==> fresh(mid) && Linked(before + mid + after, null)
      ensures ok ==> Contents(mid) == All(Named(section.section.entries), Included(files, depth)).value
      decreases depth, 1
    {
      hide Linked, Distinct, Contents, All, Acyclic, AllAcyclic, Join, Named, Included, Kept;
      var entries, insertPoint: SectionNode := section.section.entries, section;
      ghost var inc := Included(files, depth);
      mid := [];
      assert entries[0..] == entries;
      NoContents(All(Named(entries), inc));
      for j := 0 to |entries|
        invariant fresh(mid) && Around(before, mid, after, insertPoint)
          && (insertPoint == section || fresh(insertPoint))
        invariant AllAcyclic(files, Named(entries[j..]), depth)
        invariant All(Named(entries), inc) == Join(Some(Contents(mid)), All(Named(entries[j..]), inc))
      {
        NamedNext(entries, j);
        if entries[j].value.Text? {
          var q := entries[j].value.text;
          AcyclicNext(files, q, Named(entries[j + 1..]), depth);
          NextIncluded(files, depth, q, Named(entries[j + 1..]), Contents(mid));
          var last, kept := IncludeFile(insertPoint, q, depth - 1, before, mid, after);
          if last == null {
            return false, [];
          }
          insertPoint, mid := last, mid + kept;
        }
      }
      assert entries[|entries|..] == [];
      AllLoaded(inc, Contents(mid));
      ok := true;
    }

    /** The loop goes over the file's own sections: the next one is looked up before the splice. */
    method ExpandSections(file: FileNode, path: string, ghost depth: nat, ghost own: seq<SectionNode>)
      returns (ok: bool, ghost nodes: seq<SectionNode>, ghost kept: seq<SectionNode>)
      requires Acyclic(files, path, depth) && SectionsOf(files, path) == Some(Contents(own))
      requires Linked(own, null) && own != [] && file.first == own[0]
      modifies this, own
      ensures ok <==> Expand(Contents(own), Included(files, depth)).Some?
      ensures ok ==> fresh(set n <- nodes | n !in own) && Progress(own, |own|, nodes, kept, Included(files, depth))
      decreases depth, 2
    {
      hide SectionsOf, Expand, All, Included, Linked, Contents, Progress, Acyclic, AllAcyclic, Around;
      nodes, kept := [], [];
      ghost var i, inc := 0, Included(files, depth);
      ProgressStart(own, inc);
      var section := file.first;
      while section != null
        invariant i <= |own| && section == (if i < |own| then own[i] else null)
        invariant Progress(own, i, nodes, kept, inc) && fresh(set n <- nodes | n !in own)
        decreases |own| - i
      {
        var next := section.next;
        ghost var mid := [];
        ProgressNext(own, i, nodes, kept, inc);
        SectionAcyclic(files, path, depth, own, i);
        NoIncludes(section.section, inc);
        if section.section.kind == "include" {
          var ok;
          ok, mid := LoadIncludes(section, depth, nodes + [section], own[i + 1..]);
          if !ok {
            SectionFails(own, i, inc);
            return false, [], [];
          }
        }
        ProgressStep(own, i, nodes, mid, inc);
        kept := nodes + [section];
        nodes := kept + mid;
        i := i + 1;
        section := next;
      }
      ok := true;
      ProgressExpands(own, nodes, kept, inc);
    }

    /** Load a configuration file and everything it includes. */
    method LoadConfig(path: string, ghost depth: nat)
      returns (file: FileNode?, ghost nodes: seq<SectionNode>, ghost kept: seq<SectionNode>)
      requires Acyclic(files, path, depth)
      modifies this
      ensures file == null <==> Loaded(files, path, depth).None?
      ensures file != null ==> fresh(file) && fresh(nodes) && CutAt(file, nodes, kept)
      ensures file != null ==> Contents(nodes) == Loaded(files, path, depth).value
      ensures file != null ==> Some(Contents(kept)) == Kept(files, path, depth)
      decreases depth, 3
    {
      hide SectionsOf, Expand, Included, Linked, Contents, Progress, Acyclic, Kept, CutAt, CfgParser.Holds, Join,
           CountsOn;
      ghost var own;
      nodes, kept := [], [];
      file, own := ParseConfig(path);
      if file == null {
        return;
      }
      OwnList(file, own);
      LoadedExpands(files, path, depth, own);
      var ok;
      ok, nodes, kept := ExpandSections(file, path, depth, own);
      if !ok {
        return null, [], [];
      }
      Finished(files, path, depth, file, own, nodes, kept);
    }
  }
}
