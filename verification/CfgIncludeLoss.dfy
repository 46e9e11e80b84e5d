/** The smallest configuration from which the loader drops a section: a file included by a file that is included. */
module CfgIncludeLoss {
  import opened Options
  import opened CfgGrammar
  import opened CfgRendering
  import opened CfgInclude
  import CfgRoundTrip

  function One(kind: string, entry: EntryText): FileText {
    FileText("", "f", "", [SectionText("", kind, " ", BareTitle("s"), "", [entry], "", "")])
  }

  lemma OneMeans(kind: string, e: EntryText)
    requires LegalEntry(e) && IsName(kind)
    ensures LegalFile(One(kind, e)) && FileMeaning(One(kind, e)) == File("f", [Section(kind, "s", [EntryMeaning(e)])])
  {
    hide LegalEntry, EntryMeaning, RenderFile;
    var f := One(kind, e);
    assert f.sections[1..] == [] && f.sections[0].entries[1..] == [];
    assert IsName("f") && IsName("s") && AllSpace(" ") && AllSpace("");
    hide IsName, AllSpace;
    var t := f.sections[0];
    assert LegalSection(t);
    assert EntriesMeaning(t.entries) == [EntryMeaning(e)] + [] == [EntryMeaning(e)];
    assert SectionsMeaning(f.sections) == [SectionMeaning(t)] + [] == [SectionMeaning(t)];
    assert SectionMeaning(t) == Section(kind, "s", [EntryMeaning(e)]);
  }

  lemma OneParses(fs: Files, path: string, kind: string, e: EntryText)
    requires LegalEntry(e) && IsName(kind) && LegalFile(One(kind, e)) && path in fs
      && fs[path] == RenderFile(One(kind, e))
    ensures SectionsOf(fs, path) == Some([Section(kind, "s", [EntryMeaning(e)])])
  {
    hide LegalEntry, EntryMeaning, LegalFile, FileMeaning, RenderFile, ParseFile, One, IsName;
    var f := One(kind, e);
    OneMeans(kind, e);
    CfgRoundTrip.ParseFileOver(f, "");
    assert RenderFile(f) + "" == RenderFile(f);
  }

  function IncludeEntry(path: string): EntryText { EntryText("", "file", "", "", Bare(path), "") }

  function DeviceEntry(): EntryText { EntryText("", "slot", "", "", Numeric(Decimal(false, "1")), "") }

  lemma EntriesAreLegal()
    ensures LegalEntry(IncludeEntry("b")) && LegalEntry(IncludeEntry("c")) && LegalEntry(DeviceEntry())
    ensures IsName("include") && IsName("device")
  {
    assert IsName("file") && IsName("slot") && IsName("b") && IsName("c") && AllSpace("");
    assert IsRadixDigit('1', 10);
  }

  /** f{include s{file=b;}}, f{include s{file=c;}} and f{device s{slot=1;}}. */
  function Chain(): Files
  {
    EntriesAreLegal();
    OneMeans("include", IncludeEntry("b"));
    OneMeans("include", IncludeEntry("c"));
    OneMeans("device", DeviceEntry());
    map["a" := RenderFile(One("include", IncludeEntry("b"))),
        "b" := RenderFile(One("include", IncludeEntry("c"))),
        "c" := RenderFile(One("device", DeviceEntry()))]
  }

  function Inc(path: string): Section { Section("include", "s", [Entry("file", Text(path))]) }

  function Dev(): Section { Section("device", "s", [EntryMeaning(DeviceEntry())]) }

  lemma ChainSections()
    ensures SectionsOf(Chain(), "a") == Some([Inc("b")]) && SectionsOf(Chain(), "b") == Some([Inc("c")])
    ensures SectionsOf(Chain(), "c") == Some([Dev()])
  {
    EntriesAreLegal();
    OneMeans("include", IncludeEntry("b"));
    OneMeans("include", IncludeEntry("c"));
    OneMeans("device", DeviceEntry());
    assert EntryMeaning(IncludeEntry("b")) == Entry("file", Text("b"))
      && EntryMeaning(IncludeEntry("c")) == Entry("file", Text("c"));
    hide SectionsOf, RenderFile, LegalEntry, LegalFile, IsName, EntryMeaning, IncludeEntry, DeviceEntry, One;
    OneParses(Chain(), "a", "include", IncludeEntry("b"));
    OneParses(Chain(), "b", "include", IncludeEntry("c"));
    OneParses(Chain(), "c", "device", DeviceEntry());
  }

  lemma NamesHere()
    ensures forall path :: Names(Inc(path)) == [path]
    ensures Names(Dev()) == []
  {
    forall path
      ensures Names(Inc(path)) == [path]
    {
      var es := Inc(path).entries;
      assert es[1..] == [];
      assert Named(es) == [path] + Named(es[1..]);
    }
  }

  lemma ExpandOne(s: Section, inc: string -> Option<seq<Section>>)
    ensures Expand([s], inc) == Join(Some([s]), All(Names(s), inc))
  {
    hide Names, All;
    JoinUnit(Join(Some([s]), All(Names(s), inc)));
    assert [s][1..] == [];
  }

  lemma AllOne(q: string, inc: string -> Option<seq<Section>>)
    ensures All([q], inc) == inc(q)
  {
    JoinUnit(inc(q));
    assert [q][1..] == [];
  }

  lemma MentionsOne(s: Section, q: string)
    ensures Mentions([s], q) <==> q in Names(s)
  {
    assert [s][1..] == [];
  }

  lemma LoadOne(fs: Files, path: string, s: Section, depth: nat)
    requires SectionsOf(fs, path) == Some([s])
    ensures Flattening(fs, path, depth) == Join(Some([s]), All(Names(s), Flattened(fs, depth)))
    ensures Loaded(fs, path, depth) == Join(Some([s]), All(Names(s), Included(fs, depth)))
    ensures Kept(fs, path, depth) == if All(Names(s), Included(fs, depth)).None? then None else Some([s])
  {
    hide SectionsOf, Names, All, Expand, Flattened, Included;
    ExpandOne(s, Flattened(fs, depth));
    ExpandOne(s, Included(fs, depth));
    EmptyLists(Included(fs, depth));
    var ss := [s];
    assert ss[..|ss| - 1] == [];
    JoinUnit(Some([s]));
  }

  lemma ChainLists(fs: Files)
    requires fs == Chain()
    ensures Flattening(fs, "a", 2) == Some([Inc("b"), Inc("c"), Dev()])
    ensures Loaded(fs, "a", 2) == Some([Inc("b"), Inc("c")])
  {
    ChainSections();
    NamesHere();
    hide Chain, SectionsOf, Names, Inc, Dev, All, Expand, Flattening, Loaded, Kept;
    LoadOne(fs, "c", Dev(), 0);
    EmptyLists(Flattened(fs, 0));
    EmptyLists(Included(fs, 0));
    LoadOne(fs, "b", Inc("c"), 1);
    AllOne("c", Flattened(fs, 1));
    AllOne("c", Included(fs, 1));
    assert [Dev()] + [] == [Dev()] && [Inc("c")] + [Dev()] == [Inc("c"), Dev()];
    assert Flattening(fs, "c", 0) == Some([Dev()]);
    assert Flattening(fs, "b", 1) == Some([Inc("c"), Dev()]);
    assert [Inc("b")] + [Inc("c"), Dev()] == [Inc("b"), Inc("c"), Dev()];
    assert [Inc("b")] + [Inc("c")] == [Inc("b"), Inc("c")];
    LoadOne(fs, "a", Inc("b"), 2);
    AllOne("b", Flattened(fs, 2));
    AllOne("b", Included(fs, 2));
  }

  lemma EmptyLists(inc: string -> Option<seq<Section>>)
    ensures All([], inc) == Some([]) && Expand([], inc) == Some([])
  {
  }

  /** a includes b, b includes c: of the three sections the loader keeps two. */
  lemma ChainLosesASection()
    ensures Acyclic(Chain(), "a", 2)
    ensures Flattening(Chain(), "a", 2) == Some([Inc("b"), Inc("c"), Dev()])
    ensures Loaded(Chain(), "a", 2) == Some([Inc("b"), Inc("c")])
  {
    hide Chain, Inc, Dev, Flattening, Loaded, Acyclic;
    ChainLists(Chain());
    ChainIsAcyclic(Chain());
  }

  lemma ChainIsAcyclic(fs: Files)
    requires fs == Chain()
    ensures Acyclic(fs, "a", 2)
  {
    ChainSections();
    NamesHere();
    hide Chain, SectionsOf, Names, Inc, Dev, Mentions;
    forall q
      ensures (Includes(fs, "a", q) <==> q == "b") && (Includes(fs, "b", q) <==> q == "c") && !Includes(fs, "c", q)
    {
      MentionsOne(Inc("b"), q);
      MentionsOne(Inc("c"), q);
      MentionsOne(Dev(), q);
    }
    assert Acyclic(fs, "c", 0);
    assert Acyclic(fs, "b", 1);
  }
}
