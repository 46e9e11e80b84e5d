/** What loading a configuration with its includes should give, and what the loader's splicing does give. */
module CfgInclude {
  import opened Options
  import opened CfgGrammar

  /** The files that can be opened, by path. */
  type Files = map<string, string>

  /** The sections of one file as written, if it opens and parses. */
  function SectionsOf(fs: Files, path: string): (r: Option<seq<Section>>)
    ensures r.Some? ==> r.value != []
  {
    if path in fs && ParseFile(fs[path]).Match? then
      FileHasSections(fs[path]);
      Some(ParseFile(fs[path]).value.sections)
    else None
  }

  lemma {:induction false} SectionsGrow(s: string, acc: seq<Section>)
    ensures ParseSections(s, acc).Match? ==> |acc| < |ParseSections(s, acc).value|
    decreases |s|
  {
    hide ParseSection, SkipSpace;
    if ParseSection(s).Match? {
      var t := SkipSpace(ParseSection(s).rest);
      if t != "" && t[0] == ',' {
        SectionsGrow(t[1..], acc + [ParseSection(s).value]);
      }
    }
  }

  lemma FileHasSections(s: string)
    ensures ParseFile(s).Match? ==> ParseFile(s).value.sections != []
  {
    hide ParseSections, ParseName, SkipSpace;
    if ParseFile(s).Match? {
      var t := SkipSpace(ParseName(SkipSpace(s)).rest);
      SectionsGrow(t[1..], []);
    }
  }

  /** One after the other; nothing if either failed. */
  function Join(a: Option<seq<Section>>, b: Option<seq<Section>>): Option<seq<Section>> {
    if a.Some? && b.Some? then Some(a.value + b.value) else None
  }

  /** The files an include section names, in order: its string entries. Number entries are ignored. */
  function Named(es: seq<Entry>): (names: seq<string>)
    ensures |names| <= |es|
  {
    if es == [] then [] else (if es[0].value.Text? then [es[0].value.text] else []) + Named(es[1..])
  }

  function Names(s: Section): seq<string> { if s.kind == "include" then Named(s.entries) else [] }

  /** The sections inc gives for each of the named files, one file after the other. */
  function All(names: seq<string>, inc: string -> Option<seq<Section>>): Option<seq<Section>> {
    if names == [] then Some([]) else Join(inc(names[0]), All(names[1..], inc))
  }

  /** Each section followed by those of the files it names. */
  function Expand(ss: seq<Section>, inc: string -> Option<seq<Section>>): Option<seq<Section>> {
    if ss == [] then Some([]) else Join(Join(Some([ss[0]]), All(Names(ss[0]), inc)), Expand(ss[1..], inc))
  }

  /** The intended result: the depth-first flattening of the include tree, to the given depth. */
  function Flattening(fs: Files, path: string, depth: nat): Option<seq<Section>>
    decreases depth, 2
  {
    if SectionsOf(fs, path).None? then None else Expand(SectionsOf(fs, path).value, Flattened(fs, depth))
  }

  function Flattened(fs: Files, depth: nat): string -> Option<seq<Section>>
    decreases depth, 1
  {
    q => if depth == 0 then None else Flattening(fs, q, depth - 1)
  }

  /** What the loader's list holds: its include sections get what is kept of the files they name. */
  function Loaded(fs: Files, path: string, depth: nat): Option<seq<Section>> {
    if SectionsOf(fs, path).None? then None else Expand(SectionsOf(fs, path).value, Included(fs, depth))
  }

  function Included(fs: Files, depth: nat): string -> Option<seq<Section>>
    decreases depth, 1
  {
    q => if depth == 0 then None else Kept(fs, q, depth - 1)
  }

  /** A file's list up to its own last section: whatever that section included comes later and is cut off. */
  function Kept(fs: Files, path: string, depth: nat): Option<seq<Section>>
    decreases depth, 2
  {
    if SectionsOf(fs, path).None? then None
    else
      var ss := SectionsOf(fs, path).value;
      var inc := Included(fs, depth);
      if All(Names(ss[|ss| - 1]), inc).None? then None
      else Join(Expand(ss[..|ss| - 1], inc), Some([ss[|ss| - 1]]))
  }

  /** An include section of the file at path names the file q. */
  predicate Includes(fs: Files, path: string, q: string) {
    SectionsOf(fs, path).Some? && Mentions(SectionsOf(fs, path).value, q)
  }

  predicate Mentions(ss: seq<Section>, q: string) { ss != [] && (q in Names(ss[0]) || Mentions(ss[1..], q)) }

  /** The include graph below path is acyclic, with chains of at most depth includes. */
  ghost predicate Acyclic(fs: Files, path: string, depth: nat)
    decreases depth
  {
    forall q :: Includes(fs, path, q) ==> depth > 0 && Acyclic(fs, q, depth - 1)
  }

  ghost predicate EndsInInclude(fs: Files, path: string) {
    match SectionsOf(fs, path)
    case None => false
    case Some(ss) => Names(ss[|ss| - 1]) != []
  }

  /** No file that path includes, directly or through other files, ends in an include section that names a file. */
  ghost predicate IncludedFilesEndPlainly(fs: Files, path: string, depth: nat)
    decreases depth
  {
    forall q :: Includes(fs, path, q) ==>
      !EndsInInclude(fs, q) && (depth > 0 ==> IncludedFilesEndPlainly(fs, q, depth - 1))
  }

  // ----- the two compared -----

  /** Both fail, or both give lists, the same one or else a strictly shorter first. */
  ghost predicate SameOrShorter(a: Option<seq<Section>>, b: Option<seq<Section>>) {
    (a.Some? <==> b.Some?) && (a == b || (a.Some? && |a.value| < |b.value|))
  }

  lemma {:induction false} AllCompare(names: seq<string>, x: string -> Option<seq<Section>>,
                                      y: string -> Option<seq<Section>>)
    requires forall q :: q in names ==> SameOrShorter(x(q), y(q))
    ensures SameOrShorter(All(names, x), All(names, y))
    ensures All(names, y).Some? ==> (All(names, x) == All(names, y) <==> forall q :: q in names ==> x(q) == y(q))
  {
    if names == [] {
    } else {
      hide SameOrShorter;
      AllCompare(names[1..], x, y);
    }
  }

  lemma {:induction false} ExpandCompare(ss: seq<Section>, x: string -> Option<seq<Section>>,
                                         y: string -> Option<seq<Section>>)
    requires forall q :: Mentions(ss, q) ==> SameOrShorter(x(q), y(q))
    ensures SameOrShorter(Expand(ss, x), Expand(ss, y))
    ensures Expand(ss, y).Some? ==> (Expand(ss, x) == Expand(ss, y) <==> forall q :: Mentions(ss, q) ==> x(q) == y(q))
  {
    if ss == [] {
    } else {
      hide SameOrShorter, Names;
      var own, a, b := Some([ss[0]]), All(Names(ss[0]), x), All(Names(ss[0]), y);
      AllCompare(Names(ss[0]), x, y);
      ExpandCompare(ss[1..], x, y);
      SameHere(own);
    }
  }

  lemma SameHere(a: Option<seq<Section>>)
    ensures SameOrShorter(a, a)
  {
  }

  /** A file's expansion has every section of the file, so it is never empty. */
  lemma {:induction false} ExpandGrows(ss: seq<Section>, inc: string -> Option<seq<Section>>)
    ensures Expand(ss, inc).Some? ==> |ss| <= |Expand(ss, inc).value|
  {
    if ss != [] {
      ExpandGrows(ss[1..], inc);
    }
  }

  lemma {:induction false} AllGrows(names: seq<string>, inc: string -> Option<seq<Section>>)
    requires forall q :: q in names && inc(q).Some? ==> inc(q).value != []
    ensures All(names, inc).Some? ==> |names| <= |All(names, inc).value|
  {
    if names != [] {
      AllGrows(names[1..], inc);
    }
  }

  lemma {:induction false} ExpandConcat(a: seq<Section>, b: seq<Section>, inc: string -> Option<seq<Section>>)
    ensures Expand(a + b, inc) == Join(Expand(a, inc), Expand(b, inc))
  {
    if a == [] {
      assert a + b == b;
      JoinUnit(Expand(b, inc));
    } else {
      assert (a + b)[1..] == a[1..] + b;
      hide Names, All;
      ExpandConcat(a[1..], b, inc);
      JoinAssociative(Join(Some([a[0]]), All(Names(a[0]), inc)), Expand(a[1..], inc), Expand(b, inc));
    }
  }

  lemma JoinUnit(a: Option<seq<Section>>)
    ensures Join(Some([]), a) == a && Join(a, Some([])) == a
  {
    if a.Some? {
      assert [] + a.value == a.value && a.value + [] == a.value;
    }
  }

  lemma JoinAssociative(a: Option<seq<Section>>, b: Option<seq<Section>>, c: Option<seq<Section>>)
    ensures Join(Join(a, b), c) == Join(a, Join(b, c))
  {
    if a.Some? && b.Some? && c.Some? {
      assert a.value + b.value + c.value == a.value + (b.value + c.value);
    }
  }

  lemma {:induction false} ExpandNeedsAll(ss: seq<Section>, inc: string -> Option<seq<Section>>, q: string)
    requires Expand(ss, inc).Some? && Mentions(ss, q)
    ensures inc(q).Some?
  {
    if q in Names(ss[0]) {
      AllNeedsEach(Names(ss[0]), inc, q);
    } else {
      ExpandNeedsAll(ss[1..], inc, q);
    }
  }

  lemma {:induction false} AllNeedsEach(names: seq<string>, inc: string -> Option<seq<Section>>, q: string)
    requires All(names, inc).Some? && q in names
    ensures inc(q).Some?
  {
    if names[0] != q {
      AllNeedsEach(names[1..], inc, q);
    }
  }

  lemma {:induction false} MentionsLast(front: seq<Section>, last: Section, q: string)
    ensures Mentions(front + [last], q) <==> Mentions(front, q) || q in Names(last)
  {
    if front == [] {
      assert front + [last] == [last];
    } else {
      assert (front + [last])[1..] == front[1..] + [last];
      MentionsLast(front[1..], last, q);
    }
  }

  lemma ExpandLast(front: seq<Section>, last: Section, inc: string -> Option<seq<Section>>)
    ensures Expand(front + [last], inc) == Join(Expand(front, inc), Join(Some([last]), All(Names(last), inc)))
  {
    ExpandConcat(front, [last], inc);
    assert [last][1..] == [];
    JoinUnit(Join(Some([last]), All(Names(last), inc)));
  }

  /** Cutting off what the last section included makes a list shorter, unless it included nothing. */
  lemma CutCompare(front: seq<Section>, last: Section, x: string -> Option<seq<Section>>,
                   y: string -> Option<seq<Section>>)
    requires forall q :: Mentions(front + [last], q) ==> SameOrShorter(x(q), y(q)) && (y(q).Some? ==> y(q).value != [])
    ensures var cut := if All(Names(last), x).None? then None else Join(Expand(front, x), Some([last]));
            var full := Expand(front + [last], y);
            && SameOrShorter(cut, full)
            && (full.Some? ==>
                  (cut == full <==>
                   Names(last) == [] && forall q :: Mentions(front + [last], q) ==> x(q) == y(q)))
  {
    hide Expand, Mentions;
    hide Names;
    forall q
      ensures Mentions(front + [last], q) <==> Mentions(front, q) || q in Names(last)
    {
      MentionsLast(front, last, q);
    }
    AllCompare(Names(last), x, y);
    AllGrows(Names(last), y);
    ExpandCompare(front, x, y);
    ExpandLast(front, last, y);
    var tail := Join(Some([last]), All(Names(last), y));
    if All(Names(last), y).Some? {
      if Names(last) == [] {
        JoinUnit(Some([last]));
      }
    }
  }

  /** A file's sections up to its last one, and its last one. */
  lemma FrontAndLast(fs: Files, path: string, depth: nat) returns (front: seq<Section>, last: Section)
    requires SectionsOf(fs, path).Some?
    ensures SectionsOf(fs, path).value == front + [last]
    ensures Loaded(fs, path, depth) == Expand(front + [last], Included(fs, depth))
    ensures Flattening(fs, path, depth) == Expand(front + [last], Flattened(fs, depth))
    ensures Kept(fs, path, depth) == if All(Names(last), Included(fs, depth)).None? then None
                                     else Join(Expand(front, Included(fs, depth)), Some([last]))
    ensures EndsInInclude(fs, path) <==> Names(last) != []
  {
    hide SectionsOf, Expand, All, Names, Included, Flattened, Join;
    var ss := SectionsOf(fs, path).value;
    front, last := ss[..|ss| - 1], ss[|ss| - 1];
  }

  lemma {:induction false} KeptCompare(fs: Files, path: string, depth: nat)
    ensures SameOrShorter(Kept(fs, path, depth), Flattening(fs, path, depth))
    ensures Flattening(fs, path, depth).Some? ==>
      && Flattening(fs, path, depth).value != []
      && (Kept(fs, path, depth) == Flattening(fs, path, depth)
          <==> !EndsInInclude(fs, path) && IncludedFilesEndPlainly(fs, path, depth))
    decreases depth, 1
  {
    if SectionsOf(fs, path).Some? {
      var front, last := FrontAndLast(fs, path, depth);
      IncludesCompare(fs, path, depth);
      hide SameOrShorter, Expand, All, Mentions, Names, IncludedFilesEndPlainly, SectionsOf, Included, Flattened, Join;
      hide Kept, Flattening, Loaded, EndsInInclude;
      CutCompare(front, last, Included(fs, depth), Flattened(fs, depth));
      ExpandGrows(front + [last], Flattened(fs, depth));
    }
  }

  ghost predicate NothingCut(fs: Files, depth: nat, q: string) { Included(fs, depth)(q) == Flattened(fs, depth)(q) }

  /** One included file: what the loader keeps of it is all of it, or less, exactly as it and its includes end. */
  lemma {:induction false} IncludeCompare(fs: Files, path: string, depth: nat, q: string)
    requires Includes(fs, path, q)
    ensures var x, y := Included(fs, depth)(q), Flattened(fs, depth)(q);
            SameOrShorter(x, y) && (y.Some? ==> y.value != []) && (Flattening(fs, path, depth).Some? ==>
              depth > 0 && (x == y <==> !EndsInInclude(fs, q) && IncludedFilesEndPlainly(fs, q, depth - 1)))
    decreases depth, 0, 0
  {
    hide SameOrShorter, Expand, Mentions, SectionsOf, EndsInInclude, IncludedFilesEndPlainly;
    if depth > 0 {
      KeptCompare(fs, q, depth - 1);
    } else {
      SameHere(None);
    }
    if Flattening(fs, path, depth).Some? {
      ExpandNeedsAll(SectionsOf(fs, path).value, Flattened(fs, depth), q);
    }
  }

  lemma {:induction false} IncludesCompare(fs: Files, path: string, depth: nat)
    requires SectionsOf(fs, path).Some?
    ensures forall q :: Mentions(SectionsOf(fs, path).value, q) ==>
      var y := Flattened(fs, depth)(q);
      SameOrShorter(Included(fs, depth)(q), y) && (y.Some? ==> y.value != [])
    ensures Flattening(fs, path, depth).Some? ==>
      (IncludedFilesEndPlainly(fs, path, depth) <==>
        forall q :: Mentions(SectionsOf(fs, path).value, q) ==> NothingCut(fs, depth, q))
    decreases depth, 0
  {
    hide SameOrShorter, Expand, Mentions, SectionsOf, EndsInInclude, Included, Flattened, Flattening;
    forall q | Includes(fs, path, q)
      ensures var x, y := Included(fs, depth)(q), Flattened(fs, depth)(q);
              SameOrShorter(x, y) && (y.Some? ==> y.value != []) && (Flattening(fs, path, depth).Some? ==>
                depth > 0 && (x == y <==> !EndsInInclude(fs, q) && IncludedFilesEndPlainly(fs, q, depth - 1)))
    {
      IncludeCompare(fs, path, depth, q);
    }
    if Flattening(fs, path, depth).Some? {
      if IncludedFilesEndPlainly(fs, path, depth) {
        forall q | Mentions(SectionsOf(fs, path).value, q)
          ensures NothingCut(fs, depth, q)
        {
          assert Includes(fs, path, q);
        }
      } else {
        var q :| Includes(fs, path, q)
          && !(!EndsInInclude(fs, q) && (depth > 0 ==> IncludedFilesEndPlainly(fs, q, depth - 1)));
        assert Mentions(SectionsOf(fs, path).value, q) && !NothingCut(fs, depth, q);
      }
    }
  }

  /**
   The loader fails exactly when the flattening does, and otherwise gives the flattening exactly when no included
   file ends in an include section that names a file; else sections are lost.
   */
  lemma LoadedExactlyWhenPlain(fs: Files, path: string, depth: nat)
    ensures Loaded(fs, path, depth).Some? <==> Flattening(fs, path, depth).Some?
    ensures Flattening(fs, path, depth).Some? ==>
      (Loaded(fs, path, depth) == Flattening(fs, path, depth) <==> IncludedFilesEndPlainly(fs, path, depth))
    ensures Flattening(fs, path, depth).Some? && !IncludedFilesEndPlainly(fs, path, depth) ==>
      |Loaded(fs, path, depth).value| < |Flattening(fs, path, depth).value|
  {
    if SectionsOf(fs, path).Some? {
      IncludesCompare(fs, path, depth);
      ExpandCompare(SectionsOf(fs, path).value, Included(fs, depth), Flattened(fs, depth));
      hide Expand, Mentions, SectionsOf, Included, Flattened, IncludedFilesEndPlainly;
    }
  }

  lemma {:induction false} ExpandNeedsSection(ss: seq<Section>, i: nat, inc: string -> Option<seq<Section>>)
    requires i < |ss| && Expand(ss, inc).Some?
    ensures All(Names(ss[i]), inc).Some?
  {
    if i > 0 {
      ExpandNeedsSection(ss[1..], i - 1, inc);
    }
  }

  lemma {:induction false} MentionsAt(ss: seq<Section>, i: nat, q: string)
    requires i < |ss| && q in Names(ss[i])
    ensures Mentions(ss, q)
  {
    if i > 0 {
      MentionsAt(ss[1..], i - 1, q);
    }
  }

  lemma CutIff(front: seq<Section>, last: Section, inc: string -> Option<seq<Section>>)
    ensures Expand(front + [last], inc).Some? <==> All(Names(last), inc).Some? && Expand(front, inc).Some?
  {
    hide Expand, All, Names;
    ExpandLast(front, last, inc);
  }

  lemma LoadedIffKept(fs: Files, path: string, depth: nat)
    ensures Loaded(fs, path, depth).Some? <==> Kept(fs, path, depth).Some?
  {
    if SectionsOf(fs, path).Some? {
      var front, last := FrontAndLast(fs, path, depth);
      hide SectionsOf, Expand, All, Names, Included, Kept, Loaded;
      CutIff(front, last, Included(fs, depth));
    }
  }

  // ----- the depth is immaterial -----

  lemma {:induction false} ExpandAlike(ss: seq<Section>, x: string -> Option<seq<Section>>,
                                       y: string -> Option<seq<Section>>)
    requires forall q :: Mentions(ss, q) ==> x(q) == y(q)
    ensures Expand(ss, x) == Expand(ss, y)
  {
    if ss != [] {
      hide Names;
      AllAlike(Names(ss[0]), x, y);
      ExpandAlike(ss[1..], x, y);
    }
  }

  lemma {:induction false} AllAlike(names: seq<string>, x: string -> Option<seq<Section>>,
                                    y: string -> Option<seq<Section>>)
    requires forall q :: q in names ==> x(q) == y(q)
    ensures All(names, x) == All(names, y)
  {
    if names != [] {
      AllAlike(names[1..], x, y);
    }
  }

  /** Any bound on the depth of an acyclic include graph gives the same flattening. */
  lemma {:induction false} DeeperIsTheSame(fs: Files, path: string, depth: nat)
    requires Acyclic(fs, path, depth)
    ensures Acyclic(fs, path, depth + 1) && Flattening(fs, path, depth + 1) == Flattening(fs, path, depth)
    decreases depth
  {
    hide SectionsOf, Mentions, Expand;
    forall q | Includes(fs, path, q)
      ensures depth > 0 && Acyclic(fs, q, depth) && Flattened(fs, depth + 1)(q) == Flattened(fs, depth)(q)
    {
      assert Acyclic(fs, q, depth - 1);
      DeeperIsTheSame(fs, q, depth - 1);
    }
    if SectionsOf(fs, path).Some? {
      ExpandAlike(SectionsOf(fs, path).value, Flattened(fs, depth + 1), Flattened(fs, depth));
    }
  }
}
