/** The text of a release entry, told from the commits: which type goes under which heading. */
module EntryText {
  import opened Text
  import opened ChangelogEntries

  /** The commit follows the convention and is not the bump of the version itself. */
  predicate Counts(conv: Conventions, c: Commit) {
    var p := conv.parse(c.subject);
    p.Some? && !StartsWith(p.value.description, "bump version to ")
  }

  /** It breaks consumers: by the mark in its subject or by a footer. */
  predicate Breaks(conv: Conventions, c: Commit) {
    conv.breakingMark(c.subject) || conv.breakingFooter(c.body).Some?
  }

  predicate IsOfType(conv: Conventions, c: Commit, kind: string) {
    Counts(conv, c) && !Breaks(conv, c) && conv.parse(c.subject).value.kind == kind
  }

  /** Its line: the scope in bold, if it has one, the description, and the note of the footer. */
  function LineOf(conv: Conventions, c: Commit): string
    requires Counts(conv, c)
  {
    var p, footer := conv.parse(c.subject).value, conv.breakingFooter(c.body);
    "- " + (if p.scope == None || p.scope == Some("") then "" else "**" + p.scope.value + ":** ") + p.description
    + (if footer.Some? then " \U{2014} " + Trim(footer.value) else "")
  }

  /** The lines of the breaking commits, in commit order. */
  function BreakingLines(conv: Conventions, cs: seq<Commit>): seq<string> {
    if cs == [] then []
    else
      (if Counts(conv, cs[0]) && Breaks(conv, cs[0]) then [LineOf(conv, cs[0])] else []) + BreakingLines(conv, cs[1..])
  }

  /** The lines of the other commits of one type, in commit order. */
  function LinesOfType(conv: Conventions, cs: seq<Commit>, kind: string): seq<string> {
    if cs == [] then []
    else (if IsOfType(conv, cs[0], kind) then [LineOf(conv, cs[0])] else []) + LinesOfType(conv, cs[1..], kind)
  }

  /** Lines under their heading; no heading without lines. */
  function Under(heading: string, lines: seq<string>): seq<string> {
    if lines == [] then [] else [heading + "\n" + Join(lines, "\n")]
  }

  lemma {:induction false} LineIs(conv: Conventions, c: Commit)
    requires Counts(conv, c)
    ensures Bullet(conv, c) == LineOf(conv, c)
  {
    hide Trim;
  }

  lemma KindsDiffer()
    ensures "feat" != "fix" && "feat" != "perf" && "feat" != "refactor"
    ensures "fix" != "perf" && "fix" != "refactor" && "perf" != "refactor"
  {
    assert "feat"[0] == 'f' && "perf"[0] == 'p' && "refactor"[0] == 'r' && "fix"[1] == 'i' && "feat"[1] == 'e';
  }

  lemma {:induction false} PlacedUnder(conv: Conventions, c: Commit)
    ensures Placed(conv, c) == Some(Breaking) <==> Counts(conv, c) && Breaks(conv, c)
    ensures Placed(conv, c) == Some(Added) <==> IsOfType(conv, c, "feat")
    ensures Placed(conv, c) == Some(Fixed) <==> IsOfType(conv, c, "fix")
    ensures Placed(conv, c) == Some(Performance) <==> IsOfType(conv, c, "perf")
    ensures Placed(conv, c) == Some(Changed) <==> IsOfType(conv, c, "refactor")
  {
    KindsDiffer();
    hide StartsWith;
  }

  lemma {:induction false} SectionCons(conv: Conventions, cs: seq<Commit>, s: Section)
    requires cs != []
    ensures SectionBullets(conv, cs, s)
         == (if Placed(conv, cs[0]) == Some(s) then [Bullet(conv, cs[0])] else []) + SectionBullets(conv, cs[1..], s)
  {
    hide Placed, Bullet;
    var rest := InSection(conv, cs[1..], s);
    if Placed(conv, cs[0]) == Some(s) {
      assert InSection(conv, cs, s) == [cs[0]] + rest;
      assert ([cs[0]] + rest)[1..] == rest;
    } else {
      assert InSection(conv, cs, s) == rest;
    }
  }

  lemma {:induction false} BreakingIs(conv: Conventions, cs: seq<Commit>)
    ensures SectionBullets(conv, cs, Breaking) == BreakingLines(conv, cs)
  {
    if cs != [] {
      SectionCons(conv, cs, Breaking);
      BreakingIs(conv, cs[1..]);
      PlacedUnder(conv, cs[0]);
      if Counts(conv, cs[0]) {
        LineIs(conv, cs[0]);
      }
      hide SectionBullets, Placed, Counts, Breaks, Bullet, LineOf;
    }
  }

  lemma {:induction false} TypeIs(conv: Conventions, cs: seq<Commit>, s: Section, kind: string)
    requires forall c :: Placed(conv, c) == Some(s) <==> IsOfType(conv, c, kind)
    ensures SectionBullets(conv, cs, s) == LinesOfType(conv, cs, kind)
  {
    hide Placed, Bullet, LineOf, SectionBullets, IsOfType, Counts;
    if cs != [] {
      SectionCons(conv, cs, s);
      TypeIs(conv, cs[1..], s, kind);
      if IsOfType(conv, cs[0], kind) {
        TypeCounts(conv, cs[0], kind);
        LineIs(conv, cs[0]);
      }
    } else {
      NoBullets(conv, s);
    }
  }

  lemma TypeCounts(conv: Conventions, c: Commit, kind: string)
    requires IsOfType(conv, c, kind)
    ensures Counts(conv, c)
  {
  }

  lemma NoBullets(conv: Conventions, s: Section)
    ensures SectionBullets(conv, [], s) == []
  {
  }

  /** The sections of the entry: five headings in a fixed order, each over the lines of its commits. */
  function Body(conv: Conventions, cs: seq<Commit>): seq<string> {
    Under("### " + "Breaking", BreakingLines(conv, cs))
    + (Under("### " + "Added", LinesOfType(conv, cs, "feat"))
    + (Under("### " + "Fixed", LinesOfType(conv, cs, "fix"))
    + (Under("### " + "Performance", LinesOfType(conv, cs, "perf"))
    + Under("### " + "Changed", LinesOfType(conv, cs, "refactor")))))
  }

  lemma {:induction false} PartIs(conv: Conventions, cs: seq<Commit>, i: nat, s: Section, name: string)
    requires i < |ORDER| && ORDER[i] == s && s.Name() == name
    ensures Parts(conv, cs, i) == Under("### " + name, SectionBullets(conv, cs, s)) + Parts(conv, cs, i + 1)
  {
    hide SectionBullets, Join;
  }

  lemma NoMoreParts(conv: Conventions, cs: seq<Commit>)
    ensures Parts(conv, cs, 5) == []
  {
  }

  lemma {:induction false} PartsAre(conv: Conventions, cs: seq<Commit>)
    ensures Parts(conv, cs, 0) ==
      Under("### " + "Breaking", SectionBullets(conv, cs, Breaking))
      + (Under("### " + "Added", SectionBullets(conv, cs, Added))
      + (Under("### " + "Fixed", SectionBullets(conv, cs, Fixed))
      + (Under("### " + "Performance", SectionBullets(conv, cs, Performance))
      + Under("### " + "Changed", SectionBullets(conv, cs, Changed)))))
  {
    hide SectionBullets, Under, Parts;
    PartIs(conv, cs, 0, Breaking, "Breaking");
    PartIs(conv, cs, 1, Added, "Added");
    PartIs(conv, cs, 2, Fixed, "Fixed");
    PartIs(conv, cs, 3, Performance, "Performance");
    PartIs(conv, cs, 4, Changed, "Changed");
    NoMoreParts(conv, cs);
    Assoc(Under("### " + "Changed", SectionBullets(conv, cs, Changed)), [], []);
  }

  lemma {:induction false} TypesAre(conv: Conventions, cs: seq<Commit>)
    ensures SectionBullets(conv, cs, Added) == LinesOfType(conv, cs, "feat")
    ensures SectionBullets(conv, cs, Fixed) == LinesOfType(conv, cs, "fix")
    ensures SectionBullets(conv, cs, Performance) == LinesOfType(conv, cs, "perf")
    ensures SectionBullets(conv, cs, Changed) == LinesOfType(conv, cs, "refactor")
  {
    forall c ensures Placed(conv, c) == Some(Added) <==> IsOfType(conv, c, "feat")
      ensures Placed(conv, c) == Some(Fixed) <==> IsOfType(conv, c, "fix")
      ensures Placed(conv, c) == Some(Performance) <==> IsOfType(conv, c, "perf")
      ensures Placed(conv, c) == Some(Changed) <==> IsOfType(conv, c, "refactor")
    {
      PlacedUnder(conv, c);
    }
    hide Placed, IsOfType, SectionBullets, LinesOfType;
    TypeIs(conv, cs, Added, "feat");
    TypeIs(conv, cs, Fixed, "fix");
    TypeIs(conv, cs, Performance, "perf");
    TypeIs(conv, cs, Changed, "refactor");
  }

  /** The text of the sections. */
  lemma {:induction false} SectionsTextIs(conv: Conventions, cs: seq<Commit>)
    ensures SectionsText(conv, cs) == Join(Body(conv, cs), "\n\n")
  {
    hide SectionBullets, LinesOfType, BreakingLines, Under, Parts, Join;
    BreakingIs(conv, cs);
    TypesAre(conv, cs);
    PartsAre(conv, cs);
  }

  /** The whole entry, from the heading down; without any line it says so. */
  lemma {:induction false} EntryIs(conv: Conventions, version: string, date: string, cs: seq<Commit>)
    ensures BuildEntry(conv, version, date, cs) == "## [" + version + "] - " + date + "\n" + "\n"
      + (if Body(conv, cs) == [] then "_No user-facing" + " changes._" else Join(Body(conv, cs), "\n\n")) + "\n"
  {
    hide SectionsText, Body;
    SectionsTextIs(conv, cs);
    if Body(conv, cs) != [] {
      BodyIsText(conv, cs);
    }
  }

  lemma {:induction false} UnderIsText(heading: string, lines: seq<string>)
    requires heading != ""
    ensures forall p | p in Under(heading, lines) :: p != ""
  {
    hide Join;
  }

  lemma {:induction false} BodyIsText(conv: Conventions, cs: seq<Commit>)
    requires Body(conv, cs) != []
    ensures Join(Body(conv, cs), "\n\n") != ""
  {
    hide LinesOfType, BreakingLines, Under;
    UnderIsText("### " + "Breaking", BreakingLines(conv, cs));
    UnderIsText("### " + "Added", LinesOfType(conv, cs, "feat"));
    UnderIsText("### " + "Fixed", LinesOfType(conv, cs, "fix"));
    UnderIsText("### " + "Performance", LinesOfType(conv, cs, "perf"));
    UnderIsText("### " + "Changed", LinesOfType(conv, cs, "refactor"));
    var parts := Body(conv, cs);
    assert forall p | p in parts :: p != "";
    hide Body;
    assert parts[0] in parts;
  }

  /** For instance a fix: its line stands under its heading, and there is nothing else. */
  lemma {:induction false} FixIsListed(conv: Conventions, c: Commit, version: string, date: string)
    requires IsOfType(conv, c, "fix")
    requires conv.parse(c.subject).value.scope == None && conv.breakingFooter(c.body) == None
    ensures BuildEntry(conv, version, date, [c]) == "## [" + version + "] - " + date + "\n" + "\n"
      + ("### " + "Fixed" + "\n" + ("- " + "" + conv.parse(c.subject).value.description + "")) + "\n"
  {
    EntryIs(conv, version, date, [c]);
    KindsDiffer();
    assert [c][1..] == [];
    hide Join, LineOf, StartsWith, BuildEntry;
    assert BreakingLines(conv, [c]) == [];
    assert LinesOfType(conv, [c], "feat") == LinesOfType(conv, [c], "perf") == LinesOfType(conv, [c], "refactor") == [];
    assert LinesOfType(conv, [c], "fix") == [LineOf(conv, c)];
    hide LinesOfType, BreakingLines;
    var part := "### " + "Fixed" + "\n" + Join([LineOf(conv, c)], "\n");
    assert Body(conv, [c]) == [part];
    OneJoined(part, "\n\n");
    OneJoined(LineOf(conv, c), "\n");
    FixLine(conv, c);
  }

  lemma OneJoined(p: string, sep: string)
    ensures Join([p], sep) == p
  {
  }

  lemma FixLine(conv: Conventions, c: Commit)
    requires Counts(conv, c) && conv.parse(c.subject).value.scope == None && conv.breakingFooter(c.body) == None
    ensures LineOf(conv, c) == "- " + "" + conv.parse(c.subject).value.description + ""
  {
  }
}
