/** Building a release entry: commits sorted into sections, each as one bullet. */
module ChangelogEntries {
  import opened Text
  import opened Lists
  import opened ChangelogInsert
  import opened ChangelogLaws
  import ReleaseRange

  type Commit = ReleaseRange.Commit

  datatype Parsed = Parsed(kind: string, scope: Option<string>, description: string)

  /** The conventional-commit patterns: of a subject, of its breaking mark, of a breaking footer. */
  datatype Conventions = Conventions(
    parse: string -> Option<Parsed>,
    breakingMark: string -> bool,
    breakingFooter: string -> Option<string>
  )

  datatype Section = Breaking | Added | Fixed | Performance | Changed {
    function Name(): string {
      match this
      case Breaking => "Breaking"
      case Added => "Added"
      case Fixed => "Fixed"
      case Performance => "Performance"
      case Changed => "Changed"
    }
  }

  const ORDER: seq<Section> := [Breaking, Added, Fixed, Performance, Changed]

  function SectionOfKind(kind: string): Option<Section> {
    if kind == "feat" then Some(Added)
    else if kind == "fix" then Some(Fixed)
    else if kind == "perf" then Some(Performance)
    else if kind == "refactor" then Some(Changed)
    else None
  }

  predicate IsBreaking(conv: Conventions, c: Commit) {
    conv.parse(c.subject).Some? && (conv.breakingMark(c.subject) || conv.breakingFooter(c.body).Some?)
  }

  predicate IsBump(p: Parsed) { StartsWith(p.description, "bump version to ") }

  /** The section that a commit's bullet goes to, if it gets one. */
  function Placed(conv: Conventions, c: Commit): (r: Option<Section>)
    ensures r.Some? ==> conv.parse(c.subject).Some?
  {
    match conv.parse(c.subject)
    case None => None
    case Some(p) =>
      if IsBump(p) then None else if IsBreaking(conv, c) then Some(Breaking) else SectionOfKind(p.kind)
  }

  function Bullet(conv: Conventions, c: Commit): string
    requires conv.parse(c.subject).Some?
  {
    var p := conv.parse(c.subject).value;
    var footer := conv.breakingFooter(c.body);
    "- " + (if p.scope.Some? && p.scope.value != "" then "**" + p.scope.value + ":** " else "") + p.description
    + (if footer.Some? then " \U{2014} " + Trim(footer.value) else "")
  }

  function Bullets(conv: Conventions, cs: seq<Commit>): seq<string>
    requires forall c | c in cs :: Placed(conv, c).Some?
  {
    if cs == [] then []
    else
      assert cs[0] in cs && Placed(conv, cs[0]).Some?;
      [Bullet(conv, cs[0])] + Bullets(conv, cs[1..])
  }

  /** The commits of one section, in commit order. */
  function InSection(conv: Conventions, cs: seq<Commit>, s: Section): (r: seq<Commit>)
    ensures forall c | c in r :: Placed(conv, c) == Some(s)
  {
    Filter(cs, (c: Commit) => Placed(conv, c) == Some(s))
  }

  function SectionBullets(conv: Conventions, cs: seq<Commit>, s: Section): seq<string> {
    Bullets(conv, InSection(conv, cs, s))
  }

  lemma {:induction false} BulletsSnoc(conv: Conventions, cs: seq<Commit>, c: Commit)
    requires (forall d | d in cs :: Placed(conv, d).Some?) && Placed(conv, c).Some?
    ensures Bullets(conv, cs + [c]) == Bullets(conv, cs) + [Bullet(conv, c)]
    decreases cs
  {
    hide Bullet, Placed;
    if cs == [] {
      assert cs + [c] == [c] && [c][1..] == [];
    } else {
      assert (cs + [c])[1..] == cs[1..] + [c];
      BulletsSnoc(conv, cs[1..], c);
    }
  }

  lemma SectionSnoc(conv: Conventions, cs: seq<Commit>, c: Commit, s: Section)
    ensures SectionBullets(conv, cs + [c], s) ==
      if Placed(conv, c) == Some(s) then SectionBullets(conv, cs, s) + [Bullet(conv, c)]
      else SectionBullets(conv, cs, s)
  {
    hide Bullet, Placed;
    FilterConcat(cs, [c], (d: Commit) => Placed(conv, d) == Some(s));
    FilterOne(c, (d: Commit) => Placed(conv, d) == Some(s));
    if Placed(conv, c) == Some(s) {
      BulletsSnoc(conv, InSection(conv, cs, s), c);
    } else {
      assert InSection(conv, cs + [c], s) == InSection(conv, cs, s);
    }
  }

  lemma PlacedIs(conv: Conventions, c: Commit)
    ensures Placed(conv, c) ==
      var p := conv.parse(c.subject);
      if p.None? || IsBump(p.value) then None
      else if IsBreaking(conv, c) then Some(Breaking)
      else SectionOfKind(p.value.kind)
  {
    hide IsBump, IsBreaking, SectionOfKind;
  }

  /** The loop over the commits, which pushes each bullet into its bucket. */
  method FillBuckets(conv: Conventions, commits: seq<Commit>) returns (buckets: map<Section, seq<string>>)
    ensures forall s :: s in buckets && buckets[s] == SectionBullets(conv, commits, s)
  {
    buckets := map[Breaking := [], Added := [], Fixed := [], Performance := [], Changed := []];
    assert commits[..0] == [];
    forall s ensures s in buckets && buckets[s] == SectionBullets(conv, [], s) {
      match s case Breaking => case Added => case Fixed => case Performance => case Changed =>
    }
    for i := 0 to |commits|
      invariant forall s :: s in buckets && buckets[s] == SectionBullets(conv, commits[..i], s)
    {
      hide SectionBullets, Bullet, Placed, IsBump, IsBreaking, SectionOfKind;
      var commit := commits[i];
      assert commits[..i + 1] == commits[..i] + [commit];
      forall s ensures SectionBullets(conv, commits[..i + 1], s) ==
        if Placed(conv, commit) == Some(s) then SectionBullets(conv, commits[..i], s) + [Bullet(conv, commit)]
        else SectionBullets(conv, commits[..i], s)
      {
        SectionSnoc(conv, commits[..i], commit, s);
      }
      PlacedIs(conv, commit);
      var parsed := conv.parse(commit.subject);
      if parsed.None? {
        continue;
      }
      if IsBump(parsed.value) {
        continue;
      }
      var section := if IsBreaking(conv, commit) then Some(Breaking) else SectionOfKind(parsed.value.kind);
      if section.Some? {
        buckets := buckets[section.value := buckets[section.value] + [Bullet(conv, commit)]];
      }
    }
    assert commits[..|commits|] == commits;
  }

  /** The text of the sections that have bullets, from `i` on. */
  function Parts(conv: Conventions, cs: seq<Commit>, i: nat): seq<string>
    decreases |ORDER| - i
  {
    if i >= |ORDER| then []
    else
      var bullets := SectionBullets(conv, cs, ORDER[i]);
      (if bullets == [] then [] else ["### " + ORDER[i].Name() + "\n" + Join(bullets, "\n")]) + Parts(conv, cs, i + 1)
  }

  function SectionsText(conv: Conventions, cs: seq<Commit>): string { Join(Parts(conv, cs, 0), "\n\n") }

  method BuildSections(conv: Conventions, commits: seq<Commit>) returns (text: string)
    ensures text == SectionsText(conv, commits)
  {
    var buckets := FillBuckets(conv, commits);
    var parts: seq<string> := [];
    hide SectionBullets, Join;
    for i := 0 to |ORDER|
      invariant parts + Parts(conv, commits, i) == Parts(conv, commits, 0)
    {
      var bullets := buckets[ORDER[i]];
      ghost var part := if bullets == [] then [] else ["### " + ORDER[i].Name() + "\n" + Join(bullets, "\n")];
      assert Parts(conv, commits, i) == part + Parts(conv, commits, i + 1);
      Assoc(parts, part, Parts(conv, commits, i + 1));
      if |bullets| > 0 {
        parts := parts + ["### " + ORDER[i].Name() + "\n" + Join(bullets, "\n")];
      }
    }
    Assoc(parts, [], []);
    text := Join(parts, "\n\n");
  }

  function HeadingText(version: string, date: string): string { "## [" + version + "] - " + date }

  const NO_CHANGES: string := "_No user-facing" + " changes._"

  function BuildEntry(conv: Conventions, version: string, date: string, cs: seq<Commit>): string {
    var body := SectionsText(conv, cs);
    HeadingText(version, date) + "\n" + "\n" + (if body != "" then body else NO_CHANGES) + "\n"
  }

  // ----- a stable partition

  /** Breaking commits go to their own section, whatever their kind; nothing else goes there. */
  lemma BreakingSectionIff(conv: Conventions, c: Commit)
    ensures Placed(conv, c) == Some(Breaking) <==>
      conv.parse(c.subject).Some? && !IsBump(conv.parse(c.subject).value) && IsBreaking(conv, c)
  {
    hide IsBump;
  }

  predicate Eligible(conv: Conventions, c: Commit) { Placed(conv, c).Some? }

  /**
   A stable partition: every commit is in its section as often as it is listed and in no other,
   in commit order; so there are as many bullets as there are commits with a section.
   */
  lemma SectionsAreAPartition(conv: Conventions, cs: seq<Commit>, c: Commit, s: Section)
    ensures multiset(InSection(conv, cs, s))[c] == if Placed(conv, c) == Some(s) then multiset(cs)[c] else 0
    ensures |SectionBullets(conv, cs, s)| == |InSection(conv, cs, s)|
    ensures BulletTotal(conv, cs) == |Filter(cs, (c: Commit) => Eligible(conv, c))|
  {
    hide Placed;
    FilterCount(cs, (d: Commit) => Placed(conv, d) == Some(s), c);
    BulletCount(conv, InSection(conv, cs, s));
    TotalIsEligible(conv, cs);
  }

  function BulletTotal(conv: Conventions, cs: seq<Commit>): nat {
    |SectionBullets(conv, cs, Breaking)| + |SectionBullets(conv, cs, Added)| + |SectionBullets(conv, cs, Fixed)|
    + |SectionBullets(conv, cs, Performance)| + |SectionBullets(conv, cs, Changed)|
  }

  lemma {:induction false} BulletCount(conv: Conventions, cs: seq<Commit>)
    requires forall c | c in cs :: Placed(conv, c).Some?
    ensures |Bullets(conv, cs)| == |cs|
  {
    if cs != [] {
      BulletCount(conv, cs[1..]);
    }
  }

  lemma CountSnoc(conv: Conventions, cs: seq<Commit>, c: Commit, s: Section)
    ensures |SectionBullets(conv, cs + [c], s)|
         == |SectionBullets(conv, cs, s)| + (if Placed(conv, c) == Some(s) then 1 else 0)
  {
    hide SectionBullets, Bullet, Placed;
    SectionSnoc(conv, cs, c, s);
  }

  lemma TotalSnoc(conv: Conventions, cs: seq<Commit>, c: Commit)
    ensures BulletTotal(conv, cs + [c]) == BulletTotal(conv, cs) + (if Placed(conv, c).Some? then 1 else 0)
  {
    hide SectionBullets, Placed;
    CountSnoc(conv, cs, c, Breaking);
    CountSnoc(conv, cs, c, Added);
    CountSnoc(conv, cs, c, Fixed);
    CountSnoc(conv, cs, c, Performance);
    CountSnoc(conv, cs, c, Changed);
    match Placed(conv, c)
    case None =>
    case Some(s) => match s case Breaking => case Added => case Fixed => case Performance => case Changed =>
  }

  lemma {:induction false} TotalIsEligible(conv: Conventions, cs: seq<Commit>)
    ensures BulletTotal(conv, cs) == |Filter(cs, (c: Commit) => Eligible(conv, c))|
    decreases |cs|
  {
    hide Placed;
    if cs == [] {
      assert forall s :: SectionBullets(conv, [], s) == [];
    } else {
      hide BulletTotal;
      var init, c := cs[..|cs| - 1], cs[|cs| - 1];
      assert cs == init + [c];
      TotalIsEligible(conv, init);
      FilterConcat(init, [c], (d: Commit) => Eligible(conv, d));
      FilterOne(c, (d: Commit) => Eligible(conv, d));
      TotalSnoc(conv, init, c);
    }
  }

  /** Commit order is kept: the bullets of more commits extend those of the first ones. */
  lemma {:induction false} BulletsConcat(conv: Conventions, a: seq<Commit>, b: seq<Commit>)
    requires forall c | c in a + b :: Placed(conv, c).Some?
    ensures Bullets(conv, a + b) == Bullets(conv, a) + Bullets(conv, b)
    decreases a
  {
    hide Placed, Bullet;
    if a == [] {
      assert a + b == b;
    } else {
      assert (a + b)[1..] == a[1..] + b;
      BulletsConcat(conv, a[1..], b);
    }
  }

  lemma SectionsKeepCommitOrder(conv: Conventions, first: seq<Commit>, later: seq<Commit>, s: Section)
    ensures SectionBullets(conv, first + later, s) == SectionBullets(conv, first, s) + SectionBullets(conv, later, s)
  {
    FilterConcat(first, later, (c: Commit) => Placed(conv, c) == Some(s));
    BulletsConcat(conv, InSection(conv, first, s), InSection(conv, later, s));
  }

  // ----- the headings of an entry

  /** The release headings of the texts, in order. */
  function HeadingsOfAll(texts: seq<string>): seq<string> {
    if texts == [] then [] else Headings(texts[0]) + HeadingsOfAll(texts[1..])
  }

  lemma {:induction false} HeadingsOfJoin(parts: seq<string>)
    ensures Headings(Join(parts, "\n")) == Headings(Join(parts, "\n\n")) == HeadingsOfAll(parts)
  {
    hide Headings;
    HeadingsOfLine("");
    if |parts| > 1 {
      var a, b, b2 := parts[0], Join(parts[1..], "\n"), Join(parts[1..], "\n\n");
      HeadingsOfJoin(parts[1..]);
      assert a + "\n" + b == a + ['\n'] + b;
      HeadingsSplit(a, '\n', b);
      assert a + "\n\n" + b2 == a + ['\n'] + ("" + ['\n'] + b2);
      HeadingsSplit(a, '\n', "" + ['\n'] + b2);
      HeadingsSplit("", '\n', b2);
    } else if |parts| == 1 {
      assert parts[1..] == [];
      Assoc(Headings(parts[0]), [], []);
    }
  }

  /** No bullet of the commits holds a release heading. */
  ghost predicate BulletsHeadless(conv: Conventions, cs: seq<Commit>) {
    forall c | c in cs && Placed(conv, c).Some? :: Headings(Bullet(conv, c)) == []
  }

  lemma {:induction false} HeadlessBullets(conv: Conventions, cs: seq<Commit>)
    requires forall c | c in cs :: Placed(conv, c).Some?
    ensures HeadingsOfAll(Bullets(conv, cs)) == [] <==> BulletsHeadless(conv, cs)
  {
    hide Headings, Bullet, Placed;
    if cs != [] {
      assert cs == [cs[0]] + cs[1..] && cs[0] in cs && Placed(conv, cs[0]).Some?;
      HeadlessBullets(conv, cs[1..]);
      assert Bullets(conv, cs)[1..] == Bullets(conv, cs[1..]);
      assert Bullets(conv, cs)[0] == Bullet(conv, cs[0]);
    }
  }

  /** The sections from `i` on hold no release heading exactly when none of their bullets does. */
  lemma {:induction false} HeadlessParts(conv: Conventions, cs: seq<Commit>, i: nat)
    requires i <= |ORDER|
    ensures HeadingsOfAll(Parts(conv, cs, i)) == []
       <==> forall k | i <= k < |ORDER| :: BulletsHeadless(conv, InSection(conv, cs, ORDER[k]))
    decreases |ORDER| - i
  {
    hide Headings, BulletsHeadless, Placed, InSection, Bullets, Parts, HeadingsOfAll;
    if i < |ORDER| {
      HeadlessParts(conv, cs, i + 1);
      HeadlessBullets(conv, InSection(conv, cs, ORDER[i]));
      PartHeadings(conv, cs, i);
      BothEmpty(HeadingsOfAll(SectionBullets(conv, cs, ORDER[i])), HeadingsOfAll(Parts(conv, cs, i + 1)));
    } else {
      NoParts(conv, cs, i);
    }
  }

  lemma NoParts(conv: Conventions, cs: seq<Commit>, i: nat)
    requires i >= |ORDER|
    ensures HeadingsOfAll(Parts(conv, cs, i)) == []
  {
  }

  lemma BothEmpty(a: seq<string>, b: seq<string>)
    ensures a + b == [] <==> a == [] && b == []
  {
    assert |a + b| == |a| + |b|;
  }

  lemma {:induction false} PartHeadings(conv: Conventions, cs: seq<Commit>, i: nat)
    requires i < |ORDER|
    ensures HeadingsOfAll(Parts(conv, cs, i))
         == HeadingsOfAll(SectionBullets(conv, cs, ORDER[i])) + HeadingsOfAll(Parts(conv, cs, i + 1))
  {
    hide Headings, SectionBullets;
    var bullets, rest := SectionBullets(conv, cs, ORDER[i]), Parts(conv, cs, i + 1);
    if bullets == [] {
      assert [] + rest == rest;
      Assoc([], HeadingsOfAll(rest), []);
    } else {
      var part := "### " + ORDER[i].Name() + "\n" + Join(bullets, "\n");
      SectionHeadings(ORDER[i], bullets);
      assert ([part] + rest)[1..] == rest;
    }
  }

  lemma {:induction false} SectionHeadings(s: Section, bullets: seq<string>)
    ensures Headings("### " + s.Name() + "\n" + Join(bullets, "\n")) == HeadingsOfAll(bullets)
  {
    hide Headings, Join;
    var head, text := "### " + s.Name(), Join(bullets, "\n");
    SectionHeadHasNone(s);
    HeadingsOfJoin(bullets);
    assert head + "\n" + text == head + ['\n'] + text;
    HeadingsSplit(head, '\n', text);
    Assoc([], HeadingsOfAll(bullets), []);
  }

  lemma {:induction false} HeadlessSections(conv: Conventions, cs: seq<Commit>)
    ensures (forall k | 0 <= k < |ORDER| :: BulletsHeadless(conv, InSection(conv, cs, ORDER[k])))
      <==> BulletsHeadless(conv, cs)
  {
    hide Headings, Bullet, Placed;
    forall k, c | 0 <= k < |ORDER|
      ensures c in InSection(conv, cs, ORDER[k]) <==> c in cs && Placed(conv, c) == Some(ORDER[k])
    {
    }
    forall c | c in cs && Placed(conv, c).Some?
      ensures exists k :: 0 <= k < |ORDER| && c in InSection(conv, cs, ORDER[k])
    {
      var k := SectionIndex(Placed(conv, c).value);
      assert c in InSection(conv, cs, ORDER[k]);
    }
  }

  lemma SectionIndex(s: Section) returns (k: nat)
    ensures k < |ORDER| && ORDER[k] == s
  {
    k := match s case Breaking => 0 case Added => 1 case Fixed => 2 case Performance => 3 case Changed => 4;
  }

  lemma NotAHeading(l: string)
    requires FreeOf(l, BREAKS) && |l| > 2 && (l[0] != '#' || l[2] != ' ')
    ensures Headings(l) == []
  {
    HasAtChars(l, HEADING, 0);
    HeadingsOfLine(l);
  }

  lemma SectionHeadHasNone(s: Section)
    ensures Headings("### " + s.Name()) == []
  {
    assert FreeOf("### ", BREAKS);
    NameIsPlain(s);
    FreeConcat("### ", s.Name(), BREAKS);
    NotAHeading("### " + s.Name());
  }

  lemma NameIsPlain(s: Section)
    ensures FreeOf(s.Name(), BREAKS)
  {
    ShortNames();
    LongNames();
    hide FreeOf;
    match s case Breaking => case Added => case Fixed => case Performance => case Changed =>
  }

  lemma ShortNames()
    ensures FreeOf("Added", BREAKS) && FreeOf("Fixed", BREAKS) && FreeOf("Changed", BREAKS)
  {
    assert FreeOf("Added", BREAKS);
    assert FreeOf("Fixed", BREAKS);
    assert FreeOf("Changed", BREAKS);
  }

  lemma LongNames()
    ensures FreeOf("Breaking", BREAKS) && FreeOf("Performance", BREAKS)
  {
    assert FreeOf("Breaking", BREAKS);
    assert FreeOf("Performance", BREAKS);
  }

  lemma NoChangesHasNone()
    ensures Headings(NO_CHANGES) == []
  {
    NoChangesFree();
    NotAHeading(NO_CHANGES);
  }

  lemma NoChangesFree()
    ensures FreeOf(NO_CHANGES, BREAKS)
  {
    var a, b := "_No user-facing", " changes._";
    assert FreeOf(a, BREAKS);
    assert FreeOf(b, BREAKS);
    FreeConcat(a, b, BREAKS);
  }

  lemma {:induction false} HeadingThenText(h: string, text: string)
    ensures Headings(h + "\n" + "\n" + text + "\n") == Headings(h) + Headings(text)
  {
    hide Headings;
    var tail := text + ['\n'] + "";
    HeadingsOfLine("");
    assert h + "\n" + "\n" + text + "\n" == h + ['\n'] + ("" + ['\n'] + tail);
    HeadingsSplit(h, '\n', "" + ['\n'] + tail);
    HeadingsSplit("", '\n', tail);
    HeadingsSplit(text, '\n', "");
    Assoc([], Headings(text), []);
  }

  /** All the release headings of a built entry: its own line's, then those of its bullets. */
  lemma {:induction false} HeadingsOfEntry(conv: Conventions, version: string, date: string, cs: seq<Commit>)
    ensures Headings(BuildEntry(conv, version, date, cs))
         == Headings(HeadingText(version, date)) + HeadingsOfAll(Parts(conv, cs, 0))
  {
    hide Headings, Parts, Join, HeadingText;
    var body := SectionsText(conv, cs);
    HeadingsOfJoin(Parts(conv, cs, 0));
    NoChangesHasNone();
    HeadingsOfLine("");
    HeadingThenText(HeadingText(version, date), if body != "" then body else NO_CHANGES);
  }

  lemma {:induction false} EntryStart(conv: Conventions, version: string, date: string, cs: seq<Commit>)
    ensures StartsWith(BuildEntry(conv, version, date, cs), HEADING + version + "]")
    ensures StartsWith(HeadingText(version, date), HEADING)
  {
    hide SectionsText;
    var body := SectionsText(conv, cs);
    var text := if body != "" then body else NO_CHANGES;
    var e, pre := BuildEntry(conv, version, date, cs), HEADING + version + "]";
    assert e == pre + (" - " + date + "\n" + "\n" + text + "\n");
    assert e[0..|pre|] == pre;
    assert HeadingText(version, date)[0..4] == HEADING;
  }

  lemma {:induction false} StartIsHeading(s: string)
    requires StartsWith(s, HEADING)
    ensures Headings(s) != []
  {
    hide Headings;
    FoundAt(s, HEADING, 0);
    NoHeadingIff(s);
  }

  /**
   Exactly when a built entry has one release heading, its own: its heading is one line and no
   bullet holds a heading. For any version, date and commits.
   */
  lemma {:induction false} EntryHasOneHeadingIff(conv: Conventions, version: string, date: string, cs: seq<Commit>)
    ensures var h := HeadingText(version, date);
      Headings(BuildEntry(conv, version, date, cs)) == [TrimEnd(h)]
      <==> Headings(h) == [TrimEnd(h)] && BulletsHeadless(conv, cs)
  {
    hide Headings, TrimEnd, Parts, HeadingText, BulletsHeadless, HeadingsOfAll, InSection, BuildEntry;
    var h, rest := HeadingText(version, date), HeadingsOfAll(Parts(conv, cs, 0));
    HeadingsOfEntry(conv, version, date, cs);
    HeadlessParts(conv, cs, 0);
    HeadlessSections(conv, cs);
    EntryStart(conv, version, date, cs);
    StartIsHeading(h);
    OneOfTwo(Headings(h), rest, TrimEnd(h));
  }

  lemma OneOfTwo(a: seq<string>, b: seq<string>, x: string)
    requires a != []
    ensures a + b == [x] <==> a == [x] && b == []
  {
    if a + b == [x] {
      assert |a + b| == 1;
      assert a == (a + b)[..|a|];
    }
  }

  /** Every bullet is one line. */
  predicate OneLineBullets(conv: Conventions, cs: seq<Commit>) {
    forall c | c in cs && Placed(conv, c).Some? :: FreeOf(Bullet(conv, c), BREAKS)
  }

  lemma ShortBullet(b: string)
    requires FreeOf(b, BREAKS) && |b| >= 2 && b[0] == '-'
    ensures Headings(b) == []
  {
    HasAtChars(b, HEADING, 0);
    HeadingsOfLine(b);
  }

  lemma {:induction false} OneLineIsHeadless(conv: Conventions, cs: seq<Commit>)
    requires OneLineBullets(conv, cs)
    ensures BulletsHeadless(conv, cs)
  {
    hide Headings, Placed;
    forall c | c in cs && Placed(conv, c).Some? ensures Headings(Bullet(conv, c)) == [] {
      var b := Bullet(conv, c);
      assert b[0] == '-' && b[1] == ' ';
      ShortBullet(b);
    }
  }

  lemma {:induction false} HeadingLine(version: string, date: string)
    requires FreeOf(version + date, BREAKS)
    ensures Headings(HeadingText(version, date)) == [TrimEnd(HeadingText(version, date))]
  {
    var h := HeadingText(version, date);
    assert forall c | c in h :: c in version + date || c in HEADING || c in "] - ";
    assert FreeOf(h, BREAKS);
    assert h[0..4] == HEADING;
    HeadingsOfLine(h);
  }

  /** In particular a built entry of one-line parts has one heading. */
  lemma {:induction false} EntryHasOneHeading(conv: Conventions, version: string, date: string, cs: seq<Commit>)
    requires OneLineBullets(conv, cs) && FreeOf(version + date, BREAKS)
    ensures Headings(BuildEntry(conv, version, date, cs)) == [TrimEnd(HeadingText(version, date))]
  {
    hide Headings, TrimEnd, HeadingText, BuildEntry, OneLineBullets, BulletsHeadless;
    HeadingLine(version, date);
    OneLineIsHeadless(conv, cs);
    EntryHasOneHeadingIff(conv, version, date, cs);
  }

  /**
   Releasing: the entry's headings go directly behind the unreleased heading or on top, all other
   headings stay, and releasing the same version again changes nothing. The file gains exactly
   the one heading of the release if and only if that is one line and no bullet holds a heading.
   */
  lemma {:induction false} ReleaseAddsOneHeadingIff(existing: string, header: string, conv: Conventions,
                                                    version: string, date: string, cs: seq<Commit>)
    requires Includes(header, TITLE)
    ensures var base, h := BaseOf(existing, header), HeadingText(version, date);
      var entry := BuildEntry(conv, version, date, cs);
      var hs, k, text := Headings(base), Rank(Headings(base)), InsertEntry(existing, header, entry, version);
      if VersionPresent(base, version) then text == base
      else
        && Headings(text) == hs[..k] + Headings(entry) + hs[k..]
        && (Headings(text) == hs[..k] + [TrimEnd(h)] + hs[k..]
            <==> Headings(h) == [TrimEnd(h)] && BulletsHeadless(conv, cs))
    ensures var text := InsertEntry(existing, header, BuildEntry(conv, version, date, cs), version);
      forall again :: InsertEntry(text, header, again, version) == text
  {
    hide Headings, TrimEnd, Place, BuildEntry, VersionPresent, BaseOf, Rank, HeadingText, BulletsHeadless, Includes;
    var entry, hs := BuildEntry(conv, version, date, cs), Headings(BaseOf(existing, header));
    EntryStart(conv, version, date, cs);
    EntryHasOneHeadingIff(conv, version, date, cs);
    PlaceAddsHeadings(BaseOf(existing, header), entry);
    SameMiddle(hs[..Rank(hs)], Headings(entry), [TrimEnd(HeadingText(version, date))], hs[Rank(hs)..]);
    forall again ensures InsertEntry(InsertEntry(existing, header, entry, version), header, again, version)
      == InsertEntry(existing, header, entry, version)
    {
      InsertTwiceIsOnce(existing, header, entry, again, version);
    }
  }

  lemma SameMiddle(a: seq<string>, b: seq<string>, c: seq<string>, d: seq<string>)
    ensures a + b + d == a + c + d <==> b == c
  {
    if a + b + d == a + c + d {
      assert |a + b + d| == |a + c + d|;
      assert b == (a + b + d)[|a|..|a| + |b|] && c == (a + c + d)[|a|..|a| + |c|];
    }
  }
}
