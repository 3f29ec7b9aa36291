/** The bullets in the text of a release entry: those of every section, in order, each once. */
module RenderedBullets {
  import opened Text
  import opened Lists
  import opened ChangelogEntries

  predicate IsBulletLine(l: string) { StartsWith(l, "- ") }

  /** The lines of a text that are bullets. */
  function BulletLines(text: string): seq<string> { Filter(Split(text, {'\n'}), IsBulletLine) }

  /** The bullets of the sections from `i` on, section by section, in commit order. */
  function AllBullets(conv: Conventions, cs: seq<Commit>, i: nat): seq<string>
    decreases |ORDER| - i
  {
    if i >= |ORDER| then [] else SectionBullets(conv, cs, ORDER[i]) + AllBullets(conv, cs, i + 1)
  }

  lemma {:induction false} CutBullets(a: string, b: string)
    ensures BulletLines(a + "\n" + b) == BulletLines(a) + BulletLines(b)
  {
    hide IsBulletLine;
    SplitConcat(a, '\n', b, {'\n'});
    assert a + "\n" + b == a + ['\n'] + b;
    FilterConcat(Split(a, {'\n'}), Split(b, {'\n'}), IsBulletLine);
  }

  lemma {:induction false} BulletsOfLine(l: string)
    requires FreeOf(l, {'\n'})
    ensures BulletLines(l) == if IsBulletLine(l) then [l] else []
  {
    hide IsBulletLine;
    SplitAtom(l, {'\n'});
    FilterOne(l, IsBulletLine);
  }

  lemma {:induction false} EmptyLine()
    ensures BulletLines("") == []
  {
    BulletsOfLine("");
  }

  function BulletsOfAll(texts: seq<string>): seq<string> {
    if texts == [] then [] else BulletLines(texts[0]) + BulletsOfAll(texts[1..])
  }

  lemma {:induction false} BulletsOfJoin(parts: seq<string>)
    ensures BulletLines(Join(parts, "\n")) == BulletLines(Join(parts, "\n\n")) == BulletsOfAll(parts)
  {
    hide BulletLines;
    EmptyLine();
    if |parts| > 1 {
      var a, b, b2 := parts[0], Join(parts[1..], "\n"), Join(parts[1..], "\n\n");
      BulletsOfJoin(parts[1..]);
      CutBullets(a, b);
      assert a + "\n\n" + b2 == a + "\n" + ("" + "\n" + b2);
      CutBullets(a, "" + "\n" + b2);
      CutBullets("", b2);
    } else if |parts| == 1 {
      assert parts[1..] == [];
      Assoc(BulletLines(parts[0]), [], []);
    }
  }

  lemma {:induction false} BulletBegins(conv: Conventions, c: Commit)
    requires conv.parse(c.subject).Some?
    ensures IsBulletLine(Bullet(conv, c))
  {
    var b := Bullet(conv, c);
    assert b[0..2] == "- ";
  }

  /** Every bullet begins as one. */
  lemma {:induction false} BulletsBegin(conv: Conventions, cs: seq<Commit>)
    requires forall c | c in cs :: Placed(conv, c).Some?
    ensures forall b | b in Bullets(conv, cs) :: IsBulletLine(b)
  {
    hide Bullet, Placed, IsBulletLine;
    if cs != [] {
      assert cs[0] in cs && Placed(conv, cs[0]).Some?;
      BulletBegins(conv, cs[0]);
      BulletsBegin(conv, cs[1..]);
      assert Bullets(conv, cs) == [Bullet(conv, cs[0])] + Bullets(conv, cs[1..]);
    }
  }

  lemma {:induction false} PiecesAreFree(s: string, seps: set<char>)
    ensures forall p | p in Split(s, seps) :: FreeOf(p, seps)
  {
    if s != "" {
      PiecesAreFree(s[1..], seps);
      var rest := Split(s[1..], seps);
      assert rest[0] in rest && forall p | p in rest[1..] :: p in rest;
      FreeConcat([s[0]], rest[0], seps);
    }
  }

  /** One-line bullets are their own bullet lines. */
  lemma {:induction false} BulletsAreLines(bullets: seq<string>)
    requires forall b | b in bullets :: IsBulletLine(b) && FreeOf(b, {'\n'})
    ensures BulletsOfAll(bullets) == bullets
  {
    hide IsBulletLine, FreeOf, BulletLines;
    if bullets != [] {
      BulletsOfLine(bullets[0]);
      BulletsAreLines(bullets[1..]);
    }
  }

  lemma NameOnOneLine(s: Section)
    ensures FreeOf(s.Name(), {'\n'})
  {
    NameIsPlain(s);
  }

  lemma {:induction false} HeadIsNoBullet(s: Section)
    ensures BulletLines("### " + s.Name()) == []
  {
    var head := "### " + s.Name();
    NameOnOneLine(s);
    assert FreeOf("### ", {'\n'});
    FreeConcat("### ", s.Name(), {'\n'});
    HasAtChars(head, "- ", 0);
    BulletsOfLine(head);
  }

  lemma {:induction false} SectionLines(s: Section, bullets: seq<string>)
    ensures BulletLines("### " + s.Name() + "\n" + Join(bullets, "\n")) == BulletsOfAll(bullets)
  {
    hide BulletLines, Join;
    HeadIsNoBullet(s);
    BulletsOfJoin(bullets);
    CutBullets("### " + s.Name(), Join(bullets, "\n"));
    Assoc([], BulletsOfAll(bullets), []);
  }

  lemma {:induction false} AllBegin(conv: Conventions, cs: seq<Commit>, i: nat)
    ensures forall b | b in AllBullets(conv, cs, i) :: IsBulletLine(b)
    decreases |ORDER| - i
  {
    hide IsBulletLine, Bullets;
    if i < |ORDER| {
      BulletsBegin(conv, InSection(conv, cs, ORDER[i]));
      AllBegin(conv, cs, i + 1);
    }
  }

  lemma {:induction false} BulletsOfConcat(a: seq<string>, b: seq<string>)
    ensures BulletsOfAll(a + b) == BulletsOfAll(a) + BulletsOfAll(b)
  {
    hide BulletLines;
    if a == [] {
      assert a + b == b;
    } else {
      assert (a + b)[1..] == a[1..] + b;
      BulletsOfConcat(a[1..], b);
    }
  }

  /** The bullet lines of the sections from `i` on are those of their bullets. */
  lemma {:induction false} PartLines(conv: Conventions, cs: seq<Commit>, i: nat)
    ensures BulletsOfAll(Parts(conv, cs, i)) == BulletsOfAll(AllBullets(conv, cs, i))
    decreases |ORDER| - i
  {
    hide BulletLines, SectionBullets, Join;
    if i < |ORDER| {
      var bullets, rest := SectionBullets(conv, cs, ORDER[i]), Parts(conv, cs, i + 1);
      PartLines(conv, cs, i + 1);
      BulletsOfConcat(bullets, AllBullets(conv, cs, i + 1));
      if bullets == [] {
        assert [] + rest == rest;
      } else {
        var part := "### " + ORDER[i].Name() + "\n" + Join(bullets, "\n");
        SectionLines(ORDER[i], bullets);
        assert ([part] + rest)[1..] == rest;
      }
    }
  }

  lemma {:induction false} BulletHasLine(b: string)
    requires IsBulletLine(b)
    ensures |BulletLines(b)| >= 1
  {
    var dash, rest := "- ", b[2..];
    assert b == dash + rest;
    assert FreeOf(dash, {'\n'});
    SplitBehind(dash, rest, {'\n'});
    var first := Split(b, {'\n'})[0];
    assert first[0..2] == dash;
    assert first in Filter(Split(b, {'\n'}), IsBulletLine);
  }

  lemma {:induction false} NoFewerLines(bullets: seq<string>)
    requires forall b | b in bullets :: IsBulletLine(b)
    ensures |BulletsOfAll(bullets)| >= |bullets|
  {
    hide IsBulletLine, BulletLines;
    if bullets != [] {
      BulletHasLine(bullets[0]);
      NoFewerLines(bullets[1..]);
    }
  }

  lemma {:induction false} SectionLinesAre(conv: Conventions, cs: seq<Commit>)
    ensures BulletLines(SectionsText(conv, cs)) == BulletsOfAll(AllBullets(conv, cs, 0))
    ensures |BulletLines(SectionsText(conv, cs))| >= |AllBullets(conv, cs, 0)|
  {
    hide IsBulletLine, AllBullets, Parts;
    BulletsOfJoin(Parts(conv, cs, 0));
    PartLines(conv, cs, 0);
    AllBegin(conv, cs, 0);
    NoFewerLines(AllBullets(conv, cs, 0));
  }

  /**
   The bullet lines of the sections text are the bullets of all the sections, in the order of the
   sections and in commit order within each, every one once: exactly when each bullet is one line.
   */
  lemma {:induction false} SectionsHoldBulletsIff(conv: Conventions, cs: seq<Commit>)
    ensures BulletLines(SectionsText(conv, cs)) == AllBullets(conv, cs, 0)
       <==> forall b | b in AllBullets(conv, cs, 0) :: FreeOf(b, {'\n'})
  {
    hide IsBulletLine, FreeOf, AllBullets;
    var all := AllBullets(conv, cs, 0);
    SectionLinesAre(conv, cs);
    AllBegin(conv, cs, 0);
    PiecesAreFree(SectionsText(conv, cs), {'\n'});
    if forall b | b in all :: FreeOf(b, {'\n'}) {
      BulletsAreLines(all);
    }
  }

  lemma {:induction false} HeadingIsNoBullet(version: string, date: string)
    requires FreeOf(version + date, {'\n'})
    ensures BulletLines(HeadingText(version, date)) == []
  {
    var h := HeadingText(version, date);
    assert forall c | c in h :: c in version + date || c in "## [] - ";
    assert FreeOf("## [] - ", {'\n'});
    assert FreeOf(h, {'\n'});
    assert h[0] == '#';
    HasAtChars(h, "- ", 0);
    BulletsOfLine(h);
  }

  lemma NoChangesIsNoBullet()
    ensures BulletLines(NO_CHANGES) == []
  {
    NoChangesFree();
    HasAtChars(NO_CHANGES, "- ", 0);
    BulletsOfLine(NO_CHANGES);
  }

  lemma {:induction false} HeadThenText(h: string, text: string)
    ensures BulletLines(h + "\n" + "\n" + text + "\n") == BulletLines(h) + BulletLines(text)
  {
    hide BulletLines;
    EmptyLine();
    assert h + "\n" + "\n" + text + "\n" == h + "\n" + ("" + "\n" + (text + "\n" + ""));
    CutBullets(h, "" + "\n" + (text + "\n" + ""));
    CutBullets("", text + "\n" + "");
    CutBullets(text, "");
    Assoc(BulletLines(text), [], []);
  }

  /**
   So for the whole entry: no bullet is lost, doubled or made up, exactly when each bullet is one
   line and the version and date put no bullet line into the heading.
   */
  lemma {:induction false} EntryHoldsBulletsIff(conv: Conventions, version: string, date: string, cs: seq<Commit>)
    ensures BulletLines(BuildEntry(conv, version, date, cs)) == AllBullets(conv, cs, 0)
       <==> (BulletLines(HeadingText(version, date)) == []
             && forall b | b in AllBullets(conv, cs, 0) :: FreeOf(b, {'\n'}))
  {
    hide BulletLines, AllBullets, FreeOf, SectionsText, HeadingText;
    var body, head := SectionsText(conv, cs), BulletLines(HeadingText(version, date));
    SectionsHoldBulletsIff(conv, cs);
    SectionLinesAre(conv, cs);
    NoChangesIsNoBullet();
    EmptyLine();
    HeadThenText(HeadingText(version, date), if body != "" then body else NO_CHANGES);
    Assoc([], BulletLines(body), []);
    assert |head + BulletLines(body)| == |head| + |BulletLines(body)|;
  }
}
