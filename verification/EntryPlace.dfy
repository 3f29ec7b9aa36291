/** Where a release entry goes, told from the headings of the file. */
module EntryPlace {
  import opened Text
  import opened ChangelogInsert
  import opened ChangelogLaws

  /** The entry goes in at `c`, directly above a heading, and nothing else changes. */
  predicate GoesAbove(base: string, entry: string, text: string, c: nat) {
    && c + 4 <= |base| && base[c..c + 4] == "## ["
    && (c > 0 ==> base[c - 1] == '\n' || base[c - 1] == '\r' || base[c - 1] == '\U{2028}' || base[c - 1] == '\U{2029}')
    && text == base[..c] + entry + "\n" + base[c..]
  }

  /**
   With no heading after the first `rank` ones the entry goes to the end, behind a blank line; else
   directly above the heading that follows them.
   */
  lemma {:induction false} EntryIsPlaced(base: string, entry: string)
    ensures var hs, k, text := Headings(base), Rank(Headings(base)), Place(base, entry);
      if k == |hs| then text == TrimEnd(base) + "\n\n" + entry
      else GoesAbove(base, entry, text, Cut(base)) && Headings(base[..Cut(base)]) == hs[..k]
  {
    hide Headings, InsertionIndex, TrimEnd, Rank;
    HeadingsBeforeCut(base);
    if InsertionIndex(base) != -1 {
      HeadingAtIndex(base);
      BehindIsHeading(base, Cut(base));
    }
  }

  /** What begins at a heading has one. */
  lemma {:induction false} BehindIsHeading(base: string, c: nat)
    requires c <= |base| && IsLineStart(base, c) && HasAt(base, HEADING, c)
    ensures |Headings(base)| > |Headings(base[..c])|
  {
    hide Headings;
    HeadingsCut(base, c);
    HasAtDrop(base, c, HEADING, 0);
    FoundAt(base[c..], HEADING, 0);
    NoHeadingIff(base[c..]);
  }

  /** Below the unreleased heading, if that is the first one: it stays on top. */
  lemma {:induction false} UnreleasedStaysFirst(base: string, entry: string)
    requires Headings(base) != [] && Headings(base)[0] == "## [Unreleased]"
    ensures Headings(Place(base, entry)) == ["## [Unreleased]"] + Headings(entry) + Headings(base)[1..]
  {
    hide Headings, Place;
    PlaceAddsHeadings(base, entry);
    var hs := Headings(base);
    assert "## [Unreleased]" in hs;
    assert hs[..1] == ["## [Unreleased]"];
  }

  /** Without an unreleased heading it goes on top of all the others. */
  lemma {:induction false} NewestIsFirst(base: string, entry: string)
    requires "## [Unreleased]" !in Headings(base)
    ensures Headings(Place(base, entry)) == Headings(entry) + Headings(base)
  {
    hide Headings, Place;
    PlaceAddsHeadings(base, entry);
    var hs := Headings(base);
    assert hs[..0] + Headings(entry) + hs[0..] == Headings(entry) + hs;
  }

  /** The version is there already exactly if some line begins with its heading, closing bracket included. */
  lemma {:induction false} PresentIff(base: string, version: string)
    requires FreeOf(version, {'\n', '\r', '\U{2028}', '\U{2029}'})
    ensures VersionPresent(base, version) <==> exists l :: l in LinesOf(base) && StartsWith(l, "## [" + version + "]")
  {
    var pat := "## [" + version + "]";
    assert FreeOf("## [", BREAKS) && FreeOf("]", BREAKS);
    FreeConcat("## [" + version, "]", BREAKS);
    FreeConcat("## [", version, BREAKS);
    hide HasAt, StartsWith, LineAt, LinesOf, SearchLine, FreeOf;
    var r := SearchLine(base, pat, 0);
    if r != -1 {
      InText(base, pat, r);
      LineStartsWith(base, r, pat);
      LinesAre(base, LineAt(base, r));
    }
    if l :| l in LinesOf(base) && StartsWith(l, pat) {
      LinesAre(base, l);
      var p: nat :| p <= |base| && IsLineStart(base, p) && LineAt(base, p) == l;
      LineStartsWith(base, p, pat);
    }
  }

  lemma InText(s: string, pat: string, i: int)
    requires HasAt(s, pat, i)
    ensures 0 <= i <= |s|
  {
  }

  /** A file with the title is kept; any other is replaced by the header. */
  lemma {:induction false} FileIsKept(existing: string, header: string, entry: string, version: string)
    ensures Includes(existing, "# Changelog") ==> BaseOf(existing, header) == existing
    ensures !Includes(existing, "# Changelog") ==> BaseOf(existing, header) == header + "\n"
    ensures InsertEntry(existing, header, entry, version) == BaseOf(existing, header)
      || InsertEntry(existing, header, entry, version) == Place(BaseOf(existing, header), entry)
  {
    hide Place, VersionPresent, Includes;
    assert Contains(existing, TITLE) <==> Includes(existing, TITLE);
  }
}
