/** What inserting an entry does to the headings of the changelog. */
module ChangelogLaws {
  import opened Text
  import opened Lists
  import opened ChangelogInsert

  // ----- the headings of a text

  function LinesOf(s: string): seq<string> { Split(s, BREAKS) }

  predicate IsHeadingLine(l: string) { StartsWith(l, HEADING) }

  function TrimmedEnds(ls: seq<string>): seq<string> {
    if ls == [] then [] else [TrimEnd(ls[0])] + TrimmedEnds(ls[1..])
  }

  /** The release headings, without trailing white space. */
  function Headings(s: string): seq<string> {
    TrimmedEnds(Filter(LinesOf(s), IsHeadingLine))
  }

  lemma {:induction false} TrimmedEndsConcat(a: seq<string>, b: seq<string>)
    ensures TrimmedEnds(a + b) == TrimmedEnds(a) + TrimmedEnds(b)
  {
    if a == [] {
      assert a + b == b;
    } else {
      assert (a + b)[1..] == a[1..] + b;
      TrimmedEndsConcat(a[1..], b);
    }
  }

  /** A line break separates headings. */
  lemma HeadingsSplit(a: string, c: char, b: string)
    requires c in BREAKS
    ensures Headings(a + [c] + b) == Headings(a) + Headings(b)
  {
    SplitConcat(a, c, b, BREAKS);
    FilterConcat(LinesOf(a), LinesOf(b), IsHeadingLine);
    TrimmedEndsConcat(Filter(LinesOf(a), IsHeadingLine), Filter(LinesOf(b), IsHeadingLine));
  }

  lemma HeadingsOfLine(l: string)
    requires FreeOf(l, BREAKS)
    ensures Headings(l) == if IsHeadingLine(l) then [TrimEnd(l)] else []
  {
    hide Split, TrimEnd, IsHeadingLine, Filter;
    SplitAtom(l, BREAKS);
    FilterOne(l, IsHeadingLine);
    assert TrimmedEnds([l]) == [TrimEnd(l)] + TrimmedEnds([]);
  }

  /** Cutting at a line start cuts between headings. */
  lemma HeadingsCut(s: string, i: nat)
    requires i <= |s| && IsLineStart(s, i)
    ensures Headings(s) == Headings(s[..i]) + Headings(s[i..])
  {
    HeadingsOfLine("");
    if i == 0 {
      assert s[..0] == "" && s[0..] == s;
    } else {
      var a, c, b := s[..i - 1], s[i - 1], s[i..];
      assert s == a + [c] + b && s[..i] == a + [c] + "";
      hide Headings;
      HeadingsSplit(a, c, b);
      HeadingsSplit(a, c, "");
    }
  }

  /** The end of the line that holds position `i`. */
  function LineEnd(s: string, i: nat): (b: nat)
    requires i <= |s|
    ensures i <= b <= |s| && (forall k | i <= k < b :: s[k] !in BREAKS) && (b < |s| ==> s[b] in BREAKS)
    decreases |s| - i
  {
    if i < |s| && s[i] !in BREAKS then LineEnd(s, i + 1) else i
  }

  /** The line that starts at `p`. */
  function LineAt(s: string, p: nat): (l: string)
    requires p <= |s|
    ensures FreeOf(l, BREAKS)
  {
    s[p..LineEnd(s, p)]
  }

  ghost predicate HasLine(s: string, x: string) {
    exists p: nat :: p <= |s| && IsLineStart(s, p) && LineAt(s, p) == x
  }

  lemma LineAtShift(s: string, b: nat, p: nat)
    requires b < |s| && s[b] in BREAKS && p <= |s| - b - 1
    ensures IsLineStart(s[b + 1..], p) <==> IsLineStart(s, b + 1 + p)
    ensures LineAt(s[b + 1..], p) == LineAt(s, b + 1 + p)
  {
    var rest := s[b + 1..];
    var e := LineEnd(rest, p);
    LineEndIs(s, b + 1 + p, b + 1 + e);
  }

  lemma {:induction false} LineEndIs(s: string, i: nat, b: nat)
    requires i <= b <= |s| && (forall k | i <= k < b :: s[k] !in BREAKS) && (b < |s| ==> s[b] in BREAKS)
    ensures LineEnd(s, i) == b
    decreases b - i
  {
    if i < b {
      LineEndIs(s, i + 1, b);
    }
  }

  lemma OnlyLine(s: string, x: string)
    requires LineEnd(s, 0) == |s|
    ensures HasLine(s, x) <==> x == s
  {
    hide LineEnd;
    forall p: nat | 0 < p <= |s| ensures !IsLineStart(s, p) {
      assert s[p - 1] in s;
    }
    assert IsLineStart(s, 0) && LineAt(s, 0) == s;
  }

  lemma FirstLineOrLater(s: string, b: nat, x: string)
    requires b == LineEnd(s, 0) < |s|
    ensures HasLine(s, x) <==> x == LineAt(s, 0) || HasLine(s[b + 1..], x)
  {
    hide LineEnd, LineAt;
    var rest := s[b + 1..];
    assert IsLineStart(s, 0);
    if p: nat :| p <= |s| && IsLineStart(s, p) && LineAt(s, p) == x {
      if p > 0 {
        assert p >= b + 1;
        LineAtShift(s, b, p - b - 1);
      }
    }
    if p: nat :| p <= |rest| && IsLineStart(rest, p) && LineAt(rest, p) == x {
      LineAtShift(s, b, p);
    }
  }

  /** The lines of a text are what stands at its line starts. */
  lemma {:induction false} LinesAre(s: string, x: string)
    ensures x in LinesOf(s) <==> HasLine(s, x)
    decreases |s|
  {
    var b, first := LineEnd(s, 0), LineAt(s, 0);
    SplitAtom(first, BREAKS);
    if b == |s| {
      assert first == s;
      OnlyLine(s, x);
    } else {
      assert s == first + [s[b]] + s[b + 1..];
      hide LineAt, LineEnd, HasLine, Split;
      SplitConcat(first, s[b], s[b + 1..], BREAKS);
      LinesAre(s[b + 1..], x);
      FirstLineOrLater(s, b, x);
    }
  }

  /** What the headings are, line by line. */
  lemma {:induction false} TrimmedEndsMember(ls: seq<string>, x: string)
    ensures x in TrimmedEnds(ls) <==> exists l :: l in ls && TrimEnd(l) == x
  {
    if ls != [] {
      hide TrimEnd;
      assert ls == [ls[0]] + ls[1..] && ls[0] in ls;
      TrimmedEndsMember(ls[1..], x);
      assert forall l :: l in ls <==> l == ls[0] || l in ls[1..];
    }
  }

  lemma HeadingIsLine(s: string, x: string)
    ensures x in Headings(s) <==> exists p: nat ::
      p <= |s| && IsLineStart(s, p) && IsHeadingLine(LineAt(s, p)) && TrimEnd(LineAt(s, p)) == x
  {
    TrimmedEndsMember(Filter(LinesOf(s), IsHeadingLine), x);
    hide LinesOf, LineAt, TrimEnd, IsHeadingLine;
    if x in Headings(s) {
      var l :| l in Filter(LinesOf(s), IsHeadingLine) && TrimEnd(l) == x;
      LinesAre(s, l);
      var p: nat :| p <= |s| && IsLineStart(s, p) && LineAt(s, p) == l;
    }
    if p: nat :| p <= |s| && IsLineStart(s, p) && IsHeadingLine(LineAt(s, p)) && TrimEnd(LineAt(s, p)) == x {
      LinesAre(s, LineAt(s, p));
    }
  }

  /** A pattern without line breaks occurs at `p` exactly when the line there starts with it. */
  lemma LineStartsWith(s: string, p: nat, pat: string)
    requires p <= |s| && FreeOf(pat, BREAKS)
    ensures StartsWith(LineAt(s, p), pat) <==> HasAt(s, pat, p)
  {
    HasAtChars(s, pat, p);
    HasAtChars(LineAt(s, p), pat, 0);
    assert forall k | 0 <= k < |pat| :: pat[k] in pat;
  }

  lemma NoHeadingIff(s: string)
    ensures SearchLine(s, HEADING, 0) == -1 <==> Headings(s) == []
  {
    var r := SearchLine(s, HEADING, 0);
    hide HasAt, Headings, LineAt, SearchLine;
    if r != -1 {
      LineStartsWith(s, r, HEADING);
      HeadingIsLine(s, TrimEnd(LineAt(s, r)));
    }
    if Headings(s) != [] {
      var x := Headings(s)[0];
      HeadingIsLine(s, x);
      var p: nat :| p <= |s| && IsLineStart(s, p) && IsHeadingLine(LineAt(s, p)) && TrimEnd(LineAt(s, p)) == x;
      LineStartsWith(s, p, HEADING);
    }
  }

  // ----- the unreleased heading

  lemma {:induction false} TrimEndIs(s: string, t: string)
    requires t <= s && (t != "" ==> !IsSpace(t[|t| - 1])) && forall i | |t| <= i < |s| :: IsSpace(s[i])
    ensures TrimEnd(s) == t
    decreases |s|
  {
    hide IsSpace;
    if |t| < |s| {
      TrimEndIs(s[..|s| - 1], t);
    }
  }

  /** The pattern for the unreleased heading matches exactly the lines that are it, up to white space at the end. */
  lemma UnreleasedLine(s: string, p: nat)
    requires p <= |s| && IsLineStart(s, p)
    ensures UnreleasedEnd(s, p) != -1 <==> TrimEnd(LineAt(s, p)) == UNRELEASED
    ensures UnreleasedEnd(s, p) != -1 ==>
      LineEnd(s, p) <= UnreleasedEnd(s, p) && forall k | LineEnd(s, p) <= k < UnreleasedEnd(s, p) :: IsSpace(s[k])
  {
    hide SpaceEnd, LineEnd, TrimEnd, HasAt, IsSpace;
    var l, b, n := LineAt(s, p), LineEnd(s, p), |UNRELEASED|;
    UnreleasedText();
    LineStartsWith(s, p, UNRELEASED);
    BreaksAreSpace();
    if HasAt(s, UNRELEASED, p) {
      PrefixOf(l, UNRELEASED);
      var w := SpaceEnd(s, p + n);
      if UnreleasedEnd(s, p) != -1 {
        assert b <= UnreleasedEnd(s, p);
        TrimEndIs(l, UNRELEASED);
      }
      if TrimEnd(l) == UNRELEASED {
        assert forall i | p + n <= i < b :: l[i - p] == s[i];
        assert b < |s| ==> b < w;
      }
    } else if TrimEnd(l) == UNRELEASED {
      PrefixOf(l, UNRELEASED);
    }
  }

  lemma UnreleasedText()
    ensures FreeOf(UNRELEASED, BREAKS) && !IsSpace(UNRELEASED[|UNRELEASED| - 1]) && |UNRELEASED| == 15
    ensures HEADING <= UNRELEASED
  {
  }

  lemma BreaksAreSpace()
    ensures forall c | c in BREAKS :: IsSpace(c)
  {
  }

  lemma PrefixOf(l: string, pat: string)
    ensures StartsWith(l, pat) <==> pat <= l
  {
  }

  /** An unreleased heading is found exactly when the headings hold one. */
  lemma UnreleasedFoundIff(s: string)
    ensures UnreleasedAt(s, 0) != -1 <==> UNRELEASED in Headings(s)
  {
    hide UnreleasedEnd, LineAt, TrimEnd, Headings, HasAt, IsHeadingLine;
    HeadingIsLine(s, UNRELEASED);
    var u := UnreleasedAt(s, 0);
    if u != -1 {
      UnreleasedIsHeading(s, u);
    }
    if UNRELEASED in Headings(s) {
      var p: nat :| p <= |s| && IsLineStart(s, p) && IsHeadingLine(LineAt(s, p)) && TrimEnd(LineAt(s, p)) == UNRELEASED;
      UnreleasedLine(s, p);
    }
  }

  /** An unreleased heading with text behind it is taken for a release, and entries go above it. */
  lemma {:induction false} UnreleasedWithText(base: string, entry: string)
    requires base == UNRELEASED + " x"
    ensures UnreleasedAt(base, 0) == -1 && InsertionIndex(base) == 0
    ensures Place(base, entry) == entry + "\n" + base
  {
    UnreleasedText();
    assert FreeOf(" x", BREAKS);
    FreeConcat(UNRELEASED, " x", BREAKS);
    assert base[0..4] == UNRELEASED[0..4] == HEADING && base[|base| - 1] == 'x';
    NotSpace(base[|base| - 1]);
    hide TrimEnd, Headings, FreeOf, IsSpace, UnreleasedAt, SearchLine, HasAt;
    HeadingsOfLine(base);
    TrimEndIs(base, base);
    UnreleasedFoundIff(base);
    FoundFirst(base);
    assert base[..0] == "" && base[0..] == base;
  }

  lemma NotSpace(c: char)
    requires c == 'x'
    ensures !IsSpace(c)
  {
  }

  lemma {:induction false} FoundFirst(s: string)
    requires |s| >= 4 && s[0..4] == HEADING
    ensures SearchLine(s, HEADING, 0) == 0
  {
    assert HasAt(s, HEADING, 0);
    hide HasAt;
  }

  lemma UnreleasedIsHeading(s: string, u: nat)
    requires UnreleasedEnd(s, u) != -1
    ensures u <= |s| && IsLineStart(s, u) && IsHeadingLine(LineAt(s, u)) && TrimEnd(LineAt(s, u)) == UNRELEASED
  {
    hide LineAt, TrimEnd, SpaceEnd, LastBreak;
    assert IsLineStart(s, u) && u <= |s|;
    UnreleasedLine(s, u);
    UnreleasedText();
    PrefixOf(LineAt(s, u), HEADING);
    assert UNRELEASED <= LineAt(s, u);
  }

  // ----- where the entry goes

  /** The number of headings up to and including the first unreleased one; 0 if there is none. */
  function Rank(hs: seq<string>): (k: nat)
    ensures k <= |hs|
  {
    if UNRELEASED !in hs then 0
    else if hs[0] == UNRELEASED then 1
    else
      assert hs == [hs[0]] + hs[1..];
      1 + Rank(hs[1..])
  }

  lemma {:induction false} RankIs(before: seq<string>, after: seq<string>)
    requires UNRELEASED !in before
    ensures Rank(before + [UNRELEASED] + after) == |before| + 1
  {
    var hs := before + [UNRELEASED] + after;
    assert UNRELEASED in hs by { assert hs[|before|] == UNRELEASED; }
    if before != [] {
      assert hs[0] == before[0] && before[0] in before;
      assert hs[1..] == before[1..] + [UNRELEASED] + after;
      RankIs(before[1..], after);
    }
  }

  /** Text in which every heading is ruled out has no headings. */
  lemma NoHeadings(s: string)
    requires forall j: nat | j <= |s| && IsLineStart(s, j) :: !HasAt(s, HEADING, j)
    ensures Headings(s) == []
  {
    NoHeadingIff(s);
  }

  /** No heading stands between `from` and the next heading after it, or the end. */
  lemma NoneBefore(s: string, from: nat, cut: nat)
    requires from <= cut <= |s| && IsLineStart(s, from)
    requires forall j: nat | from <= j < cut && IsLineStart(s, j) :: !HasAt(s, HEADING, j)
    ensures Headings(s[from..cut]) == []
  {
    var t := s[from..cut];
    forall j: nat | j <= |t| && IsLineStart(t, j) ensures !HasAt(t, HEADING, j) {
      HasAtChars(t, HEADING, j);
      HasAtChars(s, HEADING, from + j);
    }
    hide HasAt;
    NoHeadings(t);
  }

  /** The place where the entry goes: before the next heading, or at the end. */
  function Cut(base: string): (c: nat)
    ensures c <= |base|
  {
    if InsertionIndex(base) == -1 then |base| else InsertionIndex(base)
  }

  lemma SearchIsNext(base: string, from: nat)
    requires from <= |base| && (from < |base| ==> base[from] != '#')
    ensures var idx := NextHeadingAfter(base, from);
      && (idx != -1 ==> from < idx <= |base| && IsLineStart(base, idx))
      && forall j: nat | from < j < (if idx == -1 then |base| else idx) && IsLineStart(base, j)
         :: !HasAt(base, HEADING, j)
  {
    var rest := base[from..];
    var r := SearchLine(rest, HEADING, 0);
    forall j: nat ensures HasAt(rest, HEADING, j) <==> HasAt(base, HEADING, from + j) {
      HasAtDrop(base, from, HEADING, j);
    }
    HasAtChars(rest, HEADING, 0);
    hide HasAt, SearchLine;
    var idx := NextHeadingAfter(base, from);
    forall j: nat | from < j < (if idx == -1 then |base| else idx) && IsLineStart(base, j)
      ensures !HasAt(base, HEADING, j)
    {
      assert IsLineStart(rest, j - from);
    }
  }

  /** Before the place of insertion stand the headings up to the unreleased one. */
  lemma HeadingsBeforeCut(base: string)
    ensures InsertionIndex(base) != -1 ==> IsLineStart(base, InsertionIndex(base))
    ensures var hs := Headings(base);
      Headings(base[..Cut(base)]) == hs[..Rank(hs)] && (InsertionIndex(base) == -1 ==> Rank(hs) == |hs|)
  {
    hide Headings, UnreleasedAt, UnreleasedEnd, HasAt, NextHeadingAfter, SearchLine;
    UnreleasedFoundIff(base);
    if UnreleasedAt(base, 0) == -1 {
      CutWithout(base);
    } else {
      CutWith(base);
    }
  }

  lemma CutWithout(base: string)
    requires UnreleasedAt(base, 0) == -1
    ensures InsertionIndex(base) != -1 ==> IsLineStart(base, InsertionIndex(base))
    ensures Headings(base[..Cut(base)]) == [] && (InsertionIndex(base) == -1 ==> Headings(base) == [])
  {
    hide Headings, HasAt;
    var idx, c := SearchLine(base, HEADING, 0), Cut(base);
    HasAtChars(base, HEADING, |base|);
    NoneBefore(base, 0, c);
    assert base[0..c] == base[..c];
    NoHeadingIff(base);
  }

  lemma CutWith(base: string)
    requires UnreleasedAt(base, 0) != -1
    ensures InsertionIndex(base) != -1 ==> IsLineStart(base, InsertionIndex(base))
    ensures var hs := Headings(base);
      Headings(base[..Cut(base)]) == hs[..Rank(hs)] && (InsertionIndex(base) == -1 ==> Rank(hs) == |hs|)
  {
    hide Headings, UnreleasedEnd, HasAt, NextHeadingAfter, SearchLine, LineEnd, LineAt;
    var u := UnreleasedAt(base, 0);
    var e, c := UnreleasedEnd(base, u), Cut(base);
    UnreleasedIsHeading(base, u);
    UnreleasedLine(base, u);
    EndIsNoHeading(base, u);
    SearchIsNext(base, e);
    NothingUnreleasedBefore(base, u);
    var before := Headings(base[..u]);
    HeadingsToCut(base, u, c);
    if c < |base| {
      HeadingsCut(base, c);
    } else {
      assert base[..c] == base;
    }
    var after := if c < |base| then Headings(base[c..]) else [];
    assert Headings(base) == before + [UNRELEASED] + after;
    RankIs(before, after);
  }

  lemma EndIsNoHeading(s: string, u: nat)
    requires UnreleasedEnd(s, u) != -1
    ensures var e := UnreleasedEnd(s, u); e < |s| ==> s[e] in BREAKS && s[e] != '#'
  {
    hide SpaceEnd, HasAt;
  }

  lemma NothingUnreleasedBefore(s: string, u: nat)
    requires u == UnreleasedAt(s, 0) && u <= |s| && IsLineStart(s, u)
    ensures UNRELEASED !in Headings(s[..u])
  {
    hide Headings, LineAt, TrimEnd, HasAt, IsHeadingLine, UnreleasedEnd;
    var t := s[..u];
    UnreleasedFoundIff(t);
    var q := UnreleasedAt(t, 0);
    if q != -1 {
      UnreleasedIsHeading(t, q);
      UnreleasedSurvives(s, u, q);
    }
  }

  /** A heading that ends before a line start is the same heading in the longer text. */
  lemma UnreleasedSurvives(s: string, u: nat, q: nat)
    requires u <= |s| && IsLineStart(s, u) && q <= u && UnreleasedEnd(s[..u], q) != -1
    ensures UnreleasedEnd(s, q) != -1 && q < u
  {
    hide HasAt, SpaceEnd, LastBreak;
    var t := s[..u];
    UnreleasedLine(t, q);
    HasAtChars(t, UNRELEASED, q);
    HasAtChars(s, UNRELEASED, q);
    UnreleasedText();
    var b := LineEnd(t, q);
    assert u > 0 && t[u - 1] in BREAKS;
    if b == |t| {
      LineEndBefore(t, q);
    }
    SameLine(s, u, q);
    hide UnreleasedEnd, LineAt;
    UnreleasedLine(s, q);
  }

  lemma SameLine(s: string, u: nat, q: nat)
    requires q <= u <= |s| && LineEnd(s[..u], q) < u
    ensures LineEnd(s, q) == LineEnd(s[..u], q) && LineAt(s, q) == LineAt(s[..u], q)
  {
    var t, b := s[..u], LineEnd(s[..u], q);
    assert forall k | q <= k <= b :: s[k] == t[k];
    hide LineEnd;
    LineEndIs(s, q, b);
    assert s[q..b] == t[q..b];
  }

  lemma LineEndBefore(t: string, q: nat)
    requires q < |t| && t[|t| - 1] in BREAKS
    ensures LineEnd(t, q) < |t|
  {
  }

  /** From the start to the cut: what stands before the unreleased heading, and that heading. */
  lemma HeadingsToCut(base: string, u: nat, c: nat)
    requires u <= |base| && IsLineStart(base, u) && IsHeadingLine(LineAt(base, u))
    requires TrimEnd(LineAt(base, u)) == UNRELEASED
    requires UnreleasedEnd(base, u) != -1 && UnreleasedEnd(base, u) <= c <= |base|
    requires LineEnd(base, u) <= UnreleasedEnd(base, u)
    requires forall k | LineEnd(base, u) <= k < UnreleasedEnd(base, u) :: IsSpace(base[k])
    requires UnreleasedEnd(base, u) < |base| ==> base[UnreleasedEnd(base, u)] != '#' && UnreleasedEnd(base, u) < c
    requires forall j: nat | UnreleasedEnd(base, u) < j < c && IsLineStart(base, j) :: !HasAt(base, HEADING, j)
    ensures Headings(base[..c]) == Headings(base[..u]) + [UNRELEASED]
  {
    hide Headings, UnreleasedEnd, IsHeadingLine, TrimEnd, HasAt, LineEnd;
    var b, e := LineEnd(base, u), UnreleasedEnd(base, u);
    var l := LineAt(base, u);
    HeadingsOfLine(l);
    HeadingsCut(base[..c], u);
    assert base[..c][..u] == base[..u] && base[..c][u..] == base[u..c];
    if b == c {
      assert base[u..c] == l;
    } else {
      LineThenRest(base, u, b, c);
      RestHasNone(base, b, e, c);
    }
  }

  /** After a line break, white space up to `e` and then no heading before `c`: no heading at all. */
  lemma RestHasNone(base: string, b: nat, e: nat, c: nat)
    requires b <= e && b < c <= |base| && base[b] in BREAKS
    requires e <= c && forall k | b <= k < e :: IsSpace(base[k])
    requires e < |base| ==> base[e] != '#'
    requires forall j: nat | e < j < c && IsLineStart(base, j) :: !HasAt(base, HEADING, j)
    ensures Headings(base[b + 1..c]) == []
  {
    hide Headings, HasAt, IsSpace;
    forall j: nat | b + 1 <= j < c && IsLineStart(base, j) ensures !HasAt(base, HEADING, j) {
      HeadingStartsWithHash(base, j);
    }
    NoneBefore(base, b + 1, c);
  }

  lemma LineThenRest(s: string, u: nat, b: nat, c: nat)
    requires u <= b < c <= |s| && s[b] in BREAKS
    ensures Headings(s[u..c]) == Headings(s[u..b]) + Headings(s[b + 1..c])
  {
    hide Headings;
    assert s[u..c] == s[u..b] + [s[b]] + s[b + 1..c];
    HeadingsSplit(s[u..b], s[b], s[b + 1..c]);
  }

  lemma HeadingStartsWithHash(s: string, j: nat)
    ensures HasAt(s, HEADING, j) ==> j < |s| && s[j] == '#' && !IsSpace(s[j])
  {
    HasAtChars(s, HEADING, j);
  }

  // ----- the effect of an insertion

  /** White space at the end holds no headings and is no part of one. */
  lemma {:induction false} TrimKeepsHeadings(s: string)
    ensures Headings(TrimEnd(s)) == Headings(s)
    decreases |s|
  {
    hide Headings;
    if s != "" && IsSpace(s[|s| - 1]) {
      var t, c := s[..|s| - 1], s[|s| - 1];
      assert s == t + [c];
      TrimKeepsHeadings(t);
      if c in BREAKS {
        HeadingsSplit(t, c, "");
        HeadingsOfLine("");
        assert t + [c] + "" == s;
      } else {
        SpaceOnLastLine(t, c);
      }
    }
  }

  /** The start of the last line. */
  function LastLineStart(s: string, i: nat): (q: nat)
    requires i <= |s| && forall k | i <= k < |s| :: s[k] !in BREAKS
    ensures q <= |s| && IsLineStart(s, q) && forall k | q <= k < |s| :: s[k] !in BREAKS
  {
    if i == 0 || s[i - 1] in BREAKS then i else LastLineStart(s, i - 1)
  }

  lemma SpaceAfterLine(l: string, c: char)
    requires IsSpace(c)
    ensures IsHeadingLine(l + [c]) <==> IsHeadingLine(l)
    ensures TrimEnd(l + [c]) == TrimEnd(l)
  {
    assert (l + [c])[..|l + [c]| - 1] == l && c != '[';
    var m := l + [c];
    HasAtChars(l, HEADING, 0);
    HasAtChars(m, HEADING, 0);
    assert forall k | 0 <= k < |l| :: m[k] == l[k];
    assert m[|l|] == c && HEADING[3] == '[';
    assert |l| >= 4 ==> m[0 + 0] == l[0] && m[0 + 1] == l[1] && m[0 + 2] == l[2] && m[0 + 3] == l[3];
    hide IsSpace;
  }

  lemma SpaceOnLastLine(t: string, c: char)
    requires IsSpace(c) && c !in BREAKS
    ensures Headings(t + [c]) == Headings(t)
  {
    hide Headings, TrimEnd, IsHeadingLine, IsSpace;
    var q, s := LastLineStart(t, |t|), t + [c];
    var l := t[q..];
    assert s[..q] == t[..q] && s[q..] == l + [c];
    SpaceAfterLine(l, c);
    HeadingsOfLine(l);
    HeadingsOfLine(l + [c]);
    HeadingsCut(t, q);
    HeadingsCut(s, q);
  }

  /**
   Inserting an entry adds its headings in one place and changes no other: directly after the
   first unreleased heading if there is one, and before all others if there is none.
   */
  lemma PlaceAddsHeadings(base: string, entry: string)
    ensures var hs := Headings(base);
      Headings(Place(base, entry)) == hs[..Rank(hs)] + Headings(entry) + hs[Rank(hs)..]
  {
    hide Headings, InsertionIndex, TrimEnd;
    var hs, idx := Headings(base), InsertionIndex(base);
    HeadingsBeforeCut(base);
    if idx == -1 {
      TrimKeepsHeadings(base);
      var t := TrimEnd(base);
      assert t + "\n\n" + entry == t + ['\n'] + ("" + ['\n'] + entry);
      HeadingsSplit(t, '\n', "" + ['\n'] + entry);
      HeadingsSplit("", '\n', entry);
      HeadingsOfLine("");
    } else {
      var x := base[..idx] + entry;
      assert Place(base, entry) == x + ['\n'] + base[idx..];
      HeadingsSplit(x, '\n', base[idx..]);
      assert x[..idx] == base[..idx] && x[idx..] == entry;
      HeadingsCut(x, idx);
      HeadingsCut(base, idx);
    }
  }

  /** All the other text is kept, in order; only white space at the very end may go. */
  lemma PlaceKeepsText(base: string, entry: string)
    ensures var c, text := Cut(base), Place(base, entry);
      if InsertionIndex(base) == -1 then text == TrimEnd(base) + "\n\n" + entry
      else c + |entry| + 1 <= |text| && text[..c] + text[c + |entry| + 1..] == base
  {
    hide InsertionIndex, TrimEnd;
  }

  // ----- inserting again

  lemma FoundAt(s: string, pat: string, i: nat)
    requires IsLineStart(s, i) && HasAt(s, pat, i)
    ensures SearchLine(s, pat, 0) != -1
  {
  }

  /** Where the entry starts in the new text. */
  function EntryAt(base: string): nat {
    if InsertionIndex(base) == -1 then |TrimEnd(base)| + 2 else InsertionIndex(base)
  }

  lemma EntryStandsThere(base: string, entry: string)
    ensures var p, text := EntryAt(base), Place(base, entry);
      p + |entry| <= |text| && IsLineStart(text, p) && text[p..p + |entry|] == entry
  {
    hide InsertionIndex, TrimEnd, Headings;
    HeadingsBeforeCut(base);
  }

  /**
   Inserting the same version again changes nothing, whatever the second entry: an entry that
   starts with the version's heading is found again.
   */
  lemma InsertTwiceIsOnce(existing: string, header: string, entry: string, again: string, version: string)
    requires StartsWith(entry, HEADING + version + "]") && Includes(header, TITLE)
    ensures var once := InsertEntry(existing, header, entry, version);
      InsertEntry(once, header, again, version) == once
  {
    hide Place, SearchLine, Includes;
    var base := BaseOf(existing, header);
    BaseHasTitle(existing, header);
    if !VersionPresent(base, version) {
      TitleStays(base, entry);
      VersionStays(base, entry, version);
    }
  }

  lemma VersionStays(base: string, entry: string, version: string)
    requires StartsWith(entry, HEADING + version + "]")
    ensures VersionPresent(Place(base, entry), version)
  {
    hide Place, SearchLine, EntryAt;
    var p, text, pat := EntryAt(base), Place(base, entry), HEADING + version + "]";
    EntryStandsThere(base, entry);
    HeadIsPart(text, p, entry, pat);
    FoundAt(text, pat, p);
  }

  lemma HeadIsPart(s: string, p: nat, part: string, pat: string)
    requires p + |part| <= |s| && s[p..p + |part|] == part && StartsWith(part, pat)
    ensures HasAt(s, pat, p)
  {
    assert s[p..p + |pat|] == part[..|pat|];
  }

  lemma BaseHasTitle(existing: string, header: string)
    requires Includes(header, TITLE)
    ensures Includes(BaseOf(existing, header), TITLE)
  {
    if !Contains(existing, TITLE) {
      var i :| HasAt(header, TITLE, i);
      IncludedStays(header, "\n", TITLE, i);
    }
  }

  lemma IncludedStays(a: string, b: string, pat: string, i: int)
    requires HasAt(a, pat, i)
    ensures HasAt(a + b, pat, i) && Includes(a + b, pat)
  {
    assert (a + b)[i..i + |pat|] == a[i..i + |pat|];
    assert HasAt(a + b, pat, i);
  }

  lemma IncludedAfter(a: string, b: string, pat: string, i: int)
    requires HasAt(b, pat, i)
    ensures Includes(a + b, pat)
  {
    assert (a + b)[|a| + i..|a| + i + |pat|] == b[i..i + |pat|];
    assert HasAt(a + b, pat, |a| + i);
  }

  lemma TitleChar(s: string, i: nat, m: nat)
    requires HasAt(s, TITLE, i) && i < m < i + |TITLE|
    ensures s[m] != '#'
  {
    HasAtChars(s, TITLE, i);
    assert TITLE[m - i] != '#';
  }

  /** No heading starts inside an occurrence of the title, which has its only # in front. */
  lemma TitleNotCut(base: string, i: nat, idx: nat)
    requires HasAt(base, TITLE, i) && HasAt(base, HEADING, idx)
    ensures idx <= i || i + |TITLE| <= idx
  {
    hide HasAt;
    HeadingStartsWithHash(base, idx);
    if i < idx < i + |TITLE| {
      TitleChar(base, i, idx);
    }
  }

  /** The title of the file survives an insertion. */
  lemma TitleStays(base: string, entry: string)
    requires Includes(base, TITLE)
    ensures Includes(Place(base, entry), TITLE)
  {
    hide InsertionIndex, HasAt, TrimEnd;
    var i :| HasAt(base, TITLE, i);
    var idx := InsertionIndex(base);
    TitleIndex(base, i);
    if idx == -1 {
      TitleInTrimmed(base, i);
      IncludedStays(TrimEnd(base), "\n\n" + entry, TITLE, i);
      assert TrimEnd(base) + ("\n\n" + entry) == Place(base, entry);
    } else {
      HeadingAtIndex(base);
      TitleNotCut(base, i, idx);
      if i + |TITLE| <= idx {
        TitleInFront(base, i, idx);
        IncludedStays(base[..idx], entry + "\n" + base[idx..], TITLE, i);
        assert base[..idx] + (entry + "\n" + base[idx..]) == Place(base, entry);
      } else {
        HasAtDrop(base, idx, TITLE, i - idx);
        IncludedAfter(base[..idx] + entry + "\n", base[idx..], TITLE, i - idx);
      }
    }
  }

  lemma TitleIndex(s: string, i: int)
    requires HasAt(s, TITLE, i)
    ensures 0 <= i && i + |TITLE| <= |s|
  {
  }

  lemma TitleInFront(s: string, i: nat, n: nat)
    requires HasAt(s, TITLE, i) && i + |TITLE| <= n <= |s|
    ensures HasAt(s[..n], TITLE, i)
  {
    assert s[..n][i..i + |TITLE|] == s[i..i + |TITLE|];
  }

  lemma TitleInTrimmed(base: string, i: int)
    requires HasAt(base, TITLE, i)
    ensures HasAt(TrimEnd(base), TITLE, i)
  {
    HasAtChars(base, TITLE, i);
    var n := i + |TITLE|;
    assert base[n - 1] == TITLE[|TITLE| - 1] == 'g';
    assert n <= |TrimEnd(base)|;
    assert TrimEnd(base)[i..n] == base[i..n];
  }

  lemma HeadingAtIndex(base: string)
    requires InsertionIndex(base) != -1
    ensures HasAt(base, HEADING, InsertionIndex(base))
  {
    var u := UnreleasedAt(base, 0);
    if u != -1 {
      var from := UnreleasedEnd(base, u);
      HasAtDrop(base, from, HEADING, SearchLine(base[from..], HEADING, 0));
    }
  }
}
