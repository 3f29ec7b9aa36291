/** The pattern of a conventional commit subject, and the subject that breaks the changelog's headings. */
module SubjectPattern {
  import opened Text
  import opened ChangelogInsert
  import opened ChangelogLaws
  import opened ChangelogEntries

  predicate IsWordChar(c: char) {
    'a' <= c <= 'z' || 'A' <= c <= 'Z' || '0' <= c <= '9' || c == '_'
  }

  /** The end of the run of word characters that starts at `i`. */
  function WordEnd(s: string, i: nat): (e: nat)
    requires i <= |s|
    ensures i <= e <= |s| && (forall k | i <= k < e :: IsWordChar(s[k])) && (e < |s| ==> !IsWordChar(s[e]))
    decreases |s| - i
  {
    if i < |s| && IsWordChar(s[i]) then WordEnd(s, i + 1) else i
  }

  /**
   What `\s*(.+)$` captures: the text after the white space, if it is one line. A text of white
   space only gives up its last character, unless that is a line break.
   */
  function Description(t: string): Option<string> {
    var d := TrimStart(t);
    if d != "" then (if FreeOf(d, BREAKS) then Some(d) else None)
    else if t == "" || t[|t| - 1] in BREAKS then None
    else Some(t[|t| - 1..])
  }

  /** `!?:` and the description, at `p`. */
  function AfterScope(s: string, p: nat): Option<string>
    requires p <= |s|
  {
    var q := if p < |s| && s[p] == '!' then p + 1 else p;
    if q < |s| && s[q] == ':' then Description(s[q + 1..]) else None
  }

  function Make(kind: string, scope: Option<string>, description: Option<string>): Option<Parsed> {
    if description.Some? then Some(Parsed(kind, scope, description.value)) else None
  }

  /** A word, an optional scope in parentheses, an optional mark, a colon and a description. */
  function ParseSubject(s: string): Option<Parsed> {
    var w := WordEnd(s, 0);
    if w == 0 then None
    else if w < |s| && s[w] == '(' then
      var e := IndexOf(s, ")", w + 1);
      if e == -1 || e == w + 1 then None
      else Make(s[..w], Some(s[w + 1..e]), AfterScope(s, e + 1))
    else Make(s[..w], None, AfterScope(s, w))
  }

  // ----- the pattern undoes writing

  function ScopeText(scope: Option<string>): string { if scope.Some? then "(" + scope.value + ")" else "" }

  function Format(p: Parsed, bang: bool): string {
    p.kind + ScopeText(p.scope) + (if bang then "!" else "") + ": " + p.description
  }

  /** The parts that the pattern can tell apart. */
  predicate Writable(p: Parsed) {
    && p.kind != "" && (forall c | c in p.kind :: IsWordChar(c))
    && (p.scope.Some? ==> p.scope.value != "" && FreeOf(p.scope.value, {')'}))
    && p.description != "" && !IsSpace(p.description[0]) && FreeOf(p.description, BREAKS)
  }

  lemma {:induction false} WordEndIs(s: string, i: nat, e: nat)
    requires i <= e <= |s| && (forall k | i <= k < e :: IsWordChar(s[k])) && (e < |s| ==> !IsWordChar(s[e]))
    ensures WordEnd(s, i) == e
    decreases e - i
  {
    if i < e {
      WordEndIs(s, i + 1, e);
    }
  }

  lemma {:induction false} DescriptionIs(d: string)
    requires d != "" && !IsSpace(d[0]) && FreeOf(d, BREAKS)
    ensures Description(" " + d) == Some(d)
  {
    hide IsSpace, FreeOf;
    assert IsSpace(' ') by { SpaceIsSpace(); }
    assert (" " + d)[1..] == d && TrimStart(d) == d;
  }

  lemma SpaceIsSpace()
    ensures IsSpace(' ')
  {
  }

  lemma {:induction false} AfterScopeIs(s: string, p: nat, bang: bool, d: string)
    requires p <= |s| && s[p..] == (if bang then "!" else "") + ": " + d
    requires d != "" && !IsSpace(d[0]) && FreeOf(d, BREAKS)
    ensures AfterScope(s, p) == Some(d)
  {
    hide IsSpace, FreeOf, Description;
    var q := if bang then p + 1 else p;
    var t := s[p..];
    assert t[q - p..] == ": " + d && t[q - p..] == s[q..];
    assert s[q] == s[q..][0] == ':' && s[q + 1..] == s[q..][1..] == " " + d;
    assert s[p] == t[0] == (if bang then '!' else ':');
    DescriptionIs(d);
  }

  lemma {:induction false} ScopeEnds(s: string, w: nat, scope: string)
    requires w + |scope| + 2 <= |s| && s[w..w + |scope| + 2] == "(" + scope + ")" && FreeOf(scope, {')'})
    ensures s[w] == '(' && IndexOf(s, ")", w + 1) == w + 1 + |scope| && s[w + 1..w + 1 + |scope|] == scope
  {
    var t, e := s[w..w + |scope| + 2], w + 1 + |scope|;
    assert t[0] == '(' && t[|scope| + 1] == ')' && t[1..|scope| + 1] == scope;
    assert s[w] == t[0] && s[e] == t[|scope| + 1];
    SliceOfSlice(s, w, e + 1, 1, |scope| + 1);
    assert s[e..e + 1] == [s[e]] == ")";
    forall j | w + 1 <= j < e ensures !HasAt(s, ")", j) {
      assert s[j] == s[w + 1..e][j - w - 1] == scope[j - w - 1] && scope[j - w - 1] in scope;
      assert s[j..j + 1] == [s[j]];
    }
    IndexOfIs(s, ")", w + 1, e);
  }

  lemma {:induction false} PartsOfSubject(kind: string, scope: string, rest: string)
    ensures var s, w, e := kind + scope + rest, |kind|, |kind| + |scope|;
      s[..w] == kind && s[w..e] == scope && s[e..] == rest
  {
  }

  lemma {:induction false} ParseScoped(s: string, w: nat, scope: string)
    requires 0 < w == WordEnd(s, 0) && w + |scope| + 2 <= |s| && scope != ""
    requires s[w] == '(' && IndexOf(s, ")", w + 1) == w + 1 + |scope| && s[w + 1..w + 1 + |scope|] == scope
    ensures ParseSubject(s) == Make(s[..w], Some(scope), AfterScope(s, w + 2 + |scope|))
  {
    hide WordEnd, IndexOf, HasAt, AfterScope;
  }

  lemma {:induction false} ParseUnscoped(s: string, w: nat)
    requires 0 < w == WordEnd(s, 0) < |s| && s[w] != '('
    ensures ParseSubject(s) == Make(s[..w], None, AfterScope(s, w))
  {
    hide WordEnd, IndexOf, HasAt, AfterScope;
  }

  /** The pattern recovers every part of a subject written from them, marked as breaking or not. */
  lemma {:induction false} ParseUndoesFormat(p: Parsed, bang: bool)
    requires Writable(p)
    ensures ParseSubject(Format(p, bang)) == Some(p)
  {
    hide IsWordChar, IsSpace, AfterScope, FreeOf, ParseSubject, ScopeText;
    var mark := if bang then "!" else "";
    var s, w, e := Format(p, bang), |p.kind|, |p.kind| + |ScopeText(p.scope)|;
    Regroup(p.kind + ScopeText(p.scope), mark, ": ", p.description);
    PartsOfSubject(p.kind, ScopeText(p.scope), mark + ": " + p.description);
    AfterScopeIs(s, e, bang, p.description);
    assert s[e] == s[e..][0] == (if bang then '!' else ':');
    assert forall k | 0 <= k < w :: s[k] == p.kind[k] && p.kind[k] in p.kind;
    hide Format;
    ParseOfParts(s, p, e);
  }

  lemma {:induction false} Regroup(a: string, b: string, c: string, d: string)
    ensures a + b + c + d == a + (b + c + d)
  {
  }

  /** What the pattern captures from a text made of these parts. */
  lemma {:induction false} ParseOfParts(s: string, p: Parsed, e: nat)
    requires p.kind != "" && (p.scope.Some? ==> p.scope.value != "" && FreeOf(p.scope.value, {')'}))
    requires |p.kind| <= e < |s| && s[..|p.kind|] == p.kind && s[|p.kind|..e] == ScopeText(p.scope)
    requires forall k | 0 <= k < |p.kind| :: IsWordChar(s[k])
    requires s[e] == '!' || s[e] == ':'
    requires AfterScope(s, e) == Some(p.description)
    ensures ParseSubject(s) == Some(p)
  {
    hide IsWordChar, AfterScope, FreeOf, ParseSubject, WordEnd, IndexOf, HasAt;
    var w := |p.kind|;
    NoWordMarks();
    if p.scope.Some? {
      assert e == w + |p.scope.value| + 2;
      ScopeEnds(s, w, p.scope.value);
      WordEndIs(s, 0, w);
      ParseScoped(s, w, p.scope.value);
    } else {
      assert e == w;
      WordEndIs(s, 0, w);
      ParseUnscoped(s, w);
    }
  }

  lemma NoWordMarks()
    ensures !IsWordChar('(') && !IsWordChar('!') && !IsWordChar(':')
  {
  }

  // ----- what a subject that matches looks like

  /** Letters, digits and underscores. */
  predicate IsWord(s: string) {
    s != "" && forall c | c in s :: 'a' <= c <= 'z' || 'A' <= c <= 'Z' || '0' <= c <= '9' || c == '_'
  }

  predicate IsSpaces(s: string) { forall c | c in s :: IsSpace(c) }

  /** Every word is read as the type, whatever letters, digits and underscores it has. */
  lemma {:induction false} WordsAreRead(p: Parsed, bang: bool)
    requires IsWord(p.kind) && (p.scope.Some? ==> p.scope.value != "" && FreeOf(p.scope.value, {')'}))
    requires p.description != "" && !IsSpace(p.description[0])
    requires FreeOf(p.description, {'\n', '\r', '\U{2028}', '\U{2029}'})
    ensures ParseSubject(Format(p, bang)) == Some(p)
  {
    assert forall c | c in p.kind :: IsWordChar(c);
    hide IsWordChar, IsSpace, FreeOf, ParseSubject, Format;
    ParseUndoesFormat(p, bang);
  }

  /** The subject is a word, the scope in parentheses, the mark or not, a colon, white space and the description. */
  predicate Consists(s: string, p: Parsed, mark: string, spaces: string) {
    && s == p.kind + ScopeText(p.scope) + (mark + ":" + (spaces + p.description))
    && IsWord(p.kind) && (mark == "" || mark == "!") && IsSpaces(spaces)
    && (p.scope.Some? ==> p.scope.value != "" && FreeOf(p.scope.value, {')'}))
    && p.description != "" && FreeOf(p.description, {'\n', '\r', '\U{2028}', '\U{2029}'})
  }

  lemma {:induction false} DescriptionSplits(t: string) returns (spaces: string)
    requires Description(t).Some?
    ensures t == spaces + Description(t).value && IsSpaces(spaces)
    ensures Description(t).value != "" && FreeOf(Description(t).value, BREAKS)
  {
    var d := TrimStart(t);
    var n := if d != "" then |t| - |d| else |t| - 1;
    spaces := t[..n];
    assert t == t[..n] + t[n..];
    hide IsSpace;
    assert forall i | 0 <= i < |t| - |d| :: IsSpace(t[i]);
  }

  lemma {:induction false} AfterScopeSplits(s: string, p: nat) returns (mark: string, spaces: string)
    requires p <= |s| && AfterScope(s, p).Some?
    ensures var d := AfterScope(s, p).value;
      && s[p..] == mark + ":" + (spaces + d) && (mark == "" || mark == "!") && IsSpaces(spaces)
      && d != "" && FreeOf(d, BREAKS)
  {
    hide Description, IsSpaces, FreeOf;
    var q := if s[p] == '!' then p + 1 else p;
    mark := s[p..q];
    spaces := DescriptionSplits(s[q + 1..]);
    assert s[p..] == s[p..q] + [s[q]] + s[q + 1..];
  }

  lemma {:induction false} WordIsWord(s: string)
    requires WordEnd(s, 0) > 0
    ensures IsWord(s[..WordEnd(s, 0)])
  {
    var w := WordEnd(s, 0);
    hide WordEnd;
    forall c | c in s[..w] ensures IsWordChar(c) {
    }
  }

  lemma {:induction false} ScopeIsFree(s: string, w: nat, e: nat)
    requires w < e < |s| && s[w] == '(' && IndexOf(s, ")", w + 1) == e
    ensures FreeOf(s[w + 1..e], {')'}) && s[w..e + 1] == "(" + s[w + 1..e] + ")"
  {
    assert s[e..e + 1] == ")";
    forall j | w + 1 <= j < e ensures s[j] != ')' {
      assert !HasAt(s, ")", j);
      assert s[j..j + 1] == [s[j]];
    }
    assert s[w..e + 1] == [s[w]] + s[w + 1..e] + [s[e]];
  }

  /** Whatever the pattern captures is what the subject consists of. */
  lemma {:induction false} ParsedConsists(s: string) returns (mark: string, spaces: string)
    requires ParseSubject(s).Some?
    ensures Consists(s, ParseSubject(s).value, mark, spaces)
  {
    hide AfterScope, IndexOf, WordEnd, IsWord, IsSpaces, FreeOf, HasAt;
    var w := WordEnd(s, 0);
    WordIsWord(s);
    if w < |s| && s[w] == '(' {
      var e := IndexOf(s, ")", w + 1);
      InBounds(s, w + 1, e);
      ScopeIsFree(s, w, e);
      mark, spaces := AfterScopeSplits(s, e + 1);
      ThreeParts(s, w, e + 1);
    } else {
      mark, spaces := AfterScopeSplits(s, w);
      ThreeParts(s, w, w);
    }
  }

  lemma InBounds(s: string, i: nat, e: int)
    requires IndexOf(s, ")", i) == e && e != -1
    ensures i <= e < |s|
  {
  }

  lemma {:induction false} ThreeParts(s: string, a: nat, b: nat)
    requires a <= b <= |s|
    ensures s == s[..a] + s[a..b] + s[b..]
    ensures s[a..a] == ""
  {
  }

  // ----- a scope with a line break

  /** A line break in the scope, with the start of a heading behind it. */
  const BROKEN_SCOPE: string := "a\U{2028}## [9]"

  const BROKEN: Parsed := Parsed("feat", Some(BROKEN_SCOPE), "x")

  lemma {:induction false} BrokenIsWritable()
    ensures Writable(BROKEN)
  {
    assert FreeOf(BROKEN_SCOPE, {')'});
  }

  /** A text with a heading behind a line break has a heading. */
  lemma {:induction false} HeadingBehindBreak(a: string, c: char, b: string)
    requires c in BREAKS && StartsWith(b, HEADING)
    ensures Headings(a + [c] + b) != []
  {
    hide Headings;
    HeadingsSplit(a, c, b);
    StartIsHeading(b);
    BothEmpty(Headings(a), Headings(b));
  }

  /**
   The pattern admits a line separator in the scope, so the subject `feat(a<U+2028>## [9]): x`
   gets a bullet with a release heading in it, and the entry has more headings than its own.
   */
  lemma {:induction false} ScopeBreaksHeadings(conv: Conventions, c: Commit, version: string, date: string)
    requires c.subject == Format(BROKEN, false) && conv.parse(c.subject) == ParseSubject(c.subject)
    requires !IsBreaking(conv, c)
    ensures conv.parse(c.subject) == Some(BROKEN) && Placed(conv, c) == Some(Added)
    ensures Headings(Bullet(conv, c)) != []
    ensures Headings(BuildEntry(conv, version, date, [c])) != [TrimEnd(HeadingText(version, date))]
  {
    hide Headings, TrimEnd, HeadingText, BuildEntry, Writable, ParseSubject, Format;
    BrokenIsWritable();
    ParseUndoesFormat(BROKEN, false);
    assert !IsBump(BROKEN);
    assert Placed(conv, c) == Some(Added);
    var b := Bullet(conv, c);
    assert b == "- " + ("**" + BROKEN_SCOPE + ":** ") + "x" + "";
    BrokenBullet(b);
    EntryHasOneHeadingIff(conv, version, date, [c]);
    assert c in [c];
  }

  lemma {:induction false} BrokenBullet(b: string)
    requires b == "- " + ("**" + BROKEN_SCOPE + ":** ") + "x" + ""
    ensures Headings(b) != []
  {
    hide Headings;
    assert BROKEN_SCOPE == "a" + ['\U{2028}'] + HEADING + "9]";
    var rest := HEADING + ("9]" + ":** " + "x");
    assert b == "- **a" + ['\U{2028}'] + rest;
    assert rest[0..4] == HEADING;
    HeadingBehindBreak("- **a", '\U{2028}', rest);
  }
}
