/** When the bullets of real commits are one line, and hold no release heading: a guard on the scopes. */
module BulletLaws {
  import opened Text
  import opened Lists
  import opened ChangelogInsert
  import opened ChangelogLaws
  import opened ChangelogEntries
  import opened SubjectPattern
  import opened RenderedBullets

  // ----- the lines of a text with something in front and behind

  /** Text without line breaks around a text changes only its first and its last line. */
  lemma {:induction false} LinesAround(a: string, t: string, b: string)
    requires FreeOf(a, BREAKS) && FreeOf(b, BREAKS)
    ensures var ls, ms := LinesOf(t), LinesOf(a + t + b);
      && |ms| == |ls|
      && (forall k | 0 < k < |ls| - 1 :: ms[k] == ls[k])
      && ms[0] == a + ls[0] + (if |ls| == 1 then b else "")
      && (|ls| > 1 ==> ms[|ls| - 1] == ls[|ls| - 1] + b)
  {
    SplitBehind(a, t, BREAKS);
    SplitBefore(a + t, b, BREAKS);
    assert a + LinesOf(t)[0] + "" == a + LinesOf(t)[0];
  }

  lemma {:induction false} HeadlessIff(s: string)
    ensures Headings(s) == [] <==> forall k | 0 <= k < |LinesOf(s)| :: !IsHeadingLine(LinesOf(s)[k])
  {
    hide IsHeadingLine, TrimEnd, LinesOf;
    var ls := LinesOf(s);
    var hs := Filter(ls, IsHeadingLine);
    if hs == [] {
      forall k | 0 <= k < |ls| ensures !IsHeadingLine(ls[k]) {
        assert ls[k] in ls && ls[k] !in hs;
      }
    } else {
      assert hs[0] in ls;
      assert TrimmedEnds(hs) == [TrimEnd(hs[0])] + TrimmedEnds(hs[1..]);
    }
  }

  // ----- the bullet of a commit

  /** No line of the scope after its first begins a release heading. */
  predicate ScopeIsHeadless(scope: string) {
    forall k | 1 <= k < |LinesOf(scope)| :: !IsHeadingLine(LinesOf(scope)[k])
  }

  lemma {:induction false} LineBefore(l: string, b: string)
    requires b != "" && b[0] == ':'
    ensures IsHeadingLine(l + b) <==> IsHeadingLine(l)
  {
    HasAtChars(l + b, HEADING, 0);
    HasAtChars(l, HEADING, 0);
    if |l| < 4 {
      assert (l + b)[0 + |l|] == ':' && HEADING[|l|] != ':';
    }
  }

  lemma {:induction false} DashLine(l: string)
    requires l != "" && l[0] == '-'
    ensures !IsHeadingLine(l)
  {
    HasAtChars(l, HEADING, 0);
  }

  lemma {:induction false} ScopedHeadlessIff(scope: string, rest: string)
    requires FreeOf(rest, BREAKS)
    ensures Headings("- **" + scope + (":** " + rest)) == [] <==> ScopeIsHeadless(scope)
  {
    hide LinesOf, IsHeadingLine, Headings, FreeOf;
    var a, b := "- **", ":** " + rest;
    Wrapping(rest);
    LinesAround(a, scope, b);
    HeadlessIff(a + scope + b);
    var ls, ms := LinesOf(scope), LinesOf(a + scope + b);
    DashLine(ms[0]);
    if |ls| > 1 {
      LineBefore(ls[|ls| - 1], b);
    }
  }

  lemma Wrapping(rest: string)
    ensures FreeOf("- **", BREAKS)
    ensures FreeOf(rest, BREAKS) ==> FreeOf(":** " + rest, BREAKS)
  {
    assert FreeOf(":** ", BREAKS);
    FreeConcat(":** ", rest, BREAKS);
  }

  /** The commit is parsed by the pattern, and a breaking footer is one line, as its pattern captures it. */
  predicate IsPatterned(conv: Conventions, c: Commit) {
    && conv.parse(c.subject) == ParseSubject(c.subject)
    && var footer := conv.breakingFooter(c.body); footer.Some? ==> FreeOf(footer.value, BREAKS)
  }

  /** What the pattern captures: a description on one line, and no empty scope. */
  lemma {:induction false} CapturedParts(s: string)
    ensures var p := ParseSubject(s);
      p.Some? ==> FreeOf(p.value.description, BREAKS) && (p.value.scope.Some? ==> p.value.scope.value != "")
  {
    hide WordEnd, IndexOf, TrimStart;
    forall t: string ensures Description(t).Some? ==> FreeOf(Description(t).value, BREAKS) {
    }
    hide Description;
  }

  lemma {:induction false} TrimIsFree(s: string, seps: set<char>)
    requires FreeOf(s, seps)
    ensures FreeOf(Trim(s), seps)
  {
    hide IsSpace;
    var t := TrimStart(s);
    assert t == s[|s| - |t|..] && Trim(s) <= t;
    assert forall c | c in Trim(s) :: c in t;
    assert forall c | c in t :: c in s;
  }

  /** What follows the scope in a bullet is on its line. */
  lemma {:induction false} RestIsFree(conv: Conventions, c: Commit)
    requires conv.parse(c.subject).Some? && IsPatterned(conv, c)
    ensures FreeOf(RestOf(conv, c), BREAKS)
  {
    hide FreeOf, ParseSubject, Trim;
    CapturedParts(c.subject);
    var d, footer := conv.parse(c.subject).value.description, conv.breakingFooter(c.body);
    DashIsFree();
    if footer.Some? {
      TrimIsFree(footer.value, BREAKS);
      FreeConcat(" \U{2014} ", Trim(footer.value), BREAKS);
      FreeConcat(d, " \U{2014} " + Trim(footer.value), BREAKS);
    } else {
      FreeConcat(d, "", BREAKS);
    }
  }

  lemma DashIsFree()
    ensures FreeOf(" \U{2014} ", BREAKS) && FreeOf("", BREAKS)
  {
  }

  function RestOf(conv: Conventions, c: Commit): string
    requires conv.parse(c.subject).Some?
  {
    var footer := conv.breakingFooter(c.body);
    conv.parse(c.subject).value.description + (if footer.Some? then " \U{2014} " + Trim(footer.value) else "")
  }

  lemma {:induction false} BulletIs(conv: Conventions, c: Commit)
    requires conv.parse(c.subject).Some?
    ensures var scope := conv.parse(c.subject).value.scope;
      Bullet(conv, c) ==
        if scope.Some? && scope.value != "" then "- **" + scope.value + (":** " + RestOf(conv, c))
        else "- " + RestOf(conv, c)
  {
    hide Trim;
    var p, footer := conv.parse(c.subject).value, conv.breakingFooter(c.body);
    var foot := if footer.Some? then " \U{2014} " + Trim(footer.value) else "";
    if p.scope.Some? && p.scope.value != "" {
      assert "- " + ("**" + p.scope.value + ":** ") + p.description + foot
          == "- **" + p.scope.value + (":** " + (p.description + foot));
    } else {
      assert "- " + "" + p.description + foot == "- " + (p.description + foot);
    }
  }

  /** The scope of the commit may stand in a bullet. */
  predicate HasHeadlessScope(conv: Conventions, c: Commit) {
    var p := conv.parse(c.subject);
    p.Some? && p.value.scope.Some? ==> ScopeIsHeadless(p.value.scope.value)
  }

  /** A bullet holds a release heading exactly when a line of the scope after its first begins one. */
  lemma {:induction false} BulletHeadlessIff(conv: Conventions, c: Commit)
    requires conv.parse(c.subject).Some? && IsPatterned(conv, c)
    ensures Headings(Bullet(conv, c)) == [] <==> HasHeadlessScope(conv, c)
  {
    hide Bullet, Headings, RestOf, ParseSubject, ScopeIsHeadless, FreeOf;
    var scope := conv.parse(c.subject).value.scope;
    BulletIs(conv, c);
    RestIsFree(conv, c);
    CapturedParts(c.subject);
    if scope.Some? {
      ScopedHeadlessIff(scope.value, RestOf(conv, c));
    } else {
      PlainBullet(RestOf(conv, c));
    }
  }

  lemma {:induction false} PlainBullet(rest: string)
    requires FreeOf(rest, BREAKS)
    ensures Headings("- " + rest) == []
  {
    hide Headings;
    assert FreeOf("- ", BREAKS);
    FreeConcat("- ", rest, BREAKS);
    ShortBullet("- " + rest);
  }

  predicate ArePatterned(conv: Conventions, cs: seq<Commit>) { forall c | c in cs :: IsPatterned(conv, c) }

  /** The guard: the scopes of the commits that get a bullet. */
  predicate ScopesHeadless(conv: Conventions, cs: seq<Commit>) {
    forall c | c in cs && Placed(conv, c).Some? :: HasHeadlessScope(conv, c)
  }

  /**
   Exactly when a built entry has one release heading, its own: its heading is one, and in no
   scope of a commit with a bullet does a line after the first begin with `## [`.
   */
  lemma {:induction false} ScopesGuardEntryIff(conv: Conventions, version: string, date: string, cs: seq<Commit>)
    requires ArePatterned(conv, cs)
    ensures BulletsHeadless(conv, cs) <==> ScopesHeadless(conv, cs)
    ensures var h := HeadingText(version, date);
      Headings(BuildEntry(conv, version, date, cs)) == [TrimEnd(h)]
      <==> Headings(h) == [TrimEnd(h)] && ScopesHeadless(conv, cs)
  {
    hide Headings, TrimEnd, HeadingText, BuildEntry, Bullet, HasHeadlessScope, IsPatterned, Placed;
    EntryHasOneHeadingIff(conv, version, date, cs);
    forall c | c in cs && Placed(conv, c).Some?
      ensures Headings(Bullet(conv, c)) == [] <==> HasHeadlessScope(conv, c)
    {
      BulletHeadlessIff(conv, c);
    }
  }

  // ----- the bullets are lines

  /** The scope of the commit holds no newline. */
  predicate HasOneLineScope(conv: Conventions, c: Commit) {
    var p := conv.parse(c.subject);
    p.Some? && p.value.scope.Some? ==> FreeOf(p.value.scope.value, {'\n'})
  }

  lemma {:induction false} BulletOneLineIff(conv: Conventions, c: Commit)
    requires conv.parse(c.subject).Some? && IsPatterned(conv, c)
    ensures FreeOf(Bullet(conv, c), {'\n'}) <==> HasOneLineScope(conv, c)
  {
    hide Bullet, RestOf, ParseSubject;
    var scope, rest := conv.parse(c.subject).value.scope, RestOf(conv, c);
    BulletIs(conv, c);
    RestIsFree(conv, c);
    CapturedParts(c.subject);
    assert FreeOf(rest, {'\n'});
    Wrapping("");
    assert FreeOf("- **", {'\n'}) && FreeOf("- ", {'\n'}) && FreeOf(":** ", {'\n'});
    hide FreeOf;
    if scope.Some? {
      FreeConcat("- **" + scope.value, ":** " + rest, {'\n'});
      FreeConcat("- **", scope.value, {'\n'});
      FreeConcat(":** ", rest, {'\n'});
    } else {
      FreeConcat("- ", rest, {'\n'});
    }
  }

  lemma {:induction false} BulletOf(conv: Conventions, cs: seq<Commit>, b: string) returns (c: Commit)
    requires (forall d | d in cs :: Placed(conv, d).Some?) && b in Bullets(conv, cs)
    ensures c in cs && Placed(conv, c).Some? && b == Bullet(conv, c)
  {
    hide Bullet, Placed;
    assert cs[0] in cs && Placed(conv, cs[0]).Some?;
    if b == Bullet(conv, cs[0]) {
      c := cs[0];
    } else {
      c := BulletOf(conv, cs[1..], b);
    }
  }

  lemma {:induction false} BulletIn(conv: Conventions, cs: seq<Commit>, c: Commit)
    requires (forall d | d in cs :: Placed(conv, d).Some?) && c in cs
    ensures Placed(conv, c).Some? && Bullet(conv, c) in Bullets(conv, cs)
  {
    hide Bullet, Placed;
    assert cs[0] in cs && Placed(conv, cs[0]).Some?;
    if c != cs[0] {
      assert c in cs[1..];
      BulletIn(conv, cs[1..], c);
    }
  }

  lemma {:induction false} BulletInAll(conv: Conventions, cs: seq<Commit>, c: Commit, k: nat, i: nat)
    requires c in cs && i <= k < |ORDER| && Placed(conv, c) == Some(ORDER[k])
    ensures Bullet(conv, c) in AllBullets(conv, cs, i)
    decreases k - i
  {
    hide Bullet, Placed, Bullets;
    if i == k {
      assert c in InSection(conv, cs, ORDER[k]);
      BulletIn(conv, InSection(conv, cs, ORDER[k]), c);
    } else {
      BulletInAll(conv, cs, c, k, i + 1);
    }
  }

  lemma {:induction false} AllBulletsOf(conv: Conventions, cs: seq<Commit>, i: nat, b: string) returns (c: Commit)
    requires b in AllBullets(conv, cs, i)
    ensures c in cs && Placed(conv, c).Some? && b == Bullet(conv, c)
    decreases |ORDER| - i
  {
    hide Bullet, Placed, Bullets;
    if b in SectionBullets(conv, cs, ORDER[i]) {
      c := BulletOf(conv, InSection(conv, cs, ORDER[i]), b);
    } else {
      c := AllBulletsOf(conv, cs, i + 1, b);
    }
  }

  lemma {:induction false} AllOneLineIff(conv: Conventions, cs: seq<Commit>)
    requires ArePatterned(conv, cs)
    ensures (forall b | b in AllBullets(conv, cs, 0) :: FreeOf(b, {'\n'}))
       <==> forall c | c in cs && Placed(conv, c).Some? :: HasOneLineScope(conv, c)
  {
    hide Bullet, Placed, AllBullets, HasOneLineScope, IsPatterned, FreeOf;
    forall c | c in cs && Placed(conv, c).Some?
      ensures Bullet(conv, c) in AllBullets(conv, cs, 0)
      ensures FreeOf(Bullet(conv, c), {'\n'}) <==> HasOneLineScope(conv, c)
    {
      var k := SectionIndex(Placed(conv, c).value);
      BulletInAll(conv, cs, c, k, 0);
      BulletOneLineIff(conv, c);
    }
    forall b | b in AllBullets(conv, cs, 0)
      ensures exists c :: c in cs && Placed(conv, c).Some? && b == Bullet(conv, c)
    {
      var c := AllBulletsOf(conv, cs, 0, b);
    }
  }

  /**
   Exactly when the bullet lines of a built entry are the bullets of its commits, section by section
   in commit order, every one once: no scope of a commit with a bullet holds a newline, and the
   heading of the entry holds no bullet line.
   */
  lemma {:induction false} ScopesGuardBulletsIff(conv: Conventions, version: string, date: string, cs: seq<Commit>)
    requires ArePatterned(conv, cs)
    ensures BulletLines(BuildEntry(conv, version, date, cs)) == AllBullets(conv, cs, 0)
       <==> (BulletLines(HeadingText(version, date)) == []
             && forall c | c in cs && Placed(conv, c).Some? :: HasOneLineScope(conv, c))
  {
    hide BulletLines, BuildEntry, AllBullets, HasOneLineScope, ArePatterned, Placed, FreeOf, HeadingText;
    EntryHoldsBulletsIff(conv, version, date, cs);
    AllOneLineIff(conv, cs);
  }
}
