/**
 Edit scripts and their rendering as unified diffs (POSIX.1-2008, utility `diff`, section
 "Diff -u or -U Output Format"), and what the hunk parser recovers from a rendering.
 */
module EditScripts {
  import opened Text
  import opened HunkParser

  /** One line of an edit script; `NoEol` is the marker for a missing final newline. */
  datatype Line = Context(text: string) | Deleted(text: string) | Added(text: string) | NoEol {
    function InOld(): nat { if Context? || Deleted? then 1 else 0 }

    function InNew(): nat { if Context? || Added? then 1 else 0 }

    function Render(): string {
      match this
      case Context(t) => " " + t
      case Deleted(t) => "-" + t
      case Added(t) => "+" + t
      case NoEol => "\\ No newline at end of file"
    }

    predicate OneLine() { NoEol? || FreeOf(text, {'\n'}) }
  }

  function OldText(script: seq<Line>): seq<string> {
    if script == [] then []
    else if script[0].InOld() == 1 then [script[0].text] + OldText(script[1..])
    else OldText(script[1..])
  }

  function NewText(script: seq<Line>): seq<string> {
    if script == [] then []
    else if script[0].InNew() == 1 then [script[0].text] + NewText(script[1..])
    else NewText(script[1..])
  }

  function Olds(script: seq<Line>): nat { |OldText(script)| }

  function News(script: seq<Line>): nat { |NewText(script)| }

  /** A file's edit script as diff prints it: unprinted common lines, or a printed hunk. */
  datatype Segment = Gap(lines: seq<string>) | Hunk(body: seq<Line>, terse: bool, heading: string)

  function Contexts(lines: seq<string>): seq<Line> {
    seq(|lines|, i requires 0 <= i < |lines| => Context(lines[i]))
  }

  function SegmentScript(s: Segment): seq<Line> {
    match s
    case Gap(lines) => Contexts(lines)
    case Hunk(body, _, _) => body
  }

  /** The whole edit script of a file. */
  function Script(segs: seq<Segment>): seq<Line> {
    if segs == [] then [] else SegmentScript(segs[0]) + Script(segs[1..])
  }

  // ----- rendering

  /** A count of one may be left out of a range; an empty range names the line before it. */
  function RangeText(before: nat, count: nat, terse: bool): string {
    Dec(if count == 0 then before else before + 1) + (if terse && count == 1 then "" else "," + Dec(count))
  }

  function HeaderText(h: Segment, o: nat, n: nat): string
    requires h.Hunk?
  {
    "@@ -" + RangeText(o, Olds(h.body), h.terse) + " +" + RangeText(n, News(h.body), h.terse) + " @@" + h.heading
  }

  function RenderBody(body: seq<Line>): seq<string> {
    if body == [] then [] else [body[0].Render()] + RenderBody(body[1..])
  }

  /** The hunks of `segs` when `o` old and `n` new lines come before them. */
  function RenderSegments(segs: seq<Segment>, o: nat, n: nat): seq<string>
    decreases segs
  {
    if segs == [] then []
    else
      var rest := RenderSegments(segs[1..], o + Olds(SegmentScript(segs[0])), n + News(SegmentScript(segs[0])));
      if segs[0].Gap? then rest else [HeaderText(segs[0], o, n)] + RenderBody(segs[0].body) + rest
  }

  /** One file of a diff: the lines that introduce it, then its hunks. */
  datatype FileDiff = FileDiff(preamble: seq<string>, segs: seq<Segment>)

  function RenderFiles(files: seq<FileDiff>): seq<string> {
    if files == [] then [] else files[0].preamble + RenderSegments(files[0].segs, 0, 0) + RenderFiles(files[1..])
  }

  function RenderText(files: seq<FileDiff>, finalNewline: bool): string {
    Join(RenderFiles(files) + (if finalNewline then [""] else []), "\n")
  }

  predicate OneLineSegment(s: Segment) {
    match s
    case Gap(lines) => forall l | l in lines :: FreeOf(l, {'\n'})
    case Hunk(body, _, heading) => FreeOf(heading, {'\n'}) && forall l | l in body :: l.OneLine()
  }

  /** No line holds a newline, and no introducing line looks like a hunk header. */
  predicate Printable(f: FileDiff) {
    && (forall l | l in f.preamble :: FreeOf(l, {'\n'}) && !StartsWith(l, "@@"))
    && (forall s | s in f.segs :: OneLineSegment(s))
  }

  // ----- what an edit script touches

  /**
   New-file line `x` is touched: it is added, or it stands next to a place where a line was
   deleted (between new lines x and x+1, or between x-1 and x).
   */
  ghost predicate TouchedAt(script: seq<Line>, k: nat, x: int)
    requires k < |script|
  {
    var n := News(script[..k]);
    || (script[k].Added? && x == n + 1)
    || (script[k].Deleted? && (x == n || x == n + 1))
  }

  ghost predicate Touches(script: seq<Line>, x: int) {
    exists k :: 0 <= k < |script| && TouchedAt(script, k, x)
  }

  /** The same set by recursion, with `n` the new lines before the script. */
  function TouchedFrom(script: seq<Line>, n: int): set<int> {
    if script == [] then {}
    else
      var rest := TouchedFrom(script[1..], n + script[0].InNew());
      match script[0]
      case Added(_) => {n + 1} + rest
      case Deleted(_) => {n, n + 1} + rest
      case _ => rest
  }

  lemma TouchedAtTail(script: seq<Line>, k: nat, x: int)
    requires 0 < k < |script|
    ensures TouchedAt(script, k, x) <==> TouchedAt(script[1..], k - 1, x - script[0].InNew())
  {
    assert script[..k] == [script[0]] + script[1..][..k - 1];
    assert script[..k][1..] == script[1..][..k - 1];
  }

  lemma {:induction false} TouchedFromIffTouches(script: seq<Line>, n: int, x: int)
    ensures x in TouchedFrom(script, n) <==> Touches(script, x - n)
    decreases script
  {
    if script != [] {
      var rest, d := script[1..], script[0].InNew();
      TouchedFromIffTouches(rest, n + d, x);
      assert script[..0] == [];
      if Touches(script, x - n) {
        var k :| 0 <= k < |script| && TouchedAt(script, k, x - n);
        if k > 0 {
          TouchedAtTail(script, k, x - n);
          assert TouchedAt(rest, k - 1, x - n - d);
        }
      }
      if Touches(rest, x - n - d) {
        var k :| 0 <= k < |rest| && TouchedAt(rest, k, x - n - d);
        TouchedAtTail(script, k + 1, x - n);
        assert TouchedAt(script, k + 1, x - n);
      }
      assert TouchedAt(script, 0, x - n) <==>
        (script[0].Added? && x == n + 1) || (script[0].Deleted? && (x == n || x == n + 1));
    }
  }

  lemma {:induction false} TextConcat(a: seq<Line>, b: seq<Line>)
    ensures OldText(a + b) == OldText(a) + OldText(b)
    ensures NewText(a + b) == NewText(a) + NewText(b)
  {
    if a == [] {
      assert a + b == b;
    } else {
      assert (a + b)[1..] == a[1..] + b;
      TextConcat(a[1..], b);
    }
  }

  lemma TouchedFromCons(l: Line, rest: seq<Line>, n: int)
    ensures TouchedFrom([l] + rest, n) == TouchedFrom([l], n) + TouchedFrom(rest, n + l.InNew())
  {
    assert ([l] + rest)[1..] == rest && [l][1..] == [];
  }

  lemma {:induction false} TouchedFromConcat(a: seq<Line>, b: seq<Line>, n: int)
    ensures TouchedFrom(a + b, n) == TouchedFrom(a, n) + TouchedFrom(b, n + News(a))
    decreases a
  {
    if a == [] {
      assert a + b == b;
    } else {
      assert (a + b)[1..] == a[1..] + b;
      TouchedFromConcat(a[1..], b, n + a[0].InNew());
    }
  }

  lemma {:induction false} GapUntouched(lines: seq<string>, n: int)
    ensures TouchedFrom(Contexts(lines), n) == {}
    ensures OldText(Contexts(lines)) == NewText(Contexts(lines)) == lines
    decreases lines
  {
    if lines != [] {
      assert Contexts(lines)[1..] == Contexts(lines[1..]);
      GapUntouched(lines[1..], n + 1);
    }
  }

  // ----- what the parser recovers

  /**
   For an empty new range the header names the line before the range, but the parser
   subtracts one from it as for any other range: its count is then one line short.
   */
  function HunkTouched(body: seq<Line>, n: int): set<int> {
    TouchedFrom(body, if News(body) == 0 then n - 1 else n)
  }

  function FileTouched(segs: seq<Segment>, n: int): set<int>
    decreases segs
  {
    if segs == [] then {}
    else
      var rest := FileTouched(segs[1..], n + News(SegmentScript(segs[0])));
      if segs[0].Gap? then rest else HunkTouched(segs[0].body, n) + rest
  }

  function FilesTouched(files: seq<FileDiff>): set<int> {
    if files == [] then {} else FileTouched(files[0].segs, 0) + FilesTouched(files[1..])
  }

  lemma {:induction false} DigitsEndIs(s: string, i: nat, e: nat)
    requires i <= e <= |s| && AllDigits(s[i..e]) && (e < |s| ==> !IsDigit(s[e]))
    ensures DigitsEnd(s, i) == e
    decreases e - i
  {
    if i < e {
      assert s[i] == s[i..e][0] && s[i + 1..e] == s[i..e][1..];
      DigitsEndIs(s, i + 1, e);
    }
  }

  lemma DecAt(s: string, i: nat, e: nat, n: nat)
    requires i <= e < |s| && s[i..e] == Dec(n) && !IsDigit(s[e])
    ensures i < e == DigitsEnd(s, i) && ParseDec(s[i..e]) == n
  {
    ParseDecDec(n);
    DigitsEndIs(s, i, e);
  }

  lemma RangeAtPlain(s: string, i: nat, e: nat, start: nat)
    requires i <= e < |s| && s[i..e] == Dec(start) && s[e] == ' '
    ensures RangeAt(s, i) == Some((start, 1, e))
  {
    DecAt(s, i, e, start);
  }

  lemma RangeAtCounted(s: string, i: nat, e: nat, f: nat, start: nat, count: nat)
    requires i <= e < f < |s| && s[i..e] == Dec(start) && s[e] == ',' && s[e + 1..f] == Dec(count) && s[f] == ' '
    ensures RangeAt(s, i) == Some((start, count, f))
  {
    hide Dec, ParseDec, DigitsEnd;
    DecAt(s, i, e, start);
    DecAt(s, e + 1, f, count);
  }

  lemma CountedParts(s: string, i: nat, j: nat, a: string, b: string)
    requires i <= j <= |s| && s[i..j] == a + ("," + b)
    ensures var e := i + |a|;
      e < j && s[i..e] == a && s[e] == ',' && s[e + 1..j] == b
  {
    var t := s[i..j];
    assert t[..|a|] == a && t[|a|] == ',' && t[|a| + 1..] == b;
    assert t[..|a|] == s[i..i + |a|];
    assert t[|a| + 1..] == s[i + |a| + 1..j];
  }

  lemma RangeAtText(s: string, i: nat, j: nat, before: nat, count: nat, terse: bool)
    requires i <= j < |s| && s[i..j] == RangeText(before, count, terse) && s[j] == ' '
    ensures RangeAt(s, i) == Some((if count == 0 then before else before + 1, count, j))
  {
    hide RangeAt, Dec;
    var start := if count == 0 then before else before + 1;
    if terse && count == 1 {
      assert s[i..j] == Dec(start);
      RangeAtPlain(s, i, j, start);
    } else {
      assert s[i..j] == Dec(start) + ("," + Dec(count));
      CountedParts(s, i, j, Dec(start), Dec(count));
      RangeAtCounted(s, i, i + |Dec(start)|, j, start, count);
    }
  }

  /** Where the parts of a header text stand. */
  lemma HeaderParts(r1: string, r2: string, heading: string)
    ensures var s, p, q := "@@ -" + r1 + " +" + r2 + " @@" + heading, 4 + |r1|, 6 + |r1| + |r2|;
      && q + 3 <= |s|
      && HasAt(s, "@@ -", 0) && s[4..p] == r1
      && HasAt(s, " +", p) && s[p] == ' ' && s[p + 2..q] == r2
      && HasAt(s, " @@", q) && s[q] == ' '
  {
  }

  lemma HeaderStarts(s: string)
    requires HasAt(s, "@@ -", 0)
    ensures StartsWith(s, "@@") && !StartsWith(s, "diff --git ")
  {
    assert s[0] == s[0..4][0] == '@' && s[1] == s[0..4][1] == '@';
    assert |s| >= 11 ==> s[0..11][0] == s[0];
  }

  lemma HeaderAtZero(s: string, p: nat, q: nat, oldCount: nat, newStart: nat, newCount: nat)
    requires HasAt(s, "@@ -", 0) && HasAt(s, " +", p) && HasAt(s, " @@", q)
    requires RangeAt(s, 4).Some? && RangeAt(s, 4).value.1 == oldCount && RangeAt(s, 4).value.2 == p
    requires RangeAt(s, p + 2) == Some((newStart, newCount, q))
    ensures FindHeader(s, 0) == Some(Header(oldCount, newStart, newCount))
  {
    hide RangeAt;
    assert HeaderAt(s, 0).Some?;
  }

  lemma RangesRoundTrip(o: nat, olds: nat, n: nat, news: nat, terse: bool, heading: string)
    ensures var s := "@@ -" + RangeText(o, olds, terse) + " +" + RangeText(n, news, terse) + " @@" + heading;
      && StartsWith(s, "@@") && !StartsWith(s, "diff --git ")
      && FindHeader(s, 0) == Some(Header(olds, if news == 0 then n else n + 1, news))
  {
    hide RangeAt, RangeText, HasAt, FindHeader;
    var r1, r2 := RangeText(o, olds, terse), RangeText(n, news, terse);
    var s := "@@ -" + r1 + " +" + r2 + " @@" + heading;
    HeaderParts(r1, r2, heading);
    HeaderStarts(s);
    RangeAtText(s, 4, 4 + |r1|, o, olds, terse);
    RangeAtText(s, 6 + |r1|, 6 + |r1| + |r2|, n, news, terse);
    HeaderAtZero(s, 4 + |r1|, 6 + |r1| + |r2|, olds, if news == 0 then n else n + 1, news);
  }

  /** The header pattern recovers what a header text was printed from. */
  lemma HeaderRoundTrip(h: Segment, o: nat, n: nat)
    requires h.Hunk?
    ensures StartsWith(HeaderText(h, o, n), "@@") && !StartsWith(HeaderText(h, o, n), "diff --git ")
    ensures FindHeader(HeaderText(h, o, n), 0)
         == Some(Header(Olds(h.body), if News(h.body) == 0 then n else n + 1, News(h.body)))
  {
    hide RangeText, HasAt, StartsWith, FindHeader, Olds, News;
    RangesRoundTrip(o, Olds(h.body), n, News(h.body), h.terse, h.heading);
  }

  lemma BodyLineStarts(l: Line)
    ensures l.Render() != ""
    ensures !StartsWith(l.Render(), "diff --git ") && !StartsWith(l.Render(), "@@")
    ensures StartsWith(l.Render(), " ") <==> l.Context?
    ensures StartsWith(l.Render(), "-") <==> l.Deleted?
    ensures StartsWith(l.Render(), "+") <==> l.Added?
  {
    var s := l.Render();
    assert s[0] == (match l case Context(_) => ' ' case Deleted(_) => '-' case Added(_) => '+' case NoEol => '\\');
    assert s[0..1] == [s[0]];
    assert |s| >= 2 ==> s[0..2][0] == s[0];
    assert |s| >= 11 ==> s[0..11][0] == s[0];
  }

  function Advance(c: Cursor, l: Line): Cursor
    requires c.Open?
  {
    Open(c.newLineNo + l.InNew(), c.oldRemaining - l.InOld(), c.newRemaining - l.InNew())
  }

  lemma StepBody(c: Cursor, l: Line)
    ensures Step(State(c, {}), l.Render())
         == (if CloseIfSpent(c).Closed? then START else State(Advance(c, l), TouchedFrom([l], c.newLineNo)))
  {
    BodyLineStarts(l);
    assert [l][1..] == [];
  }

  /** A spent cursor is as good as a closed one. */
  lemma SpentIsClosed(c: Cursor, lines: seq<string>)
    requires CloseIfSpent(c).Closed?
    ensures Run(State(c, {}), lines).touched == Run(START, lines).touched
    ensures CloseIfSpent(Run(State(c, {}), lines).cursor) == CloseIfSpent(Run(START, lines).cursor)
  {
    if lines != [] {
      assert Step(State(c, {}), lines[0]) == Step(START, lines[0]);
    }
  }

  /** Both counters are what is left of the body, so they reach zero together, at its end. */
  lemma {:induction false} CountersTrackBody(body: seq<Line>, base: int, k: nat)
    requires k <= |body|
    ensures var c := Run(State(Open(base, Olds(body), News(body)), {}), RenderBody(body[..k])).cursor;
      if c.Open? then c == Open(base + News(body[..k]), Olds(body[k..]), News(body[k..]))
      else Olds(body[k..]) == News(body[k..]) == 0
  {
    CountersRun(base, Olds(body), News(body), body, k);
    hide Run, RenderBody, Olds, News;
    CountsSplit(body, k);
    if j :| 0 <= j < k && Meets(Olds(body), News(body), body, j) {
      PrefixCounts(body, j, k);
    }
  }

  lemma CountsSplit(body: seq<Line>, k: nat)
    requires k <= |body|
    ensures Olds(body) == Olds(body[..k]) + Olds(body[k..]) && News(body) == News(body[..k]) + News(body[k..])
  {
    assert body == body[..k] + body[k..];
    TextConcat(body[..k], body[k..]);
  }

  lemma {:induction false} ClosedSkips(body: seq<Line>)
    ensures Run(START, RenderBody(body)) == START
  {
    if body != [] {
      BodyLineStarts(body[0]);
      ClosedSkips(body[1..]);
    }
  }

  lemma {:induction false} NothingTouched(body: seq<Line>, n: int)
    requires Olds(body) == News(body) == 0
    ensures TouchedFrom(body, n) == {}
    decreases body
  {
    if body != [] {
      NothingTouched(body[1..], n);
    }
  }

  /** The rest of the body is read from where its first line leaves the cursor. */
  lemma RunBodyCons(c: Cursor, l: Line, rest: seq<Line>)
    requires CloseIfSpent(c).Open?
    ensures var st := Run(State(Advance(c, l), {}), RenderBody(rest));
      Run(State(c, {}), RenderBody([l] + rest)) == State(st.cursor, TouchedFrom([l], c.newLineNo) + st.touched)
  {
    hide Step, Run, TouchedFrom;
    assert ([l] + rest)[1..] == rest;
    RunCons(State(c, {}), l.Render(), RenderBody(rest));
    StepBody(c, l);
    RunAccumulates(Advance(c, l), TouchedFrom([l], c.newLineNo), RenderBody(rest));
  }

  lemma RunBodySpent(c: Cursor, l: Line, rest: seq<Line>)
    requires CloseIfSpent(c).Closed?
    ensures Run(State(c, {}), RenderBody([l] + rest)) == START
  {
    hide Step, Run, TouchedFrom;
    assert ([l] + rest)[1..] == rest;
    RunCons(State(c, {}), l.Render(), RenderBody(rest));
    StepBody(c, l);
    ClosedSkips(rest);
  }

  lemma {:induction false} ParseBody(body: seq<Line>, base: int)
    ensures var st := Run(State(Open(base, Olds(body), News(body)), {}), RenderBody(body));
      CloseIfSpent(st.cursor).Closed? && st.touched == TouchedFrom(body, base)
    decreases body
  {
    hide Step;
    if body != [] {
      hide RenderBody;
      var c0, l, rest := Open(base, Olds(body), News(body)), body[0], body[1..];
      assert [l] + rest == body;
      if CloseIfSpent(c0).Closed? {
        RunBodySpent(c0, l, rest);
        NothingTouched(body, base);
      } else {
        ParseBody(rest, base + l.InNew());
        RunBodyCons(c0, l, rest);
        TouchedFromCons(l, rest, base);
      }
    }
  }

  lemma HunkOpens(s: Segment, o: nat, n: nat)
    requires s.Hunk?
    ensures Step(START, HeaderText(s, o, n))
         == State(Open((if News(s.body) == 0 then n else n + 1) - 1, Olds(s.body), News(s.body)), {})
  {
    hide FindHeader, HeaderText;
    HeaderRoundTrip(s, o, n);
  }

  lemma ParseHunk(s: Segment, o: nat, n: nat)
    requires s.Hunk?
    ensures var st := Run(START, [HeaderText(s, o, n)] + RenderBody(s.body));
      CloseIfSpent(st.cursor).Closed? && st.touched == HunkTouched(s.body, n)
  {
    hide Step, HeaderText;
    var lines := [HeaderText(s, o, n)] + RenderBody(s.body);
    HunkOpens(s, o, n);
    assert lines[1..] == RenderBody(s.body);
    ParseBody(s.body, (if News(s.body) == 0 then n else n + 1) - 1);
  }

  /** After lines that leave the cursor spent, the rest is read as if it stood alone. */
  lemma RunParts(a: seq<string>, b: seq<string>)
    requires CloseIfSpent(Run(START, a).cursor).Closed?
    ensures Run(START, a + b).touched == Run(START, a).touched + Run(START, b).touched
    ensures CloseIfSpent(Run(START, a + b).cursor) == CloseIfSpent(Run(START, b).cursor)
  {
    hide Step;
    var st := Run(START, a);
    RunConcat(START, a, b);
    RunAccumulates(st.cursor, st.touched, b);
    SpentIsClosed(st.cursor, b);
  }

  lemma {:induction false} ParseSegments(segs: seq<Segment>, o: nat, n: nat)
    ensures var st := Run(START, RenderSegments(segs, o, n));
      CloseIfSpent(st.cursor).Closed? && st.touched == FileTouched(segs, n)
    decreases segs
  {
    hide Step, HeaderText;
    if segs != [] {
      var s := segs[0];
      var o', n' := o + Olds(SegmentScript(s)), n + News(SegmentScript(s));
      var tail := RenderSegments(segs[1..], o', n');
      ParseSegments(segs[1..], o', n');
      if s.Gap? {
        assert [] + tail == tail;
      } else {
        ParseHunk(s, o, n);
        RunParts([HeaderText(s, o, n)] + RenderBody(s.body), tail);
      }
    }
  }

  lemma {:induction false} PreambleSkipped(preamble: seq<string>, rest: seq<string>)
    requires forall l | l in preamble :: !StartsWith(l, "@@")
    ensures Run(START, preamble + rest) == Run(START, rest)
  {
    if preamble == [] {
      assert preamble + rest == rest;
    } else {
      assert (preamble + rest)[1..] == preamble[1..] + rest;
      PreambleSkipped(preamble[1..], rest);
    }
  }

  lemma {:induction false} ParseFiles(files: seq<FileDiff>, tail: seq<string>)
    requires forall f | f in files :: Printable(f)
    requires forall l | l in tail :: l == ""
    ensures Run(START, RenderFiles(files) + tail).touched == FilesTouched(files)
  {
    if files == [] {
      assert RenderFiles(files) + tail == tail + [];
      PreambleSkipped(tail, []);
    } else {
      hide Run, Step, RenderSegments;
      var f, rest := files[0], RenderFiles(files[1..]) + tail;
      assert Printable(f);
      var hunks := RenderSegments(f.segs, 0, 0);
      assert RenderFiles(files) + tail == f.preamble + (hunks + rest);
      PreambleSkipped(f.preamble, hunks + rest);
      ParseSegments(f.segs, 0, 0);
      RunParts(hunks, rest);
      ParseFiles(files[1..], tail);
    }
  }

  // ----- the rendered text

  lemma {:induction false} BodyOneLine(body: seq<Line>)
    requires forall l | l in body :: l.OneLine()
    ensures forall r | r in RenderBody(body) :: FreeOf(r, {'\n'})
  {
    if body != [] {
      assert body[0].OneLine();
      assert FreeOf(body[0].Render(), {'\n'});
      BodyOneLine(body[1..]);
    }
  }

  lemma HeaderOneLine(h: Segment, o: nat, n: nat)
    requires h.Hunk? && FreeOf(h.heading, {'\n'})
    ensures FreeOf(HeaderText(h, o, n), {'\n'})
  {
    DigitsOneLine(RangeText(o, Olds(h.body), h.terse));
    DigitsOneLine(RangeText(n, News(h.body), h.terse));
  }

  lemma DigitsOneLine(s: string)
    requires forall c | c in s :: IsDigit(c) || c == ','
    ensures FreeOf(s, {'\n'})
  {
  }

  lemma {:induction false} SegmentsOneLine(segs: seq<Segment>, o: nat, n: nat)
    requires forall s | s in segs :: OneLineSegment(s)
    ensures forall r | r in RenderSegments(segs, o, n) :: FreeOf(r, {'\n'})
    decreases segs
  {
    hide HeaderText;
    if segs != [] {
      assert OneLineSegment(segs[0]);
      if segs[0].Hunk? {
        HeaderOneLine(segs[0], o, n);
        BodyOneLine(segs[0].body);
      }
      SegmentsOneLine(segs[1..], o + Olds(SegmentScript(segs[0])), n + News(SegmentScript(segs[0])));
    }
  }

  lemma {:induction false} FilesOneLine(files: seq<FileDiff>)
    requires forall f | f in files :: Printable(f)
    ensures forall r | r in RenderFiles(files) :: FreeOf(r, {'\n'})
  {
    if files != [] {
      assert Printable(files[0]);
      SegmentsOneLine(files[0].segs, 0, 0);
      FilesOneLine(files[1..]);
    }
  }

  /** Parsing a rendering: each file contributes its hunks' lines, whatever introduces it. */
  lemma ParseRendered(files: seq<FileDiff>, finalNewline: bool)
    requires forall f | f in files :: Printable(f)
    ensures Touched(RenderText(files, finalNewline)) == FilesTouched(files)
  {
    var tail := if finalNewline then [""] else [];
    var lines := RenderFiles(files) + tail;
    FilesOneLine(files);
    if lines == [] {
      assert Split("", {'\n'}) == [""] == RenderFiles(files) + [""];
      ParseFiles(files, [""]);
    } else {
      SplitJoinAtoms(lines, '\n');
      ParseFiles(files, tail);
    }
  }

  // ----- exactness

  predicate Deletes(body: seq<Line>) { exists l :: l in body && l.Deleted? }

  /** The hunk keeps or adds at least one new line, or deletes nothing. */
  predicate Anchored(s: Segment) {
    s.Gap? || News(s.body) > 0 || !Deletes(s.body)
  }

  lemma {:induction false} OnlyDeletions(body: seq<Line>, n: int)
    requires News(body) == 0
    ensures TouchedFrom(body, n) == if Deletes(body) then {n, n + 1} else {}
    decreases body
  {
    if body != [] {
      OnlyDeletions(body[1..], n);
      assert body == [body[0]] + body[1..];
      assert Deletes(body) <==> body[0].Deleted? || Deletes(body[1..]) by {
        if Deletes(body[1..]) {
          var l :| l in body[1..] && l.Deleted?;
          assert l in body;
        }
      }
    }
  }

  lemma AnchoredIff(s: Segment, n: nat)
    requires s.Hunk?
    ensures HunkTouched(s.body, n) == TouchedFrom(s.body, n) <==> Anchored(s)
  {
    if News(s.body) == 0 {
      OnlyDeletions(s.body, n);
      OnlyDeletions(s.body, n - 1);
      assert n + 1 in {n, n + 1} && n + 1 !in {n - 1, n};
    }
  }

  /** Reading a printed hunk yields exactly the lines that its script touches iff it is anchored. */
  lemma HunkExactIff(s: Segment, o: nat, n: nat)
    requires s.Hunk?
    ensures Run(START, [HeaderText(s, o, n)] + RenderBody(s.body)).touched == TouchedFrom(s.body, n) <==> Anchored(s)
  {
    hide Run, HunkTouched, Anchored;
    ParseHunk(s, o, n);
    AnchoredIff(s, n);
  }

  lemma SegmentExact(s: Segment, n: nat)
    requires Anchored(s)
    ensures TouchedFrom(SegmentScript(s), n) == if s.Gap? then {} else HunkTouched(s.body, n)
  {
    if s.Gap? {
      GapUntouched(s.lines, n);
    } else {
      AnchoredIff(s, n);
    }
  }

  lemma {:induction false} FileExact(segs: seq<Segment>, n: nat)
    requires forall s | s in segs :: Anchored(s)
    ensures FileTouched(segs, n) == TouchedFrom(Script(segs), n)
    decreases segs
  {
    if segs != [] {
      var s := segs[0];
      TouchedFromConcat(SegmentScript(s), Script(segs[1..]), n);
      FileExact(segs[1..], n + News(SegmentScript(s)));
      SegmentExact(s, n);
    }
  }

  /** Parsing undoes rendering: the touched set is exactly what the edit scripts touch. */
  lemma {:induction false} ParseUndoesRender(files: seq<FileDiff>, finalNewline: bool, x: int)
    requires forall f | f in files :: Printable(f) && forall s | s in f.segs :: Anchored(s)
    ensures x in Touched(RenderText(files, finalNewline)) <==> exists f :: f in files && Touches(Script(f.segs), x)
  {
    ParseRendered(files, finalNewline);
    FilesTouchedIff(files, x);
  }

  lemma {:induction false} FilesTouchedIff(files: seq<FileDiff>, x: int)
    requires forall f | f in files :: forall s | s in f.segs :: Anchored(s)
    ensures x in FilesTouched(files) <==> exists f :: f in files && Touches(Script(f.segs), x)
  {
    if files != [] {
      assert files == [files[0]] + files[1..];
      FileExact(files[0].segs, 0);
      TouchedFromIffTouches(Script(files[0].segs), 0, x);
      FilesTouchedIff(files[1..], x);
    }
  }

  /** A hunk that only deletes, in the middle of a file: one line too early, one too few. */
  lemma EmptyNewRangeMisses()
    ensures var segs := [Gap(["a"]), Hunk([Deleted("x")], true, ""), Gap(["b"])];
      && RenderSegments(segs, 0, 0) == ["@@ -2 +1,0 @@", "-x"]
      && FileTouched(segs, 0) == {0, 1}
      && TouchedFrom(Script(segs), 0) == {1, 2}
  {
    var h := Hunk([Deleted("x")], true, "");
    var segs := [Gap(["a"]), h, Gap(["b"])];
    GapUntouched(["a"], 0);
    GapUntouched(["b"], 1);
    OnlyDeletions(h.body, 0);
    OnlyDeletions(h.body, 1);
    assert h.body[0] in h.body;
    assert h.body[1..] == [] && Olds(h.body) == 1 && News(h.body) == 0;
    assert segs[1..] == [h, Gap(["b"])] && segs[1..][1..] == [Gap(["b"])] && [Gap(["b"])][1..] == [];
    ShownHunk(h);
    assert RenderSegments([Gap(["b"])], 2, 1) == [];
    assert RenderSegments(segs[1..], 1, 1) == ([HeaderText(h, 1, 1)] + RenderBody(h.body)) + [];
    assert Script([Gap(["b"])]) == Contexts(["b"]) + Script([]);
    assert Script(segs[1..]) == h.body + Script([Gap(["b"])]);
    TouchedFromConcat(Contexts(["a"]), Script(segs[1..]), 0);
    TouchedFromConcat(h.body, Script([Gap(["b"])]), 1);
    TouchedFromConcat(Contexts(["b"]), [], 1);
  }

  lemma ShownHunk(h: Segment)
    requires h == Hunk([Deleted("x")], true, "")
    ensures HeaderText(h, 1, 1) == "@@ -2 +1,0 @@" && RenderBody(h.body) == ["-x"]
  {
    assert h.body[1..] == [] && Olds(h.body) == 1 && News(h.body) == 0;
    assert RenderBody(h.body) == ["-x"] + RenderBody([]) by { assert h.body[0].Render() == "-x"; }
    assert Dec(2) == "2" && Dec(1) == "1" && Dec(0) == "0";
  }

  // ----- counters that lie

  /** The counters after `k` lines of a body whose header declared `o` old and `n` new lines. */
  function CountersAfter(o: nat, n: nat, body: seq<Line>, k: nat): Cursor
    requires k <= |body|
  {
    Run(State(Open(0, o, n), {}), RenderBody(body[..k])).cursor
  }

  predicate NonNegative(c: Cursor) { c.Open? ==> c.oldRemaining >= 0 && c.newRemaining >= 0 }

  /** The first `k` lines of the body hold exactly the declared counts. */
  predicate Meets(o: int, n: int, body: seq<Line>, k: nat)
    requires k <= |body|
  {
    Olds(body[..k]) == o && News(body[..k]) == n
  }

  ghost predicate MeetsExactly(o: nat, n: nat, body: seq<Line>) {
    exists k :: 0 <= k <= |body| && Meets(o, n, body, k)
  }

  /**
   Whatever a header declares, the counters stay non-negative through the body exactly when
   the body stays within both counts or meets both at the same line.
   */
  lemma {:induction false} CountersStayNonNegativeIff(o: nat, n: nat, body: seq<Line>)
    ensures (forall k :: 0 <= k <= |body| ==> NonNegative(CountersAfter(o, n, body, k)))
       <==> ((Olds(body) <= o && News(body) <= n) || MeetsExactly(o, n, body))
  {
    if MeetsExactly(o, n, body) {
      var k :| 0 <= k <= |body| && Meets(o, n, body, k);
      forall j | 0 <= j <= |body| ensures NonNegative(CountersAfter(o, n, body, j)) {
        CountersRun(0, o, n, body, j);
        PrefixCounts(body, if j <= k then j else k, if j <= k then k else j);
      }
    } else {
      forall j | 0 <= j <= |body|
        ensures CountersAfter(o, n, body, j) == Open(News(body[..j]), o - Olds(body[..j]), n - News(body[..j]))
      {
        CountersRun(0, o, n, body, j);
      }
      assert body[..|body|] == body;
      forall j | 0 <= j <= |body| ensures Olds(body[..j]) <= Olds(body) && News(body[..j]) <= News(body) {
        PrefixCounts(body, j, |body|);
      }
      assert NonNegative(CountersAfter(o, n, body, |body|)) <==> Olds(body) <= o && News(body) <= n;
    }
  }

  lemma PrefixCounts(body: seq<Line>, i: nat, j: nat)
    requires i <= j <= |body|
    ensures Olds(body[..i]) <= Olds(body[..j]) && News(body[..i]) <= News(body[..j])
  {
    assert body[..j] == body[..i] + body[i..j];
    TextConcat(body[..i], body[i..j]);
  }

  /** The cursor after `j` lines: closed once the counts were met, otherwise what is left. */
  lemma {:induction false} CountersRun(base: int, o: int, n: int, body: seq<Line>, j: nat)
    requires j <= |body|
    ensures var c := Run(State(Open(base, o, n), {}), RenderBody(body[..j])).cursor;
      if c.Closed? then exists k :: 0 <= k < j && Meets(o, n, body, k)
      else
        && c == Open(base + News(body[..j]), o - Olds(body[..j]), n - News(body[..j]))
        && (forall k | 0 <= k < j :: !Meets(o, n, body, k))
    decreases body
  {
    hide Step, FindHeader;
    var c0 := Open(base, o, n);
    if j > 0 {
      hide RenderBody;
      var l, rest := body[0], body[1..];
      assert body[..0] == [];
      assert body[..j] == [l] + rest[..j - 1];
      if CloseIfSpent(c0).Closed? {
        RunBodySpent(c0, l, rest[..j - 1]);
        assert Meets(o, n, body, 0);
      } else {
        RunBodyCons(c0, l, rest[..j - 1]);
        CountersRun(base + l.InNew(), o - l.InOld(), n - l.InNew(), rest, j - 1);
        forall k | 0 < k <= |body|
          ensures Meets(o, n, body, k) <==> Meets(o - l.InOld(), n - l.InNew(), rest, k - 1)
        {
          assert body[..k] == [l] + rest[..k - 1] && body[..k][1..] == rest[..k - 1];
        }
        if Run(State(c0, {}), RenderBody(body[..j])).cursor.Closed? {
          var k :| 0 <= k < j - 1 && Meets(o - l.InOld(), n - l.InNew(), rest, k);
          assert Meets(o, n, body, k + 1);
        }
      }
    }
  }

  /** A hunk that says one old line and deletes two: the counter of old lines falls below zero. */
  lemma {:induction false} CountersGoNegative()
    ensures Run(START, ["@@ -1 +1 @@", "-a", "-b"]).cursor == Open(0, -1, 1)
  {
    var body := [Deleted("a"), Deleted("b")];
    var header := "@@ -" + RangeText(0, 1, true) + " +" + RangeText(0, 1, true) + " @@" + "";
    assert Dec(1) == "1" && header == "@@ -1 +1 @@";
    RangesRoundTrip(0, 1, 0, 1, true, "");
    assert Step(START, header) == State(Open(0, 1, 1), {});
    TwoDeletions(body);
    hide Step, Run;
    RunCons(START, header, ["-a", "-b"]);
    assert [header] + ["-a", "-b"] == ["@@ -1 +1 @@", "-a", "-b"];
    CountersRun(0, 1, 1, body, 2);
    assert body[..2] == body;
  }

  lemma {:induction false} TwoDeletions(body: seq<Line>)
    requires body == [Deleted("a"), Deleted("b")]
    ensures RenderBody(body) == ["-a", "-b"] && Olds(body) == 2 && News(body) == 0
    ensures forall k | 0 <= k <= 2 :: !Meets(1, 1, body, k)
  {
    assert body[1..] == [Deleted("b")] && [Deleted("b")][1..] == [];
    assert "-" + "a" == "-a" && "-" + "b" == "-b";
    assert Deleted("a").Render() == "-a" && Deleted("b").Render() == "-b";
    assert RenderBody([Deleted("b")]) == ["-b"] + RenderBody([]);
    assert OldText([Deleted("b")]) == ["b"] + OldText([]) && NewText([Deleted("b")]) == NewText([]);
    forall k | 0 <= k <= 2 ensures News(body[..k]) == 0 {
      PrefixCounts(body, k, 2);
      assert body[..2] == body;
    }
  }
}
