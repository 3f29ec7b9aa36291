/**
 Where the gate lets a new violation pass: an edit that takes away a block-comment opener can
 turn untouched text behind it into a comment, and no line of that comment is touched.
 */
module OpenBlocks {
  import opened Text
  import opened HunkParser
  import opened EditScripts
  import opened DiffSafety
  import opened CommentLexer
  import opened LexerLaws
  import opened SpanFinder
  import opened ReviewGate
  import opened GateSafety
  import Lit = StringLiterals

  // ----- a line that is a comment of its own, and less of one inside a block comment

  const CLOSERS: set<string> := {"*/", "-->"}

  /** A phrase that no marker begins or ends in. */
  predicate IsPhrase(t: string) { FreeOf(t, {'#', '<', '/', '*', '-', '\n'}) }

  /** A comment of the other kind that holds the closer `close`, with the phrase `t` behind it. */
  function Witness(close: string, t: string): string {
    if close == "*/" then "<!--*/" + t + "-->" else "/*-->" + t + "*/"
  }

  /** Where the closer ends in it. */
  function Covered(close: string): nat { if close == "*/" then 6 else 5 }

  lemma {:induction false} NoMarkers(line: string, masked: string, i: nat, s: Lit.State)
    requires i <= |line| == |masked|
    requires forall j :: i <= j < |line| ==> !LineCommentAt(line, j) && !HasAt(line, "/*", j) && !HasAt(line, "<!--", j)
    ensures Lex(line, masked, i, s, false) == Scan("", false, None)
    decreases |line| - i
  {
    hide LineCommentAt, HasAt;
    if i < |line| {
      NoMarkers(line, masked, i + 1, Lit.Next(s, masked[i]));
    }
  }

  lemma {:induction false} FirstChar(line: string, pat: string, j: nat)
    requires pat != ""
    ensures HasAt(line, pat, j) ==> j < |line| && line[j] == pat[0]
  {
    HasAtChars(line, pat, j);
    if HasAt(line, pat, j) {
      assert line[j + 0] == pat[0];
    }
  }

  /** No marker starts with another character than these. */
  lemma {:induction false} NoMarkerAt(line: string, j: nat)
    requires j < |line| && line[j] != '#' && line[j] != '<'
    requires line[j] == '/' ==> j + 1 == |line|
    ensures !LineCommentAt(line, j) && !HasAt(line, "/*", j) && !HasAt(line, "<!--", j)
  {
    PairAt(line, "/*", j);
    PairAt(line, "//", j);
    FirstChar(line, "#", j);
    FirstChar(line, "<!--", j);
  }

  lemma {:induction false} RestIsEmpty(line: string, masked: string, i: nat, s: Lit.State)
    requires i <= |line| == |masked|
    requires forall j | i <= j < |line| :: line[j] != '#' && line[j] != '<' && (line[j] == '/' ==> j + 1 == |line|)
    ensures Lex(line, masked, i, s, false) == Scan("", false, None)
  {
    hide LineCommentAt, HasAt;
    forall j | i <= j < |line| ensures !LineCommentAt(line, j) && !HasAt(line, "/*", j) && !HasAt(line, "<!--", j) {
      NoMarkerAt(line, j);
    }
    NoMarkers(line, masked, i, s);
  }

  /** A line that is one block comment. */
  lemma {:induction false} WholeLine(line: string, masked: string, open: string, close: string)
    requires 0 < |line| == |masked| && !LineCommentAt(line, 0)
    requires BlockAt(line, masked, 0, Lit.Code) == Some((open, close))
    requires IndexOf(line, close, |open|) != -1 && IndexOf(line, close, |open|) + |close| == |line|
    ensures LexLine(line, masked, None, false) == Scan(line, true, None)
  {
    hide LineCommentAt, HasAt, IndexOf, Lit.StateFrom, Lex, BlockAt;
    LexBlock(line, masked, 0, Lit.Code, false, open, close);
    RestIsEmpty(line, masked, |line|, Lit.StateFrom(Lit.Code, masked, 0, |line|));
    assert line[0..|line|] == line;
    Assoc(line, "", "");
  }

  /** A line in a block comment that ends before `k`, with no marker behind. */
  lemma {:induction false} CoveredLine(line: string, masked: string, other: string, k: nat)
    requires k <= |line| == |masked|
    requires IndexOf(line, other, 0) != -1 && IndexOf(line, other, 0) + |other| == k
    requires forall j | k <= j < |line| :: line[j] != '#' && line[j] != '<' && (line[j] == '/' ==> j + 1 == |line|)
    ensures LexLine(line, masked, Some(other), false) == Scan(line[..k], true, None)
  {
    hide LexLine, IndexOf, HasAt, Lit.StateAt, Lex;
    RestIsEmpty(line, masked, k, Lit.StateAt(masked, k));
    LineCloses(line, masked, other);
    assert line[..k] + "" == line[..k];
  }

  lemma {:induction false} LineCloses(line: string, masked: string, close: string)
    requires |line| == |masked| && IndexOf(line, close, 0) != -1
    ensures var end := IndexOf(line, close, 0) + |close|;
      var rest := Lex(line, masked, end, Lit.StateAt(masked, end), false);
      LexLine(line, masked, Some(close), false) == Scan(line[..end] + rest.text, true, rest.awaited)
  {
    hide IndexOf, HasAt, Lit.StateAt, Lex;
  }

  lemma {:induction false} MarkerAtStart(line: string, masked: string, open: string, close: string)
    requires (open, close) in MARKERS && HasAt(line, open, 0)
    ensures !LineCommentAt(line, 0) && BlockAt(line, masked, 0, Lit.Code) == Some((open, close))
  {
    MarkersDiffer(line, 0);
  }

  lemma {:induction false} WitnessStar(line: string, masked: string, t: string)
    requires line == "<!--*/" + t + "-->" && IsPhrase(t) && |masked| == |line|
    ensures LexLine(line, masked, None, false) == Scan(line, true, None)
    ensures LexLine(line, masked, Some("*/"), false) == Scan(line[..6], true, None)
  {
    StarMarkers(line, t);
    StarRest(line, t);
    assert (MARKERS[1].0, MARKERS[1].1) in MARKERS;
    hide LineCommentAt, HasAt, IndexOf, BlockAt, LexLine, IsPhrase;
    MarkerAtStart(line, masked, "<!--", "-->");
    WholeLine(line, masked, "<!--", "-->");
    CoveredLine(line, masked, "*/", 6);
  }

  lemma {:induction false} WitnessArrow(line: string, masked: string, t: string)
    requires line == "/*-->" + t + "*/" && IsPhrase(t) && |masked| == |line|
    ensures LexLine(line, masked, None, false) == Scan(line, true, None)
    ensures LexLine(line, masked, Some("-->"), false) == Scan(line[..5], true, None)
  {
    ArrowMarkers(line, t);
    ArrowRest(line, t);
    assert (MARKERS[0].0, MARKERS[0].1) in MARKERS;
    hide LineCommentAt, HasAt, IndexOf, BlockAt, LexLine, IsPhrase;
    MarkerAtStart(line, masked, "/*", "*/");
    WholeLine(line, masked, "/*", "*/");
    CoveredLine(line, masked, "-->", 5);
  }

  lemma {:induction false} StarRest(line: string, t: string)
    requires line == "<!--*/" + t + "-->" && IsPhrase(t)
    ensures forall j | 6 <= j < |line| :: line[j] != '#' && line[j] != '<' && line[j] != '/'
    ensures forall j | 6 <= j < 6 + |t| :: line[j] != '-'
    ensures line[..4] == "<!--" && line[4] == '*' && line[5] == '/' && line[6 + |t|..] == "-->"
  {
    forall j | 6 <= j < 6 + |t| ensures line[j] in t {
      assert line[j] == t[j - 6];
    }
    assert line[6 + |t|..] == "-->";
    forall j | 6 + |t| <= j < |line| ensures line[j] == "-->"[j - 6 - |t|] {
      assert line[j] == line[6 + |t|..][j - 6 - |t|];
    }
  }

  lemma {:induction false} ArrowRest(line: string, t: string)
    requires line == "/*-->" + t + "*/" && IsPhrase(t)
    ensures forall j | 5 <= j < |line| :: line[j] != '#' && line[j] != '<' && (line[j] == '/' ==> j + 1 == |line|)
    ensures forall j | 5 <= j < 5 + |t| :: line[j] != '*'
    ensures line[..2] == "/*" && line[2..5] == "-->" && line[5 + |t|..] == "*/"
  {
    forall j | 5 <= j < 5 + |t| ensures line[j] in t {
      assert line[j] == t[j - 5];
    }
    assert line[5 + |t|..] == "*/";
    forall j | 5 + |t| <= j < |line| ensures line[j] == "*/"[j - 5 - |t|] {
      assert line[j] == line[5 + |t|..][j - 5 - |t|];
    }
  }

  lemma {:induction false} StarMarkers(line: string, t: string)
    requires line == "<!--*/" + t + "-->" && IsPhrase(t)
    ensures HasAt(line, "<!--", 0) && IndexOf(line, "-->", 4) == 6 + |t| && IndexOf(line, "*/", 0) == 4
  {
    StarRest(line, t);
    hide IsPhrase, IndexOf;
    assert line[0..4] == "<!--" && line[6 + |t|..6 + |t| + 3] == "-->" && line[4..6] == "*/";
    forall j | 4 <= j < 6 + |t| ensures !HasAt(line, "-->", j) {
      FirstChar(line, "-->", j);
    }
    IndexOfIs(line, "-->", 4, 6 + |t|);
    forall j | 0 <= j < 4 ensures !HasAt(line, "*/", j) {
      FirstChar(line, "*/", j);
      assert line[j] == line[..4][j];
    }
    IndexOfIs(line, "*/", 0, 4);
  }

  lemma {:induction false} ArrowMarkers(line: string, t: string)
    requires line == "/*-->" + t + "*/" && IsPhrase(t)
    ensures HasAt(line, "/*", 0) && IndexOf(line, "*/", 2) == 5 + |t| && IndexOf(line, "-->", 0) == 2
  {
    ArrowRest(line, t);
    hide IsPhrase, IndexOf;
    assert line[0..2] == "/*" && line[5 + |t|..5 + |t| + 2] == "*/";
    forall j | 2 <= j < 5 + |t| ensures !HasAt(line, "*/", j) {
      FirstChar(line, "*/", j);
      assert j < 5 ==> line[j] == line[2..5][j - 2];
    }
    IndexOfIs(line, "*/", 2, 5 + |t|);
    forall j | 0 <= j < 2 ensures !HasAt(line, "-->", j) {
      FirstChar(line, "-->", j);
      assert line[j] == line[..2][j];
    }
    IndexOfIs(line, "-->", 0, 2);
  }

  lemma {:induction false} WitnessLex(close: string, t: string, masked: string)
    requires close in CLOSERS && IsPhrase(t) && |masked| == |Witness(close, t)|
    ensures Covered(close) < |Witness(close, t)| && FreeOf(Witness(close, t), {'\n'}) && Witness(close, t) != ""
    ensures LexLine(Witness(close, t), masked, None, false) == Scan(Witness(close, t), true, None)
    ensures LexLine(Witness(close, t), masked, Some(close), false)
         == Scan(Witness(close, t)[..Covered(close)], true, None)
  {
    hide LexLine;
    var line := Witness(close, t);
    if close == "*/" {
      WitnessStar(line, masked, t);
      WrappedIsFree("<!--*/", t, "-->");
    } else {
      WitnessArrow(line, masked, t);
      WrappedIsFree("/*-->", t, "*/");
    }
  }

  lemma {:induction false} WrappedIsFree(a: string, t: string, b: string)
    requires FreeOf(a, {'\n'}) && IsPhrase(t) && FreeOf(b, {'\n'})
    ensures FreeOf(a + t + b, {'\n'})
  {
    FreeConcat(a + t, b, {'\n'});
    FreeConcat(a, t, {'\n'});
  }

  lemma {:induction false} PlainLine(masked: string)
    requires |masked| == 1
    ensures LexLine("y", masked, None, false) == Scan("", false, None)
  {
    RestIsEmpty("y", masked, 0, Lit.Code);
  }

  /** The closer awaited after any lines is that of one of the two kinds of block comment. */
  lemma {:induction false} AwaitedIsCloser(lines: seq<string>, mask: Mask, k: nat)
    requires k <= |lines|
    ensures IsCloser(AwaitedAt(lines, mask, k))
    decreases k
  {
    hide LexLine, AwaitedAt, IsCloser;
    if k == 0 {
      NothingAwaited(lines, mask);
      assert IsCloser(None) by { NoneIsCloser(); }
    } else {
      AwaitedIsCloser(lines, mask, k - 1);
      AwaitedStep(lines, mask, k);
      LineAwaits(lines[k - 1], mask(lines[k - 1]), AwaitedAt(lines, mask, k - 1));
    }
  }

  predicate IsCloser(st: Option<string>) { st.Some? ==> st.value in CLOSERS }

  lemma {:induction false} NoneIsCloser()
    ensures IsCloser(None)
  {
  }

  lemma {:induction false} LineAwaits(line: string, masked: string, before: Option<string>)
    requires |line| == |masked| && IsCloser(before)
    ensures IsCloser(LexLine(line, masked, before, false).awaited)
  {
    hide IndexOf, HasAt, Lex, Lit.StateFrom, IsCloser;
    match before
    case None => LexAwaits(line, masked, 0, Lit.Code);
    case Some(close) =>
      var endIdx := IndexOf(line, close, 0);
      if endIdx != -1 {
        LexAwaits(line, masked, endIdx + |close|, Lit.StateAt(masked, endIdx + |close|));
      }
  }

  lemma {:induction false} BlockCloser(line: string, masked: string, i: nat, s: Lit.State)
    ensures var m := BlockAt(line, masked, i, s); m.Some? ==> m.value.1 in CLOSERS
  {
    hide HasAt, Lit.Inside;
  }

  lemma {:induction false} LexAwaits(line: string, masked: string, i: nat, s: Lit.State)
    requires i <= |line| == |masked|
    ensures IsCloser(Lex(line, masked, i, s, false).awaited)
    decreases |line| - i
  {
    hide IndexOf, HasAt, LineCommentAt, BlockAt, Lit.StateFrom, Lit.Next;
    if i < |line| && !LineCommentAt(line, i) {
      hide Lex;
      match BlockAt(line, masked, i, s)
      case None =>
        LexNone(line, masked, i, s, false);
        LexAwaits(line, masked, i + 1, Lit.Next(s, masked[i]));
      case Some((open, close)) =>
        LexBlock(line, masked, i, s, false, open, close);
        BlockCloser(line, masked, i, s);
        var endIdx := IndexOf(line, close, i + |open|);
        if endIdx != -1 {
          LexAwaits(line, masked, endIdx + |close|, Lit.StateFrom(s, masked, i, endIdx + |close|));
        }
    }
  }

  // ----- the edit that takes the opener away

  function Deletions(lines: seq<string>): seq<Line> {
    seq(|lines|, i requires 0 <= i < |lines| => Deleted(lines[i]))
  }

  /** Replaces the lines `before` by one line of code and keeps the line `kept` after them. */
  function Uncovering(before: seq<string>, kept: string): FileDiff {
    FileDiff([], [Hunk(UncoveringBody(before, kept), false, "")])
  }

  lemma {:induction false} DeletionsOnly(lines: seq<string>)
    ensures OldText(Deletions(lines)) == lines && NewText(Deletions(lines)) == []
    ensures Deletes(Deletions(lines)) <==> lines != []
  {
    if lines != [] {
      assert Deletions(lines)[1..] == Deletions(lines[1..]);
      DeletionsOnly(lines[1..]);
      assert Deletions(lines)[0].Deleted? && Deletions(lines)[0] in Deletions(lines);
    }
  }

  lemma {:induction false} LastTwo(kept: string, n: int)
    ensures var two := [Added("y"), Context(kept)];
      && OldText(two) == [kept] && NewText(two) == ["y", kept] && TouchedFrom(two, n) == {n + 1}
      && OldIndex(two, 1) == 0
  {
    var two, one := [Added("y"), Context(kept)], [Context(kept)];
    assert two[1..] == one && one[1..] == [];
    assert two[0] == Added("y") && one[0] == Context(kept);
    assert one[0].InOld() == one[0].InNew() == 1 && OldText([]) == NewText([]) == [];
    assert OldText(one) == [kept] + OldText([]) && NewText(one) == [kept] + NewText([]);
    assert TouchedFrom(one, n + 1) == TouchedFrom([], n + 2) == {};
    assert OldIndex(one, 0) == 0;
  }

  lemma {:induction false} OldIndexAfterDeletions(lines: seq<string>, rest: seq<Line>, i: nat)
    requires i < News(rest)
    ensures NewText(Deletions(lines) + rest) == NewText(rest)
    ensures OldIndex(Deletions(lines) + rest, i) == |lines| + OldIndex(rest, i)
  {
    DeletionsOnly(lines);
    TextConcat(Deletions(lines), rest);
    if lines == [] {
      assert Deletions(lines) + rest == rest;
    } else {
      assert (Deletions(lines) + rest)[1..] == Deletions(lines[1..]) + rest;
      OldIndexAfterDeletions(lines[1..], rest, i);
    }
  }

  function UncoveringBody(before: seq<string>, kept: string): seq<Line> {
    Deletions(before) + [Added("y"), Context(kept)]
  }

  lemma {:induction false} UncoveringText(before: seq<string>, kept: string)
    ensures var body := UncoveringBody(before, kept);
      && OldText(body) == before + [kept] && NewText(body) == ["y", kept] && OldIndex(body, 1) == |before|
      && (before != [] ==> TouchedFrom(body, 0) == {0, 1})
  {
    hide OldText, NewText, OldIndex, TouchedFrom, Deletions;
    var two := [Added("y"), Context(kept)];
    DeletionsOnly(before);
    LastTwo(kept, 0);
    TextConcat(Deletions(before), two);
    OldIndexAfterDeletions(before, two, 1);
    TouchedFromConcat(Deletions(before), two, 0);
    if before != [] {
      OnlyDeletions(Deletions(before), 0);
    }
  }

  lemma {:induction false} OneHunk(body: seq<Line>)
    ensures Script([Hunk(body, false, "")]) == body
    ensures FilesTouched([FileDiff([], [Hunk(body, false, "")])]) == HunkTouched(body, 0)
  {
    hide HunkTouched;
    var segs := [Hunk(body, false, "")];
    assert segs[1..] == [] && Script([]) == [];
    assert Script(segs) == body + [];
    assert [FileDiff([], segs)][1..] == [] && FilesTouched([]) == {};
    assert FileTouched(segs, 0) == HunkTouched(body, 0) + FileTouched([], News(body));
  }

  lemma {:induction false} UncoveringScript(before: seq<string>, kept: string)
    requires before != []
    ensures Script(Uncovering(before, kept).segs) == UncoveringBody(before, kept)
    ensures FilesTouched([Uncovering(before, kept)]) == {0, 1}
  {
    hide Script, FilesTouched, OldText, NewText, TouchedFrom;
    UncoveringText(before, kept);
    OneHunk(UncoveringBody(before, kept));
  }

  lemma {:induction false} UncoveringPrintable(before: seq<string>, kept: string)
    requires (forall l | l in before :: FreeOf(l, {'\n'})) && FreeOf(kept, {'\n'})
    ensures Printable(Uncovering(before, kept))
  {
    var body := UncoveringBody(before, kept);
    forall l | l in body ensures l.OneLine() {
      assert FreeOf("y", {'\n'});
    }
  }

  // ----- what happens to a comment span that the edit does not touch

  /** Lines a..b of the new text are a maximal comment span of the code file, and none of them is touched. */
  ghost predicate KeptSpan(mask: Mask, f: FileDiff, a: nat, b: nat) {
    && Printable(f) && 1 <= a <= b <= News(Script(f.segs))
    && MaximalRun(LexLines(NewText(Script(f.segs)), mask, None, false), a - 1, b)
    && forall x | a <= x <= b :: x !in Touched(RenderText([f], true))
  }

  /** In the old text they stand right after the lines `before`. */
  predicate StandsAfter(f: FileDiff, a: nat, before: seq<string>) {
    && 1 <= a <= News(Script(f.segs))
    && OldIndex(Script(f.segs), a - 1) == |before| <= Olds(Script(f.segs))
    && OldText(Script(f.segs))[..|before|] == before
  }

  /** They have the same flags and comment texts in the old text. */
  predicate SameClasses(mask: Mask, f: FileDiff, a: nat, b: nat, j: nat) {
    1 <= a <= b <= News(Script(f.segs)) &&
    var n := b - (a - 1);
    j + n <= Olds(Script(f.segs))
    && LexLines(OldText(Script(f.segs)), mask, None, false)[j..j + n]
    == LexLines(NewText(Script(f.segs)), mask, None, false)[a - 1..b]
  }

  lemma {:induction false} ClearKeepsClasses(mask: Mask, f: FileDiff, a: nat, b: nat, before: seq<string>)
    requires KeptSpan(mask, f, a, b) && StandsAfter(f, a, before)
    requires AwaitedAt(before, mask, |before|) == None
    ensures SameClasses(mask, f, a, b, |before|)
  {
    hide Touched, RenderText, Script, NewText, OldText, OldIndex, LexLines, AwaitedAt, Printable, MaximalRun;
    var script := Script(f.segs);
    assert f in [f];
    UntouchedBlockIsOld([f], true, f, a, b);
    BlockOfClear(OldText(script), NewText(script), mask, a, b, before);
  }

  lemma {:induction false} BlockOfClear(was: seq<string>, now: seq<string>, mask: Mask, a: nat, b: nat,
                                        before: seq<string>)
    requires 1 <= a <= b <= |now| && MaximalRun(LexLines(now, mask, None, false), a - 1, b)
    requires var j := |before|;
      && j + (b - a + 1) <= |was| && was[..j] == before && was[j..j + (b - a + 1)] == now[a - 1..b]
    requires AwaitedAt(before, mask, |before|) == None
    ensures var j, n := |before|, b - (a - 1);
      LexLines(was, mask, None, false)[j..j + n] == LexLines(now, mask, None, false)[a - 1..b]
  {
    hide LexLines, AwaitedAt, MaximalRun;
    var rest := was[|before|..];
    assert was == before + rest;
    AwaitedOfPrefix(before, rest, mask, |before|);
    ClassesCarryOver(now, a - 1, b, b, was, |before|, false, mask);
  }

  /** The classes of the two lines that the edit leaves. */
  lemma {:induction false} UncoveredClasses(mask: Mask, close: string, t: string)
    requires close in CLOSERS && IsPhrase(t)
    ensures LexLines(["y", Witness(close, t)], mask, None, false) == [Class(false, ""), Class(true, Witness(close, t))]
  {
    hide LexLine, Witness;
    var kept := Witness(close, t);
    PlainLine(mask("y"));
    WitnessLex(close, t, mask(kept));
    assert ["y", kept][1..] == [kept] && [kept][1..] == [];
    assert LexLines([], mask, None, false) == [];
  }

  /** The class that the kept line had behind the open block. */
  lemma {:induction false} CoveredClass(mask: Mask, before: seq<string>, close: string, t: string)
    requires close in CLOSERS && IsPhrase(t) && AwaitedAt(before, mask, |before|) == Some(close)
    ensures LexLines(before + [Witness(close, t)], mask, None, false)[|before|]
         == Class(true, Witness(close, t)[..Covered(close)])
    ensures Witness(close, t)[..Covered(close)] != Witness(close, t)
  {
    hide LexLines, LexLine, AwaitedAt, Witness;
    var kept := Witness(close, t);
    WitnessLex(close, t, mask(kept));
    ClassAt(before + [kept], mask, |before|);
    AwaitedOfPrefix(before, [kept], mask, |before|);
  }

  /** What makes the edit a counterexample, from the texts and classes involved. */
  lemma {:induction false} UncoveredIsKept(mask: Mask, f: FileDiff, before: seq<string>, kept: string, covered: string)
    requires var script := Script(f.segs);
      OldText(script) == before + [kept] && NewText(script) == ["y", kept] && OldIndex(script, 1) == |before|
    requires Printable(f) && Touched(RenderText([f], true)) == {0, 1} && covered != kept
    requires LexLines(["y", kept], mask, None, false) == [Class(false, ""), Class(true, kept)]
    requires LexLines(before + [kept], mask, None, false)[|before|] == Class(true, covered)
    ensures KeptSpan(mask, f, 2, 2) && StandsAfter(f, 2, before) && !SameClasses(mask, f, 2, 2, |before|)
  {
    hide LexLines, Touched, RenderText, Script, OldIndex, NewText, OldText, Printable, MaximalRun;
    SecondIsRun(kept);
    assert (before + [kept])[..|before|] == before;
    DifferAtOne(LexLines(before + [kept], mask, None, false), LexLines(["y", kept], mask, None, false), |before|);
  }

  /** Behind an open block comment there is an edit that uncovers a comment without touching it. */
  lemma {:induction false} OpenBlockUncovers(mask: Mask, before: seq<string>, close: string, t: string)
    requires close in CLOSERS && IsPhrase(t) && AwaitedAt(before, mask, |before|) == Some(close)
    requires forall l | l in before :: FreeOf(l, {'\n'})
    ensures var f := Uncovering(before, Witness(close, t));
      KeptSpan(mask, f, 2, 2) && StandsAfter(f, 2, before) && !SameClasses(mask, f, 2, 2, |before|)
  {
    hide LexLines, LexLine, Witness, Covered, Touched, RenderText, Script, OldIndex, NewText, OldText, UncoveringBody;
    hide Uncovering, Printable, KeptSpan, StandsAfter, SameClasses;
    if before == [] {
      NothingAwaited(before, mask);
      assert false;
    }
    var kept := Witness(close, t);
    var f := Uncovering(before, kept);
    WitnessLex(close, t, mask(kept));
    UncoveringScript(before, kept);
    UncoveringText(before, kept);
    UncoveringPrintable(before, kept);
    assert forall g | g in [f] :: g == f;
    ParseRendered([f], true);
    UncoveredClasses(mask, close, t);
    CoveredClass(mask, before, close, t);
    UncoveredIsKept(mask, f, before, kept, kept[..Covered(close)]);
  }

  lemma NoPhrase()
    ensures IsPhrase("")
  {
  }

  lemma {:induction false} SecondIsRun(kept: string)
    ensures MaximalRun([Class(false, ""), Class(true, kept)], 1, 2)
  {
  }

  lemma {:induction false} DifferAtOne(xs: seq<Class>, ys: seq<Class>, j: nat)
    requires j < |xs| && |ys| == 2 && xs[j] != ys[1]
    ensures xs[j..j + 1] != ys[1..2]
  {
    assert xs[j..j + 1][0] == xs[j] && ys[1..2][0] == ys[1];
  }

  /**
   Exactly when untouched comments keep what they were: for code files, every maximal comment
   span that any edit leaves untouched behind the lines `before` has the flags and texts that it
   had in the old file if and only if no block comment is open after those lines.
   */
  lemma {:induction false} UntouchedSpansKeptIff(mask: Mask, before: seq<string>)
    requires forall l | l in before :: FreeOf(l, {'\n'})
    ensures (forall f, a, b | KeptSpan(mask, f, a, b) && StandsAfter(f, a, before)
             :: SameClasses(mask, f, a, b, |before|))
       <==> AwaitedAt(before, mask, |before|) == None
  {
    hide KeptSpan, StandsAfter, SameClasses, AwaitedAt;
    var st := AwaitedAt(before, mask, |before|);
    if st == None {
      forall f, a, b | KeptSpan(mask, f, a, b) && StandsAfter(f, a, before)
        ensures SameClasses(mask, f, a, b, |before|)
      {
        ClearKeepsClasses(mask, f, a, b, before);
      }
    } else {
      AwaitedIsCloser(before, mask, |before|);
      NoPhrase();
      OpenBlockUncovers(mask, before, st.value, "");
    }
  }

  // ----- and so for the gate

  lemma {:induction false} OnlySecond(kept: string, span: Span)
    ensures IsSpanOf([Class(false, ""), Class(true, kept)], span) <==> span == Span(2, 2, kept)
  {
    var cl := [Class(false, ""), Class(true, kept)];
    assert cl[1..2] == [cl[1]];
    assert Texts(cl[1..2]) == [kept];
    if IsSpanOf(cl, span) {
      var a, b := span.startLine - 1, span.endLine;
      assert a == 1 && b == 2;
    }
  }

  lemma {:induction false} OnlyBoth(first: string, second: string, span: Span)
    requires IsSpanOf([Class(true, first), Class(true, second)], span)
    ensures span == Span(1, 2, first + "\n" + second)
  {
    var cl := [Class(true, first), Class(true, second)];
    var a, b := span.startLine - 1, span.endLine;
    assert a == 0 && b == 2 && cl[0..2] == cl;
    assert Texts(cl) == [first, second] && [first, second][1..] == [second];
    assert Join([second], "\n") == second;
    assert Join([first, second], "\n") == first + "\n" + Join([second], "\n");
  }

  lemma {:induction false} TwoLines(first: string, second: string)
    requires FreeOf(first, {'\n'}) && FreeOf(second, {'\n'})
    ensures Split(first + "\n" + second, {'\n'}) == [first, second]
  {
    SplitConcat(first, '\n', second, {'\n'});
    SplitAtom(first, {'\n'});
    SplitAtom(second, {'\n'});
  }

  lemma {:induction false} UncoveringTouches(before: seq<string>, kept: string)
    requires before != [] && (forall l | l in before :: FreeOf(l, {'\n'})) && FreeOf(kept, {'\n'})
    ensures Touched(RenderText([Uncovering(before, kept)], true)) == {0, 1}
  {
    hide Touched, RenderText, Uncovering, Printable, FilesTouched;
    UncoveringScript(before, kept);
    UncoveringPrintable(before, kept);
    assert forall g | g in [Uncovering(before, kept)] :: g == Uncovering(before, kept);
    ParseRendered([Uncovering(before, kept)], true);
  }

  lemma {:induction false} UncoveredContent(rules: Rules, name: string, close: string, t: string)
    requires !rules.proseFile(name) && close in CLOSERS && IsPhrase(t)
    ensures Classes(rules, name, "y\n" + Witness(close, t)) == [Class(false, ""), Class(true, Witness(close, t))]
  {
    hide LexLines, LexLine, Witness;
    WitnessLex(close, t, rules.mask(Witness(close, t)));
    UncoveredClasses(rules.mask, close, t);
    assert FreeOf("y", {'\n'});
    TwoLines("y", Witness(close, t));
    assert "y" + "\n" == "y\n";
  }

  lemma {:induction false} PassesUntouched(rules: Rules, name: string, diff: string, content: string, kept: string)
    requires Touched(diff) == {0, 1} && Classes(rules, name, content) == [Class(false, ""), Class(true, kept)]
    ensures !BreaksRules(rules, name, diff, content) && IsSpanOf(Classes(rules, name, content), Span(2, 2, kept))
  {
    hide Classes, Touched, IsSpanOf;
    forall span ensures !Breaks(rules, Classes(rules, name, content), Touched(diff), span) {
      OnlySecond(kept, span);
    }
    OnlySecond(kept, Span(2, 2, kept));
  }

  /**
   For any lines of a code file that leave a block comment open there is an edit that passes with
   a violation that it uncovers: one maximal comment span, on an untouched line.
   */
  lemma {:induction false} OpenBlockPasses(rules: Rules, name: string, before: seq<string>, close: string, t: string)
    requires !rules.proseFile(name) && close in CLOSERS && IsPhrase(t) && rules.Violated(Witness(close, t))
    requires AwaitedAt(before, rules.mask, |before|) == Some(close) && forall l | l in before :: FreeOf(l, {'\n'})
    ensures var diff, content := RenderText([Uncovering(before, Witness(close, t))], true), "y\n" + Witness(close, t);
      && !BreaksRules(rules, name, diff, content)
      && IsSpanOf(Classes(rules, name, content), Span(2, 2, Witness(close, t)))
  {
    hide Classes, LexLine, Witness, Touched, RenderText, Uncovering, IsSpanOf, BreaksRules;
    if before == [] {
      NothingAwaited(before, rules.mask);
      assert false;
    }
    var kept := Witness(close, t);
    WitnessLex(close, t, rules.mask(kept));
    UncoveringTouches(before, kept);
    UncoveredContent(rules, name, close, t);
    PassesUntouched(rules, name, RenderText([Uncovering(before, kept)], true), "y\n" + kept, kept);
  }

  // ----- exactly when a new violation can pass

  /** An edit of a file: its diff, both texts, and a comment span of the new text. */
  datatype Edit = Edit(f: FileDiff, content: string, tail: seq<string>, oldContent: string, oldTail: seq<string>,
                       span: Span)

  /** The edit passes although the span, which stood right after the lines `before`, breaks the rules. */
  ghost predicate PassesBehind(rules: Rules, name: string, before: seq<string>, e: Edit) {
    var script := Script(e.f.segs);
    && Printable(e.f)
    && IsTextOf(e.content, NewText(script), e.tail) && IsTextOf(e.oldContent, OldText(script), e.oldTail)
    && !BreaksRules(rules, name, RenderText([e.f], true), e.content)
    && IsSpanOf(Classes(rules, name, e.content), e.span) && rules.Violated(e.span.text)
    && StandsAfter(e.f, e.span.startLine, before)
  }

  /** In the old text the lines of the span lay, with the same comment texts, in a span that broke the rules. */
  ghost predicate BrokeBefore(rules: Rules, name: string, e: Edit) {
    var script, cl := Script(e.f.segs), Classes(rules, name, e.content);
    && 1 <= e.span.startLine <= LastLine(e.span, News(script)) <= |cl| && e.span.startLine <= News(script)
    && exists earlier: Span ::
         && HoldsLines(Classes(rules, name, e.oldContent), earlier, OldIndex(script, e.span.startLine - 1),
              LinesOf(cl, e.span, News(script)))
         && rules.Violated(earlier.text)
  }

  lemma {:induction false} StandsClear(f: FileDiff, n: nat, before: seq<string>, prose: bool, mask: Mask)
    requires StandsAfter(f, n, before) && AwaitedAt(before, mask, |before|) == None
    ensures ClearBefore(Script(f.segs), prose, mask, n)
  {
    hide OldText, OldIndex, Script, AwaitedAt;
    var was := OldText(Script(f.segs));
    assert was == before + was[|before|..];
    AwaitedOfPrefix(before, was[|before|..], mask, |before|);
  }

  lemma {:induction false} SpanWithinClasses(cl: seq<Class>, span: Span)
    requires IsSpanOf(cl, span)
    ensures 1 <= span.startLine <= span.endLine <= |cl|
  {
  }

  lemma {:induction false} ClearPassesNoNew(rules: Rules, name: string, before: seq<string>, e: Edit)
    requires Extensible(rules) && PassesBehind(rules, name, before, e)
    requires AwaitedAt(before, rules.mask, |before|) == None
    ensures BrokeBefore(rules, name, e)
  {
    hide IsSpanOf, Classes, Classify, BreaksRules, RenderText, NewText, OldText, OldIndex, Script, Extensible;
    hide AwaitedAt, HoldsLines, Printable, LinesOf, IsTextOf, StandsAfter, ClearBefore;
    StandsClear(e.f, e.span.startLine, before, rules.proseFile(name), rules.mask);
    assert forall g | g in [e.f] :: g == e.f;
    SpanWithinClasses(Classes(rules, name, e.content), e.span);
    var earlier :=
      PassingBreachesAreOld(rules, name, [e.f], true, e.f, e.content, e.tail, e.oldContent, e.oldTail, e.span);
  }

  function UncoveringEdit(before: seq<string>, kept: string): Edit {
    Edit(Uncovering(before, kept), "y\n" + kept, [], Join(before + [kept], "\n"), [], Span(2, 2, kept))
  }

  lemma {:induction false} EditTexts(before: seq<string>, kept: string)
    requires before != [] && (forall l | l in before :: FreeOf(l, {'\n'})) && FreeOf(kept, {'\n'})
    ensures var e := UncoveringEdit(before, kept);
      && Printable(e.f) && IsTextOf(e.content, ["y", kept], []) && IsTextOf(e.oldContent, before + [kept], [])
      && NewText(Script(e.f.segs)) == ["y", kept] && OldText(Script(e.f.segs)) == before + [kept]
      && OldIndex(Script(e.f.segs), 1) == |before| && StandsAfter(e.f, 2, before)
  {
    hide Uncovering, Script, NewText, OldText, OldIndex, Printable, UncoveringBody;
    UncoveringPrintable(before, kept);
    UncoveringScript(before, kept);
    UncoveringText(before, kept);
    assert FreeOf("y", {'\n'});
    TwoLines("y", kept);
    assert "y" + "\n" == "y\n";
    forall l | l in before + [kept] ensures FreeOf(l, {'\n'}) {
    }
    SplitJoinAtoms(before + [kept], '\n');
    assert (before + [kept])[..|before|] == before;
    assert before + [kept] + [] == before + [kept];
  }

  lemma {:induction false} AwaitedHasLines(before: seq<string>, mask: Mask)
    requires AwaitedAt(before, mask, |before|) != None
    ensures before != []
  {
    if before == [] {
      NothingAwaited(before, mask);
      assert false;
    }
  }

  lemma {:induction false} OpenPasses(rules: Rules, name: string, before: seq<string>, close: string, t: string)
    requires !rules.proseFile(name) && close in CLOSERS && IsPhrase(t) && rules.Violated(Witness(close, t))
    requires AwaitedAt(before, rules.mask, |before|) == Some(close) && forall l | l in before :: FreeOf(l, {'\n'})
    ensures PassesBehind(rules, name, before, UncoveringEdit(before, Witness(close, t)))
  {
    hide LexLine, Witness, Classes, RenderText, Uncovering, IsSpanOf, BreaksRules, Script, NewText, OldText, IsTextOf;
    hide Printable, AwaitedAt, StandsAfter, IsPhrase, FreeOf;
    var kept := Witness(close, t);
    AwaitedHasLines(before, rules.mask);
    WitnessLex(close, t, rules.mask(kept));
    EditTexts(before, kept);
    OpenBlockPasses(rules, name, before, close, t);
  }

  lemma {:induction false} CoveredBefore(rules: Rules, name: string, before: seq<string>, close: string, t: string)
    requires !rules.proseFile(name) && close in CLOSERS && IsPhrase(t)
    requires AwaitedAt(before, rules.mask, |before|) == Some(close) && forall l | l in before :: FreeOf(l, {'\n'})
    ensures var cl := Classes(rules, name, Join(before + [Witness(close, t)], "\n"));
      |before| < |cl| && cl[|before|].text != Witness(close, t)
  {
    hide LexLines, LexLine, Witness, AwaitedAt, IsPhrase, FreeOf, Join, Split;
    var lines := before + [Witness(close, t)];
    WitnessLex(close, t, rules.mask(Witness(close, t)));
    forall l | l in lines ensures FreeOf(l, {'\n'}) {
    }
    SplitJoinAtoms(lines, '\n');
    CoveredClass(rules.mask, before, close, t);
  }

  lemma {:induction false} OpenIsNew(rules: Rules, name: string, before: seq<string>, close: string, t: string)
    requires !rules.proseFile(name) && close in CLOSERS && IsPhrase(t)
    requires AwaitedAt(before, rules.mask, |before|) == Some(close) && forall l | l in before :: FreeOf(l, {'\n'})
    ensures !BrokeBefore(rules, name, UncoveringEdit(before, Witness(close, t)))
  {
    hide LexLine, Witness, Classes, Uncovering, BrokeBefore, Script, NewText, OldText, OldIndex, Join;
    hide Printable, AwaitedAt, StandsAfter, IsPhrase, FreeOf, IsTextOf;
    var kept := Witness(close, t);
    AwaitedHasLines(before, rules.mask);
    WitnessLex(close, t, rules.mask(kept));
    EditTexts(before, kept);
    CoveredBefore(rules, name, before, close, t);
    UncoveredContent(rules, name, close, t);
    NotHeld(rules, name, UncoveringEdit(before, kept), |before|);
  }

  lemma {:induction false} NotHeld(rules: Rules, name: string, e: Edit, j: nat)
    requires e.span.startLine == e.span.endLine == 2
    requires News(Script(e.f.segs)) == 2 && OldIndex(Script(e.f.segs), 1) == j
    requires |Classes(rules, name, e.content)| == 2 && j < |Classes(rules, name, e.oldContent)|
    requires Classes(rules, name, e.oldContent)[j].text != Classes(rules, name, e.content)[1].text
    ensures !BrokeBefore(rules, name, e)
  {
    hide IsSpanOf, Classes, OldIndex, Script;
    OneText(Classes(rules, name, e.content), 1);
    OneText(Classes(rules, name, e.oldContent), j);
  }

  /**
   Exactly when a new violation can pass: behind the lines `before` of a code file, for rules that
   some plain phrase in a block comment of either kind breaks, there is a passing edit with a
   violation there that was none before if and only if a block comment is open after those lines.
   */
  lemma {:induction false} NewViolationPassesIff(rules: Rules, name: string, before: seq<string>)
    requires !rules.proseFile(name) && Extensible(rules)
    requires forall close | close in CLOSERS :: exists t :: IsPhrase(t) && rules.Violated(Witness(close, t))
    requires forall l | l in before :: FreeOf(l, {'\n'})
    ensures (exists e :: PassesBehind(rules, name, before, e) && !BrokeBefore(rules, name, e))
       <==> AwaitedAt(before, rules.mask, |before|) != None
  {
    hide PassesBehind, BrokeBefore, AwaitedAt, Extensible, Witness, IsPhrase;
    var st := AwaitedAt(before, rules.mask, |before|);
    if st == None {
      forall e | PassesBehind(rules, name, before, e) ensures BrokeBefore(rules, name, e) {
        ClearPassesNoNew(rules, name, before, e);
      }
    } else {
      AwaitedIsCloser(before, rules.mask, |before|);
      var close := st.value;
      var t :| IsPhrase(t) && rules.Violated(Witness(close, t));
      OpenPasses(rules, name, before, close, t);
      OpenIsNew(rules, name, before, close, t);
    }
  }

  lemma {:induction false} NoneViolated(rules: Rules, name: string, content: string, first: string, second: string)
    requires Classes(rules, name, content) == [Class(true, first), Class(true, second)]
    requires !rules.Violated(first + "\n" + second)
    ensures forall span | IsSpanOf(Classes(rules, name, content), span) :: !rules.Violated(span.text)
  {
    hide Classes, IsSpanOf;
    forall span | IsSpanOf(Classes(rules, name, content), span) ensures !rules.Violated(span.text) {
      OnlyBoth(first, second, span);
    }
  }

  lemma {:induction false} CoveredContent(rules: Rules, name: string, before: seq<string>, t: string)
    requires !rules.proseFile(name) && before == ["<!--"] && IsPhrase(t)
    ensures AwaitedAt(before, rules.mask, 1) == Some("-->")
    ensures Classes(rules, name, "<!--" + "\n" + Witness("-->", t))
         == [Class(true, "<!--"), Class(true, Witness("-->", t)[..Covered("-->")])]
  {
    hide LexLines, LexLine, Witness, Covered, IsPhrase;
    var kept := Witness("-->", t);
    OpenerAlone(before, rules.mask);
    WitnessLex("-->", t, rules.mask(kept));
    CoveredClass(rules.mask, before, "-->", t);
    assert FreeOf("<!--", {'\n'}) by { assert before[0] in before; }
    TwoLines("<!--", kept);
    assert before + [kept] == ["<!--", kept];
  }

  /**
   One such edit: it replaces the line `<!--` by code. The next line, untouched, was a comment only
   up to its `-->` and is all comment now. The new violation passes, and the old file had none.
   */
  lemma {:induction false} RemovedOpenerPasses(rules: Rules, name: string, kept: string, t: string)
    requires kept == "/*-->" + t + "*/" && IsPhrase(t)
    requires !rules.proseFile(name) && rules.Violated(kept) && !rules.Violated("<!--" + "\n" + "/*-->")
    ensures !BreaksRules(rules, name, RenderText([Uncovering(["<!--"], kept)], true), "y\n" + kept)
    ensures IsSpanOf(Classes(rules, name, "y\n" + kept), Span(2, 2, kept))
    ensures forall span | IsSpanOf(Classes(rules, name, "<!--" + "\n" + kept), span) :: !rules.Violated(span.text)
  {
    hide Classes, IsSpanOf, BreaksRules, RenderText, Uncovering, AwaitedAt, IsPhrase;
    assert kept == Witness("-->", t) && Covered("-->") == 5 && kept[..5] == "/*-->";
    var before := ["<!--"];
    OpenerAlone(before, rules.mask);
    CoveredContent(rules, name, before, t);
    OpenBlockPasses(rules, name, before, "-->", t);
    NoneViolated(rules, name, "<!--" + "\n" + kept, "<!--", kept[..5]);
  }

  const STATUS: string := " review status" + ": closed "

  /** The phrase that the gate was written for is one. */
  lemma {:induction false} StatusIsPhrase()
    ensures IsPhrase(STATUS)
  {
    var a, b := " review status", ": closed ";
    assert IsPhrase(a);
    assert IsPhrase(b);
    hide IsPhrase;
    PhraseConcat(a, b);
  }

  lemma {:induction false} PhraseConcat(a: string, b: string)
    requires IsPhrase(a) && IsPhrase(b)
    ensures IsPhrase(a + b)
  {
    FreeConcat(a, b, {'#', '<', '/', '*', '-', '\n'});
  }

  lemma {:induction false} OpenerAlone(before: seq<string>, mask: Mask)
    requires before == ["<!--"]
    ensures AwaitedAt(before, mask, 1) == Some("-->")
    ensures forall l | l in before :: FreeOf(l, {'\n'})
    ensures forall kept: string :: LexLines(before + [kept], mask, None, false)[0] == Class(true, "<!--")
  {
    var line := before[0];
    var masked := mask(line);
    assert line[0..4] == "<!--";
    assert (MARKERS[1].0, MARKERS[1].1) in MARKERS;
    MarkerAtStart(line, masked, "<!--", "-->");
    LexBlock(line, masked, 0, Lit.Code, false, "<!--", "-->");
    assert line[0..] == line;
    NothingAwaited(before, mask);
    AwaitedStep(before, mask, 1);
    forall kept: string ensures LexLines(before + [kept], mask, None, false)[0] == Class(true, "<!--") {
      assert (before + [kept])[0] == line;
    }
  }
}
