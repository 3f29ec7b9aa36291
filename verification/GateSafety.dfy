/**
 What passing the gate means. Lines that an edit leaves untouched keep their text, but whether
 they are comments can depend on a block comment that opens before them.
 */
module GateSafety {
  import opened Text
  import opened HunkParser
  import opened EditScripts
  import opened DiffSafety
  import opened CommentLexer
  import opened LexerLaws
  import opened SpanFinder
  import opened ReviewGate

  lemma {:induction false} BlankLineLex(line: string, masked: string)
    requires |line| == |masked| == 0
    ensures !LexLine(line, masked, None, false).sawComment && Trim(line) == ""
  {
  }

  /** A maximal comment span begins on a line with text. */
  lemma {:induction false} SpanBeginsOnText(lines: seq<string>, prose: bool, mask: Mask, a: nat, b: nat)
    requires MaximalRun(Classify(lines, prose, mask), a, b)
    ensures lines[a] != ""
  {
    hide LexLines, LexLine, AwaitedAt, Trim;
    if !prose {
      SpanIsLocal(lines, prose, mask, a, b);
      ClassAt(lines, mask, a);
    }
    if lines[a] == "" {
      BlankLineLex(lines[a], mask(lines[a]));
    }
  }

  /** The text of a file with these lines, with or without a newline after the last one. */
  predicate IsTextOf(content: string, lines: seq<string>, tail: seq<string>) {
    (tail == [] || tail == [""]) && Split(content, {'\n'}) == lines + tail
  }

  lemma {:induction false} UnflaggedIsUntouched(rules: Rules, name: string, diffText: string, content: string,
                                                span: Span)
    requires !BreaksRules(rules, name, diffText, content)
    requires IsSpanOf(Classes(rules, name, content), span) && rules.Violated(span.text)
    ensures forall x | span.startLine <= x <= span.endLine :: x !in Touched(diffText)
  {
    hide IsSpanOf, Classes, Touched;
    assert !Breaks(rules, Classes(rules, name, content), Touched(diffText), span);
  }

  /** The last line of a span, leaving out the empty piece after a final newline. */
  function LastLine(span: Span, lineCount: nat): nat {
    if span.endLine <= lineCount then span.endLine else lineCount
  }

  lemma {:induction false} SpanWithinText(lines: seq<string>, tail: seq<string>, prose: bool, mask: Mask, span: Span)
    requires tail == [] || tail == [""]
    requires IsSpanOf(Classify(lines + tail, prose, mask), span)
    ensures 1 <= span.startLine <= LastLine(span, |lines|) <= |lines|
  {
    hide SpanOf, Classify;
    SpanBeginsOnText(lines + tail, prose, mask, span.startLine - 1, span.endLine);
    assert forall k | |lines| <= k < |lines + tail| :: (lines + tail)[k] == "";
  }

  // ----- the classes of untouched lines, before and after

  /**
   In the old file no block comment is open in front of the line that is line `n` of the new one.
   In prose files there are no block comments.
   */
  predicate ClearBefore(script: seq<Line>, prose: bool, mask: Mask, n: nat) {
    prose
    || (0 < n <= News(script)
        && var j := OldIndex(script, n - 1);
        j <= Olds(script) && AwaitedAt(OldText(script), mask, j) == None)
  }

  lemma {:induction false} AwaitedStep(lines: seq<string>, mask: Mask, k: nat)
    requires 0 < k <= |lines|
    ensures AwaitedAt(lines, mask, k)
         == LexLine(lines[k - 1], mask(lines[k - 1]), AwaitedAt(lines, mask, k - 1), false).awaited
  {
    hide LexLine;
  }

  lemma {:induction false} AwaitedOfPrefix(lines: seq<string>, more: seq<string>, mask: Mask, j: nat)
    requires j <= |lines|
    ensures AwaitedAt(lines + more, mask, j) == AwaitedAt(lines, mask, j)
    decreases j
  {
    hide LexLine, AwaitedAt;
    if j == 0 {
      NothingAwaited(lines, mask);
      NothingAwaited(lines + more, mask);
    } else {
      AwaitedOfPrefix(lines, more, mask, j - 1);
      AwaitedStep(lines, mask, j);
      AwaitedStep(lines + more, mask, j);
      assert (lines + more)[j - 1] == lines[j - 1];
    }
  }

  lemma {:induction false} SliceOfConcat<T>(xs: seq<T>, ys: seq<T>, i: nat, j: nat)
    requires i <= j <= |xs|
    ensures (xs + ys)[i..j] == xs[i..j]
  {
  }

  /**
   Lines of a span that stand in another file, with no block comment open in front of them, have
   the same classes there.
   */
  lemma {:induction false} ClassesCarryOver(lines: seq<string>, a: nat, last: nat, b: nat, other: seq<string>, j: nat,
                                            prose: bool, mask: Mask)
    requires MaximalRun(Classify(lines, prose, mask), a, b) && a <= last <= b <= |lines|
    requires j + (last - a) <= |other| && other[j..j + (last - a)] == lines[a..last]
    requires prose || AwaitedAt(other, mask, j) == None
    ensures Classify(other, prose, mask)[j..j + (last - a)] == Classify(lines, prose, mask)[a..last]
  {
    hide LexLines, AwaitedAt, ProseClasses, MaximalRun;
    if prose {
      ProseIsLocal(other, j, j + (last - a));
      ProseIsLocal(lines, a, last);
    } else {
      SpanIsLocal(lines, prose, mask, a, b);
      CodeCarriesOver(lines, a, last, other, j, mask);
    }
  }

  lemma {:induction false} CodeCarriesOver(lines: seq<string>, a: nat, last: nat, other: seq<string>, j: nat,
                                           mask: Mask)
    requires a <= last <= |lines| && j + (last - a) <= |other| && other[j..j + (last - a)] == lines[a..last]
    requires AwaitedAt(lines, mask, a) == AwaitedAt(other, mask, j) == None
    ensures LexLines(other, mask, None, false)[j..j + (last - a)] == LexLines(lines, mask, None, false)[a..last]
  {
    hide LexLines, AwaitedAt;
    StretchClasses(lines, mask, a, last);
    StretchClasses(other, mask, j, j + (last - a));
  }

  /** Comment lines next to each other lie in one maximal span. */
  lemma {:induction false} InOneSpan(cl: seq<Class>, x: nat, y: nat) returns (span: Span)
    requires x < y <= |cl| && forall k | x <= k < y :: cl[k].isComment
    ensures IsSpanOf(cl, span) && span.startLine <= x + 1 && y <= span.endLine
  {
    var a, b := RunStart(cl, x), RunEnd(cl, x);
    span := SpanOf(cl, a, b);
  }

  /** `part` are the comment texts of some of the lines of `span`, from index `x` of the file on. */
  predicate HoldsLines(cl: seq<Class>, span: Span, x: nat, part: seq<string>) {
    && IsSpanOf(cl, span) && span.startLine <= x + 1 && x + |part| <= span.endLine
    && Texts(cl[x..x + |part|]) == part
  }

  lemma {:induction false} TextsOfSlice(cl: seq<Class>, x: nat, y: nat)
    requires x <= y <= |cl|
    ensures |Texts(cl[x..y])| == y - x
  {
  }

  /** The texts of the lines of `span`, as far as they are lines of the file. */
  function LinesOf(cl: seq<Class>, span: Span, lineCount: nat): seq<string>
    requires 1 <= span.startLine <= LastLine(span, lineCount) <= |cl|
  {
    Texts(cl[span.startLine - 1..LastLine(span, lineCount)])
  }

  /**
   A span that an edit creates or merges has a touched line: a maximal comment span without one
   was part of one maximal comment span of the old file, line for line with the same texts,
   provided that no block comment was open in front of it there. In prose files that always
   holds. The diff is any concatenation of printed diffs with this file's among them.
   */
  lemma {:induction false} UntouchedSpanWasOne(files: seq<FileDiff>, finalNewline: bool, f: FileDiff,
                                               tail: seq<string>, oldTail: seq<string>,
                                               prose: bool, mask: Mask, span: Span)
    returns (earlier: Span)
    requires (forall g | g in files :: Printable(g)) && f in files
    requires (tail == [] || tail == [""]) && (oldTail == [] || oldTail == [""])
    requires IsSpanOf(Classify(NewText(Script(f.segs)) + tail, prose, mask), span)
    requires forall x | span.startLine <= x <= span.endLine :: x !in Touched(RenderText(files, finalNewline))
    requires ClearBefore(Script(f.segs), prose, mask, span.startLine)
    ensures 1 <= span.startLine <= LastLine(span, News(Script(f.segs))) <= News(Script(f.segs))
    ensures var script := Script(f.segs);
      HoldsLines(Classify(OldText(script) + oldTail, prose, mask), earlier, OldIndex(script, span.startLine - 1),
        LinesOf(Classify(NewText(script) + tail, prose, mask), span, News(script)))
  {
    hide Classify, Touched, RenderText, Script, NewText, OldText, OldIndex, ClearBefore, StandsInOld, IsSpanOf,
      HoldsLines;
    var script := Script(f.segs);
    var cl, clNew := Classify(OldText(script) + oldTail, prose, mask), Classify(NewText(script) + tail, prose, mask);
    SpanWithinText(NewText(script), tail, prose, mask, span);
    UntouchedBlockIsOld(files, finalNewline, f, span.startLine, LastLine(span, News(script)));
    KeptClasses(script, tail, oldTail, prose, mask, span);
    earlier := SpanOfKept(cl, OldIndex(script, span.startLine - 1), clNew, span, LastLine(span, News(script)));
  }

  lemma {:induction false} SpanOfKept(cl: seq<Class>, j: nat, clNew: seq<Class>, span: Span, last: nat)
    returns (earlier: Span)
    requires IsSpanOf(clNew, span) && 1 <= span.startLine <= last <= span.endLine
    requires var n := last - (span.startLine - 1);
      j + n <= |cl| && cl[j..j + n] == clNew[span.startLine - 1..last]
    ensures HoldsLines(cl, earlier, j, Texts(clNew[span.startLine - 1..last]))
  {
    hide SpanOf;
    var a := span.startLine - 1;
    CommentsOfSlice(cl, clNew, j, a, last);
    TextsOfSlice(clNew, a, last);
    earlier := InOneSpan(cl, j, j + (last - a));
  }

  lemma {:induction false} KeptClasses(script: seq<Line>, tail: seq<string>, oldTail: seq<string>, prose: bool,
                                       mask: Mask, span: Span)
    requires IsSpanOf(Classify(NewText(script) + tail, prose, mask), span)
    requires 1 <= span.startLine <= LastLine(span, News(script)) <= News(script)
    requires ClearBefore(script, prose, mask, span.startLine)
    requires StandsInOld(script, span.startLine, LastLine(span, News(script)), OldIndex(script, span.startLine - 1))
    ensures var a, last, j := span.startLine - 1, LastLine(span, News(script)), OldIndex(script, span.startLine - 1);
      && j + (last - a) <= Olds(script)
      && Classify(OldText(script) + oldTail, prose, mask)[j..j + (last - a)]
      == Classify(NewText(script) + tail, prose, mask)[a..last]
  {
    hide Classify, NewText, OldText, OldIndex, SpanOf, AwaitedAt;
    var lines, before := NewText(script), OldText(script);
    var a, last, j := span.startLine - 1, LastLine(span, |lines|), OldIndex(script, span.startLine - 1);
    SliceOfConcat(lines, tail, a, last);
    SliceOfConcat(before, oldTail, j, j + (last - a));
    AwaitedOfPrefix(before, oldTail, mask, j);
    ClassesCarryOver(lines + tail, a, last, span.endLine, before + oldTail, j, prose, mask);
  }

  lemma {:induction false} CommentsOfSlice(cl: seq<Class>, other: seq<Class>, j: nat, a: nat, last: nat)
    requires a <= last <= |other| && j + (last - a) <= |cl| && cl[j..j + (last - a)] == other[a..last]
    requires forall i | a <= i < last :: other[i].isComment
    ensures forall k | j <= k < j + (last - a) :: cl[k].isComment
  {
    forall k | j <= k < j + (last - a) ensures cl[k].isComment {
      assert cl[k] == cl[j..j + (last - a)][k - j] == other[a + (k - j)];
    }
  }

  // ----- violations that pass

  /**
   A file state that passes: every violating maximal comment span in it is, line for line, a
   contiguous block of the old file. This says nothing about what the lines were there.
   */
  lemma {:induction false} PassingSpansAreOld(rules: Rules, name: string, files: seq<FileDiff>, finalNewline: bool,
                                              f: FileDiff, content: string, tail: seq<string>, span: Span)
    requires (forall g | g in files :: Printable(g)) && f in files
    requires IsTextOf(content, NewText(Script(f.segs)), tail)
    requires !BreaksRules(rules, name, RenderText(files, finalNewline), content)
    requires IsSpanOf(Classes(rules, name, content), span) && rules.Violated(span.text)
    ensures var script := Script(f.segs);
      var last := LastLine(span, News(script));
      1 <= span.startLine <= last <= News(script)
      && StandsInOld(script, span.startLine, last, OldIndex(script, span.startLine - 1))
  {
    hide IsSpanOf, Classify, Touched, BreaksRules, RenderText, StandsInOld, NewText, Script;
    SpanWithinText(NewText(Script(f.segs)), tail, rules.proseFile(name), rules.mask, span);
    UnflaggedIsUntouched(rules, name, RenderText(files, finalNewline), content, span);
    UntouchedBlockIsOld(files, finalNewline, f, span.startLine, LastLine(span, News(Script(f.segs))));
  }

  predicate Grows(rules: Rules, before: seq<string>, part: seq<string>, after: seq<string>) {
    rules.Violated(Join(part, "\n")) ==> rules.Violated(Join(before + part + after, "\n"))
  }

  predicate IgnoresBlankEnd(rules: Rules, part: seq<string>) {
    rules.Violated(Join(part + [""], "\n")) ==> rules.Violated(Join(part, "\n"))
  }

  /**
   What the phrase patterns of the gate have in common: a violating text stays one when whole
   lines are put around it, and when an empty line at its end is taken away.
   */
  ghost predicate Extensible(rules: Rules) {
    && (forall before, part, after :: part != [] ==> Grows(rules, before, part, after))
    && (forall part :: part != [] ==> IgnoresBlankEnd(rules, part))
  }

  lemma {:induction false} EmptyPieceHasNoText(lines: seq<string>, prose: bool, mask: Mask, k: nat)
    requires k < |lines| && lines[k] == ""
    ensures Classify(lines, prose, mask)[k].text == ""
  {
    hide LexLines, LexLine, AwaitedAt, Trim;
    if !prose {
      ClassAt(lines, mask, k);
      EmptyLineLex("", mask(lines[k]), AwaitedAt(lines, mask, k));
    }
  }

  lemma {:induction false} EmptyLineLex(line: string, masked: string, awaited: Option<string>)
    requires |line| == |masked| == 0
    ensures LexLine(line, masked, awaited, false).AsClass().text == ""
  {
  }

  lemma {:induction false} TextsApart(cl: seq<Class>, a: nat, x: nat, y: nat, b: nat)
    requires a <= x <= y <= b <= |cl|
    ensures Texts(cl[a..b]) == Texts(cl[a..x]) + Texts(cl[x..y]) + Texts(cl[y..b])
  {
  }

  lemma {:induction false} OneText(cl: seq<Class>, k: nat)
    requires k < |cl|
    ensures Texts(cl[k..k + 1]) == [cl[k].text] && Texts(cl[k..k]) == []
  {
  }

  /** Rules broken by some lines of a span are broken by the span. */
  lemma {:induction false} PartBreaksWhole(rules: Rules, cl: seq<Class>, span: Span, x: nat, part: seq<string>)
    requires Extensible(rules) && part != [] && HoldsLines(cl, span, x, part)
    requires rules.Violated(Join(part, "\n"))
    ensures rules.Violated(span.text)
  {
    hide Texts, Join;
    var a, b, y := span.startLine - 1, span.endLine, x + |part|;
    TextsApart(cl, a, x, y, b);
    assert Grows(rules, Texts(cl[a..x]), part, Texts(cl[y..b]));
  }

  /** The lines that a violating span has in the file break the rules on their own. */
  lemma {:induction false} LinesBreakRules(rules: Rules, lines: seq<string>, tail: seq<string>, prose: bool, span: Span)
    requires Extensible(rules) && (tail == [] || tail == [""])
    requires IsSpanOf(Classify(lines + tail, prose, rules.mask), span) && rules.Violated(span.text)
    requires 1 <= span.startLine <= LastLine(span, |lines|) <= |lines|
    ensures var part := LinesOf(Classify(lines + tail, prose, rules.mask), span, |lines|);
      part != [] && rules.Violated(Join(part, "\n"))
  {
    hide Join, Classify, Texts;
    var cl := Classify(lines + tail, prose, rules.mask);
    var a, last := span.startLine - 1, LastLine(span, |lines|);
    var part := LinesOf(cl, span, |lines|);
    TextsOfSlice(cl, a, last);
    if last < span.endLine {
      assert (lines + tail)[last] == "";
      EmptyPieceHasNoText(lines + tail, prose, rules.mask, last);
      TextsApart(cl, a, last, last, span.endLine);
      OneText(cl, last);
      assert Texts(cl[a..span.endLine]) == part + [""];
      assert IgnoresBlankEnd(rules, part);
    }
  }

  /**
   Nothing new passes: when a file state passes, a violating maximal comment span in it lies, line
   for line with the same comment texts, in a maximal comment span of the old file that broke
   the rules already, provided that no block comment was open in front of it there.
   */
  lemma {:induction false} PassingBreachesAreOld(rules: Rules, name: string, files: seq<FileDiff>, finalNewline: bool,
                                                 f: FileDiff, content: string, tail: seq<string>,
                                                 oldContent: string, oldTail: seq<string>, span: Span)
    returns (earlier: Span)
    requires Extensible(rules) && (forall g | g in files :: Printable(g)) && f in files
    requires IsTextOf(content, NewText(Script(f.segs)), tail) && IsTextOf(oldContent, OldText(Script(f.segs)), oldTail)
    requires !BreaksRules(rules, name, RenderText(files, finalNewline), content)
    requires IsSpanOf(Classes(rules, name, content), span) && rules.Violated(span.text)
    requires ClearBefore(Script(f.segs), rules.proseFile(name), rules.mask, span.startLine)
    ensures 1 <= span.startLine <= LastLine(span, News(Script(f.segs))) <= News(Script(f.segs))
    ensures HoldsLines(Classes(rules, name, oldContent), earlier, OldIndex(Script(f.segs), span.startLine - 1),
      LinesOf(Classes(rules, name, content), span, News(Script(f.segs))))
    ensures rules.Violated(earlier.text)
  {
    hide IsSpanOf, Classify, Touched, BreaksRules, RenderText, NewText, OldText, OldIndex, Script, ClearBefore,
      Extensible;
    var script := Script(f.segs);
    UnflaggedIsUntouched(rules, name, RenderText(files, finalNewline), content, span);
    earlier := UntouchedSpanWasOne(files, finalNewline, f, tail, oldTail, rules.proseFile(name), rules.mask, span);
    LinesBreakRules(rules, NewText(script), tail, rules.proseFile(name), span);
    PartBreaksWhole(rules, Classes(rules, name, oldContent), earlier, OldIndex(script, span.startLine - 1),
      LinesOf(Classes(rules, name, content), span, News(script)));
  }
}
