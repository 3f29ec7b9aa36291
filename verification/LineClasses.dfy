/** What counts as a comment, told from the characters of the lines, and that a touched one is caught. */
module LineClasses {
  import opened Text
  import opened HunkParser
  import opened CommentLexer
  import opened LexerLaws
  import opened SpanFinder
  import opened ReviewGate
  import Lit = StringLiterals
  import Quotes = QuoteLaws

  // ----- the four markers, character by character

  /** A line comment begins at `i`. */
  predicate LineMark(line: string, i: nat) {
    i < |line| && (line[i] == '#' || (i + 1 < |line| && line[i] == '/' && line[i + 1] == '/'))
  }

  /** The opener of a C-style comment stands at `i`. */
  predicate StarMark(line: string, i: nat) { i + 1 < |line| && line[i] == '/' && line[i + 1] == '*' }

  /** The opener of an HTML comment stands at `i`. */
  predicate ArrowMark(line: string, i: nat) {
    i + 3 < |line| && line[i] == '<' && line[i + 1] == '!' && line[i + 2] == '-' && line[i + 3] == '-'
  }

  predicate AnyMark(line: string, i: nat) { LineMark(line, i) || StarMark(line, i) || ArrowMark(line, i) }

  predicate Unmarked(line: string, a: nat, b: nat) { forall j | a <= j < b :: !AnyMark(line, j) }

  lemma {:induction false} HashAt(line: string, i: nat)
    ensures HasAt(line, "#", i) <==> i < |line| && line[i] == '#'
  {
    if i < |line| {
      assert line[i..i + 1] == [line[i]];
    }
  }

  lemma {:induction false} ArrowAt(line: string, i: nat)
    ensures HasAt(line, "<!--", i) <==> ArrowMark(line, i)
  {
    if i + 3 < |line| {
      assert line[i..i + 4] == [line[i], line[i + 1], line[i + 2], line[i + 3]];
      assert "<!--" == ['<', '!', '-', '-'];
    }
  }

  lemma {:induction false} MarksAre(line: string, i: nat)
    ensures LineCommentAt(line, i) <==> LineMark(line, i)
    ensures HasAt(line, "/*", i) <==> StarMark(line, i)
    ensures HasAt(line, "<!--", i) <==> ArrowMark(line, i)
  {
    hide HasAt;
    PairAt(line, "/*", i);
    PairAt(line, "//", i);
    HashAt(line, i);
    ArrowAt(line, i);
  }

  lemma {:induction false} SkipUnmarked(line: string, masked: string, i: nat, k: nat, s: Lit.State)
    requires i <= k <= |line| == |masked| && Unmarked(line, i, k)
    ensures Lex(line, masked, i, s, false) == Lex(line, masked, k, Lit.StateFrom(s, masked, i, k), false)
    decreases k - i
  {
    hide Lex, LineCommentAt, HasAt, Lit.Next;
    if i < k {
      MarksAre(line, i);
      assert !AnyMark(line, i);
      LexNone(line, masked, i, s, false);
      SkipUnmarked(line, masked, i + 1, k, Lit.Next(s, masked[i]));
      Lit.StateFromSplit(s, masked, i, i + 1, k);
    }
  }

  /** The class of a line, and the closer awaited behind it, are what the lexer makes of it. */
  lemma {:induction false} LineIs(lines: seq<string>, mask: Mask, k: nat)
    requires k < |lines|
    ensures var scan := LexLine(lines[k], mask(lines[k]), AwaitedAt(lines, mask, k), false);
      && Classify(lines, false, mask)[k] == (if scan.sawComment then Class(true, scan.text) else Class(false, ""))
      && AwaitedAt(lines, mask, k + 1) == scan.awaited
  {
    hide LexLine, LexLines;
    ClassAt(lines, mask, k);
  }

  // ----- line comments

  lemma {:induction false} LineCommentLex(line: string, masked: string, i: nat)
    requires |line| == |masked| && i < |line| && LineMark(line, i) && Unmarked(line, 0, i)
    ensures LexLine(line, masked, None, false) == Scan(line[i..], true, None)
  {
    hide LineCommentAt, LineMark, Unmarked;
    MarksAre(line, i);
    SkipUnmarked(line, masked, 0, i, Lit.Code);
  }

  lemma {:induction false} CodeLex(line: string, masked: string, i: nat, s: Lit.State)
    requires i <= |line| == |masked| && Unmarked(line, i, |line|)
    ensures Lex(line, masked, i, s, false) == Scan("", false, None)
  {
    hide LineCommentAt, Unmarked;
    SkipUnmarked(line, masked, i, |line|, s);
  }

  lemma {:induction false} LineCommentClass(lines: seq<string>, mask: Mask, k: nat, i: nat)
    requires k < |lines| && i < |lines[k]| && AwaitedAt(lines, mask, k) == None
    requires LineMark(lines[k], i) && Unmarked(lines[k], 0, i)
    ensures Classify(lines, false, mask)[k] == Class(true, lines[k][i..])
  {
    hide Classify, AwaitedAt, LexLine, LineMark, Unmarked;
    LineCommentLex(lines[k], mask(lines[k]), i);
    LineIs(lines, mask, k);
  }

  /**
   On a line that no block comment runs into, a line comment is what begins with the first `#` or
   `//`, if no opener of a block comment stands in front of it: whatever the line holds else.
   */
  lemma {:induction false} LineCommentIsText(lines: seq<string>, mask: Mask, k: nat, i: nat)
    requires k < |lines| && i < |lines[k]| && AwaitedAt(lines, mask, k) == None
    requires var l := lines[k];
      && (l[i] == '#' || (i + 1 < |l| && l[i] == '/' && l[i + 1] == '/'))
      && (forall j | 0 <= j < i :: l[j] != '#' && !(l[j] == '/' && (l[j + 1] == '/' || l[j + 1] == '*')))
      && (forall j | 0 <= j < i && j + 3 < |l| ::
            !(l[j] == '<' && l[j + 1] == '!' && l[j + 2] == '-' && l[j + 3] == '-'))
    ensures Classify(lines, false, mask)[k] == Class(true, lines[k][i..])
  {
    hide Classify, AwaitedAt, LexLine, LineMark, Unmarked;
    Marked(lines[k], i);
    LineCommentClass(lines, mask, k, i);
  }

  lemma {:induction false} Marked(l: string, i: nat)
    requires i < |l| && (l[i] == '#' || (i + 1 < |l| && l[i] == '/' && l[i + 1] == '/'))
    requires forall j | 0 <= j < i :: l[j] != '#' && !(l[j] == '/' && (l[j + 1] == '/' || l[j + 1] == '*'))
    requires forall j | 0 <= j < i && j + 3 < |l| ::
      !(l[j] == '<' && l[j + 1] == '!' && l[j + 2] == '-' && l[j + 3] == '-')
    ensures LineMark(l, i) && Unmarked(l, 0, i)
  {
  }

  /** A line that no block comment runs into and that holds none of the four markers is code. */
  lemma {:induction false} UnmarkedIsCode(lines: seq<string>, mask: Mask, k: nat)
    requires k < |lines| && AwaitedAt(lines, mask, k) == None
    requires var l := lines[k];
      && (forall j | 0 <= j < |l| :: l[j] != '#')
      && (forall j | 0 <= j < |l| - 1 :: !(l[j] == '/' && (l[j + 1] == '/' || l[j + 1] == '*')))
      && (forall j | 0 <= j < |l| - 3 :: !(l[j] == '<' && l[j + 1] == '!' && l[j + 2] == '-' && l[j + 3] == '-'))
    ensures Classify(lines, false, mask)[k] == Class(false, "") && AwaitedAt(lines, mask, k + 1) == None
  {
    var line := lines[k];
    assert Unmarked(line, 0, |line|);
    hide Classify, AwaitedAt, Unmarked, Lex;
    CodeLex(line, mask(line), 0, Lit.Code);
    LineIs(lines, mask, k);
  }

  // ----- block comments

  /** The two kinds of block comment. */
  predicate IsPair(open: string, close: string) {
    (open == "/*" && close == "*/") || (open == "<!--" && close == "-->")
  }

  /** No quote stands in the first `i` characters, regular expressions blanked. */
  predicate NoQuotes(masked: string, i: nat) {
    forall j | 0 <= j < i && j < |masked| :: masked[j] != '\'' && masked[j] != '"' && masked[j] != '`'
  }

  predicate NowhereFrom(line: string, pat: string, i: nat) { forall j | i <= j < |line| :: !HasAt(line, pat, j) }

  /** `pat` stands at `k`, and nowhere from `i` to there. */
  predicate FirstFrom(line: string, pat: string, i: nat, k: nat) {
    i <= k && HasAt(line, pat, k) && forall j | i <= j < k :: !HasAt(line, pat, j)
  }

  /** The first marker of the line is the opener at `i`, outside every string literal. */
  predicate FirstOpens(line: string, masked: string, i: nat, open: string) {
    && i < |line| == |masked| && HasAt(line, open, i) && Unmarked(line, 0, i) && NoQuotes(masked, i)
  }

  lemma {:induction false} OpenerIsBlock(line: string, masked: string, i: nat, open: string, close: string)
    requires IsPair(open, close) && FirstOpens(line, masked, i, open)
    ensures !LineCommentAt(line, i) && Lit.StateAt(masked, i) == Lit.Code
    ensures BlockAt(line, masked, i, Lit.Code) == Some((open, close))
  {
    hide LineCommentAt, Lit.StateFrom, Unmarked;
    Quotes.NoQuoteIsCode(masked, i);
    MarkersDiffer(line, i);
  }

  lemma OpensFirst(line: string, masked: string, i: nat, open: string)
    requires FirstOpens(line, masked, i, open)
    ensures i < |line| == |masked| && Unmarked(line, 0, i)
  {
  }

  lemma {:induction false} OpenerLex(line: string, masked: string, i: nat, open: string, close: string)
    requires IsPair(open, close) && FirstOpens(line, masked, i, open)
    ensures var endIdx, end := IndexOf(line, close, i + |open|), IndexOf(line, close, i + |open|) + |close|;
      LexLine(line, masked, None, false) ==
        if endIdx == -1 then Scan(line[i..], true, Some(close))
        else BlockThen(line, i, endIdx, close, Lex(line, masked, end, Lit.StateAt(masked, end), false))
  {
    hide Lex, HasAt, LineCommentAt, IndexOf, BlockAt, Lit.StateFrom, BlockThen, Unmarked, NoQuotes, FirstOpens;
    OpenerIsBlock(line, masked, i, open, close);
    OpensFirst(line, masked, i, open);
    SkipUnmarked(line, masked, 0, i, Lit.Code);
    LexBlock(line, masked, i, Lit.Code, false, open, close);
    var endIdx := IndexOf(line, close, i + |open|);
    if endIdx != -1 {
      Lit.StateFromSplit(Lit.Code, masked, 0, i, endIdx + |close|);
    }
  }

  lemma NotFound(line: string, pat: string, i: nat)
    requires NowhereFrom(line, pat, i) && pat != ""
    ensures IndexOf(line, pat, i) == -1
  {
    hide HasAt;
  }

  lemma {:induction false} FoundFirst(line: string, pat: string, i: nat, k: nat)
    requires FirstFrom(line, pat, i, k)
    ensures IndexOf(line, pat, i) == k
  {
    hide HasAt, IndexOf;
    IndexOfIs(line, pat, i, k);
  }

  /** A block comment that is not closed on its line: the rest of the line is comment, and it runs on. */
  lemma {:induction false} BlockOpens(lines: seq<string>, mask: Mask, k: nat, i: nat, open: string, close: string)
    requires k < |lines| && AwaitedAt(lines, mask, k) == None && IsPair(open, close)
    requires FirstOpens(lines[k], mask(lines[k]), i, open) && NowhereFrom(lines[k], close, i + |open|)
    ensures i < |lines[k]| && Classify(lines, false, mask)[k] == Class(true, lines[k][i..])
    ensures AwaitedAt(lines, mask, k + 1) == Some(close)
  {
    hide Classify, AwaitedAt, LexLine, Lex, HasAt, FirstOpens, IndexOf, NowhereFrom;
    OpensFirst(lines[k], mask(lines[k]), i, open);
    OpenerLex(lines[k], mask(lines[k]), i, open, close);
    NotFound(lines[k], close, i + |open|);
    LineIs(lines, mask, k);
  }

  lemma {:induction false} RunsOn(line: string, masked: string, close: string)
    requires |line| == |masked| && NowhereFrom(line, close, 0) && close != ""
    ensures LexLine(line, masked, Some(close), false) == Scan(line, true, Some(close))
  {
    hide IndexOf, Lex, NowhereFrom, Lit.StateAt;
    NotFound(line, close, 0);
  }

  lemma {:induction false} RunsStep(lines: seq<string>, mask: Mask, k: nat, close: string)
    requires k < |lines| && AwaitedAt(lines, mask, k) == Some(close) && close != "" && NowhereFrom(lines[k], close, 0)
    ensures Classify(lines, false, mask)[k] == Class(true, lines[k]) && AwaitedAt(lines, mask, k + 1) == Some(close)
  {
    hide Classify, AwaitedAt, LexLine, NowhereFrom;
    RunsOn(lines[k], mask(lines[k]), close);
    LineIs(lines, mask, k);
  }

  predicate NoCloser(lines: seq<string>, a: nat, b: nat, close: string) {
    b <= |lines| && forall k | a <= k < b :: NowhereFrom(lines[k], close, 0)
  }

  /** Lines a..b-1 are comment as a whole. */
  predicate AllComment(lines: seq<string>, cl: seq<Class>, a: nat, b: nat) {
    b <= |lines| == |cl| && forall k | a <= k < b :: cl[k] == Class(true, lines[k])
  }

  /** Behind `k` lines the block comment that `close` closes is open. */
  predicate Awaits(lines: seq<string>, mask: Mask, k: nat, close: string) {
    k <= |lines| && AwaitedAt(lines, mask, k) == Some(close)
  }

  lemma {:induction false} AwaitsNext(lines: seq<string>, mask: Mask, a: nat, b: nat, close: string)
    requires a < b && Awaits(lines, mask, a, close) && close != "" && NoCloser(lines, a, b, close)
    ensures a < |lines| && Classify(lines, false, mask)[a] == Class(true, lines[a])
    ensures Awaits(lines, mask, a + 1, close) && NoCloser(lines, a + 1, b, close)
  {
    hide Classify, AwaitedAt, NowhereFrom;
    CloserLater(lines, a, b, close);
    RunsStep(lines, mask, a, close);
  }

  /** Every line before the closer is comment as a whole, whatever it holds. */
  lemma {:induction false} BlockRuns(lines: seq<string>, mask: Mask, a: nat, b: nat, close: string)
    requires a <= b <= |lines| && Awaits(lines, mask, a, close) && close != "" && NoCloser(lines, a, b, close)
    ensures AllComment(lines, Classify(lines, false, mask), a, b) && Awaits(lines, mask, b, close)
    decreases b - a
  {
    hide Classify, Awaits, NoCloser, AllComment;
    var cl := Classify(lines, false, mask);
    if a < b {
      AwaitsNext(lines, mask, a, b, close);
      BlockRuns(lines, mask, a + 1, b, close);
      OneMore(lines, cl, a, b);
    } else {
      NoComment(lines, cl, a);
    }
  }

  lemma CloserLater(lines: seq<string>, a: nat, b: nat, close: string)
    requires a < b <= |lines| && NoCloser(lines, a, b, close)
    ensures NowhereFrom(lines[a], close, 0) && NoCloser(lines, a + 1, b, close)
  {
    hide NowhereFrom;
  }

  lemma OneMore(lines: seq<string>, cl: seq<Class>, a: nat, b: nat)
    requires a < b <= |lines| == |cl| && cl[a] == Class(true, lines[a]) && AllComment(lines, cl, a + 1, b)
    ensures AllComment(lines, cl, a, b)
  {
  }

  lemma NoComment(lines: seq<string>, cl: seq<Class>, a: nat)
    requires a <= |lines| == |cl|
    ensures AllComment(lines, cl, a, a)
  {
  }

  lemma {:induction false} CloserLex(line: string, masked: string, c: nat, close: string)
    requires |line| == |masked| && c + |close| <= |line|
    requires FirstFrom(line, close, 0, c) && Unmarked(line, c + |close|, |line|)
    ensures LexLine(line, masked, Some(close), false) == Scan(line[..c + |close|], true, None)
  {
    hide HasAt, IndexOf, Lex, Lit.StateAt, Unmarked, FirstFrom;
    var end := c + |close|;
    FoundFirst(line, close, 0, c);
    CodeLex(line, masked, end, Lit.StateAt(masked, end));
    assert line[..end] + "" == line[..end];
  }

  lemma {:induction false} WithinLex(line: string, masked: string, i: nat, c: nat, open: string, close: string)
    requires IsPair(open, close) && FirstOpens(line, masked, i, open) && c + |close| <= |line|
    requires FirstFrom(line, close, i + |open|, c) && Unmarked(line, c + |close|, |line|)
    ensures i <= c && LexLine(line, masked, None, false) == Scan(line[i..c + |close|], true, None)
  {
    hide HasAt, IndexOf, Lex, LexLine, Lit.StateAt, Unmarked, FirstFrom, FirstOpens;
    var end := c + |close|;
    OpensFirst(line, masked, i, open);
    FoundFirst(line, close, i + |open|, c);
    IsBehind(line, close, i + |open|, c);
    OpenerLex(line, masked, i, open, close);
    CodeLex(line, masked, end, Lit.StateAt(masked, end));
    assert line[i..end] + "" == line[i..end];
  }

  lemma IsBehind(line: string, pat: string, i: nat, k: nat)
    requires FirstFrom(line, pat, i, k)
    ensures i <= k
  {
  }

  /** The line with the closer is comment up to it, and code behind if there is no further marker. */
  lemma {:induction false} BlockCloses(lines: seq<string>, mask: Mask, k: nat, c: nat, close: string)
    requires k < |lines| && AwaitedAt(lines, mask, k) == Some(close) && c + |close| <= |lines[k]|
    requires FirstFrom(lines[k], close, 0, c) && Unmarked(lines[k], c + |close|, |lines[k]|)
    ensures Classify(lines, false, mask)[k] == Class(true, lines[k][..c + |close|])
    ensures AwaitedAt(lines, mask, k + 1) == None
  {
    hide Classify, AwaitedAt, LexLine, Unmarked, FirstFrom;
    CloserLex(lines[k], mask(lines[k]), c, close);
    LineIs(lines, mask, k);
  }

  /** A block comment within one line, with code before and behind it. */
  lemma {:induction false} BlockWithin(lines: seq<string>, mask: Mask, k: nat, i: nat, c: nat,
                                       open: string, close: string)
    requires k < |lines| && AwaitedAt(lines, mask, k) == None && IsPair(open, close)
    requires FirstOpens(lines[k], mask(lines[k]), i, open) && c + |close| <= |lines[k]|
    requires FirstFrom(lines[k], close, i + |open|, c) && Unmarked(lines[k], c + |close|, |lines[k]|)
    ensures i <= c && Classify(lines, false, mask)[k] == Class(true, lines[k][i..c + |close|])
    ensures AwaitedAt(lines, mask, k + 1) == None
  {
    hide Classify, AwaitedAt, LexLine, Unmarked, FirstFrom, FirstOpens;
    WithinLex(lines[k], mask(lines[k]), i, c, open, close);
    LineIs(lines, mask, k);
  }

  /** A block comment opens at `i` of line `a`, with code in front, and its first closer is at `c` of line `b`. */
  predicate RunsAcross(lines: seq<string>, mask: Mask, a: nat, b: nat, i: nat, c: nat, open: string, close: string) {
    && a < b < |lines| && IsPair(open, close)
    && FirstOpens(lines[a], mask(lines[a]), i, open) && NowhereFrom(lines[a], close, i + |open|)
    && NoCloser(lines, a + 1, b, close)
    && c + |close| <= |lines[b]| && FirstFrom(lines[b], close, 0, c)
    && Unmarked(lines[b], c + |close|, |lines[b]|)
  }

  lemma {:induction false} AcrossClasses(lines: seq<string>, mask: Mask, a: nat, b: nat, i: nat, c: nat,
                                         open: string, close: string)
    requires RunsAcross(lines, mask, a, b, i, c, open, close) && AwaitedAt(lines, mask, a) == None
    ensures a < b < |lines| && i < |lines[a]| && c + |close| <= |lines[b]|
    ensures Classify(lines, false, mask)[a] == Class(true, lines[a][i..])
    ensures AllComment(lines, Classify(lines, false, mask), a + 1, b)
    ensures Classify(lines, false, mask)[b] == Class(true, lines[b][..c + |close|])
    ensures AwaitedAt(lines, mask, b + 1) == None
  {
    hide Classify, AwaitedAt, FirstOpens, Unmarked, FirstFrom, NowhereFrom, NoCloser, AllComment;
    BlockOpens(lines, mask, a, i, open, close);
    BlockRuns(lines, mask, a + 1, b, close);
    BlockCloses(lines, mask, b, c, close);
  }

  /** A block comment over several lines is one comment span, with code around it. */
  lemma {:induction false} BlockIsOneSpan(lines: seq<string>, mask: Mask, a: nat, b: nat, i: nat, c: nat,
                                          open: string, close: string)
    requires RunsAcross(lines, mask, a, b, i, c, open, close) && AwaitedAt(lines, mask, a) == None
    requires 0 < a <= |lines| ==> !Classify(lines, false, mask)[a - 1].isComment
    requires b + 1 < |lines| ==> !Classify(lines, false, mask)[b + 1].isComment
    ensures a < b < |lines| && i < |lines[a]| && c + |close| <= |lines[b]|
    ensures var texts := [lines[a][i..]] + lines[a + 1..b] + [lines[b][..c + |close|]];
      IsSpanOf(Classify(lines, false, mask), Span(a + 1, b + 1, Join(texts, "\n")))
  {
    hide Classify, AwaitedAt, RunsAcross, IsSpanOf, Join, AllComment;
    AcrossClasses(lines, mask, a, b, i, c, open, close);
    SpanOfBlock(Classify(lines, false, mask), lines, a, b, lines[a][i..], lines[b][..c + |close|]);
  }

  lemma {:induction false} SpanOfBlock(cl: seq<Class>, lines: seq<string>, a: nat, b: nat, first: string, last: string)
    requires a < b < |cl| == |lines| && cl[a] == Class(true, first) && cl[b] == Class(true, last)
    requires AllComment(lines, cl, a + 1, b)
    requires (a > 0 ==> !cl[a - 1].isComment) && (b + 1 < |cl| ==> !cl[b + 1].isComment)
    ensures IsSpanOf(cl, Span(a + 1, b + 1, Join([first] + lines[a + 1..b] + [last], "\n")))
  {
    hide IsSpanOf, Join;
    var texts := [first] + lines[a + 1..b] + [last];
    forall k | a <= k <= b ensures cl[k] == Class(true, texts[k - a]) {
    }
    SpanOfTexts(cl, a, b, texts);
  }

  lemma {:induction false} SpanOfTexts(cl: seq<Class>, a: nat, b: nat, texts: seq<string>)
    requires a <= b < |cl| && |texts| == b - a + 1
    requires forall k | a <= k <= b :: cl[k] == Class(true, texts[k - a])
    requires (a > 0 ==> !cl[a - 1].isComment) && (b + 1 < |cl| ==> !cl[b + 1].isComment)
    ensures IsSpanOf(cl, Span(a + 1, b + 1, Join(texts, "\n")))
  {
    hide Join;
    assert Texts(cl[a..b + 1]) == texts;
  }

  // ----- prose

  lemma {:induction false} BlankIsNothing(s: string)
    requires forall c | c in s :: c == ' ' || c == '\t' || c == '\r'
    ensures Trim(s) == ""
  {
    var t := TrimStart(s);
    assert t != "" ==> t[0] == s[|s| - |t|] && t[0] in s;
    assert IsSpace(' ') && IsSpace('\t') && IsSpace('\r');
  }

  lemma VisibleIsNoSpace(c: char)
    requires '!' <= c <= '~'
    ensures !IsSpace(c)
  {
  }

  lemma {:induction false} VisibleStays(s: string, i: nat)
    requires i < |s| && '!' <= s[i] <= '~'
    ensures Trim(s) != ""
  {
    VisibleIsNoSpace(s[i]);
    hide IsSpace;
    var t := TrimStart(s);
    var u := TrimEnd(t);
    hide TrimStart, TrimEnd;
    var j := i - (|s| - |t|);
    assert 0 <= j < |t| && t[j] == s[i];
    assert j < |u|;
  }

  /** In a prose file a line of blanks ends a paragraph, and a line with a visible character is text. */
  lemma {:induction false} ProseLines(lines: seq<string>, mask: Mask, k: nat)
    requires k < |lines|
    ensures (forall c | c in lines[k] :: c == ' ' || c == '\t' || c == '\r') ==>
      !Classify(lines, true, mask)[k].isComment
    ensures (exists c :: c in lines[k] && '!' <= c <= '~') ==>
      Classify(lines, true, mask)[k] == Class(true, lines[k])
  {
    hide Trim;
    if forall c | c in lines[k] :: c == ' ' || c == '\t' || c == '\r' {
      BlankIsNothing(lines[k]);
    }
    if exists c :: c in lines[k] && '!' <= c <= '~' {
      var i :| 0 <= i < |lines[k]| && '!' <= lines[k][i] <= '~';
      VisibleStays(lines[k], i);
    }
  }

  /** The blanks of typography count as blanks, a space of no width does not. */
  lemma {:induction false} WideBlanks(lines: seq<string>, mask: Mask, k: nat, c: char)
    requires k < |lines| && lines[k] == [c]
    ensures '\U{2000}' <= c <= '\U{200A}' || c == '\U{A0}' || c == '\U{3000}' || c == '\U{FEFF}' ==>
      !Classify(lines, true, mask)[k].isComment
    ensures c == '\U{200B}' || c == '\U{1FFF}' ==> Classify(lines, true, mask)[k] == Class(true, [c])
  {
    OneCharTrim(c);
    hide Trim;
  }

  lemma {:induction false} OneCharTrim(c: char)
    ensures Trim([c]) == if IsSpace(c) then "" else [c]
  {
    hide IsSpace;
    assert [c][1..] == "" && [c][..0] == "";
    assert TrimStart("") == "" && TrimEnd("") == "";
  }

  // ----- a touched comment is caught

  /** The diff and the content of one of the two states of a file that are scanned. */
  predicate IsStateOf(f: ChangedFile, diff: string, content: string) {
    (f.worktreeDiff == Some(diff) && f.content == Some(content))
    || (f.stagedDiff == Some(diff) && f.stagedContent == Some(content))
  }

  /**
   A touched review comment is caught: in a code file other than the gate's own two, a line comment
   with code around it on whose line the diff touches, and whose text asserts a review status, or
   refers to the review process and classifies, is a violation of that file, at that line.
   */
  lemma {:induction false} TouchedCommentIsCaught(rules: Rules, f: ChangedFile, diff: string, content: string,
                                                  lines: seq<string>, k: nat, i: nat)
    requires !rules.proseFile(f.name) && f.name != "scripts/check-reviewer-directed-comments.mjs"
    requires f.name != "scripts/test/check-reviewer-directed-comments.test.mjs"
    requires IsStateOf(f, diff, content) && lines == Split(content, {'\n'}) && k + 1 in Touched(diff)
    requires k < |lines| && i < |lines[k]| && AwaitedAt(lines, rules.mask, k) == None
    requires LineMark(lines[k], i) && Unmarked(lines[k], 0, i)
    requires k > 0 ==> !Classify(lines, false, rules.mask)[k - 1].isComment
    requires k + 1 < |lines| ==> !Classify(lines, false, rules.mask)[k + 1].isComment
    requires var text := lines[k][i..];
      rules.statusAssertion(text) || (rules.processReference(text) && rules.classification(text))
    ensures Bad(rules, f) && Flags(rules, f, Violation(f.name, k + 1))
  {
    hide Classify, AwaitedAt, Touched, LineMark, Unmarked, Split, IsSpanOf, IsStateOf, Bad, Flags;
    LineCommentClass(lines, rules.mask, k, i);
    var text := lines[k][i..];
    OneText(text);
    SpanOfTexts(Classify(lines, false, rules.mask), k, k, [text]);
    SpanIsCaught(rules, f, diff, content, Span(k + 1, k + 1, text));
  }

  /** Of either state of a file that is not exempt, every span on a touched line that breaks the rules is caught. */
  lemma {:induction false} SpanIsCaught(rules: Rules, f: ChangedFile, diff: string, content: string, span: Span)
    requires f.name != "scripts/check-reviewer-directed-comments.mjs"
    requires f.name != "scripts/test/check-reviewer-directed-comments.test.mjs"
    requires IsStateOf(f, diff, content) && IsSpanOf(Classes(rules, f.name, content), span)
    requires exists x :: span.startLine <= x <= span.endLine && x in Touched(diff)
    requires rules.statusAssertion(span.text) || (rules.processReference(span.text) && rules.classification(span.text))
    ensures Bad(rules, f) && Flags(rules, f, Violation(f.name, span.startLine))
  {
    hide Classes, Touched, IsSpanOf;
    assert Breaks(rules, Classes(rules, f.name, content), Touched(diff), span);
  }

  lemma OneText(text: string)
    ensures Join([text], "\n") == text
  {
  }

  /** The two files that quote the phrases are never scanned, whatever they hold. */
  lemma OwnFilesAreExempt(rules: Rules, f: ChangedFile, v: Violation)
    requires f.name == "scripts/check-reviewer-directed-comments.mjs"
          || f.name == "scripts/test/check-reviewer-directed-comments.test.mjs"
    ensures !Bad(rules, f) && !Flags(rules, f, v) && !DiffFails(f)
  {
    hide BreaksRules, BreaksAt;
  }

  /** A file none of whose comment spans does either passes, whatever is touched. */
  lemma {:induction false} HarmlessSpansPass(rules: Rules, name: string, diff: string, content: string)
    requires forall span | IsSpanOf(Classes(rules, name, content), span) ::
      !rules.statusAssertion(span.text) && !(rules.processReference(span.text) && rules.classification(span.text))
    ensures !BreaksRules(rules, name, diff, content)
  {
    hide Classes, Touched, IsSpanOf;
  }
}
