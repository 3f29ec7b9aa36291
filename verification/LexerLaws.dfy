/** When rescanning a line agrees with lexing it once, and why spans can be read on their own. */
module LexerLaws {
  import opened Text
  import opened CommentLexer
  import opened CommentCuts
  import Lit = StringLiterals

  // ----- rescanning against a lexer that pauses in comments

  /** No block comment that closes on this line has text that would change the lexical state. */
  predicate CommentsNeutral(line: string, masked: string, i: nat, s: Lit.State)
    requires i <= |line| == |masked|
    decreases |line| - i
  {
    if i == |line| || LineCommentAt(line, i) then true
    else
      match BlockAt(line, masked, i, s)
      case None => CommentsNeutral(line, masked, i + 1, Lit.Next(s, masked[i]))
      case Some((open, close)) =>
        var endIdx := IndexOf(line, close, i + |open|);
        endIdx == -1 ||
        (Lit.Neutral(s, masked[i..endIdx + |close|]) && CommentsNeutral(line, masked, endIdx + |close|, s))
  }

  predicate LineNeutral(line: string, masked: string, awaited: Option<string>)
    requires |line| == |masked|
  {
    match awaited
    case None => CommentsNeutral(line, masked, 0, Lit.Code)
    case Some(close) =>
      var endIdx := IndexOf(line, close, 0);
      endIdx == -1 ||
      (Lit.Neutral(Lit.Code, masked[..endIdx + |close|]) && CommentsNeutral(line, masked, endIdx + |close|, Lit.Code))
  }

  /** The same for every line, as the pausing lexer reaches it. */
  predicate LinesNeutral(lines: seq<string>, mask: Mask, awaited: Option<string>) {
    lines == [] ||
    (LineNeutral(lines[0], mask(lines[0]), awaited)
     && LinesNeutral(lines[1..], mask, LexLine(lines[0], mask(lines[0]), awaited, true).awaited))
  }

  lemma NeutralStep(line: string, masked: string, i: nat, s: Lit.State)
    requires i < |line| == |masked| && !LineCommentAt(line, i)
    ensures CommentsNeutral(line, masked, i, s) <==> match BlockAt(line, masked, i, s)
      case None => CommentsNeutral(line, masked, i + 1, Lit.Next(s, masked[i]))
      case Some((open, close)) =>
        var endIdx := IndexOf(line, close, i + |open|);
        endIdx == -1 ||
        (Lit.Neutral(s, masked[i..endIdx + |close|]) && CommentsNeutral(line, masked, endIdx + |close|, s))
  {
    hide IndexOf, LineCommentAt, BlockAt, Lit.Neutral;
  }

  lemma {:induction false} NeutralAgrees(line: string, masked: string, i: nat, s: Lit.State)
    requires i <= |line| == |masked| && CommentsNeutral(line, masked, i, s)
    ensures OpenersAgree(line, masked, i, s, s)
    decreases |line| - i
  {
    hide IndexOf, LineCommentAt, BlockAt, OpenersAgree, CommentsNeutral, Lit.StateFrom, Lit.Next;
    if i == |line| || LineCommentAt(line, i) {
      CutsStop(line, masked, i, s, s);
    } else {
      NeutralStep(line, masked, i, s);
      AgreeOfBlock(line, masked, i, s, s);
      match BlockAt(line, masked, i, s)
      case None => NeutralAgrees(line, masked, i + 1, Lit.Next(s, masked[i]));
      case Some((open, close)) =>
        var endIdx := IndexOf(line, close, i + |open|);
        if endIdx != -1 {
          Lit.NeutralText(s, masked, i, endIdx + |close|);
          NeutralAgrees(line, masked, endIdx + |close|, s);
        }
    }
  }

  lemma NeutralLineAgrees(line: string, masked: string, awaited: Option<string>)
    requires |line| == |masked| && LineNeutral(line, masked, awaited)
    ensures LineAgrees(line, masked, awaited)
  {
    hide IndexOf, HasAt, CommentsNeutral, OpenersAgree, Lit.StateFrom;
    match awaited
    case None => NeutralAgrees(line, masked, 0, Lit.Code);
    case Some(close) =>
      var endIdx := IndexOf(line, close, 0);
      if endIdx != -1 {
        assert masked[0..endIdx + |close|] == masked[..endIdx + |close|];
        Lit.NeutralText(Lit.Code, masked, 0, endIdx + |close|);
        NeutralAgrees(line, masked, endIdx + |close|, Lit.Code);
      }
  }

  lemma {:induction false} NeutralLinesAgree(lines: seq<string>, mask: Mask, awaited: Option<string>)
    requires LinesNeutral(lines, mask, awaited)
    ensures LinesAgree(lines, mask, awaited)
  {
    if lines != [] {
      hide LexLine, LineCuts, LineNeutral, LineAgrees;
      NeutralLineAgrees(lines[0], mask(lines[0]), awaited);
      LexLineIsCuts(lines[0], mask(lines[0]), awaited, true);
      NeutralLinesAgree(lines[1..], mask, LexLine(lines[0], mask(lines[0]), awaited, true).awaited);
    }
  }

  /**
   Where no comment text disturbs the lexical state, searching and rescanning gives the flag,
   the text and the carried block state of a lexer that reads every line once, left to right.
   */
  lemma RescanIsOnePass(lines: seq<string>, mask: Mask, awaited: Option<string>)
    requires LinesNeutral(lines, mask, awaited)
    ensures Stretches(lines, mask, awaited, false) == Stretches(lines, mask, awaited, true)
    ensures LexLines(lines, mask, awaited, false) == LexLines(lines, mask, awaited, true)
    ensures AwaitedAfter(lines, mask, awaited, false) == AwaitedAfter(lines, mask, awaited, true)
  {
    hide LinesNeutral, LinesAgree, Stretches, LexLines, AwaitedAfter;
    NeutralLinesAgree(lines, mask, awaited);
    RescanIsOnePassIff(lines, mask, awaited);
  }

  /** No block comment that closes on this line has a quote in its text. */
  predicate CommentsQuoteFree(line: string, masked: string, i: nat, s: Lit.State)
    requires i <= |line| == |masked|
    decreases |line| - i
  {
    if i == |line| || LineCommentAt(line, i) then true
    else
      match BlockAt(line, masked, i, s)
      case None => CommentsQuoteFree(line, masked, i + 1, Lit.Next(s, masked[i]))
      case Some((open, close)) =>
        var endIdx := IndexOf(line, close, i + |open|);
        endIdx == -1 ||
        (Lit.QuoteFree(masked[i..endIdx + |close|]) && CommentsQuoteFree(line, masked, endIdx + |close|, s))
  }

  lemma QuoteFreeStep(line: string, masked: string, i: nat, s: Lit.State)
    requires i < |line| == |masked| && !LineCommentAt(line, i)
    ensures CommentsQuoteFree(line, masked, i, s) <==> match BlockAt(line, masked, i, s)
      case None => CommentsQuoteFree(line, masked, i + 1, Lit.Next(s, masked[i]))
      case Some((open, close)) =>
        var endIdx := IndexOf(line, close, i + |open|);
        endIdx == -1 ||
        (Lit.QuoteFree(masked[i..endIdx + |close|]) && CommentsQuoteFree(line, masked, endIdx + |close|, s))
  {
    hide IndexOf, LineCommentAt, BlockAt, Lit.QuoteFree;
  }

  /** Where a comment opens on such a line, only quotes can disturb the lexical state. */
  lemma OnlyQuotesDisturb(line: string, masked: string, i: nat, s: Lit.State, text: string)
    requires i < |line| == |masked| && !Includes(masked, "${")
    requires !s.Expr? && !s.ExprQuoted? && (s == Lit.Template(Lit.Dollar) ==> i > 0 && masked[i - 1] == '$')
    requires BlockAt(line, masked, i, s).Some?
    ensures s != Lit.Template(Lit.Dollar)
    ensures Lit.Neutral(s, text) <==> Lit.QuoteFree(text)
  {
    hide HasAt;
    if s == Lit.Template(Lit.Dollar) && masked[i] == '{' {
      Lit.DollarBrace(masked, i);
    }
  }

  lemma NoDollarBrace(masked: string, i: nat, s: Lit.State)
    requires i < |masked| && !Includes(masked, "${")
    requires !s.Expr? && !s.ExprQuoted? && (s == Lit.Template(Lit.Dollar) ==> i > 0 && masked[i - 1] == '$')
    ensures var t := Lit.Next(s, masked[i]);
      !t.Expr? && !t.ExprQuoted? && (t == Lit.Template(Lit.Dollar) ==> masked[i] == '$')
  {
    hide HasAt;
    if s == Lit.Template(Lit.Dollar) && masked[i] == '{' {
      Lit.DollarBrace(masked, i);
    }
  }

  /** On a line without `${`, comments only have to be free of quotes. */
  lemma {:induction false} QuoteFreeIsNeutral(line: string, masked: string, i: nat, s: Lit.State)
    requires i <= |line| == |masked| && !Includes(masked, "${")
    requires !s.Expr? && !s.ExprQuoted? && (s == Lit.Template(Lit.Dollar) ==> i > 0 && masked[i - 1] == '$')
    ensures CommentsQuoteFree(line, masked, i, s) <==> CommentsNeutral(line, masked, i, s)
    decreases |line| - i
  {
    hide IndexOf, LineCommentAt, HasAt, Includes, BlockAt, CommentsQuoteFree, CommentsNeutral, Lit.Neutral, Lit.Next,
      Lit.QuoteFree;
    if i == |line| || LineCommentAt(line, i) {
      NothingToCheck(line, masked, i, s);
    } else {
      QuoteFreeStep(line, masked, i, s);
      NeutralStep(line, masked, i, s);
      match BlockAt(line, masked, i, s)
      case None =>
        NoDollarBrace(masked, i, s);
        QuoteFreeIsNeutral(line, masked, i + 1, Lit.Next(s, masked[i]));
      case Some((open, close)) =>
        var endIdx := IndexOf(line, close, i + |open|);
        if endIdx != -1 {
          OnlyQuotesDisturb(line, masked, i, s, masked[i..endIdx + |close|]);
          QuoteFreeIsNeutral(line, masked, endIdx + |close|, s);
        }
    }
  }

  lemma NothingToCheck(line: string, masked: string, i: nat, s: Lit.State)
    requires i <= |line| == |masked| && (i == |line| || LineCommentAt(line, i))
    ensures CommentsQuoteFree(line, masked, i, s) && CommentsNeutral(line, masked, i, s)
  {
  }

  /** A line without `${` on which no block comment that closes has a quote in its text. */
  ghost predicate LineQuoteFree(line: string, masked: string, awaited: Option<string>)
    requires |line| == |masked|
  {
    && !Includes(masked, "${")
    && match awaited
       case None => CommentsQuoteFree(line, masked, 0, Lit.Code)
       case Some(close) =>
         var endIdx := IndexOf(line, close, 0);
         endIdx == -1 ||
         (Lit.QuoteFree(masked[..endIdx + |close|]) && CommentsQuoteFree(line, masked, endIdx + |close|, Lit.Code))
  }

  ghost predicate LinesQuoteFree(lines: seq<string>, mask: Mask, awaited: Option<string>) {
    lines == [] ||
    (LineQuoteFree(lines[0], mask(lines[0]), awaited)
     && LinesQuoteFree(lines[1..], mask, LexLine(lines[0], mask(lines[0]), awaited, true).awaited))
  }

  lemma QuoteFreeLineIsNeutral(line: string, masked: string, awaited: Option<string>)
    requires |line| == |masked| && LineQuoteFree(line, masked, awaited)
    ensures LineNeutral(line, masked, awaited)
  {
    hide IndexOf, Includes, CommentsQuoteFree, CommentsNeutral;
    match awaited
    case None => QuoteFreeIsNeutral(line, masked, 0, Lit.Code);
    case Some(close) =>
      var endIdx := IndexOf(line, close, 0);
      if endIdx != -1 {
        QuoteFreeIsNeutral(line, masked, endIdx + |close|, Lit.Code);
      }
  }

  /** Over any number of such lines, searching and rescanning is lexing once. */
  lemma {:induction false} QuoteFreeLinesAreOnePass(lines: seq<string>, mask: Mask, awaited: Option<string>)
    requires LinesQuoteFree(lines, mask, awaited)
    ensures LinesNeutral(lines, mask, awaited)
    ensures LexLines(lines, mask, awaited, false) == LexLines(lines, mask, awaited, true)
  {
    if lines != [] {
      hide LexLine, LexLines, LineQuoteFree, LineNeutral;
      QuoteFreeLineIsNeutral(lines[0], mask(lines[0]), awaited);
      QuoteFreeLinesAreOnePass(lines[1..], mask, LexLine(lines[0], mask(lines[0]), awaited, true).awaited);
    }
    RescanIsOnePass(lines, mask, awaited);
  }

  /** In a literal that the rest of the line does not end, no block comment opens. */
  lemma {:induction false} DanglingQuoteHidesOpeners(line: string, masked: string, i: nat, q: char, paused: bool)
    requires i <= |line| == |masked|
    requires forall j :: i <= j < |line| ==> !LineCommentAt(line, j) && masked[j] != q && masked[j] != '\\'
    ensures Lex(line, masked, i, Lit.Quoted(q, false), paused) == Scan("", false, None)
    decreases |line| - i
  {
    hide LineCommentAt;
    if i < |line| {
      DanglingQuoteHidesOpeners(line, masked, i + 1, q, paused);
    }
  }

  /**
   What the agreement needs its condition for: a comment that leaves a quote dangling. If the
   line after it would not end the literal, the rescan sees no comment there at all, while a
   lexer that pauses in comments sees the next block comment open.
   */
  lemma RescanMissesOpener(line: string, masked: string, k: nat, s: Lit.State, open: string, close: string, q: char)
    requires k < |line| == |masked| && !LineCommentAt(line, k) && BlockAt(line, masked, k, s) == Some((open, close))
    requires IndexOf(line, close, k + |open|) != -1
    requires var end := IndexOf(line, close, k + |open|) + |close|;
      && Lit.StateFrom(s, masked, k, end) == Lit.Quoted(q, false)
      && (forall j :: end <= j < |line| ==> !LineCommentAt(line, j) && masked[j] != q && masked[j] != '\\')
      && end < |line| && BlockAt(line, masked, end, s).Some?
    ensures var end := IndexOf(line, close, k + |open|) + |close|;
      && Lex(line, masked, k, s, false) == Scan(line[k..end], true, None)
      && |Lex(line, masked, k, s, true).text| > end - k
  {
    hide LineCommentAt, BlockAt, HasAt, IndexOf, Lex, Lit.StateFrom;
    var endIdx := IndexOf(line, close, k + |open|);
    var end := endIdx + |close|;
    LexBlock(line, masked, k, s, false, open, close);
    LexBlock(line, masked, k, s, true, open, close);
    DanglingQuoteHidesOpeners(line, masked, end, q, false);
    Assoc(line[k..end], "", "");
    OpenerHasText(line, masked, end, s);
  }

  lemma OpenerHasText(line: string, masked: string, k: nat, s: Lit.State)
    requires k < |line| == |masked| && !LineCommentAt(line, k) && BlockAt(line, masked, k, s).Some?
    ensures Lex(line, masked, k, s, true).text != ""
  {
    hide LineCommentAt, BlockAt, HasAt, IndexOf;
    var m := BlockAt(line, masked, k, s).value;
    LexBlock(line, masked, k, s, true, m.0, m.1);
  }

  /** One such line: an apostrophe in a comment hides the block comment that opens after it. */
  lemma ApostropheHidesOpener(line: string)
    requires line == "/*'*//*"
    ensures LexLine(line, line, None, false) == Scan(line[0..5], true, None)
    ensures LexLine(line, line, None, true) == Scan(line, true, Some("*/"))
  {
    ApostropheMarkers(line);
    ApostropheStates(line);
    assert |line| == 7 && line[5] != '\'' && line[6] != '\'' && line[5] != '\\' && line[6] != '\\';
    ApostropheLine(line);
  }

  lemma ApostropheLine(line: string)
    requires |line| == 7 && line[5] != '\'' && line[6] != '\'' && line[5] != '\\' && line[6] != '\\'
    requires Lit.StateFrom(Lit.Code, line, 0, 5) == Lit.Quoted('\'', false)
    requires IndexOf(line, "*/", 2) == 3 && IndexOf(line, "*/", 7) == -1
    requires BlockAt(line, line, 0, Lit.Code) == Some(("/*", "*/"))
    requires BlockAt(line, line, 5, Lit.Code) == Some(("/*", "*/"))
    requires !LineCommentAt(line, 0) && !LineCommentAt(line, 5) && !LineCommentAt(line, 6)
    ensures LexLine(line, line, None, false) == Scan(line[0..5], true, None)
    ensures LexLine(line, line, None, true) == Scan(line, true, Some("*/"))
  {
    hide LineCommentAt, BlockAt, HasAt, IndexOf, Lit.StateFrom, Lex;
    LexBlock(line, line, 0, Lit.Code, false, "/*", "*/");
    LexBlock(line, line, 0, Lit.Code, true, "/*", "*/");
    DanglingQuoteHidesOpeners(line, line, 5, '\'', false);
    LexBlock(line, line, 5, Lit.Code, true, "/*", "*/");
    Assoc(line[0..5], "", "");
    assert line[0..5] + line[5..] == line;
  }

  lemma PairAt(s: string, pat: string, i: nat)
    requires |pat| == 2
    ensures HasAt(s, pat, i) <==> i + 2 <= |s| && s[i] == pat[0] && s[i + 1] == pat[1]
  {
    assert pat == [pat[0], pat[1]];
    if i + 2 <= |s| {
      assert s[i..i + 2] == [s[i], s[i + 1]];
    }
  }

  lemma ApostropheMarkers(line: string)
    requires line == "/*'*//*"
    ensures IndexOf(line, "*/", 2) == 3 && IndexOf(line, "*/", 7) == -1
    ensures BlockAt(line, line, 0, Lit.Code) == Some(("/*", "*/"))
    ensures BlockAt(line, line, 5, Lit.Code) == Some(("/*", "*/"))
    ensures !LineCommentAt(line, 0) && !LineCommentAt(line, 5) && !LineCommentAt(line, 6)
  {
    hide IndexOf;
    PairAt(line, "/*", 0);
    PairAt(line, "/*", 5);
    PairAt(line, "*/", 2);
    PairAt(line, "*/", 3);
    PairAt(line, "//", 6);
    MarkersDiffer(line, 0);
    MarkersDiffer(line, 5);
    HasAtChars(line, "#", 6);
    assert line[6 + 0] != "#"[0];
  }

  lemma ApostropheStates(line: string)
    requires line == "/*'*//*"
    ensures Lit.StateFrom(Lit.Code, line, 0, 5) == Lit.Quoted('\'', false)
  {
    assert Lit.StateFrom(Lit.Code, line, 0, 1) == Lit.Code;
    assert Lit.StateFrom(Lit.Code, line, 0, 2) == Lit.Code;
    assert Lit.StateFrom(Lit.Code, line, 0, 3) == Lit.Quoted('\'', false);
    assert Lit.StateFrom(Lit.Code, line, 0, 4) == Lit.Quoted('\'', false);
  }

  // ----- the classes of a stretch of lines

  lemma {:induction false} LexOpenIsComment(line: string, masked: string, i: nat, s: Lit.State, paused: bool)
    requires i <= |line| == |masked|
    ensures Lex(line, masked, i, s, paused).awaited.Some? ==> Lex(line, masked, i, s, paused).sawComment
    decreases |line| - i
  {
    hide IndexOf, HasAt, LineCommentAt;
    if i < |line| && !LineCommentAt(line, i) && BlockAt(line, masked, i, s).None? {
      LexOpenIsComment(line, masked, i + 1, Lit.Next(s, masked[i]), paused);
    }
  }

  /** A line on which a block comment is open at either end is a comment line. */
  lemma OpenIsComment(line: string, masked: string, awaited: Option<string>)
    requires |line| == |masked|
    ensures var scan := LexLine(line, masked, awaited, false);
      awaited.Some? || scan.awaited.Some? ==> scan.sawComment
  {
    LexOpenIsComment(line, masked, 0, Lit.Code, false);
  }

  lemma {:induction false} SuffixClasses(lines: seq<string>, mask: Mask, a: nat)
    requires a <= |lines|
    ensures LexLines(lines[a..], mask, AwaitedAt(lines, mask, a), false) == LexLines(lines, mask, None, false)[a..]
    decreases a
  {
    if a == 0 {
      assert lines[0..] == lines;
    } else {
      hide LexLine, LexLines;
      SuffixClasses(lines, mask, a - 1);
      LexLinesStep(lines, a - 1, mask, AwaitedAt(lines, mask, a - 1));
      SliceOfDrop(LexLines(lines, mask, None, false), a - 1, 1, 1);
    }
  }

  lemma FirstClass(lines: seq<string>, mask: Mask, awaited: Option<string>)
    requires lines != []
    ensures var scan := LexLine(lines[0], mask(lines[0]), awaited, false);
      LexLines(lines, mask, awaited, false) == [scan.AsClass()] + LexLines(lines[1..], mask, scan.awaited, false)
  {
    hide LexLine;
  }

  lemma {:induction false} PrefixClasses(lines: seq<string>, mask: Mask, awaited: Option<string>, m: nat)
    requires m <= |lines|
    ensures LexLines(lines[..m], mask, awaited, false) == LexLines(lines, mask, awaited, false)[..m]
    decreases m
  {
    if m > 0 {
      var scan := LexLine(lines[0], mask(lines[0]), awaited, false);
      hide LexLine, LexLines;
      TailOfTake(lines, m);
      FirstClass(lines, mask, awaited);
      FirstClass(lines[..m], mask, awaited);
      PrefixClasses(lines[1..], mask, scan.awaited, m - 1);
      TakeOfCons(scan.AsClass(), LexLines(lines[1..], mask, scan.awaited, false), m);
    }
  }

  /** The classes of lines a..b-1, given the block state before line `a`. */
  lemma StretchClasses(lines: seq<string>, mask: Mask, a: nat, b: nat)
    requires a <= b <= |lines|
    ensures LexLines(lines[a..b], mask, AwaitedAt(lines, mask, a), false) == LexLines(lines, mask, None, false)[a..b]
  {
    hide LexLines, AwaitedAt;
    SuffixClasses(lines, mask, a);
    PrefixClasses(lines[a..], mask, AwaitedAt(lines, mask, a), b - a);
    SliceOfDrop(lines, a, 0, b - a);
    SliceOfDrop(LexLines(lines, mask, None, false), a, 0, b - a);
  }

  lemma ClassAt(lines: seq<string>, mask: Mask, k: nat)
    requires k < |lines|
    ensures LexLines(lines, mask, None, false)[k]
      == LexLine(lines[k], mask(lines[k]), AwaitedAt(lines, mask, k), false).AsClass()
  {
    hide LexLine, AwaitedAt;
    SuffixClasses(lines, mask, k);
    LexLinesStep(lines, k, mask, AwaitedAt(lines, mask, k));
  }

  /** Next to a line that is not a comment, no block comment is open. */
  lemma NotOpenNextToCode(lines: seq<string>, mask: Mask, k: nat)
    requires k < |lines| && !LexLines(lines, mask, None, false)[k].isComment
    ensures AwaitedAt(lines, mask, k) == None && AwaitedAt(lines, mask, k + 1) == None
  {
    hide LexLine, LexLines;
    ClassAt(lines, mask, k);
    OpenIsComment(lines[k], mask(lines[k]), AwaitedAt(lines, mask, k));
  }
}
