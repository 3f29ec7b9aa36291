/** Maximal runs of comment lines, each with the comment text of its lines. */
module SpanFinder {
  import opened Text
  import opened CommentLexer
  import opened LexerLaws

  /** A span of lines, numbered from 1, both ends included. */
  datatype Span = Span(startLine: nat, endLine: nat, text: string)

  function Texts(classes: seq<Class>): seq<string> {
    seq(|classes|, i requires 0 <= i < |classes| => classes[i].text)
  }

  /** Lines a..b-1 (counted from 0) are comment lines, and no longer run holds them. */
  predicate MaximalRun(cl: seq<Class>, a: int, b: int) {
    && 0 <= a < b <= |cl|
    && (forall i :: a <= i < b ==> cl[i].isComment)
    && (a > 0 ==> !cl[a - 1].isComment)
    && (b < |cl| ==> !cl[b].isComment)
  }

  function SpanOf(cl: seq<Class>, a: nat, b: nat): Span
    requires a <= b <= |cl|
  {
    Span(a + 1, b, Join(Texts(cl[a..b]), "\n"))
  }

  predicate IsSpanOf(cl: seq<Class>, span: Span) {
    MaximalRun(cl, span.startLine - 1, span.endLine) && span == SpanOf(cl, span.startLine - 1, span.endLine)
  }

  /** The first line from `i` on that is not a comment. */
  function RunEnd(cl: seq<Class>, i: nat): (e: nat)
    requires i <= |cl|
    ensures i <= e <= |cl| && (forall j :: i <= j < e ==> cl[j].isComment) && (e < |cl| ==> !cl[e].isComment)
    decreases |cl| - i
  {
    if i < |cl| && cl[i].isComment then RunEnd(cl, i + 1) else i
  }

  function SpansFrom(cl: seq<Class>, i: nat): seq<Span>
    requires i <= |cl|
    decreases |cl| - i
  {
    if i == |cl| then []
    else if !cl[i].isComment then SpansFrom(cl, i + 1)
    else [SpanOf(cl, i, RunEnd(cl, i))] + SpansFrom(cl, RunEnd(cl, i))
  }

  function Spans(cl: seq<Class>): seq<Span> { SpansFrom(cl, 0) }

  lemma {:induction false} RunEndIs(cl: seq<Class>, i: nat, e: nat)
    requires i <= e <= |cl| && (forall j :: i <= j < e ==> cl[j].isComment) && (e < |cl| ==> !cl[e].isComment)
    ensures RunEnd(cl, i) == e
    decreases e - i
  {
    if i < e {
      RunEndIs(cl, i + 1, e);
    }
  }

  /** The run that starts at `i` and ends before `e` is the first of the spans from `i` on. */
  lemma NextSpan(cl: seq<Class>, i: nat, e: nat)
    requires i < e <= |cl| && (forall j :: i <= j < e ==> cl[j].isComment) && (e < |cl| ==> !cl[e].isComment)
    ensures SpansFrom(cl, i) == [SpanOf(cl, i, e)] + SpansFrom(cl, if e < |cl| then e + 1 else e)
  {
    RunEndIs(cl, i, e);
  }

  method CollectSpans(classified: seq<Class>) returns (spans: seq<Span>)
    ensures spans == Spans(classified)
  {
    spans := [];
    var start := -1;
    var texts: seq<string> := [];
    ghost var rest := Spans(classified);
    hide SpansFrom, RunEnd, Join, Texts;
    for i := 0 to |classified|
      invariant -1 <= start < i
      invariant start != -1 ==> texts == Texts(classified[start..i])
      invariant start != -1 ==> forall j :: start <= j < i ==> classified[j].isComment
      invariant start == -1 ==> texts == []
      invariant rest == SpansFrom(classified, if start == -1 then i else start)
      invariant Spans(classified) == spans + rest
    {
      if classified[i].isComment {
        if start == -1 {
          start := i;
        }
        TextsSnoc(classified, start, i);
        texts := texts + [classified[i].text];
      } else if start != -1 {
        NextSpan(classified, start, i);
        rest := SpansFrom(classified, i + 1);
        Assoc(spans, [SpanOf(classified, start, i)], rest);
        spans := spans + [Span(start + 1, i, Join(texts, "\n"))];
        start := -1;
        texts := [];
      } else {
        NoSpan(classified, i);
      }
    }
    if start != -1 {
      NextSpan(classified, start, |classified|);
      spans := spans + [Span(start + 1, |classified|, Join(texts, "\n"))];
    }
    NoSpan(classified, |classified|);
  }

  lemma TextsSnoc(cl: seq<Class>, a: nat, i: nat)
    requires a <= i < |cl|
    ensures Texts(cl[a..i + 1]) == Texts(cl[a..i]) + [cl[i].text]
    ensures Texts(cl[i..i]) == []
  {
  }

  lemma NoSpan(cl: seq<Class>, i: nat)
    requires i <= |cl| && (i < |cl| ==> !cl[i].isComment)
    ensures SpansFrom(cl, i) == if i < |cl| then SpansFrom(cl, i + 1) else []
  {
  }

  method CommentSpans(lines: seq<string>, treatEveryLineAsComment: bool, mask: Mask) returns (spans: seq<Span>)
    ensures spans == Spans(Classify(lines, treatEveryLineAsComment, mask))
  {
    var classified := ClassifyLines(lines, treatEveryLineAsComment, mask);
    spans := CollectSpans(classified);
  }

  // ----- the spans are the maximal runs, in order

  ghost predicate Separated(cl: seq<Class>, spans: seq<Span>) {
    forall i, j :: 0 <= i < j < |spans| ==>
      spans[i].endLine < spans[j].startLine - 1 && spans[i].endLine < |cl| && !cl[spans[i].endLine].isComment
  }

  lemma SeparatedCons(cl: seq<Class>, first: Span, rest: seq<Span>)
    requires Separated(cl, rest)
    requires rest != [] ==> first.endLine < |cl| && !cl[first.endLine].isComment
    requires forall k :: 0 <= k < |rest| ==> first.endLine < rest[k].startLine - 1
    ensures Separated(cl, [first] + rest)
  {
    var all := [first] + rest;
    forall i, j | 0 <= i < j < |all|
      ensures all[i].endLine < all[j].startLine - 1 && all[i].endLine < |cl| && !cl[all[i].endLine].isComment
    {
      assert all[j] == rest[j - 1];
      if i > 0 {
        assert all[i] == rest[i - 1];
      }
    }
  }

  /** Every listed span is a maximal run after line `i`. */
  ghost predicate RunsAfter(cl: seq<Class>, i: nat, spans: seq<Span>) {
    forall k :: 0 <= k < |spans| ==> IsSpanOf(cl, spans[k]) && i < spans[k].startLine
  }

  lemma RunThenRuns(cl: seq<Class>, i: nat, e: nat, rest: seq<Span>)
    requires MaximalRun(cl, i, e)
    requires RunsAfter(cl, if e < |cl| then e + 1 else e, rest) && Separated(cl, rest) && (rest != [] ==> e < |cl|)
    ensures RunsAfter(cl, i, [SpanOf(cl, i, e)] + rest) && Separated(cl, [SpanOf(cl, i, e)] + rest)
  {
    var first := SpanOf(cl, i, e);
    assert IsSpanOf(cl, first) && first.startLine == i + 1 && first.endLine == e;
    hide SpanOf, IsSpanOf;
    SeparatedCons(cl, first, rest);
  }

  lemma RunsAfterEarlier(cl: seq<Class>, i: nat, j: nat, spans: seq<Span>)
    requires i <= j && RunsAfter(cl, j, spans)
    ensures RunsAfter(cl, i, spans)
  {
    hide IsSpanOf;
  }

  lemma NoRuns(cl: seq<Class>, i: nat)
    ensures RunsAfter(cl, i, []) && Separated(cl, [])
  {
  }

  lemma {:induction false} SpansAreRuns(cl: seq<Class>, i: nat)
    requires i <= |cl| && (0 < i < |cl| && cl[i].isComment ==> !cl[i - 1].isComment)
    ensures RunsAfter(cl, i, SpansFrom(cl, i)) && Separated(cl, SpansFrom(cl, i))
    decreases |cl| - i
  {
    hide SpanOf, SpansFrom, RunsAfter, Separated;
    NoRuns(cl, i);
    if i == |cl| {
      NoSpan(cl, i);
    } else if !cl[i].isComment {
      NoSpan(cl, i);
      SpansAreRuns(cl, i + 1);
      RunsAfterEarlier(cl, i, i + 1, SpansFrom(cl, i + 1));
    } else {
      var e := RunEnd(cl, i);
      NextSpan(cl, i, e);
      if e == |cl| {
        NoSpan(cl, e);
        NoRuns(cl, e);
        RunThenRuns(cl, i, e, []);
      } else {
        SpansAreRuns(cl, e + 1);
        RunThenRuns(cl, i, e, SpansFrom(cl, e + 1));
      }
    }
  }

  lemma {:induction false} RunsAreSpans(cl: seq<Class>, i: nat, a: nat, b: nat)
    requires i <= a && MaximalRun(cl, a, b)
    ensures SpanOf(cl, a, b) in SpansFrom(cl, i)
    decreases |cl| - i
  {
    if !cl[i].isComment {
      RunsAreSpans(cl, i + 1, a, b);
    } else if i == a {
      RunEndIs(cl, a, b);
    } else {
      RunsAreSpans(cl, RunEnd(cl, i), a, b);
    }
  }

  /**
   The spans are the maximal runs of comment lines and nothing else, in order, each followed by
   a line that is not a comment; together they hold exactly the comment lines.
   */
  lemma SpansCharacterised(cl: seq<Class>)
    ensures forall s :: s in Spans(cl) <==> IsSpanOf(cl, s)
    ensures Separated(cl, Spans(cl))
    ensures forall k: nat | k < |cl| ::
      cl[k].isComment <==> exists s :: s in Spans(cl) && s.startLine <= k + 1 <= s.endLine
  {
    hide SpansFrom, SpanOf, IsSpanOf;
    SpansAreRuns(cl, 0);
    forall s | IsSpanOf(cl, s) ensures s in Spans(cl) {
      RunIsListed(cl, s);
    }
    forall k: nat | k < |cl|
      ensures cl[k].isComment <==> exists s :: s in Spans(cl) && s.startLine <= k + 1 <= s.endLine
    {
      if cl[k].isComment {
        var s := SpanAround(cl, k);
      }
      forall s | s in Spans(cl) && s.startLine <= k + 1 <= s.endLine ensures cl[k].isComment {
        SpanIsComment(cl, s, k);
      }
    }
  }

  lemma RunIsListed(cl: seq<Class>, s: Span)
    requires IsSpanOf(cl, s)
    ensures s in Spans(cl)
  {
    hide SpanOf;
    RunsAreSpans(cl, 0, s.startLine - 1, s.endLine);
  }

  lemma SpanAround(cl: seq<Class>, k: nat) returns (s: Span)
    requires k < |cl| && cl[k].isComment
    ensures IsSpanOf(cl, s) && s.startLine <= k + 1 <= s.endLine
  {
    var a := RunStart(cl, k);
    s := SpanOf(cl, a, RunEnd(cl, k));
  }

  lemma SpanIsComment(cl: seq<Class>, s: Span, k: nat)
    requires k < |cl| && IsSpanOf(cl, s) && s.startLine <= k + 1 <= s.endLine
    ensures cl[k].isComment
  {
  }

  function RunStart(cl: seq<Class>, k: nat): (a: nat)
    requires k < |cl| && cl[k].isComment
    ensures a <= k && (forall j :: a <= j <= k ==> cl[j].isComment) && (a > 0 ==> !cl[a - 1].isComment)
  {
    if k > 0 && cl[k - 1].isComment then RunStart(cl, k - 1) else k
  }

  lemma NothingAwaited(lines: seq<string>, mask: Mask)
    ensures AwaitedAt(lines, mask, 0) == None
  {
  }

  lemma CodeSpanIsLocal(lines: seq<string>, mask: Mask, cl: seq<Class>, a: nat, b: nat)
    requires cl == LexLines(lines, mask, None, false) && a < b <= |lines|
    requires (a > 0 ==> !cl[a - 1].isComment) && (b < |lines| ==> !cl[b].isComment)
    ensures LexLines(lines[a..b], mask, None, false) == cl[a..b]
    ensures AwaitedAt(lines, mask, a) == None && (b < |lines| ==> AwaitedAt(lines, mask, b) == None)
  {
    hide LexLines, LexLine, AwaitedAt;
    if a == 0 {
      NothingAwaited(lines, mask);
    } else {
      NotOpenNextToCode(lines, mask, a - 1);
    }
    if b < |lines| {
      NotOpenNextToCode(lines, mask, b);
    }
    StretchClasses(lines, mask, a, b);
  }

  lemma ProseIsLocal(lines: seq<string>, a: nat, b: nat)
    requires a <= b <= |lines|
    ensures ProseClasses(lines[a..b]) == ProseClasses(lines)[a..b]
  {
    hide Trim;
  }

  /**
   Span locality: no block comment is open where a maximal span begins or after it ends, so
   classifying the span's own lines gives the flags and text they have in the whole file.
   */
  lemma SpanIsLocal(lines: seq<string>, prose: bool, mask: Mask, a: nat, b: nat)
    requires MaximalRun(Classify(lines, prose, mask), a, b)
    ensures Classify(lines[a..b], prose, mask) == Classify(lines, prose, mask)[a..b]
    ensures !prose ==> AwaitedAt(lines, mask, a) == None && (b < |lines| ==> AwaitedAt(lines, mask, b) == None)
  {
    hide LexLines, AwaitedAt, ProseClasses;
    if prose {
      ProseIsLocal(lines, a, b);
    } else {
      CodeSpanIsLocal(lines, mask, Classify(lines, prose, mask), a, b);
    }
  }
}
