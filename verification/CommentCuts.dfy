/**
 Which stretches of a line are comments, and exactly when the rescanning of the source finds the
 same stretches as a lexer that reads each line once and pauses in comments.
 */
module CommentCuts {
  import opened Text
  import opened CommentLexer
  import Lit = StringLiterals

  /** The comment stretches of a line, as half-open intervals, and the closer still awaited. */
  datatype Cuts = Cuts(spans: seq<(nat, nat)>, awaited: Option<string>)

  ghost predicate Within(line: string, i: nat, spans: seq<(nat, nat)>) {
    forall k | 0 <= k < |spans| :: i <= spans[k].0 <= spans[k].1 <= |line|
  }

  /** The lexer of `CommentLexer.Lex`, with positions in place of text. */
  function CutsFrom(line: string, masked: string, i: nat, s: Lit.State, paused: bool): (r: Cuts)
    requires i <= |line| == |masked|
    ensures Within(line, i, r.spans)
    decreases |line| - i
  {
    if i == |line| then Cuts([], None)
    else if LineCommentAt(line, i) then Cuts([(i, |line|)], None)
    else
      match BlockAt(line, masked, i, s)
      case None => CutsFrom(line, masked, i + 1, Lit.Next(s, masked[i]), paused)
      case Some((open, close)) =>
        var endIdx := IndexOf(line, close, i + |open|);
        if endIdx == -1 then Cuts([(i, |line|)], Some(close))
        else
          var end := endIdx + |close|;
          var rest := CutsFrom(line, masked, end, if paused then s else Lit.StateFrom(s, masked, i, end), paused);
          Cuts([(i, end)] + rest.spans, rest.awaited)
  }

  /** The text of the stretches, one after the other. */
  function Pieces(line: string, spans: seq<(nat, nat)>): string
    requires Within(line, 0, spans)
  {
    if spans == [] then "" else line[spans[0].0..spans[0].1] + Pieces(line, spans[1..])
  }

  function ScanOf(line: string, cuts: Cuts): Scan
    requires Within(line, 0, cuts.spans)
  {
    Scan(Pieces(line, cuts.spans), cuts.spans != [], cuts.awaited)
  }

  /** What the lexer finds is determined by where it finds it. */
  lemma {:induction false} LexIsCuts(line: string, masked: string, i: nat, s: Lit.State, paused: bool)
    requires i <= |line| == |masked|
    ensures Within(line, 0, CutsFrom(line, masked, i, s, paused).spans)
    ensures Lex(line, masked, i, s, paused) == ScanOf(line, CutsFrom(line, masked, i, s, paused))
    decreases |line| - i
  {
    hide IndexOf, LineCommentAt, BlockAt, HasAt, Lex, CutsFrom, Pieces, Lit.StateFrom, Lit.Next;
    if i == |line| || LineCommentAt(line, i) {
      StopIsCuts(line, masked, i, s, paused);
    } else {
      CutsOfBlock(line, masked, i, s, paused);
      match BlockAt(line, masked, i, s)
      case None =>
        LexNone(line, masked, i, s, paused);
        LexIsCuts(line, masked, i + 1, Lit.Next(s, masked[i]), paused);
      case Some((open, close)) =>
        LexBlock(line, masked, i, s, paused, open, close);
        OnePiece(line, i);
        var endIdx := IndexOf(line, close, i + |open|);
        if endIdx != -1 {
          var end := endIdx + |close|;
          var t := if paused then s else Lit.StateFrom(s, masked, i, end);
          LexIsCuts(line, masked, end, t, paused);
          MorePieces(line, i, end, CutsFrom(line, masked, end, t, paused).spans);
        }
    }
  }

  lemma {:induction false} StopIsCuts(line: string, masked: string, i: nat, s: Lit.State, paused: bool)
    requires i <= |line| == |masked| && (i == |line| || LineCommentAt(line, i))
    ensures Lex(line, masked, i, s, paused) == ScanOf(line, CutsFrom(line, masked, i, s, paused))
  {
    hide LineCommentAt, BlockAt;
    OnePiece(line, i);
  }

  lemma {:induction false} MorePieces(line: string, i: nat, end: nat, spans: seq<(nat, nat)>)
    requires i <= end <= |line| && Within(line, 0, spans)
    ensures Within(line, 0, [(i, end)] + spans)
    ensures Pieces(line, [(i, end)] + spans) == line[i..end] + Pieces(line, spans)
  {
    assert ([(i, end)] + spans)[1..] == spans;
  }

  lemma {:induction false} OnePiece(line: string, i: nat)
    requires i <= |line|
    ensures Pieces(line, [(i, |line|)]) == line[i..]
  {
    assert [(i, |line|)][1..] == [];
    assert line[i..|line|] + "" == line[i..];
  }

  // ----- one line

  /**
   From `i` on, with lexical state `s` in the rescan and `p` in the pausing lexer: outside
   comments both give every position the same verdict on whether a block comment opens there.
   */
  predicate OpenersAgree(line: string, masked: string, i: nat, s: Lit.State, p: Lit.State)
    requires i <= |line| == |masked|
    decreases |line| - i
  {
    if i == |line| || LineCommentAt(line, i) then true
    else
      BlockAt(line, masked, i, s) == BlockAt(line, masked, i, p) &&
      match BlockAt(line, masked, i, s)
      case None => OpenersAgree(line, masked, i + 1, Lit.Next(s, masked[i]), Lit.Next(p, masked[i]))
      case Some((open, close)) =>
        var endIdx := IndexOf(line, close, i + |open|);
        endIdx == -1 ||
        OpenersAgree(line, masked, endIdx + |close|, Lit.StateFrom(s, masked, i, endIdx + |close|), p)
  }

  lemma {:induction false} CutsOfBlock(line: string, masked: string, i: nat, s: Lit.State, paused: bool)
    requires i < |line| == |masked| && !LineCommentAt(line, i)
    ensures match BlockAt(line, masked, i, s)
      case None => CutsFrom(line, masked, i, s, paused) == CutsFrom(line, masked, i + 1, Lit.Next(s, masked[i]), paused)
      case Some((open, close)) =>
        var endIdx := IndexOf(line, close, i + |open|);
        if endIdx == -1 then CutsFrom(line, masked, i, s, paused) == Cuts([(i, |line|)], Some(close))
        else
          var end := endIdx + |close|;
          var rest := CutsFrom(line, masked, end, if paused then s else Lit.StateFrom(s, masked, i, end), paused);
          CutsFrom(line, masked, i, s, paused) == Cuts([(i, end)] + rest.spans, rest.awaited)
  {
    hide IndexOf, LineCommentAt, BlockAt, Lit.StateFrom;
  }

  lemma {:induction false} AgreeOfBlock(line: string, masked: string, i: nat, s: Lit.State, p: Lit.State)
    requires i < |line| == |masked| && !LineCommentAt(line, i)
    ensures OpenersAgree(line, masked, i, s, p) <==>
      BlockAt(line, masked, i, s) == BlockAt(line, masked, i, p) &&
      match BlockAt(line, masked, i, s)
      case None => OpenersAgree(line, masked, i + 1, Lit.Next(s, masked[i]), Lit.Next(p, masked[i]))
      case Some((open, close)) =>
        var endIdx := IndexOf(line, close, i + |open|);
        endIdx == -1 ||
        OpenersAgree(line, masked, endIdx + |close|, Lit.StateFrom(s, masked, i, endIdx + |close|), p)
  {
    hide IndexOf, LineCommentAt, BlockAt, Lit.StateFrom;
  }

  lemma {:induction false} CutsStop(line: string, masked: string, i: nat, s: Lit.State, p: Lit.State)
    requires i <= |line| == |masked| && (i == |line| || LineCommentAt(line, i))
    ensures CutsFrom(line, masked, i, s, false) == CutsFrom(line, masked, i, p, true)
    ensures OpenersAgree(line, masked, i, s, p)
  {
    hide LineCommentAt, BlockAt;
  }

  /** If one state opens a block here and the other does not, only the first has a stretch from here. */
  lemma {:induction false} OneOpens(line: string, masked: string, i: nat, s: Lit.State, p: Lit.State)
    requires i < |line| == |masked| && !LineCommentAt(line, i)
    requires BlockAt(line, masked, i, s) != BlockAt(line, masked, i, p)
    ensures CutsFrom(line, masked, i, s, false).spans != CutsFrom(line, masked, i, p, true).spans
  {
    SameMarker(line, masked, i, s, p);
    CutsOfBlock(line, masked, i, s, false);
    CutsOfBlock(line, masked, i, p, true);
    hide IndexOf, LineCommentAt, BlockAt, CutsFrom, Lit.StateFrom;
    var a, b := CutsFrom(line, masked, i, s, false).spans, CutsFrom(line, masked, i, p, true).spans;
    if BlockAt(line, masked, i, s).Some? {
      assert |a| > 0 && a[0].0 == i;
      assert Within(line, i + 1, b);
    } else {
      assert |b| > 0 && b[0].0 == i;
      assert Within(line, i + 1, a);
    }
  }

  lemma {:induction false} SameMarker(line: string, masked: string, i: nat, s: Lit.State, p: Lit.State)
    ensures var a, b := BlockAt(line, masked, i, s), BlockAt(line, masked, i, p);
      a.Some? && b.Some? ==> a == b
  {
    hide HasAt;
  }

  /** On one line the same stretches are comments exactly when the openers agree. */
  lemma {:induction false} SameStretchesIff(line: string, masked: string, i: nat, s: Lit.State, p: Lit.State)
    requires i <= |line| == |masked|
    ensures CutsFrom(line, masked, i, s, false).spans == CutsFrom(line, masked, i, p, true).spans
       <==> OpenersAgree(line, masked, i, s, p)
    ensures OpenersAgree(line, masked, i, s, p) ==>
      CutsFrom(line, masked, i, s, false) == CutsFrom(line, masked, i, p, true)
    decreases |line| - i
  {
    hide IndexOf, LineCommentAt, BlockAt, CutsFrom, OpenersAgree, Lit.StateFrom, Lit.Next;
    if i == |line| || LineCommentAt(line, i) {
      CutsStop(line, masked, i, s, p);
    } else {
      AgreeOfBlock(line, masked, i, s, p);
      if BlockAt(line, masked, i, s) != BlockAt(line, masked, i, p) {
        OneOpens(line, masked, i, s, p);
      } else {
        CutsOfBlock(line, masked, i, s, false);
        CutsOfBlock(line, masked, i, p, true);
        match BlockAt(line, masked, i, s)
        case None => SameStretchesIff(line, masked, i + 1, Lit.Next(s, masked[i]), Lit.Next(p, masked[i]));
        case Some((open, close)) =>
          var endIdx := IndexOf(line, close, i + |open|);
          if endIdx != -1 {
            var end := endIdx + |close|;
            var t := Lit.StateFrom(s, masked, i, end);
            SameStretchesIff(line, masked, end, t, p);
            SameTail((i, end), CutsFrom(line, masked, end, t, false).spans, CutsFrom(line, masked, end, p, true).spans);
          }
      }
    }
  }

  lemma {:induction false} SameTail<T>(x: T, a: seq<T>, b: seq<T>)
    ensures [x] + a == [x] + b <==> a == b
  {
    assert ([x] + a)[1..] == a && ([x] + b)[1..] == b;
  }

  // ----- with a block comment carried in, and over all lines

  function LineCuts(line: string, masked: string, awaited: Option<string>, paused: bool): (r: Cuts)
    requires |line| == |masked|
    ensures Within(line, 0, r.spans)
  {
    match awaited
    case None => CutsFrom(line, masked, 0, Lit.Code, paused)
    case Some(close) =>
      var endIdx := IndexOf(line, close, 0);
      if endIdx == -1 then Cuts([(0, |line|)], awaited)
      else
        var end := endIdx + |close|;
        var rest := CutsFrom(line, masked, end, if paused then Lit.Code else Lit.StateAt(masked, end), paused);
        Cuts([(0, end)] + rest.spans, rest.awaited)
  }

  lemma {:induction false} LexLineIsCuts(line: string, masked: string, awaited: Option<string>, paused: bool)
    requires |line| == |masked|
    ensures LexLine(line, masked, awaited, paused) == ScanOf(line, LineCuts(line, masked, awaited, paused))
  {
    hide IndexOf, HasAt, Lex, CutsFrom, Lit.StateFrom;
    match awaited
    case None => LexIsCuts(line, masked, 0, Lit.Code, paused);
    case Some(close) =>
      var endIdx := IndexOf(line, close, 0);
      if endIdx == -1 {
        OnePiece(line, 0);
        assert line[0..] == line;
      } else {
        var end := endIdx + |close|;
        var rest := CutsFrom(line, masked, end, if paused then Lit.Code else Lit.StateAt(masked, end), paused);
        LexIsCuts(line, masked, end, if paused then Lit.Code else Lit.StateAt(masked, end), paused);
        assert ([(0 as nat, end)] + rest.spans)[1..] == rest.spans;
        assert line[0..end] == line[..end];
      }
  }

  predicate LineAgrees(line: string, masked: string, awaited: Option<string>)
    requires |line| == |masked|
  {
    match awaited
    case None => OpenersAgree(line, masked, 0, Lit.Code, Lit.Code)
    case Some(close) =>
      var endIdx := IndexOf(line, close, 0);
      endIdx == -1 ||
      OpenersAgree(line, masked, endIdx + |close|, Lit.StateAt(masked, endIdx + |close|), Lit.Code)
  }

  lemma {:induction false} SameLineIff(line: string, masked: string, awaited: Option<string>)
    requires |line| == |masked|
    ensures LineCuts(line, masked, awaited, false).spans == LineCuts(line, masked, awaited, true).spans
       <==> LineAgrees(line, masked, awaited)
    ensures LineAgrees(line, masked, awaited) ==>
      LineCuts(line, masked, awaited, false) == LineCuts(line, masked, awaited, true)
  {
    hide IndexOf, HasAt, CutsFrom, OpenersAgree, Lit.StateFrom;
    match awaited
    case None => SameStretchesIff(line, masked, 0, Lit.Code, Lit.Code);
    case Some(close) =>
      var endIdx := IndexOf(line, close, 0);
      if endIdx != -1 {
        var end := endIdx + |close|;
        var t := Lit.StateAt(masked, end);
        SameStretchesIff(line, masked, end, t, Lit.Code);
        SameTail((0, end), CutsFrom(line, masked, end, t, false).spans,
          CutsFrom(line, masked, end, Lit.Code, true).spans);
      }
  }

  /** The comment stretches of every line. */
  function Stretches(lines: seq<string>, mask: Mask, awaited: Option<string>, paused: bool): seq<seq<(nat, nat)>>
    decreases lines
  {
    if lines == [] then []
    else
      var cuts := LineCuts(lines[0], mask(lines[0]), awaited, paused);
      [cuts.spans] + Stretches(lines[1..], mask, cuts.awaited, paused)
  }

  /** The openers agree on every line, as the pausing lexer reaches it. */
  predicate LinesAgree(lines: seq<string>, mask: Mask, awaited: Option<string>)
    decreases lines
  {
    lines == [] ||
    (LineAgrees(lines[0], mask(lines[0]), awaited)
     && LinesAgree(lines[1..], mask, LineCuts(lines[0], mask(lines[0]), awaited, true).awaited))
  }

  /** The closer awaited after all the lines. */
  function AwaitedAfter(lines: seq<string>, mask: Mask, awaited: Option<string>, paused: bool): Option<string>
    decreases lines
  {
    if lines == [] then awaited
    else AwaitedAfter(lines[1..], mask, LexLine(lines[0], mask(lines[0]), awaited, paused).awaited, paused)
  }

  /**
   Searching and rescanning marks the same stretches of all lines as comments as a lexer that
   reads every line once, left to right, if and only if the openers agree on every line; the
   flags, the texts and the carried block state are then the same too.
   */
  lemma {:induction false} RescanIsOnePassIff(lines: seq<string>, mask: Mask, awaited: Option<string>)
    ensures Stretches(lines, mask, awaited, false) == Stretches(lines, mask, awaited, true)
       <==> LinesAgree(lines, mask, awaited)
    ensures LinesAgree(lines, mask, awaited) ==>
      && LexLines(lines, mask, awaited, false) == LexLines(lines, mask, awaited, true)
      && AwaitedAfter(lines, mask, awaited, false) == AwaitedAfter(lines, mask, awaited, true)
    decreases lines
  {
    if lines != [] {
      hide LineCuts, LexLine, LineAgrees;
      var line, masked := lines[0], mask(lines[0]);
      var a, b := LineCuts(line, masked, awaited, false), LineCuts(line, masked, awaited, true);
      SameLineIff(line, masked, awaited);
      LexLineIsCuts(line, masked, awaited, false);
      LexLineIsCuts(line, masked, awaited, true);
      RescanIsOnePassIff(lines[1..], mask, b.awaited);
      assert Stretches(lines, mask, awaited, false)[0] == a.spans;
      assert Stretches(lines, mask, awaited, true)[0] == b.spans;
      if a == b {
        SameTail(a.spans, Stretches(lines[1..], mask, b.awaited, false), Stretches(lines[1..], mask, b.awaited, true));
      }
    }
  }
}
