/**
 The comment text of each line of a file: the search-and-rescan loop of the source, and the
 single left-to-right lexer that it amounts to.
 */
module CommentLexer {
  import opened Text
  import Lit = StringLiterals

  datatype Class = Class(isComment: bool, text: string)

  /** What one line yields: its comment text, whether it has any, and the closer still awaited. */
  datatype Scan = Scan(text: string, sawComment: bool, awaited: Option<string>) {
    function AsClass(): Class { if sawComment then Class(true, text) else Class(false, "") }
  }

  /** How regex literals are blanked before quotes are counted: any length-preserving way. */
  type Mask = f: string -> string | forall s :: |f(s)| == |s| witness (s: string) => s

  const MARKERS: seq<(string, string)> := [("/*", "*/"), ("<!--", "-->")]

  predicate LineCommentAt(line: string, i: int) {
    HasAt(line, "//", i) || HasAt(line, "#", i)
  }

  /** The block comment that opens at `i`, in lexical state `s`. */
  function BlockAt(line: string, masked: string, i: nat, s: Lit.State): (m: Option<(string, string)>)
    ensures m.Some? ==> HasAt(line, m.value.0, i) && |m.value.0| > 0 && |m.value.1| > 0
  {
    if Lit.Inside(s, masked, i) then None
    else if HasAt(line, MARKERS[0].0, i) then Some(MARKERS[0])
    else if HasAt(line, MARKERS[1].0, i) then Some(MARKERS[1])
    else None
  }

  /**
   The left-to-right lexer from `i` on, in lexical state `s`. When `paused`, the text of a
   block comment is not code and leaves the lexical state alone, as a tokenizer would have it;
   otherwise its quotes and braces count too, which is what rescanning from column 0 does.
   */
  function Lex(line: string, masked: string, i: nat, s: Lit.State, paused: bool): Scan
    requires i <= |line| == |masked|
    decreases |line| - i
  {
    if i == |line| then Scan("", false, None)
    else if LineCommentAt(line, i) then Scan(line[i..], true, None)
    else
      match BlockAt(line, masked, i, s)
      case None => Lex(line, masked, i + 1, Lit.Next(s, masked[i]), paused)
      case Some((open, close)) =>
        var endIdx := IndexOf(line, close, i + |open|);
        if endIdx == -1 then Scan(line[i..], true, Some(close))
        else
          var end := endIdx + |close|;
          var rest := Lex(line, masked, end, if paused then s else Lit.StateFrom(s, masked, i, end), paused);
          Scan(line[i..end] + rest.text, true, rest.awaited)
  }

  function LexLine(line: string, masked: string, awaited: Option<string>, paused: bool): Scan
    requires |line| == |masked|
  {
    match awaited
    case None => Lex(line, masked, 0, Lit.Code, paused)
    case Some(close) =>
      var endIdx := IndexOf(line, close, 0);
      if endIdx == -1 then Scan(line, true, awaited)
      else
        var end := endIdx + |close|;
        var rest := Lex(line, masked, end, if paused then Lit.Code else Lit.StateAt(masked, end), paused);
        Scan(line[..end] + rest.text, true, rest.awaited)
  }

  function LexLines(lines: seq<string>, mask: Mask, awaited: Option<string>, paused: bool): (r: seq<Class>)
    ensures |r| == |lines|
    decreases lines
  {
    if lines == [] then []
    else
      var scan := LexLine(lines[0], mask(lines[0]), awaited, paused);
      [scan.AsClass()] + LexLines(lines[1..], mask, scan.awaited, paused)
  }

  /** The closer awaited after the first `k` lines. */
  function AwaitedAt(lines: seq<string>, mask: Mask, k: nat): Option<string>
    requires k <= |lines|
  {
    if k == 0 then None
    else LexLine(lines[k - 1], mask(lines[k - 1]), AwaitedAt(lines, mask, k - 1), false).awaited
  }

  /** In a prose file every line that is not blank is comment text. */
  function ProseClasses(lines: seq<string>): (r: seq<Class>)
    ensures |r| == |lines|
    ensures forall i | 0 <= i < |lines| :: r[i] == Class(Trim(lines[i]) != "", lines[i])
  {
    seq(|lines|, i requires 0 <= i < |lines| => Class(Trim(lines[i]) != "", lines[i]))
  }

  function Classify(lines: seq<string>, prose: bool, mask: Mask): (r: seq<Class>)
    ensures |r| == |lines|
  {
    if prose then ProseClasses(lines)
    else LexLines(lines, mask, None, false)
  }

  // ----- the loops of the source

  /** No comment opens at `i` or later, before `k`. */
  predicate Quiet(line: string, masked: string, i: nat, k: nat)
    requires k <= |line| == |masked|
  {
    forall j :: i <= j < k ==> !LineCommentAt(line, j) && BlockAt(line, masked, j, Lit.StateAt(masked, j)).None?
  }

  /** What the rescanning loop computes from `i` on. */
  function Rescan(line: string, masked: string, i: nat): Scan
    requires i <= |line| == |masked|
  {
    Lex(line, masked, i, Lit.StateAt(masked, i), false)
  }

  lemma {:induction false} QuietSkips(line: string, masked: string, i: nat, k: nat)
    requires i <= k <= |line| == |masked| && Quiet(line, masked, i, k)
    ensures Rescan(line, masked, i) == Rescan(line, masked, k)
    decreases k - i
  {
    if i < k {
      QuietSkips(line, masked, i + 1, k);
      assert Lit.StateAt(masked, i + 1) == Lit.Next(Lit.StateAt(masked, i), masked[i]);
    }
  }

  lemma RescanLineComment(line: string, masked: string, i: nat, k: nat)
    requires i <= k < |line| == |masked| && Quiet(line, masked, i, k) && LineCommentAt(line, k)
    ensures Rescan(line, masked, i) == Scan(line[k..], true, None)
  {
    QuietSkips(line, masked, i, k);
  }

  lemma RescanEnd(line: string, masked: string)
    requires |line| == |masked|
    ensures Rescan(line, masked, |line|) == Scan("", false, None)
  {
  }

  /** A block comment that opens at `k`, and the rest of the line after it. */
  function BlockThen(line: string, k: nat, endIdx: int, close: string, rest: Scan): Scan
    requires k <= |line| && (endIdx == -1 || k <= endIdx + |close| <= |line|)
  {
    if endIdx == -1 then Scan(line[k..], true, Some(close))
    else Scan(line[k..endIdx + |close|] + rest.text, true, rest.awaited)
  }

  /** The scan of a line whose text so far comes before what `rest` finds. */
  function After(text: string, sawComment: bool, rest: Scan): Scan {
    Scan(text + rest.text, sawComment || rest.sawComment, rest.awaited)
  }

  lemma AfterBlock(text: string, sawComment: bool, line: string, k: nat, endIdx: int, close: string, rest: Scan)
    requires k <= |line| && (endIdx == -1 || k <= endIdx + |close| <= |line|)
    ensures After(text, sawComment, BlockThen(line, k, endIdx, close, rest)) ==
      if endIdx == -1 then Scan(text + line[k..], true, Some(close))
      else After(text + line[k..endIdx + |close|], true, rest)
  {
    if endIdx != -1 {
      Assoc(text, line[k..endIdx + |close|], rest.text);
    }
  }

  lemma AfterNothing(text: string, sawComment: bool)
    ensures After(text, sawComment, Scan("", false, None)) == Scan(text, sawComment, None)
    ensures forall rest :: After("", false, rest) == rest
  {
    Assoc(text, "", "");
    forall rest: Scan ensures After("", false, rest) == rest {
      Assoc(rest.text, "", "");
    }
  }

  lemma AfterLineComment(text: string, sawComment: bool, comment: string)
    ensures After(text, sawComment, Scan(comment, true, None)) == Scan(text + comment, true, None)
  {
  }

  lemma LexNone(line: string, masked: string, k: nat, s: Lit.State, paused: bool)
    requires k < |line| == |masked| && !LineCommentAt(line, k) && BlockAt(line, masked, k, s).None?
    ensures Lex(line, masked, k, s, paused) == Lex(line, masked, k + 1, Lit.Next(s, masked[k]), paused)
  {
    hide LineCommentAt, BlockAt;
  }

  lemma LexBlock(line: string, masked: string, k: nat, s: Lit.State, paused: bool, open: string, close: string)
    requires k < |line| == |masked| && !LineCommentAt(line, k) && BlockAt(line, masked, k, s) == Some((open, close))
    ensures var endIdx := IndexOf(line, close, k + |open|);
      if endIdx == -1 then Lex(line, masked, k, s, paused) == Scan(line[k..], true, Some(close))
      else
        var end := endIdx + |close|;
        Lex(line, masked, k, s, paused) == BlockThen(line, k, endIdx, close,
          Lex(line, masked, end, if paused then s else Lit.StateFrom(s, masked, k, end), paused))
  {
    hide IndexOf, HasAt, LineCommentAt, BlockAt, Lit.StateFrom;
  }

  lemma RescanBlock(line: string, masked: string, i: nat, k: nat, open: string, close: string)
    requires i <= k < |line| == |masked| && Quiet(line, masked, i, k) && !LineCommentAt(line, k)
    requires BlockAt(line, masked, k, Lit.StateAt(masked, k)) == Some((open, close))
    ensures var endIdx := IndexOf(line, close, k + |open|);
      if endIdx == -1 then Rescan(line, masked, i) == Scan(line[k..], true, Some(close))
      else Rescan(line, masked, i) == BlockThen(line, k, endIdx, close, Rescan(line, masked, endIdx + |close|))
  {
    hide Lex, IndexOf, HasAt, Quiet, LineCommentAt, BlockAt, Lit.StateFrom, BlockThen;
    QuietSkips(line, masked, i, k);
    var s, endIdx := Lit.StateAt(masked, k), IndexOf(line, close, k + |open|);
    LexBlock(line, masked, k, s, false, open, close);
    if endIdx != -1 {
      var end := endIdx + |close|;
      Lit.StateFromSplit(Lit.Code, masked, 0, k, end);
      assert Lit.StateAt(masked, end) == Lit.StateFrom(s, masked, k, end);
    }
  }

  /** The earliest line-comment marker of `line` from `pos` on, as an index into the rest. */
  function LineCommentIndex(line: string, pos: nat): (idx: int)
    requires pos <= |line|
    ensures idx == -1 || (0 <= idx < |line| - pos && LineCommentAt(line, pos + idx))
    ensures forall j :: pos <= j && (idx == -1 || j < pos + idx) ==> !LineCommentAt(line, j)
  {
    var rest := line[pos..];
    var slashes, hash := IndexOf(rest, "//", 0), IndexOf(rest, "#", 0);
    IndexOfDrop(line, pos, "//", 0);
    IndexOfDrop(line, pos, "#", 0);
    if slashes == -1 || (hash != -1 && hash < slashes) then hash else slashes
  }

  /** No two markers start at the same place. */
  lemma MarkersDiffer(line: string, i: nat)
    ensures !(HasAt(line, "/*", i) && HasAt(line, "<!--", i))
    ensures HasAt(line, "/*", i) || HasAt(line, "<!--", i) ==> !LineCommentAt(line, i)
  {
    if HasAt(line, "/*", i) {
      assert line[i] == line[i..i + 2][0] == '/' && line[i + 1] == line[i..i + 2][1] == '*';
    }
    if HasAt(line, "<!--", i) {
      assert line[i] == line[i..i + 4][0] == '<';
    }
    if HasAt(line, "//", i) {
      assert line[i] == line[i..i + 2][0] == '/' && line[i + 1] == line[i..i + 2][1] == '/';
    }
    if HasAt(line, "#", i) {
      assert line[i] == line[i..i + 1][0] == '#';
    }
  }

  /** Marker `m` opens at `j`, outside every string literal. */
  predicate Opening(line: string, masked: string, m: nat, j: nat)
    requires m < |MARKERS| && j <= |line| == |masked|
  {
    HasAt(line, MARKERS[m].0, j) && !Lit.InsideAt(masked, j)
  }

  lemma OpeningIsBlock(line: string, masked: string, j: nat)
    requires j <= |line| == |masked|
    ensures var block := BlockAt(line, masked, j, Lit.StateAt(masked, j));
      && (block.None? <==> !Opening(line, masked, 0, j) && !Opening(line, masked, 1, j))
      && (Opening(line, masked, 0, j) ==> block == Some(MARKERS[0]))
      && (Opening(line, masked, 1, j) ==> block == Some(MARKERS[1]))
    ensures BlockAt(line, masked, j, Lit.StateAt(masked, j)).Some? ==> !LineCommentAt(line, j)
  {
    MarkersDiffer(line, j);
  }

  /** The opener found in the rest of the line is the first in the line from `pos` on. */
  method FirstOpening(line: string, masked: string, pos: nat, m: nat) returns (idx: int)
    requires pos <= |line| == |masked| && m < |MARKERS|
    ensures idx == -1 || 0 <= idx < |line| - pos
    ensures idx != -1 ==> Opening(line, masked, m, pos + idx)
    ensures forall j :: pos <= j < (if idx == -1 then |line| else pos + idx) ==> !Opening(line, masked, m, j)
  {
    var rest := line[pos..];
    idx := Lit.FindBlockOpenIndex(masked, pos, rest, MARKERS[m].0);
    forall j | pos <= j < |line|
      ensures Opening(line, masked, m, j) <==> Lit.OpensAt(masked, pos, rest, MARKERS[m].0, j - pos)
    {
      HasAtDrop(line, pos, MARKERS[m].0, j - pos);
    }
  }

  /** The earliest block-comment opener of `line` from `pos` on, as an index into the rest. */
  method EarliestBlock(line: string, masked: string, pos: nat) returns (found: int, open: string, close: string)
    requires pos <= |line| == |masked|
    ensures found == -1 || 0 <= found < |line| - pos
    ensures found != -1 ==> !LineCommentAt(line, pos + found)
    ensures found != -1 ==>
      BlockAt(line, masked, pos + found, Lit.StateAt(masked, pos + found)) == Some((open, close))
    ensures forall j :: pos <= j < (if found == -1 then |line| else pos + found) ==>
      BlockAt(line, masked, j, Lit.StateAt(masked, j)).None?
  {
    hide BlockAt, Opening;
    found, open, close := -1, "", "";
    for k := 0 to |MARKERS|
      invariant found == -1 || 0 <= found < |line| - pos
      invariant found != -1 ==>
        exists m :: 0 <= m < k && MARKERS[m] == (open, close) && Opening(line, masked, m, pos + found)
      invariant forall m, j :: 0 <= m < k && pos <= j < (if found == -1 then |line| else pos + found) ==>
        !Opening(line, masked, m, j)
    {
      var idx := FirstOpening(line, masked, pos, k);
      if idx != -1 && (found == -1 || idx < found) {
        found, open, close := idx, MARKERS[k].0, MARKERS[k].1;
      }
    }
    if found != -1 {
      OpeningIsBlock(line, masked, pos + found);
    }
    forall j | pos <= j < (if found == -1 then |line| else pos + found)
      ensures BlockAt(line, masked, j, Lit.StateAt(masked, j)).None?
    {
      OpeningIsBlock(line, masked, j);
    }
  }

  /** The loop that consumes every remaining comment segment of a line. */
  method ScanSegments(line: string, masked: string, from: nat)
    returns (text: string, sawComment: bool, blockClose: Option<string>)
    requires from <= |line| == |masked|
    ensures Scan(text, sawComment, blockClose) == Rescan(line, masked, from)
  {
    hide Rescan, After, IndexOf, HasAt, LineCommentAt, BlockAt, LineCommentIndex;
    RescanEnd(line, masked);
    AfterNothing("", false);
    text, sawComment, blockClose := "", false, None;
    var pos := from;
    while pos < |line|
      invariant from <= pos <= |line| && blockClose == None
      invariant Rescan(line, masked, from) == After(text, sawComment, Rescan(line, masked, pos))
    {
      var rest := line[pos..];
      var blockIdx, open, close := EarliestBlock(line, masked, pos);
      var lineIdx := LineCommentIndex(line, pos);
      if blockIdx == -1 && lineIdx == -1 {
        QuietSkips(line, masked, pos, |line|);
        AfterNothing(text, sawComment);
        return;
      }
      if lineIdx != -1 && (blockIdx == -1 || lineIdx < blockIdx) {
        RescanLineComment(line, masked, pos, pos + lineIdx);
        SliceOfDrop(line, pos, lineIdx, lineIdx);
        AfterLineComment(text, sawComment, rest[lineIdx..]);
        text := text + rest[lineIdx..];
        sawComment := true;
        return;
      }
      ghost var k := pos + blockIdx;
      RescanBlock(line, masked, pos, k, open, close);
      var endIdx := IndexOf(rest, close, blockIdx + |open|);
      IndexOfDrop(line, pos, close, blockIdx + |open|);
      SliceOfDrop(line, pos, blockIdx, if endIdx == -1 then blockIdx else endIdx + |close|);
      if endIdx == -1 {
        AfterBlock(text, sawComment, line, k, -1, close, Scan("", false, None));
        text := text + rest[blockIdx..];
        sawComment := true;
        blockClose := Some(close);
        return;
      }
      AfterBlock(text, sawComment, line, k, pos + endIdx, close, Rescan(line, masked, pos + endIdx + |close|));
      text := text + rest[blockIdx..endIdx + |close|];
      sawComment := true;
      pos := pos + endIdx + |close|;
    }
    AfterNothing(text, sawComment);
  }

  /** One line of the source's outer loop. */
  method ClassifyLine(line: string, lineForQuoteScan: string, awaited: Option<string>)
    returns (result: Class, blockClose: Option<string>)
    requires |line| == |lineForQuoteScan|
    ensures var scan := LexLine(line, lineForQuoteScan, awaited, false);
      result == scan.AsClass() && blockClose == scan.awaited
  {
    hide IndexOf, HasAt, Lex;
    var text, sawComment, pos := "", false, 0;
    if awaited.Some? {
      var endIdx := IndexOf(line, awaited.value, 0);
      if endIdx == -1 {
        return Class(true, line), awaited;
      }
      text := line[..endIdx + |awaited.value|];
      sawComment := true;
      pos := endIdx + |awaited.value|;
    }
    var more, saw, close := ScanSegments(line, lineForQuoteScan, pos);
    text := text + more;
    sawComment := sawComment || saw;
    return if sawComment then Class(true, text) else Class(false, ""), close;
  }

  lemma LexLinesStep(lines: seq<string>, i: nat, mask: Mask, awaited: Option<string>)
    requires i < |lines|
    ensures var scan := LexLine(lines[i], mask(lines[i]), awaited, false);
      LexLines(lines[i..], mask, awaited, false)
      == [scan.AsClass()] + LexLines(lines[i + 1..], mask, scan.awaited, false)
  {
    hide LexLine;
    assert lines[i..][1..] == lines[i + 1..];
  }

  method ClassifyLines(lines: seq<string>, treatEveryLineAsComment: bool, mask: Mask) returns (result: seq<Class>)
    ensures result == Classify(lines, treatEveryLineAsComment, mask)
  {
    if treatEveryLineAsComment {
      return ProseClasses(lines);
    }
    result := [];
    var blockClose: Option<string> := None;
    ghost var rest := LexLines(lines, mask, None, false);
    hide LexLine, LexLines;
    assert lines[0..] == lines;
    for lineIndex := 0 to |lines|
      invariant rest == LexLines(lines[lineIndex..], mask, blockClose, false)
      invariant result + rest == LexLines(lines, mask, None, false)
    {
      LexLinesStep(lines, lineIndex, mask, blockClose);
      var line := lines[lineIndex];
      var lineClass, awaited := ClassifyLine(line, mask(line), blockClose);
      rest := LexLines(lines[lineIndex + 1..], mask, awaited, false);
      Assoc(result, [lineClass], rest);
      result := result + [lineClass];
      blockClose := awaited;
    }
  }
}
