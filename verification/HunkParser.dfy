/**
 The unified-diff hunk parser: a counter machine over the lines of a diff, collecting
 the numbers of the new-file lines that the diff touches.
 */
module HunkParser {
  import opened Text

  /** The numbers of `@@ -a,b +c,d @@` that the parser keeps: b, c and d. */
  datatype Header = Header(oldCount: nat, newStart: nat, newCount: nat)

  /** Outside any hunk, or inside one with the counts still to be consumed. */
  datatype Cursor = Closed | Open(newLineNo: int, oldRemaining: int, newRemaining: int)

  datatype State = State(cursor: Cursor, touched: set<int>)

  const START: State := State(Closed, {})

  // ----- the header pattern  @@ -(\d+)(?:,(\d+))? \+(\d+)(?:,(\d+))? @@

  /** The end of the run of digits that starts at `i`. */
  function DigitsEnd(s: string, i: nat): (e: nat)
    requires i <= |s|
    ensures i <= e <= |s| && AllDigits(s[i..e]) && (e < |s| ==> !IsDigit(s[e]))
    decreases |s| - i
  {
    if i < |s| && IsDigit(s[i]) then
      var e := DigitsEnd(s, i + 1);
      assert s[i..e] == [s[i]] + s[i + 1..e];
      e
    else i
  }

  /** A number and an optional count (1 when absent) at `i`, with the position after them. */
  function RangeAt(s: string, i: nat): (r: Option<(nat, nat, nat)>)
    requires i <= |s|
    ensures r.Some? ==> i < r.value.2 <= |s|
  {
    var e := DigitsEnd(s, i);
    if e == i then None
    else if e < |s| && s[e] == ',' && DigitsEnd(s, e + 1) > e + 1 then
      var f := DigitsEnd(s, e + 1);
      Some((ParseDec(s[i..e]), ParseDec(s[e + 1..f]), f))
    else Some((ParseDec(s[i..e]), 1, e))
  }

  function HeaderAt(s: string, i: nat): Option<Header> {
    if !HasAt(s, "@@ -", i) then None
    else
      match RangeAt(s, i + 4)
      case None => None
      case Some((_, oldCount, p)) =>
        if !HasAt(s, " +", p) then None
        else
          match RangeAt(s, p + 2)
          case None => None
          case Some((newStart, newCount, q)) =>
            if HasAt(s, " @@", q) then Some(Header(oldCount, newStart, newCount)) else None
  }

  /** The leftmost match of the header pattern at or after `i`. */
  function FindHeader(s: string, i: nat): Option<Header>
    decreases |s| - i
  {
    if i >= |s| then None
    else if HeaderAt(s, i).Some? then HeaderAt(s, i)
    else FindHeader(s, i + 1)
  }

  // ----- the machine

  function CloseIfSpent(c: Cursor): Cursor {
    if c.Open? && c.oldRemaining == 0 && c.newRemaining == 0 then Closed else c
  }

  function Step(st: State, raw: string): State {
    if StartsWith(raw, "diff --git ") then st.(cursor := Closed)
    else
      var c := CloseIfSpent(st.cursor);
      if StartsWith(raw, "@@") then
        match FindHeader(raw, 0)
        case Some(h) => st.(cursor := Open(h.newStart - 1, h.oldCount, h.newCount))
        case None => st.(cursor := c)
      else if c.Closed? then st.(cursor := c)
      else if StartsWith(raw, " ") then
        st.(cursor := Open(c.newLineNo + 1, c.oldRemaining - 1, c.newRemaining - 1))
      else if StartsWith(raw, "-") then
        State(c.(oldRemaining := c.oldRemaining - 1), st.touched + {c.newLineNo, c.newLineNo + 1})
      else if StartsWith(raw, "+") then
        State(Open(c.newLineNo + 1, c.oldRemaining, c.newRemaining - 1), st.touched + {c.newLineNo + 1})
      else st.(cursor := c)
  }

  function Run(st: State, lines: seq<string>): State
    decreases lines
  {
    if lines == [] then st else Run(Step(st, lines[0]), lines[1..])
  }

  function Touched(diffText: string): set<int> {
    Run(START, Split(diffText, {'\n'})).touched
  }

  /** The loop of the source, which leaves its counters unset until a header sets them. */
  method TouchedLineNumbers(diffText: string) returns (touched: set<int>)
    ensures touched == Touched(diffText)
  {
    touched := {};
    var newLineNo: int, oldRemaining: int, newRemaining: int := *, *, *;
    var inHunk := false;
    var lines := Split(diffText, {'\n'});
    for i := 0 to |lines|
      invariant Run(State(if inHunk then Open(newLineNo, oldRemaining, newRemaining) else Closed, touched),
                    lines[i..]).touched == Touched(diffText)
    {
      var raw := lines[i];
      assert lines[i..][1..] == lines[i + 1..];
      if StartsWith(raw, "diff --git ") {
        inHunk := false;
        continue;
      }
      if inHunk && oldRemaining == 0 && newRemaining == 0 {
        inHunk := false;
      }
      if StartsWith(raw, "@@") {
        var m := FindHeader(raw, 0);
        if m.Some? {
          oldRemaining := m.value.oldCount;
          newRemaining := m.value.newCount;
          newLineNo := m.value.newStart - 1;
          inHunk := true;
        }
        continue;
      }
      if !inHunk {
        continue;
      }
      if StartsWith(raw, " ") {
        newLineNo := newLineNo + 1;
        oldRemaining := oldRemaining - 1;
        newRemaining := newRemaining - 1;
        continue;
      }
      if StartsWith(raw, "-") {
        oldRemaining := oldRemaining - 1;
        ghost var before := touched;
        touched := touched + {newLineNo};
        touched := touched + {newLineNo + 1};
        assert touched == before + {newLineNo, newLineNo + 1};
        continue;
      }
      if StartsWith(raw, "+") {
        newLineNo := newLineNo + 1;
        newRemaining := newRemaining - 1;
        touched := touched + {newLineNo};
        continue;
      }
    }
  }

  // ----- how runs compose

  lemma RunCons(st: State, line: string, rest: seq<string>)
    ensures Run(st, [line] + rest) == Run(Step(st, line), rest)
  {
    hide Step;
    assert ([line] + rest)[1..] == rest;
  }

  lemma {:induction false} RunConcat(st: State, a: seq<string>, b: seq<string>)
    ensures Run(st, a + b) == Run(Run(st, a), b)
    decreases a
  {
    hide Step;
    if a == [] {
      assert a + b == b;
    } else {
      assert (a + b)[1..] == a[1..] + b;
      RunConcat(Step(st, a[0]), a[1..], b);
    }
  }

  /** What was touched before never influences what is touched later, and is never lost. */
  lemma {:induction false} RunAccumulates(c: Cursor, t: set<int>, lines: seq<string>)
    ensures Run(State(c, t), lines) == State(Run(State(c, {}), lines).cursor, t + Run(State(c, {}), lines).touched)
    decreases lines
  {
    if lines != [] {
      var s, s0 := Step(State(c, t), lines[0]), Step(State(c, {}), lines[0]);
      assert s.cursor == s0.cursor && s.touched == t + s0.touched;
      RunAccumulates(s0.cursor, s.touched, lines[1..]);
      RunAccumulates(s0.cursor, s0.touched, lines[1..]);
    }
  }

  /**
   The hard reset: whatever came before a `diff --git` line, well formed or lying about its
   counts, the lines after it are read as if they were a diff of their own.
   */
  lemma DiffGitResets(before: seq<string>, line: string, after: seq<string>)
    requires StartsWith(line, "diff --git ")
    ensures Run(START, before + [line] + after).touched
         == Run(START, before).touched + Run(START, after).touched
  {
    RunConcat(START, before + [line], after);
    RunConcat(START, before, [line]);
    assert [line][1..] == [];
    RunAccumulates(Closed, Run(START, before).touched, after);
  }
}
