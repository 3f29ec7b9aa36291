/** The gate itself: which changed files have a touched comment span that breaks the rules. */
module ReviewGate {
  import opened Text
  import opened HunkParser
  import opened CommentLexer
  import opened SpanFinder

  /** The regular expressions of the gate, as arbitrary predicates on span text and file names. */
  datatype Rules = Rules(
    processReference: string -> bool,
    classification: string -> bool,
    statusAssertion: string -> bool,
    proseFile: string -> bool,
    mask: Mask
  ) {
    predicate Violated(text: string) {
      (processReference(text) && classification(text)) || statusAssertion(text)
    }
  }

  /**
   A changed file as the gate's environment presents it. A diff is None when computing it
   fails, the content when it cannot be read, the staged content when nothing is staged.
   */
  datatype ChangedFile = ChangedFile(
    name: string,
    worktreeDiff: Option<string>,
    stagedDiff: Option<string>,
    content: Option<string>,
    stagedContent: Option<string>
  )

  datatype Violation = Violation(file: string, startLine: nat)

  /** The gate's own source and tests, which have to quote the phrases that it looks for. */
  predicate SelfExempt(name: string) {
    name == "scripts/check-reviewer-directed-comments.mjs"
    || name == "scripts/test/check-reviewer-directed-comments.test.mjs"
  }

  predicate TouchesSpan(span: Span, touched: set<int>) {
    exists ln :: span.startLine <= ln <= span.endLine && ln in touched
  }

  /** Of `spans`, those with a touched line. */
  function TouchedSpans(spans: seq<Span>, touched: set<int>): seq<Span> {
    if spans == [] then []
    else if TouchesSpan(spans[0], touched) then [spans[0]] + TouchedSpans(spans[1..], touched)
    else TouchedSpans(spans[1..], touched)
  }

  function Offenders(rules: Rules, file: string, spans: seq<Span>): seq<Violation> {
    if spans == [] then []
    else if rules.Violated(spans[0].text) then
      [Violation(file, spans[0].startLine)] + Offenders(rules, file, spans[1..])
    else Offenders(rules, file, spans[1..])
  }

  function Classes(rules: Rules, file: string, content: string): seq<Class> {
    Classify(Split(content, {'\n'}), rules.proseFile(file), rules.mask)
  }

  function ScannedSpans(rules: Rules, file: string, diffText: string, content: string): seq<Span> {
    TouchedSpans(Spans(Classes(rules, file, content)), Touched(diffText))
  }

  /** What the scan of one state of a file records, if there is something to scan. */
  function FileOffendersIn(rules: Rules, name: string, diffText: Option<string>, content: Option<string>)
    : seq<Violation>
  {
    if diffText.None? || content.None? then []
    else Offenders(rules, name, ScannedSpans(rules, name, diffText.value, content.value))
  }

  /** How many spans that scan looks at. */
  function SpansIn(rules: Rules, name: string, diffText: Option<string>, content: Option<string>): nat {
    if diffText.Some? && content.Some? then |ScannedSpans(rules, name, diffText.value, content.value)| else 0
  }

  function FileOffenders(rules: Rules, f: ChangedFile): seq<Violation> {
    FileOffendersIn(rules, f.name, f.worktreeDiff, f.content)
    + FileOffendersIn(rules, f.name, f.stagedDiff, f.stagedContent)
  }

  // ----- the scan, with the two variables that it updates

  class Tally {
    var violations: seq<Violation>
    var spanCount: nat

    constructor ()
      ensures violations == [] && spanCount == 0
    {
      violations, spanCount := [], 0;
    }

    /** The worktree state, unless it cannot be read, and the staged state, if there is one. */
    method ScanFile(rules: Rules, f: ChangedFile)
      requires f.worktreeDiff.Some? && f.stagedDiff.Some?
      modifies this
      ensures violations == old(violations) + FileOffenders(rules, f)
      ensures spanCount == old(spanCount)
        + SpansIn(rules, f.name, f.worktreeDiff, f.content) + SpansIn(rules, f.name, f.stagedDiff, f.stagedContent)
    {
      hide Offenders, ScannedSpans;
      ghost var first := FileOffendersIn(rules, f.name, f.worktreeDiff, f.content);
      ghost var second := FileOffendersIn(rules, f.name, f.stagedDiff, f.stagedContent);
      Assoc(violations, first, second);
      Assoc(violations, [], []);
      if f.content.Some? {
        Scan(rules, f.name, f.worktreeDiff.value, f.content.value);
      }
      if f.stagedContent.Some? {
        Scan(rules, f.name, f.stagedDiff.value, f.stagedContent.value);
      }
    }

    /** Scans one state of a file; only touched spans count, and only violating ones are kept. */
    method Scan(rules: Rules, file: string, diffText: string, content: string)
      modifies this
      ensures violations == old(violations) + Offenders(rules, file, ScannedSpans(rules, file, diffText, content))
      ensures spanCount == old(spanCount) + |ScannedSpans(rules, file, diffText, content)|
    {
      hide Touched, Offenders;
      var touchedLines := TouchedLineNumbers(diffText);
      if touchedLines == {} {
        NoneTouched(Spans(Classes(rules, file, content)));
        NoOffenders(rules, file);
        return;
      }
      ghost var cl := Classes(rules, file, content);
      var spans := CommentSpans(Split(content, {'\n'}), rules.proseFile(file), rules.mask);
      assert spans == Spans(cl);
      ScanSpans(rules, file, spans, touchedLines);
    }

    /** The loop of the scan. */
    method ScanSpans(rules: Rules, file: string, spans: seq<Span>, touchedLines: set<int>)
      modifies this
      ensures violations == old(violations) + Offenders(rules, file, TouchedSpans(spans, touchedLines))
      ensures spanCount == old(spanCount) + |TouchedSpans(spans, touchedLines)|
    {
      hide TouchedSpans, Offenders, TouchesSpan;
      ghost var todo := TouchedSpans(spans, touchedLines);
      ghost var all := old(violations) + Offenders(rules, file, todo);
      assert spans[0..] == spans;
      for i := 0 to |spans|
        invariant todo == TouchedSpans(spans[i..], touchedLines)
        invariant spanCount + |todo| == old(spanCount) + |TouchedSpans(spans, touchedLines)|
        invariant violations + Offenders(rules, file, todo) == all
      {
        var span := spans[i];
        NextTouched(spans, i, touchedLines);
        var touched := HasTouchedLine(span, touchedLines);
        if !touched {
          continue;
        }
        OffendersCons(rules, file, span, todo[1..]);
        todo := todo[1..];
        spanCount := spanCount + 1;
        if rules.Violated(span.text) {
          Assoc(violations, [Violation(file, span.startLine)], Offenders(rules, file, todo));
          violations := violations + [Violation(file, span.startLine)];
        }
      }
      NextTouched(spans, |spans|, touchedLines);
      NoOffenders(rules, file);
    }
  }

  /** The loop over a span's line numbers. */
  method HasTouchedLine(span: Span, touchedLines: set<int>) returns (touched: bool)
    ensures touched <==> TouchesSpan(span, touchedLines)
  {
    var ln := span.startLine;
    while ln <= span.endLine
      invariant span.startLine <= ln
      invariant forall l :: span.startLine <= l < ln ==> l !in touchedLines
    {
      if ln in touchedLines {
        return true;
      }
      ln := ln + 1;
    }
    return false;
  }

  lemma NextTouched(spans: seq<Span>, i: nat, touched: set<int>)
    requires i <= |spans|
    ensures TouchedSpans(spans[i..], touched) ==
      if i == |spans| then []
      else if TouchesSpan(spans[i], touched) then [spans[i]] + TouchedSpans(spans[i + 1..], touched)
      else TouchedSpans(spans[i + 1..], touched)
  {
    if i < |spans| {
      assert spans[i..][1..] == spans[i + 1..];
    }
  }

  lemma OffendersCons(rules: Rules, file: string, span: Span, rest: seq<Span>)
    ensures Offenders(rules, file, [span] + rest) ==
      if rules.Violated(span.text) then [Violation(file, span.startLine)] + Offenders(rules, file, rest)
      else Offenders(rules, file, rest)
  {
    assert ([span] + rest)[1..] == rest;
  }

  lemma NoOffenders(rules: Rules, file: string)
    ensures Offenders(rules, file, []) == []
  {
  }

  lemma {:induction false} NoneTouched(spans: seq<Span>)
    ensures TouchedSpans(spans, {}) == []
  {
    if spans != [] {
      NoneTouched(spans[1..]);
    }
  }

  // ----- the gate

  function AllOffenders(rules: Rules, files: seq<ChangedFile>): seq<Violation> {
    if files == [] then []
    else if SelfExempt(files[0].name) then AllOffenders(rules, files[1..])
    else FileOffenders(rules, files[0]) + AllOffenders(rules, files[1..])
  }

  predicate DiffFails(f: ChangedFile) {
    !SelfExempt(f.name) && (f.worktreeDiff.None? || f.stagedDiff.None?)
  }

  predicate SomeDiffFails(files: seq<ChangedFile>) {
    exists f :: f in files && DiffFails(f)
  }

  /** The baseline, the list of changed files or the diff of a scanned file is not to be had. */
  predicate CannotCompute(base: Option<string>, resolved: Option<string>, files: Option<seq<ChangedFile>>) {
    var b := if base.Some? then base else resolved;
    b.None? || b.value == "" || files.None? || SomeDiffFails(files.value)
  }

  /** A maximal comment span of this state of the file has a touched line and breaks the rules. */
  ghost predicate BreaksRules(rules: Rules, file: string, diffText: string, content: string) {
    exists span :: Breaks(rules, Classes(rules, file, content), Touched(diffText), span)
  }

  predicate Breaks(rules: Rules, cl: seq<Class>, touched: set<int>, span: Span) {
    IsSpanOf(cl, span) && TouchesSpan(span, touched) && rules.Violated(span.text)
  }

  ghost predicate Bad(rules: Rules, f: ChangedFile) {
    && !SelfExempt(f.name)
    && ((f.worktreeDiff.Some? && f.content.Some? && BreaksRules(rules, f.name, f.worktreeDiff.value, f.content.value))
     || (f.stagedDiff.Some? && f.stagedContent.Some?
       && BreaksRules(rules, f.name, f.stagedDiff.value, f.stagedContent.value)))
  }

  /** `v` names a file and the first line of a span in it that breaks the rules. */
  ghost predicate BreaksAt(rules: Rules, file: string, diffText: string, content: string, v: Violation) {
    exists span ::
      Breaks(rules, Classes(rules, file, content), Touched(diffText), span) && v == Violation(file, span.startLine)
  }

  ghost predicate Flags(rules: Rules, f: ChangedFile, v: Violation) {
    && !SelfExempt(f.name)
    && ((f.worktreeDiff.Some? && f.content.Some? && BreaksAt(rules, f.name, f.worktreeDiff.value, f.content.value, v))
     || (f.stagedDiff.Some? && f.stagedContent.Some?
       && BreaksAt(rules, f.name, f.stagedDiff.value, f.stagedContent.value, v)))
  }

  ghost predicate SomeFlags(rules: Rules, files: seq<ChangedFile>, v: Violation) {
    exists f :: f in files && Flags(rules, f, v)
  }

  ghost predicate SomeBad(rules: Rules, files: seq<ChangedFile>) {
    exists f :: f in files && Bad(rules, f)
  }

  /**
   Exit code 1 exactly when something could not be computed; otherwise 2 exactly when some file
   that is not exempt breaks the rules in its worktree or its staged state; otherwise 0. The
   violations reported are the breaking spans, by file and first line.
   */
  method Check(rules: Rules, base: Option<string>, resolved: Option<string>, files: Option<seq<ChangedFile>>)
    returns (exitCode: int, violations: seq<Violation>)
    ensures exitCode in {0, 1, 2}
    ensures exitCode == 1 <==> CannotCompute(base, resolved, files)
    ensures exitCode != 1 ==> forall v :: v in violations <==> SomeFlags(rules, files.value, v)
    ensures exitCode == 2 <==> !CannotCompute(base, resolved, files) && SomeBad(rules, files.value)
  {
    hide SomeBad, SomeFlags, SomeDiffFails, AllOffenders;
    violations := [];
    var resolvedBase := if base.Some? then base else resolved;
    if resolvedBase.None? || resolvedBase.value == "" {
      return 1, violations;
    }
    if files.None? {
      return 1, violations;
    }
    var failed;
    failed, violations := ScanFiles(rules, files.value);
    if failed {
      return 1, violations;
    }
    OffendersIffBad(rules, files.value);
    forall v ensures v in violations <==> SomeFlags(rules, files.value, v) {
      OffendersAreFlagged(rules, files.value, v);
    }
    if |violations| > 0 {
      return 2, violations;
    }
    return 0, violations;
  }

  /** The loop over the changed files, which stops at the first diff that fails. */
  method ScanFiles(rules: Rules, files: seq<ChangedFile>) returns (failed: bool, violations: seq<Violation>)
    ensures failed <==> SomeDiffFails(files)
    ensures !failed ==> violations == AllOffenders(rules, files)
  {
    hide FileOffenders, AllOffenders, SelfExempt;
    var tally := new Tally();
    ghost var todo := AllOffenders(rules, files);
    assert files[0..] == files;
    for i := 0 to |files|
      invariant fresh(tally)
      invariant todo == AllOffenders(rules, files[i..])
      invariant tally.violations + todo == AllOffenders(rules, files)
      invariant forall k :: 0 <= k < i ==> !DiffFails(files[k])
    {
      var f := files[i];
      NextFile(rules, files, i);
      if SelfExempt(f.name) {
        continue;
      }
      if f.worktreeDiff.None? || f.stagedDiff.None? {
        assert DiffFails(f);
        return true, tally.violations;
      }
      Assoc(tally.violations, FileOffenders(rules, f), AllOffenders(rules, files[i + 1..]));
      tally.ScanFile(rules, f);
      todo := AllOffenders(rules, files[i + 1..]);
    }
    NextFile(rules, files, |files|);
    return false, tally.violations;
  }

  lemma NextFile(rules: Rules, files: seq<ChangedFile>, i: nat)
    requires i <= |files|
    ensures AllOffenders(rules, files[i..]) ==
      if i == |files| then []
      else if SelfExempt(files[i].name) then AllOffenders(rules, files[i + 1..])
      else FileOffenders(rules, files[i]) + AllOffenders(rules, files[i + 1..])
  {
    if i < |files| {
      assert files[i..][1..] == files[i + 1..];
    }
  }

  // ----- recorded violations are broken rules

  lemma {:induction false} OffendersIff(rules: Rules, file: string, spans: seq<Span>, touched: set<int>, v: Violation)
    ensures v in Offenders(rules, file, TouchedSpans(spans, touched))
       <==> exists s ::
         s in spans && TouchesSpan(s, touched) && rules.Violated(s.text) && v == Violation(file, s.startLine)
  {
    if spans != [] {
      assert spans == [spans[0]] + spans[1..];
      OffendersIff(rules, file, spans[1..], touched, v);
    }
  }

  /** What a scan records is where the broken rules are: one entry names each breaking span. */
  lemma ScanFindsBrokenRules(rules: Rules, file: string, diffText: string, content: string, v: Violation)
    ensures v in Offenders(rules, file, ScannedSpans(rules, file, diffText, content))
       <==> BreaksAt(rules, file, diffText, content, v)
  {
    var cl, touched := Classes(rules, file, content), Touched(diffText);
    SpansCharacterised(cl);
    OffendersIff(rules, file, Spans(cl), touched, v);
    hide Spans, IsSpanOf, Classes, Touched;
    assert forall s ::
      Breaks(rules, cl, touched, s) <==> s in Spans(cl) && TouchesSpan(s, touched) && rules.Violated(s.text);
  }

  lemma FileOffendersIff(rules: Rules, f: ChangedFile, v: Violation)
    requires !DiffFails(f) && !SelfExempt(f.name)
    ensures v in FileOffenders(rules, f) <==> Flags(rules, f, v)
  {
    hide Offenders, ScannedSpans, BreaksAt;
    if f.content.Some? {
      ScanFindsBrokenRules(rules, f.name, f.worktreeDiff.value, f.content.value, v);
    }
    if f.stagedContent.Some? {
      ScanFindsBrokenRules(rules, f.name, f.stagedDiff.value, f.stagedContent.value, v);
    }
  }

  lemma {:induction false} OffendersAreFlagged(rules: Rules, files: seq<ChangedFile>, v: Violation)
    requires !SomeDiffFails(files)
    ensures v in AllOffenders(rules, files) <==> SomeFlags(rules, files, v)
  {
    hide FileOffenders;
    if files != [] {
      var f := files[0];
      assert files == [f] + files[1..] && f in files;
      assert !SomeDiffFails(files[1..]);
      OffendersAreFlagged(rules, files[1..], v);
      if !SelfExempt(f.name) {
        FileOffendersIff(rules, f, v);
      }
      NotExemptIfFlagged(rules, f, v);
      hide Flags, AllOffenders;
      assert SomeFlags(rules, files, v) <==> Flags(rules, f, v) || SomeFlags(rules, files[1..], v);
    }
  }

  lemma NotExemptIfFlagged(rules: Rules, f: ChangedFile, v: Violation)
    ensures Flags(rules, f, v) ==> !SelfExempt(f.name)
  {
  }

  lemma BadIffFlags(rules: Rules, f: ChangedFile)
    ensures Bad(rules, f) <==> exists v :: Flags(rules, f, v)
  {
    hide Breaks, Classes, Touched, SelfExempt;
    if Bad(rules, f) {
      if f.worktreeDiff.Some? && f.content.Some? && BreaksRules(rules, f.name, f.worktreeDiff.value, f.content.value) {
        var span :| Breaks(rules, Classes(rules, f.name, f.content.value), Touched(f.worktreeDiff.value), span);
        assert Flags(rules, f, Violation(f.name, span.startLine));
      } else {
        var span :| Breaks(rules, Classes(rules, f.name, f.stagedContent.value), Touched(f.stagedDiff.value), span);
        assert Flags(rules, f, Violation(f.name, span.startLine));
      }
    }
  }

  lemma {:induction false} OffendersIffBad(rules: Rules, files: seq<ChangedFile>)
    requires !SomeDiffFails(files)
    ensures AllOffenders(rules, files) != [] <==> SomeBad(rules, files)
  {
    hide AllOffenders, Flags, Bad, SomeDiffFails;
    var all := AllOffenders(rules, files);
    if all != [] {
      assert all[0] in all;
      OffendersAreFlagged(rules, files, all[0]);
      var f :| f in files && Flags(rules, f, all[0]);
      BadIffFlags(rules, f);
    }
    if SomeBad(rules, files) {
      var f :| f in files && Bad(rules, f);
      BadIffFlags(rules, f);
      var v :| Flags(rules, f, v);
      OffendersAreFlagged(rules, files, v);
    }
  }
}
