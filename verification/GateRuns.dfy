/** Whole runs of the gate: arguments, declaration and rules as they are written, and the exit code. */
module GateRuns {
  import opened Text
  import opened GateLiveness
  import opened GateVerdict
  import opened GateProgram
  import opened GateDocuments

  // ----- names that may become part of a request

  predicate IsNameLetter(c: char) {
    'A' <= c <= 'Z' || 'a' <= c <= 'z' || '0' <= c <= '9' || c == '.' || c == '_' || c == '-'
  }

  /**
   A branch: letters, digits, dots, underscores, hyphens and slashes; no two dots in a row, and no
   dot or slash at the beginning or behind a slash; no slash at the end.
   */
  predicate IsBranch(s: string) {
    && s != "" && s[0] != '/' && s[0] != '.' && s[|s| - 1] != '/'
    && (forall c | c in s :: IsNameLetter(c) || c == '/')
    && (forall i | 0 <= i < |s| - 1 :: s[i] == '.' ==> s[i + 1] != '.')
    && (forall i | 0 <= i < |s| - 1 :: s[i] == '/' ==> s[i + 1] != '/' && s[i + 1] != '.')
  }

  /** Two names with one slash between them, or the placeholder for this repository. */
  predicate IsRepository(s: string) {
    s == "{owner}/{repo}"
    || exists i :: 0 < i < |s| - 1 && s[i] == '/' && forall j | 0 <= j < |s| && j != i :: IsNameLetter(s[j])
  }

  /** The segments are names that begin with no dot. */
  predicate SegmentsAreNames(s: string) {
    forall segment | segment in Split(s, {'/'}) :: IsName(segment) && segment[0] != '.'
  }

  /** No slash is followed by a slash or a dot. */
  predicate SlashesApart(s: string) {
    forall i | 0 <= i < |s| - 1 :: s[i] == '/' ==> s[i + 1] != '/' && s[i + 1] != '.'
  }

  predicate PathLetters(s: string) { forall c | c in s :: IsNameLetter(c) || c == '/' }

  /** What is asked of a text between and around slashes. */
  predicate IsPath(s: string) {
    s != "" && s[0] != '/' && s[0] != '.' && s[|s| - 1] != '/' && PathLetters(s) && SlashesApart(s)
  }

  function FirstSlash(s: string): (i: nat)
    ensures i <= |s| && (i < |s| ==> s[i] == '/') && forall j | 0 <= j < i :: s[j] != '/'
  {
    if s == "" || s[0] == '/' then 0 else 1 + FirstSlash(s[1..])
  }

  lemma {:induction false} FreeOfSlash(s: string, i: nat)
    requires i <= |s| && forall j | 0 <= j < i :: s[j] != '/'
    ensures FreeOf(s[..i], {'/'})
  {
  }

  lemma {:induction false} NameIsPath(s: string)
    requires FreeOf(s, {'/'})
    ensures IsPath(s) <==> IsName(s) && s[0] != '.'
  {
    assert forall j | 0 <= j < |s| :: s[j] in s;
  }

  lemma {:induction false} PathIff(s: string)
    ensures SegmentsAreNames(s) <==> IsPath(s)
    decreases |s|
  {
    var i := FirstSlash(s);
    var a := s[..i];
    FreeOfSlash(s, i);
    if i == |s| {
      assert a == s;
      SplitAtom(s, {'/'});
      NameIsPath(s);
      hide IsPath, IsName;
    } else {
      hide IsPath, IsName;
      var b := s[i + 1..];
      PathIff(b);
      SplitAtom(a, {'/'});
      SplitConcat(a, '/', b, {'/'});
      assert s == a + ['/'] + b;
      SegmentsCut(s, a, b);
      PathCut(s, a, b);
    }
  }

  lemma {:induction false} SegmentsCut(s: string, a: string, b: string)
    requires Split(s, {'/'}) == [a] + Split(b, {'/'})
    ensures SegmentsAreNames(s) <==> IsName(a) && a[0] != '.' && SegmentsAreNames(b)
  {
    hide IsNameChar;
    assert forall x :: x in Split(s, {'/'}) <==> x == a || x in Split(b, {'/'});
  }

  /** The characters around the first slash. */
  lemma {:induction false} Around(s: string, a: string, b: string)
    requires s == a + ['/'] + b
    ensures |s| == |a| + 1 + |b| && s[|a|] == '/'
    ensures forall i | 0 <= i < |a| :: s[i] == a[i]
    ensures forall i | 0 <= i < |b| :: s[|a| + 1 + i] == b[i]
    ensures forall i | |a| < i < |s| :: s[i] == b[i - |a| - 1]
    ensures forall c :: c in s <==> c in a || c == '/' || c in b
  {
  }

  lemma {:induction false} SlashesCut(s: string, a: string, b: string)
    requires s == a + ['/'] + b && FreeOf(a, {'/'})
    ensures SlashesApart(s) <==> SlashesApart(b) && (b != "" ==> b[0] != '/' && b[0] != '.')
  {
    Around(s, a, b);
    assert forall i | 0 <= i < |a| :: a[i] in a;
    if SlashesApart(s) {
      forall i | 0 <= i < |b| - 1 ensures b[i] == '/' ==> b[i + 1] != '/' && b[i + 1] != '.' {
        assert s[|a| + 1 + i] == b[i] && s[|a| + 1 + i + 1] == b[i + 1];
      }
      assert b != "" ==> s[|a| + 1] == b[0];
    }
    if SlashesApart(b) && (b != "" ==> b[0] != '/' && b[0] != '.') {
      forall i | 0 <= i < |s| - 1 && s[i] == '/' ensures s[i + 1] != '/' && s[i + 1] != '.' {
        assert i >= |a|;
        assert i > |a| ==> b[i - |a| - 1] == '/' && s[i + 1] == b[i - |a| - 1 + 1];
      }
    }
  }

  lemma {:induction false} Ends(s: string, a: string, b: string)
    requires s == a + ['/'] + b && FreeOf(a, {'/'})
    ensures s != "" && s[0] == (if a == "" then '/' else a[0]) && (a != "" ==> a[0] != '/')
    ensures s[|s| - 1] == if b == "" then '/' else b[|b| - 1]
  {
    assert a != "" ==> a[0] in a;
  }

  /** A path is a name without slashes, and a path behind the first slash. */
  lemma {:induction false} PathCut(s: string, a: string, b: string)
    requires s == a + ['/'] + b && FreeOf(a, {'/'})
    ensures IsPath(s) <==> IsName(a) && a[0] != '.' && IsPath(b)
  {
    hide SlashesApart, PathLetters, IsName, FreeOf;
    Ends(s, a, b);
    SlashesCut(s, a, b);
    NameLetters(a);
    LettersCut(s, a, b);
  }

  lemma {:induction false} LettersCut(s: string, a: string, b: string)
    requires s == a + ['/'] + b
    ensures PathLetters(s) <==> PathLetters(a) && PathLetters(b)
  {
    hide IsNameLetter;
    assert forall c :: c in s <==> c in a || c == '/' || c in b;
  }

  lemma NameLetters(a: string)
    requires FreeOf(a, {'/'})
    ensures IsName(a) <==> a != "" && PathLetters(a)
  {
  }

  lemma {:induction false} NoTwoDots(s: string)
    ensures Contains(s, "..") <==> exists i :: 0 <= i < |s| - 1 && s[i] == '.' && s[i + 1] == '.'
  {
    if i: nat :| HasAt(s, "..", i) {
      assert s[i] == s[i..i + 2][0] && s[i + 1] == s[i..i + 2][1];
    }
    forall i | 0 <= i < |s| - 1 && s[i] == '.' && s[i + 1] == '.' ensures HasAt(s, "..", i) {
      assert s[i..i + 2] == "..";
    }
  }

  /** Which branches the gate asks about: exactly those. */
  lemma {:induction false} BranchIff(s: string)
    ensures IsBranchName(s) <==> IsBranch(s)
  {
    PathIff(s);
    NoTwoDots(s);
    hide Contains, SegmentsAreNames;
    assert IsBranchName(s) <==> !Contains(s, "..") && SegmentsAreNames(s) by { SegmentsOf(s); }
  }

  lemma SegmentsOf(s: string)
    ensures IsBranchName(s) <==> !Contains(s, "..") && SegmentsAreNames(s)
  {
    hide Contains;
  }

  lemma {:induction false} RepositoryCut(s: string, i: nat)
    requires i < |s| && s[i] == '/' && FreeOf(s[..i], {'/'})
    ensures Split(s, {'/'}) == [s[..i]] + Split(s[i + 1..], {'/'})
  {
    var a, b := s[..i], s[i + 1..];
    assert s == a + ['/'] + b;
    SplitConcat(a, '/', b, {'/'});
    SplitAtom(a, {'/'});
  }

  lemma {:induction false} PiecesOf(s: string)
    ensures |Split(s, {'/'})| == 1 ==> FreeOf(s, {'/'})
  {
    var i := FirstSlash(s);
    FreeOfSlash(s, i);
    if i < |s| {
      RepositoryCut(s, i);
      assert |Split(s, {'/'})| >= 2;
    } else {
      assert s[..i] == s;
    }
  }

  /** Which repositories can be asked for: exactly those. */
  lemma {:induction false} RepositoryIff(s: string)
    ensures IsRepo(s) || s == "{owner}/{repo}" <==> IsRepository(s)
  {
    if IsRepo(s) {
      var i := FirstSlash(s);
      FreeOfSlash(s, i);
      if i == |s| {
        assert s[..i] == s;
        SplitAtom(s, {'/'});
        assert false;
      }
      RepositoryCut(s, i);
      var b := s[i + 1..];
      PiecesOf(b);
      SplitAtom(b, {'/'});
      assert IsName(s[..i]) && IsName(b);
      forall j | 0 <= j < |s| && j != i ensures IsNameLetter(s[j]) {
        assert if j < i then s[j] == s[..i][j] && s[j] in s[..i] else s[j] == b[j - i - 1] && s[j] in b;
      }
    }
    if i :| 0 < i < |s| - 1 && s[i] == '/' && forall j | 0 <= j < |s| && j != i :: IsNameLetter(s[j]) {
      var a, b := s[..i], s[i + 1..];
      assert forall c | c in a :: IsNameLetter(c);
      assert forall c | c in b :: IsNameLetter(c);
      assert FreeOf(a, {'/'}) && FreeOf(b, {'/'});
      RepositoryCut(s, i);
      SplitAtom(b, {'/'});
    }
  }

  // ----- the arguments, spelled out

  lemma {:induction false} OneWord(word: Word)
    requires word.Valid()
    ensures ParseArgs(word.Spell(), 0, DEFAULTS) == Parsed(Apply(DEFAULTS, word))
  {
    hide Apply, Word.Spell;
    var argv := word.Spell();
    assert argv[0..0 + |argv|] == argv;
    WordReads(argv, 0, DEFAULTS, word);
    NoMoreArguments(argv, Apply(DEFAULTS, word));
  }

  lemma NoMoreArguments(argv: seq<string>, o: Options)
    ensures ParseArgs(argv, |argv|, o) == Parsed(o)
  {
  }

  /** What every single setting does, in each of its spellings. */
  lemma {:induction false} SettingsAre(v: string)
    ensures ParseArgs([], 0, DEFAULTS) == Parsed(DEFAULTS)
    ensures ParseArgs(["--json"], 0, DEFAULTS) == Parsed(DEFAULTS.(json := true))
    ensures ParseArgs(["--contexts"], 0, DEFAULTS) == Parsed(DEFAULTS.(contexts := true))
    ensures ParseArgs(["--repo", v], 0, DEFAULTS) == Parsed(DEFAULTS.(repo := Some(v)))
    ensures ParseArgs(["--branch", v], 0, DEFAULTS) == Parsed(DEFAULTS.(branch := Some(v)))
    ensures ParseArgs(["--pull-request", v], 0, DEFAULTS) == Parsed(DEFAULTS.(pullRequest := Some(v)))
  {
    ValuedNames();
    OneWord(JsonFlag);
    OneWord(ContextsFlag);
    OneWord(Setting("--repo", v, false));
    OneWord(Setting("--branch", v, false));
    OneWord(Setting("--pull-request", v, false));
  }

  lemma {:induction false} JoinedSettingsAre(v: string)
    ensures ParseArgs(["--repo" + "=" + v], 0, DEFAULTS) == Parsed(DEFAULTS.(repo := Some(v)))
    ensures ParseArgs(["--branch" + "=" + v], 0, DEFAULTS) == Parsed(DEFAULTS.(branch := Some(v)))
    ensures ParseArgs(["--pull-request" + "=" + v], 0, DEFAULTS) == Parsed(DEFAULTS.(pullRequest := Some(v)))
  {
    ValuedNames();
    OneWord(Setting("--repo", v, true));
    OneWord(Setting("--branch", v, true));
    OneWord(Setting("--pull-request", v, true));
  }

  /** Help, and an option without its value. */
  lemma {:induction false} OtherArgumentsAre()
    ensures ParseArgs(["--help"], 0, DEFAULTS) == ParseArgs(["-h"], 0, DEFAULTS) == Help
    ensures ParseArgs(["--repo"], 0, DEFAULTS) == ParseArgs(["--branch"], 0, DEFAULTS) == Fault
    ensures ParseArgs(["--pull-request"], 0, DEFAULTS) == Fault
  {
    NamePlain("--repo");
    NamePlain("--branch");
    NamePlain("--pull-request");
  }

  // ----- the exit code

  /** The declaration with what the arguments replace in it. */
  function Adjusted(d: Declaration, o: Options): Declaration {
    var moded := if o.pullRequest.Some? then d.(mode := o.pullRequest.value) else d;
    if o.branch.Some? && o.branch.value != "" then moded.(branch := o.branch.value) else moded
  }

  /** The document with the review mode replaced has the fields of the declaration with the mode replaced. */
  lemma {:induction false} OverrideHolds(d: Declaration, mode: Option<string>)
    ensures Holds(Override(Write(d), mode), if mode.Some? then d.(mode := mode.value) else d)
  {
    WrittenHolds(d);
    if mode.Some? {
      KeysDiffer();
      OverrideFields(Write(d), mode.value);
      hide Write, Get, WriteWorkflows, Override;
    }
  }

  /** `--pull-request` replaces the mode of the document and nothing else. */
  lemma {:induction false} OverrideFields(gates: Json, mode: string)
    requires gates.Obj?
    ensures Override(gates, Some(mode)).Obj?
    ensures forall key ::
      Get(Override(gates, Some(mode)), key)
      == if key == "pullRequestReview" then Some(Str(mode)) else Get(gates, key)
  {
    hide Lookup;
    forall key ensures Lookup([("pullRequestReview", Str(mode))] + gates.fields, key)
      == if key == "pullRequestReview" then Some(Str(mode)) else Lookup(gates.fields, key)
    {
      LookupConcat([("pullRequestReview", Str(mode))], gates.fields, key);
      OneField("pullRequestReview", Str(mode), key);
    }
  }

  /** The arguments are in order: a repository that can be asked for, and one of the four modes. */
  ghost predicate OptionsAreSound(o: Options) {
    && (o.repo.Some? ==> IsRepository(o.repo.value))
    && (o.pullRequest.Some? ==> o.pullRequest.value in {"none", "code-owner", "approving", "either"})
  }

  /** What a run is to answer: 1 for anything out of order, then 0 if protected as declared, else 2. */
  ghost function Outcome(d: Declaration, o: Options, rs: seq<Rule>): int {
    var e := Adjusted(d, o);
    if !OptionsAreSound(o) || !IsSound(e) then 1
    else if o.contexts then 0
    else if !IsBranch(e.branch) then 1
    else if IsProtected(e, rs) then 0
    else 2
  }

  lemma {:induction false} BranchIs(d: Declaration, o: Options, g: Json)
    requires Holds(g, if o.pullRequest.Some? then d.(mode := o.pullRequest.value) else d)
    ensures BranchValid(o, g) <==> IsBranch(Adjusted(d, o).branch)
  {
    BranchIff(Adjusted(d, o).branch);
    hide IsBranchName, IsBranch;
  }

  lemma {:induction false} OptionsAre(o: Options)
    ensures OptionsValid(o) <==> OptionsAreSound(o)
  {
    if o.repo.Some? {
      RepositoryIff(o.repo.value);
    }
    hide IsRepo, IsRepository;
    assert o.pullRequest.Some? ==>
      (o.pullRequest.value in MODES <==> o.pullRequest.value in {"none", "code-owner", "approving", "either"});
  }

  lemma {:induction false} SoundWithoutBranch(d: Declaration, branch: string, rs: seq<Rule>)
    ensures IsSound(d.(branch := branch)) <==> IsSound(d)
    ensures IsProtected(d.(branch := branch), rs) <==> IsProtected(d, rs)
  {
  }

  /** The exit code of every run on a written declaration and written rules, whatever the arguments. */
  lemma {:induction false} ExitIs(argv: seq<string>, o: Options, d: Declaration, rs: seq<Rule>)
    requires ParseArgs(argv, 0, DEFAULTS) == Parsed(o) && AreValid(rs)
    ensures ExitCode(argv, World(Some(Write(d)), Some(Arr(WriteRules(rs))))) == Outcome(d, o, rs)
  {
    var g := Override(Write(d), o.pullRequest);
    var moded := if o.pullRequest.Some? then d.(mode := o.pullRequest.value) else d;
    OverrideHolds(d, o.pullRequest);
    BranchIs(d, o, g);
    OptionsAre(o);
    DeclarationIs(g, moded);
    VerdictIs(g, moded, rs);
    if o.branch.Some? {
      SoundWithoutBranch(moded, o.branch.value, rs);
    }
    hide ParseArgs, OptionsValid, OptionsAreSound, BranchValid, Override, Write, WriteRules, Holds, Evaluable;
    hide GatesWellFormed, IsSound, IsProtected, Protected, IsBranch;
  }

  /** In particular without arguments, and with the mode or the branch given on the command line. */
  lemma {:induction false} RunsAre(d: Declaration, rs: seq<Rule>, v: string)
    requires AreValid(rs)
    ensures var world := World(Some(Write(d)), Some(Arr(WriteRules(rs))));
      && ExitCode([], world) == Outcome(d, DEFAULTS, rs)
      && ExitCode(["--pull-request", v], world) ==
           (if v in {"none", "code-owner", "approving", "either"} then Outcome(d.(mode := v), DEFAULTS, rs) else 1)
      && (v != "" ==> ExitCode(["--branch", v], world) == Outcome(d.(branch := v), DEFAULTS, rs))
  {
    hide ExitCode, Write, WriteRules, ParseArgs, IsSound, IsProtected, IsBranch;
    SettingsAre(v);
    ExitIs([], DEFAULTS, d, rs);
    ExitIs(["--pull-request", v], DEFAULTS.(pullRequest := Some(v)), d, rs);
    ExitIs(["--branch", v], DEFAULTS.(branch := Some(v)), d, rs);
  }
}
