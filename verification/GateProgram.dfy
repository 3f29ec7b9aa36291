/** The program around the verdict: its arguments and its exit code. */
module GateProgram {
  import opened Text
  import opened GateLiveness
  import opened GateVerdict

  // ----- the arguments

  datatype Options = Options(
    repo: Option<string>,
    branch: Option<string>,
    json: bool,
    contexts: bool,
    pullRequest: Option<string>
  )

  const DEFAULTS: Options := Options(None, None, false, false, None)

  datatype Parsed = Help | Fault | Parsed(options: Options)

  /** The value of an option given as --name=value. */
  function Inline(arg: string, name: string): Option<string> {
    if StartsWith(arg, name + "=") then Some(arg[|name| + 1..]) else None
  }

  function WithValue(o: Options, name: string, value: string): Options {
    if name == "--repo" then o.(repo := Some(value))
    else if name == "--branch" then o.(branch := Some(value))
    else o.(pullRequest := Some(value))
  }

  const VALUED: seq<string> := ["--repo", "--branch", "--pull-request"]

  /** The arguments from `i` on, added to the options so far. */
  function ParseArgs(argv: seq<string>, i: nat, o: Options): Parsed
    requires i <= |argv|
    decreases |argv| - i
  {
    if i == |argv| then Parsed(o)
    else
      var arg := argv[i];
      if arg == "--help" || arg == "-h" then Help
      else if arg == "--json" then ParseArgs(argv, i + 1, o.(json := true))
      else if arg == "--contexts" then ParseArgs(argv, i + 1, o.(contexts := true))
      else if arg in VALUED then
        if i + 1 == |argv| then Fault else ParseArgs(argv, i + 2, WithValue(o, arg, argv[i + 1]))
      else
        match (Inline(arg, VALUED[0]), Inline(arg, VALUED[1]), Inline(arg, VALUED[2]))
        case (Some(v), _, _) => ParseArgs(argv, i + 1, WithValue(o, VALUED[0], v))
        case (None, Some(v), _) => ParseArgs(argv, i + 1, WithValue(o, VALUED[1], v))
        case (None, None, Some(v)) => ParseArgs(argv, i + 1, WithValue(o, VALUED[2], v))
        case _ => Fault
  }

  // ----- what the arguments mean

  /** One setting on the command line; an option with a value is spelled in one word or in two. */
  datatype Word = JsonFlag | ContextsFlag | Setting(name: string, value: string, joined: bool) {
    predicate Valid() { Setting? ==> name in VALUED }

    function Spell(): seq<string> {
      match this
      case JsonFlag => ["--json"]
      case ContextsFlag => ["--contexts"]
      case Setting(name, value, joined) => if joined then [name + "=" + value] else [name, value]
    }
  }

  function SpellAll(words: seq<Word>): seq<string> {
    if words == [] then [] else words[0].Spell() + SpellAll(words[1..])
  }

  predicate AllValid(words: seq<Word>) { forall word | word in words :: word.Valid() }

  /** The value that an option is given last, if it is given at all. */
  function LastOf(words: seq<Word>, name: string): Option<string> {
    if words == [] then None
    else
      var later := LastOf(words[1..], name);
      if later.Some? then later
      else if words[0].Setting? && words[0].name == name then Some(words[0].value)
      else None
  }

  /** What the settings amount to: flags that occur, and of each option the last value. */
  function OptionsOf(words: seq<Word>): Options {
    Options(LastOf(words, "--repo"), LastOf(words, "--branch"), JsonFlag in words, ContextsFlag in words,
      LastOf(words, "--pull-request"))
  }

  predicate IsHelp(arg: string) { arg == "--help" || arg == "-h" }

  /** The arguments from `i` on spell these settings. */
  predicate Spells(argv: seq<string>, i: nat, words: seq<Word>) {
    i <= |argv| && AllValid(words) && argv[i..] == SpellAll(words)
  }

  /** The arguments from `i` on spell these settings and then ask for help. */
  predicate SpellsHelp(argv: seq<string>, i: nat, words: seq<Word>) {
    var k := i + |SpellAll(words)|;
    k < |argv| && AllValid(words) && argv[i..k] == SpellAll(words) && IsHelp(argv[k])
  }

  function Apply(o: Options, word: Word): Options
    requires word.Valid()
  {
    match word
    case JsonFlag => o.(json := true)
    case ContextsFlag => o.(contexts := true)
    case Setting(name, value, _) => WithValue(o, name, value)
  }

  function ApplyAll(o: Options, words: seq<Word>): Options
    requires AllValid(words)
    decreases words
  {
    if words == [] then o
    else
      assert words == [words[0]] + words[1..] && words[0] in words;
      ApplyAll(Apply(o, words[0]), words[1..])
  }

  function OrElse(a: Option<string>, b: Option<string>): Option<string> { if a.Some? then a else b }

  /** Applying settings one after the other leaves the last value of each option. */
  lemma {:induction false} LastValueWins(o: Options, words: seq<Word>)
    requires AllValid(words)
    ensures ApplyAll(o, words) == Options(
      OrElse(LastOf(words, "--repo"), o.repo), OrElse(LastOf(words, "--branch"), o.branch),
      o.json || JsonFlag in words, o.contexts || ContextsFlag in words,
      OrElse(LastOf(words, "--pull-request"), o.pullRequest))
    decreases words
  {
    if words != [] {
      assert words == [words[0]] + words[1..] && words[0] in words;
      ValuedNames();
      LastValueWins(Apply(o, words[0]), words[1..]);
    }
  }

  lemma ValuedNames()
    ensures VALUED[0] == "--repo" && VALUED[1] == "--branch" && VALUED[2] == "--pull-request"
    ensures "--repo" != "--branch" && "--repo" != "--pull-request" && "--branch" != "--pull-request"
  {
    assert "--repo"[2] == 'r' && "--branch"[2] == 'b' && "--pull-request"[2] == 'p';
  }

  /** The words that are no option with a value have no equals sign and another third character. */
  lemma {:induction false} OtherWords(arg: string)
    requires arg in {"--help", "-h", "--json", "--contexts"}
    ensures '=' !in arg && (|arg| > 2 ==> arg[2] == 'h' || arg[2] == 'j' || arg[2] == 'c')
    ensures arg !in VALUED
  {
    ValuedNames();
  }

  lemma {:induction false} NamePlain(name: string)
    requires name in VALUED
    ensures |name| > 2 && (name[2] == 'r' || name[2] == 'b' || name[2] == 'p') && '=' !in name
    ensures name == VALUED[0] <==> name[2] == 'r'
    ensures name == VALUED[1] <==> name[2] == 'b'
    ensures name == VALUED[2] <==> name[2] == 'p'
    ensures name !in {"--help", "-h", "--json", "--contexts"}
  {
    ValuedNames();
  }

  /** A joined setting is read as one option with its value and as nothing else. */
  lemma {:induction false} JoinedReads(name: string, value: string, other: string)
    requires name in VALUED && other in VALUED
    ensures var arg := name + "=" + value;
      && Inline(arg, other) == (if other == name then Some(value) else None)
      && arg !in VALUED && arg !in {"--help", "-h", "--json", "--contexts"}
  {
    var arg := name + "=" + value;
    NamePlain(name);
    NamePlain(other);
    assert arg[|name|] == '=' && arg[2] == name[2];
    assert '=' in arg;
    if arg in {"--help", "-h", "--json", "--contexts"} {
      OtherWords(arg);
      assert false;
    }
    if arg in VALUED {
      NamePlain(arg);
      assert false;
    }
    hide Inline;
    InlineIs(arg, name, value);
    if other != name {
      InlineStarts(arg, other);
    }
  }

  lemma {:induction false} InlineIs(arg: string, name: string, value: string)
    requires arg == name + "=" + value
    ensures Inline(arg, name) == Some(value)
  {
    assert arg[0..|name + "="|] == name + "=";
    assert arg[|name| + 1..] == value;
  }

  lemma {:induction false} InlineStarts(arg: string, name: string)
    requires |arg| > 2 && |name| > 2 && arg[2] != name[2]
    ensures Inline(arg, name) == None
  {
    assert (name + "=")[2] == name[2];
    if StartsWith(arg, name + "=") {
      ThirdChar(arg, name + "=");
      assert false;
    }
  }

  lemma ThirdChar(s: string, pat: string)
    requires |pat| > 2 && StartsWith(s, pat)
    ensures |s| > 2 && s[2] == pat[2]
  {
    assert s[0..|pat|][2] == s[2];
  }

  /** Reading one setting. */
  lemma {:induction false} WordReads(argv: seq<string>, i: nat, o: Options, word: Word)
    requires word.Valid() && i + |word.Spell()| <= |argv| && argv[i..i + |word.Spell()|] == word.Spell()
    ensures ParseArgs(argv, i, o) == ParseArgs(argv, i + |word.Spell()|, Apply(o, word))
  {
    hide Inline;
    var arg := argv[i];
    assert arg == argv[i..i + |word.Spell()|][0] == word.Spell()[0];
    match word {
      case JsonFlag => JsonIsNoHelp();
      case ContextsFlag => ContextsIsNoHelp();
      case Setting(name, value, joined) =>
        ValuedNames();
        NamePlain(name);
        if joined {
          JoinedReads(name, value, VALUED[0]);
          JoinedReads(name, value, VALUED[1]);
          JoinedReads(name, value, VALUED[2]);
        } else {
          assert argv[i + 1] == argv[i..i + 2][1] == value;
        }
    }
  }

  lemma JsonIsNoHelp()
    ensures "--json" !in {"--help", "-h"}
  {
    assert "--json"[2] != "--help"[2];
  }

  lemma ContextsIsNoHelp()
    ensures "--contexts" !in {"--help", "-h", "--json"}
  {
    assert "--contexts"[2] != "--help"[2] && "--contexts"[2] != "--json"[2];
  }

  /** Reading settings up to any place. */
  lemma {:induction false} WordsRead(argv: seq<string>, i: nat, o: Options, words: seq<Word>)
    requires AllValid(words) && i + |SpellAll(words)| <= |argv|
    requires argv[i..i + |SpellAll(words)|] == SpellAll(words)
    ensures ParseArgs(argv, i, o) == ParseArgs(argv, i + |SpellAll(words)|, ApplyAll(o, words))
    decreases words
  {
    hide ParseArgs, Apply, Word.Spell;
    if words != [] {
      var word, rest := words[0], words[1..];
      assert words == [word] + rest && word in words;
      var m, n := |word.Spell()|, |SpellAll(words)|;
      assert SpellAll(words)[..m] == word.Spell() && SpellAll(words)[m..] == SpellAll(rest);
      SliceOfSlice(argv, i, i + n, 0, m);
      SliceOfSlice(argv, i, i + n, m, n);
      WordReads(argv, i, o, word);
      WordsRead(argv, i + m, Apply(o, word), rest);
    }
  }

  /** What is parsed was spelled, and help is given where it was asked for. */
  lemma {:induction false} ParsedWasSpelled(argv: seq<string>, i: nat, o: Options) returns (words: seq<Word>)
    requires i <= |argv| && !ParseArgs(argv, i, o).Fault?
    ensures ParseArgs(argv, i, o).Parsed? ==> Spells(argv, i, words)
    ensures ParseArgs(argv, i, o).Help? ==> SpellsHelp(argv, i, words)
    decreases |argv| - i
  {
    words := [];
    if i < |argv| && !IsHelp(argv[i]) {
      var word := FirstWord(argv, i, o);
      var rest := ParsedWasSpelled(argv, i + |word.Spell()|, Apply(o, word));
      words := [word] + rest;
      hide ParseArgs, Apply, Word.Spell, IsHelp;
      SpelledCons(argv, i, word, rest);
    }
  }

  lemma {:induction false} SpelledCons(argv: seq<string>, i: nat, word: Word, rest: seq<Word>)
    requires word.Valid() && i + |word.Spell()| <= |argv| && argv[i..i + |word.Spell()|] == word.Spell()
    ensures Spells(argv, i + |word.Spell()|, rest) ==> Spells(argv, i, [word] + rest)
    ensures SpellsHelp(argv, i + |word.Spell()|, rest) ==> SpellsHelp(argv, i, [word] + rest)
  {
    hide Word.Spell, IsHelp;
    var words, m := [word] + rest, |word.Spell()|;
    assert words[1..] == rest;
    assert SpellAll(words) == word.Spell() + SpellAll(rest);
    assert argv[i..] == argv[i..i + m] + argv[i + m..];
    var k := i + m + |SpellAll(rest)|;
    if k <= |argv| {
      assert argv[i..k] == argv[i..i + m] + argv[i + m..k];
    }
  }

  /** The setting that the parser reads at `i`. */
  lemma {:induction false} FirstWord(argv: seq<string>, i: nat, o: Options) returns (word: Word)
    requires i < |argv| && !IsHelp(argv[i]) && !ParseArgs(argv, i, o).Fault?
    ensures word.Valid() && 0 < |word.Spell()| && i + |word.Spell()| <= |argv|
    ensures argv[i..i + |word.Spell()|] == word.Spell()
    ensures ParseArgs(argv, i, o) == ParseArgs(argv, i + |word.Spell()|, Apply(o, word))
  {
    var arg := argv[i];
    assert argv[i..i + 1] == [arg];
    if arg == "--json" {
      word := JsonFlag;
    } else if arg == "--contexts" {
      word := ContextsFlag;
    } else if arg in VALUED {
      word := Setting(arg, argv[i + 1], false);
      assert argv[i..i + 2] == [arg, argv[i + 1]];
    } else {
      var k := if Inline(arg, VALUED[0]).Some? then 0 else if Inline(arg, VALUED[1]).Some? then 1 else 2;
      InlineText(arg, VALUED[k]);
      word := Setting(VALUED[k], Inline(arg, VALUED[k]).value, true);
    }
    hide ParseArgs, Inline;
    WordReads(argv, i, o, word);
  }

  lemma {:induction false} InlineText(arg: string, name: string)
    requires Inline(arg, name).Some?
    ensures arg == name + "=" + Inline(arg, name).value
  {
    assert arg == arg[..|name| + 1] + arg[|name| + 1..];
  }

  /**
   What the argument loop accepts and what it makes of it: the arguments are accepted if and only if
   they spell settings, and then each flag counts if it occurs and each option has the value
   given last; help is given if and only if settings are followed by the request for it.
   */
  lemma {:induction false} ArgumentsMean(argv: seq<string>)
    ensures var p := ParseArgs(argv, 0, DEFAULTS);
      && (p.Parsed? <==> exists words :: Spells(argv, 0, words))
      && (p.Help? <==> exists words :: SpellsHelp(argv, 0, words))
      && forall words | Spells(argv, 0, words) :: p == Parsed(OptionsOf(words))
  {
    hide ApplyAll, LastOf, SpellAll;
    var p := ParseArgs(argv, 0, DEFAULTS);
    forall words | Spells(argv, 0, words) ensures p == Parsed(OptionsOf(words)) {
      WordsRead(argv, 0, DEFAULTS, words);
      LastValueWins(DEFAULTS, words);
    }
    forall words | SpellsHelp(argv, 0, words) ensures p == Help {
      WordsRead(argv, 0, DEFAULTS, words);
    }
    if !p.Fault? {
      var words := ParsedWasSpelled(argv, 0, DEFAULTS);
    }
  }

  // ----- the exit code

  predicate IsNameChar(c: char) {
    'A' <= c <= 'Z' || 'a' <= c <= 'z' || '0' <= c <= '9' || c == '.' || c == '_' || c == '-'
  }

  predicate IsName(s: string) { s != "" && forall c | c in s :: IsNameChar(c) }

  predicate IsRepo(s: string) {
    var parts := Split(s, {'/'});
    |parts| == 2 && IsName(parts[0]) && IsName(parts[1])
  }

  predicate IsBranchName(name: string) {
    && !Contains(name, "..")
    && forall segment | segment in Split(name, {'/'}) :: IsName(segment) && segment[0] != '.'
  }

  /** The document with its review mode replaced. */
  function Override(gates: Json, mode: Option<string>): Json {
    if mode.None? then gates
    else Obj([("pullRequestReview", Str(mode.value))] + (if gates.Obj? then gates.fields else []))
  }

  predicate OptionsValid(o: Options) {
    (o.repo.Some? ==> o.repo.value == "{owner}/{repo}" || IsRepo(o.repo.value))
    && (o.pullRequest.Some? ==> o.pullRequest.value in MODES)
  }

  /** The branch asked about: the argument, or else the document's. */
  function EffectiveBranch(o: Options, gates: Json): Option<string> {
    if o.branch.Some? && o.branch.value != "" then o.branch
    else
      var b := Get(gates, "branch");
      if b.Some? && b.value.Str? then Some(b.value.s) else None
  }

  predicate BranchValid(o: Options, gates: Json) {
    var b := EffectiveBranch(o, gates);
    b.Some? && IsBranchName(b.value)
  }

  /** What the environment answers: the document, and the rules of the branch, when they can be had. */
  datatype World = World(gates: Option<Json>, rules: Option<Json>)

  /** Everything needed for a verdict was there and well formed. */
  predicate VerdictReached(argv: seq<string>, world: World) {
    match ParseArgs(argv, 0, DEFAULTS)
    case Parsed(o) =>
      OptionsValid(o) && world.gates.Some? && !o.contexts && world.rules.Some?
      && (var gates := Override(world.gates.value, o.pullRequest);
          BranchValid(o, gates) && Evaluable(gates, world.rules.value))
    case _ => false
  }

  /** The run only prints the usage or the declared contexts. */
  predicate OnlyPrints(argv: seq<string>, world: World) {
    match ParseArgs(argv, 0, DEFAULTS)
    case Help => true
    case Fault => false
    case Parsed(o) =>
      OptionsValid(o) && world.gates.Some? && o.contexts && GatesWellFormed(Override(world.gates.value, o.pullRequest))
  }

  ghost predicate Passes(argv: seq<string>, world: World)
    requires VerdictReached(argv, world)
  {
    Protected(Override(world.gates.value, ParseArgs(argv, 0, DEFAULTS).options.pullRequest), world.rules.value.items)
  }

  /** The argument loop, which `ArgumentsMean` is about. */
  method ParseArguments(argv: seq<string>) returns (p: Parsed)
    ensures p == ParseArgs(argv, 0, DEFAULTS)
    ensures p.Parsed? <==> exists words :: Spells(argv, 0, words)
    ensures p.Help? <==> exists words :: SpellsHelp(argv, 0, words)
    ensures forall words | Spells(argv, 0, words) :: p == Parsed(OptionsOf(words))
  {
    hide WithValue, Inline, Spells, SpellsHelp, OptionsOf;
    ArgumentsMean(argv);
    var o := DEFAULTS;
    var i := 0;
    while i < |argv|
      invariant 0 <= i <= |argv|
      invariant ParseArgs(argv, i, o) == ParseArgs(argv, 0, DEFAULTS)
    {
      var arg := argv[i];
      if arg == "--help" || arg == "-h" {
        return Help;
      }
      if arg == "--json" {
        o := o.(json := true);
      } else if arg == "--contexts" {
        o := o.(contexts := true);
      } else if arg in VALUED {
        i := i + 1;
        if i >= |argv| {
          return Fault;
        }
        o := WithValue(o, arg, argv[i]);
      } else if Inline(arg, VALUED[0]).Some? {
        o := WithValue(o, VALUED[0], Inline(arg, VALUED[0]).value);
      } else if Inline(arg, VALUED[1]).Some? {
        o := WithValue(o, VALUED[1], Inline(arg, VALUED[1]).value);
      } else if Inline(arg, VALUED[2]).Some? {
        o := WithValue(o, VALUED[2], Inline(arg, VALUED[2]).value);
      } else {
        return Fault;
      }
      i := i + 1;
    }
    return Parsed(o);
  }

  ghost function ExitCode(argv: seq<string>, world: World): int {
    if OnlyPrints(argv, world) then 0
    else if VerdictReached(argv, world) then (if Passes(argv, world) then 0 else 2)
    else 1
  }

  /** Rules that hold the same facts give the same exit code, whatever the arguments. */
  lemma {:induction false} ExitIgnoresGrouping(argv: seq<string>, gates: Option<Json>, a: seq<Json>, b: seq<Json>)
    requires SameFacts(a, b)
    ensures ExitCode(argv, World(gates, Some(Arr(a)))) == ExitCode(argv, World(gates, Some(Arr(b))))
  {
    hide ParseArgs, OptionsValid, BranchValid, Override, GatesWellFormed;
    if gates.Some? && ParseArgs(argv, 0, DEFAULTS).Parsed? {
      var document := Override(gates.value, ParseArgs(argv, 0, DEFAULTS).options.pullRequest);
      OkIgnoresGrouping(document, a, b);
    }
    hide SameFacts, Evaluable, Protected;
  }

  /** In particular permuted rules do, and rules in which a status rule is split or two are merged. */
  lemma {:induction false} ExitIgnoresOrderAndSplits(argv: seq<string>, gates: Option<Json>, a: seq<Json>, b: seq<Json>,
                                                    before: seq<Json>, whole: Json, one: Json, two: Json,
                                                    after: seq<Json>)
    requires multiset(a) == multiset(b) && SplitsInto(whole, one, two)
    ensures ExitCode(argv, World(gates, Some(Arr(a)))) == ExitCode(argv, World(gates, Some(Arr(b))))
    ensures ExitCode(argv, World(gates, Some(Arr(before + [whole] + after))))
         == ExitCode(argv, World(gates, Some(Arr(before + [one, two] + after))))
  {
    hide ExitCode, SameFacts;
    PermutedRulesSameFacts(a, b);
    ExitIgnoresGrouping(argv, gates, a, b);
    SplitRuleSameFacts(before, whole, one, two, after);
    ExitIgnoresGrouping(argv, gates, before + [whole] + after, before + [one, two] + after);
  }

  /**
   The gate fails closed: unless it only prints, exit code 0 means that a verdict was reached
   and the branch is protected as declared, 2 that it is not, and everything else is 1.
   */
  method RunGate(argv: seq<string>, world: World) returns (exitCode: int)
    ensures exitCode == 0 <==> OnlyPrints(argv, world) || (VerdictReached(argv, world) && Passes(argv, world))
    ensures exitCode == 2 <==> VerdictReached(argv, world) && !Passes(argv, world)
    ensures exitCode in {0, 1, 2} && exitCode == ExitCode(argv, world)
  {
    hide ParseArgs, OptionsValid, Override, BranchValid, Evaluable, GatesWellFormed, Protected;
    var parsed := ParseArguments(argv);
    if parsed.Help? {
      return 0;
    }
    if parsed.Fault? {
      return 1;
    }
    var o := parsed.options;
    if !OptionsValid(o) {
      return 1;
    }
    if world.gates.None? {
      return 1;
    }
    var gates := Override(world.gates.value, o.pullRequest);
    var declared := DeclaredContexts(gates);
    if declared.Err? {
      NotEvaluable(gates);
      return 1;
    }
    if o.contexts {
      return 0;
    }
    if !BranchValid(o, gates) {
      return 1;
    }
    if world.rules.None? {
      return 1;
    }
    var verdict := Evaluate(gates, world.rules.value);
    if verdict.Err? {
      return 1;
    }
    return if verdict.value.ok then 0 else 2;
  }

  lemma NotEvaluable(gates: Json)
    requires !GatesWellFormed(gates)
    ensures forall rules :: !Evaluable(gates, rules)
  {
    hide GatesWellFormed;
  }
}
