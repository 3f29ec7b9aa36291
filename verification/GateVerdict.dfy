/** The verdict on a branch's protection, and what it depends on. */
module GateVerdict {
  import opened Text
  import opened Lists
  import opened GateLiveness

  // ----- evaluation

  datatype Verdict = Verdict(
    ok: bool,
    missing: seq<string>,
    undeclared: seq<string>,
    weakSource: seq<string>,
    mode: string,
    reviewOk: bool,
    observed: Json
  )

  /** Some check for `context` names `id` as the only source allowed to report it. */
  ghost predicate Pins(checks: seq<Json>, context: string, id: real) {
    exists check :: check in checks && PinsOne(check, context, id)
  }

  predicate PinsOne(check: Json, context: string, id: real) {
    Get(check, "integration_id") == Some(Num(id)) && Get(check, "context") == Some(Str(context))
  }

  /** The id that sources are held to; None when the document names none. */
  function DeclaredId(gates: Json): Option<real> {
    var id := Get(gates, "integrationId");
    if id.Some? && id.value.Num? then Some(id.value.n) else None
  }

  method PinnedContexts(rules: seq<Json>, id: real) returns (pinned: set<string>)
    requires RulesWellFormed(rules)
    ensures forall c :: c in pinned <==> Pins(Checks(rules), c, id)
  {
    hide RuleChecks, Checks, PinsOne, RuleWellFormed;
    pinned := {};
    NoChecks();
    for i := 0 to |rules|
      invariant forall c :: c in pinned <==> Pins(Checks(rules[..i]), c, id)
    {
      ChecksSnoc(rules, i);
      var found := PinnedByRule(rules[i], id);
      forall c ensures c in pinned + found <==> Pins(Checks(rules[..i + 1]), c, id) {
        PinsConcat(Checks(rules[..i]), RuleChecks(rules[i]), c, id);
      }
      pinned := pinned + found;
    }
    assert rules[..|rules|] == rules;
  }

  lemma NoChecks()
    ensures Checks([]) == []
  {
  }

  lemma PinsConcat(a: seq<Json>, b: seq<Json>, c: string, id: real)
    ensures Pins(a + b, c, id) <==> Pins(a, c, id) || Pins(b, c, id)
  {
    hide PinsOne;
    assert forall check :: check in a + b <==> check in a || check in b;
  }

  method PinnedByRule(rule: Json, id: real) returns (pinned: set<string>)
    ensures forall c :: c in pinned <==> Pins(RuleChecks(rule), c, id)
  {
    pinned := {};
    var checks := RuleChecks(rule);
    hide RuleChecks;
    for k := 0 to |checks|
      invariant forall c :: c in pinned <==> Pins(checks[..k], c, id)
    {
      ghost var before := pinned;
      var context := Get(checks[k], "context");
      if Get(checks[k], "integration_id") == Some(Num(id)) && context.Some? && context.value.Str? {
        pinned := pinned + {context.value.s};
      }
      assert checks[..k + 1] == checks[..k] + [checks[k]];
      forall c ensures c in pinned <==> Pins(checks[..k + 1], c, id) {
        PinsConcat(checks[..k], [checks[k]], c, id);
        assert Pins([checks[k]], c, id) <==> PinsOne(checks[k], c, id) by {
          assert checks[k] in [checks[k]];
        }
      }
    }
    assert checks[..|checks|] == checks;
  }

  predicate RequiresOwnerReview(rule: Json) {
    GetIn(Get(rule, "parameters"), "require_code_owner_review") == Some(Bool(true))
  }

  predicate RequiresApproval(rule: Json) {
    var count := GetIn(Get(rule, "parameters"), "required_approving_review_count");
    count.Some? && count.value.Num? && count.value.n >= 1.0
  }

  predicate Enforces(mode: string, rule: Json) {
    (mode != "approving" && RequiresOwnerReview(rule)) || (mode != "code-owner" && RequiresApproval(rule))
  }

  /** Some review rule enforces the declared mode; "either" takes whichever of the two a rule sets. */
  predicate ReviewHolds(mode: string, rules: seq<Json>) {
    mode == "none" || exists rule :: rule in rules && IsReviewRule(rule) && Enforces(mode, rule)
  }

  function Mode(gates: Json): string
  {
    var mode := Get(gates, "pullRequestReview");
    if mode.Some? && mode.value.Str? then mode.value.s else ""
  }

  function Missing(declared: seq<string>, required: seq<string>): seq<string> {
    Filter(declared, (c: string) => c !in required)
  }

  /** The declared contexts, in order, that are required but pinned by no check. */
  ghost function Unpinned(declared: seq<string>, required: seq<string>, checks: seq<Json>,
                          id: Option<real>): seq<string>
  {
    if id.None? then []
    else Filter(declared, (c: string) => c in required && !Pins(checks, c, id.value))
  }

  /** The declared contexts that the rules require without pinning them to the declared id. */
  method WeaklySourced(declared: seq<string>, required: seq<string>, rules: seq<Json>, id: Option<real>)
    returns (weak: seq<string>)
    requires RulesWellFormed(rules)
    ensures weak == Unpinned(declared, required, Checks(rules), id)
  {
    hide Pins, Checks;
    if id.None? {
      return [];
    }
    var pinned := PinnedContexts(rules, id.value);
    weak := Filter(declared, (c: string) => c in required && c !in pinned);
    FilterAgrees(declared, (c: string) => c in required && c !in pinned,
      (c: string) => c in required && !Pins(Checks(rules), c, id.value));
  }

  method ReviewOk(mode: string, rules: seq<Json>) returns (ok: bool)
    requires mode in MODES
    ensures ok <==> ReviewHolds(mode, rules)
  {
    hide RequiresOwnerReview, RequiresApproval;
    var prRules := Filter(rules, (r: Json) => IsReviewRule(r));
    hide IsReviewRule;
    if mode == "none" {
      return true;
    } else if mode == "code-owner" {
      return exists r :: r in prRules && RequiresOwnerReview(r);
    } else if mode == "approving" {
      return exists r :: r in prRules && RequiresApproval(r);
    }
    return exists r :: r in prRules && (RequiresOwnerReview(r) || RequiresApproval(r));
  }

  function ParametersOf(rule: Json): Json {
    var parameters := Get(rule, "parameters");
    if parameters.Some? then parameters.value else Null
  }

  /** The parameters of the review rules, in the order of the rules. */
  function ReviewParameters(rules: seq<Json>): seq<Json> {
    if rules == [] then []
    else (if IsReviewRule(rules[0]) then [ParametersOf(rules[0])] else []) + ReviewParameters(rules[1..])
  }

  function Observed(rules: seq<Json>): Json {
    var seen := ReviewParameters(rules);
    if |seen| == 1 then seen[0] else Arr(seen)
  }

  /** What the verdict shows of the review rules. */
  method ObservedReview(rules: seq<Json>) returns (observed: Json)
    ensures observed == Observed(rules)
  {
    var prRules := Filter(rules, (r: Json) => IsReviewRule(r));
    ParametersAre(rules);
    observed :=
      if |prRules| == 1 then ParametersOf(prRules[0])
      else Arr(seq(|prRules|, i requires 0 <= i < |prRules| => ParametersOf(prRules[i])));
  }

  lemma {:induction false} ParametersAre(rules: seq<Json>)
    ensures var prRules := Filter(rules, (r: Json) => IsReviewRule(r));
      ReviewParameters(rules) == seq(|prRules|, i requires 0 <= i < |prRules| => ParametersOf(prRules[i]))
  {
    hide IsReviewRule, ParametersOf;
    if rules != [] {
      ParametersAre(rules[1..]);
    }
  }

  predicate Evaluable(gates: Json, rules: Json) {
    GatesWellFormed(gates) && rules.Arr? && RulesWellFormed(rules.items)
  }

  /** Declared and required contexts are the same set, all pinned if a source is declared, and review is enforced. */
  ghost predicate Protected(gates: Json, rules: seq<Json>) {
    && (forall c :: c in Declared(gates) <==> Asks(Checks(rules), c))
    && (DeclaredId(gates).Some? ==> forall c | c in Declared(gates) :: Pins(Checks(rules), c, DeclaredId(gates).value))
    && ReviewHolds(Mode(gates), rules)
  }

  // The same, told from the fields of the document and of the rules.

  /** A declared context that no check pins to the id in the document is denied, and named if it is required. */
  ghost predicate DeniesUnpinned(gates: Json, rules: seq<Json>, v: Verdict) {
    forall n: real, c: string |
        Get(gates, "integrationId") == Some(Num(n)) && c in Declared(gates) && Unpinning(Checks(rules), c, n) ::
      !v.ok && (c in ContextsOf(Checks(rules)) ==> c in v.weakSource)
  }

  ghost predicate Unpinning(checks: seq<Json>, c: string, n: real) {
    forall check | check in checks && Get(check, "context") == Some(Str(c)) ::
      Get(check, "integration_id") != Some(Num(n))
  }

  predicate AsksOwners(rule: Json) {
    GetIn(Get(rule, "parameters"), "require_code_owner_review") == Some(Bool(true))
  }

  predicate AsksApproval(rule: Json) {
    match GetIn(Get(rule, "parameters"), "required_approving_review_count")
    case Some(Num(n)) => n >= 1.0
    case _ => false
  }

  /** A rule on pull requests sets what the mode asks for. */
  predicate SetsReview(mode: string, rule: Json) {
    && Get(rule, "type") == Some(Str("pull_request"))
    && (((mode == "code-owner" || mode == "either") && AsksOwners(rule))
      || ((mode == "approving" || mode == "either") && AsksApproval(rule)))
  }

  /** Review is enforced exactly when the document asks for none or some rule sets what it asks for. */
  ghost predicate ReviewFollows(gates: Json, rules: seq<Json>, v: Verdict) {
    forall mode | Get(gates, "pullRequestReview") == Some(Str(mode)) ::
      && v.mode == mode
      && (v.reviewOk <==> mode == "none" || exists rule :: rule in rules && SetsReview(mode, rule))
      && (!v.reviewOk ==> !v.ok)
  }

  lemma {:induction false} UnpinnedIsDenied(gates: Json, rules: seq<Json>, n: real, c: string)
    requires Get(gates, "integrationId") == Some(Num(n)) && c in Declared(gates) && Unpinning(Checks(rules), c, n)
    ensures !Protected(gates, rules)
    ensures c in ContextsOf(Checks(rules)) ==>
      c in Unpinned(Declared(gates), ContextsOf(Checks(rules)), Checks(rules), DeclaredId(gates))
  {
    hide Declared, Checks, ContextsOf, ReviewHolds, Mode;
    assert DeclaredId(gates) == Some(n);
    assert !Pins(Checks(rules), c, n);
  }

  lemma {:induction false} ReviewIs(gates: Json, rules: seq<Json>, mode: string)
    requires Get(gates, "pullRequestReview") == Some(Str(mode)) && mode in MODES
    ensures Mode(gates) == mode
    ensures ReviewHolds(Mode(gates), rules)
       <==> mode == "none" || exists rule :: rule in rules && SetsReview(mode, rule)
  {
    hide RequiresOwnerReview, RequiresApproval, AsksOwners, AsksApproval;
    forall rule ensures RequiresOwnerReview(rule) <==> AsksOwners(rule)
      ensures RequiresApproval(rule) <==> AsksApproval(rule)
    {
      ReviewFields(rule);
    }
    forall rule ensures IsReviewRule(rule) && Enforces(mode, rule) && mode != "none" <==> SetsReview(mode, rule) {
    }
  }

  lemma ReviewFields(rule: Json)
    ensures RequiresOwnerReview(rule) <==> AsksOwners(rule)
    ensures RequiresApproval(rule) <==> AsksApproval(rule)
  {
  }

  method Evaluate(gates: Json, rules: Json) returns (r: Result<Verdict>)
    ensures r.Ok? <==> Evaluable(gates, rules)
    ensures r.Ok? ==> (r.value.ok <==> Protected(gates, rules.items))
    ensures r.Ok? ==> r.value.missing == Missing(Declared(gates), ContextsOf(Checks(rules.items)))
    ensures r.Ok? ==> r.value.undeclared == Missing(ContextsOf(Checks(rules.items)), Declared(gates))
    ensures r.Ok? ==> (var checks := Checks(rules.items);
      r.value.weakSource == Unpinned(Declared(gates), ContextsOf(checks), checks, DeclaredId(gates)))
    ensures r.Ok? ==> r.value.mode == Mode(gates) && (r.value.reviewOk <==> ReviewHolds(Mode(gates), rules.items))
    ensures r.Ok? ==> r.value.observed == Observed(rules.items)
    ensures r.Ok? ==> DeniesUnpinned(gates, rules.items, r.value) && ReviewFollows(gates, rules.items, r.value)
  {
    hide RulesWellFormed, Declared, Checks, ContextsOf, ReviewHolds, Pins, Asks, Observed;
    var declaredOrErr := DeclaredContexts(gates);
    if declaredOrErr.Err? {
      return Err(declaredOrErr.reason);
    }
    var requiredOrErr := RequiredContexts(rules);
    if requiredOrErr.Err? {
      return Err(requiredOrErr.reason);
    }
    var declared, required := declaredOrErr.value, requiredOrErr.value;
    var missing := Missing(declared, required);
    var undeclared := Missing(required, declared);
    var weakSource := WeaklySourced(declared, required, rules.items, DeclaredId(gates));
    ModeIsValid(gates);
    var mode := Mode(gates);
    var observed := ObservedReview(rules.items);
    var reviewOk := ReviewOk(mode, rules.items);
    var ok := |missing| == 0 && |undeclared| == 0 && |weakSource| == 0 && reviewOk;
    VerdictMeans(gates, rules.items, missing, undeclared, weakSource);
    var verdict := Verdict(ok, missing, undeclared, weakSource, mode, reviewOk, observed);
    VerdictFollows(gates, rules.items, verdict);
    return Ok(verdict);
  }

  lemma {:induction false} VerdictFollows(gates: Json, rules: seq<Json>, v: Verdict)
    requires GatesWellFormed(gates) && (v.ok <==> Protected(gates, rules)) && v.mode == Mode(gates)
    requires v.weakSource == Unpinned(Declared(gates), ContextsOf(Checks(rules)), Checks(rules), DeclaredId(gates))
    requires v.reviewOk <==> ReviewHolds(Mode(gates), rules)
    ensures DeniesUnpinned(gates, rules, v) && ReviewFollows(gates, rules, v)
  {
    hide Declared, Checks, ContextsOf, ReviewHolds, Unpinned, SetsReview, GatesWellFormed, Mode, DeclaredId, Unpinning;
    forall n: real, c: string |
        Get(gates, "integrationId") == Some(Num(n)) && c in Declared(gates) && Unpinning(Checks(rules), c, n)
      ensures !v.ok && (c in ContextsOf(Checks(rules)) ==> c in v.weakSource)
    {
      UnpinnedIsDenied(gates, rules, n, c);
    }
    forall mode | Get(gates, "pullRequestReview") == Some(Str(mode))
      ensures v.mode == mode
      ensures v.reviewOk <==> mode == "none" || exists rule :: rule in rules && SetsReview(mode, rule)
    {
      ModeInHead(gates, mode);
      ReviewIs(gates, rules, mode);
    }
  }

  lemma ModeInHead(gates: Json, mode: string)
    requires GatesWellFormed(gates) && Get(gates, "pullRequestReview") == Some(Str(mode))
    ensures mode in MODES
  {
    hide NoDuplicates, Declared, WorkflowWellFormed;
  }

  lemma ModeIsValid(gates: Json)
    requires GatesWellFormed(gates)
    ensures Mode(gates) in MODES
  {
    hide NoDuplicates, Declared, WorkflowWellFormed;
  }

  lemma EmptyMeans(xs: seq<string>)
    ensures xs == [] <==> forall x :: x !in xs
  {
    if xs != [] {
      assert xs[0] in xs;
    }
  }

  lemma VerdictMeans(gates: Json, rules: seq<Json>, missing: seq<string>, undeclared: seq<string>, weak: seq<string>)
    requires missing == Missing(Declared(gates), ContextsOf(Checks(rules)))
    requires undeclared == Missing(ContextsOf(Checks(rules)), Declared(gates))
    requires weak == Unpinned(Declared(gates), ContextsOf(Checks(rules)), Checks(rules), DeclaredId(gates))
    ensures (missing == [] && undeclared == [] && weak == [] && ReviewHolds(Mode(gates), rules))
      <==> Protected(gates, rules)
  {
    hide Declared, Checks, ContextsOf, ReviewHolds, Pins, Asks, DeclaredId, Mode;
    forall c ensures c in ContextsOf(Checks(rules)) <==> Asks(Checks(rules), c) {
      ContextsAreListed(Checks(rules), c);
    }
    EmptyMeans(missing);
    EmptyMeans(undeclared);
    EmptyMeans(weak);
  }

  // ----- what the verdict depends on

  /** Two rule lists ask for the same checks and hold the same review rules, however they group them. */
  ghost predicate SameFacts(a: seq<Json>, b: seq<Json>) {
    && (RulesWellFormed(a) <==> RulesWellFormed(b))
    && (forall check :: check in Checks(a) <==> check in Checks(b))
    && (forall rule | IsReviewRule(rule) :: rule in a <==> rule in b)
  }

  /**
   The same verdict, but for what it shows of the review rules, which follows their order: there is
   one or there is none, it is the same, so are the lists of missing and of weakly sourced
   contexts and whether review is enforced, and the undeclared contexts are the same set.
   */
  ghost predicate SameVerdict(gates: Json, a: seq<Json>, b: seq<Json>) {
    var declared, askedA, askedB := Declared(gates), ContextsOf(Checks(a)), ContextsOf(Checks(b));
    && (Evaluable(gates, Arr(a)) <==> Evaluable(gates, Arr(b)))
    && (Protected(gates, a) <==> Protected(gates, b))
    && Missing(declared, askedA) == Missing(declared, askedB)
    && Unpinned(declared, askedA, Checks(a), DeclaredId(gates))
      == Unpinned(declared, askedB, Checks(b), DeclaredId(gates))
    && (ReviewHolds(Mode(gates), a) <==> ReviewHolds(Mode(gates), b))
    && (forall c :: c in Missing(askedA, declared) <==> c in Missing(askedB, declared))
  }

  /** The verdict does not depend on the order or the grouping of rules. */
  lemma {:induction false} VerdictIgnoresGrouping(gates: Json, a: seq<Json>, b: seq<Json>)
    requires SameFacts(a, b)
    ensures SameVerdict(gates, a, b)
  {
    OkIgnoresGrouping(gates, a, b);
    ReviewSame(Mode(gates), a, b);
    hide SameFacts, Checks, ContextsOf, Protected, Evaluable, ReviewHolds, Declared, DeclaredId, Pins, Asks, Mode;
    hide Missing, Unpinned;
    var declared, id := Declared(gates), DeclaredId(gates);
    var checksA, checksB := Checks(a), Checks(b);
    forall c ensures c in ContextsOf(checksA) <==> c in ContextsOf(checksB) {
      ContextsAreListed(checksA, c);
      ContextsAreListed(checksB, c);
      SameAsked(a, b, c);
    }
    MissingAgree(declared, ContextsOf(checksA), ContextsOf(checksB));
    if id.Some? {
      forall c ensures Pins(checksA, c, id.value) <==> Pins(checksB, c, id.value) {
        SamePinned(a, b, c, id.value);
      }
    }
    UnpinnedAgree(declared, ContextsOf(checksA), ContextsOf(checksB), checksA, checksB, id);
  }

  lemma {:induction false} MissingAgree(declared: seq<string>, xs: seq<string>, ys: seq<string>)
    requires forall c :: c in xs <==> c in ys
    ensures Missing(declared, xs) == Missing(declared, ys)
    ensures forall c :: c in Missing(xs, declared) <==> c in Missing(ys, declared)
  {
    FilterAgrees(declared, (c: string) => c !in xs, (c: string) => c !in ys);
  }

  lemma {:induction false} UnpinnedAgree(declared: seq<string>, xs: seq<string>, ys: seq<string>,
                                         a: seq<Json>, b: seq<Json>, id: Option<real>)
    requires forall c :: c in xs <==> c in ys
    requires id.Some? ==> forall c :: Pins(a, c, id.value) <==> Pins(b, c, id.value)
    ensures Unpinned(declared, xs, a, id) == Unpinned(declared, ys, b, id)
  {
    hide Pins;
    if id.Some? {
      FilterAgrees(declared, (c: string) => c in xs && !Pins(a, c, id.value),
        (c: string) => c in ys && !Pins(b, c, id.value));
    }
  }

  lemma {:induction false} SameAsked(a: seq<Json>, b: seq<Json>, c: string)
    requires SameFacts(a, b)
    ensures Asks(Checks(a), c) <==> Asks(Checks(b), c)
  {
    hide Checks, RulesWellFormed, CheckContext, IsReviewRule;
  }

  lemma {:induction false} SamePinned(a: seq<Json>, b: seq<Json>, c: string, id: real)
    requires SameFacts(a, b)
    ensures Pins(Checks(a), c, id) <==> Pins(Checks(b), c, id)
  {
    hide Checks, RulesWellFormed, PinsOne, IsReviewRule;
  }

  lemma {:induction false} OkIgnoresGrouping(gates: Json, a: seq<Json>, b: seq<Json>)
    requires SameFacts(a, b)
    ensures Evaluable(gates, Arr(a)) <==> Evaluable(gates, Arr(b))
    ensures Protected(gates, a) <==> Protected(gates, b)
  {
    ReviewSame(Mode(gates), a, b);
    forall c ensures Asks(Checks(a), c) <==> Asks(Checks(b), c) {
      SameAsked(a, b, c);
    }
    forall c, id ensures Pins(Checks(a), c, id) <==> Pins(Checks(b), c, id) {
      SamePinned(a, b, c, id);
    }
    hide Checks, RulesWellFormed, Asks, Pins, IsReviewRule, ReviewHolds, GatesWellFormed;
  }

  lemma ReviewSame(mode: string, a: seq<Json>, b: seq<Json>)
    requires forall rule | IsReviewRule(rule) :: rule in a <==> rule in b
    ensures ReviewHolds(mode, a) <==> ReviewHolds(mode, b)
  {
    hide IsReviewRule, RequiresOwnerReview, RequiresApproval;
  }

  lemma {:induction false} ChecksMember(rules: seq<Json>, check: Json)
    ensures check in Checks(rules) <==> exists rule :: rule in rules && check in RuleChecks(rule)
  {
    hide RuleChecks;
    if rules != [] {
      assert rules == [rules[0]] + rules[1..];
      ChecksMember(rules[1..], check);
    }
  }

  lemma PermutedRulesSameFacts(a: seq<Json>, b: seq<Json>)
    requires multiset(a) == multiset(b)
    ensures SameFacts(a, b)
  {
    hide Checks, RuleChecks, RuleWellFormed, IsReviewRule;
    SameMembers(a, b);
    forall check ensures check in Checks(a) <==> check in Checks(b) {
      ChecksMember(a, check);
      ChecksMember(b, check);
    }
  }

  /** Three status rules, of which the last two list between them the checks of the first. */
  ghost predicate SplitsInto(whole: Json, one: Json, two: Json) {
    && IsStatusRule(whole) && IsStatusRule(one) && IsStatusRule(two)
    && ListedChecks(whole).Some? && ListedChecks(one).Some? && ListedChecks(two).Some?
    && forall check ::
      check in ListedChecks(whole).value <==> check in ListedChecks(one).value || check in ListedChecks(two).value
  }

  /** One status rule in place of two that list its checks between them, or the other way round. */
  lemma SplitRuleSameFacts(before: seq<Json>, whole: Json, one: Json, two: Json, after: seq<Json>)
    requires SplitsInto(whole, one, two)
    ensures SameFacts(before + [whole] + after, before + [one, two] + after)
  {
    var a, b := before + [whole] + after, before + [one, two] + after;
    StatusIsNoReview(whole);
    StatusIsNoReview(one);
    StatusIsNoReview(two);
    RuleChecksAre(whole);
    RuleChecksAre(one);
    RuleChecksAre(two);
    hide Checks, RuleChecks, RuleWellFormed, IsReviewRule, IsStatusRule, ListedChecks;
    assert forall rule :: rule in a <==> rule in before || rule == whole || rule in after;
    assert forall rule :: rule in b <==> rule in before || rule == one || rule == two || rule in after;
    forall check ensures check in Checks(a) <==> check in Checks(b) {
      ChecksMember(a, check);
      ChecksMember(b, check);
    }
  }

  /** Permuting the rules does not change the verdict. */
  lemma {:induction false} PermutedRulesKeepVerdict(gates: Json, a: seq<Json>, b: seq<Json>)
    requires multiset(a) == multiset(b)
    ensures SameVerdict(gates, a, b)
  {
    hide SameFacts, SameVerdict;
    PermutedRulesSameFacts(a, b);
    VerdictIgnoresGrouping(gates, a, b);
  }

  /** Nor does splitting a status rule in two, or merging two into one. */
  lemma {:induction false} SplitRuleKeepsVerdict(gates: Json, before: seq<Json>, whole: Json, one: Json, two: Json,
                                                 after: seq<Json>)
    requires SplitsInto(whole, one, two)
    ensures SameVerdict(gates, before + [whole] + after, before + [one, two] + after)
  {
    SplitRuleSameFacts(before, whole, one, two, after);
    hide SameFacts, SameVerdict;
    VerdictIgnoresGrouping(gates, before + [whole] + after, before + [one, two] + after);
  }

  // ----- what the verdict shows of the review rules

  lemma {:induction false} ParametersConcat(a: seq<Json>, b: seq<Json>)
    ensures ReviewParameters(a + b) == ReviewParameters(a) + ReviewParameters(b)
  {
    hide IsReviewRule, ParametersOf;
    if a == [] {
      assert a + b == b;
    } else {
      var head := if IsReviewRule(a[0]) then [ParametersOf(a[0])] else [];
      assert (a + b)[1..] == a[1..] + b;
      ParametersConcat(a[1..], b);
      assert ReviewParameters(a) == head + ReviewParameters(a[1..]);
      assert ReviewParameters(a + b) == head + ReviewParameters(a[1..] + b);
      hide ReviewParameters;
      Assoc(head, ReviewParameters(a[1..]), ReviewParameters(b));
    }
  }

  lemma {:induction false} ParametersPermuted(a: seq<Json>, b: seq<Json>)
    requires multiset(a) == multiset(b)
    ensures multiset(ReviewParameters(a)) == multiset(ReviewParameters(b))
  {
    if a == [] {
      assert |multiset(b)| == |b|;
    } else {
      hide ReviewParameters;
      var x, rest := a[0], a[1..];
      assert a == [x] + rest && x in multiset(a);
      var i :| 0 <= i < |b| && b[i] == x;
      var p, r := b[..i], b[i + 1..];
      assert b == p + [x] + r;
      WithoutOne(x, rest, p, r);
      ParametersPermuted(rest, p + r);
      ParametersConcat([x], rest);
      ParametersConcat(p, r);
      ParametersConcat(p + [x], r);
      ParametersConcat(p, [x]);
    }
  }

  /**
   The one part of the verdict that follows the order of the rules. Permuted rules show the same
   parameters, but in their order: the part is the same exactly when the review rules have
   their parameters in the same order.
   */
  lemma {:induction false} ObservedFollowsOrderIff(a: seq<Json>, b: seq<Json>)
    requires multiset(a) == multiset(b)
    ensures multiset(ReviewParameters(a)) == multiset(ReviewParameters(b))
    ensures Observed(a) == Observed(b) <==> ReviewParameters(a) == ReviewParameters(b)
  {
    hide ReviewParameters;
    ParametersPermuted(a, b);
    var xs, ys := ReviewParameters(a), ReviewParameters(b);
    assert |xs| == |multiset(xs)| == |multiset(ys)| == |ys|;
    if |xs| == 1 {
      assert xs == [xs[0]] && ys == [ys[0]];
    }
  }

  /** Splitting a status rule in two, or merging two into one, does not show. */
  lemma {:induction false} SplitRuleKeepsObserved(before: seq<Json>, whole: Json, one: Json, two: Json,
                                                  after: seq<Json>)
    requires SplitsInto(whole, one, two)
    ensures Observed(before + [whole] + after) == Observed(before + [one, two] + after)
  {
    StatusIsNoReview(whole);
    StatusIsNoReview(one);
    StatusIsNoReview(two);
    assert ReviewParameters([whole]) == [] by { assert [whole][1..] == []; }
    assert ReviewParameters([one, two]) == [] by { assert [one, two][1..] == [two] && [two][1..] == []; }
    hide ReviewParameters, SplitsInto;
    ParametersConcat(before + [whole], after);
    ParametersConcat(before, [whole]);
    ParametersConcat(before + [one, two], after);
    ParametersConcat(before, [one, two]);
  }

  lemma StatusIsNoReview(rule: Json)
    requires IsStatusRule(rule)
    ensures !IsReviewRule(rule)
  {
    assert |"required_status_checks"| != |"pull_request"|;
  }
}
