/** The comparison of declared merge-blocking contexts with the rules that protect the branch. */
module GateLiveness {
  import opened Text

  datatype Json =
    | Null
    | Bool(b: bool)
    | Num(n: real)
    | Str(s: string)
    | Arr(items: seq<Json>)
    | Obj(fields: seq<(string, Json)>)

  function Lookup(fields: seq<(string, Json)>, key: string): Option<Json> {
    if fields == [] then None
    else if fields[0].0 == key then Some(fields[0].1)
    else Lookup(fields[1..], key)
  }

  /** A property of a value; undefined for what is no object. */
  function Get(j: Json, key: string): Option<Json> {
    if j.Obj? then Lookup(j.fields, key) else None
  }

  function GetIn(j: Option<Json>, key: string): Option<Json> {
    if j.Some? then Get(j.value, key) else None
  }

  predicate IsObject(j: Json) { j.Obj? || j.Arr? }

  function FieldValues(fields: seq<(string, Json)>): seq<Json> {
    if fields == [] then [] else [fields[0].1] + FieldValues(fields[1..])
  }

  /** The values that `Object.entries` runs over. */
  function Values(j: Json): seq<Json> {
    match j
    case Obj(fields) => FieldValues(fields)
    case Arr(items) => items
    case _ => []
  }

  predicate NonBlank(j: Json) { j.Str? && Trim(j.s) != "" }

  const MODES: seq<string> := ["none", "code-owner", "approving", "either"]

  const MAX_SAFE := 9007199254740991.0

  predicate IsIntegrationId(j: Json) {
    j.Num? && j.n == j.n.Floor as real && 0.0 < j.n <= MAX_SAFE
  }

  // ----- the declared contexts

  function Strings(items: seq<Json>): seq<string> {
    seq(|items|, i requires 0 <= i < |items| => if items[i].Str? then items[i].s else "")
  }

  predicate IsBlocking(job: Json) { Get(job, "blocking") == Some(Bool(true)) }

  function JobContexts(job: Json): seq<string> {
    var listed := Get(job, "contexts");
    if IsBlocking(job) && listed.Some? && listed.value.Arr? then Strings(listed.value.items) else []
  }

  predicate JobWellFormed(job: Json) {
    && IsObject(job)
    && var blocking := Get(job, "blocking");
    && blocking.Some? && blocking.value.Bool?
    && if blocking.value.b then
        var listed := Get(job, "contexts");
        listed.Some? && listed.value.Arr? && listed.value.items != []
        && forall c | c in listed.value.items :: NonBlank(c)
      else
        var why := Get(job, "why");
        why.Some? && NonBlank(why.value)
  }

  function JobsContexts(jobs: seq<Json>): seq<string> {
    if jobs == [] then [] else JobContexts(jobs[0]) + JobsContexts(jobs[1..])
  }

  predicate WorkflowWellFormed(workflow: Json) {
    IsObject(workflow) && forall job | job in Values(workflow) :: JobWellFormed(job)
  }

  function WorkflowsContexts(workflows: seq<Json>): seq<string> {
    if workflows == [] then [] else JobsContexts(Values(workflows[0])) + WorkflowsContexts(workflows[1..])
  }

  predicate HeadWellFormed(gates: Json) {
    && IsObject(gates)
    && (var mode := Get(gates, "pullRequestReview"); mode.Some? && mode.value.Str? && mode.value.s in MODES)
    && (var id := Get(gates, "integrationId"); id.Some? ==> IsIntegrationId(id.value))
    && (var workflows := Get(gates, "workflows"); workflows.Some? && IsObject(workflows.value))
  }

  function Workflows(gates: Json): seq<Json> {
    var workflows := Get(gates, "workflows");
    if workflows.Some? then Values(workflows.value) else []
  }

  /** Every context that the document declares as blocking, in file order. */
  function Declared(gates: Json): seq<string> { WorkflowsContexts(Workflows(gates)) }

  predicate NoDuplicates(xs: seq<string>) { forall i, j :: 0 <= i < j < |xs| ==> xs[i] != xs[j] }

  predicate GatesWellFormed(gates: Json) {
    && HeadWellFormed(gates)
    && (forall w | w in Workflows(gates) :: WorkflowWellFormed(w))
    && NoDuplicates(Declared(gates)) && Declared(gates) != []
  }

  lemma {:induction false} JobsConcat(a: seq<Json>, b: seq<Json>)
    ensures JobsContexts(a + b) == JobsContexts(a) + JobsContexts(b)
  {
    if a == [] {
      assert a + b == b;
    } else {
      assert (a + b)[1..] == a[1..] + b;
      JobsConcat(a[1..], b);
    }
  }

  lemma {:induction false} WorkflowsConcat(a: seq<Json>, b: seq<Json>)
    ensures WorkflowsContexts(a + b) == WorkflowsContexts(a) + WorkflowsContexts(b)
  {
    if a == [] {
      assert a + b == b;
    } else {
      assert (a + b)[1..] == a[1..] + b;
      WorkflowsConcat(a[1..], b);
    }
  }

  lemma DuplicateSnoc(xs: seq<string>, c: string)
    ensures NoDuplicates(xs + [c]) <==> NoDuplicates(xs) && c !in xs
  {
    var ys := xs + [c];
    if NoDuplicates(ys) {
      assert forall i, j | 0 <= i < j < |xs| :: ys[i] == xs[i] && ys[j] == xs[j];
      assert forall i | 0 <= i < |xs| :: ys[i] == xs[i] && ys[|xs|] == c;
    }
  }

  lemma DuplicateStays(xs: seq<string>, ys: seq<string>)
    requires !NoDuplicates(xs)
    ensures !NoDuplicates(xs + ys)
  {
    var i, j :| 0 <= i < j < |xs| && xs[i] == xs[j];
    assert (xs + ys)[i] == (xs + ys)[j];
  }

  // The three nested loops of the source, which share the list of contexts and the set of
  // those seen; each stops at the first fault.

  method AddContexts(items: seq<Json>, contexts0: seq<string>) returns (ok: bool, contexts: seq<string>)
    requires NoDuplicates(contexts0)
    ensures ok <==> (forall c | c in items :: NonBlank(c)) && NoDuplicates(contexts0 + Strings(items))
    ensures ok ==> contexts == contexts0 + Strings(items)
  {
    hide NoDuplicates, NonBlank;
    contexts := contexts0;
    var seen := set c | c in contexts0;
    ghost var all := Strings(items);
    for k := 0 to |items|
      invariant NoDuplicates(contexts) && contexts == contexts0 + all[..k]
      invariant seen == set c | c in contexts
      invariant forall i | 0 <= i < k :: NonBlank(items[i])
    {
      var c := items[k];
      if !NonBlank(c) {
        return false, contexts;
      }
      NonBlankIsText(c);
      DuplicateSnoc(contexts, c.s);
      assert contexts0 + all == (contexts + [c.s]) + all[k + 1..];
      if c.s in seen {
        DuplicateStays(contexts + [c.s], all[k + 1..]);
        return false, contexts;
      }
      seen := seen + {c.s};
      contexts := contexts + [c.s];
    }
    assert all[..|items|] == all;
    return true, contexts;
  }

  lemma NonBlankIsText(c: Json)
    requires NonBlank(c)
    ensures c.Str?
  {
  }

  method AddJobs(jobs: seq<Json>, contexts0: seq<string>) returns (ok: bool, contexts: seq<string>)
    requires NoDuplicates(contexts0)
    ensures ok <==> (forall j | j in jobs :: JobWellFormed(j)) && NoDuplicates(contexts0 + JobsContexts(jobs))
    ensures ok ==> contexts == contexts0 + JobsContexts(jobs)
  {
    hide NoDuplicates, JobWellFormed, JobContexts;
    contexts := contexts0;
    assert contexts0 + [] == contexts0;
    for k := 0 to |jobs|
      invariant NoDuplicates(contexts) && contexts == contexts0 + JobsContexts(jobs[..k])
      invariant forall i | 0 <= i < k :: JobWellFormed(jobs[i])
    {
      JobsSnoc(jobs, k);
      var added: bool;
      ghost var longer := contexts + JobContexts(jobs[k]);
      Assoc(contexts0, JobsContexts(jobs[..k]), JobContexts(jobs[k]));
      Assoc(longer, JobsContexts(jobs[k + 1..]), []);
      added, contexts := AddJob(jobs[k], contexts);
      if !added {
        assert contexts0 + JobsContexts(jobs) == longer + JobsContexts(jobs[k + 1..]);
        if JobWellFormed(jobs[k]) {
          DuplicateStays(longer, JobsContexts(jobs[k + 1..]));
        }
        return false, contexts;
      }
    }
    assert jobs[..|jobs|] == jobs;
    return true, contexts;
  }

  lemma {:induction false} JobsSnoc(jobs: seq<Json>, k: nat)
    requires k < |jobs|
    ensures JobsContexts(jobs[..k + 1]) == JobsContexts(jobs[..k]) + JobContexts(jobs[k])
    ensures JobsContexts(jobs) == JobsContexts(jobs[..k]) + JobContexts(jobs[k]) + JobsContexts(jobs[k + 1..])
  {
    hide JobContexts;
    assert jobs[..k + 1] == jobs[..k] + [jobs[k]] && [jobs[k]][1..] == [];
    JobsConcat(jobs[..k], [jobs[k]]);
    assert jobs == jobs[..k + 1] + jobs[k + 1..];
    JobsConcat(jobs[..k + 1], jobs[k + 1..]);
  }

  /** The checks on one job, in the order of the source. */
  method AddJob(job: Json, contexts0: seq<string>) returns (ok: bool, contexts: seq<string>)
    requires NoDuplicates(contexts0)
    ensures ok <==> JobWellFormed(job) && NoDuplicates(contexts0 + JobContexts(job))
    ensures ok ==> contexts == contexts0 + JobContexts(job)
  {
    hide NoDuplicates, NonBlank;
    contexts := contexts0;
    assert contexts0 + [] == contexts0;
    if !IsObject(job) {
      return false, contexts;
    }
    var blocking := Get(job, "blocking");
    if blocking.None? || !blocking.value.Bool? {
      return false, contexts;
    }
    if blocking.value.b {
      var listed := Get(job, "contexts");
      if listed.None? || !listed.value.Arr? || |listed.value.items| == 0 {
        return false, contexts;
      }
      ok, contexts := AddContexts(listed.value.items, contexts0);
      return;
    }
    var why := Get(job, "why");
    return why.Some? && NonBlank(why.value), contexts;
  }

  /** The declared contexts in file order, or the fault that makes the document invalid. */
  method DeclaredContexts(gates: Json) returns (r: Result<seq<string>>)
    ensures r.Ok? <==> GatesWellFormed(gates)
    ensures r.Ok? ==> r.value == Declared(gates)
  {
    hide NoDuplicates, WorkflowsContexts, JobsContexts, JobWellFormed;
    if !HeadWellFormed(gates) {
      return Err("invalid required-gates document");
    }
    var workflows := Workflows(gates);
    var contexts: seq<string> := [];
    NoneDuplicate();
    for k := 0 to |workflows|
      invariant NoDuplicates(contexts) && contexts == WorkflowsContexts(workflows[..k])
      invariant forall i | 0 <= i < k :: WorkflowWellFormed(workflows[i])
    {
      WorkflowsSnoc(workflows, k);
      if !IsObject(workflows[k]) {
        assert !WorkflowWellFormed(workflows[k]);
        return Err("invalid workflow entry");
      }
      var added: bool;
      ghost var longer := contexts + JobsContexts(Values(workflows[k]));
      added, contexts := AddJobs(Values(workflows[k]), contexts);
      if !added {
        if WorkflowWellFormed(workflows[k]) {
          DuplicateStays(longer, WorkflowsContexts(workflows[k + 1..]));
        }
        return Err("invalid job entry or context");
      }
    }
    assert workflows[..|workflows|] == workflows;
    if |contexts| == 0 {
      return Err("no blocking context");
    }
    return Ok(contexts);
  }

  lemma NoneDuplicate()
    ensures NoDuplicates([]) && WorkflowsContexts([]) == []
  {
  }

  lemma {:induction false} WorkflowsSnoc(ws: seq<Json>, k: nat)
    requires k < |ws|
    ensures WorkflowsContexts(ws[..k + 1]) == WorkflowsContexts(ws[..k]) + JobsContexts(Values(ws[k]))
    ensures WorkflowsContexts(ws)
         == WorkflowsContexts(ws[..k]) + JobsContexts(Values(ws[k])) + WorkflowsContexts(ws[k + 1..])
  {
    hide JobsContexts, Values;
    assert ws[..k + 1] == ws[..k] + [ws[k]] && [ws[k]][1..] == [];
    WorkflowsConcat(ws[..k], [ws[k]]);
    assert ws == ws[..k + 1] + ws[k + 1..];
    WorkflowsConcat(ws[..k + 1], ws[k + 1..]);
  }

  // ----- the required contexts

  predicate IsStatusRule(rule: Json) { Get(rule, "type") == Some(Str("required_status_checks")) }

  predicate IsReviewRule(rule: Json) { Get(rule, "type") == Some(Str("pull_request")) }

  /** The checks that a status rule lists; None when they are no list. */
  function ListedChecks(rule: Json): Option<seq<Json>> {
    var checks := GetIn(Get(rule, "parameters"), "required_status_checks");
    if checks.Some? && checks.value.Arr? then Some(checks.value.items) else None
  }

  function RuleChecks(rule: Json): seq<Json> {
    if IsStatusRule(rule) && ListedChecks(rule).Some? then ListedChecks(rule).value else []
  }

  /** The checks of all the status rules, in order. */
  function Checks(rules: seq<Json>): seq<Json> {
    if rules == [] then [] else RuleChecks(rules[0]) + Checks(rules[1..])
  }

  predicate RuleWellFormed(rule: Json) { IsStatusRule(rule) ==> ListedChecks(rule).Some? }

  predicate RulesWellFormed(rules: seq<Json>) {
    forall rule | rule in rules :: RuleWellFormed(rule)
  }

  function CheckContext(check: Json): Option<string> {
    var c := Get(check, "context");
    if c.Some? && c.value.Str? && c.value.s != "" then Some(c.value.s) else None
  }

  /** The contexts of a list of checks, each where it first occurs. */
  function ContextsOf(checks: seq<Json>): (r: seq<string>)
    ensures NoDuplicates(r)
  {
    if checks == [] then []
    else
      var init, last := checks[..|checks| - 1], checks[|checks| - 1];
      var before, c := ContextsOf(init), CheckContext(last);
      if c.Some? && c.value !in before then before + [c.value] else before
  }

  ghost predicate Asks(checks: seq<Json>, context: string) {
    exists check :: check in checks && CheckContext(check) == Some(context)
  }

  /** Nothing is lost and nothing added by leaving repetitions out. */
  lemma {:induction false} ContextsAreListed(checks: seq<Json>, context: string)
    ensures context in ContextsOf(checks) <==> Asks(checks, context)
    decreases |checks|
  {
    hide CheckContext;
    if checks != [] {
      var init, last := checks[..|checks| - 1], checks[|checks| - 1];
      assert checks == init + [last];
      ContextsAreListed(init, context);
      assert Asks(checks, context) <==> Asks(init, context) || CheckContext(last) == Some(context);
    }
  }

  method RequiredContexts(rules: Json) returns (r: Result<seq<string>>)
    ensures r.Ok? <==> rules.Arr? && RulesWellFormed(rules.items)
    ensures r.Ok? ==> r.value == ContextsOf(Checks(rules.items))
  {
    if !rules.Arr? {
      return Err("rules payload must be an array");
    }
    hide RuleChecks, ContextsOf, Checks, RulesWellFormed, RuleWellFormed, IsStatusRule, ListedChecks;
    var items := rules.items;
    var contexts: seq<string> := [];
    NoContexts();
    for i := 0 to |items|
      invariant contexts == ContextsOf(Checks(items[..i])) && RulesWellFormed(items[..i])
    {
      var rule := items[i];
      ChecksSnoc(items, i);
      RuleChecksAre(rule);
      WellFormedSnoc(items, i);
      if IsStatusRule(rule) {
        var checks := ListedChecks(rule);
        if checks.None? {
          return Err("required_status_checks is not an array");
        }
        contexts := AddChecks(checks.value, Checks(items[..i]), contexts);
      } else {
        Assoc(Checks(items[..i]), [], []);
      }
    }
    assert items[..|items|] == items;
    return Ok(contexts);
  }

  lemma WellFormedSnoc(rules: seq<Json>, i: nat)
    requires i < |rules|
    ensures RulesWellFormed(rules[..i + 1]) <==> RulesWellFormed(rules[..i]) && RuleWellFormed(rules[i])
    ensures RulesWellFormed(rules) ==> RuleWellFormed(rules[i])
  {
    hide RuleWellFormed;
    assert rules[..i + 1] == rules[..i] + [rules[i]];
  }

  /** The inner loop: the contexts of one rule's checks, without those already seen. */
  method AddChecks(checks: seq<Json>, ghost before: seq<Json>, contexts0: seq<string>) returns (contexts: seq<string>)
    requires contexts0 == ContextsOf(before)
    ensures contexts == ContextsOf(before + checks)
  {
    hide ContextsOf, CheckContext;
    contexts := contexts0;
    var seen := set c | c in contexts0;
    assert before + checks[..0] == before;
    for k := 0 to |checks|
      invariant contexts == ContextsOf(before + checks[..k]) && seen == set c | c in contexts
    {
      var ctx := CheckContext(checks[k]);
      assert before + checks[..k + 1] == before + checks[..k] + [checks[k]];
      ContextsSnoc(before + checks[..k], checks[k]);
      if ctx.Some? && ctx.value !in seen {
        seen := seen + {ctx.value};
        contexts := contexts + [ctx.value];
      }
    }
    assert checks[..|checks|] == checks;
  }

  lemma NoContexts()
    ensures ContextsOf(Checks([])) == [] && RulesWellFormed([])
  {
    assert Checks([]) == [];
  }

  lemma ContextsSnoc(checks: seq<Json>, last: Json)
    ensures var before, c := ContextsOf(checks), CheckContext(last);
      ContextsOf(checks + [last]) == if c.Some? && c.value !in before then before + [c.value] else before
  {
    hide CheckContext;
    assert (checks + [last])[..|checks|] == checks;
  }

  lemma RuleChecksAre(rule: Json)
    ensures IsStatusRule(rule) && ListedChecks(rule).Some? ==> RuleChecks(rule) == ListedChecks(rule).value
    ensures !IsStatusRule(rule) ==> RuleChecks(rule) == []
    ensures RuleWellFormed(rule) <==> !IsStatusRule(rule) || ListedChecks(rule).Some?
  {
  }

  lemma {:induction false} ChecksConcat(a: seq<Json>, b: seq<Json>)
    ensures Checks(a + b) == Checks(a) + Checks(b)
  {
    hide RuleChecks;
    if a == [] {
      assert a + b == b;
    } else {
      assert (a + b)[1..] == a[1..] + b;
      ChecksConcat(a[1..], b);
    }
  }

  lemma ChecksSnoc(rules: seq<Json>, i: nat)
    requires i < |rules|
    ensures Checks(rules[..i + 1]) == Checks(rules[..i]) + RuleChecks(rules[i])
  {
    hide RuleChecks;
    assert rules[..i + 1] == rules[..i] + [rules[i]] && [rules[i]][1..] == [];
    ChecksConcat(rules[..i], [rules[i]]);
  }
}
