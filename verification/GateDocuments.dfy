/**
 The gate on documents and rule lists as they are written: plain data, written as JSON with the keys
 that the files have, and what the gate makes of it, told from the data alone.
 */
module GateDocuments {
  import opened Text
  import opened GateLiveness
  import opened GateVerdict

  // ----- the declaration

  datatype Job = Blocking(contexts: seq<string>) | Advisory(why: string)

  /** A workflow is a list of named jobs. */
  type Workflow = seq<(string, Job)>

  datatype Declaration = Declaration(branch: string, mode: string, id: Option<int>, workflows: seq<(string, Workflow)>)

  function Texts(xs: seq<string>): seq<Json> {
    seq(|xs|, i requires 0 <= i < |xs| => Str(xs[i]))
  }

  function WriteJob(job: Job): Json {
    match job
    case Blocking(contexts) => Obj([("blocking", Bool(true)), ("contexts", Arr(Texts(contexts)))])
    case Advisory(why) => Obj([("blocking", Bool(false)), ("why", Str(why))])
  }

  function WriteJobs(jobs: Workflow): seq<(string, Json)> {
    if jobs == [] then [] else [(jobs[0].0, WriteJob(jobs[0].1))] + WriteJobs(jobs[1..])
  }

  function WriteWorkflows(ws: seq<(string, Workflow)>): seq<(string, Json)> {
    if ws == [] then [] else [(ws[0].0, Obj(WriteJobs(ws[0].1)))] + WriteWorkflows(ws[1..])
  }

  function Write(d: Declaration): Json {
    Obj([("branch", Str(d.branch)), ("pullRequestReview", Str(d.mode))]
      + (if d.id.Some? then [("integrationId", Num(d.id.value as real))] else [])
      + [("workflows", Obj(WriteWorkflows(d.workflows)))])
  }

  /** The contexts of the blocking jobs, in order. */
  function ContextsOfJobs(jobs: Workflow): seq<string> {
    if jobs == [] then []
    else (if jobs[0].1.Blocking? then jobs[0].1.contexts else []) + ContextsOfJobs(jobs[1..])
  }

  function Contexts(ws: seq<(string, Workflow)>): seq<string> {
    if ws == [] then [] else ContextsOfJobs(ws[0].1) + Contexts(ws[1..])
  }

  predicate JobIsSound(job: Job) {
    match job
    case Blocking(contexts) => contexts != [] && forall c | c in contexts :: Trim(c) != ""
    case Advisory(why) => Trim(why) != ""
  }

  predicate JobsAreSound(jobs: Workflow) { forall j | j in jobs :: JobIsSound(j.1) }

  predicate WorkflowsAreSound(ws: seq<(string, Workflow)>) { forall w | w in ws :: JobsAreSound(w.1) }

  /**
   What the gate asks of a declaration: one of the four modes, an id that is a positive safe integer
   if there is one, contexts for every blocking job and a reason for every other one, no
   context twice, and at least one.
   */
  predicate IsSound(d: Declaration) {
    && d.mode in {"none", "code-owner", "approving", "either"}
    && (d.id.Some? ==> 1 <= d.id.value <= 9_007_199_254_740_991)
    && WorkflowsAreSound(d.workflows)
    && (forall i, j | 0 <= i < j < |Contexts(d.workflows)| :: Contexts(d.workflows)[i] != Contexts(d.workflows)[j])
    && Contexts(d.workflows) != []
  }

  lemma {:induction false} TextsAre(xs: seq<string>)
    ensures Strings(Texts(xs)) == xs
    ensures (forall c | c in Texts(xs) :: NonBlank(c)) <==> forall c | c in xs :: Trim(c) != ""
  {
    hide Trim;
    forall i | 0 <= i < |xs| ensures NonBlank(Texts(xs)[i]) <==> Trim(xs[i]) != "" {
    }
    if forall c | c in Texts(xs) :: NonBlank(c) {
      forall c | c in xs ensures Trim(c) != "" {
        var i :| 0 <= i < |xs| && xs[i] == c;
        assert Texts(xs)[i] in Texts(xs);
      }
    }
  }

  lemma JobFields(job: Job)
    ensures var w := WriteJob(job);
      && Get(w, "blocking") == Some(Bool(job.Blocking?)) && IsObject(w)
      && (job.Blocking? ==> Get(w, "contexts") == Some(Arr(Texts(job.contexts))))
      && (job.Advisory? ==> Get(w, "why") == Some(Str(job.why)))
  {
    hide Texts;
    var fields := WriteJob(job).fields;
    SecondField(fields, fields[0].0);
    SecondField(fields, fields[1].0);
  }

  lemma SecondField(fields: seq<(string, Json)>, key: string)
    requires |fields| == 2 && fields[0].0 != fields[1].0 && (key == fields[0].0 || key == fields[1].0)
    ensures Lookup(fields, key) == Some(if key == fields[0].0 then fields[0].1 else fields[1].1)
  {
    assert fields[1..][0] == fields[1];
  }

  lemma {:induction false} JobIs(job: Job)
    ensures JobContexts(WriteJob(job)) == if job.Blocking? then job.contexts else []
    ensures JobWellFormed(WriteJob(job)) <==> JobIsSound(job)
  {
    JobFields(job);
    hide WriteJob, Trim, Get;
    if job.Blocking? {
      TextsAre(job.contexts);
      assert |Texts(job.contexts)| == |job.contexts|;
    }
  }

  lemma {:induction false} JobsAre(jobs: Workflow)
    ensures JobsContexts(FieldValues(WriteJobs(jobs))) == ContextsOfJobs(jobs)
    ensures (forall j | j in FieldValues(WriteJobs(jobs)) :: JobWellFormed(j)) <==> JobsAreSound(jobs)
  {
    hide JobWellFormed, JobContexts, WriteJob, JobIsSound;
    if jobs != [] {
      var head, rest := jobs[0].1, jobs[1..];
      assert jobs == [jobs[0]] + rest;
      JobIs(head);
      JobsAre(rest);
      assert WriteJobs(jobs)[1..] == WriteJobs(rest);
      var values := FieldValues(WriteJobs(jobs));
      assert values == [WriteJob(head)] + FieldValues(WriteJobs(rest));
      assert values[1..] == FieldValues(WriteJobs(rest));
    }
  }

  lemma {:induction false} WorkflowsAre(ws: seq<(string, Workflow)>)
    ensures WorkflowsContexts(FieldValues(WriteWorkflows(ws))) == Contexts(ws)
    ensures (forall w | w in FieldValues(WriteWorkflows(ws)) :: WorkflowWellFormed(w)) <==> WorkflowsAreSound(ws)
  {
    hide JobWellFormed, JobsContexts, WriteJobs, JobsAreSound, ContextsOfJobs;
    if ws != [] {
      var head, rest := ws[0].1, ws[1..];
      assert ws == [ws[0]] + rest;
      JobsAre(head);
      WorkflowsAre(rest);
      assert WriteWorkflows(ws)[1..] == WriteWorkflows(rest);
      var values := FieldValues(WriteWorkflows(ws));
      assert values == [Obj(WriteJobs(head))] + FieldValues(WriteWorkflows(rest));
      assert values[1..] == FieldValues(WriteWorkflows(rest));
      assert WorkflowWellFormed(Obj(WriteJobs(head))) <==> JobsAreSound(head);
    }
  }

  lemma {:induction false} LookupConcat(a: seq<(string, Json)>, b: seq<(string, Json)>, key: string)
    ensures Lookup(a + b, key) == if Lookup(a, key).Some? then Lookup(a, key) else Lookup(b, key)
  {
    if a == [] {
      assert a + b == b;
    } else {
      assert (a + b)[1..] == a[1..] + b;
      LookupConcat(a[1..], b, key);
    }
  }

  lemma OneField(key: string, value: Json, other: string)
    ensures Lookup([(key, value)], other) == if other == key then Some(value) else None
  {
    assert [(key, value)][1..] == [];
  }

  lemma KeysDiffer()
    ensures "branch" != "pullRequestReview" && "branch" != "integrationId" && "branch" != "workflows"
    ensures "pullRequestReview" != "integrationId" && "pullRequestReview" != "workflows"
    ensures "integrationId" != "workflows"
  {
    assert |"branch"| == 6 && |"pullRequestReview"| == 17 && |"integrationId"| == 13 && |"workflows"| == 9;
  }

  /** Each key of a written declaration has the value it was written with. */
  lemma {:induction false} HeadFields(d: Declaration)
    ensures Get(Write(d), "branch") == Some(Str(d.branch))
    ensures Get(Write(d), "pullRequestReview") == Some(Str(d.mode))
    ensures Get(Write(d), "integrationId") == if d.id.Some? then Some(Num(d.id.value as real)) else None
    ensures Get(Write(d), "workflows") == Some(Obj(WriteWorkflows(d.workflows)))
  {
    hide WriteWorkflows, Lookup;
    KeysDiffer();
    var b, m, w := ("branch", Str(d.branch)), ("pullRequestReview", Str(d.mode)), Obj(WriteWorkflows(d.workflows));
    var id := if d.id.Some? then [("integrationId", Num(d.id.value as real))] else [];
    assert Lookup([], "") == None by { NoField(""); }
    assert Write(d).fields == [b] + ([m] + (id + [("workflows", w)]));
    FieldsIn(b, m, id, w, "branch");
    FieldsIn(b, m, id, w, "pullRequestReview");
    FieldsIn(b, m, id, w, "integrationId");
    FieldsIn(b, m, id, w, "workflows");
    if d.id.Some? {
      OneField("integrationId", Num(d.id.value as real), "branch");
      OneField("integrationId", Num(d.id.value as real), "pullRequestReview");
      OneField("integrationId", Num(d.id.value as real), "integrationId");
      OneField("integrationId", Num(d.id.value as real), "workflows");
    } else {
      NoField("branch");
      NoField("pullRequestReview");
      NoField("integrationId");
      NoField("workflows");
    }
  }

  lemma NoField(key: string)
    ensures Lookup([], key) == None
  {
  }

  lemma {:induction false} FieldsIn(b: (string, Json), m: (string, Json), id: seq<(string, Json)>, w: Json, key: string)
    ensures Lookup([b] + ([m] + (id + [("workflows", w)])), key) ==
      if key == b.0 then Some(b.1) else if key == m.0 then Some(m.1)
      else if Lookup(id, key).Some? then Lookup(id, key)
      else if key == "workflows" then Some(w) else None
  {
    hide Lookup;
    LookupConcat([b], [m] + (id + [("workflows", w)]), key);
    LookupConcat([m], id + [("workflows", w)], key);
    LookupConcat(id, [("workflows", w)], key);
    OneField(b.0, b.1, key);
    OneField(m.0, m.1, key);
    OneField("workflows", w, key);
  }

  /** `g` has the fields of the declaration. */
  predicate Holds(g: Json, d: Declaration) {
    && IsObject(g)
    && Get(g, "branch") == Some(Str(d.branch)) && Get(g, "pullRequestReview") == Some(Str(d.mode))
    && Get(g, "integrationId") == (if d.id.Some? then Some(Num(d.id.value as real)) else None)
    && Get(g, "workflows") == Some(Obj(WriteWorkflows(d.workflows)))
  }

  lemma {:induction false} WrittenHolds(d: Declaration)
    ensures Holds(Write(d), d)
  {
    HeadFields(d);
    WrittenIsObject(d);
  }

  /** A declaration is accepted exactly if it is sound, and what it declares is what its blocking jobs list. */
  lemma {:induction false} DeclarationIs(g: Json, d: Declaration)
    requires Holds(g, d)
    ensures GatesWellFormed(g) <==> IsSound(d)
    ensures Declared(g) == Contexts(d.workflows)
    ensures DeclaredId(g) == if d.id.Some? then Some(d.id.value as real) else None
    ensures Mode(g) == d.mode
  {
    WorkflowsAre(d.workflows);
    hide Write, Get, WriteWorkflows, WorkflowsContexts, Contexts, WorkflowWellFormed, WorkflowsAreSound;
    assert Workflows(g) == FieldValues(WriteWorkflows(d.workflows));
    assert d.mode in MODES <==> d.mode in {"none", "code-owner", "approving", "either"};
    if d.id.Some? {
      IdIs(d.id.value);
    }
  }

  /** Neither null, a truth value, a number nor a text. */
  predicate IsCompound(j: Json) {
    match j
    case Null => false
    case Bool(_) => false
    case Num(_) => false
    case Str(_) => false
    case Arr(_) => true
    case Obj(_) => true
  }

  lemma {:induction false} FieldValueAt(fields: seq<(string, Json)>, i: nat)
    requires i < |fields|
    ensures fields[i].1 in FieldValues(fields)
  {
    if i > 0 {
      FieldValueAt(fields[1..], i - 1);
    }
  }

  /** Declares a workflow, or a job in one, that is no object and no list. */
  ghost predicate HoldsScalar(ws: seq<(string, Json)>) {
    exists i: nat :: i < |ws| && IsScalarOrHoldsOne(ws[i].1)
  }

  ghost predicate IsScalarOrHoldsOne(w: Json) {
    !IsCompound(w) || (w.Obj? && exists k: nat :: k < |w.fields| && !IsCompound(w.fields[k].1))
  }

  lemma {:induction false} ScalarWorkflow(w: Json)
    requires IsScalarOrHoldsOne(w)
    ensures !WorkflowWellFormed(w)
  {
    if IsCompound(w) {
      var k: nat :| k < |w.fields| && !IsCompound(w.fields[k].1);
      FieldValueAt(w.fields, k);
      assert !JobWellFormed(w.fields[k].1);
    }
  }

  /** Such a declaration is refused. */
  lemma {:induction false} ScalarsAreRefused(g: Json, ws: seq<(string, Json)>)
    requires Get(g, "workflows") == Some(Obj(ws)) && HoldsScalar(ws)
    ensures !GatesWellFormed(g)
  {
    hide HeadWellFormed, Declared, NoDuplicates, FieldValues, IsScalarOrHoldsOne, WorkflowWellFormed;
    var i: nat :| i < |ws| && IsScalarOrHoldsOne(ws[i].1);
    FieldValueAt(ws, i);
    ScalarWorkflow(ws[i].1);
  }

  /** A list of workflows is read like an object of them, and a list of jobs like an object of jobs. */
  lemma {:induction false} ListsAreReadLikeObjects(g: Json, h: Json, ws: seq<(string, Json)>, jobs: seq<(string, Json)>)
    requires g.Obj? && h.Obj?
    requires Get(g, "pullRequestReview") == Get(h, "pullRequestReview")
    requires Get(g, "integrationId") == Get(h, "integrationId")
    requires Get(g, "workflows") == Some(Obj(ws)) && Get(h, "workflows") == Some(Arr(FieldValues(ws)))
    ensures (GatesWellFormed(g) <==> GatesWellFormed(h)) && Declared(g) == Declared(h)
    ensures WorkflowWellFormed(Obj(jobs)) <==> WorkflowWellFormed(Arr(FieldValues(jobs)))
  {
    hide NoDuplicates, FieldValues, JobWellFormed, Get, WorkflowsContexts, IsIntegrationId;
  }

  /** The only ids that pass are whole numbers from 1 to 2^53 - 1. */
  lemma {:induction false} IdsAreWhole(g: Json, id: Json)
    requires Get(g, "integrationId") == Some(id) && GatesWellFormed(g)
    ensures id.Num? && 1 <= id.n.Floor <= 9_007_199_254_740_991 && id.n == id.n.Floor as real
  {
    hide NoDuplicates, Declared, Get, WorkflowWellFormed;
  }

  lemma WrittenIsObject(d: Declaration)
    ensures IsObject(Write(d))
  {
  }

  lemma IdIs(n: int)
    ensures IsIntegrationId(Num(n as real)) <==> 1 <= n <= 9_007_199_254_740_991
  {
  }

  // ----- the rules

  datatype Check = Check(context: string, id: Option<int>)

  datatype Rule = StatusRule(checks: seq<Check>) | ReviewRule(owners: bool, approvals: int) | OtherRule(kind: string) {
    predicate Valid() { OtherRule? ==> kind != "required_status_checks" && kind != "pull_request" }
  }

  function WriteCheck(k: Check): Json {
    Obj([("context", Str(k.context))] + (if k.id.Some? then [("integration_id", Num(k.id.value as real))] else []))
  }

  function WriteChecks(ks: seq<Check>): seq<Json> {
    if ks == [] then [] else [WriteCheck(ks[0])] + WriteChecks(ks[1..])
  }

  function WriteRule(r: Rule): Json {
    match r
    case StatusRule(checks) =>
      Obj([("type", Str("required_status_checks")),
           ("parameters", Obj([("required_status_checks", Arr(WriteChecks(checks)))]))])
    case ReviewRule(owners, approvals) =>
      Obj([("type", Str("pull_request")),
           ("parameters", Obj([("require_code_owner_review", Bool(owners)),
                               ("required_approving_review_count", Num(approvals as real))]))])
    case OtherRule(kind) => Obj([("type", Str(kind)), ("parameters", Obj([]))])
  }

  function WriteRules(rs: seq<Rule>): seq<Json> {
    if rs == [] then [] else [WriteRule(rs[0])] + WriteRules(rs[1..])
  }

  predicate AreValid(rs: seq<Rule>) { forall r | r in rs :: r.Valid() }

  /** All the checks of the status rules, in order. */
  function ChecksOf(rs: seq<Rule>): seq<Check> {
    if rs == [] then [] else (if rs[0].StatusRule? then rs[0].checks else []) + ChecksOf(rs[1..])
  }

  /** Declared and required contexts are the same, each is pinned to the declared id, and review is as declared. */
  ghost predicate IsProtected(d: Declaration, rs: seq<Rule>) {
    && (forall c :: c in Contexts(d.workflows) <==> c != "" && exists k :: k in ChecksOf(rs) && k.context == c)
    && (d.id.Some? ==> forall c | c in Contexts(d.workflows) :: Check(c, d.id) in ChecksOf(rs))
    && IsReviewed(d.mode, rs)
  }

  ghost predicate IsReviewed(mode: string, rs: seq<Rule>) {
    mode == "none" || exists r :: r in rs && Reviews(mode, r)
  }

  predicate Reviews(mode: string, r: Rule) {
    && r.ReviewRule?
    && ((mode == "code-owner" && r.owners) || (mode == "approving" && r.approvals >= 1)
      || (mode == "either" && (r.owners || r.approvals >= 1)))
  }

  lemma CheckKeysDiffer()
    ensures "context" != "integration_id" && "type" != "parameters"
    ensures "require_code_owner_review" != "required_approving_review_count"
    ensures "required_status_checks" != "pull_request"
  {
    assert |"context"| == 7 && |"integration_id"| == 14 && |"type"| == 4 && |"parameters"| == 10;
    assert |"require_code_owner_review"| == 25 && |"required_approving_review_count"| == 31;
    assert |"required_status_checks"| == 22 && |"pull_request"| == 12;
  }

  lemma {:induction false} CheckFields(k: Check)
    ensures Get(WriteCheck(k), "context") == Some(Str(k.context))
    ensures Get(WriteCheck(k), "integration_id") == if k.id.Some? then Some(Num(k.id.value as real)) else None
  {
    CheckKeysDiffer();
    hide Lookup;
    var id := if k.id.Some? then [("integration_id", Num(k.id.value as real))] else [];
    LookupConcat([("context", Str(k.context))], id, "context");
    LookupConcat([("context", Str(k.context))], id, "integration_id");
    OneField("context", Str(k.context), "context");
    OneField("context", Str(k.context), "integration_id");
    if k.id.Some? {
      OneField("integration_id", Num(k.id.value as real), "integration_id");
    } else {
      NoField("integration_id");
    }
  }

  lemma {:induction false} TwoFields(a: string, x: Json, b: string, y: Json)
    requires a != b
    ensures Get(Obj([(a, x), (b, y)]), a) == Some(x) && Get(Obj([(a, x), (b, y)]), b) == Some(y)
  {
    var fields := [(a, x), (b, y)];
    SecondField(fields, a);
    SecondField(fields, b);
  }

  lemma {:induction false} RuleFields(r: Rule)
    ensures Get(WriteRule(r), "type") == Some(Str(match r
      case StatusRule(_) => "required_status_checks"
      case ReviewRule(_, _) => "pull_request"
      case OtherRule(kind) => kind))
    ensures r.StatusRule? ==> ListedChecks(WriteRule(r)) == Some(WriteChecks(r.checks))
    ensures r.ReviewRule? ==> var ps := Get(WriteRule(r), "parameters");
      && GetIn(ps, "require_code_owner_review") == Some(Bool(r.owners))
      && GetIn(ps, "required_approving_review_count") == Some(Num(r.approvals as real))
  {
    CheckKeysDiffer();
    hide WriteChecks, Get;
    match r
    case StatusRule(checks) =>
      var ps := Obj([("required_status_checks", Arr(WriteChecks(checks)))]);
      TwoFields("type", Str("required_status_checks"), "parameters", ps);
      OneField("required_status_checks", Arr(WriteChecks(checks)), "required_status_checks");
      GetIs([("required_status_checks", Arr(WriteChecks(checks)))], "required_status_checks");
    case ReviewRule(owners, approvals) =>
      var x, y := Bool(owners), Num(approvals as real);
      var ps := Obj([("require_code_owner_review", x), ("required_approving_review_count", y)]);
      TwoFields("type", Str("pull_request"), "parameters", ps);
      TwoFields("require_code_owner_review", x, "required_approving_review_count", y);
    case OtherRule(kind) =>
      TwoFields("type", Str(kind), "parameters", Obj([]));
  }

  lemma GetIs(fields: seq<(string, Json)>, key: string)
    ensures Get(Obj(fields), key) == Lookup(fields, key)
  {
  }

  lemma {:induction false} RuleIs(r: Rule)
    requires r.Valid()
    ensures RuleWellFormed(WriteRule(r))
    ensures RuleChecks(WriteRule(r)) == if r.StatusRule? then WriteChecks(r.checks) else []
    ensures forall mode :: SetsReview(mode, WriteRule(r)) <==> Reviews(mode, r)
  {
    CheckKeysDiffer();
    RuleFields(r);
    hide WriteRule, WriteChecks, Get, GetIn;
  }

  lemma {:induction false} ChecksConcat(a: seq<Check>, b: seq<Check>)
    ensures WriteChecks(a + b) == WriteChecks(a) + WriteChecks(b)
  {
    hide WriteCheck;
    if a == [] {
      assert a + b == b;
    } else {
      assert (a + b)[1..] == a[1..] + b;
      ChecksConcat(a[1..], b);
    }
  }

  lemma {:induction false} RulesAre(rs: seq<Rule>)
    requires AreValid(rs)
    ensures Checks(WriteRules(rs)) == WriteChecks(ChecksOf(rs)) && RulesWellFormed(WriteRules(rs))
  {
    hide RuleWellFormed, RuleChecks, WriteRule, WriteChecks;
    if rs == [] {
      assert WriteChecks([]) == [] by { NoneWritten(); }
    } else {
      var head, rest := rs[0], rs[1..];
      assert rs == [head] + rest && head in rs;
      RuleIs(head);
      RulesAre(rest);
      assert WriteRules(rs) == [WriteRule(head)] + WriteRules(rest);
      assert WriteRules(rs)[1..] == WriteRules(rest);
      ChecksConcat(if head.StatusRule? then head.checks else [], ChecksOf(rest));
      NoneWritten();
    }
  }

  lemma NoneWritten()
    ensures WriteChecks([]) == []
  {
  }

  lemma {:induction false} RuleWritten(rs: seq<Rule>, rule: Json)
    ensures rule in WriteRules(rs) <==> exists r :: r in rs && rule == WriteRule(r)
  {
    hide WriteRule;
    if rs != [] {
      assert rs == [rs[0]] + rs[1..];
      RuleWritten(rs[1..], rule);
    }
  }

  lemma {:induction false} CheckWritten(ks: seq<Check>, check: Json)
    ensures check in WriteChecks(ks) <==> exists k :: k in ks && check == WriteCheck(k)
  {
    hide WriteCheck;
    if ks != [] {
      assert ks == [ks[0]] + ks[1..];
      CheckWritten(ks[1..], check);
    }
  }

  lemma {:induction false} AskedIs(ks: seq<Check>, c: string)
    ensures Asks(WriteChecks(ks), c) <==> c != "" && exists k :: k in ks && k.context == c
  {
    forall k: Check ensures CheckContext(WriteCheck(k)) == if k.context == "" then None else Some(k.context) {
      CheckFields(k);
    }
    forall check ensures check in WriteChecks(ks) <==> exists k :: k in ks && check == WriteCheck(k) {
      CheckWritten(ks, check);
    }
    hide WriteChecks, WriteCheck, CheckContext;
    if c != "" && exists k :: k in ks && k.context == c {
      var k :| k in ks && k.context == c;
      assert WriteCheck(k) in WriteChecks(ks) && CheckContext(WriteCheck(k)) == Some(c);
    }
  }

  lemma {:induction false} PinnedIs(ks: seq<Check>, c: string, n: int)
    ensures Pins(WriteChecks(ks), c, n as real) <==> Check(c, Some(n)) in ks
  {
    forall k: Check ensures PinsOne(WriteCheck(k), c, n as real) <==> k == Check(c, Some(n)) {
      CheckFields(k);
    }
    forall check ensures check in WriteChecks(ks) <==> exists k :: k in ks && check == WriteCheck(k) {
      CheckWritten(ks, check);
    }
    hide WriteChecks, WriteCheck, PinsOne;
    if Check(c, Some(n)) in ks {
      assert WriteCheck(Check(c, Some(n))) in WriteChecks(ks);
    }
  }

  lemma {:induction false} ReviewedIs(g: Json, d: Declaration, rs: seq<Rule>)
    requires AreValid(rs) && Holds(g, d) && d.mode in MODES
    ensures ReviewHolds(Mode(g), WriteRules(rs)) <==> IsReviewed(d.mode, rs)
  {
    ReviewIs(g, WriteRules(rs), d.mode);
    forall r | r in rs ensures SetsReview(d.mode, WriteRule(r)) <==> Reviews(d.mode, r) {
      assert r.Valid();
      RuleIs(r);
    }
    forall rule ensures rule in WriteRules(rs) <==> exists r :: r in rs && rule == WriteRule(r) {
      RuleWritten(rs, rule);
    }
    hide WriteRules, WriteRule, SetsReview, Reviews, ReviewHolds;
    if d.mode != "none" && exists r :: r in rs && Reviews(d.mode, r) {
      var r :| r in rs && Reviews(d.mode, r);
      assert WriteRule(r) in WriteRules(rs) && SetsReview(d.mode, WriteRule(r));
    }
  }

  /**
   The verdict on written declarations and rules: there is one for every sound declaration, and it
   is positive exactly if the branch is protected as declared.
   */
  lemma {:induction false} VerdictIs(g: Json, d: Declaration, rs: seq<Rule>)
    requires AreValid(rs) && Holds(g, d)
    ensures Evaluable(g, Arr(WriteRules(rs))) <==> IsSound(d)
    ensures IsSound(d) ==> (Protected(g, WriteRules(rs)) <==> IsProtected(d, rs))
  {
    DeclarationIs(g, d);
    RulesAre(rs);
    var ks := ChecksOf(rs);
    forall c ensures Asks(WriteChecks(ks), c) <==> c != "" && exists k :: k in ks && k.context == c {
      AskedIs(ks, c);
    }
    forall c, n: int ensures Pins(WriteChecks(ks), c, n as real) <==> Check(c, Some(n)) in ks {
      PinnedIs(ks, c, n);
    }
    if IsSound(d) {
      ReviewedIs(g, d, rs);
    }
    hide GatesWellFormed, Declared, Checks, WriteChecks, Pins, Asks, ReviewHolds, DeclaredId, Mode, Holds, IsReviewed;
    hide RulesWellFormed;
  }
}
