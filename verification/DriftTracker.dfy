/**
 The reconciler of the tracking issue: a protocol against the open issues of a repository, in
 which the one tracker is known by two marks, its label and the marker in its body.
 */
module DriftTracker {
  import opened Text
  import opened Lists
  import opened DriftReport

  // ----- who may own a tracker

  datatype Author = Author(login: Option<string>, isBot: Option<bool>)

  function LowerChar(c: char): char {
    if 'A' <= c <= 'Z' then ((c as int) + 32) as char else c
  }

  /** Lower case, for the letters that logins are made of. */
  function Lower(s: string): (r: string)
    ensures |r| == |s|
  {
    seq(|s|, i requires 0 <= i < |s| => LowerChar(s[i]))
  }

  function DropPrefix(s: string, prefix: string): string {
    if StartsWith(s, prefix) then s[|prefix|..] else s
  }

  function DropSuffix(s: string, suffix: string): string {
    if HasAt(s, suffix, |s| - |suffix|) then s[..|s| - |suffix|] else s
  }

  function NormalizeActorLogin(login: string): string {
    DropSuffix(DropPrefix(Lower(Trim(login)), "app/"), "[bot]")
  }

  predicate IsBotFormLogin(login: string) {
    StartsWith(login, "app/") || HasAt(login, "[bot]", |login| - 5)
  }

  /** `login` is literally configured, up to white space around it and letter case. */
  predicate Configured(login: string, authors: seq<string>) {
    exists a :: a in authors && Lower(Trim(a)) == Lower(Trim(login))
  }

  predicate IsManagedAuthor(author: Author, authors: seq<string>) {
    if author.login.None? || author.login.value == "" then false
    else
      var login := author.login.value;
      Configured(login, authors)
      || ((exists a :: a in authors && NormalizeActorLogin(a) == NormalizeActorLogin(login))
          && (author.isBot == Some(true) || IsBotFormLogin(login)))
  }

  // ----- the issues

  datatype Issue = Issue(title: string, body: string, labeled: bool, author: Author)

  datatype Listed = Listed(number: nat, issue: Issue)

  /** The open issues by number, the next free number, and the numbers of issues this job filed. */
  datatype State = State(open: map<nat, Issue>, next: nat, filed: set<nat>)

  const LABEL_LIMIT := 100
  const SWEEP_LIMIT := 1000

  /** The open issues with numbers below `n`, newest first. */
  function ListOpen(open: map<nat, Issue>, n: nat): (r: seq<Listed>)
    ensures forall l :: l in r <==> l.number < n && l.number in open && l.issue == open[l.number]
    ensures forall i, j :: 0 <= i < j < |r| ==> r[i].number > r[j].number
  {
    if n == 0 then []
    else
      var rest := ListOpen(open, n - 1);
      assert forall i | 0 <= i < |rest| :: rest[i] in rest;
      if n - 1 in open then [Listed(n - 1, open[n - 1])] + rest else rest
  }

  function ListLabeled(open: map<nat, Issue>, n: nat): seq<Listed> {
    Filter(ListOpen(open, n), (l: Listed) => l.issue.labeled)
  }

  function First(xs: seq<Listed>, limit: nat): seq<Listed> {
    if |xs| <= limit then xs else xs[..limit]
  }

  // ----- finding the tracker

  datatype Found = Tracker(found: Listed) | NoTracker | Ambiguous | Truncated

  predicate IsCandidate(l: Listed, authors: seq<string>, requireMarker: bool) {
    (requireMarker ==> Contains(l.issue.body, MARKER)) && IsManagedAuthor(l.issue.author, authors)
  }

  function SelectTrackingIssue(issues: seq<Listed>, authors: seq<string>, requireMarker: bool): (r: Found)
    ensures r.Tracker? ==> r.found in issues
  {
    var candidates := Filter(issues, (l: Listed) => IsCandidate(l, authors, requireMarker));
    if |candidates| > 1 then Ambiguous else if |candidates| == 1 then Tracker(candidates[0]) else NoTracker
  }

  /** The label lookup, then the sweep for the marker, which must not have been cut short. */
  function FindExistingIssue(st: State, authors: seq<string>): (r: Found)
    ensures r.Tracker? ==> r.found.number in st.open && r.found.issue == st.open[r.found.number]
  {
    var labeled := SelectTrackingIssue(First(ListLabeled(st.open, st.next), LABEL_LIMIT), authors, false);
    if labeled != NoTracker then labeled
    else
      var swept := First(ListOpen(st.open, st.next), SWEEP_LIMIT);
      var unlabeled := SelectTrackingIssue(swept, authors, true);
      if unlabeled == NoTracker && |swept| >= SWEEP_LIMIT then Truncated else unlabeled
  }

  // ----- deciding and acting

  datatype Action =
    | Noop
    | Open(title: string, body: string)
    | Update(number: nat, title: string, body: string)
    | Close(number: nat)

  /** What a run renders with: the context, the wording and the collation. */
  datatype Renderer = Renderer(ctx: Context, w: Prose, le: (string, string) -> bool) {
    function Title(drift: seq<Entry>): string { RenderIssueTitle(drift) }

    function Body(drift: seq<Entry>): string { RenderIssueBody(drift, ctx, w, le) }
  }

  function DecideAction(drift: seq<Entry>, existing: Option<Listed>, r: Renderer): Action {
    if drift == [] then (if existing.Some? then Close(existing.value.number) else Noop)
    else if existing.None? then Open(r.Title(drift), r.Body(drift))
    else if existing.value.issue.title == r.Title(drift) && existing.value.issue.body == r.Body(drift) then Noop
    else Update(existing.value.number, r.Title(drift), r.Body(drift))
  }

  function Attach(st: State, n: nat): State {
    if n in st.open then st.(open := st.open[n := st.open[n].(labeled := true)]) else st
  }

  function Act(st: State, action: Action, self: Author): State {
    match action
    case Noop => st
    case Open(title, body) =>
      State(st.open[st.next := Issue(title, body, true, self)], st.next + 1, st.filed + {st.next})
    case Update(n, title, body) =>
      if n in st.open then st.(open := st.open[n := st.open[n].(title := title, body := body)]) else st
    case Close(n) => st.(open := st.open - {n})
  }

  /** What a run is given: the drift set, unless computing it failed, and the dry-run switch. */
  datatype Input = Input(drift: Option<seq<Entry>>, renderer: Renderer, dryRun: bool) {
    predicate Reports() { drift.Some? && !dryRun }
  }

  /** Who the job is, and whose issues it takes for its own. */
  datatype Job = Job(authors: seq<string>, self: Author)

  /** One run: its exit code and the issues it leaves. */
  function Run(st: State, input: Input, job: Job): (int, State) {
    if input.drift.None? then (1, st)
    else if input.dryRun then (0, st)
    else
      match FindExistingIssue(st, job.authors)
      case Ambiguous => (1, st)
      case Truncated => (1, st)
      case NoTracker => (0, Act(st, DecideAction(input.drift.value, None, input.renderer), job.self))
      case Tracker(l) =>
        (0, Act(Attach(st, l.number), DecideAction(input.drift.value, Some(l), input.renderer), job.self))
  }

  // ----- a run that may stop at any call

  /**
   The lookup when only `calls` more calls are answered: what it finds, or None when a call failed,
   the issues it leaves, and how many calls are left. The call that fails has no effect, or it has
   its effect and only the answer is `lost`.
   */
  function FindUntil(st: State, authors: seq<string>, calls: nat, lost: bool): (Option<Found>, State, nat) {
    if calls == 0 then (None, st, 0)
    else
      var labeled := SelectTrackingIssue(First(ListLabeled(st.open, st.next), LABEL_LIMIT), authors, false);
      if labeled != NoTracker then (Some(labeled), st, calls - 1)
      else if calls == 1 then (None, st, 0)
      else
        var swept := First(ListOpen(st.open, st.next), SWEEP_LIMIT);
        var unlabeled := SelectTrackingIssue(swept, authors, true);
        if unlabeled == NoTracker then (Some(if |swept| >= SWEEP_LIMIT then Truncated else NoTracker), st, calls - 2)
        else if !unlabeled.Tracker? then (Some(unlabeled), st, calls - 2)
        else if calls == 2 then (None, if lost then Attach(st, unlabeled.found.number) else st, 0)
        else (Some(unlabeled), Attach(st, unlabeled.found.number), calls - 3)
  }

  function Finish(st: State, existing: Option<Listed>, input: Input, job: Job, calls: nat, lost: bool): (int, State)
    requires input.drift.Some?
  {
    var action := DecideAction(input.drift.value, existing, input.renderer);
    if action == Noop then (0, st)
    else if calls == 0 then (1, if lost then Act(st, action, job.self) else st)
    else (0, Act(st, action, job.self))
  }

  /**
   A run of which only `calls` calls are answered, counting that which makes sure the label exists.
   The next one, if there is one, fails the run, with or without having had its effect.
   */
  function RunUntil(st: State, input: Input, job: Job, calls: nat, lost: bool): (int, State) {
    if input.drift.None? then (1, st)
    else if input.dryRun then (0, st)
    else if calls == 0 then (1, st)
    else
      var (found, st', left) := FindUntil(st, job.authors, calls - 1, lost);
      match found
      case Some(NoTracker) => Finish(st', None, input, job, left, lost)
      case Some(Tracker(l)) => Finish(st', Some(l), input, job, left, lost)
      case _ => (1, st')
  }

  // ----- the same, step by step against the store

  class IssueStore {
    var open: map<nat, Issue>
    var next: nat
    ghost var filed: set<nat>

    constructor (open: map<nat, Issue>, next: nat, ghost filed: set<nat>)
      ensures Abstract() == State(open, next, filed)
    {
      this.open, this.next, this.filed := open, next, filed;
    }

    ghost function Abstract(): State
      reads this
    {
      State(open, next, filed)
    }

    method List(labeledOnly: bool, limit: nat) returns (issues: seq<Listed>)
      ensures issues == First(if labeledOnly then ListLabeled(open, next) else ListOpen(open, next), limit)
    {
      issues := First(if labeledOnly then ListLabeled(open, next) else ListOpen(open, next), limit);
    }

    method AddLabel(n: nat)
      requires n in open
      modifies this`open
      ensures Abstract() == Attach(old(Abstract()), n)
    {
      open := open[n := open[n].(labeled := true)];
    }

    method Create(title: string, body: string, author: Author)
      modifies this
      ensures Abstract() == Act(old(Abstract()), Open(title, body), author)
    {
      open := open[next := Issue(title, body, true, author)];
      filed := filed + {next};
      next := next + 1;
    }

    method Edit(n: nat, title: string, body: string)
      requires n in open
      modifies this`open
      ensures forall self :: Abstract() == Act(old(Abstract()), Update(n, title, body), self)
    {
      open := open[n := open[n].(title := title, body := body)];
    }

    method Close(n: nat)
      modifies this`open
      ensures forall self :: Abstract() == Act(old(Abstract()), Action.Close(n), self)
    {
      open := open - {n};
    }
  }

  /** Looks the tracker up, and gives it its label back when only the sweep found it. */
  method FindInStore(store: IssueStore, authors: seq<string>, calls: nat, lost: bool)
    returns (found: Option<Found>, left: nat)
    modifies store`open
    ensures (found, store.Abstract(), left) == FindUntil(old(store.Abstract()), authors, calls, lost)
  {
    hide ListOpen, ListLabeled, First, IsCandidate;
    if calls == 0 {
      return None, 0;
    }
    var labeledIssues := store.List(true, LABEL_LIMIT);
    var labeled := SelectTrackingIssue(labeledIssues, authors, false);
    if labeled != NoTracker {
      return Some(labeled), calls - 1;
    }
    if calls == 1 {
      return None, 0;
    }
    var swept := store.List(false, SWEEP_LIMIT);
    var unlabeled := SelectTrackingIssue(swept, authors, true);
    if unlabeled == NoTracker {
      return Some(if |swept| >= SWEEP_LIMIT then Truncated else NoTracker), calls - 2;
    }
    if !unlabeled.Tracker? {
      return Some(unlabeled), calls - 2;
    }
    if calls == 2 && !lost {
      return None, 0;
    }
    FirstMembers(ListOpen(store.open, store.next), SWEEP_LIMIT);
    store.AddLabel(unlabeled.found.number);
    if calls == 2 {
      return None, 0;
    }
    return Some(unlabeled), calls - 3;
  }

  lemma FirstMembers(xs: seq<Listed>, limit: nat)
    ensures forall x | x in First(xs, limit) :: x in xs
    ensures |xs| <= limit ==> First(xs, limit) == xs
  {
  }

  lemma LabeledKeepsLabel(st: State, l: Listed)
    requires l in First(ListLabeled(st.open, st.next), LABEL_LIMIT)
    ensures Attach(st, l.number) == st
  {
    FirstMembers(ListLabeled(st.open, st.next), LABEL_LIMIT);
    assert l in ListOpen(st.open, st.next) && l.issue.labeled;
    assert st.open[l.number := st.open[l.number].(labeled := true)] == st.open;
  }

  /** One run of the job against the store of issues, of which only `calls` calls are answered. */
  method RunJob(store: IssueStore, input: Input, job: Job, calls: nat, lost: bool) returns (exitCode: int)
    modifies store
    ensures (exitCode, store.Abstract()) == RunUntil(old(store.Abstract()), input, job, calls, lost)
  {
    hide FindUntil, Renderer.Title, Renderer.Body;
    if input.drift.None? {
      return 1;
    }
    if input.dryRun {
      return 0;
    }
    if calls == 0 {
      return 1;
    }
    FoundIsOpen(store.Abstract(), job.authors, calls - 1, lost);
    var found, left := FindInStore(store, job.authors, calls - 1, lost);
    if found.None? || found.value.Ambiguous? || found.value.Truncated? {
      return 1;
    }
    var existing := if found.value.Tracker? then Some(found.value.found) else None;
    var decision := DecideAction(input.drift.value, existing, input.renderer);
    if decision == Noop {
      return 0;
    }
    if left == 0 && !lost {
      return 1;
    }
    match decision {
      case Noop =>
      case Open(title, body) => store.Create(title, body, job.self);
      case Update(n, title, body) => store.Edit(n, title, body);
      case Close(n) => store.Close(n);
    }
    return if left == 0 then 1 else 0;
  }

  lemma {:induction false} FoundIsOpen(st: State, authors: seq<string>, calls: nat, lost: bool)
    ensures var (found, st', _) := FindUntil(st, authors, calls, lost);
      match found
      case Some(Tracker(l)) => l.number in st'.open
      case _ => true
  {
    hide ListLabeled, SelectTrackingIssue;
    FirstMembers(ListOpen(st.open, st.next), SWEEP_LIMIT);
    FirstMembers(ListLabeled(st.open, st.next), LABEL_LIMIT);
    LabeledAreOpen(st);
  }

  lemma {:induction false} LabeledAreOpen(st: State)
    ensures forall l | l in ListLabeled(st.open, st.next) :: l in ListOpen(st.open, st.next)
  {
    hide ListOpen;
  }
}
