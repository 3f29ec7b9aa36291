/** Safety of the tracking issue over every run, whatever else happens to the issues in between. */
module TrackerLaws {
  import opened Text
  import opened Lists
  import opened DriftReport
  import opened DriftLaws
  import opened DriftTracker

  // ----- authors

  /** A login without white space around it, letter-case folded, in none of the bot forms. */
  predicate IsBareLogin(login: string) {
    && login != "" && Lower(login) == login && !IsSpace(login[0]) && !IsSpace(login[|login| - 1])
    && !StartsWith(login, "app/") && !HasAt(login, "[bot]", |login| - 5)
  }

  lemma TrimmedAlready(s: string)
    requires s != "" && !IsSpace(s[0]) && !IsSpace(s[|s| - 1])
    ensures Trim(s) == s
  {
  }

  lemma LowerConcat(a: string, b: string)
    ensures Lower(a + b) == Lower(a) + Lower(b)
  {
  }

  lemma BareStays(login: string)
    requires IsBareLogin(login)
    ensures NormalizeActorLogin(login) == login
  {
    hide IsSpace;
    TrimmedAlready(login);
  }

  lemma AppForm(login: string)
    requires IsBareLogin(login)
    ensures NormalizeActorLogin("app/" + login) == login
  {
    var s := "app/" + login;
    assert s[0] == 'a' && s[|s| - 1] == login[|login| - 1];
    TrimmedAlready(s);
    LowerConcat("app/", login);
    assert Lower("app/") == "app/";
    hide Lower, Trim, IsSpace;
    assert Lower(Trim(s)) == s;
    assert s[0..4] == "app/" && s[4..] == login;
  }

  lemma BotText(login: string)
    requires IsBareLogin(login)
    ensures Lower(Trim(login + "[bot]")) == login + "[bot]"
  {
    var s := login + "[bot]";
    assert s[0] == login[0] && s[|s| - 1] == ']';
    TrimmedAlready(s);
    LowerConcat(login, "[bot]");
    assert Lower("[bot]") == "[bot]";
  }

  lemma BotIsNoApp(login: string)
    requires !StartsWith(login, "app/")
    ensures !StartsWith(login + "[bot]", "app/")
  {
    var s := login + "[bot]";
    HasAtChars(s, "app/", 0);
    HasAtChars(login, "app/", 0);
    if |login| < 4 {
      assert s[0 + |login|] == '[' && "app/"[|login|] != '[';
    }
  }

  lemma BotForm(login: string)
    requires IsBareLogin(login)
    ensures NormalizeActorLogin(login + "[bot]") == login
  {
    BotText(login);
    BotIsNoApp(login);
    BotSuffix(login);
  }

  lemma BotSuffix(login: string)
    ensures DropSuffix(login + "[bot]", "[bot]") == login
  {
    var s, n := login + "[bot]", |login|;
    assert s[n..n + 5] == "[bot]" && s[..n] == login;
  }

  /** The three renderings of one bot account are one identity. */
  lemma BotRenderingsAgree(login: string)
    requires IsBareLogin(login)
    ensures NormalizeActorLogin(login) == NormalizeActorLogin("app/" + login) == login
    ensures NormalizeActorLogin(login + "[bot]") == login
  {
    BareStays(login);
    AppForm(login);
    BotForm(login);
  }

  /** Without evidence of a bot, only a login that is literally configured is accepted. */
  lemma HumansOnlyIfConfigured(author: Author, authors: seq<string>)
    requires author.login.Some? && author.isBot != Some(true) && !IsBotFormLogin(author.login.value)
    ensures IsManagedAuthor(author, authors) <==> author.login.value != "" && Configured(author.login.value, authors)
  {
  }

  // ----- trackers

  /** Issue `n` is open, by a managed author, and carries the label or the marker. */
  predicate Tracked(st: State, n: nat, job: Job) {
    && n in st.open && IsManagedAuthor(st.open[n].author, job.authors)
    && (st.open[n].labeled || Contains(st.open[n].body, MARKER))
  }

  ghost predicate OneAtMost(st: State, job: Job) {
    forall n, m :: Tracked(st, n, job) && Tracked(st, m, job) ==> n == m
  }

  /** The trackers are the open issues that the job filed, and there is at most one. */
  ghost predicate Inv(st: State, job: Job) {
    && (forall n | n in st.open :: n < st.next)
    && (forall n | n in st.filed :: n < st.next)
    && (forall n | n in st.open :: n in st.filed <==> Tracked(st, n, job))
    && OneAtMost(st, job)
  }

  /** The label lookup, which asks for a limited number of issues, sees them all. */
  predicate LabelListingComplete(st: State) { |ListLabeled(st.open, st.next)| <= LABEL_LIMIT }

  /** Issue `n` has both marks and the title and body that the drift set calls for. */
  predicate Canonical(st: State, n: nat, drift: seq<Entry>, r: Renderer, job: Job) {
    && n in st.open && st.open[n].labeled && Contains(st.open[n].body, MARKER)
    && st.open[n].title == r.Title(drift) && st.open[n].body == r.Body(drift)
    && IsManagedAuthor(st.open[n].author, job.authors)
  }

  // ----- the lookup

  ghost predicate Decreasing(ls: seq<Listed>) {
    forall i, j :: 0 <= i < j < |ls| ==> ls[i].number > ls[j].number
  }

  lemma {:induction false} FilterDecreasing(ls: seq<Listed>, p: Listed -> bool)
    requires Decreasing(ls)
    ensures Decreasing(Filter(ls, p))
  {
    if ls != [] {
      FilterDecreasing(ls[1..], p);
      var rest := Filter(ls[1..], p);
      forall j | 0 <= j < |rest| ensures ls[0].number > rest[j].number {
        assert rest[j] in rest;
        assert rest[j] in ls[1..];
      }
    }
  }

  /** A candidate that is the only one is selected, and nothing is when there is none. */
  lemma Selects(ls: seq<Listed>, authors: seq<string>, requireMarker: bool)
    requires Decreasing(ls)
    requires forall k, l |
        k in ls && l in ls && IsCandidate(k, authors, requireMarker) && IsCandidate(l, authors, requireMarker) ::
      k.number == l.number
    ensures var r := SelectTrackingIssue(ls, authors, requireMarker);
      match r
      case Tracker(l) => l in ls && IsCandidate(l, authors, requireMarker)
      case NoTracker => forall l | l in ls :: !IsCandidate(l, authors, requireMarker)
      case _ => false
  {
    hide IsCandidate;
    var p := (l: Listed) => IsCandidate(l, authors, requireMarker);
    var c := Filter(ls, p);
    FilterDecreasing(ls, p);
    if |c| > 1 {
      TwoDiffer(c);
    }
    assert forall i | 0 <= i < |c| :: c[i] in c;
  }

  lemma TwoDiffer(c: seq<Listed>)
    requires Decreasing(c) && |c| > 1
    ensures c[0] in c && c[1] in c && c[0].number != c[1].number
  {
  }

  lemma FirstDecreasing(ls: seq<Listed>, limit: nat)
    requires Decreasing(ls)
    ensures Decreasing(First(ls, limit)) && (forall l | l in First(ls, limit) :: l in ls)
    ensures |ls| <= limit ==> First(ls, limit) == ls
    ensures |First(ls, limit)| < limit ==> First(ls, limit) == ls
  {
  }

  /** The only tracker of the state stands in a place where the lookup sees it. */
  ghost predicate Seen(st: State, job: Job) {
    exists n :: Tracked(st, n, job)
      && (st.open[n].labeled || Listed(n, st.open[n]) in First(ListOpen(st.open, st.next), SWEEP_LIMIT))
  }

  lemma LabelLookup(st: State, job: Job)
    requires Inv(st, job) && LabelListingComplete(st)
    ensures match SelectTrackingIssue(First(ListLabeled(st.open, st.next), LABEL_LIMIT), job.authors, false)
      case Tracker(l) => Tracked(st, l.number, job) && st.open[l.number].labeled
      case NoTracker => forall n :: Tracked(st, n, job) ==> !st.open[n].labeled
      case _ => false
  {
    hide IsManagedAuthor, Contains;
    var all, labeled := ListOpen(st.open, st.next), ListLabeled(st.open, st.next);
    FilterDecreasing(all, (l: Listed) => l.issue.labeled);
    FirstDecreasing(labeled, LABEL_LIMIT);
    forall l | l in labeled && IsCandidate(l, job.authors, false) ensures Tracked(st, l.number, job) {}
    hide SelectTrackingIssue;
    Selects(labeled, job.authors, false);
    forall n | Tracked(st, n, job) && st.open[n].labeled
      ensures Listed(n, st.open[n]) in labeled && IsCandidate(Listed(n, st.open[n]), job.authors, false)
    {
      assert Listed(n, st.open[n]) in all;
    }
  }

  lemma SweepLookup(st: State, job: Job)
    requires Inv(st, job)
    ensures var swept := First(ListOpen(st.open, st.next), SWEEP_LIMIT);
      match SelectTrackingIssue(swept, job.authors, true)
      case Tracker(l) => Tracked(st, l.number, job) && l in swept
      case NoTracker => forall l | l in swept :: !IsCandidate(l, job.authors, true)
      case _ => false
  {
    hide IsManagedAuthor, Contains;
    var all := ListOpen(st.open, st.next);
    FirstDecreasing(all, SWEEP_LIMIT);
    forall l | l in all && IsCandidate(l, job.authors, true) ensures Tracked(st, l.number, job) {}
    hide SelectTrackingIssue;
    Selects(First(all, SWEEP_LIMIT), job.authors, true);
  }

  /** With at most one tracker the lookup is never ambiguous: it finds the tracker or proves there is none. */
  lemma LookupIsRight(st: State, job: Job)
    requires Inv(st, job) && LabelListingComplete(st)
    ensures match FindExistingIssue(st, job.authors)
      case Tracker(l) => Tracked(st, l.number, job)
      case NoTracker => (forall n :: !Tracked(st, n, job)) && |ListOpen(st.open, st.next)| < SWEEP_LIMIT
      case Truncated => !Seen(st, job) && |ListOpen(st.open, st.next)| >= SWEEP_LIMIT
      case Ambiguous => false
    ensures FindExistingIssue(st, job.authors).Tracker? <==> Seen(st, job)
  {
    hide IsManagedAuthor, Contains, SelectTrackingIssue, First;
    LabelLookup(st, job);
    SweepLookup(st, job);
    var all := ListOpen(st.open, st.next);
    FirstDecreasing(all, SWEEP_LIMIT);
    forall n | Tracked(st, n, job) ensures Listed(n, st.open[n]) in all {}
    assert forall n | Tracked(st, n, job) && !st.open[n].labeled ::
      IsCandidate(Listed(n, st.open[n]), job.authors, true);
  }

  // ----- one run

  /** Every open issue that is not a tracker is as it was before. */
  ghost predicate ForeignUntouched(st: State, st': State, job: Job) {
    forall n | n in st.open && !Tracked(st, n, job) :: n in st'.open && st'.open[n] == st.open[n]
  }

  /**
   What a run that reports leaves behind: without drift no tracker, with drift exactly one, with
   both marks and the canonical title and body; it is the old one if there was one.
   */
  ghost predicate Settled(st: State, st': State, drift: seq<Entry>, r: Renderer, job: Job) {
    if drift == [] then forall n :: !Tracked(st', n, job)
    else
      && (exists n :: Canonical(st', n, drift, r, job))
      && (forall n :: Tracked(st', n, job) ==> Canonical(st', n, drift, r, job))
      && (forall n :: Tracked(st, n, job) ==> Tracked(st', n, job))
  }

  /** The canonical body carries the marker, however large the drift set. */
  lemma BodyHasMarker(drift: seq<Entry>, r: Renderer)
    ensures Contains(r.Body(drift), MARKER)
  {
    BodyFitsAndIsFound(drift, r.ctx, r.w, r.le);
  }

  lemma WhenFound(st: State, n: nat, drift: seq<Entry>, r: Renderer, job: Job)
    requires Inv(st, job) && Tracked(st, n, job)
    ensures var l := Listed(n, st.open[n]);
      var st' := Act(Attach(st, n), DecideAction(drift, Some(l), r), job.self);
      Inv(st', job) && Settled(st, st', drift, r, job) && ForeignUntouched(st, st', job)
  {
    hide IsManagedAuthor, Contains;
    BodyHasMarker(drift, r);
    hide Renderer.Body, Renderer.Title;
    var st' := Act(Attach(st, n), DecideAction(drift, Some(Listed(n, st.open[n])), r), job.self);
    assert forall m | m != n :: m in st'.open <==> m in st.open;
    assert forall m | m != n && m in st.open :: st'.open[m] == st.open[m];
    if drift == [] {
      assert n !in st'.open;
    } else {
      assert Canonical(st', n, drift, r, job);
    }
  }

  lemma WhenNotFound(st: State, drift: seq<Entry>, r: Renderer, job: Job)
    requires Inv(st, job) && IsManagedAuthor(job.self, job.authors) && forall n :: !Tracked(st, n, job)
    ensures var st' := Act(st, DecideAction(drift, None, r), job.self);
      Inv(st', job) && Settled(st, st', drift, r, job) && ForeignUntouched(st, st', job)
  {
    hide IsManagedAuthor, Contains;
    BodyHasMarker(drift, r);
    hide Renderer.Body, Renderer.Title;
    var st' := Act(st, DecideAction(drift, None, r), job.self);
    if drift != [] {
      assert forall m | m != st.next :: m in st'.open <==> m in st.open;
      assert forall m | m in st.open :: st'.open[m] == st.open[m];
      assert Canonical(st', st.next, drift, r, job);
    }
  }

  /**
   One run keeps the invariant, never touches a foreign issue, and changes nothing when it
   fails; when it reports, it fails exactly when the only tracker is out of sight of a lookup
   that came back full, and otherwise settles.
   */
  lemma RunIsSafe(st: State, input: Input, job: Job)
    requires Inv(st, job) && IsManagedAuthor(job.self, job.authors) && LabelListingComplete(st)
    ensures var (code, st') := Run(st, input, job);
      && Inv(st', job) && ForeignUntouched(st, st', job)
      && (code != 0 || !input.Reports() ==> st' == st)
      && (input.Reports() ==> (code != 0 <==> !Seen(st, job) && |ListOpen(st.open, st.next)| >= SWEEP_LIMIT))
      && (input.Reports() && code == 0 ==> Settled(st, st', input.drift.value, input.renderer, job))
  {
    hide FindExistingIssue, Seen, Settled, Act, Attach, DecideAction;
    LookupIsRight(st, job);
    if input.Reports() {
      match FindExistingIssue(st, job.authors)
      case Tracker(l) => WhenFound(st, l.number, input.drift.value, input.renderer, job);
      case NoTracker =>
        WhenNotFound(st, input.drift.value, input.renderer, job);
        NotSeen(st, job);
      case _ =>
    }
  }

  lemma NotSeen(st: State, job: Job)
    requires forall n :: !Tracked(st, n, job)
    ensures !Seen(st, job)
  {
  }

  ghost predicate TwoCandidates(ls: seq<Listed>, authors: seq<string>, requireMarker: bool) {
    exists k, l :: k in ls && l in ls && k.number != l.number
      && IsCandidate(k, authors, requireMarker) && IsCandidate(l, authors, requireMarker)
  }

  predicate NoCandidate(ls: seq<Listed>, authors: seq<string>, requireMarker: bool) {
    forall l | l in ls :: !IsCandidate(l, authors, requireMarker)
  }

  lemma SelectIff(ls: seq<Listed>, authors: seq<string>, requireMarker: bool)
    requires Decreasing(ls)
    ensures var r := SelectTrackingIssue(ls, authors, requireMarker);
      && (r.Ambiguous? <==> TwoCandidates(ls, authors, requireMarker))
      && (r == NoTracker <==> NoCandidate(ls, authors, requireMarker))
      && !r.Truncated?
  {
    hide IsCandidate;
    var c := Filter(ls, (l: Listed) => IsCandidate(l, authors, requireMarker));
    FilterDecreasing(ls, (l: Listed) => IsCandidate(l, authors, requireMarker));
    if |c| > 1 {
      TwoDiffer(c);
      assert TwoCandidates(ls, authors, requireMarker);
    } else if |c| == 1 {
      assert c[0] in c;
      assert forall l | l in ls && IsCandidate(l, authors, requireMarker) :: l in c;
    } else {
      assert forall l | l in ls && IsCandidate(l, authors, requireMarker) :: l in c;
    }
  }

  /**
   On any store, with however many trackers: a run that reports fails exactly when the label
   lookup, or the sweep that replaces it when it finds nothing, sees two candidates, or when
   the sweep sees none and came back full. A run that fails has changed no issue.
   */
  lemma AbortsIff(st: State, input: Input, job: Job)
    requires input.Reports()
    ensures var labeled := First(ListLabeled(st.open, st.next), LABEL_LIMIT);
      var swept := First(ListOpen(st.open, st.next), SWEEP_LIMIT);
      Run(st, input, job).0 != 0 <==>
        || TwoCandidates(labeled, job.authors, false)
        || (NoCandidate(labeled, job.authors, false)
            && (TwoCandidates(swept, job.authors, true)
              || (NoCandidate(swept, job.authors, true) && |swept| == SWEEP_LIMIT)))
    ensures Run(st, input, job).0 != 0 ==> Run(st, input, job).1 == st
  {
    hide TwoCandidates, NoCandidate, SelectTrackingIssue, Act, Attach, DecideAction;
    var all := ListOpen(st.open, st.next);
    FilterDecreasing(all, (l: Listed) => l.issue.labeled);
    FirstDecreasing(ListLabeled(st.open, st.next), LABEL_LIMIT);
    FirstDecreasing(all, SWEEP_LIMIT);
    SelectIff(First(ListLabeled(st.open, st.next), LABEL_LIMIT), job.authors, false);
    SelectIff(First(all, SWEEP_LIMIT), job.authors, true);
  }

  /** A second run with the same drift set, in any order, finds nothing to do. */
  lemma SecondRunIsNoop(l: Listed, drift: seq<Entry>, again: seq<Entry>, r: Renderer)
    requires TotalOrder(r.le) && IdsIdentify(drift) && multiset(again) == multiset(drift) && drift != []
    requires l.issue.title == r.Title(drift) && l.issue.body == r.Body(drift)
    ensures DecideAction(again, Some(l), r) == Noop
  {
    hide TotalOrder, RenderIssueBody, RenderIssueTitle;
    ReportIgnoresOrder(drift, again, r.ctx, r.w, r.le);
    assert |multiset(again)| == |again| && |multiset(drift)| == |drift|;
  }

  lemma CanonicalStays(st: State, l: Listed, drift: seq<Entry>, again: seq<Entry>, r: Renderer, job: Job)
    requires TotalOrder(r.le) && IdsIdentify(drift) && multiset(again) == multiset(drift) && drift != []
    requires Canonical(st, l.number, drift, r, job) && l.issue == st.open[l.number]
    ensures Act(Attach(st, l.number), DecideAction(again, Some(l), r), job.self) == st
  {
    hide TotalOrder, IdsIdentify, IsManagedAuthor, Contains, Renderer.Body, Renderer.Title;
    SecondRunIsNoop(l, drift, again, r);
    assert st.open[l.number := st.open[l.number].(labeled := true)] == st.open;
  }

  /**
   The design constraint of the job: after a run that reports, another one with the same drift
   set, listed in whatever order, leaves every issue as it is; it can fail only when there is no
   drift, because the sweep for a tracker then comes back full.
   */
  lemma RunAgainChangesNothing(st: State, input: Input, again: Input, job: Job)
    requires Inv(st, job) && IsManagedAuthor(job.self, job.authors) && LabelListingComplete(st)
    requires input.Reports() && Run(st, input, job).0 == 0 && LabelListingComplete(Run(st, input, job).1)
    requires again.Reports() && again.renderer == input.renderer && TotalOrder(input.renderer.le)
    requires IdsIdentify(input.drift.value) && multiset(again.drift.value) == multiset(input.drift.value)
    ensures var st' := Run(st, input, job).1;
      && Run(st', again, job).1 == st'
      && (Run(st', again, job).0 != 0 <==> input.drift.value == [] && |ListOpen(st'.open, st'.next)| >= SWEEP_LIMIT)
  {
    var st', drift, r := Run(st, input, job).1, input.drift.value, input.renderer;
    RunIsSafe(st, input, job);
    LookupIsRight(st', job);
    assert |multiset(again.drift.value)| == |again.drift.value| && |multiset(drift)| == |drift|;
    SettledTracker(st, st', drift, r, job);
    hide Run, Settled, Inv, FindExistingIssue, Seen, Act, Attach, Canonical, Tracked, TotalOrder, IdsIdentify;
    RunSteps(st', again, job);
    match FindExistingIssue(st', job.authors)
    case Tracker(l) => CanonicalStays(st', l, drift, again.drift.value, r, job);
    case _ =>
  }

  lemma SettledTracker(st: State, st': State, drift: seq<Entry>, r: Renderer, job: Job)
    requires Settled(st, st', drift, r, job)
    ensures drift == [] ==> forall n :: !Tracked(st', n, job)
    ensures drift != [] ==> Seen(st', job) && forall n :: Tracked(st', n, job) ==> Canonical(st', n, drift, r, job)
  {
    hide IsManagedAuthor, Contains, Renderer.Body, Renderer.Title;
    if drift != [] {
      var n :| Canonical(st', n, drift, r, job);
      assert Tracked(st', n, job);
    }
  }

  lemma RunSteps(st: State, input: Input, job: Job)
    requires input.Reports()
    ensures Run(st, input, job) == match FindExistingIssue(st, job.authors)
      case Tracker(l) =>
        (0, Act(Attach(st, l.number), DecideAction(input.drift.value, Some(l), input.renderer), job.self))
      case NoTracker => (0, Act(st, DecideAction(input.drift.value, None, input.renderer), job.self))
      case _ => (1, st)
    ensures input.drift.value == [] ==> Act(st, DecideAction(input.drift.value, None, input.renderer), job.self) == st
  {
    hide FindExistingIssue, Attach;
  }

  // ----- a run that stops at a call

  /** The lookup with some calls: the same answer as with all of them, or none and at most the label changed. */
  lemma {:induction false} FindUntilIs(st: State, authors: seq<string>, calls: nat, lost: bool)
    ensures var (found, st', left) := FindUntil(st, authors, calls, lost);
      match found
      case None => st' == st || IsRelabelled(st, FindExistingIssue(st, authors), st')
      case Some(f) =>
        && f == FindExistingIssue(st, authors)
        && st' == (if f.Tracker? then Attach(st, f.found.number) else st)
    ensures calls >= 4 ==> FindUntil(st, authors, calls, lost).0.Some? && FindUntil(st, authors, calls, lost).2 >= 1
  {
    hide ListOpen, ListLabeled, First, SelectTrackingIssue;
    var labeled := SelectTrackingIssue(First(ListLabeled(st.open, st.next), LABEL_LIMIT), authors, false);
    if labeled.Tracker? {
      LabeledKeepsLabel(st, labeled.found);
    }
  }

  /** The only thing a run does before its last call: it gives the tracker it found its label back. */
  ghost predicate Relabelled(st: State, st': State, job: Job) {
    exists n :: Tracked(st, n, job) && st' == Attach(st, n)
  }

  predicate IsRelabelled(st: State, found: Found, st': State) {
    found.Tracker? && st' == Attach(st, found.found.number)
  }

  /** What a whole run leaves: it reports, succeeds and has settled. */
  ghost predicate Whole(st: State, st': State, input: Input, job: Job) {
    && input.Reports() && (0, st') == Run(st, input, job)
    && Settled(st, st', input.drift.value, input.renderer, job)
  }

  /**
   A run of which only some calls are answered either gets through and is a whole run, or it fails
   and has at most given a found tracker its label back, or it fails although its last call had its
   effect, and leaves what a whole run does. With five calls every run gets through.
   */
  lemma {:induction false} RunUntilIs(st: State, input: Input, job: Job, calls: nat, lost: bool)
    ensures var (code, st') := RunUntil(st, input, job, calls, lost);
      && (code == 0 ==> (code, st') == Run(st, input, job))
      && (code != 0 ==>
            || st' == st || IsRelabelled(st, FindExistingIssue(st, job.authors), st')
            || (lost && input.Reports() && (0, st') == Run(st, input, job)))
      && (calls >= 5 ==> (code, st') == Run(st, input, job))
  {
    hide FindExistingIssue, FindUntil, Act, Attach, DecideAction;
    if input.Reports() && calls > 0 {
      FindUntilIs(st, job.authors, calls - 1, lost);
      DoNothing(FindUntil(st, job.authors, calls - 1, lost).1, job.self);
    }
  }

  lemma DoNothing(st: State, self: Author)
    ensures Act(st, Noop, self) == st
  {
  }

  lemma {:induction false} RelabelKeepsInv(st: State, n: nat, job: Job)
    requires Inv(st, job) && Tracked(st, n, job)
    ensures Inv(Attach(st, n), job) && ForeignUntouched(st, Attach(st, n), job)
  {
    hide IsManagedAuthor, Contains;
    var st' := Attach(st, n);
    assert forall m :: m in st'.open <==> m in st.open;
    assert forall m | m != n && m in st.open :: st'.open[m] == st.open[m];
  }

  /**
   A run may stop at any call, before or after its effect. Whichever it is, the invariant is kept
   and no foreign issue is touched; a run that got through has settled; and whatever its exit code,
   a run leaves the issues as they were, or with the label given back to the tracker, or settled as
   a whole run leaves them. The last without success only if the answer to a call was lost.
   */
  lemma {:induction false} StoppedRunIsSafe(st: State, input: Input, job: Job, calls: nat, lost: bool)
    requires Inv(st, job) && IsManagedAuthor(job.self, job.authors) && LabelListingComplete(st)
    ensures var (code, st') := RunUntil(st, input, job, calls, lost);
      && Inv(st', job) && ForeignUntouched(st, st', job)
      && (code == 0 && input.Reports() ==> Settled(st, st', input.drift.value, input.renderer, job))
      && (st' == st || Relabelled(st, st', job) || Whole(st, st', input, job))
      && (code != 0 && !lost ==> st' == st || Relabelled(st, st', job))
  {
    RunIsSafe(st, input, job);
    RunUntilIs(st, input, job, calls, lost);
    LookupIsRight(st, job);
    hide Run, RunUntil, FindExistingIssue, Inv, Settled, Attach, Tracked, Seen, LabelListingComplete;
    if RunUntil(st, input, job, calls, lost).0 != 0 && FindExistingIssue(st, job.authors).Tracker? {
      RelabelKeepsInv(st, FindExistingIssue(st, job.authors).found.number, job);
    }
    NothingTouched(st, job);
  }

  lemma {:induction false} NothingTouched(st: State, job: Job)
    ensures ForeignUntouched(st, st, job)
  {
    hide Tracked;
  }

  // ----- every run

  /**
   What may happen to the issues between two runs: anything, except that an open issue filed by
   the job keeps its author and at least one of its two marks, that a closed one stays closed,
   and that no other issue becomes a tracker.
   */
  ghost predicate EnvStep(st: State, st': State, job: Job) {
    && st'.filed == st.filed && st.next <= st'.next
    && (forall n | n in st'.open :: n < st'.next)
    && (forall n | n in st'.open && n in st.filed ::
          n in st.open && st'.open[n].author == st.open[n].author
          && (st'.open[n].labeled || Contains(st'.open[n].body, MARKER)))
    && (forall n | n in st'.open && n !in st.filed :: !Tracked(st', n, job))
  }

  /** A change by others, or a run of which a number of calls are answered. */
  datatype Step = Env | Report(input: Input, calls: nat, lost: bool)

  ghost predicate Follows(st: State, step: Step, st': State, job: Job) {
    match step
    case Env => EnvStep(st, st', job)
    case Report(input, calls, lost) => LabelListingComplete(st) && st' == RunUntil(st, input, job, calls, lost).1
  }

  ghost predicate Trace(states: seq<State>, steps: seq<Step>, job: Job) {
    |states| == |steps| + 1 && forall i | 0 <= i < |steps| :: Follows(states[i], steps[i], states[i + 1], job)
  }

  lemma EnvKeepsInv(st: State, st': State, job: Job)
    requires Inv(st, job) && EnvStep(st, st', job)
    ensures Inv(st', job)
  {
    hide IsManagedAuthor, Contains;
  }

  /**
   Tracker safety over all runs, each of which may stop at any of its calls, before or after its
   effect: with whatever drift sets, foreign issues and edits in between that leave the tracker one
   of its marks, no run ever sees or leaves a second tracker, every run that gets through has
   settled, and every other one has changed nothing, or given the tracker its label back, or
   settled too.
   */
  lemma {:induction false} TrackerIsSafe(states: seq<State>, steps: seq<Step>, job: Job, k: nat)
    requires Trace(states, steps, job) && Inv(states[0], job) && IsManagedAuthor(job.self, job.authors)
    requires k < |states|
    ensures Inv(states[k], job)
    ensures k < |steps| && steps[k].Report? && steps[k].input.Reports() ==>
      if RunUntil(states[k], steps[k].input, job, steps[k].calls, steps[k].lost).0 == 0
      then Settled(states[k], states[k + 1], steps[k].input.drift.value, steps[k].input.renderer, job)
      else
        || states[k + 1] == states[k] || Relabelled(states[k], states[k + 1], job)
        || (steps[k].lost && Whole(states[k], states[k + 1], steps[k].input, job))
    decreases k
  {
    hide Inv, RunUntil, Settled, IsManagedAuthor, EnvStep, LabelListingComplete, Relabelled, ForeignUntouched;
    if k > 0 {
      TrackerIsSafe(states, steps, job, k - 1);
      assert Follows(states[k - 1], steps[k - 1], states[k], job);
      match steps[k - 1]
      case Env => EnvKeepsInv(states[k - 1], states[k], job);
      case Report(input, calls, lost) => StoppedRunIsSafe(states[k - 1], input, job, calls, lost);
    }
    if k < |steps| && steps[k].Report? {
      assert Follows(states[k], steps[k], states[k + 1], job);
      StoppedRunIsSafe(states[k], steps[k].input, job, steps[k].calls, steps[k].lost);
    }
  }

  // ----- why one mark has to be left

  ghost predicate OnlyFiled(st: State, n: nat, job: Job) {
    && n in st.open && n in st.filed && IsManagedAuthor(st.open[n].author, job.authors)
    && (forall m | m in st.open :: m < st.next)
    && (forall m | m in st.filed :: m < st.next)
    && (forall m | m in st.open && m != n :: m !in st.filed && !Tracked(st, m, job))
  }

  /**
   When the job's only open issue may have lost marks, the next run on a drift set leaves that
   issue the only open one the job filed exactly when it has at least one mark left; stripped
   of both, it stays open beside a second one.
   */
  lemma OneMarkIsEnoughIff(st: State, n: nat, input: Input, job: Job)
    requires OnlyFiled(st, n, job) && IsManagedAuthor(job.self, job.authors)
    requires LabelListingComplete(st) && |ListOpen(st.open, st.next)| < SWEEP_LIMIT
    requires input.Reports() && input.drift.value != []
    ensures Run(st, input, job).0 == 0
    ensures (forall m | m in Run(st, input, job).1.open && m in Run(st, input, job).1.filed :: m == n)
      <==> Tracked(st, n, job)
  {
    hide IsManagedAuthor, Contains, Seen;
    if Tracked(st, n, job) {
      assert Inv(st, job);
      hide Run, Settled;
      RunIsSafe(st, input, job);
      FiledStays(st, n, input, job);
    } else {
      var st0 := st.(filed := st.filed - {n});
      assert Inv(st0, job);
      LookupIsRight(st0, job);
      FindIgnoresFiled(st, st0, job.authors);
      assert FindExistingIssue(st, job.authors) == NoTracker;
      hide FindExistingIssue, Renderer.Body, Renderer.Title;
      var st' := Run(st, input, job).1;
      assert st.next in st'.open && st.next in st'.filed && st.next != n;
    }
  }

  lemma FindIgnoresFiled(st: State, st0: State, authors: seq<string>)
    requires st.open == st0.open && st.next == st0.next
    ensures FindExistingIssue(st, authors) == FindExistingIssue(st0, authors)
  {
  }

  lemma FiledStays(st: State, n: nat, input: Input, job: Job)
    requires Inv(st, job) && Tracked(st, n, job) && input.Reports() && input.drift.value != []
    requires IsManagedAuthor(job.self, job.authors) && LabelListingComplete(st) && Run(st, input, job).0 == 0
    ensures forall m | m in Run(st, input, job).1.open && m in Run(st, input, job).1.filed :: m == n
  {
    hide IsManagedAuthor, Contains;
    var st' := Run(st, input, job).1;
    RunIsSafe(st, input, job);
    hide Run;
    assert Tracked(st', n, job);
  }
}
