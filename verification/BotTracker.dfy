/** Whose issue is taken for the tracker: the job's own, in whatever form its login is reported. */
module BotTracker {
  import opened Text
  import opened Lists
  import opened DriftTracker
  import opened TrackerLaws

  /** One of the three ways to write the account. */
  predicate IsRendering(login: string, bare: string) {
    login == bare || login == "app/" + bare || login == bare + "[bot]"
  }

  /** The account is reported as a bot, by the flag or by the form of the login. */
  predicate ShowsBot(author: Author, bare: string) {
    author.login.Some? && IsRendering(author.login.value, bare)
    && (author.isBot == Some(true) || author.login.value == "app/" + bare || author.login.value == bare + "[bot]")
  }

  lemma {:induction false} RenderingIs(login: string, bare: string)
    requires IsBareLogin(bare) && IsRendering(login, bare)
    ensures NormalizeActorLogin(login) == bare && login != ""
  {
    hide NormalizeActorLogin, IsBareLogin;
    assert bare != "" by { BareIsText(bare); }
    BotRenderingsAgree(bare);
  }

  lemma BareIsText(bare: string)
    requires IsBareLogin(bare)
    ensures bare != ""
  {
  }

  lemma BotFormsShow(bare: string)
    ensures IsBotFormLogin("app/" + bare) && IsBotFormLogin(bare + "[bot]")
  {
    var a, b := "app/" + bare, bare + "[bot]";
    assert a[0..4] == "app/";
    assert b[|b| - 5..|b|] == "[bot]";
  }

  /** A bot that is configured under one of its renderings is accepted under each of them. */
  lemma {:induction false} BotIsManaged(author: Author, bare: string, spelled: string, authors: seq<string>)
    requires IsBareLogin(bare) && IsRendering(spelled, bare) && spelled in authors && ShowsBot(author, bare)
    ensures IsManagedAuthor(author, authors)
  {
    RenderingIs(spelled, bare);
    RenderingIs(author.login.value, bare);
    BotFormsShow(bare);
    hide NormalizeActorLogin, IsBareLogin, IsBotFormLogin, Configured;
  }

  /** A human account with the bot's bare name is not accepted when only the bot is configured. */
  lemma {:induction false} NamesakeIsNotManaged(author: Author, bare: string, authors: seq<string>)
    requires IsBareLogin(bare) && author.login == Some(bare) && author.isBot != Some(true)
    requires forall a | a in authors :: a == "app/" + bare || a == bare + "[bot]"
    ensures !IsManagedAuthor(author, authors)
  {
    NotInBotForm(bare);
    HumansOnlyIfConfigured(author, authors);
    Literally(bare);
    hide IsBareLogin, IsManagedAuthor, IsBotFormLogin, Lower, Trim;
  }

  lemma NotInBotForm(bare: string)
    requires IsBareLogin(bare)
    ensures !IsBotFormLogin(bare)
  {
    hide Lower, IsSpace;
  }

  lemma {:induction false} Literally(bare: string)
    requires IsBareLogin(bare)
    ensures Lower(Trim(bare)) == bare
    ensures Lower(Trim("app/" + bare)) != bare && Lower(Trim(bare + "[bot]")) != bare
  {
    hide *;
    BareText(bare);
    BotText(bare);
    AppText(bare);
    FormsAreLonger(bare);
  }

  lemma FormsAreLonger(bare: string)
    ensures "app/" + bare != bare && bare + "[bot]" != bare
  {
    assert |"app/" + bare| == |bare| + 4 && |bare + "[bot]"| == |bare| + 5;
  }

  lemma BareText(bare: string)
    requires IsBareLogin(bare)
    ensures Lower(Trim(bare)) == bare
  {
    hide IsSpace;
    TrimmedAlready(bare);
  }

  lemma AppText(bare: string)
    requires IsBareLogin(bare)
    ensures Lower(Trim("app/" + bare)) == "app/" + bare
  {
    var s := "app/" + bare;
    assert s[0] == 'a' && s[|s| - 1] == bare[|bare| - 1];
    TrimmedAlready(s);
    LowerConcat("app/", bare);
    assert Lower("app/") == "app/";
  }

  /** Logins as accounts have them: letters in lower case, digits and hyphens. */
  predicate IsAccountName(login: string) {
    login != "" && forall c | c in login :: 'a' <= c <= 'z' || '0' <= c <= '9' || c == '-'
  }

  lemma {:induction false} AccountNameIsBare(login: string)
    requires IsAccountName(login)
    ensures IsBareLogin(login)
  {
    assert forall i | 0 <= i < |login| :: login[i] in login;
    assert Lower(login) == login;
    HasAtChars(login, "app/", 0);
    assert |login| >= 4 ==> login[0 + 3] != "app/"[3];
    if |login| >= 5 {
      HasAtChars(login, "[bot]", |login| - 5);
      assert login[|login| - 5 + 0] != "[bot]"[0];
    }
  }

  // ----- letter case and white space around a login

  /** The two texts are the same up to the case of letters. */
  predicate SameUpToCase(a: string, b: string) {
    |a| == |b| && forall i | 0 <= i < |a| ::
      || a[i] == b[i]
      || ('A' <= a[i] <= 'Z' && b[i] as int == a[i] as int + 32)
      || ('A' <= b[i] <= 'Z' && a[i] as int == b[i] as int + 32)
  }

  predicate IsBlank(s: string) { forall c | c in s :: c == ' ' || c == '\t' }

  /** The text begins and ends with a visible character. */
  predicate IsTight(s: string) { s != "" && '!' <= s[0] <= '~' && '!' <= s[|s| - 1] <= '~' }

  lemma {:induction false} LowerAgrees(a: string, b: string)
    requires SameUpToCase(a, b)
    ensures Lower(a) == Lower(b)
  {
    forall i | 0 <= i < |a| ensures LowerChar(a[i]) == LowerChar(b[i]) {
    }
  }

  lemma {:induction false} TrimStartDrops(p: string, s: string)
    requires IsBlank(p) && s != "" && !IsSpace(s[0])
    ensures TrimStart(p + s) == s
  {
    if p == "" {
      assert p + s == s;
    } else {
      assert p[0] in p && IsSpace(p[0]);
      assert (p + s)[1..] == p[1..] + s;
      assert forall c | c in p[1..] :: c in p;
      TrimStartDrops(p[1..], s);
    }
  }

  lemma {:induction false} TrimEndDrops(s: string, q: string)
    requires IsBlank(q) && s != "" && !IsSpace(s[|s| - 1])
    ensures TrimEnd(s + q) == s
    decreases |q|
  {
    if q == "" {
      assert s + q == s;
    } else {
      var r := q[..|q| - 1];
      assert q[|q| - 1] in q && IsSpace(q[|q| - 1]);
      assert (s + q)[..|s + q| - 1] == s + r;
      assert forall c | c in r :: c in q;
      TrimEndDrops(s, r);
    }
  }

  lemma {:induction false} TrimDrops(p: string, s: string, q: string)
    requires IsBlank(p) && IsBlank(q) && IsTight(s)
    ensures Trim(p + s + q) == s
  {
    assert !IsSpace(s[0]) && !IsSpace(s[|s| - 1]);
    hide IsSpace, TrimStart, TrimEnd;
    assert p + s + q == p + (s + q) && (s + q)[0] == s[0];
    TrimStartDrops(p, s + q);
    TrimEndDrops(s, q);
  }

  /** What is configured literally is accepted, up to letter case and blanks around it; no bot is asked for. */
  lemma {:induction false} ConfiguredIsManaged(author: Author, login: string, spelled: string, authors: seq<string>,
                                               p: string, q: string)
    requires IsTight(login) && IsTight(spelled) && SameUpToCase(login, spelled) && IsBlank(p) && IsBlank(q)
    requires p + spelled + q in authors && author.login == Some(login)
    ensures IsManagedAuthor(author, authors)
  {
    hide *;
    var entry := p + spelled + q;
    TrimDrops(p, spelled, q);
    NothingToTrim(login);
    LowerAgrees(login, spelled);
    assert Lower(Trim(entry)) == Lower(Trim(login));
    LiteralIsManaged(author, login, entry, authors);
  }

  lemma {:induction false} NothingToTrim(s: string)
    requires IsTight(s)
    ensures Trim(s) == s && s != ""
  {
    assert !IsSpace(s[0]) && !IsSpace(s[|s| - 1]);
    hide IsSpace, Trim;
    TrimmedAlready(s);
  }

  lemma {:induction false} LiteralIsManaged(author: Author, login: string, entry: string, authors: seq<string>)
    requires author.login == Some(login) && login != "" && entry in authors && Lower(Trim(entry)) == Lower(Trim(login))
    ensures IsManagedAuthor(author, authors)
  {
    hide Lower, Trim, NormalizeActorLogin, IsBotFormLogin;
  }

  // ----- the issue that is found

  /** `n` is the only open issue with the label. */
  predicate OnlyLabelled(st: State, n: nat) {
    n in st.open && n < st.next && st.open[n].labeled && forall m | m in st.open && m != n :: !st.open[m].labeled
  }

  lemma {:induction false} OneListed(ls: seq<Listed>, l: Listed)
    requires Decreasing(ls) && l in ls && forall k | k in ls :: k == l
    ensures ls == [l]
  {
    if |ls| > 1 {
      TwoDiffer(ls);
    }
  }

  lemma {:induction false} LabelledAlone(st: State, n: nat)
    requires OnlyLabelled(st, n)
    ensures ListLabeled(st.open, st.next) == [Listed(n, st.open[n])]
  {
    var all, l := ListOpen(st.open, st.next), Listed(n, st.open[n]);
    assert l in all;
    FilterDecreasing(all, (k: Listed) => k.issue.labeled);
    OneListed(ListLabeled(st.open, st.next), l);
  }

  /** The labelled issue is the tracker if its author is managed, whatever else is open. */
  lemma {:induction false} LabelledIsFound(st: State, n: nat, authors: seq<string>)
    requires OnlyLabelled(st, n) && IsManagedAuthor(st.open[n].author, authors)
    ensures FindExistingIssue(st, authors) == Tracker(Listed(n, st.open[n]))
  {
    hide IsManagedAuthor, ListOpen, ListLabeled;
    LabelledAlone(st, n);
    var l := Listed(n, st.open[n]);
    FilterOne(l, (k: Listed) => IsCandidate(k, authors, false));
    assert First([l], LABEL_LIMIT) == [l];
  }

  /**
   The job finds its own issue under every rendering of its account: configured in one form and
   reported in another, the only labelled issue is the tracker.
   */
  lemma {:induction false} BotTrackerIsFound(st: State, n: nat, bare: string, spelled: string, authors: seq<string>)
    requires IsBareLogin(bare) && IsRendering(spelled, bare) && spelled in authors
    requires OnlyLabelled(st, n) && ShowsBot(st.open[n].author, bare)
    ensures FindExistingIssue(st, authors) == Tracker(Listed(n, st.open[n]))
  {
    hide IsBareLogin, IsRendering, ShowsBot;
    BotIsManaged(st.open[n].author, bare, spelled, authors);
    LabelledIsFound(st, n, authors);
  }

  /** Without a labelled issue, `n` is the only open one with the marker. */
  predicate OnlyMarked(st: State, n: nat) {
    && n in st.open && n < st.next && (forall m | m in st.open :: !st.open[m].labeled)
    && (forall m | m in st.open :: Contains(st.open[m].body, "<!-- adlc:ceremony-drift -->") <==> m == n)
  }

  lemma {:induction false} NoneLabelled(st: State, n: nat)
    requires OnlyMarked(st, n)
    ensures ListLabeled(st.open, st.next) == []
  {
    hide Contains;
    FilterNone(ListOpen(st.open, st.next), (l: Listed) => l.issue.labeled);
  }

  lemma {:induction false} NoneSelected(authors: seq<string>)
    ensures SelectTrackingIssue(First([], LABEL_LIMIT), authors, false) == NoTracker
  {
    FilterNone([], (l: Listed) => IsCandidate(l, authors, false));
  }

  lemma {:induction false} MarkedAlone(st: State, n: nat, authors: seq<string>)
    requires OnlyMarked(st, n)
    ensures var all := ListOpen(st.open, st.next);
      Filter(all, (l: Listed) => IsCandidate(l, authors, true))
      == if IsManagedAuthor(st.open[n].author, authors) then [Listed(n, st.open[n])] else []
  {
    hide IsManagedAuthor, Contains;
    var all, l := ListOpen(st.open, st.next), Listed(n, st.open[n]);
    assert l in all;
    forall k | k in all && IsCandidate(k, authors, true) ensures k == l {
    }
    FilterDecreasing(all, (k: Listed) => IsCandidate(k, authors, true));
    if IsManagedAuthor(st.open[n].author, authors) {
      assert IsCandidate(l, authors, true);
      OneListed(Filter(all, (k: Listed) => IsCandidate(k, authors, true)), l);
    } else {
      FilterNone(all, (k: Listed) => IsCandidate(k, authors, true));
    }
  }

  /**
   When the label is gone, the sweep over fewer than a thousand open issues takes the one with the
   marker for the tracker exactly if its author is managed: a copied marker is not enough.
   */
  lemma {:induction false} MarkedIsFoundIff(st: State, n: nat, authors: seq<string>)
    requires OnlyMarked(st, n) && |ListOpen(st.open, st.next)| < 1000
    ensures FindExistingIssue(st, authors) ==
      if IsManagedAuthor(st.open[n].author, authors) then Tracker(Listed(n, st.open[n])) else NoTracker
  {
    hide IsManagedAuthor, ListOpen, ListLabeled, IsCandidate, OnlyMarked;
    assert n in st.open by { MarkedIsOpen(st, n); }
    NoneLabelled(st, n);
    NoneSelected(authors);
    MarkedAlone(st, n, authors);
    var all := ListOpen(st.open, st.next);
    assert First(all, SWEEP_LIMIT) == all;
  }

  lemma MarkedIsOpen(st: State, n: nat)
    requires OnlyMarked(st, n)
    ensures n in st.open
  {
  }

  // ----- how far the two listings reach

  /** The label lookup sees the hundred newest labelled issues: the only managed one among them, and no later one. */
  lemma {:induction false} LabelSeesHundred(st: State, i: nat, authors: seq<string>)
    requires i < |ListLabeled(st.open, st.next)|
    requires var ls := ListLabeled(st.open, st.next);
      forall j | 0 <= j < |ls| :: IsManagedAuthor(ls[j].issue.author, authors) <==> j == i
    ensures SelectTrackingIssue(First(ListLabeled(st.open, st.next), LABEL_LIMIT), authors, false)
         == if i < 100 then Tracker(ListLabeled(st.open, st.next)[i]) else NoTracker
  {
    var ls := ListLabeled(st.open, st.next);
    FilterDecreasing(ListOpen(st.open, st.next), (l: Listed) => l.issue.labeled);
    hide ListLabeled, ListOpen, IsManagedAuthor;
    OnlyOneSeen(ls, i, (l: Listed) => IsCandidate(l, authors, false));
  }

  lemma {:induction false} OnlyOneSeen(ls: seq<Listed>, i: nat, p: Listed -> bool)
    requires Decreasing(ls) && i < |ls| && forall j | 0 <= j < |ls| :: p(ls[j]) <==> j == i
    ensures Filter(First(ls, LABEL_LIMIT), p) == if i < 100 then [ls[i]] else []
  {
    var seen := First(ls, LABEL_LIMIT);
    FirstDecreasing(ls, LABEL_LIMIT);
    assert forall j | 0 <= j < |seen| :: seen[j] == ls[j];
    assert |seen| == if |ls| <= 100 then |ls| else 100;
    FilterDecreasing(seen, p);
    hide First;
    if i < 100 {
      assert seen[i] in seen;
      OneListed(Filter(seen, p), ls[i]);
    } else {
      FilterNone(seen, p);
    }
  }

  /** Without any candidate the lookup says so only if it saw every open issue: fewer than a thousand. */
  lemma {:induction false} FullSweepIsUnknown(st: State, authors: seq<string>)
    requires forall m | m in st.open :: !IsManagedAuthor(st.open[m].author, authors)
    ensures FindExistingIssue(st, authors) == if |ListOpen(st.open, st.next)| < 1000 then NoTracker else Truncated
  {
    var all, labeled := ListOpen(st.open, st.next), ListLabeled(st.open, st.next);
    FirstMembers(all, SWEEP_LIMIT);
    FirstMembers(labeled, LABEL_LIMIT);
    assert forall l | l in all :: !IsManagedAuthor(l.issue.author, authors);
    assert forall l | l in labeled :: l in all;
    hide ListOpen, ListLabeled, IsManagedAuthor, First;
    FilterNone(First(labeled, LABEL_LIMIT), (l: Listed) => IsCandidate(l, authors, false));
    FilterNone(First(all, SWEEP_LIMIT), (l: Listed) => IsCandidate(l, authors, true));
    SweepSize(all);
  }

  lemma SweepSize(all: seq<Listed>)
    ensures |First(all, SWEEP_LIMIT)| >= SWEEP_LIMIT <==> |all| >= 1000
  {
  }

  // ----- such a job is safe

  /** A job that acts as a bot and is configured with any of its renderings has no tracker to begin with. */
  lemma {:induction false} BotJobStarts(job: Job, bare: string, spelled: string, next: nat)
    requires IsBareLogin(bare) && IsRendering(spelled, bare) && spelled in job.authors && ShowsBot(job.self, bare)
    ensures IsManagedAuthor(job.self, job.authors) && Inv(State(map[], next, {}), job)
  {
    hide IsBareLogin, IsRendering, ShowsBot;
    BotIsManaged(job.self, bare, spelled, job.authors);
    hide IsManagedAuthor;
  }

  /** The step is a run that reports and succeeds. */
  ghost predicate GotThrough(st: State, step: Step, job: Job) {
    step.Report? && step.input.Reports() && RunUntil(st, step.input, job, step.calls, step.lost).0 == 0
  }

  /**
   So over every sequence of its runs and of foreign changes there is never a second tracker, and
   every run that gets through leaves the one issue that the drift set calls for.
   */
  lemma {:induction false} BotNeverDuplicates(states: seq<State>, steps: seq<Step>, job: Job, k: nat,
                                              bare: string, spelled: string)
    requires IsBareLogin(bare) && IsRendering(spelled, bare) && spelled in job.authors && ShowsBot(job.self, bare)
    requires Trace(states, steps, job) && states[0].open == map[] && states[0].filed == {} && k < |states|
    ensures OneAtMost(states[k], job)
    ensures k < |steps| && GotThrough(states[k], steps[k], job) ==>
      Settled(states[k], states[k + 1], steps[k].input.drift.value, steps[k].input.renderer, job)
  {
    hide IsBareLogin, IsRendering, ShowsBot, Trace, RunUntil, Settled, IsManagedAuthor, OneAtMost;
    BotJobStarts(job, bare, spelled, states[0].next);
    assert states[0] == State(map[], states[0].next, {});
    TrackerIsSafe(states, steps, job, k);
  }
}
