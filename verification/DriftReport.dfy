/** The body and title of the tracking issue, as a function of the drift set. */
module DriftReport {
  import opened Text
  import opened Lists
  import opened MdField

  /** A drifting ticket; every text in it is untrusted. */
  datatype Entry = Entry(
    id: Option<string>,
    reason: Option<string>,
    rails: seq<string>,
    blocker: Option<string>,
    ticketHash: Option<string>
  )

  /** What the run knows beside the drift set: the active ticket, if any, and the base ref. */
  datatype Context = Context(activeId: Option<string>, activeUnknown: bool, baseRef: string)

  const MARKER: string := "<!-- adlc:ceremony-drift -->"
  const MAX_BODY := 60_000
  const MAX_BASE_REF := 256
  const MAX_TICKET_ID := 128
  const MAX_RAILS_SHOWN := 25
  const MAX_FIELD := 200

  // ----- what may become executable text

  predicate IsAlphanumeric(c: char) { 'A' <= c <= 'Z' || 'a' <= c <= 'z' || '0' <= c <= '9' }

  predicate IsIdChar(c: char) { IsAlphanumeric(c) || c == '.' || c == '_' || c == '-' }

  predicate IsRefChar(c: char) { IsIdChar(c) || c == '/' || c == '@' || c == '+' || c == '=' || c == ',' }

  predicate IsRenderableId(id: Option<string>) {
    && id.Some? && 0 < |id.value| <= MAX_TICKET_ID
    && IsAlphanumeric(id.value[0]) && forall c | c in id.value :: IsIdChar(c)
  }

  predicate IsRenderableRef(s: string) {
    0 < |s| <= MAX_BASE_REF && IsAlphanumeric(s[0]) && forall c | c in s :: IsRefChar(c)
  }

  predicate IsRenderableHash(hash: Option<string>) {
    hash.Some? && |hash.value| == 64 && forall c | c in hash.value :: '0' <= c <= '9' || 'a' <= c <= 'f'
  }

  function CommandRef(baseRef: string): (r: string)
    ensures IsRenderableRef(r) && |r| <= MAX_BASE_REF
  {
    if IsRenderableRef(baseRef) then baseRef else "UNRENDERABLE-BASE-REF"
  }

  const REVIEW: string := "adlc ticket-prune --base-ref "

  const INFER_SCOPE: string := " --infer-scope"

  const DRY_RUN: string := "        # dry run: review the set"

  function ReviewCommand(baseRef: string): string { REVIEW + CommandRef(baseRef) + (INFER_SCOPE + DRY_RUN) }

  const COMPLETE: string := "adlc ticket complete "

  function CompleteCommand(t: Entry): string
    requires t.id.Some?
  {
    COMPLETE + t.id.value
    + (if IsRenderableHash(t.ticketHash) then " --expect " + t.ticketHash.value else "")
    + " --write --authorize --json"
  }

  // ----- classification

  function SortKey(t: Entry): string { if t.id.Some? then t.id.value else "" }

  predicate FreezesRails(t: Entry) { t.blocker == Some("rails-freeze") }

  predicate IsActive(t: Entry, ctx: Context) { ctx.activeId.Some? && t.id == ctx.activeId }

  predicate IsDone(t: Entry, ctx: Context) {
    !ctx.activeUnknown && t.reason.Some? && StartsWith(t.reason.value, "explicit status:")
  }

  // The filters of the source, one by one.

  function RailsFreeze(es: seq<Entry>): seq<Entry> { Filter(es, (t: Entry) => FreezesRails(t)) }

  function ManualOnes(es: seq<Entry>): seq<Entry> { Filter(es, (t: Entry) => !FreezesRails(t)) }

  function ActiveOnes(es: seq<Entry>, ctx: Context): seq<Entry> {
    Filter(RailsFreeze(es), (t: Entry) => IsActive(t, ctx))
  }

  function Confirmed(es: seq<Entry>, ctx: Context): seq<Entry> {
    Filter(RailsFreeze(es), (t: Entry) => !IsActive(t, ctx) && IsDone(t, ctx))
  }

  function UnconfirmedOnes(es: seq<Entry>, ctx: Context): seq<Entry> {
    Filter(RailsFreeze(es), (t: Entry) => !IsActive(t, ctx) && !IsDone(t, ctx))
  }

  function CompletableOnes(es: seq<Entry>, ctx: Context): (r: seq<Entry>)
    ensures forall t | t in r :: IsRenderableId(t.id) && !ctx.activeUnknown
  {
    Filter(Confirmed(es, ctx), (t: Entry) => IsRenderableId(t.id))
  }

  function UnsafeOnes(es: seq<Entry>, ctx: Context): seq<Entry> {
    Filter(Confirmed(es, ctx), (t: Entry) => !IsRenderableId(t.id))
  }

  /**
   Classification conserves entries: the sections partition the drift set, and the confirmed
   entries split into those that get a command and those whose id may not become one.
   */
  lemma SectionsPartition(es: seq<Entry>, ctx: Context)
    ensures multiset(ActiveOnes(es, ctx)) + multiset(Confirmed(es, ctx)) + multiset(UnconfirmedOnes(es, ctx))
      + multiset(ManualOnes(es)) == multiset(es)
    ensures multiset(CompletableOnes(es, ctx)) + multiset(UnsafeOnes(es, ctx)) == multiset(Confirmed(es, ctx))
  {
    var rf := RailsFreeze(es);
    FilterSplits(es, (t: Entry) => FreezesRails(t), (t: Entry) => !FreezesRails(t));
    FilterSplits(rf, (t: Entry) => IsActive(t, ctx), (t: Entry) => !IsActive(t, ctx));
    var idle := Filter(rf, (t: Entry) => !IsActive(t, ctx));
    FilterSplits(idle, (t: Entry) => IsDone(t, ctx), (t: Entry) => !IsDone(t, ctx));
    FilterTwice(rf, (t: Entry) => !IsActive(t, ctx), (t: Entry) => IsDone(t, ctx),
      (t: Entry) => !IsActive(t, ctx) && IsDone(t, ctx));
    FilterTwice(rf, (t: Entry) => !IsActive(t, ctx), (t: Entry) => !IsDone(t, ctx),
      (t: Entry) => !IsActive(t, ctx) && !IsDone(t, ctx));
    FilterSplits(Confirmed(es, ctx), (t: Entry) => IsRenderableId(t.id), (t: Entry) => !IsRenderableId(t.id));
  }

  lemma {:induction false} FilterTwice(xs: seq<Entry>, p: Entry -> bool, q: Entry -> bool, both: Entry -> bool)
    requires forall x | x in xs :: both(x) <==> p(x) && q(x)
    ensures Filter(Filter(xs, p), q) == Filter(xs, both)
  {
    if xs != [] {
      assert xs == [xs[0]] + xs[1..];
      FilterTwice(xs[1..], p, q, both);
      if p(xs[0]) {
        assert ([xs[0]] + Filter(xs[1..], p))[1..] == Filter(xs[1..], p);
      }
    }
  }

  // ----- rendering

  /** The fixed prose of the report. The theorems hold for any wording of this shape. */
  datatype Wording = Wording(
    intro: seq<string>,
    activeHeading: string, activeText: seq<string>,
    confirmedHeading: string, confirmedText: seq<string>,
    unconfirmedHeading: string, unconfirmedText: seq<string>, unknownNote: seq<string>, unconfirmedAdvice: seq<string>,
    manualHeading: string, manualText: seq<string>,
    procedure: seq<string>, completeText: seq<string>,
    inferredRest: string, inferredAdvice: seq<string>,
    unsafeRest: string, unsafeAdvice: seq<string>,
    footer: seq<string>,
    noticeHead: string, noticeTail: string
  ) {
    /**
     No fixed line holds a newline or reads as a completion command, and the truncation notice
     is a quoted line of moderate length.
     */
    predicate Valid() {
      && PlainText(intro) && PlainText(activeText) && PlainText(confirmedText) && PlainText(manualText)
      && PlainText(unconfirmedText) && PlainText(unknownNote) && PlainText(unconfirmedAdvice)
      && PlainText(procedure) && PlainText(completeText) && PlainText(inferredAdvice) && PlainText(unsafeAdvice)
      && PlainText(footer)
      && IsHeading(activeHeading) && IsHeading(confirmedHeading)
      && IsHeading(unconfirmedHeading) && IsHeading(manualHeading)
      && FreeOf(inferredRest, {'\n'}) && FreeOf(unsafeRest, {'\n'})
      && FreeOf(noticeHead, {'\n'}) && FreeOf(noticeTail, {'\n'})
      && StartsWith(noticeHead, ">") && |noticeHead| + |noticeTail| <= 500
    }
  }

  const BLANK: Wording :=
    Wording([], "## ", [], "## ", [], "## ", [], [], [], "## ", [], [], [], "", [], "", [], [], ">", "")

  type Prose = w: Wording | w.Valid() witness BLANK

  predicate IsCommandLine(l: string) { StartsWith(l, COMPLETE) }

  predicate IsPlain(l: string) { FreeOf(l, {'\n'}) && !IsCommandLine(l) }

  predicate PlainText(lines: seq<string>) { forall l | l in lines :: IsPlain(l) }

  predicate IsHeading(h: string) { FreeOf(h, {'\n'}) && StartsWith(h, "## ") }

  function Code(s: string): string { "`" + s + "`" }

  function ShownRails(rails: seq<string>): seq<string> {
    seq(|rails|, i requires 0 <= i < |rails| => Code(Field(Some(rails[i]), MAX_FIELD)))
  }

  function RailList(rails: seq<string>): string {
    if rails == [] then "_(none)_"
    else if |rails| <= MAX_RAILS_SHOWN then Join(ShownRails(rails), ", ")
    else
      Join(ShownRails(rails[..MAX_RAILS_SHOWN]), ", ")
      + ", _\U{2026}and " + Dec(|rails| - MAX_RAILS_SHOWN) + " more_"
  }

  function RowLines(t: Entry): seq<string> {
    [ "### " + (if t.id.Some? then Field(t.id, MAX_FIELD) else "(unknown id)"),
      "",
      "- **Blocker:** " + Code(Field(Some(if t.blocker.Some? then t.blocker.value else "unknown"), MAX_FIELD)),
      "- **Frozen rails:** " + RailList(t.rails),
      "- **Detected because:** " + (if t.reason.Some? then Field(t.reason, MAX_FIELD) else "(no reason recorded)") ]
  }

  function Rows(list: seq<Entry>): seq<string> {
    if list == [] then [] else [Join(RowLines(list[0]), "\n")] + Rows(list[1..])
  }

  function Section(heading: string, text: seq<string>, list: seq<Entry>): seq<string> {
    if list == [] then [] else [heading + "(" + Dec(|list|) + ")"] + text + Rows(list) + [""]
  }

  function Commands(list: seq<Entry>): seq<string>
    requires forall t | t in list :: IsRenderableId(t.id)
  {
    if list == [] then []
    else
      assert list[0] in list && IsRenderableId(list[0].id);
      [CompleteCommand(list[0])] + Commands(list[1..])
  }

  function UnsafeIds(list: seq<Entry>): seq<string> {
    seq(|list|, i requires 0 <= i < |list| => Code(Field(list[i].id, MAX_FIELD)))
  }

  function Sections(es: seq<Entry>, ctx: Context, w: Prose): seq<string> {
    Section(w.activeHeading, w.activeText, ActiveOnes(es, ctx))
    + Section(w.confirmedHeading, w.confirmedText, Confirmed(es, ctx))
    + Section(w.unconfirmedHeading,
        w.unconfirmedText + (if ctx.activeUnknown then w.unknownNote else []) + w.unconfirmedAdvice,
        UnconfirmedOnes(es, ctx))
    + Section(w.manualHeading, w.manualText, ManualOnes(es))
  }

  function CompleteBlock(es: seq<Entry>, ctx: Context, w: Prose): seq<string> {
    var completable := CompletableOnes(es, ctx);
    if completable == [] then [] else w.completeText + Commands(completable) + ["```", ""]
  }

  function InferredBlock(es: seq<Entry>, ctx: Context, w: Prose): seq<string> {
    var unconfirmed := UnconfirmedOnes(es, ctx);
    if unconfirmed == [] then []
    else
      [(if CompletableOnes(es, ctx) != [] then "The" else "No ready command is offered: the")
        + " " + Dec(|unconfirmed|) + w.inferredRest] + w.inferredAdvice
  }

  function UnsafeBlock(es: seq<Entry>, ctx: Context, w: Prose): seq<string> {
    var unsafeIds := UnsafeOnes(es, ctx);
    if unsafeIds == [] then []
    else
      ["\U{26A0} " + Dec(|unsafeIds|) + w.unsafeRest] + w.unsafeAdvice
      + ["renaming: " + Join(UnsafeIds(unsafeIds), ", ") + ".", ""]
  }

  function Procedure(es: seq<Entry>, ctx: Context, w: Prose): seq<string> {
    if RailsFreeze(es) == [] then []
    else
      w.procedure + [ReviewCommand(ctx.baseRef), "```", ""]
      + CompleteBlock(es, ctx, w) + InferredBlock(es, ctx, w) + UnsafeBlock(es, ctx, w)
  }

  /** The lines of the body, for entries already in order. */
  function BodyLines(es: seq<Entry>, ctx: Context, w: Prose): seq<string> {
    [MARKER, ""] + w.intro + Sections(es, ctx, w) + Procedure(es, ctx, w) + ["---", ""] + w.footer
  }

  function RawBody(es: seq<Entry>, ctx: Context, w: Prose): string {
    Join(BodyLines(es, ctx, w), "\n")
  }

  // ----- the size clamp

  function NoticeLine(baseRef: string, w: Prose): string { w.noticeHead + CommandRef(baseRef) + w.noticeTail }

  function Notice(baseRef: string, w: Prose): (n: string)
    ensures |n| < 1000
  {
    "\n" + ("" + "\n" + ("---" + "\n" + ("" + "\n" + NoticeLine(baseRef, w))))
  }

  /** The last newline at or before `from`, or -1. */
  function LastNewline(s: string, from: int): (i: int)
    requires from < |s|
    ensures -1 <= i && i <= (if from < 0 then -1 else from)
    ensures i >= 0 ==> s[i] == '\n'
    ensures forall j :: i < j <= from ==> 0 <= j ==> s[j] != '\n'
    decreases from + 1
  {
    if from < 0 then -1 else if s[from] == '\n' then from else LastNewline(s, from - 1)
  }

  function ClampBody(body: string, baseRef: string, w: Prose): string {
    if |body| <= MAX_BODY then body
    else
      var notice := Notice(baseRef, w);
      var budget := MAX_BODY - |notice|;
      var cut := LastNewline(body, budget);
      body[..if cut > 0 then cut else budget] + notice
  }

  function RenderIssueBody(drift: seq<Entry>, ctx: Context, w: Prose, le: (string, string) -> bool): string {
    ClampBody(RawBody(Sort(drift, SortKey, le), ctx, w), ctx.baseRef, w)
  }

  function RenderIssueTitle(drift: seq<Entry>): string {
    "Ticket ceremony drift: " + Dec(|drift|) + " shipped ticket" + (if |drift| == 1 then "" else "s")
    + " awaiting completion"
  }
}
