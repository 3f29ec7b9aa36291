/** What the published report says of each ticket, told from the ticket's own fields. */
module DriftCommands {
  import opened Text
  import opened Lists
  import opened MdField
  import opened DriftReport
  import opened DriftLaws
  import opened DriftRenderer

  // ----- which tickets get a command

  /** A railed ticket that says it is done and is known not to be the one in flight. */
  predicate MayBeCompleted(t: Entry, ctx: Context) {
    && t.blocker == Some("rails-freeze")
    && !ctx.activeUnknown && (ctx.activeId.Some? ==> t.id != ctx.activeId)
    && t.reason.Some? && StartsWith(t.reason.value, "explicit status:")
  }

  /** Letters, digits, dots, underscores and hyphens, the first a letter or a digit. */
  predicate IsSafeId(id: Option<string>) {
    && id.Some? && 1 <= |id.value| <= 128
    && (var c := id.value[0]; 'A' <= c <= 'Z' || 'a' <= c <= 'z' || '0' <= c <= '9')
    && forall c | c in id.value ::
      'A' <= c <= 'Z' || 'a' <= c <= 'z' || '0' <= c <= '9' || c == '.' || c == '_' || c == '-'
  }

  predicate IsHexHash(hash: Option<string>) {
    hash.Some? && |hash.value| == 64 && forall c | c in hash.value :: '0' <= c <= '9' || 'a' <= c <= 'f'
  }

  /** The command that completes the ticket, and no other: its id stands right behind the verb. */
  function CommandFor(t: Entry): string
    requires t.id.Some?
  {
    "adlc ticket complete " + t.id.value
    + (if IsHexHash(t.ticketHash) then " --expect " + t.ticketHash.value else "")
    + " --write --authorize --json"
  }

  lemma {:induction false} SafeIdIs(id: Option<string>)
    ensures IsSafeId(id) <==> IsRenderableId(id)
  {
  }

  lemma CommandIs(t: Entry)
    requires t.id.Some?
    ensures CommandFor(t) == CompleteCommand(t)
  {
    assert IsHexHash(t.ticketHash) <==> IsRenderableHash(t.ticketHash);
  }

  lemma {:induction false} CompletableIff(es: seq<Entry>, ctx: Context, t: Entry)
    ensures t in CompletableOnes(es, ctx) <==> t in es && MayBeCompleted(t, ctx) && IsSafeId(t.id)
  {
    SafeIdIs(t.id);
    hide IsRenderableId, IsSafeId, StartsWith;
  }

  lemma {:induction false} CommandsOf(list: seq<Entry>, l: string)
    requires forall t | t in list :: IsRenderableId(t.id)
    ensures l in Commands(list) <==> exists t :: t in list && t.id.Some? && l == CompleteCommand(t)
  {
    hide CompleteCommand, IsRenderableId;
    if list != [] {
      assert list == [list[0]] + list[1..] && list[0] in list;
      SomeId(list[0]);
      CommandsOf(list[1..], l);
      assert Commands(list) == [CompleteCommand(list[0])] + Commands(list[1..]);
    }
  }

  lemma SomeId(t: Entry)
    requires IsRenderableId(t.id)
    ensures t.id.Some?
  {
  }

  /** `l` is the command of a ticket of the drift set that may be completed and has a safe id. */
  ghost predicate IsCommandOf(drift: seq<Entry>, ctx: Context, l: string) {
    exists t :: t in drift && MayBeCompleted(t, ctx) && IsSafeId(t.id) && l == CommandFor(t)
  }

  lemma {:induction false} CommandsAre(es: seq<Entry>, drift: seq<Entry>, ctx: Context, l: string)
    requires multiset(es) == multiset(drift)
    ensures l in Commands(CompletableOnes(es, ctx)) <==> IsCommandOf(drift, ctx, l)
  {
    var list := CompletableOnes(es, ctx);
    SameMembers(es, drift);
    CommandsOf(list, l);
    hide CompletableOnes, MayBeCompleted, IsSafeId, CommandFor, CompleteCommand, Commands, IsRenderableId;
    forall t ensures t in list <==> t in drift && MayBeCompleted(t, ctx) && IsSafeId(t.id) {
      CompletableIff(es, ctx, t);
    }
    forall t: Entry | t.id.Some? ensures CommandFor(t) == CompleteCommand(t) {
      CommandIs(t);
    }
    forall t | t in list ensures t.id.Some? {
      SomeId(t);
    }
  }

  /**
   Every published line that begins as a completion command is the command of a railed ticket of
   the drift set with an explicit status that is not the active one; and if nothing is cut, every
   such ticket with a safe id has its command, and there is no other one.
   */
  lemma {:induction false} PublishedCommandsAre(drift: seq<Entry>, ctx: Context, w: Prose, le: (string, string) -> bool,
                                                l: string)
    ensures var lines := Split(RenderIssueBody(drift, ctx, w, le), {'\n'});
      && (l in lines && StartsWith(l, "adlc ticket complete ") ==> IsCommandOf(drift, ctx, l))
      && (|RawBody(Sort(drift, SortKey, le), ctx, w)| <= 60_000 && IsCommandOf(drift, ctx, l) ==>
            l in lines && StartsWith(l, "adlc ticket complete "))
  {
    hide RenderIssueBody, RawBody, Commands, CompletableOnes, IsCommandOf, Sort, StartsWith;
    var es, body := Sort(drift, SortKey, le), RenderIssueBody(drift, ctx, w, le);
    CommandsArePublishedForCompletableOnly(drift, ctx, w, le);
    CommandsAre(es, drift, ctx, l);
    var published := CommandLines(body);
    assert l in published <==> l in Split(body, {'\n'}) && IsCommandLine(l);
    assert published <= Commands(CompletableOnes(es, ctx));
    assert forall i | 0 <= i < |published| :: published[i] == Commands(CompletableOnes(es, ctx))[i];
  }

  // ----- what a command may hold

  /** No character with a meaning to a shell. */
  predicate IsShellSafe(s: string) {
    forall c | c in s ::
      'A' <= c <= 'Z' || 'a' <= c <= 'z' || '0' <= c <= '9' || c == ' ' || c == '.' || c == '_' || c == '-'
  }

  lemma SafeConcat(a: string, b: string)
    ensures IsShellSafe(a + b) <==> IsShellSafe(a) && IsShellSafe(b)
  {
    assert forall c :: c in a + b <==> c in a || c in b;
  }

  lemma CommandWordsAreSafe()
    ensures IsShellSafe("adlc ticket complete ") && IsShellSafe(" --expect ")
    ensures IsShellSafe(" --write --authorize --json") && IsShellSafe("")
  {
    assert IsShellSafe("adlc ticket complete ");
    assert IsShellSafe(" --expect ");
    assert IsShellSafe(" --write --authorize --json");
  }

  lemma {:induction false} SafeIdIsSafe(t: Entry)
    requires IsSafeId(t.id)
    ensures t.id.Some? && IsShellSafe(t.id.value)
  {
  }

  lemma {:induction false} HashIsSafe(t: Entry)
    ensures IsShellSafe(if IsHexHash(t.ticketHash) then " --expect " + t.ticketHash.value else "")
  {
    CommandWordsAreSafe();
    if IsHexHash(t.ticketHash) {
      assert IsShellSafe(t.ticketHash.value);
      SafeConcat(" --expect ", t.ticketHash.value);
    }
  }

  lemma {:induction false} CommandIsShellSafe(t: Entry)
    requires IsSafeId(t.id)
    ensures t.id.Some? && IsShellSafe(CommandFor(t))
  {
    SafeIdIsSafe(t);
    HashIsSafe(t);
    CommandWordsAreSafe();
    var hash := if IsHexHash(t.ticketHash) then " --expect " + t.ticketHash.value else "";
    hide IsShellSafe, IsSafeId, IsHexHash;
    SafeConcat("adlc ticket complete " + t.id.value + hash, " --write --authorize --json");
    SafeConcat("adlc ticket complete " + t.id.value, hash);
    SafeConcat("adlc ticket complete ", t.id.value);
  }

  /** Whatever the tickets hold, a published command has only harmless characters. */
  lemma {:induction false} CommandsAreShellSafe(drift: seq<Entry>, ctx: Context, w: Prose,
                                                le: (string, string) -> bool, l: string)
    requires l in Split(RenderIssueBody(drift, ctx, w, le), {'\n'}) && StartsWith(l, "adlc ticket complete ")
    ensures IsShellSafe(l)
  {
    hide RenderIssueBody, IsShellSafe, CommandFor, Split, StartsWith, RawBody, MayBeCompleted;
    PublishedCommandsAre(drift, ctx, w, le, l);
    var t :| t in drift && MayBeCompleted(t, ctx) && IsSafeId(t.id) && l == CommandFor(t);
    CommandIsShellSafe(t);
  }

  // ----- the command that reviews the set

  /** What may stand for a base ref: no option, no space, no character with a meaning to a shell. */
  predicate IsSafeRef(r: string) {
    && 1 <= |r| <= 256 && (var c := r[0]; 'A' <= c <= 'Z' || 'a' <= c <= 'z' || '0' <= c <= '9')
    && forall c | c in r ::
      || 'A' <= c <= 'Z' || 'a' <= c <= 'z' || '0' <= c <= '9' || c == '.' || c == '_' || c == '-'
      || c == '/' || c == '@' || c == '+' || c == '=' || c == ','
  }

  /** The command that a report with railed tickets advertises for looking at the set. */
  function ReviewLine(baseRef: string): string {
    "adlc ticket-prune --base-ref " + (if IsSafeRef(baseRef) then baseRef else "UNRENDERABLE-BASE-REF")
    + (" --infer-scope" + "        # dry run: review the set")
  }

  lemma {:induction false} RefIs(baseRef: string)
    ensures IsSafeRef(baseRef) <==> IsRenderableRef(baseRef)
  {
  }

  lemma {:induction false} LineIsPublished(es: seq<Entry>, ctx: Context, w: Prose, l: string)
    requires l in BodyLines(es, ctx, w) && FreeOf(l, {'\n'})
    ensures l in Split(RawBody(es, ctx, w), {'\n'})
  {
    var lines := BodyLines(es, ctx, w);
    hide BodyLines, FreeOf;
    assert lines != [];
    SplitJoin(lines, '\n');
    PieceOfPart(lines, l);
  }

  lemma {:induction false} PieceOfPart(parts: seq<string>, l: string)
    requires l in parts && FreeOf(l, {'\n'})
    ensures l in SplitAll(parts, {'\n'})
  {
    if parts[0] == l {
      SplitAtom(l, {'\n'});
    } else {
      assert parts == [parts[0]] + parts[1..];
      PieceOfPart(parts[1..], l);
    }
  }

  /** If nothing is cut, a report with a railed ticket shows that command, with the base ref only if it is safe. */
  lemma {:induction false} ReviewIsPublished(drift: seq<Entry>, ctx: Context, w: Prose, le: (string, string) -> bool)
    requires (exists t :: t in drift && t.blocker == Some("rails-freeze"))
    requires |RawBody(Sort(drift, SortKey, le), ctx, w)| <= 60_000
    ensures ReviewLine(ctx.baseRef) in Split(RenderIssueBody(drift, ctx, w, le), {'\n'})
  {
    var es := Sort(drift, SortKey, le);
    SameMembers(es, drift);
    RefIs(ctx.baseRef);
    var t :| t in drift && t.blocker == Some("rails-freeze");
    assert t in RailsFreeze(es);
    hide RailsFreeze, Sort, RawBody, CompleteBlock, InferredBlock, UnsafeBlock, Sections, Split, FreeOf;
    hide IsSafeRef, IsRenderableRef, IsPlain;
    ReviewIsPlain(ctx.baseRef);
    PlainIsOneLine(ReviewCommand(ctx.baseRef));
    assert ReviewLine(ctx.baseRef) == ReviewCommand(ctx.baseRef);
    hide ReviewCommand, ReviewLine;
    assert ReviewCommand(ctx.baseRef) in Procedure(es, ctx, w);
    assert ReviewCommand(ctx.baseRef) in BodyLines(es, ctx, w);
    LineIsPublished(es, ctx, w, ReviewCommand(ctx.baseRef));
  }

  lemma PlainIsOneLine(l: string)
    requires IsPlain(l)
    ensures FreeOf(l, {'\n'})
  {
  }

  // ----- which section a ticket stands in

  predicate IsRailed(t: Entry) { t.blocker == Some("rails-freeze") }

  predicate IsInFlight(t: Entry, ctx: Context) { ctx.activeId.Some? && t.id == ctx.activeId }

  predicate SaysDone(t: Entry, ctx: Context) {
    !ctx.activeUnknown && t.reason.Some? && StartsWith(t.reason.value, "explicit status:")
  }

  /**
   The four sections in the order of the report: railed tickets that are active, that are not and
   say they are done, and that are not and do not say so; then all tickets that are not railed.
   */
  lemma {:induction false} SectionsAre(es: seq<Entry>, ctx: Context, w: Prose)
    ensures Sections(es, ctx, w) ==
      Section(w.activeHeading, w.activeText, Filter(es, (t: Entry) => IsRailed(t) && IsInFlight(t, ctx)))
      + Section(w.confirmedHeading, w.confirmedText,
          Filter(es, (t: Entry) => IsRailed(t) && !IsInFlight(t, ctx) && SaysDone(t, ctx)))
      + Section(w.unconfirmedHeading,
          w.unconfirmedText + (if ctx.activeUnknown then w.unknownNote else []) + w.unconfirmedAdvice,
          Filter(es, (t: Entry) => IsRailed(t) && !IsInFlight(t, ctx) && !SaysDone(t, ctx)))
      + Section(w.manualHeading, w.manualText, Filter(es, (t: Entry) => !IsRailed(t)))
  {
    hide Section;
    FilterTwice(es, (t: Entry) => FreezesRails(t), (t: Entry) => IsActive(t, ctx),
      (t: Entry) => IsRailed(t) && IsInFlight(t, ctx));
    FilterTwice(es, (t: Entry) => FreezesRails(t), (t: Entry) => !IsActive(t, ctx) && IsDone(t, ctx),
      (t: Entry) => IsRailed(t) && !IsInFlight(t, ctx) && SaysDone(t, ctx));
    FilterTwice(es, (t: Entry) => FreezesRails(t), (t: Entry) => !IsActive(t, ctx) && !IsDone(t, ctx),
      (t: Entry) => IsRailed(t) && !IsInFlight(t, ctx) && !SaysDone(t, ctx));
    FilterAgrees(es, (t: Entry) => !FreezesRails(t), (t: Entry) => !IsRailed(t));
  }

  // ----- tickets that need a look first

  /** The line that counts the railed tickets which neither are active nor say they are done. */
  function CountLine(es: seq<Entry>, ctx: Context, w: Prose): string {
    var n := |Filter(es, (t: Entry) => IsRailed(t) && !IsInFlight(t, ctx) && !SaysDone(t, ctx))|;
    var ready := exists t :: t in es && MayBeCompleted(t, ctx) && IsSafeId(t.id);
    (if ready then "The" else "No ready command is offered: the") + " " + Dec(n) + w.inferredRest
  }

  lemma {:induction false} ReadyIff(es: seq<Entry>, ctx: Context)
    ensures CompletableOnes(es, ctx) != [] <==> exists t :: t in es && MayBeCompleted(t, ctx) && IsSafeId(t.id)
  {
    var list := CompletableOnes(es, ctx);
    forall t ensures t in list <==> t in es && MayBeCompleted(t, ctx) && IsSafeId(t.id) {
      CompletableIff(es, ctx, t);
    }
    hide CompletableOnes, MayBeCompleted, IsSafeId;
    if list != [] {
      assert list[0] in list;
    }
  }

  /** Some ticket has to be looked at: it is railed, not the active one, and does not say that it is done. */
  predicate SomeUnconfirmed(es: seq<Entry>, ctx: Context) {
    exists t :: t in es && IsRailed(t) && !IsInFlight(t, ctx) && !SaysDone(t, ctx)
  }

  lemma {:induction false} UnconfirmedAre(es: seq<Entry>, ctx: Context)
    ensures UnconfirmedOnes(es, ctx)
         == Filter(es, (t: Entry) => IsRailed(t) && !IsInFlight(t, ctx) && !SaysDone(t, ctx))
    ensures UnconfirmedOnes(es, ctx) != [] <==> SomeUnconfirmed(es, ctx)
    ensures SomeUnconfirmed(es, ctx) ==> RailsFreeze(es) != []
  {
    FilterTwice(es, (t: Entry) => FreezesRails(t), (t: Entry) => !IsActive(t, ctx) && !IsDone(t, ctx),
      (t: Entry) => IsRailed(t) && !IsInFlight(t, ctx) && !SaysDone(t, ctx));
    var list := Filter(es, (t: Entry) => IsRailed(t) && !IsInFlight(t, ctx) && !SaysDone(t, ctx));
    if t :| t in es && IsRailed(t) && !IsInFlight(t, ctx) && !SaysDone(t, ctx) {
      assert t in list && t in RailsFreeze(es);
    } else {
      FilterNone(es, (t: Entry) => IsRailed(t) && !IsInFlight(t, ctx) && !SaysDone(t, ctx));
    }
  }

  /**
   If there is such a ticket the report has that line, which says whether another one has a command;
   and if there is none it has nothing of the kind.
   */
  lemma {:induction false} UnconfirmedAreCounted(es: seq<Entry>, ctx: Context, w: Prose)
    ensures SomeUnconfirmed(es, ctx) ==> CountLine(es, ctx, w) in BodyLines(es, ctx, w)
    ensures InferredBlock(es, ctx, w) != [] <==> SomeUnconfirmed(es, ctx)
  {
    UnconfirmedAre(es, ctx);
    ReadyIff(es, ctx);
    hide UnconfirmedOnes, CompletableOnes, SomeUnconfirmed, MayBeCompleted, IsSafeId, SaysDone, Dec, CompleteBlock;
    hide UnsafeBlock, Sections, RailsFreeze;
    var l := CountLine(es, ctx, w);
    assert SomeUnconfirmed(es, ctx) ==> l in InferredBlock(es, ctx, w);
    hide InferredBlock, CountLine;
    assert SomeUnconfirmed(es, ctx) ==> l in Procedure(es, ctx, w);
    hide Procedure;
  }

  // ----- an id that may not become a command

  lemma {:induction false} UnsafeIff(es: seq<Entry>, ctx: Context, t: Entry)
    ensures t in UnsafeOnes(es, ctx) <==> t in es && MayBeCompleted(t, ctx) && !IsSafeId(t.id)
  {
    SafeIdIs(t.id);
    hide IsRenderableId, IsSafeId, StartsWith;
  }

  lemma {:induction false} PartOfJoin(parts: seq<string>, i: nat, sep: string)
    requires i < |parts|
    ensures Includes(Join(parts, sep), parts[i])
  {
    if |parts| == 1 {
      assert HasAt(parts[0], parts[0], 0);
    } else if i == 0 {
      IncludedInFront(parts[0], sep + Join(parts[1..], sep));
      assert parts[0] + sep + Join(parts[1..], sep) == parts[0] + (sep + Join(parts[1..], sep));
    } else {
      PartOfJoin(parts[1..], i - 1, sep);
      IncludedBehind(parts[0] + sep, Join(parts[1..], sep), parts[i]);
    }
  }

  ghost predicate AsksFor(l: string, t: Entry) {
    StartsWith(l, "renaming: ") && Includes(l, "`" + Field(t.id, 200) + "`")
  }

  /** A ticket whose id may not become part of a command is named, escaped, in a line that asks for a new name. */
  lemma {:induction false} UnsafeIsNamed(es: seq<Entry>, ctx: Context, w: Prose, t: Entry)
    requires t in es && MayBeCompleted(t, ctx) && !IsSafeId(t.id)
    ensures exists l :: l in BodyLines(es, ctx, w) && AsksFor(l, t)
  {
    UnsafeIff(es, ctx, t);
    assert FreezesRails(t) && t in RailsFreeze(es);
    var list := UnsafeOnes(es, ctx);
    hide UnsafeOnes, MayBeCompleted, IsSafeId, Field, RailsFreeze, Dec, Join, CompleteBlock, InferredBlock, Sections;
    var i :| 0 <= i < |list| && list[i] == t;
    var ids := Join(UnsafeIds(list), ", ");
    PartOfJoin(UnsafeIds(list), i, ", ");
    assert UnsafeIds(list)[i] == "`" + Field(t.id, 200) + "`";
    var l := "renaming: " + ids + ".";
    NamedBehind(ids, "`" + Field(t.id, 200) + "`");
    hide UnsafeIds, Includes;
    assert l in UnsafeBlock(es, ctx, w);
    hide UnsafeBlock;
    assert l in Procedure(es, ctx, w);
    hide Procedure;
    assert l in BodyLines(es, ctx, w);
  }

  lemma {:induction false} NamedBehind(ids: string, p: string)
    requires Includes(ids, p)
    ensures var l := "renaming: " + ids + "."; StartsWith(l, "renaming: ") && Includes(l, p)
  {
    var l := "renaming: " + ids + ".";
    IncludedBehind("renaming: ", ids, p);
    var i :| HasAt("renaming: " + ids, p, i);
    assert l[i..i + |p|] == ("renaming: " + ids)[i..i + |p|];
    assert HasAt(l, p, i);
    assert l[0..10] == "renaming: ";
  }
}
