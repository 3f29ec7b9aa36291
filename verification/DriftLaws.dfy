/** What the rendered report guarantees, however large or hostile the drift set. */
module DriftLaws {
  import opened Text
  import opened Lists
  import opened MdField
  import opened DriftReport

  // ----- the clamp

  /** Clamping never exceeds the bound and is done once and for all, on any text. */
  lemma ClampBounds(body: string, baseRef: string, w: Prose)
    ensures |ClampBody(body, baseRef, w)| <= MAX_BODY
    ensures ClampBody(ClampBody(body, baseRef, w), baseRef, w) == ClampBody(body, baseRef, w)
  {
    hide Notice, LastNewline;
  }

  /** A clamped body is cut at a newline, at or after the first one when that comes early. */
  lemma ClampCutsAtNewline(body: string, baseRef: string, w: Prose, m: nat) returns (cut: nat)
    requires MAX_BODY < |body| && 0 < m < MAX_BODY - 1000 && body[m] == '\n'
    ensures m <= cut < |body| && body[cut] == '\n' && ClampBody(body, baseRef, w) == body[..cut] + Notice(baseRef, w)
  {
    hide Notice;
    cut := LastNewline(body, MAX_BODY - |Notice(baseRef, w)|);
  }

  /** A first line that comes early enough is never cut. */
  lemma ClampKeepsFirstLine(body: string, baseRef: string, w: Prose, first: string)
    requires first != "" && |first| < MAX_BODY - 1000 && StartsWith(body, first + "\n")
    ensures StartsWith(ClampBody(body, baseRef, w), first)
  {
    hide Notice, LastNewline;
    var m := |first|;
    assert body[m] == body[0..m + 1][m] == '\n' && body[0..m] == body[0..m + 1][..m] == first;
    if |body| > MAX_BODY {
      var cut := ClampCutsAtNewline(body, baseRef, w, m);
      assert (body[..cut] + Notice(baseRef, w))[0..m] == body[0..m];
    }
  }

  lemma BodyBeginsWithMarker(es: seq<Entry>, ctx: Context, w: Prose)
    ensures StartsWith(RawBody(es, ctx, w), MARKER + "\n")
  {
    var lines := BodyLines(es, ctx, w);
    assert lines[0] == MARKER && |lines| > 1;
    var rest := Join(lines[1..], "\n");
    assert RawBody(es, ctx, w) == MARKER + "\n" + rest;
    assert (MARKER + "\n" + rest)[0..|MARKER + "\n"|] == MARKER + "\n";
  }

  /**
   However large the drift set: the body fits, begins with the whole marker, so that the marker
   sweep finds the issue again, and clamping it once more changes nothing.
   */
  lemma BodyFitsAndIsFound(drift: seq<Entry>, ctx: Context, w: Prose, le: (string, string) -> bool)
    ensures var body := RenderIssueBody(drift, ctx, w, le);
      && |body| <= MAX_BODY
      && StartsWith(body, MARKER) && Includes(body, MARKER)
      && ClampBody(body, ctx.baseRef, w) == body
  {
    hide ClampBody, RawBody;
    var es := Sort(drift, SortKey, le);
    BodyBeginsWithMarker(es, ctx, w);
    ClampBounds(RawBody(es, ctx, w), ctx.baseRef, w);
    ClampKeepsFirstLine(RawBody(es, ctx, w), ctx.baseRef, w, MARKER);
    assert HasAt(RenderIssueBody(drift, ctx, w, le), MARKER, 0);
  }

  // ----- the listing order of the drift set does not matter

  /** Tickets with the same id are the same entry; in particular when the ids are distinct. */
  ghost predicate IdsIdentify(drift: seq<Entry>) { KeysIdentify(drift, SortKey) }

  lemma SortIgnoresOrder(drift: seq<Entry>, other: seq<Entry>, le: (string, string) -> bool)
    requires TotalOrder(le) && IdsIdentify(drift) && multiset(other) == multiset(drift)
    ensures Sort(other, SortKey, le) == Sort(drift, SortKey, le) && |other| == |drift|
  {
    hide Sort, TotalOrder;
    SortForgetsOrderIff(drift, SortKey, le);
    assert |multiset(other)| == |other| && |multiset(drift)| == |drift|;
  }

  /** Body and title are the same for every order in which the drift set may be listed. */
  lemma ReportIgnoresOrder(drift: seq<Entry>, other: seq<Entry>, ctx: Context, w: Prose, le: (string, string) -> bool)
    requires TotalOrder(le) && IdsIdentify(drift) && multiset(other) == multiset(drift)
    ensures RenderIssueBody(other, ctx, w, le) == RenderIssueBody(drift, ctx, w, le)
    ensures RenderIssueTitle(other) == RenderIssueTitle(drift)
  {
    hide Sort, ClampBody, RawBody, TotalOrder;
    SortIgnoresOrder(drift, other, le);
  }

  // ----- the command lines

  /** The completion commands among the lines of the given parts, in order. */
  function CommandsIn(parts: seq<string>): seq<string> {
    Filter(SplitAll(parts, {'\n'}), IsCommandLine)
  }

  lemma CommandsInConcat(a: seq<string>, b: seq<string>)
    ensures CommandsIn(a + b) == CommandsIn(a) + CommandsIn(b)
  {
    SplitAllConcat(a, b, {'\n'});
    FilterConcat(SplitAll(a, {'\n'}), SplitAll(b, {'\n'}), IsCommandLine);
  }

  lemma PlainHasNone(lines: seq<string>)
    requires PlainText(lines)
    ensures CommandsIn(lines) == []
  {
    assert forall p | p in lines :: IsPlain(p) && FreeOf(p, {'\n'});
    SplitAllAtoms(lines, {'\n'});
    FilterNone(lines, IsCommandLine);
  }

  lemma CommandStart(l: string)
    ensures IsCommandLine(l) ==> |l| > 11 && l[0] == 'a' && l[11] == ' '
  {
    if |l| >= |COMPLETE| {
      assert l[0..|COMPLETE|][0] == l[0] && l[0..|COMPLETE|][11] == l[11];
    }
  }

  /** A line that starts with another character than the command is plain. */
  lemma OtherStart(l: string)
    requires FreeOf(l, {'\n'}) && (l == "" || l[0] != 'a')
    ensures IsPlain(l)
  {
    CommandStart(l);
  }

  lemma {:induction false} JoinFree(parts: seq<string>, sep: string)
    requires (forall p | p in parts :: FreeOf(p, {'\n'})) && FreeOf(sep, {'\n'})
    ensures FreeOf(Join(parts, sep), {'\n'})
  {
    if |parts| > 0 {
      assert parts[0] in parts;
    }
    if |parts| > 1 {
      JoinFree(parts[1..], sep);
      FreeConcat(parts[0] + sep, Join(parts[1..], sep), {'\n'});
      FreeConcat(parts[0], sep, {'\n'});
    }
  }

  lemma FieldFree(value: Option<string>)
    ensures FreeOf(Field(value, MAX_FIELD), {'\n'})
  {
    FieldIsSafe(value, MAX_FIELD);
    assert IsControl('\n');
  }

  lemma DecFree(n: nat)
    ensures FreeOf(Dec(n), {'\n'})
  {
    assert forall c | c in Dec(n) :: IsDigit(c);
  }

  lemma RailListFree(rails: seq<string>)
    ensures FreeOf(RailList(rails), {'\n'})
  {
    hide Field, Dec;
    var shown := if |rails| <= MAX_RAILS_SHOWN then rails else rails[..MAX_RAILS_SHOWN];
    forall i | 0 <= i < |shown| ensures FreeOf(ShownRails(shown)[i], {'\n'}) {
      FieldFree(Some(shown[i]));
    }
    JoinFree(ShownRails(shown), ", ");
    if |rails| > MAX_RAILS_SHOWN {
      DecFree(|rails| - MAX_RAILS_SHOWN);
    }
  }

  /** A field shown after a label that starts with another character than the command. */
  lemma LabelledIsPlain(name: string, value: string)
    requires FreeOf(name, {'\n'}) && name != "" && name[0] != 'a' && FreeOf(value, {'\n'})
    ensures IsPlain(name + value)
  {
    hide IsPlain;
    FreeConcat(name, value, {'\n'});
    assert (name + value)[0] == name[0];
    OtherStart(name + value);
  }

  lemma CodeFree(value: Option<string>)
    ensures FreeOf(Code(Field(value, MAX_FIELD)), {'\n'})
  {
    hide Field;
    FieldFree(value);
    FreeConcat("`", Field(value, MAX_FIELD), {'\n'});
    FreeConcat("`" + Field(value, MAX_FIELD), "`", {'\n'});
  }

  lemma ShownFieldFree(t: Entry)
    ensures FreeOf(if t.id.Some? then Field(t.id, MAX_FIELD) else "(unknown id)", {'\n'})
    ensures FreeOf(if t.reason.Some? then Field(t.reason, MAX_FIELD) else "(no reason recorded)", {'\n'})
  {
    hide Field;
    FieldFree(t.id);
    FieldFree(t.reason);
    assert FreeOf("(unknown id)", {'\n'});
    assert FreeOf("(no reason recorded)", {'\n'});
  }

  lemma LabelsAreFree()
    ensures FreeOf("### ", {'\n'})
    ensures FreeOf("- **Blocker:** ", {'\n'})
    ensures FreeOf("- **Frozen rails:** ", {'\n'})
    ensures FreeOf("- **Detected because:** ", {'\n'})
  {
  }

  /** Whatever an entry's fields hold, its row is five plain lines. */
  lemma RowIsPlain(t: Entry)
    ensures PlainText(RowLines(t))
  {
    hide Field, RailList, IsPlain, Code, FreeOf;
    var blocker := Some(if t.blocker.Some? then t.blocker.value else "unknown");
    LabelsAreFree();
    ShownFieldFree(t);
    CodeFree(blocker);
    RailListFree(t.rails);
    LabelledIsPlain("### ", if t.id.Some? then Field(t.id, MAX_FIELD) else "(unknown id)");
    OtherStart("");
    LabelledIsPlain("- **Blocker:** ", Code(Field(blocker, MAX_FIELD)));
    LabelledIsPlain("- **Frozen rails:** ", RailList(t.rails));
    LabelledIsPlain("- **Detected because:** ",
      if t.reason.Some? then Field(t.reason, MAX_FIELD) else "(no reason recorded)");
  }

  lemma RowHasNone(t: Entry)
    ensures CommandsIn([Join(RowLines(t), "\n")]) == []
  {
    hide IsPlain, IsCommandLine;
    var lines := RowLines(t);
    assert lines != [];
    RowIsPlain(t);
    hide RowLines;
    PlainHasNone(lines);
    OnePart(lines);
  }

  /** A part made of several lines counts like those lines. */
  lemma OnePart(lines: seq<string>)
    requires lines != [] && PlainText(lines)
    ensures CommandsIn([Join(lines, "\n")]) == CommandsIn(lines)
  {
    var part := Join(lines, "\n");
    assert forall p | p in lines :: IsPlain(p) && FreeOf(p, {'\n'});
    SplitJoinAtoms(lines, '\n');
    SplitAllAtoms(lines, {'\n'});
    assert [part][1..] == [];
    assert SplitAll([part], {'\n'}) == Split(part, {'\n'}) + [] == lines;
  }

  lemma {:induction false} RowsHaveNone(list: seq<Entry>)
    ensures CommandsIn(Rows(list)) == []
  {
    if list == [] {
      PlainHasNone([]);
    } else {
      hide RowLines, CommandsIn;
      RowHasNone(list[0]);
      RowsHaveNone(list[1..]);
      CommandsInConcat([Join(RowLines(list[0]), "\n")], Rows(list[1..]));
    }
  }

  lemma SectionHasNone(heading: string, text: seq<string>, list: seq<Entry>)
    requires IsHeading(heading) && PlainText(text)
    ensures CommandsIn(Section(heading, text, list)) == []
  {
    if list == [] {
      PlainHasNone([]);
    } else {
      var head := heading + "(" + Dec(|list|) + ")";
      DecFree(|list|);
      assert heading[0] == heading[0..3][0] == '#';
      OtherStart(head);
      OtherStart("");
      hide Rows, Dec, CommandsIn;
      PlainHasNone([head] + text);
      RowsHaveNone(list);
      PlainHasNone([""]);
      CommandsInConcat([head] + text + Rows(list), [""]);
      CommandsInConcat([head] + text, Rows(list));
    }
  }

  lemma CommandIsOneLine(t: Entry)
    requires IsRenderableId(t.id)
    ensures FreeOf(CompleteCommand(t), {'\n'}) && IsCommandLine(CompleteCommand(t))
  {
    var c := CompleteCommand(t);
    assert c[0..|COMPLETE|] == COMPLETE;
    assert forall d | d in t.id.value :: IsIdChar(d);
    assert IsRenderableHash(t.ticketHash) ==> FreeOf(t.ticketHash.value, {'\n'});
  }

  lemma {:induction false} CommandsAreFound(list: seq<Entry>)
    requires forall t | t in list :: IsRenderableId(t.id)
    ensures CommandsIn(Commands(list)) == Commands(list)
  {
    if list == [] {
      PlainHasNone([]);
    } else {
      var t := list[0];
      assert t in list;
      CommandIsOneLine(t);
      CommandsAreFound(list[1..]);
      SplitAtom(CompleteCommand(t), {'\n'});
      hide CompleteCommand, IsCommandLine;
      assert SplitAll(Commands(list), {'\n'})[1..] == SplitAll(Commands(list[1..]), {'\n'});
    }
  }

  lemma ReviewText()
    ensures FreeOf(REVIEW, {'\n'}) && |REVIEW| > 11 && REVIEW[11] == '-'
  {
  }

  lemma ReviewFlagsText()
    ensures FreeOf(INFER_SCOPE + DRY_RUN, {'\n'})
  {
    assert FreeOf(INFER_SCOPE, {'\n'});
    assert FreeOf(DRY_RUN, {'\n'});
    FreeConcat(INFER_SCOPE, DRY_RUN, {'\n'});
  }

  lemma ReviewIsPlain(baseRef: string)
    ensures IsPlain(ReviewCommand(baseRef))
  {
    hide CommandRef, IsPlain;
    var r := CommandRef(baseRef);
    assert ReviewCommand(baseRef) == REVIEW + r + (INFER_SCOPE + DRY_RUN);
    assert forall d | d in r :: IsRefChar(d);
    ReviewText();
    ReviewFlagsText();
    PiecesArePlain(REVIEW, r, (INFER_SCOPE + DRY_RUN));
  }

  lemma PiecesArePlain(a: string, b: string, c: string)
    requires FreeOf(a, {'\n'}) && FreeOf(b, {'\n'}) && FreeOf(c, {'\n'}) && |a| > 11 && a[11] == '-'
    ensures IsPlain(a + b + c)
  {
    FreeConcat(a + b, c, {'\n'});
    FreeConcat(a, b, {'\n'});
    var l := a + b + c;
    assert l[11] == a[11];
    CommandStart(l);
  }

  lemma CountedIsPlain(head: string, n: nat, tail: string)
    requires FreeOf(head, {'\n'}) && head != "" && head[0] != 'a' && FreeOf(tail, {'\n'})
    ensures IsPlain(head + Dec(n) + tail)
  {
    hide Dec, IsPlain;
    DecFree(n);
    FreeConcat(head + Dec(n), tail, {'\n'});
    FreeConcat(head, Dec(n), {'\n'});
    assert (head + Dec(n) + tail)[0] == head[0];
    OtherStart(head + Dec(n) + tail);
  }

  lemma SectionsHaveNone(es: seq<Entry>, ctx: Context, w: Prose)
    ensures CommandsIn(Sections(es, ctx, w)) == []
  {
    hide Section, CommandsIn, ActiveOnes, Confirmed, UnconfirmedOnes, ManualOnes, IsPlain, IsHeading;
    var a := Section(w.activeHeading, w.activeText, ActiveOnes(es, ctx));
    var c := Section(w.confirmedHeading, w.confirmedText, Confirmed(es, ctx));
    var text := w.unconfirmedText + (if ctx.activeUnknown then w.unknownNote else []) + w.unconfirmedAdvice;
    var u := Section(w.unconfirmedHeading, text, UnconfirmedOnes(es, ctx));
    var m := Section(w.manualHeading, w.manualText, ManualOnes(es));
    SectionHasNone(w.activeHeading, w.activeText, ActiveOnes(es, ctx));
    SectionHasNone(w.confirmedHeading, w.confirmedText, Confirmed(es, ctx));
    SectionHasNone(w.unconfirmedHeading, text, UnconfirmedOnes(es, ctx));
    SectionHasNone(w.manualHeading, w.manualText, ManualOnes(es));
    CommandsInConcat(a + c + u, m);
    CommandsInConcat(a + c, u);
    CommandsInConcat(a, c);
  }

  lemma CompleteBlockCommands(es: seq<Entry>, ctx: Context, w: Prose)
    ensures CommandsIn(CompleteBlock(es, ctx, w)) == Commands(CompletableOnes(es, ctx))
  {
    hide CommandsIn, CompletableOnes, Commands;
    var completable := CompletableOnes(es, ctx);
    CommandsAreFound(completable);
    if completable == [] {
      PlainHasNone([]);
      NoCommands();
    } else {
      OtherStart("```");
      OtherStart("");
      PlainHasNone(w.completeText);
      PlainHasNone(["```", ""]);
      CommandsInConcat(w.completeText + Commands(completable), ["```", ""]);
      CommandsInConcat(w.completeText, Commands(completable));
    }
  }

  lemma NoCommands()
    ensures Commands([]) == []
  {
  }

  lemma InferredBlockHasNone(es: seq<Entry>, ctx: Context, w: Prose)
    ensures CommandsIn(InferredBlock(es, ctx, w)) == []
  {
    hide CommandsIn, CompletableOnes, UnconfirmedOnes, IsPlain, Dec;
    var n := |UnconfirmedOnes(es, ctx)|;
    CountedIsPlain("The ", n, w.inferredRest);
    CountedIsPlain("No ready command is offered: the ", n, w.inferredRest);
    assert "The" + " " == "The ";
    assert "No ready command is offered: the" + " " == "No ready command is offered: the ";
    PlainHasNone(InferredBlock(es, ctx, w));
  }

  lemma UnsafeListFree(list: seq<Entry>)
    ensures FreeOf(Join(UnsafeIds(list), ", "), {'\n'})
  {
    hide Field;
    forall i | 0 <= i < |list| ensures FreeOf(UnsafeIds(list)[i], {'\n'}) {
      FieldFree(list[i].id);
    }
    JoinFree(UnsafeIds(list), ", ");
  }

  lemma UnsafeBlockHasNone(es: seq<Entry>, ctx: Context, w: Prose)
    ensures CommandsIn(UnsafeBlock(es, ctx, w)) == []
  {
    hide CommandsIn, UnsafeOnes, IsPlain, Dec, UnsafeIds, Join;
    var list := UnsafeOnes(es, ctx);
    UnsafeListFree(list);
    CountedIsPlain("\U{26A0} ", |list|, w.unsafeRest);
    var renaming := "renaming: " + Join(UnsafeIds(list), ", ") + ".";
    assert renaming[0] == 'r';
    OtherStart(renaming);
    OtherStart("");
    PlainHasNone(UnsafeBlock(es, ctx, w));
  }

  lemma ProcedureCommands(es: seq<Entry>, ctx: Context, w: Prose)
    ensures CommandsIn(Procedure(es, ctx, w)) == Commands(CompletableOnes(es, ctx))
  {
    hide CommandsIn, CompleteBlock, InferredBlock, UnsafeBlock, IsPlain, ReviewCommand, Commands;
    if RailsFreeze(es) == [] {
      PlainHasNone([]);
      NoCommands();
    } else {
      hide RailsFreeze, CompletableOnes;
      var top := w.procedure + [ReviewCommand(ctx.baseRef), "```", ""];
      var c, i, u := CompleteBlock(es, ctx, w), InferredBlock(es, ctx, w), UnsafeBlock(es, ctx, w);
      ReviewIsPlain(ctx.baseRef);
      OtherStart("```");
      OtherStart("");
      PlainHasNone(top);
      CompleteBlockCommands(es, ctx, w);
      InferredBlockHasNone(es, ctx, w);
      UnsafeBlockHasNone(es, ctx, w);
      CommandsInConcat(top + c + i, u);
      CommandsInConcat(top + c, i);
      CommandsInConcat(top, c);
    }
  }

  lemma BodyCommands(es: seq<Entry>, ctx: Context, w: Prose)
    ensures CommandsIn(BodyLines(es, ctx, w)) == Commands(CompletableOnes(es, ctx))
  {
    hide CommandsIn, Sections, Procedure, IsPlain, Commands, CompletableOnes;
    var top, s, p, end := [MARKER, ""] + w.intro, Sections(es, ctx, w), Procedure(es, ctx, w), ["---", ""] + w.footer;
    OtherStart(MARKER);
    OtherStart("");
    OtherStart("---");
    PlainHasNone(top);
    PlainHasNone(end);
    SectionsHaveNone(es, ctx, w);
    ProcedureCommands(es, ctx, w);
    assert BodyLines(es, ctx, w) == top + s + p + end;
    CommandsInConcat(top + s + p, end);
    CommandsInConcat(top + s, p);
    CommandsInConcat(top, s);
  }

  /** The lines of a text that are completion commands, in order. */
  function CommandLines(text: string): seq<string> {
    Filter(Split(text, {'\n'}), IsCommandLine)
  }

  lemma CutCommands(a: string, b: string)
    ensures CommandLines(a + "\n" + b) == CommandLines(a) + CommandLines(b)
  {
    SplitConcat(a, '\n', b, {'\n'});
    assert a + "\n" + b == a + ['\n'] + b;
    FilterConcat(Split(a, {'\n'}), Split(b, {'\n'}), IsCommandLine);
  }

  lemma NoticeIsQuoted(baseRef: string, w: Prose)
    ensures var l := NoticeLine(baseRef, w); FreeOf(l, {'\n'}) && l != "" && l[0] == '>'
  {
    hide CommandRef;
    var r := CommandRef(baseRef);
    assert forall d | d in r :: IsRefChar(d);
    assert w.noticeHead[0] == w.noticeHead[0..1][0] == '>';
    FreeConcat(w.noticeHead + r, w.noticeTail, {'\n'});
    FreeConcat(w.noticeHead, r, {'\n'});
  }

  lemma NoticeHasNone(baseRef: string, w: Prose)
    ensures CommandLines(Notice(baseRef, w)) == []
  {
    var l := NoticeLine(baseRef, w);
    NoticeIsQuoted(baseRef, w);
    hide NoticeLine;
    OneLineCommands(l);
    OneLineCommands("---");
    OneLineCommands("");
    hide CommandLines;
    CutCommands("", "" + "\n" + ("---" + "\n" + ("" + "\n" + l)));
    CutCommands("", "---" + "\n" + ("" + "\n" + l));
    CutCommands("---", "" + "\n" + l);
    CutCommands("", l);
    assert Notice(baseRef, w) == "" + "\n" + ("" + "\n" + ("---" + "\n" + ("" + "\n" + l)));
  }

  lemma OneLineCommands(l: string)
    requires FreeOf(l, {'\n'}) && (l == "" || l[0] != 'a')
    ensures CommandLines(l) == []
  {
    OtherStart(l);
    SplitAtom(l, {'\n'});
    FilterNone([l], IsCommandLine);
  }

  /** The clamp never cuts a line in two: the commands left are the first ones, whole. */
  lemma ClampKeepsCommandsWhole(body: string, baseRef: string, w: Prose, first: string)
    requires first != "" && |first| < MAX_BODY - 1000 && StartsWith(body, first + "\n")
    ensures CommandLines(ClampBody(body, baseRef, w)) <= CommandLines(body)
    ensures |body| <= MAX_BODY ==> CommandLines(ClampBody(body, baseRef, w)) == CommandLines(body)
  {
    if |body| > MAX_BODY {
      hide CommandLines, Notice, ClampBody;
      var m := |first|;
      assert body[m] == body[0..m + 1][m] == '\n';
      var cut := ClampCutsAtNewline(body, baseRef, w, m);
      NoticeHasNone(baseRef, w);
      NoticeStartsLine(baseRef, w);
      CutCommands(body[..cut], body[cut + 1..]);
      assert body == body[..cut] + "\n" + body[cut + 1..];
      NoticeAddsNone(body[..cut], Notice(baseRef, w));
    }
  }

  lemma NoticeAddsNone(kept: string, notice: string)
    requires notice != "" && notice[0] == '\n' && CommandLines(notice) == []
    ensures CommandLines(kept + notice) == CommandLines(kept)
  {
    hide CommandLines;
    var rest := notice[1..];
    assert "" + "\n" + rest == notice;
    assert kept + notice == kept + "\n" + rest;
    CutCommands("", rest);
    CutCommands(kept, rest);
  }

  lemma NoticeStartsLine(baseRef: string, w: Prose)
    ensures Notice(baseRef, w) != "" && Notice(baseRef, w)[0] == '\n'
  {
    hide NoticeLine;
  }

  /**
   The commands of the report. Whatever ids, rails, reasons and blockers the tickets carry, the
   lines of the published body that are completion commands are those of the completable
   entries, in order and whole: all of them when the body fits, else the first ones. So an
   entry that is active, unconfirmed, manual or has an unsafe id never gets one, and none
   appears when the active ticket is unknown.
   */
  lemma CommandsArePublishedForCompletableOnly(drift: seq<Entry>, ctx: Context, w: Prose, le: (string, string) -> bool)
    ensures var es := Sort(drift, SortKey, le);
      && CommandLines(RenderIssueBody(drift, ctx, w, le)) <= Commands(CompletableOnes(es, ctx))
      && (|RawBody(es, ctx, w)| <= MAX_BODY ==>
           CommandLines(RenderIssueBody(drift, ctx, w, le)) == Commands(CompletableOnes(es, ctx)))
      && (ctx.activeUnknown ==> CommandLines(RenderIssueBody(drift, ctx, w, le)) == [])
  {
    hide CommandLines, ClampBody, Commands, RawBody, Sort, CompletableOnes;
    var es := Sort(drift, SortKey, le);
    PublishedCommands(es, ctx, w);
    if ctx.activeUnknown {
      NoneCompletable(es, ctx);
      NoCommands();
    }
  }

  lemma NoneCompletable(es: seq<Entry>, ctx: Context)
    requires ctx.activeUnknown
    ensures CompletableOnes(es, ctx) == []
  {
    FilterNone(RailsFreeze(es), (t: Entry) => !IsActive(t, ctx) && IsDone(t, ctx));
  }

  lemma PublishedCommands(es: seq<Entry>, ctx: Context, w: Prose)
    ensures var published := CommandLines(ClampBody(RawBody(es, ctx, w), ctx.baseRef, w));
      && published <= Commands(CompletableOnes(es, ctx))
      && (|RawBody(es, ctx, w)| <= MAX_BODY ==> published == Commands(CompletableOnes(es, ctx)))
  {
    hide CommandLines, ClampBody, Commands, RawBody, BodyLines, CommandsIn, CompletableOnes;
    BodyBeginsWithMarker(es, ctx, w);
    ClampKeepsCommandsWhole(RawBody(es, ctx, w), ctx.baseRef, w, MARKER);
    BodyCommands(es, ctx, w);
    RawBodyCommands(es, ctx, w);
  }

  lemma RawBodyCommands(es: seq<Entry>, ctx: Context, w: Prose)
    ensures CommandLines(RawBody(es, ctx, w)) == CommandsIn(BodyLines(es, ctx, w))
  {
    var lines := BodyLines(es, ctx, w);
    assert lines[0] == MARKER;
    hide BodyLines;
    SplitJoin(lines, '\n');
  }
}
