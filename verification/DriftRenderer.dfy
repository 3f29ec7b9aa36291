/** Rendering as the source does it, and what a reader of the report can rely on. */
module DriftRenderer {
  import opened Text
  import opened Lists
  import opened DriftReport
  import opened DriftLaws

  /** What is shown of a ticket. */
  function RowText(t: Entry): string { Join(RowLines(t), "\n") }

  lemma {:induction false} RowIsListed(list: seq<Entry>, t: Entry)
    requires t in list
    ensures RowText(t) in Rows(list)
  {
    hide RowLines;
    if list[0] != t {
      assert list == [list[0]] + list[1..];
      RowIsListed(list[1..], t);
    }
  }

  lemma {:induction false} RowInSection(heading: string, text: seq<string>, list: seq<Entry>, t: Entry)
    requires t in list
    ensures RowText(t) in Section(heading, text, list)
  {
    hide Rows, RowText, Dec;
    RowIsListed(list, t);
  }

  /** Every ticket has its row in some section. */
  lemma {:induction false} EveryTicketIsShown(es: seq<Entry>, ctx: Context, w: Prose, t: Entry)
    requires t in es
    ensures RowText(t) in Sections(es, ctx, w)
  {
    hide Section, RowText, FreezesRails, IsActive, IsDone;
    var text := w.unconfirmedText + (if ctx.activeUnknown then w.unknownNote else []) + w.unconfirmedAdvice;
    if !FreezesRails(t) {
      RowInSection(w.manualHeading, w.manualText, ManualOnes(es), t);
    } else if IsActive(t, ctx) {
      RowInSection(w.activeHeading, w.activeText, ActiveOnes(es, ctx), t);
    } else if IsDone(t, ctx) {
      RowInSection(w.confirmedHeading, w.confirmedText, Confirmed(es, ctx), t);
    } else {
      RowInSection(w.unconfirmedHeading, text, UnconfirmedOnes(es, ctx), t);
    }
  }

  lemma {:induction false} IncludedBehind(a: string, b: string, p: string)
    requires Includes(b, p)
    ensures Includes(a + b, p)
  {
    var i :| HasAt(b, p, i);
    assert (a + b)[|a| + i..|a| + i + |p|] == b[i..i + |p|];
    assert HasAt(a + b, p, |a| + i);
  }

  lemma {:induction false} IncludedInFront(p: string, b: string)
    ensures Includes(p + b, p)
  {
    assert (p + b)[0..|p|] == p;
    assert HasAt(p + b, p, 0);
  }

  lemma {:induction false} PartIsIncluded(parts: seq<string>, sep: string, p: string)
    requires p in parts
    ensures Includes(Join(parts, sep), p)
  {
    hide Includes;
    if |parts| == 1 {
      IncludedInFront(p, "");
      Assoc(p, "", "");
    } else {
      var rest := Join(parts[1..], sep);
      if parts[0] == p {
        IncludedInFront(p, sep + rest);
        Assoc(p, sep, rest);
      } else {
        assert parts == [parts[0]] + parts[1..];
        PartIsIncluded(parts[1..], sep, p);
        IncludedBehind(parts[0] + sep, rest, p);
      }
    }
  }

  /** A body that is not cut holds the row of every ticket. */
  lemma {:induction false} WholeBodyShowsAll(es: seq<Entry>, ctx: Context, w: Prose, t: Entry)
    requires t in es
    ensures Includes(RawBody(es, ctx, w), RowText(t))
  {
    hide Sections, Procedure, RowText, Includes;
    EveryTicketIsShown(es, ctx, w, t);
    PartIsIncluded(BodyLines(es, ctx, w), "\n", RowText(t));
  }

  predicate EndsWith(s: string, end: string) { |end| <= |s| && s[|s| - |end|..] == end }

  /** A clamped body is the body itself or ends with the notice. */
  lemma {:induction false} CutIsNoticed(body: string, baseRef: string, w: Prose)
    ensures ClampBody(body, baseRef, w) == body || EndsWith(ClampBody(body, baseRef, w), Notice(baseRef, w))
  {
    hide Notice, LastNewline;
    var notice := Notice(baseRef, w);
    if |body| > MAX_BODY {
      var budget := MAX_BODY - |notice|;
      var cut := LastNewline(body, budget);
      var kept := body[..if cut > 0 then cut else budget];
      assert (kept + notice)[|kept|..] == notice;
    }
  }

  lemma {:induction false} AllShownNoCommands(es: seq<Entry>, ctx: Context, w: Prose)
    ensures forall t | t in es :: RowText(t) in Sections(es, ctx, w)
    ensures CommandsIn(Sections(es, ctx, w)) == []
  {
    hide Sections, RowText, CommandsIn;
    forall t | t in es ensures RowText(t) in Sections(es, ctx, w) {
      EveryTicketIsShown(es, ctx, w, t);
    }
    SectionsHaveNone(es, ctx, w);
  }

  // ----- the source's way of rendering

  /** Pushes the section of a list that has entries. */
  method PushSection(pushed: seq<string>, heading: string, text: seq<string>, list: seq<Entry>)
    returns (sections: seq<string>)
    ensures sections == pushed + Section(heading, text, list)
  {
    sections := pushed;
    if |list| > 0 {
      sections := sections + ([heading + "(" + Dec(|list|) + ")"] + text + Rows(list) + [""]);
    }
  }

  /** The sections are pushed one after the other; no ticket is left out, and none adds a command. */
  method RenderSections(entries: seq<Entry>, ctx: Context, w: Prose) returns (sections: seq<string>)
    ensures sections == Sections(entries, ctx, w)
    ensures forall t | t in entries :: RowText(t) in sections
    ensures CommandsIn(sections) == []
  {
    hide Section, ActiveOnes, Confirmed, UnconfirmedOnes, ManualOnes, RowText, CommandsIn;
    var advice := if ctx.activeUnknown then w.unknownNote else [];
    sections := PushSection([], w.activeHeading, w.activeText, ActiveOnes(entries, ctx));
    Assoc(sections, [], []);
    sections := PushSection(sections, w.confirmedHeading, w.confirmedText, Confirmed(entries, ctx));
    sections := PushSection(sections, w.unconfirmedHeading, w.unconfirmedText + advice + w.unconfirmedAdvice,
      UnconfirmedOnes(entries, ctx));
    sections := PushSection(sections, w.manualHeading, w.manualText, ManualOnes(entries));
    AllShownNoCommands(entries, ctx, w);
  }

  /**
   The body fits and begins with the marker, and it never drops a ticket silently: it holds the row
   of every ticket of the drift set or ends with the notice that it was cut.
   */
  method Render(drift: seq<Entry>, ctx: Context, w: Prose, le: (string, string) -> bool) returns (body: string)
    ensures body == RenderIssueBody(drift, ctx, w, le)
    ensures |body| <= MAX_BODY && StartsWith(body, MARKER)
    ensures (forall t | t in drift :: Includes(body, RowText(t))) || EndsWith(body, Notice(ctx.baseRef, w))
  {
    hide Sections, Procedure, ClampBody, Sort, RowText, Notice, Includes, EndsWith, StartsWith;
    var entries := Sort(drift, SortKey, le);
    var sections := RenderSections(entries, ctx, w);
    var lines := [MARKER, ""] + w.intro + sections + Procedure(entries, ctx, w) + ["---", ""] + w.footer;
    body := ClampBody(Join(lines, "\n"), ctx.baseRef, w);
    BodyFitsAndIsFound(drift, ctx, w, le);
    CutIsNoticed(RawBody(entries, ctx, w), ctx.baseRef, w);
    SameMembers(entries, drift);
    forall t | t in drift ensures Includes(RawBody(entries, ctx, w), RowText(t)) {
      WholeBodyShowsAll(entries, ctx, w, t);
    }
  }
}
