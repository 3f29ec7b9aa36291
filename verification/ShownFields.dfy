/** How the report shows what a ticket holds, character by character. */
module ShownFields {
  import opened Text
  import opened MdField
  import opened DriftReport
  import opened DriftRenderer

  /** The characters that give text a meaning in Markdown, but for the backslash. */
  predicate IsMark(c: char) {
    || c == '`' || c == '*' || c == '_' || c == '{' || c == '}' || c == '[' || c == ']' || c == '(' || c == ')'
    || c == '#' || c == '+' || c == '!' || c == '|' || c == '<' || c == '>'
  }

  /** How many backslashes stand directly in front of `j`. */
  function Backslashes(s: string, j: nat): nat
    requires j <= |s|
  {
    if j == 0 || s[j - 1] != '\\' then 0 else 1 + Backslashes(s, j - 1)
  }

  lemma {:induction false} BackslashesConcat(a: string, b: string, j: nat)
    requires j <= |b|
    ensures Backslashes(b, j) <= j
    ensures Backslashes(a + b, |a| + j)
         == if Backslashes(b, j) == j then j + Backslashes(a, |a|) else Backslashes(b, j)
    decreases j
  {
    if j == 0 {
      BackslashesPrefix(a, b, |a|);
    } else {
      BackslashesConcat(a, b, j - 1);
    }
  }

  lemma {:induction false} BackslashesPrefix(a: string, b: string, j: nat)
    requires j <= |a|
    ensures Backslashes(a + b, j) == Backslashes(a, j)
    decreases j
  {
    if j > 0 {
      BackslashesPrefix(a, b, j - 1);
    }
  }

  lemma {:induction false} MarkIsMeta(c: char)
    ensures IsMeta(c) <==> IsMark(c) || c == '\\'
  {
  }

  /** Every mark in an escaped text has an odd number of backslashes in front. */
  lemma {:induction false} EscapedMarks(s: string, j: nat)
    requires j < |Escape(s)| && IsMark(Escape(s)[j])
    ensures Backslashes(Escape(s), j) % 2 == 1
  {
    hide IsMeta, IsMark, Backslashes;
    var rest := Escape(s[1..]);
    var head := if IsMeta(s[0]) then ['\\', s[0]] else [s[0]];
    assert Escape(s) == head + rest;
    if j < |head| {
      HeadMarks(s[0], j);
      BackslashesPrefix(head, rest, j);
    } else {
      EscapedMarks(s[1..], j - |head|);
      HeadEnds(s[0]);
      BackslashesConcat(head, rest, j - |head|);
    }
  }

  lemma {:induction false} HeadMarks(c: char, j: nat)
    ensures var head := if IsMeta(c) then ['\\', c] else [c];
      j < |head| && IsMark(head[j]) ==> Backslashes(head, j) % 2 == 1
  {
    NoMark();
    MarkIsMeta(c);
    hide IsMark, IsMeta;
    assert Backslashes(['\\', c], 1) == 1;
  }

  /** What an escaped character ends in does not add to the backslashes behind it. */
  lemma {:induction false} HeadEnds(c: char)
    ensures var head := if IsMeta(c) then ['\\', c] else [c]; Backslashes(head, |head|) % 2 == 0
  {
    MarkIsMeta(c);
    hide IsMark, IsMeta;
    assert Backslashes(['\\', c], 1) == 1;
    assert Backslashes([c], 1) == if c == '\\' then 1 else 0;
  }

  lemma NoMark()
    ensures !IsMark('\\')
  {
  }

  /** No character that Markdown reads stands in a shown field without a backslash of its own in front. */
  lemma {:induction false} MarksAreEscaped(value: Option<string>, max: nat, j: nat)
    requires j < |Field(value, max)| && IsMark(Field(value, max)[j])
    ensures Backslashes(Field(value, max), j) % 2 == 1
  {
    hide Escape, IsMark;
    var s := Strip(if value.Some? then value.value else "");
    var e, f := Escape(s), Field(value, max);
    assert e == f + e[|f|..];
    EscapedMarks(s, j);
    BackslashesPrefix(f, e[|f|..], j);
  }

  /** A shown field has no control character, in particular no line break. */
  lemma {:induction false} NoControls(value: Option<string>, max: nat)
    ensures forall c | c in Field(value, max) :: c >= ' ' && c != '\U{7F}'
    ensures |Field(value, max)| <= max
  {
    FieldIsSafe(value, max);
    hide Field;
    forall c | c in Field(value, max) ensures c >= ' ' && c != '\U{7F}' {
      assert !IsControl(c);
    }
  }

  /** Text that needs no escape. */
  predicate IsHarmless(s: string) { forall c | c in s :: c >= ' ' && c != '\U{7F}' && !IsMark(c) && c != '\\' }

  lemma {:induction false} EscapeHarmless(s: string)
    requires IsHarmless(s)
    ensures Escape(s) == s && Strip(s) == s
  {
    assert forall i | 0 <= i < |s| :: s[i] in s;
    assert Strip(s) == s;
    if s != "" {
      MarkIsMeta(s[0]);
      assert forall c | c in s[1..] :: c in s;
      assert s == [s[0]] + s[1..];
      EscapeHarmless(s[1..]);
    }
  }

  /** Text that needs no escape and is not too long is shown as it is. */
  lemma {:induction false} HarmlessIsShown(s: string, max: nat)
    requires IsHarmless(s) && |s| <= max
    ensures Field(Some(s), max) == s
  {
    EscapeHarmless(s);
  }

  lemma {:induction false} EscapeConcat(a: string, b: string)
    ensures Escape(a + b) == Escape(a) + Escape(b)
  {
    hide IsMeta;
    if a == "" {
      assert a + b == b;
    } else {
      assert (a + b)[1..] == a[1..] + b;
      EscapeConcat(a[1..], b);
      Assoc(if IsMeta(a[0]) then ['\\', a[0]] else [a[0]], Escape(a[1..]), Escape(b));
    }
  }

  /** A control character, a line break say, is shown as a blank. */
  lemma {:induction false} ControlIsBlank(a: string, c: char, b: string, max: nat)
    requires IsHarmless(a) && IsHarmless(b) && (c < ' ' || c == '\U{7F}') && |a| + 1 + |b| <= max
    ensures Field(Some(a + [c] + b), max) == a + " " + b
  {
    hide Escape, Strip, IsHarmless;
    EscapeHarmless(a);
    EscapeHarmless(b);
    BlankIsHarmless();
    EscapeHarmless(" ");
    StripParts(a, c, b);
    EscapeConcat(a + " ", b);
    EscapeConcat(a, " ");
  }

  lemma {:induction false} StripParts(a: string, c: char, b: string)
    requires c < ' ' || c == '\U{7F}'
    ensures Strip(a + [c] + b) == Strip(a) + " " + Strip(b)
  {
    assert IsControl(c);
    hide IsControl;
    assert |Strip(a + [c] + b)| == |Strip(a) + " " + Strip(b)|;
  }

  lemma BlankIsHarmless()
    ensures IsHarmless(" ")
  {
  }

  // ----- the row of a ticket

  predicate IsShowable(s: string) { IsHarmless(s) && |s| <= 200 }

  /** Every rail in back quotes. */
  function Ticked(rails: seq<string>): seq<string> {
    if rails == [] then [] else ["`" + rails[0] + "`"] + Ticked(rails[1..])
  }

  lemma {:induction false} RailsAreTicked(rails: seq<string>)
    requires forall r | r in rails :: IsShowable(r)
    ensures ShownRails(rails) == Ticked(rails)
  {
    hide Field, IsShowable;
    if rails != [] {
      assert rails[0] in rails && forall r | r in rails[1..] :: r in rails;
      RailIsShown(rails[0]);
      RailsAreTicked(rails[1..]);
      assert ShownRails(rails)[1..] == ShownRails(rails[1..]);
      assert ShownRails(rails) == [ShownRails(rails)[0]] + ShownRails(rails)[1..];
    }
  }

  lemma RailIsShown(r: string)
    requires IsShowable(r)
    ensures Field(Some(r), MAX_FIELD) == r
  {
    HarmlessIsShown(r, 200);
  }

  /** What the line of the rails says. */
  function RailsLine(rails: seq<string>): string {
    if rails == [] then "_(none)_"
    else if |rails| <= 25 then Join(Ticked(rails), ", ")
    else Join(Ticked(rails[..25]), ", ") + ", _\U{2026}and " + Dec(|rails| - 25) + " more_"
  }

  lemma {:induction false} RailsLineIs(rails: seq<string>)
    requires forall r | r in rails :: IsShowable(r)
    ensures RailList(rails) == RailsLine(rails)
  {
    hide IsShowable, Ticked, ShownRails, Dec, Join;
    if rails == [] {
    } else if |rails| <= 25 {
      RailsAreTicked(rails);
    } else {
      RailsAreTicked(rails[..25]);
    }
  }

  /** The row of a ticket whose fields need no escape: each of them behind its own label. */
  lemma {:induction false} RowShowsFields(t: Entry)
    requires t.id.Some? && IsShowable(t.id.value) && t.blocker.Some? && IsShowable(t.blocker.value)
    requires t.reason.Some? && IsShowable(t.reason.value) && forall r | r in t.rails :: IsShowable(r)
    ensures RowText(t) == "### " + t.id.value + "\n" + ("" + "\n"
      + ("- **Blocker:** " + ("`" + t.blocker.value + "`") + "\n"
      + ("- **Frozen rails:** " + RailsLine(t.rails) + "\n"
      + ("- **Detected because:** " + t.reason.value))))
  {
    hide Field, IsShowable, RailList, RailsLine;
    RailIsShown(t.id.value);
    RailIsShown(t.blocker.value);
    RailIsShown(t.reason.value);
    RailsLineIs(t.rails);
    var lines := RowLines(t);
    JoinFive(lines[0], lines[1], lines[2], lines[3], lines[4]);
    assert lines == [lines[0], lines[1], lines[2], lines[3], lines[4]];
  }

  lemma {:induction false} JoinMore(a: string, rest: seq<string>)
    requires rest != []
    ensures Join([a] + rest, "\n") == a + "\n" + Join(rest, "\n")
  {
    assert ([a] + rest)[1..] == rest;
  }

  lemma {:induction false} JoinFive(a: string, b: string, c: string, d: string, e: string)
    ensures Join([a, b, c, d, e], "\n") == a + "\n" + (b + "\n" + (c + "\n" + (d + "\n" + e)))
  {
    JoinMore(d, [e]);
    JoinMore(c, [d] + [e]);
    JoinMore(b, [c] + ([d] + [e]));
    JoinMore(a, [b] + ([c] + ([d] + [e])));
    assert [a, b, c, d, e] == [a] + ([b] + ([c] + ([d] + [e])));
  }

  /** What is not recorded is said so. */
  lemma {:induction false} RowOfNothing(t: Entry)
    requires t.id == t.reason == t.blocker == None && t.rails == []
    ensures RowText(t) == "### " + "(unknown id)" + "\n" + ("" + "\n"
      + ("- **Blocker:** " + ("`" + "unknown" + "`") + "\n"
      + ("- **Frozen rails:** " + "_(none)_" + "\n"
      + ("- **Detected because:** " + "(no reason recorded)"))))
  {
    assert IsShowable("unknown");
    RailIsShown("unknown");
    hide Field;
    var lines := RowLines(t);
    JoinFive(lines[0], lines[1], lines[2], lines[3], lines[4]);
    assert lines == [lines[0], lines[1], lines[2], lines[3], lines[4]];
  }

  // ----- the title

  lemma {:induction false} DigitsBeforeSpace(a: string, b: string, u: string, v: string)
    requires AllDigits(a) && AllDigits(b) && a + " " + u == b + " " + v
    ensures a == b
  {
    var s := a + " " + u;
    assert s[|a|] == ' ' && s[|b|] == ' ';
    assert |a| < |b| ==> s[|a|] == b[|a|] && b[|a|] in b && IsDigit(b[|a|]);
    assert |b| < |a| ==> s[|b|] == a[|b|] && a[|b|] in a && IsDigit(a[|b|]);
    assert s[..|a|] == a && s[..|b|] == b;
  }

  lemma {:induction false} TitleIs(drift: seq<Entry>)
    ensures RenderIssueTitle(drift) == "Ticket ceremony drift: " + (Dec(|drift|) + " "
      + ("shipped ticket" + (if |drift| == 1 then "" else "s") + " awaiting completion"))
  {
    hide Dec;
    assert " shipped ticket" == " " + "shipped ticket";
  }

  /** The title of a report says how many tickets it is about, and nothing else. */
  lemma {:induction false} TitleTellsCount(a: seq<Entry>, b: seq<Entry>)
    ensures RenderIssueTitle(a) == RenderIssueTitle(b) <==> |a| == |b|
  {
    ParseDecDec(|a|);
    ParseDecDec(|b|);
    TitleIs(a);
    TitleIs(b);
    hide Dec, RenderIssueTitle;
    var p := "Ticket ceremony drift: ";
    var u := "shipped ticket" + (if |a| == 1 then "" else "s") + " awaiting completion";
    var v := "shipped ticket" + (if |b| == 1 then "" else "s") + " awaiting completion";
    SamePrefix(p, Dec(|a|) + " " + u, Dec(|b|) + " " + v);
    Assoc(Dec(|a|), " ", u);
    Assoc(Dec(|b|), " ", v);
    if RenderIssueTitle(a) == RenderIssueTitle(b) {
      DigitsBeforeSpace(Dec(|a|), Dec(|b|), u, v);
    }
  }

  lemma SamePrefix(p: string, a: string, b: string)
    ensures p + a == p + b <==> a == b
  {
    assert (p + a)[|p|..] == a && (p + b)[|p|..] == b;
  }
}
