/** The size of the issue body in bytes, where the clamp counts characters: drift sets that do not fit. */
module DriftSize {
  import opened Text
  import opened Lists
  import opened MdField
  import opened DriftReport
  import opened DriftBytes

  // ----- a drift set that does not fit

  /** A character of three bytes. */
  const WIDE: char := '\U{754C}'

  function Wides(s: string): nat { multiset(s)[WIDE] }

  lemma {:induction false} BytesAtLeast(s: string)
    ensures Bytes(s) >= |s| + 2 * Wides(s)
  {
    if s != "" {
      assert s == [s[0]] + s[1..];
      BytesAtLeast(s[1..]);
    }
  }

  /** A rail of 200 wide characters. */
  predicate IsWideRail(r: string) { |r| == 200 && forall c | c in r :: c == WIDE }

  lemma {:induction false} AllWide(s: string)
    requires forall c | c in s :: c == WIDE
    ensures Wides(s) == |s|
  {
    if s != "" {
      assert s == [s[0]] + s[1..] && s[0] in s;
      assert forall c | c in s[1..] :: c in s;
      AllWide(s[1..]);
    }
  }

  lemma {:induction false} EscapePlain(s: string)
    requires forall c | c in s :: !IsMeta(c)
    ensures Escape(s) == s
  {
    if s != "" {
      assert s == [s[0]] + s[1..];
      EscapePlain(s[1..]);
    }
  }

  lemma {:induction false} RailIsShownWhole(r: string)
    requires IsWideRail(r)
    ensures Field(Some(r), MAX_FIELD) == r
  {
    assert !IsMeta(WIDE) && !IsControl(WIDE);
    hide IsMeta, IsControl;
    forall i | 0 <= i < |r| ensures Strip(r)[i] == r[i] {
      assert r[i] in r;
    }
    assert Strip(r) == r;
    EscapePlain(r);
  }

  /** The characters of the parts, each with `sep` more. */
  function Size(parts: seq<string>, sep: nat): nat {
    if parts == [] then 0 else |parts[0]| + sep + Size(parts[1..], sep)
  }

  function WidesIn(parts: seq<string>): nat {
    if parts == [] then 0 else Wides(parts[0]) + WidesIn(parts[1..])
  }

  lemma {:induction false} JoinSize(parts: seq<string>, sep: string)
    ensures |Join(parts, sep)| <= Size(parts, |sep|)
    ensures Wides(Join(parts, sep)) >= WidesIn(parts)
  {
    if |parts| == 1 {
      assert parts[1..] == [];
    } else if |parts| > 1 {
      JoinSize(parts[1..], sep);
    }
  }

  lemma {:induction false} SizeConcat(a: seq<string>, b: seq<string>, sep: nat)
    ensures Size(a + b, sep) == Size(a, sep) + Size(b, sep)
    ensures WidesIn(a + b) == WidesIn(a) + WidesIn(b)
  {
    if a == [] {
      assert a + b == b;
    } else {
      assert (a + b)[1..] == a[1..] + b;
      SizeConcat(a[1..], b, sep);
    }
  }

  /** Parts of at most `m` characters with at least `n` wide ones each. */
  lemma {:induction false} SizeOfEqual(parts: seq<string>, sep: nat, m: nat, n: nat)
    requires forall p | p in parts :: |p| <= m && Wides(p) >= n
    ensures Size(parts, sep) <= |parts| * (m + sep)
    ensures WidesIn(parts) >= |parts| * n
  {
    if parts != [] {
      assert parts == [parts[0]] + parts[1..] && parts[0] in parts;
      SizeOfEqual(parts[1..], sep, m, n);
      Times(|parts| - 1, m + sep);
      Times(|parts| - 1, n);
    }
  }

  lemma Times(k: nat, m: nat)
    ensures (k + 1) * m == k * m + m
  {
  }

  /** What ticket-prune hands over: a railed ticket, or one with a `completed` field that is not `true`. */
  predicate IsCeremonyEntry(t: Entry) {
    && t.id.Some? && t.reason.Some?
    && (t.blocker == Some("preexisting-completed-field") || (t.blocker == Some("rails-freeze") && t.rails != []))
  }

  predicate AreCeremonyEntries(drift: seq<Entry>) { forall t | t in drift :: IsCeremonyEntry(t) }

  /** A ticket for manual decision with 25 wide rails. */
  predicate IsWideTicket(t: Entry) {
    && IsCeremonyEntry(t) && !FreezesRails(t)
    && |t.rails| == 25 && forall r | r in t.rails :: IsWideRail(r)
  }

  /** Five such tickets. */
  predicate IsWideDrift(drift: seq<Entry>) { |drift| == 5 && forall t | t in drift :: IsWideTicket(t) }

  lemma {:induction false} WideCode(r: string)
    requires IsWideRail(r)
    ensures |Code(Field(Some(r), MAX_FIELD))| == 202 && Wides(Code(Field(Some(r), MAX_FIELD))) >= 200
  {
    RailIsShownWhole(r);
    AllWide(r);
    hide Field;
  }

  lemma {:induction false} WideRails(t: Entry)
    requires IsWideTicket(t)
    ensures |RailList(t.rails)| <= 5_100 && Wides(RailList(t.rails)) >= 5_000
  {
    hide Field, Code, Wides, IsWideRail;
    var shown := ShownRails(t.rails);
    forall p | p in shown ensures |p| <= 202 && Wides(p) >= 200 {
      var i :| 0 <= i < |shown| && shown[i] == p;
      assert t.rails[i] in t.rails;
      WideCode(t.rails[i]);
    }
    SizeOfEqual(shown, 2, 202, 200);
    JoinSize(shown, ", ");
  }

  /** A row is its rails and at most 700 characters more. */
  lemma {:induction false} RowSize(t: Entry)
    ensures |Join(RowLines(t), "\n")| <= |RailList(t.rails)| + 700
    ensures Wides(Join(RowLines(t), "\n")) >= Wides(RailList(t.rails))
  {
    hide RailList, Field, Join, Wides;
    var lines := RowLines(t);
    FieldIsSafe(t.id, MAX_FIELD);
    FieldIsSafe(t.reason, MAX_FIELD);
    FieldIsSafe(Some(if t.blocker.Some? then t.blocker.value else "unknown"), MAX_FIELD);
    LineLengths();
    WidesBehind("- **Frozen rails:** ", RailList(t.rails));
    RowShape(lines);
    JoinSize(lines, "\n");
  }

  lemma LineLengths()
    ensures |"### "| == 4 && |"(unknown id)"| == 12 && |"- **Blocker:** "| == 15 && |"- **Frozen rails:** "| == 20
    ensures |"- **Detected because:** "| == 24 && |"(no reason recorded)"| == 20
  {
  }

  lemma WidesBehind(a: string, b: string)
    ensures Wides(a + b) >= Wides(b)
  {
  }

  lemma {:induction false} RowShape(lines: seq<string>)
    requires |lines| == 5 && |lines[0]| <= 204 && |lines[1]| == 0 && |lines[2]| <= 217 && |lines[4]| <= 224
    ensures Size(lines, 1) <= |lines[3]| + 650 && WidesIn(lines) >= Wides(lines[3])
  {
    hide Wides;
    assert lines[4..] == [lines[4]];
    OneSize(lines[4]);
    SizeCons(lines[3], lines[4..]);
    assert lines[3..] == [lines[3]] + lines[4..];
    SizeCons(lines[2], lines[3..]);
    assert lines[2..] == [lines[2]] + lines[3..];
    SizeCons(lines[1], lines[2..]);
    assert lines[1..] == [lines[1]] + lines[2..];
    SizeCons(lines[0], lines[1..]);
    assert lines == [lines[0]] + lines[1..];
  }

  lemma OneSize(p: string)
    ensures Size([p], 1) == |p| + 1
  {
    assert [p][1..] == [];
  }

  lemma SizeCons(p: string, rest: seq<string>)
    ensures Size([p] + rest, 1) == |p| + 1 + Size(rest, 1)
    ensures WidesIn([p] + rest) == Wides(p) + WidesIn(rest)
  {
    assert ([p] + rest)[1..] == rest;
  }

  lemma {:induction false} WideRows(list: seq<Entry>)
    requires forall t | t in list :: IsWideTicket(t)
    ensures |Rows(list)| == |list| && forall r | r in Rows(list) :: |r| <= 5_800 && Wides(r) >= 5_000
  {
    hide RowLines, RailList, Join, IsWideTicket, Wides;
    if list != [] {
      var rest := list[1..];
      assert list == [list[0]] + rest && list[0] in list;
      assert forall t | t in rest :: t in list;
      WideRails(list[0]);
      RowSize(list[0]);
      WideRows(rest);
      assert Rows(list) == [Join(RowLines(list[0]), "\n")] + Rows(rest);
    }
  }

  /** A report on tickets that freeze no rails has just the section of manual decisions. */
  lemma {:induction false} OnlyManual(es: seq<Entry>, ctx: Context)
    requires forall t | t in es :: !FreezesRails(t)
    ensures ActiveOnes(es, ctx) == [] && Confirmed(es, ctx) == []
    ensures UnconfirmedOnes(es, ctx) == [] && RailsFreeze(es) == []
    ensures ManualOnes(es) == es
  {
    hide FreezesRails;
    FilterNone(es, (t: Entry) => FreezesRails(t));
    FilterAll(es, (t: Entry) => !FreezesRails(t));
  }

  lemma {:induction false} FilterAll<T(!new)>(xs: seq<T>, p: T -> bool)
    requires forall x | x in xs :: p(x)
    ensures Filter(xs, p) == xs
  {
    if xs != [] {
      assert xs == [xs[0]] + xs[1..];
      FilterAll(xs[1..], p);
    }
  }

  /** The characters of the fixed prose that such a report shows. */
  function ProseSize(w: Prose): nat {
    Size(w.intro, 1) + |w.manualHeading| + Size(w.manualText, 1) + Size(w.footer, 1)
  }

  lemma {:induction false} WideSection(list: seq<Entry>, heading: string, text: seq<string>)
    requires IsWideDrift(list)
    ensures Size(Section(heading, text, list), 1) <= |heading| + Size(text, 1) + 29_100
    ensures WidesIn(Section(heading, text, list)) >= 25_000
  {
    WideRows(list);
    DecOfFive();
    hide Rows, Dec, Wides, IsWideTicket;
    SizeOfEqual(Rows(list), 1, 5_800, 5_000);
    var head := heading + "(" + Dec(5) + ")";
    SizeConcat([head] + text + Rows(list), [""], 1);
    SizeConcat([head] + text, Rows(list), 1);
    SizeConcat([head], text, 1);
    OneSize(head);
    OneSize("");
  }

  lemma DecOfFive()
    ensures |Dec(5)| == 1
  {
  }

  lemma {:induction false} WideLines(es: seq<Entry>, ctx: Context, w: Prose)
    requires IsWideDrift(es)
    ensures Size(BodyLines(es, ctx, w), 1) <= ProseSize(w) + 30_000
    ensures WidesIn(BodyLines(es, ctx, w)) >= 25_000
  {
    OnlyManual(es, ctx);
    hide Section, BodyLines, IsWideTicket, Wides, Size, WidesIn;
    WideSection(es, w.manualHeading, w.manualText);
    ManualLines(es, ctx, w);
    LinesSize(w, Section(w.manualHeading, w.manualText, es));
  }

  lemma {:induction false} WideBody(es: seq<Entry>, ctx: Context, w: Prose)
    requires IsWideDrift(es)
    ensures |RawBody(es, ctx, w)| <= ProseSize(w) + 30_000
    ensures Wides(RawBody(es, ctx, w)) >= 25_000
  {
    hide RawBody, BodyLines, IsWideDrift, ProseSize, Wides, Size, WidesIn;
    WideLines(es, ctx, w);
    RawSize(es, ctx, w);
  }

  lemma {:induction false} RawSize(es: seq<Entry>, ctx: Context, w: Prose)
    ensures |RawBody(es, ctx, w)| <= Size(BodyLines(es, ctx, w), 1)
    ensures Wides(RawBody(es, ctx, w)) >= WidesIn(BodyLines(es, ctx, w))
  {
    hide BodyLines, Wides;
    JoinSize(BodyLines(es, ctx, w), "\n");
  }

  lemma {:induction false} LinesSize(w: Prose, manual: seq<string>)
    ensures var lines := [MARKER, ""] + w.intro + manual + ["---", ""] + w.footer;
      && Size(lines, 1) <= 100 + Size(w.intro, 1) + Size(manual, 1) + Size(w.footer, 1)
      && WidesIn(lines) >= WidesIn(manual)
  {
    hide Wides;
    var top, end := [MARKER, ""], ["---", ""];
    SizeConcat(top + w.intro + manual + end, w.footer, 1);
    SizeConcat(top + w.intro + manual, end, 1);
    SizeConcat(top + w.intro, manual, 1);
    SizeConcat(top, w.intro, 1);
    PairSize(MARKER);
    PairSize("---");
    assert |MARKER| <= 40;
  }

  lemma PairSize(a: string)
    ensures Size([a, ""], 1) == |a| + 2
  {
    assert [a, ""][1..] == [""] && [""][1..] == [];
  }

  lemma {:induction false} ManualLines(es: seq<Entry>, ctx: Context, w: Prose)
    requires forall t | t in es :: !FreezesRails(t)
    ensures BodyLines(es, ctx, w)
         == [MARKER, ""] + w.intro + Section(w.manualHeading, w.manualText, es) + ["---", ""] + w.footer
  {
    OnlyManual(es, ctx);
    hide ManualOnes, ActiveOnes, Confirmed, UnconfirmedOnes, RailsFreeze, Rows, Dec;
    var manual := Section(w.manualHeading, w.manualText, es);
    assert Sections(es, ctx, w) == [] + [] + [] + manual == manual;
    assert Procedure(es, ctx, w) == [];
    Assoc([MARKER, ""] + w.intro + manual, [], []);
  }

  /**
   Five tickets with wide rails: the body is within the bound on characters, so nothing is cut,
   and takes more bytes than the limit. For any prose of at most 30000 characters.
   */
  lemma {:induction false} BodyExceedsBytes(drift: seq<Entry>, ctx: Context, w: Prose, le: (string, string) -> bool)
    requires IsWideDrift(drift) && ProseSize(w) <= 30_000
    ensures var body := RenderIssueBody(drift, ctx, w, le);
      |body| <= MAX_BODY && Bytes(body) > BODY_BYTES
  {
    hide RawBody, Sort, Bytes, IsWideTicket, Wides;
    var es := Sort(drift, SortKey, le);
    assert |multiset(es)| == |es| && |multiset(drift)| == |drift|;
    SameMembers(es, drift);
    WideBody(es, ctx, w);
    BytesAtLeast(RawBody(es, ctx, w));
    WidesAtMost(RawBody(es, ctx, w));
  }

  lemma {:induction false} WidesAtMost(s: string)
    ensures Wides(s) <= |s|
  {
    if s != "" {
      assert s == [s[0]] + s[1..];
      WidesAtMost(s[1..]);
    }
  }

  lemma {:induction false} WideTicketExists(id: string) returns (t: Entry)
    ensures IsWideTicket(t) && t.id == Some(id)
  {
    var rail := Repeat(WIDE, 200);
    var rails := Repeat(rail, 25);
    t := Entry(Some(id), Some("explicit status: \"done\""), rails, Some("preexisting-completed-field"), None);
    hide Repeat;
    assert IsWideRail(rail);
    ManualBlocker();
  }

  lemma ManualBlocker()
    ensures "preexisting-completed-field" != "rails-freeze"
  {
    assert |"preexisting-completed-field"| == 27 && |"rails-freeze"| == 12;
  }

  /** There is such a drift set, with five ids. */
  lemma {:induction false} WideDriftExists() returns (drift: seq<Entry>)
    ensures IsWideDrift(drift) && forall i, j | 0 <= i < j < 5 :: drift[i].id != drift[j].id
  {
    hide IsWideTicket;
    var a := WideTicketExists("T1");
    var b := WideTicketExists("T2");
    var c := WideTicketExists("T3");
    var d := WideTicketExists("T4");
    var e := WideTicketExists("T5");
    drift := [a, b, c, d, e];
  }

  // ----- no larger budget is enough for every report

  /** A ticket without rails or characters beyond ASCII. */
  lemma {:induction false} PlainTicketExists() returns (t: Entry)
    ensures IsCeremonyEntry(t) && !FreezesRails(t) && t.rails == [] && TicketWeight(t) == 0
  {
    var reason, blocker := "explicit status: \"done\"", "preexisting-completed-field";
    t := Entry(Some("T1"), Some(reason), [], Some(blocker), None);
    ManualBlocker();
    hide NonAscii;
    AllAscii("T1");
    AllAscii(reason);
    AllAscii(blocker);
  }

  /** What stands below the intro in a report on one such ticket, with no other prose. */
  function Below(t: Entry): string {
    "\n" + Join(Section("## ", [], [t]) + ["---", ""], "\n")
  }

  lemma {:induction false} BelowIsShort(t: Entry)
    requires t.rails == []
    ensures |Below(t)| <= 800
  {
    hide RowLines, Join;
    RowSize(t);
    OneDigit();
    assert [t][1..] == [];
    var row := Join(RowLines(t), "\n");
    var head := "## " + "(" + Dec(1) + ")";
    hide Dec;
    assert Rows([t]) == [row];
    assert Section("## ", [], [t]) == [head] + [row] + [""];
    OneSize(head);
    OneSize(row);
    OneSize("");
    PairSize("---");
    SizeConcat([head] + [row] + [""], ["---", ""], 1);
    SizeConcat([head] + [row], [""], 1);
    SizeConcat([head], [row], 1);
    JoinSize([head] + [row] + [""] + ["---", ""], "\n");
  }

  lemma OneDigit()
    ensures |Dec(1)| == 1
  {
  }

  lemma {:induction false} JoinBehind(a: string, rest: seq<string>, sep: string)
    requires rest != []
    ensures Join([a] + rest, sep) == a + sep + Join(rest, sep)
  {
    assert ([a] + rest)[1..] == rest;
  }

  lemma {:induction false} IntroBody(t: Entry, ctx: Context, w: Prose, line: string)
    requires !FreezesRails(t) && w == BLANK.(intro := [line])
    ensures RawBody([t], ctx, w) == MARKER + "\n" + ("" + "\n" + (line + Below(t)))
  {
    ManualLines([t], ctx, w);
    var rest := Section("## ", [], [t]) + ["---", ""];
    BlankLines(ctx, w, [t], line);
    hide BodyLines, Section, Join;
    JoinBehind(MARKER, [""] + ([line] + rest), "\n");
    JoinBehind("", [line] + rest, "\n");
    JoinBehind(line, rest, "\n");
    Assoc(line, "\n", Join(rest, "\n"));
  }

  lemma {:induction false} BlankLines(ctx: Context, w: Prose, es: seq<Entry>, line: string)
    requires w == BLANK.(intro := [line])
    requires BodyLines(es, ctx, w)
          == [MARKER, ""] + w.intro + Section(w.manualHeading, w.manualText, es) + ["---", ""] + w.footer
    ensures BodyLines(es, ctx, w) == [MARKER] + ([""] + ([line] + (Section("## ", [], es) + ["---", ""])))
  {
    hide BodyLines, Section;
    var m := Section("## ", [], es);
    assert [MARKER, ""] + [line] + m + ["---", ""] + [] == [MARKER] + ([""] + ([line] + (m + ["---", ""])));
  }

  /** A prose of one line, and nothing else beyond ASCII. */
  lemma {:induction false} OneLineProse(line: string) returns (w: Prose)
    requires FreeOf(line, {'\n'}) && !IsCommandLine(line)
    ensures w == BLANK.(intro := [line]) && ProseWeight(w) == NonAscii(line)
  {
    w := BLANK.(intro := [line]);
    PartAlone(line);
    hide NonAscii;
    AllAscii("## ");
    AllAscii(">");
    AllAscii("");
  }

  lemma {:induction false} BytesOfBody(head: string, line: string, below: string)
    ensures Bytes(head + (line + below)) >= |head| + Bytes(line) + |below|
  {
    SizesConcat(head, line + below);
    SizesConcat(line, below);
    BytesAtMost(head);
    BytesAtMost(below);
  }

  const TOP: string := MARKER + "\n" + ("" + "\n")

  lemma TopIsShort()
    ensures |TOP| <= 40
  {
  }

  /** `length` characters, 1846 of them of four bytes each. */
  lemma {:induction false} FullLine(length: nat) returns (line: string)
    requires length >= 1846
    ensures |line| == length && NonAscii(line) == 1846 && Bytes(line) == length + 3 * 1846
    ensures FreeOf(line, {'\n'}) && !IsCommandLine(line)
  {
    assert CharBytes('\U{1F600}') == 4 && !IsAscii('\U{1F600}');
    line := FilledUp('\U{1F600}', 1846, length - 1846);
  }

  lemma {:induction false} WholeReport(t: Entry, ctx: Context, w: Prose, line: string, le: (string, string) -> bool)
    requires !FreezesRails(t) && w == BLANK.(intro := [line]) && |TOP| + |line| + |Below(t)| <= MAX_BODY
    ensures RenderIssueBody([t], ctx, w, le) == TOP + (line + Below(t))
  {
    hide FreezesRails, Below, RawBody, Sort;
    IntroBody(t, ctx, w, line);
    SortOne(t, le);
    assert MARKER + "\n" + ("" + "\n" + (line + Below(t))) == TOP + (line + Below(t));
  }

  /** 1846 characters of four bytes in a report of exactly the greatest length. */
  lemma {:induction false} FullReport(ctx: Context, le: (string, string) -> bool) returns (t: Entry, w: Prose)
    ensures IsCeremonyEntry(t) && ReportWeight([t], ctx, w) == 1846
    ensures Bytes(RenderIssueBody([t], ctx, w, le)) > BODY_BYTES
  {
    t := PlainTicketExists();
    hide IsCeremonyEntry, TicketWeight, FreezesRails, IsCommandLine, Bytes, NonAscii;
    BelowIsShort(t);
    TopIsShort();
    OnlyManual([t], ctx);
    WeightOfOne(t);
    hide Below, RenderIssueBody, ProseWeight, Weight, TOP, Confirmed;
    var line := FullLine(MAX_BODY - |TOP| - |Below(t)|);
    w := OneLineProse(line);
    WholeReport(t, ctx, w, line, le);
    BytesOfBody(TOP, line, Below(t));
  }

  lemma {:induction false} WeightOfOne(t: Entry)
    ensures Weight([t]) == TicketWeight(t)
  {
    assert [t][1..] == [];
  }

  lemma {:induction false} SortOne(t: Entry, le: (string, string) -> bool)
    ensures Sort([t], SortKey, le) == [t]
  {
    assert [t][1..] == [];
  }

  /**
   Every report on tickets that ticket-prune hands over is within the limit in bytes if the
   characters beyond ASCII in its prose and tickets are at most `n`: exactly for `n` up to 1845.
   */
  lemma {:induction false} ReportBudgetIff(n: nat, ctx: Context, le: (string, string) -> bool)
    ensures (forall drift, w: Prose | AreCeremonyEntries(drift) && ReportWeight(drift, ctx, w) <= n ::
              Bytes(RenderIssueBody(drift, ctx, w, le)) <= BODY_BYTES)
       <==> n <= 1845
  {
    hide RenderIssueBody, ReportWeight, IsCeremonyEntry;
    forall drift, w: Prose | ReportWeight(drift, ctx, w) <= 1845
      ensures Bytes(RenderIssueBody(drift, ctx, w, le)) <= BODY_BYTES
    {
      FewWideCharactersFit(drift, ctx, w, le);
    }
    if n > 1845 {
      var t, w := FullReport(ctx, le);
      assert AreCeremonyEntries([t]) && Bytes(RenderIssueBody([t], ctx, w, le)) > BODY_BYTES;
    }
  }
}
