/** The size of the issue body in bytes, where the clamp counts characters: when it is sure to fit. */
module DriftBytes {
  import opened Text
  import opened Lists
  import opened MdField
  import opened DriftReport
  import opened DriftLaws

  /** The limit that the clamp is there for, in bytes of UTF-8. */
  const BODY_BYTES := 65_536

  function CharBytes(c: char): nat {
    if c as int < 0x80 then 1 else if c as int < 0x800 then 2 else if c as int < 0x1_0000 then 3 else 4
  }

  function Bytes(s: string): nat {
    if s == "" then 0 else CharBytes(s[0]) + Bytes(s[1..])
  }

  /** The length in UTF-16 units. */
  function Units(s: string): nat {
    if s == "" then 0 else (if s[0] as int < 0x1_0000 then 1 else 2) + Units(s[1..])
  }

  predicate IsAscii(c: char) { c as int < 0x80 }

  function NonAscii(s: string): nat {
    if s == "" then 0 else (if IsAscii(s[0]) then 0 else 1) + NonAscii(s[1..])
  }

  lemma {:induction false} BytesAtMost(s: string)
    ensures |s| <= Bytes(s) <= |s| + 3 * NonAscii(s)
    ensures Bytes(s) <= Units(s) + 2 * NonAscii(s)
  {
    if s != "" {
      BytesAtMost(s[1..]);
    }
  }

  // ----- how many characters beyond ASCII any text of this length may have

  function Repeat<T>(x: T, n: nat): (r: seq<T>)
    ensures |r| == n && forall y | y in r :: y == x
  {
    if n == 0 then [] else [x] + Repeat(x, n - 1)
  }

  lemma {:induction false} RepeatedSizes(c: char, n: nat)
    ensures Bytes(Repeat(c, n)) == CharBytes(c) * n
    ensures NonAscii(Repeat(c, n)) == if IsAscii(c) then 0 else n
    ensures Units(Repeat(c, n)) == if c as int < 0x1_0000 then n else 2 * n
  {
    if n > 0 {
      assert Repeat(c, n)[1..] == Repeat(c, n - 1);
      RepeatedSizes(c, n - 1);
      assert CharBytes(c) * n == CharBytes(c) + CharBytes(c) * (n - 1);
    }
  }

  lemma {:induction false} SizesConcat(a: string, b: string)
    ensures Bytes(a + b) == Bytes(a) + Bytes(b)
    ensures NonAscii(a + b) == NonAscii(a) + NonAscii(b)
    ensures Units(a + b) == Units(a) + Units(b)
  {
    if a == "" {
      assert a + b == b;
    } else {
      assert (a + b)[1..] == a[1..] + b;
      SizesConcat(a[1..], b);
    }
  }

  /** `m` times the character `c`, filled up with ASCII. */
  lemma {:induction false} FilledUp(c: char, m: nat, rest: nat) returns (body: string)
    requires !IsAscii(c)
    ensures |body| == m + rest && NonAscii(body) == m && Bytes(body) == CharBytes(c) * m + rest
    ensures (forall x | x in body :: x == c || x == 'a') && (m > 0 ==> body[0] == c)
    ensures Units(body) == (if c as int < 0x1_0000 then m else 2 * m) + rest
  {
    body := Repeat(c, m) + Repeat('a', rest);
    RepeatedSizes(c, m);
    RepeatedSizes('a', rest);
    SizesConcat(Repeat(c, m), Repeat('a', rest));
    assert CharBytes('a') == 1 && IsAscii('a');
  }

  /** Up to 1845 characters beyond ASCII are always within the limit, and no more than that are. */
  lemma {:induction false} CharacterBudgetIff(n: nat)
    ensures (forall body | |body| <= MAX_BODY && NonAscii(body) <= n :: Bytes(body) <= BODY_BYTES) <==> n <= 1845
  {
    forall body | |body| <= MAX_BODY && NonAscii(body) <= 1845 ensures Bytes(body) <= BODY_BYTES {
      BytesAtMost(body);
    }
    if n > 1845 {
      assert CharBytes('\U{1F600}') == 4 && !IsAscii('\U{1F600}');
      var body := FilledUp('\U{1F600}', 1846, MAX_BODY - 1846);
      assert Bytes(body) > BODY_BYTES;
    }
  }

  /** The same with lengths in UTF-16 units, as the language of the script counts them: up to 2768. */
  lemma {:induction false} UnitBudgetIff(n: nat)
    ensures (forall body | Units(body) <= MAX_BODY && NonAscii(body) <= n :: Bytes(body) <= BODY_BYTES) <==> n <= 2768
  {
    forall body | Units(body) <= MAX_BODY && NonAscii(body) <= 2768 ensures Bytes(body) <= BODY_BYTES {
      BytesAtMost(body);
    }
    if n > 2768 {
      assert CharBytes('\U{754C}') == 3 && !IsAscii('\U{754C}');
      var body := FilledUp('\U{754C}', 2769, MAX_BODY - 2769);
      assert Bytes(body) > BODY_BYTES;
    }
  }

  // ----- the characters beyond ASCII of what a report is made from

  function Of(value: Option<string>): nat { if value.Some? then NonAscii(value.value) else 0 }

  function NonAsciiIn(parts: seq<string>): nat {
    if parts == [] then 0 else NonAscii(parts[0]) + NonAsciiIn(parts[1..])
  }

  /**
   A ticket's share: its fields, the id twice because an unsafe one is shown twice, and the ellipsis
   for rails that are not shown.
   */
  function TicketWeight(t: Entry): nat {
    2 * Of(t.id) + Of(t.reason) + Of(t.blocker) + NonAsciiIn(t.rails) + (if |t.rails| > MAX_RAILS_SHOWN then 1 else 0)
  }

  function Weight(drift: seq<Entry>): nat {
    if drift == [] then 0 else TicketWeight(drift[0]) + Weight(drift[1..])
  }

  /** All the fixed prose. */
  function ProseWeight(w: Prose): nat {
    NonAsciiIn(w.intro) + NonAscii(w.activeHeading) + NonAsciiIn(w.activeText)
    + NonAscii(w.confirmedHeading) + NonAsciiIn(w.confirmedText)
    + NonAscii(w.unconfirmedHeading) + NonAsciiIn(w.unconfirmedText) + NonAsciiIn(w.unknownNote)
    + NonAsciiIn(w.unconfirmedAdvice) + NonAscii(w.manualHeading) + NonAsciiIn(w.manualText)
    + NonAsciiIn(w.procedure) + NonAsciiIn(w.completeText) + NonAscii(w.inferredRest) + NonAsciiIn(w.inferredAdvice)
    + NonAscii(w.unsafeRest) + NonAsciiIn(w.unsafeAdvice) + NonAsciiIn(w.footer)
    + NonAscii(w.noticeHead) + NonAscii(w.noticeTail)
  }

  /** The sign in front of the unsafe ids, if there are any. */
  function SignWeight(drift: seq<Entry>, ctx: Context): nat { if UnsafeOnes(drift, ctx) == [] then 0 else 1 }

  /** All characters beyond ASCII that a report may show. */
  function ReportWeight(drift: seq<Entry>, ctx: Context, w: Prose): nat {
    ProseWeight(w) + Weight(drift) + SignWeight(drift, ctx)
  }

  lemma {:induction false} AllAscii(s: string)
    requires forall c | c in s :: IsAscii(c)
    ensures NonAscii(s) == 0
  {
    if s != "" {
      assert s == [s[0]] + s[1..] && s[0] in s;
      assert forall c | c in s[1..] :: c in s;
      AllAscii(s[1..]);
    }
  }

  lemma {:induction false} PrefixHasNoMore(s: string, k: nat)
    requires k <= |s|
    ensures NonAscii(s[..k]) <= NonAscii(s)
  {
    assert s == s[..k] + s[k..];
    SizesConcat(s[..k], s[k..]);
  }

  lemma {:induction false} StripKeeps(s: string, t: string)
    requires |t| == |s| && forall i | 0 <= i < |s| :: IsAscii(t[i]) <==> IsAscii(s[i])
    ensures NonAscii(t) == NonAscii(s)
  {
    if s != "" {
      StripKeeps(s[1..], t[1..]);
    }
  }

  lemma MetaIsAscii(c: char)
    ensures IsMeta(c) ==> IsAscii(c)
    ensures IsControl(c) ==> IsAscii(c)
    ensures IsAscii('\\') && IsAscii(' ')
  {
  }

  lemma {:induction false} EscapeKeeps(s: string)
    ensures NonAscii(Escape(s)) == NonAscii(s)
  {
    hide IsMeta, IsAscii;
    if s != "" {
      EscapeKeeps(s[1..]);
      MetaIsAscii(s[0]);
      var head := if IsMeta(s[0]) then ['\\', s[0]] else [s[0]];
      assert Escape(s) == head + Escape(s[1..]);
      SizesConcat(head, Escape(s[1..]));
      assert head[1..] == if IsMeta(s[0]) then [s[0]] else [];
      assert [s[0]][1..] == [];
    }
  }

  /** Stripping, escaping and cutting a field adds no character beyond ASCII. */
  lemma {:induction false} FieldHasNoMore(value: Option<string>, max: nat)
    ensures NonAscii(Field(value, max)) <= Of(value)
  {
    var s := if value.Some? then value.value else "";
    hide IsControl, IsAscii;
    forall i | 0 <= i < |s| ensures IsAscii(Strip(s)[i]) <==> IsAscii(s[i]) {
      MetaIsAscii(s[i]);
    }
    StripKeeps(s, Strip(s));
    EscapeKeeps(Strip(s));
    var e := Escape(Strip(s));
    if |e| > max {
      PrefixHasNoMore(e, max);
    }
  }

  lemma {:induction false} PartsConcat(a: seq<string>, b: seq<string>)
    ensures NonAsciiIn(a + b) == NonAsciiIn(a) + NonAsciiIn(b)
  {
    if a == [] {
      assert a + b == b;
    } else {
      assert (a + b)[1..] == a[1..] + b;
      PartsConcat(a[1..], b);
    }
  }

  lemma {:induction false} JoinHasThose(parts: seq<string>, sep: string)
    requires NonAscii(sep) == 0
    ensures NonAscii(Join(parts, sep)) == NonAsciiIn(parts)
  {
    if |parts| == 1 {
      assert parts[1..] == [];
    } else if |parts| > 1 {
      var rest := Join(parts[1..], sep);
      JoinHasThose(parts[1..], sep);
      SizesConcat(parts[0] + sep, rest);
      SizesConcat(parts[0], sep);
    }
  }

  lemma Separators()
    ensures NonAscii("\n") == 0 && NonAscii(", ") == 0 && NonAscii("`") == 0
  {
    AllAscii("\n");
    AllAscii(", ");
    AllAscii("`");
  }

  lemma {:induction false} CodeHasNoMore(value: Option<string>)
    ensures NonAscii(Code(Field(value, MAX_FIELD))) <= Of(value)
  {
    hide Field;
    var f := Field(value, MAX_FIELD);
    FieldHasNoMore(value, MAX_FIELD);
    Separators();
    SizesConcat("`" + f, "`");
    SizesConcat("`", f);
  }

  lemma {:induction false} DecIsAscii(n: nat)
    ensures NonAscii(Dec(n)) == 0
  {
    hide Dec;
    assert forall c | c in Dec(n) :: IsDigit(c);
    AllAscii(Dec(n));
  }

  lemma {:induction false} ShownHaveNoMore(rails: seq<string>)
    ensures NonAsciiIn(ShownRails(rails)) <= NonAsciiIn(rails)
  {
    hide Field, Code;
    if rails != [] {
      assert ShownRails(rails)[1..] == ShownRails(rails[1..]);
      CodeHasNoMore(Some(rails[0]));
      ShownHaveNoMore(rails[1..]);
    }
  }

  lemma {:induction false} RailListHasNoMore(rails: seq<string>)
    ensures NonAscii(RailList(rails)) <= NonAsciiIn(rails) + (if |rails| > MAX_RAILS_SHOWN then 1 else 0)
  {
    hide ShownRails, Dec, NonAscii, IsAscii;
    Separators();
    if rails == [] {
      RailLiterals();
    } else if |rails| <= MAX_RAILS_SHOWN {
      ShownHaveNoMore(rails);
      JoinHasThose(ShownRails(rails), ", ");
    } else {
      var shown := rails[..MAX_RAILS_SHOWN];
      var n := |rails| - MAX_RAILS_SHOWN;
      ShownHaveNoMore(shown);
      JoinHasThose(ShownRails(shown), ", ");
      assert rails == shown + rails[MAX_RAILS_SHOWN..];
      PartsConcat(shown, rails[MAX_RAILS_SHOWN..]);
      WithMore(Join(ShownRails(shown), ", "), n);
    }
  }

  lemma {:induction false} WithMore(list: string, n: nat)
    ensures NonAscii(list + ", _\U{2026}and " + Dec(n) + " more_") == NonAscii(list) + 1
  {
    hide Dec, NonAscii;
    RailLiterals();
    DecIsAscii(n);
    SizesConcat(list + ", _\U{2026}and " + Dec(n), " more_");
    SizesConcat(list + ", _\U{2026}and ", Dec(n));
    SizesConcat(list, ", _\U{2026}and ");
  }

  lemma RailLiterals()
    ensures NonAscii("_(none)_") == 0 && NonAscii(" more_") == 0 && NonAscii(", _\U{2026}and ") == 1
  {
    EllipsisIsOne();
    hide NonAscii;
    AllAscii("_(none)_");
    AllAscii(" more_");
  }

  lemma EllipsisIsOne()
    ensures NonAscii(", _\U{2026}and ") == 1
  {
    assert NonAscii("\U{2026}") == 1 by { assert "\U{2026}"[1..] == ""; }
    hide NonAscii;
    assert ", _\U{2026}and " == ", _" + "\U{2026}" + "and ";
    SizesConcat(", _" + "\U{2026}", "and ");
    SizesConcat(", _", "\U{2026}");
    AllAscii(", _");
    AllAscii("and ");
  }

  lemma {:induction false} LabelledHasNoMore(name: string, value: string)
    requires forall c | c in name :: IsAscii(c)
    ensures NonAscii(name + value) == NonAscii(value)
  {
    AllAscii(name);
    SizesConcat(name, value);
  }

  lemma RowLabels()
    ensures forall c | c in "### " :: IsAscii(c)
    ensures forall c | c in "- **Blocker:** " :: IsAscii(c)
    ensures forall c | c in "- **Frozen rails:** " :: IsAscii(c)
    ensures forall c | c in "- **Detected because:** " :: IsAscii(c)
  {
  }

  lemma RowFallbacks()
    ensures NonAscii("(unknown id)") == 0 && NonAscii("(no reason recorded)") == 0 && NonAscii("unknown") == 0
  {
    hide NonAscii;
    AllAscii("(unknown id)");
    AllAscii("(no reason recorded)");
    AllAscii("unknown");
  }

  /** The row of a ticket has no more than the ticket's share, its id counted once. */
  lemma {:induction false} RowHasNoMore(t: Entry)
    ensures NonAscii(Join(RowLines(t), "\n")) + Of(t.id) <= TicketWeight(t)
  {
    hide Field, RailList, Code, NonAscii, IsAscii;
    var lines, blocker := RowLines(t), Some(if t.blocker.Some? then t.blocker.value else "unknown");
    RowLabels();
    RowFallbacks();
    FieldHasNoMore(t.id, MAX_FIELD);
    FieldHasNoMore(t.reason, MAX_FIELD);
    CodeHasNoMore(blocker);
    RailListHasNoMore(t.rails);
    LabelledHasNoMore("### ", if t.id.Some? then Field(t.id, MAX_FIELD) else "(unknown id)");
    LabelledHasNoMore("- **Blocker:** ", Code(Field(blocker, MAX_FIELD)));
    LabelledHasNoMore("- **Frozen rails:** ", RailList(t.rails));
    LabelledHasNoMore("- **Detected because:** ",
      if t.reason.Some? then Field(t.reason, MAX_FIELD) else "(no reason recorded)");
    NothingIsAscii();
    hide RowLines;
    FiveParts(lines);
    Separators();
    JoinHasThose(lines, "\n");
  }

  lemma NothingIsAscii()
    ensures NonAscii("") == 0
  {
  }

  lemma {:induction false} FiveParts(lines: seq<string>)
    requires |lines| == 5
    ensures NonAsciiIn(lines) == NonAscii(lines[0]) + NonAscii(lines[1]) + NonAscii(lines[2]) + NonAscii(lines[3])
      + NonAscii(lines[4])
  {
    hide NonAscii;
    assert lines == [lines[0]] + [lines[1]] + [lines[2]] + [lines[3]] + [lines[4]];
    PartsConcat([lines[0]] + [lines[1]] + [lines[2]] + [lines[3]], [lines[4]]);
    PartsConcat([lines[0]] + [lines[1]] + [lines[2]], [lines[3]]);
    PartsConcat([lines[0]] + [lines[1]], [lines[2]]);
    PartsConcat([lines[0]], [lines[1]]);
    PartAlone(lines[0]);
    PartAlone(lines[1]);
    PartAlone(lines[2]);
    PartAlone(lines[3]);
    PartAlone(lines[4]);
  }

  lemma PartAlone(p: string)
    ensures NonAsciiIn([p]) == NonAscii(p)
  {
    assert [p][1..] == [];
  }

  // ----- sections, procedure and notice

  lemma {:induction false} WeightConcat(a: seq<Entry>, b: seq<Entry>)
    ensures Weight(a + b) == Weight(a) + Weight(b)
  {
    hide TicketWeight;
    if a == [] {
      assert a + b == b;
    } else {
      assert (a + b)[1..] == a[1..] + b;
      WeightConcat(a[1..], b);
    }
  }

  /** The weight of a drift set does not depend on its order. */
  lemma {:induction false} WeightPermuted(a: seq<Entry>, b: seq<Entry>)
    requires multiset(a) == multiset(b)
    ensures Weight(a) == Weight(b)
  {
    if a == [] {
      assert |multiset(b)| == |b|;
    } else {
      hide Weight;
      var x, rest := a[0], a[1..];
      assert a == [x] + rest && x in multiset(a);
      var i :| 0 <= i < |b| && b[i] == x;
      var p, r := b[..i], b[i + 1..];
      assert b == p + [x] + r;
      WithoutOne(x, rest, p, r);
      WeightPermuted(rest, p + r);
      WeightConcat([x], rest);
      WeightConcat(p, r);
      WeightConcat(p + [x], r);
      WeightConcat(p, [x]);
    }
  }

  /** The weight of the ids alone. */
  function IdWeight(list: seq<Entry>): nat {
    if list == [] then 0 else Of(list[0].id) + IdWeight(list[1..])
  }

  lemma {:induction false} RowsHaveNoMore(list: seq<Entry>)
    ensures NonAsciiIn(Rows(list)) + IdWeight(list) <= Weight(list)
  {
    hide RowLines, Join, NonAscii, TicketWeight;
    if list != [] {
      RowHasNoMore(list[0]);
      RowsHaveNoMore(list[1..]);
      assert Rows(list) == [Join(RowLines(list[0]), "\n")] + Rows(list[1..]);
      PartAlone(Join(RowLines(list[0]), "\n"));
      PartsConcat([Join(RowLines(list[0]), "\n")], Rows(list[1..]));
    }
  }

  lemma {:induction false} SectionHasNoMore(heading: string, text: seq<string>, list: seq<Entry>)
    ensures NonAsciiIn(Section(heading, text, list)) + IdWeight(list)
         <= NonAscii(heading) + NonAsciiIn(text) + Weight(list)
  {
    hide Rows, Dec, NonAscii, IsAscii;
    RowsHaveNoMore(list);
    if list != [] {
      hide Weight, IdWeight;
      var head := heading + "(" + Dec(|list|) + ")";
      DecIsAscii(|list|);
      Brackets();
      SizesConcat(heading + "(" + Dec(|list|), ")");
      SizesConcat(heading + "(", Dec(|list|));
      SizesConcat(heading, "(");
      PartsConcat([head] + text + Rows(list), [""]);
      PartsConcat([head] + text, Rows(list));
      PartsConcat([head], text);
      PartAlone(head);
      PartAlone("");
      NothingIsAscii();
    }
  }

  lemma Brackets()
    ensures NonAscii("(") == 0 && NonAscii(")") == 0
  {
    hide NonAscii;
    AllAscii("(");
    AllAscii(")");
  }

  lemma {:induction false} PartitionedWeight(es: seq<Entry>, ctx: Context)
    ensures Weight(ActiveOnes(es, ctx)) + Weight(Confirmed(es, ctx)) + Weight(UnconfirmedOnes(es, ctx))
          + Weight(ManualOnes(es)) == Weight(es)
    ensures IdWeight(UnsafeOnes(es, ctx)) <= IdWeight(Confirmed(es, ctx))
  {
    SectionsPartition(es, ctx);
    FilteredIds(Confirmed(es, ctx), (t: Entry) => !IsRenderableId(t.id));
    hide ActiveOnes, Confirmed, UnconfirmedOnes, ManualOnes, Weight;
    var a, c, u, m := ActiveOnes(es, ctx), Confirmed(es, ctx), UnconfirmedOnes(es, ctx), ManualOnes(es);
    WeightPermuted(a + c + u + m, es);
    WeightConcat(a + c + u, m);
    WeightConcat(a + c, u);
    WeightConcat(a, c);
  }

  lemma {:induction false} FilteredIds(list: seq<Entry>, p: Entry -> bool)
    ensures IdWeight(Filter(list, p)) <= IdWeight(list)
  {
    if list != [] {
      FilteredIds(list[1..], p);
    }
  }

  lemma {:induction false} SectionsHaveNoMore(es: seq<Entry>, ctx: Context, w: Prose)
    ensures NonAsciiIn(Sections(es, ctx, w)) + IdWeight(UnsafeOnes(es, ctx))
         <= NonAscii(w.activeHeading) + NonAsciiIn(w.activeText) + NonAscii(w.confirmedHeading)
          + NonAsciiIn(w.confirmedText) + NonAscii(w.unconfirmedHeading) + NonAsciiIn(w.unconfirmedText)
          + NonAsciiIn(w.unknownNote) + NonAsciiIn(w.unconfirmedAdvice) + NonAscii(w.manualHeading)
          + NonAsciiIn(w.manualText) + Weight(es)
  {
    hide Section, ActiveOnes, Confirmed, UnconfirmedOnes, ManualOnes, UnsafeOnes, NonAscii, Weight, IdWeight;
    var note := if ctx.activeUnknown then w.unknownNote else [];
    var text := w.unconfirmedText + note + w.unconfirmedAdvice;
    var a := Section(w.activeHeading, w.activeText, ActiveOnes(es, ctx));
    var c := Section(w.confirmedHeading, w.confirmedText, Confirmed(es, ctx));
    var u := Section(w.unconfirmedHeading, text, UnconfirmedOnes(es, ctx));
    var m := Section(w.manualHeading, w.manualText, ManualOnes(es));
    SectionHasNoMore(w.activeHeading, w.activeText, ActiveOnes(es, ctx));
    SectionHasNoMore(w.confirmedHeading, w.confirmedText, Confirmed(es, ctx));
    SectionHasNoMore(w.unconfirmedHeading, text, UnconfirmedOnes(es, ctx));
    SectionHasNoMore(w.manualHeading, w.manualText, ManualOnes(es));
    PartitionedWeight(es, ctx);
    PartsConcat(w.unconfirmedText + note, w.unconfirmedAdvice);
    PartsConcat(w.unconfirmedText, note);
    PartsConcat(a + c + u, m);
    PartsConcat(a + c, u);
    PartsConcat(a, c);
  }

  lemma {:induction false} CommandIsAscii(t: Entry)
    requires IsRenderableId(t.id)
    ensures NonAscii(CompleteCommand(t)) == 0
  {
    var hash := if IsRenderableHash(t.ticketHash) then " --expect " + t.ticketHash.value else "";
    IdIsAscii(t);
    HashIsAscii(t);
    CommandLiterals();
    hide NonAscii, IsRenderableId, IsRenderableHash;
    SizesConcat(COMPLETE + t.id.value + hash, " --write --authorize --json");
    SizesConcat(COMPLETE + t.id.value, hash);
    SizesConcat(COMPLETE, t.id.value);
  }

  lemma {:induction false} IdIsAscii(t: Entry)
    requires IsRenderableId(t.id)
    ensures NonAscii(t.id.value) == 0
  {
    hide NonAscii;
    assert forall c | c in t.id.value :: IsIdChar(c);
    AllAscii(t.id.value);
  }

  lemma {:induction false} HashIsAscii(t: Entry)
    ensures NonAscii(if IsRenderableHash(t.ticketHash) then " --expect " + t.ticketHash.value else "") == 0
  {
    NothingIsAscii();
    hide NonAscii;
    if IsRenderableHash(t.ticketHash) {
      AllAscii(" --expect ");
      AllAscii(t.ticketHash.value);
      SizesConcat(" --expect ", t.ticketHash.value);
    }
  }

  lemma CommandLiterals()
    ensures NonAscii(COMPLETE) == 0 && NonAscii(" --write --authorize --json") == 0
  {
    hide NonAscii;
    AllAscii(COMPLETE);
    AllAscii(" --write --authorize");
    AllAscii(" --json");
    assert " --write --authorize --json" == " --write --authorize" + " --json";
    SizesConcat(" --write --authorize", " --json");
  }

  lemma {:induction false} CommandsAreAscii(list: seq<Entry>)
    requires forall t | t in list :: IsRenderableId(t.id)
    ensures NonAsciiIn(Commands(list)) == 0
  {
    hide CompleteCommand, NonAscii, IsRenderableId;
    if list != [] {
      assert list[0] in list;
      assert forall t | t in list[1..] :: t in list;
      CommandIsAscii(list[0]);
      CommandsAreAscii(list[1..]);
      assert Commands(list)[1..] == Commands(list[1..]);
    }
  }

  lemma {:induction false} RefIsAscii(baseRef: string)
    ensures NonAscii(CommandRef(baseRef)) == 0
  {
    hide CommandRef, NonAscii;
    var r := CommandRef(baseRef);
    assert forall c | c in r :: IsRefChar(c);
    AllAscii(r);
  }

  lemma {:induction false} ReviewIsAscii(baseRef: string)
    ensures NonAscii(ReviewCommand(baseRef)) == 0
  {
    RefIsAscii(baseRef);
    ReviewLiterals();
    hide NonAscii, CommandRef;
    SizesConcat(REVIEW + CommandRef(baseRef), INFER_SCOPE + DRY_RUN);
    SizesConcat(REVIEW, CommandRef(baseRef));
    SizesConcat(INFER_SCOPE, DRY_RUN);
  }

  lemma ReviewLiterals()
    ensures NonAscii(REVIEW) == 0 && NonAscii(INFER_SCOPE) == 0 && NonAscii(DRY_RUN) == 0
  {
    hide NonAscii;
    AllAscii(REVIEW);
    AllAscii(INFER_SCOPE);
    AllAscii(DRY_RUN);
  }

  lemma FenceLiterals()
    ensures NonAsciiIn(["```", ""]) == 0 && NonAsciiIn(["---", ""]) == 0 && NonAsciiIn([MARKER, ""]) == 0
  {
    NothingIsAscii();
    assert NonAscii("```") == 0 && NonAscii("---") == 0 && NonAscii(MARKER) == 0 by {
      hide NonAscii;
      AllAscii("```");
      AllAscii("---");
      AllAscii(MARKER);
    }
    hide NonAscii;
    assert ["```", ""][1..] == [""] && ["---", ""][1..] == [""] && [MARKER, ""][1..] == [""] && [""][1..] == [];
  }

  lemma {:induction false} CompleteHasNoMore(es: seq<Entry>, ctx: Context, w: Prose)
    ensures NonAsciiIn(CompleteBlock(es, ctx, w)) <= NonAsciiIn(w.completeText)
  {
    hide CompletableOnes, Commands, NonAscii;
    var list := CompletableOnes(es, ctx);
    CommandsAreAscii(list);
    FenceLiterals();
    PartsConcat(w.completeText + Commands(list), ["```", ""]);
    PartsConcat(w.completeText, Commands(list));
  }

  lemma InferredLiterals()
    ensures NonAscii("The") == 0 && NonAscii("No ready command is offered: the") == 0 && NonAscii(" ") == 0
  {
    hide NonAscii;
    AllAscii("The");
    AllAscii("No ready command is offered: the");
    AllAscii(" ");
  }

  lemma {:induction false} InferredHasNoMore(es: seq<Entry>, ctx: Context, w: Prose)
    ensures NonAsciiIn(InferredBlock(es, ctx, w)) <= NonAscii(w.inferredRest) + NonAsciiIn(w.inferredAdvice)
  {
    InferredLiterals();
    hide CompletableOnes, UnconfirmedOnes, Dec, NonAscii;
    var n := Dec(|UnconfirmedOnes(es, ctx)|);
    var head := if CompletableOnes(es, ctx) != [] then "The" else "No ready command is offered: the";
    DecIsAscii(|UnconfirmedOnes(es, ctx)|);
    var line := head + " " + n + w.inferredRest;
    SizesConcat(head + " " + n, w.inferredRest);
    SizesConcat(head + " ", n);
    SizesConcat(head, " ");
    PartAlone(line);
    PartsConcat([line], w.inferredAdvice);
  }

  lemma {:induction false} UnsafeIdsHaveNoMore(list: seq<Entry>)
    ensures NonAsciiIn(UnsafeIds(list)) <= IdWeight(list)
  {
    hide Field, Code, NonAscii;
    if list != [] {
      assert UnsafeIds(list)[1..] == UnsafeIds(list[1..]);
      CodeHasNoMore(list[0].id);
      UnsafeIdsHaveNoMore(list[1..]);
    }
  }

  lemma UnsafeLiterals()
    ensures NonAscii("\U{26A0} ") == 1 && NonAscii("renaming: ") == 0 && NonAscii(".") == 0
  {
    assert NonAscii("\U{26A0} ") == 1 by {
      assert "\U{26A0} "[1..] == " " && " "[1..] == "";
    }
    hide NonAscii;
    AllAscii("renaming: ");
    AllAscii(".");
  }

  lemma {:induction false} UnsafeHasNoMore(es: seq<Entry>, ctx: Context, w: Prose)
    ensures NonAsciiIn(UnsafeBlock(es, ctx, w))
         <= NonAscii(w.unsafeRest) + NonAsciiIn(w.unsafeAdvice) + IdWeight(UnsafeOnes(es, ctx)) + SignWeight(es, ctx)
  {
    UnsafeLiterals();
    Separators();
    NothingIsAscii();
    hide UnsafeOnes, Dec, NonAscii, UnsafeIds, IdWeight;
    var list := UnsafeOnes(es, ctx);
    if list == [] {
    } else {
      var ids := Join(UnsafeIds(list), ", ");
      UnsafeIdsHaveNoMore(list);
      JoinHasThose(UnsafeIds(list), ", ");
      DecIsAscii(|list|);
      var line, renaming := "\U{26A0} " + Dec(|list|) + w.unsafeRest, "renaming: " + ids + ".";
      SizesConcat("\U{26A0} " + Dec(|list|), w.unsafeRest);
      SizesConcat("\U{26A0} ", Dec(|list|));
      SizesConcat("renaming: " + ids, ".");
      SizesConcat("renaming: ", ids);
      TwoParts(renaming, "");
      PartAlone(line);
      PartsConcat([line] + w.unsafeAdvice, [renaming, ""]);
      PartsConcat([line], w.unsafeAdvice);
    }
  }

  lemma TwoParts(a: string, b: string)
    ensures NonAsciiIn([a, b]) == NonAscii(a) + NonAscii(b)
  {
    assert [a, b] == [a] + [b];
    PartsConcat([a], [b]);
    PartAlone(a);
    PartAlone(b);
  }

  lemma {:induction false} ProcedureHasNoMore(es: seq<Entry>, ctx: Context, w: Prose)
    ensures NonAsciiIn(Procedure(es, ctx, w))
         <= NonAsciiIn(w.procedure) + NonAsciiIn(w.completeText) + NonAscii(w.inferredRest)
          + NonAsciiIn(w.inferredAdvice) + NonAscii(w.unsafeRest) + NonAsciiIn(w.unsafeAdvice)
          + IdWeight(UnsafeOnes(es, ctx)) + SignWeight(es, ctx)
  {
    hide RailsFreeze, CompleteBlock, InferredBlock, UnsafeBlock, UnsafeOnes, SignWeight;
    hide NonAscii, IdWeight, ReviewCommand;
    var c, i, u := CompleteBlock(es, ctx, w), InferredBlock(es, ctx, w), UnsafeBlock(es, ctx, w);
    var review, fence := ReviewCommand(ctx.baseRef), ["```", ""];
    var top := w.procedure + [review, "```", ""];
    CompleteHasNoMore(es, ctx, w);
    InferredHasNoMore(es, ctx, w);
    UnsafeHasNoMore(es, ctx, w);
    ReviewIsAscii(ctx.baseRef);
    FenceLiterals();
    assert [review, "```", ""] == [review] + fence;
    PartAlone(review);
    PartsConcat([review], fence);
    PartsConcat(w.procedure, [review, "```", ""]);
    PartsConcat(top + c + i, u);
    PartsConcat(top + c, i);
    PartsConcat(top, c);
  }

  lemma {:induction false} LinesHaveNoMore(es: seq<Entry>, ctx: Context, w: Prose)
    ensures NonAsciiIn(BodyLines(es, ctx, w)) + NonAscii(w.noticeHead) + NonAscii(w.noticeTail)
         <= ReportWeight(es, ctx, w)
  {
    hide Sections, Procedure, UnsafeOnes, SignWeight, NonAscii, Weight, IdWeight;
    SectionsHaveNoMore(es, ctx, w);
    ProcedureHasNoMore(es, ctx, w);
    FenceLiterals();
    var top, s, p, end := [MARKER, ""], Sections(es, ctx, w), Procedure(es, ctx, w), ["---", ""];
    PartsConcat(top + w.intro + s + p + end, w.footer);
    PartsConcat(top + w.intro + s + p, end);
    PartsConcat(top + w.intro + s, p);
    PartsConcat(top + w.intro, s);
    PartsConcat(top, w.intro);
  }

  lemma {:induction false} NoticeHasNoMore(baseRef: string, w: Prose)
    ensures NonAscii(Notice(baseRef, w)) == NonAscii(w.noticeHead) + NonAscii(w.noticeTail)
  {
    hide CommandRef;
    var l, r := NoticeLine(baseRef, w), CommandRef(baseRef);
    RefIsAscii(baseRef);
    Separators();
    NothingIsAscii();
    FenceLine();
    hide NonAscii;
    SizesConcat(w.noticeHead + r, w.noticeTail);
    SizesConcat(w.noticeHead, r);
    SizesConcat("" + "\n", l);
    SizesConcat("", "\n");
    SizesConcat("---" + "\n", "" + "\n" + l);
    SizesConcat("---", "\n");
    SizesConcat("" + "\n", "---" + "\n" + ("" + "\n" + l));
    SizesConcat("\n", "" + "\n" + ("---" + "\n" + ("" + "\n" + l)));
  }

  lemma FenceLine()
    ensures NonAscii("---") == 0
  {
    hide NonAscii;
    AllAscii("---");
  }

  lemma {:induction false} ClampHasNoMore(body: string, baseRef: string, w: Prose)
    ensures NonAscii(ClampBody(body, baseRef, w)) <= NonAscii(body) + NonAscii(w.noticeHead) + NonAscii(w.noticeTail)
  {
    hide Notice, NonAscii, LastNewline;
    if |body| > MAX_BODY {
      var notice := Notice(baseRef, w);
      var budget := MAX_BODY - |notice|;
      var cut := LastNewline(body, budget);
      var k := if cut > 0 then cut else budget;
      PrefixHasNoMore(body, k);
      NoticeHasNoMore(baseRef, w);
      SizesConcat(body[..k], notice);
    }
  }

  /** A report has no more characters beyond ASCII than its prose and its drift set. */
  lemma {:induction false} ReportHasNoMore(drift: seq<Entry>, ctx: Context, w: Prose, le: (string, string) -> bool)
    ensures NonAscii(RenderIssueBody(drift, ctx, w, le)) <= ReportWeight(drift, ctx, w)
  {
    hide BodyLines, ClampBody, NonAscii, Weight, Sort, ProseWeight, SignWeight;
    var es := Sort(drift, SortKey, le);
    WeightPermuted(es, drift);
    SignPermuted(es, drift, ctx);
    LinesHaveNoMore(es, ctx, w);
    Separators();
    JoinHasThose(BodyLines(es, ctx, w), "\n");
    ClampHasNoMore(RawBody(es, ctx, w), ctx.baseRef, w);
  }

  lemma {:induction false} SignPermuted(a: seq<Entry>, b: seq<Entry>, ctx: Context)
    requires multiset(a) == multiset(b)
    ensures SignWeight(a, ctx) == SignWeight(b, ctx)
  {
    SameMembers(a, b);
    var us, vs := UnsafeOnes(a, ctx), UnsafeOnes(b, ctx);
    assert forall t :: t in us <==> t in vs;
    hide UnsafeOnes;
    assert us != [] ==> us[0] in vs;
    assert vs != [] ==> vs[0] in us;
  }

  /**
   A drift set with few characters beyond ASCII, counted with those of the prose, gives a body
   that is within the limit in bytes too, whatever the order of its tickets.
   */
  lemma {:induction false} FewWideCharactersFit(drift: seq<Entry>, ctx: Context, w: Prose, le: (string, string) -> bool)
    requires ReportWeight(drift, ctx, w) <= 1845
    ensures Bytes(RenderIssueBody(drift, ctx, w, le)) <= BODY_BYTES
  {
    hide RenderIssueBody, ReportWeight;
    ReportHasNoMore(drift, ctx, w, le);
    BytesAtMost(RenderIssueBody(drift, ctx, w, le));
    BodyFitsAndIsFound(drift, ctx, w, le);
  }
}
