/** Which commits a release covers: the tag before it, and the log since that tag. */
module ReleaseRange {
  import opened Text
  import opened Lists

  // ----- tags

  datatype Triple = Triple(major: nat, minor: nat, patch: nat)

  predicate AtMost(a: Triple, b: Triple) {
    a.major < b.major
    || (a.major == b.major && (a.minor < b.minor || (a.minor == b.minor && a.patch <= b.patch)))
  }

  /** The numbers of d.d.d, or None for any other text. */
  function ParseVersion(s: string): Option<Triple> {
    var parts := Split(s, {'.'});
    if |parts| == 3 && forall p | p in parts :: p != "" && AllDigits(p)
    then
      assert parts[0] in parts && parts[1] in parts && parts[2] in parts;
      Some(Triple(ParseDec(parts[0]), ParseDec(parts[1]), ParseDec(parts[2])))
    else None
  }

  function ParseTag(t: string): Option<Triple> {
    if StartsWith(t, "v") then ParseVersion(t[1..]) else None
  }

  function TagKey(t: string): Triple {
    if ParseTag(t).Some? then ParseTag(t).value else Triple(0, 0, 0)
  }

  /** `t` is a release tag strictly below `target`. */
  predicate IsBelow(t: string, target: Triple) {
    ParseTag(t).Some? && !AtMost(target, ParseTag(t).value)
  }

  /** The release tags below `target`, as listed. */
  function Below(target: Triple, tags: seq<string>): seq<string> {
    Filter(tags, (t: string) => IsBelow(t, target))
  }

  function PreviousTag(target: Triple, tags: seq<string>): Option<string> {
    var sorted := Sort(Below(target, tags), TagKey, AtMost);
    if sorted == [] then None else Some(sorted[|sorted| - 1])
  }

  lemma TriplesAreOrdered()
    ensures TotalOrder(AtMost)
  {
  }

  /**
   The previous tag is a greatest release tag below the version, and None exactly when there is
   no such tag.
   */
  lemma PreviousTagIsGreatest(target: Triple, tags: seq<string>)
    ensures match PreviousTag(target, tags)
      case None => forall t | t in tags :: !IsBelow(t, target)
      case Some(p) =>
        p in tags && IsBelow(p, target) && forall t | t in tags && IsBelow(t, target) :: AtMost(TagKey(t), TagKey(p))
  {
    hide IsBelow, TagKey, AtMost;
    var below := Below(target, tags);
    var sorted := Sort(below, TagKey, AtMost);
    TriplesAreOrdered();
    SortSorts(below, TagKey, AtMost);
    SameMembers(sorted, below);
    assert forall t | t in tags && IsBelow(t, target) :: t in below;
    if sorted != [] {
      var p := sorted[|sorted| - 1];
      assert p in sorted;
      forall t | t in tags && IsBelow(t, target) ensures AtMost(TagKey(t), TagKey(p)) {
        assert t in sorted;
        var i :| 0 <= i < |sorted| && sorted[i] == t;
        OrderIsReflexive(TagKey(p));
      }
    }
  }

  lemma OrderIsReflexive(k: Triple)
    ensures AtMost(k, k)
  {
  }

  /** Of several tags with the same numbers, the one listed last is taken. */
  lemma {:induction false} PreviousTagIsLastListed(target: Triple, tags: seq<string>)
    requires PreviousTag(target, tags).Some?
    ensures var p := PreviousTag(target, tags).value;
      var same := WithKey(Below(target, tags), TagKey, TagKey(p));
      same != [] && same[|same| - 1] == p
  {
    hide Below, TagKey, AtMost, WithKey;
    var below := Below(target, tags);
    var sorted := Sort(below, TagKey, AtMost);
    var p := sorted[|sorted| - 1];
    TriplesAreOrdered();
    SortStable(below, TagKey, AtMost, TagKey(p));
    LastWithItsKey(sorted, TagKey);
  }

  lemma LastWithItsKey<T(!new), K>(xs: seq<T>, key: T -> K)
    requires xs != []
    ensures var x := xs[|xs| - 1];
      var same := WithKey(xs, key, key(x));
      same != [] && same[|same| - 1] == x
  {
    var init, x := xs[..|xs| - 1], xs[|xs| - 1];
    assert xs == init + [x];
    WithKeyConcat(init, [x], key, key(x));
  }

  function VersionText(v: Triple): string { Dec(v.major) + "." + Dec(v.minor) + "." + Dec(v.patch) }

  /** Version numbers are read back from the text they are written as. */
  lemma ParseVersionText(v: Triple)
    ensures ParseVersion(VersionText(v)) == Some(v)
  {
    var a, b, c := Dec(v.major), Dec(v.minor), Dec(v.patch);
    hide Dec;
    DigitsHaveNoDot(a);
    DigitsHaveNoDot(b);
    DigitsHaveNoDot(c);
    JoinThree(a, b, c);
    SplitJoinAtoms([a, b, c], '.');
    ParseDecDec(v.major);
    ParseDecDec(v.minor);
    ParseDecDec(v.patch);
  }

  lemma JoinThree(a: string, b: string, c: string)
    ensures Join([a, b, c], ".") == a + "." + b + "." + c
  {
    assert [a, b, c][1..] == [b, c] && [b, c][1..] == [c];
    assert Join([b, c], ".") == b + "." + c;
    assert a + "." + (b + "." + c) == a + "." + b + "." + c;
  }

  lemma DigitsHaveNoDot(s: string)
    requires AllDigits(s)
    ensures FreeOf(s, {'.'})
  {
  }

  // ----- the log

  const FIELD: char := '\U{1F}'
  const RECORD: char := '\U{1E}'

  datatype Commit = Commit(subject: string, body: string)

  function DropNewlines(s: string): (r: string)
    ensures |r| <= |s| && r == s[|s| - |r|..] && forall i | 0 <= i < |s| - |r| :: s[i] == '\n'
  {
    if s != "" && s[0] == '\n' then DropNewlines(s[1..]) else s
  }

  function ParseRecord(record: string): Commit {
    var parts := Split(record, {FIELD});
    Commit(Trim(parts[0]), if |parts| > 1 then Trim(parts[1]) else "")
  }

  function ParseRecords(pieces: seq<string>): seq<Commit> {
    if pieces == [] then []
    else
      var record := DropNewlines(pieces[0]);
      if Trim(record) == "" then ParseRecords(pieces[1..]) else [ParseRecord(record)] + ParseRecords(pieces[1..])
  }

  function ParseLog(raw: string): seq<Commit> {
    ParseRecords(Split(raw, {RECORD}))
  }

  function RecordText(c: Commit): string { c.subject + [FIELD] + c.body }

  /** What `git log --pretty=format:%s%x1f%b%x1e` prints: records with a newline between them. */
  function LogText(cs: seq<Commit>): string
    decreases cs, 1
  {
    if cs == [] then "" else cs[0].subject + AfterSubject(cs[0].body, cs[1..])
  }

  function AfterSubject(body: string, rest: seq<Commit>): string
    decreases rest, 2
  {
    [FIELD] + body + [RECORD] + (if rest != [] then "\n" else "") + LogText(rest)
  }

  function Trimmed(cs: seq<Commit>): seq<Commit> {
    if cs == [] then [] else [Commit(Trim(cs[0].subject), Trim(cs[0].body))] + Trimmed(cs[1..])
  }

  predicate Separable(c: Commit) { FreeOf(c.subject, {FIELD, RECORD}) && FreeOf(c.body, {FIELD, RECORD}) }

  lemma {:induction false} TrimStartAgain(a: string, s: string)
    requires forall c | c in a :: IsSpace(c)
    ensures TrimStart(a + s) == TrimStart(s)
  {
    hide IsSpace;
    if a == "" {
      assert a + s == s;
    } else {
      assert (a + s)[1..] == a[1..] + s && a[0] in a;
      TrimStartAgain(a[1..], s);
    }
  }

  /** Leading newlines do not survive trimming anyway. */
  lemma DroppedNewlinesTrimAlike(s: string)
    ensures Trim(DropNewlines(s)) == Trim(s)
  {
    var r := DropNewlines(s);
    var a := s[..|s| - |r|];
    assert s == a + r;
    assert forall c | c in a :: c == '\n';
    TrimStartAgain(a, r);
  }

  lemma NotBlank(s: string, i: nat)
    requires i < |s| && !IsSpace(s[i])
    ensures Trim(s) != ""
  {
    var t := TrimStart(s);
    assert |s| - |t| <= i;
    assert t[i - (|s| - |t|)] == s[i];
  }

  lemma {:induction false} DropKeepsRest(a: string, t: string)
    requires t != "" && t[0] != '\n'
    ensures DropNewlines(a + t) == DropNewlines(a) + t
    decreases |a|
  {
    if a == "" {
      assert a + t == t;
    } else {
      assert (a + t)[1..] == a[1..] + t;
      DropKeepsRest(a[1..], t);
    }
  }

  lemma TwoFields(subject: string, body: string)
    requires FreeOf(subject, {FIELD}) && FreeOf(body, {FIELD})
    ensures var record := subject + [FIELD] + body;
      Trim(record) != "" && ParseRecord(record) == Commit(Trim(subject), Trim(body))
  {
    hide Trim, IsSpace;
    var record := subject + [FIELD] + body;
    SplitConcat(subject, FIELD, body, {FIELD});
    SplitAtom(subject, {FIELD});
    SplitAtom(body, {FIELD});
    assert record[|subject|] == FIELD;
    FieldIsNoSpace();
    NotBlank(record, |subject|);
  }

  lemma {:induction false} DropKeepsFree(s: string, seps: set<char>)
    requires FreeOf(s, seps)
    ensures FreeOf(DropNewlines(s), seps)
  {
    if s != "" && s[0] == '\n' {
      assert forall c | c in s[1..] :: c in s;
      DropKeepsFree(s[1..], seps);
    }
  }

  lemma HeadIsFree(newline: string, subject: string)
    requires FreeOf(subject, {FIELD, RECORD}) && (newline == "" || newline == "\n")
    ensures FreeOf(DropNewlines(newline + subject), {FIELD})
  {
    hide DropNewlines;
    FreeConcat(newline, subject, {FIELD});
    DropKeepsFree(newline + subject, {FIELD});
  }

  /** A printed record, with a newline before it or not, is read back trimmed. */
  lemma RecordReadsBack(newline: string, c: Commit)
    requires Separable(c) && (newline == "" || newline == "\n")
    ensures var record := DropNewlines(newline + RecordText(c));
      Trim(record) != "" && ParseRecord(record) == Commit(Trim(c.subject), Trim(c.body))
  {
    hide Trim, IsSpace, ParseRecord, DropNewlines;
    var head := newline + c.subject;
    assert newline + RecordText(c) == head + ([FIELD] + c.body);
    DropKeepsRest(head, [FIELD] + c.body);
    assert DropNewlines(head) + ([FIELD] + c.body) == DropNewlines(head) + [FIELD] + c.body;
    HeadIsFree(newline, c.subject);
    TwoFields(DropNewlines(head), c.body);
    DroppedNewlinesTrimAlike(head);
    NewlineTrims(newline, c.subject);
  }

  lemma FieldIsNoSpace()
    ensures !IsSpace(FIELD) && !IsSpace(RECORD) && IsSpace('\n')
  {
  }

  lemma NewlineTrims(newline: string, s: string)
    requires newline == "" || newline == "\n"
    ensures Trim(newline + s) == Trim(s)
  {
    FieldIsNoSpace();
    hide IsSpace, TrimEnd;
    TrimStartAgain(newline, s);
  }

  lemma {:induction false} PiecesReadBack(newline: string, cs: seq<Commit>)
    requires forall c | c in cs :: Separable(c)
    requires newline == "" || newline == "\n"
    ensures cs != [] ==> ParseLog(newline + LogText(cs)) == Trimmed(cs)
    ensures ParseLog("") == []
    decreases cs
  {
    hide Trim, ParseRecord, RecordText;
    BlankLog();
    if cs != [] {
      var c, rest := cs[0], cs[1..];
      assert c in cs && Separable(c);
      var sep := if |cs| > 1 then "\n" else "";
      var piece := newline + RecordText(c);
      LogTextParts(newline, cs);
      RecordReadsBack(newline, c);
      PieceIsWhole(newline, c);
      SplitConcat(piece, RECORD, sep + LogText(rest), {RECORD});
      FirstRecord(piece, Split(sep + LogText(rest), {RECORD}));
      if rest == [] {
        assert sep + LogText(rest) == "";
      } else {
        PiecesReadBack(sep, rest);
      }
    }
  }

  lemma LogTextParts(newline: string, cs: seq<Commit>)
    requires cs != []
    ensures newline + LogText(cs)
         == newline + RecordText(cs[0]) + [RECORD] + ((if |cs| > 1 then "\n" else "") + LogText(cs[1..]))
  {
    var sep := if cs[1..] != [] then "\n" else "";
    Regroup(newline, cs[0].subject, [FIELD], cs[0].body, [RECORD], sep, LogText(cs[1..]));
  }

  lemma Regroup(n: string, s: string, f: string, b: string, r: string, sep: string, l: string)
    ensures n + (s + (f + b + r + sep + l)) == n + (s + f + b) + r + (sep + l)
  {
    Assoc(n + s, f + b + r + sep, l);
    Assoc(n, s, f + b + r + sep + l);
    Assoc(n, s, f + b);
    Assoc(s, f, b);
    Assoc(n + s, f + b, r);
    Assoc(n + s, f + b + r, sep);
    Assoc(n + s + (f + b + r), sep, l);
  }

  lemma BlankLog()
    ensures ParseLog("") == []
  {
    assert [""][1..] == [];
  }

  lemma PieceIsWhole(newline: string, c: Commit)
    requires Separable(c) && (newline == "" || newline == "\n")
    ensures Split(newline + RecordText(c), {RECORD}) == [newline + RecordText(c)]
  {
    SplitAtom(newline + RecordText(c), {RECORD});
  }

  lemma FirstRecord(piece: string, more: seq<string>)
    requires Trim(DropNewlines(piece)) != ""
    ensures ParseRecords([piece] + more) == [ParseRecord(DropNewlines(piece))] + ParseRecords(more)
  {
    hide Trim, ParseRecord, DropNewlines;
    assert ([piece] + more)[1..] == more;
  }

  // ----- the whole output is trimmed before it is parsed

  lemma {:induction false} TrimToCore(a: string, s: string)
    requires forall c | c in a :: IsSpace(c)
    requires s != "" && !IsSpace(s[0]) && !IsSpace(s[|s| - 1])
    ensures Trim(a + s) == s
  {
    hide IsSpace;
    TrimStartAgain(a, s);
    assert TrimStart(s) == s && TrimEnd(s) == s;
    hide TrimStart, TrimEnd;
  }

  /** Trimming printed records only takes white space from the first subject. */
  lemma TrimOfLog(cs: seq<Commit>)
    requires cs != []
    ensures Trim(LogText(cs)) == LogText([Commit(TrimStart(cs[0].subject), cs[0].body)] + cs[1..])
  {
    hide IsSpace, Trim, LogText;
    var c, rest := cs[0], cs[1..];
    var core := TrimStart(c.subject);
    var a := c.subject[..|c.subject| - |core|];
    var cs' := [Commit(core, c.body)] + rest;
    assert c.subject == a + core && forall d | d in a :: IsSpace(d);
    FirstSubject(cs, a, core);
    FieldIsNoSpace();
    EndsWithRecord(cs');
    TrimToCore(a, LogText(cs'));
  }

  lemma FirstSubject(cs: seq<Commit>, a: string, core: string)
    requires cs != [] && cs[0].subject == a + core
    ensures var s := LogText([Commit(core, cs[0].body)] + cs[1..]);
      LogText(cs) == a + s && s != "" && s[0] == if core == "" then FIELD else core[0]
  {
    var cs' := [Commit(core, cs[0].body)] + cs[1..];
    assert cs'[1..] == cs[1..];
    var tail := AfterSubject(cs[0].body, cs[1..]);
    assert tail != "" && tail[0] == FIELD;
    hide AfterSubject;
    assert a + core + tail == a + (core + tail);
  }

  lemma {:induction false} EndsWithRecord(cs: seq<Commit>)
    requires cs != []
    ensures LogText(cs) != "" && LogText(cs)[|LogText(cs)| - 1] == RECORD
  {
    if |cs| > 1 {
      EndsWithRecord(cs[1..]);
    } else {
      assert LogText(cs[1..]) == "";
    }
  }

  /** Parsing undoes the log format for any records without its separators, up to trimming. */
  lemma ParseLogUndoesFormat(cs: seq<Commit>)
    requires forall c | c in cs :: Separable(c)
    ensures ParseLog(LogText(cs)) == Trimmed(cs)
    ensures ParseLog(Trim(LogText(cs))) == Trimmed(cs)
  {
    hide ParseLog, LogText, Trim;
    BlankLog();
    if cs == [] {
      assert LogText([]) == "" && Trim("") == "" by { EmptyLog(); }
    } else {
      PiecesReadBack("", cs);
      TrimmedStartReadsBack(cs);
      assert "" + LogText(cs) == LogText(cs);
    }
  }

  lemma EmptyLog()
    ensures LogText([]) == "" && Trim("") == ""
  {
  }

  lemma TrimmedStartReadsBack(cs: seq<Commit>)
    requires cs != [] && forall c | c in cs :: Separable(c)
    ensures ParseLog(Trim(LogText(cs))) == Trimmed(cs)
  {
    hide ParseLog, LogText, Trim, TrimStart;
    var c := Commit(TrimStart(cs[0].subject), cs[0].body);
    var cs' := [c] + cs[1..];
    TrimOfLog(cs);
    assert cs[0] in cs && Separable(cs[0]);
    assert forall d | d in c.subject :: d in cs[0].subject;
    PiecesReadBack("", cs');
    assert "" + LogText(cs') == LogText(cs');
    TrimStartTwice(cs[0].subject);
    assert cs'[1..] == cs[1..];
  }

  lemma TrimStartTwice(s: string)
    ensures Trim(TrimStart(s)) == Trim(s)
  {
  }
}
