/** The order of releases and the texts they are read from, character by character. */
module ReleaseLaws {
  import opened Text
  import opened ReleaseRange

  function Numbers(v: Triple): seq<nat> { [v.major, v.minor, v.patch] }

  /** At the first number in which they differ, `a` has the smaller one. */
  predicate Precedes(a: Triple, b: Triple) {
    exists k :: 0 <= k < 3 && Numbers(a)[..k] == Numbers(b)[..k] && Numbers(a)[k] < Numbers(b)[k]
  }

  lemma {:induction false} FirstDifference(a: Triple, b: Triple)
    ensures Precedes(a, b) <==>
      a.major < b.major
      || (a.major == b.major && (a.minor < b.minor || (a.minor == b.minor && a.patch < b.patch)))
  {
    var x, y := Numbers(a), Numbers(b);
    assert x[..0] == y[..0];
    assert x[..1] == [a.major] && y[..1] == [b.major];
    assert x[..2] == [a.major, a.minor] && y[..2] == [b.major, b.minor];
    assert a.major < b.major ==> x[0] < y[0];
    assert a.major == b.major && a.minor < b.minor ==> x[..1] == y[..1] && x[1] < y[1];
    assert a.major == b.major && a.minor == b.minor && a.patch < b.patch ==> x[..2] == y[..2] && x[2] < y[2];
    if k :| 0 <= k < 3 && x[..k] == y[..k] && x[k] < y[k] {
      if k == 1 {
        assert x[..1][0] == y[..1][0];
      } else if k == 2 {
        assert x[..2][0] == y[..2][0] && x[..2][1] == y[..2][1];
      }
    }
  }

  lemma {:induction false} OrderIs(a: Triple, b: Triple)
    ensures AtMost(a, b) <==> !Precedes(b, a)
  {
    FirstDifference(b, a);
  }

  // ----- tags

  predicate Digits(s: string) { s != "" && forall c | c in s :: '0' <= c <= '9' }

  /** `t` is a release tag with these numbers: a v, and three runs of digits with dots between them. */
  ghost predicate IsTag(t: string, v: Triple) {
    exists a, b, c :: t == "v" + (a + "." + (b + "." + c)) && AreNumbers(a, b, c, v)
  }

  predicate AreNumbers(a: string, b: string, c: string, v: Triple) {
    Digits(a) && Digits(b) && Digits(c) && AllDigits(a) && AllDigits(b) && AllDigits(c)
    && v == Triple(ParseDec(a), ParseDec(b), ParseDec(c))
  }

  lemma {:induction false} JoinThreeParts(a: string, b: string, c: string)
    ensures Join([a, b, c], ".") == a + "." + (b + "." + c)
  {
    JoinThree(a, b, c);
    assert a + "." + (b + "." + c) == a + "." + b + "." + c;
  }

  lemma {:induction false} LongerFirst(d: char, parts: seq<string>, sep: string)
    requires parts != []
    ensures Join([[d] + parts[0]] + parts[1..], sep) == [d] + Join(parts, sep)
  {
    var longer := [[d] + parts[0]] + parts[1..];
    assert longer[1..] == parts[1..] && longer[0] == [d] + parts[0] && |longer| == |parts|;
    if |parts| == 1 {
      assert Join(longer, sep) == longer[0] && Join(parts, sep) == parts[0];
    } else {
      var rest := Join(parts[1..], sep);
      assert Join(longer, sep) == [d] + parts[0] + sep + rest && Join(parts, sep) == parts[0] + sep + rest;
      assert [d] + parts[0] + sep + rest == [d] + (parts[0] + sep + rest);
    }
  }

  lemma {:induction false} EmptyFirst(parts: seq<string>, sep: string)
    requires parts != []
    ensures Join([""] + parts, sep) == sep + Join(parts, sep)
  {
    assert ([""] + parts)[1..] == parts;
    assert "" + sep == sep;
  }

  /** Joining undoes splitting. */
  lemma {:induction false} JoinSplit(s: string, c: char)
    ensures Join(Split(s, {c}), [c]) == s
  {
    if s != "" {
      var rest, parts := Split(s[1..], {c}), Split(s, {c});
      JoinSplit(s[1..], c);
      hide Join;
      assert s == [s[0]] + s[1..];
      if s[0] == c {
        assert parts == [""] + rest;
        EmptyFirst(rest, [c]);
      } else {
        assert parts == [[s[0]] + rest[0]] + rest[1..];
        LongerFirst(s[0], rest, [c]);
      }
    } else {
      assert Split(s, {c}) == [""];
    }
  }

  lemma {:induction false} DigitsAre(s: string)
    ensures Digits(s) <==> s != "" && AllDigits(s)
  {
  }

  /** Which texts are release tags, and what they say. */
  lemma {:induction false} TagIff(t: string, v: Triple)
    ensures ParseTag(t) == Some(v) <==> IsTag(t, v)
  {
    if ParseTag(t) == Some(v) {
      assert t[0..1] == "v" && t == "v" + t[1..];
      VersionParts(t[1..], v);
    }
    if IsTag(t, v) {
      var a, b, c :| t == "v" + (a + "." + (b + "." + c)) && AreNumbers(a, b, c, v);
      assert t[0..1] == "v" && t[1..] == a + "." + (b + "." + c);
      PartsParse(a, b, c, v);
    }
  }

  lemma {:induction false} VersionParts(s: string, v: Triple)
    requires ParseVersion(s) == Some(v)
    ensures exists a, b, c :: s == a + "." + (b + "." + c) && AreNumbers(a, b, c, v)
  {
    var parts := Split(s, {'.'});
    hide Split, ParseDec;
    JoinSplit(s, '.');
    var a, b, c := parts[0], parts[1], parts[2];
    assert a in parts && b in parts && c in parts;
    assert parts == [a, b, c];
    JoinThreeParts(a, b, c);
    DigitsAre(a);
    DigitsAre(b);
    DigitsAre(c);
  }

  lemma {:induction false} PartsParse(a: string, b: string, c: string, v: Triple)
    requires AreNumbers(a, b, c, v)
    ensures ParseVersion(a + "." + (b + "." + c)) == Some(v)
  {
    hide ParseDec;
    DigitsHaveNoDot(a);
    DigitsHaveNoDot(b);
    DigitsHaveNoDot(c);
    JoinThreeParts(a, b, c);
    SplitJoinAtoms([a, b, c], '.');
  }

  // ----- the previous tag

  /** `t` is a release tag, and its numbers precede those of the version to be released. */
  ghost predicate IsEarlier(t: string, target: Triple) { exists v :: IsTag(t, v) && Precedes(v, target) }

  lemma {:induction false} EarlierIff(t: string, target: Triple)
    ensures IsBelow(t, target) <==> IsEarlier(t, target)
  {
    hide ParseTag, IsTag, Precedes, AtMost;
    forall v ensures ParseTag(t) == Some(v) <==> IsTag(t, v) {
      TagIff(t, v);
    }
    forall v ensures AtMost(target, v) <==> !Precedes(v, target) {
      OrderIs(target, v);
    }
  }

  /** None exactly if no tag is earlier; else an earlier one that precedes no earlier one. */
  lemma {:induction false} PreviousTagIs(target: Triple, tags: seq<string>)
    ensures match PreviousTag(target, tags)
      case None => forall t | t in tags :: !IsEarlier(t, target)
      case Some(p) =>
        && p in tags && IsEarlier(p, target)
        && forall t, v, w | t in tags && IsEarlier(t, target) && IsTag(t, v) && IsTag(p, w) :: !Precedes(w, v)
  {
    PreviousTagIsGreatest(target, tags);
    forall t ensures IsBelow(t, target) <==> IsEarlier(t, target) {
      EarlierIff(t, target);
    }
    hide PreviousTag, IsBelow, IsEarlier, IsTag, Precedes, AtMost, ParseTag;
    if PreviousTag(target, tags).Some? {
      var p := PreviousTag(target, tags).value;
      forall t, v, w | t in tags && IsEarlier(t, target) && IsTag(t, v) && IsTag(p, w) ensures !Precedes(w, v) {
        TagIff(t, v);
        TagIff(p, w);
        KeyIs(t, v);
        KeyIs(p, w);
        OrderIs(v, w);
      }
    }
  }

  lemma KeyIs(t: string, v: Triple)
    requires ParseTag(t) == Some(v)
    ensures TagKey(t) == v
  {
  }

  // ----- the log

  /** A printed record, its separators written out. */
  lemma {:induction false} RecordIsRead(subject: string, body: string)
    requires FreeOf(subject, {'\U{1E}', '\U{1F}'}) && FreeOf(body, {'\U{1E}', '\U{1F}'})
    ensures ParseLog(subject + ("\U{1F}" + body + "\U{1E}" + "" + "")) == [Commit(Trim(subject), Trim(body))]
  {
    var c := Commit(subject, body);
    assert [c][1..] == [];
    assert LogText([]) == "";
    assert LogText([c]) == subject + ("\U{1F}" + body + "\U{1E}" + "" + "");
    assert Trimmed([c]) == [Commit(Trim(subject), Trim(body))];
    assert Separable(c);
    hide ParseLog, LogText, Trim, Separable;
    ParseLogUndoesFormat([c]);
  }
}
