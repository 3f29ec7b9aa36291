/** Strings as the scripts see them: splitting, joining, searching, decimals and white space. */
module Text {
  datatype Option<+T> = None | Some(value: T)

  datatype Result<+T> = Ok(value: T) | Err(reason: string)

  lemma Assoc<T>(a: seq<T>, b: seq<T>, c: seq<T>)
    ensures a + (b + c) == (a + b) + c
    ensures a + [] == a == [] + a
  {
  }

  lemma TakeOfCons<T>(x: T, xs: seq<T>, m: nat)
    requires 0 < m <= |xs| + 1
    ensures ([x] + xs)[..m] == [x] + xs[..m - 1]
  {
  }

  lemma TailOfTake<T>(xs: seq<T>, m: nat)
    requires 0 < m <= |xs|
    ensures xs[..m] != [] && xs[..m][0] == xs[0] && xs[..m][1..] == xs[1..][..m - 1]
  {
  }

  lemma SliceOfSlice<T>(xs: seq<T>, a: nat, b: nat, i: nat, j: nat)
    requires i <= j <= b - a && b <= |xs|
    ensures xs[a..b][i..j] == xs[a + i..a + j]
  {
    var t := xs[a..b];
    assert forall k | i <= k < j :: t[k] == xs[a + k];
  }

  lemma SliceOfDrop<T>(xs: seq<T>, i: nat, j: nat, k: nat)
    requires i <= i + j <= i + k <= |xs|
    ensures xs[i..][j..k] == xs[i + j..i + k]
    ensures xs[i..][j..] == xs[i + j..]
  {
  }

  /** `pat` occurs in `s` at index `i`. */
  predicate HasAt(s: string, pat: string, i: int) {
    0 <= i && i + |pat| <= |s| && s[i..i + |pat|] == pat
  }

  predicate StartsWith(s: string, pat: string) {
    HasAt(s, pat, 0)
  }

  ghost predicate Includes(s: string, pat: string) {
    exists i :: HasAt(s, pat, i)
  }

  /** The least index at or after `from` where `pat` occurs, or -1. */
  function IndexOf(s: string, pat: string, from: nat): (idx: int)
    ensures idx == -1 || from <= idx <= |s| - |pat|
    ensures idx != -1 ==> HasAt(s, pat, idx)
    ensures forall j :: from <= j && (idx == -1 || j < idx) ==> !HasAt(s, pat, j)
    decreases |s| - from
  {
    if from > |s| then -1
    else if HasAt(s, pat, from) then from
    else IndexOf(s, pat, from + 1)
  }

  /** Occurrence, character by character. */
  lemma HasAtChars(s: string, pat: string, i: nat)
    ensures HasAt(s, pat, i) <==> i + |pat| <= |s| && forall k | 0 <= k < |pat| :: s[i + k] == pat[k]
  {
    if i + |pat| <= |s| {
      var t := s[i..i + |pat|];
      assert t == pat <==> forall k | 0 <= k < |pat| :: t[k] == pat[k];
    }
  }

  lemma HasAtDrop(s: string, from: nat, pat: string, i: nat)
    requires from <= |s|
    ensures HasAt(s[from..], pat, i) <==> HasAt(s, pat, from + i)
  {
    if from + i + |pat| <= |s| {
      assert s[from..][i..i + |pat|] == s[from + i..from + i + |pat|];
    }
  }

  lemma {:induction false} IndexOfIs(s: string, pat: string, from: nat, idx: nat)
    requires from <= idx && HasAt(s, pat, idx) && forall j | from <= j < idx :: !HasAt(s, pat, j)
    ensures IndexOf(s, pat, from) == idx
  {
    hide HasAt;
  }

  /** Searching a suffix is searching the whole from further on. */
  lemma IndexOfDrop(s: string, from: nat, pat: string, i: nat)
    requires from <= |s|
    ensures var idx := IndexOf(s, pat, from + i);
      IndexOf(s[from..], pat, i) == if idx == -1 then -1 else idx - from
  {
    forall j: nat ensures HasAt(s[from..], pat, j) <==> HasAt(s, pat, from + j) {
      HasAtDrop(s, from, pat, j);
    }
    var a, b := IndexOf(s[from..], pat, i), IndexOf(s, pat, from + i);
    if a != -1 {
      assert HasAt(s, pat, from + a);
    }
    if b != -1 {
      assert HasAt(s[from..], pat, b - from);
    }
  }

  predicate Contains(s: string, pat: string)
    ensures Contains(s, pat) <==> Includes(s, pat)
  {
    IndexOf(s, pat, 0) != -1
  }

  // ----- splitting and joining

  /** The pieces of `s` between characters of `seps`; at least one piece, possibly empty. */
  function Split(s: string, seps: set<char>): (parts: seq<string>)
    ensures |parts| >= 1
  {
    if s == "" then [""]
    else
      var rest := Split(s[1..], seps);
      if s[0] in seps then [""] + rest else [[s[0]] + rest[0]] + rest[1..]
  }

  function Join(parts: seq<string>, sep: string): string {
    if |parts| == 0 then ""
    else if |parts| == 1 then parts[0]
    else parts[0] + sep + Join(parts[1..], sep)
  }

  predicate FreeOf(s: string, seps: set<char>) {
    forall c | c in s :: c !in seps
  }

  lemma FreeConcat(a: string, b: string, seps: set<char>)
    ensures FreeOf(a + b, seps) <==> FreeOf(a, seps) && FreeOf(b, seps)
  {
    assert forall c :: c in a + b <==> c in a || c in b;
  }

  lemma {:induction false} SplitAtom(s: string, seps: set<char>)
    requires FreeOf(s, seps)
    ensures Split(s, seps) == [s]
  {
    if s != "" {
      assert s == [s[0]] + s[1..] && s[0] in s;
      SplitAtom(s[1..], seps);
    }
  }

  /** A separator in the text separates the pieces of what stands before it from those after. */
  lemma {:induction false} SplitConcat(a: string, c: char, b: string, seps: set<char>)
    requires c in seps
    ensures Split(a + [c] + b, seps) == Split(a, seps) + Split(b, seps)
  {
    var s := a + [c] + b;
    if a == "" {
      assert s[1..] == b;
    } else {
      assert s[1..] == a[1..] + [c] + b;
      SplitConcat(a[1..], c, b, seps);
      FirstPiece(a[0], Split(a[1..], seps), Split(b, seps));
    }
  }

  lemma FirstPiece(d: char, p: seq<string>, q: seq<string>)
    requires p != []
    ensures [""] + (p + q) == ([""] + p) + q
    ensures [[d] + (p + q)[0]] + (p + q)[1..] == ([[d] + p[0]] + p[1..]) + q
  {
    assert (p + q)[1..] == p[1..] + q;
  }

  /** The pieces of every part, in order. */
  function SplitAll(parts: seq<string>, seps: set<char>): seq<string> {
    if parts == [] then [] else Split(parts[0], seps) + SplitAll(parts[1..], seps)
  }

  lemma {:induction false} SplitAllConcat(p: seq<string>, q: seq<string>, seps: set<char>)
    ensures SplitAll(p + q, seps) == SplitAll(p, seps) + SplitAll(q, seps)
  {
    if p == [] {
      assert p + q == q;
    } else {
      assert (p + q)[1..] == p[1..] + q;
      SplitAllConcat(p[1..], q, seps);
    }
  }

  lemma {:induction false} SplitAllAtoms(parts: seq<string>, seps: set<char>)
    requires forall p | p in parts :: FreeOf(p, seps)
    ensures SplitAll(parts, seps) == parts
  {
    if parts != [] {
      SplitAtom(parts[0], seps);
      SplitAllAtoms(parts[1..], seps);
    }
  }

  lemma {:induction false} SplitJoin(parts: seq<string>, c: char)
    requires parts != []
    ensures Split(Join(parts, [c]), {c}) == SplitAll(parts, {c})
  {
    if |parts| == 1 {
      assert SplitAll(parts[1..], {c}) == [];
    } else {
      SplitConcat(parts[0], c, Join(parts[1..], [c]), {c});
      SplitJoin(parts[1..], c);
    }
  }

  /** Splitting undoes joining when no part holds the separator. */
  lemma SplitJoinAtoms(parts: seq<string>, c: char)
    requires parts != [] && forall p | p in parts :: FreeOf(p, {c})
    ensures Split(Join(parts, [c]), {c}) == parts
  {
    SplitJoin(parts, c);
    SplitAllAtoms(parts, {c});
  }

  // ----- splitting a text with something in front or behind

  lemma {:induction false} SplitBehind(a: string, t: string, seps: set<char>)
    requires FreeOf(a, seps)
    ensures Split(a + t, seps) == [a + Split(t, seps)[0]] + Split(t, seps)[1..]
  {
    if a == "" {
      assert a + t == t && a + Split(t, seps)[0] == Split(t, seps)[0];
    } else {
      assert a[0] in a && forall c | c in a[1..] :: c in a;
      assert (a + t)[1..] == a[1..] + t;
      SplitBehind(a[1..], t, seps);
      assert [a[0]] + (a[1..] + Split(t, seps)[0]) == a + Split(t, seps)[0];
    }
  }

  lemma {:induction false} SplitBefore(t: string, b: string, seps: set<char>)
    requires FreeOf(b, seps)
    ensures var parts := Split(t, seps);
      Split(t + b, seps) == parts[..|parts| - 1] + [parts[|parts| - 1] + b]
  {
    if t == "" {
      assert t + b == b && "" + b == b;
      SplitAtom(b, seps);
    } else {
      assert (t + b)[1..] == t[1..] + b;
      SplitBefore(t[1..], b, seps);
      LastPiece(t[0], Split(t[1..], seps), b);
    }
  }

  lemma LastPiece(d: char, p: seq<string>, b: string)
    requires p != []
    ensures var q := p[..|p| - 1] + [p[|p| - 1] + b];
      && [""] + q == ([""] + p)[..|p|] + [p[|p| - 1] + b]
      && var r := [[d] + p[0]] + p[1..];
         [[d] + q[0]] + q[1..] == r[..|r| - 1] + [r[|r| - 1] + b]
  {
    if |p| == 1 {
      Assoc([d], p[0], b);
    }
  }

  // ----- decimals

  predicate IsDigit(c: char) { '0' <= c <= '9' }

  predicate AllDigits(s: string) { forall c | c in s :: IsDigit(c) }

  const DIGITS: string := "0123456789"

  function Dec(n: nat): (s: string)
    ensures s != "" && AllDigits(s)
  {
    if n < 10 then [DIGITS[n]] else Dec(n / 10) + [DIGITS[n % 10]]
  }

  function ParseDec(s: string): nat
    requires AllDigits(s)
  {
    if s == "" then 0
    else
      assert IsDigit(s[|s| - 1]);
      10 * ParseDec(s[..|s| - 1]) + (s[|s| - 1] as int - '0' as int)
  }

  lemma {:induction false} ParseDecDec(n: nat)
    ensures ParseDec(Dec(n)) == n
  {
    if n >= 10 {
      ParseDecDec(n / 10);
      var s := Dec(n);
      assert s[..|s| - 1] == Dec(n / 10);
    } else {
      assert Dec(n)[..0] == "";
    }
  }

  // ----- white space

  /** The characters that `\s` matches and `trim` removes. */
  predicate IsSpace(c: char) {
    || c == ' ' || '\t' <= c <= '\r' || c == '\U{A0}' || c == '\U{1680}' || '\U{2000}' <= c <= '\U{200A}'
    || c == '\U{2028}' || c == '\U{2029}' || c == '\U{202F}' || c == '\U{205F}' || c == '\U{3000}' || c == '\U{FEFF}'
  }

  function TrimStart(s: string): (r: string)
    ensures |r| <= |s| && r == s[|s| - |r|..]
    ensures r != "" ==> !IsSpace(r[0])
    ensures forall i | 0 <= i < |s| - |r| :: IsSpace(s[i])
  {
    if s != "" && IsSpace(s[0]) then TrimStart(s[1..]) else s
  }

  function TrimEnd(s: string): (r: string)
    ensures r <= s
    ensures r != "" ==> !IsSpace(r[|r| - 1])
    ensures forall i | |r| <= i < |s| :: IsSpace(s[i])
  {
    if s != "" && IsSpace(s[|s| - 1]) then TrimEnd(s[..|s| - 1]) else s
  }

  function Trim(s: string): string {
    TrimEnd(TrimStart(s))
  }
}
