/** How an untrusted ticket field is made safe to show inside one line of Markdown. */
module MdField {
  import opened Text

  const META: string := "\\`*_{}[]()#+!|<>"

  predicate IsMeta(c: char) { c in META }

  predicate IsControl(c: char) { c <= '\U{1F}' || c == '\U{7F}' }

  /** Control characters become spaces, so no field can start a new line. */
  function Strip(s: string): (r: string)
    ensures |r| == |s|
    ensures forall i | 0 <= i < |s| :: r[i] == if IsControl(s[i]) then ' ' else s[i]
  {
    seq(|s|, i requires 0 <= i < |s| => if IsControl(s[i]) then ' ' else s[i])
  }

  /** Every metacharacter of inline Markdown gets a backslash. */
  function Escape(s: string): string {
    if s == "" then ""
    else if IsMeta(s[0]) then ['\\', s[0]] + Escape(s[1..])
    else [s[0]] + Escape(s[1..])
  }

  function Take(s: string, max: nat): string {
    if |s| <= max then s else s[..max]
  }

  function Field(value: Option<string>, max: nat): string {
    Take(Escape(Strip(if value.Some? then value.value else "")), max)
  }

  /** Reads escaped text back; None when a metacharacter stands unescaped. A final lone backslash is dropped. */
  function Unescape(s: string): Option<string> {
    if s == "" || s == "\\" then Some("")
    else if s[0] == '\\' then
      match Unescape(s[2..])
      case None => None
      case Some(rest) => if IsMeta(s[1]) then Some([s[1]] + rest) else None
    else if IsMeta(s[0]) then None
    else
      match Unescape(s[1..])
      case None => None
      case Some(rest) => Some([s[0]] + rest)
  }

  /** The characters of `s` whose escapes fit entirely into `max` characters. */
  function Fitting(s: string, max: nat): nat {
    if s == "" then 0
    else
      var w := if IsMeta(s[0]) then 2 else 1;
      if w > max then 0 else 1 + Fitting(s[1..], max - w)
  }

  function Prepend(c: char, rest: Option<string>): Option<string> {
    if rest.None? then None else Some([c] + rest.value)
  }

  lemma UnescapeMeta(c: char, rest: string)
    requires IsMeta(c)
    ensures Unescape(['\\', c] + rest) == Prepend(c, Unescape(rest))
  {
    assert (['\\', c] + rest)[2..] == rest;
  }

  lemma UnescapePlain(c: char, rest: string)
    requires !IsMeta(c)
    ensures Unescape([c] + rest) == Prepend(c, Unescape(rest))
  {
    assert IsMeta('\\');
    assert ([c] + rest)[1..] == rest;
  }

  lemma TakeConcat(a: string, b: string, max: nat)
    ensures |a| <= max ==> Take(a + b, max) == a + Take(b, max - |a|)
    ensures max <= |a| ==> Take(a + b, max) == a[..max]
  {
  }

  lemma {:induction false} UnescapeTaken(s: string, max: nat)
    ensures Fitting(s, max) <= |s|
    ensures Unescape(Take(Escape(s), max)) == Some(s[..Fitting(s, max)])
    decreases s
  {
    if s != "" {
      var c, rest := s[0], s[1..];
      var w := if IsMeta(c) then 2 else 1;
      var head := if IsMeta(c) then ['\\', c] else [c];
      TakeConcat(head, Escape(rest), max);
      if w <= max {
        UnescapeTaken(rest, max - w);
        assert s[..1 + Fitting(rest, max - w)] == [c] + rest[..Fitting(rest, max - w)];
        hide Unescape, IsMeta, Take;
        if IsMeta(c) {
          UnescapeMeta(c, Take(Escape(rest), max - w));
        } else {
          UnescapePlain(c, Take(Escape(rest), max - w));
        }
      } else {
        assert head[..max] == "" || head[..max] == "\\";
      }
    }
  }

  lemma {:induction false} EscapeAddsNoControl(s: string)
    requires forall c | c in s :: !IsControl(c)
    ensures forall c | c in Escape(s) :: !IsControl(c)
  {
    if s != "" {
      assert s == [s[0]] + s[1..];
      EscapeAddsNoControl(s[1..]);
    }
  }

  /**
   What is shown of any field: at most `max` characters, none of them a control character, and
   reading its escapes back gives a beginning of the stripped value, so that no metacharacter
   stands unescaped, whatever the length clamp cuts off.
   */
  lemma FieldIsSafe(value: Option<string>, max: nat)
    ensures var shown := Field(value, max);
      && |shown| <= max
      && (forall c | c in shown :: !IsControl(c))
      && Unescape(shown).Some?
      && Unescape(shown).value <= Strip(if value.Some? then value.value else "")
  {
    var s := Strip(if value.Some? then value.value else "");
    assert forall c | c in s :: !IsControl(c);
    EscapeAddsNoControl(s);
    UnescapeTaken(s, max);
  }

  /** The whole value is shown exactly when its escaped form fits. */
  lemma FieldIsWholeIff(value: string, max: nat)
    ensures Unescape(Field(Some(value), max)) == Some(Strip(value)) <==> |Escape(Strip(value))| <= max
  {
    var s := Strip(value);
    UnescapeTaken(s, max);
    FittingAll(s, max);
    assert s[..|s|] == s;
  }

  lemma {:induction false} FittingAll(s: string, max: nat)
    ensures Fitting(s, max) == |s| <==> |Escape(s)| <= max
    ensures Fitting(s, max) <= |s|
    decreases s
  {
    if s != "" {
      var w := if IsMeta(s[0]) then 2 else 1;
      if w <= max {
        FittingAll(s[1..], max - w);
      }
    }
  }
}
