/**
 Whether a position of a line lies inside a string literal: the scanning loop of the source
 against an automaton that reads one character at a time.
 */
module StringLiterals {
  import opened Text

  /**
   The lexical state between two characters. `Quoted` is a '..' or ".." literal, `Template`
   the text of a `..` literal, `Expr` the code of a `${..}` inside one (with its brace depth),
   and `ExprQuoted` a literal inside that code. `Dollar` follows an unescaped $ in a template.
   */
  datatype State =
    | Code
    | Quoted(q: char, escaped: bool)
    | Template(mode: Mode)
    | Expr(depth: nat)
    | ExprQuoted(depth: nat, q: char, escaped: bool)

  datatype Mode = Plain | Escaped | Dollar

  predicate IsQuote(c: char) { c == '\'' || c == '"' || c == '`' }

  predicate QuoteFree(text: string) { forall c | c in text :: !IsQuote(c) }

  function Next(s: State, c: char): State {
    match s
    case Code => if c == '`' then Template(Plain) else if IsQuote(c) then Quoted(c, false) else Code
    case Quoted(q, escaped) =>
      if escaped then Quoted(q, false)
      else if c == '\\' then Quoted(q, true)
      else if c == q then Code
      else s
    case Template(mode) =>
      if mode == Escaped then Template(Plain)
      else if mode == Dollar && c == '{' then Expr(1)
      else if c == '\\' then Template(Escaped)
      else if c == '`' then Code
      else if c == '$' then Template(Dollar)
      else Template(Plain)
    case Expr(depth) =>
      if IsQuote(c) then ExprQuoted(depth, c, false)
      else if c == '{' then Expr(depth + 1)
      else if c == '}' then (if depth <= 1 then Template(Plain) else Expr(depth - 1))
      else s
    case ExprQuoted(depth, q, escaped) =>
      if escaped then ExprQuoted(depth, q, false)
      else if c == '\\' then ExprQuoted(depth, q, true)
      else if c == q then Expr(depth)
      else s
  }

  /** The state at `j` when it is `s` at `i`. */
  function StateFrom(s: State, line: string, i: nat, j: nat): State
    requires i <= j <= |line|
    decreases j
  {
    if i == j then s else Next(StateFrom(s, line, i, j - 1), line[j - 1])
  }

  function StateAt(line: string, pos: nat): State
    requires pos <= |line|
  {
    StateFrom(Code, line, 0, pos)
  }

  /**
   In state `s` at `pos`: inside literal text. Between the $ and the { that open an
   interpolation the scan, which reads both at once, already counts as outside.
   */
  predicate Inside(s: State, line: string, pos: nat) {
    (s.Quoted? || s.Template?) && !(s == Template(Dollar) && pos < |line| && line[pos] == '{')
  }

  predicate InsideAt(line: string, pos: nat)
    requires pos <= |line|
  {
    Inside(StateAt(line, pos), line, pos)
  }

  /**
   What the variables of the scan say about the automaton's state: it keeps no escape states,
   because it reads an escaped character together with its backslash.
   */
  predicate Matches(s: State, quote: Option<char>, depth: int, inner: Option<char>) {
    match s
    case Code => quote == None && depth == 0 && inner == None
    case Quoted(q, escaped) => !escaped && q != '`' && quote == Some(q) && depth == 0 && inner == None
    case Template(mode) => mode != Escaped && quote == Some('`') && depth == 0 && inner == None
    case Expr(d) => d >= 1 && quote == Some('`') && depth == d && inner == None
    case ExprQuoted(d, q, escaped) => d >= 1 && !escaped && quote == Some('`') && depth == d && inner == Some(q)
  }

  /**
   The loop of the scan, with the variables it ends with. It may end one past `pos`, when the
   character before `pos` is read together with the one at `pos`.
   */
  method ScanQuotes(line: string, pos: nat)
    returns (quote: Option<char>, templateExprDepth: int, innerQuote: Option<char>, i: nat)
    requires pos <= |line|
    ensures templateExprDepth > 0 ==> quote == Some('`')
    ensures innerQuote.Some? ==> templateExprDepth > 0
    ensures i == pos || i == pos + 1
    ensures i == pos ==> Matches(StateAt(line, pos), quote, templateExprDepth, innerQuote)
    ensures InsideAt(line, pos) <==> quote.Some? && templateExprDepth <= 0
  {
    quote, templateExprDepth, innerQuote, i := None, 0, None, 0;
    while i < pos
      invariant 0 <= i <= pos + 1
      invariant templateExprDepth > 0 ==> quote == Some('`')
      invariant innerQuote.Some? ==> templateExprDepth > 0
      invariant i <= pos ==> Matches(StateAt(line, i), quote, templateExprDepth, innerQuote)
      invariant i <= pos && StateAt(line, i) == Template(Dollar) ==> !(i < |line| && line[i] == '{')
      invariant i == pos + 1 ==> (InsideAt(line, pos) <==> quote.Some? && templateExprDepth == 0)
      decreases pos - i
    {
      var ch := line[i];
      assert StateAt(line, i + 1) == Next(StateAt(line, i), ch);
      assert i + 2 <= pos ==> StateAt(line, i + 2) == Next(StateAt(line, i + 1), line[i + 1]);
      if quote == Some('`') && templateExprDepth > 0 {
        if innerQuote.Some? {
          if ch == '\\' {
            i := i + 2;
            continue;
          }
          if ch == innerQuote.value {
            innerQuote := None;
          }
          i := i + 1;
          continue;
        }
        if IsQuote(ch) {
          innerQuote := Some(ch);
          i := i + 1;
          continue;
        }
        if ch == '{' {
          templateExprDepth := templateExprDepth + 1;
        } else if ch == '}' {
          templateExprDepth := templateExprDepth - 1;
        }
        i := i + 1;
        continue;
      }
      if quote == Some('`') && ch == '$' && i + 1 < |line| && line[i + 1] == '{' {
        templateExprDepth := 1;
        i := i + 2;
        continue;
      }
      if quote.Some? {
        if ch == '\\' {
          i := i + 2;
          continue;
        }
        if ch == quote.value {
          quote := None;
        }
      } else if IsQuote(ch) {
        quote := Some(ch);
      }
      i := i + 1;
    }
  }

  method IsInsideStringLiteral(line: string, pos: nat) returns (inside: bool)
    requires pos <= |line|
    ensures inside <==> InsideAt(line, pos)
  {
    var quote, templateExprDepth, _, _ := ScanQuotes(line, pos);
    quote := if templateExprDepth > 0 then None else quote;
    inside := quote.Some?;
  }

  /** `open` occurs in `rest` at `idx`, which the whole line puts outside every string literal. */
  predicate OpensAt(line: string, lineOffset: nat, rest: string, open: string, idx: int)
    requires lineOffset + |rest| == |line|
  {
    HasAt(rest, open, idx) && !InsideAt(line, lineOffset + idx)
  }

  /** The least opener outside a string literal, or -1 exactly when there is none. */
  method FindBlockOpenIndex(line: string, lineOffset: nat, rest: string, open: string) returns (found: int)
    requires lineOffset + |rest| == |line|
    ensures found != -1 ==> OpensAt(line, lineOffset, rest, open, found)
    ensures forall j :: 0 <= j && (found == -1 || j < found) ==> !OpensAt(line, lineOffset, rest, open, j)
    ensures found == -1 <==> !exists j :: OpensAt(line, lineOffset, rest, open, j)
  {
    var searchFrom := 0;
    while true
      invariant 0 <= searchFrom <= |rest| + 1
      invariant forall j :: 0 <= j < searchFrom ==> !OpensAt(line, lineOffset, rest, open, j)
      decreases |rest| + 1 - searchFrom
    {
      var idx := IndexOf(rest, open, searchFrom);
      if idx == -1 {
        return -1;
      }
      var inside := IsInsideStringLiteral(line, lineOffset + idx);
      if inside {
        searchFrom := idx + 1;
        continue;
      }
      assert OpensAt(line, lineOffset, rest, open, idx);
      return idx;
    }
  }

  // ----- what the automaton can and cannot be in

  /** Reading on: the state after `k` depends only on the state at `j` and what follows. */
  lemma {:induction false} StateFromSplit(s: State, line: string, i: nat, j: nat, k: nat)
    requires i <= j <= k <= |line|
    ensures StateFrom(s, line, i, k) == StateFrom(StateFrom(s, line, i, j), line, j, k)
    decreases k
  {
    if j < k {
      StateFromSplit(s, line, i, j, k - 1);
    }
  }

  /**
   Text that changes nothing where a comment may open: it has no quotes, no braces in the code
   of an interpolation, and no backslashes in a literal nested there.
   */
  predicate Neutral(s: State, text: string) {
    && !s.Quoted? && !s.Template? && (s.ExprQuoted? ==> !s.escaped && IsQuote(s.q))
    && forall c | c in text ::
      !IsQuote(c) && (s.Expr? ==> c != '{' && c != '}') && (s.ExprQuoted? ==> c != '\\')
  }

  lemma NeutralPrefix(s: State, text: string, more: string)
    requires Neutral(s, text + more)
    ensures Neutral(s, text)
  {
    assert forall c | c in text :: c in text + more;
  }

  lemma {:induction false} NeutralText(s: State, line: string, i: nat, j: nat)
    requires i <= j <= |line| && Neutral(s, line[i..j])
    ensures StateFrom(s, line, i, j) == s
    decreases j
  {
    if i < j {
      assert line[i..j] == line[i..j - 1] + [line[j - 1]] && line[j - 1] in line[i..j];
      NeutralPrefix(s, line[i..j - 1], [line[j - 1]]);
      NeutralText(s, line, i, j - 1);
    }
  }

  lemma DollarBrace(line: string, i: nat)
    requires 0 < i < |line| && line[i - 1] == '$' && line[i] == '{'
    ensures Includes(line, "${")
  {
    assert line[i - 1..i + 1] == "${";
    assert HasAt(line, "${", i - 1);
  }
}
