/** Which positions of a line are inside a string literal, told from the characters of the line. */
module QuoteLaws {
  import opened Text
  import opened StringLiterals

  // ----- literals of either quote, and templates

  lemma {:induction false} NoQuoteIsCode(line: string, p: nat)
    requires p <= |line| && forall j | 0 <= j < p :: line[j] != '\'' && line[j] != '"' && line[j] != '`'
    ensures StateAt(line, p) == Code && !InsideAt(line, p)
    decreases p
  {
    if p > 0 {
      NoQuoteIsCode(line, p - 1);
    }
  }

  /** `line[i]` is the first quote of the line, and up to `k` nothing ends or interrupts its literal. */
  predicate OpensPlain(line: string, i: nat, k: nat) {
    && i < k <= |line| && (line[i] == '\'' || line[i] == '"' || line[i] == '`')
    && (forall j | 0 <= j < i :: line[j] != '\'' && line[j] != '"' && line[j] != '`')
    && (forall j | i < j < k :: line[j] != line[i] && line[j] != '\\')
    && (line[i] == '`' ==> forall j | i < j < k :: line[j] != '$')
  }

  /** The state of the automaton in a literal opened by `q`. */
  function InLiteral(q: char): State { if q == '`' then Template(Plain) else Quoted(q, false) }

  lemma {:induction false} LiteralState(line: string, i: nat, k: nat)
    requires OpensPlain(line, i, k)
    ensures StateAt(line, k) == InLiteral(line[i])
    decreases k
  {
    if k == i + 1 {
      NoQuoteIsCode(line, i);
    } else {
      LiteralState(line, i, k - 1);
    }
  }

  /**
   A literal runs from its first quote to the next one of the same kind: every position in between
   is inside, and the position behind the closing quote is not.
   */
  lemma {:induction false} LiteralIsInside(line: string, i: nat, k: nat)
    requires OpensPlain(line, i, k)
    ensures forall p | i < p <= k :: InsideAt(line, p)
    ensures k < |line| && line[k] == line[i] ==> !InsideAt(line, k + 1)
  {
    forall p | i < p <= k ensures InsideAt(line, p) {
      LiteralState(line, i, p);
    }
    LiteralState(line, i, k);
  }

  /** A backslash keeps the literal open, whatever follows it, the closing quote included. */
  lemma {:induction false} EscapeKeepsOpen(line: string, i: nat, k: nat)
    requires OpensPlain(line, i, k) && k + 1 < |line| && line[k] == '\\'
    ensures InsideAt(line, k + 1) && InsideAt(line, k + 2)
  {
    LiteralState(line, i, k);
    assert StateAt(line, k + 1) == Next(StateAt(line, k), line[k]);
    assert StateAt(line, k + 2) == Next(StateAt(line, k + 1), line[k + 1]);
  }

  /** In a line that is one quoted text, as a glob pattern may be, no block comment opens. */
  lemma {:induction false} QuotedLineOpensNothing(line: string, q: char, text: string, open: string, j: int)
    requires q == '\'' || q == '"' || q == '`'
    requires line == [q] + text + [q] && FreeOf(text, {q, '\\', '$'})
    requires open == "/*" || open == "<!--"
    ensures !OpensAt(line, 0, line, open, j)
  {
    var k := |text| + 1;
    forall x | 0 < x < k ensures line[x] != q && line[x] != '\\' && line[x] != '$' {
      assert line[x] == text[x - 1] && text[x - 1] in text;
    }
    LiteralIsInside(line, 0, k);
    if 0 <= j {
      HasAtChars(line, open, j);
      assert HasAt(line, open, j) ==> line[j + 0] == open[0];
    }
  }

  // ----- the code inside a template

  /** What `{` and `}` add up to in `line[a..b]`. */
  function Balance(line: string, a: nat, b: nat): int
    requires a <= b <= |line|
    decreases b
  {
    if a == b then 0
    else Balance(line, a, b - 1) + (if line[b - 1] == '{' then 1 else if line[b - 1] == '}' then -1 else 0)
  }

  /** The first `${` of a template that opens at `i` ends at `c`, and up to `m` its braces stay open. */
  predicate Interpolates(line: string, i: nat, c: nat, m: nat) {
    && c >= 2 && OpensPlain(line, i, c - 2) && line[i] == '`' && c <= m <= |line|
    && line[c - 2] == '$' && line[c - 1] == '{'
    && (forall j | c <= j < m :: line[j] != '\'' && line[j] != '"' && line[j] != '`')
    && (forall j | c <= j <= m :: Balance(line, c, j) >= 0)
  }

  lemma {:induction false} InterpolationState(line: string, i: nat, c: nat, m: nat)
    requires Interpolates(line, i, c, m)
    ensures StateAt(line, m) == Expr(1 + Balance(line, c, m))
    decreases m
  {
    if m == c {
      LiteralState(line, i, c - 2);
      assert StateAt(line, c - 1) == Template(Dollar);
    } else {
      InterpolationState(line, i, c, m - 1);
    }
  }

  /** The code of an interpolation is not inside; behind the brace that closes it the template goes on. */
  lemma {:induction false} InterpolationIsCode(line: string, i: nat, c: nat, m: nat)
    requires Interpolates(line, i, c, m)
    ensures forall p | c <= p <= m :: !InsideAt(line, p)
    ensures m < |line| && line[m] == '}' && Balance(line, c, m) == 0 ==> InsideAt(line, m + 1)
  {
    forall p | c <= p <= m ensures !InsideAt(line, p) {
      InterpolationState(line, i, c, p);
    }
    InterpolationState(line, i, c, m);
  }

  lemma {:induction false} NestedState(line: string, i: nat, c: nat, m: nat, n: nat)
    requires Interpolates(line, i, c, m) && m < n <= |line|
    requires line[m] == '\'' || line[m] == '"' || line[m] == '`'
    requires forall j | m < j < n :: line[j] != line[m] && line[j] != '\\'
    ensures StateAt(line, n) == ExprQuoted(1 + Balance(line, c, m), line[m], false)
    decreases n
  {
    if n == m + 1 {
      InterpolationState(line, i, c, m);
    } else {
      NestedState(line, i, c, m, n - 1);
    }
  }

  /** A literal in the code of an interpolation counts as code, and its braces do not count. */
  lemma {:induction false} NestedLiteralIsCode(line: string, i: nat, c: nat, m: nat, n: nat)
    requires Interpolates(line, i, c, m) && m < n < |line|
    requires line[m] == '\'' || line[m] == '"' || line[m] == '`'
    requires (forall j | m < j < n :: line[j] != line[m] && line[j] != '\\') && line[n] == line[m]
    ensures forall p | m < p <= n + 1 :: !InsideAt(line, p)
    ensures n + 1 < |line| && line[n + 1] == '}' && Balance(line, c, m) == 0 ==> InsideAt(line, n + 2)
  {
    forall p | m < p <= n ensures !InsideAt(line, p) {
      NestedState(line, i, c, m, p);
    }
    NestedState(line, i, c, m, n);
    assert StateAt(line, n + 1) == Expr(1 + Balance(line, c, m));
  }
}
