/** Inserting a release entry into the changelog, as text and as a sequence of headings. */
module ChangelogInsert {
  import opened Text

  /** What `^` and `$` take for the ends of lines. */
  const BREAKS: set<char> := {'\n', '\r', '\U{2028}', '\U{2029}'}

  const HEADING: string := "## ["
  const UNRELEASED: string := "## [Unreleased]"
  const TITLE: string := "# Changelog"

  predicate IsLineStart(s: string, i: nat) {
    i == 0 || (i <= |s| && s[i - 1] in BREAKS)
  }

  /** The first line start at or after `i` where `pat` occurs, or -1. */
  function SearchLine(s: string, pat: string, i: nat): (r: int)
    ensures r == -1 || (i <= r && IsLineStart(s, r) && HasAt(s, pat, r))
    ensures forall j: nat | i <= j && (r == -1 || j < r) :: !(IsLineStart(s, j) && HasAt(s, pat, j))
    decreases |s| - i
  {
    if i > |s| then -1
    else if IsLineStart(s, i) && HasAt(s, pat, i) then i
    else SearchLine(s, pat, i + 1)
  }

  /** The end of the white space that starts at `i`. */
  function SpaceEnd(s: string, i: nat): (e: nat)
    requires i <= |s|
    ensures i <= e <= |s| && (forall k | i <= k < e :: IsSpace(s[k])) && (e < |s| ==> !IsSpace(s[e]))
    decreases |s| - i
  {
    if i < |s| && IsSpace(s[i]) then SpaceEnd(s, i + 1) else i
  }

  /** The last line break in s[i..j], or -1. */
  function LastBreak(s: string, i: nat, j: nat): (b: int)
    requires i <= j <= |s|
    ensures b == -1 || (i <= b < j && s[b] in BREAKS)
    ensures forall k | i <= k < j && (b == -1 || b < k) :: s[k] !in BREAKS
    decreases j
  {
    if i == j then -1 else if s[j - 1] in BREAKS then j - 1 else LastBreak(s, i, j - 1)
  }

  /** Where `^## \[Unreleased\]\s*$` ends when it matches at `p`, else -1. */
  function UnreleasedEnd(s: string, p: nat): (e: int)
    ensures e == -1 || (p + |UNRELEASED| <= e <= |s|)
  {
    if !(IsLineStart(s, p) && HasAt(s, UNRELEASED, p)) then -1
    else
      var w := SpaceEnd(s, p + |UNRELEASED|);
      if w == |s| then w else LastBreak(s, p + |UNRELEASED|, w)
  }

  /** The leftmost match of that pattern at or after `p`. */
  function UnreleasedAt(s: string, p: nat): (r: int)
    ensures r == -1 || (p <= r && UnreleasedEnd(s, r) != -1)
    ensures forall j: nat | p <= j && (r == -1 || j < r) :: UnreleasedEnd(s, j) == -1
    decreases |s| - p
  {
    if p > |s| then -1 else if UnreleasedEnd(s, p) != -1 then p else UnreleasedAt(s, p + 1)
  }

  function NextHeadingAfter(base: string, from: nat): int
    requires from <= |base|
  {
    var relIdx := SearchLine(base[from..], HEADING, 0);
    if relIdx == -1 then -1 else from + relIdx
  }

  function InsertionIndex(base: string): (idx: int)
    ensures idx == -1 || 0 <= idx <= |base|
  {
    var u := UnreleasedAt(base, 0);
    if u != -1 then NextHeadingAfter(base, UnreleasedEnd(base, u)) else SearchLine(base, HEADING, 0)
  }

  predicate VersionPresent(base: string, version: string) {
    SearchLine(base, HEADING + version + "]", 0) != -1
  }

  function BaseOf(existing: string, header: string): string {
    if Contains(existing, TITLE) then existing else header + "\n"
  }

  function Place(base: string, entry: string): string {
    var idx := InsertionIndex(base);
    if idx == -1 then TrimEnd(base) + "\n\n" + entry
    else base[..idx] + entry + "\n" + base[idx..]
  }

  function InsertEntry(existing: string, header: string, entry: string, version: string): string {
    var base := BaseOf(existing, header);
    if VersionPresent(base, version) then base else Place(base, entry)
  }
}
