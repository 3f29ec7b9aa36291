/**
 What a diff says about the lines it leaves untouched: they stand in the old file too, in one
 contiguous block.
 */
module DiffSafety {
  import opened HunkParser
  import opened EditScripts

  /** The index in the old text of the kept line with index `i` in the new text. */
  function OldIndex(script: seq<Line>, i: nat): nat
    requires i < News(script)
  {
    match script[0]
    case Context(_) => if i == 0 then 0 else 1 + OldIndex(script[1..], i - 1)
    case Deleted(_) => 1 + OldIndex(script[1..], i)
    case Added(_) => if i == 0 then 0 else OldIndex(script[1..], i - 1)
    case NoEol => OldIndex(script[1..], i)
  }

  /**
   The part of the touched lines that the argument needs, and that even a hunk with an empty
   new range contributes: added lines, and the line before each deletion.
   */
  function LeastTouched(script: seq<Line>, n: int): set<int> {
    if script == [] then {}
    else
      var rest := LeastTouched(script[1..], n + script[0].InNew());
      match script[0]
      case Added(_) => {n + 1} + rest
      case Deleted(_) => {n} + rest
      case _ => rest
  }

  lemma {:induction false} KeptLine(script: seq<Line>, n: int, i: nat)
    requires i < News(script) && n + i + 1 !in LeastTouched(script, n)
    ensures OldIndex(script, i) < Olds(script)
    ensures OldText(script)[OldIndex(script, i)] == NewText(script)[i]
    decreases script
  {
    var l := script[0];
    if l.InNew() == 0 {
      KeptLine(script[1..], n, i);
    } else if i > 0 {
      KeptLine(script[1..], n + 1, i - 1);
    }
  }

  lemma {:induction false} KeptFirst(script: seq<Line>, n: int)
    requires 0 < News(script) && n !in LeastTouched(script, n) && n + 1 !in LeastTouched(script, n)
    ensures OldIndex(script, 0) == 0
    decreases script
  {
    if script[0].NoEol? {
      KeptFirst(script[1..], n);
    }
  }

  lemma {:induction false} KeptNext(script: seq<Line>, n: int, i: nat)
    requires i + 1 < News(script)
    requires n + i + 1 !in LeastTouched(script, n) && n + i + 2 !in LeastTouched(script, n)
    ensures OldIndex(script, i + 1) == OldIndex(script, i) + 1
    decreases script
  {
    var l := script[0];
    if l.InNew() == 0 {
      KeptNext(script[1..], n, i);
    } else if i > 0 {
      KeptNext(script[1..], n + 1, i - 1);
    } else {
      KeptFirst(script[1..], n + 1);
    }
  }

  /** Lines a..b of the new text (counted from 1) stand in the old text from index `j` on. */
  predicate StandsInOld(script: seq<Line>, a: nat, b: nat, j: nat)
    requires 1 <= a <= b <= News(script)
  {
    j + (b - a + 1) <= Olds(script) && OldText(script)[j..j + (b - a + 1)] == NewText(script)[a - 1..b]
  }

  lemma {:induction false} UntouchedWindow(script: seq<Line>, a: nat, b: nat)
    requires 1 <= a <= b <= News(script)
    requires forall x | a <= x <= b :: x !in LeastTouched(script, 0)
    ensures StandsInOld(script, a, b, OldIndex(script, a - 1))
    ensures OldIndex(script, b - 1) == OldIndex(script, a - 1) + (b - a)
    decreases b
  {
    hide OldIndex, OldText, NewText, LeastTouched;
    KeptLine(script, 0, b - 1);
    if a < b {
      UntouchedWindow(script, a, b - 1);
      KeptNext(script, 0, b - 2);
    }
    BlockGrows(OldText(script), NewText(script), OldIndex(script, a - 1), a - 1, b - a);
  }

  lemma BlockGrows<T>(xs: seq<T>, ys: seq<T>, i: nat, j: nat, m: nat)
    requires i + m < |xs| && j + m < |ys|
    requires xs[i..i + m] == ys[j..j + m] && xs[i + m] == ys[j + m]
    ensures xs[i..i + m + 1] == ys[j..j + m + 1]
  {
    assert xs[i..i + m + 1] == xs[i..i + m] + [xs[i + m]];
    assert ys[j..j + m + 1] == ys[j..j + m] + [ys[j + m]];
  }

  // ----- the parser touches at least that much

  lemma {:induction false} LeastIsTouched(script: seq<Line>, n: int)
    ensures LeastTouched(script, n) <= TouchedFrom(script, n)
    decreases script
  {
    if script != [] {
      LeastIsTouched(script[1..], n + script[0].InNew());
    }
  }

  lemma {:induction false} LeastConcat(a: seq<Line>, b: seq<Line>, n: int)
    ensures LeastTouched(a + b, n) == LeastTouched(a, n) + LeastTouched(b, n + News(a))
    decreases a
  {
    if a == [] {
      assert a + b == b;
    } else {
      assert (a + b)[1..] == a[1..] + b;
      LeastConcat(a[1..], b, n + a[0].InNew());
    }
  }

  lemma {:induction false} LeastOfDeletions(body: seq<Line>, n: int)
    requires News(body) == 0
    ensures LeastTouched(body, n) <= TouchedFrom(body, n - 1)
    decreases body
  {
    if body != [] {
      LeastOfDeletions(body[1..], n);
    }
  }

  lemma {:induction false} LeastInFile(segs: seq<Segment>, n: nat)
    ensures LeastTouched(Script(segs), n) <= FileTouched(segs, n)
    decreases segs
  {
    if segs != [] {
      var s := segs[0];
      LeastConcat(SegmentScript(s), Script(segs[1..]), n);
      LeastInFile(segs[1..], n + News(SegmentScript(s)));
      if s.Gap? {
        GapUntouched(s.lines, n);
        LeastIsTouched(Contexts(s.lines), n);
      } else if News(s.body) == 0 {
        LeastOfDeletions(s.body, n);
      } else {
        LeastIsTouched(s.body, n);
      }
    }
  }

  lemma {:induction false} FileAmongFiles(files: seq<FileDiff>, f: FileDiff)
    requires f in files
    ensures FileTouched(f.segs, 0) <= FilesTouched(files)
  {
    if files[0] != f {
      assert files == [files[0]] + files[1..];
      FileAmongFiles(files[1..], f);
    }
  }

  /**
   The safety of the touched set, for every edit script however it is cut into hunks, and in
   whatever concatenation of diffs it is printed: lines a..b of the new file without a touched
   line among them are a contiguous block of the old file.
   */
  lemma UntouchedBlockIsOld(files: seq<FileDiff>, finalNewline: bool, f: FileDiff, a: nat, b: nat)
    requires (forall g | g in files :: Printable(g)) && f in files
    requires 1 <= a <= b <= News(Script(f.segs))
    requires forall x | a <= x <= b :: x !in Touched(RenderText(files, finalNewline))
    ensures StandsInOld(Script(f.segs), a, b, OldIndex(Script(f.segs), a - 1))
  {
    ParseRendered(files, finalNewline);
    FileAmongFiles(files, f);
    LeastInFile(f.segs, 0);
    UntouchedWindow(Script(f.segs), a, b);
  }
}
