/** Selecting, inverting and joining the hunks of a file diff, and what the resulting
    patches do to a file. */
module PatchAlgebra {
  import opened Lines
  import opened HunkBody

  /** One hunk; its starts count lines from 1 and, like its line counts, are 32 bits wide. */
  datatype Hunk = Hunk(origStart: int, origLines: int, origNoNewlineAt: int, newStart: int, newLines: int,
                       section: string, startPosition: int, body: string)

  /** The signed 32-bit result of an addition or subtraction. */
  function Int32(x: int): int
  {
    (x + 0x8000_0000) % 0x1_0000_0000 - 0x8000_0000
  }

  // ---------------------------------------------------------------- applying hunks to a file

  /** How many lines of the old file precede the hunk: an empty range names the line before it. */
  function OldPos(h: Hunk): int
  {
    if h.origLines == 0 then h.origStart else h.origStart - 1
  }

  function NewPos(h: Hunk): int
  {
    if h.newLines == 0 then h.newStart else h.newStart - 1
  }

  function Growth(h: Hunk): int
  {
    h.newLines - h.origLines
  }

  function WithoutNewline(lines: seq<string>): (r: seq<string>)
    ensures |r| == |lines|
  {
    if lines == [] || lines[|lines| - 1] == "" then lines
    else
      var last := lines[|lines| - 1];
      lines[|lines| - 1 := last[..|last| - 1]]
  }

  /** The lines a hunk takes from the old file. The body ends every removed line with a newline;
      a mark says that the old file ends without one. */
  function OldLines(h: Hunk): (r: seq<string>)
    ensures |r| == |OldSide(h.body)|
  {
    if h.origNoNewlineAt == 0 then OldSide(h.body) else WithoutNewline(OldSide(h.body))
  }

  /** The mark stands behind a removed line, and only added lines come after it. */
  predicate MarkedAfter(lines: seq<string>, k: nat, at: int)
  {
    && 0 < k <= |lines| && at == |Join(lines[..k])|
    && |lines[k - 1]| > 1 && lines[k - 1][0] == '-' && lines[k - 1][|lines[k - 1]| - 1] == '\n'
    && forall i :: k <= i < |lines| ==> lines[i] != "" && lines[i][0] == '+'
  }

  ghost predicate MarkFits(h: Hunk)
  {
    h.origNoNewlineAt == 0 || exists k: nat :: MarkedAfter(LinesOf(h.body), k, h.origNoNewlineAt)
  }

  /** The hunk's counts and its mark agree with its body. */
  ghost predicate Counted(h: Hunk)
  {
    h.origLines == |OldSide(h.body)| && h.newLines == |NewSide(h.body)| && MarkFits(h)
  }

  lemma {:induction false} OnlyAdded(lines: seq<string>)
    requires NoneEmpty(lines) && forall i :: 0 <= i < |lines| ==> lines[i][0] == '+'
    ensures Side(lines, '+') == []
  {
    if lines != [] {
      OnlyAdded(lines[1..]);
    }
  }

  lemma {:induction false} LastOldLine(lines: seq<string>, k: nat)
    requires NoneEmpty(lines) && 0 < k <= |lines| && lines[k - 1][0] != '+'
    requires forall i :: k <= i < |lines| ==> lines[i][0] == '+'
    ensures var side := Side(lines, '+');
            side != [] && side[|side| - 1] == lines[k - 1][1..]
    decreases |lines|
  {
    if k == 1 {
      OnlyAdded(lines[1..]);
    } else {
      LastOldLine(lines[1..], k - 1);
    }
  }

  /** A mark makes a difference: the last removed line has a newline in the body. */
  lemma MarkedOldSide(h: Hunk)
    requires MarkFits(h) && h.origNoNewlineAt != 0
    ensures OldLines(h) != OldSide(h.body)
    ensures exists i :: 0 <= i < |LinesOf(h.body)| && LinesOf(h.body)[i] != "" && LinesOf(h.body)[i][0] == '-'
  {
    var lines := LinesOf(h.body);
    var k: nat :| MarkedAfter(lines, k, h.origNoNewlineAt);
    LinesRoundTrip(h.body);
    LastOldLine(lines, k);
    assert lines[k - 1] != "";
  }

  /** The hunks, in order and without overlap, fit the lines of file a from line i on. */
  ghost predicate Fits(hs: seq<Hunk>, a: seq<string>, i: nat)
    decreases |hs|
  {
    i <= |a| &&
    (hs != [] ==>
       var h := hs[0];
       && Counted(h)
       && i <= OldPos(h) && OldPos(h) + h.origLines <= |a|
       && a[OldPos(h)..OldPos(h) + h.origLines] == OldLines(h)
       && Fits(hs[1..], a, OldPos(h) + h.origLines))
  }

  /** What file a looks like from line i on after the hunks have been applied to it. */
  ghost function Apply(hs: seq<Hunk>, a: seq<string>, i: nat): seq<string>
    requires Fits(hs, a, i)
    decreases |hs|
  {
    if hs == [] then a[i..]
    else a[i..OldPos(hs[0])] + NewSide(hs[0].body) + Apply(hs[1..], a, OldPos(hs[0]) + hs[0].origLines)
  }

  /** Between line i of file a and line j of file b, the hunk describes the next
      difference: equal lines up to it, its old side in a and its new side in b. */
  ghost predicate Step(h: Hunk, a: seq<string>, i: nat, b: seq<string>, j: nat)
  {
    && Counted(h)
    && i <= OldPos(h) && j <= NewPos(h) && OldPos(h) - i == NewPos(h) - j
    && OldPos(h) + h.origLines <= |a| && NewPos(h) + h.newLines <= |b|
    && a[i..OldPos(h)] == b[j..NewPos(h)]
    && a[OldPos(h)..OldPos(h) + h.origLines] == OldLines(h)
    && b[NewPos(h)..NewPos(h) + h.newLines] == NewSide(h.body)
  }

  /** The hunks, with consistent starts on both sides, take the rest of file a after line
      i to the rest of file b after line j. */
  ghost predicate PatchFrom(hs: seq<Hunk>, a: seq<string>, i: nat, b: seq<string>, j: nat)
    decreases |hs|
  {
    && i <= |a| && j <= |b|
    && (hs == [] ==> a[i..] == b[j..])
    && (hs != [] ==>
          && Step(hs[0], a, i, b, j)
          && PatchFrom(hs[1..], a, OldPos(hs[0]) + hs[0].origLines, b, NewPos(hs[0]) + hs[0].newLines))
  }

  /** A well-formed patch that takes file a to file b. */
  ghost predicate Patches(hs: seq<Hunk>, a: seq<string>, b: seq<string>)
  {
    PatchFrom(hs, a, 0, b, 0)
  }

  // ---------------------------------------------------------------- selecting and inverting hunks

  function InvertHunk(h: Hunk): Hunk
  {
    Hunk(h.newStart, h.newLines, 0, h.origStart, h.origLines, h.section, h.startPosition, Flip(h.body))
  }

  function InvertHunks(hs: seq<Hunk>): (r: seq<Hunk>)
    ensures |r| == |hs|
  {
    if hs == [] then [] else [InvertHunk(hs[0])] + InvertHunks(hs[1..])
  }

  /** Moves a hunk by what the hunks dropped before it would have added: on the old
      side when it is going to be inverted, on the new side otherwise. */
  function Shift(h: Hunk, dropped: int, inverting: bool): Hunk
  {
    if dropped == 0 then h
    else if inverting then h.(origStart := Int32(h.origStart + dropped))
    else h.(newStart := Int32(h.newStart - dropped))
  }

  /** The hunks marked in keep, renumbered. */
  function Select(hs: seq<Hunk>, keep: seq<bool>, dropped: int, inverting: bool): seq<Hunk>
    requires |keep| == |hs|
  {
    if hs == [] then []
    else if keep[0] then [Shift(hs[0], dropped, inverting)] + Select(hs[1..], keep[1..], dropped, inverting)
    else Select(hs[1..], keep[1..], Int32(dropped + Int32(Growth(hs[0]))), inverting)
  }

  /** The hunks marked in keep, as they are. */
  function Kept(hs: seq<Hunk>, keep: seq<bool>, mark: bool): seq<Hunk>
    requires |keep| == |hs|
  {
    if hs == [] then []
    else (if keep[0] == mark then [hs[0]] else []) + Kept(hs[1..], keep[1..], mark)
  }

  lemma Int32Exact(x: int)
    requires -0x8000_0000 <= x < 0x8000_0000
    ensures Int32(x) == x
  {
  }

  // ---------------------------------------------------------------- applying a patch yields its target

  lemma SplitSlice(a: seq<string>, i: nat, j: nat, k: nat)
    requires i <= j <= k <= |a|
    ensures a[i..k] == a[i..j] + a[j..k]
  {
  }

  lemma Reassociate(p: seq<string>, q: seq<string>, r: seq<string>, s: seq<string>)
    ensures p + q + r + s == p + (q + r + s)
  {
  }

  lemma TwoParts(b: seq<string>, j: nat, p: seq<string>, q: seq<string>)
    requires j <= |b| && b[j..] == p + q
    ensures j + |p| <= |b| && b[j..j + |p|] == p && b[j + |p|..] == q
  {
    assert b[j..j + |p|] == b[j..][..|p|];
    assert b[j + |p|..] == b[j..][|p|..];
  }

  /** Where the parts of an applied patch lie in the patched file. */
  lemma ApplyParts(hs: seq<Hunk>, a: seq<string>, i: nat, c: seq<string>, k: nat)
    requires hs != [] && Fits(hs, a, i) && k <= |c| && c[k..] == Apply(hs, a, i)
    ensures var h := hs[0];
            var p := k + OldPos(h) - i;
            && p + h.newLines <= |c|
            && c[k..p] == a[i..OldPos(h)]
            && c[p..p + h.newLines] == NewSide(h.body)
            && c[p + h.newLines..] == Apply(hs[1..], a, OldPos(h) + h.origLines)
  {
    hide OldSide, NewSide, OldLines, MarkFits, Flip;
    var h := hs[0];
    var rest := Apply(hs[1..], a, OldPos(h) + h.origLines);
    assert a[i..OldPos(h)] + NewSide(h.body) + rest == a[i..OldPos(h)] + (NewSide(h.body) + rest);
    TwoParts(c, k, a[i..OldPos(h)], NewSide(h.body) + rest);
    TwoParts(c, k + OldPos(h) - i, NewSide(h.body), rest);
  }

  /** Lines before the next hunk are untouched. */
  lemma ApplyFromEarlier(hs: seq<Hunk>, a: seq<string>, i: nat, i': nat)
    requires i <= i' && Fits(hs, a, i') && Fits(hs, a, i)
    ensures Apply(hs, a, i) == a[i..i'] + Apply(hs, a, i')
  {
    if hs == [] {
      assert a[i..|a|] == a[i..] && a[i'..|a|] == a[i'..];
      SplitSlice(a, i, i', |a|);
    } else {
      SplitSlice(a, i, i', OldPos(hs[0]));
      hide Fits, OldSide, NewSide;
      Reassociate(a[i..i'], a[i'..OldPos(hs[0])], NewSide(hs[0].body), Apply(hs[1..], a, OldPos(hs[0]) + hs[0].origLines));
    }
  }

  lemma ApplySkips(hs: seq<Hunk>, a: seq<string>, i: nat, i': nat, c: seq<string>, k: nat)
    requires i <= i' && Fits(hs, a, i') && Fits(hs, a, i) && k <= |c| && c[k..] == Apply(hs, a, i)
    ensures i' <= |a| && k + i' - i <= |c|
    ensures c[k..k + i' - i] == a[i..i']
    ensures c[k + i' - i..] == Apply(hs, a, i')
  {
    ApplyFromEarlier(hs, a, i, i');
    hide Apply, OldSide, NewSide;
    TwoParts(c, k, a[i..i'], Apply(hs, a, i'));
  }

  /** A patch from a to b can be applied to a, and applying it yields b. */
  lemma {:induction false} PatchIsApplied(hs: seq<Hunk>, a: seq<string>, i: nat, b: seq<string>, j: nat)
    requires PatchFrom(hs, a, i, b, j)
    ensures Fits(hs, a, i) && Apply(hs, a, i) == b[j..]
    decreases |hs|
  {
    hide OldSide, NewSide, OldLines, MarkFits, Flip;
    if hs != [] {
      var h := hs[0];
      var j' := NewPos(h) + h.newLines;
      PatchIsApplied(hs[1..], a, OldPos(h) + h.origLines, b, j');
      SplitSlice(b, j, NewPos(h), |b|);
      SplitSlice(b, NewPos(h), j', |b|);
      assert b[j..|b|] == b[j..] && b[j'..|b|] == b[j'..];
      assert a[i..OldPos(h)] + NewSide(h.body) + b[j'..] == b[j..NewPos(h)] + (b[NewPos(h)..j'] + b[j'..]);
    }
  }

  /** A patch with consistent starts has one target, whatever file its new starts are checked against. */
  lemma PatchTargetIsUnique(hs: seq<Hunk>, a: seq<string>, b: seq<string>, c: seq<string>)
    requires Patches(hs, a, b) && Patches(hs, a, c)
    ensures b == c
  {
    PatchIsApplied(hs, a, 0, b, 0);
    PatchIsApplied(hs, a, 0, c, 0);
    assert b[0..] == b && c[0..] == c;
  }

  /** Equal lines before the first hunk may be looked at or skipped. */
  lemma PatchFromEarlier(hs: seq<Hunk>, a: seq<string>, i: nat, i': nat, b: seq<string>, j: nat, j': nat)
    requires i <= i' && j <= j' && i' - i == j' - j && PatchFrom(hs, a, i', b, j')
    requires a[i..i'] == b[j..j']
    ensures PatchFrom(hs, a, i, b, j)
  {
    hide OldSide, NewSide, OldLines, MarkFits, Flip;
    if hs == [] {
      SplitSlice(a, i, i', |a|);
      SplitSlice(b, j, j', |b|);
      assert a[i'..|a|] == a[i'..] && b[j'..|b|] == b[j'..] && a[i..|a|] == a[i..] && b[j..|b|] == b[j..];
    } else {
      SplitSlice(a, i, i', OldPos(hs[0]));
      SplitSlice(b, j, j', NewPos(hs[0]));
    }
  }

  // ---------------------------------------------------------------- undoing and applying selected hunks

  /** Leaving out hunks leaves hunks that fit the same file. */
  lemma {:induction false} KeptFits(hs: seq<Hunk>, keep: seq<bool>, mark: bool, a: seq<string>, i: nat)
    requires |keep| == |hs| && Fits(hs, a, i)
    ensures Fits(Kept(hs, keep, mark), a, i)
    decreases |hs|
  {
    hide Fits, Kept;
    if hs == [] {
      NothingKept(keep, mark, a, i);
    } else {
      var h := hs[0];
      var i' := FirstFits(hs, a, i);
      var rest := Kept(hs[1..], keep[1..], mark);
      KeptFits(hs[1..], keep[1..], mark, a, i');
      KeptFirst(hs, keep, mark);
      if keep[0] == mark {
        AlsoFits(Kept(hs, keep, mark), a, i);
      } else {
        FitsFromEarlier(rest, a, i, i');
      }
    }
  }

  lemma NothingKept(keep: seq<bool>, mark: bool, a: seq<string>, i: nat)
    requires keep == [] && Fits([], a, i)
    ensures Fits(Kept([], keep, mark), a, i)
  {
  }

  lemma KeptFirst(hs: seq<Hunk>, keep: seq<bool>, mark: bool)
    requires |keep| == |hs| && hs != []
    ensures var kept, rest := Kept(hs, keep, mark), Kept(hs[1..], keep[1..], mark);
            if keep[0] == mark then kept != [] && kept[0] == hs[0] && kept[1..] == rest else kept == rest
  {
  }

  lemma FirstFits(hs: seq<Hunk>, a: seq<string>, i: nat) returns (i': nat)
    requires hs != [] && Fits(hs, a, i)
    ensures var h := hs[0];
            && i' == OldPos(h) + h.origLines && i <= OldPos(h) <= i' <= |a| && Counted(h)
            && a[OldPos(h)..i'] == OldLines(h) && Fits(hs[1..], a, i')
  {
    i' := OldPos(hs[0]) + hs[0].origLines;
  }

  lemma AlsoFits(hs: seq<Hunk>, a: seq<string>, i: nat)
    requires hs != [] && Counted(hs[0])
    requires var h := hs[0];
             && i <= OldPos(h) && OldPos(h) + h.origLines <= |a|
             && a[OldPos(h)..OldPos(h) + h.origLines] == OldLines(h) && Fits(hs[1..], a, OldPos(h) + h.origLines)
    ensures Fits(hs, a, i)
  {
  }

  lemma FitsFromEarlier(hs: seq<Hunk>, a: seq<string>, i: nat, j: nat)
    requires i <= j && Fits(hs, a, j)
    ensures Fits(hs, a, i)
  {
  }

  /** What file a looks like from line i on after the hunks have been applied to it and those
      marked in keep have been undone: their removed lines are back as the body has them. */
  ghost function Undone(hs: seq<Hunk>, keep: seq<bool>, a: seq<string>, i: nat): seq<string>
    requires |keep| == |hs| && Fits(hs, a, i)
    decreases |hs|
  {
    if hs == [] then a[i..]
    else
      var h := hs[0];
      a[i..OldPos(h)] + (if keep[0] then OldSide(h.body) else NewSide(h.body)) +
      Undone(hs[1..], keep[1..], a, OldPos(h) + h.origLines)
  }

  lemma UndoneFirst(hs: seq<Hunk>, keep: seq<bool>, a: seq<string>, i: nat, i': nat)
    requires |keep| == |hs| && hs != [] && Fits(hs, a, i) && i' == OldPos(hs[0]) + hs[0].origLines
    ensures i <= OldPos(hs[0]) <= |a| && Fits(hs[1..], a, i')
    ensures Undone(hs, keep, a, i) ==
            a[i..OldPos(hs[0])] + (if keep[0] then OldSide(hs[0].body) else NewSide(hs[0].body)) +
            Undone(hs[1..], keep[1..], a, i')
  {
    hide OldSide, NewSide, OldLines, MarkFits;
  }

  lemma ApplyFirst(hs: seq<Hunk>, a: seq<string>, i: nat, i': nat)
    requires hs != [] && Fits(hs, a, i) && i' == OldPos(hs[0]) + hs[0].origLines
    ensures i <= OldPos(hs[0]) <= |a| && Fits(hs[1..], a, i')
    ensures Apply(hs, a, i) == a[i..OldPos(hs[0])] + NewSide(hs[0].body) + Apply(hs[1..], a, i')
  {
    hide OldSide, NewSide, OldLines, MarkFits;
  }

  lemma UndoneParts(hs: seq<Hunk>, keep: seq<bool>, a: seq<string>, i: nat, c: seq<string>, k: nat)
    requires |keep| == |hs| && hs != [] && Fits(hs, a, i) && k <= |c| && c[k..] == Undone(hs, keep, a, i)
    ensures var h := hs[0];
            var p, side := k + OldPos(h) - i, if keep[0] then OldSide(h.body) else NewSide(h.body);
            && p + |side| <= |c|
            && c[k..p] == a[i..OldPos(h)]
            && c[p..p + |side|] == side
            && c[p + |side|..] == Undone(hs[1..], keep[1..], a, OldPos(h) + h.origLines)
  {
    hide OldSide, NewSide, OldLines, MarkFits, Fits, Undone;
    var i' := FirstFits(hs, a, i);
    var h := hs[0];
    var side := if keep[0] then OldSide(h.body) else NewSide(h.body);
    var rest := Undone(hs[1..], keep[1..], a, i');
    UndoneFirst(hs, keep, a, i, i');
    assert a[i..OldPos(h)] + side + rest == a[i..OldPos(h)] + (side + rest);
    TwoParts(c, k, a[i..OldPos(h)], side + rest);
    TwoParts(c, k + OldPos(h) - i, side, rest);
  }

  /** Undoing the kept hunks: file c is b with them undone; the kept hunks, renumbered and
      inverted, form a patch from b to c. */
  lemma {:induction false} UndoFrom(hs: seq<Hunk>, keep: seq<bool>, a: seq<string>, i: nat, b: seq<string>, j: nat,
                                    c: seq<string>, k: nat, d: int)
    requires |keep| == |hs| && PatchFrom(hs, a, i, b, j)
    requires Fits(hs, a, i) && k <= |c| && c[k..] == Undone(hs, keep, a, i)
    requires d == k - i && k <= i + j && |a| + |b| < 0x8000_0000
    ensures PatchFrom(InvertHunks(Select(hs, keep, d, true)), b, j, c, k)
    decreases |hs|
  {
    hide OldSide, NewSide, OldLines, MarkFits, Flip, Fits, Undone, Int32, PatchFrom, Select, InvertHunks;
    if hs == [] {
      NothingToUndo(keep, a, i, b, j, c, k, d);
    } else {
      var h := hs[0];
      var i', j' := OldPos(h) + h.origLines, NewPos(h) + h.newLines;
      FirstStep(hs, a, i, b, j);
      PatchIsApplied(hs[1..], a, i', b, j');
      UndoneParts(hs, keep, a, i, c, k);
      if keep[0] {
        UndoFrom(hs[1..], keep[1..], a, i', b, j', c, k + i' - i, d);
        UndoKept(hs, keep, a, i, b, j, c, k);
      } else {
        DroppedHunkInBoth(h, a, i, b, j, c, k);
        UndoFrom(hs[1..], keep[1..], a, i', b, j', c, k + j' - j, d + Growth(h));
        DropFromSelection(hs, keep, d);
        PatchFromEarlier(InvertHunks(Select(hs, keep, d, true)), b, j, j', c, k, k + j' - j);
      }
    }
  }

  lemma FirstStep(hs: seq<Hunk>, a: seq<string>, i: nat, b: seq<string>, j: nat)
    requires hs != [] && PatchFrom(hs, a, i, b, j)
    ensures i <= |a| && j <= |b| && Step(hs[0], a, i, b, j)
    ensures OldPos(hs[0]) + hs[0].origLines >= 0 && NewPos(hs[0]) + hs[0].newLines >= 0
    ensures PatchFrom(hs[1..], a, OldPos(hs[0]) + hs[0].origLines, b, NewPos(hs[0]) + hs[0].newLines)
  {
  }

  lemma DropFromSelection(hs: seq<Hunk>, keep: seq<bool>, d: int)
    requires |keep| == |hs| && hs != [] && !keep[0]
    requires -0x8000_0000 <= Growth(hs[0]) < 0x8000_0000 && -0x8000_0000 <= d + Growth(hs[0]) < 0x8000_0000
    ensures Select(hs, keep, d, true) == Select(hs[1..], keep[1..], d + Growth(hs[0]), true)
    ensures Select(hs, keep, d, false) == Select(hs[1..], keep[1..], d + Growth(hs[0]), false)
  {
    Int32Exact(Growth(hs[0]));
    Int32Exact(d + Growth(hs[0]));
  }

  lemma NothingToUndo(keep: seq<bool>, a: seq<string>, i: nat, b: seq<string>, j: nat, c: seq<string>, k: nat, d: int)
    requires keep == [] && PatchFrom([], a, i, b, j)
    requires Fits([], a, i) && k <= |c| && c[k..] == Undone([], keep, a, i)
    ensures PatchFrom(InvertHunks(Select([], keep, d, true)), b, j, c, k)
  {
  }

  lemma UndoKept(hs: seq<Hunk>, keep: seq<bool>, a: seq<string>, i: nat, b: seq<string>, j: nat, c: seq<string>, k: nat)
    requires |keep| == |hs| && hs != [] && keep[0] && Step(hs[0], a, i, b, j)
    requires k <= i + j && |a| + |b| < 0x8000_0000 && k <= |c| && j <= |b|
    requires var n := OldPos(hs[0]) + hs[0].origLines - i;
             && k + n <= |c| && c[k..k + OldPos(hs[0]) - i] == a[i..OldPos(hs[0])]
             && c[k + OldPos(hs[0]) - i..k + n] == OldSide(hs[0].body)
             && PatchFrom(InvertHunks(Select(hs[1..], keep[1..], k - i, true)), b, NewPos(hs[0]) + hs[0].newLines, c, k + n)
    ensures PatchFrom(InvertHunks(Select(hs, keep, k - i, true)), b, j, c, k)
  {
    hide Step, InvertHunk, Shift, Select, InvertHunks, PatchFrom;
    UndoStep(hs[0], a, i, b, j, c, k);
    PrependUndo(hs, keep, k - i);
    PrependStep(InvertHunks(Select(hs, keep, k - i, true)), b, j, c, k);
  }

  lemma PrependStep(hs: seq<Hunk>, a: seq<string>, i: nat, b: seq<string>, j: nat)
    requires i <= |a| && j <= |b| && hs != [] && Step(hs[0], a, i, b, j)
    requires PatchFrom(hs[1..], a, OldPos(hs[0]) + hs[0].origLines, b, NewPos(hs[0]) + hs[0].newLines)
    ensures PatchFrom(hs, a, i, b, j)
  {
  }

  lemma PrependUndo(hs: seq<Hunk>, keep: seq<bool>, d: int)
    requires |keep| == |hs| && hs != [] && keep[0]
    ensures var undo := InvertHunks(Select(hs, keep, d, true));
            undo != [] && undo[0] == InvertHunk(Shift(hs[0], d, true))
            && undo[1..] == InvertHunks(Select(hs[1..], keep[1..], d, true))
  {
    assert Select(hs, keep, d, true)[1..] == Select(hs[1..], keep[1..], d, true);
  }

  /** Where a hunk has not been applied, the lines it covers are those of the old file. */
  lemma UnappliedHunk(hs: seq<Hunk>, keep: seq<bool>, mark: bool, a: seq<string>, i: nat, c: seq<string>, k: nat)
    requires |keep| == |hs| && hs != [] && keep[0] != mark && Fits(hs, a, i)
    requires Fits(Kept(hs, keep, mark), a, i) && k <= |c| && c[k..] == Apply(Kept(hs, keep, mark), a, i)
    ensures var i' := OldPos(hs[0]) + hs[0].origLines;
            var rest := Kept(hs[1..], keep[1..], mark);
            && k + i' - i <= |c| && c[k..k + i' - i] == a[i..i']
            && Fits(rest, a, i') && c[k + i' - i..] == Apply(rest, a, i')
  {
    hide OldSide, NewSide, OldLines, MarkFits, Flip;
    var i' := OldPos(hs[0]) + hs[0].origLines;
    var rest := Kept(hs[1..], keep[1..], mark);
    KeptFits(hs[1..], keep[1..], mark, a, i');
    assert Kept(hs, keep, mark) == rest;
    ApplySkips(rest, a, i, i', c, k);
  }

  /** Where a hunk has been applied, the lines it covers are followed by its new side. */
  lemma AppliedHunk(hs: seq<Hunk>, keep: seq<bool>, mark: bool, a: seq<string>, i: nat, c: seq<string>, k: nat)
    requires |keep| == |hs| && hs != [] && keep[0] == mark && Fits(hs, a, i)
    requires Fits(Kept(hs, keep, mark), a, i) && k <= |c| && c[k..] == Apply(Kept(hs, keep, mark), a, i)
    ensures var h := hs[0];
            var i', p := OldPos(h) + h.origLines, k + OldPos(h) - i;
            var rest := Kept(hs[1..], keep[1..], mark);
            && p + h.newLines <= |c| && c[k..p] == a[i..OldPos(h)] && c[p..p + h.newLines] == NewSide(h.body)
            && Fits(rest, a, i') && c[p + h.newLines..] == Apply(rest, a, i')
  {
    hide OldSide, NewSide, OldLines, MarkFits, Flip;
    assert Kept(hs, keep, mark)[0] == hs[0] && Kept(hs, keep, mark)[1..] == Kept(hs[1..], keep[1..], mark);
    ApplyParts(Kept(hs, keep, mark), a, i, c, k);
  }

  /** The lines a dropped hunk covers are the same in both files it has been applied to. */
  lemma DroppedHunkInBoth(h: Hunk, a: seq<string>, i: nat, b: seq<string>, j: nat, c: seq<string>, k: nat)
    requires Step(h, a, i, b, j)
    requires var p := k + OldPos(h) - i;
             p + h.newLines <= |c| && c[k..p] == a[i..OldPos(h)] && c[p..p + h.newLines] == NewSide(h.body)
    ensures var n := NewPos(h) + h.newLines - j;
            c[k..k + n] == b[j..j + n]
  {
    hide OldSide, NewSide, OldLines, MarkFits, Flip;
    SplitSlice(b, j, NewPos(h), NewPos(h) + h.newLines);
    SplitSlice(c, k, k + OldPos(h) - i, k + OldPos(h) - i + h.newLines);
  }

  /** Where a hunk is after it has been moved and inverted. */
  lemma UndoneAt(h: Hunk, dropped: int)
    requires Counted(h) && Int32(h.origStart + dropped) == h.origStart + dropped
    ensures var g := InvertHunk(Shift(h, dropped, true));
            && OldPos(g) == NewPos(h) && NewPos(g) == OldPos(h) + dropped
            && g.origLines == h.newLines && g.newLines == h.origLines && g.body == Flip(h.body)
            && g.origNoNewlineAt == 0
  {
    hide Int32, Flip;
  }

  lemma UndoStep(h: Hunk, a: seq<string>, i: nat, b: seq<string>, j: nat, c: seq<string>, k: nat)
    requires Step(h, a, i, b, j)
    requires k <= i + j && |a| + |b| < 0x8000_0000
    requires var n := OldPos(h) + h.origLines - i;
             && k + n <= |c| && c[k..k + OldPos(h) - i] == a[i..OldPos(h)]
             && c[k + OldPos(h) - i..k + n] == OldSide(h.body)
    ensures var g := InvertHunk(Shift(h, k - i, true));
            && Step(g, b, j, c, k)
            && OldPos(g) == NewPos(h) && NewPos(g) == OldPos(h) + k - i
            && g.origLines == h.newLines && g.newLines == h.origLines
  {
    hide OldSide, NewSide, Flip;
    Int32Exact(h.origStart + (k - i));
    FlipExchangesSides(h.body);
    UndoneAt(h, k - i);
    hide Int32, InvertHunk, Shift, OldPos, NewPos;
  }

  /** Applying the kept hunks: file c is a with only the kept hunks applied; renumbered,
      they form a patch from a to c. */
  lemma {:induction false} ApplyFrom(hs: seq<Hunk>, keep: seq<bool>, a: seq<string>, i: nat, b: seq<string>, j: nat,
                                     c: seq<string>, k: nat, d: int)
    requires |keep| == |hs| && PatchFrom(hs, a, i, b, j)
    requires Fits(Kept(hs, keep, true), a, i) && k <= |c| && c[k..] == Apply(Kept(hs, keep, true), a, i)
    requires d == j - k && k <= i + j && |a| + |b| < 0x8000_0000
    ensures PatchFrom(Select(hs, keep, d, false), a, i, c, k)
    decreases |hs|
  {
    hide OldSide, NewSide, Flip, Fits, Apply, Kept, Int32, PatchFrom, Select;
    PatchIsApplied(hs, a, i, b, j);
    if hs == [] {
      NothingToApply(keep, a, i, c, k, d);
    } else {
      var h := hs[0];
      var i', j' := OldPos(h) + h.origLines, NewPos(h) + h.newLines;
      FirstStep(hs, a, i, b, j);
      if keep[0] {
        AppliedHunk(hs, keep, true, a, i, c, k);
        ApplyFrom(hs[1..], keep[1..], a, i', b, j', c, k + j' - j, d);
        ApplyKept(hs, keep, a, i, b, j, c, k, d);
      } else {
        UnappliedHunk(hs, keep, true, a, i, c, k);
        ApplyFrom(hs[1..], keep[1..], a, i', b, j', c, k + i' - i, d + Growth(h));
        DropFromSelection(hs, keep, d);
        PatchFromEarlier(Select(hs, keep, d, false), a, i, i', c, k, k + i' - i);
      }
    }
  }

  lemma ApplyKept(hs: seq<Hunk>, keep: seq<bool>, a: seq<string>, i: nat, b: seq<string>, j: nat,
                  c: seq<string>, k: nat, d: int)
    requires |keep| == |hs| && hs != [] && keep[0] && Step(hs[0], a, i, b, j)
    requires d == j - k && k <= i + j && |a| + |b| < 0x8000_0000 && i <= |a| && k <= |c|
    requires var h := hs[0];
             var p := k + OldPos(h) - i;
             && p + h.newLines <= |c| && c[k..p] == a[i..OldPos(h)] && c[p..p + h.newLines] == NewSide(h.body)
             && PatchFrom(Select(hs[1..], keep[1..], d, false), a, OldPos(h) + h.origLines, c, p + h.newLines)
    ensures PatchFrom(Select(hs, keep, d, false), a, i, c, k)
  {
    hide OldSide, NewSide, Flip, PatchFrom;
    Int32Exact(hs[0].newStart - d);
    var selected := Select(hs, keep, d, false);
    assert selected[0] == Shift(hs[0], d, false) && selected[1..] == Select(hs[1..], keep[1..], d, false);
    PrependStep(selected, a, i, c, k);
  }

  lemma NothingToApply(keep: seq<bool>, a: seq<string>, i: nat, c: seq<string>, k: nat, d: int)
    requires keep == []
    requires Fits(Kept([], keep, true), a, i) && k <= |c| && c[k..] == Apply(Kept([], keep, true), a, i)
    ensures PatchFrom(Select([], keep, d, false), a, i, c, k)
  {
  }

  // ---------------------------------------------------------------- applying hunks one at a time

  /** The hunk fits file f where it is looked for first: at its new start. */
  ghost predicate FitsAlone(h: Hunk, f: seq<string>)
  {
    && Counted(h) && 0 <= NewPos(h) && NewPos(h) + h.origLines <= |f|
    && f[NewPos(h)..NewPos(h) + h.origLines] == OldLines(h)
  }

  /** File f after one hunk has been applied there. */
  ghost function Alone(h: Hunk, f: seq<string>): seq<string>
    requires FitsAlone(h, f)
  {
    f[..NewPos(h)] + NewSide(h.body) + f[NewPos(h) + h.origLines..]
  }

  /** Every hunk fits the file that the hunks before it have left. */
  ghost predicate FitInTurn(hs: seq<Hunk>, f: seq<string>)
    decreases |hs|
  {
    hs == [] || (FitsAlone(hs[0], f) && FitInTurn(hs[1..], Alone(hs[0], f)))
  }

  ghost function OneByOne(hs: seq<Hunk>, f: seq<string>): seq<string>
    requires FitInTurn(hs, f)
    decreases |hs|
  {
    if hs == [] then f else OneByOne(hs[1..], Alone(hs[0], f))
  }

  lemma StepAlone(h: Hunk, a: seq<string>, i: nat, b: seq<string>, j: nat)
    requires i <= |a| && j <= |b| && Step(h, a, i, b, j)
    ensures FitsAlone(h, b[..j] + a[i..])
    ensures Alone(h, b[..j] + a[i..]) == b[..NewPos(h) + h.newLines] + a[OldPos(h) + h.origLines..]
  {
    hide OldSide, NewSide, OldLines, MarkFits, OldPos, NewPos;
    var p, q := OldPos(h), NewPos(h);
    var f := b[..j] + a[i..];
    assert f[q..q + h.origLines] == a[p..p + h.origLines];
    assert f[..q] == b[..j] + a[i..p] == b[..j] + b[j..q] == b[..q];
    assert f[q + h.origLines..] == a[p + h.origLines..];
    assert b[..q + h.newLines] == b[..q] + b[q..q + h.newLines];
  }

  /** Half-way through a patch the first lines are those of file b and the others those of file a.
      Applied one after the other, each at its new start, the hunks fit and lead to file b. */
  lemma {:induction false} AppliedOneByOne(hs: seq<Hunk>, a: seq<string>, i: nat, b: seq<string>, j: nat)
    requires PatchFrom(hs, a, i, b, j)
    ensures FitInTurn(hs, b[..j] + a[i..]) && OneByOne(hs, b[..j] + a[i..]) == b
    decreases |hs|
  {
    hide OldSide, NewSide, OldLines, MarkFits, FitsAlone, Alone;
    if hs == [] {
      assert b[..j] + b[j..] == b;
    } else {
      var h := hs[0];
      FirstStep(hs, a, i, b, j);
      StepAlone(h, a, i, b, j);
      AppliedOneByOne(hs[1..], a, OldPos(h) + h.origLines, b, NewPos(h) + h.newLines);
    }
  }

  lemma PatchOneByOne(hs: seq<Hunk>, a: seq<string>, b: seq<string>)
    requires Patches(hs, a, b)
    ensures FitInTurn(hs, a) && OneByOne(hs, a) == b
  {
    AppliedOneByOne(hs, a, 0, b, 0);
    assert b[..0] + a[0..] == a;
  }

  // ---------------------------------------------------------------- the two theorems, and two special cases

  /** File a with only some hunks of a patch applied. */
  ghost function Partly(hs: seq<Hunk>, keep: seq<bool>, mark: bool, a: seq<string>, b: seq<string>): (c: seq<string>)
    requires |keep| == |hs| && Patches(hs, a, b)
  {
    PatchIsApplied(hs, a, 0, b, 0);
    KeptFits(hs, keep, mark, a, 0);
    Apply(Kept(hs, keep, mark), a, 0)
  }

  /** File b with some hunks of a patch undone. */
  ghost function Undoing(hs: seq<Hunk>, keep: seq<bool>, a: seq<string>, b: seq<string>): (c: seq<string>)
    requires |keep| == |hs| && Patches(hs, a, b)
  {
    PatchIsApplied(hs, a, 0, b, 0);
    Undone(hs, keep, a, 0)
  }

  /** Some chosen hunk says that the old file ends without a newline. */
  predicate MarkChosen(hs: seq<Hunk>, keep: seq<bool>)
    requires |keep| == |hs|
  {
    hs != [] && ((keep[0] && hs[0].origNoNewlineAt != 0) || MarkChosen(hs[1..], keep[1..]))
  }

  lemma SameStart(p: seq<string>, q: seq<string>, x: seq<string>, y: seq<string>)
    requires |p| == |q|
    ensures p + x == q + y <==> p == q && x == y
  {
    if p + x == q + y {
      assert p == (p + x)[..|p|] && x == (p + x)[|p|..];
      assert q == (q + y)[..|q|] && y == (q + y)[|q|..];
    }
  }

  /** Undoing hunks leaves file a with only the other hunks applied, unless the mark of an undone
      hunk is lost: then the last line gets a newline that it did not have. */
  lemma {:induction false} UndoneExactly(hs: seq<Hunk>, keep: seq<bool>, a: seq<string>, i: nat)
    requires |keep| == |hs| && Fits(hs, a, i) && Fits(Kept(hs, keep, false), a, i)
    ensures Undone(hs, keep, a, i) == Apply(Kept(hs, keep, false), a, i) <==> !MarkChosen(hs, keep)
    decreases |hs|
  {
    hide OldSide, NewSide, OldLines, MarkFits, Flip, Apply, Undone, Kept, Fits;
    if hs == [] {
      NothingUndone(keep, a, i);
    } else {
      var h := hs[0];
      var i' := KeptParts(hs, keep, a, i);
      UndoneExactly(hs[1..], keep[1..], a, i');
      var start, undone, other := a[i..OldPos(h)], Undone(hs[1..], keep[1..], a, i'), Apply(Kept(hs[1..], keep[1..], false), a, i');
      if keep[0] {
        SameStart(start + OldSide(h.body), start + OldLines(h), undone, other);
        SameStart(start, start, OldSide(h.body), OldLines(h));
        MarkMatters(h);
      } else {
        SameStart(start + NewSide(h.body), start + NewSide(h.body), undone, other);
      }
    }
  }

  lemma NothingUndone(keep: seq<bool>, a: seq<string>, i: nat)
    requires keep == [] && Fits([], a, i) && Fits(Kept([], keep, false), a, i)
    ensures Undone([], keep, a, i) == Apply(Kept([], keep, false), a, i) && !MarkChosen([], keep)
  {
  }

  /** The parts of both files up to the end of the first hunk. */
  lemma KeptParts(hs: seq<Hunk>, keep: seq<bool>, a: seq<string>, i: nat) returns (i': nat)
    requires |keep| == |hs| && hs != [] && Fits(hs, a, i) && Fits(Kept(hs, keep, false), a, i)
    ensures i' == OldPos(hs[0]) + hs[0].origLines && i <= OldPos(hs[0]) <= i' <= |a| && Counted(hs[0])
    ensures Fits(hs[1..], a, i') && Fits(Kept(hs[1..], keep[1..], false), a, i')
    ensures Undone(hs, keep, a, i) ==
            a[i..OldPos(hs[0])] + (if keep[0] then OldSide(hs[0].body) else NewSide(hs[0].body)) +
            Undone(hs[1..], keep[1..], a, i')
    ensures Apply(Kept(hs, keep, false), a, i) ==
            a[i..OldPos(hs[0])] + (if keep[0] then OldLines(hs[0]) else NewSide(hs[0].body)) +
            Apply(Kept(hs[1..], keep[1..], false), a, i')
  {
    hide OldSide, NewSide, OldLines, MarkFits, Kept, Fits, Undone, Apply;
    i' := FirstFits(hs, a, i);
    KeptFits(hs[1..], keep[1..], false, a, i');
    KeptFirst(hs, keep, false);
    UndoneFirst(hs, keep, a, i, i');
    if !keep[0] {
      ApplyFirst(Kept(hs, keep, false), a, i, i');
    } else {
      ApplyFromEarlier(Kept(hs[1..], keep[1..], false), a, i, i');
      SplitSlice(a, i, OldPos(hs[0]), i');
    }
  }

  lemma MarkMatters(h: Hunk)
    requires MarkFits(h)
    ensures OldLines(h) == OldSide(h.body) <==> h.origNoNewlineAt == 0
  {
    if h.origNoNewlineAt != 0 {
      MarkedOldSide(h);
    }
  }

  /** The selected hunks of a patch from a to b, inverted, are a well-formed patch from b to b
      with exactly them undone; this is a with exactly the other hunks applied if and only if
      none of them is marked. */
  lemma UndoSelected(hs: seq<Hunk>, keep: seq<bool>, a: seq<string>, b: seq<string>)
    requires |keep| == |hs| && Patches(hs, a, b) && |a| + |b| < 0x8000_0000
    ensures Patches(InvertHunks(Select(hs, keep, 0, true)), b, Undoing(hs, keep, a, b))
    ensures Undoing(hs, keep, a, b) == Partly(hs, keep, false, a, b) <==> !MarkChosen(hs, keep)
  {
    PatchIsApplied(hs, a, 0, b, 0);
    KeptFits(hs, keep, false, a, 0);
    var c := Undoing(hs, keep, a, b);
    assert c[0..] == c;
    UndoFrom(hs, keep, a, 0, b, 0, c, 0, 0);
    UndoneExactly(hs, keep, a, 0);
  }

  /** The selected hunks of a patch from a to b are a well-formed patch from a to a with
      exactly them applied. */
  lemma ApplySelected(hs: seq<Hunk>, keep: seq<bool>, a: seq<string>, b: seq<string>)
    requires |keep| == |hs| && Patches(hs, a, b) && |a| + |b| < 0x8000_0000
    ensures Patches(Select(hs, keep, 0, false), a, Partly(hs, keep, true, a, b))
  {
    PatchIsApplied(hs, a, 0, b, 0);
    KeptFits(hs, keep, true, a, 0);
    var c := Partly(hs, keep, true, a, b);
    assert c[0..] == c;
    ApplyFrom(hs, keep, a, 0, b, 0, c, 0, 0);
  }

  /** Selecting every hunk changes nothing. */
  lemma {:induction false} SelectAll(hs: seq<Hunk>, keep: seq<bool>, inverting: bool)
    requires |keep| == |hs| && forall i :: 0 <= i < |keep| ==> keep[i]
    ensures Select(hs, keep, 0, inverting) == hs
  {
    if hs != [] {
      SelectAll(hs[1..], keep[1..], inverting);
    }
  }

  predicate Unmarked(hs: seq<Hunk>)
  {
    hs == [] || (hs[0].origNoNewlineAt == 0 && Unmarked(hs[1..]))
  }

  /** Inverting a whole patch from a to b yields one from b to a exactly if no hunk is marked. */
  lemma {:induction false} InvertedPatch(hs: seq<Hunk>, a: seq<string>, i: nat, b: seq<string>, j: nat)
    requires PatchFrom(hs, a, i, b, j)
    ensures PatchFrom(InvertHunks(hs), b, j, a, i) <==> Unmarked(hs)
    decreases |hs|
  {
    hide Step, InvertHunk;
    if hs != [] {
      var h := hs[0];
      InvertedStep(h, a, i, b, j);
      InvertedPatch(hs[1..], a, OldPos(h) + h.origLines, b, NewPos(h) + h.newLines);
      assert InvertHunks(hs)[0] == InvertHunk(h) && InvertHunks(hs)[1..] == InvertHunks(hs[1..]);
    }
  }

  lemma InvertedStep(h: Hunk, a: seq<string>, i: nat, b: seq<string>, j: nat)
    requires Step(h, a, i, b, j)
    ensures var g := InvertHunk(h);
            && (Step(g, b, j, a, i) <==> h.origNoNewlineAt == 0)
            && OldPos(g) == NewPos(h) && NewPos(g) == OldPos(h)
            && g.origLines == h.newLines && g.newLines == h.origLines
    ensures OldPos(h) + h.origLines >= 0 && NewPos(h) + h.newLines >= 0
  {
    FlipExchangesSides(h.body);
    MarkMatters(h);
    hide OldSide, NewSide, Flip;
  }

  lemma InvertHunkTwice(h: Hunk)
    ensures InvertHunk(InvertHunk(h)) == h <==> h.origNoNewlineAt == 0
  {
    FlipTwice(h.body);
  }

  /** A hunk that changes the last line of a file and gives it a newline. */
  lemma MarkedChange() returns (h: Hunk)
    ensures h == Hunk(1, 1, 3, 1, 1, "", 0, "-x\n+y\n") && Counted(h)
    ensures OldSide(h.body) == ["x\n"] && NewSide(h.body) == ["y\n"] && OldLines(h) == ["x"]
  {
    h := Hunk(1, 1, 3, 1, 1, "", 0, "-x\n+y\n");
    var lines := ["-x\n", "+y\n"];
    SidesOfChange();
    hide Side, LinesOf;
    assert Join(lines) == h.body by {
      assert lines[1..] == ["+y\n"] && lines[1..][1..] == [];
    }
    LinesUnique(lines);
    assert MarkedAfter(lines, 1, 3) by {
      assert lines[..1] == ["-x\n"] && Join(["-x\n"]) == "-x\n";
    }
    assert "x\n"[..1] == "x";
  }

  lemma SidesOfChange()
    ensures NoneEmpty(["-x\n", "+y\n"])
    ensures Side(["-x\n", "+y\n"], '+') == ["x\n"] && Side(["-x\n", "+y\n"], '-') == ["y\n"]
  {
    var lines := ["-x\n", "+y\n"];
    assert lines[1..] == ["+y\n"] && lines[1..][1..] == [];
    assert lines[0][1..] == "x\n" && lines[1][1..] == "y\n";
  }

  /** The mark of an undone hunk is lost: undoing the change of a last line that had no newline
      leaves it with one. */
  lemma MarkIsLost() returns (h: Hunk, a: seq<string>, b: seq<string>)
    ensures Patches([h], a, b)
    ensures a == ["x"] == Partly([h], [true], false, a, b) && Undoing([h], [true], a, b) == ["x\n"]
  {
    h := MarkedChange();
    a, b := ["x"], ["y\n"];
    MarkedPatch(h, a, b);
    hide OldSide, NewSide, OldLines, MarkFits, Flip, Step, PatchFrom;
    PatchIsApplied([h], a, 0, b, 0);
    assert [h][1..] == [] && [true][1..] == [] && a[0..0] == [] && a[1..] == [] && a[0..] == a;
    assert Undone([], [], a, 1) == [];
    assert Kept([h], [true], false) == [];
  }

  lemma MarkedPatch(h: Hunk, a: seq<string>, b: seq<string>)
    requires h == Hunk(1, 1, 3, 1, 1, "", 0, h.body) && Counted(h) && |a| == |b| == 1
    requires OldLines(h) == a && NewSide(h.body) == b
    ensures Patches([h], a, b)
  {
    hide OldSide, NewSide, OldLines, MarkFits;
    assert [h][1..] == [] && a[0..0] == b[0..0] && a[0..1] == a && b[0..1] == b && a[1..] == b[1..];
    assert Step(h, a, 0, b, 0);
    PrependStep([h], a, 0, b, 0);
  }
}
