/** The order of the runs in the scripts the search follows: between two kept runs at
    most one run is added and at most one removed, and the added one comes first. */
module ScriptOrder {
  import opened EditGraph
  import opened EditScript

  /** Neighbouring runs differ in kind, and no removed run is directly before an added one. */
  ghost predicate Tidy(runs: seq<Run>)
  {
    forall i :: 0 <= i < |runs| - 1 ==>
      runs[i].kind != runs[i + 1].kind && !(runs[i].kind.Removed? && runs[i + 1].kind.Added?)
  }

  /** Only a script that no shortest script begins with may be out of order. */
  ghost predicate TidyIfShortest<T>(runs: seq<Run>, xs: seq<T>, ys: seq<T>)
  {
    OnShortest(runs, xs, ys) ==> Tidy(runs)
  }

  ghost predicate EndsRemoved(runs: seq<Run>)
  {
    runs != [] && runs[|runs| - 1].kind.Removed?
  }

  /** Some live script got further than the script on diagonal j, or is about to: right
      after diagonal j itself, the script its removal was taken from is still live. */
  ghost predicate Overtaken(paths: map<int, seq<Run>>, j: int, k: int)
    requires j in paths
  {
    if j == k - 2 then k - 1 in paths && NewEnd(paths[k - 1]) == NewEnd(paths[j])
    else j + 2 in paths && NewEnd(paths[j]) < NewEnd(paths[j + 2])
  }

  /** Before diagonal k of a round: a script that ends with a removal and could be
      extended by an addition is overtaken. */
  ghost predicate Backed(paths: map<int, seq<Run>>, k: int, newLen: nat)
  {
    && k - 3 !in paths
    && forall j :: j in paths && EndsRemoved(paths[j]) && NewEnd(paths[j]) < newLen ==> Overtaken(paths, j, k)
  }

  ghost predicate KeepsOrder<T>(paths: map<int, seq<Run>>, k: int, xs: seq<T>, ys: seq<T>)
  {
    && Backed(paths, k, |xs|)
    && forall j :: j in paths ==> TidyIfShortest(paths[j], xs, ys)
  }

  lemma PushEditKeepsTidy(runs: seq<Run>, kind: Kind)
    requires Tidy(runs) && !(EndsRemoved(runs) && kind.Added?)
    ensures Tidy(PushEdit(runs, kind))
  {
  }

  /** One more edit cannot bring a script back onto a shortest one. */
  lemma EditKeepsTidy<T>(runs: seq<Run>, kind: Kind, xs: seq<T>, ys: seq<T>)
    requires Script(runs, xs, ys) && !kind.Same? && TidyIfShortest(runs, xs, ys)
    requires kind.Added? ==> NewEnd(runs) < |xs|
    requires kind.Removed? ==> OldEnd(runs) < |ys|
    requires EndsRemoved(runs) && kind.Added? ==> !OnShortest(PushEdit(runs, kind), xs, ys)
    ensures TidyIfShortest(PushEdit(runs, kind), xs, ys)
  {
    hide Script, NewEnd, OldEnd, Edits, PushEdit, Left, Distance, Tidy;
    PushEditExtends(runs, kind, xs, ys);
    LeftFacts(xs, ys, NewEnd(runs), OldEnd(runs));
    if OnShortest(PushEdit(runs, kind), xs, ys) {
      PushEditKeepsTidy(runs, kind);
    }
  }

  lemma PushSameKeepsTidy(runs: seq<Run>, n: nat)
    requires Tidy(runs) && (runs == [] || !runs[|runs| - 1].kind.Same?)
    ensures Tidy(PushSame(runs, n))
  {
  }

  /** Nor do matches. */
  lemma MatchesKeepTidy<T>(branch: seq<Run>, script: seq<Run>, k: int, xs: seq<T>, ys: seq<T>)
    requires Followed(branch, script, k, xs, ys)
    requires TidyIfShortest(branch, xs, ys) && (branch == [] || !branch[|branch| - 1].kind.Same?)
    ensures TidyIfShortest(script, xs, ys)
  {
    hide NewEnd, OldEnd, Edits, Left, Distance, Tidy;
    var n := NewEnd(script) - NewEnd(branch);
    if n > 0 {
      var run := Run(n, Same);
      assert script[..|script| - 1] == branch && script[|script| - 1] == run;
      assert Fits(run, NewEnd(branch), OldEnd(branch), xs, ys);
      RunCost(xs, ys, NewEnd(branch), OldEnd(branch), run);
    }
    if OnShortest(script, xs, ys) {
      PushSameKeepsTidy(branch, n);
    }
  }

  /** Two sequences are at least as far apart as their lengths. */
  lemma LeftAtLeast<T>(xs: seq<T>, ys: seq<T>, a: int, b: int)
    requires 0 <= a <= |xs| && 0 <= b <= |ys|
    ensures (|xs| - a) - (|ys| - b) <= Left(xs, ys, a, b)
    ensures b == |ys| ==> Left(xs, ys, a, b) == |xs| - a
  {
    LcsShort(xs[a..], ys[b..]);
  }

  /** An addition after a removal is only made when the neighbour above has used up
      the old tokens, and then that neighbour ends with two edits less. */
  lemma LateAddIsNotShortest<T>(paths: map<int, seq<Run>>, k: int, d: int, xs: seq<T>, ys: seq<T>)
    requires forall j :: j in paths && j >= k - 1 ==> Tracked(paths[j], j, d, xs, ys)
    requires CanAdd(paths, k, |xs|) && !ChoosesRemove(paths, k, |xs|, |ys|)
    requires k + 1 in paths && NewEnd(paths[k - 1]) < NewEnd(paths[k + 1])
    ensures !OnShortest(PushEdit(paths[k - 1], Added), xs, ys)
  {
    hide Script, NewEnd, OldEnd, Edits, PushEdit, Left, Distance;
    var above := paths[k + 1];
    assert OldEnd(above) == |ys|;
    ScriptCostsAtLeastDistance(above, xs, ys);
    LeftAtLeast(xs, ys, NewEnd(above), OldEnd(above));
    var late := PushEdit(paths[k - 1], Added);
    PushEditExtends(paths[k - 1], Added, xs, ys);
    LeftAtLeast(xs, ys, NewEnd(late), OldEnd(late));
  }

  lemma EndOfPushEdit(runs: seq<Run>, kind: Kind)
    ensures PushEdit(runs, kind) != [] && PushEdit(runs, kind)[|PushEdit(runs, kind)| - 1].kind == kind
  {
  }

  lemma BranchKeepsOrder<T>(paths: map<int, seq<Run>>, k: int, d: nat, xs: seq<T>, ys: seq<T>)
    requires d >= 1 && MidRound(paths, k, d, xs, ys) && KeepsOrder(paths, k, xs, ys)
    requires Branch(paths, k, |xs|, |ys|).Some?
    ensures TidyIfShortest(Branch(paths, k, |xs|, |ys|).value, xs, ys)
  {
    hide Script, NewEnd, OldEnd, Edits, PushEdit, Left, Distance, Tidy, OnShortest, TidyIfShortest;
    if ChoosesRemove(paths, k, |xs|, |ys|) {
      EditKeepsTidy(paths[k + 1], Removed, xs, ys);
    } else {
      if EndsRemoved(paths[k - 1]) {
        LateAddIsNotShortest(paths, k, d - 1, xs, ys);
      }
      EditKeepsTidy(paths[k - 1], Added, xs, ys);
    }
  }

  /** A script that ends with a removal was taken, without matches, from the neighbour above. */
  lemma RemovalIsBacked<T>(paths: map<int, seq<Run>>, script: seq<Run>, k: int, d: nat, xs: seq<T>, ys: seq<T>)
    requires d >= 1 && MidRound(paths, k, d, xs, ys)
    requires Branch(paths, k, |xs|, |ys|).Some?
    requires Followed(Branch(paths, k, |xs|, |ys|).value, script, k, xs, ys)
    requires EndsRemoved(script)
    ensures k + 1 in paths && NewEnd(paths[k + 1]) == NewEnd(script)
  {
    hide Script, NewEnd, OldEnd, Edits, PushEdit, Left, Distance, OnShortest;
    if ChoosesRemove(paths, k, |xs|, |ys|) {
      PushEditExtends(paths[k + 1], Removed, xs, ys);
      EndOfPushEdit(paths[k + 1], Removed);
    } else {
      EndOfPushEdit(paths[k - 1], Added);
    }
  }

  lemma StepKeepsOrder<T>(before: map<int, seq<Run>>, script: seq<Run>, k: int, d: nat, xs: seq<T>, ys: seq<T>)
    requires d >= 1 && MidRound(before, k, d, xs, ys) && KeepsOrder(before, k, xs, ys)
    requires Branch(before, k, |xs|, |ys|).Some? ==>
               Followed(Branch(before, k, |xs|, |ys|).value, script, k, xs, ys)
    ensures Branch(before, k, |xs|, |ys|).Some? ==> TidyIfShortest(script, xs, ys)
    ensures KeepsOrder(Explored(before, k, script, |xs|, |ys|), k + 2, xs, ys)
  {
    hide Script, NewEnd, OldEnd, Edits, PushEdit, Left, Distance, Tidy, OnShortest, TidyIfShortest;
    if Branch(before, k, |xs|, |ys|).Some? {
      BranchKeepsOrder(before, k, d, xs, ys);
      EndOfBranch(before, k, |xs|, |ys|);
      MatchesKeepTidy(Branch(before, k, |xs|, |ys|).value, script, k, xs, ys);
    }
    StepKeepsBacked(before, script, k, d, xs, ys);
  }

  lemma EndOfBranch(paths: map<int, seq<Run>>, k: int, newLen: nat, oldLen: nat)
    requires Branch(paths, k, newLen, oldLen).Some?
    ensures var r := Branch(paths, k, newLen, oldLen).value; r != [] && !r[|r| - 1].kind.Same?
  {
  }

  /** The script a removal was taken from still stands one below, and the branch extends it. */
  lemma RemovalIsPassed<T>(before: map<int, seq<Run>>, script: seq<Run>, k: int, d: nat, xs: seq<T>, ys: seq<T>)
    requires d >= 1 && MidRound(before, k, d, xs, ys) && Backed(before, k, |xs|)
    requires k - 2 in before && EndsRemoved(before[k - 2]) && NewEnd(before[k - 2]) < |xs|
    requires Branch(before, k, |xs|, |ys|).Some? ==>
               Followed(Branch(before, k, |xs|, |ys|).value, script, k, xs, ys)
    ensures Branch(before, k, |xs|, |ys|).Some? && NewEnd(before[k - 2]) < NewEnd(script)
  {
    hide Script, NewEnd, OldEnd, Edits, PushEdit, Left, Distance, OnShortest;
    assert CanAdd(before, k, |xs|);
    BranchIsFurthest(before, k, d - 1, xs, ys);
  }

  lemma StepKeepsBacked<T>(before: map<int, seq<Run>>, script: seq<Run>, k: int, d: nat, xs: seq<T>, ys: seq<T>)
    requires d >= 1 && MidRound(before, k, d, xs, ys) && Backed(before, k, |xs|)
    requires Branch(before, k, |xs|, |ys|).Some? ==>
               Followed(Branch(before, k, |xs|, |ys|).value, script, k, xs, ys)
    ensures Backed(Explored(before, k, script, |xs|, |ys|), k + 2, |xs|)
  {
    hide Followed, Branch, MidRound;
    var after := Explored(before, k, script, |xs|, |ys|);
    forall j | j in after && EndsRemoved(after[j]) && NewEnd(after[j]) < |xs|
      ensures Overtaken(after, j, k + 2)
    {
      if j == k {
        RemovalIsBacked(before, script, k, d, xs, ys);
      } else if j == k - 2 {
        RemovalIsPassed(before, script, k, d, xs, ys);
      }
    }
  }

  lemma ShortestIsTidy<T>(script: seq<Run>, xs: seq<T>, ys: seq<T>)
    requires Shortest(script, xs, ys) && TidyIfShortest(script, xs, ys)
    ensures Tidy(script)
  {
    hide Script, NewEnd, OldEnd, Edits, Distance, Tidy;
    LeftAtLeast(xs, ys, |xs|, |ys|);
  }

  lemma RoundEndsInOrder<T>(paths: map<int, seq<Run>>, d: nat, xs: seq<T>, ys: seq<T>)
    requires MidRound(paths, Diagonal(d, d + 1), d, xs, ys) && KeepsOrder(paths, Diagonal(d, d + 1), xs, ys)
    ensures KeepsOrder(paths, Diagonal(d + 1, 0), xs, ys)
  {
    hide Tracked, TidyIfShortest, NewEnd;
  }

  lemma SeedKeepsOrder<T>(script: seq<Run>, paths: map<int, seq<Run>>, xs: seq<T>, ys: seq<T>)
    requires Followed([], script, 0, xs, ys) && paths == map[0 := script]
    ensures KeepsOrder(paths, Diagonal(1, 0), xs, ys)
  {
    assert Tidy([]);
    MatchesKeepTidy([], script, 0, xs, ys);
  }
}
