/** Edit scripts: runs of kept, added and removed tokens that lead from an old
    token sequence to a new one, and the choice the search makes between them. */
module EditScript {
  import opened EditGraph
  import opened Wrappers

  datatype Kind = Same | Added | Removed

  datatype Run = Run(count: nat, kind: Kind)

  /** How many new tokens the runs have produced. */
  function NewEnd(runs: seq<Run>): nat
  {
    if runs == [] then 0
    else NewEnd(runs[..|runs| - 1]) + if runs[|runs| - 1].kind.Removed? then 0 else runs[|runs| - 1].count
  }

  /** How many old tokens the runs have consumed. */
  function OldEnd(runs: seq<Run>): nat
  {
    if runs == [] then 0
    else OldEnd(runs[..|runs| - 1]) + if runs[|runs| - 1].kind.Added? then 0 else runs[|runs| - 1].count
  }

  /** How many tokens the runs add or remove. */
  function Edits(runs: seq<Run>): nat
  {
    if runs == [] then 0
    else Edits(runs[..|runs| - 1]) + if runs[|runs| - 1].kind.Same? then 0 else runs[|runs| - 1].count
  }

  /** From the point (a, b) on, n tokens of both sides are equal. */
  ghost predicate Match<T>(xs: seq<T>, ys: seq<T>, a: int, b: int, n: nat)
    requires 0 <= a && a + n <= |xs| && 0 <= b && b + n <= |ys|
  {
    forall i :: a <= i < a + n ==> xs[i] == ys[i - a + b]
  }

  /** A run that starts where a new and b old tokens are consumed stays inside the
      grid of xs (new) and ys (old), and keeps only equal tokens. */
  ghost predicate Fits<T>(run: Run, a: nat, b: nat, xs: seq<T>, ys: seq<T>)
  {
    && run.count > 0
    && (!run.kind.Removed? ==> a + run.count <= |xs|)
    && (!run.kind.Added? ==> b + run.count <= |ys|)
    && (run.kind.Same? ==> Match(xs, ys, a, b, run.count))
  }

  ghost predicate Script<T>(runs: seq<Run>, xs: seq<T>, ys: seq<T>)
    ensures Script(runs, xs, ys) ==> NewEnd(runs) <= |xs| && OldEnd(runs) <= |ys|
  {
    runs == [] ||
    var init := runs[..|runs| - 1];
    Script(init, xs, ys) && Fits(runs[|runs| - 1], NewEnd(init), OldEnd(init), xs, ys)
  }

  lemma Snoc(init: seq<Run>, last: Run)
    ensures NewEnd(init + [last]) == NewEnd(init) + if last.kind.Removed? then 0 else last.count
    ensures OldEnd(init + [last]) == OldEnd(init) + if last.kind.Added? then 0 else last.count
    ensures Edits(init + [last]) == Edits(init) + if last.kind.Same? then 0 else last.count
  {
    assert (init + [last])[..|init|] == init;
  }

  lemma ScriptSnoc<T>(init: seq<Run>, last: Run, xs: seq<T>, ys: seq<T>)
    requires Script(init, xs, ys) && Fits(last, NewEnd(init), OldEnd(init), xs, ys)
    ensures Script(init + [last], xs, ys)
    ensures NewEnd(init + [last]) == NewEnd(init) + if last.kind.Removed? then 0 else last.count
    ensures OldEnd(init + [last]) == OldEnd(init) + if last.kind.Added? then 0 else last.count
    ensures Edits(init + [last]) == Edits(init) + if last.kind.Same? then 0 else last.count
  {
    assert (init + [last])[..|init|] == init;
    Snoc(init, last);
  }

  /** One more added or removed token: it extends a last run of its own kind. */
  function PushEdit(runs: seq<Run>, kind: Kind): seq<Run>
  {
    if runs != [] && runs[|runs| - 1].kind == kind
    then runs[..|runs| - 1] + [Run(runs[|runs| - 1].count + 1, kind)]
    else runs + [Run(1, kind)]
  }

  lemma PushEditExtends<T>(runs: seq<Run>, kind: Kind, xs: seq<T>, ys: seq<T>)
    requires Script(runs, xs, ys) && !kind.Same?
    requires kind.Added? ==> NewEnd(runs) < |xs|
    requires kind.Removed? ==> OldEnd(runs) < |ys|
    ensures Script(PushEdit(runs, kind), xs, ys)
    ensures NewEnd(PushEdit(runs, kind)) == NewEnd(runs) + if kind.Added? then 1 else 0
    ensures OldEnd(PushEdit(runs, kind)) == OldEnd(runs) + if kind.Removed? then 1 else 0
    ensures Edits(PushEdit(runs, kind)) == Edits(runs) + 1
  {
    if runs != [] && runs[|runs| - 1].kind == kind {
      ScriptSnoc(runs[..|runs| - 1], Run(runs[|runs| - 1].count + 1, kind), xs, ys);
    } else {
      ScriptSnoc(runs, Run(1, kind), xs, ys);
    }
  }

  /** A script cannot spend less than the distance it has covered. */
  lemma {:induction false} ScriptCostsAtLeastDistance<T>(runs: seq<Run>, xs: seq<T>, ys: seq<T>)
    requires Script(runs, xs, ys)
    ensures Distance(xs, ys) <= Edits(runs) + Left(xs, ys, NewEnd(runs), OldEnd(runs))
  {
    hide Lcs, Match;
    if runs == [] {
      assert xs[0..] == xs && ys[0..] == ys;
    } else {
      var init, last := runs[..|runs| - 1], runs[|runs| - 1];
      ScriptCostsAtLeastDistance(init, xs, ys);
      RunCost(xs, ys, NewEnd(init), OldEnd(init), last);
    }
  }

  lemma {:induction false} RunCost<T>(xs: seq<T>, ys: seq<T>, a: nat, b: nat, run: Run)
    requires a <= |xs| && b <= |ys|
    requires !run.kind.Removed? ==> a + run.count <= |xs|
    requires !run.kind.Added? ==> b + run.count <= |ys|
    requires run.kind.Same? ==> Match(xs, ys, a, b, run.count)
    ensures Left(xs, ys, a, b)
         <= (if run.kind.Same? then 0 else run.count)
          + Left(xs, ys, if run.kind.Removed? then a else a + run.count, if run.kind.Added? then b else b + run.count)
    decreases run.count
  {
    hide Distance;
    if run.count > 0 {
      if run.kind.Same? {
        LeftAlongMatch(xs, ys, a, b);
      } else {
        LeftFacts(xs, ys, a, b);
      }
      var a' := if run.kind.Removed? then a else a + 1;
      var b' := if run.kind.Added? then b else b + 1;
      RunCost(xs, ys, a', b', Run(run.count - 1, run.kind));
    }
  }

  /** A script that ends on diagonal k. */
  ghost predicate Reaches<T>(runs: seq<Run>, k: int, xs: seq<T>, ys: seq<T>)
  {
    Script(runs, xs, ys) && NewEnd(runs) - OldEnd(runs) == k
  }

  /** A path the search still follows on diagonal k after d edits: it has followed
      every match it could and is not yet at the end of both sequences. */
  ghost predicate Tracked<T>(runs: seq<Run>, k: int, d: int, xs: seq<T>, ys: seq<T>)
    ensures Tracked(runs, k, d, xs, ys) ==> NewEnd(runs) <= |xs| && OldEnd(runs) <= |ys|
  {
    && Reaches(runs, k, xs, ys)
    && Edits(runs) == d
    && Stuck(xs, ys, NewEnd(runs), OldEnd(runs))
    && (NewEnd(runs) < |xs| || OldEnd(runs) < |ys|)
  }

  /** The runs are the beginning of some shortest script. */
  ghost predicate OnShortest<T>(runs: seq<Run>, xs: seq<T>, ys: seq<T>)
  {
    NewEnd(runs) <= |xs| && OldEnd(runs) <= |ys| &&
    Edits(runs) + Left(xs, ys, NewEnd(runs), OldEnd(runs)) <= Distance(xs, ys)
  }

  predicate CanAdd(paths: map<int, seq<Run>>, k: int, newLen: nat)
  {
    k - 1 in paths && NewEnd(paths[k - 1]) < newLen
  }

  predicate CanRemove(paths: map<int, seq<Run>>, k: int, oldLen: nat)
  {
    k + 1 in paths && OldEnd(paths[k + 1]) < oldLen
  }

  predicate ChoosesRemove(paths: map<int, seq<Run>>, k: int, newLen: nat, oldLen: nat)
  {
    && CanRemove(paths, k, oldLen)
    && (!CanAdd(paths, k, newLen) || NewEnd(paths[k - 1]) < NewEnd(paths[k + 1]))
  }

  /** The script with which the search reaches diagonal k from its neighbours, if any. */
  function Branch(paths: map<int, seq<Run>>, k: int, newLen: nat, oldLen: nat): Option<seq<Run>>
  {
    if ChoosesRemove(paths, k, newLen, oldLen) then Some(PushEdit(paths[k + 1], Removed))
    else if CanAdd(paths, k, newLen) then Some(PushEdit(paths[k - 1], Added))
    else None
  }

  lemma BranchReaches<T>(paths: map<int, seq<Run>>, k: int, xs: seq<T>, ys: seq<T>)
    requires k - 1 in paths ==> Reaches(paths[k - 1], k - 1, xs, ys)
    requires k + 1 in paths ==> Reaches(paths[k + 1], k + 1, xs, ys)
    requires Branch(paths, k, |xs|, |ys|).Some?
    ensures Reaches(Branch(paths, k, |xs|, |ys|).value, k, xs, ys)
  {
    if ChoosesRemove(paths, k, |xs|, |ys|) {
      PushEditExtends(paths[k + 1], Removed, xs, ys);
    } else {
      PushEditExtends(paths[k - 1], Added, xs, ys);
    }
  }

  lemma BranchIsScript<T>(paths: map<int, seq<Run>>, k: int, d: int, xs: seq<T>, ys: seq<T>)
    requires forall j :: j in paths && j >= k - 1 ==> Tracked(paths[j], j, d, xs, ys)
    requires Branch(paths, k, |xs|, |ys|).Some?
    ensures var r := Branch(paths, k, |xs|, |ys|).value;
            Reaches(r, k, xs, ys) && Edits(r) == d + 1
  {
    if ChoosesRemove(paths, k, |xs|, |ys|) {
      PushEditExtends(paths[k + 1], Removed, xs, ys);
    } else {
      PushEditExtends(paths[k - 1], Added, xs, ys);
    }
  }

  /** An edit from a tracked path that brings the end one step nearer. */
  ghost predicate Approaches<T>(runs: seq<Run>, kind: Kind, xs: seq<T>, ys: seq<T>)
  {
    var a, b := NewEnd(runs), OldEnd(runs);
    a <= |xs| && b <= |ys| &&
    match kind
    case Same => false
    case Added => a < |xs| && Left(xs, ys, a + 1, b) + 1 == Left(xs, ys, a, b)
    case Removed => b < |ys| && Left(xs, ys, a, b + 1) + 1 == Left(xs, ys, a, b)
  }

  /** When an edit towards diagonal k continues a shortest script, the branch the
      search takes there is also the beginning of a shortest script, even when it
      leaves from the other neighbour. */
  lemma BranchKeepsShortest<T>(paths: map<int, seq<Run>>, k: int, d: int, xs: seq<T>, ys: seq<T>, kind: Kind, from: int)
    requires forall j :: j in paths && j >= k - 1 ==> Tracked(paths[j], j, d, xs, ys)
    requires kind != Same && from == (if kind.Added? then k - 1 else k + 1)
    requires from in paths && Tracked(paths[from], from, d, xs, ys)
    requires OnShortest(paths[from], xs, ys) && Approaches(paths[from], kind, xs, ys)
    ensures Branch(paths, k, |xs|, |ys|).Some?
    ensures var r := Branch(paths, k, |xs|, |ys|).value;
            Script(r, xs, ys) && OnShortest(r, xs, ys)
  {
    hide Script, NewEnd, OldEnd, Edits, Distance, Left, PushEdit;
    var a := NewEnd(paths[from]) + if kind.Added? then 1 else 0;
    var r := Branch(paths, k, |xs|, |ys|).value;
    BranchIsScript(paths, k, d, xs, ys);
    BranchIsFurthest(paths, k, d, xs, ys);
    FurtherOnDiagonal(xs, ys, a, a - k, NewEnd(r), OldEnd(r), Distance(xs, ys) - Edits(r));
  }

  /** Of the two ways to reach diagonal k the search takes the one that gets further. */
  lemma BranchIsFurthest<T>(paths: map<int, seq<Run>>, k: int, d: int, xs: seq<T>, ys: seq<T>)
    requires forall j :: j in paths && j >= k - 1 ==> Tracked(paths[j], j, d, xs, ys)
    requires Branch(paths, k, |xs|, |ys|).Some?
    ensures var r := Branch(paths, k, |xs|, |ys|).value;
            && (CanAdd(paths, k, |xs|) ==> NewEnd(paths[k - 1]) + 1 <= NewEnd(r))
            && (CanRemove(paths, k, |ys|) ==> NewEnd(paths[k + 1]) <= NewEnd(r))
  {
    if ChoosesRemove(paths, k, |xs|, |ys|) {
      PushEditExtends(paths[k + 1], Removed, xs, ys);
    } else {
      PushEditExtends(paths[k - 1], Added, xs, ys);
    }
  }

  /** The script is the branch, continued by matches as far as they go. */
  ghost predicate Followed<T>(branch: seq<Run>, script: seq<Run>, k: int, xs: seq<T>, ys: seq<T>)
  {
    && Reaches(branch, k, xs, ys) && Reaches(script, k, xs, ys)
    && NewEnd(branch) <= NewEnd(script)
    && script == PushSame(branch, NewEnd(script) - NewEnd(branch))
    && Edits(script) == Edits(branch)
    && Stuck(xs, ys, NewEnd(script), OldEnd(script))
  }

  /** Following a match keeps a path on its diagonal and at its cost. */
  lemma FollowMatch<T>(runs: seq<Run>, n: nat, xs: seq<T>, ys: seq<T>)
    requires Script(runs, xs, ys)
    requires NewEnd(runs) + n <= |xs| && OldEnd(runs) + n <= |ys|
    requires Match(xs, ys, NewEnd(runs), OldEnd(runs), n)
    ensures var r := PushSame(runs, n);
            && Script(r, xs, ys)
            && NewEnd(r) == NewEnd(runs) + n && OldEnd(r) == OldEnd(runs) + n
            && Edits(r) == Edits(runs)
  {
    if n > 0 {
      var run := Run(n, Same);
      assert Fits(run, NewEnd(runs), OldEnd(runs), xs, ys);
      ScriptSnoc(runs, run, xs, ys);
    }
  }

  lemma FurtherOnDiagonal<T>(xs: seq<T>, ys: seq<T>, a: nat, b: nat, a': nat, b': nat, budget: int)
    requires a <= a' <= |xs| && b <= b' <= |ys| && a' - b' == a - b
    requires Left(xs, ys, a, b) <= budget
    ensures Left(xs, ys, a', b') <= budget
  {
    LeftDecreasesAlongDiagonal(xs, ys, a, b, a' - a);
  }

  function PushSame(runs: seq<Run>, n: nat): seq<Run>
  {
    if n == 0 then runs else runs + [Run(n, Same)]
  }

  /** A complete script with as few edits as any script can have. */
  ghost predicate Shortest<T>(runs: seq<Run>, xs: seq<T>, ys: seq<T>)
  {
    && Script(runs, xs, ys)
    && NewEnd(runs) == |xs| && OldEnd(runs) == |ys|
    && Edits(runs) == Distance(xs, ys)
  }

  lemma CompleteScriptIsShortest<T>(runs: seq<Run>, xs: seq<T>, ys: seq<T>)
    requires Script(runs, xs, ys) && NewEnd(runs) == |xs| && OldEnd(runs) == |ys|
    requires Edits(runs) <= Distance(xs, ys) || OnShortest(runs, xs, ys)
    ensures Shortest(runs, xs, ys)
  {
    ScriptCostsAtLeastDistance(runs, xs, ys);
    LeftFacts(xs, ys, |xs|, |ys|);
  }

  /** Diagonal number i of those a path can be on after d edits. */
  ghost function Diagonal(d: nat, i: nat): int { 2 * i - d }

  /** Some tracked path is the beginning of a shortest script. */
  ghost predicate SomeOnShortest<T>(paths: map<int, seq<Run>>, d: nat, xs: seq<T>, ys: seq<T>)
  {
    exists i: nat :: i <= d && Diagonal(d, i) in paths && OnShortest(paths[Diagonal(d, i)], xs, ys)
  }

  /** Between rounds: every live path is tracked at d edits, and some shortest script starts with one of them. */
  ghost predicate BetweenRounds<T>(paths: map<int, seq<Run>>, d: nat, xs: seq<T>, ys: seq<T>)
  {
    && (forall j :: j in paths ==> -(d as int) <= j <= d && Tracked(paths[j], j, d, xs, ys))
    && SomeOnShortest(paths, d, xs, ys)
  }

  /** Inside round d, before diagonal k: diagonals up to k - 2 hold scripts of d edits
      and the others still hold those of the round before. */
  ghost predicate MidRound<T>(paths: map<int, seq<Run>>, k: int, d: nat, xs: seq<T>, ys: seq<T>)
  {
    forall j :: j in paths ==>
      -(d as int) <= j <= d && Tracked(paths[j], j, if j <= k - 2 then d else d - 1, xs, ys)
  }

  ghost function Towards(from: int, kind: Kind): int
  {
    if kind.Added? then from + 1 else from - 1
  }

  /** The shortest script that the round has to continue is still ahead at diagonal
      `from`, or has been continued on the diagonal it leads to. */
  ghost predicate KeepsShortest<T>(paths: map<int, seq<Run>>, k: int, from: int, kind: Kind, xs: seq<T>, ys: seq<T>)
  {
    if k <= Towards(from, kind)
    then from in paths && OnShortest(paths[from], xs, ys) && Approaches(paths[from], kind, xs, ys)
    else Towards(from, kind) in paths && OnShortest(paths[Towards(from, kind)], xs, ys)
  }

  /** At the start of a round some tracked path has a step ahead of it that
      continues a shortest script; so the round's edits do not exceed the distance. */
  lemma AheadOfRound<T>(paths: map<int, seq<Run>>, d: nat, xs: seq<T>, ys: seq<T>) returns (from: int, kind: Kind, t: nat)
    requires BetweenRounds(paths, d, xs, ys)
    ensures MidRound(paths, Diagonal(d + 1, 0), d + 1, xs, ys)
    ensures d + 1 <= Distance(xs, ys)
    ensures kind != Same && t <= d + 1 && Towards(from, kind) == Diagonal(d + 1, t)
    ensures KeepsShortest(paths, Towards(from, kind), from, kind, xs, ys)
  {
    hide Script, NewEnd, OldEnd, Edits, Distance, Left;
    var i: nat :| i <= d && Diagonal(d, i) in paths && OnShortest(paths[Diagonal(d, i)], xs, ys);
    from := Diagonal(d, i);
    LeftFromStuckPoint(xs, ys, NewEnd(paths[from]), OldEnd(paths[from]));
    kind := if Approaches(paths[from], Added, xs, ys) then Added else Removed;
    t := if kind.Added? then i + 1 else i;
  }

  /** The live scripts after diagonal k has been pruned or reached by this script. */
  ghost function Explored(before: map<int, seq<Run>>, k: int, script: seq<Run>, newLen: nat, oldLen: nat): map<int, seq<Run>>
  {
    if Branch(before, k, newLen, oldLen).None? then before - {k - 1, k} else (before - {k - 1})[k := script]
  }

  lemma StepKeepsTracking<T>(before: map<int, seq<Run>>, script: seq<Run>, k: int, d: nat, xs: seq<T>, ys: seq<T>)
    requires d >= 1 && -(d as int) <= k <= d && MidRound(before, k, d, xs, ys)
    requires Branch(before, k, |xs|, |ys|).Some? ==>
               Followed(Branch(before, k, |xs|, |ys|).value, script, k, xs, ys)
    ensures Branch(before, k, |xs|, |ys|).Some? ==> Edits(script) == d
    ensures Branch(before, k, |xs|, |ys|).Some? && !(NewEnd(script) < |xs| || OldEnd(script) < |ys|) && d <= Distance(xs, ys) ==>
              Shortest(script, xs, ys)
    ensures (Branch(before, k, |xs|, |ys|).Some? ==> NewEnd(script) < |xs| || OldEnd(script) < |ys|) ==>
              MidRound(Explored(before, k, script, |xs|, |ys|), k + 2, d, xs, ys)
  {
    hide Script;
    var branch := Branch(before, k, |xs|, |ys|);
    if branch.Some? {
      BranchIsScript(before, k, d - 1, xs, ys);
      if !(NewEnd(script) < |xs| || OldEnd(script) < |ys|) && d <= Distance(xs, ys) {
        CompleteScriptIsShortest(script, xs, ys);
      }
    }
    if branch.Some? ==> NewEnd(script) < |xs| || OldEnd(script) < |ys| {
      var after := Explored(before, k, script, |xs|, |ys|);
      forall j | j in after
        ensures -(d as int) <= j <= d && Tracked(after[j], j, if j <= k then d else d - 1, xs, ys)
      {
        if j == k {
        } else {
          assert j in before && after[j] == before[j];
        }
      }
    }
  }

  lemma StepKeepsShortest<T>(before: map<int, seq<Run>>, script: seq<Run>, d: nat, xs: seq<T>, ys: seq<T>,
                             i: nat, from: int, kind: Kind, t: nat)
    requires i <= d && t <= d && d >= 1 && kind != Same && Towards(from, kind) == Diagonal(d, t)
    requires MidRound(before, Diagonal(d, i), d, xs, ys)
    requires KeepsShortest(before, Diagonal(d, i), from, kind, xs, ys)
    requires Branch(before, Diagonal(d, i), |xs|, |ys|).Some? ==>
               Followed(Branch(before, Diagonal(d, i), |xs|, |ys|).value, script, Diagonal(d, i), xs, ys)
    ensures KeepsShortest(Explored(before, Diagonal(d, i), script, |xs|, |ys|), Diagonal(d, i + 1), from, kind, xs, ys)
  {
    var k := Diagonal(d, i);
    if i == t {
      BranchKeepsShortest(before, k, d - 1, xs, ys, kind, from);
      var branch := Branch(before, k, |xs|, |ys|).value;
      FurtherOnDiagonal(xs, ys, NewEnd(branch), OldEnd(branch), NewEnd(script), OldEnd(script),
                        Distance(xs, ys) - Edits(script));
    }
  }

  lemma RoundEnds<T>(paths: map<int, seq<Run>>, d: nat, xs: seq<T>, ys: seq<T>, from: int, kind: Kind, t: nat)
    requires t <= d && Towards(from, kind) == Diagonal(d, t)
    requires MidRound(paths, Diagonal(d, d + 1), d, xs, ys)
    requires KeepsShortest(paths, Diagonal(d, d + 1), from, kind, xs, ys)
    ensures BetweenRounds(paths, d, xs, ys)
  {
  }

  lemma EmptyScript<T>(xs: seq<T>, ys: seq<T>)
    ensures Reaches([], 0, xs, ys) && NewEnd([]) == 0 && OldEnd([]) == 0 && Edits([]) == 0
    ensures OnShortest([], xs, ys)
  {
    assert xs[0..] == xs && ys[0..] == ys;
  }

  /** The matches both sequences start with begin a shortest script, or are one. */
  lemma SeedKeepsShortest<T>(script: seq<Run>, paths: map<int, seq<Run>>, xs: seq<T>, ys: seq<T>)
    requires Followed([], script, 0, xs, ys) && paths == map[0 := script]
    ensures Edits(script) == 0
    ensures if NewEnd(script) < |xs| || OldEnd(script) < |ys|
            then BetweenRounds(paths, 0, xs, ys)
            else Shortest(script, xs, ys)
  {
    hide Script, NewEnd, OldEnd, Edits, Distance, Left, OnShortest, SomeOnShortest, PushSame;
    SeedIsOnShortest(script, xs, ys);
    if NewEnd(script) < |xs| || OldEnd(script) < |ys| {
      OnlyPathOnShortest(script, 0, paths, xs, ys);
    } else {
      CompleteScriptIsShortest(script, xs, ys);
    }
  }

  lemma OnlyPathOnShortest<T>(script: seq<Run>, d: nat, paths: map<int, seq<Run>>, xs: seq<T>, ys: seq<T>)
    requires d == 0 && OnShortest(script, xs, ys) && 0 in paths && paths[0] == script
    ensures SomeOnShortest(paths, d, xs, ys)
  {
    hide NewEnd, OldEnd, Edits, OnShortest;
    assert Diagonal(d, 0) == 0 && OnShortest(paths[Diagonal(d, 0)], xs, ys);
  }

  lemma SeedIsOnShortest<T>(script: seq<Run>, xs: seq<T>, ys: seq<T>)
    requires Followed([], script, 0, xs, ys)
    ensures Edits(script) == 0 && OnShortest(script, xs, ys)
    ensures NewEnd(script) <= |xs| && OldEnd(script) <= |ys|
  {
    hide Script, Distance;
    EmptyScript(xs, ys);
    FurtherOnDiagonal(xs, ys, 0, 0, NewEnd(script), OldEnd(script), Distance(xs, ys));
  }

  /** Nothing added and nothing removed: both sides have the same tokens so far. */
  lemma {:induction false} ScriptWithoutEdits<T>(runs: seq<Run>, xs: seq<T>, ys: seq<T>)
    requires Script(runs, xs, ys) && Edits(runs) == 0
    ensures NewEnd(runs) == OldEnd(runs) && forall i :: 0 <= i < NewEnd(runs) ==> xs[i] == ys[i]
  {
    if runs != [] {
      ScriptWithoutEdits(runs[..|runs| - 1], xs, ys);
    }
  }
}
