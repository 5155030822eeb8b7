/** The greedy search for a shortest edit script between two token sequences, with
    the path objects and component records it creates, shares and updates. */
module LineDiffSearch {
  import opened EditGraph
  import opened EditScript
  import opened ScriptOrder

  /** A component record. Paths share records, and nothing assigns count, added or
      removed after a record is created; value is filled in at the end. */
  class Component {
    const count: nat
    const added: bool
    const removed: bool
    var value: string

    constructor (count: nat, added: bool, removed: bool)
      ensures this.count == count && this.added == added && this.removed == removed && value == ""
    {
      this.count, this.added, this.removed, this.value := count, added, removed, "";
    }

    ghost function Run(): Run
    {
      EditScript.Run(count, if removed then Removed else if added then Added else Same)
    }
  }

  /** The component records, in order, stand for these runs; no record occurs twice. */
  ghost predicate Shows(components: seq<Component>, runs: seq<Run>)
  {
    && |components| == |runs|
    && (forall i :: 0 <= i < |runs| ==> components[i].Run() == runs[i] && !(components[i].added && components[i].removed))
    && (forall i, j :: 0 <= i < j < |components| ==> components[i] != components[j])
  }

  class Path {
    var newPos: int
    var components: seq<Component>

    constructor (newPos: int, components: seq<Component>)
      ensures this.newPos == newPos && this.components == components
    {
      this.newPos, this.components := newPos, components;
    }

    /** The path's components show these runs and newPos is the last new token they reach. */
    ghost predicate Holds(runs: seq<Run>)
      reads this
    {
      newPos == NewEnd(runs) - 1 && Shows(components, runs)
    }

    method Clone() returns (path: Path)
      ensures fresh(path) && path.newPos == newPos && path.components == components
    {
      path := new Path(newPos, components);
    }

    method PushComponent(added: bool, removed: bool, ghost runs: seq<Run>)
      requires added != removed && Shows(components, runs)
      modifies this`components
      ensures Shows(components, PushEdit(runs, if added then Added else Removed))
      ensures forall c :: c in components ==> c in old(components) || fresh(c)
    {
      ghost var kind := if added then Added else Removed;
      var n := |components|;
      if n > 0 && components[n - 1].added == added && components[n - 1].removed == removed {
        // A fresh record: other paths may share the old one.
        var longer := new Component(components[n - 1].count + 1, added, removed);
        components := components[n - 1 := longer];
        assert runs[n - 1].kind == kind;
      } else {
        var single := new Component(1, added, removed);
        components := components + [single];
        assert n > 0 ==> runs[n - 1].kind != kind;
      }
    }

    /** Follows the matches that continue the path on its diagonal. */
    method ExtractCommon(newTokens: seq<string>, oldTokens: seq<string>, diagonal: int, ghost runs: seq<Run>)
      returns (oldPos: int, ghost followed: nat)
      requires 0 <= newPos + 1 <= |newTokens| && 0 <= newPos - diagonal + 1 <= |oldTokens|
      requires Shows(components, runs)
      modifies this
      ensures newPos == old(newPos) + followed && oldPos == newPos - diagonal
      ensures newPos + 1 <= |newTokens| && oldPos + 1 <= |oldTokens|
      ensures Match(newTokens, oldTokens, old(newPos) + 1, old(newPos) - diagonal + 1, followed)
      ensures Stuck(newTokens, oldTokens, newPos + 1, oldPos + 1)
      ensures Shows(components, PushSame(runs, followed))
      ensures forall c :: c in components ==> c in old(components) || fresh(c)
    {
      var start := newPos;
      var here := newPos;
      oldPos := here - diagonal;
      var commonCount := 0;
      while here + 1 < |newTokens| && oldPos + 1 < |oldTokens| && newTokens[here + 1] == oldTokens[oldPos + 1]
        invariant commonCount >= 0 && here == start + commonCount && oldPos == here - diagonal
        invariant here + 1 <= |newTokens| && oldPos + 1 <= |oldTokens|
        invariant Match(newTokens, oldTokens, start + 1, start - diagonal + 1, commonCount)
        decreases |newTokens| - here
      {
        here, oldPos, commonCount := here + 1, oldPos + 1, commonCount + 1;
      }
      followed := commonCount;
      if commonCount != 0 {
        var common := new Component(commonCount, false, false);
        components := components + [common];
      }
      newPos := here;
    }
  }

  ghost predicate Within(components: seq<Component>, records: set<Component>)
  {
    forall c :: c in components ==> c in records
  }

  /** The live paths hold these scripts, diagonal by diagonal; no two of them are one
      object, though they may share component records. */
  ghost predicate Mirrors(best: map<int, Path>, scripts: map<int, seq<Run>>, records: set<Component>)
    reads set k | k in best :: best[k]
  {
    && best.Keys == scripts.Keys
    && (forall k :: k in best ==> best[k].Holds(scripts[k]) && Within(best[k].components, records))
    && (forall j, k :: j in best && k in best && j != k ==> best[j] != best[k])
  }

  lemma RecordsGrow(best: map<int, Path>, scripts: map<int, seq<Run>>, records: set<Component>, grown: set<Component>)
    requires Mirrors(best, scripts, records) && records <= grown
    ensures Mirrors(best, scripts, grown)
  {
  }

  lemma MirrorsWithout(best: map<int, Path>, scripts: map<int, seq<Run>>, records: set<Component>, k: int)
    requires Mirrors(best, scripts, records)
    ensures Mirrors(best - {k}, scripts - {k}, records)
  {
  }

  class Search {
    const newTokens: seq<string>
    const oldTokens: seq<string>
    var bestPath: map<int, Path>
    var editLength: nat
    ghost var scripts: map<int, seq<Run>>
    ghost var records: set<Component>

    constructor (newTokens: seq<string>, oldTokens: seq<string>)
      ensures this.newTokens == newTokens && this.oldTokens == oldTokens
      ensures bestPath == map[] && scripts == map[] && editLength == 1 && records == {}
    {
      this.newTokens, this.oldTokens := newTokens, oldTokens;
      this.bestPath, this.editLength, this.scripts, this.records := map[], 1, map[], {};
    }

    ghost predicate Valid()
      reads this, set k | k in bestPath :: bestPath[k]
    {
      && editLength >= 1
      && Mirrors(bestPath, scripts, records)
      && BetweenRounds(scripts, editLength - 1, newTokens, oldTokens)
      && KeepsOrder(scripts, Diagonal(editLength, 0), newTokens, oldTokens)
    }

    method ExtendClone(path: Path, ghost runs: seq<Run>) returns (basePath: Path)
      requires path.Holds(runs) && Script(runs, newTokens, oldTokens) && OldEnd(runs) < |oldTokens|
      ensures fresh(basePath) && basePath.Holds(PushEdit(runs, Removed))
      ensures forall c :: c in basePath.components ==> c in path.components || fresh(c)
    {
      basePath := path.Clone();
      basePath.PushComponent(false, true, runs);
      PushEditExtends(runs, Removed, newTokens, oldTokens);
    }

    method ExtendInPlace(path: Path, ghost runs: seq<Run>)
      requires path.Holds(runs) && Script(runs, newTokens, oldTokens) && NewEnd(runs) < |newTokens|
      modifies path
      ensures path.Holds(PushEdit(runs, Added))
      ensures forall c :: c in path.components ==> c in old(path.components) || fresh(c)
    {
      path.newPos := path.newPos + 1;
      path.PushComponent(true, false, runs);
      PushEditExtends(runs, Added, newTokens, oldTokens);
    }

    /** The diagonals whose entries become undefined when diagonal k is reached or pruned. */
    static ghost function Cleared(basePath: Path?, k: int): set<int>
    {
      if basePath == null then {k - 1, k} else {k - 1}
    }

    /** Edit length 0: what both sequences start with. */
    method Seed() returns (same: bool, ghost script: seq<Run>)
      requires bestPath == map[] && scripts == map[] && editLength == 1 && records == {}
      modifies this`bestPath, this`scripts, this`records
      ensures forall c :: c in records ==> fresh(c)
      ensures same ==> Shortest(script, newTokens, oldTokens) && Edits(script) == 0
      ensures !same ==> Valid() && forall p :: p in bestPath.Values ==> fresh(p)
    {
      hide Script, NewEnd, OldEnd, Edits, Distance, Shortest, PushSame, BetweenRounds, KeepsOrder;
      var path := new Path(-1, []);
      EmptyScript(newTokens, oldTokens);
      var oldPos;
      oldPos, script := FollowMatches(path, 0, []);
      bestPath, scripts := map[0 := path], map[0 := script];
      records := set c | c in path.components;
      SeedKeepsShortest(script, scripts, newTokens, oldTokens);
      SeedKeepsOrder(script, scripts, newTokens, oldTokens);
      same := path.newPos + 1 >= |newTokens| && oldPos + 1 >= |oldTokens|;
    }

    /** The search never needs more edits than there are tokens. */
    lemma RoundsAreBounded()
      requires Valid()
      ensures editLength <= |newTokens| + |oldTokens|
    {
      var from, kind, t := AheadOfRound(scripts, editLength - 1, newTokens, oldTokens);
    }

    ghost predicate NeighboursReach(k: int)
      reads this
    {
      && (k - 1 in scripts ==> Reaches(scripts[k - 1], k - 1, newTokens, oldTokens))
      && (k + 1 in scripts ==> Reaches(scripts[k + 1], k + 1, newTokens, oldTokens))
    }

    /** Reads the two neighbours of diagonal k, and takes the lower one off the live paths. */
    method Neighbours(k: int) returns (addPath: Path?, removePath: Path?, canAdd: bool, canRemove: bool)
      requires Mirrors(bestPath, scripts, records)
      requires NeighboursReach(k)
      modifies this`bestPath, this`scripts
      ensures bestPath == old(bestPath) - {k - 1} && scripts == old(scripts) - {k - 1}
      ensures addPath == if k - 1 in old(bestPath) then old(bestPath[k - 1]) else null
      ensures removePath == if k + 1 in old(bestPath) then old(bestPath[k + 1]) else null
      ensures canAdd == CanAdd(old(scripts), k, |newTokens|) && (canAdd ==> addPath != null)
      ensures canRemove == CanRemove(old(scripts), k, |oldTokens|) && (canRemove ==> removePath != null)
      ensures addPath != null ==> k - 1 in old(scripts) && addPath.Holds(old(scripts)[k - 1]) && Within(addPath.components, records)
      ensures addPath != null ==> forall j :: j in bestPath ==> bestPath[j] != addPath
      ensures removePath != null ==> k + 1 in old(scripts) && removePath.Holds(old(scripts)[k + 1]) && Within(removePath.components, records)
      ensures Mirrors(bestPath, scripts, records)
    {
      addPath := if k - 1 in bestPath then bestPath[k - 1] else null;
      removePath := if k + 1 in bestPath then bestPath[k + 1] else null;
      var oldPos := (if removePath != null then removePath.newPos else 0) - k;
      canAdd := addPath != null && addPath.newPos + 1 < |newTokens|;
      canRemove := removePath != null && oldPos >= 0 && oldPos < |oldTokens|;
      MirrorsWithout(bestPath, scripts, records, k - 1);
      bestPath, scripts := bestPath - {k - 1}, scripts - {k - 1};
    }

    /** Leaves for diagonal k from one of its neighbours, or prunes the diagonal. */
    method TakeBranch(k: int) returns (basePath: Path?)
      requires Mirrors(bestPath, scripts, records)
      requires NeighboursReach(k)
      modifies this`bestPath, this`scripts, this`records, bestPath.Values
      ensures basePath != null ==> Within(basePath.components, records)
      ensures old(records) <= records && forall c :: c in records ==> c in old(records) || fresh(c)
      ensures bestPath == old(bestPath) - Cleared(basePath, k) && scripts == old(scripts) - Cleared(basePath, k)
      ensures Mirrors(bestPath, scripts, records)
      ensures basePath != null <==> Branch(old(scripts), k, |newTokens|, |oldTokens|).Some?
      ensures basePath != null ==> basePath.Holds(Branch(old(scripts), k, |newTokens|, |oldTokens|).value)
      ensures forall j :: j in bestPath ==> bestPath[j] != basePath
      ensures basePath != null && ChoosesRemove(old(scripts), k, |newTokens|, |oldTokens|) ==> fresh(basePath)
      ensures basePath != null && !ChoosesRemove(old(scripts), k, |newTokens|, |oldTokens|) ==>
                k - 1 in old(bestPath) && basePath == old(bestPath[k - 1])
    {
      hide Script, NewEnd, OldEnd, PushEdit, Mirrors;
      ghost var before := scripts;
      var addPath, removePath, canAdd, canRemove := Neighbours(k);
      if !canAdd && !canRemove {
        MirrorsWithout(bestPath, scripts, records, k);
        bestPath, scripts := bestPath - {k}, scripts - {k};
        return null;
      }
      if !canAdd || (canRemove && addPath.newPos < removePath.newPos) {
        basePath := ExtendClone(removePath, before[k + 1]);
      } else {
        basePath := addPath;
        ExtendInPlace(basePath, before[k - 1]);
      }
      ghost var grown := records + (set c | c in basePath.components);
      RecordsGrow(bestPath, scripts, records, grown);
      records := grown;
    }

    method FollowMatches(path: Path, k: int, ghost branch: seq<Run>) returns (oldPos: int, ghost script: seq<Run>)
      requires path.Holds(branch) && Reaches(branch, k, newTokens, oldTokens)
      modifies path
      ensures path.Holds(script) && Followed(branch, script, k, newTokens, oldTokens)
      ensures oldPos == OldEnd(script) - 1
      ensures forall c :: c in path.components ==> c in old(path.components) || fresh(c)
    {
      ghost var n;
      oldPos, n := path.ExtractCommon(newTokens, oldTokens, k, branch);
      script := PushSame(branch, n);
      FollowMatch(branch, n, newTokens, oldTokens);
    }

    /** Reaches diagonal k, follows its matches, and either stops at the end of both
        sequences or keeps the path as the live path of the diagonal. */
    method Explore(k: int) returns (found: Path?, ghost script: seq<Run>)
      requires Mirrors(bestPath, scripts, records) && NeighboursReach(k)
      modifies this`bestPath, this`scripts, this`records, bestPath.Values
      ensures old(records) <= records && forall c :: c in records ==> c in old(records) || fresh(c)
      ensures Mirrors(bestPath, scripts, records)
      ensures forall p :: p in bestPath.Values ==> fresh(p) || p in old(bestPath.Values)
      ensures Branch(old(scripts), k, |newTokens|, |oldTokens|).None? ==> found == null
      ensures found == null ==> scripts == Explored(old(scripts), k, script, |newTokens|, |oldTokens|)
      ensures Branch(old(scripts), k, |newTokens|, |oldTokens|).Some? ==>
                && Followed(Branch(old(scripts), k, |newTokens|, |oldTokens|).value, script, k, newTokens, oldTokens)
                && (found == null <==> NewEnd(script) < |newTokens| || OldEnd(script) < |oldTokens|)
      ensures found != null ==> found.Holds(script) && Within(found.components, records)
      ensures found != null ==> fresh(found) || found in old(bestPath.Values)
    {
      hide Script, NewEnd, OldEnd, Edits, Mirrors, Branch, Stuck, PushSame, Shows;
      ghost var before := scripts;
      script := [];
      var basePath := TakeBranch(k);
      if basePath == null {
        return null, [];
      }
      BranchReaches(before, k, newTokens, oldTokens);
      var oldPos;
      oldPos, script := FollowMatches(basePath, k, Branch(before, k, |newTokens|, |oldTokens|).value);
      ghost var grown := records + (set c | c in basePath.components);
      RecordsGrow(bestPath, scripts, records, grown);
      records := grown;
      if basePath.newPos + 1 >= |newTokens| && oldPos + 1 >= |oldTokens| {
        found := basePath;
      } else {
        found := null;
        Keep(k, basePath, script);
      }
    }

    method Keep(k: int, path: Path, ghost script: seq<Run>)
      requires Mirrors(bestPath, scripts, records) && path.Holds(script) && Within(path.components, records)
      requires forall j :: j in bestPath ==> bestPath[j] != path
      modifies this`bestPath, this`scripts
      ensures bestPath == old(bestPath)[k := path] && scripts == old(scripts)[k := script]
      ensures Mirrors(bestPath, scripts, records)
    {
      bestPath, scripts := bestPath[k := path], scripts[k := script];
    }

    /** One round: visits every diagonal a path can be on after editLength edits. */
    method ExecEditLength() returns (found: Path?, ghost script: seq<Run>)
      requires Valid()
      modifies this`bestPath, this`scripts, this`records, this`editLength, bestPath.Values
      ensures old(records) <= records && forall c :: c in records ==> c in old(records) || fresh(c)
      ensures found == null ==> Valid() && editLength == old(editLength) + 1
      ensures forall p :: p in bestPath.Values ==> fresh(p) || p in old(bestPath.Values)
      ensures found != null ==> found.Holds(script) && Shortest(script, newTokens, oldTokens) && Tidy(script)
      ensures found != null ==> Within(found.components, records) && (fresh(found) || found in old(bestPath.Values))
    {
      hide Script, NewEnd, OldEnd, Edits, Distance, Mirrors, Reaches, Stuck, Left, KeepsOrder, Tidy, Branch;
      script := [];
      ghost var d := editLength;
      ghost var from, kind, t := AheadOfRound(scripts, d - 1, newTokens, oldTokens);
      var diagonalPath: int := -1 * editLength;
      ghost var i := 0;
      while diagonalPath <= editLength
        invariant 0 <= i <= d + 1 && diagonalPath == Diagonal(d, i) && editLength == d
        invariant d <= Distance(newTokens, oldTokens)
        invariant old(records) <= records && forall c :: c in records ==> c in old(records) || fresh(c)
        invariant Mirrors(bestPath, scripts, records)
        invariant forall p :: p in bestPath.Values ==> fresh(p) || p in old(bestPath.Values)
        invariant MidRound(scripts, Diagonal(d, i), d, newTokens, oldTokens)
        invariant KeepsShortest(scripts, Diagonal(d, i), from, kind, newTokens, oldTokens)
        invariant KeepsOrder(scripts, Diagonal(d, i), newTokens, oldTokens)
        decreases editLength - diagonalPath
      {
        ghost var before := scripts;
        found, script := Explore(diagonalPath);
        StepKeepsTracking(before, script, diagonalPath, d, newTokens, oldTokens);
        StepKeepsOrder(before, script, diagonalPath, d, newTokens, oldTokens);
        StepKeepsShortest(before, script, d, newTokens, oldTokens, i, from, kind, t);
        if found != null {
          ShortestIsTidy(script, newTokens, oldTokens);
          return;
        }
        diagonalPath := diagonalPath + 2;
        i := i + 1;
      }
      found := null;
      assert i == d + 1;
      editLength := editLength + 1;
      RoundEndsInOrder(scripts, d, newTokens, oldTokens);
      RoundEnds(scripts, editLength - 1, newTokens, oldTokens, from, kind, t);
    }
  }
}
