/** The index of changes over the history of trunk, imported from git only as far as it is read. */
module ChangeIndex {
  import opened Wrappers
  import opened CommitGraph

  type ID = nat

  /** The record of one commit of a codebase. */
  datatype Change = Change(id: ID, codebase: string, commit: Commit, parent: Option<ID>, workspace: Option<string>)

  /** What a codebase remembers of its head. */
  datatype Codebase = Codebase(id: string, calculatedHead: bool, cachedHead: Option<ID>)

  datatype Result<T> = Ok(value: T) | NotFound | NoRows | AlreadyExists

  // ---------------------------------------------------------------- the history that is indexed

  /** The commit every codebase starts with; it is not shown as a change. */
  predicate IsRoot(c: Commit)
  {
    c.parents == [] && c.message == "Root Commit"
  }

  /** Following first parents, newest commit first, without the root commit. */
  function Log(c: Commit): (log: seq<Commit>)
  {
    if IsRoot(c) then [] else [c] + (if c.parents == [] then [] else Log(c.parents[0]))
  }

  function TrunkLog(head: Option<Commit>): (log: seq<Commit>)
    ensures log == [] <==> head.None? || IsRoot(head.value)
  {
    if head.None? then [] else Log(head.value)
  }

  function UpTo(log: seq<Commit>, limit: int): (r: seq<Commit>)
    ensures r <= log && |r| == if limit < 0 then 0 else if limit < |log| then limit else |log|
  {
    if limit < 0 then [] else if limit < |log| then log[..limit] else log
  }

  lemma {:induction false} LogAt(c: Commit, i: nat)
    requires i < |Log(c)|
    ensures Log(c)[i..] == Log(Log(c)[i])
    ensures i + 1 < |Log(c)| <==> Log(c)[i].parents != [] && !IsRoot(Log(c)[i].parents[0])
    ensures i + 1 < |Log(c)| ==> Log(c)[i + 1] == Log(c)[i].parents[0]
  {
    if i > 0 {
      LogAt(c.parents[0], i - 1);
    }
  }

  /** The log is the chain of first parents, but for a root commit at its end. */
  lemma {:induction false} LogIsFirstParents(c: Commit)
    ensures var chain := FirstParents(c);
            Log(c) == if IsRoot(chain[|chain| - 1]) then chain[..|chain| - 1] else chain
  {
    if c.parents != [] {
      LogIsFirstParents(c.parents[0]);
    }
  }

  // ---------------------------------------------------------------- the index

  predicate SameCommit(a: Change, b: Change)
  {
    a.codebase == b.codebase && a.commit == b.commit
  }

  /** One change for each commit of a codebase, and ids never used before to come. */
  ghost predicate Unique(changes: map<ID, Change>, nextID: ID)
  {
    && (forall id :: id in changes ==> changes[id].id == id < nextID)
    && (forall id :: id in changes && changes[id].parent.Some? ==> changes[id].parent.value < nextID)
    && (forall i, j :: i in changes && j in changes && SameCommit(changes[i], changes[j]) ==> i == j)
  }

  /** A stored parent is the change of the first parent of the commit. */
  predicate ParentIsRight(changes: map<ID, Change>, ch: Change)
  {
    ch.parent.Some? && ch.parent.value in changes ==>
      && ch.commit.parents != []
      && changes[ch.parent.value].codebase == ch.codebase
      && changes[ch.parent.value].commit == ch.commit.parents[0]
  }

  ghost predicate Faithful(changes: map<ID, Change>)
  {
    forall id :: id in changes ==> ParentIsRight(changes, changes[id]) && !IsRoot(changes[id].commit)
  }

  /** Nothing that was indexed has changed. */
  ghost predicate Keeps(before: map<ID, Change>, after: map<ID, Change>)
  {
    forall id :: id in before ==> id in after && after[id] == before[id]
  }

  /** Changes have only been added, for these commits and of no workspace, and parents that were missing been set. */
  ghost predicate Grows(before: map<ID, Change>, after: map<ID, Change>, codebase: string, commits: seq<Commit>)
  {
    && before.Keys <= after.Keys
    && (forall id :: id in before ==> after[id] == before[id].(parent := after[id].parent))
    && (forall id :: id in before && before[id].parent.Some? && before[id].parent.value in before ==> after[id] == before[id])
    && (forall id :: id in after && id !in before ==>
          after[id].codebase == codebase && after[id].commit in commits && after[id].workspace.None?)
  }

  /** The index without one change. */
  function Without(changes: map<ID, Change>, id: ID): map<ID, Change>
  {
    changes - {id}
  }

  lemma WithoutNew(changes: map<ID, Change>, ch: Change)
    requires ch.id !in changes
    ensures Without(changes[ch.id := ch], ch.id) == changes
  {
  }

  /** The parent that is recorded is the change of this commit, or none for the root commit. */
  predicate ParentNames(changes: map<ID, Change>, parent: Option<ID>, codebase: string, commit: Commit)
  {
    match parent
    case None => IsRoot(commit)
    case Some(id) => id in changes && changes[id].codebase == codebase && changes[id].commit == commit
  }

  /** The changes of these commits, each linked to the next. */
  predicate Shows(changes: map<ID, Change>, shown: seq<Change>, codebase: string, log: seq<Commit>)
  {
    && |shown| == |log|
    && (forall i :: 0 <= i < |log| ==>
          && shown[i].id in changes && changes[shown[i].id] == shown[i]
          && shown[i].codebase == codebase && shown[i].commit == log[i])
    && (forall i :: 0 <= i < |log| - 1 ==> shown[i].parent == Some(shown[i + 1].id))
  }

  lemma InsertedIsUnique(before: map<ID, Change>, ch: Change, nextID: ID)
    requires Unique(before, nextID) && ch.id == nextID && (ch.parent.Some? ==> ch.parent.value < nextID)
    requires forall id :: id in before ==> !SameCommit(before[id], ch)
    ensures Unique(before[nextID := ch], nextID + 1)
  {
  }

  /** A new change fits in exactly if it is not for the root commit and its parent is right. */
  lemma Inserted(before: map<ID, Change>, ch: Change, nextID: ID)
    requires Unique(before, nextID) && Faithful(before) && ch.id == nextID && (ch.parent.Some? ==> ch.parent.value < nextID)
    requires forall id :: id in before ==> !SameCommit(before[id], ch)
    ensures Unique(before[nextID := ch], nextID + 1)
    ensures Faithful(before[nextID := ch]) <==> !IsRoot(ch.commit) && ParentIsRight(before, ch)
  {
    InsertedIsUnique(before, ch, nextID);
    hide SameCommit, IsRoot;
    var after := before[nextID := ch];
    assert ParentIsRight(after, ch) <==> ParentIsRight(before, ch);
    forall id | id in before
      ensures ParentIsRight(after, after[id]) && !IsRoot(after[id].commit)
    {
      assert ParentIsRight(before, before[id]);
    }
    assert Faithful(after) ==> ParentIsRight(after, after[nextID]);
  }

  lemma ParentIsAnother(c: Commit)
    requires c.parents != []
    ensures c.parents[0] != c
  {
    assert Height(c.parents[0]) < Height(c);
  }

  /** Setting a parent that was missing keeps the index as it should be. */
  lemma Linked(before: map<ID, Change>, ch: Change, parent: ID, nextID: ID)
    requires Unique(before, nextID) && Faithful(before) && ch.id in before && before[ch.id] == ch && parent in before
    requires ParentIsRight(before, ch.(parent := Some(parent)))
    ensures Unique(before[ch.id := ch.(parent := Some(parent))], nextID)
    ensures Faithful(before[ch.id := ch.(parent := Some(parent))])
  {
    var after := before[ch.id := ch.(parent := Some(parent))];
    forall id | id in after
      ensures ParentIsRight(after, after[id])
    {
      assert ParentIsRight(before, before[id]);
    }
  }

  /** One more change at the end of what is shown. */
  lemma ShowsMore(before: map<ID, Change>, after: map<ID, Change>, shown: seq<Change>, current: Change, next: Change,
                  codebase: string, log: seq<Commit>)
    requires 0 < |shown| < |log| && Shows(before, shown, codebase, log[..|shown|])
    requires var last := shown[|shown| - 1];
             && (forall id :: id in before && id != last.id ==> id in after && after[id] == before[id])
             && (last.parent.Some? && last.parent.value in before ==> after == before)
             && current == last.(parent := Some(next.id)) && last.id in after && after[last.id] == current
    requires next.id in after && after[next.id] == next && next.codebase == codebase && next.commit == log[|shown|]
    ensures Shows(after, shown[|shown| - 1 := current] + [next], codebase, log[..|shown| + 1])
  {
    var n := |shown|;
    var more := shown[n - 1 := current] + [next];
    assert log[..n + 1][..n] == log[..n];
    forall i | 0 <= i < n - 1
      ensures more[i] == shown[i] && shown[i].id in after && after[shown[i].id] == shown[i]
    {
      assert shown[i].commit == log[..n][i] && shown[i].parent == Some(shown[i + 1].id);
    }
    forall i | 0 <= i < n
      ensures more[i].parent == Some(more[i + 1].id)
    {
      if i < n - 1 {
        assert shown[i].parent == Some(shown[i + 1].id);
      }
    }
  }

  /** A list of changes that shows a history is the only one that does. */
  lemma ShownOnce(changes: map<ID, Change>, nextID: ID, a: Change, b: Change)
    requires Unique(changes, nextID) && a.id in changes && changes[a.id] == a && b.id in changes && changes[b.id] == b
    requires SameCommit(a, b)
    ensures a == b
  {
    assert SameCommit(changes[a.id], changes[b.id]);
  }

  lemma GrowsMore(a: map<ID, Change>, b: map<ID, Change>, c: map<ID, Change>, codebase: string,
                  commits: seq<Commit>, more: seq<Commit>)
    requires Grows(a, b, codebase, commits) && Grows(b, c, codebase, more)
    requires forall commit :: commit in more ==> commit in commits
    ensures Grows(a, c, codebase, commits)
  {
    forall id | id in a && a[id].parent.Some? && a[id].parent.value in a
      ensures c[id] == a[id]
    {
      assert b[id] == a[id];
    }
  }

  /** How far a changelog has come: these changes are shown, and if all of the walk was
      already imported and linked nothing has been changed. */
  ghost predicate Walked(before: map<ID, Change>, now: map<ID, Change>, shown: seq<Change>, codebase: string, walk: seq<Commit>)
  {
    && Grows(before, now, codebase, walk)
    && 0 < |shown| <= |walk| && Shows(now, shown, codebase, walk[..|shown|])
    && forall again :: Shows(before, again, codebase, walk) ==> now == before && shown <= again
  }

  /** What looking up the parent of the last change shown does to the index. */
  predicate Stepped(now: map<ID, Change>, next: map<ID, Change>, last: Change, current: Change, parent: Change)
  {
    && (forall id :: id in now && id != last.id ==> id in next && next[id] == now[id])
    && (last.parent.Some? && last.parent.value in now ==> next == now)
    && current == last.(parent := Some(parent.id)) && last.id in next && next[last.id] == current
    && parent.id in next && next[parent.id] == parent
  }

  lemma StartsWalk(before: map<ID, Change>, now: map<ID, Change>, nextID: ID, start: Change, walk: seq<Commit>)
    requires Unique(now, nextID) && start.id in now && now[start.id] == start
    requires walk != [] && walk[0] == start.commit && Grows(before, now, start.codebase, walk)
    requires (exists id :: id in before && SameCommit(before[id], start)) ==> now == before
    ensures Walked(before, now, [start], start.codebase, walk)
  {
    forall again: seq<Change> | Shows(before, again, start.codebase, walk)
      ensures now == before && [start] <= again
    {
      assert SameCommit(before[again[0].id], start);
      ShownOnce(now, nextID, again[0], start);
    }
  }

  /** The walk begins at this change. */
  ghost predicate Begun(was: map<ID, Change>, now: map<ID, Change>, start: Change, head: Option<Commit>, limit: int,
                        before: Option<ID>)
    requires before.Some? ==> before.value in was
  {
    var walk, log := Walk(was, head, limit, before), Log(start.commit);
    && walk <= log && walk != [] && log[0] == start.commit
    && |walk| <= Most(limit, before) && (|walk| == |log| || |walk| == Most(limit, before))
    && Walked(was, now, [start], start.codebase, walk)
  }

  lemma BeginsWalk(was: map<ID, Change>, now: map<ID, Change>, nextID: ID, start: Change, codebase: string,
                   head: Option<Commit>, limit: int, before: Option<ID>)
    requires Unique(now, nextID) && Faithful(now) && start.id in now && now[start.id] == start
    requires before.None? ==>
               && head == Some(start.commit) && start.codebase == codebase && Grows(was, now, codebase, UpTo(TrunkLog(head), 1))
               && ((exists id :: id in was && SameCommit(was[id], start)) ==> now == was)
    requires before.Some? ==> before.value in was && now == was && start == was[before.value]
    ensures Begun(was, now, start, head, limit, before)
  {
    assert !IsRoot(start.commit);
    StartsWalk(was, now, nextID, start, Walk(was, head, limit, before));
  }

  lemma NothingToWalk(was: map<ID, Change>, codebase: string, head: Option<Commit>, limit: int)
    requires TrunkLog(head) == []
    ensures IsChangelog(was, was, codebase, head, limit, None, [])
  {
    forall shown: seq<Change> | Shows(was, shown, codebase, [])
      ensures shown == []
    {
      ShownLength(was, shown, codebase, []);
    }
  }

  /** Linking a change to its parent after the parent has been imported. */
  lemma LinkedStep(was: map<ID, Change>, mid: map<ID, Change>, ch: Change, parent: Change)
    requires ch.id in was && was[ch.id] == ch && !(ch.parent.Some? && ch.parent.value in was)
    requires ch.commit.parents != [] && parent.commit == ch.commit.parents[0] && parent.codebase == ch.codebase
    requires Keeps(was, mid) && parent.id in mid && mid[parent.id] == parent && Grows(was, mid, ch.codebase, [parent.commit])
    ensures var after := mid[ch.id := ch.(parent := Some(parent.id))];
            && Grows(was, after, ch.codebase, UpTo(ch.commit.parents, 1))
            && Stepped(was, after, ch, ch.(parent := Some(parent.id)), parent)
    ensures ch.id in mid && mid[ch.id] == ch && ParentIsRight(mid, ch.(parent := Some(parent.id)))
  {
    ParentIsAnother(ch.commit);
    assert parent.commit == UpTo(ch.commit.parents, 1)[0];
  }

  lemma SteppedTo(now: map<ID, Change>, next: map<ID, Change>, last: Change, current: Change, parent: Change)
    requires Stepped(now, next, last, current, parent)
    ensures current.id == last.id && parent.id in next && next[parent.id] == parent
  {
  }

  lemma WalkedMore(before: map<ID, Change>, now: map<ID, Change>, next: map<ID, Change>, shown: seq<Change>,
                   current: Change, parent: Change, codebase: string, walk: seq<Commit>)
    requires Walked(before, now, shown, codebase, walk) && |shown| < |walk|
    requires Stepped(now, next, shown[|shown| - 1], current, parent)
    requires parent.codebase == codebase && parent.commit == walk[|shown|] && Grows(now, next, codebase, [walk[|shown|]])
    ensures Walked(before, next, shown[|shown| - 1 := current] + [parent], codebase, walk)
  {
    var n := |shown|;
    var more := shown[n - 1 := current] + [parent];
    GrowsMore(before, now, next, codebase, walk, [walk[n]]);
    ShowsMore(now, next, shown, current, parent, codebase, walk);
    forall again: seq<Change> | Shows(before, again, codebase, walk)
      ensures next == before && more <= again
    {
      assert again[n - 1] == shown[n - 1] && again[n - 1].parent == Some(again[n].id);
      assert next == now && again[n].id in before;
    }
  }

  /** How many commits a changelog walks through at most: the head is shown whatever the limit. */
  function Most(limit: int, before: Option<ID>): nat
  {
    if before.None? then (if limit < 1 then 1 else limit) else if limit < 0 then 1 else limit + 1
  }

  /** The commits a changelog walks through: from the head, or from the change it starts before. */
  function Walk(changes: map<ID, Change>, head: Option<Commit>, limit: int, before: Option<ID>): seq<Commit>
    requires before.Some? ==> before.value in changes
  {
    UpTo(if before.None? then TrunkLog(head) else Log(changes[before.value].commit), Most(limit, before))
  }

  /** What is returned of the changes walked through: not the one the changelog starts before. */
  function Returned(shown: seq<Change>, before: Option<ID>): seq<Change>
  {
    if before.Some? && shown != [] then shown[1..] else shown
  }

  lemma ReturnedFirst(first: Change, before: Option<ID>)
    ensures Returned([first], before) == if before.None? then [first] else []
  {
  }

  lemma ReturnedMore(shown: seq<Change>, before: Option<ID>, current: Change, next: Change, res: seq<Change>)
    requires shown != [] && res == Returned(shown, before)
    ensures Returned(shown[|shown| - 1 := current] + [next], before) ==
            (if res != [] then res[|res| - 1 := current] else res) + [next]
    ensures |res| == if before.Some? then |shown| - 1 else |shown|
  {
  }

  /** What a changelog shows and does to the index: the commits of the walk (without the one
      it starts before), imported and linked as far as they were not yet. */
  ghost predicate IsChangelog(was: map<ID, Change>, now: map<ID, Change>, codebase: string, head: Option<Commit>,
                              limit: int, before: Option<ID>, res: seq<Change>)
    requires before.Some? ==> before.value in was
  {
    var walk := Walk(was, head, limit, before);
    var owner := if before.Some? then was[before.value].codebase else codebase;
    && Grows(was, now, owner, walk)
    && (before.Some? ==> before.value in now)
    && Shows(now, (if before.Some? then [now[before.value]] else []) + res, owner, walk)
    && (forall shown :: Shows(was, shown, owner, walk) ==>
          now == was && res == Returned(shown, before))
  }

  lemma ShownLength(changes: map<ID, Change>, shown: seq<Change>, codebase: string, log: seq<Commit>)
    requires Shows(changes, shown, codebase, log)
    ensures |shown| == |log|
    ensures shown != [] ==> shown[0].id in changes && changes[shown[0].id] == shown[0]
  {
  }

  lemma WalkedAll(was: map<ID, Change>, now: map<ID, Change>, shown: seq<Change>, codebase: string, head: Option<Commit>,
                  limit: int, before: Option<ID>, res: seq<Change>)
    requires before.Some? ==> before.value in was && shown != [] && shown[0].id == before.value
    requires var walk := Walk(was, head, limit, before);
             var owner := if before.Some? then was[before.value].codebase else codebase;
             |shown| == |walk| && Walked(was, now, shown, owner, walk)
    requires res == Returned(shown, before)
    ensures IsChangelog(was, now, codebase, head, limit, before, res)
  {
    hide Shows, Grows, Walk, Log;
    var walk := Walk(was, head, limit, before);
    var owner := if before.Some? then was[before.value].codebase else codebase;
    assert walk[..|shown|] == walk;
    ShownLength(now, shown, owner, walk);
    assert (if before.Some? then [now[before.value]] else []) + res == shown;
    forall again: seq<Change> | Shows(was, again, owner, walk)
      ensures now == was && res == Returned(again, before)
    {
      ShownLength(was, again, owner, walk);
      assert again == shown;
    }
  }

  /** What a codebase remembers of its head, against the head commit of its trunk. */
  predicate Recalls(changes: map<ID, Change>, head: Option<Commit>, cb: Codebase)
  {
    cb.calculatedHead ==>
      match cb.cachedHead
      case None => TrunkLog(head) == []
      case Some(id) => id in changes && changes[id].codebase == cb.id && head == Some(changes[id].commit)
  }

  /** Every change is still there, with the same commit. */
  ghost predicate KeepsCommits(was: map<ID, Change>, now: map<ID, Change>)
  {
    forall id :: id in was ==> id in now && SameCommit(was[id], now[id])
  }

  lemma KeepsCommitsTwice(a: map<ID, Change>, b: map<ID, Change>, c: map<ID, Change>)
    requires KeepsCommits(a, b) && KeepsCommits(b, c)
    ensures KeepsCommits(a, c)
  {
  }

  lemma GrowsKeepsCommits(was: map<ID, Change>, now: map<ID, Change>, codebase: string, commits: seq<Commit>)
    requires Grows(was, now, codebase, commits)
    ensures KeepsCommits(was, now)
  {
  }

  function HeadOf(trunks: map<string, Commit>, codebase: string): Option<Commit>
  {
    if codebase in trunks then Some(trunks[codebase]) else None
  }

  /** No codebase remembers a head that is not the head of its trunk. */
  ghost predicate AllRecall(changes: map<ID, Change>, codebases: map<string, Codebase>, trunks: map<string, Commit>)
  {
    forall id :: id in codebases ==> Recalls(changes, HeadOf(trunks, id), codebases[id])
  }

  /** Importing, linking and creating changes keeps what is remembered right. */
  lemma AllStillRecall(was: map<ID, Change>, now: map<ID, Change>, codebases: map<string, Codebase>, trunks: map<string, Commit>)
    requires KeepsCommits(was, now) && AllRecall(was, codebases, trunks)
    ensures AllRecall(now, codebases, trunks)
  {
    forall id | id in codebases
      ensures Recalls(now, HeadOf(trunks, id), codebases[id])
    {
      assert Recalls(was, HeadOf(trunks, id), codebases[id]);
    }
  }

  // ---------------------------------------------------------------- what is remembered of heads

  /** What codebases remember of their heads, the heads of their trunks, and the codebases for
      which the two may differ: their trunk has moved, or another change was set, since what they
      remember was last made right. */
  datatype Memory = Memory(codebases: map<string, Codebase>, trunks: map<string, Commit>, stale: set<string>)

  /** Only stale codebases may remember a head that is not the head of their trunk. */
  ghost predicate Right(changes: map<ID, Change>, m: Memory)
  {
    AllRecall(changes, m.codebases - m.stale, m.trunks)
  }

  ghost function Mark(m: Memory, codebase: string, right: bool): Memory
  {
    m.(stale := if right then m.stale - {codebase} else m.stale + {codebase})
  }

  ghost function Moved(m: Memory, codebase: string, commit: Commit): Memory
  {
    Mark(m.(trunks := m.trunks[codebase := commit]), codebase, false)
  }

  /** The record of a codebase is written, if there is one. */
  ghost function Written(m: Memory, cb: Codebase, right: bool): Memory
  {
    if cb.id in m.codebases then Mark(m.(codebases := m.codebases[cb.id := cb]), cb.id, right) else m
  }

  /** A change of the index that is the head of its trunk. */
  predicate IsHead(changes: map<ID, Change>, trunks: map<string, Commit>, ch: Change)
  {
    ch.id in changes && changes[ch.id] == ch && HeadOf(trunks, ch.codebase) == Some(ch.commit)
  }

  /** What a record of a codebase that remembers its head stands for. */
  function Remembered(changes: map<ID, Change>, cb: Codebase): Result<Change>
    requires cb.calculatedHead
  {
    match cb.cachedHead
    case None => NotFound
    case Some(id) => if id in changes then Ok(changes[id]) else NoRows
  }

  /** The change of the head, or none if there is none but the root commit. */
  predicate NamesHead(head: Option<Commit>, codebase: string, r: Result<Change>)
  {
    if r.NotFound? then TrunkLog(head) == []
    else r.Ok? && r.value.codebase == codebase && head == Some(r.value.commit)
  }

  lemma MovedIsRight(changes: map<ID, Change>, m: Memory, codebase: string, commit: Commit)
    requires Right(changes, m)
    ensures Right(changes, Moved(m, codebase, commit))
  {
    var after := Moved(m, codebase, commit);
    forall id | id in after.codebases - after.stale
      ensures Recalls(changes, HeadOf(after.trunks, id), after.codebases[id])
    {
      assert id in m.codebases - m.stale && HeadOf(after.trunks, id) == HeadOf(m.trunks, id);
    }
  }

  lemma WrittenIsRight(changes: map<ID, Change>, m: Memory, cb: Codebase, right: bool)
    requires Right(changes, m) && (right ==> Recalls(changes, HeadOf(m.trunks, cb.id), cb))
    ensures Right(changes, Written(m, cb, right))
  {
    hide Recalls;
    var after := Written(m, cb, right);
    forall id | id in after.codebases - after.stale
      ensures Recalls(changes, HeadOf(after.trunks, id), after.codebases[id])
    {
      assert id != cb.id ==> id in m.codebases - m.stale;
    }
  }

  lemma GrowingRecalls(was: map<ID, Change>, now: map<ID, Change>, codebase: string, commits: seq<Commit>,
                       codebases: map<string, Codebase>, trunks: map<string, Commit>)
    requires Grows(was, now, codebase, commits)
    ensures AllRecall(was, codebases, trunks) ==> AllRecall(now, codebases, trunks)
  {
    GrowsKeepsCommits(was, now, codebase, commits);
    if AllRecall(was, codebases, trunks) {
      AllStillRecall(was, now, codebases, trunks);
    }
  }

  lemma AddingRecalls(was: map<ID, Change>, now: map<ID, Change>, codebases: map<string, Codebase>, trunks: map<string, Commit>)
    requires Keeps(was, now)
    ensures AllRecall(was, codebases, trunks) ==> AllRecall(now, codebases, trunks)
  {
    if AllRecall(was, codebases, trunks) {
      AllStillRecall(was, now, codebases, trunks);
    }
  }

  class Service {
    var changes: map<ID, Change>
    var nextID: ID
    var codebases: map<string, Codebase>
    // the head commits of the trunk repositories; an empty repository has none
    var trunks: map<string, Commit>
    ghost var stale: set<string>

    ghost predicate Valid()
      reads this
    {
      && Unique(changes, nextID) && Faithful(changes)
      && (forall id :: id in codebases ==> codebases[id].id == id)
    }

    ghost predicate Indexed(codebase: string, commit: Commit)
      reads this
    {
      exists id :: id in changes && changes[id].codebase == codebase && changes[id].commit == commit
    }

    function HeadCommit(codebase: string): Option<Commit>
      reads this
    {
      HeadOf(trunks, codebase)
    }

    ghost function Heads(): Memory
      reads this
    {
      Memory(codebases, trunks, stale)
    }

    /** Only stale codebases may remember a head that is not the head of their trunk. */
    ghost predicate Remembering()
      reads this
    {
      Right(changes, Heads())
    }

    // -------------------------------------------------------------- the repository of changes

    method GetByCommitID(commit: Commit, codebase: string) returns (ch: Option<Change>)
      ensures ch.Some? <==> Indexed(codebase, commit)
      ensures ch.Some? ==> ch.value in changes.Values && ch.value.codebase == codebase && ch.value.commit == commit
    {
      if id :| id in changes && changes[id].codebase == codebase && changes[id].commit == commit {
        return Some(changes[id]);
      }
      return None;
    }

    /** Inserting keeps the index as it should be exactly if the commit is not the root commit
        and the parent, if there is one, is the change of its first parent. */
    method Insert(codebase: string, commit: Commit, parent: Option<ID>, workspace: Option<string>) returns (r: Result<Change>)
      requires Unique(changes, nextID) && Faithful(changes) && (parent.Some? ==> parent.value < nextID)
      modifies this`changes, this`nextID
      ensures Unique(changes, nextID)
      ensures r.AlreadyExists? <==> old(Indexed(codebase, commit))
      ensures r.AlreadyExists? ==> changes == old(changes) && nextID == old(nextID)
      ensures !r.AlreadyExists? ==>
                && r.Ok? && r.value == Change(old(nextID), codebase, commit, parent, workspace)
                && r.value.id !in old(changes) && changes == old(changes)[r.value.id := r.value]
                && (Faithful(changes) <==> !IsRoot(commit) && ParentIsRight(old(changes), r.value))
      ensures old(Remembering()) ==> Remembering()
    {
      var existing := GetByCommitID(commit, codebase);
      if existing.Some? {
        return AlreadyExists;
      }
      var ch := Change(nextID, codebase, commit, parent, workspace);
      changes := changes[nextID := ch];
      nextID := nextID + 1;
      Inserted(old(changes), ch, old(nextID));
      AddingRecalls(old(changes), changes, codebases - stale, trunks);
      return Ok(ch);
    }

    method ImportCommitToChange(codebase: string, commit: Commit) returns (r: Result<Change>)
      requires Valid()
      modifies this`changes, this`nextID
      ensures Valid() && Grows(old(changes), changes, codebase, [commit])
      ensures Keeps(old(changes), changes)
      ensures forall id :: id in changes && id !in old(changes) ==> changes[id].parent.None? && changes[id].workspace.None?
      ensures old(Indexed(codebase, commit)) ==> changes == old(changes) && r.Ok?
      ensures r == NotFound || r.Ok?
      ensures r.NotFound? <==> IsRoot(commit)
      ensures r.NotFound? ==> changes == old(changes)
      ensures r.Ok? ==> r.value.id in changes && changes[r.value.id] == r.value
                        && r.value.codebase == codebase && r.value.commit == commit
      ensures old(Remembering()) ==> Remembering()
    {
      var existing := GetByCommitID(commit, codebase);
      if existing.Some? {
        return Ok(existing.value);
      }
      if |commit.parents| == 0 && commit.message == "Root Commit" {
        return NotFound;
      }
      r := Insert(codebase, commit, None, None);
    }

    method GetChangeFromCommit(codebase: string, commit: Commit) returns (r: Result<Change>)
      requires Valid()
      modifies this`changes, this`nextID
      ensures Valid() && Grows(old(changes), changes, codebase, [commit])
      ensures Keeps(old(changes), changes)
      ensures forall id :: id in changes && id !in old(changes) ==> changes[id].parent.None? && changes[id].workspace.None?
      ensures old(Indexed(codebase, commit)) ==> changes == old(changes) && r.Ok?
      ensures r == NotFound || r.Ok?
      ensures r.NotFound? <==> IsRoot(commit)
      ensures r.NotFound? ==> changes == old(changes)
      ensures r.Ok? ==> r.value.id in changes && changes[r.value.id] == r.value
                        && r.value.codebase == codebase && r.value.commit == commit
      ensures old(Remembering()) ==> Remembering()
    {
      var existing := GetByCommitID(commit, codebase);
      if existing.Some? {
        return Ok(existing.value);
      }
      r := ImportCommitToChange(codebase, commit);
    }

    /** The change of the first parent; it is imported and linked if it was not yet. */
    method ParentChange(ch: Change) returns (current: Change, r: Result<Change>)
      requires Valid() && ch.id in changes && changes[ch.id] == ch
      modifies this`changes, this`nextID
      ensures Valid() && Grows(old(changes), changes, ch.codebase, UpTo(ch.commit.parents, 1))
      ensures r == NotFound || r.Ok?
      ensures r.NotFound? <==> ch.commit.parents == [] || IsRoot(ch.commit.parents[0])
      ensures r.NotFound? ==> changes == old(changes) && current == ch
      ensures r.Ok? ==>
                && r.value.codebase == ch.codebase && r.value.commit == ch.commit.parents[0]
                && Stepped(old(changes), changes, ch, current, r.value)
      ensures old(Remembering()) ==> Remembering()
    {
      assert ParentIsRight(changes, ch);
      if ch.parent.Some? && ch.parent.value in changes {
        return ch, Ok(changes[ch.parent.value]);
      }
      var parents := ch.commit.parents;
      if |parents| == 0 {
        return ch, NotFound;
      }
      hide Keeps, Grows, Stepped, Unique, Faithful;
      r := ImportCommitToChange(ch.codebase, parents[0]);
      if r.NotFound? {
        return ch, NotFound;
      }
      current := ch.(parent := Some(r.value.id));
      LinkedStep(old(changes), changes, ch, r.value);
      Linked(changes, ch, r.value.id, nextID);
      changes := changes[ch.id := current];
      GrowingRecalls(old(changes), changes, ch.codebase, UpTo(parents, 1), codebases - stale, trunks);
    }

    /** The change of the head of trunk, straight from git. */
    method Head(codebase: string) returns (r: Result<Change>)
      requires Valid()
      modifies this`changes, this`nextID
      ensures Valid() && Grows(old(changes), changes, codebase, UpTo(TrunkLog(HeadCommit(codebase)), 1))
      ensures Keeps(old(changes), changes)
      ensures r == NotFound || r.Ok?
      ensures r.NotFound? <==> TrunkLog(HeadCommit(codebase)) == []
      ensures r.NotFound? ==> changes == old(changes)
      ensures r.Ok? ==> r.value.id in changes && changes[r.value.id] == r.value
                        && r.value.codebase == codebase && HeadCommit(codebase) == Some(r.value.commit)
      ensures HeadCommit(codebase).Some? && old(Indexed(codebase, HeadCommit(codebase).value)) ==> changes == old(changes)
      ensures old(Remembering()) ==> Remembering()
    {
      var headCommit := HeadCommit(codebase);
      if headCommit.None? {
        return NotFound;
      }
      r := GetChangeFromCommit(codebase, headCommit.value);
    }

    /** Where a changelog starts: at the head, or before a change that is already known. */
    method StartFrom(codebase: string, ghost limit: int, before: Option<ID>) returns (r: Result<Change>)
      requires Valid()
      modifies this`changes, this`nextID
      ensures Valid()
      ensures r.NoRows? <==> before.Some? && before.value !in old(changes)
      ensures r.NotFound? <==> before.None? && TrunkLog(HeadCommit(codebase)) == []
      ensures !r.Ok? ==> !r.AlreadyExists? && changes == old(changes)
      ensures r.Ok? ==>
                && r.value.id in changes && changes[r.value.id] == r.value
                && r.value.codebase == (if before.Some? then old(changes)[before.value].codebase else codebase)
                && (before.Some? ==> r.value.id == before.value)
                && Begun(old(changes), changes, r.value, HeadCommit(codebase), limit, before)
      ensures old(Remembering()) ==> Remembering()
    {
      if before.None? {
        r := Head(codebase);
        if r.NotFound? {
          return;
        }
      } else {
        if before.value !in changes {
          return NoRows;
        }
        r := Ok(changes[before.value]);
      }
      BeginsWalk(old(changes), changes, nextID, r.value, codebase, HeadCommit(codebase), limit, before);
      hide Begun;
    }

    /** The changes of trunk, newest first, from the head or from after a change. */
    method Changelog(codebase: string, limit: int, before: Option<ID>) returns (r: Result<seq<Change>>)
      requires Valid()
      modifies this`changes, this`nextID
      ensures Valid()
      ensures r.NoRows? <==> before.Some? && before.value !in old(changes)
      ensures r.NoRows? ==> changes == old(changes)
      ensures !r.NoRows? ==>
                r.Ok? && IsChangelog(old(changes), changes, codebase, HeadCommit(codebase), limit, before, r.value)
      ensures old(Remembering()) ==> Remembering()
    {
      hide Keeps, Grows, Shows, Walked, Stepped, Unique, Faithful, IsChangelog, AllRecall, Log, Walk, Returned;
      var start := StartFrom(codebase, limit, before);
      if start.NoRows? {
        return NoRows;
      }
      if start.NotFound? {
        NothingToWalk(changes, codebase, HeadCommit(codebase), limit);
        return Ok([]);
      }
      var startFrom := start.value;
      var res := if before.None? then [startFrom] else [];
      ghost var walk := Walk(old(changes), HeadCommit(codebase), limit, before);
      ghost var log := Log(startFrom.commit);
      ghost var shown := [startFrom];
      var nextChange := startFrom;
      ReturnedFirst(startFrom, before);
      while |res| < limit
        invariant Valid() && Walked(old(changes), changes, shown, startFrom.codebase, walk)
        invariant 0 < |shown| <= |walk| && shown[|shown| - 1] == nextChange && shown[0].id == startFrom.id
        invariant nextChange.id in changes && changes[nextChange.id] == nextChange
        invariant nextChange.codebase == startFrom.codebase && nextChange.commit == log[|shown| - 1]
        invariant |res| == (if before.Some? then |shown| - 1 else |shown|) && res == Returned(shown, before)
        invariant old(Remembering()) ==> Remembering()
      {
        LogAt(startFrom.commit, |shown| - 1);
        ghost var now := changes;
        var current, next := ParentChange(nextChange);
        if next.NotFound? {
          break;
        }
        assert UpTo(nextChange.commit.parents, 1) == [walk[|shown|]];
        WalkedMore(old(changes), now, changes, shown, current, next.value, startFrom.codebase, walk);
        SteppedTo(now, changes, nextChange, current, next.value);
        ReturnedMore(shown, before, current, next.value, res);
        shown := shown[|shown| - 1 := current] + [next.value];
        if res != [] {
          res := res[|res| - 1 := current];
        }
        res := res + [next.value];
        nextChange := next.value;
      }
      WalkedAll(old(changes), changes, shown, codebase, HeadCommit(codebase), limit, before, res);
      return Ok(res);
    }

    // -------------------------------------------------------------- recording landed commits

    /** Records a commit; the index stays right exactly if the parent is that of the commit. */
    method CreateWithChangeAsParent(codebase: string, workspace: string, commit: Commit, parent: Option<ID>)
      returns (r: Result<Change>)
      requires Valid() && (parent.Some? ==> parent.value < nextID)
      modifies this`changes, this`nextID
      ensures Unique(changes, nextID)
      ensures r.AlreadyExists? <==> old(Indexed(codebase, commit))
      ensures r.AlreadyExists? ==> changes == old(changes) && Valid()
      ensures !r.AlreadyExists? ==>
                && r.Ok? && r.value.id !in old(changes) && changes == old(changes)[r.value.id := r.value]
                && r.value.codebase == codebase && r.value.commit == commit && r.value.parent == parent
                && r.value.workspace == Some(workspace)
                && (Valid() <==> !IsRoot(commit) && ParentIsRight(old(changes), r.value))
      ensures old(Remembering()) ==> Remembering()
    {
      var existing := GetByCommitID(commit, codebase);
      if existing.Some? {
        return AlreadyExists;
      }
      r := Insert(codebase, commit, parent, Some(workspace));
    }

    method CreateWithCommitAsParent(codebase: string, workspace: string, commit: Commit, parentCommit: Commit)
      returns (r: Result<Change>)
      requires Valid()
      modifies this`changes, this`nextID
      ensures Unique(changes, nextID)
      ensures r.AlreadyExists? <==> old(Indexed(codebase, commit)) || (commit == parentCommit && !IsRoot(commit))
      ensures r.AlreadyExists? ==> Valid() && Grows(old(changes), changes, codebase, [parentCommit])
      ensures !r.AlreadyExists? ==>
                && r.Ok? && r.value.id in changes && changes[r.value.id] == r.value
                && r.value.codebase == codebase && r.value.commit == commit && r.value.workspace == Some(workspace)
                && Grows(old(changes), Without(changes, r.value.id), codebase, [parentCommit])
                && ParentNames(changes, r.value.parent, codebase, parentCommit)
                && (Valid() <==> && !IsRoot(commit)
                                 && (IsRoot(parentCommit) || (commit.parents != [] && commit.parents[0] == parentCommit)))
      ensures old(Remembering()) ==> Remembering()
    {
      var parent := GetChangeFromCommit(codebase, parentCommit);
      var parentID := if parent.Ok? then Some(parent.value.id) else None;
      ghost var now := changes;
      hide Unique, Faithful, Grows, Keeps, Without;
      r := CreateWithChangeAsParent(codebase, workspace, commit, parentID);
      if r.Ok? {
        WithoutNew(now, r.value);
        assert ParentIsRight(now, r.value) <==>
               (IsRoot(parentCommit) || (commit.parents != [] && commit.parents[0] == parentCommit));
      }
    }

    method CreateOnTop(codebase: string, workspace: string, commit: Commit) returns (r: Result<Change>)
      requires Valid()
      modifies this`changes, this`nextID
      ensures Unique(changes, nextID)
      ensures r.AlreadyExists? <==>
                old(Indexed(codebase, commit)) || (HeadCommit(codebase) == Some(commit) && !IsRoot(commit))
      ensures r.AlreadyExists? ==> Valid() && Grows(old(changes), changes, codebase, UpTo(TrunkLog(HeadCommit(codebase)), 1))
      ensures !r.AlreadyExists? ==>
                && r.Ok? && r.value.id in changes && changes[r.value.id] == r.value
                && r.value.codebase == codebase && r.value.commit == commit && r.value.workspace == Some(workspace)
                && Grows(old(changes), Without(changes, r.value.id), codebase, UpTo(TrunkLog(HeadCommit(codebase)), 1))
                && (if TrunkLog(HeadCommit(codebase)) == [] then r.value.parent.None?
                    else ParentNames(changes, r.value.parent, codebase, HeadCommit(codebase).value))
                && (Valid() <==> && !IsRoot(commit)
                                 && (TrunkLog(HeadCommit(codebase)) == []
                                     || (commit.parents != [] && Some(commit.parents[0]) == HeadCommit(codebase))))
      ensures old(Remembering()) ==> Remembering()
    {
      var head := Head(codebase);
      var parentID := if head.Ok? then Some(head.value.id) else None;
      ghost var now := changes;
      hide Unique, Faithful, Grows, Keeps, Without, TrunkLog, Log, UpTo, IsRoot;
      r := CreateWithChangeAsParent(codebase, workspace, commit, parentID);
      if r.Ok? {
        WithoutNew(now, r.value);
      }
    }

    // -------------------------------------------------------------- the remembered head

    /** The trunk of a codebase has moved. */
    method TrunkMoved(codebase: string, commit: Commit)
      requires Valid()
      modifies this`trunks, this`stale
      ensures Valid() && Heads() == Moved(old(Heads()), codebase, commit)
      ensures trunks == old(trunks)[codebase := commit]
      ensures old(Remembering()) ==> Remembering()
    {
      if Remembering() {
        MovedIsRight(changes, Heads(), codebase, commit);
      }
      trunks := trunks[codebase := commit];
      stale := stale + {codebase};
    }

    /** What the codebase record remembers is what looking at the head of trunk would find. */
    ghost predicate Remembers(cb: Codebase)
      reads this
    {
      Recalls(changes, HeadCommit(cb.id), cb)
    }

    /** Writes the record of a codebase, if there is one; right: what it remembers is the head of trunk. */
    method Update(cb: Codebase, ghost right: bool)
      requires Valid() && (right ==> Remembers(cb))
      modifies this`codebases, this`stale
      ensures Valid() && Heads() == Written(old(Heads()), cb, right)
      ensures codebases == if cb.id in old(codebases) then old(codebases)[cb.id := cb] else old(codebases)
      ensures old(Remembering()) ==> Remembering()
    {
      if Remembering() {
        WrittenIsRight(changes, Heads(), cb, right);
      }
      if cb.id in codebases {
        codebases := codebases[cb.id := cb];
        stale := if right then stale - {cb.id} else stale + {cb.id};
      }
    }

    /** The head change, remembered if it was looked up before. It is the one that git would name
        exactly if what the record remembers is right, as it is in the stored record of a codebase
        that is not stale. */
    method HeadChange(cb: Codebase) returns (updated: Codebase, r: Result<Change>)
      requires Valid()
      modifies this`changes, this`nextID, this`codebases, this`stale
      ensures Valid() && Grows(old(changes), changes, cb.id, UpTo(TrunkLog(HeadCommit(cb.id)), 1))
      ensures NamesHead(HeadCommit(cb.id), cb.id, r) <==> old(Remembers(cb))
      ensures old(Remembering()) && cb in old(codebases).Values && cb.id !in old(stale) ==> NamesHead(HeadCommit(cb.id), cb.id, r)
      ensures r.Ok? ==> r.value.id in changes && changes[r.value.id] == r.value
      ensures cb.calculatedHead ==> updated == cb && r == Remembered(old(changes), cb) && Heads() == old(Heads())
      ensures !cb.calculatedHead ==>
                && updated == Codebase(cb.id, true, if r.Ok? then Some(r.value.id) else None)
                && Heads() == Written(old(Heads()), updated, true)
                && (cb.id in old(codebases) ==> codebases == old(codebases)[cb.id := updated])
      ensures old(Remembering()) ==> Remembering()
    {
      if cb.calculatedHead && cb.cachedHead.None? {
        return cb, NotFound;
      }
      if cb.calculatedHead && cb.cachedHead.Some? {
        var id := cb.cachedHead.value;
        return cb, if id in changes then Ok(changes[id]) else NoRows;
      }
      r := Head(cb.id);
      updated := cb.(calculatedHead := true, cachedHead := if r.Ok? then Some(r.value.id) else None);
      Update(updated, true);
    }

    method UnsetHeadChangeCache(codebase: string) returns (ok: bool)
      requires Valid()
      modifies this`codebases, this`stale
      ensures Valid() && (ok <==> codebase in old(codebases))
      ensures Heads() == Written(old(Heads()), Codebase(codebase, false, None), true)
      ensures ok ==> codebase !in stale && codebases == old(codebases)[codebase := Codebase(codebase, false, None)]
      ensures old(Remembering()) ==> Remembering()
    {
      if codebase !in codebases {
        return false;
      }
      Update(codebases[codebase].(calculatedHead := false, cachedHead := None), true);
      return true;
    }

    method SetAsHeadChange(ch: Change) returns (ok: bool)
      requires Valid()
      modifies this`codebases, this`stale
      ensures Valid() && (ok <==> ch.codebase in old(codebases))
      ensures Heads() == Written(old(Heads()), Codebase(ch.codebase, true, Some(ch.id)), IsHead(changes, trunks, ch))
      ensures ok ==> codebases == old(codebases)[ch.codebase := Codebase(ch.codebase, true, Some(ch.id))]
      ensures ok ==> (ch.codebase !in stale <==> IsHead(changes, trunks, ch))
      ensures ok && ch.id in changes && changes[ch.id] == ch ==>
                (Remembers(codebases[ch.codebase]) <==> IsHead(changes, trunks, ch))
      ensures old(Remembering()) ==> Remembering()
    {
      if ch.codebase !in codebases {
        return false;
      }
      Update(codebases[ch.codebase].(calculatedHead := true, cachedHead := Some(ch.id)), IsHead(changes, trunks, ch));
      return true;
    }
  }

  // ---------------------------------------------------------------- repeating and paging

  /** Repeating a changelog imports nothing, links nothing and returns the same changes. */
  lemma RepeatedChangelog(was: map<ID, Change>, now: map<ID, Change>, again: map<ID, Change>, codebase: string,
                          head: Option<Commit>, limit: int, before: Option<ID>, first: seq<Change>, second: seq<Change>)
    requires before.Some? ==> before.value in was
    requires IsChangelog(was, now, codebase, head, limit, before, first)
    requires IsChangelog(now, again, codebase, head, limit, before, second)
    ensures again == now && second == first
  {
    var walk := Walk(was, head, limit, before);
    var owner := if before.Some? then was[before.value].codebase else codebase;
    var shown := (if before.Some? then [now[before.value]] else []) + first;
    assert Walk(now, head, limit, before) == walk;
    assert Shows(now, shown, owner, walk);
    hide Walk, Grows, Log;
    assert Returned(shown, before) == first;
  }

  /** A changelog keeps to its limit, except that one of no changes from the head shows the head. */
  lemma KeepsToLimit(was: map<ID, Change>, now: map<ID, Change>, codebase: string, head: Option<Commit>, limit: nat,
                     before: Option<ID>, res: seq<Change>)
    requires (before.Some? ==> before.value in was) && IsChangelog(was, now, codebase, head, limit, before, res)
    ensures |res| <= limit <==> limit >= 1 || before.Some? || TrunkLog(head) == []
  {
    var walk := Walk(was, head, limit, before);
    var owner := if before.Some? then was[before.value].codebase else codebase;
    ShownLength(now, (if before.Some? then [now[before.value]] else []) + res, owner, walk);
  }

  function Ids(changes: seq<Change>): (ids: seq<ID>)
    ensures |ids| == |changes| && forall i :: 0 <= i < |changes| ==> ids[i] == changes[i].id
  {
    seq(|changes|, i requires 0 <= i < |changes| => changes[i].id)
  }

  lemma PagesOfLog(log: seq<Commit>, a: int, b: nat)
    requires 1 <= a <= |log|
    ensures UpTo(log[a - 1..], b + 1) != []
    ensures UpTo(log, a + b) == UpTo(log, a) + UpTo(log[a - 1..], b + 1)[1..]
  {
    var second := UpTo(log[a - 1..], b + 1);
    assert |second[1..]| == |UpTo(log, a + b)| - a;
    forall i | 0 <= i < |second[1..]|
      ensures second[1..][i] == UpTo(log, a + b)[a + i]
    {
    }
  }

  lemma ShownAt(changes: map<ID, Change>, shown: seq<Change>, codebase: string, log: seq<Commit>, i: nat)
    requires i < |log| && Shows(changes, shown, codebase, log)
    ensures |shown| == |log| && shown[i].id in changes && changes[shown[i].id] == shown[i]
    ensures shown[i].codebase == codebase && shown[i].commit == log[i]
  {
  }

  /** The id of a commit does not change. */
  lemma SameId(was: map<ID, Change>, now: map<ID, Change>, nextID: ID, a: Change, b: Change)
    requires Unique(now, nextID) && KeepsCommits(was, now)
    requires a.id in was && was[a.id] == a && b.id in now && now[b.id] == b && SameCommit(a, b)
    ensures a.id == b.id
  {
    assert SameCommit(now[a.id], now[b.id]);
  }

  /** Two pages of a history, side by side with the whole. */
  lemma PagesOfShown(c1: map<ID, Change>, c2: map<ID, Change>, c3: map<ID, Change>, nextID: ID, codebase: string,
                     p: seq<Commit>, q: seq<Commit>, first: seq<Change>, second: seq<Change>, whole: seq<Change>)
    requires Unique(c3, nextID) && KeepsCommits(c1, c3) && KeepsCommits(c2, c3)
    requires Shows(c1, first, codebase, p) && Shows(c2, second, codebase, q) && Shows(c3, whole, codebase, p + q)
    ensures Ids(whole) == Ids(first) + Ids(second)
  {
    assert |first| == |p| && |second| == |q| && |whole| == |p| + |q|;
    hide Shows, Unique, KeepsCommits;
    forall i | 0 <= i < |whole|
      ensures whole[i].id == if i < |p| then first[i].id else second[i - |p|].id
    {
      ShownAt(c3, whole, codebase, p + q, i);
      if i < |p| {
        ShownAt(c1, first, codebase, p, i);
        SameId(c1, c3, nextID, first[i], whole[i]);
      } else {
        ShownAt(c2, second, codebase, q, i - |p|);
        SameId(c2, c3, nextID, second[i - |p|], whole[i]);
      }
    }
  }

  lemma FirstPage(changes: map<ID, Change>, first: seq<Change>, codebase: string, head: Option<Commit>, a: int)
    requires 1 <= a == |first| && Shows(changes, first, codebase, UpTo(TrunkLog(head), a))
    ensures var log := TrunkLog(head);
            && a <= |log| && head.Some?
            && first[a - 1].id in changes && changes[first[a - 1].id] == first[a - 1]
            && first[a - 1].codebase == codebase && first[a - 1].commit == log[a - 1]
            && Log(first[a - 1].commit) == log[a - 1..]
  {
    LogAt(head.value, a - 1);
  }

  /** A limit beyond the end of a history is as good as the length of the history. */
  lemma LimitAtEnd(log: seq<Commit>, a: int, b: nat, n: nat)
    requires a >= 1 && n == |UpTo(log, a)|
    ensures UpTo(log, a) == UpTo(log, n) && UpTo(log, a + b) == UpTo(log, n + b)
  {
  }

  /** A page of up to a changes, then the page of b changes before its last one, are what a single
      changelog of a + b changes returns. */
  lemma PagesCompose(c0: map<ID, Change>, c1: map<ID, Change>, c2: map<ID, Change>, c3: map<ID, Change>, nextID: ID,
                     codebase: string, head: Option<Commit>, a: int, b: nat,
                     first: seq<Change>, second: seq<Change>, whole: seq<Change>)
    requires Unique(c3, nextID) && a >= 1 && first != []
    requires IsChangelog(c0, c1, codebase, head, a, None, first) && first[|first| - 1].id in c1
    requires IsChangelog(c1, c2, codebase, head, b, Some(first[|first| - 1].id), second)
    requires IsChangelog(c2, c3, codebase, head, a + b, None, whole)
    ensures Ids(whole) == Ids(first) + Ids(second)
  {
    var n, log := |first|, TrunkLog(head);
    var last := first[n - 1];
    var rest := UpTo(log[n - 1..], b + 1);
    hide Walk, Log, Shows, Unique, Grows, IsChangelog, KeepsCommits, UpTo, TrunkLog;
    ChangelogFromHead(c0, c1, codebase, head, a, first);
    ChangelogFromHead(c2, c3, codebase, head, a + b, whole);
    ShownLength(c1, first, codebase, UpTo(log, a));
    LimitAtEnd(log, a, b, n);
    FirstPage(c1, first, codebase, head, n);
    ChangelogBefore(c1, c2, codebase, head, b, last.id, second);
    PagesOfLog(log, n, b);
    KeepsCommitsTwice(c1, c2, c3);
    PagesOfShown(c1, c2, c3, nextID, codebase, UpTo(log, n), rest[1..], first, second, whole);
  }

  lemma ChangelogFromHead(was: map<ID, Change>, now: map<ID, Change>, codebase: string, head: Option<Commit>, limit: int,
                          res: seq<Change>)
    requires IsChangelog(was, now, codebase, head, limit, None, res) && limit >= 1
    ensures Shows(now, res, codebase, UpTo(TrunkLog(head), limit)) && KeepsCommits(was, now)
  {
    hide Shows;
    assert [] + res == res;
  }

  lemma ChangelogBefore(was: map<ID, Change>, now: map<ID, Change>, codebase: string, head: Option<Commit>, limit: nat,
                        before: ID, res: seq<Change>)
    requires before in was && IsChangelog(was, now, codebase, head, limit, Some(before), res)
    ensures UpTo(Log(was[before].commit), limit + 1) != []
    ensures Shows(now, res, was[before].codebase, UpTo(Log(was[before].commit), limit + 1)[1..]) && KeepsCommits(was, now)
  {
    var walk := UpTo(Log(was[before].commit), limit + 1);
    var shown := [now[before]] + res;
    assert Shows(now, shown, was[before].codebase, walk);
    assert shown[1..] == res && forall i :: 0 <= i < |res| ==> res[i] == shown[i + 1];
  }
}
