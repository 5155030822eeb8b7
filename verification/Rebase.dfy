/** Replaying commits on top of another one, stopping at conflicts until they are resolved. */
module Rebase {
  import opened Wrappers
  import opened CommitGraph

  /** What two sides made of a file; a side that deleted it has None. */
  datatype Conflict = Conflict(our: Option<string>, their: Option<string>)

  /** The working directory and the index after a commit has been applied on top of HEAD. */
  datatype Workdir = Workdir(files: Tree, entries: Tree, conflicts: map<string, Conflict>)

  /** Applying a commit on top of another one: a three-way merge that is not part of this model. */
  type Applier = (Commit, Commit) -> Workdir

  datatype RebasedCommit = NewCommit(oldCommit: Commit, newCommit: Commit) | Noop(oldCommit: Commit)

  datatype Resolve = Resolve(path: string, version: string)

  datatype Status = CanContinue | HaveConflicts | Completed

  function OldCommits(log: seq<RebasedCommit>): (r: seq<Commit>)
    ensures |r| == |log| && forall i :: 0 <= i < |log| ==> r[i] == log[i].oldCommit
  {
    seq(|log|, i requires 0 <= i < |log| => log[i].oldCommit)
  }

  /** The commit that replaying leads to: every new commit is made on top of the one before. */
  predicate Replays(onto: Commit, log: seq<RebasedCommit>, head: Commit)
    decreases |log|
  {
    if log == [] then head == onto
    else
      match log[|log| - 1]
      case Noop(_) => Replays(onto, log[..|log| - 1], head)
      case NewCommit(o, n) =>
        n == head && |n.parents| == 1 && n.message == o.message && Replays(onto, log[..|log| - 1], n.parents[0])
  }

  lemma {:induction false} ReplaysIsLinear(onto: Commit, log: seq<RebasedCommit>, head: Commit)
    requires Replays(onto, log, head)
    ensures LinearSince(head, onto)
    decreases |log|
  {
    if log != [] {
      var last := log[|log| - 1];
      ReplaysIsLinear(onto, log[..|log| - 1], if last.Noop? then head else head.parents[0]);
    }
  }

  /** What replaying from some moment on leads to: the commits made, and where it stops. */
  datatype Outcome = Outcome(log: seq<RebasedCommit>, head: Commit, workdir: Workdir, current: Option<nat>, conflicts: bool)

  function After(log: seq<RebasedCommit>, rest: Outcome): Outcome
  {
    rest.(log := log + rest.log)
  }

  /** One operation whose conflicts have been resolved: the files as they are become a commit on
      top of the head, or none if they are those of the head. */
  function Committed(operation: Commit, head: Commit, files: Tree): RebasedCommit
  {
    if files == head.tree then Noop(operation) else NewCommit(operation, Commit([head], files, operation.message))
  }

  function HeadAfter(rebased: RebasedCommit, head: Commit): Commit
  {
    match rebased
    case Noop(_) => head
    case NewCommit(_, n) => n
  }

  /** Replays the operations from the i-th on, which has been applied to the working directory. */
  function Replay(operations: seq<Commit>, i: nat, head: Commit, workdir: Workdir, applied: Applier): Outcome
    requires i < |operations|
    decreases |operations| - i
  {
    if workdir.conflicts != map[] then Outcome([], head, workdir, Some(i), true)
    else
      var rebased := Committed(operations[i], head, workdir.files);
      var after := HeadAfter(rebased, head);
      if i + 1 < |operations| then After([rebased], Replay(operations, i + 1, after, applied(operations[i + 1], after), applied))
      else Outcome([rebased], after, workdir.(entries := workdir.files), Some(i), false)
  }

  function ReplayFrom(operations: seq<Commit>, current: Option<nat>, head: Commit, workdir: Workdir, applied: Applier): Outcome
    requires current.Some? ==> current.value < |operations|
  {
    if current.Some? then Replay(operations, current.value, head, workdir, applied)
    else if operations == [] then Outcome([], head, workdir, None, false)
    else Replay(operations, 0, head, applied(operations[0], head), applied)
  }

  /** How many operations were replayed before the one that is being replayed. */
  function Started(current: Option<nat>): nat
  {
    if current.None? then 0 else current.value
  }

  /** The first operations have been replayed, each exactly once and in order. */
  predicate Recorded(operations: seq<Commit>, done: nat, onto: Commit, log: seq<RebasedCommit>, head: Commit)
  {
    done <= |operations| && OldCommits(log) == operations[..done] && Replays(onto, log, head)
  }

  /** Replaying the next operation. */
  lemma RecordedMore(operations: seq<Commit>, done: nat, onto: Commit, log: seq<RebasedCommit>, head: Commit, files: Tree)
    requires Recorded(operations, done, onto, log, head) && done < |operations|
    ensures var rebased := Committed(operations[done], head, files);
            Recorded(operations, done + 1, onto, log + [rebased], HeadAfter(rebased, head))
  {
    var rebased := Committed(operations[done], head, files);
    var more := log + [rebased];
    assert more[..|more| - 1] == log;
    assert OldCommits(more) == OldCommits(log) + [operations[done]];
  }

  lemma AfterNothing(rest: Outcome)
    ensures After([], rest) == rest
  {
    assert [] + rest.log == rest.log;
  }

  lemma AfterOneMore(log: seq<RebasedCommit>, rebased: RebasedCommit, rest: Outcome)
    ensures After(log, After([rebased], rest)) == After(log + [rebased], rest)
  {
    assert log + ([rebased] + rest.log) == log + [rebased] + rest.log;
  }

  /** How many operations have been replayed where replaying stops. */
  function DoneAt(operations: seq<Commit>, outcome: Outcome): nat
  {
    if !outcome.conflicts then |operations| else Started(outcome.current)
  }

  lemma ReplayStops(done: seq<RebasedCommit>, operations: seq<Commit>, i: nat, head: Commit, workdir: Workdir, applied: Applier)
    requires i < |operations| && workdir.conflicts != map[]
    ensures After(done, Replay(operations, i, head, workdir, applied)) == Outcome(done, head, workdir, Some(i), true)
  {
    assert done + [] == done;
  }

  /** The same where a rebase stands: it stops at the i-th operation, or commits it and goes on. */
  lemma Stands(done: seq<RebasedCommit>, operations: seq<Commit>, i: nat, head: Commit, workdir: Workdir, applied: Applier)
    requires i < |operations|
    ensures After(done, ReplayFrom(operations, Some(i), head, workdir, applied)) ==
            if workdir.conflicts != map[] then Outcome(done, head, workdir, Some(i), true)
            else Went(done, operations, i, head, workdir.files, workdir.(entries := workdir.files), applied)
  {
    hide Replay, After, Committed, HeadAfter;
    if workdir.conflicts != map[] {
      ReplayStops(done, operations, i, head, workdir, applied);
    } else {
      ReplaySteps(done, operations, i, head, workdir, applied);
    }
  }

  /** The last commit that was completed, if these were. */
  function LastOf(log: seq<RebasedCommit>, before: Option<Commit>): Option<Commit>
  {
    if log == [] then before else Some(log[|log| - 1].oldCommit)
  }

  lemma LastOfNone(before: Option<Commit>)
    ensures LastOf([], before) == before
  {
  }

  lemma LastOfMore(log: seq<RebasedCommit>, rebased: RebasedCommit, before: Option<Commit>)
    ensures LastOf(log + [rebased], before) == Some(rebased.oldCommit)
  {
  }

  lemma LastIsLast(log: seq<RebasedCommit>, before: Option<Commit>)
    ensures LastOf(log, before) == if log == [] then before else Some(OldCommits(log)[|log| - 1])
  {
  }

  /** Where a rebase gets after the files have been committed for the i-th operation. */
  ghost function Went(done: seq<RebasedCommit>, operations: seq<Commit>, i: nat, head: Commit, files: Tree, added: Workdir,
                      applied: Applier): Outcome
    requires i < |operations|
  {
    var rebased := Committed(operations[i], head, files);
    var after := HeadAfter(rebased, head);
    if i + 1 < |operations| then
      After(done + [rebased], ReplayFrom(operations, Some(i + 1), after, applied(operations[i + 1], after), applied))
    else Outcome(done + [rebased], after, added, Some(i), false)
  }

  lemma ReplayStarts(operations: seq<Commit>, head: Commit, workdir: Workdir, applied: Applier)
    ensures After([], ReplayFrom(operations, None, head, workdir, applied)) ==
            if operations == [] then Outcome([], head, workdir, None, false)
            else After([], ReplayFrom(operations, Some(0), head, applied(operations[0], head), applied))
  {
    AfterNothing(ReplayFrom(operations, None, head, workdir, applied));
  }

  lemma StuckReplay(operations: seq<Commit>, current: Option<nat>, head: Commit, workdir: Workdir, applied: Applier)
    requires current.Some? ==> current.value < |operations|
    ensures current.Some? && workdir.conflicts != map[] ==>
              ReplayFrom(operations, current, head, workdir, applied) == Outcome([], head, workdir, current, true)
  {
  }

  lemma ReplaySteps(done: seq<RebasedCommit>, operations: seq<Commit>, i: nat, head: Commit, workdir: Workdir, applied: Applier)
    requires i < |operations| && workdir.conflicts == map[]
    ensures var rebased := Committed(operations[i], head, workdir.files);
            var after := HeadAfter(rebased, head);
            After(done, Replay(operations, i, head, workdir, applied)) ==
            if i + 1 < |operations| then
              After(done + [rebased], Replay(operations, i + 1, after, applied(operations[i + 1], after), applied))
            else Outcome(done + [rebased], after, workdir.(entries := workdir.files), Some(i), false)
  {
    if i + 1 < |operations| {
      var rebased := Committed(operations[i], head, workdir.files);
      var after := HeadAfter(rebased, head);
      AfterOneMore(done, rebased, Replay(operations, i + 1, after, applied(operations[i + 1], after), applied));
    }
  }

  /** Where replaying stops: at a conflict, or at the end. */
  predicate StopsRight(operations: seq<Commit>, i: nat, o: Outcome)
  {
    && o.current.Some? && o.current.value < |operations| && (o.conflicts ==> o.workdir.conflicts != map[])
    && i <= DoneAt(operations, o)
  }

  /** Replaying continues the record with the next operations, in order, each exactly once. */
  lemma {:induction false} ReplayIsRecorded(operations: seq<Commit>, i: nat, onto: Commit, log: seq<RebasedCommit>, head: Commit,
                                            workdir: Workdir, applied: Applier)
    requires i < |operations| && Recorded(operations, i, onto, log, head)
    ensures var o := After(log, Replay(operations, i, head, workdir, applied));
            StopsRight(operations, i, o) && Recorded(operations, DoneAt(operations, o), onto, o.log, o.head)
    decreases |operations| - i
  {
    hide Recorded, Replay, After;
    if workdir.conflicts != map[] {
      ReplayStops(log, operations, i, head, workdir, applied);
    } else {
      var rebased := Committed(operations[i], head, workdir.files);
      var after := HeadAfter(rebased, head);
      hide Committed, HeadAfter;
      ReplaySteps(log, operations, i, head, workdir, applied);
      RecordedMore(operations, i, onto, log, head, workdir.files);
      if i + 1 < |operations| {
        ReplayIsRecorded(operations, i + 1, onto, log + [rebased], after, applied(operations[i + 1], after), applied);
      }
    }
  }

  /** What has been replayed between two moments are the operations between them. */
  lemma ReplayedBetween(operations: seq<Commit>, before: nat, after: nat, onto: Commit, log: seq<RebasedCommit>,
                        more: seq<RebasedCommit>, h0: Commit, h1: Commit)
    requires Recorded(operations, before, onto, log, h0) && Recorded(operations, after, onto, log + more, h1)
    ensures before <= after && OldCommits(more) == operations[before..after]
  {
    assert |OldCommits(log)| == before && |OldCommits(log + more)| == after;
    forall i | 0 <= i < |more|
      ensures OldCommits(more)[i] == operations[before + i]
    {
      assert OldCommits(log + more)[before + i] == (log + more)[before + i].oldCommit;
    }
  }

  lemma ReplayFromIsRecorded(operations: seq<Commit>, current: Option<nat>, onto: Commit, log: seq<RebasedCommit>, head: Commit,
                             workdir: Workdir, applied: Applier)
    requires (current.Some? ==> current.value < |operations|)
    requires Recorded(operations, Started(current), onto, log, head)
    ensures var o := ReplayFrom(operations, current, head, workdir, applied);
            var before, after := Started(current), DoneAt(operations, o);
            && (o.current.Some? ==> o.current.value < |operations|)
            && (o.conflicts ==> o.current.Some? && o.workdir.conflicts != map[])
            && Recorded(operations, after, onto, log + o.log, o.head)
            && before <= after && OldCommits(o.log) == operations[before..after]
  {
    hide Recorded, Replay, OldCommits;
    var o := ReplayFrom(operations, current, head, workdir, applied);
    var before := if current.None? then 0 else current.value;
    if operations == [] {
      assert log + [] == log;
    } else {
      var start := if current.None? then applied(operations[0], head) else workdir;
      ReplayIsRecorded(operations, before, onto, log, head, start, applied);
    }
    ReplayedBetween(operations, before, DoneAt(operations, o), onto, log, o.log, head, o.head);
  }

  /** What resolving one conflict makes of the files and of the index; None if it fails. */
  function Resolved(w: Workdir, r: Resolve): Option<Workdir>
  {
    if r.path !in w.conflicts then None
    else
      var conflict, rest := w.conflicts[r.path], w.conflicts - {r.path};
      if r.version == "custom" then
        if r.path in w.files then Some(Workdir(w.files, w.entries[r.path := w.files[r.path]], rest)) else None
      else if r.version == "workspace" then Chosen(w, r.path, conflict.their, rest)
      else if r.version == "trunk" then Chosen(w, r.path, conflict.our, rest)
      else None
  }

  /** Whether a conflict can be resolved like this: the file is there, or the chosen side has a content for it. */
  predicate CanResolve(w: Workdir, r: Resolve)
  {
    && r.path in w.conflicts
    && (|| (r.version == "custom" && r.path in w.files)
        || (r.version == "workspace" && (w.conflicts[r.path].their.Some? || r.path in w.files))
        || (r.version == "trunk" && (w.conflicts[r.path].our.Some? || r.path in w.files)))
  }

  /** Every resolution is for another conflict, and each can be done in the working directory as it is. */
  predicate CanResolveAll(w: Workdir, resolves: seq<Resolve>)
  {
    && (forall i :: 0 <= i < |resolves| ==> CanResolve(w, resolves[i]))
    && (forall i, j :: 0 <= i < j < |resolves| ==> resolves[i].path != resolves[j].path)
  }

  function Chosen(w: Workdir, path: string, use: Option<string>, rest: map<string, Conflict>): Option<Workdir>
  {
    match use
    case Some(blob) => Some(Workdir(w.files[path := blob], w.entries[path := blob], rest))
    case None => if path in w.files then Some(Workdir(w.files - {path}, w.entries - {path}, rest)) else None
  }

  /** Resolving conflicts one after the other; None if one of them fails. */
  function AllOf(w: Workdir, resolves: seq<Resolve>): Option<Workdir>
  {
    if resolves == [] then Some(w)
    else
      match AllOf(w, resolves[..|resolves| - 1])
      case None => None
      case Some(mid) => Resolved(mid, resolves[|resolves| - 1])
  }

  class SturdyRebase {
    // the repository
    var head: Commit
    var workdir: Workdir
    const applied: Applier
    // the rebase of the git library: the commits to replay and the one being replayed
    const operations: seq<Commit>
    var current: Option<nat>
    // the rebase itself
    var completed: bool
    var lastCompletedCommit: Option<Commit>
    // what has been replayed since the rebase began, also before this object was opened
    ghost const onto: Commit
    ghost var log: seq<RebasedCommit>

    /** How many operations have been replayed. */
    ghost function Done(): nat
      reads this
    {
      if completed then |operations| else Started(current)
    }

    /** What has been replayed so far: the operations in order, each exactly once. */
    ghost predicate Valid()
      reads this
    {
      && (current.Some? ==> current.value < |operations|)
      && Recorded(operations, Done(), onto, log, head)
    }

    constructor (operations: seq<Commit>, onto: Commit, applied: Applier)
      ensures Valid() && !completed && current.None? && this.operations == operations && this.onto == onto
      ensures log == [] && head == onto && workdir == Workdir(onto.tree, onto.tree, map[])
      ensures this.applied == applied && lastCompletedCommit == None
    {
      this.operations, this.onto, this.applied := operations, onto, applied;
      head, workdir := onto, Workdir(onto.tree, onto.tree, map[]);
      current, completed, lastCompletedCommit := None, false, None;
      log := [];
    }

    /** Resumes a rebase from what the repository holds of it. */
    constructor OpenRebase(operations: seq<Commit>, current: Option<nat>, head: Commit, workdir: Workdir, applied: Applier,
                           ghost onto: Commit, ghost log: seq<RebasedCommit>)
      requires (current.Some? ==> current.value < |operations|)
      requires Recorded(operations, Started(current), onto, log, head)
      ensures Valid() && !completed && lastCompletedCommit == None
      ensures this.operations == operations && this.current == current && this.head == head && this.workdir == workdir
      ensures this.applied == applied && this.onto == onto && this.log == log
    {
      this.operations, this.onto, this.applied := operations, onto, applied;
      this.head, this.workdir, this.current := head, workdir, current;
      completed, lastCompletedCommit := false, None;
      this.log := log;
    }

    /** Starts replaying the next operation; there may be none left. */
    method Next() returns (more: bool)
      requires current.Some? ==> current.value < |operations|
      modifies this`current, this`workdir
      ensures var next := if old(current).None? then 0 else old(current).value + 1;
              && (more <==> next < |operations|)
              && (more ==> current == Some(next) && workdir == applied(operations[next], head))
              && (!more ==> current == old(current) && workdir == old(workdir))
    {
      var next := if current.None? then 0 else current.value + 1;
      if next >= |operations| {
        return false;
      }
      current := Some(next);
      workdir := applied(operations[next], head);
      return true;
    }

    /** Adds all files to the index and commits it on top of HEAD, unless that changes nothing. */
    method Commit(operation: Commit) returns (noop: bool)
      modifies this`head, this`workdir
      ensures workdir == old(workdir).(entries := old(workdir).files)
      ensures noop <==> old(workdir).files == old(head).tree
      ensures head == if noop then old(head) else CommitGraph.Commit([old(head)], old(workdir).files, operation.message)
      ensures var rebased := Committed(operation, old(head), old(workdir).files);
              head == HeadAfter(rebased, old(head)) && rebased == if noop then Noop(operation) else NewCommit(operation, head)
    {
      workdir := workdir.(entries := workdir.files);
      if workdir.entries == head.tree {
        return true;
      }
      head := CommitGraph.Commit([head], workdir.entries, operation.message);
      return false;
    }

    /** Replays until the next conflict or to the end. */
    method ReplayRest() returns (conflicts: bool, rebasedCommits: seq<RebasedCommit>)
      requires current.Some? ==> current.value < |operations|
      modifies this`head, this`workdir, this`current, this`lastCompletedCommit
      ensures Outcome(rebasedCommits, head, workdir, current, conflicts) ==
              ReplayFrom(operations, old(current), old(head), old(workdir), applied)
      ensures lastCompletedCommit == LastOf(rebasedCommits, old(lastCompletedCommit))
    {
      ghost var outcome := ReplayFrom(operations, current, head, workdir, applied);
      hide OldCommits, After, Replay, ReplayFrom, LastOf, Committed, HeadAfter;
      LastOfNone(lastCompletedCommit);
      rebasedCommits := [];
      AfterNothing(outcome);
      while true
        invariant (current.Some? ==> current.value < |operations|) && (current.None? ==> rebasedCommits == [])
        invariant After(rebasedCommits, ReplayFrom(operations, current, head, workdir, applied)) == outcome
        invariant lastCompletedCommit == LastOf(rebasedCommits, old(lastCompletedCommit))
        decreases if current.None? then |operations| + 1 else |operations| - current.value
      {
        if current.None? {
          ReplayStarts(operations, head, workdir, applied);
          var more := Next();
          if !more {
            return false, rebasedCommits;
          }
        }
        var operation := operations[current.value];
        Stands(rebasedCommits, operations, current.value, head, workdir, applied);
        if workdir.conflicts != map[] {
          return true, rebasedCommits;
        }
        ghost var was, before := head, workdir;
        var noop := Commit(operation);
        var rebased := if noop then Noop(operation) else NewCommit(operation, head);
        assert rebased == Committed(operation, was, before.files) && head == HeadAfter(rebased, was);
        assert workdir == before.(entries := before.files);
        LastOfMore(rebasedCommits, rebased, old(lastCompletedCommit));
        rebasedCommits := rebasedCommits + [rebased];
        lastCompletedCommit := Some(operation);
        var more := Next();
        if !more {
          return false, rebasedCommits;
        }
      }
    }

    /** Replays until the next conflict or to the end. The commits it returns are the next
        ones of the rebase; with an unresolved conflict it does nothing. */
    method Continue() returns (conflicts: bool, rebasedCommits: seq<RebasedCommit>)
      requires Valid() && !completed
      modifies this
      ensures Outcome(rebasedCommits, head, workdir, current, conflicts) ==
              ReplayFrom(operations, old(current), old(head), old(workdir), applied)
      ensures Valid() && log == old(log) + rebasedCommits && completed == !conflicts
      ensures lastCompletedCommit == LastOf(rebasedCommits, old(lastCompletedCommit))
      ensures OldCommits(rebasedCommits) == operations[old(Done())..Done()]
      ensures lastCompletedCommit == if Done() == old(Done()) then old(lastCompletedCommit) else Some(operations[Done() - 1])
      ensures conflicts ==> current.Some? && workdir.conflicts != map[]
      ensures old(current.Some? && workdir.conflicts != map[]) ==>
                && conflicts && rebasedCommits == [] && head == old(head) && workdir == old(workdir)
                && current == old(current)
    {
      hide Recorded, OldCommits, Replay;
      ReplayFromIsRecorded(operations, current, onto, log, head, workdir, applied);
      StuckReplay(operations, current, head, workdir, applied);
      conflicts, rebasedCommits := ReplayRest();
      log := log + rebasedCommits;
      LastIsLast(rebasedCommits, old(lastCompletedCommit));
      if conflicts {
        return;
      }
      completed := true;
    }

    // -------------------------------------------------------------- resolving conflicts

    method ResolveFile(filePath: string, version: string) returns (ok: bool)
      modifies this`workdir
      ensures var r := Resolved(old(workdir), Resolve(filePath, version));
              (ok <==> r.Some?) && workdir == if r.Some? then r.value else old(workdir)
      ensures ok <==> CanResolve(old(workdir), Resolve(filePath, version))
      ensures ok ==>
                var side := Side(old(workdir), Resolve(filePath, version));
                && filePath !in workdir.conflicts
                && Has(workdir.files, filePath, side) && Has(workdir.entries, filePath, side)
                && forall path :: path != filePath ==> SameAt(old(workdir), workdir, path)
    {
      if filePath !in workdir.conflicts {
        return false;
      }
      var conflict := workdir.conflicts[filePath];
      var use: Option<string>;
      match version {
        case "custom" =>
          if filePath !in workdir.files {
            return false;
          }
          workdir := Workdir(workdir.files, workdir.entries[filePath := workdir.files[filePath]], workdir.conflicts - {filePath});
          return true;
        case "workspace" =>
          use := conflict.their;
        case "trunk" =>
          use := conflict.our;
        case _ =>
          return false;
      }
      var files, entries := workdir.files, workdir.entries;
      match use {
        case Some(blob) =>
          files := files[filePath := blob];
          entries := entries[filePath := blob];
        case None =>
          if filePath !in files {
            return false;
          }
          files := files - {filePath};
          entries := entries - {filePath};
      }
      workdir := Workdir(files, entries, workdir.conflicts - {filePath});
      return true;
    }

    /** Resolves conflicts one after the other. It succeeds exactly if every resolution is for another
        conflict and can be done in the working directory as it was; then these and no other paths have changed, each to the side that was chosen, and they are no conflicts
        any more. The commits replayed so far stay as they are. */
    method ResolveFiles(resolves: seq<Resolve>) returns (ok: bool)
      requires Valid()
      modifies this`workdir
      ensures Valid()
      ensures ok <==> CanResolveAll(old(workdir), resolves)
      ensures ok <==> AllOf(old(workdir), resolves).Some?
      ensures ok ==> workdir == AllOf(old(workdir), resolves).value && AllResolved(old(workdir), workdir, resolves)
    {
      hide Recorded, Resolved, AllResolved, CanResolve, CanResolveAll, SameAt, Has, Side;
      ResolvableTogether(workdir, resolves);
      NothingResolved(workdir, resolves[..0]);
      for i := 0 to |resolves|
        invariant AllOf(old(workdir), resolves[..i]) == Some(workdir)
        invariant AllResolved(old(workdir), workdir, resolves[..i])
      {
        ghost var before := workdir;
        assert resolves[..i + 1] == resolves[..i] + [resolves[i]];
        OneMore(old(workdir), resolves[..i], resolves[i]);
        ok := ResolveFile(resolves[i].path, resolves[i].version);
        if !ok {
          OneFails(old(workdir), resolves, i);
          return false;
        }
        ResolvedMore(old(workdir), before, workdir, resolves[..i], resolves[i]);
      }
      assert resolves[..|resolves|] == resolves;
      return true;
    }

    method GetStatus() returns (status: Status)
      ensures status.Completed? <==> completed
      ensures status.HaveConflicts? <==> !completed && workdir.conflicts != map[]
    {
      if completed {
        return Completed;
      }
      return if workdir.conflicts != map[] then HaveConflicts else CanContinue;
    }
  }

  lemma NothingResolved(w: Workdir, resolves: seq<Resolve>)
    requires resolves == []
    ensures AllOf(w, resolves) == Some(w) && AllResolved(w, w, resolves)
  {
  }

  lemma OneMore(w: Workdir, resolves: seq<Resolve>, r: Resolve)
    requires AllOf(w, resolves).Some?
    ensures AllOf(w, resolves + [r]) == Resolved(AllOf(w, resolves).value, r)
  {
    assert (resolves + [r])[..|resolves|] == resolves;
  }

  lemma {:induction false} OneFails(w: Workdir, resolves: seq<Resolve>, i: nat)
    requires i < |resolves| && AllOf(w, resolves[..i + 1]).None?
    ensures AllOf(w, resolves).None?
  {
    if i + 1 == |resolves| {
      assert resolves[..i + 1] == resolves;
    } else {
      assert resolves[..|resolves| - 1][..i + 1] == resolves[..i + 1];
      OneFails(w, resolves[..|resolves| - 1], i);
    }
  }

  lemma ResolvableOne(w: Workdir, r: Resolve)
    ensures Resolved(w, r).Some? <==> CanResolve(w, r)
  {
  }

  /** Resolving other conflicts before neither helps nor hinders. */
  lemma ResolvableLater(was: Workdir, mid: Workdir, resolves: seq<Resolve>, r: Resolve)
    requires AllResolved(was, mid, resolves)
    ensures CanResolve(mid, r) <==>
            CanResolve(was, r) && forall i :: 0 <= i < |resolves| ==> resolves[i].path != r.path
  {
    hide Has, Side;
    if forall i :: 0 <= i < |resolves| ==> resolves[i].path != r.path {
      assert SameAt(was, mid, r.path);
    }
  }

  lemma ResolvableMore(w: Workdir, resolves: seq<Resolve>, r: Resolve)
    ensures CanResolveAll(w, resolves + [r]) <==>
            && CanResolveAll(w, resolves) && CanResolve(w, r)
            && forall i :: 0 <= i < |resolves| ==> resolves[i].path != r.path
  {
    hide CanResolve;
    var more, n := resolves + [r], |resolves|;
    assert more[n] == r && forall i :: 0 <= i < n ==> more[i] == resolves[i];
  }

  /** Resolving one conflict after the other succeeds exactly if each could be resolved at the start. */
  lemma {:induction false} ResolvableTogether(w: Workdir, resolves: seq<Resolve>)
    ensures AllOf(w, resolves).Some? <==> CanResolveAll(w, resolves)
    ensures AllOf(w, resolves).Some? ==> AllResolved(w, AllOf(w, resolves).value, resolves)
    decreases |resolves|
  {
    hide Resolved, AllResolved, CanResolve, CanResolveAll;
    if resolves == [] {
      NothingResolved(w, resolves);
      NothingToResolve(w);
    } else {
      var n := |resolves| - 1;
      var before, r := resolves[..n], resolves[n];
      assert resolves == before + [r];
      ResolvableTogether(w, before);
      ResolvableMore(w, before, r);
      if AllOf(w, before).Some? {
        var mid := AllOf(w, before).value;
        OneMore(w, before, r);
        ResolvableOne(mid, r);
        ResolvableLater(w, mid, before, r);
        if CanResolve(mid, r) {
          ResolvedMore(w, mid, Resolved(mid, r).value, before, r);
        }
      }
    }
  }

  lemma NothingToResolve(w: Workdir)
    ensures CanResolveAll(w, [])
  {
  }

  /** What continuing makes of a rebase whose conflicts have been resolved like this. */
  function Continued(operations: seq<Commit>, current: Option<nat>, head: Commit, workdir: Workdir, applied: Applier,
                     resolves: seq<Resolve>): Option<Outcome>
    requires (current.Some? ==> current.value < |operations|)
  {
    match AllOf(workdir, resolves)
    case None => None
    case Some(resolved) => Some(ReplayFrom(operations, current, head, resolved, applied))
  }

  /** For a rebase that stopped at its last operation: resolving succeeds exactly when every conflict is resolved. */
  lemma LastConflictsResolved(operations: seq<Commit>, head: Commit, workdir: Workdir, applied: Applier, resolves: seq<Resolve>)
    requires operations != []
    ensures var o := Continued(operations, Some(|operations| - 1), head, workdir, applied, resolves);
            o.Some? && !o.value.conflicts <==> CanResolveAll(workdir, resolves) && Names(resolves, workdir.conflicts.Keys)
  {
    ResolvableTogether(workdir, resolves);
    hide CanResolveAll, Names, AllResolved, AllOf;
    if CanResolveAll(workdir, resolves) {
      NoneLeft(workdir, AllOf(workdir, resolves).value, resolves);
    }
  }

  /** Each of these paths is resolved. */
  predicate Names(resolves: seq<Resolve>, paths: set<string>)
  {
    forall path :: path in paths ==> exists i :: 0 <= i < |resolves| && resolves[i].path == path
  }

  lemma NoneLeft(was: Workdir, now: Workdir, resolves: seq<Resolve>)
    requires AllResolved(was, now, resolves)
    ensures now.conflicts == map[] <==> Names(resolves, was.conflicts.Keys)
  {
    hide Has, Side;
    forall path | (exists i :: 0 <= i < |resolves| && resolves[i].path == path)
      ensures path !in now.conflicts
    {
    }
    forall path | !(exists i :: 0 <= i < |resolves| && resolves[i].path == path)
      ensures path in now.conflicts <==> path in was.conflicts
    {
      assert SameAt(was, now, path);
    }
    assert now.conflicts == map[] <==> forall path :: path in was.conflicts ==> path !in now.conflicts;
  }

  /** Resolving the conflicts of a rebase that was opened again. It succeeds exactly when every
      resolution does, the rebase then ends, and only one operation was left; when more were left
      they have been replayed all the same. */
  method ResolveConflicts(operations: seq<Commit>, current: Option<nat>, head: Commit, workdir: Workdir, applied: Applier,
                          resolves: seq<Resolve>, ghost onto: Commit, ghost log: seq<RebasedCommit>)
    returns (rebase: SturdyRebase, rebased: Option<RebasedCommit>)
    requires (current.Some? ==> current.value < |operations|)
    requires Recorded(operations, Started(current), onto, log, head)
    ensures fresh(rebase) && rebase.Valid() && rebase.operations == operations && rebase.onto == onto
    ensures var o := Continued(operations, current, head, workdir, applied, resolves);
            && (o.Some? <==> CanResolveAll(workdir, resolves))
            && (rebased.Some? <==> o.Some? && !o.value.conflicts && Started(current) + 1 == |operations|)
            && (o.None? ==> rebase.log == log && rebase.head == head && rebase.current == current)
            && (o.Some? ==> rebase.log == log + o.value.log && rebase.head == o.value.head && rebase.completed == !o.value.conflicts)
    ensures current == Some(|operations| - 1) ==>
              (rebased.Some? <==> CanResolveAll(workdir, resolves) && Names(resolves, workdir.conflicts.Keys))
    ensures rebased.Some? ==> rebase.log == log + [rebased.value] && rebased.value.oldCommit == operations[|operations| - 1]
  {
    hide Recorded, ReplayFrom, AllOf, CanResolveAll, Names, AllResolved;
    if current == Some(|operations| - 1) {
      LastConflictsResolved(operations, head, workdir, applied, resolves);
    }
    rebase := new SturdyRebase.OpenRebase(operations, current, head, workdir, applied, onto, log);
    var ok := rebase.ResolveFiles(resolves);
    if !ok {
      return rebase, None;
    }
    var conflicts, rebasedCommits := rebase.Continue();
    if conflicts || |rebasedCommits| != 1 {
      return rebase, None;
    }
    assert OldCommits(rebasedCommits)[0] == operations[|operations| - 1];
    return rebase, Some(rebasedCommits[0]);
  }

  /** The content a resolution chooses for a path: None if the file is to be deleted. */
  function Side(was: Workdir, r: Resolve): Option<string>
    requires r.path in was.conflicts
  {
    if r.version == "custom" then (if r.path in was.files then Some(was.files[r.path]) else None)
    else if r.version == "workspace" then was.conflicts[r.path].their
    else was.conflicts[r.path].our
  }

  predicate Has(files: Tree, path: string, content: Option<string>)
  {
    if content.None? then path !in files else path in files && files[path] == content.value
  }

  /** Every resolution is for another conflict, and nothing else has changed. */
  ghost predicate AllResolved(was: Workdir, now: Workdir, resolves: seq<Resolve>)
  {
    && (forall i :: 0 <= i < |resolves| ==>
          && resolves[i].path in was.conflicts && resolves[i].path !in now.conflicts
          && Has(now.files, resolves[i].path, Side(was, resolves[i]))
          && Has(now.entries, resolves[i].path, Side(was, resolves[i])))
    && (forall i, j :: 0 <= i < j < |resolves| ==> resolves[i].path != resolves[j].path)
    && (forall path :: (forall i :: 0 <= i < |resolves| ==> resolves[i].path != path) ==> SameAt(was, now, path))
  }

  predicate SameAt(was: Workdir, now: Workdir, path: string)
  {
    && (path in now.conflicts <==> path in was.conflicts)
    && (path in was.conflicts ==> now.conflicts[path] == was.conflicts[path])
    && (path in now.files <==> path in was.files) && (path in was.files ==> now.files[path] == was.files[path])
    && (path in now.entries <==> path in was.entries) && (path in was.entries ==> now.entries[path] == was.entries[path])
  }

  lemma OneResolved(was: Workdir, now: Workdir, r: Resolve)
    requires Resolved(was, r) == Some(now)
    ensures r.path in was.conflicts && r.path !in now.conflicts
    ensures Has(now.files, r.path, Side(was, r)) && Has(now.entries, r.path, Side(was, r))
    ensures forall path :: path != r.path ==> SameAt(was, now, path)
  {
  }

  lemma ResolvedMore(was: Workdir, mid: Workdir, now: Workdir, resolves: seq<Resolve>, r: Resolve)
    requires AllResolved(was, mid, resolves) && Resolved(mid, r) == Some(now)
    ensures AllResolved(was, now, resolves + [r])
  {
    OneResolved(mid, now, r);
    hide Resolved;
    assert forall i :: 0 <= i < |resolves| ==> resolves[i].path != r.path && SameAt(mid, now, resolves[i].path);
    assert SameAt(was, mid, r.path);
    var more := resolves + [r];
    forall path | forall i :: 0 <= i < |more| ==> more[i].path != path
      ensures SameAt(was, now, path)
    {
      assert more[|more| - 1] == r;
      assert forall i :: 0 <= i < |resolves| ==> more[i] == resolves[i] && resolves[i].path != path;
      assert SameAt(was, mid, path) && SameAt(mid, now, path);
    }
  }
}
