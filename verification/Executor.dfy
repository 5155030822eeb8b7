/** Building an executor: which functions run, in which order, and under which locks. */
module Executor {

  datatype Kind = Schedule | Read | Write | GitRead | GitWrite | FileReadGitWrite

  /** A function to run; prepended ones take no lock of their own. */
  datatype Fun = Added(kind: Kind, body: int) | Prepended(body: int)

  datatype Mode = Unlocked | Shared | Exclusive

  /** How an executor locks the files and the git directory of its repository. */
  datatype Modes = Modes(files: Mode, memory: Mode)

  function Stronger(a: Mode, b: Mode): Mode
  {
    if a.Exclusive? || b.Exclusive? then Exclusive else if a.Shared? || b.Shared? then Shared else Unlocked
  }

  /** What a function of this kind does to the files of a repository and to its git directory. */
  function Needs(f: Fun): Modes
  {
    match f
    case Prepended(_) => Modes(Unlocked, Unlocked)
    case Added(kind, _) =>
      match kind
      case Schedule => Modes(Exclusive, Unlocked)
      case Write => Modes(Exclusive, Unlocked)
      case Read => Modes(Shared, Unlocked)
      case GitRead => Modes(Unlocked, Shared)
      case GitWrite => Modes(Unlocked, Exclusive)
      case FileReadGitWrite => Modes(Shared, Exclusive)
  }

  /** The weakest locks that are strong enough for every function. */
  function Strongest(funs: seq<Fun>): (m: Modes)
    ensures forall f :: f in funs ==>
              Stronger(m.files, Needs(f).files) == m.files && Stronger(m.memory, Needs(f).memory) == m.memory
    ensures m.files != Unlocked ==> exists f :: f in funs && Needs(f).files == m.files
    ensures m.memory != Unlocked ==> exists f :: f in funs && Needs(f).memory == m.memory
  {
    if funs == [] then Modes(Unlocked, Unlocked)
    else
      var m, n := Strongest(funs[1..]), Needs(funs[0]);
      assert funs == [funs[0]] + funs[1..];
      assert n.files == Needs(funs[0]).files && n.memory == Needs(funs[0]).memory && funs[0] in funs;
      Modes(Stronger(n.files, m.files), Stronger(n.memory, m.memory))
  }

  predicate Compatible(a: Mode, b: Mode)
  {
    a.Unlocked? || b.Unlocked? || (a.Shared? && b.Shared?)
  }

  /** The promise of the executor: which functions never run at the same time on one repository. */
  predicate Excludes(a: Kind, b: Kind)
  {
    || ((a.Write? || a.Schedule?) && (b.Write? || b.Schedule? || b.Read? || b.FileReadGitWrite?))
    || ((b.Write? || b.Schedule?) && (a.Write? || a.Schedule? || a.Read? || a.FileReadGitWrite?))
    || ((a.GitWrite? || a.FileReadGitWrite?) && (b.GitRead? || b.GitWrite? || b.FileReadGitWrite?))
    || ((b.GitWrite? || b.FileReadGitWrite?) && (a.GitRead? || a.GitWrite? || a.FileReadGitWrite?))
  }

  predicate MustExclude(fs: seq<Fun>, gs: seq<Fun>)
  {
    exists f, g :: f in fs && g in gs && f.Added? && g.Added? && Excludes(f.kind, g.kind)
  }

  predicate Overlap(m: Modes, n: Modes)
  {
    Compatible(m.files, n.files) && Compatible(m.memory, n.memory)
  }

  /** Function by function, the locks exclude what has been promised. */
  lemma NeedsExclude(f: Fun, g: Fun)
    ensures Overlap(Needs(f), Needs(g)) <==> !(f.Added? && g.Added? && Excludes(f.kind, g.kind))
  {
  }

  lemma StrongerExcludes(m: Modes, n: Modes, a: Modes, b: Modes)
    requires Stronger(m.files, a.files) == m.files && Stronger(m.memory, a.memory) == m.memory
    requires Stronger(n.files, b.files) == n.files && Stronger(n.memory, b.memory) == n.memory
    ensures Overlap(m, n) ==> Overlap(a, b)
  {
  }

  /** Two executors may hold their locks at the same time exactly if no function of one
      excludes a function of the other. */
  lemma LocksCoverFunctions(fs: seq<Fun>, gs: seq<Fun>)
    ensures Overlap(Strongest(fs), Strongest(gs)) <==> !MustExclude(fs, gs)
  {
    hide Needs, Excludes, Stronger, Strongest;
    var m, n := Strongest(fs), Strongest(gs);
    if MustExclude(fs, gs) {
      var f, g :| f in fs && g in gs && f.Added? && g.Added? && Excludes(f.kind, g.kind);
      NeedsExclude(f, g);
      StrongerExcludes(m, n, Needs(f), Needs(g));
    } else if !Compatible(m.files, n.files) {
      var f :| f in fs && Needs(f).files == m.files;
      var g :| g in gs && Needs(g).files == n.files;
      NeedsExclude(f, g);
    } else if !Compatible(m.memory, n.memory) {
      var f :| f in fs && Needs(f).memory == m.memory;
      var g :| g in gs && Needs(g).memory == n.memory;
      NeedsExclude(f, g);
    }
  }

  class Builder {
    var funs: seq<Fun>
    var writeLock: bool
    var readLock: bool
    var inMemoryReadLock: bool
    var inMemoryWriteLock: bool
    var allowRebasing: bool

    /** The flags say what the functions need. */
    ghost predicate Valid()
      reads this
    {
      && (writeLock <==> exists f :: f in funs && Needs(f).files == Exclusive)
      && (readLock <==> exists f :: f in funs && Needs(f).files == Shared)
      && (inMemoryWriteLock <==> exists f :: f in funs && Needs(f).memory == Exclusive)
      && (inMemoryReadLock <==> exists f :: f in funs && Needs(f).memory == Shared)
    }

    constructor ()
      ensures Valid() && funs == [] && !allowRebasing
    {
      funs := [];
      writeLock, readLock, inMemoryReadLock, inMemoryWriteLock, allowRebasing := false, false, false, false, false;
    }

    method Schedule(body: int)
      requires Valid()
      modifies this
      ensures Valid() && funs == old(funs) + [Added(Kind.Schedule, body)] && allowRebasing == old(allowRebasing)
    {
      writeLock := true;
      funs := funs + [Added(Kind.Schedule, body)];
      assert Added(Kind.Schedule, body) in funs;
    }

    method Write(body: int)
      requires Valid()
      modifies this
      ensures Valid() && funs == old(funs) + [Added(Kind.Write, body)] && allowRebasing == old(allowRebasing)
    {
      writeLock := true;
      funs := funs + [Added(Kind.Write, body)];
      assert Added(Kind.Write, body) in funs;
    }

    method Read(body: int)
      requires Valid()
      modifies this
      ensures Valid() && funs == old(funs) + [Added(Kind.Read, body)] && allowRebasing == old(allowRebasing)
    {
      readLock := true;
      funs := funs + [Added(Kind.Read, body)];
      assert Added(Kind.Read, body) in funs;
    }

    method GitRead(body: int)
      requires Valid()
      modifies this
      ensures Valid() && funs == old(funs) + [Added(Kind.GitRead, body)] && allowRebasing == old(allowRebasing)
    {
      inMemoryReadLock := true;
      funs := funs + [Added(Kind.GitRead, body)];
      assert Added(Kind.GitRead, body) in funs;
    }

    method GitWrite(body: int)
      requires Valid()
      modifies this
      ensures Valid() && funs == old(funs) + [Added(Kind.GitWrite, body)] && allowRebasing == old(allowRebasing)
    {
      inMemoryWriteLock := true;
      funs := funs + [Added(Kind.GitWrite, body)];
      assert Added(Kind.GitWrite, body) in funs;
    }

    method FileReadGitWrite(body: int)
      requires Valid()
      modifies this
      ensures Valid() && funs == old(funs) + [Added(Kind.FileReadGitWrite, body)] && allowRebasing == old(allowRebasing)
    {
      inMemoryWriteLock := true;
      readLock := true;
      funs := funs + [Added(Kind.FileReadGitWrite, body)];
      assert Added(Kind.FileReadGitWrite, body) in funs;
    }

    method Prepend(body: int)
      requires Valid()
      modifies this
      ensures Valid() && funs == [Prepended(body)] + old(funs) && allowRebasing == old(allowRebasing)
    {
      funs := [Prepended(body)] + funs;
    }

    /** Checks the branch as a git read. */
    method AssertBranchName(check: int)
      requires Valid()
      modifies this
      ensures Valid() && funs == old(funs) + [Added(Kind.GitRead, check)] && allowRebasing == old(allowRebasing)
    {
      GitRead(check);
    }

    method AllowRebasingState()
      requires Valid()
      modifies this
      ensures Valid() && funs == old(funs) && allowRebasing
    {
      allowRebasing := true;
    }

    /** What is run, and the locks taken first; without functions nothing is locked. */
    method Prepare(notRebasing: int) returns (modes: Modes)
      requires Valid()
      modifies this
      ensures Valid() && funs == (if old(allowRebasing) then [] else [Prepended(notRebasing)]) + old(funs)
      ensures modes == Strongest(funs)
    {
      if !allowRebasing {
        Prepend(notRebasing);
      }
      modes := Modes(Unlocked, Unlocked);
      if |funs| > 0 {
        if writeLock {
          modes := modes.(files := Exclusive);
        } else if readLock {
          modes := modes.(files := Shared);
        }
        if inMemoryWriteLock {
          modes := modes.(memory := Exclusive);
        } else if inMemoryReadLock {
          modes := modes.(memory := Shared);
        }
      }
    }
  }
}
