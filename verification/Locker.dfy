/** The locks of an executor, created on demand and found again by key. */
module Locker {
  import opened Wrappers

  const TRUNK_NAME := "trunk"
  const IN_MEMORY := "-inmemory"

  /** The trunk of a codebase, or one of its views; each has a lock for its files and one in memory. */
  datatype Slot = Slot(codebase: string, view: Option<string>, memory: bool)

  function Base(slot: Slot): string
  {
    match slot.view case None => TRUNK_NAME case Some(view) => view
  }

  function Name(slot: Slot): string
  {
    Base(slot) + if slot.memory then IN_MEMORY else ""
  }

  function Key(slot: Slot): string
  {
    slot.codebase + "/" + Name(slot)
  }

  lemma SplitAtSlash(a: string, x: string, b: string, y: string)
    requires '/' !in a && '/' !in b && a + "/" + x == b + "/" + y
    ensures a == b && x == y
  {
    var s := a + "/" + x;
    assert forall i :: 0 <= i < |a| ==> s[i] == a[i] && s[i] != '/';
    assert forall i :: 0 <= i < |b| ==> s[i] == b[i] && s[i] != '/';
    assert s[|a|] == '/' && s[|b|] == '/';
    assert a == s[..|a|] && b == s[..|b|];
    assert x == s[|a| + 1..] && y == s[|b| + 1..];
  }

  /** A slot of the views that each codebase has. */
  predicate Known(slot: Slot, views: map<string, set<string>>)
  {
    slot.codebase in views && (slot.view.Some? ==> slot.view.value in views[slot.codebase])
  }

  /** No id of a view is mistaken for the trunk, or for the lock in memory of the trunk or of another view. */
  predicate Clear(ids: set<string>)
  {
    && TRUNK_NAME !in ids
    && TRUNK_NAME + IN_MEMORY !in ids
    && forall v, w :: v in ids && w in ids ==> v != w + IN_MEMORY
  }

  lemma MemoryDiffers(a: Slot, b: Slot, ids: set<string>)
    requires Clear(ids) && a.memory && !b.memory
    requires (a.view.Some? ==> a.view.value in ids) && (b.view.Some? ==> b.view.value in ids)
    ensures Name(a) != Name(b)
  {
    assert Name(b) == Base(b);
    assert |Name(a)| > |TRUNK_NAME|;
  }

  lemma SameNames(a: Slot, b: Slot, ids: set<string>)
    requires a.codebase == b.codebase && Clear(ids)
    requires (a.view.Some? ==> a.view.value in ids) && (b.view.Some? ==> b.view.value in ids)
    ensures Name(a) == Name(b) ==> a == b
  {
    if a.memory && !b.memory {
      MemoryDiffers(a, b, ids);
    } else if b.memory && !a.memory {
      MemoryDiffers(b, a, ids);
    } else if Name(a) == Name(b) {
      assert Name(a)[..|Base(a)|] == Base(a) && Name(b)[..|Base(b)|] == Base(b);
    }
  }

  /** Different slots have different locks exactly if the ids of the views are clear. */
  lemma KeysAreDistinct(views: map<string, set<string>>)
    requires forall codebase :: codebase in views ==> '/' !in codebase
    ensures (forall a, b :: Known(a, views) && Known(b, views) && Key(a) == Key(b) ==> a == b)
            <==> (forall codebase :: codebase in views ==> Clear(views[codebase]))
  {
    if forall codebase :: codebase in views ==> Clear(views[codebase]) {
      forall a, b | Known(a, views) && Known(b, views) && Key(a) == Key(b)
        ensures a == b
      {
        SplitAtSlash(a.codebase, Name(a), b.codebase, Name(b));
        SameNames(a, b, views[a.codebase]);
      }
    } else {
      var codebase :| codebase in views && !Clear(views[codebase]);
      var a, b := SharedLock(codebase, views[codebase]);
      assert Known(a, views) && Known(b, views);
    }
  }

  lemma SharedLock(codebase: string, ids: set<string>) returns (a: Slot, b: Slot)
    requires !Clear(ids)
    ensures a.codebase == codebase == b.codebase && a != b && Key(a) == Key(b)
    ensures (a.view.Some? ==> a.view.value in ids) && (b.view.Some? ==> b.view.value in ids)
  {
    if TRUNK_NAME in ids {
      a, b := Slot(codebase, Some(TRUNK_NAME), false), Slot(codebase, None, false);
    } else if TRUNK_NAME + IN_MEMORY in ids {
      a, b := Slot(codebase, Some(TRUNK_NAME + IN_MEMORY), false), Slot(codebase, None, true);
    } else {
      var v, w :| v in ids && w in ids && v == w + IN_MEMORY;
      a, b := Slot(codebase, Some(v), false), Slot(codebase, Some(w), true);
    }
    assert Name(a) == Name(b);
  }

  const UUID := 36

  /** Uuids, as they are or behind a prefix of temporary views, are always clear. */
  lemma UuidsAreClear(ids: set<string>)
    requires forall id :: id in ids ==> |id| in {UUID, |"tmp-"| + UUID, |"using-tmp-"| + UUID}
    ensures Clear(ids)
  {
    forall v, w | v in ids && w in ids
      ensures v != w + IN_MEMORY
    {
      assert |w + IN_MEMORY| == |w| + 9;
    }
  }

  /** A lock of this process, or one that is also held against other processes in a file. */
  class Lock {
    const file: Option<string>

    constructor (file: Option<string>)
      ensures this.file == file
    {
      this.file := file;
    }
  }

  class Locker {
    var locks: map<string, Lock>

    /** No two keys share a lock. */
    ghost predicate Valid()
      reads this
    {
      forall k, m :: k in locks && m in locks && k != m ==> locks[k] != locks[m]
    }

    constructor ()
      ensures Valid() && locks == map[]
    {
      locks := map[];
    }

    /** The lock of a slot: the same one every time, and a new one the first time. Only the
        files of a view are locked against other processes. */
    method Get(slot: Slot, lockFile: string) returns (lock: Lock)
      requires Valid()
      modifies this
      ensures Valid() && Key(slot) in locks && locks[Key(slot)] == lock
      ensures old(locks.Keys) <= locks.Keys <= old(locks.Keys) + {Key(slot)}
      ensures forall k :: k in old(locks) ==> locks[k] == old(locks)[k]
      ensures Key(slot) !in old(locks) ==>
                fresh(lock) && lock.file == if slot.view.None? || slot.memory then None else Some(lockFile)
    {
      var key := Key(slot);
      if key in locks {
        return locks[key];
      }
      lock := new Lock(if slot.view.None? || slot.memory then None else Some(lockFile));
      locks := locks[key := lock];
    }
  }
}
