/** The refs of a repository and the git operations that move them. */
module Repository {
  import opened Wrappers
  import opened CommitGraph

  datatype Head = OnBranch(name: string) | Detached(commit: Commit)

  /** HEAD, the local branches and the branches last seen on the remote. */
  datatype Refs = Refs(head: Head, branches: map<string, Commit>, tracking: map<string, Commit>)

  /** Merging the change a commit makes onto another commit; None when they conflict. */
  type Picker = (Commit, Commit) -> Option<Tree>

  // ---------------------------------------------------------------- what the operations do to the refs

  function HeadOf(r: Refs): Option<Commit>
  {
    match r.head
    case Detached(commit) => Some(commit)
    case OnBranch(name) => if name in r.branches then Some(r.branches[name]) else None
  }

  const ORIGIN := "origin/"

  /** A local branch of that name, or else the branch of the remote that the name spells out. */
  function BranchCommit(r: Refs, name: string): Option<Commit>
  {
    if name in r.branches then Some(r.branches[name])
    else if ORIGIN <= name && name[|ORIGIN|..] in r.tracking then Some(r.tracking[name[|ORIGIN|..]])
    else None
  }

  /** HEAD, and the branch it is on if any, moved to c. */
  function HeadMoved(r: Refs, c: Commit): Refs
  {
    match r.head
    case Detached(_) => r.(head := Detached(c))
    case OnBranch(name) => r.(branches := r.branches[name := c])
  }

  function Fetched(r: Refs, origin: map<string, Commit>, name: string): Refs
  {
    if name in origin then r.(tracking := r.tracking[name := origin[name]]) else r
  }

  /** The branches of the remote after a push, or None when it is refused. */
  function Pushed(r: Refs, origin: map<string, Commit>, name: string, force: bool): Option<map<string, Commit>>
  {
    if name !in r.branches then None
    else if !force && name in origin && !Descends(r.branches[name], origin[name]) then None
    else Some(origin[name := r.branches[name]])
  }

  // ---------------------------------------------------------------- the operations

  /** The repository that the views of a codebase share. */
  class Origin {
    var branches: map<string, Commit>

    constructor (branches: map<string, Commit>)
      ensures this.branches == branches
    {
      this.branches := branches;
    }

    /** Takes a push, refusing one that would drop commits unless it is forced. */
    method Receive(name: string, commit: Commit, force: bool) returns (ok: bool)
      modifies this
      ensures ok <==> force || (name in old(branches) ==> Descends(commit, old(branches)[name]))
      ensures branches == if ok then old(branches)[name := commit] else old(branches)
    {
      if force || name !in branches || Descends(commit, branches[name]) {
        branches := branches[name := commit];
        return true;
      }
      return false;
    }
  }

  /** The repository of one view. */
  class View {
    var head: Head
    var branches: map<string, Commit>
    var tracking: map<string, Commit>

    constructor (refs: Refs)
      ensures State() == refs
    {
      head, branches, tracking := refs.head, refs.branches, refs.tracking;
    }

    ghost function State(): Refs
      reads this
    {
      Refs(head, branches, tracking)
    }

    method HeadCommit() returns (c: Option<Commit>)
      ensures c == HeadOf(State())
    {
      match head {
        case Detached(commit) => return Some(commit);
        case OnBranch(name) => return if name in branches then Some(branches[name]) else None;
      }
    }

    /** Commits a tree on top of HEAD. */
    method CommitIndexTree(tree: Tree, message: string) returns (c: Option<Commit>)
      modifies this
      ensures c.Some? <==> HeadOf(old(State())).Some?
      ensures c.Some? ==> c.value == Commit([HeadOf(old(State())).value], tree, message)
      ensures State() == if c.Some? then HeadMoved(old(State()), c.value) else old(State())
      ensures c.Some? ==> HeadOf(State()) == c && tracking == old(tracking) && (old(head).OnBranch? ==> head == old(head))
      ensures forall name :: old(head) != OnBranch(name) ==>
                (name in branches <==> name in old(branches)) && (name in branches ==> branches[name] == old(branches)[name])
    {
      var parent := HeadCommit();
      if parent.None? {
        return None;
      }
      var commit := Commit([parent.value], tree, message);
      match head {
        case Detached(_) => head := Detached(commit);
        case OnBranch(name) => branches := branches[name := commit];
      }
      return Some(commit);
    }

    method FetchBranch(origin: Origin, name: string)
      modifies this
      ensures State() == Fetched(old(State()), origin.branches, name)
      ensures head == old(head) && branches == old(branches)
      ensures tracking == if name in origin.branches then old(tracking)[name := origin.branches[name]] else old(tracking)
    {
      if name in origin.branches {
        tracking := tracking[name := origin.branches[name]];
      }
    }

    method RemoteBranchCommit(name: string) returns (c: Option<Commit>)
      ensures c == if name in tracking then Some(tracking[name]) else None
    {
      return if name in tracking then Some(tracking[name]) else None;
    }

    /** Checks out the commit, then starts a branch there, which fails if there is one by that name. */
    method CreateAndCheckoutBranchAtCommit(commit: Commit, name: string) returns (ok: bool)
      modifies this
      ensures ok <==> name !in old(branches)
      ensures ok ==> State() == Refs(OnBranch(name), old(branches)[name := commit], old(tracking))
      ensures !ok ==> State() == old(State()).(head := Detached(commit))
      ensures HeadOf(State()) == Some(commit)
    {
      head := Detached(commit);
      if name in branches {
        return false;
      }
      branches := branches[name := commit];
      head := OnBranch(name);
      return true;
    }

    /** Applies the change of a commit to another one and commits the result on top of HEAD. */
    method CherryPickOnto(commit: Commit, onto: Commit, pick: Picker) returns (newCommit: Option<Commit>)
      modifies this
      ensures newCommit.Some? <==> pick(commit, onto).Some? && HeadOf(old(State())).Some?
      ensures newCommit.Some? ==>
                newCommit.value == Commit([HeadOf(old(State())).value], pick(commit, onto).value, commit.message)
      ensures State() == if newCommit.Some? then HeadMoved(old(State()), newCommit.value) else old(State())
    {
      var newIdx := pick(commit, onto);
      if newIdx.None? {
        return None;
      }
      newCommit := CommitIndexTree(newIdx.value, commit.message);
    }

    method MoveBranchToHEAD(name: string) returns (ok: bool)
      modifies this
      ensures ok <==> HeadOf(old(State())).Some?
      ensures State() == if ok then old(State()).(branches := old(branches)[name := HeadOf(old(State())).value])
                         else old(State())
    {
      var target := HeadCommit();
      if target.None? {
        return false;
      }
      branches := branches[name := target.value];
      return true;
    }

    /** Moves a branch to where another one is. */
    method MoveBranch(name: string, targetName: string) returns (ok: bool)
      modifies this
      ensures ok <==> BranchCommit(old(State()), targetName).Some?
      ensures targetName in old(branches) ==> ok && branches == old(branches)[name := old(branches)[targetName]]
      ensures State() == if ok then old(State()).(branches := old(branches)[name := BranchCommit(old(State()), targetName).value])
                         else old(State())
    {
      var target := None;
      if targetName in branches {
        target := Some(branches[targetName]);
      } else if ORIGIN <= targetName && targetName[|ORIGIN|..] in tracking {
        target := Some(tracking[targetName[|ORIGIN|..]]);
      }
      if target.None? {
        return false;
      }
      branches := branches[name := target.value];
      return true;
    }

    method CheckoutBranchWithForce(name: string) returns (ok: bool)
      modifies this
      ensures ok <==> name in old(branches)
      ensures State() == if ok then old(State()).(head := OnBranch(name)) else old(State())
    {
      if name !in branches {
        return false;
      }
      head := OnBranch(name);
      return true;
    }

    method BranchCommitID(name: string) returns (c: Option<Commit>)
      ensures c == if name in branches then Some(branches[name]) else None
    {
      return if name in branches then Some(branches[name]) else None;
    }

    /** Pushes a branch to the branch of the same name. */
    method PushNamedRemote(origin: Origin, name: string, force: bool) returns (ok: bool)
      modifies origin
      ensures ok <==> Pushed(State(), old(origin.branches), name, force).Some?
      ensures ok <==>
              name in branches && (force || (name in old(origin.branches) ==> Descends(branches[name], old(origin.branches)[name])))
      ensures origin.branches == if ok then old(origin.branches)[name := branches[name]] else old(origin.branches)
    {
      if name !in branches {
        return false;
      }
      ok := origin.Receive(name, branches[name], force);
    }
  }
}
