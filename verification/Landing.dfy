/** Landing the work of a view on the trunk it shares with other views. */
module Landing {
  import opened Wrappers
  import opened CommitGraph
  import opened Repository

  const TRUNK := "sturdytrunk"

  // ---------------------------------------------------------------- the parts of a landing

  /** What a failed landing leaves: HEAD back on the branch of the workspace. */
  function Restored(r: Refs, workspace: string): Refs
  {
    if workspace in r.branches then r.(head := OnBranch(workspace)) else r
  }

  /** The commit for the changes of the view; without changes there is none. */
  function CreatedCommit(r: Refs, changes: Option<Tree>, message: string): Option<Commit>
  {
    if changes.Some? && HeadOf(r).Some? then Some(Commit([HeadOf(r).value], changes.value, message)) else None
  }

  function Created(r: Refs, changes: Option<Tree>, message: string, workspace: string): Refs
  {
    var created := CreatedCommit(r, changes, message);
    if created.Some? then HeadMoved(r, created.value) else Restored(r, workspace)
  }

  /** The commit that lands: the created one, picked onto the trunk as last fetched. */
  function LandedCommit(r: Refs, created: Commit, syncing: string, pick: Picker): Option<Commit>
  {
    if TRUNK !in r.tracking || syncing in r.branches then None
    else
      var onto := r.tracking[TRUNK];
      match pick(created, onto)
      case None => None
      case Some(tree) => Some(Commit([onto], tree, created.message))
  }

  /** The refs after syncing one commit onto a branch, whether it worked or not. */
  function Synced(r: Refs, created: Commit, syncing: string, pick: Picker): Refs
  {
    if TRUNK !in r.tracking then r
    else if syncing in r.branches then r.(head := Detached(r.tracking[TRUNK]))
    else
      var landed := LandedCommit(r, created, syncing, pick);
      if landed.None? then r.(head := OnBranch(syncing), branches := r.branches[syncing := r.tracking[TRUNK]])
      else r.(head := OnBranch(syncing), branches := r.branches[syncing := landed.value][TRUNK := landed.value])
  }

  /** The refs after the local part of a landing, with trunk as last fetched. */
  function Landed(r: Refs, created: Commit, workspace: string, syncing: string, pick: Picker): Refs
  {
    var landed := LandedCommit(r, created, syncing, pick);
    var synced := Synced(r, created, syncing, pick);
    if landed.None? then Restored(synced, workspace)
    else synced.(head := OnBranch(workspace), branches := synced.branches[workspace := landed.value])
  }

  // ---------------------------------------------------------------- the operations

  /** The trunk as a view sees it after fetching. */
  function FetchedTrunk(tracking: map<string, Commit>, origin: map<string, Commit>): Option<Commit>
  {
    if TRUNK in origin then Some(origin[TRUNK]) else if TRUNK in tracking then Some(tracking[TRUNK]) else None
  }

  /** What syncing a commit onto the trunk makes of the branches and of HEAD. It works exactly if there is a
      trunk, the name for the branch is free and the commit can be picked; otherwise no branch there was moves. */
  ghost predicate IsSync(was: Refs, now: Refs, trunk: Option<Commit>, commit: Commit, syncing: string, pick: Picker, ok: bool)
  {
    && (ok <==> trunk.Some? && syncing !in was.branches && pick(commit, trunk.value).Some?)
    && (ok ==>
          var landed := Commit([trunk.value], pick(commit, trunk.value).value, commit.message);
          now.head == OnBranch(syncing) && now.branches == was.branches[syncing := landed][TRUNK := landed])
    && (!ok ==> forall name :: name in was.branches ==> name in now.branches && now.branches[name] == was.branches[name])
  }

  method SyncSingleCommitOnBranch(view: View, origin: Origin, syncCommit: Commit, syncing: string, pick: Picker)
    returns (ok: bool)
    modifies view
    ensures var r := Fetched(old(view.State()), origin.branches, TRUNK);
            && (ok <==> LandedCommit(r, syncCommit, syncing, pick).Some?)
            && view.State() == Synced(r, syncCommit, syncing, pick)
    ensures IsSync(old(view.State()), view.State(), FetchedTrunk(old(view.tracking), origin.branches), syncCommit, syncing, pick, ok)
  {
    view.FetchBranch(origin, TRUNK);
    ghost var r := view.State();
    var onto := view.RemoteBranchCommit(TRUNK);
    if onto.None? {
      return false;
    }
    ok := view.CreateAndCheckoutBranchAtCommit(onto.value, syncing);
    if !ok {
      return false;
    }
    var picked := view.CherryPickOnto(syncCommit, onto.value, pick);
    if picked.None? {
      return false;
    }
    assert r.branches[syncing := onto.value][syncing := picked.value] == r.branches[syncing := picked.value];
    ok := view.MoveBranchToHEAD(TRUNK);
  }

  method FastLand(view: View, origin: Origin, commit: Commit, syncing: string, pick: Picker) returns (ok: bool)
    modifies view
    ensures var r := Fetched(old(view.State()), origin.branches, TRUNK);
            && (ok <==> LandedCommit(r, commit, syncing, pick).Some?)
            && view.State() == Synced(r, commit, syncing, pick)
    ensures IsSync(old(view.State()), view.State(), FetchedTrunk(old(view.tracking), origin.branches), commit, syncing, pick, ok)
  {
    view.FetchBranch(origin, TRUNK);
    ok := SyncSingleCommitOnBranch(view, origin, commit, syncing, pick);
  }

  /** Commits the changes of the view and lands them locally; the trunk moves when this is pushed. It succeeds
      exactly if there are changes and a HEAD to commit them on, the name for the branch is free, and the commit can be
      picked onto the trunk. When it fails, no branch has moved but the one that HEAD was on, which has the commit. */
  method CreateAndLandFromView(view: View, origin: Origin, workspace: string, changes: Option<Tree>, message: string,
                               syncing: string, pick: Picker)
    returns (commitID: Option<Commit>)
    modifies view
    ensures var r := Created(old(view.State()), changes, message, workspace);
            match CreatedCommit(old(view.State()), changes, message)
            case None => commitID == None && view.State() == r
            case Some(created) =>
              var f := Fetched(r, origin.branches, TRUNK);
              commitID == LandedCommit(f, created, syncing, pick) && view.State() == Landed(f, created, workspace, syncing, pick)
    ensures var head, trunk := HeadOf(old(view.State())), FetchedTrunk(old(view.tracking), origin.branches);
            && (commitID.Some? <==>
                  && changes.Some? && head.Some? && syncing !in old(view.branches)
                  && trunk.Some? && pick(Commit([head.value], changes.value, message), trunk.value).Some?)
            && (commitID.Some? ==>
                  && TRUNK in view.branches && view.branches[TRUNK] == commitID.value
                  && workspace in view.branches && view.branches[workspace] == commitID.value
                  && view.head == OnBranch(workspace) && HeadOf(view.State()) == commitID
                  && commitID.value.parents == [trunk.value] && commitID.value.message == message
                  && Some(commitID.value.tree) == pick(Commit([head.value], changes.value, message), trunk.value))
    ensures commitID.None? && workspace in view.branches ==> view.head == OnBranch(workspace)
    ensures commitID.None? ==>
              forall name :: name in old(view.branches) && old(view.head) != OnBranch(name) ==>
                name in view.branches && view.branches[name] == old(view.branches)[name]
    ensures commitID.None? && changes.Some? && HeadOf(old(view.State())).Some? && old(view.head).OnBranch? ==>
              && old(view.head).name in view.branches
              && view.branches[old(view.head).name] == Commit([HeadOf(old(view.State())).value], changes.value, message)
  {
    var created := None;
    if changes.Some? {
      created := view.CommitIndexTree(changes.value, message);
    }
    if created.None? {
      var _ := view.CheckoutBranchWithForce(workspace);
      return None;
    }
    var ok := FastLand(view, origin, created.value, syncing, pick);
    if ok {
      ok := view.MoveBranch(workspace, TRUNK);
    }
    if ok {
      ok := view.CheckoutBranchWithForce(workspace);
    }
    if !ok {
      var _ := view.CheckoutBranchWithForce(workspace);
      return None;
    }
    commitID := view.BranchCommitID(workspace);
  }

  /** Pushes what has landed locally: the trunk without force, then the branch of the workspace. */
  method PushLanded(view: View, origin: Origin, workspace: string) returns (ok: bool)
    requires workspace != TRUNK
    modifies origin
    ensures var first := TRUNK in view.branches
                         && (TRUNK in old(origin.branches) ==> Descends(view.branches[TRUNK], old(origin.branches)[TRUNK]));
            && (ok <==> first && workspace in view.branches)
            && origin.branches ==
               if !first then old(origin.branches)
               else if workspace !in view.branches then old(origin.branches)[TRUNK := view.branches[TRUNK]]
               else old(origin.branches)[TRUNK := view.branches[TRUNK]][workspace := view.branches[workspace]]
    ensures TRUNK in old(origin.branches) ==>
              TRUNK in origin.branches && Descends(origin.branches[TRUNK], old(origin.branches)[TRUNK])
  {
    ok := view.PushNamedRemote(origin, TRUNK, false);
    if !ok {
      return;
    }
    ok := view.PushNamedRemote(origin, workspace, true);
  }
}
