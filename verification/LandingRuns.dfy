/** Many views landing on one trunk, in every interleaving of their steps. */
module LandingRuns {
  import opened Wrappers
  import opened CommitGraph
  import opened Repository
  import opened Landing

  /** How far the landing of a view has come. */
  datatype Phase =
    | Idle
    | HasCommit(workspace: string, created: Commit)
    | HasFetched(workspace: string, created: Commit)
    | HasTrunk(workspace: string, created: Commit)
    | HasLanded(workspace: string, landed: Commit)
    | HasPushed(workspace: string, landed: Commit)

  datatype ViewState = ViewState(refs: Refs, phase: Phase)

  datatype State = State(origin: map<string, Commit>, views: map<string, ViewState>)

  datatype Step =
    | Create(view: string, workspace: string, changes: Option<Tree>, message: string)
    | Fetch(view: string)
    | FetchAgain(view: string)
    | LandLocally(view: string, syncing: string)
    | PushTrunk(view: string)
    | PushWorkspace(view: string)
      // the landing fails for a reason outside of git: its change cannot be recorded, for one
    | Abandon(view: string)
      // whatever a view does to its own refs outside of a landing, and pushes to other branches
    | Work(view: string, refs: Refs)
    | PushOther(branch: string, commit: Commit)

  /** The steps of one landing follow each other: it holds the lock of its view throughout. */
  predicate Enabled(s: State, step: Step)
  {
    match step
    case Create(view, workspace, _, _) => view in s.views && s.views[view].phase.Idle? && workspace != TRUNK
    case Fetch(view) => view in s.views && s.views[view].phase.HasCommit?
    case FetchAgain(view) => view in s.views && s.views[view].phase.HasFetched?
    case LandLocally(view, _) => view in s.views && s.views[view].phase.HasTrunk?
    case PushTrunk(view) => view in s.views && s.views[view].phase.HasLanded?
    case PushWorkspace(view) => view in s.views && s.views[view].phase.HasPushed?
    case Abandon(view) => view in s.views && !s.views[view].phase.Idle?
    case Work(view, _) => view in s.views ==> s.views[view].phase.Idle?
    case PushOther(branch, _) => branch != TRUNK
  }

  function With(s: State, view: string, refs: Refs, phase: Phase): State
  {
    s.(views := s.views[view := ViewState(refs, phase)])
  }

  function Next(s: State, step: Step, pick: Picker): State
    requires Enabled(s, step)
  {
    match step
    case Create(view, workspace, changes, message) =>
      var r := s.views[view].refs;
      var created := CreatedCommit(r, changes, message);
      With(s, view, Created(r, changes, message, workspace),
           if created.Some? then HasCommit(workspace, created.value) else Idle)
    case Fetch(view) =>
      var v := s.views[view];
      With(s, view, Fetched(v.refs, s.origin, TRUNK), HasFetched(v.phase.workspace, v.phase.created))
    case FetchAgain(view) =>
      var v := s.views[view];
      With(s, view, Fetched(v.refs, s.origin, TRUNK), HasTrunk(v.phase.workspace, v.phase.created))
    case LandLocally(view, syncing) =>
      var v := s.views[view];
      var landed := LandedCommit(v.refs, v.phase.created, syncing, pick);
      With(s, view, Landed(v.refs, v.phase.created, v.phase.workspace, syncing, pick),
           if landed.Some? then HasLanded(v.phase.workspace, landed.value) else Idle)
    case PushTrunk(view) =>
      var v := s.views[view];
      match Pushed(v.refs, s.origin, TRUNK, false) {
        case None => With(s, view, v.refs, Idle)
        case Some(branches) => With(s, view, v.refs, HasPushed(v.phase.workspace, v.phase.landed)).(origin := branches)
      }
    case PushWorkspace(view) =>
      var v := s.views[view];
      match Pushed(v.refs, s.origin, v.phase.workspace, true) {
        case None => With(s, view, v.refs, Idle)
        case Some(branches) => With(s, view, v.refs, Idle).(origin := branches)
      }
    case Abandon(view) => With(s, view, s.views[view].refs, Idle)
    case Work(view, refs) => With(s, view, refs, Idle)
    case PushOther(branch, commit) => s.(origin := s.origin[branch := commit])
  }

  predicate Allowed(s: State, steps: seq<Step>, pick: Picker)
    decreases |steps|
  {
    steps == [] || (Enabled(s, steps[0]) && Allowed(Next(s, steps[0], pick), steps[1..], pick))
  }

  function Run(s: State, steps: seq<Step>, pick: Picker): State
    requires Allowed(s, steps, pick)
    decreases |steps|
  {
    if steps == [] then s else Run(Next(s, steps[0], pick), steps[1..], pick)
  }

  // ---------------------------------------------------------------- what every step keeps

  function Trunk(s: State): Commit
    requires TRUNK in s.origin
  {
    s.origin[TRUNK]
  }

  /** What has been fetched or landed by a view whose landing is under way, seen from the trunk. */
  predicate Consistent(v: ViewState, trunk: Commit)
  {
    match v.phase
    case HasTrunk(workspace, _) =>
      workspace != TRUNK && TRUNK in v.refs.tracking && LinearSince(trunk, v.refs.tracking[TRUNK])
    case HasLanded(workspace, landed) =>
      && LandedAt(v.refs, workspace, landed)
      && |landed.parents| == 1 && LinearSince(trunk, landed.parents[0])
    case HasPushed(workspace, landed) =>
      LandedAt(v.refs, workspace, landed) && LinearSince(trunk, landed)
    case Idle => true
    case _ => v.phase.workspace != TRUNK
  }

  /** The branch of the workspace, the local trunk and HEAD are the landed commit. */
  predicate LandedAt(r: Refs, workspace: string, landed: Commit)
  {
    && workspace != TRUNK && r.head == OnBranch(workspace)
    && TRUNK in r.branches && r.branches[TRUNK] == landed
    && workspace in r.branches && r.branches[workspace] == landed
  }

  predicate Inv(s: State)
  {
    TRUNK in s.origin && forall view :: view in s.views ==> Consistent(s.views[view], Trunk(s))
  }

  /** Nothing is under way yet. */
  predicate Initial(s: State)
  {
    TRUNK in s.origin && forall view :: view in s.views ==> s.views[view].phase == Idle
  }

  lemma InitialIsConsistent(s: State)
    requires Initial(s)
    ensures Inv(s)
  {
  }

  lemma StaysConsistent(v: ViewState, trunk: Commit, later: Commit)
    requires Consistent(v, trunk) && LinearSince(later, trunk)
    ensures Consistent(v, later)
  {
    match v.phase
    case HasTrunk(_, _) => LinearSinceIsTransitive(later, trunk, v.refs.tracking[TRUNK]);
    case HasLanded(_, landed) => LinearSinceIsTransitive(later, trunk, landed.parents[0]);
    case HasPushed(_, landed) => LinearSinceIsTransitive(later, trunk, landed);
    case _ =>
  }

  /** The push of a landed commit is accepted exactly if the trunk has not moved since it was
      fetched (or already is that very commit); a stale one is refused and changes nothing. */
  lemma StaleLandingIsRefused(s: State, view: string, pick: Picker)
    requires Inv(s) && Enabled(s, PushTrunk(view))
    ensures var landed, next := s.views[view].phase.landed, Next(s, PushTrunk(view), pick);
            && |landed.parents| == 1
            && (next.views[view].phase.HasPushed? <==> Trunk(s) == landed.parents[0] || Trunk(s) == landed)
            && next.origin == if next.views[view].phase.HasPushed? then s.origin[TRUNK := landed] else s.origin
  {
    var v := s.views[view];
    assert Consistent(v, Trunk(s));
    FastForwardsOnlyFromBase(v.phase.landed, v.phase.landed.parents[0], Trunk(s));
  }

  /** A landing begins exactly if there are changes and a HEAD to commit them on. */
  lemma CreateBegins(s: State, view: string, workspace: string, changes: Option<Tree>, message: string, pick: Picker)
    requires Enabled(s, Create(view, workspace, changes, message))
    ensures var v, next := s.views[view], Next(s, Create(view, workspace, changes, message), pick);
            && next.origin == s.origin && view in next.views
            && next.views[view].refs.tracking == v.refs.tracking && next.views[view].refs.branches.Keys == v.refs.branches.Keys
            && next.views[view].phase ==
               if changes.Some? && HeadOf(v.refs).Some? then
                 HasCommit(workspace, Commit([HeadOf(v.refs).value], changes.value, message))
               else Idle
  {
  }

  /** The local part of a landing succeeds exactly if the name for its branch is free and the commit can be
      picked onto the trunk that was fetched last, which is the only parent of what then lands. */
  lemma LandsExactlyIf(s: State, view: string, syncing: string, pick: Picker)
    requires Inv(s) && Enabled(s, LandLocally(view, syncing))
    ensures var v, next := s.views[view], Next(s, LandLocally(view, syncing), pick);
            && TRUNK in v.refs.tracking
            && var created, onto := v.phase.created, v.refs.tracking[TRUNK];
               && next.origin == s.origin
               && next.views[view].phase ==
                  if syncing !in v.refs.branches && pick(created, onto).Some? then
                    HasLanded(v.phase.workspace, Commit([onto], pick(created, onto).value, created.message))
                  else Idle
  {
    assert Consistent(s.views[view], Trunk(s));
  }

  /** One more commit on top of the trunk, or none. */
  predicate Grows(before: Commit, after: Commit)
  {
    after == before || after.parents == [before]
  }

  /** Every step keeps the invariant; only the push of a landed commit moves the trunk, and
      then by exactly that commit. */
  lemma StepKeepsTrunk(s: State, step: Step, pick: Picker)
    requires Inv(s) && Enabled(s, step)
    ensures Inv(Next(s, step, pick))
    ensures Grows(Trunk(s), Trunk(Next(s, step, pick)))
    ensures Trunk(Next(s, step, pick)) != Trunk(s) ==>
              step.PushTrunk? && Trunk(Next(s, step, pick)) == s.views[step.view].phase.landed
  {
    var next := Next(s, step, pick);
    if step.PushTrunk? {
      StaleLandingIsRefused(s, step.view, pick);
    }
    assert Grows(Trunk(s), Trunk(next));
    forall view | view in next.views
      ensures Consistent(next.views[view], Trunk(next))
    {
      if view in s.views && next.views[view] == s.views[view] {
        StaysConsistent(s.views[view], Trunk(s), Trunk(next));
      } else {
        assert step.PushOther? || view == step.view;
        assert view in s.views ==> Consistent(s.views[view], Trunk(s));
      }
    }
  }

  // ---------------------------------------------------------------- whole runs

  /** Over any run the invariant holds and the history of the trunk is linear and append-only. */
  lemma {:induction false} TrunkIsAppendOnly(s: State, steps: seq<Step>, pick: Picker)
    requires Inv(s) && Allowed(s, steps, pick)
    ensures Inv(Run(s, steps, pick))
    ensures LinearSince(Trunk(Run(s, steps, pick)), Trunk(s))
    decreases |steps|
  {
    if steps != [] {
      var next := Next(s, steps[0], pick);
      StepKeepsTrunk(s, steps[0], pick);
      TrunkIsAppendOnly(next, steps[1..], pick);
      LinearSinceIsTransitive(Trunk(Run(s, steps, pick)), Trunk(next), Trunk(s));
    }
  }

  /** How many steps of the run moved the trunk. */
  function Landings(s: State, steps: seq<Step>, pick: Picker): nat
    requires Allowed(s, steps, pick)
    decreases |steps|
  {
    if steps == [] then 0
    else
      var next := Next(s, steps[0], pick);
      (if TRUNK in s.origin && TRUNK in next.origin && Trunk(next) != Trunk(s) then 1 else 0) + Landings(next, steps[1..], pick)
  }

  /** The history of the trunk is what it was before, below one commit for each landing. */
  lemma {:induction false} EachLandingAddsOneCommit(s: State, steps: seq<Step>, pick: Picker)
    requires Inv(s) && Allowed(s, steps, pick)
    ensures Inv(Run(s, steps, pick))
    ensures |FirstParents(Trunk(Run(s, steps, pick)))| == |FirstParents(Trunk(s))| + Landings(s, steps, pick)
    ensures FirstParents(Trunk(Run(s, steps, pick)))[Landings(s, steps, pick)..] == FirstParents(Trunk(s))
    decreases |steps|
  {
    TrunkIsAppendOnly(s, steps, pick);
    if steps != [] {
      var next := Next(s, steps[0], pick);
      StepKeepsTrunk(s, steps[0], pick);
      EachLandingAddsOneCommit(next, steps[1..], pick);
    }
    LinearExtendsHistory(Trunk(Run(s, steps, pick)), Trunk(s));
  }

  /** Once pushed, a landed commit stays in the history of the trunk whatever happens later. */
  lemma LandedCommitsStay(s: State, view: string, steps: seq<Step>, pick: Picker)
    requires Inv(s) && view in s.views && s.views[view].phase.HasPushed? && Allowed(s, steps, pick)
    ensures Inv(Run(s, steps, pick))
    ensures s.views[view].phase.landed in FirstParents(Trunk(Run(s, steps, pick)))
  {
    hide Descends, LinearSince, FirstParents, Next;
    var landed, end := s.views[view].phase.landed, Run(s, steps, pick);
    TrunkIsAppendOnly(s, steps, pick);
    assert Consistent(s.views[view], Trunk(s));
    LinearSinceIsTransitive(Trunk(end), Trunk(s), landed);
    LinearExtendsHistory(Trunk(end), landed);
    assert FirstParents(landed)[0] in FirstParents(Trunk(end));
  }

  // ---------------------------------------------------------------- a landing that nothing disturbs

  /** The steps of one landing. */
  function Steps(view: string, workspace: string, changes: Tree, message: string, syncing: string): seq<Step>
  {
    [Create(view, workspace, Some(changes), message), Fetch(view), FetchAgain(view), LandLocally(view, syncing),
     PushTrunk(view), PushWorkspace(view)]
  }

  lemma OneStep(s: State, steps: seq<Step>, pick: Picker)
    requires steps != [] && Enabled(s, steps[0])
    ensures Allowed(s, steps, pick) <==> Allowed(Next(s, steps[0], pick), steps[1..], pick)
    ensures Allowed(s, steps, pick) ==> Run(s, steps, pick) == Run(Next(s, steps[0], pick), steps[1..], pick)
  {
  }

  /** Both fetches see the trunk as it is. */
  lemma FetchesTrunk(s: State, view: string, pick: Picker)
    requires TRUNK in s.origin && Enabled(s, Fetch(view))
    ensures var fetched := Next(s, Fetch(view), pick);
            && Enabled(fetched, FetchAgain(view))
            && var v, next := s.views[view], Next(fetched, FetchAgain(view), pick);
               && next.origin == s.origin
               && next.views == s.views[view := ViewState(v.refs.(tracking := v.refs.tracking[TRUNK := Trunk(s)]),
                                                          HasTrunk(v.phase.workspace, v.phase.created))]
  {
    var v := s.views[view];
    var refs := v.refs.(tracking := v.refs.tracking[TRUNK := Trunk(s)]);
    assert refs.tracking[TRUNK := Trunk(s)] == refs.tracking;
    var once, twice := ViewState(refs, HasFetched(v.phase.workspace, v.phase.created)),
                       ViewState(refs, HasTrunk(v.phase.workspace, v.phase.created));
    assert Next(s, Fetch(view), pick) == s.(views := s.views[view := once]);
    assert s.views[view := once][view := twice] == s.views[view := twice];
  }

  /** What has landed locally on the trunk as it is can be pushed, trunk and workspace. */
  lemma PushesBoth(s: State, view: string, pick: Picker)
    requires Inv(s) && Enabled(s, PushTrunk(view)) && [Trunk(s)] == s.views[view].phase.landed.parents
    ensures var pushed := Next(s, PushTrunk(view), pick);
            && Enabled(pushed, PushWorkspace(view))
            && var phase, next := s.views[view].phase, Next(pushed, PushWorkspace(view), pick);
               && next.origin == s.origin[TRUNK := phase.landed][phase.workspace := phase.landed]
               && view in next.views && next.views[view].phase == Idle
  {
    StaleLandingIsRefused(s, view, pick);
    assert Consistent(s.views[view], Trunk(s));
  }

  /** From where the trunk has been fetched. */
  lemma LandsAndPushes(s: State, view: string, syncing: string, pick: Picker)
    requires Inv(s) && view in s.views && s.views[view].phase.HasTrunk?
    requires var refs := s.views[view].refs;
             TRUNK in refs.tracking && refs.tracking[TRUNK] == Trunk(s) && syncing !in refs.branches
    requires pick(s.views[view].phase.created, Trunk(s)).Some?
    ensures var steps := [LandLocally(view, syncing), PushTrunk(view), PushWorkspace(view)];
            var phase := s.views[view].phase;
            var landed := Commit([Trunk(s)], pick(phase.created, Trunk(s)).value, phase.created.message);
            && Allowed(s, steps, pick)
            && Run(s, steps, pick).origin == s.origin[TRUNK := landed][phase.workspace := landed]
            && view in Run(s, steps, pick).views && Run(s, steps, pick).views[view].phase == Idle
  {
    var steps := [LandLocally(view, syncing), PushTrunk(view), PushWorkspace(view)];
    LandsExactlyIf(s, view, syncing, pick);
    StepKeepsTrunk(s, steps[0], pick);
    var s1 := Next(s, steps[0], pick);
    assert view in s1.views;
    PushesBoth(s1, view, pick);
    var s2 := Next(s1, steps[1], pick);
    hide Inv, Next, Enabled, Consistent;
    OneStep(s, steps, pick);
    assert steps[1..] == [steps[1], steps[2]] && steps[1..][1..] == [steps[2]] && [steps[2]][1..] == [];
    OneStep(s1, steps[1..], pick);
    OneStep(s2, [steps[2]], pick);
  }

  /** A landing that no other step comes between gets through: when the view has a HEAD, the name for the branch
      is free and its commit can be picked onto the trunk, all its steps can be taken, and at the end the trunk and
      the branch of the workspace on the remote are one new commit on top of the trunk. */
  lemma UndisturbedLanding(s: State, view: string, workspace: string, changes: Tree, message: string, syncing: string,
                           pick: Picker)
    requires Inv(s) && view in s.views && s.views[view].phase == Idle && workspace != TRUNK
    requires HeadOf(s.views[view].refs).Some? && syncing !in s.views[view].refs.branches
    requires pick(Commit([HeadOf(s.views[view].refs).value], changes, message), Trunk(s)).Some?
    ensures var steps := Steps(view, workspace, changes, message, syncing);
            var created := Commit([HeadOf(s.views[view].refs).value], changes, message);
            var landed := Commit([Trunk(s)], pick(created, Trunk(s)).value, message);
            && Allowed(s, steps, pick)
            && Run(s, steps, pick).origin == s.origin[TRUNK := landed][workspace := landed]
            && view in Run(s, steps, pick).views && Run(s, steps, pick).views[view].phase == Idle
  {
    var steps := Steps(view, workspace, changes, message, syncing);
    CreateBegins(s, view, workspace, Some(changes), message, pick);
    StepKeepsTrunk(s, steps[0], pick);
    var s1 := Next(s, steps[0], pick);
    FetchesTrunk(s1, view, pick);
    StepKeepsTrunk(s1, steps[1], pick);
    var s2 := Next(s1, steps[1], pick);
    StepKeepsTrunk(s2, steps[2], pick);
    var s3 := Next(s2, steps[2], pick);
    hide Inv, Next, Enabled, Consistent, Run, Allowed;
    LandsAndPushes(s3, view, syncing, pick);
    assert steps[1..][0] == steps[1] && steps[2..][0] == steps[2];
    assert steps[1..][1..] == steps[2..];
    assert steps[2..][1..] == [LandLocally(view, syncing), PushTrunk(view), PushWorkspace(view)];
    OneStep(s, steps, pick);
    OneStep(s1, steps[1..], pick);
    OneStep(s2, steps[2..], pick);
  }
}
