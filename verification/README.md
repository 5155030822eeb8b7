# Verified core of a version-control platform

This project models the parts of the platform where a small mistake would silently corrupt
someone's work, and proves what they promise:

- **The line differ** (`Lines`, `EditGraph`, `EditScript`, `ScriptOrder`, `LineDiffSearch`, `LineDiff`): a greedy search
  over diagonals whose live paths share their component records. For all texts the result spells both texts,
  has the fewest possible changed lines, although paths at the border of the grid are pruned, and puts
  removals before additions.
- **The patch pipeline** (`Splitting`, `HunkBody`, `PatchAlgebra`, `DiffHeader`, `Unidiff`, `HunkPipeline`): file diffs are
  expanded into single hunks, filtered, renumbered, inverted and joined. "Undo these hunks" and "apply these
  hunks" are proved against what patches do to files, with 32-bit line numbers.
- **Landing** (`CommitGraph`, `Repository`, `Landing`, `LandingRuns`): views fetch, cherry-pick and push one commit at a
  time. The operations are methods on repositories; all interleavings of many views are runs of a transition
  system over the same functions.
- **Locks and temporary views** (`FileLock`, `Executor`, `ExecutorRuns`, `Locker`, `TemporaryViews`): a reader-counting file
  lock step by step, executors with two levels of locks, and a pool of views claimed by renaming.
- **The change index** (`ChangeIndex`, `HeadChangeRuns`): changes are imported from git only as far as they are read,
  yet every changelog is the plain first-parent history. What codebases remember of their heads is followed through
  all interleavings of the requests that read and write it.
- **Smaller cores**: continuing a rebase (`Rebase`), finding comments again (`LiveComments`), overriding providers
  (`ProviderOverrides`), access policies (`AccessPolicy`), and the in-memory activity store (`ActivityStore`).

Where the model meets something it does not contain, that is a parameter: the three-way merge behind a
cherry-pick or a rebase, the glob matcher, whitespace normalisation, and the function from a printed patch to its id.
Commits are values, so equal commits have equal ids. Paths in the table are relative to the root of the
repository.

Some things the code does that a reader might not expect, kept as they are and stated exactly:

- a changelog with limit 0 from the head returns one change (`ChangeIndex.KeepsToLimit`);
- recording a change on top of the head, or with a commit as parent, keeps the index right only under a
  condition on the commit (`ChangeIndex.Service.CreateOnTop`, which nothing calls, and
  `ChangeIndex.Service.CreateWithCommitAsParent`: landing names the first parent, api/pkg/land/service/service.go:169, and
  so meets the condition, but importing a pull request names the commit the request was based on,
  api/pkg/github/enterprise/service/importing/pull_request.go:303);
- trimming the mark of a view in use trims a set of characters (`TemporaryViews.TrimmingUnmarks`);
- a head lookup that began before a landing and is written after it undoes what the landing has remembered, and so
  does any other update of the codebase that read its record before the landing
  (`HeadChangeRuns.LookupUndoesLanding`, `HeadChangeRuns.UpdateUndoesLanding`; `HeadChangeRuns.LateWrite` says exactly
  when a late write is right);
- undoing a change to a last line that had no newline leaves it with one (`PatchAlgebra.MarkIsLost`;
  `PatchAlgebra.UndoSelected` says exactly when undoing gives back the old lines);
- a comment made more than two lines past the end of a file, or in an empty one, is stored with a context that starts
  at -1, and looking for it again is an index error (`LiveComments.FindAgain`);
- a comment in a file that has not changed is shown one line too late when the first line of its context occurs again
  among the next five, as two closing braces in a row do (`LiveComments.UnchangedIsFound`, `LiveComments.TwoBraces`);
- resolving conflicts would be reported as failed when more than one operation was left, although those up to the next
  conflict have been replayed (`Rebase.ResolveConflicts`); every rebase that the code starts has one operation
  (api/pkg/sync/service/service.go:145), so this does not arise;
- the keys of locks are distinct under a condition on the ids of views (`Locker.KeysAreDistinct`); no id the code
  makes is a failing one, as views are given uuids (api/pkg/views/service/service.go:163,
  api/vcs/executor/executor.go:290) and those always meet it (`Locker.UuidsAreClear`).

## Model

| member | source | states |
|---|---|---|
| `LineDiff.Diff` | web/src/diff/diff.js:4-121 | for any two texts, the values of the components that are not removed spell the new text, those that are not added the old one; every component counts its lines, and none is empty unless both texts are; between two kept components there is at most one removed and then at most one added; the number of changed lines is the least possible (the longest-common-subsequence distance of the lines) |
| `EditGraph.LcsBoundsCommonSubsequences` | web/src/diff/diff.js:48-94 | the recurrence that measures the differ is an upper bound: no common subsequence of two texts is longer |
| `EditGraph.LcsIsAttained` | web/src/diff/diff.js:48-94 | and it is attained by some common subsequence, so the distance is really the least number of edits |
| `LineDiffSearch.Search.ExecEditLength` | web/src/diff/diff.js:49-94 | one round over all diagonals either finds a complete script, which is then a shortest one with its runs in order, or leaves live paths with one more edit each, of which at least one still begins a shortest script; the paths share component records and none changes when another is extended |
| `LineDiffSearch.Search.Explore` | web/src/diff/diff.js:50-91 | one diagonal: the live paths afterwards are exactly those that the rule of the search prescribes, or the path that reached both ends is returned |
| `LineDiffSearch.Search.TakeBranch` | web/src/diff/diff.js:51-78 | which neighbour is left: the upper one is cloned, the lower one extended in place and so the same object; which live paths are cleared; all others are untouched |
| `LineDiffSearch.Search.Neighbours` | web/src/diff/diff.js:52-61 | reading the neighbours clears the lower one and says which moves stay inside the grid |
| `LineDiffSearch.Search.Seed` | web/src/diff/diff.js:35-46 | edit length 0: the texts are the same, or the common beginning is the one live path |
| `LineDiffSearch.Search.RoundsAreBounded` | web/src/diff/diff.js:38-38 | while the search goes on, the edit length has not passed the number of tokens: the loop ends with a result |
| `LineDiffSearch.Path.PushComponent` | web/src/diff/diff.js:122-135 | appends one edit, merging it with an equal last component by replacing that record, so that other paths holding it do not change |
| `LineDiffSearch.Path.ExtractCommon` | web/src/diff/diff.js:136-158 | follows all matches on the diagonal and records them; stops only at a mismatch or at the end of a text |
| `LineDiffSearch.Path.Clone` | web/src/diff/diff.js:274-276 | a fresh path with the same records |
| `EditScript.ScriptCostsAtLeastDistance` | web/src/diff/diff.js:49-94 | no script is cheaper than the distance it has covered: the lower bound that makes the first result optimal |
| `EditScript.BranchKeepsShortest` | web/src/diff/diff.js:60-78 | when an edit towards a diagonal continues a shortest script, so does the branch the search takes there, also where boundary paths are pruned |
| `EditScript.BranchIsFurthest` | web/src/diff/diff.js:68-78 | of the two ways to reach a diagonal the one that gets further in the new text is taken |
| `EditGraph.LeftFromStuckPoint` | web/src/diff/diff.js:48-94 | from a point where no match continues, one of the two single edits brings the end one step nearer |
| `EditGraph.LeftDecreasesAlongDiagonal` | web/src/diff/diff.js:136-158 | being further on a diagonal is never worse |
| `Lines.Tokenize` | web/src/diff/diff.js:186-206 | splitting at the separators and merging each into the line before it yields the lines of the text |
| `Lines.LinesRoundTrip` | web/src/diff/diff.js:183-206 | joining the line tokens of a text gives back the text, and every token but the last ends with a newline |
| `Lines.LinesUnique` | web/src/diff/diff.js:186-206 | there is no other way to cut a text into line tokens |
| `Lines.RemoveEmpty` | web/src/diff/diff.js:168-176 | keeps exactly the non-empty tokens, in order |
| `LineDiff.BuildValues` | web/src/diff/diff.js:216-272 | the cursor rebuild and the swaps in place yield the texts of the script, with removals placed before the addition they follow |
| `LineDiff.ValuesSpellTokens` | web/src/diff/diff.js:222-255 | the rebuilt values spell the tokens that the script has covered on both sides |
| `LineDiff.RemovesFirstKeepsTexts` | web/src/diff/diff.js:246-253 | swapping changes neither text nor the number of changed lines |
| `ScriptOrder.LateAddIsNotShortest` | web/src/diff/diff.js:68-78 | an addition is put behind a removal only when the neighbour above has used up the old text, and then no shortest script begins that way |
| `ScriptOrder.StepKeepsOrder` | web/src/diff/diff.js:50-91 | every step of the search keeps: a live script in which an addition follows a removal begins no shortest script, and one that ends with a removal is overtaken by its neighbour |
| `ScriptOrder.ShortestIsTidy` | web/src/diff/diff.js:81-85 | so in the script the search returns neighbouring runs differ in kind and no removed run is directly before an added one |
| `LineDiff.RemovesComeFirst` | web/src/diff/diff.js:246-253 | and therefore the single swap for each removed component leaves no addition directly before a removal |
| `LineDiff.NoPartIsEmpty` | web/src/diff/diff.js:257-269 | no component has an empty value, so the terminal special case never applies to line tokens |
| `HunkBody.InvertBody` | api/pkg/unidiff/unidiff.go:716-729 | the character loop that remembers only the previous character exchanges the markers of every line and touches nothing else |
| `HunkBody.FlipExchangesSides` | api/pkg/unidiff/unidiff.go:716-729 | a flipped body takes from the old file what the body leaves in the new one, and the other way round |
| `HunkBody.FlipTwice` | api/pkg/unidiff/unidiff.go:716-729 | flipping a body twice gives it back |
| `PatchAlgebra.PatchIsApplied` | api/pkg/unidiff/unidiff.go:534-587 | a patch with consistent starts applies to its file and yields its target |
| `PatchAlgebra.PatchTargetIsUnique` | api/pkg/unidiff/unidiff.go:534-587 | such a patch has only one target |
| `PatchAlgebra.UndoSelected` | api/pkg/unidiff/unidiff.go:534-587 | the chosen hunks, renumbered on the old side and inverted, are a well-formed patch from the new file to it with exactly them undone, with every start consistent; that is the old file with exactly the other hunks applied if and only if no chosen hunk marks the old file as ending without a newline |
| `PatchAlgebra.MarkIsLost` | api/pkg/unidiff/unidiff.go:728-737 | a change to a last line without a newline, for which undoing it leaves a newline |
| `PatchAlgebra.ApplySelected` | api/pkg/unidiff/unidiff.go:534-587 | the chosen hunks, renumbered on the new side, are a well-formed patch from the old file to it with exactly them applied, whether or not the old file ends with a newline |
| `PatchAlgebra.PatchOneByOne` | api/vcs/git_patches.go:92-107 | the hunks of a well-formed patch applied one after the other, each at its new start, fit in turn and lead to its target |
| `PatchAlgebra.SelectAll` | api/pkg/unidiff/unidiff.go:534-587 | choosing every hunk renumbers none |
| `PatchAlgebra.InvertedPatch` | api/pkg/unidiff/unidiff.go:730-742 | inverting all hunks of a patch yields a patch back if and only if no hunk has a missing-newline mark |
| `PatchAlgebra.InvertHunkTwice` | api/pkg/unidiff/unidiff.go:730-742 | inverting a hunk twice gives it back if and only if it has no missing-newline mark |
| `Unidiff.Filter` | api/pkg/unidiff/unidiff.go:534-587 | the running sum of dropped growth gives every kept patch the renumbering of the selection; nothing is returned exactly if some patch without hunks was not chosen, and where everything was chosen nothing changes |
| `Unidiff.InvertDiff` | api/pkg/unidiff/unidiff.go:713-757 | the inverted hunks in order, each with its ranges exchanged and its signs flipped, the swapped names with their prefixes, the swapped times and the inverted header |
| `Unidiff.InvertTwice` | api/pkg/unidiff/unidiff.go:713-826 | inverting a file diff with a canonical header twice gives it back if and only if no hunk has a missing-newline mark |
| `Unidiff.InvertedIsCanonical` | api/pkg/unidiff/unidiff.go:713-826 | the inverse has the canonical header of the opposite change, and no marks |
| `DiffHeader.InvertHeader` | api/pkg/unidiff/unidiff.go:759-826 | inverting the header of a change (modified, created, deleted or renamed) yields exactly the header of the opposite change, index hashes swapped |
| `DiffHeader.InvertNames` | api/pkg/unidiff/unidiff.go:867-872 | names trade their prefixes, and the missing side of a created or deleted file stays missing |
| `Unidiff.JoinHunks` | api/pkg/unidiff/unidiff.go:589-622 | one patch for each pair of names, with the header of the first patch of that name pair and all their hunks in order |
| `HunkPipeline.ReadWithHunkResolver` | api/pkg/unidiff/unidiff.go:428-532 | resolve, filter, invert and join in this order; what is returned is said by the rows below for every kind of diff and every combination of options |
| `HunkPipeline.WholeReading` | api/pkg/unidiff/unidiff.go:480-529 | a diff that changes nothing is dropped; one without hunks (a binary file), or one that is not expanded, is returned as one patch, turned around if asked to, and nothing is returned if that patch was not chosen; joining makes no difference |
| `HunkPipeline.ReadAll` | api/pkg/unidiff/unidiff.go:488-529 | without a filter an expanded diff is returned whole when joined, and otherwise hunk by hunk in order, each with the header of the diff |
| `HunkPipeline.FilterSelects` | api/pkg/unidiff/unidiff.go:534-587 | on single-hunk patches filtering by id is selecting hunks |
| `HunkPipeline.JoinOne` | api/pkg/unidiff/unidiff.go:589-622 | joining the single-hunk patches of one file gives one patch with all their hunks |
| `HunkPipeline.UndoChosenHunks` | api/pkg/unidiff/unidiff.go:488-529 | the whole pipeline with an inverter: what it returns takes the new file to it with exactly the chosen hunks undone, and it returns nothing only if that is the new file; it is the old file with exactly the other hunks applied if and only if no chosen hunk has a missing-newline mark |
| `HunkPipeline.UndoOneByOne` | api/pkg/workspaces/vcs/remove.go:33-61 | as changes are taken back: the returned patches have one hunk each and the header of the inverse, and applied one after the other, each at its new start, they fit and undo exactly the chosen hunks |
| `HunkPipeline.ApplyChosenHunks` | api/pkg/unidiff/unidiff.go:488-529 | without an inverter: what it returns takes the old file to it with exactly the chosen hunks applied, and it returns nothing only if that is the old file |
| `HunkPipeline.ApplyOneByOne` | api/vcs/git_patches.go:92-107 | the same for patches that are not inverted: one after the other they apply exactly the chosen hunks |
| `HunkPipeline.ExpandThenJoin` | api/pkg/unidiff/unidiff.go:692-711 | with every hunk kept, expanding and joining give back the file diff |
| `HunkPipeline.NothingChanges` | api/pkg/unidiff/unidiff.go:480-486 | a diff that is dropped for having no changed lines changes nothing |
| `CommitGraph.FastForwardsOnlyFromBase` | api/vcs/git.go:589-606 | a commit built on a base can fast-forward a branch that has only grown linearly since exactly if the branch is still at that base, or already at the commit |
| `Repository.Origin.Receive` | api/vcs/git.go:589-606 | a push without force is taken exactly if it drops no commit |
| `Repository.View.PushNamedRemote` | api/vcs/git.go:569-606 | a push sets the remote branch of the same name, or changes nothing when it is refused |
| `Repository.View.CommitIndexTree` | api/vcs/git.go:202-234 | the new commit has HEAD as its only parent and moves HEAD and its branch |
| `Repository.View.CherryPickOnto` | api/vcs/git_cherry_pick.go:20-66 | without conflicts the picked tree is committed on top of HEAD with the message of the original; with conflicts nothing changes |
| `Repository.View.CreateAndCheckoutBranchAtCommit` | api/vcs/git.go:444-463 | HEAD is at the commit afterwards, on the new branch unless there already was one of that name |
| `Repository.View.MoveBranch` | api/vcs/git.go:686-702 | a branch is moved to where another one is |
| `Repository.View.MoveBranchToHEAD` | api/vcs/git.go:726-742 | a branch is moved to HEAD |
| `Repository.View.FetchBranch` | api/vcs/git.go:744-777 | the remembered remote branch is the one the remote has now |
| `Repository.View.CheckoutBranchWithForce` | api/vcs/git.go:394-442 | HEAD is on the branch, if there is one |
| `Landing.SyncSingleCommitOnBranch` | api/pkg/changes/service/land.go:114-145 | syncing works exactly if there is a trunk, the name for the branch is free and the commit can be picked; then the new branch, the local trunk and HEAD are the picked commit on top of the trunk as fetched, and otherwise no branch there was has moved |
| `Landing.FastLand` | api/pkg/changes/service/land.go:102-112 | fetching twice leads to the same refs as fetching once |
| `Landing.CreateAndLandFromView` | api/pkg/changes/service/land.go:18-100 | a landing succeeds exactly if there are changes and a HEAD to commit them on, the name for the branch is free, and the commit can be picked onto the trunk as fetched; then the workspace branch, the local trunk and HEAD are one commit whose only parent is that trunk; otherwise HEAD is back on the workspace branch and no branch has moved but the one with the new commit; the remote is untouched |
| `Landing.PushLanded` | api/pkg/changes/service/land.go:86-97 | the trunk is pushed first and without force, and accepted exactly if no commit is dropped; a refused push changes nothing on the remote |
| `LandingRuns.StepKeepsTrunk` | api/pkg/changes/service/land.go:18-145 | in any interleaving of the steps of many views, a step leaves the trunk alone or is the push of a landed commit, which becomes the head on top of the previous one |
| `LandingRuns.StaleLandingIsRefused` | api/pkg/changes/service/land.go:86-97 | the push of a landing is accepted exactly if the trunk is still where it was fetched (or already is that commit); otherwise the remote is unchanged |
| `LandingRuns.TrunkIsAppendOnly` | api/pkg/changes/service/land.go:18-145 | over any run the history of the remote trunk is linear and append-only |
| `LandingRuns.EachLandingAddsOneCommit` | api/pkg/changes/service/land.go:18-145 | over any run the trunk is its old history below exactly one commit for each landing |
| `LandingRuns.LandedCommitsStay` | api/pkg/changes/service/land.go:86-97 | a commit once pushed stays in the history of trunk whatever other views do later |
| `LandingRuns.CreateBegins` | api/pkg/changes/service/land.go:56-60 | the landing of a view begins exactly if there are changes and a HEAD to commit them on |
| `LandingRuns.LandsExactlyIf` | api/pkg/changes/service/land.go:114-145 | its local part succeeds exactly if the name for the branch is free and the commit can be picked onto the trunk that was fetched last, which is the only parent of what then lands |
| `LandingRuns.UndisturbedLanding` | api/pkg/changes/service/land.go:18-145 | a landing that no other step comes between gets through: at the end the trunk and the workspace branch on the remote are one new commit on top of the trunk |
| `FileLock.StepKeepsInv` | api/vcs/executor/flock.go:27-83 | every atomic step of every reader, writer and foreign process keeps the mutexes, the count, the lock flags and the kernel lock in agreement |
| `FileLock.RunsExclude` | api/vcs/executor/flock.go:27-83 | at every moment of every run a reader inside holds the file at least shared and no other process exclusively, a writer inside holds it exclusively and is alone, and the count is the number of readers between increment and decrement; only a thread that has itself found the lock file missing can be inside without the file, and a writer is alone in its process even then |
| `FileLock.RunsReturn` | api/vcs/executor/flock.go:27-83 | when all threads are out, count, mutexes and file lock are as they were created |
| `FileLock.NeverStuck` | api/vcs/executor/flock.go:27-83 | while no other process holds the file, some thread that is under way can go on |
| `FileLock.WaitsFor` | api/vcs/executor/flock.go:27-83 | what keeps a thread waiting, exactly: a thread that holds the mutex it wants, for a writer the readers of this process, and at the file only other processes; a reader waits for no reader |
| `FileLock.ReadersShare` | api/vcs/executor/flock.go:50-83 | a thread can join the readers that are inside while nobody counts and no writer waits, and then all of them are inside |
| `Executor.LocksCoverFunctions` | api/vcs/executor/executor.go:149-205 | the locks of two executors are compatible exactly if no function of one excludes a function of the other by the promised matrix |
| `Executor.Builder.Schedule` | api/vcs/executor/executor.go:149-155 | adds the function at the end and keeps the flags covering all functions |
| `Executor.Builder.Write` | api/vcs/executor/executor.go:159-165 | adds the function at the end and keeps the flags covering all functions |
| `Executor.Builder.Read` | api/vcs/executor/executor.go:169-175 | adds the function at the end and keeps the flags covering all functions |
| `Executor.Builder.GitRead` | api/vcs/executor/executor.go:181-187 | adds the function at the end and keeps the flags covering all functions |
| `Executor.Builder.GitWrite` | api/vcs/executor/executor.go:189-195 | adds the function at the end and keeps the flags covering all functions |
| `Executor.Builder.FileReadGitWrite` | api/vcs/executor/executor.go:197-205 | adds the function at the end and keeps the flags covering all functions |
| `Executor.Builder.Prepend` | api/vcs/executor/executor.go:207-214 | puts a function first, without a lock of its own |
| `Executor.Builder.AssertBranchName` | api/vcs/executor/executor.go:221-244 | the check of the branch is added as a git read |
| `Executor.Builder.Prepare` | api/vcs/executor/executor.go:420-476 | the rebase check comes first unless rebasing is allowed; the locks taken are the weakest that are strong enough for every function |
| `ExecutorRuns.StepKeepsInv` | api/vcs/executor/executor.go:435-488 | every step of every executor keeps each lock held exactly by those whose place in the run says so |
| `ExecutorRuns.RunsExclude` | api/vcs/executor/executor.go:435-488 | in every run, executors of one repository that run at the same time do not exclude each other |
| `ExecutorRuns.NeverStuck` | api/vcs/executor/executor.go:435-476 | as long as an executor has not finished some executor can take a step: taking the file lock before the memory lock rules out deadlock, also with waiting writers |
| `ExecutorRuns.RunsEnd` | api/vcs/executor/executor.go:401-491 | every run ends; every executor has run its functions in order, all of them unless one failed, and that one is the last it has run; every lock is free |
| `ExecutorRuns.FailureStops` | api/vcs/executor/executor.go:484-488 | in every run, a function that fails is the one that was next, and the last one its executor ever runs; no other function of it fails |
| `ExecutorRuns.WaitsForWriters` | api/vcs/executor/executor.go:435-476 | an executor waits for a lock exactly if it wants it and another one writes under it or waits to write; readers run side by side |
| `ExecutorRuns.DrainsReaders` | api/vcs/executor/executor.go:435-463 | a writer that waits goes on exactly when no executor reads under the lock any more |
| `Locker.Locker.Get` | api/vcs/executor/locker.go:65-109 | the same lock for the same key every time, a new one the first time, and different locks for different keys |
| `Locker.KeysAreDistinct` | api/vcs/executor/locker.go:89-109 | for codebase ids without a slash, different trunks, views and levels have different keys if and only if no view of a codebase is called like its trunk, like the memory level of its trunk, or like the memory level of another of its views |
| `TemporaryViews.TrimmingUnmarks` | api/vcs/executor/executor.go:314-328 | trimming by character set removes exactly the mark if and only if the name does not start with a character of the mark |
| `TemporaryViews.StepKeepsInv` | api/vcs/executor/executor.go:273-391 | every step of every caller keeps claims apart, marked views claimed and the pool bounded |
| `TemporaryViews.RunsShareNothing` | api/vcs/executor/executor.go:273-391 | in every run no two callers use one view, no view exists both marked and unmarked, and the pool holds at most minTmpBufferSize - 1 views and one for each caller active at one time (or what it held at first) |
| `TemporaryViews.RunsRestoreNames` | api/vcs/executor/executor.go:314-341 | giving a view back restores the name it had before it was marked |
| `TemporaryViews.RunsClaim` | api/vcs/executor/executor.go:298-312 | in every run, a caller claims the view it has picked exactly if that is still in the pool, where its marked name takes its place; otherwise the pool is as it was |
| `TemporaryViews.UndisturbedClaim` | api/vcs/executor/executor.go:273-341 | a caller that nobody comes between claims any view of a pool that is large enough, and giving it back leaves everything as it was |
| `TemporaryViews.UndisturbedAdd` | api/vcs/executor/executor.go:273-341 | when the pool is too small the caller gets a new view, and giving it back adds it to the pool |
| `ChangeIndex.Service.Changelog` | api/pkg/changes/service/service.go:172-208 | whatever part was imported before, the changes returned are those of the first commits of the first-parent history, without the root commit, each linked to the next; if all were imported and linked, nothing is changed |
| `ChangeIndex.KeepsToLimit` | api/pkg/changes/service/service.go:191-205 | a changelog keeps to its limit except that a limit of 0 from a non-empty head returns one change |
| `ChangeIndex.LogIsFirstParents` | api/pkg/changes/service/service.go:224-271 | the history that is shown is the chain of first parents, but for a root commit at its end |
| `ChangeIndex.RepeatedChangelog` | api/pkg/changes/service/service.go:172-208 | repeating a changelog imports nothing and returns the same changes |
| `ChangeIndex.PagesCompose` | api/pkg/changes/service/service.go:172-208 | a page, full or short, and the page before its last change have together the ids of the one longer page |
| `ChangeIndex.Service.ParentChange` | api/pkg/changes/service/service.go:224-271 | the change of the first parent, imported and linked if it was not, or not found at the end of the history; an intact link is followed without a change |
| `ChangeIndex.Service.ImportCommitToChange` | api/pkg/changes/service/service.go:285-342 | a commit is imported at most once, and the root commit never; what is imported has no workspace and no parent, and no other change is touched |
| `ChangeIndex.Service.GetChangeFromCommit` | api/pkg/changes/service/service.go:273-283 | the one change of a commit, imported if it was not |
| `ChangeIndex.Service.Head` | api/pkg/changes/service/service.go:143-165 | the change of the head of trunk, or not found if there is none but the root commit |
| `ChangeIndex.Service.Insert` | api/pkg/changes/service/service.go:107-141 | at most one change for each commit of a codebase; the index stays right exactly if the commit is not the root and its parent is the change of its first parent |
| `ChangeIndex.Service.CreateWithChangeAsParent` | api/pkg/changes/service/service.go:107-141 | the recorded change is that of the commit, in the workspace that landed it, with the parent the caller names; the index stays right under the same condition |
| `ChangeIndex.Service.CreateWithCommitAsParent` | api/pkg/changes/service/service.go:89-103 | the recorded change belongs to the workspace and its parent is the change of the commit named as parent, imported if it was not; the index stays right exactly if that commit is the first parent of the commit, or the root commit |
| `ChangeIndex.Service.CreateOnTop` | api/pkg/changes/service/service.go:77-87 | the recorded change belongs to the workspace and its parent is the change of the head, if there is one; the index stays right exactly if the head of trunk is the first parent of the commit, or trunk has no change yet |
| `ChangeIndex.Service.HeadChange` | api/pkg/changes/service/service.go:393-423 | the result is what a direct lookup of the head would give exactly if what the codebase record remembers is right, which it is in the stored record of a codebase that is not stale; what is remembered afterwards is right |
| `ChangeIndex.Service.UnsetHeadChangeCache` | api/pkg/changes/service/service.go:425-439 | whatever has happened since trunk moved, the codebase is not stale any more; all others are as they were |
| `ChangeIndex.Service.SetAsHeadChange` | api/pkg/changes/service/service.go:441-455 | whatever has happened since trunk moved, the codebase is not stale afterwards exactly if the change is that of the head |
| `HeadChangeRuns.StepKeepsInv` | api/pkg/changes/service/service.go:393-455 | every step of any request keeps: only stale codebases remember a head that is not the head of their trunk, and a pending write that counts as right is right |
| `HeadChangeRuns.RunsRememberHeads` | api/pkg/changes/service/service.go:393-455 | at any moment of any interleaving of imports, moves of trunk, head lookups and updates of codebases, what a codebase that is not stale remembers is the head of its trunk |
| `HeadChangeRuns.QuietStaysRight` | api/pkg/changes/service/service.go:393-455 | once right and without outdated writes under way, it stays right through any run until trunk moves or a wrong change is set |
| `HeadChangeRuns.StepWrites` | api/pkg/changes/service/service.go:393-455 | what every step leaves of a codebase: its record as written, which is stale exactly if it was not right; a move of trunk makes it stale, and other codebases stay as they are |
| `HeadChangeRuns.LandingRemembers` | api/pkg/changes/service/service.go:441-455 | a landing that no late write follows leaves the landed change remembered |
| `HeadChangeRuns.LateWrite` | api/pkg/changes/service/service.go:393-455 | whatever happens between reading and writing: the head that is written, looked up in git or read with the whole record, is the head of trunk if and only if trunk is where it was read to be, or its history is empty both times |
| `HeadChangeRuns.LookupUndoesLanding` | api/pkg/changes/service/service.go:403-455 | a run in which a lookup that began before a landing and is written after it leaves the previous head remembered |
| `HeadChangeRuns.UpdateUndoesLanding` | api/pkg/codebases/db/db.go:78-97 | and one in which an update of the whole record, read before a landing and written after it, does so without any late lookup |
| `Rebase.SturdyRebase.Continue` | api/vcs/git_rebase.go:201-302 | the result is that of replaying from where the rebase stands, whether it was just begun or reopened; its old commits are the next operations, in order, each exactly once, and the last of them is the last completed commit; completed exactly if all were processed; with an unresolved conflict nothing changes |
| `Rebase.SturdyRebase.ReplayRest` | api/vcs/git_rebase.go:210-285 | the loop: every operation becomes a commit on top of the previous head, or none if it changes nothing, up to a conflict or to the end |
| `Rebase.ReplayFromIsRecorded` | api/vcs/git_rebase.go:201-302 | across calls the operations processed are a prefix of the rebase and the new commits a chain |
| `Rebase.ReplaysIsLinear` | api/vcs/git_rebase.go:201-302 | the rebased head is a linear history on top of the commit rebased onto |
| `Rebase.SturdyRebase.Next` | api/vcs/git_rebase.go:213-225 | the next operation is applied on top of HEAD, until there is none |
| `Rebase.SturdyRebase.Commit` | api/vcs/git_rebase.go:240-256 | all files are committed on top of HEAD, or nothing if they are those of HEAD |
| `Rebase.SturdyRebase.ResolveFile` | api/vcs/git_rebase.go:90-154 | a resolution succeeds exactly if the path is in conflict and there is something to take: the file as it is for a custom version, and for the side of the workspace or of trunk its content, or a file to delete if the side has none; then file and index have what was chosen, the conflict is gone and no other path has changed |
| `Rebase.SturdyRebase.OpenRebase` | api/vcs/git_rebase.go:46-61 | a rebase is resumed from what the repository holds of it: what was replayed before stays on record, and nothing is known of the last completed commit |
| `Rebase.ResolveConflicts` | api/pkg/sync/service/resolve.go:25-58 | reopening, resolving and continuing succeed exactly if every resolution can be done, no conflict comes up and one operation was left (when the rebase stopped at its last operation: exactly if every conflict is named); in every case the record goes on in order |
| `Rebase.SturdyRebase.ResolveFiles` | api/vcs/git_rebase.go:68-88 | resolving succeeds exactly if the paths are distinct and each resolution could be done at the start; then each path has the chosen content and no conflict, and nothing else has changed |
| `Rebase.ResolvableTogether` | api/vcs/git_rebase.go:68-154 | resolutions for different conflicts neither help nor hinder each other: one after the other they succeed exactly if each could be done at the start |
| `Rebase.SturdyRebase.GetStatus` | api/vcs/git_rebase.go:308-330 | completed, in conflict, or ready to continue |
| `LiveComments.ContextMatchCount` | api/pkg/comments/live/live.go:19-31 | how many of the context lines, as many as the window has rows, occur somewhere in the window; an index error exactly for a window that starts before the file |
| `LiveComments.FuzzyNewLocation` | api/pkg/comments/live/live.go:33-101 | an index error exactly for a context that starts at a negative line; otherwise -1, or the place in the best window, which starts inside the file and matches at least three lines or as many as the file has |
| `LiveComments.GetFSContext` | api/pkg/comments/vcs/context.go:50-68 | the lines at most two away from the commented one, each with a newline, and the number of the first, or an empty context that starts at -1 if there are none |
| `LiveComments.UnchangedIsFound` | api/pkg/comments/live/live.go:33-101 | in a file that still begins with the same lines, up to whitespace, a comment with two lines on either side is found on its line, or on the next one exactly if the first line of its context occurs again among the five after it |
| `LiveComments.FindAgain` | api/pkg/comments/live/live.go:33-101 | a comment that is made and looked for again: an index error exactly if its line is more than two lines outside of its file or the file is empty, and in an unchanged file the place just said |
| `LiveComments.Search` | api/pkg/comments/live/live.go:44-87 | the window chosen is the best of all that were looked at, nearest first and then earliest; all are looked at up to ten beyond the first with more than two matches, but no further than where exactly five lines match, and never a thousand away; an index error exactly for a context that starts at a negative line |
| `LiveComments.OneChoice` | api/pkg/comments/live/live.go:44-87 | these rules leave one window to choose, unless nothing matches anywhere |
| `LiveComments.SearchMore` | api/pkg/comments/live/live.go:52-82 | looking at one more distance keeps the best window and the number of distances left |
| `ProviderOverrides.AllProviders` | api/pkg/di/container.go:255-303 | the providers are exactly those that no provider of a later forced layer shares a type with, through all imports |
| `ProviderOverrides.ForceLayer` | api/pkg/di/container.go:278-299 | forcing one layer, in whatever order its map is gone through |
| `ProviderOverrides.ForceProvider` | api/pkg/di/container.go:280-287 | taking over the types of one provider throws out exactly those that provided them last |
| `ProviderOverrides.Registered` | api/pkg/di/container.go:257-268 | before anything is forced: all imported providers and the own ones |
| `ProviderOverrides.ProvidedBy` | api/pkg/di/container.go:270-276 | the latest provider of every type |
| `ProviderOverrides.OneResult` | api/pkg/di/container.go:255-303 | the rule leaves one result: it does not depend on the order of iteration |
| `ProviderOverrides.OneLiveProvider` | api/pkg/di/container.go:255-303 | no type has two live providers |
| `AccessPolicy.ResolveGroups` | api/pkg/codebases/acl/policy.go:152-166 | the identifiers and the members of the groups that they name |
| `AccessPolicy.OneLevelIsEnough` | api/pkg/codebases/acl/policy.go:152-166 | without groups in groups one level finds all members through any number of groups |
| `AccessPolicy.Assert` | api/pkg/codebases/acl/policy.go:49-56 | granted exactly if some rule for the action reaches both the principal and the resource |
| `AccessPolicy.RuleAssert` | api/pkg/codebases/acl/policy.go:175-198 | the same for one rule |
| `AccessPolicy.List` | api/pkg/codebases/acl/policy.go:20-47 | exactly the patterns of the type in the rules that reach the principal |
| `AccessPolicy.GrantedIsListed` | api/pkg/codebases/acl/policy.go:20-56 | something is granted exactly if some listed pattern matches it |
| `AccessPolicy.Errors` | api/pkg/codebases/acl/policy.go:70-137 | everything that is wrong with a policy is reported under its own key, and nothing else |
| `AccessPolicy.ValidPolicy` | api/pkg/codebases/acl/policy.go:70-137 | if nothing is wrong, every allow-write test is granted, every deny test refused, some test is about the policy itself, and one-level groups are the whole membership |
| `ActivityStore.InMemory.Create` | api/pkg/activity/db/activityRepo.go:115-124 | a new activity enters all three indexes, which keep agreeing, at the end of their lists; an id that was used before now names the new one |
| `ActivityStore.InMemory.Get` | api/pkg/activity/db/activityRepo.go:126-132 | the activity with an id that was created last |
| `ActivityStore.InMemory.SetChangeID` | api/pkg/activity/db/activityRepo.go:155-163 | exactly the activities of the workspace that name no change are given this one, and they are listed under it behind those that were, in the order of creation; the other lists are as they were |
| `ActivityStore.NoneLeftUnnamed` | api/pkg/activity/db/activityRepo.go:155-163 | after that no activity of the workspace is without a change, and none that had one has another |
| `ActivityStore.InMemory.ListByWorkspaceID` | api/pkg/activity/db/activityRepo.go:134-140 | the first activities of the workspace in the order in which they were created, all of them if there are fewer than the limit |
| `ActivityStore.InMemory.ListByChangeID` | api/pkg/activity/db/activityRepo.go:165-171 | the first activities that name the change, in the order in which they came to name it, all of them if there are fewer than the limit |

## Left out

- The differ's asynchronous mode and its comparator, ignoreCase, ignoreWhitespace, newlineIsToken and useLongestToken options: the default synchronous line mode is modelled. Count, added and removed of a component are constants, because no code assigns them again.
- Parsing and printing of patches, which go-diff does: file diffs are structured values, and printing one and parsing it again is taken to be the identity. Counting changed lines for the empty-diff check is modelled by whether there are any.
- Files that are hidden, large or filtered out by a callback, and the allow-list: the pipeline is modelled from the parsed diff on. Bodies are sequences of characters, so invalid UTF-8 does not occur.
- Headers with old-mode and new-mode lines, which inversion drops: the canonical form excludes them.
- `git apply` itself: a hunk is applied at its new start, which is where it is looked for first; it never has to be looked for elsewhere.
- Line numbers are 32 bits wide; the theorems on selected hunks ask that the two files have fewer than 2^31 lines together.
- Snapshots before a landing and restoring them, database transactions, large-file pulls, and the update of remembered remote branches by a push.
- Landing.CreateAndLandFromView: runs its two fetches without anything in between; other views act between all steps in LandingRuns.
- Other writers of the remote trunk, such as imports from GitHub: runs contain landings, any work of views outside of landings, and pushes to other branches.
- Errors of the file lock other than a missing directory: those paths return with the mutex held. Acquiring the kernel lock is one step that waits until it is granted, except that converting a shared lock may give it up first.
- FileLock.RunsExclude: says nothing of other processes for a thread that has found the lock file missing, because the source lets it in without the file.
- ExecutorRuns.RunsExclude: does not say anything of prepended functions, which take no lock of their own; executors that run inside others are not modelled, and the file lock is a lock within one process there.
- Listing the directory of the pool is one step; a pool that asks for no buffer at all and is empty makes the source panic, and there is no such step. Views left marked by a crash are excluded at the start.
- Titles, descriptions, authors and dates of changes; errors of the database or of git. Changes are indexed one at a time: only what codebases remember of their heads is modelled with requests in between.
- Rebase.SturdyRebase.ResolveFile: changes nothing when it fails, whereas the source may already have dropped a conflict from the index it has not written. Stashing around a rebase, ignored files and patches of conflicts are not modelled.
- Opening the files of comments, lines too long for a scanner, and writing the new line into comments.
- Decorators, validation and construction in the dependency container; imports are trees, so that cyclic imports do not occur. A layer with two providers of one type is excluded, as the result then depends on the order of iteration.
- JSON forms of identifiers and identities; keys of policy errors are structured instead of formatted.
- Activities newer than a date in the activity store.
- SQL repositories, GraphQL, HTTP and SSH servers, the desktop app, CI, queues and analytics.
