# Gitlet core in Dafny

A model of the version-control core of Gitlet, a small Git-like system written
in Java. It covers three classes:

- **`Staging`**: the two coupled staging areas, add and remove.
- **`Commit`**: a commit snapshot. It copies the first parent's projection
  (name ↔ fingerprint ↔ blob), then patches it with the staged entries.
- **`Repository`**: the commands that drive them.
  - `add`, `rm`, `commit`, `branch`, `rm-branch`.
  - The checkouts and `reset`.
  - `merge`: the split-point search, the three-way rules and the conflict
    text.
  - `status`, `log`, `find`.
  - Resolution of abbreviated commit ids.
  - The hunk headers of `diff`.

The state is abstract:

- The working tree is a map from file name to content.
- A blob fingerprint `Fp(content, name)` stands for `Utils.sha1(contents, name)`.
  It is a free constructor, so it is injective. That is the assumption the
  source relies on: a fingerprint names one version of one file.
- The object store is the set of fingerprints whose blob files exist.
- The commit store maps commit ids to immutable commit records.
- The refs map each branch to a commit id.
- The current branch is a field.

Commands that the source refuses with `Main.exitWithMessage` return an error
value and leave the state unchanged.

Files, one module each:

| file | module | models |
|---|---|---|
| `objects.dfy` | `Objects` | names, fingerprints, `myEquals`, error messages |
| `records.dfy` | `Records` | a commit's projection, `Commit.contains`, `removeFromMap`/`addToMap` |
| `staging.dfy` | `StagingArea` | `Staging`: the `Staging` class, and the `stage` state machine as functions |
| `commit.dfy` | `Commits` | `Commit`: constructor, `checkStaging`, `copyFile`; the patched projection |
| `history.dfy` | `History` | the commit graph, the ancestor set, breadth-first order, the first-parent chain |
| `merge_rules.dfy` | `MergeRules` | the per-file rules of `mergeGiven`/`mergeConflicts` |
| `status.dfy` | `Status` | the status and untracked classifications |
| `checkout.dfy` | `Checkout` | the three loops of `checkoutBranchWithSha` |
| `diff.dfy` | `Diffs` | `parseDiff` |
| `findings.dfy` | `Findings` | two places where the code drifts from its intent |
| `repository.dfy` | `Repo` | the `Repository` class and its commands |

History has no cycles. The model witnesses this with a ghost rank per commit,
ranked above its parents. The ranks make `addParents` and the `findAncestor`
breadth-first search (which keeps no visited set) terminate.

## Model

| member | source | states |
|---|---|---|
| `Objects.MyEquals` | gitlet/Repository.java:572-577 | two possibly missing fingerprints are "equal" exactly when both are missing or both are present and equal |
| `Objects.FingerprintInjective` | gitlet/Repository.java:527-530 | two blobs share a fingerprint exactly when both content and name agree (no cross-name deduplication) |
| `Records.Contains` | gitlet/Commit.java:161-163 | a name key holds exactly when the commit tracks that name; a fingerprint key holds exactly when the commit tracks that exact version of that file |
| `Records.ShaFromName` | gitlet/Commit.java:140-142 | the fingerprint a commit records for a name, present exactly when the name is tracked; in a consistent commit it is a fingerprint of that file, filed back under the name |
| `Records.RemoveWellFormed` | gitlet/Commit.java:96-100 | removing a name keeps the three maps mutually consistent and forgets exactly that name |
| `Records.RemovePutWellFormed` | gitlet/Commit.java:85-106 | removeFromMap then addToMap with a fingerprint that carries the name keeps name→sha and sha→name mutually inverse and sets exactly that name's entry |
| `Records.WellFormedIsCanonical` | gitlet/Commit.java:96-106 | a consistent projection is determined by its name→fingerprint map |
| `StagingArea.UnstageValid` | gitlet/Staging.java:84-87 | unstage keeps an area valid and drops exactly the name from both name maps |
| `StagingArea.RemoveValid` | gitlet/Staging.java:101-106 | removeFromMap keeps an area valid and drops exactly the name |
| `StagingArea.CopyFileValid` | gitlet/Staging.java:90-99 | copyFile keeps an area valid and records exactly the new fingerprint for the name |
| `StagingArea.AddToMapValid` | gitlet/Staging.java:108-113 | addToMap keeps the area's invariant: name→sha and name→path have the same keys, and every fingerprint carries its name and is filed under it |
| `StagingArea.StagePreservesValid` | gitlet/Staging.java:40-73 | both areas stay valid after any stage call |
| `StagingArea.StageAddOutcome` | gitlet/Staging.java:44-54 | add-staging a missing file fails with "File does not exist." and changes nothing. Otherwise the name leaves the remove area. It is dropped from the add area when HEAD has exactly Fp(content, name), and add-staged with that fingerprint otherwise |
| `StagingArea.StageRemoveOutcome` | gitlet/Staging.java:55-70 | remove-staging fails exactly when HEAD does not track the name and it is not add-staged. Every accepted call removes the name from the add area. A HEAD-tracked name is recorded with its add-staged fingerprint if any (HEAD's otherwise), and its working file is deleted. An untracked name changes nothing else |
| `StagingArea.StageFrame` | gitlet/Staging.java:40-73 | a stage call leaves every other name's entries in both areas, and every other working file, unchanged |
| `StagingArea.StageKeepsDisjoint` | gitlet/Staging.java:40-73 | after an accepted stage call the name is staged in at most one area, and disjoint areas stay disjoint |
| `StagingArea.Staging.constructor` | gitlet/Staging.java:26-36 | a new area of the given kind is empty and valid |
| `StagingArea.Staging.Stage` | gitlet/Staging.java:40-73 | the areas and working tree afterwards are what the stage specification gives for the old state; both areas stay valid |
| `StagingArea.Staging.Clear` | gitlet/Staging.java:75-81 | all four maps and the staged blob files are empty |
| `StagingArea.Staging.Unstage` | gitlet/Staging.java:84-87 | the area becomes removeFromMap of the old area, minus the staged blob file |
| `StagingArea.Staging.CopyFile` | gitlet/Staging.java:90-99 | the name's old entry is replaced by sha, and the blob file for sha holds the working content |
| `StagingArea.Staging.RemoveFromMap` | gitlet/Staging.java:101-106 | the name and its old fingerprint leave all four maps |
| `StagingArea.Staging.AddToMap` | gitlet/Staging.java:108-113 | the name and fingerprint enter all four maps |
| `StagingArea.Staging.GetShaFromName` | gitlet/Staging.java:115-117 | the staged fingerprint of a name, present exactly when the name has an entry |
| `StagingArea.Staging.IsStaged` | gitlet/Staging.java:127-129 | a name is staged exactly when it has a staged file path (same key set as its fingerprint) |
| `Commits.PatchedRules` | gitlet/Commit.java:71-78 | in a new commit, a remove-staged name is absent (removes come last), another add-staged name has its staged fingerprint, and every other name keeps the parent's fingerprint |
| `Commits.PatchedWellFormed` | gitlet/Commit.java:71-78 | the patched projection keeps its maps mutually inverse when the staged fingerprints carry their names |
| `Commits.CopyStep` | gitlet/Commit.java:71-74 | one copyFile step moves one pending entry into the commit's map and its blob into the object store |
| `Commits.Commit.constructor` | gitlet/Commit.java:34-58 | a root commit is dated at the epoch with an empty projection; any other takes the current time and starts from the first parent's maps |
| `Commits.Commit.RemoveFromMap` | gitlet/Commit.java:96-100 | the name and its old fingerprint leave all three maps, and consistency is kept |
| `Commits.Commit.AddToMap` | gitlet/Commit.java:102-106 | the entry enters all three maps |
| `Commits.Commit.CopyFile` | gitlet/Commit.java:85-94 | the name tracks sha, filed in the object directory, and the blob joins the object store |
| `Commits.Commit.CopyStaged` | gitlet/Commit.java:71-74 | after the first loop the commit's map is the parent's overridden by every add-staged entry, and every staged blob is in the object store |
| `Commits.Commit.RemoveStaged` | gitlet/Commit.java:76-78 | after the second loop every remove-staged name is gone and nothing else changed |
| `Commits.Commit.CheckStaging` | gitlet/Commit.java:61-81 | refused with "No changes added to the commit." exactly when both areas are empty, with nothing changed. Otherwise the projection is the patched parent projection and both areas are empty |
| `Commits.NewCommit` | gitlet/Commit.java:34-58 | an empty message is refused first. A non-root commit with nothing staged is refused next. A root commit gets the epoch date and an empty projection and leaves the areas alone. Any other commit gets the patched projection and empties both areas |
| `History.AncestorsArePaths` | gitlet/Repository.java:199-219 | the set findSplit builds holds given and exactly the commits reachable from it by parent edges |
| `History.AncestorsClosed` | gitlet/Repository.java:208-219 | that set is closed under taking parents |
| `History.BfsFindsClosest` | gitlet/Repository.java:222-249 | the first commit of the breadth-first order from c that lies in the set is in it, is reachable from c, and no member of the set is fewer edges away. When there is none, no ancestor of c is in the set |
| `History.BfsFirstIsClosest` | gitlet/Repository.java:220-249 | the same answer is an ancestor of c at the smallest edge count |
| `History.BfsStartsAtSelf` | gitlet/Repository.java:230-234 | the walk returns its start commit when that commit is in the set |
| `History.SplitExists` | gitlet/Repository.java:199-205 | any two commits share an ancestor, so the walk always finds a split point |
| `History.FirstParentChainShape` | gitlet/Repository.java:386-394 | the log chain links each commit to its first parent, stays among the head's ancestors and ends at the initial commit |
| `MergeRules.ThreeWayLaws` | gitlet/Repository.java:253-311 | a file both sides agree on keeps that version. A file only the current side changed keeps the current version. A file only the given side changed takes the given version. A conflict is exactly three pairwise distinct versions |
| `MergeRules.ConflictsDisjointFromGiven` | gitlet/Repository.java:288-294 | a conflicted file is never one that mergeGiven takes from the given side |
| `MergeRules.ConflictTextParts` | gitlet/Repository.java:295-303 | the conflict text is "<<<<<<< HEAD\n", then the current content (or nothing), then "=======\n", then the given content (or nothing), then ">>>>>>>\n" |
| `MergeRules.ConflictDiffersFromHead` | gitlet/Repository.java:304-309 | the conflict text never equals HEAD's version, so add always stages it |
| `MergeRules.MergeGroupsDisjoint` | gitlet/Repository.java:253-311 | the files taken from given, the files removed and the conflicted files are pairwise disjoint |
| `MergeRules.MergeCommitFollowsRules` | gitlet/Repository.java:191-194 | the merge commit tracks every file in the version the three-way rules pick |
| `MergeRules.RemovedKeys` | gitlet/Repository.java:267-273 | rm records an entry for exactly the files mergeGiven removes |
| `MergeRules.UntrackedKept` | gitlet/Repository.java:184-190 | an untracked working file that the given side did not change keeps its content through the merge |
| `Status.ModifiedFiles` | gitlet/Repository.java:439-450 | a working file is "modified" exactly when either: HEAD tracks it, it is staged nowhere, and HEAD's version differs; or it is add-staged with a different version |
| `Status.IsModified` | gitlet/Repository.java:441-447 | with disjoint areas, a working file is "modified" exactly when a commit made now would track it at a version other than the working one |
| `Status.IsUntracked` | gitlet/Repository.java:474-477 | with disjoint areas, a working file is untracked exactly when a commit made now would not track it |
| `Status.DeletedFiles` | gitlet/Repository.java:451-461 | the "deleted" entries are the add-staged names missing from the tree, plus the HEAD names neither remove-staged nor in the tree |
| `Status.DeletedMultiplicity` | gitlet/Repository.java:451-461 | a name is listed as deleted at most twice, and twice exactly when it is add-staged, HEAD-tracked, not remove-staged and missing. Only missing files are listed |
| `Status.ModifiedNotUntracked` | gitlet/Repository.java:439-482 | with disjoint areas no working file is both modified and untracked |
| `Status.AddSettlesFile` | gitlet/Repository.java:420-482 | once add accepts a file, status lists it neither as modified nor as untracked |
| `Status.RemoveSettlesFile` | gitlet/Repository.java:420-461 | once rm accepts a HEAD-tracked file, the file is gone and listed only as removed |
| `Checkout.FindInTheWay` | gitlet/Repository.java:352-367 | the first loop finds a blocker exactly when some working file is untracked by HEAD and tracked by the target with a different fingerprint |
| `Checkout.WriteTracked` | gitlet/Repository.java:368-370 | the second loop writes every target-tracked file with the target's content over the tree |
| `Checkout.DeleteUntracked` | gitlet/Repository.java:371-375 | the third loop deletes exactly the listed files the target does not track |
| `Checkout.CheckoutTree` | gitlet/Repository.java:346-377 | refused with nothing written when a file is in the way; otherwise the tree holds exactly the target's files with the target's contents |
| `Checkout.CheckedOutIsClean` | gitlet/Repository.java:420-468 | right after a checkout with empty areas, status reports nothing staged, removed, modified, deleted or untracked |
| `Findings.FastForwardAsWrittenCommitsOnWrongBranch` | gitlet/Repository.java:179-182 | as written, after a fast-forward the next commit has b's head as parent but moves master's ref |
| `Findings.FastForwardThenCommit` | gitlet/Repository.java:179-182 | with the saved branch following HEAD, the next commit extends b |
| `Findings.CommitExtendsCurrent` | gitlet/Repository.java:93-119 | when both records of the current branch agree, a commit's parent is that branch's head, and only that branch's ref moves |
| `Findings.ResetRefAsWrittenStoresAbbreviation` | gitlet/Repository.java:141-146 | as written, `reset` with an abbreviation leaves that abbreviation in a ref, which is no stored id |
| `Findings.ResetRefKeepsRefsStored` | gitlet/Repository.java:141-146 | writing the resolved id keeps every ref a stored id and points the target's branch at it |
| `Repo.InitialStoreValid` | gitlet/Repository.java:52-81 | a store holding only the initial commit on master is acyclic, rooted and has valid refs |
| `Repo.CommitKeepsValid` | gitlet/Repository.java:93-119 | recording a commit that patches the head, and moving the current branch to it, keeps history acyclic with one root, every blob stored and every ref valid |
| `Repo.ResolveFull` | gitlet/Repository.java:510-524 | a full-length id resolves to itself when stored and to nothing otherwise |
| `Repo.ResolveUnique` | gitlet/Repository.java:510-524 | an abbreviation shared by exactly one stored id resolves to that id |
| `Repo.SplitIsClosestCommonAncestor` | gitlet/Repository.java:199-205 | the split point is a common ancestor, and no common ancestor is fewer edges from the current head |
| `Repo.FindChangedOnGiven` | gitlet/Repository.java:184-190 | merge's untracked-file loop blocks exactly when some untracked file's version on given differs from the split point's |
| `Repo.InitialCommit` | gitlet/Repository.java:73-77 | init's commit is a root on master with the epoch date and an empty projection, with two new empty areas |
| `Repo.Repository.Init` | gitlet/Repository.java:52-81 | after init: master is current and points at the initial commit, the areas are empty, and all invariants hold |
| `Repo.Repository.HeadId` | gitlet/Repository.java:504-507 | the current branch's head commit, which in a valid history is a stored, full-length commit id |
| `Repo.Repository.Add` | gitlet/Repository.java:499-502 | add-stages against the head commit, with the outcomes of StageAddOutcome |
| `Repo.Repository.AddAgainst` | gitlet/Staging.java:44-54 | add-staging against a given projection keeps the areas valid and disjoint, with StageAddOutcome's outcomes |
| `Repo.Repository.Rm` | gitlet/Repository.java:380-383 | remove-stages against the head commit, with the outcomes of StageRemoveOutcome |
| `Repo.Repository.RmAgainst` | gitlet/Staging.java:55-70 | remove-staging against a given projection keeps the areas valid and disjoint, with StageRemoveOutcome's outcomes |
| `Repo.Repository.CommitWith` | gitlet/Repository.java:96-119 | refusals for an empty message and for nothing staged, with nothing changed. Otherwise a new record on the current branch: parents are the head and p2, the projection is the patched head projection, blobs are added, the current ref moves, and the areas are emptied; all invariants are kept |
| `Repo.Repository.Commit` | gitlet/Repository.java:93-95 | the same, with no second parent |
| `Repo.Repository.Record` | gitlet/Repository.java:114-118 | writing the commit and moving the ref installs the new store and refs |
| `Repo.Repository.ResolveId` | gitlet/Repository.java:510-524 | the answer is a stored id equal to the argument, or one the shorter argument is a prefix of. It is missing exactly when nothing matches |
| `Repo.Repository.CheckoutFile` | gitlet/Repository.java:121-137 | it fails with "No commit with that id exists." or "File does not exist in that commit." and writes nothing. Otherwise exactly that file is overwritten with the commit's version (HEAD when no id is given) |
| `Repo.Repository.CheckoutBranchWithSha` | gitlet/Repository.java:346-377 | it fails with no such commit, or with an untracked file in the way, and writes nothing. Otherwise the tree becomes exactly the target's files |
| `Repo.Repository.CheckoutBranch` | gitlet/Repository.java:331-342 | refusals in order: the current branch, a branch without a ref, a file in the way. Otherwise the tree becomes the branch head's files and the branch becomes current, with the areas untouched |
| `Repo.Repository.Reset` | gitlet/Repository.java:141-146 | the checkout's refusals change nothing. Otherwise the tree becomes the target's files, both areas are emptied, and the ref of the target commit's own branch points at it. The current branch is unchanged |
| `Repo.Repository.UpdateBranchHead` | gitlet/Repository.java:148-150 | exactly branch b's ref is set |
| `Repo.Repository.UpdateHead` | gitlet/Repository.java:153-157 | exactly the current branch changes |
| `Repo.Repository.ClearStaging` | gitlet/Repository.java:551-554 | both areas are empty |
| `Repo.Repository.CreateBranch` | gitlet/Repository.java:83-92 | it is refused when the branch directory exists (always for master). Otherwise the directory is created and the new ref points at the head commit |
| `Repo.Repository.AddBranchDir` | gitlet/Repository.java:87-88 | a new branch directory keeps every invariant |
| `Repo.Repository.RmBranch` | gitlet/Repository.java:319-326 | refusals for the current branch, then for a missing ref. Otherwise exactly that ref is deleted; commits and directories stay |
| `Repo.Repository.AddParents` | gitlet/Repository.java:208-219 | the set grows by exactly the commits reachable by one or more parent edges, so it only ever grows |
| `Repo.Repository.FindAncestor` | gitlet/Repository.java:222-249 | the loop returns the first commit of the breadth-first order (parent1 before parent2, duplicates kept) that is in the set |
| `Repo.Repository.FindSplit` | gitlet/Repository.java:199-205 | the result is the split point, the closest common ancestor by that order |
| `Repo.Repository.Find` | gitlet/Repository.java:404-415 | the result is exactly the ids whose message equals the argument; it fails with "Found no commit with that message" exactly when there is none |
| `Repo.Repository.Log` | gitlet/Repository.java:386-394 | the ids run from the head along first parents, each linked to the next, down to the initial commit |
| `Repo.Repository.UntrackedFiles` | gitlet/Repository.java:469-482 | a working file is untracked exactly when it is (not add-staged and not in HEAD) or (remove-staged and in HEAD) |
| `Repo.Repository.Status` | gitlet/Repository.java:420-468 | the branch list and current branch, and the staged, removed, modified, deleted and untracked classification of every file |
| `Repo.Repository.PlanMerge` | gitlet/Repository.java:159-182 | merge's decision, in the source's order: unknown branch, uncommitted changes, merge with itself, given is an ancestor, fast-forward, then a three-way merge from a split point distinct from both heads |
| `Repo.Repository.TakeGivenFile` | gitlet/Repository.java:263-264 | checking out given's version and adding it add-stages that version and unstages any removal |
| `Repo.Repository.RemoveTrackedFile` | gitlet/Repository.java:271 | rm on a HEAD-tracked, non-add-staged file records HEAD's version for removal and deletes the working copy |
| `Repo.Repository.WriteConflictFile` | gitlet/Repository.java:295-309 | the file gets the conflict text and is add-staged with that text's fingerprint |
| `Repo.Repository.TakeGivenFiles` | gitlet/Repository.java:258-266 | after mergeGiven's first loop, the add area holds exactly given's version of each file where split equals cur and differs from given, and those files are written |
| `Repo.Repository.RemoveGivenDeleted` | gitlet/Repository.java:267-273 | after the second loop, exactly the files where split equals cur and given lacks the file are remove-staged and deleted |
| `Repo.Repository.MergeConflictFiles` | gitlet/Repository.java:277-316 | every file with three pairwise distinct versions is rewritten with the conflict text and add-staged. The result says whether there was any |
| `Repo.Repository.MergeFiles` | gitlet/Repository.java:191-192 | after mergeGiven and mergeConflicts the areas hold what the merge commit records, and the tree is the merged tree |
| `Repo.Repository.UntrackedChangedOnGiven` | gitlet/Repository.java:184-190 | with nothing staged, merge is blocked exactly when a file HEAD does not track changed on given since the split point |
| `Repo.Repository.MergeThreeWay` | gitlet/Repository.java:184-194 | a file in the way aborts with nothing changed. Otherwise the tree is merged, and the commit "Merged b into curr." has both heads as parents and tracks the rules' versions, or is refused when nothing was staged |
| `Repo.Repository.Merge` | gitlet/Repository.java:159-195 | rejections change nothing. A fast-forward is refused when an untracked file is in the way; otherwise it checks out b and makes it current with no new commit, and in both cases the store, refs, blobs and staging areas are unchanged. A three-way merge has MergeThreeWay's outcomes: both refusals leave the store, refs and blobs unchanged and nothing staged; a merge commit adds the merged blobs, moves the current ref and empties the areas; it never fast-forwards |
| `Diffs.ParseNatToString` | gitlet/Repository.java:695 | the decimal numeral of a header number reads back as that number |
| `Diffs.BodyLines` | gitlet/Repository.java:675-680 | a hunk's body is its N1 "-" lines of file 1 from L1, then its N2 "+" lines of file 2 from L2 |
| `Diffs.HeaderRoundTrip` | gitlet/Repository.java:681-695 | the header reads back as the shown numbers: each start is incremented only when its count is nonzero, and ",N" is present exactly when N is not 1 |
| `Diffs.HunkTextLines` | gitlet/Repository.java:669-697 | each hunk prints as its header followed by its body lines, each ending in a newline |
| `Diffs.HunkHeader` | gitlet/Repository.java:681-695 | the header computed step by step equals the header specification |
| `Diffs.AppendBlock` | gitlet/Repository.java:675-680 | an inner loop appends lines lo..hi-1, each with its prefix and a newline |
| `Diffs.ParseDiff` | gitlet/Repository.java:662-700 | the output is every hunk's header and body, in order |

## Left out

- `gitlet/Main.java`: command dispatch and arity checks. Each command is a
  method, and `exitWithMessage` becomes an error result with no state change.
- Filesystem primitives are replaced by the working-tree map, the object-store
  fingerprint set and each staging area's `store` map. This covers `Utils` reads
  and writes, directory listings, `restrictedDelete` and the `.gitlet`
  directory layout. The working tree holds plain files only: the `.gitlet`
  directory that `listFiles` also returns is not modelled.
- SHA-1 and Java serialization: blob fingerprints are the injective `Fp`. Commit
  ids are supplied by the caller as fresh 40-character ids. The repository
  object is not persisted; the model's state is what would be saved.
- Wall-clock time and date formatting: a commit records only `Epoch` or
  `WallClock`.
- The `Diff` class is not part of this model. `Diffs.ParseDiff` takes its
  hunks and its two line sequences as inputs. The `diff` commands that call it,
  with their file iteration and `diff --git` headers, are left out. Java's
  `%n` is modelled as "\n".
- Console output: `Commit.print`, `global-log`, `statusPrint`, and the sorting
  and layout of status lists. `Repo.Repository.Status` returns sets and a
  multiset instead of sorted lists.
- init's "already exists" refusal: `Repo.Repository.Init` builds a fresh
  repository.
- A null commit message cannot occur, since Dafny strings are never null. Only
  the empty message is refused.
- `Commit.contains` takes one string that may be a name or a fingerprint. The
  model keeps the two apart as `Key`, so a file whose name equals a
  fingerprint is not modelled.
- The transient parent object references and the aliasing of the parent's maps
  in the `Commit` constructor. A new projection is copy-then-patch, since
  parents are always re-read from disk.
- The HEAD indirection file: the current branch is a field, and `HeadId` reads
  its ref.
- `Repo.Repository.ResolveId`: the source takes the first matching id in
  `HashMap` iteration order when several stored ids share a prefix. The
  contract allows any of them, because that order is not specified.
- `StagingArea.AreaValid`: a remove area may keep stale fingerprint→name
  entries, because `stage` on the remove side adds a name without first
  dropping its old fingerprint. The invariant allows this rather than
  claiming the maps are inverse.
- `Repo.Repository.Merge`: after a fast-forward the model makes the branch
  current in the saved state, as intended. The code as written leaves the
  saved field stale (see Findings).
- `Repo.Repository.Reset`: the ref receives the resolved id, as intended. The
  code as written stores the argument as typed (see Findings).

## Findings

| source | as written | input that shows it | evidently intended | confidence | as-written member | corrected member |
|---|---|---|---|---|---|---|
| gitlet/Repository.java:179-182 | the fast-forward calls `checkoutBranch`, which writes HEAD and sets `_currBranch` in memory. Then `exitWithMessage` exits before `Main` saves the repository, so the next command reads the old `_currBranch` | master at c1, branch b at c2 (a child of c1): `merge b`, then `commit c3`. c3's parent is c2, but master's ref moves to c3 and b stays at c2 | the saved current branch follows HEAD to b, so the next commit extends b | not executed | `Findings.FastForwardAsWrittenCommitsOnWrongBranch` | `Findings.FastForwardThenCommit` |
| gitlet/Repository.java:141-146 | `reset` writes its argument into the ref as typed, even when the argument is an abbreviation that `getCommitFromSha` resolved | one stored commit on master whose id starts with "ab": `reset ab` leaves "ab" in master's ref, which is no stored id | the ref receives the resolved full id | not executed | `Findings.ResetRefAsWrittenStoresAbbreviation` | `Findings.ResetRefKeepsRefsStored` |
