/** The repository (Repository.java): the working tree, the object store,
    the commit store, the branch refs, the current branch and the two
    staging areas, with the commands that change them. A command refused
    with an error changes nothing, since the source exits before the
    repository is saved again. */
module Repo {
  import opened Objects
  import opened Records
  import opened StagingArea
  import opened Commits
  import opened History
  import opened MergeRules
  import opened Status
  import opened Checkout
  import opened Findings

  // ---------------------------------------------------------------------
  // Invariants of the persisted state

  /** A stored commit has a well-formed projection, its blobs are in the
      object store and its branch directory exists. */
  ghost predicate CommitOk(r: CommitRecord, objects: set<Fingerprint>, branchDirs: set<Branch>)
  {
    && WellFormed(r.projection)
    && r.projection.nameToSha.Values <= objects
    && r.branch in branchDirs
  }

  /** A commit stays well stored when the object store grows. */
  lemma CommitOkGrows(r: CommitRecord, objects: set<Fingerprint>, objects': set<Fingerprint>, branchDirs: set<Branch>)
    requires CommitOk(r, objects, branchDirs) && objects <= objects'
    ensures CommitOk(r, objects', branchDirs)
  {
  }

  /** The commit store: acyclic, with one root, full-length ids and well
      formed commits. */
  ghost predicate StoreValid(commits: Store, gen: Ranks, root: CommitId, objects: set<Fingerprint>,
                             branchDirs: set<Branch>)
  {
    && Ranked(commits, gen)
    && Rooted(commits, root)
    && (forall id {:trigger id in commits} :: id in commits ==> |id| == ShaLength)
    && AllCommitsOk(commits, objects, branchDirs)
  }

  /** Every stored commit is well stored. */
  ghost predicate AllCommitsOk(commits: Store, objects: set<Fingerprint>, branchDirs: set<Branch>)
  {
    forall id :: id in commits ==> CommitOk(commits[id], objects, branchDirs)
  }

  /** Every ref names a stored commit, the current branch has a ref, every
      ref has its branch directory, and master's directory, made by init,
      is never deleted. */
  ghost predicate RefsValid(refs: map<Branch, CommitId>, commits: Store, branchDirs: set<Branch>, curr: Branch)
  {
    && curr in refs
    && Master in branchDirs
    && (forall b :: b in refs ==> refs[b] in commits)
    && refs.Keys <= branchDirs
  }

  /** A valid commit store with valid refs. */
  ghost predicate HistoryOk(commits: Store, gen: Ranks, root: CommitId, objects: set<Fingerprint>,
                            branchDirs: set<Branch>, refs: map<Branch, CommitId>, curr: Branch)
  {
    StoreValid(commits, gen, root, objects, branchDirs) && RefsValid(refs, commits, branchDirs, curr)
  }

  /** The message of the initial commit. */
  const InitialMessage: string := "initial commit"

  /** A store holding only the initial commit, on branch b, is valid. */
  lemma InitialStoreValid(commits: Store, gen: Ranks, rootId: CommitId, objects: set<Fingerprint>,
                          branchDirs: set<Branch>, refs: map<Branch, CommitId>, b: Branch, rec: CommitRecord)
    requires |rootId| == ShaLength && rec.parent1.None? && rec.parent2.None? && rec.branch == b
    requires rec.projection == EmptyProjection()
    requires commits == map[rootId := rec] && gen == map[rootId := 0] && refs == map[b := rootId]
    requires objects == {} && branchDirs == {b} && b == Master
    ensures HistoryOk(commits, gen, rootId, objects, branchDirs, refs, b)
  {
    assert ParentOk(commits, gen, rootId);
  }

  /** A new commit whose parents are stored and ranked lower keeps history
      ranked. */
  lemma RankedExtend(commits: Store, gen: Ranks, id: CommitId, rec: CommitRecord, g: nat)
    requires Ranked(commits, gen) && id !in commits
    requires rec.parent1.Some? ==> rec.parent1.value in commits && gen[rec.parent1.value] < g
    requires rec.parent2.Some? ==> rec.parent2.value in commits && gen[rec.parent2.value] < g
    ensures Ranked(commits[id := rec], gen[id := g])
  {
    var cs, gs := commits[id := rec], gen[id := g];
    forall c | c in cs
      ensures ParentOk(cs, gs, c)
    {
      if c != id {
        assert ParentOk(commits, gen, c);
      }
    }
  }

  /** A commit with a first parent keeps the initial commit the only root. */
  lemma RootedExtend(commits: Store, root: CommitId, id: CommitId, rec: CommitRecord)
    requires Rooted(commits, root) && id !in commits && rec.parent1.Some?
    ensures Rooted(commits[id := rec], root)
  {
    var cs := commits[id := rec];
    assert root in cs && cs[root] == commits[root];
    forall c | c in cs && cs[c].parent1.None?
      ensures c == root
    {
      assert c != id && cs[c] == commits[c];
    }
  }

  /** Stored commits stay well stored when a well-stored commit is added and
      the object store grows. */
  lemma CommitsOkExtend(commits: Store, objects: set<Fingerprint>, objects': set<Fingerprint>,
                        branchDirs: set<Branch>, id: CommitId, rec: CommitRecord)
    requires AllCommitsOk(commits, objects, branchDirs)
    requires objects <= objects' && CommitOk(rec, objects', branchDirs)
    ensures AllCommitsOk(commits[id := rec], objects', branchDirs)
  {
    var cs := commits[id := rec];
    forall c | c in cs
      ensures CommitOk(cs[c], objects', branchDirs)
    {
      if c != id {
        CommitOkGrows(commits[c], objects, objects', branchDirs);
      }
    }
  }

  /** A new commit whose parents are stored and ranked lower keeps the
      store valid. */
  lemma StoreExtend(commits: Store, gen: Ranks, root: CommitId, objects: set<Fingerprint>,
                    objects': set<Fingerprint>, branchDirs: set<Branch>, id: CommitId, rec: CommitRecord, g: nat)
    requires StoreValid(commits, gen, root, objects, branchDirs)
    requires id !in commits && |id| == ShaLength && rec.parent1.Some?
    requires rec.parent1.value in commits && gen[rec.parent1.value] < g
    requires rec.parent2.Some? ==> rec.parent2.value in commits && gen[rec.parent2.value] < g
    requires objects <= objects' && CommitOk(rec, objects', branchDirs)
    ensures StoreValid(commits[id := rec], gen[id := g], root, objects', branchDirs)
  {
    RankedExtend(commits, gen, id, rec, g);
    RootedExtend(commits, root, id, rec);
    CommitsOkExtend(commits, objects, objects', branchDirs, id, rec);
  }

  /** A patched projection only records fingerprints of the parent or of
      the added entries. */
  lemma PatchedValues(parent: Projection, adds: map<Name, Fingerprint>, removes: set<Name>)
    ensures Patched(parent, adds, removes).nameToSha.Values <= parent.nameToSha.Values + adds.Values
  {
    var m := Patched(parent, adds, removes).nameToSha;
    forall f | f in m.Values
      ensures f in parent.nameToSha.Values + adds.Values
    {
      var n :| n in m && m[n] == f;
      if n in adds {
        assert adds[n] == f;
      } else {
        assert parent.nameToSha[n] == f;
      }
    }
  }

  /** A rank above both parents of a new commit. */
  ghost function NextRank(gen: Ranks, p1: CommitId, p2: Option<CommitId>): (g: nat)
    requires p1 in gen && (p2.Some? ==> p2.value in gen)
    ensures gen[p1] < g && (p2.Some? ==> gen[p2.value] < g)
  {
    if p2.Some? && gen[p2.value] > gen[p1] then gen[p2.value] + 1 else gen[p1] + 1
  }

  /** Recording the commit that patches the head commit with the staged
      entries, and moving the current branch to it, keeps the store and the
      refs valid. */
  lemma CommitKeepsValid(commits: Store, gen: Ranks, root: CommitId, objects: set<Fingerprint>,
                         objects': set<Fingerprint>, branchDirs: set<Branch>, refs: map<Branch, CommitId>,
                         curr: Branch, id: CommitId, rec: CommitRecord,
                         adds: map<Name, Fingerprint>, removes: set<Name>)
    requires HistoryOk(commits, gen, root, objects, branchDirs, refs, curr)
    requires id !in commits && |id| == ShaLength
    requires rec.parent1 == Some(refs[curr]) && rec.branch == curr
    requires rec.parent2.Some? ==> rec.parent2.value in commits
    requires rec.projection == Patched(commits[refs[curr]].projection, adds, removes) && WellFormed(rec.projection)
    requires objects' == objects + adds.Values
    ensures HistoryOk(commits[id := rec], gen[id := NextRank(gen, refs[curr], rec.parent2)], root, objects',
                      branchDirs, refs[curr := id], curr)
  {
    var parent := refs[curr];
    assert CommitOk(commits[parent], objects, branchDirs);
    PatchedValues(commits[parent].projection, adds, removes);
    StoreExtend(commits, gen, root, objects, objects', branchDirs, id, rec, NextRank(gen, parent, rec.parent2));
  }

  /** Pointing a ref that has its branch directory at a stored commit keeps
      the refs valid. */
  lemma MoveRef(commits: Store, gen: Ranks, root: CommitId, objects: set<Fingerprint>, branchDirs: set<Branch>,
                refs: map<Branch, CommitId>, curr: Branch, b: Branch, id: CommitId)
    requires HistoryOk(commits, gen, root, objects, branchDirs, refs, curr)
    requires b in branchDirs && id in commits
    ensures HistoryOk(commits, gen, root, objects, branchDirs, refs[b := id], curr)
  {
  }

  /** Deleting the ref of a branch other than the current one keeps the
      refs valid. */
  lemma DropRef(commits: Store, gen: Ranks, root: CommitId, objects: set<Fingerprint>, branchDirs: set<Branch>,
                refs: map<Branch, CommitId>, curr: Branch, b: Branch)
    requires HistoryOk(commits, gen, root, objects, branchDirs, refs, curr) && b != curr
    ensures HistoryOk(commits, gen, root, objects, branchDirs, refs - {b}, curr)
  {
  }

  /** Making a branch with a ref current keeps the refs valid. */
  lemma SwitchBranch(commits: Store, gen: Ranks, root: CommitId, objects: set<Fingerprint>, branchDirs: set<Branch>,
                     refs: map<Branch, CommitId>, curr: Branch, b: Branch)
    requires HistoryOk(commits, gen, root, objects, branchDirs, refs, curr) && b in refs
    ensures HistoryOk(commits, gen, root, objects, branchDirs, refs, b)
  {
  }

  /** A new branch directory keeps the store and the refs valid. */
  lemma GrowBranchDirs(commits: Store, gen: Ranks, root: CommitId, objects: set<Fingerprint>, branchDirs: set<Branch>,
                       refs: map<Branch, CommitId>, curr: Branch, b: Branch)
    requires HistoryOk(commits, gen, root, objects, branchDirs, refs, curr)
    ensures HistoryOk(commits, gen, root, objects, branchDirs + {b}, refs, curr)
  {
    forall c | c in commits
      ensures CommitOk(commits[c], objects, branchDirs + {b})
    {
      assert CommitOk(commits[c], objects, branchDirs);
    }
  }

  // ---------------------------------------------------------------------
  // Id resolution

  /** getCommitFromSha's lookup: a full id names itself; an id shorter than
      a full one is replaced by a stored id it is a prefix of, if any. The
      answer is missing exactly when no stored id matches. When several
      stored ids share the prefix the source takes the first in the hash
      map's iteration order, which the model leaves open. */
  ghost predicate Resolution(commits: Store, sha: string, r: Option<CommitId>)
  {
    && (r.Some? ==> r.value in commits && (r.value == sha || (|sha| < ShaLength && sha <= r.value)))
    && (r.None? <==> sha !in commits && !(|sha| < ShaLength && exists k :: k in commits && sha <= k))
  }

  /** A full-length id resolves to itself when stored and to nothing
      otherwise. */
  lemma ResolveFull(commits: Store, sha: string, r: Option<CommitId>)
    requires |sha| >= ShaLength && Resolution(commits, sha, r)
    ensures r == if sha in commits then Some(sha) else None
  {
  }

  /** An abbreviation shared by exactly one stored id resolves to it. */
  lemma ResolveUnique(commits: Store, sha: string, k: CommitId, r: Option<CommitId>)
    requires forall id {:trigger id in commits} :: id in commits ==> |id| == ShaLength
    requires |sha| < ShaLength && k in commits && sha <= k
    requires forall id :: id in commits && sha <= id ==> id == k
    requires Resolution(commits, sha, r)
    ensures r == Some(k)
  {
  }

  // ---------------------------------------------------------------------
  // Checking out and merging, as conditions on the state

  /** merge's refusal: with nothing staged, a working file HEAD does not
      track whose version the given side changed since the split point. */
  ghost predicate MergeInTheWay(work: map<Name, Content>, sp: Projection, cp: Projection, gp: Projection)
  {
    exists n :: n in work && n !in cp.nameToSha && ChangedOnGiven(sp, gp, n)
  }

  /** merge's loop over the untracked files: is one of them changed on the
      given side? */
  method FindChangedOnGiven(names: set<Name>, sp: Projection, gp: Projection) returns (found: bool)
    ensures found <==> exists n :: n in names && ChangedOnGiven(sp, gp, n)
  {
    var pending := names;
    while pending != {}
      invariant pending <= names
      invariant forall n :: n in names && n !in pending ==> !ChangedOnGiven(sp, gp, n)
      decreases pending
    {
      var n :| n in pending;
      if !MyEquals(ShaFromName(sp, n), ShaFromName(gp, n)) {
        return true;
      }
      pending := pending - {n};
    }
    return false;
  }

  /** The split point of two commits: the first commit of the breadth-first
      order from cur that is an ancestor of given (findSplit). */
  ghost function SplitPoint(commits: Store, gen: Ranks, root: CommitId, cur: CommitId, given: CommitId): (s: CommitId)
    requires Ranked(commits, gen) && Rooted(commits, root) && cur in commits && given in commits
    ensures s in commits
  {
    SplitExists(commits, gen, root, cur, given);
    AncestorsStored(commits, gen, given);
    FirstIn(Order(commits, gen, [cur]), Ancestors(commits, gen, given)).value
  }

  /** The split point is a common ancestor, and no common ancestor is
      fewer parent edges away from cur. */
  lemma SplitIsClosestCommonAncestor(commits: Store, gen: Ranks, root: CommitId, cur: CommitId, given: CommitId)
    requires Ranked(commits, gen) && Rooted(commits, root) && cur in commits && given in commits
    ensures var s := SplitPoint(commits, gen, root, cur, given);
      && s in Ancestors(commits, gen, cur) && s in Ancestors(commits, gen, given)
      && exists d: nat :: History.Path(commits, cur, s, d) && NoneCloser(commits, cur, Ancestors(commits, gen, given), d)
  {
    SplitExists(commits, gen, root, cur, given);
    BfsFirstIsClosest(commits, gen, cur, Ancestors(commits, gen, given));
  }

  /** What merge decides before it writes anything. */
  datatype MergePlan =
    | Reject(error: Error)
    | FastForward(target: CommitId)
    | ThreeWay(split: CommitId, cur: CommitId, given: CommitId)

  /** The result of a merge command. */
  datatype MergeOutcome =
    | Merged(id: CommitId, conflict: bool)
    | FastForwarded
    | Refused(error: Error)

  /** The message of the commit a merge of branch b into branch curr makes. */
  function MergeMessage(b: Branch, curr: Branch): string
  {
    "Merged " + b + " into " + curr + "."
  }

  /** The merge commit: on the current branch, with the current head and
      the given head as parents, tracking the current head's files patched
      with what the merge staged. */
  ghost function MergeRecord(b: Branch, curr: Branch, cur: CommitId, given: CommitId,
                             sp: Projection, cp: Projection, gp: Projection): CommitRecord
  {
    CommitRecord(MergeMessage(b, curr), WallClock, curr, Some(cur), Some(given),
                 Patched(cp, MergeAdds(sp, cp, gp), GivenRemoves(sp, cp, gp)))
  }

  /** init's commit("initial commit"): a root commit on master, made with
      two new, empty staging areas. */
  method InitialCommit() returns (rec: CommitRecord, addStage: Staging, removeStage: Staging)
    ensures rec == CommitRecord(InitialMessage, Epoch, Master, None, None, EmptyProjection())
    ensures fresh(addStage) && fresh(removeStage) && addStage != removeStage
    ensures addStage.kind == AddKind && removeStage.kind == RemoveKind
    ensures addStage.Value() == EmptyArea() && removeStage.Value() == EmptyArea()
    ensures addStage.Valid() && removeStage.Valid()
  {
    addStage := new Staging(AddKind);
    removeStage := new Staging(RemoveKind);
    var res, objs := NewCommit(InitialMessage, Master, None, None, EmptyProjection(), addStage, removeStage, {});
    rec := res.value;
  }

  // ---------------------------------------------------------------------
  // The repository

  /** The working directory: its plain files by name. Commands read and
      write it in place, as the source does through the file system. */
  class WorkTree {
    var files: map<Name, Content>

    constructor (files: map<Name, Content>)
      ensures this.files == files
    {
      this.files := files;
    }
  }

  class Repository {
    /** The working directory the repository sits in. */
    const tree: WorkTree
    /** The blob files of the objects directory. */
    var objects: set<Fingerprint>
    /** _commitTree, with each commit file's contents. */
    var commits: Store
    /** The files of the refs directory. */
    var refs: map<Branch, CommitId>
    /** The directories of the branches directory. */
    var branchDirs: set<Branch>
    /** _currBranch, which the HEAD file names too. */
    var currBranch: Branch
    const addStage: Staging
    const removeStage: Staging
    /** Ranks that witness acyclic history; the source stores none. */
    ghost var gen: Ranks
    /** The initial commit. */
    ghost const root: CommitId

    ghost predicate Valid()
      reads this, addStage, removeStage
    {
      StagesValid() && HistoryValid()
    }

    /** Two distinct, valid and disjoint staging areas. */
    ghost predicate StagesValid()
      reads addStage, removeStage
    {
      && addStage != removeStage && addStage.kind == AddKind && removeStage.kind == RemoveKind
      && addStage.Valid() && removeStage.Valid()
      && addStage.nameToSha.Keys !! removeStage.nameToSha.Keys
    }

    /** A valid commit store and valid refs. */
    ghost predicate HistoryValid()
      reads this
    {
      HistoryOk(commits, gen, root, objects, branchDirs, refs, currBranch)
    }

    /** lastCommitSha: the head commit of the current branch, which in a
        valid history is a stored, full-length commit id. */
    function HeadId(): (id: CommitId)
      reads this
      requires currBranch in refs
      ensures HistoryValid() ==> id in commits && |id| == ShaLength
    {
      refs[currBranch]
    }

    /** The projection of the head commit. */
    function HeadProjection(): Projection
      reads this
      requires currBranch in refs && refs[currBranch] in commits
    {
      commits[refs[currBranch]].projection
    }

    /** init: the master branch, holding the initial commit, with empty
        staging areas; rootId is the id the initial commit hashes to. */
    constructor Init(rootId: CommitId, tree: WorkTree)
      requires |rootId| == ShaLength
      ensures Valid() && fresh(addStage) && fresh(removeStage)
      ensures this.tree == tree && objects == {} && currBranch == Master
      ensures refs == map[Master := rootId] && branchDirs == {Master}
      ensures commits == map[rootId := CommitRecord(InitialMessage, Epoch, Master, None, None, EmptyProjection())]
      ensures addStage.Value() == EmptyArea() && removeStage.Value() == EmptyArea()
    {
      var rec, a, r := InitialCommit();
      this.tree := tree;
      objects := {};
      commits := map[rootId := rec];
      refs := map[Master := rootId];
      branchDirs := {Master};
      currBranch := Master;
      addStage, removeStage := a, r;
      gen := map[rootId := 0];
      root := rootId;
      new;
      InitialStoreValid(commits, gen, root, objects, branchDirs, refs, currBranch, rec);
    }

    /** add: stage the file for addition against the head commit. */
    method Add(name: Name) returns (err: Option<Error>)
      requires Valid()
      modifies tree, addStage, removeStage
      ensures Valid()
      ensures Staged(err, addStage.Value(), removeStage.Value(), tree.files) ==
              StageAdd(old(addStage.Value()), old(removeStage.Value()), name, HeadProjection(), old(tree.files))
      ensures err == Some(FileDoesNotExist) <==> name !in old(tree.files)
      ensures err.None? ==> tree.files == old(tree.files)
                            && removeStage.nameToSha == old(removeStage.nameToSha) - {name}
      ensures err.None? && ShaFromName(HeadProjection(), name) == Some(Fp(old(tree.files)[name], name)) ==>
                addStage.nameToSha == old(addStage.nameToSha) - {name}
      ensures err.None? && ShaFromName(HeadProjection(), name) != Some(Fp(old(tree.files)[name], name)) ==>
                addStage.nameToSha == old(addStage.nameToSha)[name := Fp(old(tree.files)[name], name)]
    {
      assert CommitOk(commits[HeadId()], objects, branchDirs);
      err := AddAgainst(HeadProjection(), name);
    }

    /** Staging.stage on the add area against head: a missing working
        file is refused with no change. Otherwise the name leaves the
        remove area, and it is add-staged with the working file's version
        unless head tracks exactly that version, in which case it leaves
        the add area too. */
    method AddAgainst(head: Projection, name: Name) returns (err: Option<Error>)
      requires StagesValid() && WellFormed(head)
      modifies tree, addStage, removeStage
      ensures StagesValid()
      ensures Staged(err, addStage.Value(), removeStage.Value(), tree.files) ==
              StageAdd(old(addStage.Value()), old(removeStage.Value()), name, head, old(tree.files))
      ensures err == Some(FileDoesNotExist) <==> name !in old(tree.files)
      ensures err.None? ==> tree.files == old(tree.files)
                            && removeStage.nameToSha == old(removeStage.nameToSha) - {name}
      ensures err.None? && ShaFromName(head, name) == Some(Fp(old(tree.files)[name], name)) ==>
                addStage.nameToSha == old(addStage.nameToSha) - {name}
      ensures err.None? && ShaFromName(head, name) != Some(Fp(old(tree.files)[name], name)) ==>
                addStage.nameToSha == old(addStage.nameToSha)[name := Fp(old(tree.files)[name], name)]
    {
      ghost var a0, r0, w := addStage.Value(), removeStage.Value(), tree.files;
      StageKeepsDisjoint(AddKind, a0, r0, name, head, w);
      StageAddOutcome(a0, r0, name, head, w);
      var files;
      err, files := addStage.Stage(name, head, removeStage, tree.files);
      tree.files := files;
    }

    /** rm: stage the file for removal against the head commit. */
    method Rm(name: Name) returns (err: Option<Error>)
      requires Valid()
      modifies tree, addStage, removeStage
      ensures Valid()
      ensures Staged(err, removeStage.Value(), addStage.Value(), tree.files) ==
              StageRemove(old(removeStage.Value()), old(addStage.Value()), name, HeadProjection(), old(tree.files))
      ensures err == Some(NoReasonToRemove) <==>
                name !in HeadProjection().nameToSha && name !in old(addStage.nameToSha)
      ensures err.None? ==> addStage.nameToSha == old(addStage.nameToSha) - {name}
      ensures err.None? && name in HeadProjection().nameToSha ==>
                && removeStage.nameToSha == old(removeStage.nameToSha)[name :=
                     if name in old(addStage.nameToSha) then old(addStage.nameToSha)[name]
                     else HeadProjection().nameToSha[name]]
                && tree.files == old(tree.files) - {name}
      ensures err.None? && name !in HeadProjection().nameToSha ==>
                removeStage.nameToSha == old(removeStage.nameToSha) && tree.files == old(tree.files)
    {
      assert CommitOk(commits[HeadId()], objects, branchDirs);
      err := RmAgainst(HeadProjection(), name);
    }

    /** Staging.stage on the remove area against head: a name head does
        not track and nothing add-stages is refused with no change.
        Otherwise the name leaves the add area, and a name head tracks is
        remove-staged and its working file deleted. */
    method RmAgainst(head: Projection, name: Name) returns (err: Option<Error>)
      requires StagesValid() && WellFormed(head)
      modifies tree, addStage, removeStage
      ensures StagesValid()
      ensures Staged(err, removeStage.Value(), addStage.Value(), tree.files) ==
              StageRemove(old(removeStage.Value()), old(addStage.Value()), name, head, old(tree.files))
      ensures err == Some(NoReasonToRemove) <==> name !in head.nameToSha && name !in old(addStage.nameToSha)
      ensures err.None? ==> addStage.nameToSha == old(addStage.nameToSha) - {name}
      ensures err.None? && name in head.nameToSha ==>
                && removeStage.nameToSha == old(removeStage.nameToSha)[name :=
                     if name in old(addStage.nameToSha) then old(addStage.nameToSha)[name]
                     else head.nameToSha[name]]
                && tree.files == old(tree.files) - {name}
      ensures err.None? && name !in head.nameToSha ==>
                removeStage.nameToSha == old(removeStage.nameToSha) && tree.files == old(tree.files)
    {
      ghost var a0, r0, w := addStage.Value(), removeStage.Value(), tree.files;
      StageKeepsDisjoint(RemoveKind, r0, a0, name, head, w);
      StageRemoveOutcome(r0, a0, name, head, w);
      var files;
      err, files := removeStage.Stage(name, head, addStage, tree.files);
      tree.files := files;
    }

    /** commit(message, p2Sha): a child of the head commit on the current
        branch, with second parent p2; id is the id the new commit hashes
        to, which is not already stored. */
    method CommitWith(message: string, id: CommitId, p2: Option<CommitId>) returns (err: Option<Error>)
      requires Valid() && |id| == ShaLength && id !in commits
      requires p2.Some? ==> p2.value in commits
      modifies this, addStage, removeStage
      ensures Valid() && branchDirs == old(branchDirs) && currBranch == old(currBranch)
      ensures err == Some(EmptyMessage) <==> message == ""
      ensures err == Some(NoChanges) <==>
                message != "" && old(addStage.nameToPath) == map[] && old(removeStage.nameToPath) == map[]
      ensures err.Some? ==> err == Some(EmptyMessage) || err == Some(NoChanges)
      ensures err.Some? ==> commits == old(commits) && refs == old(refs) && objects == old(objects)
                            && addStage.Value() == old(addStage.Value()) && removeStage.Value() == old(removeStage.Value())
      ensures err.None? ==>
        && commits == old(commits)[id := CommitRecord(message, WallClock, old(currBranch), Some(old(HeadId())), p2,
                                                       Patched(old(HeadProjection()), old(addStage.nameToSha),
                                                               old(removeStage.nameToSha.Keys)))]
        && refs == old(refs)[currBranch := id]
        && objects == old(objects) + old(addStage.nameToSha).Values
        && addStage.Value() == EmptyArea() && removeStage.Value() == EmptyArea()
    {
      var parent := HeadId();
      assert CommitOk(commits[parent], objects, branchDirs);
      ghost var adds, removes := addStage.nameToSha, removeStage.nameToSha.Keys;
      var r, objs := NewCommit(message, currBranch, Some(parent), p2, commits[parent].projection,
                               addStage, removeStage, objects);
      if r.Err? {
        return Some(r.error);
      }
      var rec := r.value;
      CommitKeepsValid(commits, gen, root, objects, objs, branchDirs, refs, currBranch, id, rec, adds, removes);
      Record(commits[id := rec], gen[id := NextRank(gen, parent, p2)], objs, refs[currBranch := id]);
      err := None;
    }

    /** The persisted part of commit: write the commit and move the current
        branch's ref to it. */
    method Record(commits': Store, ghost gen': Ranks, objects': set<Fingerprint>, refs': map<Branch, CommitId>)
      requires HistoryOk(commits', gen', root, objects', branchDirs, refs', currBranch)
      modifies this
      ensures commits == commits' && gen == gen' && objects == objects' && refs == refs'
      ensures branchDirs == old(branchDirs) && currBranch == old(currBranch)
      ensures HistoryValid()
    {
      commits, objects, refs := commits', objects', refs';
      gen := gen';
    }

    /** commit(message): an ordinary commit, with no second parent. */
    method Commit(message: string, id: CommitId) returns (err: Option<Error>)
      requires Valid() && |id| == ShaLength && id !in commits
      modifies this, addStage, removeStage
      ensures Valid() && branchDirs == old(branchDirs) && currBranch == old(currBranch)
      ensures err == Some(EmptyMessage) <==> message == ""
      ensures err == Some(NoChanges) <==>
                message != "" && old(addStage.nameToPath) == map[] && old(removeStage.nameToPath) == map[]
      ensures err.Some? ==> err == Some(EmptyMessage) || err == Some(NoChanges)
      ensures err.Some? ==> commits == old(commits) && refs == old(refs) && objects == old(objects)
                            && addStage.Value() == old(addStage.Value()) && removeStage.Value() == old(removeStage.Value())
      ensures err.None? ==>
        && commits == old(commits)[id := CommitRecord(message, WallClock, old(currBranch), Some(old(HeadId())), None,
                                                       Patched(old(HeadProjection()), old(addStage.nameToSha),
                                                               old(removeStage.nameToSha.Keys)))]
        && refs == old(refs)[currBranch := id]
        && objects == old(objects) + old(addStage.nameToSha).Values
        && addStage.Value() == EmptyArea() && removeStage.Value() == EmptyArea()
    {
      err := CommitWith(message, id, None);
    }

    /** getCommitFromSha's resolution of a possibly abbreviated id. */
    method ResolveId(sha: string) returns (r: Option<CommitId>)
      requires Valid()
      ensures Resolution(commits, sha, r)
    {
      var id := sha;
      if |sha| < ShaLength {
        var keys := commits.Keys;
        while keys != {}
          invariant keys <= commits.Keys
          invariant id == sha || (id in commits && sha <= id)
          invariant id == sha ==> forall k :: k in commits && k !in keys ==> !(sha <= k)
          decreases keys
        {
          var k :| k in keys;
          if id <= k {
            if id != sha {
              assert |id| == ShaLength == |k|;
            }
            id := k;
          }
          keys := keys - {k};
        }
      }
      r := if id in commits then Some(id) else None;
    }

    /** checkout [id] -- name: write the version of name that commit id
        tracks, by default the head commit's, into the working tree. */
    method CheckoutFile(id: Option<string>, name: Name) returns (err: Option<Error>, target: Option<CommitId>)
      requires Valid()
      modifies tree
      ensures Resolution(commits, if id.Some? then id.value else HeadId(), target)
      ensures id.None? ==> target == Some(HeadId())
      ensures id.Some? && id.value in commits ==> target == id
      ensures err == Some(NoCommitWithId) <==> target.None?
      ensures err == Some(FileNotInCommit) <==> target.Some? && name !in commits[target.value].projection.nameToSha
      ensures err.Some? ==> tree.files == old(tree.files) && (err == Some(NoCommitWithId) || err == Some(FileNotInCommit))
      ensures err.None? ==>
                tree.files == old(tree.files)[name := commits[target.value].projection.nameToSha[name].content]
    {
      var sha := if id.Some? then id.value else HeadId();
      target := ResolveId(sha);
      if id.None? || sha in commits {
        assert |sha| == ShaLength;
        ResolveFull(commits, sha, target);
      }
      if target.None? {
        return Some(NoCommitWithId), target;
      }
      var p := commits[target.value].projection;
      if name !in p.nameToSha {
        return Some(FileNotInCommit), target;
      }
      tree.files := tree.files[name := p.nameToSha[name].content];
      err := None;
    }

    /** checkoutBranchWithSha: replace the working tree by the files of the
        commit sha resolves to, unless an untracked file is in the way. */
    method CheckoutBranchWithSha(sha: string) returns (err: Option<Error>, target: Option<CommitId>)
      requires Valid()
      modifies tree
      ensures Resolution(commits, sha, target)
      ensures err == Some(NoCommitWithId) <==> target.None?
      ensures err == Some(UntrackedInTheWay) <==>
                target.Some? && InTheWay(old(tree.files), HeadProjection(), commits[target.value].projection)
      ensures err.Some? ==> tree.files == old(tree.files) && (err == Some(NoCommitWithId) || err == Some(UntrackedInTheWay))
      ensures err.None? ==> tree.files == Contents(commits[target.value].projection.nameToSha)
    {
      target := ResolveId(sha);
      if target.None? {
        return Some(NoCommitWithId), target;
      }
      assert CommitOk(commits[target.value], objects, branchDirs);
      var files;
      err, files := CheckoutTree(tree.files, HeadProjection(), commits[target.value].projection);
      tree.files := files;
    }

    /** checkout branch: refuse the current branch and a branch without a
        ref; otherwise check out the branch's head commit and make the
        branch current. The staging areas are left as they are. */
    method CheckoutBranch(b: Branch) returns (err: Option<Error>)
      requires Valid()
      modifies this, tree
      ensures Valid() && gen == old(gen)
      ensures commits == old(commits) && refs == old(refs) && objects == old(objects) && branchDirs == old(branchDirs)
      ensures err == Some(NoNeedToCheckout) <==> b == old(currBranch)
      ensures err == Some(NoSuchBranch) <==> b != old(currBranch) && b !in refs
      ensures err == Some(UntrackedInTheWay) <==>
                b != old(currBranch) && b in refs
                && InTheWay(old(tree.files), old(HeadProjection()), commits[refs[b]].projection)
      ensures err.Some? ==> && tree.files == old(tree.files) && currBranch == old(currBranch)
                            && (err == Some(NoNeedToCheckout) || err == Some(NoSuchBranch) || err == Some(UntrackedInTheWay))
      ensures err.None? ==> tree.files == Contents(commits[refs[b]].projection.nameToSha) && currBranch == b
    {
      if b == currBranch {
        return Some(NoNeedToCheckout);
      }
      if b !in refs {
        return Some(NoSuchBranch);
      }
      var id := refs[b];
      var target;
      err, target := CheckoutBranchWithSha(id);
      ResolveFull(commits, id, target);
      if err.Some? {
        return;
      }
      UpdateHead(b);
    }

    /** reset: check out the commit sha resolves to, empty both staging
        areas and point the ref of the branch that commit was made on at
        it. */
    method Reset(sha: string) returns (err: Option<Error>, target: Option<CommitId>)
      requires Valid()
      modifies this, tree, addStage, removeStage
      ensures Valid() && gen == old(gen)
      ensures commits == old(commits) && objects == old(objects) && branchDirs == old(branchDirs)
      ensures currBranch == old(currBranch)
      ensures Resolution(commits, sha, target)
      ensures err == Some(NoCommitWithId) <==> target.None?
      ensures err == Some(UntrackedInTheWay) <==>
                target.Some? && InTheWay(old(tree.files), old(HeadProjection()), commits[target.value].projection)
      ensures err.Some? ==> && tree.files == old(tree.files) && refs == old(refs)
                            && addStage.Value() == old(addStage.Value()) && removeStage.Value() == old(removeStage.Value())
                            && (err == Some(NoCommitWithId) || err == Some(UntrackedInTheWay))
      ensures err.None? ==> && tree.files == Contents(commits[target.value].projection.nameToSha)
                            && refs == ResetRef(old(refs), commits, target.value)
                            && addStage.Value() == EmptyArea() && removeStage.Value() == EmptyArea()
    {
      err, target := CheckoutBranchWithSha(sha);
      if err.Some? {
        return;
      }
      ClearStaging();
      var t := target.value;
      assert CommitOk(commits[t], objects, branchDirs);
      UpdateBranchHead(commits[t].branch, t);
    }

    /** updateBranchHead: point the ref of branch b at commit id. */
    method UpdateBranchHead(b: Branch, id: CommitId)
      requires HistoryValid() && b in branchDirs && id in commits
      modifies this
      ensures HistoryValid() && refs == old(refs)[b := id]
      ensures commits == old(commits) && objects == old(objects) && branchDirs == old(branchDirs)
      ensures currBranch == old(currBranch) && gen == old(gen)
    {
      MoveRef(commits, gen, root, objects, branchDirs, refs, currBranch, b, id);
      refs := refs[b := id];
    }

    /** updateHead: make branch b, which has a ref, the current branch. */
    method UpdateHead(b: Branch)
      requires HistoryValid() && b in refs
      modifies this
      ensures HistoryValid() && currBranch == b
      ensures commits == old(commits) && objects == old(objects) && branchDirs == old(branchDirs)
      ensures refs == old(refs) && gen == old(gen)
    {
      SwitchBranch(commits, gen, root, objects, branchDirs, refs, currBranch, b);
      currBranch := b;
    }

    /** clearStaging: empty both staging areas. */
    method ClearStaging()
      requires StagesValid()
      modifies addStage, removeStage
      ensures StagesValid() && addStage.Value() == EmptyArea() && removeStage.Value() == EmptyArea()
    {
      addStage.Clear();
      removeStage.Clear();
    }

    /** branch: a new branch directory with a ref at the head commit, unless
        the directory exists already; master's always does, since init made
        it and nothing deletes it. */
    method CreateBranch(name: Branch) returns (err: Option<Error>)
      requires Valid()
      modifies this
      ensures Valid() && gen == old(gen)
      ensures commits == old(commits) && objects == old(objects) && currBranch == old(currBranch)
      ensures err.Some? <==> name in old(branchDirs)
      ensures name == Master ==> err.Some?
      ensures err.Some? ==> err == Some(BranchExists) && branchDirs == old(branchDirs) && refs == old(refs)
      ensures err.None? ==> branchDirs == old(branchDirs) + {name} && refs == old(refs)[name := old(HeadId())]
    {
      if name in branchDirs {
        return Some(BranchExists);
      }
      var head := HeadId();
      AddBranchDir(name);
      UpdateBranchHead(name, head);
      err := None;
    }

    /** The branch directory mkdir makes. */
    method AddBranchDir(name: Branch)
      requires HistoryValid()
      modifies this
      ensures HistoryValid() && branchDirs == old(branchDirs) + {name}
      ensures commits == old(commits) && objects == old(objects) && refs == old(refs)
      ensures currBranch == old(currBranch) && gen == old(gen)
    {
      GrowBranchDirs(commits, gen, root, objects, branchDirs, refs, currBranch, name);
      branchDirs := branchDirs + {name};
    }

    /** rm-branch: refuse the current branch and a branch without a ref;
        otherwise delete the ref, leaving the branch directory and its
        commits in place. */
    method RmBranch(b: Branch) returns (err: Option<Error>)
      requires Valid()
      modifies this
      ensures Valid() && gen == old(gen)
      ensures commits == old(commits) && objects == old(objects) && currBranch == old(currBranch)
      ensures branchDirs == old(branchDirs)
      ensures err == Some(CannotRemoveCurrent) <==> b == currBranch
      ensures err == Some(BranchDoesNotExist) <==> b != currBranch && b !in old(refs)
      ensures err.Some? ==> refs == old(refs) && (err == Some(CannotRemoveCurrent) || err == Some(BranchDoesNotExist))
      ensures err.None? ==> refs == old(refs) - {b}
    {
      if b == currBranch {
        return Some(CannotRemoveCurrent);
      }
      if b !in refs {
        return Some(BranchDoesNotExist);
      }
      DropRef(commits, gen, root, objects, branchDirs, refs, currBranch, b);
      refs := refs - {b};
      err := None;
    }

    // -------------------------------------------------------------------
    // Queries

    /** addParents: add every commit reachable from c by one or more parent
        edges to pSet, parent1's side first. */
    method AddParents(c: CommitId, pSet: set<CommitId>) returns (pSet': set<CommitId>)
      requires HistoryValid() && c in commits
      ensures pSet' == pSet + StrictAncestors(commits, gen, c)
      decreases gen[c]
    {
      assert ParentOk(commits, gen, c);
      var r := commits[c];
      pSet' := pSet;
      if r.parent1.Some? {
        pSet' := pSet' + {r.parent1.value};
        pSet' := AddParents(r.parent1.value, pSet');
      }
      if r.parent2.Some? {
        pSet' := pSet' + {r.parent2.value};
        pSet' := AddParents(r.parent2.value, pSet');
      }
    }

    /** findAncestor: a breadth-first walk from c that enqueues parent1
        before parent2 and keeps no visited set; the first dequeued commit
        that lies in pSet, if any. */
    method FindAncestor(c: CommitId, pSet: set<CommitId>) returns (r: Option<CommitId>)
      requires HistoryValid() && c in commits
      ensures r == FirstIn(Order(commits, gen, [c]), pSet)
    {
      var queue := [c];
      while queue != []
        invariant AllIn(queue, commits)
        invariant FirstIn(Order(commits, gen, queue), pSet) == FirstIn(Order(commits, gen, [c]), pSet)
        decreases Weight(gen, queue)
      {
        var a := queue[0];
        OrderStep(commits, gen, queue);
        if a in pSet {
          return Some(a);
        }
        QueueStepWeighsLess(commits, gen, queue);
        assert a in queue;
        var rec := commits[a];
        EnqueueParents(queue[1..], rec);
        queue := queue[1..];
        if rec.parent1.Some? {
          queue := queue + [rec.parent1.value];
        }
        if rec.parent2.Some? {
          queue := queue + [rec.parent2.value];
        }
      }
      r := None;
    }

    /** findSplit: the ancestors of given, including given itself, and the
        first of them the walk from cur meets. */
    method FindSplit(cur: CommitId, given: CommitId) returns (split: CommitId)
      requires HistoryValid() && cur in commits && given in commits
      ensures split == SplitPoint(commits, gen, root, cur, given)
    {
      var parents := {given};
      parents := AddParents(given, parents);
      assert parents == Ancestors(commits, gen, given);
      var r := FindAncestor(cur, parents);
      SplitExists(commits, gen, root, cur, given);
      split := r.value;
    }

    /** find: the ids of the commits with the given message, or an error
        when there is none. */
    method Find(message: string) returns (r: Result<set<CommitId>>)
      ensures r.Err? <==> forall id :: id in commits ==> commits[id].message != message
      ensures r.Err? ==> r.error == NoCommitWithMessage
      ensures r.Ok? ==> forall id :: id in r.value <==> id in commits && commits[id].message == message
    {
      var found: set<CommitId> := {};
      var pending := commits.Keys;
      while pending != {}
        invariant pending <= commits.Keys
        invariant forall id :: id in found <==> id in commits && id !in pending && commits[id].message == message
        decreases pending
      {
        var id :| id in pending;
        if commits[id].message == message {
          found := found + {id};
        }
        pending := pending - {id};
      }
      if found == {} {
        return Err(NoCommitWithMessage);
      }
      r := Ok(found);
    }

    /** log: the ids log prints, from the head commit along first parents
        down to the initial commit. */
    method Log() returns (ids: seq<CommitId>)
      requires HistoryValid()
      ensures ids == FirstParentChain(commits, gen, HeadId())
      ensures ids[0] == HeadId() && ids[|ids| - 1] == root
      ensures forall i :: 0 <= i < |ids| - 1 ==> ids[i] in commits && commits[ids[i]].parent1 == Some(ids[i + 1])
    {
      var cur := Some(HeadId());
      ids := [];
      while cur.Some?
        invariant cur.Some? ==> cur.value in commits
        invariant ids + (if cur.Some? then FirstParentChain(commits, gen, cur.value) else [])
                  == FirstParentChain(commits, gen, HeadId())
        decreases if cur.Some? then gen[cur.value] + 1 else 0
      {
        var c := cur.value;
        assert ParentOk(commits, gen, c);
        ids := ids + [c];
        cur := commits[c].parent1;
      }
      FirstParentChainShape(commits, gen, root, HeadId());
    }

    /** getUntrackedFiles. */
    method UntrackedFiles() returns (names: set<Name>)
      requires Valid()
      ensures forall n :: n in names <==>
                n in tree.files && IsUntracked(n, addStage.Value(), removeStage.Value(), HeadProjection())
    {
      var head := HeadProjection();
      names := {};
      var pending := tree.files.Keys;
      while pending != {}
        invariant pending <= tree.files.Keys
        invariant forall n :: n in names <==>
                    n in tree.files && n !in pending && IsUntracked(n, addStage.Value(), removeStage.Value(), head)
        decreases pending
      {
        var n :| n in pending;
        if (!addStage.IsStaged(n) && n !in head.nameToSha) || (removeStage.IsStaged(n) && n in head.nameToSha) {
          names := names + {n};
        }
        pending := pending - {n};
      }
    }

    /** status without its layout: the branch directories, the current
        branch, and the classification of every file. */
    method Status() returns (branches: set<Branch>, current: Branch, report: Report)
      requires Valid()
      ensures branches == branchDirs && current == currBranch
      ensures report == StatusOf(tree.files, addStage.Value(), removeStage.Value(), HeadProjection())
    {
      var head, add, rem := HeadProjection(), addStage.Value(), removeStage.Value();
      var modified := ModifiedFiles(tree.files, add, rem, head);
      var deleted := DeletedFiles(tree.files, add, rem, head);
      var untracked := UntrackedFiles();
      assert untracked == StatusOf(tree.files, add, rem, head).untracked;
      branches, current := branchDirs, currBranch;
      report := Report(add.nameToSha.Keys, rem.nameToSha.Keys, modified, deleted, untracked);
    }

    // -------------------------------------------------------------------
    // Merging

    /** Empty staging areas: nothing staged for addition or removal. */
    ghost predicate NothingStaged()
      reads addStage, removeStage
    {
      addStage.nameToSha == map[] && removeStage.nameToSha == map[]
    }

    /** What merge b decides before it writes anything: the refusals in the
        order the source checks them, the fast-forward, or a three-way
        merge from the split point. */
    ghost function PlanMerge(b: Branch): (p: MergePlan)
      reads this, addStage, removeStage
      requires Valid()
      ensures p.FastForward? ==> b in refs && b != currBranch && p.target == refs[b]
      ensures p.ThreeWay? ==> && b in refs && b != currBranch && p.cur == HeadId() && p.given == refs[b]
                              && p.split in commits && p.split != p.cur && p.split != p.given
    {
      if b !in refs then Reject(BranchDoesNotExist)
      else if addStage.nameToPath != map[] || removeStage.nameToPath != map[] then Reject(UncommittedChanges)
      else if b == currBranch then Reject(MergeWithSelf)
      else
        var split := SplitPoint(commits, gen, root, HeadId(), refs[b]);
        if split == refs[b] then Reject(GivenIsAncestor)
        else if split == HeadId() then FastForward(refs[b])
        else ThreeWay(split, HeadId(), refs[b])
    }

    /** mergeGiven's step for a file taken from the given side, whose
        version there is f: checkoutFile(givenID, n) writes f's contents,
        as CheckoutFile states for a stored full id, then add(n) stages f,
        which differs from HEAD's version. */
    method TakeGivenFile(head: Projection, f: Fingerprint)
      requires StagesValid() && WellFormed(head) && ShaFromName(head, f.name) != Some(f)
      modifies tree, addStage, removeStage
      ensures StagesValid()
      ensures addStage.nameToSha == old(addStage.nameToSha)[f.name := f]
      ensures removeStage.nameToSha == old(removeStage.nameToSha) - {f.name}
      ensures tree.files == old(tree.files)[f.name := f.content]
    {
      tree.files := tree.files[f.name := f.content];
      var added := AddAgainst(head, f.name);
    }

    /** mergeGiven's step for a file the given side deleted: rm(n), for a
        file HEAD tracks and nothing add-stages. */
    method RemoveTrackedFile(head: Projection, n: Name)
      requires StagesValid() && WellFormed(head) && n in head.nameToSha && n !in addStage.nameToSha
      modifies tree, addStage, removeStage
      ensures StagesValid()
      ensures removeStage.nameToSha == old(removeStage.nameToSha)[n := head.nameToSha[n]]
      ensures addStage.nameToSha == old(addStage.nameToSha)
      ensures tree.files == old(tree.files) - {n}
    {
      DropAbsent(addStage.nameToSha, n);
      var removed := RmAgainst(head, n);
    }

    /** mergeConflicts' step for a conflicted file: write the conflict
        text of HEAD's and given's versions, then add(n), which always
        add-stages it, since the text never is HEAD's version. */
    method WriteConflictFile(head: Projection, given: Projection, n: Name)
      requires StagesValid() && WellFormed(head)
      modifies tree, addStage, removeStage
      ensures StagesValid()
      ensures tree.files == old(tree.files)[n := ConflictText(ShaFromName(head, n), ShaFromName(given, n))]
      ensures removeStage.nameToSha == old(removeStage.nameToSha) - {n}
      ensures addStage.nameToSha == old(addStage.nameToSha)[n := ConflictSha(head, given, n)]
    {
      var text := ConflictText(ShaFromName(head, n), ShaFromName(given, n));
      tree.files := tree.files[n := text];
      ConflictDiffersFromHead(head, given, n);
      var added := AddAgainst(head, n);
    }

    /** mergeGiven's first loop, over the names the given head tracks. */
    method TakeGivenFiles(sp: Projection, cp: Projection, gp: Projection)
      requires StagesValid() && WellFormed(cp) && WellFormed(gp) && NothingStaged()
      modifies tree, addStage, removeStage
      ensures StagesValid()
      ensures addStage.nameToSha == GivenAdds(sp, cp, gp)
      ensures removeStage.nameToSha == map[]
      ensures tree.files == old(tree.files) + Contents(GivenAdds(sp, cp, gp))
    {
      TrackedNames(gp);
      ghost var ga, w0 := GivenAdds(sp, cp, gp), tree.files;
      var pending := gp.shaToName.Values;
      DrainNone(ga, pending);
      while pending != {}
        invariant pending <= gp.nameToSha.Keys
        invariant StagesValid()
        invariant addStage.nameToSha == ga - pending && removeStage.nameToSha == map[]
        invariant tree.files == w0 + Contents(ga - pending)
        decreases pending
      {
        var n :| n in pending;
        if MyEquals(ShaFromName(sp, n), ShaFromName(cp, n)) && !MyEquals(ShaFromName(sp, n), ShaFromName(gp, n)) {
          assert n in ga;
          ghost var r0 := removeStage.nameToSha;
          TakeGivenFile(cp, gp.nameToSha[n]);
          DrainPut(ga, pending, n);
          WriteStep(w0, ga, pending, n);
          DropAbsent(r0, n);
        } else {
          DrainSkip(ga, pending, n);
        }
        pending := pending - {n};
      }
      DrainAll(ga);
    }

    /** mergeGiven's second loop, over the names the split point tracks. */
    method RemoveGivenDeleted(sp: Projection, cp: Projection, gp: Projection)
      requires StagesValid() && WellFormed(sp) && WellFormed(cp) && WellFormed(gp)
      requires addStage.nameToSha == GivenAdds(sp, cp, gp) && removeStage.nameToSha == map[]
      modifies tree, addStage, removeStage
      ensures StagesValid()
      ensures addStage.nameToSha == old(addStage.nameToSha)
      ensures removeStage.nameToSha == RemovedEntries(sp, cp, gp)
      ensures tree.files == old(tree.files) - GivenRemoves(sp, cp, gp)
    {
      MergeGroupsDisjoint(sp, cp, gp);
      TrackedNames(sp);
      ghost var gr, w0 := GivenRemoves(sp, cp, gp), tree.files;
      var pending := sp.shaToName.Values;
      SetDrainNone(gr, pending);
      RestrictNone(cp.nameToSha);
      DrainAll(w0);
      while pending != {}
        invariant pending <= sp.nameToSha.Keys
        invariant StagesValid()
        invariant addStage.nameToSha == old(addStage.nameToSha)
        invariant removeStage.nameToSha == Restrict(cp.nameToSha, gr - pending)
        invariant tree.files == w0 - (gr - pending)
        decreases pending
      {
        var n :| n in pending;
        if MyEquals(ShaFromName(sp, n), ShaFromName(cp, n)) && !Contains(gp, NameKey(n)) {
          assert n in gr;
          RemoveTrackedFile(cp, n);
          RemoveStep(w0, cp.nameToSha, gr, pending, n);
        } else {
          assert n !in gr;
          SetDrainSkip(gr, pending, n);
        }
        pending := pending - {n};
      }
      SetDrainAll(gr);
    }

    /** mergeConflicts: over the names either head tracks, rewrite every
        conflicted file and add-stage it; the result says whether there was
        a conflict. */
    method MergeConflictFiles(sp: Projection, cp: Projection, gp: Projection) returns (conflict: bool)
      requires StagesValid() && WellFormed(cp)
      requires addStage.nameToSha.Keys == GivenAdds(sp, cp, gp).Keys
      requires removeStage.nameToSha.Keys == GivenRemoves(sp, cp, gp)
      modifies tree, addStage, removeStage
      ensures StagesValid()
      ensures addStage.nameToSha == old(addStage.nameToSha) + ConflictAdds(sp, cp, gp)
      ensures removeStage.nameToSha == old(removeStage.nameToSha)
      ensures tree.files == old(tree.files) + ConflictContents(sp, cp, gp)
      ensures conflict <==> ConflictNames(sp, cp, gp) != {}
    {
      MergeGroupsDisjoint(sp, cp, gp);
      ghost var cn, ca, cc := ConflictNames(sp, cp, gp), ConflictAdds(sp, cp, gp), ConflictContents(sp, cp, gp);
      ghost var a0, r0, w0 := addStage.nameToSha, removeStage.nameToSha, tree.files;
      var pending := gp.nameToSha.Keys + cp.nameToSha.Keys;
      DrainStart(a0, ca, pending);
      DrainStart(w0, cc, pending);
      conflict := false;
      while pending != {}
        invariant pending <= gp.nameToSha.Keys + cp.nameToSha.Keys
        invariant StagesValid()
        invariant addStage.nameToSha == a0 + (ca - pending)
        invariant removeStage.nameToSha == r0
        invariant tree.files == w0 + (cc - pending)
        invariant conflict <==> !(cn <= pending)
        decreases pending
      {
        var n :| n in pending;
        var s, c, g := ShaFromName(sp, n), ShaFromName(cp, n), ShaFromName(gp, n);
        if !MyEquals(s, c) && !MyEquals(s, g) && !MyEquals(g, c) {
          assert n in cn && n !in r0 && n !in a0;
          WriteConflictFile(cp, gp, n);
          DrainPutOver(a0, ca, pending, n);
          DrainPutOver(w0, cc, pending, n);
          DropAbsent(r0, n);
          conflict := true;
        } else {
          assert n !in cn;
          DrainSkip(ca, pending, n);
          DrainSkip(cc, pending, n);
        }
        pending := pending - {n};
      }
      DrainAll(ca);
      DrainAll(cc);
    }

    /** mergeGiven's two loops, then mergeConflicts: the working files end
        up as MergedWork says, and the areas hold what the merge commit
        records. */
    method MergeFiles(sp: Projection, cp: Projection, gp: Projection) returns (conflict: bool)
      requires StagesValid() && NothingStaged() && WellFormed(sp) && WellFormed(cp) && WellFormed(gp)
      modifies tree, addStage, removeStage
      ensures StagesValid()
      ensures addStage.nameToSha == MergeAdds(sp, cp, gp)
      ensures removeStage.nameToSha == RemovedEntries(sp, cp, gp)
      ensures removeStage.nameToSha.Keys == GivenRemoves(sp, cp, gp)
      ensures tree.files == MergedWork(old(tree.files), sp, cp, gp)
      ensures conflict <==> ConflictNames(sp, cp, gp) != {}
    {
      TakeGivenFiles(sp, cp, gp);
      RemoveGivenDeleted(sp, cp, gp);
      RemovedKeys(sp, cp, gp);
      conflict := MergeConflictFiles(sp, cp, gp);
    }

    /** merge's loop over getUntrackedFiles: with nothing staged, the
        untracked files are those HEAD does not track, and one of them is
        in the way when its version on the given side changed since the
        split point. */
    method UntrackedChangedOnGiven(sp: Projection, gp: Projection) returns (blocked: bool)
      requires Valid() && NothingStaged()
      ensures blocked <==> MergeInTheWay(tree.files, sp, HeadProjection(), gp)
    {
      var names := UntrackedFiles();
      assert forall n :: n in names <==> n in tree.files && n !in HeadProjection().nameToSha;
      blocked := FindChangedOnGiven(names, sp, gp);
    }

    /** The rest of merge once the refusals before it have passed and the
        split point sp is neither head: refuse when an untracked file is in
        the way; otherwise mergeGiven, mergeConflicts and
        commit("Merged b into curr.", given). */
    method MergeThreeWay(b: Branch, sp: Projection, given: CommitId, id: CommitId) returns (r: MergeOutcome)
      requires Valid() && NothingStaged() && given in commits && WellFormed(sp)
      requires |id| == ShaLength && id !in commits
      modifies this, tree, addStage, removeStage
      ensures Valid() && branchDirs == old(branchDirs) && currBranch == old(currBranch)
      ensures var cp, gp := old(HeadProjection()), old(commits[given].projection);
        && (r == Refused(UntrackedInTheWay) <==> MergeInTheWay(old(tree.files), sp, cp, gp))
        && (r == Refused(UntrackedInTheWay) ==>
              && tree.files == old(tree.files) && NothingStaged()
              && commits == old(commits) && refs == old(refs) && objects == old(objects))
        && (r != Refused(UntrackedInTheWay) ==> tree.files == MergedWork(old(tree.files), sp, cp, gp))
        && (r == Refused(NoChanges) <==>
              !MergeInTheWay(old(tree.files), sp, cp, gp) && MergeAdds(sp, cp, gp) == map[] && GivenRemoves(sp, cp, gp) == {})
        && (r == Refused(NoChanges) ==> commits == old(commits) && refs == old(refs) && objects == old(objects) && NothingStaged())
        && (r.Refused? ==> r == Refused(UntrackedInTheWay) || r == Refused(NoChanges))
        && (r.FastForwarded? ==> false)
        && (r.Merged? ==>
              && r == Merged(id, ConflictNames(sp, cp, gp) != {})
              && commits == old(commits)[id := MergeRecord(b, old(currBranch), old(HeadId()), given, sp, cp, gp)]
              && refs == old(refs)[currBranch := id]
              && objects == old(objects) + MergeAdds(sp, cp, gp).Values
              && addStage.Value() == EmptyArea() && removeStage.Value() == EmptyArea())
    {
      var cp, gp := HeadProjection(), commits[given].projection;
      ghost var w0 := tree.files;
      assert CommitOk(commits[given], objects, branchDirs);
      assert CommitOk(commits[HeadId()], objects, branchDirs);
      var blocked := UntrackedChangedOnGiven(sp, gp);
      if blocked {
        return Refused(UntrackedInTheWay);
      }
      assert !MergeInTheWay(w0, sp, cp, gp);
      var conflict := MergeFiles(sp, cp, gp);
      assert tree.files == MergedWork(w0, sp, cp, gp);
      var err := CommitWith(MergeMessage(b, currBranch), id, Some(given));
      if err.Some? {
        return Refused(err.value);
      }
      r := Merged(id, conflict);
    }

    /** merge b: the refusals in the order the source checks them, the
        fast-forward (a checkout of b), or the three-way merge from the
        split point; id is the id the merge commit hashes to. */
    method Merge(b: Branch, id: CommitId) returns (r: MergeOutcome)
      requires Valid() && |id| == ShaLength && id !in commits
      modifies this, tree, addStage, removeStage
      ensures Valid() && branchDirs == old(branchDirs)
      ensures old(PlanMerge(b)).Reject? ==>
                && r == Refused(old(PlanMerge(b)).error)
                && tree.files == old(tree.files) && currBranch == old(currBranch)
                && commits == old(commits) && refs == old(refs) && objects == old(objects)
                && addStage.Value() == old(addStage.Value()) && removeStage.Value() == old(removeStage.Value())
      ensures old(PlanMerge(b)).FastForward? ==>
                && commits == old(commits) && refs == old(refs) && objects == old(objects)
                && (r == FastForwarded || r == Refused(UntrackedInTheWay))
                && (r == Refused(UntrackedInTheWay) <==>
                      InTheWay(old(tree.files), old(HeadProjection()), commits[refs[b]].projection))
                && (r == FastForwarded ==>
                      currBranch == b && tree.files == Contents(commits[refs[b]].projection.nameToSha))
                && (r == Refused(UntrackedInTheWay) ==> currBranch == old(currBranch) && tree.files == old(tree.files))
                && addStage.Value() == old(addStage.Value()) && removeStage.Value() == old(removeStage.Value())
      ensures var p := old(PlanMerge(b));
        p.ThreeWay? ==>
          var sp, cp, gp := old(commits[p.split].projection), old(HeadProjection()), old(commits[p.given].projection);
          && currBranch == old(currBranch)
          && (r == Refused(UntrackedInTheWay) <==> MergeInTheWay(old(tree.files), sp, cp, gp))
          && (r == Refused(UntrackedInTheWay) ==>
                tree.files == old(tree.files) && commits == old(commits) && refs == old(refs))
          && (r != Refused(UntrackedInTheWay) ==> tree.files == MergedWork(old(tree.files), sp, cp, gp))
          && (r == Refused(NoChanges) <==>
                !MergeInTheWay(old(tree.files), sp, cp, gp) && MergeAdds(sp, cp, gp) == map[] && GivenRemoves(sp, cp, gp) == {})
          && (r.Refused? ==> r == Refused(UntrackedInTheWay) || r == Refused(NoChanges))
          && (r.Refused? ==> commits == old(commits) && refs == old(refs) && objects == old(objects) && NothingStaged())
          && (r.Merged? ==>
                && r == Merged(id, ConflictNames(sp, cp, gp) != {})
                && commits == old(commits)[id := MergeRecord(b, old(currBranch), p.cur, p.given, sp, cp, gp)]
                && refs == old(refs)[currBranch := id]
                && objects == old(objects) + MergeAdds(sp, cp, gp).Values
                && addStage.Value() == EmptyArea() && removeStage.Value() == EmptyArea())
          && !r.FastForwarded?
    {
      if b !in refs {
        return Refused(BranchDoesNotExist);
      }
      if addStage.nameToPath != map[] || removeStage.nameToPath != map[] {
        return Refused(UncommittedChanges);
      }
      if b == currBranch {
        return Refused(MergeWithSelf);
      }
      var cur, given := HeadId(), refs[b];
      var split := FindSplit(cur, given);
      if split == given {
        return Refused(GivenIsAncestor);
      }
      if split == cur {
        var err := CheckoutBranch(b);
        if err.Some? {
          return Refused(err.value);
        }
        return FastForwarded;
      }
      SplitIsClosestCommonAncestor(commits, gen, root, cur, given);
      assert split in commits;
      assert CommitOk(commits[split], objects, branchDirs);
      assert NothingStaged() by {
        assert addStage.nameToSha.Keys == {} && removeStage.nameToSha.Keys == {};
      }
      r := MergeThreeWay(b, commits[split].projection, given, id);
    }
  }
}
