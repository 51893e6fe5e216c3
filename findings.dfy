/** Two places where the pointers one gitlet command leaves for the next
    drift apart: the fast-forward of merge, and the ref that reset writes.
    Each comes as the code does it, an input that shows the drift, and the
    evidently intended version, which the repository model follows. */
module Findings {
  import opened Objects
  import opened Records
  import opened History

  /** What the next command finds: the current-branch field saved with the
      repository object, the branch whose ref file the HEAD file names, and
      the ref files. */
  datatype Pointers = Pointers(saved: Branch, head: Branch, refs: map<Branch, CommitId>)

  /** The two records of the current branch name the same branch. */
  predicate Agrees(p: Pointers)
  {
    p.saved == p.head
  }

  // ---------------------------------------------------------------------
  // The fast-forward of merge

  /** merge's fast-forward as written: checkoutBranch's updateHead points
      HEAD at b and sets the field in memory, and then exitWithMessage ends
      the process before Main saves the repository object, so the field
      read back by the next command is the old one. */
  function FastForwardAsWritten(p: Pointers, b: Branch): Pointers
  {
    Pointers(p.saved, b, p.refs)
  }

  /** The fast-forward as intended: the saved field follows HEAD to b. */
  function FastForward(p: Pointers, b: Branch): Pointers
  {
    Pointers(b, b, p.refs)
  }

  /** commit on the pointers it finds: the parent is the commit HEAD's ref
      names (lastCommitSha), and the new id is written into the ref of the
      saved current branch (updateBranchHead with _currBranch). The result
      is the parent and the new pointers. */
  function CommitOn(p: Pointers, id: CommitId): (CommitId, Pointers)
    requires p.head in p.refs
  {
    (p.refs[p.head], Pointers(p.saved, p.head, p.refs[p.saved := id]))
  }

  /** When the two records agree, a commit extends the current branch: its
      parent is that branch's head, only that branch's ref moves, and the
      records still agree. */
  lemma CommitExtendsCurrent(p: Pointers, id: CommitId)
    requires Agrees(p) && p.head in p.refs
    ensures CommitOn(p, id).0 == p.refs[p.saved]
    ensures CommitOn(p, id).1.refs == p.refs[p.saved := id]
    ensures Agrees(CommitOn(p, id).1)
  {
  }

  /** The intended fast-forward makes b current in both records, so the
      next commit extends b. */
  lemma FastForwardThenCommit(p: Pointers, b: Branch, id: CommitId)
    requires b in p.refs
    ensures Agrees(FastForward(p, b)) && FastForward(p, b).head == b
    ensures CommitOn(FastForward(p, b), id) == (p.refs[b], Pointers(b, b, p.refs[b := id]))
  {
    CommitExtendsCurrent(FastForward(p, b), id);
  }

  /** The drift as written: master at c1 fast-forwards to b at c2. The next
      commit c3 has c2 as its parent but moves master, so b stays behind at
      c2 and master's head is a commit made on top of b. */
  lemma FastForwardAsWrittenCommitsOnWrongBranch()
    ensures var p := Pointers(Master, Master, map[Master := "c1", "b" := "c2"]);
      var q := FastForwardAsWritten(p, "b");
      && !Agrees(q)
      && CommitOn(q, "c3").0 == "c2"
      && CommitOn(q, "c3").1.refs == map[Master := "c3", "b" := "c2"]
  {
    var p := Pointers(Master, Master, map[Master := "c1", "b" := "c2"]);
    var q := FastForwardAsWritten(p, "b");
    assert q.refs[Master := "c3"] == map[Master := "c3", "b" := "c2"];
  }

  // ---------------------------------------------------------------------
  // The ref written by reset

  /** Every ref holds the id of a stored commit. */
  ghost predicate RefsStored(refs: map<Branch, CommitId>, commits: Store)
  {
    forall b :: b in refs ==> refs[b] in commits
  }

  /** reset's last step as written: the ref of the target commit's own
      branch receives the argument as typed, which may be an abbreviation
      that getCommitFromSha resolved to target. */
  function ResetRefAsWritten(refs: map<Branch, CommitId>, commits: Store, sha: string, target: CommitId)
    : map<Branch, CommitId>
    requires target in commits
  {
    refs[commits[target].branch := sha]
  }

  /** The intended step: the ref receives the resolved id. */
  function ResetRef(refs: map<Branch, CommitId>, commits: Store, target: CommitId): map<Branch, CommitId>
    requires target in commits
  {
    refs[commits[target].branch := target]
  }

  /** The intended step keeps every ref a stored id and points the target's
      branch at the target. */
  lemma ResetRefKeepsRefsStored(refs: map<Branch, CommitId>, commits: Store, target: CommitId)
    requires RefsStored(refs, commits) && target in commits
    ensures RefsStored(ResetRef(refs, commits, target), commits)
    ensures ResetRef(refs, commits, target)[commits[target].branch] == target
  {
  }

  /** A full id: two given characters followed by zeros. */
  function FullId(a: char, b: char): (id: CommitId)
    ensures |id| == ShaLength && [a, b] <= id
  {
    [a, b] + seq(ShaLength - 2, i => '0')
  }

  /** The drift as written: with one stored commit, on master, whose id
      starts with "ab", `reset ab` resolves to that commit but leaves "ab"
      in master's ref, which is no stored id. */
  lemma ResetRefAsWrittenStoresAbbreviation()
    ensures var full := FullId('a', 'b');
      var commits := map[full := CommitRecord("m", WallClock, Master, None, None, EmptyProjection())];
      && "ab" <= full && "ab" != full
      && ResetRef(map[Master := full], commits, full) == map[Master := full]
      && ResetRefAsWritten(map[Master := full], commits, "ab", full) == map[Master := "ab"]
      && !RefsStored(ResetRefAsWritten(map[Master := full], commits, "ab", full), commits)
  {
    var full := FullId('a', 'b');
    var commits := map[full := CommitRecord("m", WallClock, Master, None, None, EmptyProjection())];
    assert |"ab"| != |full|;
    assert "ab" !in commits;
    var written := ResetRefAsWritten(map[Master := full], commits, "ab", full);
    assert commits[full].branch == Master;
    assert written == map[Master := "ab"];
    assert written[Master] !in commits;
  }
}
