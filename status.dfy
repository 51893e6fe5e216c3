/** The per-file classification behind Repository.status and
    Repository.getUntrackedFiles, over the working tree, the two staging
    areas and the HEAD commit's projection. */
module Status {
  import opened Objects
  import opened Records
  import opened StagingArea
  import opened Commits

  /** getUntrackedFiles' test for a working file: neither add-staged nor
      tracked by HEAD, or remove-staged although HEAD tracks it. With
      disjoint areas, that is exactly a file a commit made now would not
      track. */
  function IsUntracked(n: Name, add: Area, rem: Area, head: Projection): (r: bool)
    ensures add.nameToSha.Keys !! rem.nameToSha.Keys ==>
              (r <==> n !in PatchedNames(head.nameToSha, add.nameToSha, rem.nameToSha.Keys))
  {
    (n !in add.nameToSha && n !in head.nameToSha) || (n in rem.nameToSha && n in head.nameToSha)
  }

  /** status' "(modified)" test for a working file with content w: HEAD
      tracks it, it is staged nowhere and HEAD's version differs, or it is
      add-staged with a version that differs. With disjoint areas, that is
      exactly a file that a commit made now would track at a version other
      than the working one. */
  function IsModified(n: Name, w: Content, add: Area, rem: Area, head: Projection): (r: bool)
    ensures add.nameToSha.Keys !! rem.nameToSha.Keys ==>
              (r <==> n in PatchedNames(head.nameToSha, add.nameToSha, rem.nameToSha.Keys)
                      && PatchedNames(head.nameToSha, add.nameToSha, rem.nameToSha.Keys)[n] != Fp(w, n))
  {
    || (n in head.nameToSha && n !in add.nameToSha && n !in rem.nameToSha && head.nameToSha[n] != Fp(w, n))
    || (n in add.nameToSha && add.nameToSha[n] != Fp(w, n))
  }

  /** The "(deleted)" entries: the add-staged names missing from the tree,
      then the HEAD names that are not remove-staged and missing from the
      tree. The two loops do not check each other, so a name can be listed
      twice. */
  function DeletedEntries(work: map<Name, Content>, add: Area, rem: Area, head: Projection): multiset<Name>
  {
    multiset(set n | n in add.nameToSha && n !in work)
    + multiset(set n | n in head.nameToSha && n !in rem.nameToSha && n !in work)
  }

  /** The status report without its layout: staged, removed, modified,
      deleted and untracked files. */
  datatype Report = Report(
    staged: set<Name>,
    removed: set<Name>,
    modified: set<Name>,
    deleted: multiset<Name>,
    untracked: set<Name>)

  function StatusOf(work: map<Name, Content>, add: Area, rem: Area, head: Projection): (r: Report)
    ensures forall n :: n in r.modified <==> n in work && IsModified(n, work[n], add, rem, head)
    ensures forall n :: n in r.untracked <==> n in work && IsUntracked(n, add, rem, head)
    ensures r.staged == add.nameToSha.Keys && r.removed == rem.nameToSha.Keys
  {
    Report(add.nameToSha.Keys, rem.nameToSha.Keys,
           (set n | n in work && IsModified(n, work[n], add, rem, head)),
           DeletedEntries(work, add, rem, head),
           (set n | n in work && IsUntracked(n, add, rem, head)))
  }

  /** status' "(modified)" loop over the working files. */
  method ModifiedFiles(work: map<Name, Content>, add: Area, rem: Area, head: Projection)
    returns (modified: set<Name>)
    ensures modified == StatusOf(work, add, rem, head).modified
  {
    modified := {};
    var pending := work.Keys;
    while pending != {}
      invariant pending <= work.Keys
      invariant forall n :: n in modified <==> n in work && n !in pending && IsModified(n, work[n], add, rem, head)
      decreases pending
    {
      var n :| n in pending;
      var sha := Fp(work[n], n);
      if || (n in head.nameToSha && n !in add.nameToSha && n !in rem.nameToSha && head.nameToSha[n] != sha)
         || (n in add.nameToSha && add.nameToSha[n] != sha)
      {
        modified := modified + {n};
      }
      pending := pending - {n};
    }
  }

  /** status' two "(deleted)" loops: the add-staged names, then HEAD's
      names, each time listing those that are not in the tree. */
  method DeletedFiles(work: map<Name, Content>, add: Area, rem: Area, head: Projection)
    returns (deleted: multiset<Name>)
    ensures deleted == DeletedEntries(work, add, rem, head)
  {
    deleted := multiset{};
    var pending := add.nameToSha.Keys;
    while pending != {}
      invariant pending <= add.nameToSha.Keys
      invariant forall n :: deleted[n] == if n in add.nameToSha && n !in pending && n !in work then 1 else 0
      decreases pending
    {
      var n :| n in pending;
      if n !in work {
        deleted := deleted + multiset{n};
      }
      pending := pending - {n};
    }
    pending := head.nameToSha.Keys;
    while pending != {}
      invariant pending <= head.nameToSha.Keys
      invariant forall n :: deleted[n] ==
                  (if n in add.nameToSha && n !in work then 1 else 0)
                  + (if n in head.nameToSha && n !in pending && n !in rem.nameToSha && n !in work then 1 else 0)
      decreases pending
    {
      var n :| n in pending;
      if n !in rem.nameToSha && n !in work {
        deleted := deleted + multiset{n};
      }
      pending := pending - {n};
    }
    forall n
      ensures deleted[n] == DeletedEntries(work, add, rem, head)[n]
    {
      DeletedMultiplicity(work, add, rem, head, n);
    }
  }

  /** A name is listed as deleted once for each group it falls in: at most
      twice, and twice exactly when it is add-staged, tracked by HEAD, not
      remove-staged and missing from the tree. Only missing files are
      listed. */
  lemma DeletedMultiplicity(work: map<Name, Content>, add: Area, rem: Area, head: Projection, n: Name)
    ensures DeletedEntries(work, add, rem, head)[n] ==
            (if n in add.nameToSha && n !in work then 1 else 0)
            + (if n in head.nameToSha && n !in rem.nameToSha && n !in work then 1 else 0)
    ensures DeletedEntries(work, add, rem, head)[n] <= 2
    ensures DeletedEntries(work, add, rem, head)[n] == 2 <==>
              n in add.nameToSha && n in head.nameToSha && n !in rem.nameToSha && n !in work
    ensures n in DeletedEntries(work, add, rem, head) ==> n !in work
  {
    var a := set m | m in add.nameToSha && m !in work;
    var h := set m | m in head.nameToSha && m !in rem.nameToSha && m !in work;
    assert multiset(a)[n] == (if n in a then 1 else 0);
    assert multiset(h)[n] == (if n in h then 1 else 0);
  }

  /** With disjoint staging areas no working file is both modified and
      untracked. */
  lemma ModifiedNotUntracked(n: Name, w: Content, add: Area, rem: Area, head: Projection)
    requires add.nameToSha.Keys !! rem.nameToSha.Keys
    ensures !(IsModified(n, w, add, rem, head) && IsUntracked(n, add, rem, head))
  {
    if n in add.nameToSha {
      assert n !in rem.nameToSha;
    }
  }

  /** Once `add` has accepted a file, status lists it neither as modified
      nor as untracked. */
  lemma AddSettlesFile(add: Area, rem: Area, name: Name, head: Projection, work: map<Name, Content>)
    requires AreaValid(AddKind, add) && AreaValid(RemoveKind, rem) && WellFormed(head)
    requires StageOf(AddKind, add, rem, name, head, work).err.None?
    ensures var r := StageOf(AddKind, add, rem, name, head, work);
      && name in r.work
      && !IsModified(name, r.work[name], r.self, r.other, head)
      && !IsUntracked(name, r.self, r.other, head)
  {
    StageAddOutcome(add, rem, name, head, work);
  }

  /** Once `rm` has accepted a file HEAD tracks, the file is gone from the
      tree and status lists it nowhere but under removed files. */
  lemma RemoveSettlesFile(rem: Area, add: Area, name: Name, head: Projection, work: map<Name, Content>)
    requires AreaValid(RemoveKind, rem) && AreaValid(AddKind, add) && WellFormed(head)
    requires StageOf(RemoveKind, rem, add, name, head, work).err.None? && name in head.nameToSha
    ensures var r := StageOf(RemoveKind, rem, add, name, head, work);
      && name !in r.work
      && name in StatusOf(r.work, r.other, r.self, head).removed
      && name !in StatusOf(r.work, r.other, r.self, head).deleted
      && name !in StatusOf(r.work, r.other, r.self, head).staged
  {
    var r := StageOf(RemoveKind, rem, add, name, head, work);
    StageRemoveOutcome(rem, add, name, head, work);
    DeletedMultiplicity(r.work, r.other, r.self, head, name);
  }
}
