/** Commit construction (Commit.java): a new commit copies its first parent's
    projection, applies the add-staged entries, then the remove-staged ones,
    and empties both staging areas. */
module Commits {
  import opened Objects
  import opened Records
  import opened StagingArea

  /** The name -> fingerprint map of a commit made from a parent map, the
      add-staged entries and the remove-staged names. */
  function PatchedNames(parent: map<Name, Fingerprint>, adds: map<Name, Fingerprint>, removes: set<Name>)
    : map<Name, Fingerprint>
  {
    (parent + adds) - removes
  }

  /** The projection of such a commit. */
  function Patched(parent: Projection, adds: map<Name, Fingerprint>, removes: set<Name>): Projection
  {
    Canonical(PatchedNames(parent.nameToSha, adds, removes))
  }

  /** Every add-staged name maps to its staged fingerprint, every
      remove-staged name is absent (removals are applied last), and every
      other name keeps the parent's fingerprint. */
  lemma PatchedRules(parent: Projection, adds: map<Name, Fingerprint>, removes: set<Name>, n: Name)
    ensures n in removes ==> ShaFromName(Patched(parent, adds, removes), n) == None
    ensures n !in removes && n in adds ==> ShaFromName(Patched(parent, adds, removes), n) == Some(adds[n])
    ensures n !in removes && n !in adds ==>
              ShaFromName(Patched(parent, adds, removes), n) == ShaFromName(parent, n)
  {
  }

  /** The patched projection is well formed when the parent's is and the
      staged fingerprints carry their names. */
  lemma PatchedWellFormed(parent: Projection, adds: map<Name, Fingerprint>, removes: set<Name>)
    requires WellFormed(parent) && NamesMatch(adds)
    ensures WellFormed(Patched(parent, adds, removes))
  {
    CanonicalWellFormed(PatchedNames(parent.nameToSha, adds, removes));
  }

  /** Pending entries and their blobs: one copyFile step moves an entry
      from the pending map into the commit's map and its fingerprint into
      the object store. */
  lemma CopyStep(m: map<Name, Fingerprint>, objects: set<Fingerprint>, rest: map<Name, Fingerprint>, n: Name)
    requires n in rest
    ensures m[n := rest[n]] + (rest - {n}) == m + rest
    ensures objects + {rest[n]} + (rest - {n}).Values == objects + rest.Values
  {
    var r := rest - {n};
    forall f | f in rest.Values
      ensures f in r.Values + {rest[n]}
    {
      var k :| k in rest && rest[k] == f;
      if k != n {
        assert r[k] == f;
      }
    }
  }

  /** A commit under construction. */
  class Commit {
    const message: string
    const date: Date
    const branch: Branch
    const parent1: Option<CommitId>
    const parent2: Option<CommitId>
    var nameToSha: map<Name, Fingerprint>
    var shaToName: map<Fingerprint, Name>
    var shaToFile: map<Fingerprint, Path>

    function Value(): Projection
      reads this
    {
      Projection(nameToSha, shaToName, shaToFile)
    }

    /** The record that is persisted for this commit. */
    function Snapshot(): CommitRecord
      reads this
    {
      CommitRecord(message, date, branch, parent1, parent2, Value())
    }

    /** The part of the Commit constructor that cannot fail: record the
        message, branch and parents, date a root commit at the epoch and any
        other at the current time, and start from the first parent's maps
        (an empty projection for a root commit). */
    constructor (message: string, branch: Branch, parent1: Option<CommitId>, parent2: Option<CommitId>,
                 parent: Projection)
      ensures this.message == message && this.branch == branch
      ensures this.parent1 == parent1 && this.parent2 == parent2
      ensures date == (if parent1.None? then Epoch else WallClock)
      ensures Value() == (if parent1.None? then EmptyProjection() else parent)
    {
      this.message, this.branch, this.parent1, this.parent2 := message, branch, parent1, parent2;
      if parent1.None? {
        date := Epoch;
        nameToSha, shaToName, shaToFile := map[], map[], map[];
      } else {
        date := WallClock;
        nameToSha, shaToName, shaToFile := parent.nameToSha, parent.shaToName, parent.shaToFile;
      }
    }

    /** Commit.removeFromMap. */
    method RemoveFromMap(name: Name)
      modifies this
      ensures Value() == Remove(old(Value()), name)
      ensures nameToSha == old(nameToSha) - {name}
      ensures WellFormed(old(Value())) ==> WellFormed(Value())
    {
      if WellFormed(Value()) {
        RemoveWellFormed(Value(), name);
      }
      if name in nameToSha {
        var prev := nameToSha[name];
        shaToFile := shaToFile - {prev};
        shaToName := shaToName - {prev};
      }
      nameToSha := nameToSha - {name};
    }

    /** Commit.addToMap. */
    method AddToMap(name: Name, sha: Fingerprint, path: Path)
      modifies this
      ensures Value() == Put(old(Value()), name, sha, path)
    {
      nameToSha := nameToSha[name := sha];
      shaToName := shaToName[sha := name];
      shaToFile := shaToFile[sha := path];
    }

    /** Commit.copyFile: track the staged blob sha under name and copy the
        staged file into the object directory, where it becomes blob sha. */
    method CopyFile(sha: Fingerprint, name: Name, objects: set<Fingerprint>)
      returns (objects': set<Fingerprint>)
      modifies this
      ensures Value() == Put(Remove(old(Value()), name), name, sha, BlobPath(ObjectsDir, sha))
      ensures objects' == objects + {sha}
      ensures WellFormed(old(Value())) && sha.name == name ==>
                WellFormed(Value()) && nameToSha == old(nameToSha)[name := sha]
    {
      if WellFormed(Value()) && sha.name == name {
        RemovePutWellFormed(Value(), name, sha);
      }
      RemoveFromMap(name);
      AddToMap(name, sha, BlobPath(ObjectsDir, sha));
      objects' := objects + {sha};
    }

    /** Commit.checkStaging: refuse when nothing is staged; otherwise copy
        every add-staged file in, then drop every remove-staged name, then
        clear both areas. */
    method CheckStaging(addStage: Staging, removeStage: Staging, objects: set<Fingerprint>)
      returns (err: Option<Error>, objects': set<Fingerprint>)
      requires addStage.kind == AddKind && removeStage.kind == RemoveKind && addStage != removeStage
      requires addStage.Valid() && removeStage.Valid() && WellFormed(Value())
      modifies this, addStage, removeStage
      ensures err == Some(NoChanges) || err == None
      ensures err.Some? <==> old(addStage.nameToPath) == map[] && old(removeStage.nameToPath) == map[]
      ensures err.Some? ==> && Value() == old(Value()) && objects' == objects
                            && addStage.Value() == old(addStage.Value())
                            && removeStage.Value() == old(removeStage.Value())
      ensures err.None? ==>
                && Value() == Patched(old(Value()), old(addStage.nameToSha), old(removeStage.nameToSha.Keys))
                && objects' == objects + old(addStage.nameToSha).Values
                && addStage.Value() == EmptyArea() && removeStage.Value() == EmptyArea()
      ensures WellFormed(Value()) && addStage.Valid() && removeStage.Valid()
    {
      if addStage.nameToPath == map[] && removeStage.nameToPath == map[] {
        return Some(NoChanges), objects;
      }
      ghost var p0 := Value();
      objects' := CopyStaged(addStage.nameToSha, objects);
      RemoveStaged(removeStage.nameToSha.Keys);
      WellFormedIsCanonical(Value());
      addStage.Clear();
      removeStage.Clear();
      err := None;
    }

    /** The first loop of checkStaging: copyFile for every add-staged name. */
    method CopyStaged(adds: map<Name, Fingerprint>, objects: set<Fingerprint>)
      returns (objects': set<Fingerprint>)
      requires NamesMatch(adds) && WellFormed(Value())
      modifies this
      ensures WellFormed(Value())
      ensures nameToSha == old(nameToSha) + adds
      ensures objects' == objects + adds.Values
    {
      var rest := adds;
      objects' := objects;
      while rest != map[]
        invariant NamesMatch(rest)
        invariant WellFormed(Value())
        invariant nameToSha + rest == old(nameToSha) + adds
        invariant objects' + rest.Values == objects + adds.Values
        decreases rest.Keys
      {
        var n :| n in rest;
        var sha := rest[n];
        ghost var before, objectsBefore := nameToSha, objects';
        objects' := CopyFile(sha, n, objects');
        CopyStep(before, objectsBefore, rest, n);
        rest := rest - {n};
      }
      assert nameToSha + rest == nameToSha;
    }

    /** The second loop of checkStaging: removeFromMap for every
        remove-staged name. */
    method RemoveStaged(removes: set<Name>)
      requires WellFormed(Value())
      modifies this
      ensures WellFormed(Value())
      ensures nameToSha == old(nameToSha) - removes
    {
      var pending := removes;
      while pending != {}
        invariant WellFormed(Value())
        invariant nameToSha - pending == old(nameToSha) - removes
        decreases pending
      {
        var n :| n in pending;
        RemoveFromMap(n);
        pending := pending - {n};
      }
      assert nameToSha - pending == nameToSha;
    }
  }

  /** The Commit constructor with its two user errors: an empty message is
      refused before anything else, and a non-root commit with nothing
      staged is refused by checkStaging. A root commit skips the staging
      areas altogether. */
  method NewCommit(message: string, branch: Branch, parent1: Option<CommitId>, parent2: Option<CommitId>,
                   parent: Projection, addStage: Staging, removeStage: Staging,
                   objects: set<Fingerprint>)
    returns (r: Result<CommitRecord>, objects': set<Fingerprint>)
    requires addStage.kind == AddKind && removeStage.kind == RemoveKind && addStage != removeStage
    requires addStage.Valid() && removeStage.Valid() && WellFormed(parent)
    modifies addStage, removeStage
    ensures r.Err? ==> objects' == objects && addStage.Value() == old(addStage.Value())
                       && removeStage.Value() == old(removeStage.Value())
    ensures r.Err? ==> r.error == EmptyMessage || r.error == NoChanges
    ensures r == Err(EmptyMessage) <==> message == ""
    ensures r == Err(NoChanges) <==>
              message != "" && parent1.Some? && old(addStage.nameToPath) == map[] && old(removeStage.nameToPath) == map[]
    ensures r.Ok? ==> && r.value.message == message && r.value.branch == branch
                      && r.value.parent1 == parent1 && r.value.parent2 == parent2
                      && r.value.date == (if parent1.None? then Epoch else WallClock)
                      && WellFormed(r.value.projection)
    ensures r.Ok? && parent1.None? ==>
              r.value.projection == EmptyProjection() && objects' == objects
              && addStage.Value() == old(addStage.Value()) && removeStage.Value() == old(removeStage.Value())
    ensures r.Ok? && parent1.Some? ==>
              && r.value.projection == Patched(parent, old(addStage.nameToSha), old(removeStage.nameToSha.Keys))
              && objects' == objects + old(addStage.nameToSha).Values
              && addStage.Value() == EmptyArea() && removeStage.Value() == EmptyArea()
    ensures addStage.Valid() && removeStage.Valid()
  {
    if message == "" {
      return Err(EmptyMessage), objects;
    }
    var c := new Commit(message, branch, parent1, parent2, parent);
    objects' := objects;
    if parent1.Some? {
      var err;
      err, objects' := c.CheckStaging(addStage, removeStage, objects);
      if err.Some? {
        return Err(err.value), objects;
      }
    }
    r := Ok(c.Snapshot());
  }
}
