/** The two coupled staging areas (Staging.java). Each area keeps four maps
    (name -> fingerprint, name -> staged file, fingerprint -> name,
    fingerprint -> staged file) and the blob files written into its own
    directory. */
module StagingArea {
  import opened Objects
  import opened Records

  datatype Kind = AddKind | RemoveKind

  function AreaDir(k: Kind): Dir
  {
    if k == AddKind then AddDir else RemoveDir
  }

  function Opposite(k: Kind): Kind
  {
    if k == AddKind then RemoveKind else AddKind
  }

  /** The abstract value of one staging area. */
  datatype Area = Area(
    nameToSha: map<Name, Fingerprint>,
    nameToPath: map<Name, Path>,
    shaToName: map<Fingerprint, Name>,
    shaToFile: map<Fingerprint, Path>,
    store: map<Fingerprint, Content>)

  function EmptyArea(): Area
  {
    Area(map[], map[], map[], map[], map[])
  }

  /** The invariant of an area of kind k. The name maps have the same key
      set and every staged fingerprint carries its name and is filed back
      under it. The reverse direction is weaker than for a commit: staging a
      removal records a name without first dropping its previous fingerprint,
      so stale fingerprint -> name entries may remain; each still names the
      fingerprint's own file. Blob files hold the content their fingerprint
      was computed from, and every add-staged fingerprint has its file. */
  ghost predicate AreaValid(k: Kind, a: Area)
  {
    && a.nameToSha.Keys == a.nameToPath.Keys
    && (forall n :: n in a.nameToSha ==>
          a.nameToSha[n].name == n && a.nameToPath[n] == BlobPath(AreaDir(k), a.nameToSha[n]))
    && (forall n :: n in a.nameToSha ==>
          a.nameToSha[n] in a.shaToName && a.shaToName[a.nameToSha[n]] == n)
    && (forall f {:trigger f in a.shaToName} :: f in a.shaToName ==> a.shaToName[f] == f.name)
    && a.shaToFile.Keys == a.shaToName.Keys
    && (forall f {:trigger f in a.shaToFile} :: f in a.shaToFile ==> a.shaToFile[f] == BlobPath(AreaDir(k), f))
    && (forall f {:trigger f in a.store} :: f in a.store ==> a.store[f] == f.content)
    && (k == AddKind ==> forall n :: n in a.nameToSha ==> a.nameToSha[n] in a.store)
  }

  /** Staging.removeFromMap: forget the name and its old fingerprint. */
  function AreaRemove(a: Area, name: Name): Area
  {
    Area(a.nameToSha - {name}, a.nameToPath - {name},
         if name in a.nameToSha then a.shaToName - {a.nameToSha[name]} else a.shaToName,
         if name in a.nameToSha then a.shaToFile - {a.nameToSha[name]} else a.shaToFile,
         a.store)
  }

  /** Staging.addToMap: insert into all four maps. */
  function AreaAdd(a: Area, name: Name, sha: Fingerprint, path: Path): Area
  {
    Area(a.nameToSha[name := sha], a.nameToPath[name := path],
         a.shaToName[sha := name], a.shaToFile[sha := path], a.store)
  }

  /** Staging.unstage: forget the name and delete the blob file named by sha. */
  function AreaUnstage(a: Area, name: Name, sha: Fingerprint): Area
  {
    var b := AreaRemove(a, name);
    b.(store := b.store - {sha})
  }

  /** Staging.copyFile: replace the name's entry by sha and write the working
      file's content into the area's blob file for sha. */
  function AreaCopy(k: Kind, a: Area, sha: Fingerprint, content: Content, name: Name): Area
  {
    var b := AreaRemove(a, name);
    AreaAdd(b.(store := b.store[sha := content]), name, sha, BlobPath(AreaDir(k), sha))
  }

  lemma UnstageValid(k: Kind, a: Area, name: Name, sha: Fingerprint)
    requires AreaValid(k, a) && sha.name == name
    ensures AreaValid(k, AreaUnstage(a, name, sha))
    ensures AreaUnstage(a, name, sha).nameToSha == a.nameToSha - {name}
    ensures AreaUnstage(a, name, sha).nameToPath == a.nameToPath - {name}
  {
    var b := AreaUnstage(a, name, sha);
    forall n | n in b.nameToSha
      ensures b.nameToSha[n] in b.shaToName && b.shaToName[b.nameToSha[n]] == n
    {
      assert a.nameToSha[n].name == n;
    }
  }

  lemma RemoveValid(k: Kind, a: Area, name: Name)
    requires AreaValid(k, a)
    ensures AreaValid(k, AreaRemove(a, name))
    ensures AreaRemove(a, name).nameToSha == a.nameToSha - {name}
  {
    var b := AreaRemove(a, name);
    forall n | n in b.nameToSha
      ensures b.nameToSha[n] in b.shaToName && b.shaToName[b.nameToSha[n]] == n
    {
      assert a.nameToSha[n].name == n;
    }
  }

  lemma CopyFileValid(k: Kind, a: Area, sha: Fingerprint, content: Content, name: Name)
    requires AreaValid(k, a) && sha.name == name && content == sha.content
    ensures AreaValid(k, AreaCopy(k, a, sha, content, name))
    ensures AreaCopy(k, a, sha, content, name).nameToSha == a.nameToSha[name := sha]
  {
    assert AreaCopy(k, a, sha, content, name).nameToSha == a.nameToSha[name := sha];
    RemoveValid(k, a, name);
    var b := AreaRemove(a, name);
    var b' := b.(store := b.store[sha := content]);
    StoreWriteValid(k, b, sha, content);
    AddToMapValid(k, b', sha, name);
  }

  /** Writing a blob file under its own fingerprint keeps an area valid. */
  lemma StoreWriteValid(k: Kind, a: Area, sha: Fingerprint, content: Content)
    requires AreaValid(k, a) && content == sha.content
    ensures AreaValid(k, a.(store := a.store[sha := content]))
  {
  }

  lemma AddToMapValid(k: Kind, a: Area, sha: Fingerprint, name: Name)
    requires AreaValid(k, a) && sha.name == name
    requires k == AddKind ==> sha in a.store
    ensures AreaValid(k, AreaAdd(a, name, sha, BlobPath(AreaDir(k), sha)))
  {
    var c := AreaAdd(a, name, sha, BlobPath(AreaDir(k), sha));
    forall n | n in c.nameToSha
      ensures c.nameToSha[n] in c.shaToName && c.shaToName[c.nameToSha[n]] == n
    {
      if n != name {
        assert a.nameToSha[n].name == n;
      }
    }
  }

  /** What one stage call returns and leaves behind: the error it reports,
      this area, the opposite area, and the working tree. */
  datatype Staged = Staged(err: Option<Error>, self: Area, other: Area, work: map<Name, Content>)

  /** Staging.stage, for an area of kind k coupled with the opposite area. */
  function StageOf(k: Kind, self: Area, other: Area, name: Name, head: Projection,
                   work: map<Name, Content>): Staged
    requires AreaValid(Opposite(k), other) && WellFormed(head)
  {
    if k == AddKind then StageAdd(self, other, name, head, work) else StageRemove(self, other, name, head, work)
  }

  /** Staging.stage in the add area. */
  function StageAdd(self: Area, other: Area, name: Name, head: Projection, work: map<Name, Content>): Staged
    requires WellFormed(head)
  {
    if name !in work then Staged(Some(FileDoesNotExist), self, other, work)
    else
      var sha := Fp(work[name], name);
      var other' := AreaUnstage(other, name, sha);
      if Contains(head, ShaKey(sha)) then Staged(None, AreaUnstage(self, name, sha), other', work)
      else Staged(None, AreaCopy(AddKind, self, sha, work[name], name), other', work)
  }

  /** Staging.stage in the remove area. */
  function StageRemove(self: Area, other: Area, name: Name, head: Projection, work: map<Name, Content>): Staged
    requires AreaValid(AddKind, other) && WellFormed(head)
  {
    if !Contains(head, NameKey(name)) && name !in other.nameToPath then
      Staged(Some(NoReasonToRemove), self, other, work)
    else
      var sha := if name in other.nameToSha then other.nameToSha[name] else head.nameToSha[name];
      if Contains(head, NameKey(name)) then
        Staged(None, AreaAdd(self, name, sha, BlobPath(RemoveDir, sha)), AreaUnstage(other, name, sha), work - {name})
      else
        Staged(None, self, AreaUnstage(other, name, sha), work)
  }

  /** Both areas stay valid after any stage call. */
  lemma StagePreservesValid(k: Kind, self: Area, other: Area, name: Name, head: Projection,
                            work: map<Name, Content>)
    requires AreaValid(k, self) && AreaValid(Opposite(k), other) && WellFormed(head)
    ensures AreaValid(k, StageOf(k, self, other, name, head, work).self)
    ensures AreaValid(Opposite(k), StageOf(k, self, other, name, head, work).other)
  {
    if k == AddKind {
      StageAddValid(self, other, name, head, work);
    } else {
      StageRemoveValid(self, other, name, head, work);
    }
  }

  lemma StageAddValid(self: Area, other: Area, name: Name, head: Projection, work: map<Name, Content>)
    requires AreaValid(AddKind, self) && AreaValid(RemoveKind, other) && WellFormed(head)
    ensures AreaValid(AddKind, StageAdd(self, other, name, head, work).self)
    ensures AreaValid(RemoveKind, StageAdd(self, other, name, head, work).other)
  {
    if name in work {
      var sha := Fp(work[name], name);
      UnstageValid(RemoveKind, other, name, sha);
      if Contains(head, ShaKey(sha)) {
        UnstageValid(AddKind, self, name, sha);
      } else {
        CopyFileValid(AddKind, self, sha, work[name], name);
      }
    }
  }

  lemma StageRemoveValid(self: Area, other: Area, name: Name, head: Projection, work: map<Name, Content>)
    requires AreaValid(RemoveKind, self) && AreaValid(AddKind, other) && WellFormed(head)
    ensures AreaValid(RemoveKind, StageRemove(self, other, name, head, work).self)
    ensures AreaValid(AddKind, StageRemove(self, other, name, head, work).other)
  {
    if Contains(head, NameKey(name)) || name in other.nameToPath {
      var sha := if name in other.nameToSha then other.nameToSha[name] else head.nameToSha[name];
      assert sha.name == name;
      UnstageValid(AddKind, other, name, sha);
      if Contains(head, NameKey(name)) {
        AddToMapValid(RemoveKind, self, sha, name);
      }
    }
  }

  /** Add-staging: a missing working file is refused with no change;
      otherwise the name leaves the remove area, and it is add-staged with
      the fingerprint of its contents unless HEAD already tracks exactly that
      version, in which case it ends up not add-staged. */
  lemma StageAddOutcome(self: Area, other: Area, name: Name, head: Projection, work: map<Name, Content>)
    requires AreaValid(AddKind, self) && AreaValid(RemoveKind, other) && WellFormed(head)
    ensures var r := StageAdd(self, other, name, head, work);
      && (r.err == Some(FileDoesNotExist) <==> name !in work)
      && (r.err.Some? ==> r == Staged(r.err, self, other, work))
      && (r.err.None? ==>
            && r.work == work
            && r.other.nameToSha == other.nameToSha - {name}
            && (ShaFromName(head, name) == Some(Fp(work[name], name)) ==>
                  r.self.nameToSha == self.nameToSha - {name})
            && (ShaFromName(head, name) != Some(Fp(work[name], name)) ==>
                  r.self.nameToSha == self.nameToSha[name := Fp(work[name], name)]))
  {
    if name in work {
      var sha := Fp(work[name], name);
      UnstageValid(RemoveKind, other, name, sha);
      if Contains(head, ShaKey(sha)) {
        UnstageValid(AddKind, self, name, sha);
      } else {
        CopyFileValid(AddKind, self, sha, work[name], name);
      }
    }
  }

  /** Remove-staging: a name neither tracked by HEAD nor add-staged is
      refused with no change. A HEAD-tracked name is recorded in the remove
      area with its add-staged fingerprint if it has one and HEAD's
      otherwise, and its working copy is deleted. In every accepted case the
      name leaves the add area. */
  lemma StageRemoveOutcome(self: Area, other: Area, name: Name, head: Projection, work: map<Name, Content>)
    requires AreaValid(RemoveKind, self) && AreaValid(AddKind, other) && WellFormed(head)
    ensures var r := StageRemove(self, other, name, head, work);
      && (r.err == Some(NoReasonToRemove) <==> name !in head.nameToSha && name !in other.nameToSha)
      && (r.err.Some? ==> r == Staged(r.err, self, other, work))
      && (r.err.None? ==> r.other.nameToSha == other.nameToSha - {name})
      && (r.err.None? && name in head.nameToSha ==>
            && r.self.nameToSha == self.nameToSha[name := if name in other.nameToSha then other.nameToSha[name]
                                                             else head.nameToSha[name]]
            && r.work == work - {name})
      && (r.err.None? && name !in head.nameToSha ==> r.self == self && r.work == work)
  {
    if name in head.nameToSha || name in other.nameToSha {
      var sha := if name in other.nameToSha then other.nameToSha[name] else head.nameToSha[name];
      UnstageValid(AddKind, other, name, sha);
    }
  }

  /** Two areas agree on the entries of file name m. */
  ghost predicate SameAt(a: Area, b: Area, m: Name)
  {
    && (m in a.nameToSha <==> m in b.nameToSha)
    && (m in a.nameToSha ==> a.nameToSha[m] == b.nameToSha[m])
    && (m in a.nameToPath <==> m in b.nameToPath)
    && (m in a.nameToPath ==> a.nameToPath[m] == b.nameToPath[m])
  }

  lemma UnstageSameAt(a: Area, name: Name, sha: Fingerprint, m: Name)
    requires m != name
    ensures SameAt(a, AreaUnstage(a, name, sha), m)
  {
  }

  lemma CopySameAt(k: Kind, a: Area, sha: Fingerprint, content: Content, name: Name, m: Name)
    requires m != name
    ensures SameAt(a, AreaCopy(k, a, sha, content, name), m)
  {
  }

  lemma AddSameAt(a: Area, name: Name, sha: Fingerprint, path: Path, m: Name)
    requires m != name
    ensures SameAt(a, AreaAdd(a, name, sha, path), m)
  {
  }

  /** A stage call touches only the entries of its own file name, in both
      areas and in the working tree. */
  lemma StageFrame(k: Kind, self: Area, other: Area, name: Name, head: Projection,
                   work: map<Name, Content>, m: Name)
    requires AreaValid(Opposite(k), other) && WellFormed(head)
    requires m != name
    ensures var r := StageOf(k, self, other, name, head, work);
      && SameAt(self, r.self, m) && SameAt(other, r.other, m)
      && (m in r.work <==> m in work)
      && (m in work ==> r.work[m] == work[m])
  {
    if k == AddKind {
      StageAddFrame(self, other, name, head, work, m);
    } else {
      StageRemoveFrame(self, other, name, head, work, m);
    }
  }

  lemma StageAddFrame(self: Area, other: Area, name: Name, head: Projection, work: map<Name, Content>, m: Name)
    requires WellFormed(head) && m != name
    ensures var r := StageAdd(self, other, name, head, work);
      && SameAt(self, r.self, m) && SameAt(other, r.other, m) && r.work == work
  {
    if name in work {
      var sha := Fp(work[name], name);
      UnstageSameAt(other, name, sha, m);
      if Contains(head, ShaKey(sha)) {
        UnstageSameAt(self, name, sha, m);
      } else {
        CopySameAt(AddKind, self, sha, work[name], name, m);
      }
    }
  }

  lemma StageRemoveFrame(self: Area, other: Area, name: Name, head: Projection, work: map<Name, Content>,
                         m: Name)
    requires AreaValid(AddKind, other) && WellFormed(head)
    requires m != name
    ensures var r := StageRemove(self, other, name, head, work);
      && SameAt(self, r.self, m) && SameAt(other, r.other, m)
      && (m in r.work <==> m in work)
      && (m in work ==> r.work[m] == work[m])
  {
    if Contains(head, NameKey(name)) || name in other.nameToPath {
      var sha := if name in other.nameToSha then other.nameToSha[name] else head.nameToSha[name];
      UnstageSameAt(other, name, sha, m);
      if Contains(head, NameKey(name)) {
        AddSameAt(self, name, sha, BlobPath(RemoveDir, sha), m);
      }
    }
  }

  /** After any stage call the name is staged in at most one area, and the
      two areas stay disjoint when they were. */
  lemma StageKeepsDisjoint(k: Kind, self: Area, other: Area, name: Name, head: Projection,
                           work: map<Name, Content>)
    requires AreaValid(k, self) && AreaValid(Opposite(k), other) && WellFormed(head)
    ensures var r := StageOf(k, self, other, name, head, work);
      r.err.None? ==> !(name in r.self.nameToSha && name in r.other.nameToSha)
    ensures var r := StageOf(k, self, other, name, head, work);
      self.nameToSha.Keys !! other.nameToSha.Keys ==> r.self.nameToSha.Keys !! r.other.nameToSha.Keys
  {
    if k == AddKind {
      StageAddOutcome(self, other, name, head, work);
    } else {
      StageRemoveOutcome(self, other, name, head, work);
    }
  }

  /** One staging area (Staging.java). */
  class Staging {
    const kind: Kind
    var nameToSha: map<Name, Fingerprint>
    var nameToPath: map<Name, Path>
    var shaToName: map<Fingerprint, Name>
    var shaToFile: map<Fingerprint, Path>
    var store: map<Fingerprint, Content>

    function Value(): Area
      reads this
    {
      Area(nameToSha, nameToPath, shaToName, shaToFile, store)
    }

    ghost predicate Valid()
      reads this
    {
      AreaValid(kind, Value())
    }

    constructor (kind: Kind)
      ensures this.kind == kind && Value() == EmptyArea() && Valid()
    {
      this.kind := kind;
      nameToSha, nameToPath, shaToName, shaToFile, store := map[], map[], map[], map[], map[];
    }

    /** Staging.stage: stage fileName in this area, given the HEAD commit's
        projection and the opposite area; the result is the error reported,
        if any, and the working tree afterwards. */
    method Stage(name: Name, head: Projection, other: Staging, work: map<Name, Content>)
      returns (err: Option<Error>, work': map<Name, Content>)
      requires Valid() && other.Valid() && other != this && other.kind == Opposite(kind)
      requires WellFormed(head)
      modifies this, other
      ensures Staged(err, Value(), other.Value(), work') ==
              StageOf(kind, old(Value()), old(other.Value()), name, head, work)
      ensures Valid() && other.Valid()
    {
      ghost var self0, other0 := Value(), other.Value();
      StagePreservesValid(kind, self0, other0, name, head, work);
      if kind == AddKind {
        if name !in work {
          err, work' := Some(FileDoesNotExist), work;
          return;
        }
        var sha := Fp(work[name], name);
        other.Unstage(name, sha);
        if Contains(head, ShaKey(sha)) {
          Unstage(name, sha);
        } else {
          CopyFile(sha, work[name], name);
        }
        err, work' := None, work;
      } else {
        if !Contains(head, NameKey(name)) && name !in other.nameToPath {
          err, work' := Some(NoReasonToRemove), work;
          return;
        }
        var staged := other.GetShaFromName(name);
        var sha := if staged.Some? then staged.value else head.nameToSha[name];
        if Contains(head, NameKey(name)) {
          AddToMap(name, sha, BlobPath(AreaDir(kind), sha));
          work' := work - {name};
        } else {
          work' := work;
        }
        other.Unstage(name, sha);
        err := None;
      }
    }

    /** Staging.clear: delete every staged blob and empty the four maps. */
    method Clear()
      modifies this
      ensures Value() == EmptyArea() && Valid()
    {
      nameToSha, nameToPath, shaToName, shaToFile, store := map[], map[], map[], map[], map[];
    }

    method Unstage(name: Name, sha: Fingerprint)
      modifies this
      ensures Value() == AreaUnstage(old(Value()), name, sha)
    {
      RemoveFromMap(name);
      store := store - {sha};
    }

    method CopyFile(sha: Fingerprint, content: Content, name: Name)
      modifies this
      ensures Value() == AreaCopy(kind, old(Value()), sha, content, name)
    {
      RemoveFromMap(name);
      store := store[sha := content];
      AddToMap(name, sha, BlobPath(AreaDir(kind), sha));
    }

    method RemoveFromMap(name: Name)
      modifies this
      ensures Value() == AreaRemove(old(Value()), name)
    {
      if name in nameToSha {
        var prev := nameToSha[name];
        shaToFile := shaToFile - {prev};
        shaToName := shaToName - {prev};
      }
      nameToSha := nameToSha - {name};
      nameToPath := nameToPath - {name};
    }

    method AddToMap(name: Name, sha: Fingerprint, path: Path)
      modifies this
      ensures Value() == AreaAdd(old(Value()), name, sha, path)
    {
      nameToSha := nameToSha[name := sha];
      shaToFile := shaToFile[sha := path];
      shaToName := shaToName[sha := name];
      nameToPath := nameToPath[name := path];
    }

    /** Staging.getShafromName: the staged fingerprint of the name, if any. */
    function GetShaFromName(name: Name): (r: Option<Fingerprint>)
      reads this
      ensures r.Some? <==> name in nameToSha
      ensures r.Some? ==> r.value == nameToSha[name]
    {
      if name in nameToSha then Some(nameToSha[name]) else None
    }

    /** Staging.isStaged: the name has a fingerprint here, which in a valid
        area is the same as having a staged file path. */
    function IsStaged(name: Name): (r: bool)
      reads this
      requires Valid()
      ensures r <==> name in nameToPath
    {
      GetShaFromName(name).Some?
    }
  }
}
