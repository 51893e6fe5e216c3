/** A commit's projection (its three maps name -> fingerprint,
    fingerprint -> name, fingerprint -> blob file) and the record of a
    persisted commit. */
module Records {
  import opened Objects

  datatype Projection = Projection(
    nameToSha: map<Name, Fingerprint>,
    shaToName: map<Fingerprint, Name>,
    shaToFile: map<Fingerprint, Path>)

  /** A timestamp is either the epoch-zero literal of the root commit or the
      wall-clock time of construction; the clock itself is not modelled. */
  datatype Date = Epoch | WallClock

  datatype CommitRecord = CommitRecord(
    message: string,
    date: Date,
    branch: Branch,
    parent1: Option<CommitId>,
    parent2: Option<CommitId>,
    projection: Projection)

  /** A query of Commit.contains: a string that the source may use either as
      a file name or as a fingerprint. */
  datatype Key = NameKey(name: Name) | ShaKey(sha: Fingerprint)

  function EmptyProjection(): Projection
  {
    Projection(map[], map[], map[])
  }

  /** The name <-> fingerprint maps are mutually inverse, every fingerprint
      is filed under its own name, and every blob lives in the object
      directory under its fingerprint. */
  ghost predicate WellFormed(p: Projection)
  {
    && (forall n :: n in p.nameToSha ==> p.nameToSha[n].name == n)
    && (forall f {:trigger f in p.shaToName} {:trigger p.nameToSha[f.name]} ::
          f in p.shaToName <==> f.name in p.nameToSha && p.nameToSha[f.name] == f)
    && (forall f {:trigger f in p.shaToName} :: f in p.shaToName ==> p.shaToName[f] == f.name)
    && p.shaToFile.Keys == p.shaToName.Keys
    && (forall f {:trigger f in p.shaToFile} :: f in p.shaToFile ==> p.shaToFile[f] == BlobPath(ObjectsDir, f))
  }

  /** The fingerprint a commit records for a name (Commit.getShafromName);
      in a consistent projection it is a fingerprint of that very file, filed
      back under the name. */
  function ShaFromName(p: Projection, n: Name): (r: Option<Fingerprint>)
    ensures r.Some? <==> n in p.nameToSha
    ensures r.Some? ==> r.value == p.nameToSha[n]
    ensures WellFormed(p) && r.Some? ==> r.value.name == n && r.value in p.shaToName && p.shaToName[r.value] == n
  {
    if n in p.nameToSha then Some(p.nameToSha[n]) else None
  }

  /** Commit.contains: the key is a tracked name or a tracked fingerprint.
      For a fingerprint that means the commit tracks exactly that version of
      that file. */
  function Contains(p: Projection, k: Key): (r: bool)
    requires WellFormed(p)
    ensures k.NameKey? ==> (r <==> ShaFromName(p, k.name).Some?)
    ensures k.ShaKey? ==> (r <==> ShaFromName(p, k.sha.name) == Some(k.sha))
  {
    match k
    case NameKey(n) => n in p.nameToSha
    case ShaKey(f) => f in p.shaToName
  }

  /** Commit.removeFromMap: drop the name and its old fingerprint. */
  function Remove(p: Projection, name: Name): Projection
  {
    if name in p.nameToSha then
      var prev := p.nameToSha[name];
      Projection(p.nameToSha - {name}, p.shaToName - {prev}, p.shaToFile - {prev})
    else p
  }

  /** Commit.addToMap: insert into all three maps. */
  function Put(p: Projection, name: Name, sha: Fingerprint, path: Path): Projection
  {
    Projection(p.nameToSha[name := sha], p.shaToName[sha := name], p.shaToFile[sha := path])
  }

  /** The only well-formed projection with a given name -> fingerprint map. */
  function Canonical(ns: map<Name, Fingerprint>): Projection
  {
    Projection(ns, map f | f in ns.Values :: f.name, map f | f in ns.Values :: BlobPath(ObjectsDir, f))
  }

  ghost predicate NamesMatch(ns: map<Name, Fingerprint>)
  {
    forall n :: n in ns ==> ns[n].name == n
  }

  /** Removing a name keeps the maps inverse and forgets exactly that name. */
  lemma RemoveWellFormed(p: Projection, name: Name)
    requires WellFormed(p)
    ensures WellFormed(Remove(p, name))
    ensures Remove(p, name).nameToSha == p.nameToSha - {name}
  {
  }

  /** Commit.copyFile's map part, removeFromMap then addToMap, keeps the maps
      mutually inverse because the new fingerprint carries the file's name. */
  lemma RemovePutWellFormed(p: Projection, name: Name, sha: Fingerprint)
    requires WellFormed(p) && sha.name == name
    ensures WellFormed(Put(Remove(p, name), name, sha, BlobPath(ObjectsDir, sha)))
    ensures Put(Remove(p, name), name, sha, BlobPath(ObjectsDir, sha)).nameToSha == p.nameToSha[name := sha]
  {
    RemoveWellFormed(p, name);
    var r := Remove(p, name);
    assert name !in r.nameToSha;
    assert sha !in r.shaToName;
    var q := Put(r, name, sha, BlobPath(ObjectsDir, sha));
    assert q.nameToSha == p.nameToSha[name := sha];
    forall f | f in q.shaToName
      ensures f.name in q.nameToSha && q.nameToSha[f.name] == f
    {
      if f != sha {
        assert f in r.shaToName;
      }
    }
    forall f: Fingerprint | f.name in q.nameToSha && q.nameToSha[f.name] == f
      ensures f in q.shaToName
    {
      if f.name != name {
        assert f in r.shaToName;
      }
    }
  }

  /** A well-formed projection is determined by its name -> fingerprint map. */
  lemma WellFormedIsCanonical(p: Projection)
    requires WellFormed(p)
    ensures p == Canonical(p.nameToSha)
  {
    var c := Canonical(p.nameToSha);
    forall f | f in p.shaToName
      ensures f in c.shaToName
    {
      assert p.nameToSha[f.name] == f;
    }
    assert p.shaToName == c.shaToName;
    assert p.shaToFile == c.shaToFile;
  }

  /** Every map whose fingerprints carry their names has a well-formed
      projection. */
  lemma CanonicalWellFormed(ns: map<Name, Fingerprint>)
    requires NamesMatch(ns)
    ensures WellFormed(Canonical(ns))
  {
    var c := Canonical(ns);
    forall f | f in c.shaToName
      ensures f.name in ns && ns[f.name] == f
    {
      var n :| n in ns && ns[n] == f;
    }
  }
}
