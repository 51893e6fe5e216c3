/** The per-file rules of a three-way merge (Repository.mergeGiven and
    Repository.mergeConflicts), stated over the fingerprints that the split
    point, the current head and the given head record for one file name; a
    missing entry is None. */
module MergeRules {
  import opened Objects
  import opened Records
  import opened Commits

  /** mergeGiven's test: the current side left the file as at the split
      point and the given side changed it (added, modified or deleted). */
  predicate TakesGiven(s: Option<Fingerprint>, c: Option<Fingerprint>, g: Option<Fingerprint>)
  {
    MyEquals(s, c) && !MyEquals(s, g)
  }

  /** mergeConflicts' test: all three versions differ pairwise. */
  predicate IsConflict(s: Option<Fingerprint>, c: Option<Fingerprint>, g: Option<Fingerprint>)
  {
    !MyEquals(s, c) && !MyEquals(s, g) && !MyEquals(g, c)
  }

  /** The bytes of a version, or nothing for a missing one. */
  function ContentOf(f: Option<Fingerprint>): Content
  {
    if f.Some? then f.value.content else ""
  }

  /** The text written into a conflicted file. */
  function ConflictText(c: Option<Fingerprint>, g: Option<Fingerprint>): Content
  {
    "<<<<<<< HEAD\n" + ContentOf(c) + "=======\n" + ContentOf(g) + ">>>>>>>\n"
  }

  /** The version of file name n that the merge commit records. */
  function MergedSha(n: Name, s: Option<Fingerprint>, c: Option<Fingerprint>, g: Option<Fingerprint>)
    : Option<Fingerprint>
  {
    if IsConflict(s, c, g) then Some(Fp(ConflictText(c, g), n))
    else if TakesGiven(s, c, g) then g
    else c
  }

  /** The laws of a three-way merge: a file both sides agree on keeps that
      version, a file only the current side changed keeps the current
      version, and a file only the given side changed takes the given one. */
  lemma ThreeWayLaws(n: Name, s: Option<Fingerprint>, c: Option<Fingerprint>, g: Option<Fingerprint>)
    ensures c == g ==> MergedSha(n, s, c, g) == c
    ensures s == g ==> MergedSha(n, s, c, g) == c
    ensures s == c ==> MergedSha(n, s, c, g) == g
    ensures IsConflict(s, c, g) <==> s != c && s != g && c != g
  {
  }

  /** A conflicted file is never one that mergeGiven handled. */
  lemma ConflictsDisjointFromGiven(s: Option<Fingerprint>, c: Option<Fingerprint>, g: Option<Fingerprint>)
    ensures IsConflict(s, c, g) ==> !TakesGiven(s, c, g)
  {
  }

  /** The conflict text starts with the HEAD marker, then the current
      version, the separator, the given version and the closing marker; the
      two versions can be read back from it when neither holds a marker
      line of its own. */
  lemma ConflictTextParts(c: Option<Fingerprint>, g: Option<Fingerprint>)
    ensures var t := ConflictText(c, g);
      && t[..13] == "<<<<<<< HEAD\n"
      && t[13..13 + |ContentOf(c)|] == ContentOf(c)
      && t[13 + |ContentOf(c)|..21 + |ContentOf(c)|] == "=======\n"
      && t[21 + |ContentOf(c)|..|t| - 8] == ContentOf(g)
      && t[|t| - 8..] == ">>>>>>>\n"
  {
    var t := ConflictText(c, g);
    var a, b := ContentOf(c), ContentOf(g);
    assert |t| == 13 + |a| + 8 + |b| + 8;
    assert t == "<<<<<<< HEAD\n" + a + "=======\n" + b + ">>>>>>>\n";
  }

  // ---------------------------------------------------------------------
  // Whole-commit views


  /** Files mergeGiven add-stages: given's version where TakesGiven holds
      and given has the file. */
  function GivenAdds(sp: Projection, cp: Projection, gp: Projection): map<Name, Fingerprint>
  {
    map n | n in gp.nameToSha && TakesGiven(ShaFromName(sp, n), ShaFromName(cp, n), ShaFromName(gp, n))
      :: gp.nameToSha[n]
  }

  /** Files mergeGiven remove-stages: split and current agree and given
      lacks the file. */
  function GivenRemoves(sp: Projection, cp: Projection, gp: Projection): set<Name>
  {
    set n | n in sp.nameToSha && MyEquals(ShaFromName(sp, n), ShaFromName(cp, n)) && n !in gp.nameToSha
  }

  /** Files mergeConflicts rewrites. */
  function ConflictNames(sp: Projection, cp: Projection, gp: Projection): set<Name>
  {
    set n | n in gp.nameToSha.Keys + cp.nameToSha.Keys
              && IsConflict(ShaFromName(sp, n), ShaFromName(cp, n), ShaFromName(gp, n))
  }

  function ConflictSha(cp: Projection, gp: Projection, n: Name): Fingerprint
  {
    Fp(ConflictText(ShaFromName(cp, n), ShaFromName(gp, n)), n)
  }

  /** The conflict text never equals the current head's version, since
      it holds that version and more; so add-staging it always keeps it. */
  lemma ConflictDiffersFromHead(cp: Projection, gp: Projection, n: Name)
    ensures ShaFromName(cp, n) != Some(ConflictSha(cp, gp, n))
  {
    var c, g := ShaFromName(cp, n), ShaFromName(gp, n);
    if c.Some? {
      assert |ConflictText(c, g)| > |c.value.content|;
    }
  }

  /** Conflicted files all end up add-staged with their conflict text. */
  function ConflictAdds(sp: Projection, cp: Projection, gp: Projection): map<Name, Fingerprint>
  {
    map n | n in ConflictNames(sp, cp, gp) :: ConflictSha(cp, gp, n)
  }

  /** The contents of a map of fingerprints. */
  function Contents(m: map<Name, Fingerprint>): map<Name, Content>
  {
    map n | n in m :: m[n].content
  }

  /** The conflict text of every conflicted file. */
  function ConflictContents(sp: Projection, cp: Projection, gp: Projection): map<Name, Content>
  {
    map n | n in ConflictNames(sp, cp, gp) :: ConflictText(ShaFromName(cp, n), ShaFromName(gp, n))
  }

  /** The working tree after mergeGiven and mergeConflicts: given's version
      checked out for the files taken from given, then the files given
      deleted removed, then the conflicted files overwritten with the
      conflict text. */
  function MergedWork(work: map<Name, Content>, sp: Projection, cp: Projection, gp: Projection)
    : map<Name, Content>
  {
    ((work + Contents(GivenAdds(sp, cp, gp))) - GivenRemoves(sp, cp, gp)) + ConflictContents(sp, cp, gp)
  }

  /** The three groups of files the merge touches are pairwise disjoint. */
  lemma MergeGroupsDisjoint(sp: Projection, cp: Projection, gp: Projection)
    ensures GivenAdds(sp, cp, gp).Keys !! GivenRemoves(sp, cp, gp)
    ensures GivenAdds(sp, cp, gp).Keys !! ConflictNames(sp, cp, gp)
    ensures GivenRemoves(sp, cp, gp) !! ConflictNames(sp, cp, gp)
  {
  }

  /** The entries the two areas hold once mergeGiven and mergeConflicts
      have run. */
  function MergeAdds(sp: Projection, cp: Projection, gp: Projection): map<Name, Fingerprint>
  {
    GivenAdds(sp, cp, gp) + ConflictAdds(sp, cp, gp)
  }

  /** The merge commit, which patches the current head with what the merge
      staged, tracks each file in the version MergedSha picks. */
  lemma MergeCommitFollowsRules(sp: Projection, cp: Projection, gp: Projection, n: Name)
    requires WellFormed(gp)
    ensures ShaFromName(Patched(cp, MergeAdds(sp, cp, gp), GivenRemoves(sp, cp, gp)), n)
            == MergedSha(n, ShaFromName(sp, n), ShaFromName(cp, n), ShaFromName(gp, n))
  {
    var s, c, g := ShaFromName(sp, n), ShaFromName(cp, n), ShaFromName(gp, n);
    var adds, removes := MergeAdds(sp, cp, gp), GivenRemoves(sp, cp, gp);
    PatchedRules(cp, adds, removes, n);
    if IsConflict(s, c, g) {
      assert n in ConflictNames(sp, cp, gp);
      assert n !in removes;
      assert n !in GivenAdds(sp, cp, gp);
    } else if TakesGiven(s, c, g) {
      assert n !in ConflictNames(sp, cp, gp);
      if g.Some? {
        assert n in GivenAdds(sp, cp, gp);
        assert n !in removes;
      } else {
        assert n in removes;
      }
    } else {
      assert n !in ConflictNames(sp, cp, gp);
      assert n !in GivenAdds(sp, cp, gp);
      assert n !in removes;
    }
  }

  /** The entries rm records for the files mergeGiven removes: HEAD's
      version of each. */
  function RemovedEntries(sp: Projection, cp: Projection, gp: Projection): map<Name, Fingerprint>
  {
    Restrict(cp.nameToSha, GivenRemoves(sp, cp, gp))
  }

  /** The entries of m whose names lie in s. */
  function Restrict(m: map<Name, Fingerprint>, s: set<Name>): map<Name, Fingerprint>
  {
    map n | n in m && n in s :: m[n]
  }

  /** rm records an entry for exactly the files mergeGiven removes, since
      the current head tracks each of them. */
  lemma RemovedKeys(sp: Projection, cp: Projection, gp: Projection)
    ensures RemovedEntries(sp, cp, gp).Keys == GivenRemoves(sp, cp, gp)
  {
    forall n | n in GivenRemoves(sp, cp, gp)
      ensures n in cp.nameToSha
    {
      assert ShaFromName(sp, n).Some?;
    }
  }

  /** A file the given side changed since the split point. */
  predicate ChangedOnGiven(sp: Projection, gp: Projection, n: Name)
  {
    !MyEquals(ShaFromName(sp, n), ShaFromName(gp, n))
  }

  // ---------------------------------------------------------------------
  // One more name handled by a merge loop

  /** Nothing of m is drained before the loop starts. */
  lemma DrainNone<V>(m: map<Name, V>, pending: set<Name>)
    requires m.Keys <= pending
    ensures m - pending == map[]
  {
  }

  /** The same over a base map. */
  lemma DrainStart<V>(base: map<Name, V>, m: map<Name, V>, pending: set<Name>)
    requires m.Keys <= pending
    ensures base + (m - pending) == base
  {
  }

  /** All of m is drained once nothing is pending. */
  lemma DrainAll<V>(m: map<Name, V>)
    ensures m - {} == m
  {
  }

  /** The entries of m whose names are no longer pending, after one more
      name is written. */
  lemma DrainPut<V>(m: map<Name, V>, pending: set<Name>, n: Name)
    requires n in pending && n in m
    ensures (m - pending)[n := m[n]] == m - (pending - {n})
  {
  }

  /** The same over a base map. */
  lemma DrainPutOver<V>(base: map<Name, V>, m: map<Name, V>, pending: set<Name>, n: Name)
    requires n in pending && n in m
    ensures (base + (m - pending))[n := m[n]] == base + (m - (pending - {n}))
  {
  }

  /** A pending name that m does not hold changes nothing. */
  lemma DrainSkip<V>(m: map<Name, V>, pending: set<Name>, n: Name)
    requires n !in m
    ensures m - pending == m - (pending - {n})
  {
  }

  /** Dropping a name a map does not hold leaves it as it is. */
  lemma DropAbsent<K, V>(m: map<K, V>, k: K)
    requires k !in m
    ensures m - {k} == m
  {
  }

  /** The set versions: nothing drained at the start, one more name that
      is not in s, and all drained at the end. */
  lemma SetDrainNone(s: set<Name>, pending: set<Name>)
    requires s <= pending
    ensures s - pending == {}
  {
  }

  lemma SetDrainSkip(s: set<Name>, pending: set<Name>, n: Name)
    requires n !in s
    ensures s - pending == s - (pending - {n})
  {
  }

  lemma SetDrainAll(s: set<Name>)
    ensures s - {} == s
  {
  }

  /** One more removed file: its entry is recorded and its working copy goes. */
  lemma RemoveStep(w: map<Name, Content>, m: map<Name, Fingerprint>, r: set<Name>, pending: set<Name>, n: Name)
    requires n in pending && n in r && n in m
    ensures Restrict(m, r - pending)[n := m[n]] == Restrict(m, r - (pending - {n}))
    ensures (w - (r - pending)) - {n} == w - (r - (pending - {n}))
  {
  }

  /** Nothing removed yet. */
  lemma RestrictNone(m: map<Name, Fingerprint>)
    ensures Restrict(m, {}) == map[]
  {
  }

  /** Untracked-file protection: a working file the current head does not
      track, and that the given side did not change since the split point,
      keeps its content. */
  lemma UntrackedKept(work: map<Name, Content>, sp: Projection, cp: Projection, gp: Projection, n: Name)
    requires n in work && n !in cp.nameToSha
    requires MyEquals(ShaFromName(sp, n), ShaFromName(gp, n))
    ensures n in MergedWork(work, sp, cp, gp) && MergedWork(work, sp, cp, gp)[n] == work[n]
  {
    assert n !in GivenRemoves(sp, cp, gp);
    assert n !in ConflictNames(sp, cp, gp);
    assert n !in GivenAdds(sp, cp, gp);
  }
}
