/** The three loops of Repository.checkoutBranchWithSha, over the working
    tree's files: refuse when an untracked file is in the way, write every
    file the target commit tracks, then delete every listed file the target
    does not track. */
module Checkout {
  import opened Objects
  import opened Records
  import opened StagingArea
  import opened MergeRules
  import opened Status

  /** Working file n is in the way of checking out target: HEAD does not
      track it and the target tracks a different version of it. */
  predicate Blocks(work: map<Name, Content>, head: Projection, target: Projection, n: Name)
  {
    n in work && n !in head.nameToSha && n in target.nameToSha && Fp(work[n], n) != target.nameToSha[n]
  }

  /** checkoutBranchWithSha's refusal. */
  ghost predicate InTheWay(work: map<Name, Content>, head: Projection, target: Projection)
  {
    exists n :: Blocks(work, head, target, n)
  }

  /** The names a well-formed projection files its fingerprints under are
      exactly the names it tracks. */
  lemma TrackedNames(p: Projection)
    requires WellFormed(p)
    ensures p.shaToName.Values == p.nameToSha.Keys
  {
    forall n | n in p.nameToSha
      ensures n in p.shaToName.Values
    {
      var f := p.nameToSha[n];
      assert f in p.shaToName && p.shaToName[f] == n;
    }
  }

  /** The first loop: look through the listing for a file in the way. */
  method FindInTheWay(work: map<Name, Content>, head: Projection, target: Projection) returns (blocked: bool)
    ensures blocked <==> InTheWay(work, head, target)
  {
    var listing := work.Keys;
    while listing != {}
      invariant listing <= work.Keys
      invariant forall n :: n !in listing ==> !Blocks(work, head, target, n)
      decreases listing
    {
      var n :| n in listing;
      if n !in head.nameToSha && n in target.nameToSha {
        if Fp(work[n], n) != target.nameToSha[n] {
          assert Blocks(work, head, target, n);
          return true;
        }
      }
      listing := listing - {n};
    }
    return false;
  }

  /** One step of the second loop: writing one more of the target's files. */
  lemma WriteStep(work: map<Name, Content>, m: map<Name, Fingerprint>, pending: set<Name>, n: Name)
    requires n in pending && n in m
    ensures (work + Contents(m - pending))[n := m[n].content] == work + Contents(m - (pending - {n}))
  {
  }

  /** The second loop: checkoutFile for every name the target files its
      fingerprints under, writing that version's contents. */
  method WriteTracked(work: map<Name, Content>, target: Projection) returns (work': map<Name, Content>)
    requires WellFormed(target)
    ensures work' == work + Contents(target.nameToSha)
  {
    TrackedNames(target);
    var m := target.nameToSha;
    var pending := target.shaToName.Values;
    work' := work;
    assert Contents(m - pending) == map[];
    while pending != {}
      invariant pending <= m.Keys
      invariant work' == work + Contents(m - pending)
      decreases pending
    {
      var n :| n in pending;
      WriteStep(work, m, pending, n);
      work' := work'[n := m[n].content];
      pending := pending - {n};
    }
    assert m - pending == m;
  }

  /** The third loop: delete every file of the listing taken before the
      writes that the target does not track. */
  method DeleteUntracked(listing: set<Name>, work: map<Name, Content>, target: Projection)
    returns (work': map<Name, Content>)
    ensures work' == work - (listing - target.nameToSha.Keys)
  {
    var pending := listing;
    work' := work;
    while pending != {}
      invariant pending <= listing
      invariant work' == work - ((listing - pending) - target.nameToSha.Keys)
      decreases pending
    {
      var n :| n in pending;
      if n !in target.nameToSha {
        work' := work' - {n};
      }
      pending := pending - {n};
    }
  }

  /** Writing the target's files over a tree and then deleting the tree's
      other files leaves exactly the target's files. */
  lemma ReplaceTree(work: map<Name, Content>, m: map<Name, Fingerprint>)
    ensures (work + Contents(m)) - (work.Keys - m.Keys) == Contents(m)
  {
  }

  /** checkoutBranchWithSha once the target commit is known: refuse when a
      file is in the way, leaving the tree alone; otherwise the tree holds
      exactly the files the target tracks, with their contents. */
  method CheckoutTree(work: map<Name, Content>, head: Projection, target: Projection)
    returns (err: Option<Error>, work': map<Name, Content>)
    requires WellFormed(target)
    ensures err.Some? <==> InTheWay(work, head, target)
    ensures err.Some? ==> err == Some(UntrackedInTheWay) && work' == work
    ensures err.None? ==> work' == Contents(target.nameToSha)
  {
    var blocked := FindInTheWay(work, head, target);
    if blocked {
      return Some(UntrackedInTheWay), work;
    }
    var listing := work.Keys;
    var written := WriteTracked(work, target);
    work' := DeleteUntracked(listing, written, target);
    ReplaceTree(work, target.nameToSha);
    err := None;
  }

  /** A checked-out tree records each file in the version the target
      tracks: with nothing staged, status then lists no file as staged,
      removed, modified, deleted or untracked. */
  lemma CheckedOutIsClean(target: Projection)
    requires WellFormed(target)
    ensures var work := Contents(target.nameToSha);
      StatusOf(work, EmptyArea(), EmptyArea(), target) == Report({}, {}, {}, multiset{}, {})
  {
    var work := Contents(target.nameToSha);
    var r := StatusOf(work, EmptyArea(), EmptyArea(), target);
    forall n | n in work
      ensures !IsModified(n, work[n], EmptyArea(), EmptyArea(), target)
      ensures !IsUntracked(n, EmptyArea(), EmptyArea(), target)
    {
      assert target.nameToSha[n].name == n;
    }
    assert r.modified == {};
    assert r.untracked == {};
    assert (set n | n in target.nameToSha && n !in work) == {};
  }
}
