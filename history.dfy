/** The commit graph: parent links of persisted commits, the ancestor set
    that findSplit builds with addParents, the breadth-first order in which
    findAncestor visits ancestors, and the first-parent chain that log walks.
    History is acyclic because every commit is ranked above its parents;
    the rank is ghost bookkeeping that the source does not store. */
module History {
  import opened Objects
  import opened Records

  type Store = map<CommitId, CommitRecord>
  type Ranks = map<CommitId, nat>

  /** The parents of a commit: parent1 first, then parent2 (the order in
      which findAncestor enqueues them). */
  function ParentList(r: CommitRecord): seq<CommitId>
  {
    (if r.parent1.Some? then [r.parent1.value] else []) + (if r.parent2.Some? then [r.parent2.value] else [])
  }

  /** Appending parent1, then parent2, to a queue appends the parent list. */
  lemma EnqueueParents(q: seq<CommitId>, r: CommitRecord)
    ensures var q1 := if r.parent1.Some? then q + [r.parent1.value] else q;
      (if r.parent2.Some? then q1 + [r.parent2.value] else q1) == q + ParentList(r)
  {
  }

  /** Each parent of stored commit c is stored and ranked strictly lower. */
  ghost predicate ParentOk(cs: Store, gen: Ranks, c: CommitId)
    requires c in cs && c in gen
  {
    && (cs[c].parent1.Some? ==> cs[c].parent1.value in cs && cs[c].parent1.value in gen
                                && gen[cs[c].parent1.value] < gen[c])
    && (cs[c].parent2.Some? ==> cs[c].parent2.value in cs && cs[c].parent2.value in gen
                                && gen[cs[c].parent2.value] < gen[c])
  }

  /** History is acyclic: every commit is ranked above its parents. */
  ghost predicate Ranked(cs: Store, gen: Ranks)
  {
    && cs.Keys == gen.Keys
    && (forall c {:trigger ParentOk(cs, gen, c)} :: c in cs ==> ParentOk(cs, gen, c))
  }

  lemma ParentListRanked(cs: Store, gen: Ranks, c: CommitId)
    requires Ranked(cs, gen) && c in cs
    ensures forall p :: p in ParentList(cs[c]) ==> p in cs && gen[p] < gen[c]
  {
    assert ParentOk(cs, gen, c);
  }

  ghost predicate AllIn(q: seq<CommitId>, cs: Store)
  {
    forall i :: 0 <= i < |q| ==> q[i] in cs
  }

  // ---------------------------------------------------------------------
  // Paths and the ancestor set

  /** x is reached from c by exactly k parent edges. */
  ghost predicate Path(cs: Store, c: CommitId, x: CommitId, k: nat)
    decreases k
  {
    if k == 0 then x == c
    else exists y :: Path(cs, c, y, k - 1) && y in cs && x in ParentList(cs[y])
  }

  /** c together with every commit reachable from it (addParents' closure
      plus the starting commit, which findSplit adds first). */
  ghost function Ancestors(cs: Store, gen: Ranks, c: CommitId): set<CommitId>
    requires Ranked(cs, gen) && c in cs
    decreases gen[c], 1
  {
    {c} + StrictAncestors(cs, gen, c)
  }

  /** Every commit reachable from c by one or more parent edges. */
  ghost function StrictAncestors(cs: Store, gen: Ranks, c: CommitId): set<CommitId>
    requires Ranked(cs, gen) && c in cs
    decreases gen[c], 0
  {
    assert ParentOk(cs, gen, c);
    var r := cs[c];
    (if r.parent1.Some? then Ancestors(cs, gen, r.parent1.value) else {})
    + (if r.parent2.Some? then Ancestors(cs, gen, r.parent2.value) else {})
  }

  lemma AncestorsStored(cs: Store, gen: Ranks, c: CommitId)
    requires Ranked(cs, gen) && c in cs
    ensures Ancestors(cs, gen, c) <= cs.Keys
    decreases gen[c]
  {
    assert ParentOk(cs, gen, c);
    var r := cs[c];
    if r.parent1.Some? {
      AncestorsStored(cs, gen, r.parent1.value);
    }
    if r.parent2.Some? {
      AncestorsStored(cs, gen, r.parent2.value);
    }
  }

  /** A path can be extended at its start by a parent edge. */
  lemma {:induction false} PathPrepend(cs: Store, c: CommitId, p: CommitId, x: CommitId, k: nat)
    requires c in cs && p in ParentList(cs[c]) && Path(cs, p, x, k)
    ensures Path(cs, c, x, k + 1)
    decreases k
  {
    if k == 0 {
      assert Path(cs, c, c, 0);
    } else {
      var y :| Path(cs, p, y, k - 1) && y in cs && x in ParentList(cs[y]);
      PathPrepend(cs, c, p, y, k - 1);
    }
  }

  /** The ancestor set is closed under taking parents. */
  lemma {:induction false} AncestorsClosed(cs: Store, gen: Ranks, c: CommitId, y: CommitId, x: CommitId)
    requires Ranked(cs, gen) && c in cs && y in Ancestors(cs, gen, c)
    requires y in cs && x in ParentList(cs[y])
    ensures x in Ancestors(cs, gen, c)
    decreases gen[c]
  {
    var r := cs[c];
    assert ParentOk(cs, gen, c);
    if y == c {
      if r.parent1.Some? && x == r.parent1.value {
        assert x in Ancestors(cs, gen, r.parent1.value);
      } else {
        assert x in Ancestors(cs, gen, r.parent2.value);
      }
    } else if r.parent1.Some? && y in Ancestors(cs, gen, r.parent1.value) {
      AncestorsClosed(cs, gen, r.parent1.value, y, x);
    } else {
      AncestorsClosed(cs, gen, r.parent2.value, y, x);
    }
  }

  lemma {:induction false} AncestorsHavePaths(cs: Store, gen: Ranks, c: CommitId, x: CommitId)
    requires Ranked(cs, gen) && c in cs && x in Ancestors(cs, gen, c)
    ensures exists k: nat :: Path(cs, c, x, k)
    decreases gen[c]
  {
    var r := cs[c];
    assert ParentOk(cs, gen, c);
    if x == c {
      assert Path(cs, c, x, 0);
    } else {
      var p := if r.parent1.Some? && x in Ancestors(cs, gen, r.parent1.value) then r.parent1.value
               else r.parent2.value;
      AncestorsHavePaths(cs, gen, p, x);
      var k: nat :| Path(cs, p, x, k);
      PathPrepend(cs, c, p, x, k);
    }
  }

  lemma {:induction false} PathInAncestors(cs: Store, gen: Ranks, c: CommitId, x: CommitId, k: nat)
    requires Ranked(cs, gen) && c in cs && Path(cs, c, x, k)
    ensures x in Ancestors(cs, gen, c)
    decreases k
  {
    if k > 0 {
      var y :| Path(cs, c, y, k - 1) && y in cs && x in ParentList(cs[y]);
      PathInAncestors(cs, gen, c, y, k - 1);
      AncestorsClosed(cs, gen, c, y, x);
    }
  }

  /** The ancestor set is exactly the set of commits reachable by some path. */
  lemma AncestorsArePaths(cs: Store, gen: Ranks, c: CommitId, x: CommitId)
    requires Ranked(cs, gen) && c in cs
    ensures x in Ancestors(cs, gen, c) <==> exists k: nat :: Path(cs, c, x, k)
  {
    if x in Ancestors(cs, gen, c) {
      AncestorsHavePaths(cs, gen, c, x);
    }
    if exists k: nat :: Path(cs, c, x, k) {
      var k: nat :| Path(cs, c, x, k);
      PathInAncestors(cs, gen, c, x, k);
    }
  }

  // ---------------------------------------------------------------------
  // Breadth-first order

  function Pow3(k: nat): (r: nat)
    ensures r >= 1
  {
    if k == 0 then 1 else 3 * Pow3(k - 1)
  }

  lemma {:induction false} Pow3Monotone(a: nat, b: nat)
    requires a <= b
    ensures Pow3(a) <= Pow3(b)
    decreases b
  {
    if a < b {
      Pow3Monotone(a, b - 1);
    }
  }

  /** Termination measure of the queue: a commit of rank g weighs 3^g, more
      than its at most two parents together. */
  ghost function Weight(gen: Ranks, q: seq<CommitId>): nat
    requires forall x :: x in q ==> x in gen
  {
    if q == [] then 0 else Pow3(gen[q[0]]) + Weight(gen, q[1..])
  }

  lemma {:induction false} WeightAppend(gen: Ranks, a: seq<CommitId>, b: seq<CommitId>)
    requires forall x :: x in a ==> x in gen
    requires forall x :: x in b ==> x in gen
    ensures Weight(gen, a + b) == Weight(gen, a) + Weight(gen, b)
    decreases |a|
  {
    if a != [] {
      assert (a + b)[1..] == a[1..] + b;
      WeightAppend(gen, a[1..], b);
    } else {
      assert a + b == b;
    }
  }

  lemma ParentsWeighLess(cs: Store, gen: Ranks, c: CommitId)
    requires Ranked(cs, gen) && c in cs
    ensures AllIn(ParentList(cs[c]), cs)
    ensures Weight(gen, ParentList(cs[c])) < Pow3(gen[c])
  {
    var r := cs[c];
    assert ParentOk(cs, gen, c);
    var g := gen[c];
    if r.parent1.Some? {
      Pow3Monotone(gen[r.parent1.value], g - 1);
    }
    if r.parent2.Some? {
      Pow3Monotone(gen[r.parent2.value], g - 1);
    }
    if r.parent1.Some? && r.parent2.Some? {
      var ps := [r.parent1.value, r.parent2.value];
      assert ParentList(r) == ps && ps[1..] == [r.parent2.value] && ps[1..][1..] == [];
      assert Weight(gen, ps[1..]) == Pow3(gen[r.parent2.value]) + Weight(gen, ps[1..][1..]);
      assert Weight(gen, ps) == Pow3(gen[r.parent1.value]) + Pow3(gen[r.parent2.value]);
      assert Pow3(g) == 3 * Pow3(g - 1);
    } else if r.parent1.Some? {
      assert ParentList(r) == [r.parent1.value];
    } else if r.parent2.Some? {
      assert ParentList(r) == [r.parent2.value];
    }
  }

  lemma QueueStepWeighsLess(cs: Store, gen: Ranks, q: seq<CommitId>)
    requires Ranked(cs, gen) && AllIn(q, cs) && q != []
    ensures AllIn(q[1..] + ParentList(cs[q[0]]), cs)
    ensures Weight(gen, q[1..] + ParentList(cs[q[0]])) < Weight(gen, q)
  {
    ParentsWeighLess(cs, gen, q[0]);
    WeightAppend(gen, q[1..], ParentList(cs[q[0]]));
  }

  /** The order in which findAncestor's queue hands out commits when it
      never stops early: take the head, enqueue its parents at the back. */
  ghost function Order(cs: Store, gen: Ranks, q: seq<CommitId>): seq<CommitId>
    requires Ranked(cs, gen) && AllIn(q, cs)
    decreases Weight(gen, q)
  {
    if q == [] then []
    else
      QueueStepWeighsLess(cs, gen, q);
      [q[0]] + Order(cs, gen, q[1..] + ParentList(cs[q[0]]))
  }

  /** All parents of the commits of q, in queue order. */
  ghost function Expand(cs: Store, q: seq<CommitId>): seq<CommitId>
    requires AllIn(q, cs)
  {
    if q == [] then [] else ParentList(cs[q[0]]) + Expand(cs, q[1..])
  }

  lemma {:induction false} ExpandStored(cs: Store, gen: Ranks, q: seq<CommitId>)
    requires Ranked(cs, gen) && AllIn(q, cs)
    ensures AllIn(Expand(cs, q), cs)
    decreases |q|
  {
    if q != [] {
      ParentsWeighLess(cs, gen, q[0]);
      ExpandStored(cs, gen, q[1..]);
    }
  }

  lemma {:induction false} ExpandMembers(cs: Store, q: seq<CommitId>, x: CommitId)
    requires AllIn(q, cs)
    ensures x in Expand(cs, q) <==> exists y :: y in q && x in ParentList(cs[y])
    decreases |q|
  {
    if q != [] {
      ExpandMembers(cs, q[1..], x);
      assert forall y :: y in q <==> y == q[0] || y in q[1..];
    }
  }

  /** Draining a queue prefix q hands out q itself and then enqueues the
      parents of q behind whatever followed it. */
  /** One step of the queue: the head is handed out and its parents go to
      the back. */
  lemma OrderStep(cs: Store, gen: Ranks, q: seq<CommitId>)
    requires Ranked(cs, gen) && AllIn(q, cs) && q != []
    ensures AllIn(q[1..] + ParentList(cs[q[0]]), cs)
    ensures Order(cs, gen, q) == [q[0]] + Order(cs, gen, q[1..] + ParentList(cs[q[0]]))
  {
    QueueStepWeighsLess(cs, gen, q);
  }

  lemma ExpandHead(cs: Store, q: seq<CommitId>)
    requires AllIn(q, cs) && q != []
    ensures Expand(cs, q) == ParentList(cs[q[0]]) + Expand(cs, q[1..])
  {
    assert q[0] in q;
  }

  /** Helper for OrderAppend: regrouping a concatenation of queues. */
  lemma Associative(a: seq<CommitId>, b: seq<CommitId>, c: seq<CommitId>)
    ensures (a + b) + c == a + (b + c)
  {
  }

  lemma {:induction false} OrderAppend(cs: Store, gen: Ranks, q: seq<CommitId>, r: seq<CommitId>)
    requires Ranked(cs, gen) && AllIn(q, cs) && AllIn(r, cs)
    ensures AllIn(r + Expand(cs, q), cs)
    ensures Order(cs, gen, q + r) == q + Order(cs, gen, r + Expand(cs, q))
    decreases |q|
  {
    ExpandStored(cs, gen, q);
    if q == [] {
      assert q + r == r + Expand(cs, q) == r;
    } else {
      var a := q[0];
      assert a in q;
      var ps := ParentList(cs[a]);
      var t := q[1..];
      assert AllIn(t, cs) by {
        forall x | x in t
          ensures x in cs
        {
          assert x in q;
        }
      }
      ParentsWeighLess(cs, gen, a);
      OrderStep(cs, gen, q + r);
      assert (q + r)[0] == a;
      assert (q + r)[1..] + ps == t + (r + ps);
      OrderAppend(cs, gen, t, r + ps);
      ExpandHead(cs, q);
      Associative(r, ps, Expand(cs, t));
      var o := Order(cs, gen, r + Expand(cs, q));
      calc {
        Order(cs, gen, q + r);
        [a] + Order(cs, gen, t + (r + ps));
        [a] + (t + o);
        { Associative([a], t, o); assert q == [a] + t; }
        q + o;
      }
    }
  }

  /** The k-th level of the breadth-first search from c: the commits at
      exactly k edges, with repetitions, in queue order. */
  ghost function Level(cs: Store, gen: Ranks, c: CommitId, k: nat): seq<CommitId>
    requires Ranked(cs, gen) && c in cs
    ensures AllIn(Level(cs, gen, c, k), cs)
  {
    if k == 0 then [c]
    else
      var l := Level(cs, gen, c, k - 1);
      ExpandStored(cs, gen, l);
      Expand(cs, l)
  }

  /** Levels 0 .. k-1 one after the other. */
  ghost function Levels(cs: Store, gen: Ranks, c: CommitId, k: nat): seq<CommitId>
    requires Ranked(cs, gen) && c in cs
  {
    if k == 0 then [] else Levels(cs, gen, c, k - 1) + Level(cs, gen, c, k - 1)
  }

  lemma {:induction false} LevelIsPath(cs: Store, gen: Ranks, c: CommitId, x: CommitId, k: nat)
    requires Ranked(cs, gen) && c in cs
    ensures x in Level(cs, gen, c, k) <==> Path(cs, c, x, k)
    decreases k
  {
    if k > 0 {
      var l := Level(cs, gen, c, k - 1);
      ExpandMembers(cs, l, x);
      forall y
        ensures y in l <==> Path(cs, c, y, k - 1)
      {
        LevelIsPath(cs, gen, c, y, k - 1);
      }
    }
  }

  lemma {:induction false} LevelRank(cs: Store, gen: Ranks, c: CommitId, k: nat, x: CommitId)
    requires Ranked(cs, gen) && c in cs && x in Level(cs, gen, c, k)
    ensures gen[x] + k <= gen[c]
    decreases k
  {
    if k > 0 {
      var l := Level(cs, gen, c, k - 1);
      ExpandMembers(cs, l, x);
      var y :| y in l && x in ParentList(cs[y]);
      ParentListRanked(cs, gen, y);
      LevelRank(cs, gen, c, k - 1, y);
    }
  }

  /** The breadth-first order is the levels one after the other. */
  lemma {:induction false} OrderLevels(cs: Store, gen: Ranks, c: CommitId, k: nat)
    requires Ranked(cs, gen) && c in cs
    ensures Order(cs, gen, [c]) == Levels(cs, gen, c, k) + Order(cs, gen, Level(cs, gen, c, k))
    decreases k
  {
    if k > 0 {
      OrderLevels(cs, gen, c, k - 1);
      var l, e := Level(cs, gen, c, k - 1), Level(cs, gen, c, k);
      OrderAppend(cs, gen, l, []);
      assert l + [] == l;
      assert [] + Expand(cs, l) == e;
      var before, o := Levels(cs, gen, c, k - 1), Order(cs, gen, e);
      calc {
        Order(cs, gen, [c]);
        before + Order(cs, gen, l);
        { assert Order(cs, gen, l) == l + o; }
        before + (l + o);
        (before + l) + o;
      }
    }
  }

  // ---------------------------------------------------------------------
  // First member of a set in a sequence

  function FirstIn(s: seq<CommitId>, p: set<CommitId>): (r: Option<CommitId>)
    ensures r.Some? ==> r.value in s && r.value in p
    ensures r.None? <==> forall x :: x in s ==> x !in p
  {
    if s == [] then None else if s[0] in p then Some(s[0]) else FirstIn(s[1..], p)
  }

  lemma {:induction false} FirstInAppend(a: seq<CommitId>, b: seq<CommitId>, p: set<CommitId>)
    ensures FirstIn(a + b, p) == if FirstIn(a, p).Some? then FirstIn(a, p) else FirstIn(b, p)
    decreases |a|
  {
    if a == [] {
      assert a + b == b;
    } else {
      assert (a + b)[0] == a[0];
      assert (a + b)[1..] == a[1..] + b;
      FirstInAppend(a[1..], b, p);
    }
  }

  /** findAncestor's answer, the first commit of the breadth-first order from
      c that lies in the set, is in the set, is reachable from c, and is at
      the smallest edge count at which any member of the set is reachable. If
      there is no answer, no ancestor of c is in the set. */
  lemma BfsFindsClosest(cs: Store, gen: Ranks, c: CommitId, p: set<CommitId>)
    requires Ranked(cs, gen) && c in cs
    ensures var r := FirstIn(Order(cs, gen, [c]), p);
      && (r.Some? ==> r.value in p && exists d: nat :: Path(cs, c, r.value, d) && NoneCloser(cs, c, p, d))
      && (r.None? ==> forall e: nat, x :: Path(cs, c, x, e) ==> x !in p)
  {
    var r := FirstIn(Order(cs, gen, [c]), p);
    var d := ClosestLevel(cs, gen, c, p, 0);
    if d.Some? {
      var k := d.value;
      OrderLevels(cs, gen, c, k);
      FirstInAppend(Levels(cs, gen, c, k), Order(cs, gen, Level(cs, gen, c, k)), p);
      LevelsMiss(cs, gen, c, p, k);
      OrderAppend(cs, gen, Level(cs, gen, c, k), []);
      assert Level(cs, gen, c, k) + [] == Level(cs, gen, c, k);
      FirstInAppend(Level(cs, gen, c, k), Order(cs, gen, [] + Expand(cs, Level(cs, gen, c, k))), p);
      assert r == FirstIn(Level(cs, gen, c, k), p);
      LevelIsPath(cs, gen, c, r.value, k);
      forall e: nat, x | e < k && Path(cs, c, x, e)
        ensures x !in p
      {
        LevelIsPath(cs, gen, c, x, e);
      }
      assert Path(cs, c, r.value, k) && NoneCloser(cs, c, p, k);
    } else {
      var k := gen[c] + 1;
      OrderLevels(cs, gen, c, k);
      assert Level(cs, gen, c, k) == [] by {
        if Level(cs, gen, c, k) != [] {
          LevelRank(cs, gen, c, k, Level(cs, gen, c, k)[0]);
        }
      }
      LevelsMiss(cs, gen, c, p, k);
      FirstInAppend(Levels(cs, gen, c, k), [], p);
      assert Levels(cs, gen, c, k) + [] == Levels(cs, gen, c, k);
      forall e: nat, x | Path(cs, c, x, e)
        ensures x !in p
      {
        LevelIsPath(cs, gen, c, x, e);
      }
    }
  }

  /** No commit of p is reachable from c by fewer than d parent edges. */
  ghost predicate NoneCloser(cs: Store, c: CommitId, p: set<CommitId>, d: nat)
  {
    forall e: nat, y :: e < d && Path(cs, c, y, e) ==> y !in p
  }

  /** The first commit of the breadth-first order from c that lies in p is
      reachable from c, and no commit of p is fewer parent edges away. */
  lemma BfsFirstIsClosest(cs: Store, gen: Ranks, c: CommitId, p: set<CommitId>)
    requires Ranked(cs, gen) && c in cs && FirstIn(Order(cs, gen, [c]), p).Some?
    ensures var x := FirstIn(Order(cs, gen, [c]), p).value;
      && x in p && x in Ancestors(cs, gen, c)
      && exists d: nat :: Path(cs, c, x, d) && NoneCloser(cs, c, p, d)
  {
    var x := FirstIn(Order(cs, gen, [c]), p).value;
    BfsFindsClosest(cs, gen, c, p);
    AncestorsArePaths(cs, gen, c, x);
  }

  /** A walk that starts at a member of the set stops there at once. */
  lemma BfsStartsAtSelf(cs: Store, gen: Ranks, c: CommitId, p: set<CommitId>)
    requires Ranked(cs, gen) && c in cs && c in p
    ensures FirstIn(Order(cs, gen, [c]), p) == Some(c)
  {
    OrderStep(cs, gen, [c]);
  }

  /** The first level at or after k that meets the set, if any; every level
      from k before it misses the set. */
  ghost function ClosestLevel(cs: Store, gen: Ranks, c: CommitId, p: set<CommitId>, k: nat): (d: Option<nat>)
    requires Ranked(cs, gen) && c in cs
    ensures d.Some? ==> k <= d.value && FirstIn(Level(cs, gen, c, d.value), p).Some?
    ensures forall e: nat :: k <= e && (d.None? || e < d.value) ==> FirstIn(Level(cs, gen, c, e), p).None?
    decreases gen[c] + 1 - k
  {
    if k > gen[c] then
      assert forall e: nat :: k <= e ==> Level(cs, gen, c, e) == [] by {
        forall e: nat | k <= e
          ensures Level(cs, gen, c, e) == []
        {
          if Level(cs, gen, c, e) != [] {
            LevelRank(cs, gen, c, e, Level(cs, gen, c, e)[0]);
          }
        }
      }
      None
    else if FirstIn(Level(cs, gen, c, k), p).Some? then Some(k)
    else ClosestLevel(cs, gen, c, p, k + 1)
  }

  lemma {:induction false} LevelsMiss(cs: Store, gen: Ranks, c: CommitId, p: set<CommitId>, k: nat)
    requires Ranked(cs, gen) && c in cs
    requires forall e: nat :: e < k ==> FirstIn(Level(cs, gen, c, e), p).None?
    ensures FirstIn(Levels(cs, gen, c, k), p).None?
    decreases k
  {
    if k > 0 {
      LevelsMiss(cs, gen, c, p, k - 1);
      FirstInAppend(Levels(cs, gen, c, k - 1), Level(cs, gen, c, k - 1), p);
    }
  }

  // ---------------------------------------------------------------------
  // The root commit

  /** The initial commit is the only commit without a first parent. */
  ghost predicate Rooted(cs: Store, root: CommitId)
  {
    && root in cs && cs[root].parent1.None?
    && forall c :: c in cs && cs[c].parent1.None? ==> c == root
  }

  /** Every commit descends from the initial commit. */
  lemma {:induction false} RootIsAncestor(cs: Store, gen: Ranks, root: CommitId, c: CommitId)
    requires Ranked(cs, gen) && Rooted(cs, root) && c in cs
    ensures root in Ancestors(cs, gen, c)
    decreases gen[c]
  {
    if c != root {
      assert ParentOk(cs, gen, c);
      RootIsAncestor(cs, gen, root, cs[c].parent1.value);
    }
  }

  /** Any two commits have a common ancestor, so findAncestor, started from
      one of them with the ancestor set of the other, always finds one. */
  lemma SplitExists(cs: Store, gen: Ranks, root: CommitId, cur: CommitId, given: CommitId)
    requires Ranked(cs, gen) && Rooted(cs, root) && cur in cs && given in cs
    ensures FirstIn(Order(cs, gen, [cur]), Ancestors(cs, gen, given)).Some?
  {
    RootIsAncestor(cs, gen, root, cur);
    RootIsAncestor(cs, gen, root, given);
    AncestorsArePaths(cs, gen, cur, root);
    BfsFindsClosest(cs, gen, cur, Ancestors(cs, gen, given));
  }

  // ---------------------------------------------------------------------
  // The first-parent chain

  /** The commits log prints from c: c, its first parent, and so on. */
  ghost function FirstParentChain(cs: Store, gen: Ranks, c: CommitId): (ch: seq<CommitId>)
    requires Ranked(cs, gen) && c in cs
    ensures ch != [] && ch[0] == c
    decreases gen[c]
  {
    assert ParentOk(cs, gen, c);
    var r := cs[c];
    [c] + if r.parent1.Some? then FirstParentChain(cs, gen, r.parent1.value) else []
  }

  /** The chain links each commit to its first parent, stays among c's
      ancestors and ends at the initial commit. */
  lemma {:induction false} FirstParentChainShape(cs: Store, gen: Ranks, root: CommitId, c: CommitId)
    requires Ranked(cs, gen) && Rooted(cs, root) && c in cs
    ensures var ch := FirstParentChain(cs, gen, c);
      && ch[|ch| - 1] == root
      && (forall i :: 0 <= i < |ch| - 1 ==> ch[i] in cs && cs[ch[i]].parent1 == Some(ch[i + 1]))
      && (forall x :: x in ch ==> x in Ancestors(cs, gen, c))
    decreases gen[c]
  {
    assert ParentOk(cs, gen, c);
    var ch := FirstParentChain(cs, gen, c);
    if c != root {
      var p := cs[c].parent1.value;
      FirstParentChainShape(cs, gen, root, p);
      var tail := FirstParentChain(cs, gen, p);
      assert ch == [c] + tail;
      forall i | 0 <= i < |ch| - 1
        ensures ch[i] in cs && cs[ch[i]].parent1 == Some(ch[i + 1])
      {
        if i > 0 {
          assert ch[i] == tail[i - 1] && ch[i + 1] == tail[i];
        }
      }
    }
  }
}
