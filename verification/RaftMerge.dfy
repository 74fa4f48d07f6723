/** What the append loop of a follower does to its log, and the counting lemmas of the member table. */
module RaftMerge {
  import opened RaftTypes
  import opened RaftStep
  import opened RaftHistory
  import opened RaftInvariant

  /** Where two logs carry the same term they agree up to there. */
  ghost predicate TermsDecide(g: Log, l: Log) {
    forall j {:trigger g[j]} {:trigger l[j]} :: 0 <= j < |g| && j < |l| && g[j].term == l[j].term ==>
      Agrees(g, l, j + 1)
  }

  ghost predicate Indexed(l: Log) {
    forall j :: 0 <= j < |l| ==> l[j].index == j + 1
  }

  /** Merging `l`'s entries up to `k` into `g`: the result has them, keeps whatever `g` already
      shared with `l`, and is either `g` itself or exactly `l` up to `k`. */
  ghost predicate Merged(g: Log, l: Log, k: nat, r: Log) {
    && Agrees(r, l, k)
    && (forall x: nat {:trigger Agrees(r, l, x)} :: Agrees(g, l, x) ==> Agrees(r, l, x))
    && (r == g || r == l[..k])
  }

  lemma PlaceOne(g: Log, l: Log, prev: nat)
    requires prev < |l| <= MAX_LOG && Agrees(g, l, prev) && TermsDecide(g, l) && Indexed(l)
    ensures Merged(g, l, prev + 1, PlaceEntry(g, prev + 1, l[prev]))
  {
    var r := PlaceEntry(g, prev + 1, l[prev]);
    if prev < |g| && g[prev].term == l[prev].term {
      assert r == g;
    } else {
      assert r == g[..prev] + [l[prev]];
      assert r == l[..prev + 1];
      forall x: nat | Agrees(g, l, x) ensures Agrees(r, l, x) {
        if x > prev { AgreesAt(g, l, x, prev); assert false; }
        AgreesLess(r, l, prev + 1, x);
      }
    }
  }

  lemma {:induction false} PlaceEntriesMerge(g: Log, l: Log, prev: nat, k: nat)
    requires prev <= k <= |l| <= MAX_LOG && Agrees(g, l, prev) && TermsDecide(g, l) && Indexed(l)
    ensures Merged(g, l, k, PlaceEntries(g, prev + 1, l[prev..k]))
    decreases k - prev
  {
    if prev < k {
      var g1 := PlaceEntry(g, prev + 1, l[prev]);
      PlaceOne(g, l, prev);
      if g1 != g { assert g1 == l[..prev + 1]; }
      PlaceEntriesMerge(g1, l, prev + 1, k);
      assert l[prev..k][1..] == l[prev + 1..k];
      var r := PlaceEntries(g1, prev + 2, l[prev + 1..k]);
      assert r == PlaceEntries(g, prev + 1, l[prev..k]);
      MergedTrans(g, g1, l, prev + 1, k, r);
    }
  }

  lemma MergedTrans(g: Log, g1: Log, l: Log, j: nat, k: nat, r: Log)
    requires j <= k <= |l| && Merged(g, l, j, g1) && Merged(g1, l, k, r)
    ensures Merged(g, l, k, r)
  {
    forall x: nat | Agrees(g, l, x) ensures Agrees(r, l, x) {
      assert Agrees(g1, l, x);
    }
    if r == g1 && g1 != g {
      assert r == l[..j];
      assert k == j;
    }
  }

  // ---- the member table ----

  lemma IdsSnoc(ms: seq<Member>, m: Member, p: Member -> bool)
    ensures IdsIf(ms + [m], p) == IdsIf(ms, p) + (if p(m) then {m.id} else {})
  {
    var all := ms + [m];
    assert all[|ms|] == m;
    forall id | id in IdsIf(ms, p) ensures id in IdsIf(all, p) {
      var x :| 0 <= x < |ms| && p(ms[x]) && ms[x].id == id;
      assert all[x] == ms[x];
    }
  }

  lemma {:induction false} CountIsSize(ms: seq<Member>, p: Member -> bool)
    requires DistinctIds(ms)
    ensures CountIf(ms, p) == |IdsIf(ms, p)|
  {
    if ms != [] {
      var k := |ms| - 1;
      assert ms == ms[..k] + [ms[k]];
      IdsSnoc(ms[..k], ms[k], p);
      CountIsSize(ms[..k], p);
      assert ms[k].id !in IdsIf(ms[..k], p);
    }
  }

  /** Two tables with the same ids and classes, row by row. */
  ghost predicate SameRows(ms: seq<Member>, ms': seq<Member>) {
    |ms| == |ms'| && forall x :: 0 <= x < |ms| ==> ms'[x].id == ms[x].id && ms'[x].role == ms[x].role
  }

  lemma TableKept(c: Cluster, i: Id, n: Node, n': Node)
    requires TableInv(c, i, n) && SameRows(n.members, n'.members) && n'.self == n.self
    ensures TableInv(c, i, n')
  {
    assert Ids(n'.members) == Ids(n.members);
    assert IdsIf(n'.members, IsVoter) == IdsIf(n.members, IsVoter);
  }

  /** A count that reaches the table's quorum names a quorum of the cluster. */
  lemma CountQuorum(c: Cluster, i: Id, n: Node, p: Member -> bool)
    requires TableInv(c, i, n)
    requires forall m :: p(m) ==> m.role == Voter
    requires CountIf(n.members, p) >= Quorum(n.members)
    ensures IsQuorum(c, IdsIf(n.members, p))
  {
    CountIsSize(n.members, p);
    CountIsSize(n.members, IsVoter);
    assert IdsIf(n.members, p) <= IdsIf(n.members, IsVoter);
  }
}
