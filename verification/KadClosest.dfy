/** The closest nodes to a target: all nodes in bucket order, sorted by insertion, cut to length. */
module KadClosest {
  import opened Bytes
  import opened Kad

  ghost predicate Sized(ns: seq<Node>, l: nat) { forall i :: 0 <= i < |ns| ==> |ns[i].id| == l }

  /** Nearer to the target than another node. */
  predicate Nearer(t: Id, m: Node, n: Node)
    requires |m.id| == |t| && |n.id| == |t|
  {
    Less(Xor(t, m.id), Xor(t, n.id))
  }

  function All(bs: Buckets): seq<Node> {
    if bs == [] then [] else All(bs[..|bs| - 1]) + bs[|bs| - 1]
  }

  /** Insert from the right, past every node that is farther. */
  function InsertSorted(t: Id, s: seq<Node>, key: Node): (r: seq<Node>)
    requires Sized(s, |t|) && |key.id| == |t|
    ensures Sized(r, |t|) && |r| == |s| + 1
  {
    if s == [] then [key]
    else
      var last := s[|s| - 1];
      if Nearer(t, key, last) then InsertSorted(t, s[..|s| - 1], key) + [last] else s + [key]
  }

  function Sort(t: Id, s: seq<Node>): (r: seq<Node>)
    requires Sized(s, |t|)
    ensures Sized(r, |t|) && |r| == |s|
  {
    if s == [] then [] else InsertSorted(t, Sort(t, s[..|s| - 1]), s[|s| - 1])
  }

  ghost predicate Ascending(t: Id, s: seq<Node>)
    requires Sized(s, |t|)
  {
    forall i, j :: 0 <= i < j < |s| ==> !Nearer(t, s[j], s[i])
  }

  // ---- sorting ----

  lemma NearerFlip(t: Id, a: Node, b: Node, c: Node)
    requires |a.id| == |t| && |b.id| == |t| && |c.id| == |t|
    ensures Nearer(t, a, b) && !Nearer(t, c, b) ==> !Nearer(t, c, a)
    ensures !Nearer(t, b, a) && !Nearer(t, c, b) ==> !Nearer(t, c, a)
    ensures Nearer(t, a, b) ==> !Nearer(t, b, a)
  {
    var x, y, z := Xor(t, a.id), Xor(t, b.id), Xor(t, c.id);
    hide Xor, Less;
    LessTotal(x, y);
    LessTotal(y, z);
    LessTotal(x, z);
    if Less(z, x) && Less(x, y) { LessTransitive(z, x, y); }
  }

  lemma {:induction false} InsertSame(t: Id, s: seq<Node>, key: Node)
    requires Sized(s, |t|) && |key.id| == |t|
    ensures multiset(InsertSorted(t, s, key)) == multiset(s) + multiset{key}
  {
    if s != [] {
      hide Nearer;
      InsertSame(t, s[..|s| - 1], key);
      assert s == s[..|s| - 1] + [s[|s| - 1]];
    }
  }

  /** Every element of the result comes from the input. */
  lemma InsertFrom(t: Id, s: seq<Node>, key: Node, k: nat)
    requires Sized(s, |t|) && |key.id| == |t| && k <= |s|
    ensures InsertSorted(t, s, key)[k] == key || InsertSorted(t, s, key)[k] in s
  {
    InsertSame(t, s, key);
    var r := InsertSorted(t, s, key);
    assert r[k] in multiset(r);
  }

  lemma {:induction false} InsertAscends(t: Id, s: seq<Node>, key: Node)
    requires Sized(s, |t|) && |key.id| == |t| && Ascending(t, s)
    ensures Ascending(t, InsertSorted(t, s, key))
  {
    hide Nearer;
    if s != [] {
      var front, last := s[..|s| - 1], s[|s| - 1];
      var r := InsertSorted(t, s, key);
      if Nearer(t, key, last) {
        InsertAscends(t, front, key);
        forall i | 0 <= i < |r| - 1 ensures !Nearer(t, last, r[i]) {
          InsertFrom(t, front, key, i);
          NearerFlip(t, key, last, last);
        }
      } else {
        forall i | 0 <= i < |s| ensures !Nearer(t, key, s[i]) { NearerFlip(t, s[i], last, key); }
      }
    }
  }

  lemma {:induction false} SortSame(t: Id, s: seq<Node>)
    requires Sized(s, |t|)
    ensures multiset(Sort(t, s)) == multiset(s)
  {
    if s != [] {
      SortSame(t, s[..|s| - 1]);
      InsertSame(t, Sort(t, s[..|s| - 1]), s[|s| - 1]);
      assert s == s[..|s| - 1] + [s[|s| - 1]];
    }
  }

  lemma {:induction false} SortAscends(t: Id, s: seq<Node>)
    requires Sized(s, |t|)
    ensures Ascending(t, Sort(t, s))
  {
    hide Nearer;
    if s != [] {
      SortAscends(t, s[..|s| - 1]);
      InsertAscends(t, Sort(t, s[..|s| - 1]), s[|s| - 1]);
    }
  }

  // ---- all nodes of a table ----

  lemma {:induction false} AllIn(bs: Buckets, n: Node)
    ensures n in All(bs) <==> exists b :: 0 <= b < |bs| && n in bs[b]
  {
    if bs != [] {
      AllIn(bs[..|bs| - 1], n);
      if n in All(bs) && n !in bs[|bs| - 1] {
        var b :| 0 <= b < |bs| - 1 && n in bs[..|bs| - 1][b];
        assert n in bs[b];
      }
      if b :| 0 <= b < |bs| && n in bs[b] {
        if b < |bs| - 1 { assert n in bs[..|bs| - 1][b]; }
      }
    }
  }

  /** The nodes listed are those that lookup finds. */
  lemma AllAreFound(self: Id, bs: Buckets, n: Node)
    requires TableOk(self, bs)
    ensures n in All(bs) <==> |n.id| == |self| && Lookup(self, bs, n.id) == Some(n)
  {
    AllIn(bs, n);
    if n in All(bs) {
      var b :| 0 <= b < |bs| && n in bs[b];
      assert BucketOk(self, bs[b], b);
      var i :| 0 <= i < |bs[b]| && bs[b][i] == n;
      PositionUnique(bs[b], i);
    }
  }

  lemma {:induction false} AllSized(self: Id, bs: Buckets)
    requires self != [] && forall b :: 0 <= b < |bs| ==> BucketOk(self, bs[b], b)
    ensures Sized(All(bs), |self|)
  {
    if bs != [] {
      AllSized(self, bs[..|bs| - 1]);
      assert BucketOk(self, bs[|bs| - 1], |bs| - 1);
    }
  }

  lemma {:induction false} AllDistinct(self: Id, bs: Buckets)
    requires self != [] && forall b :: 0 <= b < |bs| ==> BucketOk(self, bs[b], b)
    ensures DistinctNodes(All(bs))
    ensures Sized(All(bs), |self|) && forall i :: 0 <= i < |All(bs)| ==> BucketOf(self, All(bs)[i].id) < |bs|
  {
    AllSized(self, bs);
    if bs != [] {
      AllDistinct(self, bs[..|bs| - 1]);
      assert BucketOk(self, bs[|bs| - 1], |bs| - 1);
    }
  }

  // ---- the closest nodes ----

  function Closest(bs: Buckets, t: Id, k: nat): seq<Node>
    requires Sized(All(bs), |t|)
  {
    var s := Sort(t, All(bs));
    if |s| < k then s else s[..k]
  }

  lemma {:induction false} StrictlyAscends(t: Id, s: seq<Node>)
    requires Sized(s, |t|) && Ascending(t, s) && DistinctNodes(s)
    ensures forall i, j :: 0 <= i < j < |s| ==> Nearer(t, s[i], s[j])
  {
    forall i, j | 0 <= i < j < |s| ensures Nearer(t, s[i], s[j]) {
      var x, y := Xor(t, s[i].id), Xor(t, s[j].id);
      assert !Nearer(t, s[j], s[i]);
      if x == y { XorInjective(t, s[i].id, s[j].id); }
      hide Less;
      LessTotal(x, y);
    }
  }

  lemma DistinctPermutes(s: seq<Node>, r: seq<Node>)
    requires DistinctNodes(s) && multiset(s) == multiset(r)
    ensures DistinctNodes(r)
  {
    forall i, j | 0 <= i < j < |r| ensures r[i].id != r[j].id {
      if r[i].id == r[j].id {
        assert r[i] in multiset(s) && r[j] in multiset(s);
        var a :| 0 <= a < |s| && s[a] == r[i];
        var b :| 0 <= b < |s| && s[b] == r[j];
        assert a == b;
        Twice(r, i, j);
        AtMostOnce(s, a);
        assert false;
      }
    }
  }

  lemma Twice(r: seq<Node>, i: nat, j: nat)
    requires i < j < |r| && r[i] == r[j]
    ensures multiset(r)[r[i]] >= 2
  {
    assert r == r[..i] + [r[i]] + r[i + 1..];
    assert r[i + 1..][j - i - 1] == r[j];
    assert r[j] in multiset(r[i + 1..]);
  }

  lemma AtMostOnce(s: seq<Node>, a: nat)
    requires DistinctNodes(s) && a < |s|
    ensures multiset(s)[s[a]] == 1
  {
    assert s == s[..a] + [s[a]] + s[a + 1..];
    assert s[a] !in s[..a] && s[a] !in s[a + 1..];
  }

  lemma SameMembers(s: seq<Node>, r: seq<Node>)
    requires multiset(s) == multiset(r)
    ensures |s| == |r| && forall n :: n in s <==> n in r
  {
    assert |multiset(s)| == |s| && |multiset(r)| == |r|;
    forall n ensures n in s <==> n in r { assert n in multiset(s) <==> n in multiset(r); }
  }

  /** The first nodes of a strictly ascending row are nearer than the rest. */
  lemma CutIsNearest(t: Id, s: seq<Node>, m: nat)
    requires Sized(s, |t|) && m <= |s| && forall i, j :: 0 <= i < j < |s| ==> Nearer(t, s[i], s[j])
    ensures forall n :: n in s ==> |n.id| == |t| && (n in s[..m] || forall i :: 0 <= i < m ==> Nearer(t, s[i], n))
  {
    hide Nearer;
    forall n | n in s ensures |n.id| == |t| && (n in s[..m] || forall i :: 0 <= i < m ==> Nearer(t, s[i], n)) {
      var j :| 0 <= j < |s| && s[j] == n;
      if j < m { assert s[..m][j] == n; }
    }
  }

  ghost predicate SameNodes(a: seq<Node>, b: seq<Node>) { |a| == |b| && forall n :: n in a <==> n in b }

  ghost predicate Strict(t: Id, s: seq<Node>) {
    Sized(s, |t|) && forall i, j :: 0 <= i < j < |s| ==> Nearer(t, s[i], s[j])
  }

  lemma SortedWell(self: Id, bs: Buckets, t: Id)
    requires TableOk(self, bs) && |t| == |self|
    ensures Sized(All(bs), |t|)
    ensures SameNodes(All(bs), Sort(t, All(bs))) && Strict(t, Sort(t, All(bs)))
  {
    AllDistinct(self, bs);
    var all := All(bs);
    hide Sort, Nearer, All;
    var s := Sort(t, all);
    SortSame(t, all);
    SortAscends(t, all);
    DistinctPermutes(all, s);
    SameMembers(all, s);
    StrictlyAscends(t, s);
  }

  /** `r` is the `k` nearest of `all`, or all of them: nodes of `all` in strictly ascending distance, and every
      node left out is farther than every node in it. */
  ghost predicate IsNearest(t: Id, all: seq<Node>, k: nat, r: seq<Node>) {
    && Sized(all, |t|) && Sized(r, |t|)
    && |r| == (if |all| < k then |all| else k)
    && (forall i :: 0 <= i < |r| ==> r[i] in all)
    && (forall i, j :: 0 <= i < j < |r| ==> Nearer(t, r[i], r[j]))
    && (forall n :: n in all ==> n in r || forall i :: 0 <= i < |r| ==> Nearer(t, r[i], n))
  }

  lemma CutIs(t: Id, all: seq<Node>, s: seq<Node>, k: nat)
    requires Sized(all, |t|) && SameNodes(all, s) && Strict(t, s)
    ensures IsNearest(t, all, k, if |s| < k then s else s[..k])
  {
    hide Nearer;
    var m := if |s| < k then |s| else k;
    CutIsNearest(t, s, m);
    assert s[..|s|] == s;
    forall i | 0 <= i < m ensures s[..m][i] in all { assert s[i] in s; }
  }

  /** For any table and target, the nodes returned are the nearest ones. */
  lemma ClosestIsNearest(self: Id, bs: Buckets, t: Id, k: nat)
    requires TableOk(self, bs) && |t| == |self|
    ensures Sized(All(bs), |t|) && IsNearest(t, All(bs), k, Closest(bs, t, k))
  {
    SortedWell(self, bs, t);
    hide Sort, Nearer, All, IsNearest, SameNodes, Strict;
    CutIs(t, All(bs), Sort(t, All(bs)), k);
  }
}
