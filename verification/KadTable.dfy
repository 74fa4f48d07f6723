/** The routing table in place: one growing row of nodes per bit of the id. */
module KadTable {
  import opened Bytes
  import opened Kad
  import opened KadClosest

  method Distance(a: Id, b: Id) returns (d: Id)
    requires |a| == |b|
    ensures d == Xor(a, b)
  {
    d := [];
    for i := 0 to |a|
      invariant |d| == i && forall j :: 0 <= j < i ==> d[j] == XorByte(a[j], b[j])
    {
      d := d + [XorByte(a[i], b[i])];
    }
  }

  lemma LessAt(a: Id, b: Id, i: nat)
    requires i < |a| == |b|
    ensures Less(a[i..], b[i..]) == (a[i] < b[i] || (a[i] == b[i] && Less(a[i + 1..], b[i + 1..])))
  {
    assert a[i..][1..] == a[i + 1..] && b[i..][1..] == b[i + 1..];
  }

  /** Compare two distances byte by byte: -1, 0 or 1. */
  method CompareDistance(a: Id, b: Id) returns (c: int)
    requires |a| == |b|
    ensures c == Compare(a, b)
  {
    hide Less;
    assert a[0..] == a && b[0..] == b;
    for i := 0 to |a|
      invariant a[..i] == b[..i]
      invariant Less(a, b) == Less(a[i..], b[i..])
      invariant Less(b, a) == Less(b[i..], a[i..])
    {
      LessAt(a, b, i);
      LessAt(b, a, i);
      if a[i] < b[i] { return -1; }
      if a[i] > b[i] {
        LessTotal(a, b);
        return 1;
      }
      assert a[..i + 1] == a[..i] + [a[i]] && b[..i + 1] == b[..i] + [b[i]];
    }
    assert a[..|a|] == a && b[..|b|] == b;
    LessTotal(a, b);
    c := 0;
  }

  /** Bit `bit` of a byte, counted from the bottom: shift it down and mask. */
  predicate BitSet(x: byte, bit: nat) { (x / Pow2(bit)) % 2 == 1 }

  lemma BitTest(x: byte, bit: nat)
    requires bit <= 7 && HighBit(x) >= 7 - bit
    ensures BitSet(x, bit) == (HighBit(x) == 7 - bit)
  {
    assert Pow2(0) == 1 && Pow2(1) == 2 && Pow2(2) == 4 && Pow2(3) == 8;
    assert Pow2(4) == 16 && Pow2(5) == 32 && Pow2(6) == 64 && Pow2(7) == 128;
  }

  /** Scan a byte from its top bit down. */
  method ScanByte(x: byte) returns (k: nat)
    ensures k == HighBit(x)
  {
    var bit: int := 7;
    while bit >= 0
      invariant -1 <= bit <= 7 && HighBit(x) >= 7 - bit
      decreases bit
    {
      BitTest(x, bit);
      if BitSet(x, bit) { return 7 - bit; }
      bit := bit - 1;
    }
    k := 8;
  }

  /** The bucket of an id: the first bit in which it differs from ours. */
  method BucketIndex(self: Id, id: Id) returns (b: nat)
    requires |self| == |id| && self != []
    ensures b == BucketOf(self, id)
  {
    hide HighBit, Xor;
    var d := Distance(self, id);
    assert d[0..] == d;
    for i := 0 to |d|
      invariant FirstBit(d) == 8 * i + FirstBit(d[i..])
    {
      assert d[i..][1..] == d[i + 1..];
      HighBitZero(d[i]);
      var k := ScanByte(d[i]);
      if k < 8 { return 8 * i + k; }
    }
    b := 8 * |self| - 1;
  }

  class Table {
    const self: Id
    const buckets: array<seq<Node>>

    ghost predicate Valid()
      reads buckets
    {
      TableOk(self, buckets[..])
    }

    constructor (self: Id)
      requires self != []
      ensures this.self == self && Valid() && fresh(buckets) && All(buckets[..]) == []
    {
      this.self := self;
      buckets := new seq<Node>[8 * |self|](_ => []);
      new;
      NoNodes(buckets[..]);
    }

    method Locate(b: nat, id: Id) returns (i: nat)
      requires b < buckets.Length
      ensures i == Position(buckets[b], id, 0)
    {
      i := 0;
      while i < |buckets[b]| && buckets[b][i].id != id
        invariant i <= |buckets[b]| && Position(buckets[b], id, 0) == Position(buckets[b], id, i)
      {
        i := i + 1;
      }
    }

    /** Add a node, or refresh the one with this id. */
    method Insert(id: Id, ip: nat, port: nat, seed: nat, now: nat)
      requires Valid() && |id| == |self|
      modifies buckets
      ensures Valid()
      ensures var b := BucketOf(self, id);
        buckets[..] == old(buckets[..])[b := InsertIn(old(buckets[b]), Node(id, ip, port, seed, now, b))]
      ensures Lookup(self, buckets[..], id) == Some(Node(id, ip, port, seed, now, BucketOf(self, id)))
      ensures forall o :: |o| == |self| && o != id ==> Lookup(self, buckets[..], o) == Lookup(self, old(buckets[..]), o)
    {
      hide TableOk, Lookup;
      assert self != [] && buckets.Length == 8 * |self| by { TableLength(self, buckets[..]); }
      var b := BucketIndex(self, id);
      var n := Node(id, ip, port, seed, now, b);
      InsertKeeps(self, buckets[..], n);
      var i := Locate(b, id);
      if i < |buckets[b]| {
        buckets[b] := buckets[b][i := n];
      } else {
        buckets[b] := buckets[b] + [n];
      }
    }

    /** Take a node out, shifting the ones behind it; whether it was there. */
    method Remove(id: Id) returns (found: bool)
      requires Valid() && |id| == |self|
      modifies buckets
      ensures Valid()
      ensures found == Lookup(self, old(buckets[..]), id).Some?
      ensures Lookup(self, buckets[..], id) == None
      ensures forall o :: |o| == |self| && o != id ==> Lookup(self, buckets[..], o) == Lookup(self, old(buckets[..]), o)
    {
      hide TableOk;
      assert self != [] && buckets.Length == 8 * |self| by { TableLength(self, buckets[..]); }
      RemoveKeeps(self, buckets[..], id);
      var b := BucketIndex(self, id);
      var i := Locate(b, id);
      found := i < |buckets[b]|;
      ghost var before := buckets[..];
      if found {
        buckets[b] := buckets[b][..i] + buckets[b][i + 1..];
      }
      Same(buckets[..], before[b := RemoveIn(before[b], id)]);
    }

    method Collect() returns (all: seq<Node>)
      ensures all == All(buckets[..])
    {
      all := [];
      for i := 0 to buckets.Length
        invariant all == All(buckets[..i])
      {
        assert buckets[..i + 1] == buckets[..i] + [buckets[i]];
        all := all + buckets[i];
      }
      assert buckets[..buckets.Length] == buckets[..];
    }

    /** The nodes closest to a target; nothing when none is asked for. */
    method FindClosest(target: Id, k: int) returns (r: Option<seq<Node>>)
      requires Valid() && |target| == |self|
      ensures r.None? <==> k <= 0
      ensures r.Some? ==> IsNearest(target, All(buckets[..]), k, r.value)
    {
      if k <= 0 { return None; }
      ClosestIsNearest(self, buckets[..], target, k);
      hide IsNearest;
      var all := Collect();
      var a := new Node[|all|](i requires 0 <= i < |all| => all[i]);
      Same(a[..], all);
      SortInPlace(target, a);
      var m := if a.Length < k then a.Length else k;
      r := Some(a[..m]);
      Whole(a[..]);
    }
  }

  lemma TableLength(self: Id, bs: Buckets)
    requires TableOk(self, bs)
    ensures self != [] && |bs| == 8 * |self|
  {
  }

  lemma {:induction false} NoNodes(bs: Buckets)
    requires forall b :: 0 <= b < |bs| ==> bs[b] == []
    ensures All(bs) == []
  {
    if bs != [] { NoNodes(bs[..|bs| - 1]); }
  }

  // ---- insertion sort ----

  method IsNearer(t: Id, m: Node, n: Node) returns (r: bool)
    requires |m.id| == |t| && |n.id| == |t|
    ensures r == Nearer(t, m, n)
  {
    var x := Distance(t, m.id);
    var y := Distance(t, n.id);
    var c := CompareDistance(x, y);
    r := c < 0;
  }

  lemma InsertSnoc(t: Id, s: seq<Node>, last: Node, key: Node)
    requires Sized(s, |t|) && |key.id| == |t| && |last.id| == |t|
    ensures Sized(s + [last], |t|)
    ensures InsertSorted(t, s + [last], key) ==
      if Nearer(t, key, last) then InsertSorted(t, s, key) + [last] else s + [last] + [key]
  {
    hide Nearer;
    assert (s + [last])[..|s|] == s;
  }

  lemma InsertNext(t: Id, s: seq<Node>, key: Node, j: nat)
    requires Sized(s, |t|) && |key.id| == |t| && j < |s|
    requires InsertSorted(t, s, key) == InsertSorted(t, s[..j + 1], key) + s[j + 1..]
    ensures if Nearer(t, key, s[j]) then InsertSorted(t, s, key) == InsertSorted(t, s[..j], key) + s[j..]
            else InsertSorted(t, s, key) == s[..j + 1] + [key] + s[j + 1..]
  {
    hide Nearer, InsertSorted;
    InsertSnoc(t, s[..j], s[j], key);
    Around(s, j);
    Regroup(InsertSorted(t, s[..j], key), s[j], s[j + 1..]);
  }

  lemma Around<T>(s: seq<T>, j: nat)
    requires j < |s|
    ensures s[..j + 1] == s[..j] + [s[j]] && s[j..] == [s[j]] + s[j + 1..]
  {
  }

  lemma Regroup<T>(a: seq<T>, x: T, b: seq<T>)
    ensures a + [x] + b == a + ([x] + b)
  {
  }

  lemma InsertFirst(t: Id, s: seq<Node>, key: Node)
    requires Passed(t, s, key, 0)
    ensures InsertSorted(t, s, key) == s[..0] + [key] + s[0..]
  {
  }

  /** The insertion, when the nodes from `j` on have been passed. */
  ghost predicate Passed(t: Id, s: seq<Node>, key: Node, j: nat) {
    && j <= |s| && |key.id| == |t| && Sized(s, |t|) && Sized(s[..j], |t|)
    && InsertSorted(t, s, key) == InsertSorted(t, s[..j], key) + s[j..]
  }

  lemma PassedStart(t: Id, s: seq<Node>, key: Node)
    requires Sized(s, |t|) && |key.id| == |t|
    ensures Passed(t, s, key, |s|)
  {
    InsertStart(t, s, key);
  }

  lemma PassedNext(t: Id, s: seq<Node>, key: Node, j: nat)
    requires Passed(t, s, key, j) && j > 0
    ensures |s[j - 1].id| == |t|
    ensures if Nearer(t, key, s[j - 1]) then Passed(t, s, key, j - 1)
            else InsertSorted(t, s, key) == s[..j] + [key] + s[j..]
  {
    hide Nearer, InsertSorted;
    SizedAt(s, |t|, j - 1);
    InsertNext(t, s, key, j - 1);
  }

  /** Shift every farther node before `i` one to the right; where the key at `i` belongs. */
  method ShiftPast(t: Id, a: array<Node>, i: nat) returns (j: nat)
    requires i < a.Length && Sized(a[..i], |t|) && |a[i].id| == |t|
    modifies a
    ensures j <= i
    ensures forall k :: 0 <= k < j ==> a[k] == old(a[k])
    ensures forall k :: j <= k < i ==> a[k + 1] == old(a[k])
    ensures forall k :: i < k < a.Length ==> a[k] == old(a[k])
    ensures InsertSorted(t, old(a[..i]), old(a[i])) == old(a[..i])[..j] + [old(a[i])] + old(a[..i])[j..]
  {
    hide Nearer, InsertSorted, Sized;
    ghost var s := a[..i];
    var key := a[i];
    PassedStart(t, s, key);
    j := i;
    while j > 0
      invariant j <= i && Passed(t, s, key, j)
      invariant forall k :: 0 <= k < j ==> a[k] == old(a[k])
      invariant forall k :: j <= k < i ==> a[k + 1] == old(a[k])
      invariant forall k :: i < k < a.Length ==> a[k] == old(a[k])
    {
      PassedNext(t, s, key, j);
      assert a[j - 1] == s[j - 1];
      var nearer := IsNearer(t, key, a[j - 1]);
      if !nearer { return; }
      a[j] := a[j - 1];
      j := j - 1;
    }
    InsertFirst(t, s, key);
  }

  /** Move the key at `i` left past every farther node. */
  method InsertAt(t: Id, a: array<Node>, i: nat)
    requires i < a.Length && Sized(a[..i], |t|) && |a[i].id| == |t|
    modifies a
    ensures a[..i + 1] == InsertSorted(t, old(a[..i]), old(a[i]))
    ensures forall k :: i < k < a.Length ==> a[k] == old(a[k])
  {
    hide InsertSorted, Sized;
    ghost var s := a[..i];
    var key := a[i];
    var j := ShiftPast(t, a, i);
    a[j] := key;
    Assembled(a[..i + 1], s, key, j);
  }

  lemma SizedAt(s: seq<Node>, l: nat, j: nat)
    requires Sized(s, l) && j < |s|
    ensures |s[j].id| == l && Sized(s[..j], l) && Sized(s[..j + 1], l)
  {
  }

  lemma InsertStart(t: Id, s: seq<Node>, key: Node)
    requires Sized(s, |t|) && |key.id| == |t|
    ensures Sized(s[..|s|], |t|) && InsertSorted(t, s, key) == InsertSorted(t, s[..|s|], key) + s[|s|..]
  {
    hide InsertSorted;
    Whole(s);
    Whole(InsertSorted(t, s, key));
  }

  // Facts about sequences of anything.

  lemma Whole<T>(s: seq<T>)
    ensures s[..|s|] == s && s[|s|..] == [] && s + [] == s
  {
  }

  lemma Same<T>(x: seq<T>, y: seq<T>)
    requires |x| == |y| && forall i :: 0 <= i < |x| ==> x[i] == y[i]
    ensures x == y
  {
  }

  lemma Assembled<T>(x: seq<T>, s: seq<T>, key: T, j: nat)
    requires |x| == |s| + 1 && j <= |s| && x[j] == key
    requires (forall k :: 0 <= k < j ==> x[k] == s[k]) && (forall k :: j <= k < |s| ==> x[k + 1] == s[k])
    ensures x == s[..j] + [key] + s[j..]
  {
    var y := s[..j] + [key] + s[j..];
    forall k | 0 <= k < |x| ensures x[k] == y[k] {
      if k > j { assert x[(k - 1) + 1] == s[k - 1]; }
    }
  }

  lemma PrefixOfPrefix<T>(s: seq<T>, i: nat)
    requires i < |s|
    ensures s[..i + 1][..i] == s[..i]
  {
  }

  lemma SortNext(t: Id, s: seq<Node>, i: nat)
    requires Sized(s, |t|) && i < |s|
    ensures Sort(t, s[..i + 1]) == InsertSorted(t, Sort(t, s[..i]), s[i])
  {
    hide InsertSorted;
    PrefixOfPrefix(s, i);
  }

  lemma SortOne(t: Id, s: seq<Node>)
    requires Sized(s, |t|) && s != []
    ensures Sort(t, s[..1]) == s[..1]
  {
    assert s[..1][..0] == [];
  }

  method SortInPlace(t: Id, a: array<Node>)
    requires Sized(a[..], |t|)
    modifies a
    ensures a[..] == Sort(t, old(a[..]))
  {
    ghost var s := a[..];
    if a.Length == 0 { return; }
    SortOne(t, s);
    hide Sort, InsertSorted;
    for i := 1 to a.Length
      invariant a[..i] == Sort(t, s[..i])
      invariant forall k :: i <= k < a.Length ==> a[k] == s[k]
    {
      SortNext(t, s, i);
      InsertAt(t, a, i);
    }
    Whole(s);
    Whole(a[..]);
  }
}
