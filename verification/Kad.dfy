/** The Kademlia metric and the buckets it induces: one per bit, by the first bit that differs from our own id. */
module Kad {
  import opened Bytes

  type Id = seq<byte>

  // ---- the metric ----

  /** Exclusive or of the `n` low bits. */
  function XorBits(a: nat, b: nat, n: nat): (x: nat)
  {
    if n == 0 then 0 else 2 * XorBits(a / 2, b / 2, n - 1) + (if a % 2 != b % 2 then 1 else 0)
  }

  function Pow2(n: nat): (p: nat)
    ensures p >= 1
  {
    if n == 0 then 1 else 2 * Pow2(n - 1)
  }

  lemma {:induction false} XorBelow(a: nat, b: nat, n: nat)
    ensures XorBits(a, b, n) < Pow2(n)
  {
    if n > 0 { XorBelow(a / 2, b / 2, n - 1); }
  }

  lemma Pow2Byte()
    ensures Pow2(8) == 256
  {
    assert Pow2(4) == 16 && Pow2(6) == 4 * Pow2(4);
  }

  function XorByte(a: byte, b: byte): byte {
    XorBelow(a, b, 8);
    Pow2Byte();
    XorBits(a, b, 8)
  }

  function Xor(a: Id, b: Id): (d: Id)
    requires |a| == |b|
    ensures |d| == |a| && forall i :: 0 <= i < |d| ==> d[i] == XorByte(a[i], b[i])
  {
    if a == [] then [] else [XorByte(a[0], b[0])] + Xor(a[1..], b[1..])
  }

  /** Lexicographic order, most significant byte first. */
  predicate Less(a: Id, b: Id)
    requires |a| == |b|
  {
    a != [] && (a[0] < b[0] || (a[0] == b[0] && Less(a[1..], b[1..])))
  }

  function Compare(a: Id, b: Id): int
    requires |a| == |b|
  {
    if Less(a, b) then -1 else if a == b then 0 else 1
  }

  lemma {:induction false} LessTotal(a: Id, b: Id)
    requires |a| == |b|
    ensures Less(a, b) || a == b || Less(b, a)
    ensures !(Less(a, b) && Less(b, a)) && !Less(a, a)
  {
    if a != [] {
      LessTotal(a[1..], b[1..]);
      LessTotal(a[1..], a[1..]);
      assert a == [a[0]] + a[1..] && b == [b[0]] + b[1..];
    }
  }

  lemma {:induction false} LessTransitive(a: Id, b: Id, c: Id)
    requires |a| == |b| == |c| && Less(a, b) && Less(b, c)
    ensures Less(a, c)
  {
    if a[0] == b[0] == c[0] { LessTransitive(a[1..], b[1..], c[1..]); }
  }

  /** Distinct ids are at distinct distances from anything. */
  lemma XorInjective(t: Id, a: Id, b: Id)
    requires |t| == |a| == |b| && Xor(t, a) == Xor(t, b)
    ensures a == b
  {
    hide Xor, XorByte;
    forall i | 0 <= i < |a| ensures a[i] == b[i] {
      assert Xor(t, a)[i] == Xor(t, b)[i];
      XorCancel(t[i], a[i], b[i]);
    }
  }

  lemma XorCancel(t: byte, a: byte, b: byte)
    requires XorByte(t, a) == XorByte(t, b)
    ensures a == b
  {
    Pow2Byte();
    XorBitsCancel(t, a, b, 8);
  }

  lemma {:induction false} XorBitsCancel(t: nat, a: nat, b: nat, n: nat)
    requires XorBits(t, a, n) == XorBits(t, b, n) && a < Pow2(n) && b < Pow2(n)
    ensures a == b
  {
    if n > 0 { XorBitsCancel(t / 2, a / 2, b / 2, n - 1); }
  }

  // ---- the first differing bit ----

  /** Position of the highest bit set in a byte, counted from the top; 8 when there is none. */
  function HighBit(x: byte): (k: nat)
    ensures k <= 8
  {
    if x >= 128 then 0
    else if x >= 64 then 1
    else if x >= 32 then 2
    else if x >= 16 then 3
    else if x >= 8 then 4
    else if x >= 4 then 5
    else if x >= 2 then 6
    else if x >= 1 then 7
    else 8
  }

  lemma HighBitZero(x: byte)
    ensures HighBit(x) == 8 <==> x == 0
  {
  }

  lemma HighBitOrder(x: byte, y: byte)
    requires HighBit(x) < HighBit(y)
    ensures y < x
  {
  }

  /** Position of the first bit set in a distance; its length in bits when it is zero. */
  function FirstBit(d: Id): (p: nat)
    ensures p <= 8 * |d|
  {
    if d == [] then 0 else if d[0] != 0 then HighBit(d[0]) else 8 + FirstBit(d[1..])
  }

  lemma {:induction false} FirstBitOrder(x: Id, y: Id)
    requires |x| == |y| && FirstBit(x) < FirstBit(y)
    ensures Less(y, x)
  {
    if x != [] {
      HighBitZero(x[0]);
      HighBitZero(y[0]);
      if x[0] == 0 {
        assert y[0] == 0;
        FirstBitOrder(x[1..], y[1..]);
      } else if y[0] != 0 {
        HighBitOrder(x[0], y[0]);
      }
    }
  }

  lemma {:induction false} FirstBitZero(d: Id)
    ensures FirstBit(d) == 8 * |d| <==> forall i :: 0 <= i < |d| ==> d[i] == 0
  {
    if d != [] {
      FirstBitZero(d[1..]);
      HighBitZero(d[0]);
      if FirstBit(d) == 8 * |d| {
        forall i | 0 <= i < |d| ensures d[i] == 0 { assert i > 0 ==> d[i] == d[1..][i - 1]; }
      } else if d[0] == 0 {
        var i :| 0 <= i < |d| - 1 && d[1..][i] != 0;
        assert d[i + 1] != 0;
      }
    }
  }

  /** The bucket of an id; our own id goes with the nearest ones. */
  function BucketOf(self: Id, id: Id): (b: nat)
    requires |self| == |id| && self != []
    ensures b < 8 * |self|
  {
    var p := FirstBit(Xor(self, id));
    if p == 8 * |self| then 8 * |self| - 1 else p
  }

  /** A higher bucket means strictly nearer. */
  lemma BucketOrder(self: Id, a: Id, b: Id)
    requires |self| == |a| == |b| && self != [] && BucketOf(self, a) < BucketOf(self, b)
    ensures Less(Xor(self, b), Xor(self, a))
  {
    FirstBitOrder(Xor(self, a), Xor(self, b));
  }

  // ---- the table ----

  datatype Node = Node(id: Id, ip: nat, port: nat, seed: nat, lastSeen: nat, bucket: nat)

  type Buckets = seq<seq<Node>>

  ghost predicate DistinctNodes(ns: seq<Node>) {
    forall i, j :: 0 <= i < j < |ns| ==> ns[i].id != ns[j].id
  }

  ghost predicate BucketOk(self: Id, ns: seq<Node>, b: nat)
    requires self != []
  {
    && DistinctNodes(ns)
    && forall i :: 0 <= i < |ns| ==> |ns[i].id| == |self| && ns[i].bucket == b && BucketOf(self, ns[i].id) == b
  }

  ghost predicate TableOk(self: Id, bs: Buckets) {
    && self != [] && |bs| == 8 * |self|
    && forall b :: 0 <= b < |bs| ==> BucketOk(self, bs[b], b)
  }

  function Position(ns: seq<Node>, id: Id, i: nat): (r: nat)
    requires i <= |ns|
    ensures i <= r <= |ns| && (r < |ns| ==> ns[r].id == id)
    ensures forall j :: i <= j < r ==> ns[j].id != id
    decreases |ns| - i
  {
    if i == |ns| || ns[i].id == id then i else Position(ns, id, i + 1)
  }

  function Lookup(self: Id, bs: Buckets, id: Id): Option<Node>
    requires self != [] && |bs| == 8 * |self| && |id| == |self|
  {
    var ns := bs[BucketOf(self, id)];
    var i := Position(ns, id, 0);
    if i < |ns| then Some(ns[i]) else None
  }

  function InsertIn(ns: seq<Node>, n: Node): seq<Node> {
    var i := Position(ns, n.id, 0);
    if i < |ns| then ns[i := n] else ns + [n]
  }

  function RemoveIn(ns: seq<Node>, id: Id): seq<Node> {
    var i := Position(ns, id, 0);
    if i < |ns| then ns[..i] + ns[i + 1..] else ns
  }

  lemma PositionUnique(ns: seq<Node>, i: nat)
    requires DistinctNodes(ns) && i < |ns|
    ensures Position(ns, ns[i].id, 0) == i
  {
    var r := Position(ns, ns[i].id, 0);
    assert r <= i;
  }

  /** Insertion keeps ids unique and in their bucket, sets this id's node and leaves every other id's. */
  lemma InsertKeeps(self: Id, bs: Buckets, n: Node)
    requires TableOk(self, bs) && |n.id| == |self| && n.bucket == BucketOf(self, n.id)
    ensures var r := bs[n.bucket := InsertIn(bs[n.bucket], n)];
      && TableOk(self, r)
      && Lookup(self, r, n.id) == Some(n)
      && forall id :: |id| == |self| && id != n.id ==> Lookup(self, r, id) == Lookup(self, bs, id)
  {
    var ns := bs[n.bucket];
    assert BucketOk(self, ns, n.bucket);
    var ms := InsertIn(ns, n);
    assert BucketOk(self, ms, n.bucket);
    var r := bs[n.bucket := ms];
    forall b | 0 <= b < |r| ensures BucketOk(self, r[b], b) { assert BucketOk(self, bs[b], b); }
    InsertFinds(ns, n);
    forall id | |id| == |self| && id != n.id ensures Lookup(self, r, id) == Lookup(self, bs, id) {
      if BucketOf(self, id) == n.bucket { InsertOthers(ns, n, id); }
    }
  }

  lemma InsertFinds(ns: seq<Node>, n: Node)
    requires DistinctNodes(ns)
    ensures var ms := InsertIn(ns, n); var i := Position(ms, n.id, 0); i < |ms| && ms[i] == n
  {
    var ms, i := InsertIn(ns, n), Position(ns, n.id, 0);
    assert ms[i] == n;
    var r := Position(ms, n.id, 0);
    assert r <= i;
    assert forall j :: 0 <= j < i ==> ms[j] == ns[j];
  }

  lemma InsertOthers(ns: seq<Node>, n: Node, id: Id)
    requires DistinctNodes(ns) && id != n.id
    ensures var ms := InsertIn(ns, n); var i, j := Position(ns, id, 0), Position(ms, id, 0);
      (i < |ns|) == (j < |ms|) && (i < |ns| ==> ms[j] == ns[i])
  {
    var ms := InsertIn(ns, n);
    assert DistinctNodes(ms);
    var i, j := Position(ns, id, 0), Position(ms, id, 0);
    if i < |ns| {
      assert ms[i] == ns[i];
      PositionUnique(ms, i);
    }
  }

  lemma RemoveDistinct(ns: seq<Node>, id: Id)
    requires DistinctNodes(ns)
    ensures DistinctNodes(RemoveIn(ns, id)) && Position(RemoveIn(ns, id), id, 0) == |RemoveIn(ns, id)|
  {
    var i, ms := Position(ns, id, 0), RemoveIn(ns, id);
    if i < |ns| {
      forall k | 0 <= k < |ms| ensures ms[k] == ns[if k < i then k else k + 1] {}
    }
  }

  lemma RemoveOthers(ns: seq<Node>, id: Id, other: Id)
    requires DistinctNodes(ns) && id != other
    ensures var ms := RemoveIn(ns, id); var i, j := Position(ns, other, 0), Position(ms, other, 0);
      (i < |ns|) == (j < |ms|) && (i < |ns| ==> ms[j] == ns[i])
  {
    var k, ms := Position(ns, id, 0), RemoveIn(ns, id);
    RemoveDistinct(ns, id);
    var i, j := Position(ns, other, 0), Position(ms, other, 0);
    if k < |ns| {
      if i < |ns| {
        var at := if i < k then i else i - 1;
        assert ms[at] == ns[i];
        PositionUnique(ms, at);
      }
    }
  }

  /** Removal takes out exactly this id. */
  lemma RemoveKeeps(self: Id, bs: Buckets, id: Id)
    requires TableOk(self, bs) && |id| == |self|
    ensures var b := BucketOf(self, id);
      var r := bs[b := RemoveIn(bs[b], id)];
      && TableOk(self, r)
      && Lookup(self, r, id) == None
      && forall o :: |o| == |self| && o != id ==> Lookup(self, r, o) == Lookup(self, bs, o)
  {
    var b := BucketOf(self, id);
    var ns := bs[b];
    assert BucketOk(self, ns, b);
    RemoveDistinct(ns, id);
    var ms := RemoveIn(ns, id);
    assert BucketOk(self, ms, b);
    var r := bs[b := ms];
    forall c | 0 <= c < |r| ensures BucketOk(self, r[c], c) { assert BucketOk(self, bs[c], c); }
    forall o | |o| == |self| && o != id ensures Lookup(self, r, o) == Lookup(self, bs, o) {
      if BucketOf(self, o) == b { RemoveOthers(ns, id, o); }
    }
  }
}
