/** What the metric means on the bits of the ids: exclusive or, the nearer of two ids, and the bucket of an id, each
    said without the distance. */
module KadMetric {
  import opened Bytes
  import opened Kad
  import opened KadClosest

  /** Bit `k` of a number, counted from the lowest. */
  predicate Bit(x: nat, k: nat) { if k == 0 then x % 2 == 1 else Bit(x / 2, k - 1) }

  /** Bit `j` of a byte, counted from the highest. */
  predicate Top(x: byte, j: nat)
    requires j < 8
  {
    Bit(x, 7 - j)
  }

  /** Bit `p` of an id, counted from the first bit of its first byte. */
  predicate BitAt(id: Id, p: nat)
    requires p < 8 * |id|
  {
    Top(id[p / 8], p % 8)
  }

  /** Two ids agree before bit `p` and differ there. */
  ghost predicate FirstDiff(a: Id, b: Id, p: nat)
    requires |a| == |b|
  {
    && p < 8 * |a| && BitAt(a, p) != BitAt(b, p)
    && forall q: nat :: q < p ==> BitAt(a, q) == BitAt(b, q)
  }

  // ---- bits of a byte ----

  lemma {:induction false} XorBitsBit(a: nat, b: nat, n: nat, k: nat)
    requires k < n
    ensures Bit(XorBits(a, b, n), k) <==> Bit(a, k) != Bit(b, k)
    decreases n
  {
    if k > 0 { XorBitsBit(a / 2, b / 2, n - 1, k - 1); }
  }

  /** The top bit says on which side of its weight a number lies. */
  lemma {:induction false} TopBit(x: nat, n: nat)
    requires x < Pow2(n + 1)
    ensures Bit(x, n) <==> x >= Pow2(n)
  {
    if n > 0 { TopBit(x / 2, n - 1); }
  }

  lemma {:induction false} BitsEqual(a: nat, b: nat, n: nat)
    requires a < Pow2(n) && b < Pow2(n)
    requires forall k: nat :: k < n ==> Bit(a, k) == Bit(b, k)
    ensures a == b
  {
    if n > 0 {
      forall k: nat | k < n - 1 ensures Bit(a / 2, k) == Bit(b / 2, k) {
        assert Bit(a, k + 1) == Bit(b, k + 1);
      }
      BitsEqual(a / 2, b / 2, n - 1);
      assert Bit(a, 0) == Bit(b, 0);
    }
  }

  /** The highest bit in which two numbers differ decides which is smaller. */
  lemma {:induction false} HighestDecides(a: nat, b: nat, n: nat, k: nat)
    requires a < Pow2(n) && b < Pow2(n) && k < n && Bit(a, k) != Bit(b, k)
    requires forall j: nat :: k < j < n ==> Bit(a, j) == Bit(b, j)
    ensures a != b && (a < b <==> Bit(b, k))
    decreases n
  {
    forall j: nat | k <= j < n - 1 ensures Bit(a / 2, j) == Bit(b / 2, j) {
      assert Bit(a, j + 1) == Bit(b, j + 1);
    }
    if k == 0 { BitsEqual(a / 2, b / 2, n - 1); } else { HighestDecides(a / 2, b / 2, n - 1, k - 1); }
  }

  lemma TopsEqual(a: byte, b: byte)
    requires forall j: nat :: j < 8 ==> Top(a, j) == Top(b, j)
    ensures a == b
  {
    Pow2Byte();
    forall k: nat | k < 8 ensures Bit(a, k) == Bit(b, k) { assert Top(a, 7 - k) == Top(b, 7 - k); }
    BitsEqual(a, b, 8);
  }

  lemma TopDecides(a: byte, b: byte, p: nat)
    requires p < 8 && Top(a, p) != Top(b, p) && forall j: nat :: j < p ==> Top(a, j) == Top(b, j)
    ensures a != b && (a < b <==> Top(b, p))
  {
    Pow2Byte();
    forall k: nat | 7 - p < k < 8 ensures Bit(a, k) == Bit(b, k) { assert Top(a, 7 - k) == Top(b, 7 - k); }
    HighestDecides(a, b, 8, 7 - p);
  }

  // ---- bits of an id ----

  lemma BitShift(d: Id, q: nat)
    requires d != [] && q < 8 * (|d| - 1)
    ensures BitAt(d, q + 8) == BitAt(d[1..], q)
  {
    assert (q + 8) / 8 == q / 8 + 1 && (q + 8) % 8 == q % 8;
  }

  /** Exclusive or, bit by bit. */
  lemma XorBit(a: Id, b: Id, p: nat)
    requires |a| == |b| && p < 8 * |a|
    ensures BitAt(Xor(a, b), p) <==> BitAt(a, p) != BitAt(b, p)
  {
    XorBitsBit(a[p / 8], b[p / 8], 8, 7 - p % 8);
  }

  lemma AllBits(a: Id, b: Id)
    requires |a| == |b| && forall p: nat :: p < 8 * |a| ==> BitAt(a, p) == BitAt(b, p)
    ensures a == b
  {
    hide Top;
    forall i | 0 <= i < |a| ensures a[i] == b[i] {
      forall j: nat | j < 8 ensures Top(a[i], j) == Top(b[i], j) {
        var p := 8 * i + j;
        assert p / 8 == i && p % 8 == j;
        assert BitAt(a, p) == BitAt(b, p);
      }
      TopsEqual(a[i], b[i]);
    }
  }

  /** The distance is symmetric, and adding it to one id gives the other. */
  lemma XorLaws(a: Id, b: Id)
    requires |a| == |b|
    ensures Xor(a, b) == Xor(b, a) && Xor(Xor(a, b), b) == a
  {
    hide Xor, BitAt;
    forall p: nat | p < 8 * |a|
      ensures BitAt(Xor(a, b), p) == BitAt(Xor(b, a), p) && BitAt(Xor(Xor(a, b), b), p) == BitAt(a, p) {
      XorBit(a, b, p);
      XorBit(b, a, p);
      XorBit(Xor(a, b), b, p);
    }
    AllBits(Xor(a, b), Xor(b, a));
    AllBits(Xor(Xor(a, b), b), a);
  }

  // ---- the bucket ----

  lemma HighBitIs(x: byte)
    ensures var k := HighBit(x);
      && (k < 8 ==> Top(x, k))
      && forall j: nat :: j < k && j < 8 ==> !Top(x, j)
  {
    var k := HighBit(x);
    HighBitWeight(x);
    Pow2Byte();
    hide HighBit, Bit, Pow2;
    if k < 8 { TopBit(x, 7 - k); }
    forall j: nat | j < k && j < 8 ensures !Top(x, j) {
      if k < 8 {
        Pow2Rises(8 - k, 7 - j);
        Pow2Rises(7 - j, 8 - j);
        TopBit(x, 7 - j);
      } else {
        NoBit(7 - j);
      }
    }
  }

  lemma {:induction false} NoBit(k: nat)
    ensures !Bit(0, k)
  {
    if k > 0 { NoBit(k - 1); }
  }

  lemma {:induction false} Pow2Rises(m: nat, n: nat)
    requires m <= n
    ensures Pow2(m) <= Pow2(n)
    decreases n
  {
    if m < n { Pow2Rises(m, n - 1); }
  }

  lemma HighBitWeight(x: byte)
    ensures var k := HighBit(x); if k < 8 then Pow2(7 - k) <= x < Pow2(8 - k) else x == 0
  {
    assert Pow2(2) == 4 && Pow2(4) == 4 * Pow2(2) && Pow2(6) == 4 * Pow2(4) && Pow2(8) == 4 * Pow2(6);
    assert Pow2(1) == 2 && Pow2(3) == 8 && Pow2(5) == 4 * Pow2(3) && Pow2(7) == 4 * Pow2(5);
  }

  /** No bit before `p` is set. */
  ghost predicate ClearBefore(d: Id, p: nat)
    requires p <= 8 * |d|
  {
    forall q: nat :: q < p ==> !BitAt(d, q)
  }

  /** The first bit set in a distance: it is set, and none before it is. */
  lemma {:induction false} FirstBitIs(d: Id)
    ensures var p := FirstBit(d); ClearBefore(d, p) && (p < 8 * |d| ==> BitAt(d, p))
  {
    hide Top;
    if d != [] {
      HighBitZero(d[0]);
      HighBitIs(d[0]);
      hide HighBit;
      if d[0] == 0 {
        FirstBitIs(d[1..]);
        var p := FirstBit(d[1..]);
        if p < 8 * |d[1..]| { BitShift(d, p); }
        forall q: nat | q < p + 8 ensures !BitAt(d, q) {
          if q >= 8 { BitShift(d, q - 8); }
        }
      }
    }
  }

  lemma DistanceZero(a: Id, b: Id)
    requires |a| == |b|
    ensures FirstBit(Xor(a, b)) == 8 * |a| <==> a == b
    ensures (forall i :: 0 <= i < |a| ==> Xor(a, b)[i] == 0) <==> a == b
  {
    FirstBitZero(Xor(a, b));
    FirstBitIs(Xor(a, b));
    hide FirstBit, Xor, BitAt;
    var p := FirstBit(Xor(a, b));
    if p == 8 * |a| {
      forall q: nat | q < p ensures BitAt(a, q) == BitAt(b, q) { XorBit(a, b, q); }
      AllBits(a, b);
    } else {
      XorBit(a, b, p);
    }
  }

  /** Another id is in the bucket of the first bit in which it differs from ours; our own is in the last one. */
  lemma BucketExact(self: Id, id: Id)
    requires |self| == |id| && self != []
    ensures if id == self then BucketOf(self, id) == 8 * |self| - 1 else FirstDiff(self, id, BucketOf(self, id))
  {
    DistanceZero(self, id);
    FirstBitIs(Xor(self, id));
    hide FirstBit, Xor, BitAt;
    var p := FirstBit(Xor(self, id));
    if id != self {
      XorBit(self, id, p);
      forall q: nat | q < p ensures BitAt(self, q) == BitAt(id, q) { XorBit(self, id, q); }
    }
  }

  // ---- nearer ----

  /** The first bit in which two byte strings differ decides which comes first. */
  lemma {:induction false} FirstDecides(x: Id, y: Id, p: nat)
    requires |x| == |y| && FirstDiff(x, y, p)
    ensures Less(x, y) <==> BitAt(y, p)
    decreases |x|
  {
    hide Top;
    forall j: nat | j < 8 && j < p ensures Top(x[0], j) == Top(y[0], j) { assert BitAt(x, j) == BitAt(y, j); }
    if p < 8 {
      TopDecides(x[0], y[0], p);
    } else {
      TopsEqual(x[0], y[0]);
      DiffShift(x, y, p - 8);
      BitShift(y, p - 8);
      FirstDecides(x[1..], y[1..], p - 8);
    }
  }

  lemma DiffShift(x: Id, y: Id, p: nat)
    requires |x| == |y| && FirstDiff(x, y, p + 8)
    ensures FirstDiff(x[1..], y[1..], p)
  {
    hide BitAt;
    BitShift(x, p);
    BitShift(y, p);
    forall q: nat | q < p ensures BitAt(x[1..], q) == BitAt(y[1..], q) {
      BitShift(x, q);
      BitShift(y, q);
      assert BitAt(x, q + 8) == BitAt(y, q + 8);
    }
  }

  /** Seen from anywhere, two distances first differ where the ids do. */
  lemma DiffSeen(t: Id, a: Id, b: Id, p: nat)
    requires |t| == |a| == |b| && FirstDiff(a, b, p)
    ensures FirstDiff(Xor(t, a), Xor(t, b), p)
  {
    hide Xor, BitAt;
    XorBit(t, a, p);
    XorBit(t, b, p);
    forall q: nat | q < p ensures BitAt(Xor(t, a), q) == BitAt(Xor(t, b), q) {
      XorBit(t, a, q);
      XorBit(t, b, q);
    }
  }

  /** Of two nodes the nearer to a target is the one that has the target's bit where the two first differ. */
  lemma NearerExact(t: Id, m: Node, n: Node)
    requires |t| == |m.id| == |n.id| && m.id != n.id
    ensures exists p: nat :: FirstDiff(m.id, n.id, p) && (Nearer(t, m, n) <==> BitAt(m.id, p) == BitAt(t, p))
  {
    var a, b := m.id, n.id;
    var p := BucketOf(a, b);
    BucketExact(a, b);
    DiffSeen(t, a, b, p);
    FirstDecides(Xor(t, a), Xor(t, b), p);
    XorBit(t, b, p);
    hide Xor, BitAt, BucketOf, Less;
  }
}
