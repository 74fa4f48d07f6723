/** Segments of the reliable stream on the wire: header, flags, selective-ack bitmap. */
module StreamWire {
  import opened Bytes

  const F_DATA: byte := 1
  const F_ACK: byte := 2
  const F_FIN: byte := 4
  const F_SACK: byte := 8
  const HEADER: nat := 11
  const SACK_BYTES: nat := 8

  predicate HasData(f: byte) { f % 2 == 1 }
  predicate HasAck(f: byte) { f / 2 % 2 == 1 }
  predicate HasFin(f: byte) { f / 4 % 2 == 1 }
  predicate HasSack(f: byte) { f / 8 % 2 == 1 }

  function WithAck(f: byte): (g: byte)
    ensures HasAck(g) && HasData(g) == HasData(f) && HasFin(g) == HasFin(f) && HasSack(g) == HasSack(f)
  {
    if HasAck(f) then f else f + 2
  }

  /** A parsed segment. */
  datatype Wire = Wire(flags: byte, seqno: nat, ack: nat, rwnd: nat, body: seq<byte>)

  predicate WireOk(w: Wire) {
    w.seqno < 0x1_0000_0000 && w.ack < 0x1_0000_0000 && w.rwnd < 0x1_0000
  }

  function Serialize(w: Wire): (b: seq<byte>)
    ensures |b| == HEADER + |w.body|
  {
    [w.flags] + Be(w.seqno, 4) + Be(w.ack, 4) + Be(w.rwnd, 2) + w.body
  }

  function Parse(b: seq<byte>): Option<Wire> {
    if |b| < HEADER then None
    else Some(Wire(b[0], GetBe(b, 1, 4), GetBe(b, 5, 4), GetBe(b, 9, 2), b[HEADER..]))
  }

  lemma ParseSerialize(w: Wire)
    requires WireOk(w)
    ensures Parse(Serialize(w)) == Some(w)
  {
    Pow256Values();
    var b := Serialize(w);
    assert b[1..5] == Be(w.seqno, 4) && b[5..9] == Be(w.ack, 4) && b[9..11] == Be(w.rwnd, 2);
    GetBeAt(b, 1, 4, w.seqno);
    GetBeAt(b, 5, 4, w.ack);
    GetBeAt(b, 9, 2, w.rwnd);
    assert b[HEADER..] == w.body;
  }

  // ---- the selective-ack bitmap ----

  function Pow2(n: nat): (p: nat)
    ensures p >= 1
  {
    if n == 0 then 1 else 2 * Pow2(n - 1)
  }

  predicate TestBit(bm: nat, i: nat) {
    if i == 0 then bm % 2 == 1 else TestBit(bm / 2, i - 1)
  }

  /** The bitmap with bit `i` set where `has[i]`. */
  function Bitmap(has: seq<bool>): (bm: nat)
    ensures bm < Pow2(|has|)
  {
    if has == [] then 0 else (if has[0] then 1 else 0) + 2 * Bitmap(has[1..])
  }

  /** Each bit of the bitmap says what it stands for. */
  lemma {:induction false} BitmapBits(has: seq<bool>, i: nat)
    requires i < |has|
    ensures TestBit(Bitmap(has), i) == has[i]
  {
    if i > 0 {
      assert Bitmap(has) / 2 == Bitmap(has[1..]);
      BitmapBits(has[1..], i - 1);
    }
  }

  lemma Pow2Plus8(n: nat)
    ensures Pow2(n + 8) == 256 * Pow2(n)
  {
    assert Pow2(n + 2) == 4 * Pow2(n);
    assert Pow2(n + 4) == 4 * Pow2(n + 2);
    assert Pow2(n + 6) == 4 * Pow2(n + 4);
  }

  lemma {:induction false} Pow2In256(n: nat)
    ensures Pow2(8 * n) == Pow256(n)
  {
    if n > 0 {
      Pow2In256(n - 1);
      Pow2Plus8(8 * (n - 1));
    }
  }

  /** A 63-bit bitmap survives the trip through eight octets. */
  lemma BitmapWire(has: seq<bool>)
    requires |has| == 63
    ensures UnBe(Be(Bitmap(has), 8)) == Bitmap(has)
  {
    Pow2In256(8);
    assert Pow2(64) == 2 * Pow2(63);
    UnBeBe(Bitmap(has), 8);
  }
}
