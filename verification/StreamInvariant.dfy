/** What each endpoint of a stream owes to the sequence of segments cut so far in either direction. */
module StreamInvariant {
  import opened Bytes
  import opened StreamWire
  import opened StreamStep

  const HALF: nat := 0x8000_0000

  /** What a sequence number stands for, once given out. */
  datatype Piece = Piece(data: seq<byte>, fin: bool)

  function Concat(ps: seq<Piece>): seq<byte> {
    if ps == [] then [] else Concat(ps[..|ps| - 1]) + ps[|ps| - 1].data
  }

  lemma {:induction false} ConcatSplit(a: seq<Piece>, b: seq<Piece>)
    ensures Concat(a + b) == Concat(a) + Concat(b)
  {
    if b == [] {
      assert a + b == a;
    } else {
      var k := |b| - 1;
      ConcatSplit(a, b[..k]);
      assert (a + b)[..|a + b| - 1] == a + b[..k];
    }
  }

  lemma ConcatAt(ps: seq<Piece>, k: nat)
    requires k < |ps|
    ensures Concat(ps[..k + 1]) == Concat(ps[..k]) + ps[k].data
  {
    assert ps[..k + 1][..k] == ps[..k];
  }

  ghost predicate PieceOk(p: Piece) {
    |p.data| <= PAYLOAD && (p.fin <==> p.data == [])
  }

  // ---- 32-bit numbers far from the wrap ----

  lemma Signed(a: nat, b: nat)
    requires a < HALF && b < HALF
    ensures S32(a - b) == a - b && U32(a) == a && (a >= b ==> U32(a - b) == a - b)
  {
  }

  lemma SlotsApart(p: nat, q: nat)
    requires p < q < p + WIN
    ensures p % WIN != q % WIN
  {
  }

  // ---- the sending side ----

  ghost predicate SlotIs(s: Seg, q: nat, p: Piece) {
    && s.seqno == q && s.data == p.data
    && HasFin(s.flags) == p.fin && HasData(s.flags) == !p.fin && !HasSack(s.flags)
  }

  ghost predicate SendInv(e: End, ps: seq<Piece>)
    requires |e.sbuf| == WIN
  {
    && |ps| < HALF && e.nxt == |ps|
    && e.una <= e.nxt <= e.una + WIN
    && e.written == Concat(ps) + e.pend
    && (forall q :: 0 <= q < |ps| ==> PieceOk(ps[q]))
    && (forall q {:trigger ps[q]} :: e.una <= q < e.nxt ==> SlotIs(e.sbuf[q % WIN], q, ps[q]))
  }

  // ---- the receiving side ----

  ghost predicate HeldSlot(e: End, j: nat, ps: seq<Piece>)
    requires |e.rbuf| == WIN && j < WIN
  {
    var r := e.rbuf[j];
    r.present ==>
      && r.seqno % WIN == j && e.rcvNxt <= r.seqno < e.rcvNxt + WIN && r.seqno < |ps|
      && r.data == ps[r.seqno].data && HasFin(r.flags) == ps[r.seqno].fin
  }

  ghost predicate RecvInv(e: End, ps: seq<Piece>)
    requires |e.rbuf| == WIN
  {
    && |ps| < HALF && e.rcvNxt <= |ps|
    && (forall q :: 0 <= q < |ps| ==> PieceOk(ps[q]))
    && (forall j {:trigger HeldSlot(e, j, ps)} :: 0 <= j < WIN ==> HeldSlot(e, j, ps))
    && e.got + e.deliv == Concat(ps[..e.rcvNxt])
    && (e.peerFin <==> exists q :: 0 <= q < e.rcvNxt && ps[q].fin)
  }

  /** The receiver has the segment, delivered or waiting for an earlier one. */
  ghost predicate Held(r: End, q: nat)
    requires |r.rbuf| == WIN
  {
    q < r.rcvNxt || (r.rbuf[q % WIN].present && r.rbuf[q % WIN].seqno == q)
  }

  // ---- datagrams ----

  ghost predicate DataPacket(b: seq<byte>, ps: seq<Piece>) {
    && Parse(b).Some?
    && var w := Parse(b).value;
       && (HasData(w.flags) || HasFin(w.flags) ==>
             && w.seqno < |ps| && w.body == ps[w.seqno].data && HasFin(w.flags) == ps[w.seqno].fin
             && !HasSack(w.flags))
  }

  ghost predicate AckPacket(b: seq<byte>, r: End)
    requires |r.rbuf| == WIN
  {
    && Parse(b).Some?
    && var w := Parse(b).value;
       && w.ack <= r.rcvNxt
       && (HasSack(w.flags) && |w.body| >= SACK_BYTES ==>
             forall i {:trigger TestBit(GetBe(w.body, 0, 8), i)} ::
               0 <= i < 63 && TestBit(GetBe(w.body, 0, 8), i) ==> Held(r, w.ack + 1 + i))
  }

  /** One endpoint: what it has cut into segments, what it has received, what it has put on the wire. */
  ghost predicate EndInv(e: End, outgoing: seq<Piece>, incoming: seq<Piece>) {
    && Shaped(e)
    && SendInv(e, outgoing) && RecvInv(e, incoming)
    && (forall k :: 0 <= k < |e.out| ==> DataPacket(e.out[k], outgoing) && AckPacket(e.out[k], e))
  }

  /** Sender and receiver of one direction: nothing is acknowledged, wholly or selectively, that the
      receiver does not have. */
  ghost predicate Linked(s: End, r: End)
    requires Shaped(s) && Shaped(r)
  {
    && s.una <= r.rcvNxt
    && (forall q {:trigger Held(r, q)} :: s.una <= q < s.nxt && s.sbuf[q % WIN].sacked ==> Held(r, q))
  }

  // ---- stability ----

  lemma IncomingGrows(e: End, outgoing: seq<Piece>, incoming: seq<Piece>, more: seq<Piece>)
    requires EndInv(e, outgoing, incoming) && incoming <= more && |more| < HALF
    requires forall q :: 0 <= q < |more| ==> PieceOk(more[q])
    ensures EndInv(e, outgoing, more)
  {
    assert more[..e.rcvNxt] == incoming[..e.rcvNxt];
    forall j | 0 <= j < WIN ensures HeldSlot(e, j, more) { assert HeldSlot(e, j, incoming); }
  }

  /** Only the receive side matters to what its acknowledgements claim. */
  lemma AcksKept(r: End, r': End, b: seq<byte>)
    requires |r.rbuf| == WIN && |r'.rbuf| == WIN && AckPacket(b, r)
    requires r.rcvNxt <= r'.rcvNxt && forall q: nat :: Held(r, q) ==> Held(r', q)
    ensures AckPacket(b, r')
  {
  }

  /** Changing the send side only, with packets that say what is so. */
  lemma SendChange(e: End, e': End, o: seq<Piece>, o': seq<Piece>, incoming: seq<Piece>)
    requires EndInv(e, o, incoming) && Shaped(e') && SendInv(e', o') && o <= o'
    requires e'.rbuf == e.rbuf && e'.rcvNxt == e.rcvNxt && e'.got == e.got && e'.deliv == e.deliv
    requires e'.peerFin == e.peerFin
    requires e.out <= e'.out
    requires forall k :: |e.out| <= k < |e'.out| ==> DataPacket(e'.out[k], o') && AckPacket(e'.out[k], e')
    ensures EndInv(e', o', incoming)
  {
    SameReceiver(e, e', incoming);
    forall k | 0 <= k < |e'.out| ensures DataPacket(e'.out[k], o') && AckPacket(e'.out[k], e') {
      if k < |e.out| {
        assert e'.out[k] == e.out[k];
        AcksKept(e, e', e.out[k]);
      }
    }
  }

  /** A segment put on the wire from a slot, with the current acknowledgement. */
  lemma SegPacket(e: End, r: End, seg: Seg, q: nat, o: seq<Piece>)
    requires Shaped(e) && Shaped(r) && r.rcvNxt == e.rcvNxt
    requires |o| < HALF && q < |o| && SlotIs(seg, q, o[q])
    ensures DataPacket(Serialize(SegWire(e, seg)), o) && AckPacket(Serialize(SegWire(e, seg)), r)
  {
    ParseSerialize(SegWire(e, seg));
  }

  lemma SameReceiver(e: End, e': End, incoming: seq<Piece>)
    requires |e.rbuf| == WIN && RecvInv(e, incoming)
    requires e'.rbuf == e.rbuf && e'.rcvNxt == e.rcvNxt && e'.got == e.got && e'.deliv == e.deliv
    requires e'.peerFin == e.peerFin
    ensures RecvInv(e', incoming) && forall q: nat :: Held(e, q) <==> Held(e', q)
  {
    forall j | 0 <= j < WIN ensures HeldSlot(e', j, incoming) { assert HeldSlot(e, j, incoming); }
  }
}
