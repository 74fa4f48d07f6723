/** Every operation of an endpoint keeps the stream invariant. */
module StreamPreserve {
  import opened Bytes
  import opened StreamWire
  import opened StreamStep
  import opened StreamInvariant

  // ---- pumping ----

  ghost predicate FlagsFor(flags: byte, p: Piece) {
    HasFin(flags) == p.fin && HasData(flags) == !p.fin && !HasSack(flags)
  }

  /** Cutting one more segment. */
  lemma SendNewKeeps(e: End, now: nat, p: Piece, flags: byte, o: seq<Piece>, inc: seq<Piece>)
    requires EndInv(e.(pend := p.data + e.pend), o, inc) && |e.pend| + |p.data| <= CAP
    requires PieceOk(p) && FlagsFor(flags, p) && e.nxt - e.una < WIN && |o| + 1 < HALF
    ensures EndInv(SendNew(e, now, p.data, flags), o + [p], inc)
  {
    var e0 := e.(pend := p.data + e.pend);
    var e' := SendNew(e, now, p.data, flags);
    var o' := o + [p];
    Signed(e.nxt + 1, 0);
    assert o'[..|o|] == o;
    assert e'.written == Concat(o') + e'.pend;
    assert SendInv(e', o') by {
      forall q | e'.una <= q < e'.nxt ensures SlotIs(e'.sbuf[q % WIN], q, o'[q]) {
        if q < e.nxt {
          SlotsApart(q, e.nxt);
          assert SlotIs(e.sbuf[q % WIN], q, o[q]);
        }
      }
    }
    var seg := Seg(e.nxt, now, flags, true, false, false, p.data);
    SegPacket(e, e', seg, |o|, o');
    SendChange(e0, e', o, o', inc);
  }

  lemma LinkedSendNew(e: End, r: End, now: nat, data: seq<byte>, flags: byte)
    requires Shaped(e) && Shaped(r) && Linked(e, r) && e.una <= e.nxt < e.una + WIN && e.nxt + 1 < HALF
    ensures Shaped(SendNew(e, now, data, flags)) && Linked(SendNew(e, now, data, flags), r)
  {
    var e' := SendNew(e, now, data, flags);
    forall q: nat | e'.una <= q < e'.nxt && e'.sbuf[q % WIN].sacked ensures Held(r, q) {
      if q < e.nxt { SlotsApart(q, e.nxt); }
    }
  }

  lemma EndFacts(e: End, o: seq<Piece>, inc: seq<Piece>)
    requires EndInv(e, o, inc)
    ensures Shaped(e) && e.nxt == |o| < HALF && e.una <= e.nxt <= e.una + WIN && InFlight(e) == e.nxt - e.una
    ensures forall q :: e.una <= q < e.nxt ==> e.sbuf[q % WIN].seqno == q
  {
    Signed(e.nxt, e.una);
    forall q: nat | e.una <= q < e.nxt ensures e.sbuf[q % WIN].seqno == q { assert SlotIs(e.sbuf[q % WIN], q, o[q]); }
  }

  /** The next segment a pump would cut, and the endpoint after cutting it. */
  ghost function NextPiece(e: End): Option<Piece> {
    if |e.pend| > 0 then Some(Piece(e.pend[..Take(e)], false))
    else if e.finQueued then Some(Piece([], true))
    else None
  }

  ghost function AfterPiece(e: End, now: nat): End
    requires |e.sbuf| == WIN && NextPiece(e).Some?
  {
    if |e.pend| > 0 then SendNew(e.(pend := e.pend[Take(e)..]), now, e.pend[..Take(e)], F_DATA)
    else SendNew(e.(finQueued := false, finSegmented := true), now, [], F_FIN)
  }

  lemma AfterFlight(e: End, now: nat)
    requires |e.sbuf| == WIN && NextPiece(e).Some? && InFlight(e) < WIN
    ensures InFlight(AfterPiece(e, now)) == InFlight(e) + 1 && |AfterPiece(e, now).sbuf| == WIN
  {
    FlightGrows(e.nxt, e.una);
  }

  /** All the segments a pump cuts. */
  ghost function Cut(e: End, now: nat, win: nat): (ps: seq<Piece>)
    requires |e.sbuf| == WIN && win <= WIN
    ensures |ps| <= WIN - (if InFlight(e) < WIN then InFlight(e) else WIN)
    decreases WIN - (if InFlight(e) < WIN then InFlight(e) else WIN)
  {
    if InFlight(e) >= win || NextPiece(e).None? then []
    else
      FlightGrows(e.nxt, e.una);
      [NextPiece(e).value] + Cut(AfterPiece(e, now), now, win)
  }

  lemma CutOne(e: End, now: nat, o: seq<Piece>, inc: seq<Piece>, r: End)
    requires EndInv(e, o, inc) && Shaped(r) && Linked(e, r) && NextPiece(e).Some?
    requires e.nxt - e.una < WIN && |o| + 1 < HALF
    ensures EndInv(AfterPiece(e, now), o + [NextPiece(e).value], inc) && Linked(AfterPiece(e, now), r)
  {
    var p := NextPiece(e).value;
    if |e.pend| > 0 {
      var e1 := e.(pend := e.pend[Take(e)..]);
      assert e1.(pend := p.data + e1.pend) == e by { assert e.pend[..Take(e)] + e.pend[Take(e)..] == e.pend; }
      SendNewKeeps(e1, now, p, F_DATA, o, inc);
      LinkedSendNew(e1, r, now, p.data, F_DATA);
    } else {
      var e1 := e.(finQueued := false, finSegmented := true);
      FinQueuedKeeps(e, e1, o, inc);
      assert e1.(pend := p.data + e1.pend) == e1;
      SendNewKeeps(e1, now, p, F_FIN, o, inc);
      LinkedSendNew(e1, r, now, p.data, F_FIN);
    }
  }

  lemma PumpUnfold(e: End, now: nat, win: nat)
    requires |e.sbuf| == WIN && win <= WIN
    ensures if InFlight(e) < win && NextPiece(e).Some?
            then InFlight(AfterPiece(e, now)) == InFlight(e) + 1 && |AfterPiece(e, now).sbuf| == WIN
                 && PumpLoop(e, now, win) == PumpLoop(AfterPiece(e, now), now, win)
                 && Cut(e, now, win) == [NextPiece(e).value] + Cut(AfterPiece(e, now), now, win)
            else PumpLoop(e, now, win) == e && Cut(e, now, win) == []
  {
    if InFlight(e) < win && NextPiece(e).Some? { AfterFlight(e, now); }
  }

  lemma {:induction false} PumpKeeps(e: End, now: nat, win: nat, o: seq<Piece>, inc: seq<Piece>, r: End)
    requires EndInv(e, o, inc) && Shaped(r) && Linked(e, r) && win <= WIN && |o| + WIN - InFlight(e) < HALF
    ensures EndInv(PumpLoop(e, now, win), o + Cut(e, now, win), inc) && Linked(PumpLoop(e, now, win), r)
    decreases WIN - (if InFlight(e) < WIN then InFlight(e) else WIN)
  {
    hide EndInv, Linked, AfterPiece, InFlight;
    EndFacts(e, o, inc);
    assert o + [] == o;
    PumpUnfold(e, now, win);
    if InFlight(e) < win && NextPiece(e).Some? {
      AfterFlight(e, now);
      CutOne(e, now, o, inc, r);
      var e1, o1 := AfterPiece(e, now), o + [NextPiece(e).value];
      PumpKeeps(e1, now, win, o1, inc, r);
      assert o + ([NextPiece(e).value] + Cut(e1, now, win)) == o1 + Cut(e1, now, win);
    }
  }

  lemma FinQueuedKeeps(e: End, e': End, o: seq<Piece>, inc: seq<Piece>)
    requires EndInv(e, o, inc) && e' == e.(finQueued := e'.finQueued, finSegmented := e'.finSegmented)
    ensures EndInv(e', o, inc)
  {
    SendChange(e, e', o, o, inc);
  }

  // ---- acknowledgements ----

  /** Marking what a selective acknowledgement reports keeps the window, and every mark is justified. */
  lemma {:induction false} SackKeeps(e: End, ack: nat, bm: nat, i: nat, o: seq<Piece>, inc: seq<Piece>, r: End)
    requires EndInv(e, o, inc) && Shaped(r) && Linked(e, r) && i <= 63 && ack <= r.rcvNxt < HALF - 64
    requires forall j {:trigger TestBit(bm, j)} :: i <= j < 63 && TestBit(bm, j) ==> Held(r, ack + 1 + j)
    ensures EndInv(ApplySack(e, ack, bm, i), o, inc) && Linked(ApplySack(e, ack, bm, i), r)
    decreases 63 - i
  {
    hide EndInv, Linked, Held, ApplySack;
    EndFacts(e, o, inc);
    SackOneBit(e, ack, bm, i);
    if i < 63 {
      var q := ack + 1 + i;
      var seg := e.sbuf[q % WIN];
      if TestBit(bm, i) && e.una <= q < e.nxt && seg.seqno == q {
        var e1 := e.(sbuf := e.sbuf[q % WIN := seg.(sacked := true)]);
        MarkKeeps(e, e1, q, o, inc, r);
        SackKeeps(e1, ack, bm, i + 1, o, inc, r);
      } else {
        SackKeeps(e, ack, bm, i + 1, o, inc, r);
      }
    }
  }

  /** One bit of the bitmap, away from the wrap of the sequence space. */
  lemma SackOneBit(e: End, ack: nat, bm: nat, i: nat)
    requires |e.sbuf| == WIN && i <= 63 && ack < HALF - 64 && e.una < HALF && e.nxt < HALF
    ensures ApplySack(e, ack, bm, i) ==
      if i == 63 then e
      else
        var q := ack + 1 + i;
        var seg := e.sbuf[q % WIN];
        if TestBit(bm, i) && e.una <= q < e.nxt && seg.seqno == q
        then ApplySack(e.(sbuf := e.sbuf[q % WIN := seg.(sacked := true)]), ack, bm, i + 1)
        else ApplySack(e, ack, bm, i + 1)
  {
    if i < 63 {
      hide S32;
      var q := ack + 1 + i;
      Signed(q, e.una);
      Signed(q, e.nxt);
    }
  }

  lemma MarkKeeps(e: End, e': End, q: nat, o: seq<Piece>, inc: seq<Piece>, r: End)
    requires EndInv(e, o, inc) && Shaped(r) && Linked(e, r) && e.una <= q < e.nxt && Held(r, q)
    requires e' == e.(sbuf := e.sbuf[q % WIN := e.sbuf[q % WIN].(sacked := true)])
    ensures EndInv(e', o, inc) && Linked(e', r)
  {
    forall x: nat | e.una <= x < e.nxt ensures SlotIs(e'.sbuf[x % WIN], x, o[x]) {
      assert SlotIs(e.sbuf[x % WIN], x, o[x]);
    }
    forall x: nat | e'.una <= x < e'.nxt && e'.sbuf[x % WIN].sacked ensures Held(r, x) {
      if x < q { SlotsApart(x, q); } else if x > q { SlotsApart(q, x); }
    }
    SendChange(e, e', o, o, inc);
  }

  /** Fields that acknowledgement processing may change beside the window itself. */
  lemma TimersKeep(e: End, e': End, o: seq<Piece>, inc: seq<Piece>, r: End)
    requires EndInv(e, o, inc) && Shaped(r) && Linked(e, r) && e'.cwnd >= 1
    requires e' == e.(deadline := e'.deadline, peerRwnd := e'.peerRwnd, srtt := e'.srtt, rttvar := e'.rttvar,
                      rto := e'.rto, dupacks := e'.dupacks,
                      cwnd := e'.cwnd, ssthresh := e'.ssthresh, cwndCnt := e'.cwndCnt)
    ensures EndInv(e', o, inc) && Linked(e', r)
  {
    SendChange(e, e', o, o, inc);
  }

  lemma AdvanceKeeps(e: End, ack: nat, o: seq<Piece>, inc: seq<Piece>, r: End)
    requires EndInv(e, o, inc) && Shaped(r) && Linked(e, r) && e.una <= ack <= e.nxt && ack <= r.rcvNxt
    ensures EndInv(e.(una := ack), o, inc) && Linked(e.(una := ack), r)
  {
    SendChange(e, e.(una := ack), o, o, inc);
  }

  lemma NewAckKeeps(e: End, ack: nat, now: nat, o: seq<Piece>, inc: seq<Piece>, r: End)
    requires EndInv(e, o, inc) && Shaped(r) && Linked(e, r) && e.una < ack <= e.nxt && ack <= r.rcvNxt
    ensures EndInv(NewAck(e, ack, now), o, inc) && Linked(NewAck(e, ack, now), r)
  {
    hide NewAck;
    NewAckShape(e, ack, now);
    AdvanceKeeps(e, ack, o, inc, r);
    TimersKeep(e.(una := ack), NewAck(e, ack, now), o, inc, r);
  }

  // ---- retransmission ----

  lemma {:induction false} RetransmitKeeps(e: End, now: nat, q: nat, limit: nat, o: seq<Piece>, inc: seq<Piece>, r: End)
    requires EndInv(e, o, inc) && Shaped(r) && Linked(e, r) && e.una <= q <= e.nxt
    ensures EndInv(Retransmit(e, now, q, limit), o, inc) && Linked(Retransmit(e, now, q, limit), r)
    decreases e.nxt - q
  {
    hide EndInv, Linked;
    EndFacts(e, o, inc);
    if q != e.nxt && S32(q - limit) < 0 {
      hide S32;
      Signed(q + 1, 0);
      var seg := e.sbuf[q % WIN];
      if seg.sacked {
        RetransmitKeeps(e, now, q + 1, limit, o, inc, r);
      } else {
        var e1 := EmitSeg(e, seg);
        var e2 := e1.(sbuf := e1.sbuf[q % WIN := seg.(retx := true, sentAt := now)]);
        ResendKeeps(e, e2, now, q, o, inc, r);
        RetransmitKeeps(e2, now, q + 1, limit, o, inc, r);
      }
    }
  }

  lemma ResendKeeps(e: End, e2: End, now: nat, q: nat, o: seq<Piece>, inc: seq<Piece>, r: End)
    requires EndInv(e, o, inc) && Shaped(r) && Linked(e, r) && e.una <= q < e.nxt
    requires var seg := e.sbuf[q % WIN];
      e2 == EmitSeg(e, seg).(sbuf := e.sbuf[q % WIN := seg.(retx := true, sentAt := now)])
    ensures EndInv(e2, o, inc) && Linked(e2, r)
  {
    assert SlotIs(e.sbuf[q % WIN], q, o[q]);
    forall x: nat | e.una <= x < e.nxt ensures SlotIs(e2.sbuf[x % WIN], x, o[x]) {
      assert SlotIs(e.sbuf[x % WIN], x, o[x]);
    }
    SegPacket(e, e2, e.sbuf[q % WIN], q, o);
    SendChange(e, e2, o, o, inc);
  }

  // ---- duplicate acknowledgements ----

  lemma DupAckKeeps(e: End, now: nat, o: seq<Piece>, inc: seq<Piece>, r: End)
    requires EndInv(e, o, inc) && Shaped(r) && Linked(e, r)
    ensures EndInv(DupAck(e, now), o, inc) && Linked(DupAck(e, now), r)
  {
    hide EndInv, Linked;
    EndFacts(e, o, inc);
    var e1 := e.(dupacks := if e.peerRwnd == 0 then 0 else e.dupacks + 1);
    TimersKeep(e, e1, o, inc, r);
    if e.peerRwnd != 0 && e1.dupacks == DUPACK_THRESH {
      var e2 := CcOnLoss(e1, false);
      TimersKeep(e1, e2, o, inc, r);
      var limit := Frontier(e2, e2.una, U32(e2.una + 1));
      RetransmitKeeps(e2, now, e2.una, limit, o, inc, r);
      var e3 := Retransmit(e2, now, e2.una, limit);
      RetransmitShape(e2, now, e2.una, limit);
      TimersKeep(e3, e3.(deadline := U32(now + e3.rto)), o, inc, r);
    }
  }

  lemma OnAckKeeps(e: End, ack: nat, now: nat, o: seq<Piece>, inc: seq<Piece>, r: End)
    requires EndInv(e, o, inc) && Shaped(r) && Linked(e, r) && ack <= r.rcvNxt < HALF
    ensures EndInv(OnAck(e, ack, now), o, inc) && Linked(OnAck(e, ack, now), r)
  {
    hide EndInv, Linked, NewAck, DupAck;
    EndFacts(e, o, inc);
    Signed(ack, e.una);
    Signed(ack, e.nxt);
    if e.una < ack <= e.nxt {
      NewAckKeeps(e, ack, now, o, inc, r);
    } else if ack == e.una && e.una != e.nxt {
      DupAckKeeps(e, now, o, inc, r);
    }
  }

  /** The acknowledgement part of an inbound segment, given that the peer sent it. */
  lemma InputAckKeeps(e: End, b: seq<byte>, now: nat, o: seq<Piece>, inc: seq<Piece>, r: End)
    requires EndInv(e, o, inc) && Shaped(r) && Linked(e, r) && AckPacket(b, r) && r.rcvNxt < HALF - 64
    ensures EndInv(InputAck(e, Parse(b).value, now), o, inc) && Linked(InputAck(e, Parse(b).value, now), r)
  {
    hide EndInv, Linked, OnAck, TestBit;
    var w := Parse(b).value;
    EndFacts(e, o, inc);
    var e1 := e.(peerRwnd := w.rwnd);
    TimersKeep(e, e1, o, inc, r);
    if HasSack(w.flags) && |w.body| >= SACK_BYTES {
      var bm := GetBe(w.body, 0, 8);
      SackKeeps(e1, w.ack, bm, 0, o, inc, r);
      SackShape(e1, w.ack, bm, 0);
      OnAckKeeps(ApplySack(e1, w.ack, bm, 0), w.ack, now, o, inc, r);
    } else {
      OnAckKeeps(e1, w.ack, now, o, inc, r);
    }
  }

  // ---- receiving ----

  /** Only the receive side differs, and nothing held is lost. */
  ghost predicate RecvStep(e: End, e': End) {
    && |e.rbuf| == WIN && |e'.rbuf| == WIN
    && e' == e.(rbuf := e'.rbuf, rcvNxt := e'.rcvNxt, deliv := e'.deliv, peerFin := e'.peerFin)
    && e.rcvNxt <= e'.rcvNxt
    && forall q: nat :: Held(e, q) ==> Held(e', q)
  }

  lemma RecvChange(e: End, e': End, o: seq<Piece>, inc: seq<Piece>)
    requires EndInv(e, o, inc) && RecvStep(e, e') && Shaped(e') && RecvInv(e', inc)
    ensures EndInv(e', o, inc)
  {
    forall k | 0 <= k < |e'.out| ensures DataPacket(e'.out[k], o) && AckPacket(e'.out[k], e') {
      AcksKept(e, e', e.out[k]);
    }
    forall q: nat | e'.una <= q < e'.nxt ensures SlotIs(e'.sbuf[q % WIN], q, o[q]) {
      assert SlotIs(e.sbuf[q % WIN], q, o[q]);
    }
  }

  lemma LinkedPeer(s: End, e: End, e': End)
    requires Shaped(s) && Shaped(e) && Shaped(e') && Linked(s, e) && RecvStep(e, e')
    ensures Linked(s, e')
  {
    forall q: nat | s.una <= q < s.nxt && s.sbuf[q % WIN].sacked ensures Held(e', q) { assert Held(e, q); }
  }

  lemma BufferKeeps(e: End, w: Wire, o: seq<Piece>, inc: seq<Piece>)
    requires EndInv(e, o, inc) && w.seqno < |inc| && w.body == inc[w.seqno].data && HasFin(w.flags) == inc[w.seqno].fin
    ensures EndInv(Buffer(e, w), o, inc) && RecvStep(e, Buffer(e, w))
  {
    var e' := Buffer(e, w);
    Signed(w.seqno, e.rcvNxt);
    if e' != e {
      var j := w.seqno % WIN;
      forall x | 0 <= x < WIN ensures HeldSlot(e', x, inc) { assert HeldSlot(e, x, inc); }
      forall q: nat | Held(e, q) ensures Held(e', q) {}
    }
    RecvChange(e, e', o, inc);
  }

  lemma DeliverOneKeeps(e: End, o: seq<Piece>, inc: seq<Piece>)
    requires EndInv(e, o, inc) && CanDeliver(e)
    ensures EndInv(DeliverOne(e), o, inc) && RecvStep(e, DeliverOne(e))
  {
    var e' := DeliverOne(e);
    var j := e.rcvNxt % WIN;
    assert HeldSlot(e, j, inc);
    Signed(e.rcvNxt + 1, 0);
    DeliveredBytes(e, e', inc);
    forall x | 0 <= x < WIN ensures HeldSlot(e', x, inc) {
      assert HeldSlot(e, x, inc);
    }
    forall q: nat | Held(e, q) ensures Held(e', q) {
      if q > e.rcvNxt && q % WIN == j { assert false; }
    }
    RecvChange(e, e', o, inc);
  }

  lemma DeliveredBytes(e: End, e': End, inc: seq<Piece>)
    requires |e.rbuf| == WIN && RecvInv(e, inc) && CanDeliver(e) && e' == DeliverOne(e) && e.rcvNxt < |inc|
    requires e.rbuf[e.rcvNxt % WIN].data == inc[e.rcvNxt].data
    requires HasFin(e.rbuf[e.rcvNxt % WIN].flags) == inc[e.rcvNxt].fin
    ensures e'.rcvNxt == e.rcvNxt + 1
    ensures e'.got + e'.deliv == Concat(inc[..e'.rcvNxt])
    ensures e'.peerFin <==> exists q :: 0 <= q < e'.rcvNxt && inc[q].fin
  {
    Signed(e.rcvNxt + 1, 0);
    ConcatAt(inc, e.rcvNxt);
    assert e.got + (e.deliv + inc[e.rcvNxt].data) == (e.got + e.deliv) + inc[e.rcvNxt].data;
  }

  lemma {:induction false} DeliverKeeps(e: End, o: seq<Piece>, inc: seq<Piece>)
    requires EndInv(e, o, inc)
    ensures EndInv(Deliver(e), o, inc) && RecvStep(e, Deliver(e))
    decreases CountPresent(e.rbuf)
  {
    hide EndInv;
    EndFacts(e, o, inc);
    if CanDeliver(e) {
      CountDrops(e.rbuf, e.rcvNxt % WIN);
      DeliverOneKeeps(e, o, inc);
      DeliverKeeps(DeliverOne(e), o, inc);
    }
  }

  lemma SackBit(e: End, i: nat)
    requires Shaped(e) && e.rcvNxt < HALF - 64 && i < 63
    ensures TestBit(Bitmap(SackHas(e)), i) <==> Held(e, e.rcvNxt + 1 + i)
  {
    BitmapBits(SackHas(e), i);
    Signed(e.rcvNxt + 1 + i, 0);
  }

  /** A selective acknowledgement claims exactly what is held beyond the next expected segment. */
  lemma AckWireOk(e: End)
    requires Shaped(e) && e.rcvNxt < HALF - 64
    ensures AckPacket(Serialize(AckWire(e)), e)
    ensures forall ps :: DataPacket(Serialize(AckWire(e)), ps)
  {
    hide TestBit, Bitmap, Be, Held, UnBe;
    var w := AckWire(e);
    ParseSerialize(w);
    if Bitmap(SackHas(e)) != 0 {
      BitmapWire(SackHas(e));
      assert w.body[0..8] == w.body;
      forall i | 0 <= i < 63 && TestBit(GetBe(w.body, 0, 8), i) ensures Held(e, w.ack + 1 + i) {
        SackBit(e, i);
      }
    }
  }

  lemma EmitAckKeeps(e: End, o: seq<Piece>, inc: seq<Piece>)
    requires EndInv(e, o, inc) && e.rcvNxt < HALF - 64
    ensures EndInv(EmitAck(e), o, inc)
  {
    AckWireOk(e);
    var e' := EmitAck(e);
    AcksKept(e, e', Serialize(AckWire(e)));
    SendChange(e, e', o, o, inc);
  }
}
