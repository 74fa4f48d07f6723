/** Every operation of an endpoint keeps its shape and only adds to what it has sent. */
module StreamTrace {
  import opened Bytes
  import opened StreamWire
  import opened StreamStep

  ghost predicate Grew(e: End, r: End) { Shaped(r) && e.out <= r.out }

  lemma {:induction false} RetransmitOut(e: End, now: nat, q: nat, limit: nat)
    requires |e.sbuf| == WIN && q < M32 && e.nxt < M32
    ensures e.out <= Retransmit(e, now, q, limit).out
    decreases U32(e.nxt - q)
  {
    if q != e.nxt && S32(q - limit) < 0 {
      ScanStep(q, e.nxt);
      var seg := e.sbuf[q % WIN];
      if seg.sacked {
        RetransmitOut(e, now, U32(q + 1), limit);
      } else {
        var e1 := EmitSeg(e, seg);
        RetransmitOut(e1.(sbuf := e1.sbuf[q % WIN := seg.(retx := true, sentAt := now)]), now, U32(q + 1), limit);
      }
    }
  }

  lemma {:induction false} PumpOut(e: End, now: nat, win: nat)
    requires |e.sbuf| == WIN && win <= WIN
    ensures e.out <= PumpLoop(e, now, win).out
    decreases WIN - (if InFlight(e) < WIN then InFlight(e) else WIN)
  {
    if InFlight(e) < win {
      FlightGrows(e.nxt, e.una);
      if |e.pend| > 0 {
        PumpOut(SendNew(e.(pend := e.pend[Take(e)..]), now, e.pend[..Take(e)], F_DATA), now, win);
      } else if e.finQueued {
        PumpOut(SendNew(e.(finQueued := false, finSegmented := true), now, [], F_FIN), now, win);
      }
    }
  }

  lemma PumpGrows(e: End, now: nat)
    requires Shaped(e)
    ensures Grew(e, Pump(e, now))
  {
    hide PumpLoop;
    PumpOut(e, now, Window(e));
    PumpShape(e, now, Window(e));
  }

  lemma WriteGrows(e: End, data: seq<byte>, now: nat)
    requires Shaped(e)
    ensures Grew(e, Write(e, data, now))
  {
    hide Pump;
    var n := Accepts(e, |data|);
    PumpGrows(e.(pend := e.pend + data[..n], written := e.written + data[..n]), now);
  }

  lemma FinishGrows(e: End, now: nat)
    requires Shaped(e)
    ensures Grew(e, Finish(e, now))
  {
    PumpGrows(e.(finQueued := true), now);
  }

  lemma ResendGrows(e: End, now: nat, limit: nat)
    requires Shaped(e)
    ensures Grew(e, Retransmit(e, now, e.una, limit))
  {
    hide Retransmit;
    RetransmitOut(e, now, e.una, limit);
    RetransmitShape(e, now, e.una, limit);
  }

  lemma TickGrows(e: End, now: nat)
    requires Shaped(e)
    ensures Grew(e, Tick(e, now))
  {
    hide Pump, Retransmit;
    PumpGrows(e, now);
    var e1 := Pump(e, now);
    var e2 :=
      if e1.peerRwnd != 0
      then CcOnLoss(e1.(rto := if e1.rto < RTO_MAX / 2 then e1.rto * 2 else RTO_MAX), true)
      else e1;
    ResendGrows(e2, now, e2.nxt);
  }

  lemma OnAckGrows(e: End, ack: nat, now: nat)
    requires Shaped(e) && ack < M32
    ensures Grew(e, OnAck(e, ack, now))
  {
    hide NewAck, Retransmit, Frontier, U32, S32;
    NewAckShape(e, ack, now);
    var e2 := CcOnLoss(e.(dupacks := e.dupacks + 1), false);
    ResendGrows(e2, now, Frontier(e2, e2.una, U32(e2.una + 1)));
  }

  lemma InputAckGrows(e: End, w: Wire, now: nat)
    requires Shaped(e) && w.ack < M32
    ensures Grew(e, InputAck(e, w, now))
  {
    hide OnAck, ApplySack;
    var e1 := e.(peerRwnd := w.rwnd);
    SackShape(e1, w.ack, if |w.body| >= SACK_BYTES then GetBe(w.body, 0, 8) else 0, 0);
    var e2 := if HasSack(w.flags) && |w.body| >= SACK_BYTES then ApplySack(e1, w.ack, GetBe(w.body, 0, 8), 0) else e1;
    OnAckGrows(e2, w.ack, now);
  }

  lemma {:induction false} DeliverKeepsShape(e: End)
    requires Shaped(e)
    ensures Shaped(Deliver(e)) && Deliver(e).out == e.out
    decreases CountPresent(e.rbuf)
  {
    if CanDeliver(e) {
      CountDrops(e.rbuf, e.rcvNxt % WIN);
      DeliverKeepsShape(DeliverOne(e));
    }
  }

  lemma InputGrows(e: End, b: seq<byte>, now: nat)
    requires Shaped(e)
    ensures Grew(e, Input(e, b, now))
  {
    if Parse(b).Some? {
      hide InputAck, Deliver, Bitmap;
      var w := Parse(b).value;
      Pow256Values();
      InputAckGrows(e, w, now);
      DeliverKeepsShape(Buffer(InputAck(e, w, now), w));
    }
  }
}
