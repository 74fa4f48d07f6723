/** One endpoint of the reliable stream as pure steps: one function per operation, from an endpoint to
    the endpoint after it.  Sequence numbers and clocks are 32-bit and wrap. */
module StreamStep {
  import opened Bytes
  import opened StreamWire

  const WIN: nat := 256
  const IW: nat := 10
  const SSTHRESH_MIN: nat := 2
  const RTO_INIT: nat := 300
  const RTO_MIN: nat := 50
  const RTO_MAX: nat := 60000
  const DUPACK_THRESH: nat := 3
  const PAYLOAD: nat := 1024
  const CAP: nat := WIN * PAYLOAD
  const M32: nat := 0x1_0000_0000

  /** Arithmetic of uint32_t, and a difference read as int32_t (section 3.2 of RFC 1982). */
  function U32(x: int): (u: nat)
    ensures u < M32
  {
    x % M32
  }

  function S32(x: int): int {
    if x % M32 < M32 / 2 then x % M32 else x % M32 - M32
  }

  datatype Seg = Seg(seqno: nat, sentAt: nat, flags: byte, present: bool, retx: bool, sacked: bool, data: seq<byte>)

  /** An endpoint.  `pend` and `deliv` are the contents of the two ring buffers; `out`, `written` and
      `got` record every datagram sent, every byte accepted from and handed to the application. */
  datatype End = End(
    sbuf: seq<Seg>, una: nat, nxt: nat, deadline: nat, finQueued: bool, finSegmented: bool,
    srtt: nat, rttvar: nat, rto: nat, dupacks: nat,
    cwnd: nat, ssthresh: nat, cwndCnt: nat, peerRwnd: nat,
    pend: seq<byte>,
    rbuf: seq<Seg>, rcvNxt: nat, peerFin: bool, deliv: seq<byte>,
    out: seq<seq<byte>>, written: seq<byte>, got: seq<byte>)

  predicate Shaped(e: End) {
    && |e.sbuf| == WIN && |e.rbuf| == WIN
    && |e.pend| <= CAP && |e.deliv| <= CAP
    && e.una < M32 && e.nxt < M32 && e.rcvNxt < M32
    && e.cwnd >= 1
  }

  const EMPTY_SEG: Seg := Seg(0, 0, 0, false, false, false, [])

  function New(): End {
    var slots := seq(WIN, _ => EMPTY_SEG);
    End(slots, 0, 0, 0, false, false, 0, 0, RTO_INIT, 0, IW, WIN, 0, WIN, [], slots, 0, false, [], [], [], [])
  }

  // ---- emitting ----

  /** The advertised receive window: free delivery space, in segments. */
  function LocalRwnd(e: End): (w: nat)
    ensures w <= WIN
  {
    if |e.deliv| >= CAP then 0
    else
      var segs := (CAP - |e.deliv|) / PAYLOAD;
      if segs > WIN then WIN else segs
  }

  function Emit(e: End, w: Wire): End { e.(out := e.out + [Serialize(w)]) }

  function SegWire(e: End, seg: Seg): Wire {
    Wire(WithAck(seg.flags), seg.seqno, e.rcvNxt, LocalRwnd(e), seg.data)
  }

  function EmitSeg(e: End, seg: Seg): End { Emit(e, SegWire(e, seg)) }

  /** Which of the 63 segments after the next expected one are held. */
  function SackHas(e: End): (has: seq<bool>)
    requires |e.rbuf| == WIN
    ensures |has| == 63
  {
    seq(63, i requires 0 <= i < 63 =>
      var q := U32(e.rcvNxt + 1 + i);
      e.rbuf[q % WIN].present && e.rbuf[q % WIN].seqno == q)
  }

  function AckWire(e: End): Wire
    requires |e.rbuf| == WIN
  {
    var bm := Bitmap(SackHas(e));
    if bm == 0 then Wire(F_ACK, e.nxt, e.rcvNxt, LocalRwnd(e), [])
    else Wire(F_ACK + F_SACK, e.nxt, e.rcvNxt, LocalRwnd(e), Be(bm, 8))
  }

  function EmitAck(e: End): End
    requires |e.rbuf| == WIN
  {
    Emit(e, AckWire(e))
  }

  // ---- sending ----

  /** The bound on segments in flight: congestion window, peer window and buffer, but at least one. */
  function Window(e: End): (w: nat)
    ensures 1 <= w <= WIN
  {
    var w1 := if e.cwnd < WIN then e.cwnd else WIN;
    var w2 := if e.peerRwnd < w1 then e.peerRwnd else w1;
    if w2 < 1 then 1 else w2
  }

  function InFlight(e: End): nat { U32(e.nxt - e.una) }

  /** Give the next sequence number to a new segment, store it and put it on the wire. */
  function SendNew(e: End, now: nat, data: seq<byte>, flags: byte): End
    requires |e.sbuf| == WIN
  {
    var seg := Seg(e.nxt, now, flags, true, false, false, data);
    var e1 := e.(sbuf := e.sbuf[e.nxt % WIN := seg],
                 deadline := if e.deadline == 0 then U32(now + e.rto) else e.deadline,
                 nxt := U32(e.nxt + 1));
    EmitSeg(e1, seg)
  }

  function Take(e: End): nat { if |e.pend| < PAYLOAD then |e.pend| else PAYLOAD }

  lemma FlightGrows(nxt: nat, una: nat)
    requires U32(nxt - una) < WIN
    ensures U32(U32(nxt + 1) - una) == U32(nxt - una) + 1
  {
  }

  /** Cut pending bytes, then a queued FIN, into segments while the window lasts. */
  function PumpLoop(e: End, now: nat, win: nat): End
    requires |e.sbuf| == WIN && win <= WIN
    decreases WIN - (if InFlight(e) < WIN then InFlight(e) else WIN)
  {
    if InFlight(e) >= win then e
    else if |e.pend| > 0 then
      FlightGrows(e.nxt, e.una);
      PumpLoop(SendNew(e.(pend := e.pend[Take(e)..]), now, e.pend[..Take(e)], F_DATA), now, win)
    else if e.finQueued then
      FlightGrows(e.nxt, e.una);
      PumpLoop(SendNew(e.(finQueued := false, finSegmented := true), now, [], F_FIN), now, win)
    else e
  }

  function Pump(e: End, now: nat): End
    requires |e.sbuf| == WIN
  {
    PumpLoop(e, now, Window(e))
  }

  // ---- retransmission ----

  lemma ScanStep(q: nat, nxt: nat)
    requires q < M32 && nxt < M32 && q != nxt
    ensures U32(nxt - U32(q + 1)) == U32(nxt - q) - 1
  {
  }

  /** Resend the segments from `q` below `limit` that are not selectively acknowledged. */
  function Retransmit(e: End, now: nat, q: nat, limit: nat): End
    requires |e.sbuf| == WIN && q < M32 && e.nxt < M32
    decreases U32(e.nxt - q)
  {
    if q == e.nxt || S32(q - limit) >= 0 then e
    else
      ScanStep(q, e.nxt);
      var seg := e.sbuf[q % WIN];
      if seg.sacked then Retransmit(e, now, U32(q + 1), limit)
      else
        var e1 := EmitSeg(e, seg);
        Retransmit(e1.(sbuf := e1.sbuf[q % WIN := seg.(retx := true, sentAt := now)]), now, U32(q + 1), limit)
  }

  /** One past the highest selectively acknowledged segment, at least `limit`. */
  function Frontier(e: End, q: nat, limit: nat): nat
    requires |e.sbuf| == WIN && q < M32 && e.nxt < M32
    decreases U32(e.nxt - q)
  {
    if q == e.nxt then limit
    else
      ScanStep(q, e.nxt);
      Frontier(e, U32(q + 1), if e.sbuf[q % WIN].sacked && S32(q + 1 - limit) > 0 then U32(q + 1) else limit)
  }

  function FastRetransmit(e: End, now: nat): End
    requires |e.sbuf| == WIN && e.una < M32 && e.nxt < M32
  {
    Retransmit(e, now, e.una, Frontier(e, e.una, U32(e.una + 1)))
  }

  /** Mark what bits `i..62` of the bitmap report, ignoring what is outside the live window. */
  function ApplySack(e: End, ack: nat, bm: nat, i: nat): End
    requires |e.sbuf| == WIN && i <= 63
    decreases 63 - i
  {
    if i == 63 then e
    else
      var q := U32(ack + 1 + i);
      var seg := e.sbuf[q % WIN];
      if TestBit(bm, i) && S32(q - e.una) >= 0 && S32(q - e.nxt) < 0 && seg.seqno == q
      then ApplySack(e.(sbuf := e.sbuf[q % WIN := seg.(sacked := true)]), ack, bm, i + 1)
      else ApplySack(e, ack, bm, i + 1)
  }

  // ---- round-trip time and congestion (RFC 6298 section 2, RFC 5681 section 3.1) ----

  /** The new (srtt, rttvar, rto) from one sample. */
  function RttNext(srtt: nat, rttvar: nat, r: nat): (nat, nat, nat) {
    var d := if srtt > r then srtt - r else r - srtt;
    var v := if srtt == 0 then (if r != 0 then r else 1) / 2 else U32(3 * rttvar + d) / 4;
    var s := if srtt == 0 then (if r != 0 then r else 1) else U32(7 * srtt + r) / 8;
    var t := U32(s + 4 * v);
    (s, v, if t < RTO_MIN then RTO_MIN else if t > RTO_MAX then RTO_MAX else t)
  }

  function RttUpdate(e: End, r: nat): End {
    var t := RttNext(e.srtt, e.rttvar, r);
    e.(srtt := t.0, rttvar := t.1, rto := t.2)
  }

  /** Additive increase: one more segment of window for each window's worth acknowledged. */
  function Additive(cnt: nat, cwnd: nat): (r: (nat, nat))
    requires cwnd >= 1
    ensures r.0 < r.1 && r.1 >= cwnd
    decreases cnt
  {
    if cnt >= cwnd then Additive(cnt - cwnd, cwnd + 1) else (cnt, cwnd)
  }

  /** The new (cwnd, accumulator) when segments are acknowledged: exponential below the threshold. */
  function CcNext(cwnd: nat, ssthresh: nat, cnt: nat, acked: nat): (r: (nat, nat))
    requires cwnd >= 1
    ensures r.0 >= 1
  {
    if acked == 0 then (cwnd, cnt)
    else
      var w := if cwnd < ssthresh then (cnt, cwnd + acked) else Additive(cnt + acked, cwnd);
      (if w.1 > WIN then WIN else w.1, w.0)
  }

  function CcOnAck(e: End, acked: nat): End
    requires e.cwnd >= 1
  {
    var r := CcNext(e.cwnd, e.ssthresh, e.cwndCnt, acked);
    e.(cwnd := r.0, cwndCnt := r.1)
  }

  function CcOnLoss(e: End, isRto: bool): End {
    var half := e.cwnd / 2;
    var s := if half > SSTHRESH_MIN then half else SSTHRESH_MIN;
    e.(ssthresh := s, cwnd := if isRto then IW else s, cwndCnt := 0)
  }

  // ---- acknowledgements ----

  /** An acknowledgement that moves the window: sample the round trip unless retransmitted (Karn). */
  function NewAck(e: End, ack: nat, now: nat): End
    requires |e.sbuf| == WIN && e.cwnd >= 1
  {
    var t := e.sbuf[U32(ack - 1) % WIN];
    var e1 := if t.seqno == U32(ack - 1) && !t.retx then RttUpdate(e, U32(now - t.sentAt)) else e;
    var e2 := CcOnAck(e1, U32(ack - e.una));
    e2.(una := ack, dupacks := 0, deadline := if ack == e.nxt then 0 else U32(now + e2.rto))
  }

  /** A duplicate acknowledgement: the third in a row starts fast retransmit and recovery. */
  function DupAck(e: End, now: nat): End
    requires Shaped(e)
  {
    if e.peerRwnd == 0 then e.(dupacks := 0)
    else
      var e1 := e.(dupacks := e.dupacks + 1);
      if e1.dupacks == DUPACK_THRESH then
        var e2 := FastRetransmit(CcOnLoss(e1, false), now);
        e2.(deadline := U32(now + e2.rto))
      else e1
  }

  function OnAck(e: End, ack: nat, now: nat): End
    requires Shaped(e)
  {
    if S32(ack - e.una) > 0 && S32(ack - e.nxt) <= 0 then NewAck(e, ack, now)
    else if ack == e.una && e.una != e.nxt then DupAck(e, now)
    else e
  }

  // ---- receiving ----

  /** Keep a segment that is inside the receive window and not held yet. */
  function Buffer(e: End, w: Wire): End
    requires |e.rbuf| == WIN
  {
    if 0 <= S32(w.seqno - e.rcvNxt) < WIN && !e.rbuf[w.seqno % WIN].present then
      var data := if |w.body| < PAYLOAD then w.body else w.body[..PAYLOAD];
      e.(rbuf := e.rbuf[w.seqno % WIN :=
           e.rbuf[w.seqno % WIN].(present := true, seqno := w.seqno, flags := w.flags, data := data)])
    else e
  }

  function CountPresent(rbuf: seq<Seg>): nat {
    if rbuf == [] then 0 else (if rbuf[0].present then 1 else 0) + CountPresent(rbuf[1..])
  }

  lemma {:induction false} CountDrops(rbuf: seq<Seg>, k: nat)
    requires k < |rbuf| && rbuf[k].present
    ensures CountPresent(rbuf[k := rbuf[k].(present := false)]) + 1 == CountPresent(rbuf)
  {
    var r := rbuf[k := rbuf[k].(present := false)];
    if k == 0 {
      assert r[1..] == rbuf[1..];
    } else {
      CountDrops(rbuf[1..], k - 1);
      assert r[1..] == rbuf[1..][k - 1 := rbuf[k].(present := false)];
    }
  }

  /** The segment the delivery loop would take next can be taken. */
  predicate CanDeliver(e: End)
    requires |e.rbuf| == WIN
  {
    var r := e.rbuf[e.rcvNxt % WIN];
    r.present && r.seqno == e.rcvNxt && |e.deliv| + |r.data| <= CAP
  }

  function DeliverOne(e: End): End
    requires |e.rbuf| == WIN && CanDeliver(e)
  {
    var r := e.rbuf[e.rcvNxt % WIN];
    e.(deliv := e.deliv + r.data, peerFin := e.peerFin || HasFin(r.flags),
       rbuf := e.rbuf[e.rcvNxt % WIN := r.(present := false)], rcvNxt := U32(e.rcvNxt + 1))
  }

  /** Hand over contiguous segments while the delivery buffer has room; nothing follows a FIN. */
  function Deliver(e: End): End
    requires |e.rbuf| == WIN
    decreases CountPresent(e.rbuf)
  {
    if !CanDeliver(e) then e
    else
      CountDrops(e.rbuf, e.rcvNxt % WIN);
      var e1 := DeliverOne(e);
      if e1.peerFin then e1 else Deliver(e1)
  }

  // ---- the public operations ----

  /** How many of `len` bytes the pending ring accepts. */
  function Accepts(e: End, len: nat): nat
    requires |e.pend| <= CAP
  {
    if len < CAP - |e.pend| then len else CAP - |e.pend|
  }

  function Write(e: End, data: seq<byte>, now: nat): End
    requires Shaped(e)
  {
    var n := Accepts(e, |data|);
    Pump(e.(pend := e.pend + data[..n], written := e.written + data[..n]), now)
  }

  function InputAck(e: End, w: Wire, now: nat): End
    requires Shaped(e)
  {
    var e1 := e.(peerRwnd := w.rwnd);
    var e2 := if HasSack(w.flags) && |w.body| >= SACK_BYTES then ApplySack(e1, w.ack, GetBe(w.body, 0, 8), 0) else e1;
    SackShape(e1, w.ack, if |w.body| >= SACK_BYTES then GetBe(w.body, 0, 8) else 0, 0);
    OnAck(e2, w.ack, now)
  }

  /** Marking selective acknowledgements changes nothing else. */
  lemma {:induction false} SackShape(e: End, ack: nat, bm: nat, i: nat)
    requires |e.sbuf| == WIN && i <= 63
    ensures var r := ApplySack(e, ack, bm, i); |r.sbuf| == WIN && r == e.(sbuf := r.sbuf)
    decreases 63 - i
  {
    if i < 63 {
      var q := U32(ack + 1 + i);
      SackShape(e.(sbuf := e.sbuf[q % WIN := e.sbuf[q % WIN].(sacked := true)]), ack, bm, i + 1);
      SackShape(e, ack, bm, i + 1);
    }
  }

  function Input(e: End, b: seq<byte>, now: nat): End
    requires Shaped(e)
  {
    match Parse(b)
    case None => e
    case Some(w) =>
      Pow256Values();
      InputShape(e, w, now);
      var e1 := InputAck(e, w, now);
      if !HasData(w.flags) && !HasFin(w.flags) then e1
      else
        DeliverShape(Buffer(e1, w));
        EmitAck(Deliver(Buffer(e1, w)))
  }

  lemma {:induction false} DeliverShape(e: End)
    requires |e.rbuf| == WIN
    ensures |Deliver(e).rbuf| == WIN
    decreases CountPresent(e.rbuf)
  {
    if CanDeliver(e) {
      CountDrops(e.rbuf, e.rcvNxt % WIN);
      DeliverShape(DeliverOne(e));
    }
  }

  /** Processing acknowledgements touches the send window, its marks, timers and congestion state only. */
  ghost predicate AckOnly(e: End, r: End) {
    && |r.sbuf| == WIN && r.una < M32 && r.cwnd >= 1
    && r == e.(sbuf := r.sbuf, una := r.una, deadline := r.deadline, peerRwnd := r.peerRwnd,
               srtt := r.srtt, rttvar := r.rttvar, rto := r.rto, dupacks := r.dupacks,
               cwnd := r.cwnd, ssthresh := r.ssthresh, cwndCnt := r.cwndCnt, out := r.out)
  }

  lemma DupAckShape(e: End, now: nat)
    requires Shaped(e)
    ensures AckOnly(e, DupAck(e, now)) && DupAck(e, now).una == e.una
  {
    var e2 := CcOnLoss(e.(dupacks := e.dupacks + 1), false);
    RetransmitShape(e2, now, e2.una, Frontier(e2, e2.una, U32(e2.una + 1)));
  }

  lemma NewAckShape(e: End, ack: nat, now: nat)
    requires Shaped(e) && ack < M32
    ensures AckOnly(e, NewAck(e, ack, now))
    ensures var r := NewAck(e, ack, now); r.sbuf == e.sbuf && r.out == e.out && r.una == ack
  {
    hide RttUpdate, CcOnAck, U32;
    var t := e.sbuf[U32(ack - 1) % WIN];
    var r := U32(now - t.sentAt);
    RttShape(e, r);
    CcShape(e, U32(ack - e.una));
    CcShape(RttUpdate(e, r), U32(ack - e.una));
  }

  lemma RttShape(e: End, r: nat)
    ensures var e' := RttUpdate(e, r); e' == e.(srtt := e'.srtt, rttvar := e'.rttvar, rto := e'.rto)
  {
    hide U32;
  }

  lemma CcShape(e: End, acked: nat)
    requires e.cwnd >= 1
    ensures var e' := CcOnAck(e, acked); e'.cwnd >= 1 && e' == e.(cwnd := e'.cwnd, cwndCnt := e'.cwndCnt)
  {
  }

  lemma OnAckShape(e: End, ack: nat, now: nat)
    requires Shaped(e) && ack < M32
    ensures AckOnly(e, OnAck(e, ack, now))
  {
    hide NewAck, DupAck;
    NewAckShape(e, ack, now);
    DupAckShape(e, now);
  }

  lemma InputShape(e: End, w: Wire, now: nat)
    requires Shaped(e) && w.ack < M32
    ensures AckOnly(e, InputAck(e, w, now)) && Shaped(InputAck(e, w, now))
  {
    hide OnAck;
    var e1 := e.(peerRwnd := w.rwnd);
    SackShape(e1, w.ack, if |w.body| >= SACK_BYTES then GetBe(w.body, 0, 8) else 0, 0);
    var e2 := if HasSack(w.flags) && |w.body| >= SACK_BYTES then ApplySack(e1, w.ack, GetBe(w.body, 0, 8), 0) else e1;
    OnAckShape(e2, w.ack, now);
  }

  /** Retransmitting changes only the send buffer's marks and what is on the wire. */
  lemma {:induction false} RetransmitShape(e: End, now: nat, q: nat, limit: nat)
    requires |e.sbuf| == WIN && q < M32 && e.nxt < M32
    ensures var r := Retransmit(e, now, q, limit); |r.sbuf| == WIN && r == e.(sbuf := r.sbuf, out := r.out)
    decreases U32(e.nxt - q)
  {
    if q != e.nxt && S32(q - limit) < 0 {
      ScanStep(q, e.nxt);
      var seg := e.sbuf[q % WIN];
      RetransmitShape(e, now, U32(q + 1), limit);
      var e1 := EmitSeg(e, seg);
      RetransmitShape(e1.(sbuf := e1.sbuf[q % WIN := seg.(retx := true, sentAt := now)]), now, U32(q + 1), limit);
    }
  }

  function Read(e: End, cap: nat): End {
    var n := if |e.deliv| < cap then |e.deliv| else cap;
    e.(deliv := e.deliv[n..], got := e.got + e.deliv[..n])
  }

  function Tick(e: End, now: nat): End
    requires Shaped(e)
  {
    PumpShape(e, now, Window(e));
    var e1 := Pump(e, now);
    if e1.deadline != 0 && now >= e1.deadline && e1.una != e1.nxt then
      var e2 :=
        if e1.peerRwnd != 0
        then CcOnLoss(e1.(rto := if e1.rto < RTO_MAX / 2 then e1.rto * 2 else RTO_MAX), true)
        else e1;
      var e3 := Retransmit(e2, now, e2.una, e2.nxt);
      e3.(deadline := U32(now + e3.rto))
    else e1
  }

  /** What pumping leaves alone. */
  lemma {:induction false} PumpShape(e: End, now: nat, win: nat)
    requires |e.sbuf| == WIN && win <= WIN && e.nxt < M32
    ensures var r := PumpLoop(e, now, win);
      && |r.sbuf| == WIN && r.nxt < M32
      && r == e.(sbuf := r.sbuf, nxt := r.nxt, deadline := r.deadline, pend := r.pend,
                 finQueued := r.finQueued, finSegmented := r.finSegmented, out := r.out)
      && |r.pend| <= |e.pend|
    decreases WIN - (if InFlight(e) < WIN then InFlight(e) else WIN)
  {
    if InFlight(e) < win {
      FlightGrows(e.nxt, e.una);
      if |e.pend| > 0 {
        PumpShape(SendNew(e.(pend := e.pend[Take(e)..]), now, e.pend[..Take(e)], F_DATA), now, win);
      } else if e.finQueued {
        PumpShape(SendNew(e.(finQueued := false, finSegmented := true), now, [], F_FIN), now, win);
      }
    }
  }

  function Finish(e: End, now: nat): End
    requires |e.sbuf| == WIN
  {
    Pump(e.(finQueued := true), now)
  }

  predicate PeerFinished(e: End) { e.peerFin && e.deliv == [] }
}
