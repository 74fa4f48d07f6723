/** Bounds that timers and windows keep under any calls and any datagrams, honest or not: nothing is assumed of
    the peer, the network, the clock or the number of segments. */
module StreamBounds {
  import opened Bytes
  import opened StreamWire
  import opened StreamStep
  import opened StreamPreserve
  import opened StreamSystem
  import opened StreamTrace
  import opened StreamTimers

  /** What an endpoint can be asked to do. */
  datatype Call =
    | CallWrite(data: seq<byte>, now: nat)
    | CallFinish(now: nat)
    | CallRead(cap: nat)
    | CallTick(now: nat)
    | CallInput(b: seq<byte>, now: nat)

  function Do(e: End, c: Call): (r: End)
    requires Shaped(e)
    ensures Shaped(r)
  {
    match c
    case CallWrite(data, now) => WriteGrows(e, data, now); Write(e, data, now)
    case CallFinish(now) => FinishGrows(e, now); Finish(e, now)
    case CallRead(cap) => Read(e, cap)
    case CallTick(now) => TickGrows(e, now); Tick(e, now)
    case CallInput(b, now) => InputGrows(e, b, now); Input(e, b, now)
  }

  function DoAll(e: End, cs: seq<Call>): (r: End)
    requires Shaped(e)
    ensures Shaped(r)
    decreases |cs|
  {
    if cs == [] then e else DoAll(Do(e, cs[0]), cs[1..])
  }

  // ---- the invariant ----

  /** Timeout in 50..60000, window and threshold in 2..256, accumulator below 256, at most 256 in flight; the deadline
      is a 32-bit clock reading. */
  ghost predicate CcInv(e: End) {
    && RTO_MIN <= e.rto <= RTO_MAX
    && 2 <= e.cwnd <= WIN && 2 <= e.ssthresh <= WIN
    && e.cwndCnt < WIN
    && InFlight(e) <= WIN && e.deadline < M32
  }

  /** An acknowledgement that moves the window. */
  predicate IsNew(e: End, ack: nat) { S32(ack - e.una) > 0 && S32(ack - e.nxt) <= 0 }

  /** It acknowledges no more than is in flight. */
  lemma AckedInFlight(e: End, ack: nat)
    requires IsNew(e, ack) && InFlight(e) <= WIN && e.una < M32 && e.nxt < M32 && ack < M32
    ensures 0 < U32(ack - e.una) <= InFlight(e) && U32(e.nxt - ack) == InFlight(e) - U32(ack - e.una)
  {
    Apart(ack, e.una);
    Apart(ack, e.nxt);
    Apart(e.nxt, e.una);
    Apart(e.nxt, ack);
  }

  lemma Apart(x: nat, y: nat)
    requires x < M32 && y < M32
    ensures U32(x - y) == if x >= y then x - y else x - y + M32
    ensures S32(x - y) == if U32(x - y) < M32 / 2 then U32(x - y) else U32(x - y) - M32
  {
  }

  // ---- additive increase in 32 bits ----

  /** No value of the additive-increase loop leaves 32 bits. */
  ghost predicate LoopFits(cnt: nat, cwnd: nat)
    requires cwnd >= 1
    decreases cnt
  {
    cnt < M32 && cwnd < M32 && (cnt >= cwnd ==> LoopFits(cnt - cwnd, cwnd + 1))
  }

  /** No step of taking `acked` acknowledgements leaves 32 bits. */
  ghost predicate AckFits(cwnd: nat, ssthresh: nat, cnt: nat, acked: nat)
    requires cwnd >= 1
  {
    if cwnd < ssthresh then cwnd + acked < M32 else cnt + acked < M32 && LoopFits(cnt + acked, cwnd)
  }

  lemma {:induction false} LoopSmall(cnt: nat, cwnd: nat)
    requires cwnd >= 1 && cnt + cwnd < M32
    ensures LoopFits(cnt, cwnd)
    decreases cnt
  {
    if cnt >= cwnd { LoopSmall(cnt - cwnd, cwnd + 1); }
  }

  /** The loop leaves less than a full window in the accumulator, also when the window is cut back to the cap. */
  lemma {:induction false} LoopLeaves(cnt: nat, cwnd: nat)
    requires 1 <= cwnd <= WIN && cnt < 2 * WIN
    ensures Additive(cnt, cwnd).0 < WIN
    decreases cnt
  {
    if cnt >= cwnd {
      if cwnd < WIN { LoopLeaves(cnt - cwnd, cwnd + 1); } else { assert cnt - cwnd < cwnd + 1; }
    }
  }

  lemma AckBounds(e: End, acked: nat)
    requires CcInv(e) && acked <= WIN
    ensures CcInv(CcOnAck(e, acked)) && AckFits(e.cwnd, e.ssthresh, e.cwndCnt, acked)
  {
    LoopLeaves(e.cwndCnt + acked, e.cwnd);
    LoopSmall(e.cwndCnt + acked, e.cwnd);
  }

  // ---- one operation ----

  /** The fields the bounds speak of are untouched. */
  ghost predicate SameFields(e: End, r: End) {
    && r.rto == e.rto && r.cwnd == e.cwnd && r.ssthresh == e.ssthresh && r.cwndCnt == e.cwndCnt
    && r.una == e.una && r.nxt == e.nxt && r.deadline == e.deadline
  }

  lemma SameCc(e: End, r: End)
    ensures CcInv(e) && SameFields(e, r) ==> CcInv(r)
  {
  }

  lemma RttClamped(e: End, r: nat)
    requires CcInv(e)
    ensures CcInv(RttUpdate(e, r))
  {
    hide U32;
  }

  lemma NewAckBounds(e: End, ack: nat, now: nat)
    requires Shaped(e) && CcInv(e) && IsNew(e, ack) && ack < M32
    ensures CcInv(NewAck(e, ack, now)) && AckFits(e.cwnd, e.ssthresh, e.cwndCnt, U32(ack - e.una))
  {
    AckedInFlight(e, ack);
    var t := e.sbuf[U32(ack - 1) % WIN];
    var r := U32(now - t.sentAt);
    hide RttUpdate, U32, S32, CcOnAck, AckFits;
    RttClamped(e, r);
    RttShape(e, r);
    var e1 := if t.seqno == U32(ack - 1) && !t.retx then RttUpdate(e, r) else e;
    AckBounds(e1, U32(ack - e.una));
    CcShape(e1, U32(ack - e.una));
  }

  lemma LossBounds(e: End, isRto: bool)
    requires CcInv(e)
    ensures CcInv(CcOnLoss(e, isRto))
  {
    hide U32;
  }

  lemma DupAckBounds(e: End, now: nat)
    requires Shaped(e) && CcInv(e)
    ensures CcInv(DupAck(e, now))
  {
    hide U32, S32, Retransmit, Frontier, CcOnLoss;
    var e1 := e.(dupacks := e.dupacks + 1);
    SameCc(e, e1);
    LossBounds(e1, false);
    LossShape(e1);
    var e2 := CcOnLoss(e1, false);
    RetransmitShape(e2, now, e2.una, Frontier(e2, e2.una, U32(e2.una + 1)));
  }

  lemma LossShape(e: End)
    ensures var r := CcOnLoss(e, false); r == e.(ssthresh := r.ssthresh, cwnd := r.cwnd, cwndCnt := 0)
  {
  }

  lemma OnAckBounds(e: End, ack: nat, now: nat)
    requires Shaped(e) && CcInv(e) && ack < M32
    ensures CcInv(OnAck(e, ack, now))
  {
    hide NewAck, DupAck, S32, U32;
    if IsNew(e, ack) { NewAckBounds(e, ack, now); }
    DupAckBounds(e, now);
  }

  lemma InputAckBounds(e: End, w: Wire, now: nat)
    requires Shaped(e) && CcInv(e) && w.ack < M32
    ensures CcInv(InputAck(e, w, now))
  {
    hide OnAck, ApplySack, U32, GetBe, CcInv;
    var e1 := e.(peerRwnd := w.rwnd);
    SameCc(e, e1);
    var bm := if |w.body| >= SACK_BYTES then GetBe(w.body, 0, 8) else 0;
    SackShape(e1, w.ack, bm, 0);
    SameCc(e1, ApplySack(e1, w.ack, bm, 0));
    OnAckBounds(if HasSack(w.flags) && |w.body| >= SACK_BYTES then ApplySack(e1, w.ack, bm, 0) else e1, w.ack, now);
  }

  lemma InputBounds(e: End, b: seq<byte>, now: nat)
    requires Shaped(e) && CcInv(e)
    ensures CcInv(Input(e, b, now))
  {
    if Parse(b).Some? {
      var w := Parse(b).value;
      Pow256Values();
      InputShape(e, w, now);
      hide InputAck, Deliver, Buffer, CcInv, Bitmap;
      InputAckBounds(e, w, now);
      var e1 := InputAck(e, w, now);
      BufferFields(e1, w);
      DeliverFields(Buffer(e1, w));
      SameCc(e1, Input(e, b, now));
    }
  }

  lemma {:induction false} PumpBounds(e: End, now: nat, win: nat)
    requires |e.sbuf| == WIN && win <= WIN && CcInv(e)
    ensures CcInv(PumpLoop(e, now, win))
    decreases WIN - (if InFlight(e) < WIN then InFlight(e) else WIN)
  {
    hide PumpLoop, EmitSeg;
    PumpUnfold(e, now, win);
    if InFlight(e) < win && NextPiece(e).Some? {
      FlightGrows(e.nxt, e.una);
      hide U32;
      AfterShape(e, now);
      PumpBounds(AfterPiece(e, now), now, win);
    }
  }

  lemma AfterShape(e: End, now: nat)
    requires |e.sbuf| == WIN && NextPiece(e).Some?
    ensures var r := AfterPiece(e, now);
      && |r.sbuf| == WIN && r.una == e.una && r.nxt == U32(e.nxt + 1)
      && r.rto == e.rto && r.cwnd == e.cwnd && r.ssthresh == e.ssthresh && r.cwndCnt == e.cwndCnt
      && (e.deadline < M32 ==> r.deadline < M32)
  {
  }

  lemma TickBounds(e: End, now: nat)
    requires Shaped(e) && CcInv(e)
    ensures CcInv(Tick(e, now))
  {
    hide PumpLoop, Retransmit, CcOnLoss, U32;
    PumpShape(e, now, Window(e));
    PumpBounds(e, now, Window(e));
    var e1 := Pump(e, now);
    var e2 := e1.(rto := if e1.rto < RTO_MAX / 2 then e1.rto * 2 else RTO_MAX);
    LossBounds(e2, true);
    LossTimer(e2);
    var e3 := if e1.peerRwnd != 0 then CcOnLoss(e2, true) else e1;
    RetransmitShape(e3, now, e3.una, e3.nxt);
  }

  lemma LossTimer(e: End)
    ensures var r := CcOnLoss(e, true); r == e.(ssthresh := r.ssthresh, cwnd := r.cwnd, cwndCnt := 0)
  {
  }

  lemma WriteBounds(e: End, data: seq<byte>, now: nat)
    requires Shaped(e) && CcInv(e)
    ensures CcInv(Write(e, data, now))
  {
    hide PumpLoop, U32;
    var n := Accepts(e, |data|);
    var e1 := e.(pend := e.pend + data[..n], written := e.written + data[..n]);
    PumpBounds(e1, now, Window(e1));
  }

  lemma FinishBounds(e: End, now: nat)
    requires Shaped(e) && CcInv(e)
    ensures CcInv(Finish(e, now))
  {
    hide PumpLoop, U32;
    PumpBounds(e.(finQueued := true), now, Window(e));
  }

  lemma DoBounds(e: End, c: Call)
    requires Shaped(e) && CcInv(e)
    ensures CcInv(Do(e, c))
  {
    hide Write, Finish, Tick, Input;
    match c
    case CallWrite(data, now) => WriteBounds(e, data, now);
    case CallFinish(now) => FinishBounds(e, now);
    case CallRead(cap) => ReadFields(e, cap);
    case CallTick(now) => TickBounds(e, now);
    case CallInput(b, now) => InputBounds(e, b, now);
  }

  lemma NewBounds()
    ensures Shaped(New()) && CcInv(New()) && RttInv(New())
  {
  }

  /** For any calls and any datagrams: the retransmit timeout stays in 50..60000 through updates and back-offs,
      window and threshold in 2..256, the accumulator below 256, and at most 256 segments are in flight. */
  lemma {:induction false} CallsBounded(e: End, cs: seq<Call>)
    requires Shaped(e) && CcInv(e)
    ensures CcInv(DoAll(e, cs))
    decreases |cs|
  {
    hide Do, CcInv;
    if cs != [] {
      DoBounds(e, cs[0]);
      CallsBounded(Do(e, cs[0]), cs[1..]);
    }
  }

  // ---- no step overflows ----

  /** The segment a new acknowledgement reports newest, when the code takes its round trip as a sample. */
  predicate TakesSample(e: End, ack: nat)
    requires |e.sbuf| == WIN
  {
    var t := e.sbuf[U32(ack - 1) % WIN];
    IsNew(e, ack) && t.seqno == U32(ack - 1) && !t.retx
  }

  function Sample(e: End, ack: nat, now: nat): nat
    requires |e.sbuf| == WIN
  {
    U32(now - e.sbuf[U32(ack - 1) % WIN].sentAt)
  }

  /** The window arithmetic of a call stays in 32 bits. */
  ghost predicate CallFits(e: End, c: Call)
    requires Shaped(e)
  {
    c.CallInput? && Parse(c.b).Some? && IsNew(e, Parse(c.b).value.ack) ==>
      AckFits(e.cwnd, e.ssthresh, e.cwndCnt, U32(Parse(c.b).value.ack - e.una))
  }

  ghost predicate CallsFit(e: End, cs: seq<Call>)
    requires Shaped(e)
    decreases |cs|
  {
    cs == [] || (CallFits(e, cs[0]) && CallsFit(Do(e, cs[0]), cs[1..]))
  }

  /** No addition to the window or the accumulator ever leaves 32 bits, again for any calls and datagrams. */
  lemma {:induction false} WindowNeverWraps(e: End, cs: seq<Call>)
    requires Shaped(e) && CcInv(e)
    ensures CallsFit(e, cs)
    decreases |cs|
  {
    hide Do, CcInv, CallFits;
    if cs != [] {
      OneFits(e, cs[0]);
      DoBounds(e, cs[0]);
      WindowNeverWraps(Do(e, cs[0]), cs[1..]);
    }
  }

  lemma OneFits(e: End, c: Call)
    requires Shaped(e) && CcInv(e)
    ensures CallFits(e, c)
  {
    hide AckFits, CcInv, IsNew, U32;
    if c.CallInput? && Parse(c.b).Some? && IsNew(e, Parse(c.b).value.ack) {
      Pow256Values();
      NewAckBounds(e, Parse(c.b).value.ack, c.now);
    }
  }

  /** The estimates are below 2^29. */
  ghost predicate RttInv(e: End) { e.srtt < SAMPLE_MAX && e.rttvar < SAMPLE_MAX }

  /** The sample a call takes, if it takes one, is below 2^29 ms. */
  predicate SampleOk(e: End, c: Call)
    requires |e.sbuf| == WIN
  {
    c.CallInput? && Parse(c.b).Some? && TakesSample(e, Parse(c.b).value.ack) ==>
      Sample(e, Parse(c.b).value.ack, c.now) < SAMPLE_MAX
  }

  predicate SamplesOk(e: End, cs: seq<Call>)
    requires Shaped(e)
    decreases |cs|
  {
    cs == [] || (SampleOk(e, cs[0]) && SamplesOk(Do(e, cs[0]), cs[1..]))
  }

  /** The update without any reduction modulo 2^32. */
  function PlainRtt(srtt: nat, rttvar: nat, r: nat): (nat, nat, nat) {
    var d := if srtt > r then srtt - r else r - srtt;
    var v := if srtt == 0 then (if r != 0 then r else 1) / 2 else (3 * rttvar + d) / 4;
    var s := if srtt == 0 then (if r != 0 then r else 1) else (7 * srtt + r) / 8;
    (s, v, Clamp(s + 4 * v))
  }

  lemma RttPlain(e: End, r: nat)
    requires RttInv(e) && r < SAMPLE_MAX
    ensures RttInv(RttUpdate(e, r)) && RttNext(e.srtt, e.rttvar, r) == PlainRtt(e.srtt, e.rttvar, r)
  {
    RttExact(e.srtt, e.rttvar, r);
    hide U32;
  }

  /** A mark of a selective acknowledgement changes neither number, time nor retransmission of a segment. */
  lemma {:induction false} SackTimes(e: End, ack: nat, bm: nat, i: nat, j: nat)
    requires |e.sbuf| == WIN && i <= 63 && j < WIN
    ensures var s := ApplySack(e, ack, bm, i).sbuf;
      |s| == WIN && s[j] == e.sbuf[j].(sacked := s[j].sacked)
    decreases 63 - i
  {
    if i < 63 {
      var q := U32(ack + 1 + i);
      SackTimes(e.(sbuf := e.sbuf[q % WIN := e.sbuf[q % WIN].(sacked := true)]), ack, bm, i + 1, j);
      SackTimes(e, ack, bm, i + 1, j);
    }
  }

  lemma SameRtt(e: End, r: End)
    ensures RttInv(e) && r.srtt == e.srtt && r.rttvar == e.rttvar ==> RttInv(r)
  {
  }

  lemma OnAckRtt(e: End, ack: nat, now: nat)
    requires Shaped(e) && RttInv(e) && (TakesSample(e, ack) ==> Sample(e, ack, now) < SAMPLE_MAX)
    ensures RttInv(OnAck(e, ack, now))
  {
    hide U32, S32, RttUpdate, CcOnAck, Retransmit, Frontier, CcOnLoss;
    if IsNew(e, ack) {
      if TakesSample(e, ack) { RttPlain(e, Sample(e, ack, now)); }
      var e1 := if TakesSample(e, ack) then RttUpdate(e, Sample(e, ack, now)) else e;
      RttShape(e, Sample(e, ack, now));
      CcShape(e1, U32(ack - e.una));
    } else {
      var e1 := e.(dupacks := e.dupacks + 1);
      LossShape(e1);
      var e2 := CcOnLoss(e1, false);
      LossPositive(e1);
      RetransmitShape(e2, now, e2.una, Frontier(e2, e2.una, U32(e2.una + 1)));
    }
  }

  lemma LossPositive(e: End)
    ensures CcOnLoss(e, false).cwnd >= 1
  {
  }

  /** The endpoint as it takes the acknowledgement: window and marks are in. */
  ghost function Marked(e: End, w: Wire): End
    requires |e.sbuf| == WIN
  {
    var e1 := e.(peerRwnd := w.rwnd);
    if HasSack(w.flags) && |w.body| >= SACK_BYTES then ApplySack(e1, w.ack, GetBe(w.body, 0, 8), 0) else e1
  }

  lemma MarkedSlot(e: End, w: Wire)
    requires |e.sbuf| == WIN
    ensures var r := Marked(e, w);
      && r == e.(peerRwnd := w.rwnd, sbuf := r.sbuf) && |r.sbuf| == WIN
      && forall j :: 0 <= j < WIN ==> r.sbuf[j] == e.sbuf[j].(sacked := r.sbuf[j].sacked)
  {
    hide ApplySack, GetBe, U32;
    if HasSack(w.flags) && |w.body| >= SACK_BYTES {
      var e1, bm := e.(peerRwnd := w.rwnd), GetBe(w.body, 0, 8);
      SackShape(e1, w.ack, bm, 0);
      forall j | 0 <= j < WIN
        ensures var r := ApplySack(e1, w.ack, bm, 0).sbuf[j]; r == e1.sbuf[j].(sacked := r.sacked) {
        SackTimes(e1, w.ack, bm, 0, j);
      }
    }
  }

  lemma MarkedSample(e: End, w: Wire, now: nat)
    requires Shaped(e)
    ensures var r := Marked(e, w);
      && Shaped(r) && (RttInv(e) ==> RttInv(r)) && InputAck(e, w, now) == OnAck(r, w.ack, now)
      && TakesSample(r, w.ack) == TakesSample(e, w.ack) && Sample(r, w.ack, now) == Sample(e, w.ack, now)
  {
    MarkedSlot(e, w);
    assert InputAck(e, w, now) == OnAck(Marked(e, w), w.ack, now);
    hide OnAck, InputAck, Marked, U32, S32;
    var r := Marked(e, w);
    var j := U32(w.ack - 1) % WIN;
    assert r.sbuf[j] == e.sbuf[j].(sacked := r.sbuf[j].sacked);
  }

  lemma InputAckRtt(e: End, w: Wire, now: nat)
    requires Shaped(e) && RttInv(e) && (TakesSample(e, w.ack) ==> Sample(e, w.ack, now) < SAMPLE_MAX)
    ensures RttInv(InputAck(e, w, now))
  {
    hide OnAck, InputAck, Marked, TakesSample, Sample, RttInv;
    MarkedSample(e, w, now);
    OnAckRtt(Marked(e, w), w.ack, now);
  }

  lemma InputRtt(e: End, b: seq<byte>, now: nat)
    requires Shaped(e) && RttInv(e) && SampleOk(e, CallInput(b, now))
    ensures RttInv(Input(e, b, now))
  {
    if Parse(b).Some? {
      var w := Parse(b).value;
      Pow256Values();
      InputShape(e, w, now);
      hide InputAck, Deliver, Buffer, Bitmap, TakesSample, Sample;
      InputAckRtt(e, w, now);
      var e1 := InputAck(e, w, now);
      BufferFields(e1, w);
      DeliverFields(Buffer(e1, w));
      SameRtt(e1, Input(e, b, now));
    }
  }

  lemma DoRtt(e: End, c: Call)
    requires Shaped(e) && RttInv(e) && SampleOk(e, c)
    ensures RttInv(Do(e, c))
  {
    hide PumpLoop, Retransmit, Input, U32;
    match c
    case CallWrite(data, now) =>
      var n := Accepts(e, |data|);
      var e1 := e.(pend := e.pend + data[..n], written := e.written + data[..n]);
      PumpShape(e1, now, Window(e1));
    case CallFinish(now) => PumpShape(e.(finQueued := true), now, Window(e));
    case CallRead(cap) => ReadFields(e, cap);
    case CallTick(now) => TickRtt(e, now);
    case CallInput(b, now) => InputRtt(e, b, now);
  }

  lemma TickRtt(e: End, now: nat)
    requires Shaped(e)
    ensures Tick(e, now).srtt == e.srtt && Tick(e, now).rttvar == e.rttvar
  {
    hide PumpLoop, Retransmit, U32;
    PumpShape(e, now, Window(e));
    var e1 := Pump(e, now);
    var e2 := e1.(rto := if e1.rto < RTO_MAX / 2 then e1.rto * 2 else RTO_MAX);
    var e3 := if e1.peerRwnd != 0 then CcOnLoss(e2, true) else e1;
    RetransmitShape(e3, now, e3.una, e3.nxt);
  }

  /** Every sample taken is folded in as if the arithmetic were unbounded. */
  ghost predicate SamplesPlain(e: End, cs: seq<Call>)
    requires Shaped(e)
    decreases |cs|
  {
    cs == [] ||
    (&& (cs[0].CallInput? && Parse(cs[0].b).Some? && TakesSample(e, Parse(cs[0].b).value.ack) ==>
           var r := Sample(e, Parse(cs[0].b).value.ack, cs[0].now);
           RttNext(e.srtt, e.rttvar, r) == PlainRtt(e.srtt, e.rttvar, r))
     && SamplesPlain(Do(e, cs[0]), cs[1..]))
  }

  /** With the samples the code takes below 2^29 ms, the estimates stay below 2^29 and no step of the update
      leaves 32 bits. */
  lemma {:induction false} EstimatesBounded(e: End, cs: seq<Call>)
    requires Shaped(e) && RttInv(e) && SamplesOk(e, cs)
    ensures RttInv(DoAll(e, cs)) && SamplesPlain(e, cs)
    decreases |cs|
  {
    if cs != [] {
      var c := cs[0];
      if c.CallInput? && Parse(c.b).Some? && TakesSample(e, Parse(c.b).value.ack) {
        RttPlain(e, Sample(e, Parse(c.b).value.ack, c.now));
      }
      DoRtt(e, c);
      hide Do, RttInv, TakesSample, Sample, RttNext, PlainRtt;
      EstimatesBounded(Do(e, c), cs[1..]);
    }
  }

  // ---- in runs of two endpoints ----

  function CallOf(p: Pair, ev: Event): Call
    requires Enabled(p, ev)
  {
    match ev
    case Writes(_, data, now) => CallWrite(data, now)
    case Finishes(_, now) => CallFinish(now)
    case Reads(_, cap) => CallRead(cap)
    case Ticks(_, now) => CallTick(now)
    case Arrives(_, k, now) => CallInput(Peer(p, ev.atA).out[k], now)
  }

  lemma {:induction false} RunBounds(p: Pair, evs: seq<Event>)
    requires RunOk(p, evs) && CcInv(p.a) && CcInv(p.b)
    ensures CcInv(Run(p, evs).a) && CcInv(Run(p, evs).b)
    decreases |evs|
  {
    if evs != [] {
      hide CcInv, Write, Finish, Read, Tick, Input;
      var ev := evs[0];
      DoBounds(Me(p, ev.atA), CallOf(p, ev));
      assert EndAfter(p, ev) == Do(Me(p, ev.atA), CallOf(p, ev));
      RunBounds(Step(p, ev), evs[1..]);
    }
  }

  /** The bounds hold of both endpoints in every run, whatever the clocks read. */
  lemma TimersBounded(evs: seq<Event>)
    requires RunOk(Pair(New(), New()), evs)
    ensures var p := Run(Pair(New(), New()), evs); CcInv(p.a) && CcInv(p.b)
  {
    NewBounds();
    hide New, CcInv;
    RunBounds(Pair(New(), New()), evs);
  }
}
