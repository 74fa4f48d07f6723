/** An endpoint in place: slot arrays for the two windows, ring buffers for the bytes on either side.
    Every method is proved equal to its pure step. */
module StreamEndpoint {
  import opened Bytes
  import opened StreamWire
  import opened StreamStep
  import opened StreamPreserve

  // ---- rings ----

  function At(head: nat, i: nat): (k: nat)
    ensures k < CAP
  {
    (head + i) % CAP
  }

  /** The `n` bytes from `head` on, around the end of the buffer. */
  ghost function RingOf(a: seq<byte>, head: nat, n: nat): (s: seq<byte>)
    requires |a| == CAP
    ensures |s| == n
  {
    seq(n, i requires 0 <= i < n => a[At(head, i)])
  }

  lemma RingApart(head: nat, i: nat, j: nat)
    requires i < j < CAP
    ensures At(head, i) != At(head, j)
  {
  }

  lemma RingPush(a: seq<byte>, head: nat, n: nat, b: byte)
    requires |a| == CAP && n < CAP
    ensures RingOf(a[At(head, n) := b], head, n + 1) == RingOf(a, head, n) + [b]
  {
    var a' := a[At(head, n) := b];
    forall i | 0 <= i < n ensures a'[At(head, i)] == a[At(head, i)] { RingApart(head, i, n); }
  }

  lemma RingDrop(a: seq<byte>, head: nat, count: nat, n: nat)
    requires |a| == CAP && n <= count
    ensures RingOf(a, At(head, n), count - n) == RingOf(a, head, count)[n..]
  {
    forall i | 0 <= i < count - n ensures a[At(At(head, n), i)] == a[At(head, n + i)] { RingShift(head, n, i); }
  }

  lemma RingShift(head: nat, n: nat, i: nat)
    ensures At(At(head, n), i) == At(head, n + i)
  {
  }

  /** A byte ring of fixed capacity. */
  class Ring {
    const data: array<byte>
    var head: nat
    var count: nat

    ghost predicate Valid()
      reads this
    {
      data.Length == CAP && head < CAP && count <= CAP
    }

    ghost function Contents(): (s: seq<byte>)
      requires Valid()
      reads this, data
    {
      RingOf(data[..], head, count)
    }

    constructor ()
      ensures Valid() && fresh(data) && Contents() == []
    {
      data := new byte[CAP](_ => 0);
      head, count := 0, 0;
    }

    /** Copy bytes in behind the last one. */
    method Append(bytes: seq<byte>)
      requires Valid() && count + |bytes| <= CAP
      modifies this`count, data
      ensures Valid() && Contents() == old(Contents()) + bytes
    {
      ghost var before := Contents();
      for i := 0 to |bytes|
        invariant count == old(count)
        invariant RingOf(data[..], head, count + i) == before + bytes[..i]
      {
        ghost var a := data[..];
        data[(head + count + i) % CAP] := bytes[i];
        assert data[..] == a[At(head, count + i) := bytes[i]];
        RingPush(a, head, count + i, bytes[i]);
        assert bytes[..i + 1] == bytes[..i] + [bytes[i]];
      }
      count := count + |bytes|;
      assert bytes[..|bytes|] == bytes;
    }

    /** Copy the first `n` bytes out and drop them. */
    method Take(n: nat) returns (s: seq<byte>)
      requires Valid() && n <= count
      modifies this`head, this`count
      ensures Valid() && s == old(Contents())[..n] && Contents() == old(Contents())[n..]
    {
      s := [];
      for i := 0 to n
        invariant head == old(head) && count == old(count)
        invariant s == RingOf(data[..], head, count)[..i]
      {
        s := s + [data[(head + i) % CAP]];
        assert s[i] == RingOf(data[..], head, count)[i];
      }
      RingDrop(data[..], head, count, n);
      head := (head + n) % CAP;
      count := count - n;
    }
  }

  // ---- the endpoint ----

  class Stream {
    const sbuf: array<Seg>
    var una: nat
    var nxt: nat
    var deadline: nat
    var finQueued: bool
    var finSegmented: bool
    var srtt: nat
    var rttvar: nat
    var rto: nat
    var dupacks: nat
    var cwnd: nat
    var ssthresh: nat
    var cwndCnt: nat
    var peerRwnd: nat
    const pend: Ring
    const rbuf: array<Seg>
    var rcvNxt: nat
    var peerFin: bool
    const deliv: Ring
    var out: seq<seq<byte>>
    ghost var written: seq<byte>
    ghost var got: seq<byte>

    ghost const Repr: set<object>

    ghost predicate Valid()
      reads this, pend, deliv
    {
      && sbuf.Length == WIN && rbuf.Length == WIN && sbuf != rbuf
      && pend != deliv && pend.data != deliv.data && pend.Valid() && deliv.Valid()
      && una < M32 && nxt < M32 && rcvNxt < M32 && cwnd >= 1
      && Repr == {this, sbuf, rbuf, pend, pend.data, deliv, deliv.data}
    }

    ghost function State(): (e: End)
      requires Valid()
      reads this, sbuf, rbuf, pend, pend.data, deliv, deliv.data
      ensures Shaped(e)
    {
      End(sbuf[..], una, nxt, deadline, finQueued, finSegmented, srtt, rttvar, rto, dupacks,
          cwnd, ssthresh, cwndCnt, peerRwnd, pend.Contents(), rbuf[..], rcvNxt, peerFin, deliv.Contents(),
          out, written, got)
    }

    constructor ()
      ensures Valid() && State() == New() && fresh(Repr - {this})
    {
      var p := new Ring();
      var d := new Ring();
      var s := new Seg[WIN](_ => EMPTY_SEG);
      var r := new Seg[WIN](_ => EMPTY_SEG);
      pend, deliv, sbuf, rbuf := p, d, s, r;
      una, nxt, deadline, finQueued, finSegmented := 0, 0, 0, false, false;
      srtt, rttvar, rto, dupacks := 0, 0, RTO_INIT, 0;
      cwnd, ssthresh, cwndCnt, peerRwnd := IW, WIN, 0, WIN;
      rcvNxt, peerFin, out := 0, false, [];
      written, got := [], [];
      Repr := {this, s, r, p, p.data, d, d.data};
      new;
      assert sbuf[..] == New().sbuf && rbuf[..] == New().rbuf;
    }

    // ---- emitting ----

    method Rwnd() returns (w: nat)
      requires Valid()
      ensures w == LocalRwnd(State())
    {
      w := (CAP - deliv.count) / PAYLOAD;
      if w > WIN { w := WIN; }
    }

    method EmitSegment(seg: Seg)
      requires Valid()
      modifies this`out
      ensures State() == EmitSeg(old(State()), seg)
    {
      var rwnd := Rwnd();
      out := out + [Serialize(Wire(WithAck(seg.flags), seg.seqno, rcvNxt, rwnd, seg.data))];
    }

    /** The bitmap of segments held above the next expected one, built from its highest bit down. */
    method SackBits() returns (bm: nat)
      requires Valid()
      ensures bm == Bitmap(SackHas(State()))
    {
      ghost var has := SackHas(State());
      bm := 0;
      var i: nat := 63;
      while i > 0
        invariant 0 <= i <= 63 && bm == Bitmap(has[i..])
      {
        i := i - 1;
        var q := (rcvNxt + 1 + i) % M32;
        var held := rbuf[q % WIN].present && rbuf[q % WIN].seqno == q;
        assert held == has[i];
        assert has[i..][1..] == has[i + 1..];
        bm := 2 * bm + if held then 1 else 0;
      }
      assert has[0..] == has;
    }

    method EmitAcknowledgement()
      requires Valid()
      modifies this`out
      ensures State() == EmitAck(old(State()))
    {
      var rwnd := Rwnd();
      var bm := SackBits();
      out := out + [if bm == 0 then Serialize(Wire(F_ACK, nxt, rcvNxt, rwnd, []))
                    else Serialize(Wire(F_ACK + F_SACK, nxt, rcvNxt, rwnd, Be(bm, 8)))];
    }

    // ---- sending ----

    method StoreSeg(seg: Seg)
      requires Valid()
      modifies sbuf
      ensures Valid() && State() == old(State()).(sbuf := old(State()).sbuf[seg.seqno % WIN := seg])
    {
      hide RingOf;
      ghost var s := sbuf[..];
      sbuf[seg.seqno % WIN] := seg;
      assert sbuf[..] == s[seg.seqno % WIN := seg];
    }

    method Place(now: nat, data: seq<byte>, flags: byte)
      requires Valid()
      modifies sbuf, this`deadline, this`nxt, this`out
      ensures Valid() && State() == SendNew(old(State()), now, data, flags)
    {
      hide RingOf, EmitSeg;
      var seg := Seg(nxt, now, flags, true, false, false, data);
      StoreSeg(seg);
      if deadline == 0 { deadline := (now + rto) % M32; }
      nxt := (nxt + 1) % M32;
      EmitSegment(seg);
    }

    /** Drop a segment's worth of pending bytes into the window. */
    method CutData(now: nat)
      requires Valid() && pend.count > 0
      modifies Repr
      ensures Valid()
      ensures var e := old(State()); State() == SendNew(e.(pend := e.pend[Take(e)..]), now, e.pend[..Take(e)], F_DATA)
    {
      hide SendNew, RingOf;
      ghost var e := State();
      var take := if pend.count < PAYLOAD then pend.count else PAYLOAD;
      var data := pend.Take(take);
      assert State() == e.(pend := e.pend[take..]);
      Place(now, data, F_DATA);
    }

    method CutFin(now: nat)
      requires Valid()
      modifies Repr
      ensures Valid()
      ensures State() == SendNew(old(State()).(finQueued := false, finSegmented := true), now, [], F_FIN)
    {
      hide SendNew, RingOf;
      finQueued, finSegmented := false, true;
      Place(now, [], F_FIN);
    }

    method CutNext(now: nat) returns (more: bool)
      requires Valid()
      modifies Repr
      ensures Valid() && more == NextPiece(old(State())).Some?
      ensures State() == if more then AfterPiece(old(State()), now) else old(State())
    {
      hide SendNew, RingOf;
      more := pend.count > 0 || finQueued;
      if pend.count > 0 { CutData(now); } else if finQueued { CutFin(now); }
    }

    method PumpOut(now: nat)
      requires Valid()
      modifies Repr
      ensures Valid() && State() == Pump(old(State()), now)
    {
      hide AfterPiece, NextPiece, PumpLoop, Cut, RingOf;
      var win := if cwnd < WIN then cwnd else WIN;
      if peerRwnd < win { win := peerRwnd; }
      if win < 1 { win := 1; }
      ghost var e0 := State();
      assert win == Window(e0);
      PumpUnfold(e0, now, win);
      while (nxt - una) % M32 < win
        invariant Valid()
        invariant PumpLoop(State(), now, win) == PumpLoop(e0, now, win)
        decreases WIN - InFlight(State())
      {
        PumpUnfold(State(), now, win);
        var more := CutNext(now);
        if !more { return; }
      }
      PumpUnfold(State(), now, win);
    }

    // ---- retransmission ----

    method Resend(q: nat, now: nat)
      requires Valid()
      modifies sbuf, this`out
      ensures Valid()
      ensures var e := old(State()); var seg := e.sbuf[q % WIN];
        State() == EmitSeg(e, seg).(sbuf := e.sbuf[q % WIN := seg.(retx := true, sentAt := now)])
    {
      ghost var s := sbuf[..];
      var seg := sbuf[q % WIN];
      EmitSegment(seg);
      sbuf[q % WIN] := seg.(retx := true, sentAt := now);
      assert sbuf[..] == s[q % WIN := seg.(retx := true, sentAt := now)];
    }

    method RetransmitRange(now: nat, limit: nat)
      requires Valid()
      modifies sbuf, this`out
      ensures Valid() && State() == Retransmit(old(State()), now, una, limit)
    {
      hide RingOf, EmitSeg, Retransmit, S32;
      ghost var e0 := State();
      var q: nat := una;
      while q != nxt && S32(q - limit) < 0
        invariant Valid() && q < M32
        invariant Retransmit(State(), now, q, limit) == Retransmit(e0, now, e0.una, limit)
        decreases U32(nxt - q)
      {
        ScanStep(q, nxt);
        RetransmitNext(State(), now, q, limit);
        if !sbuf[q % WIN].sacked { Resend(q, now); }
        q := (q + 1) % M32;
      }
      RetransmitNext(State(), now, q, limit);
    }

    method FastResend(now: nat)
      requires Valid()
      modifies sbuf, this`out
      ensures Valid() && State() == FastRetransmit(old(State()), now)
    {
      hide RingOf, Retransmit, Frontier, S32;
      ghost var e0 := State();
      var limit: nat := (una + 1) % M32;
      var q: nat := una;
      while q != nxt
        invariant q < M32 && State() == e0
        invariant Frontier(e0, q, limit) == Frontier(e0, una, U32(una + 1))
        decreases U32(nxt - q)
      {
        ScanStep(q, nxt);
        FrontierNext(e0, q, limit);
        if sbuf[q % WIN].sacked && S32(q + 1 - limit) > 0 { limit := (q + 1) % M32; }
        q := (q + 1) % M32;
      }
      FrontierNext(e0, q, limit);
      RetransmitRange(now, limit);
    }

    method MarkOne(ack: nat, bit: bool, i: nat)
      requires Valid() && i < 63
      modifies sbuf
      ensures Valid() && State() == MarkBit(old(State()), ack, bit, i)
    {
      ghost var s := sbuf[..];
      var q := (ack + 1 + i) % M32;
      if bit && S32(q - una) >= 0 && S32(q - nxt) < 0 && sbuf[q % WIN].seqno == q {
        sbuf[q % WIN] := sbuf[q % WIN].(sacked := true);
        assert sbuf[..] == s[q % WIN := s[q % WIN].(sacked := true)];
      }
    }

    method MarkSacked(ack: nat, bm: nat)
      requires Valid()
      modifies sbuf
      ensures Valid() && State() == ApplySack(old(State()), ack, bm, 0)
    {
      hide RingOf, TestBit, ApplySack, MarkBit;
      ghost var e0 := State();
      var rest: nat := bm;
      assert BitsFrom(bm, rest, 0);
      for i := 0 to 63
        invariant Valid()
        invariant ApplySack(State(), ack, bm, i) == ApplySack(e0, ack, bm, 0)
        invariant BitsFrom(bm, rest, i)
      {
        SackNext(State(), ack, bm, i);
        NextBit(bm, rest, i);
        MarkOne(ack, rest % 2 == 1, i);
        rest := rest / 2;
      }
      SackNext(State(), ack, bm, 63);
    }

    // ---- timing and congestion ----

    method SampleRtt(r: nat)
      modifies this`srtt, this`rttvar, this`rto
      ensures (srtt, rttvar, rto) == RttNext(old(srtt), old(rttvar), r)
    {
      if srtt == 0 {
        srtt := if r != 0 then r else 1;
        rttvar := (if r != 0 then r else 1) / 2;
      } else {
        var d := if srtt > r then srtt - r else r - srtt;
        rttvar := (3 * rttvar + d) % M32 / 4;
        srtt := (7 * srtt + r) % M32 / 8;
      }
      var t := (srtt + 4 * rttvar) % M32;
      if t < RTO_MIN { t := RTO_MIN; }
      if t > RTO_MAX { t := RTO_MAX; }
      rto := t;
    }

    method Grow(acked: nat)
      requires cwnd >= 1
      modifies this`cwnd, this`cwndCnt
      ensures (cwnd, cwndCnt) == CcNext(old(cwnd), ssthresh, old(cwndCnt), acked)
    {
      if acked == 0 { return; }
      if cwnd < ssthresh {
        cwnd := cwnd + acked;
      } else {
        ghost var goal := Additive(cwndCnt + acked, cwnd);
        cwndCnt := cwndCnt + acked;
        while cwndCnt >= cwnd
          invariant cwnd >= 1 && Additive(cwndCnt, cwnd) == goal
          decreases cwndCnt
        {
          cwndCnt := cwndCnt - cwnd;
          cwnd := cwnd + 1;
        }
      }
      if cwnd > WIN { cwnd := WIN; }
    }

    method Shrink(isRto: bool)
      requires Valid()
      modifies this`cwnd, this`ssthresh, this`cwndCnt
      ensures Valid() && State() == CcOnLoss(old(State()), isRto)
    {
      hide RingOf;
      var half := cwnd / 2;
      ssthresh := if half > SSTHRESH_MIN then half else SSTHRESH_MIN;
      cwnd := if isRto then IW else ssthresh;
      cwndCnt := 0;
    }

    // ---- acknowledgements ----

    /** Sample the round trip of the newest segment acknowledged, unless it was retransmitted. */
    method Measure(ack: nat, now: nat)
      requires Valid()
      modifies this`srtt, this`rttvar, this`rto
      ensures var e := old(State()); var t := e.sbuf[U32(ack - 1) % WIN];
        State() == if t.seqno == U32(ack - 1) && !t.retx then RttUpdate(e, U32(now - t.sentAt)) else e
    {
      hide RingOf, RttNext, U32;
      var last := U32(ack - 1);
      var t := sbuf[last % WIN];
      if t.seqno == last && !t.retx { SampleRtt(U32(now - t.sentAt)); }
    }

    method Widen(acked: nat)
      requires Valid()
      modifies this`cwnd, this`cwndCnt
      ensures Valid() && State() == CcOnAck(old(State()), acked)
    {
      hide RingOf, CcNext;
      Grow(acked);
    }

    method TakeNewAck(ack: nat, now: nat)
      requires Valid() && ack < M32
      modifies this`srtt, this`rttvar, this`rto, this`cwnd, this`cwndCnt, this`una, this`dupacks, this`deadline
      ensures Valid() && State() == NewAck(old(State()), ack, now)
    {
      hide RingOf, RttNext, CcNext, U32;
      var acked := U32(ack - una);
      Measure(ack, now);
      Widen(acked);
      MoveWindow(ack, if ack == nxt then 0 else U32(now + rto));
    }

    method MoveWindow(ack: nat, t: nat)
      requires Valid() && ack < M32
      modifies this`una, this`dupacks, this`deadline
      ensures Valid() && State() == old(State()).(una := ack, dupacks := 0, deadline := t)
    {
      hide RingOf;
      una, dupacks, deadline := ack, 0, t;
    }

    /** The third duplicate acknowledgement. */
    method EnterRecovery(now: nat)
      requires Valid()
      modifies sbuf, this`out, this`cwnd, this`ssthresh, this`cwndCnt, this`deadline
      ensures Valid()
      ensures var e := FastRetransmit(CcOnLoss(old(State()), false), now); State() == e.(deadline := U32(now + e.rto))
    {
      hide RingOf, FastRetransmit, CcOnLoss;
      Shrink(false);
      FastResend(now);
      deadline := (now + rto) % M32;
    }

    method TakeDupAck(now: nat)
      requires Valid()
      modifies sbuf, this`out, this`dupacks, this`cwnd, this`ssthresh, this`cwndCnt, this`deadline
      ensures Valid() && State() == DupAck(old(State()), now)
    {
      hide RingOf, FastRetransmit, CcOnLoss;
      if peerRwnd == 0 {
        dupacks := 0;
        return;
      }
      dupacks := dupacks + 1;
      if dupacks == DUPACK_THRESH { EnterRecovery(now); }
    }

    method TakeAck(ack: nat, now: nat)
      requires Valid() && ack < M32
      modifies this, sbuf
      ensures Valid() && State() == OnAck(old(State()), ack, now)
    {
      hide RingOf, NewAck, DupAck;
      if S32(ack - una) > 0 && S32(ack - nxt) <= 0 {
        TakeNewAck(ack, now);
      } else if ack == una && una != nxt {
        TakeDupAck(now);
      }
    }

    // ---- receiving ----

    method Hold(w: Wire)
      requires Valid()
      modifies rbuf
      ensures Valid() && State() == Buffer(old(State()), w)
    {
      hide RingOf;
      ghost var s := rbuf[..];
      if 0 <= S32(w.seqno - rcvNxt) < WIN {
        var k := w.seqno % WIN;
        if !rbuf[k].present {
          var data := if |w.body| < PAYLOAD then w.body else w.body[..PAYLOAD];
          rbuf[k] := rbuf[k].(present := true, seqno := w.seqno, flags := w.flags, data := data);
          assert rbuf[..] == s[k := s[k].(present := true, seqno := w.seqno, flags := w.flags, data := data)];
        }
      }
    }

    method HandOver()
      requires Valid() && CanDeliver(State())
      modifies deliv, deliv.data, rbuf, this`peerFin, this`rcvNxt
      ensures Valid() && State() == DeliverOne(old(State()))
    {
      hide RingOf;
      ghost var s := rbuf[..];
      var k := rcvNxt % WIN;
      var r := rbuf[k];
      deliv.Append(r.data);
      if HasFin(r.flags) { peerFin := true; }
      rbuf[k] := r.(present := false);
      assert rbuf[..] == s[k := r.(present := false)];
      rcvNxt := (rcvNxt + 1) % M32;
    }

    method DeliverAll()
      requires Valid()
      modifies deliv, deliv.data, rbuf, this`peerFin, this`rcvNxt
      ensures Valid() && State() == Deliver(old(State()))
    {
      hide RingOf, DeliverOne, Deliver, CountPresent;
      ghost var e0 := State();
      while true
        invariant Valid() && Deliver(State()) == Deliver(e0)
        decreases CountPresent(rbuf[..])
      {
        DeliverNext(State());
        var k := rcvNxt % WIN;
        if !rbuf[k].present || rbuf[k].seqno != rcvNxt || |rbuf[k].data| > CAP - deliv.count { return; }
        HandOver();
        if peerFin { return; }
      }
    }

    // ---- the public operations ----

    /** Queue application bytes; how many were accepted. */
    method Send(bytes: seq<byte>, now: nat) returns (n: nat)
      requires Valid()
      modifies Repr
      ensures Valid() && State() == Write(old(State()), bytes, now)
      ensures n == Accepts(old(State()), |bytes|)
    {
      hide RingOf, Pump;
      var space := CAP - pend.count;
      n := if |bytes| < space then |bytes| else space;
      ghost var e := State();
      pend.Append(bytes[..n]);
      written := written + bytes[..n];
      assert State() == e.(pend := e.pend + bytes[..n], written := e.written + bytes[..n]);
      PumpOut(now);
    }

    method TakeHeader(w: Wire, now: nat)
      requires Valid() && w.ack < M32
      modifies this, sbuf
      ensures Valid() && State() == InputAck(old(State()), w, now)
    {
      hide RingOf, OnAck, ApplySack;
      peerRwnd := w.rwnd;
      if HasSack(w.flags) && |w.body| >= SACK_BYTES {
        var bm := ReadBe(w.body, 0, 8);
        MarkSacked(w.ack, bm);
      }
      TakeAck(w.ack, now);
    }

    /** Feed one inbound segment. */
    method Feed(b: seq<byte>, now: nat)
      requires Valid()
      modifies Repr
      ensures Valid() && State() == Input(old(State()), b, now)
    {
      hide RingOf, InputAck, Buffer, Deliver, EmitAck;
      if |b| < HEADER { return; }
      Pow256Values();
      var seqno := ReadBe(b, 1, 4);
      var ack := ReadBe(b, 5, 4);
      var rwnd := ReadBe(b, 9, 2);
      var w := Wire(b[0], seqno, ack, rwnd, b[HEADER..]);
      TakeHeader(w, now);
      if !HasData(w.flags) && !HasFin(w.flags) { return; }
      Hold(w);
      DeliverAll();
      EmitAcknowledgement();
    }

    /** Copy delivered bytes out. */
    method Receive(cap: nat) returns (bytes: seq<byte>)
      requires Valid()
      modifies deliv, this`got
      ensures Valid() && State() == Read(old(State()), cap)
      ensures got == old(got) + bytes
    {
      hide RingOf;
      ghost var e := State();
      var n := if deliv.count < cap then deliv.count else cap;
      bytes := deliv.Take(n);
      got := got + bytes;
      assert State() == e.(deliv := e.deliv[n..], got := e.got + e.deliv[..n]);
    }

    /** Back off and collapse the window, unless the peer's window is closed. */
    method BackOffTimer()
      requires Valid()
      modifies this`rto, this`cwnd, this`ssthresh, this`cwndCnt
      ensures Valid()
      ensures var e := old(State());
        State() == if e.peerRwnd != 0
                   then CcOnLoss(e.(rto := if e.rto < RTO_MAX / 2 then e.rto * 2 else RTO_MAX), true)
                   else e
    {
      hide RingOf, CcOnLoss;
      if peerRwnd != 0 {
        rto := if rto < RTO_MAX / 2 then rto * 2 else RTO_MAX;
        Shrink(true);
      }
    }

    method OnTick(now: nat)
      requires Valid()
      modifies Repr
      ensures Valid() && State() == Tick(old(State()), now)
    {
      hide RingOf, Pump, Retransmit, CcOnLoss;
      PumpOut(now);
      if deadline != 0 && now >= deadline && una != nxt {
        BackOffTimer();
        RetransmitRange(now, nxt);
        deadline := (now + rto) % M32;
      }
    }

    method Close(now: nat)
      requires Valid()
      modifies Repr
      ensures Valid() && State() == Finish(old(State()), now)
    {
      hide RingOf, Pump;
      finQueued := true;
      PumpOut(now);
    }

    method IsPeerFinished() returns (done: bool)
      requires Valid()
      ensures done == PeerFinished(State())
    {
      done := peerFin && deliv.count == 0;
    }
  }

  // ---- one turn of each loop ----

  lemma RetransmitNext(e: End, now: nat, q: nat, limit: nat)
    requires |e.sbuf| == WIN && q < M32 && e.nxt < M32
    ensures if q == e.nxt || S32(q - limit) >= 0 then Retransmit(e, now, q, limit) == e
            else
              var seg := e.sbuf[q % WIN];
              var e2 := if seg.sacked then e
                        else EmitSeg(e, seg).(sbuf := e.sbuf[q % WIN := seg.(retx := true, sentAt := now)]);
              Retransmit(e, now, q, limit) == Retransmit(e2, now, U32(q + 1), limit)
  {
    if q != e.nxt { ScanStep(q, e.nxt); }
  }

  lemma FrontierNext(e: End, q: nat, limit: nat)
    requires |e.sbuf| == WIN && q < M32 && e.nxt < M32
    ensures if q == e.nxt then Frontier(e, q, limit) == limit
            else Frontier(e, q, limit)
                 == Frontier(e, U32(q + 1),
                             if e.sbuf[q % WIN].sacked && S32(q + 1 - limit) > 0 then U32(q + 1) else limit)
  {
    if q != e.nxt { ScanStep(q, e.nxt); }
  }

  ghost function MarkBit(e: End, ack: nat, bit: bool, i: nat): End
    requires |e.sbuf| == WIN
  {
    var q := U32(ack + 1 + i);
    var seg := e.sbuf[q % WIN];
    if bit && S32(q - e.una) >= 0 && S32(q - e.nxt) < 0 && seg.seqno == q
    then e.(sbuf := e.sbuf[q % WIN := seg.(sacked := true)])
    else e
  }

  lemma SackNext(e: End, ack: nat, bm: nat, i: nat)
    requires |e.sbuf| == WIN && i <= 63
    ensures if i == 63 then ApplySack(e, ack, bm, i) == e
            else ApplySack(e, ack, bm, i) == ApplySack(MarkBit(e, ack, TestBit(bm, i), i), ack, bm, i + 1)
                 && |MarkBit(e, ack, TestBit(bm, i), i).sbuf| == WIN
  {
  }

  /** `rest` is the bitmap shifted down by `i`. */
  ghost predicate BitsFrom(bm: nat, rest: nat, i: nat) {
    forall j: nat {:trigger TestBit(rest, j)} :: TestBit(rest, j) == TestBit(bm, i + j)
  }

  lemma NextBit(bm: nat, rest: nat, i: nat)
    requires BitsFrom(bm, rest, i)
    ensures (rest % 2 == 1) == TestBit(bm, i) && BitsFrom(bm, rest / 2, i + 1)
  {
    assert TestBit(rest, 0) == TestBit(bm, i + 0);
    forall j: nat ensures TestBit(rest / 2, j) == TestBit(bm, i + 1 + j) {
      assert TestBit(rest, j + 1) == TestBit(bm, i + (j + 1));
    }
  }

  lemma DeliverNext(e: End)
    requires Shaped(e)
    ensures if CanDeliver(e)
            then CountPresent(DeliverOne(e).rbuf) < CountPresent(e.rbuf)
                 && |DeliverOne(e).rbuf| == WIN
                 && Deliver(e) == (if DeliverOne(e).peerFin then DeliverOne(e) else Deliver(DeliverOne(e)))
            else Deliver(e) == e
  {
    if CanDeliver(e) { CountDrops(e.rbuf, e.rcvNxt % WIN); }
  }
}
