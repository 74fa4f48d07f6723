/** What each operation of an endpoint achieves: what a timeout resends, how much a pump cuts, which segments a
    selective acknowledgement marks, what an arrival delivers and answers. */
module StreamEffects {
  import opened Bytes
  import opened StreamWire
  import opened StreamStep
  import opened StreamInvariant
  import opened StreamPreserve
  import opened StreamSystem
  import opened StreamTrace
  import opened StreamTimers

  // ---- timeouts ----

  /** The send buffer after the segments from `q` up to `limit` were resent: those not selectively acknowledged are
      marked as retransmitted and stamped, everything else is as it was. */
  ghost predicate Stamped(e: End, slots: seq<Seg>, now: nat, q: nat, limit: nat)
    requires |e.sbuf| == WIN && |slots| == WIN
  {
    && (forall x: nat {:trigger slots[x % WIN]} :: q <= x < limit ==>
          slots[x % WIN] == if SackedAt(e, x) then e.sbuf[x % WIN] else e.sbuf[x % WIN].(retx := true, sentAt := now))
    && forall j :: 0 <= j < WIN && (forall x: nat :: q <= x < limit ==> x % WIN != j) ==> slots[j] == e.sbuf[j]
  }

  lemma {:induction false} RetransmitMarks(e: End, now: nat, q: nat, limit: nat)
    requires WindowOk(e) && e.una <= q && q <= limit <= e.nxt
    ensures var r := Retransmit(e, now, q, limit); |r.sbuf| == WIN && Stamped(e, r.sbuf, now, q, limit)
    decreases limit - q
  {
    hide Retransmit;
    RetransmitUnfold(e, now, q, limit);
    if q < limit {
      var e1 := if SackedAt(e, q) then e else Resent(e, now, q);
      RetransmitMarks(e1, now, q + 1, limit);
      var r := Retransmit(e, now, q, limit);
      assert forall x: nat :: q < x < limit ==> x % WIN != q % WIN by {
        forall x: nat | q < x < limit ensures x % WIN != q % WIN { SlotsApart(q, x); }
      }
      assert r.sbuf[q % WIN] == e1.sbuf[q % WIN];
    }
  }

  /** What a timeout does, by the peer's window: when it is open the timeout doubles up to a minute, the threshold
      halves but not below two, and the congestion window restarts at ten; when it is closed these stay. */
  ghost predicate BackedOff(e: End, r: End) {
    if e.peerRwnd != 0 then
      && r.rto == (if 2 * e.rto < RTO_MAX then 2 * e.rto else RTO_MAX)
      && r.ssthresh == (if e.cwnd / 2 > 2 then e.cwnd / 2 else 2) && r.cwnd == 10 && r.cwndCnt == 0
    else r.rto == e.rto && r.ssthresh == e.ssthresh && r.cwnd == e.cwnd && r.cwndCnt == e.cwndCnt
  }

  ghost predicate Due(e: End, now: nat) { e.deadline != 0 && now >= e.deadline && e.una != e.nxt }

  ghost predicate Timed(p: End, r: End, now: nat)
    requires |p.sbuf| == WIN
  {
    if Due(p, now) then
      && r.out == p.out + Resends(p, p.una, p.nxt)
      && |r.sbuf| == WIN && Stamped(p, r.sbuf, now, p.una, p.nxt)
      && BackedOff(p, r) && r.deadline == U32(now + r.rto)
      && r == p.(sbuf := r.sbuf, out := r.out, deadline := r.deadline, rto := r.rto, ssthresh := r.ssthresh,
                 cwnd := r.cwnd, cwndCnt := r.cwndCnt)
    else r == p
  }

  /** A tick pumps.  If the timeout is then due, exactly the live segments not selectively acknowledged go out again, in
      order, each marked as retransmitted; the timeout backs off and is set anew.  Otherwise nothing more happens. */
  lemma TickExact(e: End, now: nat)
    requires Shaped(e) && WindowOk(Pump(e, now))
    ensures Timed(Pump(e, now), Tick(e, now), now)
  {
    hide PumpLoop, Retransmit, Resends, Stamped;
    PumpShape(e, now, Window(e));
    var p := Pump(e, now);
    if Due(p, now) {
      var e2 := if p.peerRwnd != 0
                then CcOnLoss(p.(rto := if p.rto < RTO_MAX / 2 then p.rto * 2 else RTO_MAX), true)
                else p;
      TimeoutPass(p, e2, now);
    }
  }

  lemma TimeoutPass(p: End, e2: End, now: nat)
    requires WindowOk(p)
    requires e2 == p.(rto := e2.rto, cwnd := e2.cwnd, ssthresh := e2.ssthresh, cwndCnt := e2.cwndCnt)
    ensures var r := Retransmit(e2, now, e2.una, e2.nxt);
      && r.out == p.out + Resends(p, p.una, p.nxt)
      && |r.sbuf| == WIN && Stamped(p, r.sbuf, now, p.una, p.nxt) && r == e2.(sbuf := r.sbuf, out := r.out)
  {
    hide Retransmit, Resends;
    RetransmitExact(e2, now, e2.una, e2.nxt);
    RetransmitMarks(e2, now, e2.una, e2.nxt);
    RetransmitShape(e2, now, e2.una, e2.nxt);
    ResendsSame(p, e2, p.una, p.nxt);
    assert Stamped(p, Retransmit(e2, now, e2.una, e2.nxt).sbuf, now, p.una, p.nxt);
  }

  lemma TickWindow(e: End, now: nat)
    requires Shaped(e)
    ensures var p, r := Pump(e, now), Tick(e, now); |p.sbuf| == WIN && r.una == p.una && r.nxt == p.nxt
  {
    hide PumpLoop, Retransmit;
    PumpShape(e, now, Window(e));
    var p := Pump(e, now);
    var e2 := if p.peerRwnd != 0
              then CcOnLoss(p.(rto := if p.rto < RTO_MAX / 2 then p.rto * 2 else RTO_MAX), true)
              else p;
    RetransmitShape(e2, now, e2.una, e2.nxt);
  }

  /** In every run, as long as sequence numbers are left, a tick does exactly that. */
  lemma TicksInRuns(evs: seq<Event>, atA: bool, now: nat)
    requires RunOk(Pair(New(), New()), evs)
    requires var p := Run(Pair(New(), New()), evs);
      Shaped(p.a) && Shaped(p.b) && Room(p.a) && Room(p.b) && Room(Tick(Me(p, atA), now))
    ensures var e := Me(Run(Pair(New(), New()), evs), atA);
      WindowOk(Pump(e, now)) && Timed(Pump(e, now), Tick(e, now), now)
  {
    var p := Run(Pair(New(), New()), evs);
    TickWindow(Me(p, atA), now);
    NewInv();
    hide New, Run, RunOk, SysInv, Tick, Pump, FinLast;
    var oa, ob := RunKeeps(Pair(New(), New()), evs, [], []);
    var ev := Ticks(atA, now);
    var oa', ob' := StepKeeps(p, ev, oa, ob);
    SysFacts(Step(p, ev), oa', ob');
    hide Timed;
    TickExact(Me(p, atA), now);
  }

  lemma SysFacts(p: Pair, oa: seq<Piece>, ob: seq<Piece>)
    requires SysInv(p, oa, ob)
    ensures p.a.una <= p.a.nxt <= p.a.una + WIN && p.b.una <= p.b.nxt <= p.b.una + WIN
  {
  }

  // ---- pumping ----

  /** How many segments it takes to send `n` bytes. */
  function Segments(n: nat): nat { (n + PAYLOAD - 1) / PAYLOAD }

  /** The bytes of segment `j` of a pending ring; none behind its end. */
  function Chunk(pend: seq<byte>, j: nat): seq<byte> {
    var lo, hi := PAYLOAD * j, PAYLOAD * (j + 1);
    if lo >= |pend| then [] else if hi >= |pend| then pend[lo..] else pend[lo..hi]
  }

  /** Segment `j` of those to be cut: data while there is any, then the FIN. */
  function NextSeg(e: End, now: nat, j: nat): Seg {
    Seg(e.nxt + j, now, if PAYLOAD * j < |e.pend| then F_DATA else F_FIN, true, false, false, Chunk(e.pend, j))
  }

  /** How many segments the window lets out: as many as there are, up to the smallest of congestion window, peer window
      and 256, but at least one in flight. */
  function Cuts(e: End, win: nat): nat {
    var left := Segments(|e.pend|) + (if e.finQueued then 1 else 0);
    if e.nxt - e.una >= win then 0 else if left < win - (e.nxt - e.una) then left else win - (e.nxt - e.una)
  }

  ghost predicate Pumped(e: End, r: End, now: nat, k: nat)
    requires |e.sbuf| == WIN
  {
    && r.nxt == e.nxt + k && r.una == e.una
    && r.pend == e.pend[if PAYLOAD * k < |e.pend| then PAYLOAD * k else |e.pend|..]
    && r.finQueued == (e.finQueued && k <= Segments(|e.pend|))
    && r.deadline == (if k > 0 && e.deadline == 0 then U32(now + e.rto) else e.deadline)
    && r.out == e.out + Datagrams(e, now, k)
    && |r.sbuf| == WIN && Stored(e, r.sbuf, now, k)
  }

  /** The first `k` segments to be cut, on the wire. */
  ghost function Datagrams(e: End, now: nat, k: nat): (ds: seq<seq<byte>>)
    ensures |ds| == k
  {
    seq(k, j requires 0 <= j < k => Serialize(SegWire(e, NextSeg(e, now, j))))
  }

  /** The first `k` segments to be cut are in their slots, and those in flight where they were. */
  ghost predicate Stored(e: End, slots: seq<Seg>, now: nat, k: nat)
    requires |e.sbuf| == WIN && |slots| == WIN
  {
    && (forall j: nat {:trigger NextSeg(e, now, j)} :: j < k ==> slots[(e.nxt + j) % WIN] == NextSeg(e, now, j))
    && (forall x: nat {:trigger slots[x % WIN]} :: e.una <= x < e.nxt ==> slots[x % WIN] == e.sbuf[x % WIN])
  }

  lemma ChunkNext(e: End, j: nat)
    requires |e.pend| > 0
    ensures Chunk(e.pend[Take(e)..], j) == Chunk(e.pend, j + 1)
    ensures PAYLOAD * j < |e.pend[Take(e)..]| <==> PAYLOAD * (j + 1) < |e.pend|
    ensures Chunk(e.pend, 0) == e.pend[..Take(e)]
    ensures Segments(|e.pend[Take(e)..]|) == Segments(|e.pend|) - 1
  {
  }

  lemma NextSegLater(e: End, now: nat, j: nat)
    requires |e.sbuf| == WIN && NextPiece(e).Some? && e.nxt + 1 < HALF
    requires j < Segments(|AfterPiece(e, now).pend|) + (if AfterPiece(e, now).finQueued then 1 else 0)
    ensures NextSeg(AfterPiece(e, now), now, j) == NextSeg(e, now, j + 1)
    ensures SegWire(AfterPiece(e, now), NextSeg(e, now, j + 1)) == SegWire(e, NextSeg(e, now, j + 1))
  {
    Signed(e.nxt + 1, 0);
    if |e.pend| > 0 { ChunkNext(e, j); }
  }

  lemma NextSegFirst(e: End, now: nat)
    requires |e.sbuf| == WIN && NextPiece(e).Some? && e.nxt + 1 < HALF
    ensures var e1 := AfterPiece(e, now);
      && e1.nxt == e.nxt + 1 && e1.una == e.una && e1.rto == e.rto
      && e1.sbuf == e.sbuf[e.nxt % WIN := NextSeg(e, now, 0)]
      && e1.out == e.out + [Serialize(SegWire(e, NextSeg(e, now, 0)))]
      && e1.deadline == (if e.deadline == 0 then U32(now + e.rto) else e.deadline)
      && e1.pend == e.pend[Take(e)..] && e1.finQueued == (e.finQueued && |e.pend| > 0)
  {
    Signed(e.nxt + 1, 0);
    if |e.pend| > 0 { ChunkNext(e, 0); }
  }

  lemma StoredNext(e: End, e1: End, slots: seq<Seg>, now: nat, k: nat)
    requires |e.sbuf| == WIN && NextPiece(e).Some? && e.nxt + 1 < HALF && e1 == AfterPiece(e, now)
    requires k <= Segments(|e1.pend|) + (if e1.finQueued then 1 else 0) && e.nxt + k < e.una + WIN && e.una <= e.nxt
    requires |e1.sbuf| == WIN && |slots| == WIN && Stored(e1, slots, now, k)
    ensures Stored(e, slots, now, k + 1)
  {
    hide AfterPiece, NextSeg, NextPiece, Segments, Take, Serialize, SegWire;
    NextSegFirst(e, now);
    forall j: nat | j < k + 1 ensures slots[(e.nxt + j) % WIN] == NextSeg(e, now, j) {
      if j > 0 {
        NextSegLater(e, now, j - 1);
        assert slots[(e1.nxt + (j - 1)) % WIN] == NextSeg(e1, now, j - 1);
      } else {
        assert slots[e.nxt % WIN] == e1.sbuf[e.nxt % WIN];
      }
    }
    forall x: nat | e.una <= x < e.nxt ensures slots[x % WIN] == e.sbuf[x % WIN] {
      assert slots[x % WIN] == e1.sbuf[x % WIN];
      SlotsApart(x, e.nxt);
    }
  }

  lemma DatagramsNext(e: End, e1: End, now: nat, k: nat)
    requires |e.sbuf| == WIN && NextPiece(e).Some? && e.nxt + 1 < HALF && e1 == AfterPiece(e, now)
    requires k <= Segments(|e1.pend|) + (if e1.finQueued then 1 else 0)
    ensures e1.out + Datagrams(e1, now, k) == e.out + Datagrams(e, now, k + 1)
  {
    hide AfterPiece, NextSeg, Serialize, SegWire, NextPiece, Segments, Take, Datagrams;
    NextSegFirst(e, now);
    var first, a, b := Serialize(SegWire(e, NextSeg(e, now, 0))), Datagrams(e1, now, k), Datagrams(e, now, k + 1);
    DatagramAt(e, now, k + 1, 0);
    forall j | 0 <= j < k ensures a[j] == b[j + 1] {
      NextSegLater(e, now, j);
      DatagramAt(e1, now, k, j);
      DatagramAt(e, now, k + 1, j + 1);
    }
    Prepended(first, a, b);
    assert (e.out + [first]) + a == e.out + ([first] + a);
  }

  lemma DatagramAt(e: End, now: nat, k: nat, j: nat)
    requires j < k
    ensures Datagrams(e, now, k)[j] == Serialize(SegWire(e, NextSeg(e, now, j)))
  {
  }

  lemma Prepended<T>(x: T, a: seq<T>, b: seq<T>)
    requires |b| == |a| + 1 && b[0] == x && forall j :: 0 <= j < |a| ==> a[j] == b[j + 1]
    ensures b == [x] + a
  {
  }

  lemma PumpedNext(e: End, e1: End, r: End, now: nat, k: nat)
    requires |e.sbuf| == WIN && NextPiece(e).Some? && e.nxt + 1 < HALF && e1 == AfterPiece(e, now)
    requires k <= Segments(|e1.pend|) + (if e1.finQueued then 1 else 0) && e.nxt + k < e.una + WIN && e.una <= e.nxt
    requires |e1.sbuf| == WIN && Pumped(e1, r, now, k)
    ensures Pumped(e, r, now, k + 1)
  {
    NextSegFirst(e, now);
    hide Stored, Datagrams, NextSeg;
    StoredNext(e, e1, r.sbuf, now, k);
    DatagramsNext(e, e1, now, k);
    if |e.pend| > 0 { ChunkNext(e, 0); }
    hide AfterPiece;
  }

  /** A pump cuts exactly as many segments as the window lets out: full ones while there is enough, then the rest, then
      the FIN; each is stored and sent once, in order, and the timeout is armed if it was not. */
  lemma {:induction false} PumpLoopExact(e: End, now: nat, win: nat)
    requires |e.sbuf| == WIN && win <= WIN && e.una <= e.nxt <= e.una + WIN && e.una + WIN < HALF
    ensures Pumped(e, PumpLoop(e, now, win), now, Cuts(e, win))
    decreases e.una + WIN - e.nxt, 1
  {
    hide PumpLoop, Pumped, AfterPiece, Cuts, NextPiece;
    UnfoldPlain(e, now, win);
    if e.nxt - e.una < win && NextPiece(e).Some? { PumpLoopStep(e, now, win); } else { NothingCut(e, now, win); }
  }

  lemma UnfoldPlain(e: End, now: nat, win: nat)
    requires |e.sbuf| == WIN && win <= WIN && e.una <= e.nxt <= e.una + WIN && e.una + WIN < HALF
    ensures if e.nxt - e.una < win && NextPiece(e).Some?
            then |AfterPiece(e, now).sbuf| == WIN
                 && PumpLoop(e, now, win) == PumpLoop(AfterPiece(e, now), now, win)
            else PumpLoop(e, now, win) == e
  {
    hide PumpLoop, AfterPiece, NextPiece, Cut;
    Signed(e.nxt, e.una);
    PumpUnfold(e, now, win);
  }

  lemma {:induction false} PumpLoopStep(e: End, now: nat, win: nat)
    requires |e.sbuf| == WIN && win <= WIN && e.una <= e.nxt < e.una + win && e.una + WIN < HALF && NextPiece(e).Some?
    requires |AfterPiece(e, now).sbuf| == WIN && PumpLoop(e, now, win) == PumpLoop(AfterPiece(e, now), now, win)
    ensures Pumped(e, PumpLoop(e, now, win), now, Cuts(e, win))
    decreases e.una + WIN - e.nxt, 0
  {
    hide PumpLoop, Pumped, AfterPiece, Cuts, Segments, NextPiece;
    var e1 := AfterPiece(e, now);
    CutsNext(e, e1, now, win);
    PumpLoopExact(e1, now, win);
    PumpedNext(e, e1, PumpLoop(e, now, win), now, Cuts(e1, win));
  }

  lemma CutsNext(e: End, e1: End, now: nat, win: nat)
    requires |e.sbuf| == WIN && win <= WIN && e.una <= e.nxt < e.una + win && e.una + WIN < HALF
    requires NextPiece(e).Some? && e1 == AfterPiece(e, now)
    ensures |e1.sbuf| == WIN && e1.una == e.una && e1.nxt == e.nxt + 1
    ensures var k := Cuts(e1, win);
      && Cuts(e, win) == k + 1 && e.nxt + k < e.una + WIN
      && k <= Segments(|e1.pend|) + (if e1.finQueued then 1 else 0)
  {
    NextSegFirst(e, now);
    hide AfterPiece, NextSeg;
    if |e.pend| > 0 { ChunkNext(e, 0); }
  }

  lemma NothingCut(e: End, now: nat, win: nat)
    requires |e.sbuf| == WIN && (e.nxt - e.una >= win || NextPiece(e).None?)
    ensures Cuts(e, win) == 0 && Pumped(e, e, now, 0)
  {
    assert e.out + [] == e.out;
  }

  /** The window a pump works with: the smallest of congestion window, peer window and 256, but at least one. */
  lemma WindowIs(e: End)
    ensures var w := Window(e);
      && (w == 1 || (w <= e.cwnd && w <= e.peerRwnd)) && 1 <= w <= 256
      && (w == 256 || w == e.cwnd || w == e.peerRwnd || (w == 1 && (e.cwnd == 0 || e.peerRwnd == 0)))
  {
  }

  lemma PumpExact(e: End, now: nat)
    requires |e.sbuf| == WIN && e.una <= e.nxt <= e.una + WIN && e.una + WIN < HALF
    ensures Pumped(e, Pump(e, now), now, Cuts(e, Window(e)))
  {
    hide Pumped, PumpLoop, Cuts;
    PumpLoopExact(e, now, Window(e));
  }

  /** A write takes as many bytes as the pending ring has room for and sends what the window lets out. */
  lemma WriteExact(e: End, data: seq<byte>, now: nat)
    requires Shaped(e) && e.una <= e.nxt <= e.una + WIN && e.una + WIN < HALF
    ensures var r := Write(e, data, now);
      var n := if |data| <= CAP - |e.pend| then |data| else CAP - |e.pend|;
      var e1 := e.(pend := e.pend + data[..n]);
      r.written == e.written + data[..n] && Pumped(e1, r, now, Cuts(e1, Window(e)))
  {
    hide PumpLoop, Pumped, Segments;
    var n := Accepts(e, |data|);
    var e0 := e.(pend := e.pend + data[..n], written := e.written + data[..n]);
    PumpShape(e0, now, Window(e0));
    PumpExact(e0, now);
    SameCut(e0, e.(pend := e0.pend), now, Cuts(e0, Window(e0)));
  }

  /** Finishing queues the FIN behind whatever is pending and sends what the window lets out. */
  lemma FinishExact(e: End, now: nat)
    requires |e.sbuf| == WIN && e.una <= e.nxt <= e.una + WIN && e.una + WIN < HALF
    ensures var e1 := e.(finQueued := true); Pumped(e1, Finish(e, now), now, Cuts(e1, Window(e)))
  {
    hide Pumped, PumpLoop, Cuts;
    PumpExact(e.(finQueued := true), now);
  }

  /** What is cut does not depend on the record of what was written. */
  lemma SameCut(e: End, e': End, now: nat, k: nat)
    requires |e.sbuf| == WIN && e' == e.(written := e'.written)
    ensures forall r :: Pumped(e, r, now, k) ==> Pumped(e', r, now, k)
  {
    forall j: nat ensures NextSeg(e', now, j) == NextSeg(e, now, j) {}
    assert Datagrams(e', now, k) == Datagrams(e, now, k);
  }

  /** A read hands over everything there is, up to what is asked for, and changes nothing else. */
  lemma ReadExact(e: End, cap: nat)
    ensures var r := Read(e, cap);
      && |r.got| == |e.got| + (if |e.deliv| < cap then |e.deliv| else cap)
      && e.got <= r.got && r.got + r.deliv == e.got + e.deliv
      && r == e.(got := r.got, deliv := r.deliv)
  {
  }

  // ---- selective acknowledgements ----

  /** Bit `i` of a bitmap sent with acknowledgement `ack` stands for segment `ack + 1 + i`. */
  ghost predicate Reported(ack: nat, bm: nat, i: nat, x: nat) {
    ack + 1 + i <= x < ack + 64 && TestBit(bm, x - ack - 1)
  }

  /** Exactly the live segments that the bitmap reports are marked, beside those that were. */
  lemma {:induction false} SackExact(e: End, ack: nat, bm: nat, i: nat)
    requires |e.sbuf| == WIN && i <= 63 && ack < HALF - 64 && e.una <= e.nxt <= e.una + WIN && e.nxt < HALF
    requires forall x: nat {:trigger e.sbuf[x % WIN]} :: e.una <= x < e.nxt ==> e.sbuf[x % WIN].seqno == x
    ensures var r := ApplySack(e, ack, bm, i);
      && |r.sbuf| == WIN && r == e.(sbuf := r.sbuf)
      && forall x: nat {:trigger r.sbuf[x % WIN]} :: e.una <= x < e.nxt ==>
           r.sbuf[x % WIN] == e.sbuf[x % WIN].(sacked := SackedAt(e, x) || Reported(ack, bm, i, x))
    decreases 63 - i
  {
    hide ApplySack, TestBit;
    SackShape(e, ack, bm, i);
    SackOneBit(e, ack, bm, i);
    if i < 63 {
      var q := ack + 1 + i;
      var seg := e.sbuf[q % WIN];
      var hit := TestBit(bm, i) && e.una <= q < e.nxt;
      var e1 := if hit then e.(sbuf := e.sbuf[q % WIN := seg.(sacked := true)]) else e;
      forall x: nat | e.una <= x < e.nxt
        ensures e1.sbuf[x % WIN] == e.sbuf[x % WIN].(sacked := SackedAt(e, x) || (hit && x == q)) {
        if hit && x < q { SlotsApart(x, q); }
        if hit && q < x { SlotsApart(q, x); }
      }
      SackExact(e1, ack, bm, i + 1);
      var r := ApplySack(e, ack, bm, i);
      forall x: nat | e.una <= x < e.nxt
        ensures r.sbuf[x % WIN] == e.sbuf[x % WIN].(sacked := SackedAt(e, x) || Reported(ack, bm, i, x)) {
        assert r.sbuf[x % WIN] == e1.sbuf[x % WIN].(sacked := SackedAt(e1, x) || Reported(ack, bm, i + 1, x));
      }
    }
  }

  // ---- acknowledgements ----

  /** In plain numbers: what the wrapping comparisons of an acknowledgement mean for a window far from the wrap. */
  lemma AckPlain(una: nat, nxt: nat, ack: nat)
    requires una <= nxt < HALF && ack < M32
    ensures S32(ack - una) > 0 && S32(ack - nxt) <= 0 <==> una < ack <= nxt
    ensures una < ack <= nxt ==> U32(ack - una) == ack - una && U32(ack - 1) == ack - 1
  {
  }

  /** An acknowledgement of something in flight: the window moves up to it, duplicates are forgotten, the timeout is
      stopped when everything is acknowledged and restarted otherwise; the round trip is sampled exactly when the newest
      segment acknowledged was sent once. */
  ghost predicate Moved(e: End, r: End, ack: nat, now: nat)
    requires |e.sbuf| == WIN && e.cwnd >= 1 && e.una < ack
  {
    var seg := e.sbuf[(ack - 1) % WIN];
    && r == e.(una := ack, dupacks := 0, deadline := r.deadline, srtt := r.srtt, rttvar := r.rttvar, rto := r.rto,
               cwnd := r.cwnd, cwndCnt := r.cwndCnt)
    && r.deadline == (if ack == e.nxt then 0 else U32(now + r.rto))
    && (r.srtt, r.rttvar, r.rto) == (if seg.seqno == ack - 1 && !seg.retx
                                     then RttNext(e.srtt, e.rttvar, U32(now - seg.sentAt))
                                     else (e.srtt, e.rttvar, e.rto))
    && (r.cwnd, r.cwndCnt) == CcNext(e.cwnd, e.ssthresh, e.cwndCnt, ack - e.una)
  }

  /** The third duplicate in a row: the window is halved and the holes go out again. */
  ghost predicate Halved(e: End, r: End, now: nat)
    requires |e.sbuf| == WIN
  {
    && r.ssthresh == (if e.cwnd / 2 > 2 then e.cwnd / 2 else 2) && r.cwnd == r.ssthresh && r.cwndCnt == 0
    && r.dupacks == 3 && r.deadline == U32(now + e.rto) && r.una == e.una && r.nxt == e.nxt
    && exists f :: IsFrontier(e, f) && r.out == e.out + Resends(e, e.una, f)
  }

  /** What an acknowledgement does, whichever it is: one of something in flight moves the window; a repetition of the
      last one counts, unless the peer's window is closed, and the third starts recovery; any other is ignored. */
  lemma AckExact(e: End, ack: nat, now: nat)
    requires Shaped(e) && WindowOk(e) && ack < M32
    ensures var r := OnAck(e, ack, now);
      if e.una < ack <= e.nxt then Moved(e, r, ack, now)
      else if ack == e.una && e.una < e.nxt then
        if e.peerRwnd == 0 then r == e.(dupacks := 0)
        else if e.dupacks + 1 == 3 then Halved(e, r, now)
        else r == e.(dupacks := e.dupacks + 1)
      else r == e
  {
    AckPlain(e.una, e.nxt, ack);
    if e.una < ack <= e.nxt {
      hide S32, U32, RttNext, CcNext;
    } else if ack == e.una && e.una < e.nxt && e.peerRwnd != 0 && e.dupacks + 1 == 3 {
      ThirdDup(e, now);
      hide DupAck, Halved;
    } else {
      hide FastRetransmit, S32;
    }
  }

  lemma ThirdDup(e: End, now: nat)
    requires Shaped(e) && WindowOk(e) && e.una < e.nxt && e.peerRwnd != 0 && e.dupacks + 1 == 3
    ensures Halved(e, DupAck(e, now), now)
  {
    hide Retransmit, Frontier, Resends, S32;
    var e2 := CcOnLoss(e.(dupacks := 3), false);
    assert WindowOk(e2) && e2.sbuf == e.sbuf && e2.rto == e.rto;
    HolesResent(e, e2, now);
    RetransmitShape(e2, now, e2.una, Frontier(e2, e2.una, U32(e2.una + 1)));
  }

  lemma HolesResent(e: End, e2: End, now: nat)
    requires WindowOk(e) && e.una < e.nxt
    requires e2 == e.(dupacks := e2.dupacks, cwnd := e2.cwnd, ssthresh := e2.ssthresh, cwndCnt := e2.cwndCnt)
    ensures exists f :: IsFrontier(e, f) && FastRetransmit(e2, now).out == e.out + Resends(e, e.una, f)
  {
    hide Resends, FastRetransmit;
    FastRetransmitExact(e2, now);
    var f: nat :| IsFrontier(e2, f) && FastRetransmit(e2, now).out == e2.out + Resends(e2, e2.una, f);
    ResendsSame(e, e2, e.una, f);
    forall x | f <= x < e.nxt ensures !SackedAt(e, x) { assert !SackedAt(e2, x); }
    assert IsFrontier(e, f);
  }

  // ---- arrivals ----

  /** The datagram that answers data: it acknowledges everything delivered, offers the free space of the delivery ring
      in whole segments, and reports which of the 63 segments after the next are held, when any is. */
  ghost predicate Answers(r: End, b: seq<byte>)
    requires |r.rbuf| == WIN
  {
    && Parse(b).Some?
    && var w := Parse(b).value;
    && HasAck(w.flags) && !HasData(w.flags) && !HasFin(w.flags)
    && w.seqno == r.nxt && w.ack == r.rcvNxt
    && w.rwnd <= WIN && w.rwnd * PAYLOAD + |r.deliv| <= CAP && CAP < (w.rwnd + 1) * PAYLOAD + |r.deliv|
    && (HasSack(w.flags) <==> exists i :: 0 <= i < 63 && Beyond(r, i))
    && (HasSack(w.flags) ==> |w.body| == 8)
    && (HasSack(w.flags) ==> forall i :: 0 <= i < 63 ==> (TestBit(GetBe(w.body, 0, 8), i) <==> Beyond(r, i)))
  }

  /** The receiver holds segment `i` of those after the next expected one. */
  ghost predicate Beyond(r: End, i: nat)
    requires |r.rbuf| == WIN
  {
    Held(r, r.rcvNxt + 1 + i)
  }

  lemma {:induction false} BitmapZero(has: seq<bool>)
    ensures Bitmap(has) == 0 <==> forall i :: 0 <= i < |has| ==> !has[i]
  {
    if has != [] {
      BitmapZero(has[1..]);
      assert forall i :: 0 < i < |has| ==> has[i] == has[1..][i - 1];
      if Bitmap(has) != 0 && !has[0] { var i :| 0 <= i < |has| - 1 && has[1..][i]; assert has[i + 1]; }
    }
  }

  lemma AckAnswers(e: End)
    requires Shaped(e) && e.rcvNxt < HALF - 64 && e.nxt < M32
    ensures Answers(e, Serialize(AckWire(e)))
  {
    hide Bitmap, TestBit, Held, Be, UnBe;
    var has := SackHas(e);
    BitmapZero(has);
    forall i | 0 <= i < 63 ensures has[i] == Beyond(e, i) && TestBit(Bitmap(has), i) == has[i] {
      SackBit(e, i);
      BitmapBits(has, i);
    }
    hide SackHas;
    ParseSerialize(AckWire(e));
    AckFlags();
    if Bitmap(has) != 0 {
      BitmapWire(has);
      var body := AckWire(e).body;
      assert body[0..8] == body;
    }
    hide Beyond, Parse, Serialize;
  }

  lemma AckFlags()
    ensures HasAck(F_ACK) && !HasData(F_ACK) && !HasFin(F_ACK) && !HasSack(F_ACK)
    ensures var f := F_ACK + F_SACK; HasAck(f) && !HasData(f) && !HasFin(f) && HasSack(f)
  {
  }

  /** The next segment is missing, or the delivery ring has no room for it. */
  ghost predicate Stopped(r: End)
    requires |r.rbuf| == WIN
  {
    var seg := r.rbuf[r.rcvNxt % WIN];
    !(seg.present && seg.seqno == r.rcvNxt) || |r.deliv| + |seg.data| > CAP
  }

  /** Delivery goes on until the next segment is missing or does not fit the ring, or a FIN is in. */
  lemma {:induction false} DeliversAll(e: End)
    requires |e.rbuf| == WIN
    ensures var r := Deliver(e); |r.rbuf| == WIN && (r.peerFin || Stopped(r))
    decreases CountPresent(e.rbuf)
  {
    if CanDeliver(e) {
      CountDrops(e.rbuf, e.rcvNxt % WIN);
      if !DeliverOne(e).peerFin { DeliversAll(DeliverOne(e)); }
    }
  }

  /** What a datagram with data or a FIN does at the receiver: its segment is held if it is inside the window, nothing
      held is lost, delivery goes as far as it can, and exactly one answer goes out last. */
  ghost predicate Arrived(e: End, r: End, w: Wire)
    requires |e.rbuf| == WIN && |r.rbuf| == WIN
  {
    && (e.rcvNxt <= w.seqno < e.rcvNxt + WIN ==> Held(r, w.seqno))
    && e.rcvNxt <= r.rcvNxt && (forall q: nat :: Held(e, q) ==> Held(r, q))
    && (r.peerFin || Stopped(r))
    && |e.out| < |r.out| && e.out <= r.out && Answers(r, r.out[|r.out| - 1])
  }

  lemma BufferHolds(e: End, w: Wire, o: seq<Piece>, i: seq<Piece>)
    requires EndInv(e, o, i) && w.seqno < HALF && e.rcvNxt <= w.seqno < e.rcvNxt + WIN
    ensures |Buffer(e, w).rbuf| == WIN && Held(Buffer(e, w), w.seqno)
  {
    Signed(w.seqno, e.rcvNxt);
    assert HeldSlot(e, w.seqno % WIN, i);
    if e.rbuf[w.seqno % WIN].present { SameSlot(e.rbuf[w.seqno % WIN].seqno, w.seqno, e.rcvNxt); }
  }

  lemma SameSlot(p: nat, q: nat, base: nat)
    requires base <= p < base + WIN && base <= q < base + WIN && p % WIN == q % WIN
    ensures p == q
  {
    if p < q { SlotsApart(p, q); } else if q < p { SlotsApart(q, p); }
  }

  lemma AckKeepsHeld(e: End, e1: End)
    requires Shaped(e) && AckOnly(e, e1)
    ensures |e1.rbuf| == WIN && e1.rcvNxt == e.rcvNxt && e1.peerFin == e.peerFin
    ensures forall q: nat :: Held(e, q) <==> Held(e1, q)
  {
  }

  lemma ReceiveExact(e: End, w: Wire, o: seq<Piece>, i: seq<Piece>)
    requires EndInv(e, o, i) && |i| < HALF - 64
    requires w.seqno < |i| && w.body == i[w.seqno].data && HasFin(w.flags) == i[w.seqno].fin
    ensures |Deliver(Buffer(e, w)).rbuf| == WIN
    ensures var r := EmitAck(Deliver(Buffer(e, w))); |r.rbuf| == WIN && Arrived(e, r, w)
  {
    hide EndInv, Buffer, Deliver, Answers, Stopped, Held, AckWire, Serialize;
    EndFacts(e, o, i);
    if e.rcvNxt <= w.seqno < e.rcvNxt + WIN { BufferHolds(e, w, o, i); }
    BufferKeeps(e, w, o, i);
    var e2 := Buffer(e, w);
    DeliverKeeps(e2, o, i);
    DeliversAll(e2);
    var e3 := Deliver(e2);
    EndFacts(e3, o, i);
    ReceivedOf(e3, o, i);
    AckAnswers(e3);
    AnswerKept(e3, Serialize(AckWire(e3)));
  }

  lemma ArrivalExact(e: End, k: nat, now: nat, s: End, o: seq<Piece>, i: seq<Piece>)
    requires PairInv(e, s, o, i) && Shaped(e) && k < |s.out| && Room(e) && Room(s)
    requires Parse(s.out[k]).Some? && var w := Parse(s.out[k]).value; HasData(w.flags) || HasFin(w.flags)
    ensures var r := Input(e, s.out[k], now); |r.rbuf| == WIN && Arrived(e, r, Parse(s.out[k]).value)
  {
    var b := s.out[k];
    assert DataPacket(b, i) && AckPacket(b, s);
    hide EndInv, Linked, InputAck, Buffer, Deliver, Answers, Stopped, AckPacket, EmitAck, Held;
    EndFacts(s, i, o);
    Pow256Values();
    var w := Parse(b).value;
    AckPair(e, b, now, s, o, i);
    var e1 := InputAck(e, w, now);
    AckKeepsHeld(e, e1);
    InputAckGrows(e, w, now);
    ReceiveExact(e1, w, o, i);
  }

  lemma AnswerKept(e: End, b: seq<byte>)
    requires Shaped(e) && Answers(e, b)
    ensures var r := e.(out := e.out + [b]); Answers(r, b) && Stopped(r) == Stopped(e)
    ensures forall q: nat :: Held(e.(out := e.out + [b]), q) <==> Held(e, q)
  {
    var r := e.(out := e.out + [b]);
    forall i | 0 <= i < 63 ensures Beyond(r, i) == Beyond(e, i) {}
    hide TestBit, Parse;
  }

  /** In every run a datagram with data or a FIN does exactly that where it arrives. */
  lemma ArrivalsInRuns(evs: seq<Event>, atA: bool, k: nat, now: nat)
    requires RunOk(Pair(New(), New()), evs)
    requires var p := Run(Pair(New(), New()), evs);
      && Enabled(p, Arrives(atA, k, now))
      && Parse(Peer(p, atA).out[k]).Some?
      && var w := Parse(Peer(p, atA).out[k]).value; HasData(w.flags) || HasFin(w.flags)
    ensures var p := Run(Pair(New(), New()), evs);
      var e, b := Me(p, atA), Peer(p, atA).out[k];
      var r := Input(e, b, now);
      |r.rbuf| == WIN && Arrived(e, r, Parse(b).value)
  {
    var p := Run(Pair(New(), New()), evs);
    NewInv();
    hide New, Run, RunOk, Arrived, FinLast, Input;
    var oa, ob := RunKeeps(Pair(New(), New()), evs, [], []);
    PairSym(p.a, p.b, oa, ob);
    hide PairInv;
    ArrivalExact(Me(p, atA), k, now, Peer(p, atA), if atA then oa else ob, if atA then ob else oa);
  }

  /** The endpoint as it takes up an acknowledgement: the peer's window is the one advertised, and the segments that a
      bitmap reports are marked. */
  ghost predicate Informed(e: End, e2: End, w: Wire)
    requires |e.sbuf| == WIN && |e2.sbuf| == WIN
  {
    && e2 == e.(peerRwnd := w.rwnd, sbuf := e2.sbuf)
    && (!(HasSack(w.flags) && |w.body| >= 8) ==> e2.sbuf == e.sbuf)
    && (HasSack(w.flags) && |w.body| >= 8 ==>
          forall x: nat {:trigger e2.sbuf[x % WIN]} :: e.una <= x < e.nxt ==>
            var hit := Reported(w.ack, GetBe(w.body, 0, 8), 0, x);
            e2.sbuf[x % WIN] == e.sbuf[x % WIN].(sacked := SackedAt(e, x) || hit))
  }

  /** Every datagram of full header length is taken as an acknowledgement with what it says of window and marks; one
      without data or FIN has no other effect, and one that is too short has none at all. */
  lemma InputExact(e: End, b: seq<byte>, now: nat) returns (e2: End)
    requires Shaped(e) && WindowOk(e)
    requires forall x: nat {:trigger e.sbuf[x % WIN]} :: e.una <= x < e.nxt ==> e.sbuf[x % WIN].seqno == x
    requires |b| >= 11 ==> GetBe(b, 5, 4) < HALF - 64
    ensures if |b| < 11 then Input(e, b, now) == e
            else
              && Parse(b).Some? && Shaped(e2)
              && var w := Parse(b).value;
              && w.flags == b[0] && w.seqno == GetBe(b, 1, 4) && w.ack == GetBe(b, 5, 4) && w.rwnd == GetBe(b, 9, 2)
              && w.body == b[11..] && Informed(e, e2, w) && InputAck(e, w, now) == OnAck(e2, w.ack, now)
              && (!HasData(w.flags) && !HasFin(w.flags) ==> Input(e, b, now) == OnAck(e2, w.ack, now))
  {
    e2 := e;
    if |b| >= 11 {
      var w := Parse(b).value;
      Pow256Values();
      InputShape(e, w, now);
      var e1, bm := e.(peerRwnd := w.rwnd), if |w.body| >= SACK_BYTES then GetBe(w.body, 0, 8) else 0;
      SackShape(e1, w.ack, bm, 0);
      e2 := if HasSack(w.flags) && |w.body| >= SACK_BYTES then ApplySack(e1, w.ack, bm, 0) else e1;
      SackExact(e1, w.ack, bm, 0);
      hide OnAck, ApplySack, Reported, GetBe;
    }
  }
}
