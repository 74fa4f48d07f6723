/** Reliability: whatever has been lost so far, ticks, fresh datagrams and reads get every byte written across, exactly
    when the sender still has something to send. */
module StreamRecovery {
  import opened Bytes
  import opened StreamWire
  import opened StreamStep
  import opened StreamInvariant
  import opened StreamPreserve
  import opened StreamSystem
  import opened StreamTrace
  import opened StreamTimers
  import opened StreamBounds
  import opened StreamEffects

  /** The last reading of the 32-bit millisecond clock before it wraps. */
  const LATE: nat := M32 - 1

  // ---- one direction ----

  /** Every byte accepted by the sender has reached the receiver. */
  ghost predicate Delivered(s: End, r: End) { r.got + r.deliv == s.written }

  /** Either nothing is in flight, or the timeout is armed and some segment is not selectively acknowledged. */
  ghost predicate Ready(s: End)
    requires |s.sbuf| == WIN
  {
    s.una == s.nxt || (s.deadline != 0 && exists q: nat :: s.una <= q < s.nxt && !SackedAt(s, q))
  }

  /** Segments in flight, and twice what is still to be cut. */
  ghost function Work(s: End): nat
    requires s.una <= s.nxt
  {
    s.nxt - s.una + 2 * (|s.pend| + if s.finQueued then 1 else 0)
  }

  /** Sequence numbers are left for everything that is to be cut. */
  ghost predicate Ample(s: End) { s.nxt + |s.pend| + (if s.finQueued then 1 else 0) < HALF - 4 * WIN }

  ghost predicate Good(s: End, r: End, o: seq<Piece>, i: seq<Piece>) {
    PairInv(s, r, o, i) && FinLast(s, o) && CcInv(s) && Ample(s) && Room(r)
  }

  lemma SegmentsSmall(n: nat)
    ensures Segments(n) <= n && (n > 0 ==> Segments(n) > 0)
  {
  }

  /** Pumping turns bytes into segments and never adds work. */
  lemma PumpWork(e: End, r: End, now: nat, k: nat)
    requires |e.sbuf| == WIN && e.una <= e.nxt && Pumped(e, r, now, k)
    requires k <= Segments(|e.pend|) + (if e.finQueued then 1 else 0)
    ensures r.una <= r.nxt && Work(r) <= Work(e) && (Ample(e) ==> Ample(r))
  {
    hide Datagrams, Stored, Segments;
    SegmentsSmall(|e.pend|);
    PieceCount(|e.pend|, k);
  }

  lemma PieceCount(n: nat, k: nat)
    ensures k <= Segments(n) ==> k <= (if PAYLOAD * k < n then PAYLOAD * k else n)
    ensures k > Segments(n) ==> PAYLOAD * k >= n
  {
  }

  /** With the bytes not all across, nothing in flight means something is pending. */
  lemma SomethingLeft(s: End, r: End, o: seq<Piece>, i: seq<Piece>)
    requires PairInv(s, r, o, i) && !Delivered(s, r) && s.una == s.nxt
    ensures s.pend != []
  {
    assert r.rcvNxt == |o| && o[..|o|] == o;
  }

  /** A FIN in place means that they are. */
  lemma FinMeansDelivered(s: End, r: End, o: seq<Piece>, i: seq<Piece>)
    requires PairInv(s, r, o, i) && FinLast(s, o) && r.peerFin
    ensures Delivered(s, r)
  {
    var f :| 0 <= f < r.rcvNxt && o[f].fin;
    assert o == o[..r.rcvNxt] + o[r.rcvNxt..];
    ConcatSplit(o[..r.rcvNxt], o[r.rcvNxt..]);
    NoData(o[r.rcvNxt..]);
    assert r.got + r.deliv + [] == r.got + r.deliv;
  }

  // ---- the timeout ----

  /** The first live segment that is not selectively acknowledged is the first to go out again. */
  lemma {:induction false} FirstResent(e: End, x: nat, limit: nat) returns (q: nat)
    requires |e.sbuf| == WIN && exists y: nat :: x <= y < limit && !SackedAt(e, y)
    ensures x <= q < limit && !SackedAt(e, q) && (q == x || SackedAt(e, x))
    ensures Resends(e, x, limit) != [] && Resends(e, x, limit)[0] == Serialize(SegWire(e, e.sbuf[q % WIN]))
    decreases limit - x
  {
    hide SegWire, Serialize;
    if SackedAt(e, x) {
      var y: nat :| x <= y < limit && !SackedAt(e, y);
      assert x + 1 <= y < limit;
      q := FirstResent(e, x + 1, limit);
    } else {
      q := x;
    }
  }

  /** Just before the clock wraps every armed timeout is due, and a new one is never stored as zero. */
  lemma LateClock(rto: nat, deadline: nat)
    requires RTO_MIN <= rto <= RTO_MAX && deadline < M32
    ensures U32(LATE + rto) == rto - 1 != 0 && LATE >= deadline && U32(rto) == rto
  {
  }

  /** After the pump of a tick something is in flight, the timeout is due, and not everything is marked. */
  lemma PumpReady(s: End, r: End, o: seq<Piece>, i: seq<Piece>)
    requires Good(s, r, o, i) && Ready(s) && !Delivered(s, r)
    ensures var p := Pump(s, LATE);
      && WindowOk(p) && p.una == s.una && Due(p, LATE) && Work(p) <= Work(s) && Ample(p) && p.rto == s.rto
      && s.out <= p.out && p.written == s.written
      && exists q: nat :: p.una <= q < p.nxt && !SackedAt(p, q)
  {
    hide EndInv, Linked, PumpLoop, FinLast, Segments, Datagrams, Pumped, U32;
    EndFacts(s, o, i);
    PumpShape(s, LATE, Window(s));
    PumpExact(s, LATE);
    var p, k := Pump(s, LATE), Cuts(s, Window(s));
    PumpWork(s, p, LATE, k);
    LateClock(s.rto, s.deadline);
    PumpGrows(s, LATE);
    if s.una == s.nxt { SomethingLeft(s, r, o, i); SegmentsSmall(|s.pend|); }
    PumpLeaves(s, p, k);
  }

  lemma PumpLeaves(s: End, p: End, k: nat)
    requires |s.sbuf| == WIN && Pumped(s, p, LATE, k) && Ready(s) && s.una <= s.nxt && (s.una == s.nxt ==> k > 0)
    requires U32(LATE + s.rto) != 0
    ensures p.una == s.una < p.nxt == s.nxt + k && p.deadline != 0 && |p.sbuf| == WIN
    ensures p.deadline == s.deadline || p.deadline == U32(LATE + s.rto)
    ensures exists q: nat :: p.una <= q < p.nxt && !SackedAt(p, q)
  {
    hide Datagrams, Segments, U32;
    if s.una == s.nxt {
      assert p.sbuf[(s.nxt + 0) % WIN] == NextSeg(s, LATE, 0);
      assert !SackedAt(p, s.nxt);
    } else {
      var q: nat :| s.una <= q < s.nxt && !SackedAt(s, q);
      assert p.sbuf[q % WIN] == s.sbuf[q % WIN];
      assert !SackedAt(p, q);
    }
  }

  /** What a timeout gives the network: a fresh datagram with a live segment, the oldest unless that one is marked. */
  ghost predicate Resent(s: End, s1: End, q: nat, k: nat, o: seq<Piece>)
    requires |s1.sbuf| == WIN
  {
    && s1.una <= q < s1.nxt && (q == s1.una || SackedAt(s1, s1.una))
    && |s.out| <= k < |s1.out| && Parse(s1.out[k]).Some?
    && var w := Parse(s1.out[k]).value;
       w.seqno == q && (HasData(w.flags) || HasFin(w.flags))
  }

  lemma DatagramOut(s: End, p: End, s1: End, o: seq<Piece>, i: seq<Piece>) returns (q: nat, k: nat)
    requires WindowOk(p) && Due(p, LATE) && Timed(p, s1, LATE) && s.out <= p.out && EndInv(s1, o, i)
    requires exists q: nat :: p.una <= q < p.nxt && !SackedAt(p, q)
    ensures |s1.sbuf| == WIN && Resent(s, s1, q, k, o)
  {
    hide EndInv, BackedOff, U32;
    q := FirstResent(p, p.una, p.nxt);
    k := |p.out|;
    SlotAt(s1, o, i, q);
    assert s1.sbuf[q % WIN] == p.sbuf[q % WIN].(retx := true, sentAt := LATE);
    assert s1.sbuf[p.una % WIN].sacked == p.sbuf[p.una % WIN].sacked;
    hide Stamped, Resends, SlotIs;
    SegParsed(p, s1, q, o);
    hide Serialize, SegWire, Parse;
  }

  lemma TickResends(s: End, r: End, o: seq<Piece>, i: seq<Piece>) returns (o': seq<Piece>, q: nat, k: nat)
    requires Good(s, r, o, i) && Ready(s) && !Delivered(s, r)
    ensures Shaped(s)
    ensures var s1 := Tick(s, LATE);
      && Good(s1, r, o', i) && s1.una == s.una < s1.nxt && Work(s1) <= Work(s) && s1.written == s.written
      && s.out <= s1.out && Resent(s, s1, q, k, o')
  {
    hide Pump, Tick, EndInv, Linked, FinLast, CcInv, Resends, Stamped, SackedAt, Resent, Ready;
    EndFacts(s, o, i);
    PumpReady(s, r, o, i);
    o' := TickPair(s, LATE, r, o, i);
    var p, s1 := Pump(s, LATE), Tick(s, LATE);
    TickExact(s, LATE);
    TickBounds(s, LATE);
    TickGrows(s, LATE);
    q, k := DatagramOut(s, p, s1, o', i);
  }

  lemma SlotAt(e: End, o: seq<Piece>, i: seq<Piece>, q: nat)
    requires EndInv(e, o, i) && e.una <= q < e.nxt
    ensures q < |o| < HALF && SlotIs(e.sbuf[q % WIN], q, o[q]) && Shaped(e)
  {
  }

  lemma SegParsed(p: End, s: End, q: nat, o: seq<Piece>)
    requires |p.sbuf| == WIN && |s.sbuf| == WIN && q < |o| < HALF && p.rcvNxt < M32 && |p.deliv| <= CAP
    requires SlotIs(s.sbuf[q % WIN], q, o[q])
    requires s.sbuf[q % WIN].seqno == p.sbuf[q % WIN].seqno && s.sbuf[q % WIN].flags == p.sbuf[q % WIN].flags
    ensures var b := Serialize(SegWire(p, p.sbuf[q % WIN]));
      && Parse(b).Some?
      && var w := Parse(b).value;
         w.seqno == q && (HasData(w.flags) || HasFin(w.flags))
  {
    ParseSerialize(SegWire(p, p.sbuf[q % WIN]));
  }

  // ---- the arrival ----

  /** How many bytes a stretch of pieces has. */
  lemma {:induction false} PiecesShort(o: seq<Piece>)
    requires forall q :: 0 <= q < |o| ==> PieceOk(o[q])
    ensures |Concat(o)| <= PAYLOAD * |o|
  {
    if o != [] { PiecesShort(o[..|o| - 1]); }
  }

  /** Starting from an empty ring, what has been delivered since is short of the ring by a segment for each one missing
      from a full window. */
  lemma RingFits(r: End, r1: End, o: seq<Piece>, i: seq<Piece>)
    requires EndInv(r, i, o) && EndInv(r1, i, o) && r.deliv == [] && r1.got == r.got && r.rcvNxt <= r1.rcvNxt
    ensures |r1.deliv| <= PAYLOAD * (r1.rcvNxt - r.rcvNxt)
  {
    var a, b := o[..r.rcvNxt], o[r.rcvNxt..r1.rcvNxt];
    RecvFacts(r, i, o);
    RecvFacts(r1, i, o);
    hide EndInv, Concat;
    assert o[..r1.rcvNxt] == a + b;
    ConcatSplit(a, b);
    assert r.got + [] == r.got;
    Rest(r.got, r1.deliv, Concat(b));
    PiecesShort(b);
  }

  lemma RecvFacts(r: End, i: seq<Piece>, o: seq<Piece>)
    requires EndInv(r, i, o)
    ensures r.rcvNxt <= |o| && r.got + r.deliv == Concat(o[..r.rcvNxt]) && forall q :: 0 <= q < |o| ==> PieceOk(o[q])
  {
  }

  lemma Rest<T>(x: seq<T>, a: seq<T>, b: seq<T>)
    requires x + a == x + b
    ensures a == b
  {
    assert a == (x + a)[|x|..] && b == (x + b)[|x|..];
  }

  /** A segment that fits is not what delivery stops at. */
  lemma NotStopped(r1: End, o: seq<Piece>, i: seq<Piece>)
    requires EndInv(r1, i, o) && Held(r1, r1.rcvNxt) && |r1.deliv| + PAYLOAD <= CAP
    ensures !Stopped(r1)
  {
    assert HeldSlot(r1, r1.rcvNxt % WIN, o);
  }

  lemma GotKept(e: End, b: seq<byte>, now: nat)
    requires Shaped(e)
    ensures Input(e, b, now).got == e.got && Input(e, b, now).nxt == e.nxt && Input(e, b, now).written == e.written
  {
    if Parse(b).Some? {
      var w := Parse(b).value;
      Pow256Values();
      InputShape(e, w, now);
      hide InputAck, Deliver, Buffer;
      BufferFields(InputAck(e, w, now), w);
      DeliverFields(Buffer(InputAck(e, w, now), w));
    }
  }

  /** The fresh datagram moves the receiver past the sender's oldest segment, and delivery then stops only at a segment
      that is missing, unless every byte is across. */
  lemma ArrivalMoves(s1: End, r: End, o: seq<Piece>, i: seq<Piece>, q: nat, k: nat, s: End)
    requires Good(s1, r, o, i) && r.deliv == [] && !Delivered(s1, r) && Resent(s, s1, q, k, o)
    ensures Shaped(r) && k < |s1.out|
    ensures var r1 := Input(r, s1.out[k], 0);
      && Good(s1, r1, o, i) && s1.una < r1.rcvNxt <= s1.nxt && |r.out| < |r1.out| && r.out <= r1.out
      && Answers(r1, r1.out[|r1.out| - 1])
      && (Delivered(s1, r1) || r1.rcvNxt == s1.nxt || !Held(r1, r1.rcvNxt))
  {
    hide Input, EndInv, Linked, CcInv, FinLast, Answers, Held, Stopped, SackedAt;
    EndFacts(s1, o, i);
    PairSym(s1, r, o, i);
    EndFacts(r, i, o);
    LinkFacts(s1, r, o, i);
    var r1 := Input(r, s1.out[k], 0);
    ArrivalExact(r, k, 0, s1, i, o);
    InputPair(r, k, 0, s1, i, o);
    PairSym(r1, s1, i, o);
    EndFacts(r1, i, o);
    LinkFacts(s1, r1, o, i);
    GotKept(r, s1.out[k], 0);
    RingFits(r, r1, o, i);
    if r1.peerFin { FinMeansDelivered(s1, r1, o, i); }
    if Held(r1, r1.rcvNxt) && r1.rcvNxt < s1.nxt { NotStopped(r1, o, i); }
    assert Held(r, s1.una) || q == r.rcvNxt;
    assert Held(r1, s1.una);
    if r1.rcvNxt == s1.una { SameDelivery(s1, r, r1, o, i); }
  }

  /** How the two ends of one direction stand to each other. */
  lemma LinkFacts(s: End, r: End, o: seq<Piece>, i: seq<Piece>)
    requires PairInv(s, r, o, i)
    ensures Shaped(s) && Shaped(r) && s.una <= r.rcvNxt <= s.nxt <= s.una + WIN
    ensures s.una < s.nxt && SackedAt(s, s.una) ==> Held(r, s.una)
    ensures forall q: nat :: q < r.rcvNxt ==> Held(r, q)
  {
  }

  /** Without progress of the receiver, the same bytes are across. */
  lemma SameDelivery(s: End, r: End, r1: End, o: seq<Piece>, i: seq<Piece>)
    requires EndInv(r, i, o) && EndInv(r1, i, o) && r1.rcvNxt == r.rcvNxt
    ensures Delivered(s, r1) <==> Delivered(s, r)
  {
    RecvFacts(r, i, o);
    RecvFacts(r1, i, o);
  }

  // ---- the acknowledgement ----

  /** An answer taken up by the sender is an acknowledgement and nothing else. */
  lemma AnswerTaken(s1: End, r1: End, b: seq<byte>)
    requires Shaped(s1) && WindowOk(s1) && |r1.rbuf| == WIN && Answers(r1, b) && s1.una < r1.rcvNxt <= s1.nxt
    ensures var s2 := Input(s1, b, 0);
      && s2.una == r1.rcvNxt && s2.nxt == s1.nxt && s2.pend == s1.pend && s2.finQueued == s1.finQueued
      && s2.deadline == (if s2.una == s2.nxt then 0 else U32(s2.rto)) && s2.written == s1.written && s2.out == s1.out
  {
    var w := Parse(b).value;
    Pow256Values();
    hide OnAck, ApplySack, TestBit, Parse;
    var e1 := s1.(peerRwnd := w.rwnd);
    SackShape(e1, w.ack, if |w.body| >= SACK_BYTES then GetBe(w.body, 0, 8) else 0, 0);
    var e2 := if HasSack(w.flags) && |w.body| >= SACK_BYTES then ApplySack(e1, w.ack, GetBe(w.body, 0, 8), 0) else e1;
    AckExact(e2, w.ack, 0);
    hide RttNext, CcNext, U32, GetBe;
  }

  lemma Unmarked(s: End, r: End, o: seq<Piece>, i: seq<Piece>)
    requires PairInv(s, r, o, i) && s.una < s.nxt && !Held(r, s.una)
    ensures !SackedAt(s, s.una)
  {
  }

  lemma AckMoves(s1: End, r1: End, o: seq<Piece>, i: seq<Piece>)
    requires Good(s1, r1, o, i) && s1.una < r1.rcvNxt <= s1.nxt && r1.out != [] && Answers(r1, r1.out[|r1.out| - 1])
    requires Delivered(s1, r1) || r1.rcvNxt == s1.nxt || !Held(r1, r1.rcvNxt)
    ensures Shaped(s1)
    ensures var s2 := Input(s1, r1.out[|r1.out| - 1], 0);
      && Good(s2, r1, o, i) && Work(s2) < Work(s1) && s2.written == s1.written && s1.out <= s2.out
      && (Delivered(s2, r1) || Ready(s2))
  {
    hide Input, EndInv, Linked, Answers, FinLast, CcInv, Ready, Held, U32;
    var b := r1.out[|r1.out| - 1];
    PairSym(s1, r1, o, i);
    EndFacts(s1, o, i);
    EndFacts(r1, i, o);
    var s2 := Input(s1, b, 0);
    AnswerTaken(s1, r1, b);
    InputPair(s1, |r1.out| - 1, 0, r1, o, i);
    InputBounds(s1, b, 0);
    if !Delivered(s2, r1) { StillReady(s2, r1, o, i); }
  }

  lemma StillReady(s: End, r: End, o: seq<Piece>, i: seq<Piece>)
    requires PairInv(s, r, o, i) && CcInv(s) && (s.una == s.nxt || !Held(r, s.una))
    requires s.deadline == if s.una == s.nxt then 0 else U32(s.rto)
    ensures Ready(s)
  {
    EndFacts(s, o, i);
    hide EndInv, Linked, Held;
    LateClock(s.rto, 0);
    if s.una < s.nxt { Unmarked(s, r, o, i); }
  }

  // ---- rounds ----

  /** The receiver reads everything. */
  lemma DrainKeeps(s: End, r: End, o: seq<Piece>, i: seq<Piece>)
    requires Good(s, r, o, i)
    ensures var r0 := Read(r, |r.deliv|);
      && Good(s, r0, o, i) && r0.deliv == [] && r0.got == r.got + r.deliv && r0.out == r.out
      && (Delivered(s, r0) <==> Delivered(s, r))
  {
    PairSym(s, r, o, i);
    ReadPair(r, |r.deliv|, s, i, o);
    PairSym(Read(r, |r.deliv|), s, i, o);
    assert r.got + r.deliv + [] == r.got + r.deliv;
    hide PairInv, FinLast, CcInv;
  }

  /** Only datagrams sent from here on arrive. */
  ghost predicate FreshOnly(a: nat, b: nat, evs: seq<Event>) {
    forall n :: 0 <= n < |evs| && evs[n].Arrives? ==> evs[n].k >= if evs[n].atA then b else a
  }

  ghost predicate GoodPair(p: Pair, x: bool, o: seq<Piece>, i: seq<Piece>) { Good(Me(p, x), Peer(p, x), o, i) }

  lemma GoodEnabled(p: Pair, x: bool, o: seq<Piece>, i: seq<Piece>, ev: Event)
    requires GoodPair(p, x, o, i) && (ev.Arrives? ==> ev.k < |Peer(p, ev.atA).out|)
    ensures Enabled(p, ev)
  {
    EndFacts(Me(p, x), o, i);
    PairSym(Me(p, x), Peer(p, x), o, i);
    EndFacts(Peer(p, x), i, o);
    hide EndInv, Linked, FinLast, CcInv;
  }

  lemma RunOne(p: Pair, ev: Event)
    requires Enabled(p, ev)
    ensures RunOk(p, [ev]) && Run(p, [ev]) == Step(p, ev)
  {
    hide Step, Enabled;
    assert [ev][1..] == [];
    assert RunOk(Step(p, ev), []) && Run(Step(p, ev), []) == Step(p, ev);
  }

  lemma {:induction false} RunJoin(p: Pair, es: seq<Event>, fs: seq<Event>)
    requires RunOk(p, es) && RunOk(Run(p, es), fs)
    ensures RunOk(p, es + fs) && Run(p, es + fs) == Run(Run(p, es), fs)
    decreases |es|
  {
    hide Enabled, Step;
    if es == [] {
      assert es + fs == fs;
    } else {
      assert (es + fs)[1..] == es[1..] + fs && (es + fs)[0] == es[0];
      RunJoin(Step(p, es[0]), es[1..], fs);
    }
  }

  /** A stretch of run in which no datagram arrives that was sent before `a` and `b` had been. */
  ghost predicate Goes(a: nat, b: nat, p: Pair, evs: seq<Event>, q: Pair) {
    && RunOk(p, evs) && Run(p, evs) == q && FreshOnly(a, b, evs)
    && |p.a.out| <= |q.a.out| && |p.b.out| <= |q.b.out|
  }

  lemma GoesOn(a: nat, b: nat, p: Pair, es: seq<Event>, q: Pair, fs: seq<Event>, t: Pair)
    requires Goes(a, b, p, es, q) && Goes(a, b, q, fs, t)
    ensures Goes(a, b, p, es + fs, t)
  {
    hide RunOk, Run;
    RunJoin(p, es, fs);
  }

  lemma GoesOne(a: nat, b: nat, p: Pair, ev: Event)
    requires Enabled(p, ev) && (ev.Arrives? ==> ev.k >= if ev.atA then b else a)
    requires |EndAfter(p, ev).out| >= |Me(p, ev.atA).out|
    ensures Goes(a, b, p, [ev], Step(p, ev))
  {
    RunOne(p, ev);
    hide RunOk, Run, EndAfter;
  }

  lemma GoesFrom(a: nat, b: nat, p: Pair, evs: seq<Event>, q: Pair)
    requires Goes(|p.a.out|, |p.b.out|, p, evs, q) && a <= |p.a.out| && b <= |p.b.out|
    ensures Goes(a, b, p, evs, q)
  {
    hide RunOk, Run;
  }

  /** One round: the receiver reads, the sender times out, the first datagram it sends arrives, and so does the answer.
      Afterwards every byte is across, or there is less work and the sender is ready again. */
  lemma OneRound(p: Pair, x: bool, o: seq<Piece>, i: seq<Piece>) returns (evs: seq<Event>, q: Pair, o': seq<Piece>)
    requires GoodPair(p, x, o, i) && Me(p, x).una <= Me(p, x).nxt && |Me(p, x).sbuf| == WIN
    requires Ready(Me(p, x)) && !Delivered(Me(p, x), Peer(p, x))
    ensures Goes(|p.a.out|, |p.b.out|, p, evs, q) && GoodPair(q, x, o', i) && Me(q, x).written == Me(p, x).written
    ensures Me(q, x).una <= Me(q, x).nxt && |Me(q, x).sbuf| == WIN && Work(Me(q, x)) < Work(Me(p, x))
    ensures Delivered(Me(q, x), Peer(q, x)) || Ready(Me(q, x))
  {
    hide Good, Tick, Input, Read, Ready, Resent, Answers, Held, Enabled, Goes, Work;
    var s, r, a, b := Me(p, x), Peer(p, x), |p.a.out|, |p.b.out|;
    DrainKeeps(s, r, o, i);
    var e1 := Reads(!x, |r.deliv|);
    GoodEnabled(p, x, o, i, e1);
    GoesOne(a, b, p, e1);
    var p1 := Step(p, e1);
    var r0 := Peer(p1, x);
    var at, k: nat;
    o', at, k := TickResends(s, r0, o, i);
    var e2 := Ticks(x, LATE);
    GoodEnabled(p1, x, o, i, e2);
    GoesOne(a, b, p1, e2);
    var p2 := Step(p1, e2);
    GoesOn(a, b, p, [e1], p1, [e2], p2);
    GoodWindow(Me(p2, x), r0, o', i);
    evs, q := LastHalf(a, b, p2, x, o', i, at, k, s);
    GoesOn(a, b, p, [e1] + [e2], p2, evs, q);
    evs := [e1] + [e2] + evs;
  }

  lemma LastHalf(a: nat, b: nat, p: Pair, x: bool, o: seq<Piece>, i: seq<Piece>, at: nat, k: nat, s: End)
    returns (evs: seq<Event>, q: Pair)
    requires GoodPair(p, x, o, i) && Me(p, x).una <= Me(p, x).nxt && |Me(p, x).sbuf| == WIN
    requires !Delivered(Me(p, x), Peer(p, x)) && Peer(p, x).deliv == []
    requires Resent(s, Me(p, x), at, k, o)
    requires |s.out| >= (if x then a else b) && |Peer(p, x).out| >= if x then b else a
    ensures Goes(a, b, p, evs, q) && GoodPair(q, x, o, i) && Me(q, x).written == Me(p, x).written
    ensures Me(q, x).una <= Me(q, x).nxt && |Me(q, x).sbuf| == WIN && Work(Me(q, x)) < Work(Me(p, x))
    ensures Delivered(Me(q, x), Peer(q, x)) || Ready(Me(q, x))
  {
    hide Good, Input, Ready, Resent, Answers, Held, Enabled, Goes, Work, Delivered;
    var s1, r0 := Me(p, x), Peer(p, x);
    ResentFresh(s, s1, at, k, o);
    ArrivalMoves(s1, r0, o, i, at, k, s);
    var e3 := Arrives(!x, k, 0);
    GoodEnabled(p, x, o, i, e3);
    GoesOne(a, b, p, e3);
    var p3 := Step(p, e3);
    var r1 := Peer(p3, x);
    AckMoves(s1, r1, o, i);
    var e4 := Arrives(x, |r1.out| - 1, 0);
    GoodEnabled(p3, x, o, i, e4);
    GoesOne(a, b, p3, e4);
    q := Step(p3, e4);
    GoodWindow(Me(q, x), r1, o, i);
    GoesOn(a, b, p, [e3], p3, [e4], q);
    evs := [e3] + [e4];
  }

  lemma ResentFresh(s: End, s1: End, q: nat, k: nat, o: seq<Piece>)
    requires |s1.sbuf| == WIN && Resent(s, s1, q, k, o)
    ensures |s.out| <= k < |s1.out|
  {
  }

  lemma GoodWindow(s: End, r: End, o: seq<Piece>, i: seq<Piece>)
    requires Good(s, r, o, i)
    ensures s.una <= s.nxt && |s.sbuf| == WIN
  {
    EndFacts(s, o, i);
  }

  // ---- the whole way ----

  /** From a state in which the sender is ready, fresh datagrams alone get every byte across and read. */
  lemma {:induction false} Recovers(p: Pair, x: bool, o: seq<Piece>, i: seq<Piece>) returns (evs: seq<Event>, q: Pair)
    requires GoodPair(p, x, o, i) && Me(p, x).una <= Me(p, x).nxt && |Me(p, x).sbuf| == WIN
    requires Ready(Me(p, x)) || Delivered(Me(p, x), Peer(p, x))
    ensures Goes(|p.a.out|, |p.b.out|, p, evs, q)
    ensures Peer(q, x).got == Me(q, x).written == Me(p, x).written
    decreases Work(Me(p, x))
  {
    hide Good, Ready, Goes, Work, Step, Enabled;
    var a, b := |p.a.out|, |p.b.out|;
    if Delivered(Me(p, x), Peer(p, x)) {
      var r := Peer(p, x);
      var ev := Reads(!x, |r.deliv|);
      GoodEnabled(p, x, o, i, ev);
      DrainKeeps(Me(p, x), r, o, i);
      ReadStep(p, x, ev);
      GoesOne(a, b, p, ev);
      evs, q := [ev], Step(p, ev);
    } else {
      var es, t, o' := OneRound(p, x, o, i);
      var fs;
      fs, q := Recovers(t, x, o', i);
      assert a <= |t.a.out| && b <= |t.b.out| by { OutsGrow(a, b, p, es, t); }
      GoesFrom(a, b, t, fs, q);
      GoesOn(a, b, p, es, t, fs, q);
      evs := es + fs;
    }
  }

  lemma OutsGrow(a: nat, b: nat, p: Pair, evs: seq<Event>, q: Pair)
    requires Goes(a, b, p, evs, q)
    ensures |p.a.out| <= |q.a.out| && |p.b.out| <= |q.b.out|
  {
  }

  lemma ReadStep(p: Pair, x: bool, ev: Event)
    requires ev.Reads? && ev.atA == !x && Enabled(p, ev)
    ensures Peer(Step(p, ev), x) == Read(Peer(p, x), ev.cap) && Me(Step(p, ev), x) == Me(p, x)
    ensures |EndAfter(p, ev).out| == |Me(p, ev.atA).out|
  {
  }

  /** Reliability.  After any run in which nothing was written behind a FIN, suppose everything sent so far is lost.
      If the sender is ready, and sequence numbers are left, the run can go on with reads, timeouts and datagrams sent
      from then on only, until the reader has read every byte written. */
  lemma RecoversInRuns(evs: seq<Event>, x: bool) returns (more: seq<Event>, q: Pair)
    requires RunOk(Pair(New(), New()), evs) && PoliteRun(Pair(New(), New()), evs)
    requires var p := Run(Pair(New(), New()), evs);
      && |Me(p, x).sbuf| == WIN && Ready(Me(p, x)) && Ample(Me(p, x)) && Room(Peer(p, x))
    ensures var p := Run(Pair(New(), New()), evs);
      && Goes(|p.a.out|, |p.b.out|, p, more, q)
      && Peer(q, x).got == Me(q, x).written == Me(p, x).written
  {
    var p := Run(Pair(New(), New()), evs);
    NewInv();
    TimersBounded(evs);
    hide New, Run, RunOk, PoliteRun, FinLast, CcInv, Ready, Goes;
    var oa, ob := RunKeeps(Pair(New(), New()), evs, [], []);
    PairSym(p.a, p.b, oa, ob);
    hide PairInv;
    var o, i := if x then oa else ob, if x then ob else oa;
    GoodWindow(Me(p, x), Peer(p, x), o, i);
    more, q := Recovers(p, x, o, i);
  }

  // ---- when the sender is not ready ----

  function TickAll(e: End, nows: seq<nat>): End
    requires Shaped(e)
    decreases |nows|
  {
    if nows == [] then e
    else
      TickGrows(e, nows[0]);
      TickAll(Tick(e, nows[0]), nows[1..])
  }

  /** Something is in flight, nothing is left to cut, and the sender is not ready: its timeout is stored as zero, or all
      that is in flight is marked. */
  ghost predicate Mute(e: End) {
    Shaped(e) && WindowOk(e) && e.una < e.nxt && e.pend == [] && !e.finQueued && !Ready(e)
  }

  lemma {:induction false} AllMarked(e: End, x: nat, limit: nat)
    requires |e.sbuf| == WIN && forall y: nat :: x <= y < limit ==> SackedAt(e, y)
    ensures Resends(e, x, limit) == []
    decreases limit - x
  {
    if x < limit {
      assert SackedAt(e, x);
      AllMarked(e, x + 1, limit);
    }
  }

  lemma TickMute(e: End, now: nat)
    requires Mute(e)
    ensures Mute(Tick(e, now)) && Tick(e, now).out == e.out
  {
    UnfoldPlain(e, now, Window(e));
    assert Pump(e, now) == e;
    TickGrows(e, now);
    TickExact(e, now);
    hide Tick, Pump, Resends;
    var r := Tick(e, now);
    if Due(e, now) {
      AllMarked(e, e.una, e.nxt);
      assert e.out + [] == e.out;
      forall q: nat | e.una <= q < e.nxt ensures SackedAt(r, q) {
        assert SackedAt(e, q);
        assert r.sbuf[q % WIN] == e.sbuf[q % WIN];
      }
    }
  }

  /** Such a sender never sends again of its own accord, at whatever times it is ticked: it takes being ready. */
  lemma {:induction false} MuteForever(e: End, nows: seq<nat>)
    requires Mute(e)
    ensures TickAll(e, nows).out == e.out && Mute(TickAll(e, nows))
    decreases |nows|
  {
    if nows != [] {
      hide Mute, Tick;
      MuteShaped(e);
      TickMute(e, nows[0]);
      MuteForever(Tick(e, nows[0]), nows[1..]);
    }
  }

  lemma MuteShaped(e: End)
    requires Mute(e)
    ensures Shaped(e)
  {
  }

  /** A byte written 300 ms before the clock wraps: its timeout is stored as zero, which means none. */
  lemma ZeroTimeout(b: byte)
    ensures RunOk(Pair(New(), New()), [Writes(true, [b], M32 - 300)])
    ensures Mute(Run(Pair(New(), New()), [Writes(true, [b], M32 - 300)]).a)
  {
    var e, now := New(), M32 - 300;
    var p, ev := Pair(e, e), Writes(true, [b], M32 - 300);
    assert Enabled(p, ev);
    RunOne(p, ev);
    WriteExact(e, [b], now);
    WriteGrows(e, [b], now);
    var e1 := e.(pend := e.pend + [b][..1]);
    assert [b][..1] == [b] && e.pend + [b] == [b];
    var r := Write(e, [b], now);
    hide Write, Run, RunOk, Stored, Datagrams;
    assert Cuts(e1, Window(e)) == 1;
  }
}
