/** Two endpoints over a network that loses, repeats and reorders, and what every run of them keeps. */
module StreamSystem {
  import opened Bytes
  import opened StreamWire
  import opened StreamStep
  import opened StreamInvariant
  import opened StreamPreserve

  /** A connection.  A datagram once sent may arrive any number of times, in any order, or never. */
  datatype Pair = Pair(a: End, b: End)

  datatype Event =
    | Writes(atA: bool, data: seq<byte>, now: nat)
    | Finishes(atA: bool, now: nat)
    | Reads(atA: bool, cap: nat)
    | Ticks(atA: bool, now: nat)
    | Arrives(atA: bool, k: nat, now: nat)

  function Me(p: Pair, atA: bool): End { if atA then p.a else p.b }
  function Peer(p: Pair, atA: bool): End { if atA then p.b else p.a }
  function With(p: Pair, atA: bool, e: End): Pair { if atA then p.(a := e) else p.(b := e) }

  /** Far enough from the wrap of the 32-bit sequence space: fewer than 2^31 - 512 segments so far. */
  predicate Room(e: End) { e.nxt < HALF - 2 * WIN }

  predicate Enabled(p: Pair, ev: Event) {
    && Shaped(p.a) && Shaped(p.b) && Room(p.a) && Room(p.b)
    && (ev.Arrives? ==> ev.k < |Peer(p, ev.atA).out|)
  }

  function EndAfter(p: Pair, ev: Event): End
    requires Enabled(p, ev)
  {
    var e := Me(p, ev.atA);
    match ev
    case Writes(_, data, now) => Write(e, data, now)
    case Finishes(_, now) => Finish(e, now)
    case Reads(_, cap) => Read(e, cap)
    case Ticks(_, now) => Tick(e, now)
    case Arrives(_, k, now) => Input(e, Peer(p, ev.atA).out[k], now)
  }

  function Step(p: Pair, ev: Event): Pair
    requires Enabled(p, ev)
  {
    With(p, ev.atA, EndAfter(p, ev))
  }

  predicate RunOk(p: Pair, evs: seq<Event>)
    decreases |evs|
  {
    evs == [] || (Enabled(p, evs[0]) && RunOk(Step(p, evs[0]), evs[1..]))
  }

  function Run(p: Pair, evs: seq<Event>): Pair
    requires RunOk(p, evs)
    decreases |evs|
  {
    if evs == [] then p else Run(Step(p, evs[0]), evs[1..])
  }

  // ---- the invariant ----

  /** Both directions between an endpoint and its peer. */
  ghost predicate PairInv(e: End, r: End, o: seq<Piece>, i: seq<Piece>) {
    EndInv(e, o, i) && EndInv(r, i, o) && Linked(e, r) && Linked(r, e)
  }

  /** What was cut after a FIN carries no data, and nothing is left to cut. */
  ghost predicate FinLast(e: End, o: seq<Piece>) {
    && (forall q :: 0 <= q < |o| && o[q].fin ==> e.finSegmented && e.pend == [])
    && (forall p, q :: 0 <= p < q < |o| && o[p].fin ==> o[q].data == [])
  }

  lemma LinkedSame(s: End, e: End, e': End)
    requires Shaped(s) && Shaped(e) && Shaped(e') && Linked(s, e)
    requires e'.rbuf == e.rbuf && e'.rcvNxt == e.rcvNxt
    ensures Linked(s, e')
  {
    forall q: nat | s.una <= q < s.nxt && s.sbuf[q % WIN].sacked ensures Held(e', q) { assert Held(e, q); }
  }

  // ---- operations that send ----

  lemma PumpPair(e: End, now: nat, r: End, o: seq<Piece>, i: seq<Piece>)
    requires PairInv(e, r, o, i) && Room(e)
    ensures PairInv(Pump(e, now), r, o + Cut(e, now, Window(e)), i)
  {
    hide EndInv, Linked, Cut, PumpLoop;
    EndFacts(e, o, i);
    EndFacts(r, i, o);
    PumpKeeps(e, now, Window(e), o, i, r);
    PumpShape(e, now, Window(e));
    var e', o' := Pump(e, now), o + Cut(e, now, Window(e));
    EndFacts(e', o', i);
    PiecesOf(e', o', i);
    IncomingGrows(r, i, o, o');
    LinkedSame(r, e, e');
  }

  lemma PiecesOf(e: End, o: seq<Piece>, i: seq<Piece>)
    requires EndInv(e, o, i)
    ensures forall q :: 0 <= q < |o| ==> PieceOk(o[q])
  {
  }

  lemma {:induction false} PumpFinLast(e: End, now: nat, win: nat, o: seq<Piece>)
    requires |e.sbuf| == WIN && win <= WIN && FinLast(e, o)
    ensures FinLast(PumpLoop(e, now, win), o + Cut(e, now, win))
    decreases WIN - (if InFlight(e) < WIN then InFlight(e) else WIN)
  {
    PumpUnfold(e, now, win);
    assert o + [] == o;
    if InFlight(e) < win && NextPiece(e).Some? {
      var e1, o1 := AfterPiece(e, now), o + [NextPiece(e).value];
      assert FinLast(e1, o1);
      PumpFinLast(e1, now, win, o1);
      assert o + ([NextPiece(e).value] + Cut(e1, now, win)) == o1 + Cut(e1, now, win);
    }
  }

  lemma AcceptBytes(e: End, e': End, data: seq<byte>, r: End, o: seq<Piece>, i: seq<Piece>)
    requires PairInv(e, r, o, i) && |e.pend| + |data| <= CAP
    requires e' == e.(pend := e.pend + data, written := e.written + data)
    ensures PairInv(e', r, o, i)
  {
    assert e'.written == Concat(o) + e'.pend;
    SendChange(e, e', o, o, i);
    LinkedSame(r, e, e');
  }

  lemma WritePair(e: End, data: seq<byte>, now: nat, r: End, o: seq<Piece>, i: seq<Piece>) returns (o': seq<Piece>)
    requires PairInv(e, r, o, i) && Room(e) && Shaped(e)
    ensures PairInv(Write(e, data, now), r, o', i)
    ensures FinLast(e, o) && !e.finSegmented ==> FinLast(Write(e, data, now), o')
  {
    hide PairInv, PumpLoop, Cut;
    var n := Accepts(e, |data|);
    var e1 := e.(pend := e.pend + data[..n], written := e.written + data[..n]);
    AcceptBytes(e, e1, data[..n], r, o, i);
    PumpPair(e1, now, r, o, i);
    o' := o + Cut(e1, now, Window(e1));
    if FinLast(e, o) && !e.finSegmented { PumpFinLast(e1, now, Window(e1), o); }
  }

  lemma FlagPair(e: End, e': End, r: End, o: seq<Piece>, i: seq<Piece>)
    requires PairInv(e, r, o, i) && e' == e.(finQueued := e'.finQueued)
    ensures PairInv(e', r, o, i)
  {
    FinQueuedKeeps(e, e', o, i);
    LinkedSame(r, e, e');
  }

  lemma FinishPair(e: End, now: nat, r: End, o: seq<Piece>, i: seq<Piece>) returns (o': seq<Piece>)
    requires PairInv(e, r, o, i) && Room(e) && Shaped(e)
    ensures PairInv(Finish(e, now), r, o', i)
    ensures FinLast(e, o) ==> FinLast(Finish(e, now), o')
  {
    hide PairInv, PumpLoop, Cut;
    var e1 := e.(finQueued := true);
    FlagPair(e, e1, r, o, i);
    PumpPair(e1, now, r, o, i);
    o' := o + Cut(e1, now, Window(e1));
    if FinLast(e, o) { PumpFinLast(e1, now, Window(e1), o); }
  }

  /** Retransmission and timers at an endpoint. */
  lemma ResendPair(e: End, e2: End, e3: End, now: nat, r: End, o: seq<Piece>, i: seq<Piece>)
    requires PairInv(e, r, o, i) && e2.cwnd >= 1
    requires e2 == e.(rto := e2.rto, cwnd := e2.cwnd, ssthresh := e2.ssthresh, cwndCnt := e2.cwndCnt)
    requires |e2.sbuf| == WIN && e2.una < M32 && e2.nxt < M32 && e3 == Retransmit(e2, now, e2.una, e2.nxt)
    ensures PairInv(e3.(deadline := U32(now + e3.rto)), r, o, i)
  {
    hide EndInv, Linked;
    EndFacts(e, o, i);
    EndFacts(r, i, o);
    TimersKeep(e, e2, o, i, r);
    RetransmitKeeps(e2, now, e2.una, e2.nxt, o, i, r);
    RetransmitShape(e2, now, e2.una, e2.nxt);
    var e4 := e3.(deadline := U32(now + e3.rto));
    TimersKeep(e3, e4, o, i, r);
    LinkedSame(r, e, e4);
  }

  lemma TickPair(e: End, now: nat, r: End, o: seq<Piece>, i: seq<Piece>) returns (o': seq<Piece>)
    requires PairInv(e, r, o, i) && Room(e) && Shaped(e)
    ensures PairInv(Tick(e, now), r, o', i)
    ensures FinLast(e, o) ==> FinLast(Tick(e, now), o')
  {
    hide PairInv, PumpLoop, Cut, Retransmit, FinLast;
    PumpShape(e, now, Window(e));
    PumpPair(e, now, r, o, i);
    o' := o + Cut(e, now, Window(e));
    var e1 := Pump(e, now);
    if FinLast(e, o) { PumpFinLast(e, now, Window(e), o); }
    if e1.deadline != 0 && now >= e1.deadline && e1.una != e1.nxt {
      var e2 :=
        if e1.peerRwnd != 0
        then CcOnLoss(e1.(rto := if e1.rto < RTO_MAX / 2 then e1.rto * 2 else RTO_MAX), true)
        else e1;
      var e3 := Retransmit(e2, now, e2.una, e2.nxt);
      ResendPair(e1, e2, e3, now, r, o', i);
      RetransmitShape(e2, now, e2.una, e2.nxt);
      if FinLast(e, o) { FinLastSame(e1, Tick(e, now), o'); }
    }
  }

  lemma FinLastSame(e: End, e': End, o: seq<Piece>)
    requires FinLast(e, o) && e'.finSegmented == e.finSegmented && e'.pend == e.pend
    ensures FinLast(e', o)
  {
  }

  // ---- operations that receive ----

  lemma ReadPair(e: End, cap: nat, r: End, o: seq<Piece>, i: seq<Piece>)
    requires PairInv(e, r, o, i)
    ensures PairInv(Read(e, cap), r, o, i)
  {
    var e' := Read(e, cap);
    assert e'.got + e'.deliv == e.got + e.deliv;
    forall j | 0 <= j < WIN ensures HeldSlot(e', j, i) { assert HeldSlot(e, j, i); }
    forall q: nat | e'.una <= q < e'.nxt ensures SlotIs(e'.sbuf[q % WIN], q, o[q]) {
      assert SlotIs(e.sbuf[q % WIN], q, o[q]);
    }
    forall k | 0 <= k < |e'.out| ensures DataPacket(e'.out[k], o) && AckPacket(e'.out[k], e') {
      AcksKept(e, e', e.out[k]);
    }
    LinkedSame(r, e, e');
  }

  lemma DataPair(e: End, w: Wire, r: End, o: seq<Piece>, i: seq<Piece>)
    requires PairInv(e, r, o, i) && |i| < HALF - 64
    requires w.seqno < |i| && w.body == i[w.seqno].data && HasFin(w.flags) == i[w.seqno].fin
    ensures |Deliver(Buffer(e, w)).rbuf| == WIN && PairInv(EmitAck(Deliver(Buffer(e, w))), r, o, i)
  {
    hide EndInv, Linked, Buffer, Deliver;
    EndFacts(e, o, i);
    EndFacts(r, i, o);
    BufferKeeps(e, w, o, i);
    var e1 := Buffer(e, w);
    EndFacts(e1, o, i);
    DeliverKeeps(e1, o, i);
    var e2 := Deliver(e1);
    EndFacts(e2, o, i);
    ReceivedOf(e2, o, i);
    EmitAckKeeps(e2, o, i);
    LinkedPeer(r, e, e1);
    LinkedPeer(r, e1, e2);
    LinkedSame(r, e2, EmitAck(e2));
    LinkedSender(e, EmitAck(e2), r);
  }

  lemma ReceivedOf(e: End, o: seq<Piece>, i: seq<Piece>)
    requires EndInv(e, o, i)
    ensures e.rcvNxt <= |i|
  {
  }

  lemma LinkedSender(e: End, e': End, r: End)
    requires Shaped(e) && Shaped(e') && Shaped(r) && Linked(e, r)
    requires e'.sbuf == e.sbuf && e'.una == e.una && e'.nxt == e.nxt
    ensures Linked(e', r)
  {
    forall q: nat | e'.una <= q < e'.nxt && e'.sbuf[q % WIN].sacked ensures Held(r, q) {}
  }

  lemma AckPair(e: End, b: seq<byte>, now: nat, r: End, o: seq<Piece>, i: seq<Piece>)
    requires PairInv(e, r, o, i) && Shaped(e) && AckPacket(b, r) && |o| < HALF - 64
    ensures PairInv(InputAck(e, Parse(b).value, now), r, o, i)
    ensures AckOnly(e, InputAck(e, Parse(b).value, now))
  {
    hide EndInv, Linked, InputAck;
    ReceivedOf(r, i, o);
    EndFacts(r, i, o);
    InputAckKeeps(e, b, now, o, i, r);
    Pow256Values();
    InputShape(e, Parse(b).value, now);
    LinkedSame(r, e, InputAck(e, Parse(b).value, now));
  }

  /** A datagram of the peer arrives, for the first time or again, late or early. */
  lemma InputPair(e: End, k: nat, now: nat, r: End, o: seq<Piece>, i: seq<Piece>)
    requires PairInv(e, r, o, i) && Shaped(e) && k < |r.out| && Room(e) && Room(r)
    ensures PairInv(Input(e, r.out[k], now), r, o, i)
    ensures FinLast(e, o) ==> FinLast(Input(e, r.out[k], now), o)
  {
    var b := r.out[k];
    assert DataPacket(b, i) && AckPacket(b, r);
    hide EndInv, Linked, InputAck, Buffer, Deliver, FinLast;
    EndFacts(e, o, i);
    EndFacts(r, i, o);
    var w := Parse(b).value;
    AckPair(e, b, now, r, o, i);
    var e1 := InputAck(e, w, now);
    if HasData(w.flags) || HasFin(w.flags) {
      DataPair(e1, w, r, o, i);
      DeliverFields(Buffer(e1, w));
      BufferFields(e1, w);
    }
    if FinLast(e, o) { FinLastSame(e, Input(e, b, now), o); }
  }

  lemma BufferFields(e: End, w: Wire)
    requires |e.rbuf| == WIN
    ensures Buffer(e, w) == e.(rbuf := Buffer(e, w).rbuf) && |Buffer(e, w).rbuf| == WIN
  {
  }

  lemma {:induction false} DeliverFields(e: End)
    requires |e.rbuf| == WIN
    ensures var r := Deliver(e); r == e.(rbuf := r.rbuf, rcvNxt := r.rcvNxt, deliv := r.deliv, peerFin := r.peerFin)
    decreases CountPresent(e.rbuf)
  {
    if CanDeliver(e) {
      CountDrops(e.rbuf, e.rcvNxt % WIN);
      DeliverFields(DeliverOne(e));
    }
  }

  // ---- the system ----

  ghost predicate SysInv(p: Pair, oa: seq<Piece>, ob: seq<Piece>) {
    PairInv(p.a, p.b, oa, ob)
  }

  lemma PairSym(e: End, r: End, o: seq<Piece>, i: seq<Piece>)
    requires PairInv(e, r, o, i)
    ensures PairInv(r, e, i, o)
  {
  }

  lemma NewInv()
    ensures SysInv(Pair(New(), New()), [], []) && FinLast(New(), [])
  {
    var e := New();
    forall j | 0 <= j < WIN ensures HeldSlot(e, j, []) {}
    var none: seq<Piece> := [];
    assert none[..0] == none;
  }

  /** The application writes nothing once its FIN has been cut. */
  predicate Polite(p: Pair, ev: Event) {
    ev.Writes? ==> !Me(p, ev.atA).finSegmented
  }

  lemma EndStep(e: End, r: End, p: Pair, ev: Event, o: seq<Piece>, i: seq<Piece>) returns (o': seq<Piece>)
    requires Enabled(p, ev) && e == Me(p, ev.atA) && r == Peer(p, ev.atA) && PairInv(e, r, o, i)
    ensures PairInv(EndAfter(p, ev), r, o', i)
    ensures FinLast(e, o) && Polite(p, ev) ==> FinLast(EndAfter(p, ev), o')
  {
    hide PairInv, FinLast, Write, Finish, Read, Tick, Input;
    o' := o;
    match ev
    case Writes(_, data, now) => o' := WritePair(e, data, now, r, o, i);
    case Finishes(_, now) => o' := FinishPair(e, now, r, o, i);
    case Reads(_, cap) =>
      ReadPair(e, cap, r, o, i);
      if FinLast(e, o) { ReadFields(e, cap); FinLastSame(e, Read(e, cap), o); }
    case Ticks(_, now) => o' := TickPair(e, now, r, o, i);
    case Arrives(_, k, now) => InputPair(e, k, now, r, o, i);
  }

  lemma ReadFields(e: End, cap: nat)
    ensures var r := Read(e, cap); r == e.(deliv := r.deliv, got := r.got)
  {
  }

  lemma StepKeeps(p: Pair, ev: Event, oa: seq<Piece>, ob: seq<Piece>) returns (oa': seq<Piece>, ob': seq<Piece>)
    requires SysInv(p, oa, ob) && Enabled(p, ev)
    ensures SysInv(Step(p, ev), oa', ob')
    ensures FinLast(p.a, oa) && FinLast(p.b, ob) && Polite(p, ev) ==>
      FinLast(Step(p, ev).a, oa') && FinLast(Step(p, ev).b, ob')
  {
    hide PairInv, FinLast, EndAfter;
    oa', ob' := oa, ob;
    if ev.atA {
      oa' := EndStep(p.a, p.b, p, ev, oa, ob);
    } else {
      PairSym(p.a, p.b, oa, ob);
      ob' := EndStep(p.b, p.a, p, ev, ob, oa);
      PairSym(EndAfter(p, ev), p.a, ob', oa);
    }
  }

  predicate PoliteRun(p: Pair, evs: seq<Event>)
    requires RunOk(p, evs)
    decreases |evs|
  {
    evs == [] || (Polite(p, evs[0]) && PoliteRun(Step(p, evs[0]), evs[1..]))
  }

  /** Every run from two fresh endpoints keeps the invariant. */
  lemma {:induction false} RunKeeps(p: Pair, evs: seq<Event>, oa: seq<Piece>, ob: seq<Piece>)
    returns (oa': seq<Piece>, ob': seq<Piece>)
    requires SysInv(p, oa, ob) && RunOk(p, evs)
    ensures SysInv(Run(p, evs), oa', ob')
    ensures FinLast(p.a, oa) && FinLast(p.b, ob) && PoliteRun(p, evs) ==>
      FinLast(Run(p, evs).a, oa') && FinLast(Run(p, evs).b, ob')
    decreases |evs|
  {
    hide SysInv, FinLast, Step;
    oa', ob' := oa, ob;
    if evs != [] {
      var o1, o2 := StepKeeps(p, evs[0], oa, ob);
      oa', ob' := RunKeeps(Step(p, evs[0]), evs[1..], o1, o2);
    }
  }

  // ---- what it means ----

  /** The bytes of the segments from `q` on that are still in the send buffer. */
  ghost function Outstanding(e: End, q: nat): seq<byte>
    requires |e.sbuf| == WIN && q <= e.nxt
    decreases e.nxt - q
  {
    if q == e.nxt then [] else e.sbuf[q % WIN].data + Outstanding(e, q + 1)
  }

  lemma {:induction false} OutstandingBytes(e: End, o: seq<Piece>, q: nat)
    requires |e.sbuf| == WIN && SendInv(e, o) && e.una <= q <= e.nxt
    ensures Outstanding(e, q) == Concat(o[q..])
    decreases e.nxt - q
  {
    if q < e.nxt {
      OutstandingBytes(e, o, q + 1);
      assert SlotIs(e.sbuf[q % WIN], q, o[q]);
      assert o[q..] == [o[q]] + o[q + 1..];
      ConcatSplit([o[q]], o[q + 1..]);
      assert [o[q]][..0] == [] && Concat([o[q]]) == o[q].data;
    } else {
      assert o[q..] == [];
    }
  }

  /** Conservation in one direction. */
  ghost predicate Conserved(s: End, r: End)
    requires |s.sbuf| == WIN
  {
    && s.una <= r.rcvNxt <= s.nxt
    && s.written == r.got + r.deliv + Outstanding(s, r.rcvNxt) + s.pend
  }

  lemma ConservedPair(s: End, r: End, o: seq<Piece>, i: seq<Piece>)
    requires PairInv(s, r, o, i)
    ensures Conserved(s, r)
  {
    OutstandingBytes(s, o, r.rcvNxt);
    assert o == o[..r.rcvNxt] + o[r.rcvNxt..];
    ConcatSplit(o[..r.rcvNxt], o[r.rcvNxt..]);
  }

  /** End-to-end order: for every schedule of writes, reads, ticks, losses, repeats and reorderings, the
      bytes accepted on one side are the bytes read on the other, then its delivery ring, then the
      segments it still lacks, then the pending ring; so what is read is always a prefix of what was written. */
  lemma EndToEndOrder(evs: seq<Event>)
    requires RunOk(Pair(New(), New()), evs)
    ensures var p := Run(Pair(New(), New()), evs);
      && Shaped(p.a) && Shaped(p.b)
      && Conserved(p.a, p.b) && Conserved(p.b, p.a)
      && p.b.got <= p.a.written && p.a.got <= p.b.written
  {
    var p := Run(Pair(New(), New()), evs);
    NewInv();
    var oa, ob := RunKeeps(Pair(New(), New()), evs, [], []);
    ConservedPair(p.a, p.b, oa, ob);
    PairSym(p.a, p.b, oa, ob);
    ConservedPair(p.b, p.a, ob, oa);
  }

  /** A FIN in place and drained means everything was read, when nothing was written after it. */
  lemma FinishedPair(s: End, r: End, o: seq<Piece>, i: seq<Piece>)
    requires PairInv(s, r, o, i) && FinLast(s, o) && PeerFinished(r)
    ensures r.got == s.written && s.pend == []
  {
    var f :| 0 <= f < r.rcvNxt && o[f].fin;
    assert o == o[..r.rcvNxt] + o[r.rcvNxt..];
    ConcatSplit(o[..r.rcvNxt], o[r.rcvNxt..]);
    NoData(o[r.rcvNxt..]);
    assert r.got + [] == r.got;
  }

  lemma {:induction false} NoData(ps: seq<Piece>)
    requires forall q :: 0 <= q < |ps| ==> ps[q].data == []
    ensures Concat(ps) == []
  {
    if ps != [] { NoData(ps[..|ps| - 1]); }
  }

  /** stream_peer_finished on one side implies that every byte accepted on the other was read. */
  lemma FinishedMeansAllRead(evs: seq<Event>)
    requires RunOk(Pair(New(), New()), evs) && PoliteRun(Pair(New(), New()), evs)
    ensures var p := Run(Pair(New(), New()), evs);
      && (PeerFinished(p.b) ==> p.b.got == p.a.written)
      && (PeerFinished(p.a) ==> p.a.got == p.b.written)
  {
    var p := Run(Pair(New(), New()), evs);
    NewInv();
    var oa, ob := RunKeeps(Pair(New(), New()), evs, [], []);
    PairSym(p.a, p.b, oa, ob);
    if PeerFinished(p.b) { FinishedPair(p.a, p.b, oa, ob); }
    if PeerFinished(p.a) { FinishedPair(p.b, p.a, ob, oa); }
  }

  /** In flight, slots and selective acknowledgements: never more than 256 segments are live, each in its
      own slot, and whatever is marked as selectively acknowledged the peer has. */
  ghost predicate WindowSafe(s: End, r: End)
    requires |s.sbuf| == WIN && |r.rbuf| == WIN
  {
    && s.una <= s.nxt <= s.una + WIN
    && (forall q :: s.una <= q < s.nxt ==> s.sbuf[q % WIN].seqno == q)
    && (forall q {:trigger Held(r, q)} :: s.una <= q < s.nxt && s.sbuf[q % WIN].sacked ==> Held(r, q))
    && (forall q {:trigger Held(r, q)} :: 0 <= q < s.una ==> Held(r, q))
  }

  lemma SackSound(evs: seq<Event>)
    requires RunOk(Pair(New(), New()), evs)
    ensures var p := Run(Pair(New(), New()), evs);
      Shaped(p.a) && Shaped(p.b) && WindowSafe(p.a, p.b) && WindowSafe(p.b, p.a)
  {
    var p := Run(Pair(New(), New()), evs);
    NewInv();
    var oa, ob := RunKeeps(Pair(New(), New()), evs, [], []);
    EndFacts(p.a, oa, ob);
    EndFacts(p.b, ob, oa);
  }
}
