/** Retransmission, round-trip timing and congestion control: what exactly is resent, and the bounds
    that timers and windows keep in every run. */
module StreamTimers {
  import opened Bytes
  import opened StreamWire
  import opened StreamStep
  import opened StreamInvariant
  import opened StreamPreserve
  import opened StreamSystem

  // ---- fast retransmit ----

  ghost predicate WindowOk(e: End) {
    |e.sbuf| == WIN && e.una <= e.nxt <= e.una + WIN && e.nxt < HALF - WIN
  }

  ghost predicate SackedAt(e: End, q: nat)
    requires |e.sbuf| == WIN
  {
    e.sbuf[q % WIN].sacked
  }

  /** The datagrams of the segments from `q` up to `limit` that are not selectively acknowledged, in order. */
  ghost function Resends(e: End, q: nat, limit: nat): seq<seq<byte>>
    requires |e.sbuf| == WIN
    decreases limit - q
  {
    if q >= limit then []
    else (if SackedAt(e, q) then [] else [Serialize(SegWire(e, e.sbuf[q % WIN]))]) + Resends(e, q + 1, limit)
  }

  /** Marking another slot as resent changes no later datagram. */
  lemma {:induction false} ResendsSame(e: End, e': End, q: nat, limit: nat)
    requires |e.sbuf| == WIN && |e'.sbuf| == WIN && e'.rcvNxt == e.rcvNxt && e'.deliv == e.deliv
    requires forall x: nat {:trigger e'.sbuf[x % WIN]} :: q <= x < limit ==> e'.sbuf[x % WIN] == e.sbuf[x % WIN]
    ensures Resends(e', q, limit) == Resends(e, q, limit)
    decreases limit - q
  {
    if q < limit {
      assert e'.sbuf[q % WIN] == e.sbuf[q % WIN];
      ResendsSame(e, e', q + 1, limit);
    }
  }

  /** The endpoint after resending segment `q`. */
  ghost function Resent(e: End, now: nat, q: nat): End
    requires |e.sbuf| == WIN
  {
    var seg := e.sbuf[q % WIN];
    EmitSeg(e, seg).(sbuf := e.sbuf[q % WIN := seg.(retx := true, sentAt := now)])
  }

  lemma RetransmitUnfold(e: End, now: nat, q: nat, limit: nat)
    requires |e.sbuf| == WIN && q <= limit <= e.nxt < HALF - WIN
    ensures q == limit ==> Retransmit(e, now, q, limit) == e
    ensures q < limit && SackedAt(e, q) ==> Retransmit(e, now, q, limit) == Retransmit(e, now, q + 1, limit)
    ensures q < limit && !SackedAt(e, q) ==>
      Retransmit(e, now, q, limit) == Retransmit(Resent(e, now, q), now, q + 1, limit)
  {
    Signed(q, limit);
    Signed(q + 1, 0);
  }

  lemma ResentLater(e: End, now: nat, q: nat, limit: nat)
    requires WindowOk(e) && e.una <= q < limit <= e.nxt
    ensures Resends(Resent(e, now, q), q + 1, limit) == Resends(e, q + 1, limit)
  {
    var e2 := Resent(e, now, q);
    forall x: nat | q + 1 <= x < limit ensures e2.sbuf[x % WIN] == e.sbuf[x % WIN] { SlotsApart(q, x); }
    ResendsSame(e, e2, q + 1, limit);
  }

  /** A retransmission pass puts exactly the unacknowledged segments below its limit on the wire. */
  lemma {:induction false} RetransmitExact(e: End, now: nat, q: nat, limit: nat)
    requires WindowOk(e) && e.una <= q && q <= limit <= e.nxt
    ensures Retransmit(e, now, q, limit).out == e.out + Resends(e, q, limit)
    decreases limit - q
  {
    hide Retransmit;
    RetransmitUnfold(e, now, q, limit);
    if q == limit {
      assert e.out + [] == e.out;
    } else if SackedAt(e, q) {
      RetransmitExact(e, now, q + 1, limit);
      assert [] + Resends(e, q + 1, limit) == Resends(e, q + 1, limit);
    } else {
      var e2 := Resent(e, now, q);
      RetransmitExact(e2, now, q + 1, limit);
      ResentLater(e, now, q, limit);
      var b := Serialize(SegWire(e, e.sbuf[q % WIN]));
      assert (e.out + [b]) + Resends(e, q + 1, limit) == e.out + ([b] + Resends(e, q + 1, limit));
    }
  }

  /** One past the highest selectively acknowledged live segment, or past the oldest when there is none. */
  ghost predicate IsFrontier(e: End, f: nat)
    requires |e.sbuf| == WIN
  {
    && e.una < f <= e.nxt
    && (f == e.una + 1 || SackedAt(e, f - 1))
    && (forall x :: f <= x < e.nxt ==> !SackedAt(e, x))
  }

  lemma {:induction false} FrontierScan(e: End, q: nat, limit: nat)
    requires WindowOk(e) && e.una <= q <= e.nxt && e.una < limit <= e.nxt
    requires limit <= q || limit == e.una + 1
    requires forall x :: limit <= x < q ==> !SackedAt(e, x)
    requires limit == e.una + 1 || SackedAt(e, limit - 1)
    ensures IsFrontier(e, Frontier(e, q, limit))
    decreases e.nxt - q
  {
    if q < e.nxt {
      Signed(q + 1, limit);
      var sacked := e.sbuf[q % WIN].sacked && q + 1 > limit;
      FrontierScan(e, q + 1, if sacked then q + 1 else limit);
    }
  }

  /** Fast retransmit resends exactly the holes below the highest selectively acknowledged segment, or
      just the oldest segment when nothing is. */
  lemma FastRetransmitExact(e: End, now: nat)
    requires WindowOk(e) && e.una < e.nxt
    ensures exists f :: IsFrontier(e, f) && FastRetransmit(e, now).out == e.out + Resends(e, e.una, f)
  {
    Signed(e.una + 1, 0);
    FrontierScan(e, e.una, e.una + 1);
    var f := Frontier(e, e.una, U32(e.una + 1));
    RetransmitExact(e, now, e.una, f);
  }

  /** In every run the window is in that shape, as long as there are sequence numbers left. */
  lemma WindowInRuns(evs: seq<Event>)
    requires RunOk(Pair(New(), New()), evs)
    ensures var p := Run(Pair(New(), New()), evs); (Room(p.a) ==> WindowOk(p.a)) && (Room(p.b) ==> WindowOk(p.b))
  {
    SackSound(evs);
  }

  /** With no selective acknowledgement at all, only the oldest segment goes out again. */
  lemma NoSackResendsOldest(e: End, now: nat)
    requires WindowOk(e) && e.una < e.nxt && forall x :: e.una <= x < e.nxt ==> !SackedAt(e, x)
    ensures FastRetransmit(e, now).out == e.out + [Serialize(SegWire(e, e.sbuf[e.una % WIN]))]
  {
    FastRetransmitExact(e, now);
    var f :| IsFrontier(e, f) && FastRetransmit(e, now).out == e.out + Resends(e, e.una, f);
    assert f == e.una + 1;
    assert !SackedAt(e, e.una);
    assert Resends(e, e.una + 1, e.una + 1) == [];
  }

  // ---- round-trip time (RFC 6298) ----

  const SAMPLE_MAX: nat := 0x2000_0000

  /** With samples below 2^29 no intermediate result leaves 32 bits, so the update is the plain one. */
  lemma RttExact(srtt: nat, rttvar: nat, r: nat)
    requires srtt < SAMPLE_MAX && rttvar < SAMPLE_MAX && r < SAMPLE_MAX
    ensures var t := RttNext(srtt, rttvar, r);
      && t.0 < SAMPLE_MAX && t.1 < SAMPLE_MAX
      && (srtt != 0 ==> t.0 == (7 * srtt + r) / 8)
      && (srtt != 0 ==> t.1 == (3 * rttvar + (if srtt > r then srtt - r else r - srtt)) / 4)
      && t.2 == Clamp(t.0 + 4 * t.1)
  {
    var d := if srtt > r then srtt - r else r - srtt;
    NoWrap(3 * rttvar + d);
    NoWrap(7 * srtt + r);
    var t := RttNext(srtt, rttvar, r);
    NoWrap(t.0 + 4 * t.1);
  }

  lemma NoWrap(x: nat)
    requires x < M32
    ensures U32(x) == x
  {
  }

  function Clamp(x: nat): (t: nat)
    ensures RTO_MIN <= t <= RTO_MAX
  {
    if x < RTO_MIN then RTO_MIN else if x > RTO_MAX then RTO_MAX else x
  }

  // ---- congestion window (RFC 5681) ----

  /** 0 + 1 + ... + (n - 1): the acknowledgements it takes to grow a window from 0 to n. */
  ghost function Tri(n: nat): nat { if n == 0 then 0 else Tri(n - 1) + n - 1 }

  lemma {:induction false} TriClosed(n: nat)
    ensures 2 * Tri(n) == n * (n - 1)
  {
    if n > 0 { TriClosed(n - 1); }
  }

  lemma {:induction false} TriRises(m: nat, n: nat)
    requires m <= n
    ensures Tri(m) <= Tri(n)
    decreases n
  {
    if m < n { TriRises(m, n - 1); }
  }

  /** The accumulator and the window trade one for the other without loss. */
  lemma {:induction false} AdditiveConserves(cnt: nat, cwnd: nat)
    requires cwnd >= 1
    ensures var r := Additive(cnt, cwnd); r.0 + Tri(r.1) == cnt + Tri(cwnd)
    decreases cnt
  {
    if cnt >= cwnd { AdditiveConserves(cnt - cwnd, cwnd + 1); }
  }

  /** The loop stops at or below the cap exactly when there is too little to pass it. */
  lemma AdditiveCap(cnt: nat, cwnd: nat, cap: nat)
    requires cwnd >= 1
    ensures Additive(cnt, cwnd).1 <= cap <==> cnt + Tri(cwnd) < Tri(cap + 1)
  {
    AdditiveConserves(cnt, cwnd);
    var r := Additive(cnt, cwnd);
    assert Tri(r.1 + 1) == Tri(r.1) + r.1;
    if r.1 <= cap { TriRises(r.1 + 1, cap + 1); } else { TriRises(cap + 1, r.1); }
  }

  /** Twice the accumulator, plus n(n-1) for a window of n. */
  function Credit(cnt: nat, cwnd: nat): int { 2 * cnt + cwnd * (cwnd - 1) }

  /** In congestion avoidance accumulator plus n(n-1)/2 grows by exactly what was acknowledged, as long as that
      does not pay for a window of 257; once it does, the window is 256. */
  lemma AvoidanceExact(e: End, acked: nat)
    requires e.cwnd >= 1 && e.cwnd >= e.ssthresh && acked > 0
    ensures var e' := CcOnAck(e, acked);
      if Credit(e.cwndCnt, e.cwnd) + 2 * acked < (WIN + 1) * WIN
      then Credit(e'.cwndCnt, e'.cwnd) == Credit(e.cwndCnt, e.cwnd) + 2 * acked
      else e'.cwnd == WIN
  {
    hide Additive, Tri;
    var r := Additive(e.cwndCnt + acked, e.cwnd);
    AdditiveConserves(e.cwndCnt + acked, e.cwnd);
    AdditiveCap(e.cwndCnt + acked, e.cwnd, WIN);
    TriClosed(e.cwnd);
    TriClosed(r.1);
    TriClosed(WIN + 1);
  }
}
