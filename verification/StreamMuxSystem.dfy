/** Two multiplexers over one lossy, repeating, reordering channel.  Projected to one stream id, every
    run is a run of a single connection, so what holds of a connection holds of each id. */
module StreamMuxSystem {
  import opened Bytes
  import opened StreamWire
  import opened StreamStep
  import opened StreamMux
  import opened StreamSystem

  datatype Link = Link(a: Mux, b: Mux)

  datatype MuxEvent =
    | OpensId(atA: bool, sid: nat)
    | WritesId(atA: bool, sid: nat, data: seq<byte>, now: nat)
    | FinishesId(atA: bool, sid: nat, now: nat)
    | ReadsId(atA: bool, sid: nat, cap: nat)
    | TicksAll(atA: bool, now: nat)
    | FrameArrives(atA: bool, k: nat, now: nat)

  function Here(l: Link, atA: bool): Mux { if atA then l.a else l.b }
  function There(l: Link, atA: bool): Mux { if atA then l.b else l.a }
  function Set(l: Link, atA: bool, m: Mux): Link { if atA then l.(a := m) else l.(b := m) }

  /** No stream has used up its sequence space. */
  ghost predicate AllRoom(m: Mux) { forall sid :: Room(View(m, sid)) }

  ghost predicate CanHappen(l: Link, ev: MuxEvent) {
    && MuxOk(l.a) && MuxOk(l.b) && AllRoom(l.a) && AllRoom(l.b)
    && ((ev.OpensId? || ev.WritesId? || ev.FinishesId? || ev.ReadsId?) ==> ev.sid < IDS)
    && (ev.FrameArrives? ==> ev.k < |There(l, ev.atA).out|)
  }

  ghost function MuxAfter(l: Link, ev: MuxEvent): Mux
    requires CanHappen(l, ev)
  {
    var m := Here(l, ev.atA);
    match ev
    case OpensId(_, sid) => StreamMux.Open(m, sid)
    case WritesId(_, sid, data, now) => StreamMux.Write(m, sid, data, now)
    case FinishesId(_, sid, now) => StreamMux.Finish(m, sid, now)
    case ReadsId(_, sid, cap) => StreamMux.Read(m, sid, cap)
    case TicksAll(_, now) => StreamMux.Tick(m, now)
    case FrameArrives(_, k, now) => StreamMux.Input(m, There(l, ev.atA).out[k], now)
  }

  ghost function LinkStep(l: Link, ev: MuxEvent): Link
    requires CanHappen(l, ev)
  {
    Set(l, ev.atA, MuxAfter(l, ev))
  }

  ghost predicate LinkRunOk(l: Link, evs: seq<MuxEvent>)
    decreases |evs|
  {
    evs == [] || (CanHappen(l, evs[0]) && LinkRunOk(LinkStep(l, evs[0]), evs[1..]))
  }

  ghost function LinkRun(l: Link, evs: seq<MuxEvent>): Link
    requires LinkRunOk(l, evs)
    decreases |evs|
  {
    if evs == [] then l else LinkRun(LinkStep(l, evs[0]), evs[1..])
  }

  /** The two ends of one id. */
  ghost function Connection(l: Link, sid: nat): Pair { Pair(View(l.a, sid), View(l.b, sid)) }

  ghost predicate LinkInv(l: Link) { MuxOk(l.a) && MuxOk(l.b) && Carries(l.a) && Carries(l.b) }

  /** Nothing is written to this id once its FIN has been cut. */
  ghost predicate PoliteId(l: Link, ev: MuxEvent, sid: nat) {
    ev.WritesId? && ev.sid == sid ==> !View(Here(l, ev.atA), sid).finSegmented
  }

  ghost predicate PoliteIdRun(l: Link, evs: seq<MuxEvent>, sid: nat)
    requires LinkRunOk(l, evs)
    decreases |evs|
  {
    evs == [] || (PoliteId(l, evs[0], sid) && PoliteIdRun(LinkStep(l, evs[0]), evs[1..], sid))
  }

  // ---- one step, seen by one id ----

  /** What an event of the link is for one id: an event of its connection, or nothing at all. */
  ghost predicate Shows(p: Pair, ses: seq<Event>, q: Pair) {
    || (ses == [] && q == p)
    || (|ses| == 1 && Enabled(p, ses[0]) && Step(p, ses[0]) == q)
  }

  lemma ConnectionEnabled(l: Link, sid: nat)
    requires MuxOk(l.a) && MuxOk(l.b) && AllRoom(l.a) && AllRoom(l.b)
    ensures var p := Connection(l, sid); Shaped(p.a) && Shaped(p.b) && Room(p.a) && Room(p.b)
  {
    ViewShaped(l.a, sid);
    ViewShaped(l.b, sid);
  }

  lemma NothingShows(l: Link, atA: bool, m: Mux, sid: nat)
    requires View(m, sid) == View(Here(l, atA), sid)
    ensures Shows(Connection(l, sid), [], Connection(Set(l, atA, m), sid))
  {
    hide View;
  }

  lemma OneShows(l: Link, ev: Event, m: Mux, sid: nat)
    requires Enabled(Connection(l, sid), ev) && View(m, sid) == EndAfter(Connection(l, sid), ev)
    ensures Shows(Connection(l, sid), [ev], Connection(Set(l, ev.atA, m), sid))
  {
    hide View, Enabled, EndAfter;
  }

  lemma ArrivalShows(l: Link, ev: MuxEvent, sid: nat) returns (ses: seq<Event>)
    requires LinkInv(l) && CanHappen(l, ev) && ev.FrameArrives?
    ensures Shows(Connection(l, sid), ses, Connection(LinkStep(l, ev), sid))
    ensures |ses| == 1 ==> ses[0].Arrives?
  {
    var m, f := Here(l, ev.atA), There(l, ev.atA).out[ev.k];
    CarriedFrame(There(l, ev.atA), ev.k);
    ConnectionEnabled(l, sid);
    hide MuxOk, View, Shaped, AllRoom, StreamMux.Input, StreamStep.Input, Carries, Shows, Room;
    InputActs(m, f, ev.now);
    if GetBe(f, 0, FRAME) == sid && CanOpen(m, sid) {
      var sent := View(There(l, ev.atA), sid).out;
      var j :| 0 <= j < |sent| && sent[j] == f[FRAME..];
      ses := [Arrives(ev.atA, j, ev.now)];
      OneShows(l, ses[0], MuxAfter(l, ev), sid);
    } else {
      ses := [];
      NothingShows(l, ev.atA, MuxAfter(l, ev), sid);
    }
  }

  lemma TickShows(l: Link, ev: MuxEvent, sid: nat) returns (ses: seq<Event>)
    requires LinkInv(l) && CanHappen(l, ev) && ev.TicksAll?
    ensures Shows(Connection(l, sid), ses, Connection(LinkStep(l, ev), sid))
    ensures |ses| == 1 ==> ses[0].Ticks?
  {
    var m := Here(l, ev.atA);
    ConnectionEnabled(l, sid);
    TickActs(m, 0, ev.now);
    hide View, Shaped, AllRoom, TickFrom, StreamStep.Tick, Carries;
    ses := if IsOpen(m, sid) then [Ticks(ev.atA, ev.now)] else [];
  }

  lemma WriteShows(l: Link, ev: MuxEvent, sid: nat) returns (ses: seq<Event>)
    requires LinkInv(l) && CanHappen(l, ev) && ev.WritesId?
    ensures Shows(Connection(l, sid), ses, Connection(LinkStep(l, ev), sid))
    ensures |ses| == 1 ==> ev.sid == sid && ses[0].atA == ev.atA
  {
    var m := Here(l, ev.atA);
    ConnectionEnabled(l, sid);
    hide MuxOk, View, Shaped, AllRoom, Carries, CanOpen, StreamMux.Write, StreamStep.Write, Shows, Room;
    WriteActs(m, ev.sid, ev.data, ev.now);
    if ev.sid == sid && CanOpen(m, sid) {
      ses := [Writes(ev.atA, ev.data, ev.now)];
      OneShows(l, ses[0], MuxAfter(l, ev), sid);
    } else {
      ses := [];
      NothingShows(l, ev.atA, MuxAfter(l, ev), sid);
    }
  }

  lemma CallShows(l: Link, ev: MuxEvent, sid: nat) returns (ses: seq<Event>)
    requires LinkInv(l) && CanHappen(l, ev) && (ev.OpensId? || ev.FinishesId? || ev.ReadsId?)
    ensures Shows(Connection(l, sid), ses, Connection(LinkStep(l, ev), sid))
    ensures |ses| == 1 ==> !ses[0].Writes?
  {
    var m := Here(l, ev.atA);
    ConnectionEnabled(l, sid);
    hide MuxOk, View, Shaped, AllRoom, Carries, IsOpen, CanOpen, StreamMux.Open, StreamMux.Finish, StreamMux.Read,
      StreamStep.Finish, StreamStep.Read, Shows, Room;
    ses := [];
    if ev.OpensId? {
      OpenOk(m, ev.sid);
    } else if ev.FinishesId? {
      FinishActs(m, ev.sid, ev.now);
      if ev.sid == sid && CanOpen(m, sid) { ses := [Finishes(ev.atA, ev.now)]; }
    } else {
      ReadActs(m, ev.sid, ev.cap);
      if ev.sid == sid && IsOpen(m, sid) { ses := [Reads(ev.atA, ev.cap)]; }
    }
    if ses == [] {
      NothingShows(l, ev.atA, MuxAfter(l, ev), sid);
    } else {
      OneShows(l, ses[0], MuxAfter(l, ev), sid);
    }
  }

  /** Every event keeps the tables sound, and hands the channel exactly what the streams send. */
  lemma LinkStepSends(l: Link, ev: MuxEvent)
    requires LinkInv(l) && CanHappen(l, ev)
    ensures MuxOk(MuxAfter(l, ev)) && Sends(Here(l, ev.atA), MuxAfter(l, ev))
  {
    var m := Here(l, ev.atA);
    SendsNothing(m, m);
    hide MuxOk, View, AllRoom, Carries, Sends, StreamMux.Open, StreamMux.Write, StreamMux.Finish,
      StreamMux.Read, StreamMux.Input, TickFrom;
    match ev
    case OpensId(_, t) => OpenOk(m, t); SendsNothing(m, StreamMux.Open(m, t));
    case WritesId(_, t, data, now) => WriteActs(m, t, data, now);
    case FinishesId(_, t, now) => FinishActs(m, t, now);
    case ReadsId(_, t, cap) => ReadActs(m, t, cap);
    case TicksAll(_, now) => TickActs(m, 0, now);
    case FrameArrives(_, k, now) =>
      CarriedFrame(There(l, ev.atA), k);
      InputActs(m, There(l, ev.atA).out[k], now);
  }

  lemma LinkStepKeeps(l: Link, ev: MuxEvent)
    requires LinkInv(l) && CanHappen(l, ev)
    ensures LinkInv(LinkStep(l, ev))
  {
    LinkStepSends(l, ev);
    hide MuxOk, Carries, Sends, CanHappen, MuxAfter;
    CarriesOn(Here(l, ev.atA), MuxAfter(l, ev));
  }

  lemma StepShows(l: Link, ev: MuxEvent, sid: nat) returns (ses: seq<Event>)
    requires LinkInv(l) && CanHappen(l, ev)
    ensures Shows(Connection(l, sid), ses, Connection(LinkStep(l, ev), sid))
    ensures |ses| == 1 && ses[0].Writes? ==> ev.WritesId? && ev.sid == sid && ses[0].atA == ev.atA
  {
    hide LinkInv, CanHappen, Shows, LinkStep, Connection;
    if ev.TicksAll? {
      ses := TickShows(l, ev, sid);
    } else if ev.FrameArrives? {
      ses := ArrivalShows(l, ev, sid);
    } else if ev.WritesId? {
      ses := WriteShows(l, ev, sid);
    } else {
      ses := CallShows(l, ev, sid);
    }
  }

  // ---- whole runs ----

  lemma Prepend(p: Pair, ses: seq<Event>, q: Pair, rest: seq<Event>)
    requires Shows(p, ses, q) && RunOk(q, rest)
    ensures RunOk(p, ses + rest) && Run(p, ses + rest) == Run(q, rest)
    ensures PoliteRun(q, rest) && (|ses| == 1 ==> Polite(p, ses[0])) ==> PoliteRun(p, ses + rest)
  {
    hide Enabled, Step, Polite;
    if ses == [] {
      assert ses + rest == rest;
    } else {
      assert (ses + rest)[1..] == rest && (ses + rest)[0] == ses[0];
    }
  }

  /** Every run of the link, seen by one id, is a run of one connection. */
  lemma {:induction false} RunShows(l: Link, evs: seq<MuxEvent>, sid: nat) returns (ses: seq<Event>)
    requires LinkInv(l) && LinkRunOk(l, evs)
    ensures RunOk(Connection(l, sid), ses) && Run(Connection(l, sid), ses) == Connection(LinkRun(l, evs), sid)
    ensures PoliteIdRun(l, evs, sid) ==> PoliteRun(Connection(l, sid), ses)
    ensures LinkInv(LinkRun(l, evs))
    decreases |evs|
  {
    hide LinkInv, CanHappen, Shows, LinkStep;
    ses := [];
    if evs != [] {
      var l1 := LinkStep(l, evs[0]);
      var first := StepShows(l, evs[0], sid);
      LinkStepKeeps(l, evs[0]);
      var rest := RunShows(l1, evs[1..], sid);
      Prepend(Connection(l, sid), first, Connection(l1, sid), rest);
      ses := first + rest;
    }
  }

  lemma FreshInv()
    ensures LinkInv(Link(Fresh(), Fresh()))
    ensures forall sid :: Connection(Link(Fresh(), Fresh()), sid) == Pair(New(), New())
  {
  }

  /** Over one shared channel, for every id on its own: the table holds the id at most once on each side,
      bytes are conserved end to end, what is read is a prefix of what was written, and a stream
      whose FIN is in place and drained was read in full when nothing was written behind the FIN. */
  lemma PerIdOrder(evs: seq<MuxEvent>, sid: nat)
    requires LinkRunOk(Link(Fresh(), Fresh()), evs)
    ensures var l := LinkRun(Link(Fresh(), Fresh()), evs);
      && OneSlotEach(l.a.slots) && OneSlotEach(l.b.slots)
      && var p := Connection(l, sid);
      && Shaped(p.a) && Shaped(p.b)
      && Conserved(p.a, p.b) && Conserved(p.b, p.a)
      && p.b.got <= p.a.written && p.a.got <= p.b.written
      && (PoliteIdRun(Link(Fresh(), Fresh()), evs, sid) ==>
           && (PeerFinished(p.b) ==> p.b.got == p.a.written)
           && (PeerFinished(p.a) ==> p.a.got == p.b.written))
  {
    var l0 := Link(Fresh(), Fresh());
    FreshInv();
    var ses := RunShows(l0, evs, sid);
    assert LinkInv(LinkRun(l0, evs));
    hide Fresh, New, Shaped, Conserved, PeerFinished, LinkRun, LinkRunOk, Run, RunOk;
    EndToEndOrder(ses);
    if PoliteIdRun(l0, evs, sid) { FinishedMeansAllRead(ses); }
  }

  /** In every run, on either side and for every id: the frames handed to the channel that carry the id, stripped
      of it, are exactly what the id's stream has sent, in order; and there are no other frames. */
  lemma ChannelExact(evs: seq<MuxEvent>)
    requires LinkRunOk(Link(Fresh(), Fresh()), evs)
    ensures var l := LinkRun(Link(Fresh(), Fresh()), evs); Carries(l.a) && Carries(l.b)
  {
    FreshInv();
    var ses := RunShows(Link(Fresh(), Fresh()), evs, 0);
  }

  // ---- what the multiplexer says about the end of a stream ----

  /** `reader` is right to say that the stream is over: everything was read. */
  ghost predicate RightlyFinished(reader: Mux, writer: Mux, sid: nat) {
    SaysFinished(reader, sid) ==> View(reader, sid).got == View(writer, sid).written
  }

  lemma NotOpenIsNew(m: Mux, sid: nat)
    requires !IsOpen(m, sid)
    ensures View(m, sid) == New() && New().got == [] && SaysFinished(m, sid)
  {
  }

  /** When nothing is written behind the FIN, the multiplexer's answer is right exactly when the id is open at the
      reader or the peer has written nothing. */
  lemma FinishedExact(evs: seq<MuxEvent>, sid: nat)
    requires LinkRunOk(Link(Fresh(), Fresh()), evs) && PoliteIdRun(Link(Fresh(), Fresh()), evs, sid)
    ensures var l := LinkRun(Link(Fresh(), Fresh()), evs);
      && (RightlyFinished(l.b, l.a, sid) <==> IsOpen(l.b, sid) || View(l.a, sid).written == [])
      && (RightlyFinished(l.a, l.b, sid) <==> IsOpen(l.a, sid) || View(l.b, sid).written == [])
  {
    hide LinkRun, LinkRunOk, PoliteIdRun, View, IsOpen, PeerFinished, Conserved, OneSlotEach;
    var l := LinkRun(Link(Fresh(), Fresh()), evs);
    PerIdOrder(evs, sid);
    if !IsOpen(l.b, sid) { NotOpenIsNew(l.b, sid); }
    if !IsOpen(l.a, sid) { NotOpenIsNew(l.a, sid); }
  }

  lemma OneByteWritten(b: byte)
    ensures StreamStep.Write(New(), [b], 0).written == [b]
  {
    hide PumpLoop;
    NewShaped();
    var e := New();
    assert [b][..1] == [b] && e.written + [b] == [b];
    var e1 := e.(pend := e.pend + [b], written := e.written + [b]);
    PumpShape(e1, 0, Window(e1));
  }

  lemma FreshCanOpen(sid: nat)
    ensures CanOpen(Fresh(), sid) && MuxOk(Fresh()) && View(Fresh(), sid) == New() && AllRoom(Fresh())
  {
    assert FirstFree(Fresh().slots, 0) == 0;
    assert Find(Fresh().slots, sid, 0) == |Fresh().slots|;
  }

  /** One write, and the other side, which has heard nothing, says that the stream is over. */
  lemma UnheardIsFinished(sid: nat, b: byte)
    requires sid < IDS
    ensures var evs := [WritesId(true, sid, [b], 0)];
      && LinkRunOk(Link(Fresh(), Fresh()), evs)
      && var l := LinkRun(Link(Fresh(), Fresh()), evs);
      && SaysFinished(l.b, sid) && View(l.b, sid).got == [] && View(l.a, sid).written == [b]
  {
    var l0, ev := Link(Fresh(), Fresh()), WritesId(true, sid, [b], 0);
    FreshCanOpen(sid);
    WriteActs(Fresh(), sid, [b], 0);
    OneByteWritten(b);
    NotOpenIsNew(Fresh(), sid);
    hide MuxOk, View, AllRoom, StreamMux.Write, StreamStep.Write, New, SaysFinished, Fresh;
    assert [ev][1..] == [];
    assert CanHappen(l0, ev);
    assert LinkRunOk(LinkStep(l0, ev), []);
  }
}
