/** Why "nothing is written after finish" is needed: a three-event run where it is not so. */
module StreamRude {
  import opened Bytes
  import opened StreamWire
  import opened StreamStep
  import opened StreamInvariant
  import opened StreamPreserve
  import opened StreamSystem

  ghost function Closed(): End
  {
    SendNew(New().(finSegmented := true), 0, [], F_FIN)
  }

  /** Closing a fresh endpoint sends a lone FIN with sequence number 0. */
  lemma ClosedIs()
    ensures Finish(New(), 0) == Closed()
    ensures Closed().nxt == 1 && Closed().una == 0 && Closed().finSegmented && !Closed().finQueued
    ensures Closed().pend == []
    ensures Closed().out == [Serialize(Wire(WithAck(F_FIN), 0, 0, WIN, []))]
  {
    hide PumpLoop, Serialize;
    var e := New().(finQueued := true);
    assert Window(e) == IW;
    PumpUnfold(e, 0, IW);
    assert AfterPiece(e, 0) == Closed();
    PumpUnfold(Closed(), 0, IW);
    assert LocalRwnd(New()) == WIN;
  }

  /** A byte written now travels behind the FIN. */
  lemma RudeIs(b: byte)
    ensures Write(Closed(), [b], 0).written == [b]
    ensures Closed().out <= Write(Closed(), [b], 0).out && Write(Closed(), [b], 0).nxt == 2
    ensures Shaped(Closed()) && Shaped(Write(Closed(), [b], 0))
  {
    ClosedIs();
    var e := Closed();
    assert [b][..1] == [b];
    var e1 := e.(pend := [b], written := [b]);
    assert e.pend + [b] == [b] && e.written + [b] == [b];
    assert Window(e1) == IW;
    PumpUnfold(e1, 0, IW);
    var e2 := AfterPiece(e1, 0);
    assert e2.pend == [];
    PumpUnfold(e2, 0, IW);
  }

  /** The lone FIN makes the receiver report the end of the stream. */
  lemma FinArrives()
    ensures PeerFinished(Input(New(), Serialize(Wire(WithAck(F_FIN), 0, 0, WIN, [])), 0))
    ensures Input(New(), Serialize(Wire(WithAck(F_FIN), 0, 0, WIN, [])), 0).got == []
  {
    var w := Wire(WithAck(F_FIN), 0, 0, WIN, []);
    ParseSerialize(w);
    var e := New();
    assert InputAck(e, w, 0) == e;
    var e1 := Buffer(e, w);
    assert e1.rbuf[0].present && e1.rbuf[0].seqno == 0 && HasFin(e1.rbuf[0].flags);
    assert CanDeliver(e1);
    assert DeliverOne(e1).peerFin;
  }

  lemma RunUnfold(p: Pair, ev: Event, evs: seq<Event>)
    requires Enabled(p, ev) && RunOk(Step(p, ev), evs)
    ensures RunOk(p, [ev] + evs) && Run(p, [ev] + evs) == Run(Step(p, ev), evs)
  {
    hide Enabled, Step;
    assert ([ev] + evs)[1..] == evs;
  }

  lemma FirstTwo(b: byte)
    ensures var p0 := Pair(New(), New());
      && var p1 := Pair(Closed(), New());
      && var p2 := Pair(Write(Closed(), [b], 0), New());
      && Enabled(p0, Finishes(true, 0)) && Step(p0, Finishes(true, 0)) == p1
      && Enabled(p1, Writes(true, [b], 0)) && Step(p1, Writes(true, [b], 0)) == p2
      && Enabled(p2, Arrives(false, 0, 0))
  {
    ClosedIs();
    RudeIs(b);
    hide Finish, Write, Closed;
  }

  lemma LastOne(b: byte)
    ensures var p2 := Pair(Write(Closed(), [b], 0), New());
      && Enabled(p2, Arrives(false, 0, 0))
      && var p := Step(p2, Arrives(false, 0, 0));
         PeerFinished(p.b) && p.b.got == [] && p.a.written == [b]
  {
    ClosedIs();
    RudeIs(b);
    FinArrives();
    FirstTwo(b);
    hide Finish, Write, Closed, Input, PeerFinished, Enabled, New;
    var p2 := Pair(Write(Closed(), [b], 0), New());
    assert p2.a.out[0] == Closed().out[0];
  }

  /** A run in which the receiver reports the stream finished while an accepted byte is still unread. */
  lemma WriteAfterFinLost(b: byte)
    ensures var evs := [Finishes(true, 0), Writes(true, [b], 0), Arrives(false, 0, 0)];
      && RunOk(Pair(New(), New()), evs)
      && var p := Run(Pair(New(), New()), evs);
         PeerFinished(p.b) && p.b.got == [] && p.a.written == [b]
  {
    FirstTwo(b);
    LastOne(b);
    var p0, p1, p2 := Pair(New(), New()), Pair(Closed(), New()), Pair(Write(Closed(), [b], 0), New());
    hide Write, Closed, PeerFinished, Enabled, New, Step;
    var e0, e1, e2 := Finishes(true, 0), Writes(true, [b], 0), Arrives(false, 0, 0);
    RunUnfold(p2, e2, []);
    RunUnfold(p1, e1, [e2] + []);
    RunUnfold(p0, e0, [e1] + ([e2] + []));
    assert [e0] + ([e1] + ([e2] + [])) == [e0, e1, e2];
  }
}
