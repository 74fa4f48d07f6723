/** The multiplexer in place: a table of stream objects opened on demand, none sharing memory. */
module StreamMuxTable {
  import opened Bytes
  import opened StreamWire
  import opened StreamStep
  import opened StreamTrace
  import opened StreamMux
  import opened StreamEndpoint

  class Multiplexer {
    const sids: array<nat>
    const sts: array<Stream?>
    var out: seq<seq<byte>>

    ghost var Repr: set<object>

    ghost predicate SlotValid(i: nat)
      requires i < sts.Length && i < sids.Length
      reads this, sids, sts, Repr
    {
      var s := sts[i];
      s != null ==>
        && {s, s.pend, s.deliv} <= Repr && s.Repr <= Repr
        && s.Repr !! {this, sids, sts}
        && s.Valid() && sids[i] < IDS
    }

    ghost predicate Valid()
      reads this, sids, sts, Repr
    {
      && sids.Length == SLOTS && sts.Length == SLOTS
      && this in Repr && sids in Repr && sts in Repr
      && (forall i :: 0 <= i < SLOTS ==> SlotValid(i))
      && (forall i, j :: 0 <= i < j < SLOTS && sts[i] != null && sts[j] != null ==>
           sts[i].Repr !! sts[j].Repr && sids[i] != sids[j])
    }

    ghost function SlotView(i: nat): (l: Logical)
      requires Valid() && i < SLOTS
      reads this, sids, sts, Repr
      ensures l.Busy? ==> l.sid < IDS && Shaped(l.st)
    {
      assert SlotValid(i);
      if sts[i] == null then Free else Busy(sids[i], sts[i].State())
    }

    ghost function State(): (m: Mux)
      requires Valid()
      reads this, sids, sts, Repr
      ensures MuxOk(m)
    {
      Mux(seq(SLOTS, i requires 0 <= i < SLOTS && Valid() reads this, sids, sts, Repr => SlotView(i)), out)
    }

    constructor ()
      ensures Valid() && fresh(Repr) && State() == Fresh()
    {
      sids := new nat[SLOTS](_ => 0);
      sts := new Stream?[SLOTS](_ => null);
      out := [];
      new;
      Repr := {this, sids, sts};
    }

    method Lookup(sid: nat) returns (i: nat)
      requires Valid()
      ensures i == Find(State().slots, sid, 0)
    {
      i := 0;
      while i < SLOTS && !(sts[i] != null && sids[i] == sid)
        invariant i <= SLOTS && Find(State().slots, sid, 0) == Find(State().slots, sid, i)
      {
        i := i + 1;
      }
    }

    method Vacant() returns (i: nat)
      requires Valid()
      ensures i == FirstFree(State().slots, 0)
    {
      i := 0;
      while i < SLOTS && sts[i] != null
        invariant i <= SLOTS && FirstFree(State().slots, 0) == FirstFree(State().slots, i)
      {
        i := i + 1;
      }
    }

    /** Put a new stream into a free slot. */
    method Install(i: nat, sid: nat)
      requires Valid() && i < SLOTS && sts[i] == null && sid < IDS && Find(State().slots, sid, 0) == SLOTS
      modifies this`Repr, sids, sts
      ensures Valid() && fresh(Repr - old(Repr))
      ensures State() == old(State()).(slots := old(State()).slots[i := Busy(sid, New())])
    {
      ghost var before := State();
      forall j | 0 <= j < SLOTS && sts[j] != null ensures sids[j] != sid { assert before.slots[j] == SlotView(j); }
      var s := new Stream();
      sids[i] := sid;
      sts[i] := s;
      Repr := Repr + s.Repr;
      forall j | 0 <= j < SLOTS ensures SlotValid(j) { assert old(SlotValid(j)); }
      assert Valid();
      hide New, Shaped, MuxOk, RingOf;
      forall j | 0 <= j < SLOTS && j != i ensures SlotView(j) == before.slots[j] {
        assert before.slots[j] == old(SlotView(j));
      }
      assert State().slots == before.slots[i := Busy(sid, New())];
    }

    /** The slot of a stream, opening it first when it is new; the table's size when it is full. */
    method OpenStream(sid: nat) returns (i: nat)
      requires Valid() && sid < IDS
      modifies this`Repr, sids, sts
      ensures Valid() && fresh(Repr - old(Repr))
      ensures State() == Open(old(State()), sid)
      ensures (i < SLOTS) == CanOpen(old(State()), sid)
      ensures i == Find(State().slots, sid, 0) || i == SLOTS
    {
      i := Lookup(sid);
      if i < SLOTS { return; }
      i := Vacant();
      if i == SLOTS { return; }
      InstalledFound(State().slots, sid, New());
      Install(i, sid);
    }

    /** A change inside one stream is a change of its slot only. */
    twostate lemma OnlySlot(i: nat)
      requires old(Valid()) && i < SLOTS && sts[i] != null && sts[i].Valid()
      requires unchanged(this, sids, sts)
      requires forall o :: o in old(Repr) && o !in sts[i].Repr ==> unchanged(o)
      ensures Valid()
      ensures State() == old(State()).(slots := old(State()).slots[i := Busy(sids[i], sts[i].State())])
    {
      hide Shaped, MuxOk, RingOf;
      forall j | 0 <= j < SLOTS ensures SlotValid(j) { assert old(SlotValid(j)); }
      assert Valid();
      forall j | 0 <= j < SLOTS && j != i ensures SlotView(j) == old(State()).slots[j] {
        assert old(State()).slots[j] == old(SlotView(j)) && old(SlotValid(j));
        if sts[j] != null { assert sts[j].Repr !! sts[i].Repr && sts[j].State() == old(sts[j].State()); }
      }
      assert State().slots == old(State()).slots[i := Busy(sids[i], sts[i].State())];
    }

    /** Frame what a stream has sent since `n` and hand it to the channel. */
    method Flush(i: nat, n: nat)
      requires Valid() && i < SLOTS && sts[i] != null && n <= |sts[i].out|
      modifies this`out
      ensures Valid() && out == old(out) + Frames(sids[i], sts[i].out[n..])
      ensures State() == old(State()).(out := out)
    {
      assert SlotValid(i);
      var segs := sts[i].out[n..];
      for k := 0 to |segs|
        invariant Valid() && out == old(out) + Frames(sids[i], segs)[..k]
        invariant State() == old(State()).(out := out)
      {
        ghost var before := State();
        var head := Be(sids[i], FRAME);
        label sending:
        out := out + [head + segs[k]];
        forall j | 0 <= j < SLOTS ensures SlotValid(j) { assert old@sending(SlotValid(j)); }
        assert Valid();
        forall j | 0 <= j < SLOTS ensures SlotView(j) == before.slots[j] {
          assert old@sending(SlotView(j)) == before.slots[j] && SlotValid(j);
        }
        assert Frames(sids[i], segs)[..k + 1] == Frames(sids[i], segs)[..k] + [FrameOf(sids[i], segs[k])];
        assert State().slots == before.slots;
      }
      assert Frames(sids[i], segs)[..|segs|] == Frames(sids[i], segs);
    }

    /** Queue application bytes on one id: how many were accepted, or -1 when the table is full. */
    method Send(sid: nat, data: seq<byte>, now: nat) returns (r: int)
      requires Valid() && sid < IDS
      modifies Repr
      ensures Valid() && fresh(Repr - old(Repr))
      ensures State() == StreamMux.Write(old(State()), sid, data, now)
      ensures r == if CanOpen(old(State()), sid) then Accepts(View(old(State()), sid), |data|) else -1
    {
      hide Shaped, MuxOk, RingOf, StreamStep.Write, New, Frames;
      OpenOk(State(), sid);
      var i := OpenStream(sid);
      if i == SLOTS { return -1; }
      ghost var m1 := State();
      assert SlotValid(i) && m1.slots[i] == SlotView(i);
      WriteGrows(View(m1, sid), data, now);
      var n := |sts[i].out|;
      label before:
      r := sts[i].Send(data, now);
      OnlySlot@before(i);
      Flush(i, n);
    }

    /** Finish one id, opening it first when it is new. */
    method Close(sid: nat, now: nat)
      requires Valid() && sid < IDS
      modifies Repr
      ensures Valid() && fresh(Repr - old(Repr))
      ensures State() == StreamMux.Finish(old(State()), sid, now)
    {
      hide Shaped, MuxOk, RingOf, StreamStep.Finish, New, Frames;
      OpenOk(State(), sid);
      var i := OpenStream(sid);
      if i == SLOTS { return; }
      ghost var m1 := State();
      assert SlotValid(i) && m1.slots[i] == SlotView(i);
      FinishGrows(View(m1, sid), now);
      var n := |sts[i].out|;
      label before:
      sts[i].Close(now);
      OnlySlot@before(i);
      Flush(i, n);
    }

    /** Feed one stream, opening it first when it is new. */
    method FeedTo(sid: nat, seg: seq<byte>, now: nat)
      requires Valid() && sid < IDS
      modifies Repr
      ensures Valid() && fresh(Repr - old(Repr))
      ensures State() == InputTo(old(State()), sid, seg, now)
    {
      hide Shaped, MuxOk, RingOf, StreamStep.Input, New, Frames;
      OpenOk(State(), sid);
      var i := OpenStream(sid);
      if i == SLOTS { return; }
      ghost var m1 := State();
      assert SlotValid(i) && m1.slots[i] == SlotView(i);
      InputGrows(View(m1, sid), seg, now);
      var n := |sts[i].out|;
      label before:
      sts[i].Feed(seg, now);
      OnlySlot@before(i);
      Flush(i, n);
    }

    /** A frame from the channel. */
    method Feed(f: seq<byte>, now: nat)
      requires Valid()
      modifies Repr
      ensures Valid() && fresh(Repr - old(Repr))
      ensures State() == StreamMux.Input(old(State()), f, now)
    {
      hide InputTo, MuxOk, RingOf;
      if |f| < FRAME { return; }
      Pow256Values();
      var sid := ReadBe(f, 0, FRAME);
      FeedTo(sid, f[FRAME..], now);
    }

    /** Read from one id; nothing when it is not open. */
    method Receive(sid: nat, cap: nat) returns (bytes: seq<byte>)
      requires Valid()
      modifies Repr
      ensures Valid() && Repr == old(Repr)
      ensures State() == StreamMux.Read(old(State()), sid, cap)
      ensures View(State(), sid).got == View(old(State()), sid).got + bytes
    {
      hide MuxOk, RingOf, New;
      var i := Lookup(sid);
      if i == SLOTS {
        bytes := [];
        assert View(State(), sid).got + [] == View(State(), sid).got;
        return;
      }
      ghost var m := State();
      assert SlotValid(i) && m.slots[i] == SlotView(i);
      label before:
      bytes := sts[i].Receive(cap);
      OnlySlot@before(i);
      ReadSlot(m, i, cap);
    }

    /** Whether the peer has finished an id: yes, also when the id is not open. */
    method IsFinished(sid: nat) returns (done: bool)
      requires Valid()
      ensures done == SaysFinished(State(), sid)
    {
      var i := Lookup(sid);
      if i == SLOTS { return true; }
      assert SlotValid(i) && State().slots[i] == SlotView(i);
      done := sts[i].IsPeerFinished();
    }

    method TickSlot(i: nat, now: nat)
      requires Valid() && i < SLOTS && sts[i] != null
      modifies Repr
      ensures Valid() && Repr == old(Repr) && sts[i] == old(sts[i])
      ensures var l := old(State()).slots[i];
        l.Busy? && Shaped(l.st) && Grew(l.st, StreamStep.Tick(l.st, now))
        && State() == Advance(old(State()), i, StreamStep.Tick(l.st, now))
    {
      hide Shaped, MuxOk, RingOf, StreamStep.Tick, New, Frames;
      ghost var m := State();
      assert SlotValid(i) && m.slots[i] == SlotView(i);
      TickGrows(m.slots[i].st, now);
      var n := |sts[i].out|;
      label before:
      sts[i].OnTick(now);
      OnlySlot@before(i);
      Flush(i, n);
    }

    method OnTick(now: nat)
      requires Valid()
      modifies Repr
      ensures Valid() && Repr == old(Repr)
      ensures State() == StreamMux.Tick(old(State()), now)
    {
      hide MuxOk, RingOf, StreamStep.Tick, New, Advance;
      ghost var m := State();
      for i := 0 to SLOTS
        invariant Valid() && Repr == old(Repr)
        invariant TickFrom(m, 0, now) == TickFrom(State(), i, now)
      {
        ghost var m1 := State();
        assert SlotValid(i) && m1.slots[i] == SlotView(i);
        if sts[i] != null {
          TickSlot(i, now);
        }
      }
    }
  }

  lemma ReadSlot(m: Mux, i: nat, cap: nat)
    requires MuxOk(m) && i < SLOTS && m.slots[i].Busy?
    ensures var l := m.slots[i];
      && StreamMux.Read(m, l.sid, cap) == m.(slots := m.slots[i := Busy(l.sid, StreamStep.Read(l.st, cap))])
      && View(m, l.sid) == l.st && View(StreamMux.Read(m, l.sid, cap), l.sid) == StreamStep.Read(l.st, cap)
  {
    var l := m.slots[i];
    FindUnique(m, i);
    var st := StreamStep.Read(l.st, cap);
    assert Frames(l.sid, st.out[|l.st.out|..]) == [];
    assert m.out + [] == m.out;
    FindUnique(StreamMux.Read(m, l.sid, cap), i);
  }

  lemma InstalledFound(slots: seq<Logical>, sid: nat, st: End)
    requires Find(slots, sid, 0) == |slots| && FirstFree(slots, 0) < |slots|
    ensures Find(slots[FirstFree(slots, 0) := Busy(sid, st)], sid, 0) == FirstFree(slots, 0)
  {
    var i := FirstFree(slots, 0);
    var t := slots[i := Busy(sid, st)];
    var r := Find(t, sid, 0);
    assert t[i].Busy? && t[i].sid == sid;
    assert forall j :: 0 <= j < i ==> t[j] == slots[j];
  }
}
