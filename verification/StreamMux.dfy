/** Several streams over one channel: a table of sixteen streams whose segments carry a two-byte id.
    Each id, seen alone, is a connection of its own. */
module StreamMux {
  import opened Bytes
  import opened StreamWire
  import opened StreamStep
  import opened StreamInvariant
  import opened StreamTrace

  const SLOTS: nat := 16
  const FRAME: nat := 2
  const IDS: nat := 0x1_0000

  datatype Logical = Free | Busy(sid: nat, st: End)

  /** The table, and every framed segment handed to the channel. */
  datatype Mux = Mux(slots: seq<Logical>, out: seq<seq<byte>>)

  function Fresh(): Mux { Mux(seq(SLOTS, _ => Free), []) }

  ghost predicate MuxOk(m: Mux) {
    && |m.slots| == SLOTS
    && (forall i :: 0 <= i < SLOTS && m.slots[i].Busy? ==> m.slots[i].sid < IDS && Shaped(m.slots[i].st))
    && OneSlotEach(m.slots)
  }

  /** Each stream id occupies at most one slot. */
  ghost predicate OneSlotEach(slots: seq<Logical>) {
    forall i, j ::
      0 <= i < |slots| && 0 <= j < |slots| && slots[i].Busy? && slots[j].Busy? && slots[i].sid == slots[j].sid ==>
        i == j
  }

  function FrameOf(sid: nat, seg: seq<byte>): seq<byte> { Be(sid, FRAME) + seg }

  lemma FrameParts(sid: nat, seg: seq<byte>)
    requires sid < IDS
    ensures |FrameOf(sid, seg)| >= FRAME && GetBe(FrameOf(sid, seg), 0, FRAME) == sid
    ensures FrameOf(sid, seg)[FRAME..] == seg
  {
    Pow256Values();
    UnBeBe(sid, FRAME);
    assert FrameOf(sid, seg)[0..FRAME] == Be(sid, FRAME);
  }

  // ---- the table ----

  function Find(slots: seq<Logical>, sid: nat, i: nat): (r: nat)
    requires i <= |slots|
    ensures i <= r <= |slots|
    ensures r < |slots| ==> slots[r].Busy? && slots[r].sid == sid
    ensures forall j :: i <= j < r ==> !(slots[j].Busy? && slots[j].sid == sid)
    decreases |slots| - i
  {
    if i == |slots| then i
    else if slots[i].Busy? && slots[i].sid == sid then i
    else Find(slots, sid, i + 1)
  }

  function FirstFree(slots: seq<Logical>, i: nat): (r: nat)
    requires i <= |slots|
    ensures i <= r <= |slots|
    ensures r < |slots| ==> slots[r].Free?
    ensures forall j :: i <= j < r ==> slots[j].Busy?
    decreases |slots| - i
  {
    if i == |slots| then i else if slots[i].Free? then i else FirstFree(slots, i + 1)
  }

  /** The slot a stream is in, or would be opened in; the table's size when it is full. */
  function SlotFor(slots: seq<Logical>, sid: nat): (r: nat)
    ensures r <= |slots|
  {
    if Find(slots, sid, 0) < |slots| then Find(slots, sid, 0) else FirstFree(slots, 0)
  }

  predicate CanOpen(m: Mux, sid: nat) { SlotFor(m.slots, sid) < |m.slots| }

  function Open(m: Mux, sid: nat): Mux {
    var i := SlotFor(m.slots, sid);
    if i < |m.slots| && m.slots[i].Free? then m.(slots := m.slots[i := Busy(sid, New())]) else m
  }

  /** What one id looks like from outside: a stream not opened yet is a new one. */
  function View(m: Mux, sid: nat): End {
    var i := Find(m.slots, sid, 0);
    if i < |m.slots| then m.slots[i].st else New()
  }

  predicate IsOpen(m: Mux, sid: nat) { Find(m.slots, sid, 0) < |m.slots| }

  /** The multiplexer's answer to whether the peer has finished an id: yes, also when the id is not open. */
  predicate SaysFinished(m: Mux, sid: nat) { IsOpen(m, sid) ==> PeerFinished(View(m, sid)) }

  // ---- the operations ----

  function Frames(sid: nat, segs: seq<seq<byte>>): (f: seq<seq<byte>>)
    ensures |f| == |segs|
  {
    seq(|segs|, k requires 0 <= k < |segs| => FrameOf(sid, segs[k]))
  }

  /** Slot `i` moves to `st`; what its stream sent on the way goes out framed. */
  function Advance(m: Mux, i: nat, st: End): Mux
    requires i < |m.slots| && m.slots[i].Busy? && |m.slots[i].st.out| <= |st.out|
  {
    var l := m.slots[i];
    Mux(m.slots[i := Busy(l.sid, st)], m.out + Frames(l.sid, st.out[|l.st.out|..]))
  }

  function Write(m: Mux, sid: nat, data: seq<byte>, now: nat): Mux
    requires MuxOk(m) && sid < IDS
  {
    if !CanOpen(m, sid) then m
    else
      OpenOk(m, sid);
      var m1 := Open(m, sid);
      WriteGrows(View(m1, sid), data, now);
      Advance(m1, Find(m1.slots, sid, 0), StreamStep.Write(View(m1, sid), data, now))
  }

  function Finish(m: Mux, sid: nat, now: nat): Mux
    requires MuxOk(m) && sid < IDS
  {
    if !CanOpen(m, sid) then m
    else
      OpenOk(m, sid);
      var m1 := Open(m, sid);
      FinishGrows(View(m1, sid), now);
      Advance(m1, Find(m1.slots, sid, 0), StreamStep.Finish(View(m1, sid), now))
  }

  function Read(m: Mux, sid: nat, cap: nat): Mux
    requires MuxOk(m)
  {
    if !IsOpen(m, sid) then m
    else Advance(m, Find(m.slots, sid, 0), StreamStep.Read(View(m, sid), cap))
  }

  function InputTo(m: Mux, sid: nat, seg: seq<byte>, now: nat): Mux
    requires MuxOk(m) && sid < IDS
  {
    if !CanOpen(m, sid) then m
    else
      OpenOk(m, sid);
      var m1 := Open(m, sid);
      InputGrows(View(m1, sid), seg, now);
      Advance(m1, Find(m1.slots, sid, 0), StreamStep.Input(View(m1, sid), seg, now))
  }

  /** A frame from the channel: split off the id, open the stream if it is new, feed it. */
  function Input(m: Mux, f: seq<byte>, now: nat): Mux
    requires MuxOk(m)
  {
    if |f| < FRAME then m
    else
      Pow256Values();
      InputTo(m, GetBe(f, 0, FRAME), f[FRAME..], now)
  }

  function TickFrom(m: Mux, i: nat, now: nat): Mux
    requires MuxOk(m) && i <= SLOTS
    decreases SLOTS - i
  {
    if i == SLOTS then m
    else if m.slots[i].Free? then TickFrom(m, i + 1, now)
    else
      TickGrows(m.slots[i].st, now);
      AdvanceOk(m, i, StreamStep.Tick(m.slots[i].st, now));
      TickFrom(Advance(m, i, StreamStep.Tick(m.slots[i].st, now)), i + 1, now)
  }

  function Tick(m: Mux, now: nat): Mux
    requires MuxOk(m)
  {
    TickFrom(m, 0, now)
  }

  // ---- what the table keeps ----

  lemma NewShaped()
    ensures Shaped(New()) && New().out == []
  {
  }

  lemma FindUnique(m: Mux, i: nat)
    requires MuxOk(m) && i < SLOTS && m.slots[i].Busy?
    ensures Find(m.slots, m.slots[i].sid, 0) == i && View(m, m.slots[i].sid) == m.slots[i].st
  {
  }

  /** Opening puts the id in a slot of its own and shows nothing new to anybody. */
  lemma OpenOk(m: Mux, sid: nat)
    requires MuxOk(m) && sid < IDS
    ensures MuxOk(Open(m, sid)) && Open(m, sid).out == m.out
    ensures IsOpen(Open(m, sid), sid) == CanOpen(m, sid)
    ensures forall t :: View(Open(m, sid), t) == View(m, t)
  {
    NewShaped();
    var m1 := Open(m, sid);
    var i := SlotFor(m.slots, sid);
    if m1 != m {
      FindUnique(m1, i);
      forall t ensures View(m1, t) == View(m, t) {
        var j := Find(m.slots, t, 0);
        if j < SLOTS { FindUnique(m1, j); }
      }
    }
  }

  /** Moving one slot on leaves every other stream as it was. */
  lemma AdvanceOk(m: Mux, i: nat, st: End)
    requires MuxOk(m) && i < SLOTS && m.slots[i].Busy? && Grew(m.slots[i].st, st)
    ensures MuxOk(Advance(m, i, st))
    ensures View(Advance(m, i, st), m.slots[i].sid) == st
    ensures forall t :: t != m.slots[i].sid ==> View(Advance(m, i, st), t) == View(m, t)
    ensures forall t :: IsOpen(Advance(m, i, st), t) == IsOpen(m, t)
  {
    hide Frames;
    var m1 := Advance(m, i, st);
    FindUnique(m1, i);
    forall t ensures t != m.slots[i].sid ==> View(m1, t) == View(m, t)
             ensures IsOpen(m1, t) == IsOpen(m, t) {
      var j := Find(m.slots, t, 0);
      if j < SLOTS { FindUnique(m1, j); }
    }
  }

  // ---- what goes to the channel ----

  /** The segments of one id among frames, in order. */
  ghost function OfId(fs: seq<seq<byte>>, sid: nat): seq<seq<byte>> {
    if fs == [] then []
    else
      var f := fs[|fs| - 1];
      OfId(fs[..|fs| - 1], sid) + (if |f| >= FRAME && GetBe(f, 0, FRAME) == sid then [f[FRAME..]] else [])
  }

  ghost predicate Framed(fs: seq<seq<byte>>) { forall k :: 0 <= k < |fs| ==> |fs[k]| >= FRAME }

  /** What is added to the channel, seen by each id, is exactly what its stream has sent since. */
  ghost predicate Sends(m: Mux, r: Mux) {
    && m.out <= r.out
    && var fs := r.out[|m.out|..];
    && Framed(fs)
    && forall t {:trigger View(r, t)} :: View(r, t).out == View(m, t).out + OfId(fs, t)
  }

  /** The channel has been given, for each id, exactly what its stream has sent, in order. */
  ghost predicate Carries(m: Mux) { Framed(m.out) && forall t :: OfId(m.out, t) == View(m, t).out }

  lemma {:induction false} OfIdConcat(x: seq<seq<byte>>, y: seq<seq<byte>>, t: nat)
    ensures OfId(x + y, t) == OfId(x, t) + OfId(y, t)
  {
    if y == [] {
      assert x + y == x;
    } else {
      var z := x + y;
      assert z[..|z| - 1] == x + y[..|y| - 1] && z[|z| - 1] == y[|y| - 1];
      OfIdConcat(x, y[..|y| - 1], t);
    }
  }

  lemma {:induction false} OfIdFrames(sid: nat, segs: seq<seq<byte>>, t: nat)
    requires sid < IDS
    ensures OfId(Frames(sid, segs), t) == if t == sid then segs else []
  {
    if segs != [] {
      var n := |segs| - 1;
      assert Frames(sid, segs)[..n] == Frames(sid, segs[..n]);
      FrameParts(sid, segs[n]);
      OfIdFrames(sid, segs[..n], t);
    }
  }

  lemma SendsNothing(m: Mux, r: Mux)
    requires r.out == m.out && forall t :: View(r, t) == View(m, t)
    ensures Sends(m, r)
  {
    hide View;
  }

  lemma SendsTrans(m: Mux, m1: Mux, r: Mux)
    requires Sends(m, m1) && Sends(m1, r)
    ensures Sends(m, r)
  {
    hide View, OfId;
    var x, y, z := m1.out[|m.out|..], r.out[|m1.out|..], r.out[|m.out|..];
    assert z == x + y;
    forall t ensures View(r, t).out == View(m, t).out + OfId(z, t) {
      OfIdConcat(x, y, t);
      assert View(m1, t).out == View(m, t).out + OfId(x, t);
    }
  }

  lemma CarriesOn(m: Mux, r: Mux)
    requires Carries(m) && Sends(m, r)
    ensures Carries(r)
  {
    hide View, OfId;
    var fs := r.out[|m.out|..];
    assert r.out == m.out + fs;
    forall t ensures OfId(r.out, t) == View(r, t).out { OfIdConcat(m.out, fs, t); }
  }

  /** Every frame on the channel is one stream's segment behind that stream's id. */
  ghost predicate FrameOk(m: Mux, f: seq<byte>) {
    |f| >= FRAME && f[FRAME..] in View(m, GetBe(f, 0, FRAME)).out
  }

  lemma CarriedFrame(m: Mux, k: nat)
    requires Carries(m) && k < |m.out|
    ensures FrameOk(m, m.out[k])
  {
    hide View, OfId;
    var t := GetBe(m.out[k], 0, FRAME);
    assert m.out == m.out[..k] + ([m.out[k]] + m.out[k + 1..]);
    OfIdConcat(m.out[..k], [m.out[k]] + m.out[k + 1..], t);
    OfIdConcat([m.out[k]], m.out[k + 1..], t);
    OfIdOne(m.out[k], t);
    assert OfId(m.out, t) == View(m, t).out;
    assert m.out[k][FRAME..] in OfId([m.out[k]], t);
  }

  lemma OfIdOne(f: seq<byte>, t: nat)
    requires |f| >= FRAME && GetBe(f, 0, FRAME) == t
    ensures OfId([f], t) == [f[FRAME..]]
  {
    assert [f][..0] == [];
  }

  lemma AdvanceSends(m: Mux, i: nat, st: End)
    requires MuxOk(m) && i < SLOTS && m.slots[i].Busy? && Grew(m.slots[i].st, st)
    ensures Sends(m, Advance(m, i, st))
  {
    AdvanceOk(m, i, st);
    FindUnique(m, i);
    var m1, l := Advance(m, i, st), m.slots[i];
    var fs := Frames(l.sid, st.out[|l.st.out|..]);
    hide View, MuxOk, OfId;
    assert m1.out[|m.out|..] == fs;
    forall t ensures View(m1, t).out == View(m, t).out + OfId(fs, t) { OfIdFrames(l.sid, st.out[|l.st.out|..], t); }
  }

  // ---- isolation ----

  /** An operation on one id: its stream takes a step, every other stream is unchanged, and the channel is given what
      the stream sent on the way. */
  ghost predicate Acted(m: Mux, r: Mux, sid: nat, st: End) {
    && MuxOk(r)
    && View(r, sid) == st
    && (forall t :: t != sid ==> View(r, t) == View(m, t))
    && Sends(m, r)
  }

  lemma OpenedActs(m: Mux, sid: nat, st: End)
    requires MuxOk(m) && sid < IDS && CanOpen(m, sid) && Grew(View(m, sid), st)
    ensures var m1 := Open(m, sid);
      && MuxOk(m1) && IsOpen(m1, sid) && View(m1, sid) == View(m, sid)
      && |View(m, sid).out| <= |st.out|
      && Acted(m, Advance(m1, Find(m1.slots, sid, 0), st), sid, st)
  {
    OpenOk(m, sid);
    var m1 := Open(m, sid);
    AdvanceOk(m1, Find(m1.slots, sid, 0), st);
    AdvanceSends(m1, Find(m1.slots, sid, 0), st);
    SendsNothing(m, m1);
    SendsTrans(m, m1, Advance(m1, Find(m1.slots, sid, 0), st));
  }

  lemma ViewShaped(m: Mux, sid: nat)
    requires MuxOk(m)
    ensures Shaped(View(m, sid))
  {
    NewShaped();
  }

  lemma WriteActs(m: Mux, sid: nat, data: seq<byte>, now: nat)
    requires MuxOk(m) && sid < IDS
    ensures Shaped(View(m, sid))
    ensures if CanOpen(m, sid) then Acted(m, Write(m, sid, data, now), sid, StreamStep.Write(View(m, sid), data, now))
            else Write(m, sid, data, now) == m
  {
    ViewShaped(m, sid);
    hide MuxOk, View, Advance, StreamStep.Write, Acted, Shaped, New;
    WriteGrows(View(m, sid), data, now);
    if CanOpen(m, sid) { OpenedActs(m, sid, StreamStep.Write(View(m, sid), data, now)); }
  }

  lemma FinishActs(m: Mux, sid: nat, now: nat)
    requires MuxOk(m) && sid < IDS
    ensures Shaped(View(m, sid))
    ensures if CanOpen(m, sid) then Acted(m, Finish(m, sid, now), sid, StreamStep.Finish(View(m, sid), now))
            else Finish(m, sid, now) == m
  {
    ViewShaped(m, sid);
    hide MuxOk, View, Advance, StreamStep.Finish, Acted, New;
    FinishGrows(View(m, sid), now);
    if CanOpen(m, sid) { OpenedActs(m, sid, StreamStep.Finish(View(m, sid), now)); }
  }

  lemma ReadActs(m: Mux, sid: nat, cap: nat)
    requires MuxOk(m)
    ensures if IsOpen(m, sid) then Acted(m, Read(m, sid, cap), sid, StreamStep.Read(View(m, sid), cap))
            else Read(m, sid, cap) == m
  {
    ViewShaped(m, sid);
    if IsOpen(m, sid) {
      var i, st := Find(m.slots, sid, 0), StreamStep.Read(View(m, sid), cap);
      AdvanceOk(m, i, st);
      AdvanceSends(m, i, st);
    }
  }

  lemma InputActs(m: Mux, f: seq<byte>, now: nat)
    requires MuxOk(m) && |f| >= FRAME
    ensures GetBe(f, 0, FRAME) < IDS && Shaped(View(m, GetBe(f, 0, FRAME)))
    ensures var sid := GetBe(f, 0, FRAME);
      if CanOpen(m, sid) then Acted(m, Input(m, f, now), sid, StreamStep.Input(View(m, sid), f[FRAME..], now))
      else Input(m, f, now) == m
  {
    Pow256Values();
    var sid := GetBe(f, 0, FRAME);
    ViewShaped(m, sid);
    hide MuxOk, View, Advance, StreamStep.Input, Acted, Shaped, New;
    InputGrows(View(m, sid), f[FRAME..], now);
    if CanOpen(m, sid) { OpenedActs(m, sid, StreamStep.Input(View(m, sid), f[FRAME..], now)); }
  }

  /** Ticking from slot `i` on: the streams there have ticked, the others are as they were, and the channel is given
      what the streams sent. */
  ghost predicate Ticked(m: Mux, i: nat, now: nat, r: Mux) {
    && MuxOk(r) && Sends(m, r)
    && forall t {:trigger View(r, t)} :: Shaped(View(m, t)) &&
         View(r, t) == if i <= Find(m.slots, t, 0) < |m.slots| then StreamStep.Tick(View(m, t), now) else View(m, t)
  }

  lemma TickedSame(m: Mux, i: nat, now: nat)
    requires MuxOk(m) && i <= SLOTS && (i < SLOTS ==> m.slots[i].Free?)
    ensures i == SLOTS ==> Ticked(m, i, now, m)
    ensures i < SLOTS ==> forall r :: Ticked(m, i + 1, now, r) ==> Ticked(m, i, now, r)
  {
    hide StreamStep.Tick, Sends;
    forall t ensures Shaped(View(m, t)) { ViewShaped(m, t); }
    SendsNothing(m, m);
  }

  lemma TickedNext(m: Mux, i: nat, now: nat, m1: Mux, r: Mux)
    requires MuxOk(m) && i < SLOTS && m.slots[i].Busy?
    requires Acted(m, m1, m.slots[i].sid, StreamStep.Tick(m.slots[i].st, now))
    requires View(m, m.slots[i].sid) == m.slots[i].st
    requires Find(m.slots, m.slots[i].sid, 0) == i && |m1.slots| == SLOTS
    requires forall t :: Find(m1.slots, t, 0) == Find(m.slots, t, 0)
    requires Ticked(m1, i + 1, now, r)
    ensures Ticked(m, i, now, r)
  {
    SendsTrans(m, m1, r);
    hide StreamStep.Tick, Sends, View, Shaped;
    forall t ensures Shaped(View(m, t)) { ViewShaped(m, t); }
    forall t
      ensures View(r, t) ==
        if i <= Find(m.slots, t, 0) < |m.slots| then StreamStep.Tick(View(m, t), now) else View(m, t) {
      FoundIs(m, t);
    }
  }

  lemma FoundIs(m: Mux, t: nat)
    ensures var k := Find(m.slots, t, 0); k < |m.slots| ==> m.slots[k].Busy? && m.slots[k].sid == t
  {
  }

  /** A tick reaches each open stream exactly once. */
  lemma {:induction false} TickActs(m: Mux, i: nat, now: nat)
    requires MuxOk(m) && i <= SLOTS
    ensures Ticked(m, i, now, TickFrom(m, i, now))
    decreases SLOTS - i
  {
    hide Ticked, StreamStep.Tick, Acted;
    if i == SLOTS || m.slots[i].Free? {
      TickedSame(m, i, now);
      if i < SLOTS { TickActs(m, i + 1, now); }
    } else {
      TickOne(m, i, now);
      var m1 := Advance(m, i, StreamStep.Tick(m.slots[i].st, now));
      AdvanceOk(m, i, StreamStep.Tick(m.slots[i].st, now));
      TickActs(m1, i + 1, now);
      TickedNext(m, i, now, m1, TickFrom(m1, i + 1, now));
    }
  }

  lemma TickOne(m: Mux, i: nat, now: nat)
    requires MuxOk(m) && i < SLOTS && m.slots[i].Busy?
    ensures var st := StreamStep.Tick(m.slots[i].st, now);
      && Grew(m.slots[i].st, st)
      && Acted(m, Advance(m, i, st), m.slots[i].sid, st)
      && View(m, m.slots[i].sid) == m.slots[i].st && Find(m.slots, m.slots[i].sid, 0) == i
      && forall t :: Find(Advance(m, i, st).slots, t, 0) == Find(m.slots, t, 0)
  {
    hide StreamStep.Tick, Frames;
    var st := StreamStep.Tick(m.slots[i].st, now);
    TickGrows(m.slots[i].st, now);
    FindUnique(m, i);
    AdvanceOk(m, i, st);
    AdvanceSends(m, i, st);
    forall t ensures Find(Advance(m, i, st).slots, t, 0) == Find(m.slots, t, 0) {
      var j := Find(m.slots, t, 0);
      if j < SLOTS { FindUnique(Advance(m, i, st), j); }
    }
  }
}
