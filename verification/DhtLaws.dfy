/** What the cache keeps over any sequence of puts, gets and deletes under any clock. */
module DhtLaws {
  import opened Bytes
  import opened DhtCache

  lemma FullExpiry(c: Cache, now: int)
    requires CacheOk(c)
    ensures var r := Expire(c, now);
      && Shrinks(c, r)
      && (forall j :: 0 <= j < |r.items| ==> !Expired(r.items[j], now))
      && (forall t :: Lookup(c.items, t).Some? && !Expired(Lookup(c.items, t).value, now) ==>
            Lookup(r.items, t) == Lookup(c.items, t))
      && (forall t {:trigger Lookup(r.items, t)} :: Lookup(r.items, t).Some? ==>
            !Expired(Lookup(r.items, t).value, now))
  {
    ExpireExact(c, 0, now);
  }

  /** Another target is either untouched or gone. */
  ghost predicate OthersKept(c: Cache, r: Cache, t: Target) {
    forall u {:trigger Lookup(r.items, u)} :: u != t && Lookup(r.items, u).Some? ==>
      Lookup(r.items, u) == Lookup(c.items, u)
  }

  lemma UpdateAt(items: seq<Item>, i: nat, x: Item)
    requires DistinctTargets(items) && i < |items| && x.target == items[i].target
    ensures DistinctTargets(items[i := x]) && Lookup(items[i := x], x.target) == Some(x)
    ensures forall u :: u != x.target ==> Lookup(items[i := x], u) == Lookup(items, u)
  {
    var s := items[i := x];
    assert DistinctTargets(s);
    LookupAt(s, i);
    forall u | u != x.target ensures Lookup(s, u) == Lookup(items, u) {
      var j := Find(items, u, 0);
      if j < |items| { assert s[j] == items[j]; FindUnique(s, j); }
    }
  }

  lemma AppendNew(items: seq<Item>, x: Item)
    requires DistinctTargets(items) && Lookup(items, x.target) == None
    ensures DistinctTargets(items + [x]) && Lookup(items + [x], x.target) == Some(x)
    ensures forall u :: u != x.target ==> Lookup(items + [x], u) == Lookup(items, u)
  {
    var s := items + [x];
    assert DistinctTargets(s);
    LookupAt(s, |items|);
    forall u | u != x.target ensures Lookup(s, u) == Lookup(items, u) {
      var j := Find(items, u, 0);
      if j < |items| { assert s[j] == items[j]; FindUnique(s, j); }
    }
  }

  // ---- one put ----

  /** Everything a store does: the cache stays sound; a new item is accepted exactly when its address is below the
      cap and it fits the budget alone, and leaves the total within the budget; a resident one keeps its content
      unless a newer mutable one replaces it. */
  ghost predicate Stored(c: Cache, t: Target, p: Payload, ip: nat, now: int, r: Cache, ok: bool) {
    var e := Lookup(Expire(c, now).items, t);
    var after := Lookup(r.items, t);
    && CacheOk(r) && r.budget == c.budget && OthersKept(c, r, t)
    && (e.None? ==> ok == (CountIp(Expire(c, now).items, ip) < PER_IP && |p.v| <= c.budget))
    && (e.None? && ok ==> r.bytes <= r.budget)
    && (e.None? ==> after == if ok then Some(Item(t, p, ip, now)) else None)
    && (e.Some? ==> ok == (p.immutable || p.seqno > e.value.payload.seqno))
    && (e.Some? ==> after == Some(if !ok then e.value
                                  else if p.immutable then e.value.(stored := now)
                                  else Item(t, p, ip, now)))
  }

  lemma StoreResident(c: Cache, t: Target, p: Payload, ip: nat, now: int)
    requires CacheOk(c) && Lookup(Expire(c, now).items, t).Some?
    ensures var (r, ok) := StoreItem(c, t, p, ip, now); Stored(c, t, p, ip, now, r, ok)
  {
    FullExpiry(c, now);
    var d := Expire(c, now);
    hide Expire;
    var i := Find(d.items, t, 0);
    var e := d.items[i];
    UpdateAt(d.items, i, e.(stored := now));
    TotalUpdate(d.items, i, e.(stored := now));
    UpdateAt(d.items, i, Item(t, p, ip, now));
    TotalUpdate(d.items, i, Item(t, p, ip, now));
    hide Total;
    var r := StoreItem(c, t, p, ip, now).0;
    forall u | u != t && Lookup(r.items, u).Some? ensures Lookup(r.items, u) == Lookup(c.items, u) {
      assert Lookup(r.items, u) == Lookup(d.items, u);
    }
  }

  lemma StoreNew(c: Cache, t: Target, p: Payload, ip: nat, now: int)
    requires CacheOk(c) && Lookup(Expire(c, now).items, t).None?
    ensures var (r, ok) := StoreItem(c, t, p, ip, now); Stored(c, t, p, ip, now, r, ok)
  {
    FullExpiry(c, now);
    var d := Expire(c, now);
    hide Expire, MakeRoom, Find;
    RoomShrinks(d, |p.v|);
    var m := MakeRoom(d, |p.v|);
    ShrinksTrans(c, d, m);
    assert Lookup(m.items, t) == None;
    var x := Item(t, p, ip, now);
    AppendNew(m.items, x);
    TotalSnoc(m.items + [x]);
    assert (m.items + [x])[..|m.items|] == m.items;
  }

  lemma StoreExact(c: Cache, t: Target, p: Payload, ip: nat, now: int)
    requires CacheOk(c)
    ensures var (r, ok) := StoreItem(c, t, p, ip, now); Stored(c, t, p, ip, now, r, ok)
  {
    hide Stored, StoreItem;
    if Lookup(Expire(c, now).items, t).Some? { StoreResident(c, t, p, ip, now); } else { StoreNew(c, t, p, ip, now); }
  }

  /** After an accepted store the target holds the new content, exactly unless the item was immutable and
      something else was already there. */
  lemma AcceptedIsHeld(c: Cache, t: Target, p: Payload, ip: nat, now: int)
    requires CacheOk(c) && StoreItem(c, t, p, ip, now).1
    ensures var e := Lookup(Expire(c, now).items, t);
      var after := Lookup(StoreItem(c, t, p, ip, now).0.items, t);
      after.Some? && (after.value.payload == p <==> !(p.immutable && e.Some? && e.value.payload != p))
  {
    StoreExact(c, t, p, ip, now);
    hide StoreItem, Expire, Lookup;
  }

  // ---- whole runs ----

  datatype Event =
    | Puts(t: Target, p: Payload, verified: bool, ip: nat, now: int)
    | Gets(t: Target, now: int)
    | Dels(t: Target)

  /** The cache and, per target, the content last accepted. */
  datatype World = World(c: Cache, last: map<Target, Payload>)

  function Step(w: World, ev: Event): World {
    match ev
    case Puts(t, p, verified, ip, now) =>
      var (r, ok) := Put(w.c, t, p, verified, ip, now);
      World(r, if ok then w.last[t := p] else w.last)
    case Gets(t, now) => w.(c := Get(w.c, t, now).0)
    case Dels(t) => w.(c := Del(w.c, t).0)
  }

  function Run(w: World, evs: seq<Event>): World
    decreases |evs|
  {
    if evs == [] then w else Run(Step(w, evs[0]), evs[1..])
  }

  /** Verified targets do not collide: `content` says which immutable item, if any, a target is the hash of, and
      mutable items are stored at other targets. */
  ghost predicate NoCollision(content: Target -> Option<Payload>, ev: Event) {
    ev.Puts? && ev.verified ==> content(ev.t) == if ev.p.immutable then Some(ev.p) else None
  }

  ghost predicate HeldRight(content: Target -> Option<Payload>, last: map<Target, Payload>, i: Item) {
    && i.target in last && last[i.target] == i.payload
    && content(i.target) == if i.payload.immutable then Some(i.payload) else None
  }

  ghost predicate Agrees(content: Target -> Option<Payload>, w: World) {
    && CacheOk(w.c)
    && forall t :: Lookup(w.c.items, t).Some? ==> HeldRight(content, w.last, Lookup(w.c.items, t).value)
  }

  lemma ShrinkAgrees(content: Target -> Option<Payload>, w: World, r: Cache)
    requires Agrees(content, w) && Shrinks(w.c, r)
    ensures Agrees(content, w.(c := r))
  {
    hide HeldRight, Lookup;
  }

  lemma PutAgrees(content: Target -> Option<Payload>, w: World, ev: Event)
    requires Agrees(content, w) && ev.Puts? && NoCollision(content, ev)
    ensures Agrees(content, Step(w, ev))
  {
    var (r, ok) := Put(w.c, ev.t, ev.p, ev.verified, ev.ip, ev.now);
    if r != w.c || ok {
      StoreExact(w.c, ev.t, ev.p, ev.ip, ev.now);
      FullExpiry(w.c, ev.now);
      hide StoreItem, Lookup, Expire, CacheOk;
      var w' := Step(w, ev);
      forall u | Lookup(r.items, u).Some? ensures HeldRight(content, w'.last, Lookup(r.items, u).value) {
        if u != ev.t {
          assert HeldRight(content, w.last, Lookup(w.c.items, u).value);
        } else {
          var e := Lookup(Expire(w.c, ev.now).items, u);
          assert e.Some? ==> HeldRight(content, w.last, Lookup(w.c.items, u).value);
        }
      }
    }
  }

  lemma StepAgrees(content: Target -> Option<Payload>, w: World, ev: Event)
    requires Agrees(content, w) && NoCollision(content, ev)
    ensures Agrees(content, Step(w, ev))
  {
    match ev
    case Puts(_, _, _, _, _) => PutAgrees(content, w, ev);
    case Gets(t, now) =>
      FullExpiry(w.c, now);
      ShrinkAgrees(content, w, Expire(w.c, now));
    case Dels(t) =>
      var i := Find(w.c.items, t, 0);
      if i < |w.c.items| {
        RemoveShrinks(w.c, i);
        ShrinkAgrees(content, w, RemoveAt(w.c, i));
      }
  }

  lemma {:induction false} RunAgrees(content: Target -> Option<Payload>, w: World, evs: seq<Event>)
    requires Agrees(content, w) && forall k :: 0 <= k < |evs| ==> NoCollision(content, evs[k])
    ensures Agrees(content, Run(w, evs))
    decreases |evs|
  {
    if evs != [] {
      hide Agrees, Step, NoCollision;
      StepAgrees(content, w, evs[0]);
      RunAgrees(content, Step(w, evs[0]), evs[1..]);
    }
  }

  /** After any run: the counter is the sum of resident lengths, targets are distinct, at most 4096 items; and
      a lookup, at any time, finds nothing or the content last accepted for that target, not yet expired. */
  lemma CacheAgreement(content: Target -> Option<Payload>, budget: nat, evs: seq<Event>, t: Target, now: int)
    requires forall k :: 0 <= k < |evs| ==> NoCollision(content, evs[k])
    ensures var w := Run(World(Cache([], 0, budget), map[]), evs);
      && CacheOk(w.c)
      && var hit := Get(w.c, t, now).1;
         hit.Some? ==>
           && t in w.last && hit.value == w.last[t]
           && Lookup(w.c.items, t).Some? && !Expired(Lookup(w.c.items, t).value, now)
  {
    var w0 := World(Cache([], 0, budget), map[]);
    assert Agrees(content, w0);
    RunAgrees(content, w0, evs);
    var w := Run(w0, evs);
    hide Run, Expire, Lookup, CacheOk;
    FullExpiry(w.c, now);
    var e := Lookup(Expire(w.c, now).items, t);
    if e.Some? { assert HeldRight(content, w.last, Lookup(w.c.items, t).value); }
  }

  // ---- sequence numbers ----

  ghost predicate Resident(c: Cache, t: Target) { Lookup(c.items, t).Some? }

  ghost function SeqOf(c: Cache, t: Target): nat
    requires Resident(c, t)
  {
    Lookup(c.items, t).value.payload.seqno
  }

  /** The item at `t` is still good when the event's clock reads it. */
  ghost predicate StillGood(c: Cache, t: Target, ev: Event) {
    Resident(c, t) && (!ev.Dels? ==> !Expired(Lookup(c.items, t).value, ev.now))
  }

  /** While it is resident and not expired, an item's sequence number only rises. */
  lemma SeqRises(w: World, ev: Event, t: Target)
    requires CacheOk(w.c) && StillGood(w.c, t, ev)
    ensures CacheOk(Step(w, ev).c)
    ensures Resident(Step(w, ev).c, t) ==> SeqOf(Step(w, ev).c, t) >= SeqOf(w.c, t)
    ensures ev.Puts? && ev.t == t && !ev.p.immutable && Put(w.c, t, ev.p, ev.verified, ev.ip, ev.now).1 ==>
      Resident(Step(w, ev).c, t) && SeqOf(Step(w, ev).c, t) == ev.p.seqno > SeqOf(w.c, t)
  {
    match ev
    case Puts(u, p, verified, ip, now) =>
      FullExpiry(w.c, now);
      StoreExact(w.c, u, p, ip, now);
      hide StoreItem, Expire, Lookup, CacheOk;
    case Gets(_, now) => FullExpiry(w.c, now);
    case Dels(u) =>
      var i := Find(w.c.items, u, 0);
      if i < |w.c.items| { RemoveShrinks(w.c, i); }
  }

  /** The item at `t` stays good through a whole run. */
  ghost predicate StaysGood(w: World, evs: seq<Event>, t: Target)
    decreases |evs|
  {
    && Resident(w.c, t)
    && (evs != [] ==> StillGood(w.c, t, evs[0]) && StaysGood(Step(w, evs[0]), evs[1..], t))
  }

  lemma {:induction false} SeqRisesOverRun(w: World, evs: seq<Event>, t: Target)
    requires CacheOk(w.c) && StaysGood(w, evs, t)
    ensures Resident(Run(w, evs).c, t) && SeqOf(Run(w, evs).c, t) >= SeqOf(w.c, t)
    decreases |evs|
  {
    if evs != [] {
      hide CacheOk, Step, StillGood;
      SeqRises(w, evs[0], t);
      SeqRisesOverRun(Step(w, evs[0]), evs[1..], t);
    }
  }
}
