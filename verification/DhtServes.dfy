/** What the cache serves: when a lookup hits, what a delete takes out, and what an item can be lost by. */
module DhtServes {
  import opened Bytes
  import opened DhtCache
  import opened DhtLaws

  /** An item is in the table, whatever its slot. */
  ghost predicate Holds(c: Cache, t: Target, i: Item) { i in c.items && i.target == t }

  lemma HoldsLookup(c: Cache, t: Target)
    requires CacheOk(c)
    ensures forall i :: Holds(c, t, i) <==> Lookup(c.items, t) == Some(i)
  {
    forall i | Holds(c, t, i) ensures Lookup(c.items, t) == Some(i) {
      var k :| 0 <= k < |c.items| && c.items[k] == i;
      LookupAt(c.items, k);
    }
  }

  // ---- lookup and removal ----

  /** A lookup hits exactly when an item for the target was stored no more than two hours ago, and hands that item
      back; it takes out exactly the items that are too old. */
  lemma GetExact(c: Cache, t: Target, now: int)
    requires CacheOk(c)
    ensures var (r, hit) := Get(c, t, now);
      && CacheOk(r)
      && (forall p :: hit == Some(p) <==> exists i :: Holds(c, t, i) && now - i.stored <= TTL && i.payload == p)
      && forall u, i :: Holds(r, u, i) <==> Holds(c, u, i) && now - i.stored <= TTL
  {
    FullExpiry(c, now);
    var r := Expire(c, now);
    hide Expire, CacheOk, Lookup;
    forall u, i ensures Holds(r, u, i) <==> Holds(c, u, i) && now - i.stored <= TTL {
      HoldsLookup(c, u);
      HoldsLookup(r, u);
    }
    HoldsLookup(r, t);
    var hit := Get(c, t, now).1;
    forall p ensures hit == Some(p) <==> exists i :: Holds(c, t, i) && now - i.stored <= TTL && i.payload == p {
      if hit == Some(p) { assert Holds(r, t, Lookup(r.items, t).value); }
    }
  }

  /** A delete answers whether the target was held, and takes out exactly its item. */
  lemma DelExact(c: Cache, t: Target)
    requires CacheOk(c)
    ensures var (r, found) := Del(c, t);
      && CacheOk(r)
      && (found <==> exists i :: Holds(c, t, i))
      && forall u, i :: Holds(r, u, i) <==> u != t && Holds(c, u, i)
  {
    var (r, found) := Del(c, t);
    var k := Find(c.items, t, 0);
    if found {
      assert Holds(c, t, c.items[k]);
      RemoveShrinks(c, k);
    }
    hide Lookup, CacheOk, Find;
    HoldsLookup(c, t);
    forall u, i ensures Holds(r, u, i) <==> u != t && Holds(c, u, i) {
      HoldsLookup(c, u);
      HoldsLookup(r, u);
    }
  }

  // ---- eviction ----

  /** There is room for `len` more bytes in one more item. */
  predicate Fits(c: Cache, len: nat) { c.bytes + len <= c.budget && |c.items| < MAX_ITEMS }

  /** Item `x` of `c` is gone from `r`, and with it there would be no room. */
  ghost predicate HadToGo(c: Cache, r: Cache, len: nat, x: Item) {
    && Lookup(c.items, x.target) == Some(x) && Lookup(r.items, x.target) == None
    && (r.bytes + Size(x) + len > r.budget || |r.items| + 1 >= MAX_ITEMS)
  }

  /** With room nothing is evicted; otherwise no more than needed: some evicted item had to go. */
  lemma {:induction false} RoomNeeded(c: Cache, len: nat)
    requires CacheOk(c)
    ensures var r := MakeRoom(c, len);
      (Fits(c, len) ==> r == c) && (r != c ==> exists x :: HadToGo(c, r, len, x))
    decreases |c.items|
  {
    hide Find, Lookup, CacheOk, OldestFrom, SwapOut;
    if !Fits(c, len) && c.items != [] {
      var k := OldestFrom(c.items, 1, 0);
      var x, d := c.items[k], EvictOldest(c);
      RemoveShrinks(c, k);
      assert Lookup(c.items, x.target) == Some(x) by { HeldAt(c, k); }
      RoomNeeded(d, len);
      var r := MakeRoom(d, len);
      if r == d {
        assert HadToGo(c, r, len, x);
      } else {
        var y :| HadToGo(d, r, len, y);
        assert HadToGo(c, r, len, y);
      }
    }
  }

  lemma HeldAt(c: Cache, k: nat)
    requires CacheOk(c) && k < |c.items|
    ensures Lookup(c.items, c.items[k].target) == Some(c.items[k])
  {
    LookupAt(c.items, k);
  }

  /** The slots filled from an address. */
  ghost function SlotsOf(items: seq<Item>, ip: nat): set<nat> {
    set k: nat | k < |items| && items[k].srcIp == ip
  }

  lemma {:induction false} CountIpIs(items: seq<Item>, ip: nat)
    ensures CountIp(items, ip) == |SlotsOf(items, ip)|
  {
    if items != [] {
      var n := |items| - 1;
      CountIpIs(items[..n], ip);
      var rest := SlotsOf(items[..n], ip);
      assert SlotsOf(items, ip) == if items[n].srcIp == ip then rest + {n} else rest;
    }
  }

  // ---- what an item is lost by ----

  predicate PutOk(c: Cache, ev: Event)
    requires ev.Puts?
  {
    c.budget != 0 && 0 < |ev.p.v| <= VMAX && ev.verified
  }

  /** The item at `t` is too old when the event's clock reads it, or deleted, or another item lacks room. */
  ghost predicate Threat(c: Cache, ev: Event, t: Target) {
    match ev
    case Dels(u) => u == t
    case Gets(_, now) => Resident(c, t) && Expired(Lookup(c.items, t).value, now)
    case Puts(u, p, _, _, now) =>
      && PutOk(c, ev)
      && (|| (Resident(c, t) && Expired(Lookup(c.items, t).value, now))
          || (u != t && !Fits(Expire(c, now), |p.v|)))
  }

  /** A put is taken up exactly when the cache serves, the value is 1 to 1000 bytes and verified; it is then accepted
      exactly when an item no older than two hours is there and the new one is immutable or has a greater sequence
      number, or none is there, fewer than 32 are held from the address, and the value fits the budget. */
  lemma PutExact(c: Cache, ev: Event)
    requires CacheOk(c) && ev.Puts?
    ensures var (r, ok) := Put(c, ev.t, ev.p, ev.verified, ev.ip, ev.now);
      if !PutOk(c, ev) then r == c && !ok
      else
        && (forall i :: Holds(c, ev.t, i) && ev.now - i.stored <= TTL ==>
              (ok <==> ev.p.immutable || ev.p.seqno > i.payload.seqno))
        && ((forall i :: Holds(c, ev.t, i) ==> ev.now - i.stored > TTL) ==>
              (ok <==> |SlotsOf(Get(c, ev.t, ev.now).0.items, ev.ip)| < PER_IP && |ev.p.v| <= c.budget))
  {
    if PutOk(c, ev) {
      StoreExact(c, ev.t, ev.p, ev.ip, ev.now);
      FullExpiry(c, ev.now);
      CountIpIs(Expire(c, ev.now).items, ev.ip);
      HoldsLookup(c, ev.t);
      hide StoreItem, Expire, CacheOk, SlotsOf;
    }
  }

  /** Only a threat takes an item out. */
  lemma Survives(w: World, ev: Event, t: Target)
    requires CacheOk(w.c) && Resident(w.c, t) && !Threat(w.c, ev, t)
    ensures CacheOk(Step(w, ev).c) && Resident(Step(w, ev).c, t)
  {
    match ev
    case Puts(u, p, verified, ip, now) =>
      if PutOk(w.c, ev) {
        StoreExact(w.c, u, p, ip, now);
        FullExpiry(w.c, now);
        if u != t { PutLeaves(w.c, u, p, ip, now, t); }
        hide StoreItem, Expire, Lookup, CacheOk;
      }
    case Gets(_, now) => FullExpiry(w.c, now);
    case Dels(u) =>
      var i := Find(w.c.items, u, 0);
      if i < |w.c.items| { RemoveShrinks(w.c, i); }
  }

  lemma PutLeaves(c: Cache, u: Target, p: Payload, ip: nat, now: int, t: Target)
    requires CacheOk(c) && u != t && Fits(Expire(c, now), |p.v|)
    ensures Lookup(StoreItem(c, u, p, ip, now).0.items, t) == Lookup(Expire(c, now).items, t)
  {
    FullExpiry(c, now);
    var d := Expire(c, now);
    RoomNeeded(d, |p.v|);
    hide Expire, MakeRoom;
    var i, x := Find(d.items, u, 0), Item(u, p, ip, now);
    if i < |d.items| {
      UpdateAt(d.items, i, d.items[i].(stored := now));
      UpdateAt(d.items, i, x);
    } else {
      AppendNew(d.items, x);
    }
  }

  ghost predicate Unthreatened(w: World, evs: seq<Event>, t: Target)
    decreases |evs|
  {
    evs == [] || (!Threat(w.c, evs[0], t) && Unthreatened(Step(w, evs[0]), evs[1..], t))
  }

  lemma {:induction false} RunSurvives(w: World, evs: seq<Event>, t: Target)
    requires CacheOk(w.c) && Resident(w.c, t) && Unthreatened(w, evs, t)
    ensures CacheOk(Run(w, evs).c) && Resident(Run(w, evs).c, t)
    decreases |evs|
  {
    if evs != [] {
      hide CacheOk, Step, Threat, Resident;
      Survives(w, evs[0], t);
      RunSurvives(Step(w, evs[0]), evs[1..], t);
    }
  }

  lemma {:induction false} LastSame(w: World, evs: seq<Event>, t: Target)
    requires t in w.last && forall k :: 0 <= k < |evs| ==> !(evs[k].Puts? && evs[k].t == t)
    ensures t in Run(w, evs).last && Run(w, evs).last[t] == w.last[t]
    decreases |evs|
  {
    if evs != [] {
      hide Put, Get, Del;
      LastSame(Step(w, evs[0]), evs[1..], t);
    }
  }

  ghost predicate NoneCollide(content: Target -> Option<Payload>, evs: seq<Event>) {
    forall k :: 0 <= k < |evs| ==> NoCollision(content, evs[k])
  }

  lemma FoundFrom(content: Target -> Option<Payload>, w: World, put: Event, more: seq<Event>, now: int)
    requires Agrees(content, w) && NoCollision(content, put) && NoneCollide(content, more)
    requires put.Puts? && Put(w.c, put.t, put.p, put.verified, put.ip, put.now).1
    requires Unthreatened(Step(w, put), more, put.t)
    ensures Found(Run(Step(w, put), more), put, more, now)
  {
    var w1, t := Step(w, put), put.t;
    StoreExact(w.c, t, put.p, put.ip, put.now);
    StepAgrees(content, w, put);
    hide StoreItem, Expire, Lookup, NoCollision, Stored;
    assert Resident(w1.c, t) by { AcceptedIsHeld(w.c, t, put.p, put.ip, put.now); }
    RunSurvives(w1, more, t);
    RunAgrees(content, w1, more);
    var z := Run(w1, more);
    if forall k :: 0 <= k < |more| ==> !(more[k].Puts? && more[k].t == t) { LastSame(w1, more, t); }
    hide Run, Step, Get, Agrees, HeldRight, CacheOk, Put;
    Served(content, z, t, now);
  }

  /** What is served of an accepted item after further events. */
  ghost predicate Found(z: World, put: Event, more: seq<Event>, now: int)
    requires put.Puts?
  {
    && Resident(z.c, put.t) && put.t in z.last
    && var i := Lookup(z.c.items, put.t).value;
       && Get(z.c, put.t, now).1 == (if now - i.stored <= TTL then Some(z.last[put.t]) else None)
       && ((forall k :: 0 <= k < |more| ==> !(more[k].Puts? && more[k].t == put.t)) ==> z.last[put.t] == put.p)
  }

  /** An item accepted, and since then neither deleted nor read too old nor evicted for want of room, is resident;
      until two hours after it was stored a lookup returns what was last accepted for its target, which is the item
      itself when no other put named the target. */
  lemma AcceptedIsFound(content: Target -> Option<Payload>, budget: nat, evs: seq<Event>, put: Event, more: seq<Event>,
                        now: int)
    requires NoneCollide(content, evs) && NoCollision(content, put) && NoneCollide(content, more) && put.Puts?
    requires var w := Run(World(Cache([], 0, budget), map[]), evs);
      && Put(w.c, put.t, put.p, put.verified, put.ip, put.now).1
      && Unthreatened(Step(w, put), more, put.t)
    ensures Found(Run(Step(Run(World(Cache([], 0, budget), map[]), evs), put), more), put, more, now)
  {
    var w0 := World(Cache([], 0, budget), map[]);
    assert Agrees(content, w0);
    RunAgrees(content, w0, evs);
    hide Run, Step, Put, Found, Agrees, NoCollision;
    FoundFrom(content, Run(w0, evs), put, more, now);
  }

  lemma Served(content: Target -> Option<Payload>, w: World, t: Target, now: int)
    requires Agrees(content, w) && Resident(w.c, t)
    ensures t in w.last
    ensures Get(w.c, t, now).1
         == if now - Lookup(w.c.items, t).value.stored <= TTL then Some(w.last[t]) else None
  {
    assert HeldRight(content, w.last, Lookup(w.c.items, t).value);
    FullExpiry(w.c, now);
    hide Expire;
  }
}
