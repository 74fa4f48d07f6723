/** The bounded cache of items held for the network, as pure steps: expiry, eviction, storing, lookup, removal. */
module DhtCache {
  import opened Bytes

  const MAX_ITEMS: nat := 4096
  const PER_IP: nat := 32
  const VMAX: nat := 1000
  const TTL: int := 7200

  type Target = seq<byte>

  /** What a lookup hands back. */
  datatype Payload = Payload(k: seq<byte>, seqno: nat, v: seq<byte>, sig: seq<byte>, immutable: bool)
  datatype Item = Item(target: Target, payload: Payload, srcIp: nat, stored: int)

  /** The items in slot order, the byte counter, the budget. */
  datatype Cache = Cache(items: seq<Item>, bytes: int, budget: nat)

  function Size(i: Item): nat { |i.payload.v| }

  function Total(items: seq<Item>): nat {
    if items == [] then 0 else Total(items[..|items| - 1]) + Size(items[|items| - 1])
  }

  ghost predicate DistinctTargets(items: seq<Item>) {
    forall i, j :: 0 <= i < j < |items| ==> items[i].target != items[j].target
  }

  /** The counter is the sum of the resident lengths, targets are distinct, the table is not overfull. */
  ghost predicate CacheOk(c: Cache) {
    && c.bytes == Total(c.items)
    && DistinctTargets(c.items)
    && |c.items| <= MAX_ITEMS
  }

  function Find(items: seq<Item>, t: Target, i: nat): (r: nat)
    requires i <= |items|
    ensures i <= r <= |items| && (r < |items| ==> items[r].target == t)
    ensures forall j :: i <= j < r ==> items[j].target != t
    decreases |items| - i
  {
    if i == |items| || items[i].target == t then i else Find(items, t, i + 1)
  }

  function Lookup(items: seq<Item>, t: Target): (r: Option<Item>)
    ensures r.Some? ==> r.value.target == t && r.value in items
  {
    var i := Find(items, t, 0);
    if i < |items| then Some(items[i]) else None
  }

  // ---- steps ----

  /** Take an item out by moving the last one into its place. */
  function SwapOut(items: seq<Item>, i: nat): (r: seq<Item>)
    requires i < |items|
    ensures |r| == |items| - 1
  {
    items[i := items[|items| - 1]][..|items| - 1]
  }

  function RemoveAt(c: Cache, i: nat): Cache
    requires i < |c.items|
  {
    c.(items := SwapOut(c.items, i), bytes := c.bytes - Size(c.items[i]))
  }

  predicate Expired(i: Item, now: int) { now - i.stored > TTL }

  function ExpireFrom(c: Cache, i: nat, now: int): Cache
    requires i <= |c.items|
    decreases |c.items| - i
  {
    if i == |c.items| then c
    else if Expired(c.items[i], now) then ExpireFrom(RemoveAt(c, i), i, now)
    else ExpireFrom(c, i + 1, now)
  }

  function Expire(c: Cache, now: int): Cache { ExpireFrom(c, 0, now) }

  /** Index of the item stored longest ago, the first of them. */
  function OldestFrom(items: seq<Item>, i: nat, best: nat): (r: nat)
    requires i <= |items| && best < |items|
    ensures r < |items|
    decreases |items| - i
  {
    if i == |items| then best
    else OldestFrom(items, i + 1, if items[i].stored < items[best].stored then i else best)
  }

  function EvictOldest(c: Cache): Cache
    requires c.items != []
  {
    RemoveAt(c, OldestFrom(c.items, 1, 0))
  }

  function MakeRoom(c: Cache, len: nat): (r: Cache)
    ensures |r.items| <= |c.items| && r.budget == c.budget
    ensures r.items == [] || (r.bytes + len <= r.budget && |r.items| < MAX_ITEMS)
    decreases |c.items|
  {
    if (c.bytes + len > c.budget || |c.items| >= MAX_ITEMS) && c.items != [] then MakeRoom(EvictOldest(c), len) else c
  }

  function CountIp(items: seq<Item>, ip: nat): (n: nat)
    ensures n <= |items|
  {
    if items == [] then 0
    else CountIp(items[..|items| - 1], ip) + (if items[|items| - 1].srcIp == ip then 1 else 0)
  }

  /** Replace the item at `i`. */
  function Replace(c: Cache, i: nat, item: Item): Cache
    requires i < |c.items|
  {
    c.(items := c.items[i := item], bytes := c.bytes - Size(c.items[i]) + Size(item))
  }

  /** Store or replace an item whose signature and target have been checked; whether it was accepted. */
  function StoreItem(c0: Cache, t: Target, p: Payload, ip: nat, now: int): (Cache, bool) {
    var c := Expire(c0, now);
    var i := Find(c.items, t, 0);
    var item := Item(t, p, ip, now);
    if i < |c.items| then
      if p.immutable then (c.(items := c.items[i := c.items[i].(stored := now)]), true)
      else if p.seqno <= c.items[i].payload.seqno then (c, false)
      else (Replace(c, i, item), true)
    else if CountIp(c.items, ip) >= PER_IP then (c, false)
    else
      var r := MakeRoom(c, |p.v|);
      if r.bytes + |p.v| > r.budget then (r, false)
      else (r.(items := r.items + [item], bytes := r.bytes + |p.v|), true)
  }

  /** A put from the network: refused when not serving, out of range, or not verified. */
  function Put(c: Cache, t: Target, p: Payload, verified: bool, ip: nat, now: int): (Cache, bool) {
    if c.budget == 0 || |p.v| == 0 || |p.v| > VMAX || !verified then (c, false) else StoreItem(c, t, p, ip, now)
  }

  function Get(c0: Cache, t: Target, now: int): (Cache, Option<Payload>) {
    var c := Expire(c0, now);
    match Lookup(c.items, t)
    case None => (c, None)
    case Some(i) => (c, Some(i.payload))
  }

  function Del(c: Cache, t: Target): (Cache, bool) {
    var i := Find(c.items, t, 0);
    if i < |c.items| then (RemoveAt(c, i), true) else (c, false)
  }

  // ---- removal by swapping ----

  lemma FindUnique(items: seq<Item>, i: nat)
    requires DistinctTargets(items) && i < |items|
    ensures Find(items, items[i].target, 0) == i
  {
    var r := Find(items, items[i].target, 0);
    assert r <= i;
  }

  lemma {:induction false} TotalUpdate(items: seq<Item>, i: nat, x: Item)
    requires i < |items|
    ensures Total(items[i := x]) == Total(items) - Size(items[i]) + Size(x)
  {
    var s := items[i := x];
    if i == |items| - 1 {
      assert s[..i] == items[..i];
    } else {
      assert s[..|s| - 1] == items[..|items| - 1][i := x];
      TotalUpdate(items[..|items| - 1], i, x);
    }
  }

  lemma TotalSwap(items: seq<Item>, i: nat)
    requires i < |items|
    ensures Total(SwapOut(items, i)) == Total(items) - Size(items[i])
  {
    hide Total;
    var last := items[|items| - 1];
    var s := items[i := last];
    TotalUpdate(items, i, last);
    TotalSnoc(s);
    assert |s| == |items| && s[|s| - 1] == last;
    assert SwapOut(items, i) == s[..|s| - 1];
  }

  lemma TotalSnoc(items: seq<Item>)
    requires items != []
    ensures Total(items) == Total(items[..|items| - 1]) + Size(items[|items| - 1])
  {
  }

  /** Swapping one item out leaves the targets distinct, this one gone and every other as it was. */
  lemma SwapOthers(items: seq<Item>, i: nat)
    requires DistinctTargets(items) && i < |items|
    ensures DistinctTargets(SwapOut(items, i))
    ensures Lookup(SwapOut(items, i), items[i].target) == None
    ensures forall t :: t != items[i].target ==> Lookup(SwapOut(items, i), t) == Lookup(items, t)
  {
    var s, n := SwapOut(items, i), |items| - 1;
    assert forall k :: 0 <= k < n ==> s[k] == if k == i then items[n] else items[k];
    forall t | t != items[i].target ensures Lookup(s, t) == Lookup(items, t) {
      var j := Find(items, t, 0);
      if j < |items| {
        var k := if j == n then i else j;
        assert s[k] == items[j];
        FindUnique(s, k);
      }
    }
  }

  /** What an operation that only takes items out does. */
  ghost predicate Shrinks(c: Cache, r: Cache) {
    && CacheOk(r) && r.budget == c.budget && r.bytes <= c.bytes
    && forall t {:trigger Lookup(r.items, t)} :: Lookup(r.items, t).Some? ==> Lookup(r.items, t) == Lookup(c.items, t)
  }

  lemma RemoveShrinks(c: Cache, i: nat)
    requires CacheOk(c) && i < |c.items|
    ensures Shrinks(c, RemoveAt(c, i))
    ensures forall t :: t != c.items[i].target ==> Lookup(RemoveAt(c, i).items, t) == Lookup(c.items, t)
    ensures Lookup(RemoveAt(c, i).items, c.items[i].target) == None
  {
    hide SwapOut;
    TotalSwap(c.items, i);
    SwapOthers(c.items, i);
  }

  lemma ShrinksTrans(a: Cache, b: Cache, c: Cache)
    requires Shrinks(a, b) && Shrinks(b, c)
    ensures Shrinks(a, c)
  {
    forall t | Lookup(c.items, t).Some? ensures Lookup(c.items, t) == Lookup(a.items, t) {
      assert Lookup(c.items, t) == Lookup(b.items, t);
    }
  }

  // ---- expiry and eviction ----

  /** Expiry removes exactly the items that are too old. */
  lemma {:induction false} ExpireExact(c: Cache, i: nat, now: int)
    requires CacheOk(c) && i <= |c.items|
    requires forall j :: 0 <= j < i ==> !Expired(c.items[j], now)
    ensures var r := ExpireFrom(c, i, now);
      && Shrinks(c, r)
      && (forall j :: 0 <= j < |r.items| ==> !Expired(r.items[j], now))
      && (forall t :: Lookup(c.items, t).Some? && !Expired(Lookup(c.items, t).value, now) ==>
            Lookup(r.items, t) == Lookup(c.items, t))
    decreases |c.items| - i
  {
    hide SwapOut, Find;
    if i < |c.items| {
      if Expired(c.items[i], now) {
        var d := RemoveAt(c, i);
        RemoveShrinks(c, i);
        forall j | 0 <= j < i ensures !Expired(d.items[j], now) { SwapKeeps(c.items, i, j); }
        ExpireExact(d, i, now);
        ShrinksTrans(c, d, ExpireFrom(d, i, now));
        forall t | Lookup(c.items, t).Some? && !Expired(Lookup(c.items, t).value, now)
          ensures Lookup(ExpireFrom(c, i, now).items, t) == Lookup(c.items, t) {
          if t == c.items[i].target { LookupAt(c.items, i); }
        }
      } else {
        ExpireExact(c, i + 1, now);
      }
    }
  }

  lemma SwapKeeps(items: seq<Item>, i: nat, j: nat)
    requires j < i < |items|
    ensures SwapOut(items, i)[j] == items[j]
  {
  }

  lemma LookupAt(items: seq<Item>, i: nat)
    requires DistinctTargets(items) && i < |items|
    ensures Lookup(items, items[i].target) == Some(items[i])
  {
    FindUnique(items, i);
  }

  /** The item evicted is one stored longest ago. */
  lemma {:induction false} OldestIs(items: seq<Item>, i: nat, best: nat)
    requires i <= |items| && best < |items| && forall j :: 0 <= j < i ==> items[best].stored <= items[j].stored
    ensures forall j :: 0 <= j < |items| ==> items[OldestFrom(items, i, best)].stored <= items[j].stored
    decreases |items| - i
  {
    if i < |items| { OldestIs(items, i + 1, if items[i].stored < items[best].stored then i else best); }
  }

  /** Making room only takes out items, oldest first: whatever stays was stored no earlier than whatever goes. */
  lemma {:induction false} RoomShrinks(c: Cache, len: nat)
    requires CacheOk(c)
    ensures var r := MakeRoom(c, len);
      && Shrinks(c, r)
      && forall t, u :: Lookup(c.items, t).Some? && Lookup(r.items, t).None? && Lookup(r.items, u).Some? ==>
           Lookup(c.items, t).value.stored <= Lookup(r.items, u).value.stored
    decreases |c.items|
  {
    hide SwapOut, Find;
    if (c.bytes + len > c.budget || |c.items| >= MAX_ITEMS) && c.items != [] {
      var k := OldestFrom(c.items, 1, 0);
      OldestIs(c.items, 1, 0);
      RemoveShrinks(c, k);
      LookupAt(c.items, k);
      var d := EvictOldest(c);
      RoomShrinks(d, len);
      ShrinksTrans(c, d, MakeRoom(d, len));
      var r := MakeRoom(c, len);
      forall t, u | Lookup(c.items, t).Some? && Lookup(r.items, t).None? && Lookup(r.items, u).Some?
        ensures Lookup(c.items, t).value.stored <= Lookup(r.items, u).value.stored {
        if t == c.items[k].target {
          assert Lookup(r.items, u) == Lookup(c.items, u);
        } else {
          assert Lookup(d.items, t) == Lookup(c.items, t);
        }
      }
    }
  }
}
