/** The cache in place: a fixed array of items, a count and a byte counter. */
module DhtTable {
  import opened Bytes
  import opened DhtCache
  import opened DhtLaws

  const NO_ITEM: Item := Item([], Payload([], 0, [], [], false), 0, 0)

  class Store {
    const items: array<Item>
    var count: nat
    var bytes: int
    var budget: nat

    ghost predicate Valid()
      reads this
    {
      items.Length == MAX_ITEMS && count <= MAX_ITEMS
    }

    ghost function State(): Cache
      requires Valid()
      reads this, items
    {
      Cache(items[..count], bytes, budget)
    }

    /** Start empty with a byte budget; a budget of zero serves nothing. */
    constructor (budget: nat)
      ensures Valid() && fresh(items) && State() == Cache([], 0, budget) && CacheOk(State())
    {
      items := new Item[MAX_ITEMS](_ => NO_ITEM);
      count, bytes := 0, 0;
      this.budget := budget;
    }

    method FindTarget(t: Target) returns (i: nat)
      requires Valid()
      ensures i == Find(State().items, t, 0) <= count
    {
      i := 0;
      while i < count && items[i].target != t
        invariant i <= count && Find(State().items, t, 0) == Find(State().items, t, i)
      {
        i := i + 1;
      }
    }

    method TakeOut(i: nat)
      requires Valid() && i < count
      modifies this`count, this`bytes, items
      ensures Valid() && count == old(count) - 1 && State() == RemoveAt(old(State()), i)
    {
      ghost var s := items[..count];
      bytes := bytes - |items[i].payload.v|;
      count := count - 1;
      items[i] := items[count];
      assert items[..count] == s[i := s[|s| - 1]][..count];
    }

    /** Drop everything older than the time to live. */
    method DropExpired(now: int)
      requires Valid()
      modifies this`count, this`bytes, items
      ensures Valid() && State() == Expire(old(State()), now)
    {
      hide RemoveAt;
      var i := 0;
      while i < count
        invariant Valid() && i <= count && budget == old(budget)
        invariant ExpireFrom(State(), i, now) == Expire(old(State()), now)
        decreases count - i
      {
        assert State().items[i] == items[i];
        if now - items[i].stored > TTL {
          TakeOut(i);
        } else {
          i := i + 1;
        }
      }
    }

    method Evict()
      requires Valid() && count > 0
      modifies this`count, this`bytes, items
      ensures Valid() && count == old(count) - 1 && State() == EvictOldest(old(State()))
    {
      hide RemoveAt;
      var oldest := 0;
      ghost var s := State().items;
      for i := 1 to count
        invariant oldest < count && OldestFrom(s, 1, 0) == OldestFrom(s, i, oldest)
      {
        assert s[i] == items[i] && s[oldest] == items[oldest];
        if items[i].stored < items[oldest].stored { oldest := i; }
      }
      TakeOut(oldest);
    }

    method FromAddress(ip: nat) returns (n: nat)
      requires Valid()
      ensures n == CountIp(State().items, ip)
    {
      n := 0;
      for i := 0 to count
        invariant n == CountIp(items[..i], ip)
      {
        assert items[..i + 1][..i] == items[..i];
        if items[i].srcIp == ip { n := n + 1; }
      }
    }

    method EvictFor(len: nat)
      requires Valid()
      modifies this`count, this`bytes, items
      ensures Valid() && State() == MakeRoom(old(State()), len)
    {
      hide EvictOldest;
      while (bytes + len > budget || count >= MAX_ITEMS) && count > 0
        invariant Valid() && budget == old(budget)
        invariant MakeRoom(State(), len) == MakeRoom(old(State()), len)
        decreases count
      {
        Evict();
      }
    }

    method SetAt(i: nat, x: Item)
      requires Valid() && i < count
      modifies items
      ensures State() == old(State()).(items := old(State()).items[i := x])
    {
      ghost var s := items[..count];
      items[i] := x;
      assert items[..count] == s[i := x];
    }

    method Push(x: Item)
      requires Valid() && count < MAX_ITEMS
      modifies this`count, this`bytes, items
      ensures Valid()
      ensures State() == old(State()).(items := old(State()).items + [x], bytes := old(bytes) + |x.payload.v|)
    {
      ghost var s := items[..count];
      items[count] := x;
      count := count + 1;
      bytes := bytes + |x.payload.v|;
      assert items[..count] == s + [x];
    }

    /** Refresh or replace the item at `i`. */
    method StoreOver(i: nat, t: Target, p: Payload, ip: nat, now: int) returns (ok: bool)
      requires Valid() && i < count
      modifies this`bytes, items
      ensures Valid() && var c := old(State()); var e := c.items[i];
        (State(), ok) == if p.immutable then (c.(items := c.items[i := e.(stored := now)]), true)
                         else if p.seqno <= e.payload.seqno then (c, false)
                         else (Replace(c, i, Item(t, p, ip, now)), true)
    {
      var e := items[i];
      assert State().items[i] == e;
      if p.immutable {
        SetAt(i, e.(stored := now));
        return true;
      }
      if p.seqno <= e.payload.seqno { return false; }
      SetAt(i, Item(t, p, ip, now));
      bytes := bytes - |e.payload.v| + |p.v|;
      ok := true;
    }

    /** Add an item for a new target, evicting to make room. */
    method StoreFresh(t: Target, p: Payload, ip: nat, now: int) returns (ok: bool)
      requires Valid()
      modifies this`count, this`bytes, items
      ensures Valid() && var c := old(State()); var r := MakeRoom(c, |p.v|);
        (State(), ok) == if CountIp(c.items, ip) >= PER_IP then (c, false)
                         else if r.bytes + |p.v| > r.budget then (r, false)
                         else (r.(items := r.items + [Item(t, p, ip, now)], bytes := r.bytes + |p.v|), true)
    {
      hide MakeRoom, CountIp;
      var n := FromAddress(ip);
      if n >= PER_IP { return false; }
      EvictFor(|p.v|);
      if bytes + |p.v| > budget { return false; }
      Push(Item(t, p, ip, now));
      ok := true;
    }

    /** Store or replace an item whose signature and target have been checked. */
    method StoreChecked(t: Target, p: Payload, ip: nat, now: int) returns (ok: bool)
      requires Valid() && CacheOk(State())
      modifies this`count, this`bytes, items
      ensures Valid() && CacheOk(State()) && (State(), ok) == StoreItem(old(State()), t, p, ip, now)
    {
      StoreExact(State(), t, p, ip, now);
      hide Expire, MakeRoom, CacheOk, Find, CountIp, Replace;
      DropExpired(now);
      var i := FindTarget(t);
      if i < count {
        ok := StoreOver(i, t, p, ip, now);
      } else {
        ok := StoreFresh(t, p, ip, now);
      }
    }

    method PutItem(t: Target, p: Payload, verified: bool, ip: nat, now: int) returns (ok: bool)
      requires Valid() && CacheOk(State())
      modifies this`count, this`bytes, items
      ensures Valid() && CacheOk(State()) && (State(), ok) == Put(old(State()), t, p, verified, ip, now)
    {
      hide StoreItem, CacheOk;
      if budget == 0 || |p.v| == 0 || |p.v| > VMAX || !verified { return false; }
      ok := StoreChecked(t, p, ip, now);
    }

    method GetItem(t: Target, now: int) returns (r: Option<Payload>)
      requires Valid() && CacheOk(State())
      modifies this`count, this`bytes, items
      ensures Valid() && CacheOk(State()) && (State(), r) == Get(old(State()), t, now)
    {
      FullExpiry(State(), now);
      hide Expire, CacheOk;
      DropExpired(now);
      var i := FindTarget(t);
      if i == count { return None; }
      assert State().items[i] == items[i];
      r := Some(items[i].payload);
    }

    method DelItem(t: Target) returns (found: bool)
      requires Valid() && CacheOk(State())
      modifies this`count, this`bytes, items
      ensures Valid() && CacheOk(State()) && (State(), found) == Del(old(State()), t)
    {
      hide RemoveAt, CacheOk;
      var i := FindTarget(t);
      if i == count { return false; }
      RemoveShrinks(State(), i);
      TakeOut(i);
      found := true;
    }
  }
}
