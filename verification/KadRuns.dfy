/** The table after any inserts and removes: what it holds, where, and what a search for the closest
    nodes draws from. */
module KadRuns {
  import opened Bytes
  import opened Kad
  import opened KadClosest

  datatype Event =
    | Inserts(id: Id, ip: nat, port: nat, seed: nat, now: nat)
    | Removes(id: Id)

  ghost predicate IdsSized(self: Id, evs: seq<Event>) {
    self != [] && forall k :: 0 <= k < |evs| ==> |evs[k].id| == |self|
  }

  function NodeOf(self: Id, ev: Event): (n: Node)
    requires self != [] && |ev.id| == |self| && ev.Inserts?
    ensures n.id == ev.id
  {
    Node(ev.id, ev.ip, ev.port, ev.seed, ev.now, BucketOf(self, ev.id))
  }

  function Step(self: Id, bs: Buckets, ev: Event): (r: Buckets)
    requires self != [] && |bs| == 8 * |self| && |ev.id| == |self|
    ensures |r| == |bs|
  {
    var b := BucketOf(self, ev.id);
    bs[b := if ev.Inserts? then InsertIn(bs[b], NodeOf(self, ev)) else RemoveIn(bs[b], ev.id)]
  }

  /** The table that the events, one after the other, leave behind. */
  ghost function Run(self: Id, evs: seq<Event>): (r: Buckets)
    requires IdsSized(self, evs)
    ensures |r| == 8 * |self|
  {
    if evs == [] then seq(8 * |self|, _ => [])
    else Step(self, Run(self, evs[..|evs| - 1]), evs[|evs| - 1])
  }

  /** The node last inserted for an id, unless it was removed since: said of the events alone. */
  ghost function Latest(self: Id, evs: seq<Event>, id: Id): (r: Option<Node>)
    requires IdsSized(self, evs)
  {
    if evs == [] then None
    else
      var ev := evs[|evs| - 1];
      if ev.id != id then Latest(self, evs[..|evs| - 1], id)
      else if ev.Inserts? then Some(NodeOf(self, ev))
      else None
  }

  lemma StepTable(self: Id, bs: Buckets, ev: Event)
    requires TableOk(self, bs) && |ev.id| == |self|
    ensures TableOk(self, Step(self, bs, ev))
  {
    if ev.Inserts? { InsertKeeps(self, bs, NodeOf(self, ev)); } else { RemoveKeeps(self, bs, ev.id); }
  }

  lemma StepLookup(self: Id, bs: Buckets, ev: Event, id: Id)
    requires TableOk(self, bs) && |ev.id| == |self| && |id| == |self|
    ensures Lookup(self, Step(self, bs, ev), id) ==
      if id != ev.id then Lookup(self, bs, id) else if ev.Inserts? then Some(NodeOf(self, ev)) else None
  {
    if ev.Inserts? { InsertKeeps(self, bs, NodeOf(self, ev)); } else { RemoveKeeps(self, bs, ev.id); }
    hide TableOk, Lookup, BucketOf, InsertIn, RemoveIn;
  }

  lemma {:induction false} RunTable(self: Id, evs: seq<Event>)
    requires IdsSized(self, evs)
    ensures TableOk(self, Run(self, evs))
  {
    if evs == [] {
      forall b | 0 <= b < 8 * |self| ensures BucketOk(self, Run(self, evs)[b], b) {}
    } else {
      RunTable(self, evs[..|evs| - 1]);
      hide TableOk, Step;
      StepTable(self, Run(self, evs[..|evs| - 1]), evs[|evs| - 1]);
    }
  }

  /** Lookup finds exactly the latest node. */
  lemma {:induction false} RunLookup(self: Id, evs: seq<Event>, id: Id)
    requires IdsSized(self, evs) && |id| == |self|
    ensures Lookup(self, Run(self, evs), id) == Latest(self, evs, id)
  {
    hide BucketOf, TableOk, Step;
    if evs != [] {
      hide Lookup;
      RunTable(self, evs[..|evs| - 1]);
      RunLookup(self, evs[..|evs| - 1], id);
      StepLookup(self, Run(self, evs[..|evs| - 1]), evs[|evs| - 1], id);
    }
  }

  /** After any inserts and removes: ids are unique and each sits in the bucket of its first differing bit, the nodes
      a search draws from are exactly the ones last inserted and not removed, and the search returns the nearest. */
  lemma ClosestAfterRun(self: Id, evs: seq<Event>, t: Id, k: nat)
    requires IdsSized(self, evs) && |t| == |self|
    ensures var bs := Run(self, evs);
      && TableOk(self, bs)
      && (forall n :: n in All(bs) <==> |n.id| == |self| && Latest(self, evs, n.id) == Some(n))
      && Sized(All(bs), |t|) && IsNearest(t, All(bs), k, Closest(bs, t, k))
  {
    hide Run, All, Closest, IsNearest, Sized, TableOk, Lookup, Latest;
    RunTable(self, evs);
    var bs := Run(self, evs);
    forall n ensures n in All(bs) <==> |n.id| == |self| && Latest(self, evs, n.id) == Some(n) {
      AllAreFound(self, bs, n);
      if |n.id| == |self| { RunLookup(self, evs, n.id); }
    }
    ClosestIsNearest(self, bs, t, k);
  }
}
