/** The slot table of the store, and why it behaves as a bounded map. */
module KvSlots {
  import opened Bytes
  import opened KvCommand

  datatype Slot = Slot(used: bool, key: Octets, val: Octets)

  /** No key sits in two slots. */
  ghost predicate Unique(s: seq<Slot>) {
    forall i, j :: 0 <= i < j < |s| && s[i].used && s[j].used ==> s[i].key != s[j].key
  }

  ghost function KeysOf(s: seq<Slot>): set<Octets> {
    set i | 0 <= i < |s| && s[i].used :: s[i].key
  }

  /** The first slot in use with a key, or the length of the table. */
  function FindSlot(s: seq<Slot>, key: Octets): (k: nat)
    ensures k <= |s|
    ensures k < |s| ==> s[k].used && s[k].key == key
    ensures forall j :: 0 <= j < k ==> !(s[j].used && s[j].key == key)
  {
    if s == [] then 0 else if s[0].used && s[0].key == key then 0 else 1 + FindSlot(s[1..], key)
  }

  /** The first slot not in use, or the length of the table. */
  function FreeSlot(s: seq<Slot>): (k: nat)
    ensures k <= |s|
    ensures k < |s| ==> !s[k].used
    ensures forall j :: 0 <= j < k ==> s[j].used
  {
    if s == [] then 0 else if !s[0].used then 0 else 1 + FreeSlot(s[1..])
  }

  /** The map that the table stands for. */
  ghost function Contents(s: seq<Slot>): Map {
    map k | k in KeysOf(s) :: (assert FindSlot(s, k) < |s|; s[FindSlot(s, k)].val)
  }

  ghost predicate Holds(s: seq<Slot>, m: Map) {
    m.Keys == KeysOf(s) && forall i :: 0 <= i < |s| && s[i].used ==> m[s[i].key] == s[i].val
  }

  lemma ContentsAt(s: seq<Slot>, i: nat)
    requires Unique(s) && i < |s| && s[i].used
    ensures s[i].key in KeysOf(s) && FindSlot(s, s[i].key) == i && Contents(s)[s[i].key] == s[i].val
  {
    assert s[i].key in KeysOf(s);
  }

  lemma ContentsHolds(s: seq<Slot>)
    requires Unique(s)
    ensures Holds(s, Contents(s))
  {
    forall i | 0 <= i < |s| && s[i].used ensures Contents(s)[s[i].key] == s[i].val { ContentsAt(s, i); }
  }

  /** A table stands for one map only. */
  lemma HoldsOnly(s: seq<Slot>, m: Map)
    requires Unique(s) && Holds(s, m)
    ensures m == Contents(s)
  {
    forall k | k in m ensures Contents(s)[k] == m[k] {
      var i :| 0 <= i < |s| && s[i].used && s[i].key == k;
      ContentsAt(s, i);
    }
  }

  // ---- the operations on the table ----

  function PutSlots(s: seq<Slot>, k: Octets, v: Octets): (seq<Slot>, int) {
    var i := FindSlot(s, k);
    if i < |s| then (s[i := s[i].(val := v)], 1)
    else
      var j := FreeSlot(s);
      if j < |s| then (s[j := Slot(true, k, v)], 1) else (s, -1)
  }

  function DelSlots(s: seq<Slot>, k: Octets): (seq<Slot>, int) {
    var i := FindSlot(s, k);
    if i < |s| then (s[i := s[i].(used := false)], 1) else (s, 0)
  }

  function ApplySlots(s: seq<Slot>, b: Octets): (seq<Slot>, int) {
    match Decode(b)
    case None => (s, -1)
    case Some(Put(k, v)) => PutSlots(s, k, v)
    case Some(Del(k)) => DelSlots(s, k)
    case Some(Cas(k, e, v)) =>
      var i := FindSlot(s, k);
      if (if i < |s| then s[i].val else []) != e then (s, 0) else PutSlots(s, k, v)
  }

  // ---- refinement ----

  lemma {:induction false} KeyCount(s: seq<Slot>)
    requires Unique(s)
    ensures |KeysOf(s)| <= |s|
    ensures |KeysOf(s)| == |s| <==> FreeSlot(s) == |s|
  {
    if s == [] {
      assert KeysOf(s) == {};
    } else {
      KeyCount(s[1..]);
      var rest := KeysOf(s[1..]);
      assert forall i :: 0 <= i < |s| - 1 ==> s[1..][i] == s[i + 1];
      KeysSplit(s);
    }
  }

  lemma KeysSplit(s: seq<Slot>)
    requires s != [] && Unique(s)
    ensures KeysOf(s) == if s[0].used then KeysOf(s[1..]) + {s[0].key} else KeysOf(s[1..])
    ensures s[0].used ==> s[0].key !in KeysOf(s[1..])
  {
    var rest := KeysOf(s[1..]);
    forall k | k in rest ensures k in KeysOf(s) {
      var i :| 0 <= i < |s| - 1 && s[1..][i].used && s[1..][i].key == k;
      assert s[i + 1].key == k;
    }
    forall k | k in KeysOf(s) && !(s[0].used && k == s[0].key) ensures k in rest {
      var i :| 0 <= i < |s| && s[i].used && s[i].key == k;
      assert s[1..][i - 1].key == k;
    }
  }

  lemma FoundIffKey(s: seq<Slot>, k: Octets)
    ensures FindSlot(s, k) < |s| <==> k in KeysOf(s)
  {
    if k in KeysOf(s) {
      var i :| 0 <= i < |s| && s[i].used && s[i].key == k;
    }
  }

  lemma OverwriteRefines(s: seq<Slot>, k: Octets, v: Octets)
    requires Unique(s) && k in KeysOf(s)
    ensures var r := PutSlots(s, k, v); Unique(r.0) && |r.0| == |s| && r.1 == 1 && Contents(r.0) == Contents(s)[k := v]
  {
    FoundIffKey(s, k);
    ContentsHolds(s);
    var r := PutSlots(s, k, v).0;
    SameKeys(s, r);
    HoldsOnly(r, Contents(s)[k := v]);
  }

  lemma InsertRefines(s: seq<Slot>, k: Octets, v: Octets)
    requires Unique(s) && k !in KeysOf(s) && FreeSlot(s) < |s|
    ensures var r := PutSlots(s, k, v); Unique(r.0) && |r.0| == |s| && r.1 == 1 && Contents(r.0) == Contents(s)[k := v]
  {
    FoundIffKey(s, k);
    ContentsHolds(s);
    var r := PutSlots(s, k, v).0;
    assert forall i :: 0 <= i < |s| && s[i].used ==> s[i].key in KeysOf(s);
    AddedKey(s, FreeSlot(s), k, v);
    HoldsOnly(r, Contents(s)[k := v]);
  }

  lemma PutRefines(s: seq<Slot>, k: Octets, v: Octets)
    requires Unique(s)
    ensures var r, a := PutSlots(s, k, v), PutMap(Contents(s), |s|, k, v);
      Unique(r.0) && |r.0| == |s| && r.1 == a.1 && Contents(r.0) == a.0
  {
    hide Unique;
    FoundIffKey(s, k);
    KeyCount(s);
    assert Contents(s).Keys == KeysOf(s);
    if k in KeysOf(s) {
      OverwriteRefines(s, k, v);
    } else if FreeSlot(s) < |s| {
      InsertRefines(s, k, v);
    }
  }

  lemma SameKeys(s: seq<Slot>, r: seq<Slot>)
    requires |s| == |r| && forall i :: 0 <= i < |s| ==> r[i].used == s[i].used && r[i].key == s[i].key
    ensures KeysOf(r) == KeysOf(s)
  {
  }

  lemma AddedKey(s: seq<Slot>, j: nat, k: Octets, v: Octets)
    requires j < |s| && !s[j].used
    ensures KeysOf(s[j := Slot(true, k, v)]) == KeysOf(s) + {k}
  {
    var r := s[j := Slot(true, k, v)];
    forall x | x in KeysOf(s) + {k} ensures x in KeysOf(r) {
      if x in KeysOf(s) {
        var i :| 0 <= i < |s| && s[i].used && s[i].key == x;
        assert r[i].key == x;
      } else {
        assert r[j].key == k;
      }
    }
  }

  lemma DelRefines(s: seq<Slot>, k: Octets)
    requires Unique(s)
    ensures var r, m := DelSlots(s, k), Contents(s);
      && Unique(r.0) && |r.0| == |s|
      && r.1 == (if k in m then 1 else 0)
      && Contents(r.0) == m - {k}
  {
    FoundIffKey(s, k);
    ContentsHolds(s);
    var r := DelSlots(s, k).0;
    var i := FindSlot(s, k);
    if i < |s| {
      RemovedKey(s, i);
      assert Holds(r, Contents(s) - {k});
      HoldsOnly(r, Contents(s) - {k});
    } else {
      assert Contents(s) - {k} == Contents(s);
    }
  }

  lemma RemovedKey(s: seq<Slot>, i: nat)
    requires Unique(s) && i < |s| && s[i].used
    ensures KeysOf(s[i := s[i].(used := false)]) == KeysOf(s) - {s[i].key}
  {
    var r := s[i := s[i].(used := false)];
    forall x | x in KeysOf(s) - {s[i].key} ensures x in KeysOf(r) {
      var j :| 0 <= j < |s| && s[j].used && s[j].key == x;
      assert r[j].key == x;
    }
  }

  /** norn_kv_apply on the slot table is the command on the map: same result code, same map, whatever
      the layout; malformed and overflowing commands change nothing. */
  lemma ApplyRefines(s: seq<Slot>, b: Octets)
    requires Unique(s)
    ensures var r, a := ApplySlots(s, b), ApplyBytes(Contents(s), |s|, b);
      && Unique(r.0) && |r.0| == |s|
      && r.1 == a.1 && Contents(r.0) == a.0
      && (r.1 <= 0 ==> r.0 == s)
  {
    match Decode(b)
    case None =>
    case Some(Put(k, v)) => PutRefines(s, k, v);
    case Some(Del(k)) => DelRefines(s, k);
    case Some(Cas(k, e, v)) =>
      FoundIffKey(s, k);
      PutRefines(s, k, v);
  }

  function ApplyLog(s: seq<Slot>, log: seq<Octets>): seq<Slot>
    decreases |log|
  {
    if log == [] then s else ApplyLog(ApplySlots(s, log[0]).0, log[1..])
  }

  function LogResults(s: seq<Slot>, log: seq<Octets>): seq<int>
    decreases |log|
  {
    if log == [] then [] else [ApplySlots(s, log[0]).1] + LogResults(ApplySlots(s, log[0]).0, log[1..])
  }

  /** A whole log of commands: the table ends as the replayed map, with the same result codes on the way. */
  lemma {:induction false} LogRefines(s: seq<Slot>, log: seq<Octets>)
    requires Unique(s)
    ensures Unique(ApplyLog(s, log)) && |ApplyLog(s, log)| == |s|
    ensures Contents(ApplyLog(s, log)) == Replay(Contents(s), |s|, log)
    ensures LogResults(s, log) == Results(Contents(s), |s|, log)
    decreases |log|
  {
    if log != [] {
      ApplyRefines(s, log[0]);
      LogRefines(ApplySlots(s, log[0]).0, log[1..]);
    }
  }
}
