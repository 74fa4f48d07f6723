/** Snapshots of the store: what they hold, what restoring one gives, and why a log may be compacted. */
module KvSnapshot {
  import opened Bytes
  import opened KvCommand
  import opened KvSlots

  datatype Rec = Rec(key: Octets, val: Octets)

  predicate RecOk(r: Rec) { KeyOk(r.key) && ValOk(r.val) }

  function RecBytes(r: Rec): Octets { Field(r.key) + Field(r.val) }

  /** The slots in use hold keys and values of legal length. */
  ghost predicate SlotsOk(s: seq<Slot>) {
    forall i :: 0 <= i < |s| && s[i].used ==> KeyOk(s[i].key) && ValOk(s[i].val)
  }

  /** The used slots in table order, and their serialization. */
  function Recs(s: seq<Slot>): seq<Rec> {
    if s == [] then [] else (if s[0].used then [Rec(s[0].key, s[0].val)] else []) + Recs(s[1..])
  }

  function SnapOf(s: seq<Slot>): Octets {
    if s == [] then [] else (if s[0].used then RecBytes(Rec(s[0].key, s[0].val)) else []) + SnapOf(s[1..])
  }

  /** One record at the front of `b`: the checks of norn_kv_restore. */
  function FirstRec(b: Octets): Option<Rec> {
    if |b| < 2 then None
    else
      var klen := GetBe(b, 0, 2);
      if klen == 0 || klen > MAX_KEY || 2 + klen + 2 > |b| then None
      else
        var vlen := GetBe(b, 2 + klen, 2);
        if vlen > MAX_VAL || 4 + klen + vlen > |b| then None
        else Some(Rec(b[2..2 + klen], b[4 + klen..4 + klen + vlen]))
  }

  /** The records restored from `b` into a table of `room` free slots, and whether it went to the end. */
  function Load(b: Octets, room: nat): (seq<Rec>, bool)
    decreases room
  {
    if b == [] then ([], true)
    else
      match FirstRec(b)
      case None => ([], false)
      case Some(r) =>
        if room == 0 then ([], false)
        else
          var rest := Load(b[4 + |r.key| + |r.val|..], room - 1);
          ([r] + rest.0, rest.1)
  }

  /** A table after a restore: the records in the first slots, nothing else in use. */
  ghost predicate LoadedInto(t: seq<Slot>, rs: seq<Rec>) {
    && |rs| <= |t|
    && (forall i :: 0 <= i < |rs| ==> t[i] == Slot(true, rs[i].key, rs[i].val))
    && (forall i :: |rs| <= i < |t| ==> !t[i].used)
  }

  ghost predicate DistinctKeys(rs: seq<Rec>) {
    forall i, j :: 0 <= i < j < |rs| ==> rs[i].key != rs[j].key
  }

  // ---- serialization ----

  lemma FirstRecBytes(r: Rec, rest: Octets)
    requires RecOk(r)
    ensures FirstRec(RecBytes(r) + rest) == Some(r)
    ensures (RecBytes(r) + rest)[4 + |r.key| + |r.val|..] == rest
  {
    var b := RecBytes(r) + rest;
    var o := 2 + |r.key|;
    assert b[0..o] == Field(r.key);
    assert b[o..o + 2 + |r.val|] == Field(r.val);
    FieldAt(b, 0, r.key);
    FieldAt(b, o, r.val);
  }

  lemma {:induction false} RecsFit(s: seq<Slot>)
    ensures |Recs(s)| <= |s|
  {
    if s != [] { RecsFit(s[1..]); }
  }

  /** Restoring a snapshot reads back exactly the records it was made of. */
  lemma {:induction false} LoadSnap(s: seq<Slot>, room: nat)
    requires SlotsOk(s) && |Recs(s)| <= room
    ensures Load(SnapOf(s), room) == (Recs(s), true)
  {
    if s != [] {
      if s[0].used {
        var r := Rec(s[0].key, s[0].val);
        FirstRecBytes(r, SnapOf(s[1..]));
        LoadSnap(s[1..], room - 1);
      } else {
        assert SnapOf(s) == SnapOf(s[1..]) && Recs(s) == Recs(s[1..]);
        LoadSnap(s[1..], room);
      }
    }
  }

  // ---- the restored table ----

  lemma {:induction false} RecsKeys(s: seq<Slot>, i: nat) returns (j: nat)
    requires i < |Recs(s)|
    ensures j < |s| && s[j].used && Recs(s)[i] == Rec(s[j].key, s[j].val)
  {
    if s[0].used && i == 0 {
      j := 0;
    } else {
      var k := RecsKeys(s[1..], if s[0].used then i - 1 else i);
      j := k + 1;
    }
  }

  lemma {:induction false} SlotInRecs(s: seq<Slot>, j: nat) returns (i: nat)
    requires j < |s| && s[j].used
    ensures i < |Recs(s)| && Recs(s)[i] == Rec(s[j].key, s[j].val)
  {
    if j == 0 {
      i := 0;
    } else {
      var k := SlotInRecs(s[1..], j - 1);
      i := if s[0].used then k + 1 else k;
    }
  }

  lemma {:induction false} RecsDistinct(s: seq<Slot>)
    requires Unique(s)
    ensures DistinctKeys(Recs(s))
  {
    if s != [] {
      RecsDistinct(s[1..]);
      if s[0].used {
        forall i | 0 <= i < |Recs(s[1..])| ensures Recs(s[1..])[i].key != s[0].key {
          var j := RecsKeys(s[1..], i);
          assert s[1..][j] == s[j + 1];
        }
      }
    }
  }

  /** A restored table has no key twice exactly when the snapshot had none twice. */
  lemma RestoreUnique(t: seq<Slot>, rs: seq<Rec>)
    requires LoadedInto(t, rs)
    ensures Unique(t) <==> DistinctKeys(rs)
  {
    if Unique(t) {
      forall i, j | 0 <= i < j < |rs| ensures rs[i].key != rs[j].key {
        assert t[i].used && t[j].used;
      }
    }
  }

  /** A table restored from a snapshot stands for the map the snapshot was taken of, in another layout. */
  lemma RestoreContents(s: seq<Slot>, t: seq<Slot>)
    requires Unique(s) && LoadedInto(t, Recs(s))
    ensures Unique(t) && Contents(t) == Contents(s)
  {
    RecsDistinct(s);
    RestoreUnique(t, Recs(s));
    ContentsHolds(s);
    var m := Contents(s);
    assert KeysOf(t) <= KeysOf(s) by {
      forall k | k in KeysOf(t) ensures k in KeysOf(s) {
        var i :| 0 <= i < |t| && t[i].used && t[i].key == k;
        var j := RecsKeys(s, i);
        assert s[j].key == k;
      }
    }
    assert KeysOf(s) <= KeysOf(t) by {
      forall k | k in KeysOf(s) ensures k in KeysOf(t) {
        var j :| 0 <= j < |s| && s[j].used && s[j].key == k;
        var i := SlotInRecs(s, j);
        assert t[i].used && t[i].key == k;
      }
    }
    forall i | 0 <= i < |t| && t[i].used ensures m[t[i].key] == t[i].val {
      var j := RecsKeys(s, i);
      ContentsAt(s, j);
    }
    HoldsOnly(t, m);
  }

  /** The number of used slots is the number of keys. */
  lemma {:induction false} CountIsKeys(s: seq<Slot>)
    requires Unique(s)
    ensures |Recs(s)| == |Contents(s)|
  {
    assert Contents(s).Keys == KeysOf(s);
    if s == [] {
      assert KeysOf(s) == {};
    } else {
      CountIsKeys(s[1..]);
      assert Contents(s[1..]).Keys == KeysOf(s[1..]);
      KeysSplit(s);
    }
  }

  // ---- what a log of commands leaves behind ----

  ghost predicate EmptyTable(s: seq<Slot>) {
    forall i :: 0 <= i < |s| ==> !s[i].used
  }

  lemma ApplyOk(s: seq<Slot>, b: Octets)
    requires SlotsOk(s)
    ensures SlotsOk(ApplySlots(s, b).0)
  {
    if Decode(b).Some? { EncodeDecode(b); }
  }

  lemma {:induction false} LogOk(s: seq<Slot>, log: seq<Octets>)
    requires SlotsOk(s)
    ensures SlotsOk(ApplyLog(s, log))
    decreases |log|
  {
    if log != [] {
      ApplyOk(s, log[0]);
      LogOk(ApplySlots(s, log[0]).0, log[1..]);
    }
  }

  lemma {:induction false} ApplyLogConcat(s: seq<Slot>, a: seq<Octets>, b: seq<Octets>)
    ensures ApplyLog(s, a + b) == ApplyLog(ApplyLog(s, a), b)
    decreases |a|
  {
    if a == [] {
      assert a + b == b;
    } else {
      assert (a + b)[1..] == a[1..] + b;
      ApplyLogConcat(ApplySlots(s, a[0]).0, a[1..], b);
    }
  }

  /** Log compaction: restoring the snapshot taken after `l1` into a table of the same size and applying
      `l2` gives the same result codes and the same map as applying `l1` and then `l2`. */
  lemma Compaction(s: seq<Slot>, l1: seq<Octets>, l2: seq<Octets>, t: seq<Slot>)
    requires EmptyTable(s) && |t| == |s|
    requires LoadedInto(t, Load(SnapOf(ApplyLog(s, l1)), |t|).0)
    ensures Load(SnapOf(ApplyLog(s, l1)), |t|).1
    ensures Contents(t) == Contents(ApplyLog(s, l1))
    ensures LogResults(t, l2) == LogResults(ApplyLog(s, l1), l2)
    ensures Contents(ApplyLog(t, l2)) == Contents(ApplyLog(s, l1 + l2))
  {
    var s1 := ApplyLog(s, l1);
    LogRefines(s, l1);
    LogOk(s, l1);
    RecsFit(s1);
    LoadSnap(s1, |t|);
    RestoreContents(s1, t);
    LogRefines(t, l2);
    LogRefines(s1, l2);
    ApplyLogConcat(s, l1, l2);
  }
}
