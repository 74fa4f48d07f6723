/** The store in place: a fixed table of slots, encoders and snapshots that fill buffers at a moving offset. */
module KvStore {
  import opened Bytes
  import opened KvCommand
  import opened KvSlots
  import opened KvSnapshot
  import RaftTypes

  /** Write one length-prefixed string behind what stands before `o`; the offset after it. */
  method PutField(buf: array<byte>, o: nat, s: Octets) returns (end: nat)
    requires o + 2 + |s| <= buf.Length && |s| < 0x1_0000
    modifies buf
    ensures end == o + 2 + |s| && buf[..end] == old(buf[..o]) + Field(s)
  {
    hide Be;
    Pow256Values();
    PutBe(buf, o, |s|, 2);
    assert buf[..o + 2] == buf[..o] + buf[o..o + 2];
    PutBytes(buf, o + 2, s);
    end := o + 2 + |s|;
    assert buf[..end] == buf[..o + 2] + buf[o + 2..end];
  }

  /** Bytes written, or -1 when an argument is out of range or the buffer too small. */
  method EncodePut(buf: array<byte>, key: Octets, val: Octets) returns (n: int)
    modifies buf
    ensures n >= 0 <==> CommandOk(Put(key, val)) && |Encode(Put(key, val))| <= buf.Length
    ensures n >= 0 ==> n == |Encode(Put(key, val))| && buf[..n] == Encode(Put(key, val))
    ensures n < 0 ==> n == -1 && buf[..] == old(buf[..])
  {
    assert Encode(Put(key, val)) == [OP_PUT] + Field(key) + Field(val);
    hide Encode, Field;
    if |key| == 0 || |key| > MAX_KEY || |val| > MAX_VAL { return -1; }
    if buf.Length < 1 + 2 + |key| + 2 + |val| { return -1; }
    buf[0] := OP_PUT;
    assert buf[..1] == [OP_PUT];
    var o := PutField(buf, 1, key);
    n := PutField(buf, o, val);
  }

  method EncodeDel(buf: array<byte>, key: Octets) returns (n: int)
    modifies buf
    ensures n >= 0 <==> CommandOk(Del(key)) && |Encode(Del(key))| <= buf.Length
    ensures n >= 0 ==> n == |Encode(Del(key))| && buf[..n] == Encode(Del(key))
    ensures n < 0 ==> n == -1 && buf[..] == old(buf[..])
  {
    assert Encode(Del(key)) == [OP_DEL] + Field(key);
    hide Encode, Field;
    if |key| == 0 || |key| > MAX_KEY { return -1; }
    if buf.Length < 1 + 2 + |key| { return -1; }
    buf[0] := OP_DEL;
    assert buf[..1] == [OP_DEL];
    n := PutField(buf, 1, key);
  }

  method EncodeCas(buf: array<byte>, key: Octets, current: Octets, val: Octets) returns (n: int)
    modifies buf
    ensures n >= 0 <==> CommandOk(Cas(key, current, val)) && |Encode(Cas(key, current, val))| <= buf.Length
    ensures n >= 0 ==> n == |Encode(Cas(key, current, val))| && buf[..n] == Encode(Cas(key, current, val))
    ensures n < 0 ==> n == -1 && buf[..] == old(buf[..])
  {
    assert Encode(Cas(key, current, val)) == [OP_CAS] + Field(key) + Field(current) + Field(val);
    hide Encode, Field;
    if |key| == 0 || |key| > MAX_KEY { return -1; }
    if |current| > MAX_VAL || |val| > MAX_VAL { return -1; }
    if buf.Length < 1 + 2 + |key| + 2 + |current| + 2 + |val| { return -1; }
    buf[0] := OP_CAS;
    assert buf[..1] == [OP_CAS];
    var o := PutField(buf, 1, key);
    var p := PutField(buf, o, current);
    n := PutField(buf, p, val);
  }

  /** Commands built by the cluster front end go through a buffer of this size. */
  const CMD_MAX: nat := MAX_KEY + MAX_VAL + 16

  /** Every put and delete fits that buffer; a compare-and-set fits exactly when its three strings leave
      room for the seven framing bytes, which a legal one need not do. */
  lemma FrontEndFits(c: Command)
    requires CommandOk(c)
    ensures !c.Cas? ==> |Encode(c)| <= CMD_MAX
    ensures c.Cas? ==> (|Encode(c)| <= CMD_MAX <==> |c.key| + |c.current| + |c.val| <= CMD_MAX - 7)
  {
  }

  lemma SomeCasDoesNotFit()
    ensures exists c :: CommandOk(c) && |Encode(c)| > CMD_MAX && |Encode(c)| > RaftTypes.ENTRY_MAX
  {
    var v: Octets := seq(256, _ => 0);
    var c := Cas([1], v, v);
    assert CommandOk(c) && |Encode(c)| > CMD_MAX && |Encode(c)| > RaftTypes.ENTRY_MAX;
  }

  class Kv {
    const entries: array<Slot>
    var count: nat

    /** The counter is the number of slots in use. */
    ghost predicate Valid()
      reads this, entries
    {
      count == |Recs(entries[..])|
    }

    constructor (maxEntries: nat)
      requires maxEntries > 0
      ensures Valid() && fresh(entries) && entries.Length == maxEntries && EmptyTable(entries[..]) && count == 0
    {
      entries := new Slot[maxEntries](_ => Slot(false, [], []));
      count := 0;
      new;
      EmptyRecs(entries[..]);
    }

    method Find(key: Octets) returns (k: nat)
      ensures k == FindSlot(entries[..], key)
    {
      k := 0;
      while k < entries.Length && !(entries[k].used && entries[k].key == key)
        invariant k <= entries.Length
        invariant forall j :: 0 <= j < k ==> !(entries[j].used && entries[j].key == key)
      {
        k := k + 1;
      }
    }

    method Free() returns (k: nat)
      ensures k == FreeSlot(entries[..])
    {
      k := 0;
      while k < entries.Length && entries[k].used
        invariant k <= entries.Length
        invariant forall j :: 0 <= j < k ==> entries[j].used
      {
        k := k + 1;
      }
    }

    method StorePut(key: Octets, val: Octets) returns (r: int)
      requires Valid()
      modifies this, entries
      ensures Valid()
      ensures (entries[..], r) == PutSlots(old(entries[..]), key, val)
    {
      ghost var s := entries[..];
      var k := Find(key);
      if k == entries.Length {
        k := Free();
        if k == entries.Length { return -1; }
        entries[k] := Slot(true, key, val);
        count := count + 1;
        assert entries[..] == s[k := Slot(true, key, val)];
        RecsUse(s, k, key, val);
      } else {
        entries[k] := entries[k].(val := val);
        assert entries[..] == s[k := s[k].(val := val)];
        RecsOverwrite(s, k, val);
      }
      return 1;
    }

    method StoreDel(key: Octets) returns (r: int)
      requires Valid()
      modifies this, entries
      ensures Valid()
      ensures (entries[..], r) == DelSlots(old(entries[..]), key)
    {
      ghost var s := entries[..];
      var k := Find(key);
      if k == entries.Length { return 0; }
      entries[k] := entries[k].(used := false);
      assert entries[..] == s[k := s[k].(used := false)];
      RecsFree(s, k);
      count := count - 1;
      return 1;
    }

    /** Parse and apply one command. */
    method Apply(cmd: Octets) returns (r: int)
      requires Valid()
      modifies this, entries
      ensures Valid()
      ensures (entries[..], r) == ApplySlots(old(entries[..]), cmd)
    {
      hide Decode;
      var c := ParseCommand(cmd);
      if c.None? { return -1; }
      match c.value
      case Put(key, val) => r := StorePut(key, val);
      case Del(key) => r := StoreDel(key);
      case Cas(key, current, val) =>
        var k := Find(key);
        var held := if k < entries.Length then entries[k].val else [];
        if held != current { return 0; }
        r := StorePut(key, val);
    }

    /** The value of a key, if it is stored and fits in `cap` bytes. */
    method Get(key: Octets, cap: nat) returns (v: Option<Octets>)
      requires Unique(entries[..])
      ensures var m := Contents(entries[..]);
        v == if key != [] && key in m && |m[key]| <= cap then Some(m[key]) else None
    {
      if |key| == 0 { return None; }
      var k := Find(key);
      FoundIffKey(entries[..], key);
      if k == entries.Length { return None; }
      ContentsAt(entries[..], k);
      if |entries[k].val| > cap { return None; }
      return Some(entries[k].val);
    }

    /** Serialize the used slots in table order; -1 when the buffer is too small. */
    method Snapshot(buf: array<byte>) returns (n: int)
      requires SlotsOk(entries[..])
      modifies buf
      ensures entries[..] == old(entries[..]) && count == old(count)
      ensures n == if |SnapOf(entries[..])| <= buf.Length then |SnapOf(entries[..])| else -1
      ensures n >= 0 ==> buf[..n] == SnapOf(entries[..])
    {
      hide Field;
      var o: nat := 0;
      ghost var s := entries[..];
      for i := 0 to entries.Length
        invariant entries[..] == s
        invariant o <= buf.Length && buf[..o] == SnapOf(s[..i])
      {
        SnapNext(s, i);
        SnapPrefix(s, i + 1);
        if entries[i].used {
          var need := 2 + |entries[i].key| + 2 + |entries[i].val|;
          if o + need > buf.Length { return -1; }
          var p := PutField(buf, o, entries[i].key);
          o := PutField(buf, p, entries[i].val);
        }
      }
      assert s[..|s|] == s;
      return o;
    }

    method Clear()
      modifies this, entries
      ensures EmptyTable(entries[..]) && count == 0
    {
      for i := 0 to entries.Length
        invariant forall j :: 0 <= j < i ==> !entries[j].used
      {
        entries[i] := entries[i].(used := false);
      }
      count := 0;
    }

    /** Put one more restored record into the first free slot, if there is one. */
    method LoadOne(r: Rec, ghost rs: seq<Rec>) returns (ok: bool)
      requires LoadedInto(entries[..], rs) && count == |rs|
      modifies this, entries
      ensures ok == (|rs| < entries.Length)
      ensures ok ==> LoadedInto(entries[..], rs + [r]) && count == |rs| + 1
      ensures !ok ==> LoadedInto(entries[..], rs) && count == |rs|
    {
      FreeAfter(entries[..], rs);
      var k := Free();
      if k == entries.Length { return false; }
      entries[k] := Slot(true, r.key, r.val);
      count := count + 1;
      return true;
    }

    /** One turn of the restore loop: load the record at `o`, if there is one and room for it. */
    method LoadAt(b: Octets, o: nat, ghost rs: seq<Rec>) returns (ok: bool, end: nat, ghost rs': seq<Rec>)
      requires o < |b| && LoadedInto(entries[..], rs) && count == |rs| <= entries.Length
      modifies this, entries
      ensures o <= end <= |b| && LoadedInto(entries[..], rs') && count == |rs'| <= entries.Length
      ensures ok ==> end > o
      ensures ok ==> LoadAcc(b[o..], entries.Length - |rs|, rs) == LoadAcc(b[end..], entries.Length - |rs'|, rs')
      ensures !ok ==> end == o && rs' == rs && LoadAcc(b[o..], entries.Length - |rs|, rs) == (rs, false)
    {
      hide LoadedInto, LoadAcc, FirstRec, Recs;
      LoadNext(b, o, entries.Length - |rs|, rs);
      LoadStops(b, o, entries.Length - |rs|, rs);
      ok, end, rs' := false, o, rs;
      var parsed := ParseRec(b, o);
      if parsed.None? { return; }
      ok := LoadOne(parsed.value, rs);
      if !ok { return; }
      end := o + 4 + |parsed.value.key| + |parsed.value.val|;
      rs' := rs + [parsed.value];
    }

    /** Replace the contents by a snapshot's records; on a malformed or oversized one, the records before
        the fault stay and -1 is returned. */
    method Restore(b: Octets) returns (r: int)
      modifies this, entries
      ensures Valid()
      ensures LoadedInto(entries[..], Load(b, entries.Length).0)
      ensures r == if Load(b, entries.Length).1 then 0 else -1
    {
      Clear();
      var o := 0;
      ghost var rs: seq<Rec> := [];
      assert LoadedInto(entries[..], rs);
      hide LoadedInto, Load, LoadAcc, FirstRec, Recs;
      LoadAccIsLoad(b, entries.Length);
      assert b[0..] == b;
      var ok := true;
      while ok && o < |b|
        invariant o <= |b| && count == |rs| <= entries.Length && LoadedInto(entries[..], rs)
        invariant LoadAcc(b[o..], entries.Length - |rs|, rs) == Load(b, entries.Length)
        invariant !ok ==> Load(b, entries.Length) == (rs, false)
        decreases |b| - o, ok
      {
        ok, o, rs := LoadAt(b, o, rs);
      }
      r := if ok then 0 else -1;
      if ok { LoadEnd(b, o, entries.Length - |rs|, rs); }
      CountLoaded(entries[..], rs);
    }
  }

  /** The restore loop with the records so far. */
  ghost function LoadAcc(b: Octets, room: nat, rs: seq<Rec>): (seq<Rec>, bool)
    decreases room
  {
    if b == [] then (rs, true)
    else
      match FirstRec(b)
      case None => (rs, false)
      case Some(r) =>
        if room == 0 then (rs, false) else LoadAcc(b[4 + |r.key| + |r.val|..], room - 1, rs + [r])
  }

  lemma {:induction false} LoadAccAppends(b: Octets, room: nat, rs: seq<Rec>)
    ensures LoadAcc(b, room, rs) == (rs + Load(b, room).0, Load(b, room).1)
    decreases room
  {
    assert rs + [] == rs;
    if b != [] && FirstRec(b).Some? && room > 0 {
      var r := FirstRec(b).value;
      var rest := b[4 + |r.key| + |r.val|..];
      LoadAccAppends(rest, room - 1, rs + [r]);
      assert rs + ([r] + Load(rest, room - 1).0) == (rs + [r]) + Load(rest, room - 1).0;
    }
  }

  lemma LoadAccIsLoad(b: Octets, room: nat)
    ensures LoadAcc(b, room, []) == Load(b, room)
  {
    LoadAccAppends(b, room, []);
    assert [] + Load(b, room).0 == Load(b, room).0;
  }

  lemma LoadEnd(b: Octets, o: nat, room: nat, rs: seq<Rec>)
    requires o <= |b| && (o < |b| ==> FirstRec(b[o..]).None? || room == 0)
    ensures LoadAcc(b[o..], room, rs) == (rs, o == |b|)
  {
    if o == |b| { assert b[o..] == []; }
  }

  lemma LoadStops(b: Octets, o: nat, room: nat, rs: seq<Rec>)
    requires o < |b|
    ensures FirstRec(b[o..]).None? || room == 0 ==> LoadAcc(b[o..], room, rs) == (rs, false)
  {
    hide FirstRec;
  }

  lemma FreeAfter(t: seq<Slot>, rs: seq<Rec>)
    requires LoadedInto(t, rs)
    ensures FreeSlot(t) == |rs|
  {
    assert FreeSlot(t) < |t| ==> !t[FreeSlot(t)].used;
    assert |rs| < |t| ==> !t[|rs|].used;
  }

  /** One turn of the restore loop, at an offset. */
  lemma LoadNext(b: Octets, o: nat, room: nat, rs: seq<Rec>)
    requires o < |b|
    ensures FirstRec(b[o..]).Some? && room > 0 ==>
      var r := FirstRec(b[o..]).value;
      && o + 4 + |r.key| + |r.val| <= |b|
      && LoadAcc(b[o..], room, rs) == LoadAcc(b[o + 4 + |r.key| + |r.val|..], room - 1, rs + [r])
  {
    if FirstRec(b[o..]).Some? {
      var r := FirstRec(b[o..]).value;
      assert b[o..][4 + |r.key| + |r.val|..] == b[o + 4 + |r.key| + |r.val|..];
    }
  }

  /** Read the fields of a command at a moving offset, checking each as it comes. */
  method ParseCommand(cmd: Octets) returns (c: Option<Command>)
    ensures c == Decode(cmd)
  {
    hide UnBe;
    if |cmd| < 3 { return None; }
    var op := cmd[0];
    var klen := ReadBe(cmd, 1, 2);
    var o := 3;
    if klen == 0 || klen > MAX_KEY || o + klen > |cmd| { return None; }
    var key := cmd[o..o + klen];
    o := o + klen;
    if op == OP_PUT {
      if o + 2 > |cmd| { return None; }
      var vlen := ReadBe(cmd, o, 2);
      o := o + 2;
      if vlen > MAX_VAL || o + vlen != |cmd| { return None; }
      return Some(Put(key, cmd[o..o + vlen]));
    } else if op == OP_DEL {
      if o != |cmd| { return None; }
      return Some(Del(key));
    } else if op == OP_CAS {
      if o + 2 > |cmd| { return None; }
      var elen := ReadBe(cmd, o, 2);
      o := o + 2;
      if elen > MAX_VAL || o + elen + 2 > |cmd| { return None; }
      var current := cmd[o..o + elen];
      o := o + elen;
      var vlen := ReadBe(cmd, o, 2);
      o := o + 2;
      if vlen > MAX_VAL || o + vlen != |cmd| { return None; }
      return Some(Cas(key, current, cmd[o..o + vlen]));
    } else {
      return None;
    }
  }

  /** Parse the record at an offset. */
  method ParseRec(b: Octets, start: nat) returns (r: Option<Rec>)
    requires start < |b|
    ensures r == FirstRec(b[start..])
    ensures r.Some? ==> start + 4 + |r.value.key| + |r.value.val| <= |b|
  {
    var o := start;
    if o + 2 > |b| { return None; }
    var klen := ReadBe(b, o, 2);
    assert b[start..][0..2] == b[start..start + 2];
    o := o + 2;
    if klen == 0 || klen > MAX_KEY || o + klen + 2 > |b| { return None; }
    var key := b[o..o + klen];
    o := o + klen;
    var vlen := ReadBe(b, o, 2);
    assert b[start..][2 + klen..4 + klen] == b[o..o + 2];
    o := o + 2;
    if vlen > MAX_VAL || o + vlen > |b| { return None; }
    assert b[start..][4 + klen..4 + klen + vlen] == b[o..o + vlen];
    assert b[start..][2..2 + klen] == key;
    return Some(Rec(key, b[o..o + vlen]));
  }

  // ---- counting and serializing, slot by slot ----

  lemma {:induction false} EmptyRecs(s: seq<Slot>)
    requires EmptyTable(s)
    ensures Recs(s) == []
  {
    if s != [] { EmptyRecs(s[1..]); }
  }

  lemma {:induction false} RecsUse(s: seq<Slot>, k: nat, key: Octets, val: Octets)
    requires k < |s| && !s[k].used
    ensures |Recs(s[k := Slot(true, key, val)])| == |Recs(s)| + 1
  {
    var t := s[k := Slot(true, key, val)];
    if k > 0 {
      RecsUse(s[1..], k - 1, key, val);
      assert t[1..] == s[1..][k - 1 := Slot(true, key, val)];
    } else {
      assert t[1..] == s[1..];
    }
  }

  lemma {:induction false} RecsFree(s: seq<Slot>, k: nat)
    requires k < |s| && s[k].used
    ensures |Recs(s[k := s[k].(used := false)])| + 1 == |Recs(s)|
  {
    var t := s[k := s[k].(used := false)];
    if k > 0 {
      RecsFree(s[1..], k - 1);
      assert t[1..] == s[1..][k - 1 := s[k].(used := false)];
    } else {
      assert t[1..] == s[1..];
    }
  }

  lemma {:induction false} RecsOverwrite(s: seq<Slot>, k: nat, val: Octets)
    requires k < |s| && s[k].used
    ensures |Recs(s[k := s[k].(val := val)])| == |Recs(s)|
  {
    var t := s[k := s[k].(val := val)];
    if k > 0 {
      RecsOverwrite(s[1..], k - 1, val);
      assert t[1..] == s[1..][k - 1 := s[k].(val := val)];
    } else {
      assert t[1..] == s[1..];
    }
  }

  lemma {:induction false} CountLoaded(t: seq<Slot>, rs: seq<Rec>)
    requires LoadedInto(t, rs)
    ensures |Recs(t)| == |rs|
  {
    if rs == [] {
      EmptyRecs(t);
    } else {
      CountLoaded(t[1..], rs[1..]);
    }
  }

  lemma {:induction false} SnapNext(s: seq<Slot>, i: nat)
    requires i < |s|
    ensures SnapOf(s[..i + 1]) == SnapOf(s[..i]) + (if s[i].used then RecBytes(Rec(s[i].key, s[i].val)) else [])
    decreases i
  {
    if i == 0 {
      assert s[..1] == [s[0]] && s[..0] == [];
    } else {
      SnapNext(s[1..], i - 1);
      assert s[..i + 1][1..] == s[1..][..i] && s[..i][1..] == s[1..][..i - 1];
    }
  }

  lemma {:induction false} SnapPrefix(s: seq<Slot>, i: nat)
    requires i <= |s|
    ensures |SnapOf(s[..i])| <= |SnapOf(s)|
    decreases |s| - i
  {
    if i < |s| {
      SnapNext(s, i);
      SnapPrefix(s, i + 1);
    } else {
      assert s[..i] == s;
    }
  }
}
