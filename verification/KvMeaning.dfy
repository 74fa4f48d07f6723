/** What the bytes of a command and of a snapshot mean, said of keys and values alone. */
module KvMeaning {
  import opened Bytes
  import opened KvCommand
  import opened KvSlots
  import opened KvSnapshot

  /** Only key `k` may differ. */
  ghost predicate OnlyAt(m: Map, r: Map, k: Octets) {
    forall x: Octets :: x != k ==> (x in r <==> x in m) && (x in m ==> r[x] == m[x])
  }

  /** The key now has the value, and there was room for it; or there was none, and nothing changed. */
  ghost predicate Written(m: Map, cap: nat, k: Octets, v: Octets, r: Map, code: int) {
    if k in m || |m| < cap then code == 1 && k in r && r[k] == v && OnlyAt(m, r, k) else code == -1 && r == m
  }

  /** A put stores its value under its key, exactly when the key is there or the map is not full. */
  lemma PutMeans(m: Map, cap: nat, k: Octets, v: Octets)
    requires KeyOk(k) && ValOk(v)
    ensures var (r, code) := ApplyBytes(m, cap, Encode(Put(k, v))); Written(m, cap, k, v, r, code)
  {
    DecodeEncode(Put(k, v));
    hide Encode, Decode;
  }

  /** A delete takes its key out and says whether it was there. */
  lemma DelMeans(m: Map, cap: nat, k: Octets)
    requires KeyOk(k)
    ensures var (r, code) := ApplyBytes(m, cap, Encode(Del(k)));
      code == (if k in m then 1 else 0) && k !in r && OnlyAt(m, r, k)
  {
    DecodeEncode(Del(k));
    hide Encode, Decode;
  }

  /** A compare-and-set writes exactly when the key's value is the expected one, an absent key counting as empty. */
  lemma CasMeans(m: Map, cap: nat, k: Octets, e: Octets, v: Octets)
    requires KeyOk(k) && ValOk(e) && ValOk(v)
    ensures var (r, code) := ApplyBytes(m, cap, Encode(Cas(k, e, v)));
      if (if k in m then m[k] == e else e == []) then Written(m, cap, k, v, r, code) else code == 0 && r == m
  {
    DecodeEncode(Cas(k, e, v));
    hide Encode, Decode;
  }

  /** Anything that is not the encoding of a legal command is refused and changes nothing. */
  lemma RestRefused(m: Map, cap: nat, b: Octets)
    requires forall c :: CommandOk(c) ==> Encode(c) != b
    ensures ApplyBytes(m, cap, b) == (m, -1)
  {
    if Decode(b).Some? {
      EncodeDecode(b);
      assert false;
    }
  }

  // ---- snapshots ----

  function RecsBytes(rs: seq<Rec>): Octets { if rs == [] then [] else RecBytes(rs[0]) + RecsBytes(rs[1..]) }

  ghost predicate AllOk(rs: seq<Rec>) { forall i :: 0 <= i < |rs| ==> RecOk(rs[i]) }

  lemma FirstRecFrom(b: Octets)
    requires FirstRec(b).Some?
    ensures var r := FirstRec(b).value;
      RecOk(r) && 4 + |r.key| + |r.val| <= |b| && b == RecBytes(r) + b[4 + |r.key| + |r.val|..]
  {
    var r := FirstRec(b).value;
    var o := 2 + |r.key|;
    FieldFrom(b, 0, |r.key|);
    FieldFrom(b, o, |r.val|);
    assert b == b[0..o] + b[o..o + 2 + |r.val|] + b[o + 2 + |r.val|..];
  }

  lemma LoadUnfold(b: Octets, room: nat)
    ensures Load(b, room) ==
      if b != [] && FirstRec(b).Some? && room > 0 then
        var r := FirstRec(b).value;
        FirstRecFrom(b);
        var rest := Load(b[4 + |r.key| + |r.val|..], room - 1);
        ([r] + rest.0, rest.1)
      else ([], b == [])
  {
    hide FirstRec;
  }

  ghost predicate LoadedFrom(b: Octets, room: nat, rs: seq<Rec>, ok: bool) {
    && AllOk(rs) && |rs| <= room && RecsBytes(rs) <= b && (ok <==> RecsBytes(rs) == b)
    && (!ok ==> |rs| == room || FirstRec(b[|RecsBytes(rs)|..]) == None)
  }

  lemma LoadedMore(b: Octets, room: nat, r: Rec, rest: Octets, rs: seq<Rec>, ok: bool)
    requires RecOk(r) && b == RecBytes(r) + rest && LoadedFrom(rest, room, rs, ok)
    ensures LoadedFrom(b, room + 1, [r] + rs, ok)
  {
    hide FirstRec, RecBytes;
    assert ([r] + rs)[1..] == rs;
    Behind(RecBytes(r), rest, RecsBytes(rs));
  }

  /** Whatever is read are legal records that begin the bytes; it is the whole of them exactly when loading succeeds,
      and it fails only where no legal record follows or there is no room for one. */
  lemma {:induction false} LoadSound(b: Octets, room: nat)
    ensures var (rs, ok) := Load(b, room); LoadedFrom(b, room, rs, ok)
    decreases room
  {
    hide FirstRec, RecBytes, Load;
    LoadUnfold(b, room);
    if b != [] && FirstRec(b).Some? && room > 0 {
      var r := FirstRec(b).value;
      FirstRecFrom(b);
      hide LoadedFrom;
      var rest := b[4 + |r.key| + |r.val|..];
      LoadSound(rest, room - 1);
      LoadedMore(b, room - 1, r, rest, Load(rest, room - 1).0, Load(rest, room - 1).1);
    } else {
      assert b[0..] == b;
    }
  }

  lemma Behind(x: Octets, y: Octets, z: Octets)
    requires z <= y
    ensures x + z <= x + y && (x + z == x + y <==> z == y) && (x + y)[|x + z|..] == y[|z|..]
  {
    if x + z == x + y { assert z == (x + z)[|x|..] == (x + y)[|x|..] == y; }
  }

  lemma RecLong(r: Rec)
    ensures |RecBytes(r)| >= 4
  {
  }

  lemma LoadCons(r: Rec, rest: Octets, room: nat)
    requires RecOk(r) && room > 0
    ensures Load(RecBytes(r) + rest, room) == ([r] + Load(rest, room - 1).0, Load(rest, room - 1).1)
  {
    hide FirstRec, RecBytes, Load, RecOk;
    RecLong(r);
    FirstRecBytes(r, rest);
    LoadUnfold(RecBytes(r) + rest, room);
  }

  /** The bytes of any legal records for which there is room load, and give those back. */
  lemma {:induction false} LoadComplete(rs: seq<Rec>, room: nat)
    requires AllOk(rs) && |rs| <= room
    ensures Load(RecsBytes(rs), room) == (rs, true)
  {
    hide RecBytes, Load, RecOk;
    if rs == [] {
      LoadUnfold([], room);
    } else {
      LoadCons(rs[0], RecsBytes(rs[1..]), room);
      LoadComplete(rs[1..], room - 1);
      assert [rs[0]] + rs[1..] == rs;
    }
  }
}
