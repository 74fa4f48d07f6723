/** Commands of the replicated key-value store: their bytes, and what they do to a bounded map. */
module KvCommand {
  import opened Bytes

  const MAX_KEY: nat := 128
  const MAX_VAL: nat := 256
  const OP_PUT: byte := 1
  const OP_DEL: byte := 2
  const OP_CAS: byte := 3

  type Octets = seq<byte>
  type Map = map<Octets, Octets>

  datatype Command = Put(key: Octets, val: Octets) | Del(key: Octets) | Cas(key: Octets, current: Octets, val: Octets)

  predicate KeyOk(key: Octets) { 1 <= |key| <= MAX_KEY }
  predicate ValOk(val: Octets) { |val| <= MAX_VAL }

  predicate CommandOk(c: Command) {
    KeyOk(c.key) && (c.Del? || ValOk(c.val)) && (c.Cas? ==> ValOk(c.current))
  }

  /** A length-prefixed string. */
  function Field(s: Octets): (f: Octets)
    ensures |f| == 2 + |s|
  {
    Be(|s|, 2) + s
  }

  function Encode(c: Command): Octets {
    match c
    case Put(k, v) => [OP_PUT] + Field(k) + Field(v)
    case Del(k) => [OP_DEL] + Field(k)
    case Cas(k, e, v) => [OP_CAS] + Field(k) + Field(e) + Field(v)
  }

  /** The checks of norn_kv_apply, in its order. */
  function Decode(b: Octets): Option<Command> {
    if |b| < 3 then None
    else
      var klen := GetBe(b, 1, 2);
      if klen == 0 || klen > MAX_KEY || 3 + klen > |b| then None
      else
        var key := b[3..3 + klen];
        var o := 3 + klen;
        if b[0] == OP_PUT then
          if o + 2 > |b| then None
          else
            var vlen := GetBe(b, o, 2);
            if vlen > MAX_VAL || o + 2 + vlen != |b| then None else Some(Put(key, b[o + 2..o + 2 + vlen]))
        else if b[0] == OP_DEL then
          if o != |b| then None else Some(Del(key))
        else if b[0] == OP_CAS then
          if o + 2 > |b| then None
          else
            var elen := GetBe(b, o, 2);
            if elen > MAX_VAL || o + 2 + elen + 2 > |b| then None
            else
              var p := o + 2 + elen;
              var vlen := GetBe(b, p, 2);
              if vlen > MAX_VAL || p + 2 + vlen != |b| then None
              else Some(Cas(key, b[o + 2..p], b[p + 2..p + 2 + vlen]))
        else None
  }

  /** A length prefix at `o`, followed by that many bytes, reads back. */
  lemma FieldAt(b: Octets, o: nat, s: Octets)
    requires |s| < 0x1_0000 && o + 2 + |s| <= |b| && b[o..o + 2 + |s|] == Field(s)
    ensures GetBe(b, o, 2) == |s| && b[o + 2..o + 2 + |s|] == s
  {
    Pow256Values();
    var f := b[o..o + 2 + |s|];
    assert b[o..o + 2] == f[..2] == Be(|s|, 2);
    assert b[o + 2..o + 2 + |s|] == f[2..] == s;
    GetBeAt(b, o, 2, |s|);
  }

  /** Decoding undoes encoding. */
  lemma DecodeEncode(c: Command)
    requires CommandOk(c)
    ensures Decode(Encode(c)) == Some(c)
  {
    var b := Encode(c);
    var o := 3 + |c.key|;
    assert b[1..o] == Field(c.key);
    FieldAt(b, 1, c.key);
    match c
    case Del(_) =>
    case Put(_, v) =>
      assert b[o..o + 2 + |v|] == Field(v);
      FieldAt(b, o, v);
    case Cas(_, e, v) =>
      var p := o + 2 + |e|;
      assert b[o..p] == Field(e);
      assert b[p..p + 2 + |v|] == Field(v);
      FieldAt(b, o, e);
      FieldAt(b, p, v);
  }

  lemma FieldFrom(b: Octets, o: nat, n: nat)
    requires o + 2 + n <= |b| && GetBe(b, o, 2) == n
    ensures b[o..o + 2 + n] == Field(b[o + 2..o + 2 + n])
  {
    BeUnBe(b[o..o + 2]);
    assert b[o..o + 2 + n] == b[o..o + 2] + b[o + 2..o + 2 + n];
  }

  lemma EncodeDecodeCas(b: Octets)
    requires Decode(b).Some? && Decode(b).value.Cas?
    ensures Encode(Decode(b).value) == b
  {
    hide UnBe, Be;
    var c := Decode(b).value;
    var o := 3 + |c.key|;
    var p := o + 2 + |c.current|;
    assert b[0] == OP_CAS && GetBe(b, 1, 2) == |c.key| && GetBe(b, o, 2) == |c.current| && GetBe(b, p, 2) == |c.val|;
    assert c.key == b[3..o] && c.current == b[o + 2..p] && p + 2 + |c.val| == |b| && c.val == b[p + 2..|b|];
    assert b[p..|b|] == b[p..];
    hide Decode, GetBe, Field;
    FieldFrom(b, 1, |c.key|);
    FieldFrom(b, o, |c.current|);
    FieldFrom(b, p, |c.val|);
    Pieces(b, o, p);
  }

  lemma Pieces(b: Octets, o: nat, p: nat)
    requires 1 <= o <= p <= |b|
    ensures b == [b[0]] + b[1..o] + b[o..p] + b[p..]
  {
  }

  lemma EncodeDecodePut(b: Octets)
    requires Decode(b).Some? && Decode(b).value.Put?
    ensures Encode(Decode(b).value) == b
  {
    hide UnBe, Be;
    var c := Decode(b).value;
    var o := 3 + |c.key|;
    assert b[0] == OP_PUT && o + 2 + |c.val| == |b| && GetBe(b, 1, 2) == |c.key| && GetBe(b, o, 2) == |c.val|;
    assert c.key == b[3..o] && c.val == b[o + 2..|b|];
    hide Decode, GetBe, Field;
    FieldFrom(b, 1, |c.key|);
    FieldFrom(b, o, |c.val|);
    Pieces(b, o, |b|);
    NoTail([b[0]] + b[1..o] + b[o..|b|], b);
  }

  lemma NoTail(x: Octets, b: Octets)
    requires b == x + b[|b|..]
    ensures b == x
  {
    assert x + [] == x;
  }

  /** And encoding undoes decoding: the accepted byte strings are exactly the encodings. */
  lemma EncodeDecode(b: Octets)
    requires Decode(b).Some?
    ensures CommandOk(Decode(b).value) && Encode(Decode(b).value) == b
  {
    hide Encode;
    match Decode(b).value
    case Del(k) => EncodeDecodeDel(b);
    case Put(_, v) => EncodeDecodePut(b);
    case Cas(_, e, v) => EncodeDecodeCas(b);
  }

  lemma EncodeDecodeDel(b: Octets)
    requires Decode(b).Some? && Decode(b).value.Del?
    ensures Encode(Decode(b).value) == b
  {
    var k := Decode(b).value.key;
    FieldFrom(b, 1, |k|);
    assert b == [b[0]] + b[1..3 + |k|];
  }

  // ---- meaning ----

  function PutMap(m: Map, cap: nat, k: Octets, v: Octets): (Map, int) {
    if k in m || |m| < cap then (m[k := v], 1) else (m, -1)
  }

  /** What a command does to a map of at most `cap` keys, and its result code. */
  function Apply(m: Map, cap: nat, c: Command): (Map, int) {
    match c
    case Put(k, v) => PutMap(m, cap, k, v)
    case Del(k) => if k in m then (m - {k}, 1) else (m, 0)
    case Cas(k, e, v) => if (if k in m then m[k] else []) != e then (m, 0) else PutMap(m, cap, k, v)
  }

  function ApplyBytes(m: Map, cap: nat, b: Octets): (Map, int) {
    match Decode(b)
    case None => (m, -1)
    case Some(c) => Apply(m, cap, c)
  }

  /** The map a log of commands leads to. */
  function Replay(m: Map, cap: nat, log: seq<Octets>): Map
    decreases |log|
  {
    if log == [] then m else Replay(ApplyBytes(m, cap, log[0]).0, cap, log[1..])
  }

  /** Every result code of a log of commands. */
  function Results(m: Map, cap: nat, log: seq<Octets>): seq<int>
    decreases |log|
  {
    if log == [] then []
    else [ApplyBytes(m, cap, log[0]).1] + Results(ApplyBytes(m, cap, log[0]).0, cap, log[1..])
  }

  lemma {:induction false} ReplayConcat(m: Map, cap: nat, a: seq<Octets>, b: seq<Octets>)
    ensures Replay(m, cap, a + b) == Replay(Replay(m, cap, a), cap, b)
    ensures Results(m, cap, a + b) == Results(m, cap, a) + Results(Replay(m, cap, a), cap, b)
    decreases |a|
  {
    if a == [] {
      assert a + b == b;
    } else {
      assert (a + b)[1..] == a[1..] + b;
      ReplayConcat(ApplyBytes(m, cap, a[0]).0, cap, a[1..], b);
    }
  }

  lemma PutSize(m: Map, k: Octets, v: Octets)
    ensures |m[k := v]| == if k in m then |m| else |m| + 1
  {
    assert m[k := v].Keys == m.Keys + {k};
  }

  lemma DelSize(m: Map, k: Octets)
    requires k in m
    ensures |m - {k}| == |m| - 1
  {
    assert (m - {k}).Keys == m.Keys - {k};
  }

  /** No command takes a map past its capacity; a refused one changes nothing. */
  lemma ApplyBounded(m: Map, cap: nat, b: Octets)
    requires |m| <= cap
    ensures |ApplyBytes(m, cap, b).0| <= cap
    ensures ApplyBytes(m, cap, b).1 <= 0 ==> ApplyBytes(m, cap, b).0 == m
  {
    if Decode(b).Some? {
      var c := Decode(b).value;
      if !c.Del? { PutSize(m, c.key, c.val); } else if c.key in m { DelSize(m, c.key); }
    }
  }
}
