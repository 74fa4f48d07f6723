/** Bencoding (BEP-3): integers, byte strings, lists and dictionaries as self-delimiting bytes. */
module Bencode {
  import opened Bytes

  const MAX_DEPTH: nat := 32
  const U64: nat := 0x1_0000_0000_0000_0000
  const I64: int := 0x8000_0000_0000_0000

  const ZERO: byte := 48
  const MINUS: byte := 45
  const COLON: byte := 58
  const CH_I: byte := 105
  const CH_L: byte := 108
  const CH_D: byte := 100
  const CH_E: byte := 101

  datatype Value = Int(i: int) | Str(s: seq<byte>) | List(items: seq<Value>) | Dict(fields: seq<Field>)
  datatype Field = Field(key: seq<byte>, val: Value)

  // ---- numbers ----

  predicate IsDigit(c: byte) { ZERO <= c <= ZERO + 9 }

  /** The digit run of the source, read into 64 bits; the overflow test compares with the previous value only. */
  function Scan(b: seq<byte>, v: nat): (r: Option<(nat, nat)>)
    ensures r.Some? ==> r.value.1 <= |b| && (v < U64 ==> r.value.0 < U64)
  {
    if b == [] || !IsDigit(b[0]) then Some((v, 0))
    else
      var nv := (v * 10 + (b[0] - ZERO)) % U64;
      if nv < v then None
      else
        match Scan(b[1..], nv)
        case None => None
        case Some((x, n)) => Some((x, n + 1))
  }

  /** A bounded decimal number at the start of `b`, and how many bytes it takes. */
  function NumIn(b: seq<byte>, allowNeg: bool): (r: Option<(int, nat)>)
    ensures r.Some? ==> 0 < r.value.1 <= |b| && -I64 <= r.value.0 < I64
    ensures r.Some? && !allowNeg ==> r.value.0 >= 0
  {
    var neg := allowNeg && b != [] && b[0] == MINUS;
    var k := if neg then 1 else 0;
    if k >= |b| || !IsDigit(b[k]) then None
    else
      match Scan(b[k..], 0)
      case None => None
      case Some((v, n)) =>
        assert n >= 1;
        var i: int := if neg then 0 - v else v;
        if v > I64 || (v == I64 && !neg) then None else Some((i, n + k))
  }

  // ---- decoding ----

  /** A dictionary key is kept as a C string: it ends at the first zero byte. */
  function CStr(s: seq<byte>): (r: seq<byte>)
    ensures 0 !in r && r <= s
    ensures |r| < |s| ==> s[|r|] == 0
    ensures 0 !in s ==> r == s
  {
    if s == [] || s[0] == 0 then [] else [s[0]] + CStr(s[1..])
  }

  function IntIn(b: seq<byte>): (r: Option<(Value, nat)>)
    requires b != [] && b[0] == CH_I
    ensures r.Some? ==> 0 < r.value.1 <= |b|
  {
    match NumIn(b[1..], true)
    case None => None
    case Some((i, n)) => if 1 + n >= |b| || b[1 + n] != CH_E then None else Some((Int(i), n + 2))
  }

  function StrIn(b: seq<byte>): (r: Option<(seq<byte>, nat)>)
    ensures r.Some? ==> 0 < r.value.1 <= |b|
  {
    match NumIn(b, false)
    case None => None
    case Some((len, n)) =>
      if n >= |b| || b[n] != COLON then None
      else if len > |b| - (n + 1) then None
      else Some((b[n + 1..n + 1 + len], n + 1 + len))
  }

  /** One more element, `n` bytes long, before what follows. */
  function Prepend<T>(x: T, n: nat, r: Option<(seq<T>, nat)>): Option<(seq<T>, nat)> {
    match r
    case None => None
    case Some((xs, m)) => Some(([x] + xs, n + m))
  }

  /** The value at the start of `b` and its length; nothing when it is malformed or nested too deep. */
  function ValueIn(b: seq<byte>, depth: nat): (r: Option<(Value, nat)>)
    ensures r.Some? ==> 0 < r.value.1 <= |b|
    decreases |b|, 0
  {
    if b == [] || depth > MAX_DEPTH then None
    else if b[0] == CH_I then IntIn(b)
    else if IsDigit(b[0]) then
      match StrIn(b)
      case None => None
      case Some((s, n)) => Some((Str(s), n))
    else if b[0] == CH_L then
      match ItemsIn(b[1..], depth)
      case None => None
      case Some((vs, n)) => Some((List(vs), n + 1))
    else if b[0] == CH_D then
      match FieldsIn(b[1..], depth)
      case None => None
      case Some((fs, n)) => Some((Dict(fs), n + 1))
    else None
  }

  /** List items up to and including the closing mark. */
  function ItemsIn(b: seq<byte>, depth: nat): (r: Option<(seq<Value>, nat)>)
    ensures r.Some? ==> 0 < r.value.1 <= |b|
    decreases |b|, 1
  {
    if b == [] then None
    else if b[0] == CH_E then Some(([], 1))
    else
      match ValueIn(b, depth + 1)
      case None => None
      case Some((v, n)) =>
        Prepend(v, n, ItemsIn(b[n..], depth))
  }

  /** Dictionary entries up to and including the closing mark. */
  function FieldsIn(b: seq<byte>, depth: nat): (r: Option<(seq<Field>, nat)>)
    ensures r.Some? ==> 0 < r.value.1 <= |b|
    decreases |b|, 1
  {
    if b == [] then None
    else if b[0] == CH_E then Some(([], 1))
    else
      match StrIn(b)
      case None => None
      case Some((k, n)) =>
        match ValueIn(b[n..], depth + 1)
        case None => None
        case Some((v, m)) =>
          Prepend(Field(CStr(k), v), n + m, FieldsIn(b[n + m..], depth))
  }

  function Decode(b: seq<byte>): (r: Option<(Value, nat)>)
    ensures r.Some? ==> 0 < r.value.1 <= |b|
  {
    ValueIn(b, 0)
  }

  // ---- encoding ----

  function Digits(n: nat): (ds: seq<byte>)
    ensures |ds| > 0 && forall k :: 0 <= k < |ds| ==> IsDigit(ds[k])
  {
    if n < 10 then [ZERO + n] else Digits(n / 10) + [ZERO + n % 10]
  }

  function Decimal(i: int): seq<byte> { if i < 0 then [MINUS] + Digits(-i) else Digits(i) }

  function StrBytes(s: seq<byte>): seq<byte> { Digits(|s|) + [COLON] + s }

  function Encode(v: Value): seq<byte>
    decreases v
  {
    match v
    case Int(i) => [CH_I] + Decimal(i) + [CH_E]
    case Str(s) => StrBytes(s)
    case List(vs) => [CH_L] + ItemsBytes(vs) + [CH_E]
    case Dict(fs) => [CH_D] + FieldsBytes(fs) + [CH_E]
  }

  function ItemsBytes(vs: seq<Value>): seq<byte>
    decreases vs
  {
    if vs == [] then [] else Encode(vs[0]) + ItemsBytes(vs[1..])
  }

  function FieldsBytes(fs: seq<Field>): seq<byte>
    decreases fs
  {
    if fs == [] then [] else StrBytes(fs[0].key) + Encode(fs[0].val) + FieldsBytes(fs[1..])
  }

  // ---- what survives the trip ----

  /** 64-bit integers, lengths below 2^63, zero-free dictionary keys. */
  predicate Sound(v: Value)
    decreases v
  {
    match v
    case Int(i) => -I64 <= i < I64
    case Str(s) => |s| < I64
    case List(vs) => forall k :: 0 <= k < |vs| ==> Sound(vs[k])
    case Dict(fs) => forall k :: 0 <= k < |fs| ==> |fs[k].key| < I64 && 0 !in fs[k].key && Sound(fs[k].val)
  }

  /** A value standing at this depth is nowhere deeper than the limit. */
  predicate Shallow(v: Value, depth: nat)
    decreases v
  {
    && depth <= MAX_DEPTH
    && match v {
         case Int(_) => true
         case Str(_) => true
         case List(vs) => forall k :: 0 <= k < |vs| ==> Shallow(vs[k], depth + 1)
         case Dict(fs) => forall k :: 0 <= k < |fs| ==> Shallow(fs[k].val, depth + 1)
       }
  }

  // ---- numbers read back ----

  function Shift(r: Option<(nat, nat)>, k: nat): Option<(nat, nat)> {
    match r
    case None => None
    case Some((x, n)) => Some((x, n + k))
  }

  lemma ScanNext(d: byte, rest: seq<byte>, v: nat)
    requires IsDigit(d) && v * 10 + (d - ZERO) < U64
    ensures Scan([d] + rest, v) == Shift(Scan(rest, v * 10 + (d - ZERO)), 1)
  {
    assert ([d] + rest)[1..] == rest;
  }

  lemma {:induction false} ScanDigits(n: nat, rest: seq<byte>)
    requires n < U64
    ensures Scan(Digits(n) + rest, 0) == Shift(Scan(rest, n), |Digits(n)|)
    decreases n
  {
    hide Scan;
    var q, d: byte := n / 10, ZERO + n % 10;
    assert n == q * 10 + (d - ZERO);
    if n < 10 {
      ScanNext(d, rest, 0);
    } else {
      ScanDigits(q, [d] + rest);
      assert Digits(n) + rest == Digits(q) + ([d] + rest);
      hide Digits;
      ScanNext(d, rest, q);
    }
  }

  /** A decimal number followed by anything that is not a digit reads back. */
  lemma NumBack(i: int, rest: seq<byte>, allowNeg: bool)
    requires -I64 <= i < I64 && (i >= 0 || allowNeg)
    requires rest != [] && !IsDigit(rest[0])
    ensures NumIn(Decimal(i) + rest, allowNeg) == Some((i, |Decimal(i)|))
  {
    var b := Decimal(i) + rest;
    var m := if i < 0 then -i else i;
    ScanDigits(m, rest);
    if i < 0 {
      assert b[1..] == Digits(m) + rest;
    } else {
      assert b[0..] == b == Digits(m) + rest;
      assert IsDigit(b[0]);
    }
  }

  lemma StrBack(s: seq<byte>, rest: seq<byte>)
    requires |s| < I64
    ensures StrIn(StrBytes(s) + rest) == Some((s, |StrBytes(s)|))
    ensures StrBytes(s) != [] && IsDigit(StrBytes(s)[0])
  {
    var b := StrBytes(s) + rest;
    var n := |Digits(|s|)|;
    assert b == Decimal(|s|) + ([COLON] + s + rest);
    NumBack(|s|, [COLON] + s + rest, false);
    assert b[n] == COLON && b[n + 1..n + 1 + |s|] == s;
  }

  lemma IntBack(i: int, rest: seq<byte>)
    requires -I64 <= i < I64
    ensures IntIn(Encode(Int(i)) + rest) == Some((Int(i), |Encode(Int(i))|))
  {
    var b := Encode(Int(i)) + rest;
    assert b[1..] == Decimal(i) + ([CH_E] + rest);
    NumBack(i, [CH_E] + rest, true);
    assert b[1 + |Decimal(i)|] == CH_E;
  }

  // ---- the round trip ----

  lemma {:induction false} EncodeStarts(v: Value)
    ensures |Encode(v)| > 0 && Encode(v)[0] != CH_E
  {
    match v
    case Str(s) => assert IsDigit(Digits(|s|)[0]);
    case _ =>
  }

  /** Decoding an encoding, at any depth and with anything behind it, takes exactly the encoding and gives
      the value back when no part of it is nested too deep, and fails otherwise. */
  lemma {:induction false} ValueBack(v: Value, rest: seq<byte>, depth: nat)
    requires Sound(v)
    ensures ValueIn(Encode(v) + rest, depth) == if Shallow(v, depth) then Some((v, |Encode(v)|)) else None
    decreases v
  {
    hide ItemsIn, FieldsIn, IntIn, StrIn, ItemsBytes, FieldsBytes;
    var b := Encode(v) + rest;
    match v
    case Int(i) => IntBack(i, rest);
    case Str(s) => StrBack(s, rest);
    case List(vs) =>
      assert b[1..] == ItemsBytes(vs) + ([CH_E] + rest);
      ItemsBack(vs, rest, depth);
    case Dict(fs) =>
      assert b[1..] == FieldsBytes(fs) + ([CH_E] + rest);
      FieldsBack(fs, rest, depth);
  }

  lemma ItemsNext(v: Value, enc: seq<byte>, more: seq<byte>, depth: nat)
    requires enc != [] && enc[0] != CH_E
    ensures ValueIn(enc + more, depth + 1) == None ==> ItemsIn(enc + more, depth) == None
    ensures ValueIn(enc + more, depth + 1) == Some((v, |enc|)) ==> 
      ItemsIn(enc + more, depth) == Prepend(v, |enc|, ItemsIn(more, depth))
  {
    hide ValueIn;
    assert (enc + more)[|enc|..] == more;
  }

  ghost predicate AllShallow(vs: seq<Value>, depth: nat) { forall k :: 0 <= k < |vs| ==> Shallow(vs[k], depth) }
  ghost predicate AllSound(vs: seq<Value>) { forall k :: 0 <= k < |vs| ==> Sound(vs[k]) }

  lemma ShallowCons(vs: seq<Value>, depth: nat)
    requires vs != []
    ensures AllShallow(vs, depth) <==> Shallow(vs[0], depth) && AllShallow(vs[1..], depth)
  {
    hide Shallow;
    if Shallow(vs[0], depth) && AllShallow(vs[1..], depth) {
      forall k | 0 <= k < |vs| ensures Shallow(vs[k], depth) { assert k > 0 ==> vs[k] == vs[1..][k - 1]; }
    }
    if AllShallow(vs, depth) {
      forall k | 0 <= k < |vs| - 1 ensures Shallow(vs[1..][k], depth) { assert vs[1..][k] == vs[k + 1]; }
    }
  }

  lemma ItemsEnd(rest: seq<byte>, depth: nat)
    ensures ItemsBytes([]) + ([CH_E] + rest) == [CH_E] + rest && ItemsIn([CH_E] + rest, depth) == Some(([], 1))
  {
  }

  lemma ItemsCons(vs: seq<Value>, tail: seq<byte>)
    requires vs != []
    ensures ItemsBytes(vs) + tail == Encode(vs[0]) + (ItemsBytes(vs[1..]) + tail)
    ensures |ItemsBytes(vs)| == |Encode(vs[0])| + |ItemsBytes(vs[1..])|
  {
    hide Encode;
  }

  lemma {:induction false} ItemsBack(vs: seq<Value>, rest: seq<byte>, depth: nat)
    requires AllSound(vs)
    ensures ItemsIn(ItemsBytes(vs) + ([CH_E] + rest), depth) ==
      if AllShallow(vs, depth + 1) then Some((vs, |ItemsBytes(vs)| + 1)) else None
    decreases vs
  {
    hide ItemsIn, ValueIn, Shallow, Sound, Encode, ItemsBytes;
    var tail := [CH_E] + rest;
    if vs == [] {
      ItemsEnd(rest, depth);
    } else {
      var more := ItemsBytes(vs[1..]) + tail;
      ItemsCons(vs, tail);
      EncodeStarts(vs[0]);
      ValueBack(vs[0], more, depth + 1);
      ItemsBack(vs[1..], rest, depth);
      ItemsNext(vs[0], Encode(vs[0]), more, depth);
      ShallowCons(vs, depth + 1);
      assert vs == [vs[0]] + vs[1..];
    }
  }

  ghost predicate FieldsShallow(fs: seq<Field>, depth: nat) { forall k :: 0 <= k < |fs| ==> Shallow(fs[k].val, depth) }

  ghost predicate FieldsSound(fs: seq<Field>) {
    forall k :: 0 <= k < |fs| ==> |fs[k].key| < I64 && 0 !in fs[k].key && Sound(fs[k].val)
  }

  lemma FieldsShallowCons(fs: seq<Field>, depth: nat)
    requires fs != []
    ensures FieldsShallow(fs, depth) <==> Shallow(fs[0].val, depth) && FieldsShallow(fs[1..], depth)
  {
    hide Shallow;
    if Shallow(fs[0].val, depth) && FieldsShallow(fs[1..], depth) {
      forall k | 0 <= k < |fs| ensures Shallow(fs[k].val, depth) { assert k > 0 ==> fs[k] == fs[1..][k - 1]; }
    }
    if FieldsShallow(fs, depth) {
      forall k | 0 <= k < |fs| - 1 ensures Shallow(fs[1..][k].val, depth) { assert fs[1..][k] == fs[k + 1]; }
    }
  }

  lemma FieldsNext(f: Field, key: seq<byte>, enc: seq<byte>, more: seq<byte>, depth: nat)
    requires key != [] && key[0] != CH_E && 0 !in f.key
    requires StrIn(key + (enc + more)) == Some((f.key, |key|))
    ensures ValueIn(enc + more, depth + 1) == None ==> FieldsIn(key + (enc + more), depth) == None
    ensures ValueIn(enc + more, depth + 1) == Some((f.val, |enc|)) ==> 
      FieldsIn(key + (enc + more), depth) == Prepend(f, |key| + |enc|, FieldsIn(more, depth))
  {
    hide ValueIn, StrIn;
    var b := key + (enc + more);
    assert b[|key|..] == enc + more && b[|key| + |enc|..] == more;
    assert CStr(f.key) == f.key;
  }

  lemma FieldsEnd(rest: seq<byte>, depth: nat)
    ensures FieldsBytes([]) + ([CH_E] + rest) == [CH_E] + rest && FieldsIn([CH_E] + rest, depth) == Some(([], 1))
  {
  }

  lemma FieldsCons(fs: seq<Field>, tail: seq<byte>)
    requires fs != []
    ensures FieldsBytes(fs) + tail == StrBytes(fs[0].key) + (Encode(fs[0].val) + (FieldsBytes(fs[1..]) + tail))
    ensures |FieldsBytes(fs)| == |StrBytes(fs[0].key)| + |Encode(fs[0].val)| + |FieldsBytes(fs[1..])|
  {
    hide Encode, StrBytes;
  }

  lemma {:induction false} FieldsBack(fs: seq<Field>, rest: seq<byte>, depth: nat)
    requires FieldsSound(fs)
    ensures FieldsIn(FieldsBytes(fs) + ([CH_E] + rest), depth) ==
      if FieldsShallow(fs, depth + 1) then Some((fs, |FieldsBytes(fs)| + 1)) else None
    decreases fs
  {
    hide FieldsIn, ValueIn, StrIn, Shallow, Sound, Encode, StrBytes, FieldsBytes;
    var tail := [CH_E] + rest;
    if fs == [] {
      FieldsEnd(rest, depth);
    } else {
      var key, enc, more := StrBytes(fs[0].key), Encode(fs[0].val), FieldsBytes(fs[1..]) + tail;
      FieldsCons(fs, tail);
      StrBack(fs[0].key, enc + more);
      ValueBack(fs[0].val, more, depth + 1);
      FieldsBack(fs[1..], rest, depth);
      FieldsNext(fs[0], key, enc, more, depth);
      FieldsShallowCons(fs, depth + 1);
      assert fs == [fs[0]] + fs[1..];
    }
  }

  /** Self-delimiting round trip.  Decoding an encoding followed by anything consumes the encoding and
      returns the value exactly when its nesting is within the limit. */
  lemma RoundTrip(v: Value, rest: seq<byte>)
    requires Sound(v)
    ensures Decode(Encode(v) + rest) == Some((v, |Encode(v)|)) <==> Shallow(v, 0)
  {
    ValueBack(v, rest, 0);
  }
}
