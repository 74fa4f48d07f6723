/** The codec in place: a decoder that moves a cursor over the bytes, an encoder that fills a growing buffer. */
module BencodeCodec {
  import opened Bytes
  import opened Bencode

  /** A read from `pos` agrees with what the bytes from there on hold; on failure the cursor stays. */
  ghost predicate Read<T>(held: Option<(T, nat)>, r: Option<T>, pos: nat, end: nat) {
    match held
    case None => r == None && end == pos
    case Some((x, n)) => r == Some(x) && end == pos + n
  }

  lemma ScanMove(data: seq<byte>, start: nat, i: nat, v: nat)
    requires start <= i < |data| && IsDigit(data[i]) && Scan(data[start..], 0) == Shift(Scan(data[i..], v), i - start)
    ensures var nv := (v * 10 + (data[i] - ZERO)) % U64;
      Scan(data[start..], 0) == if nv < v then None else Shift(Scan(data[i + 1..], nv), i + 1 - start)
  {
    assert data[i..][1..] == data[i + 1..];
  }

  /** Read a number without looking past the end. */
  method ParseInt(data: seq<byte>, pos: nat, allowNeg: bool) returns (r: Option<int>, end: nat)
    requires pos <= |data|
    ensures Read(NumIn(data[pos..], allowNeg), r, pos, end)
  {
    hide Scan;
    var i := pos;
    var neg := false;
    if allowNeg && i < |data| && data[i] == MINUS {
      neg := true;
      i := i + 1;
    }
    if i >= |data| || !IsDigit(data[i]) { return None, pos; }
    var start := i;
    assert data[pos..][start - pos..] == data[start..];
    var v: nat := 0;
    while i < |data| && IsDigit(data[i])
      invariant start <= i <= |data| && v < U64
      invariant Scan(data[start..], 0) == Shift(Scan(data[i..], v), i - start)
    {
      ScanMove(data, start, i, v);
      var nv := (v * 10 + (data[i] - ZERO)) % U64;
      if nv < v { return None, pos; }
      v := nv;
      i := i + 1;
    }
    ScanEnd(data[i..], v);
    if v > I64 || (v == I64 && !neg) { return None, pos; }
    r := Some(if neg then 0 - v else v);
    end := i;
  }

  lemma ScanEnd(b: seq<byte>, v: nat)
    requires b == [] || !IsDigit(b[0])
    ensures Scan(b, v) == Some((v, 0))
  {
  }

  method DecodeInt(data: seq<byte>, pos: nat) returns (r: Option<Value>, end: nat)
    requires pos < |data| && data[pos] == CH_I
    ensures Read(IntIn(data[pos..]), r, pos, end)
  {
    hide NumIn;
    assert data[pos..][1..] == data[pos + 1..];
    var i, p := ParseInt(data, pos + 1, true);
    if i.None? { return None, pos; }
    if p >= |data| || data[p] != CH_E { return None, pos; }
    return Some(Int(i.value)), p + 1;
  }

  method DecodeString(data: seq<byte>, pos: nat) returns (r: Option<seq<byte>>, end: nat)
    requires pos <= |data|
    ensures Read(StrIn(data[pos..]), r, pos, end)
  {
    hide NumIn;
    var len, p := ParseInt(data, pos, false);
    if len.None? { return None, pos; }
    if p >= |data| || data[p] != COLON { return None, pos; }
    var start := p + 1;
    if len.value > |data| - start { return None, pos; }
    assert data[pos..][start - pos..start - pos + len.value] == data[start..start + len.value];
    return Some(data[start..start + len.value]), start + len.value;
  }

  /** `xs`, read from the first `n` bytes, before whatever the rest holds. */
  ghost function Joined<T>(xs: seq<T>, n: nat, r: Option<(seq<T>, nat)>): Option<(seq<T>, nat)> {
    match r
    case None => None
    case Some((ys, m)) => Some((xs + ys, n + m))
  }

  lemma JoinedNone<T>(r: Option<(seq<T>, nat)>)
    ensures Joined([], 0, r) == r
  {
    if r.Some? { assert [] + r.value.0 == r.value.0; }
  }

  lemma JoinedPrepend<T>(xs: seq<T>, n: nat, x: T, k: nat, r: Option<(seq<T>, nat)>)
    ensures Joined(xs, n, Prepend(x, k, r)) == Joined(xs + [x], n + k, r)
  {
    if r.Some? { assert xs + ([x] + r.value.0) == xs + [x] + r.value.0; }
  }

  lemma ItemsStep(data: seq<byte>, p: nat, depth: nat)
    requires p < |data| && data[p] != CH_E
    ensures match ValueIn(data[p..], depth + 1)
      case None => ItemsIn(data[p..], depth) == None
      case Some((v, n)) => p + n <= |data| && ItemsIn(data[p..], depth) == Prepend(v, n, ItemsIn(data[p + n..], depth))
  {
    hide ValueIn;
    var held := ValueIn(data[p..], depth + 1);
    if held.Some? { assert data[p..][held.value.1..] == data[p + held.value.1..]; }
  }

  lemma ItemsDone(data: seq<byte>, p: nat, depth: nat)
    requires p <= |data| && (p == |data| || data[p] == CH_E)
    ensures ItemsIn(data[p..], depth) == if p == |data| then None else Some(([], 1))
  {
  }

  method DecodeList(data: seq<byte>, pos: nat, depth: nat) returns (r: Option<seq<Value>>, end: nat)
    requires pos < |data| && data[pos] == CH_L
    ensures match ItemsIn(data[pos + 1..], depth)
      case None => r == None
      case Some((vs, n)) => r == Some(vs) && end == pos + 1 + n
    decreases |data| - pos, 0
  {
    hide ItemsIn, ValueIn, Prepend, Joined;
    var p := pos + 1;
    var items: seq<Value> := [];
    ghost var held := ItemsIn(data[pos + 1..], depth);
    JoinedNone(held);
    while p < |data| && data[p] != CH_E
      invariant pos + 1 <= p <= |data|
      invariant held == Joined(items, p - pos - 1, ItemsIn(data[p..], depth))
    {
      ItemsStep(data, p, depth);
      var item, q := DecodeDepth(data, p, depth + 1);
      if item.None? {
        assert held == None by { JoinedFails(items, p - pos - 1); }
        return None, pos;
      }
      JoinedPrepend(items, p - pos - 1, item.value, q - p, ItemsIn(data[q..], depth));
      items := items + [item.value];
      p := q;
    }
    ItemsDone(data, p, depth);
    JoinedEnds(items, p - pos - 1);
    if p >= |data| { return None, pos; }
    return Some(items), p + 1;
  }

  lemma JoinedFails<T>(xs: seq<T>, n: nat)
    ensures Joined(xs, n, None) == None
  {
  }

  lemma JoinedEnds<T>(xs: seq<T>, n: nat)
    ensures Joined(xs, n, Some(([], 1))) == Some((xs, n + 1)) && Joined(xs, n, None) == None
  {
    assert xs + [] == xs;
  }

  lemma FieldsStep(data: seq<byte>, p: nat, depth: nat)
    requires p < |data| && data[p] != CH_E
    ensures match StrIn(data[p..])
      case None => FieldsIn(data[p..], depth) == None
      case Some((k, n)) =>
        p + n <= |data| &&
        match ValueIn(data[p + n..], depth + 1)
        case None => FieldsIn(data[p..], depth) == None
        case Some((v, m)) =>
          && p + n + m <= |data|
          && FieldsIn(data[p..], depth) == Prepend(Field(CStr(k), v), n + m, FieldsIn(data[p + n + m..], depth))
  {
    hide ValueIn, StrIn;
    var key := StrIn(data[p..]);
    if key.Some? {
      var n := key.value.1;
      assert data[p..][n..] == data[p + n..];
      var val := ValueIn(data[p + n..], depth + 1);
      if val.Some? { assert data[p..][n + val.value.1..] == data[p + n + val.value.1..]; }
    }
  }

  lemma FieldsDone(data: seq<byte>, p: nat, depth: nat)
    requires p <= |data| && (p == |data| || data[p] == CH_E)
    ensures FieldsIn(data[p..], depth) == if p == |data| then None else Some(([], 1))
  {
  }

  method DecodeDict(data: seq<byte>, pos: nat, depth: nat) returns (r: Option<seq<Field>>, end: nat)
    requires pos < |data| && data[pos] == CH_D
    ensures match FieldsIn(data[pos + 1..], depth)
      case None => r == None
      case Some((fs, n)) => r == Some(fs) && end == pos + 1 + n
    decreases |data| - pos, 0
  {
    hide FieldsIn, ValueIn, StrIn, Prepend, Joined, CStr;
    var p := pos + 1;
    var fields: seq<Field> := [];
    ghost var held := FieldsIn(data[pos + 1..], depth);
    JoinedNone(held);
    while p < |data| && data[p] != CH_E
      invariant pos + 1 <= p <= |data|
      invariant held == Joined(fields, p - pos - 1, FieldsIn(data[p..], depth))
    {
      FieldsStep(data, p, depth);
      JoinedFails(fields, p - pos - 1);
      var key, k := DecodeString(data, p);
      if key.None? { return None, pos; }
      var val, q := DecodeDepth(data, k, depth + 1);
      if val.None? { return None, pos; }
      JoinedPrepend(fields, p - pos - 1, Field(CStr(key.value), val.value), q - p, FieldsIn(data[q..], depth));
      fields := fields + [Field(CStr(key.value), val.value)];
      p := q;
    }
    FieldsDone(data, p, depth);
    JoinedEnds(fields, p - pos - 1);
    if p >= |data| { return None, pos; }
    return Some(fields), p + 1;
  }

  /** Decode the value at the cursor; the cursor moves past it on success and stays otherwise. */
  method DecodeDepth(data: seq<byte>, pos: nat, depth: nat) returns (r: Option<Value>, end: nat)
    requires pos <= |data|
    ensures Read(ValueIn(data[pos..], depth), r, pos, end)
    ensures pos <= end <= |data|
    decreases |data| - pos, 1
  {
    hide IntIn, StrIn, ItemsIn, FieldsIn;
    if pos >= |data| || depth > MAX_DEPTH { return None, pos; }
    var c := data[pos];
    r, end := None, pos;
    assert data[pos..][1..] == data[pos + 1..];
    if c == CH_I {
      r, end := DecodeInt(data, pos);
    } else if IsDigit(c) {
      var s, q := DecodeString(data, pos);
      if s.Some? { r, end := Some(Str(s.value)), q; }
    } else if c == CH_L {
      var items, q := DecodeList(data, pos, depth);
      if items.Some? { r, end := Some(List(items.value)), q; }
    } else if c == CH_D {
      var fields, q := DecodeDict(data, pos, depth);
      if fields.Some? { r, end := Some(Dict(fields.value)), q; }
    }
  }

  // ---- encoding ----

  class OutBuf {
    var buf: array<byte>

    constructor ()
      ensures fresh(buf)
    {
      buf := new byte[1024](_ => 0);
    }

    /** Make room for `needed` bytes, keeping what is there. */
    method Reserve(needed: nat)
      modifies this
      ensures needed <= buf.Length && old(buf.Length) <= buf.Length && buf[..old(buf.Length)] == old(buf[..])
      ensures buf == old(buf) || fresh(buf)
    {
      if needed > buf.Length {
        var bigger := new byte[needed * 2](_ => 0);
        for i := 0 to buf.Length
          invariant buf == old(buf) && buf[..] == old(buf[..])
          invariant bigger[..i] == buf[..i]
        {
          bigger[i] := buf[i];
        }
        buf := bigger;
      }
    }

    /** Append bytes behind the first `pos`. */
    method Put(pos: nat, bytes: seq<byte>) returns (end: nat)
      requires pos <= buf.Length
      modifies this, buf
      ensures end == pos + |bytes| <= buf.Length && buf[..end] == old(buf[..pos]) + bytes
      ensures buf == old(buf) || fresh(buf)
    {
      Reserve(pos + |bytes|);
      assert buf[..pos] == old(buf[..pos]);
      PutBytes(buf, pos, bytes);
      end := pos + |bytes|;
      assert buf[..end] == buf[..pos] + buf[pos..end];
    }

    method PutString(pos: nat, s: seq<byte>) returns (end: nat)
      requires pos <= buf.Length
      modifies this, buf
      ensures end == pos + |StrBytes(s)| <= buf.Length && buf[..end] == old(buf[..pos]) + StrBytes(s)
      ensures buf == old(buf) || fresh(buf)
    {
      end := Put(pos, Digits(|s|) + [COLON]);
      end := Put(end, s);
    }

    method PutItems(pos: nat, vs: seq<Value>) returns (end: nat)
      requires pos <= buf.Length
      modifies this, buf
      ensures end == pos + |ItemsBytes(vs)| <= buf.Length && buf[..end] == old(buf[..pos]) + ItemsBytes(vs)
      ensures buf == old(buf) || fresh(buf)
      decreases vs, 0
    {
      hide Encode, ItemsBytes;
      end := pos;
      for i := 0 to |vs|
        invariant pos <= end <= buf.Length && (buf == old(buf) || fresh(buf))
        invariant old(buf[..pos]) + ItemsBytes(vs) == buf[..end] + ItemsBytes(vs[i..])
      {
        ItemsFrom(vs, i);
        end := PutValue(end, vs[i]);
      }
      ItemsEmpty();
      assert vs[|vs|..] == [];
      assert buf[..end] == old(buf[..pos]) + ItemsBytes(vs);
    }

    method PutFields(pos: nat, fs: seq<Field>) returns (end: nat)
      requires pos <= buf.Length
      modifies this, buf
      ensures end == pos + |FieldsBytes(fs)| <= buf.Length && buf[..end] == old(buf[..pos]) + FieldsBytes(fs)
      ensures buf == old(buf) || fresh(buf)
      decreases fs, 0
    {
      hide Encode, FieldsBytes, StrBytes;
      end := pos;
      for i := 0 to |fs|
        invariant pos <= end <= buf.Length && (buf == old(buf) || fresh(buf))
        invariant old(buf[..pos]) + FieldsBytes(fs) == buf[..end] + FieldsBytes(fs[i..])
      {
        FieldsFrom(fs, i);
        end := PutString(end, fs[i].key);
        end := PutValue(end, fs[i].val);
      }
      FieldsEmpty();
      assert fs[|fs|..] == [];
      assert buf[..end] == old(buf[..pos]) + FieldsBytes(fs);
    }

    /** Append the encoding of a value behind the first `pos` bytes. */
    method PutValue(pos: nat, v: Value) returns (end: nat)
      requires pos <= buf.Length
      modifies this, buf
      ensures end == pos + |Encode(v)| <= buf.Length && buf[..end] == old(buf[..pos]) + Encode(v)
      ensures buf == old(buf) || fresh(buf)
      decreases v, 1
    {
      hide ItemsBytes, FieldsBytes, StrBytes;
      match v
      case Int(i) =>
        end := Put(pos, [CH_I] + Decimal(i) + [CH_E]);
      case Str(s) =>
        end := PutString(pos, s);
      case List(vs) =>
        end := Put(pos, [CH_L]);
        end := PutItems(end, vs);
        end := Put(end, [CH_E]);
      case Dict(fs) =>
        end := Put(pos, [CH_D]);
        end := PutFields(end, fs);
        end := Put(end, [CH_E]);
    }
  }

  lemma ItemsFrom(vs: seq<Value>, i: nat)
    requires i < |vs|
    ensures ItemsBytes(vs[i..]) == Encode(vs[i]) + ItemsBytes(vs[i + 1..])
  {
    assert vs[i..][1..] == vs[i + 1..];
    hide Encode;
  }

  lemma ItemsEmpty()
    ensures ItemsBytes([]) == []
  {
  }

  lemma FieldsFrom(fs: seq<Field>, i: nat)
    requires i < |fs|
    ensures FieldsBytes(fs[i..]) == StrBytes(fs[i].key) + Encode(fs[i].val) + FieldsBytes(fs[i + 1..])
  {
    assert fs[i..][1..] == fs[i + 1..];
    hide Encode, StrBytes;
  }

  lemma FieldsEmpty()
    ensures FieldsBytes([]) == []
  {
  }
}
