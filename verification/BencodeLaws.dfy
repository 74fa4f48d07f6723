/** What follows from the round trip, and how the decoder treats bytes that no encoder wrote. */
module BencodeLaws {
  import opened Bytes
  import opened Bencode

  // ---- whatever decodes can be encoded and decoded again ----

  lemma {:induction false} ValueKept(b: seq<byte>, depth: nat)
    requires ValueIn(b, depth).Some?
    ensures Sound(ValueIn(b, depth).value.0) && Shallow(ValueIn(b, depth).value.0, depth)
    decreases |b|, 0
  {
    hide IntIn, StrIn, ItemsIn, FieldsIn;
    if b[0] == CH_I {
      IntKept(b);
    } else if IsDigit(b[0]) {
      StrKept(b);
    } else if b[0] == CH_L {
      ItemsKept(b[1..], depth);
    } else {
      FieldsKept(b[1..], depth);
    }
  }

  lemma IntKept(b: seq<byte>)
    requires b != [] && b[0] == CH_I && IntIn(b).Some?
    ensures IntIn(b).value.0.Int? && Sound(IntIn(b).value.0)
  {
    hide NumIn;
  }

  lemma StrKept(b: seq<byte>)
    requires StrIn(b).Some?
    ensures |StrIn(b).value.0| < I64
  {
    hide NumIn;
  }

  lemma {:induction false} ItemsKept(b: seq<byte>, depth: nat)
    requires ItemsIn(b, depth).Some?
    ensures AllSound(ItemsIn(b, depth).value.0) && AllShallow(ItemsIn(b, depth).value.0, depth + 1)
    decreases |b|, 1
  {
    hide ValueIn, Sound, Shallow;
    if b[0] != CH_E {
      ValueKept(b, depth + 1);
      ItemsKept(b[ValueIn(b, depth + 1).value.1..], depth);
    }
  }

  lemma {:induction false} FieldsKept(b: seq<byte>, depth: nat)
    requires FieldsIn(b, depth).Some?
    ensures FieldsSound(FieldsIn(b, depth).value.0) && FieldsShallow(FieldsIn(b, depth).value.0, depth + 1)
    decreases |b|, 1
  {
    hide ValueIn, StrIn, Sound, Shallow, CStr;
    if b[0] != CH_E {
      StrKept(b);
      var n := StrIn(b).value.1;
      ValueKept(b[n..], depth + 1);
      FieldsKept(b[n + ValueIn(b[n..], depth + 1).value.1..], depth);
    }
  }

  /** Everything the decoder accepts is a value the encoder carries: decoding again gives the same value. */
  lemma DecodeStable(b: seq<byte>, rest: seq<byte>)
    requires Decode(b).Some?
    ensures var v := Decode(b).value.0; Decode(Encode(v) + rest) == Some((v, |Encode(v)|))
  {
    hide ValueIn, Encode;
    ValueKept(b, 0);
    RoundTrip(Decode(b).value.0, rest);
  }

  /** No encoding is a prefix of another: a stream of values splits in one way only. */
  lemma PrefixFree(v: Value, w: Value, r1: seq<byte>, r2: seq<byte>)
    requires Sound(v) && Sound(w) && Shallow(v, 0) && Shallow(w, 0) && Encode(v) + r1 == Encode(w) + r2
    ensures v == w && r1 == r2
  {
    hide Encode, Decode;
    RoundTrip(v, r1);
    RoundTrip(w, r2);
    assert r1 == (Encode(v) + r1)[|Encode(v)|..];
  }

  // ---- digit runs that need not come from an encoder ----

  /** The number a run of digits denotes, continuing from `acc`. */
  function Denotes(ds: seq<byte>, acc: nat): (v: nat)
    requires AllDigits(ds)
    ensures v >= acc
  {
    if ds == [] then acc else assert IsDigit(ds[0]); Denotes(ds[1..], acc * 10 + (ds[0] - ZERO))
  }

  predicate AllDigits(ds: seq<byte>) { forall k :: 0 <= k < |ds| ==> IsDigit(ds[k]) }
  predicate Stops(rest: seq<byte>) { rest == [] || !IsDigit(rest[0]) }

  /** The 64 low bits. */
  function Low(x: nat): (r: nat)
    ensures r < U64
  {
    x % U64
  }

  lemma LowSmall(x: nat)
    ensures x < U64 <==> Low(x) == x
  {
  }

  lemma ModStep(acc: nat, d: nat)
    ensures (Low(acc) * 10 + d) % U64 == Low(acc * 10 + d)
  {
    var q, m := acc / U64, acc % U64;
    assert acc == q * U64 + m;
    assert acc * 10 + d == (q * 10) * U64 + (m * 10 + d);
    ModAdd(q * 10, m * 10 + d);
  }

  lemma {:induction false} ModAdd(k: nat, x: nat)
    ensures (k * U64 + x) % U64 == x % U64
    decreases k
  {
    if k > 0 {
      ModAdd(k - 1, x);
      assert k * U64 + x == (k - 1) * U64 + x + U64;
    }
  }

  lemma ScanStops(rest: seq<byte>, v: nat)
    requires Stops(rest)
    ensures Scan(rest, v) == Some((v, 0))
  {
  }

  lemma NoDrop(acc: nat, d: nat)
    requires acc * 10 + d < U64
    ensures Low(acc) <= Low(acc * 10 + d)
  {
  }

  /** With the next digit the value modulo 2^64 does not fall. */
  ghost predicate Rises(ds: seq<byte>, acc: nat, k: nat)
    requires AllDigits(ds) && k < |ds|
  {
    Low(Denotes(ds[..k], acc)) <= Low(Denotes(ds[..k + 1], acc))
  }

  /** Reading on, digit by digit, it never falls. */
  ghost predicate NeverDrops(ds: seq<byte>, acc: nat)
    requires AllDigits(ds)
  {
    forall k :: 0 <= k < |ds| ==> Rises(ds, acc, k)
  }

  lemma DenotesTail(ds: seq<byte>, acc: nat, k: nat)
    requires AllDigits(ds) && k < |ds|
    ensures IsDigit(ds[0]) && AllDigits(ds[1..]) && AllDigits(ds[..k + 1])
    ensures Denotes(ds[..k + 1], acc) == Denotes(ds[1..][..k], acc * 10 + (ds[0] - ZERO))
  {
    assert IsDigit(ds[0]);
    assert ds[..k + 1][1..] == ds[1..][..k];
  }

  lemma RisesFirst(ds: seq<byte>, acc: nat)
    requires AllDigits(ds) && ds != []
    ensures IsDigit(ds[0]) && (Rises(ds, acc, 0) <==> Low(acc) <= Low(acc * 10 + (ds[0] - ZERO)))
  {
    DenotesTail(ds, acc, 0);
    assert ds[..0] == [] && ds[1..][..0] == [];
  }

  lemma RisesLater(ds: seq<byte>, acc: nat, k: nat)
    requires AllDigits(ds) && k + 1 < |ds|
    ensures IsDigit(ds[0]) && AllDigits(ds[1..])
    ensures Rises(ds, acc, k + 1) <==> Rises(ds[1..], acc * 10 + (ds[0] - ZERO), k)
  {
    DenotesTail(ds, acc, k);
    DenotesTail(ds, acc, k + 1);
    hide Denotes, Low;
  }

  /** The first digit, and then the rest. */
  lemma DropsUnfold(ds: seq<byte>, acc: nat)
    requires AllDigits(ds) && ds != []
    ensures IsDigit(ds[0]) && AllDigits(ds[1..])
    ensures var next := acc * 10 + (ds[0] - ZERO);
      NeverDrops(ds, acc) <==> Low(acc) <= Low(next) && NeverDrops(ds[1..], next)
  {
    hide Rises, Low;
    RisesFirst(ds, acc);
    var more, next := ds[1..], acc * 10 + (ds[0] - ZERO);
    if NeverDrops(ds, acc) {
      assert Rises(ds, acc, 0);
      forall k | 0 <= k < |more| ensures Rises(more, next, k) {
        RisesLater(ds, acc, k);
        assert Rises(ds, acc, k + 1);
      }
    }
    if Low(acc) <= Low(next) && NeverDrops(more, next) {
      forall k | 0 <= k < |ds| ensures Rises(ds, acc, k) {
        if k > 0 {
          RisesLater(ds, acc, k - 1);
          assert Rises(more, next, k - 1);
        }
      }
    }
  }

  /** A run is read modulo 2^64, and refused by the overflow test exactly when the value modulo 2^64 falls. */
  lemma {:induction false} ScanMod(ds: seq<byte>, rest: seq<byte>, acc: nat)
    requires AllDigits(ds) && Stops(rest)
    ensures Scan(ds + rest, Low(acc)) == if NeverDrops(ds, acc) then Some((Low(Denotes(ds, acc)), |ds|)) else None
  {
    hide Scan;
    if ds == [] {
      assert ds + rest == rest;
      ScanStops(rest, Low(acc));
    } else {
      DropsUnfold(ds, acc);
      var d, more := ds[0] - ZERO, ds[1..];
      var next := acc * 10 + d;
      assert Denotes(ds, acc) == Denotes(more, next);
      hide Denotes, NeverDrops;
      ModStep(acc, d);
      ScanMod(more, rest, next);
      ScanOne(ds[0], more + rest, Low(acc));
      assert ds + rest == [ds[0]] + (more + rest);
    }
  }

  /** Below 2^64 it never falls. */
  lemma {:induction false} SmallNeverDrops(ds: seq<byte>, acc: nat)
    requires AllDigits(ds) && Denotes(ds, acc) < U64
    ensures NeverDrops(ds, acc)
  {
    if ds != [] {
      DropsUnfold(ds, acc);
      NoDrop(acc, ds[0] - ZERO);
      SmallNeverDrops(ds[1..], acc * 10 + (ds[0] - ZERO));
    }
  }

  lemma ScanOne(c: byte, rest: seq<byte>, v: nat)
    requires IsDigit(c)
    ensures var nv := (v * 10 + (c - ZERO)) % U64;
      Scan([c] + rest, v) == if nv < v then None else Shift(Scan(rest, nv), 1)
  {
    assert ([c] + rest)[1..] == rest;
  }

  /** One past the largest magnitude that fits: 2^63 for a number, one more behind a minus sign. */
  function Limit(neg: bool): int { if neg then I64 + 1 else I64 }

  function Signed(v: nat, neg: bool): int { if neg then 0 - v else v }

  function Sign(neg: bool): seq<byte> { if neg then [MINUS] else [] }

  lemma SignParts(ds: seq<byte>, rest: seq<byte>, neg: bool)
    requires ds != [] && AllDigits(ds)
    ensures var b, k := Sign(neg) + ds + rest, |Sign(neg)|;
      k < |b| && IsDigit(b[k]) && b[k..] == ds + rest && (neg ==> b[0] == MINUS) && (!neg ==> b[0] != MINUS)
  {
    var b, k := Sign(neg) + ds + rest, |Sign(neg)|;
    assert IsDigit(ds[0]) && b[k] == ds[0];
    assert b[k..] == ds + rest;
  }

  /** Exactly what is made of a run of digits, signed or not: it is accepted if and only if its value modulo 2^64
      never falls on the way and ends below the limit, and it is read as that value. */
  lemma NumberExact(ds: seq<byte>, rest: seq<byte>, neg: bool, allowNeg: bool)
    requires ds != [] && AllDigits(ds) && Stops(rest) && (neg ==> allowNeg)
    ensures var v := Low(Denotes(ds, 0));
      NumIn(Sign(neg) + ds + rest, allowNeg) ==
        if NeverDrops(ds, 0) && v < Limit(neg) then Some((Signed(v, neg), |Sign(neg)| + |ds|)) else None
  {
    LowSmall(0);
    SignParts(ds, rest, neg);
    ScanMod(ds, rest, 0);
    hide Scan, Denotes, NeverDrops, Low, AllDigits;
  }

  /** What a correct reader would make of the run. */
  function Intended(v: nat, neg: bool, len: nat): Option<(int, nat)> {
    if v < Limit(neg) then Some((Signed(v, neg), len)) else None
  }

  /** Overflow is handled correctly if and only if the run is below 2^64, or its value modulo 2^64 falls somewhere
      on the way, or ends at or above the limit. */
  lemma OverflowExact(ds: seq<byte>, rest: seq<byte>, neg: bool, allowNeg: bool)
    requires ds != [] && AllDigits(ds) && Stops(rest) && (neg ==> allowNeg)
    ensures var v := Denotes(ds, 0);
      NumIn(Sign(neg) + ds + rest, allowNeg) == Intended(v, neg, |Sign(neg)| + |ds|) <==>
        v < U64 || !NeverDrops(ds, 0) || Low(v) >= Limit(neg)
  {
    hide NumIn, Denotes, NeverDrops, Low;
    NumberExact(ds, rest, neg, allowNeg);
    var v := Denotes(ds, 0);
    LowSmall(v);
    if v < U64 { SmallNeverDrops(ds, 0); }
  }

  lemma {:induction false} DenotesSnoc(ds: seq<byte>, d: byte, acc: nat)
    requires AllDigits(ds) && IsDigit(d)
    ensures AllDigits(ds + [d]) && Denotes(ds + [d], acc) == Denotes(ds, acc) * 10 + (d - ZERO)
  {
    if ds == [] {
      assert ds + [d] == [d];
    } else {
      assert IsDigit(ds[0]);
      assert (ds + [d])[1..] == ds[1..] + [d];
      DenotesSnoc(ds[1..], d, acc * 10 + (ds[0] - ZERO));
    }
  }

  lemma {:induction false} DigitsDenote(n: nat)
    ensures AllDigits(Digits(n)) && Denotes(Digits(n), 0) == n
  {
    if n >= 10 {
      DigitsDenote(n / 10);
      DenotesSnoc(Digits(n / 10), ZERO + n % 10, 0);
    } else {
      assert Digits(n)[1..] == [];
    }
  }

  /** One digit past the last that fits, read with the wrap the overflow test misses. */
  lemma WrapScans(n: nat, rest: seq<byte>)
    requires n < U64 && (n * 10) % U64 >= n && Stops(rest)
    ensures Scan(Digits(n) + [ZERO] + rest, 0) == Some(((n * 10) % U64, |Digits(n)| + 1))
  {
    hide Digits, Scan;
    ScanDigits(n, [ZERO] + rest);
    ScanOne(ZERO, rest, n);
    ScanStops(rest, (n * 10) % U64);
    assert Digits(n) + [ZERO] + rest == Digits(n) + ([ZERO] + rest);
  }

  /** A number past 2^64 that the overflow test misses: 21 followed by eighteen zeros is accepted, as another number. */
  lemma WrapIsAccepted(rest: seq<byte>)
    requires Stops(rest)
    ensures var ds := Digits(2_100_000_000_000_000_000) + [ZERO];
      && AllDigits(ds) && Denotes(ds, 0) == 21_000_000_000_000_000_000
      && NumIn(ds + rest, false) == Some((2_553_255_926_290_448_384, |ds|))
  {
    hide Digits, Scan, Denotes;
    var n := 2_100_000_000_000_000_000;
    var ds := Digits(n) + [ZERO];
    DigitsDenote(n);
    DenotesSnoc(Digits(n), ZERO, 0);
    WrapScans(n, rest);
    assert (ds + rest)[0..] == ds + rest && IsDigit((ds + rest)[0]);
  }

  /** The number a run of digits is read as, when it is. */
  ghost function ReadAs(ds: seq<byte>, neg: bool): Option<int>
    requires AllDigits(ds)
  {
    if NeverDrops(ds, 0) && Low(Denotes(ds, 0)) < Limit(neg) then Some(Signed(Low(Denotes(ds, 0)), neg)) else None
  }

  /** An integer: the mark, an optional sign, digits with leading zeros or not, and the closing mark directly behind
      them; nothing else. */
  lemma IntExact(ds: seq<byte>, neg: bool, rest: seq<byte>)
    requires ds != [] && AllDigits(ds) && Stops(rest)
    ensures IntIn([CH_I] + Sign(neg) + ds + rest) ==
      if ReadAs(ds, neg).Some? && rest != [] && rest[0] == CH_E
      then Some((Int(ReadAs(ds, neg).value), |Sign(neg)| + |ds| + 2)) else None
  {
    var body := Sign(neg) + ds + rest;
    var b := [CH_I] + Sign(neg) + ds + rest;
    assert b[1..] == body;
    NumberExact(ds, rest, neg, true);
    hide NumIn, NeverDrops, Denotes, Low, AllDigits;
    assert rest != [] ==> b[1 + |Sign(neg)| + |ds|] == rest[0];
  }

  /** A byte string: digits, a colon, and as many bytes as they say, all of which must be there. */
  lemma StrExact(ds: seq<byte>, rest: seq<byte>)
    requires ds != [] && AllDigits(ds) && Stops(rest)
    ensures var len := ReadAs(ds, false);
      StrIn(ds + rest) ==
        if len.Some? && rest != [] && rest[0] == COLON && len.value <= |rest| - 1
        then Some((rest[1..1 + len.value], |ds| + 1 + len.value)) else None
  {
    assert Sign(false) + ds + rest == ds + rest;
    NumberExact(ds, rest, false, false);
    var b, len := ds + rest, ReadAs(ds, false);
    hide NumIn, NeverDrops, Denotes, Low, AllDigits;
    if len.Some? && rest != [] && len.value <= |rest| - 1 {
      assert b[|ds| + 1..|ds| + 1 + len.value] == rest[1..1 + len.value];
    }
  }
}
