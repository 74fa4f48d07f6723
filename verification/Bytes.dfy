/** Octets and the big-endian integers that the wire formats are made of. */
module Bytes {
  type byte = x: int | 0 <= x < 256

  datatype Option<+T> = None | Some(value: T)

  function Pow256(n: nat): (p: nat)
    ensures p >= 1
  {
    if n == 0 then 1 else 256 * Pow256(n - 1)
  }

  /** The `n` low-order octets of `v`, most significant first. */
  function Be(v: nat, n: nat): (b: seq<byte>)
    ensures |b| == n
  {
    if n == 0 then [] else Be(v / 256, n - 1) + [v % 256]
  }

  /** The number that big-endian octets denote. */
  function UnBe(b: seq<byte>): (v: nat)
    ensures v < Pow256(|b|)
  {
    if b == [] then 0 else UnBe(b[..|b| - 1]) * 256 + b[|b| - 1]
  }

  lemma {:induction false} UnBeBe(v: nat, n: nat)
    requires v < Pow256(n)
    ensures UnBe(Be(v, n)) == v
  {
    if n > 0 {
      UnBeBe(v / 256, n - 1);
      assert Be(v, n)[..n - 1] == Be(v / 256, n - 1);
    }
  }

  lemma {:induction false} BeUnBe(b: seq<byte>)
    ensures Be(UnBe(b), |b|) == b
  {
    if b != [] {
      var hi, lo := b[..|b| - 1], b[|b| - 1];
      BeUnBe(hi);
      SplitLow(UnBe(hi), lo);
      assert b == hi + [lo];
    }
  }

  lemma SplitLow(hi: nat, lo: byte)
    ensures (hi * 256 + lo) / 256 == hi && (hi * 256 + lo) % 256 == lo
  {
  }

  lemma Pow256Values()
    ensures Pow256(1) == 0x100 && Pow256(2) == 0x1_0000 && Pow256(4) == 0x1_0000_0000
    ensures Pow256(8) == 0x1_0000_0000_0000_0000
  {
    assert Pow256(3) == 256 * Pow256(2);
    assert Pow256(5) == 256 * Pow256(4);
    assert Pow256(6) == 256 * Pow256(5);
    assert Pow256(7) == 256 * Pow256(6);
  }

  /** Read an `n`-octet number at an offset. */
  function GetBe(b: seq<byte>, o: nat, n: nat): nat
    requires o + n <= |b|
  {
    UnBe(b[o..o + n])
  }

  /** A number written by `Be` is read back, wherever it stands. */
  lemma GetBeAt(b: seq<byte>, o: nat, n: nat, v: nat)
    requires o + n <= |b| && v < Pow256(n) && b[o..o + n] == Be(v, n)
    ensures GetBe(b, o, n) == v
  {
    UnBeBe(v, n);
  }

  /** Write the `n` octets of `v` at an offset, as a shift per octet. */
  method PutBe(buf: array<byte>, o: nat, v: nat, n: nat)
    requires o + n <= buf.Length && v < Pow256(n)
    modifies buf
    ensures buf[o..o + n] == Be(v, n)
    ensures buf[..o] == old(buf[..o]) && buf[o + n..] == old(buf[o + n..])
  {
    var i: nat := n;
    var rest: nat := v;
    while i > 0
      invariant 0 <= i <= n && rest < Pow256(i)
      invariant Be(v, n) == Be(rest, i) + buf[o + i..o + n]
      invariant buf[..o] == old(buf[..o]) && buf[o + n..] == old(buf[o + n..])
    {
      i := i - 1;
      ghost var tail := buf[o + i + 1..o + n];
      buf[o + i] := rest % 256;
      assert buf[o + i..o + n] == [rest % 256] + tail;
      assert Be(rest, i + 1) + tail == Be(rest / 256, i) + ([rest % 256] + tail);
      rest := rest / 256;
    }
    assert buf[o..o + n] == Be(v, n);
  }

  /** Read `n` octets at an offset by shifting them in. */
  method ReadBe(buf: seq<byte>, o: nat, n: nat) returns (v: nat)
    requires o + n <= |buf|
    ensures v == GetBe(buf, o, n)
  {
    v := 0;
    for i := 0 to n
      invariant v == UnBe(buf[o..o + i])
    {
      assert buf[o..o + i + 1][..i] == buf[o..o + i];
      v := v * 256 + buf[o + i];
    }
  }

  /** Copy a string of octets into a buffer. */
  method PutBytes(buf: array<byte>, o: nat, data: seq<byte>)
    requires o + |data| <= buf.Length
    modifies buf
    ensures buf[o..o + |data|] == data
    ensures buf[..o] == old(buf[..o]) && buf[o + |data|..] == old(buf[o + |data|..])
  {
    for i := 0 to |data|
      invariant buf[o..o + i] == data[..i]
      invariant buf[..o] == old(buf[..o]) && buf[o + |data|..] == old(buf[o + |data|..])
    {
      buf[o + i] := data[i];
      assert buf[o..o + i + 1] == buf[o..o + i] + [data[i]];
    }
  }
}
