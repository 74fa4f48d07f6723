/** Length-prefixed frames over a byte stream, and the bounded reassembler that cuts them out again. */
module Framer {
  import opened Bytes

  const FRAME_MAX: nat := 8192
  const CAP: nat := FRAME_MAX + 4

  function FrameBytes(p: seq<byte>): seq<byte> { Be(|p|, 4) + p }

  function StreamBytes(ps: seq<seq<byte>>): seq<byte> {
    if ps == [] then [] else FrameBytes(ps[0]) + StreamBytes(ps[1..])
  }

  ghost predicate Legal(ps: seq<seq<byte>>) { forall k :: 0 <= k < |ps| ==> |ps[k]| <= FRAME_MAX }

  /** What the unread bytes hold next. */
  datatype Next = Wait | Violation | Ready(payload: seq<byte>)

  function NextOf(u: seq<byte>): (r: Next)
    ensures r.Ready? ==> 4 + |r.payload| <= |u| && |r.payload| <= FRAME_MAX
  {
    if |u| < 4 then Wait
    else
      var body := GetBe(u, 0, 4);
      if body > FRAME_MAX then Violation
      else if |u| < 4 + body then Wait
      else Ready(u[4..4 + body])
  }

  function After(u: seq<byte>): seq<byte>
    requires NextOf(u).Ready?
  {
    u[4 + |NextOf(u).payload|..]
  }

  /** All the frames at the front of a string of bytes, and what is left. */
  function Drain(u: seq<byte>): (r: (seq<seq<byte>>, seq<byte>))
    decreases |u|
  {
    if !NextOf(u).Ready? then ([], u)
    else
      var d := Drain(After(u));
      ([NextOf(u).payload] + d.0, d.1)
  }

  lemma DrainNext(u: seq<byte>)
    ensures Drain(u) ==
      if NextOf(u).Ready? then ([NextOf(u).payload] + Drain(After(u)).0, Drain(After(u)).1) else ([], u)
  {
    hide NextOf;
  }

  // ---- frames of a string of bytes ----

  lemma FrameBack(p: seq<byte>, rest: seq<byte>)
    requires |p| <= FRAME_MAX
    ensures NextOf(FrameBytes(p) + rest) == Ready(p) && After(FrameBytes(p) + rest) == rest
  {
    var u := FrameBytes(p) + rest;
    Pow256Values();
    assert u[0..4] == Be(|p|, 4);
    GetBeAt(u, 0, 4, |p|);
    assert u[4..4 + |p|] == p && u[4 + |p|..] == rest;
  }

  lemma StreamCons(ps: seq<seq<byte>>, rest: seq<byte>)
    requires ps != []
    ensures StreamBytes(ps) + rest == FrameBytes(ps[0]) + (StreamBytes(ps[1..]) + rest)
  {
    hide FrameBytes;
  }

  /** A stream of encoded frames drains to those frames. */
  lemma {:induction false} DrainStream(ps: seq<seq<byte>>, rest: seq<byte>)
    requires Legal(ps)
    ensures Drain(StreamBytes(ps) + rest) == (ps + Drain(rest).0, Drain(rest).1)
  {
    hide Drain, NextOf, After, FrameBytes;
    if ps == [] {
      assert StreamBytes(ps) + rest == rest;
      assert ps + Drain(rest).0 == Drain(rest).0;
    } else {
      hide StreamBytes;
      StreamCons(ps, rest);
      var more := StreamBytes(ps[1..]) + rest;
      FrameBack(ps[0], more);
      DrainStream(ps[1..], rest);
      DrainNext(FrameBytes(ps[0]) + more);
      assert ps + Drain(rest).0 == [ps[0]] + (ps[1..] + Drain(rest).0);
    }
  }

  lemma FrameFrom(u: seq<byte>)
    requires NextOf(u).Ready?
    ensures u == FrameBytes(NextOf(u).payload) + After(u)
  {
    BeUnBe(u[0..4]);
    assert u == u[0..4] + NextOf(u).payload + After(u);
  }

  /** Conservation: the bytes are the frames taken, encoded, then what is left. */
  lemma {:induction false} DrainConserves(u: seq<byte>)
    ensures Legal(Drain(u).0) && StreamBytes(Drain(u).0) + Drain(u).1 == u && !NextOf(Drain(u).1).Ready?
    decreases |u|
  {
    if NextOf(u).Ready? {
      DrainConserves(After(u));
      FrameFrom(u);
      var d := Drain(After(u));
      assert ([NextOf(u).payload] + d.0)[1..] == d.0;
    }
  }

  /** A legal frame begins the bytes. */
  ghost predicate Begins(p: seq<byte>, u: seq<byte>) { |p| <= FRAME_MAX && FrameBytes(p) <= u }

  /** Whatever comes behind the bytes, they do not begin with a legal frame. */
  ghost predicate Hopeless(u: seq<byte>) { forall d, p :: !Begins(p, u + d) }

  lemma BeginsIs(p: seq<byte>, u: seq<byte>)
    requires Begins(p, u)
    ensures NextOf(u) == Ready(p)
  {
    assert u == FrameBytes(p) + u[|FrameBytes(p)|..];
    FrameBack(p, u[|FrameBytes(p)|..]);
  }

  lemma Completed(u: seq<byte>)
    requires |u| >= 4 && NextOf(u) == Wait
    ensures !Hopeless(u)
  {
    var body := GetBe(u, 0, 4);
    var d := seq(4 + body - |u|, _ => 0 as byte);
    assert (u + d)[0..4] == u[0..4];
    var p := NextOf(u + d).payload;
    FrameFrom(u + d);
    assert Begins(p, u + d);
  }

  /** A frame is ready exactly when a legal one begins the bytes, and it is that one; the bytes are refused exactly when
      the length is there and no legal frame can come of them any more. */
  lemma NextExact(u: seq<byte>)
    ensures forall p :: NextOf(u) == Ready(p) <==> Begins(p, u)
    ensures NextOf(u) == Violation <==> |u| >= 4 && Hopeless(u)
  {
    forall p ensures NextOf(u) == Ready(p) <==> Begins(p, u) {
      if NextOf(u) == Ready(p) { FrameFrom(u); } else if Begins(p, u) { BeginsIs(p, u); }
    }
    if NextOf(u) == Violation {
      forall d, p ensures !Begins(p, u + d) {
        assert (u + d)[0..4] == u[0..4];
        if Begins(p, u + d) { BeginsIs(p, u + d); }
      }
    } else if |u| >= 4 {
      assert u + [] == u;
      if NextOf(u) == Wait { Completed(u); } else { assert Begins(NextOf(u).payload, u + []); }
    }
  }

  lemma NextGrows(u: seq<byte>, d: seq<byte>)
    requires NextOf(u).Ready?
    ensures NextOf(u + d) == NextOf(u) && After(u + d) == After(u) + d
  {
    var body := GetBe(u, 0, 4);
    assert (u + d)[0..4] == u[0..4];
    assert (u + d)[4..4 + body] == u[4..4 + body];
    assert (u + d)[4 + body..] == u[4 + body..] + d;
  }

  /** Bytes that come later only continue what was cut out before. */
  lemma {:induction false} DrainAppend(u: seq<byte>, d: seq<byte>)
    ensures var a := Drain(u); var b := Drain(a.1 + d); Drain(u + d) == (a.0 + b.0, b.1)
    decreases |u|
  {
    var a := Drain(u);
    var b := Drain(a.1 + d);
    if NextOf(u).Ready? {
      NextGrows(u, d);
      DrainAppend(After(u), d);
      var a' := Drain(After(u));
      assert [NextOf(u).payload] + (a'.0 + b.0) == a.0 + b.0;
    } else {
      assert [] + b.0 == b.0;
    }
  }

  // ---- any schedule of pushes and pops ----

  datatype Op = Push(data: seq<byte>) | Pop

  /** The reassembler: the unread bytes, and a record of what went in and came out. */
  datatype State = State(unread: seq<byte>, pushed: seq<byte>, popped: seq<seq<byte>>)

  const EMPTY: State := State([], [], [])

  predicate Fits(s: State, op: Op) { op.Push? ==> |s.unread| + |op.data| <= CAP }

  function Do(s: State, op: Op): State {
    match op
    case Push(d) => s.(unread := s.unread + d, pushed := s.pushed + d)
    case Pop =>
      if NextOf(s.unread).Ready?
      then s.(unread := After(s.unread), popped := s.popped + [NextOf(s.unread).payload])
      else s
  }

  predicate AllFit(s: State, ops: seq<Op>)
    decreases |ops|
  {
    ops == [] || (Fits(s, ops[0]) && AllFit(Do(s, ops[0]), ops[1..]))
  }

  function DoAll(s: State, ops: seq<Op>): State
    requires AllFit(s, ops)
    decreases |ops|
  {
    if ops == [] then s else DoAll(Do(s, ops[0]), ops[1..])
  }

  /** Nothing is lost, and what came out is what the bytes alone decide. */
  ghost predicate Good(s: State) {
    && Legal(s.popped) && |s.unread| <= CAP
    && StreamBytes(s.popped) + s.unread == s.pushed
    && Drain(s.pushed) == (s.popped + Drain(s.unread).0, Drain(s.unread).1)
  }

  lemma {:induction false} StreamAppend(ps: seq<seq<byte>>, p: seq<byte>)
    ensures StreamBytes(ps + [p]) == StreamBytes(ps) + FrameBytes(p)
  {
    if ps == [] {
      assert ps + [p] == [p] && [p][1..] == [];
      assert FrameBytes(p) + [] == FrameBytes(p);
    } else {
      assert (ps + [p])[1..] == ps[1..] + [p];
      StreamAppend(ps[1..], p);
    }
  }

  lemma DoKeeps(s: State, op: Op)
    requires Good(s) && Fits(s, op)
    ensures Good(Do(s, op))
  {
    hide Drain, NextOf, FrameBytes, StreamBytes;
    var t := Do(s, op);
    if op.Push? {
      assert StreamBytes(s.popped) + (s.unread + op.data) == t.pushed;
    } else if NextOf(s.unread).Ready? {
      var p := NextOf(s.unread).payload;
      StreamAppend(s.popped, p);
      FrameFrom(s.unread);
      assert StreamBytes(s.popped) + (FrameBytes(p) + t.unread) == StreamBytes(t.popped) + t.unread;
    }
    DrainStream(t.popped, t.unread);
  }

  lemma {:induction false} AllKeep(s: State, ops: seq<Op>)
    requires Good(s) && AllFit(s, ops)
    ensures Good(DoAll(s, ops))
    decreases |ops|
  {
    if ops != [] {
      DoKeeps(s, ops[0]);
      AllKeep(Do(s, ops[0]), ops[1..]);
    }
  }

  lemma EmptyGood()
    ensures Good(EMPTY)
  {
    assert Drain([]) == ([], []);
  }

  /** Over any schedule of pushes and pops the bytes pushed are the frames popped, encoded, and then the
      unread bytes; the frames popped are always the first of those the pushed bytes hold. */
  lemma Reassembly(ops: seq<Op>)
    requires AllFit(EMPTY, ops)
    ensures var s := DoAll(EMPTY, ops);
      && s.pushed == StreamBytes(s.popped) + s.unread
      && s.popped <= Drain(s.pushed).0
      && (!NextOf(s.unread).Ready? ==> s.popped == Drain(s.pushed).0)
  {
    EmptyGood();
    AllKeep(EMPTY, ops);
    var s := DoAll(EMPTY, ops);
    assert s.popped + [] == s.popped;
  }

  /** However a stream of frames is cut into chunks, draining gives exactly those frames. */
  lemma ChunkingIndependent(ops: seq<Op>, ps: seq<seq<byte>>)
    requires AllFit(EMPTY, ops) && Legal(ps)
    ensures var s := DoAll(EMPTY, ops);
      s.pushed == StreamBytes(ps) ==> s.popped <= ps && (!NextOf(s.unread).Ready? ==> s.popped == ps && s.unread == [])
  {
    Reassembly(ops);
    EmptyGood();
    AllKeep(EMPTY, ops);
    var s := DoAll(EMPTY, ops);
    DrainStream(ps, []);
    assert StreamBytes(ps) + [] == StreamBytes(ps) && Drain([]) == ([], []);
    assert ps + [] == ps;
  }

  // ---- the receive loop: push a chunk, then pop until nothing is complete ----

  /** Every chunk finds room beside what the previous ones left over. */
  ghost predicate ChunksFit(u: seq<byte>, cs: seq<seq<byte>>)
    decreases |cs|
  {
    cs == [] || (|u| + |cs[0]| <= CAP && ChunksFit(Drain(u + cs[0]).1, cs[1..]))
  }

  ghost predicate FramesUpTo(ps: seq<seq<byte>>, f: nat) { forall k :: 0 <= k < |ps| ==> |ps[k]| <= f }

  function Joined(cs: seq<seq<byte>>): seq<byte> { if cs == [] then [] else cs[0] + Joined(cs[1..]) }

  /** With frames of at most `f` bytes and reads of at most `c`, no read is ever refused. */
  ghost predicate NeverRefused(f: nat, c: nat) {
    forall ps, cs | FramesUpTo(ps, f) && FramesUpTo(cs, c) && Joined(cs) <= StreamBytes(ps) :: ChunksFit([], cs)
  }

  lemma {:induction false} LeftoverSmall(p: seq<byte>, ps: seq<seq<byte>>, f: nat)
    requires FramesUpTo(ps, f) && f <= FRAME_MAX && p <= StreamBytes(ps)
    ensures |Drain(p).1| <= f + 3
    decreases |ps|
  {
    if ps != [] {
      var first := FrameBytes(ps[0]);
      if |p| >= |first| {
        var more := p[|first|..];
        assert p == first + more;
        assert more <= StreamBytes(ps[1..]);
        FrameBack(ps[0], more);
        LeftoverSmall(more, ps[1..], f);
      } else if |p| >= 4 {
        Pow256Values();
        assert p[0..4] == StreamBytes(ps)[0..4] == Be(|ps[0]|, 4);
        GetBeAt(p, 0, 4, |ps[0]|);
      }
    }
  }

  lemma {:induction false} LoopFits(p: seq<byte>, cs: seq<seq<byte>>, ps: seq<seq<byte>>, f: nat, c: nat)
    requires FramesUpTo(ps, f) && f <= FRAME_MAX && FramesUpTo(cs, c) && f + 3 + c <= CAP
    requires p + Joined(cs) <= StreamBytes(ps)
    ensures ChunksFit(Drain(p).1, cs)
    decreases |cs|
  {
    if cs != [] {
      assert p + Joined(cs) == p + cs[0] + Joined(cs[1..]);
      hide Drain, StreamBytes;
      LeftoverSmall(p, ps, f);
      DrainAppend(p, cs[0]);
      LoopFits(p + cs[0], cs[1..], ps, f, c);
    }
  }

  /** The bytes from `i` up to `n`, one at a time, then a chunk of `c`. */
  function Drip(s: seq<byte>, i: nat, n: nat, c: nat): (cs: seq<seq<byte>>)
    requires i <= n && n + c <= |s| && c >= 1
    ensures FramesUpTo(cs, c)
    decreases n - i
  {
    if i == n then [s[n..n + c]] else [[s[i]]] + Drip(s, i + 1, n, c)
  }

  lemma {:induction false} DripJoins(s: seq<byte>, i: nat, n: nat, c: nat)
    requires i <= n && n + c <= |s| && c >= 1
    ensures Joined(Drip(s, i, n, c)) == s[i..n + c]
    decreases n - i
  {
    if i == n {
      assert [s[n..n + c]][1..] == [];
      assert s[n..n + c] + [] == s[n..n + c];
    } else {
      DripJoins(s, i + 1, n, c);
      assert ([[s[i]]] + Drip(s, i + 1, n, c))[1..] == Drip(s, i + 1, n, c);
      assert [s[i]] + s[i + 1..n + c] == s[i..n + c];
    }
  }

  lemma Incomplete(p: seq<byte>, first: seq<byte>, rest: seq<byte>)
    requires |first| <= FRAME_MAX && p <= FrameBytes(first) + rest && |p| < 4 + |first|
    ensures Drain(p) == ([], p)
  {
    if |p| >= 4 {
      Pow256Values();
      assert p[0..4] == (FrameBytes(first) + rest)[0..4] == Be(|first|, 4);
      GetBeAt(p, 0, 4, |first|);
    }
  }

  lemma {:induction false} DripOverflows(first: seq<byte>, rest: seq<byte>, i: nat, c: nat)
    requires |first| <= FRAME_MAX && c >= 1 && |first| + 3 + c <= |FrameBytes(first) + rest|
    requires i <= |first| + 3 && |first| + 3 + c > CAP
    ensures var s := FrameBytes(first) + rest; !ChunksFit(s[..i], Drip(s, i, |first| + 3, c))
    decreases |first| + 3 - i
  {
    var s := FrameBytes(first) + rest;
    if i < |first| + 3 {
      var cs := Drip(s, i, |first| + 3, c);
      assert cs[0] == [s[i]] && cs[1..] == Drip(s, i + 1, |first| + 3, c);
      assert s[..i] + [s[i]] == s[..i + 1];
      Incomplete(s[..i + 1], first, rest);
      DripOverflows(first, rest, i + 1, c);
    }
  }

  lemma {:induction false} LongStream(p: seq<byte>, n: nat)
    ensures |StreamBytes(seq(n, _ => p))| >= 4 * n
  {
    if n > 0 {
      assert seq(n, _ => p)[1..] == seq(n - 1, _ => p);
      LongStream(p, n - 1);
    }
  }

  lemma RefusedOnce(f: nat, c: nat)
    requires f <= FRAME_MAX && c >= 1 && f + 3 + c > CAP
    ensures !NeverRefused(f, c)
  {
    var p: seq<byte> := seq(f, _ => 0);
    var ps := seq(c + 1, _ => p);
    var rest := StreamBytes(ps[1..]);
    assert ps[1..] == seq(c, _ => p);
    LongStream(p, c);
    var s := FrameBytes(p) + rest;
    assert s == StreamBytes(ps);
    var cs := Drip(s, 0, f + 3, c);
    DripJoins(s, 0, f + 3, c);
    DripOverflows(p, rest, 0, c);
    assert s[..0] == [];
    assert Joined(cs) <= StreamBytes(ps);
    assert FramesUpTo(ps, f) && FramesUpTo(cs, c) && !ChunksFit([], cs);
  }

  /** The receive loop accepts every legal stream exactly when the largest frame and the largest read leave
      three bytes of the buffer to spare; otherwise some legal stream is refused part-way. */
  lemma RefusalExact(f: nat, c: nat)
    requires f <= FRAME_MAX && c >= 1
    ensures NeverRefused(f, c) <==> f + 3 + c <= CAP
  {
    if f + 3 + c <= CAP {
      forall ps, cs | FramesUpTo(ps, f) && FramesUpTo(cs, c) && Joined(cs) <= StreamBytes(ps)
        ensures ChunksFit([], cs) {
        assert [] + Joined(cs) == Joined(cs) && Drain([]) == ([], []);
        LoopFits([], cs, ps, f, c);
      }
    } else {
      RefusedOnce(f, c);
    }
  }

  /** The daemon reads its streams in chunks of up to 8192 bytes: then a legal stream can be refused unless every
      frame is empty or a single byte. */
  lemma DaemonReads(f: nat)
    requires f <= FRAME_MAX
    ensures NeverRefused(f, FRAME_MAX) <==> f <= 1
  {
    RefusalExact(f, FRAME_MAX);
  }

  // ---- in place ----

  lemma Inside<T>(s: seq<T>, a: nat, b: nat, i: nat, j: nat)
    requires i <= j && a + j <= b <= |s|
    ensures s[a..b][i..j] == s[a + i..a + j]
  {
    forall k | 0 <= k < j - i ensures s[a..b][i..j][k] == s[a + i..a + j][k] {
      assert s[a..b][i + k] == s[a + i + k];
    }
  }

  /** Frame a payload into a buffer: its length with the header, or -1. */
  method EncodeFrame(payload: seq<byte>, out: array<byte>) returns (n: int)
    modifies out
    ensures n >= 0 <==> |payload| <= FRAME_MAX && 4 + |payload| <= out.Length
    ensures n >= 0 ==> n == |FrameBytes(payload)| && out[..n] == FrameBytes(payload)
    ensures n < 0 ==> n == -1 && out[..] == old(out[..])
  {
    if |payload| > FRAME_MAX || 4 + |payload| > out.Length { return -1; }
    Pow256Values();
    PutBe(out, 0, |payload|, 4);
    ghost var head := out[0..4];
    assert out[..4] == head;
    PutBytes(out, 4, payload);
    n := 4 + |payload|;
    assert out[..n] == out[..4] + out[4..n];
  }

  class Reassembler {
    const buf: array<byte>
    var start: nat
    var end: nat

    ghost predicate Valid()
      reads this
    {
      buf.Length == CAP && start <= end <= CAP
    }

    ghost function Unread(): seq<byte>
      requires Valid()
      reads this, buf
    {
      buf[start..end]
    }

    constructor ()
      ensures Valid() && fresh(buf) && Unread() == []
    {
      buf := new byte[CAP](_ => 0);
      start, end := 0, 0;
    }

    method Reset()
      requires Valid()
      modifies this
      ensures Valid() && Unread() == []
    {
      start, end := 0, 0;
    }

    /** Move the unread bytes to the front. */
    method Compact()
      requires Valid()
      modifies this, buf
      ensures Valid() && start == 0 && Unread() == old(Unread())
    {
      var n := end - start;
      for i := 0 to n
        invariant start == old(start) && end == old(end)
        invariant buf[..i] == old(buf[start..start + i])
        invariant buf[start + i..end] == old(buf[start + i..end])
      {
        assert buf[start + i] == old(buf[start + i]);
        ghost var rest := buf[start + i + 1..end];
        buf[i] := buf[start + i];
        assert old(buf[start..start + i + 1]) == old(buf[start..start + i]) + [old(buf[start + i])];
      }
      end := n;
      start := 0;
    }

    /** Append bytes; refused, and everything dropped, when they do not fit beside the unread ones. */
    method Append(data: seq<byte>) returns (ok: bool)
      requires Valid()
      modifies this, buf
      ensures Valid() && ok == (|old(Unread())| + |data| <= CAP)
      ensures Unread() == if ok then old(Unread()) + data else []
    {
      if |data| > CAP - (end - start) {
        Reset();
        return false;
      }
      if |data| > CAP - end {
        Compact();
      }
      ghost var u := Unread();
      PutBytes(buf, end, data);
      assert buf[start..end] == buf[..end][start..] == u;
      end := end + |data|;
      assert buf[start..end] == buf[start..end - |data|] + buf[end - |data|..end];
      ok := true;
    }

    /** Take the next complete frame, if there is one. */
    method TakeNext() returns (r: Next)
      requires Valid()
      modifies this`start
      ensures Valid() && r == NextOf(old(Unread()))
      ensures Unread() == if r.Ready? then After(old(Unread())) else old(Unread())
    {
      var avail := end - start;
      ghost var u := Unread();
      if avail < 4 { return Wait; }
      ghost var whole := buf[..];
      assert u == whole[start..end];
      Inside(whole, start, end, 0, 4);
      var body := ReadBe(buf[..], start, 4);
      if body > FRAME_MAX { return Violation; }
      if avail < 4 + body { return Wait; }
      r := Ready(buf[start + 4..start + 4 + body]);
      Inside(whole, start, end, 4, 4 + body);
      Inside(whole, start, end, 4 + body, avail);
      start := start + 4 + body;
    }
  }
}
