/** The codec in place: a buffer filled, and a buffer read, at a moving offset. */
module RaftCodec {
  import opened Bytes
  import opened RaftTypes
  import opened RaftWire

  /** Append a big-endian number to what stands before `o`; the offset after it. */
  method PutNum(buf: array<byte>, o: nat, v: nat, n: nat) returns (end: nat)
    requires o + n <= buf.Length && v < Pow256(n)
    modifies buf
    ensures end == o + n && buf[..end] == old(buf[..o]) + Be(v, n)
  {
    PutBe(buf, o, v, n);
    end := o + n;
    assert buf[..end] == buf[..o] + buf[o..end];
  }

  method PutWord(buf: array<byte>, o: nat, v: nat) returns (end: nat)
    requires o + 8 <= buf.Length && v < U64
    modifies buf
    ensures end == o + 8 && buf[..end] == old(buf[..o]) + Be(v, 8)
  {
    Pow256Values();
    end := PutNum(buf, o, v, 8);
  }

  method PutOctet(buf: array<byte>, o: nat, v: byte) returns (end: nat)
    requires o < buf.Length
    modifies buf
    ensures end == o + 1 && buf[..end] == old(buf[..o]) + [v]
  {
    buf[o] := v;
    end := o + 1;
  }

  method PutData(buf: array<byte>, o: nat, data: seq<byte>) returns (end: nat)
    requires o + |data| <= buf.Length
    modifies buf
    ensures end == o + |data| && buf[..end] == old(buf[..o]) + data
  {
    PutBytes(buf, o, data);
    end := o + |data|;
    assert buf[..end] == buf[..o] + buf[o..end];
  }

  method PutEntry(buf: array<byte>, o: nat, e: WireEntry) returns (end: nat)
    requires EntryOk(e) && o + 19 + |e.data| <= buf.Length
    modifies buf
    ensures end == o + 19 + |e.data| && buf[..end] == old(buf[..o]) + EntryBytes(e)
  {
    hide Be;
    Pow256Values();
    end := PutWord(buf, o, e.term);
    end := PutWord(buf, end, e.index);
    end := PutOctet(buf, end, e.kind);
    end := PutNum(buf, end, |e.data|, 2);
    end := PutData(buf, end, e.data);
  }

  lemma {:induction false} BytesSnoc(es: seq<WireEntry>, i: nat)
    requires i < |es|
    ensures EntriesBytes(es[..i + 1]) == EntriesBytes(es[..i]) + EntryBytes(es[i])
    decreases i
  {
    hide EntryBytes;
    if i == 0 {
      BytesCons(es[0], []);
      assert es[..1] == [es[0]] + [];
    } else {
      BytesSnoc(es[1..], i - 1);
      assert es[..i + 1] == [es[0]] + es[1..][..i] && es[..i] == [es[0]] + es[1..][..i - 1];
      BytesCons(es[0], es[1..][..i]);
      BytesCons(es[0], es[1..][..i - 1]);
    }
  }

  method PutEntries(buf: array<byte>, o: nat, es: seq<WireEntry>) returns (end: nat)
    requires forall k :: 0 <= k < |es| ==> EntryOk(es[k])
    requires o + |es| * (19 + ENTRY_MAX) <= buf.Length
    modifies buf
    ensures end <= o + |es| * (19 + ENTRY_MAX)
    ensures end == o + |EntriesBytes(es)| && buf[..end] == old(buf[..o]) + EntriesBytes(es)
  {
    hide EntriesBytes, EntryBytes;
    end := o;
    assert es[..0] == [];
    assert EntriesBytes([]) == [] by { NoBytes(); }
    for i := 0 to |es|
      invariant o <= end <= o + i * (19 + ENTRY_MAX)
      invariant end == o + |EntriesBytes(es[..i])| && buf[..end] == old(buf[..o]) + EntriesBytes(es[..i])
    {
      Room(i, |es|);
      BytesSnoc(es, i);
      end := PutEntry(buf, end, es[i]);
    }
    assert es[..|es|] == es;
  }

  lemma NoBytes()
    ensures EntriesBytes([]) == []
  {
  }

  lemma Room(i: nat, n: nat)
    requires i < n
    ensures i * (19 + ENTRY_MAX) + 19 + ENTRY_MAX == (i + 1) * (19 + ENTRY_MAX) <= n * (19 + ENTRY_MAX)
  {
  }

  method PutAppend(buf: array<byte>, o: nat, m: WireMsg) returns (end: nat)
    requires MsgOk(m) && m.Entries? && o + 34 + |m.entries| * (19 + ENTRY_MAX) <= buf.Length
    modifies buf
    ensures end == o + |Body(m)| <= buf.Length && buf[..end] == old(buf[..o]) + Body(m)
  {
    hide Be, EntriesBytes;
    Pow256Values();
    end := PutWord(buf, o, m.leader);
    end := PutWord(buf, end, m.prevIndex);
    end := PutWord(buf, end, m.prevTerm);
    end := PutWord(buf, end, m.leaderCommit);
    end := PutNum(buf, end, |m.entries|, 2);
    end := PutEntries(buf, end, m.entries);
  }

  method PutRest(buf: array<byte>, o: nat, m: WireMsg) returns (end: nat)
    requires MsgOk(m) && !m.Entries? && o + 25 <= buf.Length
    modifies buf
    ensures end == o + |Body(m)| <= buf.Length && buf[..end] == old(buf[..o]) + Body(m)
  {
    hide Be;
    match m
    case Vote(_, p, c, i, t) =>
      end := PutOctet(buf, o, p);
      end := PutWord(buf, end, c);
      end := PutWord(buf, end, i);
      end := PutWord(buf, end, t);
    case VoteResp(_, p, g) =>
      end := PutOctet(buf, o, p);
      end := PutOctet(buf, end, g);
    case EntriesResp(_, s, i) =>
      end := PutOctet(buf, o, s);
      end := PutWord(buf, end, i);
  }

  /** Build the message in a frame-sized scratch buffer, then copy it out: its length, or -1 when `buf` is too small. */
  method EncodeMsg(m: WireMsg, buf: array<byte>) returns (n: int)
    requires MsgOk(m)
    modifies buf
    ensures n >= 0 <==> |Encode(m)| <= buf.Length
    ensures n >= 0 ==> n == |Encode(m)| && buf[..n] == Encode(m) && buf[n..] == old(buf[n..])
    ensures n < 0 ==> n == -1 && buf[..] == old(buf[..])
  {
    var tmp := new byte[FRAME_MAX](_ => 0);
    var o := PutOctet(tmp, 0, TypeOf(m));
    o := PutWord(tmp, o, m.term);
    assert tmp[..o] == [TypeOf(m)] + Be(m.term, 8);
    if m.Entries? {
      o := PutAppend(tmp, o, m);
    } else {
      o := PutRest(tmp, o, m);
    }
    assert tmp[..o] == Encode(m);
    if o > buf.Length { return -1; }
    PutBytes(buf, 0, tmp[..o]);
    assert buf[..o] == buf[0..o];
    n := o;
  }

  // ---- reading ----

  /** What decoding `n` entries of `b` gives, when `done` of them have been read up to `o`. */
  ghost predicate ReadSoFar(b: seq<byte>, start: nat, n: nat, o: nat, done: seq<WireEntry>)
    requires start <= o <= |b| && |done| <= n
  {
    EntriesIn(b[start..], n) ==
      match EntriesIn(b[o..], n - |done|)
      case None => None
      case Some(es) => Some(done + es)
  }

  lemma ReadOne(b: seq<byte>, start: nat, n: nat, o: nat, done: seq<WireEntry>, e: WireEntry)
    requires start <= o <= |b| && |done| < n && ReadSoFar(b, start, n, o, done) && EntryIn(b[o..]) == Some(e)
    ensures ReadSoFar(b, start, n, o + 19 + |e.data|, done + [e])
  {
    hide EntryIn;
    var p := o + 19 + |e.data|;
    assert b[o..][19 + |e.data|..] == b[p..];
    var es := EntriesIn(b[p..], n - |done| - 1);
    if es.Some? { assert done + ([e] + es.value) == done + [e] + es.value; }
  }

  lemma ReadFails(b: seq<byte>, start: nat, n: nat, o: nat, done: seq<WireEntry>)
    requires start <= o <= |b| && |done| < n && ReadSoFar(b, start, n, o, done) && EntryIn(b[o..]).None?
    ensures EntriesIn(b[start..], n) == None
  {
    hide EntryIn;
  }

  lemma EntryHere(b: seq<byte>, o: nat)
    requires o <= |b|
    ensures EntryIn(b[o..]) ==
      if |b| - o < 19 then None
      else
        var el := GetBe(b, o + 17, 2);
        if el > ENTRY_MAX || |b| - (o + 19) < el then None
        else Some(WireEntry(GetBe(b, o, 8), GetBe(b, o + 8, 8), b[o + 16], b[o + 19..o + 19 + el]))
  {
    hide UnBe;
    if |b| - o >= 19 {
      assert b[o..][17..19] == b[o + 17..o + 19];
      assert b[o..][0..8] == b[o..o + 8] && b[o..][8..16] == b[o + 8..o + 16];
      var el := GetBe(b, o + 17, 2);
      if |b| - (o + 19) >= el { assert b[o..][19..19 + el] == b[o + 19..o + 19 + el]; }
    }
  }

  method ReadEntries(b: seq<byte>, start: nat, n: nat) returns (r: Option<seq<WireEntry>>)
    requires start <= |b|
    ensures r == EntriesIn(b[start..], n)
  {
    hide EntryIn, GetBe;
    var o := start;
    var done: seq<WireEntry> := [];
    assert ReadSoFar(b, start, n, o, done) by {
      var es := EntriesIn(b[o..], n);
      if es.Some? { assert [] + es.value == es.value; }
    }
    for i := 0 to n
      invariant start <= o <= |b| && |done| == i && ReadSoFar(b, start, n, o, done)
    {
      EntryHere(b, o);
      if |b| - o < 19 {
        ReadFails(b, start, n, o, done);
        return None;
      }
      var term := ReadBe(b, o, 8);
      var index := ReadBe(b, o + 8, 8);
      var kind := b[o + 16];
      var el := ReadBe(b, o + 17, 2);
      if el > ENTRY_MAX || |b| - (o + 19) < el {
        ReadFails(b, start, n, o, done);
        return None;
      }
      var e := WireEntry(term, index, kind, b[o + 19..o + 19 + el]);
      ReadOne(b, start, n, o, done, e);
      done := done + [e];
      o := o + 19 + el;
    }
    assert done + [] == done;
    r := Some(done);
  }

  /** Read a message; nothing when it is cut short, too long or of no known type. */
  method DecodeMsg(b: seq<byte>) returns (r: Option<WireMsg>)
    ensures r == Decode(b)
  {
    hide GetBe, EntriesIn;
    if |b| < 9 { return None; }
    var term := ReadBe(b, 1, 8);
    if b[0] == T_VOTE {
      if |b| - 9 < 25 { return None; }
      var c := ReadBe(b, 10, 8);
      var i := ReadBe(b, 18, 8);
      var t := ReadBe(b, 26, 8);
      return Some(Vote(term, b[9], c, i, t));
    } else if b[0] == T_VOTE_RESP {
      if |b| - 9 < 2 { return None; }
      return Some(VoteResp(term, b[9], b[10]));
    } else if b[0] == T_APPEND {
      if |b| - 9 < 34 { return None; }
      var l := ReadBe(b, 9, 8);
      var i := ReadBe(b, 17, 8);
      var t := ReadBe(b, 25, 8);
      var c := ReadBe(b, 33, 8);
      var n := ReadBe(b, 41, 2);
      if n > MAX_BATCH { return None; }
      var es := ReadEntries(b, 43, n);
      if es.None? { return None; }
      return Some(Entries(term, l, i, t, c, es.value));
    } else if b[0] == T_APPEND_RESP {
      if |b| - 9 < 9 { return None; }
      var i := ReadBe(b, 10, 8);
      return Some(EntriesResp(term, b[9], i));
    }
    return None;
  }
}
