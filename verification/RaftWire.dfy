/** The bytes of Raft messages between members: a type, a term, and what the type calls for. */
module RaftWire {
  import opened Bytes
  import opened RaftTypes

  const U64: nat := 0x1_0000_0000_0000_0000
  const FRAME_MAX: nat := 64 + MAX_BATCH * (19 + ENTRY_MAX)

  const T_VOTE: byte := 0
  const T_VOTE_RESP: byte := 1
  const T_APPEND: byte := 2
  const T_APPEND_RESP: byte := 3

  /** A message as the codec sees it: flags and kinds are whole octets. */
  datatype WireEntry = WireEntry(term: nat, index: nat, kind: byte, data: seq<byte>)

  datatype WireMsg =
    | Vote(term: nat, preVote: byte, candidate: nat, lastIndex: nat, lastTerm: nat)
    | VoteResp(term: nat, preVote: byte, granted: byte)
    | Entries(term: nat, leader: nat, prevIndex: nat, prevTerm: nat, leaderCommit: nat, entries: seq<WireEntry>)
    | EntriesResp(term: nat, success: byte, matchIndex: nat)

  predicate EntryOk(e: WireEntry) { e.term < U64 && e.index < U64 && |e.data| <= ENTRY_MAX }

  /** What fits the fixed fields: 64-bit counters, at most eight entries of at most 512 bytes. */
  predicate MsgOk(m: WireMsg) {
    && m.term < U64
    && match m {
         case Vote(_, _, c, i, t) => c < U64 && i < U64 && t < U64
         case VoteResp(_, _, _) => true
         case Entries(_, l, i, t, c, es) =>
           && l < U64 && i < U64 && t < U64 && c < U64
           && |es| <= MAX_BATCH && forall k :: 0 <= k < |es| ==> EntryOk(es[k])
         case EntriesResp(_, _, i) => i < U64
       }
  }

  // ---- encoding ----

  function EntryBytes(e: WireEntry): (b: seq<byte>)
    ensures |b| == 19 + |e.data|
  {
    Be(e.term, 8) + Be(e.index, 8) + [e.kind] + Be(|e.data|, 2) + e.data
  }

  function EntriesBytes(es: seq<WireEntry>): seq<byte> {
    if es == [] then [] else EntryBytes(es[0]) + EntriesBytes(es[1..])
  }

  lemma BytesCons(e: WireEntry, es: seq<WireEntry>)
    ensures EntriesBytes([e] + es) == EntryBytes(e) + EntriesBytes(es)
  {
    assert ([e] + es)[1..] == es;
    hide EntryBytes;
  }

  function Body(m: WireMsg): seq<byte> {
    match m
    case Vote(_, p, c, i, t) => [p] + Be(c, 8) + Be(i, 8) + Be(t, 8)
    case VoteResp(_, p, g) => [p, g]
    case Entries(_, l, i, t, c, es) => Be(l, 8) + Be(i, 8) + Be(t, 8) + Be(c, 8) + Be(|es|, 2) + EntriesBytes(es)
    case EntriesResp(_, s, i) => [s] + Be(i, 8)
  }

  function TypeOf(m: WireMsg): byte {
    match m
    case Vote(_, _, _, _, _) => T_VOTE
    case VoteResp(_, _, _) => T_VOTE_RESP
    case Entries(_, _, _, _, _, _) => T_APPEND
    case EntriesResp(_, _, _) => T_APPEND_RESP
  }

  function Encode(m: WireMsg): seq<byte> { [TypeOf(m)] + Be(m.term, 8) + Body(m) }

  // ---- decoding ----

  /** The entry a buffer begins with. */
  function EntryIn(b: seq<byte>): (r: Option<WireEntry>)
    ensures r.Some? ==> 19 + |r.value.data| <= |b| && EntryOk(r.value)
  {
    if |b| < 19 then None
    else
      Pow256Values();
      var el := GetBe(b, 17, 2);
      if el > ENTRY_MAX || |b| - 19 < el then None
      else Some(WireEntry(GetBe(b, 0, 8), GetBe(b, 8, 8), b[16], b[19..19 + el]))
  }

  function EntriesIn(b: seq<byte>, n: nat): (r: Option<seq<WireEntry>>)
    ensures r.Some? ==> |r.value| == n && forall k :: 0 <= k < n ==> EntryOk(r.value[k])
    decreases n
  {
    if n == 0 then Some([])
    else
      match EntryIn(b)
      case None => None
      case Some(e) =>
        match EntriesIn(b[19 + |e.data|..], n - 1)
        case None => None
        case Some(es) => Some([e] + es)
  }

  function Decode(b: seq<byte>): (r: Option<WireMsg>)
    ensures r.Some? ==> MsgOk(r.value)
  {
    if |b| < 9 then None
    else
      Pow256Values();
      var term := GetBe(b, 1, 8);
      if b[0] == T_VOTE then
        if |b| - 9 < 25 then None
        else Some(Vote(term, b[9], GetBe(b, 10, 8), GetBe(b, 18, 8), GetBe(b, 26, 8)))
      else if b[0] == T_VOTE_RESP then
        if |b| - 9 < 2 then None else Some(VoteResp(term, b[9], b[10]))
      else if b[0] == T_APPEND then
        if |b| - 9 < 34 then None
        else
          var n := GetBe(b, 41, 2);
          if n > MAX_BATCH then None
          else
            match EntriesIn(b[43..], n)
            case None => None
            case Some(es) =>
              Some(Entries(term, GetBe(b, 9, 8), GetBe(b, 17, 8), GetBe(b, 25, 8), GetBe(b, 33, 8), es))
      else if b[0] == T_APPEND_RESP then
        if |b| - 9 < 9 then None else Some(EntriesResp(term, b[9], GetBe(b, 10, 8)))
      else None
  }

  // ---- the round trip ----

  lemma EntryBack(e: WireEntry, rest: seq<byte>)
    requires EntryOk(e)
    ensures EntryIn(EntryBytes(e) + rest) == Some(e)
  {
    var b := EntryBytes(e) + rest;
    Pow256Values();
    assert b[0..8] == Be(e.term, 8) && b[8..16] == Be(e.index, 8) && b[16] == e.kind;
    assert b[17..19] == Be(|e.data|, 2) && b[19..19 + |e.data|] == e.data;
    GetBeAt(b, 0, 8, e.term);
    GetBeAt(b, 8, 8, e.index);
    GetBeAt(b, 17, 2, |e.data|);
  }

  lemma EntriesNext(b: seq<byte>, e: WireEntry, es: seq<WireEntry>)
    requires EntryIn(b) == Some(e) && EntriesIn(b[19 + |e.data|..], |es|) == Some(es)
    ensures EntriesIn(b, |es| + 1) == Some([e] + es)
  {
    hide EntryIn;
  }

  lemma {:induction false} EntriesBack(es: seq<WireEntry>, rest: seq<byte>)
    requires forall k :: 0 <= k < |es| ==> EntryOk(es[k])
    ensures EntriesIn(EntriesBytes(es) + rest, |es|) == Some(es)
  {
    if es != [] {
      var e, tail := es[0], es[1..];
      hide EntryIn, EntryBytes, EntriesIn, EntriesBytes;
      assert es == [e] + tail;
      BytesCons(e, tail);
      var more := EntriesBytes(tail) + rest;
      assert EntriesBytes(es) + rest == EntryBytes(e) + more;
      assert (EntryBytes(e) + more)[19 + |e.data|..] == more;
      EntryBack(e, more);
      EntriesBack(tail, rest);
      EntriesNext(EntryBytes(e) + more, e, tail);
    }
  }

  lemma WordAt(b: seq<byte>, o: nat, v: nat)
    requires v < U64 && o + 8 <= |b| && b[o..o + 8] == Be(v, 8)
    ensures GetBe(b, o, 8) == v
  {
    Pow256Values();
    GetBeAt(b, o, 8, v);
  }

  lemma AppendThere(m: WireMsg, rest: seq<byte>)
    requires MsgOk(m) && m.Entries?
    ensures Decode(Encode(m) + rest) == Some(m)
  {
    var b := Encode(m) + rest;
    var es := EntriesBytes(m.entries);
    assert b[9..17] == Be(m.leader, 8) && b[17..25] == Be(m.prevIndex, 8);
    assert b[25..33] == Be(m.prevTerm, 8) && b[33..41] == Be(m.leaderCommit, 8);
    assert b[41..43] == Be(|m.entries|, 2) && b[43..] == es + rest;
    assert b[1..9] == Be(m.term, 8) && b[0] == T_APPEND;
    hide Encode, Body, EntriesBytes, EntriesIn;
    WordAt(b, 1, m.term);
    WordAt(b, 9, m.leader);
    WordAt(b, 17, m.prevIndex);
    WordAt(b, 25, m.prevTerm);
    WordAt(b, 33, m.leaderCommit);
    Pow256Values();
    GetBeAt(b, 41, 2, |m.entries|);
    EntriesBack(m.entries, rest);
  }

  lemma VoteThere(m: WireMsg, rest: seq<byte>)
    requires MsgOk(m) && m.Vote?
    ensures Decode(Encode(m) + rest) == Some(m)
  {
    var b := Encode(m) + rest;
    assert b[0] == T_VOTE && b[1..9] == Be(m.term, 8) && b[9] == m.preVote;
    assert b[10..18] == Be(m.candidate, 8) && b[18..26] == Be(m.lastIndex, 8) && b[26..34] == Be(m.lastTerm, 8);
    hide Encode, Body;
    WordAt(b, 1, m.term);
    WordAt(b, 10, m.candidate);
    WordAt(b, 18, m.lastIndex);
    WordAt(b, 26, m.lastTerm);
  }

  lemma RespThere(m: WireMsg, rest: seq<byte>)
    requires MsgOk(m) && (m.VoteResp? || m.EntriesResp?)
    ensures Decode(Encode(m) + rest) == Some(m)
  {
    var b := Encode(m) + rest;
    assert b[1..9] == Be(m.term, 8);
    WordAt(b, 1, m.term);
    if m.EntriesResp? {
      assert b[10..18] == Be(m.matchIndex, 8);
      WordAt(b, 10, m.matchIndex);
    }
  }

  /** Decoding an encoded message, whatever follows it, gives that message back. */
  lemma DecodeEncode(m: WireMsg, rest: seq<byte>)
    requires MsgOk(m)
    ensures Decode(Encode(m) + rest) == Some(m)
  {
    hide Decode, Encode, MsgOk;
    match m
    case Vote(_, _, _, _, _) => VoteThere(m, rest);
    case Entries(_, _, _, _, _, _) => AppendThere(m, rest);
    case _ => RespThere(m, rest);
  }

  lemma EntryFrom(b: seq<byte>)
    requires EntryIn(b).Some?
    ensures var e := EntryIn(b).value; b == EntryBytes(e) + b[19 + |e.data|..]
  {
    hide Be, UnBe;
    BeUnBe(b[0..8]);
    BeUnBe(b[8..16]);
    BeUnBe(b[17..19]);
    var e := EntryIn(b).value;
    assert b == b[0..8] + b[8..16] + [b[16]] + b[17..19] + e.data + b[19 + |e.data|..];
  }

  lemma {:induction false} EntriesFrom(b: seq<byte>, n: nat)
    requires EntriesIn(b, n).Some?
    ensures EntriesBytes(EntriesIn(b, n).value) <= b
    decreases n
  {
    if n > 0 {
      var e := EntryIn(b).value;
      var more := b[19 + |e.data|..];
      EntryFrom(b);
      EntriesFrom(more, n - 1);
      hide EntryIn, EntryBytes;
      BytesCons(e, EntriesIn(more, n - 1).value);
    }
  }

  lemma HeaderCuts(b: seq<byte>, n: nat)
    requires 43 <= n <= |b|
    ensures b[..n] == [b[0]] + b[1..9] + (b[9..17] + b[17..25] + b[25..33] + b[33..41] + b[41..43] + b[43..n])
  {
    assert b[..n] == b[..9] + b[9..n];
    assert b[9..n] == b[9..25] + b[25..41] + b[41..43] + b[43..n];
    assert b[9..25] == b[9..17] + b[17..25] && b[25..41] == b[25..33] + b[33..41];
  }

  lemma AppendFrom(b: seq<byte>)
    requires Decode(b).Some? && Decode(b).value.Entries?
    ensures Encode(Decode(b).value) <= b
  {
    var m := Decode(b).value;
    BeUnBe(b[1..9]);
    BeUnBe(b[9..17]);
    BeUnBe(b[17..25]);
    BeUnBe(b[25..33]);
    BeUnBe(b[33..41]);
    BeUnBe(b[41..43]);
    EntriesFrom(b[43..], GetBe(b, 41, 2));
    hide Be, UnBe, EntriesBytes, EntriesIn;
    var f := EntriesBytes(m.entries);
    assert b[43..43 + |f|] == f;
    HeaderCuts(b, 43 + |f|);
  }

  /** What decodes starts with the encoding of its result. */
  lemma EncodeDecode(b: seq<byte>)
    requires Decode(b).Some?
    ensures Encode(Decode(b).value) <= b
  {
    hide Be, UnBe, EntriesIn, EntriesBytes;
    var m := Decode(b).value;
    if m.Entries? {
      AppendFrom(b);
    } else {
      BeUnBe(b[1..9]);
      if m.Vote? {
        BeUnBe(b[10..18]);
        BeUnBe(b[18..26]);
        BeUnBe(b[26..34]);
        assert b[..34] == [b[0]] + b[1..9] + ([b[9]] + b[10..18] + b[18..26] + b[26..34]);
      } else if m.EntriesResp? {
        BeUnBe(b[10..18]);
        assert b[..18] == [b[0]] + b[1..9] + ([b[9]] + b[10..18]);
      } else {
        assert b[..11] == [b[0]] + b[1..9] + [b[9], b[10]];
      }
    }
  }

  /** The decoder accepts exactly the buffers that begin with a well-formed message, and returns it. */
  lemma DecodeExact(b: seq<byte>, m: WireMsg)
    ensures Decode(b) == Some(m) <==> MsgOk(m) && Encode(m) <= b
  {
    if Decode(b) == Some(m) { EncodeDecode(b); }
    if MsgOk(m) && Encode(m) <= b {
      DecodeEncode(m, b[|Encode(m)|..]);
      assert b == Encode(m) + b[|Encode(m)|..];
    }
  }

  lemma {:induction false} EntriesSize(es: seq<WireEntry>)
    requires forall k :: 0 <= k < |es| ==> EntryOk(es[k])
    ensures |EntriesBytes(es)| <= |es| * (19 + ENTRY_MAX)
  {
    if es != [] { EntriesSize(es[1..]); }
  }

  /** Every message fits the frame buffer. */
  lemma EncodeFits(m: WireMsg)
    requires MsgOk(m)
    ensures |Encode(m)| <= FRAME_MAX
  {
    if m.Entries? { EntriesSize(m.entries); }
  }

  // ---- the messages of the Raft core ----

  function Flag(x: bool): byte { if x then 1 else 0 }

  function ToWireEntry(e: Entry): WireEntry { WireEntry(e.term, e.index, Flag(e.kind.Noop?), e.data) }

  function ToWire(m: Msg): WireMsg {
    match m
    case RequestVote(t, p, c, i, lt) => Vote(t, Flag(p), c, i, lt)
    case RequestVoteResp(t, p, g) => VoteResp(t, Flag(p), Flag(g))
    case Append(t, l, i, pt, es, c) =>
      Entries(t, l, i, pt, c, seq(|es|, k requires 0 <= k < |es| => ToWireEntry(es[k])))
    case AppendResp(t, s, i) => EntriesResp(t, Flag(s), i)
  }

  lemma ToWireInjective(m1: Msg, m2: Msg)
    requires ToWire(m1) == ToWire(m2)
    ensures m1 == m2
  {
    if m1.Append? && m2.Append? {
      var w1, w2 := ToWire(m1).entries, ToWire(m2).entries;
      assert |m1.entries| == |w1| && |m2.entries| == |w2|;
      forall k | 0 <= k < |m1.entries| ensures m1.entries[k] == m2.entries[k] {
        assert ToWireEntry(m1.entries[k]) == w1[k] == w2[k] == ToWireEntry(m2.entries[k]);
      }
    }
  }

  /** Two messages with the same bytes, or one a prefix of the other's, are the same message. */
  lemma NoConfusion(m1: Msg, m2: Msg, rest: seq<byte>)
    requires MsgOk(ToWire(m1)) && MsgOk(ToWire(m2)) && Encode(ToWire(m1)) + rest == Encode(ToWire(m2))
    ensures m1 == m2
  {
    hide Encode, Decode, ToWire, MsgOk;
    DecodeEncode(ToWire(m1), rest);
    DecodeEncode(ToWire(m2), []);
    assert Encode(ToWire(m2)) + [] == Encode(ToWire(m2));
    ToWireInjective(m1, m2);
  }
}
