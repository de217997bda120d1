/**
 The proxy's handling of a connection whose first record is to be fragmented:
 parse, keep a copy for the fallback, send in fragments, probe the upstream.
 */
module FragmentHandler {
  import opened Bytes
  import opened ClientHello
  import opened HalfConn
  import opened SniParser
  import opened Fragment
  import opened RecordReader
  import opened FragmentReceived

  const NUM_RECORDS := 4
  const NUM_SEGMENTS := 1
  const MOD_MINOR_VER := true

  /**
   How the connection ends up: closed; forwarded as it is; retried through the
   fallback with a record; tunnelled, with what the client will read; or the
   goroutine crashing on an index out of range.
   */
  datatype Fate = Closed | Forwarded | FellBack(record: bytes) | Tunnelled(reply: bytes) | Crashed

  /** The first record of a stream, if all of it arrives. */
  function FirstRecord(stream: bytes): (r: Option<bytes>)
    ensures r.Some? ==> |r.value| >= HEADER_LEN && Pair(r.value[3], r.value[4]) == |r.value| - HEADER_LEN
  {
    if |stream| < HEADER_LEN then None else
    PairRange(stream[3], stream[4]);
    var n: nat := HEADER_LEN + Pair(stream[3], stream[4]);
    if |stream| < n then None else Some(stream[..n])
  }

  /** A server name was found and can be searched for its last dot without leaving the record. */
  predicate Cuttable(data: bytes)
  {
    var p := ParseHello(data);
    p.Parsed? && p.sniPos > 0 && p.sniLen > 0 && p.sniPos + p.sniLen < |data|
  }

  /**
   `stream` is what the client sends, `upstream` the connection to the server,
   `reply` all that the server will send back (nothing when it resets).
   */
  method HandleTlsFragment(stream: bytes, upstream: Wire, hasFallback: bool, reply: bytes) returns (fate: Fate)
    modifies upstream
    ensures FirstRecord(stream).None? ==> fate == Closed && upstream.sent == old(upstream.sent)
    ensures FirstRecord(stream).Some? ==>
              var data := FirstRecord(stream).value;
              var p := ParseHello(data);
              && (p.Malformed? ==> fate == Closed && upstream.sent == old(upstream.sent))
              && (p.Parsed? && (p.sniPos <= 0 || p.sniLen <= 0) ==>
                    && fate == (if old(upstream.room) > 0 then Forwarded else Closed)
                    && upstream.sent == old(upstream.sent) + if fate == Forwarded then [data] else [])
              && (fate == Crashed <==> p.Parsed? && p.sniPos > 0 && p.sniLen > 0 && p.sniPos + p.sniLen == |data|)
              && (fate == Crashed ==> upstream.sent == old(upstream.sent))
              && (Cuttable(data) ==>
                    var plan := SentFor(data);
                    var whole := |plan| <= old(upstream.room);
                    && upstream.sent == old(upstream.sent) + plan[..if whole then |plan| else old(upstream.room)]
                    && fate == if whole && !(hasFallback && reply == []) then Tunnelled(reply)
                               else if hasFallback then FellBack(data) else Closed)
  {
    hide Pair, ParseHello, CutAt, Payloads, Records, Segments;
    var first := FirstRecord(stream);
    if first.None? {
      return Closed;
    }
    var data := first.value;
    var p := ParseClientHello(data);
    if p.Malformed? {
      return Closed;
    }
    if p.sniPos <= 0 || p.sniLen <= 0 {
      var ok := upstream.Write(data);
      return if ok then Forwarded else Closed;
    }
    if p.sniPos + p.sniLen == |data| {
      return Crashed;
    }
    var record := new byte[|data|](i requires 0 <= i < |data| => data[i]);
    assert record[..] == data;
    var saved := [];
    if hasFallback {
      saved := record[..];
    }
    ghost var start := upstream.sent;
    var sent := SendRecords(upstream, record, p.sniPos, p.sniLen, NUM_RECORDS, NUM_SEGMENTS, MOD_MINOR_VER);
    if !sent {
      return if hasFallback then FellBack(saved) else Closed;
    }
    if hasFallback {
      if |reply| == 0 {
        return FellBack(saved);
      }
      var probe, rest := reply[..1], reply[1..];
      assert probe + rest == reply;
      return Tunnelled(probe + rest);
    }
    return Tunnelled(reply);
  }

  /** What is written for a record that can be cut. */
  function SentFor(data: bytes): seq<bytes>
    requires Cuttable(data)
  {
    var p := ParseHello(data);
    Plan(Edited(data, MOD_MINOR_VER), p.sniPos, p.sniLen, NUM_RECORDS, NUM_SEGMENTS)
  }

  /** The parser accepts only records that hold a whole message. */
  lemma ParsedHolds(data: bytes)
    requires Cuttable(data) && data[0] == HANDSHAKE && Pair(data[3], data[4]) == |data| - HEADER_LEN
    requires |data| <= HEADER_LEN + MAX_PLAINTEXT
    ensures HelloRecord(data)
  {
    hide Pair, ParseExts, Skip8, Skip16;
    var s := data[HEADER_LEN..];
    assert s[1] == data[6] && s[2] == data[7] && s[3] == data[8];
  }

  /** What is sent for any handshake record makes the server read the message that the client sent. */
  lemma ServerReadsSame(data: bytes)
    requires Cuttable(data) && data[0] == HANDSHAKE && Pair(data[3], data[4]) == |data| - HEADER_LEN
    requires |data| <= HEADER_LEN + MAX_PLAINTEXT
    ensures var stream := Flat(SentFor(data));
            && WellFormed(FreshReader(stream)) && WellFormed(FreshReader(data))
            && ReadHandshake(FreshReader(stream)).message == ReadHandshake(FreshReader(data)).message
  {
    hide ParseHello, ReadHandshake, WellFormed, CutAt, Payloads, Records, Segments, Flat;
    ParsedHolds(data);
    var p := ParseHello(data);
    SameMessage(data, p.sniPos, p.sniLen, NUM_RECORDS, NUM_SEGMENTS, MOD_MINOR_VER);
  }

  // ----- The name is split -----

  /** The payloads of the records sent for a record that can be cut. */
  function PayloadsFor(data: bytes): seq<bytes>
    requires Cuttable(data)
  {
    var p, e := ParseHello(data), Edited(data, MOD_MINOR_VER);
    Payloads(e, CutAt(e, p.sniPos, p.sniLen), NUM_RECORDS)
  }

  /** The payload `i` covers all of the name. */
  predicate HoldsName(data: bytes, ps: seq<bytes>, i: nat)
    requires i < |ps|
  {
    var p, start := ParseHello(data), HEADER_LEN + |Flat(ps[..i])|;
    p.Parsed? && start <= p.sniPos && p.sniPos + p.sniLen <= start + |ps[i]|
  }

  lemma {:induction false} SameDot(a: bytes, b: bytes, lo: nat, i: int)
    requires |a| == |b| && lo - 1 <= i < |a| && forall j :: lo <= j <= i ==> a[j] == b[j]
    ensures LastDot(a, lo, i) == LastDot(b, lo, i)
    decreases i - lo + 1
  {
    if i >= lo {
      SameDot(a, b, lo, i - 1);
    }
  }

  /** What is sent for a name with a dot: a row of records, one of which begins exactly at the last dot. */
  lemma DotBeginsRecord(data: bytes, d: nat) returns (ps: seq<bytes>, i: nat)
    requires Cuttable(data) && DotLast(data, ParseHello(data).sniPos, ParseHello(data).sniLen, d)
    ensures Flat(SentFor(data)) == Flat(Records(Edited(data, MOD_MINOR_VER)[..3], ps)) && Flat(ps) == data[HEADER_LEN..]
    ensures i < |ps| && HEADER_LEN + |Flat(ps[..i])| == d && ps[i] != [] && ps[i][0] == DOT
  {
    hide ParseHello, Flat, Records, Plan;
    var p, e := ParseHello(data), Edited(data, MOD_MINOR_VER);
    assert e[d + 1..p.sniPos + p.sniLen + 1] == data[d + 1..p.sniPos + p.sniLen + 1];
    assert e[HEADER_LEN..] == data[HEADER_LEN..];
    ps, i := BeginsAtDot(e, p.sniPos, p.sniLen, NUM_RECORDS, NUM_SEGMENTS, d);
  }

  /**
   The cut touches the name at one end only, and the half of its side that
   touches the cut there is long enough for all of the name.
   */
  predicate NameFits(data: bytes)
    requires Cuttable(data)
  {
    var p := ParseHello(data);
    var cut := CutAt(data, p.sniPos, p.sniLen);
    || (cut == p.sniPos && p.sniLen <= (|data| - cut) / 2)
    || (cut == p.sniPos + p.sniLen && HEADER_LEN + (cut - HEADER_LEN) / 2 <= p.sniPos)
  }

  /** A side of at least two bytes is sent in two halves, one byte as it is. */
  lemma Halves(data: bytes)
    ensures |data| >= 2 ==> Parts(data, 2) == [data[..|data| / 2], data[|data| / 2..]]
    ensures |data| < 2 ==> Parts(data, 2) == [data]
  {
    if |data| >= 2 {
      Share(|data|, 2);
      SlicesStep(data, |data| / 2, 2);
      SlicesStep(data[|data| / 2..], |data| / 2, 1);
    }
  }

  lemma FlatOn(ps: seq<bytes>, i: nat)
    requires i < |ps|
    ensures |Flat(ps[..i + 1])| == |Flat(ps[..i])| + |ps[i]|
  {
    assert ps[..i + 1] == ps[..i] + [ps[i]];
    FlatConcat(ps[..i], [ps[i]]);
    assert Flat([ps[i]]) == ps[i] + Flat([]);
  }

  /** Where the payloads start and how long they are. */
  lemma FourPayloads(hello: bytes, cut: nat)
    requires HEADER_LEN + 2 <= cut < |hello|
    ensures var ps, l, r := Payloads(hello, cut, 4), (cut - HEADER_LEN) / 2, (|hello| - cut) / 2;
            && |ps| == (if |hello| - cut >= 2 then 4 else 3) && Flat(ps[..0]) == [] && |ps[0]| == l
            && HEADER_LEN + |Flat(ps[..1])| == HEADER_LEN + l && |ps[1]| == cut - HEADER_LEN - l
            && HEADER_LEN + |Flat(ps[..2])| == cut && |ps[2]| == (if |ps| == 4 then r else 1)
            && (|ps| == 4 ==> HEADER_LEN + |Flat(ps[..3])| == cut + r && |ps[3]| == |hello| - cut - r)
  {
    hide Parts;
    var ps := Payloads(hello, cut, 4);
    Halves(hello[HEADER_LEN..cut]);
    Halves(hello[cut..]);
    assert ps[..0] == [];
    FlatOn(ps, 0);
    FlatOn(ps, 1);
    FlatOn(ps, 2);
  }

  /** What is sent is a row of records, and one of them holds all of the name exactly when the name fits. */
  lemma NameIsWhole(data: bytes)
    requires Cuttable(data)
    ensures SentFor(data) == [Flat(Records(Edited(data, MOD_MINOR_VER)[..3], PayloadsFor(data)))]
    ensures (exists i :: 0 <= i < |PayloadsFor(data)| && HoldsName(data, PayloadsFor(data), i)) <==> NameFits(data)
  {
    hide ParseHello, Records, Flat, Payloads, LastDot;
    var p, e, ps := ParseHello(data), Edited(data, MOD_MINOR_VER), PayloadsFor(data);
    SameDot(e, data, p.sniPos, p.sniPos + p.sniLen);
    FourPayloads(e, CutAt(e, p.sniPos, p.sniLen));
    assert HoldsName(data, ps, 1) || HoldsName(data, ps, 2) <==> NameFits(data);
    assert !HoldsName(data, ps, 0) && (|ps| == 4 ==> !HoldsName(data, ps, 3));
  }

  /** A hello with the name "ab" and behind it an extension whose type starts with the byte of a dot. */
  const NAME_WHOLE: bytes :=
    [22, 3, 1, 0, 59, 1, 0, 0, 55, 3, 3]
    + [0, 0, 0, 0, 0, 0, 0, 0, 0, 0, 0, 0, 0, 0, 0, 0, 0, 0, 0, 0, 0, 0, 0, 0, 0, 0, 0, 0, 0, 0, 0, 0]
    + [0, 0, 0, 0, 0, 15, 0, 0, 0, 7, 0, 5, 0, 0, 2, 97, 98, 0x2e, 0, 0, 0]

  lemma WholeParses()
    ensures ParseHello(NAME_WHOLE) == Parsed([3, 3], 58, 2, false) && |NAME_WHOLE| == 64 && NAME_WHOLE[60] == DOT
  {
    var d := NAME_WHOLE;
    assert d[43] == 0 && d[44] == 0 && d[45] == 0 && d[46] == 0 && d[47] == 0 && d[48] == 15;
    assert d[49] == 0 && d[50] == 0 && d[51] == 0 && d[52] == 7 && d[53] == 0 && d[54] == 5 && d[55] == 0;
    assert d[56] == 0 && d[57] == 2 && d[60] == 0x2e && d[61] == 0 && d[62] == 0 && d[63] == 0;
    assert Skip8(d, 43) == Some(44) && Skip16(d, 44) == Some(46) && Skip8(d, 46) == Some(47);
    assert Skip16(d, 47) == Some(64) && NamePlace(d, 53, 60) == Some((58, 2));
    assert ParseExts(d, [3, 3], 64, 64, 58, 2, false) == Parsed([3, 3], 58, 2, false);
    assert ParseExts(d, [3, 3], 60, 64, 58, 2, false) == Parsed([3, 3], 58, 2, false);
    assert ParseExts(d, [3, 3], 49, 64, -1, 0, false) == Parsed([3, 3], 58, 2, false);
    assert d[9..11] == [3, 3];
  }

  /** The cut falls behind the name, and a record holds all of it. */
  lemma NameStays()
    ensures Cuttable(NAME_WHOLE) && NameFits(NAME_WHOLE)
    ensures exists i :: 0 <= i < |PayloadsFor(NAME_WHOLE)| && HoldsName(NAME_WHOLE, PayloadsFor(NAME_WHOLE), i)
  {
    hide HoldsName, PayloadsFor, ParseHello;
    WholeParses();
    NameIsWhole(NAME_WHOLE);
  }

  // ----- A record whose name comes last -----

  /** A hello with an empty session id, no suites, no compression methods and one name of one letter. */
  const NAME_LAST: bytes :=
    [22, 3, 1, 0, 54, 1, 0, 0, 50, 3, 3]
    + [0, 0, 0, 0, 0, 0, 0, 0, 0, 0, 0, 0, 0, 0, 0, 0, 0, 0, 0, 0, 0, 0, 0, 0, 0, 0, 0, 0, 0, 0, 0, 0]
    + [0, 0, 0, 0, 0, 10, 0, 0, 0, 6, 0, 4, 0, 0, 1, 97]

  /** The parser accepts it and places the name at the very end, where the search for a dot runs out of range. */
  lemma NameLastCrashes()
    ensures ParseHello(NAME_LAST) == Parsed([3, 3], 58, 1, false) && 58 + 1 == |NAME_LAST|
  {
    var d := NAME_LAST;
    assert |d| == 59 && d[43] == 0 && d[44] == 0 && d[45] == 0 && d[46] == 0 && d[47] == 0 && d[48] == 10;
    assert d[49] == 0 && d[50] == 0 && d[51] == 0 && d[52] == 6 && d[53] == 0 && d[54] == 4 && d[55] == 0;
    assert d[56] == 0 && d[57] == 1;
    assert Skip8(d, 43) == Some(44) && Skip16(d, 44) == Some(46) && Skip8(d, 46) == Some(47) && Skip16(d, 47) == Some(59);
    assert NamePlace(d, 53, 59) == Some((58, 1));
    assert ParseExts(d, [3, 3], 59, 59, 58, 1, false) == Parsed([3, 3], 58, 1, false);
    assert ParseExts(d, [3, 3], 49, 59, -1, 0, false) == Parsed([3, 3], 58, 1, false);
    assert d[9..11] == [3, 3];
  }
}
