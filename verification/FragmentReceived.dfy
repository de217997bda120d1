/**
 Fragmentation preserves meaning: a server that reads the fragments assembles
 the same handshake message as one that reads the original record.
 */
module FragmentReceived {
  import opened Bytes
  import opened Nonce
  import opened HalfConn
  import opened RecordReader
  import opened Fragment

  /** A server waiting for its first message: no version agreed, no keys, no error. */
  ghost predicate Listening(c: Reader)
  {
    && WellFormed(c) && c.err.None? && c.input == [] && c.vers == 0 && !c.haveVers && !c.complete
    && c.half.protection.Plain? && c.half.version == 0
  }

  /** The start of a handshake record whose version does not look absurd. */
  predicate Opening3(header: bytes)
  {
    |header| == 3 && header[0] == HANDSHAKE && header[1] < 0x10
  }

  predicate Fits(p: bytes)
  {
    0 < |p| <= MAX_PLAINTEXT
  }

  lemma RecordHead(header: bytes, p: bytes, tail: bytes)
    requires |header| == 3 && |p| < 0x1_0000
    ensures var raw := Record(header, p) + tail;
            && |raw| >= HEADER_LEN && raw[0] == header[0] && raw[1] == header[1] && raw[2] == header[2]
            && Pair(raw[3], raw[4]) == |p|
            && HEADER_LEN + |p| <= |raw| && raw[..HEADER_LEN + |p|] == Record(header, p)
            && raw[HEADER_LEN + |p|..] == tail && Record(header, p)[HEADER_LEN..] == p
  {
    assert Pair(U16(|p|)[0], U16(|p|)[1]) == |p|;
  }

  /** The reader after one handshake fragment. */
  function Received(c: Reader, p: bytes, tail: bytes): Reader
    requires c.half.count < MAX_SEQ
  {
    c.(raw := tail, hand := c.hand + p, retry := 0, taken := c.taken + 1, half := c.half.(count := c.half.count + 1))
  }

  lemma ReadFragment(c: Reader, header: bytes, p: bytes, tail: bytes)
    requires Listening(c) && Opening3(header) && Fits(p) && c.raw == Record(header, p) + tail
    ensures ReadRecord(c, false) == Received(c, p, tail) && Listening(Received(c, p, tail))
  {
    hide Record, Sound;
    RecordHead(header, p, tail);
    assert Pair(header[1], header[2]) < 0x1000 <==> header[1] < 0x10;
    var d := Decrypt(c.half, Record(header, p));
    assert d == HalfConn.Opening(p, HANDSHAKE, c.half.(count := c.half.count + 1));
    assert CheckHeader(c).None?;
    assert Take(c, false) == Done(Received(c, p, tail));
  }

  // ----- Many fragments -----

  function Joined(header: bytes, ps: seq<bytes>): bytes
  {
    Flat(Records(header, ps))
  }

  lemma JoinedHead(header: bytes, ps: seq<bytes>)
    requires ps != []
    ensures Joined(header, ps) == Record(header, ps[0]) + Joined(header, ps[1..])
  {
    hide Record;
    assert Records(header, ps)[1..] == Records(header, ps[1..]);
  }

  predicate AllFit(ps: seq<bytes>)
  {
    forall i :: 0 <= i < |ps| ==> Fits(ps[i])
  }

  /** Reading until `n` bytes are there takes the first `k` fragments and no other. */
  lemma {:induction false} FillFragments(c: Reader, n: nat, header: bytes, ps: seq<bytes>) returns (k: nat)
    requires Listening(c) && Opening3(header) && AllFit(ps) && c.raw == Joined(header, ps)
    requires |c.hand| + |Flat(ps)| >= n
    ensures k <= |ps|
    ensures var d := Fill(c, n);
            && Listening(d) && |d.hand| >= n && d.hand == c.hand + Flat(ps[..k]) && d.raw == Joined(header, ps[k..])
    decreases |ps|
  {
    hide Listening, Joined, WellFormed, Record, Flat, ReadRecord;
    ListeningFacts(c);
    if |c.hand| >= n {
      assert Fill(c, n) == c;
      assert c.hand + [] == c.hand && ps[..0] == [] && ps[0..] == ps;
      return 0;
    }
    JoinedHead(header, ps);
    ReadOne(c, header, ps, Joined(header, ps[1..]));
    var d := ReadRecord(c, false);
    FlatHead(ps, |ps|);
    var j := FillFragments(d, n, header, ps[1..]);
    k := j + 1;
    FlatHead(ps, k);
    assert ps[1..][j..] == ps[k..];
    Assoc(c.hand, ps[0], Flat(ps[1..][..j]));
  }

  lemma FlatHead(ps: seq<bytes>, k: nat)
    requires 0 < k <= |ps|
    ensures Flat(ps[..k]) == ps[0] + Flat(ps[1..][..k - 1]) && (k == |ps| ==> Flat(ps) == ps[0] + Flat(ps[1..]))
  {
    assert ps[..k][1..] == ps[1..][..k - 1];
  }

  lemma ReadOne(c: Reader, header: bytes, ps: seq<bytes>, tail: bytes)
    requires Listening(c) && Opening3(header) && ps != [] && AllFit(ps) && c.raw == Record(header, ps[0]) + tail
    ensures var d := ReadRecord(c, false);
            Listening(d) && d.raw == tail && d.hand == c.hand + ps[0] && d.err.None?
  {
    hide ReadRecord, Record, WellFormed;
    ReadFragment(c, header, ps[0], tail);
  }

  /** The message at the front of the joined payloads, and how much of them is left over. */
  lemma ReadFragments(c: Reader, header: bytes, ps: seq<bytes>)
    requires Listening(c) && c.hand == [] && Opening3(header) && AllFit(ps) && c.raw == Joined(header, ps)
    requires |Flat(ps)| >= 4 && 4 + BodyLen(Flat(ps)) <= |Flat(ps)| && BodyLen(Flat(ps)) <= MAX_HANDSHAKE
    ensures var r := ReadHandshake(c);
            && r.message == Some(Flat(ps)[..4 + BodyLen(Flat(ps))]) && r.reader.err.None?
            && exists k :: 0 <= k <= |ps| && r.reader.raw == Joined(header, ps[k..])
                           && r.reader.hand + Flat(ps[k..]) == Flat(ps)[4 + BodyLen(Flat(ps))..]
  {
    hide Listening, Joined, WellFormed, Fill, Flat;
    ListeningFacts(c);
    var whole := Flat(ps);
    var n := BodyLen(whole);
    var k := FillFragments(c, 4, header, ps);
    var d := Fill(c, 4);
    ListeningFacts(d);
    SplitAt(ps, k);
    assert [] + Flat(ps[..k]) == Flat(ps[..k]);
    assert BodyLen(d.hand) == BodyLen(d.hand + Flat(ps[k..]));
    var j := FillFragments(d, 4 + n, header, ps[k..]);
    var e := Fill(d, 4 + n);
    ListeningFacts(e);
    SplitAt(ps[k..], j);
    assert ps[k..][j..] == ps[k + j..];
    Assoc(d.hand, Flat(ps[k..][..j]), Flat(ps[k + j..]));
    CutMessage(e.hand, Flat(ps[k + j..]), 4 + n);
  }

  lemma CutMessage(a: bytes, b: bytes, n: nat)
    requires n <= |a|
    ensures a[..n] == (a + b)[..n] && a[n..] + b == (a + b)[n..]
  {
  }

  lemma ListeningFacts(c: Reader)
    requires Listening(c)
    ensures WellFormed(c) && c.err.None? && !c.haveVers
  {
  }

  lemma SplitAt(ps: seq<bytes>, k: nat)
    requires k <= |ps|
    ensures Flat(ps) == Flat(ps[..k]) + Flat(ps[k..])
  {
    FlatConcat(ps[..k], ps[k..]);
    assert ps == ps[..k] + ps[k..];
  }

  // ----- The theorem -----

  /** One handshake record that holds at least one whole message. */
  predicate HelloRecord(data: bytes)
  {
    && HEADER_LEN + 4 <= |data| <= HEADER_LEN + MAX_PLAINTEXT && data[0] == HANDSHAKE
    && Pair(data[3], data[4]) == |data| - HEADER_LEN
    && 4 + BodyLen(data[HEADER_LEN..]) <= |data| - HEADER_LEN
  }

  lemma WholeRecord(data: bytes)
    requires HelloRecord(data)
    ensures data == Record(data[..3], data[HEADER_LEN..]) == Joined(data[..3], [data[HEADER_LEN..]])
  {
    Split16(data[3], data[4]);
    assert data == data[..3] + [data[3], data[4]] + data[HEADER_LEN..];
    JoinedHead(data[..3], [data[HEADER_LEN..]]);
    assert Records(data[..3], []) == [];
    assert Record(data[..3], data[HEADER_LEN..]) + [] == Record(data[..3], data[HEADER_LEN..]);
  }

  lemma {:induction false} JoinedSize(header: bytes, ps: seq<bytes>)
    requires |header| == 3
    ensures |Joined(header, ps)| == HEADER_LEN * |ps| + |Flat(ps)|
  {
    if ps != [] {
      JoinedHead(header, ps);
      JoinedSize(header, ps[1..]);
    } else {
      assert Records(header, ps) == [];
    }
  }

  lemma {:induction false} CountBound(ps: seq<bytes>)
    requires [] !in ps
    ensures |ps| <= |Flat(ps)|
  {
    if ps != [] {
      assert ps[0] in ps && [] !in ps[1..];
      CountBound(ps[1..]);
    }
  }

  lemma {:induction false} PartBound(ps: seq<bytes>, i: nat)
    requires i < |ps|
    ensures |ps[i]| <= |Flat(ps)|
  {
    PartPlace(Flat(ps), ps, i);
  }

  /** What a server makes of any division of the payload into fragments. */
  lemma FragmentsRead(header: bytes, ps: seq<bytes>)
    requires |header| == 3 && header[0] == HANDSHAKE && [] !in ps && 4 <= |Flat(ps)| <= MAX_PLAINTEXT
    requires 4 + BodyLen(Flat(ps)) <= |Flat(ps)|
    ensures |Joined(header, ps)| < MAX_SEQ && WellFormed(FreshReader(Joined(header, ps)))
    ensures ReadHandshake(FreshReader(Joined(header, ps))).message ==
            if header[1] < 0x10 then Some(Flat(ps)[..4 + BodyLen(Flat(ps))]) else None
  {
    hide Flat;
    JoinedSize(header, ps);
    CountBound(ps);
    var c := FreshReader(Joined(header, ps));
    assert Listening(FreshReader(Joined(header, ps)));
    ListeningFacts(c);
    if header[1] < 0x10 {
      forall i | 0 <= i < |ps| ensures Fits(ps[i]) {
        PartBound(ps, i);
        assert ps[i] in ps;
      }
      ReadFragments(c, header, ps);
    } else {
      assert ps != [];
      JoinedHead(header, ps);
      var rest := U16(|ps[0]|) + ps[0] + Joined(header, ps[1..]);
      assert Record(header, ps[0]) + Joined(header, ps[1..]) == header + rest;
      assert ReadHandshake(c) == HandshakeRead(None, Fail(c, NotTls));
    }
  }

  /**
   For every hello record, every number of records and of segments and every
   position of the name, the bytes sent make the server read the same first
   message as the original record does.
   */
  lemma SameMessage(data: bytes, offset: int, length: int, records: nat, segments: nat, modMinorVer: bool)
    requires HelloRecord(data) && records >= 1 && segments >= 1
    requires HEADER_LEN < offset && InRange(data, offset, length, records, segments)
    ensures InRange(Edited(data, modMinorVer), offset, length, records, segments)
    ensures var stream := Flat(Plan(Edited(data, modMinorVer), offset, length, records, segments));
            && WellFormed(FreshReader(stream)) && WellFormed(FreshReader(data))
            && ReadHandshake(FreshReader(stream)).message == ReadHandshake(FreshReader(data)).message
            && (data[1] < 0x10 ==>
                  ReadHandshake(FreshReader(stream)).message ==
                  Some(data[HEADER_LEN..][..4 + BodyLen(data[HEADER_LEN..])]))
  {
    hide ReadHandshake, WellFormed, Payloads, Segments, CutAt, BodyLen, Pair, Records, DotLast;
    var body := data[HEADER_LEN..];
    var hello := Edited(data, modMinorVer);
    WholeRecord(data);
    assert Flat([body]) == body && [] !in [body];
    FragmentsRead(data[..3], [body]);
    if records == 1 {
      SegmentsOnly(hello, offset, length, segments);
      WholeRecord(hello);
      FragmentsRead(hello[..3], [body]);
    } else {
      var cut := CutAt(hello, offset, length);
      PayloadsWhole(hello, cut, records);
      var ps := Payloads(hello, cut, records);
      FragmentsRead(hello[..3], ps);
      SegmentsWhole(Joined(hello[..3], ps), segments);
    }
  }
}
