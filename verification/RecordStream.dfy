/**
 A writer and a reader at the two ends of a connection: the records that a
 writer made, delivered as one stream of bytes, give the reader the bytes that
 were written.
 */
module RecordStream {
  import opened Bytes
  import opened Versions
  import opened HalfConn
  import opened RecordLayer
  import opened RecordReader
  import opened RecordWriter

  /** An established connection whose reading half has the keys and the number of `s`. */
  ghost predicate Established(c: Reader, s: State)
  {
    && WellFormed(c) && c.err.None? && c.input == [] && c.haveVers && c.complete
    && c.half == s && !s.protection.Plain? && Modest(s.protection) && c.vers == s.version != 0
  }

  /** The version in a record header, as the writer puts it and as the reader wants it. */
  lemma VersionExpected(vers: u16)
    requires vers != 0
    ensures var v := RecordVersion(vers);
            Pair(v[0], v[1]) == if vers == VERSION_TLS13 then VERSION_TLS12 else vers
  {
  }

  /** A sealed record at the front of the stream passes the reader's checks and is opened. */
  lemma TakesSealed(c: Reader, s: State, m: Message, rest: bytes)
    requires Established(c, s) && NumbersLeft(s, 1) && Sendable(s, m)
    requires m.version == RecordVersion(c.vers) && |m.payload| <= MAX_PLAINTEXT
    requires c.raw == Seal(s, m).record + rest
    ensures Take(c, false) ==
            Handle(c.(raw := rest, taken := c.taken + 1, half := Seal(s, m).state), m.typ, m.payload, false)
  {
    hide Seal, Decrypt, Sound, SealedLength, RecordVersion, U16, Handle;
    var e := Seal(s, m);
    var r := e.record;
    SealedFrame(s, m);
    SealedOpens(s, m);
    SealedLengthIs(s, m);
    UnderCeiling(s, |m.payload|, c.vers);
    VersionExpected(c.vers);
    var n := |r| - HEADER_LEN;
    assert Pair(r[3], r[4]) == n by { LengthOf(r, n); }
    assert c.raw[1..3] == m.version && c.raw[3..HEADER_LEN] == r[3..HEADER_LEN];
    assert c.raw[..|r|] == r && c.raw[|r|..] == rest;
  }

  lemma LengthOf(r: bytes, n: u16)
    requires |r| >= HEADER_LEN && r[3..HEADER_LEN] == U16(n)
    ensures Pair(r[3], r[4]) == n
  {
    assert r[3] == U16(n)[0] && r[4] == U16(n)[1];
  }

  // ----- Application data -----

  datatype Receipt = Receipt(data: bytes, reader: Reader)

  /** What an application gets that reads until an error, or until a handshake message comes in. */
  ghost function ReceiveAll(c: Reader): Receipt
    requires WellFormed(c)
    decreases |c.raw|
  {
    ReadRecordKeeps(c, false);
    var d := ReadRecord(c, false);
    if d.err.Some? || d.input == [] then Receipt([], d) else
    var r := ReceiveAll(d.(input := []));
    Receipt(d.input + r.data, r.reader)
  }

  /** The reader behind the records of a run. */
  ghost function Behind(c: Reader, s: State, ms: seq<Message>, tail: bytes): Reader
    requires CanRun(s, ms)
  {
    c.(raw := tail, taken := c.taken + |ms|, half := After(s, ms), retry := if ms == [] then c.retry else 0)
  }

  /** One record of application data is the input of one call. */
  lemma ReadsData(c: Reader, s: State, m: Message, tail: bytes)
    requires Established(c, s) && NumbersLeft(s, 1) && Sendable(s, m) && (c.vers == VERSION_TLS13 ==> c.hand == [])
    requires WellCut([m], APPLICATION_DATA, c.vers) && c.raw == Seal(s, m).record + tail
    ensures var b := c.(raw := tail, taken := c.taken + 1, half := Seal(s, m).state, retry := 0);
            ReadRecord(c, false) == b.(input := m.payload) && Established(b, Seal(s, m).state)
  {
    hide Seal, Valid, Take, RecordVersion;
    assert m == [m][0];
    TakesSealed(c, s, m, tail);
    SealAdvances(s, m);
    SealedSome(s, m);
  }

  lemma SealedSome(s: State, m: Message)
    requires Valid(s) && !s.protection.Plain? && NumbersLeft(s, 1) && Sendable(s, m)
    ensures |Seal(s, m).record| >= HEADER_LEN
  {
    SealedFrame(s, m);
  }

  /**
   The records of a run, followed by anything, give the reader the data they were cut from;
   reading then goes on behind them.
   */
  lemma {:induction false} DataArrives(c: Reader, s: State, ms: seq<Message>, data: bytes, tail: bytes)
    requires Established(c, s) && CanRun(s, ms) && (c.vers == VERSION_TLS13 ==> c.hand == [])
    requires WellCut(ms, APPLICATION_DATA, c.vers) && Cuts(ms, data) && c.raw == Flat(SealAll(s, ms)) + tail
    ensures var b := Behind(c, s, ms, tail);
            && Established(b, After(s, ms))
            && ReceiveAll(c) == Receipt(data + ReceiveAll(b).data, ReceiveAll(b).reader)
            && (tail == [] ==> ReceiveAll(c) == Receipt(data, Fail(b, EndOfStream)))
    decreases |ms|
  {
    hide Seal, Valid, Sendable, RecordVersion, ReadRecord;
    if ms == [] {
      assert c.raw == tail && Behind(c, s, ms, tail) == c;
      assert PayloadsOf(ms) == [];
      if tail == [] {
        NothingLeft(c);
      }
    } else {
      RunOn(s, ms);
      var e, m := Seal(s, ms[0]), ms[0];
      var later := Flat(SealAll(e.state, ms[1..])) + tail;
      assert SealAll(s, ms)[1..] == SealAll(e.state, ms[1..]) && SealAll(s, ms)[0] == e.record;
      Assoc(e.record, Flat(SealAll(e.state, ms[1..])), tail);
      ReadsData(c, s, m, later);
      var b := c.(raw := later, taken := c.taken + 1, half := e.state, retry := 0);
      assert PayloadsOf(ms) == [m.payload] + PayloadsOf(ms[1..]);
      var rest := Flat(PayloadsOf(ms[1..]));
      DataArrives(b, e.state, ms[1..], rest, tail);
      assert Behind(b, e.state, ms[1..], tail) == Behind(c, s, ms, tail);
      Assoc(m.payload, rest, ReceiveAll(Behind(c, s, ms, tail)).data);
    }
  }

  lemma NothingLeft(c: Reader)
    requires WellFormed(c) && c.err.None? && c.input == [] && c.raw == []
    ensures ReceiveAll(c) == Receipt([], Fail(c, EndOfStream))
  {
    hide Valid;
  }
}
