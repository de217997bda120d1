/**
 Reading records: how one call takes records off the connection until it has a
 handshake fragment, new keys, application data or an error, and how handshake
 messages are assembled from the fragments.
 */
module RecordReader {
  import opened Bytes
  import opened Nonce
  import opened HalfConn
  import opened HalfConnCode
  import opened RecordLayer
  import opened Versions
  import Certificate

  const MAX_CIPHERTEXT := 16384 + 2048
  const MAX_CIPHERTEXT_TLS13 := 16384 + 256
  const MAX_USELESS_RECORDS := 32
  const MAX_HANDSHAKE := 65536
  const MAX_HANDSHAKE_CERTIFICATE := 262144

  const ALERT_CLOSE_NOTIFY: byte := 0
  const ALERT_DECODE_ERROR: byte := 50
  const ALERT_PROTOCOL_VERSION: byte := 70
  const LEVEL_WARNING: byte := 1
  const LEVEL_ERROR: byte := 2

  datatype ReadError = EndOfStream | Truncated | PendingData | SslV2 | WrongVersion | NotTls | Oversized
                     | LocalAlert(alert: byte) | RemoteAlert(alert: byte) | TooManyIgnored | TooLong

  /**
   The reading side of a connection.  `raw` is all that the network will still
   deliver; `taken` counts the records taken off it.
   */
  datatype Reader = Reader(raw: bytes, hand: bytes, input: bytes, retry: nat, err: Option<ReadError>,
                           vers: u16, haveVers: bool, complete: bool, half: State, next: Pending,
                           alerts: bytes, taken: nat)

  /** Well formed, with fewer bytes to come than there are sequence numbers left. */
  ghost predicate WellFormed(c: Reader)
  {
    && Valid(c.half) && c.half.count + |c.raw| < MAX_SEQ
    && c.retry <= MAX_USELESS_RECORDS + 1 && (c.retry > MAX_USELESS_RECORDS ==> c.err.Some?)
    && (c.next.Pending? && c.half.version != VERSION_TLS13 ==>
          Valid(State(c.half.version, c.next.protection, 0, 0, c.next.iv)))
  }

  // ----- One record -----

  function Fail(c: Reader, e: ReadError): Reader
  {
    c.(err := Some(e))
  }

  function SendAlert(c: Reader, a: byte): Reader
  {
    c.(alerts := c.alerts + [a])
  }

  function Alerted(c: Reader, a: byte): Reader
  {
    Fail(SendAlert(c, a), LocalAlert(a))
  }

  datatype Step = Done(reader: Reader) | Ignored(reader: Reader)

  /** The header checks made before the body is read. */
  function CheckHeader(c: Reader): Option<Reader>
    requires |c.raw| >= HEADER_LEN
  {
    var typ, vers, n := c.raw[0], Pair(c.raw[1], c.raw[2]), Pair(c.raw[3], c.raw[4]);
    var expected := if c.vers == VERSION_TLS13 then VERSION_TLS12 else c.vers;
    if !c.complete && typ == 0x80 then Some(Fail(SendAlert(c, ALERT_PROTOCOL_VERSION), SslV2))
    else if c.haveVers && vers != expected then Some(Fail(SendAlert(c, ALERT_PROTOCOL_VERSION), WrongVersion))
    else if !c.haveVers && ((typ != ALERT && typ != HANDSHAKE) || vers >= 0x1000) then Some(Fail(c, NotTls))
    else if (c.vers == VERSION_TLS13 && n > MAX_CIPHERTEXT_TLS13) || n > MAX_CIPHERTEXT then
      Some(Fail(SendAlert(c, ALERT_RECORD_OVERFLOW), Oversized))
    else None
  }

  /** What an opened record does; `typ` and `data` are its content. */
  function Handle(c: Reader, typ: byte, data: bytes, expectCcs: bool): Step
  {
    if |data| > MAX_PLAINTEXT then Done(Alerted(c, ALERT_RECORD_OVERFLOW))
    else if c.half.protection.Plain? && typ == APPLICATION_DATA then Done(Alerted(c, ALERT_UNEXPECTED_MESSAGE))
    else
      var d := if typ != ALERT && typ != CHANGE_CIPHER_SPEC && |data| > 0 then c.(retry := 0) else c;
      if c.vers == VERSION_TLS13 && typ != HANDSHAKE && |c.hand| > 0 then Done(Alerted(d, ALERT_UNEXPECTED_MESSAGE))
      else if typ == ALERT then HandleAlert(d, data)
      else if typ == CHANGE_CIPHER_SPEC then HandleCcs(d, data, expectCcs)
      else if typ == APPLICATION_DATA then
        if !c.complete || expectCcs then Done(Alerted(d, ALERT_UNEXPECTED_MESSAGE))
        else if data == [] then Ignored(d)
        else Done(d.(input := data))
      else if typ == HANDSHAKE then
        if data == [] || expectCcs then Done(Alerted(d, ALERT_UNEXPECTED_MESSAGE))
        else Done(d.(hand := d.hand + data))
      else Done(Alerted(d, ALERT_UNEXPECTED_MESSAGE))
  }

  function HandleAlert(c: Reader, data: bytes): Step
  {
    if |data| != 2 then Done(Alerted(c, ALERT_UNEXPECTED_MESSAGE))
    else if data[1] == ALERT_CLOSE_NOTIFY then Done(Fail(c, EndOfStream))
    else if c.vers == VERSION_TLS13 then Done(Fail(c, RemoteAlert(data[1])))
    else if data[0] == LEVEL_WARNING then Ignored(c)
    else if data[0] == LEVEL_ERROR then Done(Fail(c, RemoteAlert(data[1])))
    else Done(Alerted(c, ALERT_UNEXPECTED_MESSAGE))
  }

  function HandleCcs(c: Reader, data: bytes, expectCcs: bool): Step
  {
    if data != [1] then Done(Alerted(c, ALERT_DECODE_ERROR))
    else if |c.hand| > 0 then Done(Alerted(c, ALERT_UNEXPECTED_MESSAGE))
    else if c.vers == VERSION_TLS13 && !c.complete then Ignored(c)
    else if !expectCcs then Done(Alerted(c, ALERT_UNEXPECTED_MESSAGE))
    else if c.next.Nothing? || c.half.version == VERSION_TLS13 then Done(Alerted(c, ALERT_INTERNAL_ERROR))
    else Done(c.(half := State(c.half.version, c.next.protection, 0, 0, c.next.iv), next := Nothing))
  }

  /** Takes one record off the network and acts on it. */
  ghost function Take(c: Reader, expectCcs: bool): Step
    requires WellFormed(c) && c.err.None?
  {
    if |c.raw| < HEADER_LEN then Done(Fail(c, if c.raw == [] then EndOfStream else Truncated)) else
    var bad := CheckHeader(c);
    if bad.Some? then Done(bad.value) else
    var end := HEADER_LEN + Pair(c.raw[3], c.raw[4]);
    if |c.raw| < end then Done(Fail(c, Truncated)) else TakeBody(c, end, expectCcs)
  }

  /** Opens the first `end` bytes as a record and acts on it. */
  ghost function TakeBody(c: Reader, end: nat, expectCcs: bool): Step
    requires WellFormed(c) && HEADER_LEN <= end <= |c.raw|
  {
    var d := Decrypt(c.half, c.raw[..end]);
    var c' := c.(raw := c.raw[end..], taken := c.taken + 1, half := d.state);
    if d.Refused? then Done(Alerted(c', d.alert)) else Handle(c', d.typ, d.data, expectCcs)
  }

  // ----- One call -----

  ghost function ReadRecord(c: Reader, expectCcs: bool): Reader
    requires WellFormed(c)
    decreases MAX_USELESS_RECORDS + 1 - c.retry
  {
    if c.err.Some? then c
    else if c.input != [] then Fail(c, PendingData)
    else
      var s := Take(c, expectCcs);
      TakeKeeps(c, expectCcs);
      if s.Done? then s.reader else
      var d := s.reader.(retry := s.reader.retry + 1);
      if d.retry > MAX_USELESS_RECORDS then Fail(SendAlert(d, ALERT_UNEXPECTED_MESSAGE), TooManyIgnored)
      else ReadRecord(d, expectCcs)
  }

  /** Acting on content leaves the network alone; ignoring it changes nothing. */
  ghost predicate Keeps(c: Reader, s: Step)
  {
    WellFormed(s.reader) && s.reader.raw == c.raw && s.reader.taken == c.taken && (s.Ignored? ==> s.reader == c)
  }

  lemma AlertKeeps(c: Reader, data: bytes)
    requires WellFormed(c) && c.err.None?
    ensures Keeps(c, HandleAlert(c, data))
  {
    hide Valid;
  }

  lemma CcsKeeps(c: Reader, data: bytes, expectCcs: bool)
    requires WellFormed(c) && c.err.None?
    ensures Keeps(c, HandleCcs(c, data, expectCcs))
  {
    hide Valid;
  }

  lemma HandleKeeps(c: Reader, typ: byte, data: bytes, expectCcs: bool)
    requires WellFormed(c) && c.err.None?
    ensures Keeps(c, Handle(c, typ, data, expectCcs))
  {
    hide HandleAlert, HandleCcs;
    AlertKeeps(c, data);
    CcsKeeps(c, data, expectCcs);
    var d := c.(retry := 0);
    assert WellFormed(c.(retry := 0));
    assert WellFormed(Alerted(c, ALERT_RECORD_OVERFLOW));
    assert WellFormed(Alerted(c, ALERT_UNEXPECTED_MESSAGE));
    assert WellFormed(Alerted(d, ALERT_UNEXPECTED_MESSAGE));
  }

  /** A step keeps the reader well formed, and an ignored record changes only what reading it must change. */
  lemma TakeKeeps(c: Reader, expectCcs: bool)
    requires WellFormed(c) && c.err.None?
    ensures var s := Take(c, expectCcs);
            && WellFormed(s.reader) && |s.reader.raw| <= |c.raw| && c.taken <= s.reader.taken <= c.taken + 1
            && (s.reader.err.None? ==> |s.reader.raw| < |c.raw| && s.reader.taken == c.taken + 1)
            && (s.Ignored? ==> s.reader == c.(raw := s.reader.raw, taken := s.reader.taken, half := s.reader.half)
                               && s.reader.half.protection == c.half.protection
                               && s.reader.half.version == c.half.version)
  {
    hide Decrypt, Valid, CheckHeader, Handle, Pair;
    if |c.raw| >= HEADER_LEN {
      CheckHeaderKeeps(c);
      var end := HEADER_LEN + Pair(c.raw[3], c.raw[4]);
      PairRange(c.raw[3], c.raw[4]);
      if CheckHeader(c).None? && |c.raw| >= end {
        DecryptKeeps(c.half, c.raw[..end]);
        var d := Decrypt(c.half, c.raw[..end]);
        var c' := c.(raw := c.raw[end..], taken := c.taken + 1, half := d.state);
        assert WellFormed(c');
        if d.Opening? {
          HandleKeeps(c', d.typ, d.data, expectCcs);
        }
      }
    }
  }

  lemma CheckHeaderKeeps(c: Reader)
    requires |c.raw| >= HEADER_LEN
    ensures CheckHeader(c).Some? ==>
              var d := CheckHeader(c).value; d.err.Some? && d == c.(err := d.err, alerts := d.alerts)
  {
  }

  // ----- What a call does -----

  /** Content that a call drops: a warning, a superfluous change_cipher_spec of TLS 1.3, or no data at all. */
  predicate Idle(c: Reader, p: Plaintext, expectCcs: bool)
  {
    if p.typ == ALERT then
      c.vers != VERSION_TLS13 && |p.payload| == 2 && p.payload[0] == LEVEL_WARNING && p.payload[1] != ALERT_CLOSE_NOTIFY
    else if p.typ == CHANGE_CIPHER_SPEC then
      c.vers == VERSION_TLS13 && !c.complete && c.hand == [] && p.payload == [1]
    else
      && p.typ == APPLICATION_DATA && p.payload == [] && c.complete && !expectCcs && !c.half.protection.Plain?
      && (c.vers == VERSION_TLS13 ==> c.hand == [])
  }

  /** A handshake fragment was added to the buffer, and nothing else came in. */
  ghost predicate HandGrew(c: Reader, d: Reader, p: Plaintext)
  {
    && p.typ == HANDSHAKE && p.payload != [] && d.hand == c.hand + p.payload && d.input == []
    && d.half.protection == c.half.protection && d.next == c.next
  }

  ghost predicate KeysInstalled(c: Reader, d: Reader, p: Plaintext)
  {
    && p == Plaintext(CHANGE_CIPHER_SPEC, [1]) && d.hand == c.hand == [] && d.input == []
    && c.next.Pending? && d.next.Nothing?
    && d.half == State(c.half.version, c.next.protection, 0, 0, c.next.iv)
  }

  ghost predicate DataSet(c: Reader, d: Reader, p: Plaintext)
  {
    && p.typ == APPLICATION_DATA && d.input == p.payload != [] && d.hand == c.hand && c.complete
    && d.half.protection == c.half.protection && d.next == c.next
  }

  /** What the content of the last record of a call did. */
  ghost predicate Acted(c: Reader, d: Reader, p: Plaintext, expectCcs: bool)
  {
    if expectCcs then KeysInstalled(c, d, p) else HandGrew(c, d, p) || DataSet(c, d, p)
  }

  lemma HandleOutcome(c: Reader, p: Plaintext, expectCcs: bool)
    requires c.err.None? && c.input == []
    ensures var s := Handle(c, p.typ, p.payload, expectCcs);
            && s.reader.raw == c.raw && (s.Ignored? <==> Idle(c, p, expectCcs)) && (s.Ignored? ==> s.reader == c)
            && (s.Done? && s.reader.err.None? ==>
                  Acted(c, s.reader, p, expectCcs) && (!expectCcs ==> s.reader.half == c.half))
  {
  }

  /** A record that opens is dropped exactly when it is idle; one that does not is never dropped. */
  lemma TakeOutcome(c: Reader, expectCcs: bool) returns (record: bytes, p: Plaintext, t: State)
    requires WellFormed(c) && c.err.None? && c.input == []
    ensures var s := Take(c, expectCcs);
            s.Ignored? || s.reader.err.None? ==>
              && c.raw == record + s.reader.raw && CanOpen(c.half, record)
              && Decrypt(c.half, record) == Opening(p.payload, p.typ, t)
              && (s.Ignored? <==> Idle(c, p, expectCcs))
              && (s.Ignored? || !expectCcs ==> s.reader.half == t)
              && (s.Done? ==> Acted(c, s.reader, p, expectCcs))
  {
    hide Decrypt, Valid, CheckHeader, Pair, Handle;
    record, p, t := [], Plaintext(0, []), c.half;
    if |c.raw| >= HEADER_LEN {
      CheckHeaderKeeps(c);
      PairRange(c.raw[3], c.raw[4]);
      var end := HEADER_LEN + Pair(c.raw[3], c.raw[4]);
      if CheckHeader(c).None? && |c.raw| >= end {
        record := c.raw[..end];
        DecryptKeeps(c.half, record);
        var d := Decrypt(c.half, record);
        assert c.raw == record + c.raw[end..];
        if d.Opening? {
          p, t := Plaintext(d.typ, d.data), d.state;
          HandleOutcome(c.(raw := c.raw[end..], taken := c.taken + 1, half := t), p, expectCcs);
        }
      }
    }
  }

  /** A call takes at most 33 records less those already dropped, and without error ends with fewer bytes to read. */
  lemma {:induction false} ReadRecordKeeps(c: Reader, expectCcs: bool)
    requires WellFormed(c)
    ensures var d := ReadRecord(c, expectCcs);
            && WellFormed(d) && |d.raw| <= |c.raw|
            && c.taken <= d.taken && (c.err.None? ==> d.taken - c.taken <= MAX_USELESS_RECORDS + 1 - c.retry)
            && (d.err.None? ==> |d.raw| < |c.raw| && d.taken > c.taken)
    decreases MAX_USELESS_RECORDS + 1 - c.retry
  {
    hide Take, Valid;
    if c.err.None? && c.input == [] {
      TakeKeeps(c, expectCcs);
      var s := Take(c, expectCcs);
      if s.Ignored? && s.reader.retry < MAX_USELESS_RECORDS {
        ReadRecordKeeps(s.reader.(retry := s.reader.retry + 1), expectCcs);
      }
    }
  }

  /** One more record in front of those that were opened. */
  lemma OpenedBefore(s: State, record: bytes, p: Plaintext, h: State, rs: seq<bytes>, qs: seq<Plaintext>, t: State)
    requires CanOpen(s, record) && Decrypt(s, record) == Opening(p.payload, p.typ, h)
    requires OpenAll(h, rs) == OpenedAll(qs, t)
    ensures OpenAll(s, [record] + rs) == OpenedAll([p] + qs, t) && Flat([record] + rs) == record + Flat(rs)
  {
    hide Decrypt;
    assert ([record] + rs)[1..] == rs;
  }

  /**
   The records at the front of the stream, opened in order to `ps`.  All but the last are idle, and the
   last is what the call delivers: its payload is the application data, or the fragment added to the
   handshake buffer, or it installs the keys.
   */
  ghost predicate Took(c: Reader, d: Reader, records: seq<bytes>, ps: seq<Plaintext>, t: State, expectCcs: bool)
  {
    && c.raw == Flat(records) + d.raw && |records| == |ps| == d.taken - c.taken > 0
    && OpenAll(c.half, records) == OpenedAll(ps, t) && (!expectCcs ==> d.half == t)
    && (forall i :: 0 <= i < |ps| - 1 ==> Idle(c, ps[i], expectCcs))
    && Acted(c, d, ps[|ps| - 1], expectCcs)
  }

  lemma TookOne(c: Reader, d: Reader, record: bytes, p: Plaintext, t: State, expectCcs: bool)
    requires c.raw == record + d.raw && d.taken == c.taken + 1 && CanOpen(c.half, record)
    requires Decrypt(c.half, record) == Opening(p.payload, p.typ, t) && (!expectCcs ==> d.half == t)
    requires Acted(c, d, p, expectCcs)
    ensures Took(c, d, [record], [p], t, expectCcs)
  {
    hide Decrypt, Acted, Idle;
    OpenedBefore(c.half, record, p, t, [], [], t);
    assert [record] + [] == [record] && [p] + [] == [p] && record + [] == record;
  }

  lemma TookMore(c: Reader, b: Reader, d: Reader, record: bytes, p: Plaintext, rs: seq<bytes>, qs: seq<Plaintext>,
                 t: State, expectCcs: bool)
    requires c.raw == record + b.raw && CanOpen(c.half, record)
    requires Decrypt(c.half, record) == Opening(p.payload, p.typ, b.half) && Idle(c, p, expectCcs)
    requires Took(b, d, rs, qs, t, expectCcs) && b.taken == c.taken + 1
    requires b == c.(raw := b.raw, taken := b.taken, half := b.half, retry := b.retry)
    requires b.half.protection == c.half.protection && b.half.version == c.half.version
    ensures Took(c, d, [record] + rs, [p] + qs, t, expectCcs)
  {
    hide Decrypt, OpenAll, Flat;
    OpenedBefore(c.half, record, p, b.half, rs, qs, t);
    Assoc(record, Flat(rs), d.raw);
    var ps := [p] + qs;
    forall i | 0 <= i < |ps| - 1 ensures Idle(c, ps[i], expectCcs) {
      assert i > 0 ==> ps[i] == qs[i - 1];
    }
  }

  /** What every call without error does to the stream and to the connection. */
  lemma {:induction false} ReadRecordOutcome(c: Reader, expectCcs: bool)
    returns (records: seq<bytes>, ps: seq<Plaintext>, t: State)
    requires WellFormed(c)
    ensures var d := ReadRecord(c, expectCcs); d.err.None? ==> Took(c, d, records, ps, t, expectCcs)
    decreases MAX_USELESS_RECORDS + 1 - c.retry
  {
    hide Take, Valid, Decrypt, Took, Idle, Acted, Flat, OpenAll;
    records, ps, t := [], [], c.half;
    var d := ReadRecord(c, expectCcs);
    if d.err.None? {
      var record, p, h := TakeOutcome(c, expectCcs);
      TakeKeeps(c, expectCcs);
      var s := Take(c, expectCcs);
      if s.Done? {
        records, ps, t := [record], [p], h;
        TookOne(c, d, record, p, t, expectCcs);
      } else {
        var b := s.reader.(retry := s.reader.retry + 1);
        var rs, qs, u := ReadRecordOutcome(b, expectCcs);
        records, ps, t := [record] + rs, [p] + qs, u;
        TookMore(c, b, d, record, p, rs, qs, t, expectCcs);
      }
    }
  }

  // ----- Handshake messages -----

  /** Reads until the handshake buffer holds `n` bytes, or an error stops it. */
  ghost function Fill(c: Reader, n: nat): Reader
    requires WellFormed(c)
    decreases |c.raw|
  {
    if |c.hand| >= n then c else
    ReadRecordKeeps(c, false);
    var d := ReadRecord(c, false);
    if d.err.Some? then d else Fill(d, n)
  }

  lemma {:induction false} FillKeeps(c: Reader, n: nat)
    requires WellFormed(c)
    ensures WellFormed(Fill(c, n))
    decreases |c.raw|
  {
    hide WellFormed;
    if |c.hand| < n {
      ReadRecordKeeps(c, false);
      var d := ReadRecord(c, false);
      if d.err.None? {
        FillKeeps(d, n);
      }
    }
  }

  /** The body length in a handshake header. */
  function BodyLen(hand: bytes): nat
    requires |hand| >= 4
  {
    hand[1] as int * 0x1_0000 + Pair(hand[2], hand[3])
  }

  function MaxHandshake(c: Reader): nat
    requires |c.hand| >= 4
  {
    if c.haveVers && c.hand[0] == Certificate.TYPE_CERTIFICATE then MAX_HANDSHAKE_CERTIFICATE else MAX_HANDSHAKE
  }

  datatype HandshakeRead = HandshakeRead(message: Option<bytes>, reader: Reader)

  ghost function ReadHandshake(c: Reader): HandshakeRead
    requires WellFormed(c)
  {
    var d := Fill(c, 4);
    FillKeeps(c, 4);
    if |d.hand| < 4 then HandshakeRead(None, d) else
    var n := BodyLen(d.hand);
    if n > MaxHandshake(d) then HandshakeRead(None, Fail(SendAlert(d, ALERT_INTERNAL_ERROR), TooLong)) else
    var e := Fill(d, 4 + n);
    if |e.hand| < 4 + n then HandshakeRead(None, e)
    else HandshakeRead(Some(e.hand[..4 + n]), e.(hand := e.hand[4 + n..]))
  }

  // ----- The connection object -----

  class Conn {
    var raw: bytes
    var hand: bytes
    var input: bytes
    var retry: nat
    var err: Option<ReadError>
    var vers: u16
    var haveVers: bool
    var complete: bool
    const half: Half
    var alerts: bytes
    var taken: nat

    ghost function Snap(): Reader
      requires half.counter.Length == 8
      reads this, half, half.counter
    {
      Reader(raw, hand, input, retry, err, vers, haveVers, complete, half.St(), half.next, alerts, taken)
    }

    ghost predicate Linked()
      reads this, half, half.parts
    {
      half.Wired() && this !in half.parts
    }

    ghost predicate Ready()
      reads this, half, half.parts
    {
      Linked() && WellFormed(Snap())
    }

    /** A connection that has read nothing yet, over a network that will deliver `stream`. */
    constructor (stream: bytes)
      requires |stream| < MAX_SEQ
      ensures fresh(half) && fresh(half.parts) && Ready() && Snap() == FreshReader(stream)
    {
      raw, hand, input, retry, err := stream, [], [], 0, None;
      vers, haveVers, complete, alerts, taken := 0, false, false, [], 0;
      half := new Half();
    }

    method HandleAlertRecord(data: bytes) returns (ignored: bool)
      requires Ready() && err.None?
      modifies this`err, this`alerts
      ensures HandleAlert(old(Snap()), data) == if ignored then Ignored(Snap()) else Done(Snap())
    {
      ignored := false;
      if |data| != 2 {
        alerts, err := alerts + [ALERT_UNEXPECTED_MESSAGE], Some(LocalAlert(ALERT_UNEXPECTED_MESSAGE));
      } else if data[1] == ALERT_CLOSE_NOTIFY {
        err := Some(EndOfStream);
      } else if vers == VERSION_TLS13 {
        err := Some(RemoteAlert(data[1]));
      } else if data[0] == LEVEL_WARNING {
        ignored := true;
      } else if data[0] == LEVEL_ERROR {
        err := Some(RemoteAlert(data[1]));
      } else {
        alerts, err := alerts + [ALERT_UNEXPECTED_MESSAGE], Some(LocalAlert(ALERT_UNEXPECTED_MESSAGE));
      }
    }

    method HandleCcsRecord(data: bytes, expectCcs: bool) returns (ignored: bool)
      requires Ready() && err.None?
      modifies this`err, this`alerts, half, half.counter
      ensures Linked() && fresh(half.parts - old(half.parts))
      ensures HandleCcs(old(Snap()), data, expectCcs) == if ignored then Ignored(Snap()) else Done(Snap())
    {
      hide Value;
      ignored := false;
      var a := None;
      if |data| != 1 || data[0] != 1 {
        a := Some(ALERT_DECODE_ERROR);
      } else if |hand| > 0 {
        a := Some(ALERT_UNEXPECTED_MESSAGE);
      } else if vers == VERSION_TLS13 && !complete {
        ignored := true;
      } else if !expectCcs {
        a := Some(ALERT_UNEXPECTED_MESSAGE);
      } else {
        a := half.ChangeCipherSpec();
      }
      if a.Some? {
        alerts, err := alerts + [a.value], Some(LocalAlert(a.value));
      }
    }

    /** Acts on the content of a record. */
    method HandleContent(typ: byte, data: bytes, expectCcs: bool) returns (ignored: bool)
      requires Ready() && err.None?
      modifies this, half, half.parts
      ensures Linked() && fresh(half.parts - old(half.parts))
      ensures Handle(old(Snap()), typ, data, expectCcs) == if ignored then Ignored(Snap()) else Done(Snap())
    {
      hide Value, HandleAlert, HandleCcs, Valid;
      ignored := false;
      var a := None;
      if |data| > MAX_PLAINTEXT {
        a := Some(ALERT_RECORD_OVERFLOW);
      } else if half.protection.Plain? && typ == APPLICATION_DATA {
        a := Some(ALERT_UNEXPECTED_MESSAGE);
      } else {
        if typ != ALERT && typ != CHANGE_CIPHER_SPEC && |data| > 0 {
          retry := 0;
        }
        if vers == VERSION_TLS13 && typ != HANDSHAKE && |hand| > 0 {
          a := Some(ALERT_UNEXPECTED_MESSAGE);
        } else if typ == ALERT {
          ignored := HandleAlertRecord(data);
        } else if typ == CHANGE_CIPHER_SPEC {
          ignored := HandleCcsRecord(data, expectCcs);
        } else if typ == APPLICATION_DATA {
          if !complete || expectCcs {
            a := Some(ALERT_UNEXPECTED_MESSAGE);
          } else if |data| == 0 {
            ignored := true;
          } else {
            input := data;
          }
        } else if typ == HANDSHAKE {
          if |data| == 0 || expectCcs {
            a := Some(ALERT_UNEXPECTED_MESSAGE);
          } else {
            hand := hand + data;
          }
        } else {
          a := Some(ALERT_UNEXPECTED_MESSAGE);
        }
      }
      if a.Some? {
        alerts, err := alerts + [a.value], Some(LocalAlert(a.value));
      }
    }

    /** The checks on a header; false when the record is refused. */
    method HeaderOk() returns (ok: bool)
      requires Ready() && |raw| >= HEADER_LEN && err.None?
      modifies this`err, this`alerts
      ensures CheckHeader(old(Snap())) == if ok then None else Some(Snap())
      ensures ok ==> Snap() == old(Snap())
    {
      var typ, v, n := raw[0], Pair(raw[1], raw[2]), Pair(raw[3], raw[4]);
      var expected := vers;
      if expected == VERSION_TLS13 {
        expected := VERSION_TLS12;
      }
      ok := false;
      if !complete && typ == 0x80 {
        alerts, err := alerts + [ALERT_PROTOCOL_VERSION], Some(SslV2);
      } else if haveVers && v != expected {
        alerts, err := alerts + [ALERT_PROTOCOL_VERSION], Some(WrongVersion);
      } else if !haveVers && ((typ != ALERT && typ != HANDSHAKE) || v >= 0x1000) {
        err := Some(NotTls);
      } else if (vers == VERSION_TLS13 && n > MAX_CIPHERTEXT_TLS13) || n > MAX_CIPHERTEXT {
        alerts, err := alerts + [ALERT_RECORD_OVERFLOW], Some(Oversized);
      } else {
        ok := true;
      }
    }

    /** Takes the first `end` bytes off the network and opens them as a record. */
    method OpenNext(end: nat) returns (r: Outcome)
      requires Ready() && HEADER_LEN <= end <= |raw| && end < 0x8000_0000
      modifies this`raw, this`taken, half`pos, half`iv, half.parts
      ensures Ready()
      ensures CanOpen(old(half.St()), old(raw)[..end])
      ensures var d := HalfConn.Decrypt(old(half.St()), old(raw)[..end]);
              && r == Shown(d)
              && Snap() == old(Snap()).(raw := old(raw)[end..], taken := old(taken) + 1, half := d.state)
    {
      hide Value, Valid, HalfConn.Decrypt;
      var record := raw[..end];
      DecryptKeeps(half.St(), record);
      raw, taken := raw[end..], taken + 1;
      r := half.Decrypt(record);
    }

    method TakeChecked(end: nat, expectCcs: bool) returns (ignored: bool)
      requires Ready() && err.None? && HEADER_LEN <= end <= |raw| && end < 0x8000_0000
      modifies this, half, half.parts
      ensures Linked() && fresh(half.parts - old(half.parts))
      ensures TakeBody(old(Snap()), end, expectCcs) == if ignored then Ignored(Snap()) else Done(Snap())
    {
      hide Value, WellFormed, HalfConn.Decrypt, Handle, Half.Wired;
      ignored := false;
      var r := OpenNext(end);
      if r.Failed? {
        alerts, err := alerts + [r.alert], Some(LocalAlert(r.alert));
      } else {
        ignored := HandleContent(r.typ, r.data, expectCcs);
      }
    }

    /** Reads and acts on one record. */
    method TakeRecord(expectCcs: bool) returns (ignored: bool)
      requires Ready() && err.None?
      modifies this, half, half.parts
      ensures Linked() && fresh(half.parts - old(half.parts))
      ensures Take(old(Snap()), expectCcs) == if ignored then Ignored(Snap()) else Done(Snap())
    {
      hide Value, WellFormed, TakeBody, CheckHeader, Pair, Half.Wired;
      ignored := false;
      if |raw| < HEADER_LEN {
        err := Some(if raw == [] then EndOfStream else Truncated);
        return;
      }
      var ok := HeaderOk();
      if !ok {
        return;
      }
      PairRange(raw[3], raw[4]);
      var end := HEADER_LEN + Pair(raw[3], raw[4]);
      if |raw| < end {
        err := Some(Truncated);
        return;
      }
      ignored := TakeChecked(end, expectCcs);
    }

    method ReadRecordOrCcs(expectCcs: bool) returns (ok: bool)
      requires Ready()
      modifies this, half, half.parts
      ensures Linked() && fresh(half.parts - old(half.parts))
      ensures Snap() == ReadRecord(old(Snap()), expectCcs)
      ensures ok <==> err.None?
      decreases MAX_USELESS_RECORDS + 1 - retry, 1
    {
      hide Take, WellFormed, Value;
      ghost var c := Snap();
      if err.Some? {
        return false;
      }
      if |input| != 0 {
        err := Some(PendingData);
        return false;
      }
      TakeKeeps(c, expectCcs);
      var ignored := TakeRecord(expectCcs);
      if !ignored {
        return err.None?;
      }
      ok := RetryReadRecord(expectCcs);
    }

    /** Drops a record that advanced nothing, unless too many have been dropped. */
    method RetryReadRecord(expectCcs: bool) returns (ok: bool)
      requires Ready() && err.None? && input == []
      modifies this, half, half.parts
      ensures Linked() && fresh(half.parts - old(half.parts))
      ensures ok <==> err.None?
      ensures var d := old(Snap()).(retry := old(retry) + 1);
              Snap() == if d.retry > MAX_USELESS_RECORDS
                        then Fail(SendAlert(d, ALERT_UNEXPECTED_MESSAGE), TooManyIgnored)
                        else ReadRecord(d, expectCcs)
      decreases MAX_USELESS_RECORDS + 1 - retry, 0
    {
      hide Value, ReadRecord;
      retry := retry + 1;
      if retry > MAX_USELESS_RECORDS {
        alerts, err := alerts + [ALERT_UNEXPECTED_MESSAGE], Some(TooManyIgnored);
        return false;
      }
      ok := ReadRecordOrCcs(expectCcs);
    }

    method ReadHandshakeBytes(n: nat) returns (ok: bool)
      requires Ready()
      modifies this, half, half.parts
      ensures Linked() && fresh(half.parts - old(half.parts))
      ensures Ready() && Snap() == Fill(old(Snap()), n) && ok == (|hand| >= n)
    {
      hide WellFormed, ReadRecord, Value;
      FillKeeps(Snap(), n);
      while |hand| < n
        invariant Ready() && fresh(half.parts - old(half.parts))
        invariant Fill(old(Snap()), n) == Fill(Snap(), n)
        decreases |raw|
      {
        ReadRecordKeeps(Snap(), false);
        var read := ReadRecordOrCcs(false);
        if !read {
          return |hand| >= n;
        }
      }
      return true;
    }

    /** The next handshake message, assembled from as many records as it takes. */
    method NextHandshake() returns (message: Option<bytes>)
      requires Ready()
      modifies this, half, half.parts
      ensures Linked() && fresh(half.parts - old(half.parts))
      ensures HandshakeRead(message, Snap()) == ReadHandshake(old(Snap()))
    {
      hide WellFormed, Fill, Value;
      var ok := ReadHandshakeBytes(4);
      if !ok {
        return None;
      }
      var max := MAX_HANDSHAKE;
      if haveVers && hand[0] == Certificate.TYPE_CERTIFICATE {
        max := MAX_HANDSHAKE_CERTIFICATE;
      }
      var n := BodyLen(hand);
      if n > max {
        alerts, err := alerts + [ALERT_INTERNAL_ERROR], Some(TooLong);
        return None;
      }
      ok := ReadHandshakeBytes(4 + n);
      if !ok {
        return None;
      }
      message := Some(hand[..4 + n]);
      hand := hand[4 + n..];
    }
  }

  /** A reader at the start of a connection. */
  function FreshReader(stream: bytes): Reader
  {
    Reader(stream, [], [], 0, None, 0, false, false, State(0, Plain, 0, 0, []), Nothing, [], 0)
  }
}
