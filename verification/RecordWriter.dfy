/**
 Writing: how large each record may be, and how a byte string is cut into
 records that a receiver puts back together.
 */
module RecordWriter {
  import opened Bytes
  import opened Versions
  import opened Nonce
  import opened HalfConn
  import opened HalfConnCode
  import opened RecordLayer
  import opened Padding
  import opened RecordReader

  const TCP_MSS_ESTIMATE := 1208
  const BOOST_THRESHOLD := 128 * 1024

  /** The sizes of the ciphers in use are small; a MAC is at most 64 bytes, an AEAD adds at most 64. */
  predicate Modest(p: Protection)
  {
    match p
    case Plain => true
    case Stream(_, _, mac) => mac <= 64
    case Cbc(_, _, b, _, mac) => 0 < b <= 64 && mac <= 64
    case Aead(_, _, _, _, overhead) => overhead <= 64
  }

  /** The largest payload whose record fits the segment estimate. */
  function SegmentPayload(s: State, vers: u16): int
    requires Modest(s.protection)
  {
    var room := TCP_MSS_ESTIMATE - HEADER_LEN - ExplicitNonceLen(s);
    var payload := match s.protection
      case Plain => room
      case Stream(_, _, mac) => room - mac
      case Aead(_, _, _, _, overhead) => room - overhead
      case Cbc(_, _, b, _, mac) => room - room % b - 1 - mac;
    if vers == VERSION_TLS13 then payload - 1 else payload
  }

  /** The payload limit for the next record, and whether the packet counter moves. */
  function PayloadLimit(s: State, vers: u16, fixedSize: bool, typ: byte, bytesSent: nat, packetsSent: nat): int
    requires Modest(s.protection)
  {
    if fixedSize || typ != APPLICATION_DATA || bytesSent >= BOOST_THRESHOLD || packetsSent > 1000 then MAX_PLAINTEXT
    else
      var n := SegmentPayload(s, vers) * (packetsSent + 1);
      if n > MAX_PLAINTEXT then MAX_PLAINTEXT else n
  }

  predicate Counted(fixedSize: bool, typ: byte, bytesSent: nat)
  {
    !fixedSize && typ == APPLICATION_DATA && bytesSent < BOOST_THRESHOLD
  }

  /** Every record carries at least one byte and at most the plaintext maximum. */
  lemma LimitInRange(s: State, vers: u16, fixedSize: bool, typ: byte, bytesSent: nat, packetsSent: nat)
    requires Modest(s.protection)
    ensures 1 <= PayloadLimit(s, vers, fixedSize, typ, bytesSent, packetsSent) <= MAX_PLAINTEXT
    ensures !Counted(fixedSize, typ, bytesSent) || packetsSent > 1000 ==>
              PayloadLimit(s, vers, fixedSize, typ, bytesSent, packetsSent) == MAX_PLAINTEXT
  {
    assert 900 <= SegmentPayload(s, vers) <= TCP_MSS_ESTIMATE;
    assert SegmentPayload(s, vers) * (packetsSent + 1) >= SegmentPayload(s, vers);
  }

  // ----- Record lengths -----

  ghost function SealedLength(s: State, n: nat): nat
    requires Valid(s)
  {
    match s.protection
    case Plain => HEADER_LEN + n
    case Stream(_, _, mac) => HEADER_LEN + n + mac
    case Aead(explicit, _, _, _, overhead) =>
      HEADER_LEN + ExplicitNonceLen(s) + n + overhead + (if s.version == VERSION_TLS13 then 1 else 0)
    case Cbc(_, _, b, _, mac) => HEADER_LEN + ExplicitNonceLen(s) + n + mac + PadLen(n + mac, b)
  }

  lemma SealedLengthIs(s: State, m: Message)
    requires Valid(s) && NumbersLeft(s, 1) && Sendable(s, m)
    ensures |Seal(s, m).record| == SealedLength(s, |m.payload|)
  {
    hide U16, U64, StreamXor, Header, Padded, CbcSeal, CbcPlain, XorNonce, PadLen;
    var h := Header(m.typ, m.version, |m.payload|);
    match s.protection
    case Plain =>
    case Stream(_, _, _) =>
    case Aead(_, _, _, _, _) => AeadLength(s, h, m.payload, m.iv);
    case Cbc(_, _, _, _, _) => CbcLength(s, h, m.payload, m.iv);
  }

  lemma AeadLength(s: State, h: bytes, payload: bytes, iv: bytes)
    requires CanSeal(s, h, iv) && s.protection.Aead?
    ensures |Encrypt(s, h, payload, iv).record| == SealedLength(s, |payload|)
  {
    hide U16, U64, XorNonce;
  }

  lemma CbcLength(s: State, h: bytes, payload: bytes, iv: bytes)
    requires CanSeal(s, h, iv) && s.protection.Cbc?
    ensures |Encrypt(s, h, payload, iv).record| == SealedLength(s, |payload|)
  {
    hide U16, U64, CbcSeal, Padded, PadLen, PadBytes, Encrypt, Multiple, Chained, WellPadded, ToRemove;
    var start := if ExplicitIv(s) then iv else s.iv;
    var lead := if ExplicitIv(s) then iv else [];
    CbcShape(s, h, payload, iv, lead, start);
    PlainBlocks(s, h, payload);
    PaddedBack(payload + Mac(s.protection.mac, s.count, h, payload), s.protection.blockSize);
  }

  /** The reader's ceiling on a record body. */
  function Ceiling(vers: u16): nat
  {
    if vers == VERSION_TLS13 then MAX_CIPHERTEXT_TLS13 else MAX_CIPHERTEXT
  }

  lemma UnderCeiling(s: State, n: nat, vers: u16)
    requires Valid(s) && Modest(s.protection) && n <= MAX_PLAINTEXT
    requires vers == VERSION_TLS13 ==> !s.protection.Cbc? && !s.protection.Stream?
    ensures HEADER_LEN <= SealedLength(s, n) <= HEADER_LEN + Ceiling(vers)
  {
    hide Sound, PadLen;
  }

  /** A payload within the limit gives a record that fits the estimate, in every mode. */
  lemma FitsSegment(s: State, vers: u16, n: nat)
    requires Valid(s) && Modest(s.protection) && n <= SegmentPayload(s, vers)
    requires s.version == VERSION_TLS13 ==> vers == VERSION_TLS13
    ensures SealedLength(s, n) <= TCP_MSS_ESTIMATE
  {
    hide Sound;
    match s.protection
    case Cbc(_, _, b, _, mac) =>
      var room := TCP_MSS_ESTIMATE - HEADER_LEN - ExplicitNonceLen(s);
      RoundedDown(room, b);
      PaddedBelow(n + mac, room - room % b, b);
    case _ =>
  }

  /** The limit is tight: one byte more and the record passes the estimate. */
  lemma FillsSegment(s: State, vers: u16, n: nat)
    requires Valid(s) && Modest(s.protection) && n > SegmentPayload(s, vers)
    requires s.version == vers && (vers == VERSION_TLS13 ==> !s.protection.Plain?)
    ensures SealedLength(s, n) > TCP_MSS_ESTIMATE
  {
    hide Sound;
    match s.protection
    case Cbc(_, _, b, _, mac) =>
      var room := TCP_MSS_ESTIMATE - HEADER_LEN - ExplicitNonceLen(s);
      RoundedDown(room, b);
      PaddedAbove(n + mac, room - room % b, b);
    case _ =>
  }

  lemma PaddedAbove(n: nat, total: nat, b: nat)
    requires b > 0 && Multiple(total, b) && n >= total
    ensures n + PadLen(n, b) >= total + b
  {
    var k, q := total / b, n / b;
    assert total == k * b && n == q * b + n % b;
    if q < k {
      AtMost(q + 1, k, b);
      assert false;
    }
    AtMost(k, q, b);
    assert n + PadLen(n, b) == (q + 1) * b;
  }

  /** While sizing is dynamic, the limit grows by one segment with every record, up to the plaintext maximum. */
  lemma LimitGrows(s: State, vers: u16, bytesSent: nat, packetsSent: nat)
    requires Modest(s.protection) && bytesSent < BOOST_THRESHOLD && packetsSent <= 1000
    ensures var first := PayloadLimit(s, vers, false, APPLICATION_DATA, bytesSent, 0);
            var now := PayloadLimit(s, vers, false, APPLICATION_DATA, bytesSent, packetsSent);
            && 900 <= first <= TCP_MSS_ESTIMATE
            && now == if first * (packetsSent + 1) > MAX_PLAINTEXT then MAX_PLAINTEXT else first * (packetsSent + 1)
  {
    assert 900 <= SegmentPayload(s, vers) <= TCP_MSS_ESTIMATE;
  }

  lemma RoundedDown(n: nat, b: nat)
    requires b > 0
    ensures 0 <= n - n % b <= n && Multiple(n - n % b, b)
  {
    var k := n / b;
    assert n - n % b == k * b;
    MultipleOf(k, b);
  }

  lemma PaddedBelow(n: nat, total: nat, b: nat)
    requires b > 0 && Multiple(total, b) && n < total
    ensures n + PadLen(n, b) <= total
  {
    var k, q := total / b, n / b;
    assert total == k * b && n == q * b + n % b;
    if k <= q {
      AtMost(k, q, b);
      assert false;
    }
    AtMost(q + 1, k, b);
    assert n + PadLen(n, b) == (q + 1) * b;
  }

  // ----- Cutting data into records -----

  /** The version bytes of a record header. */
  function RecordVersion(vers: u16): (r: bytes)
    ensures |r| == 2
  {
    U16(if vers == 0 then VERSION_TLS10 else if vers == VERSION_TLS13 then VERSION_TLS12 else vers)
  }

  function PayloadsOf(ms: seq<Message>): seq<bytes>
  {
    seq(|ms|, i requires 0 <= i < |ms| => ms[i].payload)
  }

  /** Every message is a record of type `typ` with a payload of between one byte and the maximum. */
  ghost predicate WellCut(ms: seq<Message>, typ: byte, vers: u16)
  {
    forall i :: 0 <= i < |ms| ==>
      ms[i].typ == typ && ms[i].version == RecordVersion(vers) && 1 <= |ms[i].payload| <= MAX_PLAINTEXT
  }

  /** The parts are consecutive pieces of the data. */
  ghost predicate Cuts(ms: seq<Message>, data: bytes)
  {
    Flat(PayloadsOf(ms)) == data
  }

  lemma CutsAppend(ms: seq<Message>, m: Message, data: bytes)
    requires Cuts(ms, data)
    ensures Cuts(ms + [m], data + m.payload)
  {
    assert PayloadsOf(ms + [m]) == PayloadsOf(ms) + [m.payload];
    FlatConcat(PayloadsOf(ms), [m.payload]);
    assert Flat([m.payload]) == m.payload + Flat([]);
  }

  lemma {:induction false} SealAllAppend(s: State, ms: seq<Message>, m: Message)
    requires CanRun(s, ms) && CanRun(s, ms + [m])
    ensures Valid(After(s, ms)) && NumbersLeft(After(s, ms), 1) && Sendable(After(s, ms), m)
    ensures SealAll(s, ms + [m]) == SealAll(s, ms) + [Seal(After(s, ms), m).record]
    ensures After(s, ms + [m]) == Seal(After(s, ms), m).state
    decreases |ms|
  {
    hide Seal, Valid;
    if ms == [] {
      assert ms + [m] == [m] && [m][1..] == [];
      RunOn(s, [m]);
    } else {
      assert (ms + [m])[1..] == ms[1..] + [m] && (ms + [m])[0] == ms[0];
      RunOn(s, ms);
      RunOn(s, ms + [m]);
      SealAllAppend(Seal(s, ms[0]).state, ms[1..], m);
    }
  }

  lemma {:induction false} AfterKeeps(s: State, ms: seq<Message>)
    requires CanRun(s, ms)
    ensures var t := After(s, ms);
            && Valid(t) && t.protection == s.protection && t.version == s.version
            && t.count == if s.protection.Plain? then s.count else s.count + |ms|
    decreases |ms|
  {
    hide Seal, Valid;
    if ms != [] {
      RunOn(s, ms);
      SealAdvances(s, ms[0]);
      AfterKeeps(Seal(s, ms[0]).state, ms[1..]);
    }
  }

  /** The writing side of a connection; `wire` holds the records handed to the network, in order. */
  class Writer {
    const out: Half
    const fixedSize: bool
    var vers: u16
    var buffering: bool
    var bytesSent: nat
    var packetsSent: nat
    var wire: seq<bytes>

    constructor (fixedSize: bool)
      ensures fresh(out) && fresh(out.parts) && Ready(0) && this.fixedSize == fixedSize
      ensures vers == 0 && !buffering && bytesSent == 0 && packetsSent == 0 && wire == []
      ensures out.St() == State(0, Plain, 0, 0, [])
    {
      out := new Half();
      this.fixedSize := fixedSize;
      vers, buffering, bytesSent, packetsSent, wire := 0, false, 0, 0, [];
    }

    ghost predicate Linked()
      reads this, out, out.parts
    {
      out.Wired() && this !in out.parts
    }

    ghost predicate Ready(n: nat)
      reads this, out, out.parts
    {
      && Linked() && out.Sending() && Valid(out.St()) && Modest(out.protection) && NumbersLeft(out.St(), n)
      && (out.version == VERSION_TLS13 ==> vers == VERSION_TLS13)
      && (vers == VERSION_TLS13 ==> out.protection.Plain? || out.protection.Aead?)
    }

    method MaxPayloadSizeForWrite(typ: byte) returns (n: nat)
      requires Ready(0)
      modifies this`packetsSent
      ensures n == PayloadLimit(out.St(), vers, fixedSize, typ, bytesSent, old(packetsSent))
      ensures packetsSent == old(packetsSent) + if Counted(fixedSize, typ, bytesSent) then 1 else 0
      ensures 1 <= n <= MAX_PLAINTEXT
    {
      hide Value, Valid;
      LimitInRange(out.St(), vers, fixedSize, typ, bytesSent, packetsSent);
      if fixedSize || typ != APPLICATION_DATA {
        return MAX_PLAINTEXT;
      }
      if bytesSent >= BOOST_THRESHOLD {
        return MAX_PLAINTEXT;
      }
      var explicit := match out.protection
        case Plain => 0
        case Stream(_, _, _) => 0
        case Cbc(_, _, b, _, _) => if out.version >= VERSION_TLS11 then b else 0
        case Aead(e, _, _, _, _) => if e then 8 else 0;
      var payload := TCP_MSS_ESTIMATE - HEADER_LEN - explicit;
      match out.protection {
        case Plain =>
        case Stream(_, _, mac) => payload := payload - mac;
        case Aead(_, _, _, _, overhead) => payload := payload - overhead;
        case Cbc(_, _, b, _, mac) => payload := payload - payload % b - 1 - mac;
      }
      if vers == VERSION_TLS13 {
        payload := payload - 1;
      }
      var pkt := packetsSent;
      packetsSent := packetsSent + 1;
      if pkt > 1000 {
        return MAX_PLAINTEXT;
      }
      var limit := payload * (pkt + 1);
      return if limit > MAX_PLAINTEXT then MAX_PLAINTEXT else limit;
    }

    method Send(record: bytes)
      modifies this`wire, this`bytesSent
      ensures wire == old(wire) + [record]
      ensures bytesSent == if buffering then old(bytesSent) else old(bytesSent) + |record|
    {
      wire := wire + [record];
      if !buffering {
        bytesSent := bytesSent + |record|;
      }
    }

    /** Seals and sends one record with as much of the data as it may hold. */
    method WriteNext(typ: byte, data: bytes, iv: bytes) returns (m: nat)
      requires Ready(1) && data != [] && (vers == VERSION_TLS13 ==> typ != 0)
      requires ExplicitIv(out.St()) ==> |iv| == out.protection.blockSize
      modifies this`packetsSent, this`bytesSent, this`wire, out`pos, out`iv, out.parts
      ensures 1 <= m <= |data| && m <= MAX_PLAINTEXT && Linked() && out.Sending()
      ensures var msg := Message(typ, RecordVersion(vers), data[..m], iv);
              && Sendable(old(out.St()), msg)
              && var e := Seal(old(out.St()), msg);
                 && wire == old(wire) + [e.record] && out.St() == e.state
                 && HEADER_LEN <= |e.record| <= HEADER_LEN + Ceiling(vers)
                 && (Counted(fixedSize, typ, old(bytesSent)) && old(packetsSent) == 0 ==>
                       |e.record| <= TCP_MSS_ESTIMATE)
    {
      hide Value, Valid, Seal, SealedLength;
      m := |data|;
      var limit := MaxPayloadSizeForWrite(typ);
      if m > limit {
        m := limit;
      }
      ghost var s := out.St();
      ghost var msg := Message(typ, RecordVersion(vers), data[..m], iv);
      SealedLengthIs(s, msg);
      UnderCeiling(s, m, vers);
      if Counted(fixedSize, typ, bytesSent) && old(packetsSent) == 0 {
        assert PayloadLimit(s, vers, false, typ, bytesSent, 0) <= SegmentPayload(s, vers);
        FitsSegment(s, vers, m);
      }
      var record := SealNext(typ, RecordVersion(vers), data[..m], iv);
      Send(record);
    }

    /**
     Cuts the data into records, seals and sends them.  `ms` names the records:
     their payloads join to the data, and none passes the reader's ceiling.
     `rand` supplies the initialization vectors.
     */
    method WriteRecords(typ: byte, data: bytes, rand: nat -> bytes) returns (ghost ms: seq<Message>)
      requires Ready(|data|) && (vers == VERSION_TLS13 ==> typ != 0)
      requires ExplicitIv(out.St()) ==> forall i :: |rand(i)| == out.protection.blockSize
      modifies this, out`pos, out`iv, out.parts
      ensures Linked() && out.Sending() && CanRun(old(out.St()), ms)
      ensures wire == old(wire) + SealAll(old(out.St()), ms) && out.St() == After(old(out.St()), ms)
      ensures WellCut(ms, typ, vers) && Cuts(ms, data) && vers == old(vers)
      ensures forall i :: |old(wire)| <= i < |wire| ==> HEADER_LEN <= |wire[i]| <= HEADER_LEN + Ceiling(vers)
      ensures data != [] && Counted(fixedSize, typ, old(bytesSent)) && old(packetsSent) == 0 ==>
                |wire| > |old(wire)| && |wire[|old(wire)|]| <= TCP_MSS_ESTIMATE
      ensures out.protection.Aead? ==> out.Used() == old(out.Used()) + Nonces(old(out.St()), ms)
    {
      hide Value, Valid, Seal, SealAll, After, CanRun, Cuts, WellCut, RecordVersion, Sendable, InBounds, Progress,
           Ceiling, Nonces, Consecutive, Half.Wired, Half.Used;
      ghost var s0, first := out.St(), Counted(fixedSize, typ, bytesSent) && packetsSent == 0;
      ms := [];
      EmptyRun(s0, typ, vers, data, first);
      var rest, i := data, 0;
      while |rest| > 0
        invariant CanRun(s0, ms) && Progress(s0, ms, typ, vers, data, rest, first) && |ms| == i && |rest| <= |data|
        invariant Ready(|rest|) && out.St() == After(s0, ms) && vers == old(vers)
        invariant ExplicitIv(out.St()) == ExplicitIv(s0) && out.protection == s0.protection
        invariant wire == old(wire) + SealAll(s0, ms)
        invariant i == 0 ==> packetsSent == old(packetsSent) && bytesSent == old(bytesSent) && SealAll(s0, ms) == []
        decreases |rest|
      {
        var m := WriteNext(typ, rest, rand(i));
        ghost var msg := Message(typ, RecordVersion(vers), rest[..m], rand(i));
        ProgressStep(s0, ms, typ, vers, data, rest, first, msg);
        ms := ms + [msg];
        i, rest := i + 1, rest[m..];
      }
      ProgressDone(old(wire), s0, ms, typ, vers, data, first);
      if out.protection.Aead? {
        UsedGrows(s0, ms, old(out.Used()), out.Used());
      }
    }

    method SealNext(typ: byte, header: bytes, payload: bytes, iv: bytes) returns (record: bytes)
      requires Linked() && Valid(out.St()) && NumbersLeft(out.St(), 1)
      requires Sendable(out.St(), Message(typ, header, payload, iv))
      modifies out`pos, out`iv, out.parts
      ensures Linked() && (old(out.Sending()) ==> out.Sending())
      ensures Sealed(record, out.St()) == Seal(old(out.St()), Message(typ, header, payload, iv))
    {
      hide Value, Valid, U16;
      record := out.Encrypt([typ] + header + U16(|payload|), payload, iv);
    }

    /**
     Writes data under one record type; a change_cipher_spec also puts the
     prepared keys in use.  Whatever was written, no nonce has been used twice.
     */
    method WriteRecordLocked(typ: byte, data: bytes, rand: nat -> bytes)
      returns (alert: Option<byte>, ghost ms: seq<Message>)
      requires Ready(|data|) && (vers == VERSION_TLS13 ==> typ != 0)
      requires ExplicitIv(out.St()) ==> forall i :: |rand(i)| == out.protection.blockSize
      modifies this, out, out.parts
      ensures Linked() && out.Sending() && fresh(out.parts - old(out.parts)) && vers == old(vers)
      ensures CanRun(old(out.St()), ms) && WellCut(ms, typ, vers) && Cuts(ms, data)
      ensures wire == old(wire) + SealAll(old(out.St()), ms)
      ensures typ != CHANGE_CIPHER_SPEC || vers == VERSION_TLS13 ==>
                && alert.None? && out.St() == After(old(out.St()), ms)
                && (old(out.protection).Aead? ==> out.Used() == old(out.Used()) + Nonces(old(out.St()), ms))
      ensures forall i :: |old(wire)| <= i < |wire| ==> HEADER_LEN <= |wire[i]| <= HEADER_LEN + Ceiling(vers)
      ensures data != [] && Counted(fixedSize, typ, old(bytesSent)) && old(packetsSent) == 0 ==>
                |wire| > |old(wire)| && |wire[|old(wire)|]| <= TCP_MSS_ESTIMATE
      ensures typ == CHANGE_CIPHER_SPEC && vers != VERSION_TLS13 ==>
                (alert.None? <==> old(out.next.Pending?) && old(out.version) != VERSION_TLS13)
                && (alert.None? ==>
                      && out.St() == State(old(out.version), old(out.next).protection, 0, 0, old(out.next).iv)
                      && out.Used() == [])
      ensures forall i, j :: 0 <= i < j < |out.Used()| ==> out.Used()[i] != out.Used()[j]
    {
      hide Value, Valid, SealAll, After, WellCut, Cuts, CanRun, Nonces, Counted, Ceiling, Half.Wired, Half.Used;
      ms := WriteRecords(typ, data, rand);
      AfterKeeps(old(out.St()), ms);
      if typ == CHANGE_CIPHER_SPEC && vers != VERSION_TLS13 {
        alert := out.ChangeCipherSpec();
        assert Consecutive(out.protection, [], 0);
      } else {
        alert := None;
      }
      if out.protection.Aead? {
        ConsecutiveDiffer(out.protection, out.Used(), out.St().count);
      }
    }
  }

  /** Between two states of a run, the nonces sealed with are those of the run. */
  lemma UsedGrows(s: State, ms: seq<Message>, before: seq<bytes>, after: seq<bytes>)
    requires CanRun(s, ms) && s.protection.Aead? && Consecutive(s.protection, before, s.count)
    requires Consecutive(s.protection, after, After(s, ms).count)
    ensures after == before + Nonces(s, ms)
  {
    hide Valid, Nonces, AeadNonce, After, AllSendable;
    AfterKeeps(s, ms);
    forall i | 0 <= i < |ms| ensures after[s.count + i] == Nonces(s, ms)[i] {
      NonceAt(s, ms, i);
    }
    assert after == before + Nonces(s, ms);
  }

  /** No record is above the ceiling, and the first fits the segment estimate when it has to. */
  ghost predicate InBounds(records: seq<bytes>, vers: u16, first: bool)
  {
    && (forall r :: r in records ==> HEADER_LEN <= |r| <= HEADER_LEN + Ceiling(vers))
    && (first && records != [] ==> |records[0]| <= TCP_MSS_ESTIMATE)
  }

  lemma BoundsOf(before: seq<bytes>, records: seq<bytes>, vers: u16, first: bool)
    requires InBounds(records, vers, first)
    ensures var wire := before + records;
            && (forall i :: |before| <= i < |wire| ==> HEADER_LEN <= |wire[i]| <= HEADER_LEN + Ceiling(vers))
            && (first && records != [] ==> |wire[|before|]| <= TCP_MSS_ESTIMATE)
  {
    var wire := before + records;
    forall i | |before| <= i < |wire| ensures HEADER_LEN <= |wire[i]| <= HEADER_LEN + Ceiling(vers) {
      assert wire[i] == records[i - |before|] && wire[i] in records;
    }
  }

  /** All but `rest` of the data has been cut into the messages `ms`. */
  ghost predicate Progress(s: State, ms: seq<Message>, typ: byte, vers: u16, data: bytes, rest: bytes, first: bool)
  {
    && CanRun(s, ms) && WellCut(ms, typ, vers) && InBounds(SealAll(s, ms), vers, first)
    && exists done: bytes :: data == done + rest && Cuts(ms, done)
  }

  lemma EmptyRun(s: State, typ: byte, vers: u16, data: bytes, first: bool)
    requires Valid(s) && NumbersLeft(s, |data|)
    ensures CanRun(s, []) && Progress(s, [], typ, vers, data, data, first) && SealAll(s, []) == [] && After(s, []) == s
  {
    assert PayloadsOf([]) == [];
    assert data == [] + data && Cuts([], []);
  }

  lemma ProgressStep(s: State, ms: seq<Message>, typ: byte, vers: u16, data: bytes, rest: bytes, first: bool, m: Message)
    requires CanRun(s, ms) && Progress(s, ms, typ, vers, data, rest, first) && m.typ == typ && m.version == RecordVersion(vers)
    requires 1 <= |m.payload| <= |rest| && |m.payload| <= MAX_PLAINTEXT && m.payload == rest[..|m.payload|]
    requires Valid(After(s, ms)) && NumbersLeft(After(s, ms), |rest|) && Sendable(After(s, ms), m)
    requires var r := Seal(After(s, ms), m).record;
             HEADER_LEN <= |r| <= HEADER_LEN + Ceiling(vers) && (first && ms == [] ==> |r| <= TCP_MSS_ESTIMATE)
    ensures CanRun(s, ms + [m]) && Progress(s, ms + [m], typ, vers, data, rest[|m.payload|..], first)
    ensures SealAll(s, ms + [m]) == SealAll(s, ms) + [Seal(After(s, ms), m).record]
    ensures After(s, ms + [m]) == Seal(After(s, ms), m).state && SealAll(s, ms + [m]) != []
    ensures var t := After(s, ms + [m]);
            && Valid(t) && t.protection == s.protection && t.version == s.version
            && NumbersLeft(t, |rest| - |m.payload|)
  {
    hide Valid, Seal, Sendable, Cuts, SealAll, After, Ceiling;
    AfterKeeps(s, ms);
    ExtendRun(s, ms, m);
    SealAllAppend(s, ms, m);
    AfterKeeps(s, ms + [m]);
    SealAllCount(s, ms);
    assert InBounds(SealAll(s, ms) + [Seal(After(s, ms), m).record], vers, first);
    assert WellCut(ms + [m], typ, vers);
    var done: bytes :| data == done + rest && Cuts(ms, done);
    CutsAppend(ms, m, done);
    assert rest == m.payload + rest[|m.payload|..];
    Assoc(done, m.payload, rest[|m.payload|..]);
  }

  lemma {:induction false} SealAllCount(s: State, ms: seq<Message>)
    requires CanRun(s, ms)
    ensures |SealAll(s, ms)| == |ms|
    decreases |ms|
  {
    hide Seal, Valid;
    if ms != [] {
      RunOn(s, ms);
      SealAllCount(Seal(s, ms[0]).state, ms[1..]);
    }
  }

  lemma ProgressDone(before: seq<bytes>, s: State, ms: seq<Message>, typ: byte, vers: u16, data: bytes, first: bool)
    requires Progress(s, ms, typ, vers, data, [], first)
    ensures CanRun(s, ms) && WellCut(ms, typ, vers) && Cuts(ms, data)
    ensures var wire := before + SealAll(s, ms);
            && (forall i :: |before| <= i < |wire| ==> HEADER_LEN <= |wire[i]| <= HEADER_LEN + Ceiling(vers))
            && (first && data != [] ==> |wire| > |before| && |wire[|before|]| <= TCP_MSS_ESTIMATE)
  {
    hide SealAll, InBounds, WellCut;
    var done: bytes :| data == done + [] && Cuts(ms, done);
    BoundsOf(before, SealAll(s, ms), vers, first);
    SealAllCount(s, ms);
    assert ms == [] ==> PayloadsOf(ms) == [];
  }

  lemma ExtendRun(s: State, ms: seq<Message>, m: Message)
    requires CanRun(s, ms) && NumbersLeft(After(s, ms), 1) && Sendable(After(s, ms), m)
    ensures CanRun(s, ms + [m])
  {
    hide Valid, Seal, After;
    AfterKeeps(s, ms);
  }

  /** What was written is what a receiver with matching keys reads, in the same order. */
  lemma WrittenIsRead(s: State, ms: seq<Message>, typ: byte, vers: u16, data: bytes)
    requires CanRun(s, ms) && !s.protection.Plain? && WellCut(ms, typ, vers) && Cuts(ms, data)
    ensures var r := OpenAll(s, SealAll(s, ms));
            && r.OpenedAll? && r.state == After(s, ms)
            && Flat(Contents(r.plaintexts)) == data && forall p :: p in r.plaintexts ==> p.typ == typ
  {
    hide SealAll, OpenAll, After;
    RunOpens(s, ms);
    PlaintextsOf(ms, typ, vers);
  }

  function Contents(ps: seq<Plaintext>): seq<bytes>
  {
    if ps == [] then [] else [ps[0].payload] + Contents(ps[1..])
  }

  lemma {:induction false} PlaintextsOf(ms: seq<Message>, typ: byte, vers: u16)
    requires WellCut(ms, typ, vers)
    ensures Contents(Plaintexts(ms)) == PayloadsOf(ms)
    ensures forall p :: p in Plaintexts(ms) ==> p.typ == typ
  {
    if ms != [] {
      PlaintextsOf(ms[1..], typ, vers);
      assert PayloadsOf(ms) == [ms[0].payload] + PayloadsOf(ms[1..]);
      assert Plaintexts(ms)[1..] == Plaintexts(ms[1..]);
    }
  }
}
