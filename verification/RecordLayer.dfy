/**
 What the two directions of the record layer guarantee together: a receiver
 whose state matches the sender's opens every record to the payload and type
 that went in, and no nonce is used twice between two key installations.
 */
module RecordLayer {
  import opened Bytes
  import opened Nonce
  import opened Padding
  import opened HalfConn
  import opened Versions

  /** The header that the writer puts in front of a payload. */
  function Header(typ: byte, version: bytes, n: nat): (h: bytes)
    requires |version| == 2
    ensures |h| == HEADER_LEN
  {
    [typ] + version + U16(n)
  }

  /** Framing changes only the length field. */
  lemma FramedParts(h: bytes, body: bytes)
    requires |h| == HEADER_LEN
    ensures Framed(h + body)[HEADER_LEN..] == body && Framed(h + body)[..3] == h[..3]
    ensures Framed(h + body)[0] == h[0] && Framed(h + body)[3..HEADER_LEN] == U16(|body|)
    ensures h[3..] == U16(|body|) ==> Framed(h + body) == h + body
  {
    hide U16;
    assert (h + body)[..3] == h[..3] && (h + body)[HEADER_LEN..] == body;
    if h[3..] == U16(|body|) {
      assert h + body == h[..3] + h[3..] + body;
    }
  }

  lemma HeaderParts(typ: byte, version: bytes, n: nat)
    requires |version| == 2
    ensures var h := Header(typ, version, n);
            h[..3] + U16(n) == h && h[0] == typ && h[1..3] == version && h[3..] == U16(n)
  {
    hide U16;
  }

  // ----- Authenticated payloads -----

  lemma AuthenticatedBack(s: State, mac: bytes -> bytes, size: nat, record: bytes, header: bytes, payload: bytes,
                          padding: bytes)
    requires |record| >= HEADER_LEN && s.count < MAX_SEQ
    requires record[..3] + U16(|payload|) == header
    requires forall m :: |mac(m)| == size
    ensures var m := payload + Mac(mac, s.count, header, payload) + padding;
            Authenticated(s, mac, size, record, m, |padding|, true) ==
            Opening(payload, record[0], s.(count := s.count + 1))
  {
    hide U16, U64;
    var tag := Mac(mac, s.count, header, payload);
    var m := payload + tag + padding;
    var n := |payload|;
    assert m[..n] == payload && m[n..n + size] == tag;
  }

  lemma StreamOpens(s: State, typ: byte, version: bytes, payload: bytes)
    requires |version| == 2 && CanSeal(s, Header(typ, version, |payload|), []) && s.protection.Stream?
    ensures var e := Encrypt(s, Header(typ, version, |payload|), payload, []);
            Decrypt(s, e.record) == Opening(payload, typ, e.state)
  {
    hide U16, U64, StreamXor, Header;
    var h := Header(typ, version, |payload|);
    var p := s.protection;
    var m := payload + Mac(p.mac, s.count, h, payload);
    var body := StreamXor(p.keystream, s.pos, m);
    HeaderParts(typ, version, |payload|);
    FramedParts(h, body);
    StreamXorBack(p.keystream, s.pos, m);
    var t := s.(pos := s.pos + |body|);
    AuthenticatedBack(t, p.mac, p.macSize, Framed(h + body), h, payload, []);
    assert m + [] == m;
  }

  // ----- CBC -----

  /** Padding added by the sender is what the receiver finds and removes. */
  lemma PaddedBack(m: bytes, b: nat)
    requires 0 < b <= 256
    ensures var p := Padded(m, b);
            WellPadded(p) && ToRemove(p) == PadLen(|m|, b) && p == m + PadBytes(PadLen(|m|, b))
  {
  }

  lemma BlocksNeeded(n: nat, b: nat, least: nat)
    requires b > 0 && Multiple(n, b) && n >= least
    ensures n >= RoundUp(least, b)
  {
    var q := least / b;
    assert least == q * b + least % b;
    var k := n / b;
    assert n == k * b;
    if least % b == 0 {
      assert RoundUp(least, b) == least;
    } else {
      assert RoundUp(least, b) == (q + 1) * b by { SmallMod(b - least % b, b); }
      if k <= q {
        AtMost(k, q, b);
        assert false;
      }
      AtMost(q + 1, k, b);
    }
  }

  lemma SmallMod(n: nat, b: nat)
    requires n < b
    ensures n % b == n
  {
  }

  lemma AtMost(k: int, q: int, b: nat)
    requires k <= q
    ensures k * b <= q * b
  {
  }

  lemma CbcBody(b: nat, c: bytes)
    requires b > 0 && Multiple(|c|, b)
    ensures Multiple(b + |c|, b)
  {
    var k := |c| / b;
    assert |c| == k * b;
    assert b + |c| == (k + 1) * b;
    MultipleOf(k + 1, b);
  }

  /** A record around sealed blocks passes the length checks and is cut back into vector and blocks. */
  lemma CbcReaches(s: State, record: bytes, lead: bytes, start: bytes, c: bytes)
    requires CanOpen(s, record) && s.protection.Cbc? && |start| == s.protection.blockSize
    requires Blocks(s.protection, c) && |c| >= s.protection.macSize + 1
    requires if ExplicitIv(s) then lead == start else lead == [] && start == s.iv
    ensures DecryptCbc(s, record, lead + c) == OpenBlocks(s, record, start, c)
  {
    hide Multiple, Sound, OpenBlocks, RoundUp;
    var b := s.protection.blockSize;
    CbcBody(b, c);
    BlocksNeeded(|c|, b, s.protection.macSize + 1);
    assert ExplicitNonceLen(s) == |lead|;
  }

  /** The blocks of a CBC record, before encryption. */
  ghost function CbcPlain(s: State, h: bytes, payload: bytes): bytes
    requires Valid(s) && s.protection.Cbc?
  {
    Padded(payload + Mac(s.protection.mac, s.count, h, payload), s.protection.blockSize)
  }

  lemma CbcShape(s: State, h: bytes, payload: bytes, iv: bytes, lead: bytes, start: bytes)
    requires CanSeal(s, h, iv) && s.protection.Cbc?
    requires if ExplicitIv(s) then lead == start == iv else lead == [] && start == s.iv
    ensures var c := CbcSeal(s.protection, start, CbcPlain(s, h, payload));
            Encrypt(s, h, payload, iv) ==
            Sealed(Framed(h + (lead + c)), s.(count := s.count + 1, iv := Chained(s.protection.blockSize, start, c)))
  {
    hide CbcSeal, Sound, Padded, U16, U64, Framed, Chained;
    SoundBlock(s.protection);
    var c := CbcSeal(s.protection, start, CbcPlain(s, h, payload));
    Assoc(h, lead, c);
  }

  /** The receiver finds the MAC and the padding that the sender put there. */
  lemma CbcChecks(s: State, t: State, record: bytes, h: bytes, payload: bytes)
    requires Valid(s) && s.protection.Cbc? && |record| >= HEADER_LEN && t.count == s.count < MAX_SEQ
    requires record[..3] + U16(|payload|) == h
    ensures var p, m := s.protection, CbcPlain(s, h, payload);
            && |m| >= p.macSize + 1
            && Authenticated(t, p.mac, p.macSize, record, m, ToRemove(m), WellPadded(m)) ==
               Opening(payload, record[0], t.(count := t.count + 1))
  {
    hide U16, U64, WellPadded, ToRemove, Padded, Authenticated, PadLen, PadBytes;
    var p := s.protection;
    var m := payload + Mac(p.mac, s.count, h, payload);
    PaddedBack(m, p.blockSize);
    AuthenticatedBack(t, p.mac, p.macSize, record, h, payload, PadBytes(PadLen(|m|, p.blockSize)));
  }

  lemma CbcOpensRecord(s: State, typ: byte, version: bytes, payload: bytes, iv: bytes)
    requires |version| == 2 && CanSeal(s, Header(typ, version, |payload|), iv) && s.protection.Cbc?
    ensures var e := Encrypt(s, Header(typ, version, |payload|), payload, iv);
            Decrypt(s, e.record) == Opening(payload, typ, e.state)
  {
    hide U16, CbcSeal, CbcOpen, CbcPlain, WellPadded, ToRemove, Header, Authenticated, DecryptCbc, Multiple,
         Chained, Sound, Framed, Encrypt;
    var h := Header(typ, version, |payload|);
    var p := s.protection;
    var start := if ExplicitIv(s) then iv else s.iv;
    var lead := if ExplicitIv(s) then iv else [];
    SoundBlock(p);
    var plain := CbcPlain(s, h, payload);
    PlainBlocks(s, h, payload);
    var c := CbcSeal(p, start, plain);
    var record := Framed(h + (lead + c));
    CbcShape(s, h, payload, iv, lead, start);
    HeaderParts(typ, version, |payload|);
    FramedParts(h, lead + c);
    var t := s.(iv := Chained(p.blockSize, start, c));
    CbcChecks(s, t, record, h, payload);
    CbcReaches(s, record, lead, start, c);
    CbcOpens(p, start, plain);
  }

  lemma PlainBlocks(s: State, h: bytes, payload: bytes)
    requires Valid(s) && s.protection.Cbc?
    ensures Blocks(s.protection, CbcPlain(s, h, payload))
  {
    hide Padded;
  }

  // ----- AEAD -----

  lemma AeadOpens(s: State, typ: byte, version: bytes, payload: bytes)
    requires |version| == 2 && CanSeal(s, Header(typ, version, |payload|), []) && s.protection.Aead?
    requires s.version != VERSION_TLS13
    ensures var e := Encrypt(s, Header(typ, version, |payload|), payload, []);
            Decrypt(s, e.record) == Opening(payload, typ, e.state)
  {
    hide U16, U64, Header, XorNonce;
    var h := Header(typ, version, |payload|);
    var p := s.protection;
    var nonce := AeadNonce(p, s.count);
    var lead := if p.explicit then U64(s.count) else [];
    var c := p.seal(nonce, U64(s.count) + h, payload);
    var body := lead + c;
    var record := Framed(h + body);
    assert h + lead + c == h + body;
    HeaderParts(typ, version, |payload|);
    FramedParts(h, body);
    assert body[|lead|..] == c && body[..|lead|] == lead;
    assert U16Int(|payload|) == U16(|payload|) by { LengthBytes(|payload|); }
    assert U64(s.count) + record[..3] + U16(|payload|) == U64(s.count) + h;
    assert DecryptAead(s, record) == Opening(payload, typ, s.(count := s.count + 1));
  }

  lemma LengthBytes(n: nat)
    ensures U16Int(n) == U16(n)
  {
    var k := n / 0x1_0000;
    assert n / 0x100 == k * 0x100 + n % 0x1_0000 / 0x100;
  }

  lemma Tls13Opens(s: State, typ: byte, version: bytes, payload: bytes)
    requires |version| == 2 && CanSeal(s, Header(typ, version, |payload|), []) && s.protection.Aead?
    requires s.version == VERSION_TLS13 && typ != 0 && |payload| <= MAX_PLAINTEXT
    ensures var e := Encrypt(s, Header(typ, version, |payload|), payload, []);
            Decrypt(s, e.record) == Opening(payload, typ, e.state)
  {
    hide U16, U64, Header, XorNonce;
    var h := Header(typ, version, |payload|);
    var p := s.protection;
    var inner := payload + [typ];
    var g := Header13(h, |payload| + 1 + p.overhead);
    HeaderParts(typ, version, |payload|);
    assert g[3..] == U16(|inner| + p.overhead);
    var nonce := AeadNonce(p, s.count);
    var c := p.seal(nonce, g, inner);
    FramedParts(g, c);
    var record := g + c;
    assert record[..HEADER_LEN] == g && record[HEADER_LEN..] == c && c[0..] == c;
    assert ContentEnd(payload + [typ]) == |payload| + 1;
    assert inner[..|payload|] == payload;
    assert Unwrapped(s, APPLICATION_DATA, inner) == Opening(payload, typ, s.(count := s.count + 1));
    assert DecryptAead(s, record) == Unwrapped(s, APPLICATION_DATA, inner);
  }

  // ----- One record, any mode -----

  /** A payload with its content type, record version and, for CBC, random vector. */
  datatype Message = Message(typ: byte, version: bytes, payload: bytes, iv: bytes)

  ghost predicate Sendable(s: State, m: Message)
  {
    && |m.version| == 2 && (ExplicitIv(s) ==> |m.iv| == s.protection.blockSize)
    && (s.version == VERSION_TLS13 ==> m.typ != 0 && |m.payload| <= MAX_PLAINTEXT)
  }

  /** Sealing uses up a sequence number, except before the first keys are in place. */
  predicate NumbersLeft(s: State, n: nat)
  {
    s.protection.Plain? || s.count + n <= MAX_SEQ
  }

  ghost function Seal(s: State, m: Message): Sealed
    requires Valid(s) && NumbersLeft(s, 1) && Sendable(s, m)
  {
    Encrypt(s, Header(m.typ, m.version, |m.payload|), m.payload, m.iv)
  }

  lemma SealedOpens(s: State, m: Message)
    requires Valid(s) && !s.protection.Plain? && NumbersLeft(s, 1) && Sendable(s, m)
    ensures var e := Seal(s, m);
            |e.record| >= HEADER_LEN && Decrypt(s, e.record) == Opening(m.payload, m.typ, e.state)
  {
    hide Decrypt, Header, Framed;
    match s.protection
    case Stream(_, _, _) => StreamOpens(s, m.typ, m.version, m.payload);
    case Cbc(_, _, _, _, _) => CbcOpensRecord(s, m.typ, m.version, m.payload, m.iv);
    case Aead(_, _, _, _, _) =>
      if s.version == VERSION_TLS13 {
        Tls13Opens(s, m.typ, m.version, m.payload);
      } else {
        AeadOpens(s, m.typ, m.version, m.payload);
      }
  }

  /** The header of a sealed record: the type, hidden in TLS 1.3, the version, and the length of what follows. */
  lemma SealedFrame(s: State, m: Message)
    requires Valid(s) && !s.protection.Plain? && NumbersLeft(s, 1) && Sendable(s, m)
    ensures var r := Seal(s, m).record;
            && |r| >= HEADER_LEN && r[0] == (if s.version == VERSION_TLS13 then APPLICATION_DATA else m.typ)
            && r[1..3] == m.version && r[3..HEADER_LEN] == U16(|r| - HEADER_LEN)
  {
    hide U16, U64, XorNonce, StreamXor, CbcSeal, CbcPlain, Sound, Chained, Framed, Multiple, Padded;
    var p, h := s.protection, Header(m.typ, m.version, |m.payload|);
    HeaderParts(m.typ, m.version, |m.payload|);
    if p.Stream? {
      FramedParts(h, StreamXor(p.keystream, s.pos, m.payload + Mac(p.mac, s.count, h, m.payload)));
    } else if p.Cbc? {
      var start := if ExplicitIv(s) then m.iv else s.iv;
      var lead := if ExplicitIv(s) then m.iv else [];
      PlainBlocks(s, h, m.payload);
      CbcShape(s, h, m.payload, m.iv, lead, start);
      FramedParts(h, lead + CbcSeal(p, start, CbcPlain(s, h, m.payload)));
    } else {
      SoundNonce(p);
      var nonce := AeadNonce(p, s.count);
      var lead := if p.explicit then U64(s.count) else [];
      var c := p.seal(nonce, U64(s.count) + h, m.payload);
      Assoc(h, lead, c);
      FramedParts(h, lead + c);
      var g := Header13(h, |m.payload| + 1 + p.overhead);
      FramedParts(g, p.seal(nonce, g, m.payload + [m.typ]));
    }
    var r := Seal(s, m).record;
    assert r[1..3] == r[..3][1..3];
  }

  /** What sealing leaves of the state: keys and version stay, the number moves by one. */
  lemma SealAdvances(s: State, m: Message)
    requires Valid(s) && NumbersLeft(s, 1) && Sendable(s, m)
    ensures var t := Seal(s, m).state;
            && Valid(t) && t.protection == s.protection && t.version == s.version
            && t.count == if s.protection.Plain? then s.count else s.count + 1
  {
    hide U16, U64, Framed, StreamXor, Header, Padded;
    if s.protection.Cbc? {
      var h := Header(m.typ, m.version, |m.payload|);
      var plain := Padded(m.payload + Mac(s.protection.mac, s.count, h, m.payload), s.protection.blockSize);
      FirstBlock(s.protection, plain);
    }
  }

  // ----- Whole runs -----

  ghost predicate AllSendable(s: State, ms: seq<Message>)
  {
    forall i :: 0 <= i < |ms| ==> Sendable(s, ms[i])
  }

  ghost predicate CanRun(s: State, ms: seq<Message>)
  {
    Valid(s) && NumbersLeft(s, |ms|) && AllSendable(s, ms)
  }

  lemma RunOn(s: State, ms: seq<Message>)
    requires CanRun(s, ms) && ms != []
    ensures CanRun(Seal(s, ms[0]).state, ms[1..])
  {
    hide Seal, Valid;
    SealAdvances(s, ms[0]);
  }

  /** The sender's state after sealing the messages in order. */
  ghost function After(s: State, ms: seq<Message>): State
    requires CanRun(s, ms)
    decreases |ms|
  {
    if ms == [] then s else
    RunOn(s, ms);
    After(Seal(s, ms[0]).state, ms[1..])
  }

  ghost function SealAll(s: State, ms: seq<Message>): seq<bytes>
    requires CanRun(s, ms)
    decreases |ms|
  {
    if ms == [] then [] else
    RunOn(s, ms);
    var e := Seal(s, ms[0]);
    [e.record] + SealAll(e.state, ms[1..])
  }

  datatype Plaintext = Plaintext(typ: byte, payload: bytes)

  datatype OpenedAll = OpenedAll(plaintexts: seq<Plaintext>, state: State) | Stopped

  /** The receiver opens the records in order and stops at the first refusal. */
  ghost function OpenAll(s: State, records: seq<bytes>): OpenedAll
    decreases |records|
  {
    if records == [] then OpenedAll([], s) else
    if !CanOpen(s, records[0]) then Stopped else
    var d := Decrypt(s, records[0]);
    if d.Refused? then Stopped else
    var r := OpenAll(d.state, records[1..]);
    if r.Stopped? then Stopped else OpenedAll([Plaintext(d.typ, d.data)] + r.plaintexts, r.state)
  }

  function Plaintexts(ms: seq<Message>): seq<Plaintext>
  {
    if ms == [] then [] else [Plaintext(ms[0].typ, ms[0].payload)] + Plaintexts(ms[1..])
  }

  /** Every run of sealed records opens to what went in, and both ends agree afterwards. */
  lemma {:induction false} RunOpens(s: State, ms: seq<Message>)
    requires CanRun(s, ms) && !s.protection.Plain?
    ensures OpenAll(s, SealAll(s, ms)) == OpenedAll(Plaintexts(ms), After(s, ms))
    ensures After(s, ms).count == s.count + |ms| && After(s, ms).protection == s.protection
    decreases |ms|
  {
    hide Decrypt, Seal, Valid, Sendable;
    if ms != [] {
      RunOn(s, ms);
      SealAdvances(s, ms[0]);
      SealedOpens(s, ms[0]);
      var e := Seal(s, ms[0]);
      RunOpens(e.state, ms[1..]);
      var records := SealAll(s, ms);
      assert records[0] == e.record && records[1..] == SealAll(e.state, ms[1..]);
    }
  }

  // ----- Nonces -----

  /** The nonces of the records of a run, in order. */
  ghost function Nonces(s: State, ms: seq<Message>): (r: seq<bytes>)
    requires CanRun(s, ms) && s.protection.Aead?
    ensures |r| == |ms|
    decreases |ms|
  {
    if ms == [] then [] else
    RunOn(s, ms);
    SealAdvances(s, ms[0]);
    [AeadNonce(s.protection, s.count)] + Nonces(Seal(s, ms[0]).state, ms[1..])
  }

  lemma {:induction false} NonceAt(s: State, ms: seq<Message>, i: nat)
    requires CanRun(s, ms) && s.protection.Aead? && i < |ms|
    ensures Nonces(s, ms)[i] == AeadNonce(s.protection, s.count + i)
    decreases i
  {
    hide Seal, Valid, Sendable, AeadNonce;
    RunOn(s, ms);
    SealAdvances(s, ms[0]);
    if i > 0 {
      NonceAt(Seal(s, ms[0]).state, ms[1..], i - 1);
    }
  }

  /** Two records of one run never share a nonce. */
  lemma NoNonceTwice(s: State, ms: seq<Message>, i: nat, j: nat)
    requires CanRun(s, ms) && s.protection.Aead? && i < j < |ms|
    ensures Nonces(s, ms)[i] != Nonces(s, ms)[j]
  {
    hide Nonces, XorNonce, Sound, U64, AllSendable;
    SoundNonce(s.protection);
    NonceAt(s, ms, i);
    NonceAt(s, ms, j);
    NoncesDiffer(s.protection.fixed, s.count + i, s.count + j);
  }
}
