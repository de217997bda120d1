/**
 What opening a record proves.  A record opens exactly when it carries the MAC,
 or the AEAD seal, of its content under the receiver's own sequence number; so
 as long as nobody but the sender makes such MACs and seals, a receiver gets
 what was sent, in order, up to the point where it stops.
 */
module RecordAuthenticity {
  import opened Bytes
  import opened Bits
  import opened Nonce
  import opened Padding
  import opened Versions
  import opened HalfConn
  import opened RecordLayer

  /** In TLS 1.3 a change_cipher_spec record passes without protection. */
  predicate Unprotected(s: State, record: bytes)
  {
    s.version == VERSION_TLS13 && record != [] && record[0] == CHANGE_CIPHER_SPEC
  }

  lemma Passes(s: State, record: bytes)
    requires CanOpen(s, record) && Unprotected(s, record)
    ensures Decrypt(s, record) == Opening(record[HEADER_LEN..], CHANGE_CIPHER_SPEC, s)
  {
  }

  /** What the MAC covers; `kind` is the content type and the version. */
  function MacInput(count: u64, kind: bytes, data: bytes): bytes
  {
    U64(count) + kind + U16(|data|) + data
  }

  lemma MacOf(mac: bytes -> bytes, count: u64, kind: bytes, data: bytes)
    ensures Mac(mac, count, kind + U16(|data|), data) == mac(MacInput(count, kind, data))
  {
    hide U16, U64;
    assert U64(count) + (kind + U16(|data|)) + data == MacInput(count, kind, data);
  }

  /** The parts of what a MAC covers. */
  lemma MacInputParts(count: u64, kind: bytes, data: bytes)
    requires |kind| == 3
    ensures var x := MacInput(count, kind, data);
            |x| >= 13 && x[..8] == U64(count) && x[8..11] == kind && x[13..] == data
  {
    hide U16, U64;
  }

  lemma SameNumber(i: u64, j: u64)
    requires U64(i) == U64(j)
    ensures i == j
  {
    hide U64, Value;
    ValueOfBytes(i);
    ValueOfBytes(j);
  }

  // ----- Stream ciphers -----

  /** The payload, combined with the key stream, is the data and its MAC. */
  ghost predicate StreamCarries(s: State, record: bytes, data: bytes)
    requires s.protection.Stream? && |record| >= HEADER_LEN
  {
    var p, payload := s.protection, record[HEADER_LEN..];
    var m := data + p.mac(MacInput(s.count, record[..3], data));
    |payload| == |m| && forall i :: 0 <= i < |m| ==> m[i] == Xor(payload[i], p.keystream(s.pos + i))
  }

  lemma StreamAccepts(s: State, record: bytes, data: bytes)
    requires CanOpen(s, record) && s.protection.Stream?
    ensures var d := Decrypt(s, record);
            && (d.Opening? && d.data == data <==> StreamCarries(s, record, data))
            && (d.Opening? ==>
                  && d.typ == record[0]
                  && d.state == s.(count := s.count + 1, pos := s.pos + |record| - HEADER_LEN))
  {
    hide U16, U64, Xor, MacInput;
    var p, payload := s.protection, record[HEADER_LEN..];
    var m := StreamXor(p.keystream, s.pos, payload);
    var tag := p.mac(MacInput(s.count, record[..3], data));
    assert StreamCarries(s, record, data) <==> m == data + tag;
    TagFound(s.(pos := s.pos + |payload|), p.mac, p.macSize, record, m, 0, true, data);
    if |m| >= p.macSize && m[..|m| - p.macSize] == data && m[|m| - p.macSize..] == tag {
      assert m == m[..|m| - p.macSize] + m[|m| - p.macSize..];
    }
  }

  /** Where the receiver looks for the MAC, and what it compares it with. */
  lemma TagFound(s: State, mac: bytes -> bytes, size: nat, record: bytes, m: bytes, toRemove: nat, good: bool,
                 data: bytes)
    requires |record| >= HEADER_LEN && s.count < MAX_SEQ && forall x :: |mac(x)| == size
    ensures var tag := mac(MacInput(s.count, record[..3], data));
            var d := Authenticated(s, mac, size, record, m, toRemove, good);
            && (d.Opening? && d.data == data <==>
                && good && |m| >= size
                && (if |m| - size - toRemove >= 0
                    then m[..|m| - size - toRemove] == data && m[|m| - size - toRemove..|m| - toRemove] == tag
                    else data == [] && m[..size] == tag))
            && (d.Opening? ==> d.typ == record[0] && d.state == s.(count := s.count + 1))
  {
    hide U16, U64, MacInput, Mac;
    if |m| >= size {
      var n := if |m| - size - toRemove < 0 then 0 else |m| - size - toRemove;
      MacOf(mac, s.count, record[..3], m[..n]);
    }
  }

  // ----- CBC -----

  /** The last `n` bytes are padding: each of them is `n - 1`. */
  predicate EndsInPadding(m: bytes, n: nat)
  {
    0 < n <= |m| && forall i :: |m| - n <= i < |m| ==> m[i] == n - 1
  }

  lemma PaddingFound(m: bytes, n: nat)
    requires EndsInPadding(m, n)
    ensures WellPadded(m) && ToRemove(m) == n
  {
    assert m[|m| - 1] == n - 1;
  }

  lemma PaddingMissing(m: bytes)
    requires WellPadded(m)
    ensures EndsInPadding(m, ToRemove(m))
  {
  }

  /**
   The deciphered blocks are the data, its MAC and padding.  The length check
   lets one more shape through: padding so long that it reaches into the MAC of
   empty data.
   */
  ghost predicate BlocksCarry(s: State, record: bytes, m: bytes, n: nat, data: bytes)
    requires s.protection.Cbc? && |record| >= HEADER_LEN
  {
    var p := s.protection;
    var tag := p.mac(MacInput(s.count, record[..3], data));
    EndsInPadding(m, n) &&
    (if |m| >= p.macSize + n then m[..|m| - n] == data + tag
     else data == [] && p.macSize < |m| && m[..p.macSize] == tag)
  }

  /** The block that the first block is chained to. */
  function StartOf(s: State, payload: bytes): bytes
    requires ExplicitIv(s) ==> |payload| >= s.protection.blockSize
  {
    if ExplicitIv(s) then payload[..s.protection.blockSize] else s.iv
  }

  ghost predicate CbcCarries(s: State, record: bytes, data: bytes)
    requires CanOpen(s, record) && s.protection.Cbc?
  {
    var payload, k := record[HEADER_LEN..], ExplicitNonceLen(s);
    && |payload| >= k && Blocks(s.protection, payload[k..])
    && exists n :: BlocksCarry(s, record, CbcOpen(s.protection, StartOf(s, payload), payload[k..]), n, data)
  }

  lemma BlocksAccept(s: State, t: State, record: bytes, m: bytes, data: bytes)
    requires CanOpen(s, record) && s.protection.Cbc? && |m| > s.protection.macSize && t.count == s.count
    ensures var d := Authenticated(t, s.protection.mac, s.protection.macSize, record, m, ToRemove(m), WellPadded(m));
            && (d.Opening? && d.data == data <==> exists n :: BlocksCarry(s, record, m, n, data))
            && (d.Opening? ==> d.typ == record[0] && d.state == t.(count := s.count + 1))
  {
    hide U16, U64, MacInput, Mac, WellPadded, ToRemove, EndsInPadding, Authenticated;
    var p, n := s.protection, ToRemove(m);
    var tag := p.mac(MacInput(s.count, record[..3], data));
    var d := Authenticated(t, p.mac, p.macSize, record, m, n, WellPadded(m));
    TagFound(t, p.mac, p.macSize, record, m, n, WellPadded(m), data);
    if d.Opening? && d.data == data {
      PaddingMissing(m);
      Removed(m, n, p.macSize, data, tag);
      assert BlocksCarry(s, record, m, n, data);
    }
    if k: nat :| BlocksCarry(s, record, m, k, data) {
      PaddingFound(m, k);
      Removed(m, k, p.macSize, data, tag);
    }
  }

  lemma Removed(m: bytes, n: nat, size: nat, data: bytes, tag: bytes)
    requires |tag| == size
    ensures |m| >= size + n ==>
              (m[..|m| - n] == data + tag <==> m[..|m| - size - n] == data && m[|m| - size - n..|m| - n] == tag)
  {
    if |m| >= size + n {
      var k := |m| - size - n;
      assert m[..|m| - n] == m[..k] + m[k..|m| - n];
      if m[..|m| - n] == data + tag {
        assert m[..k] == (data + tag)[..k] && m[k..|m| - n] == (data + tag)[k..];
      }
    }
  }

  /** The length checks ask for whole blocks with room for a MAC and one byte of padding. */
  lemma CbcLengths(s: State, payload: bytes)
    requires Valid(s) && s.protection.Cbc?
    ensures var b, k, size := s.protection.blockSize, ExplicitNonceLen(s), s.protection.macSize;
            Multiple(|payload|, b) && |payload| >= k + RoundUp(size + 1, b) <==>
            |payload| > k + size && Blocks(s.protection, payload[k..])
  {
    hide Multiple, Sound;
    SoundBlock(s.protection);
    var b, k, size := s.protection.blockSize, ExplicitNonceLen(s), s.protection.macSize;
    if |payload| >= k && Multiple(|payload|, b) {
      BodyBlocks(s, payload);
      if |payload| > k + size {
        BlocksNeeded(|payload| - k, b, size + 1);
      }
    }
    if |payload| > k + size && Blocks(s.protection, payload[k..]) {
      CbcBody(b, payload[k..]);
      BlocksNeeded(|payload| - k, b, size + 1);
    }
  }

  lemma CbcAccepts(s: State, record: bytes, data: bytes)
    requires CanOpen(s, record) && s.protection.Cbc?
    ensures var d := Decrypt(s, record);
            && (d.Opening? && d.data == data <==> CbcCarries(s, record, data))
            && (d.Opening? ==>
                  && d.typ == record[0] && |record| >= s.protection.blockSize
                  && d.state == s.(count := s.count + 1, iv := record[|record| - s.protection.blockSize..]))
  {
    hide U16, U64, MacInput, Authenticated, WellPadded, ToRemove, Multiple, RoundUp, Sound, CbcOpen, BlocksCarry;
    var p, payload, k := s.protection, record[HEADER_LEN..], ExplicitNonceLen(s);
    SoundBlock(p);
    CbcLengths(s, payload);
    if |payload| > k + p.macSize && Blocks(p, payload[k..]) {
      var c := payload[k..];
      FirstBlock(p, c);
      var m := CbcOpen(p, StartOf(s, payload), c);
      var last := Chained(p.blockSize, StartOf(s, payload), c);
      assert last == record[|record| - p.blockSize..];
      BlocksAccept(s, s.(iv := last), record, m, data);
    } else if CbcCarries(s, record, data) {
      TooShort(s, record, data);
      assert false;
    }
  }

  lemma TooShort(s: State, record: bytes, data: bytes)
    requires CanOpen(s, record) && s.protection.Cbc? && CbcCarries(s, record, data)
    ensures |record| - HEADER_LEN > ExplicitNonceLen(s) + s.protection.macSize
  {
    hide U16, U64, MacInput, Multiple, CbcOpen;
  }

  /**
   Where the record brings its own initialization vector, one that opens under
   two numbers opens to the same data and shows two inputs with the same MAC.
   */
  lemma OpensTwice(s: State, t: State, record: bytes)
    requires CanOpen(s, record) && CanOpen(t, record) && ExplicitIv(s)
    requires t.protection == s.protection && t.version == s.version && t.count != s.count
    requires Decrypt(s, record).Opening? && Decrypt(t, record).Opening?
    ensures var data := Decrypt(s, record).data;
            var x, y := MacInput(s.count, record[..3], data), MacInput(t.count, record[..3], data);
            Decrypt(t, record).data == data && x != y && s.protection.mac(x) == s.protection.mac(y)
  {
    hide U16, U64, MacInput, Decrypt, EndsInPadding, Sound, CbcOpen, Multiple;
    var a, b := Decrypt(s, record).data, Decrypt(t, record).data;
    CbcAccepts(s, record, a);
    CbcAccepts(t, record, b);
    var payload, k := record[HEADER_LEN..], ExplicitNonceLen(s);
    var m := CbcOpen(s.protection, StartOf(s, payload), payload[k..]);
    var n :| BlocksCarry(s, record, m, n, a);
    var l :| BlocksCarry(t, record, m, l, b);
    PaddingFound(m, n);
    PaddingFound(m, l);
    var p := s.protection;
    var x, y := p.mac(MacInput(s.count, record[..3], a)), p.mac(MacInput(t.count, record[..3], b));
    assert |x| == |y| == p.macSize by { SoundMac(p); }
    SameSplit(m, n, p.macSize, a, b, x, y);
    MacInputParts(s.count, record[..3], a);
    MacInputParts(t.count, record[..3], a);
    if U64(s.count) == U64(t.count) {
      SameNumber(s.count, t.count);
    }
  }

  lemma SoundMac(p: Protection)
    requires Sound(p) && p.Cbc?
    ensures forall x :: |p.mac(x)| == p.macSize
  {
  }

  lemma SameSplit(m: bytes, n: nat, size: nat, a: bytes, b: bytes, x: bytes, y: bytes)
    requires |x| == |y| == size && n <= |m|
    requires if |m| >= size + n then m[..|m| - n] == a + x == b + y
             else a == b == [] && size <= |m| && m[..size] == x == y
    ensures a == b && x == y
  {
    if |m| >= size + n {
      assert a == (a + x)[..|a|] && b == (b + y)[..|b|] && x == (a + x)[|a|..] && y == (b + y)[|b|..];
    }
  }

  // ----- A record of the other shape -----

  const TAIL: bytes := [31, 31, 31, 31, 31, 31, 31, 31, 31, 31, 31, 31, 31, 31, 31, 31]
  const ZERO: bytes := [0, 0, 0, 0, 0, 0, 0, 0, 0, 0, 0, 0, 0, 0, 0, 0]

  /** A permutation that swaps two blocks. */
  function Swap(x: bytes): bytes
  {
    if x == TAIL then ZERO else if x == ZERO then TAIL else x
  }

  /** A MAC that ends in bytes which may be padding. */
  const TAIL_MAC: bytes -> bytes := x => TAIL + TAIL[..4]

  const ODD_STATE := State(VERSION_TLS10, Cbc(Swap, Swap, 16, TAIL_MAC, 20), 0, 0, TAIL)
  const ODD_RECORD: bytes := [APPLICATION_DATA, 3, 1, 0, 32] + (TAIL + TAIL)

  lemma TailOpens()
    ensures XorAll(TAIL, ZERO) == TAIL
  {
    forall i | 0 <= i < 16 ensures XorAll(TAIL, ZERO)[i] == TAIL[i] {
      XorZero(31);
    }
  }

  lemma OddValid()
    ensures Valid(ODD_STATE) && |ODD_RECORD| == 37 && ODD_RECORD[HEADER_LEN..] == TAIL + TAIL
  {
    forall x: bytes | |x| == 16 ensures |Swap(x)| == 16 && Swap(Swap(x)) == x {
      assert TAIL[0] != ZERO[0];
    }
  }

  lemma OddBlocks()
    ensures Sound(ODD_STATE.protection) && Blocks(ODD_STATE.protection, TAIL + TAIL)
    ensures CbcOpen(ODD_STATE.protection, TAIL, TAIL + TAIL) == TAIL + TAIL
  {
    hide Sound, XorAll;
    OddValid();
    TailOpens();
    var p := ODD_STATE.protection;
    assert Swap(TAIL) == ZERO;
    assert (TAIL + TAIL)[..16] == TAIL && (TAIL + TAIL)[16..] == TAIL && TAIL[..16] == TAIL && TAIL[16..] == [];
    assert CbcOpen(p, TAIL, TAIL) == TAIL + CbcOpen(p, TAIL, []);
  }

  /** Padding that takes up all 32 deciphered bytes, 20 of them the MAC: the record opens, to no data. */
  lemma PaddingMeetsMac()
    ensures CanOpen(ODD_STATE, ODD_RECORD) && Decrypt(ODD_STATE, ODD_RECORD).Opening?
    ensures var m := CbcOpen(ODD_STATE.protection, ODD_STATE.iv, ODD_RECORD[HEADER_LEN..]);
            EndsInPadding(m, |m|) && Decrypt(ODD_STATE, ODD_RECORD).data == []
  {
    hide Sound, CbcOpen, Decrypt, Multiple;
    OddValid();
    OddBlocks();
    var m, payload := TAIL + TAIL, ODD_RECORD[HEADER_LEN..];
    assert m[..20] == TAIL_MAC([]) && |m| == 32;
    assert BlocksCarry(ODD_STATE, ODD_RECORD, m, 32, []);
    assert ExplicitNonceLen(ODD_STATE) == 0 && payload[0..] == m && StartOf(ODD_STATE, payload) == TAIL;
    assert CbcCarries(ODD_STATE, ODD_RECORD, []);
    CbcAccepts(ODD_STATE, ODD_RECORD, []);
  }

  // ----- AEAD -----

  /** The sealed part of the payload, the nonce it is opened with and the data authenticated beside it. */
  ghost function SealedPart(s: State, record: bytes): bytes
    requires CanOpen(s, record) && s.protection.Aead? && |record| >= HEADER_LEN + ExplicitNonceLen(s)
  {
    record[HEADER_LEN + ExplicitNonceLen(s)..]
  }

  ghost function NonceFor(s: State, record: bytes): bytes
    requires CanOpen(s, record) && s.protection.Aead? && |record| >= HEADER_LEN + ExplicitNonceLen(s)
  {
    if s.protection.explicit then s.protection.fixed + record[HEADER_LEN..HEADER_LEN + 8]
    else XorNonce(s.protection.fixed, U64(s.count))
  }

  ghost function Beside(s: State, record: bytes): bytes
    requires CanOpen(s, record) && s.protection.Aead? && |record| >= HEADER_LEN + ExplicitNonceLen(s)
  {
    if s.version == VERSION_TLS13 then record[..HEADER_LEN]
    else U64(s.count) + record[..3] + U16Int(|SealedPart(s, record)| - s.protection.overhead)
  }

  /** In TLS 1.3 the content type and any number of zeros follow the data inside the seal. */
  predicate Wraps(m: bytes, typ: byte, data: bytes)
  {
    if m == [] then data == [] && typ == APPLICATION_DATA
    else |m| > |data| && m[..|data|] == data && m[|data|] == typ != 0 && forall i :: |data| < i < |m| ==> m[i] == 0
  }

  ghost predicate AeadCarries(s: State, record: bytes, typ: byte, data: bytes)
    requires CanOpen(s, record) && s.protection.Aead?
  {
    && |record| >= HEADER_LEN + ExplicitNonceLen(s)
    && var m := s.protection.open(NonceFor(s, record), Beside(s, record), SealedPart(s, record));
       && m.Some?
       && (if s.version == VERSION_TLS13
           then record[0] == APPLICATION_DATA && |m.value| <= MAX_PLAINTEXT + 1 && Wraps(m.value, typ, data)
           else m.value == data && typ == record[0])
  }

  lemma AeadAccepts(s: State, record: bytes, typ: byte, data: bytes)
    requires CanOpen(s, record) && s.protection.Aead? && !Unprotected(s, record)
    ensures var d := Decrypt(s, record);
            && (d.Opening? && d.typ == typ && d.data == data <==> AeadCarries(s, record, typ, data))
            && (d.Opening? ==> d.state == s.(count := s.count + 1))
  {
    hide U16, U64, XorNonce, Sound, ContentEnd;
    SoundNonce(s.protection);
    var payload, k := record[HEADER_LEN..], ExplicitNonceLen(s);
    if |payload| >= k {
      assert payload[k..] == SealedPart(s, record) && payload[..k] == record[HEADER_LEN..HEADER_LEN + k];
      var m := s.protection.open(NonceFor(s, record), Beside(s, record), SealedPart(s, record));
      if m.Some? && m.value != [] {
        assert Wraps(m.value, typ, data) <==>
               ContentEnd(m.value) == |data| + 1 && data == m.value[..|data|] && typ == m.value[|data|];
      }
    }
  }

  // ----- Any mode -----

  ghost predicate Carries(s: State, record: bytes, typ: byte, data: bytes)
    requires CanOpen(s, record)
  {
    match s.protection
    case Plain => false
    case Stream(_, _, _) => StreamCarries(s, record, data) && typ == record[0]
    case Cbc(_, _, _, _, _) => CbcCarries(s, record, data) && typ == record[0]
    case Aead(_, _, _, _, _) => AeadCarries(s, record, typ, data)
  }

  /** A protected record opens to some content if and only if it carries its authenticator. */
  lemma OpensIffCarries(s: State, record: bytes, typ: byte, data: bytes)
    requires CanOpen(s, record) && !s.protection.Plain? && !Unprotected(s, record)
    ensures var d := Decrypt(s, record);
            && (d.Opening? && d.typ == typ && d.data == data <==> Carries(s, record, typ, data))
            && (d.Opening? ==> d.state.count == s.count + 1)
  {
    hide Decrypt, Sound, StreamCarries, CbcCarries, AeadCarries;
    match s.protection
    case Stream(_, _, _) => StreamAccepts(s, record, data);
    case Cbc(_, _, _, _, _) => CbcAccepts(s, record, data);
    case Aead(_, _, _, _, _) => AeadAccepts(s, record, typ, data);
  }

  // ----- Runs over any network -----

  /** Something that only the holder of the keys can make: a MAC or a seal. */
  datatype Claim = Tag(input: bytes) | Seal(nonce: bytes, beside: bytes, plain: bytes)

  /** What the sender makes for a message under the number `count`. */
  ghost function ClaimOf(s: State, count: u64, m: Message): Claim
    requires Valid(s) && Sendable(s, m)
  {
    var p, h := s.protection, Header(m.typ, m.version, |m.payload|);
    if !p.Aead? then Tag(MacInput(count, [m.typ] + m.version, m.payload))
    else if s.version == VERSION_TLS13 then
      Claim.Seal(AeadNonce(p, count), Header13(h, |m.payload| + 1 + p.overhead), m.payload + [m.typ])
    else Claim.Seal(AeadNonce(p, count), U64(count) + h, m.payload)
  }

  /** What the receiver finds in a record. */
  ghost function Presented(s: State, record: bytes, typ: byte, data: bytes): Claim
    requires CanOpen(s, record) && Carries(s, record, typ, data)
  {
    if !s.protection.Aead? then Tag(MacInput(s.count, record[..3], data))
    else
      var nonce, beside := NonceFor(s, record), Beside(s, record);
      Claim.Seal(nonce, beside, s.protection.open(nonce, beside, SealedPart(s, record)).value)
  }

  ghost predicate Made(s: State, ms: seq<Message>, c: Claim)
    requires CanRun(s, ms) && !s.protection.Plain?
  {
    exists j :: 0 <= j < |ms| && c == ClaimOf(s, s.count + j, ms[j])
  }

  /**
   Nobody but the sender makes MACs and seals: whatever the records carry for a
   receiver in state `t`, the sender made for one of the messages `ms` it sent from `s` on.
   */
  ghost predicate Genuine(s: State, ms: seq<Message>, t: State, records: seq<bytes>)
    requires CanRun(s, ms) && !s.protection.Plain?
    decreases |records|
  {
    records == [] || !CanOpen(t, records[0]) ||
    (&& (forall typ, data ::
           Carries(t, records[0], typ, data) && !Unprotected(t, records[0]) ==>
             Made(s, ms, Presented(t, records[0], typ, data)))
     && var d := Decrypt(t, records[0]);
        d.Opening? ==> Genuine(s, ms, d.state, records[1..]))
  }

  /** The protected content that the receiver accepts before it stops. */
  ghost function Accepted(s: State, records: seq<bytes>): seq<Plaintext>
    decreases |records|
  {
    if records == [] || !CanOpen(s, records[0]) then [] else
    var d := Decrypt(s, records[0]);
    if d.Refused? then [] else
    (if Unprotected(s, records[0]) then [] else [Plaintext(d.typ, d.data)]) + Accepted(d.state, records[1..])
  }

  /** A claim fixes the number, the content type and the content it was made for. */
  lemma ClaimFixes(s: State, record: bytes, typ: byte, data: bytes, count: u64, m: Message)
    requires CanOpen(s, record) && Carries(s, record, typ, data) && Sendable(s, m)
    requires Presented(s, record, typ, data) == ClaimOf(s, count, m)
    ensures count == s.count && typ == m.typ && data == m.payload
  {
    hide U16, U64, Sound, XorNonce, MacInput, StreamCarries, CbcCarries;
    var p, h := s.protection, Header(m.typ, m.version, |m.payload|);
    HeaderParts(m.typ, m.version, |m.payload|);
    if !p.Aead? {
      MacInputParts(count, [m.typ] + m.version, m.payload);
      MacInputParts(s.count, record[..3], data);
      SameNumber(count, s.count);
      assert record[0] == record[..3][0];
    } else if s.version == VERSION_TLS13 {
      SoundNonce(p);
      if count != s.count {
        NoncesDiffer(p.fixed, count, s.count);
      }
      var inner := m.payload + [m.typ];
      assert inner[|m.payload|] == m.typ != 0;
      assert |data| == |m.payload|;
      assert inner[..|data|] == m.payload;
    } else {
      var x, y := U64(count) + h, Beside(s, record);
      assert x[..8] == U64(count) && x[8] == h[0];
      assert y[..8] == U64(s.count) && y[8] == record[0];
      SameNumber(count, s.count);
    }
  }

  /**
   Whatever the network does with the records, altering, dropping, repeating or
   reordering them, what the receiver accepts is a prefix of what was sent.
   */
  lemma OnlySentIsAccepted(s: State, ms: seq<Message>, records: seq<bytes>)
    requires CanRun(s, ms) && !s.protection.Plain? && Genuine(s, ms, s, records)
    ensures Accepted(s, records) <= Plaintexts(ms)
  {
    OnlySentFrom(s, ms, 0, s, records);
    assert ms[0..] == ms;
  }

  lemma {:induction false} OnlySentFrom(s: State, ms: seq<Message>, k: nat, t: State, records: seq<bytes>)
    requires CanRun(s, ms) && !s.protection.Plain? && Genuine(s, ms, t, records)
    requires k <= |ms| && t.protection == s.protection && t.version == s.version && t.count == s.count + k
    ensures Accepted(t, records) <= Plaintexts(ms[k..])
    decreases |records|
  {
    hide Decrypt, Carries, Presented, ClaimOf, Valid, Sendable;
    if records != [] && CanOpen(t, records[0]) && Decrypt(t, records[0]).Opening? {
      var d := Decrypt(t, records[0]);
      DecryptKeeps(t, records[0]);
      if Unprotected(t, records[0]) {
        Passes(t, records[0]);
        OnlySentFrom(s, ms, k, d.state, records[1..]);
      } else {
        OpensIffCarries(t, records[0], d.typ, d.data);
        var j :| 0 <= j < |ms| && Presented(t, records[0], d.typ, d.data) == ClaimOf(s, s.count + j, ms[j]);
        SameClaim(s, t, s.count + j, ms[j]);
        ClaimFixes(t, records[0], d.typ, d.data, s.count + j, ms[j]);
        assert j == k && ms[k..][1..] == ms[k + 1..] && ms[k..][0] == ms[k];
        OnlySentFrom(s, ms, k + 1, d.state, records[1..]);
      }
    }
  }

  /** What is made for a message depends on the keys and the number only. */
  lemma SameClaim(s: State, t: State, count: u64, m: Message)
    requires Valid(s) && Valid(t) && Sendable(s, m) && t.protection == s.protection && t.version == s.version
    ensures Sendable(t, m) && ClaimOf(t, count, m) == ClaimOf(s, count, m)
  {
  }

  /** A run that nobody touches is genuine. */
  lemma HonestIsGenuine(s: State, ms: seq<Message>)
    requires CanRun(s, ms) && !s.protection.Plain?
    ensures Genuine(s, ms, s, SealAll(s, ms))
  {
    HonestFrom(s, ms, 0, s);
    assert ms[0..] == ms;
  }

  lemma {:induction false} HonestFrom(s: State, ms: seq<Message>, k: nat, t: State)
    requires CanRun(s, ms) && !s.protection.Plain? && k <= |ms| && CanRun(t, ms[k..])
    requires t.protection == s.protection && t.version == s.version && t.count == s.count + k
    ensures Genuine(s, ms, t, SealAll(t, ms[k..]))
    decreases |ms| - k
  {
    hide Decrypt, Carries, Presented, ClaimOf, Valid, Sendable, RecordLayer.Seal;
    if k < |ms| {
      var rest := ms[k..];
      RunOn(t, rest);
      SealAdvances(t, rest[0]);
      SealedOpens(t, rest[0]);
      var e := RecordLayer.Seal(t, rest[0]);
      assert rest[1..] == ms[k + 1..] && rest[0] == ms[k];
      var records := SealAll(t, rest);
      assert records[0] == e.record && records[1..] == SealAll(e.state, rest[1..]);
      HonestFrom(s, ms, k + 1, e.state);
      forall typ, data | Carries(t, e.record, typ, data) && !Unprotected(t, e.record)
        ensures Made(s, ms, Presented(t, e.record, typ, data))
      {
        OpensIffCarries(t, e.record, typ, data);
        SealedPresents(t, ms[k]);
        SameClaim(s, t, s.count + k, ms[k]);
      }
    }
  }

  lemma SealPresented(s: State, m: Message)
    requires Valid(s) && NumbersLeft(s, 1) && Sendable(s, m) && s.protection.Aead? && s.version != VERSION_TLS13
    ensures var record := RecordLayer.Seal(s, m).record;
            && |record| >= HEADER_LEN + ExplicitNonceLen(s)
            && Presents(s, record, ClaimOf(s, s.count, m))
  {
    hide U16, U64, XorNonce;
    var p, h := s.protection, Header(m.typ, m.version, |m.payload|);
    var lead := if p.explicit then U64(s.count) else [];
    var c := p.seal(AeadNonce(p, s.count), U64(s.count) + h, m.payload);
    HeaderParts(m.typ, m.version, |m.payload|);
    FramedParts(h, lead + c);
    LengthBytes(|m.payload|);
    var record := Framed(h + (lead + c));
    assert h + lead + c == h + (lead + c);
    assert record[HEADER_LEN..][|lead|..] == c && record[HEADER_LEN..][..|lead|] == lead;
    assert SealedPart(s, record) == c;
    assert U64(s.count) + record[..3] + U16(|m.payload|) == U64(s.count) + h;
  }

  lemma Seal13Presented(s: State, m: Message)
    requires Valid(s) && NumbersLeft(s, 1) && Sendable(s, m) && s.protection.Aead? && s.version == VERSION_TLS13
    ensures var record := RecordLayer.Seal(s, m).record;
            && |record| >= HEADER_LEN && record[0] == APPLICATION_DATA
            && Presents(s, record, ClaimOf(s, s.count, m))
  {
    hide U16, U64, XorNonce;
    var p, h := s.protection, Header(m.typ, m.version, |m.payload|);
    var g := Header13(h, |m.payload| + 1 + p.overhead);
    var c := p.seal(AeadNonce(p, s.count), g, m.payload + [m.typ]);
    assert g[3..] == U16(|m.payload| + 1 + p.overhead);
    FramedParts(g, c);
    var record := g + c;
    assert record[..HEADER_LEN] == g && SealedPart(s, record) == c;
  }

  /** Opening the sealed part gives the plaintext of the claim. */
  ghost predicate Presents(s: State, record: bytes, c: Claim)
    requires Valid(s) && s.protection.Aead? && s.count < MAX_SEQ && |record| >= HEADER_LEN + ExplicitNonceLen(s)
  {
    && c.Seal? && c.nonce == NonceFor(s, record) && c.beside == Beside(s, record)
    && s.protection.open(c.nonce, c.beside, SealedPart(s, record)) == Some(c.plain)
  }

  /** A sealed record presents the claim that was made for it. */
  lemma SealedPresents(s: State, m: Message)
    requires Valid(s) && !s.protection.Plain? && NumbersLeft(s, 1) && Sendable(s, m)
    ensures var record := RecordLayer.Seal(s, m).record;
            && CanOpen(s, record) && !Unprotected(s, record) && Carries(s, record, m.typ, m.payload)
            && Presented(s, record, m.typ, m.payload) == ClaimOf(s, s.count, m)
  {
    hide RecordLayer.Seal, Decrypt, MacInput, StreamCarries, CbcCarries, AeadCarries, Sound, NonceFor, Beside,
         SealedPart;
    var record := RecordLayer.Seal(s, m).record;
    SealedOpens(s, m);
    SealedFrame(s, m);
    if !s.protection.Aead? {
      assert record[..3] == [record[0]] + record[1..3];
    } else if s.version == VERSION_TLS13 {
      Seal13Presented(s, m);
    } else {
      SealPresented(s, m);
    }
    OpensIffCarries(s, record, m.typ, m.payload);
  }
}
