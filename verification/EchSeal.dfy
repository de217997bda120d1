/**
 Sealing and opening the encoded inner hello.  The client seals against the
 outer hello with a zero payload in place; the server recovers those bytes by
 zeroing the first occurrence of the payload in the hello it received.
 */
module EchSeal {
  import opened Bytes
  import opened Versions
  import opened ClientHello
  import opened HelloRoundTrip
  import opened Ech

  // ----- The outer encrypted_client_hello extension -----

  datatype EchParams = EchParams(configId: byte, kdfId: u16, aeadId: u16, encap: bytes)

  /** The extension before the payload's own length prefix. */
  function EchHeader(p: EchParams): Builder
  {
    Builder([0] + U16(p.kdfId) + U16(p.aeadId) + U8(p.configId), true).AddLP16(Raw(p.encap))
  }

  function OuterEchExt(p: EchParams, payload: bytes): Option<bytes>
  {
    EchHeader(p).AddLP16(Raw(payload)).Result()
  }

  datatype EchExt = InnerExt | OuterExt(params: EchParams, payload: bytes) | MalformedExt | InvalidExt

  function ParseEchExt(ext: bytes): EchExt
  {
    var t := ReadU8(ext);
    if t.Short? then MalformedExt else
    if t.value == 1 then (if t.rest == [] then InnerExt else MalformedExt) else
    if t.value != 0 then InvalidExt else
    var kdf := ReadU16(t.rest);
    if kdf.Short? then MalformedExt else
    var aead := ReadU16(kdf.rest);
    if aead.Short? then MalformedExt else
    var id := ReadU8(aead.rest);
    if id.Short? then MalformedExt else
    var encap := ReadLP16(id.rest);
    if encap.Short? then MalformedExt else
    var payload := ReadLP16(encap.rest);
    if payload.Short? then MalformedExt else
    OuterExt(EchParams(id.value, kdf.value, aead.value, encap.value), payload.value)
  }

  lemma ParseOuterEchExt(p: EchParams, payload: bytes)
    requires OuterEchExt(p, payload).Some?
    ensures ParseEchExt(OuterEchExt(p, payload).value) == OuterExt(p, payload)
  {
    hide U16, U8, LP16, ReadU16, ReadLP16;
    var e := LP16(payload) + [];
    var d := LP16(p.encap) + e;
    var c := U8(p.configId) + d;
    var b := U16(p.aeadId) + c;
    var a := U16(p.kdfId) + b;
    var ext := OuterEchExt(p, payload).value;
    assert ext == [0] + a;
    assert ext[1..] == a;
    ReadU16Back(p.kdfId, b);
    ReadU16Back(p.aeadId, c);
    ReadU8Back(p.configId, d);
    ReadLP16Back(p.encap, e);
    ReadLP16Back(payload, []);
  }

  // ----- Replacing the first occurrence -----

  predicate OccursAt(s: bytes, sub: bytes, i: nat)
  {
    i + |sub| <= |s| && s[i..i + |sub|] == sub
  }

  /** The first index at or after `i` where `sub` occurs. */
  function IndexFrom(s: bytes, sub: bytes, i: nat): (r: Option<nat>)
    ensures r.Some? ==> i <= r.value && OccursAt(s, sub, r.value)
    ensures forall j :: i <= j && OccursAt(s, sub, j) ==> r.Some? && r.value <= j
    decreases |s| + 1 - i
  {
    if i + |sub| > |s| then None
    else if OccursAt(s, sub, i) then Some(i)
    else IndexFrom(s, sub, i + 1)
  }

  /** `s` with the first occurrence of `payload` replaced by as many zeros. */
  function ZeroFirst(s: bytes, payload: bytes): bytes
  {
    var i := IndexFrom(s, payload, 0);
    if i.None? then s else s[..i.value] + Zeros(|payload|) + s[i.value + |payload|..]
  }

  /** A payload that recurs at distance `d` and starts with `d` zeros is all zeros. */
  lemma {:induction false} PeriodicZeros(p: bytes, d: nat, j: nat)
    requires d > 0 && j < |p|
    requires forall i :: 0 <= i < d && i < |p| ==> p[i] == 0
    requires forall i :: 0 <= i && i + d < |p| ==> p[i + d] == p[i]
    ensures p[j] == 0
  {
    if j >= d {
      PeriodicZeros(p, d, j - d);
      assert p[(j - d) + d] == p[j - d];
    }
  }

  /** `s` with the `n` bytes at `i` replaced by zeros. */
  function ZeroAt(s: bytes, i: nat, n: nat): bytes
    requires i + n <= |s|
  {
    s[..i] + Zeros(n) + s[i + n..]
  }

  /** Zeroing an earlier occurrence gives the same result only for a payload of zeros. */
  lemma EarlierOccurrence(s: bytes, payload: bytes, q: nat, pos: nat)
    requires q < pos && OccursAt(s, payload, q) && OccursAt(s, payload, pos)
    requires ZeroAt(s, q, |payload|) == ZeroAt(s, pos, |payload|)
    ensures payload == Zeros(|payload|)
  {
    var n, d := |payload|, pos - q;
    var got, want := ZeroAt(s, q, n), ZeroAt(s, pos, n);
    forall i | 0 <= i < d && i < n ensures payload[i] == 0 {
      assert s[q..q + n][i] == payload[i];
      assert got[q + i] == 0 && want[q + i] == s[q + i];
    }
    forall i | 0 <= i && i + d < n ensures payload[i + d] == payload[i] {
      assert s[q..q + n][i + d] == s[pos..pos + n][i];
    }
    forall j | 0 <= j < n ensures payload[j] == 0 {
      PeriodicZeros(payload, d, j);
    }
  }

  /**
   Zeroing the first occurrence recovers the zeroed original exactly when that
   occurrence is the payload's own place, or there is nothing to zero.
   */
  lemma ZeroFirstExact(s: bytes, payload: bytes, pos: nat)
    requires OccursAt(s, payload, pos)
    ensures IndexFrom(s, payload, 0).Some? && IndexFrom(s, payload, 0).value <= pos
    ensures ZeroFirst(s, payload) == ZeroAt(s, pos, |payload|) <==>
            IndexFrom(s, payload, 0).value == pos || payload == Zeros(|payload|)
  {
    hide IndexFrom, Zeros;
    var q, n := IndexFrom(s, payload, 0).value, |payload|;
    assert ZeroFirst(s, payload) == ZeroAt(s, q, n);
    if q < pos {
      hide ZeroAt, ZeroFirst;
      if payload == Zeros(n) {
      } else if ZeroAt(s, q, n) == ZeroAt(s, pos, n) {
        EarlierOccurrence(s, payload, q, pos);
      }
    }
  }

  // ----- The outer hello around its encrypted_client_hello extension -----

  const ECH_SLOT := 8

  function WithEch(m: Hello, ext: bytes): Hello { m.(encryptedClientHello := ext) }

  /** The marshalled hello, after its 4-byte header, up to an encrypted_client_hello body of `n` bytes. */
  function EchLeft(m: Hello, n: nat): bytes
  {
    var a, b := ExtBytes(Exts(m, 0, ECH_SLOT)).buf, ExtBytes(Exts(m, ECH_SLOT + 1, SLOTS)).buf;
    Preamble(m, m.sessionId).buf + U16(|a| + 4 + n + |b|) + a + U16(ENCRYPTED_CLIENT_HELLO) + U16(n)
  }

  /** The marshalled hello after its encrypted_client_hello body. */
  function EchRight(m: Hello): bytes
  {
    ExtBytes(Exts(m, ECH_SLOT + 1, SLOTS)).buf
  }

  lemma OtherSlots(m: Hello, ext: bytes)
    ensures Exts(WithEch(m, ext), 0, ECH_SLOT) == Exts(m, 0, ECH_SLOT)
    ensures Exts(WithEch(m, ext), ECH_SLOT + 1, SLOTS) == Exts(m, ECH_SLOT + 1, SLOTS)
  {
    var n := WithEch(m, ext);
    forall k: slot | k != ECH_SLOT ensures Present(n, k) == Present(m, k) && Body(n, k) == Body(m, k) {
      hide LPs, U16s, KeyShareBytes, IdentityBytes, LP8, LP16;
    }
    SameExts(n, m, 0, ECH_SLOT);
    SameExts(n, m, ECH_SLOT + 1, SLOTS);
  }

  lemma ExtsAroundEch(m: Hello, ext: bytes)
    requires ext != []
    ensures ExtBytes(Exts(WithEch(m, ext), 0, SLOTS)) ==
            var a, b := ExtBytes(Exts(m, 0, ECH_SLOT)), ExtBytes(Exts(m, ECH_SLOT + 1, SLOTS));
            Builder(a.buf + (U16(ENCRYPTED_CLIENT_HELLO) + LP16(ext) + b.buf), a.ok && |ext| < 0x1_0000 && b.ok)
  {
    hide Body, Present, Exts, ExtBytes, U16, LP16;
    var n := WithEch(m, ext);
    var e := Ext(ENCRYPTED_CLIENT_HELLO, Raw(ext));
    EchSlotOnly(m, ext);
    ExtsSplit(n, 0, ECH_SLOT, SLOTS);
    ExtsSplit(n, ECH_SLOT, ECH_SLOT + 1, SLOTS);
    OtherSlots(m, ext);
    ExtBytesConcat(Exts(m, 0, ECH_SLOT), [e] + Exts(m, ECH_SLOT + 1, SLOTS));
    ExtBytesConcat([e], Exts(m, ECH_SLOT + 1, SLOTS));
    ExtBytesOne(e);
  }

  lemma EchSlotOnly(m: Hello, ext: bytes)
    requires ext != []
    ensures Exts(WithEch(m, ext), ECH_SLOT, ECH_SLOT + 1) == [Ext(ENCRYPTED_CLIENT_HELLO, Raw(ext))]
  {
    NoExts(WithEch(m, ext), ECH_SLOT + 1);
    assert SlotExts(WithEch(m, ext), ECH_SLOT) == [Ext(ENCRYPTED_CLIENT_HELLO, Raw(ext))];
  }

  /** Two marshalling passes with bodies of equal length differ only in those bytes. */
  lemma MarshalAroundEch(m: Hello, ext: bytes)
    requires ext != [] && Marshal(WithEch(m, ext)).Some?
    ensures Marshal(WithEch(m, ext)).value[4..] == EchLeft(m, |ext|) + ext + EchRight(m)
  {
    hide Exts, ExtBytes, U16, LP8, U16s, U24;
    var n := WithEch(m, ext);
    ExtsAroundEch(m, ext);
    var a, b := ExtBytes(Exts(m, 0, ECH_SLOT)), ExtBytes(Exts(m, ECH_SLOT + 1, SLOTS));
    var x := ExtBytes(Exts(n, 0, SLOTS));
    assert |x.buf| == |a.buf| + 4 + |ext| + |b.buf|;
    var p := Preamble(n, n.sessionId);
    assert p == Preamble(m, m.sessionId);
    var body := p.AddLP16(x).buf;
    assert Marshal(n).value == [TYPE_CLIENT_HELLO] + U24(|body|) + body;
    assert Marshal(n).value[4..] == body;
    Regroup(p.buf, U16(|x.buf|), a.buf, U16(ENCRYPTED_CLIENT_HELLO), U16(|ext|), ext, b.buf);
  }

  lemma Regroup(p: bytes, n: bytes, a: bytes, t: bytes, l: bytes, ext: bytes, b: bytes)
    ensures p + (n + (a + (t + (l + ext) + b))) == p + n + a + t + l + ext + b
  {
  }

  // ----- Sealing and opening -----

  type Seal = (bytes, bytes) -> bytes
  type Open = (bytes, bytes) -> Option<bytes>

  const TAG_LEN := 16

  ghost predicate SealOpens(seal: Seal, open: Open)
  {
    && (forall aad, pt :: |seal(aad, pt)| == |pt| + TAG_LEN)
    && (forall aad, pt :: open(aad, seal(aad, pt)) == Some(pt))
  }

  /** The outer hello with a zero payload in its extension, as it is sealed against. */
  function SealedAgainst(outer: Hello, p: EchParams, encoded: bytes): Option<bytes>
  {
    var zero := OuterEchExt(p, Zeros(|encoded| + TAG_LEN));
    if zero.None? then None else
    var m := Marshal(WithEch(outer, zero.value));
    if m.None? then None else Some(m.value[4..])
  }

  function SealOuter(outer: Hello, p: EchParams, encoded: bytes, seal: Seal): Option<Hello>
  {
    var aad := SealedAgainst(outer, p, encoded);
    if aad.None? then None else
    var ext := OuterEchExt(p, seal(aad.value, encoded));
    if ext.None? then None else Some(WithEch(outer, ext.value))
  }

  /** What the server opens the payload against. */
  function OpenedAgainst(original: bytes, payload: bytes): bytes
    requires |original| >= 4
  {
    ZeroFirst(original[4..], payload)
  }

  /** Where, after the 4-byte header, the payload of the sealed hello stands. */
  function PayloadAt(outer: Hello, p: EchParams, n: nat): nat
  {
    |EchLeft(outer, |EchHeader(p).buf| + 2 + n)| + |EchHeader(p).buf| + 2
  }

  lemma MarshalHasHeader(m: Hello)
    requires Marshal(m).Some?
    ensures var wire := Marshal(m).value; |wire| >= 4 && wire[..4] == [TYPE_CLIENT_HELLO] + U24(|wire| - 4)
  {
    hide Exts, ExtBytes, Preamble, U24;
  }

  lemma WireAroundPayload(outer: Hello, p: EchParams, payload: bytes)
    requires OuterEchExt(p, payload).Some? && Marshal(WithEch(outer, OuterEchExt(p, payload).value)).Some?
    ensures var s := Marshal(WithEch(outer, OuterEchExt(p, payload).value)).value[4..];
            var left := EchLeft(outer, |EchHeader(p).buf| + 2 + |payload|) + EchHeader(p).buf + U16(|payload|);
            && s == left + payload + EchRight(outer)
            && |left| == PayloadAt(outer, p, |payload|)
  {
    hide EchLeft, EchRight, U16, EchHeader, Marshal;
    var ext := OuterEchExt(p, payload).value;
    assert ext == EchHeader(p).buf + U16(|payload|) + payload;
    MarshalAroundEch(outer, ext);
  }

  /**
   The associated data rebuilt by the server is the one the client sealed
   against exactly when the payload does not occur earlier in the hello (or
   consists of zeros).
   */
  lemma AssociatedDataAgrees(outer: Hello, p: EchParams, encoded: bytes, payload: bytes)
    requires |payload| == |encoded| + TAG_LEN
    requires SealedAgainst(outer, p, encoded).Some? && OuterEchExt(p, payload).Some?
    requires Marshal(WithEch(outer, OuterEchExt(p, payload).value)).Some?
    ensures var wire := Marshal(WithEch(outer, OuterEchExt(p, payload).value)).value;
            && |wire| >= 4
            && (OpenedAgainst(wire, payload) == SealedAgainst(outer, p, encoded).value <==>
                IndexFrom(wire[4..], payload, 0) == Some(PayloadAt(outer, p, |payload|))
                || payload == Zeros(|payload|))
  {
    hide EchLeft, EchRight, U16, EchHeader, Marshal, Zeros, IndexFrom, ZeroFirst, OuterEchExt, PayloadAt;
    var wire := Marshal(WithEch(outer, OuterEchExt(p, payload).value)).value;
    MarshalHasHeader(WithEch(outer, OuterEchExt(p, payload).value));
    var n := |payload|;
    WireAroundPayload(outer, p, payload);
    WireAroundPayload(outer, p, Zeros(n));
    var left := EchLeft(outer, |EchHeader(p).buf| + 2 + n) + EchHeader(p).buf + U16(n);
    var right := EchRight(outer);
    var s := wire[4..];
    assert SealedAgainst(outer, p, encoded).value == left + Zeros(n) + right;
    SplitAround(left, payload, right, s);
    ZeroFirstExact(s, payload, |left|);
  }

  /** A session ticket that holds the payload stands before it, and the server's associated data is wrong. */
  lemma TicketHoldsPayload(outer: Hello, p: EchParams, encoded: bytes, payload: bytes)
    requires |payload| == |encoded| + TAG_LEN && payload != Zeros(|payload|)
    requires outer.ticketSupported && outer.sessionTicket == payload
    requires SealedAgainst(outer, p, encoded).Some? && OuterEchExt(p, payload).Some?
    requires Marshal(WithEch(outer, OuterEchExt(p, payload).value)).Some?
    ensures var wire := Marshal(WithEch(outer, OuterEchExt(p, payload).value)).value;
            |wire| >= 4 && OpenedAgainst(wire, payload) != SealedAgainst(outer, p, encoded).value
  {
    hide EchLeft, EchRight, U16, EchHeader, Marshal, Zeros, IndexFrom, OuterEchExt, OpenedAgainst;
    AssociatedDataAgrees(outer, p, encoded, payload);
    WireAroundPayload(outer, p, payload);
    var s := Marshal(WithEch(outer, OuterEchExt(p, payload).value)).value[4..];
    var n := |EchHeader(p).buf| + 2 + |payload|;
    var q := TicketInLeft(outer, n);
    var rest := EchHeader(p).buf + U16(|payload|) + payload + EchRight(outer);
    assert s == [] + EchLeft(outer, n) + rest;
    OccursInside([], EchLeft(outer, n), rest, payload, q);
  }

  lemma OccursInside(x: bytes, a: bytes, y: bytes, sub: bytes, i: nat)
    requires OccursAt(a, sub, i)
    ensures OccursAt(x + a + y, sub, |x| + i)
  {
    var s := x + a + y;
    assert s[|x|..|x| + |a|] == a;
    SliceOfSlice(s, |x|, |x| + |a|, i, |sub|);
  }

  lemma TicketInLeft(m: Hello, n: nat) returns (q: nat)
    requires m.ticketSupported
    ensures OccursAt(EchLeft(m, n), m.sessionTicket, q)
  {
    hide U16, Exts, ExtBytes, Preamble;
    TicketInside(m);
    var before, a := ExtBytes(Exts(m, 0, 2)).buf, ExtBytes(Exts(m, 0, ECH_SLOT)).buf;
    var x := Preamble(m, m.sessionId).buf + U16(|a| + 4 + n + |ExtBytes(Exts(m, ECH_SLOT + 1, SLOTS)).buf|);
    var y := U16(ENCRYPTED_CLIENT_HELLO) + U16(n);
    assert EchLeft(m, n) == x + a + y;
    var t := before + U16(35) + U16(|m.sessionTicket|);
    assert a == t + m.sessionTicket + ExtBytes(Exts(m, 3, ECH_SLOT)).buf;
    assert OccursAt(a, m.sessionTicket, |t|);
    OccursInside(x, a, y, m.sessionTicket, |t|);
    return |x| + |t|;
  }

  lemma TicketInside(m: Hello)
    requires m.ticketSupported
    ensures ExtBytes(Exts(m, 0, ECH_SLOT)).buf ==
            ExtBytes(Exts(m, 0, 2)).buf + (U16(35) + LP16(m.sessionTicket) + ExtBytes(Exts(m, 3, ECH_SLOT)).buf)
  {
    hide ExtBytes, U16, LP16;
    ExtsSplit(m, 0, 2, ECH_SLOT);
    ExtsSplit(m, 2, 3, ECH_SLOT);
    var e := Ext(35, Raw(m.sessionTicket));
    assert Exts(m, 2, 3) == [e];
    ExtBytesConcat(Exts(m, 0, 2), [e] + Exts(m, 3, ECH_SLOT));
    ExtBytesConcat([e], Exts(m, 3, ECH_SLOT));
    ExtBytesOne(e);
  }

  lemma SplitAround(left: bytes, payload: bytes, right: bytes, s: bytes)
    requires s == left + payload + right
    ensures OccursAt(s, payload, |left|) && ZeroAt(s, |left|, |payload|) == left + Zeros(|payload|) + right
  {
    hide Zeros;
    assert s[..|left|] == left && s[|left| + |payload|..] == right;
  }

  /** What a server holding the right key makes of a received outer hello. */
  function ServerInner(received: Hello, open: Open): Option<Decoded<Hello>>
  {
    var ext := ParseEchExt(received.encryptedClientHello);
    if !ext.OuterExt? || received.original.None? || |received.original.value| < 4 then None else
    var encoded := open(OpenedAgainst(received.original.value, ext.payload), ext.payload);
    if encoded.None? then None else Some(DecodeInner(received, encoded.value))
  }

  /**
   From the client's inner hello to the server's: sealed, sent, received,
   opened and decoded, it arrives with the bytes the client itself hashes.
   */
  lemma SealedInnerArrives(inner: Hello, outer: Hello, p: EchParams, maxNameLength: byte,
                           seal: Seal, open: Open, sealed: Hello, received: Hello)
    requires SealOpens(seal, open)
    requires EncodeInner(inner, maxNameLength).Some? && Marshal(inner).Some?
    requires SealOuter(outer, p, EncodeInner(inner, maxNameLength).value, seal) == Some(sealed)
    requires Marshal(sealed).Some? && Unmarshal(Marshal(sealed).value) == Some(received)
    requires Stripped(inner) == inner && Agrees(outer, inner) && Acceptable(inner)
    requires inner.encryptedClientHello == [1] && inner.supportedVersions == [VERSION_TLS13]
    requires var encoded := EncodeInner(inner, maxNameLength).value;
             var payload := seal(SealedAgainst(outer, p, encoded).value, encoded);
             |Marshal(sealed).value| >= 4 &&
             IndexFrom(Marshal(sealed).value[4..], payload, 0) == Some(PayloadAt(outer, p, |payload|))
    ensures ServerInner(received, open) == Some(Ok(Reported(inner, Marshal(inner).value)))
  {
    hide Marshal, Unmarshal, EncodeInner, DecodeInner, Acceptable, Exts, IndexFrom, OpenedAgainst, SealedAgainst,
         ParseEchExt, PayloadAt, Agrees, Stripped;
    var encoded := EncodeInner(inner, maxNameLength).value;
    var payload := seal(SealedAgainst(outer, p, encoded).value, encoded);
    ParseOuterEchExt(p, payload);
    assert OuterEchExt(p, payload).value != [];
    MarshalUnmarshal(sealed);
    AssociatedDataAgrees(outer, p, encoded, payload);
    AgreesIgnoresEch(outer, inner, OuterEchExt(p, payload).value);
    InnerHelloRoundTrip(inner, sealed, received, maxNameLength);
  }

  lemma AgreesIgnoresEch(outer: Hello, inner: Hello, ext: bytes)
    requires Agrees(outer, inner)
    ensures Agrees(WithEch(outer, ext), inner)
  {
    var n := WithEch(outer, ext);
    forall k: slot | FIRST_COMPRESSIBLE <= k < PSK_SLOT && Present(inner, k) ensures Present(n, k) {
      assert Present(outer, k);
    }
  }

  // ----- The client's own pair of hellos -----

  /** The hello marked as an inner one, with the TLS 1.2 fields cleared. */
  function MarkedInner(hello: Hello): Hello
  {
    Stripped(hello).(encryptedClientHello := [1])
  }

  lemma MarkedKeeps(hello: Hello)
    ensures var m := MarkedInner(hello);
            && m.serverName == hello.serverName && m.random == hello.random && m.cipherSuites == hello.cipherSuites
            && m.alpnProtocols == hello.alpnProtocols && m.supportedCurves == hello.supportedCurves
            && m.keyShares == hello.keyShares && m.pskIdentities == hello.pskIdentities
            && m.supportedVersions == hello.supportedVersions && m.encryptedClientHello == [1]
  {
  }

  /** The outer hello: the inner one under the public name and with a random value of its own. */
  function SplitOuter(inner: Hello, publicName: bytes, random: bytes): Hello
  {
    inner.(serverName := publicName, random := random)
  }

  /** The split gives the outer hello all that the encoding leaves out, whatever the hello. */
  lemma SplitAgrees(hello: Hello, publicName: bytes, random: bytes)
    ensures var inner := MarkedInner(hello);
            Stripped(inner) == inner && Agrees(SplitOuter(inner, publicName, random), inner)
  {
    var inner := MarkedInner(hello);
    var outer := SplitOuter(inner, publicName, random);
    forall k: slot | FIRST_COMPRESSIBLE <= k < PSK_SLOT ensures Present(outer, k) == Present(inner, k) {
    }
  }

  /** Any TLS 1.3 hello that the client splits and seals arrives as the inner hello it hashes. */
  lemma SplitInnerArrives(hello: Hello, publicName: bytes, random: bytes, p: EchParams, maxNameLength: byte,
                          seal: Seal, open: Open, sealed: Hello, received: Hello)
    requires SealOpens(seal, open)
    requires EncodeInner(MarkedInner(hello), maxNameLength).Some? && Marshal(MarkedInner(hello)).Some?
    requires SealOuter(SplitOuter(MarkedInner(hello), publicName, random), p,
                       EncodeInner(MarkedInner(hello), maxNameLength).value, seal) == Some(sealed)
    requires Marshal(sealed).Some? && Unmarshal(Marshal(sealed).value) == Some(received)
    requires Acceptable(MarkedInner(hello)) && hello.supportedVersions == [VERSION_TLS13]
    requires var encoded, outer := EncodeInner(MarkedInner(hello), maxNameLength).value,
                                   SplitOuter(MarkedInner(hello), publicName, random);
             var payload := seal(SealedAgainst(outer, p, encoded).value, encoded);
             |Marshal(sealed).value| >= 4 &&
             IndexFrom(Marshal(sealed).value[4..], payload, 0) == Some(PayloadAt(outer, p, |payload|))
    ensures ServerInner(received, open) == Some(Ok(Reported(MarkedInner(hello), Marshal(MarkedInner(hello)).value)))
    ensures var inner := ServerInner(received, open).value.value;
            && inner.serverName == hello.serverName && inner.random == hello.random
            && inner.cipherSuites == hello.cipherSuites && inner.alpnProtocols == hello.alpnProtocols
            && inner.supportedCurves == hello.supportedCurves && inner.keyShares == hello.keyShares
            && inner.pskIdentities == hello.pskIdentities
  {
    hide Marshal, Unmarshal, EncodeInner, Acceptable, IndexFrom, SealOuter, PayloadAt, Agrees, ServerInner, Exts,
         Stripped, Types, SealedAgainst;
    MarkedKeeps(hello);
    SplitAgrees(hello, publicName, random);
    SealedInnerArrives(MarkedInner(hello), SplitOuter(MarkedInner(hello), publicName, random), p, maxNameLength,
                       seal, open, sealed, received);
  }

  /** Whoever parses the hello that is sent finds the public name and the random value drawn for it. */
  lemma OuterShowsPublicName(hello: Hello, publicName: bytes, random: bytes, p: EchParams, encoded: bytes, seal: Seal,
                             sealed: Hello, received: Hello)
    requires SealOuter(SplitOuter(MarkedInner(hello), publicName, random), p, encoded, seal) == Some(sealed)
    requires Marshal(sealed).Some? && Unmarshal(Marshal(sealed).value) == Some(received)
    ensures received.serverName == publicName && received.random == random
  {
    hide Marshal, Unmarshal, OuterEchExt, SealedAgainst, Acceptable;
    MarshalUnmarshal(sealed);
  }

  /**
   The name a client really wants shows in the sealed payload and nowhere else: hellos for two names, under
   one public name and random value and with encodings of one length, are the same bytes but for the payload.
   */
  lemma NameOnlyInPayload(hello: Hello, name: bytes, publicName: bytes, random: bytes, p: EchParams,
                          encoded: bytes, encoded': bytes, seal: Seal, open: Open, sealed: Hello, sealed': Hello)
    requires SealOpens(seal, open) && |encoded| == |encoded'|
    requires SealOuter(SplitOuter(MarkedInner(hello), publicName, random), p, encoded, seal) == Some(sealed)
    requires SealOuter(SplitOuter(MarkedInner(hello.(serverName := name)), publicName, random), p, encoded', seal) ==
             Some(sealed')
    requires Marshal(sealed).Some? && Marshal(sealed').Some?
    ensures var wire, wire', n := Marshal(sealed).value, Marshal(sealed').value, |encoded| + TAG_LEN;
            var at := 4 + PayloadAt(SplitOuter(MarkedInner(hello), publicName, random), p, n);
            && |wire'| == |wire| && at + n <= |wire| && wire'[..at] == wire[..at] && wire'[at + n..] == wire[at + n..]
  {
    hide Marshal, OuterEchExt, EchLeft, EchRight, EchHeader, U16, U24, SealedAgainst, PayloadAt;
    var outer := SplitOuter(MarkedInner(hello), publicName, random);
    assert SplitOuter(MarkedInner(hello.(serverName := name)), publicName, random) == outer;
    var x := seal(SealedAgainst(outer, p, encoded).value, encoded);
    var y := seal(SealedAgainst(outer, p, encoded').value, encoded');
    MarshalHasHeader(sealed);
    MarshalHasHeader(sealed');
    WireAroundPayload(outer, p, x);
    WireAroundPayload(outer, p, y);
    var left := EchLeft(outer, |EchHeader(p).buf| + 2 + |x|) + EchHeader(p).buf + U16(|x|);
    SameAround(Marshal(sealed).value, Marshal(sealed').value, left, x, y, EchRight(outer));
  }

  lemma SameAround(a: bytes, b: bytes, left: bytes, x: bytes, y: bytes, right: bytes)
    requires |x| == |y| && |a| >= 4 && |b| >= 4 && a[4..] == left + x + right && b[4..] == left + y + right
    requires a[..4] == [TYPE_CLIENT_HELLO] + U24(|a| - 4) && b[..4] == [TYPE_CLIENT_HELLO] + U24(|b| - 4)
    ensures var at := 4 + |left|;
            && |b| == |a| && at + |x| <= |a|
            && b[..at] == a[..at] && b[at + |x|..] == a[at + |x|..]
  {
    hide U24;
    assert a == a[..4] + a[4..] && b == b[..4] + b[4..];
  }

  // ----- After a HelloRetryRequest -----

  /** The second inner hello: a cookie and key shares from the retry request, binders renewed, no early data. */
  function RetryInner(inner: Hello, cookie: bytes, shares: seq<KeyShare>,
                      ids: seq<PskIdentity>, binders: seq<bytes>): Hello
  {
    inner.(cookie := if cookie != [] then cookie else inner.cookie,
           keyShares := if shares != [] then shares else inner.keyShares,
           pskIdentities := ids, pskBinders := binders, earlyData := false)
  }

  /** Of the changes, only the key shares are copied to the outer hello. */
  function RetryOuter(outer: Hello, retried: Hello): Hello
  {
    outer.(keyShares := retried.keyShares)
  }

  /**
   After a retry request the two hellos still agree exactly when the request
   carried no cookie; with a cookie, the server cannot decode the second hello.
   */
  lemma RetryKeepsAgreement(inner: Hello, outer: Hello, cookie: bytes, shares: seq<KeyShare>,
                            ids: seq<PskIdentity>, binders: seq<bytes>)
    requires Agrees(outer, inner) && inner.cookie == [] && outer.cookie == []
    ensures var retried := RetryInner(inner, cookie, shares, ids, binders);
            && (cookie == [] ==> Agrees(RetryOuter(outer, retried), retried))
            && (cookie != [] ==> !Covers(RetryOuter(outer, retried), retried))
  {
    var retried := RetryInner(inner, cookie, shares, ids, binders);
    var n := RetryOuter(outer, retried);
    if cookie == [] {
      hide Mixed;
      forall k: slot | FIRST_COMPRESSIBLE <= k < PSK_SLOT && Present(retried, k) ensures Present(n, k) {
        assert k != 16 ==> Present(outer, k);
      }
      RetryMixed(inner, outer, shares, ids, binders);
    } else {
      hide Mixed;
      assert Present(retried, 15) && !Present(n, 15);
    }
  }

  lemma RetryMixed(inner: Hello, outer: Hello, shares: seq<KeyShare>, ids: seq<PskIdentity>, binders: seq<bytes>)
    requires Mixed(inner, outer) == inner
    ensures var retried := RetryInner(inner, [], shares, ids, binders);
            Mixed(retried, RetryOuter(outer, retried)) == retried
  {
    var i, o := Mixed(inner, outer), inner;
    assert i.supportedCurves == o.supportedCurves && i.sigAlgs == o.sigAlgs && i.sigAlgsCert == o.sigAlgsCert;
    assert i.alpnProtocols == o.alpnProtocols && i.supportedVersions == o.supportedVersions;
    assert i.cookie == o.cookie && i.pskModes == o.pskModes && i.sessionId == o.sessionId;
  }

  /** A retry request with a cookie makes decoding the second hello fail. */
  lemma CookieRetryFails(inner: Hello, outer: Hello, cookie: bytes, shares: seq<KeyShare>,
                         ids: seq<PskIdentity>, binders: seq<bytes>, ext: bytes,
                         received: Hello, maxNameLength: byte)
    requires Agrees(outer, inner) && inner.cookie == [] && outer.cookie == [] && cookie != [] && ext != []
    requires Stripped(inner) == inner && inner.encryptedClientHello == [1]
    requires EncodeInner(RetryInner(inner, cookie, shares, ids, binders), maxNameLength).Some?
    requires var second := WithEch(RetryOuter(outer, RetryInner(inner, cookie, shares, ids, binders)), ext);
             Marshal(second).Some? && received.original == Marshal(second) && received.sessionId == second.sessionId
    ensures DecodeInner(received, EncodeInner(RetryInner(inner, cookie, shares, ids, binders), maxNameLength).value)
            == Err(OuterExtsInvalid)
  {
    hide Marshal, EncodeInner, DecodeInner, Agrees;
    var retried := RetryInner(inner, cookie, shares, ids, binders);
    var second := WithEch(RetryOuter(outer, retried), ext);
    assert !Covers(second, retried) by { assert Present(retried, 15) && !Present(second, 15); }
    DecodeEncoded(retried, second, received, maxNameLength);
  }
}
