/**
 Small hellos that can always be written, for statements at a concrete input.
 */
module Samples {
  import opened Bytes
  import opened Versions
  import opened ClientHello
  import opened HelloRoundTrip
  import opened Ech

  const SUITE: u16 := 0x1301
  const GROUP: u16 := 23
  const OTHER_GROUP: u16 := 29

  /** A TLS 1.3 hello with one suite, two groups and a share for `g`. */
  function Sample(g: u16): Hello
  {
    FRESH.(vers := VERSION_TLS12, random := Zeros(32), cipherSuites := [SUITE], compressionMethods := [0],
           supportedCurves := [GROUP, OTHER_GROUP], supportedVersions := [VERSION_TLS13],
           keyShares := [KeyShare(g, [1])])
  }

  /** No string is longer than 64 bytes and no list longer than eight, or than one where members are strings. */
  predicate Tiny(m: Hello)
  {
    && |m.random| == 32 && |m.sessionId| <= 32 && |m.cipherSuites| <= 8 && |m.compressionMethods| <= 8
    && |m.serverName| <= 64 && |m.supportedPoints| <= 64 && |m.sessionTicket| <= 64 && |m.secureRenegotiation| <= 64
    && (m.quicTransportParameters.Some? ==> |m.quicTransportParameters.value| <= 64)
    && |m.encryptedClientHello| <= 64 && |m.supportedCurves| <= 8 && |m.sigAlgs| <= 8 && |m.sigAlgsCert| <= 8
    && m.alpnProtocols == [] && |m.supportedVersions| <= 8 && |m.cookie| <= 64 && |m.pskModes| <= 64
    && |m.keyShares| <= 1 && (forall s :: s in m.keyShares ==> |s.data| <= 64)
    && |m.pskIdentities| <= 1 && (forall p :: p in m.pskIdentities ==> |p.name| <= 64)
    && |m.pskBinders| <= 1 && (forall b :: b in m.pskBinders ==> |b| <= 64)
  }

  lemma TinyBody(m: Hello, k: slot)
    requires Tiny(m)
    ensures Body(m, k).ok && |Body(m, k).buf| <= 200
  {
    hide U16;
    assert KeyShareBytes(m.keyShares).ok && |KeyShareBytes(m.keyShares).buf| <= 68;
    assert IdentityBytes(m.pskIdentities).ok && |IdentityBytes(m.pskIdentities).buf| <= 70;
    assert LPs(1, m.pskBinders).ok && |LPs(1, m.pskBinders).buf| <= 65;
    assert |LPs(1, m.alpnProtocols).buf| == 0 && LPs(1, m.alpnProtocols).ok;
  }

  lemma {:induction false} TinyExts(m: Hello, lo: nat, hi: nat)
    requires Tiny(m) && lo <= hi <= SLOTS
    ensures ExtBytes(Exts(m, lo, hi)).ok && |ExtBytes(Exts(m, lo, hi)).buf| <= 204 * (hi - lo)
    decreases hi - lo
  {
    hide Tiny, Body, Present, SlotType, U16;
    if lo == hi {
      assert ExtBytes([]) == EMPTY;
    } else {
      TinyExts(m, lo + 1, hi);
      TinyBody(m, lo);
      ExtBytesConcat(SlotExts(m, lo), Exts(m, lo + 1, hi));
      ExtBytesOne(Ext(SlotType(lo), Body(m, lo)));
      assert ExtBytes([]) == EMPTY;
    }
  }

  lemma TinyPreamble(m: Hello, sid: bytes)
    requires Tiny(m) && |sid| <= 32
    ensures Preamble(m, sid).ok && |Preamble(m, sid).buf| <= 200
  {
    hide U16, U16s;
  }

  lemma TinyWrites(m: Hello)
    requires Tiny(m)
    ensures Marshal(m).Some?
  {
    hide Preamble, ExtBytes, Exts;
    TinyExts(m, 0, SLOTS);
    assert |m.sessionId| <= 32;
    TinyPreamble(m, m.sessionId);
    assert Message(m, m.sessionId, Exts(m, 0, SLOTS)).ok;
  }

  lemma {:induction false} FewTypes(m: Hello, lo: nat, hi: nat)
    requires lo <= hi <= SLOTS
    ensures |Exts(m, lo, hi)| <= hi - lo
    decreases hi - lo
  {
    hide Body, Present, SlotType;
    if lo < hi {
      FewTypes(m, lo + 1, hi);
    }
  }

  lemma TinyInnerWrites(m: Hello, maxNameLength: byte)
    requires Tiny(m)
    ensures EncodeInner(m, maxNameLength).Some?
  {
    hide Preamble, Exts, Types;
    assert |m.sessionId| <= 32 && Tiny(Stripped(m));
    var s, ts := Stripped(m), Types(Compressible(m));
    FewTypes(m, FIRST_COMPRESSIBLE, PSK_SLOT);
    TinyExts(s, 0, FIRST_COMPRESSIBLE);
    TinyExts(m, PSK_SLOT, SLOTS);
    assert ExtBytes(OuterExtensions(ts)).ok && |ExtBytes(OuterExtensions(ts)).buf| <= 40;
    var a, b, c := Exts(s, 0, FIRST_COMPRESSIBLE), OuterExtensions(ts), Exts(m, PSK_SLOT, SLOTS);
    ExtBytesConcat(a, b + c);
    ExtBytesConcat(b, c);
    TinyPreamble(m, []);
    assert Message(m, [], InnerExts(m)).ok;
  }
}
