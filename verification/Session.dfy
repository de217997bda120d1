/**
 The encoding of a resumable session and its parser.  Certificates are their raw
 bytes; `parses` says which byte strings are certificates.
 */
module Session {
  import opened Bytes
  import opened Versions
  import opened Certificate

  datatype Session = Session(
    version: u16,
    isClient: bool,
    cipherSuite: u16,
    createdAt: u64,
    secret: bytes,
    extra: seq<bytes>,
    extMasterSecret: bool,
    earlyData: bool,
    peer: Cert,
    chains: seq<seq<bytes>>,
    alpn: bytes,
    useBy: u64,
    ageAdd: u32)

  function Flag(b: bool): byte { if b then 1 else 0 }

  // ----- Writing -----

  /** The verified chains without their first certificate; an empty chain is an error. */
  function ChainBytes(chains: seq<seq<bytes>>): Builder
  {
    if chains == [] then EMPTY else
    ChainEntry(chains[0]).Append(ChainBytes(chains[1..]))
  }

  function ChainEntry(chain: seq<bytes>): Builder
  {
    if chain == [] then Builder([], false) else EMPTY.AddLP24(LPs(3, chain[1..]))
  }

  /** The fields in front of the certificates. */
  function Front(s: Session): Builder
  {
    Raw(U16(s.version) + U8(if s.isClient then 2 else 1) + U16(s.cipherSuite) + U64(s.createdAt))
    .AddLP8(Raw(s.secret)).AddLP24(LPs(3, s.extra)).Add(U8(Flag(s.extMasterSecret))).Add(U8(Flag(s.earlyData)))
  }

  /** The fields behind the chains, which depend on the kind of session. */
  function Back(s: Session): Builder
  {
    (if s.earlyData then EMPTY.AddLP8(Raw(s.alpn)) else EMPTY)
    .Add(if s.isClient && s.version >= VERSION_TLS13 then U64(s.useBy) + U32(s.ageAdd) else [])
  }

  function SessionBytes(s: Session): Option<bytes>
  {
    Front(s).Append(CertBytes(s.peer)).AddLP24(ChainBytes(s.chains)).Append(Back(s)).Result()
  }

  // ----- Reading -----

  function ReadChains(s: bytes, peer: Cert, parses: bytes -> bool): Option<seq<seq<bytes>>>
    decreases |s|
  {
    if s == [] then Some([]) else
    var l := ReadLP24(s);
    if l.Short? || peer.chain == [] then None else
    var certs := ReadLPs(3, false, l.value);
    if certs.None? || !AllParse(certs.value, parses) then None else
    var r := ReadChains(l.rest, peer, parses);
    if r.None? then None else Some([[peer.chain[0]] + certs.value] + r.value)
  }

  predicate AllParse(certs: seq<bytes>, parses: bytes -> bool)
  {
    forall i :: 0 <= i < |certs| ==> parses(certs[i])
  }

  datatype Head = Head(version: u16, typ: byte, suite: u16, createdAt: u64, secret: bytes, extra: bytes, ems: byte, early: byte)

  /** The fields in front of the certificates. */
  function ReadFront(data: bytes): Option<(Head, bytes)>
  {
    var v := ReadU16(data);
    if v.Short? then None else
    var t := ReadU8(v.rest);
    if t.Short? then None else
    var cs := ReadU16(t.rest);
    if cs.Short? then None else
    var at := ReadU64(cs.rest);
    if at.Short? then None else
    var sec := ReadLP8(at.rest);
    if sec.Short? then None else
    var x := ReadLP24(sec.rest);
    if x.Short? then None else
    var m := ReadU8(x.rest);
    if m.Short? then None else
    var e := ReadU8(m.rest);
    if e.Short? then None else
    Some((Head(v.value, t.value, cs.value, at.value, sec.value, x.value, m.value, e.value), e.rest))
  }

  /** The fields behind the chains: protocol, use-by time and age offset. */
  function ReadBackFields(s: bytes, early: bool, client: bool, version: u16, hasCerts: bool): Option<(bytes, u64, u32)>
  {
    var a := if early then ReadLP8(s) else Got([], s);
    if a.Short? then None
    else if !client then (if a.rest != [] then None else Some((a.value, 0, 0)))
    else if !hasCerts then None
    else if version < VERSION_TLS13 then (if a.rest != [] then None else Some((a.value, 0, 0)))
    else
      var u := ReadU64(a.rest);
      if u.Short? then None else
      var g := ReadU32(u.rest);
      if g.Short? || g.rest != [] then None else Some((a.value, u.value, g.value))
  }

  function ParseSession(data: bytes, parses: bytes -> bool): Option<Session>
  {
    var f := ReadFront(data);
    if f.None? then None else
    var h := f.value.0;
    if h.typ !in {1, 2} || h.secret == [] then None else
    var c := ReadCert(f.value.1);
    if c.None? then None else
    var peer := c.value.0;
    var extra := ReadLPs(3, false, h.extra);
    if extra.None? || h.ems > 1 || h.early > 1 || !AllParse(peer.chain, parses) then None else
    var l := ReadLP24(c.value.1);
    if l.Short? then None else
    var chains := ReadChains(l.value, peer, parses);
    if chains.None? then None else
    var b := ReadBackFields(l.rest, h.early == 1, h.typ == 2, h.version, peer.chain != []);
    if b.None? then None else
    Some(Session(h.version, h.typ == 2, h.suite, h.createdAt, h.secret, extra.value, h.ems == 1, h.early == 1, peer,
                 chains.value, b.value.0, b.value.1, b.value.2))
  }

  // ----- Reading what was written -----

  lemma FrontBack(s: Session, t: bytes)
    requires Front(s).ok
    ensures ReadFront(Front(s).buf + t) ==
            Some((Head(s.version, if s.isClient then 2 else 1, s.cipherSuite, s.createdAt, s.secret, LPs(3, s.extra).buf,
                       Flag(s.extMasterSecret), Flag(s.earlyData)), t))
  {
    hide U8, U16, U64, LP8, LP24, ReadU8, ReadU16, ReadU64, ReadLP8, ReadLP24, LPs;
    var x := LPs(3, s.extra).buf;
    var kind: byte := if s.isClient then 2 else 1;
    var d7 := U8(Flag(s.earlyData)) + t;
    var d6 := U8(Flag(s.extMasterSecret)) + d7;
    var d5 := LP24(x) + d6;
    var d4 := LP8(s.secret) + d5;
    var d3 := U64(s.createdAt) + d4;
    var d2 := U16(s.cipherSuite) + d3;
    var d1 := U8(kind) + d2;
    assert Front(s).buf + t == U16(s.version) + d1;
    ReadU16Back(s.version, d1);
    ReadU8Back(kind, d2);
    ReadU16Back(s.cipherSuite, d3);
    ReadU64Back(s.createdAt, d4);
    ReadLP8Back(s.secret, d5);
    ReadLP24Back(x, d6);
    ReadU8Back(Flag(s.extMasterSecret), d7);
    ReadU8Back(Flag(s.earlyData), t);
  }

  lemma BackFieldsBack(s: Session, hasCerts: bool)
    requires Back(s).ok
    ensures ReadBackFields(Back(s).buf, s.earlyData, s.isClient, s.version, hasCerts) ==
            if s.isClient && !hasCerts then None
            else Some((if s.earlyData then s.alpn else [],
                       if s.isClient && s.version >= VERSION_TLS13 then s.useBy else 0,
                       if s.isClient && s.version >= VERSION_TLS13 then s.ageAdd else 0))
  {
    hide U64, U32, LP8, ReadU64, ReadU32, ReadLP8;
    var tail := if s.isClient && s.version >= VERSION_TLS13 then U64(s.useBy) + U32(s.ageAdd) else [];
    if s.earlyData {
      ReadLP8Back(s.alpn, tail);
      assert [] + LP8(s.alpn) + tail == LP8(s.alpn) + tail;
    } else {
      assert [] + tail == tail;
    }
    if s.isClient && s.version >= VERSION_TLS13 {
      assert tail == U64(s.useBy) + (U32(s.ageAdd) + []);
      ReadU64Back(s.useBy, U32(s.ageAdd) + []);
      ReadU32Back(s.ageAdd, []);
    }
  }

  /** The chains with the leaf put back in front. */
  function Rooted(chains: seq<seq<bytes>>, leaf: bytes): seq<seq<bytes>>
  {
    if chains == [] then [] else
    [[leaf] + (if chains[0] == [] then [] else chains[0][1..])] + Rooted(chains[1..], leaf)
  }

  predicate ChainsParse(chains: seq<seq<bytes>>, parses: bytes -> bool)
  {
    forall i :: 0 <= i < |chains| ==> chains[i] != [] && AllParse(chains[i][1..], parses)
  }

  lemma {:induction false} ChainsBack(chains: seq<seq<bytes>>, peer: Cert, parses: bytes -> bool)
    requires ChainBytes(chains).ok
    ensures ReadChains(ChainBytes(chains).buf, peer, parses) ==
            if chains == [] then Some([])
            else if peer.chain == [] || !ChainsParse(chains, parses) then None
            else Some(Rooted(chains, peer.chain[0]))
  {
    hide LP24, ReadLP24, LPs, ReadLPs, AllParse;
    if chains != [] {
      var chain, rest := chains[0], ChainBytes(chains[1..]);
      assert chain != [];
      var list := LPs(3, chain[1..]);
      assert ChainBytes(chains).buf == LP24(list.buf) + rest.buf;
      ReadLP24Back(list.buf, rest.buf);
      ReadLPsBack(3, false, chain[1..]);
      ChainsBack(chains[1..], peer, parses);
      assert ChainsParse(chains, parses) <==> AllParse(chain[1..], parses) && ChainsParse(chains[1..], parses) by {
      }
    }
  }

  /** The parser accepts the encoding of this session. */
  predicate Restorable(s: Session, parses: bytes -> bool)
  {
    && s.secret != [] && ReadBack(s.peer).Some? && AllParse(s.peer.chain, parses)
    && (s.chains != [] || s.isClient ==> s.peer.chain != [])
    && ChainsParse(s.chains, parses)
  }

  /** What the parser gives back: fields that were not written come back empty. */
  function Restored(s: Session): Session
    requires ReadBack(s.peer).Some? && (s.chains != [] ==> s.peer.chain != [])
  {
    var timed := s.isClient && s.version >= VERSION_TLS13;
    s.(peer := ReadBack(s.peer).value,
       chains := if s.chains == [] then [] else Rooted(s.chains, s.peer.chain[0]),
       alpn := if s.earlyData then s.alpn else [],
       useBy := if timed then s.useBy else 0,
       ageAdd := if timed then s.ageAdd else 0)
  }

  /** For every session that can be encoded at all, exactly what parsing the encoding gives. */
  lemma ParseUndoesBytes(s: Session, parses: bytes -> bool)
    requires SessionBytes(s).Some?
    ensures ParseSession(SessionBytes(s).value, parses) ==
            if Restorable(s, parses) then Some(Restored(s)) else None
  {
    hide Front, Back, CertBytes, ChainBytes, LP24, ReadLP24, ReadFront, ReadCert, ReadChains, ReadBackFields,
         ReadLPs, LPs, AllParse;
    var data := SessionBytes(s).value;
    var chains, back := ChainBytes(s.chains).buf, Back(s).buf;
    var c := LP24(chains) + back;
    assert data == Front(s).buf + (CertBytes(s.peer).buf + c);
    FrontBack(s, CertBytes(s.peer).buf + c);
    CertBack(s.peer, c);
    ReadLP24Back(chains, back);
    FrontOk(s);
    ReadLPsBack(3, false, s.extra);
    if ReadBack(s.peer).Some? {
      var peer := ReadBack(s.peer).value;
      assert peer.chain == s.peer.chain;
      ChainsBack(s.chains, peer, parses);
      BackFieldsBack(s, peer.chain != []);
      assert ChainsParse([], parses);
    }
  }

  lemma FrontOk(s: Session)
    requires Front(s).ok
    ensures LPs(3, s.extra).ok
  {
    hide LPs;
  }

  /**
   Nothing in the session is left out of its encoding: chains start with the
   leaf, the protocol is set only with early data, and the times only for a TLS
   1.3 client.
   */
  predicate Regular(s: Session, parses: bytes -> bool)
  {
    && Restorable(s, parses) && (s.peer.chain == [] ==> s.peer == NO_CERT)
    && (forall i :: 0 <= i < |s.chains| ==> s.chains[i][0] == s.peer.chain[0])
    && (!s.earlyData ==> s.alpn == [])
    && (!(s.isClient && s.version >= VERSION_TLS13) ==> s.useBy == 0 && s.ageAdd == 0)
  }

  lemma {:induction false} RootedSame(chains: seq<seq<bytes>>, leaf: bytes)
    requires forall i :: 0 <= i < |chains| ==> chains[i] != []
    ensures Rooted(chains, leaf) == chains <==> forall i :: 0 <= i < |chains| ==> chains[i][0] == leaf
  {
    if chains != [] {
      var head, rest := chains[0], chains[1..];
      RootedSame(rest, leaf);
      assert head == [head[0]] + head[1..];
      assert forall i :: 0 <= i < |rest| ==> rest[i] == chains[i + 1];
      assert chains == [head] + rest;
      var r := Rooted(chains, leaf);
      assert r[0][0] == leaf && r[1..] == Rooted(rest, leaf);
    }
  }

  /** Encoding and parsing gives a session back unchanged exactly when it is regular. */
  lemma UnchangedIffRegular(s: Session, parses: bytes -> bool)
    requires SessionBytes(s).Some?
    ensures ParseSession(SessionBytes(s).value, parses) == Some(s) <==> Regular(s, parses)
  {
    hide ParseSession, SessionBytes, AllParse;
    ParseUndoesBytes(s, parses);
    if Restorable(s, parses) && s.chains != [] {
      RootedSame(s.chains, s.peer.chain[0]);
    }
  }

  // ----- The protocol of an ordinary session -----

  /** A server's session with a client that sent no certificate; early data is for QUIC alone. */
  function Ordinary(version: u16, suite: u16, createdAt: u64, secret: bytes, protocol: bytes): Session
  {
    Session(version, false, suite, createdAt, secret, [], false, false, NO_CERT, [], protocol, 0, 0)
  }

  /** Such a session always loses the negotiated protocol, and nothing else. */
  lemma ProtocolLost(version: u16, suite: u16, createdAt: u64, secret: bytes, protocol: bytes, parses: bytes -> bool)
    requires secret != [] && SessionBytes(Ordinary(version, suite, createdAt, secret, protocol)).Some?
    ensures var s := Ordinary(version, suite, createdAt, secret, protocol);
            && ParseSession(SessionBytes(s).value, parses) == Some(s.(alpn := []))
            && (ParseSession(SessionBytes(s).value, parses) == Some(s) <==> protocol == [])
  {
    hide ParseSession, SessionBytes;
    ParseUndoesBytes(Ordinary(version, suite, createdAt, secret, protocol), parses);
  }

  /** For instance "h2" in a TLS 1.3 session. */
  lemma Http2Lost(parses: bytes -> bool)
    ensures var s := Ordinary(VERSION_TLS13, 0x1301, 0, [1], [0x68, 0x32]);
            SessionBytes(s).Some? && ParseSession(SessionBytes(s).value, parses) == Some(s.(alpn := []))
  {
    hide ParseSession;
    var s := Ordinary(VERSION_TLS13, 0x1301, 0, [1], [0x68, 0x32]);
    assert Front(s).ok by { assert |LPs(3, s.extra).buf| == 0; }
    ProtocolLost(VERSION_TLS13, 0x1301, 0, [1], [0x68, 0x32], parses);
  }
}
