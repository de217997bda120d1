/** The loops that encode and parse a session. */
module SessionCode {
  import opened Bytes
  import opened Versions
  import opened Certificate
  import opened CertificateCode
  import opened HelloReader
  import opened Session

  method WriteLP24s(bs: seq<bytes>) returns (b: Builder)
    ensures b == LPs(3, bs)
  {
    b := EMPTY;
    for i := 0 to |bs|
      invariant b == LPs(3, bs[..i])
    {
      LPsAppend(3, bs[..i], bs[i]);
      assert bs[..i + 1] == bs[..i] + [bs[i]];
      b := b.AddLP24(Raw(bs[i]));
    }
    assert bs[..|bs|] == bs;
  }

  lemma {:induction false} ChainsAppend(chains: seq<seq<bytes>>, chain: seq<bytes>)
    ensures ChainBytes(chains + [chain]) == ChainBytes(chains).Append(ChainEntry(chain))
  {
    hide ChainEntry;
    if chains == [] {
      assert chains + [chain] == [chain] && [chain][1..] == [];
      var e := ChainEntry(chain);
      assert e.buf + [] == e.buf && [] + e.buf == e.buf;
    } else {
      assert (chains + [chain])[1..] == chains[1..] + [chain];
      ChainsAppend(chains[1..], chain);
      Assoc(ChainEntry(chains[0]).buf, ChainBytes(chains[1..]).buf, ChainEntry(chain).buf);
    }
  }

  method WriteChains(chains: seq<seq<bytes>>) returns (b: Builder)
    ensures b == ChainBytes(chains)
  {
    hide LP24, LPs;
    b := EMPTY;
    for i := 0 to |chains|
      invariant b == ChainBytes(chains[..i])
    {
      ChainsAppend(chains[..i], chains[i]);
      assert chains[..i + 1] == chains[..i] + [chains[i]];
      if |chains[i]| == 0 {
        b := b.Append(Builder([], false));
      } else {
        var list := WriteLP24s(chains[i][1..]);
        b := b.AddLP24(list);
        assert EMPTY.AddLP24(list).buf == LP24(list.buf);
      }
    }
    assert chains[..|chains|] == chains;
  }

  method WriteSession(s: Session) returns (data: Option<bytes>)
    ensures data == SessionBytes(s)
  {
    hide U8, U16, U32, U64, LP8, LP24, LPs, CertBytes, ChainBytes;
    var b := Raw(U16(s.version) + U8(if s.isClient then 2 else 1) + U16(s.cipherSuite) + U64(s.createdAt));
    b := b.AddLP8(Raw(s.secret));
    var extra := WriteLP24s(s.extra);
    b := b.AddLP24(extra).Add(U8(Flag(s.extMasterSecret))).Add(U8(Flag(s.earlyData)));
    var cert := WriteCert(s.peer);
    var chains := WriteChains(s.chains);
    b := b.Append(cert).AddLP24(chains);
    var back := EMPTY;
    if s.earlyData {
      back := back.AddLP8(Raw(s.alpn));
    }
    if s.isClient && s.version >= VERSION_TLS13 {
      back := back.Add(U64(s.useBy) + U32(s.ageAdd));
    } else {
      back := back.Add([]);
    }
    data := b.Append(back).Result();
  }

  method LoadLP24s(s: bytes) returns (r: Option<seq<bytes>>)
    ensures r == ReadLPs(3, false, s)
  {
    hide ReadLP24;
    var cur, acc: seq<bytes> := s, [];
    ThenNothing([], ReadLPs(3, false, s));
    while cur != []
      invariant ReadLPs(3, false, s) == Then(acc, ReadLPs(3, false, cur))
      decreases |cur|
    {
      var b := ReadLP24(cur);
      if b.Short? {
        return None;
      }
      ThenOne(acc, b.value, ReadLPs(3, false, b.rest));
      acc, cur := acc + [b.value], b.rest;
    }
    ThenNothing(acc, ReadLPs(3, false, s));
    return Some(acc);
  }

  method ParseCerts(certs: seq<bytes>, parses: bytes -> bool) returns (ok: bool)
    ensures ok == AllParse(certs, parses)
  {
    for i := 0 to |certs|
      invariant forall j :: 0 <= j < i ==> parses(certs[j])
    {
      if !parses(certs[i]) {
        return false;
      }
    }
    return true;
  }

  /** The chains, each with the leaf put back in front. */
  method LoadChains(s: bytes, peer: Cert, parses: bytes -> bool) returns (r: Option<seq<seq<bytes>>>)
    ensures r == ReadChains(s, peer, parses)
  {
    hide ReadLP24, ReadLPs, AllParse;
    var cur, acc: seq<seq<bytes>> := s, [];
    ThenNothing([], ReadChains(s, peer, parses));
    while cur != []
      invariant ReadChains(s, peer, parses) == Then(acc, ReadChains(cur, peer, parses))
      decreases |cur|
    {
      var l := ReadLP24(cur);
      if l.Short? || |peer.chain| == 0 {
        return None;
      }
      var certs := LoadLP24s(l.value);
      if certs.None? {
        return None;
      }
      var ok := ParseCerts(certs.value, parses);
      if !ok {
        return None;
      }
      ThenOne(acc, [peer.chain[0]] + certs.value, ReadChains(l.rest, peer, parses));
      acc, cur := acc + [[peer.chain[0]] + certs.value], l.rest;
    }
    ThenNothing(acc, ReadChains(s, peer, parses));
    return Some(acc);
  }

  method LoadSession(data: bytes, parses: bytes -> bool) returns (r: Option<Session>)
    ensures r == ParseSession(data, parses)
  {
    hide ReadFront, ReadCert, ReadLPs, AllParse, ReadLP24, ReadChains, ReadBackFields;
    var f := ReadFront(data);
    if f.None? || f.value.0.typ !in {1, 2} || f.value.0.secret == [] {
      return None;
    }
    var h := f.value.0;
    var c := LoadCert(f.value.1);
    if c.None? {
      return None;
    }
    var peer := c.value.0;
    var extra := LoadLP24s(h.extra);
    if extra.None? || h.ems > 1 || h.early > 1 {
      return None;
    }
    var ok := ParseCerts(peer.chain, parses);
    if !ok {
      return None;
    }
    var l := ReadLP24(c.value.1);
    if l.Short? {
      return None;
    }
    var chains := LoadChains(l.value, peer, parses);
    if chains.None? {
      return None;
    }
    var b := ReadBackFields(l.rest, h.early == 1, h.typ == 2, h.version, peer.chain != []);
    if b.None? {
      return None;
    }
    return Some(Session(h.version, h.typ == 2, h.suite, h.createdAt, h.secret, extra.value, h.ems == 1, h.early == 1, peer,
                        chains.value, b.value.0, b.value.1, b.value.2));
  }
}
