/**
 The loops that write and read certificate lists, shared by the certificate
 message and the session encoding.
 */
module CertificateCode {
  import opened Bytes
  import opened Certificate
  import opened HelloReader

  lemma {:induction false} OthersAppend(chain: seq<bytes>, x: bytes)
    ensures Others(chain + [x]) == Others(chain).Append(Entry(x, EMPTY))
  {
    hide Entry;
    if chain == [] {
      assert chain + [x] == [x] && [x][1..] == [];
      var e := Entry(x, EMPTY);
      assert e.buf + [] == e.buf && [] + e.buf == e.buf;
    } else {
      assert (chain + [x])[1..] == chain[1..] + [x];
      OthersAppend(chain[1..], x);
      Assoc(Entry(chain[0], EMPTY).buf, Others(chain[1..]).buf, Entry(x, EMPTY).buf);
    }
  }

  lemma EntriesAppend(c: Cert, x: bytes)
    ensures Entries(c.(chain := c.chain + [x])) ==
            Entries(c).Append(Entry(x, if c.chain == [] then LeafExts(c) else EMPTY))
  {
    hide Entry, LeafExts;
    SameLeafExts(c, c.(chain := c.chain + [x]));
    if c.chain == [] {
      assert c.chain + [x] == [x] && [x][1..] == [];
      var e := Entry(x, LeafExts(c));
      assert e.buf + [] == e.buf && [] + e.buf == e.buf;
    } else {
      assert (c.chain + [x])[1..] == c.chain[1..] + [x];
      OthersAppend(c.chain[1..], x);
      Assoc(Entry(c.chain[0], LeafExts(c)).buf, Others(c.chain[1..]).buf, Entry(x, EMPTY).buf);
    }
  }

  method WriteScts(scts: seq<bytes>) returns (b: Builder)
    ensures b == LPs(2, scts)
  {
    b := EMPTY;
    for i := 0 to |scts|
      invariant b == LPs(2, scts[..i])
    {
      LPsAppend(2, scts[..i], scts[i]);
      assert scts[..i + 1] == scts[..i] + [scts[i]];
      b := b.AddLP16(Raw(scts[i]));
    }
    assert scts[..|scts|] == scts;
  }

  method WriteLeafExts(c: Cert) returns (b: Builder)
    ensures b == LeafExts(c)
  {
    hide U16, LP16, LP24, LPs;
    b := EMPTY;
    if c.staple.Some? {
      b := b.Add(U16(EXT_STATUS)).AddLP16(Raw([STATUS_OCSP]).AddLP24(Raw(c.staple.value)));
    }
    assert b == StapleExt(c) by { assert [] + U16(EXT_STATUS) == U16(EXT_STATUS); }
    if c.scts.Some? {
      var l := WriteScts(c.scts.value);
      Assoc(b.buf, U16(EXT_SCT), LP16(EMPTY.AddLP16(l).buf));
      b := b.Add(U16(EXT_SCT)).AddLP16(EMPTY.AddLP16(l));
    } else {
      assert b.buf + [] == b.buf;
    }
  }

  method WriteCert(c: Cert) returns (b: Builder)
    ensures b == CertBytes(c)
  {
    hide LP24, LP16, LeafExts;
    var list := EMPTY;
    for i := 0 to |c.chain|
      invariant list == Entries(c.(chain := c.chain[..i]))
    {
      var exts := EMPTY;
      if i == 0 {
        exts := WriteLeafExts(c);
      }
      SameLeafExts(c, c.(chain := c.chain[..i]));
      EntriesAppend(c.(chain := c.chain[..i]), c.chain[i]);
      assert c.chain[..i + 1] == c.chain[..i] + [c.chain[i]];
      list := list.Append(EMPTY.AddLP24(Raw(c.chain[i])).AddLP16(exts));
    }
    assert c.chain[..|c.chain|] == c.chain;
    b := EMPTY.AddLP24(list);
  }

  method LoadScts(s: bytes) returns (r: Option<seq<bytes>>)
    ensures r == ReadLPs(2, true, s)
  {
    hide ReadLP16;
    var cur, acc: seq<bytes> := s, [];
    ThenNothing([], ReadLPs(2, true, s));
    while cur != []
      invariant ReadLPs(2, true, s) == Then(acc, ReadLPs(2, true, cur))
      decreases |cur|
    {
      var b := ReadLP16(cur);
      if b.Short? || b.value == [] {
        return None;
      }
      ThenOne(acc, b.value, ReadLPs(2, true, b.rest));
      acc, cur := acc + [b.value], b.rest;
    }
    ThenNothing(acc, ReadLPs(2, true, s));
    return Some(acc);
  }

  /** One extension of the leaf. */
  method LoadLeafExt(c: Cert, typ: u16, data: bytes) returns (r: Option<Cert>)
    ensures r == ApplyCert(c, typ, data)
  {
    hide ReadLP16, ReadLP24, ReadU8, ReadLPs;
    if typ == EXT_STATUS {
      var t := ReadU8(data);
      if t.Short? || t.value != STATUS_OCSP {
        return None;
      }
      var s := ReadLP24(t.rest);
      if s.Short? || s.value == [] || s.rest != [] {
        return None;
      }
      return Some(c.(staple := Some(s.value)));
    } else if typ == EXT_SCT {
      var l := ReadLP16(data);
      if l.Short? || l.value == [] {
        return None;
      }
      var scts := LoadScts(l.value);
      if scts.None? || l.rest != [] {
        return None;
      }
      return Some(c.(scts := Some((if c.scts.Some? then c.scts.value else []) + scts.value)));
    }
    return Some(c);
  }

  method LoadCertExts(block: bytes, start: Cert, leaf: bool) returns (r: Option<Cert>)
    ensures r == ReadCertExts(block, start, leaf)
  {
    hide ReadU16, ReadLP16, ApplyCert;
    var cur, c := block, start;
    while cur != []
      invariant ReadCertExts(block, start, leaf) == ReadCertExts(cur, c, leaf)
      decreases |cur|
    {
      var t := ReadU16(cur);
      if t.Short? {
        return None;
      }
      var d := ReadLP16(t.rest);
      if d.Short? {
        return None;
      }
      cur := d.rest;
      if !leaf {
        continue;
      }
      var n := LoadLeafExt(c, t.value, d.value);
      if n.None? {
        return None;
      }
      c := n.value;
    }
    return Some(c);
  }

  /** Reads a certificate list off the front of `s`. */
  method LoadCert(s: bytes) returns (r: Option<(Cert, bytes)>)
    ensures r == ReadCert(s)
  {
    hide ReadLP24, ReadLP16, ReadCertExts;
    var l := ReadLP24(s);
    if l.Short? {
      return None;
    }
    var cur, c := l.value, NO_CERT;
    while cur != []
      invariant ReadEntries(l.value, NO_CERT) == ReadEntries(cur, c)
      decreases |cur|
    {
      var cert := ReadLP24(cur);
      if cert.Short? {
        return None;
      }
      var x := ReadLP16(cert.rest);
      if x.Short? {
        return None;
      }
      var n := LoadCertExts(x.value, c.(chain := c.chain + [cert.value]), |c.chain| == 0);
      if n.None? {
        return None;
      }
      c, cur := n.value, x.rest;
    }
    return Some((c, l.rest));
  }
}
