/**
 Certificate lists with the OCSP staple and the SCTs of the leaf: how they are
 written, how they are read, and when writing what was read gives the same
 bytes, on which the TLS 1.3 transcript relies.
 */
module Certificate {
  import opened Bytes
  import opened Ech

  const TYPE_CERTIFICATE: byte := 11
  const STATUS_OCSP: byte := 1
  const EXT_STATUS: u16 := 5
  const EXT_SCT: u16 := 18

  /** The certificates, leaf first; `None` for what is absent rather than empty. */
  datatype Cert = Cert(chain: seq<bytes>, staple: Option<bytes>, scts: Option<seq<bytes>>)

  const NO_CERT := Cert([], None, None)

  // ----- Writing -----

  function StapleBody(staple: bytes): Builder { Raw([STATUS_OCSP]).AddLP24(Raw(staple)) }
  function SctBody(scts: seq<bytes>): Builder { EMPTY.AddLP16(LPs(2, scts)) }

  function StapleExt(c: Cert): Builder
  {
    if c.staple.None? then EMPTY else Raw(U16(EXT_STATUS)).AddLP16(StapleBody(c.staple.value))
  }

  function SctExt(c: Cert): Builder
  {
    if c.scts.None? then EMPTY else Raw(U16(EXT_SCT)).AddLP16(SctBody(c.scts.value))
  }

  /** The extensions of the leaf. */
  function LeafExts(c: Cert): Builder { StapleExt(c).Append(SctExt(c)) }

  function Entry(cert: bytes, exts: Builder): Builder { EMPTY.AddLP24(Raw(cert)).AddLP16(exts) }

  /** Entries for certificates other than the leaf. */
  function Others(chain: seq<bytes>): Builder
  {
    if chain == [] then EMPTY else Entry(chain[0], EMPTY).Append(Others(chain[1..]))
  }

  function Entries(c: Cert): Builder
  {
    if c.chain == [] then EMPTY else Entry(c.chain[0], LeafExts(c)).Append(Others(c.chain[1..]))
  }

  function CertBytes(c: Cert): Builder { EMPTY.AddLP24(Entries(c)) }

  // ----- Reading -----

  /** The effect of one leaf extension. */
  function ApplyCert(c: Cert, typ: u16, data: bytes): Option<Cert>
  {
    if typ == EXT_STATUS then
      var t := ReadU8(data);
      if t.Short? || t.value != STATUS_OCSP then None else
      var s := ReadLP24(t.rest);
      if s.Short? || s.value == [] || s.rest != [] then None else Some(c.(staple := Some(s.value)))
    else if typ == EXT_SCT then
      var l := ReadLP16(data);
      if l.Short? || l.value == [] then None else
      var ss := ReadLPs(2, true, l.value);
      if ss.None? || l.rest != [] then None
      else Some(c.(scts := Some((if c.scts.Some? then c.scts.value else []) + ss.value)))
    else Some(c)
  }

  /** The extensions of one entry; only those of the leaf have an effect. */
  function ReadCertExts(s: bytes, c: Cert, leaf: bool): Option<Cert>
    decreases |s|
  {
    if s == [] then Some(c) else
    var t := ReadU16(s);
    if t.Short? then None else
    var d := ReadLP16(t.rest);
    if d.Short? then None else
    var n := if leaf then ApplyCert(c, t.value, d.value) else Some(c);
    if n.None? then None else ReadCertExts(d.rest, n.value, leaf)
  }

  function ReadEntries(s: bytes, c: Cert): Option<Cert>
    decreases |s|
  {
    if s == [] then Some(c) else
    var cert := ReadLP24(s);
    if cert.Short? then None else
    var x := ReadLP16(cert.rest);
    if x.Short? then None else
    var n := ReadCertExts(x.value, c.(chain := c.chain + [cert.value]), c.chain == []);
    if n.None? then None else ReadEntries(x.rest, n.value)
  }

  /** The certificate at the front of `s`. */
  function ReadCert(s: bytes): (r: Option<(Cert, bytes)>)
    ensures r.Some? ==> |r.value.1| < |s|
  {
    var l := ReadLP24(s);
    if l.Short? then None else
    var c := ReadEntries(l.value, NO_CERT);
    if c.None? then None else Some((c.value, l.rest))
  }

  // ----- Reading what was written -----

  /** What reading back gives: nothing for a certificate the reader refuses. */
  function ReadBack(c: Cert): Option<Cert>
  {
    if c.chain == [] then Some(NO_CERT)
    else if c.staple == Some([]) || (c.scts.Some? && (c.scts.value == [] || [] in c.scts.value)) then None
    else Some(c)
  }

  lemma ReadExtBack(typ: u16, body: bytes, rest: bytes, c: Cert, leaf: bool)
    requires |body| < 0x1_0000
    ensures var n := if leaf then ApplyCert(c, typ, body) else Some(c);
            ReadCertExts(U16(typ) + LP16(body) + rest, c, leaf) ==
            if n.None? then None else ReadCertExts(rest, n.value, leaf)
  {
    hide U16, LP16, ReadU16, ReadLP16, ApplyCert;
    Assoc(U16(typ), LP16(body), rest);
    ReadU16Back(typ, LP16(body) + rest);
    ReadLP16Back(body, rest);
  }

  lemma StapleBack(c: Cert, staple: bytes)
    requires StapleBody(staple).ok
    ensures ApplyCert(c, EXT_STATUS, StapleBody(staple).buf) ==
            if staple == [] then None else Some(c.(staple := Some(staple)))
  {
    hide LP24, ReadLP24;
    ReadU8Back(STATUS_OCSP, LP24(staple));
    assert U8(STATUS_OCSP) == [STATUS_OCSP];
    ReadLP24Back(staple, []);
    assert LP24(staple) + [] == LP24(staple);
  }

  lemma SctBack(c: Cert, scts: seq<bytes>)
    requires SctBody(scts).ok && c.scts.None?
    ensures ApplyCert(c, EXT_SCT, SctBody(scts).buf) ==
            if scts == [] || [] in scts then None else Some(c.(scts := Some(scts)))
  {
    hide LP16, ReadLP16, ReadLPs;
    var l := LPs(2, scts);
    ReadLP16Back(l.buf, []);
    assert [] + LP16(l.buf) == LP16(l.buf) == LP16(l.buf) + [];
    assert LPs(2, scts).buf == [] <==> scts == [];
    ReadLPsBack(2, true, scts);
    assert [] + scts == scts;
  }

  lemma LeafBack(c: Cert)
    requires LeafExts(c).ok && c.chain != []
    ensures ReadCertExts(LeafExts(c).buf, Cert([c.chain[0]], None, None), true) ==
            ReadBack(c.(chain := [c.chain[0]]))
  {
    hide U16, LP16, ApplyCert, ReadCertExts, StapleBody, SctBody;
    var start := Cert([c.chain[0]], None, None);
    var rest := SctExt(c).buf;
    NoCertExts(start);
    var mid := start.(staple := c.staple);
    NoCertExts(mid);
    NoCertExts(mid.(scts := c.scts));
    if c.staple.Some? {
      ReadExtBack(EXT_STATUS, StapleBody(c.staple.value).buf, rest, start, true);
      StapleBack(start, c.staple.value);
    } else {
      assert [] + rest == rest;
    }
    if c.scts.Some? {
      ReadExtBack(EXT_SCT, SctBody(c.scts.value).buf, [], mid, true);
      SctBack(mid, c.scts.value);
      assert rest + [] == rest;
    }
  }

  lemma NoCertExts(c: Cert)
    ensures ReadCertExts([], c, true) == Some(c) && ReadCertExts([], c, false) == Some(c)
  {
  }

  lemma EntryBack(cert: bytes, exts: Builder, rest: bytes, c: Cert)
    requires Entry(cert, exts).ok
    ensures var n := ReadCertExts(exts.buf, c.(chain := c.chain + [cert]), c.chain == []);
            ReadEntries(Entry(cert, exts).buf + rest, c) == if n.None? then None else ReadEntries(rest, n.value)
  {
    hide LP16, LP24, ReadLP16, ReadLP24, ReadCertExts;
    assert Entry(cert, exts).buf + rest == LP24(cert) + (LP16(exts.buf) + rest);
    ReadLP24Back(cert, LP16(exts.buf) + rest);
    ReadLP16Back(exts.buf, rest);
  }

  lemma {:induction false} OthersBack(chain: seq<bytes>, c: Cert)
    requires Others(chain).ok && c.chain != []
    ensures ReadEntries(Others(chain).buf, c) == Some(c.(chain := c.chain + chain))
    decreases chain
  {
    hide Entry, ReadCertExts, ReadEntries;
    if chain == [] {
      assert c.chain + chain == c.chain;
      NoEntries(c);
    } else {
      var n := c.(chain := c.chain + [chain[0]]);
      EntryBack(chain[0], EMPTY, Others(chain[1..]).buf, c);
      NoCertExts(n);
      OthersBack(chain[1..], n);
      assert c.chain + [chain[0]] + chain[1..] == c.chain + chain;
    }
  }

  /** Reading gives back what was written, or refuses exactly the empty staples and timestamps. */
  lemma CertBack(c: Cert, tail: bytes)
    requires CertBytes(c).ok
    ensures ReadCert(CertBytes(c).buf + tail) ==
            if ReadBack(c).None? then None else Some((ReadBack(c).value, tail))
  {
    hide LP24, ReadLP24, ReadEntries, ReadCertExts;
    assert [] + LP24(Entries(c).buf) + tail == LP24(Entries(c).buf) + tail;
    ReadLP24Back(Entries(c).buf, tail);
    if c.chain == [] {
      NoEntries(NO_CERT);
    } else {
      var first := Cert([c.chain[0]], None, None);
      assert LeafExts(c).ok && Entry(c.chain[0], LeafExts(c)).ok && Others(c.chain[1..]).ok;
      assert NO_CERT.chain + [c.chain[0]] == [c.chain[0]];
      EntryBack(c.chain[0], LeafExts(c), Others(c.chain[1..]).buf, NO_CERT);
      LeafBack(c);
      if ReadBack(c).Some? {
        OthersBack(c.chain[1..], c.(chain := [c.chain[0]]));
        assert [c.chain[0]] + c.chain[1..] == c.chain;
      }
    }
  }

  lemma NoEntries(c: Cert)
    ensures ReadEntries([], c) == Some(c)
  {
  }

  // ----- The message -----

  datatype CertificateMsg = CertificateMsg(cert: Cert, ocspStapling: bool, scts: bool)

  /** The certificate with only those parts that the flags let through. */
  function Sent(m: CertificateMsg): Cert
  {
    m.cert.(staple := if m.ocspStapling then m.cert.staple else None,
            scts := if m.scts then m.cert.scts else None)
  }

  function MarshalCertificate(m: CertificateMsg): Option<bytes>
  {
    Raw([TYPE_CERTIFICATE]).AddLP24(Raw([0]).Append(CertBytes(Sent(m)))).Result()
  }

  function UnmarshalCertificate(data: bytes): Option<CertificateMsg>
  {
    var h := ReadN(data, 4);
    if h.Short? then None else
    var ctx := ReadLP8(h.rest);
    if ctx.Short? || ctx.value != [] then None else
    var c := ReadCert(ctx.rest);
    if c.None? || c.value.1 != [] then None else
    Some(CertificateMsg(c.value.0, c.value.0.staple.Some?, c.value.0.scts.Some?))
  }

  lemma MarshalledShape(m: CertificateMsg)
    requires MarshalCertificate(m).Some?
    ensures CertBytes(Sent(m)).ok
    ensures var b := CertBytes(Sent(m)).buf;
            MarshalCertificate(m).value == [TYPE_CERTIFICATE] + U24(|b| + 1) + ([0] + b)
  {
    hide CertBytes, U24;
    var b := CertBytes(Sent(m)).buf;
    assert [TYPE_CERTIFICATE] + (U24(|[0] + b|) + ([0] + b)) == [TYPE_CERTIFICATE] + U24(|b| + 1) + ([0] + b);
  }

  /** The receiver of a certificate message gets what was sent, flags included. */
  lemma CertificateRoundTrip(m: CertificateMsg)
    requires MarshalCertificate(m).Some?
    ensures UnmarshalCertificate(MarshalCertificate(m).value) ==
            var r := ReadBack(Sent(m));
            if r.None? then None else Some(CertificateMsg(r.value, r.value.staple.Some?, r.value.scts.Some?))
  {
    hide CertBytes, U24, ReadLP8, ReadCert, ReadBack;
    MarshalledShape(m);
    var b := CertBytes(Sent(m)).buf;
    var head := [TYPE_CERTIFICATE] + U24(|b| + 1);
    ReadNBack(head, [0] + b);
    ReadLP8Back([], b);
    assert LP8([]) + b == [0] + b;
    CertBack(Sent(m), []);
    assert b + [] == b;
  }

  // ----- Canonical messages -----

  datatype RawEntry = RawEntry(cert: bytes, exts: seq<RawExt>)

  function ReadRawEntries(s: bytes): Option<seq<RawEntry>>
    decreases |s|
  {
    if s == [] then Some([]) else
    var cert := ReadLP24(s);
    if cert.Short? then None else
    var x := ReadLP16(cert.rest);
    if x.Short? then None else
    var e := ReadRawExts(x.value);
    if e.None? then None else
    var r := ReadRawEntries(x.rest);
    if r.None? then None else Some([RawEntry(cert.value, e.value)] + r.value)
  }

  function ExtTypes(es: seq<RawExt>): seq<u16>
  {
    if es == [] then [] else [es[0].typ] + ExtTypes(es[1..])
  }

  /** The leaf has at most a staple and then timestamps; the others have no extensions. */
  predicate CanonicalEntries(es: seq<RawEntry>)
  {
    && (es != [] ==> ExtTypes(es[0].exts) in [[], [EXT_STATUS], [EXT_SCT], [EXT_STATUS, EXT_SCT]])
    && forall i :: 0 < i < |es| ==> es[i].exts == []
  }

  /** The header is right and the entries are canonical; a receiver can check this on the bytes alone. */
  predicate Canonical(data: bytes)
  {
    && 4 <= |data| < 4 + 0x100_0000 && data[..4] == [TYPE_CERTIFICATE] + U24(|data| - 4)
    && var ctx := ReadLP8(data[4..]);
       ctx.Got? && var l := ReadLP24(ctx.rest);
                   l.Got? && var es := ReadRawEntries(l.value); es.Some? && CanonicalEntries(es.value)
  }

  // Reading and writing whole strings.

  lemma {:induction false} ReadLPsWhole(w: int, strict: bool, s: bytes)
    requires ReadLPs(w, strict, s).Some?
    ensures LPs(w, ReadLPs(w, strict, s).value) == Builder(s, true)
    decreases |s|
  {
    hide ReadLP8, ReadLP16, ReadLP24, LP8, LP16, LP24;
    if s != [] {
      if w == 1 { ReadLP8Whole(s); } else if w == 2 { ReadLP16Whole(s); } else { ReadLP24Whole(s); }
      var b := ReadLP(w, s);
      ReadLPsWhole(w, strict, b.rest);
      var bs := ReadLPs(w, strict, s).value;
      assert bs[1..] == ReadLPs(w, strict, b.rest).value;
    }
  }

  /** One extension of each kind, read and written back. */
  lemma StapleWhole(c: Cert, data: bytes)
    requires ApplyCert(c, EXT_STATUS, data).Some?
    ensures var n := ApplyCert(c, EXT_STATUS, data).value;
            n.staple.Some? && StapleBody(n.staple.value) == Builder(data, true) && n == c.(staple := n.staple)
  {
    hide LP24, ReadLP24;
    ReadLP24Whole(ReadU8(data).rest);
    var st := ReadLP24(ReadU8(data).rest).value;
    assert LP24(st) + [] == LP24(st);
  }

  lemma SctWhole(c: Cert, data: bytes)
    requires ApplyCert(c, EXT_SCT, data).Some? && c.scts.None?
    ensures var n := ApplyCert(c, EXT_SCT, data).value;
            n.scts.Some? && SctBody(n.scts.value) == Builder(data, true) && n == c.(scts := n.scts)
  {
    hide LP16, ReadLP16, LPs, ReadLPs;
    ReadLP16Whole(data);
    var l := ReadLP16(data).value;
    ReadLPsWhole(2, true, l);
    var ss := ReadLPs(2, true, l).value;
    assert [] + ss == ss;
    assert LP16(l) + [] == LP16(l) && [] + LP16(l) == LP16(l);
  }

  /** The first extension of a list, as bytes. */
  lemma FirstExt(s: bytes)
    requires ReadRawExts(s).Some? && ReadRawExts(s).value != []
    ensures var e := ReadRawExts(s).value[0];
            var rest := ReadLP16(ReadU16(s).rest).rest;
            && ReadU16(s).Got? && ReadLP16(ReadU16(s).rest).Got? && |e.data| < 0x1_0000
            && s == U16(e.typ) + LP16(e.data) + rest
            && ReadU16(s).value == e.typ && ReadLP16(ReadU16(s).rest).value == e.data
            && ReadRawExts(rest) == Some(ReadRawExts(s).value[1..])
  {
    hide LP16, ReadLP16;
    assert s == U16(ReadU16(s).value) + ReadU16(s).rest;
    var t := ReadU16(s);
    ReadLP16Whole(t.rest);
    var d := ReadLP16(t.rest);
    Assoc(U16(t.value), LP16(d.value), d.rest);
    assert ReadRawExts(s).value[1..] == ReadRawExts(d.rest).value;
  }

  lemma FirstType(es: seq<RawExt>)
    ensures ExtTypes(es) == [] <==> es == []
    ensures es != [] ==> ExtTypes(es)[0] == es[0].typ && ExtTypes(es)[1..] == ExtTypes(es[1..])
  {
  }

  lemma EmptyRaw(s: bytes)
    requires ReadRawExts(s) == Some([])
    ensures s == []
  {
  }

  /** At most timestamps left. */
  lemma SctsWhole(s: bytes, c: Cert)
    requires c.scts.None? && ReadRawExts(s).Some? && ExtTypes(ReadRawExts(s).value) in [[], [EXT_SCT]]
    requires ReadCertExts(s, c, true).Some?
    ensures var n := ReadCertExts(s, c, true).value;
            n == c.(scts := n.scts) && SctExt(n) == Builder(s, true)
  {
    hide U16, LP16, ReadU16, ReadLP16, ReadRawExts, ApplyCert, SctBody;
    var es := ReadRawExts(s).value;
    FirstType(es);
    if es == [] {
      EmptyRaw(s);
    } else {
      FirstExt(s);
      SctWhole(c, es[0].data);
      var rest := ReadLP16(ReadU16(s).rest).rest;
      FirstType(es[1..]);
      EmptyRaw(rest);
      assert U16(EXT_SCT) + LP16(es[0].data) + [] == U16(EXT_SCT) + LP16(es[0].data);
    }
  }

  lemma LeafWhole(s: bytes, cert: bytes)
    requires ReadRawExts(s).Some?
    requires ExtTypes(ReadRawExts(s).value) in [[], [EXT_STATUS], [EXT_SCT], [EXT_STATUS, EXT_SCT]]
    requires ReadCertExts(s, Cert([cert], None, None), true).Some?
    ensures var n := ReadCertExts(s, Cert([cert], None, None), true).value;
            n.chain == [cert] && LeafExts(n) == Builder(s, true)
  {
    hide U16, LP16, ReadU16, ReadLP16, ReadRawExts, ApplyCert, SctExt, StapleBody;
    var c := Cert([cert], None, None);
    var es := ReadRawExts(s).value;
    FirstType(es);
    if es != [] && es[0].typ == EXT_STATUS {
      FirstExt(s);
      StapleWhole(c, es[0].data);
      var rest := ReadLP16(ReadU16(s).rest).rest;
      FirstType(es[1..]);
      SctsWhole(rest, ApplyCert(c, EXT_STATUS, es[0].data).value);
    } else {
      SctsWhole(s, c);
      assert [] + s == s;
    }
  }

  lemma {:induction false} OthersWhole(s: bytes, c: Cert)
    requires c.chain != [] && ReadRawEntries(s).Some? && ReadEntries(s, c).Some?
    requires forall i :: 0 <= i < |ReadRawEntries(s).value| ==> ReadRawEntries(s).value[i].exts == []
    ensures var n := ReadEntries(s, c).value;
            && |c.chain| <= |n.chain| && n == c.(chain := n.chain) && c.chain == n.chain[..|c.chain|]
            && Others(n.chain[|c.chain|..]) == Builder(s, true)
    decreases |s|
  {
    hide LP16, LP24, ReadLP16, ReadLP24;
    if s == [] {
      assert c.chain[..|c.chain|] == c.chain;
    } else {
      var es := ReadRawEntries(s).value;
      ReadLP24Whole(s);
      var cert := ReadLP24(s);
      ReadLP16Whole(cert.rest);
      var x := ReadLP16(cert.rest);
      assert es[0].exts == [];
      EmptyRaw(x.value);
      assert es[1..] == ReadRawEntries(x.rest).value;
      var d := c.(chain := c.chain + [cert.value]);
      NoCertExts(d);
      OthersWhole(x.rest, d);
      var n := ReadEntries(s, c).value;
      assert n.chain[|c.chain|..] == [cert.value] + n.chain[|d.chain|..];
      assert n.chain[..|c.chain|] == d.chain[..|c.chain|] == c.chain;
      assert Entry(cert.value, EMPTY).buf + x.rest == s;
    }
  }

  lemma EntriesWhole(s: bytes)
    requires ReadRawEntries(s).Some? && CanonicalEntries(ReadRawEntries(s).value) && ReadEntries(s, NO_CERT).Some?
    ensures Entries(ReadEntries(s, NO_CERT).value) == Builder(s, true)
  {
    hide LP16, LP24, ReadLP16, ReadLP24, ReadCertExts, LeafExts, Others;
    if s != [] {
      var es := ReadRawEntries(s).value;
      ReadLP24Whole(s);
      var cert := ReadLP24(s);
      ReadLP16Whole(cert.rest);
      var x := ReadLP16(cert.rest);
      assert NO_CERT.chain + [cert.value] == [cert.value];
      LeafWhole(x.value, cert.value);
      var leaf := ReadCertExts(x.value, Cert([cert.value], None, None), true).value;
      assert es[1..] == ReadRawEntries(x.rest).value;
      forall i | 0 <= i < |es[1..]| ensures es[1..][i].exts == [] {
        assert es[1..][i] == es[i + 1];
      }
      OthersWhole(x.rest, leaf);
      var n := ReadEntries(s, NO_CERT).value;
      assert n.chain[0] == n.chain[..1][0] == cert.value;
      assert LeafExts(n) == LeafExts(leaf) by { SameLeafExts(n, leaf); }
      assert Entry(cert.value, LeafExts(leaf)).buf + x.rest == s;
    }
  }

  lemma SameLeafExts(a: Cert, b: Cert)
    requires a.staple == b.staple && a.scts == b.scts
    ensures LeafExts(a) == LeafExts(b)
  {
  }

  /** A canonical message that was read is written back byte for byte. */
  lemma CanonicalRewritten(data: bytes)
    requires Canonical(data) && UnmarshalCertificate(data).Some?
    ensures MarshalCertificate(UnmarshalCertificate(data).value) == Some(data)
  {
    hide LP24, ReadLP24, ReadLP8, U24, Entries, ReadEntries, ReadRawEntries, CanonicalEntries;
    var m := UnmarshalCertificate(data).value;
    assert Sent(m) == m.cert;
    var ctx := ReadLP8(data[4..]);
    ReadLP8Whole(data[4..]);
    assert LP8([]) == [0];
    var l := ReadLP24(ctx.rest);
    ReadLP24Whole(ctx.rest);
    EntriesWhole(l.value);
    assert CertBytes(m.cert) == Builder(ctx.rest, true) by {
      assert LP24(l.value) + [] == LP24(l.value) && [] + LP24(l.value) == LP24(l.value);
    }
    var b := Raw([0]).Append(CertBytes(m.cert));
    assert b.buf == data[4..];
    assert data == data[..4] + data[4..];
    VectorParts(b.buf);
    assert [TYPE_CERTIFICATE] + LP24(b.buf) == data;
  }

  lemma VectorParts(b: bytes)
    ensures LP24(b) == U24(|b|) + b
  {
  }

  // ----- Whatever is written is canonical -----

  lemma RawExtBack(typ: u16, body: bytes, rest: bytes)
    requires |body| < 0x1_0000
    ensures var r := ReadRawExts(rest);
            ReadRawExts(U16(typ) + LP16(body) + rest) ==
            if r.None? then None else Some([RawExt(typ, body)] + r.value)
  {
    hide U16, LP16, ReadU16, ReadLP16;
    Assoc(U16(typ), LP16(body), rest);
    ReadU16Back(typ, LP16(body) + rest);
    ReadLP16Back(body, rest);
  }

  lemma LeafTypes(c: Cert)
    requires LeafExts(c).ok
    ensures var r := ReadRawExts(LeafExts(c).buf);
            r.Some? && ExtTypes(r.value) in [[], [EXT_STATUS], [EXT_SCT], [EXT_STATUS, EXT_SCT]]
  {
    hide U16, LP16, StapleBody, SctBody;
    assert ReadRawExts([]) == Some([]);
    var rest := SctExt(c).buf;
    if c.scts.Some? {
      RawExtBack(EXT_SCT, SctBody(c.scts.value).buf, []);
      assert rest + [] == rest;
    }
    var r := ReadRawExts(rest).value;
    FirstType(r);
    assert ExtTypes(r) == if c.scts.Some? then [EXT_SCT] else [];
    if c.staple.Some? {
      RawExtBack(EXT_STATUS, StapleBody(c.staple.value).buf, rest);
      var e := RawExt(EXT_STATUS, StapleBody(c.staple.value).buf);
      FirstType([e] + r);
      assert ([e] + r)[1..] == r;
      assert ExtTypes([e] + r) == if c.scts.Some? then [EXT_STATUS, EXT_SCT] else [EXT_STATUS];
    } else {
      assert [] + rest == rest;
    }
  }

  lemma RawEntryBack(cert: bytes, exts: Builder, rest: bytes)
    requires Entry(cert, exts).ok && ReadRawExts(exts.buf).Some? && ReadRawEntries(rest).Some?
    ensures ReadRawEntries(Entry(cert, exts).buf + rest) ==
            Some([RawEntry(cert, ReadRawExts(exts.buf).value)] + ReadRawEntries(rest).value)
  {
    hide LP16, LP24, ReadLP16, ReadLP24, ReadRawExts;
    assert Entry(cert, exts).buf + rest == LP24(cert) + (LP16(exts.buf) + rest);
    ReadLP24Back(cert, LP16(exts.buf) + rest);
    ReadLP16Back(exts.buf, rest);
  }

  lemma {:induction false} OthersCanonical(chain: seq<bytes>)
    requires Others(chain).ok
    ensures var r := ReadRawEntries(Others(chain).buf);
            r.Some? && forall i :: 0 <= i < |r.value| ==> r.value[i].exts == []
  {
    hide Entry;
    assert ReadRawExts([]) == Some([]);
    if chain != [] {
      OthersCanonical(chain[1..]);
      RawEntryBack(chain[0], EMPTY, Others(chain[1..]).buf);
    }
  }

  lemma MarshalledCanonical(m: CertificateMsg)
    requires MarshalCertificate(m).Some?
    ensures Canonical(MarshalCertificate(m).value)
  {
    hide LP24, ReadLP24, U24, ReadLP8, ReadRawExts;
    MarshalledShape(m);
    var c, data := Sent(m), MarshalCertificate(m).value;
    var list := Entries(c);
    var b := CertBytes(c).buf;
    assert b == LP24(list.buf) + [];
    ReadLP24Back(list.buf, []);
    ReadLP8Back([], b);
    assert LP8([]) == [0];
    assert data[4..] == [0] + b && data[..4] == [TYPE_CERTIFICATE] + U24(|b| + 1);
    if c.chain == [] {
      assert ReadRawEntries([]) == Some([]);
    } else {
      assert LeafExts(c).ok && Entry(c.chain[0], LeafExts(c)).ok && Others(c.chain[1..]).ok;
      LeafTypes(c);
      OthersCanonical(c.chain[1..]);
      RawEntryBack(c.chain[0], LeafExts(c), Others(c.chain[1..]).buf);
    }
  }

  /** Writing what was read gives the received bytes exactly when those are canonical. */
  lemma RewrittenIffCanonical(data: bytes)
    requires UnmarshalCertificate(data).Some?
    ensures MarshalCertificate(UnmarshalCertificate(data).value) == Some(data) <==> Canonical(data)
  {
    hide Canonical, MarshalCertificate, UnmarshalCertificate;
    if Canonical(data) {
      CanonicalRewritten(data);
    }
    if MarshalCertificate(UnmarshalCertificate(data).value) == Some(data) {
      MarshalledCanonical(UnmarshalCertificate(data).value);
    }
  }

  /** What an honest peer sends is hashed alike on both sides, provided the reader accepts it. */
  lemma SentIsRewritten(m: CertificateMsg)
    requires MarshalCertificate(m).Some? && UnmarshalCertificate(MarshalCertificate(m).value).Some?
    ensures MarshalCertificate(UnmarshalCertificate(MarshalCertificate(m).value).value) == MarshalCertificate(m)
  {
    hide Canonical, MarshalCertificate, UnmarshalCertificate;
    MarshalledCanonical(m);
    CanonicalRewritten(MarshalCertificate(m).value);
  }

  /** A message with one certificate whose only extension, empty and of type 1, is unknown. */
  const UNKNOWN: Builder := Raw(U16(1) + LP16([]))
  const UNKNOWN_EXTENSION: bytes := [TYPE_CERTIFICATE] + LP24([0] + LP24(Entry([7], UNKNOWN).buf))

  /** It is read, but not written back as it was. */
  lemma UnknownExtensionDropped()
    ensures UnmarshalCertificate(UNKNOWN_EXTENSION) == Some(CertificateMsg(Cert([[7]], None, None), false, false))
    ensures !Canonical(UNKNOWN_EXTENSION)
  {
    hide LP16, LP24, ReadLP16, ReadLP24, ReadLP8, U24, Entry, ReadEntries, ReadRawEntries, ReadCertExts, ReadRawExts;
    UnknownRead();
    var list := Entry([7], UNKNOWN).buf;
    var b := LP24(list) + [];
    var body := [0] + b;
    assert LP8([]) == [0];
    ReadLP8Back([], b);
    ReadLP24Back(list, []);
    VectorParts(body);
    var head := [TYPE_CERTIFICATE] + U24(|body|);
    assert UNKNOWN_EXTENSION == head + body by { assert LP24(list) + [] == LP24(list); }
    ReadNBack(head, body);
    assert UNKNOWN_EXTENSION[4..] == body;
    FirstType([RawExt(1, [])]);
  }

  lemma UnknownRead()
    ensures var list := Entry([7], UNKNOWN).buf;
            && |list| < 0x100 && ReadEntries(list, NO_CERT) == Some(Cert([[7]], None, None))
            && ReadRawEntries(list) == Some([RawEntry([7], [RawExt(1, [])])])
  {
    hide ReadEntries, ReadCertExts;
    var c := Cert([[7]], None, None);
    var exts := U16(1) + LP16([]) + [];
    assert UNKNOWN.buf == exts;
    ReadExtBack(1, [], [], c, true);
    NoCertExts(c);
    RawExtBack(1, [], []);
    assert ReadRawExts([]) == Some([]);
    NoEntries(c);
    assert ReadRawEntries([]) == Some([]);
    EntryBack([7], UNKNOWN, [], NO_CERT);
    RawEntryBack([7], UNKNOWN, []);
    var list := Entry([7], UNKNOWN).buf;
    assert list + [] == list;
    assert NO_CERT.chain + [[7]] == [[7]];
    assert [RawExt(1, [])] + [] == [RawExt(1, [])];
    var e := RawEntry([7], [RawExt(1, [])]);
    assert [e] + [] == [e];
  }

  // ----- Other messages hashed after being read -----

  const TYPE_CERTIFICATE_VERIFY: byte := 15
  const TYPE_FINISHED: byte := 20

  datatype VerifyMsg = VerifyMsg(algorithm: u16, signature: bytes)

  function MarshalVerify(m: VerifyMsg): Option<bytes>
  {
    Raw([TYPE_CERTIFICATE_VERIFY]).AddLP24(Raw(U16(m.algorithm)).AddLP16(Raw(m.signature))).Result()
  }

  function UnmarshalVerify(data: bytes): Option<VerifyMsg>
  {
    var h := ReadN(data, 4);
    if h.Short? then None else
    var a := ReadU16(h.rest);
    if a.Short? then None else
    var s := ReadLP16(a.rest);
    if s.Short? || s.rest != [] then None else Some(VerifyMsg(a.value, s.value))
  }

  lemma VerifyRoundTrip(m: VerifyMsg)
    requires MarshalVerify(m).Some?
    ensures UnmarshalVerify(MarshalVerify(m).value) == Some(m)
  {
    hide U16, U24, LP16, ReadU16, ReadLP16;
    var b := U16(m.algorithm) + (LP16(m.signature) + []);
    var head := [TYPE_CERTIFICATE_VERIFY] + U24(|b|);
    assert MarshalVerify(m).value == head + b;
    ReadNBack(head, b);
    ReadU16Back(m.algorithm, LP16(m.signature) + []);
    ReadLP16Back(m.signature, []);
  }

  function MarshalFinished(verifyData: bytes): Option<bytes>
  {
    Raw([TYPE_FINISHED]).AddLP24(Raw(verifyData)).Result()
  }

  function UnmarshalFinished(data: bytes): Option<bytes>
  {
    var t := ReadN(data, 1);
    if t.Short? then None else
    var v := ReadLP24(t.rest);
    if v.Short? || v.rest != [] then None else Some(v.value)
  }

  lemma FinishedRoundTrip(verifyData: bytes)
    requires MarshalFinished(verifyData).Some?
    ensures UnmarshalFinished(MarshalFinished(verifyData).value) == Some(verifyData)
  {
    hide LP24, ReadLP24;
    ReadNBack([TYPE_FINISHED], LP24(verifyData));
    ReadLP24Back(verifyData, []);
    assert LP24(verifyData) + [] == LP24(verifyData);
  }
}
