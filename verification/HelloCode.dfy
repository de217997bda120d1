/**
 The code that writes a ClientHello by appending to a builder field by field.
 Each method is proved to compute what module ClientHello (or, for an inner
 hello, module Ech) says.
 */
module HelloCode {
  import opened Bytes
  import opened ClientHello
  import opened HelloRoundTrip
  import opened Ech

  // ----- Writing lists -----

  method WriteU16s(ns: seq<u16>) returns (b: bytes)
    ensures b == U16s(ns)
  {
    b := [];
    for i := 0 to |ns|
      invariant b == U16s(ns[..i])
    {
      U16sAppend(ns[..i], ns[i]);
      assert ns[..i + 1] == ns[..i] + [ns[i]];
      b := b + U16(ns[i]);
    }
    assert ns[..|ns|] == ns;
  }

  method WriteLP8s(bs: seq<bytes>) returns (b: Builder)
    ensures b == LPs(1, bs)
  {
    b := EMPTY;
    for i := 0 to |bs|
      invariant b == LPs(1, bs[..i])
    {
      LPsAppend(1, bs[..i], bs[i]);
      assert bs[..i + 1] == bs[..i] + [bs[i]];
      b := b.AddLP8(Raw(bs[i]));
    }
    assert bs[..|bs|] == bs;
  }

  lemma {:induction false} KeySharesAppend(ks: seq<KeyShare>, k: KeyShare)
    ensures KeyShareBytes(ks + [k]) == KeyShareBytes(ks).Add(U16(k.group)).AddLP16(Raw(k.data))
  {
    hide U16, LP16;
    if ks == [] {
      assert ks + [k] == [k] && [k][1..] == [];
    } else {
      assert (ks + [k])[1..] == ks[1..] + [k];
      KeySharesAppend(ks[1..], k);
      Assoc(U16(ks[0].group) + LP16(ks[0].data), KeyShareBytes(ks[1..]).buf, U16(k.group) + LP16(k.data));
      assert KeyShareBytes(ks[1..] + [k]).buf == KeyShareBytes(ks[1..]).buf + (U16(k.group) + LP16(k.data));
      assert KeyShareBytes(ks).buf + U16(k.group) + LP16(k.data) == KeyShareBytes(ks).buf + (U16(k.group) + LP16(k.data));
    }
  }

  method WriteKeyShares(ks: seq<KeyShare>) returns (b: Builder)
    ensures b == KeyShareBytes(ks)
  {
    b := EMPTY;
    for i := 0 to |ks|
      invariant b == KeyShareBytes(ks[..i])
    {
      KeySharesAppend(ks[..i], ks[i]);
      assert ks[..i + 1] == ks[..i] + [ks[i]];
      b := b.Add(U16(ks[i].group)).AddLP16(Raw(ks[i].data));
    }
    assert ks[..|ks|] == ks;
  }

  lemma {:induction false} IdentitiesAppend(ids: seq<PskIdentity>, p: PskIdentity)
    ensures IdentityBytes(ids + [p]) == IdentityBytes(ids).AddLP16(Raw(p.name)).Add(U32(p.age))
  {
    hide U32, LP16;
    if ids == [] {
      assert ids + [p] == [p] && [p][1..] == [];
    } else {
      assert (ids + [p])[1..] == ids[1..] + [p];
      IdentitiesAppend(ids[1..], p);
      Assoc(LP16(ids[0].name) + U32(ids[0].age), IdentityBytes(ids[1..]).buf, LP16(p.name) + U32(p.age));
      assert IdentityBytes(ids[1..] + [p]).buf == IdentityBytes(ids[1..]).buf + (LP16(p.name) + U32(p.age));
      assert IdentityBytes(ids).buf + LP16(p.name) + U32(p.age) == IdentityBytes(ids).buf + (LP16(p.name) + U32(p.age));
    }
  }

  method WriteIdentities(ids: seq<PskIdentity>) returns (b: Builder)
    ensures b == IdentityBytes(ids)
  {
    b := EMPTY;
    for i := 0 to |ids|
      invariant b == IdentityBytes(ids[..i])
    {
      IdentitiesAppend(ids[..i], ids[i]);
      assert ids[..i + 1] == ids[..i] + [ids[i]];
      b := b.AddLP16(Raw(ids[i].name)).Add(U32(ids[i].age));
    }
    assert ids[..|ids|] == ids;
  }

  // ----- Writing the extensions -----

  /** Appending slot `k` to the slots from `lo` on. */
  lemma Push(m: Hello, lo: nat, k: slot)
    requires lo <= k
    ensures ExtBytes(Exts(m, lo, k + 1)) ==
            var x := ExtBytes(Exts(m, lo, k));
            if Present(m, k) then x.Add(U16(SlotType(k))).AddLP16(Body(m, k)) else x
  {
    hide SlotType, Body, Present, U16, LP16, ExtBytes;
    ExtsSplit(m, lo, k, k + 1);
    assert Exts(m, k, k + 1) == SlotExts(m, k);
    if Present(m, k) {
      var e := Ext(SlotType(k), Body(m, k));
      ExtBytesConcat(Exts(m, lo, k), [e]);
      ExtBytesOne(e);
      Assoc(ExtBytes(Exts(m, lo, k)).buf, U16(e.typ), LP16(e.body.buf));
    } else {
      assert Exts(m, lo, k) + [] == Exts(m, lo, k);
    }
  }

  lemma NoSlots(m: Hello, k: nat)
    requires k <= SLOTS
    ensures ExtBytes(Exts(m, k, k)) == EMPTY
  {
    NoExts(m, k);
  }

  /** Appends one extension when it is to be sent. */
  method AddExt(ghost m: Hello, ghost lo: nat, ghost k: slot, x: Builder, send: bool, typ: u16, body: Builder)
    returns (y: Builder)
    requires lo <= k && x == ExtBytes(Exts(m, lo, k))
    requires send == Present(m, k) && (send ==> typ == SlotType(k) && body == Body(m, k))
    ensures y == ExtBytes(Exts(m, lo, k + 1))
  {
    Push(m, lo, k);
    y := if send then x.Add(U16(typ)).AddLP16(body) else x;
  }

  /** The extensions before the compressible ones; an inner hello leaves out those of TLS 1.2. */
  method WritePrefix(m: Hello, echInner: bool) returns (x: Builder)
    ensures x == ExtBytes(Exts(if echInner then Stripped(m) else m, 0, FIRST_COMPRESSIBLE))
  {
    hide Exts, ExtBytes, U16, LP8, LP16;
    ghost var n := if echInner then Stripped(m) else m;
    NoSlots(n, 0);
    x := EMPTY;
    x := AddExt(n, 0, 0, x, m.serverName != [], 0, EMPTY.AddLP16(Raw([0]).AddLP16(Raw(m.serverName))));
    x := AddExt(n, 0, 1, x, m.supportedPoints != [] && !echInner, 11, EMPTY.AddLP8(Raw(m.supportedPoints)));
    x := AddExt(n, 0, 2, x, m.ticketSupported && !echInner, 35, Raw(m.sessionTicket));
    x := AddExt(n, 0, 3, x, m.secureRenegotiationSupported && !echInner, 0xff01,
                EMPTY.AddLP8(Raw(m.secureRenegotiation)));
    x := AddExt(n, 0, 4, x, m.extendedMasterSecret && !echInner, 23, EMPTY);
    x := AddExt(n, 0, 5, x, m.scts, 18, EMPTY);
    x := AddExt(n, 0, 6, x, m.earlyData, 42, EMPTY);
    var quic := m.quicTransportParameters;
    x := AddExt(n, 0, 7, x, quic.Some?, 57, Raw(if quic.Some? then quic.value else []));
    x := AddExt(n, 0, 8, x, m.encryptedClientHello != [], ENCRYPTED_CLIENT_HELLO, Raw(m.encryptedClientHello));
  }

  /** The compressible extensions in full. */
  method WriteCompressible(m: Hello) returns (x: Builder)
    ensures x == ExtBytes(Compressible(m))
  {
    hide Exts, ExtBytes, U16, LP8, LP16, LPs, U16s, KeyShareBytes;
    NoSlots(m, 9);
    x := EMPTY;
    x := AddExt(m, 9, 9, x, m.ocspStapling, 5, Raw([1, 0, 0, 0, 0]));
    var l := WriteU16s(m.supportedCurves);
    x := AddExt(m, 9, 10, x, m.supportedCurves != [], 10, EMPTY.AddLP16(Raw(l)));
    l := WriteU16s(m.sigAlgs);
    x := AddExt(m, 9, 11, x, m.sigAlgs != [], 13, EMPTY.AddLP16(Raw(l)));
    l := WriteU16s(m.sigAlgsCert);
    x := AddExt(m, 9, 12, x, m.sigAlgsCert != [], 50, EMPTY.AddLP16(Raw(l)));
    var ps := WriteLP8s(m.alpnProtocols);
    x := AddExt(m, 9, 13, x, m.alpnProtocols != [], 16, EMPTY.AddLP16(ps));
    l := WriteU16s(m.supportedVersions);
    x := AddExt(m, 9, 14, x, m.supportedVersions != [], 43, EMPTY.AddLP8(Raw(l)));
    x := AddExt(m, 9, 15, x, m.cookie != [], 44, EMPTY.AddLP16(Raw(m.cookie)));
    var ks := WriteKeyShares(m.keyShares);
    x := AddExt(m, 9, 16, x, m.keyShares != [], 51, EMPTY.AddLP16(ks));
    x := AddExt(m, 9, 17, x, m.pskModes != [], 45, EMPTY.AddLP8(Raw(m.pskModes)));
  }

  /** The types of the compressible extensions, in the order they would have been written. */
  method CollectCompressible(m: Hello) returns (ts: seq<u16>)
    ensures ts == Types(Compressible(m))
  {
    hide Exts, Types, Body;
    NoExts(m, 9);
    ts := [];
    assert ts == Types(Exts(m, 9, 9)) by { assert Types([]) == []; }
    ts := AddType(m, 9, ts, m.ocspStapling, 5);
    ts := AddType(m, 10, ts, m.supportedCurves != [], 10);
    ts := AddType(m, 11, ts, m.sigAlgs != [], 13);
    ts := AddType(m, 12, ts, m.sigAlgsCert != [], 50);
    ts := AddType(m, 13, ts, m.alpnProtocols != [], 16);
    ts := AddType(m, 14, ts, m.supportedVersions != [], 43);
    ts := AddType(m, 15, ts, m.cookie != [], 44);
    ts := AddType(m, 16, ts, m.keyShares != [], 51);
    ts := AddType(m, 17, ts, m.pskModes != [], 45);
  }

  method AddType(ghost m: Hello, ghost k: slot, ts: seq<u16>, send: bool, typ: u16) returns (r: seq<u16>)
    requires 9 <= k && ts == Types(Exts(m, 9, k))
    requires send == Present(m, k) && (send ==> typ == SlotType(k))
    ensures r == Types(Exts(m, 9, k + 1))
  {
    hide Present, SlotType, Body;
    ExtsSplit(m, 9, k, k + 1);
    assert Exts(m, k, k + 1) == SlotExts(m, k);
    TypesConcat(Exts(m, 9, k), SlotExts(m, k));
    r := if send then ts + [typ] else ts;
    assert send ==> SlotExts(m, k)[1..] == [];
  }

  /** The pre_shared_key extension goes last, behind `x`. */
  method WritePsk(m: Hello, x: Builder) returns (y: Builder)
    ensures y == x.Append(ExtBytes(Exts(m, PSK_SLOT, SLOTS)))
  {
    hide Exts, ExtBytes, U16, LP16, IdentityBytes, LPs;
    NoSlots(m, PSK_SLOT);
    var ids := WriteIdentities(m.pskIdentities);
    var binders := WriteLP8s(m.pskBinders);
    var z := AddExt(m, PSK_SLOT, PSK_SLOT, EMPTY, m.pskIdentities != [], 41, EMPTY.AddLP16(ids).AddLP16(binders));
    y := x.Append(z);
  }

  // ----- Writing the message -----

  lemma AllExts(m: Hello)
    ensures ExtBytes(Exts(m, 0, SLOTS)) ==
            ExtBytes(Exts(m, 0, FIRST_COMPRESSIBLE)).Append(ExtBytes(Compressible(m)))
            .Append(ExtBytes(Exts(m, PSK_SLOT, SLOTS)))
  {
    hide Exts, ExtBytes;
    ExtsSplit(m, 0, FIRST_COMPRESSIBLE, SLOTS);
    ExtsSplit(m, FIRST_COMPRESSIBLE, PSK_SLOT, SLOTS);
    ExtBytesConcat(Exts(m, 0, FIRST_COMPRESSIBLE), Compressible(m) + Exts(m, PSK_SLOT, SLOTS));
    ExtBytesConcat(Compressible(m), Exts(m, PSK_SLOT, SLOTS));
    Assoc(ExtBytes(Exts(m, 0, FIRST_COMPRESSIBLE)).buf, ExtBytes(Compressible(m)).buf,
          ExtBytes(Exts(m, PSK_SLOT, SLOTS)).buf);
  }

  lemma AllInnerExts(m: Hello)
    ensures ExtBytes(InnerExts(m)) ==
            ExtBytes(Exts(Stripped(m), 0, FIRST_COMPRESSIBLE))
            .Append(ExtBytes(OuterExtensions(Types(Compressible(m)))))
            .Append(ExtBytes(Exts(m, PSK_SLOT, SLOTS)))
  {
    hide Exts, ExtBytes, OuterExtensions, Stripped, Types;
    var a := Exts(Stripped(m), 0, FIRST_COMPRESSIBLE);
    var b := OuterExtensions(Types(Compressible(m)));
    var c := Exts(m, PSK_SLOT, SLOTS);
    ExtBytesConcat(a, b + c);
    ExtBytesConcat(b, c);
    Assoc(ExtBytes(a).buf, ExtBytes(b).buf, ExtBytes(c).buf);
  }

  /** The whole extension block, in full or with the compressible part replaced by its types. */
  method WriteExts(m: Hello, echInner: bool) returns (x: Builder)
    ensures x == ExtBytes(if echInner then InnerExts(m) else Exts(m, 0, SLOTS))
  {
    hide Exts, ExtBytes, U16, LP8, LP16, Types, Compressible, InnerExts;
    x := WritePrefix(m, echInner);
    if echInner {
      var ts := CollectCompressible(m);
      if ts != [] {
        var l := WriteU16s(ts);
        var e := Ext(ECH_OUTER_EXTENSIONS, EMPTY.AddLP8(Raw(l)));
        ExtBytesOne(e);
        Assoc(x.buf, U16(e.typ), LP16(e.body.buf));
        x := x.Add(U16(ECH_OUTER_EXTENSIONS)).AddLP16(EMPTY.AddLP8(Raw(l)));
      } else {
        assert ExtBytes([]) == EMPTY by { NoSlots(m, 0); NoExts(m, 0); }
        assert x.Append(EMPTY) == x by { assert x.buf + [] == x.buf; }
      }
      AllInnerExts(m);
    } else {
      var c := WriteCompressible(m);
      x := x.Append(c);
      AllExts(m);
    }
    x := WritePsk(m, x);
  }

  /** Both forms of the message: the one for the wire and the compressed inner one. */
  method MarshalMsg(m: Hello, echInner: bool) returns (data: Option<bytes>)
    ensures data == if echInner then MarshalInner(m) else Marshal(m)
  {
    hide Exts, ExtBytes, InnerExts, U16, LP8, LP16, LP24, U16s;
    var x := WriteExts(m, echInner);
    if !x.ok {
      return None;
    }
    var b := Builder(U16(m.vers) + m.random, |m.random| == 32);
    b := b.AddLP8(Raw(if echInner then [] else m.sessionId));
    var suites := WriteU16s(m.cipherSuites);
    b := b.AddLP16(Raw(suites)).AddLP8(Raw(m.compressionMethods));
    if |x.buf| > 0 {
      b := b.AddLP16(Raw(x.buf));
    }
    data := Raw([TYPE_CLIENT_HELLO]).AddLP24(b).Result();
    assert x.buf == [] ==> b.Append(x) == b;
  }
}
