/**
 Reading back a ClientHello that was written: exactly which messages survive,
 and what the reader then reports.
 */
module HelloRoundTrip {
  import opened Bytes
  import opened ClientHello

  // ----- Which messages the reader accepts -----

  /** What the reader demands of the extension in slot `k`. */
  predicate SlotOk(m: Hello, k: slot)
  {
    match k
    case 0 => m.serverName != [] ==> m.serverName[|m.serverName| - 1] != DOT
    case 13 => [] !in m.alpnProtocols
    case 16 => SharesFilled(m.keyShares)
    case 18 =>
      m.pskIdentities != [] ==>
      && NamesFilled(m.pskIdentities) && m.pskBinders != [] && [] !in m.pskBinders
    case _ => true
  }

  predicate SharesFilled(ks: seq<KeyShare>)
  {
    forall i :: 0 <= i < |ks| ==> ks[i].data != []
  }

  predicate NamesFilled(ids: seq<PskIdentity>)
  {
    forall i :: 0 <= i < |ids| ==> ids[i].name != []
  }

  predicate Acceptable(m: Hello)
  {
    SlotOk(m, 0) && SlotOk(m, 13) && SlotOk(m, 16) && SlotOk(m, 18)
  }

  function Types(es: seq<Ext>): (r: seq<u16>)
    ensures |r| == |es|
  {
    if es == [] then [] else [es[0].typ] + Types(es[1..])
  }

  lemma {:induction false} TypesConcat(a: seq<Ext>, b: seq<Ext>)
    ensures Types(a + b) == Types(a) + Types(b)
  {
    if a == [] {
      assert a + b == b;
    } else {
      assert (a + b)[1..] == a[1..] + b;
      TypesConcat(a[1..], b);
    }
  }

  /** What the reader has learnt of `m` after the slots below `k`. */
  function Partial(m: Hello, data: bytes, k: nat): Hello
    requires k <= SLOTS
  {
    Hello(Some(data), m.vers, m.random, m.sessionId, m.cipherSuites, m.compressionMethods,
          if k > 0 then m.serverName else [],
          k > 9 && m.ocspStapling,
          if k > 10 then m.supportedCurves else [],
          if k > 1 then m.supportedPoints else [],
          k > 2 && m.ticketSupported,
          if k > 2 && m.ticketSupported then m.sessionTicket else [],
          if k > 11 then m.sigAlgs else [],
          if k > 12 then m.sigAlgsCert else [],
          SCSV_RENEGOTIATION in m.cipherSuites || (k > 3 && m.secureRenegotiationSupported),
          if k > 3 && m.secureRenegotiationSupported then m.secureRenegotiation else [],
          k > 4 && m.extendedMasterSecret,
          if k > 13 then m.alpnProtocols else [],
          k > 5 && m.scts,
          if k > 14 then m.supportedVersions else [],
          if k > 15 then m.cookie else [],
          if k > 16 then m.keyShares else [],
          k > 6 && m.earlyData,
          if k > 17 then m.pskModes else [],
          if k > 18 then m.pskIdentities else [],
          if k > 18 && m.pskIdentities != [] then m.pskBinders else [],
          if k > 7 then m.quicTransportParameters else None,
          if k > 8 then m.encryptedClientHello else [],
          Types(Exts(m, 0, k)))
  }

  // ----- One extension -----

  lemma OnlyBack(w: int, b: bytes)
    requires |b| < Limit(w)
    ensures Only(w, LP(w, b)) == Some(b)
  {
    ReadLPBack(w, b, []);
    assert LP(w, b) + [] == LP(w, b);
  }

  lemma OnlyU16sBack(w: int, ns: seq<u16>)
    requires ns != [] && |U16s(ns)| < Limit(w)
    ensures OnlyU16s(w, LP(w, U16s(ns))) == Some(ns)
  {
    OnlyBack(w, U16s(ns));
    ReadU16sBack(ns);
  }

  lemma ServerNameBack(name: bytes)
    requires name != [] && |name| < 0x1_0000
    ensures ReadNames([0] + LP16(name), []) == if name[|name| - 1] == DOT then None else Some(name)
  {
    var s := [0] + LP16(name);
    assert s[1..] == LP16(name) + [];
    ReadLP16Back(name, []);
  }

  lemma {:induction false} KeySharesBack(ks: seq<KeyShare>)
    requires KeyShareBytes(ks).ok
    ensures ReadKeyShares(KeyShareBytes(ks).buf) ==
            if SharesFilled(ks) then Some(ks) else None
  {
    hide U16, LP16, ReadU16, ReadLP16;
    if ks != [] {
      var t := KeyShareBytes(ks[1..]).buf;
      var s := KeyShareBytes(ks).buf;
      assert s == U16(ks[0].group) + (LP16(ks[0].data) + t);
      ReadU16Back(ks[0].group, LP16(ks[0].data) + t);
      ReadLP16Back(ks[0].data, t);
      KeySharesBack(ks[1..]);
      assert ks == [ks[0]] + ks[1..];
      if ks[0].data != [] && !SharesFilled(ks) {
        var i :| 0 <= i < |ks| && ks[i].data == [];
        assert ks[1..][i - 1].data == [];
      }
    }
  }

  lemma {:induction false} IdentitiesBack(ids: seq<PskIdentity>)
    requires IdentityBytes(ids).ok
    ensures ReadIdentities(IdentityBytes(ids).buf) ==
            if NamesFilled(ids) then Some(ids) else None
  {
    hide U32, LP16, ReadU32, ReadLP16;
    if ids != [] {
      var t := IdentityBytes(ids[1..]).buf;
      var s := IdentityBytes(ids).buf;
      assert s == LP16(ids[0].name) + (U32(ids[0].age) + t);
      ReadLP16Back(ids[0].name, U32(ids[0].age) + t);
      ReadU32Back(ids[0].age, t);
      IdentitiesBack(ids[1..]);
      assert ids == [ids[0]] + ids[1..];
      if ids[0].name != [] && !NamesFilled(ids) {
        var i :| 0 <= i < |ids| && ids[i].name == [];
        assert ids[1..][i - 1].name == [];
      }
    }
  }

  lemma PskBack(m: Hello, n: Hello)
    requires Present(m, 18) && Body(m, 18).ok && n.pskIdentities == [] && n.pskBinders == []
    ensures ApplyPsk(n, Body(m, 18).buf) ==
            if SlotOk(m, 18) then Some(n.(pskIdentities := m.pskIdentities, pskBinders := m.pskBinders))
            else None
  {
    var i, b := IdentityBytes(m.pskIdentities), LPs(1, m.pskBinders);
    assert Body(m, 18).buf == LP16(i.buf) + LP16(b.buf);
    assert i.buf != [];
    PskDataBack(m.pskIdentities, m.pskBinders, n);
  }

  lemma PskDataBack(ids: seq<PskIdentity>, bs: seq<bytes>, n: Hello)
    requires ids != [] && n.pskIdentities == [] && n.pskBinders == []
    requires IdentityBytes(ids).ok && |IdentityBytes(ids).buf| < 0x1_0000
    requires LPs(1, bs).ok && |LPs(1, bs).buf| < 0x1_0000
    ensures ApplyPsk(n, LP16(IdentityBytes(ids).buf) + LP16(LPs(1, bs).buf)) ==
            if NamesFilled(ids) && bs != [] && [] !in bs
            then Some(n.(pskIdentities := ids, pskBinders := bs)) else None
  {
    hide U32, ReadU32, ReadLP16;
    var i, b := IdentityBytes(ids).buf, LPs(1, bs).buf;
    ReadLP16Back(i, LP16(b));
    IdentitiesBack(ids);
    OnlyBack(2, b);
    assert LP(2, b) == LP16(b);
    ReadLPsBack(1, true, bs);
    assert n.pskIdentities + ids == ids && n.pskBinders + bs == bs;
    assert b == [] <==> bs == [];
    assert i != [];
  }

  predicate BodyFits(m: Hello, k: slot)
  {
    Body(m, k).ok && |Body(m, k).buf| < 0x1_0000
  }

  /** `Partial(m, data, k)` with the type of slot `k` already noted. */
  function Noted(m: Hello, data: bytes, k: slot): Hello
  {
    var n := Partial(m, data, k);
    n.(extensions := n.extensions + [SlotType(k)])
  }

  lemma NotedTypes(m: Hello, data: bytes, k: slot)
    ensures Types(Exts(m, 0, k + 1)) ==
            Types(Exts(m, 0, k)) + if Present(m, k) then [SlotType(k)] else []
  {
    hide SlotType, Body, Present;
    ExtsSplit(m, 0, k, k + 1);
    assert Exts(m, k + 1, k + 1) == [];
    assert Exts(m, k, k + 1) == SlotExts(m, k);
    TypesConcat(Exts(m, 0, k), SlotExts(m, k));
    assert SlotExts(m, k) != [] ==> SlotExts(m, k)[1..] == [];
  }

  /** The outcome expected of the extension in slot `k`. */
  predicate AppliedSlot(m: Hello, data: bytes, k: slot)
  {
    Apply(Noted(m, data, k), SlotType(k), Body(m, k).buf, k == PSK_SLOT) ==
    if SlotOk(m, k) then Some(Partial(m, data, k + 1)) else None
  }

  lemma LPsNonEmpty(w: int, bs: seq<bytes>)
    ensures LPs(w, bs).buf == [] <==> bs == []
  {
  }

  lemma StatusBack()
    ensures var data: bytes := [1, 0, 0, 0, 0];
            && ReadU8(data) == Got(1, [0, 0, 0, 0])
            && ReadLP16([0, 0, 0, 0]) == Got([], [0, 0])
            && Only(2, [0, 0]) == Some([])
  {
    var data: bytes := [1, 0, 0, 0, 0];
    assert data[1..] == [0, 0, 0, 0];
    assert LP16([]) == [0, 0];
    ReadLP16Back([], [0, 0]);
    assert LP16([]) + [0, 0] == [0, 0, 0, 0];
    OnlyBack(2, []);
  }

  /** Flags, and bodies taken as they are. */
  lemma BareSlot(m: Hello, data: bytes, k: slot)
    requires Present(m, k) && BodyFits(m, k) && k in {2, 4, 5, 6, 7, 8}
    ensures AppliedSlot(m, data, k)
  {
    hide Exts, Types, U16, U16s, LP8, LP16, ReadLP8, ReadLP16, ReadU16s, ReadLPs, ReadNames, ReadKeyShares,
         ApplyPsk, LPs, KeyShareBytes, IdentityBytes, SharesFilled, NamesFilled;
    NotedTypes(m, data, k);
  }

  /** One byte string behind its length. */
  lemma StringSlot(m: Hello, data: bytes, k: slot)
    requires Present(m, k) && BodyFits(m, k) && k in {1, 3, 15, 17}
    ensures AppliedSlot(m, data, k)
  {
    hide Exts, Types, U16, U16s, LP8, LP16, ReadLP8, ReadLP16, ReadU16s, ReadLPs, ReadNames, ReadKeyShares,
         ApplyPsk, LPs, KeyShareBytes, IdentityBytes, SharesFilled, NamesFilled;
    NotedTypes(m, data, k);
    match k
    case 1 =>
      assert Body(m, k).buf == LP(1, m.supportedPoints);
      OnlyBack(1, m.supportedPoints);
    case 3 =>
      assert Body(m, k).buf == LP(1, m.secureRenegotiation);
      OnlyBack(1, m.secureRenegotiation);
    case 15 =>
      assert Body(m, k).buf == LP(2, m.cookie);
      OnlyBack(2, m.cookie);
    case 17 =>
      assert Body(m, k).buf == LP(1, m.pskModes);
      OnlyBack(1, m.pskModes);
  }

  /** A list of 16-bit values. */
  lemma WordsSlot(m: Hello, data: bytes, k: slot)
    requires Present(m, k) && BodyFits(m, k) && k in {10, 11, 12, 14}
    ensures AppliedSlot(m, data, k)
  {
    hide Exts, Types, U16, U16s, LP8, LP16, ReadLP8, ReadLP16, ReadU16s, ReadLPs, ReadNames, ReadKeyShares,
         ApplyPsk, LPs, KeyShareBytes, IdentityBytes, SharesFilled, NamesFilled;
    NotedTypes(m, data, k);
    var n := Noted(m, data, k);
    match k
    case 10 =>
      assert Body(m, k).buf == LP(2, U16s(m.supportedCurves));
      OnlyU16sBack(2, m.supportedCurves);
      assert n.supportedCurves + m.supportedCurves == m.supportedCurves;
    case 11 =>
      assert Body(m, k).buf == LP(2, U16s(m.sigAlgs));
      OnlyU16sBack(2, m.sigAlgs);
      assert n.sigAlgs + m.sigAlgs == m.sigAlgs;
    case 12 =>
      assert Body(m, k).buf == LP(2, U16s(m.sigAlgsCert));
      OnlyU16sBack(2, m.sigAlgsCert);
      assert n.sigAlgsCert + m.sigAlgsCert == m.sigAlgsCert;
    case 14 =>
      assert Body(m, k).buf == LP(1, U16s(m.supportedVersions));
      OnlyU16sBack(1, m.supportedVersions);
      assert n.supportedVersions + m.supportedVersions == m.supportedVersions;
  }

  /** The server name and the status request. */
  lemma NameOrStatusSlot(m: Hello, data: bytes, k: slot)
    requires Present(m, k) && BodyFits(m, k) && k in {0, 9}
    ensures AppliedSlot(m, data, k)
  {
    hide Exts, Types, U16, U16s, LP8, LP16, ReadLP8, ReadLP16, ReadU16s, ReadLPs, ReadNames, ReadKeyShares,
         ApplyPsk, LPs, KeyShareBytes, IdentityBytes, SharesFilled, NamesFilled;
    NotedTypes(m, data, k);
    if k == 0 {
      var l := [0] + LP16(m.serverName);
      assert Body(m, k).buf == LP(2, l);
      OnlyBack(2, l);
      ServerNameBack(m.serverName);
    } else {
      StatusBack();
    }
  }

  /** Lists of protocols and key shares, and the pre-shared keys. */
  lemma ListSlot(m: Hello, data: bytes, k: slot)
    requires Present(m, k) && BodyFits(m, k) && k in {13, 16, 18}
    ensures AppliedSlot(m, data, k)
  {
    hide Exts, Types, U16, U16s, LP8, LP16, ReadLP8, ReadLP16, ReadU16s, ReadLPs, ReadNames, ReadKeyShares,
         ApplyPsk, LPs, KeyShareBytes, IdentityBytes, SharesFilled, NamesFilled;
    NotedTypes(m, data, k);
    match k
    case 13 =>
      assert Body(m, k).buf == LP(2, LPs(1, m.alpnProtocols).buf);
      OnlyBack(2, LPs(1, m.alpnProtocols).buf);
      LPsNonEmpty(1, m.alpnProtocols);
      ReadLPsBack(1, true, m.alpnProtocols);
      assert [] + m.alpnProtocols == m.alpnProtocols;
    case 16 =>
      assert Body(m, k).buf == LP(2, KeyShareBytes(m.keyShares).buf);
      OnlyBack(2, KeyShareBytes(m.keyShares).buf);
      KeySharesBack(m.keyShares);
      assert [] + m.keyShares == m.keyShares;
    case 18 => PskBack(m, Noted(m, data, k));
  }

  lemma ApplySlot(m: Hello, data: bytes, k: slot)
    requires Present(m, k) && BodyFits(m, k)
    ensures AppliedSlot(m, data, k)
  {
    hide AppliedSlot, Present, BodyFits;
    if k in {2, 4, 5, 6, 7, 8} {
      BareSlot(m, data, k);
    } else if k in {1, 3, 15, 17} {
      StringSlot(m, data, k);
    } else if k in {10, 11, 12, 14} {
      WordsSlot(m, data, k);
    } else if k in {0, 9} {
      NameOrStatusSlot(m, data, k);
    } else {
      ListSlot(m, data, k);
    }
  }

  // ----- The whole message -----

  lemma SlotTypesDistinct(j: slot, k: slot)
    requires SlotType(j) == SlotType(k)
    ensures j == k
  {
  }

  predicate AllSlotsOk(m: Hello, k: nat)
    requires k <= SLOTS
    decreases SLOTS - k
  {
    k == SLOTS || ((Present(m, k) ==> SlotOk(m, k)) && AllSlotsOk(m, k + 1))
  }

  lemma AllSlotsOkIsAcceptable(m: Hello)
    ensures AllSlotsOk(m, 0) <==> Acceptable(m)
  {
    hide NamesFilled;
    assert AllSlotsOk(m, 0) <==> SlotOk(m, 0) && AllSlotsOk(m, 5);
    assert AllSlotsOk(m, 5) <==> AllSlotsOk(m, 9);
    assert AllSlotsOk(m, 9) <==> AllSlotsOk(m, 13);
    assert AllSlotsOk(m, 13) <==> SlotOk(m, 13) && AllSlotsOk(m, 16);
    assert AllSlotsOk(m, 16) <==> SlotOk(m, 16) && SlotOk(m, 18);
  }

  predicate SeenBelow(seen: set<u16>, k: nat)
  {
    forall j: slot :: k <= j ==> SlotType(j) !in seen
  }

  lemma AbsentSlot(m: Hello, data: bytes, k: slot)
    requires !Present(m, k)
    ensures Exts(m, k, SLOTS) == Exts(m, k + 1, SLOTS)
    ensures Partial(m, data, k + 1) == Partial(m, data, k)
  {
    hide Body, Types, Partial;
    AbsentPartial(m, data, k);
    assert SlotExts(m, k) == [];
    assert [] + Exts(m, k + 1, SLOTS) == Exts(m, k + 1, SLOTS);
  }

  lemma AbsentPartial(m: Hello, data: bytes, k: slot)
    requires !Present(m, k)
    ensures Partial(m, data, k + 1) == Partial(m, data, k)
  {
    hide Body, Types, Exts, SlotType, SlotExts;
    NotedTypes(m, data, k);
    assert Types(Exts(m, 0, k)) + [] == Types(Exts(m, 0, k));
  }

  lemma ApplyLast(n: Hello, k: slot, data: bytes, last: bool)
    requires k != PSK_SLOT
    ensures Apply(n, SlotType(k), data, last) == Apply(n, SlotType(k), data, false)
  {
    hide Only, OnlyU16s, ReadNames, ReadKeyShares, ApplyPsk, ReadLPs, ReadLP16, ReadU8;
  }

  lemma PresentSlot(m: Hello, data: bytes, k: slot, seen: set<u16>)
    requires Present(m, k) && ExtBytes(Exts(m, k, SLOTS)).ok && SeenBelow(seen, k)
    ensures ExtBytes(Exts(m, k + 1, SLOTS)).ok && SeenBelow(seen + {SlotType(k)}, k + 1)
    ensures ReadExts(ExtBytes(Exts(m, k, SLOTS)).buf, seen, Partial(m, data, k)) ==
            if SlotOk(m, k) then
              ReadExts(ExtBytes(Exts(m, k + 1, SLOTS)).buf, seen + {SlotType(k)}, Partial(m, data, k + 1))
            else None
  {
    hide Body, Present, Apply, SlotOk, Partial, SlotType, U16, LP16, ReadU16, ReadLP16;
    var e := Ext(SlotType(k), Body(m, k));
    var es := Exts(m, k + 1, SLOTS);
    assert Exts(m, k, SLOTS) == [e] + es && ([e] + es)[1..] == es;
    var t := ExtBytes(es).buf;
    var s := ExtBytes(Exts(m, k, SLOTS)).buf;
    assert s == U16(e.typ) + (LP16(e.body.buf) + t);
    ReadU16Back(e.typ, LP16(e.body.buf) + t);
    ReadLP16Back(e.body.buf, t);
    ApplySlot(m, data, k);
    if k == PSK_SLOT {
      assert t == [];
    } else {
      ApplyLast(Noted(m, data, k), k, e.body.buf, t == []);
    }
    forall j: slot | k + 1 <= j ensures SlotType(j) !in seen + {SlotType(k)} {
      if SlotType(j) == SlotType(k) { SlotTypesDistinct(j, k); }
    }
  }

  lemma {:induction false} ReadExtsBack(m: Hello, data: bytes, k: nat, seen: set<u16>)
    requires k <= SLOTS && ExtBytes(Exts(m, k, SLOTS)).ok && SeenBelow(seen, k)
    ensures ReadExts(ExtBytes(Exts(m, k, SLOTS)).buf, seen, Partial(m, data, k)) ==
            if AllSlotsOk(m, k) then Some(Partial(m, data, SLOTS)) else None
    decreases SLOTS - k
  {
    if k < SLOTS {
      if !Present(m, k) {
        AbsentSlot(m, data, k);
        ReadExtsBack(m, data, k + 1, seen);
      } else {
        PresentSlot(m, data, k, seen);
        ReadExtsBack(m, data, k + 1, seen + {SlotType(k)});
      }
    }
  }

  /** What the reader reports of a message written from `m`. */
  function Reported(m: Hello, data: bytes): Hello
  {
    m.(original := Some(data),
       extensions := Types(Exts(m, 0, SLOTS)),
       sessionTicket := if m.ticketSupported then m.sessionTicket else [],
       secureRenegotiation := if m.secureRenegotiationSupported then m.secureRenegotiation else [],
       secureRenegotiationSupported := m.secureRenegotiationSupported || SCSV_RENEGOTIATION in m.cipherSuites,
       pskBinders := if m.pskIdentities != [] then m.pskBinders else [])
  }

  lemma PreambleBack(m: Hello, sid: bytes, t: bytes, data: bytes)
    requires Preamble(m, sid).ok && |data| >= 4 && data[4..] == Preamble(m, sid).buf + t
    ensures Unmarshal(data) ==
            var n := Start(data, m.vers, m.random, sid, m.cipherSuites, m.compressionMethods);
            if t == [] then Some(n) else
            var x := Only(2, t);
            if x.None? then None else ReadExts(x.value, {}, n)
  {
    hide U16, LP8, LP16, ReadU16, ReadLP8, ReadLP16, ReadU16s, U16s, Only, ReadExts, Start;
    var c := LP8(m.compressionMethods) + t;
    var b := LP16(U16s(m.cipherSuites)) + c;
    var a := LP8(sid) + b;
    assert data[4..] == U16(m.vers) + (m.random + a);
    ReadU16Back(m.vers, m.random + a);
    ReadNBack(m.random, a);
    ReadLP8Back(sid, b);
    ReadLP16Back(U16s(m.cipherSuites), c);
    ReadU16sBack(m.cipherSuites);
    ReadLP8Back(m.compressionMethods, t);
  }

  /**
   A message that could be written is accepted by the reader exactly when it
   is acceptable, and then every field comes back.
   */
  lemma MarshalUnmarshal(m: Hello)
    requires Marshal(m).Some?
    ensures var data := Marshal(m).value;
            Unmarshal(data) == if Acceptable(m) then Some(Reported(m, data)) else None
  {
    hide Exts, Preamble, Unmarshal, ExtBytes, ReadExts, Acceptable, AllSlotsOk;
    var data := Marshal(m).value;
    var es := Exts(m, 0, SLOTS);
    var x, p := ExtBytes(es), Preamble(m, m.sessionId);
    var t := if x.buf == [] then [] else LP16(x.buf);
    assert data[4..] == p.buf + t;
    PreambleBack(m, m.sessionId, t, data);
    if x.buf != [] {
      OnlyBack(2, x.buf);
      assert LP(2, x.buf) == LP16(x.buf);
    }
    StartIsPartial(m, data);
    ReadExtsBack(m, data, 0, {});
    ReadExtsNone(Start(data, m.vers, m.random, m.sessionId, m.cipherSuites, m.compressionMethods));
    AllSlotsOkIsAcceptable(m);
    assert Partial(m, data, SLOTS) == Reported(m, data);
  }

  lemma ReadExtsNone(n: Hello)
    ensures ReadExts([], {}, n) == Some(n)
  {
  }

  lemma StartIsPartial(m: Hello, data: bytes)
    ensures Start(data, m.vers, m.random, m.sessionId, m.cipherSuites, m.compressionMethods) ==
            Partial(m, data, 0)
  {
    assert Exts(m, 0, 0) == [];
  }
}
