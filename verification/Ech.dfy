/**
 Encrypted ClientHello: how the inner hello is compressed against the outer one
 and padded, and how the server rebuilds it from the outer hello's extensions.
 */
module Ech {
  import opened Bytes
  import opened Versions
  import opened ClientHello
  import opened HelloRoundTrip

  // ----- Encoding the inner hello -----

  /** The inner hello without the TLS 1.2 fields that its encoding never carries. */
  function Stripped(m: Hello): Hello
  {
    m.(supportedPoints := [], ticketSupported := false, secureRenegotiationSupported := false,
       extendedMasterSecret := false)
  }

  function Compressible(m: Hello): seq<Ext>
  {
    Exts(m, FIRST_COMPRESSIBLE, PSK_SLOT)
  }

  /** The extension that names, in order, the outer extensions to copy. */
  function OuterExtensions(types: seq<u16>): seq<Ext>
  {
    if types == [] then [] else [Ext(ECH_OUTER_EXTENSIONS, EMPTY.AddLP8(Raw(U16s(types))))]
  }

  function InnerExts(m: Hello): seq<Ext>
  {
    Exts(Stripped(m), 0, FIRST_COMPRESSIBLE)
    + (OuterExtensions(Types(Compressible(m))) + Exts(m, PSK_SLOT, SLOTS))
  }

  function MarshalInner(m: Hello): Option<bytes>
  {
    Message(m, [], InnerExts(m)).Result()
  }

  function Zeros(n: nat): (r: bytes)
    ensures |r| == n && forall i :: 0 <= i < n ==> r[i] == 0
  {
    seq(n, i => 0)
  }

  /** The padding that the draft puts behind the name, so that all names up to the maximum look alike. */
  function NamePadding(m: Hello, maxNameLength: byte): nat
  {
    if m.serverName != [] then (if maxNameLength > |m.serverName| then maxNameLength - |m.serverName| else 0)
    else maxNameLength as int + 9
  }

  /** The number of padding bytes behind `h` encoded bytes. */
  function PaddingLen(m: Hello, h: nat, maxNameLength: byte): int
    requires h > 0
  {
    31 - (h + NamePadding(m, maxNameLength) - 1) % 32
  }

  function EncodeInner(m: Hello, maxNameLength: byte): Option<bytes>
  {
    var h := MarshalInner(m);
    if h.None? then None else
    Some(h.value[4..] + Zeros(PaddingLen(m, |h.value| - 4, maxNameLength)))
  }

  // ----- Decoding -----

  datatype RawExt = RawExt(typ: u16, data: bytes)

  datatype DecodeError = InnerMalformed | OuterMalformed | OuterExtsInvalid | TooLong
                       | RebuiltMalformed | EchExtInvalid | VersionsIncompatible

  datatype Decoded<+T> = Ok(value: T) | Err(error: DecodeError)

  function ReadRawExts(s: bytes): (r: Option<seq<RawExt>>)
    ensures s == [] ==> r == Some([])
    decreases |s|
  {
    if s == [] then Some([]) else
    var t := ReadU16(s);
    if t.Short? then None else
    var d := ReadLP16(t.rest);
    if d.Short? then None else
    var r := ReadRawExts(d.rest);
    if r.None? then None else Some([RawExt(t.value, d.value)] + r.value)
  }

  /** The extensions of a received hello, in wire order. */
  function RawExtensions(original: bytes): Option<seq<RawExt>>
  {
    var h := ReadN(original, 4 + 2 + 32);
    if h.Short? then None else
    var sid := ReadLP8(h.rest);
    if sid.Short? then None else
    var cs := ReadLP16(sid.rest);
    if cs.Short? then None else
    var comp := ReadLP8(cs.rest);
    if comp.Short? then None else
    var x := ReadLP16(comp.rest);
    if x.Short? then None else ReadRawExts(x.value)
  }

  /** The first index from `i` on whose extension has type `t`, or `|raw|`. */
  function Find(raw: seq<RawExt>, t: u16, i: nat): (j: nat)
    requires i <= |raw|
    ensures i <= j <= |raw|
    decreases |raw| - i
  {
    if i == |raw| || raw[i].typ == t then i else Find(raw, t, i + 1)
  }

  /** Copies the outer extensions named in `s`, scanning forward only. */
  function CopyOuter(s: bytes, raw: seq<RawExt>, i: nat): Decoded<bytes>
    requires i <= |raw|
    decreases |s|
  {
    if s == [] then Ok([]) else
    var t := ReadU16(s);
    if t.Short? then Err(InnerMalformed) else
    if t.value == ENCRYPTED_CLIENT_HELLO then Err(OuterExtsInvalid) else
    var j := Find(raw, t.value, i);
    if j == |raw| then Err(OuterExtsInvalid) else
    var r := CopyOuter(t.rest, raw, j);
    if r.Err? then r else Ok(U16(raw[j].typ) + LP16(raw[j].data) + r.value)
  }

  /** The extension block with every list of outer extensions expanded. */
  function Expand(s: bytes, raw: seq<RawExt>): Decoded<bytes>
    decreases |s|
  {
    if s == [] then Ok([]) else
    var t := ReadU16(s);
    if t.Short? then Err(InnerMalformed) else
    var d := ReadLP16(t.rest);
    if d.Short? then Err(InnerMalformed) else
    var e := ExpandOne(t.value, d.value, raw);
    if e.Err? then e else
    var r := Expand(d.rest, raw);
    if r.Err? then r else Ok(e.value + r.value)
  }

  function ExpandOne(typ: u16, data: bytes, raw: seq<RawExt>): Decoded<bytes>
  {
    if typ != ECH_OUTER_EXTENSIONS then Ok(U16(typ) + LP16(data)) else
    var l := ReadLP8(data);
    if l.Short? then Err(InnerMalformed) else CopyOuter(l.value, raw, 0)
  }

  /** The hello message around already encoded parts; the extension block is always written. */
  function Rebuild(versionAndRandom: bytes, sid: bytes, suites: bytes, comp: bytes, exts: bytes): Option<bytes>
  {
    var b := Raw(versionAndRandom).AddLP8(Raw(sid)).AddLP16(Raw(suites)).AddLP8(Raw(comp)).AddLP16(Raw(exts));
    Raw([TYPE_CLIENT_HELLO]).AddLP24(b).Result()
  }

  function DecodeInner(outer: Hello, encoded: bytes): Decoded<Hello>
  {
    var vr := ReadN(encoded, 2 + 32);
    if vr.Short? then Err(InnerMalformed) else
    var sid := ReadLP8(vr.rest);
    if sid.Short? || sid.value != [] then Err(InnerMalformed) else
    var cs := ReadLP16(sid.rest);
    if cs.Short? then Err(InnerMalformed) else
    var comp := ReadLP8(cs.rest);
    if comp.Short? then Err(InnerMalformed) else
    var x := ReadLP16(comp.rest);
    if x.Short? || x.rest != Zeros(|x.rest|) then Err(InnerMalformed) else
    var raw := RawExtensions(if outer.original.Some? then outer.original.value else []);
    if raw.None? then Err(OuterMalformed) else
    var exts := Expand(x.value, raw.value);
    if exts.Err? then Err(exts.error) else
    Accept(Rebuild(vr.value, outer.sessionId, cs.value, comp.value, exts.value))
  }

  /** The checks made on the rebuilt message. */
  function Accept(rebuilt: Option<bytes>): Decoded<Hello>
  {
    if rebuilt.None? then Err(TooLong) else
    var inner := Unmarshal(rebuilt.value);
    if inner.None? then Err(RebuiltMalformed) else
    if inner.value.encryptedClientHello != [1] then Err(EchExtInvalid) else
    if inner.value.supportedVersions != [VERSION_TLS13] then Err(VersionsIncompatible) else
    Ok(inner.value)
  }

  /** Whatever is decoded, only a hello for TLS 1.3 alone that is marked as an inner one comes out. */
  lemma DecodedIsInner(outer: Hello, encoded: bytes)
    ensures DecodeInner(outer, encoded).Ok? ==>
              var inner := DecodeInner(outer, encoded).value;
              inner.encryptedClientHello == [1] && inner.supportedVersions == [VERSION_TLS13]
  {
    hide ReadN, ReadLP8, ReadLP16, Zeros, RawExtensions, Expand, Rebuild, Unmarshal;
  }

  // ----- What the decoder rebuilds -----

  /** Every extension that the encoding leaves to the outer hello is there. */
  predicate Covers(outer: Hello, inner: Hello)
  {
    CoversFrom(outer, inner, FIRST_COMPRESSIBLE)
  }

  predicate CoversFrom(outer: Hello, inner: Hello, k: nat)
  {
    forall j: slot :: k <= j < PSK_SLOT && Present(inner, j) ==> Present(outer, j)
  }

  /** The inner hello with its compressible extensions replaced by the outer ones. */
  function Mixed(inner: Hello, outer: Hello): Hello
  {
    inner.(sessionId := outer.sessionId,
           supportedCurves := if inner.supportedCurves != [] then outer.supportedCurves else [],
           sigAlgs := if inner.sigAlgs != [] then outer.sigAlgs else [],
           sigAlgsCert := if inner.sigAlgsCert != [] then outer.sigAlgsCert else [],
           alpnProtocols := if inner.alpnProtocols != [] then outer.alpnProtocols else [],
           supportedVersions := if inner.supportedVersions != [] then outer.supportedVersions else [],
           cookie := if inner.cookie != [] then outer.cookie else [],
           keyShares := if inner.keyShares != [] then outer.keyShares else [],
           pskModes := if inner.pskModes != [] then outer.pskModes else [])
  }

  /** The outer hello carries the inner hello's session id and compressible extensions. */
  predicate Agrees(outer: Hello, inner: Hello)
  {
    Covers(outer, inner) && Mixed(inner, outer) == inner
  }

  // ----- Raw extensions of a written hello -----

  function RawOf(es: seq<Ext>): (r: seq<RawExt>)
    ensures |r| == |es|
    ensures forall i :: 0 <= i < |es| ==> r[i] == RawExt(es[i].typ, es[i].body.buf)
  {
    seq(|es|, i requires 0 <= i < |es| => RawExt(es[i].typ, es[i].body.buf))
  }

  lemma {:induction false} ReadRawExtsBack(es: seq<Ext>)
    requires ExtBytes(es).ok
    ensures ReadRawExts(ExtBytes(es).buf) == Some(RawOf(es))
  {
    hide U16, LP16, ReadU16, ReadLP16;
    if es != [] {
      var t := ExtBytes(es[1..]).buf;
      var s := ExtBytes(es).buf;
      assert s == U16(es[0].typ) + (LP16(es[0].body.buf) + t);
      ReadU16Back(es[0].typ, LP16(es[0].body.buf) + t);
      ReadLP16Back(es[0].body.buf, t);
      ReadRawExtsBack(es[1..]);
      assert RawOf(es) == [RawExt(es[0].typ, es[0].body.buf)] + RawOf(es[1..]);
    }
  }

  lemma RawExtensionsBack(m: Hello)
    requires Marshal(m).Some? && Exts(m, 0, SLOTS) != []
    ensures RawExtensions(Marshal(m).value) == Some(RawOf(Exts(m, 0, SLOTS)))
  {
    hide Exts, RawOf, ReadRawExts, U16s, U16, U24, LP8, LP16, ReadLP8, ReadLP16;
    var data := Marshal(m).value;
    var es := Exts(m, 0, SLOTS);
    var x, p := ExtBytes(es), Preamble(m, m.sessionId);
    assert ExtBytes(es).buf != [];
    var c := LP16(x.buf) + [];
    var b := LP8(m.compressionMethods) + c;
    var a := LP16(U16s(m.cipherSuites)) + b;
    var head := [TYPE_CLIENT_HELLO] + U24(|p.buf + LP16(x.buf)|) + U16(m.vers) + m.random;
    assert data == head + (LP8(m.sessionId) + a);
    ReadNBack(head, LP8(m.sessionId) + a);
    ReadLP8Back(m.sessionId, a);
    ReadLP16Back(U16s(m.cipherSuites), b);
    ReadLP8Back(m.compressionMethods, c);
    ReadLP16Back(x.buf, []);
    ReadRawExtsBack(es);
  }

  // ----- The forward scan finds each slot -----

  lemma {:induction false} FindAt(raw: seq<RawExt>, t: u16, i: nat, j: nat)
    requires i <= j <= |raw| && (j == |raw| || raw[j].typ == t)
    requires forall x :: i <= x < j ==> raw[x].typ != t
    ensures Find(raw, t, i) == j
    decreases j - i
  {
    if i < j { FindAt(raw, t, i + 1, j); }
  }

  lemma {:induction false} NoSuchType(m: Hello, lo: nat, hi: nat, t: u16)
    requires lo <= hi <= SLOTS && forall k: slot :: lo <= k < hi ==> SlotType(k) != t
    ensures forall x :: 0 <= x < |Exts(m, lo, hi)| ==> Exts(m, lo, hi)[x].typ != t
    decreases hi - lo
  {
    hide SlotType, Body, Present;
    if lo < hi {
      NoSuchType(m, lo + 1, hi, t);
      assert SlotType(lo) != t;
    }
  }

  /** Scanning from where slot `at` starts finds slot `k`, or nothing when it is absent. */
  lemma FindSlot(m: Hello, at: nat, k: slot)
    requires at <= k
    ensures |Exts(m, 0, at)| <= |Exts(m, 0, k)| <= |Exts(m, 0, SLOTS)|
    ensures var es := Exts(m, 0, SLOTS);
            Find(RawOf(es), SlotType(k), |Exts(m, 0, at)|) ==
            if Present(m, k) then |Exts(m, 0, k)| else |es|
    ensures Present(m, k) ==>
              |Exts(m, 0, k)| < |Exts(m, 0, SLOTS)| &&
              Exts(m, 0, SLOTS)[|Exts(m, 0, k)|] == Ext(SlotType(k), Body(m, k))
  {
    hide SlotType, Body, Present, Find, RawOf;
    var t := SlotType(k);
    var before, between, after := Exts(m, 0, at), Exts(m, at, k), Exts(m, k + 1, SLOTS);
    ExtsSplit(m, 0, at, k);
    ExtsSplit(m, 0, k, SLOTS);
    assert Exts(m, k, SLOTS) == SlotExts(m, k) + after;
    assert Exts(m, 0, SLOTS) == before + between + SlotExts(m, k) + after;
    forall j: slot | j != k ensures SlotType(j) != t {
      if SlotType(j) == t { SlotTypesDistinct(j, k); }
    }
    NoSuchType(m, at, k, t);
    NoSuchType(m, k + 1, SLOTS, t);
    FindInParts(before, between, SlotExts(m, k), after, t);
  }

  lemma FindInParts(before: seq<Ext>, between: seq<Ext>, mid: seq<Ext>, after: seq<Ext>, t: u16)
    requires forall x :: 0 <= x < |between| ==> between[x].typ != t
    requires forall x :: 0 <= x < |after| ==> after[x].typ != t
    requires mid == [] || (|mid| == 1 && mid[0].typ == t)
    ensures var es := before + between + mid + after;
            Find(RawOf(es), t, |before|) == if mid != [] then |before| + |between| else |es|
  {
    hide Find;
    var es := before + between + mid + after;
    var i := |before|;
    var j := if mid != [] then |before| + |between| else |es|;
    forall x | i <= x < j ensures RawOf(es)[x].typ != t {
      if x < |before| + |between| {
        assert es[x] == between[x - i];
      } else {
        assert es[x] == after[x - |before| - |between|];
      }
    }
    FindAt(RawOf(es), t, i, j);
  }

  lemma MixedSlot(inner: Hello, outer: Hello, k: slot)
    requires FIRST_COMPRESSIBLE <= k < PSK_SLOT
    ensures !Present(inner, k) ==> !Present(Mixed(inner, outer), k)
    ensures Present(inner, k) && Present(outer, k) ==>
              Present(Mixed(inner, outer), k) && Body(Mixed(inner, outer), k) == Body(outer, k)
  {
    hide LPs, U16s, KeyShareBytes, IdentityBytes, LP8, LP16;
    var mixed := Mixed(inner, outer);
    match k {
      case 9 => assert Present(inner, 9) && Present(outer, 9) ==> Present(mixed, 9) && Body(mixed, 9) == Body(outer, 9);
      case 10 => assert Present(inner, 10) && Present(outer, 10) ==> Present(mixed, 10) && Body(mixed, 10) == Body(outer, 10);
      case 11 => assert Present(inner, 11) && Present(outer, 11) ==> Present(mixed, 11) && Body(mixed, 11) == Body(outer, 11);
      case 12 => assert Present(inner, 12) && Present(outer, 12) ==> Present(mixed, 12) && Body(mixed, 12) == Body(outer, 12);
      case 13 => assert Present(inner, 13) && Present(outer, 13) ==> Present(mixed, 13) && Body(mixed, 13) == Body(outer, 13);
      case 14 => assert Present(inner, 14) && Present(outer, 14) ==> Present(mixed, 14) && Body(mixed, 14) == Body(outer, 14);
      case 15 => assert Present(inner, 15) && Present(outer, 15) ==> Present(mixed, 15) && Body(mixed, 15) == Body(outer, 15);
      case 16 => assert Present(inner, 16) && Present(outer, 16) ==> Present(mixed, 16) && Body(mixed, 16) == Body(outer, 16);
      case _ => assert Present(inner, 17) && Present(outer, 17) ==> Present(mixed, 17) && Body(mixed, 17) == Body(outer, 17);
    }
  }

  /**
   Scanning for the inner hello's compressed types from slot `k` on copies the
   outer hello's extensions of those types, and fails exactly when one is missing.
   */
  lemma {:induction false} CopySlots(inner: Hello, outer: Hello, k: nat, at: nat)
    requires FIRST_COMPRESSIBLE <= k <= PSK_SLOT && at <= k
    ensures |Exts(outer, 0, at)| <= |Exts(outer, 0, SLOTS)|
    ensures CopyOuter(U16s(Types(Exts(inner, k, PSK_SLOT))), RawOf(Exts(outer, 0, SLOTS)), |Exts(outer, 0, at)|) ==
            if CoversFrom(outer, inner, k) then Ok(ExtBytes(Exts(Mixed(inner, outer), k, PSK_SLOT)).buf)
            else Err(OuterExtsInvalid)
    decreases PSK_SLOT - k
  {
    hide SlotType, Body, Present, Find, Mixed, U16, LP16, ReadU16, Exts, RawOf, U16s, Types, CopyOuter, ExtBytes;
    ExtsSplit(outer, 0, at, SLOTS);
    if k == PSK_SLOT {
      NoExts(inner, k);
      NoExts(Mixed(inner, outer), k);
      CopyNothing(RawOf(Exts(outer, 0, SLOTS)), |Exts(outer, 0, at)|);
    } else if !Present(inner, k) {
      CopySlots(inner, outer, k + 1, at);
      CopyAbsent(inner, outer, k);
      assert CoversFrom(outer, inner, k) == CoversFrom(outer, inner, k + 1);
    } else {
      FindSlot(outer, at, k);
      CopySlots(inner, outer, k + 1, k);
      CopyPresent(inner, outer, k, at);
      if Present(outer, k) {
        assert CoversFrom(outer, inner, k) == CoversFrom(outer, inner, k + 1);
      }
    }
  }

  lemma CopyNothing(raw: seq<RawExt>, i: nat)
    requires i <= |raw|
    ensures CopyOuter(U16s(Types([])), raw, i) == Ok([]) && ExtBytes([]).buf == []
  {
  }

  lemma CopyAbsent(inner: Hello, outer: Hello, k: slot)
    requires FIRST_COMPRESSIBLE <= k < PSK_SLOT && !Present(inner, k)
    ensures Exts(inner, k, PSK_SLOT) == Exts(inner, k + 1, PSK_SLOT)
    ensures Exts(Mixed(inner, outer), k, PSK_SLOT) == Exts(Mixed(inner, outer), k + 1, PSK_SLOT)
  {
    hide SlotType, Body, Present, Mixed;
    MixedSlot(inner, outer, k);
  }

  /** One step of the scan, for an extension named in the inner hello. */
  lemma CopyPresent(inner: Hello, outer: Hello, k: slot, at: nat)
    requires FIRST_COMPRESSIBLE <= k < PSK_SLOT && at <= k && Present(inner, k)
    requires |Exts(outer, 0, at)| <= |Exts(outer, 0, k)| <= |Exts(outer, 0, SLOTS)|
    ensures var raw := RawOf(Exts(outer, 0, SLOTS));
            var r := CopyOuter(U16s(Types(Exts(inner, k + 1, PSK_SLOT))), raw, |Exts(outer, 0, k)|);
            var mixed := Mixed(inner, outer);
            CopyOuter(U16s(Types(Exts(inner, k, PSK_SLOT))), raw, |Exts(outer, 0, at)|) ==
            if !Present(outer, k) then Err(OuterExtsInvalid) else if r.Err? then r else
            Ok(U16(SlotType(k)) + LP16(Body(outer, k).buf) + r.value)
    ensures Present(outer, k) ==>
              ExtBytes(Exts(Mixed(inner, outer), k, PSK_SLOT)).buf ==
              U16(SlotType(k)) + LP16(Body(outer, k).buf) + ExtBytes(Exts(Mixed(inner, outer), k + 1, PSK_SLOT)).buf
  {
    hide Present, Find, U16, LP16, ReadU16, U16s, Types;
    CopyHead(inner, k);
    ReadU16Back(SlotType(k), U16s(Types(Exts(inner, k + 1, PSK_SLOT))));
    FindSlot(outer, at, k);
    if Present(outer, k) {
      MixedSlot(inner, outer, k);
      var e := Ext(SlotType(k), Body(outer, k));
      var es := Exts(Mixed(inner, outer), k + 1, PSK_SLOT);
      assert Exts(Mixed(inner, outer), k, PSK_SLOT) == [e] + es;
      assert ([e] + es)[1..] == es;
    }
  }

  /** The named types start with that of slot `k`, which is not encrypted_client_hello. */
  lemma CopyHead(inner: Hello, k: slot)
    requires FIRST_COMPRESSIBLE <= k < PSK_SLOT && Present(inner, k)
    ensures U16s(Types(Exts(inner, k, PSK_SLOT))) ==
            U16(SlotType(k)) + U16s(Types(Exts(inner, k + 1, PSK_SLOT)))
    ensures SlotType(k) != ENCRYPTED_CLIENT_HELLO
  {
    hide Body, Present, U16;
    var e := Ext(SlotType(k), Body(inner, k));
    var es := Exts(inner, k + 1, PSK_SLOT);
    assert Exts(inner, k, PSK_SLOT) == [e] + es && ([e] + es)[1..] == es;
    assert Types([e] + es) == [e.typ] + Types(es);
    assert ([e.typ] + Types(es))[1..] == Types(es);
  }

  // ----- Expanding the extension block -----

  lemma ExpandHead(e: Ext, es: seq<Ext>, raw: seq<RawExt>)
    requires ExtBytes([e] + es).ok
    ensures ExtBytes(es).ok
    ensures Expand(ExtBytes([e] + es).buf, raw) ==
            var h := ExpandOne(e.typ, e.body.buf, raw);
            if h.Err? then h else
            var r := Expand(ExtBytes(es).buf, raw);
            if r.Err? then r else Ok(h.value + r.value)
  {
    hide ExpandOne, U16, LP16, ReadU16, ReadLP16;
    assert ([e] + es)[1..] == es;
    var t := ExtBytes(es).buf;
    var s := ExtBytes([e] + es).buf;
    assert s == U16(e.typ) + (LP16(e.body.buf) + t);
    ReadU16Back(e.typ, LP16(e.body.buf) + t);
    ReadLP16Back(e.body.buf, t);
  }

  lemma {:induction false} ExpandPlain(a: seq<Ext>, es: seq<Ext>, raw: seq<RawExt>)
    requires ExtBytes(a + es).ok
    requires forall x :: 0 <= x < |a| ==> a[x].typ != ECH_OUTER_EXTENSIONS
    ensures ExtBytes(es).ok
    ensures Expand(ExtBytes(a + es).buf, raw) ==
            var r := Expand(ExtBytes(es).buf, raw);
            if r.Err? then r else Ok(ExtBytes(a).buf + r.value)
  {
    hide U16, LP16, Expand;
    if a == [] {
      assert a + es == es;
      var r := Expand(ExtBytes(es).buf, raw);
      assert r.Ok? ==> [] + r.value == r.value;
    } else {
      assert a + es == [a[0]] + (a[1..] + es);
      ExpandHead(a[0], a[1..] + es, raw);
      ExpandPlain(a[1..], es, raw);
      var r := Expand(ExtBytes(es).buf, raw);
      if r.Ok? {
        Assoc(U16(a[0].typ) + LP16(a[0].body.buf), ExtBytes(a[1..]).buf, r.value);
      }
    }
  }

  lemma PlainTypes(m: Hello, lo: nat, hi: nat)
    requires lo <= hi <= SLOTS
    ensures forall x :: 0 <= x < |Exts(m, lo, hi)| ==> Exts(m, lo, hi)[x].typ != ECH_OUTER_EXTENSIONS
  {
    NoSuchType(m, lo, hi, ECH_OUTER_EXTENSIONS);
  }

  lemma {:induction false} SameExts(m: Hello, n: Hello, lo: nat, hi: nat)
    requires lo <= hi <= SLOTS
    requires forall k: slot :: lo <= k < hi ==> Present(m, k) == Present(n, k) && Body(m, k) == Body(n, k)
    ensures Exts(m, lo, hi) == Exts(n, lo, hi)
    decreases hi - lo
  {
    hide SlotType, Body, Present;
    if lo < hi {
      SameExts(m, n, lo + 1, hi);
      assert Present(m, lo) == Present(n, lo);
    }
  }

  lemma MixedEnds(inner: Hello, outer: Hello)
    ensures Exts(Mixed(inner, outer), 0, FIRST_COMPRESSIBLE) == Exts(inner, 0, FIRST_COMPRESSIBLE)
    ensures Exts(Mixed(inner, outer), PSK_SLOT, SLOTS) == Exts(inner, PSK_SLOT, SLOTS)
  {
    var mixed := Mixed(inner, outer);
    forall k: slot | k < FIRST_COMPRESSIBLE || k == PSK_SLOT
      ensures Present(mixed, k) == Present(inner, k) && Body(mixed, k) == Body(inner, k)
    {
      hide LPs, U16s, KeyShareBytes, IdentityBytes, LP8, LP16;
    }
    SameExts(mixed, inner, 0, FIRST_COMPRESSIBLE);
    SameExts(mixed, inner, PSK_SLOT, SLOTS);
  }

  lemma ExpandOuter(inner: Hello, outer: Hello)
    requires ExtBytes(OuterExtensions(Types(Compressible(inner))) + Exts(inner, PSK_SLOT, SLOTS)).ok
    ensures var p := Exts(inner, PSK_SLOT, SLOTS);
            Expand(ExtBytes(OuterExtensions(Types(Compressible(inner))) + p).buf, RawOf(Exts(outer, 0, SLOTS))) ==
            if Covers(outer, inner) then Ok(ExtBytes(Compressible(Mixed(inner, outer))).buf + ExtBytes(p).buf)
            else Err(OuterExtsInvalid)
  {
    hide RawOf, Mixed, LP8, LP16, U16, ReadLP8, Types, Exts, CoversFrom;
    var raw := RawOf(Exts(outer, 0, SLOTS));
    var types, p := Types(Compressible(inner)), Exts(inner, PSK_SLOT, SLOTS);
    var oe := OuterExtensions(types);
    CopySlots(inner, outer, FIRST_COMPRESSIBLE, 0);
    assert |Exts(outer, 0, 0)| == 0 by { NoExts(outer, 0); }
    PlainTypes(inner, PSK_SLOT, SLOTS);
    assert p + [] == p && ExtBytes(p).buf + [] == ExtBytes(p).buf;
    assert Expand([], raw) == Ok([]) && CopyOuter([], raw, 0) == Ok([]) && ExtBytes([]) == EMPTY && U16s([]) == [];
    if types == [] {
      assert oe + p == p;
      ExpandPlain(p, [], raw);
      assert [] + ExtBytes(p).buf == ExtBytes(p).buf;
    } else {
      assert oe + p == [oe[0]] + p;
      ExpandHead(oe[0], p, raw);
      ExpandPlain(p, [], raw);
      assert oe[0].body.buf == LP8(U16s(types)) + [];
      ReadLP8Back(U16s(types), []);
    }
  }

  lemma NoExts(m: Hello, k: nat)
    requires k <= SLOTS
    ensures Exts(m, k, k) == []
  {
  }

  /** Expanding the encoded inner extensions yields those of the mixed hello. */
  lemma ExpandInner(inner: Hello, outer: Hello)
    requires ExtBytes(InnerExts(inner)).ok && Stripped(inner) == inner
    ensures Expand(ExtBytes(InnerExts(inner)).buf, RawOf(Exts(outer, 0, SLOTS))) ==
            if Covers(outer, inner) then Ok(ExtBytes(Exts(Mixed(inner, outer), 0, SLOTS)).buf)
            else Err(OuterExtsInvalid)
  {
    hide Exts, RawOf, Expand, CopyOuter, Mixed, Covers, LP8, LP16, U16, U16s, Types, ExtBytes;
    var raw := RawOf(Exts(outer, 0, SLOTS));
    var mixed := Mixed(inner, outer);
    var a, c, p := Exts(inner, 0, FIRST_COMPRESSIBLE), Compressible(inner), Exts(inner, PSK_SLOT, SLOTS);
    var oe := OuterExtensions(Types(c));
    PlainTypes(inner, 0, FIRST_COMPRESSIBLE);
    ExpandPlain(a, oe + p, raw);
    ExpandOuter(inner, outer);
    assert Exts(mixed, 0, FIRST_COMPRESSIBLE) == a && Exts(mixed, PSK_SLOT, SLOTS) == p by { MixedEnds(inner, outer); }
    ExtsSplit(mixed, 0, FIRST_COMPRESSIBLE, SLOTS);
    ExtsSplit(mixed, FIRST_COMPRESSIBLE, PSK_SLOT, SLOTS);
    ExtBytesConcat(a, Exts(mixed, FIRST_COMPRESSIBLE, SLOTS));
    ExtBytesConcat(Compressible(mixed), p);
  }

  // ----- Decoding what was encoded -----

  lemma ReadEncoded(inner: Hello, maxNameLength: byte)
    requires MarshalInner(inner).Some? && InnerExts(inner) != []
    ensures var encoded := EncodeInner(inner, maxNameLength).value;
            var pad := PaddingLen(inner, |MarshalInner(inner).value| - 4, maxNameLength);
            var x := ExtBytes(InnerExts(inner)).buf;
            && 0 <= pad < 32
            && encoded == U16(inner.vers) + inner.random + LP8([]) + LP16(U16s(inner.cipherSuites))
                          + LP8(inner.compressionMethods) + LP16(x) + Zeros(pad)
            && |inner.random| == 32 && |inner.cipherSuites| < 0x8000 && |inner.compressionMethods| < 0x100
            && ExtBytes(InnerExts(inner)).ok && |x| < 0x1_0000
  {
    hide InnerExts, U16, LP8, LP16, U16s, Zeros;
    assert ExtBytes(InnerExts(inner)).buf != [];
    var x := ExtBytes(InnerExts(inner));
    var h := MarshalInner(inner).value;
    var b := Preamble(inner, []).AddLP16(x);
    assert h == [TYPE_CLIENT_HELLO] + U24(|b.buf|) + b.buf;
    assert h[4..] == b.buf;
  }

  lemma {:induction false} ExtsFit(m: Hello, lo: nat, hi: nat)
    requires lo <= hi <= SLOTS
    ensures ExtBytes(Exts(m, lo, hi)).ok <==> forall k: slot :: lo <= k < hi && Present(m, k) ==> BodyFits(m, k)
    decreases hi - lo
  {
    hide Body, Present, SlotType, U16, LP16;
    if lo < hi {
      ExtsFit(m, lo + 1, hi);
      var es := Exts(m, lo + 1, hi);
      if Present(m, lo) {
        var e := Ext(SlotType(lo), Body(m, lo));
        assert Exts(m, lo, hi) == [e] + es && ([e] + es)[1..] == es;
        assert ExtBytes([e] + es).ok == (BodyFits(m, lo) && ExtBytes(es).ok);
      } else {
        assert Exts(m, lo, hi) == es;
      }
    }
  }

  lemma MixedFits(inner: Hello, outer: Hello)
    requires Covers(outer, inner) && Stripped(inner) == inner
    requires ExtBytes(InnerExts(inner)).ok && ExtBytes(Exts(outer, 0, SLOTS)).ok
    ensures ExtBytes(Exts(Mixed(inner, outer), 0, SLOTS)).ok
  {
    hide Exts, ExtBytes, Body, Present, Mixed, Types;
    var mixed := Mixed(inner, outer);
    var a, p := Exts(inner, 0, FIRST_COMPRESSIBLE), Exts(inner, PSK_SLOT, SLOTS);
    var oe := OuterExtensions(Types(Compressible(inner)));
    ExtBytesConcat(a, oe + p);
    ExtBytesConcat(oe, p);
    MixedEnds(inner, outer);
    ExtsFit(mixed, 0, FIRST_COMPRESSIBLE);
    ExtsFit(mixed, PSK_SLOT, SLOTS);
    ExtsFit(outer, 0, SLOTS);
    forall k: slot | Present(mixed, k) ensures BodyFits(mixed, k) {
      if FIRST_COMPRESSIBLE <= k < PSK_SLOT {
        MixedSlot(inner, outer, k);
        assert BodyFits(outer, k);
      }
    }
    ExtsFit(mixed, 0, SLOTS);
  }

  /** Rebuilding around the mixed hello's extension block is writing the mixed hello. */
  lemma RebuildIsMarshal(inner: Hello, outer: Hello)
    requires |inner.random| == 32 && |inner.cipherSuites| < 0x8000 && |inner.compressionMethods| < 0x100
    requires inner.encryptedClientHello != []
    requires ExtBytes(Exts(Mixed(inner, outer), 0, SLOTS)).ok
    ensures Rebuild(U16(inner.vers) + inner.random, outer.sessionId, U16s(inner.cipherSuites),
                    inner.compressionMethods, ExtBytes(Exts(Mixed(inner, outer), 0, SLOTS)).buf) ==
            Marshal(Mixed(inner, outer))
  {
    hide Exts, U16, LP8, LP16, U16s;
    EchPresent(Mixed(inner, outer));
    assert ExtBytes(Exts(Mixed(inner, outer), 0, SLOTS)).buf != [];
  }

  lemma EchPresent(m: Hello)
    requires m.encryptedClientHello != []
    ensures Exts(m, 0, SLOTS) != []
  {
    hide Body;
    ExtsSplit(m, 0, 8, SLOTS);
    assert SlotExts(m, 8) != [];
  }

  /**
   The full outcome of decoding an encoded inner hello against a received
   outer hello.  Decoding fails on the scan exactly when the outer hello lacks
   a compressed extension; otherwise what the checks see, and what is returned,
   is the inner hello with the outer hello's extensions in those places.
   */
  lemma DecodeEncoded(inner: Hello, outer: Hello, received: Hello, maxNameLength: byte)
    requires EncodeInner(inner, maxNameLength).Some? && Marshal(outer).Some?
    requires received.original == Marshal(outer) && received.sessionId == outer.sessionId
    requires Stripped(inner) == inner && inner.encryptedClientHello != [] && outer.encryptedClientHello != []
    ensures DecodeInner(received, EncodeInner(inner, maxNameLength).value) ==
            if !Covers(outer, inner) then Err(OuterExtsInvalid) else Accept(Marshal(Mixed(inner, outer)))
  {
    hide U16, LP8, LP16, U16s, ReadLP8, ReadLP16, Exts, ExtBytes, RawOf, Expand, Accept, Rebuild, InnerExts, Mixed,
         RawExtensions, Covers;
    var encoded := EncodeInner(inner, maxNameLength).value;
    InnerExtsFilled(inner);
    ReadEncoded(inner, maxNameLength);
    var x := ExtBytes(InnerExts(inner)).buf;
    var pad := PaddingLen(inner, |MarshalInner(inner).value| - 4, maxNameLength);
    ReadParts(U16(inner.vers) + inner.random, U16s(inner.cipherSuites), inner.compressionMethods, x, Zeros(pad), encoded);
    EchPresent(outer);
    RawExtensionsBack(outer);
    ExpandInner(inner, outer);
    if Covers(outer, inner) {
      MixedFits(inner, outer);
      RebuildIsMarshal(inner, outer);
    }
  }

  lemma InnerExtsFilled(inner: Hello)
    requires inner.encryptedClientHello != []
    ensures InnerExts(inner) != []
  {
    hide Body, Types;
    ExtsSplit(Stripped(inner), 0, 8, FIRST_COMPRESSIBLE);
    assert SlotExts(Stripped(inner), 8) != [];
  }

  lemma ReadParts(vr: bytes, suites: bytes, comp: bytes, x: bytes, pad: bytes, encoded: bytes)
    requires |vr| == 34 && |suites| < 0x1_0000 && |comp| < 0x100 && |x| < 0x1_0000
    requires encoded == vr + LP8([]) + LP16(suites) + LP8(comp) + LP16(x) + pad
    ensures ReadN(encoded, 34) == Got(vr, LP8([]) + (LP16(suites) + (LP8(comp) + (LP16(x) + pad))))
    ensures ReadLP8(LP8([]) + (LP16(suites) + (LP8(comp) + (LP16(x) + pad)))) ==
            Got([], LP16(suites) + (LP8(comp) + (LP16(x) + pad)))
    ensures ReadLP16(LP16(suites) + (LP8(comp) + (LP16(x) + pad))) == Got(suites, LP8(comp) + (LP16(x) + pad))
    ensures ReadLP8(LP8(comp) + (LP16(x) + pad)) == Got(comp, LP16(x) + pad)
    ensures ReadLP16(LP16(x) + pad) == Got(x, pad)
  {
    hide LP8, LP16, ReadLP8, ReadLP16;
    var d := LP16(x) + pad;
    var c := LP8(comp) + d;
    var b := LP16(suites) + c;
    assert encoded == vr + (LP8([]) + b);
    ReadNBack(vr, LP8([]) + b);
    ReadLP8Back([], b);
    ReadLP16Back(suites, c);
    ReadLP8Back(comp, d);
    ReadLP16Back(x, pad);
  }

  /**
   When the outer hello agrees with the inner one, the server rebuilds the
   inner hello byte for byte as the client marshals it, so both hash the same
   message, and reads from it the inner hello's own fields.
   */
  lemma InnerHelloRoundTrip(inner: Hello, outer: Hello, received: Hello, maxNameLength: byte)
    requires EncodeInner(inner, maxNameLength).Some? && Marshal(outer).Some? && Marshal(inner).Some?
    requires Unmarshal(Marshal(outer).value) == Some(received)
    requires Stripped(inner) == inner && outer.encryptedClientHello != []
    requires inner.encryptedClientHello == [1] && inner.supportedVersions == [VERSION_TLS13]
    requires Agrees(outer, inner) && Acceptable(inner)
    ensures var full := Marshal(inner).value;
            DecodeInner(received, EncodeInner(inner, maxNameLength).value) == Ok(Reported(inner, full))
  {
    hide Exts, ExtBytes, Acceptable, Marshal, Unmarshal, EncodeInner, DecodeInner;
    MarshalUnmarshal(outer);
    DecodeEncoded(inner, outer, received, maxNameLength);
    MarshalUnmarshal(inner);
  }
}
