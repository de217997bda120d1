/**
 The ClientHello message: its fields, how it is written to bytes and how it is
 read back.  The extensions are written in a fixed order, so the message is
 described by nineteen numbered slots, each of which is present or absent.
 */
module ClientHello {
  import opened Bytes

  datatype KeyShare = KeyShare(group: u16, data: bytes)
  datatype PskIdentity = PskIdentity(name: bytes, age: u32)

  datatype Hello = Hello(
    original: Option<bytes>,
    vers: u16,
    random: bytes,
    sessionId: bytes,
    cipherSuites: seq<u16>,
    compressionMethods: bytes,
    serverName: bytes,
    ocspStapling: bool,
    supportedCurves: seq<u16>,
    supportedPoints: bytes,
    ticketSupported: bool,
    sessionTicket: bytes,
    sigAlgs: seq<u16>,
    sigAlgsCert: seq<u16>,
    secureRenegotiationSupported: bool,
    secureRenegotiation: bytes,
    extendedMasterSecret: bool,
    alpnProtocols: seq<bytes>,
    scts: bool,
    supportedVersions: seq<u16>,
    cookie: bytes,
    keyShares: seq<KeyShare>,
    earlyData: bool,
    pskModes: bytes,
    pskIdentities: seq<PskIdentity>,
    pskBinders: seq<bytes>,
    quicTransportParameters: Option<bytes>,
    encryptedClientHello: bytes,
    extensions: seq<u16>)

  const TYPE_CLIENT_HELLO: byte := 1
  const SCSV_RENEGOTIATION: u16 := 0x00ff
  const ECH_OUTER_EXTENSIONS: u16 := 0xfd00
  const ENCRYPTED_CLIENT_HELLO: u16 := 0xfe0d
  const DOT: byte := 0x2e

  // ----- The slots -----

  const SLOTS := 19
  /** Slots from here to just before `PSK_SLOT` can be compressed in an inner hello. */
  const FIRST_COMPRESSIBLE := 9
  const PSK_SLOT := 18

  type slot = k: int | 0 <= k < SLOTS

  function SlotType(k: slot): u16
  {
    match k
    case 0 => 0          // server_name
    case 1 => 11         // ec_point_formats
    case 2 => 35         // session_ticket
    case 3 => 0xff01     // renegotiation_info
    case 4 => 23         // extended_master_secret
    case 5 => 18         // signed_certificate_timestamp
    case 6 => 42         // early_data
    case 7 => 57         // quic_transport_parameters
    case 8 => 0xfe0d     // encrypted_client_hello
    case 9 => 5          // status_request
    case 10 => 10        // supported_groups
    case 11 => 13        // signature_algorithms
    case 12 => 50        // signature_algorithms_cert
    case 13 => 16        // application_layer_protocol_negotiation
    case 14 => 43        // supported_versions
    case 15 => 44        // cookie
    case 16 => 51        // key_share
    case 17 => 45        // psk_key_exchange_modes
    case _ => 41         // pre_shared_key
  }

  predicate Present(m: Hello, k: slot)
  {
    match k
    case 0 => m.serverName != []
    case 1 => m.supportedPoints != []
    case 2 => m.ticketSupported
    case 3 => m.secureRenegotiationSupported
    case 4 => m.extendedMasterSecret
    case 5 => m.scts
    case 6 => m.earlyData
    case 7 => m.quicTransportParameters.Some?
    case 8 => m.encryptedClientHello != []
    case 9 => m.ocspStapling
    case 10 => m.supportedCurves != []
    case 11 => m.sigAlgs != []
    case 12 => m.sigAlgsCert != []
    case 13 => m.alpnProtocols != []
    case 14 => m.supportedVersions != []
    case 15 => m.cookie != []
    case 16 => m.keyShares != []
    case 17 => m.pskModes != []
    case _ => m.pskIdentities != []
  }

  function KeyShareBytes(ks: seq<KeyShare>): Builder
  {
    if ks == [] then EMPTY else
    var t := KeyShareBytes(ks[1..]);
    Builder(U16(ks[0].group) + LP16(ks[0].data) + t.buf, t.ok && |ks[0].data| < 0x1_0000)
  }

  function IdentityBytes(ids: seq<PskIdentity>): Builder
  {
    if ids == [] then EMPTY else
    var t := IdentityBytes(ids[1..]);
    Builder(LP16(ids[0].name) + U32(ids[0].age) + t.buf, t.ok && |ids[0].name| < 0x1_0000)
  }

  /** The extension_data of slot `k`. */
  function Body(m: Hello, k: slot): Builder
  {
    match k
    case 0 => EMPTY.AddLP16(Raw([0]).AddLP16(Raw(m.serverName)))
    case 1 => EMPTY.AddLP8(Raw(m.supportedPoints))
    case 2 => Raw(m.sessionTicket)
    case 3 => EMPTY.AddLP8(Raw(m.secureRenegotiation))
    case 4 => EMPTY
    case 5 => EMPTY
    case 6 => EMPTY
    case 7 => Raw(if m.quicTransportParameters.Some? then m.quicTransportParameters.value else [])
    case 8 => Raw(m.encryptedClientHello)
    case 9 => Raw([1, 0, 0, 0, 0])
    case 10 => EMPTY.AddLP16(Raw(U16s(m.supportedCurves)))
    case 11 => EMPTY.AddLP16(Raw(U16s(m.sigAlgs)))
    case 12 => EMPTY.AddLP16(Raw(U16s(m.sigAlgsCert)))
    case 13 => EMPTY.AddLP16(LPs(1, m.alpnProtocols))
    case 14 => EMPTY.AddLP8(Raw(U16s(m.supportedVersions)))
    case 15 => EMPTY.AddLP16(Raw(m.cookie))
    case 16 => EMPTY.AddLP16(KeyShareBytes(m.keyShares))
    case 17 => EMPTY.AddLP8(Raw(m.pskModes))
    case _ => EMPTY.AddLP16(IdentityBytes(m.pskIdentities)).AddLP16(LPs(1, m.pskBinders))
  }

  // ----- Extension lists -----

  /** An extension to be written; its data may have failed to build. */
  datatype Ext = Ext(typ: u16, body: Builder)

  /** The extensions in slots `lo` up to `hi`. */
  function Exts(m: Hello, lo: nat, hi: nat): (r: seq<Ext>)
    requires lo <= hi <= SLOTS
    decreases hi - lo
  {
    if lo == hi then [] else
    SlotExts(m, lo) + Exts(m, lo + 1, hi)
  }

  function SlotExts(m: Hello, k: slot): seq<Ext>
  {
    if Present(m, k) then [Ext(SlotType(k), Body(m, k))] else []
  }

  lemma {:induction false} ExtsSplit(m: Hello, lo: nat, mid: nat, hi: nat)
    requires lo <= mid <= hi <= SLOTS
    ensures Exts(m, lo, hi) == Exts(m, lo, mid) + Exts(m, mid, hi)
    decreases mid - lo
  {
    hide SlotExts;
    if lo < mid {
      ExtsSplit(m, lo + 1, mid, hi);
    }
  }

  function ExtBytes(es: seq<Ext>): Builder
  {
    if es == [] then EMPTY else
    var t := ExtBytes(es[1..]);
    Builder(U16(es[0].typ) + LP16(es[0].body.buf) + t.buf,
            es[0].body.ok && |es[0].body.buf| < 0x1_0000 && t.ok)
  }

  lemma {:induction false} ExtBytesConcat(a: seq<Ext>, b: seq<Ext>)
    ensures ExtBytes(a + b) == ExtBytes(a).Append(ExtBytes(b))
  {
    if a == [] {
      assert a + b == b;
    } else {
      assert (a + b)[1..] == a[1..] + b;
      ExtBytesConcat(a[1..], b);
      Assoc(U16(a[0].typ) + LP16(a[0].body.buf), ExtBytes(a[1..]).buf, ExtBytes(b).buf);
    }
  }

  lemma ExtBytesOne(e: Ext)
    ensures ExtBytes([e]) == Builder(U16(e.typ) + LP16(e.body.buf), e.body.ok && |e.body.buf| < 0x1_0000)
  {
    assert ExtBytes([e][1..]) == EMPTY;
  }

  // ----- Writing the message -----

  /** The message body before its extensions. */
  function Preamble(m: Hello, sid: bytes): Builder
  {
    Builder(U16(m.vers) + m.random, |m.random| == 32)
    .AddLP8(Raw(sid)).AddLP16(Raw(U16s(m.cipherSuites))).AddLP8(Raw(m.compressionMethods))
  }

  function Message(m: Hello, sid: bytes, es: seq<Ext>): Builder
  {
    var x := ExtBytes(es);
    var p := Preamble(m, sid);
    var b := if x.buf == [] then p.Append(x) else p.AddLP16(x);
    Raw([TYPE_CLIENT_HELLO]).AddLP24(b)
  }

  /** The message as sent on the wire when there is no stored original. */
  function Marshal(m: Hello): Option<bytes>
  {
    Message(m, m.sessionId, Exts(m, 0, SLOTS)).Result()
  }

  // ----- Reading extension_data -----

  const FRESH := Hello(None, 0, [], [], [], [], [], false, [], [], false, [], [], [], false, [], false,
                       [], false, [], [], [], false, [], [], [], None, [], [])

  /** The host name in a server_name list; `name` is the one found so far. */
  function ReadNames(s: bytes, name: bytes): Option<bytes>
    decreases |s|
  {
    if s == [] then Some(name) else
    var t := ReadU8(s);
    if t.Short? then None else
    var n := ReadLP16(t.rest);
    if n.Short? || n.value == [] then None
    else if t.value != 0 then ReadNames(n.rest, name)
    else if name != [] || n.value[|n.value| - 1] == DOT then None
    else ReadNames(n.rest, n.value)
  }

  function ReadKeyShares(s: bytes): Option<seq<KeyShare>>
    decreases |s|
  {
    if s == [] then Some([]) else
    var g := ReadU16(s);
    if g.Short? then None else
    var d := ReadLP16(g.rest);
    if d.Short? || d.value == [] then None else
    var t := ReadKeyShares(d.rest);
    if t.None? then None else Some([KeyShare(g.value, d.value)] + t.value)
  }

  function ReadIdentities(s: bytes): Option<seq<PskIdentity>>
    decreases |s|
  {
    if s == [] then Some([]) else
    var l := ReadLP16(s);
    if l.Short? then None else
    var a := ReadU32(l.rest);
    if a.Short? || l.value == [] then None else
    var t := ReadIdentities(a.rest);
    if t.None? then None else Some([PskIdentity(l.value, a.value)] + t.value)
  }

  /** A single length-prefixed string of `w` prefix bytes filling all of `s`. */
  function Only(w: int, s: bytes): Option<bytes>
  {
    var b := ReadLP(w, s);
    if b.Short? || b.rest != [] then None else Some(b.value)
  }

  /** A non-empty list of 16-bit values behind a prefix of `w` bytes, filling all of `s`. */
  function OnlyU16s(w: int, s: bytes): Option<seq<u16>>
  {
    var b := Only(w, s);
    if b.None? || b.value == [] then None else ReadU16s(b.value)
  }

  /** The effect of one extension on the message; `last` when no extension follows it. */
  function Apply(m: Hello, typ: u16, data: bytes, last: bool): (r: Option<Hello>)
    ensures r.Some? ==> r.value.original == m.original
  {
    match typ
    case 0 =>
      var l := Only(2, data);
      if l.None? || l.value == [] then None else
      var n := ReadNames(l.value, m.serverName);
      if n.None? then None else Some(m.(serverName := n.value))
    case 5 =>
      var t := ReadU8(data);
      if t.Short? then None else
      var a := ReadLP16(t.rest);
      if a.Short? || Only(2, a.rest).None? then None else Some(m.(ocspStapling := t.value == 1))
    case 10 =>
      var l := OnlyU16s(2, data);
      if l.None? then None else Some(m.(supportedCurves := m.supportedCurves + l.value))
    case 11 =>
      var b := Only(1, data);
      if b.None? || b.value == [] then None else Some(m.(supportedPoints := b.value))
    case 35 => Some(m.(ticketSupported := true, sessionTicket := data))
    case 13 =>
      var l := OnlyU16s(2, data);
      if l.None? then None else Some(m.(sigAlgs := m.sigAlgs + l.value))
    case 50 =>
      var l := OnlyU16s(2, data);
      if l.None? then None else Some(m.(sigAlgsCert := m.sigAlgsCert + l.value))
    case 0xff01 =>
      var b := Only(1, data);
      if b.None? then None
      else Some(m.(secureRenegotiation := b.value, secureRenegotiationSupported := true))
    case 23 => if data != [] then None else Some(m.(extendedMasterSecret := true))
    case _ => ApplyRest(m, typ, data, last)
  }

  /** The types that the switch comes to later. */
  function ApplyRest(m: Hello, typ: u16, data: bytes, last: bool): (r: Option<Hello>)
    ensures r.Some? ==> r.value.original == m.original
  {
    match typ
    case 16 =>
      var l := Only(2, data);
      if l.None? || l.value == [] then None else
      var ps := ReadLPs(1, true, l.value);
      if ps.None? then None else Some(m.(alpnProtocols := m.alpnProtocols + ps.value))
    case 18 => if data != [] then None else Some(m.(scts := true))
    case 43 =>
      var l := OnlyU16s(1, data);
      if l.None? then None else Some(m.(supportedVersions := m.supportedVersions + l.value))
    case 44 =>
      var b := Only(2, data);
      if b.None? || b.value == [] then None else Some(m.(cookie := b.value))
    case 51 =>
      var l := Only(2, data);
      if l.None? then None else
      var ks := ReadKeyShares(l.value);
      if ks.None? then None else Some(m.(keyShares := m.keyShares + ks.value))
    case 42 => if data != [] then None else Some(m.(earlyData := true))
    case 45 =>
      var b := Only(1, data);
      if b.None? then None else Some(m.(pskModes := b.value))
    case 57 => Some(m.(quicTransportParameters := Some(data)))
    case 41 => if last then ApplyPsk(m, data) else None
    case 0xfe0d => Some(m.(encryptedClientHello := data))
    case _ => Some(m)
  }

  function ApplyPsk(m: Hello, data: bytes): (r: Option<Hello>)
    ensures r.Some? ==> r.value.original == m.original
  {
    var i := ReadLP16(data);
    if i.Short? || i.value == [] then None else
    var ids := ReadIdentities(i.value);
    if ids.None? then None else
    var b := Only(2, i.rest);
    if b.None? || b.value == [] then None else
    var bs := ReadLPs(1, true, b.value);
    if bs.None? then None else
    Some(m.(pskIdentities := m.pskIdentities + ids.value, pskBinders := m.pskBinders + bs.value))
  }

  // ----- Reading the message -----

  /** Reads the extension block `s`, rejecting a type already in `seen`. */
  function ReadExts(s: bytes, seen: set<u16>, m: Hello): Option<Hello>
    decreases |s|
  {
    if s == [] then Some(m) else
    var t := ReadU16(s);
    if t.Short? then None else
    var d := ReadLP16(t.rest);
    if d.Short? || t.value in seen then None else
    var n := Apply(m.(extensions := m.extensions + [t.value]), t.value, d.value, d.rest == []);
    if n.None? then None else ReadExts(d.rest, seen + {t.value}, n.value)
  }

  function Unmarshal(data: bytes): Option<Hello>
  {
    var h := ReadN(data, 4);
    if h.Short? then None else
    var v := ReadU16(h.rest);
    if v.Short? then None else
    var r := ReadN(v.rest, 32);
    if r.Short? then None else
    var sid := ReadLP8(r.rest);
    if sid.Short? then None else
    var cs := ReadLP16(sid.rest);
    if cs.Short? then None else
    var suites := ReadU16s(cs.value);
    if suites.None? then None else
    var comp := ReadLP8(cs.rest);
    if comp.Short? then None else
    var m := Start(data, v.value, r.value, sid.value, suites.value, comp.value);
    if comp.rest == [] then Some(m) else
    var x := Only(2, comp.rest);
    if x.None? then None else ReadExts(x.value, {}, m)
  }

  /** The message as it stands before any extension is read. */
  function Start(data: bytes, vers: u16, random: bytes, sid: bytes, suites: seq<u16>, comp: bytes): Hello
  {
    FRESH.(original := Some(data), vers := vers, random := random, sessionId := sid, cipherSuites := suites,
           secureRenegotiationSupported := SCSV_RENEGOTIATION in suites, compressionMethods := comp)
  }
}
