/**
 The ServerHello message, which is also the HelloRetryRequest: how it is written
 and read, and that a TLS 1.3 server's message is read back as it was meant.
 */
module ServerHello {
  import opened Bytes
  import opened ClientHello
  import opened Ech

  const TYPE_SERVER_HELLO: byte := 2

  datatype ServerHello = ServerHello(
    original: Option<bytes>,
    vers: u16,
    random: bytes,
    sessionId: bytes,
    cipherSuite: u16,
    compressionMethod: byte,
    ocspStapling: bool,
    ticketSupported: bool,
    renegotiation: Option<bytes>,
    extendedMasterSecret: bool,
    alpn: bytes,
    scts: seq<bytes>,
    supportedVersion: u16,
    share: Option<KeyShare>,
    identity: Option<u16>,
    cookie: bytes,
    group: u16,
    points: bytes,
    ech: Option<bytes>,
    nameAck: bool)

  const BLANK := ServerHello(None, 0, [], [], 0, 0, false, false, None, false, [], [], 0, None, None, [], 0, [], None, false)

  // ----- Writing -----

  function When(c: bool, typ: u16, body: Builder): seq<Ext>
  {
    if c then [Ext(typ, body)] else []
  }

  /** The extensions of TLS 1.2 that come first. */
  function LegacyExts(m: ServerHello): seq<Ext>
  {
    When(m.ocspStapling, 5, EMPTY) + When(m.ticketSupported, 35, EMPTY)
    + When(m.renegotiation.Some?, 0xff01, EMPTY.AddLP8(Raw(if m.renegotiation.Some? then m.renegotiation.value else [])))
    + When(m.extendedMasterSecret, 23, EMPTY)
    + When(m.alpn != [], 16, EMPTY.AddLP16(EMPTY.AddLP8(Raw(m.alpn))))
    + When(m.scts != [], 18, EMPTY.AddLP16(LPs(2, m.scts)))
  }

  function ShareBody(s: Option<KeyShare>): Builder
  {
    if s.None? then EMPTY else Raw(U16(s.value.group)).AddLP16(Raw(s.value.data))
  }

  /** The extensions that a TLS 1.3 server sends. */
  function ModernExts(m: ServerHello): seq<Ext>
  {
    When(m.supportedVersion != 0, 43, Raw(U16(m.supportedVersion)))
    + When(m.share.Some? && m.share.value.group != 0, 51, ShareBody(m.share))
    + When(m.identity.Some?, 41, Raw(U16(if m.identity.Some? then m.identity.value else 0)))
    + When(m.cookie != [], 44, EMPTY.AddLP16(Raw(m.cookie)))
    + When(m.group != 0, 51, Raw(U16(m.group)))
  }

  function TailExts(m: ServerHello): seq<Ext>
  {
    When(m.points != [], 11, EMPTY.AddLP8(Raw(m.points))) + When(m.ech.Some? && m.ech.value != [], 0xfe0d, Raw(if m.ech.Some? then m.ech.value else []))
    + When(m.nameAck, 0, EMPTY)
  }

  function ShFront(m: ServerHello): Builder
  {
    Builder(U16(m.vers) + m.random, |m.random| == 32).AddLP8(Raw(m.sessionId))
    .Add(U16(m.cipherSuite)).Add(U8(m.compressionMethod))
  }

  function MarshalServerHello(m: ServerHello): Option<bytes>
  {
    var x := ExtBytes(LegacyExts(m) + ModernExts(m) + TailExts(m));
    var f := ShFront(m);
    Raw([TYPE_SERVER_HELLO]).AddLP24(if x.buf == [] then f.Append(x) else f.AddLP16(x)).Result()
  }

  // ----- Reading -----

  function ApplySh(m: ServerHello, typ: u16, data: bytes): Option<ServerHello>
  {
    match typ
    case 5 => if data != [] then None else Some(m.(ocspStapling := true))
    case 35 => if data != [] then None else Some(m.(ticketSupported := true))
    case 23 => if data != [] then None else Some(m.(extendedMasterSecret := true))
    case 0xff01 =>
      var b := Only(1, data);
      if b.None? then None else Some(m.(renegotiation := b))
    case 16 =>
      var l := Only(2, data);
      if l.None? then None else
      var p := Only(1, l.value);
      if p.None? || p.value == [] then None else Some(m.(alpn := p.value))
    case 18 =>
      var l := Only(2, data);
      if l.None? || l.value == [] then None else
      var ss := ReadLPs(2, true, l.value);
      if ss.None? then None else Some(m.(scts := m.scts + ss.value))
    case 43 =>
      var v := ReadU16(data);
      if v.Short? || v.rest != [] then None else Some(m.(supportedVersion := v.value))
    case 44 =>
      var b := Only(2, data);
      if b.None? || b.value == [] then None else Some(m.(cookie := b.value))
    case 51 =>
      var g := ReadU16(data);
      if g.Short? then None
      else if |data| == 2 then Some(m.(group := g.value))
      else
        var d := Only(2, g.rest);
        if d.None? then None else Some(m.(share := Some(KeyShare(g.value, d.value))))
    case 41 =>
      var i := ReadU16(data);
      if i.Short? || i.rest != [] then None else Some(m.(identity := Some(i.value)))
    case 11 =>
      var b := Only(1, data);
      if b.None? || b.value == [] then None else Some(m.(points := b.value))
    case 0xfe0d => Some(m.(ech := Some(data)))
    case 0 => if data != [] then None else Some(m.(nameAck := true))
    case _ => Some(m)
  }

  function ApplyShAll(raw: seq<RawExt>, seen: set<u16>, m: ServerHello): Option<ServerHello>
  {
    if raw == [] then Some(m)
    else if raw[0].typ in seen then None
    else
      var n := ApplySh(m, raw[0].typ, raw[0].data);
      if n.None? then None else ApplyShAll(raw[1..], seen + {raw[0].typ}, n.value)
  }

  /** The fields in front of the extensions, and what is left. */
  function ReadShFront(data: bytes): Option<(ServerHello, bytes)>
  {
    var h := ReadN(data, 4);
    if h.Short? then None else
    var v := ReadU16(h.rest);
    if v.Short? then None else
    var r := ReadN(v.rest, 32);
    if r.Short? then None else
    var sid := ReadLP8(r.rest);
    if sid.Short? then None else
    var cs := ReadU16(sid.rest);
    if cs.Short? then None else
    var comp := ReadU8(cs.rest);
    if comp.Short? then None else
    Some((BLANK.(original := Some(data), vers := v.value, random := r.value, sessionId := sid.value,
                 cipherSuite := cs.value, compressionMethod := comp.value), comp.rest))
  }

  function UnmarshalServerHello(data: bytes): Option<ServerHello>
  {
    var f := ReadShFront(data);
    if f.None? then None
    else if f.value.1 == [] then Some(f.value.0)
    else
      var x := Only(2, f.value.1);
      if x.None? then None else
      var raw := ReadRawExts(x.value);
      if raw.None? then None else ApplyShAll(raw.value, {}, f.value.0)
  }

  // ----- A TLS 1.3 server's message -----

  /** Only what such a server sets; a share or a group, never both. */
  predicate Modern(m: ServerHello)
  {
    && m == BLANK.(original := m.original, vers := m.vers, random := m.random, sessionId := m.sessionId,
                   cipherSuite := m.cipherSuite, compressionMethod := m.compressionMethod,
                   supportedVersion := m.supportedVersion, share := m.share, identity := m.identity, group := m.group)
    && m.supportedVersion != 0 && m.original.None?
    && (m.share.Some? ==> m.share.value.group != 0 && m.group == 0)
  }

  function ModernList(m: ServerHello): seq<Ext>
  {
    [Ext(43, Raw(U16(m.supportedVersion)))]
    + (if m.share.Some? then [Ext(51, ShareBody(m.share))] else [])
    + (if m.identity.Some? then [Ext(41, Raw(U16(m.identity.value)))] else [])
    + (if m.group != 0 then [Ext(51, Raw(U16(m.group)))] else [])
  }

  lemma IdentityApplied(m: ServerHello, i: u16)
    ensures ApplySh(m, 41, U16(i)) == Some(m.(identity := Some(i)))
  {
    ReadU16Back(i, []);
    assert U16(i) + [] == U16(i);
  }

  lemma GroupApplied(m: ServerHello, g: u16)
    ensures ApplySh(m, 51, U16(g)) == Some(m.(group := g))
  {
    ReadU16Back(g, []);
    assert U16(g) + [] == U16(g);
  }

  lemma ShareApplied(m: ServerHello, s: KeyShare)
    requires ShareBody(Some(s)).ok
    ensures ApplySh(m, 51, ShareBody(Some(s)).buf) == Some(m.(share := Some(s)))
  {
    hide U16, LP16, ReadU16, ReadLP16;
    ReadU16Back(s.group, LP16(s.data) + []);
    ReadLP16Back(s.data, []);
    assert ShareBody(Some(s)).buf == U16(s.group) + (LP16(s.data) + []);
    assert |LP16(s.data)| >= 2;
  }

  lemma ApplyStep(e: RawExt, rest: seq<RawExt>, seen: set<u16>, m: ServerHello)
    requires e.typ !in seen
    ensures var n := ApplySh(m, e.typ, e.data);
            ApplyShAll([e] + rest, seen, m) == if n.None? then None else ApplyShAll(rest, seen + {e.typ}, n.value)
  {
    hide ApplySh;
    assert ([e] + rest)[1..] == rest;
  }

  /** The raw extensions of such a message. */
  function ModernRaw(m: ServerHello): seq<RawExt>
  {
    [RawExt(43, U16(m.supportedVersion))] + ShareRaw(m)
  }

  function ShareRaw(m: ServerHello): seq<RawExt>
  {
    if m.share.Some? then [RawExt(51, ShareBody(m.share).buf)] + IdentityRaw(m) else IdentityRaw(m)
  }

  function IdentityRaw(m: ServerHello): seq<RawExt>
  {
    if m.identity.Some? then [RawExt(41, U16(m.identity.value))] + GroupRaw(m) else GroupRaw(m)
  }

  function GroupRaw(m: ServerHello): seq<RawExt>
  {
    if m.group != 0 then [RawExt(51, U16(m.group))] else []
  }

  lemma NothingApplied(seen: set<u16>, m: ServerHello)
    ensures ApplyShAll([], seen, m) == Some(m)
  {
  }

  lemma ModernApplied(m: ServerHello, start: ServerHello)
    requires Modern(m) && (m.share.Some? ==> ShareBody(m.share).ok)
    requires start.supportedVersion == 0 && start.share.None? && start.identity.None? && start.group == 0
    ensures ApplyShAll(ModernRaw(m), {}, start) ==
            Some(start.(supportedVersion := m.supportedVersion, share := m.share, identity := m.identity, group := m.group))
  {
    hide ApplyShAll, ShareBody;
    var a := start.(supportedVersion := m.supportedVersion);
    assert ApplySh(start, 43, U16(m.supportedVersion)) == Some(start.(supportedVersion := m.supportedVersion));
    ApplyStep(RawExt(43, U16(m.supportedVersion)), ShareRaw(m), {}, start);
    var seen: set<u16> := {43};
    assert {} + {43} == seen;
    var b := a.(share := m.share);
    if m.share.Some? {
      ShareApplied(a, m.share.value);
      ApplyStep(RawExt(51, ShareBody(m.share).buf), IdentityRaw(m), seen, a);
      seen := seen + {51};
    }
    var c := b.(identity := m.identity);
    if m.identity.Some? {
      IdentityApplied(b, m.identity.value);
      ApplyStep(RawExt(41, U16(m.identity.value)), GroupRaw(m), seen, b);
      seen := seen + {41};
    }
    if m.group != 0 {
      GroupApplied(c, m.group);
      var e := RawExt(51, U16(m.group));
      ApplyStep(e, [], seen, c);
      assert [e] + [] == [e];
      NothingApplied(seen + {51}, c.(group := m.group));
    } else {
      NothingApplied(seen, c);
    }
  }

  lemma ShMarshalled(m: ServerHello)
    requires Modern(m) && MarshalServerHello(m).Some?
    ensures var x, f := ExtBytes(ModernList(m)), ShFront(m);
            && x.ok && x.buf != [] && |x.buf| < 0x1_0000 && f.ok
            && MarshalServerHello(m).value == [TYPE_SERVER_HELLO] + U24(|f.buf + LP16(x.buf)|) + (f.buf + LP16(x.buf))
            && (m.share.Some? ==> ShareBody(m.share).ok)
  {
    hide ShFront, U24, U16, LP16;
    assert LegacyExts(m) + ModernExts(m) + TailExts(m) == ModernList(m);
    var x, f := ExtBytes(ModernList(m)), ShFront(m);
    assert ExtBytes(ModernList(m)).buf != [];
    assert ExtBytes(ModernList(m)).ok && m.share.Some? ==> ShareBody(m.share).ok;
    assert [TYPE_SERVER_HELLO] + (U24(|f.buf + LP16(x.buf)|) + (f.buf + LP16(x.buf)))
        == [TYPE_SERVER_HELLO] + U24(|f.buf + LP16(x.buf)|) + (f.buf + LP16(x.buf));
  }

  lemma {:induction false} AllBodiesOk(l: seq<Ext>, i: nat)
    requires i < |l| && ExtBytes(l).ok
    ensures l[i].body.ok
  {
    if i > 0 {
      AllBodiesOk(l[1..], i - 1);
    }
  }

  lemma ShFrontBack(m: ServerHello, head: bytes, tail: bytes)
    requires |head| == 4 && ShFront(m).ok
    ensures var data := head + (ShFront(m).buf + tail);
            ReadShFront(data) ==
            Some((BLANK.(original := Some(data), vers := m.vers, random := m.random, sessionId := m.sessionId,
                         cipherSuite := m.cipherSuite, compressionMethod := m.compressionMethod), tail))
  {
    hide U16, U8, LP8, ReadU16, ReadU8, ReadLP8;
    var d2 := U8(m.compressionMethod) + tail;
    var d1 := U16(m.cipherSuite) + d2;
    var d0 := LP8(m.sessionId) + d1;
    var body := U16(m.vers) + (m.random + d0);
    assert ShFront(m).buf + tail == body;
    ReadNBack(head, body);
    ReadU16Back(m.vers, m.random + d0);
    ReadNBack(m.random, d0);
    ReadLP8Back(m.sessionId, d1);
    ReadU16Back(m.cipherSuite, d2);
    ReadU8Back(m.compressionMethod, tail);
  }

  /** The client reads what the server meant, with the bytes it came in. */
  lemma ServerHelloRoundTrip(m: ServerHello)
    requires Modern(m) && MarshalServerHello(m).Some?
    ensures var data := MarshalServerHello(m).value;
            UnmarshalServerHello(data) == Some(m.(original := Some(data))) && data[0] == TYPE_SERVER_HELLO
  {
    hide ExtBytes, U24, U16, LP16, ApplyShAll, ReadRawExts, ReadShFront, ShFront, ReadLP16, ShareBody,
         MarshalServerHello;
    ShMarshalled(m);
    var data := MarshalServerHello(m).value;
    var x := ExtBytes(ModernList(m));
    var tail := LP16(x.buf);
    var head := [TYPE_SERVER_HELLO] + U24(|ShFront(m).buf + tail|);
    ShFrontBack(m, head, tail);
    ReadLP16Back(x.buf, []);
    assert tail + [] == tail && tail != [];
    ReadRawExtsBack(ModernList(m));
    assert RawOf(ModernList(m)) == ModernRaw(m);
    var start := BLANK.(original := Some(data), vers := m.vers, random := m.random, sessionId := m.sessionId,
                        cipherSuite := m.cipherSuite, compressionMethod := m.compressionMethod);
    ModernApplied(m, start);
  }
}
