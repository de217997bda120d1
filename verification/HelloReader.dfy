/**
 The code that reads a ClientHello: loops that advance a cursor over the
 received bytes and fill the message field by field.  Each method is proved to
 compute what module ClientHello says of the whole input at once.
 */
module HelloReader {
  import opened Bytes
  import opened ClientHello

  /** A list whose first members `done` have been read already. */
  function Then<T>(done: seq<T>, r: Option<seq<T>>): Option<seq<T>>
  {
    if r.None? then None else Some(done + r.value)
  }

  lemma ThenOne<T>(done: seq<T>, x: T, r: Option<seq<T>>)
    ensures Then(done, Then([x], r)) == Then(done + [x], r)
  {
    if r.Some? {
      assert done + ([x] + r.value) == done + [x] + r.value;
    }
  }

  lemma ThenNothing<T>(done: seq<T>, r: Option<seq<T>>)
    ensures Then(done, Some([])) == Some(done) && Then([], r) == r
  {
    assert done + [] == done;
    if r.Some? { assert [] + r.value == r.value; }
  }

  // ----- Reading lists -----

  method LoadU16s(s: bytes) returns (ns: Option<seq<u16>>)
    ensures ns == ReadU16s(s)
  {
    hide ReadU16;
    var cur, acc: seq<u16> := s, [];
    ThenNothing([], ReadU16s(s));
    while cur != []
      invariant ReadU16s(s) == Then(acc, ReadU16s(cur))
      decreases |cur|
    {
      var n := ReadU16(cur);
      if n.Short? {
        return None;
      }
      ThenOne(acc, n.value, ReadU16s(n.rest));
      acc, cur := acc + [n.value], n.rest;
    }
    ThenNothing(acc, ReadU16s(s));
    return Some(acc);
  }

  /** Non-empty strings behind one-byte lengths: protocol names and binders. */
  method LoadLP8s(s: bytes) returns (bs: Option<seq<bytes>>)
    ensures bs == ReadLPs(1, true, s)
  {
    hide ReadLP8;
    var cur, acc: seq<bytes> := s, [];
    ThenNothing([], ReadLPs(1, true, s));
    while cur != []
      invariant ReadLPs(1, true, s) == Then(acc, ReadLPs(1, true, cur))
      decreases |cur|
    {
      var b := ReadLP8(cur);
      if b.Short? || b.value == [] {
        return None;
      }
      ThenOne(acc, b.value, ReadLPs(1, true, b.rest));
      acc, cur := acc + [b.value], b.rest;
    }
    ThenNothing(acc, ReadLPs(1, true, s));
    return Some(acc);
  }

  method LoadKeyShares(s: bytes) returns (ks: Option<seq<KeyShare>>)
    ensures ks == ReadKeyShares(s)
  {
    hide ReadU16, ReadLP16;
    var cur, acc: seq<KeyShare> := s, [];
    ThenNothing([], ReadKeyShares(s));
    while cur != []
      invariant ReadKeyShares(s) == Then(acc, ReadKeyShares(cur))
      decreases |cur|
    {
      var g := ReadU16(cur);
      if g.Short? {
        return None;
      }
      var d := ReadLP16(g.rest);
      if d.Short? || d.value == [] {
        return None;
      }
      ThenOne(acc, KeyShare(g.value, d.value), ReadKeyShares(d.rest));
      acc, cur := acc + [KeyShare(g.value, d.value)], d.rest;
    }
    ThenNothing(acc, ReadKeyShares(s));
    return Some(acc);
  }

  method LoadIdentities(s: bytes) returns (ids: Option<seq<PskIdentity>>)
    ensures ids == ReadIdentities(s)
  {
    hide ReadU32, ReadLP16;
    var cur, acc: seq<PskIdentity> := s, [];
    ThenNothing([], ReadIdentities(s));
    while cur != []
      invariant ReadIdentities(s) == Then(acc, ReadIdentities(cur))
      decreases |cur|
    {
      var l := ReadLP16(cur);
      if l.Short? {
        return None;
      }
      var a := ReadU32(l.rest);
      if a.Short? || l.value == [] {
        return None;
      }
      ThenOne(acc, PskIdentity(l.value, a.value), ReadIdentities(a.rest));
      acc, cur := acc + [PskIdentity(l.value, a.value)], a.rest;
    }
    ThenNothing(acc, ReadIdentities(s));
    return Some(acc);
  }

  /** The loop over a server_name list, starting from the name already known. */
  method LoadNames(s: bytes, known: bytes) returns (name: Option<bytes>)
    ensures name == ReadNames(s, known)
  {
    hide ReadU8, ReadLP16;
    var cur, found := s, known;
    while cur != []
      invariant ReadNames(s, known) == ReadNames(cur, found)
      decreases |cur|
    {
      var t := ReadU8(cur);
      if t.Short? {
        return None;
      }
      var n := ReadLP16(t.rest);
      if n.Short? || n.value == [] {
        return None;
      }
      cur := n.rest;
      if t.value != 0 {
        continue;
      }
      if found != [] || n.value[|n.value| - 1] == DOT {
        return None;
      }
      found := n.value;
    }
    return Some(found);
  }

  // ----- Reading extension_data -----

  method LoadU16List(w: int, data: bytes) returns (ns: Option<seq<u16>>)
    ensures ns == OnlyU16s(w, data)
  {
    hide ReadLP, ReadU16s;
    var l := ReadLP(w, data);
    if l.Short? || l.rest != [] || l.value == [] {
      return None;
    }
    ns := LoadU16s(l.value);
  }

  method LoadPsk(m: Hello, data: bytes) returns (r: Option<Hello>)
    ensures r == ApplyPsk(m, data)
  {
    hide ReadLP16, ReadIdentities, ReadLPs;
    var i := ReadLP16(data);
    if i.Short? || i.value == [] {
      return None;
    }
    var ids := LoadIdentities(i.value);
    if ids.None? {
      return None;
    }
    var b := ReadLP16(i.rest);
    if b.Short? || b.value == [] {
      return None;
    }
    var binders := LoadLP8s(b.value);
    if binders.None? || b.rest != [] {
      return None;
    }
    return Some(m.(pskIdentities := m.pskIdentities + ids.value, pskBinders := m.pskBinders + binders.value));
  }

  /** The extensions that hold a list. */
  method LoadListExt(m: Hello, typ: u16, data: bytes) returns (r: Option<Hello>)
    requires typ in {0, 10, 13, 50, 16, 43, 51}
    ensures r == Apply(m, typ, data, false)
  {
    hide ReadLP, ReadU16s, ReadLPs, ReadKeyShares, ReadNames;
    if typ in {10, 13, 50, 43} {
      var l := LoadU16List(if typ == 43 then 1 else 2, data);
      if l.None? {
        return None;
      }
      match typ
      case 10 => return Some(m.(supportedCurves := m.supportedCurves + l.value));
      case 13 => return Some(m.(sigAlgs := m.sigAlgs + l.value));
      case 50 => return Some(m.(sigAlgsCert := m.sigAlgsCert + l.value));
      case _ => return Some(m.(supportedVersions := m.supportedVersions + l.value));
    }
    var b := ReadLP(2, data);
    if b.Short? || (typ != 51 && b.value == []) {
      return None;
    }
    if typ == 0 {
      var n := LoadNames(b.value, m.serverName);
      return if n.None? || b.rest != [] then None else Some(m.(serverName := n.value));
    } else if typ == 16 {
      var ps := LoadLP8s(b.value);
      return if ps.None? || b.rest != [] then None else Some(m.(alpnProtocols := m.alpnProtocols + ps.value));
    } else {
      var ks := LoadKeyShares(b.value);
      return if ks.None? || b.rest != [] then None else Some(m.(keyShares := m.keyShares + ks.value));
    }
  }

  /** The extensions that hold one string or nothing. */
  method LoadPlainExt(m: Hello, typ: u16, data: bytes) returns (r: Option<Hello>)
    requires typ !in {0, 10, 13, 50, 16, 43, 51, 41}
    ensures r == Apply(m, typ, data, false)
  {
    hide ReadLP8, ReadLP16, ReadU8;
    match typ
    case 5 =>
      var t := ReadU8(data);
      if t.Short? { return None; }
      var a := ReadLP16(t.rest);
      if a.Short? { return None; }
      var b := ReadLP16(a.rest);
      if b.Short? || b.rest != [] { return None; }
      return Some(m.(ocspStapling := t.value == 1));
    case 11 =>
      var b := ReadLP8(data);
      if b.Short? || b.value == [] || b.rest != [] { return None; }
      return Some(m.(supportedPoints := b.value));
    case 35 => return Some(m.(ticketSupported := true, sessionTicket := data));
    case 0xff01 =>
      var b := ReadLP8(data);
      if b.Short? || b.rest != [] { return None; }
      return Some(m.(secureRenegotiation := b.value, secureRenegotiationSupported := true));
    case 23 => return if data != [] then None else Some(m.(extendedMasterSecret := true));
    case 18 => return if data != [] then None else Some(m.(scts := true));
    case 44 =>
      var b := ReadLP16(data);
      if b.Short? || b.value == [] || b.rest != [] { return None; }
      return Some(m.(cookie := b.value));
    case 42 => return if data != [] then None else Some(m.(earlyData := true));
    case 45 =>
      var b := ReadLP8(data);
      if b.Short? || b.rest != [] { return None; }
      return Some(m.(pskModes := b.value));
    case 57 => return Some(m.(quicTransportParameters := Some(data)));
    case 0xfe0d => return Some(m.(encryptedClientHello := data));
    case _ => return Some(m);
  }

  lemma LastOnlyMattersForPsk(m: Hello, typ: u16, data: bytes, last: bool)
    ensures Apply(m, typ, data, last) ==
            if typ == 41 then (if last then ApplyPsk(m, data) else None) else Apply(m, typ, data, false)
  {
    hide Only, OnlyU16s, ReadNames, ReadLPs, ReadKeyShares, ApplyPsk, ReadLP16, ReadU8;
  }

  method LoadExt(m: Hello, typ: u16, data: bytes, last: bool) returns (r: Option<Hello>)
    ensures r == Apply(m, typ, data, last)
  {
    hide Apply, ApplyPsk;
    LastOnlyMattersForPsk(m, typ, data, last);
    if typ == 41 {
      if !last {
        return None;
      }
      r := LoadPsk(m, data);
    } else if typ in {0, 10, 13, 50, 16, 43, 51} {
      r := LoadListExt(m, typ, data);
    } else {
      r := LoadPlainExt(m, typ, data);
    }
  }

  // ----- Reading the message -----

  method LoadExts(block: bytes, start: Hello) returns (r: Option<Hello>)
    ensures r == ReadExts(block, {}, start)
  {
    hide Apply, ReadU16, ReadLP16;
    var cur, m := block, start;
    var seen: set<u16> := {};
    while cur != []
      invariant ReadExts(block, {}, start) == ReadExts(cur, seen, m)
      decreases |cur|
    {
      var t := ReadU16(cur);
      if t.Short? {
        return None;
      }
      var d := ReadLP16(t.rest);
      if d.Short? || t.value in seen {
        return None;
      }
      seen := seen + {t.value};
      m := m.(extensions := m.extensions + [t.value]);
      var n := LoadExt(m, t.value, d.value, d.rest == []);
      if n.None? {
        return None;
      }
      m, cur := n.value, d.rest;
    }
    return Some(m);
  }

  /** The suite list, noting whether the renegotiation signal is among it. */
  method LoadSuites(s: bytes) returns (suites: Option<seq<u16>>, scsv: bool)
    ensures suites == ReadU16s(s)
    ensures suites.Some? ==> scsv == (SCSV_RENEGOTIATION in suites.value)
  {
    hide ReadU16;
    var cur, acc: seq<u16> := s, [];
    scsv := false;
    ThenNothing([], ReadU16s(s));
    while cur != []
      invariant ReadU16s(s) == Then(acc, ReadU16s(cur))
      invariant scsv == (SCSV_RENEGOTIATION in acc)
      decreases |cur|
    {
      var n := ReadU16(cur);
      if n.Short? {
        return None, scsv;
      }
      ThenOne(acc, n.value, ReadU16s(n.rest));
      if n.value == SCSV_RENEGOTIATION {
        scsv := true;
      }
      acc, cur := acc + [n.value], n.rest;
    }
    ThenNothing(acc, ReadU16s(s));
    suites := Some(acc);
  }

  method UnmarshalHello(data: bytes) returns (m: Option<Hello>)
    ensures m == Unmarshal(data)
  {
    hide ReadLP8, ReadLP16, ReadU16, ReadU16s, ReadExts;
    if |data| < 4 {
      return None;
    }
    var v := ReadU16(data[4..]);
    if v.Short? || |v.rest| < 32 {
      return None;
    }
    var h := FRESH.(original := Some(data), vers := v.value, random := v.rest[..32]);
    var sid := ReadLP8(v.rest[32..]);
    if sid.Short? {
      return None;
    }
    var cs := ReadLP16(sid.rest);
    if cs.Short? {
      return None;
    }
    var suites, scsv := LoadSuites(cs.value);
    if suites.None? {
      return None;
    }
    var comp := ReadLP8(cs.rest);
    if comp.Short? {
      return None;
    }
    h := h.(sessionId := sid.value, cipherSuites := suites.value, secureRenegotiationSupported := scsv,
            compressionMethods := comp.value);
    if comp.rest == [] {
      return Some(h);
    }
    var x := ReadLP16(comp.rest);
    if x.Short? || x.rest != [] {
      return None;
    }
    m := LoadExts(x.value, h);
  }
}
