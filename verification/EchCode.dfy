/**
 The code that encodes and decodes an inner hello: appending zero padding,
 listing the outer extensions, and rebuilding the inner extension block with a
 scan over the outer extensions that never moves backwards.
 */
module EchCode {
  import opened Bytes
  import opened Versions
  import opened ClientHello
  import opened Ech
  import opened HelloCode
  import opened HelloReader

  method EncodeInnerHello(inner: Hello, maxNameLength: byte) returns (encoded: Option<bytes>)
    ensures encoded == EncodeInner(inner, maxNameLength)
  {
    hide MarshalInner, Marshal;
    var h := MarshalMsg(inner, true);
    if h.None? {
      return None;
    }
    assert |h.value| > 4 by { InnerLong(inner); }
    var padding: int;
    if inner.serverName != [] {
      padding := if maxNameLength - |inner.serverName| > 0 then maxNameLength - |inner.serverName| else 0;
    } else {
      padding := maxNameLength as int + 9;
    }
    padding := 31 - (|h.value| - 4 + padding - 1) % 32;
    return Some(h.value[4..] + Zeros(padding));
  }

  lemma InnerLong(m: Hello)
    requires MarshalInner(m).Some?
    ensures |MarshalInner(m).value| > 4
  {
    hide ExtBytes, InnerExts, U16s, U16;
  }

  // ----- Listing the outer extensions -----

  method ListRawExts(block: bytes) returns (raw: Option<seq<RawExt>>)
    ensures raw == ReadRawExts(block)
  {
    hide ReadU16, ReadLP16;
    var cur, acc: seq<RawExt> := block, [];
    ThenNothing([], ReadRawExts(block));
    while cur != []
      invariant ReadRawExts(block) == Then(acc, ReadRawExts(cur))
      decreases |cur|
    {
      var t := ReadU16(cur);
      if t.Short? {
        return None;
      }
      var d := ReadLP16(t.rest);
      if d.Short? {
        return None;
      }
      ThenOne(acc, RawExt(t.value, d.value), ReadRawExts(d.rest));
      acc, cur := acc + [RawExt(t.value, d.value)], d.rest;
    }
    ThenNothing(acc, ReadRawExts(block));
    return Some(acc);
  }

  method ExtractRawExtensions(original: bytes) returns (raw: Option<seq<RawExt>>)
    ensures raw == RawExtensions(original)
  {
    hide ReadLP8, ReadLP16, ReadRawExts;
    if |original| < 4 + 2 + 32 {
      return None;
    }
    var sid := ReadLP8(original[4 + 2 + 32..]);
    if sid.Short? {
      return None;
    }
    var cs := ReadLP16(sid.rest);
    if cs.Short? {
      return None;
    }
    var comp := ReadLP8(cs.rest);
    if comp.Short? {
      return None;
    }
    var x := ReadLP16(comp.rest);
    if x.Short? {
      return None;
    }
    raw := ListRawExts(x.value);
  }

  // ----- Rebuilding the inner extension block -----

  /** A block whose first part `done` has been written already. */
  function Behind(done: bytes, r: Decoded<bytes>): Decoded<bytes>
  {
    if r.Err? then r else Ok(done + r.value)
  }

  lemma BehindPart(done: bytes, part: bytes, r: Decoded<bytes>)
    ensures Behind(done, Behind(part, r)) == Behind(done + part, r)
    ensures Behind([], r) == r && Behind(done, Ok([])) == Ok(done)
  {
    if r.Ok? {
      Assoc(done, part, r.value);
      assert [] + r.value == r.value;
    }
    assert done + [] == done;
  }

  /** Copies the named outer extensions; `i` only ever moves forward. */
  method CopyNamed(names: bytes, raw: seq<RawExt>) returns (block: Decoded<bytes>)
    ensures block == CopyOuter(names, raw, 0)
  {
    hide ReadU16, U16, LP16;
    var cur, acc: bytes := names, [];
    var i := 0;
    BehindPart([], [], CopyOuter(names, raw, 0));
    while cur != []
      invariant 0 <= i <= |raw|
      invariant CopyOuter(names, raw, 0) == Behind(acc, CopyOuter(cur, raw, i))
      decreases |cur|
    {
      var t := ReadU16(cur);
      if t.Short? {
        return Err(InnerMalformed);
      }
      if t.value == ENCRYPTED_CLIENT_HELLO {
        return Err(OuterExtsInvalid);
      }
      ghost var i0 := i;
      while i < |raw| && raw[i].typ != t.value
        invariant i0 <= i <= |raw| && Find(raw, t.value, i0) == Find(raw, t.value, i)
      {
        i := i + 1;
      }
      if i == |raw| {
        return Err(OuterExtsInvalid);
      }
      var part := U16(raw[i].typ) + LP16(raw[i].data);
      BehindPart(acc, part, CopyOuter(t.rest, raw, i));
      acc, cur := acc + part, t.rest;
    }
    BehindPart(acc, [], Ok([]));
    return Ok(acc);
  }

  method ExpandBlock(inner: bytes, raw: seq<RawExt>) returns (block: Decoded<bytes>)
    ensures block == Expand(inner, raw)
  {
    hide ReadU16, ReadLP16, ReadLP8, U16, LP16, CopyOuter;
    var cur, acc: bytes := inner, [];
    BehindPart([], [], Expand(inner, raw));
    while cur != []
      invariant Expand(inner, raw) == Behind(acc, Expand(cur, raw))
      decreases |cur|
    {
      var t := ReadU16(cur);
      if t.Short? {
        return Err(InnerMalformed);
      }
      var d := ReadLP16(t.rest);
      if d.Short? {
        return Err(InnerMalformed);
      }
      var part: bytes;
      if t.value == ECH_OUTER_EXTENSIONS {
        var l := ReadLP8(d.value);
        if l.Short? {
          return Err(InnerMalformed);
        }
        var copied := CopyNamed(l.value, raw);
        if copied.Err? {
          return copied;
        }
        part := copied.value;
      } else {
        part := U16(t.value) + LP16(d.value);
      }
      BehindPart(acc, part, Expand(d.rest, raw));
      acc, cur := acc + part, d.rest;
    }
    BehindPart(acc, [], Ok([]));
    return Ok(acc);
  }

  method AllZero(s: bytes) returns (z: bool)
    ensures z == (s == Zeros(|s|))
  {
    for i := 0 to |s|
      invariant forall j :: 0 <= j < i ==> s[j] == 0
    {
      if s[i] != 0 {
        return false;
      }
    }
    return true;
  }

  method DecodeInnerHello(outer: Hello, encoded: bytes) returns (inner: Decoded<Hello>)
    ensures inner == DecodeInner(outer, encoded)
  {
    hide ReadLP8, ReadLP16, RawExtensions, Expand, Rebuild, Zeros, Unmarshal;
    if |encoded| < 2 + 32 {
      return Err(InnerMalformed);
    }
    var versionAndRandom := encoded[..2 + 32];
    var sid := ReadLP8(encoded[2 + 32..]);
    if sid.Short? || sid.value != [] {
      return Err(InnerMalformed);
    }
    var cs := ReadLP16(sid.rest);
    if cs.Short? {
      return Err(InnerMalformed);
    }
    var comp := ReadLP8(cs.rest);
    if comp.Short? {
      return Err(InnerMalformed);
    }
    var x := ReadLP16(comp.rest);
    if x.Short? {
      return Err(InnerMalformed);
    }
    var padded := AllZero(x.rest);
    if !padded {
      return Err(InnerMalformed);
    }
    var raw := ExtractRawExtensions(if outer.original.Some? then outer.original.value else []);
    if raw.None? {
      return Err(OuterMalformed);
    }
    var exts := ExpandBlock(x.value, raw.value);
    if exts.Err? {
      return Err(exts.error);
    }
    var data := Rebuild(versionAndRandom, outer.sessionId, cs.value, comp.value, exts.value);
    if data.None? {
      return Err(TooLong);
    }
    var m := UnmarshalHello(data.value);
    if m.None? {
      return Err(RebuiltMalformed);
    }
    if m.value.encryptedClientHello != [1] {
      return Err(EchExtInvalid);
    }
    if |m.value.supportedVersions| != 1 || m.value.supportedVersions[0] != VERSION_TLS13 {
      return Err(VersionsIncompatible);
    }
    return Ok(m.value);
  }
}
