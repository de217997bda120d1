/**
 The proxy's own ClientHello parser, which looks for the server name with a
 moving offset.
 */
module SniParser {
  import opened Bytes
  import opened ClientHello
  import opened HalfConn

  const KEY_SHARE: u16 := 51

  /** What was found; `sniPos` is -1 when there is no server name. */
  datatype Parsed = Malformed | Parsed(version: bytes, sniPos: int, sniLen: nat, hasKeyShare: bool)

  /** Where the name of a server_name extension lies in `data`, when its first entry is a host name. */
  function NamePlace(data: bytes, start: nat, end: nat): (r: Option<(nat, nat)>)
    requires start <= end <= |data|
    ensures r.Some? ==> start + 5 == r.value.0 && r.value.0 + r.value.1 <= end
  {
    if end - start < 2 || Pair(data[start], data[start + 1]) + 2 != end - start then None
    else if start + 5 > end || data[start + 2] != 0 then None
    else
      var n: nat := Pair(data[start + 3], data[start + 4]);
      if start + 5 + n > end then None else Some((start + 5, n))
  }

  /** The loop over the extensions in `data[off..end]`. */
  function ParseExts(data: bytes, version: bytes, off: nat, end: nat, sniPos: int, sniLen: nat, keyShare: bool): (r: Parsed)
    requires off <= end <= |data| && -1 <= sniPos && sniPos + sniLen <= |data|
    ensures r.Parsed? ==> r.version == version && (r.sniPos == sniPos || off + 9 <= r.sniPos)
                          && r.sniPos + r.sniLen <= |data|
    decreases end - off
  {
    if off + 4 > end then Parsed(version, sniPos, sniLen, keyShare) else
    var typ, start := Pair(data[off], data[off + 1]), off + 4;
    var next: nat := start + Pair(data[off + 2], data[off + 3]);
    if next > end then Malformed else
    var share := keyShare || typ == KEY_SHARE;
    if typ == KEY_SHARE && sniPos != -1 then Parsed(version, sniPos, sniLen, true)
    else if sniPos == -1 && typ == 0 then
      var place := NamePlace(data, start, next);
      if place.None? then Malformed
      else if share then Parsed(version, place.value.0, place.value.1, true)
      else ParseExts(data, version, next, end, place.value.0, place.value.1, share)
    else ParseExts(data, version, next, end, sniPos, sniLen, share)
  }

  /** The offset behind a vector with a one-byte length, or `None` when it runs past the data. */
  function Skip8(data: bytes, off: nat): (r: Option<nat>)
    ensures r.Some? ==> off < r.value <= |data|
  {
    if off >= |data| then None else
    var next: nat := off + 1 + data[off];
    if next > |data| then None else Some(next)
  }

  function Skip16(data: bytes, off: nat): (r: Option<nat>)
    ensures r.Some? ==> off + 2 <= r.value <= |data|
  {
    if off + 2 > |data| then None else
    var next: nat := off + 2 + Pair(data[off], data[off + 1]);
    if next > |data| then None else Some(next)
  }

  /** The record holds the start of a ClientHello with its fixed fields. */
  predicate HeaderOk(data: bytes)
  {
    && |data| >= 5 && |data| >= 5 + Pair(data[3], data[4]) && Pair(data[3], data[4]) >= 4 && data[5] == TYPE_CLIENT_HELLO
    && var n := data[6] as int * 0x1_0000 + Pair(data[7], data[8]);
       35 <= n && n + 4 <= Pair(data[3], data[4])
  }

  function ParseHello(data: bytes): (r: Parsed)
    ensures r.Parsed? ==> r.sniPos == -1 || (HEADER_LEN < r.sniPos && r.sniPos >= 58)
    ensures r.Parsed? ==> r.sniPos + r.sniLen <= |data| && (r.sniPos == -1 ==> r.sniLen == 0)
  {
    if !HeaderOk(data) then Malformed else
    var sid := Skip8(data, 43);
    if sid.None? then Malformed else
    var suites := Skip16(data, sid.value);
    if suites.None? then Malformed else
    var comp := Skip8(data, suites.value);
    if comp.None? then Malformed
    else if comp.value + 2 > |data| then Parsed(data[9..11], -1, 0, false)
    else
      var end := Skip16(data, comp.value);
      if end.None? then Malformed
      else AbsentIsEmpty(data, comp.value + 2, end.value);
           ParseExts(data, data[9..11], comp.value + 2, end.value, -1, 0, false)
  }

  lemma {:induction false} AbsentStays(data: bytes, version: bytes, off: nat, end: nat, sniPos: int, sniLen: nat, share: bool)
    requires off <= end <= |data| && -1 <= sniPos && sniPos + sniLen <= |data| && (sniPos == -1 ==> sniLen == 0)
    ensures var r := ParseExts(data, version, off, end, sniPos, sniLen, share);
            r.Parsed? && r.sniPos == -1 ==> r.sniLen == 0
    decreases end - off
  {
    if off + 4 <= end {
      var typ, start := Pair(data[off], data[off + 1]), off + 4;
      var next: nat := start + Pair(data[off + 2], data[off + 3]);
      if next <= end {
        var place := NamePlace(data, start, next);
        if sniPos == -1 && typ == 0 && place.Some? {
          AbsentStays(data, version, next, end, place.value.0, place.value.1, share || typ == KEY_SHARE);
        } else {
          AbsentStays(data, version, next, end, sniPos, sniLen, share || typ == KEY_SHARE);
        }
      }
    }
  }

  lemma AbsentIsEmpty(data: bytes, off: nat, end: nat)
    requires 11 <= |data| && off <= end <= |data|
    ensures var r := ParseExts(data, data[9..11], off, end, -1, 0, false);
            r.Parsed? && r.sniPos == -1 ==> r.sniLen == 0
  {
    AbsentStays(data, data[9..11], off, end, -1, 0, false);
  }

  /** The parser as written: no index it uses is ever out of range, whatever the bytes. */
  method ParseClientHello(data: bytes) returns (r: Parsed)
    ensures r == ParseHello(data)
  {
    hide Pair, NamePlace;
    if |data| < HEADER_LEN {
      return Malformed;
    }
    var recordLen := Pair(data[3], data[4]);
    if |data| < HEADER_LEN + recordLen || recordLen < 4 {
      return Malformed;
    }
    var offset := HEADER_LEN;
    if data[offset] != TYPE_CLIENT_HELLO {
      return Malformed;
    }
    var handshakeLen := data[offset + 1] as int * 0x1_0000 + Pair(data[offset + 2], data[offset + 3]);
    if handshakeLen + 4 > recordLen || handshakeLen < 2 + 32 + 1 {
      return Malformed;
    }
    offset := offset + 4;
    var version := data[offset..offset + 2];
    offset := offset + 2 + 32;
    if offset >= |data| {
      return Malformed;
    }
    offset := offset + 1 + data[offset];
    if offset > |data| || offset + 2 > |data| {
      return Malformed;
    }
    PairRange(data[offset], data[offset + 1]);
    offset := offset + 2 + Pair(data[offset], data[offset + 1]);
    if offset > |data| || offset >= |data| {
      return Malformed;
    }
    offset := offset + 1 + data[offset];
    if offset > |data| {
      return Malformed;
    }
    if offset + 2 > |data| {
      return Parsed(version, -1, 0, false);
    }
    PairRange(data[offset], data[offset + 1]);
    var end := offset + 2 + Pair(data[offset], data[offset + 1]);
    offset := offset + 2;
    if end > |data| {
      return Malformed;
    }
    r := ScanExts(data, version, offset, end);
  }

  method ScanExts(data: bytes, version: bytes, first: nat, end: nat) returns (r: Parsed)
    requires first <= end <= |data|
    ensures r == ParseExts(data, version, first, end, -1, 0, false)
  {
    hide Pair;
    var offset, sniPos, sniLen, hasKeyShare := first, -1, 0, false;
    while offset + 4 <= end
      invariant first <= offset <= end && -1 <= sniPos && 0 <= sniLen && sniPos + sniLen <= |data|
      invariant ParseExts(data, version, first, end, -1, 0, false) ==
                ParseExts(data, version, offset, end, sniPos, sniLen, hasKeyShare)
      decreases end - offset
    {
      var extType := Pair(data[offset], data[offset + 1]);
      PairRange(data[offset + 2], data[offset + 3]);
      var extDataStart := offset + 4;
      var extDataEnd := extDataStart + Pair(data[offset + 2], data[offset + 3]);
      if extDataEnd > end {
        return Malformed;
      }
      if extType == KEY_SHARE {
        hasKeyShare := true;
        if sniPos != -1 {
          return Parsed(version, sniPos, sniLen, hasKeyShare);
        }
      }
      if sniPos == -1 && extType == 0 {
        var extLen := extDataEnd - extDataStart;
        if extLen < 2 || Pair(data[extDataStart], data[extDataStart + 1]) + 2 != extLen {
          return Malformed;
        }
        var cursor := extDataStart + 2;
        if cursor + 3 > extDataEnd || data[cursor] != 0 {
          return Malformed;
        }
        PairRange(data[cursor + 1], data[cursor + 2]);
        var nameLen := Pair(data[cursor + 1], data[cursor + 2]);
        var nameStart := cursor + 3;
        if nameStart + nameLen > extDataEnd {
          return Malformed;
        }
        sniPos, sniLen := nameStart, nameLen;
        if hasKeyShare {
          return Parsed(version, sniPos, sniLen, hasKeyShare);
        }
      }
      offset := extDataEnd;
    }
    return Parsed(version, sniPos, sniLen, hasKeyShare);
  }
}
