/**
 The proxy's parser and the library's parser, on every hello that the library
 accepts: when the proxy finds a name it is the library's name, and the proxy
 gives up exactly when the server_name list does not start with a host name.
 */
module SniAgreement {
  import opened Bytes
  import opened ClientHello
  import opened HalfConn
  import opened SniParser
  import opened Ech

  /** Reading a vector off a suffix of the data is skipping it by offset. */
  lemma Suffix8(data: bytes, off: nat)
    requires off <= |data|
    ensures var r := ReadLP8(data[off..]);
            r.Got? <==> Skip8(data, off).Some?
    ensures Skip8(data, off).Some? ==> ReadLP8(data[off..]).rest == data[Skip8(data, off).value..]
  {
    if off < |data| {
      assert data[off..][0] == data[off];
      assert data[off..][1..] == data[off + 1..];
      var n := data[off];
      if off + 1 + n <= |data| {
        assert data[off + 1..][n..] == data[off + 1 + n..];
      }
    }
  }

  lemma Suffix16(data: bytes, off: nat)
    requires off <= |data|
    ensures ReadLP16(data[off..]).Got? <==> Skip16(data, off).Some?
    ensures Skip16(data, off).Some? ==>
              && ReadLP16(data[off..]).value == data[off + 2..Skip16(data, off).value]
              && ReadLP16(data[off..]).rest == data[Skip16(data, off).value..]
  {
    if off + 2 <= |data| {
      var s := data[off..];
      assert s[0] == data[off] && s[1] == data[off + 1];
      assert s[2..] == data[off + 2..];
      PairRange(s[0], s[1]);
      var n := Pair(s[0], s[1]);
      if off + 2 + n <= |data| {
        assert data[off + 2..][n..] == data[off + 2 + n..];
        assert data[off + 2..][..n] == data[off + 2..off + 2 + n];
      }
    }
  }

  // ----- What the library's parser does with a server_name extension -----

  lemma {:induction false} NamesKeep(s: bytes, name: bytes)
    requires name != [] && ReadNames(s, name).Some?
    ensures ReadNames(s, name).value == name
    decreases |s|
  {
    hide ReadU8, ReadLP16;
    if s != [] {
      var n := ReadLP16(ReadU8(s).rest);
      NamesKeep(n.rest, name);
    }
  }

  /** The first entry of an accepted list is the name, if it is a host name. */
  lemma FirstName(list: bytes)
    requires list != [] && ReadNames(list, []).Some?
    ensures var n := ReadLP16(list[1..]);
            n.Got? && n.value != [] && (list[0] == 0 ==> ReadNames(list, []).value == n.value)
  {
    hide ReadLP16;
    var n := ReadLP16(list[1..]);
    if list[0] == 0 && ReadNames(list, []).Some? {
      NamesKeep(n.rest, n.value);
    }
  }

  /** The host name in the data of a server_name extension, as the proxy reads it. */
  function NameOf(d: bytes): Option<bytes>
  {
    var p := NamePlace(d, 0, |d|);
    if p.None? then None else Some(d[p.value.0..p.value.0 + p.value.1])
  }

  /** What the library makes of the data, when it accepts it. */
  function LibraryName(d: bytes): Option<bytes>
  {
    var l := Only(2, d);
    if l.None? || l.value == [] then None else ReadNames(l.value, [])
  }

  /** On accepted data the proxy finds the library's name, or gives up because the first entry is of another type. */
  lemma SameName(d: bytes)
    requires LibraryName(d).Some?
    ensures |d| > 2 && NameOf(d) == if d[2] == 0 then LibraryName(d) else None
    ensures d[2] == 0 ==> LibraryName(d).value != []
  {
    hide ReadNames;
    Suffix16(d, 0);
    assert d[0..] == d;
    var list := ReadLP16(d).value;
    assert list == d[2..];
    FirstName(list);
    assert list[1..] == d[3..];
    Suffix16(d, 3);
    PairRange(d[3], d[4]);
  }

  // ----- The extensions as a list -----

  /** The library's loop over a list of extensions. */
  function ApplyAll(raw: seq<RawExt>, seen: set<u16>, m: Hello): Option<Hello>
  {
    if raw == [] then Some(m) else
    var e := raw[0];
    if e.typ in seen then None else
    var n := Apply(m.(extensions := m.extensions + [e.typ]), e.typ, e.data, |raw| == 1);
    if n.None? then None else ApplyAll(raw[1..], seen + {e.typ}, n.value)
  }

  lemma {:induction false} ReadsList(s: bytes, seen: set<u16>, m: Hello)
    requires ReadExts(s, seen, m).Some?
    ensures ReadRawExts(s).Some? && ApplyAll(ReadRawExts(s).value, seen, m) == ReadExts(s, seen, m)
    decreases |s|
  {
    hide Apply, ReadU16, ReadLP16;
    if s != [] {
      var t := ReadU16(s);
      var d := ReadLP16(t.rest);
      var n := Apply(m.(extensions := m.extensions + [t.value]), t.value, d.value, d.rest == []);
      ReadsList(d.rest, seen + {t.value}, n.value);
      var rest := ReadRawExts(d.rest).value;
      assert rest == [] <==> d.rest == [];
      assert ReadRawExts(s).value[1..] == rest;
    }
  }

  datatype Scanned = Bad | Scanned(name: Option<bytes>, share: bool)

  /** The proxy's loop over a list of extensions. */
  function ScanList(raw: seq<RawExt>, name: Option<bytes>, share: bool): Scanned
  {
    if raw == [] then Scanned(name, share) else
    var e := raw[0];
    var found := share || e.typ == KEY_SHARE;
    if e.typ == KEY_SHARE && name.Some? then Scanned(name, true)
    else if name.None? && e.typ == 0 then
      var n := NameOf(e.data);
      if n.None? then Bad else if found then Scanned(n, true) else ScanList(raw[1..], n, found)
    else ScanList(raw[1..], name, found)
  }

  function TypesOf(raw: seq<RawExt>): seq<u16>
  {
    if raw == [] then [] else [raw[0].typ] + TypesOf(raw[1..])
  }

  /** The first entry of every server_name extension in the list is a host name. */
  predicate HostFirst(raw: seq<RawExt>)
  {
    forall e :: e in raw && e.typ == 0 ==> |e.data| > 2 && e.data[2] == 0
  }

  /** Only a server_name extension sets the name, and none touches the list of types. */
  lemma ApplyKeeps(m: Hello, typ: u16, data: bytes, last: bool)
    requires Apply(m, typ, data, last).Some?
    ensures Apply(m, typ, data, last).value.extensions == m.extensions
    ensures typ != 0 ==> Apply(m, typ, data, last).value.serverName == m.serverName
    ensures typ == 0 && m.serverName == [] ==>
              LibraryName(data) == Some(Apply(m, typ, data, last).value.serverName)
  {
    if typ == 0 {
      assert Apply(m, 0, data, last).value.extensions == m.extensions;
      assert m.serverName == [] ==> LibraryName(data) == Some(Apply(m, 0, data, last).value.serverName);
    } else if typ == 41 {
    } else if typ in {10, 13, 50, 16, 43, 51} {
      ListApplied(m, typ, data, last);
    } else if typ in {5, 11, 35, 0xff01, 44, 45, 57, 0xfe0d} {
      StringApplied(m, typ, data, last);
    } else {
      FlagApplied(m, typ, data, last);
    }
  }

  predicate KeepsName(m: Hello, r: Option<Hello>)
  {
    r.Some? ==> r.value.extensions == m.extensions && r.value.serverName == m.serverName
  }

  lemma ListApplied(m: Hello, typ: u16, data: bytes, last: bool)
    requires typ in {10, 13, 50, 16, 43, 51}
    ensures KeepsName(m, Apply(m, typ, data, last))
  {
    hide Only, OnlyU16s, ReadLPs, ReadKeyShares;
  }

  lemma StringApplied(m: Hello, typ: u16, data: bytes, last: bool)
    requires typ in {5, 11, 35, 0xff01, 44, 45, 57, 0xfe0d}
    ensures KeepsName(m, Apply(m, typ, data, last))
  {
    hide Only, ReadLP16, ReadU8;
  }

  lemma FlagApplied(m: Hello, typ: u16, data: bytes, last: bool)
    requires typ !in {0, 41, 10, 13, 50, 16, 43, 51, 5, 11, 35, 0xff01, 44, 45, 57, 0xfe0d}
    ensures KeepsName(m, Apply(m, typ, data, last))
  {
    hide Only, OnlyU16s, ReadNames, ReadLPs, ReadKeyShares, ApplyPsk, ReadLP16, ReadU8;
  }

  /** The library records every type, and no type twice. */
  lemma {:induction false} TypesRecorded(raw: seq<RawExt>, seen: set<u16>, m: Hello)
    requires ApplyAll(raw, seen, m).Some?
    ensures ApplyAll(raw, seen, m).value.extensions == m.extensions + TypesOf(raw)
    ensures forall e :: e in raw ==> e.typ !in seen
    ensures 0 in seen ==> ApplyAll(raw, seen, m).value.serverName == m.serverName
  {
    hide Apply;
    if raw == [] {
      assert m.extensions + [] == m.extensions;
    } else {
      var e := raw[0];
      var k := m.(extensions := m.extensions + [e.typ]);
      ApplyKeeps(k, e.typ, e.data, |raw| == 1);
      var n := Apply(k, e.typ, e.data, |raw| == 1).value;
      TypesRecorded(raw[1..], seen + {e.typ}, n);
      assert m.extensions + [e.typ] + TypesOf(raw[1..]) == m.extensions + ([e.typ] + TypesOf(raw[1..]));
      forall x | x in raw ensures x.typ !in seen {
        if x != e {
          assert x in raw[1..];
        }
      }
    }
  }

  /** Once the name is found, only the key share is still looked for. */
  lemma {:induction false} FoundStays(raw: seq<RawExt>, name: bytes)
    ensures ScanList(raw, Some(name), false) == Scanned(Some(name), KEY_SHARE in TypesOf(raw))
  {
    if raw != [] && raw[0].typ != KEY_SHARE {
      FoundStays(raw[1..], name);
    }
  }

  /** What the proxy must report for a list that the library turns into `r`. */
  function Expected(raw: seq<RawExt>, r: Hello, share: bool): Scanned
  {
    if 0 !in TypesOf(raw) then Scanned(None, share || KEY_SHARE in TypesOf(raw))
    else if !HostFirst(raw) then Bad
    else Scanned(Some(r.serverName), share || KEY_SHARE in TypesOf(raw))
  }

  lemma {:induction false} ListsAgree(raw: seq<RawExt>, seen: set<u16>, m: Hello, share: bool)
    requires ApplyAll(raw, seen, m).Some? && m.serverName == []
    ensures ScanList(raw, None, share) == Expected(raw, ApplyAll(raw, seen, m).value, share)
    ensures 0 in TypesOf(raw) && HostFirst(raw) ==> ApplyAll(raw, seen, m).value.serverName != []
  {
    hide Apply, NameOf, LibraryName;
    if raw != [] {
      var e, rest := raw[0], raw[1..];
      var k := m.(extensions := m.extensions + [e.typ]);
      ApplyKeeps(k, e.typ, e.data, |raw| == 1);
      var n := Apply(k, e.typ, e.data, |raw| == 1).value;
      TypesRecorded(rest, seen + {e.typ}, n);
      assert raw == [e] + rest;
      if e.typ == 0 {
        SameName(e.data);
        assert HostFirst(raw) <==> e.data[2] == 0;
        FoundStays(rest, n.serverName);
      } else {
        ListsAgree(rest, seen + {e.typ}, n, share || e.typ == KEY_SHARE);
        assert HostFirst(raw) <==> HostFirst(rest);
      }
    }
  }

  // ----- From offsets to the list -----

  /** A result by position and a result by content say the same. */
  predicate Same(data: bytes, version: bytes, p: Parsed, q: Scanned)
  {
    if p.Malformed? then q.Bad?
    else q.Scanned? && p.version == version && p.hasKeyShare == q.share
         && if p.sniPos == -1 then q.name.None?
            else 0 <= p.sniPos && p.sniPos + p.sniLen <= |data|
                 && q.name == Some(data[p.sniPos..p.sniPos + p.sniLen])
  }

  /** The extension at `off`, and what is behind it. */
  lemma ExtAt(data: bytes, off: nat)
    requires off < |data| && ReadRawExts(data[off..]).Some?
    ensures off + 4 <= |data|
    ensures var next := off + 4 + Pair(data[off + 2], data[off + 3]);
            && off + 4 <= next <= |data| && ReadRawExts(data[next..]).Some?
            && var raw := ReadRawExts(data[off..]).value;
               raw != [] && raw[0] == RawExt(Pair(data[off], data[off + 1]), data[off + 4..next])
               && raw[1..] == ReadRawExts(data[next..]).value
  {
    hide Pair, ReadLP16;
    var s := data[off..];
    assert s[0] == data[off] && s[1] == data[off + 1];
    assert s[2..] == data[off + 2..];
    Suffix16(data, off + 2);
    PairRange(data[off + 2], data[off + 3]);
  }

  lemma NamePlaceShifts(data: bytes, start: nat, end: nat)
    requires start <= end <= |data|
    ensures var p, q := NamePlace(data, start, end), NameOf(data[start..end]);
            if p.None? then q.None? else q == Some(data[p.value.0..p.value.0 + p.value.1])
  {
    var d := data[start..end];
    assert forall i :: 0 <= i < |d| ==> d[i] == data[start + i];
    var p := NamePlace(data, start, end);
    if p.Some? {
      SliceOfSlice(data, start, end, 5, p.value.1);
    }
  }

  /** The loop by offset does what the loop over the list does. */
  lemma {:induction false} OffsetsFollowList(data: bytes, version: bytes, off: nat, pos: int, len: nat, share: bool)
    requires off <= |data| && -1 <= pos && pos + len <= |data| && ReadRawExts(data[off..]).Some?
    ensures Same(data, version, ParseExts(data, version, off, |data|, pos, len, share),
                 ScanList(ReadRawExts(data[off..]).value, if pos == -1 then None else Some(data[pos..pos + len]), share))
    decreases |data| - off
  {
    hide Pair, NamePlace, NameOf, ReadRawExts;
    if off == |data| {
      assert data[off..] == [];
    } else {
      ExtAt(data, off);
      var next := off + 4 + Pair(data[off + 2], data[off + 3]);
      var typ := Pair(data[off], data[off + 1]);
      NamePlaceShifts(data, off + 4, next);
      var place := NamePlace(data, off + 4, next);
      if pos == -1 && typ == 0 {
        if place.Some? && !share {
          OffsetsFollowList(data, version, next, place.value.0, place.value.1, share);
        }
      } else if !(typ == KEY_SHARE && pos != -1) {
        OffsetsFollowList(data, version, next, pos, len, share || typ == KEY_SHARE);
      }
    }
  }

  // ----- The whole message -----

  /** One record with one ClientHello in it and nothing else. */
  predicate OneHello(data: bytes)
  {
    && |data| >= HEADER_LEN + 4 && Pair(data[3], data[4]) == |data| - HEADER_LEN && data[5] == TYPE_CLIENT_HELLO
    && data[6] as int * 0x1_0000 + Pair(data[7], data[8]) == |data| - HEADER_LEN - 4
  }

  /** The offset of the extension block, when the library has accepted what comes before it. */
  lemma BlockPlace(data: bytes)
    requires OneHello(data) && Unmarshal(data[HEADER_LEN..]).Some?
    ensures HeaderOk(data)
    ensures var sid := Skip8(data, 43);
            && sid.Some? && Skip16(data, sid.value).Some?
            && var comp := Skip8(data, Skip16(data, sid.value).value);
               comp.Some?
               && var m := Unmarshal(data[HEADER_LEN..]).value;
                  if comp.value == |data| then m.extensions == [] && m.serverName == []
                  else Skip16(data, comp.value) == Some(|data|)
                       && exists start: Hello :: start.serverName == [] && start.extensions == []
                                                 && ReadExts(data[comp.value + 2..], {}, start) == Some(m)
  {
    hide Pair, ReadU16s, ReadExts, ReadLP8, ReadLP16, Skip8, Skip16;
    var s := data[HEADER_LEN..];
    assert s[4..] == data[9..];
    assert data[9..][2..] == data[11..];
    assert data[11..][32..] == data[43..];
    Suffix8(data, 43);
    var sid := ReadLP8(data[43..]);
    var a := Skip8(data, 43).value;
    Suffix16(data, a);
    var b := Skip16(data, a).value;
    Suffix8(data, b);
    var c := Skip8(data, b).value;
    Suffix16(data, c);
    if c != |data| {
      assert data[c..] != [];
      var cs := ReadLP16(sid.rest);
      var start := Start(s, ReadU16(data[9..]).value, data[11..][..32], sid.value, ReadU16s(cs.value).value,
                         ReadLP8(cs.rest).value);
      assert data[c + 2..|data|] == data[c + 2..];
      assert ReadExts(data[c + 2..], {}, start) == Unmarshal(s);
    }
  }

  /** The extensions of the message, in wire order. */
  function ExtensionsOf(data: bytes): seq<RawExt>
    requires |data| >= HEADER_LEN
  {
    var raw := RawExtensions(data[HEADER_LEN..]);
    if raw.None? then [] else raw.value
  }

  lemma BlockRaw(data: bytes, sid: nat, suites: nat, comp: nat)
    requires |data| >= 43 && Skip8(data, 43) == Some(sid) && Skip16(data, sid) == Some(suites)
    requires Skip8(data, suites) == Some(comp)
    ensures comp == |data| ==> ExtensionsOf(data) == []
    ensures Skip16(data, comp) == Some(|data|) && ReadRawExts(data[comp + 2..]).Some? ==>
              ExtensionsOf(data) == ReadRawExts(data[comp + 2..]).value
  {
    hide Pair, ReadRawExts, ReadLP8, ReadLP16, Skip8, Skip16;
    assert data[HEADER_LEN..][38..] == data[43..];
    Suffix8(data, 43);
    Suffix16(data, sid);
    Suffix8(data, suites);
    Suffix16(data, comp);
    if Skip16(data, comp) == Some(|data|) {
      assert data[comp + 2..|data|] == data[comp + 2..];
    }
    if comp == |data| {
      assert data[comp..] == [];
    }
  }

  /**
   On every hello the library accepts, the proxy's parser fails exactly when a
   server_name extension starts with an entry of another type, and otherwise
   reports the library's name, or no name when the extension is absent.
   */
  lemma ParsersAgree(data: bytes)
    requires OneHello(data) && Unmarshal(data[HEADER_LEN..]).Some?
    ensures var m, p, raw := Unmarshal(data[HEADER_LEN..]).value, ParseHello(data), ExtensionsOf(data);
            && (p.Malformed? <==> 0 in m.extensions && !HostFirst(raw))
            && (p.Parsed? ==>
                  && p.version == data[9..11] && p.hasKeyShare == (KEY_SHARE in m.extensions)
                  && (p.sniPos == -1 <==> 0 !in m.extensions)
                  && (p.sniPos != -1 ==> p.sniLen > 0 && data[p.sniPos..p.sniPos + p.sniLen] == m.serverName))
  {
    hide Pair, Unmarshal, ReadExts, ParseExts, ScanList, ReadRawExts, HostFirst, Skip8, Skip16, HeaderOk,
         RawExtensions, Same, Expected, TypesOf, ExtensionsOf;
    BlockPlace(data);
    var m := Unmarshal(data[HEADER_LEN..]).value;
    var sid := Skip8(data, 43).value;
    var suites := Skip16(data, sid).value;
    var comp := Skip8(data, suites).value;
    BlockRaw(data, sid, suites, comp);
    if comp != |data| {
      var start: Hello :| start.serverName == [] && start.extensions == []
                          && ReadExts(data[comp + 2..], {}, start) == Some(m);
      BlockAgrees(data, comp + 2, start, m);
    }
  }

  /** The same for the block of extensions, which starts at `off`. */
  lemma BlockAgrees(data: bytes, off: nat, start: Hello, m: Hello)
    requires |data| >= 11 && off <= |data| && start.serverName == [] && start.extensions == []
    requires ReadExts(data[off..], {}, start) == Some(m)
    ensures ReadRawExts(data[off..]).Some?
    ensures var p, raw := ParseExts(data, data[9..11], off, |data|, -1, 0, false), ReadRawExts(data[off..]).value;
            && (p.Malformed? <==> 0 in m.extensions && !HostFirst(raw))
            && (p.Parsed? ==>
                  && p.version == data[9..11] && p.hasKeyShare == (KEY_SHARE in m.extensions)
                  && (p.sniPos == -1 <==> 0 !in m.extensions)
                  && (p.sniPos != -1 ==> p.sniLen > 0 && data[p.sniPos..p.sniPos + p.sniLen] == m.serverName))
  {
    hide ReadExts, ParseExts, ScanList, ReadRawExts, HostFirst, Same, Expected, TypesOf, ApplyAll;
    ReadsList(data[off..], {}, start);
    var raw := ReadRawExts(data[off..]).value;
    ListsAgree(raw, {}, start, false);
    TypesRecorded(raw, {}, start);
    assert m.extensions == TypesOf(raw);
    OffsetsFollowList(data, data[9..11], off, -1, 0, false);
    ByPosition(data, data[9..11], ParseExts(data, data[9..11], off, |data|, -1, 0, false), raw, m);
  }

  /** What agreement by content means for the positions reported. */
  lemma ByPosition(data: bytes, version: bytes, p: Parsed, raw: seq<RawExt>, m: Hello)
    requires Same(data, version, p, Expected(raw, m, false))
    requires 0 in TypesOf(raw) && HostFirst(raw) ==> m.serverName != []
    ensures p.Malformed? <==> 0 in TypesOf(raw) && !HostFirst(raw)
    ensures p.Parsed? ==>
              && p.version == version && p.hasKeyShare == (KEY_SHARE in TypesOf(raw))
              && (p.sniPos == -1 <==> 0 !in TypesOf(raw))
              && (p.sniPos != -1 ==> 0 <= p.sniPos && p.sniPos + p.sniLen <= |data| && p.sniLen > 0
                                     && data[p.sniPos..p.sniPos + p.sniLen] == m.serverName)
  {
    hide HostFirst, TypesOf;
  }
}
