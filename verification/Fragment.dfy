/**
 Cutting one ClientHello record into several: where the cut goes, how the two
 sides of it are split into records, and how the result is written in segments.
 */
module Fragment {
  import opened Bytes
  import opened ClientHello
  import opened HalfConn

  // ----- The cut -----

  /** The last dot at or below `i`, not below `lo`; `lo - 1` when there is none. */
  function LastDot(data: bytes, lo: nat, i: int): (r: int)
    requires lo - 1 <= i < |data|
    ensures lo - 1 <= r <= i
    ensures r >= lo ==> data[r] == DOT
    ensures forall j :: lo <= j <= i && r < j ==> data[j] != DOT
    decreases i - lo + 1
  {
    if i < lo then lo - 1 else if data[i] == DOT then i else LastDot(data, lo, i - 1)
  }

  /** The name and the byte behind it hold a dot, and the last one stands at `d`. */
  predicate DotLast(data: bytes, pos: nat, len: nat, d: nat)
    requires pos + len < |data|
  {
    pos <= d <= pos + len && data[d] == DOT && DOT !in data[d + 1..pos + len + 1]
  }

  /** Where the record is cut: at the last dot of the name or of the byte behind it, else in the middle. */
  function CutAt(data: bytes, pos: nat, len: nat): (cut: nat)
    requires pos + len < |data|
    ensures pos <= cut <= pos + len
    ensures if DOT in data[pos..pos + len + 1] then DotLast(data, pos, len, cut) else cut == pos + len / 2
  {
    var d := LastDot(data, pos, pos + len);
    if d >= pos then d else pos + len / 2
  }

  method FindLastDot(data: bytes, sniPos: nat, sniLen: nat) returns (offset: nat, found: bool)
    requires sniPos + sniLen < |data|
    ensures offset == CutAt(data, sniPos, sniLen)
    ensures found <==> DOT in data[sniPos..sniPos + sniLen + 1]
    ensures found ==> data[offset] == DOT && DOT !in data[offset + 1..sniPos + sniLen + 1]
    ensures !found ==> offset == sniPos + sniLen / 2
  {
    var i := sniPos + sniLen;
    while i >= sniPos
      invariant sniPos - 1 <= i <= sniPos + sniLen
      invariant LastDot(data, sniPos, sniPos + sniLen) == LastDot(data, sniPos, i)
      invariant forall j :: i < j <= sniPos + sniLen ==> data[j] != DOT
      decreases i - sniPos + 1
    {
      if data[i] == DOT {
        assert data[sniPos..sniPos + sniLen + 1][i - sniPos] == DOT;
        return i, true;
      }
      i := i - 1;
    }
    return sniLen / 2 + sniPos, false;
  }

  // ----- Splitting -----

  predicate Enough(n: nat, base: nat, len: nat)
  {
    n * base <= len
  }

  /** `n` parts of `base` bytes each, the last with all that is left. */
  function Slices(data: bytes, base: nat, n: nat): (r: seq<bytes>)
    requires n > 0 && Enough(n, base, |data|)
    ensures |r| == n
  {
    if n == 1 then [data] else
    Leftover(base, n, |data|);
    [data[..base]] + Slices(data[base..], base, n - 1)
  }

  lemma Leftover(base: nat, n: nat, len: nat)
    requires n > 1 && Enough(n, base, len)
    ensures base <= len && Enough(n - 1, base, len - base)
  {
    assert n * base == base + (n - 1) * base;
    assert (n - 1) * base >= 0;
  }

  /** The first part, and what the loop goes on with. */
  lemma SlicesStep(data: bytes, base: nat, n: nat)
    requires n > 0 && Enough(n, base, |data|)
    ensures n == 1 ==> Slices(data, base, n) == [data]
    ensures n > 1 ==> base <= |data| && Enough(n - 1, base, |data| - base)
                      && Slices(data, base, n) == [data[..base]] + Slices(data[base..], base, n - 1)
  {
    hide Enough;
    if n > 1 {
      Leftover(base, n, |data|);
    }
  }

  /** No byte is lost, no part is empty, and all but the last have the same length. */
  lemma {:induction false} SlicesWhole(data: bytes, base: nat, n: nat)
    requires n > 0 && Enough(n, base, |data|)
    ensures Flat(Slices(data, base, n)) == data
    ensures forall i :: 0 <= i < n - 1 ==> |Slices(data, base, n)[i]| == base
    ensures base > 0 ==> forall i :: 0 <= i < n ==> Slices(data, base, n)[i] != []
    decreases n
  {
    if n == 1 {
      assert Slices(data, base, n)[1..] == [];
      assert data + [] == data;
    } else {
      Leftover(base, n, |data|);
      SlicesWhole(data[base..], base, n - 1);
      var r := Slices(data, base, n);
      assert r[1..] == Slices(data[base..], base, n - 1);
      assert data == data[..base] + data[base..];
      forall i | 0 <= i < n - 1 ensures |r[i]| == base {
        assert i > 0 ==> r[i] == r[1..][i - 1];
      }
      if base > 0 {
        forall i | 0 <= i < n ensures r[i] != [] {
          assert i > 0 ==> r[i] == r[1..][i - 1];
        }
      }
    }
  }

  lemma Share(len: nat, n: nat)
    requires n > 0
    ensures Enough(n, len / n, len) && (len >= n ==> len / n > 0)
  {
  }

  /** The parts of one side of the cut. */
  function Parts(data: bytes, n: int): seq<bytes>
  {
    if n <= 0 then []
    else if n == 1 || |data| < n then [data]
    else
      Share(|data|, n);
      Slices(data, |data| / n, n)
  }

  lemma PartsWhole(data: bytes, n: int)
    requires n >= 1
    ensures Flat(Parts(data, n)) == data
    ensures |Parts(data, n)| == if |data| < n then 1 else n
    ensures data != [] ==> [] !in Parts(data, n)
    ensures forall i :: 0 <= i < |Parts(data, n)| - 1 ==> |Parts(data, n)[i]| == |data| / n
  {
    Share(|data|, n);
    if n == 1 || |data| < n {
      assert Flat([data]) == data + Flat([]);
    } else {
      SlicesWhole(data, |data| / n, n);
    }
  }

  /** A record around a payload, under the first three bytes of another. */
  function Record(header: bytes, payload: bytes): bytes
  {
    header + U16(|payload|) + payload
  }

  function Records(header: bytes, ps: seq<bytes>): (r: seq<bytes>)
    ensures |r| == |ps|
    ensures forall i :: 0 <= i < |ps| ==> r[i] == Record(header, ps[i])
  {
    seq(|ps|, i requires 0 <= i < |ps| => Record(header, ps[i]))
  }

  method MakeRecord(header: bytes, payload: bytes) returns (rec: array<byte>)
    requires |header| == 3
    ensures fresh(rec) && rec[..] == Record(header, payload)
  {
    hide U16;
    rec := new byte[HEADER_LEN + |payload|];
    forall i | 0 <= i < 3 { rec[i] := header[i]; }
    var n := U16(|payload|);
    rec[3], rec[4] := n[0], n[1];
    forall i | 0 <= i < |payload| { rec[HEADER_LEN + i] := payload[i]; }
  }

  /** The parts themselves, or the records around them. */
  function Wrapped(header: Option<bytes>, ps: seq<bytes>): seq<bytes>
  {
    if header.Some? then Records(header.value, ps) else ps
  }

  lemma WrappedAppend(header: Option<bytes>, ps: seq<bytes>, p: bytes)
    ensures Wrapped(header, ps + [p]) ==
            Wrapped(header, ps) + [if header.Some? then Record(header.value, p) else p]
  {
    hide Record;
  }

  /** Appends the parts of `data`, each as a record when there is a header. */
  method SplitAndAppend(data: bytes, header: Option<bytes>, n: int, result: seq<bytes>) returns (r: seq<bytes>)
    requires header.Some? ==> |header.value| == 3
    ensures r == result + Wrapped(header, Parts(data, n))
  {
    hide Record, Wrapped, Slices, Enough;
    assert Wrapped(header, []) == [] by { WrappedNothing(header); }
    r := result;
    if n <= 0 {
      return;
    }
    if n == 1 || |data| < n {
      var rec := Wrap(header, data);
      WrappedAppend(header, [], data);
      assert [] + [data] == [data] && [] + [rec] == [rec];
      r := r + [rec];
      return;
    }
    var base := |data| / n;
    Share(|data|, n);
    ghost var ps := Slices(data, base, n);
    var i, left := 0, data;
    assert ps[..0] == [];
    while i < n
      invariant 0 <= i <= n && r == result + Wrapped(header, ps[..i])
      invariant i < n ==> Enough(n - i, base, |left|) && ps[i..] == Slices(left, base, n - i)
    {
      SlicesStep(left, base, n - i);
      var part := left;
      if i < n - 1 {
        part, left := left[..base], left[base..];
      }
      assert ps[i] == part by { assert ps[i..][0] == part; }
      assert ps[i..][1..] == ps[i + 1..];
      var rec := Wrap(header, part);
      WrappedAppend(header, ps[..i], part);
      assert ps[..i + 1] == ps[..i] + [part];
      r := r + [rec];
      i := i + 1;
    }
    assert ps[..n] == ps;
  }

  lemma WrappedNothing(header: Option<bytes>)
    ensures Wrapped(header, []) == []
  {
  }

  method Wrap(header: Option<bytes>, part: bytes) returns (r: bytes)
    requires header.Some? ==> |header.value| == 3
    ensures r == if header.Some? then Record(header.value, part) else part
  {
    if header.None? {
      return part;
    }
    var a := MakeRecord(header.value, part);
    return a[..];
  }

  // ----- What is sent -----

  /** The record with its minor version changed, when asked for. */
  function Edited(hello: bytes, modMinorVer: bool): (r: bytes)
    ensures |r| == |hello| && forall i :: 0 <= i < |r| && i != 2 ==> r[i] == hello[i]
    ensures |r| >= 3 ==> r[2] == if modMinorVer then 4 else hello[2]
  {
    if modMinorVer && |hello| >= 3 then hello[2 := 4] else hello
  }

  /** The payloads of the records sent for a hello cut at `cut`. */
  function Payloads(hello: bytes, cut: nat, records: nat): seq<bytes>
    requires HEADER_LEN <= cut <= |hello|
  {
    Parts(hello[HEADER_LEN..cut], records / 2) + Parts(hello[cut..], records - records / 2)
  }

  /** The bytes written to the connection in one go. */
  function Segments(merged: bytes, segments: nat): seq<bytes>
    requires segments >= 1
  {
    if segments == 1 || |merged| <= segments then [merged]
    else
      Share(|merged|, segments);
      Slices(merged, |merged| / segments, segments)
  }

  lemma SegmentsWhole(merged: bytes, segments: nat)
    requires segments >= 1
    ensures Flat(Segments(merged, segments)) == merged
    ensures |Segments(merged, segments)| == if |merged| <= segments then 1 else segments
    ensures forall i :: 0 <= i < |Segments(merged, segments)| - 1 ==>
              |Segments(merged, segments)[i]| == |merged| / segments
  {
    if segments == 1 || |merged| <= segments {
      assert Flat([merged]) == merged + Flat([]);
    } else {
      Share(|merged|, segments);
      SlicesWhole(merged, |merged| / segments, segments);
    }
  }

  /** The positions handed over let the search for the cut stay inside the record. */
  predicate InRange(hello: bytes, offset: int, length: int, records: nat, segments: nat)
  {
    && length >= 0
    && (records >= 2 ==> HEADER_LEN <= offset && offset + length < |hello|)
    && (records == 1 && segments > 1 ==> 20 <= offset && offset - 20 + length < |hello|)
  }

  /** The writes made for an edited hello. */
  function Plan(hello: bytes, offset: int, length: int, records: nat, segments: nat): seq<bytes>
    requires records >= 1 && segments >= 1 && InRange(hello, offset, length, records, segments)
  {
    if records == 1 then
      if segments == 1 then [hello] else
      var cut := CutAt(hello, offset - 20, length);
      Parts(hello[..cut], segments / 2) + Parts(hello[cut..], segments - segments / 2)
    else
      var cut := CutAt(hello, offset, length);
      Segments(Flat(Records(hello[..3], Payloads(hello, cut, records))), segments)
  }

  /** A connection on which `room` more writes succeed. */
  class Wire {
    var sent: seq<bytes>
    var room: nat

    constructor (room: nat)
      ensures sent == [] && this.room == room
    {
      sent, this.room := [], room;
    }

    method Write(b: bytes) returns (ok: bool)
      modifies this
      ensures ok == (old(room) > 0)
      ensures ok ==> sent == old(sent) + [b] && room == old(room) - 1
      ensures !ok ==> sent == old(sent) && room == old(room)
    {
      ok := room > 0;
      if ok {
        sent, room := sent + [b], room - 1;
      }
    }

    /** Writes the packets in order and stops at the first failure. */
    method WriteAll(packets: seq<bytes>) returns (ok: bool)
      modifies this
      ensures ok == (|packets| <= old(room))
      ensures sent == old(sent) + packets[..if ok then |packets| else old(room)]
    {
      for i := 0 to |packets|
        invariant i <= old(room) && room == old(room) - i && sent == old(sent) + packets[..i]
      {
        ok := Write(packets[i]);
        if !ok {
          return;
        }
        assert packets[..i + 1] == packets[..i] + [packets[i]];
      }
      ok := true;
    }

    method WriteSegments(merged: bytes, segments: nat) returns (ok: bool)
      requires segments >= 1
      modifies this
      ensures ok == (|Segments(merged, segments)| <= old(room))
      ensures sent == old(sent) + Segments(merged, segments)[..if ok then |Segments(merged, segments)| else old(room)]
    {
      hide Slices, Enough;
      ghost var plan := Segments(merged, segments);
      if segments == 1 || |merged| <= segments {
        ok := Write(merged);
        assert plan[..0] == [] && plan[..1] == [merged];
        return;
      }
      var base := |merged| / segments;
      Share(|merged|, segments);
      var left := merged;
      for i := 0 to segments
        invariant i <= old(room) && room == old(room) - i && sent == old(sent) + plan[..i]
        invariant i < segments ==> Enough(segments - i, base, |left|) && plan[i..] == Slices(left, base, segments - i)
      {
        SlicesStep(left, base, segments - i);
        var part := left;
        if i < segments - 1 {
          part, left := left[..base], left[base..];
        }
        assert plan[i] == part by { assert plan[i..][0] == part; }
        assert plan[i..][1..] == plan[i + 1..];
        ok := Write(part);
        if !ok {
          return;
        }
        assert plan[..i + 1] == plan[..i] + [part];
      }
      ok := true;
    }
  }

  method Merge(chunks: seq<bytes>) returns (merged: bytes)
    ensures merged == Flat(chunks)
  {
    merged := [];
    for i := 0 to |chunks|
      invariant merged == Flat(chunks[..i])
    {
      assert chunks[..i + 1] == chunks[..i] + [chunks[i]];
      FlatConcat(chunks[..i], [chunks[i]]);
      assert Flat([chunks[i]]) == chunks[i] + Flat([]);
      merged := merged + chunks[i];
    }
    assert chunks[..|chunks|] == chunks;
  }

  /** The records for a hello cut at `cut`. */
  method CutRecords(hello: bytes, cut: nat, records: nat) returns (chunks: seq<bytes>)
    requires HEADER_LEN <= cut <= |hello|
    ensures chunks == Records(hello[..3], Payloads(hello, cut, records))
  {
    hide Parts, Record;
    var header := hello[..3];
    chunks := SplitAndAppend(hello[HEADER_LEN..cut], Some(header), records / 2, []);
    chunks := SplitAndAppend(hello[cut..], Some(header), records - records / 2, chunks);
  }

  method CutPackets(hello: bytes, cut: nat, segments: nat) returns (packets: seq<bytes>)
    requires cut <= |hello|
    ensures packets == Parts(hello[..cut], segments / 2) + Parts(hello[cut..], segments - segments / 2)
  {
    hide Parts;
    packets := SplitAndAppend(hello[..cut], None, segments / 2, []);
    packets := SplitAndAppend(hello[cut..], None, segments - segments / 2, packets);
  }

  /** Sends the hello, whose minor version it edits in place. */
  method SendRecords(conn: Wire, hello: array<byte>, offset: int, length: int, records: nat, segments: nat,
                     modMinorVer: bool)
    returns (ok: bool)
    requires records >= 1 && segments >= 1 && InRange(hello[..], offset, length, records, segments)
    modifies conn, hello
    ensures hello[..] == Edited(old(hello[..]), modMinorVer)
    ensures var plan := Plan(hello[..], offset, length, records, segments);
            && ok == (|plan| <= old(conn.room))
            && conn.sent == old(conn.sent) + plan[..if ok then |plan| else old(conn.room)]
  {
    hide Parts, Segments, Records, CutAt, Payloads, Flat;
    if modMinorVer && hello.Length >= 3 {
      hello[2] := 4;
    }
    var data := hello[..];
    if records == 1 {
      if segments == 1 {
        ok := conn.WriteAll([data]);
        return;
      }
      var cut, _ := FindLastDot(data, offset - 20, length);
      var packets := CutPackets(data, cut, segments);
      ok := conn.WriteAll(packets);
      return;
    }
    var cut, _ := FindLastDot(data, offset, length);
    var chunks := CutRecords(data, cut, records);
    var merged := Merge(chunks);
    ok := conn.WriteSegments(merged, segments);
  }

  // ----- What every plan keeps -----

  /** With records left alone, the segments carry exactly the bytes of the hello. */
  lemma SegmentsOnly(hello: bytes, offset: int, length: int, segments: nat)
    requires segments >= 1 && InRange(hello, offset, length, 1, segments)
    ensures Flat(Plan(hello, offset, length, 1, segments)) == hello
  {
    hide Parts, LastDot;
    if segments == 1 {
      assert Flat([hello]) == hello + Flat([]);
    } else {
      var cut := CutAt(hello, offset - 20, length);
      var a, b := Parts(hello[..cut], segments / 2), Parts(hello[cut..], segments - segments / 2);
      PartsWhole(hello[..cut], segments / 2);
      PartsWhole(hello[cut..], segments - segments / 2);
      FlatConcat(a, b);
      assert hello == hello[..cut] + hello[cut..];
    }
  }

  /** The part behind the cut starts where the parts before it end. */
  lemma PartAtCut(before: bytes, after: bytes, n: nat, k: nat) returns (i: nat)
    requires n >= 1 && k >= 1 && after != []
    ensures var ps := Parts(before, n) + Parts(after, k);
            && Flat(ps) == before + after
            && i < |ps| && Flat(ps[..i]) == before && ps[i] != [] && ps[i][0] == after[0]
  {
    hide Parts;
    PartsWhole(before, n);
    PartsWhole(after, k);
    var a, b := Parts(before, n), Parts(after, k);
    var ps := a + b;
    i := |a|;
    FlatConcat(a, b);
    assert ps[..i] == a && ps[i] == b[0];
    assert b[0] in b && Flat(b) == b[0] + Flat(b[1..]);
  }

  /**
   Where the name holds a dot, its last label starts a record of its own: the payload of some record, or some
   segment when the record is left whole, begins exactly at the last dot.
   */
  lemma BeginsAtDot(hello: bytes, offset: int, length: int, records: nat, segments: nat, d: nat)
    returns (ps: seq<bytes>, i: nat)
    requires records >= 1 && segments >= 1 && records + segments > 2
    requires InRange(hello, offset, length, records, segments)
    requires DotLast(hello, if records == 1 then offset - 20 else offset, length, d)
    ensures i < |ps| && ps[i] != [] && ps[i][0] == DOT
    ensures records == 1 ==> ps == Plan(hello, offset, length, records, segments) && |Flat(ps[..i])| == d
    ensures records > 1 ==>
              && Flat(Plan(hello, offset, length, records, segments)) == Flat(Records(hello[..3], ps))
              && Flat(ps) == hello[HEADER_LEN..] && HEADER_LEN + |Flat(ps[..i])| == d
  {
    hide Parts, Segments, Records, Flat, LastDot;
    var pos := if records == 1 then offset - 20 else offset;
    var cut := CutAt(hello, pos, length);
    OneLastDot(hello, pos, length, d, cut);
    ps := Plan(hello, offset, length, records, segments);
    if records == 1 {
      i := PartAtCut(hello[..cut], hello[cut..], segments / 2, segments - segments / 2);
    } else {
      ps := Payloads(hello, cut, records);
      i := PartAtCut(hello[HEADER_LEN..cut], hello[cut..], records / 2, records - records / 2);
      assert hello[HEADER_LEN..] == hello[HEADER_LEN..cut] + hello[cut..];
      SegmentsWhole(Flat(Records(hello[..3], ps)), segments);
    }
  }

  lemma OneLastDot(data: bytes, pos: nat, len: nat, d: nat, e: nat)
    requires pos + len < |data| && DotLast(data, pos, len, d)
    requires if DOT in data[pos..pos + len + 1] then DotLast(data, pos, len, e) else e == pos + len / 2
    ensures d == e
  {
    assert data[pos..pos + len + 1][d - pos] == DOT;
  }

  /** The payloads join to the payload of the original record, and none is empty. */
  lemma PayloadsWhole(hello: bytes, cut: nat, records: nat)
    requires HEADER_LEN < cut < |hello| && records >= 2
    ensures Flat(Payloads(hello, cut, records)) == hello[HEADER_LEN..]
    ensures [] !in Payloads(hello, cut, records)
  {
    hide Parts;
    var a, b := Parts(hello[HEADER_LEN..cut], records / 2), Parts(hello[cut..], records - records / 2);
    PartsWhole(hello[HEADER_LEN..cut], records / 2);
    PartsWhole(hello[cut..], records - records / 2);
    FlatConcat(a, b);
    assert hello[HEADER_LEN..] == hello[HEADER_LEN..cut] + hello[cut..];
  }

  /** Every record keeps the original's first three bytes and frames a payload that is not empty. */
  lemma EveryRecord(hello: bytes, cut: nat, records: nat, i: nat)
    requires HEADER_LEN < cut < |hello| < 0x1_0000 && records >= 2 && i < |Payloads(hello, cut, records)|
    ensures var r := Records(hello[..3], Payloads(hello, cut, records))[i];
            && |r| > HEADER_LEN && r[..3] == hello[..3] && Pair(r[3], r[4]) == |r| - HEADER_LEN
            && r[HEADER_LEN..] == Payloads(hello, cut, records)[i]
  {
    hide Payloads, Flat;
    PayloadsWhole(hello, cut, records);
    NoPayloadCrosses(hello, cut, records, i);
    var p := Payloads(hello, cut, records)[i];
    assert p in Payloads(hello, cut, records);
    assert Pair(U16(|p|)[0], U16(|p|)[1]) == |p|;
  }

  /** Every payload lies wholly before or wholly behind the cut. */
  lemma {:induction false} NoPayloadCrosses(hello: bytes, cut: nat, records: nat, i: nat)
    requires HEADER_LEN < cut < |hello| && records >= 2 && i < |Payloads(hello, cut, records)|
    ensures var start := HEADER_LEN + |Flat(Payloads(hello, cut, records)[..i])|;
            var p := Payloads(hello, cut, records)[i];
            && start + |p| <= |hello| && p == hello[start..start + |p|]
            && (start + |p| <= cut || cut <= start)
  {
    hide Parts, Flat;
    var ps := Payloads(hello, cut, records);
    var a, b := Parts(hello[HEADER_LEN..cut], records / 2), Parts(hello[cut..], records - records / 2);
    PartsWhole(hello[HEADER_LEN..cut], records / 2);
    PartsWhole(hello[cut..], records - records / 2);
    if i < |a| {
      assert ps[..i] == a[..i] && ps[i] == a[i];
      PartPlace(hello[HEADER_LEN..cut], a, i);
      SliceOfSlice(hello, HEADER_LEN, cut, |Flat(a[..i])|, |a[i]|);
    } else {
      var j := i - |a|;
      assert ps[..i] == a + b[..j] && ps[i] == b[j];
      FlatConcat(a, b[..j]);
      PartPlace(hello[cut..], b, j);
      SliceOfSlice(hello, cut, |hello|, |Flat(b[..j])|, |b[j]|);
    }
  }

  lemma PartPlace(data: bytes, ps: seq<bytes>, i: nat)
    requires Flat(ps) == data && i < |ps|
    ensures var start := |Flat(ps[..i])|;
            start + |ps[i]| <= |data| && ps[i] == data[start..start + |ps[i]|]
  {
    assert ps == ps[..i] + ([ps[i]] + ps[i + 1..]);
    FlatConcat(ps[..i], [ps[i]] + ps[i + 1..]);
    assert ([ps[i]] + ps[i + 1..])[1..] == ps[i + 1..];
    assert data == Flat(ps[..i]) + (ps[i] + Flat(ps[i + 1..]));
  }

  /** No record holds the whole name when the cut falls strictly inside it. */
  lemma NoRecordHoldsName(hello: bytes, pos: nat, len: nat, cut: nat, records: nat, i: nat)
    requires HEADER_LEN < cut < |hello| && records >= 2 && i < |Payloads(hello, cut, records)|
    requires pos < cut < pos + len <= |hello|
    ensures var start := HEADER_LEN + |Flat(Payloads(hello, cut, records)[..i])|;
            !(start <= pos && pos + len <= start + |Payloads(hello, cut, records)[i]|)
  {
    hide Payloads, Flat;
    NoPayloadCrosses(hello, cut, records, i);
  }
}
