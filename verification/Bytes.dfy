/**
 Byte strings, and the length-prefixed reading and writing that the TLS code
 does through `cryptobyte`.  Writing goes through a `Builder`, which remembers
 whether any length prefix overflowed; reading goes through functions that
 return the value read together with the rest of the input.
 */
module Bytes {

  type byte = b: int | 0 <= b < 0x100
  type u16 = n: int | 0 <= n < 0x1_0000
  type u24 = n: int | 0 <= n < 0x100_0000
  type u32 = n: int | 0 <= n < 0x1_0000_0000
  type u64 = n: int | 0 <= n < 0x1_0000_0000_0000_0000
  type bytes = seq<byte>

  datatype Option<+T> = None | Some(value: T)

  /** The outcome of reading from the front of a byte string. */
  datatype Read<+T> = Short | Got(value: T, rest: bytes)

  // ----- Big-endian integers -----

  function U8(n: nat): (r: bytes)
    ensures |r| == 1
  {
    [n % 0x100]
  }

  function U16(n: nat): (r: bytes)
    ensures |r| == 2
  {
    [n / 0x100 % 0x100, n % 0x100]
  }

  function U24(n: nat): (r: bytes)
    ensures |r| == 3
  {
    U8(n / 0x1_0000) + U16(n)
  }

  function Power(k: nat): nat
  {
    if k == 0 then 1 else Power(k - 1) * 0x100
  }

  /** The last `k` digits of a number in base 256. */
  function BigEndian(n: nat, k: nat): (r: bytes)
    ensures |r| == k
    decreases k, n
  {
    if k == 0 then [] else BigEndian(n / 0x100, k - 1) + [n % 0x100]
  }

  function Number(s: bytes): (n: nat)
    ensures n < Power(|s|)
  {
    if s == [] then 0 else Number(s[..|s| - 1]) * 0x100 + s[|s| - 1]
  }

  function U32(n: nat): (r: bytes)
    ensures |r| == 4
  {
    BigEndian(n, 4)
  }

  function U64(n: nat): (r: bytes)
    ensures |r| == 8
  {
    BigEndian(n, 8)
  }

  /** The value of the digits `hi` and `lo` in base 256. */
  function Pair(hi: int, lo: int): int { hi * 0x100 + lo }

  function ReadU8(s: bytes): (r: Read<byte>)
    ensures r.Got? ==> |r.rest| < |s|
  {
    if |s| < 1 then Short else Got(s[0], s[1..])
  }

  function ReadU16(s: bytes): (r: Read<u16>)
    ensures r.Got? ==> |r.rest| < |s|
  {
    if |s| < 2 then Short else Got(Pair(s[0], s[1]), s[2..])
  }

  function ReadU24(s: bytes): (r: Read<u24>)
    ensures r.Got? ==> |r.rest| < |s|
  {
    if |s| < 3 then Short else Got(s[0] as int * 0x1_0000 + Pair(s[1], s[2]), s[3..])
  }

  function ReadU32(s: bytes): (r: Read<u32>)
    ensures r.Got? ==> |r.rest| < |s|
  {
    if |s| < 4 then Short else
    assert Power(4) == 0x1_0000_0000;
    Got(Number(s[..4]), s[4..])
  }

  function ReadU64(s: bytes): (r: Read<u64>)
    ensures r.Got? ==> |r.rest| < |s|
  {
    if |s| < 8 then Short else
    assert Power(8) == 0x1_0000_0000_0000_0000;
    Got(Number(s[..8]), s[8..])
  }

  /** Reads exactly `n` bytes. */
  function ReadN(s: bytes, n: nat): (r: Read<bytes>)
    ensures r.Got? ==> |r.rest| <= |s|
  {
    if |s| < n then Short else Got(s[..n], s[n..])
  }

  // ----- Length-prefixed strings -----

  function LP8(b: bytes): (r: bytes)
    ensures |r| == 1 + |b|
  {
    U8(|b|) + b
  }

  function LP16(b: bytes): (r: bytes)
    ensures |r| == 2 + |b|
  {
    U16(|b|) + b
  }

  function LP24(b: bytes): (r: bytes)
    ensures |r| == 3 + |b|
  {
    U24(|b|) + b
  }

  function ReadLP8(s: bytes): (r: Read<bytes>)
    ensures r.Got? ==> |r.rest| < |s|
  {
    var n := ReadU8(s);
    if n.Short? then Short else ReadN(n.rest, n.value)
  }

  function ReadLP16(s: bytes): (r: Read<bytes>)
    ensures r.Got? ==> |r.rest| < |s|
  {
    var n := ReadU16(s);
    if n.Short? then Short else ReadN(n.rest, n.value)
  }

  function ReadLP24(s: bytes): (r: Read<bytes>)
    ensures r.Got? ==> |r.rest| < |s|
  {
    var n := ReadU24(s);
    if n.Short? then Short else ReadN(n.rest, n.value)
  }

  // ----- Reading undoes writing, whatever follows -----

  lemma ReadU8Back(n: byte, t: bytes)
    ensures ReadU8(U8(n) + t) == Got(n, t)
  {
    assert (U8(n) + t)[1..] == t;
  }

  lemma ReadU16Back(n: u16, t: bytes)
    ensures ReadU16(U16(n) + t) == Got(n, t)
  {
    assert (U16(n) + t)[2..] == t;
  }

  lemma ReadU24Back(n: u24, t: bytes)
    ensures ReadU24(U24(n) + t) == Got(n, t)
  {
    var s := U24(n) + t;
    assert s[3..] == t;
    assert Pair(s[1], s[2]) == n % 0x1_0000;
  }

  lemma {:induction false} NumberBack(n: nat, k: nat)
    requires n < Power(k)
    ensures Number(BigEndian(n, k)) == n
  {
    if k > 0 {
      NumberBack(n / 0x100, k - 1);
      assert BigEndian(n, k)[..k - 1] == BigEndian(n / 0x100, k - 1);
    }
  }

  lemma {:induction false} DigitsBack(s: bytes)
    ensures BigEndian(Number(s), |s|) == s
  {
    if s != [] {
      var k := |s| - 1;
      DigitsBack(s[..k]);
      assert Number(s) / 0x100 == Number(s[..k]) && Number(s) % 0x100 == s[k];
    }
  }

  lemma ReadU32Back(n: u32, t: bytes)
    ensures ReadU32(U32(n) + t) == Got(n, t)
  {
    hide BigEndian, Number;
    assert Power(4) == 0x1_0000_0000;
    NumberBack(n, 4);
    assert (U32(n) + t)[..4] == U32(n) && (U32(n) + t)[4..] == t;
  }

  lemma ReadU64Back(n: u64, t: bytes)
    ensures ReadU64(U64(n) + t) == Got(n, t)
  {
    hide BigEndian, Number;
    assert Power(8) == 0x1_0000_0000_0000_0000;
    NumberBack(n, 8);
    assert (U64(n) + t)[..8] == U64(n) && (U64(n) + t)[8..] == t;
  }

  lemma ReadNBack(b: bytes, t: bytes)
    ensures ReadN(b + t, |b|) == Got(b, t)
  {
    assert (b + t)[..|b|] == b && (b + t)[|b|..] == t;
  }

  lemma ReadLP8Back(b: bytes, t: bytes)
    requires |b| < 0x100
    ensures ReadLP8(LP8(b) + t) == Got(b, t)
  {
    assert LP8(b) + t == U8(|b|) + (b + t);
    ReadU8Back(|b|, b + t);
    ReadNBack(b, t);
  }

  lemma ReadLP16Back(b: bytes, t: bytes)
    requires |b| < 0x1_0000
    ensures ReadLP16(LP16(b) + t) == Got(b, t)
  {
    assert LP16(b) + t == U16(|b|) + (b + t);
    ReadU16Back(|b|, b + t);
    ReadNBack(b, t);
  }

  lemma ReadLP24Back(b: bytes, t: bytes)
    requires |b| < 0x100_0000
    ensures ReadLP24(LP24(b) + t) == Got(b, t)
  {
    assert LP24(b) + t == U24(|b|) + (b + t);
    ReadU24Back(|b|, b + t);
    ReadNBack(b, t);
  }

  // ----- Writing undoes reading -----

  lemma Split16(hi: byte, lo: byte)
    ensures U16(Pair(hi, lo)) == [hi, lo]
  {
    var n := Pair(hi, lo);
    assert n / 0x100 == hi && n % 0x100 == lo;
  }

  lemma Split24(hi: byte, lo: u16)
    ensures U24(hi as int * 0x1_0000 + lo) == [hi] + U16(lo)
  {
    var n := hi as int * 0x1_0000 + lo;
    assert n / 0x1_0000 == hi && n / 0x100 == hi as int * 0x100 + lo / 0x100;
  }

  lemma ReadU24Whole(s: bytes)
    requires ReadU24(s).Got?
    ensures s == U24(ReadU24(s).value) + ReadU24(s).rest
  {
    hide U16, U24;
    Split16(s[1], s[2]);
    Split24(s[0], Pair(s[1], s[2]));
    assert s == [s[0]] + [s[1], s[2]] + s[3..];
  }

  lemma ReadLP8Whole(s: bytes)
    requires ReadLP8(s).Got?
    ensures s == LP8(ReadLP8(s).value) + ReadLP8(s).rest && |ReadLP8(s).value| < 0x100
  {
    var t := ReadU8(s).rest;
    assert t == ReadLP8(s).value + ReadLP8(s).rest;
  }

  lemma ReadLP16Whole(s: bytes)
    requires ReadLP16(s).Got?
    ensures s == LP16(ReadLP16(s).value) + ReadLP16(s).rest && |ReadLP16(s).value| < 0x1_0000
  {
    assert s == U16(ReadU16(s).value) + ReadU16(s).rest;
    var t := ReadU16(s).rest;
    assert t == ReadLP16(s).value + ReadLP16(s).rest;
  }

  lemma ReadLP24Whole(s: bytes)
    requires ReadLP24(s).Got?
    ensures s == LP24(ReadLP24(s).value) + ReadLP24(s).rest && |ReadLP24(s).value| < 0x100_0000
  {
    ReadU24Whole(s);
    var t := ReadU24(s).rest;
    assert t == ReadLP24(s).value + ReadLP24(s).rest;
  }

  // ----- Builders -----

  /**
   A byte string under construction.  `ok` turns false when a length prefix
   overflows, and then the construction as a whole has failed.
   */
  datatype Builder = Builder(buf: bytes, ok: bool) {
    function Add(b: bytes): Builder { Builder(buf + b, ok) }

    function Append(b: Builder): Builder { Builder(buf + b.buf, ok && b.ok) }

    function AddLP8(b: Builder): Builder
    {
      Builder(buf + LP8(b.buf), ok && b.ok && |b.buf| < 0x100)
    }

    function AddLP16(b: Builder): Builder
    {
      Builder(buf + LP16(b.buf), ok && b.ok && |b.buf| < 0x1_0000)
    }

    function AddLP24(b: Builder): Builder
    {
      Builder(buf + LP24(b.buf), ok && b.ok && |b.buf| < 0x100_0000)
    }

    function Result(): Option<bytes> { if ok then Some(buf) else None }
  }

  const EMPTY := Builder([], true)

  function Raw(b: bytes): Builder { Builder(b, true) }

  // ----- Lists of 16-bit values -----

  function U16s(ns: seq<u16>): (r: bytes)
    ensures |r| == 2 * |ns|
  {
    if ns == [] then [] else U16(ns[0]) + U16s(ns[1..])
  }

  lemma U16sAppend(ns: seq<u16>, n: u16)
    ensures U16s(ns + [n]) == U16s(ns) + U16(n)
  {
    if ns == [] {
      assert ns + [n] == [n] && [n][1..] == [];
    } else {
      assert (ns + [n])[1..] == ns[1..] + [n];
      U16sAppend(ns[1..], n);
      assert U16s(ns + [n]) == U16(ns[0]) + (U16s(ns[1..]) + U16(n));
    }
  }

  /** Splits a byte string into 16-bit values; `None` when a lone byte is left. */
  function ReadU16s(s: bytes): (r: Option<seq<u16>>)
    decreases |s|
  {
    if s == [] then Some([]) else
    var n := ReadU16(s);
    if n.Short? then None else
    var t := ReadU16s(n.rest);
    if t.None? then None else Some([n.value] + t.value)
  }

  lemma {:induction false} ReadU16sBack(ns: seq<u16>)
    ensures ReadU16s(U16s(ns)) == Some(ns)
  {
    if ns != [] {
      ReadU16Back(ns[0], U16s(ns[1..]));
      ReadU16sBack(ns[1..]);
      assert ns == [ns[0]] + ns[1..];
    }
  }

  // ----- Lists of length-prefixed strings -----

  /** Concatenation of the strings, each behind a prefix of `w` bytes (1, 2 or 3). */
  function LPs(w: int, bs: seq<bytes>): Builder
  {
    if bs == [] then EMPTY else
    var t := LPs(w, bs[1..]);
    Builder(LP(w, bs[0]) + t.buf, t.ok && |bs[0]| < Limit(w))
  }

  function LP(w: int, b: bytes): bytes
  {
    if w == 1 then LP8(b) else if w == 2 then LP16(b) else LP24(b)
  }

  function Limit(w: int): nat
  {
    if w == 1 then 0x100 else if w == 2 then 0x1_0000 else 0x100_0000
  }

  function ReadLP(w: int, s: bytes): (r: Read<bytes>)
    ensures r.Got? ==> |r.rest| < |s|
  {
    if w == 1 then ReadLP8(s) else if w == 2 then ReadLP16(s) else ReadLP24(s)
  }

  lemma ReadLPBack(w: int, b: bytes, t: bytes)
    requires |b| < Limit(w)
    ensures ReadLP(w, LP(w, b) + t) == Got(b, t)
  {
    if w == 1 { ReadLP8Back(b, t); } else if w == 2 { ReadLP16Back(b, t); } else { ReadLP24Back(b, t); }
  }

  lemma PairRange(hi: byte, lo: byte)
    ensures 0 <= Pair(hi, lo) < 0x1_0000
  {
  }

  lemma SliceOfSlice(s: bytes, lo: nat, hi: nat, k: nat, n: nat)
    requires lo + k + n <= hi <= |s|
    ensures s[lo..hi][k..k + n] == s[lo + k..lo + k + n]
    ensures hi == |s| ==> s[lo..hi] == s[lo..]
  {
    var a, b := s[lo..hi][k..k + n], s[lo + k..lo + k + n];
    forall i | 0 <= i < n ensures a[i] == b[i] {
      assert s[lo..hi][k + i] == s[lo + k + i];
    }
  }

  lemma Assoc(a: bytes, b: bytes, c: bytes)
    ensures a + (b + c) == a + b + c
  {
  }

  lemma {:induction false} LPsAppend(w: int, bs: seq<bytes>, b: bytes)
    ensures LPs(w, bs + [b]) ==
            Builder(LPs(w, bs).buf + LP(w, b), LPs(w, bs).ok && |b| < Limit(w))
  {
    if bs == [] {
      assert bs + [b] == [b] && [b][1..] == [];
      assert LPs(w, [b]) == Builder(LP(w, b), |b| < Limit(w));
    } else {
      assert (bs + [b])[1..] == bs[1..] + [b];
      LPsAppend(w, bs[1..], b);
      Assoc(LP(w, bs[0]), LPs(w, bs[1..]).buf, LP(w, b));
    }
  }

  /**
   Splits a byte string into length-prefixed strings.  When `strict`, an empty
   string in the list is an error, as it is for protocol names, SCTs and binders.
   */
  function ReadLPs(w: int, strict: bool, s: bytes): (r: Option<seq<bytes>>)
    decreases |s|
  {
    if s == [] then Some([]) else
    var b := ReadLP(w, s);
    if b.Short? || (strict && b.value == []) then None else
    var t := ReadLPs(w, strict, b.rest);
    if t.None? then None else Some([b.value] + t.value)
  }

  /** Reading back a list succeeds exactly when no member is forbidden to be empty. */
  lemma {:induction false} ReadLPsBack(w: int, strict: bool, bs: seq<bytes>)
    requires LPs(w, bs).ok
    ensures ReadLPs(w, strict, LPs(w, bs).buf) ==
            if strict && [] in bs then None else Some(bs)
  {
    if bs != [] {
      ReadLPBack(w, bs[0], LPs(w, bs[1..]).buf);
      ReadLPsBack(w, strict, bs[1..]);
      assert bs == [bs[0]] + bs[1..];
    }
  }

  // ----- Strings put one after another -----

  function Flat(ps: seq<bytes>): (r: bytes)
    ensures ps == [] ==> r == []
  {
    if ps == [] then [] else ps[0] + Flat(ps[1..])
  }

  lemma {:induction false} FlatConcat(a: seq<bytes>, b: seq<bytes>)
    ensures Flat(a + b) == Flat(a) + Flat(b)
  {
    if a == [] {
      assert a + b == b;
    } else {
      assert (a + b)[1..] == a[1..] + b;
      FlatConcat(a[1..], b);
      Assoc(a[0], Flat(a[1..]), Flat(b));
    }
  }
}
