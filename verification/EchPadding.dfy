/**
 The padding of an encoded inner hello, against what the draft wants of it: a
 length that is a multiple of 32 and the same for every name up to the maximum.
 The code lets the padding for the name enter the remainder only, so it meets
 the first wish under an exact condition and the second one never.
 */
module EchPadding {
  import opened Bytes
  import opened ClientHello
  import opened HelloRoundTrip
  import opened Ech

  /** The length of the encoding: the marshalled hello without its header, then the padding. */
  lemma EncodedLength(m: Hello, maxNameLength: byte)
    requires EncodeInner(m, maxNameLength).Some?
    ensures MarshalInner(m).Some? && |MarshalInner(m).value| > 4
    ensures var h := |MarshalInner(m).value| - 4;
            |EncodeInner(m, maxNameLength).value| == h + Padding(h + NamePadding(m, maxNameLength))
  {
    hide MarshalInner, NamePadding;
    Headed(m);
  }

  /** How far a positive number is from the next multiple of 32. */
  function Padding(n: nat): (r: int)
    requires n > 0
    ensures 0 <= r < 32
  {
    31 - (n - 1) % 32
  }

  /** The encoded length falls short of a multiple of 32 by the padding meant for the name. */
  lemma ShortByNamePadding(m: Hello, maxNameLength: byte)
    requires EncodeInner(m, maxNameLength).Some?
    ensures (|EncodeInner(m, maxNameLength).value| + NamePadding(m, maxNameLength)) % 32 == 0
  {
    hide MarshalInner, NamePadding, EncodeInner, Padding;
    EncodedLength(m, maxNameLength);
    RoundsUp(|MarshalInner(m).value| - 4, NamePadding(m, maxNameLength));
  }

  lemma Headed(m: Hello)
    requires MarshalInner(m).Some?
    ensures |MarshalInner(m).value| > 4
  {
    hide ExtBytes, InnerExts, U16s, U16;
  }

  lemma RoundsUp(h: nat, n: nat)
    requires h > 0
    ensures (h + Padding(h + n) + n) % 32 == 0
  {
    var k := (h + n - 1) / 32;
    assert h + n - 1 == 32 * k + (h + n - 1) % 32;
    assert h + Padding(h + n) + n == 32 * (k + 1);
  }

  /** The encoded length is a multiple of 32 exactly when the padding meant for the name is one. */
  lemma MultipleOf32(m: Hello, maxNameLength: byte)
    requires EncodeInner(m, maxNameLength).Some?
    ensures |EncodeInner(m, maxNameLength).value| % 32 == 0 <==> NamePadding(m, maxNameLength) % 32 == 0
  {
    hide EncodeInner, NamePadding;
    ShortByNamePadding(m, maxNameLength);
  }

  // ----- What the length tells of the name -----

  /** The bytes that the server_name extension takes. */
  function NameBytes(m: Hello): nat
  {
    if m.serverName == [] then 0 else 9 + |m.serverName|
  }

  /** The encoded hello before its padding, with the extension's own bytes taken off. */
  lemma LengthBesidesName(m: Hello, name: bytes)
    requires MarshalInner(m).Some? && MarshalInner(m.(serverName := name)).Some?
    requires InnerExts(m) != [] && InnerExts(m.(serverName := name)) != []
    ensures |MarshalInner(m.(serverName := name)).value| - NameBytes(m.(serverName := name)) ==
            |MarshalInner(m).value| - NameBytes(m)
  {
    hide InnerExts, U16, U24, U16s, NameBytes;
    var n := m.(serverName := name);
    assert ExtBytes(InnerExts(m)).buf != [];
    assert ExtBytes(InnerExts(n)).buf != [];
    ExtsBesidesName(m, name);
  }

  lemma ExtsBesidesName(m: Hello, name: bytes)
    ensures |ExtBytes(InnerExts(m.(serverName := name))).buf| - NameBytes(m.(serverName := name)) ==
            |ExtBytes(InnerExts(m)).buf| - NameBytes(m)
  {
    hide ExtBytes, Exts, OuterExtensions, Types, Body, U16, NameBytes;
    var n := m.(serverName := name);
    Rest(m, name);
    NameFirst(m);
    NameFirst(n);
  }

  /** All extensions but the name. */
  function Behind(m: Hello): seq<Ext>
  {
    Exts(Stripped(m), 1, FIRST_COMPRESSIBLE)
    + (OuterExtensions(Types(Compressible(m))) + Exts(m, PSK_SLOT, SLOTS))
  }

  lemma NameFirst(m: Hello)
    ensures |ExtBytes(InnerExts(m)).buf| == NameBytes(m) + |ExtBytes(Behind(m)).buf|
  {
    hide ExtBytes, Exts, OuterExtensions, Types, U16;
    var s := Stripped(m);
    ExtsSplit(s, 0, 1, FIRST_COMPRESSIBLE);
    var a := Exts(s, 0, 1);
    assert InnerExts(m) == a + Behind(m);
    ExtBytesConcat(a, Behind(m));
    NameAlone(m);
  }

  lemma NameAlone(m: Hello)
    ensures |ExtBytes(Exts(Stripped(m), 0, 1)).buf| == NameBytes(m)
  {
    var s := Stripped(m);
    NoExts(s, 1);
    if m.serverName != [] {
      var e := Ext(0, Body(s, 0));
      assert Exts(s, 0, 1) == [e];
      ExtBytesOne(e);
      assert |e.body.buf| == 5 + |m.serverName|;
    }
  }

  lemma Rest(m: Hello, name: bytes)
    ensures Behind(m.(serverName := name)) == Behind(m)
  {
    hide Exts, SlotType, LPs, U16s, KeyShareBytes, IdentityBytes, LP8, LP16;
    var n := m.(serverName := name);
    var s, t := Stripped(m), Stripped(n);
    forall k: slot | k != 0
      ensures Present(t, k) == Present(s, k) && Body(t, k) == Body(s, k)
      ensures Present(n, k) == Present(m, k) && Body(n, k) == Body(m, k)
    {
    }
    SameExts(t, s, 1, FIRST_COMPRESSIBLE);
    SameExts(n, m, FIRST_COMPRESSIBLE, PSK_SLOT);
    SameExts(n, m, PSK_SLOT, SLOTS);
  }

  /** A name that the padding is meant to hide: none, or one of at most the maximum length. */
  predicate Coverable(m: Hello, maxNameLength: byte)
  {
    |m.serverName| <= maxNameLength
  }

  /**
   Two inner hellos that differ in such names alone differ in encoded length by
   exactly what their name extensions differ by: the padding hides nothing.
   */
  lemma LengthShowsName(m: Hello, name: bytes, maxNameLength: byte)
    requires Coverable(m, maxNameLength) && Coverable(m.(serverName := name), maxNameLength)
    requires EncodeInner(m, maxNameLength).Some? && EncodeInner(m.(serverName := name), maxNameLength).Some?
    requires InnerExts(m) != [] && InnerExts(m.(serverName := name)) != []
    ensures |EncodeInner(m.(serverName := name), maxNameLength).value| - |EncodeInner(m, maxNameLength).value| ==
            NameBytes(m.(serverName := name)) - NameBytes(m)
    ensures |EncodeInner(m.(serverName := name), maxNameLength).value| == |EncodeInner(m, maxNameLength).value| <==>
            |name| == |m.serverName|
  {
    hide MarshalInner, EncodeInner, Padding, InnerExts;
    var n := m.(serverName := name);
    EncodedLength(m, maxNameLength);
    EncodedLength(n, maxNameLength);
    LengthBesidesName(m, name);
    assert |MarshalInner(n).value| + NamePadding(n, maxNameLength) == |MarshalInner(m).value| + NamePadding(m, maxNameLength);
  }
}
