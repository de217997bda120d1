/**
 PSK binders.  The client hashes its hello up to the binders while they are
 still placeholders; the server hashes the hello it received up to the real
 binders.  Both must be the same bytes.
 */
module Binder {
  import opened Bytes
  import opened ClientHello
  import opened HelloRoundTrip
  import opened Ech

  /** The bytes taken by the binder list and its length prefixes. */
  function BindersLen(binders: seq<bytes>): nat
  {
    if binders == [] then 2 else BindersLen(binders[..|binders| - 1]) + 1 + |binders[|binders| - 1]|
  }

  /** The loop that adds up the lengths. */
  method SumBinders(binders: seq<bytes>) returns (n: nat)
    ensures n == BindersLen(binders)
  {
    n := 2;
    for i := 0 to |binders|
      invariant n == BindersLen(binders[..i])
    {
      assert binders[..i + 1][..i] == binders[..i];
      n := n + 1 + |binders[i]|;
    }
    assert binders[..|binders|] == binders;
  }

  lemma {:induction false} BindersLenIsEncoded(binders: seq<bytes>)
    ensures BindersLen(binders) == 2 + |LPs(1, binders).buf|
  {
    if binders != [] {
      var n := |binders| - 1;
      BindersLenIsEncoded(binders[..n]);
      LPsAppend(1, binders[..n], binders[n]);
      assert binders == binders[..n] + [binders[n]];
    }
  }

  function Written(m: Hello): Option<bytes>
  {
    if m.original.Some? then m.original else Marshal(m)
  }

  /** The hello up to its binders; `None` when it cannot be written or is too short to cut. */
  function WithoutBinders(m: Hello): Option<bytes>
  {
    var full := Written(m);
    if full.None? || |full.value| < BindersLen(m.pskBinders) then None
    else Some(full.value[..|full.value| - BindersLen(m.pskBinders)])
  }

  predicate SameLengths(a: seq<bytes>, b: seq<bytes>)
  {
    |a| == |b| && forall i :: 0 <= i < |a| ==> |a[i]| == |b[i]|
  }

  /** Fails, leaving the message alone, unless the new binders fit the old ones. */
  method UpdateBinders(m: Hello, binders: seq<bytes>) returns (r: Option<Hello>)
    ensures r == if SameLengths(binders, m.pskBinders) then Some(m.(pskBinders := binders)) else None
  {
    if |binders| != |m.pskBinders| {
      return None;
    }
    for i := 0 to |binders|
      invariant forall j :: 0 <= j < i ==> |binders[j]| == |m.pskBinders[j]|
    {
      if |binders[i]| != |m.pskBinders[i]| {
        return None;
      }
    }
    r := Some(m.(pskBinders := binders));
  }

  // ----- The message up to its binders -----

  /** The marshalled hello up to a binder list that encodes to `n` bytes. */
  function Front(m: Hello, n: nat): bytes
  {
    var a := ExtBytes(Exts(m, 0, PSK_SLOT)).buf;
    var ids := LP16(IdentityBytes(m.pskIdentities).buf);
    var x := a + U16(41) + U16(|ids| + 2 + n) + ids;
    var pre := Preamble(m, m.sessionId).buf;
    [TYPE_CLIENT_HELLO] + U24(|pre| + 2 + |x| + 2 + n) + pre + U16(|x| + 2 + n) + x
  }

  lemma PskLast(m: Hello)
    requires m.pskIdentities != []
    ensures ExtBytes(Exts(m, 0, SLOTS)).buf ==
            var ids := LP16(IdentityBytes(m.pskIdentities).buf);
            var bs := LPs(1, m.pskBinders).buf;
            ExtBytes(Exts(m, 0, PSK_SLOT)).buf + U16(41) + U16(|ids| + 2 + |bs|) + ids + LP16(bs)
  {
    hide Exts, ExtBytes, IdentityBytes, LPs, U16;
    var e := Ext(41, Body(m, PSK_SLOT));
    ExtsSplit(m, 0, PSK_SLOT, SLOTS);
    assert Exts(m, PSK_SLOT, SLOTS) == [e] by { PskOnly(m); }
    ExtBytesConcat(Exts(m, 0, PSK_SLOT), [e]);
    ExtBytesOne(e);
  }

  lemma PskOnly(m: Hello)
    requires m.pskIdentities != []
    ensures Exts(m, PSK_SLOT, SLOTS) == [Ext(41, Body(m, PSK_SLOT))]
  {
    hide Body;
    NoExts(m, SLOTS);
  }

  lemma MarshalEndsInBinders(m: Hello)
    requires m.pskIdentities != [] && Marshal(m).Some?
    ensures Marshal(m).value == Front(m, |LPs(1, m.pskBinders).buf|) + LP16(LPs(1, m.pskBinders).buf)
  {
    hide Exts, ExtBytes, IdentityBytes, LPs, U16, U24, Preamble;
    PskLast(m);
    var bs := LPs(1, m.pskBinders).buf;
    var ids := LP16(IdentityBytes(m.pskIdentities).buf);
    var x := ExtBytes(Exts(m, 0, PSK_SLOT)).buf + U16(41) + U16(|ids| + 2 + |bs|) + ids;
    var all := ExtBytes(Exts(m, 0, SLOTS)).buf;
    assert all == x + LP16(bs);
    var pre := Preamble(m, m.sessionId).buf;
    var body := pre + LP16(all);
    assert Marshal(m).value == [TYPE_CLIENT_HELLO] + LP24(body);
    assert body == pre + U16(|x| + 2 + |bs|) + x + LP16(bs);
  }

  lemma FrontIgnoresBinders(m: Hello, binders: seq<bytes>, n: nat)
    ensures Front(m.(pskBinders := binders), n) == Front(m, n)
  {
    hide Exts, ExtBytes, U16, U24, LP16, LP8, U16s, IdentityBytes;
    OtherExtsIgnoreBinders(m, binders);
  }

  lemma OtherExtsIgnoreBinders(m: Hello, binders: seq<bytes>)
    ensures Exts(m.(pskBinders := binders), 0, PSK_SLOT) == Exts(m, 0, PSK_SLOT)
  {
    hide Exts, SlotType, LPs, U16s, KeyShareBytes, IdentityBytes, LP8, LP16;
    var k := m.(pskBinders := binders);
    forall j: slot | j < PSK_SLOT ensures Present(k, j) == Present(m, j) && Body(k, j) == Body(m, j) {
    }
    SameExts(k, m, 0, PSK_SLOT);
  }

  lemma {:induction false} SameEncodedLength(a: seq<bytes>, b: seq<bytes>)
    requires SameLengths(a, b)
    ensures |LPs(1, a).buf| == |LPs(1, b).buf| && LPs(1, a).ok == LPs(1, b).ok
  {
    if a != [] {
      SameEncodedLength(a[1..], b[1..]);
    }
  }

  /** Other binders of the same lengths can be written as well. */
  lemma NewBindersWrite(m: Hello, binders: seq<bytes>)
    requires m.pskIdentities != [] && Marshal(m).Some? && SameLengths(binders, m.pskBinders)
    ensures Marshal(m.(pskBinders := binders)).Some?
  {
    hide Exts, ExtBytes, IdentityBytes, LPs, U16, LP16, SameLengths;
    var n := m.(pskBinders := binders);
    SameEncodedLength(binders, m.pskBinders);
    OtherExtsIgnoreBinders(m, binders);
    assert Body(n, PSK_SLOT).ok == Body(m, PSK_SLOT).ok && |Body(n, PSK_SLOT).buf| == |Body(m, PSK_SLOT).buf|;
    BlockSplits(m);
    BlockSplits(n);
  }

  lemma BlockSplits(m: Hello)
    requires m.pskIdentities != []
    ensures var a, x, b := ExtBytes(Exts(m, 0, PSK_SLOT)), ExtBytes(Exts(m, 0, SLOTS)), Body(m, PSK_SLOT);
            |x.buf| == |a.buf| + 4 + |b.buf| && x.ok == (a.ok && b.ok && |b.buf| < 0x1_0000)
  {
    hide Exts, ExtBytes, Body, U16;
    var e := Ext(41, Body(m, PSK_SLOT));
    ExtsSplit(m, 0, PSK_SLOT, SLOTS);
    PskOnly(m);
    ExtBytesConcat(Exts(m, 0, PSK_SLOT), [e]);
    ExtBytesOne(e);
  }

  lemma WithoutBindersIsFront(m: Hello)
    requires m.pskIdentities != [] && Marshal(m).Some?
    requires m.original.None? || m.original == Marshal(m)
    ensures WithoutBinders(m) == Some(Front(m, |LPs(1, m.pskBinders).buf|))
  {
    hide Front, Marshal, LPs, U16;
    MarshalEndsInBinders(m);
    BindersLenIsEncoded(m.pskBinders);
    var f, t := Front(m, |LPs(1, m.pskBinders).buf|), LP16(LPs(1, m.pskBinders).buf);
    assert (f + t)[..|f|] == f;
  }

  /**
   Whatever the identities and however long the binders, the bytes the client
   hashes around its placeholders are the bytes the server hashes around the
   binders it received.
   */
  lemma BinderAgreement(m: Hello, binders: seq<bytes>, received: Hello)
    requires m.original.None? && m.pskIdentities != [] && SameLengths(binders, m.pskBinders)
    requires Marshal(m).Some? && Marshal(m.(pskBinders := binders)).Some?
    requires Unmarshal(Marshal(m.(pskBinders := binders)).value) == Some(received)
    ensures WithoutBinders(m).Some? && WithoutBinders(received) == WithoutBinders(m)
  {
    hide Front, Marshal, Unmarshal, LPs, Acceptable, Exts;
    var sent := m.(pskBinders := binders);
    MarshalUnmarshal(sent);
    WithoutBindersIsFront(m);
    WithoutBindersIsFront(sent);
    FrontIgnoresBinders(m, binders, |LPs(1, binders).buf|);
    SameEncodedLength(binders, m.pskBinders);
    assert received.original == Marshal(sent) && received.pskBinders == binders;
    assert Written(received) == Written(sent);
  }

  /** The hello with its single binder computed over the transcript so far and itself. */
  function ComputePsk(m: Hello, transcript: bytes, finished: bytes -> bytes): Option<Hello>
  {
    var h := WithoutBinders(m);
    if h.None? then None else
    var binders := [finished(transcript + h.value)];
    if SameLengths(binders, m.pskBinders) then Some(m.(pskBinders := binders)) else None
  }

  /** The server, with the same key and the same transcript, finds the client's binder valid. */
  lemma BinderVerifies(m: Hello, transcript: bytes, finished: bytes -> bytes, sent: Hello, received: Hello)
    requires m.original.None? && m.pskIdentities != [] && Marshal(m).Some?
    requires ComputePsk(m, transcript, finished) == Some(sent) && Marshal(sent).Some?
    requires Unmarshal(Marshal(sent).value) == Some(received)
    ensures WithoutBinders(received).Some? && |received.pskBinders| == 1
    ensures received.pskBinders[0] == finished(transcript + WithoutBinders(received).value)
  {
    hide Marshal, Unmarshal, WithoutBinders, Acceptable, Exts;
    BinderAgreement(m, sent.pskBinders, received);
    MarshalUnmarshal(sent);
  }
}
