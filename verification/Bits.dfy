/**
 Bytes as bit vectors: the exclusive or used by the nonce wrappers and the
 ciphers, and the laws the record layer relies on.
 */
module Bits {
  import opened Bytes

  function Bv(n: byte): bv8 { n as bv8 }
  function Int(x: bv8): byte { x as int }

  function Count(n: byte): bv8 { if n == 0 then 0 else Count(n - 1) + 1 }

  lemma {:induction false} CountInt(n: byte)
    ensures Int(Count(n)) == n
  {
    if n != 0 {
      CountInt(n - 1);
      assert Int(Count(n - 1)) != 255;
    }
  }

  lemma IntOfBv(n: byte)
    ensures Int(Bv(n)) == n
  {
    CountInt(n);
    assert Bv(Int(Count(n))) == Count(n);
  }

  lemma BvInjective(a: byte, b: byte)
    ensures Bv(a) == Bv(b) <==> a == b
  {
    IntOfBv(a);
    IntOfBv(b);
  }

  function BvXor(x: bv8, y: bv8): bv8 { x ^ y }

  function Xor(a: byte, b: byte): byte { Int(BvXor(Bv(a), Bv(b))) }

  lemma XorBack(a: byte, b: byte)
    ensures Xor(Xor(a, b), b) == a && Xor(a, Xor(a, b)) == b
  {
    assert BvXor(BvXor(Bv(a), Bv(b)), Bv(b)) == Bv(a) && BvXor(Bv(a), BvXor(Bv(a), Bv(b))) == Bv(b);
    assert Bv(Int(BvXor(Bv(a), Bv(b)))) == BvXor(Bv(a), Bv(b));
    IntOfBv(a);
    IntOfBv(b);
  }

  /** Exclusive or of two strings of equal length. */
  function XorAll(a: bytes, b: bytes): (r: bytes)
    requires |a| == |b|
    ensures |r| == |a|
  {
    seq(|a|, i requires 0 <= i < |a| => Xor(a[i], b[i]))
  }

  lemma XorAllBack(a: bytes, b: bytes)
    requires |a| == |b|
    ensures XorAll(XorAll(a, b), b) == a && XorAll(a, XorAll(a, b)) == b
  {
    hide Xor;
    forall i | 0 <= i < |a|
      ensures XorAll(XorAll(a, b), b)[i] == a[i] && XorAll(a, XorAll(a, b))[i] == b[i]
    {
      XorBack(a[i], b[i]);
    }
  }

  lemma XorAllInjective(mask: bytes, a: bytes, b: bytes)
    requires |mask| == |a| == |b|
    requires XorAll(mask, a) == XorAll(mask, b)
    ensures a == b
  {
    XorAllBack(mask, a);
    XorAllBack(mask, b);
  }
}
