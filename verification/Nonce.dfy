/**
 Sequence numbers and the nonces made from them: the in-place increment of the
 eight-byte counter, and the two wrappers that turn a counter into the nonce of
 the cipher they wrap.
 */
module Nonce {
  import opened Bytes
  import opened Bits

  const MAX_SEQ: u64 := 0xffff_ffff_ffff_ffff

  /** The number that eight bytes stand for. */
  function Value(b: bytes): u64
    requires |b| == 8
  {
    assert Power(8) == 0x1_0000_0000_0000_0000;
    Number(b)
  }

  lemma BytesOfValue(b: bytes)
    requires |b| == 8
    ensures U64(Value(b)) == b
  {
    hide BigEndian, Number;
    DigitsBack(b);
  }

  lemma ValueOfBytes(n: u64)
    ensures Value(U64(n)) == n
  {
    hide BigEndian, Number;
    assert Power(8) == 0x1_0000_0000_0000_0000;
    NumberBack(n, 8);
  }

  // ----- The increment -----

  /** The counter after one increment, carrying from the last byte leftwards. */
  function Next(b: bytes): (r: bytes)
    ensures |r| == |b|
  {
    if b == [] then [] else
    var k := |b| - 1;
    if b[k] < 255 then b[..k] + [b[k] + 1] else Next(b[..k]) + [0]
  }

  lemma {:induction false} NextAddsOne(b: bytes)
    ensures Number(Next(b)) == if Number(b) + 1 == Power(|b|) then 0 else Number(b) + 1
  {
    if b != [] {
      var k := |b| - 1;
      NextAddsOne(b[..k]);
      assert Next(b)[..k] == if b[k] < 255 then b[..k] else Next(b[..k]);
    }
  }

  /** Strictly one more, or a wrap-around to zero exactly at the largest number. */
  lemma NextValue(b: bytes)
    requires |b| == 8
    ensures Value(Next(b)) == if Value(b) == MAX_SEQ then 0 else Value(b) + 1
  {
    hide Next, Number;
    NextAddsOne(b);
    assert Power(8) == 0x1_0000_0000_0000_0000;
  }

  /** The carry stops at the last byte that is not 255, and turns the bytes behind it to zero. */
  lemma {:induction false} NextCarries(b: bytes, i: int)
    requires -1 <= i < |b| && (forall j :: i < j < |b| ==> b[j] == 255) && (i >= 0 ==> b[i] < 255)
    ensures forall j :: 0 <= j < |b| ==> Next(b)[j] == if j < i then b[j] else if j == i then b[j] + 1 else 0
  {
    if i < |b| - 1 {
      NextCarries(b[..|b| - 1], i);
    }
  }

  /** Increments the counter in place; `wrapped` where the program would stop instead of reusing numbers. */
  method IncSeq(counter: array<byte>) returns (wrapped: bool)
    requires counter.Length == 8
    modifies counter
    ensures counter[..] == Next(old(counter[..]))
    ensures wrapped <==> old(Value(counter[..])) == MAX_SEQ
    ensures !wrapped ==> Value(counter[..]) == old(Value(counter[..])) + 1
  {
    hide Number, Next;
    ghost var b := counter[..];
    NextValue(b);
    Extremes(b);
    assert Power(8) == 0x1_0000_0000_0000_0000;
    var i := 7;
    while i >= 0
      invariant -1 <= i <= 7
      invariant forall j :: 0 <= j <= i ==> counter[j] == b[j]
      invariant forall j :: i < j < 8 ==> b[j] == 255 && counter[j] == 0
    {
      counter[i] := if counter[i] == 255 then 0 else counter[i] + 1;
      if counter[i] != 0 {
        NextCarries(b, i);
        assert counter[..] == Next(b);
        return false;
      }
      i := i - 1;
    }
    NextCarries(b, -1);
    assert counter[..] == Next(b);
    return true;
  }

  /** The largest number has all its digits 255; the digits of zero are zero. */
  lemma {:induction false} Extremes(b: bytes)
    ensures Number(b) + 1 == Power(|b|) <==> forall j :: 0 <= j < |b| ==> b[j] == 255
    ensures (forall j :: 0 <= j < |b| ==> b[j] == 0) ==> Number(b) == 0
  {
    if b != [] {
      var k := |b| - 1;
      Extremes(b[..k]);
      assert (forall j :: 0 <= j < |b| ==> b[j] == 255) <==> b[k] == 255 && forall j :: 0 <= j < k ==> b[..k][j] == 255;
    }
  }

  // ----- The wrappers -----

  /** The counter widened to a whole nonce. */
  function Widened(nonce: bytes): bytes { [0, 0, 0, 0] + nonce }

  /** The nonce that the wrapped cipher sees. */
  function XorNonce(mask: bytes, nonce: bytes): bytes
    requires |mask| == 12 && |nonce| == 8
  {
    XorAll(mask, Widened(nonce))
  }

  lemma XorZero(a: byte)
    ensures Xor(a, 0) == a
  {
    IntOfBv(a);
    assert Xor(a, 0) == Int(BvXor(Bv(a), Bv(0)));
  }

  /** The counter goes into the last eight bytes of the mask; the first four stay. */
  lemma CounterPlace(mask: bytes, nonce: bytes)
    requires |mask| == 12 && |nonce| == 8
    ensures var r := XorNonce(mask, nonce);
            |r| == 12 && r[..4] == mask[..4] && forall i :: 0 <= i < 8 ==> r[4 + i] == Xor(mask[4 + i], nonce[i])
  {
    hide Xor;
    forall i | 0 <= i < 4 ensures XorNonce(mask, nonce)[i] == mask[i] {
      XorZero(mask[i]);
    }
  }

  type Sealer = (bytes, bytes, bytes) -> bytes
  type Opener = (bytes, bytes, bytes) -> Option<bytes>

  /**
   An AEAD whose nonce is a mask, combined with the counter before each call and
   restored after it.  `used` records the nonces that the wrapped cipher was
   given to seal with.
   */
  class XorNonceAead {
    const nonceMask: array<byte>
    const seal: Sealer
    const open: Opener
    ghost var used: seq<bytes>

    constructor (mask: bytes, seal: Sealer, open: Opener)
      requires |mask| == 12
      ensures fresh(nonceMask) && nonceMask.Length == 12 && nonceMask[..] == mask
      ensures this.seal == seal && this.open == open && used == []
    {
      nonceMask := new byte[12](i requires 0 <= i < 12 => mask[i]);
      this.seal := seal;
      this.open := open;
      used := [];
    }

    /** Combines the counter into the mask, in place. */
    method Toggle(nonce: bytes)
      requires nonceMask.Length == 12 && |nonce| == 8
      modifies nonceMask
      ensures nonceMask[..] == XorNonce(old(nonceMask[..]), nonce)
    {
      hide Xor;
      ghost var mask := nonceMask[..];
      for i := 0 to 8
        invariant forall j :: 0 <= j < 4 || 4 + i <= j < 12 ==> nonceMask[j] == mask[j]
        invariant forall j :: 4 <= j < 4 + i ==> nonceMask[j] == Xor(mask[j], nonce[j - 4])
      {
        nonceMask[4 + i] := Xor(nonceMask[4 + i], nonce[i]);
      }
      CounterPlace(mask, nonce);
      ghost var r := XorNonce(mask, nonce);
      forall j | 0 <= j < 12 ensures nonceMask[j] == r[j] {
        assert if j < 4 then r[j] == r[..4][j] == mask[..4][j] else r[4 + (j - 4)] == Xor(mask[j], nonce[j - 4]);
      }
    }

    method Seal(nonce: bytes, plaintext: bytes, ad: bytes) returns (sealed: bytes)
      requires nonceMask.Length == 12 && |nonce| == 8
      modifies nonceMask, this`used
      ensures sealed == seal(XorNonce(old(nonceMask[..]), nonce), ad, plaintext)
      ensures nonceMask[..] == old(nonceMask[..]) && used == old(used) + [XorNonce(nonceMask[..], nonce)]
    {
      hide XorAll;
      Toggle(nonce);
      sealed := seal(nonceMask[..], ad, plaintext);
      used := used + [nonceMask[..]];
      Toggle(nonce);
      XorAllBack(old(nonceMask[..]), Widened(nonce));
    }

    method Open(nonce: bytes, ciphertext: bytes, ad: bytes) returns (plain: Option<bytes>)
      requires nonceMask.Length == 12 && |nonce| == 8
      modifies nonceMask
      ensures plain == open(XorNonce(old(nonceMask[..]), nonce), ad, ciphertext)
      ensures nonceMask[..] == old(nonceMask[..])
    {
      hide XorAll;
      Toggle(nonce);
      plain := open(nonceMask[..], ad, ciphertext);
      Toggle(nonce);
      XorAllBack(old(nonceMask[..]), Widened(nonce));
    }
  }

  /** An AEAD whose nonce is a fixed prefix followed by the explicit part of each call. */
  class PrefixNonceAead {
    const nonce: array<byte>
    const seal: Sealer
    const open: Opener
    ghost var used: seq<bytes>

    constructor (prefix: bytes, seal: Sealer, open: Opener)
      requires |prefix| == 4
      ensures fresh(nonce) && nonce.Length == 12 && nonce[..4] == prefix
      ensures this.seal == seal && this.open == open && used == []
    {
      nonce := new byte[12](i requires 0 <= i < 12 => if i < 4 then prefix[i] else 0);
      this.seal := seal;
      this.open := open;
      used := [];
    }

    method Fill(explicit: bytes)
      requires nonce.Length == 12 && |explicit| == 8
      modifies nonce
      ensures nonce[..] == old(nonce[..4]) + explicit
    {
      forall i | 0 <= i < 8 { nonce[4 + i] := explicit[i]; }
    }

    method Seal(explicit: bytes, plaintext: bytes, ad: bytes) returns (sealed: bytes)
      requires nonce.Length == 12 && |explicit| == 8
      modifies nonce, this`used
      ensures sealed == seal(old(nonce[..4]) + explicit, ad, plaintext)
      ensures nonce[..4] == old(nonce[..4]) && used == old(used) + [nonce[..4] + explicit]
    {
      Fill(explicit);
      sealed := seal(nonce[..], ad, plaintext);
      used := used + [nonce[..]];
    }

    method Open(explicit: bytes, ciphertext: bytes, ad: bytes) returns (plain: Option<bytes>)
      requires nonce.Length == 12 && |explicit| == 8
      modifies nonce
      ensures plain == open(old(nonce[..4]) + explicit, ad, ciphertext)
      ensures nonce[..4] == old(nonce[..4])
    {
      Fill(explicit);
      plain := open(nonce[..], ad, ciphertext);
    }
  }

  /** Different counters never give the same nonce under one mask or one prefix. */
  lemma NoncesDiffer(fixed: bytes, i: u64, j: u64)
    requires i != j
    ensures |fixed| == 12 ==> XorNonce(fixed, U64(i)) != XorNonce(fixed, U64(j))
    ensures |fixed| == 4 ==> fixed + U64(i) != fixed + U64(j)
  {
    hide XorAll, U64, Value;
    ValueOfBytes(i);
    ValueOfBytes(j);
    assert Widened(U64(i))[4..] == U64(i) && Widened(U64(j))[4..] == U64(j);
    assert (fixed + U64(i))[|fixed|..] == U64(i) && (fixed + U64(j))[|fixed|..] == U64(j);
    if |fixed| == 12 && XorNonce(fixed, U64(i)) == XorNonce(fixed, U64(j)) {
      XorAllInjective(fixed, Widened(U64(i)), Widened(U64(j)));
    }
  }
}
