/**
 The constant-time check of CBC padding, with its masks computed in wrapping
 32-bit words, against the plain statement of what good padding is.
 */
module Padding {
  import opened Bytes
  import opened Bits

  /** The last byte `n` and the `n` bytes before it exist and all equal `n`. */
  predicate WellPadded(p: bytes)
  {
    |p| > 0 &&
    var n := p[|p| - 1];
    n < |p| && forall j :: |p| - 1 - n <= j < |p| ==> p[j] == n
  }

  /** How many bytes to remove. */
  function ToRemove(p: bytes): nat
  {
    if p == [] then 0 else if WellPadded(p) then p[|p| - 1] as int + 1 else 1
  }

  // ----- Words -----

  /** `n` truncated to 32 bits. */
  function Word(n: int): u32 { n % 0x1_0000_0000 }

  function Complement(w: u32): u32 { 0xffff_ffff - w }

  /** The low byte of the word after an arithmetic shift right by 31. */
  function SignMask(w: u32): bv8
  {
    var signed := if w >= 0x8000_0000 then w - 0x1_0000_0000 else w as int;
    Bv(signed / 0x8000_0000 % 0x100)
  }

  lemma SignMaskIsSign(w: u32)
    ensures SignMask(w) == if w >= 0x8000_0000 then 255 else 0
  {
    var signed := if w >= 0x8000_0000 then w - 0x1_0000_0000 else w as int;
    assert signed / 0x8000_0000 == if w >= 0x8000_0000 then -1 else 0;
  }

  /** The mask is set exactly when the difference did not wrap. */
  lemma MaskCompares(a: int, b: int)
    requires 0 <= a < 0x8000_0000 && 0 <= b < 0x8000_0000
    ensures SignMask(Complement(Word(a - b))) == if b <= a then 255 else 0
  {
    SignMaskIsSign(Complement(Word(a - b)));
    assert Word(a - b) == if b <= a then a - b else a - b + 0x1_0000_0000;
  }

  // ----- The flag byte -----

  /** The flag with the bits cleared in which the masked bytes differ. */
  function Cleared(good: bv8, mask: bv8, n: bv8, b: bv8): bv8
  {
    good & !((mask & n) ^ (mask & b))
  }

  /** All bits of the flag combined and spread over the whole byte. */
  function Spread(good: bv8): bv8
  {
    var g := good & (good << 4);
    var h := g & (g << 2);
    var k := h & (h << 1);
    0 - (k >> 7)
  }

  /** The padding length, or zero when the flag is clear. */
  function Kept(n: byte, good: bv8): byte { Int(Bv(n) & good) }

  lemma KeptIfGood(n: byte)
    ensures Kept(n, 255) == n && Kept(n, 0) == 0
  {
    assert Bv(n) & 255 == Bv(n) && Bv(n) & 0 == 0;
    IntOfBv(n);
  }

  /** The last `k` bytes that padding of length `n` covers have been compared. */
  predicate MatchesSoFar(p: bytes, n: byte, k: nat)
    requires k <= |p|
  {
    forall j :: |p| - k <= j < |p| && |p| - 1 - n <= j ==> p[j] == n
  }

  method ExtractPadding(payload: bytes) returns (toRemove: nat, good: bv8)
    requires |payload| < 0x8000_0000
    ensures toRemove == ToRemove(payload)
    ensures good == if WellPadded(payload) then 255 else 0
  {
    hide SignMask, Word, Complement, Bv, Kept;
    if |payload| < 1 {
      return 0, 0;
    }
    var n := payload[|payload| - 1];
    var t := Word(|payload| - 1 - n);
    good := SignMask(Complement(t));
    MaskCompares(|payload| - 1, n);

    var toCheck := 256;
    if toCheck > |payload| {
      toCheck := |payload|;
    }
    for i := 0 to toCheck
      invariant good == 255 <==> n < |payload| && MatchesSoFar(payload, n, i)
    {
      var mask := SignMask(Complement(Word(n - i)));
      MaskCompares(n, i);
      var b := payload[|payload| - 1 - i];
      assert Cleared(good, mask, Bv(n), Bv(b)) == 255 <==> good == 255 && (mask == 0 || Bv(n) == Bv(b));
      BvInjective(n, b);
      good := Cleared(good, mask, Bv(n), Bv(b));
    }
    assert Spread(good) == if good == 255 then 255 else 0;
    good := Spread(good);
    KeptIfGood(n);
    toRemove := Kept(n, good) + 1;
  }
}
