/**
 One direction of the record layer: sealing a payload into a record and opening
 a record again, in stream, CBC and AEAD modes and for TLS 1.3.  The ciphers
 themselves are parameters; what is assumed of them is the predicate `Sound`.
 */
module HalfConn {
  import opened Bytes
  import opened Bits
  import opened Nonce
  import opened Padding
  import opened Versions

  const HEADER_LEN := 5
  const MAX_PLAINTEXT := 16384

  const CHANGE_CIPHER_SPEC: byte := 20
  const ALERT: byte := 21
  const HANDSHAKE: byte := 22
  const APPLICATION_DATA: byte := 23

  const ALERT_UNEXPECTED_MESSAGE: byte := 10
  const ALERT_BAD_RECORD_MAC: byte := 20
  const ALERT_RECORD_OVERFLOW: byte := 22

  /** What protects the records of one direction. */
  datatype Protection =
    | Plain
    | Stream(keystream: nat -> byte, mac: bytes -> bytes, macSize: nat)
    | Cbc(block: bytes -> bytes, unblock: bytes -> bytes, blockSize: nat, mac: bytes -> bytes, macSize: nat)
    | Aead(explicit: bool, fixed: bytes, seal: Sealer, open: Opener, overhead: nat)

  /** The protection with its version, sequence number, key stream position and chaining block. */
  datatype State = State(version: u16, protection: Protection, count: u64, pos: nat, iv: bytes)

  ghost predicate Sound(p: Protection)
  {
    match p
    case Plain => true
    case Stream(_, mac, size) => forall m :: |mac(m)| == size
    case Cbc(block, unblock, b, mac, size) =>
      && 0 < b <= 256
      && (forall m :: |mac(m)| == size)
      && (forall x :: |x| == b ==> |block(x)| == b && |unblock(x)| == b && unblock(block(x)) == x)
    case Aead(explicit, fixed, seal, open, overhead) =>
      && |fixed| == (if explicit then 4 else 12)
      && (forall n, ad, m :: |seal(n, ad, m)| == |m| + overhead && open(n, ad, seal(n, ad, m)) == Some(m))
  }

  ghost predicate Valid(s: State)
  {
    && Sound(s.protection)
    && (s.protection.Cbc? ==> |s.iv| == s.protection.blockSize)
    && (s.version == VERSION_TLS13 ==>
          s.protection.Plain? || (s.protection.Aead? && !s.protection.explicit))
  }

  lemma SoundBlock(p: Protection)
    requires Sound(p) && p.Cbc?
    ensures 0 < p.blockSize <= 256
  {
  }

  lemma SoundNonce(p: Protection)
    requires Sound(p) && p.Aead?
    ensures |p.fixed| == if p.explicit then 4 else 12
  {
  }

  /** The initialization vector travels in the record from TLS 1.1 on. */
  predicate ExplicitIv(s: State)
  {
    s.protection.Cbc? && s.version >= VERSION_TLS11
  }

  function ExplicitNonceLen(s: State): nat
  {
    if ExplicitIv(s) then s.protection.blockSize
    else if s.protection.Aead? && s.protection.explicit then 8 else 0
  }

  // ----- Cipher modes -----

  /** The key stream from position `pos` combined with `m`. */
  function StreamXor(keystream: nat -> byte, pos: nat, m: bytes): (r: bytes)
    ensures |r| == |m|
  {
    seq(|m|, i requires 0 <= i < |m| => Xor(m[i], keystream(pos + i)))
  }

  lemma StreamXorBack(keystream: nat -> byte, pos: nat, m: bytes)
    ensures StreamXor(keystream, pos, StreamXor(keystream, pos, m)) == m
  {
    hide Xor;
    forall i | 0 <= i < |m| ensures StreamXor(keystream, pos, StreamXor(keystream, pos, m))[i] == m[i] {
      XorBack(m[i], keystream(pos + i));
    }
  }

  /** Enciphering in two calls is enciphering the concatenation. */
  lemma StreamXorSplit(keystream: nat -> byte, pos: nat, a: bytes, b: bytes)
    ensures StreamXor(keystream, pos, a + b) ==
            StreamXor(keystream, pos, a) + StreamXor(keystream, pos + |a|, b)
  {
    hide Xor;
  }

  predicate Multiple(n: nat, b: nat)
    requires b > 0
  {
    n % b == 0
  }

  /** How many padding bytes bring `n` bytes to whole blocks; never none. */
  function PadLen(n: nat, b: nat): (k: nat)
    requires b > 0
    ensures 0 < k <= b
  {
    b - n % b
  }

  predicate Blocks(p: Protection, m: bytes)
  {
    p.Cbc? && p.blockSize > 0 && Multiple(|m|, p.blockSize)
  }

  lemma FirstBlock(p: Protection, m: bytes)
    requires Blocks(p, m) && m != []
    ensures |m| >= p.blockSize && Blocks(p, m[p.blockSize..])
  {
    var k := |m| / p.blockSize;
    assert |m| == k * p.blockSize;
    assert |m| - p.blockSize == (k - 1) * p.blockSize;
    MultipleOf(k - 1, p.blockSize);
  }

  lemma MultipleOf(k: int, b: nat)
    requires b > 0
    ensures k * b % b == 0
  {
    var q, r := k * b / b, k * b % b;
    assert k * b == q * b + r;
    assert (k - q) * b == r;
    assert k - q >= 1 ==> (k - q) * b >= b;
    assert k - q <= -1 ==> (k - q) * b + b <= 0;
  }

  ghost function CbcSeal(p: Protection, iv: bytes, m: bytes): (r: bytes)
    requires Sound(p) && Blocks(p, m) && |iv| == p.blockSize
    ensures |r| == |m|
    decreases |m|
  {
    if m == [] then [] else
    FirstBlock(p, m);
    var b := p.blockSize;
    var c := p.block(XorAll(iv, m[..b]));
    c + CbcSeal(p, c, m[b..])
  }

  /** Every block is enciphered after combining it with the block before it on the wire, the first with `iv`. */
  lemma {:induction false} CbcChains(p: Protection, iv: bytes, m: bytes, k: nat)
    requires Sound(p) && Blocks(p, m) && |iv| == p.blockSize && k + p.blockSize <= |m| && Multiple(k, p.blockSize)
    ensures var b, c := p.blockSize, CbcSeal(p, iv, m);
            (k > 0 ==> k >= b) &&
            c[k..k + b] == p.block(XorAll(if k == 0 then iv else c[k - b..k], m[k..k + b]))
    decreases |m|
  {
    hide XorAll, Sound, Multiple;
    SoundBlock(p);
    FirstBlock(p, m);
    var b := p.blockSize;
    var x := XorAll(iv, m[..b]);
    BlockBack(p, x);
    var c := p.block(x);
    var rest := CbcSeal(p, c, m[b..]);
    var whole := c + rest;
    assert whole[..b] == c && whole[b..] == rest;
    if k > 0 {
      BlockBefore(k, b);
      CbcChains(p, c, m[b..], k - b);
      assert whole[k..k + b] == rest[k - b..k];
      assert m[k..k + b] == m[b..][k - b..k];
      if k > b {
        BlockBefore(k - b, b);
        assert whole[k - b..k] == rest[k - b - b..k - b];
      }
    }
  }

  lemma BlockBefore(k: nat, b: nat)
    requires b > 0 && k > 0 && Multiple(k, b)
    ensures k >= b && Multiple(k - b, b)
  {
    var q := k / b;
    assert k == q * b;
    assert k - b == (q - 1) * b;
    MultipleOf(q - 1, b);
  }

  ghost function CbcOpen(p: Protection, iv: bytes, c: bytes): (r: bytes)
    requires Sound(p) && Blocks(p, c) && |iv| == p.blockSize
    ensures |r| == |c|
    decreases |c|
  {
    if c == [] then [] else
    FirstBlock(p, c);
    var b := p.blockSize;
    XorAll(iv, p.unblock(c[..b])) + CbcOpen(p, c[..b], c[b..])
  }

  /** The chaining block after `c`. */
  function Chained(b: nat, iv: bytes, c: bytes): bytes
  {
    if |c| < b then iv else c[|c| - b..]
  }

  lemma BlockBack(p: Protection, x: bytes)
    requires Sound(p) && p.Cbc? && |x| == p.blockSize
    ensures |p.block(x)| == p.blockSize && p.unblock(p.block(x)) == x
  {
  }

  lemma {:induction false} CbcOpens(p: Protection, iv: bytes, m: bytes)
    requires Sound(p) && Blocks(p, m) && |iv| == p.blockSize
    ensures CbcOpen(p, iv, CbcSeal(p, iv, m)) == m
    decreases |m|
  {
    hide XorAll, Multiple, Sound;
    if m != [] {
      FirstBlock(p, m);
      var b := p.blockSize;
      var x := XorAll(iv, m[..b]);
      BlockBack(p, x);
      var c := p.block(x);
      var rest := CbcSeal(p, c, m[b..]);
      var whole := c + rest;
      assert whole[..b] == c && whole[b..] == rest;
      CbcOpens(p, c, m[b..]);
      XorAllBack(iv, m[..b]);
      assert m == m[..b] + m[b..];
    }
  }

  // ----- Sealing -----

  function Mac(mac: bytes -> bytes, seqno: u64, header: bytes, data: bytes): bytes
  {
    mac(U64(seqno) + header + data)
  }

  /** The record with its length field brought up to date. */
  function Framed(record: bytes): (r: bytes)
    requires |record| >= HEADER_LEN
    ensures |r| == |record|
  {
    record[..3] + U16(|record| - HEADER_LEN) + record[HEADER_LEN..]
  }

  function PadBytes(n: nat): (r: bytes)
    requires 0 < n <= 256
    ensures |r| == n && forall i :: 0 <= i < n ==> r[i] == n - 1
  {
    seq(n, i => n - 1)
  }

  /** Payload, MAC and padding up to a whole number of blocks. */
  function Padded(m: bytes, b: nat): (r: bytes)
    requires 0 < b <= 256
    ensures Multiple(|r|, b) && |r| > |m|
  {
    PaddedLength(|m|, b);
    m + PadBytes(PadLen(|m|, b))
  }

  lemma PaddedLength(n: nat, b: nat)
    requires b > 0
    ensures Multiple(n + PadLen(n, b), b)
  {
    var k := n / b;
    assert n + (b - n % b) == (k + 1) * b;
    MultipleOf(k + 1, b);
  }

  function AeadNonce(p: Protection, seqno: u64): bytes
    requires p.Aead? && |p.fixed| == (if p.explicit then 4 else 12)
  {
    if p.explicit then p.fixed + U64(seqno) else XorNonce(p.fixed, U64(seqno))
  }

  /** The header of a TLS 1.3 record whose sealed part has `n` bytes. */
  function Header13(header: bytes, n: nat): bytes
    requires |header| == HEADER_LEN
  {
    [APPLICATION_DATA] + header[1..3] + U16(n)
  }

  datatype Sealed = Sealed(record: bytes, state: State)

  ghost predicate CanSeal(s: State, header: bytes, iv: bytes)
  {
    && Valid(s) && |header| == HEADER_LEN && (s.protection.Plain? || s.count < MAX_SEQ)
    && (ExplicitIv(s) ==> |iv| == s.protection.blockSize)
  }

  /** `iv` is the random initialization vector, where the record carries one. */
  ghost function Encrypt(s: State, header: bytes, payload: bytes, iv: bytes): Sealed
    requires CanSeal(s, header, iv)
  {
    var p := s.protection;
    match p
    case Plain => Sealed(header + payload, s)
    case Stream(keystream, mac, _) =>
      var body := StreamXor(keystream, s.pos, payload + Mac(mac, s.count, header, payload));
      Sealed(Framed(header + body), s.(count := s.count + 1, pos := s.pos + |body|))
    case Aead(explicit, _, seal, _, overhead) =>
      if s.version == VERSION_TLS13 then
        var h := Header13(header, |payload| + 1 + overhead);
        Sealed(Framed(h + seal(AeadNonce(p, s.count), h, payload + [header[0]])), s.(count := s.count + 1))
      else
        var body := seal(AeadNonce(p, s.count), U64(s.count) + header, payload);
        Sealed(Framed(header + (if explicit then U64(s.count) else []) + body), s.(count := s.count + 1))
    case Cbc(_, _, b, mac, _) =>
      var plain := Padded(payload + Mac(mac, s.count, header, payload), b);
      var start := if ExplicitIv(s) then iv else s.iv;
      var body := CbcSeal(p, start, plain);
      Sealed(Framed(header + (if ExplicitIv(s) then iv else []) + body),
             s.(count := s.count + 1, iv := Chained(b, start, body)))
  }

  // ----- Opening -----

  datatype Opening = Opening(data: bytes, typ: byte, state: State) | Refused(alert: byte, state: State)

  /** The position behind the last byte that is not zero. */
  function ContentEnd(m: bytes): (n: nat)
    ensures n <= |m| && (n > 0 ==> m[n - 1] != 0) && forall i :: n <= i < |m| ==> m[i] == 0
  {
    if m == [] then 0 else
    var k := |m| - 1;
    if m[k] != 0 then |m| else ContentEnd(m[..k])
  }

  /** The inner content type of TLS 1.3, which is the last byte that is not zero. */
  function Unwrapped(s: State, typ: byte, m: bytes): Opening
    requires s.count < MAX_SEQ
  {
    if typ != APPLICATION_DATA then Refused(ALERT_UNEXPECTED_MESSAGE, s)
    else if |m| > MAX_PLAINTEXT + 1 then Refused(ALERT_RECORD_OVERFLOW, s)
    else if m == [] then Opening([], typ, s.(count := s.count + 1)) else
    var n := ContentEnd(m);
    if n == 0 then Refused(ALERT_UNEXPECTED_MESSAGE, s)
    else Opening(m[..n - 1], m[n - 1], s.(count := s.count + 1))
  }

  /** Removes padding and MAC, and accepts only when both are right. */
  function Authenticated(s: State, mac: bytes -> bytes, size: nat, record: bytes, m: bytes, toRemove: nat,
                         good: bool): Opening
    requires |record| >= HEADER_LEN && s.count < MAX_SEQ
  {
    if |m| < size then Refused(ALERT_BAD_RECORD_MAC, s) else
    var n := if |m| - size - toRemove < 0 then 0 else |m| - size - toRemove;
    var local := Mac(mac, s.count, record[..3] + U16(n), m[..n]);
    if local == m[n..n + size] && good then Opening(m[..n], record[0], s.(count := s.count + 1))
    else Refused(ALERT_BAD_RECORD_MAC, s)
  }

  function RoundUp(a: nat, b: nat): nat
    requires b > 0
  {
    a + (b - a % b) % b
  }

  /** Opening never panics as long as the sequence number has not run out. */
  ghost predicate CanOpen(s: State, record: bytes)
  {
    Valid(s) && |record| >= HEADER_LEN && s.count < MAX_SEQ
  }

  ghost function Decrypt(s: State, record: bytes): Opening
    requires CanOpen(s, record)
  {
    var typ, payload := record[0], record[HEADER_LEN..];
    if s.version == VERSION_TLS13 && typ == CHANGE_CIPHER_SPEC then Opening(payload, typ, s) else
    var p := s.protection;
    match p
    case Plain => Opening(payload, typ, s.(count := s.count + 1))
    case Stream(keystream, mac, size) =>
      var t := s.(pos := s.pos + |payload|);
      Authenticated(t, mac, size, record, StreamXor(keystream, s.pos, payload), 0, true)
    case Aead(_, _, _, _, _) => DecryptAead(s, record)
    case Cbc(_, _, _, _, _) => DecryptCbc(s, record, payload)
  }

  ghost function DecryptAead(s: State, record: bytes): Opening
    requires CanOpen(s, record) && s.protection.Aead?
  {
    var p, payload := s.protection, record[HEADER_LEN..];
    var k := ExplicitNonceLen(s);
    if |payload| < k then Refused(ALERT_BAD_RECORD_MAC, s) else
    var nonce := if p.explicit then p.fixed + payload[..k] else XorNonce(p.fixed, U64(s.count));
    var c := payload[k..];
    var ad := if s.version == VERSION_TLS13 then record[..HEADER_LEN]
              else U64(s.count) + record[..3] + U16Int(|c| - p.overhead);
    var m := p.open(nonce, ad, c);
    if m.None? then Refused(ALERT_BAD_RECORD_MAC, s)
    else if s.version == VERSION_TLS13 then Unwrapped(s, record[0], m.value)
    else Opening(m.value, record[0], s.(count := s.count + 1))
  }

  /** Two bytes of an integer that may be negative. */
  function U16Int(n: int): bytes { U16(n % 0x1_0000) }

  ghost function DecryptCbc(s: State, record: bytes, payload: bytes): Opening
    requires CanOpen(s, record) && s.protection.Cbc?
  {
    var p := s.protection;
    var b, k := p.blockSize, ExplicitNonceLen(s);
    if !Multiple(|payload|, b) || |payload| < k + RoundUp(p.macSize + 1, b) then Refused(ALERT_BAD_RECORD_MAC, s) else
    BodyBlocks(s, payload);
    OpenBlocks(s, record, if ExplicitIv(s) then payload[..k] else s.iv, payload[k..])
  }

  /** Opens the blocks `c` and checks padding and MAC together. */
  ghost function OpenBlocks(s: State, record: bytes, start: bytes, c: bytes): Opening
    requires CanOpen(s, record) && s.protection.Cbc? && Blocks(s.protection, c) && |start| == s.protection.blockSize
  {
    var p := s.protection;
    var m := CbcOpen(p, start, c);
    Authenticated(s.(iv := Chained(p.blockSize, start, c)), p.mac, p.macSize, record, m, ToRemove(m), WellPadded(m))
  }

  lemma BodyBlocks(s: State, payload: bytes)
    requires s.protection.Cbc? && s.protection.blockSize > 0
    requires Multiple(|payload|, s.protection.blockSize) && |payload| >= ExplicitNonceLen(s)
    ensures Blocks(s.protection, payload[ExplicitNonceLen(s)..])
  {
    if ExplicitIv(s) && |payload| > 0 {
      FirstBlock(s.protection, payload);
    }
  }

  /** Opening keeps version and keys, and uses up at most one number. */
  lemma DecryptKeeps(s: State, record: bytes)
    requires CanOpen(s, record)
    ensures var t := Decrypt(s, record).state;
            Valid(t) && t.count <= s.count + 1 && t.version == s.version && t.protection == s.protection
  {
    hide Authenticated, StreamXor, CbcOpen, U16, U64, XorNonce, Multiple, RoundUp, ToRemove, WellPadded, Sound;
    match s.protection
    case Plain =>
    case Stream(_, mac, size) =>
      var payload := record[HEADER_LEN..];
      AuthenticatedKeeps(s.(pos := s.pos + |payload|), mac, size, record,
                         StreamXor(s.protection.keystream, s.pos, payload), 0, true);
    case Aead(_, _, _, _, _) => AeadKeeps(s, record);
    case Cbc(_, _, _, _, _) => CbcKeeps(s, record);
  }

  lemma AuthenticatedKeeps(s: State, mac: bytes -> bytes, size: nat, record: bytes, m: bytes, toRemove: nat, good: bool)
    requires |record| >= HEADER_LEN && s.count < MAX_SEQ
    ensures var t := Authenticated(s, mac, size, record, m, toRemove, good).state;
            t == s || t == s.(count := s.count + 1)
  {
    hide U16, U64;
  }

  lemma AeadKeeps(s: State, record: bytes)
    requires CanOpen(s, record) && s.protection.Aead?
    ensures var t := DecryptAead(s, record).state; t == s || t == s.(count := s.count + 1)
  {
    hide U16, U64, XorNonce, ContentEnd, Sound;
    SoundNonce(s.protection);
  }

  lemma CbcKeeps(s: State, record: bytes)
    requires CanOpen(s, record) && s.protection.Cbc?
    ensures var t := DecryptCbc(s, record, record[HEADER_LEN..]).state;
            Valid(t) && t.count <= s.count + 1 && t.version == s.version && t.protection == s.protection
  {
    hide Authenticated, CbcOpen, Multiple, RoundUp, ToRemove, WellPadded, Sound;
    var p, payload, k := s.protection, record[HEADER_LEN..], ExplicitNonceLen(s);
    SoundBlock(p);
    if Multiple(|payload|, p.blockSize) && |payload| >= k + RoundUp(p.macSize + 1, p.blockSize) {
      BodyBlocks(s, payload);
      var start, c := if ExplicitIv(s) then payload[..k] else s.iv, payload[k..];
      var m := CbcOpen(p, start, c);
      AuthenticatedKeeps(s.(iv := Chained(p.blockSize, start, c)), p.mac, p.macSize, record, m, ToRemove(m), WellPadded(m));
    }
  }
}
