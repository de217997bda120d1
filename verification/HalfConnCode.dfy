/**
 The object that holds one direction of a connection, and the methods that seal
 and open records by updating it.
 */
module HalfConnCode {
  import opened Bytes
  import opened Bits
  import opened Nonce
  import opened Padding
  import opened HalfConn
  import opened Versions

  const ALERT_INTERNAL_ERROR: byte := 80

  /** Keys made ready by a handshake and not yet in use. */
  datatype Pending = Nothing | Pending(protection: Protection, iv: bytes)

  /** What the caller sees of an opening. */
  datatype Outcome = Content(data: bytes, typ: byte) | Failed(alert: byte)

  function Shown(d: Opening): Outcome
  {
    match d
    case Opening(data, typ, _) => Content(data, typ)
    case Refused(alert, _) => Failed(alert)
  }

  /** Encrypts whole blocks one after the other; `last` is the block the next call chains on. */
  method ChainBlocks(p: Protection, iv: bytes, m: bytes) returns (c: bytes, last: bytes)
    requires Sound(p) && Blocks(p, m) && |iv| == p.blockSize
    ensures c == CbcSeal(p, iv, m) && last == Chained(p.blockSize, iv, c)
  {
    hide XorAll, Multiple;
    c, last := [], iv;
    var rest := m;
    assert c + CbcSeal(p, iv, m) == CbcSeal(p, iv, m);
    while rest != []
      invariant Blocks(p, rest) && |last| == p.blockSize && last == Chained(p.blockSize, iv, c)
      invariant CbcSeal(p, iv, m) == c + CbcSeal(p, last, rest)
      decreases |rest|
    {
      FirstBlock(p, rest);
      var next := p.block(XorAll(last, rest[..p.blockSize]));
      Assoc(c, next, CbcSeal(p, next, rest[p.blockSize..]));
      c, last, rest := c + next, next, rest[p.blockSize..];
      assert c[|c| - p.blockSize..] == next;
    }
    assert c + [] == c;
  }

  method UnchainBlocks(p: Protection, iv: bytes, c: bytes) returns (m: bytes, last: bytes)
    requires Sound(p) && Blocks(p, c) && |iv| == p.blockSize
    ensures m == CbcOpen(p, iv, c) && last == Chained(p.blockSize, iv, c) && |last| == p.blockSize
  {
    hide XorAll, Multiple, Chained;
    m, last := [], iv;
    var rest := c;
    assert m + CbcOpen(p, iv, c) == CbcOpen(p, iv, c);
    while rest != []
      invariant Blocks(p, rest) && |last| == p.blockSize && |rest| <= |c|
      invariant Chained(p.blockSize, iv, c) == Chained(p.blockSize, last, rest)
      invariant CbcOpen(p, iv, c) == m + CbcOpen(p, last, rest)
      decreases |rest|
    {
      FirstBlock(p, rest);
      var next := rest[..p.blockSize];
      Assoc(m, XorAll(last, p.unblock(next)), CbcOpen(p, next, rest[p.blockSize..]));
      ChainedOn(p, last, rest);
      m, last, rest := m + XorAll(last, p.unblock(next)), next, rest[p.blockSize..];
    }
    assert m + [] == m;
    ChainedNothing(p.blockSize, last);
  }

  lemma ChainedNothing(b: nat, last: bytes)
    requires b > 0
    ensures Chained(b, last, []) == last
  {
  }

  lemma ChainedOn(p: Protection, last: bytes, rest: bytes)
    requires Blocks(p, rest) && rest != []
    ensures |rest| >= p.blockSize
    ensures Chained(p.blockSize, last, rest) == Chained(p.blockSize, rest[..p.blockSize], rest[p.blockSize..])
  {
    FirstBlock(p, rest);
    var b, more := p.blockSize, rest[p.blockSize..];
    if more != [] {
      FirstBlock(p, more);
      assert rest[|rest| - b..] == more[|more| - b..];
    } else {
      assert rest[|rest| - b..] == rest[..b];
    }
  }

  /** Scans from the end for the content type of TLS 1.3. */
  method FindContentEnd(m: bytes) returns (n: nat)
    ensures n == ContentEnd(m)
  {
    n := |m|;
    assert m[..n] == m;
    while n > 0
      invariant n <= |m| && ContentEnd(m) == ContentEnd(m[..n])
    {
      if m[n - 1] != 0 {
        return;
      }
      assert m[..n][..n - 1] == m[..n - 1];
      n := n - 1;
    }
  }

  /** The fixed part of the nonce has the length its wrapper demands. */
  predicate NonceFits(p: Protection)
  {
    p.Aead? ==> |p.fixed| == if p.explicit then 4 else 12
  }

  /** The nonces sealed with are those of the numbers 0 up to `count`, in order. */
  ghost predicate Consecutive(p: Protection, used: seq<bytes>, count: nat)
  {
    p.Aead? ==>
      NonceFits(p) && |used| == count <= MAX_SEQ && forall i :: 0 <= i < count ==> used[i] == AeadNonce(p, i)
  }

  /** No nonce is among them twice. */
  lemma ConsecutiveDiffer(p: Protection, used: seq<bytes>, count: nat)
    requires p.Aead? && Consecutive(p, used, count)
    ensures forall i, j :: 0 <= i < j < |used| ==> used[i] != used[j]
  {
    hide XorNonce, U64;
    forall i, j | 0 <= i < j < |used| ensures used[i] != used[j] {
      NoncesDiffer(p.fixed, i, j);
    }
  }

  /**
   One direction of a connection.  An AEAD is held as the wrapper object that
   the source makes for it; `protection` describes the keys in use.
   */
  class Half {
    var version: u16
    var protection: Protection
    const counter: array<byte>
    var pos: nat
    var iv: bytes
    var next: Pending
    var xor: XorNonceAead?
    var prefix: PrefixNonceAead?
    /** The objects that sealing and opening update. */
    ghost var parts: set<object>

    /** The wrapper in use holds the keys in use, its mask or prefix unspoilt, and pending keys fit a wrapper. */
    ghost predicate Wired()
      reads this, parts
      ensures Wired() ==> this !in parts && counter in parts && counter.Length == 8
    {
      && this !in parts && counter in parts && counter.Length == 8 && (next.Pending? ==> NonceFits(next.protection))
      && (xor != null ==> {xor, xor.nonceMask} <= parts && xor.nonceMask != counter && xor.nonceMask.Length == 12)
      && (prefix != null ==> {prefix, prefix.nonce} <= parts && prefix.nonce != counter && prefix.nonce.Length == 12)
      && (protection.Aead? && !protection.explicit ==>
            && xor != null && xor.nonceMask[..] == protection.fixed
            && xor.seal == protection.seal && xor.open == protection.open)
      && (protection.Aead? && protection.explicit ==>
            && prefix != null && prefix.nonce[..4] == protection.fixed
            && prefix.seal == protection.seal && prefix.open == protection.open)
    }

    /** The nonces that the cipher in use has sealed with. */
    ghost function Used(): (r: seq<bytes>)
      requires Wired()
      reads this, parts
      ensures !protection.Aead? ==> r == []
    {
      if !protection.Aead? then [] else if protection.explicit then prefix.used else xor.used
    }

    ghost function St(): State
      requires counter.Length == 8
      reads this, counter
    {
      State(version, protection, Value(counter[..]), pos, iv)
    }

    /** A sending direction: every number so far has been sealed with once, in order. */
    ghost predicate Sending()
      requires Wired()
      reads this, parts
    {
      Consecutive(protection, Used(), St().count)
    }

    constructor ()
      ensures Wired() && fresh(parts) && next == Nothing
      ensures St() == State(0, Plain, 0, 0, [])
    {
      version, protection, pos, iv, next := 0, Plain, 0, [], Nothing;
      xor, prefix := null, null;
      counter := new byte[8](_ => 0);
      parts := {counter};
      new;
      Extremes(counter[..]);
    }

    /** Zeroes the sequence number. */
    method ResetCounter()
      requires counter.Length == 8
      modifies counter
      ensures Value(counter[..]) == 0
    {
      forall i | 0 <= i < 8 { counter[i] := 0; }
      Extremes(counter[..]);
    }

    /** Makes the wrapper for an AEAD and starts counting anew. */
    method Install(p: Protection, start: bytes)
      requires Wired() && NonceFits(p)
      modifies this`protection, this`xor, this`prefix, this`parts, this`pos, this`iv, counter
      ensures Wired() && fresh(parts - old(parts)) && Used() == []
      ensures St() == State(version, p, 0, 0, start)
    {
      hide Value;
      protection, pos, iv := p, 0, start;
      if p.Aead? {
        if p.explicit {
          prefix := new PrefixNonceAead(p.fixed, p.seal, p.open);
          parts := parts + {prefix, prefix.nonce};
        } else {
          xor := new XorNonceAead(p.fixed, p.seal, p.open);
          parts := parts + {xor, xor.nonceMask};
        }
      }
      ResetCounter();
    }

    method PrepareCipherSpec(v: u16, p: Protection, start: bytes)
      requires Wired() && NonceFits(p)
      modifies this`version, this`next
      ensures Wired() && next == Pending(p, start) && St() == old(St()).(version := v) && Used() == old(Used())
    {
      version, next := v, Pending(p, start);
    }

    /** Puts the prepared keys in use; refused when there are none, and always in TLS 1.3. */
    method ChangeCipherSpec() returns (alert: Option<byte>)
      requires Wired()
      modifies this, counter
      ensures Wired() && fresh(parts - old(parts))
      ensures alert.Some? <==> old(next.Nothing?) || old(version) == VERSION_TLS13
      ensures alert.Some? ==> alert == Some(ALERT_INTERNAL_ERROR) && St() == old(St()) && next == old(next)
                              && Used() == old(Used())
      ensures alert.None? ==> next == Nothing && Used() == [] &&
                              St() == State(old(version), old(next).protection, 0, 0, old(next).iv)
    {
      if next.Nothing? || version == VERSION_TLS13 {
        return Some(ALERT_INTERNAL_ERROR);
      }
      Install(next.protection, next.iv);
      next := Nothing;
      return None;
    }

    /** Installs TLS 1.3 keys at once; a chaining block goes with the cipher that is replaced. */
    method SetTrafficSecret(p: Protection)
      requires Wired() && NonceFits(p)
      modifies this, counter
      ensures Wired() && fresh(parts - old(parts)) && Used() == []
      ensures St() == State(old(version), p, 0, 0, []) && next == old(next)
    {
      Install(p, []);
    }

    /** Seals through the wrapper; the nonce is the counter. */
    method SealWrapped(plaintext: bytes, ad: bytes) returns (sealed: bytes)
      requires Wired() && protection.Aead? && NonceFits(protection)
      modifies parts - {counter}
      ensures Wired() && sealed == protection.seal(AeadNonce(protection, Value(counter[..])), ad, plaintext)
      ensures Used() == old(Used()) + [AeadNonce(protection, Value(counter[..]))]
    {
      hide Value, U64, XorNonce;
      BytesOfValue(counter[..]);
      if protection.explicit {
        sealed := prefix.Seal(counter[..], plaintext, ad);
      } else {
        sealed := xor.Seal(counter[..], plaintext, ad);
      }
    }

    /** Opens through the wrapper; the nonce is the explicit part or the counter. */
    method OpenWrapped(explicit: bytes, ciphertext: bytes, ad: bytes) returns (plain: Option<bytes>)
      requires Wired() && protection.Aead? && NonceFits(protection) && (protection.explicit ==> |explicit| == 8)
      modifies parts - {counter}
      ensures Wired() && Used() == old(Used())
      ensures plain == protection.open(if protection.explicit then protection.fixed + explicit
                                       else XorNonce(protection.fixed, counter[..]), ad, ciphertext)
    {
      hide Value, U64, XorNonce;
      if protection.explicit {
        plain := prefix.Open(explicit, ciphertext, ad);
      } else {
        plain := xor.Open(counter[..], ciphertext, ad);
      }
    }

    method EncryptStream(header: bytes, payload: bytes, rand: bytes) returns (record: bytes)
      requires Wired() && CanSeal(St(), header, rand) && protection.Stream?
      modifies this`pos, counter
      ensures Wired() && Sealed(record, St()) == HalfConn.Encrypt(old(St()), header, payload, rand)
    {
      hide Value, StreamXor, U16, U64, Sound;
      BytesOfValue(counter[..]);
      var tag := protection.mac(counter[..] + header + payload);
      var first := StreamXor(protection.keystream, pos, payload);
      var second := StreamXor(protection.keystream, pos + |payload|, tag);
      StreamXorSplit(protection.keystream, pos, payload, tag);
      pos := pos + |payload| + |tag|;
      record := Framed(header + (first + second));
      var wrapped := IncSeq(counter);
    }

    /** `Used` grows by the nonce of the old number, and by nothing else. */
    method EncryptAead(header: bytes, payload: bytes, rand: bytes) returns (record: bytes)
      requires Wired() && CanSeal(St(), header, rand) && protection.Aead?
      modifies parts
      ensures Wired() && Sealed(record, St()) == HalfConn.Encrypt(old(St()), header, payload, rand)
      ensures NonceFits(protection) && Used() == old(Used()) + [AeadNonce(protection, old(St()).count)]
    {
      hide Value, U16, U64, XorNonce, Sound, AeadNonce;
      SoundNonce(protection);
      BytesOfValue(counter[..]);
      if version == VERSION_TLS13 {
        var h := [APPLICATION_DATA] + header[1..3] + U16(|payload| + 1 + protection.overhead);
        var body := SealWrapped(payload + [header[0]], h);
        record := h + body;
      } else {
        record := header + (if protection.explicit then counter[..] else []);
        var body := SealWrapped(payload, counter[..] + header);
        record := record + body;
      }
      record := Framed(record);
      var wrapped := IncSeq(counter);
    }

    method EncryptCbc(header: bytes, payload: bytes, rand: bytes) returns (record: bytes)
      requires Wired() && CanSeal(St(), header, rand) && protection.Cbc?
      modifies this`iv, counter
      ensures Wired() && Sealed(record, St()) == HalfConn.Encrypt(old(St()), header, payload, rand)
    {
      hide Value, CbcSeal, U16, U64, Sound;
      SoundBlock(protection);
      BytesOfValue(counter[..]);
      var tag := protection.mac(counter[..] + header + payload);
      var plain := Padded(payload + tag, protection.blockSize);
      record := header;
      if version >= VERSION_TLS11 {
        record, iv := record + rand, rand;
      } else {
        record := record + [];
      }
      var c, last := ChainBlocks(protection, iv, plain);
      record, iv := Framed(record + c), last;
      var wrapped := IncSeq(counter);
    }

    /** Seals a record; an AEAD is given the nonce of the old number, and no other. */
    method Encrypt(header: bytes, payload: bytes, rand: bytes) returns (record: bytes)
      requires Wired() && CanSeal(St(), header, rand)
      modifies this`pos, this`iv, parts
      ensures Wired() && Sealed(record, St()) == HalfConn.Encrypt(old(St()), header, payload, rand)
      ensures protection.Aead? ==> NonceFits(protection)
                                   && Used() == old(Used()) + [AeadNonce(protection, old(St()).count)]
      ensures old(Sending()) ==> Sending()
    {
      hide Value, CbcSeal, StreamXor, U16, U64, XorNonce, Sound, Framed, Padded, Chained;
      ghost var n, before := St().count, Used();
      match protection
      case Plain =>
        record := header + payload;
      case Stream(_, _, _) =>
        record := EncryptStream(header, payload, rand);
      case Aead(_, _, _, _, _) =>
        record := EncryptAead(header, payload, rand);
        if old(Sending()) {
          assert Consecutive(protection, before + [AeadNonce(protection, n)], n + 1);
        }
      case Cbc(_, _, _, _, _) =>
        record := EncryptCbc(header, payload, rand);
    }

    /** The MAC check shared by the stream and CBC modes; it updates the header's length in its own copy. */
    method CheckMac(record: bytes, m: bytes, toRemove: nat, good: bool) returns (r: Outcome)
      requires Wired() && CanOpen(St(), record) && (protection.Stream? || protection.Cbc?)
      modifies counter
      ensures Wired()
      ensures var d := Authenticated(old(St()), protection.mac, protection.macSize, record, m, toRemove, good);
              r == Shown(d) && St() == d.state
    {
      hide Value, U16, U64, Sound;
      BytesOfValue(counter[..]);
      var size := protection.macSize;
      if |m| < size {
        return Failed(ALERT_BAD_RECORD_MAC);
      }
      var n := |m| - size - toRemove;
      if n < 0 {
        n := 0;
      }
      var local := protection.mac(counter[..] + (record[..3] + U16(n)) + m[..n]);
      if !(local == m[n..n + size] && good) {
        return Failed(ALERT_BAD_RECORD_MAC);
      }
      var wrapped := IncSeq(counter);
      return Content(m[..n], record[0]);
    }

    method OpenAead(record: bytes) returns (r: Outcome)
      requires Wired() && CanOpen(St(), record) && protection.Aead?
      modifies parts
      ensures Wired()
      ensures var d := DecryptAead(old(St()), record); r == Shown(d) && St() == d.state
    {
      hide Value, U16, U64, XorNonce, Sound, ContentEnd, U16Int;
      BytesOfValue(counter[..]);
      SoundNonce(protection);
      var payload := record[HEADER_LEN..];
      var k := if protection.explicit then 8 else 0;
      if |payload| < k {
        return Failed(ALERT_BAD_RECORD_MAC);
      }
      var explicit := payload[..k];
      payload := payload[k..];
      var ad := if version == VERSION_TLS13 then record[..HEADER_LEN]
                else counter[..] + record[..3] + U16Int(|payload| - protection.overhead);
      var m := OpenWrapped(explicit, payload, ad);
      if m.None? {
        return Failed(ALERT_BAD_RECORD_MAC);
      }
      var typ, plaintext := record[0], m.value;
      if version == VERSION_TLS13 {
        if typ != APPLICATION_DATA {
          return Failed(ALERT_UNEXPECTED_MESSAGE);
        }
        if |plaintext| > MAX_PLAINTEXT + 1 {
          return Failed(ALERT_RECORD_OVERFLOW);
        }
        if |plaintext| > 0 {
          var n := FindContentEnd(plaintext);
          if n == 0 {
            return Failed(ALERT_UNEXPECTED_MESSAGE);
          }
          typ, plaintext := plaintext[n - 1], plaintext[..n - 1];
        }
      }
      var wrapped := IncSeq(counter);
      return Content(plaintext, typ);
    }

    method OpenCbc(record: bytes) returns (r: Outcome)
      requires Wired() && CanOpen(St(), record) && protection.Cbc? && |record| < 0x8000_0000
      modifies this`iv, counter
      ensures Wired()
      ensures var d := DecryptCbc(old(St()), record, record[HEADER_LEN..]); r == Shown(d) && St() == d.state
    {
      hide Value, CbcOpen, Sound, Authenticated, Multiple, RoundUp, ToRemove, WellPadded, Chained;
      SoundBlock(protection);
      var payload, b := record[HEADER_LEN..], protection.blockSize;
      var k := if version >= VERSION_TLS11 then b else 0;
      if !Multiple(|payload|, b) || |payload| < k + RoundUp(protection.macSize + 1, b) {
        return Failed(ALERT_BAD_RECORD_MAC);
      }
      BodyBlocks(St(), payload);
      if k > 0 {
        iv := payload[..k];
      }
      payload := payload[k..];
      var m;
      m, iv := UnchainBlocks(protection, iv, payload);
      var toRemove, good := ExtractPadding(m);
      r := CheckMac(record, m, toRemove, good == 255);
    }

    /** Opens a record shorter than 2^31 bytes, as every record that fits its length field is. */
    method Decrypt(record: bytes) returns (r: Outcome)
      requires Wired() && CanOpen(St(), record) && |record| < 0x8000_0000
      modifies this`pos, this`iv, parts
      ensures Wired()
      ensures var d := HalfConn.Decrypt(old(St()), record); r == Shown(d) && St() == d.state
    {
      hide Value, StreamXor, Sound, Authenticated, DecryptAead, DecryptCbc;
      var typ, payload := record[0], record[HEADER_LEN..];
      if version == VERSION_TLS13 && typ == CHANGE_CIPHER_SPEC {
        return Content(payload, typ);
      }
      match protection
      case Plain =>
        var wrapped := IncSeq(counter);
        return Content(payload, typ);
      case Stream(keystream, _, _) =>
        var m := StreamXor(keystream, pos, payload);
        pos := pos + |payload|;
        r := CheckMac(record, m, 0, true);
      case Aead(_, _, _, _, _) =>
        r := OpenAead(record);
      case Cbc(_, _, _, _, _) =>
        r := OpenCbc(record);
    }
  }
}
