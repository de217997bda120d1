/**
 Session ticket keys that rotate by themselves, and the tickets sealed under
 them.  Time is a sequence of clock readings, one for each call of the clock.
 */
module TicketKeys {
  import opened Bytes
  import opened Bits

  const HOUR := 3600
  const ROTATION := 24 * HOUR
  const LIFETIME := 7 * 24 * HOUR
  const MAX_KEYS := 7

  datatype TicketKey = TicketKey(aes: bytes, hmac: bytes, created: int)

  /** The keys, newest first, and how many times the clock has been read. */
  datatype Ring = Ring(keys: seq<TicketKey>, ticks: nat)

  type Clock = nat -> int

  ghost predicate Monotone(clock: Clock)
  {
    forall i: nat, j: nat :: i <= j ==> clock(i) <= clock(j)
  }

  /** The encrypting key is fresh enough at reading `n`. */
  predicate Fresh(keys: seq<TicketKey>, clock: Clock, n: nat)
  {
    keys != [] && clock(n) - keys[0].created < ROTATION
  }

  /** The keys that have not expired, each judged by a reading of its own. */
  function Kept(keys: seq<TicketKey>, clock: Clock, n: nat): seq<TicketKey>
  {
    if keys == [] then [] else
    (if clock(n) - keys[0].created < LIFETIME then [keys[0]] else []) + Kept(keys[1..], clock, n + 1)
  }

  // ----- Steps -----

  /**
   A call first looks at the keys under a read lock and, when they are stale,
   comes back for a second look under the write lock.  Steps of different calls
   may come in any order.
   */
  datatype Step = Look | Renew(aes: bytes, hmac: bytes)

  datatype Outcome = Outcome(ring: Ring, returned: Option<seq<TicketKey>>, at: int)

  function Next(r: Ring, step: Step, clock: Clock): Outcome
  {
    var n := r.ticks;
    match step
    case Look =>
      if r.keys == [] then Outcome(r, None, clock(n))
      else Outcome(r.(ticks := n + 1), if Fresh(r.keys, clock, n) then Some(r.keys) else None, clock(n))
    case Renew(aes, hmac) =>
      if Fresh(r.keys, clock, n) then Outcome(r.(ticks := n + 1), Some(r.keys), clock(n))
      else
        var m := if r.keys == [] then n else n + 1;
        var keys := [TicketKey(aes, hmac, clock(m))] + Kept(r.keys, clock, m + 1);
        Outcome(Ring(keys, m + 1 + |r.keys|), Some(keys), clock(m))
  }

  // ----- The invariant -----

  /** The keys are newest first, each at least a day older than the one before it, the first than `newer`. */
  predicate Apart(keys: seq<TicketKey>, newer: int)
  {
    keys != [] ==> newer - keys[0].created >= ROTATION && Apart(keys[1..], keys[0].created)
  }

  /** A day or more apart; behind the first, none had expired when the first was made. */
  predicate Spaced(keys: seq<TicketKey>)
  {
    keys != [] ==>
      Apart(keys[1..], keys[0].created) && forall k :: k in keys[1..] ==> keys[0].created - k.created < LIFETIME
  }

  ghost predicate Valid(r: Ring, clock: Clock)
  {
    Monotone(clock) && Spaced(r.keys) && forall k :: k in r.keys ==> k.created <= clock(r.ticks)
  }

  lemma {:induction false} ApartSpan(keys: seq<TicketKey>, newer: int)
    requires Apart(keys, newer) && keys != []
    ensures newer - keys[|keys| - 1].created >= ROTATION * |keys|
  {
    if |keys| > 1 {
      ApartSpan(keys[1..], keys[0].created);
    }
  }

  /** Never more than seven keys. */
  lemma FewKeys(keys: seq<TicketKey>)
    requires Spaced(keys)
    ensures |keys| <= MAX_KEYS
  {
    if |keys| > 1 {
      var rest := keys[1..];
      ApartSpan(rest, keys[0].created);
      assert rest[|rest| - 1] in rest;
    }
  }

  lemma {:induction false} ApartWeaken(keys: seq<TicketKey>, newer: int, newest: int)
    requires Apart(keys, newer) && newer <= newest
    ensures Apart(keys, newest)
  {
  }

  /** What is kept stays apart, and nothing kept had expired at `start`. */
  lemma {:induction false} KeptApart(keys: seq<TicketKey>, clock: Clock, n: nat, start: int, newer: int)
    requires Monotone(clock) && start <= clock(n) && Apart(keys, newer)
    ensures Apart(Kept(keys, clock, n), newer)
    ensures forall k :: k in Kept(keys, clock, n) ==> start - k.created < LIFETIME && k in keys
    decreases |keys|
  {
    if keys != [] {
      assert clock(n) <= clock(n + 1);
      KeptApart(keys[1..], clock, n + 1, start, keys[0].created);
      var rest := Kept(keys[1..], clock, n + 1);
      if clock(n) - keys[0].created < LIFETIME {
        assert ([keys[0]] + rest)[1..] == rest;
      } else {
        assert [] + rest == rest;
        ApartWeaken(rest, keys[0].created, newer);
      }
    }
  }

  /** Every step keeps the invariant. */
  lemma NextKeeps(r: Ring, step: Step, clock: Clock)
    requires Valid(r, clock)
    ensures Valid(Next(r, step, clock).ring, clock)
  {
    hide Kept;
    var n := r.ticks;
    assert clock(n) <= clock(n + 1);
    if step.Renew? && !Fresh(r.keys, clock, n) {
      var m := if r.keys == [] then n else n + 1;
      var rest := Kept(r.keys, clock, m + 1);
      assert clock(n) <= clock(m) <= clock(m + 1) <= clock(m + 1 + |r.keys|);
      if r.keys != [] {
        assert Apart(r.keys, clock(m));
      }
      KeptApart(r.keys, clock, m + 1, clock(m), clock(m));
      var first := TicketKey(step.aes, step.hmac, clock(m));
      assert ([first] + rest)[1..] == rest;
    }
  }

  // ----- What a call hands out -----

  /**
   Whatever is handed out has a first key less than a day old and no key that
   has reached eight days, by the reading that decided it.
   */
  lemma ReturnedKeys(r: Ring, step: Step, clock: Clock)
    requires Valid(r, clock) && Next(r, step, clock).returned.Some?
    ensures var o := Next(r, step, clock);
            && o.returned.value == o.ring.keys && o.ring.keys != [] && |o.ring.keys| <= MAX_KEYS
            && 0 <= o.at - o.ring.keys[0].created < ROTATION
            && forall k :: k in o.ring.keys ==> o.at - k.created < ROTATION + LIFETIME
  {
    hide Kept;
    var o := Next(r, step, clock);
    NextKeeps(r, step, clock);
    FewKeys(o.ring.keys);
    forall k | k in o.ring.keys ensures o.at - k.created < ROTATION + LIFETIME {
      var i :| 0 <= i < |o.ring.keys| && o.ring.keys[i] == k;
      assert i > 0 ==> o.ring.keys[0].created - k.created < LIFETIME;
    }
    if o.ring == r.(ticks := r.ticks + 1) {
      assert r.keys[0] in r.keys;
    }
  }

  // ----- Keys that stay -----

  lemma {:induction false} KeptUntilExpired(keys: seq<TicketKey>, clock: Clock, n: nat, k: TicketKey)
    requires Monotone(clock) && k in keys && k !in Kept(keys, clock, n)
    ensures clock(n + |keys|) - k.created >= LIFETIME
    decreases |keys|
  {
    assert clock(n) - keys[0].created < LIFETIME ==> keys[0] in Kept(keys, clock, n);
    if k == keys[0] {
      assert clock(n) <= clock(n + |keys|);
    } else {
      KeptUntilExpired(keys[1..], clock, n + 1, k);
    }
  }

  /** A key leaves the ring only when it is at least seven days old. */
  lemma DropsOnlyExpired(r: Ring, step: Step, clock: Clock, k: TicketKey)
    requires Valid(r, clock) && k in r.keys && k !in Next(r, step, clock).ring.keys
    ensures clock(Next(r, step, clock).ring.ticks) - k.created >= LIFETIME
  {
    hide Kept;
    var n := r.ticks;
    var m := if r.keys == [] then n else n + 1;
    assert k !in Kept(r.keys, clock, m + 1);
    KeptUntilExpired(r.keys, clock, m + 1, k);
  }

  // ----- Whole runs -----

  function Run(r: Ring, steps: seq<Step>, clock: Clock): Ring
    decreases |steps|
  {
    if steps == [] then r else Run(Next(r, steps[0], clock).ring, steps[1..], clock)
  }

  /** Every ring reached from a valid one is valid, whatever the steps. */
  lemma {:induction false} RunKeeps(r: Ring, steps: seq<Step>, clock: Clock)
    requires Valid(r, clock)
    ensures Valid(Run(r, steps, clock), clock) && |Run(r, steps, clock).keys| <= MAX_KEYS
    ensures r.ticks <= Run(r, steps, clock).ticks
    decreases |steps|
  {
    hide Kept;
    if steps == [] {
      FewKeys(r.keys);
    } else {
      NextKeeps(r, steps[0], clock);
      RunKeeps(Next(r, steps[0], clock).ring, steps[1..], clock);
    }
  }

  const EMPTY_RING := Ring([], 0)

  /** Whatever a new configuration goes through, its keys stay in order, well spaced and few. */
  lemma FreshRunKeeps(steps: seq<Step>, clock: Clock)
    requires Monotone(clock)
    ensures var r := Run(EMPTY_RING, steps, clock); Valid(r, clock) && |r.keys| <= MAX_KEYS
  {
    hide Run;
    RunKeeps(EMPTY_RING, steps, clock);
  }

  /** A key in the ring is still there at the end of any run that ends before it is seven days old. */
  lemma {:induction false} KeyStays(r: Ring, steps: seq<Step>, clock: Clock, k: TicketKey)
    requires Valid(r, clock) && k in r.keys
    requires clock(Run(r, steps, clock).ticks) - k.created < LIFETIME
    ensures k in Run(r, steps, clock).keys
    decreases |steps|
  {
    hide Next, Kept;
    if steps != [] {
      NextKeeps(r, steps[0], clock);
      var s := Next(r, steps[0], clock).ring;
      RunKeeps(s, steps[1..], clock);
      assert clock(s.ticks) <= clock(Run(r, steps, clock).ticks);
      if k !in s.keys {
        DropsOnlyExpired(r, steps[0], clock, k);
      }
      KeyStays(s, steps[1..], clock, k);
    }
  }

  // ----- Tickets -----

  const IV_LEN := 16
  const MAC_LEN := 32

  /** The key stream of AES in counter mode and the MAC, both as functions of their keys. */
  datatype Ciphers = Ciphers(stream: (bytes, bytes, nat) -> byte, mac: (bytes, bytes) -> bytes)

  ghost predicate Sound(c: Ciphers)
  {
    forall k, m :: |c.mac(k, m)| == MAC_LEN
  }

  function Crypt(c: Ciphers, aes: bytes, iv: bytes, m: bytes): (r: bytes)
    ensures |r| == |m|
  {
    seq(|m|, i requires 0 <= i < |m| => CryptAt(c, aes, iv, m, i))
  }

  function CryptAt(c: Ciphers, aes: bytes, iv: bytes, m: bytes, i: nat): byte
    requires i < |m|
  {
    Xor(m[i], c.stream(aes, iv, i))
  }

  lemma CryptBack(c: Ciphers, aes: bytes, iv: bytes, m: bytes)
    ensures Crypt(c, aes, iv, Crypt(c, aes, iv, m)) == m
  {
    hide Xor;
    forall i | 0 <= i < |m| ensures Crypt(c, aes, iv, Crypt(c, aes, iv, m))[i] == m[i] {
      XorBack(m[i], c.stream(aes, iv, i));
    }
  }

  function Ticket(c: Ciphers, state: bytes, key: TicketKey, iv: bytes): bytes
  {
    var body := iv + Crypt(c, key.aes, iv, state);
    body + c.mac(key.hmac, body)
  }

  /** Opens a ticket with the first key whose MAC fits. */
  function OpenTicket(c: Ciphers, ticket: bytes, keys: seq<TicketKey>): Option<bytes>
  {
    if |ticket| < IV_LEN + MAC_LEN || keys == [] then None else
    var body, tag := ticket[..|ticket| - MAC_LEN], ticket[|ticket| - MAC_LEN..];
    if c.mac(keys[0].hmac, body) == tag then Some(Crypt(c, keys[0].aes, body[..IV_LEN], body[IV_LEN..]))
    else OpenTicket(c, ticket, keys[1..])
  }

  /** No other key gives the same MAC on this ticket. */
  predicate NoCollision(c: Ciphers, state: bytes, key: TicketKey, iv: bytes, keys: seq<TicketKey>)
  {
    var body := iv + Crypt(c, key.aes, iv, state);
    forall k :: k in keys && k != key ==> c.mac(k.hmac, body) != c.mac(key.hmac, body)
  }

  lemma {:induction false} TicketOpens(c: Ciphers, state: bytes, key: TicketKey, iv: bytes, keys: seq<TicketKey>)
    requires Sound(c) && |iv| == IV_LEN && NoCollision(c, state, key, iv, keys)
    ensures OpenTicket(c, Ticket(c, state, key, iv), keys) == if key in keys then Some(state) else None
    decreases |keys|
  {
    hide Crypt;
    var body := iv + Crypt(c, key.aes, iv, state);
    var tag := c.mac(key.hmac, body);
    var ticket := Ticket(c, state, key, iv);
    assert ticket[..|ticket| - MAC_LEN] == body && ticket[|ticket| - MAC_LEN..] == tag;
    assert body[..IV_LEN] == iv && body[IV_LEN..] == Crypt(c, key.aes, iv, state);
    CryptBack(c, key.aes, iv, state);
    if keys != [] && keys[0] != key {
      assert keys[0] in keys;
      TicketOpens(c, state, key, iv, keys[1..]);
    }
  }

  /** The last bytes of the ticket are the MAC of all before them under the key. */
  predicate Tagged(c: Ciphers, ticket: bytes, key: TicketKey)
    requires |ticket| >= MAC_LEN
  {
    c.mac(key.hmac, ticket[..|ticket| - MAC_LEN]) == ticket[|ticket| - MAC_LEN..]
  }

  /**
   A ticket is accepted exactly when some key tags it; the first such key then deciphers it byte by byte, with the
   key stream that the first sixteen bytes select.
   */
  lemma {:induction false} AcceptedIsTagged(c: Ciphers, ticket: bytes, keys: seq<TicketKey>) returns (i: nat)
    ensures var r := OpenTicket(c, ticket, keys);
            && (r.Some? <==> |ticket| >= IV_LEN + MAC_LEN && exists k :: k in keys && Tagged(c, ticket, k))
            && (r.Some? ==>
                  && i < |keys| && Tagged(c, ticket, keys[i])
                  && (forall j :: 0 <= j < i ==> !Tagged(c, ticket, keys[j]))
                  && |r.value| == |ticket| - IV_LEN - MAC_LEN
                  && forall j :: 0 <= j < |r.value| ==>
                       r.value[j] == Xor(ticket[IV_LEN + j], c.stream(keys[i].aes, ticket[..IV_LEN], j)))
    decreases |keys|
  {
    hide Xor;
    i := 0;
    if |ticket| >= IV_LEN + MAC_LEN && keys != [] {
      if Tagged(c, ticket, keys[0]) {
        assert ticket[..|ticket| - MAC_LEN][..IV_LEN] == ticket[..IV_LEN];
      } else {
        i := AcceptedIsTagged(c, ticket, keys[1..]);
        i := i + 1;
        assert forall k :: k in keys <==> k == keys[0] || k in keys[1..];
      }
    }
  }

  /**
   Builds the ticket in one buffer: the vector, the state under the key stream,
   and the MAC of both.  Opening it with the same keys gives the state back.
   */
  method EncryptTicket(c: Ciphers, state: bytes, keys: seq<TicketKey>, iv: bytes) returns (ticket: Option<bytes>)
    requires |iv| == IV_LEN && Sound(c)
    ensures ticket.None? <==> keys == []
    ensures ticket.Some? ==> && ticket.value == Ticket(c, state, keys[0], iv)
                             && |ticket.value| == IV_LEN + |state| + MAC_LEN
                             && (NoCollision(c, state, keys[0], iv, keys) ==>
                                   OpenTicket(c, ticket.value, keys) == Some(state))
  {
    hide Xor, OpenTicket, NoCollision;
    if |keys| == 0 {
      return None;
    }
    var key, n := keys[0], IV_LEN + |state|;
    var encrypted := new byte[n + MAC_LEN](_ => 0);
    forall i | 0 <= i < IV_LEN { encrypted[i] := iv[i]; }
    for i := 0 to |state|
      invariant encrypted[..IV_LEN] == iv
      invariant forall j :: 0 <= j < i ==> encrypted[IV_LEN + j] == CryptAt(c, key.aes, iv, state, j)
    {
      encrypted[IV_LEN + i] := Xor(state[i], c.stream(key.aes, encrypted[..IV_LEN], i));
    }
    ghost var body := iv + Crypt(c, key.aes, iv, state);
    assert encrypted[..n] == body;
    var mac := c.mac(key.hmac, encrypted[..n]);
    forall i | 0 <= i < MAC_LEN { encrypted[n + i] := mac[i]; }
    assert encrypted[..] == encrypted[..n] + encrypted[n..];
    assert encrypted[..] == body + mac;
    if NoCollision(c, state, key, iv, keys) {
      TicketOpens(c, state, key, iv, keys);
    }
    return Some(encrypted[..]);
  }

  method DecryptTicket(c: Ciphers, ticket: bytes, keys: seq<TicketKey>) returns (state: Option<bytes>)
    ensures state == OpenTicket(c, ticket, keys)
  {
    hide Crypt;
    if |ticket| < IV_LEN + MAC_LEN {
      return None;
    }
    var body, tag := ticket[..|ticket| - MAC_LEN], ticket[|ticket| - MAC_LEN..];
    assert keys[0..] == keys;
    for i := 0 to |keys|
      invariant OpenTicket(c, ticket, keys) == OpenTicket(c, ticket, keys[i..])
    {
      assert keys[i..][1..] == keys[i + 1..];
      if c.mac(keys[i].hmac, body) == tag {
        return Some(Crypt(c, keys[i].aes, body[..IV_LEN], body[IV_LEN..]));
      }
    }
    return None;
  }

  /** A ticket opens at the end of every run that ends before its key is seven days old. */
  lemma TicketSurvives(c: Ciphers, state: bytes, iv: bytes, r: Ring, steps: seq<Step>, clock: Clock)
    requires Sound(c) && |iv| == IV_LEN && Valid(r, clock) && r.keys != []
    requires clock(Run(r, steps, clock).ticks) - r.keys[0].created < LIFETIME
    requires NoCollision(c, state, r.keys[0], iv, Run(r, steps, clock).keys)
    ensures OpenTicket(c, Ticket(c, state, r.keys[0], iv), Run(r, steps, clock).keys) == Some(state)
  {
    hide Run, OpenTicket, Ticket, Valid, Spaced;
    KeyStays(r, steps, clock, r.keys[0]);
    TicketOpens(c, state, r.keys[0], iv, Run(r, steps, clock).keys);
  }

  /** The same from a new configuration: a ticket made after any steps opens after any further ones. */
  lemma FreshTicketSurvives(c: Ciphers, state: bytes, iv: bytes, before: seq<Step>, after: seq<Step>, clock: Clock)
    requires Sound(c) && |iv| == IV_LEN && Monotone(clock) && Run(EMPTY_RING, before, clock).keys != []
    requires var r := Run(EMPTY_RING, before, clock);
             && clock(Run(r, after, clock).ticks) - r.keys[0].created < LIFETIME
             && NoCollision(c, state, r.keys[0], iv, Run(r, after, clock).keys)
    ensures var r := Run(EMPTY_RING, before, clock);
            OpenTicket(c, Ticket(c, state, r.keys[0], iv), Run(r, after, clock).keys) == Some(state)
  {
    hide Run, OpenTicket, Ticket, Valid, NoCollision;
    FreshRunKeeps(before, clock);
    TicketSurvives(c, state, iv, Run(EMPTY_RING, before, clock), after, clock);
  }

  // ----- The configuration object -----

  /** A configuration whose keys are managed automatically. */
  class Config {
    var autoKeys: seq<TicketKey>
    var ticks: nat
    const clock: Clock

    ghost function Held(): Ring
      reads this
    {
      Ring(autoKeys, ticks)
    }

    constructor (clock: Clock)
      ensures Held() == EMPTY_RING && this.clock == clock
    {
      autoKeys, ticks, this.clock := [], 0, clock;
    }

    method Now() returns (t: int)
      modifies this`ticks
      ensures t == clock(old(ticks)) && ticks == old(ticks) + 1
    {
      t := clock(ticks);
      ticks := ticks + 1;
    }

    /** The first look, under the read lock. */
    method LookAtKeys() returns (keys: Option<seq<TicketKey>>)
      modifies this`ticks
      ensures var o := Next(old(Held()), Look, clock); Held() == o.ring && keys == o.returned
    {
      if |autoKeys| > 0 {
        var t := Now();
        if t - autoKeys[0].created < ROTATION {
          return Some(autoKeys);
        }
      }
      return None;
    }

    /** The new key followed by those that have not expired. */
    method WithoutExpired(first: TicketKey, keys: seq<TicketKey>) returns (valid: seq<TicketKey>)
      modifies this`ticks
      ensures valid == [first] + Kept(keys, clock, old(ticks)) && ticks == old(ticks) + |keys|
    {
      valid := [first];
      assert keys[0..] == keys;
      for i := 0 to |keys|
        invariant ticks == old(ticks) + i
        invariant [first] + Kept(keys, clock, old(ticks)) == valid + Kept(keys[i..], clock, ticks)
      {
        assert keys[i..][1..] == keys[i + 1..];
        ghost var rest := Kept(keys[i + 1..], clock, ticks + 1);
        var t := Now();
        if t - keys[i].created < LIFETIME {
          assert valid + ([keys[i]] + rest) == valid + [keys[i]] + rest;
          valid := valid + [keys[i]];
        } else {
          assert [] + rest == rest;
        }
      }
      assert valid + [] == valid;
    }

    /** The second look, under the write lock, with a new key at hand. */
    method RenewKeys(aes: bytes, hmac: bytes) returns (keys: seq<TicketKey>)
      modifies this
      ensures var o := Next(old(Held()), Renew(aes, hmac), clock); Held() == o.ring && o.returned == Some(keys)
    {
      hide Kept;
      var stale := |autoKeys| == 0;
      if !stale {
        var t := Now();
        stale := t - autoKeys[0].created >= ROTATION;
      }
      if stale {
        var created := Now();
        autoKeys := WithoutExpired(TicketKey(aes, hmac, created), autoKeys);
      }
      return autoKeys;
    }
  }
}
