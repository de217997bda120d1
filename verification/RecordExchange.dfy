/**
 Two halves at work together: keys installed at a sender and a receiver, and a
 run of records carried from one to the other.
 */
module RecordExchange {
  import opened Bytes
  import opened Nonce
  import opened HalfConn
  import opened HalfConnCode
  import opened RecordLayer
  import opened RecordWriter
  import opened Versions

  /** The two halves share no object. */
  ghost predicate Apart(sender: Half, receiver: Half)
    reads sender, receiver
  {
    && sender != receiver && sender.parts !! receiver.parts
    && sender !in receiver.parts && receiver !in sender.parts
  }

  method Switch(half: Half, v: u16, p: Protection, start: bytes) returns (ok: bool)
    requires half.Wired() && NonceFits(p)
    modifies half, half.counter
    ensures half.Wired() && fresh(half.parts - old(half.parts)) && (ok <==> v != VERSION_TLS13)
    ensures ok ==> half.St() == State(v, p, 0, 0, start) && half.Used() == [] && half.Sending()
    ensures !ok ==> half.protection == old(half.protection) && half.Used() == old(half.Used())
  {
    hide Value, Half.Wired, Half.Used;
    half.PrepareCipherSpec(v, p, start);
    var alert := half.ChangeCipherSpec();
    ok := alert.None?;
  }

  /**
   Prepares the same keys at both halves and puts them in use.  Below TLS 1.3
   the halves then agree, whatever each had sealed or opened before; for
   TLS 1.3 both refuse and keep the keys they had.
   */
  method EstablishKeys(sender: Half, receiver: Half, v: u16, p: Protection, start: bytes) returns (ok: bool)
    requires sender.Wired() && receiver.Wired() && Apart(sender, receiver) && NonceFits(p)
    modifies sender, sender.counter, receiver, receiver.counter
    ensures sender.Wired() && receiver.Wired() && Apart(sender, receiver)
    ensures fresh(sender.parts - old(sender.parts)) && fresh(receiver.parts - old(receiver.parts))
    ensures ok <==> v != VERSION_TLS13
    ensures ok ==> sender.St() == receiver.St() == State(v, p, 0, 0, start) && sender.Sending() && sender.Used() == []
    ensures !ok ==> && sender.protection == old(sender.protection) && sender.Used() == old(sender.Used())
                    && receiver.protection == old(receiver.protection)
  {
    hide Value, Half.Wired, Half.Used, Consecutive;
    var a := Switch(sender, v, p, start);
    var b := Switch(receiver, v, p, start);
    ok := a && b;
  }

  /**
   Installs the same TLS 1.3 keys at both halves.  They then agree, whatever each
   had done before, exactly when they run the same version.
   */
  method InstallSecrets(sender: Half, receiver: Half, p: Protection)
    requires sender.Wired() && receiver.Wired() && Apart(sender, receiver) && NonceFits(p)
    modifies sender, sender.counter, receiver, receiver.counter
    ensures sender.Wired() && receiver.Wired() && Apart(sender, receiver)
    ensures fresh(sender.parts - old(sender.parts)) && fresh(receiver.parts - old(receiver.parts))
    ensures sender.St() == receiver.St() <==> old(sender.version) == old(receiver.version)
    ensures sender.St() == State(old(sender.version), p, 0, 0, []) && sender.Sending() && sender.Used() == []
  {
    hide Value, Half.Wired, Half.Used;
    sender.SetTrafficSecret(p);
    receiver.SetTrafficSecret(p);
  }

  /** The cipher's sizes are small and the payload fits a record. */
  predicate Carriable(p: Protection, m: Message)
  {
    Modest(p) && |m.payload| <= MAX_PLAINTEXT
  }

  lemma SealedShort(s: State, m: Message)
    requires Valid(s) && NumbersLeft(s, 1) && Sendable(s, m) && Carriable(s.protection, m)
    ensures |Seal(s, m).record| < 0x8000_0000
  {
    hide Seal, SealedLength, Valid;
    SealedLengthIs(s, m);
    UnderCeiling(s, |m.payload|, VERSION_TLS12);
  }

  /** Seals one message at the sender and opens the record at the receiver. */
  method Carry(sender: Half, receiver: Half, m: Message) returns (got: Plaintext)
    requires sender.Wired() && receiver.Wired() && Apart(sender, receiver) && sender.Sending()
    requires sender.St() == receiver.St() && !sender.protection.Plain? && Carriable(sender.protection, m)
    requires Valid(sender.St()) && NumbersLeft(sender.St(), 1) && Sendable(sender.St(), m)
    modifies sender`pos, sender`iv, sender.parts, receiver`pos, receiver`iv, receiver.parts
    ensures sender.Wired() && receiver.Wired() && sender.Sending()
    ensures sender.parts == old(sender.parts) && receiver.parts == old(receiver.parts)
    ensures sender.St() == receiver.St() == Seal(old(sender.St()), m).state
    ensures got == Plaintext(m.typ, m.payload)
  {
    hide Value, Valid, U16, HalfConn.Decrypt, HalfConn.Encrypt, Consecutive, Half.Wired, Half.Used;
    ghost var s := sender.St();
    SealedOpens(s, m);
    SealedShort(s, m);
    var record := sender.Encrypt(Header(m.typ, m.version, |m.payload|), m.payload, m.iv);
    var r := receiver.Decrypt(record);
    got := Plaintext(r.typ, r.data);
  }

  /**
   Carries a run of messages.  The receiver gets every one as it was sent, in
   order, the halves agree at the end, and the sender's cipher has been given no
   nonce twice since its keys were installed.
   */
  method Exchange(sender: Half, receiver: Half, ms: seq<Message>) returns (got: seq<Plaintext>)
    requires sender.Wired() && receiver.Wired() && Apart(sender, receiver) && sender.Sending()
    requires sender.St() == receiver.St() && CanRun(sender.St(), ms) && !sender.protection.Plain?
    requires forall m :: m in ms ==> Carriable(sender.protection, m)
    modifies sender`pos, sender`iv, sender.parts, receiver`pos, receiver`iv, receiver.parts
    ensures sender.Wired() && receiver.Wired() && sender.Sending()
    ensures got == Plaintexts(ms) && sender.St() == receiver.St() == After(old(sender.St()), ms)
    ensures sender.protection.Aead? ==> sender.Used() == old(sender.Used()) + Nonces(old(sender.St()), ms)
    ensures forall i, j :: 0 <= i < j < |sender.Used()| ==> sender.Used()[i] != sender.Used()[j]
  {
    hide Value, Valid, Seal, Sendable, Consecutive, Nonces, Carriable, Half.Wired, Half.Used;
    ghost var s := sender.St();
    got := [];
    var rest := ms;
    while rest != []
      invariant sender.Wired() && receiver.Wired() && sender.Sending() && sender.St() == receiver.St()
      invariant sender.parts == old(sender.parts) && receiver.parts == old(receiver.parts)
      invariant sender.protection == old(sender.protection)
      invariant CanRun(sender.St(), rest) && After(s, ms) == After(sender.St(), rest)
      invariant Plaintexts(ms) == got + Plaintexts(rest)
      invariant forall m :: m in rest ==> Carriable(sender.protection, m)
      decreases |rest|
    {
      RunOn(sender.St(), rest);
      Joined(got, Plaintext(rest[0].typ, rest[0].payload), Plaintexts(rest[1..]));
      var p := Carry(sender, receiver, rest[0]);
      got, rest := got + [p], rest[1..];
    }
    if sender.protection.Aead? {
      UsedGrows(s, ms, old(sender.Used()), sender.Used());
      ConsecutiveDiffer(sender.protection, sender.Used(), sender.St().count);
    }
  }

  lemma Joined<T>(a: seq<T>, x: T, b: seq<T>)
    ensures a + ([x] + b) == a + [x] + b
  {
  }
}
