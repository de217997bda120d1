/**
 The secrets of a handshake against the schedule of section 7.1 of RFC 8446:
 which label, which parent secret and which transcript each is derived from,
 and that secrets of different runs, or of different purpose, are different.
 */
module KeySchedule {
  import opened Bytes
  import opened Handshake

  /**
   What the schedule of one run is fed with: the secret of a resumed session, the shared key, and the transcript
   up to the ServerHello, up to the server's Finished and up to the client's.
   */
  datatype Inputs = Inputs(psk: bytes, shared: bytes, hello: bytes, server: bytes, whole: bytes)

  /** One use of the derivation. */
  datatype Use = Use(purpose: string, secret: bytes, transcript: bytes)

  function HandshakeKey(k: Schedule, p: Inputs): bytes
  {
    k.handshake(k.early(p.psk), p.shared)
  }

  /** The table of the RFC. */
  function Uses(k: Schedule, p: Inputs): (r: seq<Use>)
    ensures |r| == 6
  {
    var hs := HandshakeKey(k, p);
    var ms := k.master(hs);
    [Use("c hs traffic", hs, p.hello), Use("s hs traffic", hs, p.hello), Use("c ap traffic", ms, p.server),
     Use("s ap traffic", ms, p.server), Use("exp master", ms, p.server), Use("res master", ms, p.whole)]
  }

  function InOrder(s: Secrets): (r: seq<bytes>)
    ensures |r| == 6
  {
    [s.clientHs, s.serverHs, s.clientApp, s.serverApp, s.exporter, s.resumption]
  }

  function Derive(k: Schedule, u: Use): bytes
  {
    k.derive(u.purpose, u.secret, u.transcript)
  }

  /** Every secret is the one that the table gives. */
  predicate Scheduled(k: Schedule, s: Secrets, p: Inputs)
  {
    forall i :: 0 <= i < 6 ==> InOrder(s)[i] == Derive(k, Uses(k, p)[i])
  }

  /** The secrets after the three steps in which a party derives them. */
  function Derived(k: Schedule, p: Inputs): Secrets
  {
    ResumptionSecret(k, ApplicationSecrets(k, HandshakeSecrets(k, p.psk, p.shared, p.hello), p.server), p.whole)
  }

  lemma DerivedAsScheduled(k: Schedule, p: Inputs)
    ensures Scheduled(k, Derived(k, p), p)
  {
    var s, us := Derived(k, p), Uses(k, p);
    assert Derive(k, us[0]) == s.clientHs && Derive(k, us[1]) == s.serverHs && Derive(k, us[2]) == s.clientApp;
    assert Derive(k, us[3]) == s.serverApp && Derive(k, us[4]) == s.exporter && Derive(k, us[5]) == s.resumption;
  }

  /** The same, for a party that derives its secrets one step after the other. */
  lemma DerivedInSteps(k: Schedule, p: Inputs)
    ensures var a := HandshakeSecrets(k, p.psk, p.shared, p.hello);
            Scheduled(k, ResumptionSecret(k, ApplicationSecrets(k, a, p.server), p.whole), p)
  {
    hide Scheduled;
    DerivedAsScheduled(k, p);
  }

  /** The functions of the schedule have no collision among the values that two runs feed them with. */
  predicate NoClash(k: Schedule, p: Inputs, q: Inputs)
  {
    var a, b := HandshakeKey(k, p), HandshakeKey(k, q);
    && (a == b ==> p.shared == q.shared) && (k.master(a) == k.master(b) ==> a == b)
    && forall i, j :: 0 <= i < 6 && 0 <= j < 6 && Derive(k, Uses(k, p)[i]) == Derive(k, Uses(k, q)[j]) ==>
         Uses(k, p)[i] == Uses(k, q)[j]
  }

  /**
   Keys are separate: no secret of one purpose equals one of another purpose, in one run or in two, and two runs
   with an equal secret of the same purpose have the same shared key and have hashed the same messages for it.
   */
  lemma KeysSeparate(k: Schedule, p: Inputs, q: Inputs, i: nat, j: nat)
    requires NoClash(k, p, q) && i < 6 && j < 6
    requires InOrder(Derived(k, p))[i] == InOrder(Derived(k, q))[j]
    ensures i == j && p.shared == q.shared
    ensures if i < 2 then p.hello == q.hello else if i < 5 then p.server == q.server else p.whole == q.whole
  {
    hide HandshakeKey, Derived;
    DerivedAsScheduled(k, p);
    DerivedAsScheduled(k, q);
    assert Derive(k, Uses(k, p)[i]) == Derive(k, Uses(k, q)[j]);
    assert Uses(k, p)[i].purpose == Uses(k, q)[j].purpose;
    LabelsDiffer(k, p, q, i, j);
  }

  lemma LabelsDiffer(k: Schedule, p: Inputs, q: Inputs, i: nat, j: nat)
    requires i < 6 && j < 6 && Uses(k, p)[i].purpose == Uses(k, q)[j].purpose
    ensures i == j
  {
    assert "c hs traffic"[0] == 'c' && "s hs traffic"[0] == 's' && "c ap traffic"[0] == 'c' && "s ap traffic"[0] == 's';
    assert "c hs traffic"[2] == 'h' && "s hs traffic"[2] == 'h' && "c ap traffic"[2] == 'a' && "s ap traffic"[2] == 'a';
    assert "exp master"[0] == 'e' && "res master"[0] == 'r';
  }
}
