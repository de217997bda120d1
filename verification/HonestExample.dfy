/**
 Parties that meet every condition of an honest run: with a certificate, client
 authentication and a HelloRetryRequest, and with a session to resume.
 */
module HonestExample {
  import opened Bytes
  import opened ClientHello
  import opened ServerHello
  import opened Certificate
  import opened Binder
  import opened Ech
  import opened Choice
  import opened Handshake
  import opened HandshakeRun
  import opened Samples

  /** Stand-ins for the cryptography that satisfy what is assumed of it. */
  const SCHEDULE: Schedule :=
    Schedule((t: bytes) => [7], (p: bytes) => [], (e: bytes) => [], (e: bytes, s: bytes) => [], (h: bytes) => [],
             (l: string, s: bytes, t: bytes) => [], (s: bytes, t: bytes) => [5], (r: string, t: bytes) => t)

  const CRYPTO: Crypto :=
    Crypto((u: u16) => SCHEDULE, (g: u16, p: bytes) => [1], (g: u16, p: bytes, q: bytes) => [],
           (leaf: bytes, a: u16, t: bytes, s: bytes) => true)

  const SECRET: bytes := [4, 4]

  /** A client that may hold a session. */
  function ClientWith(session: Option<Resumable>): ClientConfig
  {
    ClientConfig(session, (g: u16) => [], (s: u16) => true, (g: u16) => true, (m: bytes) => true,
                 (c: seq<bytes>) => true, (a: u16) => true, (m: bytes) => Some((true, true)),
                 Cert([[9]], None, None), 0, (t: bytes) => [3])
  }

  /** A server that wants shares of group `g` and may know every ticket. */
  function ServerWith(g: u16, secret: Option<bytes>): ServerConfig
  {
    ServerConfig(Zeros(32), (g: u16) => [], false, (offered: seq<u16>) => [SUITE], (s: u16) => true, [g],
                 (ps: seq<bytes>) => true, false, (u: u16, l: bytes) => secret, [TYPE_ENCRYPTED_EXTENSIONS], true,
                 [TYPE_CERTIFICATE_REQUEST], Cert([[8]], None, None), 0, (t: bytes) => [3], (c: Cert) => true,
                 (a: u16) => true)
  }

  const NEWCOMER := ClientWith(None)
  const RETURNING := ClientWith(Some(Resumable(SECRET, (u: u16) => true, (t: bytes) => [5], 9)))

  // ----- The server's hellos can be written -----

  lemma ServerHelloWrites(sh: ServerHello)
    requires Modern(sh) && |sh.random| == 32 && sh.sessionId == []
    requires sh.share.Some? ==> |sh.share.value.data| == 1
    ensures MarshalServerHello(sh).Some?
  {
    hide ExtBytes, U16;
    assert LegacyExts(sh) + ModernExts(sh) + TailExts(sh) == ModernList(sh);
    ModernSmall(sh);
    var x, f := ExtBytes(ModernList(sh)), ShFront(sh);
    assert f.ok && |f.buf| < 50;
    assert |f.AddLP16(x).buf| < 200;
  }

  lemma ModernSmall(sh: ServerHello)
    requires Modern(sh) && (sh.share.Some? ==> |sh.share.value.data| == 1)
    ensures ExtBytes(ModernList(sh)).ok && |ExtBytes(ModernList(sh)).buf| < 60 && ExtBytes(ModernList(sh)).buf != []
  {
    hide U16;
    assert ExtBytes(ModernList(sh)).buf != [];
    assert ExtBytes(ModernList(sh)).ok && sh.share.Some? ==> ShareBody(sh.share).ok;
    SmallList(ModernList(sh));
  }

  lemma {:induction false} SmallList(es: seq<Ext>)
    requires forall i :: 0 <= i < |es| ==> es[i].body.ok && |es[i].body.buf| < 10
    ensures ExtBytes(es).ok && |ExtBytes(es).buf| <= 14 * |es|
  {
    hide U16, LP16;
    if es != [] {
      SmallList(es[1..]);
    }
  }

  // ----- The certificates can be written and read -----

  lemma CertificateWrites(b: byte, x: bool, y: bool)
    ensures var m := Answer(Cert([[b]], None, None), x, y);
            MarshalCertificate(m).Some? && ReadBack(Sent(m)) == Some(Cert([[b]], None, None))
  {
    var c := Cert([[b]], None, None);
    assert Sent(Answer(c, x, y)) == c;
    assert c.chain[1..] == [];
    assert Entries(c) == Entry([b], EMPTY.Append(EMPTY)).Append(EMPTY);
    assert |Entries(c).buf| < 100;
  }

  lemma PartiesHonest(session: Option<Resumable>, g: u16, secret: Option<bytes>)
    ensures Honest(CRYPTO, ClientWith(session), ServerWith(g, secret))
  {
    hide MarshalCertificate, ReadBack, Sent, Answer;
    var c, s := ClientWith(session), ServerWith(g, secret);
    assert MarshalVerify(VerifyMsg(0, [3])).Some? && MarshalFinished([5]).Some?;
    assert RETRY_RANDOM[0] != s.random[0];
    forall x, y ensures MarshalCertificate(Answer(s.cert, x, y)).Some? && ReadBack(Sent(Answer(s.cert, x, y))).Some? {
      CertificateWrites(8, x, y);
    }
    forall x, y ensures MarshalCertificate(Answer(c.cert, x, y)).Some? && ReadBack(Sent(Answer(c.cert, x, y))).Some? {
      CertificateWrites(9, x, y);
    }
  }

  /** The server takes any hello of this kind and can answer it. */
  lemma Answerable(g: u16, secret: Option<bytes>, h: Hello)
    requires Marshal(h).Some? && h.sessionId == [] && h.cipherSuites == [SUITE] && g in h.supportedCurves && g != 0
    requires h.supportedVersions != [] && h.compressionMethods == [0] && h.secureRenegotiation == [] && !h.earlyData
    requires h.quicTransportParameters.None?
    ensures var s, r := ServerWith(g, secret), Received(h);
            && ClientHelloOk(s, r) && NegotiatesOk(s, r) && SuiteFor(s, r) == Some(SUITE) && GroupFor(s, r) == Some(g)
            && Writable(CRYPTO, s, r)
  {
    hide MarshalServerHello, Marshal, Received, Rank;
    ReceivedFields(h);
    var s, r := ServerWith(g, secret), Received(h);
    assert Kept(r, Supported, [g]) == [g] by { assert [g][1..] == []; }
    var base := BaseHello(s, r, SUITE);
    ServerHelloWrites(RetryRequest(base, g));
    forall d: Resumption ensures MarshalServerHello(FinalHello(CRYPTO, s, base, g, d)).Some? {
      ServerHelloWrites(FinalHello(CRYPTO, s, base, g, d));
    }
  }

  // ----- A first visit -----

  lemma SampleGood(g: u16)
    ensures GoodHello(CRYPTO, NEWCOMER, Sample(g)) && Marshal(Sample(g)).Some?
  {
    hide Marshal;
    TinyWrites(Sample(g));
  }

  /** All conditions hold, and the first hello has no share for the server's group. */
  lemma ExampleIsHonest()
    ensures var s := ServerWith(OTHER_GROUP, None);
            && Honest(CRYPTO, NEWCOMER, s) && Offered(NEWCOMER, Sample(GROUP)) == Some(Sample(GROUP))
            && FirstHelloGood(CRYPTO, NEWCOMER, s, Sample(GROUP)) && SecondWritable(CRYPTO, NEWCOMER, s, Sample(GROUP))
            && !HasShare(Sample(GROUP), OTHER_GROUP)
  {
    hide Marshal, Honest, GoodHello, RetryRaw, Received, Zeros, Writable, ClientHelloOk, SuiteFor, GroupFor;
    var h, s := Sample(GROUP), ServerWith(OTHER_GROUP, None);
    PartiesHonest(None, OTHER_GROUP, None);
    SampleGood(GROUP);
    SampleGood(OTHER_GROUP);
    Answerable(OTHER_GROUP, None, h);
    assert Reshared(CRYPTO, NEWCOMER, h, RetryRead(s, Received(h))) == Sample(OTHER_GROUP);
  }

  // ----- A return with a session -----

  /** A hello that offers one ticket, under the binder `b`. */
  function Resuming(g: u16, age: u32, b: byte): Hello
  {
    Sample(g).(pskModes := [PSK_MODE_DHE], pskIdentities := [PskIdentity([6], age)], pskBinders := [[b]])
  }

  lemma ResumingGood(g: u16, age: u32, b: byte)
    ensures GoodHello(CRYPTO, RETURNING, Resuming(g, age, b)) && Marshal(Resuming(g, age, b)).Some?
  {
    hide Marshal;
    var h := Resuming(g, age, b);
    assert Tiny(h);
    TinyWrites(h);
  }

  /** Filling in the binder of the hello with another one gives the hello as sent. */
  lemma ResumingBound(t: bytes)
    ensures ComputePsk(Resuming(GROUP, 0, 0), t, RETURNING.session.value.finished) == Some(Resuming(GROUP, 0, 5))
  {
    hide Marshal, WithoutBinders, Front;
    ResumingGood(GROUP, 0, 0);
    WithoutBindersIsFront(Resuming(GROUP, 0, 0));
    assert [[5]] == [RETURNING.session.value.finished(t + WithoutBinders(Resuming(GROUP, 0, 0)).value)];
  }

  /** The server finds the session behind the hello. */
  lemma ResumingIsFound(wanted: u16, t: bytes)
    ensures Marshal(Resuming(GROUP, 0, 5)).Some?
    ensures Decide(SCHEDULE, ServerWith(wanted, Some(SECRET)), SUITE, Received(Resuming(GROUP, 0, 5)), t) ==
            Resumed(0, SECRET)
  {
    hide Marshal, Unmarshal, WithoutBinders, ComputePsk, GoodHello, Exts;
    var m, h := Resuming(GROUP, 0, 0), Resuming(GROUP, 0, 5);
    ResumingGood(GROUP, 0, 0);
    ResumingGood(GROUP, 0, 5);
    ResumingBound(t);
    HelloCrosses(CRYPTO, RETURNING, h);
    BinderVerifies(m, t, RETURNING.session.value.finished, h, Received(h));
    assert Received(h).pskIdentities == h.pskIdentities && Received(h).pskBinders == h.pskBinders by { ReportedPsk(h); }
  }

  /**
   All conditions hold with a session too, whether the server asks for another
   share or not, and the session is resumed.
   */
  lemma ResumptionIsHonest(wanted: u16)
    requires wanted in {GROUP, OTHER_GROUP}
    ensures var s, h := ServerWith(wanted, Some(SECRET)), Resuming(GROUP, 0, 5);
            && Honest(CRYPTO, RETURNING, s) && Offered(RETURNING, Resuming(GROUP, 0, 0)) == Some(h)
            && FirstHelloGood(CRYPTO, RETURNING, s, h) && SecondWritable(CRYPTO, RETURNING, s, h)
            && HasShare(h, wanted) == (wanted == GROUP)
            && Decide(SCHEDULE, s, SUITE, Received(h), []) == Resumed(0, SECRET)
  {
    hide Marshal, Honest, GoodHello, RetryRaw, Received, Zeros, Writable, ComputePsk, Decide, ClientHelloOk, SuiteFor,
         GroupFor;
    var s, h := ServerWith(wanted, Some(SECRET)), Resuming(GROUP, 0, 5);
    PartiesHonest(RETURNING.session, wanted, Some(SECRET));
    ResumingGood(GROUP, 0, 5);
    ResumingGood(OTHER_GROUP, 9, 5);
    Answerable(wanted, Some(SECRET), h);
    ResumingBound([]);
    ResumingIsFound(wanted, []);
    assert h.keyShares[0].group == GROUP;
    if wanted == OTHER_GROUP {
      assert h.pskIdentities[0 := h.pskIdentities[0].(age := 9)] == [PskIdentity([6], 9)];
      assert Reshared(CRYPTO, RETURNING, h, RetryRead(s, Received(h))) == Resuming(OTHER_GROUP, 9, 5);
    }
  }
}
