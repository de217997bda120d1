/**
 Honest runs of the TLS 1.3 handshake: whatever path is taken (retry or not,
 resumption or certificate, client authentication or not), both sides hash the
 same bytes, so they derive the same secrets and accept each other's Finished.
 */
module HandshakeRun {
  import opened Bytes
  import opened ClientHello
  import opened HelloRoundTrip
  import opened ServerHello
  import opened Certificate
  import opened Binder
  import opened Choice
  import opened Handshake
  import opened KeySchedule

  // ----- What makes a pair of parties honest and compatible -----

  /** A hello that can be sent and read, offers at most one session and holds the client's own shares. */
  ghost predicate GoodHello(k: Crypto, c: ClientConfig, h: Hello)
  {
    && h.original.None? && Marshal(h).Some? && Acceptable(h) && !h.earlyData
    && |h.pskIdentities| <= 1 && |h.pskIdentities| == |h.pskBinders| && OwnShares(k, c, h)
  }

  ghost predicate OwnShares(k: Crypto, c: ClientConfig, h: Hello)
  {
    forall i :: 0 <= i < |h.keyShares| ==>
      h.keyShares[i].data == k.pub(h.keyShares[i].group, c.key(h.keyShares[i].group))
  }

  /** The server accepts the received hello, and the client knows what it picks. */
  ghost predicate Compatible(c: ClientConfig, s: ServerConfig, h: Hello)
  {
    && ClientHelloOk(s, h) && NegotiatesOk(s, h)
    && SuiteFor(s, h).value != 0 && c.knowsSuite(SuiteFor(s, h).value)
    && GroupFor(s, h).value != 0 && c.knowsGroup(GroupFor(s, h).value)
  }

  /** A ticket that the server accepts stands for the session the client offers it for. */
  ghost predicate SameSession(k: Schedule, c: ClientConfig, s: ServerConfig, suite: u16, h: Hello)
  {
    h.pskIdentities != [] ==>
      && c.session.Some? && (forall t, u :: |c.session.value.finished(t)| == |c.session.value.finished(u)|)
      && (s.lookup(suite, h.pskIdentities[0].name).Some? ==>
            && c.session.value.sameHash(suite)
            && s.lookup(suite, h.pskIdentities[0].name).value == c.session.value.secret
            && forall t :: c.session.value.finished(t) == k.finished(k.binderKey(k.early(c.session.value.secret)), t))
  }

  /** The binder was made for this hello behind the transcript `t`. */
  ghost predicate Bound(c: ClientConfig, h: Hello, t: bytes)
  {
    h.pskIdentities != [] && c.session.Some? ==>
      exists m: Hello :: m.original.None? && m.pskIdentities != [] && Marshal(m).Some?
                         && ComputePsk(m, t, c.session.value.finished) == Some(h)
  }

  ghost predicate Honest(k: Crypto, c: ClientConfig, s: ServerConfig)
  {
    && Agreeing(k) && |s.random| == 32 && s.random != RETRY_RANDOM && (forall g, x :: k.pub(g, x) != [])
    && (forall u, x, t :: MarshalFinished(k.suite(u).finished(x, t)).Some?)
    && s.parameters != [] && s.parameters[0] == TYPE_ENCRYPTED_EXTENSIONS && c.acceptsParameters(s.parameters)
    && s.request != [] && s.request[0] == TYPE_CERTIFICATE_REQUEST && c.readRequest(s.request).Some?
    && ServerCertGood(k, c, s) && ClientCertGood(k, c, s)
  }

  /** Any form of the certificate can be sent, is read and trusted, and its key signs for it. */
  ghost predicate ServerCertGood(k: Crypto, c: ClientConfig, s: ServerConfig)
  {
    && s.cert.chain != [] && c.trusts(s.cert.chain) && c.accepts(s.algorithm)
    && (forall a, b :: MarshalCertificate(Answer(s.cert, a, b)).Some? && ReadBack(Sent(Answer(s.cert, a, b))).Some?)
    && (forall t :: MarshalVerify(VerifyMsg(s.algorithm, s.sign(t))).Some?
                    && k.verify(s.cert.chain[0], s.algorithm, t, s.sign(t)))
  }

  ghost predicate ClientCertGood(k: Crypto, c: ClientConfig, s: ServerConfig)
  {
    && s.accepts(c.algorithm)
    && (forall a, b :: MarshalCertificate(Answer(c.cert, a, b)).Some? && ReadBack(Sent(Answer(c.cert, a, b))).Some?
                       && s.trusts(ReadBack(Sent(Answer(c.cert, a, b))).value))
    && (forall t :: MarshalVerify(VerifyMsg(c.algorithm, c.sign(t))).Some?
                    && (c.cert.chain != [] ==> k.verify(c.cert.chain[0], c.algorithm, t, c.sign(t))))
  }

  // ----- Messages between the two -----

  lemma CertificateCrosses(cert: Cert, a: bool, b: bool)
    requires MarshalCertificate(Answer(cert, a, b)).Some? && ReadBack(Sent(Answer(cert, a, b))).Some?
    ensures var raw := MarshalCertificate(Answer(cert, a, b)).value;
            && raw != [] && raw[0] == TYPE_CERTIFICATE && UnmarshalCertificate(raw).Some?
            && UnmarshalCertificate(raw).value.cert == ReadBack(Sent(Answer(cert, a, b))).value
            && UnmarshalCertificate(raw).value.cert.chain == cert.chain
            && MarshalCertificate(UnmarshalCertificate(raw).value) == Some(raw)
  {
    hide MarshalCertificate, UnmarshalCertificate, Canonical;
    var m := Answer(cert, a, b);
    CertificateRoundTrip(m);
    SentIsRewritten(m);
    MarshalledShape(m);
  }

  lemma VerifyCrosses(m: VerifyMsg)
    requires MarshalVerify(m).Some?
    ensures var raw := MarshalVerify(m).value;
            raw != [] && raw[0] == TYPE_CERTIFICATE_VERIFY && UnmarshalVerify(raw) == Some(m)
  {
    hide UnmarshalVerify, U16, LP24;
    VerifyRoundTrip(m);
  }

  lemma FinishedCrosses(v: bytes)
    requires MarshalFinished(v).Some?
    ensures var raw := MarshalFinished(v).value;
            raw != [] && raw[0] == TYPE_FINISHED && UnmarshalFinished(raw) == Some(v)
  {
    hide UnmarshalFinished, LP24;
    FinishedRoundTrip(v);
  }

  // ----- The hellos -----

  function Received(h: Hello): Hello
    requires Marshal(h).Some?
  {
    Reported(h, Marshal(h).value)
  }

  lemma HelloCrosses(k: Crypto, c: ClientConfig, h: Hello)
    requires GoodHello(k, c, h)
    ensures ReadHello(Marshal(h).value) == Some(Received(h)) && Unmarshal(Marshal(h).value) == Some(Received(h))
  {
    hide Unmarshal, Exts, Acceptable;
    MarshalUnmarshal(h);
    assert Marshal(h).value != [] && Marshal(h).value[0] == TYPE_CLIENT_HELLO;
  }

  lemma {:induction false} ShareFound(k: Crypto, c: ClientConfig, ks: seq<KeyShare>, g: u16)
    requires forall i :: 0 <= i < |ks| ==> ks[i].data == k.pub(ks[i].group, c.key(ks[i].group))
    ensures ShareFor(ks, g).Some? <==> exists i :: 0 <= i < |ks| && ks[i].group == g
    ensures ShareFor(ks, g).Some? ==> ShareFor(ks, g).value == k.pub(g, c.key(g))
  {
    if ks != [] {
      ShareFound(k, c, ks[1..], g);
      if ShareFor(ks[1..], g).Some? {
        var i :| 0 <= i < |ks[1..]| && ks[1..][i].group == g;
        assert ks[i + 1].group == g;
      }
      if exists i :: 0 <= i < |ks| && ks[i].group == g {
        var i :| 0 <= i < |ks| && ks[i].group == g;
        assert i > 0 ==> ks[1..][i - 1].group == g;
      }
    }
  }

  /** The server's decision on resumption, for the hello of an honest client. */
  lemma ResumptionAgrees(k: Crypto, c: ClientConfig, s: ServerConfig, suite: u16, h: Hello, t: bytes)
    requires GoodHello(k, c, h) && SameSession(k.suite(suite), c, s, suite, h) && Bound(c, h, t)
    ensures var d := Decide(k.suite(suite), s, suite, Received(h), t);
            && !d.BadBinder?
            && (d.Resumed? ==>
                  && d.index == 0 && |h.pskIdentities| == 1 && c.session.Some?
                  && c.session.value.sameHash(suite) && d.secret == c.session.value.secret)
  {
    hide Marshal, Unmarshal, WithoutBinders, Acceptable, ComputePsk, Exts, Reported;
    var r := Received(h);
    assert r.pskIdentities == h.pskIdentities && |r.pskBinders| == |h.pskBinders| by { ReportedPsk(h); }
    HelloCrosses(k, c, h);
    if h.pskIdentities != [] && s.lookup(suite, h.pskIdentities[0].name).Some? {
      var fin := c.session.value.finished;
      var m: Hello :| m.original.None? && m.pskIdentities != [] && Marshal(m).Some? && ComputePsk(m, t, fin) == Some(h);
      BinderVerifies(m, t, fin, h, r);
    }
    assert Resume(k.suite(suite), s, suite, r, t, 1).NoPsk?;
  }

  lemma ReportedPsk(h: Hello)
    requires Marshal(h).Some? && |h.pskIdentities| == |h.pskBinders|
    ensures Received(h).pskIdentities == h.pskIdentities && Received(h).pskBinders == h.pskBinders
  {
    hide Marshal, Exts;
  }

  /** The server's final hello for a received one. */
  function FinalHello(k: Crypto, s: ServerConfig, base: ServerHello, g: u16, d: Resumption): ServerHello
  {
    var a := base.(share := Some(KeyShare(g, k.pub(g, s.key(g)))));
    if d.Resumed? then a.(identity := Some(d.index)) else a
  }

  /** Every ServerHello that may be needed for this hello can be written. */
  ghost predicate Writable(k: Crypto, s: ServerConfig, r: Hello)
    requires ClientHelloOk(s, r)
  {
    var base, g := BaseHello(s, r, SuiteFor(s, r).value), GroupFor(s, r).value;
    && MarshalServerHello(RetryRequest(base, g)).Some?
    && forall d: Resumption :: MarshalServerHello(FinalHello(k, s, base, g, d)).Some?
  }

  /** The first hello, as sent and received. */
  ghost predicate FirstHelloGood(k: Crypto, c: ClientConfig, s: ServerConfig, h: Hello)
  {
    && GoodHello(k, c, h) && Compatible(c, s, Received(h)) && Writable(k, s, Received(h))
    && var suite := SuiteFor(s, Received(h)).value; SameSession(k.suite(suite), c, s, suite, h)
  }

  function RetryRaw(s: ServerConfig, r: Hello): bytes
    requires ClientHelloOk(s, r)
  {
    var m := MarshalServerHello(RetryRequest(BaseHello(s, r, SuiteFor(s, r).value), GroupFor(s, r).value));
    if m.Some? then m.value else []
  }

  function RetryRead(s: ServerConfig, r: Hello): ServerHello
    requires ClientHelloOk(s, r)
  {
    RetryRequest(BaseHello(s, r, SuiteFor(s, r).value), GroupFor(s, r).value).(original := Some(RetryRaw(s, r)))
  }

  /** When the first hello has no share for the server's group, one with such a share can be written. */
  ghost predicate SecondWritable(k: Crypto, c: ClientConfig, s: ServerConfig, h: Hello)
    requires FirstHelloGood(k, c, s, h)
  {
    var r := Received(h);
    !HasShare(h, GroupFor(s, r).value) ==> Marshal(Reshared(k, c, h, RetryRead(s, r))).Some?
  }

  lemma ComputedKeeps(m: Hello, t: bytes, fin: bytes -> bytes)
    requires ComputePsk(m, t, fin).Some?
    ensures ComputePsk(m, t, fin).value == m.(pskBinders := ComputePsk(m, t, fin).value.pskBinders)
    ensures m.original.None? ==> Marshal(m).Some?
  {
    hide Marshal;
  }

  /** An offer carries the binder for an empty transcript. */
  lemma OfferedBound(c: ClientConfig, hello: Hello)
    requires hello.original.None? && Offered(c, hello).Some?
    ensures Bound(c, Offered(c, hello).value, [])
  {
    hide Marshal, ComputePsk;
    if hello.pskIdentities != [] && c.session.Some? {
      ComputedKeeps(hello, [], c.session.value.finished);
    }
  }

  /** Binding anew succeeds, since the function has one length of results. */
  lemma Rebinds(c: ClientConfig, h: Hello, b: Hello, t: bytes)
    requires h.pskIdentities != [] && c.session.Some? && Bound(c, h, [])
    requires forall x, y :: |c.session.value.finished(x)| == |c.session.value.finished(y)|
    requires b.original.None? && b.pskIdentities != [] && b.pskBinders == h.pskBinders && Marshal(b).Some?
    ensures var r := ComputePsk(b, t, c.session.value.finished);
            && r.Some? && r.value == b.(pskBinders := r.value.pskBinders)
            && SameLengths(r.value.pskBinders, h.pskBinders) && Marshal(r.value).Some? && Bound(c, r.value, t)
  {
    hide Marshal, WithoutBinders, Front;
    var fin := c.session.value.finished;
    var m: Hello :| m.original.None? && m.pskIdentities != [] && Marshal(m).Some? && ComputePsk(m, [], fin) == Some(h);
    WithoutBindersIsFront(b);
    var r := ComputePsk(b, t, fin);
    assert |h.pskBinders| == 1 && |h.pskBinders[0]| == |fin(t + WithoutBinders(b).value)|;
    NewBindersWrite(b, r.value.pskBinders);
  }

  /** What the second hello has in common with the first. */
  ghost predicate RetryOf(k: Crypto, c: ClientConfig, h: Hello, g: u16, h2: Hello)
  {
    && h2 == h.(keyShares := [KeyShare(g, k.pub(g, c.key(g)))], pskIdentities := h2.pskIdentities,
                pskBinders := h2.pskBinders)
    && (h2.pskIdentities != [] ==>
          && h.pskIdentities != [] && SameLengths(h2.pskBinders, h.pskBinders)
          && h2.pskIdentities == h.pskIdentities[0 := h.pskIdentities[0].(age := h2.pskIdentities[0].age)])
    && (h2.pskIdentities == [] ==> h2.pskBinders == [])
  }

  lemma RetryOfGood(k: Crypto, c: ClientConfig, h: Hello, g: u16, h2: Hello)
    requires GoodHello(k, c, h) && RetryOf(k, c, h, g, h2) && Marshal(h2).Some? && k.pub(g, c.key(g)) != []
    ensures GoodHello(k, c, h2) && h2.keyShares == [KeyShare(g, k.pub(g, c.key(g)))]
    ensures h2.sessionId == h.sessionId && h2.cipherSuites == h.cipherSuites && h2.supportedCurves == h.supportedCurves
    ensures h2.pskIdentities != [] ==> h.pskIdentities != [] && h2.pskIdentities[0].name == h.pskIdentities[0].name
  {
    hide Marshal;
    if h2.pskIdentities != [] {
      assert h.pskBinders[0] in h.pskBinders;
    }
  }

  /** Before it is bound, the second hello has the binders of the first, or drops the session. */
  lemma ResharedShape(k: Crypto, c: ClientConfig, h: Hello, base: ServerHello)
    requires base.cookie == [] && base.group != 0 && (h.pskIdentities != [] ==> c.session.Some?)
    requires |h.pskIdentities| == |h.pskBinders|
    ensures var b := Reshared(k, c, h, base);
            && RetryOf(k, c, h, base.group, b) && b.original == h.original
            && (b.pskIdentities != [] ==> h.pskIdentities != [] && b.pskBinders == h.pskBinders)
  {
    var a := h.(keyShares := [KeyShare(base.group, k.pub(base.group, c.key(base.group)))]);
    assert Answered(k, c, h, base) == a;
    hide Answered;
    if h.pskIdentities != [] && c.session.value.sameHash(base.cipherSuite) {
      var ids := h.pskIdentities[0 := h.pskIdentities[0].(age := c.session.value.newAge)];
      assert Reshared(k, c, h, base) == a.(pskIdentities := ids);
    } else if h.pskIdentities != [] {
      assert Reshared(k, c, h, base) == a.(pskIdentities := [], pskBinders := []);
    } else {
      assert Reshared(k, c, h, base) == a;
    }
  }

  /**
   An honest client answers a retry request whenever the new hello can be
   written, and the answer is as good as the first hello.
   */
  lemma RetrySucceeds(k: Crypto, c: ClientConfig, h: Hello, base: ServerHello, t: bytes)
    requires GoodHello(k, c, h) && Bound(c, h, []) && base.cookie == [] && base.group != 0
    requires h.pskIdentities != [] ==>
               c.session.Some? && forall x, y :: |c.session.value.finished(x)| == |c.session.value.finished(y)|
    requires Marshal(Reshared(k, c, h, base)).Some?
    ensures RetryHello(k, c, h, base, t).Some?
    ensures var h2 := RetryHello(k, c, h, base, t).value;
            RetryOf(k, c, h, base.group, h2) && Marshal(h2).Some? && Bound(c, h2, t)
  {
    hide Marshal, ComputePsk, Acceptable, OwnShares, Reshared;
    var b := Reshared(k, c, h, base);
    ResharedShape(k, c, h, base);
    if b.pskIdentities == [] {
      assert Bound(c, b, t);
    } else {
      Rebinds(c, h, b, t);
    }
  }

  /** The server finds nothing changed that must not change. */
  lemma SameReport(k: Crypto, c: ClientConfig, h: Hello, g: u16, h2: Hello)
    requires Marshal(h).Some? && Marshal(h2).Some? && !h.earlyData && RetryOf(k, c, h, g, h2)
    ensures SecondHelloOk(Received(h2), Received(h), g)
    ensures Received(h2).quicTransportParameters == Received(h).quicTransportParameters
  {
    hide Marshal, Exts;
  }

  // ----- The server's hello -----

  lemma ServerHelloCrosses(k: Crypto, s: ServerConfig, r: Hello, suite: u16, g: u16, d: Resumption)
    requires g != 0
    ensures var base := BaseHello(s, r, suite);
            && (MarshalServerHello(RetryRequest(base, g)).Some? ==>
                  var raw := MarshalServerHello(RetryRequest(base, g)).value;
                  UnmarshalServerHello(raw) == Some(RetryRequest(base, g).(original := Some(raw))))
            && (MarshalServerHello(FinalHello(k, s, base, g, d)).Some? ==>
                  var raw := MarshalServerHello(FinalHello(k, s, base, g, d)).value;
                  UnmarshalServerHello(raw) == Some(FinalHello(k, s, base, g, d).(original := Some(raw))))
  {
    hide MarshalServerHello, UnmarshalServerHello;
    var base := BaseHello(s, r, suite);
    if MarshalServerHello(RetryRequest(base, g)).Some? {
      ServerHelloRoundTrip(RetryRequest(base, g));
    }
    if MarshalServerHello(FinalHello(k, s, base, g, d)).Some? {
      ServerHelloRoundTrip(FinalHello(k, s, base, g, d));
    }
  }

  // ----- Exchanging hellos -----

  /** The server's hello so far fits the client's. */
  ghost predicate BaseFits(c: ClientConfig, s: ServerConfig, h: Hello, sh: ServerHello, known: u16)
  {
    && sh == BaseHello(s, h, sh.cipherSuite) && sh.cipherSuite != 0 && sh.cipherSuite in h.cipherSuites
    && c.knowsSuite(sh.cipherSuite) && known in {0, sh.cipherSuite}
  }

  ghost predicate HelloFits(k: Crypto, c: ClientConfig, s: ServerConfig, suite: u16, h: Hello, t: bytes, g: u16)
  {
    && GoodHello(k, c, h) && SameSession(k.suite(suite), c, s, suite, h) && Bound(c, h, t) && g != 0
    && NegotiatesOk(s, Received(h)) && HasShare(h, g)
  }

  ghost predicate AnswersFit(k: Crypto, s: ServerConfig, sh: ServerHello, g: u16)
  {
    forall d: Resumption :: MarshalServerHello(FinalHello(k, s, sh, g, d)).Some?
  }

  /** Every message that one side has sent has been accepted by the other, in order, and no other message has. */
  ghost predicate AllHeard(client: Client, server: Server)
    reads client, server
  {
    client.accepted == server.sent && server.accepted == client.sent
  }

  /** The server holds the client's hello, and the transcripts before it agree. */
  ghost predicate Met(client: Client, server: Server, retried: bool)
    reads client, server
  {
    && client.k == server.k && AllHeard(client, server)
    && HelloFits(client.k, client.cfg, server.cfg, server.sh.cipherSuite, client.hello, server.transcript, server.group)
    && server.clientHello == Received(client.hello) && server.psk.None?
    && BaseFits(client.cfg, server.cfg, client.hello, server.sh, client.suite)
    && AnswersFit(client.k, server.cfg, server.sh, server.group)
    && (if retried then client.transcript == server.transcript + Marshal(client.hello).value && client.suite != 0
        else server.transcript == [])
  }

  ghost predicate Fresh(client: Client, server: Server)
    reads client, server
  {
    && client.k == server.k && client.suite == 0 && client.request.None? && client.transcript == []
    && server.psk.None? && server.transcript == [] && server.peer == [] && AllHeard(client, server)
  }

  lemma SharesFilledIn(k: Crypto, c: ClientConfig, s: ServerConfig)
    requires Honest(k, c, s)
    ensures forall g, x :: k.pub(g, x) != []
  {
  }

  lemma FreshParts(client: Client, server: Server)
    requires Fresh(client, server)
    ensures client.k == server.k && client.request.None?
  {
  }

  /** What the server has after the first hello. */
  ghost predicate Asked(client: Client, server: Server)
    reads client, server
  {
    && Fresh(client, server) && FirstHelloGood(client.k, client.cfg, server.cfg, client.hello)
    && Bound(client.cfg, client.hello, []) && server.clientHello == Received(client.hello)
    && server.group == GroupFor(server.cfg, server.clientHello).value
    && server.sh == BaseHello(server.cfg, server.clientHello, SuiteFor(server.cfg, server.clientHello).value)
  }

  /** The first hello goes out and is accepted. */
  method FirstHello(client: Client, server: Server) returns (ok: bool)
    requires Fresh(client, server) && client.hello.original.None? && Offered(client.cfg, client.hello).Some?
    requires FirstHelloGood(client.k, client.cfg, server.cfg, Offered(client.cfg, client.hello).value)
    modifies client`hello, client`sent, server`clientHello, server`sh, server`group, server`accepted
    ensures ok && Asked(client, server) && client.hello == Offered(client.cfg, old(client.hello)).value
  {
    hide Marshal, Unmarshal, ComputePsk, Acceptable, Received, Bound, SameSession, Writable, HelloAlert, PickSuite,
         PickGroup;
    OfferedBound(client.cfg, client.hello);
    var message := client.Start();
    HelloCrosses(client.k, client.cfg, client.hello);
    var alert := server.ReceiveHello(message.value);
    ok := alert.None?;
  }

  lemma FirstIsWritten(k: Crypto, c: ClientConfig, s: ServerConfig, h: Hello)
    requires FirstHelloGood(k, c, s, h)
    ensures Marshal(h).Some? && GoodHello(k, c, h)
  {
  }

  /** A share for the server's group is there at once. */
  lemma MeetAtOnce(client: Client, server: Server)
    requires Asked(client, server) && HasShare(client.hello, server.group)
    ensures Met(client, server, false)
  {
    hide Marshal, Received, GoodHello, SameSession, Bound, MarshalServerHello, HasShare, PickSuite, PickGroup;
    FirstIsWritten(client.k, client.cfg, server.cfg, client.hello);
    ReceivedFields(client.hello);
  }

  lemma ReceivedFields(h: Hello)
    requires Marshal(h).Some?
    ensures var r := Received(h);
            && r.original == Marshal(h) && r.supportedVersions == h.supportedVersions
            && r.compressionMethods == h.compressionMethods && r.earlyData == h.earlyData
            && r.quicTransportParameters == h.quicTransportParameters && r.keyShares == h.keyShares
            && (h.secureRenegotiation == [] ==> r.secureRenegotiation == []) && r.sessionId == h.sessionId
            && r.cipherSuites == h.cipherSuites && r.supportedCurves == h.supportedCurves
  {
    hide Marshal, Exts;
  }

  /**
   The server has no share for its group: it asks for one, the client accepts
   the request, and the server accepts the second hello.
   */
  method Retry(client: Client, server: Server) returns (ok: bool)
    requires Asked(client, server) && !HasShare(client.hello, server.group) && (forall g, x :: client.k.pub(g, x) != [])
    requires SecondWritable(client.k, client.cfg, server.cfg, client.hello)
    modifies client`hello, client`suite, client`transcript, client`sent, client`accepted
    modifies server`clientHello, server`transcript, server`sent, server`accepted
    ensures ok && Met(client, server, true) && client.suite == server.sh.cipherSuite
    ensures SecondHelloOk(server.clientHello, old(server.clientHello), server.group)
  {
    hide Marshal, Unmarshal, MarshalServerHello, UnmarshalServerHello, RetryHello, Reshared, Received, SameSession,
         Bound, MessageHash, HasShare, SecondHelloOk, PickSuite, PickGroup, GoodHello, RetryOf, RetryAlert,
         RefusalAlert;
    ghost var k, c, h, r := client.k, client.cfg, client.hello, server.clientHello;
    FirstIsWritten(k, c, server.cfg, h);
    ReceivedFields(h);
    PickedHere(server.cfg, r);
    var message := server.SendRetry();
    ServerHelloCrosses(k, server.cfg, r, SuiteFor(server.cfg, r).value, server.group, NoPsk);
    var m := UnmarshalServerHello(message.value);
    assert m.value == RetryRead(server.cfg, r);
    var alert := client.CheckServerHello(m.value);
    if alert.Some? {
      return false;
    }
    client.StartTranscript();
    SecondIsGood(k, c, server.cfg, h, m.value, MessageHash(client.Keys(), client.transcript) + message.value);
    var second;
    second, alert := client.ProcessRetry(m.value, message.value);
    if second.None? {
      return false;
    }
    HelloCrosses(k, c, client.hello);
    ReceivedFields(client.hello);
    alert := server.ReceiveSecondHello(second.value);
    ok := alert.None?;
  }

  lemma PickedHere(s: ServerConfig, r: Hello)
    requires ClientHelloOk(s, r)
    ensures SuiteFor(s, r).value in r.cipherSuites && GroupFor(s, r).value in r.supportedCurves
  {
    hide PickGroup;
    PickedGroup(s.groups, r);
  }

  /** All that the run needs of the second hello. */
  lemma SecondIsGood(k: Crypto, c: ClientConfig, s: ServerConfig, h: Hello, base: ServerHello, t: bytes)
    requires FirstHelloGood(k, c, s, h) && Bound(c, h, []) && base == RetryRead(s, Received(h))
    requires Marshal(Reshared(k, c, h, base)).Some? && (forall g, x :: k.pub(g, x) != [])
    ensures RetryHello(k, c, h, base, t).Some?
    ensures var h2, suite := RetryHello(k, c, h, base, t).value, base.cipherSuite;
            && h2 == h2.(earlyData := false) && Marshal(h2).Some? && GoodHello(k, c, h2) && Bound(c, h2, t)
            && SameSession(k.suite(suite), c, s, suite, h2) && NegotiatesOk(s, Received(h2)) && HasShare(h2, base.group)
            && SecondHelloOk(Received(h2), Received(h), base.group)
            && h2.sessionId == h.sessionId && h2.cipherSuites == h.cipherSuites
  {
    hide Marshal, RetryHello, Reshared, Received, RetryOf, PickSuite, PickGroup, Acceptable, RetryRaw, Bound;
    RetrySucceeds(k, c, h, base, t);
    var h2 := RetryHello(k, c, h, base, t).value;
    RetryOfGood(k, c, h, base.group, h2);
    SameReport(k, c, h, base.group, h2);
    assert h2.keyShares[0].group == base.group;
  }

  /** Both ends hash the same bytes, hold the same secrets and suite, agree on resumption, and nothing was refused. */
  ghost predicate Agreed(client: Client, server: Server)
    reads client, server
  {
    && client.transcript == server.transcript && client.shared == server.shared && client.secrets == server.secrets
    && client.usingPsk == server.psk.Some? && client.suite == server.sh.cipherSuite && AllHeard(client, server)
  }

  /** The secret of the resumed session, or nothing. */
  function SessionSecret(psk: Option<bytes>): bytes { if psk.Some? then psk.value else [] }

  /** The server takes the share, decides on resumption and answers. */
  method ServerAnswers(client: Client, server: Server) returns (raw: bytes, ghost d: Resumption)
    requires client.k == server.k
    requires HelloFits(client.k, client.cfg, server.cfg, server.sh.cipherSuite, client.hello, server.transcript,
                       server.group)
    requires server.clientHello == Received(client.hello) && server.psk.None?
    requires server.sh == BaseHello(server.cfg, client.hello, server.sh.cipherSuite)
    requires AnswersFit(client.k, server.cfg, server.sh, server.group)
    modifies server`shared, server`sh, server`psk, server`transcript, server`secrets, server`sent
    ensures server.sh == FinalHello(client.k, server.cfg, old(server.sh), server.group, d)
    ensures server.sent == old(server.sent) + [raw]
    ensures UnmarshalServerHello(raw) == Some(server.sh.(original := Some(raw)))
    ensures server.transcript == old(server.transcript) + Marshal(client.hello).value + raw
    ensures server.psk == if d.Resumed? then Some(d.secret) else None
    ensures d.Resumed? ==> && d.index == 0 && |client.hello.pskIdentities| == 1 && client.cfg.session.Some?
                           && client.cfg.session.value.sameHash(server.sh.cipherSuite)
                           && d.secret == client.cfg.session.value.secret
    ensures var k, g := client.k, server.group;
            && server.shared == k.agree(g, server.cfg.key(g), k.pub(g, client.cfg.key(g)))
            && server.secrets == HandshakeSecrets(server.Keys(), if d.Resumed? then d.secret else [], server.shared,
                                                  server.transcript)
  {
    hide Marshal, Unmarshal, MarshalServerHello, UnmarshalServerHello, Acceptable, SlotOk, Received, Decide,
         HandshakeSecrets, HasShare, ShareFor, Bound, SameSession;
    ghost var k, c, s, h, g, before := client.k, client.cfg, server.cfg, client.hello, server.group, server.transcript;
    ReceivedFields(h);
    OwnShareFound(k, c, h, g);
    var ok := server.AcceptShare();
    ResumptionAgrees(k, c, s, server.sh.cipherSuite, h, before);
    d := Decide(server.Keys(), s, server.sh.cipherSuite, server.clientHello, before);
    ok := server.CheckForResumption();
    ServerHelloCrosses(k, s, h, server.sh.cipherSuite, g, d);
    var message := server.SendServerHello();
    raw := message.value;
  }

  /** The server answers, the client accepts the answer `seen`, and both derive the handshake secrets. */
  method SettleKeys(client: Client, server: Server, retried: bool) returns (ok: bool, ghost seen: ServerHello)
    requires Met(client, server, retried) && Honest(client.k, client.cfg, server.cfg)
    modifies client`suite, client`usingPsk, client`shared, client`transcript, client`secrets, client`accepted
    modifies server`shared, server`sh, server`psk, server`transcript, server`secrets, server`sent
    ensures var k, g := client.k, server.group;
            && client.shared == server.shared == k.agree(g, client.cfg.key(g), k.pub(g, server.cfg.key(g)))
            && client.secrets ==
               HandshakeSecrets(client.Keys(), SessionSecret(server.psk), client.shared, client.transcript)
    ensures ok && Agreed(client, server) && seen == server.sh.(original := seen.original)
    ensures ServerHelloOk(client.cfg, client.hello, old(client.suite), seen) && ChoiceOk(client.cfg, client.hello, seen)
    ensures client.suite in client.hello.cipherSuites
  {
    hide Marshal, Unmarshal, UnmarshalServerHello, Received, HandshakeSecrets, HasShare, Bound, SameSession,
         ServerCertGood, ClientCertGood, GoodHello, RefusalAlert, AnswersFit;
    GoodIsWritten(client.k, client.cfg, client.hello);
    ghost var d;
    var raw;
    raw, d := ServerAnswers(client, server);
    var m := UnmarshalServerHello(raw);
    seen := m.value;
    var alert := client.CheckServerHello(m.value);
    if alert.Some? {
      return false, seen;
    }
    if !retried {
      client.StartTranscript();
      assert [] + Marshal(client.hello).value == Marshal(client.hello).value;
    }
    alert := client.ProcessServerHello(m.value, raw);
    ok := alert.None?;
  }

  lemma GoodIsWritten(k: Crypto, c: ClientConfig, h: Hello)
    requires GoodHello(k, c, h)
    ensures Marshal(h).Some?
  {
  }

  lemma OwnShareFound(k: Crypto, c: ClientConfig, h: Hello, g: u16)
    requires OwnShares(k, c, h)
    ensures HasShare(h, g) <==> ShareFor(h.keyShares, g).Some?
    ensures HasShare(h, g) ==> ShareFor(h.keyShares, g).value == k.pub(g, c.key(g))
  {
    ShareFound(k, c, h.keyShares, g);
  }

  // ----- Finished -----

  /**
   The server's Finished passes to a client, in whatever state the two are in.
   It is accepted exactly when the two values agree.
   */
  method PassServerFinished(client: Client, server: Server) returns (ok: bool)
    modifies client`transcript, client`secrets, client`accepted, server`transcript, server`secrets, server`sent
    ensures var mine := client.Keys().finished(old(client.secrets).serverHs, old(client.transcript));
            var theirs := server.Keys().finished(old(server.secrets).serverHs, old(server.transcript));
            && (ok <==> MarshalFinished(theirs).Some? && mine == theirs)
            && (ok ==> client.transcript == old(client.transcript) + MarshalFinished(theirs).value)
    ensures ok ==> && client.secrets == ApplicationSecrets(client.Keys(), old(client.secrets), client.transcript)
                   && server.secrets == ApplicationSecrets(server.Keys(), old(server.secrets), server.transcript)
    ensures ok && old(client.transcript) == old(server.transcript) ==> client.transcript == server.transcript
    ensures ok && old(AllHeard(client, server)) ==> AllHeard(client, server)
  {
    hide MarshalFinished, UnmarshalFinished, ApplicationSecrets;
    ghost var theirs := server.Keys().finished(server.secrets.serverHs, server.transcript);
    var fin := server.SendFinished();
    if fin.None? {
      return false;
    }
    FinishedCrosses(theirs);
    ok := client.ReadServerFinished(fin.value);
  }

  /** The client's Finished, which the server has worked out beforehand, in whatever state the two are in. */
  method PassClientFinished(client: Client, server: Server) returns (ok: bool)
    modifies client`transcript, client`secrets, client`sent
    modifies server`clientFinished, server`transcript, server`secrets, server`accepted
    ensures var mine := client.Keys().finished(old(client.secrets).clientHs, old(client.transcript));
            var theirs := server.Keys().finished(old(server.secrets).clientHs, old(server.transcript));
            && (ok <==> MarshalFinished(mine).Some? && mine == theirs)
            && (ok ==> client.transcript == old(client.transcript) + MarshalFinished(mine).value)
    ensures ok ==> && client.secrets == ResumptionSecret(client.Keys(), old(client.secrets), client.transcript)
                   && server.secrets == ResumptionSecret(server.Keys(), old(server.secrets), server.transcript)
    ensures ok && old(client.transcript) == old(server.transcript) ==> client.transcript == server.transcript
    ensures ok && old(AllHeard(client, server)) ==> AllHeard(client, server)
  {
    hide MarshalFinished, UnmarshalFinished, ResumptionSecret;
    ok := server.RollForward();
    if !ok {
      return false;
    }
    ghost var mine := client.Keys().finished(client.secrets.clientHs, client.transcript);
    var fin := client.SendFinished();
    if fin.None? {
      return false;
    }
    FinishedCrosses(mine);
    ok := server.ReadClientFinished(fin.value);
  }

  // ----- The server's flight -----

  method PassCertificate(client: Client, server: Server) returns (ok: bool)
    requires client.k == server.k && ServerCertGood(client.k, client.cfg, server.cfg)
    requires client.suite == server.sh.cipherSuite && client.transcript == server.transcript && AllHeard(client, server)
    modifies client`peer, client`transcript, client`accepted, server`transcript, server`sent
    ensures ok && client.transcript == server.transcript && AllHeard(client, server)
    ensures client.peer == server.cfg.cert.chain && old(client.transcript) <= client.transcript
  {
    hide MarshalCertificate, UnmarshalCertificate, MarshalVerify, UnmarshalVerify, ReadBack, Sent, Answer;
    ghost var a, b := server.clientHello.ocspStapling, server.clientHello.scts;
    CertificateCrosses(server.cfg.cert, a, b);
    var cert := server.SendCertificate();
    ok := client.ReadServerCertificate(cert.value);
    if !ok {
      return;
    }
    ghost var t := server.transcript;
    VerifyCrosses(VerifyMsg(server.cfg.algorithm, server.cfg.sign(server.Keys().signed("server", t))));
    var sig := server.SendVerify();
    ok := client.ReadServerVerify(sig.value);
  }

  lemma HonestFlight(k: Crypto, c: ClientConfig, s: ServerConfig)
    requires Honest(k, c, s)
    ensures s.parameters != [] && s.parameters[0] == TYPE_ENCRYPTED_EXTENSIONS && c.acceptsParameters(s.parameters)
    ensures s.request != [] && s.request[0] == TYPE_CERTIFICATE_REQUEST && c.readRequest(s.request).Some?
    ensures ServerCertGood(k, c, s) && ClientCertGood(k, c, s)
    ensures forall u, x, t :: MarshalFinished(k.suite(u).finished(x, t)).Some?
  {
    hide ServerCertGood, ClientCertGood;
  }

  /** Parameters, and the certificate or none; the client accepts each. */
  method ServerParameters(client: Client, server: Server) returns (ok: bool)
    requires client.k == server.k && Honest(client.k, client.cfg, server.cfg) && Agreed(client, server)
    requires client.request.None?
    modifies client`request, client`peer, client`transcript, client`accepted, server`transcript, server`sent
    ensures ok && Agreed(client, server) && (client.request.Some? <==> server.RequestsCert())
    ensures !client.usingPsk ==> client.peer == server.cfg.cert.chain
    ensures old(client.transcript) <= client.transcript
  {
    hide MarshalFinished, UnmarshalFinished, Honest, ServerCertGood, ClientCertGood;
    HonestFlight(client.k, client.cfg, server.cfg);
    server.SendFixed(server.cfg.parameters);
    ok := client.ReadServerParameters(server.cfg.parameters);
    if !ok {
      return;
    }
    if !client.usingPsk {
      if server.RequestsCert() {
        server.SendFixed(server.cfg.request);
        ok := client.ReadCertificateRequest(server.cfg.request);
        if !ok {
          return;
        }
      }
      ok := PassCertificate(client, server);
    }
  }

  /** The server's flight up to its Finished, from which the client derives the application secrets. */
  method ServerFlight(client: Client, server: Server) returns (ok: bool)
    requires client.k == server.k && Honest(client.k, client.cfg, server.cfg) && Agreed(client, server)
    requires client.request.None?
    modifies client`request, client`peer, client`transcript, client`secrets, client`accepted
    modifies server`transcript, server`secrets, server`sent
    ensures ok && Agreed(client, server) && (client.request.Some? <==> server.RequestsCert())
    ensures !client.usingPsk ==> client.peer == server.cfg.cert.chain
    ensures client.Keys() == old(client.Keys()) && old(client.transcript) <= client.transcript
    ensures client.secrets == ApplicationSecrets(client.Keys(), old(client.secrets), client.transcript)
  {
    hide MarshalFinished, UnmarshalFinished, Honest, ServerCertGood, ClientCertGood, ApplicationSecrets;
    HonestFlight(client.k, client.cfg, server.cfg);
    ok := ServerParameters(client, server);
    if !ok {
      return;
    }
    ok := PassServerFinished(client, server);
  }

  // ----- The client's flight -----

  method PassClientCertificate(client: Client, server: Server) returns (ok: bool)
    requires client.k == server.k && ClientCertGood(client.k, client.cfg, server.cfg) && client.request.Some?
    requires client.suite == server.sh.cipherSuite && client.transcript == server.transcript && AllHeard(client, server)
    modifies client`transcript, client`sent, server`peer, server`transcript, server`accepted
    ensures ok && client.transcript == server.transcript && AllHeard(client, server)
    ensures server.peer == client.cfg.cert.chain && old(client.transcript) <= client.transcript
  {
    hide MarshalCertificate, UnmarshalCertificate, MarshalVerify, UnmarshalVerify, ReadBack, Sent, Answer;
    CertificateCrosses(client.cfg.cert, client.request.value.0, client.request.value.1);
    var cert := client.SendCertificate();
    ok := server.ReadClientCertificate(cert.value);
    if !ok {
      return;
    }
    if |client.cfg.cert.chain| != 0 {
      ghost var t := client.transcript;
      VerifyCrosses(VerifyMsg(client.cfg.algorithm, client.cfg.sign(client.Keys().signed("client", t))));
      var sig := client.SendVerify();
      ok := server.ReadClientVerify(sig.value);
    }
  }

  /** The client's certificate, when asked for, and its Finished; the server accepts each. */
  method ClientFlight(client: Client, server: Server) returns (ok: bool)
    requires client.k == server.k && Honest(client.k, client.cfg, server.cfg) && Agreed(client, server)
    requires client.request.Some? <==> server.RequestsCert()
    modifies client`transcript, client`secrets, client`sent
    modifies server`peer, server`transcript, server`secrets, server`clientFinished, server`accepted
    ensures ok && Agreed(client, server)
    ensures server.RequestsCert() ==> server.peer == client.cfg.cert.chain
    ensures client.Keys() == old(client.Keys()) && old(client.transcript) <= client.transcript
    ensures client.secrets == ResumptionSecret(client.Keys(), old(client.secrets), client.transcript)
  {
    hide MarshalFinished, UnmarshalFinished, ServerCertGood, ClientCertGood, ResumptionSecret;
    if client.request.Some? {
      ok := PassClientCertificate(client, server);
      if !ok {
        return;
      }
    }
    ok := PassClientFinished(client, server);
  }

  // ----- The whole run -----

  /** The hellos, with or without a retry. */
  method ExchangeHellos(client: Client, server: Server) returns (ok: bool, retried: bool)
    requires Fresh(client, server) && client.hello.original.None? && Offered(client.cfg, client.hello).Some?
    requires FirstHelloGood(client.k, client.cfg, server.cfg, Offered(client.cfg, client.hello).value)
    requires SecondWritable(client.k, client.cfg, server.cfg, Offered(client.cfg, client.hello).value)
    requires forall g, x :: client.k.pub(g, x) != []
    modifies client`hello, client`suite, client`transcript, client`sent, client`accepted
    modifies server`clientHello, server`sh, server`group, server`transcript, server`sent, server`accepted
    ensures ok && Met(client, server, retried)
    ensures retried <==> !HasShare(Offered(client.cfg, old(client.hello)).value, server.group)
  {
    hide Marshal, Received, FirstHelloGood, SecondWritable, Met, HasShare, ShareFor, Acceptable, Bound, PickSuite,
         PickGroup;
    retried := false;
    ok := FirstHello(client, server);
    if !ok {
      return;
    }
    FirstIsWritten(client.k, client.cfg, server.cfg, client.hello);
    ReceivedFields(client.hello);
    OwnShareFound(client.k, client.cfg, client.hello, server.group);
    retried := ShareFor(server.clientHello.keyShares, server.group).None?;
    if retried {
      ok := Retry(client, server);
    } else {
      MeetAtOnce(client, server);
    }
  }

  /** Both flights; the secrets at the end are those of the schedule. */
  method Flights(client: Client, server: Server) returns (ok: bool, ghost inputs: Inputs)
    requires client.k == server.k && Honest(client.k, client.cfg, server.cfg) && Agreed(client, server)
    requires client.request.None?
    requires client.secrets ==
             HandshakeSecrets(client.Keys(), SessionSecret(server.psk), client.shared, client.transcript)
    modifies client`request, client`peer, client`transcript, client`secrets, client`accepted, client`sent
    modifies server`transcript, server`secrets, server`sent, server`peer, server`clientFinished, server`accepted
    ensures ok && Agreed(client, server)
    ensures !client.usingPsk ==> client.peer == server.cfg.cert.chain
    ensures server.RequestsCert() ==> server.peer == client.cfg.cert.chain
    ensures inputs == Inputs(SessionSecret(server.psk), client.shared, old(client.transcript), inputs.server,
                             client.transcript)
    ensures inputs.hello <= inputs.server <= inputs.whole && Scheduled(client.Keys(), client.secrets, inputs)
  {
    hide *;
    inputs := Inputs(SessionSecret(server.psk), client.shared, client.transcript, [], []);
    ok := ServerFlight(client, server);
    if !ok {
      return;
    }
    inputs := inputs.(server := client.transcript);
    ok := ClientFlight(client, server);
    inputs := inputs.(whole := client.transcript);
    DerivedInSteps(client.Keys(), inputs);
  }

  /**
   Every honest run ends with every message of either side accepted by the
   other, both Finished values among them, and with the same transcript,
   shared key, secrets and suite on both sides.  The shared key comes from both
   private keys, and `inputs` names the three transcripts that the secrets are
   derived over.
   */
  method HonestRun(client: Client, server: Server) returns (ok: bool, ghost inputs: Inputs)
    requires Fresh(client, server) && Honest(client.k, client.cfg, server.cfg)
    requires client.hello.original.None? && Offered(client.cfg, client.hello).Some?
    requires FirstHelloGood(client.k, client.cfg, server.cfg, Offered(client.cfg, client.hello).value)
    requires SecondWritable(client.k, client.cfg, server.cfg, Offered(client.cfg, client.hello).value)
    modifies client, server
    ensures ok && Agreed(client, server) && client.suite in client.hello.cipherSuites
    ensures !client.usingPsk ==> client.peer == server.cfg.cert.chain
    ensures server.RequestsCert() ==> server.peer == client.cfg.cert.chain
    ensures var k, g := client.k, server.group;
            && inputs.psk == SessionSecret(server.psk)
            && inputs.hello <= inputs.server <= inputs.whole == client.transcript
            && inputs.shared == client.shared == k.agree(g, client.cfg.key(g), k.pub(g, server.cfg.key(g)))
            && Scheduled(client.Keys(), client.secrets, inputs)
  {
    hide *;
    FreshParts(client, server);
    SharesFilledIn(client.k, client.cfg, server.cfg);
    inputs := Inputs([], [], [], [], []);
    var retried;
    ok, retried := ExchangeHellos(client, server);
    if !ok {
      return;
    }
    ghost var seen;
    ok, seen := SettleKeys(client, server, retried);
    if !ok {
      return;
    }
    ok, inputs := Flights(client, server);
  }
}
