/**
 Runs of the handshake over a network that delivers anything at all.  When the
 client accepts the server's Finished, either the two have hashed different
 bytes to the same Finished value, or they agree on every message, on the suite
 and on the secrets.
 */
module HandshakeTamper {
  import opened Bytes
  import opened ClientHello
  import opened ServerHello
  import opened Certificate
  import opened HelloRoundTrip
  import opened Ech
  import opened Choice
  import opened Handshake
  import opened Versions
  import opened HandshakeRun
  import opened RecordReader

  // ----- A transcript has one reading -----

  /** A handshake message as a reader cuts it off: its header counts its body. */
  predicate Whole(m: bytes)
  {
    |m| >= 4 && |m| == 4 + BodyLen(m)
  }

  predicate AllWhole(ms: seq<bytes>)
  {
    forall i :: 0 <= i < |ms| ==> Whole(ms[i])
  }

  lemma FirstAlike(m: bytes, x: bytes, r: bytes, y: bytes)
    requires Whole(m) && Whole(r) && m + x == r + y
    ensures m == r && x == y
  {
    hide Pair;
    var s := m + x;
    assert s[..4] == m[..4] && (r + y)[..4] == r[..4];
    assert m[..4] == r[..4];
    assert m[1] == m[..4][1] && m[2] == m[..4][2] && m[3] == m[..4][3];
    assert r[1] == r[..4][1] && r[2] == r[..4][2] && r[3] == r[..4][3];
    assert |m| == |r|;
    assert s[..|m|] == m && s[|m|..] == x && (r + y)[..|r|] == r && (r + y)[|r|..] == y;
  }

  /** Whole messages that join to the same bytes are the same messages. */
  lemma {:induction false} OneReading(a: seq<bytes>, b: seq<bytes>)
    requires AllWhole(a) && AllWhole(b) && Flat(a) == Flat(b)
    ensures a == b
  {
    hide Whole;
    if a == [] || b == [] {
      if a != [] {
        NotNothing(a);
      }
      if b != [] {
        NotNothing(b);
      }
    } else {
      FirstAlike(a[0], Flat(a[1..]), b[0], Flat(b[1..]));
      OneReading(a[1..], b[1..]);
    }
  }

  lemma NotNothing(a: seq<bytes>)
    requires AllWhole(a) && a != []
    ensures Flat(a) != []
  {
    hide BodyLen;
    assert Whole(a[0]);
  }

  /** The transcript `t` is made of the messages `ms`. */
  ghost predicate Reads(t: bytes, ms: seq<bytes>)
  {
    AllWhole(ms) && t == Flat(ms)
  }

  lemma ReadsOn(t: bytes, ms: seq<bytes>, m: bytes)
    requires Reads(t, ms) && Whole(m)
    ensures Reads(t + m, ms + [m])
  {
    hide Whole;
    FlatConcat(ms, [m]);
    assert Flat([m]) == m + Flat([]);
  }

  // ----- What is hashed is whole -----

  lemma WholeMessage(t: byte, b: bytes)
    requires |b| < 0x100_0000
    ensures Whole([t] + LP24(b))
  {
    var n := |b|;
    var m := [t] + (U24(n) + b);
    assert m[1] == U24(n)[0] && m[2] == U24(n)[1] && m[3] == U24(n)[2];
  }

  lemma HelloWhole(h: Hello)
    requires Marshal(h).Some?
    ensures Whole(Marshal(h).value) && Marshal(h).value != [] && Marshal(h).value[0] == TYPE_CLIENT_HELLO
  {
    hide Exts, ExtBytes, Preamble, Whole, LP16, LP24;
    var x, p := ExtBytes(Exts(h, 0, SLOTS)), Preamble(h, h.sessionId);
    var b := if x.buf == [] then p.Append(x) else p.AddLP16(x);
    WholeMessage(TYPE_CLIENT_HELLO, b.buf);
  }

  lemma ServerHelloWhole(sh: ServerHello)
    requires MarshalServerHello(sh).Some?
    ensures Whole(MarshalServerHello(sh).value)
  {
    hide ExtBytes, LegacyExts, ModernExts, TailExts, ShFront, Whole, LP16, LP24;
    var x, f := ExtBytes(LegacyExts(sh) + ModernExts(sh) + TailExts(sh)), ShFront(sh);
    var b := if x.buf == [] then f.Append(x) else f.AddLP16(x);
    WholeMessage(TYPE_SERVER_HELLO, b.buf);
  }

  lemma CertificateWhole(m: CertificateMsg)
    requires MarshalCertificate(m).Some?
    ensures Whole(MarshalCertificate(m).value)
  {
    hide CertBytes, Whole, LP24, Sent;
    WholeMessage(TYPE_CERTIFICATE, Raw([0]).Append(CertBytes(Sent(m))).buf);
  }

  lemma VerifyWhole(m: VerifyMsg)
    requires MarshalVerify(m).Some?
    ensures Whole(MarshalVerify(m).value)
  {
    hide Whole, LP16, LP24, U16;
    WholeMessage(TYPE_CERTIFICATE_VERIFY, Raw(U16(m.algorithm)).AddLP16(Raw(m.signature)).buf);
  }

  lemma HashWhole(k: Schedule, t: bytes)
    requires |k.hash(t)| < 0x100
    ensures Whole(MessageHash(k, t)) && MessageHash(k, t) != [] && MessageHash(k, t)[0] == TYPE_MESSAGE_HASH
  {
  }

  // ----- A parsed hello remembers its bytes -----

  lemma {:induction false} ReadExtsKeep(s: bytes, seen: set<u16>, m: Hello)
    ensures ReadExts(s, seen, m).Some? ==> ReadExts(s, seen, m).value.original == m.original
    decreases |s|
  {
    hide Apply, ReadU16, ReadLP16;
    if s != [] && ReadExts(s, seen, m).Some? {
      var t := ReadU16(s);
      var d := ReadLP16(t.rest);
      var n := m.(extensions := m.extensions + [t.value]);
      ReadExtsKeep(d.rest, seen + {t.value}, Apply(n, t.value, d.value, d.rest == []).value);
    }
  }

  lemma UnmarshalKeeps(data: bytes)
    ensures Unmarshal(data).Some? ==> Unmarshal(data).value.original == Some(data)
  {
    hide ReadExts, ReadN, ReadU16, ReadLP8, ReadLP16, ReadU16s, Only;
    forall x, m | Unmarshal(data).Some?
      ensures ReadExts(x, {}, m).Some? ==> ReadExts(x, {}, m).value.original == m.original
    {
      ReadExtsKeep(x, {}, m);
    }
  }

  lemma ApplyShKeeps(m: ServerHello, typ: u16, data: bytes)
    ensures ApplySh(m, typ, data).Some? ==> ApplySh(m, typ, data).value.original == m.original
  {
    hide Only, ReadLP16, ReadU16, ReadLPs;
  }

  lemma {:induction false} ApplyShAllKeeps(raw: seq<RawExt>, seen: set<u16>, m: ServerHello)
    ensures ApplyShAll(raw, seen, m).Some? ==> ApplyShAll(raw, seen, m).value.original == m.original
  {
    hide ApplySh;
    if raw != [] && ApplyShAll(raw, seen, m).Some? {
      ApplyShKeeps(m, raw[0].typ, raw[0].data);
      ApplyShAllKeeps(raw[1..], seen + {raw[0].typ}, ApplySh(m, raw[0].typ, raw[0].data).value);
    }
  }

  lemma ServerHelloKeeps(data: bytes)
    ensures UnmarshalServerHello(data).Some? ==> UnmarshalServerHello(data).value.original == Some(data)
  {
    hide ApplyShAll, ReadRawExts, Only;
    var f := ReadShFront(data);
    if UnmarshalServerHello(data).Some? && f.value.1 != [] {
      ApplyShAllKeeps(ReadRawExts(Only(2, f.value.1).value).value, {}, f.value.0);
    }
  }

  // ----- The hellos, each side on its own -----

  /** Whatever the network delivers is cut into whole messages. */
  ghost predicate Delivers(net: nat -> bytes)
  {
    forall i :: Whole(net(i))
  }

  ghost predicate ShortHash(k: Crypto)
  {
    forall u, t :: |k.suite(u).hash(t)| < 0x100
  }

  function OpeningLength(retried: bool): nat { if retried then 4 else 2 }

  /** A list of messages opens with the last hello and the answer to it, behind a replaced hello after a retry. */
  ghost predicate OpensWith(ms: seq<bytes>, retried: bool, hello: bytes, answer: bytes)
  {
    var at := if retried then 2 else 0;
    && |ms| > at + 1 && ms[at] == hello && ms[at + 1] == answer && ms[0] != []
    && ms[0][0] == if retried then TYPE_MESSAGE_HASH else TYPE_CLIENT_HELLO
  }

  lemma OpensAlike(ms: seq<bytes>, r: bool, h: bytes, a: bytes, r': bool, h': bytes, a': bytes)
    requires OpensWith(ms, r, h, a) && OpensWith(ms, r', h', a')
    ensures r == r' && h == h' && a == a'
  {
  }

  lemma OpensOn(ms: seq<bytes>, more: seq<bytes>, r: bool, h: bytes, a: bytes)
    requires OpensWith(ms, r, h, a)
    ensures OpensWith(ms + more, r, h, a)
  {
  }

  /** An answer that takes up the client's own offer, and nothing older than TLS 1.3. */
  predicate Fits(hello: Hello, sh: ServerHello)
  {
    && sh.supportedVersion == VERSION_TLS13 && sh.vers == VERSION_TLS12 && sh.compressionMethod == 0
    && sh.alpn == [] && sh.scts == [] && !sh.ocspStapling && !sh.ticketSupported && !sh.extendedMasterSecret
    && sh.renegotiation.None?
    && sh.sessionId == hello.sessionId && sh.cipherSuite in hello.cipherSuites && sh.random != RETRY_RANDOM
    && sh.share.Some? && (exists i :: 0 <= i < |hello.keyShares| && hello.keyShares[i].group == sh.share.value.group)
    && (sh.identity.Some? ==> sh.identity.value < |hello.pskIdentities|)
  }

  lemma AnswerFits(cfg: ClientConfig, hello: Hello, suite: u16, sh: ServerHello)
    requires ServerHelloOk(cfg, hello, suite, sh) && ChoiceOk(cfg, hello, sh)
    ensures Fits(hello, sh)
  {
  }

  /** The key that the client makes from the server's share. */
  function AgreedKey(k: Crypto, cfg: ClientConfig, sh: ServerHello): bytes
    requires sh.share.Some?
  {
    k.agree(sh.share.value.group, cfg.key(sh.share.value.group), sh.share.value.data)
  }

  /** The client's hellos and the answer to the last of them, which has passed the checks common to all answers. */
  method ClientHellos(client: Client, net: nat -> bytes)
    returns (ok: bool, retried: bool, raw: bytes, ghost ms: seq<bytes>)
    requires client.transcript == [] && client.hello.original.None? && Delivers(net) && ShortHash(client.k)
    modifies client`hello, client`suite, client`transcript, client`sent, client`accepted
    ensures ok && retried && !client.cfg.knowsSuite(0) ==>
              && ms != [] && Offered(client.cfg, old(client.hello)).Some?
              && var first := Marshal(Offered(client.cfg, old(client.hello)).value);
                 first.Some? && ms[0] == MessageHash(client.Keys(), first.value)
    ensures ok ==> && Reads(client.transcript, ms) && Marshal(client.hello).Some? && |ms| + 1 == OpeningLength(retried)
                   && (forall a :: OpensWith(ms + [a], retried, Marshal(client.hello).value, a))
    ensures ok ==> && UnmarshalServerHello(raw).Some? && Whole(raw)
                   && var sh := UnmarshalServerHello(raw).value;
                      && sh.original == Some(raw) && sh.cipherSuite == client.suite
                      && ServerHelloOk(client.cfg, client.hello, client.suite, sh)
  {
    hide Marshal, UnmarshalServerHello, Whole, RetryHello, RetryOk, RetryAlert, MessageHash, Offered, AllWhole, Flat,
         RefusalAlert;
    ok, retried, raw, ms := false, false, net(0), [];
    var hello := client.Start();
    if hello.None? {
      return;
    }
    ServerHelloKeeps(raw);
    var m := UnmarshalServerHello(raw);
    if m.None? {
      return;
    }
    var alert := client.CheckServerHello(m.value);
    if alert.Some? {
      return;
    }
    client.StartTranscript();
    HelloWhole(client.hello);
    ms := [Marshal(client.hello).value];
    retried := m.value.random == RETRY_RANDOM;
    ReadsOne(client.transcript);
    if retried {
      var t := client.transcript;
      ms := [MessageHash(client.Keys(), t), raw];
      HashWhole(client.Keys(), t);
      ReadsTwo(ms[0], raw);
      var second;
      second, alert := client.ProcessRetry(m.value, raw);
      if second.None? {
        return;
      }
      HelloWhole(client.hello);
      ReadsOn(ms[0] + raw, ms, second.value);
      ms, raw := ms + [second.value], net(1);
      ServerHelloKeeps(raw);
      m := UnmarshalServerHello(raw);
      if m.None? {
        return;
      }
      alert := client.CheckServerHello(m.value);
      if alert.Some? {
        return;
      }
    }
    ok := true;
  }

  /** The client's hellos and what it takes for the server's; `ms` are the messages it has hashed. */
  method ClientOpening(client: Client, net: nat -> bytes)
    returns (ok: bool, retried: bool, raw: bytes, ghost ms: seq<bytes>)
    requires client.transcript == [] && client.hello.original.None? && Delivers(net) && ShortHash(client.k)
    modifies client`hello, client`suite, client`usingPsk, client`shared, client`transcript, client`secrets, client`sent,
             client`accepted
    ensures ok && retried && !client.cfg.knowsSuite(0) ==>
              && ms != [] && Offered(client.cfg, old(client.hello)).Some?
              && var first := Marshal(Offered(client.cfg, old(client.hello)).value);
                 first.Some? && ms[0] == MessageHash(client.Keys(), first.value)
    ensures ok ==> && Reads(client.transcript, ms) && Marshal(client.hello).Some? && |ms| == OpeningLength(retried)
                   && OpensWith(ms, retried, Marshal(client.hello).value, raw) && UnmarshalServerHello(raw).Some?
    ensures ok ==> var sh := UnmarshalServerHello(raw).value;
                   && sh.cipherSuite == client.suite && client.usingPsk == sh.identity.Some?
                   && Fits(client.hello, sh) && ChoiceOk(client.cfg, client.hello, sh)
                   && client.shared == AgreedKey(client.k, client.cfg, sh)
                   && client.secrets == ClientSecrets(client.k, client.cfg, sh, client.transcript)
  {
    hide Marshal, UnmarshalServerHello, Whole, ChoiceAlert, MessageHash, ClientSecrets, Offered, Reads, OpensWith, Fits,
         ServerHelloOk, HasShare;
    ok, retried, raw, ms := ClientHellos(client, net);
    if !ok {
      return;
    }
    ReadsOn(client.transcript, ms, raw);
    ms := ms + [raw];
    var m := UnmarshalServerHello(raw);
    var alert := client.ProcessServerHello(m.value, raw);
    ok := alert.None?;
    if ok {
      AnswerFits(client.cfg, client.hello, client.suite, m.value);
    }
  }

  lemma ReadsOne(m: bytes)
    requires Whole(m)
    ensures Reads(m, [m])
  {
    hide Whole;
    assert Flat([m]) == m + Flat([]);
  }

  lemma ReadsTwo(m: bytes, n: bytes)
    requires Whole(m) && Whole(n)
    ensures Reads(m + n, [m, n])
  {
    hide Whole, Reads;
    ReadsOne(m);
    ReadsOn(m, [m], n);
    assert [m] + [n] == [m, n];
  }

  /** A hello that asks for TLS 1.3 without what TLS 1.3 has done away with. */
  predicate UpToDate(h: Hello)
  {
    h.supportedVersions != [] && h.compressionMethods == [0] && h.secureRenegotiation == [] && !h.earlyData
  }

  lemma HelloUpToDate(cfg: ServerConfig, h: Hello, first: Hello, group: u16)
    ensures ClientHelloOk(cfg, h) ==> UpToDate(h)
    ensures UpToDate(first) && SecondHelloOk(h, first, group) ==> UpToDate(h)
  {
    hide SuiteFor, GroupFor, FallsBack;
  }

  /** What the server takes for the client's hellos; the last is not yet in its transcript. */
  method ServerHellos(server: Server, net: nat -> bytes) returns (ok: bool, retried: bool, ghost ms: seq<bytes>)
    requires server.transcript == [] && Delivers(net) && ShortHash(server.k)
    modifies server`clientHello, server`sh, server`group, server`transcript, server`sent, server`accepted
    ensures ok ==> && server.clientHello.original.Some?
                   && Unmarshal(server.clientHello.original.value) == Some(server.clientHello)
                   && Reads(server.transcript + server.clientHello.original.value, ms)
                   && (forall a :: OpensWith(ms + [a], retried, server.clientHello.original.value, a))
                   && UpToDate(server.clientHello)
                   && Modern(server.sh) && server.sh.group == 0 && server.sh.identity.None?
                   && |ms| + 1 == OpeningLength(retried)
                   && (retried ==> ms[0] == MessageHash(server.Keys(), net(0)))
  {
    hide Unmarshal, MarshalServerHello, Whole, ClientHelloOk, HelloAlert, SecondHelloOk, ShareFor, MessageHash,
         AllWhole, Flat, UpToDate;
    ok, retried, ms := false, false, [];
    var raw := net(0);
    UnmarshalKeeps(raw);
    var alert := server.ReceiveHello(raw);
    if alert.Some? {
      return;
    }
    ghost var first := server.clientHello;
    HelloUpToDate(server.cfg, first, first, server.group);
    if ShareFor(server.clientHello.keyShares, server.group).Some? {
      ReadsOne(raw);
      assert [] + raw == raw;
      ok, ms := true, [raw];
      return;
    }
    retried := true;
    HashWhole(server.Keys(), raw);
    var request := server.SendRetry();
    if request.None? {
      return;
    }
    ServerHelloWhole(RetryRequest(server.sh, server.group));
    ms := [MessageHash(server.Keys(), raw), request.value];
    ReadsTwo(ms[0], request.value);
    raw := net(1);
    UnmarshalKeeps(raw);
    alert := server.ReceiveSecondHello(raw);
    ok := alert.None?;
    HelloUpToDate(server.cfg, server.clientHello, first, server.group);
    ReadsOn(server.transcript, ms, raw);
    ms := ms + [raw];
  }

  lemma ModernAnswer(sh: ServerHello, s: KeyShare, i: Option<u16>)
    requires Modern(sh) && sh.group == 0 && s.group != 0
    ensures Modern(sh.(share := Some(s))) && Modern(sh.(share := Some(s), identity := i))
  {
  }

  /** The server's share and the shared key come from its own key and the share it has found. */
  ghost predicate Settled(k: Crypto, cfg: ServerConfig, h: Hello, g: u16, sh: ServerHello, psk: Option<bytes>,
                          shared: bytes)
  {
    && ShareFor(h.keyShares, g).Some? && psk.Some? == sh.identity.Some?
    && sh.share == Some(KeyShare(g, k.pub(g, cfg.key(g))))
    && shared == k.agree(g, cfg.key(g), ShareFor(h.keyShares, g).value)
  }

  function ServerSecrets(k: Crypto, sh: ServerHello, psk: Option<bytes>, shared: bytes, t: bytes): Secrets
  {
    HandshakeSecrets(k.suite(sh.cipherSuite), if psk.Some? then psk.value else [], shared, t)
  }

  /** The server's view of the hellos, and its answer. */
  method ServerOpening(server: Server, net: nat -> bytes)
    returns (ok: bool, retried: bool, raw: bytes, ghost ms: seq<bytes>)
    requires server.transcript == [] && server.psk.None? && Delivers(net) && ShortHash(server.k)
    modifies server`clientHello, server`sh, server`group, server`shared, server`psk, server`transcript, server`secrets,
             server`sent, server`accepted
    ensures ok ==> && Reads(server.transcript, ms) && |ms| == OpeningLength(retried)
                   && server.clientHello.original.Some?
                   && Unmarshal(server.clientHello.original.value) == Some(server.clientHello)
                   && OpensWith(ms, retried, server.clientHello.original.value, raw)
                   && MarshalServerHello(server.sh) == Some(raw) && (server.group != 0 ==> Modern(server.sh))
                   && Settled(server.k, server.cfg, server.clientHello, server.group, server.sh, server.psk,
                              server.shared)
                   && server.secrets == ServerSecrets(server.k, server.sh, server.psk, server.shared, server.transcript)
                   && (retried ==> ms[0] == MessageHash(server.Keys(), net(0))) && UpToDate(server.clientHello)
  {
    hide Unmarshal, MarshalServerHello, Whole, UpToDate, NegotiatesOk, Decide, ShareFor, HandshakeSecrets, Reads,
         OpensWith, Modern;
    raw := [];
    ok, retried, ms := ServerHellos(server, net);
    if !ok {
      return;
    }
    ghost var base, t := server.sh, server.transcript;
    ok := server.AcceptShare();
    if !ok {
      return;
    }
    ok := server.CheckForResumption();
    if !ok {
      return;
    }
    if server.group != 0 {
      ModernAnswer(base, server.sh.share.value, server.sh.identity);
    }
    var answer := server.SendServerHello();
    if answer.None? {
      ok := false;
      return;
    }
    ServerHelloWhole(server.sh);
    ReadsOn(t + server.clientHello.original.value, ms, answer.value);
    raw, ms := answer.value, ms + [answer.value];
  }

  // ----- The server's flight, each side on its own -----

  /** The holder of a certificate that the client trusts has signed the transcript `t`. */
  ghost predicate Vouched(k: Crypto, s: Schedule, cfg: ClientConfig, peer: seq<bytes>, t: bytes)
  {
    && peer != [] && cfg.trusts(peer)
    && exists algorithm, signature ::
         cfg.accepts(algorithm) && k.verify(peer[0], algorithm, s.signed("server", t), signature)
  }

  method ClientReads(client: Client, net: nat -> bytes, from: nat, ghost ms: seq<bytes>)
    returns (ok: bool, ghost more: seq<bytes>, ghost signed: bytes)
    requires Reads(client.transcript, ms) && Delivers(net)
    modifies client`request, client`peer, client`transcript, client`accepted
    ensures ok ==> Reads(client.transcript, ms + more) && more != []
    ensures ok && !client.usingPsk ==>
              && Reads(signed, (ms + more)[..|ms + more| - 1])
              && Vouched(client.k, client.Keys(), client.cfg, client.peer, signed)
  {
    hide UnmarshalCertificate, MarshalCertificate, UnmarshalVerify, MarshalVerify, Whole, Reads;
    more, signed := [], [];
    ok := client.ReadServerParameters(net(from));
    if !ok {
      return;
    }
    ReadsOn(old(client.transcript), ms, net(from));
    more := [net(from)];
    if client.usingPsk {
      return;
    }
    var raw, last := net(from + 1), net(from + 2);
    if |raw| > 0 && raw[0] == TYPE_CERTIFICATE_REQUEST {
      ghost var t := client.transcript;
      ok := client.ReadCertificateRequest(raw);
      if !ok {
        return;
      }
      ReadsOn(t, ms + more, raw);
      assert ms + more + [raw] == ms + (more + [raw]);
      more, raw, last := more + [raw], net(from + 2), net(from + 3);
    }
    ghost var t := client.transcript;
    ok := client.ReadServerCertificate(raw);
    if !ok {
      return;
    }
    ghost var again := MarshalCertificate(UnmarshalCertificate(raw).value).value;
    CertificateWhole(UnmarshalCertificate(raw).value);
    ReadsOn(t, ms + more, again);
    assert ms + more + [again] == ms + (more + [again]);
    more, t := more + [again], client.transcript;
    signed := t;
    ok := client.ReadServerVerify(last);
    if !ok {
      return;
    }
    assert ms + (more + [MarshalVerify(UnmarshalVerify(last).value).value]) ==
           (ms + more) + [MarshalVerify(UnmarshalVerify(last).value).value];
    again := MarshalVerify(UnmarshalVerify(last).value).value;
    VerifyWhole(UnmarshalVerify(last).value);
    ReadsOn(t, ms + more, again);
    assert ms + more + [again] == ms + (more + [again]);
    more := more + [again];
  }

  method ServerSends(server: Server, ghost ms: seq<bytes>) returns (ok: bool, ghost more: seq<bytes>)
    requires Reads(server.transcript, ms) && Whole(server.cfg.parameters) && Whole(server.cfg.request)
    modifies server`transcript, server`sent
    ensures ok ==> Reads(server.transcript, ms + more)
  {
    hide MarshalCertificate, MarshalVerify, Whole, Reads, Answer;
    ok, more := true, [server.cfg.parameters];
    server.SendFixed(server.cfg.parameters);
    ReadsOn(old(server.transcript), ms, server.cfg.parameters);
    if server.psk.Some? {
      return;
    }
    ghost var t := server.transcript;
    if server.RequestsCert() {
      server.SendFixed(server.cfg.request);
      ReadsOn(t, ms + more, server.cfg.request);
      assert ms + more + [server.cfg.request] == ms + (more + [server.cfg.request]);
      more := more + [server.cfg.request];
    }
    t := server.transcript;
    var cert := server.SendCertificate();
    if cert.None? {
      return false, more;
    }
    CertificateWhole(Answer(server.cfg.cert, server.clientHello.ocspStapling, server.clientHello.scts));
    ReadsOn(t, ms + more, cert.value);
    assert ms + more + [cert.value] == ms + (more + [cert.value]);
    more, t := more + [cert.value], server.transcript;
    var sig := server.SendVerify();
    if sig.None? {
      return false, more;
    }
    VerifyWhole(VerifyMsg(server.cfg.algorithm, server.cfg.sign(server.Keys().signed("server", t))));
    ReadsOn(t, ms + more, sig.value);
    assert ms + more + [sig.value] == ms + (more + [sig.value]);
    more := more + [sig.value];
  }

  // ----- The whole run -----

  /** The two know the same session, when one is resumed. */
  predicate SamePsk(usingPsk: bool, session: Option<Resumable>, psk: Option<bytes>)
  {
    usingPsk && session.Some? ==> psk == Some(session.value.secret)
  }

  /** The answer and the hello being the same on both sides, so is the key that the two have agreed on. */
  lemma SharedAgrees(k: Crypto, c: ClientConfig, h: Hello, s: ServerConfig, r: Hello, g: u16, sh: ServerHello,
                     psk: Option<bytes>, shared: bytes, seen: ServerHello)
    requires Agreeing(k) && OwnShares(k, c, h) && Settled(k, s, r, g, sh, psk, shared)
    requires Marshal(h).Some? && Unmarshal(Marshal(h).value) == Some(r) && seen == sh.(original := seen.original)
    requires ChoiceOk(c, h, seen)
    ensures AgreedKey(k, c, seen) == shared
  {
    hide Marshal, Unmarshal, Acceptable, ShareFor, HasShare, Exts;
    MarshalUnmarshal(h);
    OwnShareFound(k, c, h, g);
  }

  /** And so are the handshake secrets. */
  lemma SecretsAgree(k: Crypto, c: ClientConfig, h: Hello, s: ServerConfig, r: Hello, g: u16, sh: ServerHello,
                     psk: Option<bytes>, shared: bytes, seen: ServerHello, t: bytes)
    requires Agreeing(k) && OwnShares(k, c, h) && Settled(k, s, r, g, sh, psk, shared)
    requires Marshal(h).Some? && Unmarshal(Marshal(h).value) == Some(r) && seen == sh.(original := seen.original)
    requires ChoiceOk(c, h, seen) && SamePsk(seen.identity.Some?, c.session, psk)
    ensures ClientSecrets(k, c, seen, t) == ServerSecrets(k, sh, psk, shared, t)
  {
    hide Marshal, Unmarshal, ShareFor, HasShare, HandshakeSecrets;
    SharedAgrees(k, c, h, s, r, g, sh, psk, shared, seen);
  }

  /** Key agreement is symmetric, and the client has the keys to its shares. */
  ghost predicate SharesMeet(k: Crypto, c: ClientConfig, h: Hello)
  {
    Agreeing(k) && OwnShares(k, c, h)
  }

  /** What two parties with equal transcripts agree on. */
  ghost predicate Alike(client: Client, server: Server)
    reads client, server
  {
    && Marshal(client.hello).Some? && Unmarshal(Marshal(client.hello).value) == Some(server.clientHello)
    && (server.group != 0 ==>
          && client.suite == server.sh.cipherSuite
          && (SharesMeet(client.k, client.cfg, client.hello) ==>
                && client.shared == server.shared
                && (SamePsk(client.usingPsk, client.cfg.session, server.psk) ==> client.secrets == server.secrets)))
  }

  /** What the client has hashed: an answer that fits its offer, behind the hash of its first hello after a retry. */
  ghost predicate Unfolds(client: Client, hello: Hello, retried: bool, ms: seq<bytes>, raw: bytes)
    reads client
  {
    && UnmarshalServerHello(raw).Some? && Fits(client.hello, UnmarshalServerHello(raw).value)
    && UnmarshalServerHello(raw).value.cipherSuite == client.suite
    && (retried && !client.cfg.knowsSuite(0) ==>
          && ms != [] && Offered(client.cfg, hello).Some?
          && var first := Marshal(Offered(client.cfg, hello).value);
             first.Some? && ms[0] == MessageHash(client.Keys(), first.value))
  }

  /** The hellos, each side seeing what the network delivers. */
  method Openings(client: Client, server: Server, toClient: nat -> bytes, toServer: nat -> bytes)
    returns (ok: bool, retried: bool, retried': bool, ghost raw: bytes, ghost raw': bytes, ghost mine: seq<bytes>,
             ghost theirs: seq<bytes>)
    requires client.k == server.k && client.transcript == server.transcript == [] && server.psk.None?
    requires client.hello.original.None? && Delivers(toClient) && Delivers(toServer) && ShortHash(client.k)
    modifies client, server
    ensures ok ==>
              && Reads(client.transcript, mine) && Reads(server.transcript, theirs)
              && |mine| == OpeningLength(retried) && |theirs| == OpeningLength(retried')
              && Marshal(client.hello).Some? && server.clientHello.original.Some?
              && OpensWith(mine, retried, Marshal(client.hello).value, raw)
              && OpensWith(theirs, retried', server.clientHello.original.value, raw')
              && Unfolds(client, old(client.hello), retried, mine, raw)
              && (retried' ==> theirs[0] == MessageHash(server.Keys(), toServer(0))) && UpToDate(server.clientHello)
    ensures ok && client.transcript == server.transcript && raw == raw' ==>
              Marshal(client.hello) == server.clientHello.original ==> Alike(client, server)
  {
    hide Marshal, Unmarshal, MarshalServerHello, UnmarshalServerHello, Whole, Reads, OpensWith, Modern, Delivers,
         ShortHash, ClientSecrets, ServerSecrets, ChoiceOk, Settled, SamePsk, Fits, UpToDate,
         AgreedKey, MessageHash, Offered;
    retried', raw', theirs := false, [], [];
    ok, retried, raw, mine := ClientOpening(client, toClient);
    if !ok {
      return;
    }
    ok, retried', raw', theirs := ServerOpening(server, toServer);
    if ok && server.group != 0 && raw == raw' && Marshal(client.hello) == server.clientHello.original {
      ServerHelloRoundTrip(server.sh);
      if SharesMeet(client.k, client.cfg, client.hello) {
        SharedAgrees(client.k, client.cfg, client.hello, server.cfg, server.clientHello, server.group, server.sh,
                     server.psk, server.shared, UnmarshalServerHello(raw).value);
        if SamePsk(client.usingPsk, client.cfg.session, server.psk) {
          SecretsAgree(client.k, client.cfg, client.hello, server.cfg, server.clientHello, server.group, server.sh,
                       server.psk, server.shared, UnmarshalServerHello(raw).value, client.transcript);
        }
      }
    }
  }

  /** All messages before the server's Finished. */
  method Exchange(client: Client, server: Server, toClient: nat -> bytes, toServer: nat -> bytes)
    returns (ok: bool, retried: bool, retried': bool, ghost mine: seq<bytes>, ghost theirs: seq<bytes>,
             ghost seen: ServerHello, ghost signed: bytes)
    requires client.k == server.k && client.transcript == server.transcript == [] && server.psk.None?
    requires client.hello.original.None? && Delivers(toClient) && Delivers(toServer) && ShortHash(client.k)
    requires Whole(server.cfg.parameters) && Whole(server.cfg.request)
    modifies client, server
    ensures ok ==> Reads(client.transcript, mine) && Reads(server.transcript, theirs)
    ensures ok && client.transcript == server.transcript ==>
              mine == theirs && retried == retried' && Alike(client, server)
    ensures ok && client.transcript == server.transcript && retried && !client.cfg.knowsSuite(0) ==>
              SameFirst(client.Keys(), server.Keys(), Offered(client.cfg, old(client.hello)), toServer(0))
    ensures ok ==> Fits(client.hello, seen) && seen.cipherSuite == client.suite && UpToDate(server.clientHello)
    ensures ok && !client.usingPsk ==>
              && mine != [] && Reads(signed, mine[..|mine| - 1])
              && Vouched(client.k, client.Keys(), client.cfg, client.peer, signed)
  {
    hide Marshal, Unmarshal, UnmarshalServerHello, Whole, Reads, OpensWith, Delivers, ShortHash, SharesMeet, SamePsk,
         Fits, UpToDate, Vouched, MessageHash, Offered;
    ghost var raw, raw', more, more' := [], [], [], [];
    seen, signed := BLANK, [];
    ok, retried, retried', raw, raw', mine, theirs := Openings(client, server, toClient, toServer);
    if !ok {
      return;
    }
    ghost var c, s, t, u := mine, theirs, client.transcript, server.transcript;
    seen := UnmarshalServerHello(raw).value;
    ok, more, signed := ClientReads(client, toClient, if retried then 2 else 1, mine);
    if !ok {
      return;
    }
    ok, more' := ServerSends(server, theirs);
    if !ok {
      return;
    }
    mine, theirs := mine + more, theirs + more';
    if client.transcript == server.transcript {
      SameMessages(client.transcript, mine, theirs);
      OpensOn(c, more, retried, Marshal(client.hello).value, raw);
      OpensOn(s, more', retried', server.clientHello.original.value, raw');
      OpensAlike(mine, retried, Marshal(client.hello).value, raw, retried', server.clientHello.original.value, raw');
      SamePrefix(t, u, c, s, more, more');
      if retried && !client.cfg.knowsSuite(0) {
        assert c[0] == mine[0] && s[0] == theirs[0];
        ghost var first := Marshal(Offered(client.cfg, old(client.hello)).value).value;
        SameHash(client.Keys(), server.Keys(), first, toServer(0));
      }
    }
  }

  /** The server's Finished, which leaves two that are alike so. */
  method FinishAlike(client: Client, server: Server) returns (ok: bool)
    requires client.k == server.k
    modifies client`transcript, client`secrets, client`accepted, server`transcript, server`secrets, server`sent
    ensures ok ==> client.Keys().finished(old(client.secrets).serverHs, old(client.transcript)) ==
                   server.Keys().finished(old(server.secrets).serverHs, old(server.transcript))
    ensures ok ==> client.secrets.serverHs == old(client.secrets).serverHs
                   && server.secrets.serverHs == old(server.secrets).serverHs
    ensures ok && old(client.transcript) == old(server.transcript) ==> client.transcript == server.transcript
    ensures ok && old(client.transcript) == old(server.transcript) && old(Alike(client, server)) ==>
              Alike(client, server)
    ensures client.Keys() == old(client.Keys()) && server.Keys() == old(server.Keys())
  {
    hide Marshal, Unmarshal, MarshalFinished, SharesMeet, SamePsk, AllHeard;
    ok := PassServerFinished(client, server);
  }

  /**
   A client and a server over a network that delivers what it likes, up to the
   server's Finished.  `mine` and `theirs` are the messages that the two have
   hashed, `m` and `n` the bytes of them.  A Finished that is accepted is the
   value of both `m` and `n`.  If these are equal, so are the messages: the
   server holds the client's own hello, both have gone through a retry or
   neither has, the first hellos then have the same hash, and suite, shared key
   and secrets agree.  Whatever was delivered, the answer `seen` that the client
   has accepted fits its own offer, the hello that the server has accepted is up
   to date, and without a resumed session the holder of a trusted certificate
   has signed `signed`, all that the client had hashed.
   */
  method TamperedRun(client: Client, server: Server, toClient: nat -> bytes, toServer: nat -> bytes)
    returns (ok: bool, retried: bool, retried': bool, ghost mine: seq<bytes>, ghost theirs: seq<bytes>,
             ghost m: bytes, ghost n: bytes, ghost seen: ServerHello, ghost signed: bytes)
    requires client.k == server.k && client.transcript == server.transcript == [] && server.psk.None?
    requires client.hello.original.None? && Delivers(toClient) && Delivers(toServer) && ShortHash(client.k)
    requires Whole(server.cfg.parameters) && Whole(server.cfg.request)
    modifies client, server
    ensures ok ==>
              && Reads(m, mine) && Reads(n, theirs)
              && client.Keys().finished(client.secrets.serverHs, m) ==
                 server.Keys().finished(server.secrets.serverHs, n)
    ensures ok && m == n ==>
              && mine == theirs && retried == retried' && client.transcript == server.transcript
              && Alike(client, server)
    ensures ok && m == n && retried && !client.cfg.knowsSuite(0) ==>
              SameFirst(client.Keys(), server.Keys(), Offered(client.cfg, old(client.hello)), toServer(0))
    ensures ok ==> Fits(client.hello, seen) && seen.cipherSuite == client.suite && UpToDate(server.clientHello)
    ensures ok && !client.usingPsk ==>
              && mine != [] && Reads(signed, mine[..|mine| - 1])
              && Vouched(client.k, client.Keys(), client.cfg, client.peer, signed)
  {
    hide *;
    m, n := [], [];
    ok, retried, retried', mine, theirs, seen, signed := Exchange(client, server, toClient, toServer);
    if !ok {
      return;
    }
    m, n := client.transcript, server.transcript;
    ok := FinishAlike(client, server);
  }

  /** The first hello that the client sent and the first that the server got have the same hash. */
  predicate SameFirst(k: Schedule, l: Schedule, offered: Option<Hello>, raw: bytes)
  {
    && offered.Some? && Marshal(offered.value).Some?
    && k.hash(Marshal(offered.value).value) == l.hash(raw)
  }

  lemma SameHash(k: Schedule, l: Schedule, t: bytes, u: bytes)
    requires MessageHash(k, t) == MessageHash(l, u)
    ensures k.hash(t) == l.hash(u)
  {
    assert MessageHash(k, t)[4..] == k.hash(t) && MessageHash(l, u)[4..] == l.hash(u);
  }

  lemma SamePrefix(t: bytes, u: bytes, a: seq<bytes>, b: seq<bytes>, more: seq<bytes>, more': seq<bytes>)
    requires Reads(t, a) && Reads(u, b) && |a| == |b| && a + more == b + more'
    ensures t == u
  {
    hide Flat, AllWhole;
    assert a == (a + more)[..|a|] == (b + more')[..|a|] == b;
  }

  lemma SameMessages(t: bytes, a: seq<bytes>, b: seq<bytes>)
    requires Reads(t, a) && Reads(t, b)
    ensures a == b
  {
    hide Flat, AllWhole;
    OneReading(a, b);
  }
}
