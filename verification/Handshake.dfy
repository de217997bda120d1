/**
 The TLS 1.3 handshake between this library's client and server, without ECH:
 both keep a running transcript of the bytes they hash, derive secrets from it
 and check each other's Finished values.  Cryptography enters as functions.
 */
module Handshake {
  import opened Bytes
  import opened Versions
  import opened ClientHello
  import opened Choice
  import opened ServerHello
  import opened Certificate
  import opened Binder

  const TYPE_MESSAGE_HASH: byte := 254
  const TYPE_ENCRYPTED_EXTENSIONS: byte := 8
  const TYPE_CERTIFICATE_REQUEST: byte := 13
  const PSK_MODE_DHE: byte := 1
  const MAX_PSK_IDENTITIES := 5

  const FALLBACK_SCSV: u16 := 0x5600

  const ALERT_UNEXPECTED_MESSAGE: byte := 10
  const ALERT_HANDSHAKE_FAILURE: byte := 40
  const ALERT_ILLEGAL_PARAMETER: byte := 47
  const ALERT_DECODE_ERROR: byte := 50
  const ALERT_INTERNAL_ERROR: byte := 80
  const ALERT_INAPPROPRIATE_FALLBACK: byte := 86
  const ALERT_MISSING_EXTENSION: byte := 109
  const ALERT_UNSUPPORTED_EXTENSION: byte := 110

  const RETRY_RANDOM: bytes :=
    [0xCF, 0x21, 0xAD, 0x74, 0xE5, 0x9A, 0x61, 0x11, 0xBE, 0x1D, 0x8C, 0x02, 0x1E, 0x65, 0xB8, 0x91,
     0xC2, 0xA2, 0x11, 0x16, 0x7A, 0xBB, 0x8C, 0x5E, 0x07, 0x9E, 0x09, 0xE2, 0xC8, 0xA8, 0x33, 0x9C]

  /**
   What a suite fixes: the key schedule, and what is signed.  `derive`,
   `finished` and `signed` take the bytes of the transcript they hash.
   */
  datatype Schedule = Schedule(
    hash: bytes -> bytes,
    early: bytes -> bytes,
    binderKey: bytes -> bytes,
    handshake: (bytes, bytes) -> bytes,
    master: bytes -> bytes,
    derive: (string, bytes, bytes) -> bytes,
    finished: (bytes, bytes) -> bytes,
    signed: (string, bytes) -> bytes)

  /** The schedule of each suite, key agreement per group, and signature checking by the leaf certificate. */
  datatype Crypto = Crypto(
    suite: u16 -> Schedule,
    pub: (u16, bytes) -> bytes,
    agree: (u16, bytes, bytes) -> bytes,
    verify: (bytes, u16, bytes, bytes) -> bool)

  ghost predicate Agreeing(k: Crypto)
  {
    forall g, a, b :: k.agree(g, a, k.pub(g, b)) == k.agree(g, b, k.pub(g, a))
  }

  /** What replaces the first hello in the transcript after a retry. */
  function MessageHash(k: Schedule, t: bytes): bytes
  {
    var h := k.hash(t);
    [TYPE_MESSAGE_HASH, 0, 0, |h| % 0x100] + h
  }

  /** A session the client may resume; `sameHash` tells which suites have the hash of the session's. */
  datatype Resumable = Resumable(secret: bytes, sameHash: u16 -> bool, finished: bytes -> bytes, newAge: u32)

  datatype ClientConfig = ClientConfig(
    session: Option<Resumable>,
    key: u16 -> bytes,
    knowsSuite: u16 -> bool,
    knowsGroup: u16 -> bool,
    acceptsParameters: bytes -> bool,
    trusts: seq<bytes> -> bool,
    accepts: u16 -> bool,
    readRequest: bytes -> Option<(bool, bool)>,
    cert: Cert,
    algorithm: u16,
    sign: bytes -> bytes)

  /**
   `suites` gives the order of preference for a client's list, `belowMax` tells
   that a version above the one in use is supported, and `lookup` finds the
   session of a ticket that may be resumed under a suite.
   */
  datatype ServerConfig = ServerConfig(
    random: bytes,
    key: u16 -> bytes,
    belowMax: bool,
    suites: seq<u16> -> seq<u16>,
    knowsSuite: u16 -> bool,
    groups: seq<u16>,
    negotiates: seq<bytes> -> bool,
    ticketsDisabled: bool,
    lookup: (u16, bytes) -> Option<bytes>,
    parameters: bytes,
    asksCert: bool,
    request: bytes,
    cert: Cert,
    algorithm: u16,
    sign: bytes -> bytes,
    trusts: Cert -> bool,
    accepts: u16 -> bool)

  /** The secrets that depend on the transcript. */
  datatype Secrets = Secrets(clientHs: bytes, serverHs: bytes, master: bytes, clientApp: bytes, serverApp: bytes,
                             exporter: bytes, resumption: bytes)

  const NO_SECRETS := Secrets([], [], [], [], [], [], [])

  function HandshakeSecrets(k: Schedule, psk: bytes, shared: bytes, t: bytes): Secrets
  {
    var hs := k.handshake(k.early(psk), shared);
    NO_SECRETS.(clientHs := k.derive("c hs traffic", hs, t), serverHs := k.derive("s hs traffic", hs, t),
                master := k.master(hs))
  }

  function ApplicationSecrets(k: Schedule, s: Secrets, t: bytes): Secrets
  {
    s.(clientApp := k.derive("c ap traffic", s.master, t), serverApp := k.derive("s ap traffic", s.master, t),
       exporter := k.derive("exp master", s.master, t))
  }

  function ResumptionSecret(k: Schedule, s: Secrets, t: bytes): Secrets
  {
    s.(resumption := k.derive("res master", s.master, t))
  }

  // ----- The client's checks -----

  /** An extension that a TLS 1.3 ServerHello must not carry. */
  predicate Forbidden(sh: ServerHello)
  {
    || sh.ocspStapling || sh.ticketSupported || sh.extendedMasterSecret || sh.renegotiation.Some?
    || sh.alpn != [] || sh.scts != []
  }

  /** What is common to a ServerHello and a HelloRetryRequest; `suite` is zero before the first of them. */
  predicate ServerHelloOk(cfg: ClientConfig, hello: Hello, suite: u16, sh: ServerHello)
  {
    && sh.supportedVersion == VERSION_TLS13 && sh.vers == VERSION_TLS12 && !Forbidden(sh)
    && sh.sessionId == hello.sessionId && sh.compressionMethod == 0
    && sh.cipherSuite in hello.cipherSuites && cfg.knowsSuite(sh.cipherSuite)
    && (suite == 0 || suite == sh.cipherSuite)
  }

  /** The alert for a ServerHello that is refused. */
  function RefusalAlert(sh: ServerHello): byte
  {
    if sh.supportedVersion == 0 then ALERT_MISSING_EXTENSION
    else if sh.supportedVersion == VERSION_TLS13 && sh.vers == VERSION_TLS12 && Forbidden(sh) then
      ALERT_UNSUPPORTED_EXTENSION
    else ALERT_ILLEGAL_PARAMETER
  }

  predicate RetryOk(cfg: ClientConfig, hello: Hello, sh: ServerHello)
  {
    && sh.ech.None? && (sh.group != 0 || sh.cookie != [])
    && !(sh.share.Some? && sh.share.value.group != 0)
    && (sh.group != 0 ==> sh.group in hello.supportedCurves && !HasShare(hello, sh.group) && cfg.knowsGroup(sh.group))
  }

  /** The alert for a retry request that is refused. */
  function RetryAlert(hello: Hello, sh: ServerHello): byte
  {
    if sh.ech.Some? then ALERT_UNSUPPORTED_EXTENSION
    else if (sh.group != 0 || sh.cookie != []) && sh.share.Some? && sh.share.value.group != 0 then ALERT_DECODE_ERROR
    else if sh.group != 0 && sh.group in hello.supportedCurves && !HasShare(hello, sh.group) then ALERT_INTERNAL_ERROR
    else ALERT_ILLEGAL_PARAMETER
  }

  /** The second hello, where `t` is the transcript up to and with the retry request. */
  function RetryHello(k: Crypto, cfg: ClientConfig, hello: Hello, sh: ServerHello, t: bytes): Option<Hello>
  {
    var b := Reshared(k, cfg, hello, sh);
    if b.pskIdentities == [] then Some(b)
    else if cfg.session.None? then None
    else ComputePsk(b, t, cfg.session.value.finished)
  }

  /** The hello with the cookie and the share that the request asks for. */
  function Answered(k: Crypto, cfg: ClientConfig, hello: Hello, sh: ServerHello): Hello
  {
    var a := if sh.cookie != [] then hello.(cookie := sh.cookie) else hello;
    if sh.group != 0 then a.(keyShares := [KeyShare(sh.group, k.pub(sh.group, cfg.key(sh.group)))]) else a
  }

  /** The second hello before its binder is computed; a session of another hash is no longer offered. */
  function Reshared(k: Crypto, cfg: ClientConfig, hello: Hello, sh: ServerHello): Hello
  {
    var b := Answered(k, cfg, hello, sh);
    if b.pskIdentities == [] || cfg.session.None? then b
    else if !cfg.session.value.sameHash(sh.cipherSuite) then b.(pskIdentities := [], pskBinders := [])
    else b.(pskIdentities := b.pskIdentities[0 := b.pskIdentities[0].(age := cfg.session.value.newAge)])
  }

  /**
   What a client answers to a retry request that it follows: its first hello with the cookie, if there is one, with
   one share instead of the others if a group is asked for, which the client supports and had sent no share for, and
   with its session offer renewed or dropped.  A request that would change nothing is not followed.
   */
  lemma RetryChanges(k: Crypto, cfg: ClientConfig, hello: Hello, sh: ServerHello, t: bytes)
    requires RetryOk(cfg, hello, sh) && RetryHello(k, cfg, hello, sh, t).Some?
    ensures var h := RetryHello(k, cfg, hello, sh, t).value;
            && h == hello.(cookie := h.cookie, keyShares := h.keyShares, pskIdentities := h.pskIdentities,
                           pskBinders := h.pskBinders)
            && h.cookie == (if sh.cookie != [] then sh.cookie else hello.cookie)
            && (if sh.group == 0 then sh.cookie != [] && h.keyShares == hello.keyShares
                else && h.keyShares == [KeyShare(sh.group, k.pub(sh.group, cfg.key(sh.group)))]
                     && sh.group in hello.supportedCurves
                     && forall i :: 0 <= i < |hello.keyShares| ==> hello.keyShares[i].group != sh.group)
            && |h.pskIdentities| in {0, |hello.pskIdentities|}
            && (forall i :: 0 <= i < |h.pskIdentities| ==> h.pskIdentities[i].name == hello.pskIdentities[i].name)
  {
    hide WithoutBinders, Answered, RetryOk, ComputePsk, HasShare;
    var b := Reshared(k, cfg, hello, sh);
    AnsweredChanges(k, cfg, hello, sh);
    ResharedChanges(k, cfg, hello, sh);
    if b.pskIdentities != [] && cfg.session.Some? {
      BinderOnly(b, t, cfg.session.value.finished);
    }
  }

  lemma BinderOnly(h: Hello, t: bytes, finished: bytes -> bytes)
    ensures ComputePsk(h, t, finished).Some? ==>
              ComputePsk(h, t, finished).value == h.(pskBinders := ComputePsk(h, t, finished).value.pskBinders)
  {
    hide WithoutBinders;
  }

  lemma AnsweredChanges(k: Crypto, cfg: ClientConfig, hello: Hello, sh: ServerHello)
    requires RetryOk(cfg, hello, sh)
    ensures var a := Answered(k, cfg, hello, sh);
            && a == hello.(cookie := a.cookie, keyShares := a.keyShares)
            && a.cookie == (if sh.cookie != [] then sh.cookie else hello.cookie)
            && (if sh.group == 0 then sh.cookie != [] && a.keyShares == hello.keyShares
                else && a.keyShares == [KeyShare(sh.group, k.pub(sh.group, cfg.key(sh.group)))]
                     && sh.group in hello.supportedCurves
                     && forall i :: 0 <= i < |hello.keyShares| ==> hello.keyShares[i].group != sh.group)
  {
    var b := if sh.cookie != [] then hello.(cookie := sh.cookie) else hello;
    assert b == hello.(cookie := b.cookie);
    var a := Answered(k, cfg, hello, sh);
    assert a == b.(keyShares := a.keyShares);
  }

  lemma ResharedChanges(k: Crypto, cfg: ClientConfig, hello: Hello, sh: ServerHello)
    ensures var a, b := Answered(k, cfg, hello, sh), Reshared(k, cfg, hello, sh);
            && b == a.(pskIdentities := b.pskIdentities, pskBinders := b.pskBinders)
            && |b.pskIdentities| in {0, |a.pskIdentities|}
            && forall i :: 0 <= i < |b.pskIdentities| ==> b.pskIdentities[i].name == a.pskIdentities[i].name
  {
    hide Answered;
    var a, b := Answered(k, cfg, hello, sh), Reshared(k, cfg, hello, sh);
    if b.pskIdentities == [] || b == a {
      assert b == a || b == a.(pskIdentities := [], pskBinders := []);
    } else {
      assert b == a.(pskIdentities := b.pskIdentities);
    }
  }

  /** The server's choice fits the offer. */
  predicate ChoiceOk(cfg: ClientConfig, hello: Hello, sh: ServerHello)
  {
    && sh.random != RETRY_RANDOM && sh.cookie == [] && sh.group == 0 && ShareOffered(hello, sh)
    && (sh.identity.Some? ==>
          && sh.identity.value < |hello.pskIdentities| && |hello.pskIdentities| == 1
          && cfg.session.Some? && cfg.session.value.sameHash(sh.cipherSuite))
  }

  predicate ShareOffered(hello: Hello, sh: ServerHello)
  {
    sh.share.Some? && sh.share.value.group != 0 && HasShare(hello, sh.share.value.group)
  }

  /** The alert for a choice that is refused. */
  function ChoiceAlert(cfg: ClientConfig, hello: Hello, sh: ServerHello): byte
  {
    if sh.random == RETRY_RANDOM then ALERT_UNEXPECTED_MESSAGE
    else if sh.cookie != [] then ALERT_UNSUPPORTED_EXTENSION
    else if sh.group != 0 then ALERT_DECODE_ERROR
    else if ShareOffered(hello, sh) && sh.identity.Some? && sh.identity.value < |hello.pskIdentities|
            && (|hello.pskIdentities| != 1 || cfg.session.None?) then ALERT_INTERNAL_ERROR
    else ALERT_ILLEGAL_PARAMETER
  }

  /** Whether there is a share for the group. */
  method FindShare(hello: Hello, group: u16) returns (found: bool)
    ensures found <==> HasShare(hello, group)
  {
    for i := 0 to |hello.keyShares|
      invariant forall j :: 0 <= j < i ==> hello.keyShares[j].group != group
    {
      if hello.keyShares[i].group == group {
        return true;
      }
    }
    return false;
  }

  // ----- The client -----

  class Client {
    const k: Crypto
    const cfg: ClientConfig
    var hello: Hello
    var suite: u16
    var usingPsk: bool
    var shared: bytes
    var request: Option<(bool, bool)>
    var peer: seq<bytes>
    var transcript: bytes
    var secrets: Secrets
    /** The messages sent and those accepted, in order. */
    ghost var sent: seq<bytes>
    ghost var accepted: seq<bytes>

    constructor (k: Crypto, cfg: ClientConfig, hello: Hello)
      ensures this.k == k && this.cfg == cfg && this.hello == hello
      ensures suite == 0 && !usingPsk && request.None? && peer == [] && transcript == [] && secrets == NO_SECRETS
      ensures sent == [] && accepted == []
    {
      this.k, this.cfg, this.hello := k, cfg, hello;
      suite, usingPsk, shared, request, peer, transcript, secrets := 0, false, [], None, [], [], NO_SECRETS;
      sent, accepted := [], [];
    }

    /** The schedule of the suite in use. */
    function Keys(): Schedule
      reads this
    {
      k.suite(suite)
    }

    /** Fills in the binder, if a session is offered, and sends the hello. */
    method Start() returns (message: Option<bytes>)
      requires hello.original.None?
      modifies this`hello, this`sent
      ensures message.Some? ==> Offered(cfg, old(hello)) == Some(hello) && message == Marshal(hello)
      ensures message.None? <==> Offered(cfg, old(hello)).None? || Marshal(Offered(cfg, old(hello)).value).None?
      ensures sent == old(sent) + if message.Some? then [message.value] else []
    {
      hide Marshal, WithoutBinders;
      if hello.pskIdentities != [] && cfg.session.Some? {
        var h := ComputePsk(hello, [], cfg.session.value.finished);
        if h.None? {
          return None;
        }
        hello := h.value;
      }
      message := Marshal(hello);
      if message.Some? {
        sent := sent + [message.value];
      }
    }

    /**
     Checks a ServerHello or HelloRetryRequest.  The first one accepted fixes a
     suite that was offered, and every later one must name the same.
     */
    method CheckServerHello(sh: ServerHello) returns (alert: Option<byte>)
      modifies this`suite
      ensures alert.None? <==> ServerHelloOk(cfg, hello, old(suite), sh)
      ensures alert.None? ==> && suite == sh.cipherSuite && suite in hello.cipherSuites && cfg.knowsSuite(suite)
                              && (old(suite) != 0 ==> suite == old(suite))
      ensures alert.Some? ==> suite == old(suite) && alert.value == RefusalAlert(sh)
    {
      if sh.supportedVersion == 0 {
        return Some(ALERT_MISSING_EXTENSION);
      }
      if sh.supportedVersion != VERSION_TLS13 {
        return Some(ALERT_ILLEGAL_PARAMETER);
      }
      if sh.vers != VERSION_TLS12 {
        return Some(ALERT_ILLEGAL_PARAMETER);
      }
      if sh.ocspStapling || sh.ticketSupported || sh.extendedMasterSecret || sh.renegotiation.Some? ||
         |sh.alpn| != 0 || |sh.scts| != 0 {
        return Some(ALERT_UNSUPPORTED_EXTENSION);
      }
      if sh.sessionId != hello.sessionId {
        return Some(ALERT_ILLEGAL_PARAMETER);
      }
      if sh.compressionMethod != 0 {
        return Some(ALERT_ILLEGAL_PARAMETER);
      }
      var mutual := MutualSuite(hello.cipherSuites, cfg.knowsSuite, sh.cipherSuite);
      if suite != 0 && (!mutual || sh.cipherSuite != suite) {
        return Some(ALERT_ILLEGAL_PARAMETER);
      }
      if !mutual {
        return Some(ALERT_ILLEGAL_PARAMETER);
      }
      suite := sh.cipherSuite;
      return None;
    }

    /** The transcript starts with the hello, once the suite and so the hash are known. */
    method StartTranscript()
      requires Marshal(hello).Some?
      modifies this`transcript
      ensures transcript == Marshal(hello).value
    {
      hide Marshal;
      transcript := Marshal(hello).value;
    }

    /** The checks on a retry request. */
    method CheckRetry(sh: ServerHello) returns (alert: Option<byte>)
      ensures alert == if RetryOk(cfg, hello, sh) then None else Some(RetryAlert(hello, sh))
    {
      hide HasShare;
      if sh.ech.Some? {
        return Some(ALERT_UNSUPPORTED_EXTENSION);
      }
      if sh.group == 0 && |sh.cookie| == 0 {
        return Some(ALERT_ILLEGAL_PARAMETER);
      }
      if sh.share.Some? && sh.share.value.group != 0 {
        return Some(ALERT_DECODE_ERROR);
      }
      if sh.group != 0 {
        if sh.group !in hello.supportedCurves {
          return Some(ALERT_ILLEGAL_PARAMETER);
        }
        var known := FindShare(hello, sh.group);
        if known {
          return Some(ALERT_ILLEGAL_PARAMETER);
        }
        if !cfg.knowsGroup(sh.group) {
          return Some(ALERT_INTERNAL_ERROR);
        }
      }
      return None;
    }

    method TakeShare(sh: ServerHello) returns (h: Hello)
      ensures h == Answered(k, cfg, hello, sh)
    {
      h := hello;
      if |sh.cookie| != 0 {
        h := h.(cookie := sh.cookie);
      }
      if sh.group != 0 {
        h := h.(keyShares := [KeyShare(sh.group, k.pub(sh.group, cfg.key(sh.group)))]);
      }
    }

    /** The second hello; its binder is computed over the transcript up to the request. */
    method BuildRetry(sh: ServerHello) returns (second: Option<Hello>)
      requires sh.cipherSuite == suite
      ensures second == RetryHello(k, cfg, hello, sh, transcript)
    {
      hide ComputePsk, Answered;
      var h := TakeShare(sh);
      if |h.pskIdentities| > 0 {
        if cfg.session.None? {
          return None;
        }
        if cfg.session.value.sameHash(suite) {
          h := h.(pskIdentities := h.pskIdentities[0 := h.pskIdentities[0].(age := cfg.session.value.newAge)]);
          var bound := ComputePsk(h, transcript, cfg.session.value.finished);
          if bound.None? {
            return None;
          }
          h := bound.value;
        } else {
          h := h.(pskIdentities := [], pskBinders := []);
        }
      }
      return Some(h);
    }

    /**
     Replaces the first hello in the transcript and sends a second one, when the
     request is in order and the hello can be written.  The offer of early data is
     withdrawn after the binder has been computed.
     */
    method ProcessRetry(sh: ServerHello, raw: bytes) returns (message: Option<bytes>, alert: Option<byte>)
      requires sh.original == Some(raw) && sh.cipherSuite == suite && ServerHelloOk(cfg, hello, suite, sh)
      modifies this`hello, this`transcript, this`sent, this`accepted
      ensures alert == if RetryOk(cfg, old(hello), sh) then None else Some(RetryAlert(old(hello), sh))
      ensures var t := MessageHash(Keys(), old(transcript)) + raw;
              var h := RetryHello(k, cfg, old(hello), sh, t);
              && (message.Some? <==> alert.None? && h.Some? && Marshal(h.value.(earlyData := false)).Some?)
              && (message.Some? ==> hello == h.value.(earlyData := false) && message == Marshal(hello)
                                    && transcript == t + Marshal(hello).value)
      ensures sent == old(sent) + if message.Some? then [message.value] else []
      ensures accepted == old(accepted) + if message.Some? then [raw] else []
    {
      hide Marshal, RetryHello, RetryOk, RetryAlert;
      message := None;
      transcript := MessageHash(Keys(), transcript);
      transcript := transcript + raw;
      alert := CheckRetry(sh);
      if alert.Some? {
        return;
      }
      var h := BuildRetry(sh);
      if h.None? {
        return;
      }
      hello := h.value.(earlyData := false);
      message := Marshal(hello);
      if message.Some? {
        transcript := transcript + message.value;
        sent, accepted := sent + [message.value], accepted + [raw];
      }
    }

    /** The checks on the server's choice. */
    method CheckChoice(sh: ServerHello) returns (alert: Option<byte>)
      requires sh.cipherSuite == suite
      ensures alert == if ChoiceOk(cfg, hello, sh) then None else Some(ChoiceAlert(cfg, hello, sh))
    {
      hide HasShare;
      if sh.random == RETRY_RANDOM {
        return Some(ALERT_UNEXPECTED_MESSAGE);
      }
      if |sh.cookie| != 0 {
        return Some(ALERT_UNSUPPORTED_EXTENSION);
      }
      if sh.group != 0 {
        return Some(ALERT_DECODE_ERROR);
      }
      if sh.share.None? || sh.share.value.group == 0 {
        return Some(ALERT_ILLEGAL_PARAMETER);
      }
      var offered := FindShare(hello, sh.share.value.group);
      if !offered {
        return Some(ALERT_ILLEGAL_PARAMETER);
      }
      if sh.identity.None? {
        return None;
      }
      if sh.identity.value >= |hello.pskIdentities| {
        return Some(ALERT_ILLEGAL_PARAMETER);
      }
      if |hello.pskIdentities| != 1 || cfg.session.None? {
        return Some(ALERT_INTERNAL_ERROR);
      }
      if !cfg.session.value.sameHash(suite) {
        return Some(ALERT_ILLEGAL_PARAMETER);
      }
      return None;
    }

    /** Takes the server's choice and derives the handshake keys. */
    method ProcessServerHello(sh: ServerHello, raw: bytes) returns (alert: Option<byte>)
      requires sh.original == Some(raw) && sh.cipherSuite == suite && ServerHelloOk(cfg, hello, suite, sh)
      modifies this`usingPsk, this`shared, this`transcript, this`secrets, this`accepted
      ensures alert == if ChoiceOk(cfg, hello, sh) then None else Some(ChoiceAlert(cfg, hello, sh))
      ensures alert.None? ==>
                && transcript == old(transcript) + raw && usingPsk == sh.identity.Some?
                && shared == k.agree(sh.share.value.group, cfg.key(sh.share.value.group), sh.share.value.data)
                && secrets == ClientSecrets(k, cfg, sh, transcript)
      ensures accepted == old(accepted) + if alert.None? then [raw] else []
    {
      hide ChoiceAlert, HasShare;
      transcript := transcript + raw;
      alert := CheckChoice(sh);
      if alert.Some? {
        return;
      }
      usingPsk := sh.identity.Some?;
      var g := sh.share.value.group;
      shared := k.agree(g, cfg.key(g), sh.share.value.data);
      secrets := HandshakeSecrets(Keys(), if usingPsk then cfg.session.value.secret else [], shared, transcript);
      accepted := accepted + [raw];
    }

    method ReadServerParameters(raw: bytes) returns (ok: bool)
      modifies this`transcript, this`accepted
      ensures ok == (raw != [] && raw[0] == TYPE_ENCRYPTED_EXTENSIONS && cfg.acceptsParameters(raw))
      ensures ok ==> transcript == old(transcript) + raw
      ensures accepted == old(accepted) + if ok then [raw] else []
    {
      if |raw| == 0 || raw[0] != TYPE_ENCRYPTED_EXTENSIONS || !cfg.acceptsParameters(raw) {
        return false;
      }
      transcript := transcript + raw;
      accepted := accepted + [raw];
      return true;
    }

    /** A certificate request enters the transcript as it was received. */
    method ReadCertificateRequest(raw: bytes) returns (ok: bool)
      modifies this`request, this`transcript, this`accepted
      ensures ok == (raw != [] && raw[0] == TYPE_CERTIFICATE_REQUEST && cfg.readRequest(raw).Some?)
      ensures ok ==> request == cfg.readRequest(raw) && transcript == old(transcript) + raw
      ensures !ok ==> request == old(request) && transcript == old(transcript)
      ensures accepted == old(accepted) + if ok then [raw] else []
    {
      if |raw| == 0 || raw[0] != TYPE_CERTIFICATE_REQUEST || cfg.readRequest(raw).None? {
        return false;
      }
      request := cfg.readRequest(raw);
      transcript := transcript + raw;
      accepted := accepted + [raw];
      return true;
    }

    /** A certificate enters the transcript as it is written again. */
    method ReadServerCertificate(raw: bytes) returns (ok: bool)
      modifies this`peer, this`transcript, this`accepted
      ensures ok == CertificateTaken(cfg.trusts, raw)
      ensures ok ==> var m := UnmarshalCertificate(raw).value;
                     peer == m.cert.chain && transcript == old(transcript) + MarshalCertificate(m).value
      ensures accepted == old(accepted) + if ok then [raw] else []
    {
      hide UnmarshalCertificate, MarshalCertificate;
      if |raw| == 0 || raw[0] != TYPE_CERTIFICATE {
        return false;
      }
      var m := UnmarshalCertificate(raw);
      if m.None? || |m.value.cert.chain| == 0 {
        return false;
      }
      var again := MarshalCertificate(m.value);
      if again.None? {
        return false;
      }
      transcript := transcript + again.value;
      if !cfg.trusts(m.value.cert.chain) {
        return false;
      }
      peer := m.value.cert.chain;
      accepted := accepted + [raw];
      return true;
    }

    method ReadServerVerify(raw: bytes) returns (ok: bool)
      requires peer != []
      modifies this`transcript, this`accepted
      ensures ok == VerifyTaken(k, Keys(), cfg.accepts, "server", peer[0], old(transcript), raw)
      ensures ok ==> transcript == old(transcript) + MarshalVerify(UnmarshalVerify(raw).value).value
      ensures accepted == old(accepted) + if ok then [raw] else []
    {
      hide UnmarshalVerify, MarshalVerify;
      ok, transcript := TakeVerify(k, Keys(), cfg.accepts, "server", peer[0], transcript, raw);
      if ok {
        accepted := accepted + [raw];
      }
    }

    /** Checks the server's Finished value against the transcript before it, then derives the application keys. */
    method ReadServerFinished(raw: bytes) returns (ok: bool)
      modifies this`transcript, this`secrets, this`accepted
      ensures ok == FinishedTaken(Keys().finished(old(secrets).serverHs, old(transcript)), raw)
      ensures ok ==>
                && transcript == old(transcript) + MarshalFinished(UnmarshalFinished(raw).value).value
                && secrets == ApplicationSecrets(Keys(), old(secrets), transcript)
      ensures accepted == old(accepted) + if ok then [raw] else []
    {
      hide UnmarshalFinished, MarshalFinished;
      if !FinishedTaken(Keys().finished(secrets.serverHs, transcript), raw) {
        return false;
      }
      transcript := transcript + MarshalFinished(UnmarshalFinished(raw).value).value;
      secrets := ApplicationSecrets(Keys(), secrets, transcript);
      accepted := accepted + [raw];
      return true;
    }

    /** The certificate message that answers a request. */
    method SendCertificate() returns (message: Option<bytes>)
      requires request.Some?
      modifies this`transcript, this`sent
      ensures message == MarshalCertificate(Answer(cfg.cert, request.value.0, request.value.1))
      ensures message.Some? ==> transcript == old(transcript) + message.value
      ensures sent == old(sent) + if message.Some? then [message.value] else []
    {
      hide MarshalCertificate;
      message := MarshalCertificate(Answer(cfg.cert, request.value.0, request.value.1));
      if message.Some? {
        transcript := transcript + message.value;
        sent := sent + [message.value];
      }
    }

    method SendVerify() returns (message: Option<bytes>)
      modifies this`transcript, this`sent
      ensures message == MarshalVerify(VerifyMsg(cfg.algorithm, cfg.sign(Keys().signed("client", old(transcript)))))
      ensures message.Some? ==> transcript == old(transcript) + message.value
      ensures sent == old(sent) + if message.Some? then [message.value] else []
    {
      hide MarshalVerify;
      message := MarshalVerify(VerifyMsg(cfg.algorithm, cfg.sign(Keys().signed("client", transcript))));
      if message.Some? {
        transcript := transcript + message.value;
        sent := sent + [message.value];
      }
    }

    method SendFinished() returns (message: Option<bytes>)
      modifies this`transcript, this`secrets, this`sent
      ensures message == MarshalFinished(Keys().finished(old(secrets).clientHs, old(transcript)))
      ensures message.Some? ==> transcript == old(transcript) + message.value
                                && secrets == ResumptionSecret(Keys(), old(secrets), transcript)
      ensures sent == old(sent) + if message.Some? then [message.value] else []
    {
      hide MarshalFinished;
      message := MarshalFinished(Keys().finished(secrets.clientHs, transcript));
      if message.Some? {
        transcript := transcript + message.value;
        sent := sent + [message.value];
        secrets := ResumptionSecret(Keys(), secrets, transcript);
      }
    }
  }

  /** What the client derives from the server's choice. */
  function ClientSecrets(k: Crypto, cfg: ClientConfig, sh: ServerHello, t: bytes): Secrets
    requires sh.share.Some? && (sh.identity.Some? ==> cfg.session.Some?)
  {
    var g := sh.share.value.group;
    HandshakeSecrets(k.suite(sh.cipherSuite), if sh.identity.Some? then cfg.session.value.secret else [],
                     k.agree(g, cfg.key(g), sh.share.value.data), t)
  }

  /** The first hello with its binder filled in. */
  function Offered(cfg: ClientConfig, hello: Hello): Option<Hello>
  {
    if hello.pskIdentities != [] && cfg.session.Some? then ComputePsk(hello, [], cfg.session.value.finished)
    else Some(hello)
  }

  /** The certificate sent in answer to a peer that understands staples or timestamps. */
  function Answer(cert: Cert, staples: bool, scts: bool): CertificateMsg
  {
    CertificateMsg(cert, staples && cert.staple.Some? && cert.staple.value != [],
                   scts && cert.scts.Some? && cert.scts.value != [])
  }

  predicate CertificateTaken(trusts: seq<bytes> -> bool, raw: bytes)
  {
    && raw != [] && raw[0] == TYPE_CERTIFICATE
    && var m := UnmarshalCertificate(raw);
       m.Some? && m.value.cert.chain != [] && MarshalCertificate(m.value).Some? && trusts(m.value.cert.chain)
  }

  predicate VerifyTaken(k: Crypto, s: Schedule, accepts: u16 -> bool, role: string, leaf: bytes, t: bytes, raw: bytes)
  {
    && raw != [] && raw[0] == TYPE_CERTIFICATE_VERIFY
    && var m := UnmarshalVerify(raw);
       m.Some? && accepts(m.value.algorithm) && k.verify(leaf, m.value.algorithm, s.signed(role, t), m.value.signature)
       && MarshalVerify(m.value).Some?
  }

  /** The signature is checked over the transcript before the message, which then enters it. */
  method TakeVerify(k: Crypto, s: Schedule, accepts: u16 -> bool, role: string, leaf: bytes, t: bytes, raw: bytes)
    returns (ok: bool, after: bytes)
    ensures ok == VerifyTaken(k, s, accepts, role, leaf, t, raw)
    ensures after == if ok then t + MarshalVerify(UnmarshalVerify(raw).value).value else t
  {
    hide UnmarshalVerify, MarshalVerify;
    after := t;
    if |raw| == 0 || raw[0] != TYPE_CERTIFICATE_VERIFY {
      return false, after;
    }
    var m := UnmarshalVerify(raw);
    if m.None? || !accepts(m.value.algorithm) {
      return false, after;
    }
    if !k.verify(leaf, m.value.algorithm, s.signed(role, t), m.value.signature) {
      return false, after;
    }
    var again := MarshalVerify(m.value);
    if again.None? {
      return false, after;
    }
    return true, t + again.value;
  }

  predicate FinishedTaken(expected: bytes, raw: bytes)
  {
    && raw != [] && raw[0] == TYPE_FINISHED
    && UnmarshalFinished(raw) == Some(expected) && MarshalFinished(expected).Some?
  }

  // ----- The server's checks -----

  function SuiteFor(cfg: ServerConfig, h: Hello): Option<u16>
  {
    PickSuite(cfg.suites(h.cipherSuites), cfg.knowsSuite, h.cipherSuites)
  }

  function GroupFor(cfg: ServerConfig, h: Hello): Option<u16>
  {
    PickGroup(cfg.groups, h)
  }

  predicate FallsBack(cfg: ServerConfig, h: Hello)
  {
    FALLBACK_SCSV in h.cipherSuites && cfg.belowMax
  }

  /** What the server demands of a first hello. */
  predicate ClientHelloOk(cfg: ServerConfig, h: Hello)
  {
    && h.supportedVersions != [] && !FallsBack(cfg, h) && h.compressionMethods == [0] && h.secureRenegotiation == []
    && !h.earlyData && SuiteFor(cfg, h).Some? && GroupFor(cfg, h).Some?
  }

  /** The alert for a hello that is refused. */
  function HelloAlert(cfg: ServerConfig, h: Hello): byte
  {
    if h.supportedVersions == [] then ALERT_ILLEGAL_PARAMETER
    else if FallsBack(cfg, h) then ALERT_INAPPROPRIATE_FALLBACK
    else if h.compressionMethods != [0] then ALERT_ILLEGAL_PARAMETER
    else if h.secureRenegotiation == [] && h.earlyData then ALERT_UNSUPPORTED_EXTENSION
    else ALERT_HANDSHAKE_FAILURE
  }

  /** The parsed hello, when the message is one. */
  function ReadHello(raw: bytes): Option<Hello>
  {
    if raw == [] || raw[0] != TYPE_CLIENT_HELLO then None else Unmarshal(raw)
  }

  /** What it demands once the key share is settled. */
  predicate NegotiatesOk(cfg: ServerConfig, h: Hello)
  {
    cfg.negotiates(h.alpnProtocols) && h.quicTransportParameters.None?
  }

  /** The first share for a group. */
  function ShareFor(ks: seq<KeyShare>, group: u16): Option<bytes>
  {
    if ks == [] then None else if ks[0].group == group then Some(ks[0].data) else ShareFor(ks[1..], group)
  }

  /** The two hellos differ in more than a retry allows. */
  predicate IllegalChange(ch: Hello, ch1: Hello)
  {
    || ch.supportedVersions != ch1.supportedVersions || ch.cipherSuites != ch1.cipherSuites
    || ch.supportedCurves != ch1.supportedCurves || ch.sigAlgs != ch1.sigAlgs || ch.sigAlgsCert != ch1.sigAlgsCert
    || ch.alpnProtocols != ch1.alpnProtocols || ch.vers != ch1.vers || ch.random != ch1.random
    || ch.sessionId != ch1.sessionId || ch.compressionMethods != ch1.compressionMethods
    || ch.serverName != ch1.serverName || ch.ocspStapling != ch1.ocspStapling
    || ch.supportedPoints != ch1.supportedPoints || ch.ticketSupported != ch1.ticketSupported
    || ch.sessionTicket != ch1.sessionTicket
    || ch.secureRenegotiationSupported != ch1.secureRenegotiationSupported
    || ch.secureRenegotiation != ch1.secureRenegotiation || ch.scts != ch1.scts
    || ch.cookie != ch1.cookie || ch.pskModes != ch1.pskModes
  }

  /** A legal second hello is the first one but for its shares, binders, early data and what TLS 1.3 does not use. */
  lemma LegalChanges(ch: Hello, ch1: Hello)
    ensures !IllegalChange(ch, ch1) <==>
            ch == ch1.(original := ch.original, extendedMasterSecret := ch.extendedMasterSecret,
                       keyShares := ch.keyShares, earlyData := ch.earlyData, pskIdentities := ch.pskIdentities,
                       pskBinders := ch.pskBinders, quicTransportParameters := ch.quicTransportParameters,
                       encryptedClientHello := ch.encryptedClientHello, extensions := ch.extensions)
  {
    var n := ch1.(original := ch.original, extendedMasterSecret := ch.extendedMasterSecret,
                  keyShares := ch.keyShares, earlyData := ch.earlyData, pskIdentities := ch.pskIdentities,
                  pskBinders := ch.pskBinders, quicTransportParameters := ch.quicTransportParameters,
                  encryptedClientHello := ch.encryptedClientHello, extensions := ch.extensions);
    assert ch == n <==> !IllegalChange(ch, ch1);
  }

  predicate SecondHelloOk(h: Hello, first: Hello, group: u16)
  {
    |h.keyShares| == 1 && h.keyShares[0].group == group && !h.earlyData && !IllegalChange(h, first)
  }

  method SameList<T(==)>(a: seq<T>, b: seq<T>) returns (same: bool)
    ensures same <==> a == b
  {
    if |a| != |b| {
      return false;
    }
    for i := 0 to |a|
      invariant a[..i] == b[..i]
    {
      if a[i] != b[i] {
        return false;
      }
    }
    assert a[..|a|] == a && b[..|b|] == b;
    return true;
  }

  /** Compares the lists one after the other, then the other fields. */
  method ChangedIllegally(ch: Hello, ch1: Hello) returns (changed: bool)
    ensures changed <==> IllegalChange(ch, ch1)
  {
    var versions := SameList(ch.supportedVersions, ch1.supportedVersions);
    var suites := SameList(ch.cipherSuites, ch1.cipherSuites);
    var curves := SameList(ch.supportedCurves, ch1.supportedCurves);
    var algorithms := SameList(ch.sigAlgs, ch1.sigAlgs);
    var certAlgorithms := SameList(ch.sigAlgsCert, ch1.sigAlgsCert);
    var protocols := SameList(ch.alpnProtocols, ch1.alpnProtocols);
    if !versions || !suites || !curves || !algorithms || !certAlgorithms || !protocols {
      return true;
    }
    return ch.vers != ch1.vers || ch.random != ch1.random || ch.sessionId != ch1.sessionId ||
           ch.compressionMethods != ch1.compressionMethods || ch.serverName != ch1.serverName ||
           ch.ocspStapling != ch1.ocspStapling || ch.supportedPoints != ch1.supportedPoints ||
           ch.ticketSupported != ch1.ticketSupported || ch.sessionTicket != ch1.sessionTicket ||
           ch.secureRenegotiationSupported != ch1.secureRenegotiationSupported ||
           ch.secureRenegotiation != ch1.secureRenegotiation || ch.scts != ch1.scts ||
           ch.cookie != ch1.cookie || ch.pskModes != ch1.pskModes;
  }

  datatype Resumption = NoPsk | Resumed(index: u16, secret: bytes) | BadBinder

  /** The first identity from `i` on that names a usable session; its binder must be right. */
  function Resume(k: Schedule, cfg: ServerConfig, suite: u16, h: Hello, t: bytes, i: nat): Resumption
    requires |h.pskIdentities| == |h.pskBinders|
    decreases |h.pskIdentities| - i
  {
    if i >= |h.pskIdentities| || i >= MAX_PSK_IDENTITIES then NoPsk else
    var secret := cfg.lookup(suite, h.pskIdentities[i].name);
    if secret.None? then Resume(k, cfg, suite, h, t, i + 1) else
    var cut := WithoutBinders(h);
    if cut.None? || k.finished(k.binderKey(k.early(secret.value)), t + cut.value) != h.pskBinders[i] then BadBinder
    else Resumed(i, secret.value)
  }

  /** The whole decision about resumption. */
  function Decide(k: Schedule, cfg: ServerConfig, suite: u16, h: Hello, t: bytes): Resumption
  {
    if cfg.ticketsDisabled || PSK_MODE_DHE !in h.pskModes then NoPsk
    else if |h.pskIdentities| != |h.pskBinders| then BadBinder
    else Resume(k, cfg, suite, h, t, 0)
  }

  lemma {:induction false} ResumeFinds(k: Schedule, cfg: ServerConfig, suite: u16, h: Hello, t: bytes, i: nat)
    requires |h.pskIdentities| == |h.pskBinders|
    ensures var r := Resume(k, cfg, suite, h, t, i);
            && (r.NoPsk? <==> forall j :: i <= j < |h.pskIdentities| && j < MAX_PSK_IDENTITIES ==>
                                            cfg.lookup(suite, h.pskIdentities[j].name).None?)
            && (r.Resumed? ==>
                  && i <= r.index < |h.pskIdentities| && r.index < MAX_PSK_IDENTITIES
                  && Bears(k, cfg, suite, h, t, r.index, r.secret)
                  && forall j :: i <= j < r.index ==> cfg.lookup(suite, h.pskIdentities[j].name).None?)
            && (forall j, secret ::
                  && i <= j < |h.pskIdentities| && j < MAX_PSK_IDENTITIES && Bears(k, cfg, suite, h, t, j, secret)
                  && (forall l :: i <= l < j ==> cfg.lookup(suite, h.pskIdentities[l].name).None?) ==>
                    r == Resumed(j, secret))
    decreases |h.pskIdentities| - i
  {
    hide WithoutBinders;
    if i < |h.pskIdentities| && i < MAX_PSK_IDENTITIES {
      ResumeFinds(k, cfg, suite, h, t, i + 1);
    }
  }

  /** The ticket of identity `i` names the session of `secret`, and its binder is made from that secret. */
  predicate Bears(k: Schedule, cfg: ServerConfig, suite: u16, h: Hello, t: bytes, i: nat, secret: bytes)
    requires i < |h.pskIdentities| == |h.pskBinders|
  {
    && cfg.lookup(suite, h.pskIdentities[i].name) == Some(secret) && WithoutBinders(h).Some?
    && h.pskBinders[i] == k.finished(k.binderKey(k.early(secret)), t + WithoutBinders(h).value)
  }

  /**
   A session is resumed exactly when it is that of the first known ticket among the first five, and whoever sent
   the hello has made the binder from its secret, over the transcript so far and the hello up to the binders.
   */
  lemma ResumedIsBound(k: Schedule, cfg: ServerConfig, suite: u16, h: Hello, t: bytes, i: u16, secret: bytes)
    ensures Decide(k, cfg, suite, h, t) == Resumed(i, secret) <==>
            && !cfg.ticketsDisabled && PSK_MODE_DHE in h.pskModes && i < |h.pskIdentities| == |h.pskBinders|
            && i < MAX_PSK_IDENTITIES && Bears(k, cfg, suite, h, t, i, secret)
            && forall j :: 0 <= j < i ==> cfg.lookup(suite, h.pskIdentities[j].name).None?
  {
    hide WithoutBinders, Resume, Bears;
    if |h.pskIdentities| == |h.pskBinders| {
      ResumeFinds(k, cfg, suite, h, t, 0);
      var r := Resume(k, cfg, suite, h, t, 0);
      if r == Resumed(i, secret) {
        assert Bears(k, cfg, suite, h, t, i, secret);
      }
    }
  }

  function BaseHello(cfg: ServerConfig, h: Hello, suite: u16): ServerHello
  {
    BLANK.(vers := VERSION_TLS12, supportedVersion := VERSION_TLS13, random := cfg.random, sessionId := h.sessionId,
           cipherSuite := suite)
  }

  function RetryRequest(base: ServerHello, group: u16): ServerHello
  {
    base.(random := RETRY_RANDOM, group := group)
  }

  // ----- The server -----

  class Server {
    const k: Crypto
    const cfg: ServerConfig
    var clientHello: Hello
    var sh: ServerHello
    var group: u16
    var psk: Option<bytes>
    var shared: bytes
    var peer: seq<bytes>
    var transcript: bytes
    var secrets: Secrets
    var clientFinished: bytes
    ghost var sent: seq<bytes>
    ghost var accepted: seq<bytes>

    constructor (k: Crypto, cfg: ServerConfig)
      ensures this.k == k && this.cfg == cfg && psk.None? && peer == [] && transcript == [] && secrets == NO_SECRETS
      ensures sent == [] && accepted == []
    {
      this.k, this.cfg := k, cfg;
      clientHello, sh, group, psk, shared := FRESH, BLANK, 0, None, [];
      peer, transcript, secrets, clientFinished := [], [], NO_SECRETS, [];
      sent, accepted := [], [];
    }

    /** The schedule of the suite in use. */
    function Keys(): Schedule
      reads this
    {
      k.suite(sh.cipherSuite)
    }

    /** Checks the first hello in the source's order, and settles suite and group. */
    method ReceiveHello(raw: bytes) returns (alert: Option<byte>)
      modifies this`clientHello, this`sh, this`group, this`accepted
      ensures alert.None? <==> ReadHello(raw).Some? && ClientHelloOk(cfg, ReadHello(raw).value)
      ensures alert.Some? ==>
                alert.value == if ReadHello(raw).None? then ALERT_UNEXPECTED_MESSAGE
                               else HelloAlert(cfg, ReadHello(raw).value)
      ensures alert.None? ==>
                && clientHello == ReadHello(raw).value && group == GroupFor(cfg, clientHello).value
                && sh == BaseHello(cfg, clientHello, SuiteFor(cfg, clientHello).value)
      ensures accepted == old(accepted) + if alert.None? then [raw] else []
    {
      hide Unmarshal, PickGroup, PickSuite;
      if |raw| == 0 || raw[0] != TYPE_CLIENT_HELLO {
        return Some(ALERT_UNEXPECTED_MESSAGE);
      }
      var m := Unmarshal(raw);
      if m.None? {
        return Some(ALERT_UNEXPECTED_MESSAGE);
      }
      var h := m.value;
      if |h.supportedVersions| == 0 {
        return Some(ALERT_ILLEGAL_PARAMETER);
      }
      for i := 0 to |h.cipherSuites|
        invariant FALLBACK_SCSV in h.cipherSuites[..i] ==> !cfg.belowMax
      {
        if h.cipherSuites[i] == FALLBACK_SCSV {
          if cfg.belowMax {
            return Some(ALERT_INAPPROPRIATE_FALLBACK);
          }
          break;
        }
      }
      assert h.cipherSuites[..|h.cipherSuites|] == h.cipherSuites;
      if |h.compressionMethods| != 1 || h.compressionMethods[0] != 0 {
        return Some(ALERT_ILLEGAL_PARAMETER);
      }
      if |h.secureRenegotiation| != 0 {
        return Some(ALERT_HANDSHAKE_FAILURE);
      }
      if h.earlyData {
        return Some(ALERT_UNSUPPORTED_EXTENSION);
      }
      var suite := ChooseSuite(cfg.suites(h.cipherSuites), cfg.knowsSuite, h.cipherSuites);
      if suite.None? {
        return Some(ALERT_HANDSHAKE_FAILURE);
      }
      var selected := ChooseGroup(cfg.groups, h);
      if selected.None? {
        return Some(ALERT_HANDSHAKE_FAILURE);
      }
      clientHello, group, accepted := h, selected.value, accepted + [raw];
      sh := BaseHello(cfg, clientHello, suite.value);
      return None;
    }

    /** Asks for a share of the chosen group. */
    method SendRetry() returns (message: Option<bytes>)
      requires clientHello.original.Some? && transcript == []
      modifies this`transcript, this`sent
      ensures message == MarshalServerHello(RetryRequest(sh, group))
      ensures message.Some? ==> transcript == MessageHash(Keys(), clientHello.original.value) + message.value
      ensures sent == old(sent) + if message.Some? then [message.value] else []
    {
      hide MarshalServerHello;
      transcript := clientHello.original.value;
      transcript := MessageHash(Keys(), transcript);
      message := MarshalServerHello(RetryRequest(sh, group));
      if message.Some? {
        transcript := transcript + message.value;
        sent := sent + [message.value];
      }
    }

    /** Checks the second hello against the first. */
    method ReceiveSecondHello(raw: bytes) returns (alert: Option<byte>)
      modifies this`clientHello, this`accepted
      ensures alert.None? <==> ReadHello(raw).Some? && SecondHelloOk(ReadHello(raw).value, old(clientHello), group)
      ensures alert.Some? ==>
                alert.value == if ReadHello(raw).None? then ALERT_UNEXPECTED_MESSAGE else ALERT_ILLEGAL_PARAMETER
      ensures alert.None? ==> clientHello == ReadHello(raw).value
      ensures accepted == old(accepted) + if alert.None? then [raw] else []
    {
      hide Unmarshal, IllegalChange;
      if |raw| == 0 || raw[0] != TYPE_CLIENT_HELLO {
        return Some(ALERT_UNEXPECTED_MESSAGE);
      }
      var m := Unmarshal(raw);
      if m.None? {
        return Some(ALERT_UNEXPECTED_MESSAGE);
      }
      if |m.value.keyShares| != 1 {
        return Some(ALERT_ILLEGAL_PARAMETER);
      }
      if m.value.keyShares[0].group != group {
        return Some(ALERT_ILLEGAL_PARAMETER);
      }
      if m.value.earlyData {
        return Some(ALERT_ILLEGAL_PARAMETER);
      }
      var changed := ChangedIllegally(m.value, clientHello);
      if changed {
        return Some(ALERT_ILLEGAL_PARAMETER);
      }
      clientHello, accepted := m.value, accepted + [raw];
      return None;
    }

    /** Agrees on the shared key and answers with the server's own share. */
    method AcceptShare() returns (ok: bool)
      modifies this`shared, this`sh
      ensures ok == (ShareFor(clientHello.keyShares, group).Some? && NegotiatesOk(cfg, clientHello))
      ensures ok ==>
                && shared == k.agree(group, cfg.key(group), ShareFor(clientHello.keyShares, group).value)
                && sh == old(sh).(share := Some(KeyShare(group, k.pub(group, cfg.key(group)))))
    {
      var i := 0;
      var found := None;
      while i < |clientHello.keyShares| && found.None?
        invariant 0 <= i <= |clientHello.keyShares|
        invariant found.None? ==> ShareFor(clientHello.keyShares, group) == ShareFor(clientHello.keyShares[i..], group)
        invariant found.Some? ==> ShareFor(clientHello.keyShares, group) == found
        decreases |clientHello.keyShares| - i, found.None?
      {
        assert clientHello.keyShares[i..][1..] == clientHello.keyShares[i + 1..];
        if clientHello.keyShares[i].group == group {
          found := Some(clientHello.keyShares[i].data);
        } else {
          i := i + 1;
        }
      }
      if found.None? || !NegotiatesOk(cfg, clientHello) {
        return false;
      }
      shared := k.agree(group, cfg.key(group), found.value);
      sh := sh.(share := Some(KeyShare(group, k.pub(group, cfg.key(group)))));
      return true;
    }

    /** Looks for a session to resume; the binder is checked over the transcript so far and the cut hello. */
    method CheckForResumption() returns (ok: bool)
      modifies this`psk, this`sh
      ensures var r := Decide(old(Keys()), cfg, old(sh.cipherSuite), clientHello, transcript);
              && ok == !r.BadBinder?
              && (r.NoPsk? ==> psk == old(psk) && sh == old(sh))
              && (r.Resumed? ==> psk == Some(r.secret) && sh == old(sh).(identity := Some(r.index)))
    {
      hide WithoutBinders;
      if cfg.ticketsDisabled || PSK_MODE_DHE !in clientHello.pskModes {
        return true;
      }
      if |clientHello.pskIdentities| != |clientHello.pskBinders| {
        return false;
      }
      var i := 0;
      while i < |clientHello.pskIdentities| && i < MAX_PSK_IDENTITIES
        invariant 0 <= i
        invariant Resume(Keys(), cfg, sh.cipherSuite, clientHello, transcript, 0) ==
                  Resume(Keys(), cfg, sh.cipherSuite, clientHello, transcript, i)
        invariant psk == old(psk) && sh == old(sh)
      {
        var secret := cfg.lookup(sh.cipherSuite, clientHello.pskIdentities[i].name);
        if secret.None? {
          i := i + 1;
          continue;
        }
        var cut := WithoutBinders(clientHello);
        if cut.None? {
          return false;
        }
        var binder := Keys().finished(Keys().binderKey(Keys().early(secret.value)), transcript + cut.value);
        if binder != clientHello.pskBinders[i] {
          return false;
        }
        psk := secret;
        sh := sh.(identity := Some(i));
        return true;
      }
      return true;
    }

    method SendServerHello() returns (message: Option<bytes>)
      requires clientHello.original.Some?
      modifies this`transcript, this`secrets, this`sent
      ensures message == MarshalServerHello(sh)
      ensures message.Some? ==>
                && transcript == old(transcript) + clientHello.original.value + message.value
                && secrets == HandshakeSecrets(Keys(), if psk.Some? then psk.value else [], shared, transcript)
      ensures sent == old(sent) + if message.Some? then [message.value] else []
    {
      hide MarshalServerHello;
      transcript := transcript + clientHello.original.value;
      message := MarshalServerHello(sh);
      if message.Some? {
        transcript := transcript + message.value;
        sent := sent + [message.value];
        secrets := HandshakeSecrets(Keys(), if psk.Some? then psk.value else [], shared, transcript);
      }
    }

    /** Messages whose bytes are fixed by the configuration. */
    method SendFixed(message: bytes)
      modifies this`transcript, this`sent
      ensures transcript == old(transcript) + message && sent == old(sent) + [message]
    {
      transcript, sent := transcript + message, sent + [message];
    }

    method SendCertificate() returns (message: Option<bytes>)
      modifies this`transcript, this`sent
      ensures message == MarshalCertificate(Answer(cfg.cert, clientHello.ocspStapling, clientHello.scts))
      ensures message.Some? ==> transcript == old(transcript) + message.value
      ensures sent == old(sent) + if message.Some? then [message.value] else []
    {
      hide MarshalCertificate;
      message := MarshalCertificate(Answer(cfg.cert, clientHello.ocspStapling, clientHello.scts));
      if message.Some? {
        transcript := transcript + message.value;
        sent := sent + [message.value];
      }
    }

    method SendVerify() returns (message: Option<bytes>)
      modifies this`transcript, this`sent
      ensures message == MarshalVerify(VerifyMsg(cfg.algorithm, cfg.sign(Keys().signed("server", old(transcript)))))
      ensures message.Some? ==> transcript == old(transcript) + message.value
      ensures sent == old(sent) + if message.Some? then [message.value] else []
    {
      hide MarshalVerify;
      message := MarshalVerify(VerifyMsg(cfg.algorithm, cfg.sign(Keys().signed("server", transcript))));
      if message.Some? {
        transcript := transcript + message.value;
        sent := sent + [message.value];
      }
    }

    method SendFinished() returns (message: Option<bytes>)
      modifies this`transcript, this`secrets, this`sent
      ensures message == MarshalFinished(Keys().finished(old(secrets).serverHs, old(transcript)))
      ensures message.Some? ==> transcript == old(transcript) + message.value
                                && secrets == ApplicationSecrets(Keys(), old(secrets), transcript)
      ensures sent == old(sent) + if message.Some? then [message.value] else []
    {
      hide MarshalFinished;
      message := MarshalFinished(Keys().finished(secrets.serverHs, transcript));
      if message.Some? {
        transcript := transcript + message.value;
        sent := sent + [message.value];
        secrets := ApplicationSecrets(Keys(), secrets, transcript);
      }
    }

    predicate RequestsCert()
      reads this
    {
      cfg.asksCert && psk.None?
    }

    /** Computes the Finished value the client must send, and takes it into the transcript before it arrives. */
    method RollForward() returns (ok: bool)
      modifies this`clientFinished, this`transcript, this`secrets
      ensures ok == MarshalFinished(Keys().finished(old(secrets).clientHs, old(transcript))).Some?
      ensures ok ==>
                && clientFinished == Keys().finished(old(secrets).clientHs, old(transcript))
                && transcript == old(transcript) + MarshalFinished(clientFinished).value
                && secrets == ResumptionSecret(Keys(), old(secrets), transcript)
    {
      hide MarshalFinished;
      clientFinished := Keys().finished(secrets.clientHs, transcript);
      var message := MarshalFinished(clientFinished);
      if message.None? {
        return false;
      }
      transcript := transcript + message.value;
      secrets := ResumptionSecret(Keys(), secrets, transcript);
      return true;
    }

    /** The client's certificate enters the transcript as it was received. */
    method ReadClientCertificate(raw: bytes) returns (ok: bool)
      modifies this`peer, this`transcript, this`accepted
      ensures ok == ClientCertificateTaken(cfg.trusts, raw)
      ensures ok ==> peer == UnmarshalCertificate(raw).value.cert.chain && transcript == old(transcript) + raw
      ensures accepted == old(accepted) + if ok then [raw] else []
    {
      hide UnmarshalCertificate;
      if |raw| == 0 || raw[0] != TYPE_CERTIFICATE {
        return false;
      }
      var m := UnmarshalCertificate(raw);
      if m.None? {
        return false;
      }
      transcript := transcript + raw;
      if !cfg.trusts(m.value.cert) {
        return false;
      }
      peer := m.value.cert.chain;
      accepted := accepted + [raw];
      return true;
    }

    method ReadClientVerify(raw: bytes) returns (ok: bool)
      requires peer != []
      modifies this`transcript, this`accepted
      ensures ok == VerifyTaken(k, Keys(), cfg.accepts, "client", peer[0], old(transcript), raw)
      ensures ok ==> transcript == old(transcript) + MarshalVerify(UnmarshalVerify(raw).value).value
      ensures accepted == old(accepted) + if ok then [raw] else []
    {
      hide UnmarshalVerify, MarshalVerify;
      ok, transcript := TakeVerify(k, Keys(), cfg.accepts, "client", peer[0], transcript, raw);
      if ok {
        accepted := accepted + [raw];
      }
    }

    method ReadClientFinished(raw: bytes) returns (ok: bool)
      modifies this`accepted
      ensures ok == (raw != [] && raw[0] == TYPE_FINISHED && UnmarshalFinished(raw) == Some(clientFinished))
      ensures accepted == old(accepted) + if ok then [raw] else []
    {
      hide UnmarshalFinished;
      if |raw| == 0 || raw[0] != TYPE_FINISHED {
        return false;
      }
      var v := UnmarshalFinished(raw);
      ok := v.Some? && v.value == clientFinished;
      if ok {
        accepted := accepted + [raw];
      }
    }
  }

  predicate ClientCertificateTaken(trusts: Cert -> bool, raw: bytes)
  {
    raw != [] && raw[0] == TYPE_CERTIFICATE && UnmarshalCertificate(raw).Some? && trusts(UnmarshalCertificate(raw).value.cert)
  }
}
