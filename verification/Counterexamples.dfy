/**
 Concrete inputs at which the code does not do what one would expect of it.  Each
 belongs to a theorem that says for which inputs it does.
 */
module Counterexamples {
  import opened Bytes
  import opened Versions
  import opened ClientHello
  import opened HelloRoundTrip
  import opened HalfConn
  import opened Ech
  import opened EchPadding
  import opened EchSeal
  import opened SniParser
  import opened SniAgreement
  import opened Samples

  // ----- The length of an encoded inner hello -----

  const SHORT_NAME: bytes := [0x61]
  const LONG_NAME: bytes := [0x61, 0x2e, 0x62]

  /** Two names far below the maximum of 100 bytes give lengths two apart, neither of them a multiple of 32. */
  lemma NameShows()
    ensures var m := Sample(GROUP).(encryptedClientHello := [1], serverName := SHORT_NAME);
            var n := m.(serverName := LONG_NAME);
            && EncodeInner(m, 100).Some? && EncodeInner(n, 100).Some?
            && |EncodeInner(n, 100).value| == |EncodeInner(m, 100).value| + 2
            && |EncodeInner(m, 100).value| % 32 != 0 && |EncodeInner(n, 100).value| % 32 != 0
  {
    hide EncodeInner, InnerExts;
    var m := Sample(GROUP).(encryptedClientHello := [1], serverName := SHORT_NAME);
    var n := m.(serverName := LONG_NAME);
    TinyInnerWrites(m, 100);
    TinyInnerWrites(n, 100);
    InnerExtsFilled(m);
    InnerExtsFilled(n);
    LengthShowsName(m, LONG_NAME, 100);
    MultipleOf32(m, 100);
    MultipleOf32(n, 100);
  }

  // ----- A retry request with a cookie -----

  /** The server reads the second outer hello, but cannot rebuild the inner one from it. */
  lemma CookieBreaksEch()
    ensures var inner, outer := Sample(GROUP).(encryptedClientHello := [1]), Sample(GROUP);
            var retried := RetryInner(inner, [5], [KeyShare(OTHER_GROUP, [1])], [], []);
            var second := WithEch(RetryOuter(outer, retried), [0]);
            && EncodeInner(retried, 0).Some? && Marshal(second).Some?
            && var received := Unmarshal(Marshal(second).value);
               received.Some? && DecodeInner(received.value, EncodeInner(retried, 0).value) == Err(OuterExtsInvalid)
  {
    hide EncodeInner, Marshal, Unmarshal, DecodeInner, Exts, Types;
    var inner, outer := Sample(GROUP).(encryptedClientHello := [1]), Sample(GROUP);
    var shares := [KeyShare(OTHER_GROUP, [1])];
    var retried := RetryInner(inner, [5], shares, [], []);
    var second := WithEch(RetryOuter(outer, retried), [0]);
    TinyInnerWrites(retried, 0);
    TinyWrites(second);
    MarshalUnmarshal(second);
    assert Agrees(outer, inner);
    CookieRetryFails(inner, outer, [5], shares, [], [], [0], Reported(second, Marshal(second).value), 0);
  }

  // ----- A payload that stands earlier in the hello -----

  const PAYLOAD: bytes := [7, 7, 7, 7, 7, 7, 7, 7, 7, 7, 7, 7, 7, 7, 7, 7, 7]

  /** The session ticket holds the payload, and the server opens against other bytes than the client sealed against. */
  lemma TicketMisleads()
    ensures var outer := Sample(GROUP).(ticketSupported := true, sessionTicket := PAYLOAD);
            var p := EchParams(1, 1, 1, []);
            && SealedAgainst(outer, p, [9]).Some? && OuterEchExt(p, PAYLOAD).Some?
            && var wire := Marshal(WithEch(outer, OuterEchExt(p, PAYLOAD).value));
               wire.Some? && |wire.value| >= 4
               && OpenedAgainst(wire.value, PAYLOAD) != SealedAgainst(outer, p, [9]).value
  {
    hide Marshal, OpenedAgainst;
    var outer := Sample(GROUP).(ticketSupported := true, sessionTicket := PAYLOAD);
    var p := EchParams(1, 1, 1, []);
    TinyWrites(WithEch(outer, OuterEchExt(p, PAYLOAD).value));
    TinyWrites(WithEch(outer, OuterEchExt(p, Zeros(17)).value));
    assert PAYLOAD[0] != Zeros(17)[0];
    TicketHoldsPayload(outer, p, [9], PAYLOAD);
  }

  // ----- A server_name list that starts with another type -----

  /** The extension data: one entry of type 1 with the name "a". */
  const OTHER_TYPE: bytes := LP16([1] + LP16([0x61]))

  const OTHER_BLOCK: bytes := U16(0) + LP16(OTHER_TYPE)

  /** A hello with empty lists and this extension, in a record of its own. */
  const OTHER_BODY: bytes := U16(VERSION_TLS12) + Zeros(32) + LP8([]) + LP16([]) + LP8([]) + LP16(OTHER_BLOCK)

  const OTHER_HELLO: bytes := [22, 3, 1] + LP16([TYPE_CLIENT_HELLO] + LP24(OTHER_BODY))

  /** The library accepts the hello, the proxy's parser gives up on it. */
  lemma OtherTypeFirst()
    ensures OneHello(OTHER_HELLO) && Unmarshal(OTHER_HELLO[HEADER_LEN..]).Some? && ParseHello(OTHER_HELLO).Malformed?
  {
    hide Unmarshal, ParseHello, HostFirst, ReadRawExts;
    OtherShape();
    OtherAccepted();
    ParsersAgree(OTHER_HELLO);
  }

  lemma OtherShape()
    ensures OneHello(OTHER_HELLO) && OTHER_HELLO[HEADER_LEN..] == [TYPE_CLIENT_HELLO] + U24(|OTHER_BODY|) + OTHER_BODY
  {
    hide U16, U24, LP8, Zeros, Pair;
    var message := [TYPE_CLIENT_HELLO] + (U24(|OTHER_BODY|) + OTHER_BODY);
    assert |OTHER_BODY| == 50 && |message| == 54;
    ReadU16Back(|message|, []);
    ReadU24Back(|OTHER_BODY|, []);
    assert U16(54) + [] == U16(54) && U24(50) + [] == U24(50);
    assert OTHER_HELLO[HEADER_LEN..] == message;
    assert OTHER_HELLO[3] == U16(54)[0] && OTHER_HELLO[4] == U16(54)[1];
    assert OTHER_HELLO[6] == U24(50)[0] && OTHER_HELLO[7] == U24(50)[1] && OTHER_HELLO[8] == U24(50)[2];
  }

  /** Both parsers of the library reach the extension block. */
  lemma OtherParts(data: bytes)
    requires data == [TYPE_CLIENT_HELLO] + U24(|OTHER_BODY|) + OTHER_BODY
    ensures exists start: Hello :: start.extensions == [] && start.serverName == []
                                   && Unmarshal(data) == ReadExts(OTHER_BLOCK, {}, start)
    ensures RawExtensions(data) == ReadRawExts(OTHER_BLOCK)
  {
    hide U16, U24, LP8, LP16, Zeros, ReadU16, ReadLP8, ReadLP16, ReadExts, ReadRawExts;
    var d3 := LP16(OTHER_BLOCK) + [];
    var d2 := LP8([]) + d3;
    var d1 := LP16([]) + d2;
    var d0 := LP8([]) + d1;
    var body := U16(VERSION_TLS12) + (Zeros(32) + d0);
    var head := [TYPE_CLIENT_HELLO] + U24(|OTHER_BODY|);
    assert OTHER_BODY == body;
    ReadNBack(head, body);
    ReadU16Back(VERSION_TLS12, Zeros(32) + d0);
    ReadNBack(Zeros(32), d0);
    ReadLP8Back([], d1);
    ReadLP16Back([], d2);
    ReadLP8Back([], d3);
    ReadLP16Back(OTHER_BLOCK, []);
    assert Unmarshal(data) == ReadExts(OTHER_BLOCK, {}, Start(data, VERSION_TLS12, Zeros(32), [], [], []));
    var front := head + U16(VERSION_TLS12) + Zeros(32);
    assert data == front + d0;
    ReadNBack(front, d0);
  }

  lemma OtherNames()
    ensures ReadNames([1] + LP16([0x61]), []) == Some([]) && Only(2, OTHER_TYPE) == Some([1] + LP16([0x61]))
    ensures OTHER_TYPE[2] == 1
  {
    hide U16, ReadLP16;
    var l := [1] + LP16([0x61]);
    ReadLP16Back(l, []);
    assert OTHER_TYPE + [] == OTHER_TYPE;
    assert l[1..] == LP16([0x61]) + [];
    ReadLP16Back([0x61], []);
  }

  lemma OtherAccepted()
    ensures var data := OTHER_HELLO[HEADER_LEN..];
            && Unmarshal(data).Some? && 0 in Unmarshal(data).value.extensions
            && ExtensionsOf(OTHER_HELLO) == [RawExt(0, OTHER_TYPE)] && !HostFirst([RawExt(0, OTHER_TYPE)])
  {
    hide U16, U24, LP8, LP16, LP24, Unmarshal, RawExtensions, ReadRawExts, ReadNames, Only, ReadU16, ReadLP16, ExtBytes,
         Zeros;
    OtherShape();
    OtherNames();
    var data := OTHER_HELLO[HEADER_LEN..];
    OtherParts(data);
    var start: Hello :| start.extensions == [] && start.serverName == []
                        && Unmarshal(data) == ReadExts(OTHER_BLOCK, {}, start);
    var e := Ext(0, Raw(OTHER_TYPE));
    ExtBytesOne(e);
    ReadRawExtsBack([e]);
    ReadU16Back(0, LP16(OTHER_TYPE) + []);
    ReadLP16Back(OTHER_TYPE, []);
    assert OTHER_BLOCK == U16(0) + (LP16(OTHER_TYPE) + []);
    var m := start.(extensions := start.extensions + [0]);
    assert Apply(m, 0, OTHER_TYPE, true) == Some(m.(serverName := []));
    assert ReadExts([], {0}, m.(serverName := [])) == Some(m.(serverName := []));
    assert RawExt(0, OTHER_TYPE).data[2] == 1;
    assert RawExt(0, OTHER_TYPE) in [RawExt(0, OTHER_TYPE)];
  }
}
