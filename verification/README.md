# SniShaper: a verified model of its TLS machinery

SniShaper forwards TLS connections and changes how they look on the wire. This
project models the parts of it that cut, hide, re-frame and rebuild TLS bytes,
and the state those parts keep, and proves what they promise.

* **TLS record fragmentation.** The proxy finds the server name in a raw
  ClientHello, cuts the record and sends it as several. A server that runs the
  library's own record reader gets the same handshake message.
* **Encrypted ClientHello** (draft-ietf-tls-esni-18, sections 5.1 and 5.2).
  Compressing the inner hello against the outer one, padding, sealing, opening
  and rebuilding.
* **The record layer.** Sealing and opening in every mode, what an opened record
  proves about its sender, sequence numbers and nonces, the constant-time padding
  check, bounded reading, record sizing, a stream from writer to reader, and the
  interlock of Write, Close and CloseWrite.
* **The TLS 1.3 handshake** (RFC 8446) as two machines that exchange messages,
  honestly or over a network that delivers anything.
* **State that outlives a connection.** Sessions, ticket keys, and the retry
  loop towards the upstream.

## How it is laid out

| files | content |
|---|---|
| Bytes, Bits, Versions | byte strings, length prefixes, builders, exclusive or |
| ClientHello, HelloRoundTrip, HelloCode, HelloReader | the hello: specification, round trip, writing and reading code |
| Ech, EchPadding, EchCode, EchSeal, Binder | inner hello, its padding and code, sealing and associated data, PSK binders |
| Fragment, SniParser, SniAgreement, FragmentReceived, FragmentHandler | the proxy's fragmentation and what a server makes of it |
| Padding, Nonce, HalfConn, HalfConnCode, RecordLayer, RecordAuthenticity, RecordReader, RecordWriter, RecordExchange, RecordStream, Interlock | the record layer |
| Certificate, CertificateCode, ServerHello, Choice, Handshake, KeySchedule, HandshakeRun, HandshakeTamper, HonestExample | messages and the handshake |
| Session, SessionCode, TicketKeys, Upstream | sessions, keys, upstream connections |
| Samples, Counterexamples | small hellos, and inputs at which a promise fails |

Code that loops over a cursor or builder is a method with a loop, and code that
updates an object is a class; each is proved to compute a specification
function, and the theorems are about those functions. `cryptobyte` is modelled
byte for byte; a builder whose length prefix overflows has failed. Integers
with a width have subset types, and wrap-around is written out where the source
relies on it. Handshake methods that write, hash or compare a single message have
no row of their own; the runs made of them do.

Ciphers, hashes, key agreement, signatures, HPKE and certificate parsing are
function parameters. What is assumed of them is stated where it is used: opening
undoes sealing under equal nonce and associated data, a block cipher is a
permutation, MACs have a fixed length, key agreement is symmetric, a signature by
the right key verifies. Where it matters that a function has no collision or that
nobody else makes a MAC, the condition is about the values at hand, never about
all inputs. Clocks are sequences of readings, the network is the
bytes it will deliver or the number of writes it will take, and random values
are parameters.

## What does not hold, and when it does

* The search for the last dot starts one byte behind the name, so it indexes out
  of range exactly when the name ends the record (`FragmentHandler.NameLastCrashes`,
  `FragmentHandler.HandleTlsFragment`).
* The cut is meant to keep the name out of any single record. It may fall at
  either end of the name, and then one record holds all of it exactly when the
  half next to the cut is long enough (`FragmentHandler.NameIsWhole`,
  `FragmentHandler.NameStays`).
* The proxy's parser refuses hellos that the library accepts when the
  server_name list starts with an entry that is no host name, and only then
  (`SniAgreement.ParsersAgree`, `Counterexamples.OtherTypeFirst`).
* A HelloRetryRequest with a cookie makes an ECH handshake fail, because the
  cookie is put into the inner hello and compressed but never copied to the
  outer one (`EchSeal.RetryKeepsAgreement`, `EchSeal.CookieRetryFails`,
  `Counterexamples.CookieBreaksEch`).
* The comment on `transcriptMsg` says that messages other than the hellos have
  an idempotent wire form. For received certificate messages that is so exactly
  for canonical ones (`Certificate.RewrittenIffCanonical`,
  `Certificate.UnknownExtensionDropped`).
* The server's associated data for ECH is right exactly when the payload does
  not occur earlier in the hello (`EchSeal.AssociatedDataAgrees`,
  `EchSeal.TicketHoldsPayload`, `Counterexamples.TicketMisleads`).
* The draft pads an encoded inner hello so that its length is a multiple of 32 and
  does not tell the length of the name. The code lets the padding for the name
  enter the remainder only and adds 0 to 31 zero bytes. The length is then a
  multiple of 32 exactly when the padding for the name is
  (`EchPadding.MultipleOf32`), and two names up to the maximum give equal lengths
  exactly when they are equally long (`EchPadding.LengthShowsName`,
  `Counterexamples.NameShows`).
* A CBC record is meant to open only if it holds data, its MAC and padding. The
  length of the data is not let below zero, so one more shape opens: the MAC of no
  data with padding that reaches into it. A record opens exactly when it has one
  of the two (`RecordAuthenticity.CbcAccepts`, `RecordAuthenticity.PaddingMeetsMac`).
* A session is said to carry the negotiated protocol only together with early
  data, but `sessionState` sets it for every connection, and the encoding then
  drops it. A session comes back unchanged exactly when it is regular
  (`Session.UnchangedIffRegular`, `Session.ProtocolLost`, `Session.Http2Lost`).

## Model

| member | source | states |
|---|---|---|
| HelloRoundTrip.MarshalUnmarshal | utls/handshake_messages.go:113-711 | any hello that can be written is accepted by the parser if and only if its name has no trailing dot, no protocol name, key share, PSK name or binder is empty, and there is a binder whenever there are identities; then every field that was written comes back, with the wire bytes and the extension order recorded |
| HelloRoundTrip.ReadExtsBack | utls/handshake_messages.go:490-711 | the extension loop, fed the written extensions from any slot on, yields exactly the fields of those slots |
| HelloCode.WriteU16s | utls/handshake_messages.go:207-209 | the loop writes the 16-bit list that the parser of such lists reads back |
| HelloCode.WriteLP8s | utls/handshake_messages.go:252-256 | the loop writes the list of one-byte-prefixed strings, failing on any string of 256 bytes or more |
| HelloCode.WriteKeyShares | utls/handshake_messages.go:297-302 | the loop writes the key shares in order |
| HelloCode.WriteIdentities | utls/handshake_messages.go:350-355 | the loop writes the PSK identities in order |
| HelloCode.WritePrefix | utls/handshake_messages.go:116-180 | appending field by field gives slots 0 to 8; an inner hello gets them without the four TLS 1.2 extensions |
| HelloCode.WriteCompressible | utls/handshake_messages.go:185-321 | appending field by field gives the nine compressible extensions in full |
| HelloCode.CollectCompressible | utls/handshake_messages.go:185-321 | an inner hello instead collects exactly the types of its compressible extensions, in the same order |
| HelloCode.WriteExts | utls/handshake_messages.go:113-370 | the whole extension block, in full or compressed, with pre_shared_key last |
| HelloCode.MarshalMsg | utls/handshake_messages.go:108-398 | the builder code computes the message on which the round-trip and ECH theorems are proved, in both its forms |
| HelloReader.LoadNames | utls/handshake_messages.go:506-532 | the server_name loop: skips other types, rejects a second host name, an empty name and a trailing dot |
| HelloReader.LoadKeyShares | utls/handshake_messages.go:638-652 | the key_share loop, rejecting empty shares |
| HelloReader.LoadIdentities | utls/handshake_messages.go:671-683 | the PSK identity loop, rejecting empty names |
| HelloReader.LoadPsk | utls/handshake_messages.go:666-695 | identities, then binders, both non-empty and filling the extension |
| HelloReader.LoadExt | utls/handshake_messages.go:505-708 | the switch over extension types, with trailing bytes rejected and pre_shared_key only in last place |
| HelloReader.LoadExts | utls/handshake_messages.go:490-711 | the extension loop with its duplicate check |
| HelloReader.LoadSuites | utls/handshake_messages.go:459-474 | the suite loop, noting the renegotiation signal exactly when it is in the list |
| HelloReader.UnmarshalHello | utls/handshake_messages.go:449-711 | the cursor-driven parser computes the reading function that undoes the writer |
| Ech.DecodeEncoded | utls/ech.go:211-398 | for every inner and outer hello, decoding the encoded inner fails on the scan if and only if the outer lacks a compressed extension; otherwise it yields the checks applied to the full marshalling of the inner hello with the outer extensions in those places |
| Ech.InnerHelloRoundTrip | utls/ech.go:211-398 | when outer and inner agree on session id and compressible extensions the server rebuilds the inner hello byte for byte, so both sides hash the same message |
| Ech.DecodedIsInner | utls/ech.go:283-398 | whatever is sealed, only a hello that is marked as an inner one and offers TLS 1.3 alone comes out of the decoder |
| Ech.ReadEncoded | utls/ech.go:218-234 | the encoded form: empty session id, compressed block, and 0 to 31 zero bytes of padding; EchPadding says how many |
| EchPadding.ShortByNamePadding | utls/ech.go:218-234 | the encoded length falls short of a multiple of 32 by exactly the padding computed for the name |
| EchPadding.MultipleOf32 | utls/ech.go:218-234 | the encoded length is a multiple of 32 if and only if that padding is |
| EchPadding.LengthShowsName | utls/ech.go:218-234 | for any two names up to the maximum length the encoded lengths differ by as much as the name extensions, so they are equal only for names of equal length |
| Counterexamples.NameShows | utls/ech.go:218-234 | a concrete pair of names whose encodings differ in length, neither a multiple of 32 |
| Ech.CopySlots | utls/ech.go:345-372 | the forward-only scan finds every compressed extension of the outer hello in order |
| Ech.ExpandInner | utls/ech.go:334-388 | expanding the compressed block gives the mixed hello's own extension block, or fails exactly when an extension is missing |
| Ech.RebuildIsMarshal | utls/ech.go:319-392 | the hello rebuilt around that block is the marshalled mixed hello |
| EchCode.EncodeInnerHello | utls/ech.go:218-234 | the code strips the header and appends the computed padding |
| EchCode.ExtractRawExtensions | utls/ech.go:257-281 | the skipping cursor and loop list the raw extensions, or fail on the same inputs |
| EchCode.CopyNamed | utls/ech.go:345-372 | the loop with index i, which only grows, copies exactly the named outer extensions |
| EchCode.ExpandBlock | utls/ech.go:334-388 | the rebuilding loop, with every error it sets |
| EchCode.DecodeInnerHello | utls/ech.go:283-398 | the whole decoder with all its refusals |
| EchSeal.ParseOuterEchExt | utls/ech.go:405-414 | the parser of the outer extension undoes its generator |
| EchSeal.MarshalAroundEch | utls/ech.go:416-447 | the two marshalling passes differ only in the bytes of the ECH extension body |
| EchSeal.ZeroFirstExact | utls/ech.go:400-403 | zeroing the first occurrence gives the zeroed original if and only if that occurrence is the payload's own place or the payload is zeros |
| EchSeal.AssociatedDataAgrees | utls/ech.go:400-447 | the server's associated data equals the client's if and only if the payload does not occur earlier in the hello (or is zeros) |
| EchSeal.TicketHoldsPayload | utls/ech.go:400-447 | a session ticket equal to the payload always makes the server open against other bytes than the client sealed against |
| Counterexamples.TicketMisleads | utls/ech.go:400-447 | a concrete outer hello with such a ticket |
| EchSeal.SealedInnerArrives | utls/ech.go:283-447 | encode, seal, send, parse, open, decode: the inner hello arrives with the bytes the client hashes, when outer and inner agree and the payload does not occur earlier in the hello |
| EchSeal.SplitAgrees | utls/handshake_client.go:232-320 | whatever the hello, the split into a marked inner and an outer under the public name makes the two agree on all that the encoding leaves out |
| EchSeal.SplitInnerArrives | utls/handshake_client.go:232-320 | so any TLS 1.3 hello that the client splits and seals arrives as the inner hello it hashes, with the name, random value, suites, protocols, shares and sessions the client wanted, when the payload does not occur earlier in the hello |
| EchSeal.OuterShowsPublicName | utls/handshake_client.go:304-330 | whoever parses the hello that is sent finds the public name and the random value drawn for it |
| EchSeal.NameOnlyInPayload | utls/handshake_client.go:304-330 | hellos for two names, under one public name and random value and with encodings of one length, are the same bytes but for the sealed payload: the name shows nowhere else |
| EchSeal.RetryKeepsAgreement | utls/handshake_client_tls13.go:308-441 | after a retry request the copied outer hello still agrees with the inner one if and only if no cookie was sent |
| EchSeal.CookieRetryFails | utls/handshake_client_tls13.go:308-441 | a retry request with a cookie makes the server refuse the second inner hello, for every such pair |
| Counterexamples.CookieBreaksEch | utls/handshake_client_tls13.go:308-441 | a concrete pair of hellos and cookie for which the server reads the second outer hello and refuses the inner one |
| Binder.SumBinders | utls/handshake_messages.go:413-418 | the loop adds up the encoded size of the binders |
| Binder.UpdateBinders | utls/handshake_messages.go:435-447 | binders are replaced only by binders of the same number and lengths |
| Binder.MarshalEndsInBinders | utls/handshake_messages.go:339-398 | a hello with identities ends in its binder list |
| Binder.BinderAgreement | utls/handshake_messages.go:413-447 | whatever the identities and binder lengths, the client hashes around its placeholders the bytes the server hashes around the received binders |
| Binder.BinderVerifies | utls/handshake_client.go:1367-1375 | with equal key and transcript the server finds the computed binder valid |
| Fragment.FindLastDot | proxy/tls_fragment.go:174-181 | a dot is found if and only if there is one in the name or the byte behind it; the cut is then at a dot with none after it, and otherwise in the middle of the name |
| Fragment.MakeRecord | proxy/tls_fragment.go:473-479 | the record holds the prefix, the payload length and the payload |
| Fragment.SplitAndAppend | proxy/tls_fragment.go:444-471 | appends the parts, as records when there is a header |
| Fragment.PartsWhole | proxy/tls_fragment.go:444-471 | the parts join to the data, number n (or one for short data), none is empty unless the data is, and all but the last have an n-th of the length |
| Fragment.Wire.WriteAll | proxy/tls_fragment.go:342-356 | packets go out in order up to the first failing write |
| Fragment.Wire.WriteSegments | proxy/tls_fragment.go:416-441 | segments go out in order up to the first failing write |
| Fragment.CutRecords | proxy/tls_fragment.go:359-365 | the records for both sides of the cut |
| Fragment.SendRecords | proxy/tls_fragment.go:312-442 | edits the minor version in place and nothing else, and writes the planned segments in order up to the first failing write |
| Fragment.SegmentsOnly | proxy/tls_fragment.go:317-357 | with one record the segments carry exactly the bytes of the hello |
| Fragment.BeginsAtDot | proxy/tls_fragment.go:312-471 | for every name with a dot and any number of records and segments, the payload of some record begins exactly at the last dot, or some segment does when the record is left whole |
| Fragment.SegmentsWhole | proxy/tls_fragment.go:416-441 | segments join to the merged records, are as many as asked for unless there are too few bytes, and all but the last have the same length |
| Fragment.PayloadsWhole | proxy/tls_fragment.go:359-365 | the payloads join to the original payload and none is empty |
| Fragment.EveryRecord | proxy/tls_fragment.go:444-479 | every emitted record has the original three-byte prefix, a right length field and a non-empty payload |
| Fragment.NoPayloadCrosses | proxy/tls_fragment.go:359-365 | every payload is a contiguous piece wholly before or wholly behind the cut |
| Fragment.NoRecordHoldsName | proxy/tls_fragment.go:359-365 | when the cut falls strictly inside the name no record holds all of it |
| FragmentReceived.ReadFragments | utls/conn.go:616-1119 | a fresh server reads from any division into fragments the first message, and keeps the rest for the next |
| FragmentReceived.FragmentsRead | utls/conn.go:616-1119 | the message read depends on the joined payload and the major version byte alone |
| FragmentReceived.SameMessage | proxy/tls_fragment.go:312-479 | for every hello record, name position, number of records and of segments, the server reads the same handshake message from what is sent as from the original record |
| FragmentHandler.HandleTlsFragment | proxy/tls_fragment.go:28-115 | decides the fate of every connection and what was written: closed, forwarded unchanged, crashed exactly when the name ends the record, and else, by whether all writes succeed and the server answers, tunnelled with no reply byte lost to the probe, handed to the fallback with the untouched record, or closed |
| FragmentHandler.ServerReadsSame | proxy/tls_fragment.go:28-115 | what the handler sends for any handshake record it can cut makes the server read the client's message |
| FragmentHandler.DotBeginsRecord | proxy/tls_fragment.go:28-181 | so in what the handler sends for a name with a dot, a row of records whose payloads join to the original one, some record begins exactly at the last dot |
| FragmentHandler.NameIsWhole | proxy/tls_fragment.go:28-115 | what the handler sends is a row of records, and one of them holds all of the name if and only if the cut falls at an end of the name and the half next to it is long enough for the name |
| FragmentHandler.NameStays | proxy/tls_fragment.go:28-181 | a concrete hello, with a dot right behind its name, that is sent with the name whole in one record |
| FragmentHandler.NameLastCrashes | proxy/tls_fragment.go:174-181 | a concrete hello that the parser accepts with its name at the very end, where the dot search indexes out of range |
| SniParser.ParseClientHello | proxy/tls_fragment.go:183-310 | the offset-driven parser, with no index out of range on any byte string |
| SniParser.ScanExts | proxy/tls_fragment.go:261-309 | the extension loop with its early returns |
| SniAgreement.OffsetsFollowList | proxy/tls_fragment.go:261-309 | the loop by offset finds what a loop over the parsed list of extensions finds |
| SniAgreement.ParsersAgree | proxy/tls_fragment.go:183-310 | on every hello the library accepts, the proxy's parser fails if and only if a server_name list starts with another type; otherwise both report the same name, the same absence, and the presence of key_share |
| Counterexamples.OtherTypeFirst | proxy/tls_fragment.go:183-310 | a concrete hello with one entry of another type, which the library accepts and the proxy refuses |
| Padding.ExtractPadding | utls/conn.go:287-332 | the branch-free code on wrapping words returns 255 exactly for well-formed padding, and removes the padding and its length byte then, one byte otherwise, none from empty input |
| Nonce.IncSeq | utls/conn.go:246-258 | in place, strictly one more as a 64-bit big-endian number; wraps, where the program panics, exactly at the largest |
| Nonce.NextValue | utls/conn.go:246-258 | the carrying increment is addition of one modulo two to the 64 |
| Nonce.CounterPlace | utls/cipher_suites.go:488-510 | the counter is combined with the last eight bytes of the mask, and the first four stay |
| Nonce.XorNonceAead.Seal | utls/cipher_suites.go:488-498 | seals under mask xor counter, restores the mask, and logs exactly the nonce given to the cipher |
| Nonce.XorNonceAead.Open | utls/cipher_suites.go:500-510 | opens under mask xor counter and restores the mask |
| Nonce.PrefixNonceAead.Seal | utls/cipher_suites.go:467-470 | seals under the fixed prefix and the explicit part, keeps the prefix, and logs exactly the nonce given to the cipher |
| Nonce.PrefixNonceAead.Open | utls/cipher_suites.go:472-475 | opens under the fixed prefix and the explicit part, keeping the prefix |
| Nonce.NoncesDiffer | utls/cipher_suites.go:455-510 | different counters never give equal nonces under one mask or prefix |
| HalfConnCode.Half.ChangeCipherSpec | utls/conn.go:221-233 | installs the prepared keys in a new wrapper that has sealed nothing, and zeroes the number; refuses without prepared keys and in TLS 1.3 |
| HalfConnCode.Half.SetTrafficSecret | utls/conn.go:235-243 | installs TLS 1.3 keys in a new wrapper that has sealed nothing, and zeroes the number |
| HalfConnCode.Half.Encrypt | utls/conn.go:486-569 | updates number, key stream position and chaining block while producing exactly the sealed record on which the round trip is proved; the AEAD wrapper is given the nonce of the old number and no other, so its log stays that of the numbers 0, 1, 2 and so on |
| HalfConnCode.ConsecutiveDiffer | utls/cipher_suites.go:455-510 | a log of that kind holds no nonce twice |
| HalfConnCode.Half.Decrypt | utls/conn.go:346-468 | opens or refuses a record with the right alert, leaving the state the specification says, also on failure; RecordAuthenticity says exactly which records open |
| HalfConnCode.Half.CheckMac | utls/conn.go:438-464 | MAC and padding are accepted together or refused alike; RecordAuthenticity says exactly which are accepted |
| HalfConn.CbcOpens | utls/conn.go:391-418 | CBC decryption undoes CBC encryption over any block permutation |
| HalfConn.CbcChains | utls/conn.go:543-557 | every block on the wire is the cipher applied to the plaintext block combined with the block before it, the first with the initialization vector |
| RecordLayer.PaddedBack | utls/conn.go:543-557 | the padding the sender adds is the padding the receiver finds |
| RecordLayer.SealedOpens | utls/conn.go:346-569 | in stream, CBC, TLS 1.2 AEAD and TLS 1.3 mode a sealed record opens to its payload and type and moves the receiver to the sender's new state |
| RecordLayer.RunOpens | utls/conn.go:346-569 | any sequence of sealed records opened in order yields the same payloads and types and leaves both ends in equal states, numbers included |
| RecordLayer.NoNonceTwice | utls/conn.go:486-569 | the nonces that a run of records prescribes are all different |
| RecordLayer.SealedFrame | utls/conn.go:486-569 | the header of a sealed record has the type, which TLS 1.3 hides, the version it was given and the length of what follows |
| RecordAuthenticity.StreamAccepts | utls/conn.go:359-464 | under a stream cipher a record opens to some data if and only if the payload, combined byte by byte with the key stream, is that data and its MAC over number, type, version, length and data |
| RecordAuthenticity.CbcAccepts | utls/conn.go:391-464 | under CBC it opens to some data if and only if the deciphered blocks are that data, that MAC and padding, or, for no data, that MAC with padding that reaches into it; the last block becomes the next vector |
| RecordAuthenticity.PaddingMeetsMac | utls/conn.go:438-464 | a concrete record of the second kind, which is not data, MAC and padding and still opens |
| RecordAuthenticity.AeadAccepts | utls/conn.go:366-437 | under an AEAD it opens to some type and data if and only if the cipher opens it under the nonce and the associated data of the receiver's own number to that data, followed in TLS 1.3 by the type and zeros |
| RecordAuthenticity.OpensIffCarries | utls/conn.go:346-468 | in every mode a protected record opens to some content if and only if it carries the authenticator of that content under the receiver's own number |
| RecordAuthenticity.OpensTwice | utls/conn.go:391-464 | where a CBC record brings its own vector, opening under two numbers takes two different inputs with the same MAC, so a repeated, dropped or swapped record is refused otherwise |
| RecordAuthenticity.OnlySentIsAccepted | utls/conn.go:346-468 | whatever a network does with the records, as long as nobody but the sender makes MACs and seals, the protected content that the receiver accepts before it stops is a prefix of what was sent, in every mode |
| RecordAuthenticity.HonestIsGenuine | utls/conn.go:346-569 | a run that nobody touches meets that condition |
| RecordWriter.UsedGrows | utls/conn.go:486-569 | between the start and the end of a run the cipher has been given exactly those nonces |
| RecordExchange.EstablishKeys | utls/conn.go:211-233 | whatever a sender and a receiver have done before, preparing and installing the same keys below TLS 1.3 makes their states equal with number zero and no nonce used; in TLS 1.3 both refuse |
| RecordExchange.InstallSecrets | utls/conn.go:235-243 | TLS 1.3 keys installed at both leave them in equal states if and only if they run the same version, with number zero and no nonce used |
| RecordExchange.Exchange | utls/conn.go:346-569 | a run of messages sealed by one object and opened by another arrives as sent and in order, leaves both in equal states, and the cipher has been given no nonce twice since its keys were installed |
| RecordReader.ReadRecordOutcome | utls/conn.go:602-799 | a call without error opens the records at the front of the stream in order; all but the last are idle, and the payload of the last is the application data set, or the fragment added to the handshake buffer, or it is the change_cipher_spec that installs the keys |
| RecordReader.ReadRecordKeeps | utls/conn.go:602-799 | a call takes at most 33 records less those already ignored, and without error takes one at least and leaves fewer bytes to read |
| RecordReader.HandleOutcome | utls/conn.go:697-785 | content is dropped if and only if it is a warning below TLS 1.3, a superfluous change_cipher_spec of an unfinished TLS 1.3 handshake or empty application data; otherwise, without error, its payload is what is delivered |
| RecordReader.Conn.ReadRecordOrCcs | utls/conn.go:616-788 | the recursive reader, terminating by its retry count, does what the outcome theorem is proved of |
| RecordReader.Conn.RetryReadRecord | utls/conn.go:792-799 | drops one useless record, or fails after 32 |
| RecordReader.Conn.HandleContent | utls/conn.go:697-785 | the dispatch on record types, with every alert, of which that is proved |
| RecordReader.Conn.ReadHandshakeBytes | utls/conn.go:1077-1087 | reads until enough handshake bytes are there |
| RecordReader.Conn.NextHandshake | utls/conn.go:1092-1119 | assembles one message and keeps the surplus, within the size limits |
| RecordWriter.LimitInRange | utls/conn.go:899-944 | the payload limit is always between 1 and 16384, so the write loop progresses, and it is 16384 whenever sizing is not dynamic |
| RecordWriter.SealedLengthIs | utls/conn.go:486-569 | the length of a sealed record in every mode |
| RecordWriter.UnderCeiling | utls/conn.go:679-683 | no sealed record exceeds what the reader admits |
| RecordWriter.FitsSegment | utls/conn.go:899-944 | a payload within the computed size gives a record of at most 1208 bytes in every mode |
| RecordWriter.FillsSegment | utls/conn.go:899-944 | and one byte more passes 1208, so the limit is the largest that fits |
| RecordWriter.LimitGrows | utls/conn.go:899-944 | the limit of the first record is between 900 and 1208 and grows by as much with every further one, up to 16384 |
| RecordWriter.Writer.MaxPayloadSizeForWrite | utls/conn.go:899-944 | computes the limit and counts the packet only when dynamic sizing applies |
| RecordWriter.Writer.WriteRecords | utls/conn.go:1004-1037 | terminates; the records carry consecutive pieces of 1 to 16384 bytes that join to the data, stay under the ceiling, the first application record fits the segment estimate, and the cipher is given the nonces of the run |
| RecordWriter.Writer.WriteRecordLocked | utls/conn.go:978-1047 | all of that, and a change_cipher_spec also installs the prepared keys; whatever is written, the log of nonces has no nonce twice |
| RecordWriter.WrittenIsRead | utls/conn.go:978-1047 | a receiver with matching keys reads back the data under the same record type |
| RecordStream.VersionExpected | utls/conn.go:656-672 | the version that the writer puts in a record is the one that the reader of the same connection wants |
| RecordStream.TakesSealed | utls/conn.go:616-695 | a sealed record at the front of the stream passes every check of the header and is opened to its type and payload |
| RecordStream.DataArrives | utls/conn.go:978-1047 | the records that data was cut into, delivered as one stream of bytes with anything behind them, give the reader exactly that data, in every mode and version; reading goes on behind them in the writer's state, and ends with the end of the stream if nothing follows |
| Interlock.EveryRun | utls/conn.go:1209-1489 | in every interleaving the counter is twice the writers in flight plus the close bit, at most one Close wins, and the wire has at most one close_notify with no application record behind it |
| Interlock.NextKeeps | utls/conn.go:1209-1489 | every atomic step of Write, Close and CloseWrite keeps the invariant |
| Interlock.NoWriteAfterClose | utls/conn.go:1209-1220 | once a Close has won no step starts a Write |
| Interlock.QuietAfterClose | utls/conn.go:1428-1461 | when Close wins with no Write in flight no application record is written in any continuation |
| Interlock.NotifySent | utls/conn.go:1428-1489 | after a Close that wins with no Write in flight, or a CloseWrite, on a completed handshake, a close_notify is on the wire in every continuation in which that thread is past its alert |
| Interlock.CloseSkipsNotify | utls/conn.go:1428-1461 | a Close wins exactly when the counter is still what it loaded; it then goes straight for the transport if and only if a Write is in flight |
| Interlock.EveryRecordSent | utls/conn.go:1209-1264 | every record that a Write sends goes on the wire once, and no other application record does |
| Certificate.CertBack | utls/handshake_messages.go:1525-1638 | reading a written certificate list gives it back, except that empty staples and timestamps are refused and an empty list loses them |
| Certificate.CertificateRoundTrip | utls/handshake_messages.go:1506-1578 | the receiver gets what the flags let through, with the flags it implies |
| Certificate.CanonicalRewritten | utls/handshake_messages.go:1506-1638 | a canonical message that was read is written back byte for byte |
| Certificate.RewrittenIffCanonical | utls/handshake_messages.go:1506-1638 | writing what was read gives the received bytes if and only if those are canonical: right header, leaf extensions at most staple then timestamps, none on other entries |
| Certificate.SentIsRewritten | utls/handshake_messages.go:1976-2004 | what an honest peer sends is hashed alike by a receiver that writes it again |
| Certificate.UnknownExtensionDropped | utls/handshake_messages.go:1627-1630 | a concrete message with an unknown extension that is read but not written back as it was |
| Certificate.VerifyRoundTrip | utls/handshake_messages.go:1895-1922 | a certificate verify message is read back |
| Certificate.FinishedRoundTrip | utls/handshake_messages.go:1738-1753 | a finished message is read back |
| CertificateCode.WriteCert | utls/handshake_messages.go:1525-1560 | the loop, with extensions on the leaf alone, writes the list |
| CertificateCode.LoadCert | utls/handshake_messages.go:1580-1638 | the nested loops read the list, ignoring extensions behind the leaf |
| Session.ParseUndoesBytes | utls/ticket.go:108-289 | for every session that can be encoded, exactly what parsing gives: nothing for the listed reasons, else the session with unwritten fields empty and the leaf put in front of each chain |
| Session.UnchangedIffRegular | utls/ticket.go:108-289 | encoding and parsing gives a session back unchanged if and only if it sets no field that is not written for it and its chains start with its leaf |
| Session.ProtocolLost | utls/ticket.go:293-305 | a session of an ordinary connection, which is made with the negotiated protocol and without early data, always comes back without the protocol and otherwise unchanged |
| Session.Http2Lost | utls/ticket.go:293-305 | a concrete session that loses its protocol |
| SessionCode.WriteSession | utls/ticket.go:108-171 | the builder code and its loops |
| SessionCode.LoadChains | utls/ticket.go:234-261 | the nested loops over the chains |
| SessionCode.LoadSession | utls/ticket.go:182-289 | the parser with its loops |
| TicketKeys.NextKeeps | utls/common.go:1069-1122 | both looks at the keys keep them newest first, a day or more apart, with none expired when the first was made |
| TicketKeys.FewKeys | utls/common.go:1069-1122 | there are never more than seven keys |
| TicketKeys.ReturnedKeys | utls/common.go:1069-1122 | whatever is handed out has an encrypting key under 24 hours old and no key that has reached eight days |
| TicketKeys.RunKeeps | utls/common.go:1069-1122 | over any sequence of steps with a monotone clock the invariant holds |
| TicketKeys.FreshRunKeeps | utls/common.go:1069-1122 | so every run of a new configuration keeps it, with at most seven keys |
| TicketKeys.KeyStays | utls/common.go:1106-1120 | a key stays in the list through every run that ends before it is seven days old |
| TicketKeys.Config.LookAtKeys | utls/common.go:1095-1098 | the fast path under the read lock |
| TicketKeys.Config.RenewKeys | utls/common.go:1100-1121 | the second look under the write lock, with its filtering loop |
| TicketKeys.EncryptTicket | utls/ticket.go:320-346 | fills one buffer with vector, enciphered state and MAC, refused without keys; the ticket opens to the state with the same keys, given that no other key has the same MAC on it |
| TicketKeys.DecryptTicket | utls/ticket.go:365-395 | opened by the first key whose MAC fits |
| TicketKeys.TicketOpens | utls/ticket.go:320-395 | a ticket opens to its state if and only if its key is in the list, given that no other key has the same MAC on it |
| TicketKeys.AcceptedIsTagged | utls/ticket.go:365-395 | any bytes are accepted as a ticket if and only if they end in the MAC of the rest under some key; the first such key deciphers them byte by byte |
| TicketKeys.TicketSurvives | utls/ticket.go:320-395 | a ticket opens at the end of every run that ends before its key is seven days old |
| TicketKeys.FreshTicketSurvives | utls/ticket.go:320-395 | in a new configuration a ticket made after any steps opens after any further ones that end in time |
| Upstream.TryGood | proxy/proxy.go:3259-3352 | one candidate: at most two dials, exactly one failure report when it fails and is reported at all, every connection closed but the one won |
| Upstream.TryAllGood | proxy/proxy.go:3257-3353 | candidates are tried in order until one wins, each as above |
| Upstream.EstablishGood | proxy/proxy.go:3241-3372 | at most two rounds, the second only after a failed first and under the other secure mode; the connection handed back is the only one left open |
| Upstream.TryFirst | proxy/proxy.go:3259-3352 | a candidate is dialled twice if and only if its first handshake was rejected for ECH and the key could be refreshed; its connection is that of the first attempt that connects and completes the handshake, and success is reported exactly then |
| Upstream.TryAllFirst | proxy/proxy.go:3257-3353 | a round gives the connection of the first attempt that succeeds, and none only if no attempt does |
| Upstream.FallbackPlain | proxy/proxy.go:3355-3372 | the second round runs under the other secure mode and dials every candidate once |
| Upstream.Proxy.TryCandidate | proxy/proxy.go:3259-3352 | the attempt loop |
| Upstream.Proxy.TryCandidates | proxy/proxy.go:3257-3353 | the candidate loop |
| Upstream.Proxy.EstablishUpstreamConn | proxy/proxy.go:3241-3372 | the whole call with its bounded recursion produces the events of which the above is proved; the connection it returns is that of its first attempt to succeed, and it returns none only if none does |
| ServerHello.ServerHelloRoundTrip | utls/handshake_messages.go:781-1039 | a TLS 1.3 server's hello or retry request is read back as meant, with its wire bytes kept |
| Handshake.Client.Start | utls/handshake_client.go:1367-1375 | fills in the binder over an empty transcript and sends the hello, failing exactly when either cannot be written |
| Handshake.Client.CheckServerHello | utls/handshake_client_tls13.go:182-234 | the checks in order with their alerts and the search for the suite; the first message accepted fixes a suite that was offered and is known, and every later one is accepted only with that suite |
| Handshake.Client.ProcessRetry | utls/handshake_client_tls13.go:252-504 | the checks in order with their alerts; replaces the first hello by its hash, updates share, PSK age and binder, and sends the second hello exactly when the request is in order and the hello can be written |
| Handshake.RetryChanges | utls/handshake_client_tls13.go:252-441 | the second hello is the first with the cookie, the one new share of a group that was supported but not sent, and the session offer renewed or dropped; a request that changes nothing is refused |
| Handshake.Client.ProcessServerHello | utls/handshake_client_tls13.go:506-683 | the checks in order with their alerts; accepts the choice exactly when it fits the offer, agrees on the shared key with the share it names, and derives the handshake secrets of the chosen suite from it and from the transcript with the ServerHello |
| Handshake.Client.ReadServerCertificate | utls/handshake_client_tls13.go:800-836 | a certificate enters the transcript as written again |
| Handshake.Client.ReadServerVerify | utls/handshake_client_tls13.go:838-877 | the signature is checked over the transcript before the message |
| Choice.ChooseSuite | utls/handshake_server_tls13.go:186-195 | the loop over the preference list finds the first suite that is offered and known |
| Choice.ChooseGroup | utls/handshake_server_tls13.go:208-230 | dropping, sorting twice and taking the first gives the first of the best groups, ranked by kind and then by share |
| Choice.PickedGroup | utls/handshake_server_tls13.go:199-230 | a group is picked if and only if one is common; it is post-quantum if any common one is, and among its kind has a share if any has, so that a retry is asked for only when it must be |
| Choice.SortedByRank | utls/handshake_server_tls13.go:222-229 | two stable sorts, by share and then by kind, leave the groups in the order of their ranks |
| Handshake.Server.ReceiveHello | utls/handshake_server_tls13.go:107-230 | the checks in order with their alerts; accepts a first hello exactly when it meets the demands, and settles suite and group |
| Handshake.Server.ReceiveSecondHello | utls/handshake_server_tls13.go:593-668 | the checks in order with their alerts; accepts the second hello exactly when it has one share of the group and changes nothing it may not |
| Handshake.ChangedIllegally | utls/handshake_server_tls13.go:673-726 | the comparison list by list finds exactly the hellos that differ in more than share, session offer and early data |
| Handshake.LegalChanges | utls/handshake_server_tls13.go:673-726 | a second hello is accepted if and only if it is the first but for shares, session offer, early data and what is not compared |
| Handshake.Server.AcceptShare | utls/handshake_server_tls13.go:232-328 | finds the first share of the group and agrees on the key |
| Handshake.Server.CheckForResumption | utls/handshake_server_tls13.go:330-468 | the identity loop, at most five, with the binder checked over the transcript and the cut hello |
| Handshake.ResumedIsBound | utls/handshake_server_tls13.go:330-468 | a session is resumed if and only if it is that of the first known ticket among the first five and the binder was made from its secret over the transcript and the cut hello |
| Handshake.Server.ReadClientCertificate | utls/handshake_server_tls13.go:1036-1075 | the client's certificate enters the transcript as received |
| Handshake.Server.ReadClientVerify | utls/handshake_server_tls13.go:1076-1114 | the signature is checked over the transcript before the message |
| KeySchedule.DerivedAsScheduled | utls/internal/tls13/tls13.go:57-160 | the secrets that a party derives in three steps are those of the table in section 7.1 of RFC 8446: label, parent secret and transcript of each |
| KeySchedule.KeysSeparate | utls/handshake_client_tls13.go:649-680 | without a collision among the values at hand, no secret of one purpose equals one of another, in one run or two, and an equal secret of the same purpose means the same shared key and the same messages hashed |
| HandshakeRun.RetrySucceeds | utls/handshake_client_tls13.go:330-441 | an honest client answers a retry request whenever the hello with the new share can be written; the answer differs in share and session offer alone, and its binder is bound to the retry transcript |
| HandshakeRun.SameReport | utls/handshake_server_tls13.go:673-726 | such an answer, as the server reads it, passes the comparison with the first hello |
| HandshakeRun.ResumptionAgrees | utls/handshake_server_tls13.go:330-468 | for an honest client the server never finds a bad binder, and resumes only the session the client holds |
| HandshakeRun.Retry | utls/handshake_server_tls13.go:546-671 | the client accepts the retry request and is bound to its suite, the server accepts the second hello, and both transcripts agree up to it |
| HandshakeRun.SettleKeys | utls/handshake_client_tls13.go:132-145 | the client accepts the ServerHello as fitting its offer and any earlier retry request, and both sides have the same suite, the same shared key, made from both private keys, and the same handshake secrets over the same transcript |
| HandshakeRun.PassServerFinished | utls/handshake_client_tls13.go:879-926 | between a client and a server in any state, under any suites, the server's Finished is accepted if and only if the two values agree |
| HandshakeRun.PassClientFinished | utls/handshake_server_tls13.go:961-1148 | the same for the client's Finished, which the server works out before it arrives |
| HandshakeRun.ServerFlight | utls/handshake_server_tls13.go:728-940 | the client accepts every message of the server's flight, Finished included, and both hold the same application secrets; without resumption the client has the server's certificate chain |
| HandshakeRun.ClientFlight | utls/handshake_server_tls13.go:1036-1148 | the server accepts every message of the client's flight, Finished included, and both hold the same resumption secret |
| HandshakeRun.HonestRun | utls/handshake_client_tls13.go:52-178 | every run of compatible parties that can write their messages, with or without retry, resumption, certificate and client authentication, succeeds: each side has accepted exactly the messages that the other has sent, in order, transcripts, shared key, secrets and suite are equal, and the secrets are those of the RFC's schedule over that shared key and three growing transcripts |
| HonestExample.ExampleIsHonest | utls/handshake_client_tls13.go:52-178 | the conditions of an honest run can be met, on the path through a retry request with certificates on both sides |
| HonestExample.ResumptionIsHonest | utls/handshake_client_tls13.go:52-178 | they can be met with a session that is resumed, with a retry request and without |
| HandshakeTamper.OneReading | utls/handshake_messages.go:1976-2004 | handshake messages that join to the same transcript are the same messages |
| HandshakeTamper.UnmarshalKeeps | utls/handshake_messages.go:449-711 | a parsed hello keeps the bytes it was parsed from, whatever they are |
| HandshakeTamper.ClientOpening | utls/handshake_client_tls13.go:52-145 | against any answers, with or without a retry, the client's transcript is a list of whole messages with its own last hello and the answer to it in their places, behind the hash of its first hello after a retry; the answer fits its offer and is no older version, and its shared key and secrets come from that answer |
| HandshakeTamper.ServerOpening | utls/handshake_server_tls13.go:107-468 | against any hellos, the same of the server's transcript |
| HandshakeTamper.SharedAgrees | utls/handshake_client_tls13.go:582-647 | a client and a server that saw the same hello and answer hold the same shared key, given symmetric key agreement |
| HandshakeTamper.SecretsAgree | utls/handshake_client_tls13.go:582-683 | a client and a server that saw the same hello and answer derive the same handshake secrets, given symmetric key agreement and the same session if one is resumed |
| HandshakeTamper.TamperedRun | utls/handshake_client_tls13.go:879-926 | over a network that delivers anything, a Finished that the client accepts is the value of both transcripts; unless these are two different inputs with one Finished value, both sides have hashed the same messages, the server parsed the client's own hello, both or neither went through a retry, the first hellos then have one hash, and suite, shared key and secrets are equal; whatever is delivered, the answer accepted fits the client's offer, the hello accepted is up to date, and without resumption a trusted certificate's key has signed all that the client had hashed |

## Left out

- Fragment.SendRecords: covers at least one record and one segment; out-of-band sends, segments of -1 (where the first chunk is not written), sleeps and partial writes are not modelled.
- Fragment.FindLastDot: is defined where a byte follows the name; the panic where none does is FragmentHandler.HandleTlsFragment's case of a crash.
- FragmentHandler.HandleTlsFragment: deadlines, the dialling of the fallback and the tunnel itself are not modelled.
- HelloCode.MarshalMsg: the uTLS variant that reorders the outer extension list is not modelled.
- HalfConnCode.Half.Decrypt: needs a record shorter than two to the 31 bytes and a sequence number that has not run out, as the source panics when it does; in-place decryption over the input buffer is modelled on values.
- HalfConnCode.Half.Encrypt: a failing random source is not modelled.
- RecordReader.Conn.ReadRecordOrCcs: temporary network errors and QUIC are not modelled; fewer bytes arrive than there are sequence numbers left.
- RecordWriter.Writer.WriteRecords: failing writes and QUIC are not modelled; MACs and AEAD tags are at most 64 bytes; the record of one byte that Write sends first under TLS 1.0 with CBC is a call of its own; the bit mask that rounds down to blocks is written as a remainder, which is the same for block sizes that are powers of two.
- RecordAuthenticity.OnlySentIsAccepted: a change_cipher_spec record of TLS 1.3 passes without protection and is not counted as content; that nobody but the sender makes MACs and seals is a condition on the records that are delivered.
- RecordStream.DataArrives: MACs and AEAD tags are at most 64 bytes, and fewer bytes arrive than there are sequence numbers left; post-handshake messages between the data are not modelled.
- Interlock.EveryRun: the counter is unbounded, where the source has 32 bits; what a write sends is abstracted to one event per record.
- Handshake.Client.ProcessServerHello: one private key per group stands for the hybrid exchanges; QUIC and ECH are not modelled here.
- Handshake.Server.ReceiveHello: the order of suites, which depends on the hardware, is a parameter; QUIC and ECH are not modelled.
- Handshake.Server.AcceptShare: ALPN is a parameter, and one private key per group stands for the hybrid exchanges.
- Handshake.Client.ReadServerParameters: the contents of encrypted extensions and of certificate requests are checked by parameters.
- HandshakeTamper.TamperedRun: follows the run up to the server's Finished; the encryption of the flight is not part of it, and the Finished value delivered is the server's own.
- HandshakeRun.HonestRun: the dummy change_cipher_spec records and session tickets, which enter no transcript, are not modelled; both parties can write the messages they need.
- Handshake.Server.CheckForResumption: the reasons for which a session in a ticket is not used are one parameter.
- SessionCode.LoadSession: the certificate cache is the predicate that says which bytes are certificates; the ticket field is not part of the encoding.
- TicketKeys.Config.RenewKeys: explicitly set keys and the legacy key are not modelled; a failing random source panics in the source.
- Upstream.Proxy.EstablishUpstreamConn: the upstream TLS handshake, the refreshed ECH configuration and the error texts are not modelled; the fallback mode is taken as already trimmed and in lower case.
- EchSeal.SealedInnerArrives: HPKE set-up, trial of several server keys and grease are not modelled.
- The TLS 1.0 to 1.2 handshakes, renegotiation, key updates and post-handshake messages are not modelled.
- The uTLS extension objects, parrots, the session controller and certificate decompression are not modelled.
- The web dashboard, the command line, logs, certificates on disk, SOCKS5, HTTP and QUIC forwarding, DNS over HTTPS, the Cloudflare pool, and rule and domain matching are not modelled.
