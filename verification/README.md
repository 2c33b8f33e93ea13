# npipe: a verified model of the tunnel protocol

npipe is a reverse-tunnel system.  An *inlet* accepts connections, an *outlet* dials the targets, and a
server relays messages between the players that own the two ends and pushes tunnel configuration to them.
This project models that behaviour in Dafny and proves what it is meant to guarantee, over every input, every
interleaving and every run.

`dafny verify dfyconfig.toml` checks the whole project.

## How the project is organised

| files | subject |
|---|---|
| `Bytes`, `Messages` | octets, big-endian integers, the messages of inlets and outlets |
| `Codec` | payload codec: compression, ciphers, the cyclic XOR, the fields of I2oConnect |
| `Session`, `Flows`, `Lifecycle`, `SessionProofs` | one TCP session as a step system and its invariant: a byte and credit account per direction (`Flows`), and which messages may stand in which order (`Lifecycle`) |
| `Tunnel`, `TunnelTheorems` | any number of sessions sharing the two queues; every step is, for each session seen alone, that session's own step or invisible; the theorems over all runs |
| `Endpoints` | the mutable objects: limiter, writer loop, inlet and outlet, each proved to do what steps of `Session` do |
| `TargetAddr`, `Socks5`, `Socks5Proofs`, `Socks5Stream` | address codec, the SOCKS5 context, its behaviour on fragmented messages and over runs, and on the whole handshake as one stream |
| `Socks5Run`, `Socks5Dial` | the joint run of client, context, inlet and outlet; what a failed dial leaves behind |
| `Socks5Session`, `Socks5Accounts` | a SOCKS5 session with limiter, writer and acknowledgements, and its byte and credit accounts |
| `Framing` | frames cut out of a chunked byte stream, with the server's forwarding mode |
| `Routing`, `Directions` | protobuf bridge, direction-based routing, offline bounce; what each role emits fits where it goes |
| `PlayerBinding` | login, takeover and close |
| `TunnelStore`, `Replication`, `LateLogins`, `Overlaps` | the tunnel list, its database table, notifications, and the clients' copies; logins in the middle of an operation, and operations that overlap |
| `Reconcile`, `ClientProxies` | the inlets and outlets a server or a client runs, kept in step with its tunnels |

Handlers are single steps.  The exceptions are those where the code gives up its lock and it matters: the
limiter's check and its count are two steps, the outlet's connect handler registers a session and answers
later, a peer's close may be taken in two halves, connections may come and go between an operation's
broadcasts and its change of the tunnel list, and that change may come after others.  A tunnel is followed through one lifetime of its
inlet, because session ids start from 1 with each listener.

LZ4, AES, base64, UTF-8 checking, the textual forms of addresses and JSON are parameters.  Where a theorem
needs it, LZ4, AES and base64 are assumed to be inverse pairs (`Codec.Sound`).  The outcomes of dialling,
binding, listening and database calls are parameters too, and every outcome is covered.

## What departs from the obvious intent

In these places the property one would expect does not hold of the code.  The model does what the code does;
a lemma exhibits the failing case and another says exactly when the property holds.

| place | what goes wrong | exactly when |
|---|---|---|
| SOCKS5 verification in pieces | `PartialVerificationPanics`: fields are indexed before they have arrived | `VerificationInPiecesIff` |
| SOCKS5 request for the empty domain | `EmptyDomainWaits`: kept waiting for ever, being shorter than 8 bytes | `RequestConnectsIff` |
| SOCKS5 messages joined in one segment | `OneSegmentIsNotServed`: a frame is given to one handler only, the rest waits for another frame | `HandshakeServedIff`, `AuthenticatedHandshakeServedIff` |
| SOCKS5 close | `CloseOvertakesData`: Close skips the context's own queue | `SocksDrainsIff` |
| SOCKS5 connect that fails | `FailedConnectStaysOpen`: the client is answered with code 4, but its session is never told to close, although section 6 of RFC 1928 asks for it | `SettledAgreesIff`, `DialIsFinal` |
| peer close under two locks | `TwoLocksLoseATakeover` | `LateResetIsHarmlessIff` |
| login during an addition or update | `LateLoginMissesTunnel`: notifications go out before the list changes | `LateLoginAgreesIff`, `AdditionShowsIff`, `EditShowsIff` |
| additions that overlap | `OverlappingAdditionsClash`: the port check gives its lock back before the list is written | `StaleAddKeepsPortsIff` |
| update overlapping a deletion | `WrittenElsewhere`: the list is written at a position found earlier | `StaleUpdateMirrorsIff`, `UpdateSurvivesDeletionIff` |
| client's delete notification | `DeletedOutletStillRuns`, with a run in `RunDeletedOutlet`: returns before `sync_tunnels` | `ClientRunsIff`, `SyncedIffNoneDropped` |
| outlet description | `ReceiverGoesStale`: omits the receiver that its closure captured | `OutletTargetIsRightIff` |

Two functions are weaker than their use.  `add_tunnel` alone would let a port clash through if it were called
with the id of the clashing tunnel (`AddKeepsPortsIff`), but its one caller passes id 0
(np_server/src/web/mod.rs:353-356), and along every run of operations that do not overlap ports stay exclusive
(`PortsStayExclusive`).  The
message bridge alone narrows acknowledged lengths to 32 bits (`BridgeRoundTrip`), which takes a chunk of 4 GiB
to show.

## Model

| member | source | states |
|---|---|---|
| `TunnelTheorems.StreamIntegrity` | np_base/src/proxy/inlet.rs:222-310 | in every state that any run of a tunnel with any number of sessions reaches, the bytes written at the outlet are an in-order prefix of those read at the inlet of the same session, and likewise on the way back |
| `TunnelTheorems.CreditConservation` | np_base/src/proxy/common.rs:61-67 | in every reachable state each counter equals the encoded bytes held by the reader, queued, owed by the peer's writer and in unprocessed acknowledgements plus what a closed peer discarded; it exceeds 1 MiB by at most one chunk; nothing is discarded while the peer runs |
| `TunnelTheorems.DrainBeforeClose` | np_base/src/net/tcp_session.rs:63-124 | in every reachable state, a task whose next job is Close has written everything the other side ever queued, and that side is gone |
| `TunnelTheorems.SessionAgreement` | np_base/src/proxy/outlet.rs:175-284 | in every reachable state, a session open on one side only has the connect, disconnect, failure or Close under way that will make the sides agree |
| `TunnelTheorems.RestMeansDelivered` | np_base/src/proxy/outlet.rs:414-450 | where nothing more can happen without new input, both sides hold the same sessions, all credit is back, no reader is blocked, and every byte read has been written |
| `TunnelTheorems.EveryRunCanBeFinished` | np_base/src/proxy/outlet.rs:97-173 | wherever a run stops, some schedule without new input leads to a state in which all of this holds |
| `TunnelTheorems.DirectionsAreKept` | np_base/src/proxy/inlet.rs:391-431 | in every reachable state inlets have queued only messages for outlets, and outlets only messages for inlets |
| `TunnelTheorems.DialsTheEndpoint` | np_base/src/proxy/inlet.rs:391-402 | along every run a connected session is connected to the endpoint its inlet was opened with |
| `TunnelTheorems.InternalStepHops` | np_base/src/proxy/common.rs:61-63 | every step that works off what is under way strictly lowers the remaining-hops measure of the whole tunnel, or changes nothing |
| `TunnelTheorems.InternalRunsAreBounded` | np_base/src/proxy/inlet.rs:251-263 | no schedule can go on working for more steps than the measure says, without new input |
| `TunnelTheorems.ComesToRest` | np_base/src/proxy/outlet.rs:97-103 | from every state there is a schedule after which no internal step can change anything |
| `TunnelTheorems.StillIsResting` | np_base/src/proxy/common.rs:61-63 | where no internal step changes anything, both queues are empty and every task is idle or held back by the limiter |
| `Tunnel.StepProjects` | np_base/src/proxy/inlet.rs:222-232 | a step of the tunnel is, for each session, that session's own step or invisible: no session sees another's messages |
| `Tunnel.AcceptedStarts` | np_base/src/proxy/inlet.rs:350-406 | an accepted connection becomes a session under a new id, with nothing under way but its connect |
| `Tunnel.NetStepKeepsInv` | np_base/src/net/tcp_server.rs:55-73 | every step of any party keeps ids unique and handed out in order, and the invariant of every session |
| `Tunnel.EveryRunKeepsInv` | np_base/src/proxy/outlet.rs:97-173 | the invariant of every session over runs of any length and interleaving |
| `SessionProofs.StartEstablishesInv` | np_base/src/proxy/inlet.rs:350-406 | a freshly accepted session, with its connect queued, satisfies the invariant |
| `SessionProofs.StepKeepsInv` | np_base/src/proxy/outlet.rs:105-173 | every read, limiter, send, write, close, delivery and answer step of one session keeps its byte accounts, credit accounts and message order |
| `SessionProofs.InOrder` | np_base/src/proxy/inlet.rs:277-304 | written is a prefix of queued, which is a prefix of read, in both directions |
| `SessionProofs.DrainedBeforeClose` | np_base/src/proxy/outlet.rs:277-284 | the writer reaches its Close only after everything queued by the other side |
| `SessionProofs.SidesAgree` | np_base/src/proxy/outlet.rs:442-450 | one-sided sessions are transient |
| `SessionProofs.AckIsCovered` | np_base/src/proxy/outlet.rs:286-302 | an acknowledgement never exceeds the counter it lowers, so the clamp to zero never loses credit |
| `SessionProofs.BlockedReaderIsFed` | np_base/src/proxy/common.rs:61-63 | a reader is held back exactly beyond 1 MiB, and if both ends of its session run, that much is under way in chunks and acknowledgements |
| `SessionProofs.AtRestAllIsDelivered` | np_base/src/proxy/inlet.rs:408-418 | a session with nothing under way is open at both ends or at neither, and has delivered all it read |
| `Endpoints.SessionCommonInfo.EncodeDataAndLimiting` | np_base/src/proxy/common.rs:48-70 | the loop goes on at the first acknowledgement that brings the counter within the limit and not before; the counter then grows by the encoded length |
| `Endpoints.LimiterIsPassThenCount` | np_base/src/proxy/common.rs:48-70 | the loop is, in the step system, a Read, a Pass that does nothing as long as the loop waits and is taken when it goes on, and a Count, with the same counter at the end |
| `Endpoints.AckedAllCounts` | np_base/src/proxy/outlet.rs:286-302 | a series of acknowledgements changes the counter, as the loop sees it change, and nothing else |
| `Endpoints.SessionCommonInfo.Acknowledge` | np_base/src/proxy/inlet.rs:251-263 | lowers the counter, clamped at zero |
| `Endpoints.PollWrite` | np_base/src/net/tcp_session.rs:63-124 | jobs are done in order up to the first Close or to a failing write; what is written is their data, or a prefix of it that ends where the socket failed; exactly the chunks written whole are acknowledged |
| `Endpoints.WriteStepsDo` | np_base/src/net/tcp_session.rs:97-110 | n Write steps of the step system append the data of n chunks to the far flow and emit their acknowledgements, in order |
| `Endpoints.PollWriteIsWriteSteps` | np_base/src/net/tcp_session.rs:63-124 | the loop over a session's writer is as many Write steps as it does jobs, with the same bytes and acknowledgements, and then either an empty writer, the step that closes the task, or the step in which a write fails |
| `Endpoints.AllBeforeAClose` | np_base/src/net/tcp_session.rs:63-124 | where the socket has room, everything before the first Close is written |
| `Endpoints.NothingBehindAClose` | np_base/src/net/tcp_session.rs:72-85 | nothing behind a Close, delayed or not, is written |
| `Endpoints.OtherJobs` | np_base/src/net/tcp_session.rs:72-96 | a delayed close ends the task like any other, and a reply is written without an acknowledgement |
| `Endpoints.Inlet.InputInternal` | np_base/src/proxy/inlet.rs:222-310 | does to a session without a SOCKS5 context what the step system's inlet handler does, queues a context's messages to it, knows exactly the messages that outlets send, panics exactly on a datagram for a session without a context, and leaves all other sessions alone |
| `Endpoints.Inlet.OnSessionStart` | np_base/src/proxy/inlet.rs:350-406 | registers the session as the step system starts one, and queues its connect or, for SOCKS5, opens the queue to its context |
| `Endpoints.Inlet.OnSessionClose` | np_base/src/proxy/inlet.rs:408-418 | removes the session and announces it, as the step system closes a task |
| `Endpoints.Outlet.InputInternal` | np_base/src/proxy/outlet.rs:105-302 | does to the registered sessions, tasks and dialled addresses what the step system's outlet handler does up to the registration, gives the same answers, knows exactly the messages that inlets send, and leaves all other sessions alone |
| `Endpoints.ConnectAnsweredIff` | np_base/src/proxy/outlet.rs:175-226 | a connect is answered well, dials its address and starts a session with the offered codec exactly if the session is new, codec and type are known and the dial succeeds; otherwise nothing is started |
| `Endpoints.Outlet.AnswerConnect` | np_base/src/proxy/outlet.rs:142-150 | the handler's own answer to a connect, as the step system's Answer step gives it |
| `Endpoints.SecondAnswer` | np_base/src/proxy/outlet.rs:204-226 | that answer misses a session only if it is gone again, and until it is given no other message is handled |
| `Endpoints.Outlet.OnSessionClose` | np_base/src/proxy/outlet.rs:442-450 | removes task and registration and announces it |
| `Codec.XorByteAt` | np_base/src/proxy/crypto.rs:122-126 | exclusive or of octets: the result has exactly the bits in which they differ |
| `Codec.XorInPlace` | np_base/src/proxy/crypto.rs:122-132 | the in-place loop computes the data exclusive-or the key repeated for ever |
| `Codec.XorCycleAt` | np_base/src/proxy/crypto.rs:122-132 | octet i of the result differs from octet i of the data in exactly the bits of octet i modulo the key's length of the key |
| `Codec.XorCycleInvolution` | np_base/src/proxy/crypto.rs:122-132 | applied twice with the same key it gives the data back, for any data and key |
| `Codec.EncodedIs` | np_base/src/proxy/common.rs:48-60 | what goes out is the data, compressed if so configured, then sealed by the library under the key, or changed in the bits of the repeated key, or left alone, as the method says |
| `Codec.DecodesIff` | np_base/src/proxy/common.rs:72-85 | what comes in is refused exactly if the library cannot open or decompress it |
| `Codec.DecodeInvertsEncode` | np_base/src/proxy/common.rs:48-85 | whatever encodes, decodes to the original, for every compression flag, method and key |
| `Codec.MethodNames` | np_base/src/proxy/crypto.rs:34-57 | the names of methods, and that any other name means no cipher |
| `Codec.OfferedFields` | np_base/src/proxy/outlet.rs:182-194 | compression flag, method name and base64 key stand in an offer; an offer is refused exactly if its key is not base64 |
| `Codec.AcceptInvertsOffer` | np_base/src/proxy/outlet.rs:189-191 | the outlet rebuilds exactly the inlet's codec configuration from the fields of I2oConnect |
| `Codec.NpipeCoderIsFaithful` | np_base/src/proxy/inlet.rs:391-402 | the two together: an outlet session decodes every chunk of the inlet session that opened it |
| `Bytes.Be16Order` | np_base/src/proxy/socks5/target_addr.rs:212-212 | the two octets of numbers, compared from the first on, are in the order of the numbers: the high octet comes first |
| `Bytes.Be32Order` | np_server/src/peer/mod.rs:209-210 | the same for four octets |
| `TargetAddr.ParsedLayout` | np_base/src/proxy/socks5/target_addr.rs:162-223 | where type, octets, name and port stand in a parsed address, the port with its high octet first, per section 5 of RFC 1928 |
| `TargetAddr.ReadsIff` | np_base/src/proxy/socks5/target_addr.rs:162-223 | exactly when an address is incomplete, invalid or indexed out of range, for every buffer and type |
| `TargetAddr.ReadInvertsWrite` | np_base/src/proxy/socks5/target_addr.rs:34-66 | reading an encoded address followed by any bytes returns that address and its exact length |
| `TargetAddr.PrefixIsIncomplete` | np_base/src/proxy/socks5/target_addr.rs:162-223 | every proper non-empty prefix is taken as incomplete |
| `TargetAddr.WriteInvertsRead` | np_base/src/proxy/socks5/target_addr.rs:162-223 | writing any address that was read reproduces the consumed bytes |
| `Socks5.Socks5Context.OnRecvFrame` | np_base/src/proxy/socks5/mod.rs:133-162 | the object's fields and outputs follow the status machine, errors included |
| `Socks5.Socks5Context.OnSocks5Init` | np_base/src/proxy/socks5/mod.rs:164-224 | method negotiation: waits, chooses or refuses as the status machine does |
| `Socks5.Socks5Context.OnSocks5Verification` | np_base/src/proxy/socks5/mod.rs:226-267 | user name and password check on a message whose indexed fields have arrived |
| `Socks5.Socks5Context.OnSocks5Connect` | np_base/src/proxy/socks5/mod.rs:269-358 | the request head is put back when the address is incomplete, so nothing is lost |
| `Socks5.Socks5Context.OnRecvO2iConnect` | np_base/src/proxy/socks5/mod.rs:462-517 | answers the client only while connecting; a failed connect is answered with code 4 and stays connecting |
| `Socks5.Socks5Context.OnRecvO2iRecvData` | np_base/src/proxy/socks5/mod.rs:386-418 | payload goes to the writer only while running |
| `Socks5Proofs.AnySplit` | np_base/src/proxy/socks5/mod.rs:133-162 | for any accumulating receiver: if no proper prefix draws a reaction, cutting a message up makes no difference |
| `Socks5Proofs.GreetingInPieces` | np_base/src/proxy/socks5/mod.rs:164-224 | a greeting of section 3 of RFC 1928 in any pieces leaves the same status, buffer and output as in one, with no output before the last byte |
| `Socks5Proofs.RequestInPieces` | np_base/src/proxy/socks5/mod.rs:269-334 | the same for a request of section 4 of RFC 1928 with a non-empty address |
| `Socks5Proofs.GreetingAnsweredIff` | np_base/src/proxy/socks5/mod.rs:164-224 | for every buffer: a greeting waits until complete; the wanted method is chosen exactly if the client offers it, and what follows stays; anything else is refused with 255 and closed |
| `Socks5Proofs.RequestConnectsIff` | np_base/src/proxy/socks5/mod.rs:269-334 | a complete request for an address is turned into exactly one I2oConnect, for that address on CONNECT and for the client's own with its port on UDP ASSOCIATE, with the session's id, offer and client address, exactly if it has at least 8 bytes |
| `Socks5Proofs.RequestRefused` | np_base/src/proxy/socks5/mod.rs:336-357 | any other request is refused with code 7 and closed |
| `Socks5Proofs.LaterFrames` | np_base/src/proxy/socks5/mod.rs:147-161 | frames after the request are relayed while running in TCP mode and ignored otherwise |
| `Socks5Proofs.AnswerPassedOn` | np_base/src/proxy/socks5/mod.rs:462-517 | the outlet's answer becomes one reply of section 6 of RFC 1928 while the context waits for it: success, success with the bound port, or code 4 |
| `Socks5Proofs.PartialVerificationPanics` | np_base/src/proxy/socks5/mod.rs:233-242 | every proper prefix of a verification message of 4 bytes or more is indexed out of range, every shorter one waits |
| `Socks5Proofs.VerificationInPiecesIff` | np_base/src/proxy/socks5/mod.rs:226-267 | a verification message may be cut up exactly if fewer than 4 bytes come before its last piece |
| `Socks5Proofs.VerifiedIff` | np_base/src/proxy/socks5/mod.rs:226-267 | access is granted exactly for the configured user name and password, whatever follows the message, which stays in the buffer; otherwise it is refused and closed |
| `Socks5Proofs.EmptyDomainWaits` | np_base/src/proxy/socks5/mod.rs:269-275 | the complete request for the empty domain is kept waiting |
| `Socks5Stream.HandshakeServedIff` | np_base/src/proxy/socks5/mod.rs:133-162 | without credentials the handshake stream, cut and joined in any way, is answered with method 0 and turned into the connect for its address, exactly if the greeting does not end in the last segment; otherwise the request is kept unanswered |
| `Socks5Stream.AuthenticatedHandshakeServedIff` | np_base/src/proxy/socks5/mod.rs:133-267 | with credentials it is answered with method 2 and an acceptance and turned into the connect for its address, exactly if the first segment behind the greeting's after which 4 bytes of the verification are there brings all of it and is not the last; otherwise the session panics or waits |
| `Socks5Stream.OneSegmentIsNotServed` | np_base/src/proxy/socks5/mod.rs:135-146 | greeting and request in one segment leave the request unanswered |
| `Socks5Proofs.RunOrder` | np_base/src/proxy/socks5/mod.rs:133-358 | over every run of frames and answers: the status rank never falls, at most one I2oConnect, at most one success reply, verification before I2oConnect when credentials are configured, payload after the success reply |
| `Socks5Run.JointStepKeepsInv` | np_base/src/proxy/socks5/mod.rs:365-418 | every step of client, context, inlet and outlet keeps the joint invariant |
| `Socks5Run.ReplyBeforePayload` | np_base/src/proxy/outlet.rs:414-440 | along every joint run the success reply is queued to the client before any payload, and no payload meets a wrong status, although the outlet answers a good connect twice |
| `Socks5Run.SocksDrainsIff` | np_base/src/proxy/inlet.rs:245-250 | when Close is queued, all payload stands before it exactly if none waits in the context's own queue |
| `Socks5Run.CloseOvertakesData` | np_base/src/proxy/inlet.rs:280-281 | a run in which Close is queued while a byte still waits |
| `Socks5Dial.SettledAgreesIff` | np_base/src/proxy/socks5/mod.rs:462-517 | along every joint run: once a session that has asked for its connection has nothing under way, its two sides agree (the outlet is up, or the client's session was told to close) exactly if the dial succeeded |
| `Socks5Dial.DialIsFinal` | np_base/src/proxy/outlet.rs:135-150 | that outcome is fixed at the dial; after a failed one the session has no outlet and no Close in any later state |
| `Socks5Dial.AliveOnlyEnds` | np_base/src/proxy/inlet.rs:420-431 | a session ends exactly with its client or with a frame its context cannot take |
| `Socks5Dial.StepKeepsDial` | np_base/src/proxy/inlet.rs:245-250 | every step keeps: an outlet exists exactly if the dial succeeded, and it is gone exactly if its goodbye is under way or has become a Close |
| `Socks5Dial.FailedConnectStaysOpen` | np_base/src/proxy/socks5/mod.rs:498-512 | a run in which the dial fails, the client is answered with code 4, and the session stays open with nothing under way |
| `Socks5Dial.SuccessfulSession` | np_base/src/proxy/socks5/mod.rs:386-517 | a run that goes well, job by job: the method, the success reply once although the outlet answers twice, then the payload |
| `Socks5Accounts.SocksStreamIntegrity` | np_base/src/proxy/socks5/mod.rs:133-162 | in every state that any run of a SOCKS5 session in TCP mode reaches, with limiter, writers, acknowledgements, context and closes in any order, bytes written at either end are an in-order prefix of those read at the other, from the first byte after the handshake |
| `Socks5Accounts.SocksCreditConservation` | np_base/src/proxy/inlet.rs:251-263 | each counter equals what is held, queued, owed and in unprocessed acknowledgements plus what a closed peer discarded, the context's inbox being one more place on the way down; the overshoot is at most one chunk, and nothing is discarded while the peer runs |
| `Socks5Accounts.SocksRestMeansDelivered` | np_base/src/proxy/common.rs:61-63 | where nothing more can happen without new input, queues and inbox are empty, and a session open at both ends has written every byte it read and has all its credit back |
| `Socks5Accounts.TasksStepAlike` | np_base/src/proxy/socks5/mod.rs:147-161 | in TCP mode the two tasks read, limit, send and write as those of a TCP session |
| `Socks5Accounts.BrokenHandshake` | np_base/src/proxy/socks5/mod.rs:133-162 | a frame the context cannot take ends the session; an error is followed by a goodbye, a panic is not |
| `Socks5Accounts.SockStepKeepsInv` | np_base/src/proxy/inlet.rs:233-281 | every step keeps the accounts and the order, although acknowledgements and goodbyes overtake what waits for the context |
| `Framing.ChunkingIsInvisible` | np_base/src/net/tcp_session.rs:136-161 | for every byte stream, every way of cutting it into chunks and every way in which frames are accepted or refused: the same frames, forwarded bytes, remainder and error |
| `Framing.MessagesComeBack` | np_client/src/client.rs:554-612 | any sequence of packed messages within the limit, in any chunks, comes back exactly, up to and with the first that is refused; if none is, nothing is left over |
| `Framing.PackedOctets` | np_server/src/peer/mod.rs:310-335 | a short message octet by octet: 33, the length, the serial, the id, each with its high octets first, and the body |
| `Framing.NegativeSerial` | np_client/src/client.rs:554-580 | a negative serial stands in two's complement and is read back |
| `Framing.ForeignTraffic` | np_server/src/peer/mod.rs:187-203 | what does not start with the flag is forwarded whole or refused; a frame of length 0 is refused |
| `Framing.WithinLimitIff` | np_client/src/client.rs:583-612 | a packed message is extracted exactly if it is below the limit of the receiving end |
| `Framing.LimitsDiffer` | np_server/src/peer/mod.rs:209-214 | from server to client exactly the messages below 5 MiB pass, from client to server exactly those below 2 MiB; the others are an error |
| `Framing.StreamIsPartitioned` | np_server/src/peer/mod.rs:183-228 | extracted frames, as they stood on the wire, then the forwarded suffix or the remainder, are the stream; a forwarded suffix starts with no flag byte; on a refusal the frames are the beginning of the stream |
| `Framing.UnpackBuffer` | np_client/src/client.rs:215-231 | the inner loop, with its exits on a bad frame and on a refused one, yields what the recursive specification says |
| `Framing.ReadLoop` | np_base/src/net/tcp_session.rs:126-161 | the outer loop over chunks yields what unpacking the whole stream at once yields |
| `Framing.UnpackInvertsContents` | np_client/src/client.rs:252-263 | serial, id and body of a frame are those packed, negative serials included |
| `Routing.BridgeRoundTrip` | np_proto/src/utils/message_bridge.rs:5-116 | the bridge is lossless exactly on messages whose acknowledged length fits 32 bits, and never changes tunnel, session or direction |
| `Routing.BridgeFields` | np_proto/src/utils/message_bridge.rs:5-116 | every message travels under its own kind and every field under its own name, lengths modulo 2^32 |
| `Routing.RolesAlwaysFit` | np_base/src/proxy/inlet.rs:305-307 | what the routing of server and clients hands to an inlet or outlet always has the direction it accepts |
| `Routing.OutputFitsIff` | np_server/src/global/manager/proxy.rs:95-109 | a closure of a tunnel with both ends on one machine, which does not look at the direction, fits exactly what its role may emit |
| `Directions.TunnelEmissionsFit` | np_base/src/proxy/outlet.rs:168-170 | whatever the sessions of a TCP tunnel have queued along any run fits the role its closure hands it to, so the unknown-message branches are unreachable |
| `Directions.SocksEmissionsFit` | np_base/src/proxy/socks5/mod.rs:269-358 | the same for every run of a SOCKS5 session in TCP mode |
| `Directions.ContextEmitsUp` | np_base/src/proxy/socks5/mod.rs:133-358 | whatever the mode, all that a SOCKS5 context emits goes up |
| `Routing.RelayedOrBounced` | np_server/src/global/manager/proxy.rs:173-236 | a relayed message arrives unchanged at its target; for an offline target its bounce goes to the other side, same session and tunnel, opposite direction; it is dropped exactly if there is no role or player to take it |
| `Routing.BounceEndsThere` | np_server/src/global/manager/proxy.rs:199-218 | a bounce keeps the session and reverses the direction; a connect's reports failure; exactly goodbyes and datagrams are not bounced |
| `Directions.BounceCloses` | np_server/src/global/manager/proxy.rs:199-218 | a bounce makes the session at the end it comes back to close |
| `Routing.UnknownGoesNowhere` | np_server/src/peer/handle_push.rs:9-29 | a push for an unknown tunnel, or without a tunnel message, is dropped |
| `Routing.ServerRelays` | np_server/src/peer/handle_push.rs:9-29 | what the server's hop leads to, for every owner of the two ends |
| `Routing.JourneyEnds` | np_client/src/client.rs:479-536 | end to end through closures, clients and server, whoever is online: a message reaches the opposite role of its tunnel unchanged, or its bounce comes back to the emitting role if that is still connected, or nothing arrives |
| `PlayerBinding.Player.CloseSession` | np_server/src/player/mod.rs:75-82 | sends Close to the bound channel, if there is one |
| `PlayerBinding.Player.ResetSessionInfo` | np_server/src/player/mod.rs:84-88 | puts the player offline |
| `PlayerBinding.Player.OnConnectSession` | np_server/src/player/mod.rs:91-101 | binds session and channel; the source's assertion is the precondition |
| `PlayerBinding.Player.Bind` | np_server/src/peer/handle_request.rs:68-79 | login from any state ends bound to the new session and closes a session it supersedes; the not-online assertion holds |
| `PlayerBinding.EveryRunKeepsInv` | np_server/src/player/mod.rs:84-117 | over every run of logins, takeovers and closes: online exactly with a channel, through a live connection logged in as that player; a connection that no longer speaks for its player was told to close |
| `PlayerBinding.LoginTakesOver` | np_server/src/peer/handle_request.rs:68-79 | login binds the connection whoever held the player, tells only the superseded one to close, and touches no other player |
| `PlayerBinding.CloseFreesIff` | np_server/src/peer/mod.rs:164-171 | a close removes the connection, and frees the player exactly if the connection still spoke for it; a superseded connection leaves the new binding intact |
| `PlayerBinding.HalvesMakeAClose` | np_server/src/peer/mod.rs:164-171 | the two halves of a close, with nothing between them, are the close in one piece |
| `PlayerBinding.OpenedAndRefused` | np_server/src/peer/handle_request.rs:43-66 | a new connection has an id of its own and speaks for nobody; a repeated login and one for an unknown player change nothing |
| `PlayerBinding.EveryRunKeepsWeakInv` | np_server/src/peer/mod.rs:164-171 | over every run in which closes may take two locks: a bound session is alive or about to be reset |
| `PlayerBinding.LateResetIsHarmlessIff` | np_server/src/peer/mod.rs:168-169 | the second half of such a close keeps every live binding exactly if no live connection has bound the player meanwhile |
| `PlayerBinding.TwoLocksLoseATakeover` | np_server/src/peer/mod.rs:168-169 | a run in which the new connection loses the player it has taken over |
| `TunnelStore.TunnelManager.AddTunnel` | np_server/src/global/manager/tunnel.rs:34-65 | list, table, broadcasts and result of an addition, failing database included |
| `TunnelStore.TunnelManager.DeleteTunnel` | np_server/src/global/manager/tunnel.rs:68-98 | the same for a deletion |
| `TunnelStore.TunnelManager.UpdateTunnel` | np_server/src/global/manager/tunnel.rs:101-151 | the same for an update |
| `TunnelStore.TunnelManager.BroadcastUpdate` | np_server/src/global/manager/tunnel.rs:132-146 | delete notes to the former players, then the new state to the present ones, in this order |
| `TunnelStore.TunnelManager.PortConflictDetection` | np_server/src/global/manager/tunnel.rs:206-225 | finds a conflict exactly if another tunnel of the receiver has the port |
| `TunnelStore.TunnelManager.TunnelDetection` | np_server/src/global/manager/tunnel.rs:171-204 | accepts exactly tunnels with valid addresses, known players and a free port |
| `TunnelStore.AddMirrors` | np_server/src/global/manager/tunnel.rs:34-65 | after an addition the list still holds exactly the rows of the table, each once |
| `TunnelStore.DeleteMirrors` | np_server/src/global/manager/tunnel.rs:68-98 | the same after a deletion |
| `TunnelStore.UpdateMirrors` | np_server/src/global/manager/tunnel.rs:101-151 | the same after an update |
| `TunnelStore.AcceptableIff` | np_server/src/global/manager/tunnel.rs:171-225 | a tunnel is accepted exactly if its addresses are valid, its players exist and no other tunnel of its receiver has its port |
| `TunnelStore.AddWrites` | np_server/src/global/manager/tunnel.rs:34-65 | an addition succeeds exactly if acceptable and inserted; then row and entry under the new key are the proposed tunnel, all others stay; otherwise nothing changes |
| `TunnelStore.DeleteRemoves` | np_server/src/global/manager/tunnel.rs:68-98 | a deletion succeeds exactly if the row is there; then row and entry are gone, all others stay; otherwise nothing changes |
| `TunnelStore.UpdateWrites` | np_server/src/global/manager/tunnel.rs:101-151 | an update succeeds exactly if acceptable and known; then row and entry are exactly the new tunnel, all others stay in place; otherwise nothing changes |
| `TunnelStore.AddKeepsPortsIff` | np_server/src/global/manager/tunnel.rs:184-195 | an addition keeps ports exclusive exactly if no tunnel with the proposed id has the same receiver and port |
| `TunnelStore.UpdateKeepsPorts` | np_server/src/global/manager/tunnel.rs:101-151 | an update keeps ports exclusive |
| `TunnelStore.DeleteKeepsPorts` | np_server/src/global/manager/tunnel.rs:68-98 | a deletion keeps ports exclusive |
| `Replication.ViewsAreReplicated` | np_server/src/global/manager/tunnel.rs:34-151 | along every run of registrations, logins, logouts, additions, updates, deletions and deliveries: list and table agree, and what an online client holds once its queued notifications are applied is exactly the rows whose sender or receiver it is |
| `Replication.EventKeepsInv` | np_client/src/client.rs:539-550 | every event keeps that agreement |
| `Replication.ViewIsFresh` | np_server/src/peer/handle_request.rs:81-94 | along every run an online client ends up with exactly the map a new login would give it |
| `Replication.WrittenReaches` | np_server/src/global/manager/tunnel.rs:56-146 | after an accepted addition or update the table holds the tunnel, and exactly the online players it concerns come to hold it, as it is now |
| `Replication.ToldOnce` | np_server/src/global/manager/tunnel.rs:56-59 | an addition or deletion is told once to each player of the tunnel and to nobody else |
| `Replication.DeletedReaches` | np_server/src/global/manager/tunnel.rs:87-92 | after an accepted deletion no online player is left with the tunnel |
| `Replication.ClientCatchesUp` | np_client/src/client.rs:539-550 | however much is under way to a client, that many deliveries bring it up to date and touch nothing else |
| `Replication.Connections` | np_server/src/peer/handle_request.rs:68-94 | what logins, logouts and registrations change, and that they change nothing else |
| `Replication.RowsStayValid` | np_server/src/global/manager/tunnel.rs:171-204 | along every run all rows have valid addresses and players that exist |
| `LateLogins.LateLoginAgreesIff` | np_server/src/global/manager/tunnel.rs:132-148 | after any logins, logouts and deliveries between the broadcasts of an operation and its change of the list, a client agrees with the new list exactly if it did not log in meanwhile or a login would not show the change |
| `LateLogins.AdditionShowsIff` | np_server/src/global/manager/tunnel.rs:56-60 | a login shows an addition exactly if the tunnel concerns the player |
| `LateLogins.EditShowsIff` | np_server/src/global/manager/tunnel.rs:132-148 | a login shows an edit exactly if it begins or ceases to concern the player or changes what a client sees of the tunnel |
| `LateLogins.LateLoginMissesTunnel` | np_server/src/global/manager/tunnel.rs:56-60 | a player that logs in while a tunnel of its own is being added is not told of it |
| `LateLogins.LateLoginStaysWithout` | np_server/src/global/manager/tunnel.rs:56-60 | and stays without it, whatever else happens, until it logs in again or the tunnel is edited |
| `LateLogins.LateLoginMayDelete` | np_server/src/global/manager/tunnel.rs:87-92 | a login between a deletion's change of the list and its broadcasts does no harm |
| `Overlaps.StaleAddKeepsPortsIff` | np_server/src/global/manager/tunnel.rs:34-60 | an addition checked against an older list keeps ports exclusive exactly if it clashes with no tunnel that has come or been edited since |
| `Overlaps.OverlappingAdditionsClash` | np_server/src/global/manager/tunnel.rs:34-60 | two additions for one receiver and port, both checked before either is pushed, both succeed |
| `Overlaps.StaleUpdateMirrorsIff` | np_server/src/global/manager/tunnel.rs:104-148 | an update written at a position found earlier keeps list and table in agreement exactly if the position still holds the tunnel |
| `Overlaps.UpdateSurvivesDeletionIff` | np_server/src/global/manager/tunnel.rs:87-148 | with a deletion between search and write, exactly if the deleted tunnel stood behind the updated one; otherwise the write hits another tunnel or is out of range |
| `Replication.SnapshotShows` | np_server/src/peer/handle_request.rs:81-94 | the map a client builds from a login snapshot is exactly its share of the list |
| `Replication.UpdatePlays` | np_server/src/global/manager/tunnel.rs:132-146 | the delete-then-update notes of an edit turn any player's view into the edited view, whichever of the four players coincide |
| `Replication.PerformShows` | np_server/src/global/manager/tunnel.rs:56-60 | the notes of any operation do to a view what the operation does to the list |
| `Replication.PortsStayExclusive` | np_server/src/global/manager/tunnel.rs:206-225 | along every run in which additions are proposed with id 0, no two tunnels of one receiver come to have equal parsed ports |
| `Replication.Client.OnLoginAck` | np_client/src/client.rs:268-281 | the client's map and what its proxies were synchronised with, after a login |
| `Replication.Client.OnModifyTunnelNtf` | np_client/src/client.rs:539-550 | the same after a notification, a delete leaving the proxies as they were |
| `Replication.SyncedIffNoneDropped` | np_client/src/client.rs:541-544 | after any notes, what the proxies were synchronised with contains the client's map, and equals it exactly if no delete since the last synchronising note named a tunnel the client held |
| `Replication.DeletedTunnelStillRuns` | np_client/src/client.rs:541-544 | a tunnel added and then deleted is still what the client's proxies were synchronised with |
| `Reconcile.ProxyManager.SyncTunnels` | np_server/src/global/manager/proxy.rs:25-171 | entries whose description still matches stay the same, running objects; all others are stopped; new entries are fresh and built for a tunnel of the list; every tunnel that wants an outlet has one, and every one that wants an inlet and can start it |
| `Reconcile.ProxyManager.RemoveOutlets` | np_server/src/global/manager/proxy.rs:28-55 | exactly the outlets no tunnel asks for are stopped and removed |
| `Reconcile.ProxyManager.RemoveInlets` | np_server/src/global/manager/proxy.rs:57-84 | the same for inlets |
| `Reconcile.ProxyManager.AddOutlets` | np_server/src/global/manager/proxy.rs:86-119 | missing outlets are created, present ones untouched |
| `Reconcile.ProxyManager.AddInlets` | np_server/src/global/manager/proxy.rs:121-170 | missing inlets of a valid type that start are added, present ones untouched |
| `Reconcile.OutletsMatch` | np_server/src/global/manager/tunnel.rs:254-259 | over unique ids, after a synchronisation of the server or of a client, the outlets are exactly the enabled tunnels whose sender it is, with matching descriptions |
| `Reconcile.InletsMatch` | np_server/src/global/manager/tunnel.rs:261-277 | the inlets are exactly the enabled tunnels whose receiver it is and that kept their inlet or could start one, with matching descriptions |
| `Reconcile.SecondSyncKeepsOutlets` | np_server/src/global/manager/proxy.rs:25-171 | a second synchronisation leaves the same outlet objects |
| `Reconcile.SecondSyncKeepsInlets` | np_server/src/global/manager/proxy.rs:25-171 | if every inlet of a valid type started, a second synchronisation leaves the same inlet objects |
| `Reconcile.DescriptionsAgreeIff` | np_server/src/global/manager/tunnel.rs:254-277 | two tunnels have one inlet description exactly if they agree on the twelve listed fields, and one outlet description exactly if on id, sender and enabled |
| `Reconcile.SyncAgrees` | np_server/src/global/mod.rs:103-108 | a synchronisation with the loaded table, the first included, makes what runs agree with the rows: an outlet exactly for each enabled row with sender 0, an inlet only for enabled rows with receiver 0 and for each of them of a known type that could start, each described as its row |
| `Reconcile.EditedInletIsReplacedIff` | np_server/src/global/manager/proxy.rs:57-84 | an update leaves the inlet object in place exactly if none of the twelve fields has changed |
| `Reconcile.ProxiesFollowTheList` | np_server/src/global/manager/tunnel.rs:34-151 | from the first synchronisation on, along every run of succeeding and failing operations over changing players, each followed by its synchronisation, list, table and running proxies agree in this sense |
| `Reconcile.InletTargetIsRight` | np_server/src/global/manager/proxy.rs:126-147 | an inlet always answers to the present sender of its tunnel |
| `Reconcile.OutletTargetIsRightIff` | np_server/src/global/manager/proxy.rs:90-93 | an outlet answers to the present receiver of its tunnel exactly if none with the same description was there for another receiver |
| `Reconcile.ReceiverGoesStale` | np_server/src/global/manager/tunnel.rs:254-259 | editing only the receiver of a tunnel, in any list, keeps its outlet and so leaves it answering the old receiver |
| `ClientProxies.ClientRunsIff` | np_client/src/client.rs:297-477 | after any notifications a client runs exactly the outlets of its map and of the tunnels that delete notifications dropped since the last synchronisation, hence those of its map exactly if no dropped tunnel has it as enabled sender; inlets are for the same tunnels only |
| `ClientProxies.HandlingKeepsRuns` | np_client/src/client.rs:539-550 | every notification leaves the proxies as the map they were last synchronised with asks |
| `ClientProxies.LoginEnumerates` | np_client/src/client.rs:268-281 | the list a login is synchronised with is the map it is stored as, tunnel by tunnel |
| `ClientProxies.ClientReadsTheSame` | np_server/src/global/manager/tunnel.rs:279-304 | a client asks for what the server's row asks for, under descriptions with the same fields |
| `ClientProxies.ClientDescriptionsAgreeIff` | np_client/src/client.rs:623-651 | a client's descriptions tell apart whatever differs in a listed field |
| `ClientProxies.ClientsFollowTheTable` | np_client/src/client.rs:265-296 | end to end, along every run of the server and all its clients: a client that has read its notifications runs exactly the outlets of the table's rows with it as enabled sender, and of the tunnels dropped since it last synchronised; its inlets are for such rows and tunnels only |
| `ClientProxies.DeletedOutletStillRuns` | np_client/src/client.rs:541-544 | a tunnel added for a client and then deleted leaves its outlet running and the client's map empty |
| `ClientProxies.RunDeletedOutlet` | np_client/src/client.rs:541-544 | such a run exists: two synchronisations and a deletion leave the outlet in service |

## Left out

- UDP sessions, `udp_bind`'s data path and `recv_udp_data` (which decodes outgoing data): lossy and driven by timers.
- Sockets, TLS, tasks, timers, keep-alive, delayed closing and graceful shutdown: only their outcomes (delivery in order, failure, close) appear.
- Capacity of bounded channels and fairness of locks; session ids are unbounded, so their wrap-around at 32 bits does not occur.
- The outlet's wait of up to 2 seconds for a registration: the handler registers, and answers at any later moment; it answers false only if the session has closed again by then.
- A decompression that fails is an error return here, where the code unwraps.
- The text of error messages, and the client address carried by the I2oConnect of a session without SOCKS5.
- The bytes LZ4, AES, base64 and protobuf produce, key generation, DNS, and textual address and port parsing.
- The string form of descriptions: they are tuples of the listed fields, so two tunnels whose formatted strings happen to coincide are told apart; the order in which a client lists a custom mapping is left open.
- The database and its ORM beyond a map from id to row with fresh non-zero keys; the lists' paged query; the web interface; `PlayerManager`, whose `delete_player` leaves its two indexes in disagreement.
- What overlapping operations on the tunnel list do to notifications and running proxies, and a notification sent between the binding of a login and its LoginAck.
- Endpoints.PollWrite: does not model Flush and SendTo jobs, which no TCP session of a tunnel is given; a flush that fails is logged by the code, which goes on, and here the chunk counts as written.
- Endpoints.Outlet.InputInternal: does not model datagrams (I2oSendToData and UDP targets).
- Socks5Run.JointStepKeepsInv: does not track the payload that the client sends upstream, acknowledgements and the goodbye to the outlet; `Socks5Accounts.SockStepKeepsInv` does.
- Socks5Accounts.SockStepKeepsInv: does not follow a datagram association beyond its request; the context may there handle a message while a frame waits for the limiter, which the code's lock on the context rules out.
