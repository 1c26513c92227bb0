# A verified model of the spark-protocol gateway

The gateway speaks the Photon "spark" protocol over TCP.  Its layers compose: a byte queue, length-prefixed
frames, AES-128-CBC with a rolling initialisation vector, a CoAP codec, and the correlation of requests with
responses; beside them, RSA operations run on a pool of workers that cache parsed keys.  This project models each
layer and proves what holds across the layers and over whole runs.

`dafny verify dfyconfig.toml` checks everything.

## How it is organised

| file | what it holds |
|---|---|
| Octets.dfy, JsMap.dfy | bytes, big-endian fields, exclusive or; JavaScript's insertion-ordered `Map` |
| Chunking.dfy | the frame encoders, one parse of a stream, the `FrameReader` object |
| ByteQueue.dfy, FrameLoop.dfy | the byte queue object and its runs; the message loop that reads frames from it |
| Coap.dfy, CoapLaws.dfy | the codec as functions and as the loops of the source; its laws |
| Cipher.dfy | CBC and padding over an abstract 16-byte permutation |
| Link.dfy | the two-party channel with frames in flight, and what a frame that is never written spoils |
| Messages.dfy | the vocabulary, classification, and the messages that `send` builds |
| Requests.dfy | the table of outstanding requests |
| SessionSpec.dfy, Session.dfy, SessionLaws.dfy | a session as functions on a state, as an object, and its laws |
| Stream.dfy | what a session hears from sealed frames, and what a device hears from the session |
| Gateway.dfy | a session and its message loop over the byte queue in one step system; the end-to-end theorem |
| Peers.dfy | a session and a device with the wires between them, which refine the channel |
| RoundTrips.dfy | a session that sends requests and a device that answers them |
| HandshakeReads.dfy, Handshake.dfy | what the handshake reads from the byte queue; its six stages, and what they establish with an honest device |
| RsaCalls.dfy, Lru.dfy, Worker.dfy | abstract RSA, the key cache, the worker |
| Pool.dfy, PoolLaws.dfy, PoolService.dfy | the pool object, its runs, and pool and workers together |

Objects that the source updates in place (`ByteQueue`, `FrameReader`, `Session`, `CryptoPool`, the worker and its
caches, the handshake's progress record) are classes.  Each of their methods is proved equal to a function on
values, and the laws are proved about these functions over every run.  The same holds for the loops of the codec.

## What is abstract

- The block cipher is any pair of functions on 16-byte blocks of which `dec` undoes `enc`.  RSA is a record of
  functions on parsed keys, HMAC-SHA1 a function.  Nothing else is assumed of them; the laws about an honest device
  say in `KeyPair` that decryption undoes encryption and verification accepts signatures.
- Random bytes (nonce, session key, tokens, counters, RSA padding), what the socket delivers, which timer fires
  next and the order of worker replies are parameters or steps of a run.
- A promise is a number, and settling it is an entry in a list.  That no promise is settled twice is therefore
  proved, not built in.

## Facts of the code that the model keeps

- `encode` and `decode` are not inverse on every byte string.  `decode` reads a missing one-byte extension as NaN:
  a missing length gives an empty value, and if the delta is missing as well an option of number NaN.  It also
  accepts a marker with no payload, which section 3 of RFC 7252 calls a format error.  `WellFormed` tells such byte
  strings apart by walking over them, `ParseThenPrint` says that printing gives back exactly the others, `DecodeAccepts`
  says exactly which byte strings are accepted at all, and `EndingsDecode` what the three tolerated endings decode to.
- `_sendPlain` rolls the vector before it knows that the frame fits.  `SendKeepsSyncIff` says exactly when a send
  keeps the sides in step, `OversizedSendDesyncs` shows one that does not, and `AlwaysRecovers` and
  `DroppedSendSpoilsOneBlock` say over every run what is lost: at most the first 16 bytes of the next frame.
- An empty frame leaves the session without a vector (`FrameEndsSessionIff`, `EmptyFrameDoomsTheNext`).
- A device that sends whole blocks without padding is understood exactly when the last byte is not 1 to 16
  (`UnpaddedRoundTrip`).  The comments of lib/crypto.js speak of such frames, yet the length formula they quote from
  the firmware always adds a block.
- Request tokens are one random byte.  A token that is still in use takes the older request out of the table, and
  the older timer then removes the newer entry (`CollidingTokens`).  `MappedThroughoutIff` and `CloseSettlesAllIff`
  say exactly when no request is lost track of and when closing settles them all.
- `run` assigns `handshaking`, and later the handshake's result `connected`, without looking whether the session was
  closed meanwhile.  Each time this happens to a closed session the close event is emitted once more, although the
  documentation says exactly once: after a late result (`LateHandshakeClosesTwice`), and when a host calls `run` on a
  session it has disconnected (`RunAfterCloseClosesTwice`).  `ClosedIsTerminalIff` counts the close events, and says
  that once is right exactly if neither happens.
- The first message that takes its id from the counter repeats the id of the server's Hello
  (`FirstSendReusesHelloId`).
- `inflight` of the pool's statistics counts queued tasks too (`Conservation` in PoolLaws).
- The comment on `aesEncrypt` says that the vector becomes the last ciphertext block; the session and the
  handshake use the first, and so does the model.

## Model

| member | source | states |
|---|---|---|
| Chunking.EncodeFrame | lib/chunking.js:35-43 | fills a fresh buffer with length and payload; throws exactly above 65535 bytes |
| Chunking.EncodeDeviceFrame | lib/chunking.js:54-63 | the same with the sync byte after the length |
| Chunking.FrameReader.constructor | lib/chunking.js:70-74 | the reader starts with an empty buffer |
| Chunking.FrameReader.Feed | lib/chunking.js:82-92 | returns all whole frames of buffer and chunk, keeps exactly the rest, and the rest holds no whole frame |
| Chunking.RestIsIncomplete | lib/chunking.js:85-90 | what a parse leaves over never contains a complete frame |
| Chunking.DeframeResumes | lib/chunking.js:83-91 | parsing may stop anywhere and go on from the leftover bytes |
| Chunking.ChunkingInvariance | lib/chunking.js:66-92 | for every stream and every split into chunks, all calls together return what one parse of the whole returns, with the same leftover |
| Chunking.DeframeRecovers | lib/chunking.js:54-92 | any list of encoded frames, followed by any bytes, is recovered exactly |
| Chunking.FrameLayout | lib/chunking.js:35-63 | every byte of both wire shapes: big-endian length, towards the server the sync byte, payload |
| ByteQueues.ByteQueue.constructor | lib/session.js:53-57 | an empty, open queue nobody waits on |
| ByteQueues.ByteQueue.Push | lib/session.js:58-61 | appends, then serves waiters |
| ByteQueues.ByteQueue.Close | lib/session.js:62-65 | closes, then serves or rejects all waiters |
| ByteQueues.ByteQueue.Read | lib/session.js:80-85 | adds a waiter under the next number, then serves |
| ByteQueues.ByteQueue.Drain | lib/session.js:66-79 | the loop serves from the head until the head must wait |
| ByteQueues.Conservation | lib/session.js:52-86 | over every interleaving of push, read and close: reads settle in order, each resolved read gets exactly its size, delivered bytes and buffer are the pushed bytes, only a closed queue rejects, nobody waits who could be served |
| FrameLoop.LoopDeframes | lib/session.js:142-150 | in every run of arrivals, wake-ups and closing, the loop has delivered a beginning of what one parse of the arrived bytes yields, and all of it whenever it waits for bytes |
| FrameLoop.LoopAgreesWithFrameReader | lib/session.js:142-150 | the waiting loop and `FrameReader.feed` deliver the same frames and hold the same leftover, for all chunkings |
| FrameLoop.LoopWaitsInTheEnd | lib/session.js:142-150 | while the queue is open and the loop runs, boundedly many wake-ups lead to it waiting for bytes, with every frame that has arrived delivered |
| Coap.EncodeMessage | lib/coap.js:81-105 | the encoder is the function `Encode` |
| Coap.EncodeOptions | lib/coap.js:93-99 | its loop over the sorted options prints them with deltas |
| Coap.OptionHeader | lib/coap.js:107-117 | succeeds exactly for deltas and lengths up to 65804 |
| Coap.DecodeMessage | lib/coap.js:126-162 | the decoder is the function `Decode` |
| Coap.DecodeOptions | lib/coap.js:141-158 | its loop over the buffer parses the options from any position |
| CoapLaws.StableSort | lib/coap.js:85 | a list is the sorted one exactly if it ascends and keeps the options of each number in their order |
| CoapLaws.EncodeAccepts | lib/coap.js:81-117 | a message can be encoded exactly if its token has at most 8 bytes and, once sorted, deltas and lengths are at most 65804 |
| CoapLaws.DecodeAccepts | lib/coap.js:126-162 | a byte string is decoded exactly if it has version 1, a token of at most 8 bytes that is there, and, walking over its options, no reserved nibble, no missing two-byte extension and no short value; only the three lenient endings are tolerated |
| CoapLaws.ReadOption | lib/coap.js:107-158 | a printed option is read back in each of the nine nibble forms, and its first byte is never the payload marker |
| CoapLaws.PrintThenParse | lib/coap.js:81-162 | every message that encodes decodes to itself, fields masked and options stably sorted |
| CoapLaws.CleanIffWellFormed | lib/coap.js:126-162 | the endings the parser tolerates are exactly the byte strings in which an extension byte is missing or a marker stands alone |
| CoapLaws.ParseThenPrint | lib/coap.js:126-162 | for every accepted byte string, encoding the decoded message gives the same bytes exactly if, walking over them, no extension byte is missing and no marker stands alone |
| CoapLaws.DecodeIsInjective | lib/coap.js:126-162 | no two well-formed byte strings decode to the same message |
| CoapLaws.EndingsDecode | lib/coap.js:144-155 | behind any printed message, each lenient ending decodes to that message; a missing length extension adds an empty option numbered by its delta from the one before |
| CoapLaws.HeaderLayout | lib/coap.js:87-90 | every bit of the header: version, type, token length, code, big-endian id (section 3 of RFC 7252) |
| CoapLaws.OptionLayout | lib/coap.js:107-117 | an option head announces its delta and length by the rules of section 3.1 of RFC 7252, and holds no other bytes |
| Cipher.CbcEquations | lib/crypto.js:168-171 | each ciphertext block is the encryption of its plaintext block combined with the block before it (section 6.2 of NIST SP 800-38A) |
| Octets.XorByteUnits | lib/crypto.js:168-196 | exclusive or, as the mode uses it: with zero nothing changes, with itself nothing is left |
| Cipher.Pad | lib/crypto.js:158-171 | appends 1 to 16 bytes, each saying how many, up to a whole number of blocks (section 6.3 of RFC 5652) |
| Cipher.AesEncrypt | lib/crypto.js:168-171 | throws exactly for a wrong key or vector size; ciphertext length 16 * (n / 16 + 1), which fits a frame exactly for plaintexts of at most 65519 bytes |
| Cipher.AesDecrypt | lib/crypto.js:190-196 | throws exactly for a wrong key, vector or ciphertext size |
| Cipher.AesRoundTrip | lib/crypto.js:168-196 | every plaintext of every length comes back |
| Cipher.UnpaddedRoundTrip | lib/crypto.js:177-196 | an unpadded plaintext comes back exactly if its last byte is not 1 to 16, and otherwise loses as many bytes as that byte says |
| Cipher.DeriveAesParams | lib/crypto.js:147-156 | key and vector are the first two blocks of the session key |
| Cipher.WrongIvKeepsTail | lib/session.js:18-26 | with a wrong vector a frame of two or more blocks keeps its length and everything after 16 bytes; in those, exactly the bytes where the vectors differ change |
| Cipher.WrongIvOneBlock | lib/crypto.js:190-196 | a one-block frame keeps its length exactly if the vectors agree in the last byte or neither reading ends in padding |
| Link.SendKeepsSyncIff | lib/session.js:365-369 | a send keeps both sides in step exactly if the frame is written or the new vector equals the old |
| Link.DeliverKeepsSync | lib/session.js:235-244 | a delivery yields the next plaintext sent and keeps both sides in step |
| Link.RollingIv | lib/session.js:18-26 | in every interleaving of sends and deliveries in both directions, with any number of frames in flight, both directions stay in step |
| Link.SyncedMeans | lib/session.js:18-26 | in step, each frame in flight was encrypted under the first block of the one before it, the oldest under the receiver's vector |
| Link.OversizedSendDesyncs | lib/session.js:365-369 | an oversized plaintext does put the sides out of step |
| Link.AlwaysRecovers | lib/session.js:18-26 | for plaintexts of any length: once all frames have arrived the receiver holds the sender's vector, unless the last send was dropped |
| Link.OneArrives | lib/crypto.js:190-196 | byte by byte, what becomes of a plaintext of any length that was sealed under one vector and opened under another |
| Link.DroppedSendSpoilsOneBlock | lib/session.js:365-369 | over every interleaving of sends of any length, dropped ones among them, and deliveries in both directions, from any vectors: every frame in flight is the seal of its plaintext, every received one that is not directly behind a dropped send is read exactly, and of those that are, at most the first 16 bytes change |
| Messages.SearchFinds | lib/messages.js:64-75 | code and Uri-Path determine the name |
| Messages.ClassifyIff | lib/messages.js:64-75 | exactly which messages have which name: Ping by code and type, any other by code and first Uri-Path, and none without a Uri-Path |
| Messages.Vocabulary | lib/messages.js:31-75 | each code and first Uri-Path with the name it is heard as |
| Messages.WhatIsSent | lib/messages.js:31-52 | each name with the code and type it is sent with |
| Messages.BuiltCarries | lib/session.js:350-360 | what is built by name carries the name's code and type (or the caller's type), the id, the caller's token and payload, the caller's options of each number, and the name's Uri-Path in front of the caller's |
| Messages.NameSurvives | lib/session.js:340-363 | whatever the caller adds, a message built by name is classified under that name on the other side exactly if the name has a Uri-Path or is a Ping that is still confirmable |
| Requests.SettledAtMostOnce | lib/session.js:294-323 | over any run of requests with colliding tokens, responses, timers, failed sends and closing: no promise settles twice, one is unsettled exactly while its own timer runs, every entry leads to an unsettled request |
| Requests.TimersSettleTheRest | lib/session.js:310-313 | firing the running timers settles every request that is open |
| Requests.MappedIffFresh | lib/session.js:306-320 | one step loses track of a request exactly if it opens one under a token in use |
| Requests.MappedThroughoutIff | lib/session.js:306-320 | over a run, none is ever lost track of exactly if outstanding tokens were pairwise distinct |
| Requests.ResponseReachesItsRequest | lib/session.js:267-276 | a response settles the one request that issued its token, takes out its entry and its timer, and changes no other entry |
| Requests.CloseSettlesAllIff | lib/session.js:182-193 | closing rejects what is in the table as closed, in insertion order; that is everything still open exactly if none was lost track of |
| Requests.CollidingTokens | lib/session.js:306-323 | two requests under one token, and what goes wrong |
| Requests.StaleAnswer | lib/session.js:306-323 | the late answer to a timed-out request settles a later request that drew the same token |
| Sessions.Session.constructor | lib/session.js:113-157 | a session starts opening, without keys, requests or output, with an empty byte queue |
| Sessions.Session.OnData | lib/session.js:159-163 | socket data goes to the byte queue |
| Sessions.Session.SendPlain | lib/session.js:365-369 | encrypt, roll, and write if the frame fits |
| Sessions.Session.Send | lib/session.js:340-363 | the whole new state, and the id returned |
| Sessions.Session.Request | lib/session.js:294-323 | the whole new state, with the entry and timer taken back if the send throws |
| Sessions.Session.OnTimer | lib/session.js:310-313 | deletes the token's entry and rejects |
| Sessions.Session.BeginRun | lib/session.js:196-200 | the start of `run` makes any session handshaking |
| Sessions.Session.Catch | lib/session.js:226-232 | what `run` catches is an error and the end, unless the session is closed already |
| Sessions.Session.Finalize | lib/session.js:182-193 | closes once, rejecting mapped requests in order and closing the byte queue |
| Sessions.Session.Fail | lib/session.js:173-176 | an error event, then disconnect |
| Sessions.Session.Establish | lib/session.js:208-220 | takes over keys, vectors, counters, device id, session key, product and firmware |
| Sessions.Session.HandleFrame | lib/session.js:235-252 | the whole new state for any bytes |
| Sessions.Session.HandleDecoded | lib/session.js:253-279 | Ping, response or message |
| SessionLaws.RequestsSettleOnce | lib/session.js:111-377 | every run of a session drives its table through a run of table steps, so its invariant holds in every session |
| SessionLaws.TokensAreOneByte | lib/session.js:306 | all request tokens have one byte |
| SessionLaws.PingIff | lib/messages.js:64-75 | only an empty confirmable message is classified as Ping |
| SessionLaws.ConnectedHasKeys | lib/session.js:208-219 | in every run, a connected session holds a key and an outbound vector of 16 bytes |
| SessionLaws.PingIsAcknowledged | lib/session.js:256-261 | in every run, a Ping that reaches a connected session yields exactly one frame, which the other side decodes to an empty ACK with its id and token and nothing in it, and nothing else happens |
| SessionLaws.FrameGoesToItsEntry | lib/session.js:263-279 | in every run, colliding tokens or not, any other decoded frame either resolves the one request the table has under its token and changes no other, or is emitted once |
| SessionLaws.FrameGoesToOnePlace | lib/session.js:263-279 | in every run in which the tokens of outstanding requests were pairwise distinct, any other decoded frame either resolves exactly the request that issued its token and changes no other, or is emitted once; and no request is lost track of |
| Requests.OrderThroughout | lib/session.js:306-320 | while outstanding tokens are distinct, the table lists the open requests in the order they were made |
| SessionLaws.EndRejectsTheRest | lib/session.js:182-193 | in every such run, whatever closes the session rejects every request still open, in the order they were made, and stops its timer |
| SessionLaws.SendIsUnderstood | lib/session.js:340-369 | a send that returns writes one frame; the other side decodes from it a message with the name's code, type and path, the id that was returned, and the caller's token, options and payload; the counter moves on if it gave the id, and nothing else changes |
| SessionLaws.SendReturnsIff | lib/session.js:340-369 | exactly when a send returns, and what one that throws leaves behind |
| SessionLaws.IdsAreConsecutive | lib/session.js:345-346 | over every run, messages that take their id from the counter take consecutive ones modulo 65536 |
| SessionLaws.RequestIsSentOrRejected | lib/session.js:294-323 | in every run, a request on a connected session is either sent, telling name, payload, options and one-byte token, with its timer running and its entry made, or rejected at once with nothing written; otherwise nothing changes |
| SessionLaws.TimerRejects | lib/session.js:310-313 | in every run, the timer of an open request rejects it as timed out and takes out the entry under its token |
| SessionLaws.PlainIsReadBack | lib/session.js:365-369 | a plaintext that goes out can be read back from the one frame written |
| SessionLaws.FrameEndsSessionIff | lib/session.js:235-252 | in every run, a frame ends a connected session exactly if it is not whole blocks or there is no vector; bytes that are not CoAP do not, and still roll the vector |
| SessionLaws.EmptyFrameDoomsTheNext | lib/session.js:244 | after an empty frame the next one ends the session |
| SessionLaws.ErrorsAndEnds | lib/session.js:168-193 | what socket errors, undecryptable frames, the catch of `run`, disconnecting and frames that are no CoAP emit and change |
| SessionLaws.ResultIsTakenOver | lib/session.js:196-220 | the handshake's result is taken over whole, and nothing else is touched |
| SessionLaws.ClosedIsTerminalIff | lib/session.js:182-220 | a closed session stays closed exactly if neither `run` nor the handshake's result comes after the end; close is emitted once per end, so exactly once exactly under that condition |
| SessionLaws.LateHandshakeClosesTwice | lib/session.js:219-220 | a late result revives the session, and close is emitted twice |
| SessionLaws.RunAfterCloseClosesTwice | lib/session.js:196-232 | so does `run` on a disconnected session: its first read is rejected, and close is emitted twice |
| Stream.FrameIsHeard | lib/session.js:235-254 | a frame sealed under the session's vector is heard as the message sent |
| Stream.SessionOpens | lib/session.js:235-252 | over any run and whatever the frames say, the session hears exactly the messages among what a receiver that rolls its vector reads from them |
| Stream.SessionHears | lib/session.js:222-279 | among any sends, requests, timers and closings, the frames handled so far are heard in order |
| Stream.SessionResynchronises | lib/session.js:18-26 | from any 16-byte vector and for any plaintexts, CoAP or not, the first frame brings the session back in step: every later message is heard |
| Stream.SessionHearsAllButFirst | lib/session.js:18-26 | from any 16-byte vector, of the messages of a device at most the first is misheard |
| Stream.SessionSpeaks | lib/session.js:256-369 | over any run, the bytes written are exactly the frames, of those that fit, of the chain of what was said |
| Stream.DeviceHears | lib/session.js:365-369 | over any run, from any beginning of the written bytes the device reads a beginning of what was said and fits, all of it from all bytes; exactly, except directly behind a plaintext that was too long |
| Gateways.GatewayRunsBoth | lib/session.js:222-225 | over every run of data, turns of the loop and other inputs, the session has handled exactly the frames the loop has delivered, and a closing session shuts the queue |
| Gateways.EndToEnd | lib/session.js:142-279 | device messages through CoAP, padding, rolling CBC, frames, any TCP cuts, the byte queue and the loop: at every moment of every run the session has heard an in-order beginning of them, and all once every byte has arrived and the loop waits |
| Gateways.EverythingIsHeard | lib/session.js:142-279 | once every byte has arrived, boundedly many more turns of the loop are enough for all to be heard, unless the session was closed |
| Gateways.EndedHandlesAtMostOne | lib/session.js:222-225 | once the session is not connected its loop hands over at most the one frame it was reading |
| Peers.WorldRefinesChannel | lib/session.js:235-369 | the session itself, with a device and the wires between them, takes the steps of the two-party channel: same vectors, same frames in flight, same plaintexts |
| Handshake.Attempt.Run | lib/handshake.js:115-213 | the stages in order: stage reached, device identified, what was written, and the result |
| Handshake.Attempt.ReadCoreId | lib/handshake.js:123-142 | stage 2: accepts exactly a blob that decrypts to the nonce and an id, and hands on what follows the id |
| Handshake.Attempt.FinishHello | lib/handshake.js:163-212 | stages 5 and 6 |
| HandshakeLaws.StrangersAreRefused | lib/handshake.js:123-137 | a run is refused in stage 2, with only the nonce written, exactly if its blob does not decrypt to this run's nonce and an id; so an answer to any other nonce is refused |
| HandshakeLaws.KnownDevices | lib/handshake.js:138-212 | what a run does for an identified device: stage 3 without a key from the loader, stage 4 if sealing or signing fails, stage 5 without a Hello, and otherwise the result, field by field |
| HandshakeLaws.IdentifiedIff | lib/handshake.js:121-142 | a device is identified exactly if its blob decrypts to this run's nonce followed by at least 12 bytes; these are its id, and what is behind them its own key |
| HandshakeLaws.HonestDeviceIsIdentified | lib/handshake.js:123-142 | the answer of a device that knows the server's key is accepted under its own id and inline key |
| HandshakeLaws.HonestDeviceGetsThrough | lib/handshake.js:115-213 | with an honest device the run ends in DONE under the device's id, and the device has the session key and can check its signature |
| HandshakeLaws.HonestDeviceLearnsTheKey | lib/handshake.js:151-161 | the device gets the session key and can check the signature over it |
| HandshakeLaws.HandshakeEstablishesSync | lib/handshake.js:159-199 | after the handshake both directions are in step, the server's Hello being in flight |
| HandshakeLaws.SessionStaysInStep | lib/session.js:208-225 | from the handshake on, every run of session and device stays in step while plaintexts fit, and otherwise loses only what comes directly behind one that does not |
| HandshakeReads.HandshakeReadsExactly | lib/handshake.js:125-168 | however the device's bytes are cut, a handshake that has read its blob and its frame has read exactly the device's, and has left in the queue exactly what arrived behind them |
| HandshakeReads.HandshakeReadsFinish | lib/handshake.js:125-168 | once blob and Hello have arrived at an open queue, at most three more settled reads finish the handshake's reading |
| HandshakeLaws.HandshakeThenStream | lib/session.js:196-279 | from the first byte of blob, Hello and messages, cut in any way: the handshake is given what the device sent, and the session it establishes, on what is left in the queue, hears the messages in order, and all of them in the end |
| RoundTrips.RequestsGetTheirAnswers | lib/session.js:263-323 | over every run of a session and a device that answers what it reads, with a token of its own for each request: no request settles twice, one settled by an answer has the answer to that very request, none is open once everything was answered, and undisturbed by timers or the end all have got theirs |
| RoundTrips.HandshakeStartsTalk | lib/session.js:208-225 | the handshake leaves session and device where such a conversation starts |
| HandshakeLaws.FirstSendReusesHelloId | lib/handshake.js:189-211 | the device reads stage 6 as a Hello, and the first id from the counter repeats that of the Hello |
| Lru.LruCache.LruGet | lib/crypto-worker.js:28-34 | a hit moves to the end |
| Lru.LruCache.LruSet | lib/crypto-worker.js:36-42 | an insertion beyond 64 drops the front |
| Lru.CacheIsMostRecent | lib/crypto-worker.js:24-60 | after any accesses, some failing, the cache holds exactly the at most 64 most recently used keys in the order of their last use, each with the key its PEM loads to |
| Lru.HitIff | lib/crypto-worker.js:28-60 | an access hits exactly if the key was used before and fewer than 64 other keys since |
| Worker.CryptoWorker.GetKey | lib/crypto-worker.js:44-60 | the cached or loaded key, and the new cache |
| Worker.CryptoWorker.OnMessage | lib/crypto-worker.js:62-87 | the reply is that of the direct call |
| RsaCalls.DirectMeans | lib/crypto-worker.js:62-87 | which key and which operation each job takes, and what it yields |
| Worker.CachingIsTransparent | lib/crypto-worker.js:44-87 | caching changes no answer |
| Pools.CryptoPool.constructor | lib/crypto-pool.js:53-67 | all workers idle |
| Pools.CryptoPool.DispatchJob | lib/crypto-pool.js:92-105 | the whole new state, and the promise |
| Pools.CryptoPool.OnReply | lib/crypto-pool.js:77-84 | settles the id if it is pending and releases the worker, else does nothing |
| Pools.CryptoPool.ReleaseWorker | lib/crypto-pool.js:86-90 | next task or idle |
| Pools.CryptoPool.Snapshot | lib/crypto-pool.js:159-166 | the four numbers |
| Pools.CryptoPool.BeginClose | lib/crypto-pool.js:172-177 | no workers, no queue, no new tasks |
| Pools.CryptoPool.EndClose | lib/crypto-pool.js:178-180 | rejects all pending promises in order |
| PoolLaws.Conservation | lib/crypto-pool.js:77-105 | in every reachable open state each worker is idle or holds exactly one task, pending is the union of queued and posted, these are disjoint and no id occurs twice, a queue means no idle worker, and idle + inflight = workers + queued |
| PoolLaws.ExactlyOnce | lib/crypto-pool.js:77-181 | no id settles twice across replies, late replies and close; settled are exactly those handed out and not pending; none is pending when close has finished |
| PoolLaws.CallGoesToOnePlace | lib/crypto-pool.js:92-105 | in every run, a call is posted to one idle worker, or queued at the end if there is none; on a closed pool it changes nothing |
| PoolLaws.ReplyFeedsOrFrees | lib/crypto-pool.js:77-90 | in every open run, a worker that answers gets the front of the queue, or is idle again if nobody waits |
| PoolLaws.ClosingKeepsPending | lib/crypto-pool.js:172-177 | closing takes away workers, idle list and queue, and keeps what is pending |
| PoolLaws.ClosingRejectsTheRest | lib/crypto-pool.js:172-181 | in every run, only a closing that has finished rejects promises as closed, and it rejects exactly those pending, in order |
| PoolLaws.BoundedWaiting | lib/crypto-pool.js:86-105 | a task at place k of the queue is posted on exactly the (k+1)-th reply while the pool is open |
| PoolService.SystemRunsPool | lib/crypto-pool.js:77-105 | pool and workers together run the pool alone |
| PoolService.ReplySettlesItsPromise | lib/crypto-pool.js:77-84 | in every run, open or closing, a worker's reply settles exactly the promise it answers, if that is still pending, with what the direct call of that promise's own job yields |
| PoolService.CachesFollowUses | lib/crypto-worker.js:24-60 | in every run each worker's caches are those of the keys it was asked for, most recent last |
| PoolService.PoolRefinesDirectCalls | lib/crypto-pool.js:77-153 | in every run, what a worker settled is an outcome of the pure function on that task's own key and data, `verify` is true exactly if that key loads and that signature checks, and only a closed pool rejects otherwise |

## Left out

- lib/server.js, lib/core-keys.js, index.js: listener plumbing, file access and re-exports; only easy members.
- The insides of RSA, HMAC-SHA1, AES and key parsing, and the randomness of tokens and keys: foreign calls.
- Wall-clock values of the idle and request timeouts: a timer may fire at any step.
- Event listeners that call back into the session while it emits, and the exception an unheard `error` event throws.
- Worker crashes, `postMessage` failures, socket write errors, and an error reply with an empty message, which
  `_onMessage` would take for a result: each posted message gets one reply.
- Names inherited from `Object.prototype`, which `send` would find in its table: a name is in the table or unknown.
- Option numbers that are not integers on the way in.
- CoapLaws.EndingsDecode: the option of number NaN that `decode` returns when both extension bytes are missing is not
  in the list of options; the ending `CutBoth` stands for it.
- `uriPath` and `uriQuery`: string joins.
- Gateways.EndToEnd: the device is one that prints and pads as this library does; what a session hears from any other
  frames is stated by `SessionOpens`, what an unpadded device may send by `UnpaddedRoundTrip`.
- RoundTrips.RequestsGetTheirAnswers: for runs in which no token is used twice; with one byte that is at most 256
  requests.  Tokens that are distinct among outstanding requests alone would not do, as `StaleAnswer` shows.
- A second call of `run` while the message loop of the first is going on: two readers would share the byte queue.
- SessionLaws.FrameGoesToOnePlace: for runs in which no token was drawn while it was in use; `MappedThroughoutIff` says
  that these are exactly the runs in which no request is lost track of, and `FrameGoesToItsEntry` covers all others.
