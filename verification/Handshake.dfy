/** The six-stage handshake (lib/handshake.js).  What the awaited calls give back is a parameter: random bytes,
    what was read, and the device key that was found.  RSA operations are the direct calls that the pool refines;
    HMAC-SHA1 is an abstract function. */
module Handshake {
  import opened Octets
  import opened Chunking
  import opened Cipher
  import opened Coap
  import opened CoapLaws
  import opened RsaCalls
  import opened Link
  import SessionSpec

  const NONCE_BYTES := 40
  const ID_BYTES := 12
  const SESSION_BYTES := 40

  datatype Stage = SEND_NONCE | READ_COREID | GET_COREKEY | SEND_SESSIONKEY | GET_HELLO | SEND_HELLO | DONE

  /** The fixed surroundings: RSA, HMAC, the block cipher, the server's private key and the key loader. */
  datatype Setting<!K> = Setting(
    rsa: Crypto<K>, hmac: (Bytes, Bytes) -> Bytes, cipher: BlockCipher, serverPriv: string,
    loadCoreKey: (Bytes, Option<Bytes>) -> Option<string>)

  /** What one run is given: its random bytes (nonce, session key, Hello id, RSA padding) and what it reads. */
  datatype Given = Given(
    nonce: Bytes, blob: Option<Bytes>, sessionKey: Bytes, seed: nat, hello: Option<Bytes>, counter: nat)

  ghost predicate WellGiven(g: Given) {
    |g.nonce| == NONCE_BYTES && |g.sessionKey| == SESSION_BYTES && g.counter < 0x1_0000
  }

  datatype Result = Established(keys: SessionSpec.Keys, peer: SessionSpec.Peer)

  // ----- What each stage needs -----

  function AesKey(g: Given): Block
    requires |g.sessionKey| == SESSION_BYTES
  {
    g.sessionKey[..16]
  }

  function InitialIv(g: Given): Block
    requires |g.sessionKey| == SESSION_BYTES
  {
    g.sessionKey[16..32]
  }

  /** Stage 2: what the device's blob decrypts to. */
  function Claim<K>(s: Setting<K>, g: Given): Option<Bytes> {
    if g.blob.None? then None
    else
      match Direct(s.rsa, Job(Decrypt, s.serverPriv, g.blob.value, []), 0)
      case Result(p) => Some(p)
      case Failure(_) => None
  }

  predicate Identified<K>(s: Setting<K>, g: Given) {
    var p := Claim(s, g);
    p.Some? && |p.value| >= NONCE_BYTES + ID_BYTES && p.value[..NONCE_BYTES] == g.nonce
  }

  function CoreId<K>(s: Setting<K>, g: Given): Bytes
    requires Identified(s, g)
  {
    Claim(s, g).value[NONCE_BYTES..NONCE_BYTES + ID_BYTES]
  }

  function InlineKey<K>(s: Setting<K>, g: Given): Option<Bytes>
    requires Identified(s, g)
  {
    var der := Claim(s, g).value[NONCE_BYTES + ID_BYTES..];
    if der == [] then None else Some(der)
  }

  /** A loader that finds nothing returns null; an empty PEM counts as nothing as well. */
  function CoreKey<K>(s: Setting<K>, g: Given): (k: Option<string>)
    requires Identified(s, g)
    ensures k.Some? ==> k.value != ""
  {
    var k := s.loadCoreKey(CoreId(s, g), InlineKey(s, g));
    if k == Some("") then None else k
  }

  /** Stage 4: the session key for the device, and the signature over its HMAC. */
  function SealedKey<K>(s: Setting<K>, g: Given, coreKey: string): Outcome {
    Direct(s.rsa, Job(Encrypt, coreKey, g.sessionKey, []), g.seed)
  }

  function Signature<K>(s: Setting<K>, g: Given, sealedKey: Bytes): Outcome {
    Direct(s.rsa, Job(Sign, s.serverPriv, s.hmac(sealedKey, g.sessionKey), []), 0)
  }

  /** Stage 5: the device's Hello under the initial vector. */
  function Hello<K>(s: Setting<K>, g: Given): Decoded
    requires |g.sessionKey| == SESSION_BYTES
  {
    if g.hello.None? then Malformed
    else
      var plain := AesDecrypt(s.cipher, AesKey(g), InitialIv(g), g.hello.value);
      if plain.None? then Malformed else Decode(plain.value)
  }

  /** Stage 6: the server's Hello. */
  function HelloOut(counter: int): Message {
    Message(NON, POST, counter, [], [CoapOption(URI_PATH, [0x68])], [])
  }

  lemma HelloOutPrints(counter: nat)
    requires counter < 0x1_0000
    ensures var p := Encode(HelloOut(counter));
            p.Some? && |p.value| == 6 && Decode(p.value) == Decoded(HelloOut(counter), Clean)
  {
    hide Encode, Decode;
    PrintThenParseHello(counter);
    PrintThenParse(HelloOut(counter));
    var o := CoapOption(URI_PATH, [0x68]);
    assert Normalise(HelloOut(counter)) == HelloOut(counter) by {
      OneOptionIsSorted(o);
    }
  }

  lemma OneOptionIsSorted(o: CoapOption)
    ensures SortOptions([o]) == [o]
  {
  }

  lemma PrintThenParseHello(counter: nat)
    requires counter < 0x1_0000
    ensures var p := Encode(HelloOut(counter)); p.Some? && |p.value| == 6
  {
    hide Header, SortOptions;
    var o := CoapOption(URI_PATH, [0x68]);
    OneOptionIsSorted(o);
    assert PrintOption(0, o).value == [0xB1, 0x68];
    assert PrintOptions(0, [o]).value == [0xB1, 0x68] by {
      assert [o][1..] == [] && PrintOptions(11, []) == Some([]);
    }
    HeaderLength(HelloOut(counter));
  }

  lemma HeaderLength(m: Message)
    requires |m.token| <= 8
    ensures |Header(m)| == 4
  {
  }

  function HelloFrameOut<K>(s: Setting<K>, g: Given): (ct: Bytes)
    requires WellGiven(g)
    ensures |ct| == 16
  {
    HelloOutPrints(g.counter);
    Seal1(s.cipher, AesKey(g), InitialIv(g), Encode(HelloOut(g.counter)).value)
  }

  function KeysOf<K>(s: Setting<K>, g: Given): SessionSpec.Keys
    requires WellGiven(g) && Hello(s, g).Decoded?
  {
    HelloIsNotEmpty(s, g);
    SessionSpec.Keys(AesKey(g), g.hello.value[..16], Roll(HelloFrameOut(s, g)), Hello(s, g).msg.messageId, g.counter)
  }

  lemma HelloIsNotEmpty<K>(s: Setting<K>, g: Given)
    requires WellGiven(g) && Hello(s, g).Decoded?
    ensures g.hello.Some? && |g.hello.value| >= 16 && |g.hello.value| % 16 == 0
  {
  }

  function U16At(b: Bytes, i: nat): Option<nat> {
    if |b| < 4 || i + 2 > |b| then None else Some(U16(b[i], b[i + 1]))
  }

  /** What the Hello says about the device. */
  function PeerOf<K>(s: Setting<K>, g: Given): SessionSpec.Peer
    requires WellGiven(g) && Identified(s, g) && Hello(s, g).Decoded?
  {
    var payload := Hello(s, g).msg.payload;
    SessionSpec.Peer(CoreId(s, g), g.sessionKey, U16At(payload, 0), U16At(payload, 2))
  }

  // ----- The run -----

  /** How a run ends: the stage it reached, the device it had identified, what it wrote, and its result. */
  datatype Ended = Ended(stage: Stage, coreId: Option<Bytes>, written: seq<Bytes>, result: Option<Result>)

  function Ends<K>(s: Setting<K>, g: Given): Ended
    requires WellGiven(g)
  {
    if !Identified(s, g) then Ended(READ_COREID, None, [g.nonce], None)
    else
      var id := Some(CoreId(s, g));
      match CoreKey(s, g)
      case None => Ended(GET_COREKEY, id, [g.nonce], None)
      case Some(coreKey) =>
        match SealedKey(s, g, coreKey)
        case Failure(_) => Ended(SEND_SESSIONKEY, id, [g.nonce], None)
        case Result(sealedKey) =>
          match Signature(s, g, sealedKey)
          case Failure(_) => Ended(SEND_SESSIONKEY, id, [g.nonce], None)
          case Result(signature) =>
            var written := [g.nonce, sealedKey + signature];
            if Hello(s, g).Malformed? then Ended(GET_HELLO, id, written, None)
            else
              Ended(DONE, id, written + [Frame(HelloFrameOut(s, g))], Some(Established(KeysOf(s, g), PeerOf(s, g))))
  }

  /** `runHandshake`: the progress record it changes in place, and what it writes to the socket. */
  class Attempt {
    var stage: Stage
    var coreId: Option<Bytes>
    var written: seq<Bytes>

    constructor ()
      ensures stage == SEND_NONCE && coreId == None && written == []
    {
      stage, coreId, written := SEND_NONCE, None, [];
    }

    /** The stages one after the other; a failed run leaves the stage it failed in, the device if it had been
        identified, and what it had written. */
    method Run<K>(s: Setting<K>, g: Given) returns (r: Option<Result>)
      requires WellGiven(g) && written == []
      modifies this
      ensures Ended(stage, coreId, written, r) == Ends(s, g)
    {
      hide Direct, Hello, KeysOf, PeerOf, HelloFrameOut, Frame, Claim, Identified, CoreId, InlineKey;
      coreId := None;
      stage := SEND_NONCE;
      written := written + [g.nonce];

      var der := ReadCoreId(s, g);
      if der.None? {
        return None;
      }

      stage := GET_COREKEY;
      var coreKey := s.loadCoreKey(coreId.value, if |der.value| == 0 then None else der);
      if coreKey.None? || |coreKey.value| == 0 {
        return None;
      }

      stage := SEND_SESSIONKEY;
      var sealedKey := Direct(s.rsa, Job(Encrypt, coreKey.value, g.sessionKey, []), g.seed);
      if sealedKey.Failure? {
        return None;
      }
      var signature := Direct(s.rsa, Job(Sign, s.serverPriv, s.hmac(sealedKey.bytes, g.sessionKey), []), 0);
      if signature.Failure? {
        return None;
      }
      written := written + [sealedKey.bytes + signature.bytes];
      r := FinishHello(s, g);
    }

    /** Stage 2: what follows the id in the blob, or nothing if the device is not accepted. */
    method ReadCoreId<K>(s: Setting<K>, g: Given) returns (der: Option<Bytes>)
      requires WellGiven(g) && coreId == None
      modifies `stage, `coreId
      ensures stage == READ_COREID
      ensures der.Some? <==> Identified(s, g)
      ensures coreId == if Identified(s, g) then Some(CoreId(s, g)) else None
      ensures der.Some? ==> InlineKey(s, g) == if der.value == [] then None else der
    {
      hide Direct;
      stage := READ_COREID;
      if g.blob.None? {
        return None;
      }
      var claim := Direct(s.rsa, Job(Decrypt, s.serverPriv, g.blob.value, []), 0);
      if claim.Failure? || |claim.bytes| < NONCE_BYTES + ID_BYTES || claim.bytes[..NONCE_BYTES] != g.nonce {
        return None;
      }
      coreId := Some(claim.bytes[NONCE_BYTES..NONCE_BYTES + ID_BYTES]);
      der := Some(claim.bytes[NONCE_BYTES + ID_BYTES..]);
    }

    /** Stages 5 and 6. */
    method FinishHello<K>(s: Setting<K>, g: Given) returns (r: Option<Result>)
      requires WellGiven(g) && Identified(s, g) && coreId == Some(CoreId(s, g))
      modifies this
      ensures coreId == old(coreId)
      ensures stage == if Hello(s, g).Decoded? then DONE else GET_HELLO
      ensures written == old(written) + if Hello(s, g).Decoded? then [Frame(HelloFrameOut(s, g))] else []
      ensures r == if Hello(s, g).Decoded? then Some(Established(KeysOf(s, g), PeerOf(s, g))) else None
    {
      var params := DeriveAesParams(g.sessionKey);
      var key, iv := params.value.0, params.value.1;

      stage := GET_HELLO;
      if g.hello.None? {
        return None;
      }
      var plain := AesDecrypt(s.cipher, key, iv, g.hello.value);
      if plain.None? {
        return None;
      }
      var hello := DecodeMessage(plain.value);
      if hello.Malformed? {
        return None;
      }
      var payload := hello.msg.payload;
      var productId, firmwareVersion := None, None;
      if |payload| >= 4 {
        productId, firmwareVersion := Some(U16(payload[0], payload[1])), Some(U16(payload[2], payload[3]));
      }
      HelloIsNotEmpty(s, g);
      var ivIn := g.hello.value[..16];

      stage := SEND_HELLO;
      HelloOutPrints(g.counter);
      var plainOut := EncodeMessage(HelloOut(g.counter));
      var frameOut := AesEncrypt(s.cipher, key, iv, plainOut.value);
      var framed := EncodeFrame(frameOut.value);
      written := written + [framed.value];
      var ivOut := frameOut.value[..16];

      stage := DONE;
      var keys := SessionSpec.Keys(key, ivIn, ivOut, hello.msg.messageId, g.counter);
      r := Some(Established(keys, SessionSpec.Peer(coreId.value, g.sessionKey, productId, firmwareVersion)));
    }
  }
}

/** The handshake with an honest device on the other side. */
module HandshakeLaws {
  import opened Octets
  import opened Chunking
  import opened Cipher
  import opened Coap
  import opened CoapLaws
  import opened RsaCalls
  import opened Link
  import opened Handshake
  import Messages
  import SessionSpec
  import Stream
  import FrameLoop
  import ByteQueues
  import Gateways
  import HandshakeReads
  import Peers

  /** What is encrypted with the public key the private key decrypts, and what the private key signs the public
      key verifies. */
  ghost predicate KeyPair<K>(rsa: Crypto<K>, pub: string, priv: string) {
    && (forall p: Bytes, seed: nat :: Recovers(rsa, pub, priv, p, seed))
    && (forall h: Bytes :: Checks(rsa, pub, priv, h))
  }

  ghost predicate Recovers<K>(rsa: Crypto<K>, pub: string, priv: string, p: Bytes, seed: nat) {
    var ct := Direct(rsa, Job(Encrypt, pub, p, []), seed);
    ct.Result? ==> Direct(rsa, Job(Decrypt, priv, ct.bytes, []), 0) == Result(p)
  }

  ghost predicate Checks<K>(rsa: Crypto<K>, pub: string, priv: string, h: Bytes) {
    var sig := Direct(rsa, Job(Sign, priv, h, []), 0);
    sig.Result? ==> Direct(rsa, Job(Verify, pub, h, sig.bytes), 0) == Result([1])
  }

  /** The device's side of stage 2: nonce, id and optionally its own key, for the server only. */
  ghost predicate Answers<K>(s: Setting<K>, g: Given, serverPub: string, id: Bytes, der: Bytes, seed: nat) {
    && |id| == ID_BYTES && g.blob.Some?
    && Direct(s.rsa, Job(Encrypt, serverPub, g.nonce + (id + der), []), seed) == Result(g.blob.value)
  }

  // ----- Which runs get how far -----

  /** The blob decrypts to this run's nonce, an id and perhaps a key. */
  ghost predicate Claims<K>(s: Setting<K>, g: Given, rest: Bytes) {
    && g.blob.Some? && |rest| >= 12
    && Direct(s.rsa, Job(Decrypt, s.serverPriv, g.blob.value, []), 0) == Result(g.nonce + rest)
  }

  /** The device is identified exactly if its blob answers this run's nonce; and it is the one named behind the
      nonce. */
  lemma IdentifiedIff<K>(s: Setting<K>, g: Given)
    requires WellGiven(g)
    ensures Identified(s, g) <==> exists rest: Bytes :: Claims(s, g, rest)
    ensures forall rest: Bytes :: Claims(s, g, rest) ==>
              && Identified(s, g) && CoreId(s, g) == rest[..12]
              && InlineKey(s, g) == if |rest| == 12 then None else Some(rest[12..])
  {
    hide Direct;
    if Identified(s, g) {
      var p := Claim(s, g).value;
      assert p == g.nonce + p[NONCE_BYTES..];
      assert Claims(s, g, p[NONCE_BYTES..]);
    }
    forall rest: Bytes | Claims(s, g, rest)
      ensures Identified(s, g) && CoreId(s, g) == rest[..12]
      ensures InlineKey(s, g) == if |rest| == 12 then None else Some(rest[12..])
    {
      var p := g.nonce + rest;
      assert p[..NONCE_BYTES] == g.nonce && p[NONCE_BYTES..] == rest;
      assert p[NONCE_BYTES..NONCE_BYTES + ID_BYTES] == rest[..ID_BYTES];
      assert p[NONCE_BYTES + ID_BYTES..] == rest[ID_BYTES..];
    }
  }

  /** A run whose blob does not answer its nonce is refused in stage 2, with nothing written but the nonce; so are a
      blob that answers another nonce, one that is too short, one that does not decrypt, and none at all. */
  lemma StrangersAreRefused<K>(s: Setting<K>, g: Given, other: Bytes, rest: Bytes)
    requires WellGiven(g)
    ensures var refused := Ended(READ_COREID, None, [g.nonce], None);
            && (Ends(s, g) == refused <==> !exists r: Bytes :: Claims(s, g, r))
            && (Ends(s, g).stage == READ_COREID <==> !exists r: Bytes :: Claims(s, g, r))
            && (g.blob.None? ==> Ends(s, g) == refused)
            && (g.blob.Some? ==>
                  var p := Direct(s.rsa, Job(Decrypt, s.serverPriv, g.blob.value, []), 0);
                  && (p.Failure? ==> Ends(s, g) == refused)
                  && (p.Result? && |p.bytes| < 52 ==> Ends(s, g) == refused)
                  && (p == Result(other + rest) && |other| == 40 && other != g.nonce ==>
                        Ends(s, g) == refused))
  {
    hide Direct, Hello, KeysOf, PeerOf, HelloFrameOut, Frame, CoreKey, SealedKey, Signature;
    IdentifiedIff(s, g);
    if g.blob.Some? && |other| == 40 {
      assert (other + rest)[..NONCE_BYTES] == other;
    }
  }

  /** What happens to a device that is identified.  If the loader finds no key for it, or an empty one, the run
      stops in stage 3.  If the session key cannot be sealed for it, or its HMAC not signed, the run stops in stage
      4; nothing but the nonce has been written.  If the frame it sends is missing, does not decrypt under the
      session key's first two blocks, or is no CoAP message, the run stops in stage 5, the sealed key and the
      signature having been written. */
  lemma KnownDevices<K>(s: Setting<K>, g: Given, rest: Bytes)
    requires WellGiven(g) && Claims(s, g, rest)
    ensures var id, e := rest[..12], Ends(s, g);
            var key := s.loadCoreKey(id, if |rest| == 12 then None else Some(rest[12..]));
            if key == None || key == Some("") then e == Ended(GET_COREKEY, Some(id), [g.nonce], None)
            else
              var sealed := Direct(s.rsa, Job(Encrypt, key.value, g.sessionKey, []), g.seed);
              if sealed.Failure? then e == Ended(SEND_SESSIONKEY, Some(id), [g.nonce], None)
              else
                var signed := Direct(s.rsa, Job(Sign, s.serverPriv, s.hmac(sealed.bytes, g.sessionKey), []), 0);
                if signed.Failure? then e == Ended(SEND_SESSIONKEY, Some(id), [g.nonce], None)
                else
                  var plain := if g.hello.None? then None
                               else AesDecrypt(s.cipher, g.sessionKey[..16], g.sessionKey[16..32], g.hello.value);
                  if plain.None? || Decode(plain.value).Malformed? then
                    e == Ended(GET_HELLO, Some(id), [g.nonce, sealed.bytes + signed.bytes], None)
                  else
                    Finished(s, g, e, id, [g.nonce, sealed.bytes + signed.bytes], Decode(plain.value).msg)
  {
    hide Direct, KeysOf, PeerOf, HelloFrameOut, Frame, Decode, AesDecrypt, Identified, CoreId, InlineKey, Finished;
    IdentifiedIff(s, g);
    if Hello(s, g).Decoded? {
      LastStages(s, g, rest);
    }
  }

  /** The run has gone through: one more frame was written, and the result holds the first two blocks of the session
      key as key and, rolled once by each side's Hello, as vectors; the Hello's id and the counter; and what the
      Hello says about the device, big-endian in the first four bytes of its payload, if it has as many. */
  ghost predicate Finished<K>(s: Setting<K>, g: Given, e: Ended, id: Bytes, written: seq<Bytes>, hello: Message) {
    && e.stage == DONE && e.coreId == Some(id) && e.result.Some?
    && g.hello.Some? && |g.hello.value| >= 16 && |g.sessionKey| == SESSION_BYTES
    && var keys, peer, x := e.result.value.keys, e.result.value.peer, hello.payload;
       && keys.key == g.sessionKey[..16] && keys.ivIn == g.hello.value[..16]
       && keys.recvCounter == hello.messageId && keys.sendCounter == g.counter
       && (exists ct: Bytes :: && |ct| == 16 && e.written == written + [Frame(ct)] && keys.ivOut == ct
                               && IsServerHello(s, g, ct))
       && peer.coreId == id && peer.sessionKey == g.sessionKey
       && (|x| < 4 ==> peer.productId == None && peer.firmwareVersion == None)
       && (|x| >= 4 ==> peer.productId == Some(256 * x[0] as int + x[1] as int)
                        && peer.firmwareVersion == Some(256 * x[2] as int + x[3] as int))
  }

  /** One block that says Hello under the initial vector: non-confirmable, a POST to "h" under the counter's id. */
  ghost predicate IsServerHello<K>(s: Setting<K>, g: Given, ct: Bytes) {
    && |g.sessionKey| == SESSION_BYTES
    && var plain := AesDecrypt(s.cipher, g.sessionKey[..16], g.sessionKey[16..32], ct);
       plain.Some? &&
       Decode(plain.value) ==
       Decoded(Message(1, 0x02, g.counter, [], [CoapOption(11, [0x68])], []), Clean)
  }

  lemma LastStages<K>(s: Setting<K>, g: Given, rest: Bytes)
    requires WellGiven(g) && Claims(s, g, rest) && Identified(s, g) && CoreId(s, g) == rest[..ID_BYTES]
    requires Hello(s, g).Decoded?
    ensures forall written: seq<Bytes> ::
              Finished(s, g, Ended(DONE, Some(rest[..ID_BYTES]), written + [Frame(HelloFrameOut(s, g))],
                                   Some(Established(KeysOf(s, g), PeerOf(s, g)))),
                       rest[..ID_BYTES], written, Hello(s, g).msg)
  {
    hide Direct, Decode, Encode, AesDecrypt, Seal1, Frame;
    HelloIsNotEmpty(s, g);
    HelloOutPrints(g.counter);
    AesRoundTrip(s.cipher, AesKey(g), InitialIv(g), Encode(HelloOut(g.counter)).value);
    SealIsEncrypt(s, g);
    assert IsServerHello(s, g, HelloFrameOut(s, g));
    RollOfBlock(HelloFrameOut(s, g));
  }

  lemma SealIsEncrypt<K>(s: Setting<K>, g: Given)
    requires WellGiven(g) && Encode(HelloOut(g.counter)).Some?
    ensures var plain := Encode(HelloOut(g.counter)).value;
            HelloFrameOut(s, g) == AesEncrypt(s.cipher, AesKey(g), InitialIv(g), plain).value
  {
    hide Encode, AesEncrypt;
  }

  lemma RollOfBlock(ct: Bytes)
    requires |ct| == 16
    ensures Roll(ct) == ct
  {
  }

  lemma HonestDeviceIsIdentified<K>(s: Setting<K>, g: Given, serverPub: string, id: Bytes, der: Bytes, seed: nat)
    requires WellGiven(g) && KeyPair(s.rsa, serverPub, s.serverPriv) && Answers(s, g, serverPub, id, der, seed)
    ensures Identified(s, g) && CoreId(s, g) == id && InlineKey(s, g) == if der == [] then None else Some(der)
  {
    hide Direct;
    var p := g.nonce + (id + der);
    assert Recovers(s.rsa, serverPub, s.serverPriv, p, seed);
    assert Claim(s, g) == Some(p);
    assert p[..NONCE_BYTES] == g.nonce;
    assert p[NONCE_BYTES..] == id + der;
    assert p[NONCE_BYTES..NONCE_BYTES + ID_BYTES] == (id + der)[..ID_BYTES] == id;
    assert p[NONCE_BYTES + ID_BYTES..] == (id + der)[ID_BYTES..] == der;
  }

  /** The device's side of stages 4 and 5: it opens the session key, can check the server's signature over it, and
      seals a first message of its own under the initial vector. */
  lemma HonestDeviceLearnsTheKey<K>(s: Setting<K>, g: Given, serverPub: string, devicePub: string, devicePriv: string)
    requires KeyPair(s.rsa, serverPub, s.serverPriv) && KeyPair(s.rsa, devicePub, devicePriv)
    requires SealedKey(s, g, devicePub).Result?
    requires Signature(s, g, SealedKey(s, g, devicePub).bytes).Result?
    ensures var sealedKey := SealedKey(s, g, devicePub).bytes;
            && Direct(s.rsa, Job(Decrypt, devicePriv, sealedKey, []), 0) == Result(g.sessionKey)
            && var signed, signature := s.hmac(sealedKey, g.sessionKey), Signature(s, g, sealedKey).bytes;
               Direct(s.rsa, Job(Verify, serverPub, signed, signature), 0) == Result([1])
  {
    hide Direct;
    assert Recovers(s.rsa, devicePub, devicePriv, g.sessionKey, g.seed);
    assert Checks(s.rsa, serverPub, s.serverPriv, s.hmac(SealedKey(s, g, devicePub).bytes, g.sessionKey));
  }

  /** The two directions as the handshake leaves them: the device's Hello is delivered, the server's is in flight. */
  function AfterHandshake<K>(s: Setting<K>, g: Given, deviceIv: Block): Channel
    requires WellGiven(g) && Hello(s, g).Decoded?
  {
    HelloOutPrints(g.counter);
    var iv := InitialIv(g);
    Channel(NewDirection(deviceIv, KeysOf(s, g).ivIn),
            SendOn(s.cipher, AesKey(g), NewDirection(iv, iv), Encode(HelloOut(g.counter)).value))
  }

  /** The handshake establishes the session invariant.  If the device seals any printable message as its Hello,
      the server understands it, and both directions start in step: the server holds the vector the device rolled
      to, and the server's Hello, in flight, was sealed under the vector the device still holds. */
  lemma HandshakeEstablishesSync<K>(s: Setting<K>, g: Given, m: Message)
    requires WellGiven(g) && Encode(m).Some?
    requires g.hello == Some(Seal1(s.cipher, AesKey(g), InitialIv(g), Encode(m).value))
    ensures Hello(s, g) == Decoded(Normalise(m), Clean)
    ensures var l := AfterHandshake(s, g, Roll(g.hello.value));
            && Synced(s.cipher, AesKey(g), l.up) && Synced(s.cipher, AesKey(g), l.down)
            && l.up.ivR == KeysOf(s, g).ivIn == Roll(g.hello.value) && l.down.ivS == KeysOf(s, g).ivOut
            && l.down.wire == [HelloFrameOut(s, g)]
    ensures KeysOf(s, g).recvCounter == m.messageId % 0x1_0000
  {
    hide Encode, Decode, Seal, Seal1, Roll;
    var key, iv := AesKey(g), InitialIv(g);
    HelloIsUnderstood(s, g, m);
    HelloOutPrints(g.counter);
    var p := Encode(HelloOut(g.counter)).value;
    NewIsSynced(s.cipher, key, KeysOf(s, g).ivIn);
    NewIsSynced(s.cipher, key, iv);
    SendKeepsSyncIff(s.cipher, key, NewDirection(iv, iv), p);
    assert [] + [Seal1(s.cipher, key, iv, p)] == [Seal1(s.cipher, key, iv, p)];
    FirstBlockIsRolledTo(g.hello.value);
  }

  lemma HelloIsUnderstood<K>(s: Setting<K>, g: Given, m: Message)
    requires WellGiven(g) && Encode(m).Some?
    requires g.hello == Some(Seal1(s.cipher, AesKey(g), InitialIv(g), Encode(m).value))
    ensures Hello(s, g) == Decoded(Normalise(m), Clean)
  {
    hide Encode, Decode;
    AesRoundTrip(s.cipher, AesKey(g), InitialIv(g), Encode(m).value);
    PrintThenParse(m);
  }

  lemma NewIsSynced(c: BlockCipher, key: Block, iv: Block)
    ensures Synced(c, key, NewDirection(iv, iv))
  {
  }

  lemma FirstBlockIsRolledTo(ct: Bytes)
    requires |ct| >= 16
    ensures Roll(ct) == ct[..16]
  {
  }

  /** An honest device gets through.  It answers the nonce with its id, and with its own key if it has one to give;
      the loader knows its public key, RSA does what it is asked, and its Hello is any message it can print.  Then
      the run ends in DONE under the device's id, and the device can open the session key and check the signature
      over it. */
  lemma HonestDeviceGetsThrough<K>(s: Setting<K>, g: Given, serverPub: string, devicePub: string, devicePriv: string,
                                   id: Bytes, der: Bytes, seed: nat, m: Message)
    requires WellGiven(g) && KeyPair(s.rsa, serverPub, s.serverPriv) && KeyPair(s.rsa, devicePub, devicePriv)
    requires Answers(s, g, serverPub, id, der, seed) && devicePub != ""
    requires s.loadCoreKey(id, if der == [] then None else Some(der)) == Some(devicePub)
    requires SealedKey(s, g, devicePub).Result? && Signature(s, g, SealedKey(s, g, devicePub).bytes).Result?
    requires Encode(m).Some? && g.hello == Some(Seal1(s.cipher, AesKey(g), InitialIv(g), Encode(m).value))
    ensures var e, sealed := Ends(s, g), SealedKey(s, g, devicePub).bytes;
            var signed := Signature(s, g, sealed).bytes;
            && Finished(s, g, e, id, [g.nonce, sealed + signed], Normalise(m))
            && Direct(s.rsa, Job(Decrypt, devicePriv, sealed, []), 0) == Result(g.sessionKey)
            && Direct(s.rsa, Job(Verify, serverPub, s.hmac(sealed, g.sessionKey), signed), 0) == Result([1])
  {
    hide Direct, Encode, Decode, Finished, Ends, Seal1, AesDecrypt;
    var p := id + der;
    assert Recovers(s.rsa, serverPub, s.serverPriv, g.nonce + p, seed);
    assert Claims(s, g, p);
    assert p[..ID_BYTES] == id && p[ID_BYTES..] == der;
    HonestDeviceLearnsTheKey(s, g, serverPub, devicePub, devicePriv);
    HelloIsUnderstood(s, g, m);
    KnownDevices(s, g, p);
  }

  /** The session and the device after the handshake, with the server's Hello on its way down. */
  function WorldAfter<K>(
      s: Setting<K>, g: Given, before: SessionSpec.State, peer: SessionSpec.Peer, deviceIv: Block): Peers.World
    requires WellGiven(g) && Hello(s, g).Decoded?
  {
    Peers.World(SessionSpec.Establish(before, KeysOf(s, g), peer), Peers.Device(InitialIv(g), deviceIv, []), [],
                [Frame(HelloFrameOut(s, g))])
  }

  lemma WorldStartsOnChannel<K>(s: Setting<K>, g: Given, m: Message, before: SessionSpec.State, peer: SessionSpec.Peer)
    requires WellGiven(g) && Encode(m).Some?
    requires g.hello == Some(Seal1(s.cipher, AesKey(g), InitialIv(g), Encode(m).value))
    ensures Hello(s, g).Decoded?
    ensures var iv := Roll(g.hello.value);
            Peers.Agrees(AesKey(g), before.heard, WorldAfter(s, g, before, peer, iv), AfterHandshake(s, g, iv))
  {
    hide Encode, Decode, Seal1, Roll, Frame, Hello;
    HandshakeEstablishesSync(s, g, m);
    var ct := HelloFrameOut(s, g);
    assert Stream.Frames([ct]) == [Frame(ct)] by {
      Stream.FramesSnoc([], ct);
      assert [] + [ct] == [ct] && [] + [Frame(ct)] == [Frame(ct)];
      assert Stream.Frames([]) == [];
    }
    assert before.heard + Stream.HeardOf([]) == before.heard by {
      assert Stream.HeardOf([]) == [];
    }
  }

  /** From the handshake on, over every run of the session and the device together (sends of any length, frames taken
      in either direction at any time, requests, timers, errors, the end): both are in step as long as every plaintext
      fits its frame; and in any case only what comes directly behind one that does not is read wrongly, by at most
      16 bytes. */
  lemma SessionStaysInStep<K>(
      s: Setting<K>, g: Given, m: Message, before: SessionSpec.State, peer: SessionSpec.Peer, moves: seq<Peers.Move>)
    requires WellGiven(g) && Encode(m).Some?
    requires g.hello == Some(Seal1(s.cipher, AesKey(g), InitialIv(g), Encode(m).value))
    ensures Hello(s, g).Decoded?
    ensures var c, key, iv := s.cipher, AesKey(g), Roll(g.hello.value);
            var w := WorldAfter(s, g, before, peer, iv);
            var steps := Peers.Steps(c, key, w, moves);
            var l := RunChannel(c, key, AfterHandshake(s, g, iv), steps);
            && Peers.Agrees(key, before.heard, Peers.Run(c, key, w, moves), l)
            && (AllFit(steps) ==> Synced(c, key, l.up) && Synced(c, key, l.down))
            && SpoiltOnlyBehindDrops(c, key, iv, iv, l.up)
            && SpoiltOnlyBehindDrops(c, key, InitialIv(g), InitialIv(g), l.down)
  {
    hide Encode, Decode, Hello, Seal1, Roll, RunChannel, Peers.Run, Peers.Steps, Synced, SpoiltOnlyBehindDrops, AllFit,
         Peers.Agrees, Determined;
    var c, key, iv, iv0 := s.cipher, AesKey(g), Roll(g.hello.value), InitialIv(g);
    HandshakeEstablishesSync(s, g, m);
    WorldStartsOnChannel(s, g, m, before, peer);
    var w, l0 := WorldAfter(s, g, before, peer, iv), AfterHandshake(s, g, iv);
    Peers.WorldRefinesChannel(c, key, before.heard, w, l0, moves);
    var steps := Peers.Steps(c, key, w, moves);
    if AllFit(steps) {
      RollingIv(c, key, l0, steps);
    }
    HelloOutPrints(g.counter);
    NewIsDetermined(c, key, iv, iv);
    NewIsDetermined(c, key, iv0, iv0);
    SendKeepsDetermined(c, key, iv0, iv0, NewDirection(iv0, iv0), Encode(HelloOut(g.counter)).value);
    RunKeepsDetermined(c, key, l0, Channel(NewDirection(iv, iv), NewDirection(iv0, iv0)), steps);
    var l := RunChannel(c, key, l0, steps);
    DeterminedMeans(c, key, iv, iv, l.up);
    DeterminedMeans(c, key, iv0, iv0, l.down);
  }

  /** What a device sends: its blob, its Hello in a frame, and its messages in frames. */
  function DeviceBytes<K>(s: Setting<K>, g: Given, blob: Bytes, m: Message, ms: seq<Message>): Bytes
    requires WellGiven(g) && Stream.Transmittable(m) && Stream.AllTransmittable(ms)
  {
    var hello := SealedHello(s, g, m);
    blob + (DeviceFrame(hello) + Stream.DeviceWire(s.cipher, AesKey(g), Roll(hello), ms))
  }

  function SealedHello<K>(s: Setting<K>, g: Given, m: Message): (ct: Bytes)
    requires WellGiven(g) && Stream.Transmittable(m)
    ensures 16 <= |ct| <= MAX_FRAME
  {
    Seal1(s.cipher, AesKey(g), InitialIv(g), Encode(m).value)
  }

  /** The handshake was given what it read from the queue. */
  predicate GivenByReads(g: Given, r: HandshakeReads.Reader) {
    r.stage.Finished? && g.blob == Some(r.stage.blob) && g.hello == Some(r.stage.hello)
  }

  lemma Behind(blob: Bytes, frame: Bytes, left: Bytes, more: Bytes, rest: Bytes)
    requires (blob + (frame + left)) + more <= blob + (frame + rest)
    ensures left + more <= rest
    ensures (blob + (frame + left)) + more == blob + (frame + rest) ==> left + more == rest
  {
    assert (blob + (frame + left)) + more == blob + (frame + (left + more));
    HandshakeReads.SameStart(blob, frame + (left + more), blob, frame + rest);
    HandshakeReads.SameStart(frame, left + more, frame, rest);
    assert |(blob + (frame + left)) + more| == |blob| + |frame| + |left + more|;
  }

  /** From the first byte to the last.  A device sends its blob, its Hello and any messages, and TCP cuts these
      bytes in any way.  If the handshake finishes its reading, on whatever has arrived by then, it was given that
      blob and that Hello; and the session it establishes, starting on the bytes that are left in the queue, hears
      the messages in order, among any sends, requests, timers and errors: at every moment a beginning of them, and,
      unless it was closed meanwhile, all of them once every byte is there, after boundedly many more turns of its
      loop. */
  lemma HandshakeThenStream<K>(
      s: Setting<K>, g: Given, blob: Bytes, m: Message, ms: seq<Message>, before: SessionSpec.State,
      peer: SessionSpec.Peer, q: ByteQueues.Queue, events: seq<FrameLoop.Event>, actions: seq<Gateways.Action>)
    requires WellGiven(g) && Stream.Transmittable(m) && Stream.AllTransmittable(ms)
    requires |blob| == 256 && q.waiters == [] && FrameLoop.NoneRejected(q)
    ensures var r := HandshakeReads.RunReads(q, events);
            var bytes := q.buf + FrameLoop.Arrived(events) + Gateways.DataOf(actions);
            var sent := DeviceBytes(s, g, blob, m, ms);
            GivenByReads(g, r) && bytes <= sent ==>
              && g.blob == Some(blob) && g.hello == Some(SealedHello(s, g, m))
              && Hello(s, g) == Decoded(Normalise(m), Clean)
              && var s0 := SessionSpec.Establish(before, KeysOf(s, g), peer);
                 var gate := Gateways.Run(s.cipher, Gateways.Begin(s0, r.q), actions);
                 && HearsInOrder(before, gate, ms)
                 && (bytes == sent && !r.q.closed && gate.session.status.Connected? ==>
                       HearsAllSoon(s.cipher, s0, r.q, actions, ms))
  {
    hide Encode, Decode, Hello, Seal1, Roll, Gateways.Run, Stream.DeviceWire, Gateways.DataOf, FrameLoop.Arrived,
         HandshakeReads.RunReads, HearsInOrder, HearsAllSoon, DeviceFrame, FrameLoop.NoneRejected;
    var r := HandshakeReads.RunReads(q, events);
    var bytes := q.buf + FrameLoop.Arrived(events) + Gateways.DataOf(actions);
    var sent := DeviceBytes(s, g, blob, m, ms);
    if GivenByReads(g, r) && bytes <= sent {
      var hello := SealedHello(s, g, m);
      var wire := Stream.DeviceWire(s.cipher, AesKey(g), Roll(hello), ms);
      assert q.buf + FrameLoop.Arrived(events) <= bytes;
      HandshakeReads.HandshakeReadsExactly(q, events, blob, hello, wire);
      HandshakeReads.ReadsRejectNone(q, events);
      Behind(blob, DeviceFrame(hello), r.q.buf, Gateways.DataOf(actions), wire);
      HandshakeEstablishesSync(s, g, m);
      StreamFollows(s, g, m, ms, before, peer, r.q, actions);
    }
  }

  predicate HearsInOrder(before: SessionSpec.State, gate: Gateways.Gateway, ms: seq<Message>) {
    && |gate.loop.delivered| <= |ms|
    && gate.session.heard == before.heard + Stream.Normals(ms[..|gate.loop.delivered|])
  }

  ghost predicate HearsAllSoon(
      c: BlockCipher, s0: SessionSpec.State, q: ByteQueues.Queue, actions: seq<Gateways.Action>, ms: seq<Message>)
  {
    exists n: nat ::
      && n <= FrameLoop.Budget(Gateways.Run(c, Gateways.Begin(s0, q), actions).loop)
      && Gateways.Done(Gateways.Run(c, Gateways.Begin(s0, q), actions + Gateways.Turns(n)), s0, ms)
  }

  /** The established session on whatever the queue holds. */
  lemma StreamFollows<K>(
      s: Setting<K>, g: Given, m: Message, ms: seq<Message>, before: SessionSpec.State, peer: SessionSpec.Peer,
      q: ByteQueues.Queue, actions: seq<Gateways.Action>)
    requires WellGiven(g) && Encode(m).Some? && Stream.AllTransmittable(ms)
    requires g.hello == Some(Seal1(s.cipher, AesKey(g), InitialIv(g), Encode(m).value))
    requires q.waiters == [] && FrameLoop.NoneRejected(q)
    ensures Hello(s, g).Decoded?
    ensures var c, wire := s.cipher, Stream.DeviceWire(s.cipher, AesKey(g), Roll(g.hello.value), ms);
            var s0, bytes := SessionSpec.Establish(before, KeysOf(s, g), peer), q.buf + Gateways.DataOf(actions);
            var gate := Gateways.Run(c, Gateways.Begin(s0, q), actions);
            && (bytes <= wire ==> HearsInOrder(before, gate, ms))
            && (bytes == wire && !q.closed && gate.session.status.Connected? ==> HearsAllSoon(c, s0, q, actions, ms))
  {
    hide Encode, Decode, Hello, Seal1, Roll, Gateways.Run, Stream.DeviceWire, Gateways.DataOf, Gateways.Turns,
         Gateways.Done, Stream.Normals, FrameLoop.Budget, Gateways.InStep;
    HandshakeEstablishesSync(s, g, m);
    var s0 := SessionSpec.Establish(before, KeysOf(s, g), peer);
    Gateways.EndToEnd(s.cipher, AesKey(g), Roll(g.hello.value), ms, s0, q, actions);
    if !q.closed {
      Gateways.EverythingIsHeard(s.cipher, AesKey(g), Roll(g.hello.value), ms, s0, q, actions);
    }
  }

  /** What the server sends in stage 6 is read as a Hello of the vocabulary, and the first message that takes its id
      from the counter repeats its id. */
  lemma FirstSendReusesHelloId<K>(s: Setting<K>, g: Given, peer: SessionSpec.Peer, opts: Messages.SendOptions)
    requires WellGiven(g) && Hello(s, g).Decoded? && opts.messageId.None?
    ensures var st := SessionSpec.Establish(SessionSpec.FRESH_SESSION, KeysOf(s, g), peer);
            var hello := AesDecrypt(s.cipher, AesKey(g), InitialIv(g), HelloFrameOut(s, g));
            && hello.Some? && Decode(hello.value).Decoded?
            && Messages.Classify(Decode(hello.value).msg) == Some(Messages.Hello)
            && SessionSpec.ChosenId(st, opts) == Decode(hello.value).msg.messageId == g.counter
            && SessionSpec.ChosenId(SessionSpec.Counted(st, opts), opts) == (g.counter + 1) % 0x1_0000
  {
    hide Encode, Decode, AesEncrypt, AesDecrypt, Hello, HelloOut;
    HelloOutPrints(g.counter);
    AesRoundTrip(s.cipher, AesKey(g), InitialIv(g), Encode(HelloOut(g.counter)).value);
    HelloOutId(g.counter);
    HelloOutIsAHello(g.counter);
  }

  lemma HelloOutId(counter: int)
    ensures HelloOut(counter).messageId == counter
  {
  }

  lemma HelloOutIsAHello(counter: int)
    ensures Messages.Classify(HelloOut(counter)) == Some(Messages.Hello)
  {
  }
}
