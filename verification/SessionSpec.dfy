/** One device's connection (lib/session.js) after the byte queue: the handshake's result, inbound frames, sends,
    requests, timers and the end of the session, as functions on a state.  Session.dfy holds the object. */
module SessionSpec {
  import opened Octets
  import opened JsMap
  import opened Chunking
  import opened Cipher
  import opened Coap
  import opened Messages
  import opened Requests
  import ByteQueues

  datatype Status = Opening | Handshaking | Connected | Closed

  datatype Event =
    | HandshakeEvent
    | MessageEvent(name: Option<Name>, msg: Decoded)
    | ErrorEvent
    | CloseEvent

  /** `written` are the buffers given to the socket, `events` what was emitted, `heard` the messages decoded. */
  datatype State = State(
    status: Status, key: Bytes, ivIn: Bytes, ivOut: Bytes, recvCounter: int, sendCounter: int,
    table: Table, written: seq<Bytes>, events: seq<Event>, heard: seq<Message>, peer: Option<Peer>)

  /** Who is on the other side, as the handshake found out. */
  datatype Peer = Peer(coreId: Bytes, sessionKey: Bytes, productId: Option<nat>, firmwareVersion: Option<nat>)

  // ----- Specification -----

  function FirstBlock(ct: Bytes): Bytes {
    if |ct| < 16 then ct else ct[..16]
  }

  /** A call that may throw: the state it leaves and whether it returned. */
  datatype Returned = Returned(state: State, ok: bool)

  /** `_sendPlain`: the vector is rolled before the frame is known to fit. */
  function SendPlain(c: BlockCipher, s: State, plain: Bytes): Returned {
    match AesEncrypt(c, s.key, s.ivOut, plain)
    case None => Returned(s, false)
    case Some(ct) =>
      var s1 := s.(ivOut := FirstBlock(ct));
      if |ct| > MAX_FRAME then Returned(s1, false)
      else Returned(s1.(written := s1.written + [Frame(ct)]), true)
  }

  /** The id a message goes out with: the caller's, or the counter's, which then moves on. */
  function ChosenId(s: State, opts: SendOptions): int {
    (if opts.messageId.Some? then opts.messageId.value else s.sendCounter) % 0x1_0000
  }

  function Counted(s: State, opts: SendOptions): State {
    if opts.messageId.Some? then s else s.(sendCounter := (s.sendCounter + 1) % 0x1_0000)
  }

  /** `send`; `None` stands for a name that is not in the table. */
  function Send(c: BlockCipher, s: State, name: Option<Name>, opts: SendOptions): Returned {
    match name
    case None => Returned(s, false)
    case Some(n) =>
      var s1 := Counted(s, opts);
      match Encode(Build(n, opts, ChosenId(s, opts)))
      case None => Returned(s1, false)
      case Some(plain) => SendPlain(c, s1, plain)
  }

  function RequestOptions(payload: Bytes, options: seq<CoapOption>, token: byte): SendOptions {
    SendOptions(payload, options, None, [token], None)
  }

  /** `request`, with the random token as a parameter. */
  function Request(
      c: BlockCipher, s: State, name: Option<Name>, payload: Bytes, options: seq<CoapOption>, token: byte): State
  {
    if !s.status.Connected? then s
    else
      var r := Send(c, s, name, RequestOptions(payload, options, token));
      r.state.(table := Open(s.table, [token], r.ok))
  }

  function TimerFires(s: State, id: int): State {
    s.(table := Fire(s.table, id))
  }

  function Finalize(s: State): State {
    if s.status.Closed? then s
    else s.(status := Closed, table := CloseAll(s.table), events := s.events + [CloseEvent])
  }

  /** The byte queue is closed by the call that makes the session closed. */
  function QueueAfter(was: Status, now: Status, q: ByteQueues.Queue): ByteQueues.Queue {
    if now.Closed? && !was.Closed? then ByteQueues.AfterClose(q) else q
  }

  /** An error event and then `disconnect`. */
  function Fail(s: State): State {
    Finalize(s.(events := s.events + [ErrorEvent]))
  }

  function PingAck(m: Message): Message {
    Message(ACK, EMPTY, m.messageId, m.token, [], [])
  }

  /** `_handleFrame` and the catch around the loop that calls it. */
  function HandleFrame(c: BlockCipher, s: State, ct: Bytes): State {
    match AesDecrypt(c, s.key, s.ivIn, ct)
    case None => Fail(s)
    case Some(plain) => HandlePlain(c, s.(ivIn := FirstBlock(ct)), Decode(plain))
  }

  function HandlePlain(c: BlockCipher, s: State, d: Decoded): State {
    match d
    case Malformed => s.(events := s.events + [ErrorEvent])
    case Decoded(m, _) =>
      var s1 := s.(recvCounter := m.messageId, heard := s.heard + [m]);
      var name := Classify(m);
      if name == Some(Ping) then Acknowledge(c, s1, m)
      else if |m.token| > 0 && Get(s1.table.pending, m.token).Some? then
        s1.(table := Respond(s1.table, m.token, m))
      else
        s1.(events := s1.events + [MessageEvent(name, d)])
  }

  /** The answer to a Ping, and the catch around the loop for what it throws. */
  function Acknowledge(c: BlockCipher, s: State, m: Message): State {
    var plain := Encode(PingAck(m));
    if plain.None? then Caught(s)
    else
      var r := SendPlain(c, s, plain.value);
      if r.ok then r.state else Caught(r.state)
  }

  function Caught(s: State): State {
    if s.status.Closed? then s else Fail(s)
  }

  /** The result of the handshake arrives: assigned and `connected`, whatever happened meanwhile. */
  datatype Keys = Keys(key: Block, ivIn: Block, ivOut: Block, recvCounter: int, sendCounter: int)

  function Establish(s: State, k: Keys, peer: Peer): State {
    s.(status := Connected, key := k.key, ivIn := k.ivIn, ivOut := k.ivOut, recvCounter := k.recvCounter,
       sendCounter := k.sendCounter, peer := Some(peer), events := s.events + [HandshakeEvent])
  }

  /** The start of `run`: the status is assigned without a look at what it was. */
  function BeginRun(s: State): State {
    s.(status := Handshaking)
  }

  datatype Input =
    | RunCalled
    | RunThrows    // the handshake fails, or the read the loop waits for: the catch of `run`
    | Established(keys: Keys, peer: Peer)
    | FrameArrives(ct: Bytes)
    | SendCall(name: Option<Name>, opts: SendOptions)
    | RequestCall(request: Option<Name>, payload: Bytes, options: seq<CoapOption>, token: byte)
    | TimerGoesOff(id: int)
    | SocketError  // also the idle timeout
    | Disconnect   // disconnect() or the socket's close event

  function Next(c: BlockCipher, s: State, i: Input): State {
    match i
    case RunCalled => BeginRun(s)
    case RunThrows => Caught(s)
    case Established(k, peer) => Establish(s, k, peer)
    case FrameArrives(ct) => HandleFrame(c, s, ct)
    case SendCall(name, opts) => Send(c, s, name, opts).state
    case RequestCall(name, payload, options, token) => Request(c, s, name, payload, options, token)
    case TimerGoesOff(id) => TimerFires(s, id)
    case SocketError => Fail(s)
    case Disconnect => Finalize(s)
  }

  function Run(c: BlockCipher, s: State, inputs: seq<Input>): State {
    if inputs == [] then s else Next(c, Run(c, s, inputs[..|inputs| - 1]), inputs[|inputs| - 1])
  }

  lemma RunSnoc(c: BlockCipher, s: State, inputs: seq<Input>, i: Input)
    ensures Run(c, s, inputs + [i]) == Next(c, Run(c, s, inputs), i)
  {
    assert (inputs + [i])[..|inputs|] == inputs;
  }

  const FRESH_SESSION := State(Opening, [], [], [], 0, 0, EMPTY_TABLE, [], [], [], None)
}
