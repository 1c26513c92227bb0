/** What a session keeps over every run of its inputs: frames, sends, requests, timers, errors and the end. */
module SessionLaws {
  import opened Octets
  import opened JsMap
  import opened Chunking
  import opened Cipher
  import opened Coap
  import opened CoapLaws
  import opened Messages
  import ByteQueues
  import Requests
  import opened SessionSpec

  // ----- The request table inside a session -----

  function Closing(s: State): Option<Requests.Op> {
    if s.status.Closed? then None else Some(Requests.OpClose)
  }

  /** What an input does to the request table, if anything. */
  function TableOp(c: BlockCipher, s: State, i: Input): Option<Requests.Op> {
    match i
    case RunCalled => None
    case RunThrows => Closing(s)
    case Established(_, _) => None
    case FrameArrives(ct) =>
      (match AesDecrypt(c, s.key, s.ivIn, ct)
       case None => Closing(s)
       case Some(plain) =>
         match Decode(plain)
         case Malformed => None
         case Decoded(m, _) =>
           if Classify(m) == Some(Ping) then
             var ack := Encode(PingAck(m));
             if ack.Some? && SendPlain(c, s.(ivIn := FirstBlock(ct)), ack.value).ok then None else Closing(s)
           else if |m.token| > 0 && Get(s.table.pending, m.token).Some? then Some(Requests.OpRespond(m.token, m))
           else None)
    case SendCall(_, _) => None
    case RequestCall(name, payload, options, token) =>
      if s.status.Connected? then
        Some(Requests.OpOpen([token], Send(c, s, name, RequestOptions(payload, options, token)).ok))
      else None
    case TimerGoesOff(id) => Some(Requests.OpFire(id))
    case SocketError => Closing(s)
    case Disconnect => Closing(s)
  }

  lemma SendPlainKeeps(c: BlockCipher, s: State, plain: Bytes)
    ensures var r := SendPlain(c, s, plain).state;
            r == s.(ivOut := r.ivOut, written := r.written)
  {
  }

  lemma SendKeeps(c: BlockCipher, s: State, name: Option<Name>, opts: SendOptions)
    ensures var r := Send(c, s, name, opts).state;
            r == s.(ivOut := r.ivOut, written := r.written, sendCounter := r.sendCounter)
  {
  }

  lemma SendPlainOk(c: BlockCipher, s: State, s': State, plain: Bytes)
    requires s'.key == s.key && s'.ivOut == s.ivOut
    ensures SendPlain(c, s', plain).ok == SendPlain(c, s, plain).ok
  {
  }

  lemma TableFollows(c: BlockCipher, s: State, i: Input)
    ensures var op := TableOp(c, s, i);
            Next(c, s, i).table == if op.None? then s.table else Requests.Step(s.table, op.value)
  {
    hide AesDecrypt, Decode, Encode, SendPlain, Send, Requests.Fire, Requests.Open, Requests.Respond, Requests.CloseAll;
    match i {
      case FrameArrives(ct) =>
        var plain := AesDecrypt(c, s.key, s.ivIn, ct);
        if plain.Some? && Decode(plain.value).Decoded? {
          var m, s0 := Decode(plain.value).msg, s.(ivIn := FirstBlock(ct));
          var s1 := s0.(recvCounter := m.messageId, heard := s0.heard + [m]);
          if Encode(PingAck(m)).Some? {
            SendPlainKeeps(c, s1, Encode(PingAck(m)).value);
            SendPlainOk(c, s0, s1, Encode(PingAck(m)).value);
          }
        }
      case SendCall(name, opts) => SendKeeps(c, s, name, opts);
      case RequestCall(name, payload, options, token) => SendKeeps(c, s, name, RequestOptions(payload, options, token));
      case _ =>
    }
  }

  /** The table operations of a whole run. */
  function TableOps(c: BlockCipher, inputs: seq<Input>): seq<Requests.Op> {
    if inputs == [] then []
    else
      var before := inputs[..|inputs| - 1];
      var op := TableOp(c, Run(c, FRESH_SESSION, before), inputs[|inputs| - 1]);
      TableOps(c, before) + if op.None? then [] else [op.value]
  }

  /** Every session run drives its table through a run of table operations, so requests settle at most once,
      exactly the unsettled ones have a running timer, and every entry leads to an unsettled request. */
  lemma {:induction false} RequestsSettleOnce(c: BlockCipher, inputs: seq<Input>)
    ensures Run(c, FRESH_SESSION, inputs).table == Requests.Run(TableOps(c, inputs))
    ensures Requests.Inv(Run(c, FRESH_SESSION, inputs).table)
  {
    hide Next, TableOp;
    if inputs != [] {
      var before := inputs[..|inputs| - 1];
      RequestsSettleOnce(c, before);
      var s := Run(c, FRESH_SESSION, before);
      TableFollows(c, s, inputs[|inputs| - 1]);
      var op := TableOp(c, s, inputs[|inputs| - 1]);
      if op.Some? {
        Requests.RunSnoc(TableOps(c, before), op.value);
      } else {
        assert TableOps(c, inputs) == TableOps(c, before);
      }
    }
    Requests.SettledAtMostOnce(TableOps(c, inputs));
  }

  // ----- Where a frame goes -----

  lemma DecodedInRange(b: Bytes)
    requires Decode(b).Decoded?
    ensures var m := Decode(b).msg; |m.token| <= 8 && 0 <= m.messageId < 0x1_0000 && 0 <= m.typ < 4 && 0 <= m.code < 256
  {
  }

  /** The acknowledgement of a Ping, as it looks to whoever decodes it. */
  lemma AckIsShort(m: Message)
    requires |m.token| <= 8 && 0 <= m.messageId < 0x1_0000
    ensures Encode(PingAck(m)).Some? && |Encode(PingAck(m)).value| <= 12
    ensures Decode(Encode(PingAck(m)).value) == Decoded(Message(2, 0x00, m.messageId, m.token, [], []), Clean)
  {
    assert SortOptions([]) == [] && PrintOptions(0, []) == Some([]);
    PrintThenParse(PingAck(m));
  }

  /** Only an empty confirmable message is a Ping: the search finds none without a Uri-Path. */
  lemma PingIff(m: Message)
    ensures Classify(m) == Some(Ping) <==> m.code == EMPTY && m.typ == CON
  {
    hide FirstUriPath;
  }

  // ----- A connected session has its keys -----

  predicate Keyed(s: State) {
    |s.key| == 16 && |s.ivOut| == 16
  }

  lemma SendPlainKeyed(c: BlockCipher, s: State, plain: Bytes)
    requires Keyed(s)
    ensures Keyed(SendPlain(c, s, plain).state)
  {
    hide CbcEncrypt, Pad;
  }

  lemma SendKeyed(c: BlockCipher, s: State, name: Option<Name>, opts: SendOptions)
    requires Keyed(s)
    ensures Keyed(Send(c, s, name, opts).state)
  {
    hide SendPlain, Encode, Build;
    if name.Some? {
      var plain := Encode(Build(name.value, opts, ChosenId(s, opts)));
      if plain.Some? {
        SendPlainKeyed(c, Counted(s, opts), plain.value);
      }
    }
  }

  lemma HandledKeyed(c: BlockCipher, s: State, d: Decoded)
    ensures HandlePlain(c, s, d).status == s.status || HandlePlain(c, s, d).status.Closed?
    ensures Keyed(s) ==> Keyed(HandlePlain(c, s, d))
  {
    hide SendPlain, Encode, Classify, Requests.Respond, Requests.CloseAll;
    if d.Decoded? {
      var s1, ack := s.(recvCounter := d.msg.messageId, heard := s.heard + [d.msg]), Encode(PingAck(d.msg));
      if ack.Some? {
        SendPlainKeeps(c, s1, ack.value);
        if Keyed(s) {
          SendPlainKeyed(c, s1, ack.value);
        }
      }
    }
  }

  lemma StepKeyed(c: BlockCipher, s: State, i: Input)
    requires s.status.Connected? ==> Keyed(s)
    ensures Next(c, s, i).status.Connected? ==> Keyed(Next(c, s, i))
    ensures Next(c, s, i).status.Connected? && !i.Established? ==> s.status.Connected?
  {
    hide AesDecrypt, Decode, HandlePlain, Send, Requests.Fire, Requests.Open, Requests.CloseAll;
    match i {
      case FrameArrives(ct) =>
        var plain := AesDecrypt(c, s.key, s.ivIn, ct);
        if plain.Some? {
          HandledKeyed(c, s.(ivIn := FirstBlock(ct)), Decode(plain.value));
        }
      case SendCall(name, opts) =>
        SendKeeps(c, s, name, opts);
        if Keyed(s) {
          SendKeyed(c, s, name, opts);
        }
      case RequestCall(name, payload, options, token) =>
        SendKeeps(c, s, name, RequestOptions(payload, options, token));
        if Keyed(s) {
          SendKeyed(c, s, name, RequestOptions(payload, options, token));
        }
      case _ =>
    }
  }

  /** Whatever happened before, a connected session holds a key and an outbound vector of 16 bytes. */
  lemma {:induction false} ConnectedHasKeys(c: BlockCipher, inputs: seq<Input>)
    ensures var s := Run(c, FRESH_SESSION, inputs); s.status.Connected? ==> |s.key| == 16 && |s.ivOut| == 16
  {
    hide Next;
    if inputs != [] {
      var before := inputs[..|inputs| - 1];
      ConnectedHasKeys(c, before);
      StepKeyed(c, Run(c, FRESH_SESSION, before), inputs[|inputs| - 1]);
    }
  }

  // ----- Frames over runs -----

  /** What a frame says to a session. */
  function Reads(c: BlockCipher, s: State, ct: Bytes): Decoded {
    var plain := AesDecrypt(c, s.key, s.ivIn, ct);
    if plain.None? then Malformed else Decode(plain.value)
  }

  lemma ReadsInRange(c: BlockCipher, s: State, ct: Bytes)
    requires Reads(c, s, ct).Decoded?
    ensures HandleFrame(c, s, ct) == HandlePlain(c, s.(ivIn := FirstBlock(ct)), Reads(c, s, ct))
    ensures var m := Reads(c, s, ct).msg; |m.token| <= 8 && 0 <= m.messageId < 0x1_0000
  {
    hide AesDecrypt, Decode, HandlePlain;
    DecodedInRange(AesDecrypt(c, s.key, s.ivIn, ct).value);
  }

  /** In every run, a Ping that reaches a connected session produces exactly one frame, and what the other side
      reads from it under the vector the session held is an empty acknowledgement (type 2, code 0.00) with the Ping's
      own id and token, and with no option and no payload.
      No request and no listener sees the Ping. */
  lemma PingIsAcknowledged(c: BlockCipher, inputs: seq<Input>, ct: Bytes)
    requires var s := Run(c, FRESH_SESSION, inputs);
             && s.status.Connected? && Reads(c, s, ct).Decoded?
             && Reads(c, s, ct).msg.code == EMPTY && Reads(c, s, ct).msg.typ == CON
    ensures var s, s' := Run(c, FRESH_SESSION, inputs), Run(c, FRESH_SESSION, inputs + [FrameArrives(ct)]);
            var m := Reads(c, s, ct).msg;
            && s'.table == s.table && s'.events == s.events && s'.status == s.status
            && s'.recvCounter == m.messageId && s'.sendCounter == s.sendCounter
            && exists ack: Bytes, plain: Bytes ::
                 && GoesOut(c, s, s', ack, plain)
                 && Decode(plain) == Decoded(Message(2, 0x00, m.messageId, m.token, [], []), Clean)
  {
    hide Decode, HandlePlain, AesDecrypt, Reads, Run, HandleFrame, GoesOut;
    var s := Run(c, FRESH_SESSION, inputs);
    ConnectedHasKeys(c, inputs);
    RunSnoc(c, FRESH_SESSION, inputs, FrameArrives(ct));
    ReadsInRange(c, s, ct);
    var s1, d, s' := s.(ivIn := FirstBlock(ct)), Reads(c, s, ct), HandleFrame(c, s, ct);
    PingStep(c, s1, d);
    var ack, plain :| && GoesOut(c, s1, s', ack, plain)
                      && Decode(plain) == Decoded(Message(2, 0x00, d.msg.messageId, d.msg.token, [], []), Clean);
    SameVector(c, s1, s, s', ack, plain);
  }

  lemma PingStep(c: BlockCipher, s: State, d: Decoded)
    requires Keyed(s)
    requires d.Decoded? && d.msg.code == EMPTY && d.msg.typ == CON
    requires |d.msg.token| <= 8 && 0 <= d.msg.messageId < 0x1_0000
    ensures var s', m := HandlePlain(c, s, d), d.msg;
            && s'.table == s.table && s'.events == s.events && s'.status == s.status
            && s'.recvCounter == m.messageId && s'.sendCounter == s.sendCounter
            && exists ct: Bytes, plain: Bytes ::
                 && GoesOut(c, s, s', ct, plain)
                 && Decode(plain) == Decoded(Message(2, 0x00, m.messageId, m.token, [], []), Clean)
  {
    hide Decode, Encode, Classify, SendPlain, AesDecrypt, PingAck, GoesOut;
    var m := d.msg;
    PingIff(m);
    AckIsShort(m);
    var s1, ack := s.(recvCounter := m.messageId, heard := s.heard + [m]), Encode(PingAck(m)).value;
    ShortIsSent(c, s1, ack);
    SendPlainKeeps(c, s1, ack);
    PlainIsReadBack(c, s1, ack);
    var ct :| GoesOut(c, s1, HandlePlain(c, s, d), ct, ack);
    SameVector(c, s1, s, HandlePlain(c, s, d), ct, ack);
  }

  lemma SameVector(c: BlockCipher, s: State, s1: State, s': State, ct: Bytes, plain: Bytes)
    requires GoesOut(c, s, s', ct, plain)
    requires s1.key == s.key && s1.ivOut == s.ivOut && s1.written == s.written
    ensures GoesOut(c, s1, s', ct, plain)
  {
    hide AesDecrypt;
  }

  lemma ShortIsSent(c: BlockCipher, s: State, plain: Bytes)
    requires |s.key| == 16 && |s.ivOut| == 16 && |plain| <= 65519
    ensures SendPlain(c, s, plain).ok
  {
    hide Frame;
  }

  lemma {:induction false} TokensAreOneByte(c: BlockCipher, inputs: seq<Input>)
    ensures forall t :: t in Run(c, FRESH_SESSION, inputs).table.tokens ==> |t| == 1
  {
    hide TableOp;
    if inputs != [] {
      var before := inputs[..|inputs| - 1];
      TokensAreOneByte(c, before);
      var s, i := Run(c, FRESH_SESSION, before), inputs[|inputs| - 1];
      TokensGrow(c, s, i);
    }
  }

  lemma TokensGrow(c: BlockCipher, s: State, i: Input)
    ensures var tokens := Next(c, s, i).table.tokens;
            tokens == s.table.tokens || (i.RequestCall? && tokens == s.table.tokens + [[i.token]])
  {
    hide AesDecrypt, Decode, Encode, Classify, SendPlain, Send;
    TableFollows(c, s, i);
    Requests.RejectAllKeepsTokens(s.table, s.table.pending);
  }

  /** In every run, colliding tokens or not: a decoded frame that is not a Ping resolves the one request the table has
      under its token and changes no other, or, if there is none, is emitted once. */
  lemma FrameGoesToItsEntry(c: BlockCipher, inputs: seq<Input>, ct: Bytes)
    requires var s := Run(c, FRESH_SESSION, inputs);
             Reads(c, s, ct).Decoded? && !(Reads(c, s, ct).msg.code == EMPTY && Reads(c, s, ct).msg.typ == CON)
    ensures var s, s' := Run(c, FRESH_SESSION, inputs), Run(c, FRESH_SESSION, inputs + [FrameArrives(ct)]);
            var d := Reads(c, s, ct);
            && s'.heard == s.heard + [d.msg] && s'.written == s.written && s'.status == s.status
            && s'.recvCounter == d.msg.messageId
            && GoesToEntry(s, s', d)
  {
    hide Decode, HandlePlain, AesDecrypt, Reads, Run, HandleFrame, GoesToEntry;
    var s := Run(c, FRESH_SESSION, inputs);
    RequestsSettleOnce(c, inputs);
    assert [] !in s.table.tokens by {
      TokensAreOneByte(c, inputs);
    }
    RunSnoc(c, FRESH_SESSION, inputs, FrameArrives(ct));
    ReadsInRange(c, s, ct);
    EntryStep(c, s.(ivIn := FirstBlock(ct)), Reads(c, s, ct));
    SameEntry(s, HandleFrame(c, s, ct), Reads(c, s, ct), FirstBlock(ct));
  }

  ghost predicate GoesToEntry(s: State, s': State, d: Decoded)
    requires d.Decoded?
  {
    var t, t', token := s.table, s'.table, d.msg.token;
    if token !in View(t.pending) then
      t' == t && s'.events == s.events + [MessageEvent(Classify(d.msg), d)]
    else
      var id := View(t.pending)[token];
      && s'.events == s.events && Requests.Waits(t, token, id)
      && t'.timers == t.timers - {id} && t'.settled == t.settled + [Requests.Settle(id, Requests.Answer(d.msg))]
      && View(t'.pending) == View(t.pending) - {token} && t'.tokens == t.tokens
  }

  lemma SameEntry(s: State, s': State, d: Decoded, iv: Bytes)
    requires d.Decoded? && GoesToEntry(s.(ivIn := iv), s', d)
    ensures GoesToEntry(s, s', d)
  {
  }

  lemma EntryStep(c: BlockCipher, s: State, d: Decoded)
    requires Requests.Inv(s.table) && [] !in s.table.tokens
    requires d.Decoded? && !(d.msg.code == EMPTY && d.msg.typ == CON)
    ensures var s' := HandlePlain(c, s, d);
            && s'.heard == s.heard + [d.msg] && s'.written == s.written && s'.status == s.status
            && s'.recvCounter == d.msg.messageId
            && GoesToEntry(s, s', d)
  {
    hide Classify;
    var m := d.msg;
    PingIff(m);
    if m.token in View(s.table.pending) {
      assert Requests.Waits(s.table, m.token, View(s.table.pending)[m.token]);
    }
  }

  /** Response correlation over every run in which the tokens of outstanding requests were pairwise distinct.  A
      decoded frame that is not a Ping goes to exactly one place: to the request that issued its token, if there is
      one, which alone is settled, stopped and taken out of the table; and otherwise once to the listeners.  No
      request is lost track of, before or after. */
  lemma FrameGoesToOnePlace(c: BlockCipher, inputs: seq<Input>, ct: Bytes)
    requires Requests.FreshThroughout(TableOps(c, inputs))
    requires var s := Run(c, FRESH_SESSION, inputs);
             Reads(c, s, ct).Decoded? && !(Reads(c, s, ct).msg.code == EMPTY && Reads(c, s, ct).msg.typ == CON)
    ensures var s, s' := Run(c, FRESH_SESSION, inputs), Run(c, FRESH_SESSION, inputs + [FrameArrives(ct)]);
            var d := Reads(c, s, ct);
            && s'.heard == s.heard + [d.msg] && s'.written == s.written && s'.status == s.status
            && s'.recvCounter == d.msg.messageId
            && Requests.AllMapped(s.table) && Requests.AllMapped(s'.table)
            && GoesToOnePlace(s, s', d)
  {
    hide Decode, AesDecrypt, Reads, Run, GoesToEntry, GoesToOnePlace;
    var s, s' := Run(c, FRESH_SESSION, inputs), Run(c, FRESH_SESSION, inputs + [FrameArrives(ct)]);
    FrameGoesToItsEntry(c, inputs, ct);
    RequestsSettleOnce(c, inputs);
    Requests.MappedThroughoutIff(TableOps(c, inputs));
    assert Requests.AllMapped(s.table);
    EntryIsPlace(s, s', Reads(c, s, ct));
  }

  /** Either the frame's token is nobody's, the table stays as it is and the listeners get the message; or it is
      the token of one waiting request, and only that request's entry, timer and promise change. */
  ghost predicate GoesToOnePlace(s: State, s': State, d: Decoded)
    requires d.Decoded?
  {
    var t, t' := s.table, s'.table;
    if Requests.Fresh(t, d.msg.token) then
      t' == t && s'.events == s.events + [MessageEvent(Classify(d.msg), d)]
    else
      && s'.events == s.events
      && exists id :: && Requests.Waits(t, d.msg.token, id)
                      && t'.timers == t.timers - {id}
                      && t'.settled == t.settled + [Requests.Settle(id, Requests.Answer(d.msg))]
                      && View(t'.pending) == View(t.pending) - {d.msg.token} && t'.tokens == t.tokens
  }

  /** If no request was lost track of, the tokens in the table are those of the waiting requests. */
  lemma EntryIsPlace(s: State, s': State, d: Decoded)
    requires Requests.Inv(s.table) && Requests.AllMapped(s.table) && d.Decoded? && GoesToEntry(s, s', d)
    ensures GoesToOnePlace(s, s', d) && Requests.AllMapped(s'.table)
  {
    hide Classify, Requests.TimersMatch;
    var t, t', token := s.table, s'.table, d.msg.token;
    forall id | Requests.Waits(t, token, id) ensures token in View(t.pending) {
      assert Requests.Found(t, id);
    }
    if token in View(t.pending) {
      forall id | id in t'.timers ensures Requests.Found(t', id) {
        assert Requests.Found(t, id);
      }
    }
  }

  /** The id a message goes out with, and the counter afterwards. */
  function IdOf(s: State, opts: SendOptions): int {
    match opts.messageId case Some(id) => id % 0x1_0000 case None => s.sendCounter % 0x1_0000
  }

  function CounterAfter(s: State, opts: SendOptions): int {
    match opts.messageId case Some(_) => s.sendCounter case None => (s.sendCounter + 1) % 0x1_0000
  }

  /** A send that returns writes one frame, and what the other side decodes from it, under the vector the session
      held, carries what the caller asked for: the name's code, type and path, the id that is returned, and the
      caller's token, options and payload.  An id that the caller does not choose is the counter's, which moves on;
      and nothing else of the session changes. */
  lemma SendIsUnderstood(c: BlockCipher, s: State, name: Name, opts: SendOptions)
    requires Send(c, s, Some(name), opts).ok
    ensures ChosenId(s, opts) == IdOf(s, opts)
    ensures var s' := Send(c, s, Some(name), opts).state;
            && s' == s.(ivOut := s'.ivOut, written := s'.written, sendCounter := CounterAfter(s, opts))
            && exists ct: Bytes, plain: Bytes :: GoesOut(c, s, s', ct, plain) && Tells(plain, name, opts, IdOf(s, opts))
  {
    hide Encode, Build, SendPlain, AesDecrypt, GoesOut, Tells;
    var m, s' := Build(name, opts, ChosenId(s, opts)), Send(c, s, Some(name), opts).state;
    PrintedTells(name, opts, ChosenId(s, opts));
    SendPlainKeeps(c, Counted(s, opts), Encode(m).value);
    PlainIsReadBack(c, Counted(s, opts), Encode(m).value);
    var ct :| GoesOut(c, Counted(s, opts), s', ct, Encode(m).value);
    SameVector(c, Counted(s, opts), s, s', ct, Encode(m).value);
  }

  /** When a send returns, and what one that throws leaves behind.  A name that is not known changes nothing;
      otherwise the counter has moved on; and if the message could be printed but is too long, so has the vector,
      but nothing is written. */
  lemma SendReturnsIff(c: BlockCipher, s: State, name: Option<Name>, opts: SendOptions)
    requires Keyed(s)
    ensures var r := Send(c, s, name, opts);
            if name.None? then r == Returned(s, false)
            else
              var plain := Encode(Build(name.value, opts, IdOf(s, opts)));
              && (r.ok <==> plain.Some? && |plain.value| <= 65519)
              && (plain.None? ==> r.state == s.(sendCounter := CounterAfter(s, opts)))
              && (!r.ok && plain.Some? ==>
                    && |r.state.ivOut| == 16
                    && r.state == s.(ivOut := r.state.ivOut, sendCounter := CounterAfter(s, opts)))
  {
    hide Encode, Build, CbcEncrypt, Pad;
  }

  /** In every run, a request on a session that is not connected changes nothing (its promise is rejected from the
      start), and one on a connected session gets the next number, and is either sent or rejected at once.  Sent,
      one frame goes out that tells the name, the payload, the options and the one-byte token under the counter's
      id; the timer runs, and the request is found under its token.  Rejected, nothing is written and the token
      leads nowhere. */
  lemma RequestIsSentOrRejected(
      c: BlockCipher, inputs: seq<Input>, name: Option<Name>, payload: Bytes, options: seq<CoapOption>, token: byte)
    ensures var s := Run(c, FRESH_SESSION, inputs);
            var s' := Run(c, FRESH_SESSION, inputs + [RequestCall(name, payload, options, token)]);
            var opts := SendOptions(payload, options, None, [token], None);
            var plain := if name.None? then None else Encode(Build(name.value, opts, s.sendCounter % 0x1_0000));
            if !s.status.Connected? then s' == s
            else RequestEnds(c, s, s', name, opts, plain.Some? && |plain.value| <= 65519)
  {
    hide Run, Send, Encode, Build, GoesOut, Tells, Requests.Open, Requests.Inv, View;
    var s, opts := Run(c, FRESH_SESSION, inputs), SendOptions(payload, options, None, [token], None);
    ConnectedHasKeys(c, inputs);
    RequestsSettleOnce(c, inputs);
    RunSnoc(c, FRESH_SESSION, inputs, RequestCall(name, payload, options, token));
    if s.status.Connected? {
      SendReturnsIff(c, s, name, opts);
      SendKeeps(c, s, name, opts);
      var r := Send(c, s, name, opts);
      Requests.OpenMeans(s.table, [token], r.ok);
      if r.ok {
        SendIsUnderstood(c, s, name.value, opts);
        var ct, plain :| GoesOut(c, s, r.state, ct, plain) && Tells(plain, name.value, opts, IdOf(s, opts));
        var s' := Run(c, FRESH_SESSION, inputs + [RequestCall(name, payload, options, token)]);
        OtherTable(c, s, r.state, s', ct, plain);
      }
    }
  }

  lemma OtherTable(c: BlockCipher, s: State, s1: State, s': State, ct: Bytes, plain: Bytes)
    requires GoesOut(c, s, s1, ct, plain) && s'.written == s1.written && s'.ivOut == s1.ivOut
    ensures GoesOut(c, s, s', ct, plain)
  {
    hide AesDecrypt;
  }

  ghost predicate RequestEnds(
      c: BlockCipher, s: State, s': State, name: Option<Name>, opts: SendOptions, sent: bool)
  {
    var t, t', n := s.table, s'.table, |s.table.tokens|;
    && t'.tokens == t.tokens + [opts.token]
    && if sent then
         && name.Some?
         && (exists ct: Bytes, plain: Bytes ::
               GoesOut(c, s, s', ct, plain) && Tells(plain, name.value, opts, s.sendCounter % 0x1_0000))
         && s'.sendCounter == (s.sendCounter + 1) % 0x1_0000
         && t'.timers == t.timers + {n} && t'.settled == t.settled
         && View(t'.pending) == View(t.pending)[opts.token := n]
       else
         && s'.written == s.written
         && t'.timers == t.timers && t'.settled == t.settled + [Requests.Settle(n, Requests.SendFailed)]
         && View(t'.pending) == View(t.pending) - {opts.token}
  }

  /** In every run, the timer of an open request rejects that request as timed out, and takes out whatever is in the
      table under its token; any other timer does nothing. */
  lemma TimerRejects(c: BlockCipher, inputs: seq<Input>, id: int)
    ensures var s, s' := Run(c, FRESH_SESSION, inputs), Run(c, FRESH_SESSION, inputs + [TimerGoesOff(id)]);
            var t, t' := s.table, s'.table;
            && s' == s.(table := t')
            && if id in t.timers then
                 && 0 <= id < |t.tokens|
                 && t'.settled == t.settled + [Requests.Settle(id, Requests.TimedOut)] && t'.timers == t.timers - {id}
                 && View(t'.pending) == View(t.pending) - {t.tokens[id]} && t'.tokens == t.tokens
               else t' == t
  {
    hide Run, Requests.Fire, Requests.Inv, View;
    RequestsSettleOnce(c, inputs);
    RunSnoc(c, FRESH_SESSION, inputs, TimerGoesOff(id));
    Requests.FireMeans(Run(c, FRESH_SESSION, inputs).table, id);
  }

  // ----- Message ids over a run -----

  /** Does this input take an id from the counter? */
  predicate Draws(s: State, i: Input) {
    match i
    case SendCall(name, opts) => name.Some? && opts.messageId.None?
    case RequestCall(name, _, _, _) => name.Some? && s.status.Connected?
    case _ => false
  }

  function Drawn(c: BlockCipher, s: State, inputs: seq<Input>): nat {
    if inputs == [] then 0
    else
      var before := inputs[..|inputs| - 1];
      Drawn(c, s, before) + if Draws(Run(c, s, before), inputs[|inputs| - 1]) then 1 else 0
  }

  lemma CounterStep(c: BlockCipher, s: State, i: Input)
    requires !i.Established?
    ensures Next(c, s, i).sendCounter == if Draws(s, i) then (s.sendCounter + 1) % 0x1_0000 else s.sendCounter
  {
    hide AesDecrypt, Decode, Encode, Classify, Build, SendPlain, Requests.Fire, Requests.Open, Requests.CloseAll,
         Requests.Respond;
    match i {
      case FrameArrives(ct) =>
        var plain := AesDecrypt(c, s.key, s.ivIn, ct);
        if plain.Some? && Decode(plain.value).Decoded? {
          var m, s0 := Decode(plain.value).msg, s.(ivIn := FirstBlock(ct));
          var s1 := s0.(recvCounter := m.messageId, heard := s0.heard + [m]);
          if Encode(PingAck(m)).Some? {
            SendPlainKeeps(c, s1, Encode(PingAck(m)).value);
          }
        }
      case SendCall(name, opts) => CounterOfSend(c, s, name, opts);
      case RequestCall(name, payload, options, token) =>
        CounterOfSend(c, s, name, RequestOptions(payload, options, token));
      case _ =>
    }
  }

  lemma CounterOfSend(c: BlockCipher, s: State, name: Option<Name>, opts: SendOptions)
    ensures Send(c, s, name, opts).state.sendCounter == if name.Some? then CounterAfter(s, opts) else s.sendCounter
  {
    hide Encode, Build, SendPlain;
    if name.Some? {
      var plain := Encode(Build(name.value, opts, ChosenId(s, opts)));
      if plain.Some? {
        SendPlainKeeps(c, Counted(s, opts), plain.value);
      }
    }
  }

  /** Over every run of a session that has begun with some counter, the messages that take their id from it take
      consecutive ones, modulo 65536: after so many of them the next is the beginning plus that number. */
  lemma {:induction false} IdsAreConsecutive(c: BlockCipher, s: State, inputs: seq<Input>)
    requires 0 <= s.sendCounter < 0x1_0000 && forall i :: i in inputs ==> !i.Established?
    ensures Run(c, s, inputs).sendCounter == (s.sendCounter + Drawn(c, s, inputs)) % 0x1_0000
  {
    hide Next, Draws;
    if inputs != [] {
      var before := inputs[..|inputs| - 1];
      IdsAreConsecutive(c, s, before);
      CounterStep(c, Run(c, s, before), inputs[|inputs| - 1]);
    }
  }

  /** From `s` to `s'` one frame is written, its ciphertext reads back as `plain` under the vector `s` held, and the
      vector rolls to its first block. */
  ghost predicate GoesOut(c: BlockCipher, s: State, s': State, ct: Bytes, plain: Bytes) {
    && 16 <= |ct| <= MAX_FRAME
    && s'.written == s.written + [Frame(ct)] && s'.ivOut == ct[..16]
    && AesDecrypt(c, s.key, s.ivOut, ct) == Some(plain)
  }

  /** A plaintext that goes out is written as one frame from which it can be read back. */
  lemma PlainIsReadBack(c: BlockCipher, s: State, plain: Bytes)
    requires SendPlain(c, s, plain).ok
    ensures exists ct: Bytes :: GoesOut(c, s, SendPlain(c, s, plain).state, ct, plain)
  {
    hide Frame, AesDecrypt, CbcEncrypt, Pad;
    AesRoundTrip(c, s.key, s.ivOut, plain);
    var ct := AesEncrypt(c, s.key, s.ivOut, plain).value;
    assert GoesOut(c, s, SendPlain(c, s, plain).state, ct, plain);
  }

  // ----- The end of a session -----

  /** In every run, a frame ends a connected session exactly when it is not a whole number of blocks, or the frame
      before it was empty and left no vector to decrypt under.  Bytes that decrypt but are no CoAP message do not end
      it, and still move the vector on. */
  lemma FrameEndsSessionIff(c: BlockCipher, inputs: seq<Input>, ct: Bytes)
    requires Run(c, FRESH_SESSION, inputs).status.Connected?
    ensures var s, s' := Run(c, FRESH_SESSION, inputs), Run(c, FRESH_SESSION, inputs + [FrameArrives(ct)]);
            && (s'.status.Closed? <==> |ct| % 16 != 0 || |s.ivIn| != 16)
            && (!s'.status.Closed? ==> s'.status.Connected? && s'.ivIn == FirstBlock(ct))
  {
    hide Run, HandleFrame;
    ConnectedHasKeys(c, inputs);
    RunSnoc(c, FRESH_SESSION, inputs, FrameArrives(ct));
    FrameEnds(c, Run(c, FRESH_SESSION, inputs), ct);
  }

  lemma FrameEnds(c: BlockCipher, s: State, ct: Bytes)
    requires s.status.Connected? && Keyed(s)
    ensures var s' := HandleFrame(c, s, ct);
            && (s'.status.Closed? <==> |ct| % 16 != 0 || |s.ivIn| != 16)
            && (!s'.status.Closed? ==> s'.status.Connected? && s'.ivIn == FirstBlock(ct) && Keyed(s'))
  {
    hide AesDecrypt, Decode, HandlePlain;
    var plain := AesDecrypt(c, s.key, s.ivIn, ct);
    if plain.Some? {
      DecodedStays(c, s.(ivIn := FirstBlock(ct)), plain.value);
    }
  }

  lemma DecodedStays(c: BlockCipher, s: State, plain: Bytes)
    requires s.status.Connected? && Keyed(s)
    ensures var s' := HandlePlain(c, s, Decode(plain)); s'.status.Connected? && s'.ivIn == s.ivIn && Keyed(s')
  {
    hide Decode, Encode, Classify, SendPlain, Requests.Respond;
    var d := Decode(plain);
    if d.Decoded? {
      DecodedInRange(plain);
      AckIsShort(d.msg);
      var s1, ack := s.(recvCounter := d.msg.messageId, heard := s.heard + [d.msg]), Encode(PingAck(d.msg)).value;
      ShortIsSent(c, s1, ack);
      SendPlainKeeps(c, s1, ack);
      SendPlainKeyed(c, s1, ack);
    }
  }

  /** The handshake's result is taken over whole, and what was sent, asked, heard and emitted before is kept; the
      call of `run` changes nothing but the status. */
  lemma ResultIsTakenOver(c: BlockCipher, s: State, k: Keys, peer: Peer)
    ensures var s' := Next(c, s, Established(k, peer));
            && s'.status.Connected? && s'.peer == Some(peer)
            && s'.key == k.key && s'.ivIn == k.ivIn && s'.ivOut == k.ivOut
            && s'.recvCounter == k.recvCounter && s'.sendCounter == k.sendCounter
            && s'.table == s.table && s'.written == s.written && s'.heard == s.heard
            && s'.events == s.events + [HandshakeEvent]
    ensures var s' := Next(c, s, RunCalled); s'.status.Handshaking? && s == s'.(status := s.status)
  {
  }

  /** An error event and the end, for a session that is not closed; only the event for one that is. */
  ghost predicate ErrorEnds(s: State, s': State) {
    if s.status.Closed? then s' == s.(events := s.events + [ErrorEvent])
    else
      && s'.status.Closed? && s'.events == s.events + [ErrorEvent, CloseEvent] && s'.table == Requests.CloseAll(s.table)
      && s' == s.(status := s'.status, events := s'.events, table := s'.table)
  }

  /** What ends or disturbs a session, in any state: a socket error and a frame that cannot be decrypted are an
      error and the end; so is what `run` catches, unless the session is closed already; disconnecting is the end
      without an error; and a frame that can be decrypted but is no CoAP message is an error and nothing more,
      except that the vector has moved on. */
  lemma ErrorsAndEnds(c: BlockCipher, s: State, ct: Bytes)
    ensures ErrorEnds(s, Next(c, s, SocketError))
    ensures if s.status.Closed? then Next(c, s, RunThrows) == s else ErrorEnds(s, Next(c, s, RunThrows))
    ensures var s' := Next(c, s, Disconnect);
            if s.status.Closed? then s' == s
            else s' == s.(status := Closed, events := s.events + [CloseEvent], table := Requests.CloseAll(s.table))
    ensures var s', plain := Next(c, s, FrameArrives(ct)), AesDecrypt(c, s.key, s.ivIn, ct);
            && (plain.None? ==> ErrorEnds(s, s'))
            && (plain.Some? && Decode(plain.value).Malformed? ==>
                  s' == s.(ivIn := FirstBlock(ct), events := s.events + [ErrorEvent]))
  {
    hide AesDecrypt, Decode, Requests.CloseAll;
  }

  /** So an empty frame is an error that goes unpunished until the next frame, which ends the session. */
  lemma EmptyFrameDoomsTheNext(c: BlockCipher, inputs: seq<Input>, ct: Bytes)
    requires Run(c, FRESH_SESSION, inputs).status.Connected? && |Run(c, FRESH_SESSION, inputs).ivIn| == 16
    ensures var s := Run(c, FRESH_SESSION, inputs);
            && Run(c, FRESH_SESSION, inputs + [FrameArrives([])]) == s.(ivIn := [], events := s.events + [ErrorEvent])
            && Run(c, FRESH_SESSION, inputs + [FrameArrives([])] + [FrameArrives(ct)]).status.Closed?
  {
    hide Run;
    ConnectedHasKeys(c, inputs);
    RunSnoc(c, FRESH_SESSION, inputs, FrameArrives([]));
    assert HandleFrame(c, Run(c, FRESH_SESSION, inputs), []).ivIn == [];
    FrameEndsSessionIff(c, inputs + [FrameArrives([])], ct);
  }

  /** The only inputs that close a session are those that close its table. */
  lemma ClosesTheTable(c: BlockCipher, s: State, i: Input)
    requires !s.status.Closed? && Next(c, s, i).status.Closed?
    ensures TableOp(c, s, i) == Some(Requests.OpClose)
  {
    hide AesDecrypt, Decode, Encode, SendPlain, Send, Requests.Respond, Requests.CloseAll, Requests.Fire, Requests.Open;
    match i {
      case FrameArrives(ct) =>
        var plain := AesDecrypt(c, s.key, s.ivIn, ct);
        if plain.Some? && Decode(plain.value).Decoded? {
          var m, s0 := Decode(plain.value).msg, s.(ivIn := FirstBlock(ct));
          var s1 := s0.(recvCounter := m.messageId, heard := s0.heard + [m]);
          if Encode(PingAck(m)).Some? {
            SendPlainKeeps(c, s1, Encode(PingAck(m)).value);
            SendPlainOk(c, s0, s1, Encode(PingAck(m)).value);
          }
        }
      case SendCall(name, opts) => SendKeeps(c, s, name, opts);
      case RequestCall(name, payload, options, token) => SendKeeps(c, s, name, RequestOptions(payload, options, token));
      case _ =>
    }
  }

  /** Whatever ends a session, in every run with distinct outstanding tokens: every request still open is settled
      as closed, in the order in which they were made, and no timer is left. */
  lemma EndRejectsTheRest(c: BlockCipher, inputs: seq<Input>, i: Input)
    requires Requests.FreshThroughout(TableOps(c, inputs))
    requires !Run(c, FRESH_SESSION, inputs).status.Closed? && Run(c, FRESH_SESSION, inputs + [i]).status.Closed?
    ensures var t, t' := Run(c, FRESH_SESSION, inputs).table, Run(c, FRESH_SESSION, inputs + [i]).table;
            var r := Requests.Rejections(t.pending);
            && t'.settled == t.settled + r
            && (forall i, j :: 0 <= i < j < |r| ==> r[i].id < r[j].id)
            && t'.timers == {} && t'.pending == []
  {
    hide Run, Next, TableOp, Requests.CloseAll, Requests.Rejections;
    Requests.OrderThroughout(TableOps(c, inputs));
    var s := Run(c, FRESH_SESSION, inputs);
    RunSnoc(c, FRESH_SESSION, inputs, i);
    ClosesTheTable(c, s, i);
    TableFollows(c, s, i);
    RequestsSettleOnce(c, inputs);
    Requests.MappedThroughoutIff(TableOps(c, inputs));
    assert Requests.AllMapped(s.table);
    Requests.CloseSettlesAllIff(s.table);
  }

  function Closes(events: seq<Event>): nat {
    if events == [] then 0
    else Closes(events[..|events| - 1]) + if events[|events| - 1].CloseEvent? then 1 else 0
  }

  /** The two assignments that look away from `closed`: `run` is called, and the handshake's result arrives. */
  predicate Revives(i: Input) {
    i.RunCalled? || i.Established?
  }

  /** Neither happens to a session that is already closed. */
  ghost predicate InTime(c: BlockCipher, inputs: seq<Input>) {
    inputs == [] ||
    var before := inputs[..|inputs| - 1];
    InTime(c, before) && (Revives(inputs[|inputs| - 1]) ==> !Run(c, FRESH_SESSION, before).status.Closed?)
  }

  /** How often one of them does. */
  function Revivals(c: BlockCipher, inputs: seq<Input>): nat {
    if inputs == [] then 0
    else
      var before := inputs[..|inputs| - 1];
      var late := Revives(inputs[|inputs| - 1]) && Run(c, FRESH_SESSION, before).status.Closed?;
      Revivals(c, before) + if late then 1 else 0
  }

  /** Closed is terminal: at no point of the run did a closed session become anything else. */
  ghost predicate StaysClosed(c: BlockCipher, inputs: seq<Input>) {
    inputs == [] ||
    var before := inputs[..|inputs| - 1];
    && StaysClosed(c, before)
    && (Run(c, FRESH_SESSION, before).status.Closed? ==> Run(c, FRESH_SESSION, inputs).status.Closed?)
  }

  /** What one input adds to the events, and when it changes the status. */
  lemma ClosingStep(c: BlockCipher, s: State, i: Input)
    ensures var s' := Next(c, s, i);
            && (s.status.Closed? ==> (s'.status.Closed? <==> !Revives(i)))
            && Closes(s'.events) == Closes(s.events) + if s'.status.Closed? && !s.status.Closed? then 1 else 0
  {
    hide AesDecrypt, Decode, HandlePlain, Send, Requests.Fire, Requests.Open, Requests.CloseAll, Finalize, Closes;
    FinalizeCloses(s);
    FinalizeCloses(s.(events := s.events + [ErrorEvent]));
    ClosesSnoc(s.events, ErrorEvent);
    ClosesSnoc(s.events, HandshakeEvent);
    match i {
      case FrameArrives(ct) =>
        var plain := AesDecrypt(c, s.key, s.ivIn, ct);
        if plain.Some? {
          PlainCloses(c, s.(ivIn := FirstBlock(ct)), Decode(plain.value));
        }
      case SendCall(name, opts) => SendKeeps(c, s, name, opts);
      case RequestCall(name, payload, options, token) => SendKeeps(c, s, name, RequestOptions(payload, options, token));
      case _ =>
    }
  }

  lemma FinalizeCloses(s: State)
    ensures var s' := Finalize(s);
            s'.status.Closed? && Closes(s'.events) == Closes(s.events) + if s.status.Closed? then 0 else 1
  {
  }

  lemma PlainCloses(c: BlockCipher, s: State, d: Decoded)
    ensures var s' := HandlePlain(c, s, d);
            && (s.status.Closed? ==> s'.status.Closed?)
            && Closes(s'.events) == Closes(s.events) + if s'.status.Closed? && !s.status.Closed? then 1 else 0
  {
    hide Encode, Classify, SendPlain, Requests.Respond, Finalize, Closes;
    ClosesSnoc(s.events, ErrorEvent);
    if d.Decoded? {
      ClosesSnoc(s.events, MessageEvent(Classify(d.msg), d));
      var s1 := s.(recvCounter := d.msg.messageId, heard := s.heard + [d.msg]);
      var ack := Encode(PingAck(d.msg));
      var s2 := if ack.Some? then SendPlain(c, s1, ack.value).state else s1;
      if ack.Some? {
        SendPlainKeeps(c, s1, ack.value);
      }
      FinalizeCloses(s2.(events := s2.events + [ErrorEvent]));
    }
  }

  lemma ClosesSnoc(events: seq<Event>, e: Event)
    ensures Closes(events + [e]) == Closes(events) + if e.CloseEvent? then 1 else 0
  {
  }

  /** A closed session stays closed exactly if neither a call of `run` nor the handshake's result comes too late.  The
      close event is emitted once for each time the session is revived, and once if it is closed now: so never before
      the session is closed and exactly once by then, precisely if it is never revived. */
  lemma {:induction false} ClosedIsTerminalIff(c: BlockCipher, inputs: seq<Input>)
    ensures StaysClosed(c, inputs) <==> InTime(c, inputs)
    ensures var s := Run(c, FRESH_SESSION, inputs);
            var once := if s.status.Closed? then 1 else 0;
            && Closes(s.events) == once + Revivals(c, inputs)
            && (Closes(s.events) == once <==> InTime(c, inputs))
  {
    hide Next;
    if inputs != [] {
      var before := inputs[..|inputs| - 1];
      ClosedIsTerminalIff(c, before);
      ClosingStep(c, Run(c, FRESH_SESSION, before), inputs[|inputs| - 1]);
    }
  }

  lemma RunThree(c: BlockCipher, i: Input, j: Input, k: Input)
    ensures Run(c, FRESH_SESSION, [i, j, k]) == Next(c, Next(c, Next(c, FRESH_SESSION, i), j), k)
  {
    hide Next;
    RunSnoc(c, FRESH_SESSION, [], i);
    RunSnoc(c, FRESH_SESSION, [i], j);
    RunSnoc(c, FRESH_SESSION, [i, j], k);
    assert [] + [i] == [i] && [i] + [j] == [i, j] && [i, j] + [k] == [i, j, k];
    assert Run(c, FRESH_SESSION, []) == FRESH_SESSION;
  }

  /** A late result revives a closed session, which is then closed a second time. */
  lemma LateHandshakeClosesTwice(c: BlockCipher, k: Keys, peer: Peer)
    ensures var s := Run(c, FRESH_SESSION, [Disconnect, Established(k, peer), Disconnect]);
            s.status.Closed? && s.events == [CloseEvent, HandshakeEvent, CloseEvent]
  {
    RunThree(c, Disconnect, Established(k, peer), Disconnect);
  }

  /** And so does `run` on a session that was disconnected before: the read of the device's first 256 bytes is
      rejected by the closed queue, and what `run` catches then closes the session a second time. */
  lemma RunAfterCloseClosesTwice(c: BlockCipher)
    ensures var q := ByteQueues.AfterRead(ByteQueues.AfterClose(ByteQueues.EMPTY), 256);
            q.waiters == [] && q.settled == [ByteQueues.Rejected(0)]
    ensures var s := Run(c, FRESH_SESSION, [Disconnect, RunCalled, RunThrows]);
            s.status.Closed? && s.events == [CloseEvent, ErrorEvent, CloseEvent]
  {
    ByteQueues.ClosedQueueRejects(ByteQueues.AfterClose(ByteQueues.EMPTY), 256);
    RunThree(c, Disconnect, RunCalled, RunThrows);
  }
}
