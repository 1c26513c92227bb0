/** The `Session` object of lib/session.js: methods that update its fields, each proved equal to the function
    of the same name in SessionSpec.dfy. */
module Sessions {
  import opened Octets
  import opened JsMap
  import opened Chunking
  import opened Cipher
  import opened Coap
  import opened Messages
  import opened Requests
  import ByteQueues
  import opened Spec = SessionSpec

  class Session {
    const cipher: BlockCipher
    var status: Status
    var key: Bytes
    var ivIn: Bytes
    var ivOut: Bytes
    var recvCounter: int
    var sendCounter: int
    var pending: Entries<Bytes, int>
    var timers: set<int>
    var tokens: seq<Bytes>
    var settled: seq<Settle>
    var written: seq<Bytes>
    var events: seq<Event>
    ghost var heard: seq<Message>
    var peer: Option<Peer>
    const queue: ByteQueues.ByteQueue

    ghost function Outstanding(): Table
      reads this
    {
      Table(pending, timers, tokens, settled)
    }

    ghost function Now(): State
      reads this
    {
      Spec.State(status, key, ivIn, ivOut, recvCounter, sendCounter, Outstanding(), written, events, heard, peer)
    }

    constructor (cipher: BlockCipher)
      ensures this.cipher == cipher && Now() == FRESH_SESSION
      ensures fresh(queue) && queue.State() == ByteQueues.EMPTY
    {
      this.cipher := cipher;
      queue := new ByteQueues.ByteQueue();
      status, key, ivIn, ivOut, recvCounter, sendCounter := Opening, [], [], [], 0, 0;
      pending, timers, tokens, settled := [], {}, [], [];
      written, events, heard, peer := [], [], [], None;
    }

    method OnData(chunk: Bytes)
      modifies queue
      ensures queue.State() == ByteQueues.AfterPush(old(queue.State()), chunk)
    {
      queue.Push(chunk);
    }

    method SendPlain(plain: Bytes) returns (ok: bool)
      modifies this
      ensures Returned(Now(), ok) == Spec.SendPlain(cipher, old(Now()), plain)
    {
      var ct := AesEncrypt(cipher, key, ivOut, plain);
      if ct.None? {
        return false;
      }
      ivOut := FirstBlock(ct.value);
      var frame := EncodeFrame(ct.value);
      if frame.None? {
        return false;
      }
      written := written + [frame.value];
      ok := true;
    }

    /** Returns the message id, or throws. */
    method Send(name: Option<Name>, opts: SendOptions) returns (messageId: Option<int>)
      modifies this
      ensures var r := Spec.Send(cipher, old(Now()), name, opts);
              Now() == r.state && messageId == if r.ok then Some(ChosenId(old(Now()), opts)) else None
    {
      if name.None? {
        return None;
      }
      var id: int;
      if opts.messageId.None? {
        id := sendCounter % 0x1_0000;
        sendCounter := (sendCounter + 1) % 0x1_0000;
      } else {
        id := opts.messageId.value % 0x1_0000;
      }
      var plain := EncodeMessage(Build(name.value, opts, id));
      if plain.None? {
        return None;
      }
      var ok := SendPlain(plain.value);
      messageId := if ok then Some(id) else None;
    }

    /** Returns the number of the promise, or a promise that is rejected from the start. */
    method Request(name: Option<Name>, payload: Bytes, options: seq<CoapOption>, token: byte) returns (id: Option<int>)
      modifies this
      ensures Now() == Spec.Request(cipher, old(Now()), name, payload, options, token)
      ensures id == if old(status).Connected? then Some(|old(tokens)|) else None
    {
      hide Spec.Send, Set, Delete;
      if status != Connected {
        return None;
      }
      ghost var before := Now();
      var n := Track([token]);
      SendIgnoresTable(cipher, before, name, RequestOptions(payload, options, token), Outstanding());
      var messageId := Send(name, RequestOptions(payload, options, token));
      if messageId.None? {
        GiveUp(n, [token]);
      }
      id := Some(n);
    }

    /** The timer is started and the entry made under the token. */
    method Track(token: Bytes) returns (n: int)
      modifies `tokens, `timers, `pending
      ensures n == |old(tokens)|
      ensures var t := old(Outstanding());
              Now() == old(Now()).(table :=
                Table(Set(t.pending, token, n), t.timers + {n}, t.tokens + [token], t.settled))
    {
      n := |tokens|;
      tokens := tokens + [token];
      timers := timers + {n};
      pending := Set(pending, token, n);
    }

    /** Both are taken back, and the promise is rejected. */
    method GiveUp(n: int, token: Bytes)
      modifies `timers, `pending, `settled
      ensures var t := old(Outstanding());
              Now() == old(Now()).(table :=
                Table(Delete(t.pending, token), t.timers - {n}, t.tokens, t.settled + [Settle(n, SendFailed)]))
    {
      pending := Delete(pending, token);
      timers := timers - {n};
      settled := settled + [Settle(n, SendFailed)];
    }

    method OnTimer(id: int)
      modifies this
      ensures Now() == TimerFires(old(Now()), id)
    {
      if id in timers && 0 <= id < |tokens| {
        timers := timers - {id};
        pending := Delete(pending, tokens[id]);
        settled := settled + [Settle(id, TimedOut)];
      }
    }

    method Finalize()
      modifies this, queue
      ensures Now() == Spec.Finalize(old(Now()))
      ensures queue.State() == QueueAfter(old(status), status, old(queue.State()))
    {
      if status == Closed {
        return;
      }
      RejectPending();
      queue.Close();
      events := events + [CloseEvent];
    }

    /** The loop of `_finalize` over the pending requests. */
    method RejectPending()
      modifies this
      ensures Now() == old(Now()).(status := Closed, table := CloseAll(old(Outstanding())))
    {
      hide RejectAll;
      status := Closed;
      for i := 0 to |pending|
        invariant Now() == old(Now()).(status := Closed, table := Outstanding())
        invariant pending == old(pending)
        invariant RejectAll(Outstanding(), pending[i..]) == RejectAll(old(Outstanding()), old(pending))
      {
        RejectNext(Outstanding(), pending, i);
        timers := timers - {pending[i].1};
        settled := settled + [Settle(pending[i].1, SessionClosed)];
      }
      assert pending[|pending|..] == [];
      RejectNone(Outstanding());
      pending := [];
    }

    /** `_onSocketError`, the idle timeout and a failed decryption. */
    method Fail()
      modifies this, queue
      ensures Now() == Spec.Fail(old(Now()))
      ensures queue.State() == QueueAfter(old(status), status, old(queue.State()))
    {
      hide CloseAll, ByteQueues.AfterClose;
      events := events + [ErrorEvent];
      Finalize();
    }

    method Establish(k: Keys, peer: Peer)
      modifies this
      ensures Now() == Spec.Establish(old(Now()), k, peer)
    {
      TakeKeys(k);
      this.peer := Some(peer);
      status := Connected;
      events := events + [HandshakeEvent];
    }

    method TakeKeys(k: Keys)
      modifies `key, `ivIn, `ivOut, `recvCounter, `sendCounter
      ensures key == k.key && ivIn == k.ivIn && ivOut == k.ivOut
      ensures recvCounter == k.recvCounter && sendCounter == k.sendCounter
    {
      key, ivIn, ivOut, recvCounter, sendCounter := k.key, k.ivIn, k.ivOut, k.recvCounter, k.sendCounter;
    }

    method HandleFrame(ct: Bytes)
      modifies this, queue
      ensures Now() == Spec.HandleFrame(cipher, old(Now()), ct)
      ensures queue.State() == QueueAfter(old(status), status, old(queue.State()))
    {
      hide AesDecrypt, Decode, HandlePlain, Spec.Fail, ByteQueues.AfterClose;
      var plain := AesDecrypt(cipher, key, ivIn, ct);
      if plain.None? {
        Fail();
        return;
      }
      ivIn := FirstBlock(ct);
      var d := DecodeMessage(plain.value);
      HandleDecoded(d);
    }

    method HandleDecoded(d: Decoded)
      modifies this, queue
      ensures Now() == HandlePlain(cipher, old(Now()), d)
      ensures queue.State() == QueueAfter(old(status), status, old(queue.State()))
    {
      hide Encode, Classify, Spec.SendPlain, View, Delete, Get, CloseAll, Respond, ByteQueues.AfterClose;
      if d.Malformed? {
        Emit(ErrorEvent);
        return;
      }
      var m := d.msg;
      Hear(m);
      var name := Classify(m);
      if name == Some(Ping) {
        Acknowledge(m);
        return;
      }
      var mine := Resolve(m);
      if !mine {
        Emit(MessageEvent(name, d));
      }
    }

    method Emit(e: Event)
      modifies `events
      ensures Now() == old(Now()).(events := old(events) + [e])
    {
      events := events + [e];
    }

    method Hear(m: Message)
      modifies `recvCounter, `heard
      ensures Now() == old(Now()).(recvCounter := m.messageId, heard := old(heard) + [m])
    {
      recvCounter, heard := m.messageId, heard + [m];
    }

    /** Does the message answer a request?  Then that request is taken out of the table and resolved. */
    method Resolve(m: Message) returns (mine: bool)
      modifies `pending, `timers, `settled
      ensures mine == (|m.token| > 0 && Get(old(pending), m.token).Some?)
      ensures Now() == if mine then old(Now()).(table := Respond(old(Outstanding()), m.token, m)) else old(Now())
    {
      hide Delete, Get, View;
      if |m.token| == 0 {
        return false;
      }
      var found := Get(pending, m.token);
      mine := found.Some?;
      if mine {
        pending := Delete(pending, m.token);
        timers := timers - {found.value};
        settled := settled + [Settle(found.value, Answer(m))];
      }
    }

    /** The answer to a Ping; what it throws is caught by `run`. */
    method Acknowledge(m: Message)
      modifies this, queue
      ensures Now() == Spec.Acknowledge(cipher, old(Now()), m)
      ensures queue.State() == QueueAfter(old(status), status, old(queue.State()))
    {
      hide Encode, Spec.SendPlain, CloseAll, ByteQueues.AfterClose;
      SendPlainKeepsStatus(cipher, Now(), m);
      var ack := EncodeMessage(PingAck(m));
      var ok := false;
      if ack.Some? {
        ok := SendPlain(ack.value);
      }
      if !ok {
        Catch();
      }
    }

    /** The start of `run`. */
    method BeginRun()
      modifies this
      ensures Now() == Spec.BeginRun(old(Now()))
    {
      status := Handshaking;
    }

    /** The catch of `run`. */
    method Catch()
      modifies this, queue
      ensures Now() == Caught(old(Now()))
      ensures queue.State() == QueueAfter(old(status), status, old(queue.State()))
    {
      hide CloseAll, ByteQueues.AfterClose;
      if status != Closed {
        Fail();
      }
    }
  }

  lemma SendPlainKeepsStatus(c: BlockCipher, s: State, m: Message)
    ensures var ack := Encode(PingAck(m)); ack.Some? ==> Spec.SendPlain(c, s, ack.value).state.status == s.status
  {
    hide Encode, AesEncrypt, Frame;
  }

  /** One turn of the rejecting loop. */
  lemma RejectNext(t: Table, entries: Entries<Bytes, int>, i: nat)
    requires i < |entries|
    ensures var id := entries[i].1;
            var t' := t.(timers := t.timers - {id}, settled := t.settled + [Settle(id, SessionClosed)]);
            RejectAll(t, entries[i..]) == RejectAll(t', entries[i + 1..])
  {
    assert entries[i..][0] == entries[i] && entries[i..][1..] == entries[i + 1..];
  }

  /** Its end. */
  lemma RejectNone(t: Table)
    ensures RejectAll(t, []) == t
  {
  }

  lemma SendIgnoresTable(c: BlockCipher, s: State, name: Option<Name>, opts: SendOptions, t: Table)
    ensures Spec.Send(c, s.(table := t), name, opts) ==
            var r := Spec.Send(c, s, name, opts); Returned(r.state.(table := t), r.ok)
    ensures Spec.Send(c, s, name, opts).state.table == s.table
  {
    hide Encode, AesEncrypt, Frame, Build;
  }
}
