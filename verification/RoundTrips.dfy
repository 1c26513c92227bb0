/** Requests end to end: a session that sends requests and a device that answers what it reads, each answer under the
    token of what it answers (`request`, `_handleFrame` in lib/session.js over the channel between them). */
module RoundTrips {
  import opened Octets
  import opened JsMap
  import opened Chunking
  import opened Cipher
  import opened Coap
  import opened CoapLaws
  import opened Link
  import opened Stream
  import Messages
  import Requests
  import Spec = SessionSpec
  import SessionLaws
  import Gateways
  import Handshake
  import HandshakeLaws
  import Peers

  // ----- A device that answers -----

  /** An answer that can be sent, carries the token, and is no Ping. */
  predicate GoodAnswer(m: Message, a: Message) {
    Transmittable(a) && a.token == m.token && !(a.code % 256 == EMPTY && a.typ % 4 == CON)
  }

  ghost predicate Answering(answer: Message -> Message) {
    forall m: Message :: |m.token| <= 8 ==> GoodAnswer(m, answer(m))
  }

  /** The device may answer anything it has read, at any time and as often as it likes. */
  datatype Act =
    | DeviceTakes
    | DeviceAnswers(k: nat)
    | SessionTakes
    | SessionActs(input: Gateways.Outer)

  /** `link` is the channel that the moves of the world amount to, `answered` says which of the device's plaintexts
      each of its answers belongs to, and `asked` what each request was sent as, if it could be sent. */
  datatype Talk = Talk(world: Peers.World, link: Channel, answered: seq<nat>, asked: seq<Option<Bytes>>)

  function AnswerTo(answer: Message -> Message, p: Bytes): Option<Bytes> {
    if Decode(p).Malformed? then None else Encode(answer(Decode(p).msg))
  }

  function MoveOf(answer: Message -> Message, t: Talk, a: Act): Option<Peers.Move> {
    match a
    case DeviceTakes => Some(Peers.DeviceTakes)
    case SessionTakes => Some(Peers.SessionTakes)
    case SessionActs(i) => Some(Peers.SessionActs(i))
    case DeviceAnswers(k) =>
      var read := t.world.device.read;
      var p := if k < |read| then AnswerTo(answer, read[k]) else None;
      if p.None? then None else Some(Peers.DeviceSends(p.value))
  }

  function AskedBy(c: BlockCipher, s: Spec.State, a: Act): seq<Option<Bytes>> {
    if a.SessionActs? && a.input.RequestCall? && s.status.Connected? then [Says(c, s, a.input)] else []
  }

  function Next(c: BlockCipher, key: Block, answer: Message -> Message, t: Talk, a: Act): Talk {
    match MoveOf(answer, t, a)
    case None => t
    case Some(m) =>
      Talk(Peers.Next(c, key, t.world, m), RunChannel(c, key, t.link, Peers.StepsOf(c, t.world, m)),
           t.answered + (if a.DeviceAnswers? then [a.k] else []), t.asked + AskedBy(c, t.world.session, a))
  }

  function Run(c: BlockCipher, key: Block, answer: Message -> Message, t: Talk, acts: seq<Act>): Talk {
    if acts == [] then t else Next(c, key, answer, Run(c, key, answer, t, acts[..|acts| - 1]), acts[|acts| - 1])
  }

  /** The request tokens are new, other messages carry none, and what is said fits a frame. */
  predicate OrderlyStep(c: BlockCipher, s: Spec.State, a: Act) {
    a.SessionActs? ==>
      && (a.input.RequestCall? ==> [a.input.token] !in s.table.tokens)
      && (a.input.SendCall? ==> a.input.opts.token == [])
      && (Says(c, s, a.input).Some? ==> |Says(c, s, a.input).value| <= MAX_PLAIN)
  }

  predicate Orderly(c: BlockCipher, key: Block, answer: Message -> Message, t: Talk, acts: seq<Act>) {
    acts == [] ||
    var before := acts[..|acts| - 1];
    && Orderly(c, key, answer, t, before)
    && OrderlyStep(c, Run(c, key, answer, t, before).world.session, acts[|acts| - 1])
  }

  // ----- The invariant -----

  function TableOf(t: Talk): Requests.Table {
    t.world.session.table
  }

  function TokenOf(p: Bytes): Bytes {
    if Decode(p).Malformed? then [] else Decode(p).msg.token
  }

  ghost predicate InLink(c: BlockCipher, key: Block, heard: seq<Message>, t: Talk) {
    Peers.Agrees(key, heard, t.world, t.link) && Synced(c, key, t.link.up) && Synced(c, key, t.link.down)
  }

  /** Nothing is lost track of, and every request has a token of its own, of one byte. */
  ghost predicate Tracked(t: Requests.Table) {
    && Requests.Inv(t) && Requests.AllMapped(t)
    && (forall i :: 0 <= i < |t.tokens| ==> |t.tokens[i]| == 1)
    && (forall i, j :: 0 <= i < j < |t.tokens| ==> t.tokens[i] != t.tokens[j])
  }

  /** Request `i` went out as `p`. */
  predicate SentAs(t: Requests.Table, asked: seq<Option<Bytes>>, i: int, p: Bytes) {
    0 <= i < |asked| == |t.tokens| && asked[i] == Some(p) && TokenOf(p) == t.tokens[i]
  }

  /** What the session has sent are requests and messages without a token. */
  ghost predicate FromRequests(t: Requests.Table, asked: seq<Option<Bytes>>, sent: seq<Bytes>) {
    && |asked| == |t.tokens|
    && (forall i :: 0 <= i < |asked| && asked[i].Some? ==> TokenOf(asked[i].value) == t.tokens[i])
    && (forall k :: 0 <= k < |sent| ==> Sourced(t, asked, sent[k]))
  }

  ghost predicate Sourced(t: Requests.Table, asked: seq<Option<Bytes>>, p: Bytes) {
    Decode(p).Decoded? && (TokenOf(p) == [] || exists i :: SentAs(t, asked, i, p))
  }

  /** Every open request was sent. */
  ghost predicate OpenAreSent(t: Requests.Table, asked: seq<Option<Bytes>>, sent: seq<Bytes>) {
    forall i :: i in t.timers ==> 0 <= i < |asked| && asked[i].Some? && asked[i].value in sent
  }

  /** What the device has sent are answers to what it has read. */
  ghost predicate AreAnswers(answer: Message -> Message, l: Channel, answered: seq<nat>) {
    && |answered| == |l.up.sent| && |l.down.got| <= |l.down.sent|
    && forall j :: 0 <= j < |answered| ==>
         answered[j] < |l.down.got| && AnswerTo(answer, l.down.sent[answered[j]]) == Some(l.up.sent[j])
  }

  /** No open request has had an answer delivered. */
  ghost predicate OpenAreUnanswered(t: Requests.Table, l: Channel, answered: seq<nat>)
    requires |answered| == |l.up.sent| && forall j :: 0 <= j < |answered| ==> answered[j] < |l.down.sent|
  {
    forall i, j :: i in t.timers && 0 <= i < |t.tokens| && 0 <= j < |l.up.got| && j < |answered| ==>
      TokenOf(l.down.sent[answered[j]]) != t.tokens[i]
  }

  /** A request that is settled by an answer is settled by the device's answer to that request. */
  ghost predicate Right(answer: Message -> Message, asked: seq<Option<Bytes>>, x: Requests.Settle) {
    x.outcome.Answer? ==>
      && 0 <= x.id < |asked| && asked[x.id].Some? && Decode(asked[x.id].value).Decoded?
      && x.outcome.msg == Normalise(answer(Decode(asked[x.id].value).msg))
  }

  ghost predicate AllRight(answer: Message -> Message, t: Requests.Table, asked: seq<Option<Bytes>>) {
    forall x :: x in t.settled ==> Right(answer, asked, x)
  }

  ghost predicate Inv(c: BlockCipher, key: Block, heard: seq<Message>, answer: Message -> Message, t: Talk) {
    && InLink(c, key, heard, t)
    && Tracked(TableOf(t))
    && FromRequests(TableOf(t), t.asked, t.link.down.sent)
    && OpenAreSent(TableOf(t), t.asked, t.link.down.sent)
    && AreAnswers(answer, t.link, t.answered)
    && OpenAreUnanswered(TableOf(t), t.link, t.answered)
    && AllRight(answer, TableOf(t), t.asked)
  }

  // ----- The channel under each act -----

  lemma SendsInStep(c: BlockCipher, key: Block, d: Direction, p: Bytes)
    requires Synced(c, key, d) && |p| <= MAX_PLAIN
    ensures var d' := SendOn(c, key, d, p); Synced(c, key, d') && d'.sent == d.sent + [p] && d'.got == d.got
  {
    hide Synced, Roll;
    SendKeepsSyncIff(c, key, d, p);
  }

  /** The oldest frame in flight opens as the next plaintext. */
  lemma DeliversNext(c: BlockCipher, key: Block, d: Direction)
    requires Synced(c, key, d) && d.wire != []
    ensures var d' := DeliverOn(c, key, d);
            && Synced(c, key, d') && d'.sent == d.sent
            && |d.got| < |d.sent| && d'.got == d.got + [d.sent[|d.got|]]
            && AesDecrypt(c, key, d.ivR, d.wire[0]) == Some(d.sent[|d.got|])
            && |d.wire[0]| >= 16 && |d.wire[0]| % 16 == 0
  {
    hide AesDecrypt, Seal, Roll;
    DeliverKeepsSync(c, key, d);
    SealAt(c, key, d.ivR, d.sent[|d.got|..], 0);
    Seal1Opens(c, key, d.ivR, d.sent[|d.got|]);
    assert d.wire[0] == Seal1(c, key, d.ivR, d.sent[|d.got|]) by {
      assert d.wire[..0] == [];
    }
  }

  lemma SyncedPrefix(c: BlockCipher, key: Block, d: Direction)
    requires Synced(c, key, d)
    ensures d.got <= d.sent && (d.wire == [] ==> |d.got| == |d.sent|)
  {
    hide Roll, Seal1;
  }

  // ----- The device takes a frame -----

  lemma TakesLink(c: BlockCipher, key: Block, heard: seq<Message>, answer: Message -> Message, t: Talk)
    requires InLink(c, key, heard, t)
    ensures var t' := Next(c, key, answer, t, DeviceTakes);
            && InLink(c, key, heard, t')
            && t'.world.session == t.world.session && t'.answered == t.answered && t'.asked == t.asked
            && t'.link.up == t.link.up
            && t'.link.down.sent == t.link.down.sent && t.link.down.got <= t'.link.down.got <= t'.link.down.sent
  {
    hide Peers.Agrees, Synced, AesDecrypt, Roll;
    Peers.DeviceTakesStep(c, key, heard, t.world, t.link);
    Peers.OneStep(c, key, t.link, Deliver(false));
    SyncedPrefix(c, key, t.link.down);
    if t.link.down.wire != [] {
      DeliversNext(c, key, t.link.down);
      SyncedPrefix(c, key, DeliverOn(c, key, t.link.down));
    }
  }

  lemma TakesKeeps(c: BlockCipher, key: Block, heard: seq<Message>, answer: Message -> Message, t: Talk)
    requires Inv(c, key, heard, answer, t)
    ensures Inv(c, key, heard, answer, Next(c, key, answer, t, DeviceTakes))
  {
    hide InLink, Tracked, FromRequests, OpenAreSent, AllRight, AnswerTo, Next, TokenOf;
    TakesLink(c, key, heard, answer, t);
  }

  // ----- The device answers -----

  lemma AnswersLink(c: BlockCipher, key: Block, heard: seq<Message>, answer: Message -> Message, t: Talk, k: nat)
    requires InLink(c, key, heard, t) && Answering(answer)
    ensures var t', got := Next(c, key, answer, t, DeviceAnswers(k)), t.link.down.got;
            && InLink(c, key, heard, t')
            && t'.world.session == t.world.session && t'.asked == t.asked && t'.link.down == t.link.down
            && t'.link.up.got == t.link.up.got
            && if k < |got| && AnswerTo(answer, got[k]).Some? then
                 t'.answered == t.answered + [k] && t'.link.up.sent == t.link.up.sent + [AnswerTo(answer, got[k]).value]
               else t' == t
  {
    hide Synced, Seal1, Roll, AnswerTo, SendOn, Frames, HeardOf, NextChannel;
    var read := t.world.device.read;
    assert read == t.link.down.got;
    if k < |read| && AnswerTo(answer, read[k]).Some? {
      var p := AnswerTo(answer, read[k]).value;
      AnswersFit(answer, read[k]);
      Peers.DeviceSendsStep(c, key, heard, t.world, t.link, p);
      OneSend(c, key, t.link, p);
      SendsInStep(c, key, t.link.up, p);
    }
  }

  lemma OneSend(c: BlockCipher, key: Block, l: Channel, p: Bytes)
    ensures RunChannel(c, key, l, [Send(true, p)]) == l.(up := SendOn(c, key, l.up, p))
  {
    hide SendOn;
    Peers.OneStep(c, key, l, Send(true, p));
  }

  lemma AnswersFit(answer: Message -> Message, p: Bytes)
    requires Answering(answer) && AnswerTo(answer, p).Some?
    ensures |AnswerTo(answer, p).value| <= MAX_PLAIN
  {
    hide Decode, Encode;
    SessionLaws.DecodedInRange(p);
    assert GoodAnswer(Decode(p).msg, answer(Decode(p).msg));
  }

  lemma AnswersKeeps(c: BlockCipher, key: Block, heard: seq<Message>, answer: Message -> Message, t: Talk, k: nat)
    requires Inv(c, key, heard, answer, t) && Answering(answer)
    ensures Inv(c, key, heard, answer, Next(c, key, answer, t, DeviceAnswers(k)))
  {
    hide InLink, Tracked, FromRequests, OpenAreSent, AllRight, AnswerTo, Next, TokenOf, Answering;
    AnswersLink(c, key, heard, answer, t, k);
    DownPrefix(c, key, heard, t);
  }

  lemma DownPrefix(c: BlockCipher, key: Block, heard: seq<Message>, t: Talk)
    requires InLink(c, key, heard, t)
    ensures t.link.down.got <= t.link.down.sent && t.link.up.got <= t.link.up.sent
  {
    hide Synced, Peers.Agrees;
    SyncedPrefix(c, key, t.link.down);
    SyncedPrefix(c, key, t.link.up);
  }

  // ----- The table under one input -----

  lemma OnlyRequestsOpen(c: BlockCipher, s: Spec.State, i: Spec.Input)
    ensures var op := SessionLaws.TableOp(c, s, i);
            op.Some? && op.value.OpOpen? ==> i.RequestCall? && op.value.token == [i.token]
  {
    hide AesDecrypt, Decode, Encode, Messages.Classify, Spec.SendPlain, Spec.Send;
  }

  lemma NewIsFresh(t: Requests.Table, token: Bytes)
    requires token !in t.tokens
    ensures Requests.Fresh(t, token)
  {
  }

  lemma TableKeeps(c: BlockCipher, s: Spec.State, i: Spec.Input)
    requires Requests.Inv(s.table) && Requests.AllMapped(s.table)
    requires i.RequestCall? ==> [i.token] !in s.table.tokens
    ensures var t := Spec.Next(c, s, i).table; Requests.Inv(t) && Requests.AllMapped(t)
  {
    hide Spec.Next, SessionLaws.TableOp, Requests.Step, Requests.Inv, Requests.AllMapped, Requests.Fresh;
    SessionLaws.TableFollows(c, s, i);
    var op := SessionLaws.TableOp(c, s, i);
    if op.Some? {
      OnlyRequestsOpen(c, s, i);
      if i.RequestCall? {
        NewIsFresh(s.table, [i.token]);
      }
      Requests.StepKeepsInv(s.table, op.value);
      Requests.MappedIffFresh(s.table, op.value);
    }
  }

  // ----- The session takes an answer -----

  lemma AnswerIsHandled(c: BlockCipher, s: Spec.State, ct: Bytes, a: Message)
    requires Tracked(s.table) && Encode(a).Some? && !(a.code % 256 == EMPTY && a.typ % 4 == CON)
    requires AesDecrypt(c, s.key, s.ivIn, ct) == Some(Encode(a).value)
    ensures Says(c, s, Spec.FrameArrives(ct)) == None
    ensures var s' := Spec.HandleFrame(c, s, ct);
            && SessionLaws.GoesToEntry(s, s', Decoded(Normalise(a), Clean))
            && Requests.Inv(s'.table) && Requests.AllMapped(s'.table)
  {
    hide AesDecrypt, Decode, Encode, Messages.Classify, SortOptions, Spec.HandlePlain, Requests.Inv, Requests.AllMapped,
         SessionLaws.GoesToEntry;
    PrintThenParse(a);
    var d := Decoded(Normalise(a), Clean);
    SessionLaws.PingIff(d.msg);
    NoEmptyToken(s.table);
    SessionLaws.EntryStep(c, s.(ivIn := Spec.FirstBlock(ct)), d);
    SessionLaws.SameEntry(s, Spec.HandleFrame(c, s, ct), d, Spec.FirstBlock(ct));
    TableKeeps(c, s, Spec.FrameArrives(ct));
    Gateways.HandlesAsInput(c, s, ct);
  }

  lemma NoEmptyToken(t: Requests.Table)
    requires Tracked(t)
    ensures [] !in t.tokens
  {
  }

  lemma SessionTakesLink(c: BlockCipher, key: Block, heard: seq<Message>, answer: Message -> Message, t: Talk)
    requires InLink(c, key, heard, t) && t.link.up.wire != []
    requires Says(c, t.world.session, Spec.FrameArrives(t.link.up.wire[0])) == None
    ensures var t', up := Next(c, key, answer, t, SessionTakes), t.link.up;
            && InLink(c, key, heard, t')
            && t'.world.session == Spec.HandleFrame(c, t.world.session, up.wire[0])
            && t'.answered == t.answered && t'.asked == t.asked && t'.link.down == t.link.down
            && |up.got| < |up.sent| && t'.link.up.sent == up.sent && t'.link.up.got == up.got + [up.sent[|up.got|]]
            && AesDecrypt(c, key, t.world.session.ivIn, up.wire[0]) == Some(up.sent[|up.got|])
            && t.world.session.key == key
  {
    hide Synced, AesDecrypt, Roll, Says, DeliverOn, Spec.HandleFrame, Frames, HeardOf;
    Peers.SessionTakesStep(c, key, heard, t.world, t.link);
    Peers.OneStep(c, key, t.link, Deliver(true));
    assert [Deliver(true)] + [] == [Deliver(true)];
    DeliversNext(c, key, t.link.up);
  }

  lemma NothingToTake(c: BlockCipher, key: Block, answer: Message -> Message, t: Talk)
    requires t.world.up == []
    ensures Next(c, key, answer, t, SessionTakes) == t
  {
    Peers.NoSteps(c, key, t.link);
  }

  /** The answer to what request `id` was sent as is an answer to no other request. */
  lemma AnswerBelongs(t: Requests.Table, asked: seq<Option<Bytes>>, sent: seq<Bytes>, p: Bytes, id: int)
    requires Tracked(t) && FromRequests(t, asked, sent) && p in sent
    requires 0 <= id < |t.tokens| && TokenOf(p) == t.tokens[id]
    ensures asked[id] == Some(p) && Decode(p).Decoded?
  {
    hide TokenOf, Requests.Inv, Requests.AllMapped;
    var k :| 0 <= k < |sent| && sent[k] == p;
    assert Sourced(t, asked, sent[k]);
    var i :| SentAs(t, asked, i, p);
  }

  /** A table with the same requests, of which no more are open. */
  ghost predicate NoMoreOpen(t: Requests.Table, t': Requests.Table) {
    t'.tokens == t.tokens && t'.timers <= t.timers
  }

  lemma TrackedStays(t: Requests.Table, t': Requests.Table)
    requires Tracked(t) && NoMoreOpen(t, t') && Requests.Inv(t') && Requests.AllMapped(t')
    ensures Tracked(t')
  {
    hide Requests.Inv, Requests.AllMapped;
  }

  lemma SentStays(t: Requests.Table, t': Requests.Table, asked: seq<Option<Bytes>>, sent: seq<Bytes>)
    requires NoMoreOpen(t, t') && FromRequests(t, asked, sent) && OpenAreSent(t, asked, sent)
    ensures FromRequests(t', asked, sent) && OpenAreSent(t', asked, sent)
  {
    hide TokenOf, Decode;
    forall k | 0 <= k < |sent| ensures Sourced(t', asked, sent[k]) {
      assert Sourced(t, asked, sent[k]);
      if TokenOf(sent[k]) != [] {
        var i :| SentAs(t, asked, i, sent[k]);
        assert SentAs(t', asked, i, sent[k]);
      }
    }
  }

  /** One more answer is delivered, to nobody who is still open. */
  lemma OneMoreAnswered(t: Requests.Table, t': Requests.Table, l: Channel, l': Channel, answered: seq<nat>)
    requires |answered| == |l.up.sent| && forall j :: 0 <= j < |answered| ==> answered[j] < |l.down.sent|
    requires OpenAreUnanswered(t, l, answered) && NoMoreOpen(t, t')
    requires |l.up.got| < |l.up.sent| && l'.down == l.down && l'.up.sent == l.up.sent
    requires l'.up.got == l.up.got + [l.up.sent[|l.up.got|]]
    requires var p := l.down.sent[answered[|l.up.got|]];
             forall i :: i in t'.timers && 0 <= i < |t'.tokens| ==> TokenOf(p) != t'.tokens[i]
    ensures OpenAreUnanswered(t', l', answered)
  {
    hide TokenOf;
  }

  lemma OneMoreRight(answer: Message -> Message, t: Requests.Table, t': Requests.Table, asked: seq<Option<Bytes>>,
                     x: Requests.Settle)
    requires AllRight(answer, t, asked) && t'.settled == t.settled + [x] && Right(answer, asked, x)
    ensures AllRight(answer, t', asked)
  {
    hide Right;
    forall y | y in t'.settled ensures Right(answer, asked, y) {
      assert y in t.settled || y == x;
    }
  }

  /** Nobody is settled: no open request has the token. */
  lemma NobodyIsOpen(s: Spec.State, s': Spec.State, d: Decoded)
    requires Tracked(s.table) && d.Decoded? && SessionLaws.GoesToEntry(s, s', d)
    requires d.msg.token !in View(s.table.pending)
    ensures s'.table == s.table
    ensures forall i :: i in s.table.timers && 0 <= i < |s.table.tokens| ==> d.msg.token != s.table.tokens[i]
  {
    hide Requests.Inv, Messages.Classify;
    forall i | i in s.table.timers && 0 <= i < |s.table.tokens| ensures d.msg.token != s.table.tokens[i] {
      assert Requests.Found(s.table, i);
    }
  }

  /** One is: the request with this token, and no other has it. */
  lemma OneIsSettled(s: Spec.State, s': Spec.State, d: Decoded) returns (id: int)
    requires Tracked(s.table) && d.Decoded? && SessionLaws.GoesToEntry(s, s', d) && d.msg.token in View(s.table.pending)
    ensures 0 <= id < |s.table.tokens| && s.table.tokens[id] == d.msg.token
    ensures NoMoreOpen(s.table, s'.table)
    ensures s'.table.settled == s.table.settled + [Requests.Settle(id, Requests.Answer(d.msg))]
    ensures forall i :: i in s'.table.timers && 0 <= i < |s'.table.tokens| ==> d.msg.token != s'.table.tokens[i]
  {
    hide Requests.Inv, Requests.AllMapped, Messages.Classify;
    id := View(s.table.pending)[d.msg.token];
  }

  /** Whatever the answer does to the table, it does to its own request, and what held goes on holding. */
  lemma AnswerSettles(answer: Message -> Message, s: Spec.State, s': Spec.State, l: Channel, l': Channel,
                      answered: seq<nat>, asked: seq<Option<Bytes>>, d: Decoded)
    requires Tracked(s.table) && Requests.Inv(s'.table) && Requests.AllMapped(s'.table)
    requires FromRequests(s.table, asked, l.down.sent) && OpenAreSent(s.table, asked, l.down.sent)
    requires AreAnswers(answer, l, answered) && OpenAreUnanswered(s.table, l, answered)
    requires AllRight(answer, s.table, asked) && Answering(answer)
    requires |l.up.got| < |l.up.sent| && l'.down == l.down && l'.up.sent == l.up.sent
    requires l'.up.got == l.up.got + [l.up.sent[|l.up.got|]]
    requires var p := l.down.sent[answered[|l.up.got|]];
             Decode(p).Decoded? && d == Decoded(Normalise(answer(Decode(p).msg)), Clean)
    requires SessionLaws.GoesToEntry(s, s', d)
    ensures Tracked(s'.table) && AllRight(answer, s'.table, asked)
    ensures FromRequests(s'.table, asked, l'.down.sent) && OpenAreSent(s'.table, asked, l'.down.sent)
    ensures OpenAreUnanswered(s'.table, l', answered)
  {
    hide AnswerTo, TokenOf, Normalise, Decode, Requests.Inv, Requests.AllMapped, SessionLaws.GoesToEntry, Tracked,
         FromRequests, OpenAreSent, OpenAreUnanswered, AllRight;
    var p := l.down.sent[answered[|l.up.got|]];
    TokenIsAnswered(answer, p);
    if d.msg.token in View(s.table.pending) {
      var id := OneIsSettled(s, s', d);
      AnswerBelongs(s.table, asked, l.down.sent, p, id);
      HasLength(s.table, asked, l.down.sent);
      OneMoreRight(answer, s.table, s'.table, asked, Requests.Settle(id, Requests.Answer(d.msg)));
    } else {
      NobodyIsOpen(s, s', d);
    }
    TrackedStays(s.table, s'.table);
    SentStays(s.table, s'.table, asked, l.down.sent);
    OneMoreAnswered(s.table, s'.table, l, l', answered);
  }

  lemma HasLength(t: Requests.Table, asked: seq<Option<Bytes>>, sent: seq<Bytes>)
    requires FromRequests(t, asked, sent)
    ensures |asked| == |t.tokens|
  {
  }

  lemma TokenIsAnswered(answer: Message -> Message, p: Bytes)
    requires Answering(answer) && Decode(p).Decoded?
    ensures TokenOf(p) == Normalise(answer(Decode(p).msg)).token
    ensures GoodAnswer(Decode(p).msg, answer(Decode(p).msg))
  {
    hide Decode, SortOptions, Transmittable;
    SessionLaws.DecodedInRange(p);
    assert GoodAnswer(Decode(p).msg, answer(Decode(p).msg));
  }

  lemma SessionTakesKeeps(c: BlockCipher, key: Block, heard: seq<Message>, answer: Message -> Message, t: Talk)
    requires Inv(c, key, heard, answer, t) && Answering(answer)
    ensures Inv(c, key, heard, answer, Next(c, key, answer, t, SessionTakes))
  {
    hide Tracked, FromRequests, OpenAreSent, AllRight, OpenAreUnanswered, Next, TokenOf, Answering, Decode, Encode,
         Says, SessionLaws.GoesToEntry, Spec.HandleFrame, AesDecrypt, Normalise;
    if t.link.up.wire == [] {
      NothingToTake(c, key, answer, t);
    } else {
      var up, j := t.link.up, |t.link.up.got|;
      DeliversNext(c, key, up);
      var p := t.link.down.sent[t.answered[j]];
      var a := answer(Decode(p).msg);
      TokenIsAnswered(answer, p);
      AnswerIsHandled(c, t.world.session, up.wire[0], a);
      SessionTakesLink(c, key, heard, answer, t);
      var t' := Next(c, key, answer, t, SessionTakes);
      AnswerSettles(answer, t.world.session, t'.world.session, t.link, t'.link, t.answered, t.asked,
                    Decoded(Normalise(a), Clean));
    }
  }

  // ----- The session acts -----

  lemma ActsLink(c: BlockCipher, key: Block, heard: seq<Message>, answer: Message -> Message, t: Talk,
                 i: Gateways.Outer)
    requires InLink(c, key, heard, t)
    requires var p := Says(c, t.world.session, i); p.Some? ==> |p.value| <= MAX_PLAIN
    ensures var t', p := Next(c, key, answer, t, SessionActs(i)), Says(c, t.world.session, i);
            && InLink(c, key, heard, t')
            && t'.world.session == Spec.Next(c, t.world.session, i)
            && t'.answered == t.answered && t'.asked == t.asked + AskedBy(c, t.world.session, SessionActs(i))
            && t'.link.up == t.link.up && t'.link.down.got == t.link.down.got
            && t'.link.down.sent == t.link.down.sent + if p.Some? then [p.value] else []
  {
    hide Synced, Says, Spec.Next, SendOn, Frames, HeardOf, Peers.Agrees;
    var p := Says(c, t.world.session, i);
    Peers.SessionActsStep(c, key, heard, t.world, t.link, i);
    Peers.RunSpeech(c, key, t.link, p);
    if p.Some? {
      SendsInStep(c, key, t.link.down, p.value);
    } else {
      assert t.link.down.sent + [] == t.link.down.sent;
    }
  }

  lemma SaidToken(c: BlockCipher, s: Spec.State, i: Spec.Input)
    requires (i.RequestCall? || i.SendCall?) && Says(c, s, i).Some?
    ensures Decode(Says(c, s, i).value).Decoded?
    ensures TokenOf(Says(c, s, i).value) == if i.RequestCall? then [i.token] else i.opts.token
  {
    hide Encode, Decode, Messages.SpecOf, SortOptions;
    var name, opts :=
      if i.RequestCall? then i.request else i.name,
      if i.RequestCall? then Spec.RequestOptions(i.payload, i.options, i.token) else i.opts;
    PrintThenParse(Messages.Build(name.value, opts, Spec.ChosenId(s, opts)));
  }

  /** A request is opened; it is sent if it can be built and printed. */
  lemma RequestOpens(c: BlockCipher, s: Spec.State, i: Spec.Input)
    requires i.RequestCall? && s.status.Connected? && |s.key| == 16 && |s.ivOut| == 16
    requires Says(c, s, i).Some? ==> |Says(c, s, i).value| <= MAX_PLAIN
    ensures Spec.Next(c, s, i).table == Requests.Open(s.table, [i.token], Says(c, s, i).Some?)
  {
    hide Encode, Messages.Build, Spec.SendPlain, Requests.Open;
    var opts := Spec.RequestOptions(i.payload, i.options, i.token);
    if Says(c, s, i).Some? {
      SessionLaws.ShortIsSent(c, Spec.Counted(s, opts), Says(c, s, i).value);
    }
  }

  /** One more request, with a token nobody had. */
  lemma RequestTracked(t: Requests.Table, token: byte, sent: bool)
    requires Tracked(t) && [token] !in t.tokens
    requires var t' := Requests.Open(t, [token], sent); Requests.Inv(t') && Requests.AllMapped(t')
    ensures Tracked(Requests.Open(t, [token], sent))
  {
    hide Requests.Inv, Requests.AllMapped, Set, Delete;
    var t' := Requests.Open(t, [token], sent);
    forall i | 0 <= i < |t.tokens| ensures t'.tokens[i] != [token] {
      assert t.tokens[i] in t.tokens;
    }
  }

  lemma RequestSent(t: Requests.Table, asked: seq<Option<Bytes>>, sent: seq<Bytes>, token: byte, p: Option<Bytes>)
    requires Requests.Inv(t) && FromRequests(t, asked, sent) && OpenAreSent(t, asked, sent)
    requires p.Some? ==> Decode(p.value).Decoded? && TokenOf(p.value) == [token]
    ensures var t' := Requests.Open(t, [token], p.Some?);
            var sent' := sent + if p.Some? then [p.value] else [];
            FromRequests(t', asked + [p], sent') && OpenAreSent(t', asked + [p], sent')
  {
    hide TokenOf, Decode, Requests.Leads, Distinct, Set, Delete;
    var t' := Requests.Open(t, [token], p.Some?);
    var sent', asked' := sent + (if p.Some? then [p.value] else []), asked + [p];
    forall k | 0 <= k < |sent'| ensures Sourced(t', asked', sent'[k]) {
      if k < |sent| {
        assert Sourced(t, asked, sent[k]);
        if TokenOf(sent[k]) != [] {
          var i :| SentAs(t, asked, i, sent[k]);
          assert SentAs(t', asked', i, sent[k]);
        }
      } else {
        assert SentAs(t', asked', |asked|, p.value);
      }
    }
    forall i | i in t'.timers ensures 0 <= i < |asked'| && asked'[i].Some? && asked'[i].value in sent' {
      if i in t.timers {
        assert asked[i].value in sent;
      } else {
        assert i == |t.tokens|;
      }
    }
  }

  /** The new request has not been answered: answers that were delivered carry older tokens, or none. */
  lemma RequestUnanswered(t: Requests.Table, l: Channel, l': Channel, answered: seq<nat>, asked: seq<Option<Bytes>>,
                          token: byte, p: Option<Bytes>)
    requires Requests.Inv(t) && FromRequests(t, asked, l.down.sent) && [token] !in t.tokens
    requires |answered| == |l.up.sent| && forall j :: 0 <= j < |answered| ==> answered[j] < |l.down.sent|
    requires OpenAreUnanswered(t, l, answered)
    requires l'.up == l.up && l.down.sent <= l'.down.sent
    ensures OpenAreUnanswered(Requests.Open(t, [token], p.Some?), l', answered)
  {
    hide TokenOf, Decode, Requests.Inv, Set, Delete;
    var t' := Requests.Open(t, [token], p.Some?);
    forall i, j | i in t'.timers && 0 <= i < |t'.tokens| && 0 <= j < |l'.up.got| && j < |answered|
      ensures TokenOf(l'.down.sent[answered[j]]) != t'.tokens[i]
    {
      var q := l.down.sent[answered[j]];
      if i < |t.tokens| {
        assert i in t.timers;
      } else {
        assert Sourced(t, asked, q);
        if TokenOf(q) != [] {
          var k :| SentAs(t, asked, k, q);
          assert t.tokens[k] in t.tokens;
        }
      }
    }
  }

  lemma AnswersStay(answer: Message -> Message, l: Channel, l': Channel, answered: seq<nat>)
    requires AreAnswers(answer, l, answered)
    requires l'.up == l.up && l'.down.got == l.down.got && l.down.sent <= l'.down.sent
    ensures AreAnswers(answer, l', answered)
  {
    hide AnswerTo;
  }

  lemma MoreAsked(answer: Message -> Message, t: Requests.Table, t': Requests.Table, asked: seq<Option<Bytes>>,
                  more: seq<Option<Bytes>>)
    requires AllRight(answer, t, asked) && t.settled <= t'.settled
    requires forall k :: |t.settled| <= k < |t'.settled| ==> !t'.settled[k].outcome.Answer?
    ensures AllRight(answer, t', asked + more)
  {
    hide Normalise, Decode;
    forall x | x in t'.settled ensures Right(answer, asked + more, x) {
      if x.outcome.Answer? {
        var k :| 0 <= k < |t'.settled| && t'.settled[k] == x;
        assert x in t.settled;
        assert Right(answer, asked, x);
      }
    }
  }

  lemma RequestKeeps(c: BlockCipher, key: Block, heard: seq<Message>, answer: Message -> Message, t: Talk,
                     i: Gateways.Outer)
    requires Inv(c, key, heard, answer, t) && OrderlyStep(c, t.world.session, SessionActs(i))
    requires i.RequestCall? && t.world.session.status.Connected?
    ensures Inv(c, key, heard, answer, Next(c, key, answer, t, SessionActs(i)))
  {
    hide InLink, Tracked, FromRequests, OpenAreSent, AllRight, OpenAreUnanswered, AreAnswers, Next, Says, Spec.Next,
         TokenOf, Decode, Requests.Inv, Requests.AllMapped;
    var s, l, p := t.world.session, t.link, Says(c, t.world.session, i);
    ActsLink(c, key, heard, answer, t, i);
    LinkKeys(c, key, heard, t);
    RequestOpens(c, s, i);
    TrackedIs(s.table);
    TableKeeps(c, s, i);
    RequestTracked(s.table, i.token, p.Some?);
    if p.Some? {
      SaidToken(c, s, i);
    }
    var l' := Next(c, key, answer, t, SessionActs(i)).link;
    assert l.down.sent <= l'.down.sent;
    RequestSent(s.table, t.asked, l.down.sent, i.token, p);
    AnswersAre(answer, l, t.answered);
    RequestUnanswered(s.table, l, l', t.answered, t.asked, i.token, p);
    AnswersStay(answer, l, l', t.answered);
    MoreAsked(answer, s.table, Requests.Open(s.table, [i.token], p.Some?), t.asked, [p]);
  }

  lemma LinkKeys(c: BlockCipher, key: Block, heard: seq<Message>, t: Talk)
    requires InLink(c, key, heard, t)
    ensures |t.world.session.key| == 16 && |t.world.session.ivOut| == 16
  {
    hide Synced;
  }

  lemma TrackedIs(t: Requests.Table)
    requires Tracked(t)
    ensures Requests.Inv(t) && Requests.AllMapped(t)
  {
  }

  lemma AnswersAre(answer: Message -> Message, l: Channel, answered: seq<nat>)
    requires AreAnswers(answer, l, answered)
    ensures |answered| == |l.up.sent| && forall j :: 0 <= j < |answered| ==> answered[j] < |l.down.sent|
  {
    hide AnswerTo;
  }

  /** Anything else but a request opens none and settles none by an answer. */
  lemma QuietTable(c: BlockCipher, s: Spec.State, i: Gateways.Outer)
    requires Requests.Inv(s.table) && !(i.RequestCall? && s.status.Connected?)
    ensures var t, t' := s.table, Spec.Next(c, s, i).table;
            && NoMoreOpen(t, t') && t.settled <= t'.settled
            && forall k :: |t.settled| <= k < |t'.settled| ==> !t'.settled[k].outcome.Answer?
  {
    hide Spec.Send, Delete, Requests.Inv;
    var t := s.table;
    match i {
      case SendCall(name, opts) => SessionLaws.SendKeeps(c, s, name, opts);
      case TimerGoesOff(id) =>
      case SocketError => ClosedTable(t);
      case Disconnect => ClosedTable(t);
      case _ =>
    }
  }

  lemma ClosedTable(t: Requests.Table)
    requires Requests.Inv(t)
    ensures var t' := Requests.CloseAll(t);
            && NoMoreOpen(t, t') && t.settled <= t'.settled
            && forall k :: |t.settled| <= k < |t'.settled| ==> !t'.settled[k].outcome.Answer?
  {
    hide Requests.Inv, Requests.Rejections;
    Requests.ClosingKeeps(t);
    Requests.RejectAllSettles(t, t.pending);
    Requests.RejectAllKeepsTokens(t, t.pending);
    assert forall id :: id in Requests.CloseAll(t).timers ==> id in t.timers;
  }

  /** What else is said carries no token. */
  lemma QuietWords(c: BlockCipher, s: Spec.State, i: Gateways.Outer)
    requires OrderlyStep(c, s, SessionActs(i)) && !(i.RequestCall? && s.status.Connected?)
    ensures var p := Says(c, s, i); p.Some? ==> Decode(p.value).Decoded? && TokenOf(p.value) == []
  {
    hide TokenOf, Decode, Encode, Messages.Build;
    if i.SendCall? && Says(c, s, i).Some? {
      SaidToken(c, s, i);
    }
  }

  lemma QuietSent(t: Requests.Table, asked: seq<Option<Bytes>>, sent: seq<Bytes>, p: Option<Bytes>)
    requires FromRequests(t, asked, sent) && OpenAreSent(t, asked, sent)
    requires p.Some? ==> Decode(p.value).Decoded? && TokenOf(p.value) == []
    ensures var sent' := sent + if p.Some? then [p.value] else [];
            FromRequests(t, asked, sent') && OpenAreSent(t, asked, sent')
  {
    hide TokenOf, Decode;
    var sent' := sent + if p.Some? then [p.value] else [];
    forall k | 0 <= k < |sent'| ensures Sourced(t, asked, sent'[k]) {
      assert k < |sent| ==> Sourced(t, asked, sent[k]);
    }
  }

  lemma QuietUnanswered(t: Requests.Table, t': Requests.Table, l: Channel, l': Channel, answered: seq<nat>)
    requires |answered| == |l.up.sent| && forall j :: 0 <= j < |answered| ==> answered[j] < |l.down.sent|
    requires OpenAreUnanswered(t, l, answered) && NoMoreOpen(t, t')
    requires l'.up == l.up && l.down.sent <= l'.down.sent
    ensures OpenAreUnanswered(t', l', answered)
  {
    hide TokenOf;
  }

  lemma QuietKeeps(c: BlockCipher, key: Block, heard: seq<Message>, answer: Message -> Message, t: Talk,
                   i: Gateways.Outer)
    requires Inv(c, key, heard, answer, t) && OrderlyStep(c, t.world.session, SessionActs(i))
    requires !(i.RequestCall? && t.world.session.status.Connected?)
    ensures Inv(c, key, heard, answer, Next(c, key, answer, t, SessionActs(i)))
  {
    hide InLink, Tracked, FromRequests, OpenAreSent, AllRight, OpenAreUnanswered, AreAnswers, Next, Says, Spec.Next,
         TokenOf, Decode, Requests.Inv, Requests.AllMapped, NoMoreOpen;
    var s, l, p := t.world.session, t.link, Says(c, t.world.session, i);
    var s' := Spec.Next(c, s, i);
    ActsLink(c, key, heard, answer, t, i);
    TrackedIs(s.table);
    TableKeeps(c, s, i);
    QuietTable(c, s, i);
    QuietWords(c, s, i);
    TrackedStays(s.table, s'.table);
    SentStays(s.table, s'.table, t.asked, l.down.sent);
    QuietSent(s'.table, t.asked, l.down.sent, p);
    var l' := Next(c, key, answer, t, SessionActs(i)).link;
    assert l.down.sent <= l'.down.sent;
    AnswersAre(answer, l, t.answered);
    QuietUnanswered(s.table, s'.table, l, l', t.answered);
    AnswersStay(answer, l, l', t.answered);
    MoreAsked(answer, s.table, s'.table, t.asked, []);
    assert t.asked + [] == t.asked;
  }

  // ----- Over every run -----

  lemma ActKeeps(c: BlockCipher, key: Block, heard: seq<Message>, answer: Message -> Message, t: Talk, a: Act)
    requires Inv(c, key, heard, answer, t) && Answering(answer) && OrderlyStep(c, t.world.session, a)
    ensures Inv(c, key, heard, answer, Next(c, key, answer, t, a))
  {
    hide Inv, Next, OrderlyStep, Answering;
    match a {
      case DeviceTakes => TakesKeeps(c, key, heard, answer, t);
      case DeviceAnswers(k) => AnswersKeeps(c, key, heard, answer, t, k);
      case SessionTakes => SessionTakesKeeps(c, key, heard, answer, t);
      case SessionActs(i) =>
        if i.RequestCall? && t.world.session.status.Connected? {
          RequestKeeps(c, key, heard, answer, t, i);
        } else {
          QuietKeeps(c, key, heard, answer, t, i);
        }
    }
  }

  lemma {:induction false} TalkKeeps(
      c: BlockCipher, key: Block, heard: seq<Message>, answer: Message -> Message, t: Talk, acts: seq<Act>)
    requires Inv(c, key, heard, answer, t) && Answering(answer) && Orderly(c, key, answer, t, acts)
    ensures Inv(c, key, heard, answer, Run(c, key, answer, t, acts))
  {
    hide Inv, Next, OrderlyStep, Answering;
    if acts != [] {
      TalkKeeps(c, key, heard, answer, t, acts[..|acts| - 1]);
      ActKeeps(c, key, heard, answer, Run(c, key, answer, t, acts[..|acts| - 1]), acts[|acts| - 1]);
    }
  }

  // ----- Undisturbed runs -----

  /** No timer fires, no error comes up and nobody disconnects. */
  predicate Undisturbed(acts: seq<Act>) {
    forall a :: a in acts && a.SessionActs? ==> a.input.SendCall? || a.input.RequestCall?
  }

  /** Settled by an answer, or never sent. */
  predicate Served(asked: seq<Option<Bytes>>, x: Requests.Settle) {
    x.outcome.Answer? || (x.outcome.SendFailed? && 0 <= x.id < |asked| && asked[x.id].None?)
  }

  ghost predicate AllServed(t: Talk) {
    forall x :: x in TableOf(t).settled ==> Served(t.asked, x)
  }

  lemma StillServed(t: Talk, t': Talk, more: seq<Option<Bytes>>, x: seq<Requests.Settle>)
    requires AllServed(t) && t'.asked == t.asked + more && TableOf(t').settled == TableOf(t).settled + x
    requires forall y :: y in x ==> Served(t'.asked, y)
    ensures AllServed(t')
  {
    forall y | y in TableOf(t').settled ensures Served(t'.asked, y) {
      assert y in TableOf(t).settled ==> Served(t.asked, y);
    }
  }

  lemma TakesServes(c: BlockCipher, key: Block, heard: seq<Message>, answer: Message -> Message, t: Talk)
    requires Inv(c, key, heard, answer, t) && Answering(answer) && AllServed(t)
    ensures AllServed(Next(c, key, answer, t, SessionTakes))
  {
    hide Tracked, FromRequests, OpenAreSent, AllRight, OpenAreUnanswered, Next, TokenOf, Answering, Decode, Encode,
         Says, Spec.HandleFrame, AesDecrypt, Normalise, AllServed, Synced, SessionLaws.GoesToEntry;
    if t.link.up.wire == [] {
      NothingToTake(c, key, answer, t);
    } else {
      DeliversNext(c, key, t.link.up);
      var p := t.link.down.sent[t.answered[|t.link.up.got|]];
      var a := answer(Decode(p).msg);
      TokenIsAnswered(answer, p);
      AnswerIsHandled(c, t.world.session, t.link.up.wire[0], a);
      SessionTakesLink(c, key, heard, answer, t);
      var t' := Next(c, key, answer, t, SessionTakes);
      assert t.asked + [] == t.asked && TableOf(t).settled + [] == TableOf(t).settled;
      var s, s', d := t.world.session, t'.world.session, Decoded(Normalise(a), Clean);
      if d.msg.token in View(s.table.pending) {
        var id := OneIsSettled(s, s', d);
        StillServed(t, t', [], [Requests.Settle(id, Requests.Answer(d.msg))]);
      } else {
        NobodyIsOpen(s, s', d);
        StillServed(t, t', [], []);
      }
    }
  }

  lemma ActsServes(c: BlockCipher, key: Block, heard: seq<Message>, answer: Message -> Message, t: Talk,
                   i: Gateways.Outer)
    requires Inv(c, key, heard, answer, t) && OrderlyStep(c, t.world.session, SessionActs(i)) && AllServed(t)
    requires i.SendCall? || i.RequestCall?
    ensures AllServed(Next(c, key, answer, t, SessionActs(i)))
  {
    hide InLink, Tracked, FromRequests, OpenAreSent, AllRight, OpenAreUnanswered, AreAnswers, Next, Says, Spec.Next,
         TokenOf, Decode, AllServed, Set, Delete;
    var s, t' := t.world.session, Next(c, key, answer, t, SessionActs(i));
    ActsLink(c, key, heard, answer, t, i);
    LinkKeys(c, key, heard, t);
    HasLength(s.table, t.asked, t.link.down.sent);
    assert t.asked + [] == t.asked && s.table.settled + [] == s.table.settled;
    if i.RequestCall? && s.status.Connected? {
      RequestOpens(c, s, i);
      var p, n := Says(c, s, i), |s.table.tokens|;
      if p.Some? {
        StillServed(t, t', [p], []);
      } else {
        StillServed(t, t', [p], [Requests.Settle(n, Requests.SendFailed)]);
      }
    } else {
      SendsLeaveTable(c, s, i);
      StillServed(t, t', [], []);
    }
  }

  lemma SendsLeaveTable(c: BlockCipher, s: Spec.State, i: Spec.Input)
    requires i.SendCall? || (i.RequestCall? && !s.status.Connected?)
    ensures Spec.Next(c, s, i).table == s.table
  {
    hide Spec.Send;
    if i.SendCall? {
      SessionLaws.SendKeeps(c, s, i.name, i.opts);
    }
  }

  lemma {:induction false} UndisturbedServes(
      c: BlockCipher, key: Block, heard: seq<Message>, answer: Message -> Message, t: Talk, acts: seq<Act>)
    requires Inv(c, key, heard, answer, t) && Answering(answer) && Orderly(c, key, answer, t, acts)
    requires AllServed(t) && Undisturbed(acts)
    ensures AllServed(Run(c, key, answer, t, acts))
  {
    hide Inv, Next, OrderlyStep, Answering, AllServed;
    if acts != [] {
      var before, a := acts[..|acts| - 1], acts[|acts| - 1];
      UndisturbedServes(c, key, heard, answer, t, before);
      TalkKeeps(c, key, heard, answer, t, before);
      var t1 := Run(c, key, answer, t, before);
      match a {
        case DeviceTakes => DeviceServes(c, key, heard, answer, t1, a);
        case DeviceAnswers(_) => DeviceServes(c, key, heard, answer, t1, a);
        case SessionTakes => TakesServes(c, key, heard, answer, t1);
        case SessionActs(i) =>
          assert a in acts;
          ActsServes(c, key, heard, answer, t1, i);
      }
    }
  }

  lemma DeviceServes(c: BlockCipher, key: Block, heard: seq<Message>, answer: Message -> Message, t: Talk, a: Act)
    requires Inv(c, key, heard, answer, t) && Answering(answer) && AllServed(t) && (a.DeviceTakes? || a.DeviceAnswers?)
    ensures AllServed(Next(c, key, answer, t, a))
  {
    hide InLink, Tracked, FromRequests, OpenAreSent, AllRight, OpenAreUnanswered, AreAnswers, Next, AnswerTo, Answering;
    if a.DeviceTakes? {
      TakesLink(c, key, heard, answer, t);
    } else {
      AnswersLink(c, key, heard, answer, t, a.k);
    }
  }

  // ----- The theorem -----

  /** Nothing has been asked yet, and what is on its way to the device, if anything, carries no token. */
  ghost predicate Starts(c: BlockCipher, key: Block, heard: seq<Message>, t: Talk) {
    && InLink(c, key, heard, t)
    && TableOf(t) == Requests.EMPTY_TABLE && t.asked == [] && t.answered == []
    && t.link.up.sent == [] && t.link.up.got == []
    && forall k :: 0 <= k < |t.link.down.sent| ==> Quiet(t.link.down.sent[k])
  }

  predicate Quiet(p: Bytes) {
    Decode(p).Decoded? && TokenOf(p) == []
  }

  lemma StartsWithInv(c: BlockCipher, key: Block, heard: seq<Message>, answer: Message -> Message, t: Talk)
    requires Starts(c, key, heard, t)
    ensures Inv(c, key, heard, answer, t) && AllServed(t)
  {
    hide TokenOf, Decode, AnswerTo, InLink;
    DownPrefix(c, key, heard, t);
    Requests.SettledAtMostOnce([]);
    Requests.RunNothing();
    forall k | 0 <= k < |t.link.down.sent| ensures Sourced(TableOf(t), t.asked, t.link.down.sent[k]) {
      assert Quiet(t.link.down.sent[k]);
    }
  }

  /** Both wires are empty, and the device has answered everything it has read. */
  ghost predicate AllAnswered(t: Talk) {
    && t.world.up == [] && t.world.down == []
    && forall k: nat :: k < |t.world.device.read| ==> k in t.answered
  }

  /** Then what the session has sent was answered, and no open request has its token. */
  lemma NoOpenToken(c: BlockCipher, key: Block, heard: seq<Message>, answer: Message -> Message, t: Talk, p: Bytes)
    requires Inv(c, key, heard, answer, t) && AllAnswered(t) && p in t.link.down.sent
    ensures forall i :: i in TableOf(t).timers && 0 <= i < |TableOf(t).tokens| ==> TokenOf(p) != TableOf(t).tokens[i]
  {
    hide TokenOf, AnswerTo, Synced, Tracked, FromRequests, OpenAreSent, AllRight;
    var l := t.link;
    SyncedPrefix(c, key, l.up);
    SyncedPrefix(c, key, l.down);
    var k :| 0 <= k < |l.down.sent| && l.down.sent[k] == p;
    assert k in t.answered;
  }

  /** So no request is open. */
  lemma NoneIsOpen(c: BlockCipher, key: Block, heard: seq<Message>, answer: Message -> Message, t: Talk)
    requires Inv(c, key, heard, answer, t) && AllAnswered(t)
    ensures TableOf(t).timers == {}
  {
    hide TokenOf, InLink, Tracked, AreAnswers, OpenAreUnanswered, AllRight, AllAnswered;
    forall i ensures i !in TableOf(t).timers {
      if 0 <= i < |t.asked| && t.asked[i].Some? && t.asked[i].value in t.link.down.sent {
        NoOpenToken(c, key, heard, answer, t, t.asked[i].value);
      }
    }
  }

  /** Request number `i` was settled with the device's answer to what it was sent as. */
  ghost predicate GotItsAnswer(answer: Message -> Message, t: Talk, i: int) {
    && 0 <= i < |t.asked| && t.asked[i].Some? && Decode(t.asked[i].value).Decoded?
    && Requests.Settle(i, Requests.Answer(Normalise(answer(Decode(t.asked[i].value).msg)))) in TableOf(t).settled
  }

  /** Requests and answers, over every run in which each request has a token of its own, other messages carry none,
      and plaintexts fit; whatever order frames are taken in, answers given in, timers fired in.  No request is
      settled twice.  A request that is settled by an answer is settled by the device's answer to that very request.
      Once both wires are empty and the device has answered what it read, no request is open; and if no timer fired
      and nothing ended the session, every request that could be sent has got its answer. */
  lemma RequestsGetTheirAnswers(
      c: BlockCipher, key: Block, heard: seq<Message>, answer: Message -> Message, t: Talk, acts: seq<Act>)
    requires Starts(c, key, heard, t) && Answering(answer)
    ensures var t' := Run(c, key, answer, t, acts);
            Orderly(c, key, answer, t, acts) ==>
              && Requests.NoneTwice(TableOf(t').settled)
              && AllRight(answer, TableOf(t'), t'.asked)
              && (AllAnswered(t') ==>
                    && TableOf(t').timers == {}
                    && (Undisturbed(acts) ==>
                          forall i :: 0 <= i < |t'.asked| && t'.asked[i].Some? ==> GotItsAnswer(answer, t', i)))
  {
    hide Run, Orderly, Answering, Starts, AllAnswered, Undisturbed, AllServed, InLink, FromRequests, OpenAreSent,
         AreAnswers, OpenAreUnanswered, AllRight, GotItsAnswer;
    if Orderly(c, key, answer, t, acts) {
      var t' := Run(c, key, answer, t, acts);
      StartsWithInv(c, key, heard, answer, t);
      TalkKeeps(c, key, heard, answer, t, acts);
      if AllAnswered(t') {
        NoneIsOpen(c, key, heard, answer, t');
        if Undisturbed(acts) {
          UndisturbedServes(c, key, heard, answer, t, acts);
          HasLength(TableOf(t'), t'.asked, t'.link.down.sent);
          forall i | 0 <= i < |t'.asked| && t'.asked[i].Some? ensures GotItsAnswer(answer, t', i) {
            ServedIsAnswered(answer, t', i);
          }
        }
      }
    }
  }

  lemma ServedIsAnswered(answer: Message -> Message, t: Talk, i: int)
    requires Requests.Inv(TableOf(t)) && TableOf(t).timers == {} && |t.asked| == |TableOf(t).tokens|
    requires AllServed(t) && AllRight(answer, TableOf(t), t.asked) && 0 <= i < |t.asked| && t.asked[i].Some?
    ensures GotItsAnswer(answer, t, i)
  {
    hide Decode, Normalise, Requests.Leads, Distinct;
    assert i in Requests.Ids(TableOf(t).settled);
    var x := SettledAs(TableOf(t).settled, i);
    assert Served(t.asked, x) && Right(answer, t.asked, x);
  }

  lemma {:induction false} SettledAs(s: seq<Requests.Settle>, id: int) returns (x: Requests.Settle)
    requires id in Requests.Ids(s)
    ensures x in s && x.id == id
  {
    if s[|s| - 1].id == id {
      x := s[|s| - 1];
    } else {
      x := SettledAs(s[..|s| - 1], id);
    }
  }

  /** Such a conversation starts where the handshake ends. */
  lemma HandshakeStartsTalk<K>(
      s: Handshake.Setting<K>, g: Handshake.Given, m: Message, before: Spec.State, peer: Spec.Peer)
    requires Handshake.WellGiven(g) && Encode(m).Some? && before.table == Requests.EMPTY_TABLE
    requires g.hello == Some(Seal1(s.cipher, Handshake.AesKey(g), Handshake.InitialIv(g), Encode(m).value))
    ensures Handshake.Hello(s, g).Decoded?
    ensures var iv := Roll(g.hello.value);
            var w, l := HandshakeLaws.WorldAfter(s, g, before, peer, iv), HandshakeLaws.AfterHandshake(s, g, iv);
            Starts(s.cipher, Handshake.AesKey(g), before.heard, Talk(w, l, [], []))
  {
    hide Encode, Decode, Seal1, Roll, Handshake.Hello, Synced, Peers.Agrees;
    HandshakeLaws.HandshakeEstablishesSync(s, g, m);
    HandshakeLaws.WorldStartsOnChannel(s, g, m, before, peer);
    Handshake.HelloOutPrints(g.counter);
    var p := Encode(Handshake.HelloOut(g.counter)).value;
    var l := HandshakeLaws.AfterHandshake(s, g, Roll(g.hello.value));
    assert l.down.sent == [p] && Quiet(p);
  }
}
