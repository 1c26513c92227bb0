/** A session and a device with the two wires between them, frame by frame: what the session writes is what the
    device reads next, and the other way round.  Seen from the vectors and the plaintexts, this is the channel of
    Link.dfy. */
module Peers {
  import opened Octets
  import opened Chunking
  import opened Cipher
  import opened Coap
  import opened Link
  import Spec = SessionSpec
  import opened Stream
  import opened Gateways

  /** The device's vectors, and the plaintexts it has read. */
  datatype Device = Device(ivIn: Block, ivOut: Block, read: seq<Bytes>)

  /** `up` are the ciphertexts on their way to the session, `down` the buffers it wrote that the device has not
      read. */
  datatype World = World(session: Spec.State, device: Device, up: seq<Bytes>, down: seq<Bytes>)

  datatype Move =
    | DeviceSends(p: Bytes)
    | DeviceTakes
    | SessionTakes
    | SessionActs(input: Outer)

  /** The session moves on; what it has written is on its way. */
  function Moves(w: World, s: Spec.State): World {
    var added := if |w.session.written| <= |s.written| then s.written[|w.session.written|..] else [];
    w.(session := s, down := w.down + added)
  }

  /** The device opens a buffer: behind the length, a ciphertext. */
  function TakeDown(c: BlockCipher, key: Block, w: World): World {
    if w.down == [] || |w.down[0]| < 18 then w
    else
      var ct := w.down[0][2..];
      var p := AesDecrypt(c, key, w.device.ivIn, ct);
      if p.None? then w
      else w.(down := w.down[1..], device := w.device.(ivIn := Roll(ct), read := w.device.read + [p.value]))
  }

  function SendUp(c: BlockCipher, key: Block, w: World, p: Bytes): World {
    var ct := Seal1(c, key, w.device.ivOut, p);
    w.(device := w.device.(ivOut := Roll(ct)), up := w.up + if |ct| <= MAX_FRAME then [ct] else [])
  }

  function Next(c: BlockCipher, key: Block, w: World, m: Move): World {
    match m
    case DeviceSends(p) => SendUp(c, key, w, p)
    case DeviceTakes => TakeDown(c, key, w)
    case SessionTakes =>
      if w.up == [] then w else Moves(w, Spec.HandleFrame(c, w.session, w.up[0])).(up := w.up[1..])
    case SessionActs(i) => Moves(w, Spec.Next(c, w.session, i))
  }

  function Run(c: BlockCipher, key: Block, w: World, moves: seq<Move>): World {
    if moves == [] then w else Next(c, key, Run(c, key, w, moves[..|moves| - 1]), moves[|moves| - 1])
  }

  // ----- The channel -----

  function Speech(p: Option<Bytes>): seq<Step> {
    if p.None? then [] else [Send(false, p.value)]
  }

  /** What a move is on the channel. */
  function StepsOf(c: BlockCipher, w: World, m: Move): seq<Step> {
    match m
    case DeviceSends(p) => [Send(true, p)]
    case DeviceTakes => [Deliver(false)]
    case SessionTakes =>
      if w.up == [] then [] else [Deliver(true)] + Speech(Says(c, w.session, Spec.FrameArrives(w.up[0])))
    case SessionActs(i) => Speech(Says(c, w.session, i))
  }

  function Steps(c: BlockCipher, key: Block, w: World, moves: seq<Move>): seq<Step> {
    if moves == [] then []
    else
      var before := moves[..|moves| - 1];
      Steps(c, key, w, before) + StepsOf(c, Run(c, key, w, before), moves[|moves| - 1])
  }

  /** World and channel agree: on all four vectors, on both wires, on what the device has read, and on what the
      session has heard since it had heard `heard`. */
  ghost predicate Agrees(key: Block, heard: seq<Message>, w: World, l: Channel) {
    && w.session.key == key
    && w.session.ivIn == l.up.ivR && w.session.ivOut == l.down.ivS
    && w.device.ivOut == l.up.ivS && w.device.ivIn == l.down.ivR
    && Whole(l.up.wire) && w.up == l.up.wire
    && Whole(l.down.wire) && Sendable(l.down.wire) && w.down == Frames(l.down.wire)
    && w.device.read == l.down.got
    && w.session.heard == heard + HeardOf(l.up.got)
  }

  lemma ChannelSnoc(c: BlockCipher, key: Block, l: Channel, steps: seq<Step>, s: Step)
    ensures RunChannel(c, key, l, steps + [s]) == NextChannel(c, key, RunChannel(c, key, l, steps), s)
  {
    hide NextChannel;
    assert (steps + [s])[..|steps|] == steps;
  }

  lemma {:induction false} ChannelRuns(c: BlockCipher, key: Block, l: Channel, a: seq<Step>, b: seq<Step>)
    ensures RunChannel(c, key, l, a + b) == RunChannel(c, key, RunChannel(c, key, l, a), b)
    decreases |b|
  {
    hide NextChannel;
    if b == [] {
      assert a + b == a;
    } else {
      var front, s := b[..|b| - 1], b[|b| - 1];
      ChannelRuns(c, key, l, a, front);
      ChannelSnoc(c, key, l, a + front, s);
      assert a + b == (a + front) + [s];
    }
  }

  lemma OneStep(c: BlockCipher, key: Block, l: Channel, s: Step)
    ensures RunChannel(c, key, l, [s]) == NextChannel(c, key, l, s)
  {
    hide NextChannel;
    assert [s][..0] == [];
  }

  lemma DeviceSendsStep(c: BlockCipher, key: Block, heard: seq<Message>, w: World, l: Channel, p: Bytes)
    requires Agrees(key, heard, w, l)
    ensures Agrees(key, heard, SendUp(c, key, w, p), l.(up := SendOn(c, key, l.up, p)))
  {
    hide Seal1, Roll, Frames, HeardOf;
    assert w.up + [] == w.up;
  }

  lemma FramesTail(cts: seq<Bytes>)
    requires Sendable(cts) && Whole(cts) && cts != []
    ensures Sendable(cts[1..]) && Frames(cts[1..]) == Frames(cts)[1..]
    ensures |Frames(cts)[0]| >= 18 && Frames(cts)[0][2..] == cts[0]
  {
    assert cts[0] in cts;
    assert Frame(cts[0])[2..] == cts[0];
  }

  lemma DeviceTakesStep(c: BlockCipher, key: Block, heard: seq<Message>, w: World, l: Channel)
    requires Agrees(key, heard, w, l)
    ensures Agrees(key, heard, TakeDown(c, key, w), l.(down := DeliverOn(c, key, l.down)))
  {
    hide AesDecrypt, Roll, Frames, HeardOf;
    if l.down.wire != [] {
      FramesTail(l.down.wire);
      assert l.down.wire[0] in l.down.wire;
    }
  }

  /** The session speaks: its vector, what it writes, and the frames on their way down move as on the channel. */
  lemma SessionSpeaksStep(c: BlockCipher, key: Block, w: World, d: Direction, i: Spec.Input)
    requires !i.Established? && w.session.key == key && w.session.ivOut == d.ivS
    requires Whole(d.wire) && Sendable(d.wire) && w.down == Frames(d.wire)
    ensures var w', p := Moves(w, Spec.Next(c, w.session, i)), Says(c, w.session, i);
            var d' := if p.None? then d else SendOn(c, key, d, p.value);
            && w'.session.key == key && w'.session.ivOut == d'.ivS
            && Whole(d'.wire) && Sendable(d'.wire) && w'.down == Frames(d'.wire)
            && d'.ivR == d.ivR && d'.got == d.got
  {
    hide Spec.Next, Says, Seal1, Roll, Frames, Frame;
    var s', p := Spec.Next(c, w.session, i), Says(c, w.session, i);
    StepSpeaks(c, key, d.ivS, w.session, i);
    assert w.down + [] == w.down;
    if p.Some? {
      var ct := Seal1(c, key, d.ivS, p.value);
      BuffersAppend(d.wire, ct);
      assert s'.written[|w.session.written|..] == Buffers(ct);
    } else {
      assert s'.written[|w.session.written|..] == [];
    }
  }

  lemma RunSpeech(c: BlockCipher, key: Block, l: Channel, p: Option<Bytes>)
    ensures RunChannel(c, key, l, Speech(p)) == if p.None? then l else l.(down := SendOn(c, key, l.down, p.value))
  {
    hide SendOn;
    if p.Some? {
      OneStep(c, key, l, Send(false, p.value));
    }
  }

  lemma SessionActsStep(c: BlockCipher, key: Block, heard: seq<Message>, w: World, l: Channel, i: Outer)
    requires Agrees(key, heard, w, l)
    ensures Agrees(key, heard, Next(c, key, w, SessionActs(i)), RunChannel(c, key, l, StepsOf(c, w, SessionActs(i))))
  {
    hide Spec.Next, Says, SendOn, Frames, HeardOf;
    SessionSpeaksStep(c, key, w, l.down, i);
    OthersDoNotHear(c, w.session, i);
    RunSpeech(c, key, l, Says(c, w.session, i));
  }

  lemma FrameStep(c: BlockCipher, key: Block, d: Direction, s: Spec.State)
    requires Whole(d.wire) && d.wire != [] && s.key == key && s.ivIn == d.ivR
    ensures var d', s' := DeliverOn(c, key, d), Spec.HandleFrame(c, s, d.wire[0]);
            && d'.wire == d.wire[1..] && Whole(d'.wire) && d'.ivS == d.ivS
            && s'.key == key && s'.ivIn == d'.ivR
            && exists p: Bytes :: d'.got == d.got + [p] && s'.heard == s.heard + HeardOf([p])
  {
    hide AesDecrypt, Roll, HeardOf, Spec.HandleFrame;
    var ct := d.wire[0];
    assert ct in d.wire;
    FrameIsOpened(c, s, ct);
  }

  lemma SessionTakesStep(c: BlockCipher, key: Block, heard: seq<Message>, w: World, l: Channel)
    requires Agrees(key, heard, w, l)
    ensures Agrees(key, heard, Next(c, key, w, SessionTakes), RunChannel(c, key, l, StepsOf(c, w, SessionTakes)))
  {
    hide Spec.HandleFrame, Says, SendOn, DeliverOn, Frames, HeardOf;
    if w.up != [] {
      var i := Spec.FrameArrives(w.up[0]);
      var p := Says(c, w.session, i);
      var l1 := l.(up := DeliverOn(c, key, l.up));
      FrameInput(c, w.session, i);
      SessionSpeaksStep(c, key, w, l.down, i);
      FrameStep(c, key, l.up, w.session);
      OneStep(c, key, l, Deliver(true));
      ChannelRuns(c, key, l, [Deliver(true)], Speech(p));
      RunSpeech(c, key, l1, p);
      var got: Bytes :| l1.up.got == l.up.got + [got] &&
                        Spec.HandleFrame(c, w.session, w.up[0]).heard == w.session.heard + HeardOf([got]);
      HeardAppends(l.up.got, [got]);
      assert (heard + HeardOf(l.up.got)) + HeardOf([got]) == heard + (HeardOf(l.up.got) + HeardOf([got]));
    }
  }

  lemma MoveIsOnChannel(c: BlockCipher, key: Block, heard: seq<Message>, w: World, l: Channel, m: Move)
    requires Agrees(key, heard, w, l)
    ensures Agrees(key, heard, Next(c, key, w, m), RunChannel(c, key, l, StepsOf(c, w, m)))
  {
    hide Agrees, SendUp, TakeDown, SendOn, DeliverOn;
    match m {
      case DeviceSends(p) =>
        DeviceSendsStep(c, key, heard, w, l, p);
        OneStep(c, key, l, Send(true, p));
      case DeviceTakes =>
        DeviceTakesStep(c, key, heard, w, l);
        OneStep(c, key, l, Deliver(false));
      case SessionTakes => SessionTakesStep(c, key, heard, w, l);
      case SessionActs(i) => SessionActsStep(c, key, heard, w, l, i);
    }
  }

  /** The real session and a device of its kind refine the channel: over every run of sends, frames taken in either
      direction, requests, timers, errors and the end, from a world and a channel that agree, they agree again. */
  lemma {:induction false} WorldRefinesChannel(
      c: BlockCipher, key: Block, heard: seq<Message>, w: World, l: Channel, moves: seq<Move>)
    requires Agrees(key, heard, w, l)
    ensures Agrees(key, heard, Run(c, key, w, moves), RunChannel(c, key, l, Steps(c, key, w, moves)))
  {
    hide Agrees, Next, StepsOf, RunChannel;
    if moves == [] {
      NoSteps(c, key, l);
    } else {
      var before, m := moves[..|moves| - 1], moves[|moves| - 1];
      WorldRefinesChannel(c, key, heard, w, l, before);
      var w1, l1 := Run(c, key, w, before), RunChannel(c, key, l, Steps(c, key, w, before));
      MoveIsOnChannel(c, key, heard, w1, l1, m);
      ChannelRuns(c, key, l, Steps(c, key, w, before), StepsOf(c, w1, m));
    }
  }

  lemma NoSteps(c: BlockCipher, key: Block, l: Channel)
    ensures RunChannel(c, key, l, []) == l
  {
  }
}
