/** A session and its message loop together (`run`, `_onData` and `_finalize` in lib/session.js): socket data goes to
    the byte queue, the loop takes frames from it and hands each to the session, the loop goes on while the session
    is connected, and a session that closes shuts its queue. */
module Gateways {
  import opened Octets
  import opened Chunking
  import opened Cipher
  import opened Coap
  import opened CoapLaws
  import opened Link
  import opened ByteQueues
  import Spec = SessionSpec
  import SessionLaws
  import FrameLoop
  import Stream

  /** What may happen to a connected session besides frames: sends, requests, timers, errors, the end. */
  type Outer = i: Spec.Input | !i.FrameArrives? && !i.Established? && !i.RunCalled? && !i.RunThrows?
    witness Spec.Disconnect

  datatype Gateway = Gateway(session: Spec.State, loop: FrameLoop.Loop)

  datatype Action =
    | Data(chunk: Bytes)  // the socket's data event
    | Turn                // the promise the loop waits for is settled, and the loop goes on
    | Act(input: Outer)

  /** What is to be done at a turn: nothing, as the promise is not settled or the loop is over; leave the loop, as
      the await throws; read the body; or handle the frame that was read. */
  datatype Task = Idle | Leave | ReadBody | Handle(frame: Bytes)

  function TaskOf(l: FrameLoop.Loop): Task {
    if l.q.waiters != [] || l.q.settled == [] || l.phase.Stopped? then Idle
    else
      match FrameLoop.Last(l.q)
      case Rejected(_) => Leave
      case Resolved(_, data) =>
        if l.phase.AwaitBody? then Handle(data) else if |data| < 2 then Leave else ReadBody
  }

  /** The session moves on to `s`; if that closes it, the queue is shut. */
  function Moved(g: Gateway, s: Spec.State): Gateway {
    Gateway(s, g.loop.(q := Spec.QueueAfter(g.session.status, s.status, g.loop.q)))
  }

  function TakeTurn(c: BlockCipher, g: Gateway): Gateway {
    match TaskOf(g.loop)
    case Idle => g
    case Leave => var g' := Moved(g, Spec.Caught(g.session)); g'.(loop := g'.loop.(phase := FrameLoop.Stopped))
    case ReadBody =>
      var data := FrameLoop.Last(g.loop.q).data;
      var q := AfterRead(g.loop.q, U16(data[0], data[1]));
      g.(loop := g.loop.(q := q, phase := FrameLoop.AwaitBody(data)))
    case Handle(frame) =>
      var g' := Moved(g, Spec.HandleFrame(c, g.session, frame));
      var l := g'.loop.(delivered := g'.loop.delivered + [frame]);
      if g'.session.status.Connected? then g'.(loop := l.(q := AfterRead(l.q, 3), phase := FrameLoop.AwaitHead))
      else g'.(loop := l.(phase := FrameLoop.Stopped))
  }

  function Next(c: BlockCipher, g: Gateway, a: Action): Gateway {
    match a
    case Data(chunk) => g.(loop := g.loop.(q := AfterPush(g.loop.q, chunk)))
    case Turn => TakeTurn(c, g)
    case Act(i) => Moved(g, Spec.Next(c, g.session, i))
  }

  function Run(c: BlockCipher, g: Gateway, actions: seq<Action>): Gateway {
    if actions == [] then g else Next(c, Run(c, g, actions[..|actions| - 1]), actions[|actions| - 1])
  }

  /** The session has just been established; `q` holds what arrived behind the handshake. */
  function Begin(s: Spec.State, q: Queue): Gateway {
    Gateway(s, FrameLoop.Start(q))
  }

  // ----- The two components of a run -----

  /** What the session sees of an action. */
  function InputsOf(g: Gateway, a: Action): seq<Spec.Input> {
    match a
    case Data(_) => []
    case Act(i) => [i]
    case Turn =>
      match TaskOf(g.loop)
      case Handle(frame) => [Spec.FrameArrives(frame)]
      case Leave => [Spec.RunThrows]
      case _ => []
  }

  /** What the loop sees of an action that moves the session to `s`. */
  function EventsOf(g: Gateway, s: Spec.State, a: Action): seq<FrameLoop.Event> {
    var shut := if s.status.Closed? && !g.session.status.Closed? then [FrameLoop.Shut] else [];
    match a
    case Data(chunk) => [FrameLoop.Arrive(chunk)]
    case Act(_) => shut
    case Turn =>
      match TaskOf(g.loop)
      case Idle => []
      case _ => shut + [FrameLoop.Wake(s.status.Connected?)]
  }

  function Inputs(c: BlockCipher, g: Gateway, actions: seq<Action>): seq<Spec.Input> {
    if actions == [] then []
    else
      var before := actions[..|actions| - 1];
      Inputs(c, g, before) + InputsOf(Run(c, g, before), actions[|actions| - 1])
  }

  function Events(c: BlockCipher, g: Gateway, actions: seq<Action>): seq<FrameLoop.Event> {
    if actions == [] then []
    else
      var before := actions[..|actions| - 1];
      Events(c, g, before) + EventsOf(Run(c, g, before), Run(c, g, actions).session, actions[|actions| - 1])
  }

  function DataOf(actions: seq<Action>): Bytes {
    if actions == [] then []
    else
      var a := actions[|actions| - 1];
      DataOf(actions[..|actions| - 1]) + if a.Data? then a.chunk else []
  }

  function After(c: BlockCipher, s: Spec.State, inputs: seq<Spec.Input>): Spec.State {
    if inputs == [] then s else Spec.Next(c, s, inputs[0])
  }

  lemma SessionStep(c: BlockCipher, g: Gateway, a: Action)
    ensures |InputsOf(g, a)| <= 1
    ensures Next(c, g, a).session == After(c, g.session, InputsOf(g, a))
  {
    hide Spec.HandleFrame, AfterPush, AfterRead, AfterClose, Spec.Fail;
  }

  /** Up to two loop events. */
  function LoopAfter(l: FrameLoop.Loop, events: seq<FrameLoop.Event>): FrameLoop.Loop
    requires |events| <= 2
  {
    if events == [] then l
    else if |events| == 1 then FrameLoop.Step(l, events[0])
    else FrameLoop.Step(FrameLoop.Step(l, events[0]), events[1])
  }

  lemma ClosingAnIdleQueue(q: Queue)
    requires q.waiters == []
    ensures AfterClose(q) == q.(closed := true)
  {
  }

  lemma LoopStep(c: BlockCipher, g: Gateway, a: Action)
    ensures var g' := Next(c, g, a);
            |EventsOf(g, g'.session, a)| <= 2 && g'.loop == LoopAfter(g.loop, EventsOf(g, g'.session, a))
  {
    hide Spec.HandleFrame, AfterPush, AfterRead, AfterClose, Spec.Next, Spec.Fail, Spec.Finalize;
    if a.Turn? && !TaskOf(g.loop).Idle? {
      ClosingAnIdleQueue(g.loop.q);
    }
  }

  /** The bytes that up to two loop events bring. */
  function Brought(events: seq<FrameLoop.Event>): Bytes
    requires |events| <= 2
  {
    if events == [] then []
    else if |events| == 1 then FrameLoop.ArrivedIn(events[0])
    else FrameLoop.ArrivedIn(events[0]) + FrameLoop.ArrivedIn(events[1])
  }

  lemma OneByOne<T>(s: seq<T>, more: seq<T>)
    requires 1 <= |more| <= 2
    ensures s + more == if |more| == 1 then s + [more[0]] else (s + [more[0]]) + [more[1]]
  {
  }

  lemma Associates(a: Bytes, b: Bytes, c: Bytes)
    ensures (a + b) + c == a + (b + c)
  {
  }

  lemma FrameLoopRuns(q: Queue, events: seq<FrameLoop.Event>, more: seq<FrameLoop.Event>)
    requires |more| <= 2
    ensures FrameLoop.Run(q, events + more) == LoopAfter(FrameLoop.Run(q, events), more)
    ensures FrameLoop.Arrived(events + more) == FrameLoop.Arrived(events) + Brought(more)
  {
    hide FrameLoop.Step, FrameLoop.Run, FrameLoop.Arrived, FrameLoop.ArrivedIn;
    if more == [] {
      assert events + more == events && FrameLoop.Arrived(events) + [] == FrameLoop.Arrived(events);
    } else {
      OneByOne(events, more);
      FrameLoop.RunSnoc(q, events, more[0]);
      if |more| == 2 {
        FrameLoop.RunSnoc(q, events + [more[0]], more[1]);
        Associates(FrameLoop.Arrived(events), FrameLoop.ArrivedIn(more[0]), FrameLoop.ArrivedIn(more[1]));
      }
    }
  }

  lemma SessionRuns(c: BlockCipher, s: Spec.State, inputs: seq<Spec.Input>, more: seq<Spec.Input>)
    requires |more| <= 1
    ensures Spec.Run(c, s, inputs + more) == After(c, Spec.Run(c, s, inputs), more)
    ensures Stream.FramesOf(inputs + more) ==
            Stream.FramesOf(inputs) + if more != [] && more[0].FrameArrives? then [more[0].ct] else []
  {
    hide Spec.Next;
    if more == [] {
      assert inputs + more == inputs;
    } else {
      Spec.RunSnoc(c, s, inputs, more[0]);
      assert inputs + more == inputs + [more[0]];
      assert (inputs + more)[..|inputs|] == inputs;
    }
  }

  lemma EventsCarryData(g: Gateway, s: Spec.State, a: Action)
    ensures |EventsOf(g, s, a)| <= 2 && Brought(EventsOf(g, s, a)) == if a.Data? then a.chunk else []
  {
  }

  lemma TurnDelivers(c: BlockCipher, g: Gateway, a: Action)
    ensures var i := InputsOf(g, a);
            Next(c, g, a).loop.delivered ==
            g.loop.delivered + if i != [] && i[0].FrameArrives? then [i[0].ct] else []
  {
    hide Spec.HandleFrame, AfterPush, AfterRead, AfterClose, Spec.Next;
  }

  /** Over every run: the session runs on the inputs, the loop on the events, what arrives is the socket's data, and
      the frames the session has handled are exactly the frames the loop has delivered. */
  lemma {:induction false} GatewayRunsBoth(c: BlockCipher, s: Spec.State, q: Queue, actions: seq<Action>)
    ensures var g, inputs, events :=
              Run(c, Begin(s, q), actions), Inputs(c, Begin(s, q), actions), Events(c, Begin(s, q), actions);
            && g.session == Spec.Run(c, s, inputs) && g.loop == FrameLoop.Run(q, events)
            && FrameLoop.Arrived(events) == DataOf(actions)
            && Stream.FramesOf(inputs) == g.loop.delivered
            && Stream.NoHandshake(inputs)
  {
    hide Next, InputsOf, EventsOf, Spec.Run, FrameLoop.Run, FrameLoop.Arrived, Stream.FramesOf, After,
         LoopAfter, Brought;
    var g0 := Begin(s, q);
    if actions == [] {
      NothingRun(c, s, q);
    } else {
      var before, a := actions[..|actions| - 1], actions[|actions| - 1];
      GatewayRunsBoth(c, s, q, before);
      var g := Run(c, g0, before);
      var s' := Next(c, g, a).session;
      SessionStep(c, g, a);
      LoopStep(c, g, a);
      SessionRuns(c, s, Inputs(c, g0, before), InputsOf(g, a));
      FrameLoopRuns(q, Events(c, g0, before), EventsOf(g, s', a));
      EventsCarryData(g, s', a);
      TurnDelivers(c, g, a);
      NoneEstablishes(g, a);
    }
  }

  lemma NothingRun(c: BlockCipher, s: Spec.State, q: Queue)
    ensures Spec.Run(c, s, []) == s && FrameLoop.Run(q, []) == FrameLoop.Start(q) && FrameLoop.Arrived([]) == []
    ensures Stream.FramesOf([]) == [] == FrameLoop.Start(q).delivered
  {
  }

  lemma NoneEstablishes(g: Gateway, a: Action)
    ensures forall i :: i in InputsOf(g, a) ==> !i.Established?
  {
  }

  // ----- The stream theorem -----

  /** As long as the arrived bytes begin what a device wrote, the loop delivers the device's first frames, and all of
      them once every byte has arrived and it waits for more. */
  lemma FramesAreDelivered(c: BlockCipher, cts: seq<Bytes>, s: Spec.State, q: Queue, actions: seq<Action>)
    requires Sendable(cts) && q.waiters == []
    ensures var bytes, wire := q.buf + DataOf(actions), FrameAll(DEVICE_HEADER, cts);
            var l := Run(c, Begin(s, q), actions).loop;
            && FrameLoop.Inv(l, bytes)
            && (bytes <= wire ==> l.delivered <= cts)
            && (bytes == wire && l.q.waiters != [] ==> l.delivered == cts)
  {
    hide Run, Inputs, Events, Deframe, DataOf, FrameAll, Spec.Run, FrameLoop.Run, FrameLoop.Arrived, FrameLoop.Inv,
         FrameLoop.Unread, Stream.FramesOf;
    var bytes, wire := q.buf + DataOf(actions), FrameAll(DEVICE_HEADER, cts);
    GatewayRunsBoth(c, s, q, actions);
    FrameLoop.LoopDeframes(q, Events(c, Begin(s, q), actions));
    if bytes <= wire {
      DeframePrefix(DEVICE_HEADER, bytes, wire[|bytes|..]);
      assert bytes + wire[|bytes|..] == wire;
      Stream.WholeWire(DEVICE_HEADER, cts);
    }
  }

  /** The device sends any messages; any beginning of its bytes has arrived, cut in any way, while sends, requests,
      timers, errors and the end of the session interleave with the loop's turns in any order.  Then at every moment
      the session has heard an in-order beginning of what was sent (normalised), one message for each frame the loop
      has delivered, and all of it once every byte has arrived and the loop waits for more. */
  lemma EndToEnd(c: BlockCipher, key: Block, iv: Block, ms: seq<Message>, s: Spec.State, q: Queue, actions: seq<Action>)
    requires Stream.AllTransmittable(ms) && s.key == key && s.ivIn == iv && q.waiters == []
    ensures var bytes, wire := q.buf + DataOf(actions), Stream.DeviceWire(c, key, iv, ms);
            var g := Run(c, Begin(s, q), actions);
            bytes <= wire ==>
              && InStep(g, key, iv)
              && |g.loop.delivered| <= |ms|
              && g.session.heard == s.heard + Stream.Normals(ms[..|g.loop.delivered|])
              && (bytes == wire && g.loop.q.waiters != [] ==> g.session.heard == s.heard + Stream.Normals(ms))
  {
    hide Run, Inputs, Events, DataOf, FrameAll, Spec.Run, FrameLoop.Run, Stream.DeviceFrames, Stream.Normals, IvAfter,
         Stream.FramesOf, FrameLoop.Arrived, FrameLoop.Inv;
    Stream.DeviceFramesFit(c, key, iv, ms);
    var cts := Stream.DeviceFrames(c, key, iv, ms);
    FramesAreDelivered(c, cts, s, q, actions);
    GatewayRunsBoth(c, s, q, actions);
    if q.buf + DataOf(actions) <= FrameAll(DEVICE_HEADER, cts) {
      Stream.SessionHears(c, key, iv, ms, s, Inputs(c, Begin(s, q), actions));
      assert ms[..|ms|] == ms;
    }
  }

  /** The session holds the vector that the delivered frames leave behind. */
  ghost predicate InStep(g: Gateway, key: Block, iv: Block) {
    Whole(g.loop.delivered) && g.session.key == key && g.session.ivIn == IvAfter(iv, g.loop.delivered)
  }

  // ----- After the end -----

  /** Frames that a loop may still hand over once the session is not connected: the one it is reading. */
  function StillToCome(g: Gateway): nat {
    if g.loop.phase.Stopped? then 0 else 1
  }

  lemma EndedStep(c: BlockCipher, g: Gateway, a: Action)
    requires !g.session.status.Connected?
    ensures var g' := Next(c, g, a);
            && !g'.session.status.Connected?
            && |g'.loop.delivered| + StillToCome(g') <= |g.loop.delivered| + StillToCome(g)
  {
    hide AfterPush, AfterRead, AfterClose, Spec.HandleFrame, Spec.Next, Spec.Fail, SessionLaws.Keyed;
    match a {
      case Data(chunk) =>
      case Act(i) => EndedStays(c, g.session, i);
      case Turn =>
        match TaskOf(g.loop) {
          case Handle(frame) =>
            HandlesAsInput(c, g.session, frame);
            EndedStays(c, g.session, Spec.FrameArrives(frame));
          case Leave => CaughtIsClosed(g.session);
          case _ =>
        }
    }
  }

  lemma EndedStays(c: BlockCipher, s: Spec.State, i: Spec.Input)
    requires !s.status.Connected? && !i.Established?
    ensures !Spec.Next(c, s, i).status.Connected?
  {
    hide Spec.Next, SessionLaws.Keyed;
    SessionLaws.StepKeyed(c, s, i);
  }

  /** Once the session is not connected, whatever else arrives and happens, its loop hands over at most the one
      frame it was reading. */
  lemma {:induction false} EndedHandlesAtMostOne(c: BlockCipher, g: Gateway, actions: seq<Action>)
    requires !g.session.status.Connected?
    ensures var g' := Run(c, g, actions);
            && !g'.session.status.Connected?
            && |g'.loop.delivered| + StillToCome(g') <= |g.loop.delivered| + StillToCome(g) <= |g.loop.delivered| + 1
  {
    hide Next;
    if actions != [] {
      EndedHandlesAtMostOne(c, g, actions[..|actions| - 1]);
      EndedStep(c, Run(c, g, actions[..|actions| - 1]), actions[|actions| - 1]);
    }
  }

  // ----- And it gets there -----

  /** A connected session has its keys, its queue is open, and its loop is running. */
  ghost predicate Alive(g: Gateway) {
    g.session.status.Connected? ==>
      SessionLaws.Keyed(g.session) && !g.loop.phase.Stopped? && !g.loop.q.closed && FrameLoop.NoneRejected(g.loop.q)
  }

  lemma AliveStep(c: BlockCipher, g: Gateway, a: Action)
    requires Alive(g)
    ensures Alive(Next(c, g, a))
  {
    hide AfterPush, AfterRead, AfterClose, Spec.HandleFrame, Spec.Next, Spec.Fail, SessionLaws.Keyed,
         FrameLoop.NoneRejected;
    var connected := Next(c, g, a).session.status.Connected?;
    match a {
      case Data(chunk) =>
        if connected {
          FrameLoop.PushRejectsNone(g.loop.q, chunk);
        }
      case Act(i) => SessionLaws.StepKeyed(c, g.session, i);
      case Turn =>
        match TaskOf(g.loop) {
          case Handle(frame) =>
            HandlesAsInput(c, g.session, frame);
            SessionLaws.StepKeyed(c, g.session, Spec.FrameArrives(frame));
            if connected {
              FrameLoop.ReadRejectsNone(g.loop.q, 3);
            }
          case ReadBody =>
            var data := FrameLoop.Last(g.loop.q).data;
            if connected {
              FrameLoop.ReadRejectsNone(g.loop.q, U16(data[0], data[1]));
            }
          case Leave => CaughtIsClosed(g.session);
          case Idle =>
        }
    }
  }

  lemma HandlesAsInput(c: BlockCipher, s: Spec.State, frame: Bytes)
    ensures Spec.Next(c, s, Spec.FrameArrives(frame)) == Spec.HandleFrame(c, s, frame)
  {
  }

  lemma CaughtIsClosed(s: Spec.State)
    ensures Spec.Caught(s).status.Closed?
  {
  }

  lemma {:induction false} AliveThroughout(c: BlockCipher, s: Spec.State, q: Queue, actions: seq<Action>)
    requires SessionLaws.Keyed(s) && !q.closed && FrameLoop.NoneRejected(q)
    ensures Alive(Run(c, Begin(s, q), actions))
  {
    hide Next, Alive;
    if actions == [] {
      FrameLoop.ReadRejectsNone(q, 3);
      StartsAlive(s, q);
    } else {
      var before := actions[..|actions| - 1];
      AliveThroughout(c, s, q, before);
      AliveStep(c, Run(c, Begin(s, q), before), actions[|actions| - 1]);
    }
  }

  lemma StartsAlive(s: Spec.State, q: Queue)
    requires SessionLaws.Keyed(s) && !q.closed && FrameLoop.NoneRejected(AfterRead(q, 3))
    ensures Alive(Begin(s, q))
  {
    hide FrameLoop.NoneRejected;
  }

  lemma RunSnoc(c: BlockCipher, g: Gateway, actions: seq<Action>, a: Action)
    ensures Run(c, g, actions + [a]) == Next(c, Run(c, g, actions), a)
    ensures DataOf(actions + [a]) == DataOf(actions) + if a.Data? then a.chunk else []
  {
    hide Next;
    assert (actions + [a])[..|actions|] == actions;
  }

  function Turns(n: nat): seq<Action> {
    if n == 0 then [] else [Turn] + Turns(n - 1)
  }

  /** A turn of a live gateway that is not waiting, on a frame of whole blocks if it is one's turn, keeps the session
      connected and uses up some of the loop's budget. */
  lemma TurnGoesOn(c: BlockCipher, g: Gateway)
    requires Alive(g) && g.session.status.Connected? && g.loop.q.waiters == [] && FrameLoop.Reading(g.loop)
    requires |g.session.ivIn| == 16
    requires TaskOf(g.loop).Handle? ==> |TaskOf(g.loop).frame| % 16 == 0
    ensures var g' := TakeTurn(c, g);
            && g'.session.status.Connected? && FrameLoop.Budget(g'.loop) < FrameLoop.Budget(g.loop)
            && (TaskOf(g.loop).Handle? ==> g'.loop.delivered == g.loop.delivered + [TaskOf(g.loop).frame])
  {
    hide AfterRead, AfterClose, Spec.HandleFrame, FrameLoop.Budget;
    var l := g.loop;
    assert FrameLoop.Last(l.q) in l.q.settled;
    FrameLoop.WakeSpends(l);
    if TaskOf(l).Handle? {
      SessionLaws.FrameEnds(c, g.session, TaskOf(l).frame);
    }
  }

  /** The session is connected, waits for nothing but bytes, and has heard everything. */
  ghost predicate Done(g: Gateway, s: Spec.State, ms: seq<Message>) {
    g.session.status.Connected? && g.loop.q.waiters != [] && g.session.heard == s.heard + Stream.Normals(ms)
  }

  /** Once every byte of the device has arrived, in whatever pieces and among whatever else, then unless the session
      was closed meanwhile: after at most as many more turns as the loop's budget says, it has heard every message. */
  lemma {:induction false} EverythingIsHeard(
      c: BlockCipher, key: Block, iv: Block, ms: seq<Message>, s: Spec.State, q: Queue, actions: seq<Action>)
    requires Stream.AllTransmittable(ms) && s.key == key && s.ivIn == iv && |s.ivOut| == 16
    requires q.waiters == [] && !q.closed && FrameLoop.NoneRejected(q)
    ensures var g := Run(c, Begin(s, q), actions);
            q.buf + DataOf(actions) == Stream.DeviceWire(c, key, iv, ms) && g.session.status.Connected? ==>
              exists n: nat ::
                n <= FrameLoop.Budget(g.loop) && Done(Run(c, Begin(s, q), actions + Turns(n)), s, ms)
    decreases FrameLoop.Budget(Run(c, Begin(s, q), actions).loop)
  {
    hide Run, DataOf, Stream.DeviceWire, Alive, FrameLoop.Budget, TakeTurn, Stream.Normals, IvAfter, Turns,
         FrameLoop.Inv;
    var g0 := Begin(s, q);
    var g := Run(c, g0, actions);
    if q.buf + DataOf(actions) == Stream.DeviceWire(c, key, iv, ms) && g.session.status.Connected? {
      EndToEnd(c, key, iv, ms, s, q, actions);
      if g.loop.q.waiters != [] {
        NoTurns(actions);
        assert Done(Run(c, g0, actions + Turns(0)), s, ms);
      } else {
        var actions' := actions + [Turn];
        OneTurn(c, key, iv, ms, s, q, actions);
        EverythingIsHeard(c, key, iv, ms, s, q, actions');
        var n: nat :| n <= FrameLoop.Budget(Run(c, g0, actions').loop) && Done(Run(c, g0, actions' + Turns(n)), s, ms);
        OneMoreTurn(actions, n);
        assert Done(Run(c, g0, actions + Turns(n + 1)), s, ms);
      }
    }
  }

  /** One turn of a gateway that has all bytes. */
  lemma OneTurn(c: BlockCipher, key: Block, iv: Block, ms: seq<Message>, s: Spec.State, q: Queue, actions: seq<Action>)
    requires Stream.AllTransmittable(ms) && s.key == key && s.ivIn == iv && |s.ivOut| == 16
    requires q.waiters == [] && !q.closed && FrameLoop.NoneRejected(q)
    requires q.buf + DataOf(actions) == Stream.DeviceWire(c, key, iv, ms)
    requires var g := Run(c, Begin(s, q), actions); g.session.status.Connected? && g.loop.q.waiters == []
    ensures var g, g' := Run(c, Begin(s, q), actions), Run(c, Begin(s, q), actions + [Turn]);
            && g'.session.status.Connected? && FrameLoop.Budget(g'.loop) < FrameLoop.Budget(g.loop)
            && q.buf + DataOf(actions + [Turn]) == Stream.DeviceWire(c, key, iv, ms)
  {
    hide Run, DataOf, Alive, FrameLoop.Budget, TakeTurn, Stream.Normals, IvAfter, FrameAll, Stream.DeviceFrames;
    var g0 := Begin(s, q);
    var g := Run(c, g0, actions);
    Stream.DeviceFramesFit(c, key, iv, ms);
    RunSnoc(c, g0, actions, Turn);
    assert q.buf + DataOf(actions + [Turn]) == q.buf + DataOf(actions);
    AliveThroughout(c, s, q, actions);
    EndToEnd(c, key, iv, ms, s, q, actions);
    EndToEnd(c, key, iv, ms, s, q, actions + [Turn]);
    FramesAreDelivered(c, Stream.DeviceFrames(c, key, iv, ms), s, q, actions);
    StillReading(g, q.buf + DataOf(actions));
    if TaskOf(g.loop).Handle? {
      TurnDelivers(c, g, Turn);
      assert TaskOf(g.loop).frame in TakeTurn(c, g).loop.delivered;
    }
    TurnGoesOn(c, g);
  }

  lemma StillReading(g: Gateway, bytes: Bytes)
    requires Alive(g) && g.session.status.Connected? && FrameLoop.Inv(g.loop, bytes)
    ensures FrameLoop.Reading(g.loop)
  {
    hide Deframe, FrameLoop.Unread;
  }

  lemma NoTurns(actions: seq<Action>)
    ensures actions + Turns(0) == actions
  {
  }

  lemma OneMoreTurn(actions: seq<Action>, n: nat)
    ensures actions + Turns(n + 1) == (actions + [Turn]) + Turns(n)
  {
  }
}
