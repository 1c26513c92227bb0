/** The message loop's way of reading frames (`readFrame` and `run` in lib/session.js): read three bytes, then
    as many as they announce, each time waiting for a promise of the byte queue.  Bytes arrive, the queue is
    closed and settled promises wake the loop in any order. */
module FrameLoop {
  import opened Octets
  import opened ByteQueues
  import opened Chunking

  datatype Phase = AwaitHead | AwaitBody(head: Bytes) | Stopped

  datatype Loop = Loop(q: Queue, phase: Phase, delivered: seq<Bytes>)

  datatype Event =
    | Arrive(chunk: Bytes)
    | Shut
    | Wake(connected: bool)  // the awaited promise is settled; is the session still connected afterwards?

  function Start(q: Queue): Loop {
    Loop(AfterRead(q, 3), AwaitHead, [])
  }

  function OnWake(l: Loop, connected: bool): Loop {
    if l.q.waiters != [] || l.q.settled == [] || l.phase.Stopped? then l  // nothing to wake for
    else
      match Last(l.q)
      case Rejected(_) => l.(phase := Stopped)
      case Resolved(_, data) =>
        match l.phase
        case AwaitHead =>
          if |data| < 2 then l.(phase := Stopped)  // readUInt16BE throws
          else Loop(AfterRead(l.q, U16(data[0], data[1])), AwaitBody(data), l.delivered)
        case AwaitBody(_) =>
          var delivered := l.delivered + [data];
          if connected then Loop(AfterRead(l.q, 3), AwaitHead, delivered) else Loop(l.q, Stopped, delivered)
        case Stopped => l
  }

  function Step(l: Loop, e: Event): Loop {
    match e
    case Arrive(chunk) => l.(q := AfterPush(l.q, chunk))
    case Shut => l.(q := AfterClose(l.q))
    case Wake(connected) => OnWake(l, connected)
  }

  function Run(q: Queue, events: seq<Event>): Loop {
    if events == [] then Start(q) else Step(Run(q, events[..|events| - 1]), events[|events| - 1])
  }

  function ArrivedIn(e: Event): Bytes { if e.Arrive? then e.chunk else [] }

  function Arrived(events: seq<Event>): Bytes {
    if events == [] then [] else Arrived(events[..|events| - 1]) + ArrivedIn(events[|events| - 1])
  }

  // ----- The invariant -----

  /** The bytes of the running read, when its promise is resolved and the loop has not run yet. */
  function InHand(q: Queue): Bytes {
    if q.waiters == [] && q.settled != [] && Last(q).Resolved? then Last(q).data else []
  }

  function Last(q: Queue): Settled
    requires q.settled != []
  {
    q.settled[|q.settled| - 1]
  }

  function Head(p: Phase): Bytes { if p.AwaitBody? then p.head else [] }

  /** What has arrived and belongs to no delivered frame yet. */
  function Unread(l: Loop): Bytes {
    Head(l.phase) + (InHand(l.q) + l.q.buf)
  }

  /** The one running read asks for `want` bytes. */
  predicate Demands(q: Queue, want: nat) {
    if q.waiters == [] then q.settled != [] && (Last(q).Resolved? ==> |Last(q).data| == want)
    else |q.waiters| == 1 && q.waiters[0].want == want && Drained(q)
  }

  predicate Reading(l: Loop) {
    match l.phase
    case AwaitHead => Demands(l.q, 3)
    case AwaitBody(head) => |head| == 3 && Demands(l.q, U16(head[0], head[1]))
    case Stopped => false
  }

  ghost predicate Inv(l: Loop, bytes: Bytes) {
    if l.phase.Stopped? then
      l.q.waiters == [] && l.delivered <= Deframe(DEVICE_HEADER, bytes).frames
    else
      Reading(l) && Deframe(DEVICE_HEADER, bytes) == Then(Parse(l.delivered, []), Deframe(DEVICE_HEADER, Unread(l)))
  }

  lemma ThenAssociates(p: Parse, q: Parse, r: Parse)
    ensures Then(Then(p, q), r) == Then(p, Then(q, r))
  {
  }

  /** Draining with a single waiter serves it from the buffer, rejects it, or leaves it waiting. */
  lemma DrainAlone(q: Queue, want: nat)
    requires |q.waiters| == 1 && q.waiters[0].want == want
    ensures var q' := AfterDrain(q); Demands(q', want) && InHand(q') + q'.buf == q.buf
  {
  }

  lemma PushAlone(q: Queue, chunk: Bytes, want: nat)
    requires Demands(q, want)
    ensures var q' := AfterPush(q, chunk); Demands(q', want) && InHand(q') + q'.buf == (InHand(q) + q.buf) + chunk
  {
    if q.waiters == [] {
      assert InHand(q) + (q.buf + chunk) == (InHand(q) + q.buf) + chunk;
    } else {
      DrainAlone(q.(buf := q.buf + chunk), want);
      assert [] + q.buf == q.buf;
    }
  }

  lemma ReadAlone(q: Queue, n: nat)
    requires q.waiters == []
    ensures var q' := AfterRead(q, n); Demands(q', n) && InHand(q') + q'.buf == q.buf
  {
    DrainAlone(q.(waiters := q.waiters + [Waiter(q.issued, n)], issued := q.issued + 1), n);
  }

  function Want(p: Phase): nat
    requires p.AwaitBody? ==> |p.head| == 3
  {
    if p.AwaitBody? then U16(p.head[0], p.head[1]) else 3
  }

  lemma ArriveKeeps(l: Loop, bytes: Bytes, chunk: Bytes)
    requires Inv(l, bytes)
    ensures Inv(Step(l, Arrive(chunk)), bytes + chunk)
  {
    hide Deframe, InHand, Complete;
    DeframeResumes(DEVICE_HEADER, bytes, chunk);
    if !l.phase.Stopped? {
      var u := Unread(l);
      PushAlone(l.q, chunk, Want(l.phase));
      assert Unread(Step(l, Arrive(chunk))) == u + chunk;
      DeframeResumes(DEVICE_HEADER, u, chunk);
      ThenAssociates(Parse(l.delivered, []), Deframe(DEVICE_HEADER, u),
                     Deframe(DEVICE_HEADER, Deframe(DEVICE_HEADER, u).rest + chunk));
    }
  }

  lemma ShutKeeps(l: Loop, bytes: Bytes)
    requires Inv(l, bytes)
    ensures Inv(Step(l, Shut), bytes)
  {
    if !l.phase.Stopped? && l.q.waiters != [] {
      DrainAlone(l.q.(closed := true), Want(l.phase));
      assert [] + l.q.buf == l.q.buf;
    }
  }

  lemma WakeKeeps(l: Loop, bytes: Bytes, connected: bool)
    requires Inv(l, bytes)
    ensures Inv(OnWake(l, connected), bytes)
  {
    if !l.phase.Stopped? && l.q.waiters == [] && Last(l.q).Resolved? {
      var data := Last(l.q).data;
      if l.phase.AwaitHead? {
        ReadAlone(l.q, U16(data[0], data[1]));
        assert Unread(l) == data + l.q.buf;
      } else {
        FrameInHand(l, bytes);
        ReadAlone(l.q, 3);
        assert [] + l.q.buf == l.q.buf;
      }
    }
  }

  /** Head, body and more: one frame and the parse of the rest. */
  lemma HeadAndBody(head: Bytes, data: Bytes, rest: Bytes)
    requires |head| == 3 && U16(head[0], head[1]) == |data|
    ensures Deframe(DEVICE_HEADER, head + (data + rest)) == Cons(data, Deframe(DEVICE_HEADER, rest))
  {
    hide Deframe;
    var one := head + data;
    assert one[0] == head[0] && one[1] == head[1];
    assert one[3..3 + |data|] == data && one[3 + |data|..] + rest == rest;
    assert head + (data + rest) == one + rest;
    FirstFrame(DEVICE_HEADER, one, rest);
  }

  lemma ThenCons(delivered: seq<Bytes>, data: Bytes, p: Parse)
    ensures Then(Parse(delivered, []), Cons(data, p)) == Then(Parse(delivered + [data], []), p)
  {
    assert delivered + ([data] + p.frames) == (delivered + [data]) + p.frames;
  }

  /** With head and body read, the next frame of the stream is the body. */
  lemma FrameInHand(l: Loop, bytes: Bytes)
    requires Inv(l, bytes) && l.phase.AwaitBody? && l.q.waiters == [] && Last(l.q).Resolved?
    ensures Deframe(DEVICE_HEADER, bytes) ==
            Then(Parse(l.delivered + [Last(l.q).data], []), Deframe(DEVICE_HEADER, l.q.buf))
  {
    hide Deframe;
    HeadAndBody(l.phase.head, Last(l.q).data, l.q.buf);
    ThenCons(l.delivered, Last(l.q).data, Deframe(DEVICE_HEADER, l.q.buf));
  }

  lemma StartsReading(q: Queue)
    requires q.waiters == []
    ensures Inv(Start(q), q.buf)
  {
    hide Deframe;
    ReadAlone(q, 3);
    assert Unread(Start(q)) == q.buf;
    assert [] + Deframe(DEVICE_HEADER, q.buf).frames == Deframe(DEVICE_HEADER, q.buf).frames;
  }

  lemma StepKeeps(l: Loop, bytes: Bytes, e: Event)
    requires Inv(l, bytes)
    ensures Inv(Step(l, e), bytes + ArrivedIn(e))
  {
    hide Inv;
    match e {
      case Arrive(chunk) => ArriveKeeps(l, bytes, chunk);
      case Shut =>
        assert bytes + [] == bytes;
        ShutKeeps(l, bytes);
      case Wake(connected) =>
        assert bytes + [] == bytes;
        WakeKeeps(l, bytes, connected);
    }
  }

  lemma InvMeans(l: Loop, bytes: Bytes)
    requires Inv(l, bytes)
    ensures var p := Deframe(DEVICE_HEADER, bytes);
            && l.delivered <= p.frames
            && (l.q.waiters != [] ==> l.delivered == p.frames && Unread(l) == p.rest)
  {
    if l.q.waiters != [] {
      assert !Complete(DEVICE_HEADER, Unread(l));
      assert l.delivered + [] == l.delivered;
    }
  }

  lemma {:induction false} InvThroughout(q: Queue, events: seq<Event>)
    requires q.waiters == []
    ensures Inv(Run(q, events), q.buf + Arrived(events))
  {
    hide Inv, Step;
    if events == [] {
      StartsReading(q);
      assert q.buf + [] == q.buf;
    } else {
      var before, e := events[..|events| - 1], events[|events| - 1];
      InvThroughout(q, before);
      assert q.buf + Arrived(events) == (q.buf + Arrived(before)) + ArrivedIn(e);
      StepKeeps(Run(q, before), q.buf + Arrived(before), e);
    }
  }

  /** The two deframers agree.  At every moment of every run the loop has delivered a beginning of what one
      parse of the arrived bytes yields; whenever it is waiting for bytes it has delivered all of it, and the
      bytes it holds are exactly those the parse leaves over. */
  lemma LoopDeframes(q: Queue, events: seq<Event>)
    requires q.waiters == []
    ensures var l, p := Run(q, events), Deframe(DEVICE_HEADER, q.buf + Arrived(events));
            && Inv(l, q.buf + Arrived(events))
            && l.delivered <= p.frames
            && (l.q.waiters != [] ==> l.delivered == p.frames && Unread(l) == p.rest)
  {
    hide Inv, Run;
    InvThroughout(q, events);
    InvMeans(Run(q, events), q.buf + Arrived(events));
  }

  // ----- The loop gets there -----

  function Awaken(l: Loop, n: nat): Loop
    decreases n
  {
    if n == 0 then l else Awaken(OnWake(l, true), n - 1)
  }

  /** How many more times the loop can be woken without new bytes: each head it reads takes three bytes. */
  function Budget(l: Loop): nat {
    |InHand(l.q)| + |l.q.buf| + if l.phase.AwaitBody? then 1 else 0
  }

  lemma WakeSpends(l: Loop)
    requires !l.q.closed && Reading(l) && l.q.waiters == [] && Last(l.q).Resolved?
    ensures var l' := OnWake(l, true); Reading(l') && !l'.q.closed && Budget(l') < Budget(l)
  {
    var data := Last(l.q).data;
    if l.phase.AwaitHead? {
      ReadAlone(l.q, U16(data[0], data[1]));
    } else {
      ReadAlone(l.q, 3);
    }
  }

  /** An open queue has rejected nobody. */
  ghost predicate NoneRejected(q: Queue) {
    !q.closed ==> forall s :: s in q.settled ==> s.Resolved?
  }

  lemma {:induction false} DrainRejectsNone(q: Queue)
    requires NoneRejected(q)
    ensures NoneRejected(AfterDrain(q))
    decreases |q.waiters|
  {
    hide AfterDrain;
    DrainServes(q);
    if !Drained(q) {
      DrainRejectsNone(Serve(q));
    }
  }

  lemma ReadRejectsNone(q: Queue, n: nat)
    requires NoneRejected(q)
    ensures NoneRejected(AfterRead(q, n))
  {
    hide AfterDrain;
    DrainRejectsNone(q.(waiters := q.waiters + [Waiter(q.issued, n)], issued := q.issued + 1));
  }

  lemma PushRejectsNone(q: Queue, chunk: Bytes)
    requires NoneRejected(q)
    ensures NoneRejected(AfterPush(q, chunk))
  {
    hide AfterDrain;
    DrainRejectsNone(q.(buf := q.buf + chunk));
  }

  lemma WakeRejectsNone(l: Loop, connected: bool)
    requires NoneRejected(l.q)
    ensures NoneRejected(OnWake(l, connected).q)
  {
    hide AfterDrain;
    if l.q.waiters == [] && l.q.settled != [] && !l.phase.Stopped? && Last(l.q).Resolved? {
      var data := Last(l.q).data;
      ReadRejectsNone(l.q, 3);
      if |data| >= 2 {
        ReadRejectsNone(l.q, U16(data[0], data[1]));
      }
    }
  }

  lemma {:induction false} RunRejectsNone(q: Queue, events: seq<Event>)
    requires NoneRejected(q) && q.waiters == []
    ensures NoneRejected(Run(q, events).q)
  {
    hide AfterDrain;
    if events == [] {
      ReadRejectsNone(q, 3);
    } else {
      var before := events[..|events| - 1];
      RunRejectsNone(q, before);
      var l := Run(q, before);
      match events[|events| - 1] {
        case Arrive(chunk) => PushRejectsNone(l.q, chunk);
        case Shut =>
        case Wake(connected) => WakeRejectsNone(l, connected);
      }
    }
  }

  /** In every run, a loop that has not stopped and whose queue is open waits for more bytes after at most `Budget`
      more wake-ups; and then it has delivered every frame that has arrived. */
  lemma {:induction false} LoopWaitsInTheEnd(q: Queue, events: seq<Event>)
    requires q.waiters == [] && NoneRejected(q)
    requires var l := Run(q, events); !l.phase.Stopped? && !l.q.closed
    ensures var l := Run(q, events);
            exists n: nat :: n <= Budget(l) && AllDelivered(Awaken(l, n), q.buf + Arrived(events))
    decreases Budget(Run(q, events))
  {
    hide Run, Awaken, Budget, AfterDrain, InHand, AllDelivered, Deframe;
    var l, bytes := Run(q, events), q.buf + Arrived(events);
    LoopDeframes(q, events);
    if l.q.waiters != [] {
      Waiting(l, bytes);
      assert AllDelivered(Awaken(l, 0), bytes);
    } else {
      RunRejectsNone(q, events);
      assert Last(l.q) in l.q.settled;
      WakeSpends(l);
      var events' := events + [Wake(true)];
      RunSnoc(q, events, Wake(true));
      assert q.buf + Arrived(events') == bytes;
      LoopWaitsInTheEnd(q, events');
      var n: nat :| n <= Budget(Run(q, events')) && AllDelivered(Awaken(Run(q, events'), n), bytes);
      AwakenOnce(l, n);
      assert AllDelivered(Awaken(l, n + 1), bytes);
    }
  }

  /** Waiting, with every frame of these bytes delivered and exactly the rest unread. */
  ghost predicate AllDelivered(l: Loop, bytes: Bytes) {
    var p := Deframe(DEVICE_HEADER, bytes);
    l.q.waiters != [] && l.delivered == p.frames && Unread(l) == p.rest
  }

  lemma Waiting(l: Loop, bytes: Bytes)
    requires var p := Deframe(DEVICE_HEADER, bytes); l.q.waiters != [] && l.delivered == p.frames && Unread(l) == p.rest
    ensures AllDelivered(Awaken(l, 0), bytes)
  {
  }

  lemma AwakenOnce(l: Loop, n: nat)
    ensures Awaken(l, n + 1) == Awaken(OnWake(l, true), n)
  {
  }

  lemma RunSnoc(q: Queue, events: seq<Event>, e: Event)
    ensures Run(q, events + [e]) == Step(Run(q, events), e)
    ensures Arrived(events + [e]) == Arrived(events) + ArrivedIn(e)
  {
    assert (events + [e])[..|events|] == events;
  }

  /** `FrameReader.feed` on any chunking of the same bytes returns the same frames as the waiting loop. */
  lemma LoopAgreesWithFrameReader(q: Queue, events: seq<Event>, chunks: seq<Bytes>)
    requires q.waiters == [] && q.buf + Arrived(events) == Flatten(chunks)
    requires Run(q, events).q.waiters != []
    ensures Run(q, events).delivered == FeedAll([], chunks).frames
    ensures Unread(Run(q, events)) == FeedAll([], chunks).rest
  {
    LoopDeframes(q, events);
    ChunkingInvariance([], chunks);
    assert [] + Flatten(chunks) == Flatten(chunks);
  }
}
