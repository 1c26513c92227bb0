/** What the handshake reads (`readBytes(256)` and then one `readFrame`, stages 2 and 5 of lib/handshake.js) from
    the byte queue: bytes arrive in any pieces, the queue may be closed, and between a settled promise and the next
    read any time may pass. */
module HandshakeReads {
  import opened Octets
  import opened Chunking
  import opened ByteQueues
  import opened FrameLoop

  const BLOB_BYTES := 256

  datatype Stage =
    | AwaitBlob
    | AwaitHelloHead(blob: Bytes)
    | AwaitHello(blob: Bytes, head: Bytes)
    | Finished(blob: Bytes, head: Bytes, hello: Bytes)
    | Failed

  datatype Reader = Reader(q: Queue, stage: Stage)

  function Begin(q: Queue): Reader {
    Reader(AfterRead(q, BLOB_BYTES), AwaitBlob)
  }

  /** The handshake goes on with what the settled promise gives. */
  function GoesOn(r: Reader): Reader {
    if r.q.waiters != [] || r.q.settled == [] || r.stage.Finished? || r.stage.Failed? then r
    else
      match Last(r.q)
      case Rejected(_) => r.(stage := Failed)
      case Resolved(_, data) =>
        match r.stage
        case AwaitBlob => Reader(AfterRead(r.q, 3), AwaitHelloHead(data))
        case AwaitHelloHead(blob) =>
          if |data| < 2 then r.(stage := Failed)
          else Reader(AfterRead(r.q, U16(data[0], data[1])), AwaitHello(blob, data))
        case AwaitHello(blob, head) => r.(stage := Finished(blob, head, data))
        case _ => r
  }

  function Reading(r: Reader, e: Event): Reader {
    match e
    case Arrive(chunk) => r.(q := AfterPush(r.q, chunk))
    case Shut => r.(q := AfterClose(r.q))
    case Wake(_) => GoesOn(r)
  }

  function RunReads(q: Queue, events: seq<Event>): Reader {
    if events == [] then Begin(q) else Reading(RunReads(q, events[..|events| - 1]), events[|events| - 1])
  }

  // ----- What is accounted for -----

  function Taken(s: Stage): Bytes {
    match s
    case AwaitHelloHead(blob) => blob
    case AwaitHello(blob, head) => blob + head
    case Finished(blob, head, hello) => (blob + head) + hello
    case _ => []
  }

  /** The parts that were read have their sizes, and the running read asks for the next. */
  predicate Sized(r: Reader) {
    match r.stage
    case AwaitBlob => Demands(r.q, BLOB_BYTES)
    case AwaitHelloHead(blob) => |blob| == BLOB_BYTES && Demands(r.q, 3)
    case AwaitHello(blob, head) => |blob| == BLOB_BYTES && |head| == 3 && Demands(r.q, U16(head[0], head[1]))
    case Finished(blob, head, hello) =>
      |blob| == BLOB_BYTES && |head| == 3 && |hello| == U16(head[0], head[1]) && r.q.waiters == []
    case Failed => true
  }

  /** What has been read, what is in hand and what is left are the bytes that have arrived. */
  ghost predicate Accounted(r: Reader, bytes: Bytes) {
    r.stage.Failed? ||
    (Sized(r) && bytes == Taken(r.stage) + ((if r.stage.Finished? then [] else InHand(r.q)) + r.q.buf))
  }

  function Wanted(s: Stage): nat
    requires s.AwaitHello? ==> |s.head| == 3
  {
    match s
    case AwaitBlob => BLOB_BYTES
    case AwaitHello(_, head) => U16(head[0], head[1])
    case _ => 3
  }

  lemma BeginAccounts(q: Queue)
    requires q.waiters == []
    ensures Accounted(Begin(q), q.buf)
  {
    ReadAlone(q, BLOB_BYTES);
    assert [] + q.buf == q.buf;
  }

  lemma ArriveAccounts(r: Reader, bytes: Bytes, chunk: Bytes)
    requires Accounted(r, bytes)
    ensures Accounted(Reading(r, Arrive(chunk)), bytes + chunk)
  {
    hide InHand, Taken, Demands;
    if r.stage.Finished? {
      PushToNobody(r.q, chunk);
      Regroup(Taken(r.stage), [], r.q.buf, chunk);
    } else if !r.stage.Failed? {
      PushAlone(r.q, chunk, Wanted(r.stage));
      Regroup(Taken(r.stage), InHand(r.q), r.q.buf, chunk);
    }
  }

  lemma PushToNobody(q: Queue, chunk: Bytes)
    requires q.waiters == []
    ensures AfterPush(q, chunk) == q.(buf := q.buf + chunk)
  {
  }

  lemma Regroup(taken: Bytes, inHand: Bytes, buf: Bytes, chunk: Bytes)
    ensures (taken + (inHand + buf)) + chunk == taken + ((inHand + buf) + chunk)
    ensures (inHand + buf) + chunk == inHand + (buf + chunk)
  {
  }

  lemma ShutAccounts(r: Reader, bytes: Bytes)
    requires Accounted(r, bytes)
    ensures Accounted(Reading(r, Shut), bytes)
  {
    hide Taken;
    if !r.stage.Failed? && r.q.waiters != [] {
      DrainAlone(r.q.(closed := true), Wanted(r.stage));
      assert [] + r.q.buf == r.q.buf;
    }
  }

  lemma SettledIsInHand(q: Queue, want: nat)
    requires Demands(q, want) && q.waiters == [] && Last(q).Resolved?
    ensures InHand(q) == Last(q).data && |Last(q).data| == want
  {
  }

  lemma NextReadAccounts(q: Queue, taken: Bytes, data: Bytes, n: nat)
    requires q.waiters == []
    ensures var q' := AfterRead(q, n);
            Demands(q', n) && taken + (data + q.buf) == (taken + data) + (InHand(q') + q'.buf)
  {
    hide AfterRead, Demands, InHand;
    ReadAlone(q, n);
  }

  lemma GoesOnAccounts(r: Reader, bytes: Bytes)
    requires Accounted(r, bytes)
    ensures Accounted(GoesOn(r), bytes)
  {
    hide AfterRead, InHand;
    if !r.stage.Failed? && !r.stage.Finished? && r.q.waiters == [] && Last(r.q).Resolved? {
      var data := Last(r.q).data;
      SettledIsInHand(r.q, Wanted(r.stage));
      match r.stage {
        case AwaitBlob =>
          NextReadAccounts(r.q, [], data, 3);
          assert [] + data == data;
        case AwaitHelloHead(blob) => NextReadAccounts(r.q, blob, data, U16(data[0], data[1]));
        case AwaitHello(blob, head) => HelloAccounts(blob + head, data, r.q.buf);
      }
    }
  }

  lemma HelloAccounts(taken: Bytes, data: Bytes, buf: Bytes)
    ensures taken + (data + buf) == (taken + data) + ([] + buf)
  {
  }

  /** Over every run the bytes are accounted for. */
  lemma {:induction false} ReadsAccount(q: Queue, events: seq<Event>)
    requires q.waiters == []
    ensures Accounted(RunReads(q, events), q.buf + Arrived(events))
  {
    hide Accounted, Reading;
    if events == [] {
      BeginAccounts(q);
      assert q.buf + [] == q.buf;
    } else {
      var before, e := events[..|events| - 1], events[|events| - 1];
      ReadsAccount(q, before);
      var r, bytes := RunReads(q, before), q.buf + Arrived(before);
      assert q.buf + Arrived(events) == bytes + ArrivedIn(e);
      assert bytes + [] == bytes;
      match e {
        case Arrive(chunk) => ArriveAccounts(r, bytes, chunk);
        case Shut => ShutAccounts(r, bytes);
        case Wake(_) =>
          GoesOnAccounts(r, bytes);
          WakesAsGoesOn(r, e);
      }
    }
  }

  lemma WakesAsGoesOn(r: Reader, e: Event)
    requires e.Wake?
    ensures Reading(r, e) == GoesOn(r)
  {
  }

  // ----- What the device sent is what is read -----

  /** As long as what has arrived begins with what the device sends: its blob, one frame, and more. */
  lemma SentIsTaken(r: Reader, bytes: Bytes, blob: Bytes, hello: Bytes, rest: Bytes)
    requires Accounted(r, bytes) && !r.stage.Failed?
    requires |blob| == BLOB_BYTES && |hello| <= MAX_FRAME && bytes <= blob + (DeviceFrame(hello) + rest)
    ensures r.stage.AwaitHello? ==> U16(r.stage.head[0], r.stage.head[1]) == |hello|
    ensures r.stage.Finished? ==> r.stage.blob == blob && r.stage.hello == hello
    ensures r.stage.Finished? ==> bytes == blob + (DeviceFrame(hello) + r.q.buf)
  {
    hide InHand, Demands, DeviceFrame;
    if r.stage.AwaitHello? || r.stage.Finished? {
      var b, h, f := r.stage.blob, r.stage.head, DeviceFrame(hello);
      var x := if r.stage.Finished? then r.stage.hello + r.q.buf else InHand(r.q) + r.q.buf;
      FrameLayoutU16(hello);
      if r.stage.Finished? {
        TakenApart(b, h, r.stage.hello, r.q.buf);
      } else {
        TakenApart(b, h, [], x);
        assert [] + x == x;
      }
      assert f == f[..3] + hello;
      TakenApart([], f[..3], hello, rest);
      SameStart(b, h + x, blob, f[..3] + (hello + rest));
      SameStart(h, x, f[..3], hello + rest);
      if r.stage.Finished? {
        SameStart(r.stage.hello, r.q.buf, hello, rest);
        TakenApart([], f[..3], hello, r.q.buf);
      }
    }
  }

  lemma TakenApart(b: Bytes, h: Bytes, x: Bytes, buf: Bytes)
    ensures ((b + h) + x) + ([] + buf) == b + (h + (x + buf))
    ensures (b + h) + (x + buf) == b + (h + (x + buf))
    ensures (h + x) + buf == h + (x + buf)
  {
  }

  /** Beginnings of the same length of a string and a beginning of it are the same. */
  lemma SameStart(a: Bytes, x: Bytes, b: Bytes, y: Bytes)
    requires |a| == |b| && a + x <= b + y
    ensures a == b && x <= y
  {
    assert (a + x)[..|a|] == a && (b + y)[..|a|] == b;
    assert (a + x)[|a|..] == x && (b + y)[|a|..] == y;
    assert a + x == (b + y)[..|a + x|];
    assert x == y[..|x|];
  }

  lemma FrameLayoutU16(payload: Bytes)
    requires |payload| <= MAX_FRAME
    ensures var f := DeviceFrame(payload);
            |f| == 3 + |payload| && U16(f[0], f[1]) == |payload| && f[2] == SYNC_BYTE && f[3..] == payload
  {
  }

  /** In every run, with the device's bytes cut in any way: a handshake that has finished reading has read exactly the
      device's blob and its Hello, and has left in the queue exactly what arrived behind them. */
  lemma HandshakeReadsExactly(q: Queue, events: seq<Event>, blob: Bytes, hello: Bytes, rest: Bytes)
    requires q.waiters == [] && |blob| == 256 && |hello| <= MAX_FRAME
    ensures var r, bytes := RunReads(q, events), q.buf + Arrived(events);
            r.stage.Finished? && bytes <= blob + (DeviceFrame(hello) + rest) ==>
              && r.stage.blob == blob && r.stage.hello == hello
              && r.q.waiters == [] && bytes == blob + (DeviceFrame(hello) + r.q.buf)
  {
    hide RunReads, DeviceFrame;
    var r, bytes := RunReads(q, events), q.buf + Arrived(events);
    ReadsAccount(q, events);
    if r.stage.Finished? && bytes <= blob + (DeviceFrame(hello) + rest) {
      SentIsTaken(r, bytes, blob, hello, rest);
    }
  }

  // ----- And it gets there -----

  lemma GoesOnRejectsNone(r: Reader)
    requires NoneRejected(r.q)
    ensures NoneRejected(GoesOn(r).q) && GoesOn(r).q.closed == r.q.closed
  {
    hide AfterRead, NoneRejected;
    if r.q.waiters == [] && r.q.settled != [] && Last(r.q).Resolved? {
      var data := Last(r.q).data;
      ReadRejectsNone(r.q, 3);
      if |data| >= 2 {
        ReadRejectsNone(r.q, U16(data[0], data[1]));
      }
    }
  }

  lemma {:induction false} ReadsRejectNone(q: Queue, events: seq<Event>)
    requires NoneRejected(q)
    ensures NoneRejected(RunReads(q, events).q)
  {
    hide AfterRead, AfterPush, GoesOn;
    if events == [] {
      ReadRejectsNone(q, BLOB_BYTES);
    } else {
      var before := events[..|events| - 1];
      ReadsRejectNone(q, before);
      var r := RunReads(q, before);
      match events[|events| - 1] {
        case Arrive(chunk) => PushRejectsNone(r.q, chunk);
        case Shut =>
        case Wake(_) => GoesOnRejectsNone(r);
      }
    }
  }

  function GoesOnFor(r: Reader, n: nat): Reader
    decreases n
  {
    if n == 0 then r else GoesOnFor(GoesOn(r), n - 1)
  }

  function Left(s: Stage): nat {
    match s
    case AwaitBlob => 3
    case AwaitHelloHead(_) => 2
    case AwaitHello(_, _) => 1
    case _ => 0
  }

  /** With enough bytes there, no read of an open queue is left waiting, and each settled one leads to the next. */
  lemma {:induction false} ReadsFinish(r: Reader, blob: Bytes, hello: Bytes, rest: Bytes)
    requires |blob| == BLOB_BYTES && |hello| <= MAX_FRAME
    requires Accounted(r, blob + (DeviceFrame(hello) + rest))
    requires !r.stage.Failed? && !r.q.closed && NoneRejected(r.q)
    ensures GoesOnFor(r, Left(r.stage)).stage.Finished?
    decreases Left(r.stage)
  {
    hide AfterRead, DeviceFrame;
    if !r.stage.Finished? {
      var bytes := blob + (DeviceFrame(hello) + rest);
      FrameLayoutU16(hello);
      SentIsTaken(r, bytes, blob, hello, rest);
      assert r.q.waiters == [];
      assert Last(r.q) in r.q.settled;
      GoesOnAccounts(r, bytes);
      GoesOnRejectsNone(r);
      ReadsFinish(GoesOn(r), blob, hello, rest);
    }
  }

  lemma OpenGoesOn(r: Reader, bytes: Bytes)
    requires Accounted(r, bytes) && NoneRejected(r.q) && !r.q.closed && !r.stage.Failed?
    ensures !GoesOn(r).stage.Failed?
  {
    hide AfterRead, InHand;
    if r.q.waiters == [] && r.q.settled != [] {
      assert Last(r.q) in r.q.settled;
      if !r.stage.Finished? {
        SettledIsInHand(r.q, Wanted(r.stage));
      }
    }
  }

  lemma {:induction false} OpenNeverFails(q: Queue, events: seq<Event>)
    requires q.waiters == [] && NoneRejected(q)
    ensures !RunReads(q, events).q.closed ==> !RunReads(q, events).stage.Failed?
  {
    hide AfterRead, AfterPush, GoesOn, Accounted, NoneRejected;
    if events != [] {
      var before := events[..|events| - 1];
      var r := RunReads(q, before);
      OpenNeverFails(q, before);
      ReadsAccount(q, before);
      ReadsRejectNone(q, before);
      if events[|events| - 1].Wake? && !r.q.closed {
        OpenGoesOn(r, q.buf + Arrived(before));
      }
      GoesOnRejectsNone(r);
    }
  }

  /** In every run whose queue is open: once the device's blob and Hello have arrived, in whatever pieces and whatever
      behind them, at most three more settled promises finish the handshake's reading. */
  lemma HandshakeReadsFinish(q: Queue, events: seq<Event>, blob: Bytes, hello: Bytes, rest: Bytes)
    requires q.waiters == [] && NoneRejected(q) && |blob| == 256 && |hello| <= MAX_FRAME
    ensures var r := RunReads(q, events);
            !r.q.closed && q.buf + Arrived(events) == blob + (DeviceFrame(hello) + rest) ==>
              Left(r.stage) <= 3 && GoesOnFor(r, Left(r.stage)).stage.Finished?
  {
    hide RunReads, DeviceFrame, Accounted, NoneRejected, GoesOnFor;
    var r := RunReads(q, events);
    ReadsAccount(q, events);
    ReadsRejectNone(q, events);
    OpenNeverFails(q, events);
    if !r.q.closed && q.buf + Arrived(events) == blob + (DeviceFrame(hello) + rest) {
      ReadsFinish(r, blob, hello, rest);
    }
  }
}
