/** The `ByteQueue` of lib/session.js: bytes pushed by the socket on one side, exact-size reads on the other.
    A read returns a promise; here the promise of the i-th read is the number i, and settling it is an entry
    in `settled`. */
module ByteQueues {
  import opened Octets

  datatype Waiter = Waiter(id: nat, want: nat)

  datatype Settled = Resolved(id: nat, data: Bytes) | Rejected(id: nat)

  datatype Queue = Queue(buf: Bytes, waiters: seq<Waiter>, closed: bool, issued: nat, settled: seq<Settled>)

  const EMPTY := Queue([], [], false, 0, [])

  // ----- Specification of the operations -----

  /** Serve waiters from the head for as long as the head can be served or the queue is closed. */
  function AfterDrain(q: Queue): (r: Queue)
    ensures r.closed == q.closed
    decreases |q.waiters|
  {
    if q.waiters == [] then q
    else
      var w, rest := q.waiters[0], q.waiters[1..];
      if |q.buf| >= w.want then
        var out := Resolved(w.id, q.buf[..w.want]);
        AfterDrain(q.(waiters := rest, buf := q.buf[w.want..], settled := q.settled + [out]))
      else if q.closed then
        AfterDrain(q.(waiters := rest, settled := q.settled + [Rejected(w.id)]))
      else q
  }

  function AfterPush(q: Queue, b: Bytes): (r: Queue)
    ensures r.closed == q.closed
  {
    AfterDrain(q.(buf := q.buf + b))
  }

  function AfterClose(q: Queue): Queue { AfterDrain(q.(closed := true)) }

  function AfterRead(q: Queue, n: nat): (r: Queue)
    ensures r.closed == q.closed
  {
    AfterDrain(q.(waiters := q.waiters + [Waiter(q.issued, n)], issued := q.issued + 1))
  }

  // ----- What every run keeps -----

  datatype Op = OpPush(b: Bytes) | OpRead(n: nat) | OpClose

  function Run(ops: seq<Op>): Queue {
    if ops == [] then EMPTY
    else
      Step(Run(ops[..|ops| - 1]), ops[|ops| - 1])
  }

  function Step(q: Queue, op: Op): Queue {
    match op
    case OpPush(b) => AfterPush(q, b)
    case OpRead(n) => AfterRead(q, n)
    case OpClose => AfterClose(q)
  }

  function PushedBy(op: Op): Bytes { if op.OpPush? then op.b else [] }

  function WantedBy(op: Op): seq<nat> { if op.OpRead? then [op.n] else [] }

  function Pushed(ops: seq<Op>): Bytes {
    if ops == [] then []
    else Pushed(ops[..|ops| - 1]) + PushedBy(ops[|ops| - 1])
  }

  function Wants(ops: seq<Op>): seq<nat> {
    if ops == [] then []
    else Wants(ops[..|ops| - 1]) + WantedBy(ops[|ops| - 1])
  }

  /** The bytes handed to readers, in the order the reads were settled. */
  function Delivered(settled: seq<Settled>): Bytes {
    if settled == [] then []
    else
      var s := settled[|settled| - 1];
      Delivered(settled[..|settled| - 1]) + if s.Resolved? then s.data else []
  }

  /** `s` is how read number `i`, which asked for `want` bytes, ended. */
  predicate Answers(s: Settled, i: nat, want: nat, closed: bool) {
    s.id == i && (s.Resolved? ==> |s.data| == want) && (s.Rejected? ==> closed)
  }

  ghost predicate Accounts(q: Queue, pushed: Bytes, wants: seq<nat>) {
    && pushed == Delivered(q.settled) + q.buf
    && q.issued == |wants| == |q.settled| + |q.waiters|
    && (forall i :: 0 <= i < |q.settled| ==> Answers(q.settled[i], i, wants[i], q.closed))
    && (forall i :: 0 <= i < |q.waiters| ==> q.waiters[i] == Waiter(|q.settled| + i, wants[|q.settled| + i]))
  }

  /** Nobody waits, or the queue is open and the first waiter asks for more than there is. */
  predicate Drained(q: Queue) {
    q.waiters == [] || (!q.closed && |q.buf| < q.waiters[0].want)
  }

  /** The first waiter is resolved from the buffer, or rejected. */
  function Serve(q: Queue): Queue
    requires !Drained(q)
  {
    var w, rest := q.waiters[0], q.waiters[1..];
    if |q.buf| >= w.want then
      q.(waiters := rest, buf := q.buf[w.want..], settled := q.settled + [Resolved(w.id, q.buf[..w.want])])
    else
      q.(waiters := rest, settled := q.settled + [Rejected(w.id)])
  }

  lemma DrainServes(q: Queue)
    ensures AfterDrain(q) == if Drained(q) then q else AfterDrain(Serve(q))
  {
  }

  lemma DeliveredSnoc(settled: seq<Settled>, s: Settled)
    ensures Delivered(settled + [s]) == Delivered(settled) + if s.Resolved? then s.data else []
  {
    assert (settled + [s])[..|settled|] == settled;
  }

  lemma ServeKeepsAccounts(q: Queue, pushed: Bytes, wants: seq<nat>)
    requires Accounts(q, pushed, wants) && !Drained(q)
    ensures Accounts(Serve(q), pushed, wants)
  {
    hide Delivered;
    var q' := Serve(q);
    var s := q'.settled[|q.settled|];
    DeliveredSnoc(q.settled, s);
    assert Delivered(q'.settled) + q'.buf == Delivered(q.settled) + q.buf;
  }

  lemma {:induction false} DrainKeepsAccounts(q: Queue, pushed: Bytes, wants: seq<nat>)
    requires Accounts(q, pushed, wants)
    ensures Accounts(AfterDrain(q), pushed, wants) && Drained(AfterDrain(q))
    decreases |q.waiters|
  {
    hide AfterDrain, Accounts;
    DrainServes(q);
    if !Drained(q) {
      ServeKeepsAccounts(q, pushed, wants);
      DrainKeepsAccounts(Serve(q), pushed, wants);
    }
  }

  lemma ClosedQueueRejects(q: Queue, n: nat)
    requires q.closed && q.waiters == [] && |q.buf| < n
    ensures AfterRead(q, n).waiters == [] && AfterRead(q, n).settled == q.settled + [Rejected(q.issued)]
  {
    hide AfterDrain;
    var q' := q.(waiters := q.waiters + [Waiter(q.issued, n)], issued := q.issued + 1);
    DrainServes(q');
    DrainServes(Serve(q'));
  }

  /** What an operation does before it drains. */
  function Before(q: Queue, op: Op): Queue {
    match op
    case OpPush(b) => q.(buf := q.buf + b)
    case OpRead(n) => q.(waiters := q.waiters + [Waiter(q.issued, n)], issued := q.issued + 1)
    case OpClose => q.(closed := true)
  }

  lemma StepDrains(q: Queue, op: Op)
    ensures Step(q, op) == AfterDrain(Before(q, op))
  {
    hide AfterDrain;
  }

  lemma BeforeKeepsAccounts(q: Queue, pushed: Bytes, wants: seq<nat>, op: Op)
    requires Accounts(q, pushed, wants)
    ensures Accounts(Before(q, op), pushed + PushedBy(op), wants + WantedBy(op))
    ensures Before(q, op).closed == (q.closed || op.OpClose?)
  {
    hide Delivered;
    assert Delivered(q.settled) + (q.buf + PushedBy(op)) == pushed + PushedBy(op);
    assert q.buf + [] == q.buf && wants + [] == wants;
  }

  lemma StepKeepsAccounts(q: Queue, pushed: Bytes, wants: seq<nat>, op: Op)
    requires Accounts(q, pushed, wants)
    ensures Accounts(Step(q, op), pushed + PushedBy(op), wants + WantedBy(op))
    ensures Drained(Step(q, op))
    ensures Step(q, op).closed == (q.closed || op.OpClose?)
  {
    hide Accounts, Drained, AfterDrain, Before, Step;
    StepDrains(q, op);
    BeforeKeepsAccounts(q, pushed, wants, op);
    DrainKeepsAccounts(Before(q, op), pushed + PushedBy(op), wants + WantedBy(op));
  }

  /** Conservation over every interleaving of pushes, reads and closes: reads are settled in the order they were
      made; each resolved read gets exactly the bytes it asked for, cut from the stream without gap or overlap;
      only a closed queue rejects; and no read is left waiting that could be settled. */
  lemma {:induction false} Conservation(ops: seq<Op>)
    ensures Accounts(Run(ops), Pushed(ops), Wants(ops))
    ensures Drained(Run(ops))
    ensures Run(ops).closed <==> OpClose in ops
  {
    if ops != [] {
      var before, op := ops[..|ops| - 1], ops[|ops| - 1];
      assert ops == before + [op];
      Conservation(before);
      StepKeepsAccounts(Run(before), Pushed(before), Wants(before), op);
    }
  }

  // ----- The object of the source -----

  class ByteQueue {
    var buf: Bytes
    var waiters: seq<Waiter>
    var closed: bool
    var issued: nat
    var settled: seq<Settled>

    ghost function State(): Queue
      reads this
    {
      Queue(buf, waiters, closed, issued, settled)
    }

    constructor ()
      ensures State() == EMPTY
    {
      buf, waiters, closed, issued, settled := [], [], false, 0, [];
    }

    method Push(b: Bytes)
      modifies this
      ensures State() == AfterPush(old(State()), b)
    {
      buf := buf + b;
      Drain();
    }

    method Close()
      modifies this
      ensures State() == AfterClose(old(State()))
    {
      closed := true;
      Drain();
    }

    method Read(n: nat) returns (id: nat)
      modifies this
      ensures id == old(issued) && State() == AfterRead(old(State()), n)
    {
      id := issued;
      waiters := waiters + [Waiter(id, n)];
      issued := issued + 1;
      Drain();
    }

    method Drain()
      modifies this
      ensures State() == AfterDrain(old(State()))
    {
      while |waiters| > 0
        invariant AfterDrain(State()) == AfterDrain(old(State()))
        decreases |waiters|
      {
        var w := waiters[0];
        if |buf| >= w.want {
          waiters := waiters[1..];
          var out := buf[..w.want];
          buf := buf[w.want..];
          settled := settled + [Resolved(w.id, out)];
        } else if closed {
          waiters := waiters[1..];
          settled := settled + [Rejected(w.id)];
        } else {
          break;
        }
      }
    }
  }
}
