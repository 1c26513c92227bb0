/** The worker pool of lib/crypto-pool.js: idle workers are a stack, waiting tasks a queue, `pending` the ids not
    yet settled in the order they were made.  `inbox[w]` are the messages posted to worker w that it has not
    answered; nothing here limits them to one, that is proved. */
module Pools {
  import opened Octets
  import opened JsMap
  import opened RsaCalls

  datatype Task = Task(id: nat, job: Job)

  datatype How = ByWorker(outcome: Outcome) | PoolClosed

  datatype Settle = Settle(id: nat, how: How)

  /** `close` sets the flag, waits for the workers to end, and only then rejects what is left. */
  datatype Phase = Open | Closing | Shut

  datatype Pool = Pool(
    phase: Phase, workers: nat, idle: seq<nat>, queue: seq<Task>, nextId: nat, pending: seq<nat>,
    inbox: seq<seq<Task>>, settled: seq<Settle>)

  datatype Stats = Stats(workers: nat, idle: nat, queued: nat, inflight: nat)

  // ----- Specification -----

  function NewPool(size: nat): Pool {
    Pool(Open, size, seq(size, i => i), [], 1, [], seq(size, _ => []), [])
  }

  function Post(p: Pool, w: nat, t: Task): Pool {
    if w >= |p.inbox| then p else p.(inbox := p.inbox[w := p.inbox[w] + [t]])
  }

  /** `_dispatch`: to the worker that became idle last, or to the end of the queue. */
  function Dispatch(p: Pool, job: Job): Pool {
    if !p.phase.Open? then p
    else
      var t := Task(p.nextId, job);
      var p1 := p.(nextId := p.nextId + 1, pending := p.pending + [p.nextId]);
      if p.idle == [] then p1.(queue := p.queue + [t])
      else Post(p1.(idle := p.idle[..|p.idle| - 1]), p.idle[|p.idle| - 1], t)
  }

  /** `_release`: the next task of the queue, or idle again. */
  function Release(p: Pool, w: nat): Pool {
    if p.queue == [] then p.(idle := p.idle + [w])
    else Post(p.(queue := p.queue[1..]), w, p.queue[0])
  }

  /** `_onMessage`: a reply under an id that is no longer pending is dropped. */
  function OnMessage(p: Pool, w: nat, id: nat, outcome: Outcome): Pool {
    if id !in p.pending then p
    else Release(p.(pending := Without(p.pending, id), settled := p.settled + [Settle(id, ByWorker(outcome))]), w)
  }

  function CloseBegins(p: Pool): Pool {
    if !p.phase.Open? then p else p.(phase := Closing, workers := 0, idle := [], queue := [])
  }

  function Rejections(ids: seq<nat>): seq<Settle> {
    if ids == [] then [] else [Settle(ids[0], PoolClosed)] + Rejections(ids[1..])
  }

  function CloseEnds(p: Pool): Pool {
    if !p.phase.Closing? then p
    else p.(phase := Shut, settled := p.settled + Rejections(p.pending), pending := [])
  }

  /** Worker w answers the first message in its inbox. */
  function Answer(p: Pool, w: nat, outcome: Outcome): Pool {
    if w >= |p.inbox| || p.inbox[w] == [] then p
    else OnMessage(p.(inbox := p.inbox[w := p.inbox[w][1..]]), w, p.inbox[w][0].id, outcome)
  }

  function StatsOf(p: Pool): Stats {
    Stats(p.workers, |p.idle|, |p.queue|, |p.pending|)
  }

  // ----- The object of the source -----

  class CryptoPool {
    var phase: Phase
    var workers: nat
    var idle: seq<nat>
    var queue: seq<Task>
    var nextId: nat
    var pending: seq<nat>
    var inbox: seq<seq<Task>>
    var settled: seq<Settle>

    ghost function Now(): Pool
      reads this
    {
      Pool.Pool(phase, workers, idle, queue, nextId, pending, inbox, settled)
    }

    constructor (size: nat)
      ensures Now() == NewPool(size)
    {
      phase, workers, queue, nextId, pending, settled := Open, size, [], 1, [], [];
      idle := seq(size, i => i);
      inbox := seq(size, _ => []);
    }

    method PostMessage(w: nat, t: Task)
      modifies this`inbox
      ensures Now() == Post(old(Now()), w, t)
    {
      if w < |inbox| {
        inbox := inbox[w := inbox[w] + [t]];
      }
    }

    /** Returns the id of the promise; `None` is a promise that is rejected from the start. */
    method DispatchJob(job: Job) returns (id: Option<nat>)
      modifies this
      ensures Now() == Dispatch(old(Now()), job)
      ensures id == if old(phase).Open? then Some(old(nextId)) else None
    {
      if phase != Open {
        return None;
      }
      var t := Task(nextId, job);
      id := Some(nextId);
      nextId := nextId + 1;
      pending := pending + [t.id];
      if |idle| > 0 {
        var w := idle[|idle| - 1];
        idle := idle[..|idle| - 1];
        PostMessage(w, t);
      } else {
        queue := queue + [t];
      }
    }

    method OnReply(w: nat, id: nat, outcome: Outcome)
      modifies this
      ensures Now() == OnMessage(old(Now()), w, id, outcome)
    {
      if id !in pending {
        return;
      }
      pending := Without(pending, id);
      settled := settled + [Settle(id, ByWorker(outcome))];
      ReleaseWorker(w);
    }

    method ReleaseWorker(w: nat)
      modifies this
      ensures Now() == Release(old(Now()), w)
    {
      if |queue| > 0 {
        var next := queue[0];
        queue := queue[1..];
        PostMessage(w, next);
      } else {
        idle := idle + [w];
      }
    }

    method Snapshot() returns (s: Stats)
      ensures s == StatsOf(Now())
    {
      s := Stats(workers, |idle|, |queue|, |pending|);
    }

    method BeginClose()
      modifies this
      ensures Now() == CloseBegins(old(Now()))
    {
      if phase == Open {
        phase := Closing;
        workers, idle, queue := 0, [], [];
      }
    }

    /** What `close` does once all workers have ended. */
    method EndClose()
      modifies this
      ensures Now() == CloseEnds(old(Now()))
    {
      if phase != Closing {
        return;
      }
      for i := 0 to |pending|
        invariant Now() == old(Now()).(settled := settled)
        invariant settled + Rejections(pending[i..]) == old(settled) + Rejections(pending)
      {
        var rest := Rejections(pending[i + 1..]);
        assert pending[i..][0] == pending[i] && pending[i..][1..] == pending[i + 1..];
        var one := Settle(pending[i], PoolClosed);
        assert settled + ([one] + rest) == (settled + [one]) + rest;
        settled := settled + [one];
      }
      assert settled + Rejections([]) == settled;
      phase := Shut;
      pending := [];
    }
  }
}
