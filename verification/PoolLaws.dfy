/** What the worker pool keeps over every run of dispatches, replies and closing. */
module PoolLaws {
  import opened Octets
  import opened JsMap
  import opened RsaCalls
  import opened Pools

  datatype Step = Call(job: Job) | Reply(w: nat, outcome: Outcome) | BeginClose | EndClose

  function Next(p: Pool, s: Step): Pool {
    match s
    case Call(job) => Dispatch(p, job)
    case Reply(w, outcome) => Answer(p, w, outcome)
    case BeginClose => CloseBegins(p)
    case EndClose => CloseEnds(p)
  }

  function Run(p: Pool, steps: seq<Step>): Pool {
    if steps == [] then p else Next(Run(p, steps[..|steps| - 1]), steps[|steps| - 1])
  }

  // ----- Conservation -----

  function TaskIds(ts: seq<Task>): multiset<nat> {
    if ts == [] then multiset{} else multiset{ts[0].id} + TaskIds(ts[1..])
  }

  /** The ids of all messages posted to workers and not answered. */
  function PostedIds(inbox: seq<seq<Task>>): multiset<nat> {
    if inbox == [] then multiset{} else TaskIds(inbox[0]) + PostedIds(inbox[1..])
  }

  function SettledIds(s: seq<Settle>): multiset<nat> {
    if s == [] then multiset{} else multiset{s[0].id} + SettledIds(s[1..])
  }

  /** The ids handed out so far: 1, 2, up to the next. */
  function Issued(next: nat): multiset<nat> {
    if next <= 1 then multiset{} else Issued(next - 1) + multiset{next - 1}
  }

  /** Every id handed out is pending or settled, and exactly once. */
  ghost predicate Accounted(p: Pool) {
    && p.nextId >= 1
    && multiset(p.pending) + SettledIds(p.settled) == Issued(p.nextId)
  }

  /** The pending ids are the queued and the posted ones. */
  ghost predicate Partitioned(p: Pool) {
    multiset(p.pending) == TaskIds(p.queue) + PostedIds(p.inbox)
  }

  /** No id is both queued and posted, and none is queued, posted or pending twice. */
  ghost predicate NoOverlap(p: Pool) {
    && TaskIds(p.queue) !! PostedIds(p.inbox)
    && forall id: nat :: TaskIds(p.queue)[id] <= 1 && PostedIds(p.inbox)[id] <= 1 && multiset(p.pending)[id] <= 1
  }

  /** Each worker is idle, once, with an empty inbox, or holds exactly one task. */
  ghost predicate WorkersBusy(p: Pool) {
    && (forall i, j :: 0 <= i < j < |p.idle| ==> p.idle[i] != p.idle[j])
    && (forall w :: w in p.idle ==> w < |p.inbox|)
    && (forall w :: 0 <= w < |p.inbox| ==> |p.inbox[w]| == if w in p.idle then 0 else 1)
  }

  ghost predicate Inv(p: Pool) {
    && Accounted(p)
    && (p.phase.Open? ==>
          && Partitioned(p) && WorkersBusy(p)
          && p.workers == |p.inbox|
          && (p.queue != [] ==> p.idle == [])
          && |p.idle| + |p.pending| == p.workers + |p.queue|)
    && (!p.phase.Open? ==> p.queue == [])
    && (p.phase.Shut? ==> p.pending == [])
  }

  lemma {:induction false} TaskIdsAppend(a: seq<Task>, t: Task)
    ensures TaskIds(a + [t]) == TaskIds(a) + multiset{t.id}
  {
    if a != [] {
      assert (a + [t])[1..] == a[1..] + [t];
      TaskIdsAppend(a[1..], t);
    }
  }

  lemma {:induction false} SettledIdsAppend(a: seq<Settle>, b: seq<Settle>)
    ensures SettledIds(a + b) == SettledIds(a) + SettledIds(b)
  {
    if a == [] {
      assert a + b == b;
    } else {
      assert (a + b)[1..] == a[1..] + b;
      SettledIdsAppend(a[1..], b);
    }
  }

  lemma {:induction false} RejectionIds(ids: seq<nat>)
    ensures SettledIds(Rejections(ids)) == multiset(ids)
  {
    if ids != [] {
      RejectionIds(ids[1..]);
      assert ids == [ids[0]] + ids[1..];
    }
  }

  lemma {:induction false} PostedUpdate(inbox: seq<seq<Task>>, w: nat, ts: seq<Task>)
    requires w < |inbox|
    ensures PostedIds(inbox[w := ts]) + TaskIds(inbox[w]) == PostedIds(inbox) + TaskIds(ts)
  {
    hide TaskIds;
    var r, t := inbox[w := ts], inbox[1..];
    assert r[1..] == if w == 0 then t else t[w - 1 := ts];
    if w == 0 {
      Regroup(PostedIds(t), multiset{}, TaskIds(ts), TaskIds(inbox[0]));
    } else {
      PostedUpdate(t, w - 1, ts);
      Regroup(TaskIds(inbox[0]), PostedIds(r[1..]), PostedIds(t), TaskIds(inbox[w]));
      assert (TaskIds(inbox[0]) + PostedIds(r[1..])) + TaskIds(inbox[w]) ==
             TaskIds(inbox[0]) + (PostedIds(t) + TaskIds(ts));
    }
  }

  lemma Regroup(a: multiset<nat>, x: multiset<nat>, y: multiset<nat>, z: multiset<nat>)
    ensures (a + x) + z == a + (x + z)
    ensures (y + a) + z == (z + a) + y
  {
  }

  lemma {:induction false} NothingPosted(inbox: seq<seq<Task>>)
    requires forall w :: 0 <= w < |inbox| ==> inbox[w] == []
    ensures PostedIds(inbox) == multiset{}
  {
    if inbox != [] {
      NothingPosted(inbox[1..]);
    }
  }

  lemma {:induction false} WithoutOne(s: seq<nat>, x: nat)
    requires x in s
    ensures multiset(Without(s, x)) + multiset{x} == multiset(s) && |Without(s, x)| == |s| - 1
  {
    assert s == [s[0]] + s[1..];
    if s[0] != x {
      WithoutOne(s[1..], x);
    }
  }

  /** Posting adds the id to the posted ones. */
  lemma PostOne(inbox: seq<seq<Task>>, w: nat, t: Task)
    requires w < |inbox|
    ensures PostedIds(inbox[w := inbox[w] + [t]]) == PostedIds(inbox) + multiset{t.id}
  {
    hide PostedIds;
    TaskIdsAppend(inbox[w], t);
    PostedUpdate(inbox, w, inbox[w] + [t]);
    Cancel(PostedIds(inbox[w := inbox[w] + [t]]), PostedIds(inbox) + multiset{t.id}, TaskIds(inbox[w]));
  }

  /** Answering takes it away. */
  lemma AnswerOne(inbox: seq<seq<Task>>, w: nat)
    requires w < |inbox| && |inbox[w]| == 1
    ensures PostedIds(inbox[w := inbox[w][1..]]) + multiset{inbox[w][0].id} == PostedIds(inbox)
  {
    PostedUpdate(inbox, w, inbox[w][1..]);
    assert inbox[w][1..] == [] && TaskIds(inbox[w]) == multiset{inbox[w][0].id};
  }

  lemma Cancel(a: multiset<nat>, b: multiset<nat>, c: multiset<nat>)
    requires a + c == b + c
    ensures a == b
  {
    forall x ensures a[x] == b[x] {
      assert (a + c)[x] == (b + c)[x];
    }
  }

  lemma NewPoolInv(size: nat)
    ensures Inv(NewPool(size))
  {
    var p := NewPool(size);
    NothingPosted(p.inbox);
    forall w | 0 <= w < size ensures w in p.idle {
      assert p.idle[w] == w;
    }
  }

  lemma CallAccounts(p: Pool, job: Job)
    requires Accounted(p)
    ensures Accounted(Dispatch(p, job))
  {
    hide Post, Issued, SettledIds;
    if p.phase.Open? {
      IssuedNext(p.nextId);
      assert multiset(p.pending + [p.nextId]) == multiset(p.pending) + multiset{p.nextId};
      PostKeeps(p, p.nextId, job);
    }
  }

  lemma IssuedNext(n: nat)
    requires n >= 1
    ensures Issued(n + 1) == Issued(n) + multiset{n}
  {
  }

  lemma PostKeeps(p: Pool, id: nat, job: Job)
    requires p.phase.Open? && id == p.nextId
    ensures var p' := Dispatch(p, job);
            p'.nextId == id + 1 && p'.pending == p.pending + [id] && p'.settled == p.settled
  {
  }

  lemma CallPartitions(p: Pool, job: Job)
    requires Partitioned(p) && p.phase.Open? && forall w :: w in p.idle ==> w < |p.inbox|
    ensures Partitioned(Dispatch(p, job))
  {
    hide TaskIds, PostedIds;
    var t := Task(p.nextId, job);
    if p.idle == [] {
      TaskIdsAppend(p.queue, t);
    } else {
      assert p.idle[|p.idle| - 1] in p.idle;
      PostOne(p.inbox, p.idle[|p.idle| - 1], t);
    }
    assert multiset(p.pending + [t.id]) == multiset(p.pending) + multiset{t.id};
  }

  lemma CallIdle(p: Pool)
    requires WorkersBusy(p)
    ensures forall w :: w in p.idle ==> w < |p.inbox|
  {
  }

  lemma CallOccupies(p: Pool, job: Job)
    requires WorkersBusy(p) && p.phase.Open?
    ensures WorkersBusy(Dispatch(p, job))
  {
    if p.idle != [] {
      var w, rest := p.idle[|p.idle| - 1], p.idle[..|p.idle| - 1];
      assert p.idle == rest + [w];
      assert forall v :: v in p.idle <==> v in rest || v == w;
      assert forall v :: v in rest ==> v != w;
    }
  }

  lemma CallKeeps(p: Pool, job: Job)
    requires Inv(p)
    ensures Inv(Dispatch(p, job))
  {
    hide Accounted, Partitioned, WorkersBusy;
    CallAccounts(p, job);
    if p.phase.Open? {
      CallIdle(p);
      CallPartitions(p, job);
      CallOccupies(p, job);
    }
  }

  lemma SettleAccounts(p: Pool, w: nat, id: nat, outcome: Outcome)
    requires Accounted(p)
    ensures Accounted(OnMessage(p, w, id, outcome))
  {
    hide Without, Release, SettledIds, Issued;
    if id in p.pending {
      WithoutOne(p.pending, id);
      SettledIdsAppend(p.settled, [Settle(id, ByWorker(outcome))]);
      OneSettledId(Settle(id, ByWorker(outcome)));
      ReleaseKeeps(p.(pending := Without(p.pending, id), settled := p.settled + [Settle(id, ByWorker(outcome))]), w);
      assert multiset(Without(p.pending, id)) + (SettledIds(p.settled) + multiset{id}) ==
             multiset(p.pending) + SettledIds(p.settled);
    }
  }

  lemma OneSettledId(x: Settle)
    ensures SettledIds([x]) == multiset{x.id}
  {
  }

  lemma ReleaseKeeps(p: Pool, w: nat)
    ensures var p' := Release(p, w); p'.pending == p.pending && p'.settled == p.settled && p'.nextId == p.nextId
  {
  }

  lemma QueueFront(queue: seq<Task>)
    requires queue != []
    ensures TaskIds(queue) == multiset{queue[0].id} + TaskIds(queue[1..])
  {
  }

  /** What a reply does to the queue and to the messages in flight, seen as ids. */
  lemma AnswerTakesOne(p: Pool, w: nat, outcome: Outcome)
    requires w < |p.inbox| && |p.inbox[w]| == 1 && p.inbox[w][0].id in p.pending
    ensures var id, p' := p.inbox[w][0].id, Answer(p, w, outcome);
            && p'.pending == Without(p.pending, id)
            && (TaskIds(p'.queue) + PostedIds(p'.inbox)) + multiset{id} == TaskIds(p.queue) + PostedIds(p.inbox)
  {
    hide PostedIds, TaskIds, Without;
    var inbox := p.inbox[w := p.inbox[w][1..]];
    AnswerOne(p.inbox, w);
    if p.queue != [] {
      PostOne(inbox, w, p.queue[0]);
      QueueFront(p.queue);
    }
  }

  /** The reply of a worker that holds one task, while open. */
  lemma AnswerPartitions(p: Pool, w: nat, outcome: Outcome)
    requires Partitioned(p) && WorkersBusy(p) && w < |p.inbox| && |p.inbox[w]| == 1
    ensures p.inbox[w][0].id in p.pending
    ensures Partitioned(Answer(p, w, outcome))
  {
    hide PostedIds, TaskIds, Without, Answer, WorkersBusy;
    var id := p.inbox[w][0].id;
    AnswerOne(p.inbox, w);
    assert id in PostedIds(p.inbox);
    assert id in multiset(p.pending);
    WithoutOne(p.pending, id);
    AnswerTakesOne(p, w, outcome);
    var p' := Answer(p, w, outcome);
    Cancel(multiset(p'.pending), TaskIds(p'.queue) + PostedIds(p'.inbox), multiset{id});
  }

  lemma AnswerFrees(p: Pool, w: nat, outcome: Outcome)
    requires WorkersBusy(p) && w < |p.inbox| && |p.inbox[w]| == 1 && p.inbox[w][0].id in p.pending
    requires p.queue != [] ==> p.idle == []
    ensures var p' := Answer(p, w, outcome);
            && WorkersBusy(p')
            && |p'.pending| == |p.pending| - 1 && |p'.inbox| == |p.inbox|
            && (if p.queue == [] then p'.queue == [] && p'.idle == p.idle + [w]
                else p'.queue == p.queue[1..] && p'.idle == p.idle && p'.inbox[w] == [p.queue[0]])
  {
    WithoutOne(p.pending, p.inbox[w][0].id);
    assert w !in p.idle;
  }

  lemma AnswerKeeps(p: Pool, w: nat, outcome: Outcome)
    requires Inv(p)
    ensures Inv(Answer(p, w, outcome))
  {
    hide Accounted, Partitioned;
    if w < |p.inbox| && p.inbox[w] != [] {
      SettleAccountsAnswer(p, w, outcome);
      if p.phase.Open? {
        AnswerPartitions(p, w, outcome);
        AnswerFrees(p, w, outcome);
      }
    }
  }

  lemma SettleAccountsAnswer(p: Pool, w: nat, outcome: Outcome)
    requires Accounted(p)
    ensures Accounted(Answer(p, w, outcome))
  {
    if w < |p.inbox| && p.inbox[w] != [] {
      SettleAccounts(p.(inbox := p.inbox[w := p.inbox[w][1..]]), w, p.inbox[w][0].id, outcome);
    }
  }

  lemma CloseEndsKeeps(p: Pool)
    requires Inv(p)
    ensures Inv(CloseEnds(p))
  {
    SettledIdsAppend(p.settled, Rejections(p.pending));
    RejectionIds(p.pending);
  }

  lemma StepKeeps(p: Pool, s: Step)
    requires Inv(p)
    ensures Inv(Next(p, s))
  {
    hide Dispatch, Answer, CloseEnds;
    match s {
      case Call(job) => CallKeeps(p, job);
      case Reply(w, outcome) => AnswerKeeps(p, w, outcome);
      case BeginClose =>
      case EndClose => CloseEndsKeeps(p);
    }
  }

  lemma {:induction false} RunKeeps(p: Pool, steps: seq<Step>)
    requires Inv(p)
    ensures Inv(Run(p, steps))
  {
    hide Inv, Next;
    if steps != [] {
      RunKeeps(p, steps[..|steps| - 1]);
      StepKeeps(Run(p, steps[..|steps| - 1]), steps[|steps| - 1]);
    }
  }

  /** Pool conservation in every reachable open state: each worker is idle or holds exactly one task; the pending
      ids are the disjoint union of the queued and the posted ones; a task waits only if no worker is idle; and
      the numbers of `stats` balance. */
  lemma Conservation(size: nat, steps: seq<Step>)
    requires Run(NewPool(size), steps).phase.Open?
    ensures var p := Run(NewPool(size), steps);
            && WorkersBusy(p) && Partitioned(p) && NoOverlap(p)
            && (p.queue != [] ==> p.idle == [])
            && var s := StatsOf(p); s.idle + s.inflight == s.workers + s.queued
  {
    NewPoolInv(size);
    RunKeeps(NewPool(size), steps);
    var p := Run(NewPool(size), steps);
    forall id: nat ensures (TaskIds(p.queue) + PostedIds(p.inbox))[id] <= 1 {
      IssuedOnce(p.nextId, id);
      assert (multiset(p.pending) + SettledIds(p.settled))[id] == Issued(p.nextId)[id];
    }
    NeverTwice(TaskIds(p.queue), PostedIds(p.inbox));
  }

  lemma NeverTwice(a: multiset<nat>, b: multiset<nat>)
    requires forall id: nat :: (a + b)[id] <= 1
    ensures a !! b && forall id: nat :: a[id] <= 1 && b[id] <= 1
  {
    forall id: nat ensures a[id] + b[id] <= 1 {
      assert (a + b)[id] <= 1;
    }
  }

  lemma {:induction false} IssuedOnce(next: nat, id: nat)
    ensures Issued(next)[id] == if 1 <= id < next then 1 else 0
  {
    if next > 1 {
      IssuedOnce(next - 1, id);
    }
  }

  /** Exactly once: over every run, late replies and closing included, an id is never settled twice, and it is
      settled exactly if it was handed out and is no longer pending; once closing has finished nothing is. */
  lemma ExactlyOnce(size: nat, steps: seq<Step>, id: nat)
    ensures var p := Run(NewPool(size), steps);
            && SettledIds(p.settled)[id] <= 1
            && (id in SettledIds(p.settled) <==> 1 <= id < p.nextId && id !in p.pending)
            && (p.phase.Shut? ==> p.pending == [])
  {
    NewPoolInv(size);
    RunKeeps(NewPool(size), steps);
    var p := Run(NewPool(size), steps);
    IssuedOnce(p.nextId, id);
    assert (multiset(p.pending) + SettledIds(p.settled))[id] == Issued(p.nextId)[id];
    assert id in p.pending <==> id in multiset(p.pending);
  }

  // ----- How promises end -----

  /** Rejected as closed are only promises of a pool whose closing has finished. */
  ghost predicate ClosedOnlyAtTheEnd(p: Pool) {
    forall x :: x in p.settled && x.how.PoolClosed? ==> p.phase.Shut?
  }

  lemma {:induction false} RejectionsMean(ids: seq<nat>)
    ensures |Rejections(ids)| == |ids|
    ensures forall i :: 0 <= i < |ids| ==> Rejections(ids)[i] == Settle(ids[i], PoolClosed)
  {
    if ids != [] {
      RejectionsMean(ids[1..]);
    }
  }

  lemma StepEndsRight(p: Pool, s: Step)
    requires ClosedOnlyAtTheEnd(p)
    ensures ClosedOnlyAtTheEnd(Next(p, s))
  {
    hide Without;
    RejectionsMean(p.pending);
  }

  /** In every run: a promise is rejected as closed only once closing has finished; and finishing it rejects exactly
      the promises that are still pending, in the order they were made, and leaves none. */
  lemma {:induction false} ClosingRejectsTheRest(size: nat, steps: seq<Step>)
    ensures var p := Run(NewPool(size), steps);
            && (forall x :: x in p.settled && x.how.PoolClosed? ==> p.phase.Shut?)
            && var p' := Run(NewPool(size), steps + [EndClose]);
               p.phase.Closing? ==>
                 && p'.phase.Shut? && p'.pending == [] && |p'.settled| == |p.settled| + |p.pending|
                 && p.settled <= p'.settled
                 && forall i :: 0 <= i < |p.pending| ==>
                      p'.settled[|p.settled| + i] == Settle(p.pending[i], PoolClosed)
  {
    hide Next;
    if steps != [] {
      ClosingRejectsTheRest(size, steps[..|steps| - 1]);
      StepEndsRight(Run(NewPool(size), steps[..|steps| - 1]), steps[|steps| - 1]);
    }
    RunSnoc(NewPool(size), steps, EndClose);
    if Run(NewPool(size), steps).phase.Closing? {
      EndingIs(Run(NewPool(size), steps));
    }
  }

  lemma EndingIs(p: Pool)
    requires p.phase.Closing?
    ensures var p' := Next(p, EndClose);
            && p'.phase.Shut? && p'.pending == []
            && |p'.settled| == |p.settled| + |p.pending| && p.settled <= p'.settled
            && forall i :: 0 <= i < |p.pending| ==> p'.settled[|p.settled| + i] == Settle(p.pending[i], PoolClosed)
  {
    RejectionsMean(p.pending);
  }

  lemma RunSnoc(p: Pool, steps: seq<Step>, s: Step)
    ensures Run(p, steps + [s]) == Next(Run(p, steps), s)
  {
    hide Next;
    assert (steps + [s])[..|steps|] == steps;
  }

  /** In every run, a call to an open pool gives out the next id and puts its task in exactly one place: into the
      hands of the worker that became idle last, and is idle no longer, or, if none is, at the end of the queue.  A
      call to a pool that is closing changes nothing. */
  lemma CallGoesToOnePlace(size: nat, steps: seq<Step>, job: Job)
    ensures var p, p' := Run(NewPool(size), steps), Run(NewPool(size), steps + [Call(job)]);
            if !p.phase.Open? then p' == p
            else
              && p'.settled == p.settled && p'.pending == p.pending + [p.nextId] && p'.nextId == p.nextId + 1
              && if p.idle == [] then p'.queue == p.queue + [Task(p.nextId, job)] && p'.inbox == p.inbox
                 else
                   && p'.queue == p.queue == []
                   && exists w: nat :: && p.idle == p'.idle + [w] && w < |p.inbox| && p.inbox[w] == []
                                       && p'.inbox == p.inbox[w := [Task(p.nextId, job)]]
  {
    hide Run, Dispatch, Accounted, Partitioned, WorkersBusy;
    var p := Run(NewPool(size), steps);
    NewPoolInv(size);
    RunKeeps(NewPool(size), steps);
    RunSnoc(NewPool(size), steps, Call(job));
    CallCases(p, job);
    if p.phase.Open? && p.idle != [] {
      TopOfStack(p, job);
    }
  }

  lemma CallCases(p: Pool, job: Job)
    ensures var p' := Dispatch(p, job);
            if !p.phase.Open? then p' == p
            else
              && p'.settled == p.settled && p'.pending == p.pending + [p.nextId] && p'.nextId == p.nextId + 1
              && if p.idle == [] then p'.queue == p.queue + [Task(p.nextId, job)] && p'.inbox == p.inbox
                 else p'.queue == p.queue
  {
  }

  lemma TopOfStack(p: Pool, job: Job)
    requires WorkersBusy(p) && p.phase.Open? && p.idle != []
    ensures var p' := Dispatch(p, job);
            exists w: nat :: && p.idle == p'.idle + [w] && w < |p.inbox| && p.inbox[w] == []
                             && p'.inbox == p.inbox[w := [Task(p.nextId, job)]]
  {
    var w: nat := p.idle[|p.idle| - 1];
    assert w in p.idle && p.inbox[w] == [];
    assert p.inbox[w] + [Task(p.nextId, job)] == [Task(p.nextId, job)];
    assert p.idle == p.idle[..|p.idle| - 1] + [w];
  }

  /** In every run that is open, a worker that answers is given the front of the queue next, or, if nobody waits, is
      idle again, last in line; and nobody else's work changes. */
  lemma ReplyFeedsOrFrees(size: nat, steps: seq<Step>, w: nat, outcome: Outcome)
    requires var p := Run(NewPool(size), steps); p.phase.Open? && w < |p.inbox| && p.inbox[w] != []
    ensures var p, p' := Run(NewPool(size), steps), Run(NewPool(size), steps + [Reply(w, outcome)]);
            && p'.phase.Open? && p'.workers == p.workers && p'.nextId == p.nextId
            && if p.queue == [] then p'.queue == [] && p'.idle == p.idle + [w] && p'.inbox == p.inbox[w := []]
               else p'.queue == p.queue[1..] && p'.idle == p.idle && p'.inbox == p.inbox[w := [p.queue[0]]]
  {
    hide Run, Accounted, Partitioned;
    var p := Run(NewPool(size), steps);
    NewPoolInv(size);
    RunKeeps(NewPool(size), steps);
    RunSnoc(NewPool(size), steps, Reply(w, outcome));
    AnswerPartitions(p, w, outcome);
    var inbox := p.inbox[w := []];
    assert p.inbox[w][1..] == [];
    if p.queue != [] {
      assert inbox[w] + [p.queue[0]] == [p.queue[0]];
      assert inbox[w := [p.queue[0]]] == p.inbox[w := [p.queue[0]]];
    }
  }

  /** In every run, closing takes away the workers, the idle list and the queue; pending promises, what is settled
      and what the workers are still busy with stay as they are.  Closing again changes nothing. */
  lemma ClosingKeepsPending(size: nat, steps: seq<Step>)
    ensures var p, p' := Run(NewPool(size), steps), Run(NewPool(size), steps + [BeginClose]);
            if !p.phase.Open? then p' == p
            else
              && p'.phase.Closing? && StatsOf(p') == Stats(0, 0, 0, |p.pending|)
              && p'.pending == p.pending && p'.settled == p.settled && p'.inbox == p.inbox && p'.nextId == p.nextId
  {
    hide Run;
    RunSnoc(NewPool(size), steps, BeginClose);
  }

  // ----- First in, first out -----

  /** Only calls, and replies of workers that have something to answer. */
  ghost predicate Working(p: Pool, steps: seq<Step>) {
    steps == [] ||
    var before, s := steps[..|steps| - 1], steps[|steps| - 1];
    && Working(p, before)
    && (s.Call? || (s.Reply? && s.w < |Run(p, before).inbox| && Run(p, before).inbox[s.w] != []))
  }

  function Replies(steps: seq<Step>): nat {
    if steps == [] then 0 else Replies(steps[..|steps| - 1]) + if steps[|steps| - 1].Reply? then 1 else 0
  }

  /** How one step moves the queue: a call adds at the end, if anywhere; a reply takes the front. */
  lemma QueueMoves(p: Pool, s: Step)
    requires Inv(p) && p.phase.Open? && p.queue != []
    requires s.Call? || (s.Reply? && s.w < |p.inbox| && p.inbox[s.w] != [])
    ensures var p' := Next(p, s);
            && p'.phase.Open?
            && (s.Call? ==> p.queue <= p'.queue)
            && (s.Reply? ==> p'.queue == p.queue[1..] && s.w < |p'.inbox| && p'.inbox[s.w] == [p.queue[0]])
  {
    hide Accounted, Partitioned;
    if s.Reply? {
      AnswerPartitions(p, s.w, s.outcome);
      AnswerFrees(p, s.w, s.outcome);
    }
  }

  /** Bounded waiting.  While the pool stays open, a task at place k of the queue moves up by one with each reply
      and is posted on exactly the (k+1)-th, to the worker that replied. */
  lemma {:induction false} BoundedWaiting(p: Pool, steps: seq<Step>, k: nat)
    requires Inv(p) && p.phase.Open? && k < |p.queue| && Working(p, steps)
    ensures var p' := Run(p, steps);
            && (Replies(steps) <= k ==>
                  p'.phase.Open? && k - Replies(steps) < |p'.queue| && p'.queue[k - Replies(steps)] == p.queue[k])
            && (Replies(steps) == k + 1 && steps[|steps| - 1].Reply? ==>
                  var w := steps[|steps| - 1].w; w < |p'.inbox| && p'.inbox[w] == [p.queue[k]])
  {
    hide Inv, Next;
    if steps != [] {
      var before, s := steps[..|steps| - 1], steps[|steps| - 1];
      BoundedWaiting(p, before, k);
      RunKeeps(p, before);
      if Replies(before) <= k {
        QueueMoves(Run(p, before), s);
      }
    }
  }
}
