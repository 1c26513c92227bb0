/** Pool and workers together (lib/crypto-pool.js, lib/crypto-worker.js): whichever worker takes a task, whatever
    its caches hold and in whatever order replies come, a promise gets the answer of the direct call. */
module PoolService {
  import opened Octets
  import opened RsaCalls
  import opened Lru
  import opened Worker
  import opened Pools
  import PoolLaws

  /** `issued` is a history: the job of the i-th id handed out. */
  datatype System<K> = System(pool: Pool, caches: seq<Caches<K>>, issued: seq<Job>)

  datatype Step = Call(job: Job) | WorkerReplies(w: nat, seed: nat) | BeginClose | EndClose

  function NewSystem<K>(size: nat): System<K> {
    System(NewPool(size), seq(size, _ => Caches([], [])), [])
  }

  function Next<K>(crypto: Crypto<K>, s: System<K>, step: Step): System<K> {
    match step
    case Call(job) =>
      s.(pool := Dispatch(s.pool, job), issued := if s.pool.phase.Open? then s.issued + [job] else s.issued)
    case WorkerReplies(w, seed) =>
      if w >= |s.pool.inbox| || w >= |s.caches| || s.pool.inbox[w] == [] then s
      else
        var job := s.pool.inbox[w][0].job;
        s.(pool := Answer(s.pool, w, Reply(crypto, s.caches[w], job, seed)),
           caches := s.caches[w := Served(crypto, s.caches[w], job)])
    case BeginClose => s.(pool := CloseBegins(s.pool))
    case EndClose => s.(pool := CloseEnds(s.pool))
  }

  function Run<K>(crypto: Crypto<K>, size: nat, steps: seq<Step>): System<K> {
    if steps == [] then NewSystem(size)
    else Next(crypto, Run(crypto, size, steps[..|steps| - 1]), steps[|steps| - 1])
  }

  // ----- The invariant -----

  /** The task carries the job its id was handed out for. */
  predicate Genuine(issued: seq<Job>, t: Task) {
    1 <= t.id <= |issued| && issued[t.id - 1] == t.job
  }

  /** The outcome is one the direct call of this job yields. */
  ghost predicate Possible<K>(crypto: Crypto<K>, job: Job, outcome: Outcome) {
    exists seed: nat :: Direct(crypto, job, seed) == outcome
  }

  ghost predicate Right<K>(crypto: Crypto<K>, issued: seq<Job>, x: Settle) {
    x.how.ByWorker? ==> 1 <= x.id <= |issued| && Possible(crypto, issued[x.id - 1], x.how.outcome)
  }

  ghost predicate AllGenuine(issued: seq<Job>, ts: seq<Task>) {
    forall t :: t in ts ==> Genuine(issued, t)
  }

  ghost predicate Inv<K>(crypto: Crypto<K>, s: System<K>) {
    && s.pool.nextId == |s.issued| + 1
    && |s.caches| == |s.pool.inbox|
    && (forall w :: 0 <= w < |s.caches| ==> Consistent(crypto, s.caches[w]))
    && AllGenuine(s.issued, s.pool.queue)
    && (forall w :: 0 <= w < |s.pool.inbox| ==> AllGenuine(s.issued, s.pool.inbox[w]))
    && (forall x :: x in s.pool.settled ==> Right(crypto, s.issued, x))
  }

  lemma CallKeeps<K>(crypto: Crypto<K>, s: System<K>, job: Job)
    requires Inv(crypto, s)
    ensures Inv(crypto, Next(crypto, s, Call(job)))
  {
  }

  lemma AnswerKeeps<K>(crypto: Crypto<K>, s: System<K>, w: nat, outcome: Outcome)
    requires Inv(crypto, s) && w < |s.pool.inbox| && s.pool.inbox[w] != []
    requires Possible(crypto, s.pool.inbox[w][0].job, outcome)
    ensures Inv(crypto, s.(pool := Answer(s.pool, w, outcome)))
  {
    hide Possible, Consistent;
    var t := s.pool.inbox[w][0];
    assert t in s.pool.inbox[w] && Genuine(s.issued, t);
    assert Right(crypto, s.issued, Settle(t.id, ByWorker(outcome)));
    assert AllGenuine(s.issued, s.pool.inbox[w][1..]);
    if s.pool.queue != [] {
      assert s.pool.queue[0] in s.pool.queue;
    }
  }

  lemma {:induction false} RejectionsAreRight<K>(crypto: Crypto<K>, issued: seq<Job>, ids: seq<nat>)
    ensures forall x :: x in Rejections(ids) ==> Right(crypto, issued, x)
  {
    if ids != [] {
      RejectionsAreRight(crypto, issued, ids[1..]);
    }
  }

  lemma StepKeeps<K>(crypto: Crypto<K>, s: System<K>, step: Step)
    requires Inv(crypto, s)
    ensures Inv(crypto, Next(crypto, s, step))
  {
    hide Possible, Consistent, Dispatch, Answer, Served, Reply, Direct;
    match step {
      case Call(job) => CallKeeps(crypto, s, job);
      case WorkerReplies(w, seed) =>
        if w < |s.pool.inbox| && s.pool.inbox[w] != [] {
          var job := s.pool.inbox[w][0].job;
          CachingIsTransparent(crypto, s.caches[w], job, seed);
          DirectIsPossible(crypto, job, seed);
          AnswerKeeps(crypto, s, w, Reply(crypto, s.caches[w], job, seed));
          AnswerKeepsInboxes(s.pool, w, Reply(crypto, s.caches[w], job, seed));
        }
      case BeginClose =>
      case EndClose => RejectionsAreRight(crypto, s.issued, s.pool.pending);
    }
  }

  lemma DirectIsPossible<K>(crypto: Crypto<K>, job: Job, seed: nat)
    ensures Possible(crypto, job, Direct(crypto, job, seed))
  {
  }

  lemma AnswerKeepsInboxes(p: Pool, w: nat, outcome: Outcome)
    ensures |Answer(p, w, outcome).inbox| == |p.inbox|
  {
  }

  lemma {:induction false} RunKeeps<K>(crypto: Crypto<K>, size: nat, steps: seq<Step>)
    ensures Inv(crypto, Run(crypto, size, steps))
  {
    hide Next;
    if steps != [] {
      RunKeeps(crypto, size, steps[..|steps| - 1]);
      StepKeeps(crypto, Run(crypto, size, steps[..|steps| - 1]), steps[|steps| - 1]);
    } else {
      NewIsConsistent(crypto);
    }
  }

  lemma NewIsConsistent<K>(crypto: Crypto<K>)
    ensures Consistent(crypto, Caches([], []))
  {
  }

  /** The pool in a run of the system goes through a run of the pool alone, so everything proved of that holds. */
  function PoolSteps<K>(crypto: Crypto<K>, size: nat, steps: seq<Step>): seq<PoolLaws.Step> {
    if steps == [] then []
    else
      var s := Run(crypto, size, steps[..|steps| - 1]);
      PoolSteps(crypto, size, steps[..|steps| - 1]) +
      match steps[|steps| - 1]
      case Call(job) => [PoolLaws.Call(job)]
      case WorkerReplies(w, seed) =>
        if w >= |s.pool.inbox| || w >= |s.caches| || s.pool.inbox[w] == [] then []
        else [PoolLaws.Reply(w, Reply(crypto, s.caches[w], s.pool.inbox[w][0].job, seed))]
      case BeginClose => [PoolLaws.BeginClose]
      case EndClose => [PoolLaws.EndClose]
  }

  lemma {:induction false} SystemRunsPool<K>(crypto: Crypto<K>, size: nat, steps: seq<Step>)
    ensures Run(crypto, size, steps).pool == PoolLaws.Run(NewPool(size), PoolSteps(crypto, size, steps))
  {
    hide Dispatch, Answer, CloseBegins, CloseEnds, Reply, Served;
    if steps != [] {
      var before := steps[..|steps| - 1];
      SystemRunsPool(crypto, size, before);
      var ps, all := PoolSteps(crypto, size, before), PoolSteps(crypto, size, steps);
      if |all| == |ps| {
        assert all == ps;
      } else {
        assert all[..|ps|] == ps && |all| == |ps| + 1;
      }
    }
  }

  lemma RunSnoc<K>(crypto: Crypto<K>, size: nat, steps: seq<Step>, step: Step)
    ensures Run(crypto, size, steps + [step]) == Next(crypto, Run(crypto, size, steps), step)
  {
    hide Next;
    assert (steps + [step])[..|steps|] == steps;
  }

  /** In every run, open or closing: when a worker answers, the promise of the message it answers is settled, and
      with what the direct call of the job that this promise was given out for yields; unless it was settled before,
      and then nothing is.  No other promise is touched. */
  lemma ReplySettlesItsPromise<K>(crypto: Crypto<K>, size: nat, steps: seq<Step>, w: nat, seed: nat)
    requires var p := Run(crypto, size, steps).pool; w < |p.inbox| && p.inbox[w] != []
    ensures var s, s' := Run(crypto, size, steps), Run(crypto, size, steps + [WorkerReplies(w, seed)]);
            var id := s.pool.inbox[w][0].id;
            && 1 <= id <= |s.issued|
            && if id in s.pool.pending then
                 && s'.pool.settled == s.pool.settled + [Settle(id, ByWorker(Direct(crypto, s.issued[id - 1], seed)))]
                 && multiset(s.pool.pending) == multiset(s'.pool.pending) + multiset{id}
               else s'.pool.settled == s.pool.settled && s'.pool.pending == s.pool.pending
  {
    hide Run, Direct, Reply, Served, Consistent, Possible;
    var s := Run(crypto, size, steps);
    RunKeeps(crypto, size, steps);
    RunSnoc(crypto, size, steps, WorkerReplies(w, seed));
    var t := s.pool.inbox[w][0];
    assert t in s.pool.inbox[w] && Genuine(s.issued, t);
    CachingIsTransparent(crypto, s.caches[w], t.job, seed);
    if t.id in s.pool.pending {
      PoolLaws.WithoutOne(s.pool.pending, t.id);
    }
  }

  // ----- The workers' caches -----

  /** Does this step make worker w answer a job of this kind? */
  predicate Asks<K>(s: System<K>, step: Step, w: nat, public: bool) {
    && step.WorkerReplies? && step.w == w && w < |s.pool.inbox| && s.pool.inbox[w] != []
    && UsesPublicKey(s.pool.inbox[w][0].job.op) == public
  }

  /** The keys of one kind that worker w was asked for, in order. */
  function Uses<K>(crypto: Crypto<K>, size: nat, steps: seq<Step>, w: nat, public: bool): seq<string> {
    if steps == [] then []
    else
      var before, step := steps[..|steps| - 1], steps[|steps| - 1];
      var s := Run(crypto, size, before);
      Uses(crypto, size, before, w, public) +
      if Asks(s, step, w, public) then [s.pool.inbox[w][0].job.keyPem] else []
  }

  lemma CacheStep<K>(crypto: Crypto<K>, s: System<K>, step: Step, w: nat)
    requires |s.caches| == |s.pool.inbox| && w < |s.caches|
    ensures var s' := Next(crypto, s, step);
            && |s'.caches| == |s'.pool.inbox| == |s.caches|
            && s'.caches[w].public ==
               (if !Asks(s, step, w, true) then s.caches[w].public
                else
                  var pem := s.pool.inbox[w][0].job.keyPem;
                  Access(s.caches[w].public, pem, crypto.loadPublicKey(pem)))
            && s'.caches[w].private ==
               if !Asks(s, step, w, false) then s.caches[w].private
               else
                 var pem := s.pool.inbox[w][0].job.keyPem;
                 Access(s.caches[w].private, pem, crypto.loadPrivateKey(pem))
  {
    hide Dispatch, Answer, Access, Reply;
    match step {
      case Call(job) => CallKeepsInboxes(s.pool, job);
      case WorkerReplies(v, seed) =>
        if v < |s.caches| && s.pool.inbox[v] != [] {
          AnswerKeepsInboxes(s.pool, v, Reply(crypto, s.caches[v], s.pool.inbox[v][0].job, seed));
        }
      case _ =>
    }
  }

  /** In every run each worker's two caches are what the cache is after the keys it was asked for: so they hold the
      most recently used ones, and the laws of the cache say when it is hit. */
  lemma {:induction false} CachesFollowUses<K>(crypto: Crypto<K>, size: nat, steps: seq<Step>, w: nat)
    requires w < size
    ensures var s := Run(crypto, size, steps);
            && |s.caches| == |s.pool.inbox| == size
            && s.caches[w].public == After(crypto.loadPublicKey, Uses(crypto, size, steps, w, true))
            && s.caches[w].private == After(crypto.loadPrivateKey, Uses(crypto, size, steps, w, false))
  {
    hide Next, Access, Asks;
    if steps != [] {
      var before, step := steps[..|steps| - 1], steps[|steps| - 1];
      CachesFollowUses(crypto, size, before, w);
      var s := Run(crypto, size, before);
      CacheStep(crypto, s, step, w);
      OneStepOfUses(crypto, size, steps, w, true);
      OneStepOfUses(crypto, size, steps, w, false);
      if w < |s.pool.inbox| && s.pool.inbox[w] != [] {
        OneMoreUse(crypto.loadPublicKey, Uses(crypto, size, before, w, true), s.pool.inbox[w][0].job.keyPem);
        OneMoreUse(crypto.loadPrivateKey, Uses(crypto, size, before, w, false), s.pool.inbox[w][0].job.keyPem);
      }
      AsksSomething(s, step, w);
    }
  }

  lemma OneStepOfUses<K>(crypto: Crypto<K>, size: nat, steps: seq<Step>, w: nat, public: bool)
    requires steps != []
    ensures var before, step := steps[..|steps| - 1], steps[|steps| - 1];
            var s := Run(crypto, size, before);
            Uses(crypto, size, steps, w, public) ==
            if w < |s.pool.inbox| && s.pool.inbox[w] != [] && Asks(s, step, w, public) then
              Uses(crypto, size, before, w, public) + [s.pool.inbox[w][0].job.keyPem]
            else Uses(crypto, size, before, w, public)
  {
    hide Run;
    var before := Uses(crypto, size, steps[..|steps| - 1], w, public);
    assert before + [] == before;
  }

  lemma AsksSomething<K>(s: System<K>, step: Step, w: nat)
    ensures forall public :: Asks(s, step, w, public) ==> w < |s.pool.inbox| && s.pool.inbox[w] != []
  {
  }

  lemma OneMoreUse<V>(load: string -> Loaded<V>, pems: seq<string>, pem: string)
    ensures After(load, pems + [pem]) == Access(After(load, pems), pem, load(pem))
  {
    hide Access;
  }

  lemma CallKeepsInboxes(p: Pool, job: Job)
    ensures |Dispatch(p, job).inbox| == |p.inbox|
  {
  }

  /** What `CryptoPool.verify` makes of the reply. */
  function Verified(outcome: Outcome): bool {
    outcome.Result? && |outcome.bytes| == 1 && outcome.bytes[0] == 1
  }

  /** The key loads and the signature checks. */
  predicate Checks<K>(crypto: Crypto<K>, job: Job) {
    var key := crypto.loadPublicKey(job.keyPem);
    key.Key? && crypto.rsaVerify(key.k, job.data, job.extra) == Checked(true)
  }

  lemma VerifyAnswersTruly<K>(crypto: Crypto<K>, job: Job, outcome: Outcome)
    requires job.op.Verify? && Possible(crypto, job, outcome)
    ensures Verified(outcome) <==> Checks(crypto, job)
  {
  }

  /** The pool refines direct calls.  In every run, whatever the reply order, queueing and evictions, a promise
      that a worker settled holds an outcome of the pure function on that task's own key and data (so `verify` says
      true exactly if that key loads and that signature checks); no promise is settled twice, and none is open once
      closing has finished. */
  lemma PoolRefinesDirectCalls<K>(crypto: Crypto<K>, size: nat, steps: seq<Step>, x: Settle)
    requires x in Run(crypto, size, steps).pool.settled
    ensures var s := Run(crypto, size, steps);
            && 1 <= x.id <= |s.issued|
            && PoolLaws.SettledIds(s.pool.settled)[x.id] == 1 && x.id !in s.pool.pending
            && (x.how.PoolClosed? ==> s.pool.phase.Shut?)
            && (x.how.ByWorker? ==>
                  var job := s.issued[x.id - 1];
                  && Possible(crypto, job, x.how.outcome)
                  && (job.op.Verify? ==> (Verified(x.how.outcome) <==> Checks(crypto, job))))
  {
    hide Run, PoolLaws.Run, PoolSteps, Direct;
    RunKeeps(crypto, size, steps);
    SystemRunsPool(crypto, size, steps);
    PoolLaws.ExactlyOnce(size, PoolSteps(crypto, size, steps), x.id);
    PoolLaws.ClosingRejectsTheRest(size, PoolSteps(crypto, size, steps));
    var s := Run(crypto, size, steps);
    SettledMember(s.pool.settled, x);
    assert Right(crypto, s.issued, x);
    if x.how.ByWorker? && s.issued[x.id - 1].op.Verify? {
      VerifyAnswersTruly(crypto, s.issued[x.id - 1], x.how.outcome);
    }
  }

  lemma {:induction false} SettledMember(s: seq<Settle>, x: Settle)
    requires x in s
    ensures x.id in PoolLaws.SettledIds(s)
  {
    if s[0] != x {
      SettledMember(s[1..], x);
    }
  }
}
