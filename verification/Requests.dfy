/** The table of outstanding requests in lib/session.js.  A request is a promise with its own timer; `pending`
    maps its token to it.  The i-th request is the number i, and settling its promise is an entry in `settled`:
    nothing here rules out settling one twice, that it never happens is proved. */
module Requests {
  import opened Octets
  import opened JsMap
  import opened Coap

  datatype Outcome = Answer(msg: Message) | TimedOut | SendFailed | SessionClosed

  datatype Settle = Settle(id: int, outcome: Outcome)

  /** `tokens[i]` is the token request i was sent with; `timers` are the requests whose timer is running. */
  datatype Table = Table(pending: Entries<Bytes, int>, timers: set<int>, tokens: seq<Bytes>, settled: seq<Settle>)

  const EMPTY_TABLE := Table([], {}, [], [])

  /** `request`: the timer is started and the entry made before the message is sent; a send that throws takes
      both back and rejects. */
  function Open(t: Table, token: Bytes, sent: bool): Table {
    var id := |t.tokens|;
    var pending := Set(t.pending, token, id);
    if sent then Table(pending, t.timers + {id}, t.tokens + [token], t.settled)
    else Table(Delete(pending, token), t.timers - {id}, t.tokens + [token], t.settled + [Settle(id, SendFailed)])
  }

  /** A frame with a token: the request found under it is resolved. */
  function Respond(t: Table, token: Bytes, msg: Message): Table {
    match Get(t.pending, token)
    case None => t
    case Some(id) =>
      t.(pending := Delete(t.pending, token), timers := t.timers - {id},
         settled := t.settled + [Settle(id, Answer(msg))])
  }

  /** The timer of a request goes off: it deletes whatever is under its token. */
  function Fire(t: Table, id: int): Table {
    if id !in t.timers || !(0 <= id < |t.tokens|) then t
    else
      t.(pending := Delete(t.pending, t.tokens[id]), timers := t.timers - {id},
         settled := t.settled + [Settle(id, TimedOut)])
  }

  /** The loop of `_finalize` over the entries in insertion order. */
  function RejectAll(t: Table, entries: Entries<Bytes, int>): Table
    decreases |entries|
  {
    if entries == [] then t
    else
      var id := entries[0].1;
      RejectAll(t.(timers := t.timers - {id}, settled := t.settled + [Settle(id, SessionClosed)]), entries[1..])
  }

  function CloseAll(t: Table): Table {
    RejectAll(t, t.pending).(pending := [])
  }

  datatype Op =
    | OpOpen(token: Bytes, sent: bool)
    | OpRespond(answered: Bytes, msg: Message)
    | OpFire(id: int)
    | OpClose

  function Step(t: Table, op: Op): Table {
    match op
    case OpOpen(token, sent) => Open(t, token, sent)
    case OpRespond(token, msg) => Respond(t, token, msg)
    case OpFire(id) => Fire(t, id)
    case OpClose => CloseAll(t)
  }

  function Run(ops: seq<Op>): Table {
    if ops == [] then EMPTY_TABLE else Step(Run(ops[..|ops| - 1]), ops[|ops| - 1])
  }

  // ----- The invariant of every run -----

  function Ids(s: seq<Settle>): set<int> {
    if s == [] then {} else Ids(s[..|s| - 1]) + {s[|s| - 1].id}
  }

  predicate NoneTwice(s: seq<Settle>) {
    s == [] || (s[|s| - 1].id !in Ids(s[..|s| - 1]) && NoneTwice(s[..|s| - 1]))
  }

  /** Request `id` is unsettled and was sent with this token. */
  ghost predicate Waits(t: Table, token: Bytes, id: int) {
    id in t.timers && 0 <= id < |t.tokens| && t.tokens[id] == token
  }

  ghost predicate Leads(t: Table, m: Entries<Bytes, int>) {
    forall token :: token in View(m) ==> Waits(t, token, View(m)[token])
  }

  /** No request is settled twice; one is unsettled exactly while its own timer runs. */
  ghost predicate TimersMatch(t: Table) {
    && NoneTwice(t.settled)
    && t.timers !! Ids(t.settled)
    && (forall id :: id in t.timers || id in Ids(t.settled) <==> 0 <= id < |t.tokens|)
  }

  ghost predicate Inv(t: Table) {
    && TimersMatch(t)
    && Distinct(t.pending)
    && Leads(t, t.pending)
  }

  lemma SettleOne(s: seq<Settle>, x: Settle)
    ensures Ids(s + [x]) == Ids(s) + {x.id}
    ensures NoneTwice(s + [x]) <==> NoneTwice(s) && x.id !in Ids(s)
  {
  }

  lemma OpenKeeps(t: Table, token: Bytes, sent: bool)
    requires Inv(t)
    ensures Inv(Open(t, token, sent))
  {
  }

  lemma RespondKeeps(t: Table, token: Bytes, msg: Message)
    requires Inv(t)
    ensures Inv(Respond(t, token, msg))
  {
  }

  lemma FireKeeps(t: Table, id: int)
    requires Inv(t)
    ensures Inv(Fire(t, id))
    ensures Fire(t, id).timers == t.timers - {id} && Fire(t, id).tokens == t.tokens
    ensures id in t.timers ==> Fire(t, id).settled == t.settled + [Settle(id, TimedOut)]
  {
  }

  /** A request that is sent waits under its token; one that cannot be sent is rejected at once. */
  lemma OpenMeans(t: Table, token: Bytes, sent: bool)
    requires Inv(t)
    ensures var t', n := Open(t, token, sent), |t.tokens|;
            && t'.tokens == t.tokens + [token]
            && if sent then
                 && t'.timers == t.timers + {n} && t'.settled == t.settled
                 && View(t'.pending) == View(t.pending)[token := n]
               else
                 && t'.timers == t.timers && t'.settled == t.settled + [Settle(n, SendFailed)]
                 && View(t'.pending) == View(t.pending) - {token}
  {
    hide Leads, NoneTwice;
  }

  /** A timer that runs rejects its request and takes out whatever is under its token. */
  lemma FireMeans(t: Table, id: int)
    requires Inv(t)
    ensures var t' := Fire(t, id);
            if id in t.timers then
              && 0 <= id < |t.tokens|
              && t'.settled == t.settled + [Settle(id, TimedOut)] && t'.timers == t.timers - {id}
              && View(t'.pending) == View(t.pending) - {t.tokens[id]} && t'.tokens == t.tokens
            else t' == t
  {
    hide Leads, NoneTwice;
  }

  ghost predicate Targets(m: Entries<Bytes, int>, id: int) {
    exists token :: token in View(m) && View(m)[token] == id
  }

  /** Rejecting a list of entries settles exactly the requests they lead to. */
  lemma {:induction false} RejectAllKeeps(t: Table, m: Entries<Bytes, int>)
    requires TimersMatch(t) && Distinct(m) && Leads(t, m)
    ensures var t' := RejectAll(t, m);
            && TimersMatch(t') && t'.tokens == t.tokens && t'.pending == t.pending
            && forall id :: id in t'.timers <==> id in t.timers && !Targets(m, id)
    decreases |m|
  {
    if m != [] {
      var token, id, rest := m[0].0, m[0].1, m[1..];
      assert Waits(t, token, View(m)[token]);
      var t1 := t.(timers := t.timers - {id}, settled := t.settled + [Settle(id, SessionClosed)]);
      SettleOne(t.settled, Settle(id, SessionClosed));
      forall k | k in View(rest) ensures Waits(t1, k, View(rest)[k]) {
        assert Waits(t, k, View(m)[k]);
      }
      RejectAllKeeps(t1, rest);
      forall i ensures Targets(m, i) <==> i == id || Targets(rest, i) {
        TargetsOfRest(m, i);
      }
    }
  }

  lemma {:induction false} RejectAllKeepsTokens(t: Table, m: Entries<Bytes, int>)
    ensures RejectAll(t, m).tokens == t.tokens
    decreases |m|
  {
    if m != [] {
      var x := Settle(m[0].1, SessionClosed);
      RejectAllKeepsTokens(t.(timers := t.timers - {x.id}, settled := t.settled + [x]), m[1..]);
    }
  }

  lemma TargetsOfRest(m: Entries<Bytes, int>, id: int)
    requires m != [] && Distinct(m)
    ensures Targets(m, id) <==> id == m[0].1 || Targets(m[1..], id)
  {
    var rest := m[1..];
    assert View(m)[m[0].0] == m[0].1;
    if Targets(rest, id) {
      var k :| k in View(rest) && View(rest)[k] == id;
      assert k in View(m) && View(m)[k] == id;
    } else if Targets(m, id) {
      var k :| k in View(m) && View(m)[k] == id;
      assert k == m[0].0 || k in View(rest);
    }
  }

  lemma ClosingKeeps(t: Table)
    requires Inv(t)
    ensures Inv(CloseAll(t)) && forall id :: id in CloseAll(t).timers <==> id in t.timers && !Targets(t.pending, id)
  {
    RejectAllKeeps(t, t.pending);
  }

  lemma StepKeepsInv(t: Table, op: Op)
    requires Inv(t)
    ensures Inv(Step(t, op))
  {
    hide Inv;
    match op {
      case OpOpen(token, sent) => OpenKeeps(t, token, sent);
      case OpRespond(token, msg) => RespondKeeps(t, token, msg);
      case OpFire(id) => FireKeeps(t, id);
      case OpClose => ClosingKeeps(t);
    }
  }

  /** Settlement, over any run of requests (with colliding tokens), responses, timers, failed sends and closing:
      each request settles at most once and is unsettled exactly while its own timer runs, and every entry of the
      table leads to an unsettled request. */
  lemma {:induction false} SettledAtMostOnce(ops: seq<Op>)
    ensures Inv(Run(ops))
  {
    hide Step;
    if ops != [] {
      SettledAtMostOnce(ops[..|ops| - 1]);
      StepKeepsInv(Run(ops[..|ops| - 1]), ops[|ops| - 1]);
    }
  }

  /** The timers that are running settle everything that is still open. */
  function FireUpTo(t: Table, n: nat): Table {
    if n == 0 then t else Fire(FireUpTo(t, n - 1), n - 1)
  }

  lemma {:induction false} TimersSettleTheRest(t: Table, n: nat)
    requires Inv(t) && n <= |t.tokens|
    ensures var t' := FireUpTo(t, n);
            Inv(t') && t'.tokens == t.tokens && forall id :: 0 <= id < n ==> id !in t'.timers && id in Ids(t'.settled)
  {
    hide Fire, NoneTwice, Ids, Leads, Distinct;
    if n > 0 {
      TimersSettleTheRest(t, n - 1);
      FireKeeps(FireUpTo(t, n - 1), n - 1);
    }
  }

  // ----- Correlation -----

  /** Every unsettled request is found under its own token. */
  ghost predicate AllMapped(t: Table) {
    forall id :: id in t.timers ==> Found(t, id)
  }

  ghost predicate Found(t: Table, id: int) {
    0 <= id < |t.tokens| && t.tokens[id] in View(t.pending) && View(t.pending)[t.tokens[id]] == id
  }

  /** No unsettled request uses this token. */
  ghost predicate Fresh(t: Table, token: Bytes) {
    forall id :: id in t.timers && 0 <= id < |t.tokens| ==> t.tokens[id] != token
  }

  ghost predicate FreshStep(t: Table, op: Op) {
    op.OpOpen? ==> Fresh(t, op.token)
  }

  /** One step loses track of a request exactly when it opens one under a token that is in use. */
  lemma MappedIffFresh(t: Table, op: Op)
    requires Inv(t) && AllMapped(t)
    ensures AllMapped(Step(t, op)) <==> FreshStep(t, op)
  {
    assert Leads(t, t.pending);
    match op {
      case OpOpen(token, sent) => OpenMapped(t, token, sent);
      case OpRespond(token, msg) => RespondMapped(t, token, msg);
      case OpFire(id) =>
        forall i | i in Fire(t, id).timers ensures Found(Fire(t, id), i) {
          assert Found(t, i) && (id in t.timers ==> Found(t, id));
        }
      case OpClose =>
        ClosingKeeps(t);
        forall i | i in t.timers ensures Targets(t.pending, i) {
          assert Found(t, i);
        }
    }
  }

  lemma OpenMapped(t: Table, token: Bytes, sent: bool)
    requires Inv(t) && AllMapped(t)
    ensures AllMapped(Open(t, token, sent)) <==> Fresh(t, token)
  {
    hide Open, NoneTwice, Distinct;
    OpenMeans(t, token, sent);
    var t' := Open(t, token, sent);
    if Fresh(t, token) {
      forall i | i in t'.timers ensures Found(t', i) {
        assert i in t.timers ==> Found(t, i);
      }
    } else {
      var i :| i in t.timers && 0 <= i < |t.tokens| && t.tokens[i] == token;
      assert i in t'.timers && t'.tokens[i] == token;
      assert !Found(t', i);
    }
  }

  lemma RespondMapped(t: Table, token: Bytes, msg: Message)
    requires Inv(t) && AllMapped(t)
    ensures AllMapped(Respond(t, token, msg))
  {
  }

  ghost predicate FreshThroughout(ops: seq<Op>) {
    ops == [] || (FreshThroughout(ops[..|ops| - 1]) && FreshStep(Run(ops[..|ops| - 1]), ops[|ops| - 1]))
  }

  ghost predicate MappedThroughout(ops: seq<Op>) {
    AllMapped(Run(ops)) && (ops == [] || MappedThroughout(ops[..|ops| - 1]))
  }

  /** Over a whole run: no request is ever lost track of exactly when the tokens of outstanding requests were
      pairwise distinct. */
  lemma {:induction false} MappedThroughoutIff(ops: seq<Op>)
    ensures MappedThroughout(ops) <==> FreshThroughout(ops)
  {
    if ops != [] {
      var before := ops[..|ops| - 1];
      MappedThroughoutIff(before);
      SettledAtMostOnce(before);
      if MappedThroughout(before) {
        assert AllMapped(Run(before));
        MappedIffFresh(Run(before), ops[|ops| - 1]);
      }
    }
  }

  /** A response reaches the one request that issued its token: its entry and its timer go, it is settled, and
      every other request keeps what it has.  Without such a request nothing changes. */
  lemma ResponseReachesItsRequest(t: Table, token: Bytes, msg: Message)
    requires Inv(t) && AllMapped(t)
    ensures var t' := Respond(t, token, msg);
            if Fresh(t, token) then t' == t
            else exists id :: && id in t.timers && 0 <= id < |t.tokens| && t.tokens[id] == token
                              && t'.timers == t.timers - {id} && t'.settled == t.settled + [Settle(id, Answer(msg))]
                              && View(t'.pending) == View(t.pending) - {token} && t'.tokens == t.tokens
    ensures AllMapped(Respond(t, token, msg))
  {
    RespondMapped(t, token, msg);
  }

  /** The requests that a list of entries leads to, rejected in this order. */
  function Rejections(m: Entries<Bytes, int>): (r: seq<Settle>)
    ensures |r| == |m| && forall i :: 0 <= i < |m| ==> r[i] == Settle(m[i].1, SessionClosed)
  {
    if m == [] then [] else [Settle(m[0].1, SessionClosed)] + Rejections(m[1..])
  }

  lemma {:induction false} RejectAllSettles(t: Table, m: Entries<Bytes, int>)
    ensures RejectAll(t, m).settled == t.settled + Rejections(m)
    decreases |m|
  {
    if m != [] {
      var x := Settle(m[0].1, SessionClosed);
      RejectAllSettles(t.(timers := t.timers - {x.id}, settled := t.settled + [x]), m[1..]);
    }
  }

  /** Closing the session settles the requests in the table, in insertion order and each as closed, and nothing
      else; these are all that were still open exactly when none was lost track of. */
  lemma CloseSettlesAllIff(t: Table)
    requires Inv(t)
    ensures CloseAll(t).settled == t.settled + Rejections(t.pending) && CloseAll(t).pending == []
    ensures CloseAll(t).timers == {} <==> AllMapped(t)
  {
    RejectAllSettles(t, t.pending);
    ClosingKeeps(t);
    forall id | id in t.timers ensures Targets(t.pending, id) <==> Found(t, id) {
      if Targets(t.pending, id) {
        var token :| token in View(t.pending) && View(t.pending)[token] == id;
        assert Waits(t, token, id);
      }
    }
    if AllMapped(t) {
      forall id ensures id !in CloseAll(t).timers {
        assert id in t.timers ==> Found(t, id);
      }
    } else {
      var id :| id in t.timers && !Found(t, id);
      assert id in CloseAll(t).timers;
    }
  }

  // ----- The order of the table -----

  /** The entries stand in the order in which the requests were made. */
  ghost predicate Ascending(m: Entries<Bytes, int>) {
    forall i, j :: 0 <= i < j < |m| ==> m[i].1 < m[j].1
  }

  lemma {:induction false} SetNew(m: Entries<Bytes, int>, k: Bytes, v: int)
    requires k !in View(m)
    ensures Set(m, k, v) == m + [(k, v)]
  {
    if m != [] {
      SetNew(m[1..], k, v);
    }
  }

  lemma {:induction false} DeleteKeepsOrder(m: Entries<Bytes, int>, k: Bytes)
    requires Ascending(m)
    ensures Ascending(Delete(m, k))
    ensures forall x :: x in Delete(m, k) ==> x in m
  {
    if m != [] && m[0].0 != k {
      var rest := Delete(m[1..], k);
      DeleteKeepsOrder(m[1..], k);
      forall j | 0 <= j < |rest| ensures m[0].1 < rest[j].1 {
        assert rest[j] in m[1..];
      }
    }
  }

  lemma {:induction false} EntryIsFound(m: Entries<Bytes, int>, i: nat)
    requires Distinct(m) && i < |m|
    ensures m[i].0 in View(m) && View(m)[m[i].0] == m[i].1
  {
    if i > 0 {
      EntryIsFound(m[1..], i - 1);
    }
  }

  lemma OpenKeepsOrder(t: Table, token: Bytes, sent: bool)
    requires Inv(t) && Fresh(t, token) && Ascending(t.pending)
    ensures Ascending(Open(t, token, sent).pending)
  {
    var m, id := t.pending, |t.tokens|;
    forall k | k in View(m) ensures k != token {
      assert Waits(t, k, View(m)[k]);
    }
    SetNew(m, token, id);
    forall i: nat | i < |m| ensures m[i].1 < id {
      EntryIsFound(m, i);
      assert Waits(t, m[i].0, View(m)[m[i].0]);
    }
    DeleteKeepsOrder(Set(m, token, id), token);
  }

  lemma StepKeepsOrder(t: Table, op: Op)
    requires Inv(t) && FreshStep(t, op) && Ascending(t.pending)
    ensures Ascending(Step(t, op).pending)
  {
    hide Inv, Fresh, Ascending, Open, RejectAll, Delete, Get;
    match op {
      case OpOpen(token, sent) => OpenKeepsOrder(t, token, sent);
      case OpRespond(token, _) => DeleteKeepsOrder(t.pending, token);
      case OpFire(id) =>
        if 0 <= id < |t.tokens| {
          DeleteKeepsOrder(t.pending, t.tokens[id]);
        }
      case OpClose => NothingAscends();
    }
  }

  lemma NothingAscends()
    ensures Ascending([])
  {
  }

  /** As long as outstanding tokens are distinct, the table lists the open requests in the order they were made. */
  lemma {:induction false} OrderThroughout(ops: seq<Op>)
    requires FreshThroughout(ops)
    ensures Ascending(Run(ops).pending)
  {
    hide Inv, Ascending, Step, FreshStep;
    if ops == [] {
      NothingAscends();
    } else {
      OrderThroughout(ops[..|ops| - 1]);
      SettledAtMostOnce(ops[..|ops| - 1]);
      StepKeepsOrder(Run(ops[..|ops| - 1]), ops[|ops| - 1]);
    }
  }

  lemma TwoUnderOneToken(token: Bytes)
    ensures Run([OpOpen(token, true), OpOpen(token, true)]) == Table([(token, 1)], {0, 1}, [token, token], [])
  {
    hide Run;
    var a := OpOpen(token, true);
    RunNothing();
    RunSnoc([], a);
    RunSnoc([a], a);
    assert [] + [a] == [a] && [a] + [a] == [a, a];
    assert Set([], token, 0) == [(token, 0)] && Set([(token, 0)], token, 1) == [(token, 1)];
  }

  lemma RunNothing()
    ensures Run([]) == EMPTY_TABLE
  {
  }

  lemma ClosingOne(token: Bytes, id: int, t: Table)
    ensures RejectAll(t, [(token, id)]).timers == t.timers - {id}
  {
    assert [(token, id)][1..] == [];
  }

  /** Two requests under one token: the first is no longer found, so closing leaves it open, and its timer takes
      the second one's entry with it, so the second one's answer finds nobody. */
  lemma CollidingTokens(token: Bytes, msg: Message)
    ensures Run([OpOpen(token, true), OpOpen(token, true), OpClose]).timers == {0}
    ensures var t := Run([OpOpen(token, true), OpOpen(token, true), OpFire(0)]);
            t.timers == {1} && Respond(t, token, msg) == t
  {
    hide Run, RejectAll, Set;
    var both := [OpOpen(token, true), OpOpen(token, true)];
    TwoUnderOneToken(token);
    ClosingOne(token, 1, Run(both));
    RunSnoc(both, OpClose);
    RunSnoc(both, OpFire(0));
    assert both + [OpClose] == [both[0], both[1], OpClose] && both + [OpFire(0)] == [both[0], both[1], OpFire(0)];
    assert Fire(Run(both), 0).pending == [];
  }

  lemma StaleRun(token: Bytes)
    ensures var a, f := OpOpen(token, true), OpFire(0);
            && Run([a]) == Table([(token, 0)], {0}, [token], [])
            && Run([a, f]) == Table([], {}, [token], [Settle(0, TimedOut)])
            && Run([a, f, a]) == Table([(token, 1)], {1}, [token, token], [Settle(0, TimedOut)])
  {
    hide Run;
    var a, f := OpOpen(token, true), OpFire(0);
    assert [] + [a] == [a] && [a] + [f] == [a, f] && [a, f] + [a] == [a, f, a];
    RunNothing();
    RunSnoc([], a);
    RunSnoc([a], f);
    RunSnoc([a, f], a);
  }

  lemma StaleIsFresh(token: Bytes)
    ensures FreshThroughout([OpOpen(token, true), OpFire(0), OpOpen(token, true)])
  {
    hide Run, FreshThroughout;
    var a, f := OpOpen(token, true), OpFire(0);
    assert [] + [a] == [a] && [a] + [f] == [a, f] && [a, f] + [a] == [a, f, a];
    RunNothing();
    StaleRun(token);
    NothingIsFresh();
    FreshSnoc([], a);
    FreshSnoc([a], f);
    FreshSnoc([a, f], a);
  }

  /** Distinct outstanding tokens do not tell answers apart for ever: a request times out, its token is drawn again,
      and the answer that belonged to the first settles the second. */
  lemma StaleAnswer(token: Bytes, msg: Message)
    ensures var ops := [OpOpen(token, true), OpFire(0), OpOpen(token, true)];
            && FreshThroughout(ops)
            && Respond(Run(ops), token, msg).settled == [Settle(0, TimedOut), Settle(1, Answer(msg))]
  {
    hide Run, FreshThroughout;
    StaleRun(token);
    StaleIsFresh(token);
  }

  lemma NothingIsFresh()
    ensures FreshThroughout([])
  {
  }

  lemma FreshSnoc(ops: seq<Op>, op: Op)
    ensures FreshThroughout(ops + [op]) <==> FreshThroughout(ops) && FreshStep(Run(ops), op)
  {
    hide Run, FreshStep;
    assert (ops + [op])[..|ops|] == ops;
  }

  lemma RunSnoc(ops: seq<Op>, op: Op)
    ensures Run(ops + [op]) == Step(Run(ops), op)
  {
    hide Step;
    assert (ops + [op])[..|ops|] == ops;
  }
}
