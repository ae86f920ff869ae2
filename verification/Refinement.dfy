/**
  The relay's pass is a run of the protocol: what `run_once` does to the tables
  and the graph is done by a list of protocol steps of one relay, so everything
  proved over all interleavings holds of it.
*/
module Refinement {
  import opened Prelude
  import opened Store
  import opened Protocol
  import opened Relay

  /** The protocol is where the pass's world is, and relay `r` holds this queue. */
  predicate Mirrors(s: State, w: World, r: nat, queue: seq<Event>) {
    && s.db == w.db && s.graph == w.graph
    && RelayAt(s, r) == if queue == [] then Idle else Pending(queue)
  }

  /** One event, as steps: load it, write the graph or fail to, and complete it. */
  function EventSteps(env: Env, w: World, e: Event, r: nat): seq<Step> {
    if LoadTxn(w.db, e).None? then [Load(r)]
    else
      match env.outcome(w.calls)
      case Unavailable(landed) => [Load(r), GraphFails(r, landed)]
      case Written => [Load(r), GraphWrites(r), Complete(r, env.clock(w.calls))]
  }

  function BatchSteps(env: Env, w: World, events: seq<Event>, r: nat): seq<Step>
    decreases |events|
  {
    if events == [] then []
    else EventSteps(env, w, events[0], r) + BatchSteps(env, Dispatch(env, w, events[0]).0, events[1..], r)
  }

  ghost function PassSteps(env: Env, w: World, events: seq<Event>, r: nat): seq<Step>
    requires ClaimOf(env, w.db, events)
  {
    if events == [] then []
    else
      [Claim(r, Order(events))]
      + BatchSteps(env, w.(db := ClaimTxn(w.db, IdsOf(events))), events, r)
  }

  function Order(events: seq<Event>): (order: seq<OutboxId>)
    ensures |order| == |events|
  {
    seq(|events|, i requires 0 <= i < |events| => events[i].outboxId)
  }

  lemma {:induction false} RunConcat(s: State, a: seq<Step>, b: seq<Step>, cap: nat)
    ensures Run(s, a + b, cap) == Run(Run(s, a, cap), b, cap)
    decreases |a|
  {
    if a == [] {
      assert a + b == b;
    } else {
      assert (a + b)[0] == a[0] && (a + b)[1..] == a[1..] + b;
      RunConcat(Exec(s, a[0], cap), a[1..], b, cap);
    }
  }

  lemma RunOne(s: State, a: Step, cap: nat)
    ensures Run(s, [a], cap) == Exec(s, a, cap)
  {
    assert [a][1..] == [];
    assert Run(Exec(s, a, cap), [], cap) == Exec(s, a, cap);
  }

  lemma RunTwo(s: State, a: Step, b: Step, cap: nat)
    ensures Run(s, [a, b], cap) == Exec(Exec(s, a, cap), b, cap)
  {
    assert [a, b] == [a] + [b];
    RunConcat(s, [a], [b], cap);
    RunOne(s, a, cap);
    RunOne(Exec(s, a, cap), b, cap);
  }

  lemma RunThree(s: State, a: Step, b: Step, c: Step, cap: nat)
    ensures Run(s, [a, b, c], cap) == Exec(Exec(Exec(s, a, cap), b, cap), c, cap)
  {
    assert [a, b, c] == [a, b] + [c];
    RunConcat(s, [a, b], [c], cap);
    RunTwo(s, a, b, cap);
    RunOne(Exec(Exec(s, a, cap), b, cap), c, cap);
  }

  /** Dispatching one event is those steps, and leaves the relay with the rest of its queue. */
  lemma DispatchIsARun(env: Env, w: World, s: State, r: nat, queue: seq<Event>, cap: nat)
    requires queue != [] && Mirrors(s, w, r, queue)
    ensures Mirrors(Run(s, EventSteps(env, w, queue[0], r), cap), Dispatch(env, w, queue[0]).0, r, queue[1..])
  {
    var e := queue[0];
    var loaded := Exec(s, Load(r), cap);
    if LoadTxn(w.db, e).None? {
      RunOne(s, Load(r), cap);
    } else {
      match env.outcome(w.calls)
      case Unavailable(landed) =>
        RunTwo(s, Load(r), GraphFails(r, landed), cap);
      case Written =>
        RunThree(s, Load(r), GraphWrites(r), Complete(r, env.clock(w.calls)), cap);
    }
  }

  lemma {:induction false} BatchIsARun(env: Env, w: World, s: State, r: nat, events: seq<Event>, cap: nat)
    requires Mirrors(s, w, r, events)
    ensures Mirrors(Run(s, BatchSteps(env, w, events, r), cap), DispatchAll(env, w, events).0, r, [])
    decreases |events|
  {
    if events != [] {
      var first, next := EventSteps(env, w, events[0], r), Dispatch(env, w, events[0]).0;
      DispatchIsARun(env, w, s, r, events, cap);
      BatchIsARun(env, next, Run(s, first, cap), r, events[1..], cap);
      RunConcat(s, first, BatchSteps(env, next, events[1..], r), cap);
    }
  }

  lemma ClaimIsAStep(env: Env, w: World, s: State, r: nat, events: seq<Event>)
    requires Mirrors(s, w, r, []) && ClaimOf(env, w.db, events) && events != []
    ensures Mirrors(Exec(s, Claim(r, Order(events)), env.maxAttempts),
                    w.(db := ClaimTxn(w.db, IdsOf(events))), r, events)
  {
    var order, cap := Order(events), env.maxAttempts;
    forall i | 0 <= i < |order| ensures order[i] in w.db.outbox && Claimable(w.db.outbox[order[i]], cap) {
      assert events[i] in events && events[i].outboxId in IdsOf(events);
    }
    assert Enabled(s, Claim(r, order), cap);
    assert (set o | o in order) == IdsOf(events) by { OrderHoldsIds(events); }
    assert seq(|order|, i requires 0 <= i < |order| => EventOf(s.db, order[i])) == events;
  }

  lemma OrderHoldsIds(events: seq<Event>)
    ensures (set o | o in Order(events)) == IdsOf(events)
  {
    var order := Order(events);
    forall o ensures o in order <==> o in IdsOf(events) {
      if o in order {
        var i :| 0 <= i < |order| && order[i] == o;
        assert events[i] in events && events[i].outboxId == o;
      }
      if o in IdsOf(events) {
        var e :| e in events && e.outboxId == o;
        var i :| 0 <= i < |events| && events[i] == e;
        assert order[i] == o;
      }
    }
  }

  /** `run_once`, for any claim and any graph, leaves the tables and the graph as a run of the protocol does. */
  lemma PassIsARun(env: Env, w: World, s: State, r: nat, events: seq<Event>)
    requires Mirrors(s, w, r, []) && ClaimOf(env, w.db, events)
    ensures Mirrors(Run(s, PassSteps(env, w, events, r), env.maxAttempts), Pass(env, w, events).0, r, [])
  {
    if events == [] {
      EmptyPass(env, w);
    } else {
      var claimed := w.(db := ClaimTxn(w.db, IdsOf(events)));
      var rest := BatchSteps(env, claimed, events, r);
      ClaimIsAStep(env, w, s, r, events);
      BatchIsARun(env, claimed, Exec(s, Claim(r, Order(events)), env.maxAttempts), r, events, env.maxAttempts);
      RunConcat(s, [Claim(r, Order(events))], rest, env.maxAttempts);
      RunOne(s, Claim(r, Order(events)), env.maxAttempts);
    }
  }

  ghost function DrainSteps(env: Env, w: World, passes: seq<seq<Event>>, r: nat): seq<Step>
    requires Busy(env, w, passes)
    decreases |passes|
  {
    if passes == [] then []
    else PassSteps(env, w, passes[0], r) + DrainSteps(env, Pass(env, w, passes[0]).0, passes[1..], r)
  }

  /** And so does the whole drain. */
  lemma {:induction false} DrainIsARun(env: Env, w: World, s: State, r: nat, passes: seq<seq<Event>>)
    requires Mirrors(s, w, r, []) && Busy(env, w, passes)
    ensures Mirrors(Run(s, DrainSteps(env, w, passes, r), env.maxAttempts), Passes(env, w, passes).0, r, [])
    decreases |passes|
  {
    if passes != [] {
      var first, next := PassSteps(env, w, passes[0], r), Pass(env, w, passes[0]).0;
      PassIsARun(env, w, s, r, passes[0]);
      DrainIsARun(env, next, Run(s, first, env.maxAttempts), r, passes[1..]);
      RunConcat(s, first, DrainSteps(env, next, passes[1..], r), env.maxAttempts);
    }
  }

  /* ---- a pass that Postgres cuts short ------------------------------------- */

  predicate Dispatches(step: Step) {
    step.Load? || step.GraphFails? || step.GraphWrites? || step.Complete? || step.Crash?
  }

  predicate AllDispatch(steps: seq<Step>) { forall i :: 0 <= i < |steps| ==> Dispatches(steps[i]) }

  lemma {:induction false} BatchDispatches(env: Env, w: World, events: seq<Event>, r: nat)
    ensures AllDispatch(BatchSteps(env, w, events, r))
    decreases |events|
  {
    if events != [] { BatchDispatches(env, Dispatch(env, w, events[0]).0, events[1..], r); }
  }

  /** An event keeps its attempts, or gains the one its claim recorded. */
  ghost predicate Spends(a: Db, b: Db, claimed: set<OutboxId>, o: OutboxId) {
    o in a.outbox ==>
      o in b.outbox && a.outbox[o].attempts <= b.outbox[o].attempts
      && b.outbox[o].attempts <= a.outbox[o].attempts + (if o in claimed then 1 else 0)
  }

  lemma {:induction false} DispatchingSpendsNothing(s: State, steps: seq<Step>, cap: nat, o: OutboxId)
    requires AllDispatch(steps)
    ensures Spends(s.db, Run(s, steps, cap).db, {}, o)
    decreases |steps|
  {
    if steps != [] {
      assert Dispatches(steps[0]);
      DispatchingSpendsNothing(Exec(s, steps[0], cap), steps[1..], cap, o);
    }
  }

  lemma PrefixSpends(env: Env, w: World, s: State, r: nat, events: seq<Event>, n: nat, o: OutboxId)
    requires Mirrors(s, w, r, []) && ClaimOf(env, w.db, events) && n <= |PassSteps(env, w, events, r)|
    ensures Spends(s.db, Run(s, PassSteps(env, w, events, r)[..n] + [Crash(r)], env.maxAttempts).db, IdsOf(events), o)
  {
    var steps, cap := PassSteps(env, w, events, r), env.maxAttempts;
    if n == 0 {
      assert steps[..n] + [Crash(r)] == [Crash(r)];
      DispatchingSpendsNothing(s, [Crash(r)], cap, o);
    } else {
      var claimed := w.(db := ClaimTxn(w.db, IdsOf(events)));
      var rest := BatchSteps(env, claimed, events, r)[..n - 1] + [Crash(r)];
      BatchDispatches(env, claimed, events, r);
      ClaimIsAStep(env, w, s, r, events);
      assert steps[..n] + [Crash(r)] == [Claim(r, Order(events))] + rest;
      RunConcat(s, [Claim(r, Order(events))], rest, cap);
      RunOne(s, Claim(r, Order(events)), cap);
      DispatchingSpendsNothing(Exec(s, Claim(r, Order(events)), cap), rest, cap, o);
    }
  }

  /**
    Postgres gone after any number of a pass's statements: the pass raises, what
    it had committed stays, nothing is lost, and a claimed event has spent at
    most the attempt its claim recorded.
  */
  lemma BrokenPassLosesNothing(env: Env, w: World, s: State, r: nat, events: seq<Event>, n: nat)
    requires DualWrite(s, env.maxAttempts) && Mirrors(s, w, r, [])
    requires ClaimOf(env, w.db, events) && n <= |PassSteps(env, w, events, r)|
    ensures var after := Run(s, PassSteps(env, w, events, r)[..n] + [Crash(r)], env.maxAttempts);
            && DualWrite(after, env.maxAttempts) && DbGrows(s.db, after.db) && RelayAt(after, r) == Idle
            && forall o {:trigger Spends(s.db, after.db, IdsOf(events), o)} ::
                 Spends(s.db, after.db, IdsOf(events), o)
  {
    var cut, cap := PassSteps(env, w, events, r)[..n], env.maxAttempts;
    var after := Run(s, cut + [Crash(r)], cap);
    DualWriteOverRuns(s, cut + [Crash(r)], cap);
    RunConcat(s, cut, [Crash(r)], cap);
    RunOne(Run(s, cut, cap), Crash(r), cap);
    forall o ensures Spends(s.db, after.db, IdsOf(events), o) { PrefixSpends(env, w, s, r, events, n, o); }
  }

  /* ---- nothing is ever stuck --------------------------------------------- */

  function Publication(r: nat, o: OutboxId, at: int): seq<Step> {
    [Claim(r, [o])] + [Load(r), GraphWrites(r), Complete(r, at)]
  }

  lemma ClaimsOne(s: State, r: nat, o: OutboxId, cap: nat)
    requires RelayAt(s, r) == Idle && o in s.db.outbox && Claimable(s.db.outbox[o], cap)
    ensures Enabled(s, Claim(r, [o]), cap)
    ensures var after := Exec(s, Claim(r, [o]), cap);
            && RelayAt(after, r) == Pending([EventOf(s.db, o)]) && after.db.rows == s.db.rows
            && o in after.db.outbox && after.db.outbox[o].dispatchedAt.None? && after.graph == s.graph
            && after.decided == s.decided
  {
    assert [o][0] == o;
    assert seq(1, i requires 0 <= i < 1 => EventOf(s.db, [o][i])) == [EventOf(s.db, o)];
  }

  /**
    From any state a run can reach, an invisible row whose event has attempts
    left and names its tenant is four undisturbed steps from being published.
  */
  lemma PendingCanBePublished(s: State, r: nat, id: Id, at: int, cap: nat)
    requires DualWrite(s, cap) && RelayAt(s, r) == Idle && id in s.db.rows && !s.db.rows[id].visible
    requires OutboxFor(id) in s.db.outbox && s.db.outbox[OutboxFor(id)].attempts < cap
    requires s.db.outbox[OutboxFor(id)].tenant == s.db.rows[id].fact.slot.tenant
    ensures var after := Run(s, Publication(r, OutboxFor(id), at), cap);
            && after.db.rows == s.db.rows[id := s.db.rows[id].(visible := true)]
            && after.graph == s.graph[id := EdgeOf(s.db.rows[id])]
            && RelayAt(after, r) == Idle && after.decided == s.decided
            && OutboxFor(id) in after.db.outbox && after.db.outbox[OutboxFor(id)].dispatchedAt == Some(at)
  {
    var o := OutboxFor(id);
    assert RowAgrees(s.db, id) && EventKept(s.db, o, cap);
    ClaimsOne(s, r, o, cap);
    var claimed := Exec(s, Claim(r, [o]), cap);
    RunConcat(s, [Claim(r, [o])], [Load(r), GraphWrites(r), Complete(r, at)], cap);
    RunOne(s, Claim(r, [o]), cap);
    RunThree(claimed, Load(r), GraphWrites(r), Complete(r, at), cap);
    PublishesClaimed(claimed, r, EventOf(s.db, o), at, cap);
  }

  lemma PublishesClaimed(s: State, r: nat, e: Event, at: int, cap: nat)
    requires RelayAt(s, r) == Pending([e]) && LoadTxn(s.db, e).Some?
    requires e.outboxId in s.db.outbox && s.db.outbox[e.outboxId].dispatchedAt.None?
    ensures var after := Exec(Exec(Exec(s, Load(r), cap), GraphWrites(r), cap), Complete(r, at), cap);
            && after.db.rows == s.db.rows[e.assertion := s.db.rows[e.assertion].(visible := true)]
            && after.graph == s.graph[e.assertion := EdgeOf(s.db.rows[e.assertion])]
            && RelayAt(after, r) == Idle && after.decided == s.decided
            && e.outboxId in after.db.outbox && after.db.outbox[e.outboxId].dispatchedAt == Some(at)
  {
    var loaded := Exec(s, Load(r), cap);
    assert RelayAt(loaded, r) == Loaded([e], s.db.rows[e.assertion]);
    var written := Exec(loaded, GraphWrites(r), cap);
    assert RelayAt(written, r) == Upserted([e]);
  }

  /** A seeded fact, from nothing: the premises above are met, and readers come to see the fact. */
  lemma SeededFactIsPublished(key: string, fact: Fact, citation: string, now: int, at: int, r: nat, cap: nat)
    requires cap > 0
    ensures var seeded := Exec(INIT, Seed(key, fact, citation, now), cap);
            var after := Run(seeded, Publication(r, OutboxFor(Seeded(key)), at), cap);
            Seeded(key) in after.db.rows && after.db.rows[Seeded(key)] == Row(fact, None, None, true)
  {
    var seeded := Exec(INIT, Seed(key, fact, citation, now), cap);
    StepKeepsDualWrite(INIT, Seed(key, fact, citation, now), cap);
    PendingCanBePublished(seeded, r, Seeded(key), at, cap);
  }
}
