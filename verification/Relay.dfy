/**
  The relay as it runs (`memory/relay.py`, `scripts/seed_demo_tenant.py`): one
  pass claims a bounded batch of the oldest pending events and dispatches them
  in turn; the drain repeats passes until one claims nothing.

  The graph store is an outcome per call, chosen by the environment.
*/
module Relay {
  import opened Prelude
  import opened Store
  import opened Protocol

  datatype RelayRun = RelayRun(claimed: nat, dispatched: nat)

  /** A write lands, or the call raises - before or after the edge was stored. */
  datatype GraphCall = Written | Unavailable(landed: bool)

  function DispatchedIds(db: Db): set<OutboxId> {
    set o | o in db.outbox && db.outbox[o].dispatchedAt.Some?
  }

  function ClaimableIds(db: Db, cap: nat): set<OutboxId> {
    set o | o in db.outbox && Claimable(db.outbox[o], cap)
  }

  function IdsOf(events: seq<Event>): set<OutboxId> { set e | e in events :: e.outboxId }

  /** Everything one relay process reads and writes. */
  datatype World = World(db: Db, graph: Graph, calls: nat)

  /** The environment: how each graph call ends, what each clock read says, and the two bounds. */
  datatype Env = Env(outcome: nat -> GraphCall, clock: nat -> int, batchSize: nat, maxAttempts: nat)

  ghost predicate Healthy(env: Env) { forall n :: env.outcome(n).Written? }

  ghost predicate Ready(env: Env, w: World) { TablesAgree(w.db, env.maxAttempts) && GraphAgrees(w.db, w.graph) }

  /** Every payload names its row's tenant. */
  ghost predicate Matching(db: Db) {
    forall o :: o in db.outbox ==>
      && db.outbox[o].assertion in db.rows
      && db.rows[db.outbox[o].assertion].fact.slot.tenant == db.outbox[o].tenant
  }

  /** What a claim may take: as many as fit, and none younger than one left behind. */
  ghost predicate OldestFirst(db: Db, cap: nat, limit: nat, taken: set<OutboxId>) {
    && taken <= ClaimableIds(db, cap)
    && |taken| == (if |ClaimableIds(db, cap)| <= limit then |ClaimableIds(db, cap)| else limit)
    && forall a, b :: a in taken && b in ClaimableIds(db, cap) - taken ==>
         db.outbox[a].createdAt <= db.outbox[b].createdAt
  }

  /* ---- the termination measure ---------------------------------------- */

  function Remaining(row: OutboxRow, cap: nat): nat {
    if Claimable(row, cap) then cap - row.attempts else 0
  }

  ghost function Budget(outbox: map<OutboxId, OutboxRow>, keys: set<OutboxId>, cap: nat): nat
    requires keys <= outbox.Keys
  {
    if keys == {} then 0
    else var k :| k in keys; Remaining(outbox[k], cap) + Budget(outbox, keys - {k}, cap)
  }

  lemma {:induction false} BudgetTakes(outbox: map<OutboxId, OutboxRow>, keys: set<OutboxId>, cap: nat, k: OutboxId)
    requires keys <= outbox.Keys && k in keys
    ensures Budget(outbox, keys, cap) == Remaining(outbox[k], cap) + Budget(outbox, keys - {k}, cap)
  {
    var j :| j in keys && Budget(outbox, keys, cap) == Remaining(outbox[j], cap) + Budget(outbox, keys - {j}, cap);
    if j != k {
      BudgetTakes(outbox, keys - {j}, cap, k);
      BudgetTakes(outbox, keys - {k}, cap, j);
      assert keys - {j} - {k} == keys - {k} - {j};
    }
  }

  lemma {:induction false} BudgetFalls(
    a: map<OutboxId, OutboxRow>, b: map<OutboxId, OutboxRow>, keys: set<OutboxId>, cap: nat)
    requires keys <= a.Keys && keys <= b.Keys
    requires forall k :: k in keys ==> Remaining(b[k], cap) <= Remaining(a[k], cap)
    ensures Budget(b, keys, cap) <= Budget(a, keys, cap)
    ensures (exists k :: k in keys && Remaining(b[k], cap) < Remaining(a[k], cap)) ==>
              Budget(b, keys, cap) < Budget(a, keys, cap)
    decreases |keys|
  {
    if keys != {} {
      var k :| k in keys;
      if j :| j in keys && Remaining(b[j], cap) < Remaining(a[j], cap) { k := j; }
      BudgetTakes(a, keys, cap, k);
      BudgetTakes(b, keys, cap, k);
      BudgetFalls(a, b, keys - {k}, cap);
    }
  }

  lemma {:induction false} OldestExists(outbox: map<OutboxId, OutboxRow>, pool: set<OutboxId>)
    requires pool <= outbox.Keys && pool != {}
    ensures exists o :: o in pool && forall p :: p in pool ==> outbox[o].createdAt <= outbox[p].createdAt
    decreases |pool|
  {
    var k :| k in pool;
    if pool - {k} == {} {
      assert pool == {k};
    } else {
      OldestExists(outbox, pool - {k});
      var o :| o in pool - {k} && forall p :: p in pool - {k} ==> outbox[o].createdAt <= outbox[p].createdAt;
      assert forall p :: p in pool ==> p == k || p in pool - {k};
      var best := if outbox[k].createdAt < outbox[o].createdAt then k else o;
      assert best in pool;
    }
  }

  /* ---- one pass, on values --------------------------------------------- */

  ghost predicate PassEffect(a: Db, b: Db, cap: nat, limit: nat, claimed: set<OutboxId>, run: RelayRun) {
    && a.outbox.Keys == b.outbox.Keys
    && OldestFirst(a, cap, limit, claimed) && run.claimed == |claimed|
    && DispatchedIds(a) <= DispatchedIds(b) <= DispatchedIds(a) + claimed
    && run.dispatched == |DispatchedIds(b) - DispatchedIds(a)|
    && (forall o :: o in a.outbox ==>
          b.outbox[o].attempts == a.outbox[o].attempts + (if o in claimed then 1 else 0))
    && (claimed == {} ==> b == a)
  }

  lemma ClaimEffect(a: Db, b: Db, cap: nat, claimed: set<OutboxId>)
    requires claimed <= ClaimableIds(a, cap) && b == ClaimTxn(a, claimed)
    ensures a.outbox.Keys == b.outbox.Keys && DispatchedIds(b) == DispatchedIds(a)
    ensures Matching(a) ==> Matching(b)
    ensures claimed == {} ==> b == a
  {
    if claimed == {} {
      assert b.outbox == a.outbox;
    }
  }

  lemma CompletionEffect(a: Db, e: Event, at: int)
    requires EventAgrees(a, e)
    ensures var b := CompleteTxn(a, e, at);
            && b.outbox.Keys == a.outbox.Keys && DispatchedIds(b) == DispatchedIds(a) + {e.outboxId}
            && (forall o :: o in a.outbox ==> b.outbox[o].attempts == a.outbox[o].attempts)
            && (Matching(a) ==> Matching(b))
  {
  }

  /** A pass that claims nothing found nothing it could claim, and changed nothing. */
  lemma BusyPass(a: Db, b: Db, cap: nat, limit: nat, claimed: set<OutboxId>, run: RelayRun)
    requires PassEffect(a, b, cap, limit, claimed, run) && run.claimed > 0
    ensures Budget(b.outbox, b.outbox.Keys, cap) < Budget(a.outbox, a.outbox.Keys, cap)
    ensures claimed <= DispatchedIds(b) ==> ClaimableIds(a, cap) <= ClaimableIds(b, cap) + DispatchedIds(b)
  {
    assert claimed != {};
    var o :| o in claimed;
    assert o in ClaimableIds(a, cap);
    forall k | k in a.outbox ensures Remaining(b.outbox[k], cap) <= Remaining(a.outbox[k], cap) {
      if a.outbox[k].dispatchedAt.Some? { assert k in DispatchedIds(a); assert k in DispatchedIds(b); }
    }
    assert Remaining(b.outbox[o], cap) < Remaining(a.outbox[o], cap);
    BudgetFalls(a.outbox, b.outbox, a.outbox.Keys, cap);
    forall k | k in ClaimableIds(a, cap) && claimed <= DispatchedIds(b)
      ensures k in ClaimableIds(b, cap) + DispatchedIds(b)
    {
      if b.outbox[k].dispatchedAt.Some? { assert k in DispatchedIds(b); }
    }
  }

  lemma Stages<T>(x: set<T>, y: set<T>, z: set<T>)
    requires x <= y <= z
    ensures |z - x| == |y - x| + |z - y|
  {
    assert z - x == (y - x) + (z - y);
  }

  /** Inside a pass: `finished` of the claimed events are closed, and nothing else moved. */
  ghost predicate Midway(start: Db, db: Db, claimed: set<OutboxId>, finished: set<OutboxId>) {
    && db.outbox.Keys == start.outbox.Keys && finished <= claimed <= start.outbox.Keys
    && DispatchedIds(db) == DispatchedIds(start) + finished
    && (forall o :: o in start.outbox ==>
          db.outbox[o].attempts == start.outbox[o].attempts + (if o in claimed then 1 else 0))
    && (Matching(start) ==> Matching(db))
    && (claimed == {} ==> db == start)
  }

  lemma PassBegins(a: Db, cap: nat, claimed: set<OutboxId>)
    requires claimed <= ClaimableIds(a, cap)
    ensures Midway(a, ClaimTxn(a, claimed), claimed, {})
  {
    ClaimEffect(a, ClaimTxn(a, claimed), cap, claimed);
  }

  lemma PassAdvances(start: Db, a: Db, claimed: set<OutboxId>, finished: set<OutboxId>, e: Event, at: int)
    requires Midway(start, a, claimed, finished) && EventAgrees(a, e) && e.outboxId in claimed
    ensures Midway(start, CompleteTxn(a, e, at), claimed, finished + {e.outboxId})
  {
    CompletionEffect(a, e, at);
  }

  lemma PassEnds(start: Db, b: Db, cap: nat, limit: nat, claimed: set<OutboxId>, finished: set<OutboxId>)
    requires Midway(start, b, claimed, finished) && OldestFirst(start, cap, limit, claimed)
    ensures PassEffect(start, b, cap, limit, claimed, RelayRun(|claimed|, |finished|))
    ensures finished == claimed ==> claimed <= DispatchedIds(b)
  {
    assert DispatchedIds(b) - DispatchedIds(start) == finished by {
      forall o | o in finished ensures o !in DispatchedIds(start) {
        assert o in ClaimableIds(start, cap);
      }
    }
  }

  /* ---- the pass as a function of the world ----------------------------- */

  /** Load under the event's tenant, write the graph, then reveal and close together. */
  function Dispatch(env: Env, w: World, e: Event): (World, bool) {
    var found := LoadTxn(w.db, e);
    if found.None? then (w, false)
    else
      var edge := w.graph[e.assertion := EdgeOf(found.value)];
      match env.outcome(w.calls)
      case Unavailable(landed) => (World(w.db, if landed then edge else w.graph, w.calls + 1), false)
      case Written => (World(CompleteTxn(w.db, e, env.clock(w.calls)), edge, w.calls + 1), true)
  }

  function DispatchAll(env: Env, w: World, events: seq<Event>): (World, nat)
    decreases |events|
  {
    if events == [] then (w, 0)
    else
      var (next, done) := Dispatch(env, w, events[0]);
      var (last, count) := DispatchAll(env, next, events[1..]);
      (last, count + if done then 1 else 0)
  }

  ghost predicate FaithfulEvents(db: Db, events: seq<Event>) {
    && (forall i, j :: 0 <= i < j < |events| ==> events[i].outboxId != events[j].outboxId)
    && (forall i :: 0 <= i < |events| ==>
          events[i].outboxId in db.outbox && events[i] == EventOf(db, events[i].outboxId))
  }

  /** `events` is what one CLAIM_OUTBOX over `db` may return. */
  ghost predicate ClaimOf(env: Env, db: Db, events: seq<Event>) {
    && OldestFirst(db, env.maxAttempts, env.batchSize, IdsOf(events))
    && |events| == |IdsOf(events)| && FaithfulEvents(db, events)
  }

  ghost function Pass(env: Env, w: World, events: seq<Event>): (World, RelayRun)
    requires ClaimOf(env, w.db, events)
  {
    var (last, count) := DispatchAll(env, w.(db := ClaimTxn(w.db, IdsOf(events))), events);
    (last, RelayRun(|events|, count))
  }

  lemma DispatchSound(env: Env, w: World, e: Event)
    requires Ready(env, w) && EventAgrees(w.db, e)
    ensures var (next, done) := Dispatch(env, w, e);
            && Ready(env, next) && DbGrows(w.db, next.db)
            && (done <==> LoadTxn(w.db, e).Some? && env.outcome(w.calls).Written?)
            && next.db == (if done then CompleteTxn(w.db, e, env.clock(w.calls)) else w.db)
  {
    if LoadTxn(w.db, e).Some? {
      assert EventKept(w.db, e.outboxId, env.maxAttempts);
      var edge := w.graph[e.assertion := EdgeOf(LoadTxn(w.db, e).value)];
      assert GraphAgrees(w.db, edge) by {
        forall x ensures EdgeAgrees(w.db, edge, x) { assert EdgeAgrees(w.db, w.graph, x); }
      }
      CompleteTxnSound(w.db, edge, e, env.clock(w.calls), env.maxAttempts);
    }
  }

  lemma DispatchInPass(env: Env, start: Db, w: World, e: Event, claimed: set<OutboxId>, finished: set<OutboxId>)
    requires Ready(env, w) && Midway(start, w.db, claimed, finished) && EventAgrees(w.db, e) && e.outboxId in claimed
    ensures var (next, done) := Dispatch(env, w, e);
            && Ready(env, next) && DbGrows(w.db, next.db)
            && Midway(start, next.db, claimed, finished + if done then {e.outboxId} else {})
  {
    DispatchSound(env, w, e);
    PassAdvances(start, w.db, claimed, finished, e, env.clock(w.calls));
    assert finished + {} == finished;
  }

  /** The events a list of dispatches closes. */
  function Closed(env: Env, w: World, events: seq<Event>): set<OutboxId>
    decreases |events|
  {
    if events == [] then {}
    else
      var (next, done) := Dispatch(env, w, events[0]);
      (if done then {events[0].outboxId} else {}) + Closed(env, next, events[1..])
  }

  lemma {:induction false} ClosedCounts(env: Env, w: World, events: seq<Event>)
    requires forall i, j :: 0 <= i < j < |events| ==> events[i].outboxId != events[j].outboxId
    ensures Closed(env, w, events) <= IdsOf(events)
    ensures |Closed(env, w, events)| == DispatchAll(env, w, events).1
    decreases |events|
  {
    if events != [] {
      var next := Dispatch(env, w, events[0]).0;
      HeadOfIds(events);
      ClosedCounts(env, next, events[1..]);
      OneMore(events[0].outboxId, Closed(env, next, events[1..]), IdsOf(events[1..]));
    }
  }

  lemma {:induction false} DispatchAllKeeps(env: Env, w: World, events: seq<Event>)
    requires Ready(env, w)
    requires forall i :: 0 <= i < |events| ==> EventAgrees(w.db, events[i])
    ensures Ready(env, DispatchAll(env, w, events).0) && DbGrows(w.db, DispatchAll(env, w, events).0.db)
    decreases |events|
  {
    if events != [] {
      var next := Dispatch(env, w, events[0]).0;
      DispatchSound(env, w, events[0]);
      EventsStillAgree(w.db, next.db, events[1..]);
      DispatchAllKeeps(env, next, events[1..]);
      DbGrowsTransitive(w.db, next.db, DispatchAll(env, w, events).0.db);
    }
  }

  lemma HealthyDispatch(env: Env, w: World, e: Event)
    requires Ready(env, w) && Healthy(env) && Matching(w.db) && EventAgrees(w.db, e)
    ensures var (next, done) := Dispatch(env, w, e);
            done && Ready(env, next) && DbGrows(w.db, next.db) && Matching(next.db)
  {
    DispatchSound(env, w, e);
    CompletionEffect(w.db, e, env.clock(w.calls));
  }

  /** With the graph up and every payload its row's own, every event of the list is closed. */
  lemma {:induction false} HealthyClosesAll(env: Env, w: World, events: seq<Event>)
    requires Ready(env, w) && Healthy(env) && Matching(w.db)
    requires forall i :: 0 <= i < |events| ==> EventAgrees(w.db, events[i])
    ensures Closed(env, w, events) == IdsOf(events)
    decreases |events|
  {
    if events != [] {
      var next := Dispatch(env, w, events[0]).0;
      HealthyDispatch(env, w, events[0]);
      EventsStillAgree(w.db, next.db, events[1..]);
      HealthyClosesAll(env, next, events[1..]);
      IdsOfFirst(events);
    }
  }

  lemma IdsOfFirst(events: seq<Event>)
    requires events != []
    ensures IdsOf(events) == {events[0].outboxId} + IdsOf(events[1..])
  {
    assert events == [events[0]] + events[1..];
  }

  /** Dispatching a claimed list closes what it closes, and moves nothing else. */
  lemma {:induction false} DispatchAllMidway(
    env: Env, start: Db, w: World, events: seq<Event>, claimed: set<OutboxId>, finished: set<OutboxId>)
    requires Ready(env, w) && Midway(start, w.db, claimed, finished)
    requires forall i :: 0 <= i < |events| ==> EventAgrees(w.db, events[i]) && events[i].outboxId in claimed
    ensures Midway(start, DispatchAll(env, w, events).0.db, claimed, finished + Closed(env, w, events))
    decreases |events|
  {
    if events == [] {
      assert finished + {} == finished;
    } else {
      var e, rest := events[0], events[1..];
      var (next, done) := Dispatch(env, w, e);
      var now := if done then {e.outboxId} else {};
      DispatchInPass(env, start, w, e, claimed, finished);
      EventsStillAgree(w.db, next.db, rest);
      DispatchAllMidway(env, start, next, rest, claimed, finished + now);
      Regroup(finished, now, Closed(env, next, rest));
    }
  }

  lemma Regroup<T>(x: set<T>, y: set<T>, z: set<T>)
    ensures (x + y) + z == x + (y + z)
    ensures {} + x == x
  {
  }

  lemma OneMore<T>(x: T, xs: set<T>, bound: set<T>)
    requires xs <= bound && x !in bound
    ensures |{x} + xs| == 1 + |xs| && {x} + xs <= {x} + bound
  {
  }

  lemma HeadOfIds(events: seq<Event>)
    requires events != []
    requires forall i, j :: 0 <= i < j < |events| ==> events[i].outboxId != events[j].outboxId
    ensures IdsOf(events) == {events[0].outboxId} + IdsOf(events[1..])
    ensures events[0].outboxId !in IdsOf(events[1..])
  {
    assert events == [events[0]] + events[1..];
  }

  lemma ClaimKeepsReady(env: Env, w: World, claimed: set<OutboxId>)
    requires Ready(env, w) && claimed <= ClaimableIds(w.db, env.maxAttempts)
    ensures Ready(env, w.(db := ClaimTxn(w.db, claimed)))
    ensures forall o :: o in w.db.outbox ==> EventAgrees(ClaimTxn(w.db, claimed), EventOf(w.db, o))
    ensures DbGrows(w.db, ClaimTxn(w.db, claimed))
  {
    ClaimTxnSound(w.db, claimed, env.maxAttempts);
    GraphAcrossGrowth(w.db, ClaimTxn(w.db, claimed), w.graph);
  }

  lemma PassKeeps(env: Env, w: World, events: seq<Event>)
    requires Ready(env, w) && ClaimOf(env, w.db, events)
    ensures Ready(env, Pass(env, w, events).0) && DbGrows(w.db, Pass(env, w, events).0.db)
  {
    var db := ClaimTxn(w.db, IdsOf(events));
    ClaimKeepsReady(env, w, IdsOf(events));
    DispatchAllKeeps(env, w.(db := db), events);
    DbGrowsTransitive(w.db, db, Pass(env, w, events).0.db);
  }

  /** What one pass did, from its claim alone: it counts exactly the events it closed. */
  lemma PassSound(env: Env, w: World, events: seq<Event>)
    requires Ready(env, w) && ClaimOf(env, w.db, events)
    ensures var (after, run) := Pass(env, w, events);
            && PassEffect(w.db, after.db, env.maxAttempts, env.batchSize, IdsOf(events), run)
            && (Matching(w.db) ==> Matching(after.db))
            && (Healthy(env) && Matching(w.db) ==> IdsOf(events) <= DispatchedIds(after.db))
  {
    var claimed, begun := IdsOf(events), w.(db := ClaimTxn(w.db, IdsOf(events)));
    PassBegins(w.db, env.maxAttempts, claimed);
    ClaimKeepsReady(env, w, claimed);
    forall i | 0 <= i < |events| ensures events[i].outboxId in claimed { assert events[i] in events; }
    DispatchAllMidway(env, w.db, begun, events, claimed, {});
    ClosedCounts(env, begun, events);
    var closed := Closed(env, begun, events);
    Regroup(closed, {}, {});
    PassEnds(w.db, Pass(env, w, events).0.db, env.maxAttempts, env.batchSize, claimed, closed);
    if Healthy(env) && Matching(w.db) { HealthyClosesAll(env, begun, events); }
  }

  /* ---- the drain as a list of passes ----------------------------------- */

  ghost predicate Busy(env: Env, w: World, passes: seq<seq<Event>>)
    decreases |passes|
  {
    passes != [] ==>
      ClaimOf(env, w.db, passes[0]) && passes[0] != [] && Busy(env, Pass(env, w, passes[0]).0, passes[1..])
  }

  ghost function Passes(env: Env, w: World, passes: seq<seq<Event>>): (World, nat)
    requires Busy(env, w, passes)
    decreases |passes|
  {
    if passes == [] then (w, 0)
    else
      var (next, run) := Pass(env, w, passes[0]);
      var (last, released) := Passes(env, next, passes[1..]);
      (last, released + run.dispatched)
  }

  lemma {:induction false} PassesSnoc(env: Env, w: World, passes: seq<seq<Event>>, events: seq<Event>)
    requires Busy(env, w, passes) && ClaimOf(env, Passes(env, w, passes).0.db, events) && events != []
    ensures Busy(env, w, passes + [events])
    ensures Passes(env, w, passes + [events]).0 == Pass(env, Passes(env, w, passes).0, events).0
    ensures Passes(env, w, passes + [events]).1
         == Passes(env, w, passes).1 + Pass(env, Passes(env, w, passes).0, events).1.dispatched
    decreases |passes|
  {
    if passes == [] {
      assert passes + [events] == [events] && [events][1..] == [];
    } else {
      assert (passes + [events])[1..] == passes[1..] + [events];
      PassesSnoc(env, Pass(env, w, passes[0]).0, passes[1..], events);
    }
  }

  lemma PassSpends(env: Env, w: World, events: seq<Event>)
    requires Ready(env, w) && ClaimOf(env, w.db, events) && events != []
    ensures Ready(env, Pass(env, w, events).0)
    ensures var after := Pass(env, w, events).0.db;
            Budget(after.outbox, after.outbox.Keys, env.maxAttempts)
            < Budget(w.db.outbox, w.db.outbox.Keys, env.maxAttempts)
  {
    PassKeeps(env, w, events);
    PassSound(env, w, events);
    assert events[0] in events && events[0].outboxId in IdsOf(events);
    BusyPass(w.db, Pass(env, w, events).0.db, env.maxAttempts, env.batchSize, IdsOf(events), Pass(env, w, events).1);
  }

  /** So far: these passes, from `start`, have brought the world to `w` and released so many. */
  ghost predicate Drained(env: Env, start: World, passes: seq<seq<Event>>, w: World, released: nat) {
    Ready(env, w) && Busy(env, start, passes) && Passes(env, start, passes).0 == w
    && Passes(env, start, passes).1 == released
  }

  ghost function Left(env: Env, w: World): nat { Budget(w.db.outbox, w.db.outbox.Keys, env.maxAttempts) }

  lemma OneMorePass(
    env: Env, start: World, passes: seq<seq<Event>>, before: World, released: nat, events: seq<Event>)
    requires Drained(env, start, passes, before, released) && ClaimOf(env, before.db, events) && events != []
    ensures Drained(env, start, passes + [events], Pass(env, before, events).0,
                    released + Pass(env, before, events).1.dispatched)
    ensures Left(env, Pass(env, before, events).0) < Left(env, before)
  {
    PassSpends(env, before, events);
    PassesSnoc(env, start, passes, events);
  }

  lemma {:induction false} PassesKeep(env: Env, w: World, passes: seq<seq<Event>>)
    requires Ready(env, w) && Busy(env, w, passes)
    ensures Ready(env, Passes(env, w, passes).0) && DbGrows(w.db, Passes(env, w, passes).0.db)
    decreases |passes|
  {
    DbGrowsReflexive(w.db);
    if passes != [] {
      var next := Pass(env, w, passes[0]).0;
      PassKeeps(env, w, passes[0]);
      PassesKeep(env, next, passes[1..]);
      DbGrowsTransitive(w.db, next.db, Passes(env, next, passes[1..]).0.db);
    }
  }

  /** Over any list of busy passes, the count is the newly dispatched rows. */
  lemma {:induction false} PassesRelease(env: Env, w: World, passes: seq<seq<Event>>)
    requires Ready(env, w) && Busy(env, w, passes)
    ensures var (last, released) := Passes(env, w, passes);
            && DispatchedIds(w.db) <= DispatchedIds(last.db)
            && released == |DispatchedIds(last.db) - DispatchedIds(w.db)|
    decreases |passes|
  {
    if passes != [] {
      var next := Pass(env, w, passes[0]).0;
      PassKeeps(env, w, passes[0]);
      PassSound(env, w, passes[0]);
      PassesRelease(env, next, passes[1..]);
      Stages(DispatchedIds(w.db), DispatchedIds(next.db), DispatchedIds(Passes(env, next, passes[1..]).0.db));
    }
  }

  function TimesClaimed(passes: seq<seq<Event>>, o: OutboxId): nat {
    if passes == [] then 0 else (if o in IdsOf(passes[0]) then 1 else 0) + TimesClaimed(passes[1..], o)
  }

  /** `attempts` is the number of claims, and stops at the cap. */
  lemma {:induction false} PassesCountClaims(env: Env, w: World, passes: seq<seq<Event>>, o: OutboxId)
    requires Ready(env, w) && Busy(env, w, passes) && o in w.db.outbox
    ensures var last := Passes(env, w, passes).0.db.outbox;
            && o in last && last[o].attempts == w.db.outbox[o].attempts + TimesClaimed(passes, o)
            && last[o].attempts <= env.maxAttempts
    decreases |passes|
  {
    if passes == [] {
      assert EventKept(w.db, o, env.maxAttempts);
    } else {
      PassKeeps(env, w, passes[0]);
      PassSound(env, w, passes[0]);
      PassesCountClaims(env, Pass(env, w, passes[0]).0, passes[1..], o);
    }
  }

  /** With the graph up and payloads matching, nothing claimable is ever lost from sight. */
  lemma {:induction false} PassesOwe(env: Env, w: World, passes: seq<seq<Event>>)
    requires Ready(env, w) && Busy(env, w, passes) && Healthy(env) && Matching(w.db)
    ensures var last := Passes(env, w, passes).0.db;
            ClaimableIds(w.db, env.maxAttempts) <= ClaimableIds(last, env.maxAttempts) + DispatchedIds(last)
    decreases |passes|
  {
    if passes != [] {
      var events, next := passes[0], Pass(env, w, passes[0]).0;
      PassKeeps(env, w, events);
      PassSound(env, w, events);
      assert events[0] in events && events[0].outboxId in IdsOf(events);
      BusyPass(w.db, next.db, env.maxAttempts, env.batchSize, IdsOf(events), Pass(env, w, events).1);
      PassesOwe(env, next, passes[1..]);
      PassesRelease(env, next, passes[1..]);
    }
  }

  /** A drain that stopped, stopped because nothing was claimable (or it claims nothing ever). */
  lemma DrainComplete(env: Env, w: World, passes: seq<seq<Event>>)
    requires Ready(env, w) && Busy(env, w, passes) && ClaimOf(env, Passes(env, w, passes).0.db, [])
    ensures var (world, released) := Passes(env, w, passes);
            var last := world.db;
            && Ready(env, world) && DbGrows(w.db, last)
            && released == |DispatchedIds(last) - DispatchedIds(w.db)|
            && (env.batchSize == 0 || ClaimableIds(last, env.maxAttempts) == {})
            && (env.batchSize > 0 && Healthy(env) && Matching(w.db) ==>
                  ClaimableIds(w.db, env.maxAttempts) <= DispatchedIds(last))
  {
    PassesKeep(env, w, passes);
    PassesRelease(env, w, passes);
    assert IdsOf([]) == {};
    if Healthy(env) && Matching(w.db) { PassesOwe(env, w, passes); }
  }

  /** And the bound matters: a relay built with a batch of zero drains nothing. */
  lemma ZeroBatchDrainsNothing(env: Env, w: World, events: seq<Event>)
    requires env.batchSize == 0 && ClaimOf(env, w.db, events)
    ensures events == [] && Pass(env, w, events) == (w, RelayRun(0, 0))
  {
    EmptyPass(env, w);
  }

  lemma EmptyPass(env: Env, w: World)
    requires ClaimOf(env, w.db, [])
    ensures Pass(env, w, []) == (w, RelayRun(0, 0))
  {
    assert IdsOf([]) == {};
    ClaimEffect(w.db, ClaimTxn(w.db, {}), env.maxAttempts, {});
  }

  /** Part way through a claim: `events` are the oldest of `all`, `pool` the rest. */
  ghost predicate Taking(db: Db, all: set<OutboxId>, events: seq<Event>, pool: set<OutboxId>) {
    && IdsOf(events) + pool == all <= db.outbox.Keys && IdsOf(events) !! pool && |events| == |IdsOf(events)|
    && FaithfulEvents(db, events)
    && (forall a, b :: a in IdsOf(events) && b in pool ==> db.outbox[a].createdAt <= db.outbox[b].createdAt)
  }

  lemma FaithfulSnoc(db: Db, events: seq<Event>, o: OutboxId)
    requires FaithfulEvents(db, events) && o in db.outbox && o !in IdsOf(events)
    ensures FaithfulEvents(db, events + [EventOf(db, o)])
  {
    forall i | 0 <= i < |events| ensures events[i].outboxId != o {
      assert events[i] in events;
    }
  }

  lemma TakeOne(db: Db, all: set<OutboxId>, events: seq<Event>, pool: set<OutboxId>, o: OutboxId)
    requires Taking(db, all, events, pool) && o in pool
    requires forall p :: p in pool ==> db.outbox[o].createdAt <= db.outbox[p].createdAt
    ensures Taking(db, all, events + [EventOf(db, o)], pool - {o})
  {
    IdsSnoc(events, EventOf(db, o));
    FaithfulSnoc(db, events, o);
    assert IdsOf(events) + {o} + (pool - {o}) == IdsOf(events) + pool;
  }

  lemma IdsSnoc(events: seq<Event>, e: Event)
    ensures IdsOf(events + [e]) == IdsOf(events) + {e.outboxId}
  {
    assert forall x :: x in events + [e] <==> x in events || x == e;
  }

  class OutboxRelay {
    var world: World
    const env: Env

    constructor (env: Env, world: World)
      ensures this.env == env && this.world == world
    {
      this.env, this.world := env, world;
    }

    /** CLAIM_OUTBOX: the attempt is on record before any work starts. */
    method Claim() returns (events: seq<Event>)
      modifies this
      ensures ClaimOf(env, old(world).db, events)
      ensures world == old(world).(db := ClaimTxn(old(world).db, IdsOf(events)))
    {
      events := TakeOldest(world.db);
      world := world.(db := ClaimTxn(world.db, IdsOf(events)));
    }

    method TakeOldest(db: Db) returns (events: seq<Event>)
      ensures ClaimOf(env, db, events)
    {
      events := [];
      ghost var all := ClaimableIds(db, env.maxAttempts);
      var pool := ClaimableIds(db, env.maxAttempts);
      while |events| < env.batchSize && pool != {}
        invariant |events| <= env.batchSize && Taking(db, all, events, pool) && all <= db.outbox.Keys
        decreases pool
      {
        OldestExists(db.outbox, pool);
        var o :| o in pool && forall p :: p in pool ==> db.outbox[o].createdAt <= db.outbox[p].createdAt;
        TakeOne(db, all, events, pool, o);
        events := events + [EventOf(db, o)];
        pool := pool - {o};
      }
      assert |all| == |IdsOf(events)| + |pool|;
      assert all - IdsOf(events) == pool;
    }

    /** The batch, event by event; an event left pending stops nothing. */
    method DispatchClaimed(events: seq<Event>) returns (dispatched: nat)
      modifies this
      ensures world == DispatchAll(env, old(world), events).0
      ensures dispatched == DispatchAll(env, old(world), events).1
    {
      ghost var start := world;
      dispatched := 0;
      for i := 0 to |events|
        invariant DispatchAll(env, start, events).0 == DispatchAll(env, world, events[i..]).0
        invariant DispatchAll(env, start, events).1 == dispatched + DispatchAll(env, world, events[i..]).1
      {
        assert events[i..][0] == events[i] && events[i..][1..] == events[i + 1..];
        var (next, done) := Dispatch(env, world, events[i]);
        world := next;
        if done { dispatched := dispatched + 1; }
      }
      assert events[|events|..] == [];
    }

    /** One pass: claim, then dispatch what was claimed. */
    method RunOnce() returns (run: RelayRun, ghost events: seq<Event>)
      modifies this
      ensures ClaimOf(env, old(world).db, events)
      ensures world == Pass(env, old(world), events).0 && run == Pass(env, old(world), events).1
    {
      var claimed := Claim();
      events := claimed;
      var dispatched := DispatchClaimed(claimed);
      run := RelayRun(|claimed|, dispatched);
    }

    /** Passes until one claims nothing; it stops, and `DrainComplete` says what then holds. */
    method Drain() returns (released: nat, ghost passes: seq<seq<Event>>)
      requires Ready(env, world)
      modifies this
      ensures Busy(env, old(world), passes)
      ensures world == Passes(env, old(world), passes).0 && released == Passes(env, old(world), passes).1
      ensures ClaimOf(env, world.db, [])
    {
      ghost var start := world;
      released, passes := 0, [];
      var run, events := RunOnce();
      ghost var before := start;
      while run.claimed > 0
        invariant Drained(env, start, passes, before, released)
        invariant ClaimOf(env, before.db, events)
        invariant world == Pass(env, before, events).0 && run == Pass(env, before, events).1
        decreases Left(env, before)
      {
        OneMorePass(env, start, passes, before, released, events);
        passes, released, before := passes + [events], released + run.dispatched, world;
        run, events := RunOnce();
      }
      assert events == [];
      EmptyPass(env, before);
    }
  }
}
