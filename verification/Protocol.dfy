/**
  The dual-write protocol as a step relation: proposals being decided and
  applied, any number of relays claiming, loading, writing the graph and
  completing, and a crash between any two of those.

  A step is one transaction, one graph call or one crash.  `Exec` is total, and
  a step that is not enabled changes nothing, so a run is any list of steps: the
  theorems quantify over all of them, from the empty database.
*/
module Protocol {
  import opened Prelude
  import opened Store

  /** What one relay process is holding in memory. */
  datatype Relay =
    | Idle
    | Pending(queue: seq<Event>)
    | Loaded(queue: seq<Event>, row: Row)
    | Upserted(queue: seq<Event>)

  datatype State = State(
    db: Db,
    graph: Graph,
    relays: map<nat, Relay>,
    decided: map<Id, Governed>,
    seeded: set<Id>,
    born: map<Id, nat>,
    next: nat)

  const INIT := State(EMPTY, map[], map[], map[], {}, map[], 0)

  datatype Step =
    | Seed(key: string, fact: Fact, citation: string, now: int)
    | Decide(g: Governed)
    | Apply(id: Id, at: int)
    | Claim(relay: nat, order: seq<OutboxId>)
    | Load(relay: nat)
    | GraphFails(relay: nat, landed: bool)
    | GraphWrites(relay: nat)
    | Complete(relay: nat, at: int)
    | Crash(relay: nat)

  function RelayAt(s: State, r: nat): Relay { if r in s.relays then s.relays[r] else Idle }

  function Rest(queue: seq<Event>): Relay
    requires queue != []
  {
    if |queue| == 1 then Idle else Pending(queue[1..])
  }

  predicate Distinct<T(==)>(xs: seq<T>) { forall i, j :: 0 <= i < j < |xs| ==> xs[i] != xs[j] }

  predicate Enabled(s: State, step: Step, cap: nat) {
    match step
    case Seed(_, _, _, _) => true
    // A decision is taken before its row exists, against an incumbent that does.
    case Decide(g) =>
      && g.AssertionId() !in s.db.rows && g.AssertionId() !in s.decided
      && (g.incumbent.Some? ==> g.incumbent.value in s.db.rows)
    case Apply(id, at) => id in s.decided && ApplyTxn(s.db, s.decided[id], at).Ok?
    case Claim(r, order) =>
      && RelayAt(s, r).Idle? && order != [] && Distinct(order)
      && (forall i :: 0 <= i < |order| ==> order[i] in s.db.outbox && Claimable(s.db.outbox[order[i]], cap))
    case Load(r) => RelayAt(s, r).Pending? && RelayAt(s, r).queue != []
    case GraphFails(r, _) => RelayAt(s, r).Loaded? && RelayAt(s, r).queue != []
    case GraphWrites(r) => RelayAt(s, r).Loaded? && RelayAt(s, r).queue != []
    case Complete(r, _) => RelayAt(s, r).Upserted? && RelayAt(s, r).queue != []
    case Crash(r) => true
  }

  function Born(s: State, db: Db, id: Id): State {
    s.(db := db,
       born := if id in s.db.rows then s.born else s.born[id := s.next],
       next := s.next + 1)
  }

  function Exec(s: State, step: Step, cap: nat): State {
    if !Enabled(s, step, cap) then s else
    match step
    case Seed(key, fact, citation, now) =>
      Born(s.(seeded := s.seeded + {Seeded(key)}), WriteIn(s.db, Seeded(key), fact, citation, now), Seeded(key))
    case Decide(g) => s.(decided := s.decided[g.AssertionId() := g])
    case Apply(id, at) =>
      var done := ApplyTxn(s.db, s.decided[id], at).value.0;
      if s.decided[id].Writes() then Born(s, done, id) else s.(db := done)
    case Claim(r, order) =>
      s.(db := ClaimTxn(s.db, set o | o in order),
         relays := s.relays[r := Pending(seq(|order|, i requires 0 <= i < |order| => EventOf(s.db, order[i])))])
    case Load(r) =>
      var queue := s.relays[r].queue;
      var found := LoadTxn(s.db, queue[0]);
      s.(relays := s.relays[r := if found.Some? then Loaded(queue, found.value) else Rest(queue)])
    // The store raised; whether the edge landed first is not known to the relay.
    case GraphFails(r, landed) =>
      var local := s.relays[r];
      s.(relays := s.relays[r := Rest(local.queue)],
         graph := if landed then s.graph[local.queue[0].assertion := EdgeOf(local.row)] else s.graph)
    case GraphWrites(r) =>
      var local := s.relays[r];
      s.(relays := s.relays[r := Upserted(local.queue)],
         graph := s.graph[local.queue[0].assertion := EdgeOf(local.row)])
    case Complete(r, at) =>
      var queue := s.relays[r].queue;
      s.(db := CompleteTxn(s.db, queue[0], at), relays := s.relays[r := Rest(queue)])
    case Crash(r) => s.(relays := s.relays[r := Idle])
  }

  function Run(s: State, steps: seq<Step>, cap: nat): State
    decreases |steps|
  {
    if steps == [] then s else Run(Exec(s, steps[0], cap), steps[1..], cap)
  }

  /* ------------------------------------------------------------------ */
  /* The dual write                                                       */
  /* ------------------------------------------------------------------ */

  /** A row is sourced and owns its event; the flip and the close are one fact. */
  ghost predicate RowAgrees(db: Db, id: Id) {
    id in db.rows ==>
      && id in db.cites && db.cites[id] != {}
      && OutboxFor(id) in db.outbox && db.outbox[OutboxFor(id)].assertion == id
      && (db.rows[id].visible <==> db.outbox[OutboxFor(id)].dispatchedAt.Some?)
  }

  /** An event is its assertion's only one, and never claimed past the cap. */
  ghost predicate EventKept(db: Db, o: OutboxId, cap: nat) {
    o in db.outbox ==>
      && o == OutboxFor(db.outbox[o].assertion) && db.outbox[o].assertion in db.rows
      && db.outbox[o].attempts <= cap
  }

  ghost predicate TablesAgree(db: Db, cap: nat) {
    && (forall id {:trigger RowAgrees(db, id)} :: RowAgrees(db, id))
    && (forall o {:trigger EventKept(db, o, cap)} :: EventKept(db, o, cap))
  }

  /** An edge carries its row's immutable columns; a visible row has one. */
  ghost predicate EdgeAgrees(db: Db, graph: Graph, id: Id) {
    && (id in graph ==> id in db.rows && graph[id].fact == db.rows[id].fact)
    && (id in db.rows && db.rows[id].visible ==> id in graph)
  }

  ghost predicate GraphAgrees(db: Db, graph: Graph) {
    forall id {:trigger EdgeAgrees(db, graph, id)} :: EdgeAgrees(db, graph, id)
  }

  ghost predicate EventAgrees(db: Db, e: Event) {
    && e.outboxId in db.outbox
    && e.assertion == db.outbox[e.outboxId].assertion && e.tenant == db.outbox[e.outboxId].tenant
  }

  ghost predicate RelayAgrees(db: Db, graph: Graph, local: Relay) {
    match local
    case Idle => true
    case Pending(queue) => queue != [] && forall i :: 0 <= i < |queue| ==> EventAgrees(db, queue[i])
    case Loaded(queue, row) =>
      && queue != [] && (forall i :: 0 <= i < |queue| ==> EventAgrees(db, queue[i]))
      && LoadTxn(db, queue[0]).Some? && row.fact == db.rows[queue[0].assertion].fact
    case Upserted(queue) =>
      && queue != [] && (forall i :: 0 <= i < |queue| ==> EventAgrees(db, queue[i]))
      && LoadTxn(db, queue[0]).Some? && queue[0].assertion in graph
  }

  ghost predicate RelaysAgree(db: Db, graph: Graph, relays: map<nat, Relay>) {
    forall r :: r in relays ==> RelayAgrees(db, graph, relays[r])
  }

  ghost predicate DualWrite(s: State, cap: nat) {
    TablesAgree(s.db, cap) && GraphAgrees(s.db, s.graph) && RelaysAgree(s.db, s.graph, s.relays)
  }

  /** What no step takes back, between any two moments of a run. */
  ghost predicate RowGrows(a: Db, b: Db, id: Id) {
    && (id in a.rows ==>
          && id in b.rows && b.rows[id].fact == a.rows[id].fact
          && (a.rows[id].visible ==> b.rows[id].visible)
          && (!a.rows[id].Live() ==>
                b.rows[id].validTo == a.rows[id].validTo && b.rows[id].supersededBy == a.rows[id].supersededBy))
    && (id in a.cites ==> id in b.cites && a.cites[id] <= b.cites[id])
  }

  ghost predicate EventGrows(a: Db, b: Db, o: OutboxId) {
    o in a.outbox ==>
      && o in b.outbox
      && b.outbox[o].assertion == a.outbox[o].assertion && b.outbox[o].tenant == a.outbox[o].tenant
      && b.outbox[o].createdAt == a.outbox[o].createdAt
      && a.outbox[o].attempts <= b.outbox[o].attempts
      && (a.outbox[o].dispatchedAt.Some? ==> b.outbox[o].dispatchedAt == a.outbox[o].dispatchedAt)
  }

  ghost predicate DbGrows(a: Db, b: Db) {
    && (forall id {:trigger RowGrows(a, b, id)} :: RowGrows(a, b, id))
    && (forall o {:trigger EventGrows(a, b, o)} :: EventGrows(a, b, o))
    && a.audit <= b.audit
  }

  lemma DbGrowsTransitive(a: Db, b: Db, c: Db)
    requires DbGrows(a, b) && DbGrows(b, c)
    ensures DbGrows(a, c)
  {
    forall id ensures RowGrows(a, c, id) { assert RowGrows(a, b, id) && RowGrows(b, c, id); }
    forall o ensures EventGrows(a, c, o) { assert EventGrows(a, b, o) && EventGrows(b, c, o); }
  }

  lemma WriteInSound(db: Db, id: Id, fact: Fact, citation: string, now: int, cap: nat)
    requires TablesAgree(db, cap)
    ensures TablesAgree(WriteIn(db, id, fact, citation, now), cap)
    ensures DbGrows(db, WriteIn(db, id, fact, citation, now))
    ensures RevealsNothing(db, WriteIn(db, id, fact, citation, now))
  {
    var after := WriteIn(db, id, fact, citation, now);
    assert RowAgrees(db, id) && EventKept(db, OutboxFor(id), cap);
    assert citation in after.cites[id];
    forall x ensures RowAgrees(after, x) { assert RowAgrees(db, x); }
    forall o ensures EventKept(after, o, cap) { assert EventKept(db, o, cap); }
  }

  lemma SupersedeInSound(db: Db, tenant: string, incumbent: Id, successor: Id, at: int, cap: nat)
    requires TablesAgree(db, cap) && SupersedeIn(db, tenant, incumbent, successor, at).Ok?
    ensures TablesAgree(SupersedeIn(db, tenant, incumbent, successor, at).value, cap)
    ensures DbGrows(db, SupersedeIn(db, tenant, incumbent, successor, at).value)
    ensures RevealsNothing(db, SupersedeIn(db, tenant, incumbent, successor, at).value)
  {
    var after := SupersedeIn(db, tenant, incumbent, successor, at).value;
    forall x ensures RowAgrees(after, x) { assert RowAgrees(db, x); }
    forall o ensures EventKept(after, o, cap) { assert EventKept(db, o, cap); }
  }

  lemma AuditGrows(db: Db, event: AuditEvent, cap: nat)
    requires TablesAgree(db, cap)
    ensures var after := db.(audit := db.audit + [event]);
            TablesAgree(after, cap) && DbGrows(db, after) && RevealsNothing(db, after)
  {
    var after := db.(audit := db.audit + [event]);
    forall x ensures RowAgrees(after, x) { assert RowAgrees(db, x); }
    forall o ensures EventKept(after, o, cap) { assert EventKept(db, o, cap); }
  }

  /** The rows readers may see are the same rows before and after. */
  ghost predicate RevealsNothing(a: Db, b: Db) {
    forall id :: id in b.rows && b.rows[id].visible ==> id in a.rows && a.rows[id].visible
  }

  lemma ApplyTxnSound(db: Db, g: Governed, at: int, cap: nat)
    requires TablesAgree(db, cap) && ApplyTxn(db, g, at).Ok?
    ensures TablesAgree(ApplyTxn(db, g, at).value.0, cap)
    ensures DbGrows(db, ApplyTxn(db, g, at).value.0)
    ensures RevealsNothing(db, ApplyTxn(db, g, at).value.0)
  {
    var id, done := g.AssertionId(), ApplyTxn(db, g, at).value.0;
    AuditGrows(db, Decided(id), cap);
    var decided := db.(audit := db.audit + [Decided(id)]);
    if g.Writes() {
      var inserted := WriteIn(decided, id, g.fact, g.citation, at);
      WriteInSound(decided, id, g.fact, g.citation, at, cap);
      DbGrowsTransitive(db, decided, inserted);
      AuditGrows(inserted, Wrote(id), cap);
      var written := inserted.(audit := inserted.audit + [Wrote(id)]);
      DbGrowsTransitive(db, inserted, written);
      if g.Supersedes() {
        var moved := SupersedeIn(written, g.fact.slot.tenant, g.incumbent.value, id, at).value;
        SupersedeInSound(written, g.fact.slot.tenant, g.incumbent.value, id, at, cap);
        DbGrowsTransitive(db, written, moved);
        AuditGrows(moved, Superseded(g.incumbent.value, id), cap);
        DbGrowsTransitive(db, moved, done);
      }
    }
  }

  /** Growing the tables keeps what a relay remembers true. */
  lemma RelayAgreesAcrossGrowth(a: Db, b: Db, graph: Graph, graph': Graph, local: Relay)
    requires RelayAgrees(a, graph, local) && DbGrows(a, b) && graph.Keys <= graph'.Keys
    ensures RelayAgrees(b, graph', local)
  {
    if !local.Idle? {
      EventsStillAgree(a, b, local.queue);
      assert RowGrows(a, b, local.queue[0].assertion);
    }
  }

  lemma EventsStillAgree(a: Db, b: Db, events: seq<Event>)
    requires DbGrows(a, b)
    requires forall j :: 0 <= j < |events| ==> EventAgrees(a, events[j])
    ensures forall j :: 0 <= j < |events| ==> EventAgrees(b, events[j])
  {
    forall j | 0 <= j < |events| ensures EventAgrees(b, events[j]) {
      assert EventGrows(a, b, events[j].outboxId);
    }
  }

  lemma RelaysAgreeAcrossGrowth(a: Db, b: Db, graph: Graph, graph': Graph, relays: map<nat, Relay>)
    requires RelaysAgree(a, graph, relays) && DbGrows(a, b) && graph.Keys <= graph'.Keys
    ensures RelaysAgree(b, graph', relays)
  {
    forall r | r in relays ensures RelayAgrees(b, graph', relays[r]) {
      RelayAgreesAcrossGrowth(a, b, graph, graph', relays[r]);
    }
  }

  lemma RelayMoves(db: Db, graph: Graph, relays: map<nat, Relay>, r: nat, local: Relay)
    requires RelaysAgree(db, graph, relays) && RelayAgrees(db, graph, local)
    ensures RelaysAgree(db, graph, relays[r := local])
  {
  }

  lemma RestAgrees(db: Db, graph: Graph, queue: seq<Event>)
    requires queue != [] && forall i :: 0 <= i < |queue| ==> EventAgrees(db, queue[i])
    ensures RelayAgrees(db, graph, Rest(queue))
  {
  }

  lemma GraphAcrossGrowth(a: Db, b: Db, graph: Graph)
    requires GraphAgrees(a, graph) && DbGrows(a, b) && RevealsNothing(a, b)
    ensures GraphAgrees(b, graph)
  {
    forall id ensures EdgeAgrees(b, graph, id) { assert EdgeAgrees(a, graph, id) && RowGrows(a, b, id); }
  }

  /** A transaction that reveals nothing keeps the protocol's invariant. */
  lemma QuietTxn(s: State, s': State, cap: nat)
    requires DualWrite(s, cap) && TablesAgree(s'.db, cap) && DbGrows(s.db, s'.db) && RevealsNothing(s.db, s'.db)
    requires s'.graph == s.graph && s'.relays == s.relays
    ensures DualWrite(s', cap)
  {
    GraphAcrossGrowth(s.db, s'.db, s.graph);
    RelaysAgreeAcrossGrowth(s.db, s'.db, s.graph, s.graph, s.relays);
  }

  lemma SeedKeepsDualWrite(s: State, step: Step, cap: nat)
    requires step.Seed? && DualWrite(s, cap)
    ensures DualWrite(Exec(s, step, cap), cap) && DbGrows(s.db, Exec(s, step, cap).db)
  {
    WriteInSound(s.db, Seeded(step.key), step.fact, step.citation, step.now, cap);
    QuietTxn(s, Exec(s, step, cap), cap);
  }

  lemma ApplyKeepsDualWrite(s: State, step: Step, cap: nat)
    requires step.Apply? && DualWrite(s, cap) && Enabled(s, step, cap)
    ensures DualWrite(Exec(s, step, cap), cap) && DbGrows(s.db, Exec(s, step, cap).db)
  {
    ApplyTxnSound(s.db, s.decided[step.id], step.at, cap);
    QuietTxn(s, Exec(s, step, cap), cap);
  }

  lemma ClaimTxnSound(db: Db, claimed: set<OutboxId>, cap: nat)
    requires TablesAgree(db, cap) && claimed <= db.outbox.Keys
    requires forall o :: o in claimed ==> Claimable(db.outbox[o], cap)
    ensures TablesAgree(ClaimTxn(db, claimed), cap)
    ensures DbGrows(db, ClaimTxn(db, claimed)) && RevealsNothing(db, ClaimTxn(db, claimed))
    ensures forall o :: o in db.outbox ==> EventAgrees(ClaimTxn(db, claimed), EventOf(db, o))
  {
    var after := ClaimTxn(db, claimed);
    forall x ensures RowAgrees(after, x) { assert RowAgrees(db, x); }
    forall o ensures EventKept(after, o, cap) { assert EventKept(db, o, cap); }
  }

  lemma ClaimKeepsDualWrite(s: State, step: Step, cap: nat)
    requires step.Claim? && DualWrite(s, cap) && Enabled(s, step, cap)
    ensures DualWrite(Exec(s, step, cap), cap) && DbGrows(s.db, Exec(s, step, cap).db)
  {
    var claimed := set o | o in step.order;
    var db := ClaimTxn(s.db, claimed);
    ClaimTxnSound(s.db, claimed, cap);
    QuietTxn(s, s.(db := db), cap);
    RelayMoves(db, s.graph, s.relays, step.relay, Exec(s, step, cap).relays[step.relay]);
  }

  lemma LoadKeepsDualWrite(s: State, step: Step, cap: nat)
    requires step.Load? && DualWrite(s, cap) && Enabled(s, step, cap)
    ensures DualWrite(Exec(s, step, cap), cap) && Exec(s, step, cap).db == s.db
  {
    assert RelayAgrees(s.db, s.graph, s.relays[step.relay]);
    RestAgrees(s.db, s.graph, s.relays[step.relay].queue);
    RelayMoves(s.db, s.graph, s.relays, step.relay, Exec(s, step, cap).relays[step.relay]);
  }

  /** An edge written from a loaded row agrees with the row as it stands now. */
  lemma EdgeKeepsAgreement(db: Db, graph: Graph, relays: map<nat, Relay>, id: Id, row: Row)
    requires GraphAgrees(db, graph) && RelaysAgree(db, graph, relays)
    requires id in db.rows && row.fact == db.rows[id].fact
    ensures GraphAgrees(db, graph[id := EdgeOf(row)]) && RelaysAgree(db, graph[id := EdgeOf(row)], relays)
  {
    var wider := graph[id := EdgeOf(row)];
    DbGrowsReflexive(db);
    RelaysAgreeAcrossGrowth(db, db, graph, wider, relays);
    forall x ensures EdgeAgrees(db, wider, x) { assert EdgeAgrees(db, graph, x); }
  }

  lemma GraphStepKeepsDualWrite(s: State, step: Step, cap: nat)
    requires step.GraphFails? || step.GraphWrites?
    requires DualWrite(s, cap) && Enabled(s, step, cap)
    ensures DualWrite(Exec(s, step, cap), cap) && Exec(s, step, cap).db == s.db
  {
    var s', local := Exec(s, step, cap), s.relays[step.relay];
    assert RelayAgrees(s.db, s.graph, local);
    EdgeKeepsAgreement(s.db, s.graph, s.relays, local.queue[0].assertion, local.row);
    RestAgrees(s.db, s'.graph, local.queue);
    RelayMoves(s.db, s'.graph, s.relays, step.relay, s'.relays[step.relay]);
  }

  lemma CompleteTxnSound(db: Db, graph: Graph, e: Event, at: int, cap: nat)
    requires TablesAgree(db, cap) && GraphAgrees(db, graph) && EventAgrees(db, e)
    requires LoadTxn(db, e).Some? && e.assertion in graph
    ensures TablesAgree(CompleteTxn(db, e, at), cap)
    ensures GraphAgrees(CompleteTxn(db, e, at), graph)
    ensures DbGrows(db, CompleteTxn(db, e, at))
  {
    assert EventKept(db, e.outboxId, cap) && RowAgrees(db, e.assertion);
    var after := CompleteTxn(db, e, at);
    forall x ensures RowAgrees(after, x) { assert RowAgrees(db, x); }
    forall o ensures EventKept(after, o, cap) { assert EventKept(db, o, cap); }
    forall x ensures EdgeAgrees(after, graph, x) { assert EdgeAgrees(db, graph, x); }
  }

  lemma CompleteKeepsDualWrite(s: State, step: Step, cap: nat)
    requires step.Complete? && DualWrite(s, cap) && Enabled(s, step, cap)
    ensures DualWrite(Exec(s, step, cap), cap) && DbGrows(s.db, Exec(s, step, cap).db)
  {
    var s', queue := Exec(s, step, cap), s.relays[step.relay].queue;
    assert RelayAgrees(s.db, s.graph, s.relays[step.relay]);
    CompleteTxnSound(s.db, s.graph, queue[0], step.at, cap);
    RelaysAgreeAcrossGrowth(s.db, s'.db, s.graph, s.graph, s.relays);
    assert RelayAgrees(s'.db, s.graph, s.relays[step.relay]);
    RestAgrees(s'.db, s.graph, queue);
    RelayMoves(s'.db, s.graph, s.relays, step.relay, s'.relays[step.relay]);
  }

  lemma DbGrowsReflexive(db: Db)
    ensures DbGrows(db, db)
  {
  }

  lemma StepKeepsDualWrite(s: State, step: Step, cap: nat)
    requires DualWrite(s, cap)
    ensures DualWrite(Exec(s, step, cap), cap) && DbGrows(s.db, Exec(s, step, cap).db)
  {
    DbGrowsReflexive(s.db);
    if Enabled(s, step, cap) {
      match step
      case Seed(_, _, _, _) => SeedKeepsDualWrite(s, step, cap);
      case Decide(_) =>
      case Apply(_, _) => ApplyKeepsDualWrite(s, step, cap);
      case Claim(_, _) => ClaimKeepsDualWrite(s, step, cap);
      case Load(_) => LoadKeepsDualWrite(s, step, cap);
      case GraphFails(_, _) => GraphStepKeepsDualWrite(s, step, cap);
      case GraphWrites(_) => GraphStepKeepsDualWrite(s, step, cap);
      case Complete(_, _) => CompleteKeepsDualWrite(s, step, cap);
      case Crash(r) => RelayMoves(s.db, s.graph, s.relays, r, Idle);
    }
  }

  /** Over every run: the two halves agree, and nothing published is ever taken back. */
  lemma {:induction false} DualWriteOverRuns(s: State, steps: seq<Step>, cap: nat)
    requires DualWrite(s, cap)
    ensures DualWrite(Run(s, steps, cap), cap)
    ensures DbGrows(s.db, Run(s, steps, cap).db)
    decreases |steps|
  {
    if steps != [] {
      StepKeepsDualWrite(s, steps[0], cap);
      DualWriteOverRuns(Exec(s, steps[0], cap), steps[1..], cap);
      DbGrowsTransitive(s.db, Exec(s, steps[0], cap).db, Run(s, steps, cap).db);
    }
  }

  /** The promise readers rely on, for every row at the end of every run from nothing. */
  lemma PublishedMeansComplete(steps: seq<Step>, cap: nat, id: Id)
    requires id in Run(INIT, steps, cap).db.rows
    ensures var s := Run(INIT, steps, cap);
            && id in s.db.cites && s.db.cites[id] != {} && OutboxFor(id) in s.db.outbox
            && (s.db.rows[id].visible ==>
                  && id in s.graph && s.graph[id].fact == s.db.rows[id].fact
                  && s.db.outbox[OutboxFor(id)].dispatchedAt.Some?)
            && (!s.db.rows[id].visible ==>
                  && s.db.outbox[OutboxFor(id)].dispatchedAt.None?
                  && s.db.outbox[OutboxFor(id)].attempts <= cap)
  {
    DualWriteOverRuns(INIT, steps, cap);
    var s := Run(INIT, steps, cap);
    assert RowAgrees(s.db, id) && EdgeAgrees(s.db, s.graph, id) && EventKept(s.db, OutboxFor(id), cap);
  }

  ghost predicate Mismatched(db: Db, id: Id) {
    && id in db.rows && OutboxFor(id) in db.outbox
    && db.outbox[OutboxFor(id)].tenant != db.rows[id].fact.slot.tenant
  }

  /** A corrupted payload is never dispatched: its row stays invisible through any run. */
  lemma {:induction false} MismatchIsNeverPublished(s: State, steps: seq<Step>, cap: nat, id: Id)
    requires DualWrite(s, cap) && Mismatched(s.db, id) && !s.db.rows[id].visible
    ensures id in Run(s, steps, cap).db.rows && !Run(s, steps, cap).db.rows[id].visible
    decreases |steps|
  {
    if steps != [] {
      var s' := Exec(s, steps[0], cap);
      StepKeepsDualWrite(s, steps[0], cap);
      MismatchStep(s, steps[0], cap, id);
      MismatchIsNeverPublished(s', steps[1..], cap, id);
    }
  }

  lemma MismatchApply(s: State, a: Id, at: int, cap: nat, id: Id)
    requires DualWrite(s, cap) && Mismatched(s.db, id) && !s.db.rows[id].visible
    requires Enabled(s, Apply(a, at), cap)
    ensures Mismatched(Exec(s, Apply(a, at), cap).db, id) && !Exec(s, Apply(a, at), cap).db.rows[id].visible
  {
    ApplyTxnSound(s.db, s.decided[a], at, cap);
    var after := Exec(s, Apply(a, at), cap).db;
    assert RowGrows(s.db, after, id) && EventGrows(s.db, after, OutboxFor(id));
  }

  lemma MismatchComplete(s: State, r: nat, at: int, cap: nat, id: Id)
    requires DualWrite(s, cap) && Mismatched(s.db, id) && !s.db.rows[id].visible
    requires Enabled(s, Complete(r, at), cap)
    ensures Mismatched(Exec(s, Complete(r, at), cap).db, id) && !Exec(s, Complete(r, at), cap).db.rows[id].visible
  {
    assert RelayAgrees(s.db, s.graph, s.relays[r]);
    assert EventAgrees(s.db, s.relays[r].queue[0]);
    assert EventKept(s.db, s.relays[r].queue[0].outboxId, cap);
  }

  lemma MismatchStep(s: State, step: Step, cap: nat, id: Id)
    requires DualWrite(s, cap) && Mismatched(s.db, id) && !s.db.rows[id].visible
    ensures Mismatched(Exec(s, step, cap).db, id) && !Exec(s, step, cap).db.rows[id].visible
  {
    if Enabled(s, step, cap) {
      match step
      case Apply(a, at) => MismatchApply(s, a, at, cap, id);
      case Complete(r, at) => MismatchComplete(s, r, at, cap, id);
      case _ =>
    }
  }
}
