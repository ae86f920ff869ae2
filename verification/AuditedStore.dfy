/**
  The tables and the audit log as one system. An apply's transaction commits
  its rows and its links together, so what each tenant's chain says is what
  happened to that tenant's rows.
*/
module AuditedStore {
  import opened Prelude
  import opened Store
  import opened History
  import opened AuditChain
  import opened CanonicalJson
  import opened JsonText
  import CanonicalForm
  import P = Protocol
  import C = ChainLog

  /* ---- events as links --------------------------------------------------------- */

  /** How ids are spelled, and what else a payload carries. */
  datatype Names = Names(spell: Id -> Text, relation: Id -> Text, record: Id -> Fields)

  ghost predicate Injective(spell: Id -> Text) { forall a, b :: spell(a) == spell(b) ==> a == b }

  function AsText(s: string): Text { seq(|s|, i requires 0 <= i < |s| => s[i] as int) }

  function KindOf(e: AuditEvent): Kind {
    match e
    case Decided(_) => DecisionMade
    case Wrote(_) => FactWritten
    case Superseded(_, _) => FactSuperseded
  }

  function PayloadOf(names: Names, e: AuditEvent): Fields {
    match e
    case Decided(id) => names.record(id)
    case Wrote(id) =>
      Field(Name(AsText("assertion_id")), Str(names.spell(id)),
      Field(Name(AsText("predicate")), Str(names.relation(id)), NoFields))
    case Superseded(gone, successor) =>
      Field(Name(AsText("retired")), Str(names.spell(gone)),
      Field(Name(AsText("by")), Str(names.spell(successor)), NoFields))
  }

  predicate LinkRecords(names: Names, link: Link, e: AuditEvent) {
    link.kind == KindOf(e) && link.payload == PayloadOf(names, e)
  }

  predicate RecordsAt(names: Names, chain: seq<Link>, trail: seq<AuditEvent>, i: int) {
    0 <= i < |chain| && i < |trail| ==> LinkRecords(names, chain[i], trail[i])
  }

  /** Link by link, the chain is the trail. */
  ghost predicate Records(names: Names, chain: seq<Link>, trail: seq<AuditEvent>) {
    |chain| == |trail| && forall i {:trigger RecordsAt(names, chain, trail, i)} :: RecordsAt(names, chain, trail, i)
  }

  lemma RecordsConcat(names: Names, c: seq<Link>, d: seq<Link>, t: seq<AuditEvent>, u: seq<AuditEvent>)
    requires Records(names, c, t) && Records(names, d, u)
    ensures Records(names, c + d, t + u)
  {
    forall i ensures RecordsAt(names, c + d, t + u, i) {
      assert RecordsAt(names, c, t, i) && RecordsAt(names, d, u, i - |c|);
    }
  }

  /* ---- one tenant's trail ---------------------------------------------------------- */

  function Author(e: AuditEvent): Id {
    match e
    case Decided(id) => id
    case Wrote(id) => id
    case Superseded(_, successor) => successor
  }

  predicate Belongs(decided: map<Id, Governed>, e: AuditEvent, tenant: string) {
    Author(e) in decided && decided[Author(e)].fact.slot.tenant == tenant
  }

  function TenantTrail(decided: map<Id, Governed>, audit: seq<AuditEvent>, tenant: string): seq<AuditEvent> {
    if audit == [] then []
    else
      var n := |audit| - 1;
      TenantTrail(decided, audit[..n], tenant) + (if Belongs(decided, audit[n], tenant) then [audit[n]] else [])
  }

  lemma TrailSnoc(decided: map<Id, Governed>, audit: seq<AuditEvent>, e: AuditEvent, tenant: string)
    ensures TenantTrail(decided, audit + [e], tenant)
            == TenantTrail(decided, audit, tenant) + (if Belongs(decided, e, tenant) then [e] else [])
  {
    assert (audit + [e])[..|audit|] == audit;
  }

  lemma {:induction false} TrailConcat(
    decided: map<Id, Governed>, a: seq<AuditEvent>, b: seq<AuditEvent>, tenant: string)
    ensures TenantTrail(decided, a + b, tenant) == TenantTrail(decided, a, tenant) + TenantTrail(decided, b, tenant)
    decreases |b|
  {
    if b == [] {
      assert a + b == a;
    } else {
      var n := |b| - 1;
      assert a + b == (a + b[..n]) + [b[n]] && b == b[..n] + [b[n]];
      TrailConcat(decided, a, b[..n], tenant);
      TrailSnoc(decided, a + b[..n], b[n], tenant);
      TrailSnoc(decided, b[..n], b[n], tenant);
    }
  }

  lemma {:induction false} TrailHolds(decided: map<Id, Governed>, audit: seq<AuditEvent>, tenant: string, e: AuditEvent)
    ensures e in TenantTrail(decided, audit, tenant) <==> e in audit && Belongs(decided, e, tenant)
  {
    if audit != [] {
      var n := |audit| - 1;
      TrailHolds(decided, audit[..n], tenant, e);
      assert audit == audit[..n] + [audit[n]];
    }
  }

  predicate Authored(decided: map<Id, Governed>, audit: seq<AuditEvent>) {
    forall i :: 0 <= i < |audit| ==> Author(audit[i]) in decided
  }

  lemma {:induction false} TrailIsStable(
    a: map<Id, Governed>, b: map<Id, Governed>, audit: seq<AuditEvent>, tenant: string)
    requires Authored(a, audit) && forall id :: id in a ==> id in b && b[id] == a[id]
    ensures TenantTrail(b, audit, tenant) == TenantTrail(a, audit, tenant) && Authored(b, audit)
  {
    if audit != [] { TrailIsStable(a, b, audit[..|audit| - 1], tenant); }
  }

  predicate RetiresOnce(audit: seq<AuditEvent>) {
    forall i, j :: 0 <= i < j < |audit| && audit[i].Superseded? && audit[j].Superseded? ==>
      audit[i].retired != audit[j].retired
  }

  lemma {:induction false} TrailRetiresOnce(decided: map<Id, Governed>, audit: seq<AuditEvent>, tenant: string)
    requires RetiresOnce(audit)
    ensures RetiresOnce(TenantTrail(decided, audit, tenant))
  {
    if audit != [] {
      var n := |audit| - 1;
      var trail := TenantTrail(decided, audit[..n], tenant);
      TrailRetiresOnce(decided, audit[..n], tenant);
      forall i | 0 <= i < |trail| && trail[i].Superseded? && audit[n].Superseded?
        ensures trail[i].retired != audit[n].retired
      {
        TrailHolds(decided, audit[..n], tenant, trail[i]);
      }
    }
  }

  /* ---- the system ------------------------------------------------------------------- */

  datatype State = State(tables: P.State, log: C.Log)

  const INIT := State(P.INIT, C.EMPTY)

  /** Everything but the end of an apply touches one side only. */
  datatype Step = Table(step: P.Step) | Statement(statement: C.Step) | Apply(session: nat, id: Id, at: int)

  datatype World = World(hash: Hash, key: C.LockKey, names: Names, cap: nat)

  function EventsOf(g: Governed): seq<AuditEvent> {
    var id := g.AssertionId();
    [Decided(id)] + (if g.Writes() then [Wrote(id)] else [])
    + (if g.Supersedes() then [Superseded(g.incumbent.value, id)] else [])
  }

  /** The transaction holds its tenant's lock and has appended exactly the apply's events. */
  ghost predicate Ready(w: World, s: State, session: nat, id: Id, at: int) {
    && P.Enabled(s.tables, P.Apply(id, at), w.cap) && C.HasLock(s.log, w.key, session)
    && var tenant := s.log.txns[session].tenant;
       && tenant == s.tables.decided[id].fact.slot.tenant
       && Records(w.names, C.Own(s.log.rows, tenant, session), EventsOf(s.tables.decided[id]))
  }

  ghost function Exec(w: World, s: State, step: Step): State {
    match step
    case Table(t) => if t.Apply? then s else s.(tables := P.Exec(s.tables, t, w.cap))
    case Statement(t) => if t.Commit? then s else s.(log := C.Exec(w.hash, w.key, s.log, t))
    case Apply(session, id, at) =>
      if Ready(w, s, session, id, at)
      then State(P.Exec(s.tables, P.Apply(id, at), w.cap), C.End(s.log, session, true))
      else s.(log := C.End(s.log, session, false))
  }

  ghost function Run(w: World, s: State, steps: seq<Step>): State
    decreases |steps|
  {
    if steps == [] then s else Run(w, Exec(w, s, steps[0]), steps[1..])
  }

  /** What is committed to the tenant's chain is the tenant's part of the trail. */
  ghost predicate TenantRecorded(w: World, s: State, tenant: string) {
    Records(w.names, C.Chain(s.log.rows, tenant, None), TenantTrail(s.tables.decided, s.tables.db.audit, tenant))
  }

  ghost predicate TablesSound(s: P.State) {
    && Lineage(s) && AuditMatches(s) && TenantsMatch(s.db.rows) && Authored(s.decided, s.db.audit)
  }

  ghost predicate Recorded(w: World, s: State) {
    && TablesSound(s.tables) && C.Serialised(w.hash, w.key, s.log)
    && forall tenant {:trigger TenantRecorded(w, s, tenant)} :: TenantRecorded(w, s, tenant)
  }

  lemma ApplyAppendsEvents(s: P.State, id: Id, at: int, cap: nat)
    requires Lineage(s) && P.Enabled(s, P.Apply(id, at), cap)
    ensures var after := P.Exec(s, P.Apply(id, at), cap);
            after.db.audit == s.db.audit + EventsOf(s.decided[id]) && after.decided == s.decided
  {
    assert Founded(s.db.rows, s.born, s.decided, id);
    ExecApply(s, id, at, cap);
  }

  lemma AuthoredConcat(decided: map<Id, Governed>, a: seq<AuditEvent>, b: seq<AuditEvent>)
    requires Authored(decided, a) && Authored(decided, b)
    ensures Authored(decided, a + b)
  {
  }

  lemma EventsAuthored(g: Governed)
    ensures forall i :: 0 <= i < |EventsOf(g)| ==> Author(EventsOf(g)[i]) == g.AssertionId()
  {
  }

  lemma ApplyKeepsAuthors(s: P.State, id: Id, at: int, cap: nat)
    requires Lineage(s) && Authored(s.decided, s.db.audit) && P.Enabled(s, P.Apply(id, at), cap)
    ensures var after := P.Exec(s, P.Apply(id, at), cap); Authored(after.decided, after.db.audit)
  {
    ApplyAppendsEvents(s, id, at, cap);
    assert Founded(s.db.rows, s.born, s.decided, id);
    EventsAuthored(s.decided[id]);
    AuthoredConcat(s.decided, s.db.audit, EventsOf(s.decided[id]));
  }

  lemma OnlyAppliesRecord(s: P.State, step: P.Step, cap: nat)
    requires !step.Apply?
    ensures P.Exec(s, step, cap).db.audit == s.db.audit
  {
  }

  lemma TableStepSound(s: P.State, step: P.Step, cap: nat)
    requires TablesSound(s)
    ensures TablesSound(P.Exec(s, step, cap))
  {
    StepKeepsLineage(s, step, cap);
    StepKeepsAudit(s, step, cap);
    StepKeepsTenants(s, step, cap);
    if step.Apply? {
      if P.Enabled(s, step, cap) { ApplyKeepsAuthors(s, step.id, step.at, cap); }
    } else {
      OnlyAppliesRecord(s, step, cap);
      DecisionsPersist(s, step, cap);
    }
  }

  lemma {:induction false} TrailOfOneAuthor(decided: map<Id, Governed>, events: seq<AuditEvent>, id: Id, tenant: string)
    requires id in decided && forall i :: 0 <= i < |events| ==> Author(events[i]) == id
    ensures TenantTrail(decided, events, tenant) == if decided[id].fact.slot.tenant == tenant then events else []
  {
    if events != [] {
      var n := |events| - 1;
      TrailOfOneAuthor(decided, events[..n], id, tenant);
      assert events == events[..n] + [events[n]];
    }
  }

  lemma TableKeepsRecorded(w: World, s: State, step: P.Step)
    requires Recorded(w, s) && !step.Apply?
    ensures Recorded(w, Exec(w, s, Table(step)))
  {
    var after := Exec(w, s, Table(step));
    TableStepSound(s.tables, step, w.cap);
    OnlyAppliesRecord(s.tables, step, w.cap);
    DecisionsPersist(s.tables, step, w.cap);
    forall tenant ensures TenantRecorded(w, after, tenant) {
      assert TenantRecorded(w, s, tenant);
      TrailIsStable(s.tables.decided, after.tables.decided, s.tables.db.audit, tenant);
    }
  }

  lemma StatementKeepsRecorded(w: World, s: State, step: C.Step)
    requires Recorded(w, s) && !step.Commit?
    ensures Recorded(w, Exec(w, s, Statement(step)))
  {
    var after := Exec(w, s, Statement(step));
    C.StepKeepsSerialised(w.hash, w.key, s.log, step);
    forall tenant ensures TenantRecorded(w, after, tenant) {
      assert TenantRecorded(w, s, tenant);
      C.OnlyCommitsShow(w.hash, w.key, s.log, step, tenant);
    }
  }

  lemma RollbackKeepsRecorded(w: World, s: State, session: nat)
    requires Recorded(w, s)
    ensures Recorded(w, s.(log := C.End(s.log, session, false)))
  {
    var after := s.(log := C.End(s.log, session, false));
    C.EndKeeps(w.hash, w.key, s.log, session, false);
    forall tenant ensures TenantRecorded(w, after, tenant) {
      assert TenantRecorded(w, s, tenant);
      C.EndAppendsOwnTo(w.hash, w.key, s.log, session, false, tenant);
    }
  }

  lemma ApplyTrail(s: P.State, id: Id, at: int, cap: nat, tenant: string)
    requires Lineage(s) && P.Enabled(s, P.Apply(id, at), cap)
    ensures var after, g := P.Exec(s, P.Apply(id, at), cap), s.decided[id];
            var trail := TenantTrail(s.decided, s.db.audit, tenant);
            TenantTrail(after.decided, after.db.audit, tenant)
            == if g.fact.slot.tenant == tenant then trail + EventsOf(g) else trail
  {
    ApplyAppendsEvents(s, id, at, cap);
    assert Founded(s.db.rows, s.born, s.decided, id);
    EventsAuthored(s.decided[id]);
    TrailConcat(s.decided, s.db.audit, EventsOf(s.decided[id]), tenant);
    TrailOfOneAuthor(s.decided, EventsOf(s.decided[id]), id, tenant);
  }

  lemma CommitRecords(w: World, s: State, session: nat, id: Id, at: int, tenant: string)
    requires Lineage(s.tables) && C.Serialised(w.hash, w.key, s.log)
    requires TenantRecorded(w, s, tenant) && Ready(w, s, session, id, at)
    ensures TenantRecorded(w, State(P.Exec(s.tables, P.Apply(id, at), w.cap), C.End(s.log, session, true)), tenant)
  {
    C.EndAppendsOwnTo(w.hash, w.key, s.log, session, true, tenant);
    ApplyTrail(s.tables, id, at, w.cap, tenant);
    var chain, trail := C.Chain(s.log.rows, tenant, None), TenantTrail(s.tables.decided, s.tables.db.audit, tenant);
    var g := s.tables.decided[id];
    if g.fact.slot.tenant == tenant {
      RecordsConcat(w.names, chain, C.Own(s.log.rows, tenant, session), trail, EventsOf(g));
    }
  }

  lemma ApplyKeepsRecorded(w: World, s: State, session: nat, id: Id, at: int)
    requires Recorded(w, s)
    ensures Recorded(w, Exec(w, s, Apply(session, id, at)))
  {
    if Ready(w, s, session, id, at) {
      TableStepSound(s.tables, P.Apply(id, at), w.cap);
      C.EndKeeps(w.hash, w.key, s.log, session, true);
      forall tenant ensures TenantRecorded(w, Exec(w, s, Apply(session, id, at)), tenant) {
        assert TenantRecorded(w, s, tenant);
        CommitRecords(w, s, session, id, at, tenant);
      }
    } else {
      RollbackKeepsRecorded(w, s, session);
    }
  }

  lemma {:induction false} RecordedOverRuns(w: World, s: State, steps: seq<Step>)
    requires Recorded(w, s)
    ensures Recorded(w, Run(w, s, steps))
    decreases |steps|
  {
    if steps != [] {
      match steps[0] {
        case Table(t) => if !t.Apply? { TableKeepsRecorded(w, s, t); }
        case Statement(t) => if !t.Commit? { StatementKeepsRecorded(w, s, t); }
        case Apply(session, id, at) => ApplyKeepsRecorded(w, s, session, id, at);
      }
      RecordedOverRuns(w, Exec(w, s, steps[0]), steps[1..]);
    }
  }

  /* ---- rebuilding a tenant from its chain ---------------------------------------------- */

  function Under(link: Link, key: string): Option<Value> { CanonicalForm.Lookup(link.payload, Name(AsText(key))) }

  predicate SaysWritten(names: Names, link: Link, id: Id) {
    link.kind == FactWritten && Under(link, "assertion_id") == Some(Str(names.spell(id)))
  }

  predicate SaysRetired(names: Names, link: Link, id: Id) {
    link.kind == FactSuperseded && Under(link, "retired") == Some(Str(names.spell(id)))
  }

  lemma ReadsBack(names: Names, link: Link, e: AuditEvent, id: Id)
    requires Injective(names.spell) && LinkRecords(names, link, e)
    ensures SaysWritten(names, link, id) <==> e == Wrote(id)
    ensures SaysRetired(names, link, id) <==> e.Superseded? && e.retired == id
  {
  }

  ghost predicate ChainWrites(names: Names, chain: seq<Link>, id: Id) {
    exists i :: 0 <= i < |chain| && SaysWritten(names, chain[i], id)
  }

  ghost predicate ChainRetires(names: Names, chain: seq<Link>, id: Id) {
    exists i :: 0 <= i < |chain| && SaysRetired(names, chain[i], id)
  }

  lemma ChainSaysTrail(names: Names, chain: seq<Link>, trail: seq<AuditEvent>, id: Id)
    requires Injective(names.spell) && Records(names, chain, trail)
    ensures ChainWrites(names, chain, id) <==> Wrote(id) in trail
    ensures ChainRetires(names, chain, id) <==> exists successor :: Superseded(id, successor) in trail
  {
    forall i | 0 <= i < |chain|
      ensures SaysWritten(names, chain[i], id) <==> trail[i] == Wrote(id)
      ensures SaysRetired(names, chain[i], id) <==> trail[i].Superseded? && trail[i].retired == id
    {
      assert RecordsAt(names, chain, trail, i);
      ReadsBack(names, chain[i], trail[i], id);
    }
    if ChainRetires(names, chain, id) {
      var i :| 0 <= i < |chain| && SaysRetired(names, chain[i], id);
      assert trail[i] == Superseded(id, trail[i].successor);
    }
  }

  /**
    After any run of the whole system, for every tenant: its committed rows of
    the audit log verify, and they alone, with the rows it was seeded with, say
    which of its rows are live; no row is retired in them twice.
  */
  lemma ChainRebuildsTenant(w: World, steps: seq<Step>, tenant: string, id: Id)
    requires Injective(w.names.spell)
    ensures var s := Run(w, INIT, steps);
            var chain, rows := C.Chain(s.log.rows, tenant, None), s.tables.db.rows;
            && WellFormed(w.hash, chain)
            && ((id in rows && rows[id].fact.slot.tenant == tenant && rows[id].Live()) <==>
                  ((id in s.tables.seeded && id in rows && rows[id].fact.slot.tenant == tenant)
                   || ChainWrites(w.names, chain, id))
                  && !ChainRetires(w.names, chain, id))
            && forall i, j :: 0 <= i < j < |chain| ==>
                 !(SaysRetired(w.names, chain[i], id) && SaysRetired(w.names, chain[j], id))
  {
    StartsRecorded(w);
    RecordedOverRuns(w, INIT, steps);
    var s := Run(w, INIT, steps);
    assert C.TenantSound(w.hash, s.log, tenant);
    assert TenantRecorded(w, s, tenant);
    RebuildsFrom(w, s, tenant, id);
    RetiredOnceIn(w, s, tenant, id);
  }

  lemma StartsRecorded(w: World)
    ensures Recorded(w, INIT)
  {
    forall tenant ensures TenantRecorded(w, INIT, tenant) {
      assert C.Chain(INIT.log.rows, tenant, None) == [];
    }
    forall s ensures C.SessionSound(w.hash, INIT.log, w.key, s) && C.Trailing(INIT.log, w.key, s) {}
    forall t ensures C.TenantSound(w.hash, INIT.log, t) {}
  }

  lemma RebuildsFrom(w: World, s: State, tenant: string, id: Id)
    requires Injective(w.names.spell) && TablesSound(s.tables) && TenantRecorded(w, s, tenant)
    ensures var chain, rows := C.Chain(s.log.rows, tenant, None), s.tables.db.rows;
            (id in rows && rows[id].fact.slot.tenant == tenant && rows[id].Live()) <==>
              ((id in s.tables.seeded && id in rows && rows[id].fact.slot.tenant == tenant)
               || ChainWrites(w.names, chain, id))
              && !ChainRetires(w.names, chain, id)
  {
    var chain, rows := C.Chain(s.log.rows, tenant, None), s.tables.db.rows;
    var decided, audit := s.tables.decided, s.tables.db.audit;
    ChainSaysTrail(w.names, chain, TenantTrail(decided, audit, tenant), id);
    TrailHolds(decided, audit, tenant, Wrote(id));
    assert Founded(rows, s.tables.born, decided, id);
    forall successor ensures Superseded(id, successor) in TenantTrail(decided, audit, tenant) <==>
      id in rows && rows[id].supersededBy == Some(successor) && rows[id].fact.slot.tenant == tenant
    {
      TrailHolds(decided, audit, tenant, Superseded(id, successor));
      assert History.Linked(rows, decided, id) && SameTenant(rows, id);
      assert Founded(rows, s.tables.born, decided, successor);
    }
  }

  lemma RetiredOnceIn(w: World, s: State, tenant: string, id: Id)
    requires Injective(w.names.spell) && TablesSound(s.tables) && TenantRecorded(w, s, tenant)
    ensures var chain := C.Chain(s.log.rows, tenant, None);
            forall i, j :: 0 <= i < j < |chain| ==>
              !(SaysRetired(w.names, chain[i], id) && SaysRetired(w.names, chain[j], id))
  {
    var chain, trail := C.Chain(s.log.rows, tenant, None), TenantTrail(s.tables.decided, s.tables.db.audit, tenant);
    TrailRetiresOnce(s.tables.decided, s.tables.db.audit, tenant);
    forall i | 0 <= i < |chain|
      ensures SaysRetired(w.names, chain[i], id) <==> trail[i].Superseded? && trail[i].retired == id
    {
      assert RecordsAt(w.names, chain, trail, i);
      ReadsBack(w.names, chain[i], trail[i], id);
    }
  }
}
