/**
  The durable tables and the transactions over them
  (`memory/vector/pgvector_store.py`, `memory/vector/queries.py`,
  `memory/outbox.py`, `memory/applier.py`, migration `0001_initial.py`).

  One function is one committed transaction; `Err` is a transaction that raised
  and rolled back.  Ids derived by uuid5 are free terms over what they are
  derived from, so a replay meets the row it made before.
*/
module Store {
  import opened Prelude

  datatype Id = FromCandidate(trace: string, candidate: string) | Seeded(key: string)
  datatype OutboxId = OutboxFor(assertion: Id)

  datatype Slot = Slot(tenant: string, ns: string, subject: string, relation: string)

  /** The columns no statement ever updates. */
  datatype Fact = Fact(slot: Slot, object: string, validFrom: int)

  datatype Row = Row(fact: Fact, validTo: Option<int>, supersededBy: Option<Id>, visible: bool)
  {
    predicate Live() { validTo.None? }

    /** `valid_from <= t AND (valid_to IS NULL OR valid_to > t)` */
    predicate ValidAt(t: int) { fact.validFrom <= t && (validTo.None? || validTo.value > t) }

    /** What a point-in-time read finds: every read also asks for `visible`. */
    predicate ReadAt(t: int) { visible && ValidAt(t) }
  }

  /** `tenant` is the payload's, which is only usually the assertion's. */
  datatype OutboxRow = OutboxRow(
    assertion: Id, tenant: string, attempts: nat, createdAt: int, dispatchedAt: Option<int>)

  datatype AuditEvent =
    | Decided(candidate: Id)
    | Wrote(assertion: Id)
    | Superseded(retired: Id, successor: Id)

  datatype Db = Db(
    rows: map<Id, Row>,
    cites: map<Id, set<string>>,
    outbox: map<OutboxId, OutboxRow>,
    audit: seq<AuditEvent>)

  const EMPTY := Db(map[], map[], map[], [])

  datatype Decision = AutoWrite | HitlReview | Reject | Escalate
  datatype Hint = MergeHint | SupersedeHint | CoexistHint | EscalateHint

  datatype Governed = Governed(
    trace: string, candidate: string, decision: Decision, hint: Hint,
    incumbent: Option<Id>, fact: Fact, citation: string)
  {
    function AssertionId(): Id { FromCandidate(trace, candidate) }

    predicate Writes() { decision == AutoWrite && hint != MergeHint }

    predicate Supersedes() { Writes() && hint == SupersedeHint && incumbent.Some? }
  }

  datatype Reason = DecisionWas(decision: Decision) | MergeNotImplemented

  datatype Applied = Applied(candidate: string, assertion: Option<Id>, reason: Option<Reason>)

  datatype Fault = ConcurrencyConflict | CheckViolation | StoreUnavailable

  function Refusal(g: Governed): Option<Reason> {
    if g.decision != AutoWrite then Some(DecisionWas(g.decision))
    else if g.hint == MergeHint then Some(MergeNotImplemented)
    else None
  }

  /** A fresh, live assertion on its way in. */
  datatype Draft = Draft(id: Id, fact: Fact, citations: set<string>, visible: bool)

  function PutRow(rows: map<Id, Row>, d: Draft): map<Id, Row> {
    if d.id in rows then rows else rows[d.id := Row(d.fact, None, None, false)]
  }

  function PutCites(cites: map<Id, set<string>>, d: Draft): map<Id, set<string>> {
    cites[d.id := (if d.id in cites then cites[d.id] else {}) + d.citations]
  }

  function PutEvent(outbox: map<OutboxId, OutboxRow>, d: Draft, now: int): map<OutboxId, OutboxRow> {
    if OutboxFor(d.id) in outbox then outbox
    else outbox[OutboxFor(d.id) := OutboxRow(d.id, d.fact.slot.tenant, 0, now, None)]
  }

  /** One assertion's row, citations and event, each insert-if-absent; `visible` is written false whatever it says. */
  function Put(db: Db, d: Draft, now: int): Db {
    Db(PutRow(db.rows, d), PutCites(db.cites, d), PutEvent(db.outbox, d, now), db.audit)
  }

  /** `write_in` as the applier and the seed call it: one assertion, its one citation. */
  function WriteIn(db: Db, id: Id, fact: Fact, citation: string, now: int): Db {
    Put(db, Draft(id, fact, {citation}, false), now)
  }

  /** `UPDATE ... WHERE id = $3 AND valid_to IS NULL`, under the tenant's row policy. */
  function SupersedeIn(db: Db, tenant: string, incumbent: Id, successor: Id, at: int): Result<Db, Fault> {
    if incumbent !in db.rows || db.rows[incumbent].fact.slot.tenant != tenant || !db.rows[incumbent].Live() then
      Err(ConcurrencyConflict)
    else if at < db.rows[incumbent].fact.validFrom || incumbent == successor then
      Err(CheckViolation)
    else
      Ok(db.(rows := db.rows[incumbent := db.rows[incumbent].(validTo := Some(at), supersededBy := Some(successor))]))
  }

  /** `apply`: the DECISION event, then whatever the decision moves, in one transaction. */
  function ApplyTxn(db: Db, g: Governed, at: int): Result<(Db, Applied), Fault> {
    var decided := db.(audit := db.audit + [Decided(g.AssertionId())]);
    var id := g.AssertionId();
    if !g.Writes() then
      Ok((decided, Applied(g.candidate, None, Refusal(g))))
    else
      var inserted := WriteIn(decided, id, g.fact, g.citation, at);
      var written := inserted.(audit := inserted.audit + [Wrote(id)]);
      var done := Applied(g.candidate, Some(id), None);
      if !g.Supersedes() then
        Ok((written, done))
      else
        match SupersedeIn(written, g.fact.slot.tenant, g.incumbent.value, id, at)
        case Err(fault) => Err(fault)
        case Ok(moved) =>
          Ok((moved.(audit := moved.audit + [Superseded(g.incumbent.value, id)]), done))
  }

  /* ---- the relay's statements ---------------------------------------- */

  datatype Event = Event(outboxId: OutboxId, assertion: Id, tenant: string)

  predicate Claimable(row: OutboxRow, maxAttempts: nat) {
    row.dispatchedAt.None? && row.attempts < maxAttempts
  }

  function EventOf(db: Db, id: OutboxId): Event
    requires id in db.outbox
  {
    Event(id, db.outbox[id].assertion, db.outbox[id].tenant)
  }

  /** CLAIM_OUTBOX's update: every claimed row's `attempts` moves by one. */
  function ClaimTxn(db: Db, claimed: set<OutboxId>): Db
    requires claimed <= db.outbox.Keys
  {
    db.(outbox := map id | id in db.outbox ::
          if id in claimed then db.outbox[id].(attempts := db.outbox[id].attempts + 1) else db.outbox[id])
  }

  /** SELECT_ASSERTION under the event's tenant; `None` is what the row policy hides. */
  function LoadTxn(db: Db, e: Event): Option<Row> {
    if e.assertion in db.rows && db.rows[e.assertion].fact.slot.tenant == e.tenant
    then Some(db.rows[e.assertion]) else None
  }

  /** REVEAL_ASSERTION and MARK_DISPATCHED, one transaction under the event's tenant. */
  function CompleteTxn(db: Db, e: Event, at: int): Db {
    db.(rows := if LoadTxn(db, e).Some?
                then db.rows[e.assertion := db.rows[e.assertion].(visible := true)] else db.rows,
        outbox := if e.outboxId in db.outbox && db.outbox[e.outboxId].dispatchedAt.None?
                  then db.outbox[e.outboxId := db.outbox[e.outboxId].(dispatchedAt := Some(at))]
                  else db.outbox)
  }

  datatype Edge = Edge(fact: Fact, validTo: Option<int>)

  function EdgeOf(row: Row): Edge { Edge(row.fact, row.validTo) }

  type Graph = map<Id, Edge>
}
