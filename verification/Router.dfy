/**
  The batch write entry point (`memory/router.py`) over the store's one
  transaction per batch: every row, then every citation, then every event.
*/
module Router {
  import opened Prelude
  import opened Store
  import opened Protocol

  datatype Refusal = ForeignTenant(count: nat, first: Id) | PresumedVisible(count: nat, first: Id)

  /* ---- the three statements ------------------------------------------------ */

  function RowsWith(rows: map<Id, Row>, batch: seq<Draft>): map<Id, Row>
    decreases |batch|
  {
    if batch == [] then rows else RowsWith(PutRow(rows, batch[0]), batch[1..])
  }

  function CitesWith(cites: map<Id, set<string>>, batch: seq<Draft>): map<Id, set<string>>
    decreases |batch|
  {
    if batch == [] then cites else CitesWith(PutCites(cites, batch[0]), batch[1..])
  }

  function EventsWith(outbox: map<OutboxId, OutboxRow>, batch: seq<Draft>, now: int): map<OutboxId, OutboxRow>
    decreases |batch|
  {
    if batch == [] then outbox else EventsWith(PutEvent(outbox, batch[0], now), batch[1..], now)
  }

  /** `upsert`: an empty batch opens no transaction, and three empty statements would change nothing. */
  function Upsert(db: Db, batch: seq<Draft>, now: int): Db {
    Db(RowsWith(db.rows, batch), CitesWith(db.cites, batch), EventsWith(db.outbox, batch, now), db.audit)
  }

  /** The applier's transaction, once for each citation. */
  function WriteEach(db: Db, d: Draft, citations: seq<string>, now: int): Db {
    if citations == [] then db
    else var n := |citations| - 1; WriteIn(WriteEach(db, d, citations[..n], now), d.id, d.fact, citations[n], now)
  }

  lemma OneMoreCitation(db: Db, d: Draft, citation: string, now: int)
    requires d.citations != {}
    ensures Put(db, d.(citations := d.citations + {citation}), now)
         == WriteIn(Put(db, d, now), d.id, d.fact, citation, now)
  {
    var once := Put(db, d, now);
    assert once.cites[d.id] + {citation}
        == (if d.id in db.cites then db.cites[d.id] else {}) + (d.citations + {citation});
    assert once.cites[d.id := once.cites[d.id] + {citation}]
        == db.cites[d.id := once.cites[d.id] + {citation}];
  }

  function Elements(citations: seq<string>): set<string> { set c | c in citations }

  lemma LastOf(citations: seq<string>)
    requires citations != []
    ensures Elements(citations) == Elements(citations[..|citations| - 1]) + {citations[|citations| - 1]}
    ensures |citations| == 1 ==> Elements(citations) == {citations[0]}
  {
    assert citations == citations[..|citations| - 1] + [citations[|citations| - 1]];
  }

  /** The two write paths cannot drift: a draft with any citations is written as the applier would write them. */
  lemma {:induction false} PutIsWriteIn(db: Db, d: Draft, citations: seq<string>, now: int)
    requires citations != [] && d.citations == Elements(citations)
    ensures Put(db, d.(visible := false), now) == WriteEach(db, d, citations, now)
    ensures Put(db, d, now) == Put(db, d.(visible := false), now)
    decreases |citations|
  {
    var n := |citations| - 1;
    var before := Elements(citations[..n]);
    LastOf(citations);
    if n == 0 {
      assert citations[..n] == [];
    } else {
      assert citations[0] in before;
      PutIsWriteIn(db, d.(citations := before), citations[..n], now);
      WriteEachIgnores(db, d, before, citations[..n], now);
      OneMoreCitation(db, d.(citations := before, visible := false), citations[n], now);
    }
  }

  lemma {:induction false} WriteEachIgnores(db: Db, d: Draft, other: set<string>, citations: seq<string>, now: int)
    ensures WriteEach(db, d.(citations := other), citations, now) == WriteEach(db, d, citations, now)
    decreases |citations|
  {
    if citations != [] { WriteEachIgnores(db, d, other, citations[..|citations| - 1], now); }
  }

  /** Table by table is the same as assertion by assertion. */
  lemma UpsertIsEachInTurn(db: Db, d: Draft, rest: seq<Draft>, now: int)
    ensures Upsert(db, [d] + rest, now) == Upsert(Put(db, d, now), rest, now)
  {
    assert ([d] + rest)[1..] == rest;
  }

  /* ---- the router ------------------------------------------------------------ */

  function Foreign(batch: seq<Draft>, tenant: string): seq<Draft> {
    if batch == [] then []
    else (if batch[0].fact.slot.tenant != tenant then [batch[0]] else []) + Foreign(batch[1..], tenant)
  }

  function Presumed(batch: seq<Draft>): seq<Draft> {
    if batch == [] then [] else (if batch[0].visible then [batch[0]] else []) + Presumed(batch[1..])
  }

  function Write(db: Db, tenant: string, batch: seq<Draft>, now: int): Result<Db, Refusal> {
    var foreign, presumed := Foreign(batch, tenant), Presumed(batch);
    if foreign != [] then Err(ForeignTenant(|foreign|, foreign[0].id))
    else if presumed != [] then Err(PresumedVisible(|presumed|, presumed[0].id))
    else Ok(Upsert(db, batch, now))
  }

  class StoreRouter {
    const tenant: string
    var db: Db

    constructor (tenant: string, db: Db)
      ensures this.tenant == tenant && this.db == db
    {
      this.tenant := tenant;
      this.db := db;
    }

    /** Both refusals come before anything is written: a bad batch writes nothing at all. */
    method WriteBatch(batch: seq<Draft>, now: int) returns (refused: Option<Refusal>)
      modifies this
      ensures match Write(old(db), tenant, batch, now)
              case Ok(after) => refused == None && db == after
              case Err(refusal) => refused == Some(refusal) && db == old(db)
    {
      var foreign := Foreign(batch, tenant);
      if foreign != [] {
        return Some(ForeignTenant(|foreign|, foreign[0].id));
      }
      var presumed := Presumed(batch);
      if presumed != [] {
        return Some(PresumedVisible(|presumed|, presumed[0].id));
      }
      db := Upsert(db, batch, now);
      refused := None;
    }
  }

  lemma {:induction false} RefusedIffForeignOrVisible(db: Db, tenant: string, batch: seq<Draft>, now: int)
    ensures Write(db, tenant, batch, now).Ok? <==>
              forall i :: 0 <= i < |batch| ==> batch[i].fact.slot.tenant == tenant && !batch[i].visible
    decreases |batch|
  {
    if batch != [] {
      RefusedIffForeignOrVisible(db, tenant, batch[1..], now);
      assert forall i :: 0 <= i < |batch[1..]| ==> batch[1..][i] == batch[i + 1];
      assert forall i :: 0 < i < |batch| ==> batch[i] == batch[1..][i - 1];
    }
  }

  predicate Sourced(batch: seq<Draft>) { forall i :: 0 <= i < |batch| ==> batch[i].citations != {} }

  lemma PutSound(db: Db, d: Draft, now: int, cap: nat)
    requires TablesAgree(db, cap) && d.citations != {}
    ensures TablesAgree(Put(db, d, now), cap) && DbGrows(db, Put(db, d, now)) && RevealsNothing(db, Put(db, d, now))
  {
    var after := Put(db, d, now);
    assert RowAgrees(db, d.id) && EventKept(db, OutboxFor(d.id), cap);
    var citation :| citation in d.citations;
    assert citation in after.cites[d.id];
    forall x ensures RowAgrees(after, x) { assert RowAgrees(db, x); }
    forall o ensures EventKept(after, o, cap) { assert EventKept(db, o, cap); }
  }

  /** A batch keeps every invariant of the dual write, takes nothing back and publishes nothing. */
  lemma {:induction false} UpsertSound(db: Db, batch: seq<Draft>, now: int, cap: nat)
    requires TablesAgree(db, cap) && Sourced(batch)
    ensures TablesAgree(Upsert(db, batch, now), cap)
    ensures DbGrows(db, Upsert(db, batch, now)) && RevealsNothing(db, Upsert(db, batch, now))
    decreases |batch|
  {
    if batch == [] {
      DbGrowsReflexive(db);
    } else {
      var d, rest := batch[0], batch[1..];
      assert batch == [d] + rest;
      PutSound(db, d, now, cap);
      UpsertSound(Put(db, d, now), rest, now, cap);
      UpsertIsEachInTurn(db, d, rest, now);
      DbGrowsTransitive(db, Put(db, d, now), Upsert(db, batch, now));
    }
  }

  /** The draft's row, citations and event are all there already. */
  ghost predicate Landed(db: Db, d: Draft) {
    d.id in db.rows && d.id in db.cites && d.citations <= db.cites[d.id] && OutboxFor(d.id) in db.outbox
  }

  ghost predicate AllLanded(db: Db, batch: seq<Draft>) { forall i :: 0 <= i < |batch| ==> Landed(db, batch[i]) }

  lemma {:induction false} UpsertLands(db: Db, batch: seq<Draft>, now: int, cap: nat)
    requires TablesAgree(db, cap) && Sourced(batch)
    ensures AllLanded(Upsert(db, batch, now), batch)
    decreases |batch|
  {
    if batch != [] {
      var d, rest := batch[0], batch[1..];
      assert batch == [d] + rest;
      PutSound(db, d, now, cap);
      UpsertLands(Put(db, d, now), rest, now, cap);
      UpsertSound(Put(db, d, now), rest, now, cap);
      UpsertIsEachInTurn(db, d, rest, now);
      LandedStays(Put(db, d, now), Upsert(db, batch, now), d);
      assert forall i :: 0 < i < |batch| ==> batch[i] == rest[i - 1];
    }
  }

  lemma LandedStays(a: Db, b: Db, d: Draft)
    requires Landed(a, d) && DbGrows(a, b)
    ensures Landed(b, d)
  {
    assert RowGrows(a, b, d.id) && EventGrows(a, b, OutboxFor(d.id));
  }

  lemma {:induction false} LandedBatchIsInert(db: Db, batch: seq<Draft>, now: int)
    requires AllLanded(db, batch)
    ensures Upsert(db, batch, now) == db
    decreases |batch|
  {
    if batch != [] {
      var d, rest := batch[0], batch[1..];
      assert batch == [d] + rest && Landed(db, d);
      assert db.cites[d.id] + d.citations == db.cites[d.id];
      assert db.cites[d.id := db.cites[d.id]] == db.cites;
      assert Put(db, d, now) == db;
      assert forall i :: 0 <= i < |rest| ==> rest[i] == batch[i + 1];
      LandedBatchIsInert(db, rest, now);
      UpsertIsEachInTurn(db, d, rest, now);
    }
  }

  lemma UpsertKeepsDualWrite(s: State, batch: seq<Draft>, now: int, cap: nat)
    requires DualWrite(s, cap) && Sourced(batch)
    ensures DualWrite(s.(db := Upsert(s.db, batch, now)), cap)
  {
    UpsertSound(s.db, batch, now, cap);
    QuietTxn(s, s.(db := Upsert(s.db, batch, now)), cap);
  }

  /**
    A batch replayed after any run - its rows by then published, claimed,
    superseded - changes nothing: no row is resurrected, no citation doubled, no
    second event enqueued.
  */
  lemma ReplayIsInert(s: State, batch: seq<Draft>, now: int, steps: seq<Step>, later: int, cap: nat)
    requires DualWrite(s, cap) && Sourced(batch)
    ensures var db := Run(s.(db := Upsert(s.db, batch, now)), steps, cap).db; Upsert(db, batch, later) == db
  {
    var written := s.(db := Upsert(s.db, batch, now));
    UpsertKeepsDualWrite(s, batch, now, cap);
    UpsertLands(s.db, batch, now, cap);
    DualWriteOverRuns(written, steps, cap);
    var db := Run(written, steps, cap).db;
    forall i | 0 <= i < |batch| ensures Landed(db, batch[i]) { LandedStays(written.db, db, batch[i]); }
    LandedBatchIsInert(db, batch, later);
  }
}
