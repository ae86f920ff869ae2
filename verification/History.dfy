/**
  What a run of the protocol leaves behind: the supersession history of the
  rows, and the audit trail they can be rebuilt from.
*/
module History {
  import opened Prelude
  import opened Store
  import opened Protocol

  /* ------------------------------------------------------------------ */
  /* Supersession                                                         */
  /* ------------------------------------------------------------------ */

  /** One decision: its id is derived, its incumbent is older than its row, its row is its fact. */
  ghost predicate Founded(rows: map<Id, Row>, born: map<Id, nat>, decided: map<Id, Governed>, id: Id) {
    id in decided ==>
      && decided[id].AssertionId() == id
      && (id in rows ==> decided[id].Writes() && rows[id].fact == decided[id].fact)
      && (decided[id].incumbent.Some? ==>
            && decided[id].incumbent.value in born
            && (id in born ==> born[decided[id].incumbent.value] < born[id]))
  }

  ghost predicate Decisions(s: State) {
    && s.born.Keys == s.db.rows.Keys
    && (forall id :: id in s.born ==> s.born[id] < s.next)
    && (forall id :: id in s.db.rows && id.FromCandidate? ==> id in s.decided)
    && (forall id :: id in s.seeded <==> id in s.db.rows && id.Seeded?)
    && (forall id {:trigger Founded(s.db.rows, s.born, s.decided, id)} ::
          Founded(s.db.rows, s.born, s.decided, id))
  }

  ghost predicate Retired(rows: map<Id, Row>, decided: map<Id, Governed>, id: Id, successor: Id) {
    && id in rows && successor in rows && successor in decided
    && decided[successor].Supersedes() && decided[successor].incumbent == Some(id)
    && rows[id].supersededBy == Some(successor)
  }

  /** One row: its successor was decided against it, and what it was decided against it retired. */
  ghost predicate Linked(rows: map<Id, Row>, decided: map<Id, Governed>, id: Id) {
    id in rows ==>
      && (rows[id].supersededBy.Some? ==> Retired(rows, decided, id, rows[id].supersededBy.value))
      && (id in decided && decided[id].Supersedes() ==>
            Retired(rows, decided, decided[id].incumbent.value, id))
  }

  ghost predicate Links(rows: map<Id, Row>, decided: map<Id, Governed>) {
    && (forall id :: id in rows ==> (rows[id].Live() <==> rows[id].supersededBy.None?))
    && (forall id {:trigger Linked(rows, decided, id)} :: Linked(rows, decided, id))
  }

  ghost predicate Lineage(s: State) { Decisions(s) && Links(s.db.rows, s.decided) }

  /** Rows that differ in nothing but `visible`. */
  ghost predicate SameHistory(a: map<Id, Row>, b: map<Id, Row>) {
    && a.Keys == b.Keys
    && forall id :: id in a ==> b[id] == a[id].(visible := b[id].visible)
  }

  lemma VisibilityKeepsLineage(s: State, s': State)
    requires Lineage(s) && SameHistory(s.db.rows, s'.db.rows)
    requires s'.decided == s.decided && s'.seeded == s.seeded && s'.born == s.born && s'.next == s.next
    ensures Lineage(s')
  {
    forall id ensures Founded(s'.db.rows, s'.born, s'.decided, id) {
      assert Founded(s.db.rows, s.born, s.decided, id);
    }
    forall id ensures Linked(s'.db.rows, s'.decided, id) {
      assert Linked(s.db.rows, s.decided, id);
    }
  }

  /** A row inserted live under an id that retires nobody leaves the links as they were. */
  lemma InsertKeepsLinks(rows: map<Id, Row>, decided: map<Id, Governed>, id: Id, fact: Fact)
    requires Links(rows, decided) && id !in rows && !(id in decided && decided[id].Supersedes())
    ensures Links(rows[id := Row(fact, None, None, false)], decided)
  {
    var wider := rows[id := Row(fact, None, None, false)];
    forall x ensures Linked(wider, decided, x) {
      assert Linked(rows, decided, x);
    }
  }

  lemma DecideKeepsLineage(s: State, step: Step, cap: nat)
    requires step.Decide? && Lineage(s) && Enabled(s, step, cap)
    ensures Lineage(Exec(s, step, cap))
  {
    var s' := Exec(s, step, cap);
    forall id ensures Founded(s'.db.rows, s'.born, s'.decided, id) {
      assert Founded(s.db.rows, s.born, s.decided, id);
    }
    forall id ensures Linked(s'.db.rows, s'.decided, id) {
      assert Linked(s.db.rows, s.decided, id);
    }
  }

  lemma RetireKeepsLinks(rows: map<Id, Row>, decided: map<Id, Governed>, id: Id, at: int)
    requires Links(rows, decided) && id in decided && decided[id].Supersedes() && id !in rows
    requires decided[id].incumbent.value in rows && rows[decided[id].incumbent.value].Live()
    ensures var gone := decided[id].incumbent.value;
            Links(rows[id := Row(decided[id].fact, None, None, false)]
                      [gone := rows[gone].(validTo := Some(at), supersededBy := Some(id))], decided)
  {
    var gone := decided[id].incumbent.value;
    var after := rows[id := Row(decided[id].fact, None, None, false)]
                     [gone := rows[gone].(validTo := Some(at), supersededBy := Some(id))];
    forall x ensures Linked(after, decided, x) {
      assert Linked(rows, decided, x);
    }
  }

  /** What a committed apply does to the rows: nothing, an insert, or an insert and a retirement. */
  lemma ApplyRows(db: Db, g: Governed, at: int)
    requires ApplyTxn(db, g, at).Ok?
    ensures var id := g.AssertionId();
            var rows := ApplyTxn(db, g, at).value.0.rows;
            var inserted := if id in db.rows then db.rows else db.rows[id := Row(g.fact, None, None, false)];
            if !g.Writes() then rows == db.rows
            else if !g.Supersedes() then rows == inserted
            else
              var gone := g.incumbent.value;
              && gone != id && gone in db.rows && db.rows[gone].Live()
              && db.rows[gone].fact.slot.tenant == g.fact.slot.tenant && db.rows[gone].fact.validFrom <= at
              && rows == inserted[gone := db.rows[gone].(validTo := Some(at), supersededBy := Some(id))]
  {
  }

  /** A replayed supersession finds its incumbent gone, and rolls back. */
  lemma ReplayedSupersedeRollsBack(s: State, id: Id, at: int)
    requires Lineage(s) && id in s.decided && s.decided[id].Supersedes() && id in s.db.rows
    ensures ApplyTxn(s.db, s.decided[id], at) == Err(ConcurrencyConflict)
  {
    assert Linked(s.db.rows, s.decided, id);
  }

  /** An id born now, and no fact changing, keeps the bookkeeping. */
  lemma NewbornKeepsDecisions(s: State, s': State, id: Id)
    requires Decisions(s) && s'.decided == s.decided && id !in s.db.rows
    requires s'.db.rows.Keys == s.db.rows.Keys + {id}
    requires forall x :: x in s.db.rows ==> s'.db.rows[x].fact == s.db.rows[x].fact
    requires s'.born == s.born[id := s.next] && s'.next == s.next + 1
    requires s'.seeded == s.seeded + (if id.Seeded? then {id} else {})
    requires id.FromCandidate? ==> id in s.decided
    requires id in s.decided ==> s.decided[id].Writes() && s'.db.rows[id].fact == s.decided[id].fact
    ensures Decisions(s')
  {
    assert s'.born.Keys == s'.db.rows.Keys;
    forall x ensures Founded(s'.db.rows, s'.born, s'.decided, x) {
      assert Founded(s.db.rows, s.born, s.decided, x);
    }
  }

  lemma ExecApply(s: State, id: Id, at: int, cap: nat)
    requires Enabled(s, Apply(id, at), cap)
    ensures var s' := Exec(s, Apply(id, at), cap);
            && s'.db == ApplyTxn(s.db, s.decided[id], at).value.0
            && s'.decided == s.decided && s'.seeded == s.seeded
            && (if s.decided[id].Writes() then
                  s'.born == (if id in s.db.rows then s.born else s.born[id := s.next]) && s'.next == s.next + 1
                else s'.born == s.born && s'.next == s.next)
  {
  }

  lemma PlainApplyKeepsLineage(s: State, id: Id, at: int, cap: nat)
    requires Lineage(s) && Enabled(s, Apply(id, at), cap) && !s.decided[id].Supersedes()
    ensures Lineage(Exec(s, Apply(id, at), cap))
  {
    var g, s' := s.decided[id], Exec(s, Apply(id, at), cap);
    assert Founded(s.db.rows, s.born, s.decided, id);
    ExecApply(s, id, at, cap);
    ApplyRows(s.db, g, at);
    if g.Writes() && id !in s.db.rows {
      InsertKeepsLinks(s.db.rows, s.decided, id, g.fact);
      NewbornKeepsDecisions(s, s', id);
    }
  }

  lemma SupersedingApplyKeepsLineage(s: State, id: Id, at: int, cap: nat)
    requires Lineage(s) && Enabled(s, Apply(id, at), cap) && s.decided[id].Supersedes()
    ensures Lineage(Exec(s, Apply(id, at), cap))
  {
    var g, s' := s.decided[id], Exec(s, Apply(id, at), cap);
    assert Founded(s.db.rows, s.born, s.decided, id);
    ExecApply(s, id, at, cap);
    ApplyRows(s.db, g, at);
    if id in s.db.rows { ReplayedSupersedeRollsBack(s, id, at); }
    RetireKeepsLinks(s.db.rows, s.decided, id, at);
    NewbornKeepsDecisions(s, s', id);
  }

  lemma ApplyKeepsLineage(s: State, id: Id, at: int, cap: nat)
    requires Lineage(s) && Enabled(s, Apply(id, at), cap)
    ensures Lineage(Exec(s, Apply(id, at), cap))
  {
    if s.decided[id].Supersedes() { SupersedingApplyKeepsLineage(s, id, at, cap); }
    else { PlainApplyKeepsLineage(s, id, at, cap); }
  }

  lemma SeedKeepsLineage(s: State, step: Step, cap: nat)
    requires step.Seed? && Lineage(s)
    ensures Lineage(Exec(s, step, cap))
  {
    var id, s' := Seeded(step.key), Exec(s, step, cap);
    assert Founded(s.db.rows, s.born, s.decided, id);
    if id !in s.db.rows {
      InsertKeepsLinks(s.db.rows, s.decided, id, step.fact);
      NewbornKeepsDecisions(s, s', id);
    }
  }

  lemma CompleteKeepsLineage(s: State, step: Step, cap: nat)
    requires step.Complete? && Lineage(s) && Enabled(s, step, cap)
    ensures Lineage(Exec(s, step, cap)) && SameHistory(s.db.rows, Exec(s, step, cap).db.rows)
  {
    var s' := Exec(s, step, cap);
    assert SameHistory(s.db.rows, s'.db.rows);
    VisibilityKeepsLineage(s, s');
  }

  lemma OtherStepKeepsRows(s: State, step: Step, cap: nat)
    requires step.Claim? || step.Load? || step.GraphFails? || step.GraphWrites? || step.Crash?
    ensures var s' := Exec(s, step, cap);
            && s'.db.rows == s.db.rows && s'.db.audit == s.db.audit && s'.decided == s.decided
            && s'.seeded == s.seeded && s'.born == s.born && s'.next == s.next
  {
  }

  lemma StepKeepsLineage(s: State, step: Step, cap: nat)
    requires Lineage(s)
    ensures Lineage(Exec(s, step, cap))
  {
    if Enabled(s, step, cap) {
      match step
      case Seed(_, _, _, _) => SeedKeepsLineage(s, step, cap);
      case Decide(_) => DecideKeepsLineage(s, step, cap);
      case Apply(id, at) => ApplyKeepsLineage(s, id, at, cap);
      case Complete(_, _) => CompleteKeepsLineage(s, step, cap);
      case _ => OtherStepKeepsRows(s, step, cap);
    }
  }

  lemma {:induction false} LineageOverRuns(s: State, steps: seq<Step>, cap: nat)
    requires Lineage(s)
    ensures Lineage(Run(s, steps, cap))
    decreases |steps|
  {
    if steps != [] {
      StepKeepsLineage(s, steps[0], cap);
      LineageOverRuns(Exec(s, steps[0], cap), steps[1..], cap);
    }
  }

  /** From a row, along `superseded_by`, as far as it goes. */
  ghost function Trail(s: State, id: Id): (trail: seq<Id>)
    requires Lineage(s) && id in s.db.rows
    ensures trail != [] && trail[0] == id
    decreases s.next - s.born[id]
  {
    if s.db.rows[id].Live() then [id]
    else
      assert Linked(s.db.rows, s.decided, id);
      assert Founded(s.db.rows, s.born, s.decided, s.db.rows[id].supersededBy.value);
      [id] + Trail(s, s.db.rows[id].supersededBy.value)
  }

  /** It ends at a live row, every hop is a recorded supersession, and no row is met twice. */
  lemma {:induction false} TrailReachesLive(s: State, id: Id)
    requires Lineage(s) && id in s.db.rows
    ensures forall i :: 0 <= i < |Trail(s, id)| ==> Trail(s, id)[i] in s.db.rows
    ensures forall i :: 0 <= i < |Trail(s, id)| - 1 ==>
              s.db.rows[Trail(s, id)[i]].supersededBy == Some(Trail(s, id)[i + 1])
    ensures s.db.rows[Trail(s, id)[|Trail(s, id)| - 1]].Live()
    ensures forall i, j :: 0 <= i < j < |Trail(s, id)| ==> s.born[Trail(s, id)[i]] < s.born[Trail(s, id)[j]]
    decreases s.next - s.born[id]
  {
    if !s.db.rows[id].Live() {
      var successor := s.db.rows[id].supersededBy.value;
      assert Linked(s.db.rows, s.decided, id);
      assert Founded(s.db.rows, s.born, s.decided, successor);
      var tail := Trail(s, successor);
      TrailReachesLive(s, successor);
      var trail := Trail(s, id);
      assert trail == [id] + tail;
      forall i | 0 < i < |trail| ensures s.born[id] < s.born[trail[i]] {
        assert trail[i] == tail[i - 1];
        assert i - 1 > 0 ==> s.born[tail[0]] < s.born[tail[i - 1]];
      }
      forall i | 0 <= i < |trail| - 1 ensures s.db.rows[trail[i]].supersededBy == Some(trail[i + 1]) {
        assert i > 0 ==> trail[i] == tail[i - 1] && trail[i + 1] == tail[i];
      }
      forall i, j | 0 <= i < j < |trail| ensures s.born[trail[i]] < s.born[trail[j]] {
        assert i > 0 ==> trail[i] == tail[i - 1] && trail[j] == tail[j - 1];
      }
    }
  }

  /** No two rows share a successor, however many applies raced. */
  lemma SuccessorsAreDistinct(steps: seq<Step>, cap: nat, a: Id, b: Id)
    requires var rows := Run(INIT, steps, cap).db.rows;
             a in rows && b in rows && a != b && rows[a].supersededBy.Some? && rows[b].supersededBy.Some?
    ensures var rows := Run(INIT, steps, cap).db.rows;
            rows[a].supersededBy != rows[b].supersededBy
  {
    var s := Run(INIT, steps, cap);
    LineageOverRuns(INIT, steps, cap);
    assert Linked(s.db.rows, s.decided, a);
    assert Linked(s.db.rows, s.decided, b);
  }

  /* ---- one live row per disciplined slot ------------------------------ */

  ghost function LiveIn(s: State, slot: Slot): set<Id> {
    set id | id in s.db.rows && s.db.rows[id].Live() && s.db.rows[id].fact.slot == slot
  }

  /** `g` writes to `slot` exactly when it retires a row of `slot`. */
  ghost predicate KeepsToSlot(rows: map<Id, Row>, g: Governed, slot: Slot) {
    g.Writes() ==>
      (g.fact.slot == slot <==>
       g.Supersedes() && g.incumbent.value in rows && rows[g.incumbent.value].fact.slot == slot)
  }

  ghost predicate Disciplined(s: State, slot: Slot) {
    forall id :: id in s.decided ==> KeepsToSlot(s.db.rows, s.decided[id], slot)
  }

  ghost predicate SeedsNothing(steps: seq<Step>, slot: Slot) {
    forall i :: 0 <= i < |steps| && steps[i].Seed? ==> steps[i].fact.slot != slot
  }

  lemma SameLive(s: State, s': State, slot: Slot)
    requires SameHistory(s.db.rows, s'.db.rows)
    ensures LiveIn(s', slot) == LiveIn(s, slot)
  {
  }

  lemma ElsewhereKeepsLive(s: State, s': State, slot: Slot, id: Id, fact: Fact)
    requires fact.slot != slot
    requires s'.db.rows == (if id in s.db.rows then s.db.rows else s.db.rows[id := Row(fact, None, None, false)])
    ensures LiveIn(s', slot) == LiveIn(s, slot)
  {
  }

  lemma StepKeepsOneLive(s: State, step: Step, cap: nat, slot: Slot)
    requires Lineage(s) && Disciplined(s, slot) && |LiveIn(s, slot)| == 1
    requires step.Seed? ==> step.fact.slot != slot
    ensures |LiveIn(Exec(s, step, cap), slot)| == 1
  {
    var s' := Exec(s, step, cap);
    if Enabled(s, step, cap) {
      match step
      case Seed(key, fact, _, _) => ElsewhereKeepsLive(s, s', slot, Seeded(key), fact);
      case Decide(_) => assert s'.db == s.db;
      case Apply(id, at) => ApplyKeepsOneLive(s, id, at, cap, slot);
      case Complete(_, _) =>
        CompleteKeepsLineage(s, step, cap);
        SameLive(s, s', slot);
      case _ => OtherStepKeepsRows(s, step, cap);
    }
  }

  lemma ApplyKeepsOneLive(s: State, id: Id, at: int, cap: nat, slot: Slot)
    requires Lineage(s) && Disciplined(s, slot) && |LiveIn(s, slot)| == 1
    requires Enabled(s, Apply(id, at), cap)
    ensures |LiveIn(Exec(s, Apply(id, at), cap), slot)| == 1
  {
    var s', g := Exec(s, Apply(id, at), cap), s.decided[id];
    assert Founded(s.db.rows, s.born, s.decided, id);
    ExecApply(s, id, at, cap);
    ApplyRows(s.db, g, at);
    assert KeepsToSlot(s.db.rows, g, slot);
    if g.Supersedes() {
      if id in s.db.rows { ReplayedSupersedeRollsBack(s, id, at); }
      SwapKeepsOneLive(s, s', slot, id, g, at);
    } else if g.Writes() {
      ElsewhereKeepsLive(s, s', slot, id, g.fact);
    }
  }

  lemma SwapKeepsOneLive(s: State, s': State, slot: Slot, id: Id, g: Governed, at: int)
    requires |LiveIn(s, slot)| == 1 && id !in s.db.rows
    requires g.Supersedes() && g.incumbent.value in s.db.rows && s.db.rows[g.incumbent.value].Live()
    requires g.fact.slot == slot <==> s.db.rows[g.incumbent.value].fact.slot == slot
    requires var gone := g.incumbent.value;
             s'.db.rows == s.db.rows[id := Row(g.fact, None, None, false)]
                           [gone := s.db.rows[gone].(validTo := Some(at), supersededBy := Some(id))]
    ensures |LiveIn(s', slot)| == 1
  {
    if g.fact.slot == slot {
      SoleMember(LiveIn(s, slot), g.incumbent.value);
      forall x ensures x in LiveIn(s', slot) <==> x == id {
        if x in s.db.rows && x != g.incumbent.value { assert x !in LiveIn(s, slot); }
      }
      assert LiveIn(s', slot) == {id};
    } else {
      assert LiveIn(s', slot) == LiveIn(s, slot);
    }
  }

  lemma SoleMember<T>(xs: set<T>, x: T)
    requires |xs| == 1 && x in xs
    ensures xs == {x}
  {
    var rest := xs - {x};
    assert |rest| == 0;
  }

  /** Races and replays included: such a slot never holds two live rows, and never none. */
  lemma {:induction false} OneLiveRowOverRuns(s: State, steps: seq<Step>, cap: nat, slot: Slot)
    requires DualWrite(s, cap) && Lineage(s) && |LiveIn(s, slot)| == 1
    requires Disciplined(Run(s, steps, cap), slot) && SeedsNothing(steps, slot)
    ensures |LiveIn(Run(s, steps, cap), slot)| == 1
    decreases |steps|
  {
    if steps != [] {
      var s', rest := Exec(s, steps[0], cap), steps[1..];
      StepKeepsDualWrite(s, steps[0], cap);
      StepKeepsLineage(s, steps[0], cap);
      DisciplineBackwards(s, steps, cap, slot);
      StepKeepsOneLive(s, steps[0], cap, slot);
      assert SeedsNothing(rest, slot) by {
        forall i | 0 <= i < |rest| && rest[i].Seed? ensures rest[i].fact.slot != slot {
          assert rest[i] == steps[i + 1];
        }
      }
      OneLiveRowOverRuns(s', rest, cap, slot);
    }
  }

  /** Decisions and slots are never rewritten, so discipline at the end was discipline all along. */
  lemma {:induction false} DisciplineBackwards(s: State, steps: seq<Step>, cap: nat, slot: Slot)
    requires DualWrite(s, cap) && Lineage(s) && Disciplined(Run(s, steps, cap), slot)
    ensures Disciplined(s, slot)
    decreases |steps|
  {
    if steps != [] {
      var s' := Exec(s, steps[0], cap);
      StepKeepsDualWrite(s, steps[0], cap);
      StepKeepsLineage(s, steps[0], cap);
      DisciplineBackwards(s', steps[1..], cap, slot);
      DecisionsPersist(s, steps[0], cap);
      forall id | id in s.decided ensures KeepsToSlot(s.db.rows, s.decided[id], slot) {
        assert Founded(s.db.rows, s.born, s.decided, id);
        KeptBackwards(s.db, s'.db, s'.decided[id], slot);
      }
    }
  }

  lemma KeptBackwards(a: Db, b: Db, g: Governed, slot: Slot)
    requires DbGrows(a, b) && KeepsToSlot(b.rows, g, slot)
    requires g.incumbent.Some? ==> g.incumbent.value in a.rows
    ensures KeepsToSlot(a.rows, g, slot)
  {
    assert g.incumbent.Some? ==> RowGrows(a, b, g.incumbent.value);
  }

  lemma DecisionsPersist(s: State, step: Step, cap: nat)
    ensures forall id :: id in s.decided ==>
              id in Exec(s, step, cap).decided && Exec(s, step, cap).decided[id] == s.decided[id]
  {
  }

  /** What a read about now finds in a slot. */
  ghost function ReadableIn(s: State, slot: Slot): set<Id> {
    set id | id in LiveIn(s, slot) && s.db.rows[id].visible
  }

  /**
    A reader of such a slot never finds two facts, and finds the one there is
    exactly when its event has been dispatched.
  */
  lemma OneReadableRowOverRuns(s: State, steps: seq<Step>, cap: nat, slot: Slot)
    requires DualWrite(s, cap) && Lineage(s) && |LiveIn(s, slot)| == 1
    requires Disciplined(Run(s, steps, cap), slot) && SeedsNothing(steps, slot)
    ensures var end := Run(s, steps, cap);
            && (exists id :: LiveIn(end, slot) == {id})
            && forall id :: LiveIn(end, slot) == {id} ==>
                 && id in end.db.rows && OutboxFor(id) in end.db.outbox
                 && ReadableIn(end, slot) == if end.db.outbox[OutboxFor(id)].dispatchedAt.Some? then {id} else {}
  {
    var end := Run(s, steps, cap);
    OneLiveRowOverRuns(s, steps, cap, slot);
    DualWriteOverRuns(s, steps, cap);
    var id :| id in LiveIn(end, slot);
    SoleMember(LiveIn(end, slot), id);
    assert RowAgrees(end.db, id);
    assert ReadableIn(end, slot) == if end.db.rows[id].visible then {id} else {};
    forall x | LiveIn(end, slot) == {x} ensures x == id { assert id in {x}; }
  }

  /* ------------------------------------------------------------------ */
  /* The audit trail rebuilds the store                                   */
  /* ------------------------------------------------------------------ */

  ghost function WrittenIds(audit: seq<AuditEvent>): set<Id> {
    set e | e in audit && e.Wrote? :: e.assertion
  }

  ghost function RetiredIds(audit: seq<AuditEvent>): set<Id> {
    set e | e in audit && e.Superseded? :: e.retired
  }

  ghost function LiveIds(rows: map<Id, Row>): set<Id> {
    set id | id in rows && rows[id].Live()
  }

  ghost predicate AuditMatches(s: State) {
    && (forall id :: Wrote(id) in s.db.audit <==> id in s.db.rows && id.FromCandidate?)
    && (forall id, successor :: Superseded(id, successor) in s.db.audit <==>
          id in s.db.rows && s.db.rows[id].supersededBy == Some(successor))
    && (forall i, j :: 0 <= i < j < |s.db.audit| && s.db.audit[i].Superseded? && s.db.audit[j].Superseded? ==>
          s.db.audit[i].retired != s.db.audit[j].retired)
  }

  lemma SameTrailMatches(s: State, s': State)
    requires AuditMatches(s) && s'.db.audit == s.db.audit && SameHistory(s.db.rows, s'.db.rows)
    ensures AuditMatches(s')
  {
  }

  /** A DECISION, and a WRITE for the row it put there or met again, retiring nothing. */
  lemma PlainApplyMatches(s: State, id: Id, at: int, cap: nat)
    requires Lineage(s) && AuditMatches(s) && Enabled(s, Apply(id, at), cap) && !s.decided[id].Supersedes()
    ensures AuditMatches(Exec(s, Apply(id, at), cap))
  {
    var s' := Exec(s, Apply(id, at), cap);
    assert Founded(s.db.rows, s.born, s.decided, id);
    ExecApply(s, id, at, cap);
    ApplyRows(s.db, s.decided[id], at);
    assert s'.db.audit == s.db.audit + [Decided(id)] + (if s.decided[id].Writes() then [Wrote(id)] else []);
    InsertMatches(s, s', id, s.decided[id].fact, s.decided[id].Writes());
  }

  lemma InsertMatches(s: State, s': State, id: Id, fact: Fact, writes: bool)
    requires AuditMatches(s) && id.FromCandidate?
    requires s'.db.rows == if writes && id !in s.db.rows then s.db.rows[id := Row(fact, None, None, false)]
                           else s.db.rows
    requires s'.db.audit == s.db.audit + [Decided(id)] + (if writes then [Wrote(id)] else [])
    ensures AuditMatches(s')
  {
    forall k | |s.db.audit| <= k < |s'.db.audit| ensures !s'.db.audit[k].Superseded? {}
    assert forall e: AuditEvent :: e in s'.db.audit <==>
      e in s.db.audit || e == Decided(id) || (writes && e == Wrote(id));
  }

  lemma SupersedingApplyMatches(s: State, id: Id, at: int, cap: nat)
    requires Lineage(s) && AuditMatches(s) && Enabled(s, Apply(id, at), cap) && s.decided[id].Supersedes()
    ensures AuditMatches(Exec(s, Apply(id, at), cap))
  {
    var s' := Exec(s, Apply(id, at), cap);
    var gone := s.decided[id].incumbent.value;
    assert Founded(s.db.rows, s.born, s.decided, id);
    ExecApply(s, id, at, cap);
    ApplyRows(s.db, s.decided[id], at);
    if id in s.db.rows { ReplayedSupersedeRollsBack(s, id, at); }
    assert s'.db.audit == s.db.audit + [Decided(id), Wrote(id), Superseded(gone, id)];
    RetireMatches(s, s', id, at);
  }

  lemma RetireMatches(s: State, s': State, id: Id, at: int)
    requires Lineage(s) && AuditMatches(s)
    requires id in s.decided && s.decided[id].Supersedes() && id !in s.db.rows && id.FromCandidate?
    requires s.decided[id].incumbent.value in s.db.rows && s.db.rows[s.decided[id].incumbent.value].Live()
    requires var gone := s.decided[id].incumbent.value;
             && s'.db.rows == s.db.rows[id := Row(s.decided[id].fact, None, None, false)]
                  [gone := s.db.rows[gone].(validTo := Some(at), supersededBy := Some(id))]
             && s'.db.audit == s.db.audit + [Decided(id), Wrote(id), Superseded(gone, id)]
    ensures AuditMatches(s')
  {
    var gone := s.decided[id].incumbent.value;
    var audit, audit' := s.db.audit, s'.db.audit;
    forall e: AuditEvent ensures e in audit' <==>
          e in audit || e == Decided(id) || e == Wrote(id) || e == Superseded(gone, id) {}
    forall i | 0 <= i < |audit| && audit[i].Superseded? ensures audit[i].retired != gone {
      assert Superseded(audit[i].retired, audit[i].successor) in audit;
    }
    OneMoreRetirement(audit, audit', id, gone);
    forall x, successor ensures Superseded(x, successor) in audit' <==>
          x in s'.db.rows && s'.db.rows[x].supersededBy == Some(successor)
    {
      RetirementRecorded(s.db.rows, s'.db.rows, x, successor, id, gone);
    }
    forall x ensures Wrote(x) in audit' <==> x in s'.db.rows && x.FromCandidate? {
      assert Wrote(x) in audit' <==> Wrote(x) in audit || x == id;
    }
  }

  lemma RetirementRecorded(rows: map<Id, Row>, after: map<Id, Row>, x: Id, successor: Id, id: Id, gone: Id)
    requires gone in rows && rows[gone].supersededBy.None? && id !in rows && gone in after && id in after
    requires after.Keys == rows.Keys + {id}
    requires after[gone].supersededBy == Some(id) && after[id].supersededBy.None?
    requires forall y :: y in rows && y != gone ==> after[y] == rows[y]
    ensures (x in after && after[x].supersededBy == Some(successor)) <==>
            ((x in rows && rows[x].supersededBy == Some(successor)) || (x == gone && successor == id))
  {
  }

  lemma OneMoreRetirement(before: seq<AuditEvent>, after: seq<AuditEvent>, id: Id, gone: Id)
    requires after == before + [Decided(id), Wrote(id), Superseded(gone, id)]
    requires forall i, j :: 0 <= i < j < |before| && before[i].Superseded? && before[j].Superseded? ==>
               before[i].retired != before[j].retired
    requires forall i :: 0 <= i < |before| && before[i].Superseded? ==> before[i].retired != gone
    ensures forall i, j :: 0 <= i < j < |after| && after[i].Superseded? && after[j].Superseded? ==>
              after[i].retired != after[j].retired
  {
    var n := |before|;
    assert after[n].Decided? && after[n + 1].Wrote?;
    assert forall i :: 0 <= i < n ==> after[i] == before[i];
  }

  lemma StepKeepsAudit(s: State, step: Step, cap: nat)
    requires Lineage(s) && AuditMatches(s)
    ensures AuditMatches(Exec(s, step, cap))
  {
    if Enabled(s, step, cap) {
      match step
      case Apply(id, at) =>
        if s.decided[id].Supersedes() { SupersedingApplyMatches(s, id, at, cap); }
        else { PlainApplyMatches(s, id, at, cap); }
      case Seed(key, fact, _, _) => assert Exec(s, step, cap).db.audit == s.db.audit;
      case Complete(_, _) =>
        CompleteKeepsLineage(s, step, cap);
        SameTrailMatches(s, Exec(s, step, cap));
      case Decide(_) =>
      case _ => OtherStepKeepsRows(s, step, cap);
    }
  }

  lemma {:induction false} AuditOverRuns(s: State, steps: seq<Step>, cap: nat)
    requires Lineage(s) && AuditMatches(s)
    ensures AuditMatches(Run(s, steps, cap))
    decreases |steps|
  {
    if steps != [] {
      StepKeepsAudit(s, steps[0], cap);
      StepKeepsLineage(s, steps[0], cap);
      AuditOverRuns(Exec(s, steps[0], cap), steps[1..], cap);
    }
  }

  /** The trail alone, with the seeded ids, says which rows are live and who retired the others. */
  lemma AuditRebuildsStore(steps: seq<Step>, cap: nat)
    ensures var s := Run(INIT, steps, cap);
            && LiveIds(s.db.rows) == (s.seeded + WrittenIds(s.db.audit)) - RetiredIds(s.db.audit)
            && (forall id, successor :: Superseded(id, successor) in s.db.audit <==>
                  id in s.db.rows && s.db.rows[id].supersededBy == Some(successor))
            && (forall i, j :: 0 <= i < j < |s.db.audit| && s.db.audit[i].Superseded? && s.db.audit[j].Superseded? ==>
                  s.db.audit[i].retired != s.db.audit[j].retired)
  {
    var s := Run(INIT, steps, cap);
    LineageOverRuns(INIT, steps, cap);
    AuditOverRuns(INIT, steps, cap);
    var written, retired := WrittenIds(s.db.audit), RetiredIds(s.db.audit);
    forall id ensures id in LiveIds(s.db.rows) <==> id in (s.seeded + written) - retired {
      assert id in written <==> Wrote(id) in s.db.audit;
      if id in retired {
        var e :| e in s.db.audit && e.Superseded? && e.retired == id;
        assert e == Superseded(id, e.successor);
      }
      if id in s.db.rows && s.db.rows[id].supersededBy.Some? {
        var e := Superseded(id, s.db.rows[id].supersededBy.value);
        assert e in s.db.audit && e.retired == id;
      }
    }
  }

  /* ---- one tenant's rows stay one tenant's -------------------------------- */

  ghost predicate SameTenant(rows: map<Id, Row>, id: Id) {
    id in rows && rows[id].supersededBy.Some? ==>
      && rows[id].supersededBy.value in rows
      && rows[rows[id].supersededBy.value].fact.slot.tenant == rows[id].fact.slot.tenant
  }

  ghost predicate TenantsMatch(rows: map<Id, Row>) {
    forall id {:trigger SameTenant(rows, id)} :: SameTenant(rows, id)
  }

  lemma InsertKeepsTenants(rows: map<Id, Row>, id: Id, fact: Fact)
    requires TenantsMatch(rows) && id !in rows
    ensures TenantsMatch(rows[id := Row(fact, None, None, false)])
  {
    var after := rows[id := Row(fact, None, None, false)];
    forall x ensures SameTenant(after, x) { assert SameTenant(rows, x); }
  }

  lemma RetireKeepsTenants(rows: map<Id, Row>, gone: Id, successor: Id, at: int)
    requires TenantsMatch(rows) && gone in rows && successor in rows
    requires rows[successor].fact.slot.tenant == rows[gone].fact.slot.tenant
    ensures TenantsMatch(rows[gone := rows[gone].(validTo := Some(at), supersededBy := Some(successor))])
  {
    var after := rows[gone := rows[gone].(validTo := Some(at), supersededBy := Some(successor))];
    forall x ensures SameTenant(after, x) { assert SameTenant(rows, x); }
  }

  lemma RevealKeepsTenants(rows: map<Id, Row>, after: map<Id, Row>)
    requires TenantsMatch(rows) && SameHistory(rows, after)
    ensures TenantsMatch(after)
  {
    forall x ensures SameTenant(after, x) { assert SameTenant(rows, x); }
  }

  lemma ApplyKeepsTenants(s: State, id: Id, at: int)
    requires Lineage(s) && TenantsMatch(s.db.rows) && id in s.decided && ApplyTxn(s.db, s.decided[id], at).Ok?
    ensures TenantsMatch(ApplyTxn(s.db, s.decided[id], at).value.0.rows)
  {
    var g := s.decided[id];
    ApplyRows(s.db, g, at);
    assert Founded(s.db.rows, s.born, s.decided, id);
    if g.Writes() {
      if id !in s.db.rows { InsertKeepsTenants(s.db.rows, id, g.fact); }
      if g.Supersedes() {
        var inserted := if id in s.db.rows then s.db.rows else s.db.rows[id := Row(g.fact, None, None, false)];
        RetireKeepsTenants(inserted, g.incumbent.value, id, at);
      }
    }
  }

  lemma StepKeepsTenants(s: State, step: Step, cap: nat)
    requires Lineage(s) && TenantsMatch(s.db.rows)
    ensures TenantsMatch(Exec(s, step, cap).db.rows)
  {
    if Enabled(s, step, cap) {
      match step
      case Apply(id, at) =>
        ApplyKeepsTenants(s, id, at);
        ExecApply(s, id, at, cap);
      case Seed(key, fact, _, _) =>
        if Seeded(key) !in s.db.rows { InsertKeepsTenants(s.db.rows, Seeded(key), fact); }
      case Complete(_, _) =>
        CompleteKeepsLineage(s, step, cap);
        RevealKeepsTenants(s.db.rows, Exec(s, step, cap).db.rows);
      case Decide(_) =>
      case _ => OtherStepKeepsRows(s, step, cap);
    }
  }

  /* ---- the order of events ---------------------------------------------- */

  /** A WRITE follows its own DECISION at once, and a SUPERSEDE its own WRITE. */
  predicate InItsPlace(audit: seq<AuditEvent>, i: int) {
    0 <= i < |audit| ==>
      match audit[i]
      case Decided(_) => true
      case Wrote(id) => i > 0 && audit[i - 1] == Decided(id)
      case Superseded(_, successor) => i > 0 && audit[i - 1] == Wrote(successor)
  }

  ghost predicate InPlace(audit: seq<AuditEvent>) {
    forall i {:trigger InItsPlace(audit, i)} :: InItsPlace(audit, i)
  }

  lemma PlaceAppends(audit: seq<AuditEvent>, e: AuditEvent)
    requires InPlace(audit) && InItsPlace(audit + [e], |audit|)
    ensures InPlace(audit + [e])
  {
    forall i ensures InItsPlace(audit + [e], i) { assert InItsPlace(audit, i); }
  }

  /** The decision first, then the row it put there, then the row that retired. */
  lemma ApplyAppendsInPlace(db: Db, g: Governed, at: int)
    requires InPlace(db.audit) && ApplyTxn(db, g, at).Ok?
    ensures InPlace(ApplyTxn(db, g, at).value.0.audit)
    ensures db.audit + [Decided(g.AssertionId())] <= ApplyTxn(db, g, at).value.0.audit
  {
    var id := g.AssertionId();
    var decided := db.audit + [Decided(id)];
    var wrote := decided + [Wrote(id)];
    PlaceAppends(db.audit, Decided(id));
    if g.Writes() {
      PlaceAppends(decided, Wrote(id));
      if g.Supersedes() { PlaceAppends(wrote, Superseded(g.incumbent.value, id)); }
    }
  }

  /** No write is on record without its decision just before it, nor a retirement without its write. */
  lemma {:induction false} EventsStayInPlace(s: State, steps: seq<Step>, cap: nat)
    requires InPlace(s.db.audit)
    ensures InPlace(Run(s, steps, cap).db.audit)
    decreases |steps|
  {
    if steps != [] {
      StepKeepsPlace(s, steps[0], cap);
      EventsStayInPlace(Exec(s, steps[0], cap), steps[1..], cap);
    }
  }

  lemma StepKeepsPlace(s: State, step: Step, cap: nat)
    requires InPlace(s.db.audit)
    ensures InPlace(Exec(s, step, cap).db.audit)
  {
    if Enabled(s, step, cap) && step.Apply? { ApplyAppendsInPlace(s.db, s.decided[step.id], step.at); }
  }
}
