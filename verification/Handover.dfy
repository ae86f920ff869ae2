/**
  What readers see while one row takes over from another. A point-in-time read
  asks for validity and for visibility; the applier retires the incumbent at
  its own clock, in the transaction that inserts the successor invisible.
*/
module Handover {
  import opened Prelude
  import opened Store
  import opened Protocol
  import opened History
  import opened Refinement

  /* ---- two rows --------------------------------------------------------------- */

  /** A read at `t` finds exactly one of the two. */
  predicate OneFound(earlier: Row, later: Row, t: int) { earlier.ReadAt(t) != later.ReadAt(t) }

  /** It does at every instant since the first was true. */
  ghost predicate Seamless(earlier: Row, later: Row) {
    forall t {:trigger OneFound(earlier, later, t)} :: earlier.fact.validFrom <= t ==> OneFound(earlier, later, t)
  }

  /** A retirement at `at` meets the successor's start, or left the first row no time at all. */
  predicate Meets(first: int, at: int, start: int) { at == start || start <= at == first }

  /** Nothing missing and nothing double, for readers, exactly when this holds. */
  lemma HandoverIffAbutting(earlier: Row, later: Row)
    requires earlier.validTo.Some? && later.Live() && earlier.fact.validFrom <= earlier.validTo.value
    ensures Seamless(earlier, later) <==>
              later.visible
              && if earlier.visible then Meets(earlier.fact.validFrom, earlier.validTo.value, later.fact.validFrom)
                 else later.fact.validFrom <= earlier.fact.validFrom
  {
    var first, at, start := earlier.fact.validFrom, earlier.validTo.value, later.fact.validFrom;
    if Seamless(earlier, later) {
      assert OneFound(earlier, later, at) && OneFound(earlier, later, first);
      assert start > first ==> OneFound(earlier, later, start);
    }
  }

  /** Both are found at some instant exactly when the retirement comes after both starts. */
  lemma OverlapIff(earlier: Row, later: Row)
    requires earlier.validTo.Some? && later.Live()
    ensures (exists t :: earlier.ReadAt(t) && later.ReadAt(t)) <==>
              earlier.visible && later.visible
              && earlier.fact.validFrom < earlier.validTo.value && later.fact.validFrom < earlier.validTo.value
  {
    var first, at, start := earlier.fact.validFrom, earlier.validTo.value, later.fact.validFrom;
    var t := if first < start then start else first;
    if earlier.visible && later.visible && first < at && start < at {
      assert earlier.ReadAt(t) && later.ReadAt(t);
    }
  }

  /** Neither is found at some instant since the first was true exactly when what is visible does not cover it. */
  lemma GapIff(earlier: Row, later: Row)
    requires earlier.validTo.Some? && later.Live() && earlier.fact.validFrom <= earlier.validTo.value
    ensures (exists t :: earlier.fact.validFrom <= t && !earlier.ReadAt(t) && !later.ReadAt(t)) <==>
              !(later.visible
                && later.fact.validFrom <= if earlier.visible then earlier.validTo.value else earlier.fact.validFrom)
  {
    var first, at := earlier.fact.validFrom, earlier.validTo.value;
    if !later.visible || !earlier.visible || later.fact.validFrom > at {
      var t := if earlier.visible then at else first;
      assert earlier.visible && later.visible ==> !earlier.ReadAt(at) && !later.ReadAt(at);
      assert !earlier.ReadAt(t);
      assert !later.visible || later.fact.validFrom > t ==> !later.ReadAt(t);
    }
  }

  /* ---- over runs ---------------------------------------------------------------- */

  /** `id`'s apply, superseding, commits now. */
  ghost predicate Supersedes(s: State, id: Id, at: int, cap: nat) {
    DualWrite(s, cap) && Lineage(s) && Enabled(s, Apply(id, at), cap) && s.decided[id].Supersedes()
  }

  /** What the apply settled, no later step unsettles. */
  lemma HandoverIsSettled(s: State, id: Id, at: int, steps: seq<Step>, cap: nat)
    requires Supersedes(s, id, at, cap)
    ensures var rows, g := Run(Exec(s, Apply(id, at), cap), steps, cap).db.rows, s.decided[id];
            var gone := g.incumbent.value;
            && gone in s.db.rows && gone in rows && id in rows && gone != id
            && rows[gone].fact == s.db.rows[gone].fact && rows[gone].fact.validFrom <= at
            && rows[gone].validTo == Some(at) && rows[id].fact == g.fact
  {
    var g, applied := s.decided[id], Exec(s, Apply(id, at), cap);
    var gone, end := g.incumbent.value, Run(applied, steps, cap);
    ApplyRows(s.db, g, at);
    ExecApply(s, id, at, cap);
    assert Founded(s.db.rows, s.born, s.decided, id);
    if id in s.db.rows { ReplayedSupersedeRollsBack(s, id, at); }
    StepKeepsDualWrite(s, Apply(id, at), cap);
    DualWriteOverRuns(applied, steps, cap);
    assert RowGrows(applied.db, end.db, gone) && RowGrows(applied.db, end.db, id);
  }

  /**
    From the apply on, whatever else runs: a read at or after `at` finds neither
    row for as long as the successor's event is pending, and one before `at`
    finds the incumbent as it always did.
  */
  lemma NothingFoundWhilePending(s: State, id: Id, at: int, steps: seq<Step>, cap: nat, t: int)
    requires Supersedes(s, id, at, cap)
    requires var db := Run(Exec(s, Apply(id, at), cap), steps, cap).db;
             OutboxFor(id) in db.outbox && db.outbox[OutboxFor(id)].dispatchedAt.None?
    ensures var rows := Run(Exec(s, Apply(id, at), cap), steps, cap).db.rows;
            var gone := s.decided[id].incumbent.value;
            && gone in rows && id in rows && !rows[id].ReadAt(t)
            && (at <= t ==> !rows[gone].ReadAt(t))
            && (t < at ==> (rows[gone].ReadAt(t) <==> rows[gone].visible && rows[gone].fact.validFrom <= t))
  {
    var applied := Exec(s, Apply(id, at), cap);
    HandoverIsSettled(s, id, at, steps, cap);
    StepKeepsDualWrite(s, Apply(id, at), cap);
    DualWriteOverRuns(applied, steps, cap);
    assert RowAgrees(Run(applied, steps, cap).db, id);
  }

  /**
    The exact condition on what the applier is given: once both rows are
    visible, readers find exactly one at every instant since the incumbent was
    true iff the apply's clock met the successor's `valid_from`, or both fell on
    or before the incumbent's own start.
  */
  lemma ApplierHandoverIff(s: State, id: Id, at: int, steps: seq<Step>, cap: nat)
    requires Supersedes(s, id, at, cap)
    requires var rows := Run(Exec(s, Apply(id, at), cap), steps, cap).db.rows;
             id in rows && rows[id].Live() && rows[id].visible
             && s.decided[id].incumbent.value in rows && rows[s.decided[id].incumbent.value].visible
    ensures var rows := Run(Exec(s, Apply(id, at), cap), steps, cap).db.rows;
            var gone, start := s.decided[id].incumbent.value, s.decided[id].fact.validFrom;
            var first := rows[gone].fact.validFrom;
            && (Seamless(rows[gone], rows[id]) <==> Meets(first, at, start))
            && ((exists t :: rows[gone].ReadAt(t) && rows[id].ReadAt(t)) <==> first < at && start < at)
            && ((exists t :: first <= t && !rows[gone].ReadAt(t) && !rows[id].ReadAt(t)) <==> at < start)
  {
    var rows := Run(Exec(s, Apply(id, at), cap), steps, cap).db.rows;
    var gone := s.decided[id].incumbent.value;
    HandoverIsSettled(s, id, at, steps, cap);
    HandoverIffAbutting(rows[gone], rows[id]);
    OverlapIff(rows[gone], rows[id]);
    GapIff(rows[gone], rows[id]);
  }

  /* ---- one handover, start to finish ------------------------------------------------ */

  /** A seeded fact readers can see, and a decision to replace it from `at` on. */
  ghost predicate Story(key: string, was: Fact, g: Governed, at: int, cap: nat) {
    && cap > 0 && g.Supersedes() && g.incumbent == Some(Seeded(key))
    && g.fact.slot.tenant == was.slot.tenant && g.fact.validFrom == at && was.validFrom <= at
  }

  function Published(key: string, was: Fact, r: nat, cap: nat): State {
    Run(Exec(INIT, Seed(key, was, "seed", 0), cap), Publication(r, OutboxFor(Seeded(key)), 0), cap)
  }

  function Applied(key: string, was: Fact, g: Governed, r: nat, at: int, cap: nat): State {
    Exec(Exec(Published(key, was, r, cap), Decide(g), cap), Apply(g.AssertionId(), at), cap)
  }

  lemma SeedIsPublished(key: string, was: Fact, r: nat, cap: nat)
    requires cap > 0
    ensures var s := Published(key, was, r, cap);
            && DualWrite(s, cap) && Lineage(s) && RelayAt(s, r) == Idle && s.decided == map[]
            && s.db.rows == map[Seeded(key) := Row(was, None, None, true)]
  {
    var seeded := Exec(INIT, Seed(key, was, "seed", 0), cap);
    StepKeepsDualWrite(INIT, Seed(key, was, "seed", 0), cap);
    StepKeepsLineage(INIT, Seed(key, was, "seed", 0), cap);
    DualWriteOverRuns(seeded, Publication(r, OutboxFor(Seeded(key)), 0), cap);
    LineageOverRuns(seeded, Publication(r, OutboxFor(Seeded(key)), 0), cap);
    PendingCanBePublished(seeded, r, Seeded(key), 0, cap);
    assert seeded.db.rows == map[Seeded(key) := Row(was, None, None, false)];
  }

  lemma DecisionIsTaken(s: State, key: string, was: Fact, g: Governed, cap: nat)
    requires DualWrite(s, cap) && Lineage(s) && s.decided == map[]
    requires s.db.rows == map[Seeded(key) := Row(was, None, None, true)] && g.incumbent == Some(Seeded(key))
    ensures Exec(s, Decide(g), cap) == s.(decided := map[g.AssertionId() := g])
    ensures DualWrite(Exec(s, Decide(g), cap), cap) && Lineage(Exec(s, Decide(g), cap))
  {
    StepKeepsDualWrite(s, Decide(g), cap);
    StepKeepsLineage(s, Decide(g), cap);
  }

  lemma DecisionIsApplied(s: State, key: string, was: Fact, g: Governed, r: nat, at: int, cap: nat)
    requires Story(key, was, g, at, cap) && s.decided == map[g.AssertionId() := g] && RelayAt(s, r) == Idle
    requires s.db.rows == map[Seeded(key) := Row(was, None, None, true)]
    ensures Enabled(s, Apply(g.AssertionId(), at), cap)
    ensures var after, id := Exec(s, Apply(g.AssertionId(), at), cap), g.AssertionId();
            && RelayAt(after, r) == Idle
            && after.db.rows
               == map[Seeded(key) := Row(was, Some(at), Some(id), true), id := Row(g.fact, None, None, false)]
  {
    CanSupersede(s.db, key, was, g, at, cap);
    ApplyRows(s.db, g, at);
    ExecApply(s, g.AssertionId(), at, cap);
  }

  lemma ApplyCommits(key: string, was: Fact, g: Governed, r: nat, at: int, cap: nat)
    requires Story(key, was, g, at, cap)
    ensures var decided := Exec(Published(key, was, r, cap), Decide(g), cap);
            Supersedes(decided, g.AssertionId(), at, cap) && decided.decided == map[g.AssertionId() := g]
    ensures var s := Applied(key, was, g, r, at, cap);
            && RelayAt(s, r) == Idle
            && s.db.rows == map[Seeded(key) := Row(was, Some(at), Some(g.AssertionId()), true),
                                g.AssertionId() := Row(g.fact, None, None, false)]
  {
    SeedIsPublished(key, was, r, cap);
    DecisionIsTaken(Published(key, was, r, cap), key, was, g, cap);
    DecisionIsApplied(Exec(Published(key, was, r, cap), Decide(g), cap), key, was, g, r, at, cap);
  }

  lemma CanSupersede(db: Db, key: string, was: Fact, g: Governed, at: int, cap: nat)
    requires Story(key, was, g, at, cap) && db.rows == map[Seeded(key) := Row(was, None, None, true)]
    ensures ApplyTxn(db, g, at).Ok?
  {
  }

  lemma NewEventIsFresh(s: State, id: Id, at: int, cap: nat)
    requires DualWrite(s, cap) && Enabled(s, Apply(id, at), cap) && s.decided[id].Supersedes()
    requires id == s.decided[id].AssertionId() && id !in s.db.rows
    ensures var outbox := Exec(s, Apply(id, at), cap).db.outbox;
            OutboxFor(id) in outbox && outbox[OutboxFor(id)].attempts == 0
            && outbox[OutboxFor(id)].tenant == s.decided[id].fact.slot.tenant
  {
    assert EventKept(s.db, OutboxFor(id), cap);
  }

  /**
    Even a handover that abuts opens a gap: from the apply to its publication a
    reader finds neither fact at any instant from `at` on; the publication
    closes it, and from then on exactly one is found at every instant.
  */
  lemma GapOpensAndCloses(key: string, was: Fact, g: Governed, r: nat, at: int, now: int, cap: nat)
    requires Story(key, was, g, at, cap)
    ensures var before, id := Published(key, was, r, cap).db.rows, g.AssertionId();
            var open := Applied(key, was, g, r, at, cap);
            var closed := Run(open, Publication(r, OutboxFor(id), now), cap).db.rows;
            && Seeded(key) in before && {Seeded(key), id} <= open.db.rows.Keys && {Seeded(key), id} <= closed.Keys
            && (forall t :: was.validFrom <= t ==> before[Seeded(key)].ReadAt(t))
            && (forall t :: at <= t ==> !open.db.rows[Seeded(key)].ReadAt(t) && !open.db.rows[id].ReadAt(t))
            && Seamless(closed[Seeded(key)], closed[id])
  {
    var open, id := Applied(key, was, g, r, at, cap), g.AssertionId();
    var decided := Exec(Published(key, was, r, cap), Decide(g), cap);
    SeedIsPublished(key, was, r, cap);
    ApplyCommits(key, was, g, r, at, cap);
    StepKeepsDualWrite(decided, Apply(id, at), cap);
    assert RowAgrees(open.db, id);
    NewEventIsFresh(decided, id, at, cap);
    PendingCanBePublished(open, r, id, now, cap);
    var closed := Run(open, Publication(r, OutboxFor(id), now), cap).db.rows;
    HandoverIffAbutting(closed[Seeded(key)], closed[id]);
  }
}
