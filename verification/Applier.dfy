/**
  Carrying out a proposal's decisions one transaction at a time
  (`memory/applier.py`), and accounting for every admitted candidate
  (`governance.py`, `pipeline/orchestrator.py`).
*/
module Applier {
  import opened Prelude
  import opened Store

  /** How one apply meets the world: cleanly, or with Postgres lost on either side of the commit. */
  datatype Transport = Clean | LostBeforeCommit | LostAfterCommit

  datatype Attempt = Attempt(g: Governed, at: int, transport: Transport)

  /** The committed state and what the caller is told; an exception is `Err`. */
  function ApplyOne(db: Db, a: Attempt): (Db, Result<Applied, Fault>) {
    if a.transport == LostBeforeCommit then (db, Err(StoreUnavailable))
    else
      match ApplyTxn(db, a.g, a.at)
      case Err(fault) => (db, Err(fault))
      case Ok((after, done)) => (after, if a.transport == Clean then Ok(done) else Err(StoreUnavailable))
  }

  datatype Outcome = Outcome(db: Db, applied: map<string, Applied>, failures: seq<string>)

  function Record(o: Outcome, a: Attempt): Outcome {
    var (db, result) := ApplyOne(o.db, a);
    match result
    case Ok(done) => Outcome(db, o.applied[done.candidate := done], o.failures)
    case Err(_) => Outcome(db, o.applied, o.failures + [a.g.candidate])
  }

  function ApplyAll(o: Outcome, attempts: seq<Attempt>): Outcome
    decreases |attempts|
  {
    if attempts == [] then o else ApplyAll(Record(o, attempts[0]), attempts[1..])
  }

  class ProposalApplier {
    var db: Db

    constructor (db: Db)
      ensures this.db == db
    {
      this.db := db;
    }

    /**
      All or nothing, and told truly but for one case: a connection lost after
      the commit reports a failure for what was carried out.
    */
    method Apply(a: Attempt) returns (r: Result<Applied, Fault>)
      modifies this
      ensures var committed := ApplyTxn(old(db), a.g, a.at);
              db == if committed.Ok? && a.transport != LostBeforeCommit then committed.value.0 else old(db)
      ensures r.Ok? <==> a.transport == Clean && ApplyTxn(old(db), a.g, a.at).Ok?
      ensures r.Ok? ==>
                && r.value.candidate == a.g.candidate
                && r.value.assertion == (if a.g.Writes() then Some(a.g.AssertionId()) else None)
                && r.value.reason == Refusal(a.g) && (r.value.reason.None? <==> a.g.Writes())
      ensures r.Err? && a.transport != LostAfterCommit ==> db == old(db)
      ensures a.transport == LostAfterCommit ==> r.Err?
      ensures (db, r) == ApplyOne(old(db), a)
    {
      if a.transport == LostBeforeCommit {
        return Err(StoreUnavailable);
      }
      var committed := ApplyTxn(db, a.g, a.at);
      if committed.Err? {
        return Err(committed.error);
      }
      var (after, done) := committed.value;
      db := after;
      r := if a.transport == Clean then Ok(done) else Err(StoreUnavailable);
    }

    /** `apply_all`: a raised apply is attributed to its candidate and the loop goes on. */
    method Run(attempts: seq<Attempt>) returns (applied: map<string, Applied>, failures: seq<string>)
      modifies this
      ensures Outcome(db, applied, failures) == ApplyAll(Outcome(old(db), map[], []), attempts)
    {
      ghost var start := Outcome(db, map[], []);
      applied, failures := map[], [];
      for i := 0 to |attempts|
        invariant ApplyAll(start, attempts) == ApplyAll(Outcome(db, applied, failures), attempts[i..])
      {
        assert attempts[i..][0] == attempts[i] && attempts[i..][1..] == attempts[i + 1..];
        var r := Apply(attempts[i]);
        match r {
          case Ok(done) => applied := applied[done.candidate := done];
          case Err(_) => failures := failures + [attempts[i].g.candidate];
        }
      }
      assert attempts[|attempts|..] == [];
    }
  }

  /* ------------------------------------------------------------------ */
  /* Conservation                                                         */
  /* ------------------------------------------------------------------ */

  predicate DistinctIds(ids: seq<string>) {
    ids == [] || (ids[0] !in ids[1..] && DistinctIds(ids[1..]))
  }

  function Members(ids: seq<string>): set<string> { set id | id in ids }

  lemma MembersOfCons(id: string, rest: seq<string>)
    ensures Members([id] + rest) == {id} + Members(rest) && id in Members([id] + rest)
    ensures id !in rest <==> id !in Members(rest)
    ensures ([id] + rest)[1..] == rest
  {
  }

  function Candidates(attempts: seq<Attempt>): seq<string> {
    if attempts == [] then [] else [attempts[0].g.candidate] + Candidates(attempts[1..])
  }

  /** A row id or a reason, never both and never neither; and it is filed under its own candidate. */
  predicate WellFiled(applied: map<string, Applied>) {
    forall id :: id in applied ==>
      applied[id].candidate == id && (applied[id].assertion.Some? <==> applied[id].reason.None?)
  }

  /** `before` accounted for the ids in `seen`; each is in exactly one place, once. */
  ghost predicate Accounts(o: Outcome, seen: set<string>) {
    && WellFiled(o.applied)
    && o.applied.Keys + Members(o.failures) == seen && o.applied.Keys !! Members(o.failures)
    && DistinctIds(o.failures)
  }

  lemma RecordAccounts(o: Outcome, a: Attempt, seen: set<string>)
    requires Accounts(o, seen) && a.g.candidate !in seen
    ensures Accounts(Record(o, a), seen + {a.g.candidate})
  {
    var id, next := a.g.candidate, Record(o, a);
    if ApplyOne(o.db, a).1.Err? {
      assert DistinctIds([id]);
      assert Members([id]) == {id};
      JoinIds(o.failures, [id]);
    } else {
      assert next.applied.Keys == o.applied.Keys + {id};
    }
  }

  lemma {:induction false} ApplyAllAccounts(o: Outcome, attempts: seq<Attempt>, seen: set<string>)
    requires Accounts(o, seen) && DistinctIds(Candidates(attempts)) && Members(Candidates(attempts)) !! seen
    ensures Accounts(ApplyAll(o, attempts), seen + Members(Candidates(attempts)))
    decreases |attempts|
  {
    if attempts == [] {
      assert seen + {} == seen;
    } else {
      var id, rest := attempts[0].g.candidate, Candidates(attempts[1..]);
      MembersOfCons(id, rest);
      RecordAccounts(o, attempts[0], seen);
      ApplyAllAccounts(Record(o, attempts[0]), attempts[1..], seen + {id});
      assert seen + {id} + Members(rest) == seen + ({id} + Members(rest));
    }
  }

  /** What one scored candidate became before anything was applied. */
  datatype Scored = Scored(g: Governed) | ScoringFailed(candidate: string)
  {
    function Candidate(): string { if Scored? then g.candidate else candidate }
  }

  function GovernedOf(scored: seq<Scored>): seq<Governed> {
    if scored == [] then []
    else (if scored[0].Scored? then [scored[0].g] else []) + GovernedOf(scored[1..])
  }

  function FailedScoring(scored: seq<Scored>): seq<string> {
    if scored == [] then []
    else (if scored[0].ScoringFailed? then [scored[0].candidate] else []) + FailedScoring(scored[1..])
  }

  function ScoredIds(scored: seq<Scored>): seq<string> {
    if scored == [] then [] else [scored[0].Candidate()] + ScoredIds(scored[1..])
  }

  function GovernedIds(gs: seq<Governed>): seq<string> {
    if gs == [] then [] else [gs[0].candidate] + GovernedIds(gs[1..])
  }

  /** Splitting by outcome loses nobody and names nobody twice. */
  lemma {:induction false} SplitPartitions(scored: seq<Scored>)
    requires DistinctIds(ScoredIds(scored))
    ensures DistinctIds(GovernedIds(GovernedOf(scored))) && DistinctIds(FailedScoring(scored))
    ensures Members(GovernedIds(GovernedOf(scored))) !! Members(FailedScoring(scored))
    ensures Members(GovernedIds(GovernedOf(scored))) + Members(FailedScoring(scored)) == Members(ScoredIds(scored))
  {
    if scored != [] {
      var rest, id := scored[1..], scored[0].Candidate();
      var good, bad := GovernedOf(rest), FailedScoring(rest);
      MembersOfCons(id, ScoredIds(rest));
      SplitPartitions(rest);
      MembersOfCons(id, GovernedIds(good));
      MembersOfCons(id, bad);
      if scored[0].Scored? {
        assert GovernedOf(scored) == [scored[0].g] + good && ([scored[0].g] + good)[1..] == good;
        assert FailedScoring(scored) == [] + bad == bad;
      } else {
        assert GovernedOf(scored) == [] + good == good;
      }
    }
  }

  function Rows(applied: map<string, Applied>): set<string> {
    set id | id in applied && applied[id].assertion.Some?
  }

  function Reasons(applied: map<string, Applied>): set<string> {
    set id | id in applied && applied[id].reason.Some?
  }

  /** `Governed.written` */
  function WrittenCount(applied: map<string, Applied>): nat { |Rows(applied)| }

  lemma FiledSplits(applied: map<string, Applied>)
    requires WellFiled(applied)
    ensures Rows(applied) + Reasons(applied) == applied.Keys && Rows(applied) !! Reasons(applied)
  {
  }

  lemma {:induction false} JoinIds(a: seq<string>, b: seq<string>)
    requires DistinctIds(a) && DistinctIds(b) && Members(a) !! Members(b)
    ensures DistinctIds(a + b) && Members(a + b) == Members(a) + Members(b)
  {
    if a == [] {
      assert a + b == b;
    } else {
      assert a == [a[0]] + a[1..] && a + b == [a[0]] + (a[1..] + b);
      MembersOfCons(a[0], a[1..]);
      JoinIds(a[1..], b);
      MembersOfCons(a[0], a[1..] + b);
    }
  }

  /** Rows, reasons and failures are disjoint and together everyone admitted. */
  ghost predicate Partitioned(rows: set<string>, reasons: set<string>, failed: set<string>, admitted: set<string>) {
    rows + reasons + failed == admitted && rows !! reasons && (rows + reasons) !! failed
  }

  ghost predicate FullyAccounted(o: Outcome, failures: seq<string>, admitted: set<string>, count: nat) {
    && Partitioned(Rows(o.applied), Reasons(o.applied), Members(failures), admitted)
    && DistinctIds(failures)
    && WrittenCount(o.applied) + |Reasons(o.applied)| + |failures| == count
  }

  lemma NothingYet(db: Db)
    ensures Accounts(Outcome(db, map[], []), {})
  {
    assert Members([]) == {};
  }

  lemma FreshStartAccounts(db: Db, attempts: seq<Attempt>)
    requires DistinctIds(Candidates(attempts))
    ensures Accounts(ApplyAll(Outcome(db, map[], []), attempts), Members(Candidates(attempts)))
  {
    var ids := Members(Candidates(attempts));
    NothingYet(db);
    ApplyAllAccounts(Outcome(db, map[], []), attempts, {});
    NothingAdded(ids);
  }

  lemma NothingAdded(ids: set<string>)
    ensures {} + ids == ids && {} !! ids
  {
  }

  /**
    `govern`: with distinct admitted ids, whatever raised and wherever, every
    admitted candidate ends in exactly one of three places - a row, a reason,
    or a failure - and the three add up.
  */
  lemma EveryCandidateIsAccountedFor(db: Db, scored: seq<Scored>, attempts: seq<Attempt>)
    requires DistinctIds(ScoredIds(scored))
    requires Candidates(attempts) == GovernedIds(GovernedOf(scored))
    ensures var o := ApplyAll(Outcome(db, map[], []), attempts);
            FullyAccounted(o, FailedScoring(scored) + o.failures, Members(ScoredIds(scored)), |scored|)
  {
    SplitPartitions(scored);
    FreshStartAccounts(db, attempts);
    Tally(ApplyAll(Outcome(db, map[], []), attempts), scored);
  }

  lemma Tally(o: Outcome, scored: seq<Scored>)
    requires DistinctIds(ScoredIds(scored))
    requires Accounts(o, Members(GovernedIds(GovernedOf(scored))))
    ensures FullyAccounted(o, FailedScoring(scored) + o.failures, Members(ScoredIds(scored)), |scored|)
  {
    SplitPartitions(scored);
    ScoredCount(scored);
    CountMembers(ScoredIds(scored));
    AccountsAddUp(o, Members(GovernedIds(GovernedOf(scored))), FailedScoring(scored), Members(ScoredIds(scored)));
  }

  lemma AccountsAddUp(o: Outcome, governed: set<string>, unscored: seq<string>, admitted: set<string>)
    requires Accounts(o, governed) && DistinctIds(unscored)
    requires governed !! Members(unscored) && governed + Members(unscored) == admitted
    ensures FullyAccounted(o, unscored + o.failures, admitted, |admitted|)
  {
    FiledSplits(o.applied);
    Regroup(Rows(o.applied), Reasons(o.applied), o.applied.Keys, Members(o.failures), governed, Members(unscored),
            admitted);
    JoinIds(unscored, o.failures);
    CountMembers(unscored + o.failures);
    Sizes(Rows(o.applied), Reasons(o.applied), Members(unscored + o.failures), admitted);
  }

  lemma Regroup(rows: set<string>, reasons: set<string>, keys: set<string>, failed: set<string>,
      governed: set<string>, unscored: set<string>, admitted: set<string>)
    requires rows + reasons == keys && rows !! reasons
    requires keys + failed == governed && keys !! failed
    requires governed + unscored == admitted && governed !! unscored
    ensures unscored !! failed && Partitioned(rows, reasons, unscored + failed, admitted)
  {
  }

  lemma {:induction false} ScoredCount(scored: seq<Scored>)
    ensures |ScoredIds(scored)| == |scored|
  {
    if scored != [] { ScoredCount(scored[1..]); }
  }

  lemma Sizes(a: set<string>, b: set<string>, c: set<string>, whole: set<string>)
    requires Partitioned(a, b, c, whole)
    ensures |whole| == |a| + |b| + |c|
  {
    assert |a + b| == |a| + |b|;
  }

  lemma {:induction false} CountMembers(ids: seq<string>)
    requires DistinctIds(ids)
    ensures |Members(ids)| == |ids|
  {
    if ids != [] {
      assert ids == [ids[0]] + ids[1..];
      MembersOfCons(ids[0], ids[1..]);
      CountMembers(ids[1..]);
    }
  }

  /* ---- one candidate's failure is its own ------------------------------ */

  /** Whether the attempt, met at this point, commits. */
  predicate Commits(db: Db, a: Attempt) {
    a.transport != LostBeforeCommit && ApplyTxn(db, a.g, a.at).Ok?
  }

  function Committed(db: Db, attempts: seq<Attempt>): seq<Attempt>
    decreases |attempts|
  {
    if attempts == [] then []
    else
      (if Commits(db, attempts[0]) then [attempts[0]] else [])
      + Committed(ApplyOne(db, attempts[0]).0, attempts[1..])
  }

  /** Dropping every attempt that rolled back leaves the same store and the same answers. */
  lemma {:induction false} FailuresAreIsolated(o: Outcome, attempts: seq<Attempt>)
    ensures ApplyAll(o, Committed(o.db, attempts)).db == ApplyAll(o, attempts).db
    ensures ApplyAll(o, Committed(o.db, attempts)).applied == ApplyAll(o, attempts).applied
    decreases |attempts|
  {
    if attempts != [] {
      var a, rest := attempts[0], attempts[1..];
      var next := Record(o, a);
      FailuresAreIsolated(next, rest);
      if Commits(o.db, a) {
        assert Committed(o.db, attempts)[1..] == Committed(next.db, rest);
      } else {
        assert next.db == o.db && next.applied == o.applied;
        FailureListIsInert(o, next.failures, Committed(o.db, rest));
        assert Committed(o.db, attempts) == Committed(o.db, rest);
      }
    }
  }

  lemma {:induction false} FailureListIsInert(o: Outcome, failures: seq<string>, attempts: seq<Attempt>)
    ensures ApplyAll(o.(failures := failures), attempts).db == ApplyAll(o, attempts).db
    ensures ApplyAll(o.(failures := failures), attempts).applied == ApplyAll(o, attempts).applied
    decreases |attempts|
  {
    if attempts != [] {
      var next := Record(o, attempts[0]);
      var other := Record(o.(failures := failures), attempts[0]);
      assert other == next.(failures := other.failures);
      FailureListIsInert(next, other.failures, attempts[1..]);
    }
  }

  /* ---- the derived id --------------------------------------------------- */

  /** The name uuid5 is taken over. */
  function AssertionName(trace: string, candidate: string): string {
    "guardmem/assertion/" + trace + "/" + candidate
  }

  lemma NameSplits(trace: string, candidate: string)
    requires '/' !in candidate
    ensures var name := AssertionName(trace, candidate);
            var cut := |name| - |candidate| - 1;
            && cut >= 19 && name[cut] == '/' && (forall i :: cut < i < |name| ==> name[i] != '/')
            && name[cut + 1..] == candidate && name[19..cut] == trace
  {
    var name := AssertionName(trace, candidate);
    var cut := |name| - |candidate| - 1;
    assert name[cut + 1..] == candidate;
    assert forall i :: cut < i < |name| ==> name[i] == candidate[i - cut - 1];
  }

  /** Distinct pairs get distinct names as long as no candidate id carries a slash. */
  lemma NamesAreDistinct(trace: string, candidate: string, trace': string, candidate': string)
    requires '/' !in candidate && '/' !in candidate'
    requires AssertionName(trace, candidate) == AssertionName(trace', candidate')
    ensures trace == trace' && candidate == candidate'
  {
    NameSplits(trace, candidate);
    NameSplits(trace', candidate');
    var name := AssertionName(trace, candidate);
    var cut, cut' := |name| - |candidate| - 1, |name| - |candidate'| - 1;
    assert name[cut] == '/' && name[cut'] == '/';
    assert cut == cut';
  }

  /** No other trace and candidate share the name. */
  ghost predicate UniqueName(trace: string, candidate: string) {
    forall trace', candidate' :: AssertionName(trace', candidate') == AssertionName(trace, candidate)
      ==> trace' == trace && candidate' == candidate
  }

  function Joined(trace: string, candidate: string): string { trace + ("/" + candidate) }

  lemma SameName(trace: string, candidate: string, trace': string, candidate': string)
    ensures AssertionName(trace, candidate) == AssertionName(trace', candidate')
       <==> Joined(trace, candidate) == Joined(trace', candidate')
  {
    var prefix := "guardmem/assertion/";
    assert AssertionName(trace, candidate) == prefix + Joined(trace, candidate);
    assert AssertionName(trace', candidate') == prefix + Joined(trace', candidate');
    assert (prefix + Joined(trace, candidate))[|prefix|..] == Joined(trace, candidate);
    assert (prefix + Joined(trace', candidate'))[|prefix|..] == Joined(trace', candidate');
  }

  lemma OneSlash(trace: string, candidate: string, trace': string, candidate': string)
    requires '/' !in trace && '/' !in candidate && Joined(trace', candidate') == Joined(trace, candidate)
    ensures trace' == trace && candidate' == candidate
  {
    var joined := Joined(trace, candidate);
    assert joined[|trace'|] == '/' && joined[|trace|] == '/';
    assert forall i :: 0 <= i < |joined| && i != |trace| ==>
        joined[i] == if i < |trace| then trace[i] else candidate[i - |trace| - 1];
    assert joined[..|trace|] == trace && joined[..|trace'|] == trace';
    assert joined[|trace| + 1..] == candidate && joined[|trace'| + 1..] == candidate';
  }

  /** A slash in the candidate can move into the trace, and the other way. */
  lemma SlashMoves(a: string, b: string, c: string)
    ensures Joined(a, b + ("/" + c)) == Joined(a + ("/" + b), c)
  {
  }

  lemma CutAtSlash(s: string) returns (a: string, b: string)
    requires '/' in s
    ensures s == a + ("/" + b)
  {
    var i :| 0 <= i < |s| && s[i] == '/';
    a, b := s[..i], s[i + 1..];
  }

  /** A row's id is its own exactly when neither the trace nor the candidate id carries a slash. */
  lemma NameIsUniqueIff(trace: string, candidate: string)
    ensures UniqueName(trace, candidate) <==> '/' !in trace && '/' !in candidate
  {
    if '/' in candidate {
      var a, b := CutAtSlash(candidate);
      SlashMoves(trace, a, b);
      SameName(trace, candidate, trace + ("/" + a), b);
    } else if '/' in trace {
      var a, b := CutAtSlash(trace);
      SlashMoves(a, b, candidate);
      SameName(trace, candidate, a, b + ("/" + candidate));
    } else {
      forall trace', candidate' | AssertionName(trace', candidate') == AssertionName(trace, candidate)
        ensures trace' == trace && candidate' == candidate
      {
        SameName(trace', candidate', trace, candidate);
        OneSlash(trace, candidate, trace', candidate');
      }
    }
  }
}
