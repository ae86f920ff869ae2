/**
  Appending to the audit log under concurrency (`observability/audit_store.py`).
  A transaction belongs to one tenant, waits for that tenant's advisory lock,
  reads the head, inserts, and keeps the lock to its end. The sequence is shared
  by every tenant and never gives a number back. One step is one statement.
*/
module ChainLog {
  import opened Prelude
  import opened CanonicalJson
  import opened AuditChain

  type Session = nat

  /** A sequence number's row: rolled back, or one tenant's link, still private while `writer` is set. */
  datatype Slot = Gap | Filled(tenant: string, link: Link, writer: Option<Session>)

  datatype Txn = Txn(tenant: string, head: Option<Digest>)

  /** Slot `i` is the row with sequence number `i + 1`. */
  datatype Log = Log(rows: seq<Slot>, txns: map<Session, Txn>, locks: map<int, Session>)

  datatype Step =
    | Begin(s: Session, tenant: string)
    | Lock(s: Session)
    | ReadHead(s: Session)
    | Insert(s: Session, kind: Kind, payload: Fields)
    | Commit(s: Session)
    | Rollback(s: Session)

  /** `hashtext`: two tenants may share a lock. */
  type LockKey = string -> int

  const EMPTY := Log([], map[], map[])

  predicate Visible(slot: Slot, tenant: string, viewer: Option<Session>) {
    slot.Filled? && slot.tenant == tenant && (slot.writer.None? || slot.writer == viewer)
  }

  /** `ORDER BY seq DESC LIMIT 1`, read committed: committed rows and the reader's own. */
  function SelectHead(rows: seq<Slot>, tenant: string, viewer: Option<Session>): Option<Digest> {
    if rows == [] then None
    else
      var last := rows[|rows| - 1];
      if Visible(last, tenant, viewer) then Some(last.link.digest)
      else SelectHead(rows[..|rows| - 1], tenant, viewer)
  }

  /** `ORDER BY seq ASC` as one viewer sees it; `None` sees only what is committed. */
  function Chain(rows: seq<Slot>, tenant: string, viewer: Option<Session>): seq<Link> {
    if rows == [] then []
    else
      var last := rows[|rows| - 1];
      Chain(rows[..|rows| - 1], tenant, viewer) + (if Visible(last, tenant, viewer) then [last.link] else [])
  }

  function Publish(slot: Slot, s: Session): Slot {
    if slot.Filled? && slot.writer == Some(s) then slot.(writer := None) else slot
  }

  function Discard(slot: Slot, s: Session): Slot {
    if slot.Filled? && slot.writer == Some(s) then Gap else slot
  }

  function Settle(rows: seq<Slot>, s: Session, commit: bool): (r: seq<Slot>)
    ensures |r| == |rows|
  {
    seq(|rows|, i requires 0 <= i < |rows| => if commit then Publish(rows[i], s) else Discard(rows[i], s))
  }

  function End(log: Log, s: Session, commit: bool): Log {
    Log(Settle(log.rows, s, commit), log.txns - {s}, map k | k in log.locks && log.locks[k] != s :: log.locks[k])
  }

  predicate HasLock(log: Log, key: LockKey, s: Session) {
    s in log.txns && key(log.txns[s].tenant) in log.locks && log.locks[key(log.txns[s].tenant)] == s
  }

  /** A step that cannot run waits; what happens next is another step, or a timeout's rollback. */
  function Exec(hash: Hash, key: LockKey, log: Log, step: Step): Log {
    match step
    case Begin(s, tenant) => if s in log.txns then log else log.(txns := log.txns[s := Txn(tenant, None)])
    case Lock(s) =>
      if s !in log.txns || key(log.txns[s].tenant) in log.locks then log
      else log.(locks := log.locks[key(log.txns[s].tenant) := s])
    case ReadHead(s) =>
      if !HasLock(log, key, s) then log
      else
        var head := SelectHead(log.rows, log.txns[s].tenant, Some(s));
        var prev := if head.Some? then head.value else Genesis();
        log.(txns := log.txns[s := log.txns[s].(head := Some(prev))])
    case Insert(s, kind, payload) =>
      if s !in log.txns || log.txns[s].head.None? then log
      else
        (match NextLink(hash, kind, payload, log.txns[s].head.value)
         case Err(_) => End(log, s, false)
         case Ok(link) =>
           var row := Filled(log.txns[s].tenant, link.(sequence := Some(|log.rows| + 1)), Some(s));
           log.(rows := log.rows + [row], txns := log.txns[s := log.txns[s].(head := None)]))
    case Commit(s) => End(log, s, true)
    case Rollback(s) => End(log, s, false)
  }

  function Run(hash: Hash, key: LockKey, log: Log, steps: seq<Step>): Log
    decreases |steps|
  {
    if steps == [] then log else Run(hash, key, Exec(hash, key, log, steps[0]), steps[1..])
  }

  /* ---- what one viewer sees ------------------------------------------------- */

  lemma {:induction false} HeadIsLast(rows: seq<Slot>, tenant: string, viewer: Option<Session>)
    ensures var chain := Chain(rows, tenant, viewer);
            SelectHead(rows, tenant, viewer) == if chain == [] then None else Some(chain[|chain| - 1].digest)
  {
    if rows != [] { HeadIsLast(rows[..|rows| - 1], tenant, viewer); }
  }

  lemma ChainAppend(rows: seq<Slot>, slot: Slot, tenant: string, viewer: Option<Session>)
    ensures Chain(rows + [slot], tenant, viewer)
            == if Visible(slot, tenant, viewer) then Chain(rows, tenant, viewer) + [slot.link]
               else Chain(rows, tenant, viewer)
  {
    assert (rows + [slot])[..|rows|] == rows;
  }

  /** `s` has no private row in the tenant's chain. */
  predicate NoneBy(rows: seq<Slot>, tenant: string, s: Session) {
    forall i :: 0 <= i < |rows| && rows[i].Filled? && rows[i].tenant == tenant ==> rows[i].writer != Some(s)
  }

  /** Every private row in the tenant's chain is `s`'s. */
  predicate OnlyBy(rows: seq<Slot>, tenant: string, s: Session) {
    forall i :: 0 <= i < |rows| && rows[i].Filled? && rows[i].tenant == tenant && rows[i].writer.Some? ==>
      rows[i].writer == Some(s)
  }

  lemma SettleDropsLast(rows: seq<Slot>, s: Session, commit: bool)
    requires rows != []
    ensures var n := |rows| - 1;
            && Settle(rows, s, commit)[..n] == Settle(rows[..n], s, commit)
            && Settle(rows, s, commit)[n] == if commit then Publish(rows[n], s) else Discard(rows[n], s)
  {
  }

  lemma {:induction false} SettleElsewhere(
    rows: seq<Slot>, s: Session, commit: bool, tenant: string, viewer: Option<Session>)
    requires viewer != Some(s) && (commit ==> NoneBy(rows, tenant, s))
    ensures Chain(Settle(rows, s, commit), tenant, viewer) == Chain(rows, tenant, viewer)
  {
    if rows != [] {
      SettleDropsLast(rows, s, commit);
      SettleElsewhere(rows[..|rows| - 1], s, commit, tenant, viewer);
    }
  }

  lemma {:induction false} CommitPublishes(rows: seq<Slot>, s: Session, tenant: string, viewer: Option<Session>)
    requires OnlyBy(rows, tenant, s)
    ensures Chain(Settle(rows, s, true), tenant, viewer) == Chain(rows, tenant, Some(s))
  {
    if rows != [] {
      SettleDropsLast(rows, s, true);
      CommitPublishes(rows[..|rows| - 1], s, tenant, viewer);
    }
  }

  /** The links `s` has inserted and not yet committed, in order. */
  function Own(rows: seq<Slot>, tenant: string, s: Session): seq<Link> {
    if rows == [] then []
    else
      var last := rows[|rows| - 1];
      Own(rows[..|rows| - 1], tenant, s)
      + (if last.Filled? && last.tenant == tenant && last.writer == Some(s) then [last.link] else [])
  }

  lemma OwnAppend(rows: seq<Slot>, slot: Slot, tenant: string, s: Session)
    ensures Own(rows + [slot], tenant, s)
            == if slot.Filled? && slot.tenant == tenant && slot.writer == Some(s)
               then Own(rows, tenant, s) + [slot.link] else Own(rows, tenant, s)
  {
    assert (rows + [slot])[..|rows|] == rows;
  }

  lemma {:induction false} SettleKeepsOwn(rows: seq<Slot>, s: Session, commit: bool, tenant: string, x: Session)
    requires x != s
    ensures Own(Settle(rows, s, commit), tenant, x) == Own(rows, tenant, x)
  {
    if rows != [] {
      SettleDropsLast(rows, s, commit);
      SettleKeepsOwn(rows[..|rows| - 1], s, commit, tenant, x);
    }
  }

  lemma {:induction false} OnlySeesOwn(rows: seq<Slot>, tenant: string, s: Session)
    requires NoneBy(rows, tenant, s)
    ensures Chain(rows, tenant, Some(s)) == Chain(rows, tenant, None) && Own(rows, tenant, s) == []
  {
    if rows != [] { OnlySeesOwn(rows[..|rows| - 1], tenant, s); }
  }

  /* ---- the invariant -------------------------------------------------------- */

  /** A private row belongs to an open transaction of its tenant that holds the lock. */
  predicate RowOwned(log: Log, key: LockKey, i: int) {
    0 <= i < |log.rows| && log.rows[i].Filled? && log.rows[i].writer.Some? ==>
      var s := log.rows[i].writer.value;
      s in log.txns && log.txns[s].tenant == log.rows[i].tenant && HasLock(log, key, s)
  }

  ghost predicate Owned(log: Log, key: LockKey) {
    forall i {:trigger RowOwned(log, key, i)} :: RowOwned(log, key, i)
  }

  /** What a transaction sees of its own tenant adds up, and a head it has read is still the head. */
  predicate SessionSound(hash: Hash, log: Log, key: LockKey, s: Session) {
    s in log.txns ==>
      var seen := Chain(log.rows, log.txns[s].tenant, Some(s));
      && WellFormed(hash, seen)
      && (log.txns[s].head.Some? ==> HasLock(log, key, s) && log.txns[s].head.value == Head(seen))
  }

  ghost predicate Sessions(hash: Hash, log: Log, key: LockKey) {
    forall s {:trigger SessionSound(hash, log, key, s)} :: SessionSound(hash, log, key, s)
  }

  /** The lock holder's own rows come after everything committed to its chain. */
  predicate Trailing(log: Log, key: LockKey, s: Session) {
    HasLock(log, key, s) ==>
      var t := log.txns[s].tenant;
      Chain(log.rows, t, Some(s)) == Chain(log.rows, t, None) + Own(log.rows, t, s)
  }

  ghost predicate AllTrailing(log: Log, key: LockKey) {
    forall s {:trigger Trailing(log, key, s)} :: Trailing(log, key, s)
  }

  predicate TenantSound(hash: Hash, log: Log, tenant: string) {
    WellFormed(hash, Chain(log.rows, tenant, None))
  }

  ghost predicate Tenants(hash: Hash, log: Log) {
    forall t {:trigger TenantSound(hash, log, t)} :: TenantSound(hash, log, t)
  }

  ghost predicate Serialised(hash: Hash, key: LockKey, log: Log) {
    Owned(log, key) && Sessions(hash, log, key) && AllTrailing(log, key) && Tenants(hash, log)
  }

  lemma OwnedMeansOnly(log: Log, key: LockKey, s: Session, tenant: string)
    requires Owned(log, key)
    ensures if HasLock(log, key, s) && log.txns[s].tenant == tenant then OnlyBy(log.rows, tenant, s)
            else NoneBy(log.rows, tenant, s)
  {
    var rows := log.rows;
    if HasLock(log, key, s) && log.txns[s].tenant == tenant {
      forall i | 0 <= i < |rows| && rows[i].Filled? && rows[i].tenant == tenant && rows[i].writer.Some?
        ensures rows[i].writer == Some(s)
      {
        assert RowOwned(log, key, i);
      }
    } else {
      forall i | 0 <= i < |rows| && rows[i].Filled? && rows[i].tenant == tenant ensures rows[i].writer != Some(s) {
        assert RowOwned(log, key, i);
      }
    }
  }

  /* ---- each statement keeps it ----------------------------------------------- */

  lemma BeginKeeps(hash: Hash, key: LockKey, log: Log, s: Session, tenant: string)
    requires Serialised(hash, key, log)
    ensures Serialised(hash, key, Exec(hash, key, log, Begin(s, tenant)))
  {
    var after := Exec(hash, key, log, Begin(s, tenant));
    if s !in log.txns {
      OwnedMeansOnly(log, key, s, tenant);
      OnlySeesOwn(log.rows, tenant, s);
      assert TenantSound(hash, log, tenant);
      forall i ensures RowOwned(after, key, i) { assert RowOwned(log, key, i); }
      forall x ensures SessionSound(hash, after, key, x) { assert SessionSound(hash, log, key, x); }
      forall x ensures Trailing(after, key, x) { assert Trailing(log, key, x); }
      forall t ensures TenantSound(hash, after, t) { assert TenantSound(hash, log, t); }
    }
  }

  lemma LockKeeps(hash: Hash, key: LockKey, log: Log, s: Session)
    requires Serialised(hash, key, log)
    ensures Serialised(hash, key, Exec(hash, key, log, Lock(s)))
  {
    var after := Exec(hash, key, log, Lock(s));
    forall i ensures RowOwned(after, key, i) { assert RowOwned(log, key, i); }
    forall x ensures SessionSound(hash, after, key, x) { assert SessionSound(hash, log, key, x); }
    forall x ensures Trailing(after, key, x) {
      assert Trailing(log, key, x);
      if x in log.txns && !HasLock(log, key, x) {
        OwnedMeansOnly(log, key, x, log.txns[x].tenant);
        OnlySeesOwn(log.rows, log.txns[x].tenant, x);
      }
    }
    forall t ensures TenantSound(hash, after, t) { assert TenantSound(hash, log, t); }
  }

  lemma ReadHeadKeeps(hash: Hash, key: LockKey, log: Log, s: Session)
    requires Serialised(hash, key, log)
    ensures Serialised(hash, key, Exec(hash, key, log, ReadHead(s)))
  {
    var after := Exec(hash, key, log, ReadHead(s));
    if HasLock(log, key, s) {
      HeadIsLast(log.rows, log.txns[s].tenant, Some(s));
      forall i ensures RowOwned(after, key, i) { assert RowOwned(log, key, i); }
      forall x ensures SessionSound(hash, after, key, x) { assert SessionSound(hash, log, key, x); }
      forall x ensures Trailing(after, key, x) { assert Trailing(log, key, x); }
      forall t ensures TenantSound(hash, after, t) { assert TenantSound(hash, log, t); }
    }
  }

  lemma RowKeepsTrailing(rows: seq<Slot>, row: Slot, tenant: string, x: Session)
    requires Chain(rows, tenant, Some(x)) == Chain(rows, tenant, None) + Own(rows, tenant, x)
    requires row.Filled? && row.writer.Some? && (row.tenant == tenant ==> row.writer == Some(x))
    ensures Chain(rows + [row], tenant, Some(x)) == Chain(rows + [row], tenant, None) + Own(rows + [row], tenant, x)
  {
    ChainAppend(rows, row, tenant, Some(x));
    ChainAppend(rows, row, tenant, None);
    OwnAppend(rows, row, tenant, x);
  }

  lemma InsertKeeps(hash: Hash, key: LockKey, log: Log, s: Session, kind: Kind, payload: Fields)
    requires Serialised(hash, key, log)
    requires s in log.txns && log.txns[s].head.Some? && NextLink(hash, kind, payload, log.txns[s].head.value).Ok?
    ensures Serialised(hash, key, Exec(hash, key, log, Insert(s, kind, payload)))
  {
    var after := Exec(hash, key, log, Insert(s, kind, payload));
    var tenant, row := log.txns[s].tenant, after.rows[|log.rows|];
    assert SessionSound(hash, log, key, s);
    AppendExtends(hash, Chain(log.rows, tenant, Some(s)), row.link);
    forall i ensures RowOwned(after, key, i) { assert RowOwned(log, key, i); }
    forall x ensures SessionSound(hash, after, key, x) {
      assert SessionSound(hash, log, key, x);
      if x in log.txns { ChainAppend(log.rows, row, log.txns[x].tenant, Some(x)); }
    }
    forall x ensures Trailing(after, key, x) {
      assert Trailing(log, key, x);
      if HasLock(log, key, x) { RowKeepsTrailing(log.rows, row, log.txns[x].tenant, x); }
    }
    forall t ensures TenantSound(hash, after, t) {
      assert TenantSound(hash, log, t);
      ChainAppend(log.rows, row, t, None);
    }
  }

  lemma EndKeepsRows(key: LockKey, log: Log, s: Session, commit: bool)
    requires Owned(log, key)
    ensures Owned(End(log, s, commit), key)
  {
    var after := End(log, s, commit);
    forall i ensures RowOwned(after, key, i) { assert RowOwned(log, key, i); }
  }

  /** Ending a transaction changes no other viewer's chain, except to publish its rows to its own tenant. */
  lemma EndShows(key: LockKey, log: Log, s: Session, commit: bool, tenant: string, viewer: Option<Session>)
    requires Owned(log, key) && viewer != Some(s)
    ensures var after := End(log, s, commit).rows;
            if commit && HasLock(log, key, s) && log.txns[s].tenant == tenant
            then Chain(after, tenant, viewer) == Chain(log.rows, tenant, Some(s))
            else Chain(after, tenant, viewer) == Chain(log.rows, tenant, viewer)
  {
    OwnedMeansOnly(log, key, s, tenant);
    if commit && HasLock(log, key, s) && log.txns[s].tenant == tenant {
      CommitPublishes(log.rows, s, tenant, viewer);
    } else {
      SettleElsewhere(log.rows, s, commit, tenant, viewer);
    }
  }

  lemma EndKeeps(hash: Hash, key: LockKey, log: Log, s: Session, commit: bool)
    requires Serialised(hash, key, log)
    ensures Serialised(hash, key, End(log, s, commit))
  {
    var after := End(log, s, commit);
    EndKeepsRows(key, log, s, commit);
    assert SessionSound(hash, log, key, s);
    forall x ensures SessionSound(hash, after, key, x) {
      assert SessionSound(hash, log, key, x);
      if x in after.txns { EndShows(key, log, s, commit, log.txns[x].tenant, Some(x)); }
    }
    forall x ensures Trailing(after, key, x) {
      assert Trailing(log, key, x);
      if HasLock(after, key, x) {
        EndShows(key, log, s, commit, log.txns[x].tenant, Some(x));
        EndShows(key, log, s, commit, log.txns[x].tenant, None);
        SettleKeepsOwn(log.rows, s, commit, log.txns[x].tenant, x);
      }
    }
    forall t ensures TenantSound(hash, after, t) {
      assert TenantSound(hash, log, t);
      EndShows(key, log, s, commit, t, None);
    }
  }

  lemma StepKeepsSerialised(hash: Hash, key: LockKey, log: Log, step: Step)
    requires Serialised(hash, key, log)
    ensures Serialised(hash, key, Exec(hash, key, log, step))
  {
    match step
    case Begin(s, tenant) => BeginKeeps(hash, key, log, s, tenant);
    case Lock(s) => LockKeeps(hash, key, log, s);
    case ReadHead(s) => ReadHeadKeeps(hash, key, log, s);
    case Insert(s, kind, payload) =>
      if s in log.txns && log.txns[s].head.Some? {
        if NextLink(hash, kind, payload, log.txns[s].head.value).Ok? {
          InsertKeeps(hash, key, log, s, kind, payload);
        } else {
          EndKeeps(hash, key, log, s, false);
        }
      }
    case Commit(s) => EndKeeps(hash, key, log, s, true);
    case Rollback(s) => EndKeeps(hash, key, log, s, false);
  }

  lemma {:induction false} SerialisedOverRuns(hash: Hash, key: LockKey, log: Log, steps: seq<Step>)
    requires Serialised(hash, key, log)
    ensures Serialised(hash, key, Run(hash, key, log, steps))
    decreases |steps|
  {
    if steps != [] {
      StepKeepsSerialised(hash, key, log, steps[0]);
      SerialisedOverRuns(hash, key, Exec(hash, key, log, steps[0]), steps[1..]);
    }
  }

  /**
    However transactions of however many tenants interleave, commit, roll back
    and time out, every tenant's committed rows in `seq` order verify.
  */
  lemma EveryTenantVerifies(hash: Hash, key: LockKey, steps: seq<Step>, tenant: string)
    ensures WellFormed(hash, Chain(Run(hash, key, EMPTY, steps).rows, tenant, None))
  {
    SerialisedOverRuns(hash, key, EMPTY, steps);
    assert TenantSound(hash, Run(hash, key, EMPTY, steps), tenant);
  }

  lemma EndAppendsOwnTo(hash: Hash, key: LockKey, log: Log, s: Session, commit: bool, tenant: string)
    requires Serialised(hash, key, log)
    ensures Chain(End(log, s, commit).rows, tenant, None)
            == if commit && HasLock(log, key, s) && log.txns[s].tenant == tenant
               then Chain(log.rows, tenant, None) + Own(log.rows, tenant, s)
               else Chain(log.rows, tenant, None)
  {
    EndShows(key, log, s, commit, tenant, None);
    assert Trailing(log, key, s);
  }

  /**
    What ending a transaction does to each committed chain: a commit by the lock
    holder appends exactly its own links, contiguously and in order; a rollback,
    or anyone else's commit, changes nothing.
  */
  lemma EndAppendsOwn(hash: Hash, key: LockKey, steps: seq<Step>, s: Session, commit: bool, tenant: string)
    ensures var log := Run(hash, key, EMPTY, steps);
            Chain(End(log, s, commit).rows, tenant, None)
            == if commit && HasLock(log, key, s) && log.txns[s].tenant == tenant
               then Chain(log.rows, tenant, None) + Own(log.rows, tenant, s)
               else Chain(log.rows, tenant, None)
  {
    SerialisedOverRuns(hash, key, EMPTY, steps);
    EndAppendsOwnTo(hash, key, Run(hash, key, EMPTY, steps), s, commit, tenant);
  }

  /** Nothing but a commit changes what is committed. */
  lemma OnlyCommitsShow(hash: Hash, key: LockKey, log: Log, step: Step, tenant: string)
    requires Serialised(hash, key, log) && !step.Commit?
    ensures Chain(Exec(hash, key, log, step).rows, tenant, None) == Chain(log.rows, tenant, None)
  {
    match step
    case Insert(s, kind, payload) =>
      if s in log.txns && log.txns[s].head.Some? {
        var made := NextLink(hash, kind, payload, log.txns[s].head.value);
        if made.Ok? {
          var row := Exec(hash, key, log, step).rows[|log.rows|];
          ChainAppend(log.rows, row, tenant, None);
        } else {
          EndAppendsOwnTo(hash, key, log, s, false, tenant);
        }
      }
    case Rollback(s) => EndAppendsOwnTo(hash, key, log, s, false, tenant);
    case _ =>
  }

  /** Without the lock, two transactions read one head and both insert: the second row is the break. */
  lemma ForkBreaks(hash: Hash, chain: seq<Link>, first: Link, second: Link)
    requires WellFormed(hash, chain)
    requires first.prev == Head(chain) && second.prev == Head(chain)
    requires DigestFor(hash, first.payload, first.prev) == Ok(first.digest) && first.digest != Head(chain)
    ensures FirstBad(hash, chain + [first, second], |chain| + 1)
  {
    var forked := chain + [first, second];
    AppendExtends(hash, chain, first);
    assert forked[..|chain| + 1] == chain + [first];
  }

  /* ---- one caller's append ------------------------------------------------------ */

  /**
    `append`, in the caller's open transaction: lock, read the head, insert.
    `Err` carries the refusal, or `None` for a lock not had in time; both roll back.
  */
  function AppendTo(hash: Hash, key: LockKey, log: Log, s: Session, kind: Kind, payload: Fields)
    : (Log, Result<Link, Option<Refusal>>)
    requires s in log.txns
  {
    var locked := Exec(hash, key, log, Lock(s));
    if !HasLock(locked, key, s) then (Exec(hash, key, locked, Rollback(s)), Err(None))
    else
      var read := Exec(hash, key, locked, ReadHead(s));
      var after := Exec(hash, key, read, Insert(s, kind, payload));
      match NextLink(hash, kind, payload, read.txns[s].head.value)
      case Err(refusal) => (after, Err(Some(refusal)))
      case Ok(link) => (after, Ok(link.(sequence := Some(|log.rows| + 1))))
  }

  lemma ReadSeesHead(hash: Hash, key: LockKey, log: Log, s: Session)
    requires HasLock(log, key, s)
    ensures var read := Exec(hash, key, log, ReadHead(s));
            && read.rows == log.rows && read.locks == log.locks && HasLock(read, key, s)
            && read.txns[s] == Txn(log.txns[s].tenant, Some(Head(Chain(log.rows, log.txns[s].tenant, Some(s)))))
  {
    HeadIsLast(log.rows, log.txns[s].tenant, Some(s));
  }

  lemma InsertAddsRow(hash: Hash, key: LockKey, log: Log, s: Session, kind: Kind, payload: Fields)
    requires s in log.txns && log.txns[s].head.Some? && NextLink(hash, kind, payload, log.txns[s].head.value).Ok?
    ensures var after := Exec(hash, key, log, Insert(s, kind, payload));
            var link := NextLink(hash, kind, payload, log.txns[s].head.value).value.(sequence := Some(|log.rows| + 1));
            && after.rows == log.rows + [Filled(log.txns[s].tenant, link, Some(s))] && after.locks == log.locks
            && s in after.txns && after.txns[s].tenant == log.txns[s].tenant
  {
  }

  lemma InsertExtendsChain(hash: Hash, key: LockKey, log: Log, s: Session, kind: Kind, payload: Fields)
    requires HasLock(log, key, s) && log.txns[s].head.Some? && NextLink(hash, kind, payload, log.txns[s].head.value).Ok?
    ensures var after, tenant := Exec(hash, key, log, Insert(s, kind, payload)), log.txns[s].tenant;
            var link := NextLink(hash, kind, payload, log.txns[s].head.value).value.(sequence := Some(|log.rows| + 1));
            && Chain(after.rows, tenant, Some(s)) == Chain(log.rows, tenant, Some(s)) + [link]
            && HasLock(after, key, s)
  {
    var link := NextLink(hash, kind, payload, log.txns[s].head.value).value.(sequence := Some(|log.rows| + 1));
    InsertAddsRow(hash, key, log, s, kind, payload);
    ChainAppend(log.rows, Filled(log.txns[s].tenant, link, Some(s)), log.txns[s].tenant, Some(s));
  }

  /** The link an append returns was chained to the head the transaction could see, and is now that head. */
  lemma AppendIsTheNewHead(hash: Hash, key: LockKey, log: Log, s: Session, kind: Kind, payload: Fields)
    requires s in log.txns && AppendTo(hash, key, log, s, kind, payload).1.Ok?
    ensures var (after, r) := AppendTo(hash, key, log, s, kind, payload);
            var tenant := log.txns[s].tenant;
            var seen := Chain(log.rows, tenant, Some(s));
            && Chain(after.rows, tenant, Some(s)) == seen + [r.value]
            && r.value.prev == Head(seen) && r.value.payload == payload && r.value.kind == kind
            && DigestFor(hash, payload, r.value.prev) == Ok(r.value.digest)
            && HasLock(after, key, s)
  {
    var locked := Exec(hash, key, log, Lock(s));
    ReadSeesHead(hash, key, locked, s);
    var read := Exec(hash, key, locked, ReadHead(s));
    InsertExtendsChain(hash, key, read, s, kind, payload);
  }

  /** A refused or timed-out append leaves every committed chain as it was, and the transaction gone. */
  lemma FailedAppendLeavesChains(
    hash: Hash, key: LockKey, log: Log, s: Session, kind: Kind, payload: Fields, tenant: string)
    requires Serialised(hash, key, log) && s in log.txns && AppendTo(hash, key, log, s, kind, payload).1.Err?
    ensures var after := AppendTo(hash, key, log, s, kind, payload).0;
            Chain(after.rows, tenant, None) == Chain(log.rows, tenant, None) && s !in after.txns
    ensures AppendTo(hash, key, log, s, kind, payload).1.error.Some?
            ==> Canonical(payload) == Err(AppendTo(hash, key, log, s, kind, payload).1.error.value)
  {
    SettleElsewhere(log.rows, s, false, tenant, None);
  }

  class AuditStore {
    const hash: Hash
    const key: LockKey
    var log: Log

    constructor (hash: Hash, key: LockKey)
      ensures this.hash == hash && this.key == key && log == EMPTY
    {
      this.hash := hash;
      this.key := key;
      log := EMPTY;
    }

    method Append(s: Session, kind: Kind, payload: Fields) returns (r: Result<Link, Option<Refusal>>)
      requires s in log.txns
      modifies this`log
      ensures (log, r) == AppendTo(hash, key, old(log), s, kind, payload)
    {
      var start := log;
      log := Exec(hash, key, log, Lock(s));
      if !HasLock(log, key, s) {
        log := Exec(hash, key, log, Rollback(s));
        return Err(None);
      }
      log := Exec(hash, key, log, ReadHead(s));
      var made := NextLink(hash, kind, payload, log.txns[s].head.value);
      log := Exec(hash, key, log, Insert(s, kind, payload));
      match made {
        case Err(refusal) => r := Err(Some(refusal));
        case Ok(link) => r := Ok(link.(sequence := Some(|start.rows| + 1)));
      }
    }
  }
}
