# GuardMem: what the durable state promises

GuardMem decides whether a proposed fact is written to memory and then makes
it durable in a way that survives crashes: an applier writes an invisible row
with its citations, its audit events and an outbox event in one transaction;
relays later write the graph and reveal the row. This project models that
protocol and the algorithms beside it, and proves what callers rely on.

| module | of the program |
|---|---|
| `Store` | the tables, and each transaction over them as one function |
| `Protocol` | the step relation: seeding, deciding, applying, any number of relays, graph failures, crashes |
| `History` | supersession history, one live row per slot, rebuilding the store from its audit trail |
| `Handover` | what readers see while one row takes over from another |
| `Relay` | one relay pass and the drain loop over a mutable world |
| `Refinement` | that a pass, and a drain, is a run of the protocol |
| `Router`, `Applier` | the batch write, `apply`, `apply_all`, and where every candidate ends |
| `JsonText`, `CanonicalJson`, `CanonicalForm` | the text a digest is taken over, its parser, and what it decides |
| `AuditChain`, `ChainLog` | the hash chain, and appending to it concurrently |
| `AuditedStore` | the tables and the audit log as one system, and rebuilding a tenant from its chain |
| `Auroc` | tie-corrected rank AUROC against a count of pairs |
| `TokenBucket` | the rate limiter's script, its expiry and its refusals |
| `PromptText`, `PromptLoader`, `PromptTemplate` | prompt frontmatter and substitution |
| `Utf8`, `ResourceUris` | `guardmem://` URIs |
| `Entailment`, `MeaningClusters`, `SemanticEntropy` | the batched entailment lookup, the clustering that uses it, and its entropy |

How the model is set up:

- A transaction is atomic: a function from database to database, or an error
  that leaves it alone. A step of `Protocol` is one transaction, one graph call
  or one crash, and a run is any list of steps; a step that cannot happen
  changes nothing, so theorems about runs quantify over all lists.
- Ids derived with uuid5 are free terms over what they are derived from. The
  graph is durable; an edge agrees with its row on the columns no statement
  updates, because a slow relay may store a stale `valid_to`.
- A retried apply presents the decision it presented before, taken against an
  incumbent that existed then. A retried plain write leaves rows alone and
  appends its DECISION and WRITE events again; a retried supersession rolls back.
- The hash is any function to thirty-two bytes. A theorem that needs it not to
  collide names the colliding inputs; none assumes it is injective.
- Clocks, the graph's failures, which of equally old events a claim takes, what
  Redis drops and when, and the model's replies are parameters.
- Scores, tokens and times are exact reals. The logarithm is any function that
  turns products into sums and lies below its tangent at one.

Where the code and its own documentation differ, the model follows the code,
and the difference is a theorem:

- `queries.py` and `pgvector_store.py` promise a handover with no gap and no
  overlap, on the ground that the two validity intervals abut. Three things
  stand in the way. The applier retires at its own clock, not at the successor's
  `valid_from`: `Handover.ApplierHandoverIff` gives the exact conditions for
  exactly one row found, for an overlap and for a gap. Every read also asks for
  `visible`, and the successor is inserted invisible:
  `Handover.NothingFoundWhilePending` shows that from the apply until the
  successor is published neither row is found at or after the handover, and
  `Handover.GapOpensAndCloses` follows one such handover from start to finish,
  even though its intervals abut. `Handover.HandoverIffAbutting` is the exact
  condition on any two rows, visibility included.
- Two payloads that differ only in how a surrogate pair is spelled share a
  canonical form: `CanonicalForm.PairedStringsCollide`, with the exact
  condition in `CanonicalForm.CanonicalFormReadsBack`.
- A prompt body is described as the text below the fence; line breaks other
  than a line feed come back as line feeds: `PromptLoader.BodyKeptIff`.
- A chain with its tail cut off verifies; every other loss or reordering of
  whole links is caught: `AuditChain.OnlyPrefixesVerify`.
- A relay built with a batch of zero drains nothing:
  `Relay.ZeroBatchDrainsNothing`.

## Model

| member | source | states |
|---|---|---|
| Protocol.StepKeepsDualWrite | packages/guardmem-core/src/guardmem_core/memory/relay.py:147-285 | every transaction, graph call and crash keeps the whole invariant: sourced rows, one event per row, visible iff dispatched, visible only with its edge, relays holding only real events; and takes nothing published back |
| Protocol.DualWriteOverRuns | packages/guardmem-core/src/guardmem_core/memory/outbox.py:9-21 | the same over any interleaving of applies, relays, failures and crashes; `visible` never falls, `dispatched_at` is written once, a retirement is never rewritten |
| Protocol.PublishedMeansComplete | infra/migrations/alembic/versions/0001_initial.py:304-321 | from an empty database: every row has a citation and an event; a visible one has its edge and a dispatched event; an invisible one still has a pending event within the attempt cap |
| Protocol.MismatchIsNeverPublished | packages/guardmem-core/src/guardmem_core/memory/relay.py:235-264 | an event whose tenant is not its row's is never dispatched, through any run |
| Protocol.ApplyTxnSound | packages/guardmem-core/src/guardmem_core/memory/applier.py:146-188 | one committed apply keeps the tables' invariants, loses nothing, and makes nothing visible |
| Protocol.WriteInSound | packages/guardmem-core/src/guardmem_core/memory/vector/pgvector_store.py:186-204 | row, citation and event land together, and a repeat overwrites nothing |
| Protocol.SupersedeInSound | packages/guardmem-core/src/guardmem_core/memory/vector/pgvector_store.py:342-367 | retiring a live incumbent keeps the tables' invariants and touches no settled history |
| Protocol.ClaimTxnSound | packages/guardmem-core/src/guardmem_core/memory/outbox.py:173-184 | a claim of claimable rows keeps `attempts` within the cap and changes nothing readers see |
| Protocol.CompleteTxnSound | packages/guardmem-core/src/guardmem_core/memory/relay.py:266-285 | revealing the row and closing the event, once the edge is stored, keep the invariant even when another relay got there first |
| History.LineageOverRuns | packages/guardmem-core/src/guardmem_core/memory/applier.py:163-188 | over every run: a row is retired exactly when it has a successor, by the decision made against it, which is younger |
| History.TrailReachesLive | packages/guardmem-core/src/guardmem_core/memory/applier.py:130-133 | following `superseded_by` from any row reaches a live row, each hop a recorded supersession, no row met twice |
| History.SuccessorsAreDistinct | packages/guardmem-core/src/guardmem_core/memory/applier.py:266-281 | no two rows share a successor, whatever applies raced |
| History.ReplayedSupersedeRollsBack | packages/guardmem-core/src/guardmem_core/memory/vector/pgvector_store.py:359-367 | a supersession that already committed raises a conflict when applied again |
| History.OneLiveRowOverRuns | packages/guardmem-core/src/guardmem_core/memory/applier.py:130-133 | a slot whose later writes each supersede a row of that slot keeps exactly one live row, races and replays included |
| History.OneReadableRowOverRuns | packages/guardmem-core/src/guardmem_core/memory/vector/queries.py:73-79 | a live read of such a slot finds at most one row, and finds the live one exactly when its event is dispatched |
| History.AuditRebuildsStore | packages/guardmem-core/src/guardmem_core/memory/applier.py:146-188 | live rows are the seeded ids and the WRITE ids less the SUPERSEDE ids; SUPERSEDE events are exactly the rows' successors, one per retired row |
| History.EventsStayInPlace | packages/guardmem-core/src/guardmem_core/memory/applier.py:141-187 | over every run a WRITE is recorded straight after its own DECISION and a SUPERSEDE straight after its own WRITE |
| Handover.HandoverIffAbutting | packages/guardmem-core/src/guardmem_core/memory/vector/queries.py:73-122 | readers find exactly one of a retired row and its live successor at every instant iff the successor is visible and, if the first is too, the retirement meets the successor's start or left the first no time |
| Handover.ApplierHandoverIff | packages/guardmem-core/src/guardmem_core/memory/applier.py:146-187 | after a superseding apply at `at` and any run that makes both rows visible: exactly one is found throughout iff `at` met the successor's start or both came no later than the incumbent's; both are found somewhere iff `at` is after both starts; neither somewhere iff `at` is before the successor's |
| Handover.NothingFoundWhilePending | packages/guardmem-core/src/guardmem_core/memory/vector/pgvector_store.py:342-367 | from a superseding apply on, whatever else runs, as long as the successor's event is pending no read at or after the handover finds either row, and one before it finds the incumbent as before |
| Handover.GapOpensAndCloses | packages/guardmem-core/src/guardmem_core/memory/applier.py:146-188 | a published fact, superseded exactly where its successor starts: found before, nothing found from there on after the apply, exactly one found everywhere once four relay steps publish it |
| Relay.OutboxRelay.Claim | packages/guardmem-core/src/guardmem_core/memory/relay.py:175-203 | what is claimed is as many claimable events as fit, none younger than one left behind, each with its attempt recorded, nothing else changed |
| Relay.OutboxRelay.TakeOldest | packages/guardmem-core/src/guardmem_core/memory/outbox.py:173-184 | the selection: distinct claimable events, oldest first up to the limit, as stored |
| Relay.OutboxRelay.DispatchClaimed | packages/guardmem-core/src/guardmem_core/memory/relay.py:166-171 | the loop dispatches each event once, in turn, and counts those that finished |
| Relay.OutboxRelay.RunOnce | packages/guardmem-core/src/guardmem_core/memory/relay.py:147-171 | one pass is one claim followed by its dispatches |
| Relay.OutboxRelay.Drain | scripts/seed_demo_tenant.py:241-273 | the drain terminates, is a list of non-empty passes, stops at one that claims nothing, and returns their total |
| Relay.DispatchSound | packages/guardmem-core/src/guardmem_core/memory/relay.py:205-233 | an event finishes iff its tenant can load it and the graph call succeeds; otherwise the database is untouched; invariants hold either way |
| Relay.PassSound | packages/guardmem-core/src/guardmem_core/memory/relay.py:147-171 | a pass moves `attempts` by one on what it claimed and nowhere else, and counts exactly the events it closed; with the graph up and tenants matching it closes all it claimed |
| Relay.PassSpends | scripts/seed_demo_tenant.py:268-273 | every non-empty pass lowers the sum of attempts left over claimable rows |
| Relay.PassesRelease | scripts/seed_demo_tenant.py:268-273 | over any list of passes the total is the number of newly dispatched rows |
| Relay.PassesCountClaims | packages/guardmem-core/src/guardmem_core/memory/outbox.py:155-184 | `attempts` grows by the number of passes that claimed the row, and never passes the cap |
| Relay.DrainComplete | scripts/seed_demo_tenant.py:241-273 | when the drain stops every row is dispatched or exhausted; with the graph up and tenants matching nothing that was claimable is left pending |
| Refinement.PassIsARun | packages/guardmem-core/src/guardmem_core/memory/relay.py:147-285 | for any claim and any graph, `run_once` leaves tables and graph exactly as a run of one relay's protocol steps does |
| Refinement.DrainIsARun | scripts/seed_demo_tenant.py:268-273 | and so does the whole drain |
| Refinement.PendingCanBePublished | packages/guardmem-core/src/guardmem_core/memory/outbox.py:9-14 | from any reachable state an invisible row with attempts left is four undisturbed steps from visible, with its edge stored and its event closed |
| Refinement.SeededFactIsPublished | packages/guardmem-core/src/guardmem_core/memory/relay.py:147-285 | a fact written to an empty database comes to be read, live and as written |
| Refinement.BrokenPassLosesNothing | packages/guardmem-core/src/guardmem_core/memory/relay.py:147-171 | a pass that stops after any number of its statements, as when Postgres goes away, keeps the dual-write invariant, leaves the relay idle, takes nothing back, and costs a claimed event at most the one attempt its claim recorded |
| Relay.ZeroBatchDrainsNothing | packages/guardmem-core/src/guardmem_core/memory/relay.py:113-145 | a batch of zero claims nothing and changes nothing |
| Router.StoreRouter.WriteBatch | packages/guardmem-core/src/guardmem_core/memory/router.py:111-134 | foreign tenants are refused first, then presumed visibility, and a refused batch writes nothing |
| Router.RefusedIffForeignOrVisible | packages/guardmem-core/src/guardmem_core/memory/router.py:138-184 | a batch is written iff every draft is the router's tenant's and none arrives visible |
| Router.UpsertSound | packages/guardmem-core/src/guardmem_core/memory/vector/pgvector_store.py:112-150 | a batch keeps every invariant of the dual write and publishes nothing |
| Router.ReplayIsInert | packages/guardmem-core/src/guardmem_core/memory/vector/pgvector_store.py:128-134 | a batch written to a store that keeps the dual write, then written again after any run of the protocol, changes nothing at all: no row resurrected, no citation or event doubled |
| Router.PutIsWriteIn | packages/guardmem-core/src/guardmem_core/memory/vector/pgvector_store.py:136-137 | the batch path, for a draft with any citations, is the applier's path once per citation, in any order |
| Applier.ProposalApplier.Apply | packages/guardmem-core/src/guardmem_core/memory/applier.py:103-188 | either the whole transaction commits or the database is left alone; it answers iff the transaction committed and the connection held, and then with the candidate's id and an assertion iff the decision writes; a connection lost after the commit reports a failure for a committed apply |
| Applier.ProposalApplier.Run | packages/guardmem-core/src/guardmem_core/memory/applier.py:225-241 | the loop goes on past a raised apply and attributes it to its candidate |
| Applier.EveryCandidateIsAccountedFor | packages/guardmem-core/src/guardmem_core/governance.py:185-196 | with distinct ids every admitted candidate ends in exactly one of a row, a reason or a failure, whatever raised; the three counts add up, rows being `written` |
| Applier.SplitPartitions | packages/guardmem-core/src/guardmem_core/pipeline/orchestrator.py:194-210 | splitting scored outcomes by type loses nobody and names nobody twice |
| Applier.ApplyAllAccounts | packages/guardmem-core/src/guardmem_core/memory/applier.py:225-241 | `applied` and `failures` are disjoint and together are the candidates attempted, each filed under its own id with a row or a reason |
| Applier.FailuresAreIsolated | packages/guardmem-core/src/guardmem_core/memory/applier.py:215-218 | dropping every attempt that rolled back leaves the same store and the same answers for the rest |
| Applier.NamesAreDistinct | packages/guardmem-core/src/guardmem_core/memory/applier.py:266-281 | the name an assertion id is derived from fixes trace and candidate as long as candidate ids carry no slash |
| Applier.NameIsUniqueIff | packages/guardmem-core/src/guardmem_core/memory/applier.py:266-281 | that name belongs to one trace and candidate alone iff neither carries a slash |
| JsonText.ReadEscape | packages/guardmem-core/src/guardmem_core/observability/audit.py:121-135 | every code unit is read back from the escape it is written as |
| JsonText.FuseUnits | packages/guardmem-core/src/guardmem_core/observability/audit.py:121-135 | reading the written units of a text gives the text with adjacent surrogate pairs joined |
| JsonText.FuseIsIdentityIff | packages/guardmem-core/src/guardmem_core/observability/audit.py:121-135 | joining changes a text exactly when it holds a high surrogate followed by a low one |
| JsonText.IntRoundTrip | packages/guardmem-core/src/guardmem_core/observability/audit.py:121-135 | every integer is read back from its decimal spelling, which is never a float's |
| CanonicalJson.ReadPrinted | packages/guardmem-core/src/guardmem_core/observability/audit.py:128-135 | the parser undoes the printer on every writable value, whatever text follows |
| CanonicalForm.CanonicalFormReadsBack | packages/guardmem-core/src/guardmem_core/observability/audit.py:95-135 | the parser returns every accepted payload sorted and with pairs joined, and the sorted payload itself iff no string or key holds an adjacent surrogate pair |
| CanonicalForm.NormalDecides | packages/guardmem-core/src/guardmem_core/observability/audit.py:111-115 | two values are equal, as Python compares dicts and lists, iff sorting keys at every depth makes them identical |
| CanonicalForm.NormalAscends | packages/guardmem-core/src/guardmem_core/observability/audit.py:113-131 | the keys of an accepted dict are written in strictly ascending code point order |
| CanonicalForm.SameFormIff | packages/guardmem-core/src/guardmem_core/observability/audit.py:95-135 | two accepted payloads share a canonical form iff they sort and fuse to one value |
| CanonicalForm.FormIgnoresKeyOrderOnly | packages/guardmem-core/src/guardmem_core/observability/audit.py:111-120 | a payload equal to an accepted one is accepted with the same form; without adjacent pairs, one form means equal payloads |
| CanonicalForm.PairedStringsCollide | packages/guardmem-core/src/guardmem_core/observability/audit.py:128-135 | a pair of surrogates and the character they spell: different strings, one form |
| CanonicalForm.CanonicalIsAscii | packages/guardmem-core/src/guardmem_core/observability/audit.py:118-120 | the canonical form is printable ASCII |
| CanonicalForm.AcceptedIffClean | packages/guardmem-core/src/guardmem_core/observability/audit.py:255-286 | a value is accepted iff nothing in it, at any depth, is a foreign object, a non-string key or a non-finite float |
| CanonicalForm.RejectNamesOffender | packages/guardmem-core/src/guardmem_core/observability/audit.py:255-286 | the path a refusal names leads from the payload to something JSON cannot hold |
| AuditChain.VerifyChain | packages/guardmem-core/src/guardmem_core/observability/audit.py:202-234 | accepts exactly the well-formed chains; otherwise names the first link that does not add up, by sequence number or index; raises exactly when it reaches a properly linked payload with no canonical form, and with that payload's refusal |
| AuditChain.FirstBadIsUnique | packages/guardmem-core/src/guardmem_core/observability/audit.py:202-223 | there is one break point |
| AuditChain.AppendExtends | packages/guardmem-core/src/guardmem_core/observability/audit.py:163-199 | a link built on the head of a well-formed chain extends it |
| AuditChain.PreimageSplits | packages/guardmem-core/src/guardmem_core/observability/audit.py:138-160 | the hashed bytes split into payload text and previous digest in one way |
| AuditChain.ReorderedPayloadsVerify | packages/guardmem-core/src/guardmem_core/observability/audit.py:23-31 | a chain still verifies after storage has reordered the keys of its payloads at any depth |
| AuditChain.WellFormedIffChained | packages/guardmem-core/src/guardmem_core/observability/audit.py:225-234 | whether a chain verifies depends on nothing outside each link's payload text, previous digest and digest |
| AuditChain.EqualHeadsIffEqualHistory | packages/guardmem-core/src/guardmem_core/observability/audit.py:8-16 | verifying chains of any lengths have equal heads iff they record the same payloads, unless a collision or a zero digest can be exhibited in them |
| AuditChain.ForkNeverHeals | packages/guardmem-core/src/guardmem_core/observability/audit.py:225-229 | where two verifying chains first differ, every later digest differs |
| AuditChain.EditIsNamed | packages/guardmem-core/src/guardmem_core/observability/audit.py:218-229 | an edited payload is the first bad link |
| AuditChain.RehashMovesTheBreak | packages/guardmem-core/src/guardmem_core/observability/audit.py:225-229 | an edit whose digest was recomputed breaks the next link; at the head it is not detected |
| AuditChain.OnlyPrefixesVerify | packages/guardmem-core/src/guardmem_core/observability/audit.py:202-234 | of all sequences drawn from a chain's links, exactly its prefixes verify |
| AuditChain.NoRepeatsUnlessBroken | packages/guardmem-core/src/guardmem_core/observability/audit.py:202-234 | a verifying chain repeats no digest, unless a collision or a zero digest can be exhibited in it |
| AuditChain.DeletionIsCaught | packages/guardmem-core/src/guardmem_core/observability/audit.py:202-234 | deleting one link verifies iff it was the last |
| AuditChain.ReorderingIsCaught | packages/guardmem-core/src/guardmem_core/observability/audit.py:208-211 | a permutation of the links verifies iff it is the identity |
| ChainLog.EveryTenantVerifies | packages/guardmem-core/src/guardmem_core/observability/audit_store.py:83-111 | under any interleaving of many-event transactions from many tenants over one gapped sequence, every tenant's committed rows in order verify |
| ChainLog.StepKeepsSerialised | packages/guardmem-core/src/guardmem_core/observability/audit_store.py:157-178 | each statement keeps: private rows belong to lock holders, a head once read is still the head, and own rows follow committed ones |
| ChainLog.EndAppendsOwn | packages/guardmem-core/src/guardmem_core/observability/audit_store.py:17-22 | a commit appends exactly the transaction's own links, contiguously; a rollback or a timeout changes no chain |
| ChainLog.AuditStore.Append | packages/guardmem-core/src/guardmem_core/observability/audit_store.py:114-178 | takes the lock or rolls back, reads the head, inserts, as one caller sees it |
| ChainLog.AppendIsTheNewHead | packages/guardmem-core/src/guardmem_core/observability/audit_store.py:153-178 | the returned link claims the head the transaction could see and extends its chain by exactly itself |
| ChainLog.FailedAppendLeavesChains | packages/guardmem-core/src/guardmem_core/observability/audit_store.py:143-151 | a refused payload or a lock not had in time leaves every committed chain alone and the transaction gone |
| ChainLog.ForkBreaks | packages/guardmem-core/src/guardmem_core/observability/audit_store.py:17-22 | two links on one head, which the lock prevents, break at the second |
| AuditedStore.RecordedOverRuns | packages/guardmem-core/src/guardmem_core/observability/audit_store.py:8-15 | over any interleaving of relays, decisions, audit statements and applies, every tenant's committed chain is, link by link, that tenant's part of what happened to the tables |
| AuditedStore.ChainRebuildsTenant | packages/guardmem-core/src/guardmem_core/memory/applier.py:146-188 | after any run each tenant's committed audit rows verify, and with its seeds they alone say which of its rows are live: written in them and not retired in them; no row is retired in them twice |
| Auroc.Auroc | packages/guardmem-core/src/guardmem_core/eval/discrimination.py:134-172 | refuses unequal lengths, no candidates and one class; otherwise returns exactly (kept above rejected + half the ties) / (kept * rejected) |
| Auroc.AverageRanks | packages/guardmem-core/src/guardmem_core/eval/discrimination.py:274-292 | the in-place grouping loop leaves every entry at its average rank |
| Auroc.AverageRankMeaning | packages/guardmem-core/src/guardmem_core/eval/discrimination.py:274-281 | an average rank is 1 + how many are smaller + half of how many others are equal |
| Auroc.FlattenGroup | packages/guardmem-core/src/guardmem_core/eval/discrimination.py:290-291 | a tied group gets its mean rank and no other entry moves |
| Auroc.ArgSort | packages/guardmem-core/src/guardmem_core/eval/discrimination.py:282-283 | the order is a permutation that sorts the scores and keeps equal ones in their order |
| Auroc.RankSumIsPairCount | packages/guardmem-core/src/guardmem_core/eval/discrimination.py:170-172 | the kept rank sum less k(k+1)/2 is the number of winning pairs, ties counting half |
| Auroc.RanksSumToTriangle | packages/guardmem-core/src/guardmem_core/eval/discrimination.py:274-292 | with ties averaged the ranks still sum to n(n+1)/2 |
| Auroc.AurocIsAProbability | packages/guardmem-core/src/guardmem_core/eval/discrimination.py:141-143 | the value lies between 0 and 1 |
| Auroc.ComplementReflects | packages/guardmem-core/src/guardmem_core/eval/discrimination.py:134-143 | complementing the labels gives one minus the value |
| Auroc.RescaledAuroc | scripts/checkpoint_b_generate.py:20-27 | over labels and scores, any strictly increasing transform of the scores keeps the value, any strictly decreasing one reflects it |
| Auroc.CorpusOrderIrrelevant | packages/guardmem-core/src/guardmem_core/eval/discrimination.py:277-280 | permuting the corpus changes nothing |
| TokenBucket.RunScript | services/gateway/src/gateway/limits.py:75-109 | the script's statements compute the refill, the decision, the wait and the stored state |
| TokenBucket.BucketLaw | services/gateway/src/gateway/limits.py:88-99 | tokens before a check equal the least, over every earlier check and this one, of capacity plus refill since less what was admitted since; for any clock, by the latest time told |
| TokenBucket.RefusedIffSomeWindowIsFull | services/gateway/src/gateway/limits.py:96-103 | a check is refused iff admitting it would put more through some window than its capacity and refill |
| TokenBucket.EveryWindowIsBounded | services/gateway/src/gateway/limits.py:68-73 | no window admits more than capacity plus refill over its length |
| TokenBucket.SteadyClock | services/gateway/src/gateway/limits.py:63-66 | with a clock that does not go back, those times are the times given |
| TokenBucket.IdleIsFull | services/gateway/src/gateway/limits.py:178-181 | a bucket idle for the TTL behaves as one that is not there |
| TokenBucket.ExpiryIsUnobservable | services/gateway/src/gateway/limits.py:105-181 | with one clock that does not go back, whatever Redis drops once due, however late, and however many callers share it, each check is answered from its caller's own full history |
| TokenBucket.RefusedProbesAreInert | services/gateway/src/gateway/limits.py:100-105 | any run of refused checks leaves every later answer as it would have been |
| TokenBucket.RetryAfterIsExact | services/gateway/src/gateway/limits.py:102-103 | a refused caller is refused again until the reported wait has passed, and not after |
| TokenBucket.WaitingTheHeaderIsEnough | services/gateway/src/gateway/middleware/throttle.py:110-121 | a lone caller that waits the whole seconds of the header is admitted, even if it kept knocking |
| TokenBucket.Limiter.Check | services/gateway/src/gateway/limits.py:183-203 | one check updates one key and its deadline and reports the decision with its remaining count truncated |
| PromptText.StripAround | packages/guardmem-core/src/guardmem_core/prompts/loader.py:140-142 | stripping whitespace off a trimmed text's surroundings gives back the text |
| PromptText.LinesOfJoined | packages/guardmem-core/src/guardmem_core/prompts/loader.py:142-168 | joining lines and splitting them again is the identity when the last is not empty |
| PromptText.RejoinedStrip | packages/guardmem-core/src/guardmem_core/prompts/loader.py:142 | splitting, rejoining and stripping a text is stripping it with every line break a line feed, which is no change iff it held no other |
| PromptLoader.SplitFrontmatter | packages/guardmem-core/src/guardmem_core/prompts/loader.py:119-143 | the scan finds the first closing fence or refuses |
| PromptLoader.ParseFrontmatter | packages/guardmem-core/src/guardmem_core/prompts/loader.py:146-178 | the loop refuses at the first line that is not flat or repeats a key, and otherwise builds the mapping |
| PromptLoader.FieldIsKeyAndColon | packages/guardmem-core/src/guardmem_core/prompts/loader.py:63 | a line is a field iff it is a legal key, a colon and anything |
| PromptLoader.FieldReads | packages/guardmem-core/src/guardmem_core/prompts/loader.py:161-177 | its value is what follows the colon, stripped, with one layer of matching quotes gone |
| PromptLoader.ParsesIffFlatAndDistinct | packages/guardmem-core/src/guardmem_core/prompts/loader.py:158-178 | a block is accepted iff every non-blank line is `key: value` and no key comes twice; the mapping has exactly those keys |
| PromptLoader.FrontmatterRoundTrip | packages/guardmem-core/src/guardmem_core/prompts/loader.py:119-178 | any distinct legal keys with any line-break-free values, fenced and quoted, split and parse back to that mapping and the body |
| PromptLoader.BodyKeptIff | packages/guardmem-core/src/guardmem_core/prompts/loader.py:140-142 | the stripped body comes back as written iff its line breaks are line feeds |
| PromptTemplate.MatchIsSpelled | packages/guardmem-core/src/guardmem_core/prompts/loader.py:61 | what the scanner takes is a placeholder of the pattern |
| PromptTemplate.SpelledIsMatched | packages/guardmem-core/src/guardmem_core/prompts/loader.py:61 | every placeholder of the pattern is taken whole, whatever follows |
| PromptTemplate.PiecesAreLeftmost | packages/guardmem-core/src/guardmem_core/prompts/loader.py:302 | the scan splits a template into placeholders and characters that start none |
| PromptTemplate.LeftmostIsUnique | packages/guardmem-core/src/guardmem_core/prompts/loader.py:302 | there is only one such reading |
| PromptTemplate.RenderMeaning | packages/guardmem-core/src/guardmem_core/prompts/loader.py:292-303 | rendering succeeds iff the names are the template's, reports both differences otherwise, and replaces the holes of the one leftmost reading |
| PromptTemplate.ValuesAreVerbatim | packages/guardmem-core/src/guardmem_core/prompts/loader.py:268-270 | a value lands whole between what its neighbours became |
| PromptTemplate.OneHoleRendersItsValue | packages/guardmem-core/src/guardmem_core/prompts/loader.py:268-270 | a template that is one placeholder renders to its value, placeholders in it untouched |
| Utf8.DecodeEncode | services/mcp_server/src/mcp_server/resources/uris.py:51 | decoding undoes encoding for every text of scalar values |
| ResourceUris.UnquoteQuote | services/mcp_server/src/mcp_server/resources/uris.py:33-51 | percent-decoding undoes percent-encoding for every text, and the encoding holds nothing a URI parser acts on |
| ResourceUris.UriRoundTrip | services/mcp_server/src/mcp_server/resources/__init__.py:186-216 | parsing a printed URI gives back kind and argument for every argument but the empty one, which is refused |
| ResourceUris.ServedUriRoundTrip | services/mcp_server/src/mcp_server/resources/__init__.py:186-216 | whatever is printed for a memory, ontology or audit resource is read back as it was, and an empty argument refused |
| ResourceUris.UriIsInjective | services/mcp_server/src/mcp_server/resources/uris.py:33-51 | different resources have different URIs |
| Entailment.CollectPairs | packages/guardmem-core/src/guardmem_core/pipeline/inputs.py:146-179 | the list built by the loops is grounding first, then both directions of every two answered draws |
| Entailment.EveryQuestionIsAsked | packages/guardmem-core/src/guardmem_core/pipeline/inputs.py:160-179 | the grounding pair and both directions of any two answered draws are asked, abstentions and repeats included |
| Entailment.FirstObject | packages/guardmem-core/src/guardmem_core/pipeline/inputs.py:271-276 | a draw's answer is its first on the candidate's subject and predicate, or none |
| Entailment.WantedIsExact | packages/guardmem-core/src/guardmem_core/llm/entailment.py:167 | what is sent is each distinct pair once and no self-pair |
| Entailment.TakenIffOneScoreEach | packages/guardmem-core/src/guardmem_core/llm/entailment.py:252-284 | a reply is taken iff it has one number in range per distinct pair, and each pair then answers its own positional score |
| Entailment.AnswersWhatWasAsked | packages/guardmem-core/src/guardmem_core/llm/entailment.py:198-228 | the callable answers the pairs it was built from and self-pairs, 1.0, and raises on every other |
| MeaningClusters.ClusterMeanings | packages/guardmem-core/src/guardmem_core/pipeline/l3_score/entropy.py:119-173 | labels are the least draw connected by a chain of mutual entailments, with their minority and entropy; it fails iff there are no samples or it must ask an unscored pair, and then names the first one it asks in loop order |
| MeaningClusters.Find | packages/guardmem-core/src/guardmem_core/pipeline/l3_score/entropy.py:231-241 | returns the root and, halving paths, moves none |
| MeaningClusters.Union | packages/guardmem-core/src/guardmem_core/pipeline/l3_score/entropy.py:244-254 | merges exactly the two trees, under the lower root |
| MeaningClusters.LabelsAreDetermined | packages/guardmem-core/src/guardmem_core/pipeline/l3_score/entropy.py:99-103 | no order of comparison can show in the labels |
| MeaningClusters.AbstentionsStandAlone | packages/guardmem-core/src/guardmem_core/pipeline/l3_score/entropy.py:153-161 | an abstention is a cluster of its own, and draw zero is labelled zero |
| MeaningClusters.MinorityIsDisconnected | packages/guardmem-core/src/guardmem_core/pipeline/l3_score/entropy.py:104-112 | the minority is exactly the draws no chain of agreement connects to draw zero |
| MeaningClusters.EntropyMeansDisagreement | packages/guardmem-core/src/guardmem_core/pipeline/l3_score/entropy.py:176-194 | the entropy of the labels is 0 iff every draw is connected to draw zero and 1 iff there are two or more and no two are connected |
| MeaningClusters.PreparedDrawsAreScored | packages/guardmem-core/src/guardmem_core/pipeline/inputs.py:160-179 | clustering the draws the pairs were built from never meets an unscored pair |
| SemanticEntropy.EntropyExtremes | packages/guardmem-core/src/guardmem_core/pipeline/l3_score/entropy.py:197-228 | `H / log K` lies in [0, 1], is 0 iff all labels are the same and 1 iff there are two or more, all different |
| SemanticEntropy.ClampIsInert | packages/guardmem-core/src/guardmem_core/pipeline/l3_score/entropy.py:206-214 | over exact arithmetic the clamp moves nothing: the quotient already lies in [0, 1] |

## Left out

- `decide()`, the conflict detector, the schema gate and the scoring formulas: a decision arrives in the model already made.
- Embeddings, vector search and the graph stores' internals: foreign calls; only the graph's upsert by id matters here.
- Relay.OutboxRelay.RunOnce: does not model a pass that ends in an exception, from Postgres or from a graph backend failing otherwise than by being unavailable; `Refinement.BrokenPassLosesNothing` covers every point at which a pass can end that way.
- `supersede` called directly by the seed script with a hand-picked successor, and rows that are stored already retired: the history theorems are about rows retired by the applier.
- The in-process graph forgets when it restarts: an edge for every visible row is proved for a durable graph only.
- Concurrent relays each counting an event both of them finished: the total over a drain is proved for one relay; `Protocol` covers any number but keeps no counters.
- Relay.OutboxRelay.TakeOldest: does not model rows another relay holds locked, which `SKIP LOCKED` passes over; `Protocol.Claim` allows any claimable subset instead.
- The hex spelling of digests: a digest is thirty-two bytes, so the length and character refusals of `_digest_bytes` are not modelled.
- CanonicalForm.CanonicalFormReadsBack: a float is its finite spelling, taken as an opaque token; how doubles are spelled, and how `JSONB` respells numbers, is not modelled.
- A tuple and a list of the same items are one value here, as they are in the text; `True` and `1` are two.
- RFC 9110's other headers, the `X-RateLimit` budget and failing open when Redis is down: each is a single branch with nothing to relate it to.
- IEEE rounding in the bucket, in AUROC and in the entropy, and NaN scores: the arithmetic is exact.
- Validation of a prompt's spec, its path and its cache: field-by-field checks that meet no other part of the model.
- ResourceUris.UriRoundTrip: a kind is printable ASCII without delimiters; the checks `urlsplit` makes of bracketed and non-ASCII authorities are not modelled, and lone surrogates, which `quote` refuses, are not in Dafny's strings.
- The idempotency cache, sessions, authentication, health checks and the tool surface: they carry requests to the operations modelled here.
- REVIEW, POLICY_CHANGE and QUARANTINE events in `AuditedStore`: nothing but the applier appends to the log in the code, so only its transactions commit there; `ChainLog` allows any kind.
