# Verified model of the agent authorization registry

The repository lets agents request capability grants from human principals, turns approved grants into
short-lived tokens, verifies those tokens for service providers, revokes them, and keeps a hash-chained
audit log whose old partitions are moved to cold storage. This project models the state machines behind
that and proves what they keep over every run.

- **Tokens and cache.** `Records`, `Decisions` hold the rows, the Redis hashes and the verifier's
  decision. `Cache`, `Tokens`, `Verifier` are the services as classes, one request at a time: the cache
  stays coherent with the token table and the verifier with the cache answers as one without. `Protocol`
  splits every handler (grant approval and denial, issuance, verification, revocation) into its reads and
  writes and lets any number of them interleave, be abandoned, or lose a Redis write. `Provenance` proves
  what all interleavings keep, `Uninterrupted` connects the machine to the sequential verifier, and
  `Revocation` says exactly when a revocation is respected for ever. `Unmarked` is about revocations
  whose mark never reaches the cache, `Withdrawal` about revoking a grant while it is being approved, and
  `Issuance` about handlers that issue for one grant at once.
- **Grants.** `Capabilities` is the key by which approval compares capabilities; `Grants` the request,
  approve, deny and revoke operations with their limits, and `Requests` interleaves the requests.
- **Limits.** `SlidingWindow` proves the Redis script equal to a limiter that forgets nothing. `Nonces` is
  replay protection with SETNX and EXPIRE interleaved, and `Replay` runs it together with the handlers of
  `Protocol`. `InFlight` is the optimistic in-flight counter.
  `CircuitBreaker` and `Retry` are the breaker and the backoff loop.
- **Audit.** `AuditChain` is the recording service, the verification loop and tamper evidence, and `Recording`
  interleaves the recordings. `Calendar`,
  `PartitionNames` and `Partitions` are the month arithmetic, the names and the selection of partitions;
  `Archiver` is the archival pipeline with crashes and `Archival` the service that runs it.
  `SignatureCodec` is the base64url-or-hexadecimal signature decoder.

A call to the database, Redis or storage goes through, is lost after it took effect, or fails (`Fate` in
`Wrappers`). `Collections` holds a few facts about sets and sequences.

Operations that the source performs on stored state are class methods proved against functions; the
properties of whole runs are lemmas about those functions and about the step machines. Times are integers
(microseconds, or milliseconds where the source uses them); every clock reading, random identifier and
outcome of a call to Redis, the database, storage or the signer is a parameter.

Results where the code does less than its documentation or tests suggest, each with its exact condition:

- A revocation is respected by all later verifications exactly when, at the revoking UPDATE, no handler
  holds an unrevoked snapshot awaiting its cache write or the token has expired
  (`Revocation.RevocationHoldsIff`); a run that gets there with such a snapshot exists
  (`Unmarked.OvertakenIsReachable`). When the mark is lost after the UPDATE, retrying never repairs the
  cache (`Unmarked.RetriesNeverMark`, from the states of `Unmarked.LostMarkIsReachable`), and the token can still be let through exactly as long as it is
  unexpired and the cache shows it as unrevoked or will (`Unmarked.RevokedCanBeAllowedIff`).
- With a cache, a verification answers as without one exactly when the cached provider and revocation
  agree with the row; the cached expiry plays no part (`Verifier.UnobservableIffAgrees`).
- A repeated issuance returns an unexpired token in all cases exactly when the token lifetime is at least
  the idempotency window (`Tokens.ReturnsUnexpiredIff`).
- The type key of a custom capability names that capability alone exactly when neither its namespace nor its
  name holds a colon (`Capabilities.KeyNamesIffNoColon`).
- For recordings that do not overlap within one process lifetime, the audit log stays verifiable exactly as
  long as no event is stored after one whose insert took effect with the reply lost
  (`AuditChain.RecordedChainsVerifyIff`). With recordings interleaved and the process restarted at will, it
  verifies exactly when every row was stored by a handler that had read the hash of the last row, with no
  row stored in between (`Recording.LogVerifiesIff`); a restart of the recorder therefore breaks every log
  that is not empty (`AuditChain.RestartBreaksNonEmptyLog`). The per-agent chain endpoint accepts an
  untampered log exactly when no foreign event precedes one of the agent's (`AuditChain.AgentVerifiesIff`).
- A reported success of revoking a grant leaves it revoked exactly when the UPDATE changed the row
  (`Withdrawal.ReportedRevokedIff`); otherwise an approval committed between the UPDATE and the read, and the
  grant stays approved (`Withdrawal.UnrevokedSuccessIsReachable`).
- Two unrevoked tokens of a grant issued within the window of each other mean that one was inserted between
  the search and the insert of the other's handler (`Issuance.CloseTokensOverlap`), and that happens
  (`Issuance.BothIssueIsReachable`). A grant never has two live tokens, as long as issuance does not overlap,
  exactly when the lifetime is no longer than the window (`Tokens.NeverTwoLiveIff`).
- With at most `c` requests of an agent in flight at once, its pending grants exceed the limit by no more than
  `c - 1` (`Requests.OvershootIsBounded`).
- A month's archive holds exactly the month's rows, over all runs with failures, lost replies, crashes and
  reruns, exactly when every upload of that month that took effect converted all its batches
  (`Archiver.ArchiveExactIff`, `Archiver.DroppedRowsKeptIff`); in particular a rerun drops the table of a
  wrong archive (`Archiver.RerunKeepsRowsIff`). Whether a batch converts is an outcome flag of the model,
  because services/audit-archiver/src/main.rs:255-264 leaves out batches whose conversion reports an error;
  services/audit-archiver/src/parquet.rs builds every column to the schema, and no input that makes a
  conversion fail is shown here.
- The breaker's failure window is not a sliding one (`CircuitBreaker.BurstAcrossRestartStaysClosed`); what
  opens it is stated exactly by `CircuitBreaker.OpensIff`.

## Model

| member | source | states |
|---|---|---|
| Decisions.AllowedIffQualified | services/verifier/src/handlers.rs:312-402 | The order of the checks does not matter for a grant: a request is allowed iff the token exists, is unrevoked, is for this provider, is within expiry plus skew, and binding and proof demands are met |
| Decisions.WholeSecondsTruncates | services/verifier/src/handlers.rs:404-434 | The remaining lifetime that is reported is in whole seconds, rounded towards zero |
| Verifier.Verifier.VerifyToken | services/verifier/src/handlers.rs:92-434 | Replay iff the nonce is in use, error when the nonce cannot be recorded; otherwise the answer is the one that cache and table give, equals the cache-free answer while the cache is coherent, and without the database is a cache refusal or an error; the exact cache write on a miss; coherence kept |
| Verifier.Verifier.FetchRow | services/verifier/src/handlers.rs:143-310 | Each refusal exactly: revoked or wrong provider by the cache entry or, on a miss, by the row; not found, or no database; otherwise the row, cached on a miss |
| Verifier.Verifier.CheckRow | services/verifier/src/handlers.rs:312-402 | Which of binding mismatch, missing proof, expiry and allowed is answered, each exactly; a row of the requested provider is allowed iff it qualifies |
| Verifier.FillKeepsCoherent | services/verifier/src/handlers.rs:262-310 | Filling the cache from the row that was read keeps every complete entry in agreement with its row |
| Verifier.VanishKeepsCoherent | crates/registry/src/services/cache.rs:61-82 | Losing a key to its TTL keeps the cache coherent |
| Verifier.RunStaysCoherent | crates/registry/src/services/cache.rs:61-119 | Every run of issuing, revoking, filling and key loss, not overlapping and with Redis writes succeeding, keeps the cache coherent |
| Verifier.CacheIsUnobservable | services/verifier/src/handlers.rs:143-310 | After any such run the verifier with the cache answers every request as the one without |
| Verifier.UnobservableIffAgrees | services/verifier/src/handlers.rs:143-225 | No request tells cached and cache-free verification apart iff the entry is a miss or agrees with an existing row on revocation and, if unrevoked, on the provider |
| Cache.CacheService.CacheToken | crates/registry/src/services/cache.rs:61-82 | All three fields are set and the key outlives the token's expiry by less than a second, or lives one second if that has passed; unless the pipeline did not happen |
| Cache.CacheService.GetCachedToken | crates/registry/src/services/cache.rs:85-106 | A hit iff the cache answers and all three fields are there, with their values |
| Cache.CacheService.MarkTokenRevoked | crates/registry/src/services/cache.rs:109-119 | The mark keeps the other fields and creates the hash when it is missing |
| Cache.CacheService.CheckAndSetNonce | crates/registry/src/services/cache.rs:127-149 | Replay iff the nonce was there; the state each lost command or reply leaves behind |
| Cache.CacheService.CheckRateLimit | crates/registry/src/services/cache.rs:158-208 | Reply and stored set are those of one run of the script; other keys are untouched |
| Tokens.TokenTable.FindExisting | crates/registry/src/db/queries.rs:501-524 | A most recent unrevoked token of the grant issued inside the window, none iff there is none |
| Tokens.TokenTable.Revoke | crates/registry/src/db/queries.rs:527-541 | The guarded UPDATE changes exactly an existing unrevoked row |
| Tokens.TokenService.IssueToken | crates/registry/src/services/token.rs:47-108 | A most recent unrevoked token of the window is returned with nothing written, a new one is written to table and cache iff there is none, also when the reply of a write is lost; no answer is older than the window, nor expired if the lifetime is no shorter; a repeat in the window returns the same token; spacing and coherence are kept |
| Tokens.TokenService.FindInWindow | crates/registry/src/services/token.rs:57-68 | None iff every unrevoked token of the grant was issued more than the window before the clock, else a most recent one |
| Tokens.TokenService.StoreAndCache | crates/registry/src/services/token.rs:86-107 | The exact table, cache and answer for each fate of the insert and the cache write |
| Tokens.TokenService.RevokeToken | crates/registry/src/services/token.rs:111-133 | Succeeds iff it revoked the row and both the UPDATE and the mark were acknowledged, and then no cache entry shows the token as unrevoked; every error exactly; coherence survives iff no row was revoked without a mark while a complete entry was cached |
| Tokens.InsertKeepsSpaced | crates/registry/src/services/token.rs:57-107 | Inserting after an empty search keeps any two unrevoked tokens of a grant more than the window apart |
| Tokens.InsertKeepsCoherent | crates/registry/src/services/token.rs:86-107 | A new row keeps the cache coherent with or without its cache write |
| Tokens.RevokeKeepsCoherent | crates/registry/src/services/token.rs:111-133 | Row and mark together keep the cache coherent; the row alone does iff the cache has no complete entry |
| Tokens.MarkedIsRefused | crates/registry/src/services/cache.rs:109-119 | After the mark no lookup shows the token as unrevoked, whether or not the key existed |
| Tokens.RepeatReturnsSameToken | crates/registry/src/services/token.rs:57-84 | A repeat call in the window can find nothing but the token issued first |
| Tokens.AtMostOneLiveToken | crates/registry/src/services/token.rs:57-107 | With a lifetime no longer than the window a grant never has two unrevoked unexpired tokens |
| Tokens.NeverTwoLiveIff | crates/registry/src/services/token.rs:57-107 | Over all tables that spaced issuance leaves and at all times, never two live tokens of a grant iff the lifetime is no longer than the window |
| Issuance.CloseTokensOverlap | crates/registry/src/services/token.rs:57-107 | In every interleaving, an unrevoked token issued no more than the window before another of its grant was inserted between the search and the insert of the handler that issued the other |
| Issuance.BothIssueIsReachable | crates/registry/src/services/token.rs:57-107 | A run from every start in which two overlapping handlers both issue |
| Tokens.ReturnsUnexpiredIff | crates/registry/src/services/token.rs:57-84 | A token returned by the idempotency search is never expired, over all tables and clocks, iff the lifetime is at least the window |
| Provenance.StepKeepsInv | crates/registry/src/services/grant.rs:98-198 | Every step of every handler keeps the traceability invariant and only moves rows forward |
| Provenance.RunKeepsInv | crates/registry/src/handlers/tokens.rs:93-175 | So does every interleaved run |
| Provenance.AllowedIsProvenanced | crates/registry/src/handlers/tokens.rs:109-135 | Behind each allowed verification stand, in this order, an approving decision and a read of the grant as approved with exactly the token's capabilities, each with the type key of one originally requested |
| Provenance.OneDecisionPerGrant | crates/registry/src/db/queries.rs:344-386 | However approvals and denials interleave at most one succeeds per grant, and decisions exist exactly for grants no longer pending, matching their status |
| Provenance.StatusesMoveForward | crates/registry/src/db/queries.rs:344-402 | Status moves only pending to approved or denied and approved to revoked; capabilities never change after the decision |
| Provenance.OnlyDecideAllows | services/verifier/src/handlers.rs:312-402 | Only the final step of a verification allows, and only a row that qualifies |
| Provenance.AllowedIsQualified | services/verifier/src/handlers.rs:92-434 | In every interleaving an allowed answer reports a row of the token table that, revocation aside, qualifies at the time of the answer |
| Uninterrupted.ApprovalBeginsIff | crates/registry/src/services/grant.rs:106-148 | In the interleaved protocol too an approval goes past its checks iff the grant is pending and unexpired and the subset, if any, is non-empty and targets only what was requested |
| Uninterrupted.ApprovalAlone | crates/registry/src/services/grant.rs:98-171 | Run alone it approves the row with the subset or all capabilities and changes nothing else |
| Uninterrupted.DenialAlone | crates/registry/src/services/grant.rs:174-198 | Run alone it denies the row and changes nothing else |
| Uninterrupted.RevocationAlone | crates/registry/src/services/token.rs:111-133 | Run alone it revokes the row, marks the cache and succeeds |
| Uninterrupted.IssuanceSearches | crates/registry/src/handlers/tokens.rs:109-135 | Issuance for an approved grant with nothing issued since a window ago goes on with the row that was read |
| Uninterrupted.IssuanceStores | crates/registry/src/services/token.rs:86-107 | And stores the token with the fields of that row, its lifetime and its cache entry |
| Uninterrupted.VerificationAlone | services/verifier/src/handlers.rs:92-434 | A verification whose steps nobody interrupts answers what the sequential verifier concludes from that cache and table |
| Revocation.RevocationHolds | crates/registry/src/services/token.rs:111-133 | With no snapshot in flight at the UPDATE, no verification started after the success is ever allowed, whatever expires, vanishes or is marked on a missing key |
| Revocation.ExpiredHolds | services/verifier/src/handlers.rs:386-402 | An expired token is never allowed again, whatever the cache says |
| Revocation.SnapshotUndoesRevocation | services/verifier/src/handlers.rs:227-310 | A snapshot written back after the mark lets a later verification of an unexpired token through |
| Revocation.RevocationHoldsIff | crates/registry/src/services/token.rs:111-133 | From any reachable state the revocation is respected for ever iff no snapshot awaits its cache write at the UPDATE or the token has expired |
| Unmarked.OvertakenIsReachable | crates/registry/src/services/token.rs:47-133 | Unless tokens are issued expired, a run from every start leads to a revocation with a snapshot in flight that is not respected |
| Unmarked.RetriesNeverMark | crates/registry/src/services/token.rs:111-133 | Once a row is revoked and its mark lost, no later call reports success and the cache never comes to show the revocation |
| Unmarked.LostMarkIsReachable | crates/registry/src/services/token.rs:111-133 | Unless tokens are issued expired, a run from every start leads to a lost mark with the unexpired token cached as unrevoked, which a verification can then be allowed |
| Unmarked.RevokedCanBeAllowedIff | services/verifier/src/handlers.rs:143-310 | In every reachable state a revoked token can still be allowed to a later verification iff it is unexpired and the cache shows it as unrevoked or a handler will write it back so |
| Capabilities.TypeKeyIdentifiesTarget | crates/registry/src/services/grant.rs:258-266 | Equal keys iff same kind and same resource (for custom ones, same joined text): filters, conditions and amounts are forgotten |
| Capabilities.WithinMeans | crates/registry/src/services/grant.rs:127-148 | The subset check passes iff every capability has the kind and the resource of one in the request |
| Capabilities.JoinedNamesDiffer | crates/registry/src/services/grant.rs:258-266 | Two ways to read one joined text differ only if a namespace holds a colon |
| Capabilities.KeyNamesIffNoColon | crates/registry/src/services/grant.rs:258-266 | Whatever has the key of a custom capability has its namespace and name iff neither of the two holds a colon |
| Grants.GrantTable.FindPending | crates/registry/src/db/queries.rs:233-260 | A most recent pending grant of the pair, none iff there is none |
| Grants.GrantTable.Decide | crates/registry/src/db/queries.rs:344-402 | A guarded UPDATE changes the row iff it has the status the guard asks for |
| Grants.GrantService.RequestGrant | crates/registry/src/services/grant.rs:28-84 | Too many pending, unknown agent, failed queries, an existing pending grant returned unchanged, or one new pending row with every field as requested, stored also when the reply is lost; each agent stays within its limits |
| Grants.GrantService.AnyHasKey | crates/registry/src/services/grant.rs:127-148 | The inner loop finds the key iff some original capability has it |
| Grants.GrantService.FirstOutside | crates/registry/src/services/grant.rs:127-148 | The subset check passes iff every chosen capability has a key of the original request, and otherwise names the first that has none |
| Grants.GrantService.ApproveGrant | crates/registry/src/services/grant.rs:98-171 | Each error exactly, in particular an invalid capability iff a chosen subset of a pending, unexpired grant is empty or has a key outside the request; otherwise the row is approved with the subset or all capabilities, also with the reply lost |
| Grants.GrantService.DenyGrant | crates/registry/src/services/grant.rs:174-198 | Succeeds iff read, pending and the UPDATE acknowledged; the exact row, also with the reply lost, and errors |
| Grants.GrantService.RevokeGrant | crates/registry/src/services/grant.rs:201-214 | Uninterrupted, succeeds iff approved and the UPDATE acknowledged; the exact row, also with the reply lost, and errors |
| Withdrawal.ReportedRevokedIff | crates/registry/src/services/grant.rs:201-214 | Interleaved, a reported success leaves the grant revoked iff the UPDATE changed the row, and otherwise approved, by a decision that came between the UPDATE and the read |
| Withdrawal.ReportsMeanWhatTheUpdateDid | crates/registry/src/services/grant.rs:201-214 | Over whole runs: revoked for good after the one kind of success, an approval in between before the other |
| Withdrawal.UnrevokedSuccessIsReachable | crates/registry/src/services/grant.rs:201-214 | A run from every start in which success is reported for a grant left approved |
| Grants.InsertKeepsLimited | crates/registry/src/services/grant.rs:35-84 | An insert after both checks keeps at most `max` pending grants per agent and one per provider |
| Grants.LeavePendingKeepsLimited | crates/registry/src/services/grant.rs:98-214 | Deciding a grant keeps those limits |
| Grants.FloodFillsTheQuota | tests/integration/concurrency.rs:134-136 | Sequential requests for distinct providers fill exactly the places left and then stop |
| Requests.StepKeepsBounded | crates/registry/src/services/grant.rs:35-84 | Each step of interleaved requests keeps the limits with every request in flight counted as if it had inserted its grant |
| Requests.OvershootIsBounded | crates/registry/src/services/grant.rs:35-84 | With at most `c` requests of an agent in flight at once it has at most `max + c - 1` pending grants, and at most `c` for one provider |
| SlidingWindow.ExpiryUnobservable | crates/registry/src/services/cache.rs:158-208 | A key that has expired held nothing that still counts |
| SlidingWindow.ScriptStep | crates/registry/src/services/cache.rs:158-208 | One run of the script, score by score: what it evicts, its reply, the scores and the deadline it leaves |
| SlidingWindow.CallAgrees | crates/registry/src/services/cache.rs:158-208 | One call of the script answers as the unbounded log does and keeps the two in agreement |
| SlidingWindow.RunsAgree | crates/registry/src/services/cache.rs:158-208 | So does every run from states in agreement, with keys expiring in between |
| SlidingWindow.LimiterIsExact | crates/registry/src/services/cache.rs:158-208 | From an empty store every answer is that of keeping every accept for ever: eviction and PEXPIRE cannot be observed |
| SlidingWindow.ScriptDecidesIff | crates/registry/src/services/cache.rs:158-208 | Over any run, said of the calls and replies alone: a call is allowed iff fewer than `limit` calls of the window before it were allowed, and the reply reports their number |
| SlidingWindow.WindowHoldsAtMostLimit | crates/registry/src/services/cache.rs:158-208 | Where each accept found room in its own window, every window holds at most `limit` |
| SlidingWindow.AcceptedBounded | crates/registry/src/services/cache.rs:158-208 | Over any run with a clock that does not go back, every half-open interval of window length holds at most `limit` accepts |
| SlidingWindow.ScriptIsBounded | crates/registry/src/services/cache.rs:158-208 | Over any run every half-open interval of window length holds at most `limit` calls that the script itself answered with allowed |
| Nonces.StepKeepsInv | crates/registry/src/services/cache.rs:127-149 | Each SETNX, EXPIRE, key loss, abandoned or half-lost command keeps passes guarded by their key |
| Nonces.PassesAreSpaced | services/verifier/src/handlers.rs:99-141 | Under every interleaving two passes with one nonce are at least the nonce lifetime apart |
| Nonces.UnexpiredNonceBlocksForever | crates/registry/src/services/cache.rs:127-149 | A nonce whose EXPIRE was lost never passes again |
| Replay.RunKeepsInv | services/verifier/src/handlers.rs:92-143 | With nonce checks and handlers interleaved, each verification belongs to one passed check of its nonce and is answered at most once |
| Replay.AllowedAreSpaced | services/verifier/src/handlers.rs:92-434 | Two allowed verifications with one nonce are at least the nonce lifetime apart: one passed its check that long before the other set the nonce |
| AuditChain.AuditService.BuildHashContent | crates/registry/src/services/audit.rs:273-299 | The bytes of all fields in order, and the digest that the verifier computes from the stored row |
| AuditChain.AuditService.Record | crates/registry/src/services/audit.rs:222-270 | A stored event continues the head in memory, which moves only on success; an insert whose reply is lost stores the row and leaves the head behind; every other failure changes nothing |
| AuditChain.BuildVerificationContent | crates/registry/src/handlers/audit.rs:357-383 | The verifier hashes the same bytes as the recorder |
| AuditChain.VerifyChain | crates/registry/src/handlers/audit.rs:149-197 | Valid iff the rows form a chain from genesis; otherwise the count is the position of the first row that does not link, and the error says which link broke |
| AuditChain.VerifyAgentAuditChain | crates/registry/src/handlers/audit.rs:125-197 | Failing queries and unknown agents exactly; otherwise the verdict is that of the agent's rows, which on a valid log pass iff no foreign event precedes one of the agent's |
| AuditChain.AppendValidIff | crates/registry/src/services/audit.rs:222-270 | A row extends a log to a valid chain iff the log is one and the row continues its head |
| AuditChain.DepthIsPosition | crates/registry/src/services/audit.rs:222-270 | A hash fixes the position of its row in any valid chain |
| AuditChain.TakenRowsPassIffPrefix | tests/compliance/audit_integrity.rs:222-257 | Rows taken from a valid chain, deleted, repeated or reordered, pass iff they are a prefix of it |
| AuditChain.SameHeadSameDigests | crates/registry/src/handlers/audit.rs:149-197 | Two valid chains with the same last hash have the same content digests |
| AuditChain.EditBreaksAtRow | crates/registry/src/handlers/audit.rs:149-197 | Changing the hashed content of one row breaks the chain there and not before |
| AuditChain.MandatoryFieldsAreHashed | crates/registry/src/services/audit.rs:273-299 | Replacing the id, event type, data or outcome keeps the digest iff the value stays the same |
| AuditChain.OptionalFieldsAreHashed | crates/registry/src/services/audit.rs:273-299 | Replacing one of the five optional fields keeps it iff the bytes hashed for it do, none for an absent field |
| AuditChain.FieldEditBreaksAtRow | crates/registry/src/handlers/audit.rs:149-197 | Editing any one hashed field of a stored row, its hashes kept, breaks the chain at that row and not before |
| AuditChain.RestartBreaksNonEmptyLog | crates/registry/src/services/audit.rs:211-217 | What a restarted recorder appends verifies iff the log was empty |
| AuditChain.OverlapBreaksLog | crates/registry/src/services/audit.rs:222-270 | Two overlapping recordings from one head leave a log that does not verify |
| AuditChain.AgentVerifiesIff | crates/registry/src/handlers/audit.rs:298-339 | An agent's rows of a valid log pass iff no foreign row precedes one of them |
| AuditChain.HeadBehindBreaks | crates/registry/src/services/audit.rs:222-270 | With the head behind the log, the log stays valid iff nothing more is stored |
| AuditChain.RecordedChainsVerifyIff | crates/registry/src/services/audit.rs:222-270 | After any run of recordings that do not overlap, with signing failing and inserts failing or losing their reply, the log verifies iff no row was stored after one whose reply was lost, and while it verifies its last hash is the head in memory iff no reply was lost |
| Recording.HoldsLastHashIff | crates/registry/src/services/audit.rs:222-270 | While the log is valid, a handler holds its last hash iff it read that hash and nothing was stored since |
| Recording.LogVerifiesIff | crates/registry/src/services/audit.rs:211-270 | Over every interleaving of reads, inserts, head writes and restarts, the log verifies iff every row was stored by a handler that had read the last hash with no row stored in between |
| Calendar.InMonthIff | services/audit-archiver/src/partition.rs:90-112 | The range from a month's first day to the next month's first day holds exactly the dates of that month |
| Calendar.AddUndoesSub | services/audit-archiver/src/partition.rs:246-258 | Going back days and forward again returns to the date |
| Calendar.EndsByCutoffIff | services/audit-archiver/src/partition.rs:246-258 | A month ends by the cutoff iff each of its days is more than the retention old |
| Calendar.SuccCounts | services/audit-archiver/src/partition.rs:90-112 | The next day has the next number in the Gregorian calendar, leap years by the 4, 100 and 400 rule |
| Calendar.AddDaysCounts | services/audit-archiver/src/partition.rs:208-243 | Adding days adds to the number |
| Calendar.SubDaysCounts | services/audit-archiver/src/partition.rs:246-258 | Subtracting days subtracts from it |
| Partitions.PartitionsToCreate | services/audit-archiver/src/partition.rs:208-243 | The loop ends and lists the months from today's to the target's, in order; the step after the loop adds nothing |
| Partitions.CreatedMonthsTile | services/audit-archiver/src/partition.rs:208-243 | They do not overlap and together are one unbroken interval of days, from the first of today's month to the end of the target's, so every day from today to the target lies in exactly one |
| Partitions.PartitionsToArchive | services/audit-archiver/src/partition.rs:246-258 | Exactly the partitions that end by the cutoff |
| Partitions.SelectionAppends | services/audit-archiver/src/partition.rs:246-258 | In the order in which they are listed: the selection from two lists in a row is the selections from each |
| Partitions.SelectionCounts | services/audit-archiver/src/partition.rs:246-258 | And as often as they are listed |
| Partitions.SelectedIffExpired | services/audit-archiver/src/partition.rs:246-258 | A month is selected iff every day it can hold is past retention |
| Partitions.CreatedNeverArchived | services/audit-archiver/src/partition.rs:207-258 | No month created on a day is selected for archival on that day |
| PartitionNames.PrintedNameReadsBack | services/audit-archiver/src/partition.rs:29-112 | For years 0 to 9999 a printed name is valid and parses to its month's first day and the next month's |
| PartitionNames.PrintedNameValidIff | services/audit-archiver/src/partition.rs:29-58 | A printed name is valid iff the year is 0 to 9999 |
| PartitionNames.ValidIffPrinted | services/audit-archiver/src/partition.rs:44-112 | Among names that parse, exactly those that printing gives back for a year from zero on are valid |
| PartitionNames.NamesAreSpelled | services/audit-archiver/src/storage.rs:70-75 | The name and the storage key of a month, spelled out from its four-digit year and two-digit month |
| PartitionNames.StorageKeysDistinct | services/audit-archiver/src/storage.rs:70-75 | Under one prefix distinct partition names have distinct storage keys |
| Archiver.ByTimeSorts | services/audit-archiver/src/export.rs:124-127 | Exporting sorts the rows by creation time and neither adds nor loses any |
| Archiver.ChunksRejoin | services/audit-archiver/src/export.rs:110-145 | The batches are non-empty, within the size, count all rows and put together give them back in order |
| Archiver.ChunksAreFull | services/audit-archiver/src/export.rs:136-142 | Only the last batch may be short |
| Archiver.UploadFaithfulIff | services/audit-archiver/src/main.rs:255-264 | What is uploaded is exactly the exported rows iff every batch converted, and otherwise has fewer |
| Archiver.StepKeepsInv | services/audit-archiver/src/main.rs:213-315 | Each step of the pipeline and of the world around it keeps the invariant, and a month's archive is exact after it iff it was before and an upload of that month in it converted all its batches |
| Archiver.ArchiveExactIff | services/audit-archiver/src/main.rs:178-315 | Over every run, with failures, lost replies, crashes and reruns, a month's archive is exact at the end iff every upload of that month that took effect converted all its batches |
| Archiver.HistoryGrows | services/audit-archiver/src/main.rs:213-315 | What was ever stored for a month is never forgotten or reordered |
| Archiver.RowsAreConserved | services/audit-archiver/src/main.rs:213-315 | A month's table holds all its rows; once it is gone there is an archive under the partition's key unless there was nothing to archive; the archive is exactly the rows in order iff the uploads of that month converted |
| Archiver.DroppedRowsKeptIff | services/audit-archiver/src/main.rs:213-315 | Once the table is gone, every row ever stored for the month is in its archive iff every upload of that month that took effect converted all its batches |
| Archiver.RerunKeepsRowsIff | services/audit-archiver/src/main.rs:222-232 | After an upload whose reply is lost the next run drops the table; the archive then holds all rows iff every batch had converted |
| Archival.SelectedIsArchived | services/audit-archiver/src/partition.rs:246-258 | Selecting from the listed months yields exactly the eligible ones |
| Archival.ContentExactIff | services/audit-archiver/src/main.rs:255-264 | What one archival writes is the exported rows iff none of its batches is broken |
| Archival.OutcomeMeans | services/audit-archiver/src/main.rs:213-304 | Call by call, when an archival removes the table, what archive it leaves and what it counts |
| Archival.ArchivalsSnoc | services/audit-archiver/src/main.rs:196-207 | One more archival after others comes out as it would have on its own: they do not affect each other |
| Archival.ArchiverService.WriteBatches | services/audit-archiver/src/main.rs:242-264 | The row count is of all batches, the bytes are of those that convert |
| Archival.ArchiverService.DropPartitionWithWarning | services/audit-archiver/src/main.rs:307-315 | The drop is reached only after an acknowledged detach; the exact table for each outcome |
| Archival.ArchiverService.UploadAndVerify | services/audit-archiver/src/main.rs:276-297 | A run of the pipeline that goes on iff upload and verification were acknowledged; the exact storage |
| Archival.ArchiverService.ExportAndUpload | services/audit-archiver/src/main.rs:234-297 | A run of the pipeline; goes on iff the export worked and there was nothing to upload or it was uploaded and verified; the exact storage |
| Archival.ArchiverService.ArchiveUnlessThere | services/audit-archiver/src/main.rs:221-297 | A run of the pipeline up to the drop that goes on iff the archive was found or made; the archive it leaves and the counters |
| Archival.ArchiverService.ArchiveSinglePartition | services/audit-archiver/src/main.rs:213-304 | One archival is a run of the pipeline, removes the table iff all it takes went through, leaves the archive it should, touches no other month, and counts what it did |
| Archival.ArchiverService.ListPartitions | services/audit-archiver/src/partition.rs:65-87 | Exactly the attached partitions, in ascending order of their months, each with the bounds its name reads back as |
| Archival.ArchiverService.SelectPartitions | services/audit-archiver/src/main.rs:185-187 | Exactly the attached months with every day past retention, in ascending order |
| Archival.ArchiverService.ArchiveEach | services/audit-archiver/src/main.rs:199-207 | Up to the shutdown the loop performs just these archivals: a run of the pipeline, with every month's table and archive, the untouched months and the counters exactly |
| Archival.ArchiverService.ArchiveExpired | services/audit-archiver/src/main.rs:178-210 | Nothing happens when listing or opening the storage fails; otherwise the selected archivals are performed as above |
| InFlight.AcquireKeepsInv | crates/registry/src/middleware.rs:145-163 | An attempt gets a guard iff live guards and attempts not yet undone leave a place; the counter counts both |
| InFlight.ReleaseKeepsInv | crates/registry/src/middleware.rs:145-171 | Taking one back finds at least one to take: the counter never underflows |
| InFlight.InterleavingsAreSafe | crates/registry/src/middleware.rs:144-171 | In every interleaving guards never exceed the maximum, the counter is guards plus refused attempts not yet undone, and is zero when all tasks are done |
| InFlight.InFlightLimiter.Enter | crates/registry/src/middleware.rs:145-150 | The fetch-and-add is the machine's acquire step |
| InFlight.InFlightLimiter.UndoEnter | crates/registry/src/middleware.rs:150-158 | The fetch-and-sub of a refused attempt is the machine's undo step |
| InFlight.InFlightLimiter.Leave | crates/registry/src/middleware.rs:166-171 | Dropping a guard is the machine's release step |
| InFlight.InFlightLimiter.TryAcquire | crates/registry/src/middleware.rs:145-163 | Uninterrupted, it gets a guard iff one is free and otherwise leaves no trace |
| CircuitBreaker.DependencyCircuitBreaker.UpdateState | crates/registry/src/services/circuit_breaker.rs:243-273 | The time-based transitions as one step of the machine |
| CircuitBreaker.DependencyCircuitBreaker.IsCallPermitted | crates/registry/src/services/circuit_breaker.rs:169-177 | A check step; permitted iff not open after the time-based transition |
| CircuitBreaker.DependencyCircuitBreaker.RecordSuccess | crates/registry/src/services/circuit_breaker.rs:180-207 | A success step |
| CircuitBreaker.DependencyCircuitBreaker.RecordFailure | crates/registry/src/services/circuit_breaker.rs:210-240 | A failure step |
| CircuitBreaker.RunKeepsInv | crates/registry/src/services/circuit_breaker.rs:169-273 | In every run the failure count is the number of failures since the last success in the current window, and neither counter exceeds its threshold |
| CircuitBreaker.WindowTumbles | crates/registry/src/services/circuit_breaker.rs:243-255 | The failure window starts anew exactly with the first operation in the closed state that comes more than its length later |
| CircuitBreaker.OpensIff | crates/registry/src/services/circuit_breaker.rs:210-240 | A failure opens the closed circuit iff the unbroken failures in its window reach the threshold |
| CircuitBreaker.OnlyFailuresOpen | crates/registry/src/services/circuit_breaker.rs:169-207 | Nothing else opens it |
| CircuitBreaker.OpeningHasItsFailures | crates/registry/src/services/circuit_breaker.rs:210-240 | Whenever it opens, the last threshold-many recorded calls were failures spanning at most the failure window |
| CircuitBreaker.BurstAcrossRestartStaysClosed | crates/registry/src/services/circuit_breaker.rs:243-255 | The converse fails: enough failures within a window's length on both sides of a restart leave it closed |
| CircuitBreaker.OpenHasBeginning | crates/registry/src/services/circuit_breaker.rs:210-273 | An open circuit has stood open since a recorded failure, at whose time it was opened |
| CircuitBreaker.RefusedIffRecentlyOpened | crates/registry/src/services/circuit_breaker.rs:169-273 | Calls are refused iff the circuit stands open since a failure no more than the recovery timeout ago |
| CircuitBreaker.ClosesIff | crates/registry/src/services/circuit_breaker.rs:180-207 | After the recovery timeout and without a failure, the circuit closes iff the successes recorded since reach the threshold, and is half-open until then |
| CircuitBreaker.FailedProbeRefuses | crates/registry/src/services/circuit_breaker.rs:228-235 | A failure recorded while it is probed opens it anew: calls are refused for exactly the recovery timeout from then on |
| Retry.WithRetry | crates/sdk/src/retry.rs:34-84 | Returns the first success or permanent error, otherwise the last transient one after `max_attempts` + 1 calls, with no further call; the time slept is the sum of the delays; the wrap of the 32-bit sum |
| Retry.BackoffIsExponential | crates/sdk/src/config.rs:182-190 | No first delay; then the initial one, and each uncapped delay is the multiplier times the one before while the exponent fits |
| Retry.DelayIsCapped | crates/sdk/src/config.rs:190-202 | A delay is the uncapped one or the maximum, whichever is less, times the draw if there is jitter |
| Retry.DelaysNondecreasing | crates/sdk/src/config.rs:182-202 | Without jitter a validated configuration never waits less for a later attempt |
| Retry.DelayBounded | crates/sdk/src/config.rs:182-202 | With or without jitter no delay is negative or exceeds the maximum |
| Retry.SleepBounded | crates/sdk/src/config.rs:163-202 | The total sleep is at most `max_attempts` times `max_delay` |
| SignatureCodec.Base64Iff | crates/registry/src/handlers/agents.rs:356-361 | The base64url reading of a text is a byte string iff the text is that string's unpadded encoding |
| SignatureCodec.HexIff | crates/registry/src/handlers/agents.rs:362-364 | The hexadecimal reading is a byte string iff the text, in lower case, is its encoding |
| SignatureCodec.Base64OfSextets | crates/registry/src/handlers/agents.rs:356-361 | Each character of the encoding is that of its sextet in the alphabet of section 5 of RFC 4648, and bytes are split three at a time |
| SignatureCodec.GroupsAreNumbers | crates/registry/src/handlers/agents.rs:356-361 | A group's bytes and sextets are the same number, the first most significant, with zero bits after a short last group |
| SignatureCodec.HexOfBytes | crates/registry/src/handlers/agents.rs:362-364 | Each byte is written as two digits of section 8 of RFC 4648, the high one first |
| SignatureCodec.ReadingsDisjoint | crates/registry/src/handlers/agents.rs:356-365 | No text is a signature under both readings |
| SignatureCodec.DeserializeIff | crates/registry/src/handlers/agents.rs:351-367 | The decoder returns a 64-byte signature iff the text is one of its two encodings |

## Left out

- Verifier.RunStaysCoherent: handlers do not overlap and Redis writes succeed; overlapping handlers and lost writes are the subject of `Protocol` and `Revocation`.
- Tokens.TokenService.IssueToken: assumes that the second of its two clock readings is not before the first, as spacing needs; for calls that do not overlap. Overlapping ones are the subject of `Issuance`.
- Tokens.TokenService.RevokeToken: the reply "unexpected revocation failure" needs a row that another handler changes in between, so it does not arise here.
- Tokens.RepeatReturnsSameToken: for calls that do not overlap and clocks that do not go back, as the idempotency search is not atomic with the insert.
- Grants.GrantService.RequestGrant: for requests that do not overlap, as the count is not atomic with the insert (overlapping ones are the subject of `Requests`); unique-index violations appear only as a failed insert.
- Grants.GrantService.RevokeGrant: uninterrupted; an approval between its UPDATE and its read is the subject of `Withdrawal`.
- Requests.OvershootIsBounded: refused requests and those answered with an existing grant end at once, and that the bound can be reached is not shown.
- Provenance.AllowedIsProvenanced: for tokens issued through the grant lookup; a request that carries all issuance fields itself bypasses the grant row. Grant creation enters the interleaved machine as one insert of any pending row.
- AuditChain.SameHeadSameDigests: over content digests; fields are hashed without separators, so different fields may give the same bytes. Digests and hashes are symbolic terms, equal only for equal inputs, and no computed hash is the genesis.
- AuditChain.EditBreaksAtRow: columns that are not hashed (error message, source address, user agent, request and trace identifiers, signature) can change unnoticed.
- AuditChain.RecordedChainsVerifyIff: for recordings that do not overlap within one process lifetime; event data is taken to read back from the database as it was hashed.
- AuditChain.VerifyAgentAuditChain: ties in `created_at` are not modelled; rows come back in the order in which they were recorded.
- Archiver.RowsAreConserved: for uploads that are atomic, one archiver at a time (the advisory lock) and partitions created only by the archiver; the local file store writes without that atomicity. A row goes to the month of the day on which it is inserted, so a transaction that is still open when its month is archived is not modelled. Rows with equal creation times are exported in the order of their insertion. Parquet is a container that keeps the rows it is given.
- Partitions.PartitionsToCreate: for dates that the calendar type can represent; the library stops the program outside them.
- InFlight.InterleavingsAreSafe: for fewer than 2^64 steps, so that the 64-bit word cannot wrap.
- SlidingWindow.LimiterIsExact: one window length per key, fresh request ids and one clock that does not go back; callers with different clocks are not modelled.
- Retry.WithRetry: the sum `max_attempts + 1` wraps as in an optimised build; a build with overflow checks stops the program instead.
- Retry.DelayBounded: delays are real numbers, so floating-point rounding, infinities and a NaN multiplier are not modelled.
- Retry.SleepBounded: delays are real numbers as well, and each sleep takes as long as it was asked to.
- Retry.DelaysNondecreasing: delays are real numbers, so floating-point rounding, infinities and a NaN multiplier are not modelled.
- Reads see the primary database; replica lag, deletion of grants and tokens by cascading and SQL itself are not modelled.
- Redis, S3 and the local file store are maps with the atomicity the code relies on; writing a token hash with its TTL is one step, and an incomplete hash counts as a miss, as the verifier treats a failed read.
- Proofs of possession and token signatures: the verifier looks only at whether a proof and a thumbprint are present, and so does the model. Ed25519, SHA-256, key management and WebAuthn are not part of it.
- Behavioral envelopes are opaque values; capability validation, time windows and trust limits are not modelled.
- `is_revoked`, idempotency keys, one-time passwords, health checks, metrics and log counters are not modelled.
- HTTP routing, JSON, tracing, configuration loading, the approval UI, the MCP server, the SDK clients and bindings, demo agents and load tests are not part of this model.
- The SDK's rate limiter and its parsing of retry headers, and the registry's start-up partition, are not part of this model.
- Partition names are texts of ASCII characters; slicing a name inside a multi-byte character is not modelled.
