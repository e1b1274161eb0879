# OpenOJ: a verified model of the judge's control spine, pipeline and codecs

This project models the part of OpenOJ where correctness is spread over several pieces of code, and proves what the
pieces promise together.

* **The durable control spine.** Evaluations, attempts and tasks live in three tables. Create, claim, renew, retry, submit
  and cancel are transactions over them; many nodes, sweepers and cancellers race. `Spine` gives each transaction as a
  function on the tables, with the UNIQUE and CHECK constraints as abort conditions. `SpineInvariant` and `SpineSteps`
  prove the invariant of all reachable stores and the exact commit condition of each transaction; `SpineColumns`,
  `ClaimColumns` and `RecoveryOutcome` say every answer and every written column without the predicates that the
  transactions use. `SpineRuns`, `SpineLifecycle`, `SpineJourney`, `Claims`, `Recovery`, `Sweepers`, `Ownership` and
  `ControlPlane` prove what holds over whole runs, including the three operations that the code splits into two queries. `Store` is the store as it runs: fields that
  statements update inside a transaction, each method proved against its transaction function.
* **The evaluation pipeline and its two validators.** `Pipeline` drives an arbitrary executor and builds the result as it
  goes; `PipelineOutcome` and `PipelineReports` say in one piece what comes out. `Results` holds the domain validator, `WireValidator` the
  separately written wire validator, and both are measured against one plain description of legitimate outcomes.
  `Evaluator`, `Executor`, `ExecutorVerdicts`, `ExecutorOutcome` and `Machine` model the Firecracker executor and its VM
  against any guest reply, transport failure and boot outcome. `Judgement` joins store, executor and control plane from claim to result.
* **The codecs.** `Wire`, `WireRequest`, `WireResult` and `WireDecode` convert requests and results to JSON values and
  back, and `WireSpelling` says which values decode to what; `GuestText`, `Guest` and `GuestChannel` hold the guest
  messages, frames and the receiving side, and `GuestSpelling` says which values decode to which message; `Tokens` and
  `TokenPatterns` prove the hand-written token scanners and parsers against their patterns.

How the code is represented:

* A run is a sequence of commands; any interleaving of any number of clients is one. A transaction is atomic; a
  violated constraint aborts it. Queries that the code issues separately (replay lookup and claim, owner read and submit,
  scan and retry) are separate steps with arbitrary steps in between.
* Every identifier, key and token is an `Id` with its text. Stored payload bytes are the encoded value itself, so the
  encoding is taken to be injective. Whether a payload passes schema and size checks is the command's input `encodes`;
  the recovery loop takes the successor of a stored request to encode.
* `SKIP LOCKED` is an arbitrary set of skipped tasks in the claim command. The database's text order is the order of
  character values.
* Time, generated identifiers, guest replies, boot outcomes and the upper-case mapping are inputs. Freshness of generated
  values is a hypothesis where a theorem needs it (`Recovery.Fresh`, `Sweepers.PlayFresh`, `Ownership.ClaimsOwnToken`).
* JSON text is a pair of functions of which the second inverts the first on the values of messages
  (`GuestChannel.Faithful`). JSON object names are
  the constructors of `JsonValues.Name`. Widths of integers are explicit where the code reads, writes or adds them.

Where the code and its documentation or intent part ways, the model follows the code:

* The design (docs/superpowers/specs/2026-08-17-p0c-judge-control-design.md:118) says an expired lease is not extended;
  the renewal does not test the expiry (crates/openoj-storage/src/lease.rs:130-147). `SpineRuns.HolderRenewsExpiredOrNot`
  states exactly when a holder's renewal is accepted.
* Renewing a queued evaluation reports corrupt data, because its lease columns are null (`SpineRuns.CorruptDataExactly`).
* The database refuses capability lists that the domain accepts: empty, unsorted, or with an underscore or colon
  (`Tokens.DatabaseAcceptsIff`, `SpineJourney.CreateStoresIff`, `SpineJourney.UnstorableRequests`).
* The parser of media types takes parts that begin with a punctuation character; the schema does not
  (`TokenPatterns.MediaTypeBeyondSchema`).
* The replay lookup does not select by node, so another node's use of an operation id can answer it
  (`Claims.ReplayIsSureIff`).
* The submit transaction checks the token and not the node. `Ownership.CommittedProvenanceIff` says when the committed
  provenance is the holder's, `Ownership.SharedTokenBreaksOwnership` shows a run in which it is not.
* The recovery loop stops with corrupt data at the first expired lease whose attempt number is the largest
  (`Recovery.RecoverEffect`); the comparison of request semantics ignores the request id.
* A failed evaluation's task ends as completed (crates/openoj-storage/src/terminal.rs:87-91).
* Guest decoding bounds acknowledgement kinds and diagnostic codes that encoding lets pass, and skips the name rules that
  encoding applies (`GuestChannel.FrameRoundTrip`, `GuestChannel.DecodedEncodes`).
* A guest diagnostic between 2048 characters and 4096 bytes is legal on the channel and fails the stage on the host
  (`Evaluator.LongDiagnosticFails`, `Evaluator.HostBoundIsSmaller`, `ExecutorVerdicts.LongDiagnosticFailsStage`).

## Model

| member | source | states |
|---|---|---|
| SpineSteps.StepKeepsInv | crates/openoj-storage/src/lease.rs:155-463 | Every transaction, committed or aborted, keeps the store invariant: one current attempt per evaluation, the five aligned state triples, expired predecessors, gap-free numbers, lease columns, result iff terminal, unique keys |
| SpineSteps.ReachableInv | crates/openoj-storage/migrations/202608170001_p0b_control_spine.sql:51-147 | The invariant holds in every store that any interleaving of all commands reaches from the empty one |
| SpineSteps.AbortLeavesStore | crates/openoj-storage/src/lease.rs:167-247 | A transaction that answers an error leaves every table as it found it, in any store |
| SpineSteps.CreateEffect | crates/openoj-storage/src/create.rs:6-65 | A create commits exactly when references agree, the identifiers and keys are free and the row checks hold; it answers Ok exactly then or as the replay of an equal request |
| SpineSteps.RetryEffect | crates/openoj-storage/src/lease.rs:249-343 | A retry commits exactly when the current attempt is leased and expired and the request is its next number with equal semantics and fresh identifiers; the new store is spelled out |
| SpineSteps.ClaimEffect | crates/openoj-storage/src/lease.rs:197-247 | A claim of the queued current attempt is granted exactly when the clock is not behind the row and the operation is unused by the node; otherwise it aborts as unavailable |
| SpineSteps.RenewEffect | crates/openoj-storage/src/lease.rs:86-153 | When a renewal continues, answers cancel or reports corrupt data, and that it then changes expiry and time only |
| SpineSteps.SubmitEffect | crates/openoj-storage/src/terminal.rs:7-110 | A submission writes a result exactly when it names the leased current attempt, holds its token, is in time and matches the identity; it answers Ok exactly then or for the stored result with the same key |
| SpineSteps.CancelEffect | crates/openoj-storage/src/terminal.rs:158-248 | A cancellation writes exactly for the queued or leased current attempt with the matching identity and a free key, without asking for a lease |
| SpineSteps.RunEvolves | crates/openoj-storage/src/lease.rs:206-235 | Over any run rows are never removed, identities and payloads never change, closed rows are frozen, a lease keeps its holder and token, references only grow |
| SpineColumns.CreateDecides | crates/openoj-storage/src/create.rs:6-65 | For all inputs on any reachable store: which of its answers a create gives, in terms of the rows and registered references, and every column it writes |
| SpineColumns.RetryDecides | crates/openoj-storage/src/lease.rs:249-343 | For all inputs: which answer a retry gives; it is accepted only for a request that equals the expired payload but for request id, attempt id, number and key; every column it writes |
| SpineColumns.RenewDecides | crates/openoj-storage/src/lease.rs:86-153 | For all inputs: which answer a renewal gives by the state, node, token and clock columns, and that it writes expiry and time alone |
| SpineColumns.SubmitDecides | crates/openoj-storage/src/terminal.rs:7-110 | For all inputs: which answer a submission gives; an accepted one writes the three states that its status names (completed, failed with a completed task, cancelled) and is shown to the caller in that state |
| SpineColumns.CancelDecides | crates/openoj-storage/src/terminal.rs:158-248 | For all inputs: which answer a cancellation gives and every column it writes; the lease columns play no part |
| SpineColumns.StatesTellStatus | crates/openoj-storage/src/terminal.rs:86-91 | In every reachable store the states of evaluation, current attempt and task are those of the stored result's status, or queued or leased throughout if there is none |
| SpineColumns.StatusShows | crates/openoj-storage/src/read.rs:5-56 | A status read of a stored evaluation shows the state column under its own name, the matching attempt state, the current attempt and its number, and whether there is a result |
| SpineColumns.AttemptsKeepTheWork | crates/openoj-storage/src/lease.rs:465-476 | In every reachable store all attempts of an evaluation equal its first request outside request id, attempt id, number and key |
| SpineRuns.StatusIsConsistent | crates/openoj-storage/src/read.rs:5-56 | In every reachable store a status read finds each stored evaluation with agreeing evaluation, attempt and result state, and never corrupt data |
| SpineJourney.EveryRequestCanFinish | crates/openoj-storage/src/terminal.rs:7-110 | Every request that the database can store is created, claimed, submitted and ends with its result, at any times that respect the lease; so the theorems speak of stores that exist |
| SpineRuns.CorruptDataExactly | crates/openoj-storage/src/lease.rs:124-129 | The only commands answered with corrupt data in a reachable store: a payload that does not encode, and the renewal of a queued evaluation |
| SpineRuns.ReplacedAttemptIsFenced | crates/openoj-storage/src/terminal.rs:59-84 | Once an attempt is replaced its rows never change again, and no later submit, renew, cancel, create or retry that names it changes any later store; a submit for it is refused |
| SpineRuns.SubmitExcludesRetry | crates/openoj-storage/src/lease.rs:314-319 | At no instant can both a submission and a replacement of the same lease commit |
| SpineRuns.HolderRenewsExpiredOrNot | crates/openoj-storage/src/lease.rs:130-147 | The holder renews at exactly the instants from creation on that leave room for the duration, expired or not, and a replacement at that instant is then refused |
| SpineRuns.FirstTerminalWins | crates/openoj-storage/src/terminal.rs:36-48 | Every continuation of a run leaves a terminal evaluation, its attempt, its task and its status as the first result left them |
| SpineRuns.AtMostOneTerminalWrite | crates/openoj-storage/src/terminal.rs:190-202 | In any run at most one step writes a terminal result into an evaluation, and none once it has one |
| SpineRuns.CreateReplays | crates/openoj-storage/src/create.rs:14-39 | An accepted create is accepted by every later store, with any time, changes nothing and reads the same evaluation |
| SpineRuns.RetryReplays | crates/openoj-storage/src/lease.rs:257-282 | An accepted retry is accepted by every later store without a second replacement |
| SpineRuns.SubmitReplays | crates/openoj-storage/src/terminal.rs:36-46 | An accepted submission is accepted by every later store with any token and time, changes nothing and answers the same snapshot |
| SpineRuns.CancelReplays | crates/openoj-storage/src/terminal.rs:190-200 | An accepted cancellation is accepted by every later store, changes nothing and answers the same snapshot |
| SpineRuns.SameKeyOtherBytes | crates/openoj-storage/src/terminal.rs:38-47 | A bound key with other bytes is refused without change, with the conflict that fits the operation |
| SpineLifecycle.StepFollowsLifecycle | crates/openoj-domain/src/control.rs:104-169 | Every committed transaction moves each evaluation and attempt row along an edge of the domain transition graphs or not at all; new rows start queued |
| SpineLifecycle.EdgesWrittenOut | crates/openoj-domain/src/control.rs:104-169 | The edges of both transition graphs, written out over the state columns |
| SpineLifecycle.RetriesAreCounted | crates/openoj-storage/src/lease.rs:411-463 | Over any run: leased-to-queued moves, expired attempts and current minus initial attempt number are one count, with no number skipped |
| SpineLifecycle.ReferencesAgree | crates/openoj-storage/src/create.rs:91-217 | The request of any attempt agrees with the registry of every later store, so requests that share a reference id agree on all of its metadata |
| Claims.SelectTaskIsLeast | crates/openoj-storage/src/lease.rs:169-183 | The selected task is the least claimable one by creation time and attempt id, and one is selected whenever one is claimable |
| Claims.ClaimGrants | crates/openoj-storage/src/lease.rs:185-247 | A granted claim hands out the least eligible task, with requirements within the declared set, leased to the caller until now plus duration |
| Claims.NoTaskExactly | crates/openoj-storage/src/lease.rs:179-183 | A claim answers that there is no task exactly when no unlocked task is eligible |
| ClaimColumns.ClaimDecides | crates/openoj-storage/src/lease.rs:155-247 | For all inputs: a claim answers that time or task is missing, or takes the oldest queued attempt whose own request the declared set covers, first name first among equals, and leases it or finds the clock behind or the operation used; every column it writes |
| Claims.OneAttemptPerOperation | crates/openoj-storage/migrations/202608170002_p0c_judge_control.sql:83-85 | However lookups and claims interleave, a node and operation id mark at most one attempt for ever |
| Claims.ReplayReturnsTheLease | crates/openoj-storage/src/lease.rs:36-84 | A replay at any later store returns the same request, node and token, with the renewed expiry, while leased, if no other node used the operation id |
| Claims.ReplayIsSureIff | crates/openoj-storage/src/lease.rs:40-56 | The replay lookup, which does not select by node, is sure to return the lease if and only if no attempt of another node carries the operation id |
| ClaimColumns.ReplayDecides | crates/openoj-storage/src/lease.rs:36-84 | Every possible answer of the replay lookup: nothing exactly if no attempt carries the operation, otherwise what a carrier answers by its node and state columns, and never corrupt data |
| Recovery.RecoverEffect | crates/openoj-storage/src/lease.rs:355-396 | Run alone with fresh ids: one turn per expired lease, success exactly when none is at the largest attempt number, then the saturated count is returned and none is left; every other row is untouched |
| Recovery.RunKeepsConstructed | crates/openoj-domain/src/evaluation.rs:343-380 | Runs of constructed requests store only constructed requests, the hypothesis of the recovery theorem |
| RecoveryOutcome.RecoveryLeavesNoneOverdue | crates/openoj-storage/src/lease.rs:355-396 | Whenever a recovery succeeds, whatever the random source yields: no leased evaluation is left whose lease has run out, each that had one is queued on a new attempt for the same work under the next number, the answer counts exactly these, and every other evaluation is untouched |
| RecoveryOutcome.ScanDecides | crates/openoj-storage/src/lease.rs:359-379 | A scan comes back with nothing exactly if no leased attempt has run out, or the first that did is at the largest number; otherwise with the next request of that first one |
| RecoveryOutcome.LateRetryIsSkipped | crates/openoj-storage/src/lease.rs:380-393 | Whatever happened since the scan, the retry either replaces or is refused with an error that the loop skips, unless somebody else used the drawn key |
| Sweepers.ScanThenRetry | crates/openoj-storage/src/lease.rs:359-380 | With any steps between scan and retry, the retry replaces the scanned attempt or nothing, and only while it is still current and expired |
| Sweepers.EachLeaseHasOneSuccessor | crates/openoj-storage/src/lease.rs:302-319 | For any interleaving of sweepers and other traffic the replacements name distinct attempts, each gets its one successor, and nothing else expires |
| Sweepers.CountsAreReplacements | crates/openoj-storage/src/lease.rs:380-395 | With fresh keys each sweeper reports the saturated number of replacements it made itself |
| Sweepers.SumOfCountsIsReplacements | crates/openoj-storage/src/lease.rs:357-395 | With fresh keys the reports of all sweepers add up to the replacements that sweepers made |
| Ownership.HolderNeverChanges | crates/openoj-storage/src/lease.rs:206-218 | Once claimed, an attempt keeps its node and token for ever |
| Ownership.SameAttemptKeepsOwnership | crates/openoj-storage/src/terminal.rs:112-144 | If the current attempt is the same at owner read and transaction, a committed result carries the provenance of the lease holder |
| Ownership.CommittedProvenanceIff | crates/openoj-storage/src/terminal.rs:65-84 | For every run whose claims use their own tokens, a submission commits on a lease of the node its token was issued to; so the committed provenance is the holder's if and only if it names that node |
| Ownership.OwnTokensKeepOwnership | crates/openoj-storage/src/terminal.rs:65-70 | If tokens are used only by the node they were issued to, every interleaving commits the holder's own provenance |
| Ownership.SharedTokenBreaksOwnership | crates/openoj-storage/src/terminal.rs:119-142 | With another node's token: for every lease that can be replaced an interleaving exists in which the owner read passes and the commit credits another node than the holder |
| ClaimColumns.JudgeSubmitDecides | crates/openoj-storage/src/terminal.rs:112-144 | For all inputs: another provenance is an identity conflict, an unknown evaluation or another node a stale lease, a null node unavailable, all without change; only the holder's call is a submission |
| ClaimColumns.JudgeSubmitCredits | crates/openoj-storage/src/terminal.rs:112-144 | Whenever a judge submission changes the store, caller, provenance and node column are one node, which holds the lease with this token before and is credited after |
| Store.PostgresEvaluationStore.CreateEvaluation | crates/openoj-storage/src/create.rs:6-65 | The statement-by-statement create computes the specified transaction and answer |
| Store.PostgresEvaluationStore.ClaimTask | crates/openoj-storage/src/lease.rs:155-247 | The statement-by-statement claim computes the specified transaction and lease |
| Store.PostgresEvaluationStore.RenewLease | crates/openoj-storage/src/lease.rs:86-153 | The renewal computes the specified transaction and directive |
| Store.PostgresEvaluationStore.RetryExpired | crates/openoj-storage/src/lease.rs:249-343 | The retry with its three updates and two insertions computes the specified transaction and answer |
| Store.PostgresEvaluationStore.SubmitResult | crates/openoj-storage/src/terminal.rs:7-110 | The submission computes the specified transaction and answer |
| Store.PostgresEvaluationStore.CancelEvaluation | crates/openoj-storage/src/terminal.rs:158-248 | The cancellation computes the specified transaction and answer |
| Store.PostgresEvaluationStore.RecoverExpired | crates/openoj-storage/src/lease.rs:355-396 | The recovery loop computes the specified recursion over scans and retries, and terminates |
| Store.PostgresEvaluationStore.JudgeClaimTask | crates/openoj-storage/src/lease.rs:12-34 | A known operation is answered by the replay alone; only an unknown one claims |
| Store.PostgresEvaluationStore.JudgeSubmitResult | crates/openoj-storage/src/terminal.rs:112-144 | Provenance first, then the owner, then the submission; a null owner column is unavailable |
| ControlPlane.NewNodePolicy | crates/openoj-application/src/control.rs:57-77 | The allowlist is built exactly from distinct nodes with non-empty duplicate-free capability lists; the first offending entry decides the error |
| ControlPlane.AuthorizedIff | crates/openoj-application/src/control.rs:86-107 | Default deny: only a known node that declares a non-empty duplicate-free part of its allowlist passes |
| ControlPlane.NegotiateDecides | apps/openoj-control-plane/src/lib.rs:91-105 | For all inputs: which answer a negotiation gives, in the order version, identity, declaration, allowlist |
| ControlPlane.RunStaysWithinPolicy | apps/openoj-control-plane/src/lib.rs:91-109 | In any store reached with every claim negotiated, every lease ever held is within its node's allowlist |
| ControlPlane.JudgeControlService.Claim | apps/openoj-control-plane/src/lib.rs:183-227 | A lease handed out, new or replayed, is the caller's and within its allowlist; a new one is within the declared set |
| Tokens.ValidateLowerToken | crates/openoj-domain/src/value.rs:150-199 | The one-pass scanner accepts exactly the strings of bounded length in the schema pattern |
| Tokens.LowerTokenIsGrammar | schemas/openoj/v0alpha1/open-evaluation.schema.json:210-215 | The scanner automaton accepts exactly the language of the schema pattern |
| Tokens.ValidRequiredCapabilities | crates/openoj-storage/migrations/202608170002_p0c_judge_control.sql:37-62 | The database loop accepts exactly the bounded, strictly increasing lists of strings in its pattern |
| Tokens.DatabaseAcceptsIff | crates/openoj-storage/migrations/202608170002_p0c_judge_control.sql:51-59 | Of the lists that the domain accepts, the database accepts exactly the non-empty, strictly increasing ones without underscore and colon |
| Tokens.DatabaseRefusesDomainCapabilities | crates/openoj-storage/migrations/202608170002_p0c_judge_control.sql:71-74 | Three lists whose entries the domain accepts and the database check refuses |
| TokenPatterns.OpaqueIsPattern | crates/openoj-domain/src/value.rs:11-39 | Identifiers and keys are exactly the bounded strings of the schema pattern |
| TokenPatterns.DigestIsPattern | crates/openoj-domain/src/value.rs:115-137 | Digests are exactly the strings of the schema pattern |
| TokenPatterns.DiagnosticCodeIsPattern | crates/openoj-domain/src/value.rs:252-277 | Diagnostic codes are exactly the bounded strings of the schema pattern |
| TokenPatterns.MediaTypeBeyondSchema | crates/openoj-domain/src/artifact.rs:17-65 | Of the media types that the parser takes, the schema accepts exactly those whose two parts begin with a letter or digit |
| SpineJourney.CreateStoresIff | crates/openoj-storage/src/create.rs:67-89 | With fresh identifiers and agreeing references a create stores a domain-valid request exactly when its capabilities are non-empty, sorted and free of underscore and colon |
| SpineJourney.UnstorableRequests | crates/openoj-domain/src/evaluation.rs:343-380 | Each of the three lists turns any valid request into one that its constructor accepts and no create in any store takes |
| Domain.NewEvaluationRequest | crates/openoj-domain/src/evaluation.rs:343-380 | The constructor with its duplicate-finding set computes the specified outcome |
| Results.DomainValidatorExactly | crates/openoj-domain/src/evaluation.rs:1127-1249 | The domain validator accepts exactly the legitimate outcomes, described without its search for positions |
| Results.NewResultDecides | crates/openoj-domain/src/evaluation.rs:1044-1079 | For any parts: which answer the result constructor gives, in the order stages, bounds, digest, outcome |
| Results.FoldExactly | crates/openoj-domain/src/evaluation.rs:539-566 | The incremental checked additions succeed exactly when the one-shot totals are in bounds, and give the totals |
| Pipeline.EvaluationRun.Record | crates/openoj-application/src/lib.rs:205-298 | Recording a stage computes the specified progress, with skipped reports after a terminal stage |
| Pipeline.Evaluate | crates/openoj-application/src/lib.rs:150-177 | The stage loop computes the specified evaluation |
| PipelineOutcome.EvaluateExactly | crates/openoj-application/src/lib.rs:150-324 | For every request and executor behaviour: success exactly when the answers up to the stop can be recorded and the totals are in bounds, with the expected result; a failure never comes from a missing decision or the result constructor |
| PipelineReports.EvaluationDecides | crates/openoj-application/src/lib.rs:150-324 | For every request and executor behaviour: which answer the pipeline gives, with the result written out report by report, the usage as a sum, and the first answer that cannot be recorded to blame otherwise |
| PipelineOutcome.EvaluatedIsValid | crates/openoj-application/src/lib.rs:379-400 | Whatever the pipeline returns passes both validators, sums its own usage and survives the wire |
| WireRequest.RequestRoundTrip | crates/openoj-protocol/src/lib.rs:362-498 | For every request value, JSON and back returns it exactly when the constructors accept it |
| WireRequest.RequestIsValid | crates/openoj-protocol/src/lib.rs:362-422 | Whatever decodes is a request that the constructors accept |
| WireSpelling.RequestDecodesExactly | crates/openoj-protocol/src/lib.rs:362-498 | Any JSON value decodes to a request exactly when it spells it field by field and the constructors accept the request |
| WireResult.ResultRoundTrip | crates/openoj-protocol/src/lib.rs:500-575 | For every result value, JSON and back returns it exactly when its parts are valid and its constructor accepts it, the digest equality included |
| WireResult.ReportRoundTrip | crates/openoj-protocol/src/lib.rs:577-595 | A stage report with nested diagnostics and evidence returns exactly when it is valid |
| WireResult.EvidenceRoundTrip | crates/openoj-protocol/src/lib.rs:621-632 | An evidence reference returns exactly when it is valid, with and without an artifact |
| WireResult.ResultIsValid | crates/openoj-protocol/src/lib.rs:521-575 | Whatever decodes is a valid result |
| WireSpelling.ResultDecodesExactly | crates/openoj-protocol/src/lib.rs:500-745 | Any JSON value decodes to a result exactly when it spells it, down to each stage's diagnostics and evidence, and the result is valid |
| WireSpelling.EncodingSpells | crates/openoj-protocol/src/lib.rs:453-520 | Every valid request and result is encoded as the value that spells it |
| WireValidator.ValidateResultSemantics | crates/openoj-protocol/src/lib.rs:198-250 | The validator with its two loops computes the specified verdict |
| WireValidator.ValidateAggregateUsage | crates/openoj-protocol/src/lib.rs:252-284 | The four-counter loop computes the specified comparison, overflow included |
| WireValidator.ValidateResultStages | crates/openoj-protocol/src/lib.rs:286-329 | The status-collecting loop computes the specified check |
| WireValidator.RecomputesTotals | crates/openoj-protocol/src/lib.rs:256-273 | The wire recomputation is the one-shot total and fails exactly when a total leaves 64 bits |
| WireValidator.WireValidatorExactly | crates/openoj-protocol/src/lib.rs:198-360 | The wire validator accepts a converted result exactly when order, outcome, score, provenance and aggregate usage are right |
| WireValidator.ValidatorsAgree | crates/openoj-domain/src/evaluation.rs:1044-1079 | On valid parts the wire validator accepts exactly what the domain constructor accepts and whose usage is the total |
| WireDecode.AcceptedDecodes | crates/openoj-protocol/src/lib.rs:130-134 | Every JSON value that the wire validator accepts decodes exactly when its parts parse: the cross-field rules never refuse it again |
| GuestText.Truncate | crates/openoj-guest-protocol/src/lib.rs:556-565 | Walking back to a character boundary yields the longest prefix within the byte bound |
| Guest.NewGuestDiagnostic | crates/openoj-guest-protocol/src/lib.rs:195-205 | The message is the longest prefix in bounds and the flag says whether anything was cut |
| GuestText.SortedUniqueIsIncreasing | crates/openoj-guest-protocol/src/lib.rs:567-570 | Comparing a list with its set accepts exactly the strictly increasing lists |
| GuestText.BigEndianInverts | crates/openoj-guest-protocol/src/lib.rs:348-351 | The length prefix reads back |
| GuestText.BigEndianOrders | crates/openoj-guest-protocol/src/lib.rs:348-351 | The most significant byte comes first: prefixes compare as the lengths do |
| GuestText.WidthIsLeast | crates/openoj-guest-protocol/src/lib.rs:556-565 | The byte length of a character is the least number of UTF-8 bytes that can carry it |
| Guest.ValueRoundTrip | crates/openoj-guest-protocol/src/lib.rs:354-545 | For every message that encodes, its value decodes to it exactly when it keeps the bounds that only the decoder checks |
| GuestSpelling.MessageDecodesExactly | crates/openoj-guest-protocol/src/lib.rs:466-545 | Any JSON value decodes to a message exactly when it spells it field by field and the message is within the decoder's bounds |
| GuestSpelling.EncodesExactly | crates/openoj-guest-protocol/src/lib.rs:354-443 | Which messages encode, with names that contain no slash, backslash or double dot, and that the value spells the message |
| GuestChannel.FrameRoundTrip | crates/openoj-guest-protocol/src/lib.rs:321-464 | The same for frames, whatever bytes follow |
| GuestChannel.DecodedEncodes | crates/openoj-guest-protocol/src/lib.rs:466-545 | Every decoded message keeps all bounds of the encoder except the name rules |
| GuestChannel.DecodeSkipsNameRules | crates/openoj-guest-protocol/src/lib.rs:504-507 | A name with a slash decodes and does not encode |
| GuestChannel.GuestChannel.Recv | crates/openoj-firecracker/src/vsock.rs:123-140 | The buffer-filling receive computes the specified message and leaves the specified rest |
| GuestChannel.ReceivesInOrder | crates/openoj-firecracker/src/vsock.rs:123-140 | Repeated receives over any concatenation of frames yield the messages in order and leave what follows untouched |
| GuestChannel.OversizedIsRefused | crates/openoj-firecracker/src/vsock.rs:192-200 | A declared length beyond the bound is refused after the four length bytes |
| GuestChannel.CutFrameFails | crates/openoj-firecracker/src/vsock.rs:123-140 | A stream that ends anywhere inside a frame is an error and is used up |
| GuestChannel.FramesRefused | crates/openoj-guest-protocol/src/lib.rs:445-464 | What frame decoding refuses before it looks at the text: a cut frame and a length beyond the bound |
| Evaluator.StageOutputExactly | crates/openoj-evaluator/src/lib.rs:150-186 | A guest output is accepted exactly when all parts convert; it succeeds exactly on exit code zero |
| Evaluator.DiagnosticsExactly | crates/openoj-evaluator/src/lib.rs:51-63 | Guest diagnostics convert exactly when every code is a host code and every message fits 2048 characters |
| Evaluator.StdoutEvidenceExactly | crates/openoj-evaluator/src/lib.rs:75-115 | Evidence is built exactly for 64 hexadecimal digits and a bounded size; the derived identifiers always parse |
| Evaluator.LongDiagnosticFails | crates/openoj-evaluator/src/lib.rs:51-63 | Every stage output that the guest codec carries in both directions and that holds a diagnostic beyond 2048 characters is refused by the host |
| Evaluator.HostBoundIsSmaller | crates/openoj-guest-protocol/src/lib.rs:43-47 | Of otherwise valid outputs with one diagnostic of n letters the codec carries all up to 4096 and the host accepts exactly those up to 2048 |
| ExecutorVerdicts.LongDiagnosticFailsStage | apps/openoj-judge-node/src/firecracker_executor.rs:287-376 | Such a reply fails the stage and ends the attempt's VM |
| Executor.FirecrackerExecutor.RunGuestStage | apps/openoj-judge-node/src/firecracker_executor.rs:247-295 | The guest stage computes the specified state and outcome for any guest and transport behaviour |
| Executor.FirecrackerExecutor.ExecuteStage | apps/openoj-judge-node/src/firecracker_executor.rs:342-377 | The stage execution computes the specified state and outcome |
| Executor.FirecrackerExecutor.Execute | apps/openoj-judge-node/src/firecracker_executor.rs:313-323 | An attempt computes the specified state and result |
| Executor.AttemptReleasesItsVm | apps/openoj-judge-node/src/firecracker_executor.rs:178-323 | For every request and outside behaviour an attempt launches at most one VM and leaves every VM released exactly once, with its at most one process killed |
| Executor.AttemptsReleaseTheirVms | apps/openoj-judge-node/src/firecracker_executor.rs:297-323 | The same over any sequence of attempts: no more VMs than attempts, each released once, no process left |
| ExecutorVerdicts.VerdictsAreExplained | apps/openoj-judge-node/src/firecracker_executor.rs:342-377 | For any host failure and any replies that the guest decoder lets through: every verdict is explained by the exit codes of this attempt; accepted needs a build and a run that exit zero; wrong answer is unreachable; the only errors are a missing capability and totals out of bounds |
| ExecutorOutcome.AttemptDecides | apps/openoj-judge-node/src/firecracker_executor.rs:178-377 | For every outside world: status, verdict, score and exit codes of an attempt as boot, channel, negotiation and guest replies say; accepted exactly if the VM starts, the guest agrees and both outputs are accepted with exit zero; without an agreeing guest no output is taken |
| ExecutorVerdicts.ExecutedIsEvaluated | apps/openoj-judge-node/src/firecracker_executor.rs:313-323 | An attempt's result is the pipeline's over the attempt's own answers, so the pipeline theorems apply to it |
| Judgement.ExecutedResultIsOwn | apps/openoj-judge-node/src/firecracker_executor.rs:313-336 | A result of the executor is valid, passes the wire validator, is about the leased request and names the node |
| Judgement.JudgedResultIsStored | crates/openoj-storage/src/terminal.rs:112-144 | From claim to result: whatever happens in the store and the guest meanwhile, if the attempt still holds its lease and the operation id is free, the judge submission in time is accepted, and the evaluation holds exactly this result for ever, credited to the lease holder |
| ExecutorVerdicts.RunsTheScript | apps/openoj-judge-node/src/firecracker_executor.rs:313-323 | The stateful run is a run of the pipeline over the executor's own script of answers |
| Machine.Lifecycle.Teardown | crates/openoj-firecracker/src/lifecycle.rs:199-223 | Every phase but the finished one accepts a teardown request and counts it |
| Machine.Lifecycle.Transition | crates/openoj-firecracker/src/lifecycle.rs:169-185 | A transition happens exactly along the table |
| Machine.AllowedMoves | crates/openoj-firecracker/src/lifecycle.rs:169-185 | The table allows one step along the life of a VM, or termination from any phase with a process |
| Machine.FirecrackerVm.Bootstrap | crates/openoj-firecracker/src/machine.rs:74-106 | The bootstrap computes the specified state for any spawn, socket and control-request outcome, also when it is abandoned while waiting |
| Machine.BootstrapDecides | crates/openoj-firecracker/src/machine.rs:74-106 | For any handle and host behaviour: a bootstrap succeeds exactly if the handle is new, production has its jailer, the process spawns, the socket appears and all five requests go through; any other end says what is held, in which phase and for which reason |
| Machine.FirecrackerVm.Terminate | crates/openoj-firecracker/src/machine.rs:303-320 | Termination always succeeds and computes the specified state |
| Machine.FirecrackerVm.Drop | crates/openoj-firecracker/src/machine.rs:323-334 | Dropping computes the specified state |
| Machine.ReleaseDecides | crates/openoj-firecracker/src/machine.rs:303-334 | What terminating and dropping leave of any handle, field by field |
| Machine.ProcessIsOwned | crates/openoj-firecracker/src/machine.rs:74-334 | Over any calls, abandoned bootstraps included, at most one process is spawned, a held one asks for teardown, dropping or terminating kills it, and no later call changes a terminated handle |

## Left out

- PostgreSQL internals (snapshots, row locks, deadlock detection, connection pools): each transaction is one atomic step.
- The format and size CHECK constraints of the tables: every constructed request and result meets them.
- The JSON text grammar, the schema engine and the generated wire types: JSON text is an abstract inverse pair, and the
  outcome of schema validation is an input.
- The P0-B claim entry point without capabilities is modelled as a claim with no declared set; leases it grants are
  outside the allowlist theorem, which is about runs whose claims were all negotiated.
- SHA-256, random sources and clocks: their values are inputs.
- The backfill of old rows in the second migration and the capability extraction it uses.
- The lease schedule rule (renewal at most half the lease) and the other plain range-check constructors.
- The worker loop of the judge core, command-line and configuration parsing, error texts and status-code mapping.
- Socket paths, process arguments, HTTP to the VM's control interface, timeouts and sleeps: each is an arbitrary success
  or failure.
- Abandoning a termination between its steps: a termination that starts runs to its end.
- The CONNECT handshake and the readiness retry of the guest channel: a channel opens or it does not.
- Partial reads before a channel failure: a stream that ends early is used up.
- FormatError kinds of the domain parsers other than the token scanner: a refused text is one error.
