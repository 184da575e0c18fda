# ProjectPipeline: verified core

A Dafny model of the parts of ProjectPipeline that keep state, run fixpoints or encode data, with
proofs of what they guarantee over whole runs and over all inputs. `dafny verify dfyconfig.toml`
checks everything.

| file | models |
|---|---|
| `Revocation.dfy` | the write-ahead revocation of a credential envelope, with crashes and retries |
| `Audit.dfy` | the audit of items that claim to be done: local judgement, shrinking to a closed set, verdict rows |
| `Circuit.dfy` | the circuit breaker of one provider |
| `Performance.dfy` | grouping and rounded means of performance observations |
| `Router.dfy`, `RouterProperties.dfy`, `RouteSpec.dfy`, `RankGap.dfy` | capability-first routing: eligibility, score, sort, selection; the same said in the fields of what a call is given; and how large a rank gap decides |
| `Failover.dfy`, `CallHistory.dfy` | executing a task with failover, breakers and saved observations; many calls on one store |
| `Dependencies.dfy`, `DependencyLock.dfy`, `LockValidation.dfy` | the dependency closure, the lock, its exports and its validator |
| `CanonicalBytes.dfy` | line-ending canonicalization behind a NUL and UTF-8 gate |
| `Manifest.dfy` | the repository manifest, its aggregate stream and its check |
| `Citations.dfy` | printing, parsing and overlap of source citations |
| `Traceability.dfy` | the repair of citations and of section-to-requirement links |
| `AcceptanceScope.dfy` | metadata-only diffs |
| `Evidence.dfy` | sufficiency of evidence for a criterion |
| `Artifacts.dfy` | the content-addressed artifact store |
| `Ordering.dfy`, `Wrappers.dfy` | string order, stable sort, filtering, optional values, digest shape |

## How it is modelled

- Imperative code is imperative here: classes with `modifies`, loops with invariants, each proved
  against a specification function or predicate whose own properties are the lemmas.
- Hashes, digests and identifiers are arbitrary functions. Where a result needs that some inputs are
  not confused, it names just those inputs; no hash is assumed injective.
- Time is a whole number of seconds and is not assumed to increase.
- The revocation is a step machine with one step per durable action. Receipts and envelopes share
  one disk, a call may name any receipt path, and a process may die between any two actions.
- Means are exact rationals rounded half to even. The source divides in floating point first.
- Name normalization is an arbitrary idempotent function; installed names are already normalized.
- A commit is a map from paths to contents; a diff is the set of paths that differ.
- Where an operation and its specification share a function, that function has its own statement in the
  fields of the data: `RouteSpec.dfy` for routing, `Leads` and `Given` for the audit, `NeededBy` for
  the lock, `Grown` and `Disposed` for the repair, `Revocable` for the revocation.

## What turned out different from the obvious claim

- The manifest's canonicalizer is not idempotent: CR CR LF needs two passes.
  `ManifestCanonicalIdempotent` gives the exact condition, `CanonicalizersAgree` says when it
  coincides with the evidence canonicalizer.
- Checkouts with different line endings agree exactly for text and for single-line files
  (`CheckoutsAgree`); a file the gate rejects is hashed as it lies on disk.
- Checking an unchanged repository can report an aggregate mismatch when two manifested paths differ
  only in letter case (`TieChangesAggregate`). All checks of an unchanged repository are clean exactly
  when there is no such pair (`UnchangedIsCleanIffNoTies`), and two given walks agree exactly when
  they meet every such pair in the same order (`ListingsAgreeIff`, `VerifyAfterWrite`).
- A lock just built can be reported by the validator, because building looks neither at version
  specifiers nor at prohibited references (`FreshLockMayBeReported`). It is reported for exactly
  those faults of the declarations, so for nothing exactly when there are none (`BuildWriteValidate`).
- A path that is not on the allowlist as written still counts as metadata exactly when it starts with
  a dot or a slash, or has a backslash, and normalizes into the allowlist (`LetThroughIff`); so
  `.jira/x.py` does (`HiddenJiraIsMetadata`).
- A contract guarantees its section link exactly when the section's citation is a two-ended SRC
  citation in order (`ContractGuarantee`); a section cited by one line, or outside SRC, ends with no
  links (`UnmatchedSectionStaysEmpty`).
- More evidence keeps a criterion sufficient exactly when the larger ledger can be read at all
  (`SufficiencyMonotone`, `MalformedDateLosesSufficiency`).
- Decision ids do not depend on time, so a repeated call that tries the same providers replaces the
  observations of the first (`RepeatedCallReplacesObservations`). A call's observations survive a
  later call exactly when that call reuses none of their slots, or saves the same values
  (`ObservationsSurviveIff`).
- A rank gap decides in every routing call exactly when it is 13 or more (`RankGapIff`); there is a
  call, at any rank, in which a candidate 12 ranks behind is selected (`GapOfTwelveMayLose`).
- Concurrent puts keep every returned reference true exactly when no two contents collide on a path
  that is still free (`ConcurrentPuts`); any two that do have an interleaving that loses bytes
  (`CollidingRaceLosesBytes`). Sequential puts never do, for any hash.

## Model

| member | source | states |
|---|---|---|
| `Revocation.AtMostOneGuardedDeletion` | scripts/provision_dpapi_campaign_secret.py:230-329 | from any disk, over every run of calls, crashes, retries and provisioning: at most one unlink per receipt path, each while the durable receipt is the intent carrying that file's digest, destination, reference and scope |
| `Revocation.RunKeepsInv` | scripts/provision_dpapi_campaign_secret.py:266-329 | every step keeps the invariant that ties the program counter, the receipt and all past deletions to the disk |
| `Revocation.ReceiptLifecycle` | scripts/provision_dpapi_campaign_secret.py:251-263 | a receipt appears only as an intent and then makes at most one move, to one of the four outcomes, keeping its identity |
| `Revocation.RunEvolves` | scripts/provision_dpapi_campaign_secret.py:297-329 | a standing receipt is never removed or replaced by anything but that one move, in any continuation |
| `Revocation.NoDeletionUnderStandingReceipt` | scripts/provision_dpapi_campaign_secret.py:237-259 | once a receipt stands and its writer is gone, no continuation unlinks anything under that receipt path |
| `Revocation.StepRespectsScope` | scripts/provision_dpapi_campaign_secret.py:245-250 | a step changes a standing receipt only while it serves a request with that receipt's path, reference and scope |
| `Revocation.RunsRespectScope` | scripts/provision_dpapi_campaign_secret.py:230-329 | so in every run from any disk |
| `Revocation.FinishedMeansAbsent` | scripts/provision_dpapi_campaign_secret.py:315-329 | when REVOKED or REVOKED_RECONCILED is recorded the envelope is gone, and stays gone until a call claims its path |
| `Revocation.RetryReturnsStoredReceipt` | scripts/provision_dpapi_campaign_secret.py:251-255 | repeating a finished call returns the stored receipt and changes nothing |
| `Revocation.CrashThenRetry` | scripts/provision_dpapi_campaign_secret.py:276-329 | for every point of death and every unlink outcome, what is left on disk and what the retry decides |
| `Revocation.AttemptRecords` | scripts/provision_dpapi_campaign_secret.py:289-329 | what a first call leaves under its receipt path, for every lifetime of the process and every unlink outcome |
| `Revocation.Workspace.WriteAtomic` | scripts/provision_dpapi_campaign_secret.py:30-46 | a whole file is written, or nothing when the path is taken and replacement is not asked for |
| `Revocation.Workspace.ReconcileExistingIntent` | scripts/provision_dpapi_campaign_secret.py:230-263 | the outcome and the disk for every kind of file at the receipt path; a receipt of another reference or scope, or no receipt, is refused and nothing changes |
| `Revocation.Workspace.Revoke` | scripts/provision_dpapi_campaign_secret.py:266-329 | the code leaves exactly the disk the step machine predicts, for a process dying after any number of durable actions; it returns only finished receipts of the requested reference and scope with the envelope absent, refuses without a change exactly what is not revocable, and succeeds on everything that is |
| `Revocation.Workspace.ProvisionEnvelope` | scripts/provision_dpapi_campaign_secret.py:49-98 | provisioning creates only on a free path, touches no other file, and agrees with the step machine |
| `Audit.LocalReasonsDecide` | scripts/audit_jira_done_items.py:53-155 | the list of local reasons is empty exactly when every local condition holds |
| `Audit.LocalReasonsExact` | scripts/audit_jira_done_items.py:53-155 | every local reason is given exactly when the item's fields and what is observed call for it |
| `Audit.TestsReportedOnce` | scripts/audit_jira_done_items.py:91-107 | a test required twice is reported once |
| `Audit.JudgeClaims` | scripts/audit_jira_done_items.py:50-160 | the reasons table: one list per claimed id, in the order of judgement |
| `Audit.ChildrenAreConverseOfParent` | scripts/audit_jira_done_items.py:36-40 | an item's children are exactly the items naming it as parent |
| `Audit.LinksAreFields` | scripts/audit_jira_done_items.py:36-40 | an item links to what the last issue with its id names in either dependency list, and to the issues that name it as parent |
| `Audit.BuildGraph` | scripts/audit_jira_done_items.py:36-40 | the loop builds the item table and the children table of the specification |
| `Audit.Visit` | scripts/audit_jira_done_items.py:167-182 | a visit finds fault exactly when something linked is not in the live set, and blames only such items |
| `Audit.Pass` | scripts/audit_jira_done_items.py:165-185 | one pass, in any order: the item to remove is always present, nothing of a closed set is lost, and no change means closed |
| `Audit.Shrink` | scripts/audit_jira_done_items.py:162-185 | whatever order each pass visits the survivors in: at most one pass more than there are clean items, ending in the greatest closed subset, with every dropped item blamed on unconfirmed links |
| `Audit.ConfirmedIffAllReachableClean` | scripts/audit_jira_done_items.py:162-185 | an item survives exactly when everything reachable from it is clean |
| `Audit.SurvivorsUnique` | scripts/audit_jira_done_items.py:166 | there is only one greatest closed subset, so the survivors do not depend on the visiting order |
| `Audit.AuditClaims` | scripts/audit_jira_done_items.py:50-210 | one row per claim, sorted by id; confirmed exactly when everything the issues' own dependency and parent fields lead to is claimed done and clean; otherwise exactly the reasons given, or only unconfirmed dependencies and children |
| `Circuit.HistoryConsistent` | src/project_pipeline/agent_router/circuit.py:12-71 | for any history and any `permits`: the failure count is the failures since the last success, closed exactly below the threshold, opened time set exactly when not closed, probes only when half open and never above the limit |
| `Circuit.HistoryStamps` | src/project_pipeline/agent_router/circuit.py:30-71 | the recorded failure is the last since a success, the update time is that of the last event that took effect, and an event without effect changes nothing |
| `Circuit.HistoryReadsOff` | src/project_pipeline/domain/agents.py:298-308 | with the real `permits`, state, opening time and probe count are a closed form of the history |
| `Circuit.LoudHistory` | src/project_pipeline/agent_router/circuit.py:30-58 | without probes and checks the breaker is open, since the last failure, exactly when failures since the last success reach the threshold |
| `Circuit.RoutableIff` | src/project_pipeline/domain/agents.py:298-308 | when a breaker with any history lets a call through: closed, half open until the probes reach the limit, or past its recovery time |
| `Performance.RoundIsNearestEven` | src/project_pipeline/agent_router/performance.py:38-41 | rounding gives the nearest integer, the even one on a tie |
| `Performance.NearestEvenUnique` | src/project_pipeline/agent_router/performance.py:38-41 | only one integer is that |
| `Performance.SummaryRoundsMeans` | src/project_pipeline/agent_router/performance.py:31-42 | each figure of a summary is the nearest-even rounding of its own mean, and the cost is absent exactly when no observation carries one |
| `Performance.MeansWithinData` | src/project_pipeline/agent_router/performance.py:30-42 | every rounded mean lies between the least and greatest value averaged |
| `Performance.GroupObservations` | src/project_pipeline/agent_router/performance.py:20-29 | fails exactly on a synthetic observation; otherwise groups the recent ones by target and capability, in order |
| `Performance.Summarize` | src/project_pipeline/agent_router/performance.py:12-43 | a key is summarized exactly when it has a recent observation, and by its whole group |
| `Performance.SummariesOrderIndependent` | src/project_pipeline/agent_router/performance.py:21-42 | the table does not depend on the order of the observations |
| `Router.RankOfListed` | src/project_pipeline/agent_router/router.py:77 | the rank is the last position in the policy order, or 5000 when unlisted |
| `Router.IndexByLast` | src/project_pipeline/agent_router/router.py:58-66 | a lookup table has a key exactly when some entry has it, and then holds the last such entry |
| `Router.DetectPressure` | src/project_pipeline/agent_router/router.py:78-86 | pressure exactly when the policy asks for it and some preferred provider is strained |
| `Router.Consider` | src/project_pipeline/agent_router/router.py:89-189 | judging and scoring step by step gives the specified candidate |
| `Router.Route` | src/project_pipeline/agent_router/router.py:47-225 | fails exactly on synthetic observations; otherwise the decision of the specification |
| `RouterProperties.EligibleIffAdmissible` | src/project_pipeline/agent_router/router.py:103-157 | eligible exactly when the configuration, qualification, state, circuit and cost checks all pass |
| `RouteSpec.EligibleFromFields` | src/project_pipeline/agent_router/router.py:89-157 | who is a candidate and who is eligible, in the fields of request, registry, states, breakers and observations, the cost mean included |
| `RouteSpec.ReasonsFromFields` | src/project_pipeline/agent_router/router.py:103-157 | the reasons against a candidate are exactly the objections those fields raise |
| `RouteSpec.CandidateRecords` | src/project_pipeline/agent_router/router.py:109-189 | the state, breaker state, qualification and rank a candidate records |
| `RouteSpec.PolicyFromFields` | src/project_pipeline/agent_router/router.py:66-86 | the policy that counts, the order it gives and when there is pressure |
| `RouteSpec.ScoreWeights` | src/project_pipeline/agent_router/router.py:158-168 | what rank, locality, pressure and state are worth, everything else being equal |
| `RouteSpec.DataWeights` | src/project_pipeline/agent_router/router.py:169-173 | what performance data is worth, with both capped penalties |
| `RouteSpec.DecisionFromFields` | src/project_pipeline/agent_router/router.py:190-201 | the candidates are what the agents become, none after a worse one, and the first is selected if eligible |
| `RouteSpec.NoRouteFromFields` | src/project_pipeline/agent_router/router.py:202-210 | which reasons are given for no route |
| `Performance.SummaryOfOne` | src/project_pipeline/agent_router/performance.py:31-42 | the summary of a single observation repeats it |
| `RouterProperties.ScoreBounds` | src/project_pipeline/agent_router/router.py:144-173 | the part of the score that is not rank lies in [-4500, 7800] for every candidate of every call |
| `RouterProperties.RankGapDecides` | src/project_pipeline/agent_router/router.py:158-200 | a rank gap of 13 decides between candidates of equal eligibility |
| `RouterProperties.ListedBeatsUnlisted` | src/project_pipeline/agent_router/router.py:144 | policy index 4987 or lower beats an unlisted provider |
| `RouterProperties.PreferredBeforeFallback` | src/project_pipeline/agent_router/router.py:72-77 | a provider listed only as preferred ranks before every fallback provider |
| `RankGap.GapOfTwelveMayLose` | src/project_pipeline/agent_router/router.py:158-201 | a routing call, for any number of providers listed before, in which the candidate 12 ranks behind is selected |
| `RankGap.RankGapIff` | src/project_pipeline/agent_router/router.py:144-201 | a rank gap decides between candidates of equal eligibility in every routing call exactly when it is at least 13 |
| `RouterProperties.PolicyOrderStrict` | src/project_pipeline/agent_router/router.py:158-200 | without data, pressure or degraded states, eligible candidates follow the policy order strictly |
| `RouterProperties.KeyLeIsTotalPreorder` | src/project_pipeline/agent_router/router.py:190-200 | the sort key is total and transitive |
| `RouterProperties.SelectedIsLeast` | src/project_pipeline/agent_router/router.py:190-201 | somebody is selected exactly when somebody is eligible, and it is the least eligible candidate under the key |
| `RouterProperties.ExactlyOneOutcome` | src/project_pipeline/agent_router/router.py:201-210 | a route is selected exactly when there is no reason why not |
| `RouterProperties.DecisionOrderIndependent` | src/project_pipeline/agent_router/router.py:89-210 | the decision does not depend on the order of the registry |
| `RouterProperties.OnlyEligibleMatter` | src/project_pipeline/agent_router/router.py:190-201 | the selection and every fallback depend only on the eligible candidates |
| `RouterProperties.IrrelevantAgent` | src/project_pipeline/agent_router/router.py:97-102 | an incapable or ineligible agent, registered anywhere, changes neither the selection nor the fallbacks |
| `Failover.UpToFirstSuccessUnique` | src/project_pipeline/agent_router/service.py:57-96 | the specification of the attempts determines them |
| `Failover.Service.TryCandidates` | src/project_pipeline/agent_router/service.py:57-125 | the attempts are the equipped candidates in order up to and including the first success, and the saved breaker of each tried provider is the fold of its outcomes |
| `Failover.Service.SaveObservations` | src/project_pipeline/agent_router/service.py:138-161 | one observation per attempt and required capability is saved |
| `Failover.Service.Execute` | src/project_pipeline/agent_router/service.py:40-162 | every outcome of a call and the whole store after it; success exactly when the last attempt succeeded |
| `Failover.ObservationCount` | src/project_pipeline/agent_router/service.py:138-144 | attempts times required capabilities |
| `Failover.ObservationsReport` | src/project_pipeline/agent_router/service.py:138-161 | each saved observation reports the agent, outcome, time taken and cost of its own attempt |
| `Failover.EventsReport` | src/project_pipeline/agent_router/service.py:89-124 | a provider's breaker events are the outcomes of its attempts, one each, in order, with their times and error kinds |
| `Failover.AttemptsReport` | src/project_pipeline/agent_router/service.py:61-117 | each attempt names its own eligible, equipped candidate and carries what its adapter answered |
| `Failover.TablesHoldLast` | src/project_pipeline/agent_router/service.py:57-58 | the breaker a call starts from is the last record given, the model named is the last registered |
| `Failover.ObservationsRoutable` | src/project_pipeline/agent_router/service.py:145-160 | what is saved is within the ranges routing relies on and never synthetic |
| `Failover.SelectedIsTriedFirst` | src/project_pipeline/agent_router/service.py:61-65 | the selected candidate is tried first, and alone when it succeeds |
| `Failover.SuccessClosesBreaker` | src/project_pipeline/agent_router/service.py:89-96 | a successful call leaves the answering provider's breaker closed and cleared |
| `Failover.BreakersStayConsistent` | src/project_pipeline/agent_router/service.py:118-124 | a tried provider whose breaker had seen any events leaves with one that has seen those and then this call's outcomes, and satisfies the breaker invariant |
| `CallHistory.BreakersReplayCalls` | src/project_pipeline/agent_router/service.py:89-124 | over any number of calls the stored breaker is the replay of everything the provider did in all of them, and there is one exactly for providers that were tried |
| `CallHistory.BreakerTripsAcrossCalls` | src/project_pipeline/agent_router/service.py:118-124 | after any calls a stored breaker is open exactly when failures since the last success, over all calls, reach the threshold, and never half open |
| `CallHistory.RepeatedCallReplacesObservations` | src/project_pipeline/agent_router/service.py:138-161 | serving the same request twice with the same providers tried leaves the observations as if the first call had saved none |
| `CallHistory.ObservationsSurviveIff` | src/project_pipeline/agent_router/service.py:138-161 | all observations of a call stand after a later one exactly when it reused none of their slots, or saved the same values there |
| `Dependencies.ClosureFor` | src/project_pipeline/dependencies.py:150-173 | ends on every graph, returns exactly the reachable names, fails exactly when a reachable name is not installed |
| `Dependencies.Enqueue` | src/project_pipeline/dependencies.py:166-172 | appends exactly the applicable requirements not yet in the closure |
| `Dependencies.ClosureOfUnion` | src/project_pipeline/dependencies.py:192-196 | the union of closures is the closure of the union |
| `DependencyLock.DirectByGroup` | src/project_pipeline/dependencies.py:176-184 | the normalized direct names of every active group; fails exactly on an undeclared group |
| `DependencyLock.ClosureByGroup` | src/project_pipeline/dependencies.py:192-195 | the closure of every group; fails exactly when something reachable is missing |
| `DependencyLock.ListPackages` | src/project_pipeline/dependencies.py:206-223 | one record per name, in order; fails exactly on missing metadata |
| `DependencyLock.BuildLock` | src/project_pipeline/dependencies.py:187-249 | the lock describes the resolved closures; built exactly when every reachable package is installed with metadata and licence |
| `LockValidation.MapOfDefined` | src/project_pipeline/dependencies.py:252-268 | the package map exists exactly for distinct normalized names, with one entry each |
| `LockValidation.ReadPackageMap` | src/project_pipeline/dependencies.py:252-268 | the loop computes that map or the first duplicate |
| `LockValidation.ExportRoundTrip` | src/project_pipeline/dependencies.py:291-292 | the pinned lines of an export can be read back: they fix every name and version, in order |
| `LockValidation.SameLinesSamePins` | src/project_pipeline/dependencies.py:291-292 | exports with the same lines pin the same packages |
| `LockValidation.Validate` | src/project_pipeline/dependencies.py:321-409 | a broken package map is the only thing reported; otherwise a result exactly when active groups and both exports can be read, and then each finding, declarations included, exactly when its condition holds |
| `LockValidation.ClosureGroupsAreConverse` | src/project_pipeline/dependencies.py:197-221 | a package names a group exactly when the group's list names the package |
| `LockValidation.EntryReports` | src/project_pipeline/dependencies.py:206-223 | a package record has the installed version and hash and the texts of exactly the applicable requirements, in order |
| `LockValidation.LockedIffReachable` | src/project_pipeline/dependencies.py:192-196 | locked means that some declaration of an active group leads to it through applicable requirements |
| `LockValidation.LockClosedUnderRequirements` | src/project_pipeline/dependencies.py:206-213 | whatever a locked package requires is locked too |
| `LockValidation.FreshExportsRender` | src/project_pipeline/dependencies.py:278-292 | every export of a fresh lock renders without a missing key |
| `LockValidation.FreshExportPins` | src/project_pipeline/dependencies.py:278-292 | an export of a fresh lock, read back after its header, pins exactly what the declarations of its active groups lead to, once each, ascending, at the installed versions |
| `LockValidation.FreshLockPasses` | src/project_pipeline/dependencies.py:372-403 | a lock just built, with its exports, passes every structural check and is reported exactly for the faults of the declarations |
| `LockValidation.BuildWriteValidate` | src/project_pipeline/dependencies.py:247-249 | building, writing and validating in turn reports exactly prohibited references and violated specifiers, so nothing exactly when there are none, whenever the lock can be built; and both exports pin what their groups need |
| `LockValidation.BuildIgnoresSpecifiers` | src/project_pipeline/dependencies.py:176-195 | whether a lock can be built does not depend on version specifiers |
| `LockValidation.FreshLockMayBeReported` | src/project_pipeline/dependencies.py:338-346 | a project whose lock is built and then reported |
| `CanonicalBytes.Utf8AroundAscii` | src/project_pipeline/io.py:144-149 | text around an ASCII byte is valid UTF-8 exactly when both sides are |
| `CanonicalBytes.Utf8Iff` | src/project_pipeline/io.py:144-149 | the recognizer accepts exactly the concatenations of encoded Unicode scalar values |
| `CanonicalBytes.GateMeans` | src/project_pipeline/io.py:131-149 | only files without NUL that are such text are canonicalized; every other is hashed as it is |
| `CanonicalBytes.ReplacementsKeepUtf8` | src/project_pipeline/io.py:139-140 | both replacements keep UTF-8 validity, in both directions |
| `CanonicalBytes.GateInvariant` | src/project_pipeline/io.py:139-140 | text passes the gate after canonicalization exactly when it did before |
| `CanonicalBytes.CanonicalHasNoCr` | src/project_pipeline/io.py:131-141 | canonical text has no CR |
| `CanonicalBytes.CanonicalIdempotent` | src/project_pipeline/io.py:131-141 | canonicalizing twice is canonicalizing once, for all bytes |
| `CanonicalBytes.CheckoutsAgree` | src/project_pipeline/io.py:132-137 | LF, CRLF and CR checkouts agree exactly for text and for single-line files |
| `CanonicalBytes.CanonicalizersAgree` | src/project_pipeline/manifest.py:42-50 | the manifest's canonicalizer agrees with the evidence canonicalizer exactly when the file is not text or every CR precedes LF |
| `CanonicalBytes.ManifestCanonicalIdempotent` | src/project_pipeline/manifest.py:42-50 | it is idempotent exactly when the file is not text or has no CR CR LF |
| `Manifest.DecodeStream` | src/project_pipeline/manifest.py:82-85 | decoding inverts the aggregate stream for NUL-free paths |
| `Manifest.StreamUniquelyDecodable` | src/project_pipeline/manifest.py:82-85 | equal streams come from equal listings |
| `Manifest.NulBreaksDecodability` | src/project_pipeline/manifest.py:83 | a NUL in a path makes two listings collide |
| `Manifest.BuildManifest` | src/project_pipeline/manifest.py:70-103 | the manifest records every manifested file in listing order, and its aggregate is the hash of their stream |
| `Manifest.ManifestReports` | src/project_pipeline/manifest.py:78-103 | path, canonical size and digest of every listed file |
| `Manifest.Compare` | src/project_pipeline/manifest.py:120-136 | each problem is reported exactly when its condition holds |
| `Manifest.ReportNamesChanges` | src/project_pipeline/manifest.py:126-133 | a report names exactly the paths only recorded, only present, and of different canonical content unless the hash confuses them |
| `Manifest.AggregateDecides` | src/project_pipeline/manifest.py:134-135 | unless the hash confuses the two streams, the aggregate alone fixes the listing and every digest |
| `Manifest.CleanReportMeansSameSnapshot` | src/project_pipeline/manifest.py:116-136 | unless the hash confuses the two streams or two contents of one path, an empty report means exactly the same root name, snapshot and listing order |
| `Manifest.ListingsAgreeIff` | src/project_pipeline/manifest.py:74-77 | two walks over the same manifested paths give the same listing exactly when they meet every tied pair in the same order |
| `Manifest.ListingOrderIndependent` | src/project_pipeline/manifest.py:74-77 | without ties the listing depends only on which paths are manifested |
| `Manifest.VerifyAfterWrite` | src/project_pipeline/manifest.py:106-136 | checking right after writing is clean when the walks meet tied pairs alike, for any hash, and only then unless the hash confuses the two streams |
| `Manifest.TieChangesAggregate` | src/project_pipeline/manifest.py:74-85 | two walks of an unchanged repository that meet a tied pair in different orders give an aggregate mismatch |
| `Manifest.TieSplitsListings` | src/project_pipeline/manifest.py:74-77 | every tied pair has two walks of the whole repository with different listings |
| `Manifest.UnchangedIsCleanIffNoTies` | src/project_pipeline/manifest.py:70-136 | every check of an unchanged repository, by any walks, is clean exactly when no two manifested paths tie |
| `Citations.ParseOfPrint` | src/project_pipeline/source_references.py:17-33 | parsing a printed reference gives it back exactly for a well-formed source and 1 <= start <= end <= 999999 |
| `Citations.ParsePrintParse` | src/project_pipeline/source_references.py:24-33 | parse, print, parse equals parse on every accepted text |
| `Citations.PrintOfParse` | src/project_pipeline/source_references.py:17-21 | printing restores the text except for a two-ended citation of one line |
| `Citations.ParsedInRange` | src/project_pipeline/ids.py:12 | what is accepted lies within six digits |
| `Citations.SourceIds` | src/project_pipeline/ids.py:12 | a source id is SRC or GOV with three digits |
| `Citations.OverlapIsCommonLine` | src/project_pipeline/source_references.py:85-90 | overlap is exactly a common line of the same source |
| `Citations.ScriptAgrees` | scripts/repair_product_outcome_traceability.py:121-126 | the script's overlap agrees with the library's exactly on two-ended SRC citations |
| `Citations.ScriptOverlapIsCommonLine` | scripts/repair_product_outcome_traceability.py:121-126 | on two-ended SRC citations the script's overlap is exactly a common source line |
| `Citations.SelfOverlap` | scripts/repair_product_outcome_traceability.py:121-126 | a citation overlaps itself exactly when it is two-ended, SRC and in order |
| `Traceability.RepairMeans` | scripts/repair_product_outcome_traceability.py:111-118 | after a repair exactly the replacements stand, each once; a requirement without repairs is left alone |
| `Traceability.Repository.RepairSourceReferences` | scripts/repair_product_outcome_traceability.py:248-249 | every requirement's citations are repaired in place |
| `Traceability.Repository.ApplyContract` | scripts/repair_product_outcome_traceability.py:254-270 | citations only grow, by a section citation that nothing overlapped; each contracted requirement reaches its section, and only that section is marked; fails exactly on an unknown section or requirement |
| `Traceability.Repository.RecomputeLinks` | scripts/repair_product_outcome_traceability.py:274-287 | every section's list is recomputed exactly, and a linked section is promoted exactly from mere context |
| `Traceability.Repository.Repair` | scripts/repair_product_outcome_traceability.py:248-287 | succeeds exactly when every contract names a known section and known requirements; then each requirement has its repaired citations followed by those of contracting sections that nothing before overlapped, all lists are exact, all contracts honoured and all dispositions as they should be |
| `Traceability.GainedForAReason` | scripts/repair_product_outcome_traceability.py:257-262 | a requirement gains a citation only if a contract names it for a section that none of its citations overlapped |
| `Traceability.SectionListsItsRequirements` | scripts/repair_product_outcome_traceability.py:274-281 | a section lists exactly the requirements with an overlapping citation, once each, sorted |
| `Traceability.SectionListsSharedLines` | scripts/repair_product_outcome_traceability.py:121-126 | a section with a two-ended SRC citation lists exactly the requirements of which some such citation shares a source line with it |
| `Traceability.ContractedIsListed` | scripts/repair_product_outcome_traceability.py:257-262 | a contracted requirement is listed in its section when the section's citation overlaps itself |
| `Traceability.ContractGuarantee` | scripts/repair_product_outcome_traceability.py:260-262 | that condition is exact |
| `Traceability.UnmatchedSectionStaysEmpty` | scripts/repair_product_outcome_traceability.py:17 | a section outside the script's grammar ends with no links |
| `AcceptanceScope.NormalizeIdempotent` | src/project_pipeline/assurance/acceptance_scope.py:34-35 | normalizing a path twice is normalizing it once |
| `AcceptanceScope.CompareRows` | src/project_pipeline/assurance/acceptance_scope.py:87-97 | the loop decides whether rows agree under every key but the implementation state |
| `AcceptanceScope.Prove` | src/project_pipeline/assurance/acceptance_scope.py:100-130 | the verdict and its reason for every pair of commits |
| `AcceptanceScope.AllowlistedComposes` | src/project_pipeline/assurance/acceptance_scope.py:109-120 | two metadata-only steps make a metadata-only diff |
| `AcceptanceScope.AllowlistedSymmetric` | src/project_pipeline/assurance/acceptance_scope.py:109-120 | being metadata only is reflexive and symmetric |
| `AcceptanceScope.ChainComposes` | src/project_pipeline/assurance/acceptance_scope.py:109-120 | a whole chain of metadata-only steps is metadata only end to end |
| `AcceptanceScope.AllowlistedProtects` | src/project_pipeline/assurance/acceptance_scope.py:75-97 | nothing outside the metadata paths differs, for unaltered paths nothing outside the allowlist as written, and requirement rows differ only in implementation state |
| `AcceptanceScope.LetThroughIff` | src/project_pipeline/assurance/acceptance_scope.py:34-79 | which paths outside the allowlist as written count as metadata |
| `AcceptanceScope.HiddenPathIsMetadata` | src/project_pipeline/assurance/acceptance_scope.py:35 | a leading dot lets any allowlisted path through |
| `AcceptanceScope.HiddenJiraIsMetadata` | src/project_pipeline/assurance/acceptance_scope.py:15-35 | `.jira/x.py` counts as metadata for the repository's allowlist |
| `AcceptanceScope.RepositoryChainProtects` | src/project_pipeline/assurance/acceptance_scope.py:15-130 | for the repository's own allowlist, over any chain of metadata-only commits: what may differ between the first and the last |
| `AcceptanceScope.StateOnlyChangeAllowed` | src/project_pipeline/assurance/acceptance_scope.py:82-120 | a change of nothing but implementation states is metadata only for the repository's allowlist |
| `AcceptanceScope.GeneratedIsListed` | src/project_pipeline/assurance/acceptance_scope.py:15-21 | everything under the generated directories and views is on the allowlist |
| `Evidence.Assess` | src/project_pipeline/assurance/evidence.py:67-120 | one assessment per considered record, sorted; fails exactly on a date that cannot be read |
| `Evidence.Sufficient` | src/project_pipeline/assurance/evidence.py:123-150 | sufficient exactly with a passing method, enough distinct methods and no missing review |
| `Evidence.SufficesByRisk` | src/project_pipeline/assurance/evidence.py:136-149 | the verdict for each risk level from the policy's and the review's own fields |
| `Evidence.PassesMeans` | src/project_pipeline/assurance/evidence.py:82-106 | a record passes exactly when it names the criterion, is dated, verified, a pass, and not too old |
| `Evidence.StateMeans` | src/project_pipeline/assurance/evidence.py:88-106 | which state each record is assessed with |
| `Evidence.Judge` | src/project_pipeline/assurance/evidence.py:67-150 | both together, read off the ledger |
| `Evidence.SufficiencyMonotone` | src/project_pipeline/assurance/evidence.py:89-150 | kept by every larger ledger at every earlier time exactly when that ledger can be read |
| `Evidence.MalformedDateLosesSufficiency` | src/project_pipeline/assurance/evidence.py:84-87 | one unreadable date loses it |
| `Artifacts.Store.Put` | src/project_pipeline/artifacts.py:32-56 | result and files for every case; a returned reference yields its bytes and no stored file changes |
| `Artifacts.Store.Get` | src/project_pipeline/artifacts.py:58-64 | bytes or the exact error |
| `Artifacts.Store.Verify` | src/project_pipeline/artifacts.py:66-71 | true exactly when get returns bytes |
| `Artifacts.ReferenceKeepsItsBytes` | src/project_pipeline/artifacts.py:32-64 | for any hash, a returned reference yields its bytes after every later history of puts |
| `Artifacts.PutAgain` | src/project_pipeline/artifacts.py:38-56 | putting again returns the same reference and changes nothing |
| `Artifacts.GetOfPut` | src/project_pipeline/artifacts.py:58-64 | a reference yields what was put exactly when its file still holds it, other bytes only of the same size and digest |
| `Artifacts.TamperedGet` | src/project_pipeline/artifacts.py:61-64 | whatever happened to the files, get returns only bytes of the reference's size and digest, and what was put unless the digest confuses the two |
| `Artifacts.ConcurrentPuts` | src/project_pipeline/artifacts.py:38-55 | for any processes about to start on any files: every interleaving keeps every returned reference true exactly when no two contents collide on a free path |
| `Artifacts.CollidingRaceLosesBytes` | src/project_pipeline/artifacts.py:50-53 | any two colliding puts among any others have an interleaving after which the earlier reference no longer yields its bytes |
| `Artifacts.LooksTwice` | src/project_pipeline/artifacts.py:38-53 | a file is put in place only by a process that found its path free twice |

## Left out

- The command line, the scheduler, the stewards and the user interfaces: argument parsing and dispatch.
- Provider adapters and their transport: an adapter is an oracle that answers or raises a provider error; other exceptions are not modelled.
- Encryption, access lists and scope files of the provisioning script: only the receipt and envelope protocol is kept.
- SHA-256, marker evaluation, the meaning of version specifiers, the recognition of prohibited references and date parsing: arbitrary functions, or inputs already evaluated.
- The `proof` objects and timestamps of audit rows, and the identifiers of rows and decisions: copied text.
- Floating-point division before rounding in performance means.
- The quality-tool export, the resolver-lock checks and the comparison with the installed environment in the lock validator: independent field checks.
- The walk of the repository and its ignore rules, and local-only path rules: an arbitrary choice of manifested paths that never includes the fixed exclusions.
- The fixed edits to individual requirements before the repair, and the table of replacements: data.
- Lock acquisition between processes in the revocation: one process at a time, as the script assumes.
- `assurance/completion.py` (a gate of sixteen yes-or-no facts, with a list of externally blocked ones), `overlay.py` (copying a private overlay and comparing its recorded commit, tree and digest), `archive.py` (writing a zip and checking its member names, roots and completeness) and the repository validators (independent field checks).
- White space other than space, tab, carriage return and line feed, where the source strips text.
- Failover.Service.Execute: models a service with a store; without one the same attempts are made and nothing is saved.
- DependencyLock.ListPackages: the order of requirement texts is an arbitrary relation in place of lower-cased text order.
