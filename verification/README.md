# TaifaExchange: verified model of policy seeding, lookup and authorization

This project models the core of TaifaExchange, the exchange and request-boundary service: the policy
tables and the seeder that fills them, the lookup and the evaluator that decide a request, and the
pipeline that stores every decision together with its audit event. The whole is also modelled as a
concurrent system: any number of seeders and authorization requests over one database, interleaved
statement by statement under read-committed visibility. `dafny verify dfyconfig.toml` checks it all.

## How it is organised

- `Text`, `Normalization`: trimming, upper-casing and list normalisation over ASCII text.
- `PolicyModel`, `Evaluator`, `Lookup`: the policy package; loops as methods, proved against functions on sets.
- `ExchangeModel`, `Collecting`, `Exchange`: the authorization pipeline, with the roles, capabilities and summaries
  it collects.
- `ExchangeTheorems`, `ExchangeRecords`: what it promises end to end, first of all which reason is given when; and
  what a record, its row and a response tell.
- `Audit`, `Schema`, `Store`: outbox rows, the tables with keys, unique indexes, CHECKs and foreign keys of
  both migrations, and a pool with transactions that are installed or dropped.
- `Seeding`, `SeedingTheorems`, `SeededContents`, `CanonicalPolicies`: the nested insert loops as a method,
  refined to a flat list of statements; validity, exact counts, idempotence, presence, order, documented reports.
- `Protocol`, `ProtocolSafety`, `ProtocolCatalog`, `ProtocolDecisions`, `ProtocolAllows`, `ProtocolAudit`:
  the interleaved system, its invariants and the results over every sequence of actions.
- `ProtocolRuns`, `ProtocolExactness`: what a process left alone does, and, for torn reads and for ALLOWs that
  lapse, exactly which lists, tables and requests allow them.
- `DocumentedDecisions`: what a freshly seeded database decides, with the two decisions the documentation announces.
- `ConcreteRuns`: a concrete database, list and request with a torn read and with a lapsed ALLOW.
- `Bearer`: the Authorization header parser.

Upstream answers, generated identifiers, infrastructure failures and the database states that the three
statements of a lookup see are arbitrary inputs. Policies are never updated or deleted: the code has no such
operation, and the results over all interleavings rely on that.

## Where a property needs a condition

- A lookup reads policy, roles and capabilities in three statements. From empty policy tables it is never torn.
  In general a request is torn in some run if and only if it is complete, finds a policy at the start, and seeding
  gives that policy both a further role and a further capability; then one interleaving decides on the old roles
  and the new capabilities (`NeverTornIff`). With child identifiers that are distinct and new this is a condition
  on the list and the starting tables (`NeverTornIffOnList`); `ATornRead` is a concrete run.
- A stored ALLOW always names an active, allowing policy with exactly its key, and shows the rights it records.
  Whether those rights still meet what the tables ask for depends on the seed list: they do, unless a policy that
  was there at the start asked for no role and now asks for roles of which the actor has none, or asks for a
  further capability that the organization lacks. Further roles beside others do no harm, since one suffices.
  `AllowsStayJustified` says this of every ALLOW row of every reachable state, `NeverLapsesIff` and
  `NeverLapsesIffOnList` say which requests can have an ALLOW that lapses; `ALapsedAllow` is a concrete run.
- A policy whose identifier is the empty text is stored in a decision as NULL, so "names" compares the nullable
  column with the nullable form of the identifier.
- The route of a stored policy is compared exactly, as the documentation says, but requests are trimmed first:
  a policy stored with outer white space in route or operation is never found (`PolicyIsReachable`).
- Further required roles can turn ALLOW into DENY only for a list that was blank (`MoreRequiredRoles`).
- The two packages share the spelling of four denial reasons. The reason determines the answer only because
  validation keeps the evaluator's versions from being reached (`SharedReasonsNeedValidation`).

## Model

| member | source | states |
|---|---|---|
| Text.TrimUnique | internal/exchange/service.go:213-221 | the trimmed text is the only core without outer blanks: with TrimShape a full characterisation of trimming |
| Text.SpacesAre | internal/exchange/handler.go:88-108 | white space is the six ASCII characters that the trimming and splitting functions drop |
| Text.CanonCharacterised | internal/policy/model.go:68-75 | the canonical form is the one trimmed text without small letters that equals the given one up to outer blanks and letter case, and two texts share it exactly when they so agree |
| Text.CanonIdempotent | internal/policy/model.go:68-75 | trim-then-upper is a fixed point, so every further canonicalisation along the pipeline is harmless |
| Normalization.NormalizeStringSlice | internal/policy/model.go:134-153 | the loop with its seen-map yields the specified normal form of the list |
| Normalization.NormalizeStringSet | internal/policy/model.go:119-132 | the loop yields exactly the canonical forms of the non-blank entries |
| Normalization.NormShape | internal/policy/model.go:134-153 | result is duplicate-free, blank-free, canonical, and has the elements of the set version |
| Normalization.NormCharacterised | internal/policy/model.go:134-153 | the result is the one list with those elements in first-occurrence order |
| Normalization.NormIdempotent | internal/exchange/service.go:284-303 | normalising twice equals normalising once |
| Normalization.NormConcat | internal/exchange/service.go:262-272 | n(a + b) = n(n(a) + n(b)) |
| Evaluator.Evaluate | internal/policy/evaluator.go:11-87 | the evaluator's steps and early returns give the specified result on raw inputs |
| Evaluator.HasAnyRequiredRole | internal/policy/evaluator.go:89-108 | true exactly for no requirement or a required role whose canonical form the actor has |
| Evaluator.MissingRequiredCapabilities | internal/policy/evaluator.go:110-133 | lists in order the canonical required capabilities that are not held |
| Evaluator.MissingEmpty | internal/policy/evaluator.go:110-133 | nothing is missing exactly when every non-blank required capability is held |
| Evaluator.AllowIffPermits | internal/policy/evaluator.go:11-87 | ALLOW exactly when key fields are non-blank, the policy is present, ACTIVE and ALLOW, roles are blank or shared, capabilities covered; ALLOW exactly with the empty reason |
| Evaluator.ReasonIsFirstObstacle | internal/policy/evaluator.go:11-87 | each denial reason is given exactly when its own condition holds of the raw inputs and none of the earlier ones does |
| Evaluator.EvaluationTellsItsPolicy | internal/policy/evaluator.go:27-57 | policy identifier and normalised requirements are told exactly when no key field is blank and a policy is there |
| Evaluator.PrenormalisingIsHarmless | internal/policy/evaluator.go:11-87 | normalising key and all lists beforehand changes nothing in the result |
| Evaluator.RenormalisingIsHarmless | internal/policy/evaluator.go:89-133 | the helpers' second normalisation leaves every test as on the raw lists |
| Evaluator.MoreHeldNeverDenies | internal/policy/evaluator.go:63-87 | more actor roles or organization capabilities never turn ALLOW into DENY |
| Evaluator.MoreRequiredCapabilitiesNeverAllow | internal/policy/evaluator.go:71-76 | further required capabilities never turn DENY into ALLOW |
| Evaluator.MoreRequiredRoles | internal/policy/evaluator.go:66-69 | exactly when further required roles keep an ALLOW; always when the list had a non-blank entry |
| Store.Transaction.Begin | internal/platform/postgres/tx.go:22-25 | a transaction starts from a private copy of the committed state, which it leaves alone |
| Store.Transaction.Commit | internal/platform/postgres/tx.go:31-39 | a commit that succeeds installs the working copy; one that fails leaves the committed state as it was |
| Schema.ValidTogether | migrations/000001_init.up.sql:1-223 | two additions that are valid each and do not clash on a key are valid together |
| Schema.ValidIffConstraints | migrations/000001_init.up.sql:1-223 | the schema invariant is exactly: distinct identifiers and unique indexes, CHECKs and foreign keys, each on its columns |
| Seeding.InsertSeedPolicy | internal/policy/seed.go:248-281 | CHECK failure is an error, a key conflict is skipped, otherwise the row is added |
| Seeding.InsertSeedPolicyRole | internal/policy/seed.go:283-311 | CHECK first, then conflict skips, then a missing policy is an error, otherwise the row is added |
| Seeding.InsertSeedPolicyCapability | internal/policy/seed.go:313-341 | same for capabilities |
| SeedingTheorems.PolicyStatement | internal/policy/seed.go:248-281 | a policy insert fails on a CHECK, skips when identifier or route is taken, and otherwise adds the seed's columns |
| SeedingTheorems.ChildStatements | migrations/000001_init.up.sql:67-124 | a child insert of a known code adds nothing when its identifier or its (policy, name) pair is taken, adds its row when the policy is there, and fails otherwise |
| Audit.EventRowsTellTheEvent | internal/audit/event.go:56-75 | an outbox row determines its event; only a missing identifier or source is filled, empty texts are NULL |
| Seeding.InsertEvent | internal/audit/outbox.go:34-85 | appends the event with its defaults; a repeated identifier is an error |
| Seeding.SeedCanonical | internal/policy/seed.go:55-109 | all or nothing: on success database and summary are those of the statement run, on any error the database is unchanged and the summary zero |
| Seeding.SeedOne | internal/policy/seed.go:63-100 | one turn of the outer loop executes exactly that seed's statements |
| SeedingTheorems.FullEffectKeepsValid | migrations/000001_init.up.sql:1-223 | every seed statement keeps all keys, CHECKs and foreign keys |
| SeedingTheorems.SeedCountsAreExact | internal/policy/seed.go:60-109 | existing rows survive, each count is the growth of its table, audit events equal policies |
| SeedingTheorems.SeedingTwice | internal/policy/seed.go:62-103 | for any list and any database a second run succeeds at SQL level, counts nothing and changes nothing |
| SeededContents.SeedsAreThereOrTaken | internal/policy/seed.go:62-103 | for any list: after success each seed and child row is there or one of its keys was taken; no other rows appear |
| SeededContents.SuccessMeansPresence | internal/policy/seed.go:79-99 | with child identifiers distinct and new, every (seed, role) and (seed, capability) pair and every seed with a child is present |
| SeededContents.SeededNames | internal/policy/seed.go:79-99 | under the same condition a policy requires after seeding exactly what it required before and what the list gives it |
| SeedingTheorems.QuietRunSucceeds | internal/policy/seed.go:55-109 | without outages and collisions a call succeeds exactly when the policy tables accept the whole list |
| SeedingTheorems.OutagesFailTheRun | internal/platform/postgres/tx.go:13-40 | an outage at the beginning, at a statement that is sent or at the commit fails the whole call |
| SeededContents.TakenRouteFailsTheRun | migrations/000001_init.up.sql:59-69 | a route held by another policy is skipped, but the next child fails its foreign key and the whole run fails |
| SeededContents.SeedingFromEmpty | internal/policy/seed.go:62-103 | from empty tables a successful run leaves exactly the rows of a well-formed list |
| SeededContents.HoldsExactlyMeans | internal/policy/seed.go:62-103 | holding exactly the list's rows means one row per seed and per child with the list's columns, and no other |
| SeededContents.OrderAndRepetitionDoNotMatter | internal/policy/seed.go:55-109 | any number of calls with any permutations and failures give the same rows, and the summaries add up to the growth |
| CanonicalPolicies.FirstRunSucceeds | internal/policy/seed.go:55-109 | from empty tables a well-formed list passing the CHECKs is seeded unless there is an outage or an identifier collision |
| CanonicalPolicies.DocumentedReports | README.md:144-162 | the canonical list reports 6, 6, 6, 6 on a database without policies, then 0, 0, 0, 0 |
| Lookup.FindByRoute | internal/policy/repository.go:24-94 | three reads, each of its own state: error, not found, or the policy with the lists of the later reads |
| Lookup.ListNames | internal/policy/repository.go:96-158 | the row loop returns the rows in order, or an error |
| Lookup.EvaluateRequest | internal/policy/service.go:21-54 | lookup and evaluation joined; not found is evaluated without policy, other errors are passed on |
| ExchangeTheorems.LookupsComeFromTables | internal/policy/repository.go:29-77 | a policy found in valid tables has one of the allowed effects and statuses, which rules out the evaluator's remaining branches |
| Lookup.NamesOfMembers | internal/policy/repository.go:96-126 | the list query answers, in ascending order and once each, exactly the names required of that policy |
| Lookup.LeqIsLexicographic | internal/policy/repository.go:96-158 | the order of the list queries is the ascending lexicographic one |
| Lookup.SelectIsAMap | internal/policy/repository.go:31-47 | the unique index makes LIMIT 1 pick the one policy with the key |
| Lookup.LookupIgnoresRowOrder | internal/policy/repository.go:24-94 | lookups depend on the rows only, not on their order in the tables |
| Lookup.PolicyIsReachable | internal/policy/repository.go:29-47 | a stored policy is found by some request exactly when its route and operation have no outer white space, and then by every request that normalises to its key |
| Collecting.CollectActorRoles | internal/exchange/service.go:262-272 | exactly the canonical forms of the non-blank own and membership roles, once each, ordered by first appearance: own roles first, then membership by membership |
| Collecting.CollectCapabilities | internal/exchange/service.go:274-282 | normal form of the listed capabilities |
| Collecting.SummarizeMemberships | internal/exchange/service.go:364-381 | one summary per membership in order: its identifier or, if that is blank, the fallback one, its type, and exactly its canonical non-blank roles |
| Exchange.Decide | internal/exchange/service.go:34-197 | the steps that fill the decision record give the specified result for every branch |
| Exchange.Authorize | internal/exchange/service.go:34-211 | an answer exactly when the decision could be made and its pair was committed; an error leaves the database unchanged |
| Exchange.CreateDecisionWithAudit | internal/exchange/repository.go:30-50 | decision and event are both added or neither |
| Exchange.InsertDecision | internal/exchange/repository.go:52-153 | a plain insert: any CHECK, key or reference violation is an error |
| Exchange.Persist | internal/exchange/service.go:199-211 | persists the result with the audit event built from it |
| ExchangeTheorems.AsksPolicyIffComplete | internal/exchange/service.go:51-155 | the policy service is asked exactly for complete requests with known codes and both upstream answers |
| ExchangeTheorems.KeysCoincide | internal/exchange/service.go:34-49 | stored key, looked-up key and evaluated key are one; roles and capabilities come out of the evaluator as they went in |
| ExchangeTheorems.AllowedIffEntitled | internal/exchange/service.go:34-197 | end to end, whatever states the three reads see: no decision exactly when a complete request's lookup fails; otherwise ALLOW exactly for a complete request whose reads show an entitling policy, which the decision names |
| ExchangeTheorems.ReasonIsFirstHindrance | internal/exchange/service.go:51-197 | end to end, each of the reasons is given exactly when its condition on the raw request, the upstream answers and the tables read is the first that holds |
| ExchangeTheorems.MoreRightsNeverDeny | internal/exchange/service.go:108-164 | end to end, for fixed states of the reads: richer roles, memberships or capabilities never turn ALLOW into DENY |
| ExchangeTheorems.MembershipsAddRoles | internal/exchange/service.go:262-272 | adding memberships or roles only adds to the roles that count |
| ExchangeTheorems.SummaryRolesAreCollected | internal/exchange/service.go:305-327 | roles of a membership summary are among the collected roles |
| ExchangeTheorems.ReasonDeterminesAnswer | internal/exchange/service.go:51-197 | for any valid tables read: the reason determines status, error code, message and event type; ALLOW, empty reason, response and 200 go together |
| ExchangeRecords.AnswersAreTraced | internal/exchange/service.go:108-138 | every stored record is of its request and holds exactly what was known when the decision fell; a response repeats the stored decision |
| ExchangeRecords.RecordsTellTheRequest | internal/exchange/service.go:34-49 | every record holds the organization and key of the raw request, with UNKNOWN for blank texts and codes spelt like no known one |
| ExchangeRecords.RecordsTellThePolicy | internal/exchange/service.go:157-183 | every record names the policy that decided it with the requirements read, or none when none was found |
| ExchangeRecords.RowsTellTheRecord | internal/exchange/repository.go:52-161 | a decision row determines its record, and is the one row with NULL for empty texts that does |
| ExchangeTheorems.SharedReasonsNeedValidation | internal/policy/evaluator.go:27-45 | reached past validation, any missing field would be answered by the evaluator's equally spelt reason with 403, where that reason stands for 400 |
| ExchangeTheorems.EveryDecisionIsStorable | migrations/000002_allow_unknown_decision_inputs.up.sql:1-32 | every decision meets all CHECKs, and the reference as long as no policy of the tables read is gone; under the first migration alone exactly the UNKNOWN ones fail |
| ExchangeTheorems.OnlyCollisionsOrOutagesReject | internal/exchange/repository.go:39-49 | with no policy gone, the paired write is rejected exactly by an outage or a repeated identifier |
| ProtocolSafety.ReachableIsSafe | migrations/000001_init.up.sql:1-223 | every constraint holds in every reachable state, committed or private |
| ProtocolSafety.ReachableMeetsConstraints | migrations/000001_init.up.sql:1-223 | in every reachable state, committed or private, identifiers differ and every unique index, CHECK and foreign key holds, read off the columns |
| ProtocolSafety.AnyoneMayStartOrFail | internal/platform/postgres/tx.go:13-40 | seeders and requests may start at any time, and an unfinished one may fail at any time and leaves nothing behind |
| ProtocolSafety.StepWaitsIffKeyIsHeld | migrations/000001_init.up.sql:1-223 | a step waits exactly when a row it would add shares a key with an uncommitted row of another process |
| ProtocolCatalog.EventFollowsPolicy | internal/policy/seed.go:64-77 | every policy insert of the program is followed by the event of that seed |
| ProtocolCatalog.SeedEventEvidences | internal/policy/seed.go:343-375 | the event of a seed shows its policy's columns and the names of its children in order |
| ProtocolCatalog.ConcurrentSeedingIsSeedingOnce | internal/policy/seed.go:62-103 | any number of concurrent, failing seeders leave the committed policy tables as at the start or as after one run |
| ProtocolDecisions.ReachableRead | internal/policy/repository.go:49-91 | every decision follows from three reads of which some last ones saw the new state and the others the old one |
| ProtocolDecisions.TornExactlyWhenBothGained | internal/policy/repository.go:77-91 | lookups of two states are untorn exactly when the policy found does not gain both a role and a capability |
| ProtocolDecisions.NoTornReads | internal/policy/repository.go:24-94 | every decision in every interleaving is that of one single state of the tables, unless the policy that this request finds at the start gains both kinds of requirement |
| ProtocolDecisions.ReachableAnswersAreSound | internal/exchange/service.go:51-211 | in every reachable state every decision's reason determines its answer, its record is traced to its request, and its row meets every CHECK and refers to a policy still there |
| ProtocolDecisions.OnlyTakenIdentifiersReject | internal/exchange/repository.go:52-153 | in every run a decision insert is rejected exactly when its identifier is taken |
| ProtocolAllows.MeetsUnlessAskedForMore | internal/policy/evaluator.go:63-76 | rights that met the lists read, old or new, meet those of the tables now exactly when the policy has not come to ask for more |
| ProtocolAudit.DecisionsEventsAndAnswersAgree | internal/exchange/service.go:199-211 | over all runs decisions and authorization events are paired in order, and answers and new decisions are in step |
| ProtocolAudit.TablesAreAppendOnly | internal/audit/outbox.go:34-85 | between any two states of a run every table only grows at its end |
| ProtocolAudit.PairingIsABijection | internal/exchange/repository.go:39-49 | each decision has exactly one agreeing event and each authorization event exactly one decision |
| ProtocolAudit.StoredRowsTellTheirAnswers | internal/exchange/repository.go:52-153 | in every reachable state each new row tells the whole answer some request got; ALLOW goes with a NULL reason and every DENY carries its reason |
| ProtocolAudit.OutboxIsConserved | internal/policy/seed.go:69-77 | the outbox grows by exactly one row per decision and one per policy, and the policy events stay paired in order with the policies they describe |
| ProtocolAudit.AllowsStayJustified | internal/exchange/service.go:157-183 | every stored ALLOW, in every later state, names an existing active allowing policy of exactly its key and shows its rights; they meet all that the tables ask for now exactly when that policy has not come to ask for more since the start |
| ProtocolRuns.AloneIsSeedRun | internal/policy/seed.go:55-109 | where the sequential seeder succeeds, a seeder of the system left alone commits the same |
| ProtocolRuns.AloneFailsLikeSeedRun | internal/policy/seed.go:55-109 | where it fails without an outage, a seeder left alone aborts by its own steps and the database is unchanged |
| ProtocolRuns.AloneIsAuthorize | internal/exchange/service.go:34-211 | a request of the system left alone answers and stores what the sequential call does, or aborts with nothing stored when that call's write is rejected |
| ProtocolRuns.NeverAPartialPolicy | internal/policy/repository.go:24-94 | from empty tables and a well-formed list every decision used no policy or a seed's policy with exactly its full lists |
| ProtocolRuns.SeededLookupsAgree | internal/policy/repository.go:24-94 | whatever the order and number of seed runs, lookups answer the same |
| ProtocolRuns.TornRunExists | internal/policy/repository.go:77-91 | when a found policy gains both kinds, some interleaving decides as neither state would |
| ProtocolExactness.NeverTornIff | internal/policy/repository.go:24-94 | a request is torn in no run exactly when it is incomplete, finds no policy at the start, or that policy does not gain both a role and a capability |
| ProtocolExactness.NeverTornIffOnList | internal/policy/seed.go:79-99 | the same condition read off the seed list and the starting tables |
| ProtocolExactness.LapsedRunExists | internal/exchange/service.go:157-183 | an entitled request whose policy the list makes ask for more has a run that stores an ALLOW whose rights no longer suffice |
| ProtocolExactness.NeverLapsesIff | internal/exchange/service.go:157-183 | the stored ALLOWs of a request meet the tables in every later state of every run exactly when it is incomplete, not entitled at the start, or its policy is not made to ask for more than it holds |
| ProtocolExactness.NeverLapsesIffOnList | internal/policy/seed.go:79-99 | the same condition read off the seed list and the starting tables |
| DocumentedDecisions.SeedDecides | README.md:247-257 | a seeded database answers a complete request for a seed's route with the seed's identifier, and allows it exactly when some role and all capabilities of the seed are there |
| DocumentedDecisions.ClinicianCreatesClaim | README.md:231-236 | the documented ALLOW and its policy identifier |
| DocumentedDecisions.ClinicianCreatesNoInstruction | README.md:238-244 | the documented denial: status, error code and reason |
| ConcreteRuns.ATornRead | internal/policy/repository.go:77-91 | a concrete database, list, request and run with a torn read |
| ConcreteRuns.ALapsedAllow | internal/policy/evaluator.go:66-76 | a concrete run that stores an ALLOW and then lets it lapse |
| Bearer.BearerRoundTrip | internal/exchange/handler.go:88-108 | every well-formed header, its scheme spelt in any letter case and with any spacing, gives back its token |
| Bearer.BearerTokenComesFromHeader | internal/exchange/handler.go:88-108 | every returned token comes from a well-formed header around it |

## Left out

- Text outside ASCII: upper-casing, white space, invalid encodings and NUL characters are not modelled; other characters are left as they are.
- PostgreSQL itself: only visibility per statement, uniqueness with waiting for uncommitted rows, CHECKs, foreign keys, commit and rollback. A commit succeeds or fails definitely. Deadlock victims are covered by aborts.
- The list queries' collation: names are ordered by code point.
- JSON: a missing list and an empty list are the same; payloads are structured values, not encoded text.
- Timestamps and the columns that only hold them.
- Fixed texts and codes (reasons, event types, actions, error codes and messages) are constructors, one per distinct text; texts that callers choose stay text.
- Descriptions of the canonical policies are left empty; no code reads them.
- Nil receivers: a missing pool is a null reference, a missing client or policy service a flag of the request; a missing policy repository is a failing lookup.
- Exchange.Authorize: the states seen by its three reads are parameters and its write starts from the pool's state; what happens in between is the subject of the Protocol modules.
- Seeding.SeedCanonical: the two inner loops and the loop body are methods of their own, and the list is a parameter.
- The HTTP client, handler, middleware, configuration, start-up and down migrations.
- Policy updates and deletions, which the code does not have; the standalone outbox repository, which nothing calls.
