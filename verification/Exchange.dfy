/** The authorization pipeline: validation, upstream answers, lookup, evaluation, and the paired write. */
module Exchange {
  import opened Text
  import opened Normalization
  import opened PolicyModel
  import opened ExchangeModel
  import opened Audit
  import opened Schema
  import opened Store
  import opened Evaluator
  import opened Lookup
  import opened Collecting
  import Seeding

  // ---------- normalisers for the decision record ----------

  function NormalizeTargetSystemForDecision(value: string): string {
    if Canon(value) in TARGET_SYSTEMS then Canon(value) else UNKNOWN
  }

  function NormalizeMethodForDecision(value: string): string {
    if Canon(value) in METHODS then Canon(value) else UNKNOWN
  }

  /** For routes, operations and organization identifiers. */
  function TrimOrUnknown(value: string): string {
    if Trim(value) == "" then UNKNOWN else Trim(value)
  }

  function NormalizeAuthorizeRequest(request: AuthorizeRequest): AuthorizeRequest {
    AuthorizeRequest(Trim(request.organizationId), request.key.Normalized())
  }

  // ---------- validation ----------

  datatype Refusal = Refusal(reason: DenyReason, status: int, code: ErrorCode)

  const ACCEPTED := Refusal(NoReason, 0, NoError)

  function ValidateRequest(request: AuthorizeRequest, token: string): Refusal {
    if Trim(token) == "" then Refusal(MissingToken, 401, Unauthorized)
    else if Trim(request.organizationId) == "" then Refusal(MissingOrganizationId, 400, ValidationError)
    else if Trim(request.key.targetSystem) == "" then Refusal(MissingTargetSystem, 400, ValidationError)
    else if NormalizeTargetSystemForDecision(request.key.targetSystem) == UNKNOWN then
      Refusal(UnsupportedTargetSystem, 400, ValidationError)
    else if Trim(request.key.verb) == "" then Refusal(MissingMethod, 400, ValidationError)
    else if NormalizeMethodForDecision(request.key.verb) == UNKNOWN then
      Refusal(UnsupportedMethod, 400, ValidationError)
    else if Trim(request.key.route) == "" then Refusal(MissingRoute, 400, ValidationError)
    else if Trim(request.key.operation) == "" then Refusal(MissingOperation, 400, ValidationError)
    else ACCEPTED
  }

  // ---------- results ----------

  function MessageForStatus(status: int): ErrorMessage {
    if status == 400 then RequestInvalid
    else if status == 401 then BearerTokenRequired
    else if status == 503 then DependencyUnavailable
    else DeniedByPolicy
  }

  function DenyResult(record: DecisionRecord, status: int, code: ErrorCode, message: ErrorMessage): AuthorizeResult {
    AuthorizeResult(record.(decision := Deny), None, if status == 0 then 403 else status,
                    if code == NoError then Forbidden else code, if message == NoMessage then DeniedByPolicy else message)
  }

  function AllowResult(record: DecisionRecord, memberships: seq<MembershipSummary>): AuthorizeResult {
    AuthorizeResult(record,
                    Some(AuthorizeResponse(
                           record.id, record.decision, record.key, record.matchedPolicyId,
                           ActorContextSummary(record.actorContextId, record.personId, record.credentialId,
                                               record.organizationId, record.sessionId, record.actorRoles,
                                               memberships),
                           Obligations(true, true))),
                    200, NoError, NoMessage)
  }

  function EventTypeFor(decision: Decision, reason: DenyReason): EventType {
    if decision == Allow then AuthorizationAllowed
    else match reason
      case ActorContextResolveFailed => ActorContextNotResolved
      case PolicyNotFound => PolicyMissing
      case _ => AuthorizationDenied
  }

  function AuditEventForResult(result: AuthorizeResult, id: string): Event {
    var record := result.record;
    Event(id, EventTypeFor(record.decision, record.denyReason), SOURCE_TAIFA_EXCHANGE,
          record.organizationId, record.personId, AuthorizationDecision, record.id, AuthorizeRequestAction,
          if record.decision == Allow then Allowed else Denied,
          record.requestCorrelationId, DecisionPayload(record))
  }

  // ---------- the pipeline as a function ----------

  /** A request with everything that reaches it from outside except what the database says. */
  datatype Job = Job(
    input: AuthorizeInput,
    decisionId: string,
    clientConfigured: bool,
    actor: Option<ActorContextResponse>,
    capabilities: Option<seq<string>>,
    policyService: bool
  )

  function NewRecord(job: Job): DecisionRecord {
    var request := NormalizeAuthorizeRequest(job.input.request);
    DecisionRecord(job.decisionId, Deny,
                   RouteKey(NormalizeTargetSystemForDecision(request.key.targetSystem),
                            NormalizeMethodForDecision(request.key.verb),
                            TrimOrUnknown(request.key.route),
                            TrimOrUnknown(request.key.operation)),
                   TrimOrUnknown(request.organizationId), "", "", "", "", "", NoReason,
                   Trim(job.input.correlationId), "", [], [], [], [])
  }

  function WithActor(record: DecisionRecord, actor: ActorContextResponse): DecisionRecord {
    record.(taifaIdCorrelationId := actor.correlationId,
            actorContextId := actor.data.actorContextId,
            personId := actor.data.personId,
            credentialId := actor.data.credentialId,
            sessionId := actor.data.sessionId,
            actorRoles := Norm(AllRoles(actor.data)))
  }

  /** Either a denial that needs no policy, or the record with which the policy service is asked. */
  datatype Stage = Early(result: AuthorizeResult) | AskPolicy(record: DecisionRecord)

  function BeforePolicy(job: Job): Stage {
    var record := NewRecord(job);
    var refusal := ValidateRequest(NormalizeAuthorizeRequest(job.input.request), Trim(job.input.token));
    if refusal.reason != NoReason then
      Early(DenyResult(record.(denyReason := refusal.reason), refusal.status, refusal.code,
                       MessageForStatus(refusal.status)))
    else AskUpstream(job, record)
  }

  /** The two upstream calls of a valid request, and the check that the policy service is there. */
  function AskUpstream(job: Job, record: DecisionRecord): Stage {
    if !job.clientConfigured then
      Early(DenyResult(record.(denyReason := ClientNotConfigured), 503, UpstreamUnavailable, IdentityUnavailable))
    else if job.actor.None? then
      Early(DenyResult(record.(denyReason := ActorContextResolveFailed), 401, Unauthorized, ActorNotValidated))
    else
      var known := WithActor(record, job.actor.value);
      if job.capabilities.None? then
        Early(DenyResult(known.(denyReason := CapabilitiesLookupFailed), 502, UpstreamUnavailable,
                         CapabilitiesNotValidated))
      else
        var full := known.(organizationCapabilities := Norm(job.capabilities.value));
        if !job.policyService then
          Early(DenyResult(full.(denyReason := PolicyEvaluationFailed), 503, UpstreamUnavailable,
                           PolicyServiceUnavailable))
        else AskPolicy(full)
  }

  /** The normalised key that is looked up. */
  function LookupKey(job: Job): RouteKey {
    job.input.request.key.Normalized()
  }

  function Evaluated(record: DecisionRecord, e: EvaluationResult): DecisionRecord {
    record.(decision := e.decision, matchedPolicyId := e.matchedPolicyId, denyReason := e.denyReason,
            requiredRoles := e.requiredRoles, requiredCapabilities := e.requiredCapabilities)
  }

  function AfterPolicy(job: Job, record: DecisionRecord, e: EvaluationResult): AuthorizeResult
    requires job.actor.Some?
  {
    if e.decision == Allow then AllowResult(Evaluated(record, e), Summaries(job.actor.value.data.memberships))
    else DenyResult(Evaluated(record, e), 403, Forbidden, DeniedByPolicy)
  }

  /** The decision for a request, before it is persisted; None when the lookup fails. */
  function Authorization(job: Job, found: LookupResult): Option<AuthorizeResult> {
    match BeforePolicy(job)
    case Early(result) => Some(result)
    case AskPolicy(record) =>
      var e := PolicyEvaluation(LookupKey(job), found, record.actorRoles, record.organizationCapabilities);
      if e.None? then None else Some(AfterPolicy(job, record, e.value))
  }

  // ---------- persistence ----------

  function DecisionRowOf(r: DecisionRecord): DecisionRow {
    DecisionRow(r.id, r.decision, r.key, r.organizationId,
                NullIfEmpty(r.actorContextId), NullIfEmpty(r.personId), NullIfEmpty(r.credentialId),
                NullIfEmpty(r.sessionId), NullIfEmpty(r.matchedPolicyId),
                if r.denyReason == NoReason then None else Some(r.denyReason),
                NullIfEmpty(r.requestCorrelationId), NullIfEmpty(r.taifaIdCorrelationId),
                r.actorRoles, r.organizationCapabilities, r.requiredRoles, r.requiredCapabilities)
  }

  /** A plain INSERT into the decision table is accepted. */
  predicate DecisionFits(db: Db, row: DecisionRow) {
    && DecisionChecks(row)
    && !Clashes(DecisionClash, db.decisions, row)
    && DecisionReference(db.catalog.policies, row)
  }

  predicate EventFits(db: Db, row: EventRow) {
    !Clashes(EventClash, db.outbox, row)
  }

  /** Which statements of the persisting transaction the infrastructure fails. */
  datatype Faults = Faults(begin: bool, decision: bool, event: bool, commit: bool)

  /** Database after the paired write; None when it is rolled back. */
  function Persisted(db: Db, result: AuthorizeResult, event: EventRow, faults: Faults): Option<Db> {
    var row := DecisionRowOf(result.record);
    if faults.begin || faults.decision || faults.event || faults.commit then None
    else if !DecisionFits(db, row) || !EventFits(db, event) then None
    else Some(db.Plus(Db(NO_CATALOG, [row], [event])))
  }

  method InsertDecision(tx: Transaction, record: DecisionRecord, fails: bool) returns (ok: bool)
    modifies tx`work
    ensures var row := DecisionRowOf(record);
            if fails || !DecisionFits(old(tx.work), row) then !ok && tx.work == old(tx.work)
            else ok && tx.work == old(tx.work).Plus(Db(NO_CATALOG, [row], []))
  {
    var row := DecisionRowOf(record);
    if fails || !DecisionFits(tx.work, row) {
      return false;
    }
    tx.work := tx.work.Plus(Db(NO_CATALOG, [row], []));
    return true;
  }

  /** The decision and its audit event, in one transaction. */
  method CreateDecisionWithAudit(pool: Pool?, record: DecisionRecord, event: Event, freshId: string, faults: Faults)
    returns (ok: bool)
    modifies pool
    ensures pool == null ==> !ok
    ensures pool != null ==>
              var row := EventRowOf(event, freshId);
              var after := Persisted(old(pool.committed), AuthorizeResult(record, None, 0, NoError, NoMessage), row, faults);
              if after.None? then !ok && pool.committed == old(pool.committed)
              else ok && pool.committed == after.value
  {
    if pool == null || faults.begin {
      return false;
    }
    var tx := new Transaction.Begin(pool);
    ok := InsertDecision(tx, record, faults.decision);
    if !ok {
      return;
    }
    ok := Seeding.InsertEvent(tx, event, freshId, faults.event);
    if !ok {
      return;
    }
    PlusAssociative(pool.committed, Db(NO_CATALOG, [DecisionRowOf(record)], []),
                    Db(NO_CATALOG, [], [EventRowOf(event, freshId)]));
    ok := tx.Commit(faults.commit);
  }

  /** Identifiers drawn while persisting: the event's own, and the default should that be empty. */
  datatype EventIds = EventIds(id: string, default: string)

  method Persist(pool: Pool?, result: AuthorizeResult, ids: EventIds, faults: Faults) returns (ok: bool)
    modifies pool
    ensures pool == null ==> !ok
    ensures pool != null ==>
              var row := EventRowOf(AuditEventForResult(result, ids.id), ids.default);
              var after := Persisted(old(pool.committed), result, row, faults);
              if after.None? then !ok && pool.committed == old(pool.committed)
              else ok && pool.committed == after.value
  {
    var event := AuditEventForResult(result, ids.id);
    ok := CreateDecisionWithAudit(pool, result.record, event, ids.default, faults);
  }

  /** The steps that fill the decision record, up to the result that is to be persisted. */
  method Decide(job: Job, seen: Reads) returns (result: Option<AuthorizeResult>)
    ensures result == Authorization(job, LookupOf(seen, LookupKey(job)))
  {
    var request := NormalizeAuthorizeRequest(job.input.request);
    var token := Trim(job.input.token);
    var decision := NewRecord(job);
    var refusal := ValidateRequest(request, token);
    if refusal.reason != NoReason {
      decision := decision.(denyReason := refusal.reason);
      return Some(DenyResult(decision, refusal.status, refusal.code, MessageForStatus(refusal.status)));
    }
    if !job.clientConfigured {
      decision := decision.(denyReason := ClientNotConfigured);
      return Some(DenyResult(decision, 503, UpstreamUnavailable,
                             IdentityUnavailable));
    }
    if job.actor.None? {
      decision := decision.(denyReason := ActorContextResolveFailed);
      return Some(DenyResult(decision, 401, Unauthorized, ActorNotValidated));
    }
    var actor := job.actor.value.data;
    var roles := CollectActorRoles(actor);
    decision := decision.(taifaIdCorrelationId := job.actor.value.correlationId,
                          actorContextId := actor.actorContextId, personId := actor.personId,
                          credentialId := actor.credentialId, sessionId := actor.sessionId, actorRoles := roles);
    if job.capabilities.None? {
      decision := decision.(denyReason := CapabilitiesLookupFailed);
      return Some(DenyResult(decision, 502, UpstreamUnavailable,
                             CapabilitiesNotValidated));
    }
    var capabilities := CollectCapabilities(job.capabilities.value);
    decision := decision.(organizationCapabilities := capabilities);
    if !job.policyService {
      decision := decision.(denyReason := PolicyEvaluationFailed);
      return Some(DenyResult(decision, 503, UpstreamUnavailable, PolicyServiceUnavailable));
    }
    assert BeforePolicy(job) == AskPolicy(decision);
    var evaluation := EvaluateRequest(request.key, seen, decision.actorRoles, decision.organizationCapabilities);
    if evaluation.None? {
      return None;
    }
    decision := Evaluated(decision, evaluation.value);
    if evaluation.value.decision == Allow {
      var memberships := SummarizeMemberships(actor.memberships);
      return Some(AllowResult(decision, memberships));
    }
    return Some(DenyResult(decision, 403, Forbidden, DeniedByPolicy));
  }

  /**
   The whole call. It answers exactly when the lookup succeeds and the paired write is committed, and then
   the database has grown by that pair; otherwise it returns an error and the database is unchanged.
   The lookup's three statements see the states given by `seen`; the write starts from the pool's state.
   */
  method Authorize(pool: Pool?, job: Job, seen: Reads, ids: EventIds, faults: Faults)
    returns (answer: Option<AuthorizeResult>)
    modifies pool
    ensures pool == null ==> answer == None
    ensures pool != null ==>
              var decided := Authorization(job, LookupOf(seen, LookupKey(job)));
              if decided.None? then answer == None && pool.committed == old(pool.committed)
              else
                var row := EventRowOf(AuditEventForResult(decided.value, ids.id), ids.default);
                var after := Persisted(old(pool.committed), decided.value, row, faults);
                if after.None? then answer == None && pool.committed == old(pool.committed)
                else answer == decided && pool.committed == after.value
  {
    var result := Decide(job, seen);
    if result.None? {
      return None;
    }
    var ok := Persist(pool, result.value, ids, faults);
    answer := if ok then result else None;
  }
}
