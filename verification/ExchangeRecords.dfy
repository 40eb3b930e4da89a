/** What a decision record, its row and its response tell of the request, the actor and the policy. */
module ExchangeRecords {
  import opened Text
  import opened Normalization
  import opened PolicyModel
  import opened ExchangeModel
  import opened Collecting
  import opened Audit
  import opened Schema
  import opened Evaluator
  import opened Lookup
  import opened Exchange
  import opened ExchangeTheorems

  // ---------- what was known when the decision fell ----------

  /** Denials that come before TaifaID has said who the actor is. */
  predicate BeforeActor(reason: DenyReason) {
    reason in {MissingToken, MissingOrganizationId, MissingTargetSystem, UnsupportedTargetSystem, MissingMethod,
               UnsupportedMethod, MissingRoute, MissingOperation, ClientNotConfigured, ActorContextResolveFailed}
  }

  predicate Anonymous(r: DecisionRecord) {
    && r.actorContextId == r.personId == r.credentialId == r.sessionId == r.taifaIdCorrelationId == ""
    && r.actorRoles == []
  }

  predicate Identified(r: DecisionRecord, actor: ActorContextResponse) {
    && r.actorContextId == actor.data.actorContextId && r.personId == actor.data.personId
    && r.credentialId == actor.data.credentialId && r.sessionId == actor.data.sessionId
    && r.taifaIdCorrelationId == actor.correlationId
    && r.actorRoles == Norm(AllRoles(actor.data))
  }

  /** The record is of this request, and holds exactly what was known when the decision fell. */
  predicate Traced(job: Job, r: DecisionRecord) {
    && r.id == job.decisionId && r.requestCorrelationId == Trim(job.input.correlationId)
    && r.organizationId == TrimOrUnknown(Trim(job.input.request.organizationId))
    && (if BeforeActor(r.denyReason) then Anonymous(r)
        else job.actor.Some? && Identified(r, job.actor.value))
    && (if BeforeActor(r.denyReason) || r.denyReason == CapabilitiesLookupFailed then r.organizationCapabilities == []
        else job.capabilities.Some? && r.organizationCapabilities == Norm(job.capabilities.value))
  }

  /** The response repeats the stored decision and adds the membership summaries. */
  predicate Mirrored(job: Job, result: AuthorizeResult) {
    result.response.Some? ==>
      var response, record := result.response.value, result.record;
      && job.actor.Some?
      && response.decisionId == record.id && response.decision == record.decision == Allow
      && response.key == record.key && response.matchedPolicyId == record.matchedPolicyId
      && response.actorContext == ActorContextSummary(record.actorContextId, record.personId, record.credentialId,
           record.organizationId, record.sessionId, record.actorRoles, Summaries(job.actor.value.data.memberships))
      && response.obligations.propagateCorrelationId && response.obligations.requireAudit
  }

  lemma RefusalsComeBeforeActor(request: AuthorizeRequest, token: string)
    ensures ValidateRequest(request, token).reason != NoReason ==> BeforeActor(ValidateRequest(request, token).reason)
  {
  }

  /** The record that goes to the policy service knows the actor and the capabilities. */
  predicate FullyKnown(job: Job, full: DecisionRecord) {
    && job.actor.Some? && job.capabilities.Some? && Identified(full, job.actor.value)
    && full.organizationCapabilities == Norm(job.capabilities.value)
    && full.id == job.decisionId && full.requestCorrelationId == Trim(job.input.correlationId)
    && full.organizationId == TrimOrUnknown(Trim(job.input.request.organizationId))
  }

  lemma DenialIsTraced(job: Job, record: DecisionRecord, status: int, code: ErrorCode, message: ErrorMessage)
    requires Traced(job, record)
    ensures var result := DenyResult(record, status, code, message);
            Traced(job, result.record) && Mirrored(job, result)
  {
  }

  /** The record as it grows: nothing known, the actor known, the capabilities known. */
  lemma StagesAreTraced(job: Job)
    ensures forall reason | BeforeActor(reason) :: Traced(job, NewRecord(job).(denyReason := reason))
    ensures job.actor.Some? ==>
              Traced(job, WithActor(NewRecord(job), job.actor.value).(denyReason := CapabilitiesLookupFailed))
    ensures job.actor.Some? && job.capabilities.Some? ==>
              var full := WithActor(NewRecord(job), job.actor.value)
                          .(organizationCapabilities := Norm(job.capabilities.value));
              FullyKnown(job, full) && Traced(job, full.(denyReason := PolicyEvaluationFailed))
  {
  }

  lemma UpstreamIsTraced(job: Job)
    ensures match AskUpstream(job, NewRecord(job))
            case Early(result) => Traced(job, result.record) && Mirrored(job, result)
            case AskPolicy(full) => FullyKnown(job, full)
  {
    var record := NewRecord(job);
    StagesAreTraced(job);
    if !job.clientConfigured {
      DenialIsTraced(job, record.(denyReason := ClientNotConfigured), 503, UpstreamUnavailable, IdentityUnavailable);
    } else if job.actor.None? {
      DenialIsTraced(job, record.(denyReason := ActorContextResolveFailed), 401, Unauthorized, ActorNotValidated);
    } else if job.capabilities.None? {
      var known := WithActor(record, job.actor.value);
      DenialIsTraced(job, known.(denyReason := CapabilitiesLookupFailed), 502, UpstreamUnavailable,
                     CapabilitiesNotValidated);
    } else if !job.policyService {
      var full := WithActor(record, job.actor.value).(organizationCapabilities := Norm(job.capabilities.value));
      DenialIsTraced(job, full.(denyReason := PolicyEvaluationFailed), 503, UpstreamUnavailable,
                     PolicyServiceUnavailable);
    }
  }

  lemma EarlyIsTraced(job: Job)
    ensures match BeforePolicy(job)
            case Early(result) => Traced(job, result.record) && Mirrored(job, result)
            case AskPolicy(full) => FullyKnown(job, full)
  {
    RefusalsComeBeforeActor(NormalizeAuthorizeRequest(job.input.request), Trim(job.input.token));
    UpstreamIsTraced(job);
  }

  lemma PolicyAnswerIsTraced(job: Job, full: DecisionRecord, e: EvaluationResult)
    requires FullyKnown(job, full)
    requires !BeforeActor(e.denyReason) && e.denyReason != CapabilitiesLookupFailed
    ensures Traced(job, AfterPolicy(job, full, e).record)
    ensures Mirrored(job, AfterPolicy(job, full, e))
  {
  }

  lemma LaterAnswerIsTraced(job: Job, full: DecisionRecord, e: EvaluationResult, result: AuthorizeResult)
    requires FullyKnown(job, full) && result == AfterPolicy(job, full, e)
    requires e.denyReason in {NoReason, PolicyNotFound, PolicyDisabled, ExplicitPolicyDeny, MissingRequiredRole,
                              MissingRequiredCapability}
    ensures Traced(job, result.record) && Mirrored(job, result)
  {
    PolicyAnswerIsTraced(job, full, e);
  }

  lemma PolicyCaseIsTraced(job: Job, found: LookupResult, result: AuthorizeResult)
    requires FromTables(found) && Authorization(job, found) == Some(result) && BeforePolicy(job).AskPolicy?
    ensures Traced(job, result.record) && Mirrored(job, result)
  {
    EarlyIsTraced(job);
    EvaluatorReasons(job, found);
    var full := BeforePolicy(job).record;
    var e := PolicyEvaluation(LookupKey(job), found, full.actorRoles, full.organizationCapabilities).value;
    LaterAnswerIsTraced(job, full, e, result);
  }

  /** Every answer is traced to its request, and its response mirrors what is stored. */
  lemma AnswersAreTraced(job: Job, seen: Reads, result: AuthorizeResult)
    requires ValidCatalog(seen.policy) && Authorization(job, LookupOf(seen, LookupKey(job))) == Some(result)
    ensures Traced(job, result.record) && Mirrored(job, result)
  {
    if BeforePolicy(job).Early? {
      EarlyIsTraced(job);
    } else {
      LookupsComeFromTables(seen, LookupKey(job));
      PolicyCaseIsTraced(job, LookupOf(seen, LookupKey(job)), result);
    }
  }

  // ---------- the raw request in the record ----------

  function OrUnknown(value: string): string {
    if Blank(value) then "UNKNOWN" else Trim(value)
  }

  /** Organization and key of the raw request, unknown codes and blank texts replaced; roles as the actor brings them. */
  ghost predicate Requested(job: Job, r: DecisionRecord) {
    var raw := job.input.request;
    && r.organizationId == OrUnknown(raw.organizationId)
    && r.key.route == OrUnknown(raw.key.route) && r.key.operation == OrUnknown(raw.key.operation)
    && (if Unknown(raw.key.targetSystem, TARGET_SYSTEMS) then r.key.targetSystem == "UNKNOWN"
        else r.key.targetSystem in TARGET_SYSTEMS && SameCode(r.key.targetSystem, raw.key.targetSystem))
    && (if Unknown(raw.key.verb, METHODS) then r.key.verb == "UNKNOWN"
        else r.key.verb in METHODS && SameCode(r.key.verb, raw.key.verb))
    && (r.actorRoles == [] || (job.actor.Some? && CollectedFrom(job.actor.value.data, r.actorRoles)))
  }

  lemma TrimmedOrUnknown(value: string)
    ensures TrimOrUnknown(Trim(value)) == OrUnknown(value)
  {
    TrimIdempotent(value);
    TrimEmpty(value);
  }

  lemma CodeOrUnknown(value: string, code: string, codes: set<string>)
    requires codes == TARGET_SYSTEMS || codes == METHODS
    requires code == if Canon(Canon(value)) in codes then Canon(Canon(value)) else UNKNOWN
    ensures if Unknown(value, codes) then code == "UNKNOWN" else code in codes && SameCode(code, value)
  {
    KnownCodeIff(value, codes);
    CanonIdempotent(value);
    CanonCharacterised(code, value);
  }

  lemma NewRecordIsRequested(job: Job)
    ensures Requested(job, NewRecord(job))
  {
    var raw, r := job.input.request, NewRecord(job);
    TrimmedOrUnknown(raw.organizationId);
    TrimmedOrUnknown(raw.key.route);
    TrimmedOrUnknown(raw.key.operation);
    CodeOrUnknown(raw.key.targetSystem, r.key.targetSystem, TARGET_SYSTEMS);
    CodeOrUnknown(raw.key.verb, r.key.verb, METHODS);
  }

  /** Every record tells what was requested, whatever became of the request. */
  lemma RecordsTellTheRequest(job: Job, seen: Reads, result: AuthorizeResult)
    requires ValidCatalog(seen.policy) && Authorization(job, LookupOf(seen, LookupKey(job))) == Some(result)
    ensures Requested(job, result.record)
  {
    NewRecordIsRequested(job);
    DecisionOrigin(job, seen);
    AnswersAreTraced(job, seen, result);
    if job.actor.Some? {
      CollectedRolesAre(job.actor.value.data);
    }
    TrimmedOrUnknown(job.input.request.organizationId);
  }

  // ---------- the policy in the record ----------

  lemma {:induction false} NormFromFixes(acc: seq<string>, xs: seq<string>)
    requires NoDuplicates(acc + xs) && AllCanonical(xs)
    ensures NormFrom(acc, xs) == acc + xs
    decreases |xs|
  {
    if xs != [] {
      assert (acc + xs)[|acc|] == xs[0];
      assert forall i | 0 <= i < |acc| :: (acc + xs)[i] == acc[i];
      assert xs[0] !in acc;
      assert acc + [xs[0]] + xs[1..] == acc + xs;
      NormFromFixes(acc + [xs[0]], xs[1..]);
    } else {
      assert acc + xs == acc;
    }
  }

  lemma StoredNamesAreNormal(c: Catalog, id: string)
    requires ValidCatalog(c)
    ensures Norm(NamesOf(c.roles, id)) == NamesOf(c.roles, id)
    ensures Norm(NamesOf(c.capabilities, id)) == NamesOf(c.capabilities, id)
  {
    RequiredNamesAreCanonical(c, id);
    NamesOfMembers(c.roles, id);
    NamesOfMembers(c.capabilities, id);
    assert [] + NamesOf(c.roles, id) == NamesOf(c.roles, id);
    assert [] + NamesOf(c.capabilities, id) == NamesOf(c.capabilities, id);
    NormFromFixes([], NamesOf(c.roles, id));
    NormFromFixes([], NamesOf(c.capabilities, id));
  }

  lemma PolicyStepKeepsInputs(job: Job, record: DecisionRecord, e: EvaluationResult)
    requires job.actor.Some?
    ensures var r := AfterPolicy(job, record, e).record;
            && r.actorRoles == record.actorRoles && r.organizationCapabilities == record.organizationCapabilities
            && r.key == record.key && r.matchedPolicyId == e.matchedPolicyId
            && r.requiredRoles == e.requiredRoles && r.requiredCapabilities == e.requiredCapabilities
  {
  }

  lemma EvaluationKeepsLists(input: EvaluationInput)
    requires KeyGap(input.key.Normalized()) == NoReason && input.policy.Some?
    ensures var e := Evaluation(input);
            && e.matchedPolicyId == input.policy.value.id
            && e.requiredRoles == Norm(input.policy.value.requiredRoles)
            && e.requiredCapabilities == Norm(input.policy.value.requiredCapabilities)
  {
  }

  /** What the record of a policy decision keeps of its inputs. */
  lemma RecordedLists(job: Job, found: LookupResult)
    requires BeforePolicy(job).AskPolicy? && found.Found?
    ensures var record := Authorization(job, found).value.record;
            && record.actorRoles == Norm(AllRoles(job.actor.value.data))
            && record.organizationCapabilities == Norm(job.capabilities.value)
            && record.key == LookupKey(job)
            && record.matchedPolicyId == found.policy.id
            && record.requiredRoles == Norm(found.policy.requiredRoles)
            && record.requiredCapabilities == Norm(found.policy.requiredCapabilities)
  {
    KeysCoincide(job, found);
    var record := BeforePolicy(job).record;
    var input := EvaluationInput(LookupKey(job).Normalized(), Some(found.policy), record.actorRoles,
                                 record.organizationCapabilities);
    EvaluationKeepsLists(input);
    PolicyStepKeepsInputs(job, record, Evaluation(input));
  }

  /** The policy found and its requirements as they were read; nothing of that when no policy was found. */
  ghost predicate TellsItsPolicy(job: Job, seen: Reads, r: DecisionRecord) {
    if Rank(r.denyReason) > Rank(PolicyNotFound) then
      exists p :: Finds(job, seen, p) && r.matchedPolicyId == p.id
                  && r.requiredRoles == NamesOf(seen.roles.roles, p.id)
                  && r.requiredCapabilities == NamesOf(seen.capabilities.capabilities, p.id)
    else r.matchedPolicyId == "" && r.requiredRoles == [] && r.requiredCapabilities == []
  }

  lemma MissingPolicyIsTold(job: Job, result: AuthorizeResult)
    requires BeforePolicy(job).AskPolicy? && Authorization(job, NotFound) == Some(result)
    ensures result.record.denyReason == PolicyNotFound
    ensures result.record.matchedPolicyId == "" && result.record.requiredRoles == result.record.requiredCapabilities == []
  {
    KeysCoincide(job, NotFound);
  }

  /** Every record tells the policy that decided it and the requirements that were read, or that there was none. */
  lemma RecordsTellThePolicy(job: Job, seen: Reads, result: AuthorizeResult)
    requires ValidReads(seen) && Authorization(job, LookupOf(seen, LookupKey(job))) == Some(result)
    ensures TellsItsPolicy(job, seen, result.record)
  {
    if BeforePolicy(job).Early? {
      EarlyIsDenied(job);
      EarlyReason(job, seen);
      EarlyRank(job);
    } else {
      var row := LookupFinds(job, seen);
      if row.None? {
        MissingPolicyIsTold(job, result);
      } else {
        StoredNamesAreNormal(seen.roles, row.value.id);
        StoredNamesAreNormal(seen.capabilities, row.value.id);
        RecordedLists(job, LookupOf(seen, LookupKey(job)));
        LookupsComeFromTables(seen, LookupKey(job));
        FoundRank(job, LookupOf(seen, LookupKey(job)));
      }
    }
  }

  lemma UpstreamRank(job: Job, record: DecisionRecord)
    requires AskUpstream(job, record).Early?
    ensures Rank(AskUpstream(job, record).result.record.denyReason) < Rank(PolicyNotFound)
  {
  }

  lemma EarlyRank(job: Job)
    requires BeforePolicy(job).Early?
    ensures Rank(BeforePolicy(job).result.record.denyReason) < Rank(PolicyNotFound)
  {
    RefusalsAre(NormalizeAuthorizeRequest(job.input.request), Trim(job.input.token));
    if ValidateRequest(NormalizeAuthorizeRequest(job.input.request), Trim(job.input.token)).reason == NoReason {
      UpstreamRank(job, NewRecord(job));
    }
  }

  lemma VerdictRank(policy: Policy, actor: set<string>, held: set<string>)
    ensures Rank(PolicyVerdict(policy, actor, held)) > Rank(PolicyNotFound)
  {
  }

  lemma FoundRank(job: Job, found: LookupResult)
    requires BeforePolicy(job).AskPolicy? && found.Found?
    ensures Rank(Authorization(job, found).value.record.denyReason) > Rank(PolicyNotFound)
  {
    ReasonFollowsVerdict(job, found);
    VerdictRank(found.policy, NormSet(AllRoles(job.actor.value.data)), NormSet(job.capabilities.value));
  }

  // ---------- the record in its row ----------

  /** The record as it can be read back from the decision table. */
  function ReadRecord(row: DecisionRow): DecisionRecord {
    DecisionRecord(row.id, row.decision, row.key, row.organizationId, TextOf(row.actorContextId), TextOf(row.personId),
                   TextOf(row.credentialId), TextOf(row.sessionId), TextOf(row.matchedPolicyId),
                   if row.denyReason.None? then NoReason else row.denyReason.value,
                   TextOf(row.requestCorrelationId), TextOf(row.taifaIdCorrelationId), row.actorRoles,
                   row.organizationCapabilities, row.requiredRoles, row.requiredCapabilities)
  }

  /** No nullable column holds the empty text or the empty reason: those are NULL. */
  predicate NullsAreNull(row: DecisionRow) {
    && row.actorContextId != Some("") && row.personId != Some("") && row.credentialId != Some("")
    && row.sessionId != Some("") && row.matchedPolicyId != Some("") && row.denyReason != Some(NoReason)
    && row.requestCorrelationId != Some("") && row.taifaIdCorrelationId != Some("")
  }

  /** A row determines its record, and is the one row without empty texts that does. */
  lemma RowsTellTheRecord(r: DecisionRecord, row: DecisionRow)
    ensures row == DecisionRowOf(r) <==> ReadRecord(row) == r && NullsAreNull(row)
  {
  }
}
