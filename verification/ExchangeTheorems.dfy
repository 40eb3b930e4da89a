/** What the pipeline promises for every request: who is allowed, what is stored, and what is answered. */
module ExchangeTheorems {
  import opened Text
  import opened Normalization
  import opened PolicyModel
  import opened ExchangeModel
  import opened Audit
  import opened Schema
  import opened Evaluator
  import opened Lookup
  import opened Collecting
  import opened Exchange

  // ---------- repeated normalisation along the pipeline ----------

  lemma KnownCode(value: string, codes: set<string>)
    requires codes == TARGET_SYSTEMS || codes == METHODS
    ensures Canon(Canon(value)) == Canon(value)
    ensures Canon(value) in codes ==> Canon(value) != UNKNOWN && Canon(value) != ""
  {
    CanonIdempotent(value);
    CodesAreCanonical();
  }

  /** A request passes validation exactly when all its parts are there and its codes are known. */
  lemma AcceptedIff(job: Job)
    ensures var raw := job.input.request;
            ValidateRequest(NormalizeAuthorizeRequest(raw), Trim(job.input.token)) == ACCEPTED <==>
            && !Blank(job.input.token) && !Blank(raw.organizationId)
            && Canon(raw.key.targetSystem) in TARGET_SYSTEMS && Canon(raw.key.verb) in METHODS
            && !Blank(raw.key.route) && !Blank(raw.key.operation)
    ensures var raw := job.input.request;
            var refusal := ValidateRequest(NormalizeAuthorizeRequest(raw), Trim(job.input.token));
            refusal == ACCEPTED <==> refusal.reason == NoReason
  {
    var raw := job.input.request;
    TrimIdempotent(job.input.token);
    TrimIdempotent(raw.organizationId);
    TrimIdempotent(raw.key.route);
    TrimIdempotent(raw.key.operation);
    TrimEmpty(job.input.token);
    TrimEmpty(raw.organizationId);
    TrimEmpty(raw.key.route);
    TrimEmpty(raw.key.operation);
    KnownCode(raw.key.targetSystem, TARGET_SYSTEMS);
    KnownCode(raw.key.verb, METHODS);
    CanonIdempotent(raw.key.targetSystem);
    CanonIdempotent(raw.key.verb);
  }

  /** All parts of the request are there, its codes are known, and both upstream answers came. */
  predicate Complete(job: Job) {
    var raw := job.input.request;
    && !Blank(job.input.token) && !Blank(raw.organizationId)
    && Canon(raw.key.targetSystem) in TARGET_SYSTEMS && Canon(raw.key.verb) in METHODS
    && !Blank(raw.key.route) && !Blank(raw.key.operation)
    && job.clientConfigured && job.actor.Some? && job.capabilities.Some? && job.policyService
  }

  /** The policy service is asked exactly for complete requests; every other request is denied early. */
  lemma AsksPolicyIffComplete(job: Job)
    ensures BeforePolicy(job).AskPolicy? <==> Complete(job)
  {
    AcceptedIff(job);
    UpstreamAsksPolicy(job, NewRecord(job));
  }

  lemma UpstreamAsksPolicy(job: Job, record: DecisionRecord)
    ensures AskUpstream(job, record).AskPolicy? <==>
            job.clientConfigured && job.actor.Some? && job.capabilities.Some? && job.policyService
  {
  }

  /**
   For every request that reaches the policy service, the key stored in the decision, the key looked up and
   the key given to the evaluator are one, its fields are all there, and the lists come out of the evaluator
   as they went in.
   */
  lemma KeysCoincide(job: Job, found: LookupResult)
    requires BeforePolicy(job).AskPolicy?
    ensures var record := BeforePolicy(job).record;
            && record.key == LookupKey(job) == LookupKey(job).Normalized()
            && KeyGap(record.key) == NoReason
            && record.key.targetSystem in TARGET_SYSTEMS && record.key.verb in METHODS
            && var e := PolicyEvaluation(LookupKey(job), found, record.actorRoles, record.organizationCapabilities);
               e.Some? ==> e.value.key == record.key && e.value.actorRoles == record.actorRoles
                           && e.value.organizationCapabilities == record.organizationCapabilities
  {
    var raw := job.input.request;
    AcceptedIff(job);
    NormalizedIdempotent(raw.key);
    KnownCode(raw.key.targetSystem, TARGET_SYSTEMS);
    KnownCode(raw.key.verb, METHODS);
    TrimIdempotent(raw.key.route);
    TrimIdempotent(raw.key.operation);
    TrimEmpty(raw.key.route);
    TrimEmpty(raw.key.operation);
    NormIdempotent(AllRoles(job.actor.value.data));
    NormIdempotent(job.capabilities.value);
  }

  // ---------- who is allowed ----------

  ghost predicate ValidReads(seen: Reads) {
    ValidCatalog(seen.policy) && ValidCatalog(seen.roles) && ValidCatalog(seen.capabilities)
  }

  /** The stored key is the requested one: codes up to spelling, route and operation up to outer blanks. */
  ghost predicate Governs(key: RouteKey, requested: RouteKey) {
    && SameCode(key.targetSystem, requested.targetSystem) && SameCode(key.verb, requested.verb)
    && key.route == Trim(requested.route) && key.operation == Trim(requested.operation)
  }

  lemma GovernsIff(p: PolicyRow, requested: RouteKey)
    requires PolicyChecks(p)
    ensures Governs(p.key, requested) <==> p.key == requested.Normalized()
  {
    PolicyCodesAreCanonical(p);
    CanonCharacterised(p.key.targetSystem, requested.targetSystem);
    CanonCharacterised(p.key.verb, requested.verb);
  }

  /** Some capability of the organization spells this code. */
  ghost predicate HasCapability(capabilities: seq<string>, code: string) {
    exists held :: held in capabilities && SameCode(held, code)
  }

  lemma CapabilityIffHeld(capabilities: seq<string>, code: string)
    requires code != "" && Canon(code) == code
    ensures code in NormSet(capabilities) <==> HasCapability(capabilities, code)
    ensures code in Norm(capabilities) <==> HasCapability(capabilities, code)
  {
    NormShape(capabilities);
    forall held ensures SameCode(held, code) <==> Canon(held) == code { CanonCharacterised(held, code); }
  }

  /** One of the roles that the table requires of the policy, if there are any. */
  ghost predicate MeetsRoles(actor: ActorContext, table: seq<RequirementRow>, id: string) {
    (forall x :: !Requires(table, id, x)) || exists x :: Requires(table, id, x) && BroughtBy(actor, x)
  }

  /** All capabilities that the table requires of the policy. */
  ghost predicate MeetsCapabilities(capabilities: seq<string>, table: seq<RequirementRow>, id: string) {
    forall x | Requires(table, id, x) :: HasCapability(capabilities, x)
  }

  /** The access rule for a request against the tables that the three statements of its lookup see, on raw inputs. */
  ghost predicate Entitled(job: Job, seen: Reads, p: PolicyRow) {
    && job.actor.Some? && job.capabilities.Some?
    && p in seen.policy.policies && Governs(p.key, job.input.request.key)
    && p.status == STATUS_ACTIVE && p.effect == EFFECT_ALLOW
    && MeetsRoles(job.actor.value.data, seen.roles.roles, p.id)
    && MeetsCapabilities(job.capabilities.value, seen.capabilities.capabilities, p.id)
  }

  lemma RequiredNamesAreCanonical(c: Catalog, id: string)
    requires ValidCatalog(c)
    ensures AllCanonical(NamesOf(c.roles, id)) && AllCanonical(NamesOf(c.capabilities, id))
  {
    NamesOfMembers(c.roles, id);
    NamesOfMembers(c.capabilities, id);
    forall x | x in NamesOf(c.roles, id) ensures x != "" && Canon(x) == x {
      assert Requires(c.roles, id, x);
      RoleCodeIsCanonical(x);
    }
    forall x | x in NamesOf(c.capabilities, id) ensures x != "" && Canon(x) == x {
      assert Requires(c.capabilities, id, x);
      CapabilityCodeIsCanonical(x);
    }
  }

  lemma RoleCodeIsCanonical(x: string)
    requires x in ROLE_CODES
    ensures x != "" && Canon(x) == x
  {
    assert |x| > 0;
    CanonFixes(x);
  }

  lemma CapabilityCodeIsCanonical(x: string)
    requires x in CAPABILITY_CODES
    ensures x != "" && Canon(x) == x
  {
    assert |x| > 0;
    CanonFixes(x);
  }

  lemma StoredTextIsCanonical(p: PolicyRow)
    requires PolicyChecks(p)
    ensures Canon(p.status) == p.status && Canon(p.effect) == p.effect
  {
  }

  lemma CanonicalRequirements(required: seq<string>, held: set<string>)
    requires AllCanonical(required)
    ensures MeetsAnyRole(held, required) <==> exists r | r in required :: r in held
    ensures HoldsAll(held, required) <==> forall r | r in required :: r in held
    ensures NormSet(required) == {} <==> required == []
  {
    if required != [] {
      var r := required[0];
      assert r in required && Canon(r) == r && r != "";
      assert r in NormSet(required);
    }
  }

  /** What a table requires, on the normalised lists and on the raw ones. */
  lemma RolesAreMetIff(c: Catalog, id: string, actor: ActorContext)
    requires ValidCatalog(c)
    ensures NamesOf(c.roles, id) == [] <==> forall x :: !Requires(c.roles, id, x)
    ensures MeetsRoles(actor, c.roles, id) <==>
            NamesOf(c.roles, id) == [] || exists r | r in NamesOf(c.roles, id) :: r in NormSet(AllRoles(actor))
  {
    NamesOfMembers(c.roles, id);
    RequiredNamesAreCanonical(c, id);
    forall x | x in NamesOf(c.roles, id) ensures x in NormSet(AllRoles(actor)) <==> BroughtBy(actor, x) {
      CollectedIffBrought(actor, x);
    }
    if NamesOf(c.roles, id) != [] {
      assert NamesOf(c.roles, id)[0] in NamesOf(c.roles, id);
    }
  }

  lemma CapabilitiesAreMetIff(c: Catalog, id: string, capabilities: seq<string>)
    requires ValidCatalog(c)
    ensures MeetsCapabilities(capabilities, c.capabilities, id) <==>
            forall r | r in NamesOf(c.capabilities, id) :: r in NormSet(capabilities)
  {
    NamesOfMembers(c.capabilities, id);
    RequiredNamesAreCanonical(c, id);
    forall x | x in NamesOf(c.capabilities, id) ensures x in NormSet(capabilities) <==> HasCapability(capabilities, x) {
      CapabilityIffHeld(capabilities, x);
    }
  }

  /** What stands in the way of an ALLOW once the policy is found. */
  ghost predicate PolicyHindrance(job: Job, seen: Reads, p: PolicyRow, reason: DenyReason)
    requires job.actor.Some? && job.capabilities.Some?
  {
    match reason
    case PolicyDisabled => p.status != STATUS_ACTIVE
    case ExplicitPolicyDeny => p.effect == EFFECT_DENY
    case MissingRequiredRole => !MeetsRoles(job.actor.value.data, seen.roles.roles, p.id)
    case MissingRequiredCapability => !MeetsCapabilities(job.capabilities.value, seen.capabilities.capabilities, p.id)
    case _ => false
  }

  lemma VerdictOnTables(policy: Policy, actor: set<string>, held: set<string>)
    requires AllCanonical(policy.requiredRoles) && AllCanonical(policy.requiredCapabilities)
    requires policy.status in {STATUS_ACTIVE, STATUS_DISABLED} && policy.effect in {EFFECT_ALLOW, EFFECT_DENY}
    ensures PolicyVerdict(policy, actor, held) ==
            PolicyChain(policy.status != STATUS_ACTIVE, policy.effect == EFFECT_DENY, false,
                        !(policy.requiredRoles == [] || exists r | r in policy.requiredRoles :: r in actor),
                        !(forall r | r in policy.requiredCapabilities :: r in held))
  {
    CanonFixes(policy.status);
    CanonFixes(policy.effect);
    CanonicalRequirements(policy.requiredRoles, actor);
    CanonicalRequirements(policy.requiredCapabilities, held);
  }

  /** On valid tables the evaluator's verdict on a stored policy is the first hindrance. */
  lemma VerdictIsPlain(job: Job, seen: Reads, p: PolicyRow)
    requires ValidReads(seen) && p in seen.policy.policies && job.actor.Some? && job.capabilities.Some?
    ensures var policy := Assemble(p, NamesOf(seen.roles.roles, p.id), NamesOf(seen.capabilities.capabilities, p.id));
            PolicyVerdict(policy, NormSet(AllRoles(job.actor.value.data)), NormSet(job.capabilities.value)) ==
            PolicyChain(p.status != STATUS_ACTIVE, p.effect == EFFECT_DENY, false,
                        !MeetsRoles(job.actor.value.data, seen.roles.roles, p.id),
                        !MeetsCapabilities(job.capabilities.value, seen.capabilities.capabilities, p.id))
  {
    var policy := Assemble(p, NamesOf(seen.roles.roles, p.id), NamesOf(seen.capabilities.capabilities, p.id));
    assert PolicyChecks(p);
    RequiredNamesAreCanonical(seen.roles, p.id);
    RequiredNamesAreCanonical(seen.capabilities, p.id);
    VerdictOnTables(policy, NormSet(AllRoles(job.actor.value.data)), NormSet(job.capabilities.value));
    RolesAreMetIff(seen.roles, p.id, job.actor.value.data);
    CapabilitiesAreMetIff(seen.capabilities, p.id, job.capabilities.value);
  }

  lemma PolicyStepKeepsDecision(job: Job, record: DecisionRecord, e: EvaluationResult)
    requires job.actor.Some?
    ensures var r := AfterPolicy(job, record, e).record;
            r.decision == e.decision && r.matchedPolicyId == e.matchedPolicyId && r.denyReason == e.denyReason
  {
  }

  lemma EvaluationFollowsVerdict(key: RouteKey, found: LookupResult, actorRoles: seq<string>, capabilities: seq<string>)
    requires KeyGap(key.Normalized()) == NoReason && !found.LookupError?
    ensures var e := PolicyEvaluation(key, found, actorRoles, capabilities);
            && e.Some?
            && (e.value.decision == Allow <==>
                found.Found? && PolicyVerdict(found.policy, NormSet(actorRoles), NormSet(capabilities)) == NoReason)
            && (e.value.decision == Allow ==> e.value.matchedPolicyId == found.policy.id)
            && e.value.denyReason == if found.NotFound? then PolicyNotFound
                                     else PolicyVerdict(found.policy, NormSet(actorRoles), NormSet(capabilities))
  {
    NormalizedIdempotent(key);
  }

  /** The decision of a request that asks for a policy, in terms of the verdict on the policy found. */
  lemma DecisionFollowsVerdict(job: Job, found: LookupResult)
    requires BeforePolicy(job).AskPolicy? && !found.LookupError?
    ensures var decided := Authorization(job, found);
            && decided.Some?
            && (decided.value.record.decision == Allow <==>
                found.Found? && PolicyVerdict(found.policy, NormSet(AllRoles(job.actor.value.data)),
                                              NormSet(job.capabilities.value)) == NoReason)
            && (decided.value.record.decision == Allow ==> decided.value.record.matchedPolicyId == found.policy.id)
  {
    KeysCoincide(job, found);
    NormSetOfNorm(AllRoles(job.actor.value.data));
    NormSetOfNorm(job.capabilities.value);
    var record := BeforePolicy(job).record;
    EvaluationFollowsVerdict(LookupKey(job), found, record.actorRoles, record.organizationCapabilities);
    PolicyStepKeepsDecision(job, record,
                            PolicyEvaluation(LookupKey(job), found, record.actorRoles, record.organizationCapabilities).value);
  }

  /** And its reason. */
  lemma ReasonFollowsVerdict(job: Job, found: LookupResult)
    requires BeforePolicy(job).AskPolicy? && !found.LookupError?
    ensures var decided := Authorization(job, found);
            && decided.Some?
            && decided.value.record.denyReason ==
               if found.NotFound? then PolicyNotFound
               else PolicyVerdict(found.policy, NormSet(AllRoles(job.actor.value.data)), NormSet(job.capabilities.value))
  {
    KeysCoincide(job, found);
    NormSetOfNorm(AllRoles(job.actor.value.data));
    NormSetOfNorm(job.capabilities.value);
    var record := BeforePolicy(job).record;
    EvaluationFollowsVerdict(LookupKey(job), found, record.actorRoles, record.organizationCapabilities);
    PolicyStepKeepsDecision(job, record,
                            PolicyEvaluation(LookupKey(job), found, record.actorRoles, record.organizationCapabilities).value);
  }

  // ---------- the reason, end to end ----------

  ghost predicate Finds(job: Job, seen: Reads, p: PolicyRow) {
    p in seen.policy.policies && Governs(p.key, job.input.request.key)
  }

  /** No code of the list is spelt like that. */
  ghost predicate Unknown(value: string, codes: set<string>) {
    forall code | code in codes :: !SameCode(value, code)
  }

  /** What stands in the way of the request itself. */
  ghost predicate RequestHindrance(input: AuthorizeInput, reason: DenyReason) {
    var raw := input.request;
    match reason
    case MissingToken => Blank(input.token)
    case MissingOrganizationId => Blank(raw.organizationId)
    case MissingTargetSystem => Blank(raw.key.targetSystem)
    case UnsupportedTargetSystem => Unknown(raw.key.targetSystem, TARGET_SYSTEMS)
    case MissingMethod => Blank(raw.key.verb)
    case UnsupportedMethod => Unknown(raw.key.verb, METHODS)
    case MissingRoute => Blank(raw.key.route)
    case MissingOperation => Blank(raw.key.operation)
    case _ => false
  }

  /** What stands in the way of an ALLOW, per reason: the raw request, the upstream answers, the tables read. */
  ghost predicate Hindrance(job: Job, seen: Reads, reason: DenyReason) {
    match reason
    case MissingToken | MissingOrganizationId | MissingTargetSystem | UnsupportedTargetSystem | MissingMethod
         | UnsupportedMethod | MissingRoute | MissingOperation => RequestHindrance(job.input, reason)
    case ClientNotConfigured => !job.clientConfigured
    case ActorContextResolveFailed => job.actor.None?
    case CapabilitiesLookupFailed => job.capabilities.None?
    case PolicyEvaluationFailed => !job.policyService
    case PolicyNotFound => forall p :: !Finds(job, seen, p)
    case _ =>
      job.actor.Some? && job.capabilities.Some? && exists p :: Finds(job, seen, p) && PolicyHindrance(job, seen, p, reason)
  }

  ghost function Hindrances(job: Job, seen: Reads): iset<DenyReason> {
    iset reason | Hindrance(job, seen, reason)
  }

  lemma KnownCodeIff(value: string, codes: set<string>)
    requires codes == TARGET_SYSTEMS || codes == METHODS
    ensures Canon(value) in codes <==> !Unknown(value, codes)
  {
    CodesAreCanonical();
    forall code | code in codes ensures SameCode(value, code) <==> Canon(value) == code {
      CanonCharacterised(value, code);
    }
  }

  /** What validation looks at is there in the raw request. */
  lemma NormalisedRequest(input: AuthorizeInput)
    ensures var raw, n := input.request, NormalizeAuthorizeRequest(input.request);
            && (Trim(Trim(input.token)) == "" <==> Blank(input.token))
            && (Trim(n.organizationId) == "" <==> Blank(raw.organizationId))
            && (Trim(n.key.targetSystem) == "" <==> Blank(raw.key.targetSystem))
            && (Trim(n.key.verb) == "" <==> Blank(raw.key.verb))
            && (Trim(n.key.route) == "" <==> Blank(raw.key.route))
            && (Trim(n.key.operation) == "" <==> Blank(raw.key.operation))
  {
    var raw := input.request;
    TrimIdempotent(input.token);
    TrimIdempotent(raw.organizationId);
    TrimIdempotent(raw.key.route);
    TrimIdempotent(raw.key.operation);
    TrimEmpty(input.token);
    TrimEmpty(raw.organizationId);
    TrimEmpty(raw.key.route);
    TrimEmpty(raw.key.operation);
    CanonIdempotent(raw.key.targetSystem);
    CanonIdempotent(raw.key.verb);
    CanonEmpty(raw.key.targetSystem);
    CanonEmpty(raw.key.verb);
  }

  lemma NormalisedCodes(key: RouteKey)
    ensures NormalizeTargetSystemForDecision(key.Normalized().targetSystem) == UNKNOWN <==>
            Unknown(key.targetSystem, TARGET_SYSTEMS)
    ensures NormalizeMethodForDecision(key.Normalized().verb) == UNKNOWN <==> Unknown(key.verb, METHODS)
  {
    KnownCode(key.targetSystem, TARGET_SYSTEMS);
    KnownCode(key.verb, METHODS);
    KnownCodeIff(key.targetSystem, TARGET_SYSTEMS);
    KnownCodeIff(key.verb, METHODS);
  }

  /** The first of the checks on the request itself that fails, in their order. */
  function RequestChain(noToken: bool, noOrganization: bool, noTarget: bool, unknownTarget: bool, noMethod: bool,
                        unknownMethod: bool, noRoute: bool, noOperation: bool): DenyReason {
    if noToken then MissingToken
    else if noOrganization then MissingOrganizationId
    else if noTarget then MissingTargetSystem
    else if unknownTarget then UnsupportedTargetSystem
    else if noMethod then MissingMethod
    else if unknownMethod then UnsupportedMethod
    else if noRoute then MissingRoute
    else if noOperation then MissingOperation
    else NoReason
  }

  lemma RequestChainIsFirst(holding: iset<DenyReason>, reason: DenyReason)
    requires reason == RequestChain(MissingToken in holding, MissingOrganizationId in holding, MissingTargetSystem in holding,
                                    UnsupportedTargetSystem in holding, MissingMethod in holding,
                                    UnsupportedMethod in holding, MissingRoute in holding, MissingOperation in holding)
    ensures if reason != NoReason then IsFirst(holding, reason)
            else forall r | Rank(r) < Rank(ClientNotConfigured) :: r !in holding
  {
  }

  lemma ValidationIsChain(request: AuthorizeRequest, token: string)
    ensures ValidateRequest(request, token).reason ==
            RequestChain(Trim(token) == "", Trim(request.organizationId) == "", Trim(request.key.targetSystem) == "",
                         NormalizeTargetSystemForDecision(request.key.targetSystem) == UNKNOWN, Trim(request.key.verb) == "",
                         NormalizeMethodForDecision(request.key.verb) == UNKNOWN, Trim(request.key.route) == "",
                         Trim(request.key.operation) == "")
  {
  }

  /** Validation looks for the first hindrance of the raw request. */
  lemma RefusalIsChain(input: AuthorizeInput)
    ensures ValidateRequest(NormalizeAuthorizeRequest(input.request), Trim(input.token)).reason ==
            RequestChain(Blank(input.token), Blank(input.request.organizationId), Blank(input.request.key.targetSystem),
                         Unknown(input.request.key.targetSystem, TARGET_SYSTEMS), Blank(input.request.key.verb),
                         Unknown(input.request.key.verb, METHODS), Blank(input.request.key.route),
                         Blank(input.request.key.operation))
  {
    NormalisedRequest(input);
    NormalisedCodes(input.request.key);
    ValidationIsChain(NormalizeAuthorizeRequest(input.request), Trim(input.token));
  }

  lemma MissingParts(job: Job, seen: Reads)
    ensures MissingToken in Hindrances(job, seen) <==> Blank(job.input.token)
    ensures MissingOrganizationId in Hindrances(job, seen) <==> Blank(job.input.request.organizationId)
    ensures MissingTargetSystem in Hindrances(job, seen) <==> Blank(job.input.request.key.targetSystem)
    ensures MissingMethod in Hindrances(job, seen) <==> Blank(job.input.request.key.verb)
    ensures MissingRoute in Hindrances(job, seen) <==> Blank(job.input.request.key.route)
    ensures MissingOperation in Hindrances(job, seen) <==> Blank(job.input.request.key.operation)
  {
  }

  lemma UnknownParts(job: Job, seen: Reads)
    ensures UnsupportedTargetSystem in Hindrances(job, seen) <==> Unknown(job.input.request.key.targetSystem, TARGET_SYSTEMS)
    ensures UnsupportedMethod in Hindrances(job, seen) <==> Unknown(job.input.request.key.verb, METHODS)
  {
  }

  /** Validation gives the first hindrance of the request itself, or none of them is there. */
  lemma RefusalIsFirstHindrance(job: Job, seen: Reads)
    ensures var refusal := ValidateRequest(NormalizeAuthorizeRequest(job.input.request), Trim(job.input.token));
            if refusal.reason != NoReason then IsFirst(Hindrances(job, seen), refusal.reason)
            else forall r | Rank(r) < Rank(ClientNotConfigured) :: r !in Hindrances(job, seen)
  {
    RefusalIsChain(job.input);
    MissingParts(job, seen);
    UnknownParts(job, seen);
    RequestChainIsFirst(Hindrances(job, seen),
                        ValidateRequest(NormalizeAuthorizeRequest(job.input.request), Trim(job.input.token)).reason);
  }

  lemma UpstreamChainIsFirst(holding: iset<DenyReason>)
    requires forall r | Rank(r) < Rank(ClientNotConfigured) :: r !in holding
    ensures if ClientNotConfigured in holding then IsFirst(holding, ClientNotConfigured)
            else if ActorContextResolveFailed in holding then IsFirst(holding, ActorContextResolveFailed)
            else if CapabilitiesLookupFailed in holding then IsFirst(holding, CapabilitiesLookupFailed)
            else if PolicyEvaluationFailed in holding then IsFirst(holding, PolicyEvaluationFailed)
            else forall r | Rank(r) < Rank(PolicyNotFound) :: r !in holding
  {
  }

  lemma UpstreamParts(job: Job, seen: Reads)
    ensures ClientNotConfigured in Hindrances(job, seen) <==> !job.clientConfigured
    ensures ActorContextResolveFailed in Hindrances(job, seen) <==> job.actor.None?
    ensures CapabilitiesLookupFailed in Hindrances(job, seen) <==> job.capabilities.None?
    ensures PolicyEvaluationFailed in Hindrances(job, seen) <==> !job.policyService
  {
  }

  lemma UpstreamDenials(job: Job, record: DecisionRecord)
    ensures match AskUpstream(job, record)
            case Early(result) =>
              result.record.denyReason == (if !job.clientConfigured then ClientNotConfigured
                                           else if job.actor.None? then ActorContextResolveFailed
                                           else if job.capabilities.None? then CapabilitiesLookupFailed
                                           else PolicyEvaluationFailed)
            case AskPolicy(_) => true
    ensures AskUpstream(job, record).Early? <==>
            !job.clientConfigured || job.actor.None? || job.capabilities.None? || !job.policyService
  {
  }

  lemma UpstreamReason(job: Job, seen: Reads, record: DecisionRecord)
    requires forall r | Rank(r) < Rank(ClientNotConfigured) :: r !in Hindrances(job, seen)
    ensures match AskUpstream(job, record)
            case Early(result) => IsFirst(Hindrances(job, seen), result.record.denyReason)
            case AskPolicy(_) => forall r | Rank(r) < Rank(PolicyNotFound) :: r !in Hindrances(job, seen)
  {
    UpstreamParts(job, seen);
    UpstreamDenials(job, record);
    UpstreamChainIsFirst(Hindrances(job, seen));
  }

  lemma EarlyReason(job: Job, seen: Reads)
    ensures match BeforePolicy(job)
            case Early(result) => IsFirst(Hindrances(job, seen), result.record.denyReason)
            case AskPolicy(_) => forall r | Rank(r) < Rank(PolicyNotFound) :: r !in Hindrances(job, seen)
  {
    RefusalIsFirstHindrance(job, seen);
    if ValidateRequest(NormalizeAuthorizeRequest(job.input.request), Trim(job.input.token)).reason == NoReason {
      UpstreamReason(job, seen, NewRecord(job));
    }
  }

  /** The policy that the lookup selects is the one that governs the request. */
  lemma SelectedIsFound(job: Job, seen: Reads, p: PolicyRow)
    requires ValidCatalog(seen.policy)
    ensures SelectPolicy(seen.policy.policies, LookupKey(job).Normalized()) == Some(p) <==> Finds(job, seen, p)
  {
    NormalizedIdempotent(job.input.request.key);
    SelectIsAMap(seen.policy, LookupKey(job), p);
    if p in seen.policy.policies {
      GovernsIff(p, job.input.request.key);
    }
  }

  /** The lookup that does not fail finds the one policy that governs the request. */
  lemma LookupFinds(job: Job, seen: Reads) returns (row: Option<PolicyRow>)
    requires ValidCatalog(seen.policy) && !LookupOf(seen, LookupKey(job)).LookupError?
    ensures forall p :: Finds(job, seen, p) <==> row == Some(p)
    ensures LookupOf(seen, LookupKey(job)) ==
            if row.None? then NotFound
            else Found(Assemble(row.value, NamesOf(seen.roles.roles, row.value.id),
                                NamesOf(seen.capabilities.capabilities, row.value.id)))
  {
    row := SelectPolicy(seen.policy.policies, LookupKey(job).Normalized());
    forall p ensures row == Some(p) <==> Finds(job, seen, p) {
      SelectedIsFound(job, seen, p);
    }
  }

  lemma NotFoundIsFirst(job: Job, seen: Reads)
    requires forall r | Rank(r) < Rank(PolicyNotFound) :: r !in Hindrances(job, seen)
    requires forall p :: !Finds(job, seen, p)
    ensures IsFirst(Hindrances(job, seen), PolicyNotFound)
  {
  }

  /** The checks on the policy found are the remaining ones. */
  lemma FoundHindrance(job: Job, seen: Reads, p: PolicyRow, reason: DenyReason)
    requires job.actor.Some? && job.capabilities.Some?
    requires Finds(job, seen, p) && forall q | Finds(job, seen, q) :: q == p
    requires reason in {PolicyDisabled, ExplicitPolicyDeny, UnsupportedPolicyEffect, MissingRequiredRole,
                        MissingRequiredCapability}
    ensures reason in Hindrances(job, seen) <==> PolicyHindrance(job, seen, p, reason)
  {
  }

  lemma StoredHindrances(job: Job, seen: Reads, p: PolicyRow)
    requires job.actor.Some? && job.capabilities.Some?
    requires Finds(job, seen, p) && forall q | Finds(job, seen, q) :: q == p
    ensures PolicyDisabled in Hindrances(job, seen) <==> p.status != STATUS_ACTIVE
    ensures ExplicitPolicyDeny in Hindrances(job, seen) <==> p.effect == EFFECT_DENY
    ensures UnsupportedPolicyEffect !in Hindrances(job, seen)
  {
    FoundHindrance(job, seen, p, PolicyDisabled);
    FoundHindrance(job, seen, p, ExplicitPolicyDeny);
    FoundHindrance(job, seen, p, UnsupportedPolicyEffect);
  }

  lemma RightsHindrances(job: Job, seen: Reads, p: PolicyRow)
    requires job.actor.Some? && job.capabilities.Some?
    requires Finds(job, seen, p) && forall q | Finds(job, seen, q) :: q == p
    ensures MissingRequiredRole in Hindrances(job, seen) <==> !MeetsRoles(job.actor.value.data, seen.roles.roles, p.id)
    ensures MissingRequiredCapability in Hindrances(job, seen) <==>
            !MeetsCapabilities(job.capabilities.value, seen.capabilities.capabilities, p.id)
  {
    FoundHindrance(job, seen, p, MissingRequiredRole);
    FoundHindrance(job, seen, p, MissingRequiredCapability);
  }

  lemma FoundIsFound(job: Job, seen: Reads, p: PolicyRow)
    requires Finds(job, seen, p) && forall r | Rank(r) < Rank(PolicyNotFound) :: r !in Hindrances(job, seen)
    ensures forall r | Rank(r) < Rank(PolicyDisabled) :: r !in Hindrances(job, seen)
  {
    assert PolicyNotFound !in Hindrances(job, seen);
  }

  lemma FoundReasonIsFirst(job: Job, seen: Reads, p: PolicyRow)
    requires job.actor.Some? && job.capabilities.Some?
    requires forall r | Rank(r) < Rank(PolicyNotFound) :: r !in Hindrances(job, seen)
    requires Finds(job, seen, p) && forall q | Finds(job, seen, q) :: q == p
    ensures IsFirst(Hindrances(job, seen),
                    PolicyChain(p.status != STATUS_ACTIVE, p.effect == EFFECT_DENY, false,
                                !MeetsRoles(job.actor.value.data, seen.roles.roles, p.id),
                                !MeetsCapabilities(job.capabilities.value, seen.capabilities.capabilities, p.id)))
  {
    StoredHindrances(job, seen, p);
    RightsHindrances(job, seen, p);
    FoundIsFound(job, seen, p);
    PolicyChainIsFirst(Hindrances(job, seen), p.status != STATUS_ACTIVE, p.effect == EFFECT_DENY, false,
                       !MeetsRoles(job.actor.value.data, seen.roles.roles, p.id),
                       !MeetsCapabilities(job.capabilities.value, seen.capabilities.capabilities, p.id));
  }

  lemma PolicyReason(job: Job, seen: Reads)
    requires ValidReads(seen) && BeforePolicy(job).AskPolicy? && !LookupOf(seen, LookupKey(job)).LookupError?
    requires forall r | Rank(r) < Rank(PolicyNotFound) :: r !in Hindrances(job, seen)
    ensures var decided := Authorization(job, LookupOf(seen, LookupKey(job)));
            decided.Some? && IsFirst(Hindrances(job, seen), decided.value.record.denyReason)
  {
    AsksPolicyIffComplete(job);
    ReasonFollowsVerdict(job, LookupOf(seen, LookupKey(job)));
    var row := LookupFinds(job, seen);
    if row.None? {
      NotFoundIsFirst(job, seen);
    } else {
      VerdictIsPlain(job, seen, row.value);
      FoundReasonIsFirst(job, seen, row.value);
    }
  }

  /**
   End to end, whatever valid states the three reads see: the reason of a decision is the first, in the order of
   the checks, whose condition holds of the raw request, of the upstream answers and of the tables, and the empty
   reason when none does.
   */
  lemma ReasonIsFirstHindrance(job: Job, seen: Reads, reason: DenyReason)
    requires ValidReads(seen) && Authorization(job, LookupOf(seen, LookupKey(job))).Some?
    ensures Authorization(job, LookupOf(seen, LookupKey(job))).value.record.denyReason == reason <==>
            IsFirst(Hindrances(job, seen), reason)
  {
    var decided := Authorization(job, LookupOf(seen, LookupKey(job))).value.record.denyReason;
    EarlyReason(job, seen);
    if BeforePolicy(job).AskPolicy? {
      PolicyReason(job, seen);
    }
    if IsFirst(Hindrances(job, seen), reason) {
      OnlyOneIsFirst(Hindrances(job, seen), reason, decided);
    }
  }

  /** A statement of the lookup fails: the first, or one of the others once a policy is found. */
  ghost predicate ReadFails(job: Job, seen: Reads) {
    seen.policyFails || ((exists p :: Finds(job, seen, p)) && (seen.rolesFail || seen.capabilitiesFail))
  }

  lemma LookupErrorIff(job: Job, seen: Reads)
    requires ValidCatalog(seen.policy)
    ensures LookupOf(seen, LookupKey(job)).LookupError? <==> ReadFails(job, seen)
  {
    forall p ensures SelectPolicy(seen.policy.policies, LookupKey(job).Normalized()) == Some(p) <==> Finds(job, seen, p) {
      SelectedIsFound(job, seen, p);
    }
  }

  /**
   End to end, whatever valid states the three reads see: there is no decision exactly when a read of a complete
   request's lookup fails; otherwise the request is allowed exactly when it is complete and the reads show an
   entitling policy, the one the decision then names.
   */
  lemma AllowedIffEntitled(job: Job, seen: Reads)
    requires ValidReads(seen)
    ensures var decided := Authorization(job, LookupOf(seen, LookupKey(job)));
            && (decided.None? <==> Complete(job) && ReadFails(job, seen))
            && (decided.Some? ==>
                  && (decided.value.record.decision == Allow <==> Complete(job) && exists p :: Entitled(job, seen, p))
                  && (forall p | decided.value.record.decision == Allow && Entitled(job, seen, p) ::
                        decided.value.record.matchedPolicyId == p.id))
  {
    AsksPolicyIffComplete(job);
    LookupErrorIff(job, seen);
    if BeforePolicy(job).Early? {
      EarlyIsDenied(job);
    } else if !LookupOf(seen, LookupKey(job)).LookupError? {
      CompleteIsAllowedIffEntitled(job, seen);
    }
  }

  lemma EntitledIffVerdict(job: Job, seen: Reads, p: PolicyRow)
    requires ValidReads(seen) && job.actor.Some? && job.capabilities.Some? && Finds(job, seen, p)
    ensures var policy := Assemble(p, NamesOf(seen.roles.roles, p.id), NamesOf(seen.capabilities.capabilities, p.id));
            Entitled(job, seen, p) <==>
            PolicyVerdict(policy, NormSet(AllRoles(job.actor.value.data)), NormSet(job.capabilities.value)) == NoReason
  {
    assert PolicyChecks(p);
    VerdictIsPlain(job, seen, p);
  }

  lemma CompleteIsAllowedIffEntitled(job: Job, seen: Reads)
    requires ValidReads(seen) && BeforePolicy(job).AskPolicy? && !LookupOf(seen, LookupKey(job)).LookupError?
    ensures var decided := Authorization(job, LookupOf(seen, LookupKey(job)));
            && decided.Some?
            && (decided.value.record.decision == Allow <==> exists p :: Entitled(job, seen, p))
            && (forall p | decided.value.record.decision == Allow && Entitled(job, seen, p) ::
                  decided.value.record.matchedPolicyId == p.id)
  {
    AsksPolicyIffComplete(job);
    DecisionFollowsVerdict(job, LookupOf(seen, LookupKey(job)));
    var row := LookupFinds(job, seen);
    assert forall p | Entitled(job, seen, p) :: Finds(job, seen, p);
    if row.Some? {
      EntitledIffVerdict(job, seen, row.value);
    }
  }

  /** More roles, more memberships or more organization capabilities never turn an ALLOW into a DENY. */
  lemma MoreRightsNeverDeny(job: Job, richer: Job, seen: Reads)
    requires ValidReads(seen)
    requires job.actor.Some? && richer.actor.Some? && job.capabilities.Some? && richer.capabilities.Some?
    requires richer == job.(actor := richer.actor, capabilities := richer.capabilities)
    requires forall code | BroughtBy(job.actor.value.data, code) :: BroughtBy(richer.actor.value.data, code)
    requires forall code | HasCapability(job.capabilities.value, code) :: HasCapability(richer.capabilities.value, code)
    requires var decided := Authorization(job, LookupOf(seen, LookupKey(job)));
             decided.Some? && decided.value.record.decision == Allow
    ensures var decided := Authorization(richer, LookupOf(seen, LookupKey(richer)));
            decided.Some? && decided.value.record.decision == Allow
  {
    AllowedIffEntitled(job, seen);
    AllowedIffEntitled(richer, seen);
    var p :| Entitled(job, seen, p);
    assert Entitled(richer, seen, p);
  }

  /** Adding memberships or roles only adds to the roles that count. */
  lemma {:induction false} MembershipsAddRoles(actor: ActorContext, roles: seq<string>, extra: seq<Membership>)
    ensures NormSet(AllRoles(actor)) <=
            NormSet(AllRoles(actor.(roles := actor.roles + roles, memberships := actor.memberships + extra)))
    ensures forall code | BroughtBy(actor, code) ::
              BroughtBy(actor.(roles := actor.roles + roles, memberships := actor.memberships + extra), code)
    decreases |extra|
  {
    var richer := actor.(roles := actor.roles + roles, memberships := actor.memberships + extra);
    if extra == [] {
      assert actor.memberships + extra == actor.memberships;
    } else {
      var k := |extra| - 1;
      MembershipsAddRoles(actor, roles, extra[..k]);
      assert (actor.memberships + extra)[..|actor.memberships + extra| - 1] == actor.memberships + extra[..k];
    }
    forall v | v in AllRoles(actor) ensures v in AllRoles(richer) {
      MembershipRolesMembers(actor.memberships, v);
      MembershipRolesMembers(richer.memberships, v);
      if m :| m in actor.memberships && v in m.roles {
        assert m in richer.memberships;
      }
    }
  }

  /** Every role in a membership summary is among the roles collected for the response. */
  lemma SummaryRolesAreCollected(actor: ActorContext, summary: MembershipSummary, role: string)
    requires summary in Summaries(actor.memberships) && role in summary.roles
    ensures role in Norm(AllRoles(actor))
  {
    var m :| m in actor.memberships && summary == Summarize(m);
    NormShape(m.roles);
    NormShape(AllRoles(actor));
    var v :| v in m.roles && Canon(v) != "" && Canon(v) == role;
    MembershipRolesMembers(actor.memberships, v);
    assert v in AllRoles(actor);
  }

  // ---------- answers ----------

  function StatusFor(reason: DenyReason): int {
    match reason
    case NoReason => 200
    case MissingToken | ActorContextResolveFailed => 401
    case ClientNotConfigured | PolicyEvaluationFailed => 503
    case CapabilitiesLookupFailed => 502
    case PolicyNotFound | PolicyDisabled | ExplicitPolicyDeny | MissingRequiredRole | MissingRequiredCapability
         | UnsupportedPolicyEffect => 403
    case _ => 400
  }

  function CodeFor(reason: DenyReason): ErrorCode {
    match StatusFor(reason)
    case 200 => NoError
    case 400 => ValidationError
    case 401 => Unauthorized
    case 403 => Forbidden
    case _ => UpstreamUnavailable
  }

  function EventFor(reason: DenyReason): EventType {
    match reason
    case NoReason => AuthorizationAllowed
    case ActorContextResolveFailed => ActorContextNotResolved
    case PolicyNotFound => PolicyMissing
    case _ => AuthorizationDenied
  }

  function MessageFor(reason: DenyReason): ErrorMessage {
    match reason
    case NoReason => NoMessage
    case MissingToken => BearerTokenRequired
    case ClientNotConfigured => IdentityUnavailable
    case ActorContextResolveFailed => ActorNotValidated
    case CapabilitiesLookupFailed => CapabilitiesNotValidated
    case PolicyEvaluationFailed => PolicyServiceUnavailable
    case _ => if StatusFor(reason) == 400 then RequestInvalid else DeniedByPolicy
  }

  /** Policies as the lookup builds them: row CHECKs hold. */
  ghost predicate FromTables(found: LookupResult) {
    found.Found? ==> found.policy.effect in {EFFECT_ALLOW, EFFECT_DENY} && found.policy.status in {STATUS_ACTIVE, STATUS_DISABLED}
  }

  lemma LookupsComeFromTables(seen: Reads, key: RouteKey)
    requires ValidCatalog(seen.policy)
    ensures FromTables(LookupOf(seen, key))
  {
    SelectFinds(seen.policy.policies, key.Normalized());
  }

  /** The reason alone fixes status, error code, message and event type: Some answers are right, whatever the path. */
  ghost predicate WellAnswered(result: AuthorizeResult, id: string) {
    var record := result.record;
    && result.status == StatusFor(record.denyReason)
    && result.errorCode == CodeFor(record.denyReason)
    && AuditEventForResult(result, id).eventType == EventFor(record.denyReason)
    && (record.decision == Allow <==> record.denyReason == NoReason)
    && (record.decision == Allow <==> result.response.Some?)
    && (record.decision == Allow <==> result.status == 200)
    && result.errorMessage == MessageFor(record.denyReason)
  }

  lemma RefusalsAre(request: AuthorizeRequest, token: string)
    ensures var refusal := ValidateRequest(request, token);
            || refusal == ACCEPTED
            || refusal == Refusal(MissingToken, 401, Unauthorized)
            || (refusal.status == 400 && refusal.code == ValidationError
                && refusal.reason in {MissingOrganizationId, MissingTargetSystem, UnsupportedTargetSystem, MissingMethod,
                                      UnsupportedMethod, MissingRoute, MissingOperation})
  {
  }

  lemma RefusalsAreConsistent(request: AuthorizeRequest, token: string)
    ensures var refusal := ValidateRequest(request, token);
            refusal.reason != NoReason ==>
              && refusal.status == StatusFor(refusal.reason) && refusal.code == CodeFor(refusal.reason)
              && refusal.reason != UnsupportedPolicyEffect && MessageForStatus(refusal.status) == MessageFor(refusal.reason)
  {
    RefusalsAre(request, token);
  }

  lemma DenialIsWellAnswered(record: DecisionRecord, status: int, code: ErrorCode, message: ErrorMessage, id: string)
    requires record.denyReason !in {NoReason, UnsupportedPolicyEffect} && message == MessageFor(record.denyReason)
    requires status == StatusFor(record.denyReason) && code == CodeFor(record.denyReason)
    ensures WellAnswered(DenyResult(record, status, code, message), id)
  {
  }

  lemma UpstreamIsDenied(job: Job, record: DecisionRecord)
    requires AskUpstream(job, record).Early?
    ensures var denied := AskUpstream(job, record).result.record;
            && denied.decision == Deny && denied.denyReason != UnsupportedPolicyEffect
            && denied.matchedPolicyId == record.matchedPolicyId && denied.key == record.key
            && denied.requiredRoles == record.requiredRoles && denied.requiredCapabilities == record.requiredCapabilities
  {
  }

  lemma EarlyIsDenied(job: Job)
    requires BeforePolicy(job).Early?
    ensures var record := BeforePolicy(job).result.record;
            && record.decision == Deny && record.matchedPolicyId == ""
            && record.denyReason != UnsupportedPolicyEffect
            && record.requiredRoles == record.requiredCapabilities == []
            && record.key == NewRecord(job).key
  {
    var request, token := NormalizeAuthorizeRequest(job.input.request), Trim(job.input.token);
    RefusalsAreConsistent(request, token);
    if ValidateRequest(request, token).reason == NoReason {
      UpstreamIsDenied(job, NewRecord(job));
    }
  }

  lemma UpstreamDenialsAreWellAnswered(job: Job, record: DecisionRecord, id: string)
    requires AskUpstream(job, record).Early?
    ensures WellAnswered(AskUpstream(job, record).result, id)
  {
    if !job.clientConfigured {
      DenialIsWellAnswered(record.(denyReason := ClientNotConfigured), 503, UpstreamUnavailable, IdentityUnavailable, id);
    } else if job.actor.None? {
      DenialIsWellAnswered(record.(denyReason := ActorContextResolveFailed), 401, Unauthorized, ActorNotValidated, id);
    } else {
      var known := WithActor(record, job.actor.value);
      if job.capabilities.None? {
        DenialIsWellAnswered(known.(denyReason := CapabilitiesLookupFailed), 502, UpstreamUnavailable,
                             CapabilitiesNotValidated, id);
      } else {
        var full := known.(organizationCapabilities := Norm(job.capabilities.value));
        DenialIsWellAnswered(full.(denyReason := PolicyEvaluationFailed), 503, UpstreamUnavailable,
                             PolicyServiceUnavailable, id);
      }
    }
  }

  lemma EarlyIsWellAnswered(job: Job, id: string)
    requires BeforePolicy(job).Early?
    ensures WellAnswered(BeforePolicy(job).result, id)
  {
    var record := NewRecord(job);
    var request, token := NormalizeAuthorizeRequest(job.input.request), Trim(job.input.token);
    var refusal := ValidateRequest(request, token);
    RefusalsAreConsistent(request, token);
    if refusal.reason != NoReason {
      DenialIsWellAnswered(record.(denyReason := refusal.reason), refusal.status, refusal.code,
                           MessageForStatus(refusal.status), id);
    } else {
      UpstreamDenialsAreWellAnswered(job, record, id);
    }
  }

  /** Rows of the policy table have only the two effects, so the evaluator's fallback cannot happen. */
  lemma TableVerdicts(policy: Policy, actor: set<string>, held: set<string>)
    requires policy.effect in {EFFECT_ALLOW, EFFECT_DENY}
    ensures PolicyVerdict(policy, actor, held) in
              {NoReason, PolicyDisabled, ExplicitPolicyDeny, MissingRequiredRole, MissingRequiredCapability}
  {
  }

  /** From the lookup, only the policy reasons: the shared missing-field reasons cannot come from the evaluator. */
  lemma EvaluatorReasons(job: Job, found: LookupResult)
    requires BeforePolicy(job).AskPolicy? && FromTables(found) && !found.LookupError?
    ensures var record := BeforePolicy(job).record;
            var e := PolicyEvaluation(LookupKey(job), found, record.actorRoles, record.organizationCapabilities).value;
            && e.denyReason in {NoReason, PolicyNotFound, PolicyDisabled, ExplicitPolicyDeny, MissingRequiredRole,
                                MissingRequiredCapability}
            && (e.decision == Allow <==> e.denyReason == NoReason)
            && (e.matchedPolicyId == if found.Found? then found.policy.id else "")
  {
    KeysCoincide(job, found);
    if found.Found? {
      var record := BeforePolicy(job).record;
      TableVerdicts(found.policy, NormSet(record.actorRoles), NormSet(record.organizationCapabilities));
    }
  }

  lemma AfterPolicyIsWellAnswered(job: Job, record: DecisionRecord, e: EvaluationResult, id: string)
    requires job.actor.Some? && (e.decision == Allow <==> e.denyReason == NoReason)
    requires e.denyReason in {NoReason, PolicyNotFound, PolicyDisabled, ExplicitPolicyDeny, MissingRequiredRole,
                              MissingRequiredCapability}
    ensures WellAnswered(AfterPolicy(job, record, e), id)
    ensures AfterPolicy(job, record, e).record.denyReason == e.denyReason
    ensures AfterPolicy(job, record, e).record.key == record.key
    ensures AfterPolicy(job, record, e).record.matchedPolicyId == e.matchedPolicyId
  {
  }

  /**
   In every answer the denial reason determines HTTP status, error code and event type, although the two
   packages share reasons; ALLOW, empty reason, a response body and status 200 go together.
   */
  lemma ReasonDeterminesAnswer(job: Job, seen: Reads, id: string)
    requires ValidCatalog(seen.policy) && Authorization(job, LookupOf(seen, LookupKey(job))).Some?
    ensures var result := Authorization(job, LookupOf(seen, LookupKey(job))).value;
            WellAnswered(result, id) && result.record.denyReason != UnsupportedPolicyEffect
  {
    if BeforePolicy(job).Early? {
      EarlyIsDenied(job);
      EarlyIsWellAnswered(job, id);
    } else {
      LookupsComeFromTables(seen, LookupKey(job));
      PolicyReasonDeterminesAnswer(job, LookupOf(seen, LookupKey(job)),
                                   Authorization(job, LookupOf(seen, LookupKey(job))).value, id);
    }
  }

  lemma PolicyReasonDeterminesAnswer(job: Job, found: LookupResult, result: AuthorizeResult, id: string)
    requires FromTables(found) && Authorization(job, found) == Some(result) && BeforePolicy(job).AskPolicy?
    ensures WellAnswered(result, id) && result.record.denyReason != UnsupportedPolicyEffect
  {
    EvaluatorReasons(job, found);
    var record := BeforePolicy(job).record;
    var e := PolicyEvaluation(LookupKey(job), found, record.actorRoles, record.organizationCapabilities).value;
    AfterPolicyIsWellAnswered(job, record, e, id);
  }

  /**
   Reached past validation, every missing-field reason of the evaluator would break that table: it would be
   answered 403, and the reason, which validation shares, stands for 400.
   */
  lemma SharedReasonsNeedValidation(job: Job, record: DecisionRecord, input: EvaluationInput)
    requires job.actor.Some? && KeyGap(input.key.Normalized()) != NoReason
    ensures var result := AfterPolicy(job, record, Evaluation(input));
            && result.record.denyReason == KeyGap(input.key.Normalized())
            && result.status == 403 && StatusFor(result.record.denyReason) == 400
  {
  }

  // ---------- storability ----------

  /** No policy that was there is gone. */
  ghost predicate PoliciesKept(before: seq<PolicyRow>, after: seq<PolicyRow>) {
    forall p | p in before :: p in after
  }

  lemma RecordKeyCodes(job: Job)
    ensures var key, raw := NewRecord(job).key, job.input.request.key;
            && key.targetSystem in TARGET_SYSTEMS + {UNKNOWN} && key.verb in METHODS + {UNKNOWN}
            && (key.targetSystem in TARGET_SYSTEMS <==> key.targetSystem != UNKNOWN)
            && (key.verb in METHODS <==> key.verb != UNKNOWN)
            && (key.targetSystem == UNKNOWN <==> Canon(raw.targetSystem) !in TARGET_SYSTEMS)
            && (key.verb == UNKNOWN <==> Canon(raw.verb) !in METHODS)
  {
    CodesAreCanonical();
    CanonIdempotent(job.input.request.key.targetSystem);
    CanonIdempotent(job.input.request.key.verb);
  }

  /** Where the key and the policy reference of a decision come from. */
  lemma DecisionOrigin(job: Job, seen: Reads)
    requires ValidCatalog(seen.policy) && Authorization(job, LookupOf(seen, LookupKey(job))).Some?
    ensures var record := Authorization(job, LookupOf(seen, LookupKey(job))).value.record;
            && record.key == NewRecord(job).key
            && (record.matchedPolicyId != "" ==> HasPolicy(seen.policy.policies, record.matchedPolicyId))
  {
    if BeforePolicy(job).Early? {
      EarlyIsDenied(job);
    } else {
      var found := LookupOf(seen, LookupKey(job));
      LookupsComeFromTables(seen, LookupKey(job));
      SelectFinds(seen.policy.policies, LookupKey(job).Normalized());
      EvaluatorReasons(job, found);
      var record := BeforePolicy(job).record;
      var e := PolicyEvaluation(LookupKey(job), found, record.actorRoles, record.organizationCapabilities).value;
      AfterPolicyIsWellAnswered(job, record, e, "");
    }
  }

  /**
   Every decision the pipeline can build meets every CHECK, and the foreign key while no policy is deleted;
   under the first migration alone the rejected ones would be exactly those with an unknown target system or
   method.
   */
  lemma EveryDecisionIsStorable(job: Job, seen: Reads, policies: seq<PolicyRow>)
    requires ValidCatalog(seen.policy) && PoliciesKept(seen.policy.policies, policies)
    requires Authorization(job, LookupOf(seen, LookupKey(job))).Some?
    ensures var row := DecisionRowOf(Authorization(job, LookupOf(seen, LookupKey(job))).value.record);
            && DecisionChecks(row) && DecisionReference(policies, row)
            && (DecisionChecksBefore(row) <==> row.key.targetSystem != UNKNOWN && row.key.verb != UNKNOWN)
            && (row.key.targetSystem == UNKNOWN <==> Canon(job.input.request.key.targetSystem) !in TARGET_SYSTEMS)
            && (row.key.verb == UNKNOWN <==> Canon(job.input.request.key.verb) !in METHODS)
  {
    RecordKeyCodes(job);
    DecisionOrigin(job, seen);
  }

  /** So only an identifier collision or an infrastructure failure can keep a decision from being stored. */
  lemma OnlyCollisionsOrOutagesReject(db: Db, job: Job, seen: Reads, event: EventRow, faults: Faults)
    requires ValidCatalog(seen.policy) && PoliciesKept(seen.policy.policies, db.catalog.policies)
    requires Authorization(job, LookupOf(seen, LookupKey(job))).Some?
    ensures var result := Authorization(job, LookupOf(seen, LookupKey(job))).value;
            Persisted(db, result, event, faults).None? <==>
            || faults.begin || faults.decision || faults.event || faults.commit
            || (exists d | d in db.decisions :: d.id == result.record.id)
            || (exists e | e in db.outbox :: e.id == event.id)
  {
    EveryDecisionIsStorable(job, seen, db.catalog.policies);
    StorableIsRejectedOnly(db, Authorization(job, LookupOf(seen, LookupKey(job))).value, event, faults);
  }

  lemma StorableIsRejectedOnly(db: Db, result: AuthorizeResult, event: EventRow, faults: Faults)
    requires DecisionChecks(DecisionRowOf(result.record))
    requires DecisionReference(db.catalog.policies, DecisionRowOf(result.record))
    ensures Persisted(db, result, event, faults).None? <==>
            || faults.begin || faults.decision || faults.event || faults.commit
            || (exists d | d in db.decisions :: d.id == result.record.id)
            || (exists e | e in db.outbox :: e.id == event.id)
  {
  }
}
