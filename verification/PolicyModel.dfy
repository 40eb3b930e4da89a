/** The policy package's data model. */
module PolicyModel {
  import opened Text

  /** Target system, HTTP method (verb), route and operation: what a request asks for and what a policy governs. */
  datatype RouteKey = RouteKey(targetSystem: string, verb: string, route: string, operation: string) {
    /** Codes are canonicalised; routes and operations keep their case. */
    function Normalized(): RouteKey {
      RouteKey(Canon(targetSystem), Canon(verb), Trim(route), Trim(operation))
    }
  }

  datatype Decision = Allow | Deny

  /**
   Denial reasons of both packages. The two packages spell the four missing-field reasons alike,
   so those are one constructor each; NoReason is the empty reason of an ALLOW.
   */
  datatype DenyReason =
    | NoReason
    | MissingToken
    | MissingOrganizationId
    | MissingTargetSystem
    | UnsupportedTargetSystem
    | MissingMethod
    | UnsupportedMethod
    | MissingRoute
    | MissingOperation
    | ClientNotConfigured
    | ActorContextResolveFailed
    | CapabilitiesLookupFailed
    | PolicyEvaluationFailed
    | PolicyNotFound
    | PolicyDisabled
    | ExplicitPolicyDeny
    | MissingRequiredRole
    | MissingRequiredCapability
    | UnsupportedPolicyEffect

  const STATUS_ACTIVE := "ACTIVE"
  const STATUS_DISABLED := "DISABLED"
  const EFFECT_ALLOW := "ALLOW"
  const EFFECT_DENY := "DENY"

  datatype Policy = Policy(
    id: string,
    key: RouteKey,
    effect: string,
    status: string,
    description: string,
    requiredRoles: seq<string>,
    requiredCapabilities: seq<string>
  )

  datatype EvaluationInput = EvaluationInput(
    key: RouteKey,
    policy: Option<Policy>,
    actorRoles: seq<string>,
    organizationCapabilities: seq<string>
  )

  datatype EvaluationResult = EvaluationResult(
    decision: Decision,
    matchedPolicyId: string,
    denyReason: DenyReason,
    key: RouteKey,
    requiredRoles: seq<string>,
    requiredCapabilities: seq<string>,
    actorRoles: seq<string>,
    organizationCapabilities: seq<string>
  )

  lemma NormalizedIdempotent(key: RouteKey)
    ensures key.Normalized().Normalized() == key.Normalized()
  {
    CanonIdempotent(key.targetSystem);
    CanonIdempotent(key.verb);
    TrimIdempotent(key.route);
    TrimIdempotent(key.operation);
  }
}
