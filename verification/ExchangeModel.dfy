/** The exchange package's data model: requests, upstream answers, decision records and results. */
module ExchangeModel {
  import opened Text
  import opened PolicyModel

  const UNKNOWN := "UNKNOWN"

  /** Codes that requests may name and that the schema's CHECK constraints list. */
  const TARGET_SYSTEMS: set<string> :=
    {"TAIFA_ID", "TAIFA_CARE", "TAIFA_TAX", "TAIFA_PAY", "TAIFA_OBSERVE", "TAIFA_CITIZEN"}
  const METHODS: set<string> := {"GET", "POST", "PUT", "PATCH", "DELETE"}

  datatype AuthorizeRequest = AuthorizeRequest(organizationId: string, key: RouteKey)

  datatype AuthorizeInput = AuthorizeInput(token: string, correlationId: string, request: AuthorizeRequest)

  datatype Membership = Membership(id: string, membershipId: string, membershipType: string, roles: seq<string>)

  datatype ActorContext = ActorContext(
    actorContextId: string,
    personId: string,
    credentialId: string,
    sessionId: string,
    roles: seq<string>,
    memberships: seq<Membership>
  )

  datatype ActorContextResponse = ActorContextResponse(correlationId: string, data: ActorContext)

  datatype DecisionRecord = DecisionRecord(
    id: string,
    decision: Decision,
    key: RouteKey,
    organizationId: string,
    actorContextId: string,
    personId: string,
    credentialId: string,
    sessionId: string,
    matchedPolicyId: string,
    denyReason: DenyReason,
    requestCorrelationId: string,
    taifaIdCorrelationId: string,
    actorRoles: seq<string>,
    organizationCapabilities: seq<string>,
    requiredRoles: seq<string>,
    requiredCapabilities: seq<string>
  )

  datatype MembershipSummary = MembershipSummary(id: string, membershipType: string, roles: seq<string>)

  datatype ActorContextSummary = ActorContextSummary(
    actorContextId: string,
    personId: string,
    credentialId: string,
    organizationId: string,
    sessionId: string,
    roles: seq<string>,
    memberships: seq<MembershipSummary>
  )

  datatype Obligations = Obligations(propagateCorrelationId: bool, requireAudit: bool)

  datatype AuthorizeResponse = AuthorizeResponse(
    decisionId: string,
    decision: Decision,
    key: RouteKey,
    matchedPolicyId: string,
    actorContext: ActorContextSummary,
    obligations: Obligations
  )

  datatype ErrorCode = NoError | ValidationError | Unauthorized | Forbidden | UpstreamUnavailable

  /** The fixed texts of error answers. */
  datatype ErrorMessage =
    | NoMessage
    | RequestInvalid
    | BearerTokenRequired
    | DependencyUnavailable
    | DeniedByPolicy
    | IdentityUnavailable
    | ActorNotValidated
    | CapabilitiesNotValidated
    | PolicyServiceUnavailable

  datatype AuthorizeResult = AuthorizeResult(
    record: DecisionRecord,
    response: Option<AuthorizeResponse>,
    status: int,
    errorCode: ErrorCode,
    errorMessage: ErrorMessage
  )

  /** Every listed code is its own canonical form and none is the placeholder for unknown ones. */
  lemma CodesAreCanonical()
    ensures forall t | t in TARGET_SYSTEMS + METHODS :: Canon(t) == t && t != UNKNOWN && t != ""
  {
    forall t | t in TARGET_SYSTEMS + METHODS ensures Canon(t) == t && t != UNKNOWN && t != "" {
      CodeIsCanonical(t);
    }
  }

  lemma CodeIsCanonical(t: string)
    requires t in TARGET_SYSTEMS + METHODS
    ensures Canon(t) == t && t != UNKNOWN && t != ""
  {
    assert |t| != 7 && |t| > 0;
    CanonFixes(t);
  }
}
