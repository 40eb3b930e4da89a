/** The policy evaluator: its loops, what they decide on raw inputs, and how decisions move with the inputs. */
module Evaluator {
  import opened Text
  import opened Normalization
  import opened PolicyModel

  // ---------- specification ----------

  /** Some required role, in canonical form, is among the actor's. */
  predicate MeetsAnyRole(actor: set<string>, required: seq<string>) {
    exists r | r in required :: Canon(r) != "" && Canon(r) in actor
  }

  predicate HoldsAll(held: set<string>, required: seq<string>) {
    forall r | r in required && Canon(r) != "" :: Canon(r) in held
  }

  /** The first of the four key fields that is missing. */
  function KeyGap(key: RouteKey): DenyReason {
    if key.targetSystem == "" then MissingTargetSystem
    else if key.verb == "" then MissingMethod
    else if key.route == "" then MissingRoute
    else if key.operation == "" then MissingOperation
    else NoReason
  }

  /** The first reason to deny, in the order in which the evaluator looks for one. */
  function Verdict(input: EvaluationInput): DenyReason {
    if KeyGap(input.key.Normalized()) != NoReason then KeyGap(input.key.Normalized())
    else if input.policy.None? then PolicyNotFound
    else PolicyVerdict(input.policy.value, NormSet(input.actorRoles), NormSet(input.organizationCapabilities))
  }

  function PolicyVerdict(policy: Policy, actor: set<string>, held: set<string>): DenyReason {
    if Canon(policy.status) != STATUS_ACTIVE then PolicyDisabled
    else if Canon(policy.effect) == EFFECT_DENY then ExplicitPolicyDeny
    else if Canon(policy.effect) != EFFECT_ALLOW then UnsupportedPolicyEffect
    else if NormSet(policy.requiredRoles) != {} && !MeetsAnyRole(actor, policy.requiredRoles) then MissingRequiredRole
    else if !HoldsAll(held, policy.requiredCapabilities) then MissingRequiredCapability
    else NoReason
  }

  /** A policy counts as matched only once the four key fields are known to be there. */
  predicate Matched(input: EvaluationInput) {
    input.policy.Some? && KeyGap(input.key.Normalized()) == NoReason
  }

  function Evaluation(input: EvaluationInput): EvaluationResult {
    EvaluationResult(
      if Verdict(input) == NoReason then Allow else Deny,
      if Matched(input) then input.policy.value.id else "",
      Verdict(input),
      input.key.Normalized(),
      if Matched(input) then Norm(input.policy.value.requiredRoles) else [],
      if Matched(input) then Norm(input.policy.value.requiredCapabilities) else [],
      Norm(input.actorRoles),
      Norm(input.organizationCapabilities))
  }

  function Missing(held: set<string>, required: seq<string>): seq<string> {
    if required == [] then []
    else
      var last := Canon(required[|required| - 1]);
      Missing(held, required[..|required| - 1]) + (if last == "" || last in held then [] else [last])
  }

  lemma HoldsAllOfAppend(held: set<string>, required: seq<string>, last: string)
    ensures HoldsAll(held, required + [last]) <==> HoldsAll(held, required) && (Canon(last) == "" || Canon(last) in held)
  {
    assert (required + [last])[|required|] == last;
  }

  lemma {:induction false} MissingEmpty(held: set<string>, required: seq<string>)
    ensures Missing(held, required) == [] <==> HoldsAll(held, required)
  {
    if required != [] {
      var n := |required| - 1;
      MissingEmpty(held, required[..n]);
      assert required == required[..n] + [required[n]];
      HoldsAllOfAppend(held, required[..n], required[n]);
    }
  }

  // ---------- the loops ----------

  method HasAnyRequiredRole(actorRoles: seq<string>, requiredRoles: seq<string>) returns (found: bool)
    ensures found <==> requiredRoles == [] || MeetsAnyRole(NormSet(actorRoles), requiredRoles)
  {
    if |requiredRoles| == 0 {
      return true;
    }
    var actorRoleSet := NormalizeStringSet(actorRoles);
    for i := 0 to |requiredRoles|
      invariant !MeetsAnyRole(actorRoleSet, requiredRoles[..i])
    {
      assert requiredRoles[..i + 1] == requiredRoles[..i] + [requiredRoles[i]];
      var requiredRole := Canon(requiredRoles[i]);
      if requiredRole == "" {
        continue;
      }
      if requiredRole in actorRoleSet {
        return true;
      }
    }
    assert requiredRoles[..|requiredRoles|] == requiredRoles;
    return false;
  }

  method MissingRequiredCapabilities(organizationCapabilities: seq<string>, requiredCapabilities: seq<string>)
    returns (missing: seq<string>)
    ensures missing == Missing(NormSet(organizationCapabilities), requiredCapabilities)
  {
    if |requiredCapabilities| == 0 {
      return [];
    }
    var capabilitySet := NormalizeStringSet(organizationCapabilities);
    missing := [];
    for i := 0 to |requiredCapabilities|
      invariant missing == Missing(capabilitySet, requiredCapabilities[..i])
    {
      assert requiredCapabilities[..i + 1][..i] == requiredCapabilities[..i];
      var requiredCapability := Canon(requiredCapabilities[i]);
      if requiredCapability == "" {
        continue;
      }
      if requiredCapability !in capabilitySet {
        missing := missing + [requiredCapability];
      }
    }
    assert requiredCapabilities[..|requiredCapabilities|] == requiredCapabilities;
  }

  method Evaluate(input: EvaluationInput) returns (result: EvaluationResult)
    ensures result == Evaluation(input)
  {
    var targetSystem := Canon(input.key.targetSystem);
    var verb := Canon(input.key.verb);
    var route := Trim(input.key.route);
    var operation := Trim(input.key.operation);
    var actorRoles := NormalizeStringSlice(input.actorRoles);
    var organizationCapabilities := NormalizeStringSlice(input.organizationCapabilities);
    result := EvaluationResult(Deny, "", NoReason, RouteKey(targetSystem, verb, route, operation), [], [],
                               actorRoles, organizationCapabilities);
    if targetSystem == "" {
      result := result.(denyReason := MissingTargetSystem);
      return;
    }
    if verb == "" {
      result := result.(denyReason := MissingMethod);
      return;
    }
    if route == "" {
      result := result.(denyReason := MissingRoute);
      return;
    }
    if operation == "" {
      result := result.(denyReason := MissingOperation);
      return;
    }
    if input.policy.None? {
      result := result.(denyReason := PolicyNotFound);
      return;
    }
    var policy := input.policy.value;
    var requiredRoles := NormalizeStringSlice(policy.requiredRoles);
    var requiredCapabilities := NormalizeStringSlice(policy.requiredCapabilities);
    result := result.(matchedPolicyId := policy.id, requiredRoles := requiredRoles,
                      requiredCapabilities := requiredCapabilities);
    RenormalisingIsHarmless(input, policy);
    if Canon(policy.status) != STATUS_ACTIVE {
      result := result.(denyReason := PolicyDisabled);
      return;
    }
    var effect := Canon(policy.effect);
    if effect == EFFECT_DENY {
      result := result.(denyReason := ExplicitPolicyDeny);
    } else if effect == EFFECT_ALLOW {
      if |result.requiredRoles| > 0 {
        var found := HasAnyRequiredRole(result.actorRoles, result.requiredRoles);
        if !found {
          result := result.(denyReason := MissingRequiredRole);
          return;
        }
      }
      var missing := MissingRequiredCapabilities(result.organizationCapabilities, result.requiredCapabilities);
      MissingEmpty(NormSet(organizationCapabilities), requiredCapabilities);
      if |missing| > 0 {
        result := result.(denyReason := MissingRequiredCapability);
        return;
      }
      result := result.(decision := Allow, denyReason := NoReason);
    } else {
      result := result.(denyReason := UnsupportedPolicyEffect);
    }
  }

  // ---------- repeated normalisation ----------

  lemma MeetsAnyRoleOfNorm(actor: set<string>, required: seq<string>)
    ensures MeetsAnyRole(actor, Norm(required)) <==> MeetsAnyRole(actor, required)
    ensures HoldsAll(actor, Norm(required)) <==> HoldsAll(actor, required)
  {
    NormShape(required);
    forall r | r in required && Canon(r) != "" ensures Canon(r) in Norm(required) && Canon(Canon(r)) == Canon(r) {
      assert Canon(r) in NormSet(required);
    }
  }

  /** The helpers normalise again what the evaluator has normalised: every test comes out as on the raw lists. */
  lemma RenormalisingIsHarmless(input: EvaluationInput, policy: Policy)
    ensures var actor := NormSet(input.actorRoles);
            var held := NormSet(input.organizationCapabilities);
            && NormSet(Norm(input.actorRoles)) == actor
            && NormSet(Norm(input.organizationCapabilities)) == held
            && (Norm(policy.requiredRoles) == [] <==> NormSet(policy.requiredRoles) == {})
            && (MeetsAnyRole(actor, Norm(policy.requiredRoles)) <==> MeetsAnyRole(actor, policy.requiredRoles))
            && (HoldsAll(held, Norm(policy.requiredCapabilities)) <==> HoldsAll(held, policy.requiredCapabilities))
  {
    NormSetOfNorm(input.actorRoles);
    NormSetOfNorm(input.organizationCapabilities);
    MeetsAnyRoleOfNorm(NormSet(input.actorRoles), policy.requiredRoles);
    MeetsAnyRoleOfNorm(NormSet(input.organizationCapabilities), policy.requiredCapabilities);
    NormShape(policy.requiredRoles);
    if Norm(policy.requiredRoles) != [] {
      assert Norm(policy.requiredRoles)[0] in NormSet(policy.requiredRoles);
    }
  }

  function NormalisedPolicy(policy: Policy): Policy {
    policy.(requiredRoles := Norm(policy.requiredRoles), requiredCapabilities := Norm(policy.requiredCapabilities))
  }

  /** The same input with every list and key field normalised once beforehand. */
  function Prenormalised(input: EvaluationInput): EvaluationInput {
    EvaluationInput(
      input.key.Normalized(),
      if input.policy.None? then None else Some(NormalisedPolicy(input.policy.value)),
      Norm(input.actorRoles),
      Norm(input.organizationCapabilities))
  }

  lemma PrenormalisedVerdict(policy: Policy, actor: set<string>, held: set<string>)
    ensures PolicyVerdict(NormalisedPolicy(policy), actor, held) == PolicyVerdict(policy, actor, held)
  {
    NormSetOfNorm(policy.requiredRoles);
    MeetsAnyRoleOfNorm(actor, policy.requiredRoles);
    MeetsAnyRoleOfNorm(held, policy.requiredCapabilities);
  }

  /** Normalising before the evaluator changes nothing in its result. */
  lemma PrenormalisingIsHarmless(input: EvaluationInput)
    ensures Evaluation(Prenormalised(input)) == Evaluation(input)
  {
    NormalizedIdempotent(input.key);
    assert Verdict(Prenormalised(input)) == Verdict(input) by {
      NormSetOfNorm(input.actorRoles);
      NormSetOfNorm(input.organizationCapabilities);
      if input.policy.Some? {
        PrenormalisedVerdict(input.policy.value, NormSet(input.actorRoles), NormSet(input.organizationCapabilities));
      }
    }
    NormIdempotent(input.actorRoles);
    NormIdempotent(input.organizationCapabilities);
    if input.policy.Some? {
      NormIdempotent(input.policy.value.requiredRoles);
      NormIdempotent(input.policy.value.requiredCapabilities);
    }
  }

  // ---------- what an ALLOW means ----------

  ghost predicate HasRoleInCommon(required: seq<string>, actor: seq<string>) {
    exists r, a | r in required && a in actor :: !Blank(r) && SameCode(r, a)
  }

  ghost predicate Covers(held: seq<string>, required: seq<string>) {
    forall r | r in required && !Blank(r) :: exists h | h in held :: SameCode(r, h)
  }

  /** The access rule on raw, unnormalised inputs. */
  ghost predicate Permits(input: EvaluationInput) {
    && !Blank(input.key.targetSystem) && !Blank(input.key.verb)
    && !Blank(input.key.route) && !Blank(input.key.operation)
    && input.policy.Some?
    && var policy := input.policy.value;
    && SameCode(policy.status, STATUS_ACTIVE)
    && SameCode(policy.effect, EFFECT_ALLOW)
    && ((forall r | r in policy.requiredRoles :: Blank(r)) || HasRoleInCommon(policy.requiredRoles, input.actorRoles))
    && Covers(input.organizationCapabilities, policy.requiredCapabilities)
  }

  lemma SameCanon()
    ensures forall a: string, b: string :: SameCode(a, b) <==> Canon(a) == Canon(b)
    ensures forall a: string :: Canon(a) == "" <==> Blank(a)
  {
    forall a: string, b: string ensures SameCode(a, b) <==> Canon(a) == Canon(b) { CanonCharacterised(a, b); }
    forall a: string ensures Canon(a) == "" <==> Blank(a) { CanonEmpty(a); }
  }

  lemma RoleRule(required: seq<string>, actor: seq<string>)
    ensures NormSet(required) == {} <==> forall r | r in required :: Blank(r)
    ensures MeetsAnyRole(NormSet(actor), required) <==> HasRoleInCommon(required, actor)
  {
    SameCanon();
    if r :| r in required && !Blank(r) {
      assert Canon(r) in NormSet(required);
    }
    if MeetsAnyRole(NormSet(actor), required) {
      var r :| r in required && Canon(r) != "" && Canon(r) in NormSet(actor);
      var a :| a in actor && Canon(a) == Canon(r);
      assert SameCode(r, a);
    }
  }

  lemma CapabilityRule(held: seq<string>, required: seq<string>)
    ensures HoldsAll(NormSet(held), required) <==> Covers(held, required)
  {
    SameCanon();
    forall r | r in required && !Blank(r)
      ensures Canon(r) in NormSet(held) <==> exists h | h in held :: SameCode(r, h)
    {
      if h :| h in held && SameCode(r, h) {
        assert Canon(h) in NormSet(held);
      }
    }
  }

  /** What stands in the way of an ALLOW, per reason, on raw inputs. */
  ghost predicate Obstacle(input: EvaluationInput, reason: DenyReason) {
    match reason
    case MissingTargetSystem => Blank(input.key.targetSystem)
    case MissingMethod => Blank(input.key.verb)
    case MissingRoute => Blank(input.key.route)
    case MissingOperation => Blank(input.key.operation)
    case PolicyNotFound => input.policy.None?
    case _ => input.policy.Some? && PolicyObstacle(input.policy.value, input.actorRoles, input.organizationCapabilities, reason)
  }

  ghost predicate PolicyObstacle(policy: Policy, actor: seq<string>, held: seq<string>, reason: DenyReason) {
    match reason
    case PolicyDisabled => !SameCode(policy.status, STATUS_ACTIVE)
    case ExplicitPolicyDeny => SameCode(policy.effect, EFFECT_DENY)
    case UnsupportedPolicyEffect => !SameCode(policy.effect, EFFECT_DENY) && !SameCode(policy.effect, EFFECT_ALLOW)
    case MissingRequiredRole =>
      (exists r | r in policy.requiredRoles :: !Blank(r)) && !HasRoleInCommon(policy.requiredRoles, actor)
    case MissingRequiredCapability => !Covers(held, policy.requiredCapabilities)
    case _ => false
  }

  /** The order in which all checks of a request are made; the evaluator's are those from the key fields on. */
  function Rank(reason: DenyReason): nat {
    match reason
    case MissingToken => 0
    case MissingOrganizationId => 1
    case MissingTargetSystem => 2
    case UnsupportedTargetSystem => 3
    case MissingMethod => 4
    case UnsupportedMethod => 5
    case MissingRoute => 6
    case MissingOperation => 7
    case ClientNotConfigured => 8
    case ActorContextResolveFailed => 9
    case CapabilitiesLookupFailed => 10
    case PolicyEvaluationFailed => 11
    case PolicyNotFound => 12
    case PolicyDisabled => 13
    case ExplicitPolicyDeny => 14
    case UnsupportedPolicyEffect => 15
    case MissingRequiredRole => 16
    case MissingRequiredCapability => 17
    case NoReason => 18
  }

  /** The reason is among those that hold, or is the empty one, and no earlier one is. */
  ghost predicate IsFirst(holding: iset<DenyReason>, reason: DenyReason) {
    && (reason == NoReason || reason in holding)
    && forall earlier | Rank(earlier) < Rank(reason) :: earlier !in holding
  }

  lemma OnlyOneIsFirst(holding: iset<DenyReason>, a: DenyReason, b: DenyReason)
    requires IsFirst(holding, a) && IsFirst(holding, b)
    ensures a == b
  {
    assert Rank(a) == Rank(b) ==> a == b;
  }

  /** The first of the five checks on a policy that fails, in their order. */
  function PolicyChain(disabled: bool, denied: bool, unsupported: bool, noRole: bool, noCapability: bool): DenyReason {
    if disabled then PolicyDisabled
    else if denied then ExplicitPolicyDeny
    else if unsupported then UnsupportedPolicyEffect
    else if noRole then MissingRequiredRole
    else if noCapability then MissingRequiredCapability
    else NoReason
  }

  lemma PolicyChainIsFirst(holding: iset<DenyReason>, disabled: bool, denied: bool, unsupported: bool, noRole: bool,
                           noCapability: bool)
    requires forall r | Rank(r) < Rank(PolicyDisabled) :: r !in holding
    requires (PolicyDisabled in holding <==> disabled) && (ExplicitPolicyDeny in holding <==> denied)
    requires UnsupportedPolicyEffect in holding <==> unsupported
    requires (MissingRequiredRole in holding <==> noRole) && (MissingRequiredCapability in holding <==> noCapability)
    ensures IsFirst(holding, PolicyChain(disabled, denied, unsupported, noRole, noCapability))
  {
  }

  lemma VerdictIsChain(policy: Policy, actor: seq<string>, held: seq<string>)
    ensures PolicyVerdict(policy, NormSet(actor), NormSet(held)) ==
            PolicyChain(!SameCode(policy.status, STATUS_ACTIVE), SameCode(policy.effect, EFFECT_DENY),
                        !SameCode(policy.effect, EFFECT_DENY) && !SameCode(policy.effect, EFFECT_ALLOW),
                        (exists r | r in policy.requiredRoles :: !Blank(r)) && !HasRoleInCommon(policy.requiredRoles, actor),
                        !Covers(held, policy.requiredCapabilities))
  {
    CanonFixes(STATUS_ACTIVE);
    CanonFixes(EFFECT_ALLOW);
    CanonFixes(EFFECT_DENY);
    CanonCharacterised(policy.status, STATUS_ACTIVE);
    CanonCharacterised(policy.effect, EFFECT_ALLOW);
    CanonCharacterised(policy.effect, EFFECT_DENY);
    RoleRule(policy.requiredRoles, actor);
    CapabilityRule(held, policy.requiredCapabilities);
  }

  lemma KeyObstacles(key: RouteKey)
    ensures var n := key.Normalized();
            && (n.targetSystem == "" <==> Blank(key.targetSystem)) && (n.verb == "" <==> Blank(key.verb))
            && (n.route == "" <==> Blank(key.route)) && (n.operation == "" <==> Blank(key.operation))
  {
    CanonEmpty(key.targetSystem);
    CanonEmpty(key.verb);
    TrimEmpty(key.route);
    TrimEmpty(key.operation);
  }

  ghost function Obstacles(input: EvaluationInput): iset<DenyReason> {
    iset reason | Obstacle(input, reason)
  }

  lemma KeyChainIsFirst(holding: iset<DenyReason>, key: RouteKey)
    requires MissingToken !in holding && MissingOrganizationId !in holding
    requires UnsupportedTargetSystem !in holding && UnsupportedMethod !in holding
    requires (key.targetSystem == "" <==> MissingTargetSystem in holding) && (key.verb == "" <==> MissingMethod in holding)
    requires (key.route == "" <==> MissingRoute in holding) && (key.operation == "" <==> MissingOperation in holding)
    ensures if KeyGap(key) != NoReason then IsFirst(holding, KeyGap(key))
            else forall r | Rank(r) < Rank(ClientNotConfigured) :: r !in holding
  {
  }

  lemma KeyReasonIsFirst(input: EvaluationInput)
    ensures var gap := KeyGap(input.key.Normalized());
            if gap != NoReason then IsFirst(Obstacles(input), gap)
            else forall r | Rank(r) < Rank(ClientNotConfigured) :: r !in Obstacles(input)
  {
    KeyObstacles(input.key);
    KeyChainIsFirst(Obstacles(input), input.key.Normalized());
  }

  lemma EarlierObstacles(input: EvaluationInput)
    requires input.policy.Some? && forall r | Rank(r) < Rank(ClientNotConfigured) :: r !in Obstacles(input)
    ensures forall r | Rank(r) < Rank(PolicyDisabled) :: r !in Obstacles(input)
  {
  }

  lemma LaterObstacle(input: EvaluationInput, reason: DenyReason)
    requires input.policy.Some? && Rank(reason) >= Rank(PolicyDisabled)
    ensures reason in Obstacles(input) <==>
            PolicyObstacle(input.policy.value, input.actorRoles, input.organizationCapabilities, reason)
  {
  }

  lemma PolicyReasonIsFirst(input: EvaluationInput)
    requires input.policy.Some? && forall r | Rank(r) < Rank(ClientNotConfigured) :: r !in Obstacles(input)
    ensures IsFirst(Obstacles(input), PolicyVerdict(input.policy.value, NormSet(input.actorRoles), NormSet(input.organizationCapabilities)))
  {
    var policy, actor, held := input.policy.value, input.actorRoles, input.organizationCapabilities;
    EarlierObstacles(input);
    LaterObstacle(input, PolicyDisabled);
    LaterObstacle(input, ExplicitPolicyDeny);
    LaterObstacle(input, UnsupportedPolicyEffect);
    LaterObstacle(input, MissingRequiredRole);
    LaterObstacle(input, MissingRequiredCapability);
    VerdictIsChain(policy, actor, held);
    PolicyChainIsFirst(Obstacles(input), PolicyObstacle(policy, actor, held, PolicyDisabled),
                       PolicyObstacle(policy, actor, held, ExplicitPolicyDeny),
                       PolicyObstacle(policy, actor, held, UnsupportedPolicyEffect),
                       PolicyObstacle(policy, actor, held, MissingRequiredRole),
                       PolicyObstacle(policy, actor, held, MissingRequiredCapability));
  }

  lemma VerdictIsFirst(input: EvaluationInput)
    ensures IsFirst(Obstacles(input), Verdict(input))
  {
    KeyReasonIsFirst(input);
    if input.policy.Some? && KeyGap(input.key.Normalized()) == NoReason {
      PolicyReasonIsFirst(input);
    }
  }

  /**
   The reason given is the first, in the order of the checks, whose condition holds of the raw inputs, and the
   empty reason when none does: each reason exactly then.
   */
  lemma ReasonIsFirstObstacle(input: EvaluationInput, reason: DenyReason)
    ensures Evaluation(input).denyReason == reason <==> IsFirst(Obstacles(input), reason)
  {
    VerdictIsFirst(input);
    if IsFirst(Obstacles(input), reason) {
      OnlyOneIsFirst(Obstacles(input), reason, Evaluation(input).denyReason);
    }
  }

  /** The policy and its requirements, in normal form, are told exactly when all key fields are there and a policy is. */
  lemma EvaluationTellsItsPolicy(input: EvaluationInput)
    ensures var e := Evaluation(input);
            if input.policy.None? || Blank(input.key.targetSystem) || Blank(input.key.verb) || Blank(input.key.route)
               || Blank(input.key.operation)
            then e.matchedPolicyId == "" && e.requiredRoles == [] && e.requiredCapabilities == []
            else e.matchedPolicyId == input.policy.value.id && e.requiredRoles == Norm(input.policy.value.requiredRoles)
                 && e.requiredCapabilities == Norm(input.policy.value.requiredCapabilities)
  {
    KeyObstacles(input.key);
  }

  /** ALLOW exactly when the access rule holds; an ALLOW carries no reason and a DENY always one. */
  lemma AllowIffPermits(input: EvaluationInput)
    ensures Evaluation(input).decision == Allow <==> Permits(input)
    ensures Evaluation(input).decision == Allow <==> Evaluation(input).denyReason == NoReason
  {
    CanonEmpty(input.key.targetSystem);
    CanonEmpty(input.key.verb);
    TrimEmpty(input.key.route);
    TrimEmpty(input.key.operation);
    if input.policy.Some? {
      var policy := input.policy.value;
      CanonFixes(STATUS_ACTIVE);
      CanonFixes(EFFECT_ALLOW);
      CanonCharacterised(policy.status, STATUS_ACTIVE);
      CanonCharacterised(policy.effect, EFFECT_ALLOW);
      RoleRule(policy.requiredRoles, input.actorRoles);
      CapabilityRule(input.organizationCapabilities, policy.requiredCapabilities);
    }
  }

  // ---------- monotonicity ----------

  /** More actor roles or organization capabilities never turn ALLOW into DENY. */
  lemma MoreHeldNeverDenies(input: EvaluationInput, roles: seq<string>, capabilities: seq<string>)
    requires NormSet(input.actorRoles) <= NormSet(roles)
    requires NormSet(input.organizationCapabilities) <= NormSet(capabilities)
    requires Evaluation(input).decision == Allow
    ensures Evaluation(input.(actorRoles := roles, organizationCapabilities := capabilities)).decision == Allow
  {
  }

  /** Further required capabilities never turn DENY into ALLOW. */
  lemma MoreRequiredCapabilitiesNeverAllow(input: EvaluationInput, extra: seq<string>)
    requires input.policy.Some?
    requires Evaluation(input).decision == Deny
    ensures var policy := input.policy.value;
            var stricter := policy.(requiredCapabilities := policy.requiredCapabilities + extra);
            Evaluation(input.(policy := Some(stricter))).decision == Deny
  {
  }

  /** In an ALLOW, only the role clause depends on the required roles. */
  lemma RolesDecide(input: EvaluationInput, roles: seq<string>)
    requires Evaluation(input).decision == Allow
    ensures Evaluation(input.(policy := Some(input.policy.value.(requiredRoles := roles)))).decision == Allow <==>
            NormSet(roles) == {} || MeetsAnyRole(NormSet(input.actorRoles), roles)
  {
  }

  /**
   Further required roles keep an ALLOW exactly when the longer list is still blank or still shares a
   role with the actor; the role rule is "any of", so that can fail only for a list that was blank before.
   */
  lemma MoreRequiredRoles(input: EvaluationInput, extra: seq<string>)
    requires Evaluation(input).decision == Allow
    ensures var policy := input.policy.value;
            var longer := policy.(requiredRoles := policy.requiredRoles + extra);
            && (Evaluation(input.(policy := Some(longer))).decision == Allow <==>
                NormSet(policy.requiredRoles) != {} || NormSet(extra) == {}
                || MeetsAnyRole(NormSet(input.actorRoles), extra))
  {
    var policy := input.policy.value;
    var actor := NormSet(input.actorRoles);
    RolesDecide(input, policy.requiredRoles + extra);
    RolesDecide(input, policy.requiredRoles);
    assert policy == policy.(requiredRoles := policy.requiredRoles) && input == input.(policy := Some(policy));
    NormSetOfConcat(policy.requiredRoles, extra);
    MeetsAnyRoleOfConcat(actor, policy.requiredRoles, extra);
    if NormSet(policy.requiredRoles) == {} {
      NoNamesNoMatch(actor, policy.requiredRoles);
    }
  }

  lemma NormSetOfConcat(a: seq<string>, b: seq<string>)
    ensures NormSet(a + b) == NormSet(a) + NormSet(b)
  {
  }

  lemma MeetsAnyRoleOfConcat(actor: set<string>, a: seq<string>, b: seq<string>)
    ensures MeetsAnyRole(actor, a + b) <==> MeetsAnyRole(actor, a) || MeetsAnyRole(actor, b)
  {
  }

  lemma NoNamesNoMatch(actor: set<string>, required: seq<string>)
    requires NormSet(required) == {}
    ensures !MeetsAnyRole(actor, required)
  {
    forall r | r in required ensures Canon(r) == "" {
      assert Canon(r) == "" || Canon(r) in NormSet(required);
    }
  }
}
