/** What a freshly seeded database decides, and the two decisions that the documentation announces. */
module DocumentedDecisions {
  import opened Text
  import opened Normalization
  import opened PolicyModel
  import opened ExchangeModel
  import opened Collecting
  import opened Schema
  import opened Evaluator
  import opened Lookup
  import opened Exchange
  import opened ExchangeTheorems
  import opened ExchangeRecords
  import opened Seeding
  import opened SeededContents
  import opened ProtocolRuns
  import opened CanonicalPolicies

  ghost predicate LacksRole(job: Job, s: SeedPolicy)
    requires job.actor.Some?
  {
    s.roles != [] && forall r | r in s.roles :: !BroughtBy(job.actor.value.data, r.name)
  }

  ghost predicate LacksCapability(job: Job, s: SeedPolicy)
    requires job.capabilities.Some?
  {
    exists r | r in s.capabilities :: !HasCapability(job.capabilities.value, r.name)
  }

  ghost function ReasonFor(job: Job, s: SeedPolicy): DenyReason
    requires job.actor.Some? && job.capabilities.Some?
  {
    if LacksRole(job, s) then MissingRequiredRole
    else if LacksCapability(job, s) then MissingRequiredCapability
    else NoReason
  }

  lemma SeedMeets(c: Catalog, seeds: seq<SeedPolicy>, s: SeedPolicy, job: Job)
    requires ValidCatalog(c) && WellFormed(seeds) && IdsDistinct(seeds) && HoldsExactly(c, seeds) && s in seeds
    requires job.actor.Some? && job.capabilities.Some?
    ensures MeetsRoles(job.actor.value.data, c.roles, s.id) <==> !LacksRole(job, s)
    ensures MeetsCapabilities(job.capabilities.value, c.capabilities, s.id) <==> !LacksCapability(job, s)
  {
    SeededRolesAreFull(c, seeds, s);
    NamesOfMembers(c.roles, s.id);
    NamesOfMembers(c.capabilities, s.id);
    forall x ensures Requires(c.roles, s.id, x) <==> exists r | r in s.roles :: r.name == x {
      assert x in NamesOf(c.roles, s.id) <==> Requires(c.roles, s.id, x);
    }
    forall x ensures Requires(c.capabilities, s.id, x) <==> exists r | r in s.capabilities :: r.name == x {
      assert x in NamesOf(c.capabilities, s.id) <==> Requires(c.capabilities, s.id, x);
    }
    if s.roles != [] {
      assert s.roles[0] in s.roles && Requires(c.roles, s.id, s.roles[0].name);
    }
  }

  /** What a seeded database answers to a complete request for the route of an active allowing seed. */
  lemma SeedDecides(c: Catalog, seeds: seq<SeedPolicy>, s: SeedPolicy, job: Job)
    requires ValidCatalog(c) && WellFormed(seeds) && IdsDistinct(seeds) && HoldsExactly(c, seeds) && s in seeds
    requires s.status == STATUS_ACTIVE && s.effect == EFFECT_ALLOW
    requires Complete(job) && Governs(s.key, job.input.request.key)
    ensures var decided := Authorization(job, LookupOf(Steady(c), LookupKey(job)));
            && decided.Some?
            && decided.value.record.matchedPolicyId == s.id
            && decided.value.record.denyReason == ReasonFor(job, s)
  {
    AsksPolicyIffComplete(job);
    HoldsExactlyMeans(c, seeds);
    var row := PolicyRow(s.id, s.key, s.effect, s.status, s.description);
    assert Finds(job, Steady(c), row);
    var found := LookupFinds(job, Steady(c));
    assert found == Some(row);
    ReasonFollowsVerdict(job, LookupOf(Steady(c), LookupKey(job)));
    RecordedLists(job, LookupOf(Steady(c), LookupKey(job)));
    VerdictIsPlain(job, Steady(c), row);
    SeedMeets(c, seeds, s, job);
  }

  /** An entry that asks for one role and one capability, and whose rows do not clash with those of other entries. */
  lemma EntryDecides(c: Catalog, seeds: seq<SeedPolicy>, s: SeedPolicy, job: Job)
    requires ValidCatalog(c) && HoldsExactly(c, seeds) && Separate(seeds) && s in seeds
    requires s.status == STATUS_ACTIVE && s.effect == EFFECT_ALLOW
    requires Complete(job) && Governs(s.key, job.input.request.key)
    ensures var decided := Authorization(job, LookupOf(Steady(c), LookupKey(job)));
            && decided.Some? && decided.value.record.matchedPolicyId == s.id
            && decided.value.record.denyReason == ReasonFor(job, s)
  {
    SeparateIsWellFormed(seeds);
    SeedDecides(c, seeds, s, job);
  }

  lemma ReasonForOne(job: Job, s: SeedPolicy, role: SeedChild, capability: SeedChild)
    requires job.actor.Some? && job.capabilities.Some? && s.roles == [role] && s.capabilities == [capability]
    ensures ReasonFor(job, s) ==
            if !BroughtBy(job.actor.value.data, role.name) then MissingRequiredRole
            else if !HasCapability(job.capabilities.value, capability.name) then MissingRequiredCapability
            else NoReason
  {
    assert role in s.roles && capability in s.capabilities;
  }

  lemma AnswerFollowsReason(c: Catalog, job: Job)
    requires ValidCatalog(c) && Authorization(job, LookupOf(Steady(c), LookupKey(job))).Some?
    ensures var result := Authorization(job, LookupOf(Steady(c), LookupKey(job))).value;
            && (result.record.denyReason == MissingRequiredRole ==> result.status == 403 && result.errorCode == Forbidden)
            && (result.record.denyReason == NoReason ==> result.status == 200 && result.record.decision == Allow)
  {
    ReasonDeterminesAnswer(job, Steady(c), "");
  }

  lemma WithoutRole(c: Catalog, seeds: seq<SeedPolicy>, s: SeedPolicy, role: SeedChild, capability: SeedChild, job: Job)
    requires ValidCatalog(c) && HoldsExactly(c, seeds) && Separate(seeds) && s in seeds
    requires s.status == STATUS_ACTIVE && s.effect == EFFECT_ALLOW && s.roles == [role] && s.capabilities == [capability]
    requires Complete(job) && Governs(s.key, job.input.request.key) && !BroughtBy(job.actor.value.data, role.name)
    ensures var decided := Authorization(job, LookupOf(Steady(c), LookupKey(job)));
            && decided.Some? && decided.value.status == 403 && decided.value.errorCode == Forbidden
            && decided.value.record.denyReason == MissingRequiredRole
  {
    EntryDecides(c, seeds, s, job);
    ReasonForOne(job, s, role, capability);
    AnswerFollowsReason(c, job);
  }

  lemma WithBoth(c: Catalog, seeds: seq<SeedPolicy>, s: SeedPolicy, role: SeedChild, capability: SeedChild, job: Job)
    requires ValidCatalog(c) && HoldsExactly(c, seeds) && Separate(seeds) && s in seeds
    requires s.status == STATUS_ACTIVE && s.effect == EFFECT_ALLOW && s.roles == [role] && s.capabilities == [capability]
    requires Complete(job) && Governs(s.key, job.input.request.key)
    requires BroughtBy(job.actor.value.data, role.name) && HasCapability(job.capabilities.value, capability.name)
    ensures var decided := Authorization(job, LookupOf(Steady(c), LookupKey(job)));
            && decided.Some? && decided.value.status == 200 && decided.value.record.decision == Allow
            && decided.value.record.matchedPolicyId == s.id
  {
    EntryDecides(c, seeds, s, job);
    ReasonForOne(job, s, role, capability);
    AnswerFollowsReason(c, job);
  }

  ghost predicate Seeded(c: Catalog) {
    ValidCatalog(c) && HoldsExactly(c, List())
  }

  lemma EntriesAreListed()
    ensures CareClaimCreate() in List() && PayInstructionCreate() in List()
  {
    assert List()[0] == CareClaimCreate() && List()[4] == PayInstructionCreate();
  }

  /** The documented ALLOW: a clinician of an organization that provides health services creates a claim. */
  lemma ClinicianCreatesClaim(c: Catalog, job: Job)
    requires Seeded(c) && Complete(job)
    requires Governs(RouteKey("TAIFA_CARE", "POST", "/api/v1/claims", "care.claim.create"), job.input.request.key)
    requires BroughtBy(job.actor.value.data, "PROVIDER_CLINICIAN")
    requires HasCapability(job.capabilities.value, "CAN_PROVIDE_HEALTH_SERVICES")
    ensures var decided := Authorization(job, LookupOf(Steady(c), LookupKey(job)));
            && decided.Some? && decided.value.status == 200 && decided.value.record.decision == Allow
            && decided.value.record.matchedPolicyId == "POL-CARE-CLAIM-CREATE-CLINICIAN"
  {
    EntriesAreListed();
    ListIsSeparate();
    WithBoth(c, List(), CareClaimCreate(), SeedChild("PR-CARE-CLAIM-CREATE-CLINICIAN", "PROVIDER_CLINICIAN"),
             SeedChild("PC-CARE-CLAIM-CREATE-HEALTH-SERVICES", "CAN_PROVIDE_HEALTH_SERVICES"), job);
  }

  /** The documented denial: nobody without the operator's role creates a payment instruction. */
  lemma ClinicianCreatesNoInstruction(c: Catalog, job: Job)
    requires Seeded(c) && Complete(job)
    requires Governs(RouteKey("TAIFA_PAY", "POST", "/api/v1/payment-instructions", "pay.instruction.create"),
                     job.input.request.key)
    requires !BroughtBy(job.actor.value.data, "PAY_OPERATOR")
    ensures var decided := Authorization(job, LookupOf(Steady(c), LookupKey(job)));
            && decided.Some? && decided.value.status == 403 && decided.value.errorCode == Forbidden
            && decided.value.record.denyReason == MissingRequiredRole
  {
    EntriesAreListed();
    ListIsSeparate();
    WithoutRole(c, List(), PayInstructionCreate(), SeedChild("PR-PAY-INSTRUCTION-CREATE-PAY-OPERATOR", "PAY_OPERATOR"),
                SeedChild("PC-PAY-INSTRUCTION-CREATE-ROUTE-PAYMENTS", "CAN_ROUTE_PAYMENTS"), job);
  }
}
