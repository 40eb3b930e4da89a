/**
 What an ALLOW rests on, over every interleaving: the policy it names and the rights it records, and exactly
 when later seeding asks for more than those rights.
 */
module ProtocolAllows {
  import opened Text
  import opened Normalization
  import opened PolicyModel
  import opened ExchangeModel
  import opened Audit
  import opened Schema
  import opened Evaluator
  import opened Lookup
  import opened Collecting
  import opened Exchange
  import opened ExchangeTheorems
  import opened ExchangeRecords
  import opened Seeding
  import opened SeedingTheorems
  import opened SeededContents
  import opened Protocol
  import opened ProtocolSafety
  import opened ProtocolCatalog
  import opened ProtocolDecisions

  // ---------- what an ALLOW row must show ----------

  /** One of the required roles, if there are any, and all required capabilities. */
  ghost predicate Meets(actor: seq<string>, held: seq<string>, roles: seq<string>, capabilities: seq<string>) {
    && (roles == [] || exists r | r in roles :: r in actor)
    && (forall r | r in capabilities :: r in held)
  }

  /** The rights recorded meet what the tables ask of that policy. */
  ghost predicate MeetsPolicy(d: DecisionRow, c: Catalog, id: string) {
    Meets(d.actorRoles, d.organizationCapabilities, NamesOf(c.roles, id), NamesOf(c.capabilities, id))
  }

  /** The policy is the one the decision row names, for exactly the row's key, active and allowing. */
  ghost predicate NamesPolicy(d: DecisionRow, p: PolicyRow) {
    && d.matchedPolicyId == NullIfEmpty(p.id) && d.key == p.key
    && p.status == STATUS_ACTIVE && p.effect == EFFECT_ALLOW
  }

  /** The row names a policy of the tables and shows rights that meet the requirements it records. */
  ghost predicate Justified(d: DecisionRow, c: Catalog) {
    && Meets(d.actorRoles, d.organizationCapabilities, d.requiredRoles, d.requiredCapabilities)
    && exists p | p in c.policies :: NamesPolicy(d, p)
  }

  /** The row names a policy of the tables and shows rights that meet all that these tables ask for. */
  ghost predicate StillMeets(d: DecisionRow, c: Catalog) {
    exists p | p in c.policies :: NamesPolicy(d, p) && MeetsPolicy(d, c, p.id)
  }

  /** The requirements recorded are those of the tables. */
  ghost predicate RecordIsCurrent(d: DecisionRow, c: Catalog) {
    exists p | p in c.policies :: NamesPolicy(d, p) && d.requiredRoles == NamesOf(c.roles, p.id)
                                  && d.requiredCapabilities == NamesOf(c.capabilities, p.id)
  }

  // ---------- asking for more ----------

  /**
   From the first tables to the second the policy has come to ask for rights that are not held: for roles where
   it asked for none, of which the actor has none, or for a further capability that is not held. Further roles
   beside others do no harm, because one of them suffices.
   */
  ghost predicate AsksMore(actor: seq<string>, held: seq<string>, c0: Catalog, now: Catalog, id: string) {
    || (NamesOf(c0.roles, id) == [] && NamesOf(now.roles, id) != [] && forall r | r in NamesOf(now.roles, id) :: r !in actor)
    || exists r | r in NamesOf(now.capabilities, id) :: r !in NamesOf(c0.capabilities, id) && r !in held
  }

  /** The policy that the row names was there in the first tables and has come to ask for more. */
  ghost predicate AskedForMore(d: DecisionRow, c0: Catalog, now: Catalog) {
    exists p | p in c0.policies :: NamesPolicy(d, p) && AsksMore(d.actorRoles, d.organizationCapabilities, c0, now, p.id)
  }

  /** The same read off the starting tables and the list. */
  ghost predicate ListAsksMore(actor: seq<string>, held: seq<string>, seeds: seq<SeedPolicy>, c: Catalog, id: string) {
    || (NamesOf(c.roles, id) == [] && (exists x :: AsksRole(seeds, id, x)) && forall x | AsksRole(seeds, id, x) :: x !in actor)
    || exists x :: AsksCapability(seeds, id, x) && x !in NamesOf(c.capabilities, id) && x !in held
  }

  lemma AsksMoreIffListAsksMore(actor: seq<string>, held: seq<string>, seeds: seq<SeedPolicy>, c: Catalog, id: string)
    requires ValidCatalog(c) && ChildrenFresh(c, seeds) && Grow(c, Program(seeds)).Some?
    ensures AsksMore(actor, held, c, Grow(c, Program(seeds)).value, id) <==> ListAsksMore(actor, held, seeds, c, id)
  {
    var now := Grow(c, Program(seeds)).value;
    SeededNames(c, seeds, id);
    if NamesOf(now.roles, id) != [] {
      assert NamesOf(now.roles, id)[0] in NamesOf(now.roles, id);
    }
  }

  lemma NamesGrow(c0: Catalog, added: Catalog, id: string)
    requires ValidCatalog(c0) && ValidCatalog(c0.Plus(added))
    ensures forall x | x in NamesOf(c0.roles, id) :: x in NamesOf(c0.Plus(added).roles, id)
    ensures forall x | x in NamesOf(c0.capabilities, id) :: x in NamesOf(c0.Plus(added).capabilities, id)
  {
    NamesOfMembers(c0.roles, id);
    NamesOfMembers(c0.capabilities, id);
    NamesOfMembers(c0.Plus(added).roles, id);
    NamesOfMembers(c0.Plus(added).capabilities, id);
    assert forall r | r in c0.roles :: r in c0.Plus(added).roles;
    assert forall r | r in c0.capabilities :: r in c0.Plus(added).capabilities;
  }

  /** Rights that met old or new lists of roles and of capabilities meet the new ones unless more is asked. */
  lemma MeetsGrown(actor: seq<string>, held: seq<string>, c0: Catalog, now: Catalog, id: string,
                   roles: seq<string>, capabilities: seq<string>)
    requires forall x | x in NamesOf(c0.roles, id) :: x in NamesOf(now.roles, id)
    requires forall x | x in NamesOf(c0.capabilities, id) :: x in NamesOf(now.capabilities, id)
    requires roles == NamesOf(c0.roles, id) || roles == NamesOf(now.roles, id)
    requires capabilities == NamesOf(c0.capabilities, id) || capabilities == NamesOf(now.capabilities, id)
    requires Meets(actor, held, roles, capabilities)
    ensures Meets(actor, held, NamesOf(now.roles, id), NamesOf(now.capabilities, id)) <==> !AsksMore(actor, held, c0, now, id)
  {
    if NamesOf(c0.roles, id) != [] {
      assert NamesOf(c0.roles, id)[0] in NamesOf(c0.roles, id);
    }
  }

  lemma NamedPolicyIsOne(d: DecisionRow, c: Catalog, p: PolicyRow, q: PolicyRow)
    requires ValidCatalog(c) && p in c.policies && q in c.policies && NamesPolicy(d, p) && NamesPolicy(d, q)
    ensures p == q
  {
    UniqueMembers(PolicyClash, c.policies, p, q);
  }

  /**
   A row whose rights met the requirements that a lookup can have seen, some lists old and some new, meets
   those of the tables now exactly when its policy has not come to ask for more.
   */
  lemma MeetsUnlessAskedForMore(d: DecisionRow, c0: Catalog, added: Catalog, p: PolicyRow,
                                roles: seq<string>, capabilities: seq<string>)
    requires ValidCatalog(c0) && ValidCatalog(c0.Plus(added)) && p in c0.Plus(added).policies && NamesPolicy(d, p)
    requires var now := c0.Plus(added);
             && (roles == NamesOf(now.roles, p.id) || (p in c0.policies && roles == NamesOf(c0.roles, p.id)))
             && (capabilities == NamesOf(now.capabilities, p.id)
                 || (p in c0.policies && capabilities == NamesOf(c0.capabilities, p.id)))
    requires Meets(d.actorRoles, d.organizationCapabilities, roles, capabilities)
    ensures StillMeets(d, c0.Plus(added)) <==> !AskedForMore(d, c0, c0.Plus(added))
  {
    var now := c0.Plus(added);
    forall q | q in now.policies && NamesPolicy(d, q) ensures q == p {
      NamedPolicyIsOne(d, now, p, q);
    }
    assert forall q | q in c0.policies :: q in now.policies;
    assert StillMeets(d, now) <==> MeetsPolicy(d, now, p.id);
    if p in c0.policies {
      NamesGrow(c0, added, p.id);
      MeetsGrown(d.actorRoles, d.organizationCapabilities, c0, now, p.id, roles, capabilities);
    }
  }

  // ---------- what the pipeline records of an ALLOW ----------

  /** A verdict without a reason to deny, seen on the normalised lists. */
  lemma VerdictShowsRights(policy: Policy, actorRoles: seq<string>, capabilities: seq<string>)
    requires PolicyVerdict(policy, NormSet(Norm(actorRoles)), NormSet(Norm(capabilities))) == NoReason
    ensures Norm(policy.requiredRoles) == [] || exists r | r in Norm(policy.requiredRoles) :: r in Norm(actorRoles)
    ensures forall r | r in Norm(policy.requiredCapabilities) :: r in Norm(capabilities)
  {
    var actor := NormSet(Norm(actorRoles));
    NormShape(policy.requiredRoles);
    NormShape(policy.requiredCapabilities);
    NormIsItsSet(actorRoles);
    NormIsItsSet(capabilities);
    if Norm(policy.requiredRoles) != [] {
      assert Norm(policy.requiredRoles)[0] in NormSet(policy.requiredRoles);
      var r :| r in policy.requiredRoles && Canon(r) != "" && Canon(r) in actor;
      assert Canon(r) in Norm(policy.requiredRoles);
    }
  }

  /** An ALLOW shows its rights on the lists it records. */
  lemma AllowShowsRights(job: Job, found: LookupResult)
    requires BeforePolicy(job).AskPolicy? && !found.LookupError?
    requires Authorization(job, found).value.record.decision == Allow
    ensures found.Found?
    ensures var d := DecisionRowOf(Authorization(job, found).value.record);
            && Meets(d.actorRoles, d.organizationCapabilities, d.requiredRoles, d.requiredCapabilities)
            && d.key == LookupKey(job) && d.matchedPolicyId == NullIfEmpty(found.policy.id)
            && d.requiredRoles == Norm(found.policy.requiredRoles)
            && d.requiredCapabilities == Norm(found.policy.requiredCapabilities)
            && Canon(found.policy.status) == STATUS_ACTIVE && Canon(found.policy.effect) == EFFECT_ALLOW
  {
    KeysCoincide(job, found);
    DecisionFollowsVerdict(job, found);
    NormSetOfNorm(AllRoles(job.actor.value.data));
    NormSetOfNorm(job.capabilities.value);
    VerdictShowsRights(found.policy, AllRoles(job.actor.value.data), job.capabilities.value);
    RecordedLists(job, found);
  }

  lemma NormIsItsSet(values: seq<string>)
    ensures forall x :: x in Norm(values) <==> x in NormSet(Norm(values))
  {
    NormSetOfNorm(values);
    NormShape(values);
  }

  // ---------- every ALLOW of a run ----------

  /** Seeding adds no requirement to a policy that is there at the start; in particular when there is none. */
  ghost predicate RequirementsUntouched(seeds: seq<SeedPolicy>, c0: Catalog) {
    Grow(c0, Program(seeds)).Some? ==>
      var c1 := Grow(c0, Program(seeds)).value;
      forall p | p in c0.policies :: NamesOf(c0.roles, p.id) == NamesOf(c1.roles, p.id)
                                     && NamesOf(c0.capabilities, p.id) == NamesOf(c1.capabilities, p.id)
  }

  /** An ALLOW decided on one combination of reads names the policy read, and records the lists read. */
  lemma AllowRecordsItsReads(c0: Catalog, added: Catalog, job: Job, k: nat) returns (row: PolicyRow)
    requires ValidCatalog(c0) && ValidCatalog(c0.Plus(added)) && k <= 3
    requires var decided := Authorization(job, LookupOf(ReadsSeen(c0, c0.Plus(added), k), LookupKey(job)));
             decided.Some? && decided.value.record.decision == Allow
    ensures var seen := ReadsSeen(c0, c0.Plus(added), k);
            var d := DecisionRowOf(Authorization(job, LookupOf(seen, LookupKey(job))).value.record);
            && row in seen.policy.policies && row in c0.Plus(added).policies && NamesPolicy(d, row)
            && Meets(d.actorRoles, d.organizationCapabilities, d.requiredRoles, d.requiredCapabilities)
            && d.requiredRoles == NamesOf(seen.roles.roles, row.id)
            && d.requiredCapabilities == NamesOf(seen.capabilities.capabilities, row.id)
            && BeforePolicy(job).AskPolicy? && RowIn(seen.policy, job) == Some(row)
  {
    var seen := ReadsSeen(c0, c0.Plus(added), k);
    var found := LookupOf(seen, LookupKey(job));
    if BeforePolicy(job).Early? {
      EarlyIsDenied(job);
    }
    AllowShowsRights(job, found);
    NormalizedIdempotent(job.input.request.key);
    row := SelectPolicy(seen.policy.policies, LookupKey(job).Normalized()).value;
    SelectFinds(seen.policy.policies, LookupKey(job).Normalized());
    StoredTextIsCanonical(row);
    StoredNamesAreNormal(c0, row.id);
    StoredNamesAreNormal(c0.Plus(added), row.id);
  }

  lemma AllowIsJustified(c0: Catalog, added: Catalog, job: Job, k: nat)
    requires ValidCatalog(c0) && ValidCatalog(c0.Plus(added)) && k <= 3
    requires var decided := Authorization(job, LookupOf(ReadsSeen(c0, c0.Plus(added), k), LookupKey(job)));
             decided.Some? && decided.value.record.decision == Allow
    ensures var now := c0.Plus(added);
            var d := DecisionRowOf(Authorization(job, LookupOf(ReadsSeen(c0, now, k), LookupKey(job))).value.record);
            && Justified(d, now)
            && (StillMeets(d, now) <==> !AskedForMore(d, c0, now))
            && ((forall p | p in c0.policies :: NamesOf(c0.roles, p.id) == NamesOf(now.roles, p.id)
                                              && NamesOf(c0.capabilities, p.id) == NamesOf(now.capabilities, p.id))
                ==> RecordIsCurrent(d, now))
  {
    var now := c0.Plus(added);
    var d := DecisionRowOf(Authorization(job, LookupOf(ReadsSeen(c0, now, k), LookupKey(job))).value.record);
    var row := AllowRecordsItsReads(c0, added, job, k);
    MeetsUnlessAskedForMore(d, c0, added, row, d.requiredRoles, d.requiredCapabilities);
  }

  lemma DecidedAllowIsJustified(seeds: seq<SeedPolicy>, c0: Catalog, added: Catalog, job: Job, result: AuthorizeResult)
    requires ValidCatalog(c0) && ValidCatalog(c0.Plus(added))
    requires c0.Plus(added) != c0 ==> Grow(c0, Program(seeds)) == Some(c0.Plus(added))
    requires DecidedFrom(c0, c0.Plus(added), job, result) && result.record.decision == Allow
    ensures var d, now := DecisionRowOf(result.record), c0.Plus(added);
            && Justified(d, now)
            && (StillMeets(d, now) <==> !AskedForMore(d, c0, now))
            && (RequirementsUntouched(seeds, c0) ==> RecordIsCurrent(d, now))
  {
    var k :| 0 <= k <= 3 && Authorization(job, LookupOf(ReadsSeen(c0, c0.Plus(added), k), LookupKey(job))) == Some(result);
    AllowIsJustified(c0, added, job, k);
  }

  /** The same for a row that was there at the start and met its policy's requirements then. */
  lemma OlderAllowIsJustified(d: DecisionRow, c0: Catalog, added: Catalog)
    requires ValidCatalog(c0) && ValidCatalog(c0.Plus(added)) && Justified(d, c0) && StillMeets(d, c0)
    ensures Justified(d, c0.Plus(added))
    ensures StillMeets(d, c0.Plus(added)) <==> !AskedForMore(d, c0, c0.Plus(added))
  {
    var p :| p in c0.policies && NamesPolicy(d, p) && MeetsPolicy(d, c0, p.id);
    assert p in c0.Plus(added).policies;
    MeetsUnlessAskedForMore(d, c0, added, p, NamesOf(c0.roles, p.id), NamesOf(c0.capabilities, p.id));
  }
}
