/**
 The database schema: tables, keys, unique indexes, CHECK constraints and foreign keys of the
 two migrations, and what adding rows does to them. Tables are sequences in insertion order.
 */
module Schema {
  import opened Text
  import opened PolicyModel
  import opened ExchangeModel
  import opened Audit

  const ROLE_CODES: set<string> :=
    {"CITIZEN", "PROVIDER_CLINICIAN", "PROVIDER_CLAIMS_OFFICER", "CARE_ADJUDICATOR", "TAX_OFFICER",
     "EMPLOYER_SUBMITTER", "PAY_OPERATOR", "OBSERVE_ANALYST", "OBSERVE_AUDITOR", "SYSTEM_ADMIN"}
  const CAPABILITY_CODES: set<string> :=
    {"CAN_EMPLOY_PERSONS", "CAN_SUBMIT_TAX_CONTRIBUTIONS", "CAN_PROVIDE_HEALTH_SERVICES",
     "CAN_RECEIVE_HEALTH_PAYOUTS", "CAN_ROUTE_PAYMENTS", "CAN_HOLD_RESERVE_ACCOUNT",
     "CAN_OPERATE_GOVERNMENT_SERVICE", "CAN_OBSERVE_SECURITY_EVENTS"}

  // ---------- rows and tables ----------

  datatype PolicyRow = PolicyRow(id: string, key: RouteKey, effect: string, status: string, description: string)

  /** A row of the role table or of the capability table. */
  datatype RequirementRow = RequirementRow(id: string, policyId: string, name: string)

  datatype DecisionRow = DecisionRow(
    id: string,
    decision: Decision,
    key: RouteKey,
    organizationId: string,
    actorContextId: Option<string>,
    personId: Option<string>,
    credentialId: Option<string>,
    sessionId: Option<string>,
    matchedPolicyId: Option<string>,
    denyReason: Option<DenyReason>,
    requestCorrelationId: Option<string>,
    taifaIdCorrelationId: Option<string>,
    actorRoles: seq<string>,
    organizationCapabilities: seq<string>,
    requiredRoles: seq<string>,
    requiredCapabilities: seq<string>
  )

  /** The three policy tables. */
  datatype Catalog = Catalog(
    policies: seq<PolicyRow>,
    roles: seq<RequirementRow>,
    capabilities: seq<RequirementRow>
  ) {
    function Plus(added: Catalog): Catalog {
      Catalog(policies + added.policies, roles + added.roles, capabilities + added.capabilities)
    }
  }

  datatype Db = Db(catalog: Catalog, decisions: seq<DecisionRow>, outbox: seq<EventRow>) {
    function Plus(added: Db): Db {
      Db(catalog.Plus(added.catalog), decisions + added.decisions, outbox + added.outbox)
    }
  }

  const NO_CATALOG := Catalog([], [], [])
  const NO_ROWS := Db(NO_CATALOG, [], [])

  // ---------- keys ----------

  predicate PolicyClash(a: PolicyRow, b: PolicyRow) {
    a.id == b.id || a.key == b.key
  }

  predicate RequirementClash(a: RequirementRow, b: RequirementRow) {
    a.id == b.id || (a.policyId == b.policyId && a.name == b.name)
  }

  predicate DecisionClash(a: DecisionRow, b: DecisionRow) {
    a.id == b.id
  }

  predicate EventClash(a: EventRow, b: EventRow) {
    a.id == b.id
  }

  predicate Clashes<T(==)>(clash: (T, T) -> bool, table: seq<T>, row: T) {
    exists r | r in table :: clash(r, row)
  }

  ghost predicate Unique<T>(clash: (T, T) -> bool, table: seq<T>) {
    forall i, j | 0 <= i < j < |table| :: !clash(table[i], table[j])
  }

  /** No row of one list clashes with a row of the other. */
  predicate Apart<T(==)>(clash: (T, T) -> bool, a: seq<T>, b: seq<T>) {
    forall x, y | x in a && y in b :: !clash(x, y)
  }

  predicate HasPolicy(policies: seq<PolicyRow>, id: string) {
    exists p | p in policies :: p.id == id
  }

  // ---------- CHECK constraints ----------

  /** SQL's trim strips the space character only. */
  predicate SqlBlank(s: string) {
    forall i | 0 <= i < |s| :: s[i] == ' '
  }

  predicate PolicyChecks(p: PolicyRow) {
    && p.key.targetSystem in TARGET_SYSTEMS
    && p.key.verb in METHODS
    && p.effect in {EFFECT_ALLOW, EFFECT_DENY}
    && p.status in {STATUS_ACTIVE, STATUS_DISABLED}
    && !SqlBlank(p.key.route)
    && !SqlBlank(p.key.operation)
  }

  /** The decision table's CHECKs as first created. */
  predicate DecisionChecksBefore(d: DecisionRow) {
    d.key.targetSystem in TARGET_SYSTEMS && d.key.verb in METHODS
  }

  /** The decision table's CHECKs after the second migration. */
  predicate DecisionChecks(d: DecisionRow) {
    d.key.targetSystem in TARGET_SYSTEMS + {UNKNOWN} && d.key.verb in METHODS + {UNKNOWN}
  }

  predicate DecisionReference(policies: seq<PolicyRow>, d: DecisionRow) {
    d.matchedPolicyId.Some? ==> HasPolicy(policies, d.matchedPolicyId.value)
  }

  // ---------- the schema invariant ----------

  ghost predicate ValidRequirements(table: seq<RequirementRow>, codes: set<string>, policies: seq<PolicyRow>) {
    && Unique(RequirementClash, table)
    && forall r | r in table :: r.name in codes && HasPolicy(policies, r.policyId)
  }

  ghost predicate ValidCatalog(c: Catalog) {
    && Unique(PolicyClash, c.policies)
    && (forall p | p in c.policies :: PolicyChecks(p))
    && ValidRequirements(c.roles, ROLE_CODES, c.policies)
    && ValidRequirements(c.capabilities, CAPABILITY_CODES, c.policies)
  }

  ghost predicate ValidDb(db: Db) {
    && ValidCatalog(db.catalog)
    && Unique(DecisionClash, db.decisions)
    && (forall d | d in db.decisions :: DecisionChecks(d) && DecisionReference(db.catalog.policies, d))
    && Unique(EventClash, db.outbox)
  }

  ghost predicate CatalogsApart(a: Catalog, b: Catalog) {
    && Apart(PolicyClash, a.policies, b.policies)
    && Apart(RequirementClash, a.roles, b.roles)
    && Apart(RequirementClash, a.capabilities, b.capabilities)
  }

  ghost predicate DbsApart(a: Db, b: Db) {
    && CatalogsApart(a.catalog, b.catalog)
    && Apart(DecisionClash, a.decisions, b.decisions)
    && Apart(EventClash, a.outbox, b.outbox)
  }

  // ---------- the invariant column by column ----------

  /** A child table: its identifiers differ, so do its pairs of policy and name, names are known, parents are there. */
  ghost predicate ChildConstraints(table: seq<RequirementRow>, codes: set<string>, policies: seq<PolicyRow>) {
    && (forall i, j | 0 <= i < j < |table| :: table[i].id != table[j].id)
    && (forall i, j | 0 <= i < j < |table| :: table[i].policyId != table[j].policyId || table[i].name != table[j].name)
    && (forall r | r in table :: r.name in codes)
    && (forall r | r in table :: exists p | p in policies :: p.id == r.policyId)
  }

  ghost predicate PolicyConstraints(policies: seq<PolicyRow>) {
    && (forall i, j | 0 <= i < j < |policies| :: policies[i].id != policies[j].id && policies[i].key != policies[j].key)
    && (forall p | p in policies :: p.key.targetSystem in TARGET_SYSTEMS && p.key.verb in METHODS)
    && (forall p | p in policies :: (p.effect == "ALLOW" || p.effect == "DENY") && (p.status == "ACTIVE" || p.status == "DISABLED"))
    && (forall p | p in policies :: (exists i | 0 <= i < |p.key.route| :: p.key.route[i] != ' ')
                                    && (exists i | 0 <= i < |p.key.operation| :: p.key.operation[i] != ' '))
  }

  ghost predicate DecisionConstraints(decisions: seq<DecisionRow>, policies: seq<PolicyRow>) {
    && (forall i, j | 0 <= i < j < |decisions| :: decisions[i].id != decisions[j].id)
    && (forall d | d in decisions :: d.key.targetSystem in TARGET_SYSTEMS || d.key.targetSystem == "UNKNOWN")
    && (forall d | d in decisions :: d.key.verb in METHODS || d.key.verb == "UNKNOWN")
    && (forall d | d in decisions && d.matchedPolicyId.Some? :: exists p | p in policies :: p.id == d.matchedPolicyId.value)
  }

  /** Keys, unique indexes, CHECKs and foreign keys after both migrations. */
  ghost predicate Constraints(db: Db) {
    && PolicyConstraints(db.catalog.policies)
    && ChildConstraints(db.catalog.roles, ROLE_CODES, db.catalog.policies)
    && ChildConstraints(db.catalog.capabilities, CAPABILITY_CODES, db.catalog.policies)
    && DecisionConstraints(db.decisions, db.catalog.policies)
    && (forall i, j | 0 <= i < j < |db.outbox| :: db.outbox[i].id != db.outbox[j].id)
  }

  lemma ChildrenAreValidIff(table: seq<RequirementRow>, codes: set<string>, policies: seq<PolicyRow>)
    ensures ValidRequirements(table, codes, policies) <==> ChildConstraints(table, codes, policies)
  {
  }

  lemma PoliciesAreValidIff(policies: seq<PolicyRow>)
    ensures Unique(PolicyClash, policies) && (forall p | p in policies :: PolicyChecks(p)) <==> PolicyConstraints(policies)
  {
  }

  lemma DecisionsAreValidIff(decisions: seq<DecisionRow>, policies: seq<PolicyRow>)
    ensures Unique(DecisionClash, decisions)
            && (forall d | d in decisions :: DecisionChecks(d) && DecisionReference(policies, d))
            <==> DecisionConstraints(decisions, policies)
  {
  }

  /** A database is valid exactly when every constraint holds, each read off the columns it is about. */
  lemma ValidIffConstraints(db: Db)
    ensures ValidDb(db) <==> Constraints(db)
  {
    PoliciesAreValidIff(db.catalog.policies);
    ChildrenAreValidIff(db.catalog.roles, ROLE_CODES, db.catalog.policies);
    ChildrenAreValidIff(db.catalog.capabilities, CAPABILITY_CODES, db.catalog.policies);
    DecisionsAreValidIff(db.decisions, db.catalog.policies);
  }

  // ---------- appending ----------

  lemma UniqueAppend<T>(clash: (T, T) -> bool, a: seq<T>, b: seq<T>)
    ensures Unique(clash, a + b) <==> Unique(clash, a) && Unique(clash, b) && Apart(clash, a, b)
  {
    var ab := a + b;
    if Unique(clash, ab) {
      forall i, j | 0 <= i < j < |a| ensures !clash(a[i], a[j]) { assert ab[i] == a[i] && ab[j] == a[j]; }
      forall i, j | 0 <= i < j < |b| ensures !clash(b[i], b[j]) {
        assert ab[|a| + i] == b[i] && ab[|a| + j] == b[j];
      }
      forall x, y | x in a && y in b ensures !clash(x, y) {
        var i :| 0 <= i < |a| && a[i] == x;
        var j :| 0 <= j < |b| && b[j] == y;
        assert ab[i] == x && ab[|a| + j] == y;
      }
    }
  }

  /** Clashing members of a table without clashes are one row. */
  lemma UniqueMembers<T>(clash: (T, T) -> bool, t: seq<T>, x: T, y: T)
    requires Unique(clash, t) && x in t && y in t
    ensures clash(x, y) && clash(y, x) ==> x == y
  {
  }

  /** Two additions that are valid each on its own and do not clash are valid together. */
  lemma UniqueTogether<T>(clash: (T, T) -> bool, t: seq<T>, a: seq<T>, b: seq<T>)
    requires Unique(clash, t + a) && Unique(clash, t + b) && Apart(clash, a, b)
    ensures Unique(clash, t + a + b)
  {
    UniqueAppend(clash, t, a);
    UniqueAppend(clash, t, b);
    UniqueAppend(clash, t + a, b);
  }

  lemma RequirementsTogether(t: seq<RequirementRow>, a: seq<RequirementRow>, b: seq<RequirementRow>,
                             codes: set<string>, p: seq<PolicyRow>, q: seq<PolicyRow>, all: seq<PolicyRow>)
    requires ValidRequirements(t + a, codes, p) && ValidRequirements(t + b, codes, q)
    requires Apart(RequirementClash, a, b)
    requires forall row | row in p || row in q :: row in all
    ensures ValidRequirements(t + a + b, codes, all)
  {
    UniqueTogether(RequirementClash, t, a, b);
    forall r | r in t + a + b ensures r.name in codes && HasPolicy(all, r.policyId) {
      assert r in t + a || r in t + b;
    }
  }

  lemma ValidCatalogTogether(c: Catalog, a: Catalog, b: Catalog)
    requires ValidCatalog(c.Plus(a)) && ValidCatalog(c.Plus(b)) && CatalogsApart(a, b)
    ensures ValidCatalog(c.Plus(a).Plus(b))
  {
    UniqueTogether(PolicyClash, c.policies, a.policies, b.policies);
    var p, q, all := c.Plus(a).policies, c.Plus(b).policies, c.Plus(a).Plus(b).policies;
    RequirementsTogether(c.roles, a.roles, b.roles, ROLE_CODES, p, q, all);
    RequirementsTogether(c.capabilities, a.capabilities, b.capabilities, CAPABILITY_CODES, p, q, all);
  }

  lemma ValidTogether(db: Db, a: Db, b: Db)
    requires ValidDb(db.Plus(a)) && ValidDb(db.Plus(b)) && DbsApart(a, b)
    ensures ValidDb(db.Plus(a).Plus(b))
  {
    ValidCatalogTogether(db.catalog, a.catalog, b.catalog);
    UniqueTogether(DecisionClash, db.decisions, a.decisions, b.decisions);
    UniqueTogether(EventClash, db.outbox, a.outbox, b.outbox);
    forall d | d in db.Plus(a).Plus(b).decisions
      ensures DecisionChecks(d) && DecisionReference(db.Plus(a).Plus(b).catalog.policies, d)
    {
      assert d in db.Plus(a).decisions || d in db.Plus(b).decisions;
    }
  }

  lemma PlusNothing(db: Db)
    ensures db.Plus(NO_ROWS) == db && db.catalog.Plus(NO_CATALOG) == db.catalog
    ensures NO_ROWS.Plus(db) == db && NO_CATALOG.Plus(db.catalog) == db.catalog
  {
  }

  lemma PlusAssociative(a: Db, b: Db, c: Db)
    ensures a.Plus(b).Plus(c) == a.Plus(b.Plus(c))
  {
  }

  lemma CatalogPlusAssociative(a: Catalog, b: Catalog, c: Catalog)
    ensures a.Plus(b).Plus(c) == a.Plus(b.Plus(c))
  {
  }
}
