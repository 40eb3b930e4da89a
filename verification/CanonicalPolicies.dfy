/** The list that the seed command installs, and what its first and later runs report. */
module CanonicalPolicies {
  import opened Text
  import opened PolicyModel
  import opened ExchangeModel
  import opened Audit
  import opened Schema
  import opened Seeding
  import opened SeedingTheorems
  import opened SeededContents
  import opened ProtocolRuns

  // ---------- when a first run succeeds ----------

  ghost predicate MeetsChecks(s: SeedPolicy) {
    && PolicyChecks(PolicyRowOf(s))
    && (forall r | r in s.roles :: r.name in ROLE_CODES)
    && (forall r | r in s.capabilities :: r.name in CAPABILITY_CODES)
  }

  ghost predicate ListChecks(seeds: seq<SeedPolicy>) {
    forall s | s in seeds :: MeetsChecks(s)
  }

  /** In a program a child insert comes after the policy insert of its seed. */
  lemma {:induction false} ParentComesFirst(seeds: seq<SeedPolicy>, k: nat, policyId: string)
    returns (s: SeedPolicy)
    requires k < |Program(seeds)|
    requires var stmt := Program(seeds)[k];
             (stmt.InsertRole? || stmt.InsertCapability?) && stmt.row.policyId == policyId
    ensures s in seeds && s.id == policyId && InsertPolicy(s) in Program(seeds)[..k]
    decreases |seeds|
  {
    var n := |seeds| - 1;
    var past := Program(seeds[..n]);
    if k < |past| {
      s := ParentComesFirst(seeds[..n], k, policyId);
      assert past[..k] == Program(seeds)[..k];
    } else {
      s := seeds[n];
      var stmt := SeedStmts(s)[k - |past|];
      assert stmt in SeedStmts(s);
      SeedStatements(s, stmt);
      assert SeedStmts(s)[0] == InsertPolicy(s) && Program(seeds)[..k][|past|] == InsertPolicy(s);
    }
  }

  lemma StatementIsOfList(seeds: seq<SeedPolicy>, stmt: Stmt)
    requires ListChecks(seeds) && stmt in Program(seeds)
    ensures stmt.InsertPolicy? ==> PolicyChecks(PolicyRowOf(stmt.seed))
    ensures stmt.InsertRole? ==> stmt.row.name in ROLE_CODES
    ensures stmt.InsertCapability? ==> stmt.row.name in CAPABILITY_CODES
  {
    ProgramRows(seeds, stmt);
  }

  /** The parent of a child insert is there, because policies of a well-formed list do not clash. */
  lemma ParentIsThere(seeds: seq<SeedPolicy>, k: nat, policyId: string, c: Catalog)
    requires WellFormed(seeds) && k < |Program(seeds)| && Grow(NO_CATALOG, Program(seeds)[..k]) == Some(c)
    requires var stmt := Program(seeds)[k];
             (stmt.InsertRole? || stmt.InsertCapability?) && stmt.row.policyId == policyId
    ensures HasPolicy(c.policies, policyId)
  {
    var stmts := Program(seeds)[..k];
    var s := ParentComesFirst(seeds, k, policyId);
    var added := GrowSettles(NO_CATALOG, stmts);
    PlusNothing(Db(added, [], []));
    GrowOrigin(NO_CATALOG, stmts);
    assert Settled(c, InsertPolicy(s));
    var hit :| hit in c.policies && PolicyClash(hit, PolicyRowOf(s));
    var t :| t in stmts && t.InsertPolicy? && PolicyRowOf(t.seed) == hit;
    ProgramRows(seeds, t);
    assert hit in PolicyRows(seeds) && PolicyRowOf(s) in PolicyRows(seeds);
  }

  lemma EffectSucceeds(seeds: seq<SeedPolicy>, k: nat, c: Catalog)
    requires WellFormed(seeds) && ListChecks(seeds)
    requires k < |Program(seeds)| && Grow(NO_CATALOG, Program(seeds)[..k]) == Some(c)
    ensures Effect(c, Program(seeds)[k]).Some?
  {
    var stmt := Program(seeds)[k];
    StatementIsOfList(seeds, stmt);
    if stmt.InsertRole? || stmt.InsertCapability? {
      ParentIsThere(seeds, k, stmt.row.policyId, c);
    }
  }

  /** The empty policy tables accept a well-formed list that meets the CHECKs. */
  lemma {:induction false} ListIsAccepted(seeds: seq<SeedPolicy>, k: nat)
    requires WellFormed(seeds) && ListChecks(seeds) && k <= |Program(seeds)|
    ensures Grow(NO_CATALOG, Program(seeds)[..k]).Some?
    decreases k
  {
    if k > 0 {
      assert Program(seeds)[..k][..k - 1] == Program(seeds)[..k - 1];
      ListIsAccepted(seeds, k - 1);
      EffectSucceeds(seeds, k - 1, Grow(NO_CATALOG, Program(seeds)[..k - 1]).value);
    }
  }

  /** From empty policy tables a well-formed list that meets the CHECKs is seeded, unless there is an outage or an identifier collision. */
  lemma FirstRunSucceeds(db: Db, seeds: seq<SeedPolicy>, env: Env)
    requires db.catalog == NO_CATALOG && WellFormed(seeds) && ListChecks(seeds)
    requires NoOutage(env) && FreshDraws(db, env)
    ensures SeedRun(db, seeds, env).Some?
  {
    assert Program(seeds)[..|Program(seeds)|] == Program(seeds);
    ListIsAccepted(seeds, |Program(seeds)|);
    QuietRunSucceeds(db, seeds, env);
  }

  // ---------- the list ----------

  function Canonical(id: string, key: RouteKey, role: SeedChild, capability: SeedChild): SeedPolicy {
    SeedPolicy(id, key, EFFECT_ALLOW, STATUS_ACTIVE, "", [role], [capability])
  }

  function CareClaimCreate(): SeedPolicy {
    Canonical("POL-CARE-CLAIM-CREATE-CLINICIAN",
              RouteKey("TAIFA_CARE", "POST", "/api/v1/claims", "care.claim.create"),
              SeedChild("PR-CARE-CLAIM-CREATE-CLINICIAN", "PROVIDER_CLINICIAN"),
              SeedChild("PC-CARE-CLAIM-CREATE-HEALTH-SERVICES", "CAN_PROVIDE_HEALTH_SERVICES"))
  }

  function CareClaimSubmit(): SeedPolicy {
    Canonical("POL-CARE-CLAIM-SUBMIT-CLAIMS-OFFICER",
              RouteKey("TAIFA_CARE", "POST", "/api/v1/claims/submit", "care.claim.submit"),
              SeedChild("PR-CARE-CLAIM-SUBMIT-CLAIMS-OFFICER", "PROVIDER_CLAIMS_OFFICER"),
              SeedChild("PC-CARE-CLAIM-SUBMIT-HEALTH-SERVICES", "CAN_PROVIDE_HEALTH_SERVICES"))
  }

  function TaxContributionSubmit(): SeedPolicy {
    Canonical("POL-TAX-CONTRIBUTION-SUBMIT-EMPLOYER",
              RouteKey("TAIFA_TAX", "POST", "/api/v1/contributions", "tax.contribution.submit"),
              SeedChild("PR-TAX-CONTRIBUTION-SUBMIT-EMPLOYER", "EMPLOYER_SUBMITTER"),
              SeedChild("PC-TAX-CONTRIBUTION-SUBMIT-CONTRIBUTIONS", "CAN_SUBMIT_TAX_CONTRIBUTIONS"))
  }

  function TaxContributionRead(): SeedPolicy {
    Canonical("POL-TAX-CONTRIBUTION-READ-TAX-OFFICER",
              RouteKey("TAIFA_TAX", "GET", "/api/v1/contributions", "tax.contribution.read"),
              SeedChild("PR-TAX-CONTRIBUTION-READ-TAX-OFFICER", "TAX_OFFICER"),
              SeedChild("PC-TAX-CONTRIBUTION-READ-GOVERNMENT-SERVICE", "CAN_OPERATE_GOVERNMENT_SERVICE"))
  }

  function PayInstructionCreate(): SeedPolicy {
    Canonical("POL-PAY-INSTRUCTION-CREATE-PAY-OPERATOR",
              RouteKey("TAIFA_PAY", "POST", "/api/v1/payment-instructions", "pay.instruction.create"),
              SeedChild("PR-PAY-INSTRUCTION-CREATE-PAY-OPERATOR", "PAY_OPERATOR"),
              SeedChild("PC-PAY-INSTRUCTION-CREATE-ROUTE-PAYMENTS", "CAN_ROUTE_PAYMENTS"))
  }

  function ObserveEventRead(): SeedPolicy {
    Canonical("POL-OBSERVE-SECURITY-EVENT-READ-ANALYST",
              RouteKey("TAIFA_OBSERVE", "GET", "/api/v1/security-events", "observe.security_event.read"),
              SeedChild("PR-OBSERVE-SECURITY-EVENT-READ-ANALYST", "OBSERVE_ANALYST"),
              SeedChild("PC-OBSERVE-SECURITY-EVENT-READ-OBSERVE-EVENTS", "CAN_OBSERVE_SECURITY_EVENTS"))
  }

  /** The six canonical policies; their descriptions, which nothing reads, are left empty. */
  function List(): seq<SeedPolicy> {
    [CareClaimCreate(), CareClaimSubmit(), TaxContributionSubmit(),
     TaxContributionRead(), PayInstructionCreate(), ObserveEventRead()]
  }

  // ---------- no two entries clash ----------

  /** Where the i-th policy differs from the others: a character of its identifier, length and a character of its operation. */
  predicate MarkedPolicy(s: SeedPolicy, i: nat)
    requires i < 6
  {
    && |s.id| > 24 && s.id[24] == "IAMDTN"[i]
    && |s.key.operation| == [17, 17, 23, 21, 22, 27][i] && s.key.operation[11] == "csuutu"[i]
  }

  /** Where its role differs, and its capability. */
  predicate MarkedRole(s: SeedPolicy, i: nat)
    requires i < 6
  {
    |s.roles| == 1 && |s.roles[0].id| > 23 && s.roles[0].id[23] == "IAMDTN"[i]
  }

  predicate MarkedCapability(s: SeedPolicy, i: nat)
    requires i < 6
  {
    && |s.capabilities| == 1
    && |s.capabilities[0].id| == [36, 36, 40, 43, 40, 45][i] && s.capabilities[0].id[15] == "RUTTIR"[i]
  }

  predicate Marked(s: SeedPolicy, i: nat)
    requires i < 6
  {
    MarkedPolicy(s, i) && MarkedRole(s, i) && MarkedCapability(s, i)
  }

  lemma PolicyIsMarked(i: nat)
    requires i < 6
    ensures MarkedPolicy(List()[i], i)
  {
  }

  lemma RoleIsMarked(i: nat)
    requires i < 6
    ensures MarkedRole(List()[i], i)
  {
  }

  lemma CapabilityIsMarked(i: nat)
    requires i < 6
    ensures MarkedCapability(List()[i], i)
  {
  }

  lemma EntryMeetsPolicyChecks(i: nat)
    requires i < 6
    ensures PolicyChecks(PolicyRowOf(List()[i]))
  {
    assert List()[i].key.route[0] == '/' && List()[i].key.operation[0] == "ccttpo"[i];
  }

  /** One role and one capability, both of known codes. */
  ghost predicate KnownCodes(s: SeedPolicy) {
    && |s.roles| == 1 && s.roles[0].name in ROLE_CODES
    && |s.capabilities| == 1 && s.capabilities[0].name in CAPABILITY_CODES
  }

  lemma EntryHasKnownCodes(i: nat)
    requires i < 6
    ensures KnownCodes(List()[i])
  {
  }

  lemma EntriesMeetChecks(seeds: seq<SeedPolicy>)
    requires forall i | 0 <= i < |seeds| :: PolicyChecks(PolicyRowOf(seeds[i])) && KnownCodes(seeds[i])
    ensures ListChecks(seeds)
  {
  }

  ghost predicate AllMarked(seeds: seq<SeedPolicy>) {
    |seeds| == 6 && forall i | 0 <= i < 6 :: Marked(seeds[i], i)
  }

  lemma MarksDiffer(s: SeedPolicy, i: nat, t: SeedPolicy, j: nat)
    requires i < 6 && j < 6 && i != j && Marked(s, i) && Marked(t, j)
    ensures !PolicyClash(PolicyRowOf(s), PolicyRowOf(t))
    ensures !RequirementClash(ChildRow(s.id, s.roles[0]), ChildRow(t.id, t.roles[0]))
    ensures !RequirementClash(ChildRow(s.id, s.capabilities[0]), ChildRow(t.id, t.capabilities[0]))
  {
  }

  /** One role and one capability each, and no clash between different entries. */
  ghost predicate Separate(seeds: seq<SeedPolicy>) {
    && (forall s | s in seeds :: |s.roles| == 1 && |s.capabilities| == 1)
    && forall i, j | 0 <= i < |seeds| && 0 <= j < |seeds| && i != j ::
         && !PolicyClash(PolicyRowOf(seeds[i]), PolicyRowOf(seeds[j]))
         && !RequirementClash(ChildRow(seeds[i].id, seeds[i].roles[0]), ChildRow(seeds[j].id, seeds[j].roles[0]))
         && !RequirementClash(ChildRow(seeds[i].id, seeds[i].capabilities[0]),
                              ChildRow(seeds[j].id, seeds[j].capabilities[0]))
  }

  lemma MarkedIsSeparate(seeds: seq<SeedPolicy>)
    requires AllMarked(seeds)
    ensures Separate(seeds)
  {
    forall i: nat, j: nat | i < 6 && j < 6 && i != j
      ensures !PolicyClash(PolicyRowOf(seeds[i]), PolicyRowOf(seeds[j]))
      ensures !RequirementClash(ChildRow(seeds[i].id, seeds[i].roles[0]), ChildRow(seeds[j].id, seeds[j].roles[0]))
      ensures !RequirementClash(ChildRow(seeds[i].id, seeds[i].capabilities[0]),
                                ChildRow(seeds[j].id, seeds[j].capabilities[0]))
    {
      MarksDiffer(seeds[i], i, seeds[j], j);
    }
  }

  lemma SeparateSeedsAreEqual(seeds: seq<SeedPolicy>, s: SeedPolicy, t: SeedPolicy)
    requires Separate(seeds) && s in seeds && t in seeds
    ensures PolicyClash(PolicyRowOf(s), PolicyRowOf(t)) ==> s == t
    ensures RequirementClash(ChildRow(s.id, s.roles[0]), ChildRow(t.id, t.roles[0])) ==> s == t
    ensures RequirementClash(ChildRow(s.id, s.capabilities[0]), ChildRow(t.id, t.capabilities[0])) ==> s == t
  {
  }

  lemma SeparateRoles(seeds: seq<SeedPolicy>, a: RequirementRow, b: RequirementRow)
    requires Separate(seeds) && a in RoleRows(seeds) && b in RoleRows(seeds) && RequirementClash(a, b)
    ensures a == b
  {
  }

  lemma SeparateCapabilities(seeds: seq<SeedPolicy>, a: RequirementRow, b: RequirementRow)
    requires Separate(seeds) && a in CapabilityRows(seeds) && b in CapabilityRows(seeds) && RequirementClash(a, b)
    ensures a == b
  {
  }

  lemma SeparateIsWellFormed(seeds: seq<SeedPolicy>)
    requires Separate(seeds)
    ensures WellFormed(seeds) && IdsDistinct(seeds)
  {
    forall s, t | s in seeds && t in seeds && PolicyClash(PolicyRowOf(s), PolicyRowOf(t)) ensures s == t {
      SeparateSeedsAreEqual(seeds, s, t);
    }
    forall a, b | a in RoleRows(seeds) && b in RoleRows(seeds) && RequirementClash(a, b) ensures a == b {
      SeparateRoles(seeds, a, b);
    }
    forall a, b | a in CapabilityRows(seeds) && b in CapabilityRows(seeds) && RequirementClash(a, b) ensures a == b {
      SeparateCapabilities(seeds, a, b);
    }
  }

  lemma ListIsSeparate()
    ensures Separate(List())
  {
    forall i: nat | i < 6 ensures Marked(List()[i], i) {
      PolicyIsMarked(i);
      RoleIsMarked(i);
      CapabilityIsMarked(i);
    }
    MarkedIsSeparate(List());
  }

  lemma ListMeetsChecks()
    ensures ListChecks(List())
  {
    forall i: nat | i < 6 ensures PolicyChecks(PolicyRowOf(List()[i])) && KnownCodes(List()[i]) {
      EntryMeetsPolicyChecks(i);
      EntryHasKnownCodes(i);
    }
    EntriesMeetChecks(List());
  }

  // ---------- what the runs report ----------

  /** A list without repetitions has as many entries as elements. */
  lemma {:induction false} SizeOfElements<T>(xs: seq<T>)
    requires forall i, j | 0 <= i < j < |xs| :: xs[i] != xs[j]
    ensures |set x | x in xs| == |xs|
  {
    if xs != [] {
      var n := |xs| - 1;
      SizeOfElements(xs[..n]);
      assert (set x | x in xs) == (set x | x in xs[..n]) + {xs[n]};
    }
  }

  /** Two lists without repetitions and with the same elements are equally long. */
  lemma SameSize<T>(xs: seq<T>, ys: seq<T>)
    requires forall i, j | 0 <= i < j < |xs| :: xs[i] != xs[j]
    requires forall i, j | 0 <= i < j < |ys| :: ys[i] != ys[j]
    requires forall x :: x in xs <==> x in ys
    ensures |xs| == |ys|
  {
    SizeOfElements(xs);
    SizeOfElements(ys);
    assert (set x | x in xs) == (set y | y in ys);
  }

  lemma PolicyCount(c: Catalog, seeds: seq<SeedPolicy>)
    requires ValidCatalog(c) && Separate(seeds) && HoldsExactly(c, seeds)
    ensures |c.policies| == |seeds|
  {
    var rows := seq(|seeds|, i requires 0 <= i < |seeds| => PolicyRowOf(seeds[i]));
    forall x ensures x in rows <==> x in c.policies {
      assert x in c.policies <==> x in Elements(c.policies);
      assert x in c.policies <==> x in PolicyRows(seeds);
      if x in PolicyRows(seeds) {
        var s :| s in seeds && PolicyRowOf(s) == x;
        var i :| 0 <= i < |seeds| && seeds[i] == s;
        assert rows[i] == x;
      }
    }
    SameSize(rows, c.policies);
  }

  function RoleList(seeds: seq<SeedPolicy>): seq<RequirementRow>
    requires forall s | s in seeds :: |s.roles| == 1
  {
    seq(|seeds|, i requires 0 <= i < |seeds| => ChildRow(seeds[i].id, seeds[i].roles[0]))
  }

  lemma RoleListMembers(seeds: seq<SeedPolicy>, x: RequirementRow)
    requires forall s | s in seeds :: |s.roles| == 1
    ensures x in RoleList(seeds) <==> x in RoleRows(seeds)
  {
    if x in RoleRows(seeds) {
      var s, r :| s in seeds && r in s.roles && x == ChildRow(s.id, r);
      var i :| 0 <= i < |seeds| && seeds[i] == s;
      assert RoleList(seeds)[i] == x;
    }
    if x in RoleList(seeds) {
      var i :| 0 <= i < |seeds| && RoleList(seeds)[i] == x;
      assert seeds[i] in seeds && seeds[i].roles[0] in seeds[i].roles;
    }
  }

  lemma RoleCount(c: Catalog, seeds: seq<SeedPolicy>)
    requires ValidCatalog(c) && Separate(seeds) && HoldsExactly(c, seeds)
    ensures |c.roles| == |seeds|
  {
    var rows := RoleList(seeds);
    forall x ensures x in rows <==> x in c.roles {
      RoleListMembers(seeds, x);
      assert x in c.roles <==> x in Elements(c.roles);
    }
    SameSize(rows, c.roles);
  }

  function CapabilityList(seeds: seq<SeedPolicy>): seq<RequirementRow>
    requires forall s | s in seeds :: |s.capabilities| == 1
  {
    seq(|seeds|, i requires 0 <= i < |seeds| => ChildRow(seeds[i].id, seeds[i].capabilities[0]))
  }

  lemma CapabilityListMembers(seeds: seq<SeedPolicy>, x: RequirementRow)
    requires forall s | s in seeds :: |s.capabilities| == 1
    ensures x in CapabilityList(seeds) <==> x in CapabilityRows(seeds)
  {
    if x in CapabilityRows(seeds) {
      var s, r :| s in seeds && r in s.capabilities && x == ChildRow(s.id, r);
      var i :| 0 <= i < |seeds| && seeds[i] == s;
      assert CapabilityList(seeds)[i] == x;
    }
    if x in CapabilityList(seeds) {
      var i :| 0 <= i < |seeds| && CapabilityList(seeds)[i] == x;
      assert seeds[i] in seeds && seeds[i].capabilities[0] in seeds[i].capabilities;
    }
  }

  lemma CapabilityCount(c: Catalog, seeds: seq<SeedPolicy>)
    requires ValidCatalog(c) && Separate(seeds) && HoldsExactly(c, seeds)
    ensures |c.capabilities| == |seeds|
  {
    var rows := CapabilityList(seeds);
    forall x ensures x in rows <==> x in c.capabilities {
      CapabilityListMembers(seeds, x);
      assert x in c.capabilities <==> x in Elements(c.capabilities);
    }
    SameSize(rows, c.capabilities);
  }

  lemma FirstReport(db: Db, seeds: seq<SeedPolicy>, env: Env)
    requires ValidDb(db) && db.catalog == NO_CATALOG && Separate(seeds) && ListChecks(seeds)
    requires NoOutage(env) && FreshDraws(db, env)
    ensures SeedRun(db, seeds, env).Some?
    ensures SeedRun(db, seeds, env).value.summary == Summary(|seeds|, |seeds|, |seeds|, |seeds|)
  {
    SeparateIsWellFormed(seeds);
    FirstRunSucceeds(db, seeds, env);
    SeedCountsAreExact(db, seeds, env);
    var rows := RunAdds(Progress(db, ZERO, false), Program(seeds), env);
    SeedingFromEmpty(seeds);
    PolicyCount(SeedRun(db, seeds, env).value.view.catalog, seeds);
    RoleCount(SeedRun(db, seeds, env).value.view.catalog, seeds);
    CapabilityCount(SeedRun(db, seeds, env).value.view.catalog, seeds);
  }

  /**
   The documented reports of the seed command: 6 policies, 6 roles, 6 capabilities and 6 audit events on a
   database without policies, and all zeros when it is run again.
   */
  lemma DocumentedReports(db: Db, env: Env, again: Env)
    requires ValidDb(db) && db.catalog == NO_CATALOG
    requires NoOutage(env) && FreshDraws(db, env) && NoOutage(again)
    ensures SeedRun(db, List(), env).Some?
    ensures var first := SeedRun(db, List(), env).value;
            && first.summary == Summary(6, 6, 6, 6)
            && SeedRun(first.view, List(), again) == Some(Progress(first.view, ZERO, false))
  {
    ListIsSeparate();
    ListMeetsChecks();
    assert |List()| == 6;
    FirstReport(db, List(), env);
    SecondReport(db, List(), env, again);
  }

  lemma SecondReport(db: Db, seeds: seq<SeedPolicy>, env: Env, again: Env)
    requires SeedRun(db, seeds, env).Some? && NoOutage(again)
    ensures var first := SeedRun(db, seeds, env).value.view;
            SeedRun(first, seeds, again) == Some(Progress(first, ZERO, false))
  {
    SeedingTwice(db, seeds, env, again);
    OneEventPerPolicy(Progress(SeedRun(db, seeds, env).value.view, ZERO, false), seeds, again);
  }
}
