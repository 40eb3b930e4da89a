/**
 A concrete database, seed list and request for which a read can be torn and for which a stored ALLOW lapses:
 the policy was there without requirements, and the list gives it a role and a capability.
 */
module ConcreteRuns {
  import opened Text
  import opened PolicyModel
  import opened ExchangeModel
  import opened Schema
  import opened Lookup
  import opened Collecting
  import opened Exchange
  import opened ExchangeTheorems
  import opened Seeding
  import opened SeedingTheorems
  import opened Protocol
  import opened Normalization
  import opened ProtocolDecisions
  import opened ProtocolAllows
  import opened ProtocolRuns
  import opened ProtocolExactness

  const KEY := RouteKey("TAIFA_TAX", "GET", "/r", "op")
  const ROW := PolicyRow("P", KEY, EFFECT_ALLOW, STATUS_ACTIVE, "")
  const ROLE := RequirementRow("R", "P", "TAX_OFFICER")
  const CAPABILITY := RequirementRow("C", "P", "CAN_ROUTE_PAYMENTS")
  const START := Db(Catalog([ROW], [], []), [], [])
  const SEED := SeedPolicy("P", KEY, EFFECT_ALLOW, STATUS_ACTIVE, "",
                           [SeedChild("R", "TAX_OFFICER")], [SeedChild("C", "CAN_ROUTE_PAYMENTS")])
  const ENV := Env((_: nat) => "", (_: nat) => false, false, false)
  const REQUEST := Job(AuthorizeInput("t", "", AuthorizeRequest("o", KEY)), "D", true,
                       Some(ActorContextResponse("", ActorContext("", "", "", "", [], []))), Some([]), true)

  lemma StartIsValid()
    ensures ValidDb(START) && PolicyChecks(ROW)
  {
    assert KEY.route[0] == '/' && KEY.operation[0] == 'o';
  }

  lemma KeyIsNormal()
    ensures KEY.Normalized() == KEY
  {
  }

  lemma RequestIsComplete()
    ensures BeforePolicy(REQUEST).AskPolicy? && RowIn(START.catalog, REQUEST) == Some(ROW)
  {
    KeyIsNormal();
    assert KEY.targetSystem in TARGET_SYSTEMS && KEY.verb in METHODS;
    assert !IsSpace("t"[0]) && !IsSpace("o"[0]) && !IsSpace(KEY.route[0]) && !IsSpace(KEY.operation[0]);
    AsksPolicyIffComplete(REQUEST);
    assert LookupKey(REQUEST) == KEY;
  }

  lemma SeedIsFourStatements()
    ensures Program([SEED]) ==
            [InsertPolicy(SEED)] + [InsertSeedEvent(SEED)] + [InsertRole(ROLE)] + [InsertCapability(CAPABILITY)]
  {
  }

  /** The policy insert is skipped, its role and its capability are added. */
  lemma SeedingAddsBoth()
    ensures Effect(START.catalog, InsertPolicy(SEED)) == Some(NO_CATALOG)
    ensures Effect(START.catalog, InsertRole(ROLE)) == Some(Catalog([], [ROLE], []))
    ensures Effect(Catalog([ROW], [ROLE], []), InsertCapability(CAPABILITY)) == Some(Catalog([], [], [CAPABILITY]))
  {
    StartIsValid();
    assert ROW in START.catalog.policies && PolicyClash(ROW, PolicyRowOf(SEED));
  }

  lemma SeedingSucceeds()
    ensures SeedRun(START, [SEED], ENV) ==
            Some(Progress(Db(Catalog([ROW], [ROLE], [CAPABILITY]), [], []), Summary(0, 1, 1, 0), false))
  {
    var p0 := Progress(START, ZERO, false);
    var p2 := Progress(Db(Catalog([ROW], [ROLE], []), [], []), Summary(0, 1, 0, 0), false);
    var a: seq<Stmt> := [InsertPolicy(SEED)];
    var b := a + [InsertSeedEvent(SEED)];
    var c := b + [InsertRole(ROLE)];
    SeedingAddsBoth();
    SeedIsFourStatements();
    PlusNothing(START);
    assert a[..0] == [];
    ExecEffect(p0, InsertPolicy(SEED), "", false);
    assert Run(p0, a, ENV) == Some(p0);
    RunStep(p0, a, InsertSeedEvent(SEED), ENV);
    ExecEvent(p0, SEED, "", false);
    assert Run(p0, b, ENV) == Some(p0);
    RunStep(p0, b, InsertRole(ROLE), ENV);
    ExecEffect(p0, InsertRole(ROLE), "", false);
    assert p0.view.Plus(Db(Catalog([], [ROLE], []), [], [])) == p2.view;
    assert Run(p0, c, ENV) == Some(p2);
    RunStep(p0, c, InsertCapability(CAPABILITY), ENV);
    ExecEffect(p2, InsertCapability(CAPABILITY), "", false);
    assert p2.view.Plus(Db(Catalog([], [], [CAPABILITY]), [], [])) == Db(Catalog([ROW], [ROLE], [CAPABILITY]), [], []);
  }

  lemma BothAreGained()
    ensures GainsBoth(START.catalog, Catalog([ROW], [ROLE], [CAPABILITY]), "P")
  {
  }

  /** Without the condition of NoTornReads the property fails: a run ends in a decision of neither state. */
  lemma ATornRead() returns (actions: seq<Action>)
    ensures ValidDb(START) && Reach([SEED], START, actions).Some?
    ensures var s := Reach([SEED], START, actions).value;
            && 0 in s.procs && s.procs[0].Writing? && s.procs[0].job == REQUEST
            && !DecidedInOneState(START.catalog, s.db.catalog, REQUEST, s.procs[0].result)
  {
    StartIsValid();
    RequestIsComplete();
    SeedingSucceeds();
    BothAreGained();
    actions := TornRunExists([SEED], START, REQUEST, ENV, ROW);
  }

  lemma GainsRoleAndCapability()
    ensures Grow(START.catalog, Program([SEED])) == Some(Catalog([ROW], [ROLE], [CAPABILITY]))
    ensures NamesOf(START.catalog.roles, "P") == [] && NamesOf([ROLE], "P") == ["TAX_OFFICER"]
  {
    SeedingSucceeds();
    var rows := RunAdds(Progress(START, ZERO, false), Program([SEED]), ENV);
  }

  lemma RequestHoldsNothing()
    ensures RolesOf(REQUEST) == [] && HeldBy(REQUEST) == []
  {
    assert AllRoles(REQUEST.actor.value.data) == [];
  }

  lemma StartRequiresNothing()
    ensures Meets([], [], NamesOf(START.catalog.roles, "P"), NamesOf(START.catalog.capabilities, "P"))
  {
  }

  lemma RequestIsEntitled()
    ensures Complete(REQUEST) && Entitled(REQUEST, Steady(START.catalog), ROW)
  {
    StartIsValid();
    RequestIsComplete();
    AsksPolicyIffComplete(REQUEST);
    SelectFinds(START.catalog.policies, LookupKey(REQUEST).Normalized());
    RequestHoldsNothing();
    StartRequiresNothing();
    NormalizedIdempotent(REQUEST.input.request.key);
    EntitledIffMeets(REQUEST, START.catalog, ROW);
  }

  /** A stored ALLOW whose rights no longer meet what its policy requires: it was granted before seeding. */
  lemma ALapsedAllow() returns (actions: seq<Action>)
    ensures ValidDb(START) && AnswersAllow([SEED], START, actions, 0, REQUEST)
    ensures var s := Reach([SEED], START, actions).value;
            var d := DecisionRowOf(ResultOf(s.procs[0]).record);
            d in s.db.decisions && !StillMeets(d, s.db.catalog)
  {
    StartIsValid();
    RequestIsEntitled();
    RequestHoldsNothing();
    GainsRoleAndCapability();
    assert AsksMore([], [], START.catalog, Catalog([ROW], [ROLE], [CAPABILITY]), "P");
    actions := LapsedRunExists([SEED], START, REQUEST);
  }
}
