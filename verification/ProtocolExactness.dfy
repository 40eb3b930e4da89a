/**
 Exactly which requests can meet a torn read, and exactly which stored ALLOWs can lapse: both conditions are on
 the starting tables, the seed list and the request, and each is shown necessary by a run.
 */
module ProtocolExactness {
  import opened Text
  import opened Normalization
  import opened PolicyModel
  import opened ExchangeModel
  import opened Schema
  import opened Evaluator
  import opened Lookup
  import opened Collecting
  import opened Exchange
  import opened ExchangeTheorems
  import opened ExchangeRecords
  import opened Seeding
  import opened SeedingTheorems
  import opened SeededContents
  import opened Protocol
  import opened ProtocolSafety
  import opened ProtocolCatalog
  import opened ProtocolDecisions
  import opened ProtocolAllows
  import opened ProtocolRuns

  // ---------- torn reads ----------

  ghost predicate Decides(seeds: seq<SeedPolicy>, start: Db, actions: seq<Action>, pid: nat, job: Job) {
    && Reach(seeds, start, actions).Some?
    && var procs := Reach(seeds, start, actions).value.procs;
       pid in procs && (procs[pid].Writing? || procs[pid].Answered?) && procs[pid].job == job
  }

  /** In every run every decision of the request is that of one state of the tables. */
  ghost predicate NeverTorn(seeds: seq<SeedPolicy>, start: Db, job: Job) {
    forall actions: seq<Action>, pid: nat | Decides(seeds, start, actions, pid, job) ::
      var s := Reach(seeds, start, actions).value;
      DecidedInOneState(start.catalog, s.db.catalog, job, ResultOf(s.procs[pid]))
  }

  /** A list that the starting tables accept is seeded by some run, and leaves what it leaves on them. */
  lemma AcceptedIsSeeded(db: Db, seeds: seq<SeedPolicy>)
    requires Grow(db.catalog, Program(seeds)).Some?
    ensures var run := SeedRun(db, seeds, QuietEnv(db));
            run.Some? && Some(run.value.view.catalog) == Grow(db.catalog, Program(seeds))
  {
    QuietEnvIsQuiet(db);
    QuietRunSucceeds(db, seeds, QuietEnv(db));
    var rows := RunAdds(Progress(db, ZERO, false), Program(seeds), QuietEnv(db));
  }

  /**
   A request is never torn exactly when it is incomplete, or finds no policy at the start, or seeding does not
   give the policy that it finds both a role and a capability.
   */
  lemma NeverTornIff(seeds: seq<SeedPolicy>, start: Db, job: Job)
    requires ValidDb(start)
    ensures NeverTorn(seeds, start, job) <==> !CanTear(seeds, start.catalog, job)
  {
    if CanTear(seeds, start.catalog, job) {
      AsksPolicyIffComplete(job);
      AcceptedIsSeeded(start, seeds);
      var actions := TornRunExists(seeds, start, job, QuietEnv(start), RowIn(start.catalog, job).value);
      assert Decides(seeds, start, actions, 0, job);
    } else {
      forall actions: seq<Action>, pid: nat | Decides(seeds, start, actions, pid, job)
        ensures var s := Reach(seeds, start, actions).value;
                DecidedInOneState(start.catalog, s.db.catalog, job, ResultOf(s.procs[pid]))
      {
        NoTornReads(seeds, start, actions, pid);
      }
    }
  }

  /** With child identifiers distinct and new, the condition can be read off the list before seeding. */
  lemma NeverTornIffOnList(seeds: seq<SeedPolicy>, start: Db, job: Job)
    requires ValidDb(start) && ChildrenFresh(start.catalog, seeds) && Grow(start.catalog, Program(seeds)).Some?
    ensures NeverTorn(seeds, start, job) <==>
            !(Complete(job) && RowIn(start.catalog, job).Some?
              && ListAddsBoth(seeds, start.catalog, RowIn(start.catalog, job).value.id))
  {
    NeverTornIff(seeds, start, job);
    if row :| RowIn(start.catalog, job) == Some(row) {
      GainsBothIffListAddsBoth(seeds, start.catalog, row.id);
    }
  }

  // ---------- lapsed ALLOWs ----------

  ghost predicate AnswersAllow(seeds: seq<SeedPolicy>, start: Db, actions: seq<Action>, pid: nat, job: Job) {
    && Reach(seeds, start, actions).Some?
    && var procs := Reach(seeds, start, actions).value.procs;
       pid in procs && procs[pid].Answered? && procs[pid].job == job && procs[pid].result.record.decision == Allow
  }

  /** In every run, every stored ALLOW of the request meets what the tables ask for, then and ever after. */
  ghost predicate NeverLapses(seeds: seq<SeedPolicy>, start: Db, job: Job) {
    forall actions: seq<Action>, pid: nat | AnswersAllow(seeds, start, actions, pid, job) ::
      var s := Reach(seeds, start, actions).value;
      StillMeets(DecisionRowOf(ResultOf(s.procs[pid]).record), s.db.catalog)
  }

  /** The rights of a request as they are recorded. */
  function RolesOf(job: Job): seq<string>
    requires job.actor.Some?
  {
    Norm(AllRoles(job.actor.value.data))
  }

  function HeldBy(job: Job): seq<string>
    requires job.capabilities.Some?
  {
    Norm(job.capabilities.value)
  }

  /** The starting tables entitle the request, and seeding makes the entitling policy ask for more than it holds. */
  ghost predicate CanLapse(seeds: seq<SeedPolicy>, c0: Catalog, job: Job) {
    && Complete(job) && Grow(c0, Program(seeds)).Some?
    && exists p :: Entitled(job, Steady(c0), p)
                   && AsksMore(RolesOf(job), HeldBy(job), c0, Grow(c0, Program(seeds)).value, p.id)
  }

  lemma EntitledIffMeets(job: Job, c: Catalog, p: PolicyRow)
    requires ValidCatalog(c) && job.actor.Some? && job.capabilities.Some?
    ensures Entitled(job, Steady(c), p) <==>
            && p in c.policies && p.key == LookupKey(job) && p.status == STATUS_ACTIVE && p.effect == EFFECT_ALLOW
            && Meets(RolesOf(job), HeldBy(job), NamesOf(c.roles, p.id), NamesOf(c.capabilities, p.id))
  {
    NormShape(AllRoles(job.actor.value.data));
    NormShape(job.capabilities.value);
    RolesAreMetIff(c, p.id, job.actor.value.data);
    CapabilitiesAreMetIff(c, p.id, job.capabilities.value);
    if p in c.policies {
      GovernsIff(p, job.input.request.key);
    }
  }

  lemma NothingAskedTwice(actor: seq<string>, held: seq<string>, c: Catalog, id: string)
    ensures !AsksMore(actor, held, c, c, id)
  {
  }

  /** Rights that were found sufficient and no longer are, met the old requirements. */
  lemma LapsedMetTheOld(actor: seq<string>, held: seq<string>, c0: Catalog, now: Catalog, id: string, k: nat)
    requires forall x | x in NamesOf(c0.roles, id) :: x in NamesOf(now.roles, id)
    requires forall x | x in NamesOf(c0.capabilities, id) :: x in NamesOf(now.capabilities, id)
    requires var seen := ReadsSeen(c0, now, k);
             Meets(actor, held, NamesOf(seen.roles.roles, id), NamesOf(seen.capabilities.capabilities, id))
    requires AsksMore(actor, held, c0, now, id)
    ensures Meets(actor, held, NamesOf(c0.roles, id), NamesOf(c0.capabilities, id))
  {
  }

  lemma LapsedWasEntitled(c0: Catalog, added: Catalog, job: Job, k: nat) returns (p: PolicyRow)
    requires ValidCatalog(c0) && ValidCatalog(c0.Plus(added)) && k <= 3
    requires var decided := Authorization(job, LookupOf(ReadsSeen(c0, c0.Plus(added), k), LookupKey(job)));
             && decided.Some? && decided.value.record.decision == Allow
             && AskedForMore(DecisionRowOf(decided.value.record), c0, c0.Plus(added))
    ensures Complete(job) && Entitled(job, Steady(c0), p)
    ensures AsksMore(RolesOf(job), HeldBy(job), c0, c0.Plus(added), p.id)
  {
    var now := c0.Plus(added);
    var found := LookupOf(ReadsSeen(c0, now, k), LookupKey(job));
    var d := DecisionRowOf(Authorization(job, found).value.record);
    var row := AllowRecordsItsReads(c0, added, job, k);
    AsksPolicyIffComplete(job);
    AllowShowsRights(job, found);
    RecordedLists(job, found);
    p :| p in c0.policies && NamesPolicy(d, p) && AsksMore(d.actorRoles, d.organizationCapabilities, c0, now, p.id);
    assert p in now.policies;
    NamedPolicyIsOne(d, now, p, row);
    NamesGrow(c0, added, p.id);
    LapsedMetTheOld(RolesOf(job), HeldBy(job), c0, now, p.id, k);
    EntitledIffMeets(job, c0, p);
  }

  lemma FreshDecisionFits(start: Db, job: Job, result: AuthorizeResult)
    requires ValidDb(start) && Some(result) == Authorization(job, LookupOf(Steady(start.catalog), LookupKey(job)))
    requires forall d | d in start.decisions :: d.id != job.decisionId
    ensures DecisionFits(start, DecisionRowOf(result.record))
  {
    AnswersAreTraced(job, Steady(start.catalog), result);
    EveryDecisionIsStorable(job, Steady(start.catalog), start.catalog.policies);
  }

  lemma FreshEventFits(start: Db, result: AuthorizeResult)
    ensures EventFits(start, EventRows(result, QuietEnv(start).draw(0)).outbox[0])
  {
    QuietEnvIsQuiet(start);
  }

  /** The system after one request has been answered and nothing else has happened. */
  function AnsweredAlone(start: Db, job: Job, result: AuthorizeResult): Sys {
    Put(Sys(start.Plus(DecisionRows(result).Plus(EventRows(result, QuietEnv(start).draw(0)))), map[]), 0,
        Answered(job, result))
  }

  lemma FreshWriteSucceeds(start: Db, job: Job, result: AuthorizeResult)
    requires DecisionFits(start, DecisionRowOf(result.record))
    ensures AfterCall(Sys(start, map[]), 0, job, result, QuietEnv(start).draw(0)) == AnsweredAlone(start, job, result)
  {
    FreshEventFits(start, result);
    AfterCallCases(Sys(start, map[]), 0, job, result, QuietEnv(start).draw(0));
  }

  lemma FreshRequestRuns(seeds: seq<SeedPolicy>, start: Db, job: Job, result: AuthorizeResult, freshId: string)
    returns (actions: seq<Action>)
    requires StartWriting(job, LookupOf(Steady(start.catalog), LookupKey(job))) == Writing(job, result, 0, NO_ROWS)
    ensures Reach(seeds, start, actions) == Some(AfterCall(Sys(start, map[]), 0, job, result, freshId))
  {
    assert Reach(seeds, start, []) == Some(Sys(start, map[]));
    actions := RequestRuns(seeds, start, [], Sys(start, map[]), 0, job, result, freshId);
    assert [] + actions == actions;
  }

  lemma FreshRequestIsAnswered(seeds: seq<SeedPolicy>, start: Db, job: Job, result: AuthorizeResult)
    returns (actions: seq<Action>)
    requires ValidDb(start) && Some(result) == Authorization(job, LookupOf(Steady(start.catalog), LookupKey(job)))
    requires forall d | d in start.decisions :: d.id != job.decisionId
    ensures Reach(seeds, start, actions) == Some(AnsweredAlone(start, job, result))
  {
    FreshDecisionFits(start, job, result);
    FreshWriteSucceeds(start, job, result);
    actions := FreshRequestRuns(seeds, start, job, result, QuietEnv(start).draw(0));
  }

  lemma AnsweredAloneIs(start: Db, job: Job, result: AuthorizeResult)
    ensures var s := AnsweredAlone(start, job, result);
            && NoDeltas(s) && s.db.catalog == start.catalog && DecisionRowOf(result.record) in s.db.decisions
  {
    PlusNothing(start);
  }

  /** A seeder that starts now and is left alone. */
  lemma SeederFollows(seeds: seq<SeedPolicy>, start: Db, past: seq<Action>, s: Sys, pid: nat)
    returns (actions: seq<Action>, after: Db)
    requires Reach(seeds, start, past) == Some(s) && pid !in s.procs && NoDeltas(s)
    requires Grow(s.db.catalog, Program(seeds)).Some?
    ensures Reach(seeds, start, actions) == Some(Put(Sys(after, s.procs), pid, Seeded))
    ensures Some(after.catalog) == Grow(s.db.catalog, Program(seeds)) && after.decisions == s.db.decisions
  {
    AcceptedIsSeeded(s.db, seeds);
    AloneIsSeedRun(seeds, start, past, s, pid, QuietEnv(s.db));
    SeedCountsAreExact(s.db, seeds, QuietEnv(s.db));
    actions := past + Alone(pid, QuietEnv(s.db), |Program(seeds)|) + [Step(pid, "")];
    after := SeedRun(s.db, seeds, QuietEnv(s.db)).value.view;
  }

  lemma EntitledLapses(seeds: seq<SeedPolicy>, c0: Catalog, job: Job, p: PolicyRow)
    requires ValidCatalog(c0) && Complete(job) && Entitled(job, Steady(c0), p)
    requires Grow(c0, Program(seeds)).Some?
    requires AsksMore(RolesOf(job), HeldBy(job), c0, Grow(c0, Program(seeds)).value, p.id)
    ensures var decided := Authorization(job, LookupOf(Steady(c0), LookupKey(job)));
            && decided.Some? && decided.value.record.decision == Allow
            && !StillMeets(DecisionRowOf(decided.value.record), Grow(c0, Program(seeds)).value)
  {
    var found := LookupOf(Steady(c0), LookupKey(job));
    var added := GrowSettles(c0, Program(seeds));
    GrowKeepsValid(c0, Program(seeds));
    AllowedIffEntitled(job, Steady(c0));
    AsksPolicyIffComplete(job);
    assert ReadsSeen(c0, c0.Plus(added), 0) == Steady(c0);
    var row := AllowRecordsItsReads(c0, added, job, 0);
    NormalizedIdempotent(job.input.request.key);
    SelectIsAMap(c0, LookupKey(job), p);
    RecordedLists(job, found);
    AllowIsJustified(c0, added, job, 0);
  }

  lemma SeedingAfterAnswer(seeds: seq<SeedPolicy>, start: Db, asking: seq<Action>, job: Job, result: AuthorizeResult)
    returns (actions: seq<Action>)
    requires Reach(seeds, start, asking) == Some(AnsweredAlone(start, job, result)) && result.record.decision == Allow
    requires Grow(start.catalog, Program(seeds)).Some?
    ensures AnswersAllow(seeds, start, actions, 0, job)
    ensures var s := Reach(seeds, start, actions).value;
            && ResultOf(s.procs[0]) == result && DecisionRowOf(result.record) in s.db.decisions
            && Some(s.db.catalog) == Grow(start.catalog, Program(seeds))
  {
    AnsweredAloneIs(start, job, result);
    var after;
    actions, after := SeederFollows(seeds, start, asking, AnsweredAlone(start, job, result), 1);
  }

  /** An entitled request, answered before seeding makes its policy ask for more. */
  lemma LapsedRunExists(seeds: seq<SeedPolicy>, start: Db, job: Job) returns (actions: seq<Action>)
    requires ValidDb(start) && CanLapse(seeds, start.catalog, job)
    requires forall d | d in start.decisions :: d.id != job.decisionId
    ensures AnswersAllow(seeds, start, actions, 0, job)
    ensures var s := Reach(seeds, start, actions).value;
            var d := DecisionRowOf(ResultOf(s.procs[0]).record);
            d in s.db.decisions && !StillMeets(d, s.db.catalog)
  {
    var c0 := start.catalog;
    var p :| Entitled(job, Steady(c0), p) && AsksMore(RolesOf(job), HeldBy(job), c0, Grow(c0, Program(seeds)).value, p.id);
    EntitledLapses(seeds, c0, job, p);
    var result := Authorization(job, LookupOf(Steady(c0), LookupKey(job))).value;
    var asking := FreshRequestIsAnswered(seeds, start, job, result);
    actions := SeedingAfterAnswer(seeds, start, asking, job, result);
  }

  /**
   The stored ALLOWs of a request never lapse exactly when it is incomplete, or the starting tables do not
   entitle it, or seeding does not make the entitling policy ask for more than the request holds.
   */
  lemma NeverLapsesIff(seeds: seq<SeedPolicy>, start: Db, job: Job)
    requires ValidDb(start) && forall d | d in start.decisions :: d.id != job.decisionId
    ensures NeverLapses(seeds, start, job) <==> !CanLapse(seeds, start.catalog, job)
  {
    if CanLapse(seeds, start.catalog, job) {
      var actions := LapsedRunExists(seeds, start, job);
      assert AnswersAllow(seeds, start, actions, 0, job);
    } else {
      forall actions: seq<Action>, pid: nat | AnswersAllow(seeds, start, actions, pid, job)
        ensures var s := Reach(seeds, start, actions).value;
                StillMeets(DecisionRowOf(ResultOf(s.procs[pid]).record), s.db.catalog)
      {
        AnsweredNeverLapses(seeds, start, actions, pid, job);
      }
    }
  }

  lemma AnsweredNeverLapses(seeds: seq<SeedPolicy>, start: Db, actions: seq<Action>, pid: nat, job: Job)
    requires ValidDb(start) && AnswersAllow(seeds, start, actions, pid, job) && !CanLapse(seeds, start.catalog, job)
    ensures var s := Reach(seeds, start, actions).value;
            StillMeets(DecisionRowOf(ResultOf(s.procs[pid]).record), s.db.catalog)
  {
    var s := Reach(seeds, start, actions).value;
    var c0 := start.catalog;
    var d := DecisionRowOf(ResultOf(s.procs[pid]).record);
    var added := TablesNow(seeds, start, actions);
    ReachableRead(seeds, start, actions);
    assert ReadSoFar(c0, s.db.catalog, s.procs[pid]);
    var k :| 0 <= k <= 3 &&
             Authorization(job, LookupOf(ReadsSeen(c0, s.db.catalog, k), LookupKey(job))) == Some(ResultOf(s.procs[pid]));
    AllowIsJustified(c0, added, job, k);
    if AskedForMore(d, c0, s.db.catalog) {
      var p := LapsedWasEntitled(c0, added, job, k);
      NothingAskedTwice(RolesOf(job), HeldBy(job), c0, p.id);
    }
  }

  /** With child identifiers distinct and new, this condition too can be read off the list before seeding. */
  lemma NeverLapsesIffOnList(seeds: seq<SeedPolicy>, start: Db, job: Job)
    requires ValidDb(start) && forall d | d in start.decisions :: d.id != job.decisionId
    requires ChildrenFresh(start.catalog, seeds) && Grow(start.catalog, Program(seeds)).Some?
    ensures NeverLapses(seeds, start, job) <==>
            !(Complete(job) && exists p :: Entitled(job, Steady(start.catalog), p)
                                           && ListAsksMore(RolesOf(job), HeldBy(job), seeds, start.catalog, p.id))
  {
    NeverLapsesIff(seeds, start, job);
    if Complete(job) {
      forall p: PolicyRow
        ensures AsksMore(RolesOf(job), HeldBy(job), start.catalog, Grow(start.catalog, Program(seeds)).value, p.id)
                <==> ListAsksMore(RolesOf(job), HeldBy(job), seeds, start.catalog, p.id)
      {
        AsksMoreIffListAsksMore(RolesOf(job), HeldBy(job), seeds, start.catalog, p.id);
      }
    }
  }
}
