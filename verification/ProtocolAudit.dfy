/** Decisions, audit events and answers stay in step over every interleaving, failure and collision. */
module ProtocolAudit {
  import opened Text
  import opened PolicyModel
  import opened ExchangeModel
  import opened Audit
  import opened Schema
  import opened Lookup
  import opened Collecting
  import opened Exchange
  import opened ExchangeTheorems
  import opened ExchangeRecords
  import opened Seeding
  import opened SeedingTheorems
  import opened Protocol
  import opened ProtocolSafety
  import opened ProtocolCatalog
  import opened ProtocolDecisions
  import opened ProtocolAllows

  // ---------- pairing ----------

  /** The events of the outbox about one kind of resource, in order. */
  function EventsOf(outbox: seq<EventRow>, kind: ResourceType): seq<EventRow> {
    if outbox == [] then []
    else
      var n := |outbox| - 1;
      EventsOf(outbox[..n], kind) + (if outbox[n].resourceType == kind then [outbox[n]] else [])
  }

  lemma {:induction false} EventsOfAppend(a: seq<EventRow>, b: seq<EventRow>, kind: ResourceType)
    ensures EventsOf(a + b, kind) == EventsOf(a, kind) + EventsOf(b, kind)
    decreases |b|
  {
    if b == [] {
      assert a + b == a;
    } else {
      var n := |b| - 1;
      assert (a + b)[..|a + b| - 1] == a + b[..n];
      EventsOfAppend(a, b[..n], kind);
    }
  }

  lemma {:induction false} EventsOfOneKind(b: seq<EventRow>, kind: ResourceType, other: ResourceType)
    requires kind != other && forall i | 0 <= i < |b| :: b[i].resourceType == kind
    ensures EventsOf(b, kind) == b && EventsOf(b, other) == []
  {
    if b != [] {
      var n := |b| - 1;
      EventsOfOneKind(b[..n], kind, other);
      assert b == b[..n] + [b[n]];
    }
  }

  lemma {:induction false} EventsOfMembers(outbox: seq<EventRow>, kind: ResourceType, e: EventRow)
    ensures e in EventsOf(outbox, kind) <==> e in outbox && e.resourceType == kind
  {
    if outbox != [] {
      var n := |outbox| - 1;
      EventsOfMembers(outbox[..n], kind, e);
      assert outbox == outbox[..n] + [outbox[n]];
    }
  }

  function DecisionEvents(outbox: seq<EventRow>): seq<EventRow> {
    EventsOf(outbox, AuthorizationDecision)
  }

  function PolicyEvents(outbox: seq<EventRow>): seq<EventRow> {
    EventsOf(outbox, ExchangePolicy)
  }

  /** The i-th decision and the i-th authorization event belong together. */
  ghost predicate Paired(db: Db) {
    && |DecisionEvents(db.outbox)| == |db.decisions|
    && forall i | 0 <= i < |db.decisions| :: Agrees(db.decisions[i], DecisionEvents(db.outbox)[i])
  }

  /** The i-th policy and the i-th policy event belong together. */
  ghost predicate PoliciesEvidenced(db: Db) {
    |PolicyEvents(db.outbox)| == |db.catalog.policies| && AllEvidenced(db.catalog.policies, PolicyEvents(db.outbox))
  }

  /** Outbox rows beyond one per decision and one per policy. */
  function Surplus(db: Db): int {
    |db.outbox| - |db.decisions| - |db.catalog.policies|
  }

  // ---------- what a commit appends ----------

  ghost predicate SeederBatch(rows: Db) {
    && rows.decisions == [] && |rows.outbox| == |rows.catalog.policies|
    && AllEvidenced(rows.catalog.policies, rows.outbox)
  }

  ghost predicate WriterBatch(rows: Db, result: AuthorizeResult) {
    && rows.catalog == NO_CATALOG && rows.decisions == [DecisionRowOf(result.record)]
    && |rows.outbox| == 1 && Agrees(rows.decisions[0], rows.outbox[0])
  }

  function Answers(s: Sys): set<nat> {
    set p | p in s.procs && s.procs[p].Answered?
  }

  /** A process that had not answered moves: the answers gain at most it. */
  lemma AnswersAfterMove(s: Sys, s': Sys, pid: nat)
    requires pid in s'.procs && s'.procs == s.procs[pid := s'.procs[pid]]
    requires pid in s.procs ==> !s.procs[pid].Answered?
    ensures pid !in Answers(s)
    ensures Answers(s') == if s'.procs[pid].Answered? then Answers(s) + {pid} else Answers(s)
  {
  }

  /** What a commit appends. */
  lemma CommitAppends(seeds: seq<SeedPolicy>, p: Proc)
    requires Shaped(seeds, p)
    ensures p.Seeding? && p.pos >= |Program(seeds)| ==> SeederBatch(p.delta)
    ensures p.Writing? && p.written == 2 ==> WriterBatch(p.delta, p.result)
  {
  }

  /** Only a commit changes the database, and only a writer's commit is an answer. */
  lemma StepAppends(seeds: seq<SeedPolicy>, s: Sys, a: Action)
    requires a.Step? && Next(seeds, s, a).Some? && (s.procs[a.pid].Writing? ==> s.procs[a.pid].written <= 2)
    ensures var p, s' := s.procs[a.pid], Next(seeds, s, a).value;
            var commits := (p.Seeding? && p.pos >= |Program(seeds)|) || (p.Writing? && p.written == 2);
            && s'.db == (if commits then s.db.Plus(Delta(p)) else s.db)
            && (s'.procs[a.pid].Answered? <==> commits && p.Writing?)
            && (s'.procs[a.pid].Answered? ==> s'.procs[a.pid].result == p.result)
  {
  }

  /** What an action appends to the database. */
  lemma NextAppendsRows(seeds: seq<SeedPolicy>, s: Sys, a: Action) returns (rows: Db)
    requires AllShaped(seeds, s) && Next(seeds, s, a).Some?
    ensures var s' := Next(seeds, s, a).value;
            && a.pid in s'.procs && (a.pid in s.procs ==> !s.procs[a.pid].Answered?)
            && s'.db == s.db.Plus(rows)
            && if s'.procs[a.pid].Answered? then WriterBatch(rows, s'.procs[a.pid].result) else SeederBatch(rows)
  {
    PlusNothing(s.db);
    rows := NO_ROWS;
    OneProcessMoves(seeds, s, a);
    if a.Step? {
      var p := s.procs[a.pid];
      assert Shaped(seeds, p);
      StepAppends(seeds, s, a);
      CommitAppends(seeds, p);
      if (p.Seeding? && p.pos >= |Program(seeds)|) || (p.Writing? && p.written == 2) {
        rows := p.delta;
      }
    }
  }

  /** An action appends nothing, or a seeder's batch, or one decision with its event; the latter is an answer. */
  lemma NextAppends(seeds: seq<SeedPolicy>, s: Sys, a: Action) returns (rows: Db)
    requires AllShaped(seeds, s) && Next(seeds, s, a).Some?
    ensures var s' := Next(seeds, s, a).value;
            && a.pid in s'.procs && s'.procs == s.procs[a.pid := s'.procs[a.pid]]
            && s'.db == s.db.Plus(rows)
            && if s'.procs[a.pid].Answered?
               then a.pid !in Answers(s) && Answers(s') == Answers(s) + {a.pid}
                    && WriterBatch(rows, s'.procs[a.pid].result)
               else Answers(s') == Answers(s) && SeederBatch(rows)
  {
    rows := NextAppendsRows(seeds, s, a);
    OneProcessMoves(seeds, s, a);
    AnswersAfterMove(s, Next(seeds, s, a).value, a.pid);
  }

  /** Any action at most adds rows at the ends of the tables. */
  lemma NextOnlyAppends(seeds: seq<SeedPolicy>, s: Sys, a: Action) returns (rows: Db)
    requires Next(seeds, s, a).Some?
    ensures Next(seeds, s, a).value.db == s.db.Plus(rows)
  {
    PlusNothing(s.db);
    rows := NO_ROWS;
    if a.Step? && Next(seeds, s, a).value.db != s.db {
      rows := Delta(s.procs[a.pid]);
    }
  }

  /** All tables are append-only, between any two states of a run. */
  lemma {:induction false} TablesAreAppendOnly(seeds: seq<SeedPolicy>, start: Db, actions: seq<Action>, i: nat)
    requires i <= |actions| && Reach(seeds, start, actions).Some?
    ensures Reach(seeds, start, actions[..i]).Some?
    ensures var before, after := Reach(seeds, start, actions[..i]).value.db, Reach(seeds, start, actions).value.db;
            && before.decisions <= after.decisions && before.outbox <= after.outbox
            && before.catalog.policies <= after.catalog.policies
            && before.catalog.roles <= after.catalog.roles && before.catalog.capabilities <= after.catalog.capabilities
    decreases |actions|
  {
    var n := |actions| - 1;
    if i == |actions| {
      assert actions[..i] == actions;
    } else {
      assert actions[..n][..i] == actions[..i];
      TablesAreAppendOnly(seeds, start, actions[..n], i);
      var rows := NextOnlyAppends(seeds, Reach(seeds, start, actions[..n]).value, actions[n]);
    }
  }

  lemma SeederBatchKeepsPaired(db: Db, rows: Db)
    requires SeederBatch(rows)
    ensures Paired(db) ==> Paired(db.Plus(rows))
    ensures PoliciesEvidenced(db) ==> PoliciesEvidenced(db.Plus(rows))
    ensures Surplus(db.Plus(rows)) == Surplus(db)
  {
    var after := db.Plus(rows);
    EventsOfAppend(db.outbox, rows.outbox, AuthorizationDecision);
    EventsOfAppend(db.outbox, rows.outbox, ExchangePolicy);
    assert forall i | 0 <= i < |rows.outbox| :: Evidences(rows.catalog.policies[i], rows.outbox[i]);
    EventsOfOneKind(rows.outbox, ExchangePolicy, AuthorizationDecision);
    assert after.decisions == db.decisions;
    assert DecisionEvents(after.outbox) == DecisionEvents(db.outbox);
    EvidenceAppends(db.catalog.policies, PolicyEvents(db.outbox), rows.catalog.policies, rows.outbox);
  }

  lemma EvidenceAppends(p: seq<PolicyRow>, e: seq<EventRow>, q: seq<PolicyRow>, f: seq<EventRow>)
    requires AllEvidenced(q, f)
    ensures AllEvidenced(p, e) && |p| == |e| ==> AllEvidenced(p + q, e + f)
  {
  }

  lemma WriterBatchKeepsPaired(db: Db, rows: Db, result: AuthorizeResult)
    requires WriterBatch(rows, result)
    ensures Paired(db) ==> Paired(db.Plus(rows))
    ensures PoliciesEvidenced(db) ==> PoliciesEvidenced(db.Plus(rows))
    ensures Surplus(db.Plus(rows)) == Surplus(db)
  {
  }

  // ---------- the invariant ----------

  ghost predicate FromAnswers(start: Db, s: Sys) {
    && (forall d | d in s.db.decisions ::
          d in start.decisions || exists p | p in Answers(s) :: d == DecisionRowOf(s.procs[p].result.record))
    && (forall p | p in Answers(s) :: DecisionRowOf(s.procs[p].result.record) in s.db.decisions)
  }

  ghost predicate InStep(start: Db, s: Sys) {
    && Paired(s.db)
    && (PoliciesEvidenced(start) ==> PoliciesEvidenced(s.db))
    && Surplus(s.db) == Surplus(start)
    && |s.db.decisions| == |start.decisions| + |Answers(s)|
    && start.outbox <= s.db.outbox && start.decisions <= s.db.decisions
    && FromAnswers(start, s)
  }

  lemma NextKeepsFromAnswers(seeds: seq<SeedPolicy>, start: Db, s: Sys, a: Action, rows: Db)
    requires FromAnswers(start, s) && Next(seeds, s, a).Some?
    requires var s' := Next(seeds, s, a).value;
             && a.pid in s'.procs && s'.procs == s.procs[a.pid := s'.procs[a.pid]]
             && s'.db == s.db.Plus(rows)
             && if s'.procs[a.pid].Answered?
                then a.pid !in Answers(s) && Answers(s') == Answers(s) + {a.pid}
                     && WriterBatch(rows, s'.procs[a.pid].result)
                else Answers(s') == Answers(s) && SeederBatch(rows)
    ensures FromAnswers(start, Next(seeds, s, a).value)
  {
    var s' := Next(seeds, s, a).value;
    forall p | p in Answers(s) ensures p in Answers(s') && s'.procs[p] == s.procs[p] {
      assert p in Answers(s');
    }
    forall d | d in s'.db.decisions
      ensures d in start.decisions || exists p | p in Answers(s') :: d == DecisionRowOf(s'.procs[p].result.record)
    {
      if d in s.db.decisions && d !in start.decisions {
        var p :| p in Answers(s) && d == DecisionRowOf(s.procs[p].result.record);
        assert p in Answers(s');
      } else if d !in s.db.decisions {
        assert d in rows.decisions && a.pid in Answers(s');
      }
    }
  }

  /** An append keeps the counts in step. */
  lemma AppendKeepsCounts(start: Db, s: Sys, s': Sys, rows: Db)
    requires InStep(start, s) && s'.db == s.db.Plus(rows)
    requires |Answers(s')| == |Answers(s)| + |rows.decisions|
    requires Paired(s'.db) && Surplus(s'.db) == Surplus(s.db) && FromAnswers(start, s')
    requires PoliciesEvidenced(s.db) ==> PoliciesEvidenced(s'.db)
    ensures InStep(start, s')
  {
  }

  lemma BatchKeepsInStep(start: Db, s: Sys, s': Sys, pid: nat, rows: Db)
    requires InStep(start, s) && FromAnswers(start, s') && s'.db == s.db.Plus(rows) && pid in s'.procs
    requires if s'.procs[pid].Answered?
             then pid !in Answers(s) && Answers(s') == Answers(s) + {pid} && WriterBatch(rows, s'.procs[pid].result)
             else Answers(s') == Answers(s) && SeederBatch(rows)
    ensures InStep(start, s')
  {
    if s'.procs[pid].Answered? {
      WriterBatchKeepsPaired(s.db, rows, s'.procs[pid].result);
      AppendKeepsCounts(start, s, s', rows);
    } else {
      SeederBatchKeepsPaired(s.db, rows);
      AppendKeepsCounts(start, s, s', rows);
    }
  }

  lemma NextKeepsInStep(seeds: seq<SeedPolicy>, start: Db, s: Sys, a: Action)
    requires AllShaped(seeds, s) && InStep(start, s) && Next(seeds, s, a).Some?
    ensures InStep(start, Next(seeds, s, a).value)
  {
    var rows := NextAppends(seeds, s, a);
    NextKeepsFromAnswers(seeds, start, s, a, rows);
    BatchKeepsInStep(start, s, Next(seeds, s, a).value, a.pid, rows);
  }

  lemma {:induction false} ReachableInStep(seeds: seq<SeedPolicy>, start: Db, actions: seq<Action>)
    requires ValidDb(start) && Paired(start) && Reach(seeds, start, actions).Some?
    ensures InStep(start, Reach(seeds, start, actions).value)
  {
    if actions != [] {
      var n := |actions| - 1;
      ReachableInStep(seeds, start, actions[..n]);
      ReachableTwoStates(seeds, start, actions[..n]);
      NextKeepsInStep(seeds, start, Reach(seeds, start, actions[..n]).value, actions[n]);
    }
  }

  // ---------- main results ----------

  lemma PartnersExist(db: Db)
    requires Paired(db)
    ensures forall d | d in db.decisions :: exists e | e in db.outbox :: Agrees(d, e)
    ensures forall e | e in db.outbox && e.resourceType == AuthorizationDecision ::
              exists d | d in db.decisions :: Agrees(d, e)
  {
    var events := DecisionEvents(db.outbox);
    forall e ensures e in events <==> e in db.outbox && e.resourceType == AuthorizationDecision {
      EventsOfMembers(db.outbox, AuthorizationDecision, e);
    }
    forall d | d in db.decisions ensures exists e | e in db.outbox :: Agrees(d, e) {
      var i :| 0 <= i < |db.decisions| && db.decisions[i] == d;
      assert events[i] in events;
    }
    forall e | e in db.outbox && e.resourceType == AuthorizationDecision
      ensures exists d | d in db.decisions :: Agrees(d, e)
    {
      assert e in events;
      var i :| 0 <= i < |events| && events[i] == e;
      assert db.decisions[i] in db.decisions;
    }
  }

  /** Paired sequences with unique identifiers are a bijection of rows. */
  lemma PairingIsABijection(db: Db)
    requires ValidDb(db) && Paired(db)
    ensures forall d | d in db.decisions :: exists e | e in db.outbox :: Agrees(d, e)
    ensures forall e | e in db.outbox && e.resourceType == AuthorizationDecision ::
              exists d | d in db.decisions :: Agrees(d, e)
    ensures forall d, e, f | d in db.decisions && e in db.outbox && f in db.outbox && Agrees(d, e) && Agrees(d, f) :: e == f
    ensures forall c, d, e | c in db.decisions && d in db.decisions && Agrees(c, e) && Agrees(d, e) :: c == d
  {
    PartnersExist(db);
    forall c, d, e | c in db.decisions && d in db.decisions && Agrees(c, e) && Agrees(d, e) ensures c == d {
      UniqueMembers(DecisionClash, db.decisions, c, d);
    }
    forall d, e, f | d in db.decisions && e in db.outbox && f in db.outbox && Agrees(d, e) && Agrees(d, f) ensures e == f {
      SameDecisionSameEvent(db, d, e);
      SameDecisionSameEvent(db, d, f);
    }
  }

  lemma SameDecisionSameEvent(db: Db, d: DecisionRow, e: EventRow)
    requires ValidDb(db) && Paired(db) && d in db.decisions && e in db.outbox && Agrees(d, e)
    ensures forall i | 0 <= i < |db.decisions| && db.decisions[i] == d :: DecisionEvents(db.outbox)[i] == e
  {
    var events := DecisionEvents(db.outbox);
    EventsOfMembers(db.outbox, AuthorizationDecision, e);
    var j :| 0 <= j < |events| && events[j] == e;
    assert DecisionClash(db.decisions[j], d) && DecisionClash(d, db.decisions[j]);
    forall i | 0 <= i < |db.decisions| && db.decisions[i] == d ensures events[i] == e {
      assert i == j;
    }
  }

  /**
   Over every interleaving, with arbitrary failures and identifier collisions: decisions and authorization
   events stay in bijection, the tables are append-only, and there are exactly as many new decisions as
   requests that got an answer, each answer with its own row and no row without an answer.
   */
  lemma DecisionsEventsAndAnswersAgree(seeds: seq<SeedPolicy>, start: Db, actions: seq<Action>)
    requires ValidDb(start) && Paired(start) && Reach(seeds, start, actions).Some?
    ensures var s := Reach(seeds, start, actions).value;
            && Paired(s.db) && ValidDb(s.db)
            && start.outbox <= s.db.outbox && start.decisions <= s.db.decisions
            && |s.db.decisions| == |start.decisions| + |Answers(s)|
            && FromAnswers(start, s)
  {
    ReachableInStep(seeds, start, actions);
    ReachableIsSafe(seeds, start, actions);
  }

  /** The row tells all of the answer that it was stored for. */
  ghost predicate TellsAnswer(d: DecisionRow, job: Job, result: AuthorizeResult) {
    && ReadRecord(d) == result.record && NullsAreNull(d)
    && (d.decision == Allow <==> d.denyReason == None)
    && (d.decision == Deny ==> d.denyReason == Some(result.record.denyReason))
    && Stores(d.personId, result.record.personId) && Stores(d.sessionId, result.record.sessionId)
    && Stores(d.requestCorrelationId, Trim(job.input.correlationId))
    && Traced(job, ReadRecord(d)) && Requested(job, ReadRecord(d))
    && (forall id :: WellAnswered(result, id))
  }

  lemma RowTellsAnswer(policies: seq<PolicyRow>, job: Job, result: AuthorizeResult)
    requires SoundResult(policies, job, result)
    ensures TellsAnswer(DecisionRowOf(result.record), job, result)
  {
    RowsTellTheRecord(result.record, DecisionRowOf(result.record));
    assert WellAnswered(result, "");
  }

  /**
   In every reachable state every row written since the start tells the whole answer that some request got, with
   its reason, its actor and its correlation, and nothing else.
   */
  lemma StoredRowsTellTheirAnswers(seeds: seq<SeedPolicy>, start: Db, actions: seq<Action>, d: DecisionRow)
    requires ValidDb(start) && Paired(start) && Reach(seeds, start, actions).Some?
    requires d in Reach(seeds, start, actions).value.db.decisions && d !in start.decisions
    ensures var s := Reach(seeds, start, actions).value;
            exists p :: p in Answers(s) && TellsAnswer(d, s.procs[p].job, s.procs[p].result)
  {
    var s := Reach(seeds, start, actions).value;
    ReachableInStep(seeds, start, actions);
    var p :| p in Answers(s) && d == DecisionRowOf(s.procs[p].result.record);
    ReachableAnswersAreSound(seeds, start, actions, p);
    RowTellsAnswer(s.db.catalog.policies, s.procs[p].job, s.procs[p].result);
  }

  /**
   Outbox conservation: the outbox grows by exactly one row per decision and one per policy, and once every
   policy has its event, in order, that stays so whichever seeders commit.
   */
  lemma OutboxIsConserved(seeds: seq<SeedPolicy>, start: Db, actions: seq<Action>)
    requires ValidDb(start) && Paired(start) && Reach(seeds, start, actions).Some?
    ensures var db := Reach(seeds, start, actions).value.db;
            && Surplus(db) == Surplus(start)
            && (PoliciesEvidenced(start) ==> PoliciesEvidenced(db))
  {
    ReachableInStep(seeds, start, actions);
  }

  lemma AnsweredAllowIsJustified(seeds: seq<SeedPolicy>, start: Db, s: Sys, added: Catalog, d: DecisionRow)
    requires FromAnswers(start, s) && AllRead(start.catalog, s) && s.db.catalog == start.catalog.Plus(added)
    requires ValidCatalog(start.catalog) && ValidCatalog(s.db.catalog)
    requires s.db.catalog != start.catalog ==> Grow(start.catalog, Program(seeds)) == Some(s.db.catalog)
    requires d in s.db.decisions && d !in start.decisions && d.decision == Allow
    ensures Justified(d, s.db.catalog)
    ensures StillMeets(d, s.db.catalog) <==> !AskedForMore(d, start.catalog, s.db.catalog)
    ensures RequirementsUntouched(seeds, start.catalog) ==> RecordIsCurrent(d, s.db.catalog)
  {
    var pid :| pid in Answers(s) && d == DecisionRowOf(s.procs[pid].result.record);
    assert ReadSoFar(start.catalog, s.db.catalog, s.procs[pid]);
    DecidedAllowIsJustified(seeds, start.catalog, added, s.procs[pid].job, s.procs[pid].result);
  }

  /**
   Stable justification: in every reachable state, every ALLOW row names an active allowing policy that is in
   the tables now and has exactly the row's key, and shows rights that meet the requirements it records. Those
   rights meet all that the tables ask of the policy now exactly when the policy has not, since the start, come
   to ask for roles of which the actor has none, where it asked for none, or for a capability that is not held.
   When seeding adds no requirement to older policies, the requirements recorded are those of the tables now.
   */
  lemma AllowsStayJustified(seeds: seq<SeedPolicy>, start: Db, actions: seq<Action>, d: DecisionRow)
    requires ValidDb(start) && Paired(start) && Reach(seeds, start, actions).Some?
    requires d in Reach(seeds, start, actions).value.db.decisions && d.decision == Allow
    requires d in start.decisions ==> Justified(d, start.catalog) && StillMeets(d, start.catalog)
    ensures var now := Reach(seeds, start, actions).value.db.catalog;
            && Justified(d, now)
            && (StillMeets(d, now) <==> !AskedForMore(d, start.catalog, now))
            && (RequirementsUntouched(seeds, start.catalog) && d !in start.decisions ==> RecordIsCurrent(d, now))
  {
    var added := TablesNow(seeds, start, actions);
    if d in start.decisions {
      OlderAllowIsJustified(d, start.catalog, added);
    } else {
      ReachableInStep(seeds, start, actions);
      ReachableRead(seeds, start, actions);
      AnsweredAllowIsJustified(seeds, start, Reach(seeds, start, actions).value, added, d);
    }
  }
}
