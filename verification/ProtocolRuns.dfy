/**
 Particular runs: a seeder left alone does what the sequential seeder does, lookups of a freshly seeded
 database are never partial, and the interleaving that tears a lookup when the condition for that is met.
 */
module ProtocolRuns {
  import opened Text
  import opened Normalization
  import opened PolicyModel
  import opened ExchangeModel
  import opened Schema
  import opened Evaluator
  import opened Lookup
  import opened Collecting
  import opened Exchange
  import opened ExchangeTheorems
  import opened ExchangeRecords
  import opened Seeding
  import opened SeedingTheorems
  import opened SeededContents
  import opened Protocol
  import opened ProtocolSafety
  import opened ProtocolCatalog
  import opened ProtocolDecisions
  import opened ProtocolAllows

  // ---------- a seeder left alone ----------

  /** Start a seeder and let it execute k statements, drawing its identifiers from the environment. */
  function Alone(pid: nat, env: Env, k: nat): seq<Action> {
    [StartSeeder(pid)] + seq(k, i requires 0 <= i < k => Step(pid, env.draw(i)))
  }

  ghost predicate NoDeltas(s: Sys) {
    forall p | p in s.procs :: Delta(s.procs[p]) == NO_ROWS
  }

  lemma ReachNext(seeds: seq<SeedPolicy>, start: Db, past: seq<Action>, a: Action)
    ensures Reach(seeds, start, past + [a]) ==
            var s := Reach(seeds, start, past);
            if s.None? then None else Next(seeds, s.value, a)
  {
  }

  lemma AloneNext(past: seq<Action>, pid: nat, env: Env, n: nat)
    ensures past + Alone(pid, env, n + 1) == past + Alone(pid, env, n) + [Step(pid, env.draw(n))]
  {
  }

  /** One statement with nobody to wait for is one statement of the sequential run. */
  lemma AloneStep(seeds: seq<SeedPolicy>, s: Sys, pid: nat, at: Progress, delta: Db, k: nat, freshId: string, fails: bool)
    returns (more: Db)
    requires pid !in s.procs && NoDeltas(s) && k < |Program(seeds)| && at.view == s.db.Plus(delta)
    requires Exec(at, Program(seeds)[k], freshId, fails).Some?
    ensures var next := Exec(at, Program(seeds)[k], freshId, fails).value;
            && next.view == s.db.Plus(more)
            && Next(seeds, Put(s, pid, Seeding(k, at.pending, delta)), Step(pid, freshId))
               == Some(Put(s, pid, Seeding(k + 1, next.pending, more)))
  {
    var added := FullEffect(at.view, at.pending, Program(seeds)[k], freshId).value;
    more := delta.Plus(added.rows);
    PlusAssociative(s.db, delta, added.rows);
    NothingIsApart(added.rows);
    var here := Put(s, pid, Seeding(k, at.pending, delta));
    assert !Blocked(here, pid, added.rows);
    assert Put(here, pid, Seeding(k + 1, added.pending, more)) == Put(s, pid, Seeding(k + 1, added.pending, more));
  }

  lemma {:induction false} AloneRuns(seeds: seq<SeedPolicy>, start: Db, past: seq<Action>, s: Sys, pid: nat, env: Env, k: nat)
    returns (delta: Db)
    requires Reach(seeds, start, past) == Some(s) && pid !in s.procs && NoDeltas(s)
    requires k <= |Program(seeds)| && Run(Progress(s.db, ZERO, false), Program(seeds)[..k], env).Some?
    ensures var at := Run(Progress(s.db, ZERO, false), Program(seeds)[..k], env).value;
            && at.view == s.db.Plus(delta)
            && Reach(seeds, start, past + Alone(pid, env, k)) == Some(Put(s, pid, Seeding(k, at.pending, delta)))
    decreases k
  {
    if k == 0 {
      delta := NO_ROWS;
      PlusNothing(s.db);
      ReachNext(seeds, start, past, StartSeeder(pid));
      assert Alone(pid, env, 0) == [StartSeeder(pid)];
    } else {
      var n := k - 1;
      var stmts := Program(seeds);
      assert stmts[..k] == stmts[..n] + [stmts[n]];
      RunStep(Progress(s.db, ZERO, false), stmts[..n], stmts[n], env);
      var before := AloneRuns(seeds, start, past, s, pid, env, n);
      var at := Run(Progress(s.db, ZERO, false), stmts[..n], env).value;
      delta := AloneStep(seeds, s, pid, at, before, n, env.draw(n), env.fails(n));
      AloneNext(past, pid, env, n);
      ReachNext(seeds, start, past + Alone(pid, env, n), Step(pid, env.draw(n)));
    }
  }

  lemma CommitAlone(seeds: seq<SeedPolicy>, s: Sys, pid: nat, pending: bool, delta: Db)
    ensures Next(seeds, Put(s, pid, Seeding(|Program(seeds)|, pending, delta)), Step(pid, "")) ==
            Some(Put(Sys(s.db.Plus(delta), s.procs), pid, Seeded))
  {
    var here := Put(s, pid, Seeding(|Program(seeds)|, pending, delta));
    assert Put(Sys(s.db.Plus(delta), here.procs), pid, Seeded) == Put(Sys(s.db.Plus(delta), s.procs), pid, Seeded);
  }

  /** Uninterrupted and unfailing, a seeder of the system commits what the sequential seeder commits. */
  lemma AloneIsSeedRun(seeds: seq<SeedPolicy>, start: Db, past: seq<Action>, s: Sys, pid: nat, env: Env)
    requires Reach(seeds, start, past) == Some(s) && pid !in s.procs && NoDeltas(s)
    requires SeedRun(s.db, seeds, env).Some?
    ensures Reach(seeds, start, past + Alone(pid, env, |Program(seeds)|) + [Step(pid, "")]) ==
            Some(Put(Sys(SeedRun(s.db, seeds, env).value.view, s.procs), pid, Seeded))
  {
    var n := |Program(seeds)|;
    assert Program(seeds)[..n] == Program(seeds);
    var delta := AloneRuns(seeds, start, past, s, pid, env, n);
    ReachNext(seeds, start, past + Alone(pid, env, n), Step(pid, ""));
    CommitAlone(seeds, s, pid, Run(Progress(s.db, ZERO, false), Program(seeds), env).value.pending, delta);
  }

  lemma AloneStepFails(seeds: seq<SeedPolicy>, s: Sys, pid: nat, at: Progress, delta: Db, k: nat, freshId: string)
    requires k < |Program(seeds)| && at.view == s.db.Plus(delta)
    requires FullEffect(at.view, at.pending, Program(seeds)[k], freshId).None?
    ensures Next(seeds, Put(s, pid, Seeding(k, at.pending, delta)), Step(pid, freshId)) == Some(Put(s, pid, Aborted))
  {
    PutPut(s, pid, Seeding(k, at.pending, delta), Aborted);
  }

  lemma AloneFailsAt(seeds: seq<SeedPolicy>, start: Db, past: seq<Action>, s: Sys, pid: nat, env: Env, n: nat, at: Progress)
    requires Reach(seeds, start, past) == Some(s) && pid !in s.procs && NoDeltas(s)
    requires n < |Program(seeds)| && Run(Progress(s.db, ZERO, false), Program(seeds)[..n], env) == Some(at)
    requires FullEffect(at.view, at.pending, Program(seeds)[n], env.draw(n)).None?
    ensures Reach(seeds, start, past + Alone(pid, env, n + 1)) == Some(Put(s, pid, Aborted))
  {
    var delta := AloneRuns(seeds, start, past, s, pid, env, n);
    AloneStepFails(seeds, s, pid, at, delta, n, env.draw(n));
    AloneNext(past, pid, env, n);
    ReachNext(seeds, start, past + Alone(pid, env, n), Step(pid, env.draw(n)));
  }

  lemma {:induction false} AloneFailsWithin(seeds: seq<SeedPolicy>, start: Db, past: seq<Action>, s: Sys, pid: nat,
                                            env: Env, k: nat) returns (n: nat)
    requires Reach(seeds, start, past) == Some(s) && pid !in s.procs && NoDeltas(s) && NoOutage(env)
    requires k <= |Program(seeds)| && Run(Progress(s.db, ZERO, false), Program(seeds)[..k], env).None?
    ensures n < k && Reach(seeds, start, past + Alone(pid, env, n + 1)) == Some(Put(s, pid, Aborted))
    decreases k
  {
    n := k - 1;
    var stmts := Program(seeds);
    assert stmts[..k] == stmts[..n] + [stmts[n]];
    RunStep(Progress(s.db, ZERO, false), stmts[..n], stmts[n], env);
    var before := Run(Progress(s.db, ZERO, false), stmts[..n], env);
    if before.None? {
      n := AloneFailsWithin(seeds, start, past, s, pid, env, n);
    } else {
      AloneFailsAt(seeds, start, past, s, pid, env, n, before.value);
    }
  }

  /**
   And where the sequential seeder fails although there is no outage, by a CHECK, a foreign key or a repeated
   identifier, the seeder of the system comes by its own steps to an abort that leaves the database unchanged.
   */
  lemma AloneFailsLikeSeedRun(seeds: seq<SeedPolicy>, start: Db, past: seq<Action>, s: Sys, pid: nat, env: Env)
    returns (n: nat)
    requires Reach(seeds, start, past) == Some(s) && pid !in s.procs && NoDeltas(s) && NoOutage(env)
    requires SeedRun(s.db, seeds, env).None?
    ensures n < |Program(seeds)| && Reach(seeds, start, past + Alone(pid, env, n + 1)) == Some(Put(s, pid, Aborted))
  {
    assert Program(seeds)[..|Program(seeds)|] == Program(seeds);
    n := AloneFailsWithin(seeds, start, past, s, pid, env, |Program(seeds)|);
  }

  // ---------- a request left alone ----------

  lemma ReaderMoves(seeds: seq<SeedPolicy>, s: Sys, pid: nat)
    requires pid in s.procs && (s.procs[pid].Arrived? || s.procs[pid].GotPolicy? || s.procs[pid].GotRoles?)
    ensures Next(seeds, s, Step(pid, "")) == Some(Put(s, pid, ReaderStep(s.db.catalog, s.procs[pid])))
  {
    var p := s.procs[pid];
    assert !Finished(p) && !p.Seeding? && !p.Writing?;
  }

  lemma ReaderMovesOn(seeds: seq<SeedPolicy>, s: Sys, pid: nat, p: Proc)
    requires p.Arrived? || p.GotPolicy? || p.GotRoles?
    ensures Next(seeds, Put(s, pid, p), Step(pid, "")) == Some(Put(s, pid, ReaderStep(s.db.catalog, p)))
  {
    ReaderMoves(seeds, Put(s, pid, p), pid);
    PutPut(s, pid, p, ReaderStep(s.db.catalog, p));
  }

  lemma PutPut(s: Sys, pid: nat, p: Proc, q: Proc)
    ensures Put(Put(s, pid, p), pid, q) == Put(s, pid, q)
  {
  }

  lemma ReaderReaches(seeds: seq<SeedPolicy>, start: Db, past: seq<Action>, s: Sys, pid: nat, p: Proc)
    requires p.Arrived? || p.GotPolicy? || p.GotRoles?
    requires Reach(seeds, start, past) == Some(Put(s, pid, p))
    ensures Reach(seeds, start, past + [Step(pid, "")]) == Some(Put(s, pid, ReaderStep(s.db.catalog, p)))
  {
    ReachNext(seeds, start, past, Step(pid, ""));
    ReaderMovesOn(seeds, s, pid, p);
  }

  lemma FirstReads(c: Catalog, job: Job, row: PolicyRow)
    requires BeforePolicy(job).AskPolicy? && RowIn(c, job) == Some(row)
    ensures ReaderStep(c, Arrived(job)) == GotPolicy(job, row)
    ensures ReaderStep(c, GotPolicy(job, row)) == GotRoles(job, row, NamesOf(c.roles, row.id))
  {
  }

  /** A request reads its policy and the roles before anything else happens. */
  lemma TwoReads(seeds: seq<SeedPolicy>, start: Db, past: seq<Action>, s: Sys, pid: nat, job: Job, row: PolicyRow)
    requires Reach(seeds, start, past) == Some(s) && pid !in s.procs
    requires BeforePolicy(job).AskPolicy? && RowIn(s.db.catalog, job) == Some(row)
    ensures Reach(seeds, start, past + [StartRequest(pid, job)] + [Step(pid, "")] + [Step(pid, "")]) ==
            Some(Put(s, pid, GotRoles(job, row, NamesOf(s.db.catalog.roles, row.id))))
  {
    var a := past + [StartRequest(pid, job)];
    ReachNext(seeds, start, past, StartRequest(pid, job));
    FirstReads(s.db.catalog, job, row);
    ReaderReaches(seeds, start, a, s, pid, Arrived(job));
    ReaderReaches(seeds, start, a + [Step(pid, "")], s, pid, GotPolicy(job, row));
  }

  lemma LastRead(c: Catalog, job: Job)
    ensures var found := LookupOf(Steady(c), LookupKey(job));
            match RowIn(c, job)
            case Some(row) =>
              ReaderStep(c, GotRoles(job, row, NamesOf(c.roles, row.id))) == StartWriting(job, found)
            case None => ReaderStep(c, Arrived(job)) == StartWriting(job, found)
    ensures BeforePolicy(job).Early? ==>
              ReaderStep(c, Arrived(job)) == StartWriting(job, LookupOf(Steady(c), LookupKey(job)))
  {
  }

  lemma AppendFour(past: seq<Action>, a: Action, b: Action, c: Action, d: Action)
    ensures past + ([a] + [b] + [c] + [d]) == past + [a] + [b] + [c] + [d]
  {
  }

  /** Actions of one process that is not made to abort. */
  ghost predicate OwnSteps(pid: nat, actions: seq<Action>) {
    forall a | a in actions :: a.pid == pid && !a.Abort?
  }

  /** The actions of a request up to its decision: one read that ends it, or all three. */
  function Asking(pid: nat, job: Job, c: Catalog): (actions: seq<Action>)
    ensures OwnSteps(pid, actions)
  {
    if BeforePolicy(job).Early? || RowIn(c, job).None? then [StartRequest(pid, job)] + [Step(pid, "")]
    else [StartRequest(pid, job)] + [Step(pid, "")] + [Step(pid, "")] + [Step(pid, "")]
  }

  lemma RequestDecidesAfterReads(seeds: seq<SeedPolicy>, start: Db, past: seq<Action>, s: Sys, pid: nat, job: Job, row: PolicyRow)
    requires Reach(seeds, start, past) == Some(s) && pid !in s.procs
    requires BeforePolicy(job).AskPolicy? && RowIn(s.db.catalog, job) == Some(row)
    ensures Reach(seeds, start, past + [StartRequest(pid, job)] + [Step(pid, "")] + [Step(pid, "")] + [Step(pid, "")]) ==
            Some(Put(s, pid, ReaderStep(s.db.catalog, GotRoles(job, row, NamesOf(s.db.catalog.roles, row.id)))))
  {
    TwoReads(seeds, start, past, s, pid, job, row);
    ReaderReaches(seeds, start, past + [StartRequest(pid, job)] + [Step(pid, "")] + [Step(pid, "")], s, pid,
                  GotRoles(job, row, NamesOf(s.db.catalog.roles, row.id)));
  }

  lemma RequestDecidesAtOnce(seeds: seq<SeedPolicy>, start: Db, past: seq<Action>, s: Sys, pid: nat, job: Job)
    requires Reach(seeds, start, past) == Some(s) && pid !in s.procs
    ensures Reach(seeds, start, past + ([StartRequest(pid, job)] + [Step(pid, "")])) ==
            Some(Put(s, pid, ReaderStep(s.db.catalog, Arrived(job))))
  {
    ReachNext(seeds, start, past, StartRequest(pid, job));
    ReaderReaches(seeds, start, past + [StartRequest(pid, job)], s, pid, Arrived(job));
    assert past + ([StartRequest(pid, job)] + [Step(pid, "")]) == past + [StartRequest(pid, job)] + [Step(pid, "")];
  }

  /** With nobody in between, a request comes to the decision of the one state it sees. */
  lemma RequestDecides(seeds: seq<SeedPolicy>, start: Db, past: seq<Action>, s: Sys, pid: nat, job: Job)
    requires Reach(seeds, start, past) == Some(s) && pid !in s.procs
    ensures Reach(seeds, start, past + Asking(pid, job, s.db.catalog)) ==
            Some(Put(s, pid, StartWriting(job, LookupOf(Steady(s.db.catalog), LookupKey(job)))))
  {
    LastRead(s.db.catalog, job);
    if BeforePolicy(job).Early? || RowIn(s.db.catalog, job).None? {
      RequestDecidesAtOnce(seeds, start, past, s, pid, job);
    } else {
      RequestDecidesAfterReads(seeds, start, past, s, pid, job, RowIn(s.db.catalog, job).value);
      AppendFour(past, StartRequest(pid, job), Step(pid, ""), Step(pid, ""), Step(pid, ""));
    }
  }

  lemma WriterInserts(s: Sys, pid: nat, p: Proc, freshId: string)
    requires p.Writing? && p.written == 0 && p.delta == NO_ROWS && NoDeltas(s) && pid !in s.procs
    ensures WriterStep(Put(s, pid, p), pid, p, freshId) ==
            if DecisionFits(s.db, DecisionRowOf(p.result.record))
            then Some(Put(s, pid, Writing(p.job, p.result, 1, DecisionRows(p.result))))
            else Some(Put(s, pid, Aborted))
  {
    PlusNothing(s.db);
    PlusNothing(DecisionRows(p.result));
    NothingIsApart(DecisionRows(p.result));
    assert !Blocked(Put(s, pid, p), pid, DecisionRows(p.result));
    PutPut(s, pid, p, Writing(p.job, p.result, 1, DecisionRows(p.result)));
    PutPut(s, pid, p, Aborted);
  }

  lemma WriterRecords(s: Sys, pid: nat, p: Proc, freshId: string)
    requires p.Writing? && p.written == 1 && p.delta == DecisionRows(p.result) && NoDeltas(s) && pid !in s.procs
    ensures WriterStep(Put(s, pid, p), pid, p, freshId) ==
            if EventFits(s.db, EventRows(p.result, freshId).outbox[0])
            then Some(Put(s, pid, Writing(p.job, p.result, 2, DecisionRows(p.result).Plus(EventRows(p.result, freshId)))))
            else Some(Put(s, pid, Aborted))
  {
    assert s.db.Plus(p.delta).outbox == s.db.outbox;
    NothingIsApart(EventRows(p.result, freshId));
    assert !Blocked(Put(s, pid, p), pid, EventRows(p.result, freshId));
    PutPut(s, pid, p, Writing(p.job, p.result, 2, DecisionRows(p.result).Plus(EventRows(p.result, freshId))));
    PutPut(s, pid, p, Aborted);
  }

  lemma WriterCommits(s: Sys, pid: nat, p: Proc, freshId: string)
    requires p.Writing? && p.written == 2
    ensures WriterStep(Put(s, pid, p), pid, p, freshId) ==
            Some(Put(Sys(s.db.Plus(p.delta), s.procs), pid, Answered(p.job, p.result)))
  {
    var here := Put(s, pid, p);
    assert Put(Sys(s.db.Plus(p.delta), here.procs), pid, Answered(p.job, p.result))
           == Put(Sys(s.db.Plus(p.delta), s.procs), pid, Answered(p.job, p.result));
  }

  lemma WriterReaches(seeds: seq<SeedPolicy>, start: Db, past: seq<Action>, s: Sys, pid: nat, p: Proc, freshId: string)
    requires p.Writing? && Reach(seeds, start, past) == Some(Put(s, pid, p))
    ensures Reach(seeds, start, past + [Step(pid, freshId)]) == WriterStep(Put(s, pid, p), pid, p, freshId)
  {
  }

  lemma InsertReaches(seeds: seq<SeedPolicy>, start: Db, past: seq<Action>, s: Sys, pid: nat, job: Job, result: AuthorizeResult)
    requires pid !in s.procs && NoDeltas(s) && Reach(seeds, start, past) == Some(Put(s, pid, Writing(job, result, 0, NO_ROWS)))
    ensures Reach(seeds, start, past + [Step(pid, "")]) ==
            Some(Put(s, pid, if DecisionFits(s.db, DecisionRowOf(result.record))
                             then Writing(job, result, 1, DecisionRows(result)) else Aborted))
  {
    WriterReaches(seeds, start, past, s, pid, Writing(job, result, 0, NO_ROWS), "");
    WriterInserts(s, pid, Writing(job, result, 0, NO_ROWS), "");
  }

  lemma RecordReaches(seeds: seq<SeedPolicy>, start: Db, past: seq<Action>, s: Sys, pid: nat, job: Job,
                      result: AuthorizeResult, freshId: string)
    requires pid !in s.procs && NoDeltas(s)
    requires Reach(seeds, start, past) == Some(Put(s, pid, Writing(job, result, 1, DecisionRows(result))))
    ensures Reach(seeds, start, past + [Step(pid, freshId)]) ==
            Some(Put(s, pid, if EventFits(s.db, EventRows(result, freshId).outbox[0])
                             then Writing(job, result, 2, DecisionRows(result).Plus(EventRows(result, freshId)))
                             else Aborted))
  {
    WriterReaches(seeds, start, past, s, pid, Writing(job, result, 1, DecisionRows(result)), freshId);
    WriterRecords(s, pid, Writing(job, result, 1, DecisionRows(result)), freshId);
  }

  lemma CommitReaches(seeds: seq<SeedPolicy>, start: Db, past: seq<Action>, s: Sys, pid: nat, job: Job,
                      result: AuthorizeResult, delta: Db)
    requires Reach(seeds, start, past) == Some(Put(s, pid, Writing(job, result, 2, delta)))
    ensures Reach(seeds, start, past + [Step(pid, "")]) ==
            Some(Put(Sys(s.db.Plus(delta), s.procs), pid, Answered(job, result)))
  {
    WriterReaches(seeds, start, past, s, pid, Writing(job, result, 2, delta), "");
    WriterCommits(s, pid, Writing(job, result, 2, delta), "");
  }

  const NO_FAULTS := Faults(false, false, false, false)

  /** The system after a sequential call without outages: answered with the pair stored, or aborted with nothing. */
  function AfterCall(s: Sys, pid: nat, job: Job, result: AuthorizeResult, freshId: string): Sys {
    match Persisted(s.db, result, EventRows(result, freshId).outbox[0], NO_FAULTS)
    case Some(db) => Put(Sys(db, s.procs), pid, Answered(job, result))
    case None => Put(s, pid, Aborted)
  }

  lemma AfterCallCases(s: Sys, pid: nat, job: Job, result: AuthorizeResult, freshId: string)
    ensures AfterCall(s, pid, job, result, freshId) ==
            if DecisionFits(s.db, DecisionRowOf(result.record)) && EventFits(s.db, EventRows(result, freshId).outbox[0])
            then Put(Sys(s.db.Plus(DecisionRows(result).Plus(EventRows(result, freshId))), s.procs), pid, Answered(job, result))
            else Put(s, pid, Aborted)
  {
    assert DecisionRows(result).Plus(EventRows(result, freshId))
           == Db(NO_CATALOG, [DecisionRowOf(result.record)], EventRows(result, freshId).outbox);
  }

  lemma OwnStepsPlus(pid: nat, a: seq<Action>, b: seq<Action>, past: seq<Action>)
    ensures OwnSteps(pid, a) && OwnSteps(pid, b) ==> OwnSteps(pid, a + b)
    ensures past + (a + b) == past + a + b
  {
    assert past + (a + b) == past + a + b;
  }

  lemma OwnStep(pid: nat, freshId: string)
    ensures OwnSteps(pid, [Step(pid, freshId)])
  {
  }

  lemma SteadyDecides(job: Job, c: Catalog)
    ensures Authorization(job, LookupOf(Steady(c), LookupKey(job))).Some?
  {
  }

  /**
   With nobody in between, a request of the system comes by its own steps to what the sequential call does:
   the same answer and database, or, when the call's paired write is rejected, an abort and no change.
   */
  lemma AloneIsAuthorize(seeds: seq<SeedPolicy>, start: Db, past: seq<Action>, s: Sys, pid: nat, job: Job, freshId: string)
    returns (actions: seq<Action>)
    requires Reach(seeds, start, past) == Some(s) && pid !in s.procs && NoDeltas(s)
    ensures OwnSteps(pid, actions)
    ensures var decided := Authorization(job, LookupOf(Steady(s.db.catalog), LookupKey(job)));
            decided.Some? && Reach(seeds, start, past + actions) == Some(AfterCall(s, pid, job, decided.value, freshId))
  {
    SteadyDecides(job, s.db.catalog);
    var result := Authorization(job, LookupOf(Steady(s.db.catalog), LookupKey(job))).value;
    actions := RequestRuns(seeds, start, past, s, pid, job, result, freshId);
  }

  lemma RequestRuns(seeds: seq<SeedPolicy>, start: Db, past: seq<Action>, s: Sys, pid: nat, job: Job,
                    result: AuthorizeResult, freshId: string) returns (actions: seq<Action>)
    requires Reach(seeds, start, past) == Some(s) && pid !in s.procs && NoDeltas(s)
    requires StartWriting(job, LookupOf(Steady(s.db.catalog), LookupKey(job))) == Writing(job, result, 0, NO_ROWS)
    ensures OwnSteps(pid, actions) && Reach(seeds, start, past + actions) == Some(AfterCall(s, pid, job, result, freshId))
  {
    var deciding := Asking(pid, job, s.db.catalog);
    RequestDecides(seeds, start, past, s, pid, job);
    var writing := WriterRuns(seeds, start, past + deciding, s, pid, job, result, freshId);
    actions := deciding + writing;
    OwnStepsPlus(pid, deciding, writing, past);
  }

  lemma WriterRuns(seeds: seq<SeedPolicy>, start: Db, past: seq<Action>, s: Sys, pid: nat, job: Job,
                   result: AuthorizeResult, freshId: string) returns (actions: seq<Action>)
    requires pid !in s.procs && NoDeltas(s) && Reach(seeds, start, past) == Some(Put(s, pid, Writing(job, result, 0, NO_ROWS)))
    ensures OwnSteps(pid, actions) && Reach(seeds, start, past + actions) == Some(AfterCall(s, pid, job, result, freshId))
  {
    InsertReaches(seeds, start, past, s, pid, job, result);
    AfterCallCases(s, pid, job, result, freshId);
    OwnStep(pid, "");
    actions := [Step(pid, "")];
    if DecisionFits(s.db, DecisionRowOf(result.record)) {
      var writing := RecorderRuns(seeds, start, past + actions, s, pid, job, result, freshId);
      OwnStepsPlus(pid, actions, writing, past);
      actions := actions + writing;
    }
  }

  lemma RecorderRuns(seeds: seq<SeedPolicy>, start: Db, past: seq<Action>, s: Sys, pid: nat, job: Job,
                     result: AuthorizeResult, freshId: string) returns (actions: seq<Action>)
    requires pid !in s.procs && NoDeltas(s) && DecisionFits(s.db, DecisionRowOf(result.record))
    requires Reach(seeds, start, past) == Some(Put(s, pid, Writing(job, result, 1, DecisionRows(result))))
    ensures OwnSteps(pid, actions) && Reach(seeds, start, past + actions) == Some(AfterCall(s, pid, job, result, freshId))
  {
    RecordReaches(seeds, start, past, s, pid, job, result, freshId);
    AfterCallCases(s, pid, job, result, freshId);
    OwnStep(pid, freshId);
    OwnStep(pid, "");
    actions := [Step(pid, freshId)];
    if EventFits(s.db, EventRows(result, freshId).outbox[0]) {
      CommitReaches(seeds, start, past + actions, s, pid, job, result, DecisionRows(result).Plus(EventRows(result, freshId)));
      OwnStepsPlus(pid, actions, [Step(pid, "")], past);
      actions := actions + [Step(pid, "")];
    }
  }

  // ---------- lookups of a seeded database ----------

  /** A list query's answer with exactly the names of a seed's children. */
  ghost predicate FullList(children: seq<SeedChild>, names: seq<string>) {
    && Ascending(names) && NoDuplicates(names)
    && forall x :: x in names <==> exists r | r in children :: r.name == x
  }

  lemma SeededRolesAreFull(c: Catalog, seeds: seq<SeedPolicy>, s: SeedPolicy)
    requires ValidCatalog(c) && WellFormed(seeds) && HoldsExactly(c, seeds) && s in seeds
    requires forall t | t in seeds && t.id == s.id :: t == s
    ensures FullList(s.roles, NamesOf(c.roles, s.id)) && FullList(s.capabilities, NamesOf(c.capabilities, s.id))
  {
    NamesOfMembers(c.roles, s.id);
    NamesOfMembers(c.capabilities, s.id);
    forall x ensures Requires(c.roles, s.id, x) <==> exists r | r in s.roles :: r.name == x {
      if row :| row in c.roles && row.policyId == s.id && row.name == x {
        assert row in Elements(c.roles) && row in RoleRows(seeds);
        var t, r :| t in seeds && r in t.roles && row == ChildRow(t.id, r);
        assert t == s;
      }
      if r :| r in s.roles && r.name == x {
        assert ChildRow(s.id, r) in RoleRows(seeds) && ChildRow(s.id, r) in Elements(c.roles);
      }
    }
    forall x ensures Requires(c.capabilities, s.id, x) <==> exists r | r in s.capabilities :: r.name == x {
      if row :| row in c.capabilities && row.policyId == s.id && row.name == x {
        assert row in Elements(c.capabilities) && row in CapabilityRows(seeds);
        var t, r :| t in seeds && r in t.capabilities && row == ChildRow(t.id, r);
        assert t == s;
      }
      if r :| r in s.capabilities && r.name == x {
        assert ChildRow(s.id, r) in CapabilityRows(seeds) && ChildRow(s.id, r) in Elements(c.capabilities);
      }
    }
  }

  /** No two different seeds share an identifier. */
  ghost predicate IdsDistinct(seeds: seq<SeedPolicy>) {
    forall s, t | s in seeds && t in seeds && s.id == t.id :: s == t
  }

  /** The policy of a seed, with its full requirement lists. */
  ghost predicate FullPolicy(seeds: seq<SeedPolicy>, key: RouteKey, policy: Policy) {
    exists s | s in seeds :: s.key == key && FullList(s.roles, policy.requiredRoles)
                             && FullList(s.capabilities, policy.requiredCapabilities)
                             && policy.id == s.id && policy.key == s.key && policy.effect == s.effect
                             && policy.status == s.status && policy.description == s.description
  }

  lemma SeededLookupIsFull(c: Catalog, seeds: seq<SeedPolicy>, input: RouteKey)
    requires ValidCatalog(c) && WellFormed(seeds) && IdsDistinct(seeds) && HoldsExactly(c, seeds)
    ensures match LookupOf(Steady(c), input)
            case Found(policy) => FullPolicy(seeds, input.Normalized(), policy)
            case NotFound => forall t | t in seeds :: t.key != input.Normalized()
            case LookupError => false
  {
    var key := input.Normalized();
    SelectFinds(c.policies, key);
    match SelectPolicy(c.policies, key)
    case Some(row) =>
      assert row in Elements(c.policies) && row in PolicyRows(seeds);
      var s :| s in seeds && PolicyRowOf(s) == row;
      SeededRolesAreFull(c, seeds, s);
    case None =>
      forall t | t in seeds ensures t.key != key {
        assert PolicyRowOf(t) in PolicyRows(seeds) && PolicyRowOf(t) in Elements(c.policies);
      }
  }

  lemma SameElements<T>(t: seq<T>, u: seq<T>)
    requires Elements(t) == Elements(u)
    ensures forall x :: x in t <==> x in u
  {
    forall x ensures x in t <==> x in u {
      assert x in t <==> x in Elements(t);
      assert x in u <==> x in Elements(u);
    }
  }

  /** However the list was ordered and however often it was run, lookups answer the same. */
  lemma SeededLookupsAgree(c: Catalog, d: Catalog, seeds: seq<SeedPolicy>, input: RouteKey)
    requires ValidCatalog(c) && ValidCatalog(d) && HoldsExactly(c, seeds) && HoldsExactly(d, seeds)
    ensures LookupOf(Steady(c), input) == LookupOf(Steady(d), input)
  {
    SameElements(c.policies, d.policies);
    SameElements(c.roles, d.roles);
    SameElements(c.capabilities, d.capabilities);
    LookupIgnoresRowOrder(c, d, input);
  }

  /**
   From empty policy tables and a well-formed list, in every interleaving of any number of lookups and seeders:
   every decision was made with no policy, or with the policy of a seed and exactly that seed's full lists.
   */
  lemma NeverAPartialPolicy(seeds: seq<SeedPolicy>, start: Db, actions: seq<Action>, pid: nat)
    requires ValidDb(start) && start.catalog == NO_CATALOG && WellFormed(seeds) && IdsDistinct(seeds)
    requires Reach(seeds, start, actions).Some?
    requires var procs := Reach(seeds, start, actions).value.procs;
             pid in procs && (procs[pid].Writing? || procs[pid].Answered?)
    ensures var p := Reach(seeds, start, actions).value.procs[pid];
            || Some(ResultOf(p)) == Authorization(p.job, NotFound)
            || exists policy :: FullPolicy(seeds, LookupKey(p.job).Normalized(), policy)
                                && Some(ResultOf(p)) == Authorization(p.job, Found(policy))
  {
    var s := Reach(seeds, start, actions).value;
    NoTornReads(seeds, start, actions, pid);
    ReachableTwoStates(seeds, start, actions);
    ReachableIsSafe(seeds, start, actions);
    EmptyOrFull(seeds, s.db.catalog, s.procs[pid].job);
  }

  lemma EmptyOrFull(seeds: seq<SeedPolicy>, now: Catalog, job: Job)
    requires WellFormed(seeds) && IdsDistinct(seeds) && ValidCatalog(now)
    requires now == NO_CATALOG || Grow(NO_CATALOG, Program(seeds)) == Some(now)
    ensures LookupOf(Steady(NO_CATALOG), LookupKey(job)) == NotFound
    ensures var found := LookupOf(Steady(now), LookupKey(job));
            found == NotFound || (found.Found? && FullPolicy(seeds, LookupKey(job).Normalized(), found.policy))
  {
    if now != NO_CATALOG {
      SeedingFromEmpty(seeds);
      SeededLookupIsFull(now, seeds, LookupKey(job));
    }
  }

  // ---------- the torn run ----------

  /**
   When seeding gives the policy that a request finds both a further role and a further capability, some
   interleaving makes a decision that belongs to neither state.
   */
  lemma TornRunExists(seeds: seq<SeedPolicy>, start: Db, job: Job, env: Env, row: PolicyRow) returns (actions: seq<Action>)
    requires ValidDb(start) && SeedRun(start, seeds, env).Some?
    requires BeforePolicy(job).AskPolicy? && RowIn(start.catalog, job) == Some(row)
    requires GainsBoth(start.catalog, SeedRun(start, seeds, env).value.view.catalog, row.id)
    ensures Reach(seeds, start, actions).Some?
    ensures var s := Reach(seeds, start, actions).value;
            && 0 in s.procs && s.procs[0].Writing? && s.procs[0].job == job
            && !DecidedInOneState(start.catalog, s.db.catalog, job, s.procs[0].result)
  {
    var after := SeedRun(start, seeds, env).value.view;
    var names := NamesOf(start.catalog.roles, row.id);
    var s0 := Sys(start, map[]);
    var c := [] + [StartRequest(0, job)] + [Step(0, "")] + [Step(0, "")];
    TwoReads(seeds, start, [], s0, 0, job, row);
    var s3 := Put(s0, 0, GotRoles(job, row, names));
    AloneIsSeedRun(seeds, start, c, s3, 1, env);
    var d := c + Alone(1, env, |Program(seeds)|) + [Step(1, "")];
    actions := d + [Step(0, "")];
    ReachNext(seeds, start, d, Step(0, ""));
    ReaderMoves(seeds, Put(Sys(after, s3.procs), 1, Seeded), 0);
    var rows := RunAdds(Progress(start, ZERO, false), Program(seeds), env);
    SeedCountsAreExact(start, seeds, env);
    TornRecordIsNeither(start.catalog, rows.catalog, job, row);
  }

  lemma TornRecordIsNeither(c0: Catalog, added: Catalog, job: Job, row: PolicyRow)
    requires ValidCatalog(c0) && ValidCatalog(c0.Plus(added))
    requires BeforePolicy(job).AskPolicy? && RowIn(c0, job) == Some(row) && GainsBoth(c0, c0.Plus(added), row.id)
    ensures var c1 := c0.Plus(added);
            var torn := Authorization(job, Found(Assemble(row, NamesOf(c0.roles, row.id), NamesOf(c1.capabilities, row.id))));
            torn.Some? && !DecidedInOneState(c0, c1, job, torn.value)
  {
    var c1 := c0.Plus(added);
    SelectPrefix(c0.policies, added.policies, LookupKey(job).Normalized());
    StoredNamesAreNormal(c0, row.id);
    StoredNamesAreNormal(c1, row.id);
    RecordedLists(job, Found(Assemble(row, NamesOf(c0.roles, row.id), NamesOf(c1.capabilities, row.id))));
    RecordedLists(job, LookupOf(Steady(c0), LookupKey(job)));
    RecordedLists(job, LookupOf(Steady(c1), LookupKey(job)));
  }
}
