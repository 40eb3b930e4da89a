/** The schema invariant over every interleaving: no committed or private state ever breaks a constraint. */
module ProtocolSafety {
  import opened Text
  import opened PolicyModel
  import opened ExchangeModel
  import opened Audit
  import opened Schema
  import opened Lookup
  import opened Exchange
  import opened Seeding
  import opened SeedingTheorems
  import opened Protocol

  /** The committed state is valid, alone and with any one delta, and deltas do not clash with one another. */
  ghost predicate Safe(s: Sys) {
    && ValidDb(s.db)
    && (forall p | p in s.procs :: ValidDb(s.db.Plus(Delta(s.procs[p]))))
    && (forall p, q | p in s.procs && q in s.procs && p != q :: DbsApart(Delta(s.procs[p]), Delta(s.procs[q])))
  }

  lemma NothingIsApart(d: Db)
    ensures DbsApart(NO_ROWS, d) && DbsApart(d, NO_ROWS)
  {
  }

  lemma ApartIsSymmetric(a: Db, b: Db)
    requires DbsApart(a, b)
    ensures DbsApart(b, a)
  {
  }

  lemma ApartOfPlus(a: Db, rows: Db, b: Db)
    requires DbsApart(a, b) && DbsApart(rows, b)
    ensures DbsApart(a.Plus(rows), b)
  {
  }

  /** A move that adds no rows. */
  lemma QuietKeepsSafe(s: Sys, pid: nat, p: Proc)
    requires Safe(s) && (Delta(p) == NO_ROWS || (pid in s.procs && Delta(p) == Delta(s.procs[pid])))
    ensures Safe(Put(s, pid, p))
  {
    PlusNothing(s.db);
    forall d: Db ensures DbsApart(NO_ROWS, d) && DbsApart(d, NO_ROWS) { NothingIsApart(d); }
  }

  /** A statement that adds rows to the private delta. */
  lemma ExtendKeepsSafe(s: Sys, pid: nat, p: Proc, rows: Db)
    requires Safe(s) && pid in s.procs && Delta(p) == Delta(s.procs[pid]).Plus(rows)
    requires ValidDb(s.db.Plus(Delta(s.procs[pid])).Plus(rows)) && !Blocked(s, pid, rows)
    ensures Safe(Put(s, pid, p))
  {
    PlusAssociative(s.db, Delta(s.procs[pid]), rows);
    forall q | q in s.procs && q != pid
      ensures DbsApart(Delta(p), Delta(s.procs[q])) && DbsApart(Delta(s.procs[q]), Delta(p))
    {
      ApartOfPlus(Delta(s.procs[pid]), rows, Delta(s.procs[q]));
      ApartIsSymmetric(Delta(p), Delta(s.procs[q]));
    }
  }

  /** A commit. */
  lemma CommitKeepsSafe(s: Sys, pid: nat, p: Proc)
    requires Safe(s) && pid in s.procs && Delta(p) == NO_ROWS
    ensures Safe(Put(Sys(s.db.Plus(Delta(s.procs[pid])), s.procs), pid, p))
  {
    var delta := Delta(s.procs[pid]);
    PlusNothing(s.db.Plus(delta));
    forall q | q in s.procs && q != pid ensures ValidDb(s.db.Plus(delta).Plus(Delta(s.procs[q]))) {
      ValidTogether(s.db, delta, Delta(s.procs[q]));
    }
    forall d: Db ensures DbsApart(NO_ROWS, d) && DbsApart(d, NO_ROWS) { NothingIsApart(d); }
  }

  lemma DecisionKeepsValid(db: Db, result: AuthorizeResult)
    requires ValidDb(db) && DecisionFits(db, DecisionRowOf(result.record))
    ensures ValidDb(db.Plus(DecisionRows(result)))
  {
  }

  lemma EventKeepsValid(db: Db, result: AuthorizeResult, freshId: string)
    requires ValidDb(db) && EventFits(db, EventRows(result, freshId).outbox[0])
    ensures ValidDb(db.Plus(EventRows(result, freshId)))
  {
  }

  lemma SeederInsertKeepsSafe(s: Sys, pid: nat, p: Proc, stmt: Stmt, freshId: string, added: Added, next: Proc)
    requires Safe(s) && pid in s.procs && s.procs[pid] == p && p.Seeding?
    requires FullEffect(s.db.Plus(p.delta), p.pending, stmt, freshId) == Some(added) && !Blocked(s, pid, added.rows)
    requires next == Seeding(p.pos + 1, added.pending, p.delta.Plus(added.rows))
    ensures Safe(Put(s, pid, next))
  {
    assert Delta(s.procs[pid]) == p.delta && Delta(next) == p.delta.Plus(added.rows);
    assert ValidDb(s.db.Plus(Delta(s.procs[pid])));
    FullEffectKeepsValid(s.db.Plus(p.delta), p.pending, stmt, freshId);
    ExtendKeepsSafe(s, pid, next, added.rows);
  }

  lemma SeederStatementKeepsSafe(s: Sys, pid: nat, p: Proc, stmt: Stmt, freshId: string, s': Sys)
    requires Safe(s) && pid in s.procs && s.procs[pid] == p && p.Seeding?
    requires SeederStatement(s, pid, p, stmt, freshId) == Some(s')
    ensures Safe(s')
  {
    var effect := FullEffect(s.db.Plus(p.delta), p.pending, stmt, freshId);
    if effect.None? {
      QuietKeepsSafe(s, pid, Aborted);
      assert s' == Put(s, pid, Aborted);
    } else {
      var next := Seeding(p.pos + 1, effect.value.pending, p.delta.Plus(effect.value.rows));
      assert s' == Put(s, pid, next) && !Blocked(s, pid, effect.value.rows);
      SeederInsertKeepsSafe(s, pid, p, stmt, freshId, effect.value, next);
    }
  }

  lemma SeederStepKeepsSafe(seeds: seq<SeedPolicy>, s: Sys, pid: nat, freshId: string, s': Sys)
    requires Safe(s) && pid in s.procs && s.procs[pid].Seeding?
    requires SeederStep(seeds, s, pid, s.procs[pid], freshId) == Some(s')
    ensures Safe(s')
  {
    var p := s.procs[pid];
    if p.pos >= |Program(seeds)| {
      CommitKeepsSafe(s, pid, Seeded);
      assert s' == Put(Sys(s.db.Plus(Delta(p)), s.procs), pid, Seeded);
    } else {
      SeederStatementKeepsSafe(s, pid, p, Program(seeds)[p.pos], freshId, s');
    }
  }

  lemma WriterStepKeepsSafe(s: Sys, pid: nat, freshId: string)
    requires Safe(s) && pid in s.procs && s.procs[pid].Writing?
    ensures var after := WriterStep(s, pid, s.procs[pid], freshId);
            after.Some? ==> Safe(after.value)
  {
    var p := s.procs[pid];
    var view := s.db.Plus(Delta(p));
    QuietKeepsSafe(s, pid, Aborted);
    if p.written == 0 {
      var rows := DecisionRows(p.result);
      if DecisionFits(view, DecisionRowOf(p.result.record)) && !Blocked(s, pid, rows) {
        DecisionKeepsValid(view, p.result);
        ExtendKeepsSafe(s, pid, Writing(p.job, p.result, 1, p.delta.Plus(rows)), rows);
      }
    } else if p.written == 1 {
      var rows := EventRows(p.result, freshId);
      if EventFits(view, rows.outbox[0]) && !Blocked(s, pid, rows) {
        EventKeepsValid(view, p.result, freshId);
        ExtendKeepsSafe(s, pid, Writing(p.job, p.result, 2, p.delta.Plus(rows)), rows);
      }
    } else {
      CommitKeepsSafe(s, pid, Answered(p.job, p.result));
    }
  }

  lemma NextKeepsSafe(seeds: seq<SeedPolicy>, s: Sys, a: Action)
    requires Safe(s) && Next(seeds, s, a).Some?
    ensures Safe(Next(seeds, s, a).value)
  {
    match a
    case StartSeeder(pid) => QuietKeepsSafe(s, pid, Seeding(0, false, NO_ROWS));
    case StartRequest(pid, job) => QuietKeepsSafe(s, pid, Arrived(job));
    case Abort(pid) => QuietKeepsSafe(s, pid, Aborted);
    case Step(pid, freshId) =>
      var p := s.procs[pid];
      if p.Seeding? {
        SeederStepKeepsSafe(seeds, s, pid, freshId, Next(seeds, s, a).value);
      } else if p.Writing? {
        WriterStepKeepsSafe(s, pid, freshId);
      } else {
        QuietKeepsSafe(s, pid, ReaderStep(s.db.catalog, p));
      }
  }

  /** Every constraint of the schema holds in every reachable state of every interleaving. */
  lemma {:induction false} ReachableIsSafe(seeds: seq<SeedPolicy>, start: Db, actions: seq<Action>)
    requires ValidDb(start) && Reach(seeds, start, actions).Some?
    ensures Safe(Reach(seeds, start, actions).value)
  {
    if actions != [] {
      var n := |actions| - 1;
      ReachableIsSafe(seeds, start, actions[..n]);
      NextKeepsSafe(seeds, Reach(seeds, start, actions[..n]).value, actions[n]);
    }
  }

  /** In every reachable state every key, CHECK and reference holds, read off the columns it is about. */
  lemma ReachableMeetsConstraints(seeds: seq<SeedPolicy>, start: Db, actions: seq<Action>)
    requires Constraints(start) && Reach(seeds, start, actions).Some?
    ensures var s := Reach(seeds, start, actions).value;
            Constraints(s.db) && forall p | p in s.procs :: Constraints(s.db.Plus(Delta(s.procs[p])))
  {
    var s := Reach(seeds, start, actions).value;
    ValidIffConstraints(start);
    ReachableIsSafe(seeds, start, actions);
    ValidIffConstraints(s.db);
    forall p | p in s.procs ensures Constraints(s.db.Plus(Delta(s.procs[p]))) {
      ValidIffConstraints(s.db.Plus(Delta(s.procs[p])));
    }
  }

  // ---------- which interleavings there are ----------

  /** Anything may start, and whatever is not finished may fail at any moment and then leaves nothing behind. */
  lemma AnyoneMayStartOrFail(seeds: seq<SeedPolicy>, s: Sys, pid: nat, job: Job)
    ensures pid !in s.procs ==> Next(seeds, s, StartSeeder(pid)).Some? && Next(seeds, s, StartRequest(pid, job)).Some?
    ensures pid in s.procs && !Finished(s.procs[pid]) ==>
              Next(seeds, s, Abort(pid)) == Some(Sys(s.db, s.procs[pid := Aborted]))
  {
  }

  /** Two rows of one table have a primary key or a unique index in common. */
  ghost predicate SharesKey(a: Db, b: Db) {
    || (exists x, y | x in a.catalog.policies && y in b.catalog.policies :: x.id == y.id || x.key == y.key)
    || ChildrenShareKey(a.catalog.roles, b.catalog.roles)
    || ChildrenShareKey(a.catalog.capabilities, b.catalog.capabilities)
    || (exists x, y | x in a.decisions && y in b.decisions :: x.id == y.id)
    || (exists x, y | x in a.outbox && y in b.outbox :: x.id == y.id)
  }

  ghost predicate ChildrenShareKey(a: seq<RequirementRow>, b: seq<RequirementRow>) {
    exists x, y | x in a && y in b :: x.id == y.id || (x.policyId == y.policyId && x.name == y.name)
  }

  lemma ChildrenApartIff(a: seq<RequirementRow>, b: seq<RequirementRow>)
    ensures Apart(RequirementClash, a, b) <==> !ChildrenShareKey(a, b)
  {
  }

  lemma ApartIffNoSharedKey(a: Db, b: Db)
    ensures DbsApart(a, b) <==> !SharesKey(a, b)
  {
    ChildrenApartIff(a.catalog.roles, b.catalog.roles);
    ChildrenApartIff(a.catalog.capabilities, b.catalog.capabilities);
  }

  /** The process with nobody beside it. */
  function Solo(s: Sys, pid: nat): Sys
    requires pid in s.procs
  {
    Sys(s.db, map[pid := s.procs[pid]])
  }

  /** What the step adds to the private rows of the process. */
  ghost predicate StepAdds(seeds: seq<SeedPolicy>, s: Sys, pid: nat, freshId: string, rows: Db)
    requires pid in s.procs
  {
    var alone := Next(seeds, Solo(s, pid), Step(pid, freshId));
    && alone.Some? && pid in alone.value.procs && alone.value.db == s.db
    && Delta(alone.value.procs[pid]) == Delta(s.procs[pid]).Plus(rows)
  }

  lemma PlusCancels(d: Db, a: Db, b: Db)
    requires d.Plus(a) == d.Plus(b)
    ensures a == b
  {
    CancelFront(d.catalog.policies, a.catalog.policies, b.catalog.policies);
    CancelFront(d.catalog.roles, a.catalog.roles, b.catalog.roles);
    CancelFront(d.catalog.capabilities, a.catalog.capabilities, b.catalog.capabilities);
    CancelFront(d.decisions, a.decisions, b.decisions);
    CancelFront(d.outbox, a.outbox, b.outbox);
  }

  lemma CancelFront<T>(t: seq<T>, a: seq<T>, b: seq<T>)
    requires t + a == t + b
    ensures a == b
  {
    assert a == (t + a)[|t|..];
    assert b == (t + b)[|t|..];
  }

  /** What a step inserts, if it inserts. */
  ghost function Inserts(seeds: seq<SeedPolicy>, s: Sys, p: Proc, freshId: string): Option<Db> {
    var view := s.db.Plus(Delta(p));
    if p.Seeding? && p.pos < |Program(seeds)| then
      var added := FullEffect(view, p.pending, Program(seeds)[p.pos], freshId);
      if added.None? then None else Some(added.value.rows)
    else if p.Writing? && p.written == 0 && DecisionFits(view, DecisionRowOf(p.result.record)) then Some(DecisionRows(p.result))
    else if p.Writing? && p.written == 1 && EventFits(view, EventRows(p.result, freshId).outbox[0]) then
      Some(EventRows(p.result, freshId))
    else None
  }

  lemma StepWaitsIffBlocked(seeds: seq<SeedPolicy>, s: Sys, pid: nat, freshId: string)
    requires pid in s.procs && !Finished(s.procs[pid])
    ensures var rows := Inserts(seeds, s, s.procs[pid], freshId);
            Next(seeds, s, Step(pid, freshId)).None? <==> rows.Some? && Blocked(s, pid, rows.value)
  {
  }

  lemma InsertingAdds(seeds: seq<SeedPolicy>, s: Sys, pid: nat, freshId: string)
    requires pid in s.procs && !Finished(s.procs[pid]) && Inserts(seeds, s, s.procs[pid], freshId).Some?
    ensures StepAdds(seeds, s, pid, freshId, Inserts(seeds, s, s.procs[pid], freshId).value)
  {
    assert !Blocked(Solo(s, pid), pid, Inserts(seeds, s, s.procs[pid], freshId).value);
  }

  lemma OtherStepsAddNothing(seeds: seq<SeedPolicy>, s: Sys, pid: nat, freshId: string, rows: Db)
    requires pid in s.procs && !Finished(s.procs[pid]) && Inserts(seeds, s, s.procs[pid], freshId).None?
    requires StepAdds(seeds, s, pid, freshId, rows)
    ensures rows == NO_ROWS
  {
    var alone := Next(seeds, Solo(s, pid), Step(pid, freshId)).value;
    assert Delta(alone.procs[pid]) == NO_ROWS;
    PlusNothing(rows);
    PlusNothing(Delta(s.procs[pid]));
    assert |(Delta(s.procs[pid]).Plus(rows)).outbox| == 0;
  }

  /**
   A step waits exactly when it would add a row that has a key in common with an uncommitted row of another
   process; reads and commits never wait.
   */
  lemma StepWaitsIffKeyIsHeld(seeds: seq<SeedPolicy>, s: Sys, pid: nat, freshId: string)
    requires pid in s.procs && !Finished(s.procs[pid])
    ensures Next(seeds, s, Step(pid, freshId)).None? <==>
            exists rows, q :: StepAdds(seeds, s, pid, freshId, rows) && q in s.procs && q != pid
                              && SharesKey(rows, Delta(s.procs[q]))
  {
    var inserts := Inserts(seeds, s, s.procs[pid], freshId);
    StepWaitsIffBlocked(seeds, s, pid, freshId);
    forall rows, q | q in s.procs ensures DbsApart(rows, Delta(s.procs[q])) <==> !SharesKey(rows, Delta(s.procs[q])) {
      ApartIffNoSharedKey(rows, Delta(s.procs[q]));
    }
    if inserts.Some? {
      InsertingAdds(seeds, s, pid, freshId);
    }
    forall rows | StepAdds(seeds, s, pid, freshId, rows) ensures rows == if inserts.Some? then inserts.value else NO_ROWS {
      if inserts.Some? {
        PlusCancels(Delta(s.procs[pid]), rows, inserts.value);
      } else {
        OtherStepsAddNothing(seeds, s, pid, freshId, rows);
      }
    }
    NothingIsApart(NO_ROWS);
  }
}
