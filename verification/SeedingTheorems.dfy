/** What a seed run does to the database: validity, exact counts, idempotence, presence and order. */
module SeedingTheorems {
  import opened Text
  import opened PolicyModel
  import opened Audit
  import opened Schema
  import opened Seeding

  // ---------- the policy tables along a run ----------

  /** The policy tables after some statements, whatever happens elsewhere; None is an SQL error on the way. */
  function Grow(c: Catalog, stmts: seq<Stmt>): Option<Catalog> {
    if stmts == [] then Some(c)
    else
      var n := |stmts| - 1;
      var at := Grow(c, stmts[..n]);
      if at.None? then None
      else
        var rows := Effect(at.value, stmts[n]);
        if rows.None? then None else Some(at.value.Plus(rows.value))
  }

  /** A statement that has nothing left to do. */
  predicate Settled(c: Catalog, stmt: Stmt) {
    Effect(c, stmt) == Some(NO_CATALOG)
  }

  lemma SettledPersists(c: Catalog, added: Catalog, stmt: Stmt)
    requires Settled(c, stmt)
    ensures Settled(c.Plus(added), stmt)
  {
  }

  /** A conflict is with the row just added or with one that was there: either way it stays. */
  lemma EffectSettles(c: Catalog, stmt: Stmt)
    requires Effect(c, stmt).Some?
    ensures Settled(c.Plus(Effect(c, stmt).value), stmt)
  {
    var after := c.Plus(Effect(c, stmt).value);
    match stmt
    case InsertPolicy(seed) =>
      if !Clashes(PolicyClash, c.policies, PolicyRowOf(seed)) { assert PolicyRowOf(seed) in after.policies; }
    case InsertSeedEvent(_) =>
    case InsertRole(row) =>
      if !Clashes(RequirementClash, c.roles, row) { assert row in after.roles; }
    case InsertCapability(row) =>
      if !Clashes(RequirementClash, c.capabilities, row) { assert row in after.capabilities; }
  }

  lemma {:induction false} GrowSettles(c: Catalog, stmts: seq<Stmt>) returns (added: Catalog)
    requires Grow(c, stmts).Some?
    ensures Grow(c, stmts) == Some(c.Plus(added))
    ensures forall s | s in stmts :: Settled(c.Plus(added), s)
  {
    if stmts == [] {
      added := NO_CATALOG;
      PlusNothing(Db(c, [], []));
    } else {
      var n := |stmts| - 1;
      var before := GrowSettles(c, stmts[..n]);
      var rows := Effect(c.Plus(before), stmts[n]).value;
      added := before.Plus(rows);
      CatalogPlusAssociative(c, before, rows);
      forall s | s in stmts ensures Settled(c.Plus(added), s) {
        if s in stmts[..n] {
          SettledPersists(c.Plus(before), rows, s);
        } else {
          EffectSettles(c.Plus(before), s);
        }
      }
    }
  }

  // ---------- what a statement does, column by column ----------

  /** The identifier is taken, or the policy has that name already. */
  ghost predicate ChildTaken(table: seq<RequirementRow>, row: RequirementRow) {
    exists r | r in table :: r.id == row.id || (r.policyId == row.policyId && r.name == row.name)
  }

  lemma ChildInsertIs(table: seq<RequirementRow>, codes: set<string>, policies: seq<PolicyRow>, row: RequirementRow)
    ensures RequirementEffect(table, codes, policies, row) ==
            if row.name in codes && ChildTaken(table, row) then Some([])
            else if row.name in codes && exists p | p in policies :: p.id == row.policyId then Some([row])
            else None
  {
  }

  /**
   A child insert adds its row exactly when the code is known, neither the identifier nor the pair of policy and
   name is taken, and the policy is there. Of a known code a taken identifier or pair adds nothing and is no
   error, whatever else the row says; anything else is an error.
   */
  lemma ChildStatements(c: Catalog, row: RequirementRow)
    ensures Effect(c, InsertRole(row)) ==
            if row.name in ROLE_CODES && ChildTaken(c.roles, row) then Some(NO_CATALOG)
            else if row.name in ROLE_CODES && exists p | p in c.policies :: p.id == row.policyId
            then Some(Catalog([], [row], []))
            else None
    ensures Effect(c, InsertCapability(row)) ==
            if row.name in CAPABILITY_CODES && ChildTaken(c.capabilities, row) then Some(NO_CATALOG)
            else if row.name in CAPABILITY_CODES && exists p | p in c.policies :: p.id == row.policyId
            then Some(Catalog([], [], [row]))
            else None
  {
    ChildInsertIs(c.roles, ROLE_CODES, c.policies, row);
    ChildInsertIs(c.capabilities, CAPABILITY_CODES, c.policies, row);
  }

  /** A policy insert: its columns are checked, a taken identifier or route skips it, and otherwise it is added. */
  lemma PolicyStatement(c: Catalog, seed: SeedPolicy)
    ensures var row := PolicyRow(seed.id, seed.key, seed.effect, seed.status, seed.description);
            Effect(c, InsertPolicy(seed)) ==
            if !PolicyConstraints([row]) then None
            else if exists p | p in c.policies :: p.id == seed.id || p.key == seed.key then Some(NO_CATALOG)
            else Some(Catalog([row], [], []))
  {
    var row := PolicyRowOf(seed);
    PoliciesAreValidIff([row]);
    assert row in [row];
  }

  // ---------- validity ----------

  lemma RequirementEffectKeepsValid(table: seq<RequirementRow>, codes: set<string>, policies: seq<PolicyRow>,
                                    row: RequirementRow)
    requires ValidRequirements(table, codes, policies)
    requires RequirementEffect(table, codes, policies, row).Some?
    ensures ValidRequirements(table + RequirementEffect(table, codes, policies, row).value, codes, policies)
  {
  }

  lemma InsertPolicyKeepsValid(c: Catalog, row: PolicyRow)
    requires ValidCatalog(c) && PolicyChecks(row) && !Clashes(PolicyClash, c.policies, row)
    ensures ValidCatalog(c.Plus(Catalog([row], [], [])))
  {
  }

  lemma EffectKeepsValid(c: Catalog, stmt: Stmt)
    requires ValidCatalog(c) && Effect(c, stmt).Some?
    ensures ValidCatalog(c.Plus(Effect(c, stmt).value))
  {
    var rows := Effect(c, stmt).value;
    PlusNothing(Db(c, [], []));
    match stmt
    case InsertPolicy(seed) =>
      if rows != NO_CATALOG { InsertPolicyKeepsValid(c, PolicyRowOf(seed)); }
    case InsertSeedEvent(_) =>
    case InsertRole(row) => RequirementEffectKeepsValid(c.roles, ROLE_CODES, c.policies, row);
    case InsertCapability(row) => RequirementEffectKeepsValid(c.capabilities, CAPABILITY_CODES, c.policies, row);
  }

  lemma {:induction false} GrowKeepsValid(c: Catalog, stmts: seq<Stmt>)
    requires ValidCatalog(c) && Grow(c, stmts).Some?
    ensures ValidCatalog(Grow(c, stmts).value)
  {
    if stmts != [] {
      var n := |stmts| - 1;
      GrowKeepsValid(c, stmts[..n]);
      EffectKeepsValid(Grow(c, stmts[..n]).value, stmts[n]);
    }
  }

  lemma MorePoliciesKeepReferences(db: Db, rows: Catalog)
    requires forall d | d in db.decisions :: DecisionReference(db.catalog.policies, d)
    ensures forall d | d in db.decisions :: DecisionReference(db.catalog.Plus(rows).policies, d)
  {
    forall d | d in db.decisions && d.matchedPolicyId.Some?
      ensures HasPolicy(db.catalog.Plus(rows).policies, d.matchedPolicyId.value)
    {
      var p :| p in db.catalog.policies && p.id == d.matchedPolicyId.value;
      assert p in db.catalog.Plus(rows).policies;
    }
  }

  lemma FullEffectKeepsValid(db: Db, pending: bool, stmt: Stmt, freshId: string)
    requires ValidDb(db) && FullEffect(db, pending, stmt, freshId).Some?
    ensures ValidDb(db.Plus(FullEffect(db, pending, stmt, freshId).value.rows))
  {
    var rows := FullEffect(db, pending, stmt, freshId).value.rows;
    var after := db.Plus(rows);
    PlusNothing(db);
    MorePoliciesKeepReferences(db, rows.catalog);
    assert after.decisions == db.decisions;
    if stmt.InsertSeedEvent? {
      UniqueAppend(EventClash, db.outbox, rows.outbox);
    } else {
      EffectKeepsValid(db.catalog, stmt);
      assert after.outbox == db.outbox;
    }
  }

  // ---------- all or nothing, exact counts ----------

  function RowCounts(db: Db): Summary {
    Summary(|db.catalog.policies|, |db.catalog.roles|, |db.catalog.capabilities|, |db.outbox|)
  }

  function AddSummaries(a: Summary, b: Summary): Summary {
    Summary(a.policies + b.policies, a.roles + b.roles, a.capabilities + b.capabilities,
            a.auditEvents + b.auditEvents)
  }

  /** Along a run rows are only added, the counters count them, and each new policy but a pending one has its event. */
  lemma {:induction false} RunAdds(start: Progress, stmts: seq<Stmt>, env: Env) returns (rows: Db)
    requires Run(start, stmts, env).Some? && !start.pending
    ensures var at := Run(start, stmts, env).value;
            && at.view == start.view.Plus(rows) && rows.decisions == []
            && at.summary == AddSummaries(start.summary, RowCounts(rows))
            && Grow(start.view.catalog, stmts) == Some(at.view.catalog)
            && (ValidDb(start.view) ==> ValidDb(at.view))
    ensures forall e | e in rows.outbox :: e.resourceType == ExchangePolicy
  {
    if stmts == [] {
      rows := NO_ROWS;
      PlusNothing(start.view);
    } else {
      var n := |stmts| - 1;
      var before := RunAdds(start, stmts[..n], env);
      var at := Run(start, stmts[..n], env).value;
      var added := FullEffect(at.view, at.pending, stmts[n], env.draw(n)).value.rows;
      rows := before.Plus(added);
      PlusAssociative(start.view, before, added);
      PlusNothing(at.view);
      if ValidDb(start.view) {
        FullEffectKeepsValid(at.view, at.pending, stmts[n], env.draw(n));
      }
    }
  }

  /** Statements after the event of a seed leave policies and events alone. */
  lemma {:induction false} ChildrenKeepBalance(start: Progress, p: seq<Stmt>, q: seq<Stmt>, env: Env)
    requires Run(start, p + q, env).Some?
    requires forall s | s in q :: s.InsertRole? || s.InsertCapability?
    ensures var before, after := Run(start, p, env), Run(start, p + q, env);
            && before.Some?
            && after.value.summary.policies == before.value.summary.policies
            && after.value.summary.auditEvents == before.value.summary.auditEvents
            && (!before.value.pending ==> !after.value.pending)
    decreases |q|
  {
    if q == [] {
      assert p + q == p;
    } else {
      var n := |q| - 1;
      assert p + q == (p + q[..n]) + [q[n]];
      assert q[n] in q;
      RunStep(start, p + q[..n], q[n], env);
      ChildrenKeepBalance(start, p, q[..n], env);
      ExecEffect(Run(start, p + q[..n], env).value, q[n], env.draw(|p| + n), env.fails(|p| + n));
    }
  }

  /** A policy insert and its event keep policies and events in step. */
  lemma HeadKeepsBalance(start: Progress, past: seq<Stmt>, seed: SeedPolicy, env: Env)
    requires Run(start, past + [InsertPolicy(seed)] + [InsertSeedEvent(seed)], env).Some?
    ensures var before := Run(start, past, env);
            var after := Run(start, past + [InsertPolicy(seed)] + [InsertSeedEvent(seed)], env);
            && before.Some? && !after.value.pending
            && after.value.summary.policies - before.value.summary.policies
               == after.value.summary.auditEvents - before.value.summary.auditEvents
  {
  }

  /** At the end of every seed the run has written one event per policy it inserted. */
  lemma {:induction false} OneEventPerPolicy(start: Progress, seeds: seq<SeedPolicy>, env: Env)
    requires start.summary == ZERO && !start.pending
    requires Run(start, Program(seeds), env).Some?
    ensures var at := Run(start, Program(seeds), env).value;
            at.summary.auditEvents == at.summary.policies && !at.pending
    decreases |seeds|
  {
    if seeds != [] {
      var k := |seeds| - 1;
      var seed := seeds[k];
      var past := Program(seeds[..k]);
      var both := past + [InsertPolicy(seed)] + [InsertSeedEvent(seed)];
      SeedStmtsParts(past, seed);
      ChildrenKeepBalance(start, both, ChildStmts(seed), env);
      HeadKeepsBalance(start, past, seed, env);
      OneEventPerPolicy(start, seeds[..k], env);
    }
  }

  /** Adding rows extends every table and adds to its count. */
  lemma PlusExtends(db: Db, rows: Db)
    ensures var after := db.Plus(rows);
            && db.catalog.policies <= after.catalog.policies && db.catalog.roles <= after.catalog.roles
            && db.catalog.capabilities <= after.catalog.capabilities && db.outbox <= after.outbox
            && AddSummaries(RowCounts(db), RowCounts(rows)) == RowCounts(after)
  {
  }

  /**
   A successful call keeps every existing row and the schema invariant, and its summary is exactly the
   growth of the tables, with one audit event per policy. (An unsuccessful call changes nothing: SeedCanonical.)
   */
  lemma SeedCountsAreExact(db: Db, seeds: seq<SeedPolicy>, env: Env)
    requires SeedRun(db, seeds, env).Some?
    ensures var at := SeedRun(db, seeds, env).value;
            && db.catalog.policies <= at.view.catalog.policies
            && db.catalog.roles <= at.view.catalog.roles
            && db.catalog.capabilities <= at.view.catalog.capabilities
            && db.outbox <= at.view.outbox
            && db.decisions == at.view.decisions
            && AddSummaries(RowCounts(db), at.summary) == RowCounts(at.view)
            && at.summary.auditEvents == at.summary.policies
            && (ValidDb(db) ==> ValidDb(at.view))
  {
    var start := Progress(db, ZERO, false);
    var rows := RunAdds(start, Program(seeds), env);
    PlusExtends(db, rows);
    assert db.decisions + [] == db.decisions;
    OneEventPerPolicy(start, seeds, env);
  }

  /** Any outage fails the whole call: one at the beginning or at the commit, or one that hits a statement that is sent. */
  lemma OutagesFailTheRun(db: Db, seeds: seq<SeedPolicy>, env: Env, n: nat)
    requires env.beginFails || env.commitFails
             || (n < |Program(seeds)| && env.fails(n) && !Program(seeds)[n].InsertSeedEvent?)
    ensures SeedRun(db, seeds, env).None?
  {
    if !env.beginFails && !env.commitFails {
      var stmts := Program(seeds);
      var start := Progress(db, ZERO, false);
      assert stmts[..n + 1] == stmts[..n] + [stmts[n]];
      RunStep(start, stmts[..n], stmts[n], env);
      RunFailsOnPrefix(start, stmts[..n + 1], stmts, env);
    }
  }

  // ---------- seeding twice ----------

  /** When every statement is settled a run can only be a no-op. */
  lemma {:induction false} SettledRun(start: Progress, stmts: seq<Stmt>, env: Env)
    requires forall s | s in stmts :: Settled(start.view.catalog, s)
    requires !start.pending
    ensures Run(start, stmts, env).Some? ==> Run(start, stmts, env) == Some(start)
    ensures (forall i | 0 <= i < |stmts| :: !env.fails(i)) ==> Run(start, stmts, env).Some?
  {
    if stmts != [] {
      var n := |stmts| - 1;
      SettledRun(start, stmts[..n], env);
      PlusNothing(start.view);
      if Run(start, stmts[..n], env).Some? {
        assert Settled(start.view.catalog, stmts[n]);
      }
    }
  }

  ghost predicate NoOutage(env: Env) {
    !env.beginFails && !env.commitFails && forall n: nat :: !env.fails(n)
  }

  /**
   Seeding is a closure operator: after any successful run, for any list and any starting database, running
   the same list again succeeds at the SQL level, counts nothing and leaves the database as it is.
   */
  lemma SeedingTwice(db: Db, seeds: seq<SeedPolicy>, env: Env, again: Env)
    requires SeedRun(db, seeds, env).Some?
    ensures var first := SeedRun(db, seeds, env).value.view;
            var second := SeedRun(first, seeds, again);
            && (NoOutage(again) ==> second.Some?)
            && (second.Some? ==> second.value.view == first && second.value.summary == ZERO)
  {
    var start := Progress(db, ZERO, false);
    var rows := RunAdds(start, Program(seeds), env);
    var first := SeedRun(db, seeds, env).value.view;
    var added := GrowSettles(db.catalog, Program(seeds));
    SettledRun(Progress(first, ZERO, false), Program(seeds), again);
  }

  // ---------- when a run succeeds ----------

  /** Identifiers drawn for events are new and differ from one another. */
  ghost predicate FreshDraws(db: Db, env: Env) {
    && (forall n: nat, e | e in db.outbox :: env.draw(n) != e.id)
    && (forall m: nat, n: nat | m < n :: env.draw(m) != env.draw(n))
  }

  /** Without outages and collisions a run goes on as long as the policy tables accept its statements. */
  lemma {:induction false} QuietRunGoesOn(db: Db, stmts: seq<Stmt>, env: Env)
    requires Grow(db.catalog, stmts).Some? && NoOutage(env) && FreshDraws(db, env)
    ensures var at := Run(Progress(db, ZERO, false), stmts, env);
            && at.Some? && Grow(db.catalog, stmts) == Some(at.value.view.catalog)
            && forall e | e in at.value.view.outbox :: e in db.outbox || exists n: nat | n < |stmts| :: e.id == env.draw(n)
  {
    if stmts != [] {
      var n := |stmts| - 1;
      var start := Progress(db, ZERO, false);
      assert stmts == stmts[..n] + [stmts[n]];
      QuietRunGoesOn(db, stmts[..n], env);
      var at := Run(start, stmts[..n], env).value;
      RunStep(start, stmts[..n], stmts[n], env);
      if stmts[n].InsertSeedEvent? {
        ExecEvent(at, stmts[n].seed, env.draw(n), env.fails(n));
        var row := EventRowOf(SeedEvent(stmts[n].seed), env.draw(n));
        assert forall e | e in at.view.outbox :: !EventClash(e, row);
        PlusNothing(at.view);
      } else {
        ExecEffect(at, stmts[n], env.draw(n), env.fails(n));
      }
    }
  }

  /** A call succeeds without outages and collisions exactly when the policy tables accept the whole list. */
  lemma QuietRunSucceeds(db: Db, seeds: seq<SeedPolicy>, env: Env)
    requires NoOutage(env) && FreshDraws(db, env)
    ensures SeedRun(db, seeds, env).Some? <==> Grow(db.catalog, Program(seeds)).Some?
  {
    if Grow(db.catalog, Program(seeds)).Some? {
      QuietRunGoesOn(db, Program(seeds), env);
    } else if SeedRun(db, seeds, env).Some? {
      var rows := RunAdds(Progress(db, ZERO, false), Program(seeds), env);
    }
  }

  function LongestId(outbox: seq<EventRow>): (n: nat)
    ensures forall e | e in outbox :: |e.id| <= n
  {
    if outbox == [] then 0
    else
      var m := LongestId(outbox[1..]);
      if |outbox[0].id| > m then |outbox[0].id| else m
  }

  /** An environment without outages that draws longer and longer identifiers. */
  function QuietEnv(db: Db): Env {
    Env((n: nat) => seq(LongestId(db.outbox) + 1 + n, _ => 'x'), (_: nat) => false, false, false)
  }

  lemma QuietEnvIsQuiet(db: Db)
    ensures NoOutage(QuietEnv(db)) && FreshDraws(db, QuietEnv(db))
  {
    var env := QuietEnv(db);
    forall n: nat ensures |env.draw(n)| == LongestId(db.outbox) + 1 + n {}
  }

  // ---------- where rows come from ----------

  ghost predicate RowsFrom(c: Catalog, stmts: seq<Stmt>, after: Catalog) {
    && (forall p | p in after.policies :: p in c.policies || exists s | s in stmts :: s.InsertPolicy? && PolicyRowOf(s.seed) == p)
    && (forall r | r in after.roles :: r in c.roles || InsertRole(r) in stmts)
    && (forall r | r in after.capabilities :: r in c.capabilities || InsertCapability(r) in stmts)
  }

  lemma {:induction false} GrowOrigin(c: Catalog, stmts: seq<Stmt>)
    requires Grow(c, stmts).Some?
    ensures RowsFrom(c, stmts, Grow(c, stmts).value)
  {
    if stmts != [] {
      var n := |stmts| - 1;
      GrowOrigin(c, stmts[..n]);
      assert stmts[n] in stmts;
      assert forall s | s in stmts[..n] :: s in stmts;
    }
  }

  /** The statements of a list are those of its seeds, independently of order. */
  lemma {:induction false} ProgramStatements(seeds: seq<SeedPolicy>, stmt: Stmt)
    ensures stmt in Program(seeds) <==> exists s | s in seeds :: stmt in SeedStmts(s)
    decreases |seeds|
  {
    if seeds != [] {
      var k := |seeds| - 1;
      ProgramStatements(seeds[..k], stmt);
      assert seeds == seeds[..k] + [seeds[k]];
    }
  }

  lemma SeedStatements(seed: SeedPolicy, stmt: Stmt)
    ensures stmt in SeedStmts(seed) <==>
            match stmt
            case InsertPolicy(s) => s == seed
            case InsertSeedEvent(s) => s == seed
            case InsertRole(row) => exists r | r in seed.roles :: row == ChildRow(seed.id, r)
            case InsertCapability(row) => exists r | r in seed.capabilities :: row == ChildRow(seed.id, r)
  {
    SeedStmtsParts([], seed);
    var rs, cs := RoleStmts(seed.id, seed.roles), CapabilityStmts(seed.id, seed.capabilities);
    var all := SeedStmts(seed);
    match stmt
    case InsertPolicy(s) => assert all[0] == InsertPolicy(seed);
    case InsertSeedEvent(s) => assert all[1] == InsertSeedEvent(seed);
    case InsertRole(row) =>
      if r :| r in seed.roles && row == ChildRow(seed.id, r) {
        var j :| 0 <= j < |seed.roles| && seed.roles[j] == r;
        assert rs[j] == stmt;
      }
    case InsertCapability(row) =>
      if r :| r in seed.capabilities && row == ChildRow(seed.id, r) {
        var j :| 0 <= j < |seed.capabilities| && seed.capabilities[j] == r;
        assert cs[j] == stmt;
      }
  }
}
