/**
 The policy seeder: one transaction of INSERT ... ON CONFLICT DO NOTHING statements in nested loops,
 refined to a flat list of statements and their effects on the schema.
 */
module Seeding {
  import opened Text
  import opened PolicyModel
  import opened Audit
  import opened Schema
  import opened Store

  datatype SeedChild = SeedChild(id: string, name: string)

  datatype SeedPolicy = SeedPolicy(
    id: string,
    key: RouteKey,
    effect: string,
    status: string,
    description: string,
    roles: seq<SeedChild>,
    capabilities: seq<SeedChild>
  )

  datatype Summary = Summary(policies: nat, roles: nat, capabilities: nat, auditEvents: nat)

  const ZERO := Summary(0, 0, 0, 0)

  /** What a run meets from outside: identifiers drawn and infrastructure failures, by statement number. */
  datatype Env = Env(draw: nat -> string, fails: nat -> bool, beginFails: bool, commitFails: bool)

  // ---------- statements ----------

  datatype Stmt =
    | InsertPolicy(seed: SeedPolicy)
    | InsertSeedEvent(seed: SeedPolicy)
    | InsertRole(row: RequirementRow)
    | InsertCapability(row: RequirementRow)

  function ChildRow(policyId: string, child: SeedChild): RequirementRow {
    RequirementRow(child.id, policyId, child.name)
  }

  function RoleStmts(policyId: string, children: seq<SeedChild>): seq<Stmt> {
    seq(|children|, j requires 0 <= j < |children| => InsertRole(ChildRow(policyId, children[j])))
  }

  function CapabilityStmts(policyId: string, children: seq<SeedChild>): seq<Stmt> {
    seq(|children|, j requires 0 <= j < |children| => InsertCapability(ChildRow(policyId, children[j])))
  }

  function ChildStmts(seed: SeedPolicy): seq<Stmt> {
    RoleStmts(seed.id, seed.roles) + CapabilityStmts(seed.id, seed.capabilities)
  }

  function SeedStmts(seed: SeedPolicy): seq<Stmt> {
    [InsertPolicy(seed), InsertSeedEvent(seed)] + ChildStmts(seed)
  }

  /** The statements of a whole seed list, in program order. */
  function Program(seeds: seq<SeedPolicy>): seq<Stmt> {
    if seeds == [] then [] else Program(seeds[..|seeds| - 1]) + SeedStmts(seeds[|seeds| - 1])
  }

  // ---------- effects ----------

  function PolicyRowOf(seed: SeedPolicy): PolicyRow {
    PolicyRow(seed.id, seed.key, seed.effect, seed.status, seed.description)
  }

  function Names(children: seq<SeedChild>): seq<string> {
    seq(|children|, j requires 0 <= j < |children| => children[j].name)
  }

  function SeedEvent(seed: SeedPolicy): Event {
    Event("", PolicySeeded, SOURCE_TAIFA_EXCHANGE, "", "", ExchangePolicy, seed.id, CreatePolicy, Succeeded, "",
          PolicyPayload(Policy(seed.id, seed.key, seed.effect, seed.status, seed.description,
                               Names(seed.roles), Names(seed.capabilities))))
  }

  /** Rows that an insert adds to a requirement table: CHECK first, then conflicts, then the foreign key. */
  function RequirementEffect(table: seq<RequirementRow>, codes: set<string>, policies: seq<PolicyRow>,
                             row: RequirementRow): Option<seq<RequirementRow>> {
    if row.name !in codes then None
    else if Clashes(RequirementClash, table, row) then Some([])
    else if !HasPolicy(policies, row.policyId) then None
    else Some([row])
  }

  /** Policy-table rows that a statement adds; None is an SQL error. */
  function Effect(c: Catalog, stmt: Stmt): Option<Catalog> {
    match stmt
    case InsertPolicy(seed) =>
      var row := PolicyRowOf(seed);
      if !PolicyChecks(row) then None
      else if Clashes(PolicyClash, c.policies, row) then Some(NO_CATALOG)
      else Some(Catalog([row], [], []))
    case InsertSeedEvent(_) => Some(NO_CATALOG)
    case InsertRole(row) =>
      var rows := RequirementEffect(c.roles, ROLE_CODES, c.policies, row);
      if rows.None? then None else Some(Catalog([], rows.value, []))
    case InsertCapability(row) =>
      var rows := RequirementEffect(c.capabilities, CAPABILITY_CODES, c.policies, row);
      if rows.None? then None else Some(Catalog([], [], rows.value))
  }

  /** Rows added by a statement to the whole database, and whether a policy was added whose event is due. */
  datatype Added = Added(rows: Db, pending: bool)

  function FullEffect(db: Db, pending: bool, stmt: Stmt, freshId: string): Option<Added> {
    if stmt.InsertSeedEvent? then
      if !pending then Some(Added(NO_ROWS, false))
      else
        var row := EventRowOf(SeedEvent(stmt.seed), freshId);
        if Clashes(EventClash, db.outbox, row) then None
        else Some(Added(Db(NO_CATALOG, [], [row]), false))
    else
      var rows := Effect(db.catalog, stmt);
      if rows.None? then None
      else Some(Added(Db(rows.value, [], []), stmt.InsertPolicy? && rows.value.policies != []))
  }

  // ---------- runs ----------

  /** The seeder between two statements. */
  datatype Progress = Progress(view: Db, summary: Summary, pending: bool)

  function Counted(summary: Summary, rows: Db): Summary {
    Summary(summary.policies + |rows.catalog.policies|, summary.roles + |rows.catalog.roles|,
            summary.capabilities + |rows.catalog.capabilities|, summary.auditEvents + |rows.outbox|)
  }

  /** One statement; a failure of the infrastructure can only hit a statement that is sent. */
  function Exec(at: Progress, stmt: Stmt, freshId: string, fails: bool): Option<Progress> {
    var skipped := stmt.InsertSeedEvent? && !at.pending;
    var added := FullEffect(at.view, at.pending, stmt, freshId);
    if added.None? || (fails && !skipped) then None
    else Some(Progress(at.view.Plus(added.value.rows), Counted(at.summary, added.value.rows), added.value.pending))
  }

  function Run(start: Progress, stmts: seq<Stmt>, env: Env): Option<Progress> {
    if stmts == [] then Some(start)
    else
      var n := |stmts| - 1;
      var at := Run(start, stmts[..n], env);
      if at.None? then None else Exec(at.value, stmts[n], env.draw(n), env.fails(n))
  }

  /** A whole call: the new database and the summary, or None when everything is rolled back. */
  function SeedRun(db: Db, seeds: seq<SeedPolicy>, env: Env): Option<Progress> {
    if env.beginFails || env.commitFails then None else Run(Progress(db, ZERO, false), Program(seeds), env)
  }

  // ---------- flattening the loops ----------

  lemma {:induction false} RunFailsOnPrefix(start: Progress, p: seq<Stmt>, q: seq<Stmt>, env: Env)
    requires p <= q && Run(start, p, env).None?
    ensures Run(start, q, env).None?
  {
    if p != q {
      assert p <= q[..|q| - 1];
      RunFailsOnPrefix(start, p, q[..|q| - 1], env);
    } else {
      assert p == q;
    }
  }

  lemma RunStep(start: Progress, p: seq<Stmt>, stmt: Stmt, env: Env)
    ensures Run(start, p + [stmt], env) ==
            var at := Run(start, p, env);
            if at.None? then None else Exec(at.value, stmt, env.draw(|p|), env.fails(|p|))
  {
  }

  lemma {:induction false} ProgramPrefix(seeds: seq<SeedPolicy>, i: nat)
    requires i <= |seeds|
    ensures Program(seeds[..i]) <= Program(seeds)
    decreases |seeds|
  {
    if i == |seeds| {
      assert seeds[..i] == seeds;
    } else {
      assert seeds[..|seeds| - 1][..i] == seeds[..i];
      ProgramPrefix(seeds[..|seeds| - 1], i);
    }
  }

  lemma ProgramNext(seeds: seq<SeedPolicy>, i: nat)
    requires i < |seeds|
    ensures Program(seeds[..i + 1]) == Program(seeds[..i]) + SeedStmts(seeds[i])
    ensures Program(seeds[..i + 1]) <= Program(seeds)
  {
    assert seeds[..i + 1][..i] == seeds[..i];
    ProgramPrefix(seeds, i + 1);
  }

  /** A statement on the policy tables succeeds with its effect, and adds at most the one row it names. */
  lemma ExecEffect(at: Progress, stmt: Stmt, freshId: string, fails: bool)
    requires !stmt.InsertSeedEvent?
    ensures var rows := Effect(at.view.catalog, stmt);
            Exec(at, stmt, freshId, fails) ==
            if fails || rows.None? then None
            else Some(Progress(at.view.Plus(Db(rows.value, [], [])),
                               Summary(at.summary.policies + |rows.value.policies|,
                                       at.summary.roles + |rows.value.roles|,
                                       at.summary.capabilities + |rows.value.capabilities|,
                                       at.summary.auditEvents),
                               rows.value.policies != []))
    ensures var rows := Effect(at.view.catalog, stmt);
            rows.Some? ==> && (!stmt.InsertPolicy? ==> rows.value.policies == [])
                           && (!stmt.InsertRole? ==> rows.value.roles == [])
                           && (!stmt.InsertCapability? ==> rows.value.capabilities == [])
  {
  }

  lemma ExecEvent(at: Progress, seed: SeedPolicy, freshId: string, fails: bool)
    ensures var row := EventRowOf(SeedEvent(seed), freshId);
            Exec(at, InsertSeedEvent(seed), freshId, fails) ==
            if !at.pending then Some(at)
            else if fails || Clashes(EventClash, at.view.outbox, row) then None
            else Some(Progress(at.view.Plus(Db(NO_CATALOG, [], [row])),
                               at.summary.(auditEvents := at.summary.auditEvents + 1), false))
  {
    PlusNothing(at.view);
  }

  lemma SeedStmtsParts(past: seq<Stmt>, seed: SeedPolicy)
    ensures var head := past + [InsertPolicy(seed)] + [InsertSeedEvent(seed)];
            var roles := RoleStmts(seed.id, seed.roles);
            && past + SeedStmts(seed) == head + roles + CapabilityStmts(seed.id, seed.capabilities)
            && past + SeedStmts(seed) == head + ChildStmts(seed)
            && past + [InsertPolicy(seed)] <= past + SeedStmts(seed)
            && head <= past + SeedStmts(seed)
            && head + roles <= past + SeedStmts(seed)
  {
  }

  // ---------- the seeder ----------

  method InsertSeedPolicy(tx: Transaction, seed: SeedPolicy, fails: bool) returns (inserted: bool, ok: bool)
    modifies tx`work
    ensures var rows := Effect(old(tx.work.catalog), InsertPolicy(seed));
            if fails || rows.None? then !ok && tx.work == old(tx.work)
            else ok && |rows.value.policies| == (if inserted then 1 else 0) && tx.work == old(tx.work).Plus(Db(rows.value, [], []))
  {
    PlusNothing(tx.work);
    var row := PolicyRowOf(seed);
    if fails || !PolicyChecks(row) {
      return false, false;
    }
    if Clashes(PolicyClash, tx.work.catalog.policies, row) {
      return false, true;
    }
    tx.work := tx.work.Plus(Db(Catalog([row], [], []), [], []));
    return true, true;
  }

  method InsertSeedPolicyRole(tx: Transaction, policyId: string, role: SeedChild, fails: bool)
    returns (inserted: bool, ok: bool)
    modifies tx`work
    ensures var rows := Effect(old(tx.work.catalog), InsertRole(ChildRow(policyId, role)));
            if fails || rows.None? then !ok && tx.work == old(tx.work)
            else ok && |rows.value.roles| == (if inserted then 1 else 0) && tx.work == old(tx.work).Plus(Db(rows.value, [], []))
  {
    PlusNothing(tx.work);
    var row := ChildRow(policyId, role);
    ghost var rows := RequirementEffect(tx.work.catalog.roles, ROLE_CODES, tx.work.catalog.policies, row);
    if fails || row.name !in ROLE_CODES {
      assert row.name !in ROLE_CODES ==> rows == None;
      return false, false;
    }
    if Clashes(RequirementClash, tx.work.catalog.roles, row) {
      return false, true;
    }
    if !HasPolicy(tx.work.catalog.policies, policyId) {
      return false, false;
    }
    tx.work := tx.work.Plus(Db(Catalog([], [row], []), [], []));
    return true, true;
  }

  method InsertSeedPolicyCapability(tx: Transaction, policyId: string, capability: SeedChild, fails: bool)
    returns (inserted: bool, ok: bool)
    modifies tx`work
    ensures var rows := Effect(old(tx.work.catalog), InsertCapability(ChildRow(policyId, capability)));
            if fails || rows.None? then !ok && tx.work == old(tx.work)
            else ok && |rows.value.capabilities| == (if inserted then 1 else 0)
                 && tx.work == old(tx.work).Plus(Db(rows.value, [], []))
  {
    PlusNothing(tx.work);
    var row := ChildRow(policyId, capability);
    ghost var rows := RequirementEffect(tx.work.catalog.capabilities, CAPABILITY_CODES, tx.work.catalog.policies, row);
    if fails || row.name !in CAPABILITY_CODES {
      assert row.name !in CAPABILITY_CODES ==> rows == None;
      return false, false;
    }
    if Clashes(RequirementClash, tx.work.catalog.capabilities, row) {
      return false, true;
    }
    if !HasPolicy(tx.work.catalog.policies, policyId) {
      return false, false;
    }
    tx.work := tx.work.Plus(Db(Catalog([], [], [row]), [], []));
    return true, true;
  }

  /** Appends one event to the outbox of the caller's transaction. */
  method InsertEvent(tx: Transaction, event: Event, freshId: string, fails: bool) returns (ok: bool)
    modifies tx`work
    ensures var row := EventRowOf(event, freshId);
            if fails || Clashes(EventClash, old(tx.work.outbox), row) then !ok && tx.work == old(tx.work)
            else ok && tx.work == old(tx.work).Plus(Db(NO_CATALOG, [], [row]))
  {
    var row := EventRowOf(event, freshId);
    if fails || Clashes(EventClash, tx.work.outbox, row) {
      return false;
    }
    tx.work := tx.work.Plus(Db(NO_CATALOG, [], [row]));
    return true;
  }

  /** The inner loop over one seed's roles. */
  method SeedRoles(tx: Transaction, seed: SeedPolicy, env: Env, n0: nat, before: Summary,
                   ghost start: Progress, ghost past: seq<Stmt>)
    returns (summary: Summary, n: nat, ok: bool)
    requires n0 == |past| && Run(start, past, env) == Some(Progress(tx.work, before, false))
    modifies tx`work
    ensures var all := past + RoleStmts(seed.id, seed.roles);
            var run := Run(start, all, env);
            if ok then n == |all| && run == Some(Progress(tx.work, summary, false)) else run.None?
  {
    summary, n := before, n0;
    ghost var all := past + RoleStmts(seed.id, seed.roles);
    ghost var done := past;
    for j := 0 to |seed.roles|
      invariant n == |done| && |done| == |past| + j && done <= all
      invariant Run(start, done, env) == Some(Progress(tx.work, summary, false))
    {
      var child := seed.roles[j];
      RunStep(start, done, InsertRole(ChildRow(seed.id, child)), env);
      ExecEffect(Progress(tx.work, summary, false), InsertRole(ChildRow(seed.id, child)), env.draw(n), env.fails(n));
      done := done + [InsertRole(ChildRow(seed.id, child))];
      var inserted, sent := InsertSeedPolicyRole(tx, seed.id, child, env.fails(n));
      if !sent {
        RunFailsOnPrefix(start, done, all, env);
        return summary, n, false;
      }
      n := n + 1;
      if inserted {
        summary := summary.(roles := summary.roles + 1);
      }
    }
    assert done == all;
    ok := true;
  }

  /** The inner loop over one seed's capabilities. */
  method SeedCapabilities(tx: Transaction, seed: SeedPolicy, env: Env, n0: nat, before: Summary,
                          ghost start: Progress, ghost past: seq<Stmt>)
    returns (summary: Summary, n: nat, ok: bool)
    requires n0 == |past| && Run(start, past, env) == Some(Progress(tx.work, before, false))
    modifies tx`work
    ensures var all := past + CapabilityStmts(seed.id, seed.capabilities);
            var run := Run(start, all, env);
            if ok then n == |all| && run == Some(Progress(tx.work, summary, false)) else run.None?
  {
    summary, n := before, n0;
    ghost var all := past + CapabilityStmts(seed.id, seed.capabilities);
    ghost var done := past;
    for j := 0 to |seed.capabilities|
      invariant n == |done| && |done| == |past| + j && done <= all
      invariant Run(start, done, env) == Some(Progress(tx.work, summary, false))
    {
      var child := seed.capabilities[j];
      RunStep(start, done, InsertCapability(ChildRow(seed.id, child)), env);
      ExecEffect(Progress(tx.work, summary, false), InsertCapability(ChildRow(seed.id, child)), env.draw(n), env.fails(n));
      done := done + [InsertCapability(ChildRow(seed.id, child))];
      var inserted, sent := InsertSeedPolicyCapability(tx, seed.id, child, env.fails(n));
      if !sent {
        RunFailsOnPrefix(start, done, all, env);
        return summary, n, false;
      }
      n := n + 1;
      if inserted {
        summary := summary.(capabilities := summary.capabilities + 1);
      }
    }
    assert done == all;
    ok := true;
  }

  /** The body of the outer loop: one seed, its event when it was inserted, its roles and its capabilities. */
  method SeedOne(tx: Transaction, seed: SeedPolicy, env: Env, n0: nat, before: Summary,
                 ghost start: Progress, ghost past: seq<Stmt>)
    returns (summary: Summary, n: nat, ok: bool)
    requires n0 == |past| && Run(start, past, env) == Some(Progress(tx.work, before, false))
    modifies tx`work
    ensures var all := past + SeedStmts(seed);
            var run := Run(start, all, env);
            if ok then n == |all| && run == Some(Progress(tx.work, summary, false)) else run.None?
  {
    summary, n := before, n0;
    ghost var all := past + SeedStmts(seed);
    ghost var done := past + [InsertPolicy(seed)];
    SeedStmtsParts(past, seed);
    RunStep(start, past, InsertPolicy(seed), env);
    ExecEffect(Progress(tx.work, summary, false), InsertPolicy(seed), env.draw(n), env.fails(n));
    var insertedPolicy;
    insertedPolicy, ok := InsertSeedPolicy(tx, seed, env.fails(n));
    if !ok {
      RunFailsOnPrefix(start, done, all, env);
      return;
    }
    n := n + 1;
    RunStep(start, done, InsertSeedEvent(seed), env);
    ExecEvent(Progress(tx.work, if insertedPolicy then summary.(policies := summary.policies + 1) else summary,
                       insertedPolicy), seed, env.draw(n), env.fails(n));
    done := done + [InsertSeedEvent(seed)];
    if insertedPolicy {
      summary := summary.(policies := summary.policies + 1);
      ok := InsertEvent(tx, SeedEvent(seed), env.draw(n), env.fails(n));
      if !ok {
        RunFailsOnPrefix(start, done, all, env);
        return;
      }
      summary := summary.(auditEvents := summary.auditEvents + 1);
    }
    n := n + 1;
    assert Run(start, done, env) == Some(Progress(tx.work, summary, false));
    summary, n, ok := SeedRoles(tx, seed, env, n, summary, start, done);
    done := done + RoleStmts(seed.id, seed.roles);
    if !ok {
      RunFailsOnPrefix(start, done, all, env);
      return;
    }
    summary, n, ok := SeedCapabilities(tx, seed, env, n, summary, start, done);
  }

  /**
   All seeds in one transaction. On success the database and the summary are those of SeedRun;
   on any error nothing of the attempt is left and the summary is zero.
   */
  method SeedCanonical(pool: Pool?, seeds: seq<SeedPolicy>, env: Env) returns (result: Summary, ok: bool)
    modifies pool
    ensures pool == null ==> !ok && result == ZERO
    ensures pool != null ==>
              var run := SeedRun(old(pool.committed), seeds, env);
              if run.None? then !ok && result == ZERO && pool.committed == old(pool.committed)
              else ok && result == run.value.summary && pool.committed == run.value.view
  {
    if pool == null || env.beginFails {
      return ZERO, false;
    }
    var summary := ZERO;
    var tx := new Transaction.Begin(pool);
    var n := 0;
    ghost var start := Progress(tx.work, ZERO, false);
    for i := 0 to |seeds|
      invariant tx.pool == pool && pool.committed == old(pool.committed) && fresh(tx)
      invariant n == |Program(seeds[..i])|
      invariant Run(start, Program(seeds[..i]), env) == Some(Progress(tx.work, summary, false))
    {
      ProgramNext(seeds, i);
      var sent;
      summary, n, sent := SeedOne(tx, seeds[i], env, n, summary, start, Program(seeds[..i]));
      if !sent {
        RunFailsOnPrefix(start, Program(seeds[..i + 1]), Program(seeds), env);
        return ZERO, false;
      }
    }
    assert seeds[..|seeds|] == seeds;
    ok := tx.Commit(env.commitFails);
    result := if ok then summary else ZERO;
  }
}
