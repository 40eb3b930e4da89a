/**
 Concurrent seeding amounts to seeding once: with one seed list, the committed policy tables take at most two
 values over any interleaving, the starting one and the one that a single run produces.
 */
module ProtocolCatalog {
  import opened Text
  import opened PolicyModel
  import opened ExchangeModel
  import opened Audit
  import opened Schema
  import opened Lookup
  import opened Collecting
  import opened Exchange
  import opened ExchangeTheorems
  import opened ExchangeRecords
  import opened Seeding
  import opened SeedingTheorems
  import opened Protocol
  import opened ProtocolSafety

  // ---------- what each process has in its delta ----------

  /** The column is NULL for the empty text and holds every other text as it is. */
  predicate Stores(column: Option<string>, text: string) {
    if |text| == 0 then column.None? else column == Some(text)
  }

  /** The outbox row is the audit event of the decision row: column by column, and the whole record in its payload. */
  predicate Agrees(d: DecisionRow, e: EventRow) {
    && e.resourceType == AuthorizationDecision && e.resourceId == d.id
    && e.action == AuthorizeRequestAction && e.sourceSystem == "taifa-exchange"
    && (e.result == Allowed <==> d.decision == Allow) && (e.result == Denied <==> d.decision == Deny)
    && (e.eventType == AuthorizationAllowed <==> d.decision == Allow)
    && (e.eventType == ActorContextNotResolved <==> d.decision == Deny && d.denyReason == Some(ActorContextResolveFailed))
    && (e.eventType == PolicyMissing <==> d.decision == Deny && d.denyReason == Some(PolicyNotFound))
    && e.eventType != PolicySeeded
    && Stores(e.subjectId, d.organizationId) && e.actorId == d.personId
    && e.correlationId == d.requestCorrelationId
    && e.payload.DecisionPayload? && e.payload.record == ReadRecord(d)
  }

  /** The outbox row is the audit event of the policy row's insertion. */
  predicate Evidences(p: PolicyRow, e: EventRow) {
    && e.resourceType == ExchangePolicy && e.resourceId == p.id
    && e.eventType == PolicySeeded && e.action == CreatePolicy && e.result == Succeeded
    && e.sourceSystem == "taifa-exchange" && e.actorId == e.subjectId == e.correlationId == None
    && e.payload.PolicyPayload?
    && var shown := e.payload.policy;
       PolicyRow(shown.id, shown.key, shown.effect, shown.status, shown.description) == p
  }

  /** The i-th event evidences the i-th policy. */
  ghost predicate AllEvidenced(policies: seq<PolicyRow>, events: seq<EventRow>) {
    |events| <= |policies| && forall i | 0 <= i < |events| :: Evidences(policies[i], events[i])
  }

  ghost predicate Shaped(seeds: seq<SeedPolicy>, p: Proc) {
    match p
    case Seeding(pos, pending, delta) =>
      && pos <= |Program(seeds)|
      && delta.decisions == []
      && |delta.outbox| + (if pending then 1 else 0) == |delta.catalog.policies|
      && AllEvidenced(delta.catalog.policies, delta.outbox)
      && (pending ==> pos < |Program(seeds)| && Program(seeds)[pos].InsertSeedEvent?
                      && delta.catalog.policies[|delta.outbox|] == PolicyRowOf(Program(seeds)[pos].seed))
    case Writing(job, result, written, delta) =>
      && written <= 2 && delta.catalog == NO_CATALOG
      && delta.decisions == (if written == 0 then [] else [DecisionRowOf(result.record)])
      && |delta.outbox| == (if written == 2 then 1 else 0)
      && (written == 2 ==> Agrees(DecisionRowOf(result.record), delta.outbox[0]))
    case _ => true
  }

  ghost predicate AllShaped(seeds: seq<SeedPolicy>, s: Sys) {
    forall p | p in s.procs :: Shaped(seeds, s.procs[p])
  }

  /** In a program every policy insert is followed by its event. */
  lemma {:induction false} EventFollowsPolicy(seeds: seq<SeedPolicy>, k: nat)
    requires k < |Program(seeds)| && Program(seeds)[k].InsertPolicy?
    ensures k + 1 < |Program(seeds)| && Program(seeds)[k + 1] == InsertSeedEvent(Program(seeds)[k].seed)
    decreases |seeds|
  {
    var n := |seeds| - 1;
    var past, last := Program(seeds[..n]), SeedStmts(seeds[n]);
    if k < |past| {
      EventFollowsPolicy(seeds[..n], k);
    } else {
      SeedStmtsParts([], seeds[n]);
      assert Program(seeds)[k] == last[k - |past|];
      SeedStatements(seeds[n], last[k - |past|]);
      assert Program(seeds)[|past| + 1] == last[1];
    }
  }

  /** The event of a seed shows its policy and the names of its children, in order. */
  lemma SeedEventEvidences(seed: SeedPolicy, freshId: string)
    ensures var row, e := PolicyRowOf(seed), EventRowOf(SeedEvent(seed), freshId);
            && Evidences(row, e) && e.id == freshId
            && row == PolicyRow(seed.id, seed.key, seed.effect, seed.status, seed.description)
            && |e.payload.policy.requiredRoles| == |seed.roles|
            && (forall j | 0 <= j < |seed.roles| :: e.payload.policy.requiredRoles[j] == seed.roles[j].name)
            && |e.payload.policy.requiredCapabilities| == |seed.capabilities|
            && (forall j | 0 <= j < |seed.capabilities| :: e.payload.policy.requiredCapabilities[j] == seed.capabilities[j].name)
  {
  }

  lemma SeederStatementShapes(seeds: seq<SeedPolicy>, view: Db, p: Proc, freshId: string)
    requires p.Seeding? && Shaped(seeds, p) && p.pos < |Program(seeds)|
    ensures var added := FullEffect(view, p.pending, Program(seeds)[p.pos], freshId);
            added.Some? ==>
              Shaped(seeds, Seeding(p.pos + 1, added.value.pending, p.delta.Plus(added.value.rows)))
  {
    var stmt := Program(seeds)[p.pos];
    if stmt.InsertSeedEvent? {
      SeedEventEvidences(stmt.seed, freshId);
    } else if stmt.InsertPolicy? {
      EventFollowsPolicy(seeds, p.pos);
      var rows := Effect(view.catalog, stmt);
      assert rows.Some? ==> rows.value.policies in {[], [PolicyRowOf(stmt.seed)]};
    } else {
      EffectAddsNamedRow(view.catalog, stmt);
    }
  }

  lemma SeederStepKeepsShape(seeds: seq<SeedPolicy>, s: Sys, pid: nat, freshId: string)
    requires AllShaped(seeds, s) && pid in s.procs && s.procs[pid].Seeding?
    ensures var after := SeederStep(seeds, s, pid, s.procs[pid], freshId);
            after.Some? ==> AllShaped(seeds, after.value)
  {
    var p := s.procs[pid];
    assert Shaped(seeds, p);
    if p.pos < |Program(seeds)| {
      SeederStatementShapes(seeds, s.db.Plus(p.delta), p, freshId);
      var added := FullEffect(s.db.Plus(p.delta), p.pending, Program(seeds)[p.pos], freshId);
      PutKeepsShape(seeds, s, s.db, pid, Aborted);
      if added.Some? {
        PutKeepsShape(seeds, s, s.db, pid, Seeding(p.pos + 1, added.value.pending, p.delta.Plus(added.value.rows)));
      }
    } else {
      PutKeepsShape(seeds, s, s.db.Plus(p.delta), pid, Seeded);
    }
  }

  lemma EffectAddsNamedRow(c: Catalog, stmt: Stmt)
    ensures var rows := Effect(c, stmt);
            rows.Some? ==> |rows.value.policies| <= (if stmt.InsertPolicy? then 1 else 0)
  {
  }

  /** A process put in the place of another leaves the rest as it was. */
  lemma PutKeepsShape(seeds: seq<SeedPolicy>, s: Sys, db: Db, pid: nat, p: Proc)
    requires AllShaped(seeds, s) && Shaped(seeds, p)
    ensures AllShaped(seeds, Put(Sys(db, s.procs), pid, p))
  {
  }

  /** What the writer has after its first insert. */
  lemma DecisionShapes(seeds: seq<SeedPolicy>, job: Job, result: AuthorizeResult, delta: Db)
    requires Shaped(seeds, Writing(job, result, 0, delta))
    ensures Shaped(seeds, Writing(job, result, 1, delta.Plus(DecisionRows(result))))
  {
  }

  lemma EventAgrees(result: AuthorizeResult, freshId: string)
    ensures Agrees(DecisionRowOf(result.record), EventRows(result, freshId).outbox[0])
  {
    RowsTellTheRecord(result.record, DecisionRowOf(result.record));
  }

  /** And after its second. */
  lemma EventShapes(seeds: seq<SeedPolicy>, job: Job, result: AuthorizeResult, delta: Db, freshId: string)
    requires Shaped(seeds, Writing(job, result, 1, delta))
    ensures Shaped(seeds, Writing(job, result, 2, delta.Plus(EventRows(result, freshId))))
  {
    EventAgrees(result, freshId);
    assert delta.Plus(EventRows(result, freshId)).outbox == EventRows(result, freshId).outbox;
  }

  lemma WriterStepKeepsShape(seeds: seq<SeedPolicy>, s: Sys, pid: nat, freshId: string)
    requires AllShaped(seeds, s) && pid in s.procs && s.procs[pid].Writing?
    ensures var after := WriterStep(s, pid, s.procs[pid], freshId);
            after.Some? ==> AllShaped(seeds, after.value)
  {
    var p := s.procs[pid];
    assert Shaped(seeds, p);
    PutKeepsShape(seeds, s, s.db, pid, Aborted);
    if p.written == 0 {
      DecisionShapes(seeds, p.job, p.result, p.delta);
      PutKeepsShape(seeds, s, s.db, pid, Writing(p.job, p.result, 1, p.delta.Plus(DecisionRows(p.result))));
    } else if p.written == 1 {
      EventShapes(seeds, p.job, p.result, p.delta, freshId);
      PutKeepsShape(seeds, s, s.db, pid, Writing(p.job, p.result, 2, p.delta.Plus(EventRows(p.result, freshId))));
    } else {
      PutKeepsShape(seeds, s, s.db.Plus(p.delta), pid, Answered(p.job, p.result));
    }
  }

  lemma NextKeepsShape(seeds: seq<SeedPolicy>, s: Sys, a: Action)
    requires AllShaped(seeds, s) && Next(seeds, s, a).Some?
    ensures AllShaped(seeds, Next(seeds, s, a).value)
  {
    if a.Step? {
      var p := s.procs[a.pid];
      if p.Seeding? {
        SeederStepKeepsShape(seeds, s, a.pid, a.freshId);
      } else if p.Writing? {
        WriterStepKeepsShape(seeds, s, a.pid, a.freshId);
      }
    }
  }

  // ---------- growth along a prefix of the program ----------

  /** A run passes through its prefixes, and only adds rows after them. */
  lemma {:induction false} GrowPrefix(c: Catalog, stmts: seq<Stmt>, k: nat) returns (more: Catalog)
    requires k <= |stmts| && Grow(c, stmts).Some?
    ensures Grow(c, stmts[..k]).Some? && Grow(c, stmts).value == Grow(c, stmts[..k]).value.Plus(more)
  {
    if k == |stmts| {
      assert stmts[..k] == stmts;
      more := NO_CATALOG;
      PlusNothing(Db(Grow(c, stmts).value, [], []));
    } else {
      var n := |stmts| - 1;
      assert stmts[..n][..k] == stmts[..k];
      var before := GrowPrefix(c, stmts[..n], k);
      var rows := Effect(Grow(c, stmts[..n]).value, stmts[n]).value;
      more := before.Plus(rows);
      CatalogPlusAssociative(Grow(c, stmts[..k]).value, before, rows);
    }
  }

  /** If a whole run adds `all`, what a prefix adds is part of it. */
  lemma PrefixAddsPart(c: Catalog, stmts: seq<Stmt>, k: nat, part: Catalog, all: Catalog)
    requires k <= |stmts| && Grow(c, stmts) == Some(c.Plus(all)) && Grow(c, stmts[..k]) == Some(c.Plus(part))
    ensures part.policies <= all.policies && part.roles <= all.roles && part.capabilities <= all.capabilities
  {
    var more := GrowPrefix(c, stmts, k);
    CancelPrefix(c.policies, part.policies, more.policies, all.policies);
    CancelPrefix(c.roles, part.roles, more.roles, all.roles);
    CancelPrefix(c.capabilities, part.capabilities, more.capabilities, all.capabilities);
  }

  lemma CancelPrefix<T>(t: seq<T>, part: seq<T>, more: seq<T>, all: seq<T>)
    requires t + part + more == t + all
    ensures part <= all
  {
    assert t + part + more == t + (part + more);
    assert part + more == (t + (part + more))[|t|..];
    assert all == (t + all)[|t|..];
  }

  /** Rows cannot be apart from a list they belong to. */
  lemma PartOfAndApart(part: Catalog, all: Catalog)
    requires part.policies <= all.policies && part.roles <= all.roles && part.capabilities <= all.capabilities
    requires CatalogsApart(part, all)
    ensures part == NO_CATALOG
  {
    if part.policies != [] {
      var x := part.policies[0];
      assert x in part.policies && all.policies[0] == x && PolicyClash(x, x);
    }
    if part.roles != [] {
      var x := part.roles[0];
      assert x in part.roles && all.roles[0] == x && RequirementClash(x, x);
    }
    if part.capabilities != [] {
      var x := part.capabilities[0];
      assert x in part.capabilities && all.capabilities[0] == x && RequirementClash(x, x);
    }
  }

  // ---------- the two values ----------

  /** No seeder has committed new rows yet: every seeder in flight is that far along the one run from c0. */
  ghost predicate Before(seeds: seq<SeedPolicy>, c0: Catalog, s: Sys) {
    && s.db.catalog == c0
    && forall p | p in s.procs && s.procs[p].Seeding? ::
         s.procs[p].pos <= |Program(seeds)|
         && Grow(c0, Program(seeds)[..s.procs[p].pos]) == Some(c0.Plus(s.procs[p].delta.catalog))
  }

  /** One has: the tables are as after one run, and no seeder has anything to add. */
  ghost predicate After(seeds: seq<SeedPolicy>, c0: Catalog, s: Sys) {
    && Grow(c0, Program(seeds)) == Some(s.db.catalog)
    && forall p | p in s.procs && s.procs[p].Seeding? :: s.procs[p].delta.catalog == NO_CATALOG
  }

  ghost predicate TwoStates(seeds: seq<SeedPolicy>, c0: Catalog, s: Sys) {
    && AllShaped(seeds, s)
    && (Before(seeds, c0, s) || After(seeds, c0, s))
  }

  /** Moves of processes that leave the tables and the seeders' deltas alone. */
  lemma BystanderKeepsTwoStates(seeds: seq<SeedPolicy>, c0: Catalog, s: Sys, s': Sys, pid: nat, p: Proc)
    requires TwoStates(seeds, c0, s) && AllShaped(seeds, s')
    requires s' == Put(Sys(s'.db, s.procs), pid, p) && s'.db.catalog == s.db.catalog
    requires !p.Seeding? || p == Seeding(0, false, NO_ROWS)
    ensures TwoStates(seeds, c0, s')
  {
    PlusNothing(Db(c0, [], []));
    assert Program(seeds)[..0] == [];
  }

  /** The policy-table part of a statement's effect. */
  lemma FullEffectOnCatalog(view: Db, pending: bool, stmt: Stmt, freshId: string)
    ensures var added := FullEffect(view, pending, stmt, freshId);
            added.Some? ==> Effect(view.catalog, stmt) == Some(added.value.rows.catalog)
  {
  }

  /** One more statement takes a seeder one step further along the one run. */
  lemma GrowStep(c0: Catalog, stmts: seq<Stmt>, k: nat, delta: Catalog, rows: Catalog)
    requires k < |stmts| && Grow(c0, stmts[..k]) == Some(c0.Plus(delta)) && Effect(c0.Plus(delta), stmts[k]) == Some(rows)
    ensures Grow(c0, stmts[..k + 1]) == Some(c0.Plus(delta.Plus(rows)))
  {
    assert stmts[..k + 1][..k] == stmts[..k];
    CatalogPlusAssociative(c0, delta, rows);
  }

  /** After one run no statement of the list has an effect. */
  lemma NothingLeftToDo(c0: Catalog, stmts: seq<Stmt>, now: Catalog, k: nat, rows: Catalog)
    requires Grow(c0, stmts) == Some(now) && k < |stmts| && Effect(now, stmts[k]) == Some(rows)
    ensures rows == NO_CATALOG
  {
    var all := GrowSettles(c0, stmts);
    assert Settled(now, stmts[k]);
  }

  lemma StatementKeepsBefore(seeds: seq<SeedPolicy>, c0: Catalog, s: Sys, pid: nat, rows: Db, pending: bool)
    requires Before(seeds, c0, s) && pid in s.procs && s.procs[pid].Seeding? && s.procs[pid].pos < |Program(seeds)|
    requires Effect(s.db.catalog.Plus(s.procs[pid].delta.catalog), Program(seeds)[s.procs[pid].pos]) == Some(rows.catalog)
    ensures Before(seeds, c0, Put(s, pid, Seeding(s.procs[pid].pos + 1, pending, s.procs[pid].delta.Plus(rows))))
  {
    GrowStep(c0, Program(seeds), s.procs[pid].pos, s.procs[pid].delta.catalog, rows.catalog);
  }

  lemma StatementKeepsAfter(seeds: seq<SeedPolicy>, c0: Catalog, s: Sys, pid: nat, rows: Db, pending: bool)
    requires After(seeds, c0, s) && pid in s.procs && s.procs[pid].Seeding? && s.procs[pid].pos < |Program(seeds)|
    requires Effect(s.db.catalog.Plus(s.procs[pid].delta.catalog), Program(seeds)[s.procs[pid].pos]) == Some(rows.catalog)
    ensures After(seeds, c0, Put(s, pid, Seeding(s.procs[pid].pos + 1, pending, s.procs[pid].delta.Plus(rows))))
  {
    PlusNothing(s.db);
    NothingLeftToDo(c0, Program(seeds), s.db.catalog, s.procs[pid].pos, rows.catalog);
  }

  lemma SeederStatementKeepsTwoStates(seeds: seq<SeedPolicy>, c0: Catalog, s: Sys, pid: nat, freshId: string)
    requires TwoStates(seeds, c0, s) && pid in s.procs && s.procs[pid].Seeding?
    requires s.procs[pid].pos < |Program(seeds)|
    ensures var after := SeederStep(seeds, s, pid, s.procs[pid], freshId);
            after.Some? ==> TwoStates(seeds, c0, after.value)
  {
    var p := s.procs[pid];
    var added := FullEffect(s.db.Plus(p.delta), p.pending, Program(seeds)[p.pos], freshId);
    SeederStepKeepsShape(seeds, s, pid, freshId);
    FullEffectOnCatalog(s.db.Plus(p.delta), p.pending, Program(seeds)[p.pos], freshId);
    if added.Some? {
      if Before(seeds, c0, s) {
        StatementKeepsBefore(seeds, c0, s, pid, added.value.rows, added.value.pending);
      } else {
        StatementKeepsAfter(seeds, c0, s, pid, added.value.rows, added.value.pending);
      }
    }
  }

  lemma SeederCommitKeepsTwoStates(seeds: seq<SeedPolicy>, c0: Catalog, s: Sys, pid: nat)
    requires Safe(s) && TwoStates(seeds, c0, s) && pid in s.procs && s.procs[pid].Seeding?
    requires s.procs[pid].pos >= |Program(seeds)|
    ensures TwoStates(seeds, c0, Put(Sys(s.db.Plus(s.procs[pid].delta), s.procs), pid, Seeded))
  {
    var p := s.procs[pid];
    var stmts := Program(seeds);
    assert Shaped(seeds, p);
    PlusNothing(s.db);
    if Before(seeds, c0, s) {
      assert stmts[..p.pos] == stmts;
      forall q | q in s.procs && s.procs[q].Seeding? && q != pid
        ensures s.procs[q].delta.catalog == NO_CATALOG
      {
        assert Shaped(seeds, s.procs[q]);
        PrefixAddsPart(c0, stmts, s.procs[q].pos, s.procs[q].delta.catalog, p.delta.catalog);
        assert DbsApart(Delta(s.procs[q]), Delta(p));
        PartOfAndApart(s.procs[q].delta.catalog, p.delta.catalog);
      }
    }
  }

  /** Everything but a seeder's statement or commit leaves the policy tables and all seeders alone. */
  lemma OthersAreBystanders(seeds: seq<SeedPolicy>, s: Sys, a: Action)
    requires AllShaped(seeds, s) && Next(seeds, s, a).Some?
    requires a.Step? ==> !s.procs[a.pid].Seeding?
    ensures var s' := Next(seeds, s, a).value;
            && a.pid in s'.procs && s' == Put(Sys(s'.db, s.procs), a.pid, s'.procs[a.pid])
            && s'.db.catalog == s.db.catalog
            && (!s'.procs[a.pid].Seeding? || s'.procs[a.pid] == Seeding(0, false, NO_ROWS))
  {
    if a.Step? {
      assert Shaped(seeds, s.procs[a.pid]);
      PlusNothing(s.db);
    }
  }

  lemma NextKeepsTwoStates(seeds: seq<SeedPolicy>, c0: Catalog, s: Sys, a: Action)
    requires Safe(s) && TwoStates(seeds, c0, s) && Next(seeds, s, a).Some?
    ensures TwoStates(seeds, c0, Next(seeds, s, a).value)
  {
    var s' := Next(seeds, s, a).value;
    NextKeepsShape(seeds, s, a);
    if a.Step? && s.procs[a.pid].Seeding? {
      if s.procs[a.pid].pos < |Program(seeds)| {
        SeederStatementKeepsTwoStates(seeds, c0, s, a.pid, a.freshId);
      } else {
        SeederCommitKeepsTwoStates(seeds, c0, s, a.pid);
      }
    } else {
      OthersAreBystanders(seeds, s, a);
      BystanderKeepsTwoStates(seeds, c0, s, s', a.pid, s'.procs[a.pid]);
    }
  }

  lemma {:induction false} ReachableTwoStates(seeds: seq<SeedPolicy>, start: Db, actions: seq<Action>)
    requires ValidDb(start) && Reach(seeds, start, actions).Some?
    ensures TwoStates(seeds, start.catalog, Reach(seeds, start, actions).value)
  {
    if actions != [] {
      var n := |actions| - 1;
      ReachableTwoStates(seeds, start, actions[..n]);
      ReachableIsSafe(seeds, start, actions[..n]);
      NextKeepsTwoStates(seeds, start.catalog, Reach(seeds, start, actions[..n]).value, actions[n]);
    }
  }

  /**
   Any number of concurrent seeders of one list, with any failures, leave the committed policy tables as they
   were at the start or as one uninterrupted run leaves them; nothing in between is ever committed.
   */
  lemma ConcurrentSeedingIsSeedingOnce(seeds: seq<SeedPolicy>, start: Db, actions: seq<Action>)
    requires ValidDb(start) && Reach(seeds, start, actions).Some?
    ensures var now := Reach(seeds, start, actions).value.db.catalog;
            now == start.catalog || Some(now) == Grow(start.catalog, Program(seeds))
  {
    ReachableTwoStates(seeds, start, actions);
  }
}
