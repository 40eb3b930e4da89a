/** Which rows a successful seeding leaves behind, whatever the order and number of runs. */
module SeededContents {
  import opened Text
  import opened PolicyModel
  import opened Audit
  import opened Schema
  import opened Lookup
  import opened Seeding
  import opened SeedingTheorems

  // ---------- the rows a list asks for ----------

  function PolicyRows(seeds: seq<SeedPolicy>): set<PolicyRow> {
    set s | s in seeds :: PolicyRowOf(s)
  }

  function RoleRows(seeds: seq<SeedPolicy>): set<RequirementRow> {
    set s, r | s in seeds && r in s.roles :: ChildRow(s.id, r)
  }

  function CapabilityRows(seeds: seq<SeedPolicy>): set<RequirementRow> {
    set s, r | s in seeds && r in s.capabilities :: ChildRow(s.id, r)
  }

  lemma ProgramRows(seeds: seq<SeedPolicy>, stmt: Stmt)
    requires stmt in Program(seeds)
    ensures stmt.InsertPolicy? ==> stmt.seed in seeds
    ensures stmt.InsertRole? ==> stmt.row in RoleRows(seeds)
    ensures stmt.InsertCapability? ==> stmt.row in CapabilityRows(seeds)
  {
  }

  lemma RowsInProgram(seeds: seq<SeedPolicy>)
    ensures forall s | s in seeds :: InsertPolicy(s) in Program(seeds)
    ensures forall row | row in RoleRows(seeds) :: InsertRole(row) in Program(seeds)
    ensures forall row | row in CapabilityRows(seeds) :: InsertCapability(row) in Program(seeds)
  {
    forall s | s in seeds ensures InsertPolicy(s) in Program(seeds) {
      SeedStatements(s, InsertPolicy(s));
      ProgramStatements(seeds, InsertPolicy(s));
    }
    forall row | row in RoleRows(seeds) ensures InsertRole(row) in Program(seeds) {
      var s, r :| s in seeds && r in s.roles && row == ChildRow(s.id, r);
      SeedStatements(s, InsertRole(row));
      ProgramStatements(seeds, InsertRole(row));
    }
    forall row | row in CapabilityRows(seeds) ensures InsertCapability(row) in Program(seeds) {
      var s, r :| s in seeds && r in s.capabilities && row == ChildRow(s.id, r);
      SeedStatements(s, InsertCapability(row));
      ProgramStatements(seeds, InsertCapability(row));
    }
  }

  // ---------- success means the seeds are there ----------

  /** Child rows of the list that share an identifier are the same row. */
  ghost predicate IdsIdentify(rows: set<RequirementRow>) {
    forall a, b | a in rows && b in rows && a.id == b.id :: a == b
  }

  ghost predicate IdsUnused(table: seq<RequirementRow>, rows: set<RequirementRow>) {
    forall a, b | a in table && b in rows :: a.id != b.id
  }

  /** For any list: every seed's policy and child rows are there unless one of their keys was already taken. */
  lemma SeedsAreThereOrTaken(c: Catalog, seeds: seq<SeedPolicy>)
    requires Grow(c, Program(seeds)).Some?
    ensures var after := Grow(c, Program(seeds)).value;
            && (forall s | s in seeds :: Clashes(PolicyClash, after.policies, PolicyRowOf(s)))
            && (forall row | row in RoleRows(seeds) :: Clashes(RequirementClash, after.roles, row))
            && (forall row | row in CapabilityRows(seeds) :: Clashes(RequirementClash, after.capabilities, row))
            && (forall p | p in after.policies :: p in c.policies || p in PolicyRows(seeds))
            && (forall row | row in after.roles :: row in c.roles || row in RoleRows(seeds))
            && (forall row | row in after.capabilities :: row in c.capabilities || row in CapabilityRows(seeds))
  {
    var added := GrowSettles(c, Program(seeds));
    var after := c.Plus(added);
    RowsInProgram(seeds);
    GrowOrigin(c, Program(seeds));
    forall s | s in seeds ensures Clashes(PolicyClash, after.policies, PolicyRowOf(s)) {
      assert Settled(after, InsertPolicy(s));
    }
    forall row | row in RoleRows(seeds) ensures Clashes(RequirementClash, after.roles, row) {
      assert Settled(after, InsertRole(row));
    }
    forall row | row in CapabilityRows(seeds) ensures Clashes(RequirementClash, after.capabilities, row) {
      assert Settled(after, InsertCapability(row));
    }
    forall p | p in after.policies && p !in c.policies ensures p in PolicyRows(seeds) {
      var s :| s in Program(seeds) && s.InsertPolicy? && PolicyRowOf(s.seed) == p;
      ProgramRows(seeds, s);
    }
    forall row | row in after.roles && row !in c.roles ensures row in RoleRows(seeds) {
      ProgramRows(seeds, InsertRole(row));
    }
    forall row | row in after.capabilities && row !in c.capabilities ensures row in CapabilityRows(seeds) {
      ProgramRows(seeds, InsertCapability(row));
    }
  }

  ghost predicate ChildrenFresh(c: Catalog, seeds: seq<SeedPolicy>) {
    && IdsIdentify(RoleRows(seeds)) && IdsUnused(c.roles, RoleRows(seeds))
    && IdsIdentify(CapabilityRows(seeds)) && IdsUnused(c.capabilities, CapabilityRows(seeds))
  }

  /**
   Success means the seeds are really there: with child identifiers distinct and new, every (seed, role) and
   (seed, capability) pair is present, and so is the policy of every seed that has a child.
   */
  lemma SuccessMeansPresence(c: Catalog, seeds: seq<SeedPolicy>)
    requires ValidCatalog(c) && ChildrenFresh(c, seeds)
    requires Grow(c, Program(seeds)).Some?
    ensures var after := Grow(c, Program(seeds)).value;
            forall s | s in seeds ::
              && (forall r | r in s.roles :: Requires(after.roles, s.id, r.name))
              && (forall r | r in s.capabilities :: Requires(after.capabilities, s.id, r.name))
              && (s.roles + s.capabilities != [] ==> HasPolicy(after.policies, s.id))
  {
    var after := Grow(c, Program(seeds)).value;
    SeedsAreThereOrTaken(c, seeds);
    GrowKeepsValid(c, Program(seeds));
    forall s | s in seeds
      ensures forall r | r in s.roles :: Requires(after.roles, s.id, r.name)
      ensures forall r | r in s.capabilities :: Requires(after.capabilities, s.id, r.name)
      ensures s.roles + s.capabilities != [] ==> HasPolicy(after.policies, s.id)
    {
      forall r | r in s.roles ensures Requires(after.roles, s.id, r.name) {
        var row := ChildRow(s.id, r);
        assert row in RoleRows(seeds);
        var hit :| hit in after.roles && RequirementClash(hit, row);
        assert hit.policyId == s.id && hit.name == r.name;
      }
      forall r | r in s.capabilities ensures Requires(after.capabilities, s.id, r.name) {
        var row := ChildRow(s.id, r);
        assert row in CapabilityRows(seeds);
        var hit :| hit in after.capabilities && RequirementClash(hit, row);
        assert hit.policyId == s.id && hit.name == r.name;
      }
      if s.roles != [] {
        assert Requires(after.roles, s.id, s.roles[0].name);
      } else if s.capabilities != [] {
        assert Requires(after.capabilities, s.id, s.capabilities[0].name);
      }
    }
  }

  /** Some seed of the list gives the policy that role. */
  ghost predicate AsksRole(seeds: seq<SeedPolicy>, id: string, name: string) {
    exists s, r | s in seeds && r in s.roles :: s.id == id && r.name == name
  }

  ghost predicate AsksCapability(seeds: seq<SeedPolicy>, id: string, name: string) {
    exists s, r | s in seeds && r in s.capabilities :: s.id == id && r.name == name
  }

  lemma NamesAfter(before: seq<RequirementRow>, after: seq<RequirementRow>, rows: set<RequirementRow>, id: string)
    requires Unique(RequirementClash, before) && Unique(RequirementClash, after)
    requires forall row | row in before :: row in after
    requires forall row | row in after :: row in before || row in rows
    requires forall row | row in rows :: Requires(after, row.policyId, row.name)
    ensures forall x :: x in NamesOf(after, id) <==>
                        x in NamesOf(before, id) || exists row | row in rows :: row.policyId == id && row.name == x
  {
    NamesOfMembers(before, id);
    NamesOfMembers(after, id);
  }

  /** What a policy requires after seeding: what it required before, and what the list gives it. */
  lemma SeededNames(c: Catalog, seeds: seq<SeedPolicy>, id: string)
    requires ValidCatalog(c) && ChildrenFresh(c, seeds) && Grow(c, Program(seeds)).Some?
    ensures var after := Grow(c, Program(seeds)).value;
            && (forall x :: x in NamesOf(after.roles, id) <==> x in NamesOf(c.roles, id) || AsksRole(seeds, id, x))
            && (forall x :: x in NamesOf(after.capabilities, id) <==>
                            x in NamesOf(c.capabilities, id) || AsksCapability(seeds, id, x))
  {
    var after := Grow(c, Program(seeds)).value;
    var added := GrowSettles(c, Program(seeds));
    GrowKeepsValid(c, Program(seeds));
    SeedsAreThereOrTaken(c, seeds);
    SuccessMeansPresence(c, seeds);
    NamesAfter(c.roles, after.roles, RoleRows(seeds), id);
    NamesAfter(c.capabilities, after.capabilities, CapabilityRows(seeds), id);
    AsksAreRows(seeds, id);
  }

  lemma AsksAreRows(seeds: seq<SeedPolicy>, id: string)
    ensures forall x :: AsksRole(seeds, id, x) <==> exists row | row in RoleRows(seeds) :: row.policyId == id && row.name == x
    ensures forall x :: AsksCapability(seeds, id, x) <==>
                        exists row | row in CapabilityRows(seeds) :: row.policyId == id && row.name == x
  {
    forall x | AsksRole(seeds, id, x)
      ensures exists row | row in RoleRows(seeds) :: row.policyId == id && row.name == x
    {
      var s, r :| s in seeds && r in s.roles && s.id == id && r.name == x;
      assert ChildRow(s.id, r) in RoleRows(seeds);
    }
    forall x | AsksCapability(seeds, id, x)
      ensures exists row | row in CapabilityRows(seeds) :: row.policyId == id && row.name == x
    {
      var s, r :| s in seeds && r in s.capabilities && s.id == id && r.name == x;
      assert ChildRow(s.id, r) in CapabilityRows(seeds);
    }
  }

  /** A route held by a policy with another identifier keeps the seed's own policy out. */
  lemma TakenRouteKeepsPolicyOut(c: Catalog, seeds: seq<SeedPolicy>, s: SeedPolicy, holder: PolicyRow)
    requires ValidCatalog(c) && Grow(c, Program(seeds)).Some?
    requires forall t | t in seeds && t.id == s.id :: t.key == s.key
    requires holder in c.policies && holder.key == s.key && !HasPolicy(c.policies, s.id)
    ensures !HasPolicy(Grow(c, Program(seeds)).value.policies, s.id)
  {
    var after := Grow(c, Program(seeds)).value;
    SeedsAreThereOrTaken(c, seeds);
    GrowKeepsValid(c, Program(seeds));
    var added := GrowSettles(c, Program(seeds));
    assert holder in after.policies;
    forall q | q in after.policies ensures q.id == s.id ==> q == holder {
      UniqueMembers(PolicyClash, after.policies, q, holder);
    }
  }

  /**
   A seed whose route is taken by a policy with another identifier is skipped silently, but its first child
   then fails the foreign key: the whole run fails, in every environment.
   */
  lemma TakenRouteFailsTheRun(db: Db, seeds: seq<SeedPolicy>, s: SeedPolicy, holder: PolicyRow, env: Env)
    requires ValidCatalog(db.catalog) && ChildrenFresh(db.catalog, seeds)
    requires s in seeds && s.roles + s.capabilities != []
    requires forall t | t in seeds && t.id == s.id :: t.key == s.key
    requires holder in db.catalog.policies && holder.key == s.key && !HasPolicy(db.catalog.policies, s.id)
    ensures SeedRun(db, seeds, env).None?
  {
    if SeedRun(db, seeds, env).Some? {
      var rows := RunAdds(Progress(db, ZERO, false), Program(seeds), env);
      TakenRouteKeepsPolicyOut(db.catalog, seeds, s, holder);
      SuccessMeansPresence(db.catalog, seeds);
    }
  }

  // ---------- order and repetition ----------

  /** Rows of the list that clash are equal; exact repetitions are allowed. */
  ghost predicate WellFormed(seeds: seq<SeedPolicy>) {
    && (forall a, b | a in PolicyRows(seeds) && b in PolicyRows(seeds) && PolicyClash(a, b) :: a == b)
    && (forall a, b | a in RoleRows(seeds) && b in RoleRows(seeds) && RequirementClash(a, b) :: a == b)
    && (forall a, b | a in CapabilityRows(seeds) && b in CapabilityRows(seeds) && RequirementClash(a, b) :: a == b)
  }

  function Elements<T(==)>(table: seq<T>): set<T> {
    set row | row in table
  }

  /** The policy tables hold exactly the rows of the list. */
  ghost predicate HoldsExactly(c: Catalog, seeds: seq<SeedPolicy>) {
    && Elements(c.policies) == PolicyRows(seeds)
    && Elements(c.roles) == RoleRows(seeds)
    && Elements(c.capabilities) == CapabilityRows(seeds)
  }

  /** From empty policy tables a successful run leaves exactly the rows of the list. */
  lemma SeedingFromEmpty(seeds: seq<SeedPolicy>)
    requires WellFormed(seeds)
    requires Grow(NO_CATALOG, Program(seeds)).Some?
    ensures HoldsExactly(Grow(NO_CATALOG, Program(seeds)).value, seeds)
  {
    var after := Grow(NO_CATALOG, Program(seeds)).value;
    SeedsAreThereOrTaken(NO_CATALOG, seeds);
    forall p | p in PolicyRows(seeds) ensures p in after.policies {
      var hit :| hit in after.policies && PolicyClash(hit, p);
      assert hit == p;
    }
    forall row | row in RoleRows(seeds) ensures row in after.roles {
      var hit :| hit in after.roles && RequirementClash(hit, row);
      assert hit == row;
    }
    forall row | row in CapabilityRows(seeds) ensures row in after.capabilities {
      var hit :| hit in after.capabilities && RequirementClash(hit, row);
      assert hit == row;
    }
  }

  /** The same column by column: one row per seed and per child, with the columns of the list, and no other. */
  lemma HoldsExactlyMeans(c: Catalog, seeds: seq<SeedPolicy>)
    requires HoldsExactly(c, seeds)
    ensures forall p :: p in c.policies <==>
              exists s | s in seeds :: p == PolicyRow(s.id, s.key, s.effect, s.status, s.description)
    ensures forall row :: row in c.roles <==>
              exists s, r | s in seeds && r in s.roles :: row == RequirementRow(r.id, s.id, r.name)
    ensures forall row :: row in c.capabilities <==>
              exists s, r | s in seeds && r in s.capabilities :: row == RequirementRow(r.id, s.id, r.name)
  {
    forall p ensures p in c.policies <==> p in PolicyRows(seeds) {
      assert p in c.policies <==> p in Elements(c.policies);
    }
    forall row ensures row in c.roles <==> row in RoleRows(seeds) {
      assert row in c.roles <==> row in Elements(c.roles);
    }
    forall row ensures row in c.capabilities <==> row in CapabilityRows(seeds) {
      assert row in c.capabilities <==> row in Elements(c.capabilities);
    }
  }

  lemma SeededIsSettled(c: Catalog, seeds: seq<SeedPolicy>)
    requires ValidCatalog(c) && HoldsExactly(c, seeds)
    ensures forall s | s in Program(seeds) :: Settled(c, s)
  {
    forall stmt | stmt in Program(seeds) ensures Settled(c, stmt) {
      ProgramRows(seeds, stmt);
      match stmt
      case InsertPolicy(s) => assert PolicyRowOf(s) in PolicyRows(seeds);
      case InsertSeedEvent(s) =>
      case InsertRole(row) => assert RequirementClash(row, row);
      case InsertCapability(row) => assert RequirementClash(row, row);
    }
  }

  lemma PermutationHasSameRows(a: seq<SeedPolicy>, b: seq<SeedPolicy>)
    requires multiset(a) == multiset(b)
    ensures PolicyRows(a) == PolicyRows(b) && RoleRows(a) == RoleRows(b) && CapabilityRows(a) == CapabilityRows(b)
    ensures WellFormed(a) <==> WellFormed(b)
  {
    assert forall s :: s in a <==> s in multiset(a);
    assert forall s :: s in b <==> s in multiset(b);
    assert forall s :: s in a <==> s in b;
  }

  datatype Call = Call(seeds: seq<SeedPolicy>, env: Env)

  /** Calls made one after another: the final database, the summed summaries and whether any call succeeded. */
  function Serve(db: Db, calls: seq<Call>): (Db, Summary, bool) {
    if calls == [] then (db, ZERO, false)
    else
      var (before, total, succeeded) := Serve(db, calls[..|calls| - 1]);
      var run := SeedRun(before, calls[|calls| - 1].seeds, calls[|calls| - 1].env);
      if run.None? then (before, total, succeeded)
      else (run.value.view, AddSummaries(total, run.value.summary), true)
  }

  /**
   Seed order and repetition do not matter: any number of calls, each with any permutation of a well-formed
   list and any failures, leave exactly the list's rows once one has succeeded, and nothing before that; the
   summaries of all calls add up to the growth of the tables.
   */
  lemma {:induction false} OrderAndRepetitionDoNotMatter(db: Db, seeds: seq<SeedPolicy>, calls: seq<Call>)
    requires ValidDb(db) && db.catalog == NO_CATALOG && WellFormed(seeds)
    requires forall call | call in calls :: multiset(call.seeds) == multiset(seeds)
    ensures var (after, total, succeeded) := Serve(db, calls);
            && ValidDb(after)
            && (if succeeded then HoldsExactly(after.catalog, seeds) else after == db)
            && AddSummaries(RowCounts(db), total) == RowCounts(after)
    decreases |calls|
  {
    if calls != [] {
      var k := |calls| - 1;
      var call := calls[k];
      OrderAndRepetitionDoNotMatter(db, seeds, calls[..k]);
      var (before, total, succeeded) := Serve(db, calls[..k]);
      var run := SeedRun(before, call.seeds, call.env);
      assert call in calls;
      PermutationHasSameRows(call.seeds, seeds);
      if run.Some? {
        SeedCountsAreExact(before, call.seeds, call.env);
        if succeeded {
          SeededIsSettled(before.catalog, call.seeds);
          SettledRun(Progress(before, ZERO, false), Program(call.seeds), call.env);
        } else {
          var rows := RunAdds(Progress(before, ZERO, false), Program(call.seeds), call.env);
          SeedingFromEmpty(call.seeds);
        }
      }
    }
  }
}
