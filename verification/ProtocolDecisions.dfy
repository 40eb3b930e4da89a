/** What decisions are based on, over every interleaving of requests and seeders. */
module ProtocolDecisions {
  import opened Text
  import opened Normalization
  import opened PolicyModel
  import opened ExchangeModel
  import opened Audit
  import opened Schema
  import opened Evaluator
  import opened Lookup
  import opened Collecting
  import opened Exchange
  import opened ExchangeTheorems
  import opened ExchangeRecords
  import opened Seeding
  import opened SeedingTheorems
  import opened SeededContents
  import opened Protocol
  import opened ProtocolSafety
  import opened ProtocolCatalog

  // ---------- which states a lookup has seen ----------

  /** The last k of the three reads saw the new state, the others the old one. */
  function ReadsSeen(c0: Catalog, now: Catalog, k: nat): Reads {
    Reads(if k >= 3 then now else c0, if k >= 2 then now else c0, if k >= 1 then now else c0, false, false, false)
  }

  ghost predicate DecidedFrom(c0: Catalog, now: Catalog, job: Job, result: AuthorizeResult) {
    exists k | 0 <= k <= 3 :: Authorization(job, LookupOf(ReadsSeen(c0, now, k), LookupKey(job))) == Some(result)
  }

  function RowIn(c: Catalog, job: Job): Option<PolicyRow> {
    SelectPolicy(c.policies, LookupKey(job).Normalized())
  }

  ghost predicate ReadSoFar(c0: Catalog, now: Catalog, p: Proc) {
    match p
    case GotPolicy(job, row) =>
      && BeforePolicy(job).AskPolicy?
      && (RowIn(c0, job) == Some(row) || RowIn(now, job) == Some(row))
    case GotRoles(job, row, roles) =>
      && BeforePolicy(job).AskPolicy?
      && (|| (RowIn(c0, job) == Some(row) && roles == NamesOf(c0.roles, row.id))
          || (RowIn(c0, job) == Some(row) && roles == NamesOf(now.roles, row.id))
          || (RowIn(now, job) == Some(row) && roles == NamesOf(now.roles, row.id)))
    case Writing(job, result, _, _) => DecidedFrom(c0, now, job, result)
    case Answered(job, result) => DecidedFrom(c0, now, job, result)
    case _ => true
  }

  ghost predicate AllRead(c0: Catalog, s: Sys) {
    forall p | p in s.procs :: ReadSoFar(c0, s.db.catalog, s.procs[p])
  }

  /** While the tables are unchanged a read of them counts as one of the old state. */
  lemma ReadSoFarPersists(c0: Catalog, now: Catalog, later: Catalog, p: Proc)
    requires ReadSoFar(c0, now, p) && (now == c0 || later == now)
    ensures ReadSoFar(c0, later, p)
  {
    if now == c0 && (p.Writing? || p.Answered?) {
      var k :| 0 <= k <= 3 && Authorization(p.job, LookupOf(ReadsSeen(c0, now, k), LookupKey(p.job))) == Some(p.result);
      assert ReadsSeen(c0, now, k) == ReadsSeen(c0, later, 0);
    }
  }

  lemma WritingIsDecided(c0: Catalog, now: Catalog, job: Job, found: LookupResult, k: nat)
    requires k <= 3
    requires BeforePolicy(job).Early? || found == LookupOf(ReadsSeen(c0, now, k), LookupKey(job))
    ensures ReadSoFar(c0, now, StartWriting(job, found))
  {
    assert Authorization(job, found) == Authorization(job, LookupOf(ReadsSeen(c0, now, k), LookupKey(job)));
  }

  lemma ReaderStepReads(c0: Catalog, now: Catalog, p: Proc)
    requires p.Arrived? || p.GotPolicy? || p.GotRoles?
    requires ReadSoFar(c0, now, p)
    ensures ReadSoFar(c0, now, ReaderStep(now, p))
  {
    match p
    case Arrived(job) =>
      if BeforePolicy(job).Early? || RowIn(now, job).None? {
        WritingIsDecided(c0, now, job, NotFound, 3);
      }
    case GotPolicy(job, row) =>
    case GotRoles(job, row, roles) =>
      var found := Found(Assemble(row, roles, NamesOf(now.capabilities, row.id)));
      if RowIn(now, job) == Some(row) && roles == NamesOf(now.roles, row.id) {
        WritingIsDecided(c0, now, job, found, 3);
      } else if roles == NamesOf(c0.roles, row.id) {
        WritingIsDecided(c0, now, job, found, 1);
      } else {
        WritingIsDecided(c0, now, job, found, 2);
      }
  }

  /** Tables change only from the starting state, and only once. */
  lemma CatalogStep(seeds: seq<SeedPolicy>, c0: Catalog, s: Sys, a: Action)
    requires TwoStates(seeds, c0, s) && Next(seeds, s, a).Some?
    ensures s.db.catalog == c0 || Next(seeds, s, a).value.db.catalog == s.db.catalog
  {
    PlusNothing(s.db);
    if !(a.Step? && s.procs[a.pid].Seeding?) {
      OthersAreBystanders(seeds, s, a);
    }
  }

  lemma MoverHasRead(c0: Catalog, now: Catalog, p: Proc, p': Proc)
    requires ReadSoFar(c0, now, p) && Moved(now, p, p')
    ensures ReadSoFar(c0, now, p')
  {
    if p.Arrived? || p.GotPolicy? || p.GotRoles? {
      ReaderStepReads(c0, now, p);
    }
  }

  lemma NextKeepsRead(seeds: seq<SeedPolicy>, c0: Catalog, s: Sys, a: Action)
    requires TwoStates(seeds, c0, s) && AllRead(c0, s) && Next(seeds, s, a).Some?
    ensures AllRead(c0, Next(seeds, s, a).value)
  {
    var s' := Next(seeds, s, a).value;
    CatalogStep(seeds, c0, s, a);
    OneProcessMoves(seeds, s, a);
    ReadsKeptByMove(c0, s, s', a.pid, a.Step?);
  }

  lemma ReadsKeptByMove(c0: Catalog, s: Sys, s': Sys, pid: nat, step: bool)
    requires AllRead(c0, s) && (s.db.catalog == c0 || s'.db.catalog == s.db.catalog)
    requires pid in s'.procs && s'.procs == s.procs[pid := s'.procs[pid]]
    requires step ==> pid in s.procs && Moved(s.db.catalog, s.procs[pid], s'.procs[pid])
    requires !step ==> s'.procs[pid].Seeding? || s'.procs[pid].Arrived? || s'.procs[pid].Aborted?
    ensures AllRead(c0, s')
  {
    var now, later := s.db.catalog, s'.db.catalog;
    forall q | q in s'.procs ensures ReadSoFar(c0, later, s'.procs[q]) {
      if q == pid && step {
        MoverHasRead(c0, now, s.procs[pid], s'.procs[pid]);
      }
      ReadSoFarPersists(c0, now, later, s'.procs[q]);
    }
  }

  lemma {:induction false} ReachableRead(seeds: seq<SeedPolicy>, start: Db, actions: seq<Action>)
    requires ValidDb(start) && Reach(seeds, start, actions).Some?
    ensures AllRead(start.catalog, Reach(seeds, start, actions).value)
  {
    if actions != [] {
      var n := |actions| - 1;
      ReachableRead(seeds, start, actions[..n]);
      ReachableTwoStates(seeds, start, actions[..n]);
      NextKeepsRead(seeds, start.catalog, Reach(seeds, start, actions[..n]).value, actions[n]);
    }
  }

  // ---------- torn reads ----------

  /** Seeding gives this policy both a further required role and a further required capability. */
  predicate GainsBoth(c0: Catalog, c1: Catalog, id: string) {
    NamesOf(c0.roles, id) != NamesOf(c1.roles, id) && NamesOf(c0.capabilities, id) != NamesOf(c1.capabilities, id)
  }

  lemma {:induction false} SelectPrefix(t: seq<PolicyRow>, more: seq<PolicyRow>, key: RouteKey)
    requires SelectPolicy(t, key).Some?
    ensures SelectPolicy(t + more, key) == SelectPolicy(t, key)
    decreases |t|
  {
    assert (t + more)[1..] == t[1..] + more;
    if t[0].key != key {
      SelectPrefix(t[1..], more, key);
    }
  }

  /**
   Whatever the interleaving, a lookup gives what one of the two states gives, unless the policy it finds was
   there before seeding and gains both a role and a capability; then exactly the lookup that reads the old
   roles and the new capabilities is torn.
   */
  lemma TornExactlyWhenBothGained(c0: Catalog, added: Catalog, input: RouteKey)
    ensures var c1 := c0.Plus(added);
            var row := SelectPolicy(c0.policies, input.Normalized());
            (forall k | 0 <= k <= 3 ::
               || LookupOf(ReadsSeen(c0, c1, k), input) == LookupOf(Steady(c0), input)
               || LookupOf(ReadsSeen(c0, c1, k), input) == LookupOf(Steady(c1), input))
            <==> row.None? || !GainsBoth(c0, c1, row.value.id)
  {
    var c1 := c0.Plus(added);
    var row := SelectPolicy(c0.policies, input.Normalized());
    if row.Some? {
      SelectPrefix(c0.policies, added.policies, input.Normalized());
    }
    var torn := LookupOf(ReadsSeen(c0, c1, 1), input);
    if row.Some? && GainsBoth(c0, c1, row.value.id) {
      assert torn != LookupOf(Steady(c0), input) && torn != LookupOf(Steady(c1), input);
    } else {
      forall k | 0 <= k <= 3
        ensures || LookupOf(ReadsSeen(c0, c1, k), input) == LookupOf(Steady(c0), input)
                || LookupOf(ReadsSeen(c0, c1, k), input) == LookupOf(Steady(c1), input)
      {
      }
    }
  }

  /**
   The policy that a complete request finds at the start is there already, and seeding gives it both a further
   role and a further capability.
   */
  ghost predicate CanTear(seeds: seq<SeedPolicy>, c0: Catalog, job: Job) {
    && Complete(job) && RowIn(c0, job).Some? && Grow(c0, Program(seeds)).Some?
    && GainsBoth(c0, Grow(c0, Program(seeds)).value, RowIn(c0, job).value.id)
  }

  function ResultOf(p: Proc): AuthorizeResult
    requires p.Writing? || p.Answered?
  {
    p.result
  }

  ghost predicate DecidedInOneState(c0: Catalog, now: Catalog, job: Job, result: AuthorizeResult) {
    || Some(result) == Authorization(job, LookupOf(Steady(c0), LookupKey(job)))
    || Some(result) == Authorization(job, LookupOf(Steady(now), LookupKey(job)))
  }

  lemma OneStateUnlessTorn(seeds: seq<SeedPolicy>, c0: Catalog, now: Catalog, job: Job, result: AuthorizeResult)
    requires DecidedFrom(c0, now, job, result) && !CanTear(seeds, c0, job)
    requires now == c0 || Grow(c0, Program(seeds)) == Some(now)
    ensures DecidedInOneState(c0, now, job, result)
  {
    var key := LookupKey(job);
    var k :| 0 <= k <= 3 && Authorization(job, LookupOf(ReadsSeen(c0, now, k), key)) == Some(result);
    if now == c0 {
      assert ReadsSeen(c0, now, k) == Steady(c0);
    } else if BeforePolicy(job).AskPolicy? {
      AsksPolicyIffComplete(job);
      var added := GrowSettles(c0, Program(seeds));
      TornExactlyWhenBothGained(c0, added, key);
      assert k as int in {0, 1, 2, 3};
    }
  }

  /**
   No torn policy reads: in every interleaving with any number of seeders, every decision is the decision of
   one single state of the policy tables, the starting one or the current one, unless the policy that this
   very request finds at the start gains both a role and a capability.
   */
  lemma NoTornReads(seeds: seq<SeedPolicy>, start: Db, actions: seq<Action>, pid: nat)
    requires ValidDb(start) && Reach(seeds, start, actions).Some?
    requires var procs := Reach(seeds, start, actions).value.procs;
             && pid in procs && (procs[pid].Writing? || procs[pid].Answered?)
             && !CanTear(seeds, start.catalog, procs[pid].job)
    ensures var s := Reach(seeds, start, actions).value;
            DecidedInOneState(start.catalog, s.db.catalog, s.procs[pid].job, ResultOf(s.procs[pid]))
  {
    var s := Reach(seeds, start, actions).value;
    ReachableRead(seeds, start, actions);
    ReachableTwoStates(seeds, start, actions);
    assert ReadSoFar(start.catalog, s.db.catalog, s.procs[pid]);
    OneStateUnlessTorn(seeds, start.catalog, s.db.catalog, s.procs[pid].job, ResultOf(s.procs[pid]));
  }

  /** Seeds of the list give that policy both a role and a capability that it does not require yet. */
  ghost predicate ListAddsBoth(seeds: seq<SeedPolicy>, c: Catalog, id: string) {
    && (exists x :: AsksRole(seeds, id, x) && x !in NamesOf(c.roles, id))
    && (exists x :: AsksCapability(seeds, id, x) && x !in NamesOf(c.capabilities, id))
  }

  lemma NamesChangeIffNew(before: seq<RequirementRow>, after: seq<RequirementRow>, id: string)
    requires Unique(RequirementClash, before) && Unique(RequirementClash, after)
    requires forall x | x in NamesOf(before, id) :: x in NamesOf(after, id)
    ensures NamesOf(before, id) != NamesOf(after, id) <==>
            exists x :: x in NamesOf(after, id) && x !in NamesOf(before, id)
  {
    NamesOfMembers(before, id);
    NamesOfMembers(after, id);
    if forall x | x in NamesOf(after, id) :: x in NamesOf(before, id) {
      AscendingUnique(NamesOf(before, id), NamesOf(after, id));
    }
  }

  /** With child identifiers distinct and new, who gains both can be read off the list and the starting tables. */
  lemma GainsBothIffListAddsBoth(seeds: seq<SeedPolicy>, c: Catalog, id: string)
    requires ValidCatalog(c) && ChildrenFresh(c, seeds) && Grow(c, Program(seeds)).Some?
    ensures GainsBoth(c, Grow(c, Program(seeds)).value, id) <==> ListAddsBoth(seeds, c, id)
  {
    var after := Grow(c, Program(seeds)).value;
    GrowKeepsValid(c, Program(seeds));
    SeededNames(c, seeds, id);
    NamesChangeIffNew(c.roles, after.roles, id);
    NamesChangeIffNew(c.capabilities, after.capabilities, id);
  }

  // ---------- answers in every reachable state ----------

  /** The result is right in itself, traced to its request, and fit for the decision table. */
  ghost predicate SoundResult(policies: seq<PolicyRow>, job: Job, result: AuthorizeResult) {
    && (forall id :: WellAnswered(result, id)) && result.record.denyReason != UnsupportedPolicyEffect
    && Traced(job, result.record) && Requested(job, result.record) && Mirrored(job, result)
    && DecisionChecks(DecisionRowOf(result.record)) && DecisionReference(policies, DecisionRowOf(result.record))
  }

  lemma DecidedIsSound(c0: Catalog, added: Catalog, job: Job, k: nat)
    requires ValidCatalog(c0) && ValidCatalog(c0.Plus(added)) && k <= 3
    requires Authorization(job, LookupOf(ReadsSeen(c0, c0.Plus(added), k), LookupKey(job))).Some?
    ensures var now := c0.Plus(added);
            SoundResult(now.policies, job, Authorization(job, LookupOf(ReadsSeen(c0, now, k), LookupKey(job))).value)
  {
    var seen := ReadsSeen(c0, c0.Plus(added), k);
    forall id ensures WellAnswered(Authorization(job, LookupOf(seen, LookupKey(job))).value, id) {
      ReasonDeterminesAnswer(job, seen, id);
    }
    ReasonDeterminesAnswer(job, seen, "");
    AnswersAreTraced(job, seen, Authorization(job, LookupOf(seen, LookupKey(job))).value);
    RecordsTellTheRequest(job, seen, Authorization(job, LookupOf(seen, LookupKey(job))).value);
    EveryDecisionIsStorable(job, seen, c0.Plus(added).policies);
  }

  /** The current tables as the starting ones and what seeding has added to them. */
  lemma TablesNow(seeds: seq<SeedPolicy>, start: Db, actions: seq<Action>) returns (added: Catalog)
    requires ValidDb(start) && Reach(seeds, start, actions).Some?
    ensures var now := Reach(seeds, start, actions).value.db.catalog;
            && now == start.catalog.Plus(added) && ValidCatalog(now)
            && (now != start.catalog ==> Grow(start.catalog, Program(seeds)) == Some(now))
  {
    ReachableTwoStates(seeds, start, actions);
    ReachableIsSafe(seeds, start, actions);
    PlusNothing(start);
    added := NO_CATALOG;
    if Reach(seeds, start, actions).value.db.catalog != start.catalog {
      added := GrowSettles(start.catalog, Program(seeds));
    }
  }

  /**
   Over every interleaving: the reason determines the answer, the record is traced to its request, and the row
   meets every CHECK and still refers to a policy that is there, whatever was committed since it was read.
   */
  lemma ReachableAnswersAreSound(seeds: seq<SeedPolicy>, start: Db, actions: seq<Action>, pid: nat)
    requires ValidDb(start) && Reach(seeds, start, actions).Some?
    requires var procs := Reach(seeds, start, actions).value.procs;
             pid in procs && (procs[pid].Writing? || procs[pid].Answered?)
    ensures var s := Reach(seeds, start, actions).value;
            SoundResult(s.db.catalog.policies, s.procs[pid].job, ResultOf(s.procs[pid]))
  {
    var s := Reach(seeds, start, actions).value;
    var p := s.procs[pid];
    var added := TablesNow(seeds, start, actions);
    ReachableRead(seeds, start, actions);
    assert ReadSoFar(start.catalog, s.db.catalog, p);
    var k :| 0 <= k <= 3 &&
             Authorization(p.job, LookupOf(ReadsSeen(start.catalog, s.db.catalog, k), LookupKey(p.job))) == Some(ResultOf(p));
    DecidedIsSound(start.catalog, added, p.job, k);
  }

  /** So in every run a decision insert is rejected exactly when its identifier is taken. */
  lemma OnlyTakenIdentifiersReject(seeds: seq<SeedPolicy>, start: Db, actions: seq<Action>, pid: nat)
    requires ValidDb(start) && Reach(seeds, start, actions).Some?
    requires var procs := Reach(seeds, start, actions).value.procs;
             pid in procs && procs[pid].Writing? && procs[pid].written == 0
    ensures var s := Reach(seeds, start, actions).value;
            var row := DecisionRowOf(ResultOf(s.procs[pid]).record);
            && (!DecisionFits(s.db.Plus(Delta(s.procs[pid])), row) <==> exists d | d in s.db.decisions :: d.id == row.id)
            && row.id == s.procs[pid].job.decisionId
  {
    var s := Reach(seeds, start, actions).value;
    ReachableAnswersAreSound(seeds, start, actions, pid);
    ReachableTwoStates(seeds, start, actions);
    assert Shaped(seeds, s.procs[pid]);
    PlusNothing(s.db);
    assert s.db.Plus(Delta(s.procs[pid])).decisions == s.db.decisions;
    assert s.db.Plus(Delta(s.procs[pid])).catalog == s.db.catalog;
  }
}
