/**
 The running system: any number of seeders and authorization requests over one database, interleaved
 statement by statement under read-committed visibility.

 A transaction keeps its rows in a private delta; its own statements see the committed state plus the delta,
 everybody else sees the committed state only. A statement whose row clashes with an uncommitted row of
 another transaction waits. Committing appends the delta; aborting drops it.
 */
module Protocol {
  import opened Text
  import opened PolicyModel
  import opened ExchangeModel
  import opened Audit
  import opened Schema
  import opened Lookup
  import opened Exchange
  import opened Seeding

  datatype Proc =
    | Seeding(pos: nat, pending: bool, delta: Db)
    | Seeded
    | Arrived(job: Job)
    | GotPolicy(job: Job, row: PolicyRow)
    | GotRoles(job: Job, row: PolicyRow, roles: seq<string>)
    | Writing(job: Job, result: AuthorizeResult, written: nat, delta: Db)
    | Answered(job: Job, result: AuthorizeResult)
    | Aborted

  datatype Sys = Sys(db: Db, procs: map<nat, Proc>)

  datatype Action =
    | StartSeeder(pid: nat)
    | StartRequest(pid: nat, job: Job)
    | Step(pid: nat, freshId: string)
    | Abort(pid: nat)

  function Delta(p: Proc): Db {
    if p.Seeding? || p.Writing? then p.delta else NO_ROWS
  }

  predicate Finished(p: Proc) {
    p.Seeded? || p.Answered? || p.Aborted?
  }

  function Put(s: Sys, pid: nat, p: Proc): Sys {
    s.(procs := s.procs[pid := p])
  }

  /** A row of the statement clashes with an uncommitted row of another transaction. */
  ghost predicate Blocked(s: Sys, pid: nat, rows: Db) {
    exists q | q in s.procs && q != pid :: !DbsApart(rows, Delta(s.procs[q]))
  }

  function DecisionRows(result: AuthorizeResult): Db {
    Db(NO_CATALOG, [DecisionRowOf(result.record)], [])
  }

  function EventRows(result: AuthorizeResult, freshId: string): Db {
    Db(NO_CATALOG, [], [EventRowOf(AuditEventForResult(result, freshId), freshId)])
  }

  /** One statement of a seeder. None: the statement waits. */
  ghost function SeederStatement(s: Sys, pid: nat, p: Proc, stmt: Stmt, freshId: string): Option<Sys>
    requires p.Seeding?
  {
    var added := FullEffect(s.db.Plus(p.delta), p.pending, stmt, freshId);
    if added.None? then Some(Put(s, pid, Aborted))
    else if Blocked(s, pid, added.value.rows) then None
    else Some(Put(s, pid, Seeding(p.pos + 1, added.value.pending, p.delta.Plus(added.value.rows))))
  }

  /** The next statement of a seeder, or its commit. */
  ghost function SeederStep(seeds: seq<SeedPolicy>, s: Sys, pid: nat, p: Proc, freshId: string): Option<Sys>
    requires p.Seeding?
  {
    if p.pos >= |Program(seeds)| then Some(Put(Sys(s.db.Plus(p.delta), s.procs), pid, Seeded))
    else SeederStatement(s, pid, p, Program(seeds)[p.pos], freshId)
  }

  /** The decision is made; what is left is to write it. */
  function StartWriting(job: Job, found: LookupResult): Proc {
    var decided := Authorization(job, found);
    if decided.None? then Aborted else Writing(job, decided.value, 0, NO_ROWS)
  }

  /** The three reads of a lookup, each of the state committed at that moment. */
  function ReaderStep(c: Catalog, p: Proc): Proc
    requires p.Arrived? || p.GotPolicy? || p.GotRoles?
  {
    match p
    case Arrived(job) =>
      var row := SelectPolicy(c.policies, LookupKey(job).Normalized());
      if BeforePolicy(job).Early? || row.None? then StartWriting(job, NotFound) else GotPolicy(job, row.value)
    case GotPolicy(job, row) => GotRoles(job, row, NamesOf(c.roles, row.id))
    case GotRoles(job, row, roles) => StartWriting(job, Found(Assemble(row, roles, NamesOf(c.capabilities, row.id))))
  }

  function ReaderMove(s: Sys, pid: nat, p: Proc): Sys
    requires p.Arrived? || p.GotPolicy? || p.GotRoles?
  {
    Put(s, pid, ReaderStep(s.db.catalog, p))
  }

  /** Insert the decision, insert the event, commit. */
  ghost function WriterStep(s: Sys, pid: nat, p: Proc, freshId: string): Option<Sys>
    requires p.Writing?
  {
    var view := s.db.Plus(p.delta);
    if p.written == 0 then
      if !DecisionFits(view, DecisionRowOf(p.result.record)) then Some(Put(s, pid, Aborted))
      else if Blocked(s, pid, DecisionRows(p.result)) then None
      else Some(Put(s, pid, Writing(p.job, p.result, 1, p.delta.Plus(DecisionRows(p.result)))))
    else if p.written == 1 then
      if !EventFits(view, EventRows(p.result, freshId).outbox[0]) then Some(Put(s, pid, Aborted))
      else if Blocked(s, pid, EventRows(p.result, freshId)) then None
      else Some(Put(s, pid, Writing(p.job, p.result, 2, p.delta.Plus(EventRows(p.result, freshId)))))
    else Some(Put(Sys(view, s.procs), pid, Answered(p.job, p.result)))
  }

  /** One action of the whole system; None when it is not enabled. */
  ghost function Next(seeds: seq<SeedPolicy>, s: Sys, a: Action): Option<Sys> {
    match a
    case StartSeeder(pid) => if pid in s.procs then None else Some(Put(s, pid, Seeding(0, false, NO_ROWS)))
    case StartRequest(pid, job) => if pid in s.procs then None else Some(Put(s, pid, Arrived(job)))
    case Abort(pid) => if pid !in s.procs || Finished(s.procs[pid]) then None else Some(Put(s, pid, Aborted))
    case Step(pid, freshId) =>
      if pid !in s.procs || Finished(s.procs[pid]) then None
      else
        var p := s.procs[pid];
        if p.Seeding? then SeederStep(seeds, s, pid, p, freshId)
        else if p.Writing? then WriterStep(s, pid, p, freshId)
        else Some(ReaderMove(s, pid, p))
  }

  /** The state after a sequence of actions; None when one of them was not enabled. Every interleaving is such a sequence. */
  ghost function Reach(seeds: seq<SeedPolicy>, start: Db, actions: seq<Action>): Option<Sys> {
    if actions == [] then Some(Sys(start, map[]))
    else
      var n := |actions| - 1;
      var s := Reach(seeds, start, actions[..n]);
      if s.None? then None else Next(seeds, s.value, actions[n])
  }

  /** What a step makes of a process, leaving out what it does to the database. */
  ghost predicate Moved(c: Catalog, p: Proc, p': Proc) {
    || p'.Seeding? || p'.Seeded? || p'.Aborted?
    || (p.Writing? && (p'.Writing? || p'.Answered?) && p'.job == p.job && p'.result == p.result)
    || ((p.Arrived? || p.GotPolicy? || p.GotRoles?) && p' == ReaderStep(c, p))
  }

  /** An action concerns one process. */
  lemma OneProcessMoves(seeds: seq<SeedPolicy>, s: Sys, a: Action)
    requires Next(seeds, s, a).Some?
    ensures var s' := Next(seeds, s, a).value;
            && a.pid in s'.procs && s'.procs == s.procs[a.pid := s'.procs[a.pid]]
            && (a.Step? ==> a.pid in s.procs && Moved(s.db.catalog, s.procs[a.pid], s'.procs[a.pid]))
            && (!a.Step? ==> s'.procs[a.pid].Seeding? || s'.procs[a.pid].Arrived? || s'.procs[a.pid].Aborted?)
  {
  }
}
