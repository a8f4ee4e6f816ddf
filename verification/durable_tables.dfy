/** The step machine with tables in its catalog: an acknowledged insert survives a crash with the very effect it
    had when it was made. */
module DurableTables {
  import opened Wrappers
  import opened Values
  import opened SqlTypes
  import opened Indexes
  import opened Conflicts
  import opened StoredTable
  import opened Inserts
  import opened WalCodec
  import opened WalLog
  import opened Durability
  import opened SnapshotCatalog
  import opened SnapshotCodec
  import opened CatalogDemands

  /** The tables as values: what recovery must bring back. Buckets and key maps follow from them. */
  type Catalog = map<string, TableData>

  /** A statement is any deterministic function of the catalog. */
  type Statements = (string, Catalog) -> ExecResult<Catalog>

  ghost predicate MapsOf(maps: KeyMaps, r: TableData) {
    MapsFit(maps, r.rows) && MapsComplete(maps, r.columns)
  }

  /** The unique-key maps of a table, which its rows determine. */
  ghost function KeyMapsOf(r: TableData): KeyMaps {
    if exists maps :: MapsOf(maps, r) then
      var maps :| MapsOf(maps, r);
      maps
    else map[]
  }

  lemma MapsDetermined(r: TableData, maps: KeyMaps)
    requires MapsOf(maps, r)
    ensures maps == KeyMapsOf(r)
  {
    hide IsUniqueMap, UniqueAt;
    var others := KeyMapsOf(r);
    assert MapsOf(others, r);
    forall c: nat
      ensures c in maps <==> c in others
      ensures c in maps && c in others ==> maps[c] == others[c]
    {
      if c in maps {
        UniqueMapDetermined(maps[c], others[c], Cells(r.rows, c));
      }
    }
  }

  /** An insert into one table of the catalog, by its name in any case. */
  ghost function InsertInto(
      catalog: Catalog, name: string, batch: seq<Row>, conflict: InsertConflict, m: Machine): Result<(Catalog, nat)>
  {
    var key := NormalizeName(name);
    if key !in catalog || !AllFit(catalog[key].columns, catalog[key].rows) then Failure(ColumnNotFound)
    else
      var t := catalog[key];
      var outcome :- TypedInsert(t.columns, t.rows, KeyMapsOf(t), batch, conflict, m);
      Success((catalog[key := t.(rows := outcome.0)], outcome.1))
  }

  /** How recovery runs a logged operation; an insert marks the catalog as changed when it affects a row. */
  ghost function Exec(statements: Statements, m: Machine, op: WalOperation, catalog: Catalog): ExecResult<Catalog> {
    match op
    case Sql(sql) => statements(sql, catalog)
    case InsertRows(name, rows, conflict) =>
      match InsertInto(catalog, name, rows, conflict, m)
      case Failure(_) => ExecError
      case Success(outcome) => ExecDone(outcome.0, if outcome.1 > 0 then 1 else 0)
  }

  /** The snapshot format can hold the catalog. */
  ghost predicate Saves(snapshot: Snapshot<Catalog>) {
    exists image :: Depicts(image, CatalogData(snapshot.catalog, snapshot.sequence)) && Writable(image)
  }

  ghost function TableSystem(statements: Statements, m: Machine): System<Catalog> {
    System((op, catalog) => Exec(statements, m, op, catalog), map[],
           (snapshot: Snapshot<Catalog>) => Saves(snapshot),
           (snapshot: Snapshot<Catalog>) => CatalogLoadable(snapshot.catalog))
  }

  /** A statement that marks nothing as changed changes nothing. */
  ghost predicate HonestStatements(statements: Statements) {
    forall sql, catalog ::
      var r := statements(sql, catalog);
      r.ExecDone? && Bump(0, r.marks) == 0 ==> r.catalog == catalog
  }

  /** An insert that affects nothing changes nothing, so the machine's assumption holds for inserts. */
  lemma TablesAreHonest(statements: Statements, m: Machine)
    requires HonestStatements(statements)
    ensures Honest(TableSystem(statements, m))
  {
    hide InsertInto;
    var sys := TableSystem(statements, m);
    forall op, catalog | sys.exec(op, catalog).ExecDone? && !Commits(sys, op, catalog)
      ensures sys.exec(op, catalog).catalog == catalog
    {
      if op.InsertRows? {
        ZeroInsert(catalog, op.table, op.rows, op.conflict, m);
      }
    }
  }

  lemma ZeroInsert(catalog: Catalog, name: string, batch: seq<Row>, conflict: InsertConflict, m: Machine)
    ensures var r := InsertInto(catalog, name, batch, conflict, m);
      r.Success? && r.value.1 == 0 ==> r.value.0 == catalog
  {
    hide Inserted, PrepareRows, ResolvePlan, AllFit, MapsOf, PlanFits;
    var r := InsertInto(catalog, name, batch, conflict, m);
    if r.Success? {
      var t := catalog[NormalizeName(name)];
      var plan := ResolvePlan(t.columns, conflict).value;
      ZeroMeansUnchanged(t.columns, t.rows, KeyMapsOf(t), PrepareRows(t.columns, batch, m).value, plan);
    }
  }

  lemma NormalizeTwice(name: string)
    ensures NormalizeName(NormalizeName(name)) == NormalizeName(name)
  {
  }

  /** What a live insert writes to the log. */
  function InsertRecord(catalog: Catalog, name: string, batch: seq<Row>, conflict: InsertConflict, m: Machine): WalOperation
    requires NormalizeName(name) in catalog && PrepareRows(catalog[NormalizeName(name)].columns, batch, m).Success?
  {
    Logged(NormalizeName(name), catalog[NormalizeName(name)].columns, batch, conflict, m)
  }

  lemma InsertPrepares(catalog: Catalog, name: string, batch: seq<Row>, conflict: InsertConflict, m: Machine)
    requires InsertInto(catalog, name, batch, conflict, m).Success?
    ensures NormalizeName(name) in catalog && PrepareRows(catalog[NormalizeName(name)].columns, batch, m).Success?
  {
  }

  /** The logged record stands for the insert as the caller made it: executing it commits the same catalog. */
  lemma RecordCommits(
      statements: Statements, catalog: Catalog, name: string, batch: seq<Row>, conflict: InsertConflict, m: Machine)
    requires InsertInto(catalog, name, batch, conflict, m).Success?
    requires InsertInto(catalog, name, batch, conflict, m).value.1 > 0
    ensures NormalizeName(name) in catalog && PrepareRows(catalog[NormalizeName(name)].columns, batch, m).Success?
    ensures var op := InsertRecord(catalog, name, batch, conflict, m);
      && Commits(TableSystem(statements, m), op, catalog)
      && TableSystem(statements, m).exec(op, catalog).catalog == InsertInto(catalog, name, batch, conflict, m).value.0
  {
    hide Inserted, PrepareRows, ResolvePlan, AllFit, MapsOf, PlanFits, NormalizeName;
    InsertPrepares(catalog, name, batch, conflict, m);
    NormalizeTwice(name);
    PrepareTwice(catalog[NormalizeName(name)].columns, batch, m);
  }

  /** A live insert into a stored table has the effect the catalog's insert specifies. */
  lemma LiveTableInsert(catalog: Catalog, name: string, maps: KeyMaps, batch: seq<Row>, conflict: InsertConflict, m: Machine)
    requires NormalizeName(name) in catalog
    requires var t := catalog[NormalizeName(name)]; AllFit(t.columns, t.rows) && MapsOf(maps, t)
    ensures var t := catalog[NormalizeName(name)];
      match TypedInsert(t.columns, t.rows, maps, batch, conflict, m)
      case Failure(e) => InsertInto(catalog, name, batch, conflict, m) == Failure(e)
      case Success((rows, n)) =>
        InsertInto(catalog, name, batch, conflict, m) == Success((catalog[NormalizeName(name) := t.(rows := rows)], n))
  {
    hide Inserted, PrepareRows, ResolvePlan, AllFit, MapsOf, PlanFits, NormalizeName;
    MapsDetermined(catalog[NormalizeName(name)], maps);
  }

  /** An acknowledged insert survives: stop the process at once, and reopening brings back the catalog with the
      rows that the insert produced, provided the reader takes the last snapshot and the logged records. */
  lemma AcknowledgedInsertSurvives(
      statements: Statements, m: Machine, s: State<Catalog>, live: Live<Catalog>,
      name: string, batch: seq<Row>, conflict: InsertConflict)
    requires HonestStatements(statements)
    requires Inv(TableSystem(statements, m), s) && s.process == Up(live, Idle) && !live.failed
    requires InsertInto(live.catalog, name, batch, conflict, m).Success?
    requires InsertInto(live.catalog, name, batch, conflict, m).value.1 > 0
    requires CatalogLoadable(s.snapshot.catalog) && AllWithinCaps(s.history) && |s.history| + 2 < U64_LIMIT
    ensures live.sequence + 1 < U64_LIMIT
    ensures NormalizeName(name) in live.catalog
    ensures PrepareRows(live.catalog[NormalizeName(name)].columns, batch, m).Success?
    ensures
      var sys, op := TableSystem(statements, m), InsertRecord(live.catalog, name, batch, conflict, m);
      Appendable(op) && WithinCaps(op) ==>
        var stopped := Run(sys, s, Committing(live.sequence + 1, op) + [Crash]);
        var reopened := Run(sys, stopped, Reopening(stopped));
        && reopened.process.Up?
        && reopened.process.live.catalog == InsertInto(live.catalog, name, batch, conflict, m).value.0
        && reopened.history == s.history + [op]
  {
    hide Inv, Run, Appendable, Commits, WithinCaps, Reopening, Committing, TableSystem, InsertInto, NormalizeName, PrepareRows;
    var sys := TableSystem(statements, m);
    TablesAreHonest(statements, m);
    UpIsLive(sys, s);
    LiveSequence(sys, s);
    RecordCommits(statements, live.catalog, name, batch, conflict, m);
    var op := InsertRecord(live.catalog, name, batch, conflict, m);
    if Appendable(op) && WithinCaps(op) {
      LoadsMeans(statements, m, s.snapshot);
      CommitSurvives(sys, s, live, op);
    }
  }

  lemma LoadsMeans(statements: Statements, m: Machine, snapshot: Snapshot<Catalog>)
    ensures TableSystem(statements, m).loads(snapshot) <==> CatalogLoadable(snapshot.catalog)
  {
  }

  /** A committed operation is there after a stop and a reopening. */
  lemma CommitSurvives<C(!new)>(sys: System<C>, s: State<C>, live: Live<C>, op: WalOperation)
    requires Honest(sys) && Inv(sys, s) && s.process == Up(live, Idle) && !live.failed
    requires live.sequence == |s.history| && |s.history| + 2 < U64_LIMIT
    requires Appendable(op) && Commits(sys, op, live.catalog)
    requires sys.loads(s.snapshot) && WithinCaps(op) && AllWithinCaps(s.history)
    ensures var stopped := Run(sys, s, Committing(live.sequence + 1, op) + [Crash]);
      var reopened := Run(sys, stopped, Reopening(stopped));
      && reopened.process.Up?
      && reopened.process.live.catalog == sys.exec(op, live.catalog).catalog
      && reopened.history == s.history + [op]
  {
    hide Inv, Run, Frame, Appendable, Commits, WithinCaps, Next, Reopening, Replay, Committing, Frames, Header;
    var steps := Committing(live.sequence + 1, op);
    UpIsLive(sys, s);
    CommitRun(sys, s, live, op);
    RunConcat(sys, s, steps, [Crash]);
    var done := Run(sys, s, steps);
    RunOne(sys, done, Crash);
    var stopped := Run(sys, s, steps + [Crash]);
    RunKeepsInv(sys, s, steps + [Crash]);
    RunKeepsInv(sys, s, steps);
    CrashOutcome(sys, done);
    IdleLogIsLong(sys, s);
    var base, ops := ReopenStopped(sys, stopped);
    assert ops == stopped.history;
    assert AllWithinCaps(ops[base..]);
    UpIsLive(sys, done);
  }
}
