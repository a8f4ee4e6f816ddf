/** INSERT statements in the durable database: the log holds their text, and running the text again does what the
    statement did. */
module DurableSql {
  import opened Wrappers
  import opened Bytes
  import opened Values
  import opened SqlAst
  import opened SqlTypes
  import opened Conflicts
  import opened StoredTable
  import opened Inserts
  import opened SqlInserts
  import opened WalCodec
  import opened WalLog
  import opened Durability
  import opened SnapshotCatalog
  import opened CatalogDemands
  import opened DurableTables

  /** The texts that are one INSERT statement. */
  type Parser = string -> Option<InsertStatement>

  /** The statement on the table it names. */
  ghost function SqlInsertInto(catalog: Catalog, s: InsertStatement, m: Machine): Result<(Catalog, nat)> {
    var key := ObjectName(s.table);
    if key !in catalog || !AllFit(catalog[key].columns, catalog[key].rows) then Failure(ColumnNotFound)
    else
      var t := catalog[key];
      var outcome :- SqlInserted(t.columns, t.rows, KeyMapsOf(t), s, m);
      Success((catalog[key := t.(rows := outcome.0)], outcome.1))
  }

  /** Statements, of which INSERT is run as modelled, and the others as they may. */
  ghost function WithInserts(parse: Parser, others: Statements, m: Machine): Statements {
    (sql: string, catalog: Catalog) =>
      if parse(sql).None? then others(sql, catalog)
      else
        match SqlInsertInto(catalog, parse(sql).value, m)
        case Failure(_) => ExecError
        case Success(outcome) => ExecDone(outcome.0, if outcome.1 > 0 then 1 else 0)
  }

  lemma ZeroSqlInsert(catalog: Catalog, s: InsertStatement, m: Machine)
    ensures var r := SqlInsertInto(catalog, s, m); r.Success? && r.value.1 == 0 ==> r.value.0 == catalog
  {
    hide SqlInserted, AllFit, MapsOf;
    var r := SqlInsertInto(catalog, s, m);
    if r.Success? {
      var t := catalog[ObjectName(s.table)];
      NoneAffected(t.columns, t.rows, KeyMapsOf(t), s, m);
    }
  }

  lemma InsertsAreHonest(parse: Parser, others: Statements, m: Machine)
    requires HonestStatements(others)
    ensures HonestStatements(WithInserts(parse, others, m))
  {
    hide SqlInsertInto;
    forall sql: string, catalog: Catalog
      ensures var r := WithInserts(parse, others, m)(sql, catalog); r.ExecDone? && Bump(0, r.marks) == 0 ==> r.catalog == catalog
    {
      if parse(sql).Some? {
        ZeroSqlInsert(catalog, parse(sql).value, m);
      }
    }
  }

  /** An INSERT on a stored table, with its key maps, is the catalog's. */
  lemma LiveSqlInsert(catalog: Catalog, s: InsertStatement, maps: KeyMaps, m: Machine)
    requires ObjectName(s.table) in catalog
    requires var t := catalog[ObjectName(s.table)]; AllFit(t.columns, t.rows) && MapsOf(maps, t)
    ensures var t := catalog[ObjectName(s.table)];
      match SqlInserted(t.columns, t.rows, maps, s, m)
      case Failure(e) => SqlInsertInto(catalog, s, m) == Failure(e)
      case Success((rows, n)) =>
        SqlInsertInto(catalog, s, m) == Success((catalog[ObjectName(s.table) := t.(rows := rows)], n))
  {
    hide SqlInserted, AllFit, MapsOf, ObjectName;
    MapsDetermined(catalog[ObjectName(s.table)], maps);
  }

  /** The text in the log is read back, and running it commits what the live statement did. */
  lemma SqlLiveEqualsReplay(
      parse: Parser, others: Statements, m: Machine, catalog: Catalog, sql: string, sequence: u64)
    requires parse(sql).Some? && Loggable(Sql(sql))
    requires SqlInsertInto(catalog, parse(sql).value, m).Success? && SqlInsertInto(catalog, parse(sql).value, m).value.1 > 0
    ensures DecodeRecord(Body(sequence, Sql(sql))) == Success(RecoveryRecord(sequence, Sql(sql)))
    ensures var sys := TableSystem(WithInserts(parse, others, m), m);
      && Commits(sys, Sql(sql), catalog)
      && sys.exec(Sql(sql), catalog).catalog == SqlInsertInto(catalog, parse(sql).value, m).value.0
  {
    hide SqlInsertInto, Loggable, DecodeRecord, Body;
    DecodeEncodedRecord(sequence, Sql(sql));
  }

  /** An acknowledged INSERT survives stopping the process and opening again, with exactly its rows. */
  lemma AcknowledgedStatementSurvives(
      parse: Parser, others: Statements, m: Machine, s: State<Catalog>, live: Live<Catalog>, sql: string)
    requires HonestStatements(others) && parse(sql).Some? && Appendable(Sql(sql))
    requires Inv(TableSystem(WithInserts(parse, others, m), m), s) && s.process == Up(live, Idle) && !live.failed
    requires SqlInsertInto(live.catalog, parse(sql).value, m).Success?
    requires SqlInsertInto(live.catalog, parse(sql).value, m).value.1 > 0
    requires CatalogLoadable(s.snapshot.catalog) && AllWithinCaps(s.history) && |s.history| + 2 < U64_LIMIT
    ensures live.sequence + 1 < U64_LIMIT
    ensures
      var sys := TableSystem(WithInserts(parse, others, m), m);
      var stopped := Run(sys, s, Committing(live.sequence + 1, Sql(sql)) + [Crash]);
      var reopened := Run(sys, stopped, Reopening(stopped));
      && reopened.process.Up?
      && reopened.process.live.catalog == SqlInsertInto(live.catalog, parse(sql).value, m).value.0
      && reopened.history == s.history + [Sql(sql)]
  {
    hide Inv, Run, Appendable, Commits, Reopening, Committing, TableSystem, SqlInsertInto, CatalogLoadable, WithInserts;
    var statements := WithInserts(parse, others, m);
    var sys := TableSystem(statements, m);
    InsertsAreHonest(parse, others, m);
    TablesAreHonest(statements, m);
    UpIsLive(sys, s);
    LiveSequence(sys, s);
    AppendableIsLoggable(Sql(sql));
    SqlLiveEqualsReplay(parse, others, m, live.catalog, sql, live.sequence + 1);
    LoadsMeans(statements, m, s.snapshot);
    CommitSurvives(sys, s, live, Sql(sql));
  }

  lemma AppendableIsLoggable(op: WalOperation)
    requires Appendable(op)
    ensures Loggable(op)
  {
  }
}
