/** The durable database on its two files, byte for byte: saving, stopping anywhere, and opening again. */
module DurableFiles {
  import opened Wrappers
  import opened Bytes
  import opened Values
  import opened WalCodec
  import opened WalLog
  import opened WalFile
  import opened Durability
  import opened Database
  import opened SnapshotCodec
  import opened SnapshotCatalog
  import opened CatalogDemands
  import opened DurableTables
  import SqlTypes

  /** What the snapshot file holds: nothing yet, or the encoding of the catalog that was saved last. */
  ghost predicate SnapshotIs(file: Option<seq<byte>>, snapshot: Snapshot<Catalog>) {
    match file
    case None => snapshot == Snapshot(map[], 0)
    case Some(bytes) => exists image :: FileOf(image, bytes, snapshot)
  }

  ghost predicate FileOf(image: Image, bytes: seq<byte>, snapshot: Snapshot<Catalog>) {
    Depicts(image, CatalogData(snapshot.catalog, snapshot.sequence)) && Writable(image) && bytes == EncodeFile(image)
  }

  /** A system whose snapshots are these files. */
  ghost predicate OnFiles(sys: System<Catalog>) {
    && sys.empty == map[]
    && (forall snapshot: Snapshot<Catalog> :: sys.saves(snapshot) <==> Saves(snapshot))
    && forall snapshot: Snapshot<Catalog> :: sys.loads(snapshot) <==> CatalogLoadable(snapshot.catalog)
  }

  lemma TablesAreOnFiles(statements: Statements, m: SqlTypes.Machine)
    ensures OnFiles(TableSystem(statements, m))
  {
    hide Saves, CatalogLoadable;
  }

  /** In every run there is a file for the snapshot. */
  lemma SnapshotHasFile(sys: System<Catalog>, steps: seq<Step>) returns (file: Option<seq<byte>>)
    requires OnFiles(sys)
    ensures SnapshotIs(file, Run(sys, Init(sys), steps).snapshot)
  {
    hide Run, Init, Depicts, Writable, EncodeFile;
    SnapshotWasSaved(sys, steps);
    var snapshot := Run(sys, Init(sys), steps).snapshot;
    if snapshot == Snapshot(sys.empty, 0) {
      file := None;
    } else {
      var image :| Depicts(image, CatalogData(snapshot.catalog, snapshot.sequence)) && Writable(image);
      file := Some(EncodeFile(image));
      assert FileOf(image, file.value, snapshot);
    }
  }

  /** Reading the file gives the snapshot back, or is refused, exactly as the catalog meets the reader's demands. */
  lemma FileReads(bytes: seq<byte>, snapshot: Snapshot<Catalog>)
    requires SnapshotIs(Some(bytes), snapshot)
    ensures if CatalogLoadable(snapshot.catalog)
            then LoadFile(bytes).Success?
                 && CatalogOf(LoadFile(bytes).value) == CatalogData(snapshot.catalog, snapshot.sequence)
            else LoadFile(bytes) == Failure(CorruptSnapshot)
  {
    hide Depicts, Writable, EncodeFile, LoadFile, Loadable, CatalogLoadable;
    var image :| FileOf(image, bytes, snapshot);
    var c := CatalogData(snapshot.catalog, snapshot.sequence);
    SavedCatalogOpens(c, image);
    LoadableMeans(image, c);
  }

  lemma EmptyLoads()
    ensures CatalogLoadable(map[])
  {
  }

  /** Opens the snapshot file, if there is one, and the log: the result is the database that the step machine
      reopens, or the error of the file that keeps it down. */
  method OpenFiles(
      sys: System<Catalog>, file: Option<seq<byte>>, wal: seq<byte>, device: nat -> nat, ghost s: State<Catalog>)
    returns (r: Result<Database<Catalog>>)
    requires OnFiles(sys) && s.process.Down? && s.wal == wal && SnapshotIs(file, s.snapshot)
    ensures var reopened := Run(sys, s, Reopening(s));
      if reopened.process.Up?
      then r.Success? && fresh(r.value) && fresh(r.value.file) && r.value.View() == reopened && r.value.sys == sys
      else r == Failure(if CatalogLoadable(s.snapshot.catalog) then CorruptWal else CorruptSnapshot)
  {
    hide Run, Reopening, LoadFile, CatalogLoadable, SnapshotIs;
    var loaded: Result<Snapshot<Catalog>>;
    EmptyLoads();
    match file {
      case None =>
        NoFile(s.snapshot);
        loaded := Success(Snapshot(map[], 0));
      case Some(bytes) =>
        FileReads(bytes, s.snapshot);
        var read := SnapshotCatalog.Open(bytes, device);
        loaded := match read
          case Success(c) => Success(Snapshot(c.tables, c.durableSequence))
          case Failure(e) => Failure(e);
    }
    r := OpenDatabase(sys, loaded, wal, s);
  }

  lemma NoFile(snapshot: Snapshot<Catalog>)
    requires SnapshotIs(None, snapshot)
    ensures snapshot == Snapshot(map[], 0)
  {
  }

  /** Saves the catalog over the snapshot file and starts the log afresh; `disk` is how replacing the file went. */
  method CheckpointFiles(
      db: Database<Catalog>, file: Option<seq<byte>>, device: nat -> nat, disk: SaveIo, io: ResetIo)
    returns (r: Result<()>, after: Option<seq<byte>>, ghost save: SaveIo)
    requires OnFiles(db.sys) && SnapshotIs(file, db.snapshot) && PossibleReset(io)
    requires CatalogValid(CatalogData(db.catalog, db.sequence))
    modifies db, db.file
    ensures SnapshotIs(after, db.snapshot)
    ensures old(db.file.failed) ==> r == Failure(StorageIo) && db.View() == old(db.View()) && after == file
    ensures !old(db.file.failed) ==> db.View() == Run(db.sys, old(db.View()), CheckpointSteps(save, io))
    ensures save == if old(Saves(Snapshot(db.catalog, db.sequence))) then disk else SaveIo(false, false)
    ensures r.Success? <==> !old(db.file.failed) && save.ok && io.Rewritten? && io.ok
    ensures r.Success? ==> SnapshotIs(after, Snapshot(old(db.catalog), old(db.sequence))) && !db.file.failed
    ensures db.catalog == old(db.catalog) && db.revision == old(db.revision) && db.sequence == old(db.sequence)
  {
    hide Run, CheckpointSteps, Depicts, Writable, EncodeFile, SnapshotIs, CatalogLoadable;
    ghost var snapshot := Snapshot(db.catalog, db.sequence);
    var saved := SnapshotCatalog.Save(CatalogData(db.catalog, db.sequence), device);
    SavedMeans(saved, snapshot);
    var outcome := if saved.Success? then disk else SaveIo(false, false);
    var replaced := !db.file.failed && (outcome.ok || outcome.installed);
    save := outcome;
    r := db.Checkpoint(outcome, io);
    after := if replaced then Some(saved.value) else file;
  }

  /** Saving succeeds exactly for what the format can hold, and yields a file of the snapshot. */
  lemma SavedMeans(saved: Result<seq<byte>>, snapshot: Snapshot<Catalog>)
    requires exists image :: Depicts(image, CatalogData(snapshot.catalog, snapshot.sequence)) && SnapshotCatalog.Saved(saved, image)
    ensures saved.Success? <==> Saves(snapshot)
    ensures saved.Success? ==> SnapshotIs(Some(saved.value), snapshot)
  {
    hide Depicts, Writable, EncodeFile;
    var c := CatalogData(snapshot.catalog, snapshot.sequence);
    var image :| Depicts(image, c) && SnapshotCatalog.Saved(saved, image);
    if saved.Success? {
      assert FileOf(image, saved.value, snapshot);
    }
    forall other | Depicts(other, c) && Writable(other)
      ensures saved.Success?
    {
      SnapshotIsReproducible(image, other, c);
    }
  }

  /** Crash safety on the files. Stop any run at any byte: there are the two files it leaves, they hold the visible
      operations and at most the one that was being appended, and opening them shows exactly those, if and only if
      the catalog saved last meets the reader's demands, the records in the log respect its caps, and a next
      sequence number is left. */
  lemma FilesAreCrashSafe(statements: Statements, m: SqlTypes.Machine, steps: seq<Step>)
    returns (file: Option<seq<byte>>, base: nat, ops: seq<WalOperation>)
    requires HonestStatements(statements)
    ensures
      var sys := TableSystem(statements, m);
      var s := Run(sys, Init(sys), steps + [Crash]);
      && SnapshotIs(file, s.snapshot) && IsDurable(s, base, ops)
      && (file.Some? ==> (LoadFile(file.value).Success? <==> CatalogLoadable(s.snapshot.catalog)))
      && if CatalogLoadable(s.snapshot.catalog) && Readable(base, ops)
         then Shows(sys, Run(sys, s, Reopening(s)), ops)
         else Run(sys, s, Reopening(s)).process.Down?
  {
    hide Run, Init, Reopening, SnapshotIs, IsDurable, Readable, Shows, TableSystem, CatalogLoadable, LoadFile, OnFiles;
    var sys := TableSystem(statements, m);
    TablesAreHonest(statements, m);
    TablesAreOnFiles(statements, m);
    base, ops := CrashSafety(sys, steps);
    file := SnapshotHasFile(sys, steps + [Crash]);
    var s := Run(sys, Init(sys), steps + [Crash]);
    LoadsMeans(statements, m, s.snapshot);
    if file.Some? {
      FileReads(file.value, s.snapshot);
    }
  }

  /* ----- A table without a name ----- */

  /** The catalog after creating a table with an empty quoted name. */
  function Nameless(): Catalog {
    map["" := TableData([Column("id", Integer, true, false)], map[], [])]
  }

  lemma NamelessIsSaved(sequence: u64)
    ensures Saves(Snapshot(Nameless(), sequence)) && !CatalogLoadable(Nameless())
  {
    hide Depicts, Writable, EncodeFile, LoadFile, Loadable;
    var image := Image([TableImage("", [Column("id", Integer, true, false)], [], [])], sequence);
    NamelessIsDepicted(image, sequence);
    NamelessIsWritable(sequence);
    assert !TableSound("", Nameless()[""]);
  }

  lemma NamelessIsDepicted(image: Image, sequence: u64)
    requires image == Image([TableImage("", [Column("id", Integer, true, false)], [], [])], sequence)
    ensures Depicts(image, CatalogData(Nameless(), sequence))
  {
    assert TableNames(image.tables) == [""] && Nameless().Keys == {""};
    assert IndexNames([]) == [] && Nameless()[""].indexes.Keys == {};
  }

  /** Creating a table without a name is acknowledged, and so is the checkpoint after it; from the next stop on the
      database does not open, whatever is tried. */
  lemma NamelessTableIsFatal(statements: Statements, m: SqlTypes.Machine, sql: string, tries: seq<Step>)
    requires statements(sql, map[]) == ExecDone(Nameless(), 1) && Appendable(Sql(sql))
    ensures
      var sys := TableSystem(statements, m);
      var created := Run(sys, Run(sys, Init(sys), Reopening(Init(sys))), Committing(1, Sql(sql)));
      var saved := Run(sys, created, [SaveSnapshot]);
      && created.process.Up? && created.process.live.catalog == Nameless() && created.history == [Sql(sql)]
      && saved.snapshot == Snapshot(Nameless(), 1)
      && Run(sys, saved, [Crash] + tries) == saved.(process := Down)
  {
    hide Run, Reopening, Committing, Appendable, Saves, CatalogLoadable, Frame;
    var sys := TableSystem(statements, m);
    EmptyLoads();
    LoadsMeans(statements, m, Snapshot(map[], 0));
    var ready := NewDatabase(sys);
    assert Bump(0, 1) == 1;
    CommitRun(sys, ready, ready.process.live, Sql(sql));
    var created := Run(sys, ready, Committing(1, Sql(sql)));
    NamelessIsSaved(1);
    LoadsMeans(statements, m, Snapshot(Nameless(), 1));
    UnloadableCheckpointIsFatal(sys, created, created.process.live, tries);
  }

  /** A new database opens empty. */
  lemma NewDatabase<C>(sys: System<C>) returns (s: State<C>)
    requires sys.loads(Snapshot(sys.empty, 0))
    ensures s == Run(sys, Init(sys), Reopening(Init(sys)))
    ensures s.process.Up? && s.process.stage.Idle? && s.process.live.catalog == sys.empty && s.process.live.sequence == 0
    ensures !s.process.live.failed && s.history == []
  {
    hide Run, Header, Reopening;
    s := Run(sys, Init(sys), Reopening(Init(sys)));
    ReopenShort(sys, Init(sys));
  }
}
