/** The durable database object. Each of its operations refines a run of the step machine: whatever the
    file calls report, the object ends in the state that the corresponding steps lead to. */
module Database {
  import opened Wrappers
  import opened Bytes
  import opened WalCodec
  import opened WalLog
  import opened WalFile
  import opened Durability
  import WalBuffers

  /** How saving the snapshot went; a failed save may still have installed the new file. */
  datatype SaveIo = SaveIo(installed: bool, ok: bool)

  /** Nothing is saved that the format cannot hold. */
  predicate PossibleSave<C>(sys: System<C>, snapshot: Snapshot<C>, save: SaveIo) {
    save.ok || save.installed ==> sys.saves(snapshot)
  }

  /** The steps of executing one request. A refused request makes the later steps ineffective. */
  function ExecuteSteps(op: WalOperation, expected: Option<u64>, io: AppendIo): seq<Step> {
    [Begin(op, expected)] + Repeat(WriteRecordByte, io.written) + [if io.ok then Publish else FailAppend]
  }

  function ResetSteps(io: ResetIo): seq<Step> {
    match io
    case Untouched => [FailReset]
    case Rewritten(written, ok) =>
      [TruncateLog] + Repeat(WriteHeaderByte, written) + [if ok then FinishReset else FailReset]
  }

  function CheckpointSteps(save: SaveIo, io: ResetIo): seq<Step> {
    if save.ok then [SaveSnapshot] + ResetSteps(io) else [FailSave(save.installed)]
  }

  /* ----- Runs of those steps ----- */

  lemma {:induction false} IdleIgnores<C>(sys: System<C>, s: State<C>, n: nat)
    requires s.process.Up? && s.process.stage.Idle?
    ensures Run(sys, s, Repeat(WriteRecordByte, n)) == s
    decreases n
  {
    if n == 0 {
      assert Repeat(WriteRecordByte, 0) == [];
    } else {
      hide Run, Repeat;
      IdleIgnores(sys, s, n - 1);
      RepeatNext(WriteRecordByte, n - 1);
      RunLast(sys, s, Repeat(WriteRecordByte, n - 1), WriteRecordByte);
    }
  }

  lemma ThreePhases<C>(sys: System<C>, s: State<C>, first: Step, middle: seq<Step>, last: Step)
    ensures Run(sys, s, [first] + middle + [last]) == Next(sys, Run(sys, Next(sys, s, first), middle), last)
  {
    hide Run, Next;
    RunLast(sys, s, [first] + middle, last);
    RunConcat(sys, s, [first], middle);
    RunOne(sys, s, first);
  }

  lemma RefusedRun<C>(sys: System<C>, s: State<C>, op: WalOperation, expected: Option<u64>, io: AppendIo)
    requires s.process.Up? && s.process.stage.Idle?
    requires Next(sys, s, Begin(op, expected)).process.Up? && Next(sys, s, Begin(op, expected)).process.stage.Idle?
    ensures Run(sys, s, ExecuteSteps(op, expected, io)) == Next(sys, s, Begin(op, expected))
  {
    hide Run, Repeat;
    var begun := Next(sys, s, Begin(op, expected));
    ThreePhases(sys, s, Begin(op, expected), Repeat(WriteRecordByte, io.written),
                if io.ok then Publish else FailAppend);
    IdleIgnores(sys, begun, io.written);
  }

  /** What beginning a request does, by cases. */
  lemma BeginCases<C>(sys: System<C>, s: State<C>, live: Live<C>, op: WalOperation, expected: Option<u64>)
    requires s.process == Up(live, Idle)
    ensures Next(sys, s, Begin(op, expected)) ==
            if expected.Some? && expected.value != live.revision then s
            else
              match sys.exec(op, live.catalog)
              case ExecError => s
              case ExecDone(catalog, marks) =>
                if Bump(live.revision, marks) == live.revision then s.(process := Up(live.(catalog := catalog), Idle))
                else if live.sequence + 1 == U64_LIMIT || !Appendable(op) || live.failed then s
                else s.(process := Up(live, Appending(op, catalog, 0)), attempt := Some(op))
  {
    hide Appendable, Bump;
  }

  /** The state after the append of an accepted operation: published, or with part of its record in the log. */
  function AfterAppend<C>(s: State<C>, live: Live<C>, op: WalOperation, next: C, io: AppendIo): State<C>
    requires live.sequence + 1 < U64_LIMIT && PossibleAppend(io, Frame(live.sequence + 1, op))
  {
    var n := live.sequence + 1;
    if io.ok then
      s.(wal := s.wal + Frame(n, op), history := s.history + [op], attempt := None,
         process := Up(Live(next, n, n, false, live.bytes + |Frame(n, op)|), Idle))
    else
      s.(wal := s.wal + Frame(n, op)[..io.written], attempt := Some(op),
         process := Up(live.(failed := true), Idle))
  }

  lemma AcceptedRun<C>(
      sys: System<C>, s: State<C>, live: Live<C>, op: WalOperation, expected: Option<u64>, next: C, io: AppendIo)
    requires s.process == Up(live, Idle) && live.sequence + 1 < U64_LIMIT
    requires Next(sys, s, Begin(op, expected)) ==
             s.(process := Up(live, Appending(op, next, 0)), attempt := Some(op))
    requires PossibleAppend(io, Frame(live.sequence + 1, op))
    ensures Run(sys, s, ExecuteSteps(op, expected, io)) == AfterAppend(s, live, op, next, io)
  {
    hide Run, Repeat, Frame;
    var begun := Next(sys, s, Begin(op, expected));
    ThreePhases(sys, s, Begin(op, expected), Repeat(WriteRecordByte, io.written),
                if io.ok then Publish else FailAppend);
    WriteRecord(sys, begun, live, op, next, io.written);
    if io.ok {
      assert Frame(live.sequence + 1, op)[..io.written] == Frame(live.sequence + 1, op);
    }
  }

  predicate Current<C>(expected: Option<u64>, live: Live<C>) {
    expected.Some? ==> expected.value == live.revision
  }

  /** Where executing one request ends. */
  function AfterExecute<C>(
      sys: System<C>, s: State<C>, live: Live<C>, op: WalOperation, expected: Option<u64>, io: AppendIo): State<C>
    requires live.sequence + 1 < U64_LIMIT ==> PossibleAppend(io, Frame(live.sequence + 1, op))
  {
    if !Current(expected, live) || sys.exec(op, live.catalog).ExecError? then s
    else
      var next := sys.exec(op, live.catalog).catalog;
      if !Commits(sys, op, live.catalog) then s.(process := Up(live.(catalog := next), Idle))
      else if live.sequence + 1 == U64_LIMIT || !Appendable(op) || live.failed then s
      else AfterAppend(s, live, op, next, io)
  }

  lemma ExecuteRun<C>(sys: System<C>, s: State<C>, live: Live<C>, op: WalOperation, expected: Option<u64>, io: AppendIo)
    requires s.process == Up(live, Idle)
    requires live.sequence + 1 < U64_LIMIT ==> PossibleAppend(io, Frame(live.sequence + 1, op))
    ensures Run(sys, s, ExecuteSteps(op, expected, io)) == AfterExecute(sys, s, live, op, expected, io)
  {
    hide Run, Frame, ExecuteSteps, Next, Bump, Appendable, AfterAppend;
    BeginCases(sys, s, live, op, expected);
    if Current(expected, live) && sys.exec(op, live.catalog).ExecDone? {
      BumpChanges(live.revision, sys.exec(op, live.catalog).marks);
    }
    var begun := Next(sys, s, Begin(op, expected));
    if begun.process.Up? && begun.process.stage.Idle? {
      RefusedRun(sys, s, op, expected, io);
    } else {
      AcceptedRun(sys, s, live, op, expected, sys.exec(op, live.catalog).catalog, io);
    }
  }

  lemma WriteResetByte<C>(sys: System<C>, s: State<C>, live: Live<C>, n: nat)
    requires n < WAL_HEADER_BYTES && s.process == Up(live, Resetting(n)) && s.wal == Header()[..n]
    ensures Next(sys, s, WriteHeaderByte) == s.(wal := Header()[..n + 1], process := Up(live, Resetting(n + 1)))
  {
    hide Header;
    TakeOneMore(Header(), n);
  }

  lemma {:induction false} WriteResetHeader<C>(sys: System<C>, s: State<C>, live: Live<C>, n: nat)
    requires s.process == Up(live, Resetting(0)) && s.wal == [] && n <= WAL_HEADER_BYTES
    ensures Run(sys, s, Repeat(WriteHeaderByte, n)) ==
            s.(wal := Header()[..n], process := Up(live, Resetting(n)))
    decreases n
  {
    hide Header;
    if n == 0 {
      assert Repeat(WriteHeaderByte, 0) == [] && Header()[..0] == [];
    } else {
      hide Run, Repeat, Next;
      WriteResetHeader(sys, s, live, n - 1);
      RepeatNext(WriteHeaderByte, n - 1);
      RunLast(sys, s, Repeat(WriteHeaderByte, n - 1), WriteHeaderByte);
      WriteResetByte(sys, s.(wal := Header()[..n - 1], process := Up(live, Resetting(n - 1))), live, n - 1);
    }
  }

  lemma ResetRun<C>(sys: System<C>, s: State<C>, live: Live<C>, io: ResetIo)
    requires s.process == Up(live, Saved) && PossibleReset(io)
    ensures Run(sys, s, ResetSteps(io)) ==
            s.(wal := AfterReset(s.wal, io),
               process := Up(if io.Rewritten? && io.ok then live.(bytes := WAL_HEADER_BYTES)
                             else live.(failed := true), Idle))
  {
    hide Run, Repeat, Header;
    match io
    case Untouched => RunOne(sys, s, FailReset);
    case Rewritten(written, ok) =>
      ThreePhases(sys, s, TruncateLog, Repeat(WriteHeaderByte, written), if ok then FinishReset else FailReset);
      WriteResetHeader(sys, Next(sys, s, TruncateLog), live, written);
  }

  lemma CheckpointRun<C>(sys: System<C>, s: State<C>, live: Live<C>, save: SaveIo, io: ResetIo)
    requires s.process == Up(live, Idle) && PossibleReset(io)
    requires PossibleSave(sys, Snapshot(live.catalog, live.sequence), save)
    ensures Run(sys, s, CheckpointSteps(save, io)) ==
            if live.failed then Run(sys, s, CheckpointSteps(save, io))
            else if save.ok then
              s.(snapshot := Snapshot(live.catalog, live.sequence), wal := AfterReset(s.wal, io),
                 process := Up(if io.Rewritten? && io.ok then live.(bytes := WAL_HEADER_BYTES)
                               else live.(failed := true), Idle))
            else if save.installed then s.(snapshot := Snapshot(live.catalog, live.sequence))
            else s
  {
    hide Run, AfterReset;
    if !live.failed {
      if save.ok {
        RunConcat(sys, s, [SaveSnapshot], ResetSteps(io));
        RunOne(sys, s, SaveSnapshot);
        ResetRun(sys, Next(sys, s, SaveSnapshot), live, io);
      } else {
        RunOne(sys, s, FailSave(save.installed));
      }
    }
  }

  /** The replay loop of recovery. */
  method RunRecovery<C(0)>(sys: System<C>, records: seq<RecoveryRecord>, checkpoint: u64, start: Live<C>)
    returns (r: Result<Live<C>>)
    requires checkpoint + 1 < U64_LIMIT
    ensures r == RecoverFrom(sys, records, checkpoint, start, checkpoint + 1)
  {
    var live := start;
    var expected: int := checkpoint + 1;
    for i := 0 to |records|
      invariant 0 <= expected < U64_LIMIT
      invariant RecoverFrom(sys, records, checkpoint, start, checkpoint + 1) ==
                RecoverFrom(sys, records[i..], checkpoint, live, expected)
    {
      var record := records[i];
      assert records[i..][1..] == records[i + 1..];
      if record.sequence > checkpoint {
        if record.sequence != expected {
          return Failure(CorruptWal);
        }
        var before := live.revision;
        match sys.exec(record.operation, live.catalog) {
          case ExecError =>
            return Failure(CorruptWal);
          case ExecDone(catalog, marks) =>
            live := live.(catalog := catalog, revision := Bump(live.revision, marks));
        }
        if live.revision == before || expected + 1 == U64_LIMIT {
          return Failure(CorruptWal);
        }
        live := live.(sequence := record.sequence);
        expected := expected + 1;
      }
    }
    return Success(live);
  }

  method PrepareOperation(op: WalOperation) returns (r: Result<seq<byte>>)
    ensures r == if Loggable(op) then Success(EncodeOperation(op)) else Failure(StorageIo)
  {
    match op {
      case Sql(sql) =>
        r := WalBuffers.PrepareSql(sql);
      case InsertRows(table, rows, conflict) =>
        r := WalBuffers.PrepareInsertRows(table, rows, conflict);
    }
  }

  class Database<C> {
    const sys: System<C>
    const file: WalFile
    var snapshot: Snapshot<C>
    var catalog: C
    var revision: u64
    var sequence: u64
    ghost var history: seq<WalOperation>
    ghost var attempt: Option<WalOperation>

    constructor (sys: System<C>, file: WalFile, snapshot: Snapshot<C>, live: Live<C>, ghost history: seq<WalOperation>)
      ensures this.sys == sys && this.file == file
      ensures View() == State(snapshot, file.disk, Up(live.(failed := file.failed, bytes := file.bytes), Idle), history, None)
    {
      this.sys := sys;
      this.file := file;
      this.snapshot := snapshot;
      catalog := live.catalog;
      revision := live.revision;
      sequence := live.sequence;
      this.history := history;
      attempt := None;
    }

    /** The machine state this object stands for. */
    ghost function View(): State<C>
      reads this, file
    {
      State(snapshot, file.disk, Up(Live(catalog, revision, sequence, file.failed, file.bytes), Idle),
            history, attempt)
    }

    /** Execute one request: run it privately, append and synchronize its record, and only then publish.
        A request conditional on a revision is refused when the catalog has moved on. */
    method Execute(op: WalOperation, expected: Option<u64>, io: AppendIo) returns (r: Result<()>)
      requires sequence + 1 < U64_LIMIT ==> PossibleAppend(io, Frame(sequence + 1, op))
      modifies this, file
      ensures View() == Run(sys, old(View()), ExecuteSteps(op, expected, io))
      ensures r.Success? <==>
        && (expected.Some? ==> expected.value == old(revision))
        && sys.exec(op, old(catalog)).ExecDone?
        && (Commits(sys, op, old(catalog)) ==>
              old(sequence) + 1 < U64_LIMIT && Appendable(op) && !old(file.failed) && io.ok)
      ensures r.Success? ==> catalog == sys.exec(op, old(catalog)).catalog
      ensures r.Success? && Commits(sys, op, old(catalog)) ==>
        && history == old(history) + [op] && revision == sequence == old(sequence) + 1
        && file.disk == old(file.disk) + Frame(old(sequence) + 1, op)
      ensures !(r.Success? && Commits(sys, op, old(catalog))) ==>
        history == old(history) && revision == old(revision) && sequence == old(sequence)
      ensures r.Failure? ==> catalog == old(catalog)
    {
      hide Run, Frame, ExecuteSteps, Bump, Appendable;
      ExecuteRun(sys, View(), Live(catalog, revision, sequence, file.failed, file.bytes), op, expected, io);
      if expected.Some? && expected.value != revision {
        return Failure(InvalidQuery(OtherQuery));
      }
      var result := sys.exec(op, catalog);
      if result.ExecError? {
        return Failure(InvalidQuery(OtherQuery));
      }
      BumpChanges(revision, result.marks);
      if Bump(revision, result.marks) == revision {
        catalog := result.catalog;
        return Success(());
      }
      if sequence + 1 == U64_LIMIT {
        return Failure(StorageIo);
      }
      r := Commit(op, result.catalog, io);
    }

    /** Append and synchronize the record of an executed operation, and publish its catalog. */
    method Commit(op: WalOperation, next: C, io: AppendIo) returns (r: Result<()>)
      requires sequence + 1 < U64_LIMIT && PossibleAppend(io, Frame(sequence + 1, op))
      modifies this, file
      ensures
        var s, live := old(View()), Live(old(catalog), old(revision), old(sequence), old(file.failed), old(file.bytes));
        View() == if Appendable(op) && !old(file.failed) then AfterAppend(s, live, op, next, io) else s
      ensures r == if Appendable(op) && !old(file.failed) && io.ok then Success(()) else Failure(StorageIo)
    {
      hide Frame, FrameBody, Le, Checksum, EncodeOperation, Header;
      var prepared := PrepareOperation(op);
      if prepared.Failure? {
        return Failure(StorageIo);
      }
      ghost var accepted := Appendable(op) && !file.failed;
      FrameIsFramedBody(sequence + 1, op);
      var appended := file.Append(sequence + 1, prepared.value, io);
      if accepted {
        attempt := if io.ok then None else Some(op);
      }
      if appended.Failure? {
        return Failure(StorageIo);
      }
      catalog, sequence, revision := next, sequence + 1, sequence + 1;
      history := history + [op];
      return Success(());
    }

    /** Save the catalog as the snapshot and start the log afresh. */
    method Checkpoint(save: SaveIo, io: ResetIo) returns (r: Result<()>)
      requires PossibleReset(io) && PossibleSave(sys, Snapshot(catalog, sequence), save)
      modifies this, file
      ensures old(file.failed) ==> r == Failure(StorageIo) && View() == old(View())
      ensures !old(file.failed) ==> View() == Run(sys, old(View()), CheckpointSteps(save, io))
      ensures snapshot ==
              if !old(file.failed) && (save.ok || save.installed) then Snapshot(old(catalog), old(sequence)) else old(snapshot)
      ensures catalog == old(catalog) && revision == old(revision) && sequence == old(sequence)
      ensures r.Success? <==> !old(file.failed) && save.ok && io.Rewritten? && io.ok
      ensures r.Success? ==> file.disk == Header() && !file.failed
      ensures r.Failure? ==> r.error == StorageIo
    {
      hide Run, Header, CheckpointSteps, AfterReset;
      CheckpointRun(sys, View(), Live(catalog, revision, sequence, file.failed, file.bytes), save, io);
      if file.failed {
        return Failure(StorageIo);
      }
      if save.ok || save.installed {
        snapshot := Snapshot(catalog, sequence);
      }
      if !save.ok {
        return Failure(StorageIo);
      }
      r := file.ResetAfterCheckpoint(io);
    }
  }

  lemma FrameIsFramedBody(sequence: u64, op: WalOperation)
    ensures Frame(sequence, op) == FrameBody(Le(sequence, 8) + EncodeOperation(op))
    ensures |Le(sequence, 8) + EncodeOperation(op)| == 8 + |EncodeOperation(op)|
  {
  }

  /** Open the files of a stopped database: the snapshot, which was read or refused, then the log, then the
      replay. The result is the database the step machine reopens, or an error where the machine stays down. */
  method OpenDatabase<C(0)>(sys: System<C>, loaded: Result<Snapshot<C>>, disk: seq<byte>, ghost s: State<C>)
    returns (r: Result<Database<C>>)
    requires s.process.Down? && s.wal == disk
    requires loaded == if sys.loads(s.snapshot) then Success(s.snapshot) else Failure(CorruptSnapshot)
    ensures var reopened := Run(sys, s, Reopening(s));
      if reopened.process.Up?
      then r.Success? && fresh(r.value) && fresh(r.value.file) && r.value.View() == reopened && r.value.sys == sys
      else r == Failure(if sys.loads(s.snapshot) then CorruptWal else CorruptSnapshot)
  {
    hide Run, Header, OpenLog, Recover, Reopening;
    if loaded.Failure? {
      StaysDown(sys, s, Reopening(s));
      return Failure(loaded.error);
    }
    var snapshot := loaded.value;
    ReopenCases(sys, s);
    var openedLog := OpenWal(disk);
    if openedLog.Failure? {
      return Failure(CorruptWal);
    }
    var file, records := openedLog.value.0, openedLog.value.1;
    var live := RecoverCatalog(sys, snapshot, records, |file.disk|);
    if live.Failure? {
      return Failure(CorruptWal);
    }
    var database := new Database(sys, file, snapshot, live.value, Run(sys, s, Reopening(s)).history);
    return Success(database);
  }

  method RecoverCatalog<C(0)>(sys: System<C>, snapshot: Snapshot<C>, records: seq<RecoveryRecord>, bytes: nat)
    returns (r: Result<Live<C>>)
    ensures r == Recover(sys, snapshot, records, bytes)
  {
    if snapshot.sequence + 1 == U64_LIMIT {
      return Failure(CorruptWal);
    }
    var start := Live(snapshot.catalog, 0, snapshot.sequence, false, bytes);
    var live :- RunRecovery(sys, records, snapshot.sequence, start);
    return Success(live.(revision := live.sequence));
  }

  /** An undisturbed reopening is: open the log, recover, and come up. */
  lemma ReopenCases<C>(sys: System<C>, s: State<C>)
    requires s.process.Down? && sys.loads(s.snapshot)
    ensures var reopened := Run(sys, s, Reopening(s));
      match OpenLog(s.wal)
      case OpenCorrupt => reopened.process.Down?
      case Opened(records, wal) =>
        match Recover(sys, s.snapshot, records, |wal|)
        case Failure(error) => reopened.process.Down? && error == CorruptWal
        case Success(live) =>
          reopened == s.(wal := wal, process := Up(live, Idle), history := reopened.history, attempt := None)
          && !live.failed && live.bytes == |wal|
  {
    hide Run, Header, Scan, Recover;
    if |s.wal| < WAL_HEADER_BYTES {
      ReopenShort(sys, s);
      RecoverKeepsFile(sys, s.snapshot, [], WAL_HEADER_BYTES);
    } else {
      RunOne(sys, s, Open);
      if OpenLog(s.wal).Opened? {
        RecoverKeepsFile(sys, s.snapshot, OpenLog(s.wal).records, |OpenLog(s.wal).disk|);
      }
    }
  }

  lemma RecoverKeepsFile<C>(sys: System<C>, snapshot: Snapshot<C>, records: seq<RecoveryRecord>, bytes: nat)
    ensures match Recover(sys, snapshot, records, bytes)
            case Failure(error) => error == CorruptWal
            case Success(live) => !live.failed && live.bytes == bytes
  {
    if snapshot.sequence + 1 < U64_LIMIT {
      var start := Live(snapshot.catalog, 0, snapshot.sequence, false, bytes);
      RecoverFromKeepsFile(sys, records, snapshot.sequence, start, snapshot.sequence + 1);
    }
  }

  lemma {:induction false} RecoverFromKeepsFile<C>(
      sys: System<C>, records: seq<RecoveryRecord>, checkpoint: u64, live: Live<C>, expected: u64)
    ensures match RecoverFrom(sys, records, checkpoint, live, expected)
            case Failure(error) => error == CorruptWal
            case Success(result) => result.failed == live.failed && result.bytes == live.bytes
    decreases |records|
  {
    hide Bump;
    if records != [] {
      var record := records[0];
      if record.sequence <= checkpoint {
        RecoverFromKeepsFile(sys, records[1..], checkpoint, live, expected);
      } else if record.sequence == expected && expected + 1 < U64_LIMIT {
        match sys.exec(record.operation, live.catalog)
        case ExecError =>
        case ExecDone(catalog, marks) =>
          var next := live.(catalog := catalog, revision := Bump(live.revision, marks), sequence := record.sequence);
          RecoverFromKeepsFile(sys, records[1..], checkpoint, next, expected + 1);
      }
    }
  }
}
