/** The durable database as a step machine: commits, checkpoints, write failures, crashes between any
    two bytes, and reopening. The log is the byte sequence of WalLog. */
module Durability {
  import opened Wrappers
  import opened Bytes
  import opened WalCodec
  import opened WalLog

  const U64_LIMIT := 0x1_0000_0000_0000_0000

  /** Running one operation: an error, or a new catalog and how often it was marked as changed. */
  datatype ExecResult<C> = ExecError | ExecDone(catalog: C, marks: nat)

  datatype Snapshot<+C> = Snapshot(catalog: C, sequence: u64)

  /** The executor is any deterministic function; `empty` is the catalog of a new database. The snapshot format
      can hold some catalogs, and the reader takes back some of those. */
  datatype System<!C> = System(
    exec: (WalOperation, C) -> ExecResult<C>, empty: C, saves: Snapshot<C> -> bool, loads: Snapshot<C> -> bool)

  /** The revision counter wraps, and only a changed counter makes a request a commit. */
  function Bump(revision: u64, marks: nat): u64 {
    (revision + marks) % U64_LIMIT
  }

  predicate Commits<C>(sys: System<C>, op: WalOperation, catalog: C) {
    sys.exec(op, catalog).ExecDone? && Bump(0, sys.exec(op, catalog).marks) != 0
  }

  lemma BumpChanges(revision: u64, marks: nat)
    ensures Bump(revision, marks) != revision <==> Bump(0, marks) != 0
  {
    var q, m := marks / U64_LIMIT, marks % U64_LIMIT;
    assert revision + marks == (revision + m) + q * U64_LIMIT;
    WrapsAround(revision + m, q);
  }

  lemma WrapsAround(a: nat, q: nat)
    ensures (a + q * U64_LIMIT) % U64_LIMIT == a % U64_LIMIT
  {
  }

  datatype Live<+C> = Live(catalog: C, revision: u64, sequence: u64, failed: bool, bytes: nat)

  /** What the process is in the middle of while it holds the write lock. */
  datatype Stage<+C> =
    | Idle
    | Appending(op: WalOperation, next: C, written: nat)
    | Saved
    | Resetting(written: nat)

  datatype Process<+C> =
    | Down
    | Opening(written: nat)
    | Up(live: Live<C>, stage: Stage<C>)

  /** The files, the process, and two auxiliary fields: every operation that ever became visible, and
      the operation whose append started last without being acknowledged. */
  datatype State<+C> = State(
    snapshot: Snapshot<C>,
    wal: seq<byte>,
    process: Process<C>,
    history: seq<WalOperation>,
    attempt: Option<WalOperation>)

  datatype Step =
    | Begin(op: WalOperation, expected: Option<u64>)
    | WriteRecordByte
    | Publish
    | FailAppend
    | SaveSnapshot
    | FailSave(installed: bool)
    | TruncateLog
    | WriteHeaderByte
    | FinishReset
    | FailReset
    | Crash
    | Open

  function Init<C>(sys: System<C>): State<C> {
    State(Snapshot(sys.empty, 0), [], Down, [], None)
  }

  /** An execution that marks nothing as changed changes nothing. */
  ghost predicate Honest<C(!new)>(sys: System<C>) {
    forall op, catalog :: sys.exec(op, catalog).ExecDone? && !Commits(sys, op, catalog) ==>
      sys.exec(op, catalog).catalog == catalog
  }

  /* ----- Recovery ----- */

  /** Replay the records the snapshot does not hold. `live` carries the in-memory revision counter. */
  function RecoverFrom<C>(
      sys: System<C>, records: seq<RecoveryRecord>, checkpoint: u64, live: Live<C>, expected: u64): Result<Live<C>>
    decreases |records|
  {
    if records == [] then Success(live)
    else
      var record := records[0];
      if record.sequence <= checkpoint then RecoverFrom(sys, records[1..], checkpoint, live, expected)
      else if record.sequence != expected then Failure(CorruptWal)
      else
        match sys.exec(record.operation, live.catalog)
        case ExecError => Failure(CorruptWal)
        case ExecDone(catalog, marks) =>
          var revision := Bump(live.revision, marks);
          if revision == live.revision || expected + 1 == U64_LIMIT then Failure(CorruptWal)
          else
            var next := live.(catalog := catalog, revision := revision, sequence := record.sequence);
            RecoverFrom(sys, records[1..], checkpoint, next, expected + 1)
  }

  /** Recovery starts from the loaded snapshot with a zero revision, and finally takes the
      durable sequence as the revision. */
  function Recover<C>(sys: System<C>, snapshot: Snapshot<C>, records: seq<RecoveryRecord>, bytes: nat): Result<Live<C>> {
    if snapshot.sequence + 1 == U64_LIMIT then Failure(CorruptWal)
    else
      var start := Live(snapshot.catalog, 0, snapshot.sequence, false, bytes);
      var live :- RecoverFrom(sys, records, snapshot.sequence, start, snapshot.sequence + 1);
      Success(live.(revision := live.sequence))
  }

  /** Bring the process up after the log was opened; recovery that fails leaves it down. Operations
      that turn out to be durable without having been acknowledged become visible here. */
  function Start<C>(sys: System<C>, s: State<C>, records: seq<RecoveryRecord>, wal: seq<byte>): State<C> {
    match Recover(sys, s.snapshot, records, |wal|)
    case Failure(_) => s.(wal := wal, process := Down)
    case Success(live) =>
      var adopted := if live.sequence == |s.history| + 1 && s.attempt.Some? then [s.attempt.value] else [];
      s.(wal := wal, process := Up(live, Idle), history := s.history + adopted, attempt := None)
  }

  /* ----- Steps ----- */

  /** A step that is not enabled leaves the state unchanged. */
  function Next<C>(sys: System<C>, s: State<C>, step: Step): State<C> {
    match step
    case Crash => s.(process := Down)
    case Open => if s.process.Down? then OpenStep(sys, s) else s
    case WriteHeaderByte => HeaderStep(s)
    case FinishReset => FinishStep(sys, s)
    case _ => if s.process.Up? then LiveStep(sys, s, step) else s
  }

  /** The snapshot is read first; one that the reader refuses leaves everything as it is. */
  function OpenStep<C>(sys: System<C>, s: State<C>): State<C> {
    if !sys.loads(s.snapshot) then s
    else if |s.wal| < WAL_HEADER_BYTES then s.(wal := [], process := Opening(0))
    else
      match OpenLog(s.wal)
      case OpenCorrupt => s
      case Opened(records, wal) => Start(sys, s, records, wal)
  }

  /** The next byte of a header being written by a reset. */
  function HeaderStep<C>(s: State<C>): State<C> {
    match s.process
    case Opening(written) =>
      if written >= WAL_HEADER_BYTES then s
      else s.(wal := s.wal + [Header()[written]], process := Opening(written + 1))
    case Up(live, Resetting(written)) =>
      if written >= WAL_HEADER_BYTES then s
      else s.(wal := s.wal + [Header()[written]], process := Up(live, Resetting(written + 1)))
    case _ => s
  }

  /** A complete header ends a checkpoint, or lets an opening database go on to recovery. */
  function FinishStep<C>(sys: System<C>, s: State<C>): State<C> {
    match s.process
    case Opening(written) => if written == WAL_HEADER_BYTES then Start(sys, s, [], s.wal) else s
    case Up(live, Resetting(written)) =>
      if written == WAL_HEADER_BYTES then s.(process := Up(live.(bytes := WAL_HEADER_BYTES), Idle)) else s
    case _ => s
  }

  function LiveStep<C>(sys: System<C>, s: State<C>, step: Step): State<C>
    requires s.process.Up?
  {
    var live, stage := s.process.live, s.process.stage;
    match (step, stage)
    case (Begin(op, expected), Idle) =>
      if expected.Some? && expected.value != live.revision then s
      else
        (match sys.exec(op, live.catalog)
         case ExecError => s
         case ExecDone(catalog, marks) =>
           if Bump(live.revision, marks) == live.revision then
             s.(process := Up(live.(catalog := catalog), Idle))
           else if live.sequence + 1 == U64_LIMIT || !Appendable(op) || live.failed then s
           else s.(process := Up(live, Appending(op, catalog, 0)), attempt := Some(op)))
    case (WriteRecordByte, Appending(op, next, written)) =>
      if live.sequence + 1 < U64_LIMIT && written < |Frame(live.sequence + 1, op)| then
        s.(wal := s.wal + [Frame(live.sequence + 1, op)[written]],
           process := Up(live, Appending(op, next, written + 1)))
      else s
    case (Publish, Appending(op, next, written)) =>
      if live.sequence + 1 < U64_LIMIT && written == |Frame(live.sequence + 1, op)| then
        var sequence := live.sequence + 1;
        s.(process := Up(Live(next, sequence, sequence, false, live.bytes + written), Idle),
           history := s.history + [op],
           attempt := None)
      else s
    case (FailAppend, Appending(_, _, _)) => s.(process := Up(live.(failed := true), Idle))
    case (SaveSnapshot, Idle) =>
      if live.failed || !sys.saves(Snapshot(live.catalog, live.sequence)) then s
      else s.(snapshot := Snapshot(live.catalog, live.sequence), process := Up(live, Saved))
    case (FailSave(installed), Idle) =>
      if installed && !live.failed && sys.saves(Snapshot(live.catalog, live.sequence))
      then s.(snapshot := Snapshot(live.catalog, live.sequence)) else s
    case (TruncateLog, Saved) => s.(wal := [], process := Up(live, Resetting(0)))
    case (FailReset, Saved) => s.(process := Up(live.(failed := true), Idle))
    case (FailReset, Resetting(_)) => s.(process := Up(live.(failed := true), Idle))
    case _ => s
  }

  function Run<C>(sys: System<C>, s: State<C>, steps: seq<Step>): State<C>
    decreases |steps|
  {
    if steps == [] then s else Next(sys, Run(sys, s, steps[..|steps| - 1]), steps[|steps| - 1])
  }

  /* ----- What the state means ----- */

  /** The catalog after a sequence of operations. */
  ghost function Replay<C>(sys: System<C>, ops: seq<WalOperation>): C {
    if ops == [] then sys.empty
    else
      var before := Replay(sys, ops[..|ops| - 1]);
      match sys.exec(ops[|ops| - 1], before)
      case ExecError => before
      case ExecDone(catalog, _) => catalog
  }

  /** Each operation commits on the catalog its predecessors produce. */
  ghost predicate Executable<C>(sys: System<C>, ops: seq<WalOperation>) {
    forall i | 0 <= i < |ops| :: Commits(sys, ops[i], Replay(sys, ops[..i]))
  }

  /** The log file holds every operation after the first `base`, then `tail`. */
  predicate LogIs<C>(s: State<C>, base: nat, tail: seq<byte>) {
    && base <= s.snapshot.sequence <= |s.history| < U64_LIMIT
    && s.wal == Header() + (Frames(base + 1, s.history[base..]) + tail)
  }

  /** The log file ends with `tail` after operations the snapshot or the file itself holds. */
  ghost predicate LogEndsWith<C>(s: State<C>, tail: seq<byte>) {
    exists base :: LogIs(s, base, tail)
  }

  /** A reset got as far as `written` header bytes; the snapshot holds everything. */
  predicate HeaderIs<C>(s: State<C>, written: nat) {
    && written <= WAL_HEADER_BYTES
    && s.wal == Header()[..written]
    && s.snapshot.sequence == |s.history|
  }

  predicate AttemptTail<C>(s: State<C>, tail: seq<byte>) {
    tail == [] || (|s.history| + 1 < U64_LIMIT && s.attempt.Some?
                   && tail <= Frame(|s.history| + 1, s.attempt.value))
  }

  /** What the log file can look like when nothing is being written. */
  ghost predicate AtRest<C>(s: State<C>) {
    || (exists tail :: LogEndsWith(s, tail) && AttemptTail(s, tail))
    || (exists written :: HeaderIs(s, written))
  }

  ghost predicate LiveOk<C>(sys: System<C>, s: State<C>, live: Live<C>) {
    && live.catalog == Replay(sys, s.history)
    && live.sequence == live.revision == |s.history|
  }

  ghost predicate StageOk<C>(sys: System<C>, s: State<C>, live: Live<C>, stage: Stage<C>) {
    match stage
    case Idle =>
      if live.failed then AtRest(s)
      else LogEndsWith(s, []) && live.bytes == |s.wal|
    case Appending(op, next, written) =>
      && !live.failed && s.attempt == Some(op) && |s.history| + 1 < U64_LIMIT
      && sys.exec(op, live.catalog).ExecDone? && sys.exec(op, live.catalog).catalog == next
      && written <= |Frame(|s.history| + 1, op)|
      && live.bytes + written == |s.wal|
      && LogEndsWith(s, Frame(|s.history| + 1, op)[..written])
    case Saved =>
      !live.failed && s.snapshot.sequence == |s.history| && LogEndsWith(s, [])
    case Resetting(written) => !live.failed && HeaderIs(s, written)
  }

  ghost predicate ProcessOk<C>(sys: System<C>, s: State<C>) {
    match s.process
    case Down => AtRest(s)
    case Opening(written) => HeaderIs(s, written)
    case Up(live, stage) => LiveOk(sys, s, live) && StageOk(sys, s, live, stage)
  }

  ghost predicate FilesOk<C>(sys: System<C>, s: State<C>) {
    && |s.history| < U64_LIMIT
    && Executable(sys, s.history) && AllAppendable(s.history)
    && s.snapshot.sequence <= |s.history|
    && s.snapshot.catalog == Replay(sys, s.history[..s.snapshot.sequence])
  }

  ghost predicate AttemptOk<C>(sys: System<C>, s: State<C>) {
    s.attempt.Some? ==>
      && |s.history| + 1 < U64_LIMIT
      && Appendable(s.attempt.value)
      && Commits(sys, s.attempt.value, Replay(sys, s.history))
  }

  ghost predicate Inv<C>(sys: System<C>, s: State<C>) {
    FilesOk(sys, s) && AttemptOk(sys, s) && ProcessOk(sys, s)
  }

  /* ----- Replaying ----- */

  lemma ReplayNext<C>(sys: System<C>, ops: seq<WalOperation>, op: WalOperation)
    requires Executable(sys, ops) && Commits(sys, op, Replay(sys, ops))
    ensures Executable(sys, ops + [op])
    ensures Replay(sys, ops + [op]) == sys.exec(op, Replay(sys, ops)).catalog
  {
    hide Commits;
    assert (ops + [op])[..|ops|] == ops;
    forall i | 0 <= i < |ops + [op]|
      ensures Commits(sys, (ops + [op])[i], Replay(sys, (ops + [op])[..i]))
    {
      if i < |ops| {
        assert (ops + [op])[..i] == ops[..i];
      }
    }
    assert Replay(sys, ops + [op]) == sys.exec(op, Replay(sys, ops)).catalog by {
      assert Commits(sys, op, Replay(sys, ops)) && sys.exec(op, Replay(sys, ops)).ExecDone? by {
        CommitsIsDone(sys, op, Replay(sys, ops));
      }
    }
  }

  lemma CommitsIsDone<C>(sys: System<C>, op: WalOperation, catalog: C)
    requires Commits(sys, op, catalog)
    ensures sys.exec(op, catalog).ExecDone?
  {
  }

  lemma ReplayAt<C>(sys: System<C>, ops: seq<WalOperation>, i: nat)
    requires i < |ops| && Executable(sys, ops)
    ensures Commits(sys, ops[i], Replay(sys, ops[..i]))
    ensures Replay(sys, ops[..i + 1]) == sys.exec(ops[i], Replay(sys, ops[..i])).catalog
  {
    assert ops[..i + 1][..i] == ops[..i];
    CommitsIsDone(sys, ops[i], Replay(sys, ops[..i]));
  }

  /** Recovery from record `i + 1` on: `done` operations are already in the catalog. */
  lemma {:induction false} RecoverRecords<C>(
      sys: System<C>, ops: seq<WalOperation>, i: nat, checkpoint: nat, done: nat, live: Live<C>)
    requires Executable(sys, ops) && |ops| < U64_LIMIT
    requires i <= |ops| && checkpoint <= done <= |ops| && done == (if i < checkpoint then checkpoint else i)
    requires live.catalog == Replay(sys, ops[..done]) && live.sequence == done && done + 1 < U64_LIMIT
    ensures var r := RecoverFrom(sys, Records(i + 1, ops[i..]), checkpoint, live, done + 1);
      if |ops| + 1 < U64_LIMIT
      then r.Success? && r.value == live.(catalog := Replay(sys, ops), sequence := |ops|, revision := r.value.revision)
      else r == Failure(CorruptWal)
    decreases |ops| - i
  {
    hide Commits, Replay, Bump;
    if i == |ops| {
      assert Records(i + 1, ops[i..]) == [];
      assert ops[..done] == ops;
    } else {
      var records := Records(i + 1, ops[i..]);
      assert records[0] == RecoveryRecord(i + 1, ops[i]);
      assert records[1..] == Records(i + 2, ops[i + 1..]);
      if i + 1 <= checkpoint {
        RecoverRecords(sys, ops, i + 1, checkpoint, done, live);
      } else {
        RecoverOne(sys, ops, i, live);
        if i + 2 < U64_LIMIT {
          var marks := sys.exec(ops[i], live.catalog).marks;
          var next := live.(catalog := Replay(sys, ops[..i + 1]),
                            revision := Bump(live.revision, marks), sequence := i + 1);
          RecoverRecords(sys, ops, i + 1, checkpoint, i + 1, next);
        }
      }
    }
  }

  lemma RecoverOne<C>(sys: System<C>, ops: seq<WalOperation>, i: nat, live: Live<C>)
    requires Executable(sys, ops) && i < |ops|
    requires live.catalog == Replay(sys, ops[..i])
    ensures sys.exec(ops[i], live.catalog).ExecDone?
    ensures sys.exec(ops[i], live.catalog).catalog == Replay(sys, ops[..i + 1])
    ensures Bump(live.revision, sys.exec(ops[i], live.catalog).marks) != live.revision
  {
    ReplayAt(sys, ops, i);
    BumpChanges(live.revision, sys.exec(ops[i], live.catalog).marks);
  }

  /** Recovery from a snapshot of any prefix and the records after any shorter prefix rebuilds the
      whole sequence; it fails exactly when the sequence numbers are exhausted. */
  lemma RecoverRebuilds<C>(sys: System<C>, ops: seq<WalOperation>, base: nat, snapshot: Snapshot<C>, bytes: nat)
    requires Executable(sys, ops) && base <= snapshot.sequence <= |ops| < U64_LIMIT
    requires snapshot.catalog == Replay(sys, ops[..snapshot.sequence])
    ensures Recover(sys, snapshot, Records(base + 1, ops[base..]), bytes) ==
            if |ops| + 1 < U64_LIMIT then Success(Live(Replay(sys, ops), |ops|, |ops|, false, bytes))
            else Failure(CorruptWal)
  {
    if snapshot.sequence + 1 < U64_LIMIT {
      var start := Live(snapshot.catalog, 0, snapshot.sequence, false, bytes);
      RecoverRecords(sys, ops, base, snapshot.sequence, snapshot.sequence, start);
    }
  }

  /* ----- Every step keeps the invariant ----- */

  lemma AtRestWithTail<C>(s: State<C>, tail: seq<byte>)
    requires LogEndsWith(s, tail) && AttemptTail(s, tail)
    ensures AtRest(s)
  {
  }

  lemma AppendKeepsLog<C>(s: State<C>, s': State<C>, before: seq<byte>, after: seq<byte>)
    requires LogEndsWith(s, before)
    requires s'.snapshot == s.snapshot && s'.history == s.history
    requires s.wal <= s'.wal && after == before + s'.wal[|s.wal|..]
    ensures LogEndsWith(s', after)
  {
    hide Frames, Header;
    var base: nat :| LogIs(s, base, before);
    var added := s'.wal[|s.wal|..];
    assert s'.wal == s.wal + added;
    Assoc(Header(), Frames(base + 1, s.history[base..]) + before, added);
    Assoc(Frames(base + 1, s.history[base..]), before, added);
    assert LogIs(s', base, after);
  }

  lemma PublishKeepsLog<C>(s: State<C>, s': State<C>, op: WalOperation)
    requires |s.history| + 1 < U64_LIMIT
    requires LogEndsWith(s, Frame(|s.history| + 1, op))
    requires s'.snapshot == s.snapshot && s'.wal == s.wal && s'.history == s.history + [op]
    ensures LogEndsWith(s', [])
  {
    hide Frames, Header, Frame;
    var base: nat :| LogIs(s, base, Frame(|s.history| + 1, op));
    assert s'.history[base..] == s.history[base..] + [op];
    FramesAppend(base + 1, s.history[base..], op);
    assert Frames(base + 1, s'.history[base..]) + [] == Frames(base + 1, s'.history[base..]);
    assert LogIs(s', base, []);
  }

  lemma SnapshotKeepsLog<C>(s: State<C>, s': State<C>, tail: seq<byte>)
    requires LogEndsWith(s, tail)
    requires s'.wal == s.wal && s'.history == s.history
    requires s'.snapshot.sequence == |s.history|
    ensures LogEndsWith(s', tail)
  {
    hide Frames, Header;
    var base: nat :| LogIs(s, base, tail);
    assert LogIs(s', base, tail);
  }

  lemma CompleteHeader<C>(s: State<C>)
    requires HeaderIs(s, WAL_HEADER_BYTES) && |s.history| < U64_LIMIT
    ensures LogIs(s, |s.history|, []) && LogEndsWith(s, [])
  {
    hide Header;
    assert s.history[|s.history|..] == [];
    assert Header()[..WAL_HEADER_BYTES] == Header();
    assert Frames(|s.history| + 1, []) + [] == [];
    assert LogIs(s, |s.history|, []);
  }

  lemma BeginKeepsInv<C(!new)>(sys: System<C>, s: State<C>, op: WalOperation, expected: Option<u64>)
    requires Honest(sys) && Inv(sys, s) && s.process.Up? && s.process.stage.Idle?
    ensures Inv(sys, LiveStep(sys, s, Begin(op, expected)))
  {
    hide Frames, Frame, Header, Appendable, Replay, Bump, LogEndsWith;
    var live := s.process.live;
    var s' := LiveStep(sys, s, Begin(op, expected));
    if sys.exec(op, live.catalog).ExecDone? && s' != s {
      var marks := sys.exec(op, live.catalog).marks;
      BumpChanges(live.revision, marks);
      if Bump(live.revision, marks) != live.revision {
        assert s'.process.stage.Appending?;
        SameFilesKeepLog(s, s', []);
        assert Frame(|s.history| + 1, op)[..0] == [];
        assert Commits(sys, op, live.catalog);
      }
    }
  }

  lemma SameFilesKeepLog<C>(s: State<C>, s': State<C>, tail: seq<byte>)
    requires LogEndsWith(s, tail)
    requires s'.wal == s.wal && s'.history == s.history && s'.snapshot == s.snapshot
    ensures LogEndsWith(s', tail)
  {
    hide Frames, Header;
    var base: nat :| LogIs(s, base, tail);
    assert LogIs(s', base, tail);
  }

  lemma TakeOneMore(b: seq<byte>, n: nat)
    requires n < |b|
    ensures b[..n] + [b[n]] == b[..n + 1]
  {
  }

  lemma WrittenByte<C>(s: State<C>, live: Live<C>, op: WalOperation, next: C, written: nat)
    requires s.process == Up(live, Appending(op, next, written)) && live.sequence == |s.history|
    requires |s.history| + 1 < U64_LIMIT && written < |Frame(|s.history| + 1, op)|
    requires LogEndsWith(s, Frame(|s.history| + 1, op)[..written])
    ensures var s' := s.(wal := s.wal + [Frame(|s.history| + 1, op)[written]],
                         process := Up(live, Appending(op, next, written + 1)));
      LogEndsWith(s', Frame(|s.history| + 1, op)[..written + 1])
  {
    hide Frame, LogEndsWith;
    var frame := Frame(|s.history| + 1, op);
    var s' := s.(wal := s.wal + [frame[written]], process := Up(live, Appending(op, next, written + 1)));
    TakeOneMore(frame, written);
    assert s'.wal[|s.wal|..] == [frame[written]];
    AppendKeepsLog(s, s', frame[..written], frame[..written + 1]);
  }

  lemma WriteKeepsInv<C>(sys: System<C>, s: State<C>)
    requires Inv(sys, s) && s.process.Up? && s.process.stage.Appending?
    ensures Inv(sys, LiveStep(sys, s, WriteRecordByte))
  {
    hide Frame, Appendable, Replay, LogEndsWith, FilesOk, AttemptOk;
    var live, stage := s.process.live, s.process.stage;
    if stage.written < |Frame(|s.history| + 1, stage.op)| {
      WrittenByte(s, live, stage.op, stage.next, stage.written);
    }
    SameOperations(sys, s, LiveStep(sys, s, WriteRecordByte));
  }

  /** What the invariant says of operations and snapshot does not depend on the log file or the process. */
  lemma SameOperations<C>(sys: System<C>, s: State<C>, s': State<C>)
    requires s'.history == s.history && s'.snapshot == s.snapshot && s'.attempt == s.attempt
    ensures FilesOk(sys, s') == FilesOk(sys, s) && AttemptOk(sys, s') == AttemptOk(sys, s)
  {
  }

  lemma PublishKeepsInv<C>(sys: System<C>, s: State<C>)
    requires Inv(sys, s) && s.process.Up? && s.process.stage.Appending?
    ensures Inv(sys, LiveStep(sys, s, Publish))
  {
    hide Frames, Frame, Header, Appendable, LogEndsWith, Commits, Replay;
    var s' := LiveStep(sys, s, Publish);
    var op := s.process.stage.op;
    if s' != s {
      var frame := Frame(|s.history| + 1, op);
      assert frame[..|frame|] == frame;
      PublishKeepsLog(s, s', op);
      ReplayNext(sys, s.history, op);
      assert s'.history[..s.snapshot.sequence] == s.history[..s.snapshot.sequence];
    }
  }

  lemma FailAppendKeepsInv<C>(sys: System<C>, s: State<C>)
    requires Inv(sys, s) && s.process.Up? && s.process.stage.Appending?
    ensures Inv(sys, LiveStep(sys, s, FailAppend))
  {
    hide Frames, Frame, Header, Appendable, LogEndsWith, Replay, FilesOk, AttemptTail;
    var s' := LiveStep(sys, s, FailAppend);
    SameOperations(sys, s, s');
    var tail := Frame(|s.history| + 1, s.process.stage.op)[..s.process.stage.written];
    SameFilesKeepLog(s, s', tail);
    AtRestWithTail(s', tail);
  }

  lemma CheckpointKeepsInv<C>(sys: System<C>, s: State<C>, step: Step)
    requires Inv(sys, s) && s.process.Up?
    requires step.SaveSnapshot? || step.FailSave? || step.TruncateLog? || step.FailReset?
    ensures Inv(sys, LiveStep(sys, s, step))
  {
    hide Frames, Frame, Header, Appendable, LogEndsWith, Commits, Replay;
    var s' := LiveStep(sys, s, step);
    if s' != s {
      assert s.history[..|s.history|] == s.history;
      match step
      case SaveSnapshot => SnapshotKeepsLog(s, s', []);
      case FailSave(_) => SnapshotKeepsLog(s, s', []);
      case TruncateLog =>
      case FailReset =>
        if s.process.stage.Saved? {
          SameFilesKeepLog(s, s', []);
          AtRestWithTail(s', []);
        } else {
          assert HeaderIs(s', s.process.stage.written);
        }
    }
  }

  lemma HeaderKeepsInv<C>(sys: System<C>, s: State<C>)
    requires Inv(sys, s)
    ensures Inv(sys, HeaderStep(s))
  {
    hide Frames, Frame, Header, Appendable, LogEndsWith, Commits, Replay;
    var s' := HeaderStep(s);
    if s' != s {
      var written := if s.process.Opening? then s.process.written else s.process.stage.written;
      assert Header()[..written] + [Header()[written]] == Header()[..written + 1];
    }
  }

  lemma CrashKeepsInv<C>(sys: System<C>, s: State<C>)
    requires Inv(sys, s)
    ensures Inv(sys, s.(process := Down))
  {
    hide Frames, Frame, Header, Appendable, LogEndsWith, Commits, Replay;
    var s' := s.(process := Down);
    match s.process
    case Down =>
    case Opening(written) => assert HeaderIs(s', written);
    case Up(live, stage) =>
      match stage
      case Idle =>
        if !live.failed {
          SameFilesKeepLog(s, s', []);
          AtRestWithTail(s', []);
        } else {
          RestMoves(s, s');
        }
      case Appending(op, next, written) =>
        var tail := Frame(|s.history| + 1, op)[..written];
        SameFilesKeepLog(s, s', tail);
        AtRestWithTail(s', tail);
      case Saved =>
        SameFilesKeepLog(s, s', []);
        AtRestWithTail(s', []);
      case Resetting(written) => assert HeaderIs(s', written);
  }

  lemma RestMoves<C>(s: State<C>, s': State<C>)
    requires AtRest(s) && s' == s.(process := s'.process)
    ensures AtRest(s')
  {
    hide Frames, Frame, Header, LogEndsWith;
    if written :| HeaderIs(s, written) {
      assert HeaderIs(s', written);
    } else {
      var tail :| LogEndsWith(s, tail) && AttemptTail(s, tail);
      SameFilesKeepLog(s, s', tail);
    }
  }

  /* ----- Reopening ----- */

  /** After a crash the files hold exactly `ops`: the visible operations, and possibly the one whose
      append was interrupted. The log holds those after the first `base`. */
  ghost predicate IsDurable<C>(s: State<C>, base: nat, ops: seq<WalOperation>) {
    && (ops == s.history || (s.attempt.Some? && ops == s.history + [s.attempt.value]))
    && base <= |ops| < U64_LIMIT && s.snapshot.sequence <= |ops|
    && (if |s.wal| < WAL_HEADER_BYTES then base == |ops| == s.snapshot.sequence
        else base <= s.snapshot.sequence
             && exists tail :: TornTail(tail) && s.wal == Header() + (Frames(base + 1, ops[base..]) + tail))
  }

  /** What a caller of the writer must respect for its log to stay readable. */
  predicate Readable(base: nat, ops: seq<WalOperation>)
    requires base <= |ops|
  {
    AllWithinCaps(ops[base..]) && |ops| + 1 < U64_LIMIT
  }

  lemma WholeTail<C>(s: State<C>, base: nat, op: WalOperation)
    requires |s.history| + 1 < U64_LIMIT && LogIs(s, base, Frame(|s.history| + 1, op))
    ensures s.wal == Header() + (Frames(base + 1, (s.history + [op])[base..]) + [])
  {
    hide Frames, Header, Frame;
    WholeFrameAtEnd(base, s.history, op);
    assert Frames(base + 1, (s.history + [op])[base..]) + [] == Frames(base + 1, (s.history + [op])[base..]);
  }

  lemma DurableLog<C>(sys: System<C>, s: State<C>) returns (base: nat, ops: seq<WalOperation>)
    requires Inv(sys, s) && s.process.Down?
    ensures IsDurable(s, base, ops) && Executable(sys, ops) && AllAppendable(ops)
    ensures ops[..s.snapshot.sequence] == s.history[..s.snapshot.sequence]
  {
    hide Frames, Header, Frame, Appendable, Commits, Replay, TornTail;
    ops := s.history;
    if written: nat :| HeaderIs(s, written) {
      base := |s.history|;
      if written == WAL_HEADER_BYTES {
        CompleteHeader(s);
        NoTailIsTorn();
        assert TornTail([]) && s.wal == Header() + (Frames(base + 1, ops[base..]) + []);
      }
    } else {
      var tail :| LogEndsWith(s, tail) && AttemptTail(s, tail);
      var b: nat :| LogIs(s, b, tail);
      base := b;
      if s.attempt.Some? && tail == Frame(|s.history| + 1, s.attempt.value) && tail != [] {
        ops := s.history + [s.attempt.value];
        WholeTail(s, base, s.attempt.value);
        NoTailIsTorn();
        assert TornTail([]) && s.wal == Header() + (Frames(base + 1, ops[base..]) + []);
        ReplayNext(sys, s.history, s.attempt.value);
      } else {
        AttemptIsTorn(s, tail);
        assert TornTail(tail) && s.wal == Header() + (Frames(base + 1, ops[base..]) + tail);
      }
    }
  }

  lemma NoTailIsTorn()
    ensures TornTail([])
  {
  }

  lemma AttemptIsTorn<C>(s: State<C>, tail: seq<byte>)
    requires AttemptTail(s, tail) && (s.attempt.Some? ==> Appendable(s.attempt.value))
    requires tail == [] || tail != Frame(|s.history| + 1, s.attempt.value)
    ensures TornTail(tail)
  {
    hide Frame, Appendable;
    if tail != [] {
      assert TornFrame(tail, |s.history| + 1, s.attempt.value);
    }
  }

  lemma SuffixOps(ops: seq<WalOperation>, base: nat)
    requires base <= |ops| && AllAppendable(ops)
    ensures AllAppendable(ops[base..])
  {
  }

  /** Bringing the process up with the records of `ops` after `base`. */
  lemma StartOutcome<C>(sys: System<C>, s: State<C>, base: nat, ops: seq<WalOperation>, wal: seq<byte>)
    requires FilesOk(sys, s) && Executable(sys, ops) && |ops| < U64_LIMIT
    requires ops == s.history || (s.attempt.Some? && ops == s.history + [s.attempt.value])
    requires base <= s.snapshot.sequence <= |ops|
    requires ops[..s.snapshot.sequence] == s.history[..s.snapshot.sequence]
    ensures Start(sys, s, Records(base + 1, ops[base..]), wal) ==
            if |ops| + 1 < U64_LIMIT
            then s.(wal := wal, history := ops, attempt := None,
                    process := Up(Live(Replay(sys, ops), |ops|, |ops|, false, |wal|), Idle))
            else s.(wal := wal, process := Down)
  {
    hide Frames, Header, Frame, Appendable, Commits, Replay, Records, Recover;
    RecoverRebuilds(sys, ops, base, s.snapshot, |wal|);
    assert s.history + [] == s.history;
  }

  /** Opening the files of a stopped database, once the header is complete. */
  lemma OpenOutcome<C>(sys: System<C>, s: State<C>, base: nat, ops: seq<WalOperation>)
    requires Inv(sys, s) && s.process.Down? && |s.wal| >= WAL_HEADER_BYTES
    requires IsDurable(s, base, ops) && Executable(sys, ops) && AllAppendable(ops)
    requires ops[..s.snapshot.sequence] == s.history[..s.snapshot.sequence]
    ensures var wal := Header() + Frames(base + 1, ops[base..]);
      OpenStep(sys, s) ==
      if !sys.loads(s.snapshot) || !AllWithinCaps(ops[base..]) then s
      else if |ops| + 1 < U64_LIMIT
      then s.(wal := wal, history := ops, attempt := None,
              process := Up(Live(Replay(sys, ops), |ops|, |ops|, false, |wal|), Idle))
      else s.(wal := wal)
  {
    hide Frames, Header, Frame, Appendable, Commits, Replay, TornTail, Records, OpenLog, Start;
    var tail :| TornTail(tail) && s.wal == Header() + (Frames(base + 1, ops[base..]) + tail);
    SuffixOps(ops, base);
    OpenWrittenLog(base + 1, ops[base..], tail);
    StartOutcome(sys, s, base, ops, Header() + Frames(base + 1, ops[base..]));
  }

  lemma OpenKeepsInv<C>(sys: System<C>, s: State<C>)
    requires Inv(sys, s) && s.process.Down?
    ensures Inv(sys, OpenStep(sys, s))
  {
    hide Frames, Header, Frame, Appendable, Commits, Replay, TornTail, OpenLog, Start, LogEndsWith;
    if !sys.loads(s.snapshot) {
    } else if |s.wal| < WAL_HEADER_BYTES {
      ShortLogIsHeader(s);
      assert Header()[..0] == [];
    } else {
      var base, ops := DurableLog(sys, s);
      OpenOutcome(sys, s, base, ops);
      var s' := OpenStep(sys, s);
      if s' != s {
        var frames := Frames(base + 1, ops[base..]);
        assert s'.wal == Header() + frames && frames + [] == frames;
        if s'.process.Up? {
          assert LogIs(s', base, []);
          LogIsEnds(s', base, []);
        } else if ops == s.history {
          assert LogIs(s', base, []);
          LogIsEnds(s', base, []);
          AtRestWithTail(s', []);
        } else {
          ExhaustedKeepsRest(s, s', base);
        }
      }
    }
  }

  lemma LogIsEnds<C>(s: State<C>, base: nat, tail: seq<byte>)
    requires LogIs(s, base, tail)
    ensures LogEndsWith(s, tail)
  {
  }

  lemma LogIsLong<C>(s: State<C>, tail: seq<byte>)
    requires LogEndsWith(s, tail)
    ensures |s.wal| >= WAL_HEADER_BYTES
  {
    hide Frames, Header;
  }

  lemma ShortLogIsHeader<C>(s: State<C>)
    requires AtRest(s)
    ensures |s.wal| >= WAL_HEADER_BYTES || s.snapshot.sequence == |s.history|
  {
    hide LogEndsWith;
    if tail: seq<byte> :| LogEndsWith(s, tail) {
      LogIsLong(s, tail);
    }
  }

  lemma WholeFrameAtEnd(base: nat, history: seq<WalOperation>, op: WalOperation)
    requires base <= |history| && |history| + 1 < U64_LIMIT
    ensures Frames(base + 1, (history + [op])[base..]) ==
            Frames(base + 1, history[base..]) + Frame(|history| + 1, op)
  {
    hide Frames, Frame;
    assert (history + [op])[base..] == history[base..] + [op];
    FramesAppend(base + 1, history[base..], op);
  }

  lemma ExhaustedKeepsRest<C>(s: State<C>, s': State<C>, base: nat)
    requires s.attempt.Some? && |s.history| + 1 < U64_LIMIT && base <= s.snapshot.sequence <= |s.history|
    requires s' == s.(wal := Header() + Frames(base + 1, (s.history + [s.attempt.value])[base..]))
    ensures AtRest(s')
  {
    hide Frames, Header, Frame, LogEndsWith, AtRest;
    var frame := Frame(|s.history| + 1, s.attempt.value);
    WholeFrameAtEnd(base, s.history, s.attempt.value);
    assert LogIs(s', base, frame);
    LogIsEnds(s', base, frame);
    assert AttemptTail(s', frame);
    AtRestWithTail(s', frame);
  }

  lemma FinishKeepsInv<C>(sys: System<C>, s: State<C>)
    requires Inv(sys, s)
    ensures Inv(sys, FinishStep(sys, s))
  {
    hide Frames, Header, Frame, Appendable, Commits, Replay, Start, LogEndsWith;
    var s' := FinishStep(sys, s);
    if s' != s {
      CompleteHeader(s);
      assert s.history[|s.history|..] == [] && Records(|s.history| + 1, []) == [];
      assert Header()[..WAL_HEADER_BYTES] == Header();
      if s.process.Opening? {
        StartOutcome(sys, s, |s.history|, s.history, s.wal);
        SameFilesKeepLog(s, s', []);
        AtRestWithTail(s', []);
      } else {
        SameFilesKeepLog(s, s', []);
      }
    }
  }

  lemma NextKeepsInv<C(!new)>(sys: System<C>, s: State<C>, step: Step)
    requires Honest(sys) && Inv(sys, s)
    ensures Inv(sys, Next(sys, s, step))
  {
    hide Inv, OpenStep, HeaderStep, FinishStep;
    match step
    case Crash => CrashKeepsInv(sys, s);
    case Open =>
      if s.process.Down? {
        OpenKeepsInv(sys, s);
      }
    case WriteHeaderByte => HeaderKeepsInv(sys, s);
    case FinishReset => FinishKeepsInv(sys, s);
    case _ =>
      if s.process.Up? {
        LiveStepKeepsInv(sys, s, step);
      }
  }

  lemma LiveStepKeepsInv<C(!new)>(sys: System<C>, s: State<C>, step: Step)
    requires Honest(sys) && Inv(sys, s) && s.process.Up?
    ensures Inv(sys, LiveStep(sys, s, step))
  {
    hide Inv;
    match (step, s.process.stage)
    case (Begin(op, expected), Idle) => BeginKeepsInv(sys, s, op, expected);
    case (WriteRecordByte, Appending(_, _, _)) => WriteKeepsInv(sys, s);
    case (Publish, Appending(_, _, _)) => PublishKeepsInv(sys, s);
    case (FailAppend, Appending(_, _, _)) => FailAppendKeepsInv(sys, s);
    case (SaveSnapshot, _) => CheckpointKeepsInv(sys, s, step);
    case (FailSave(_), _) => CheckpointKeepsInv(sys, s, step);
    case (TruncateLog, _) => CheckpointKeepsInv(sys, s, step);
    case (FailReset, _) => CheckpointKeepsInv(sys, s, step);
    case _ =>
  }

  lemma InitHolds<C>(sys: System<C>)
    ensures Inv(sys, Init(sys))
  {
    assert HeaderIs(Init(sys), 0);
  }

  /** The invariant holds after every run. */
  lemma {:induction false} RunKeepsInv<C(!new)>(sys: System<C>, s: State<C>, steps: seq<Step>)
    requires Honest(sys) && Inv(sys, s)
    ensures Inv(sys, Run(sys, s, steps))
    decreases |steps|
  {
    hide Inv, Next;
    if steps != [] {
      RunKeepsInv(sys, s, steps[..|steps| - 1]);
      NextKeepsInv(sys, Run(sys, s, steps[..|steps| - 1]), steps[|steps| - 1]);
    }
  }

  /* ----- Crash safety ----- */

  lemma {:induction false} RunConcat<C>(sys: System<C>, s: State<C>, a: seq<Step>, b: seq<Step>)
    ensures Run(sys, s, a + b) == Run(sys, Run(sys, s, a), b)
    decreases |b|
  {
    hide Next;
    if b == [] {
      assert a + b == a;
    } else {
      var n := |b| - 1;
      assert (a + b)[..|a + b| - 1] == a + b[..n];
      RunConcat(sys, s, a, b[..n]);
    }
  }

  lemma RunLast<C>(sys: System<C>, s: State<C>, steps: seq<Step>, step: Step)
    ensures Run(sys, s, steps + [step]) == Next(sys, Run(sys, s, steps), step)
  {
    hide Next;
    assert (steps + [step])[..|steps|] == steps;
  }

  lemma RunOne<C>(sys: System<C>, s: State<C>, step: Step)
    ensures Run(sys, s, [step]) == Next(sys, s, step)
  {
    hide Next;
    assert [step][..0] == [];
  }

  function Repeat(step: Step, n: nat): (steps: seq<Step>)
    ensures |steps| == n
  {
    seq(n, i => step)
  }

  lemma RepeatNext(step: Step, n: nat)
    ensures Repeat(step, n + 1) == Repeat(step, n) + [step]
  {
  }

  /** The steps of an undisturbed reopening. */
  function Reopening<C>(s: State<C>): seq<Step> {
    if |s.wal| < WAL_HEADER_BYTES then [Open] + Repeat(WriteHeaderByte, WAL_HEADER_BYTES) + [FinishReset] else [Open]
  }

  lemma {:induction false} WriteHeader<C>(sys: System<C>, s: State<C>, n: nat)
    requires s.process == Opening(0) && s.wal == [] && n <= WAL_HEADER_BYTES
    ensures Run(sys, s, Repeat(WriteHeaderByte, n)) == s.(wal := Header()[..n], process := Opening(n))
    decreases n
  {
    hide Header;
    if n > 0 {
      assert Repeat(WriteHeaderByte, n)[..n - 1] == Repeat(WriteHeaderByte, n - 1);
      WriteHeader(sys, s, n - 1);
      assert Header()[..n - 1] + [Header()[n - 1]] == Header()[..n];
    }
  }

  lemma ReopenShort<C>(sys: System<C>, s: State<C>)
    requires s.process.Down? && |s.wal| < WAL_HEADER_BYTES && sys.loads(s.snapshot)
    ensures Run(sys, s, Reopening(s)) == Start(sys, s.(wal := Header(), process := Opening(WAL_HEADER_BYTES)), [], Header())
  {
    hide Header, Start;
    var started := s.(wal := [], process := Opening(0));
    RunConcat(sys, s, [Open], Repeat(WriteHeaderByte, WAL_HEADER_BYTES));
    RunOne(sys, s, Open);
    WriteHeader(sys, started, WAL_HEADER_BYTES);
    assert Header()[..WAL_HEADER_BYTES] == Header();
    RunConcat(sys, s, [Open] + Repeat(WriteHeaderByte, WAL_HEADER_BYTES), [FinishReset]);
    RunOne(sys, s.(wal := Header(), process := Opening(WAL_HEADER_BYTES)), FinishReset);
  }

  /** With a snapshot that the reader refuses nothing brings the database up again. */
  lemma {:induction false} StaysDown<C>(sys: System<C>, s: State<C>, steps: seq<Step>)
    requires s.process.Down? && !sys.loads(s.snapshot)
    ensures Run(sys, s, steps) == s
    decreases |steps|
  {
    hide Header, Start, OpenLog;
    if steps != [] {
      StaysDown(sys, s, steps[..|steps| - 1]);
    }
  }

  /** The database is up, idle and unimpaired, and shows exactly `ops`. */
  ghost predicate Shows<C>(sys: System<C>, s: State<C>, ops: seq<WalOperation>) {
    && s.process.Up? && s.process.stage.Idle? && !s.process.live.failed
    && s.history == ops && |ops| < U64_LIMIT
    && LiveOk(sys, s, s.process.live)
  }

  lemma ReopenStopped<C>(sys: System<C>, s: State<C>) returns (base: nat, ops: seq<WalOperation>)
    requires Inv(sys, s) && s.process.Down?
    ensures IsDurable(s, base, ops)
    ensures if sys.loads(s.snapshot) && Readable(base, ops) then Shows(sys, Run(sys, s, Reopening(s)), ops)
            else Run(sys, s, Reopening(s)).process.Down?
  {
    hide Frames, Header, Frame, Appendable, Commits, Replay, TornTail, Start, AtRest, Run, Records;
    base, ops := DurableLog(sys, s);
    if !sys.loads(s.snapshot) {
      StaysDown(sys, s, Reopening(s));
    } else if |s.wal| < WAL_HEADER_BYTES {
      ReopenShort(sys, s);
      assert ops[base..] == [] && Records(base + 1, []) == [] by {
        NoRecords(base + 1, []);
      }
      StartOutcome(sys, s.(wal := Header(), process := Opening(WAL_HEADER_BYTES)), base, ops, Header());
    } else {
      OpenOutcome(sys, s, base, ops);
      RunOne(sys, s, Open);
    }
  }

  /** Crash safety over all runs. Stop any run of any database at any byte: the files then hold the
      visible operations in order, or those and the single operation whose append was cut off or
      failed. An undisturbed reopening shows exactly them, if and only if the reader takes the snapshot, the
      records in the log respect its caps, and a next sequence number is left. */
  lemma CrashSafety<C(!new)>(sys: System<C>, steps: seq<Step>) returns (base: nat, ops: seq<WalOperation>)
    requires Honest(sys)
    ensures var s := Run(sys, Init(sys), steps + [Crash]);
      && IsDurable(s, base, ops)
      && if sys.loads(s.snapshot) && Readable(base, ops) then Shows(sys, Run(sys, s, Reopening(s)), ops)
         else Run(sys, s, Reopening(s)).process.Down?
  {
    hide Inv, IsDurable, Readable, Shows, Reopening;
    InitHolds(sys);
    RunKeepsInv(sys, Init(sys), steps + [Crash]);
    RunConcat(sys, Init(sys), steps, [Crash]);
    RunOne(sys, Run(sys, Init(sys), steps), Crash);
    base, ops := ReopenStopped(sys, Run(sys, Init(sys), steps + [Crash]));
  }

  /** History is never reordered, shortened or rewritten: a step leaves it alone, or appends the
      operation whose append was under way, either by publishing it or by finding it on reopening. */
  lemma HistoryStep<C>(sys: System<C>, s: State<C>, step: Step)
    requires Inv(sys, s)
    ensures var s' := Next(sys, s, step);
      || s'.history == s.history
      || (&& s.attempt.Some? && s'.history == s.history + [s.attempt.value]
          && (step.Publish? || step.Open? || step.FinishReset?))
  {
    hide Frames, Header, Frame, Appendable, Commits, Replay, AtRest, LogEndsWith, OpenLog, Recover;
    assert s.history + [] == s.history;
  }

  lemma {:induction false} HistoryGrows<C(!new)>(sys: System<C>, s: State<C>, steps: seq<Step>)
    requires Honest(sys) && Inv(sys, s)
    ensures s.history <= Run(sys, s, steps).history
    decreases |steps|
  {
    hide Inv, Next;
    if steps != [] {
      var init := steps[..|steps| - 1];
      HistoryGrows(sys, s, init);
      RunKeepsInv(sys, s, init);
      HistoryStep(sys, Run(sys, s, init), steps[|steps| - 1]);
    }
  }

  lemma RunPrefix<C(!new)>(sys: System<C>, steps: seq<Step>, i: nat, j: nat)
    requires Honest(sys) && i <= j <= |steps|
    ensures Inv(sys, Run(sys, Init(sys), steps[..i])) && Inv(sys, Run(sys, Init(sys), steps[..j]))
    ensures Run(sys, Init(sys), steps[..i]).history <= Run(sys, Init(sys), steps[..j]).history
  {
    hide Inv, Next, Run, Init;
    InitHolds(sys);
    RunKeepsInv(sys, Init(sys), steps[..i]);
    RunKeepsInv(sys, Init(sys), steps[..j]);
    assert steps[..j] == steps[..i] + steps[i..j];
    RunConcat(sys, Init(sys), steps[..i], steps[i..j]);
    HistoryGrows(sys, Run(sys, Init(sys), steps[..i]), steps[i..j]);
  }

  lemma UpIsLive<C>(sys: System<C>, s: State<C>)
    requires Inv(sys, s) && s.process.Up?
    ensures LiveOk(sys, s, s.process.live)
  {
  }

  /** In one run, crashes and reopenings included, a revision never names two different visible
      catalogs, and it always equals the durable sequence and the number of operations shown. */
  lemma RevisionNamesOneCatalog<C(!new)>(sys: System<C>, steps: seq<Step>, i: nat, j: nat)
    requires Honest(sys) && i <= j <= |steps|
    requires Run(sys, Init(sys), steps[..i]).process.Up? && Run(sys, Init(sys), steps[..j]).process.Up?
    ensures var a, b := Run(sys, Init(sys), steps[..i]).process.live, Run(sys, Init(sys), steps[..j]).process.live;
      && a.revision == a.sequence == |Run(sys, Init(sys), steps[..i]).history|
      && a.revision <= b.revision
      && (a.revision == b.revision ==> a.catalog == b.catalog)
  {
    hide Run, Init, Replay, Inv;
    RunPrefix(sys, steps, i, j);
    UpIsLive(sys, Run(sys, Init(sys), steps[..i]));
    UpIsLive(sys, Run(sys, Init(sys), steps[..j]));
    SameLengthPrefix(Run(sys, Init(sys), steps[..i]).history, Run(sys, Init(sys), steps[..j]).history);
  }

  lemma SameLengthPrefix(a: seq<WalOperation>, b: seq<WalOperation>)
    requires a <= b
    ensures |a| <= |b| && (|a| == |b| ==> a == b)
  {
  }

  /** A conditional edit is accepted only if nothing became visible since its revision was read. */
  lemma ConditionalEdit<C(!new)>(sys: System<C>, steps: seq<Step>, i: nat, j: nat, op: WalOperation)
    requires Honest(sys) && i <= j <= |steps|
    requires Run(sys, Init(sys), steps[..i]).process.Up?
    ensures var a, b := Run(sys, Init(sys), steps[..i]), Run(sys, Init(sys), steps[..j]);
      Next(sys, b, Begin(op, Some(a.process.live.revision))) != b ==>
        a.history == b.history && b.process.Up? && a.process.live.catalog == b.process.live.catalog
  {
    hide Run, Init, Replay, Bump;
    RunPrefix(sys, steps, i, j);
  }

  /* ----- Commits ----- */

  /** The steps of an undisturbed commit. */
  function Committing(sequence: u64, op: WalOperation): seq<Step> {
    [Begin(op, None)] + Repeat(WriteRecordByte, |Frame(sequence, op)|) + [Publish]
  }

  lemma WriteOne<C>(sys: System<C>, s: State<C>, live: Live<C>, op: WalOperation, next: C, written: nat)
    requires s.process == Up(live, Appending(op, next, written))
    requires live.sequence + 1 < U64_LIMIT && written < |Frame(live.sequence + 1, op)|
    ensures Next(sys, s, WriteRecordByte) ==
            s.(wal := s.wal + [Frame(live.sequence + 1, op)[written]],
               process := Up(live, Appending(op, next, written + 1)))
  {
    hide Frame;
  }

  lemma BytesSoFar(wal: seq<byte>, frame: seq<byte>, n: nat)
    requires n < |frame|
    ensures wal + frame[..n] + [frame[n]] == wal + frame[..n + 1]
  {
    TakeOneMore(frame, n);
    Assoc(wal, frame[..n], [frame[n]]);
  }

  lemma {:induction false} WriteRecord<C>(
      sys: System<C>, s: State<C>, live: Live<C>, op: WalOperation, next: C, n: nat)
    requires s.process == Up(live, Appending(op, next, 0))
    requires live.sequence + 1 < U64_LIMIT && n <= |Frame(live.sequence + 1, op)|
    ensures Run(sys, s, Repeat(WriteRecordByte, n)) ==
            s.(wal := s.wal + Frame(live.sequence + 1, op)[..n], process := Up(live, Appending(op, next, n)))
    decreases n
  {
    hide Frame, Next;
    var frame := Frame(live.sequence + 1, op);
    if n == 0 {
      assert s.wal + frame[..0] == s.wal && Repeat(WriteRecordByte, 0) == [];
    } else {
      hide Run, Repeat;
      RepeatNext(WriteRecordByte, n - 1);
      WriteRecord(sys, s, live, op, next, n - 1);
      var before := Run(sys, s, Repeat(WriteRecordByte, n - 1));
      RunLast(sys, s, Repeat(WriteRecordByte, n - 1), WriteRecordByte);
      WriteOne(sys, before, live, op, next, n - 1);
      BytesSoFar(s.wal, frame, n - 1);
    }
  }

  lemma BeginOutcome<C>(sys: System<C>, s: State<C>, live: Live<C>, op: WalOperation)
    requires s.process == Up(live, Idle) && !live.failed
    requires live.sequence + 1 < U64_LIMIT && Appendable(op) && Commits(sys, op, live.catalog)
    ensures Next(sys, s, Begin(op, None)) ==
            s.(process := Up(live, Appending(op, sys.exec(op, live.catalog).catalog, 0)), attempt := Some(op))
  {
    hide Frame, Appendable, Bump;
    BumpChanges(live.revision, sys.exec(op, live.catalog).marks);
  }

  lemma PublishOutcome<C>(sys: System<C>, s: State<C>, live: Live<C>, op: WalOperation, next: C)
    requires live.sequence + 1 < U64_LIMIT
    requires s.process == Up(live, Appending(op, next, |Frame(live.sequence + 1, op)|))
    ensures var n := live.sequence + 1;
      Next(sys, s, Publish) ==
      s.(history := s.history + [op], attempt := None,
         process := Up(Live(next, n, n, false, live.bytes + |Frame(n, op)|), Idle))
  {
    hide Frame;
  }

  /** An undisturbed commit extends the log by one frame and shows the new catalog under the next
      sequence number. */
  lemma CommitRun<C>(sys: System<C>, s: State<C>, live: Live<C>, op: WalOperation)
    requires s.process == Up(live, Idle) && !live.failed
    requires live.sequence + 1 < U64_LIMIT && Appendable(op) && Commits(sys, op, live.catalog)
    ensures var n := live.sequence + 1;
      Run(sys, s, Committing(n, op)) ==
      s.(wal := s.wal + Frame(n, op), history := s.history + [op], attempt := None,
         process := Up(Live(sys.exec(op, live.catalog).catalog, n, n, false, live.bytes + |Frame(n, op)|), Idle))
  {
    hide Frame, Appendable, Bump, Next, Run, Commits;
    var n := live.sequence + 1;
    CommitsIsDone(sys, op, live.catalog);
    var frame, next := Frame(n, op), sys.exec(op, live.catalog).catalog;
    var begun := s.(process := Up(live, Appending(op, next, 0)), attempt := Some(op));
    BeginOutcome(sys, s, live, op);
    RunOne(sys, s, Begin(op, None));
    RunConcat(sys, s, [Begin(op, None)], Repeat(WriteRecordByte, |frame|));
    WriteRecord(sys, begun, live, op, next, |frame|);
    assert frame[..|frame|] == frame;
    RunConcat(sys, s, [Begin(op, None)] + Repeat(WriteRecordByte, |frame|), [Publish]);
    var written := begun.(wal := s.wal + frame, process := Up(live, Appending(op, next, |frame|)));
    PublishOutcome(sys, written, live, op, next);
    RunOne(sys, written, Publish);
  }

  /** The reader's caps are not checked by the writer: committing one operation over a cap is
      acknowledged, and from then until the next checkpoint no reopening succeeds. */
  lemma OverCapCommitIsUnreadable<C(!new)>(sys: System<C>, s: State<C>, live: Live<C>, op: WalOperation)
    requires Honest(sys) && Inv(sys, s) && s.process == Up(live, Idle) && !live.failed
    requires live.sequence + 1 < U64_LIMIT && Appendable(op) && Commits(sys, op, live.catalog)
    requires !WithinCaps(op)
    ensures var done := Run(sys, s, Committing(live.sequence + 1, op) + [Crash]);
      && done.history == s.history + [op]
      && Run(sys, done, Reopening(done)).process.Down?
  {
    hide Inv, Run, Frame, Appendable, Commits, WithinCaps, Next, Reopening, Replay, LiveOk, Committing, Frames, Header;
    var steps := Committing(live.sequence + 1, op);
    UpIsLive(sys, s);
    LiveSequence(sys, s);
    CommitRun(sys, s, live, op);
    RunConcat(sys, s, steps, [Crash]);
    RunOne(sys, Run(sys, s, steps), Crash);
    var done := Run(sys, s, steps + [Crash]);
    RunKeepsInv(sys, s, steps + [Crash]);
    CrashOutcome(sys, Run(sys, s, steps));
    IdleLogIsLong(sys, s);
    var base, ops := ReopenStopped(sys, done);
    assert ops == done.history;
    if base <= |s.history| {
      assert ops[base..][|s.history| - base] == op;
    }
  }

  lemma LiveSequence<C>(sys: System<C>, s: State<C>)
    requires s.process.Up? && LiveOk(sys, s, s.process.live)
    ensures s.process.live.sequence == |s.history|
  {
  }

  lemma CrashOutcome<C>(sys: System<C>, s: State<C>)
    ensures Next(sys, s, Crash) == s.(process := Down)
  {
  }

  lemma IdleLogIsLong<C>(sys: System<C>, s: State<C>)
    requires Inv(sys, s) && s.process.Up? && s.process.stage.Idle? && !s.process.live.failed
    ensures |s.wal| >= WAL_HEADER_BYTES && s.snapshot.sequence <= |s.history|
  {
    hide LogEndsWith, Replay, Executable, AllAppendable;
    LogIsLong(s, []);
  }

  /* ----- Snapshots the reader refuses ----- */

  /** The snapshot on disk is the empty one of a new database, or one that the format could hold. */
  lemma {:induction false} SnapshotWasSaved<C>(sys: System<C>, steps: seq<Step>)
    ensures var s := Run(sys, Init(sys), steps); s.snapshot == Snapshot(sys.empty, 0) || sys.saves(s.snapshot)
    decreases |steps|
  {
    hide Header, OpenLog, Recover, Frame, Appendable, Bump;
    if steps != [] {
      SnapshotWasSaved(sys, steps[..|steps| - 1]);
    }
  }

  /** A catalog that the format holds but the reader refuses: a checkpoint succeeds, and after the next stop the
      database never opens again, whatever is tried. */
  lemma UnloadableCheckpointIsFatal<C>(sys: System<C>, s: State<C>, live: Live<C>, steps: seq<Step>)
    requires s.process == Up(live, Idle) && !live.failed
    requires var snapshot := Snapshot(live.catalog, live.sequence); sys.saves(snapshot) && !sys.loads(snapshot)
    ensures var saved := Run(sys, s, [SaveSnapshot]);
      && saved == s.(snapshot := Snapshot(live.catalog, live.sequence), process := Up(live, Saved))
      && Run(sys, saved, [Crash] + steps) == saved.(process := Down)
  {
    hide Next, Run;
    SavesOnce(sys, s, live);
    RunOne(sys, s, SaveSnapshot);
    var saved := Run(sys, s, [SaveSnapshot]);
    RunConcat(sys, saved, [Crash], steps);
    RunOne(sys, saved, Crash);
    CrashOutcome(sys, saved);
    StaysDown(sys, saved.(process := Down), steps);
  }

  lemma SavesOnce<C>(sys: System<C>, s: State<C>, live: Live<C>)
    requires s.process == Up(live, Idle) && !live.failed && sys.saves(Snapshot(live.catalog, live.sequence))
    ensures Next(sys, s, SaveSnapshot) == s.(snapshot := Snapshot(live.catalog, live.sequence), process := Up(live, Saved))
  {
  }
}
